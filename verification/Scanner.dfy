/** Searching a model file through overlapping windows. Characters stand for bytes. */
module Scanner {
  import opened Numbers
  import opened Wrappers

  // ---- Patterns ----

  /** A byte, any run of white space, or everything up to the next such byte, which
      is what a match captures. */
  datatype Atom = Byte(c: char) | Spaces | Until(c: char)

  type Pattern = seq<Atom>

  predicate IsSpace(c: char) {
    c == ' ' || c == '\t' || c == '\n' || c == '\r' || c == '\U{0C}'
  }

  /** The match of p at the start of s: its length and its capture. */
  function Match(p: Pattern, s: string): (r: Option<(nat, string)>)
    ensures r.Some? ==> r.value.0 <= |s|
    decreases |p| + |s|
  {
    if p == [] then Some((0, ""))
    else
      match p[0]
      case Byte(c) =>
        if s == "" || s[0] != c then None else Longer(Match(p[1..], s[1..]), "")
      case Spaces =>
        if s != "" && IsSpace(s[0]) then Longer(Match(p, s[1..]), "") else Match(p[1..], s)
      case Until(c) =>
        if s == "" then None
        else if s[0] == c then Match(p[1..], s)
        else Longer(Match(p, s[1..]), [s[0]])
  }

  function Longer(m: Option<(nat, string)>, captured: string): Option<(nat, string)> {
    match m
    case None => None
    case Some((n, capture)) => Some((n + 1, captured + capture))
  }

  /** The leftmost match in s: its place and its capture. */
  function Find(p: Pattern, s: string): (r: Option<(nat, string)>)
    ensures r.Some? ==> r.value.0 <= |s|
    decreases |s|
  {
    match Match(p, s)
    case Some((_, capture)) => Some((0, capture))
    case None =>
      if s == "" then None
      else
        match Find(p, s[1..])
        case None => None
        case Some((i, capture)) => Some((i + 1, capture))
  }

  /** Captures go up to the byte q, and white space is followed by some other byte: a
      match is then settled by its own text. */
  predicate Settled(p: Pattern, q: char) {
    p == []
    || ((match p[0]
         case Byte(_) => true
         case Spaces => |p| > 1 && p[1].Byte? && !IsSpace(p[1].c)
         case Until(c) => c == q && |p| > 1 && p[1] == Byte(q))
        && Settled(p[1..], q))
  }

  /** Settled patterns that start with q itself. */
  predicate Scannable(p: Pattern, q: char) {
    p != [] && p[0] == Byte(q) && !IsSpace(q) && Settled(p, q)
  }

  /** The text of a match is all that matters to it. */
  lemma {:induction false} MatchIsLocal(p: Pattern, q: char, s: string, t: string)
    requires Settled(p, q) && Match(p, s).Some? && s[..Match(p, s).value.0] <= t
    ensures Match(p, t) == Match(p, s)
    decreases |p| + |s|
  {
    if p != [] {
      var n := Match(p, s).value.0;
      if p[0].Byte? || (p[0].Spaces? && s != "" && IsSpace(s[0])) || (p[0].Until? && s[0] != p[0].c) {
        assert n > 0 && s[0] == s[..n][0] == t[0];
        assert s[..n][1..] == s[1..][..n - 1] && s[..n][1..] <= t[1..];
        MatchIsLocal(if p[0].Byte? then p[1..] else p, q, s[1..], t[1..]);
      } else {
        assert p[1].Byte? && s[0] == p[1].c;
        assert n > 0 && s[0] == s[..n][0] == t[0];
        MatchIsLocal(p[1..], q, s, t);
      }
    }
  }

  // ---- Matches end in the order they start ----

  function Count(s: string, q: char): nat {
    if s == "" then 0 else (if s[0] == q then 1 else 0) + Count(s[1..], q)
  }

  lemma {:induction false} CountConcat(s: string, t: string, q: char)
    ensures Count(s + t, q) == Count(s, q) + Count(t, q)
  {
    if s == "" {
      assert s + t == t;
    } else {
      assert (s + t)[1..] == s[1..] + t;
      CountConcat(s[1..], t, q);
    }
  }

  function BytesOf(p: Pattern, q: char): nat {
    if p == [] then 0 else (if p[0] == Byte(q) then 1 else 0) + BytesOf(p[1..], q)
  }

  /** Every match holds the same number of q's. */
  lemma {:induction false} MatchCount(p: Pattern, q: char, s: string)
    requires Settled(p, q) && !IsSpace(q) && Match(p, s).Some?
    ensures Count(s[..Match(p, s).value.0], q) == BytesOf(p, q)
    decreases |p| + |s|
  {
    if p != [] {
      var n := Match(p, s).value.0;
      if p[0].Byte? || (p[0].Spaces? && s != "" && IsSpace(s[0])) || (p[0].Until? && s[0] != p[0].c) {
        MatchCount(if p[0].Byte? then p[1..] else p, q, s[1..]);
        assert s[..n][1..] == s[1..][..n - 1];
      } else {
        MatchCount(p[1..], q, s);
      }
    }
  }

  lemma CountOfPart(s: string, i: nat, j: nat, n: nat, q: char)
    requires 0 < i <= j <= n <= |s| && s[0] == q
    ensures Count(s[i..j], q) < Count(s[..n], q)
  {
    assert s[..n] == s[..i] + s[i..j] + s[j..n];
    CountConcat(s[..i] + s[i..j], s[j..n], q);
    CountConcat(s[..i], s[i..j], q);
  }

  /** No match lies inside an earlier one: both hold the same number of q's. */
  lemma EndsInOrder(p: Pattern, q: char, s: string, i: nat)
    requires Scannable(p, q) && 0 < i <= |s| && Match(p, s).Some? && Match(p, s[i..]).Some?
    ensures Match(p, s).value.0 <= i + Match(p, s[i..]).value.0
  {
    var n, m := Match(p, s).value.0, Match(p, s[i..]).value.0;
    MatchCount(p, q, s);
    MatchCount(p, q, s[i..]);
    assert s[i..][..m] == s[i..i + m];
    if i + m < n {
      CountOfPart(s, i, i + m, n, q);
      assert false;
    }
  }

  // ---- Finding ----

  lemma {:induction false} FindIsLeftmost(p: Pattern, s: string)
    ensures Find(p, s).None? ==> forall j :: 0 <= j <= |s| ==> Match(p, s[j..]).None?
    ensures Find(p, s).Some? ==>
              var (i, capture) := Find(p, s).value;
              && Match(p, s[i..]).Some? && Match(p, s[i..]).value.1 == capture
              && forall j :: 0 <= j < i ==> Match(p, s[j..]).None?
    decreases |s|
  {
    assert s[0..] == s;
    if Match(p, s).None? && s != "" {
      FindIsLeftmost(p, s[1..]);
      forall j | 1 <= j <= |s| ensures s[j..] == s[1..][j - 1..] {
      }
    }
  }

  lemma {:induction false} LeftmostIsFound(p: Pattern, s: string, i: nat)
    requires i <= |s| && Match(p, s[i..]).Some? && forall j :: 0 <= j < i ==> Match(p, s[j..]).None?
    ensures Find(p, s) == Some((i, Match(p, s[i..]).value.1))
  {
    FindIsLeftmost(p, s);
  }

  /** A match that fits into data[i..b] is the one at i in data, and the reverse. */
  lemma MatchInSlice(p: Pattern, q: char, data: string, i: nat, b: nat)
    requires Settled(p, q) && i <= b <= |data|
    ensures Match(p, data[i..b]).Some? ==> Match(p, data[i..]) == Match(p, data[i..b])
    ensures Match(p, data[i..]).Some? && i + Match(p, data[i..]).value.0 <= b ==> Match(p, data[i..b]) == Match(p, data[i..])
  {
    if Match(p, data[i..b]).Some? {
      MatchIsLocal(p, q, data[i..b], data[i..]);
    }
    if Match(p, data[i..]).Some? && i + Match(p, data[i..]).value.0 <= b {
      MatchIsLocal(p, q, data[i..], data[i..b]);
    }
  }

  /** No match in data is longer than the overlap by more than a byte. */
  ghost predicate Short(p: Pattern, data: string, overlap: nat) {
    forall i :: 0 <= i <= |data| && Match(p, data[i..]).Some? ==> Match(p, data[i..]).value.0 <= overlap + 1
  }

  /** Where the window after the first b bytes starts. */
  function Tail(b: nat, overlap: nat): nat {
    if b > overlap then b - overlap else 0
  }

  function Shifted(r: Option<(nat, string)>, a: nat): Option<(nat, string)> {
    match r
    case None => None
    case Some((i, capture)) => Some((a + i, capture))
  }

  /** A match that starts before the window would end within the part already read. */
  lemma NoneBeforeWindow(p: Pattern, q: char, data: string, b: nat, b2: nat, overlap: nat, i: nat)
    requires Scannable(p, q) && b <= b2 <= |data| && Short(p, data, overlap) && Find(p, data[..b]).None?
    requires i < Tail(b, overlap)
    ensures Match(p, data[i..b2]).None?
  {
    MatchInSlice(p, q, data, i, b2);
    MatchInSlice(p, q, data, i, b);
    FindIsLeftmost(p, data[..b]);
    assert data[..b][i..] == data[i..b];
  }

  /** Before the first match, a window shows exactly what the whole prefix does. */
  lemma WindowSuffices(p: Pattern, q: char, data: string, b: nat, b2: nat, overlap: nat)
    requires Scannable(p, q) && b <= b2 <= |data| && Short(p, data, overlap) && Find(p, data[..b]).None?
    ensures Find(p, data[..b2]) == Shifted(Find(p, Window(data, b, b2, overlap)), Tail(b, overlap))
  {
    var a := Tail(b, overlap);
    forall i | 0 <= i < a ensures Match(p, data[..b2][i..]).None? {
      assert data[..b2][i..] == data[i..b2];
      NoneBeforeWindow(p, q, data, b, b2, overlap, i);
    }
    assert data[..b2][a..] == data[a..b2];
    FindFrom(p, data[..b2], a);
  }

  lemma {:induction false} FindFrom(p: Pattern, s: string, a: nat)
    requires a <= |s| && forall i :: 0 <= i < a ==> Match(p, s[i..]).None?
    ensures Find(p, s) == Shifted(Find(p, s[a..]), a)
    decreases a
  {
    if a == 0 {
      assert s[0..] == s;
    } else {
      FindFrom(p, s, a - 1);
      FindStep(p, s[a - 1..], s[a..], a - 1);
    }
  }

  lemma FindStep(p: Pattern, s: string, rest: string, a: nat)
    requires s != "" && Match(p, s).None? && rest == s[1..]
    ensures Shifted(Find(p, s), a) == Shifted(Find(p, rest), a + 1)
  {
  }

  /** What a prefix shows first is first in the whole. */
  lemma PrefixFirstIsFirst(p: Pattern, q: char, data: string, b: nat)
    requires Scannable(p, q) && b <= |data| && Find(p, data[..b]).Some?
    ensures Find(p, data) == Find(p, data[..b])
  {
    FindIsLeftmost(p, data[..b]);
    var i := Find(p, data[..b]).value.0;
    assert data[..b][i..] == data[i..b];
    MatchInSlice(p, q, data, i, b);
    forall j | 0 <= j < i ensures Match(p, data[j..]).None? {
      assert data[..b][j..] == data[j..b];
      MatchInSlice(p, q, data, j, b);
      if Match(p, data[j..]).Some? {
        assert data[j..][i - j..] == data[i..];
        EndsInOrder(p, q, data[j..], i - j);
      }
    }
    LeftmostIsFound(p, data, i);
  }

  // ---- The windows of a stream ----

  /** The last overlap of the first b bytes, and what follows up to b2. */
  function Window(data: string, b: nat, b2: nat, overlap: nat): string
    requires b <= b2 <= |data|
  {
    data[Tail(b, overlap)..b2]
  }

  /** Where the first window with a match shows it, from the window after b bytes on. */
  function FirstSeen(p: Pattern, data: string, b: nat, chunk: nat, overlap: nat): (r: Option<nat>)
    requires 0 < chunk && b <= |data|
    ensures r.Some? ==> r.value <= |data|
    decreases |data| - b
  {
    var b2 := Min(b + chunk, |data|);
    var m := Find(p, Window(data, b, b2, overlap));
    if m.Some? then Some(Tail(b, overlap) + m.value.0)
    else if b2 == b + chunk then FirstSeen(p, data, b2, chunk, overlap)
    else None
  }

  predicate SeenFrom(p: Pattern, data: string, b: nat, chunk: nat, overlap: nat)
    requires 0 < chunk && b <= |data|
  {
    FirstSeen(p, data, b, chunk, overlap).Some?
  }

  function Place(r: Option<(nat, string)>): Option<nat> {
    match r
    case None => None
    case Some((i, _)) => Some(i)
  }

  function Capture(r: Option<(nat, string)>): string {
    match r
    case None => ""
    case Some((_, capture)) => capture
  }

  /** The first non-empty capture among the windows' leftmost matches. */
  function CaptureFrom(p: Pattern, data: string, b: nat, chunk: nat, overlap: nat, found: string): string
    requires 0 < chunk && b <= |data|
    decreases |data| - b
  {
    var b2 := Min(b + chunk, |data|);
    var now := if found == "" then Capture(Find(p, Window(data, b, b2, overlap))) else found;
    if b2 == b + chunk then CaptureFrom(p, data, b2, chunk, overlap, now) else now
  }

  /** With short matches, the windows show the first match of the whole stream first. */
  lemma {:induction false} SeenExactly(p: Pattern, q: char, data: string, b: nat, chunk: nat, overlap: nat)
    requires Scannable(p, q) && 0 < chunk && b <= |data| && Short(p, data, overlap) && Find(p, data[..b]).None?
    ensures FirstSeen(p, data, b, chunk, overlap) == Place(Find(p, data))
    decreases |data| - b
  {
    var b2 := Min(b + chunk, |data|);
    SeenStep(p, data, b, chunk, overlap);
    WindowTells(p, q, data, b, b2, overlap);
    if Find(p, Window(data, b, b2, overlap)).None? && b2 == b + chunk {
      SeenExactly(p, q, data, b2, chunk, overlap);
    }
  }

  /** What one window tells about the whole stream, while nothing has been seen. */
  lemma WindowTells(p: Pattern, q: char, data: string, b: nat, b2: nat, overlap: nat)
    requires Scannable(p, q) && b <= b2 <= |data| && Short(p, data, overlap) && Find(p, data[..b]).None?
    ensures var m := Find(p, Window(data, b, b2, overlap));
            && (m.Some? ==> Find(p, data) == Shifted(m, Tail(b, overlap)))
            && (m.None? ==> Find(p, data[..b2]).None? && (b2 == |data| ==> Find(p, data).None?))
  {
    WindowSuffices(p, q, data, b, b2, overlap);
    if Find(p, data[..b2]).Some? {
      PrefixFirstIsFirst(p, q, data, b2);
    }
    assert data[..|data|] == data;
  }

  lemma {:induction false} CaptureStays(p: Pattern, data: string, b: nat, chunk: nat, overlap: nat, found: string)
    requires 0 < chunk && b <= |data| && found != ""
    ensures CaptureFrom(p, data, b, chunk, overlap, found) == found
    decreases |data| - b
  {
    var b2 := Min(b + chunk, |data|);
    if b2 == b + chunk {
      CaptureStays(p, data, b2, chunk, overlap, found);
    }
  }

  /** The windows deliver the first match of the whole stream when it captures
      something, and nothing when there is no match. */
  lemma {:induction false} CaptureIsFirst(p: Pattern, q: char, data: string, b: nat, chunk: nat, overlap: nat)
    requires Scannable(p, q) && 0 < chunk && b <= |data| && Short(p, data, overlap) && Find(p, data[..b]).None?
    requires Find(p, data).None? || Capture(Find(p, data)) != ""
    ensures CaptureFrom(p, data, b, chunk, overlap, "") == Capture(Find(p, data))
    decreases |data| - b
  {
    var b2 := Min(b + chunk, |data|);
    WindowSuffices(p, q, data, b, b2, overlap);
    if Find(p, data[..b2]).Some? {
      PrefixFirstIsFirst(p, q, data, b2);
      if b2 == b + chunk {
        CaptureStays(p, data, b2, chunk, overlap, Capture(Find(p, data)));
      }
    } else if b2 == b + chunk {
      CaptureIsFirst(p, q, data, b2, chunk, overlap);
    } else {
      assert data[..b2] == data;
    }
  }

  // ---- When the first match captures nothing ----

  /** No match that a window can lead with captures anything: none that starts where a
      window may start, nor the first one after the last such place. */
  ghost predicate NoValueInReach(p: Pattern, data: string, overlap: nat) {
    var t := Tail(|data|, overlap);
    && (forall i :: 0 <= i <= t && Match(p, data[i..]).Some? ==> Match(p, data[i..]).value.1 == "")
    && Capture(Find(p, data[t..])) == ""
  }

  /** What leads a window comes first in the stream from any place in between. */
  lemma LeadsFrom(p: Pattern, q: char, data: string, a: nat, b: nat, t: nat, i: nat)
    requires Scannable(p, q) && a <= t <= i <= b <= |data|
    requires Match(p, data[i..b]).Some? && forall j :: a <= j < i ==> Match(p, data[j..b]).None?
    ensures Find(p, data[t..]) == Some((i - t, Match(p, data[i..b]).value.1))
  {
    MatchInSlice(p, q, data, i, b);
    forall j | 0 <= j < i - t ensures Match(p, data[t..][j..]).None? {
      assert data[t..][j..] == data[t + j..];
      assert Match(p, data[t + j..b]).None?;
      MatchInSlice(p, q, data, t + j, b);
      if Match(p, data[t + j..]).Some? {
        assert data[t + j..][i - t - j..] == data[i..];
        EndsInOrder(p, q, data[t + j..], i - t - j);
        assert false;
      }
    }
    assert data[t..][i - t..] == data[i..];
    LeftmostIsFound(p, data[t..], i - t);
  }

  lemma WindowHasNoValue(p: Pattern, q: char, data: string, b: nat, b2: nat, overlap: nat)
    requires Scannable(p, q) && b <= b2 <= |data| && NoValueInReach(p, data, overlap)
    ensures Capture(Find(p, Window(data, b, b2, overlap))) == ""
  {
    var a, t, window := Tail(b, overlap), Tail(|data|, overlap), Window(data, b, b2, overlap);
    FindIsLeftmost(p, window);
    if Find(p, window).Some? {
      var i := a + Find(p, window).value.0;
      assert window[i - a..] == data[i..b2];
      MatchInSlice(p, q, data, i, b2);
      if i > t {
        forall j | a <= j < i ensures Match(p, data[j..b2]).None? {
          assert window[j - a..] == data[j..b2];
        }
        LeadsFrom(p, q, data, a, b2, t, i);
      }
    }
  }

  lemma {:induction false} NothingReported(p: Pattern, q: char, data: string, b: nat, chunk: nat, overlap: nat)
    requires Scannable(p, q) && 0 < chunk && b <= |data| && NoValueInReach(p, data, overlap)
    ensures CaptureFrom(p, data, b, chunk, overlap, "") == ""
    decreases |data| - b
  {
    var b2 := Min(b + chunk, |data|);
    WindowHasNoValue(p, q, data, b, b2, overlap);
    CaptureStep(p, data, b, chunk, overlap, "");
    if b2 == b + chunk {
      NothingReported(p, q, data, b2, chunk, overlap);
    }
  }

  /** An empty report of the finest cut is an empty capture in every window of it. */
  lemma {:induction false} EveryWindowEmpty(p: Pattern, data: string, b: nat, overlap: nat, at: nat)
    requires b <= at <= |data| && CaptureFrom(p, data, b, 1, overlap, "") == ""
    ensures Capture(Find(p, Window(data, at, Min(at + 1, |data|), overlap))) == ""
    decreases at - b
  {
    var now := Capture(Find(p, Window(data, b, Min(b + 1, |data|), overlap)));
    LeadsTheReport(p, data, b, overlap, now);
    if b < at {
      EveryWindowEmpty(p, data, b + 1, overlap, at);
    }
  }

  lemma LeadsTheReport(p: Pattern, data: string, b: nat, overlap: nat, now: string)
    requires b <= |data| && now == Capture(Find(p, Window(data, b, Min(b + 1, |data|), overlap)))
    ensures CaptureFrom(p, data, b, 1, overlap, "") == "" ==>
              now == "" && (b < |data| ==> CaptureFrom(p, data, b + 1, 1, overlap, "") == "")
  {
    CaptureStep(p, data, b, 1, overlap, "");
    if now != "" && b < |data| {
      CaptureStays(p, data, b + 1, 1, overlap, now);
    }
  }

  /** With chunks of one byte, every short match leads the window that starts at it. */
  lemma ReachesEveryStart(p: Pattern, q: char, data: string, overlap: nat, i: nat)
    requires Scannable(p, q) && Short(p, data, overlap) && i <= Tail(|data|, overlap)
    requires CaptureFrom(p, data, 0, 1, overlap, "") == "" && Match(p, data[i..]).Some?
    ensures Match(p, data[i..]).value.1 == ""
  {
    var at := Min(i + overlap, |data|);
    var b2 := Min(at + 1, |data|);
    EveryWindowEmpty(p, data, 0, overlap, at);
    assert Window(data, at, b2, overlap) == data[i..b2];
    MatchInSlice(p, q, data, i, b2);
  }

  lemma NoValueWhenNothingReported(p: Pattern, q: char, data: string, overlap: nat)
    requires Scannable(p, q) && Short(p, data, overlap) && CaptureFrom(p, data, 0, 1, overlap, "") == ""
    ensures NoValueInReach(p, data, overlap)
  {
    EveryWindowEmpty(p, data, 0, overlap, |data|);
    assert Window(data, |data|, |data|, overlap) == data[Tail(|data|, overlap)..];
    forall i | 0 <= i <= Tail(|data|, overlap) && Match(p, data[i..]).Some?
      ensures Match(p, data[i..]).value.1 == ""
    {
      ReachesEveryStart(p, q, data, overlap, i);
    }
  }

  /** What a scan in chunks of this size reports. */
  function Report(p: Pattern, data: string, chunk: nat, overlap: nat): string
    requires 0 < chunk
  {
    CaptureFrom(p, data, 0, chunk, overlap, "")
  }

  ghost predicate EveryCutReports(p: Pattern, data: string, overlap: nat, value: string) {
    forall chunk: nat :: 0 < chunk ==> Report(p, data, chunk, overlap) == value
  }

  /** With short matches, every cut of the stream delivers the first match's capture, if
      and only if that capture is not empty or no value is in reach. */
  lemma ReportIsFirst(p: Pattern, q: char, data: string, overlap: nat)
    requires Scannable(p, q) && Short(p, data, overlap)
    ensures EveryCutReports(p, data, overlap, Capture(Find(p, data)))
            <==> Capture(Find(p, data)) != "" || NoValueInReach(p, data, overlap)
  {
    NothingFirst(p, data);
    if Capture(Find(p, data)) != "" {
      forall chunk: nat | 0 < chunk ensures Report(p, data, chunk, overlap) == Capture(Find(p, data)) {
        CaptureIsFirst(p, q, data, 0, chunk, overlap);
      }
    } else {
      EmptyReportExactly(p, q, data, overlap);
    }
  }

  lemma EmptyReportExactly(p: Pattern, q: char, data: string, overlap: nat)
    requires Scannable(p, q) && Short(p, data, overlap)
    ensures EveryCutReports(p, data, overlap, "") <==> NoValueInReach(p, data, overlap)
  {
    if NoValueInReach(p, data, overlap) {
      forall chunk: nat | 0 < chunk ensures Report(p, data, chunk, overlap) == "" {
        NothingReported(p, q, data, 0, chunk, overlap);
      }
    }
    if EveryCutReports(p, data, overlap, "") {
      assert Report(p, data, 1, overlap) == "";
      NoValueWhenNothingReported(p, q, data, overlap);
    }
  }

  // ---- Literals ----

  function Bytes(s: string): Pattern {
    if s == "" then [] else [Byte(s[0])] + Bytes(s[1..])
  }

  lemma {:induction false} BytesSettled(lit: string, p: Pattern, q: char)
    requires Settled(p, q)
    ensures Settled(Bytes(lit) + p, q)
  {
    if lit == "" {
      assert Bytes(lit) + p == p;
    } else {
      assert (Bytes(lit) + p)[1..] == Bytes(lit[1..]) + p;
      BytesSettled(lit[1..], p, q);
    }
  }

  function Further(m: Option<(nat, string)>, n: nat): Option<(nat, string)> {
    match m
    case None => None
    case Some((k, capture)) => Some((n + k, capture))
  }

  lemma LongerFurther(m: Option<(nat, string)>, n: nat)
    ensures Longer(Further(m, n), "") == Further(m, n + 1)
  {
    if m.Some? {
      assert "" + m.value.1 == m.value.1;
    }
  }

  /** A literal matches exactly where it stands. */
  lemma {:induction false} MatchBytes(lit: string, p: Pattern, s: string)
    ensures Match(Bytes(lit) + p, s)
            == if lit <= s then Further(Match(p, s[|lit|..]), |lit|) else None
    decreases |lit|
  {
    if lit == "" {
      assert Bytes(lit) + p == p && s[0..] == s;
    } else {
      var whole := Bytes(lit) + p;
      assert whole[0] == Byte(lit[0]) && whole[1..] == Bytes(lit[1..]) + p;
      if s != "" {
        MatchBytes(lit[1..], p, s[1..]);
        PrefixStep(lit, s);
        if lit <= s {
          LongerFurther(Match(p, s[|lit|..]), |lit| - 1);
        }
      }
    }
  }

  lemma PrefixStep(lit: string, s: string)
    requires lit != "" && s != ""
    ensures lit <= s <==> lit[0] == s[0] && lit[1..] <= s[1..]
    ensures lit <= s ==> s[1..][|lit| - 1..] == s[|lit|..]
  {
    if lit[0] == s[0] && lit[1..] <= s[1..] {
      assert lit == [lit[0]] + lit[1..];
      assert s == [s[0]] + s[1..];
    }
  }

  lemma MatchLiteral(lit: string, s: string)
    ensures Match(Bytes(lit), s) == if lit <= s then Some((|lit|, "")) else None
  {
    MatchBytes(lit, [], s);
    assert Bytes(lit) + [] == Bytes(lit);
  }

  lemma LiteralSeen(lit: string, data: string, chunk: nat, overlap: nat)
    requires 0 < chunk && 0 < |lit| <= overlap + 1 && Scannable(Bytes(lit), '\"')
    ensures SeenFrom(Bytes(lit), data, 0, chunk, overlap) <==> exists i :: 0 <= i <= |data| && lit <= data[i..]
  {
    forall i | 0 <= i <= |data|
      ensures Match(Bytes(lit), data[i..]).Some? <==> lit <= data[i..]
      ensures Match(Bytes(lit), data[i..]).Some? ==> Match(Bytes(lit), data[i..]).value.0 == |lit|
    {
      MatchLiteral(lit, data[i..]);
    }
    NothingFirst(Bytes(lit), data);
    SeenExactly(Bytes(lit), '\"', data, 0, chunk, overlap);
    FindIsLeftmost(Bytes(lit), data);
  }

  lemma NothingFirst(p: Pattern, data: string)
    requires p != [] && p[0].Byte?
    ensures Find(p, data[..0]).None?
  {
  }

  // ---- Reading ----

  datatype ReadStatus = Full | End | Failed

  /** A file being read: all it will deliver, and whether a read error or the end of
      the file comes after that. */
  class Reader {
    const data: string
    const broken: bool
    var pos: nat

    constructor (data: string, broken: bool)
      ensures this.data == data && this.broken == broken && pos == 0
    {
      this.data, this.broken, this.pos := data, broken, 0;
    }

    /** Go: io.ReadFull; short only before the end or an error. */
    method ReadFull(n: nat) returns (bytes: string, status: ReadStatus)
      requires 0 < n && pos <= |data|
      modifies this
      ensures pos == Min(old(pos) + n, |data|) && bytes == data[old(pos)..pos]
      ensures status == if pos == old(pos) + n then Full else if broken then Failed else End
    {
      var next := Min(pos + n, |data|);
      bytes := data[pos..next];
      status := if |bytes| == n then Full else if broken then Failed else End;
      pos := next;
    }
  }

  // ---- Scanning ----

  lemma SliceOfSlice(data: string, a: nat, b: nat, i: nat, j: nat)
    requires a <= b <= |data| && i <= j <= b - a
    ensures data[a..b][i..j] == data[a + i..a + j]
  {
    assert forall k :: i <= k < j ==> data[a..b][k] == data[a + k];
  }

  /** A window grows by what is read, and keeps its last overlap bytes. */
  lemma Slide(data: string, b: nat, b2: nat, overlap: nat)
    requires b <= b2 <= |data|
    ensures Window(data, b, b, overlap) + data[b..b2] == Window(data, b, b2, overlap)
    ensures var window := Window(data, b, b2, overlap);
            window[Tail(|window|, overlap)..] == Window(data, b2, b2, overlap)
  {
    var a, a2 := Tail(b, overlap), Tail(b2, overlap);
    assert data[a..b2] == data[a..b] + data[b..b2];
    assert a2 - a == Tail(b2 - a, overlap);
    assert data[a..b2][a2 - a..] == data[a2..b2];
  }

  /** Up to most bytes from i on. */
  function Part(data: string, i: nat, most: nat): (part: string)
    requires i <= |data|
    ensures part <= data[i..] && |part| == if most < |data| - i then most else |data| - i
  {
    data[i..Min(|data|, i + most)]
  }

  lemma SeenStep(p: Pattern, data: string, b: nat, chunk: nat, overlap: nat)
    requires 0 < chunk && b <= |data|
    ensures var b2 := Min(b + chunk, |data|);
            var m := Find(p, Window(data, b, b2, overlap));
            FirstSeen(p, data, b, chunk, overlap)
            == if m.Some? then Some(Tail(b, overlap) + m.value.0)
               else if b2 == b + chunk then FirstSeen(p, data, b2, chunk, overlap)
               else None
  {
  }

  lemma CaptureStep(p: Pattern, data: string, b: nat, chunk: nat, overlap: nat, found: string)
    requires 0 < chunk && b <= |data|
    ensures var b2 := Min(b + chunk, |data|);
            var now := if found == "" then Capture(Find(p, Window(data, b, b2, overlap))) else found;
            CaptureFrom(p, data, b, chunk, overlap, found)
            == if b2 == b + chunk then CaptureFrom(p, data, b2, chunk, overlap, now) else now
  {
  }

  /** One pass over the stream for two markers and one capture. */
  method Scan(r: Reader, marker: Pattern, other: Pattern, captured: Pattern, chunk: nat, overlap: nat) returns (res: Outcome<(bool, string)>)
    requires 0 < chunk && r.pos == 0
    modifies r
    ensures r.broken ==> res == Err
    ensures !r.broken ==> res == Ok((
              SeenFrom(marker, r.data, 0, chunk, overlap) || SeenFrom(other, r.data, 0, chunk, overlap),
              Report(captured, r.data, chunk, overlap)))
  {
    var seen, found, tail := false, "", "";
    while true
      invariant r.pos <= |r.data| && tail == Window(r.data, r.pos, r.pos, overlap)
      invariant SeenFrom(marker, r.data, 0, chunk, overlap) || SeenFrom(other, r.data, 0, chunk, overlap)
                <==> seen || SeenFrom(marker, r.data, r.pos, chunk, overlap)
                     || SeenFrom(other, r.data, r.pos, chunk, overlap)
      invariant CaptureFrom(captured, r.data, 0, chunk, overlap, "")
                == CaptureFrom(captured, r.data, r.pos, chunk, overlap, found)
      decreases |r.data| - r.pos
    {
      ghost var b := r.pos;
      var bytes, status := r.ReadFull(chunk);
      Slide(r.data, b, r.pos, overlap);
      var window := tail + bytes;
      SeenStep(marker, r.data, b, chunk, overlap);
      SeenStep(other, r.data, b, chunk, overlap);
      CaptureStep(captured, r.data, b, chunk, overlap, found);
      seen := seen || Find(marker, window).Some? || Find(other, window).Some?;
      var m := Find(captured, window);
      if m.Some? && found == "" {
        found := m.value.1;
      }
      if status == End {
        return Ok((seen, found));
      }
      if status == Failed {
        return Err;
      }
      tail := window[Tail(|window|, overlap)..];
    }
  }

  // ---- Reading on behind the first match ----

  /** What one more read makes of the window, and the window's end. */
  lemma Grown(data: string, b: nat, b2: nat, overlap: nat, tail: string, bytes: string)
    requires b <= b2 <= |data| && tail == Window(data, b, b, overlap) && bytes == data[b..b2]
    ensures tail + bytes == Window(data, b, b2, overlap) == data[Tail(b, overlap)..b2]
    ensures (tail + bytes)[Tail(|tail + bytes|, overlap)..] == Window(data, b2, b2, overlap)
  {
    Slide(data, b, b2, overlap);
  }

  /** What a window with a match settles. */
  lemma SeenHere(p: Pattern, data: string, b: nat, b2: nat, chunk: nat, overlap: nat)
    requires 0 < chunk && b <= |data| && b2 == Min(b + chunk, |data|) && Find(p, Window(data, b, b2, overlap)).Some?
    ensures FirstSeen(p, data, b, chunk, overlap) == Some(Tail(b, overlap) + Find(p, Window(data, b, b2, overlap)).value.0)
  {
  }

  /** Without one, the next window does, or nothing. */
  lemma NotSeenHere(p: Pattern, data: string, b: nat, b2: nat, chunk: nat, overlap: nat)
    requires 0 < chunk && b <= |data| && b2 == Min(b + chunk, |data|) && Find(p, Window(data, b, b2, overlap)).None?
    ensures FirstSeen(p, data, b, chunk, overlap)
            == if b2 == b + chunk then FirstSeen(p, data, b2, chunk, overlap) else None
  {
  }

  /** Up to most bytes from the match shown first, even when reading then fails;
      without a match, the result is the read error or nothing. */
  method ReadBehind(r: Reader, p: Pattern, most: nat, chunk: nat, overlap: nat) returns (res: Outcome<Option<string>>)
    requires 0 < chunk && r.pos == 0
    modifies r
    ensures var first := FirstSeen(p, r.data, 0, chunk, overlap);
            && (first.Some? ==> res == Ok(Some(Part(r.data, first.value, most))))
            && (first.None? ==> res == if r.broken then Err else Ok(None))
  {
    var window := "";
    ghost var first := FirstSeen(p, r.data, 0, chunk, overlap);
    while true
      invariant r.pos <= |r.data| && window == Window(r.data, r.pos, r.pos, overlap)
      invariant first == FirstSeen(p, r.data, r.pos, chunk, overlap)
      decreases |r.data| - r.pos
    {
      ghost var b := r.pos;
      var bytes, status := r.ReadFull(chunk);
      Grown(r.data, b, r.pos, overlap, window, bytes);
      window := window + bytes;
      var m := Find(p, window);
      if m.Some? {
        SeenHere(p, r.data, b, r.pos, chunk, overlap);
        var metadata := ReadOn(r, Tail(b, overlap), window, m.value.0, status, most, chunk);
        return Ok(Some(metadata));
      }
      NotSeenHere(p, r.data, b, r.pos, chunk, overlap);
      if status == End {
        return Ok(None);
      }
      if status == Failed {
        return Err;
      }
      window := window[Tail(|window|, overlap)..];
    }
  }

  /** Reads on until the window holds most from loc on, or no more come. */
  method ReadOn(r: Reader, ghost a: nat, start: string, loc: nat, first: ReadStatus, most: nat, chunk: nat)
    returns (metadata: string)
    requires 0 < chunk && a <= r.pos <= |r.data| && start == r.data[a..r.pos] && loc <= |start|
    requires first != Full ==> r.pos == |r.data|
    modifies r
    ensures metadata == Part(r.data, a + loc, most)
  {
    var window, status := start, first;
    while |window| - loc < most && status == Full
      invariant a + |window| == r.pos <= |r.data| && window == r.data[a..r.pos] && loc <= |window|
      invariant status != Full ==> r.pos == |r.data|
      decreases |r.data| - r.pos, if status == Full then 1 else 0
    {
      var bytes;
      bytes, status := r.ReadFull(chunk);
      window := window + bytes;
    }
    SliceOfSlice(r.data, a, r.pos, loc, Min(|window|, loc + most));
    metadata := window[loc..Min(|window|, loc + most)];
  }
}
