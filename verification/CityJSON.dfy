/** What the importer reads from a CityJSON file while it streams by: the marker, the
    reference system, and the extent in its metadata. */
module CityJSON {
  import opened Numbers
  import opened Wrappers
  import opened Scanner

  const QUOTE := '\"'
  const COMPACT := "\"type\":\"CityJSON"
  const SPACED := "\"type\": \"CityJSON"
  const REFERENCE_KEY := "\"referenceSystem\""
  const METADATA_KEY := "\"metadata\""
  const METADATA_BYTES := 16384

  /** The rest of a quoted text, which is captured. */
  function Text(): Pattern {
    [Until(QUOTE), Byte(QUOTE)]
  }

  /** White space, a colon, white space, an opening character, and the rest. */
  function BehindKey(c: char, p: Pattern): Pattern {
    [Spaces] + ([Byte(':')] + ([Spaces] + ([Byte(c)] + p)))
  }

  function SystemBehindKey(): Pattern {
    BehindKey(QUOTE, Text())
  }

  function ObjectBehindKey(): Pattern {
    BehindKey('{', [])
  }

  function ReferenceSystem(): Pattern {
    Bytes(REFERENCE_KEY) + SystemBehindKey()
  }

  function Metadata(): Pattern {
    Bytes(METADATA_KEY) + ObjectBehindKey()
  }

  lemma ScannableBytes(lit: string, p: Pattern)
    requires lit != "" && lit[0] == QUOTE && Settled(p, QUOTE)
    ensures Scannable(Bytes(lit) + p, QUOTE)
  {
    BytesSettled(lit, p, QUOTE);
  }

  lemma SettledByte(c: char, p: Pattern)
    requires Settled(p, QUOTE)
    ensures Settled([Byte(c)] + p, QUOTE)
  {
    assert ([Byte(c)] + p)[1..] == p;
  }

  lemma SettledSpaces(c: char, p: Pattern)
    requires Settled(p, QUOTE) && !IsSpace(c)
    ensures Settled([Spaces] + ([Byte(c)] + p), QUOTE)
  {
    SettledByte(c, p);
    assert ([Spaces] + ([Byte(c)] + p))[1..] == [Byte(c)] + p;
  }

  lemma QuotedIsScannable(key: string, p: Pattern)
    requires key != "" && key[0] == QUOTE && p == Bytes(key) + BehindKey(QUOTE, Text())
    ensures Scannable(p, QUOTE)
  {
    assert Text()[1..] == [Byte(QUOTE)] + [];
    SettledByte(QUOTE, []);
    SettledSpaces(QUOTE, Text());
    SettledSpaces(':', [Spaces] + ([Byte(QUOTE)] + Text()));
    ScannableBytes(key, BehindKey(QUOTE, Text()));
  }

  lemma ObjectIsScannable(key: string, p: Pattern)
    requires key != "" && key[0] == QUOTE && p == Bytes(key) + BehindKey('{', [])
    ensures Scannable(p, QUOTE)
  {
    SettledSpaces('{', []);
    SettledSpaces(':', [Spaces] + ([Byte('{')] + []));
    ScannableBytes(key, BehindKey('{', []));
  }

  lemma ReferenceSystemIsScannable()
    ensures Scannable(ReferenceSystem(), QUOTE)
  {
    QuotedIsScannable(REFERENCE_KEY, ReferenceSystem());
  }

  lemma MetadataIsScannable()
    ensures Scannable(Metadata(), QUOTE)
  {
    ObjectIsScannable(METADATA_KEY, Metadata());
  }

  // ---- What the two patterns match ----

  /** White space as Go's patterns take it. */
  predicate Blank(w: string) {
    forall i :: 0 <= i < |w| ==> w[i] == ' ' || w[i] == '\t' || w[i] == '\n' || w[i] == '\r' || w[i] == '\U{0C}'
  }

  /** The white space in front of a text that starts with something else. */
  lemma {:induction false} LeadingBlanks(s: string) returns (w: string, rest: string)
    ensures s == w + rest && Blank(w) && (rest != "" ==> !Blank([rest[0]]))
  {
    if s == "" || !Blank([s[0]]) {
      w, rest := "", s;
    } else {
      var w1;
      w1, rest := LeadingBlanks(s[1..]);
      w := [s[0]] + w1;
      assert [s[0]][0] == s[0] && s == [s[0]] + s[1..];
    }
  }

  lemma {:induction false} MatchBlanks(c: char, p: Pattern, w: string, rest: string)
    requires Blank(w) && !Blank([c]) && (rest != "" ==> !Blank([rest[0]]))
    ensures Match([Spaces] + ([Byte(c)] + p), w + rest) == Further(Match([Byte(c)] + p, rest), |w|)
  {
    var behind := [Byte(c)] + p;
    assert ([Spaces] + behind)[1..] == behind;
    if w == "" {
      assert w + rest == rest;
      NotSpace(rest);
    } else {
      MatchBlanks(c, p, w[1..], rest);
      assert (w + rest)[1..] == w[1..] + rest;
      LongerFurther(Match(behind, rest), |w| - 1);
    }
  }

  lemma NotSpace(rest: string)
    requires rest != "" ==> !Blank([rest[0]])
    ensures rest != "" ==> !IsSpace(rest[0])
  {
    assert rest != "" ==> [rest[0]][0] == rest[0];
  }

  lemma {:induction false} MatchSystem(system: string, rest: string)
    requires QUOTE !in system
    ensures Match(Text(), system + "\"" + rest) == Some((|system| + 1, system))
  {
    var s := system + "\"" + rest;
    if system == "" {
      assert Text()[1..] == [Byte(QUOTE)] + [];
      MatchByte(QUOTE, [], rest);
      assert s == [QUOTE] + rest && "" + "" == "";
      assert Match([], rest) == Some((0, ""));
    } else {
      assert s[1..] == system[1..] + "\"" + rest;
      MatchSystem(system[1..], rest);
      assert [s[0]] + system[1..] == system;
    }
  }

  lemma MatchByte(c: char, p: Pattern, s: string)
    ensures Match([Byte(c)] + p, [c] + s) == Longer(Match(p, s), "")
  {
    assert ([Byte(c)] + p)[1..] == p && ([c] + s)[1..] == s;
  }

  lemma MatchOneByte(c: char, p: Pattern, s: string)
    ensures Match([Byte(c)] + p, [c] + s) == Further(Match(p, s), 1)
  {
    MatchByte(c, p, s);
    if Match(p, s).Some? {
      assert "" + Match(p, s).value.1 == Match(p, s).value.1;
    }
  }

  lemma OnlyThatByte(c: char, p: Pattern, s: string)
    requires Match([Byte(c)] + p, s).Some?
    ensures s != "" && s[0] == c
  {
  }

  lemma FurtherTwice(m: Option<(nat, string)>, a: nat, b: nat)
    ensures Further(Further(m, a), b) == Further(m, a + b)
  {
  }

  /** A colon, an opening character, and white space on both sides of the colon. */
  function Opening(w1: string, w2: string, c: char, rest: string): string {
    w1 + ([':'] + (w2 + ([c] + rest)))
  }

  lemma OpeningMatches(w1: string, w2: string, c: char, p: Pattern, rest: string)
    requires Blank(w1) && Blank(w2) && !Blank([c])
    ensures Match(BehindKey(c, p), Opening(w1, w2, c, rest)) == Further(Match(p, rest), |w1| + |w2| + 2)
  {
    var inner, behind := [c] + rest, [Spaces] + ([Byte(c)] + p);
    var outer := [':'] + (w2 + inner);
    assert inner[0] == c && outer[0] == ':' && [':'][0] == ':';
    MatchOneByte(c, p, rest);
    MatchBlanks(c, p, w2, inner);
    FurtherTwice(Match(p, rest), 1, |w2|);
    MatchOneByte(':', behind, w2 + inner);
    FurtherTwice(Match(p, rest), |w2| + 1, 1);
    MatchBlanks(':', behind, w1, outer);
    FurtherTwice(Match(p, rest), |w2| + 2, |w1|);
  }

  lemma OnlyOpenings(c: char, p: Pattern, s: string) returns (w1: string, w2: string, rest: string)
    requires !Blank([c]) && Match(BehindKey(c, p), s).Some?
    ensures Blank(w1) && Blank(w2) && s == Opening(w1, w2, c, rest)
  {
    var outer, inner, behind := "", "", [Spaces] + ([Byte(c)] + p);
    assert [':'][0] == ':';
    w1, outer := LeadingBlanks(s);
    MatchBlanks(':', behind, w1, outer);
    OnlyThatByte(':', behind, outer);
    assert outer == [':'] + outer[1..];
    MatchOneByte(':', behind, outer[1..]);
    w2, inner := LeadingBlanks(outer[1..]);
    MatchBlanks(c, p, w2, inner);
    OnlyThatByte(c, p, inner);
    rest := inner[1..];
    assert inner == [c] + rest;
  }

  /** What the closing quote ends. */
  lemma {:induction false} OnlyQuoted(s: string) returns (v: string, rest: string)
    requires Match(Text(), s).Some?
    ensures QUOTE !in v && s == v + "\"" + rest
  {
    if s[0] == QUOTE {
      v, rest := "", s[1..];
      assert s == "\"" + rest;
    } else {
      var v1;
      v1, rest := OnlyQuoted(s[1..]);
      v := [s[0]] + v1;
      assert s == [s[0]] + s[1..];
    }
  }

  /** A key, a colon with white space around it, an opening character, and the rest. */
  function Spelling(key: string, w1: string, w2: string, c: char, rest: string): string {
    key + Opening(w1, w2, c, rest)
  }

  /** s starts with such a text, of n characters. */
  ghost predicate StartsWith(key: string, c: char, rest: string, s: string, n: nat) {
    exists w1, w2 ::
      Blank(w1) && Blank(w2) && Spelling(key, w1, w2, c, rest) <= s && n == |Spelling(key, w1, w2, c, rest)|
  }

  lemma SpellingMatches(key: string, w1: string, w2: string, c: char, p: Pattern, rest: string)
    requires Blank(w1) && Blank(w2) && !Blank([c])
    ensures Match(Bytes(key) + BehindKey(c, p), Spelling(key, w1, w2, c, rest))
            == Further(Match(p, rest), |key| + |w1| + |w2| + 2)
  {
    var opening := Opening(w1, w2, c, rest);
    MatchBytes(key, BehindKey(c, p), key + opening);
    assert (key + opening)[|key|..] == opening;
    OpeningMatches(w1, w2, c, p, rest);
    FurtherTwice(Match(p, rest), |w1| + |w2| + 2, |key|);
  }

  lemma OnlySpellings(key: string, c: char, p: Pattern, s: string) returns (w1: string, w2: string, rest: string)
    requires !Blank([c]) && Match(Bytes(key) + BehindKey(c, p), s).Some?
    ensures Blank(w1) && Blank(w2) && s == Spelling(key, w1, w2, c, rest)
  {
    MatchBytes(key, BehindKey(c, p), s);
    w1, w2, rest := OnlyOpenings(c, p, s[|key|..]);
    assert s == key + s[|key|..];
  }

  lemma SpellingAndMore(key: string, w1: string, w2: string, c: char, rest: string, more: string)
    ensures Spelling(key, w1, w2, c, rest) + more == Spelling(key, w1, w2, c, rest + more)
    ensures |Spelling(key, w1, w2, c, rest)| == |key| + |w1| + |w2| + 2 + |rest|
  {
    assert Opening(w1, w2, c, rest) + more == Opening(w1, w2, c, rest + more);
  }

  /** A key and a quoted text. */
  lemma QuotedExactly(key: string, p: Pattern, s: string, n: nat, v: string)
    requires p == Bytes(key) + BehindKey(QUOTE, Text())
    ensures Match(p, s) == Some((n, v)) <==> QUOTE !in v && StartsWith(key, QUOTE, v + "\"", s, n)
  {
    assert [QUOTE][0] == QUOTE;
    if QUOTE !in v && StartsWith(key, QUOTE, v + "\"", s, n) {
      var w1, w2 :| Blank(w1) && Blank(w2) && Spelling(key, w1, w2, QUOTE, v + "\"") <= s
                    && n == |Spelling(key, w1, w2, QUOTE, v + "\"")|;
      QuotedMatches(key, p, w1, w2, v, s[n..]);
      assert s == Spelling(key, w1, w2, QUOTE, v + "\"") + s[n..];
    }
    if Match(p, s) == Some((n, v)) {
      var w1, w2, quoted := OnlySpellings(key, QUOTE, Text(), s);
      SpellingMatches(key, w1, w2, QUOTE, Text(), quoted);
      var u, rest := OnlyQuoted(quoted);
      SpellingAndMore(key, w1, w2, QUOTE, u + "\"", rest);
      QuotedMatches(key, p, w1, w2, u, rest);
    }
  }

  lemma QuotedMatches(key: string, p: Pattern, w1: string, w2: string, v: string, rest: string)
    requires p == Bytes(key) + BehindKey(QUOTE, Text()) && Blank(w1) && Blank(w2) && QUOTE !in v
    ensures Match(p, Spelling(key, w1, w2, QUOTE, v + "\"") + rest)
            == Some((|Spelling(key, w1, w2, QUOTE, v + "\"")|, v))
  {
    assert [QUOTE][0] == QUOTE;
    SpellingAndMore(key, w1, w2, QUOTE, v + "\"", rest);
    MatchSystem(v, rest);
    SpellingMatches(key, w1, w2, QUOTE, Text(), v + "\"" + rest);
  }

  /** The pattern of the reference system matches exactly the key, a colon and a quoted
      text, with any white space around the colon, and captures what is between the quotes. */
  lemma ReferenceMatchesExactly(s: string, n: nat, v: string)
    ensures Match(ReferenceSystem(), s) == Some((n, v)) <==> QUOTE !in v && StartsWith(REFERENCE_KEY, QUOTE, v + "\"", s, n)
  {
    QuotedExactly(REFERENCE_KEY, ReferenceSystem(), s, n, v);
  }

  lemma ObjectMatches(key: string, p: Pattern, w1: string, w2: string, rest: string)
    requires p == Bytes(key) + BehindKey('{', []) && Blank(w1) && Blank(w2)
    ensures Match(p, Spelling(key, w1, w2, '{', "") + rest) == Some((|Spelling(key, w1, w2, '{', "")|, ""))
  {
    assert ['{'][0] == '{';
    SpellingAndMore(key, w1, w2, '{', "", rest);
    assert "" + rest == rest;
    SpellingMatches(key, w1, w2, '{', [], rest);
  }

  lemma ObjectExactly(key: string, p: Pattern, s: string, n: nat, v: string)
    requires p == Bytes(key) + BehindKey('{', [])
    ensures Match(p, s) == Some((n, v)) <==> v == "" && StartsWith(key, '{', "", s, n)
  {
    if v == "" && StartsWith(key, '{', "", s, n) {
      var w1, w2 :| Blank(w1) && Blank(w2) && Spelling(key, w1, w2, '{', "") <= s && n == |Spelling(key, w1, w2, '{', "")|;
      ObjectMatches(key, p, w1, w2, s[n..]);
      assert s == Spelling(key, w1, w2, '{', "") + s[n..];
    }
    if Match(p, s) == Some((n, v)) {
      assert ['{'][0] == '{';
      var w1, w2, rest := OnlySpellings(key, '{', [], s);
      ObjectMatches(key, p, w1, w2, rest);
      SpellingAndMore(key, w1, w2, '{', "", rest);
      assert "" + rest == rest;
    }
  }

  /** So for the metadata key and its opening brace, which capture nothing. */
  lemma MetadataMatchesExactly(s: string, n: nat, v: string)
    ensures Match(Metadata(), s) == Some((n, v)) <==> v == "" && StartsWith(METADATA_KEY, '{', "", s, n)
  {
    ObjectExactly(METADATA_KEY, Metadata(), s, n, v);
  }

  // ---- scanCityJSON ----

  ghost predicate Holds(data: string, lit: string) {
    exists i :: 0 <= i <= |data| && lit <= data[i..]
  }

  ghost predicate HasMarker(data: string) {
    Holds(data, COMPACT) || Holds(data, SPACED)
  }

  /** The value of the stream's first reference system, or none. */
  function Declared(data: string): string {
    Capture(Find(ReferenceSystem(), data))
  }

  /** However the stream is cut: the marker is reported exactly when the stream holds it,
      and the reference system is that of its first declaration, unless that one is
      empty and a later value comes within reach of a window. */
  method ScanCityJSON(r: Reader, chunk: nat, overlap: nat) returns (res: Outcome<(bool, string)>)
    requires 0 < chunk && 16 <= overlap && r.pos == 0
    modifies r
    ensures r.broken ==> res == Err
    ensures !r.broken ==> res.Ok? && (res.value.0 <==> HasMarker(r.data))
    ensures !r.broken ==> res.value.1 == Report(ReferenceSystem(), r.data, chunk, overlap)
    ensures !r.broken && Short(ReferenceSystem(), r.data, overlap)
            && (Declared(r.data) != "" || NoValueInReach(ReferenceSystem(), r.data, overlap))
            ==> res.value.1 == Declared(r.data)
  {
    MarkerExactly(COMPACT, r.data, chunk, overlap);
    MarkerExactly(SPACED, r.data, chunk, overlap);
    if Short(ReferenceSystem(), r.data, overlap) {
      ReferenceIsFirst(r.data, overlap);
    }
    res := Scan(r, Bytes(COMPACT), Bytes(SPACED), ReferenceSystem(), chunk, overlap);
  }

  lemma MarkerExactly(lit: string, data: string, chunk: nat, overlap: nat)
    requires 0 < chunk && 0 < |lit| <= overlap + 1 && lit[0] == QUOTE
    ensures SeenFrom(Bytes(lit), data, 0, chunk, overlap) <==> Holds(data, lit)
  {
    ScannableBytes(lit, []);
    assert Bytes(lit) + [] == Bytes(lit);
    LiteralSeen(lit, data, chunk, overlap);
  }

  /** With matches of at most overlap + 1 bytes: whatever the chunk size, the report is
      the first declaration of the stream, if and only if that one is not empty or no
      value stands where a window can lead with it. Both are facts of the stream and the
      overlap alone. */
  lemma ReferenceIsFirst(data: string, overlap: nat)
    requires Short(ReferenceSystem(), data, overlap)
    ensures EveryCutReports(ReferenceSystem(), data, overlap, Declared(data))
            <==> Declared(data) != "" || NoValueInReach(ReferenceSystem(), data, overlap)
  {
    ReferenceSystemIsScannable();
    ReportIsFirst(ReferenceSystem(), QUOTE, data, overlap);
  }

  // ---- cityJSONExtent ----

  /** The extent is parsed from the METADATA_BYTES that start at the stream's first
      metadata key, however the stream is cut and even when reading then fails; without
      a key the result is the read error, or no extent. Key matches are taken to be at
      most overlap + 1 bytes long. */
  method CityJSONExtent<E>(r: Reader, parse: string -> Option<E>, chunk: nat, overlap: nat) returns (res: Outcome<Option<E>>)
    requires 0 < chunk && r.pos == 0
    modifies r
    ensures var key := FirstSeen(Metadata(), r.data, 0, chunk, overlap);
            && (key.Some? ==> res == Ok(parse(Part(r.data, key.value, METADATA_BYTES))))
            && (key.None? ==> res == if r.broken then Err else Ok(None))
    ensures Short(Metadata(), r.data, overlap) ==>
              FirstSeen(Metadata(), r.data, 0, chunk, overlap) == Place(Find(Metadata(), r.data))
  {
    var metadata := ReadBehind(r, Metadata(), METADATA_BYTES, chunk, overlap);
    if Short(Metadata(), r.data, overlap) {
      MetadataIsScannable();
      NothingFirst(Metadata(), r.data);
      SeenExactly(Metadata(), QUOTE, r.data, 0, chunk, overlap);
    }
    res := match metadata
           case Err => Err
           case Ok(None) => Ok(None)
           case Ok(Some(text)) => Ok(parse(text));
  }

  // ---- An empty first declaration ----

  /** A declaration of a quote-free reference system. */
  function Declaration(system: string): string {
    REFERENCE_KEY + ":" + "\"" + system + "\""
  }

  lemma MatchNoSpaces(p: Pattern, s: string)
    requires s != "" && !IsSpace(s[0])
    ensures Match([Spaces] + p, s) == Match(p, s)
  {
    assert ([Spaces] + p)[1..] == p;
  }

  /** What follows the key of a declaration. */
  lemma SystemMatches(system: string, rest: string)
    requires QUOTE !in system
    ensures Match(SystemBehindKey(), ":" + ("\"" + (system + "\"" + rest))) == Some((|system| + 3, system))
  {
    var quoted := system + "\"" + rest;
    MatchSystem(system, rest);
    MatchByte(QUOTE, Text(), quoted);
    MatchNoSpaces([Byte(QUOTE)] + Text(), "\"" + quoted);
    MatchByte(':', [Spaces] + ([Byte(QUOTE)] + Text()), "\"" + quoted);
    MatchNoSpaces([Byte(':')] + ([Spaces] + ([Byte(QUOTE)] + Text())), ":" + ("\"" + quoted));
    assert "" + system == system;
  }

  /** The pattern finds a declaration whole, whatever follows it. */
  lemma DeclarationMatches(system: string, rest: string)
    requires QUOTE !in system
    ensures Match(ReferenceSystem(), Declaration(system) + rest) == Some((|Declaration(system)|, system))
  {
    var s := ":" + ("\"" + (system + "\"" + rest));
    KeyBefore(s, system, rest);
    SystemMatches(system, rest);
    MatchBytes(REFERENCE_KEY, SystemBehindKey(), REFERENCE_KEY + s);
  }

  lemma KeyBefore(s: string, system: string, rest: string)
    requires s == ":" + ("\"" + (system + "\"" + rest))
    ensures Declaration(system) + rest == REFERENCE_KEY + s && REFERENCE_KEY <= REFERENCE_KEY + s
    ensures (REFERENCE_KEY + s)[|REFERENCE_KEY|..] == s && |Declaration(system)| == |REFERENCE_KEY| + |system| + 3
  {
  }

  /** Two declarations in a row hold no key in between. */
  lemma NoKeyInside(i: nat, key: string, data: string)
    requires key == REFERENCE_KEY && data == Declaration("") + Declaration("x") && 0 < i < 20
    ensures !(key <= data[i..])
  {
    assert data[i..][0] == data[i] && data[i..][1] == data[i + 1];
    assert key[0] == '\"' && key[1] == 'r';
  }

  lemma FindAtStart(p: Pattern, s: string)
    requires Match(p, s).Some?
    ensures Capture(Find(p, s)) == Match(p, s).value.1
  {
  }

  lemma ReportOfThree(p: Pattern, data: string, n: nat)
    requires 1 < n && |data| == 2 * n + 1
    requires Capture(Find(p, Window(data, 0, n, n))) == "" && Capture(Find(p, Window(data, n, 2 * n, n))) == ""
    ensures Report(p, data, n, n) == Capture(Find(p, Window(data, 2 * n, 2 * n + 1, n)))
  {
    CaptureStep(p, data, 0, n, n, "");
    CaptureStep(p, data, n, n, n, "");
    CaptureStep(p, data, 2 * n, n, n, "");
  }

  lemma ReportOfOne(p: Pattern, data: string, n: nat)
    requires 1 < n && |data| == 2 * n + 1
    ensures Report(p, data, 3 * n, n) == Capture(Find(p, Window(data, 0, 2 * n + 1, n)))
  {
    CaptureStep(p, data, 0, 3 * n, n, "");
  }

  /** A first declaration without a value is passed over once the window has moved on. */
  lemma EmptyFirstIsPassed(p: Pattern, data: string, n: nat, first: string, longer: string, second: string, value: string)
    requires 1 < n && |data| == 2 * n + 1
    requires Window(data, 0, n, n) == first && Window(data, n, 2 * n, n) == longer
    requires Window(data, 2 * n, 2 * n + 1, n) == second && Window(data, 0, 2 * n + 1, n) == data
    requires Match(p, first) == Some((n, "")) && Match(p, longer) == Some((n, "")) && Match(p, data) == Some((n, ""))
    requires Match(p, second) == Some((n + 1, value))
    ensures Report(p, data, n, n) == value && Report(p, data, 3 * n, n) == ""
  {
    FindAtStart(p, first);
    FindAtStart(p, longer);
    FindAtStart(p, second);
    FindAtStart(p, data);
    ReportOfThree(p, data, n);
    ReportOfOne(p, data, n);
  }

  lemma SmallWindows(first: string, second: string)
    requires |second| == |first| + 1
    ensures var data, n := first + second, |first|;
            && Window(data, 0, n, n) == first && Window(data, n, 2 * n, n) == first + second[..n]
            && Window(data, 2 * n, 2 * n + 1, n) == second && Window(data, 0, 2 * n + 1, n) == data
  {
  }

  /** When the first declaration is empty, the report depends on how the stream is cut:
      one chunk reports nothing, chunks of 20 bytes the second declaration. */
  lemma EmptyFirstDeclaration()
    ensures var data := Declaration("") + Declaration("x");
            && Short(ReferenceSystem(), data, 20)
            && Report(ReferenceSystem(), data, 60, 20) == ""
            && Report(ReferenceSystem(), data, 20, 20) == "x"
  {
    var first, second := Declaration(""), Declaration("x");
    DeclarationMatches("", "");
    DeclarationMatches("", second);
    DeclarationMatches("", second[..20]);
    DeclarationMatches("x", "");
    assert second + "" == second && first + "" == first;
    SmallWindows(first, second);
    EmptyFirstIsPassed(ReferenceSystem(), first + second, 20, first, first + second[..20], second, "x");
    TwoDeclarationsAreShort(first + second);
  }

  lemma TwoDeclarationsAreShort(data: string)
    requires data == Declaration("") + Declaration("x")
    ensures Short(ReferenceSystem(), data, 20)
  {
    DeclarationMatches("", Declaration("x"));
    assert |data| == 41;
    forall i | 0 <= i <= |data| && Match(ReferenceSystem(), data[i..]).Some?
      ensures Match(ReferenceSystem(), data[i..]).value.0 <= 21
    {
      if i == 0 {
        assert data[0..] == data;
      } else if i < 20 {
        NoKeyInside(i, REFERENCE_KEY, data);
        MatchBytes(REFERENCE_KEY, SystemBehindKey(), data[i..]);
        assert false;
      }
    }
  }

  /** Sizes of scanCityJSON: one read, and what two windows share. */
  const CHUNK: nat := 1048576
  const OVERLAP: nat := 4096

  /** Text without quotes holds no key. */
  lemma NoKeyInFiller(filler: string, s: string, i: nat)
    requires QUOTE !in filler && i < |filler|
    ensures Match(ReferenceSystem(), (filler + s)[i..]).None?
  {
    assert (filler + s)[i..][0] == filler[i];
    MatchBytes(REFERENCE_KEY, SystemBehindKey(), (filler + s)[i..]);
  }

  lemma SameCapture(r: Option<(nat, string)>, a: nat)
    ensures Capture(Shifted(r, a)) == Capture(r)
  {
  }

  lemma FillerIsSkipped(filler: string, s: string)
    requires QUOTE !in filler
    ensures Capture(Find(ReferenceSystem(), filler + s)) == Capture(Find(ReferenceSystem(), s))
  {
    forall i | 0 <= i < |filler| ensures Match(ReferenceSystem(), (filler + s)[i..]).None? {
      NoKeyInFiller(filler, s, i);
    }
    FindFrom(ReferenceSystem(), filler + s, |filler|);
    assert (filler + s)[|filler|..] == s;
    SameCapture(Find(ReferenceSystem(), s), |filler|);
  }

  /** A window over some filler and a declaration behind it shows the declaration. */
  lemma DeclarationBehindFiller(filler: string, system: string, rest: string, window: string)
    requires QUOTE !in filler && QUOTE !in system && window == filler + (Declaration(system) + rest)
    ensures Capture(Find(ReferenceSystem(), window)) == system
  {
    FillerIsSkipped(filler, Declaration(system) + rest);
    DeclarationMatches(system, rest);
    FindAtStart(ReferenceSystem(), Declaration(system) + rest);
  }

  /** A stream with two declarations, the first one empty. */
  function TwoSystems(filler: string, system: string, rest: string): string {
    Declaration("") + (filler + (Declaration(system) + rest))
  }

  lemma PrefixWindow(first: string, more: string, b: nat, overlap: nat)
    requires |first| <= b <= |first + more|
    ensures Window(first + more, 0, b, overlap) == first + more[..b - |first|]
  {
  }

  lemma InnerWindow(first: string, filler: string, second: string, rest: string, b: nat, b2: nat, overlap: nat)
    requires overlap <= b <= b2 <= |first + (filler + (second + rest))|
    requires |first| <= b - overlap <= |first| + |filler| && |first| + |filler| + |second| <= b2
    ensures Window(first + (filler + (second + rest)), b, b2, overlap)
            == filler[b - overlap - |first|..] + (second + rest[..b2 - |first| - |filler| - |second|])
  {
    var data := first + (filler + (second + rest));
    assert data == (first + filler) + (second + rest);
    assert data[b - overlap..] == filler[b - overlap - |first|..] + (second + rest);
    assert data[b - overlap..b2] == data[b - overlap..][..b2 - (b - overlap)];
  }

  lemma EmptyDeclarationShown(more: string)
    ensures Capture(Find(ReferenceSystem(), Declaration("") + more)) == ""
  {
    DeclarationMatches("", more);
    FindAtStart(ReferenceSystem(), Declaration("") + more);
  }

  lemma FirstWindow(p: Pattern, first: string, more: string, b: nat, overlap: nat)
    requires p == ReferenceSystem() && first == Declaration("") && |first| <= b <= |first + more|
    ensures Capture(Find(p, Window(first + more, 0, b, overlap))) == ""
  {
    PrefixWindow(first, more, b, overlap);
    EmptyDeclarationShown(more[..b - |first|]);
  }

  /** A window from within the filler to somewhere behind the second declaration. */
  lemma LaterWindow(p: Pattern, first: string, filler: string, second: string, system: string, rest: string,
                    b: nat, b2: nat, overlap: nat)
    requires p == ReferenceSystem() && second == Declaration(system) && QUOTE !in filler && QUOTE !in system
    requires overlap <= b <= b2 <= |first + (filler + (second + rest))|
    requires |first| <= b - overlap <= |first| + |filler| && |first| + |filler| + |second| <= b2
    ensures Capture(Find(p, Window(first + (filler + (second + rest)), b, b2, overlap))) == system
  {
    InnerWindow(first, filler, second, rest, b, b2, overlap);
    var later, rest1 := filler[b - overlap - |first|..], rest[..b2 - |first| - |filler| - |second|];
    DeclarationBehindFiller(later, system, rest1, later + (second + rest1));
  }

  lemma NoValueGoesOn(p: Pattern, data: string, chunk: nat, overlap: nat)
    requires 0 < chunk <= |data| && Capture(Find(p, Window(data, 0, chunk, overlap))) == ""
    ensures Report(p, data, chunk, overlap) == CaptureFrom(p, data, chunk, chunk, overlap, "")
  {
    CaptureStep(p, data, 0, chunk, overlap, "");
  }

  /** What is reported when the first window shows no value and the second does. */
  lemma SecondWindowDecides(p: Pattern, data: string, chunk: nat, overlap: nat, b: nat, value: string)
    requires 0 < chunk <= |data| && b == Min(chunk + chunk, |data|)
    requires Capture(Find(p, Window(data, 0, chunk, overlap))) == ""
    requires Capture(Find(p, Window(data, chunk, b, overlap))) == value != ""
    ensures Report(p, data, chunk, overlap) == value
  {
    NoValueGoesOn(p, data, chunk, overlap);
    CaptureStep(p, data, chunk, chunk, overlap, "");
    CaptureStays(p, data, b, chunk, overlap, value);
  }

  lemma OneWindowDecides(p: Pattern, data: string, chunk: nat, overlap: nat)
    requires |data| < chunk
    ensures Report(p, data, chunk, overlap) == Capture(Find(p, Window(data, 0, |data|, overlap)))
  {
    CaptureStep(p, data, 0, chunk, overlap, "");
  }

  /** An empty first declaration is passed over when the next one starts in the overlap
      that ends the first chunk, whatever else the stream holds; a chunk longer than the
      stream reports the empty one. */
  lemma EmptyFirstIsLost(filler: string, system: string, rest: string, chunk: nat, overlap: nat, long: nat)
    requires QUOTE !in filler && QUOTE !in system && system != ""
    requires var start, data := |Declaration("")| + |filler|, TwoSystems(filler, system, rest);
             && |Declaration("")| + overlap <= chunk && start <= chunk <= start + overlap && chunk <= |data| < long
             && start + |Declaration(system)| <= 2 * chunk
    ensures var data := TwoSystems(filler, system, rest);
            && Declared(data) == ""
            && Report(ReferenceSystem(), data, chunk, overlap) == system
            && Report(ReferenceSystem(), data, long, overlap) == ""
  {
    var p, data, b := ReferenceSystem(), TwoSystems(filler, system, rest), Min(chunk + chunk, |TwoSystems(filler, system, rest)|);
    var first, second := Declaration(""), Declaration(system);
    var more := filler + (second + rest);
    EmptyDeclarationShown(more);
    FirstWindow(p, first, more, |data|, overlap);
    FirstWindow(p, first, more, chunk, overlap);
    LaterWindow(p, first, filler, second, system, rest, chunk, b, overlap);
    OneWindowDecides(p, data, long, overlap);
    SecondWindowDecides(p, data, chunk, overlap, b, system);
  }

  /** With the sizes of the code: a second declaration that starts in the last 4096 bytes
      of the first chunk of 1048576 is reported in place of an empty first one. */
  lemma EmptyFirstInAChunk(filler: string, system: string, rest: string)
    requires QUOTE !in filler && QUOTE !in system && 0 < |system| <= OVERLAP
    requires CHUNK - OVERLAP <= |Declaration("") + filler| <= CHUNK <= |TwoSystems(filler, system, rest)|
    ensures var data := TwoSystems(filler, system, rest);
            Declared(data) == "" && Report(ReferenceSystem(), data, CHUNK, OVERLAP) == system
  {
    EmptyFirstIsLost(filler, system, rest, CHUNK, OVERLAP, |TwoSystems(filler, system, rest)| + 1);
  }
}
