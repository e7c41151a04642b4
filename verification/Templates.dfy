/** SQL templates: a script's {name} placeholders are replaced one parameter at a
    time, in whatever order Go walks the parameter map. */
module Templates {
  import opened Wrappers
  import opened TextEncoders
  import opened Sequences

  /** The placeholder of a parameter. */
  function Placeholder(name: string): string {
    "{" + name + "}"
  }

  predicate BraceFree(s: string) {
    '{' !in s && '}' !in s
  }

  /** Go: strings.ReplaceAll for a non-empty pattern; leftmost matches that do not
      overlap, one pass. */
  function ReplaceAll(s: string, pattern: string, value: string): string
    requires pattern != ""
    decreases |s|
  {
    if s == "" then ""
    else if pattern <= s then value + ReplaceAll(s[|pattern|..], pattern, value)
    else [s[0]] + ReplaceAll(s[1..], pattern, value)
  }

  /** The text after replacing the parameters in the given order. */
  function ReplaceInOrder(s: string, order: seq<string>, params: map<string, string>): string
    requires forall i :: 0 <= i < |order| ==> order[i] in params
    decreases |order|
  {
    if order == [] then s
    else ReplaceInOrder(ReplaceAll(s, Placeholder(order[0]), params[order[0]]), order[1..], params)
  }

  /** Every parameter once. */
  ghost predicate IsOrder(order: seq<string>, params: map<string, string>) {
    && (forall i, j :: 0 <= i < j < |order| ==> order[i] != order[j])
    && (forall k :: k in params <==> k in order)
  }

  // ---- Reference meaning: all placeholders at once ----

  /** A script in pieces: a {name} without inner braces, or one character. */
  datatype Piece = Char(c: char) | Hole(name: string)

  /** Where the first brace of s is, when it closes. */
  function NameEnd(s: string): (r: Option<nat>)
    ensures r.Some? ==> r.value < |s| && s[r.value] == '}' && BraceFree(s[..r.value])
  {
    if s == "" || s[0] == '{' then None
    else if s[0] == '}' then Some(0)
    else
      match NameEnd(s[1..])
      case None => None
      case Some(n) =>
        assert s[..n + 1] == [s[0]] + s[1..][..n];
        Some(n + 1)
  }

  function Pieces(s: string): seq<Piece>
    decreases |s|
  {
    if s == "" then []
    else if s[0] == '{' && NameEnd(s[1..]).Some? then
      var n := NameEnd(s[1..]).value;
      [Hole(s[1..][..n])] + Pieces(s[n + 2..])
    else [Char(s[0])] + Pieces(s[1..])
  }

  function Shown(p: Piece): string {
    match p
    case Char(c) => [c]
    case Hole(name) => Placeholder(name)
  }

  function Render(ps: seq<Piece>): string {
    if ps == [] then "" else Shown(ps[0]) + Render(ps[1..])
  }

  function Chars(s: string): seq<Piece> {
    seq(|s|, i requires 0 <= i < |s| => Char(s[i]))
  }

  function FillPiece(p: Piece, params: map<string, string>, keys: set<string>): seq<Piece>
    requires keys <= params.Keys
  {
    if p.Hole? && p.name in keys then Chars(params[p.name]) else [p]
  }

  /** The pieces with the holes of the given parameters filled. */
  function Fill(ps: seq<Piece>, params: map<string, string>, keys: set<string>): seq<Piece>
    requires keys <= params.Keys
  {
    if ps == [] then [] else FillPiece(ps[0], params, keys) + Fill(ps[1..], params, keys)
  }

  /** The script with every known placeholder replaced at once. */
  function Substitute(s: string, params: map<string, string>): string {
    Render(Fill(Pieces(s), params, params.Keys))
  }

  /** No placeholder of a known parameter occurs in the text. */
  ghost predicate NoneLeft(s: string, params: map<string, string>) {
    forall k, i :: k in params && 0 <= i <= |s| ==> !(Placeholder(k) <= s[i..])
  }

  predicate NamesAreBraceFree(ps: seq<Piece>) {
    forall i :: 0 <= i < |ps| && ps[i].Hole? ==> BraceFree(ps[i].name)
  }

  // ---- Pieces ----

  lemma RenderCons(p: Piece, ps: seq<Piece>)
    ensures Render([p] + ps) == Shown(p) + Render(ps)
  {
    assert ([p] + ps)[1..] == ps;
  }

  lemma FirstHole(s: string) returns (name: string, rest: string)
    requires s != "" && s[0] == '{' && NameEnd(s[1..]).Some?
    ensures s == Placeholder(name) + rest && BraceFree(name) && |rest| < |s|
    ensures Pieces(s) == [Hole(name)] + Pieces(rest)
  {
    var n := NameEnd(s[1..]).value;
    name, rest := s[1..][..n], s[n + 2..];
    assert s[1..] == name + "}" + rest;
  }

  lemma FirstPiece(s: string) returns (p: Piece, rest: string)
    requires s != ""
    ensures s == Shown(p) + rest && |rest| < |s| && (p.Hole? ==> BraceFree(p.name))
    ensures Pieces(s) == [p] + Pieces(rest)
  {
    if s[0] == '{' && NameEnd(s[1..]).Some? {
      var name;
      name, rest := FirstHole(s);
      p := Hole(name);
    } else {
      p, rest := Char(s[0]), s[1..];
      assert s == [s[0]] + s[1..];
    }
  }

  lemma PieceBefore(p: Piece, ps: seq<Piece>, s: string)
    requires Render(ps) == s && NamesAreBraceFree(ps) && (p.Hole? ==> BraceFree(p.name))
    ensures Render([p] + ps) == Shown(p) + s && NamesAreBraceFree([p] + ps)
  {
    RenderCons(p, ps);
  }

  /** Cutting a script into pieces loses nothing. */
  lemma {:induction false} PiecesRoundTrip(s: string)
    ensures Render(Pieces(s)) == s && NamesAreBraceFree(Pieces(s))
    decreases |s|
  {
    if s != "" {
      var p, rest := FirstPiece(s);
      PiecesRoundTrip(rest);
      PieceBefore(p, Pieces(rest), rest);
    }
  }

  lemma {:induction false} NameEndFound(name: string, rest: string)
    requires BraceFree(name)
    ensures NameEnd(name + "}" + rest) == Some(|name|)
  {
    var s := name + "}" + rest;
    if name != "" {
      NameEndFound(name[1..], rest);
      assert s[1..] == name[1..] + "}" + rest;
    }
  }

  /** No placeholder is overlooked: wherever the pieces reach one, it is a hole. */
  lemma PlaceholderIsAHole(name: string, rest: string)
    requires BraceFree(name)
    ensures Pieces(Placeholder(name) + rest) == [Hole(name)] + Pieces(rest)
  {
    var s := Placeholder(name) + rest;
    assert s[1..] == name + "}" + rest;
    NameEndFound(name, rest);
    assert s[1..][..|name|] == name && s[|name| + 2..] == rest;
  }

  lemma {:induction false} RenderConcat(a: seq<Piece>, b: seq<Piece>)
    ensures Render(a + b) == Render(a) + Render(b)
  {
    if a == [] {
      assert a + b == b;
    } else {
      RenderConcat(a[1..], b);
      FirstApart(a, b);
      Associative(Shown(a[0]), Render(a[1..]), Render(b));
    }
  }

  lemma {:induction false} RenderChars(s: string)
    ensures Render(Chars(s)) == s
  {
    if s != "" {
      RenderChars(s[1..]);
      assert Chars(s)[1..] == Chars(s[1..]);
    }
  }

  lemma {:induction false} FillConcat(a: seq<Piece>, b: seq<Piece>, params: map<string, string>, keys: set<string>)
    requires keys <= params.Keys
    ensures Fill(a + b, params, keys) == Fill(a, params, keys) + Fill(b, params, keys)
  {
    if a == [] {
      assert a + b == b;
    } else {
      FillConcat(a[1..], b, params, keys);
      FirstApart(a, b);
      Associative(FillPiece(a[0], params, keys), Fill(a[1..], params, keys), Fill(b, params, keys));
    }
  }

  lemma {:induction false} FillChars(s: string, params: map<string, string>, keys: set<string>)
    requires keys <= params.Keys
    ensures Fill(Chars(s), params, keys) == Chars(s)
  {
    if s != "" {
      FillChars(s[1..], params, keys);
      assert Chars(s)[1..] == Chars(s[1..]);
    }
  }

  /** Filling some holes and then more is filling them together. */
  lemma {:induction false} FillMore(ps: seq<Piece>, params: map<string, string>, some: set<string>, more: set<string>)
    requires some <= params.Keys && more <= params.Keys
    ensures Fill(Fill(ps, params, some), params, more) == Fill(ps, params, some + more)
  {
    if ps != [] {
      FillMore(ps[1..], params, some, more);
      var rest := Fill(ps[1..], params, some);
      if ps[0].Hole? && ps[0].name in some {
        FillConcat(Chars(params[ps[0].name]), rest, params, more);
        FillChars(params[ps[0].name], params, more);
      } else {
        assert ([ps[0]] + rest)[1..] == rest;
      }
    }
  }

  lemma {:induction false} FillKeepsNames(ps: seq<Piece>, params: map<string, string>, keys: set<string>)
    requires keys <= params.Keys && NamesAreBraceFree(ps)
    ensures NamesAreBraceFree(Fill(ps, params, keys))
  {
    if ps != [] {
      FillKeepsNames(ps[1..], params, keys);
    }
  }

  // ---- One replacement fills the holes of one parameter ----

  /** The characters of name's placeholder stand in the pieces without being a hole. */
  ghost predicate SpelledOut(ps: seq<Piece>, name: string) {
    exists i :: 0 <= i <= |ps| && Chars(Placeholder(name)) <= ps[i..]
  }

  /** Text without an opening brace can only come from single characters. */
  lemma {:induction false} PlainPrefix(q: string, ps: seq<Piece>)
    requires '{' !in q && q <= Render(ps)
    ensures Chars(q) <= ps
  {
    if q != "" {
      assert q[0] == Render(ps)[0];
      assert ps[0].Char?;
      assert Render(ps)[1..] == Render(ps[1..]);
      PlainPrefix(q[1..], ps[1..]);
      assert Chars(q) == [ps[0]] + Chars(q[1..]);
    }
  }

  lemma {:induction false} ReplaceSkips(x: string, s: string, pattern: string, value: string)
    requires '{' !in x && pattern != "" && pattern[0] == '{'
    ensures ReplaceAll(x + s, pattern, value) == x + ReplaceAll(s, pattern, value)
  {
    if x == "" {
      assert x + s == s;
    } else {
      ReplaceSkips(x[1..], s, pattern, value);
      assert (x + s)[1..] == x[1..] + s;
    }
  }

  lemma NameEndAt(name: string, s: string)
    requires BraceFree(name) && name + "}" <= s
    ensures NameEnd(s) == Some(|name|) && name == s[..|name|]
  {
    var rest := s[|name| + 1..];
    assert s == name + "}" + rest;
    NameEndFound(name, rest);
  }

  lemma SamePlaceholder(name: string, other: string, rest: string)
    requires BraceFree(name) && BraceFree(other)
    requires Placeholder(name) <= Placeholder(other) + rest
    ensures name == other
  {
    var s := other + "}" + rest;
    PlaceholderTail(name, "");
    PlaceholderTail(other, rest);
    assert Placeholder(name) + "" == Placeholder(name) && name + "}" + "" == name + "}";
    PrefixTail(Placeholder(name), Placeholder(other) + rest);
    assert other + "}" <= s;
    NameEndAt(name, s);
    NameEndAt(other, s);
  }

  lemma PlaceholderTail(name: string, rest: string)
    ensures (Placeholder(name) + rest)[1..] == name + "}" + rest
  {
  }

  lemma OtherPlaceholder(name: string, other: string, rest: string)
    requires BraceFree(name) && BraceFree(other) && name != other
    ensures !(Placeholder(name) <= Placeholder(other) + rest)
  {
    if Placeholder(name) <= Placeholder(other) + rest {
      SamePlaceholder(name, other, rest);
      assert false;
    }
  }

  lemma {:induction false} ReplaceFills(ps: seq<Piece>, params: map<string, string>, k: string)
    requires k in params && BraceFree(k) && NamesAreBraceFree(ps) && !SpelledOut(ps, k)
    ensures ReplaceAll(Render(ps), Placeholder(k), params[k]) == Render(Fill(ps, params, {k}))
  {
    if ps != [] {
      var pattern, rest := Placeholder(k), ps[1..];
      NotSpelledOutLater(ps, k);
      ReplaceFills(rest, params, k);
      RenderConcat(FillPiece(ps[0], params, {k}), Fill(rest, params, {k}));
      RenderChars(params[k]);
      RenderCons(ps[0], []);
      assert [ps[0]] + [] == [ps[0]];
      if ps[0].Hole? {
        ReplaceAtHole(ps[0].name, Render(rest), k, params[k]);
      } else {
        ReplaceAtChar(ps, k, params[k]);
      }
    }
  }

  lemma NotSpelledOutLater(ps: seq<Piece>, k: string)
    requires ps != [] && !SpelledOut(ps, k)
    ensures !SpelledOut(ps[1..], k) && !(Chars(Placeholder(k)) <= ps)
  {
    forall i | 0 <= i <= |ps[1..]| ensures !(Chars(Placeholder(k)) <= ps[1..][i..]) {
      assert ps[1..][i..] == ps[i + 1..];
    }
    assert ps[0..] == ps;
  }

  lemma ReplaceAtHole(name: string, rest: string, k: string, value: string)
    requires BraceFree(k) && BraceFree(name)
    ensures ReplaceAll(Placeholder(name) + rest, Placeholder(k), value)
            == (if name == k then value else Placeholder(name)) + ReplaceAll(rest, Placeholder(k), value)
  {
    var s, pattern := Placeholder(name) + rest, Placeholder(k);
    if name == k {
      assert s[|pattern|..] == rest;
    } else {
      OtherPlaceholder(k, name, rest);
      assert s[1..] == (name + "}") + rest;
      ReplaceSkips(name + "}", rest, pattern, value);
    }
  }

  lemma CharsCons(s: string)
    ensures Chars("{" + s) == [Char('{')] + Chars(s)
  {
  }

  lemma PlaceholderParts(k: string)
    ensures Placeholder(k) == "{" + (k + "}")
  {
  }

  lemma PrefixTail(a: string, b: string)
    requires a != "" && a <= b
    ensures b != "" && a[0] == b[0] && a[1..] <= b[1..]
  {
  }

  lemma NoPrefix(c: char, q: string, rest: string)
    requires !(c == '{' && q <= rest)
    ensures !("{" + q <= [c] + rest)
  {
    assert ("{" + q)[1..] == q && ([c] + rest)[1..] == rest;
    if "{" + q <= [c] + rest {
      PrefixTail("{" + q, [c] + rest);
      assert false;
    }
  }

  lemma ReplaceSkipsOne(c: char, rest: string, pattern: string, value: string)
    requires pattern != "" && !(pattern <= [c] + rest)
    ensures ReplaceAll([c] + rest, pattern, value) == [c] + ReplaceAll(rest, pattern, value)
  {
    assert ([c] + rest)[1..] == rest;
  }

  lemma ReplaceFirst(pattern: string, rest: string, value: string)
    requires pattern != ""
    ensures ReplaceAll(pattern + rest, pattern, value) == value + ReplaceAll(rest, pattern, value)
  {
    assert (pattern + rest)[|pattern|..] == rest;
  }

  lemma StrayBrace(ps: seq<Piece>, k: string)
    requires BraceFree(k) && ps != [] && ps[0] == Char('{') && k + "}" <= Render(ps[1..])
    ensures Chars(Placeholder(k)) <= ps
  {
    PlainPrefix(k + "}", ps[1..]);
    CharsCons(k + "}");
    PlaceholderParts(k);
    assert ps == [ps[0]] + ps[1..];
  }

  lemma ReplaceAtChar(ps: seq<Piece>, k: string, value: string)
    requires BraceFree(k) && ps != [] && ps[0].Char? && !(Chars(Placeholder(k)) <= ps)
    ensures ReplaceAll(Render(ps), Placeholder(k), value)
            == [ps[0].c] + ReplaceAll(Render(ps[1..]), Placeholder(k), value)
  {
    var c, rest := ps[0].c, Render(ps[1..]);
    if c == '{' && k + "}" <= rest {
      StrayBrace(ps, k);
      assert false;
    }
    PlaceholderParts(k);
    NoPrefix(c, k + "}", rest);
    ReplaceSkipsOne(c, rest, Placeholder(k), value);
  }

  // ---- The order does not matter ----

  lemma SpelledOutIsLeft(ps: seq<Piece>, params: map<string, string>, k: string)
    requires k in params && SpelledOut(ps, k)
    ensures !NoneLeft(Render(Fill(ps, params, params.Keys)), params)
  {
    var p := Placeholder(k);
    var i :| 0 <= i <= |ps| && Chars(p) <= ps[i..];
    var before, after := ps[..i], ps[i + |p|..];
    assert ps == before + (Chars(p) + after);
    var fb, fa := Fill(before, params, params.Keys), Fill(after, params, params.Keys);
    FillConcat(before, Chars(p) + after, params, params.Keys);
    FillConcat(Chars(p), after, params, params.Keys);
    FillChars(p, params, params.Keys);
    RenderConcat(fb, Chars(p) + fa);
    RenderConcat(Chars(p), fa);
    RenderChars(p);
    var text := Render(Fill(ps, params, params.Keys));
    assert text[|Render(fb)|..] == p + Render(fa);
  }

  /** One step of the loop, from the placeholders in done replaced to one more. */
  lemma ReplaceOneMore(script: string, params: map<string, string>, done: set<string>, k: string)
    requires forall name :: name in params ==> BraceFree(name)
    requires NoneLeft(Substitute(script, params), params)
    requires done <= params.Keys && k in params
    ensures ReplaceAll(Render(Fill(Pieces(script), params, done)), Placeholder(k), params[k])
            == Render(Fill(Pieces(script), params, done + {k}))
  {
    var ps := Pieces(script);
    var now := Fill(ps, params, done);
    PiecesRoundTrip(script);
    FillKeepsNames(ps, params, done);
    FillMore(ps, params, done, params.Keys);
    assert done + params.Keys == params.Keys;
    if SpelledOut(now, k) {
      SpelledOutIsLeft(now, params, k);
    }
    ReplaceFills(now, params, k);
    FillMore(ps, params, done, {k});
  }

  lemma {:induction false} FillNothing(ps: seq<Piece>, params: map<string, string>)
    ensures Fill(ps, params, {}) == ps
  {
    if ps != [] {
      FillNothing(ps[1..], params);
    }
  }

  lemma {:induction false} OrderFills(script: string, params: map<string, string>, done: set<string>, order: seq<string>)
    requires forall name :: name in params ==> BraceFree(name)
    requires NoneLeft(Substitute(script, params), params)
    requires done <= params.Keys && forall i :: 0 <= i < |order| ==> order[i] in params
    ensures ReplaceInOrder(Render(Fill(Pieces(script), params, done)), order, params)
            == Render(Fill(Pieces(script), params, done + set k | k in order))
    decreases |order|
  {
    if order == [] {
      assert done + (set k | k in order) == done;
    } else {
      ReplaceOneMore(script, params, done, order[0]);
      OrderFills(script, params, done + {order[0]}, order[1..]);
      assert done + (set k | k in order) == done + {order[0]} + (set k | k in order[1..]);
    }
  }

  /** For brace-free parameter names and any script and values: every order gives the
      simultaneous substitution and leaves no known placeholder, exactly when the
      simultaneous substitution itself spells out no known placeholder. */
  lemma EveryOrderSubstitutes(script: string, params: map<string, string>)
    requires forall name :: name in params ==> BraceFree(name)
    ensures NoneLeft(Substitute(script, params), params)
            <==> forall order :: IsOrder(order, params) ==>
                   var text := ReplaceInOrder(script, order, params);
                   text == Substitute(script, params) && NoneLeft(text, params)
  {
    if NoneLeft(Substitute(script, params), params) {
      forall order | IsOrder(order, params)
        ensures ReplaceInOrder(script, order, params) == Substitute(script, params)
      {
        PiecesRoundTrip(script);
        FillNothing(Pieces(script), params);
        OrderFills(script, params, {}, order);
        assert {} + (set k | k in order) == params.Keys;
      }
    } else {
      var order := SomeOrder(params);
      assert IsOrder(order, params);
    }
  }

  lemma {:induction false} SomeOrder(params: map<string, string>) returns (order: seq<string>)
    ensures IsOrder(order, params)
    decreases |params.Keys|
  {
    if params.Keys == {} {
      order := [];
    } else {
      var k :| k in params.Keys;
      assert (params - {k}).Keys == params.Keys - {k};
      var rest := SomeOrder(params - {k});
      order := [k] + rest;
    }
  }

  /** No opening brace in the script except those of its placeholders. */
  predicate Unnested(script: string) {
    Char('{') !in Pieces(script)
  }

  /** Nothing here starts a placeholder of a parameter in keys. */
  predicate Inert(p: Piece, keys: set<string>) {
    p != Char('{') && (p.Hole? ==> p.name !in keys)
  }

  lemma {:induction false} FillUnnested(ps: seq<Piece>, params: map<string, string>, keys: set<string>, p: Piece)
    requires keys <= params.Keys && Char('{') !in ps && p in Fill(ps, params, keys)
    requires forall name :: name in params ==> BraceFree(params[name])
    ensures Inert(p, keys)
  {
    var head := FillPiece(ps[0], params, keys);
    if p in head {
      if ps[0].Hole? && ps[0].name in keys {
        assert BraceFree(params[ps[0].name]);
      } else {
        assert ps[0] in ps;
      }
    } else {
      FillUnnested(ps[1..], params, keys, p);
    }
  }

  /** Pieces without a stray brace or a hole of k show no placeholder of k. */
  lemma {:induction false} NotShown(ps: seq<Piece>, k: string, i: nat)
    requires BraceFree(k) && NamesAreBraceFree(ps) && i <= |Render(ps)|
    requires forall p :: p in ps ==> Inert(p, {k})
    ensures !(Placeholder(k) <= Render(ps)[i..])
  {
    if ps != [] {
      var head, rest := Shown(ps[0]), Render(ps[1..]);
      assert Inert(ps[0], {k});
      if i >= |head| {
        NotShown(ps[1..], k, i - |head|);
        assert (head + rest)[i..] == rest[i - |head|..];
      } else {
        NotShownFirst(ps[0], rest, k, i);
      }
    }
  }

  lemma NotShownFirst(p: Piece, rest: string, k: string, i: nat)
    requires BraceFree(k) && (p.Hole? ==> BraceFree(p.name)) && Inert(p, {k}) && i < |Shown(p)|
    ensures !(Placeholder(k) <= (Shown(p) + rest)[i..])
  {
    var s := (Shown(p) + rest)[i..];
    assert Placeholder(k)[0] == '{' && s[0] == Shown(p)[i];
    if p.Hole? && i == 0 {
      OtherPlaceholder(k, p.name, rest);
      assert s == Placeholder(p.name) + rest;
    }
  }

  lemma NoneLeftWhenUnnested(script: string, params: map<string, string>)
    requires Unnested(script)
    requires forall name :: name in params ==> BraceFree(name) && BraceFree(params[name])
    ensures NoneLeft(Substitute(script, params), params)
  {
    var filled := Fill(Pieces(script), params, params.Keys);
    PiecesRoundTrip(script);
    FillKeepsNames(Pieces(script), params, params.Keys);
    forall p | p in filled ensures Inert(p, params.Keys) {
      FillUnnested(Pieces(script), params, params.Keys, p);
    }
    forall k, i | k in params && 0 <= i <= |Render(filled)|
      ensures !(Placeholder(k) <= Render(filled)[i..])
    {
      forall p | p in filled ensures Inert(p, {k}) {
        assert Inert(p, params.Keys);
      }
      NotShown(filled, k, i);
    }
  }

  /** Scripts whose braces do not nest, with brace-free values, meet the condition:
      no known placeholder survives, and the order of the parameters is immaterial. */
  lemma UnnestedScripts(script: string, params: map<string, string>, order: seq<string>)
    requires Unnested(script) && IsOrder(order, params)
    requires forall name :: name in params ==> BraceFree(name) && BraceFree(params[name])
    ensures ReplaceInOrder(script, order, params) == Substitute(script, params)
    ensures NoneLeft(Substitute(script, params), params)
  {
    NoneLeftWhenUnnested(script, params);
    EveryOrderSubstitutes(script, params);
  }

  /** Placeholders of unknown parameters come through a substitution unchanged. */
  lemma UnknownStays(before: string, name: string, after: string, params: map<string, string>)
    requires Unnested(before) && BraceFree(name) && name !in params
    ensures Substitute(before + Placeholder(name) + after, params)
            == Substitute(before, params) + Placeholder(name) + Substitute(after, params)
  {
    var tail := Placeholder(name) + after;
    Associative(before, Placeholder(name), after);
    SubstituteHole(name, after, params);
    SubstituteSplit(before, tail, params);
    Associative(Substitute(before, params), Placeholder(name), Substitute(after, params));
  }

  lemma SubstituteHole(name: string, after: string, params: map<string, string>)
    requires BraceFree(name) && name !in params
    ensures Substitute(Placeholder(name) + after, params) == Placeholder(name) + Substitute(after, params)
  {
    PlaceholderIsAHole(name, after);
    var rest := Pieces(after);
    assert ([Hole(name)] + rest)[1..] == rest;
    RenderCons(Hole(name), Fill(rest, params, params.Keys));
  }

  lemma SubstituteSplit(a: string, b: string, params: map<string, string>)
    requires Unnested(a)
    ensures Substitute(a + b, params) == Substitute(a, params) + Substitute(b, params)
  {
    PiecesSplit(a, b);
    FillConcat(Pieces(a), Pieces(b), params, params.Keys);
    RenderConcat(Fill(Pieces(a), params, params.Keys), Fill(Pieces(b), params, params.Keys));
  }

  /** So every order of the parameters leaves an unknown placeholder where it is and
      works on the text before it and after it on their own. */
  lemma UnknownStaysInEveryOrder(before: string, name: string, after: string, params: map<string, string>,
                                 order: seq<string>)
    requires Unnested(before) && Unnested(after) && IsOrder(order, params) && BraceFree(name) && name !in params
    requires forall k :: k in params ==> BraceFree(k) && BraceFree(params[k])
    ensures ReplaceInOrder(before + Placeholder(name) + after, order, params)
            == ReplaceInOrder(before, order, params) + Placeholder(name) + ReplaceInOrder(after, order, params)
  {
    UnnestedAround(before, name, after);
    UnnestedScripts(before, params, order);
    UnnestedScripts(after, params, order);
    UnnestedScripts(before + Placeholder(name) + after, params, order);
    UnknownStays(before, name, after, params);
  }

  lemma UnnestedAround(before: string, name: string, after: string)
    requires Unnested(before) && Unnested(after) && BraceFree(name)
    ensures Unnested(before + Placeholder(name) + after)
  {
    var tail := Placeholder(name) + after;
    Associative(before, Placeholder(name), after);
    PlaceholderIsAHole(name, after);
    PiecesSplit(before, tail);
  }

  /** A text without a stray opening brace is cut into pieces on its own. */
  lemma {:induction false} PiecesSplit(a: string, b: string)
    requires Unnested(a)
    ensures Pieces(a + b) == Pieces(a) + Pieces(b)
    decreases |a|
  {
    if a == "" {
      assert a + b == b;
    } else if a[0] == '{' && NameEnd(a[1..]).Some? {
      var n := NameEnd(a[1..]).value;
      var name, rest := a[1..][..n], a[n + 2..];
      assert a == Placeholder(name) + rest;
      Associative(Placeholder(name), rest, b);
      PlaceholderIsAHole(name, rest + b);
      assert Pieces(a) == [Hole(name)] + Pieces(rest);
      PiecesSplit(rest, b);
      Associative([Hole(name)], Pieces(rest), Pieces(b));
    } else {
      assert Pieces(a) == [Char(a[0])] + Pieces(a[1..]);
      assert a[0] != '{';
      FirstApart(a, b);
      PiecesSplit(a[1..], b);
      Associative([Char(a[0])], Pieces(a[1..]), Pieces(b));
    }
  }

  lemma ReplaceNothing(x: string, pattern: string, value: string)
    requires '{' !in x && pattern != "" && pattern[0] == '{'
    ensures ReplaceAll(x, pattern, value) == x
  {
    ReplaceSkips(x, "", pattern, value);
    assert x + "" == x;
  }

  lemma ReplaceInner()
    ensures ReplaceAll("{{a}b}", "{a}", "x") == "{xb}"
  {
    ReplaceNothing("b}", "{a}", "x");
    ReplaceFirst("{a}", "b}", "x");
    NoPrefix('{', "a}", "{a}" + "b}");
    assert "{" + "a}" == "{a}";
    ReplaceSkipsOne('{', "{a}" + "b}", "{a}", "x");
    assert ['{'] + ("{a}" + "b}") == "{{a}b}" && ['{'] + ("x" + "b}") == "{xb}";
  }

  lemma ReplaceOuter()
    ensures ReplaceAll("{{a}b}", "{xb}", "y") == "{{a}b}"
  {
    ReplaceNothing("a}b}", "{xb}", "y");
    NoPrefix('{', "xb}", "a}b}");
    NoPrefix('{', "xb}", "{a}b}");
    assert "{" + "xb}" == "{xb}";
    ReplaceSkipsOne('{', "a}b}", "{xb}", "y");
    ReplaceSkipsOne('{', "{a}b}", "{xb}", "y");
    assert ['{'] + "a}b}" == "{a}b}" && ['{'] + "{a}b}" == "{{a}b}";
  }

  lemma ReplaceWhole()
    ensures ReplaceAll("{xb}", "{xb}", "y") == "y"
  {
    ReplaceFirst("{xb}", "", "y");
    assert "{xb}" + "" == "{xb}" && "y" + "" == "y";
  }

  /** With nested braces the order shows: one placeholder's value completes another. */
  lemma NestedBracesShowTheOrder()
    ensures var params := map["a" := "x", "xb" := "y"];
            && ReplaceInOrder("{{a}b}", ["a", "xb"], params) == "y"
            && ReplaceInOrder("{{a}b}", ["xb", "a"], params) == "{xb}"
            && IsOrder(["a", "xb"], params) && IsOrder(["xb", "a"], params)
  {
    assert Placeholder("a") == "{a}" && Placeholder("xb") == "{xb}";
    ReplaceInner();
    ReplaceOuter();
    ReplaceWhole();
    assert ["a", "xb"][1..] == ["xb"] && ["xb", "a"][1..] == ["a"];
    assert ["xb"][1..] == [] && ["a"][1..] == [];
  }

  // ---- The loop ----

  /** replaceParameters: the parameters in any order, as the map yields them. */
  method ReplaceParameters(script: string, params: map<string, string>) returns (text: string)
    ensures exists order :: IsOrder(order, params) && text == ReplaceInOrder(script, order, params)
    ensures (forall name :: name in params ==> BraceFree(name)) && NoneLeft(Substitute(script, params), params)
            ==> text == Substitute(script, params)
  {
    text := script;
    var todo := params.Keys;
    ghost var order: seq<string> := [];
    while todo != {}
      invariant todo <= params.Keys && forall i :: 0 <= i < |order| ==> order[i] in params
      invariant forall i, j :: 0 <= i < j < |order| ==> order[i] != order[j]
      invariant forall k :: k in params.Keys - todo <==> k in order
      invariant text == ReplaceInOrder(script, order, params)
      decreases todo
    {
      var key :| key in todo;
      assert key !in params.Keys - todo;
      assert key !in order;
      ReplaceLast(script, order, key, params);
      text := ReplaceAll(text, Placeholder(key), params[key]);
      order := order + [key];
      todo := todo - {key};
    }
    assert IsOrder(order, params);
    if forall name :: name in params ==> BraceFree(name) {
      EveryOrderSubstitutes(script, params);
    }
  }

  lemma {:induction false} ReplaceLast(s: string, order: seq<string>, k: string, params: map<string, string>)
    requires k in params && forall i :: 0 <= i < |order| ==> order[i] in params
    ensures ReplaceInOrder(s, order + [k], params)
            == ReplaceAll(ReplaceInOrder(s, order, params), Placeholder(k), params[k])
    decreases |order|
  {
    if order != [] {
      ReplaceLast(ReplaceAll(s, Placeholder(order[0]), params[order[0]]), order[1..], k, params);
      assert (order + [k])[1..] == order[1..] + [k];
    } else {
      assert (order + [k])[1..] == [];
    }
  }

  // ---- The building_ids parameter ----

  function ReadIds(s: string): seq<int>
    decreases |s|
  {
    match Cut(s, ',')
    case None => [DecimalValue(s)]
    case Some((id, rest)) =>
      CutShrinks(s, ',');
      [DecimalValue(id)] + ReadIds(rest)
  }

  /** What the database reads from the parameter's parenthesised list. */
  function ReadIdList(s: string): seq<int> {
    if |s| >= 2 && s[0] == '(' && s[|s| - 1] == ')' then ReadIds(s[1..|s| - 1]) else []
  }

  /** Go: strings.Join with a comma. */
  function Joined(parts: seq<string>): string {
    if parts == [] then "" else if |parts| == 1 then parts[0] else parts[0] + "," + Joined(parts[1..])
  }

  lemma {:induction false} CutMisses(s: string, c: char)
    requires c !in s
    ensures Cut(s, c) == None
  {
    if s != "" {
      CutMisses(s[1..], c);
    }
  }

  lemma {:induction false} JoinedRoundTrip(ids: seq<int>, parts: seq<string>)
    requires ids != [] && |parts| == |ids| && forall i :: 0 <= i < |ids| ==> parts[i] == Decimal(ids[i])
    ensures ReadIds(Joined(parts)) == ids
  {
    DecimalRoundTrip(ids[0]);
    DecimalHasNoComma(ids[0]);
    if |ids| == 1 {
      CutMisses(parts[0], ',');
    } else {
      CutAt(parts[0], ',', Joined(parts[1..]));
      assert Joined(parts) == parts[0] + [','] + Joined(parts[1..]);
      JoinedRoundTrip(ids[1..], parts[1..]);
    }
  }

  lemma DecimalHasNoComma(n: int)
    ensures ',' !in Decimal(n)
  {
    var digits := Digits(if n < 0 then -n else n);
    assert forall i :: 0 <= i < |digits| ==> '0' <= digits[i] <= '9';
  }

  /** The list the scripts see: exactly the ids, in order, and the impossible id -1
      alone when there are none. */
  method BuildingIdsText(ids: seq<int>) returns (text: string)
    ensures |text| >= 2 && text[0] == '(' && text[|text| - 1] == ')' && ReadIdList(text) == if ids == [] then [-1] else ids
  {
    if |ids| > 0 {
      var idStrings: seq<string> := [];
      for i := 0 to |ids|
        invariant |idStrings| == i && forall j :: 0 <= j < i ==> idStrings[j] == Decimal(ids[j])
      {
        idStrings := idStrings + [Decimal(ids[i])];
      }
      text := "(" + Joined(idStrings) + ")";
      JoinedRoundTrip(ids, idStrings);
      ListRoundTrip(Joined(idStrings));
    } else {
      text := "(-1)";
      NoIds();
    }
  }

  lemma ListRoundTrip(joined: string)
    ensures ReadIdList("(" + joined + ")") == ReadIds(joined)
  {
    var text := "(" + joined + ")";
    assert text[1..|text| - 1] == joined;
  }

  lemma NoIds()
    ensures ReadIdList("(-1)") == [-1]
  {
    assert Decimal(-1) == "-1" && "(-1)"[1..3] == "-1";
    DecimalHasNoComma(-1);
    CutMisses("-1", ',');
    DecimalRoundTrip(-1);
  }
}
