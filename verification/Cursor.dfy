/** The cursor between two surface pages: base64url without padding, section 5 of
    RFC 4648. */
module Cursor {
  import opened Wrappers

  type byte = x: int | 0 <= x < 256
  type sextet = x: int | 0 <= x < 64

  function Symbol(x: sextet): char {
    if x < 26 then 'A' + x as char
    else if x < 52 then 'a' + (x - 26) as char
    else if x < 62 then '0' + (x - 52) as char
    else if x == 62 then '-'
    else '_'
  }

  function SymbolValue(c: char): Option<sextet> {
    if 'A' <= c <= 'Z' then Some(c as int - 'A' as int)
    else if 'a' <= c <= 'z' then Some(c as int - 'a' as int + 26)
    else if '0' <= c <= '9' then Some(c as int - '0' as int + 52)
    else if c == '-' then Some(62)
    else if c == '_' then Some(63)
    else None
  }

  /** n characters in a row. */
  function Row(first: char, n: nat): (r: string)
    requires first as int + n <= 128
    ensures |r| == n && forall i :: 0 <= i < n ==> r[i] == first + i as char
  {
    seq(n, i requires 0 <= i < n => first + i as char)
  }

  /** The URL-safe alphabet, Table 2 of RFC 4648: letters, digits, minus and underline. */
  function Alphabet(): (r: string)
    ensures |r| == 64
  {
    Row('A', 26) + Row('a', 26) + Row('0', 10) + ['-', '_']
  }

  lemma SymbolIsOfAlphabet(x: sextet)
    ensures Symbol(x) == Alphabet()[x]
  {
  }

  lemma ValueIsPlace(c: char)
    ensures SymbolValue(c).Some? <==> c in Alphabet()
    ensures SymbolValue(c).Some? ==> Alphabet()[SymbolValue(c).value] == c
  {
    if SymbolValue(c).Some? {
      SymbolIsOfAlphabet(SymbolValue(c).value);
    } else if c in Alphabet() {
      var i :| 0 <= i < 64 && Alphabet()[i] == c;
      SymbolIsOfAlphabet(i);
      SymbolRoundTrip(i);
    }
  }

  // ---- Six bits of a byte triple at a time, and back ----

  function Bits0(a: int): sextet
    requires 0 <= a < 256
  {
    a / 4
  }

  function Bits1(a: int, b: int): sextet
    requires 0 <= a < 256 && 0 <= b < 256
  {
    a % 4 * 16 + b / 16
  }

  function Bits2(b: int, c: int): sextet
    requires 0 <= b < 256 && 0 <= c < 256
  {
    b % 16 * 4 + c / 64
  }

  function Bits3(c: int): sextet
    requires 0 <= c < 256
  {
    c % 64
  }

  function Byte0(x: int, y: int): byte
    requires 0 <= x < 64 && 0 <= y < 64
  {
    x * 4 + y / 16
  }

  function Byte1(y: int, z: int): byte
    requires 0 <= y < 64 && 0 <= z < 64
  {
    y % 16 * 16 + z / 4
  }

  function Byte2(z: int, w: int): byte
    requires 0 <= z < 64 && 0 <= w < 64
  {
    z % 4 * 64 + w
  }

  lemma TripleRoundTrip(a: byte, b: byte, c: byte)
    ensures Byte0(Bits0(a), Bits1(a, b)) == a
    ensures Byte1(Bits1(a, b), Bits2(b, c)) == b
    ensures Byte2(Bits2(b, c), Bits3(c)) == c
  {
  }

  /** Three bytes become four sextets; one or two left over become two or three. */
  function Sextets(s: seq<byte>): seq<sextet> {
    if s == [] then []
    else if |s| == 1 then [Bits0(s[0]), Bits1(s[0], 0)]
    else if |s| == 2 then [Bits0(s[0]), Bits1(s[0], s[1]), Bits2(s[1], 0)]
    else [Bits0(s[0]), Bits1(s[0], s[1]), Bits2(s[1], s[2]), Bits3(s[2])] + Sextets(s[3..])
  }

  /** The bytes of whole sextet groups; bits beyond the last byte are ignored, and a
      group of one sextet is an error. */
  function Bytes(xs: seq<sextet>): Outcome<seq<byte>> {
    if xs == [] then Ok([])
    else if |xs| == 1 then Err
    else if |xs| == 2 then Ok([Byte0(xs[0], xs[1])])
    else if |xs| == 3 then Ok([Byte0(xs[0], xs[1]), Byte1(xs[1], xs[2])])
    else
      match Bytes(xs[4..])
      case Err => Err
      case Ok(rest) => Ok([Byte0(xs[0], xs[1]), Byte1(xs[1], xs[2]), Byte2(xs[2], xs[3])] + rest)
  }

  function Symbols(xs: seq<sextet>): string {
    if xs == [] then "" else [Symbol(xs[0])] + Symbols(xs[1..])
  }

  /** The sextets a text spells; line breaks are skipped, other characters are errors. */
  function Spelled(text: string): Outcome<seq<sextet>> {
    if text == "" then Ok([])
    else if text[0] == '\n' || text[0] == '\r' then Spelled(text[1..])
    else
      match SymbolValue(text[0])
      case None => Err
      case Some(x) =>
        match Spelled(text[1..])
        case Err => Err
        case Ok(xs) => Ok([x] + xs)
  }

  function EncodeSurfaceCursor(objectId: seq<byte>): string {
    Symbols(Sextets(objectId))
  }

  function DecodeText(text: string): Outcome<seq<byte>> {
    match Spelled(text)
    case Err => Err
    case Ok(xs) => Bytes(xs)
  }

  function DecodeSurfaceCursor(cursor: string): Outcome<seq<byte>> {
    match DecodeText(cursor)
    case Err => Err
    case Ok(id) => if cursor != "" && id == [] then Err else Ok(id)
  }

  lemma SymbolRoundTrip(x: sextet)
    ensures SymbolValue(Symbol(x)) == Some(x) && Symbol(x) != '\n' && Symbol(x) != '\r'
  {
  }

  lemma SpelledFirst(x: sextet, text: string, xs: seq<sextet>)
    requires Spelled(text) == Ok(xs)
    ensures Spelled([Symbol(x)] + text) == Ok([x] + xs)
  {
    SymbolRoundTrip(x);
    assert ([Symbol(x)] + text)[1..] == text;
  }

  lemma {:induction false} SymbolsAreSpelled(xs: seq<sextet>)
    ensures Spelled(Symbols(xs)) == Ok(xs)
  {
    if xs != [] {
      SymbolsAreSpelled(xs[1..]);
      SpelledFirst(xs[0], Symbols(xs[1..]), xs[1..]);
      assert [xs[0]] + xs[1..] == xs;
    }
  }

  lemma GroupFirst(x: sextet, y: sextet, z: sextet, w: sextet, tail: seq<sextet>, a: byte, b: byte, c: byte, rest: seq<byte>)
    requires Byte0(x, y) == a && Byte1(y, z) == b && Byte2(z, w) == c && Bytes(tail) == Ok(rest)
    ensures Bytes([x, y, z, w] + tail) == Ok([a, b, c] + rest)
  {
    assert ([x, y, z, w] + tail)[4..] == tail;
  }

  lemma SextetsOfTriple(a: byte, b: byte, c: byte, rest: seq<byte>)
    ensures Sextets([a, b, c] + rest) == [Bits0(a), Bits1(a, b), Bits2(b, c), Bits3(c)] + Sextets(rest)
  {
    assert ([a, b, c] + rest)[3..] == rest;
  }

  lemma TripleFirst(a: byte, b: byte, c: byte, rest: seq<byte>)
    requires Bytes(Sextets(rest)) == Ok(rest)
    ensures Bytes(Sextets([a, b, c] + rest)) == Ok([a, b, c] + rest)
  {
    SextetsOfTriple(a, b, c, rest);
    TripleRoundTrip(a, b, c);
    GroupFirst(Bits0(a), Bits1(a, b), Bits2(b, c), Bits3(c), Sextets(rest), a, b, c, rest);
  }

  lemma OneByte(a: byte)
    ensures Bytes(Sextets([a])) == Ok([a])
  {
    PairFirst(Bits0(a), Bits1(a, 0));
    TripleRoundTrip(a, 0, 0);
  }

  lemma PairFirst(x: sextet, y: sextet)
    ensures Bytes([x, y]) == Ok([Byte0(x, y)])
  {
  }

  lemma TwoBytes(a: byte, b: byte)
    ensures Bytes(Sextets([a, b])) == Ok([a, b])
  {
    ThreeFirst(Bits0(a), Bits1(a, b), Bits2(b, 0));
    TripleRoundTrip(a, b, 0);
  }

  lemma ThreeFirst(x: sextet, y: sextet, z: sextet)
    ensures Bytes([x, y, z]) == Ok([Byte0(x, y), Byte1(y, z)])
  {
  }

  lemma {:induction false} SextetsRoundTrip(s: seq<byte>)
    ensures Bytes(Sextets(s)) == Ok(s)
  {
    if |s| == 1 {
      OneByte(s[0]);
      assert s == [s[0]];
    } else if |s| == 2 {
      TwoBytes(s[0], s[1]);
      assert s == [s[0], s[1]];
    } else if |s| >= 3 {
      SextetsRoundTrip(s[3..]);
      TripleFirst(s[0], s[1], s[2], s[3..]);
      assert s == [s[0], s[1], s[2]] + s[3..];
    }
  }

  function FromBytes(a: int, b: int, c: int): int {
    a * 65536 + b * 256 + c
  }

  function FromSextets(x: int, y: int, z: int, w: int): int {
    x * 262144 + y * 4096 + z * 64 + w
  }

  /** Each three bytes, read as one number of 24 bits, are the four sextets that stand for
      them, highest first; one byte left over is padded to 12 bits, two to 18. */
  lemma {:induction false} SextetsAreTheBits(s: seq<byte>, k: nat)
    ensures |Sextets(s)| == |s| / 3 * 4 + (if |s| % 3 == 0 then 0 else |s| % 3 + 1)
    ensures var i, j, xs := 3 * k, 4 * k, Sextets(s);
            && (i + 2 < |s| ==> FromSextets(xs[j], xs[j + 1], xs[j + 2], xs[j + 3]) == FromBytes(s[i], s[i + 1], s[i + 2]))
            && (i + 1 == |s| ==> FromSextets(0, 0, xs[j], xs[j + 1]) == FromBytes(0, 0, s[i]) * 16)
            && (i + 2 == |s| ==> FromSextets(0, xs[j], xs[j + 1], xs[j + 2]) == FromBytes(0, s[i], s[i + 1]) * 4)
    decreases |s|
  {
    if |s| >= 3 {
      SextetsAreTheBits(s[3..], if k == 0 then 0 else k - 1);
      var rest := Sextets(s[3..]);
      assert Sextets(s) == [Bits0(s[0]), Bits1(s[0], s[1]), Bits2(s[1], s[2]), Bits3(s[2])] + rest;
    }
  }

  /** The characters of a text that are no line breaks. */
  function WithoutBreaks(text: string): string {
    if text == "" then ""
    else (if text[0] == '\n' || text[0] == '\r' then "" else [text[0]]) + WithoutBreaks(text[1..])
  }

  /** A text is read exactly when all its characters but line breaks are of the alphabet,
      and then as the sextets they are the symbols of. */
  lemma {:induction false} SpelledExactly(text: string)
    ensures Spelled(text).Ok? <==> forall i :: 0 <= i < |text| ==> text[i] in Alphabet() + "\n\r"
    ensures Spelled(text).Ok? ==> Symbols(Spelled(text).value) == WithoutBreaks(text)
  {
    if text != "" {
      SpelledExactly(text[1..]);
      ValueIsPlace(text[0]);
      assert forall i :: 0 <= i < |text[1..]| ==> text[1..][i] == text[i + 1];
      if Spelled(text).Ok? && text[0] != '\n' && text[0] != '\r' {
        var x := SymbolValue(text[0]).value;
        SymbolIsOfAlphabet(x);
        assert Spelled(text).value[1..] == Spelled(text[1..]).value;
      }
    }
  }

  /** Every object id comes back from its cursor; only the first page's cursor is empty. */
  lemma CursorRoundTrip(objectId: seq<byte>)
    ensures DecodeSurfaceCursor(EncodeSurfaceCursor(objectId)) == Ok(objectId)
    ensures EncodeSurfaceCursor(objectId) == "" <==> objectId == []
  {
    SextetsRoundTrip(objectId);
    SymbolsAreSpelled(Sextets(objectId));
  }

  /** Cursors are refused exactly when a character is neither a symbol nor a line break,
      when one symbol is left over, or when symbols are missing altogether. */
  lemma RefusedExactly(cursor: string)
    ensures DecodeSurfaceCursor(cursor).Err?
            <==> || Spelled(cursor).Err?
                 || |Spelled(cursor).value| % 4 == 1
                 || (Spelled(cursor).value == [] && cursor != "")
  {
    if Spelled(cursor).Ok? {
      BytesExactly(Spelled(cursor).value);
    }
  }

  lemma {:induction false} BytesExactly(xs: seq<sextet>)
    ensures Bytes(xs).Err? <==> |xs| % 4 == 1
    ensures Bytes(xs) == Ok([]) <==> xs == []
  {
    if |xs| >= 4 {
      BytesExactly(xs[4..]);
      Mod4(|xs|);
    }
  }

  lemma Mod4(n: nat)
    requires n >= 4
    ensures (n - 4) % 4 == n % 4
  {
  }
}
