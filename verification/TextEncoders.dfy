/** The three texts the importer and the PyLovo link write for a later reader: the
    list a fingerprint hashes, citydb-tool's argument file, and a SQL string
    literal. Each has a decoder that inverts it. */
module TextEncoders {
  import opened Wrappers

  // ---- Decimal numbers (Go: %d) ----

  function Digit(d: nat): char
    requires d < 10
  {
    '0' + d as char
  }

  function Digits(n: nat): (r: string)
    ensures r != "" && (forall i :: 0 <= i < |r| ==> '0' <= r[i] <= '9') && (n > 0 ==> r[0] != '0')
    ensures n == 0 ==> r == "0"
  {
    if n < 10 then [Digit(n)] else Digits(n / 10) + [Digit(n % 10)]
  }

  function Decimal(n: int): (r: string)
    ensures r != "" && '\0' !in r && '\n' !in r
    ensures n < 0 <==> r[0] == '-'
    ensures n == 0 ==> r == "0"
  {
    if n < 0 then "-" + Digits(-n) else Digits(n)
  }

  function DigitsValue(s: string): int {
    if s == "" then 0 else 10 * DigitsValue(s[..|s| - 1]) + (s[|s| - 1] as int - '0' as int)
  }

  function DecimalValue(s: string): int {
    if s != "" && s[0] == '-' then -DigitsValue(s[1..]) else DigitsValue(s)
  }

  lemma {:induction false} DigitsRoundTrip(n: nat)
    ensures DigitsValue(Digits(n)) == n
  {
    if n < 10 {
      assert Digits(n)[..0] == "";
    } else {
      DigitsRoundTrip(n / 10);
      assert Digits(n)[..|Digits(n)| - 1] == Digits(n / 10);
    }
  }

  lemma DecimalRoundTrip(n: int)
    ensures DecimalValue(Decimal(n)) == n
  {
    if n < 0 {
      DigitsRoundTrip(-n);
      assert Decimal(n)[1..] == Digits(-n);
    } else {
      DigitsRoundTrip(n);
    }
  }

  // ---- The fingerprinted list ----

  /** A file as the importer identifies it: path, size and modification time. */
  datatype Stamp = Stamp(path: string, size: int, mtime: int)

  /** No file name holds a NUL; that much the operating system guarantees. */
  predicate NulFree(files: seq<Stamp>) {
    forall i :: 0 <= i < |files| ==> '\0' !in files[i].path
  }

  function StampText(f: Stamp): string {
    f.path + "\0" + Decimal(f.size) + "\0" + Decimal(f.mtime) + "\n"
  }

  /** The text fingerprintFiles feeds to SHA-256. */
  function FingerprintText(files: seq<Stamp>): string {
    if files == [] then "" else StampText(files[0]) + FingerprintText(files[1..])
  }

  /** The part before the first c and the part after it. */
  function Cut(s: string, c: char): Option<(string, string)> {
    if s == "" then None
    else if s[0] == c then Some(("", s[1..]))
    else match Cut(s[1..], c)
         case None => None
         case Some((before, after)) => Some(([s[0]] + before, after))
  }

  lemma {:induction false} CutAt(before: string, c: char, after: string)
    requires c !in before
    ensures Cut(before + [c] + after, c) == Some((before, after))
  {
    if before == "" {
      assert before + [c] + after == [c] + after;
    } else {
      CutAt(before[1..], c, after);
      assert (before + [c] + after)[1..] == before[1..] + [c] + after;
      assert before == [before[0]] + before[1..];
    }
  }

  lemma {:induction false} CutShrinks(s: string, c: char)
    requires Cut(s, c).Some?
    ensures |Cut(s, c).value.1| < |s|
  {
    if s[0] != c {
      CutShrinks(s[1..], c);
    }
  }

  /** One entry off the front of the list, and what follows it. */
  function ReadStamp(s: string): (r: Option<(Stamp, string)>)
    ensures r.Some? ==> |r.value.1| < |s|
  {
    match Cut(s, '\0')
    case None => None
    case Some((path, s1)) =>
      CutShrinks(s, '\0');
      match Cut(s1, '\0')
      case None => None
      case Some((size, s2)) =>
        CutShrinks(s1, '\0');
        match Cut(s2, '\n')
        case None => None
        case Some((mtime, rest)) =>
          CutShrinks(s2, '\n');
          Some((Stamp(path, DecimalValue(size), DecimalValue(mtime)), rest))
  }

  function ReadFingerprintText(s: string): Option<seq<Stamp>>
    decreases |s|
  {
    if s == "" then Some([])
    else match ReadStamp(s)
         case None => None
         case Some((f, rest)) =>
           match ReadFingerprintText(rest)
           case None => None
           case Some(fs) => Some([f] + fs)
  }

  lemma ReadStampRoundTrip(f: Stamp, rest: string)
    requires '\0' !in f.path
    ensures ReadStamp(StampText(f) + rest) == Some((f, rest))
  {
    var size, mtime := Decimal(f.size), Decimal(f.mtime);
    var s2 := mtime + "\n" + rest;
    var s1 := size + "\0" + s2;
    assert StampText(f) + rest == f.path + "\0" + s1;
    CutAt(f.path, '\0', s1);
    CutAt(size, '\0', s2);
    CutAt(mtime, '\n', rest);
    DecimalRoundTrip(f.size);
    DecimalRoundTrip(f.mtime);
  }

  lemma ReadOneMore(f: Stamp, rest: string, files: seq<Stamp>)
    requires '\0' !in f.path && ReadFingerprintText(rest) == Some(files)
    ensures ReadFingerprintText(StampText(f) + rest) == Some([f] + files)
  {
    ReadStampRoundTrip(f, rest);
    var s := StampText(f) + rest;
    assert s[|f.path|] == '\0';
    assert s != "";
  }

  lemma {:induction false} FingerprintRoundTrip(files: seq<Stamp>)
    requires NulFree(files)
    ensures ReadFingerprintText(FingerprintText(files)) == Some(files)
  {
    if files != [] {
      FingerprintRoundTrip(files[1..]);
      ReadOneMore(files[0], FingerprintText(files[1..]), files[1..]);
      assert files == [files[0]] + files[1..];
    }
  }

  /** Different lists of files never hash the same text. */
  lemma FingerprintInjective(a: seq<Stamp>, b: seq<Stamp>)
    requires NulFree(a) && NulFree(b) && FingerprintText(a) == FingerprintText(b)
    ensures a == b
  {
    FingerprintRoundTrip(a);
    FingerprintRoundTrip(b);
  }

  // ---- The argument file ----

  function Escape(p: string): string {
    if p == "" then ""
    else (if p[0] == '\\' then "\\\\" else if p[0] == '"' then "\\\"" else [p[0]]) + Escape(p[1..])
  }

  function ArgLine(p: string): string {
    "\"" + Escape(p) + "\"" + "\n"
  }

  function ArgFileText(paths: seq<string>): string {
    if paths == [] then "" else ArgLine(paths[0]) + ArgFileText(paths[1..])
  }

  /** The text up to the closing quote, unescaped, and what follows the quote. */
  function ReadQuoted(s: string): Option<(string, string)> {
    if s == "" then None
    else if s[0] == '"' then Some(("", s[1..]))
    else if s[0] != '\\' then
      match ReadQuoted(s[1..])
      case None => None
      case Some((p, rest)) => Some(([s[0]] + p, rest))
    else if |s| == 1 then None
    else
      match ReadQuoted(s[2..])
      case None => None
      case Some((p, rest)) => Some(([s[1]] + p, rest))
  }

  lemma {:induction false} ReadQuotedShrinks(s: string)
    requires ReadQuoted(s).Some?
    ensures |ReadQuoted(s).value.1| < |s|
  {
    if s[0] == '"' {
    } else if s[0] != '\\' {
      ReadQuotedShrinks(s[1..]);
    } else {
      ReadQuotedShrinks(s[2..]);
    }
  }

  function ReadArgFile(s: string): Option<seq<string>>
    decreases |s|
  {
    if s == "" then Some([])
    else if s[0] != '"' then None
    else match ReadQuoted(s[1..])
         case None => None
         case Some((p, rest)) =>
           ReadQuotedShrinks(s[1..]);
           if rest == "" || rest[0] != '\n' then None
           else match ReadArgFile(rest[1..])
                case None => None
                case Some(ps) => Some([p] + ps)
  }

  lemma EscapeFirst(p: string, rest: string)
    requires p != ""
    ensures var tail := Escape(p[1..]) + "\"" + rest;
            Escape(p) + "\"" + rest
            == (if p[0] == '\\' then "\\\\" else if p[0] == '"' then "\\\"" else [p[0]]) + tail
  {
  }

  lemma {:induction false} ReadQuotedRoundTrip(p: string, rest: string)
    ensures ReadQuoted(Escape(p) + "\"" + rest) == Some((p, rest))
  {
    if p == "" {
      assert Escape(p) + "\"" + rest == "\"" + rest;
    } else {
      var tail := Escape(p[1..]) + "\"" + rest;
      ReadQuotedRoundTrip(p[1..], rest);
      EscapeFirst(p, rest);
      ReadQuotedFirst(p[0], tail, p[1..], rest);
      assert p == [p[0]] + p[1..];
    }
  }

  lemma ReadQuotedFirst(c: char, tail: string, p: string, rest: string)
    requires ReadQuoted(tail) == Some((p, rest))
    ensures ReadQuoted((if c == '\\' then "\\\\" else if c == '"' then "\\\"" else [c]) + tail) == Some(([c] + p, rest))
  {
    if c == '\\' {
      assert ("\\\\" + tail)[2..] == tail;
    } else if c == '"' {
      assert ("\\\"" + tail)[2..] == tail;
    } else {
      assert ([c] + tail)[1..] == tail;
    }
  }

  /** The argument file says exactly which paths are meant, whatever quotes, backslashes,
      spaces or line breaks they hold. */
  lemma {:induction false} ArgFileRoundTrip(paths: seq<string>)
    ensures ReadArgFile(ArgFileText(paths)) == Some(paths)
  {
    if paths != [] {
      var rest := "\n" + ArgFileText(paths[1..]);
      assert ArgFileText(paths) == "\"" + (Escape(paths[0]) + "\"" + rest);
      assert ArgFileText(paths)[1..] == Escape(paths[0]) + "\"" + rest;
      ReadQuotedRoundTrip(paths[0], rest);
      assert rest[1..] == ArgFileText(paths[1..]);
      ArgFileRoundTrip(paths[1..]);
      assert paths == [paths[0]] + paths[1..];
    }
  }

  /** Two lists of paths with one argument file are one list. */
  lemma ArgFileInjective(a: seq<string>, b: seq<string>)
    requires ArgFileText(a) == ArgFileText(b)
    ensures a == b
  {
    ArgFileRoundTrip(a);
    ArgFileRoundTrip(b);
  }

  // ---- The SQL literal ----

  function DoubleQuotes(s: string): string {
    if s == "" then "" else (if s[0] == '\'' then "''" else [s[0]]) + DoubleQuotes(s[1..])
  }

  function QuoteSQLLiteral(s: string): string {
    "'" + DoubleQuotes(s) + "'"
  }

  /** The literal's text up to a quote that is not doubled, and the rest. */
  function ReadLiteralBody(s: string): Option<(string, string)> {
    if s == "" then None
    else if s[0] != '\'' then
      match ReadLiteralBody(s[1..])
      case None => None
      case Some((v, rest)) => Some(([s[0]] + v, rest))
    else if |s| > 1 && s[1] == '\'' then
      match ReadLiteralBody(s[2..])
      case None => None
      case Some((v, rest)) => Some((['\''] + v, rest))
    else Some(("", s[1..]))
  }

  function ReadSQLLiteral(s: string): Option<(string, string)> {
    if s != "" && s[0] == '\'' then ReadLiteralBody(s[1..]) else None
  }

  lemma {:induction false} LiteralBodyRoundTrip(v: string, rest: string)
    requires rest == "" || rest[0] != '\''
    ensures ReadLiteralBody(DoubleQuotes(v) + "'" + rest) == Some((v, rest))
  {
    if v == "" {
      assert DoubleQuotes(v) + "'" + rest == "'" + rest;
    } else {
      LiteralBodyRoundTrip(v[1..], rest);
      var head := if v[0] == '\'' then "''" else [v[0]];
      assert DoubleQuotes(v) + "'" + rest == head + (DoubleQuotes(v[1..]) + "'" + rest);
      assert (head + (DoubleQuotes(v[1..]) + "'" + rest))[|head|..] == DoubleQuotes(v[1..]) + "'" + rest;
      assert v == [v[0]] + v[1..];
    }
  }

  /** A statement holding the literal is read back with the value intact and the
      rest of the statement untouched, so no value can leave its literal. */
  lemma SQLLiteralRoundTrip(v: string, rest: string)
    requires rest == "" || rest[0] != '\''
    ensures ReadSQLLiteral(QuoteSQLLiteral(v) + rest) == Some((v, rest))
  {
    LiteralBodyRoundTrip(v, rest);
    assert (QuoteSQLLiteral(v) + rest)[1..] == DoubleQuotes(v) + "'" + rest;
  }
}
