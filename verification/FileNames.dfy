/** Which paths name a model file. */
module FileNames {

  function LowerChar(c: char): char {
    if 'A' <= c <= 'Z' then (c as int + 32) as char else c
  }

  function Lower(s: string): string {
    if s == "" then "" else [LowerChar(s[0])] + Lower(s[1..])
  }

  predicate HasSuffix(s: string, suffix: string) {
    |suffix| <= |s| && s[|s| - |suffix|..] == suffix
  }

  function TrimSuffix(s: string, suffix: string): string {
    if HasSuffix(s, suffix) then s[..|s| - |suffix|] else s
  }

  /** The extension the path has once it is unzipped. */
  predicate UnzipsTo(path: string, extension: string) {
    HasSuffix(TrimSuffix(Lower(path), ".gz"), extension)
  }

  predicate IsModelFile(path: string) {
    UnzipsTo(path, ".gml") || UnzipsTo(path, ".xml") || UnzipsTo(path, ".json") || UnzipsTo(path, ".jsonl")
  }

  /** c is this lower-case letter or its capital, or this other character. */
  predicate SameButCase(c: char, lower: char) {
    c == lower || ('a' <= lower <= 'z' && c as int + 32 == lower as int)
  }

  /** The path ends in this extension, in whatever case. */
  predicate EndsIn(path: string, extension: string) {
    && |extension| <= |path|
    && forall i :: 0 <= i < |extension| ==> SameButCase(path[|path| - |extension| + i], extension[i])
  }

  /** Text without capitals. */
  predicate NoCapitals(s: string) {
    forall i :: 0 <= i < |s| ==> !('A' <= s[i] <= 'Z')
  }

  lemma {:induction false} LowerAt(s: string, i: nat)
    requires i < |s|
    ensures |Lower(s)| == |s| && Lower(s)[i] == LowerChar(s[i])
  {
    if i > 0 {
      LowerAt(s[1..], i - 1);
    } else if |s| > 1 {
      LowerAt(s[1..], 0);
    }
  }

  lemma LowerIsSmall(c: char, small: char)
    requires !('A' <= small <= 'Z')
    ensures LowerChar(c) == small <==> SameButCase(c, small)
  {
  }

  lemma LowerSuffix(path: string, extension: string)
    requires NoCapitals(extension) && path != ""
    ensures HasSuffix(Lower(path), extension) <==> EndsIn(path, extension)
  {
    LowerAt(path, 0);
    var p, n := Lower(path), |path| - |extension|;
    if n >= 0 {
      var end := p[n..];
      forall i | 0 <= i < |extension| ensures end[i] == extension[i] <==> SameButCase(path[n + i], extension[i]) {
        LowerAt(path, n + i);
        LowerIsSmall(path[n + i], extension[i]);
      }
      assert end == extension <==> forall i :: 0 <= i < |extension| ==> end[i] == extension[i];
    }
  }

  lemma SuffixOfSuffix(p: string, first: string, second: string)
    requires HasSuffix(p, first + second)
    ensures HasSuffix(p, second) && HasSuffix(p[..|p| - |second|], first)
  {
    var q, both := p[..|p| - |first + second|], first + second;
    assert p == q + both && p == (q + first) + second;
    assert p[|p| - |second|..] == second;
    assert p[..|p| - |second|] == q + first;
  }

  lemma SuffixTwice(p: string, first: string, second: string)
    requires HasSuffix(p, second) && HasSuffix(p[..|p| - |second|], first)
    ensures HasSuffix(p, first + second)
  {
    var q := p[..|p| - |second|];
    assert p == q + second;
    assert p[|p| - |first + second|..] == first + second;
  }

  lemma LastOfSuffix(p: string, suffix: string)
    requires suffix != "" && HasSuffix(p, suffix)
    ensures p != "" && p[|p| - 1] == suffix[|suffix| - 1]
  {
    assert p[|p| - |suffix|..][|suffix| - 1] == p[|p| - 1];
  }

  lemma TrimmedSuffix(p: string, extension: string, zip: string)
    requires extension != "" && zip != "" && extension[|extension| - 1] != zip[|zip| - 1]
    ensures HasSuffix(TrimSuffix(p, zip), extension) <==> HasSuffix(p, extension) || HasSuffix(p, extension + zip)
  {
    if HasSuffix(p, extension + zip) {
      SuffixOfSuffix(p, extension, zip);
    }
    if HasSuffix(p, zip) {
      LastOfSuffix(p, zip);
      if HasSuffix(TrimSuffix(p, zip), extension) {
        SuffixTwice(p, extension, zip);
      }
    }
    if HasSuffix(p, extension) {
      LastOfSuffix(p, extension);
    }
  }

  lemma ModelExtension(path: string, extension: string, zip: string, both: string)
    requires path != "" && extension != "" && zip != "" && extension[|extension| - 1] != zip[|zip| - 1]
    requires both == extension + zip && NoCapitals(extension) && NoCapitals(both)
    ensures HasSuffix(TrimSuffix(Lower(path), zip), extension) <==> EndsIn(path, extension) || EndsIn(path, both)
  {
    var p := Lower(path);
    TrimmedSuffix(p, extension, zip);
    assert HasSuffix(p, extension) <==> EndsIn(path, extension) by {
      LowerSuffix(path, extension);
    }
    assert HasSuffix(p, both) <==> EndsIn(path, both) by {
      LowerSuffix(path, both);
    }
  }

  predicate EndsInEither(path: string, extension: string, zipped: string) {
    EndsIn(path, extension) || EndsIn(path, zipped)
  }

  lemma UnzipsToExactly(path: string, extension: string, zipped: string)
    requires path != "" && extension != "" && extension[|extension| - 1] != 'z'
    requires zipped == extension + ".gz" && NoCapitals(extension) && NoCapitals(zipped)
    ensures UnzipsTo(path, extension) <==> EndsInEither(path, extension, zipped)
  {
    var zip := ".gz";
    assert zip[2] == 'z';
    ModelExtension(path, extension, zip, zipped);
  }

  lemma UnzipsToGml(path: string)
    requires path != ""
    ensures UnzipsTo(path, ".gml") <==> EndsInEither(path, ".gml", ".gml.gz")
    ensures UnzipsTo(path, ".xml") <==> EndsInEither(path, ".xml", ".xml.gz")
  {
    UnzipsToExactly(path, ".gml", ".gml.gz");
    UnzipsToExactly(path, ".xml", ".xml.gz");
  }

  lemma UnzipsToJSON(path: string)
    requires path != ""
    ensures UnzipsTo(path, ".json") <==> EndsInEither(path, ".json", ".json.gz")
    ensures UnzipsTo(path, ".jsonl") <==> EndsInEither(path, ".jsonl", ".jsonl.gz")
  {
    UnzipsToExactly(path, ".json", ".json.gz");
    UnzipsToExactly(path, ".jsonl", ".jsonl.gz");
  }

  /** Model files are those that end in one of four extensions, zipped or not, in any mix
      of capitals and small letters. */
  lemma IsModelFileExactly(path: string)
    ensures IsModelFile(path)
            <==> || EndsInEither(path, ".gml", ".gml.gz") || EndsInEither(path, ".xml", ".xml.gz")
                 || EndsInEither(path, ".json", ".json.gz") || EndsInEither(path, ".jsonl", ".jsonl.gz")
  {
    if path != "" {
      UnzipsToGml(path);
      UnzipsToJSON(path);
    }
  }
}
