/** Slicing ids into batches of bounded size. */
module Batches {

  function Concat<T>(batches: seq<seq<T>>): seq<T> {
    if batches == [] then [] else batches[0] + Concat(batches[1..])
  }

  lemma {:induction false} ConcatOneMore<T>(batches: seq<seq<T>>, b: seq<T>)
    ensures Concat(batches + [b]) == Concat(batches) + b
  {
    if batches == [] {
      assert [] + [b] == [b];
    } else {
      ConcatOneMore(batches[1..], b);
      assert (batches + [b])[1..] == batches[1..] + [b];
    }
  }

  function CeilDiv(n: nat, size: int): nat
    requires size > 0
  {
    (n + size - 1) / size
  }

  /** What batching promises: the ids in order, every batch full but possibly the
      last, none empty. */
  ghost predicate IsBatching<T>(batches: seq<seq<T>>, ids: seq<T>, size: int) {
    && Concat(batches) == ids
    && (forall i :: 0 <= i < |batches| ==> 1 <= |batches[i]| <= size)
    && (forall i :: 0 <= i < |batches| - 1 ==> |batches[i]| == size)
  }

  lemma {:induction false} TotalOfFull<T>(batches: seq<seq<T>>, size: int)
    requires size > 0 && forall i :: 0 <= i < |batches| ==> |batches[i]| == size
    ensures |Concat(batches)| == |batches| * size
  {
    if batches != [] {
      TotalOfFull(batches[1..], size);
    }
  }

  /** The number of batches is the quotient rounded up, so none is wasted. */
  lemma BatchCount<T>(batches: seq<seq<T>>, ids: seq<T>, size: int)
    requires size > 0 && IsBatching(batches, ids, size)
    ensures |batches| == CeilDiv(|ids|, size)
  {
    var n := |batches|;
    if n > 0 {
      var full, last := batches[..n - 1], batches[n - 1];
      assert batches == full + [last];
      ConcatOneMore(full, last);
      TotalOfFull(full, size);
      assert |ids| + size - 1 == n * size + (|last| - 1);
      QuotientOf(|ids| + size - 1, n, size, |last| - 1);
    } else {
      QuotientOf(size - 1, 0, size, size - 1);
    }
  }

  lemma {:induction false} NextMultiple(a: int, b: int, size: int)
    requires a < b && size > 0
    ensures a * size + size <= b * size
    decreases b - a
  {
    if a + 1 < b {
      NextMultiple(a + 1, b, size);
    }
  }

  lemma QuotientOf(x: int, q: nat, size: int, r: int)
    requires 0 <= r < size && x == q * size + r
    ensures x / size == q
  {
    var p := x / size;
    assert x == p * size + x % size;
    if p < q {
      NextMultiple(p, q, size);
      assert false;
    } else if p > q {
      NextMultiple(q, p, size);
      assert false;
    }
  }

  lemma {:induction false} WhereItIs<T>(batches: seq<seq<T>>, x: T) returns (b: nat)
    requires x in Concat(batches)
    ensures b < |batches| && x in batches[b]
  {
    if x in batches[0] {
      b := 0;
    } else {
      var c := WhereItIs(batches[1..], x);
      b := c + 1;
    }
  }

  lemma {:induction false} MemberOf<T>(batches: seq<seq<T>>, b: nat, x: T)
    requires b < |batches| && x in batches[b]
    ensures x in Concat(batches)
  {
    if b > 0 {
      MemberOf(batches[1..], b - 1, x);
    }
  }

  predicate Distinct<T(==)>(s: seq<T>) {
    forall i, j :: 0 <= i < j < |s| ==> s[i] != s[j]
  }

  /** An id in two batches stood twice in the ids. */
  lemma {:induction false} TwoBatchesMeanTwice<T>(batches: seq<seq<T>>, a: nat, b: nat, x: T)
    requires a < b < |batches| && x in batches[a] && x in batches[b]
    ensures !Distinct(Concat(batches))
  {
    var rest := Concat(batches[1..]);
    assert batches[1..][b - 1] == batches[b];
    if a == 0 {
      MemberOf(batches[1..], b - 1, x);
      var i :| 0 <= i < |batches[0]| && batches[0][i] == x;
      var j :| 0 <= j < |rest| && rest[j] == x;
      assert Concat(batches)[i] == Concat(batches)[|batches[0]| + j];
    } else {
      TwoBatchesMeanTwice(batches[1..], a - 1, b - 1, x);
      var i, j :| 0 <= i < j < |rest| && rest[i] == rest[j];
      assert Concat(batches)[|batches[0]| + i] == Concat(batches)[|batches[0]| + j];
    }
  }

  /** Distinct ids land in exactly one batch each. */
  lemma ExactlyOneBatch<T>(batches: seq<seq<T>>, x: T)
    requires Distinct(Concat(batches))
    ensures x in Concat(batches) <==> exists b :: 0 <= b < |batches| && x in batches[b]
    ensures forall a, b :: 0 <= a < |batches| && 0 <= b < |batches| && x in batches[a] && x in batches[b] ==> a == b
  {
    if x in Concat(batches) {
      var b := WhereItIs(batches, x);
    }
    forall b | 0 <= b < |batches| && x in batches[b] ensures x in Concat(batches) {
      MemberOf(batches, b, x);
    }
    forall a, b | 0 <= a < b < |batches| && x in batches[a] ensures x !in batches[b] {
      if x in batches[b] {
        TwoBatchesMeanTwice(batches, a, b, x);
        assert false;
      }
    }
  }

  /** CreateBatches: without a positive size everything is one batch, even nothing. */
  method CreateBatches<T>(ids: seq<T>, batchSize: int) returns (batches: seq<seq<T>>)
    ensures Concat(batches) == ids
    ensures batchSize > 0 ==> IsBatching(batches, ids, batchSize)
    ensures batchSize <= 0 ==> batches == [ids]
  {
    if batchSize <= 0 {
      return [ids];
    }
    var rest := ids;
    batches := [];
    while batchSize < |rest|
      invariant Concat(batches) + rest == ids
      invariant forall i :: 0 <= i < |batches| ==> |batches[i]| == batchSize
    {
      ConcatOneMore(batches, rest[..batchSize]);
      assert Concat(batches) + rest == Concat(batches) + rest[..batchSize] + rest[batchSize..];
      batches, rest := batches + [rest[..batchSize]], rest[batchSize..];
    }
    if |rest| > 0 {
      ConcatOneMore(batches, rest);
      batches := batches + [rest];
    }
  }
}
