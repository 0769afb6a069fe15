/**
 * The batcher (`batched` in cli.py): cuts an ordered sequence into consecutive
 * batches of at most n items, pulling them one at a time from an iterator.
 */
module Batcher {
  import opened Wrappers

  /** The ValueError raised before any batch when the batch size is below one. */
  datatype BatchError = SizeBelowOne(n: int)

  function Min(a: int, b: int): int {
    if a <= b then a else b
  }

  /** itertools.islice(it, n) on what is left of the iterator: its first n items, or all of them. */
  function Take<T>(s: seq<T>, n: nat): (r: seq<T>)
    ensures |r| == Min(|s|, n)
    ensures r == s[..|r|]
  {
    if |s| <= n then s else s[..n]
  }

  /** The batches `batched` yields, in yield order, for a valid batch size. */
  function Batches<T>(s: seq<T>, n: nat): (r: seq<seq<T>>)
    requires n >= 1
    ensures |r| == 0 <==> |s| == 0
    decreases |s|
  {
    if |s| == 0 then []
    else
      var batch := Take(s, n);
      [batch] + Batches(s[|batch|..], n)
  }

  /** One step of the generator: the first batch, then the batches of what is left. */
  lemma Unfold<T>(s: seq<T>, n: nat)
    requires n >= 1 && |s| > 0
    ensures |Take(s, n)| == Min(|s|, n) >= 1
    ensures Batches(s, n) == [Take(s, n)] + Batches(s[|Take(s, n)|..], n)
  {
  }

  /** `batched(s, n)`: the batch-size check comes before any batch is produced. */
  function Batched<T>(s: seq<T>, n: int): (r: Result<seq<seq<T>>, BatchError>)
    ensures r.Failure? <==> n < 1
    ensures r.Failure? ==> r.error == SizeBelowOne(n)
  {
    if n < 1 then Failure(SizeBelowOne(n)) else Success(Batches(s, n))
  }

  /** The concatenation of a sequence of batches. */
  function Flatten<T>(ss: seq<seq<T>>): seq<T> {
    if |ss| == 0 then [] else ss[0] + Flatten(ss[1..])
  }

  lemma {:induction false} FlattenAppend<T>(ss: seq<seq<T>>, b: seq<T>)
    ensures Flatten(ss + [b]) == Flatten(ss) + b
  {
    if |ss| == 0 {
      assert ss + [b] == [b];
    } else {
      assert (ss + [b])[1..] == ss[1..] + [b];
      FlattenAppend(ss[1..], b);
    }
  }

  /** Concatenating the batches in yield order gives back the input exactly. */
  lemma {:induction false} FlattenBatches<T>(s: seq<T>, n: nat)
    requires n >= 1
    ensures Flatten(Batches(s, n)) == s
    decreases |s|
  {
    if |s| > 0 {
      var batch := Take(s, n);
      FlattenBatches(s[|batch|..], n);
      assert s == batch + s[|batch|..];
    }
  }

  /**
   * Every batch is non-empty and holds at most n items; every batch but the
   * last holds exactly n; the empty input yields no batch.
   */
  lemma {:induction false} BatchSizes<T>(s: seq<T>, n: nat)
    requires n >= 1
    ensures |s| == 0 <==> Batches(s, n) == []
    ensures forall i :: 0 <= i < |Batches(s, n)| ==> 1 <= |Batches(s, n)[i]| <= n
    ensures forall i :: 0 <= i < |Batches(s, n)| - 1 ==> |Batches(s, n)[i]| == n
    decreases |s|
  {
    if |s| > 0 {
      var batch := Take(s, n);
      var rest := s[|batch|..];
      BatchSizes(rest, n);
      assert Batches(s, n) == [batch] + Batches(rest, n);
      if |batch| < n {
        assert rest == [];
      }
    }
  }

  /** The number of batches is the ceiling of |s| / n. */
  lemma {:induction false} BatchCount<T>(s: seq<T>, n: nat)
    requires n >= 1
    ensures |Batches(s, n)| == (|s| + n - 1) / n
    ensures (|Batches(s, n)| - 1) * n < |s| <= |Batches(s, n)| * n
    decreases |s|
  {
    var c := |Batches(s, n)|;
    if |s| == 0 {
    } else if |s| <= n {
      Unfold(s, n);
      assert s[|Take(s, n)|..] == [];
      assert c == 1;
      DivOne(|s| + n - 1, n);
    } else {
      Unfold(s, n);
      var rest := s[n..];
      BatchCount(rest, n);
      assert c == |Batches(rest, n)| + 1;
      DivStep(|rest| + n - 1, n);
      MulStep(c - 2, n);
      MulStep(c - 1, n);
    }
  }

  lemma MulStep(i: int, n: int)
    ensures (i + 1) * n == i * n + n
  {
  }

  lemma DivStep(x: int, n: int)
    requires x >= 0 && n >= 1
    ensures (x + n) / n == x / n + 1
  {
    DivUnique(x + n, n, x / n + 1, x % n);
  }

  /** Euclidean division is determined by quotient and remainder. */
  lemma DivUnique(x: int, n: int, q: int, r: int)
    requires n >= 1 && 0 <= r < n && x == q * n + r
    ensures x / n == q && x % n == r
  {
    var q', r' := x / n, x % n;
    assert (q' - q) * n == r - r' by {
      assert q' * n + r' == q * n + r;
    }
    MultipleBounded(q' - q, n);
  }

  lemma MultipleBounded(k: int, n: int)
    requires n >= 1 && -n < k * n < n
    ensures k == 0
  {
    MultipleOutside(k, n);
  }

  lemma MultipleOutside(k: int, n: int)
    requires n >= 1
    ensures k >= 1 ==> k * n >= n
    ensures k <= -1 ==> k * n <= -n
  {
    if k >= 1 {
      assert k * n == (k - 1) * n + n;
    } else if k <= -1 {
      assert k * n == (k + 1) * n - n;
    }
  }

  lemma DivOne(x: int, n: int)
    requires n <= x < 2 * n
    ensures x / n == 1
  {
    DivStep(x - n, n);
  }

  /** Batch i holds exactly the items of s from position i * n up to (i + 1) * n. */
  lemma {:induction false} BatchAt<T>(s: seq<T>, n: nat, i: nat)
    requires n >= 1
    requires i < |Batches(s, n)|
    ensures i * n < |s|
    ensures Batches(s, n)[i] == s[i * n .. Min((i + 1) * n, |s|)]
    decreases i
  {
    Unfold(s, n);
    var batch := Take(s, n);
    var rest := s[|batch|..];
    if i > 0 {
      assert |Batches(rest, n)| > 0;
      assert |batch| == n;
      BatchAt(rest, n, i - 1);
      var lo := (i - 1) * n;
      MulStep(i - 1, n);
      MulStep(i, n);
      assert i * n == lo + n && (i + 1) * n == lo + n + n;
      var hi := Min(lo + n, |rest|);
      assert Min(lo + n + n, |s|) == hi + n;
      assert rest == s[n..];
      assert rest[lo .. hi] == s[lo + n .. hi + n] by {
        forall k | 0 <= k < hi - lo
          ensures rest[lo .. hi][k] == s[lo + n .. hi + n][k]
        {
        }
      }
    } else {
      assert 0 * n == 0 && (0 + 1) * n == n;
    }
  }

  /** Entry r of batch q is item q * n + r of the input. */
  lemma {:induction false} BatchEntry<T>(s: seq<T>, n: nat, q: nat, r: nat)
    requires n >= 1 && r < n && q * n + r < |s|
    ensures q < |Batches(s, n)| && r < |Batches(s, n)[q]|
    ensures Batches(s, n)[q][r] == s[q * n + r]
    decreases q
  {
    Unfold(s, n);
    if q > 0 {
      MultipleOutside(q, n);
      MulStep(q - 1, n);
      var rest := s[n..];
      assert |Take(s, n)| == n;
      BatchEntry(rest, n, q - 1, r);
      assert rest[(q - 1) * n + r] == s[q * n + r];
    } else {
      assert 0 * n + r == r;
    }
  }

  /** The last batch holds |s| mod n items, or n when n divides |s|. */
  lemma {:induction false} LastBatchSize<T>(s: seq<T>, n: nat)
    requires n >= 1
    requires |s| > 0
    ensures |Batches(s, n)[|Batches(s, n)| - 1]| == if |s| % n == 0 then n else |s| % n
  {
    var c := |Batches(s, n)|;
    BatchSizes(s, n);
    BatchCount(s, n);
    BatchAt(s, n, c - 1);
    var lo := (c - 1) * n;
    assert c * n == lo + n;
    var last := Min(c * n, |s|) - lo;
    assert 0 < |s| - lo <= n;
    ModOfOffset(|s| - lo, c - 1, n);
  }

  lemma ModOfOffset(r: int, q: int, n: int)
    requires n >= 1 && q >= 0 && 0 < r <= n
    ensures (q * n + r) % n == if r == n then 0 else r
  {
    if r == n {
      DivUnique(q * n + r, n, q + 1, 0);
    } else {
      DivUnique(q * n + r, n, q, r);
    }
  }

  /**
   * The iterator `iter(iterable)` that `batched` pulls from: the items it was
   * made from and how many of them have been consumed.
   */
  class Cursor<T> {
    const items: seq<T>
    var pos: nat

    ghost predicate Valid()
      reads this
    {
      pos <= |items|
    }

    /** The items the iterator has not yet produced. */
    function Remaining(): seq<T>
      reads this
      requires Valid()
    {
      items[pos..]
    }

    constructor (items: seq<T>)
      ensures Valid() && this.items == items && Remaining() == items
    {
      this.items := items;
      pos := 0;
    }

    /** `list(itertools.islice(it, n))`: consumes and returns the next n items, or all that are left. */
    method Islice(n: nat) returns (chunk: seq<T>)
      requires Valid()
      modifies this
      ensures Valid()
      ensures chunk == Take(old(Remaining()), n)
      ensures Remaining() == old(Remaining())[|chunk|..]
    {
      var end := if pos + n <= |items| then pos + n else |items|;
      chunk := items[pos..end];
      pos := end;
    }
  }

  /**
   * The generator loop `while batch := list(islice(it, n)): yield batch`,
   * collecting the yielded batches in order.
   */
  method BatchedLoop<T>(s: seq<T>, n: int) returns (r: Result<seq<seq<T>>, BatchError>)
    ensures r == Batched(s, n)
  {
    if n < 1 {
      return Failure(SizeBelowOne(n));
    }
    var size: nat := n;
    var it := new Cursor(s);
    var batches: seq<seq<T>> := [];
    ghost var rest := it.Remaining();
    var batch := it.Islice(size);
    while |batch| > 0
      invariant it.Valid() && it.items == s && size >= 1
      invariant batch == Take(rest, size) && it.Remaining() == rest[|batch|..]
      invariant batches + Batches(rest, size) == Batches(s, size)
      decreases |rest|
    {
      ghost var next := it.Remaining();
      Unfold(rest, size);
      assert Batches(rest, size) == [batch] + Batches(next, size);
      assert (batches + [batch]) + Batches(next, size) == batches + Batches(rest, size);
      batches := batches + [batch];
      rest := next;
      batch := it.Islice(size);
    }
    assert |rest| == 0;
    assert Batches(rest, size) == [];
    assert batches + [] == batches;
    return Success(batches);
  }
}
