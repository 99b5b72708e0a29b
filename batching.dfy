/**
 * Cutting a sequence into consecutive batches of a fixed size, as the loops
 * `for (let i = 0; i < xs.length; i += size) xs.slice(i, i + size)` do.
 */
module Batching {
  function Min(a: int, b: int): int {
    if a <= b then a else b
  }

  /** The batches: consecutive slices of at most `size` elements, from the front. */
  function Batches<T>(xs: seq<T>, size: nat): (r: seq<seq<T>>)
    requires size > 0
    ensures xs == [] <==> r == []
    decreases |xs|
  {
    if xs == [] then []
    else
      var m := Min(size, |xs|);
      [xs[..m]] + Batches(xs[m..], size)
  }

  /** Every batch holds at least one and at most `size` elements. */
  lemma {:induction false} BatchSizes<T>(xs: seq<T>, size: nat)
    requires size > 0
    ensures forall j :: 0 <= j < |Batches(xs, size)| ==> 1 <= |Batches(xs, size)[j]| <= size
    decreases |xs|
  {
    if xs != [] {
      var m := Min(size, |xs|);
      var bs := Batches(xs, size);
      BatchSizes(xs[m..], size);
      assert forall j :: 1 <= j < |bs| ==> bs[j] == Batches(xs[m..], size)[j - 1];
    }
  }

  /** The concatenation of a sequence of batches. */
  function Flatten<T>(bs: seq<seq<T>>): seq<T> {
    if bs == [] then [] else bs[0] + Flatten(bs[1..])
  }

  /** The batches cover the input, in order. */
  lemma {:induction false} BatchesCover<T>(xs: seq<T>, size: nat)
    requires size > 0
    ensures Flatten(Batches(xs, size)) == xs
    decreases |xs|
  {
    if xs != [] {
      var m := Min(size, |xs|);
      BatchesCover(xs[m..], size);
      var bs := Batches(xs, size);
      assert bs[1..] == Batches(xs[m..], size);
      assert xs[..m] + xs[m..] == xs;
    }
  }

  /** There are ceil(n / size) batches. */
  lemma {:induction false} BatchCount<T>(xs: seq<T>, size: nat)
    requires size > 0
    ensures |Batches(xs, size)| == (|xs| + size - 1) / size
    decreases |xs|
  {
    if xs != [] {
      var m := Min(size, |xs|);
      BatchCount(xs[m..], size);
      if |xs| <= size {
        assert xs[m..] == [];
        DivUnique(|xs| + size - 1, size, 1, |xs| - 1);
      } else {
        DivStep(|xs| - size + size - 1, size);
      }
    }
  }

  /** All batches but the last are full. */
  lemma {:induction false} BatchesFull<T>(xs: seq<T>, size: nat)
    requires size > 0
    ensures forall j :: 0 <= j < |Batches(xs, size)| - 1 ==> |Batches(xs, size)[j]| == size
    decreases |xs|
  {
    if xs != [] {
      var m := Min(size, |xs|);
      var bs := Batches(xs, size);
      BatchesFull(xs[m..], size);
      assert bs[1..] == Batches(xs[m..], size);
      if |xs| <= size {
        assert xs[m..] == [];
      } else {
        assert forall j :: 1 <= j < |bs| - 1 ==> bs[j] == bs[1..][j - 1];
      }
    }
  }

  lemma DivStep(x: nat, size: nat)
    requires size > 0
    ensures (x + size) / size == x / size + 1
  {
    DivUnique(x + size, size, x / size + 1, x % size);
  }

  /** Euclidean division has one quotient. */
  lemma DivUnique(a: int, size: int, q: int, r: int)
    requires size > 0 && 0 <= r < size && a == q * size + r
    ensures a / size == q
  {
    var k := q - a / size;
    assert k * size == a % size - r;
  }

  /** Taking k + 1 elements is taking the first and then k of the rest. */
  lemma TakeCons<T>(xs: seq<T>, k: nat)
    requires k < |xs|
    ensures xs[..k + 1] == [xs[0]] + xs[1..][..k]
  {
  }

  lemma AppendAssoc<T>(a: seq<T>, x: T, b: seq<T>)
    ensures (a + [x]) + b == a + ([x] + b)
  {
  }

  /** The elements from index i on, or none once i has run past the end. */
  function Rest<T>(xs: seq<T>, i: nat): seq<T> {
    if i < |xs| then xs[i..] else []
  }

  /** From index i on, the first batch is the slice taken at i and the others start `size` further on. */
  lemma BatchesOfRest<T>(xs: seq<T>, i: nat, size: nat)
    requires size > 0 && i < |xs|
    ensures Batches(Rest(xs, i), size) == [xs[i..Min(i + size, |xs|)]] + Batches(Rest(xs, i + size), size)
  {
    var m := Min(size, |xs| - i);
    assert Rest(xs, i)[..m] == xs[i..Min(i + size, |xs|)];
    assert Rest(xs, i)[m..] == Rest(xs, i + size);
  }

  /** The slice taken at i is the next batch, and the rest starts `size` further on. */
  lemma NextBatch<T>(xs: seq<T>, i: nat, size: nat, done: seq<seq<T>>)
    requires size > 0 && i < |xs|
    requires Batches(xs, size) == done + Batches(Rest(xs, i), size)
    ensures Batches(xs, size) == (done + [xs[i..Min(i + size, |xs|)]]) + Batches(Rest(xs, i + size), size)
  {
    var m := Min(size, |xs| - i);
    var batch := xs[i..Min(i + size, |xs|)];
    assert Rest(xs, i)[..m] == batch;
    assert Rest(xs, i)[m..] == Rest(xs, i + size);
    assert done + ([batch] + Batches(Rest(xs, i + size), size))
      == (done + [batch]) + Batches(Rest(xs, i + size), size);
  }
}
