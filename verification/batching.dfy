/** `batch_generator`: contiguous slices of at most `size` texts. */
module Batching {
  import opened Base

  /** The reference partition: a full slice of `size` elements, then the
      partition of the rest; the final slice keeps what is left over. */
  function Chunks<T>(xs: seq<T>, size: nat): seq<seq<T>>
    requires size > 0
    decreases |xs|
  {
    if xs == [] then []
    else if |xs| <= size then [xs]
    else [xs[..size]] + Chunks(xs[size..], size)
  }

  /** `math.ceil(n / size)` for a positive size. */
  function BatchCount(n: nat, size: nat): nat
    requires size > 0
  {
    (n + size - 1) / size
  }

  /** Python's `xs[k * size:(k + 1) * size]`, whose end is clamped to the length. */
  function Slice<T>(xs: seq<T>, k: nat, size: nat): seq<T>
    requires k * size <= |xs|
  {
    xs[k * size .. Min((k + 1) * size, |xs|)]
  }

  lemma {:induction false} MulAtLeast(x: int, d: nat)
    requires x >= 1
    ensures x * d >= d
    decreases x
  {
    if x > 1 {
      MulAtLeast(x - 1, d);
      assert x * d == (x - 1) * d + d;
    }
  }

  /** Euclidean division is determined by quotient and remainder. */
  lemma DivUnique(a: int, d: nat, q: int, r: int)
    requires d > 0 && 0 <= r < d && a == q * d + r
    ensures a / d == q
  {
    var q', r' := a / d, a % d;
    assert a == q' * d + r';
    assert (q - q') * d == r' - r;
    if q > q' {
      MulAtLeast(q - q', d);
    } else if q < q' {
      MulAtLeast(q' - q, d);
    }
  }

  lemma BatchCountStep(n: nat, size: nat)
    requires size > 0 && n > size
    ensures BatchCount(n, size) == BatchCount(n - size, size) + 1
  {
    var a := n + size - 1;
    var q, r := (a - size) / size, (a - size) % size;
    assert a - size == q * size + r;
    assert a == (q + 1) * size + r;
    DivUnique(a, size, q + 1, r);
  }

  lemma BatchCountSmall(n: nat, size: nat)
    requires size > 0 && 0 < n <= size
    ensures BatchCount(n, size) == 1
  {
  }

  /** BatchCount is the ceiling of n / size: the fewest slices of `size` that cover n. */
  lemma BatchCountIsCeiling(n: nat, size: nat)
    requires size > 0
    ensures BatchCount(n, size) * size >= n
    ensures n > 0 ==> (BatchCount(n, size) - 1) * size < n
    ensures n == 0 ==> BatchCount(n, size) == 0
  {
    var a := n + size - 1;
    var q, r := a / size, a % size;
    assert a == q * size + r;
    assert (q - 1) * size == q * size - size;
    if n == 0 {
      DivUnique(a, size, 0, size - 1);
    }
  }

  /** The partition has ceil(n / size) slices. */
  lemma {:induction false} ChunksCount<T>(xs: seq<T>, size: nat)
    requires size > 0
    ensures |Chunks(xs, size)| == BatchCount(|xs|, size)
    decreases |xs|
  {
    if xs == [] {
      assert BatchCount(0, size) == 0;
    } else if |xs| <= size {
      BatchCountSmall(|xs|, size);
    } else {
      ChunksCount(xs[size..], size);
      BatchCountStep(|xs|, size);
    }
  }

  /** Every slice is non-empty and holds at most `size` elements; every slice
      but the last holds exactly `size`. */
  lemma {:induction false} ChunksSizes<T>(xs: seq<T>, size: nat)
    requires size > 0
    ensures forall k :: 0 <= k < |Chunks(xs, size)| ==> 0 < |Chunks(xs, size)[k]| <= size
    ensures forall k :: 0 <= k < |Chunks(xs, size)| - 1 ==> |Chunks(xs, size)[k]| == size
    decreases |xs|
  {
    if |xs| > size {
      ChunksSizes(xs[size..], size);
      var c := Chunks(xs, size);
      assert c[1..] == Chunks(xs[size..], size);
    }
  }

  /** The slices concatenate back to the input. */
  lemma {:induction false} ChunksConcat<T>(xs: seq<T>, size: nat)
    requires size > 0
    ensures Concat(Chunks(xs, size)) == xs
    decreases |xs|
  {
    if xs == [] {
    } else if |xs| <= size {
      assert Concat([xs]) == xs + Concat([xs][1..]);
    } else {
      ChunksConcat(xs[size..], size);
      var c := Chunks(xs, size);
      assert c[0] == xs[..size] && c[1..] == Chunks(xs[size..], size);
      assert xs == xs[..size] + xs[size..];
    }
  }

  /** The start index of slice k, counted up one slice at a time. */
  function Offset(k: nat, size: nat): nat {
    if k == 0 then 0 else Offset(k - 1, size) + size
  }

  lemma {:induction false} OffsetIsProduct(k: nat, size: nat)
    ensures Offset(k, size) == k * size
  {
    if k > 0 {
      OffsetIsProduct(k - 1, size);
      assert (k - 1) * size + size == k * size;
    }
  }

  /** Slice k of the partition starts at offset k and holds the next `size`
      elements, or what is left of the input. */
  lemma {:induction false} ChunksAt<T>(xs: seq<T>, size: nat, k: nat)
    requires size > 0
    requires k < |Chunks(xs, size)|
    ensures Offset(k, size) < |xs|
    ensures Chunks(xs, size)[k] == xs[Offset(k, size) .. Min(Offset(k, size) + size, |xs|)]
    decreases k
  {
    if k == 0 {
      if |xs| <= size {
        assert Chunks(xs, size) == [xs];
        assert xs[0 .. |xs|] == xs;
      } else {
        assert Chunks(xs, size)[0] == xs[..size];
      }
    } else {
      var rest := xs[size..];
      assert |xs| > size;
      var tail := Chunks(rest, size);
      assert Chunks(xs, size) == [xs[..size]] + tail;
      assert Chunks(xs, size)[k] == tail[k - 1];
      ChunksAt(rest, size, k - 1);
      var p := Offset(k - 1, size);
      var e := Min(p + size, |rest|);
      DropSlice(xs, size, p, e);
      assert Offset(k, size) == size + p;
      assert size + e == Min(size + p + size, |xs|);
      assert Chunks(xs, size)[k] == xs[size + p .. size + e];
    }
  }

  /** A slice of a suffix is a slice of the whole sequence. */
  lemma DropSlice<T>(xs: seq<T>, d: nat, a: nat, b: nat)
    requires d <= |xs| && a <= b <= |xs| - d
    ensures xs[d..][a..b] == xs[d + a .. d + b]
  {
  }

  /** Slice k of the partition is the index slice the generator yields at step k. */
  lemma ChunksSlice<T>(xs: seq<T>, size: nat, k: nat)
    requires size > 0
    requires k < |Chunks(xs, size)|
    ensures k * size < |xs|
    ensures Chunks(xs, size)[k] == Slice(xs, k, size)
  {
    ChunksAt(xs, size, k);
    OffsetIsProduct(k, size);
    OffsetIsProduct(k + 1, size);
  }

  /** Step i of the generator's index loop lies inside the input. */
  lemma SliceStartInRange(n: nat, size: nat, i: nat)
    requires size > 0 && i < BatchCount(n, size)
    ensures i * size < n
  {
    var a := n + size - 1;
    var q, r := a / size, a % size;
    assert a == q * size + r;
    MulMono(i + 1, q, size);
    assert (i + 1) * size == i * size + size;
  }

  lemma MulMono(x: nat, y: nat, d: nat)
    requires x <= y
    ensures x * d <= y * d
  {
    assert y * d == x * d + (y - x) * d;
  }

  /** `batch_generator`: a list or a tuple is cut into the partition's slices
      by an index loop over ceil(n / size) steps; any other value yields none. */
  method BatchGenerator(v: Value, size: nat) returns (batches: seq<seq<Text>>)
    requires size > 0
    ensures batches == if v.List? || v.Tuple? then Chunks(v.items, size) else []
  {
    batches := [];
    if v.List? || v.Tuple? {
      var xs := v.items;
      var batchNum := (|xs| + size - 1) / size;
      for i := 0 to batchNum
        invariant |batches| == i
        invariant forall k :: 0 <= k < i ==> k * size <= |xs| && batches[k] == Slice(xs, k, size)
      {
        SliceStartInRange(|xs|, size, i);
        batches := batches + [xs[i * size .. Min((i + 1) * size, |xs|)]];
      }
      ChunksCount(xs, size);
      forall k | 0 <= k < |batches|
        ensures batches[k] == Chunks(xs, size)[k]
      {
        ChunksSlice(xs, size, k);
      }
    }
  }
}
