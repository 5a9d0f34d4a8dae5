/** The list plumbing of `_cut` and `cut`, independent of what is mapped:
    `list(map(f, xs))` with a step that may raise, `itertools.chain` over the
    results of several batches, and collecting the results of the pool's
    order-preserving map. A raised exception is the `Err` of the step that
    raised it; the first one in order is the one that escapes. */
module Sequencing {
  import opened Base

  /** `list(map(f, xs))`: each step in order; the first failure aborts. */
  function MapAll<A, B>(f: A -> Result<B>, xs: seq<A>): Result<seq<B>>
    decreases |xs|
  {
    if xs == [] then Ok([])
    else
      var n := |xs| - 1;
      match MapAll(f, xs[..n])
      case Err(e) => Err(e)
      case Ok(ys) =>
        match f(xs[n])
        case Err(e) => Err(e)
        case Ok(y) => Ok(ys + [y])
  }

  /** The reference for the error: the error of the first element whose step
      fails, scanning from the front. */
  function FirstError<A, B>(f: A -> Result<B>, xs: seq<A>): Option<Error> {
    if xs == [] then None
    else if f(xs[0]).Err? then Some(f(xs[0]).error)
    else FirstError(f, xs[1..])
  }

  /** Two results in sequence: the first error wins, otherwise the outputs
      are concatenated. */
  function Join<B>(r1: Result<seq<B>>, r2: Result<seq<B>>): Result<seq<B>> {
    match r1
    case Err(e) => Err(e)
    case Ok(p) =>
      match r2
      case Err(e) => Err(e)
      case Ok(q) => Ok(p + q)
  }

  /** `list(chain.from_iterable([f(b) for b in batches]))`. */
  function ChainAll<A, B>(f: seq<A> -> Result<seq<B>>, batches: seq<seq<A>>): Result<seq<B>>
    decreases |batches|
  {
    if batches == [] then Ok([])
    else
      var n := |batches| - 1;
      Join(ChainAll(f, batches[..n]), f(batches[n]))
  }

  /** `list(chain.from_iterable(res))` over the list of results the pool's map returns. */
  function Collect<B>(results: seq<Result<seq<B>>>): Result<seq<B>> {
    if results == [] then Ok([]) else Join(results[0], Collect(results[1..]))
  }

  /** `pool.map(f, batches)`: one result per batch, in batch order. */
  function MapBatches<A, B>(f: seq<A> -> Result<seq<B>>, batches: seq<seq<A>>): (rs: seq<Result<seq<B>>>)
    ensures |rs| == |batches|
    ensures forall k :: 0 <= k < |batches| ==> rs[k] == f(batches[k])
  {
    seq(|batches|, k requires 0 <= k < |batches| => f(batches[k]))
  }

  /** What a result promises for its inputs: with a failing input, the error
      of the first one; otherwise one output per input, in order, each in
      relation `rel` to its input. */
  ghost predicate Each<A, C, B>(r: Result<seq<B>>, xs: seq<A>, check: A -> Result<C>, rel: (A, B) -> bool) {
    && (FirstError(check, xs).Some? ==> r == Err(FirstError(check, xs).value))
    && (FirstError(check, xs).None? ==>
          r.Ok? && |r.value| == |xs| && forall i :: 0 <= i < |xs| ==> rel(xs[i], r.value[i]))
  }

  /* ---------------- the first error ---------------- */

  /** There is no first error exactly when every step succeeds. */
  lemma {:induction false} FirstErrorNone<A, B>(f: A -> Result<B>, xs: seq<A>)
    ensures FirstError(f, xs).None? <==> forall i :: 0 <= i < |xs| ==> f(xs[i]).Ok?
  {
    if xs != [] {
      FirstErrorNone(f, xs[1..]);
      assert forall i :: 1 <= i < |xs| ==> xs[i] == xs[1..][i - 1];
    }
  }

  /** The first error is that of the earliest failing element. */
  lemma {:induction false} FirstErrorAt<A, B>(f: A -> Result<B>, xs: seq<A>, i: nat)
    requires i < |xs|
    requires forall j :: 0 <= j < i ==> f(xs[j]).Ok?
    requires f(xs[i]).Err?
    ensures FirstError(f, xs) == Some(f(xs[i]).error)
  {
    if i > 0 {
      assert forall j :: 0 <= j < i - 1 ==> xs[1..][j] == xs[j + 1];
      FirstErrorAt(f, xs[1..], i - 1);
    }
  }

  lemma {:induction false} FirstErrorAppend<A, B>(f: A -> Result<B>, a: seq<A>, b: seq<A>)
    ensures FirstError(f, a + b) == if FirstError(f, a).Some? then FirstError(f, a) else FirstError(f, b)
  {
    if a == [] {
      assert a + b == b;
    } else {
      assert (a + b)[1..] == a[1..] + b;
      FirstErrorAppend(f, a[1..], b);
    }
  }

  /** Steps that fail on the same inputs with the same errors have the same first error. */
  lemma {:induction false} FirstErrorSame<A, B, C>(f: A -> Result<B>, g: A -> Result<C>, xs: seq<A>)
    requires forall i :: 0 <= i < |xs| ==> f(xs[i]).Err? == g(xs[i]).Err?
    requires forall i :: 0 <= i < |xs| && f(xs[i]).Err? ==> f(xs[i]).error == g(xs[i]).error
    ensures FirstError(f, xs) == FirstError(g, xs)
  {
    if xs != [] {
      assert forall i :: 0 <= i < |xs| - 1 ==> xs[1..][i] == xs[i + 1];
      FirstErrorSame(f, g, xs[1..]);
    }
  }

  /* ---------------- map ---------------- */

  /** `list(map(f, xs))` fails with the first error, and otherwise holds the
      output of each step, in order. */
  lemma {:induction false} MapAllEach<A, B>(f: A -> Result<B>, xs: seq<A>)
    ensures FirstError(f, xs).Some? ==> MapAll(f, xs) == Err(FirstError(f, xs).value)
    ensures FirstError(f, xs).None? ==>
      MapAll(f, xs).Ok? && |MapAll(f, xs).value| == |xs| &&
      forall i :: 0 <= i < |xs| ==> f(xs[i]) == Ok(MapAll(f, xs).value[i])
    decreases |xs|
  {
    if xs != [] {
      var n := |xs| - 1;
      var pre := xs[..n];
      MapAllEach(f, pre);
      assert xs == pre + [xs[n]];
      FirstErrorAppend(f, pre, [xs[n]]);
      assert [xs[n]][1..] == [];
      assert forall i :: 0 <= i < n ==> pre[i] == xs[i];
    }
  }

  /** Once a prefix fails, the whole map fails the same way. */
  lemma {:induction false} MapAllPrefixError<A, B>(f: A -> Result<B>, xs: seq<A>, k: nat)
    requires k <= |xs|
    requires MapAll(f, xs[..k]).Err?
    ensures MapAll(f, xs) == MapAll(f, xs[..k])
    decreases |xs| - k
  {
    if k < |xs| {
      var n := |xs| - 1;
      assert xs[..n][..k] == xs[..k];
      MapAllPrefixError(f, xs[..n], k);
    } else {
      assert xs[..k] == xs;
    }
  }

  /* ---------------- chain and the pool ---------------- */

  lemma JoinAssociative<B>(r1: Result<seq<B>>, r2: Result<seq<B>>, r3: Result<seq<B>>)
    ensures Join(Join(r1, r2), r3) == Join(r1, Join(r2, r3))
  {
    if r1.Ok? && r2.Ok? && r3.Ok? {
      assert (r1.value + r2.value) + r3.value == r1.value + (r2.value + r3.value);
    }
  }

  /** Collecting one more result joins it at the end. */
  lemma {:induction false} CollectSnoc<B>(results: seq<Result<seq<B>>>, last: Result<seq<B>>)
    ensures Collect(results + [last]) == Join(Collect(results), last)
    decreases |results|
  {
    if results == [] {
      assert [] + [last] == [last];
      assert [last][1..] == [];
      if last.Ok? {
        assert last.value + [] == last.value;
        assert [] + last.value == last.value;
      }
    } else {
      var rest := results[1..];
      assert (results + [last])[1..] == rest + [last];
      CollectSnoc(rest, last);
      JoinAssociative(results[0], Collect(rest), last);
    }
  }

  /** Collecting the pool's order-preserving map gives the sequential chain. */
  lemma {:induction false} PoolMatchesChain<A, B>(f: seq<A> -> Result<seq<B>>, batches: seq<seq<A>>)
    ensures Collect(MapBatches(f, batches)) == ChainAll(f, batches)
    decreases |batches|
  {
    if batches != [] {
      var n := |batches| - 1;
      PoolMatchesChain(f, batches[..n]);
      assert MapBatches(f, batches) == MapBatches(f, batches[..n]) + [f(batches[n])];
      CollectSnoc(MapBatches(f, batches[..n]), f(batches[n]));
    }
  }

  /** Once a prefix of the batches fails, the whole chain fails the same way. */
  lemma {:induction false} ChainAllPrefixError<A, B>(f: seq<A> -> Result<seq<B>>, batches: seq<seq<A>>, k: nat)
    requires k <= |batches|
    requires ChainAll(f, batches[..k]).Err?
    ensures ChainAll(f, batches) == ChainAll(f, batches[..k])
    decreases |batches| - k
  {
    if k < |batches| {
      var n := |batches| - 1;
      assert batches[..n][..k] == batches[..k];
      ChainAllPrefixError(f, batches[..n], k);
    } else {
      assert batches[..k] == batches;
    }
  }

  /** Joining the results of two runs keeps the promise for the joined inputs. */
  lemma JoinEach<A, C, B>(r1: Result<seq<B>>, a: seq<A>, r2: Result<seq<B>>, b: seq<A>, check: A -> Result<C>, rel: (A, B) -> bool)
    requires Each(r1, a, check, rel) && Each(r2, b, check, rel)
    ensures Each(Join(r1, r2), a + b, check, rel)
  {
    FirstErrorAppend(check, a, b);
    if FirstError(check, a).None? && FirstError(check, b).None? {
      var p, q, xs := r1.value, r2.value, a + b;
      forall i | 0 <= i < |xs|
        ensures rel(xs[i], (p + q)[i])
      {
        if i < |a| {
          assert xs[i] == a[i] && (p + q)[i] == p[i];
        } else {
          assert xs[i] == b[i - |a|] && (p + q)[i] == q[i - |a|];
        }
      }
    }
  }

  /** If every batch keeps the promise for its texts, the chain keeps it for
      all texts in input order. */
  lemma {:induction false} ChainAllEach<A, C, B>(f: seq<A> -> Result<seq<B>>, batches: seq<seq<A>>, check: A -> Result<C>, rel: (A, B) -> bool)
    requires forall k :: 0 <= k < |batches| ==> Each(f(batches[k]), batches[k], check, rel)
    ensures Each(ChainAll(f, batches), Concat(batches), check, rel)
    decreases |batches|
  {
    if batches != [] {
      var n := |batches| - 1;
      var pre := batches[..n];
      ChainAllEach(f, pre, check, rel);
      assert batches == pre + [batches[n]];
      ConcatAppend(pre, [batches[n]]);
      assert Concat([batches[n]]) == batches[n] + Concat([batches[n]][1..]);
      assert [batches[n]][1..] == [];
      assert Concat([batches[n]]) == batches[n];
      JoinEach(ChainAll(f, pre), Concat(pre), f(batches[n]), batches[n], check, rel);
    }
  }
}
