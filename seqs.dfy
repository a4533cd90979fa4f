/** Sequence helpers shared by the models: a list comprehension and the
    fact that it is applied element by element. */
module Seqs {
  import opened Wrappers

  /** A non-empty sequence is its front and its last element. */
  lemma SplitLast<T>(s: seq<T>)
    requires s != []
    ensures s == s[..|s| - 1] + [s[|s| - 1]]
  {
  }

  /** Concatenation regrouped. */
  lemma Reassoc<T>(x: seq<T>, y: seq<T>, z: seq<T>, w: seq<T>)
    ensures x + (y + z + w) == x + y + z + w
  {
  }

  /** `[f(x) for x in xs]`. */
  function Map<X, Y>(f: X -> Y, xs: seq<X>): (ys: seq<Y>)
    ensures |ys| == |xs|
    decreases |xs|
  {
    if xs == [] then [] else Map(f, xs[..|xs| - 1]) + [f(xs[|xs| - 1])]
  }

  /** One more element: the comprehension grows by its image. */
  lemma MapSnoc<X, Y>(f: X -> Y, xs: seq<X>, k: nat)
    requires k < |xs|
    ensures Map(f, xs[..k + 1]) == Map(f, xs[..k]) + [f(xs[k])]
  {
    assert xs[..k + 1][..k] == xs[..k];
  }

  lemma MapAt<X, Y>(f: X -> Y, xs: seq<X>, j: nat)
    requires j < |xs|
    ensures Map(f, xs)[j] == f(xs[j])
  {
    MapAll(f, xs);
  }

  lemma {:induction false} MapAll<X, Y>(f: X -> Y, xs: seq<X>)
    ensures forall j :: 0 <= j < |xs| ==> Map(f, xs)[j] == f(xs[j])
    decreases |xs|
  {
    if xs != [] {
      var init := xs[..|xs| - 1];
      MapAll(f, init);
      assert forall j :: 0 <= j < |init| ==> xs[j] == init[j];
    }
  }

  /** A loop that applies `f` to each element in turn and stops at the first
      exception. */
  function Sequence<X, Y>(f: X -> Result<Y>, xs: seq<X>): (r: Result<seq<Y>>)
    ensures r.Ok? ==> |r.value| == |xs|
    decreases |xs|
  {
    if xs == [] then Ok([])
    else
      var init := Sequence(f, xs[..|xs| - 1]);
      if init.Raise? then init
      else
        var last := f(xs[|xs| - 1]);
        if last.Raise? then Raise(last.exc) else Ok(init.value + [last.value])
  }

  /** A loop that finished ran every element, each without an exception. */
  lemma {:induction false} SequenceOk<X, Y>(f: X -> Result<Y>, xs: seq<X>)
    requires Sequence(f, xs).Ok?
    ensures |Sequence(f, xs).value| == |xs|
    ensures forall k :: 0 <= k < |xs| ==> f(xs[k]) == Ok(Sequence(f, xs).value[k])
    decreases |xs|
  {
    if xs != [] {
      var init := xs[..|xs| - 1];
      SequenceOk(f, init);
      assert forall k :: 0 <= k < |init| ==> xs[k] == init[k];
    }
  }

  /** The loop finishes exactly when no element raises, and then holds the
      results in order; otherwise its exception is one of the elements'. */
  lemma {:induction false} SequenceSpec<X, Y>(f: X -> Result<Y>, xs: seq<X>)
    ensures Sequence(f, xs).Ok? <==> forall j :: 0 <= j < |xs| ==> f(xs[j]).Ok?
    ensures Sequence(f, xs).Ok? ==>
      |Sequence(f, xs).value| == |xs| && forall j :: 0 <= j < |xs| ==> f(xs[j]) == Ok(Sequence(f, xs).value[j])
    ensures Sequence(f, xs).Raise? ==> exists j :: 0 <= j < |xs| && f(xs[j]) == Raise(Sequence(f, xs).exc)
    decreases |xs|
  {
    if xs != [] {
      var init := xs[..|xs| - 1];
      SequenceSpec(f, init);
      assert forall j :: 0 <= j < |init| ==> xs[j] == init[j];
      if Sequence(f, xs).Ok? {
        SequenceOk(f, xs);
      }
    }
  }

  /** One more element that does not raise. */
  lemma SequenceSnoc<X, Y>(f: X -> Result<Y>, xs: seq<X>, n: nat, acc: seq<Y>, y: Y)
    requires n < |xs| && Sequence(f, xs[..n]) == Ok(acc) && f(xs[n]) == Ok(y)
    ensures Sequence(f, xs[..n + 1]) == Ok(acc + [y])
  {
    assert xs[..n + 1][..n] == xs[..n];
  }

  /** An exception on the n-th element ends any longer prefix of the loop
      with it. */
  lemma SequenceStop<X, Y>(f: X -> Result<Y>, xs: seq<X>, n: nat, m: nat, acc: seq<Y>, e: Exception)
    requires n < m <= |xs| && Sequence(f, xs[..n]) == Ok(acc) && f(xs[n]) == Raise(e)
    ensures Sequence(f, xs[..m]) == Raise(e)
  {
    var ys := xs[..m];
    assert ys[..n + 1][..n] == xs[..n] && ys[n] == xs[n];
    SequenceRaiseExtends(f, ys, n + 1);
  }

  /** Once a prefix raised, so does the whole loop, with the same exception. */
  lemma {:induction false} SequenceRaiseExtends<X, Y>(f: X -> Result<Y>, xs: seq<X>, j: nat)
    requires j <= |xs| && Sequence(f, xs[..j]).Raise?
    ensures Sequence(f, xs) == Sequence(f, xs[..j])
    decreases |xs| - j
  {
    if j < |xs| {
      assert xs[..j + 1][..j] == xs[..j];
      SequenceRaiseExtends(f, xs, j + 1);
    } else {
      assert xs[..j] == xs;
    }
  }

  /** The blocks f(0, xs[0]) + f(1, xs[1]) + ... in order. */
  function Blocks<T, U>(f: (nat, T) -> seq<U>, xs: seq<T>): seq<U>
    decreases |xs|
  {
    if xs == [] then [] else Blocks(f, xs[..|xs| - 1]) + f(|xs| - 1, xs[|xs| - 1])
  }

  /** With blocks of six elements, the k-th block sits at 6k..6k+5. */
  lemma {:induction false} BlocksAt<T, U>(f: (nat, T) -> seq<U>, xs: seq<T>)
    requires forall k: nat, x: T :: |f(k, x)| == 6
    ensures |Blocks(f, xs)| == 6 * |xs|
    ensures forall k :: 0 <= k < |xs| ==> Blocks(f, xs)[6 * k..6 * k + 6] == f(k, xs[k])
    decreases |xs|
  {
    if xs != [] {
      var init := xs[..|xs| - 1];
      BlocksAt(f, init);
      var all, prev, last := Blocks(f, xs), Blocks(f, init), f(|init|, xs[|init|]);
      assert all == prev + last;
      forall k | 0 <= k < |xs| ensures all[6 * k..6 * k + 6] == f(k, xs[k]) {
        if k < |init| {
          assert all[6 * k..6 * k + 6] == prev[6 * k..6 * k + 6];
          assert init[k] == xs[k];
        } else {
          assert all[6 * k..6 * k + 6] == last;
        }
      }
    }
  }
}
