/** Nested loops that append rows: the rows of every element, in order. */
module Seqs {

  predicate IsPrefix<T(==)>(p: seq<T>, s: seq<T>) { |p| <= |s| && s[..|p|] == p }

  /** The concatenation of `f(x)` over `xs`, in order. */
  function Concat<A, R>(xs: seq<A>, f: A -> seq<R>): seq<R>
  {
    if xs == [] then [] else Concat(xs[..|xs| - 1], f) + f(xs[|xs| - 1])
  }

  /** One loop step: the rows of a prefix, then those of the next element. */
  lemma ConcatStep<A, R>(xs: seq<A>, i: nat, f: A -> seq<R>)
    requires i < |xs|
    ensures Concat(xs[..i + 1], f) == Concat(xs[..i], f) + f(xs[i])
  {
    assert xs[..i + 1][..i] == xs[..i];
  }

  lemma {:induction false} ConcatAppend<A, R>(xs: seq<A>, ys: seq<A>, f: A -> seq<R>)
    ensures Concat(xs + ys, f) == Concat(xs, f) + Concat(ys, f)
    decreases |ys|
  {
    if ys != [] {
      var init := ys[..|ys| - 1];
      assert (xs + ys)[..|xs + ys| - 1] == xs + init;
      ConcatAppend(xs, init, f);
    } else {
      assert xs + ys == xs;
    }
  }

  /** A row comes out iff some element produces it. */
  lemma {:induction false} ConcatMember<A, R>(xs: seq<A>, f: A -> seq<R>, r: R)
    ensures r in Concat(xs, f) <==> exists i :: 0 <= i < |xs| && r in f(xs[i])
  {
    if xs != [] {
      var init := xs[..|xs| - 1];
      ConcatMember(init, f, r);
      if r in Concat(init, f) {
        var i :| 0 <= i < |init| && r in f(init[i]);
        assert xs[i] == init[i];
      }
      if i :| 0 <= i < |xs| && r in f(xs[i]) {
        if i < |init| {
          assert init[i] == xs[i];
        }
      }
    }
  }

  /** Every row satisfies P when every element's rows do. */
  lemma {:induction false} ConcatAll<A, R>(xs: seq<A>, f: A -> seq<R>, P: R -> bool)
    requires forall i :: 0 <= i < |xs| ==> forall r :: r in f(xs[i]) ==> P(r)
    ensures forall r :: r in Concat(xs, f) ==> P(r)
  {
    forall r | r in Concat(xs, f)
      ensures P(r)
    {
      ConcatMember(xs, f, r);
    }
  }

  /** When every element yields exactly one row, there is one row per element. */
  lemma {:induction false} ConcatSingletons<A, R>(xs: seq<A>, f: A -> seq<R>)
    requires forall i :: 0 <= i < |xs| ==> |f(xs[i])| == 1
    ensures |Concat(xs, f)| == |xs|
    ensures forall i :: 0 <= i < |xs| ==> Concat(xs, f)[i] == f(xs[i])[0]
  {
    if xs != [] {
      var init := xs[..|xs| - 1];
      ConcatSingletons(init, f);
    }
  }
}
