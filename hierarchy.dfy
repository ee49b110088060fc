/**
 * The hierarchy walk behind `_collect`: a contract's own projection,
 * then the walk of each parent in `extends` order. Nothing is removed, so
 * an ancestor reached along two paths is visited twice.
 */
module Hierarchy {
  import opened Contracts

  /** `proj(c)` followed by the collection of every parent, left to right. */
  function Collect<T>(c: Contract, proj: Contract -> seq<T>): (r: seq<T>)
    ensures |proj(c)| <= |r| && r[..|proj(c)|] == proj(c)
    decreases c
  {
    proj(c) + CollectAll(c.parents, proj)
  }

  /** The concatenation of `Collect(p, proj)` over `ps`, in order. */
  function CollectAll<T>(ps: seq<Contract>, proj: Contract -> seq<T>): seq<T>
    decreases ps
  {
    if ps == [] then []
    else CollectAll(ps[..|ps| - 1], proj) + Collect(ps[|ps| - 1], proj)
  }

  function Itself(c: Contract): seq<Contract>
  {
    [c]
  }

  function OwnFields(c: Contract): seq<Field>
  {
    c.fields
  }

  function OwnMethods(c: Contract): seq<Method>
  {
    c.methods
  }

  /** Every contract of the hierarchy in visiting order, paths counted separately. */
  function Preorder(c: Contract): seq<Contract>
  {
    Collect(c, Itself)
  }

  /** Reference definition: the projections of a list of contracts, concatenated. */
  function FlatMap<T>(cs: seq<Contract>, proj: Contract -> seq<T>): seq<T>
  {
    if cs == [] then [] else FlatMap(cs[..|cs| - 1], proj) + proj(cs[|cs| - 1])
  }

  lemma {:induction false} FlatMapAppend<T>(xs: seq<Contract>, ys: seq<Contract>, proj: Contract -> seq<T>)
    ensures FlatMap(xs + ys, proj) == FlatMap(xs, proj) + FlatMap(ys, proj)
    decreases |ys|
  {
    if ys == [] {
      assert xs + ys == xs;
    } else {
      var n := |ys| - 1;
      assert (xs + ys)[..|xs + ys| - 1] == xs + ys[..n];
      FlatMapAppend(xs, ys[..n], proj);
    }
  }

  /**
   * The walk is the reference flat map over the preorder list of contracts:
   * the projections of the contracts in visiting order, concatenated.
   */
  lemma {:induction false} CollectIsFlatMap<T>(c: Contract, proj: Contract -> seq<T>)
    ensures Collect(c, proj) == FlatMap(Preorder(c), proj)
    decreases c
  {
    CollectAllIsFlatMap(c.parents, proj);
    FlatMapAppend([c], CollectAll(c.parents, Itself), proj);
    assert FlatMap([c], proj) == proj(c) by {
      assert [c][..0] == [];
    }
  }

  lemma {:induction false} CollectAllIsFlatMap<T>(ps: seq<Contract>, proj: Contract -> seq<T>)
    ensures CollectAll(ps, proj) == FlatMap(CollectAll(ps, Itself), proj)
    decreases ps
  {
    if ps != [] {
      var n := |ps| - 1;
      CollectAllIsFlatMap(ps[..n], proj);
      CollectIsFlatMap(ps[n], proj);
      FlatMapAppend(CollectAll(ps[..n], Itself), Preorder(ps[n]), proj);
    }
  }

  lemma {:induction false} FlatMapMember<T>(cs: seq<Contract>, proj: Contract -> seq<T>, x: T)
    ensures x in FlatMap(cs, proj) <==> exists d :: d in cs && x in proj(d)
  {
    if cs != [] {
      var n := |cs| - 1;
      FlatMapMember(cs[..n], proj, x);
      assert forall d :: d in cs <==> d in cs[..n] || d == cs[n] by {
        assert cs == cs[..n] + [cs[n]];
      }
    }
  }

  /** An item is collected exactly when some contract of the hierarchy projects it. */
  lemma CollectMember<T>(c: Contract, proj: Contract -> seq<T>, x: T)
    ensures x in Collect(c, proj) <==> exists d :: d in Preorder(c) && x in proj(d)
  {
    CollectIsFlatMap(c, proj);
    FlatMapMember(Preorder(c), proj, x);
  }

  /** Total length of the projections over a list of contracts. */
  function SumOfLengths<T>(cs: seq<Contract>, proj: Contract -> seq<T>): nat
  {
    if cs == [] then 0 else SumOfLengths(cs[..|cs| - 1], proj) + |proj(cs[|cs| - 1])|
  }

  /** The collection is as long as the projections of all visited contracts, repeats included. */
  lemma CollectLength<T>(c: Contract, proj: Contract -> seq<T>)
    ensures |Collect(c, proj)| == SumOfLengths(Preorder(c), proj)
  {
    CollectIsFlatMap(c, proj);
    FlatMapLength(Preorder(c), proj);
  }

  lemma {:induction false} FlatMapLength<T>(cs: seq<Contract>, proj: Contract -> seq<T>)
    ensures |FlatMap(cs, proj)| == SumOfLengths(cs, proj)
  {
    if cs != [] {
      FlatMapLength(cs[..|cs| - 1], proj);
    }
  }

  lemma {:induction false} CollectAllAppend<T>(xs: seq<Contract>, ys: seq<Contract>, proj: Contract -> seq<T>)
    ensures CollectAll(xs + ys, proj) == CollectAll(xs, proj) + CollectAll(ys, proj)
    decreases |ys|
  {
    if ys == [] {
      assert xs + ys == xs;
    } else {
      var n := |ys| - 1;
      assert (xs + ys)[..|xs + ys| - 1] == xs + ys[..n];
      CollectAllAppend(xs, ys[..n], proj);
    }
  }

  /** The parents' collections are exactly the blocks that make up `CollectAll`. */
  lemma {:induction false} CollectAllMember<T>(ps: seq<Contract>, proj: Contract -> seq<T>, x: T)
    ensures x in CollectAll(ps, proj) <==> exists i :: 0 <= i < |ps| && x in Collect(ps[i], proj)
    decreases ps
  {
    if ps != [] {
      var n := |ps| - 1;
      CollectAllMember(ps[..n], proj, x);
      assert forall i :: 0 <= i < n ==> ps[..n][i] == ps[i];
    }
  }

  /** The walk starts at the contract itself and reaches everything its parents' walks reach. */
  lemma AncestorsVisited(c: Contract, i: nat, d: Contract)
    requires i < |c.parents| && d in Preorder(c.parents[i])
    ensures Preorder(c)[0] == c && d in Preorder(c)
  {
    CollectAllMember(c.parents, Itself, d);
  }
}
