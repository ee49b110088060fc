/**
 * What the install loop of `_mixin` does to a target: each collected
 * method, in order, is defined on its site unless the site already owns
 * its key. The inherited views are never written.
 */
module Installation {
  import opened Wrappers
  import opened Contracts
  import opened Conformance

  /** One step: define `m` on its site unless the site already has an own property with its key. */
  function InstallOne(v: View, m: Method): (r: View)
    ensures m.name in Own(r, m.isStatic)
    ensures m.name !in Own(v, m.isStatic) ==> Own(r, m.isStatic)[m.name] == Fn(m.body)
    ensures m.name in Own(v, m.isStatic) ==> r == v
    ensures forall k :: k in Own(v, m.isStatic) ==> k in Own(r, m.isStatic) && Own(r, m.isStatic)[k] == Own(v, m.isStatic)[k]
    ensures forall k :: k in Own(r, m.isStatic) && k != m.name ==> k in Own(v, m.isStatic)
    ensures Own(r, !m.isStatic) == Own(v, !m.isStatic)
    ensures r.staticInherited == v.staticInherited && r.protoInherited == v.protoInherited
  {
    if m.name in Own(v, m.isStatic) then v
    else if m.isStatic then v.(statics := v.statics[m.name := Fn(m.body)])
    else v.(protos := v.protos[m.name := Fn(m.body)])
  }

  /** The whole loop over `ms`, in order. */
  function Install(v: View, ms: seq<Method>): (r: View)
    ensures r.staticInherited == v.staticInherited && r.protoInherited == v.protoInherited
  {
    if ms == [] then v else InstallOne(Install(v, ms[..|ms| - 1]), ms[|ms| - 1])
  }

  /** The first method of `ms` with key `k` and the given scope. */
  function FirstMethod(ms: seq<Method>, k: Key, isStatic: bool): (r: Option<Method>)
    ensures r.None? <==> forall i :: 0 <= i < |ms| ==> !(ms[i].name == k && ms[i].isStatic == isStatic)
    ensures r.Some? ==>
      exists i :: 0 <= i < |ms| && ms[i] == r.value && ms[i].name == k && ms[i].isStatic == isStatic &&
        forall j :: 0 <= j < i ==> !(ms[j].name == k && ms[j].isStatic == isStatic)
  {
    if ms == [] then None
    else if ms[0].name == k && ms[0].isStatic == isStatic then Some(ms[0])
    else
      var r := FirstMethod(ms[1..], k, isStatic);
      assert forall i :: 1 <= i < |ms| ==> ms[i] == ms[1..][i - 1];
      r
  }

  lemma {:induction false} FirstMethodAppend(xs: seq<Method>, ys: seq<Method>, k: Key, isStatic: bool)
    ensures FirstMethod(xs + ys, k, isStatic) ==
      if FirstMethod(xs, k, isStatic).Some? then FirstMethod(xs, k, isStatic) else FirstMethod(ys, k, isStatic)
  {
    if xs == [] {
      assert xs + ys == ys;
    } else {
      assert (xs + ys)[1..] == xs[1..] + ys;
      FirstMethodAppend(xs[1..], ys, k, isStatic);
    }
  }

  /**
   * Key by key, installation is first-writer-wins: an owned key keeps its
   * value, a key first named by a method of the scope gets the body of the
   * first such method, and every other key stays absent.
   */
  lemma {:induction false} InstallAt(v: View, ms: seq<Method>, k: Key, isStatic: bool)
    ensures k in Own(Install(v, ms), isStatic) <==> k in Own(v, isStatic) || FirstMethod(ms, k, isStatic).Some?
    ensures k in Own(v, isStatic) ==> Own(Install(v, ms), isStatic)[k] == Own(v, isStatic)[k]
    ensures k !in Own(v, isStatic) && FirstMethod(ms, k, isStatic).Some? ==>
      Own(Install(v, ms), isStatic)[k] == Fn(FirstMethod(ms, k, isStatic).value.body)
  {
    if ms != [] {
      var n := |ms| - 1;
      InstallAt(v, ms[..n], k, isStatic);
      assert ms == ms[..n] + [ms[n]];
      FirstMethodAppend(ms[..n], [ms[n]], k, isStatic);
    }
  }

  lemma {:induction false} InstallAppend(v: View, xs: seq<Method>, ys: seq<Method>)
    ensures Install(v, xs + ys) == Install(Install(v, xs), ys)
    decreases |ys|
  {
    if ys == [] {
      assert xs + ys == xs;
    } else {
      var n := |ys| - 1;
      assert (xs + ys)[..|xs + ys| - 1] == xs + ys[..n];
      InstallAppend(v, xs, ys[..n]);
    }
  }

  /** Two installations that agree key by key on both own maps are the same view. */
  lemma SameOwnMaps(w1: View, w2: View)
    requires w1.staticInherited == w2.staticInherited && w1.protoInherited == w2.protoInherited
    requires forall k, s :: (k in Own(w1, s) <==> k in Own(w2, s))
    requires forall k, s :: k in Own(w1, s) ==> Own(w1, s)[k] == Own(w2, s)[k]
    ensures w1 == w2
  {
    assert w1.statics == Own(w1, true) && w2.statics == Own(w2, true);
    assert w1.protos == Own(w1, false) && w2.protos == Own(w2, false);
  }

  /** Installing a list whose every key is already owned on its site changes nothing. */
  lemma InstallOwnedNoop(v: View, ms: seq<Method>)
    requires forall i :: 0 <= i < |ms| ==> ms[i].name in Own(v, ms[i].isStatic)
    ensures Install(v, ms) == v
  {
    forall k, s
      ensures (k in Own(Install(v, ms), s) <==> k in Own(v, s))
      ensures k in Own(Install(v, ms), s) ==> Own(Install(v, ms), s)[k] == Own(v, s)[k]
    {
      InstallAt(v, ms, k, s);
    }
    SameOwnMaps(Install(v, ms), v);
  }

  /** Running the loop a second time over the same methods changes nothing. */
  lemma InstallIdempotent(v: View, ms: seq<Method>)
    ensures Install(Install(v, ms), ms) == Install(v, ms)
  {
    var w := Install(v, ms);
    forall i | 0 <= i < |ms|
      ensures ms[i].name in Own(w, ms[i].isStatic)
    {
      InstallAt(v, ms, ms[i].name, ms[i].isStatic);
    }
    InstallOwnedNoop(w, ms);
  }

  /**
   * Methods met again later in the list (an ancestor reached along a second
   * path) change nothing: the first meeting already decided each key.
   */
  lemma RepeatsChangeNothing(v: View, xs: seq<Method>, ys: seq<Method>)
    requires forall i :: 0 <= i < |ys| ==> ys[i] in xs
    ensures Install(v, xs + ys) == Install(v, xs)
  {
    InstallAppend(v, xs, ys);
    var w := Install(v, xs);
    forall i | 0 <= i < |ys|
      ensures ys[i].name in Own(w, ys[i].isStatic)
    {
      var j :| 0 <= j < |xs| && xs[j] == ys[i];
      InstallAt(v, xs, ys[i].name, ys[i].isStatic);
    }
    InstallOwnedNoop(w, ys);
  }

  /** A value that reads as non-null on a site still does after any installation. */
  lemma InstallKeepsPresent(v: View, ms: seq<Method>, k: Key, isStatic: bool)
    requires Get(v, isStatic, k) != Nullish
    ensures Get(Install(v, ms), isStatic, k) != Nullish
  {
    InstallAt(v, ms, k, isStatic);
  }
}
