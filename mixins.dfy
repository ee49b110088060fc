/**
 * The target class and `_mixin`: check the class against a contract with
 * the hierarchy-wide exemptions, and only when that passes, define every
 * collected method on its site unless the site already owns the key. The
 * `implements` list of the `class` macro, and the left-associative
 * `implements` operator, apply contracts one after the other.
 */
module Mixins {
  import opened Wrappers
  import opened Contracts
  import opened Hierarchy
  import opened Conformance
  import opened Installation

  /**
   * A target class. `statics` are the own properties of the class object,
   * `protos` those of its prototype; both are written in place by `_mixin`.
   * The inherited maps stand for what the prototype chains show and are
   * only read, by the check.
   */
  class Klass {
    var statics: map<Key, Value>
    var protos: map<Key, Value>
    const staticInherited: map<Key, Value>
    const protoInherited: map<Key, Value>

    constructor (statics: map<Key, Value>, protos: map<Key, Value>,
                 staticInherited: map<Key, Value>, protoInherited: map<Key, Value>)
      ensures Snapshot() == View(statics, protos, staticInherited, protoInherited)
    {
      this.statics := statics;
      this.protos := protos;
      this.staticInherited := staticInherited;
      this.protoInherited := protoInherited;
    }

    function Snapshot(): View
      reads this
    {
      View(statics, protos, staticInherited, protoInherited)
    }

    /**
     * `_check`: every own field of `c` must be exempt or readable as
     * non-null on its site, then every parent is checked in order with the
     * same two exemption lists. Returns the first field that fails.
     */
    method Check(c: Contract, staticExempt: seq<nat>, protoExempt: seq<nat>) returns (failed: Option<Field>)
      ensures failed == FirstFailing(Collect(c, OwnFields), Snapshot(), staticExempt, protoExempt)
      decreases c
    {
      var v := Snapshot();
      for i := 0 to |c.fields|
        invariant FirstFailing(c.fields[..i], v, staticExempt, protoExempt).None?
      {
        var f := c.fields[i];
        var site := if f.isStatic then statics else protos;
        var inherited := if f.isStatic then staticInherited else protoInherited;
        var ignoring := if f.isStatic then staticExempt else protoExempt;
        var value := if Sym(f.symbol) in site then site[Sym(f.symbol)]
                     else if Sym(f.symbol) in inherited then inherited[Sym(f.symbol)]
                     else Nullish;
        assert value == Get(v, f.isStatic, Sym(f.symbol));
        OwnFieldStep(c, i, v, staticExempt, protoExempt);
        if f.symbol !in ignoring && value == Nullish {
          return Some(f);
        }
      }
      OwnFieldsPass(c, v, staticExempt, protoExempt);
      var ps := c.parents;
      for j := 0 to |ps|
        invariant FirstFailing(CollectAll(ps[..j], OwnFields), v, staticExempt, protoExempt).None?
      {
        var r := Check(ps[j], staticExempt, protoExempt);
        ParentStep(ps, j, v, staticExempt, protoExempt);
        if r.Some? {
          return r;
        }
      }
      assert ps[..|ps|] == ps;
      return None;
    }
  }

  /** One own field of the check's loop: pass, or decide the whole check. */
  lemma OwnFieldStep(c: Contract, i: nat, v: View, staticExempt: seq<nat>, protoExempt: seq<nat>)
    requires i < |c.fields|
    requires FirstFailing(c.fields[..i], v, staticExempt, protoExempt).None?
    ensures Satisfied(c.fields[i], v, staticExempt, protoExempt) ==>
      FirstFailing(c.fields[..i + 1], v, staticExempt, protoExempt).None?
    ensures !Satisfied(c.fields[i], v, staticExempt, protoExempt) ==>
      FirstFailing(Collect(c, OwnFields), v, staticExempt, protoExempt) == Some(c.fields[i])
  {
    var f := c.fields[i];
    assert c.fields[..i + 1] == c.fields[..i] + [f];
    FirstFailingAppend(c.fields[..i], [f], v, staticExempt, protoExempt);
    var rest := c.fields[i + 1..] + CollectAll(c.parents, OwnFields);
    FirstFailingAppend(c.fields[..i + 1], rest, v, staticExempt, protoExempt);
    assert c.fields == c.fields[..i + 1] + c.fields[i + 1..];
    assert c.fields[..i + 1] + rest == Collect(c, OwnFields);
  }

  /** All own fields passed: the check's verdict is that of the parents. */
  lemma OwnFieldsPass(c: Contract, v: View, staticExempt: seq<nat>, protoExempt: seq<nat>)
    requires FirstFailing(c.fields[..|c.fields|], v, staticExempt, protoExempt).None?
    ensures FirstFailing(Collect(c, OwnFields), v, staticExempt, protoExempt) ==
      FirstFailing(CollectAll(c.parents, OwnFields), v, staticExempt, protoExempt)
  {
    assert c.fields[..|c.fields|] == c.fields;
    FirstFailingAppend(c.fields, CollectAll(c.parents, OwnFields), v, staticExempt, protoExempt);
  }

  /** One parent of the check's loop: pass, or decide the verdict over all parents. */
  lemma ParentStep(ps: seq<Contract>, j: nat, v: View, staticExempt: seq<nat>, protoExempt: seq<nat>)
    requires j < |ps|
    requires FirstFailing(CollectAll(ps[..j], OwnFields), v, staticExempt, protoExempt).None?
    ensures var r := FirstFailing(Collect(ps[j], OwnFields), v, staticExempt, protoExempt);
      && (r.None? ==> FirstFailing(CollectAll(ps[..j + 1], OwnFields), v, staticExempt, protoExempt).None?)
      && (r.Some? ==> FirstFailing(CollectAll(ps, OwnFields), v, staticExempt, protoExempt) == r)
  {
    assert ps[..j + 1][..j] == ps[..j];
    FirstFailingAppend(CollectAll(ps[..j], OwnFields), Collect(ps[j], OwnFields), v, staticExempt, protoExempt);
    assert ps == ps[..j + 1] + ps[j + 1..];
    CollectAllAppend(ps[..j + 1], ps[j + 1..], OwnFields);
    FirstFailingAppend(CollectAll(ps[..j + 1], OwnFields), CollectAll(ps[j + 1..], OwnFields),
                       v, staticExempt, protoExempt);
  }

  /** The outcome of a mixin: the field that failed the check, if any, and the target afterwards. */
  datatype MixinResult = MixinResult(failed: Option<Field>, view: View)

  /** Specification of `_mixin` on a snapshot of the target. */
  function MixinSpec(c: Contract, v: View): (r: MixinResult)
    ensures r.failed.Some? ==> r.view == v
    ensures r.view.staticInherited == v.staticInherited && r.view.protoInherited == v.protoInherited
  {
    var failed := CheckOutcome(c, v);
    if failed.Some? then MixinResult(failed, v)
    else MixinResult(None, Install(v, Collect(c, OwnMethods)))
  }

  /** `_mixin(klass)`. */
  method Mixin(c: Contract, klass: Klass) returns (failed: Option<Field>)
    modifies klass
    ensures MixinResult(failed, klass.Snapshot()) == MixinSpec(c, old(klass.Snapshot()))
    ensures failed.Some? ==> klass.statics == old(klass.statics) && klass.protos == old(klass.protos)
  {
    var staticExempt := Exempt(c, true);
    var protoExempt := Exempt(c, false);
    failed := klass.Check(c, staticExempt, protoExempt);
    if failed.Some? {
      return;
    }
    var ms := Collect(c, OwnMethods);
    ghost var v0 := klass.Snapshot();
    for i := 0 to |ms|
      invariant klass.Snapshot() == Install(v0, ms[..i])
    {
      var m := ms[i];
      if m.isStatic {
        if m.name !in klass.statics {
          klass.statics := klass.statics[m.name := Fn(m.body)];
        }
      } else {
        if m.name !in klass.protos {
          klass.protos := klass.protos[m.name := Fn(m.body)];
        }
      }
      assert ms[..i + 1][..i] == ms[..i];
    }
    assert ms[..|ms|] == ms;
  }

  /**
   * After a mixin that passed its check, each own property that existed is
   * unchanged, a key named by a collected method of the scope is owned and,
   * if it is new, holds the body of the first such method in visiting
   * order, and no other key appears.
   */
  lemma MixinInstalls(c: Contract, v: View, k: Key, isStatic: bool)
    requires MixinSpec(c, v).failed.None?
    ensures var w := MixinSpec(c, v).view;
      var first := FirstMethod(Collect(c, OwnMethods), k, isStatic);
      && (k in Own(w, isStatic) <==> k in Own(v, isStatic) || first.Some?)
      && (k in Own(v, isStatic) ==> Own(w, isStatic)[k] == Own(v, isStatic)[k])
      && (k !in Own(v, isStatic) && first.Some? ==> Own(w, isStatic)[k] == Fn(first.value.body))
      && w.staticInherited == v.staticInherited && w.protoInherited == v.protoInherited
    ensures FirstMethod(Collect(c, OwnMethods), k, isStatic).Some? <==>
      exists d, m :: d in Preorder(c) && m in d.methods && m.name == k && m.isStatic == isStatic
  {
    var ms := Collect(c, OwnMethods);
    InstallAt(v, ms, k, isStatic);
    forall m
      ensures m in ms <==> exists d :: d in Preorder(c) && m in d.methods
    {
      CollectMember(c, OwnMethods, m);
    }
    assert (exists i :: 0 <= i < |ms| && ms[i].name == k && ms[i].isStatic == isStatic) <==>
           (exists m :: m in ms && m.name == k && m.isStatic == isStatic);
  }

  /** A second mixin of the same contract has the outcome of the first: after a success it passes and changes nothing, after a failure it fails the same way. */
  lemma MixinIdempotent(c: Contract, v: View)
    ensures MixinSpec(c, MixinSpec(c, v).view) == MixinSpec(c, v)
  {
    if MixinSpec(c, v).failed.None? {
      var ms := Collect(c, OwnMethods);
      var w := Install(v, ms);
      var sx, px := Exempt(c, true), Exempt(c, false);
      CheckPassesIff(c, v);
      CheckPassesIff(c, w);
      forall d, f | d in Preorder(c) && f in d.fields
        ensures Satisfied(f, w, sx, px)
      {
        assert Satisfied(f, v, sx, px);
        if Get(v, f.isStatic, Sym(f.symbol)) != Nullish {
          InstallKeepsPresent(v, ms, Sym(f.symbol), f.isStatic);
        }
      }
      InstallIdempotent(v, ms);
    }
  }

  /** Contracts of an `implements` list applied in order; the first failure stops the rest. */
  function MixinAll(cs: seq<Contract>, v: View): (r: MixinResult)
    ensures r.view.staticInherited == v.staticInherited && r.view.protoInherited == v.protoInherited
  {
    if cs == [] then MixinResult(None, v)
    else
      var r := MixinSpec(cs[0], v);
      if r.failed.Some? then r else MixinAll(cs[1..], r.view)
  }

  /** The `implements` list of the `class` macro: one `_mixin` per contract, in list order. */
  method ImplementAll(cs: seq<Contract>, klass: Klass) returns (failed: Option<Field>)
    modifies klass
    ensures MixinResult(failed, klass.Snapshot()) == MixinAll(cs, old(klass.Snapshot()))
  {
    for i := 0 to |cs|
      invariant MixinAll(cs, old(klass.Snapshot())) == MixinAll(cs[i..], klass.Snapshot())
    {
      assert cs[i..][0] == cs[i] && cs[i..][1..] == cs[i + 1..];
      failed := Mixin(cs[i], klass);
      if failed.Some? {
        return;
      }
    }
    assert cs[|cs|..] == [];
    return None;
  }

  /** Every method collected from the contracts of a list, list order first, then visiting order. */
  function MethodsOfAll(cs: seq<Contract>): seq<Method>
  {
    if cs == [] then [] else Collect(cs[0], OwnMethods) + MethodsOfAll(cs[1..])
  }

  /** A whole `implements` list that succeeds installs as one first-writer-wins pass over all its methods. */
  lemma {:induction false} MixinAllInstalls(cs: seq<Contract>, v: View)
    requires MixinAll(cs, v).failed.None?
    ensures MixinAll(cs, v).view == Install(v, MethodsOfAll(cs))
  {
    if cs != [] {
      var w := MixinSpec(cs[0], v).view;
      MixinAllInstalls(cs[1..], w);
      InstallAppend(v, Collect(cs[0], OwnMethods), MethodsOfAll(cs[1..]));
    }
  }

  /** An own property the class had before any mixin survives every mixin, even a failing one. */
  lemma {:induction false} OwnMembersSurvive(cs: seq<Contract>, v: View, k: Key, isStatic: bool)
    requires k in Own(v, isStatic)
    ensures k in Own(MixinAll(cs, v).view, isStatic)
    ensures Own(MixinAll(cs, v).view, isStatic)[k] == Own(v, isStatic)[k]
  {
    if cs != [] {
      var r := MixinSpec(cs[0], v);
      if r.failed.None? {
        InstallAt(v, Collect(cs[0], OwnMethods), k, isStatic);
        OwnMembersSurvive(cs[1..], r.view, k, isStatic);
      }
    }
  }

  /**
   * With `implements A, B` (or `X implements A implements B`), a key the
   * class did not own and that A supplies gets A's first default once A's
   * mixin passes, whatever B supplies and whether or not B's check passes.
   */
  lemma EarlierContractWins(a: Contract, b: Contract, v: View, k: Key, isStatic: bool)
    requires MixinSpec(a, v).failed.None?
    requires k !in Own(v, isStatic)
    requires FirstMethod(Collect(a, OwnMethods), k, isStatic).Some?
    ensures k in Own(MixinAll([a, b], v).view, isStatic)
    ensures Own(MixinAll([a, b], v).view, isStatic)[k] == Fn(FirstMethod(Collect(a, OwnMethods), k, isStatic).value.body)
  {
    var w := MixinSpec(a, v).view;
    InstallAt(v, Collect(a, OwnMethods), k, isStatic);
    assert [a, b][1..] == [b];
    assert MixinAll([a, b], v) == MixinAll([b], w);
    OwnMembersSurvive([b], w, k, isStatic);
  }
}
