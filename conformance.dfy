/**
 * What `_check` decides, on a snapshot of the target. A field is satisfied
 * when its symbol is exempt for its scope, or when reading it on its site
 * (the class for static fields, the prototype for instance fields) does
 * not give null or undefined. The exemptions are the symbol-named methods
 * of the whole hierarchy, one list per scope, computed once by `_mixin`.
 */
module Conformance {
  import opened Wrappers
  import opened Contracts
  import opened Hierarchy

  /**
   * A snapshot of a target class: the own properties of the class and of
   * its prototype, and what each site shows through its prototype chain.
   */
  datatype View = View(statics: map<Key, Value>, protos: map<Key, Value>,
                       staticInherited: map<Key, Value>, protoInherited: map<Key, Value>)

  /** The own properties of the site for the given scope. */
  function Own(v: View, isStatic: bool): map<Key, Value>
  {
    if isStatic then v.statics else v.protos
  }

  /** What the site for the given scope shows through its prototype chain. */
  function Inherited(v: View, isStatic: bool): map<Key, Value>
  {
    if isStatic then v.staticInherited else v.protoInherited
  }

  /** `site[k]`: an own property first, then one seen through the prototype chain. */
  function Get(v: View, isStatic: bool, k: Key): (r: Value)
    ensures k in Own(v, isStatic) ==> r == Own(v, isStatic)[k]
    ensures k !in Own(v, isStatic) && k in Inherited(v, isStatic) ==> r == Inherited(v, isStatic)[k]
    ensures r != Nullish <==>
      || (k in Own(v, isStatic) && Own(v, isStatic)[k] != Nullish)
      || (k !in Own(v, isStatic) && k in Inherited(v, isStatic) && Inherited(v, isStatic)[k] != Nullish)
  {
    if k in Own(v, isStatic) then Own(v, isStatic)[k]
    else if k in Inherited(v, isStatic) then Inherited(v, isStatic)[k]
    else Nullish
  }

  predicate Satisfied(f: Field, v: View, staticExempt: seq<nat>, protoExempt: seq<nat>)
  {
    var exempt := if f.isStatic then staticExempt else protoExempt;
    f.symbol in exempt || Get(v, f.isStatic, Sym(f.symbol)) != Nullish
  }

  /** The first field of `fs` that is not satisfied, if any. */
  function FirstFailing(fs: seq<Field>, v: View, staticExempt: seq<nat>, protoExempt: seq<nat>): Option<Field>
  {
    if fs == [] then None
    else if !Satisfied(fs[0], v, staticExempt, protoExempt) then Some(fs[0])
    else FirstFailing(fs[1..], v, staticExempt, protoExempt)
  }

  /**
   * `FirstFailing` finds nothing iff every field is satisfied; otherwise it
   * returns an unsatisfied field all of whose predecessors are satisfied.
   */
  lemma {:induction false} FirstFailingMeans(fs: seq<Field>, v: View, staticExempt: seq<nat>, protoExempt: seq<nat>)
    ensures var r := FirstFailing(fs, v, staticExempt, protoExempt);
      && (r.None? <==> forall i :: 0 <= i < |fs| ==> Satisfied(fs[i], v, staticExempt, protoExempt))
      && (r.Some? ==>
            exists i :: 0 <= i < |fs| && fs[i] == r.value && !Satisfied(fs[i], v, staticExempt, protoExempt) &&
              forall j :: 0 <= j < i ==> Satisfied(fs[j], v, staticExempt, protoExempt))
  {
    if fs != [] && Satisfied(fs[0], v, staticExempt, protoExempt) {
      FirstFailingMeans(fs[1..], v, staticExempt, protoExempt);
      assert forall i :: 1 <= i < |fs| ==> fs[i] == fs[1..][i - 1];
      var r := FirstFailing(fs[1..], v, staticExempt, protoExempt);
      if r.Some? {
        var i :| 0 <= i < |fs[1..]| && fs[1..][i] == r.value && !Satisfied(fs[1..][i], v, staticExempt, protoExempt) &&
          forall j :: 0 <= j < i ==> Satisfied(fs[1..][j], v, staticExempt, protoExempt);
        assert fs[i + 1] == r.value;
      }
    }
  }

  lemma FirstFailingAppend(xs: seq<Field>, ys: seq<Field>, v: View, staticExempt: seq<nat>, protoExempt: seq<nat>)
    ensures FirstFailing(xs + ys, v, staticExempt, protoExempt) ==
      if FirstFailing(xs, v, staticExempt, protoExempt).Some? then FirstFailing(xs, v, staticExempt, protoExempt)
      else FirstFailing(ys, v, staticExempt, protoExempt)
  {
    if xs != [] {
      assert (xs + ys)[1..] == xs[1..] + ys;
      FirstFailingAppend(xs[1..], ys, v, staticExempt, protoExempt);
    } else {
      assert xs + ys == ys;
    }
  }

  /** The symbols naming methods of one scope, in order: `filter(isStatic, typeof symbol).map(name)`. */
  function SymbolNames(ms: seq<Method>, isStatic: bool): (r: seq<nat>)
    ensures forall n :: n in r <==> exists m :: m in ms && m.isStatic == isStatic && m.name == Sym(n)
  {
    if ms == [] then []
    else
      var rest := SymbolNames(ms[1..], isStatic);
      assert forall m :: m in ms <==> m == ms[0] || m in ms[1..];
      if ms[0].isStatic == isStatic && ms[0].name.Sym? then [ms[0].name.id] + rest else rest
  }

  function StaticSymbolNames(c: Contract): seq<nat>
  {
    SymbolNames(c.methods, true)
  }

  function InstanceSymbolNames(c: Contract): seq<nat>
  {
    SymbolNames(c.methods, false)
  }

  /** The exemption list for one scope, over the whole hierarchy of `c`. */
  function Exempt(c: Contract, isStatic: bool): seq<nat>
  {
    if isStatic then Collect(c, StaticSymbolNames) else Collect(c, InstanceSymbolNames)
  }

  /** Symbol `n` is exempt in a scope iff some contract of the hierarchy has a method of that scope keyed by it. */
  lemma ExemptIff(c: Contract, isStatic: bool, n: nat)
    ensures n in Exempt(c, isStatic) <==>
      exists d, m :: d in Preorder(c) && m in d.methods && m.isStatic == isStatic && m.name == Sym(n)
  {
    if isStatic {
      CollectMember(c, StaticSymbolNames, n);
    } else {
      CollectMember(c, InstanceSymbolNames, n);
    }
  }

  /** The verdict `_mixin` obtains from `_check`: the first unsatisfied field in visiting order. */
  function CheckOutcome(c: Contract, v: View): (r: Option<Field>)
    ensures r.Some? ==> r.value in Collect(c, OwnFields) && !Satisfied(r.value, v, Exempt(c, true), Exempt(c, false))
  {
    FirstFailingMeans(Collect(c, OwnFields), v, Exempt(c, true), Exempt(c, false));
    FirstFailing(Collect(c, OwnFields), v, Exempt(c, true), Exempt(c, false))
  }

  /**
   * The check passes iff every field of every contract in the hierarchy is
   * satisfied under the hierarchy-wide exemptions, however many paths reach
   * that contract.
   */
  lemma CheckPassesIff(c: Contract, v: View)
    ensures CheckOutcome(c, v).None? <==>
      forall d, f :: d in Preorder(c) && f in d.fields ==> Satisfied(f, v, Exempt(c, true), Exempt(c, false))
  {
    var fs := Collect(c, OwnFields);
    forall f
      ensures f in fs <==> exists d :: d in Preorder(c) && f in d.fields
    {
      CollectMember(c, OwnFields, f);
    }
    var sx, px := Exempt(c, true), Exempt(c, false);
    FirstFailingMeans(fs, v, sx, px);
    assert (forall i :: 0 <= i < |fs| ==> Satisfied(fs[i], v, sx, px)) <==>
           (forall f :: f in fs ==> Satisfied(f, v, sx, px));
  }

  /** A failing check names a field of the hierarchy that is neither exempt nor present on its site. */
  lemma CheckFailureNamesField(c: Contract, v: View)
    requires CheckOutcome(c, v).Some?
    ensures var f := CheckOutcome(c, v).value;
      && (exists d :: d in Preorder(c) && f in d.fields)
      && f.symbol !in Exempt(c, f.isStatic)
      && Get(v, f.isStatic, Sym(f.symbol)) == Nullish
  {
    FirstFailingMeans(Collect(c, OwnFields), v, Exempt(c, true), Exempt(c, false));
    CollectMember(c, OwnFields, CheckOutcome(c, v).value);
  }

  /**
   * A default method anywhere in the hierarchy, keyed by a field's symbol
   * and of the field's scope, satisfies that field wherever it is declared,
   * whatever the target holds.
   */
  lemma DefaultAnywhereSatisfies(c: Contract, v: View, d1: Contract, f: Field, d2: Contract, m: Method)
    requires d1 in Preorder(c) && f in d1.fields
    requires d2 in Preorder(c) && m in d2.methods
    requires m.name == Sym(f.symbol) && m.isStatic == f.isStatic
    ensures Satisfied(f, v, Exempt(c, true), Exempt(c, false))
  {
    ExemptIff(c, f.isStatic, f.symbol);
  }
}
