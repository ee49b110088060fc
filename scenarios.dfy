/** Worked scenarios of the runtime on small hierarchies. */
module Scenarios {
  import opened Wrappers
  import opened Contracts
  import opened Hierarchy
  import opened Conformance
  import opened Installation
  import opened Mixins

  const X := Field("x", false, 0)
  const MA := Method(Str("m"), false, 1)
  const MC := Method(Str("m"), false, 2)
  const A := Contract([X], [MA], [])
  const B := Contract([], [], [A])
  const C := Contract([], [MC], [A])
  const D := Contract([], [], [B, C])

  lemma DiamondParents()
    ensures Preorder(A) == [A] && Collect(A, OwnFields) == [X] && Collect(A, OwnMethods) == [MA]
    ensures Preorder(B) == [B, A] && Collect(B, OwnFields) == [X] && Collect(B, OwnMethods) == [MA]
    ensures Preorder(C) == [C, A] && Collect(C, OwnFields) == [X] && Collect(C, OwnMethods) == [MC, MA]
  {
    assert [A][..0] == [];
    assert CollectAll([A], Itself) == [A] && CollectAll([A], OwnFields) == [X];
    assert CollectAll([A], OwnMethods) == [MA];
  }

  /**
   * A diamond: D extends B and C, both of which extend A. A is visited
   * twice and its field and method are collected twice.
   */
  lemma DiamondVisitsSharedAncestorTwice()
    ensures Preorder(D) == [D, B, A, C, A]
    ensures Collect(D, OwnFields) == [X, X]
    ensures Collect(D, OwnMethods) == [MA, MC, MA]
  {
    DiamondParents();
    assert [B, C][..1] == [B] && [B][..0] == [];
    assert CollectAll([B], Itself) == [B, A] && CollectAll([B], OwnFields) == [X];
    assert CollectAll([B], OwnMethods) == [MA];
    assert CollectAll([B, C], Itself) == [B, A] + Preorder(C);
    assert Preorder(D) == [D] + CollectAll([B, C], Itself);
  }

  /**
   * Mixing D into a class whose prototype holds A's field: the check
   * passes, and on the prototype the default `m` of A, reached first
   * through B, wins over C's own `m`.
   */
  lemma DiamondMixin()
    ensures var target := View(map[], map[Sym(0) := Other(9)], map[], map[]);
      MixinSpec(D, target) == MixinResult(None, target.(protos := map[Sym(0) := Other(9), Str("m") := Fn(1)]))
  {
    var target := View(map[], map[Sym(0) := Other(9)], map[], map[]);
    DiamondVisitsSharedAncestorTwice();
    assert Satisfied(X, target, Exempt(D, true), Exempt(D, false));
    assert [X, X][1..] == [X] && [X][1..] == [];
    var sx, px := Exempt(D, true), Exempt(D, false);
    assert FirstFailing([], target, sx, px) == None;
    assert FirstFailing([X], target, sx, px) == None;
    assert FirstFailing([X, X], target, sx, px) == None;
    assert CheckOutcome(D, target) == None;
    var ms := [MA, MC, MA];
    assert ms[..2][..1] == [MA] && ms[..2] == [MA, MC] && [MA][..0] == [];
    var once := target.(protos := map[Sym(0) := Other(9), Str("m") := Fn(1)]);
    assert Install(target, [MA]) == once;
    assert Install(target, [MA, MC]) == once;
    assert Install(target, ms) == target.(protos := map[Sym(0) := Other(9), Str("m") := Fn(1)]);
  }

  const CompareKey := Field("compareKey", false, 0)
  const Comparable := Contract([CompareKey], [], [])

  /**
   * A contract requiring one instance field, mixed into a class that lacks
   * it, fails on that field and leaves the class alone; once the prototype
   * holds a value under the field's symbol, the same mixin passes and
   * changes nothing.
   */
  lemma ComparableScenario(point: View)
    requires Sym(0) !in point.protos && Sym(0) !in point.protoInherited
    ensures MixinSpec(Comparable, point) == MixinResult(Some(CompareKey), point)
    ensures var completed := point.(protos := point.protos[Sym(0) := Other(4)]);
      MixinSpec(Comparable, completed) == MixinResult(None, completed)
  {
    var completed := point.(protos := point.protos[Sym(0) := Other(4)]);
    assert Collect(Comparable, OwnFields) == [CompareKey];
    assert Collect(Comparable, OwnMethods) == [];
    assert InstanceSymbolNames(Comparable) == [] && StaticSymbolNames(Comparable) == [];
    assert CollectAll(Comparable.parents, InstanceSymbolNames) == [];
    assert CollectAll(Comparable.parents, StaticSymbolNames) == [];
    assert Collect(Comparable, InstanceSymbolNames) == [];
    assert Collect(Comparable, StaticSymbolNames) == [];
    assert Exempt(Comparable, false) == [];
    assert !Satisfied(CompareKey, point, Exempt(Comparable, true), Exempt(Comparable, false));
    assert Satisfied(CompareKey, completed, Exempt(Comparable, true), Exempt(Comparable, false));
    assert [CompareKey][1..] == [];
    assert FirstFailing([], completed, Exempt(Comparable, true), Exempt(Comparable, false)) == None;
    assert CheckOutcome(Comparable, completed) == None;
    assert Install(completed, []) == completed;
  }
}
