/**
 * Declaring an interface: the early errors the `interface` macro raises
 * (a field name declared twice, a reserved method name), and the building
 * of the contract record, which mints one fresh symbol per field.
 */
module Declarations {
  import opened Wrappers
  import opened Contracts

  /** A field as the front end hands it over. */
  datatype FieldDecl = FieldDecl(name: string, isStatic: bool)

  /**
   * The name of a declared method: a plain identifier, or any other form
   * (keyword, literal, computed `[expr]`) already resolved to its key.
   */
  datatype MethodName = Identifier(text: string) | Resolved(key: Key)

  datatype MethodDecl = MethodDecl(name: MethodName, isStatic: bool, body: nat)

  datatype DeclError = DuplicateField(name: string) | StaticPrototype | InstanceConstructor

  /** `x` is the first element, in scan order, that repeats an earlier one. */
  ghost predicate IsFirstDuplicate(xs: seq<string>, x: string)
  {
    exists j :: 0 <= j < |xs| && xs[j] == x && x in xs[..j] && Distinct(xs[..j])
  }

  /** The scan of field names with a growing set of names seen so far. */
  method FirstDuplicate(xs: seq<string>) returns (r: Option<string>)
    ensures r.None? <==> Distinct(xs)
    ensures r.Some? ==> IsFirstDuplicate(xs, r.value)
  {
    var seen: set<string> := {};
    for i := 0 to |xs|
      invariant seen == set k | 0 <= k < i :: xs[k]
      invariant Distinct(xs[..i])
    {
      var x := xs[i];
      if x in seen {
        var k :| 0 <= k < i && xs[k] == x;
        assert xs[..i][k] == x;
        assert !Distinct(xs) by { assert xs[k] == xs[i]; }
        return Some(x);
      }
      seen := seen + {x};
      assert xs[..i + 1] == xs[..i] + [x];
    }
    assert xs[..|xs|] == xs;
    return None;
  }

  /** A repeat found at `j` already breaks the distinctness of every longer prefix. */
  lemma EarlierRepeatBreaksDistinct(xs: seq<string>, j: nat, n: nat)
    requires j < n <= |xs| && xs[j] in xs[..j]
    ensures !Distinct(xs[..n])
  {
    var k :| 0 <= k < j && xs[..j][k] == xs[j];
    assert xs[..n][k] == xs[..n][j];
  }

  /** At most one name is the first duplicate, so the reported name is determined. */
  lemma {:induction false} FirstDuplicateUnique(xs: seq<string>, a: string, b: string)
    requires IsFirstDuplicate(xs, a) && IsFirstDuplicate(xs, b)
    ensures a == b
  {
    var ja :| 0 <= ja < |xs| && xs[ja] == a && a in xs[..ja] && Distinct(xs[..ja]);
    var jb :| 0 <= jb < |xs| && xs[jb] == b && b in xs[..jb] && Distinct(xs[..jb]);
    if ja < jb {
      EarlierRepeatBreaksDistinct(xs, ja, jb);
      assert false;
    } else if jb < ja {
      EarlierRepeatBreaksDistinct(xs, jb, ja);
      assert false;
    }
  }

  /**
   * The names of declared fields. Duplicates are rejected before any symbol
   * is minted, so this reads `FieldDecl`s rather than the minted `Field`s of
   * `Contracts.Names`; `OwnSymbolsReachable` relies on the two agreeing.
   */
  function FieldNames(fields: seq<FieldDecl>): (names: seq<string>)
    ensures |names| == |fields| && forall i :: 0 <= i < |fields| ==> names[i] == fields[i].name
  {
    seq(|fields|, i requires 0 <= i < |fields| => fields[i].name)
  }

  predicate IsStaticPrototype(m: MethodDecl)
  {
    m.isStatic && m.name == Identifier("prototype")
  }

  predicate IsInstanceConstructor(m: MethodDecl)
  {
    !m.isStatic && m.name == Identifier("constructor")
  }

  predicate DeclaresStaticPrototype(methods: seq<MethodDecl>)
  {
    exists i :: 0 <= i < |methods| && IsStaticPrototype(methods[i])
  }

  predicate DeclaresInstanceConstructor(methods: seq<MethodDecl>)
  {
    exists i :: 0 <= i < |methods| && IsInstanceConstructor(methods[i])
  }

  /**
   * `e` is the verdict on a declaration: the first repeated field name if
   * any, else a static `prototype` method, else an instance `constructor`
   * method, else no error.
   */
  ghost predicate Diagnoses(fields: seq<FieldDecl>, methods: seq<MethodDecl>, e: Option<DeclError>)
  {
    var names := FieldNames(fields);
    (e.None? <==> Distinct(names) && forall i :: 0 <= i < |methods| ==>
                    !IsStaticPrototype(methods[i]) && !IsInstanceConstructor(methods[i])) &&
    (e.Some? && e.value.DuplicateField? <==> !Distinct(names)) &&
    (e.Some? && e.value.DuplicateField? ==> IsFirstDuplicate(names, e.value.name)) &&
    (e == Some(StaticPrototype) <==> Distinct(names) && DeclaresStaticPrototype(methods)) &&
    (e == Some(InstanceConstructor) <==>
       Distinct(names) && !DeclaresStaticPrototype(methods) && DeclaresInstanceConstructor(methods))
  }

  /** The verdict is a function of the declaration. */
  lemma DiagnosisUnique(fields: seq<FieldDecl>, methods: seq<MethodDecl>, e1: Option<DeclError>, e2: Option<DeclError>)
    requires Diagnoses(fields, methods, e1) && Diagnoses(fields, methods, e2)
    ensures e1 == e2
  {
    if e1.Some? && e1.value.DuplicateField? {
      FirstDuplicateUnique(FieldNames(fields), e1.value.name, e2.value.name);
    }
  }

  /** The early errors of the `interface` macro, in the order it raises them. */
  method Validate(fields: seq<FieldDecl>, methods: seq<MethodDecl>) returns (r: Option<DeclError>)
    ensures Diagnoses(fields, methods, r)
  {
    var dup := FirstDuplicate(FieldNames(fields));
    if dup.Some? {
      return Some(DuplicateField(dup.value));
    }
    if DeclaresStaticPrototype(methods) {
      return Some(StaticPrototype);
    }
    if DeclaresInstanceConstructor(methods) {
      return Some(InstanceConstructor);
    }
    return None;
  }

  /** The process-wide source of fresh symbols: `Symbol()` never returns one it returned before. */
  class SymbolMinter {
    var next: nat

    constructor ()
      ensures next == 0
    {
      next := 0;
    }

    method Mint() returns (s: nat)
      modifies this
      ensures s == old(next) && next == old(next) + 1
    {
      s := next;
      next := next + 1;
    }
  }

  function KeyOf(n: MethodName): Key
  {
    match n
    case Identifier(text) => Str(text)
    case Resolved(key) => key
  }

  function ResolveMethods(methods: seq<MethodDecl>): (ms: seq<Method>)
    ensures |ms| == |methods|
    ensures forall i :: 0 <= i < |methods| ==>
      ms[i] == Method(KeyOf(methods[i].name), methods[i].isStatic, methods[i].body)
  {
    seq(|methods|, i requires 0 <= i < |methods| =>
      Method(KeyOf(methods[i].name), methods[i].isStatic, methods[i].body))
  }

  lemma OwnSymbolsReachable(c: Contract, fields: seq<FieldDecl>, start: nat)
    requires Distinct(FieldNames(fields))
    requires |c.fields| == |fields|
    requires forall k :: 0 <= k < |fields| ==> c.fields[k] == Field(fields[k].name, fields[k].isStatic, start + k)
    ensures forall i :: 0 <= i < |fields| ==> FieldSymbol(c.fields, fields[i].name) == Some(start + i)
  {
    assert Distinct(Names(c.fields)) by {
      assert Names(c.fields) == FieldNames(fields);
    }
    forall i | 0 <= i < |fields|
      ensures FieldSymbol(c.fields, fields[i].name) == Some(start + i)
    {
      GetterReturnsOwnSymbol(c, i);
    }
  }

  /**
   * Declares an interface: rejects it as `Validate` does, or returns its
   * contract, with one freshly minted symbol per field in declaration order.
   */
  method Declare(minter: SymbolMinter, fields: seq<FieldDecl>, methods: seq<MethodDecl>, parents: seq<Contract>)
    returns (r: Result<Contract, DeclError>)
    modifies minter
    ensures Diagnoses(fields, methods, if r.Err? then Some(r.error) else None)
    ensures r.Err? ==> minter.next == old(minter.next)
    ensures r.Ok? ==>
      && minter.next == old(minter.next) + |fields|
      && |r.value.fields| == |fields|
      && (forall i :: 0 <= i < |fields| ==>
            r.value.fields[i] == Field(fields[i].name, fields[i].isStatic, old(minter.next) + i))
      && (forall i :: 0 <= i < |fields| ==> FieldSymbol(r.value.fields, fields[i].name) == Some(old(minter.next) + i))
      && r.value.methods == ResolveMethods(methods)
      && r.value.parents == parents
    ensures r.Ok? && (forall i :: 0 <= i < |parents| ==> SymbolsBelow(parents[i], old(minter.next))) ==>
      SymbolsBelow(r.value, minter.next)
  {
    var e := Validate(fields, methods);
    if e.Some? {
      return Err(e.value);
    }
    ghost var start := minter.next;
    var own: seq<Field> := [];
    for i := 0 to |fields|
      invariant minter.next == start + i
      invariant |own| == i
      invariant forall k :: 0 <= k < i ==> own[k] == Field(fields[k].name, fields[k].isStatic, start + k)
    {
      var s := minter.Mint();
      own := own + [Field(fields[i].name, fields[i].isStatic, s)];
    }
    var c := Contract(own, ResolveMethods(methods), parents);
    OwnSymbolsReachable(c, fields, start);
    forall i | 0 <= i < |parents| && SymbolsBelow(parents[i], start)
      ensures SymbolsBelow(parents[i], minter.next)
    {
      SymbolsBelowMonotone(parents[i], start, minter.next);
    }
    return Ok(c);
  }
}
