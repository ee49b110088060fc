/**
 * The runtime record of one declared interface (a "contract"): its own
 * fields, each carrying the symbol minted for it, its own methods, and the
 * interfaces it extends. Property keys and property values of the target
 * classes live here too, since every other module speaks about them.
 */
module Contracts {
  import opened Wrappers

  /** A property key: a string name, or a symbol identified by its serial number. */
  datatype Key = Str(text: string) | Sym(id: nat)

  /**
   * What reading a property yields. `Nullish` stands for both `null` and
   * `undefined`, which the runtime's `== null` test does not tell apart;
   * `Fn` is a method body, `Other` any other non-null value.
   */
  datatype Value = Nullish | Fn(body: nat) | Other(id: nat)

  /** A required field; `symbol` is the serial number of the symbol minted for it. */
  datatype Field = Field(name: string, isStatic: bool, symbol: nat)

  /** A method with a resolved key; `body` identifies the function installed for it. */
  datatype Method = Method(name: Key, isStatic: bool, body: nat)

  /** An interface: own fields in declaration order, own methods, then the `extends` list. */
  datatype Contract = Contract(fields: seq<Field>, methods: seq<Method>, parents: seq<Contract>)

  ghost predicate Distinct(xs: seq<string>)
  {
    forall i, j :: 0 <= i < j < |xs| ==> xs[i] != xs[j]
  }

  function Names(fs: seq<Field>): (names: seq<string>)
    ensures |names| == |fs| && forall i :: 0 <= i < |fs| ==> names[i] == fs[i].name
  {
    seq(|fs|, i requires 0 <= i < |fs| => fs[i].name)
  }

  /**
   * The getter the interface object carries for each field name, over the
   * interface's own fields: the symbol of the field with that name. Names
   * the interface does not declare read as `undefined`, which is `None`.
   */
  function FieldSymbol(fs: seq<Field>, name: string): (r: Option<nat>)
    ensures r.None? <==> forall i :: 0 <= i < |fs| ==> fs[i].name != name
    ensures r.Some? ==>
      exists i :: 0 <= i < |fs| && fs[i].name == name && fs[i].symbol == r.value &&
        forall j :: 0 <= j < i ==> fs[j].name != name
  {
    if fs == [] then None
    else if fs[0].name == name then Some(fs[0].symbol)
    else
      var r := FieldSymbol(fs[1..], name);
      assert r.Some? ==> exists i :: 1 <= i < |fs| && fs[i] == fs[1..][i - 1];
      r
  }

  /** When field names are distinct, the getter of each field returns exactly that field's symbol. */
  lemma GetterReturnsOwnSymbol(c: Contract, i: nat)
    requires Distinct(Names(c.fields))
    requires i < |c.fields|
    ensures FieldSymbol(c.fields, c.fields[i].name) == Some(c.fields[i].symbol)
  {
    var r := FieldSymbol(c.fields, c.fields[i].name);
    var j :| 0 <= j < |c.fields| && c.fields[j].name == c.fields[i].name && c.fields[j].symbol == r.value
      && forall k :: 0 <= k < j ==> c.fields[k].name != c.fields[i].name;
    assert !(i < j) && !(j < i) by {
      assert Names(c.fields)[i] == c.fields[i].name && Names(c.fields)[j] == c.fields[j].name;
    }
  }

  /** Every field symbol anywhere in the hierarchy of `c` is below `n`. */
  ghost predicate SymbolsBelow(c: Contract, n: nat)
    decreases c
  {
    (forall i :: 0 <= i < |c.fields| ==> c.fields[i].symbol < n) &&
    (forall i :: 0 <= i < |c.parents| ==> SymbolsBelow(c.parents[i], n))
  }

  lemma {:induction false} SymbolsBelowMonotone(c: Contract, n: nat, m: nat)
    requires SymbolsBelow(c, n) && n <= m
    ensures SymbolsBelow(c, m)
    decreases c
  {
    forall i | 0 <= i < |c.parents|
      ensures SymbolsBelow(c.parents[i], m)
    {
      SymbolsBelowMonotone(c.parents[i], n, m);
    }
  }

  /**
   * Symbols of two separately declared interfaces never collide: if every
   * symbol of `c1`'s hierarchy was minted before `n` and `c2`'s own fields
   * were minted from `n` on, no getter of `c1` returns the same symbol as a
   * getter of `c2`, whatever the field names.
   */
  lemma SeparateDeclarationsNeverCollide(c1: Contract, c2: Contract, n: nat, name1: string, name2: string)
    requires SymbolsBelow(c1, n)
    requires forall i :: 0 <= i < |c2.fields| ==> n <= c2.fields[i].symbol
    requires FieldSymbol(c1.fields, name1).Some? && FieldSymbol(c2.fields, name2).Some?
    ensures FieldSymbol(c1.fields, name1) != FieldSymbol(c2.fields, name2)
  {
  }
}
