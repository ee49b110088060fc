# sweet-interfaces: the interface/mixin runtime, modelled in Dafny

The `interface` macro of sweet-interfaces turns an interface declaration
into a runtime object. That object holds the interface's own fields, each
keyed by a freshly minted `Symbol`; its own methods; and the interfaces it
extends. It also holds three operations:

- `_collect` walks the hierarchy, self first, then each parent in order.
- `_check` requires every field of the hierarchy to be present on the
  target class, unless a default method of the field's scope (static or
  instance), keyed by the field's symbol, exists somewhere in the hierarchy.
- `_mixin` runs the check and then installs the collected default methods,
  never overwriting a property the class already owns.

The `class … implements` macro and the `implements` operator apply
interfaces one after the other.

This project models that runtime:

- `wrappers.dfy`: `Option` and `Result`.
- `contracts.dfy`: property keys (`Str`/`Sym`), values, fields, methods, the
  `Contract` datatype, and the per-field getter.
- `declarations.dfy`: the early errors of the macro: duplicate field
  names, found by the `firstDuplicate` scan, and the reserved method names.
  It also holds the symbol minter and `Declare`, which builds a contract.
- `hierarchy.dfy`: `_collect` as `Collect`/`CollectAll`, with a reference
  flat-map over the preorder list of contracts.
- `conformance.dfy`: the target as a snapshot `View`, `site[key] == null`,
  the hierarchy-wide exemption lists and the verdict of `_check`.
- `installation.dfy`: the first-writer-wins install loop as a function on
  views, and its key-by-key characterisation.
- `mixins.dfy`: the target class `Klass`, whose own maps `_mixin` updates in
  place. It holds `_check` as the recursive method `Klass.Check`, `_mixin`
  as `Mixin`, and the `implements` list as `ImplementAll`. Each method is
  proved against the specification functions.
- `scenarios.dfy`: a diamond hierarchy and a failing-then-passing
  conformance check, worked out in full.

Behaviour of the code that the model keeps:

- The reserved-name errors fire only for methods named by a plain
  identifier, because `src/index.js:37` and `src/index.js:41` test
  `isIdentifier`. A method named by a string literal, a keyword or a
  computed key is never rejected, so `MethodName` keeps identifiers apart
  from resolved keys.
- `_check` throws at the first unsatisfied field in visiting order, so it
  reports one field. `CheckOutcome` returns exactly that field.
- Interface methods always carry a body. The only requirements a class
  must meet are fields.
- A failure in the middle of an `implements` list stops the later
  interfaces. The earlier ones stay installed, because each `_mixin` is its
  own statement after the class definition (`src/index.js:143`).
  `MixinAll` and `ImplementAll` model this.

## Model

| member | source | states |
|---|---|---|
| `Declarations.FirstDuplicate` | src/index.js:26-33 | Returns none exactly when the names are pairwise distinct. Otherwise it returns the name at the first position that repeats an earlier name, with everything before that position distinct. |
| `Declarations.FirstDuplicateUnique` | src/index.js:26-35 | The first duplicate is unique, so the name reported in the duplicate-field error is determined by the declaration. |
| `Declarations.Validate` | src/index.js:34-43 | The verdict is the duplicate-field error if any field name repeats. Otherwise a static `prototype` identifier method gives one error and an instance `constructor` identifier method gives another. No other declaration is rejected. |
| `Declarations.DiagnosisUnique` | src/index.js:34-43 | The verdict described by `Validate`'s contract admits exactly one result per declaration. |
| `Declarations.SymbolMinter.Mint` | src/index.js:68 | Each call returns the next serial number and advances the counter, so it never repeats a symbol. |
| `Declarations.Declare` | src/index.js:25-78 | A rejected declaration mints nothing. An accepted one gets, for field i, the symbol `start + i`, visible through its getter. Its methods keep their order under their resolved keys, and its parents are kept in order. If every symbol of the parents' hierarchies is below the counter on entry, every symbol of the new hierarchy is below the counter on exit, and the new fields' symbols exceed all of the parents'. |
| `Contracts.FieldSymbol` | src/index.js:57-58 | The getter yields a symbol exactly when a field of that name is declared, and the symbol belongs to the first such field. |
| `Contracts.GetterReturnsOwnSymbol` | src/index.js:55-70 | With distinct field names, the getter for each field returns exactly that field's symbol. |
| `Contracts.SeparateDeclarationsNeverCollide` | src/index.js:63-69 | No getter of an earlier-declared interface returns a symbol that a getter of a later-declared one also returns, whatever the field names. |
| `Hierarchy.Collect` | src/index.js:105-107 | `_collect(fn)`: `fn` of the contract itself, then the parents' collections in order. Its contract says the result starts with `fn` of the contract itself. |
| `Hierarchy.CollectAll` | src/index.js:106 | The parents' collections, concatenated in `extends` order. |
| `Hierarchy.CollectIsFlatMap` | src/index.js:105-107 | `_collect(fn)` equals the projections of the preorder list of contracts (self, then each parent's walk, left to right), concatenated. |
| `Hierarchy.CollectMember` | src/index.js:105-107 | An item is collected iff some contract visited in the walk projects it. |
| `Hierarchy.CollectAllMember` | src/index.js:106 | The parents' part of the walk contains exactly what some parent's walk contains. |
| `Hierarchy.CollectLength` | src/index.js:106 | The collected length is the sum of the projection lengths over all visited contracts, one per path, so repeats are kept. |
| `Hierarchy.AncestorsVisited` | src/index.js:105-107 | The walk starts at the contract itself and reaches every contract that a parent's walk reaches. |
| `Conformance.Get` | src/index.js:99 | `site[key]` is the own property if there is one, and otherwise the value the prototype chain supplies. It is non-null iff that value exists and is non-null. |
| `Conformance.SymbolNames` | src/index.js:111-112 | A serial number is listed iff some method of that scope is keyed by that symbol. |
| `Conformance.FirstFailingMeans` | src/index.js:96-102 | The scan finds nothing iff every field is exempt or non-null on its site. Otherwise it returns an unsatisfied field, and every field before it is satisfied. |
| `Conformance.Exempt` | src/index.js:111-112 | The exemption list of one scope: the symbol keys of that scope's methods over the whole hierarchy, in visiting order. |
| `Conformance.ExemptIff` | src/index.js:111-112 | A symbol is exempt for a scope iff some contract anywhere in the hierarchy has a method of that scope keyed by it. |
| `Conformance.CheckOutcome` | src/index.js:95-104 | The verdict of `_check` with the hierarchy-wide exemptions: the first unsatisfied field in visiting order. A reported field is a collected field of the hierarchy and is neither exempt nor present on its site. |
| `Conformance.CheckPassesIff` | src/index.js:95-104 | The check passes iff every field of every contract in the hierarchy is satisfied under the hierarchy-wide exemptions. The number of paths to a contract does not matter. |
| `Conformance.CheckFailureNamesField` | src/index.js:99-100 | A failing check names a field of the hierarchy that is not exempt and reads as null or undefined on its site. |
| `Conformance.DefaultAnywhereSatisfies` | src/index.js:108-113 | A default method of the field's scope, keyed by the field's symbol, satisfies the field from any contract of the hierarchy, whatever the target holds. |
| `Installation.InstallOne` | src/index.js:115-121 | One step of the install loop: the method's key is owned on its site afterwards. A key the site did not own now holds the method's body, and a key it already owned leaves the whole target unchanged. Existing own properties keep their values, no key other than the method's appears, and the other site and both prototype chains are untouched. |
| `Installation.Install` | src/index.js:114-122 | The install loop never touches what the prototype chains show. |
| `Installation.FirstMethod` | src/index.js:114-116 | Returns the first method of a given key and scope in list order, and none iff no method matches. |
| `Installation.InstallAt` | src/index.js:114-122 | Key by key, a key is owned afterwards iff it was owned before or some method of the scope names it. An owned key keeps its value. A new key holds the body of the first method with that key and scope. |
| `Installation.InstallOwnedNoop` | src/index.js:116 | If every method's key is already owned on its site, installation changes nothing. |
| `Installation.InstallIdempotent` | src/index.js:114-122 | Running the install loop again over the same methods changes nothing. |
| `Installation.RepeatsChangeNothing` | src/index.js:114-116 | Methods met again later in the list, such as an ancestor reached along a second path, change nothing. |
| `Installation.InstallKeepsPresent` | src/index.js:116-121 | A key that reads as non-null on a site still does after installation. |
| `Mixins.Klass.Check` | src/index.js:95-104 | The recursive loop over own fields, then over parents with the same exemption lists, returns the first failing field of the preorder field list. It does not modify the class. |
| `Mixins.Mixin` | src/index.js:108-124 | Computes both exemption lists once, then checks. On failure neither site changes. On success the class equals the specified installation of all collected methods. |
| `Mixins.MixinSpec` | src/index.js:108-124 | `_mixin` on a snapshot: a failing check leaves the class exactly as it was, a passing one installs the collected methods. The prototype chains never change. |
| `Mixins.MixinInstalls` | src/index.js:114-122 | After a successful mixin, pre-existing own properties are unchanged. Every key named by a collected method of the scope is owned, and a new one holds the body of the first such method in visiting order. No other key appears. |
| `Mixins.MixinIdempotent` | src/index.js:108-124 | For every target, mixing the same interface a second time gives the result of the first mixin: after a success it passes again and changes nothing, and after a failure it fails again on the unchanged target. |
| `Mixins.ImplementAll` | src/index.js:143 | Applies the `implements` list in order and stops at the first failing check, leaving the class as the specification says. |
| `Mixins.MixinAll` | src/index.js:143 | The `implements` list: one mixin per interface in list order, stopping at the first failure. The prototype chains never change. |
| `Mixins.MixinAllInstalls` | src/index.js:143 | A successful list installs as one first-writer-wins pass over the methods of all interfaces in list order. |
| `Mixins.OwnMembersSurvive` | src/index.js:116 | A property the class owned before any mixin keeps its value through every mixin of a list, even if one of them fails. |
| `Mixins.EarlierContractWins` | src/index.js:147-149 | With `X implements A implements B`, once A's mixin passes, a key A supplies and the class did not own gets A's first default, whatever B supplies and whether or not B's check passes. |
| `Scenarios.DiamondVisitsSharedAncestorTwice` | src/index.js:105-107 | In a diamond, the shared ancestor is visited, and its field and method collected, twice. |
| `Scenarios.DiamondMixin` | src/index.js:108-124 | In that diamond, the ancestor's default, reached first through the left parent, wins over the right parent's own method of the same name. |
| `Scenarios.ComparableScenario` | src/index.js:95-124 | A class missing a required instance field fails on it and is left alone. Once its prototype holds the field's symbol, the same mixin passes and changes nothing. |

## Left out

- The sweet.js macro machinery (`matchIdentifier`, `matchInterfaceItems` and the other helpers from `./match-util` and `@sweet-js/helpers`, the syntax templates and `join`): their output, the ordered field, method and parent lists, is taken as input.
- `toDefinePropertyString` and its bracket workaround: a method name arrives either as an identifier or as an already resolved key (`MethodName.Resolved`).
- Property descriptor attributes (`configurable`, `writable`, `enumerable`) and the `Object.create(null, …)` plumbing: only presence and value of own keys are modelled.
- Field names that clash with the interface object's own property names (`_extends`, `_fields`, `_methods`, `_check`, `_collect`, `_mixin`): the object literal lets the later entry replace the getter. The model keeps getters and internals apart.
- A field named `__proto__`: in the emitted object literals a plain `__proto__` key sets the prototype instead of creating a property. The field then has no getter, and `Object.values(this._fields)` skips it, so `_check` never requires it. The model treats it like any other name: `FieldSymbol` finds it and `CheckOutcome` requires it.
- Targets whose sites throw: `hasOwnProperty.call` throws when `klass.prototype` is null or undefined, and `Object.defineProperty` throws on a primitive, non-extensible or frozen site. Either leaves a partial install after a passing check. `Mixin` assumes both sites are ordinary extensible objects, so it always completes once the check passes.
- Error message texts and symbol descriptions: failures carry the error kind and, for the check, the offending field.
- The prototype chain and `class … extends`: each site's inherited properties are a fixed map, read only by the check's `== null` test. Installation looks only at own properties, as `hasOwnProperty` does.
- Method bodies are opaque identifiers. No method is ever called.
- Well-known symbols (such as `Symbol.iterator`) used as method keys are `Sym` values like any other. The minter promises freshness only with respect to symbols it minted itself.
- Concurrency: the runtime is sequential.
