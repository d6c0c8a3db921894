/** The binding test of one-way-data-binding-library.mjs as written.

    `key in bound` is JavaScript's `in`, which also sees the properties a
    plain object inherits from `Object.prototype`. For a path spelled like
    one of them (a top-level field "constructor", say) on a processor that
    has not bound it, the test claims a binding exists; the update branch
    then reads `bound[key].methods.update`, where `bound[key]` is the
    inherited function and `.methods` is undefined, and the call throws a
    TypeError. The rest of the model tests own keys only, which is what the
    comment above the test says is meant: `Reconcile.Visit` for `key in
    bound`, and `Reconcile.Deletions` for `key in nextBound` in the delete
    loop. The intended behaviour needs both: with only the first test
    corrected, a bound path "constructor" that disappears would still be
    found in `nextBound` and get no `delete`. A path "__proto__" needs more
    than an own-key test, since assigning it sets the object's prototype;
    the maps must then be objects without a prototype. */
module Findings {
  import opened Objects
  import opened Reconcile

  /** The names a plain object inherits from `Object.prototype`. */
  const PrototypeNames: set<string> := {
    "constructor", "hasOwnProperty", "isPrototypeOf", "propertyIsEnumerable",
    "toLocaleString", "toString", "valueOf", "__proto__",
    "__defineGetter__", "__defineSetter__", "__lookupGetter__", "__lookupSetter__"
  }

  /** `key in obj` for a plain object: own keys and inherited names. */
  predicate InPlainObject(o: Obj<Entry>, key: Path) {
    o.Has(key) || key in PrototypeNames
  }

  /** One iteration ends normally or throws a TypeError. */
  datatype Step = Done(pass: Pass) | TypeError(key: Path)

  /** The `matchedBy.forEach` callback with JavaScript's `in`. It throws
      exactly for an unbound path with an inherited name, and otherwise does
      what the own-key model does. */
  function VisitAsWritten(p: Pass, bindings: map<Pattern, Caps>, state: Ref, key: Path, data: Ref, decl: Pattern): (r: Step)
    requires decl in bindings
    ensures r.TypeError? <==> key in PrototypeNames && !p.bound.Has(key)
    ensures r.Done? ==> r.pass == Visit(p, bindings, state, key, data, decl)
  {
    if !InPlainObject(p.bound, key) then
      var inst := Instance(p.serial, decl, bindings[decl]);
      var bound := p.bound.Put(key, Entry(inst, data));
      Done(Pass(bound, p.next.Put(key, Entry(inst, data)), p.serial + 1,
                p.fired + (if inst.caps.create then [Create(key, inst, data, state)] else [])))
    else if !p.bound.Has(key) then
      // `bound[key]` is the inherited member; its `.methods` is undefined
      TypeError(key)
    else
      var e := p.bound.entries[key];
      Done(Pass(p.bound, p.next.Put(key, Entry(e.methods, data)), p.serial,
                p.fired + (if e.methods.caps.update && data != e.data then [Update(key, e.methods, data, state)] else [])))
  }

  /** The first call that reports a path "constructor" throws. */
  lemma ConstructorPathThrows(bindings: map<Pattern, Caps>, state: Ref, data: Ref, decl: Pattern)
    requires decl in bindings
    ensures VisitAsWritten(Pass(Empty(), Empty(), 0, []), bindings, state, "constructor", data, decl) == TypeError("constructor")
  {
  }

  /** With the own-key test the same path is bound to a new instance, and
      `create` is called when the instance has one. */
  lemma ConstructorPathBinds(bindings: map<Pattern, Caps>, state: Ref, data: Ref, decl: Pattern)
    requires decl in bindings
    ensures var r := Visit(Pass(Empty(), Empty(), 0, []), bindings, state, "constructor", data, decl);
      var inst := Instance(0, decl, bindings[decl]);
      && r.bound.Has("constructor") && r.bound.entries["constructor"] == Entry(inst, data)
      && r.next.Has("constructor") && r.serial == 1
      && r.fired == if inst.caps.create then [Create("constructor", inst, data, state)] else []
  {
  }
}
