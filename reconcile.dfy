/** The reconciliation cycle of `bind` (one-way-data-binding-library.mjs) as
    pure functions: one function per loop of the processor, each folding the
    loop's iterations over a prefix of what it walks, so that the imperative
    `Processor.Process` can be proved equal to `Cycle` iteration by iteration. */
module Reconcile {
  import opened Objects

  /** A concrete joined path reported by the matcher, e.g. "state.foo.0". */
  type Path = string
  /** A declared pattern, a key of the `bindings` object, e.g. "state.foo[*]". */
  type Pattern = string
  /** The identity of a JavaScript value: two values are `===` exactly when
      their refs are equal (objects by reference, primitives other than NaN
      by value). NaN is not `===` to itself, so a NaN value must be given a
      ref of its own in every report. */
  type Ref = nat

  /** Which of the optional lifecycle methods a binding instance has. */
  datatype Caps = Caps(create: bool, update: bool, delete: bool)

  /** The object a factory returned: `serial` numbers the factory calls of one
      processor and so stands for the object's identity; `decl` is the
      declaration whose factory made it. */
  datatype Instance = Instance(serial: nat, decl: Pattern, caps: Caps)

  /** A value of `bound` or `nextBound`: `{ methods, data }`. */
  datatype Entry = Entry(methods: Instance, data: Ref)

  /** One `[key, value, matchedBy]` triple of the matcher. */
  datatype Match = Match(key: Path, data: Ref, matchedBy: seq<Pattern>)

  /** A lifecycle call made by the processor, with its arguments. `key` and
      `inst` say on whose behalf it was made; the callback itself receives only
      `data` and `state`. */
  datatype Event =
    | Create(key: Path, inst: Instance, data: Ref, state: Ref)
    | Update(key: Path, inst: Instance, data: Ref, state: Ref)
    | Delete(key: Path, inst: Instance, state: Ref)

  /** Every bound instance came from an earlier factory call, and no two paths
      share one. */
  ghost predicate Owned(m: map<Path, Entry>, serial: nat) {
    && (forall k | k in m :: m[k].methods.serial < serial)
    && (forall k1, k2 | k1 in m && k2 in m && k1 != k2 :: m[k1].methods.serial != m[k2].methods.serial)
  }

  /** The closure state of one processor between calls: `state`, `bound`, and
      how many instances its factories have produced. */
  datatype Store = Store(state: Ref, bound: Obj<Entry>, serial: nat) {
    ghost predicate Valid() {
      bound.Valid() && Owned(bound.entries, serial)
    }
  }

  /** The state of the match loop part-way through a cycle. */
  datatype Pass = Pass(bound: Obj<Entry>, next: Obj<Entry>, serial: nat, fired: seq<Event>) {
    ghost predicate Inv() {
      && bound.Valid() && next.Valid()
      && Owned(bound.entries, serial)
      && (forall k | k in next.entries :: k in bound.entries && next.entries[k].methods == bound.entries[k].methods)
    }
  }

  /** How the match loop may move from `p` to `r`: entries of `bound` are never
      overwritten, `bound` and `nextBound` only gain keys, every key `bound`
      gains is also in `nextBound`, and the only calls made are creates and
      updates. */
  ghost predicate Extends(p: Pass, r: Pass) {
    && p.serial <= r.serial
    && p.bound.keys <= r.bound.keys
    && (forall k | k in p.bound.entries :: k in r.bound.entries && r.bound.entries[k] == p.bound.entries[k])
    && (forall k | k in p.next.entries :: k in r.next.entries)
    && (forall i | |p.bound.keys| <= i < |r.bound.keys| :: r.bound.keys[i] in r.next.entries)
    && p.fired <= r.fired
    && (forall i | |p.fired| <= i < |r.fired| :: !r.fired[i].Delete?)
  }

  /** Every declaration in `decls` has a factory. */
  ghost predicate Declared(bindings: map<Pattern, Caps>, decls: seq<Pattern>) {
    forall d | d in decls :: d in bindings
  }

  /** The matcher only reports declared patterns. */
  ghost predicate Admissible(bindings: map<Pattern, Caps>, ms: seq<Match>) {
    forall i | 0 <= i < |ms| :: Declared(bindings, ms[i].matchedBy)
  }

  /** The frame of one path's iterations: the factory count only grows,
      calls are only appended and are all on behalf of `key`, and nothing
      about any other path changes. */
  ghost predicate OnlyTouches(p: Pass, r: Pass, key: Path) {
    && p.serial <= r.serial && p.fired <= r.fired
    && (forall i | |p.fired| <= i < |r.fired| :: r.fired[i].key == key)
    && (forall k | k != key :: (r.bound.Has(k) <==> p.bound.Has(k)) && (r.next.Has(k) <==> p.next.Has(k)))
    && (forall k | k != key && p.bound.Has(k) :: r.bound.entries[k] == p.bound.entries[k])
    && (forall k | k != key && p.next.Has(k) :: r.next.entries[k] == p.next.entries[k])
  }

  /** One iteration of the inner loop: `key` holds `data` and matched `decl`.
      An unbound key gets an instance from `decl`'s factory (and `create`);
      a bound key whose data is no longer identical gets `update`; either way
      `nextBound[key]` records the instance with the latest data. */
  function Visit(p: Pass, bindings: map<Pattern, Caps>, state: Ref, key: Path, data: Ref, decl: Pattern): (r: Pass)
    requires decl in bindings
  {
    if !p.bound.Has(key) then
      var inst := Instance(p.serial, decl, bindings[decl]);
      var e := Entry(inst, data);
      Pass(p.bound.Put(key, e), p.next.Put(key, e), p.serial + 1,
           p.fired + (if inst.caps.create then [Create(key, inst, data, state)] else []))
    else
      var e := p.bound.entries[key];
      Pass(p.bound, p.next.Put(key, Entry(e.methods, data)), p.serial,
           p.fired + (if e.methods.caps.update && data != e.data then [Update(key, e.methods, data, state)] else []))
  }

  /** The inner loop over `matchedBy`, after its first `|decls|` iterations. */
  function VisitAll(p: Pass, bindings: map<Pattern, Caps>, state: Ref, key: Path, data: Ref, decls: seq<Pattern>): (r: Pass)
    requires Declared(bindings, decls)
    decreases |decls|
  {
    if decls == [] then p
    else Visit(VisitAll(p, bindings, state, key, data, decls[..|decls| - 1]), bindings, state, key, data, decls[|decls| - 1])
  }

  /** The outer loop over the matches, after its first `|ms|` iterations. */
  function Scan(p: Pass, bindings: map<Pattern, Caps>, state: Ref, ms: seq<Match>): (r: Pass)
    requires Admissible(bindings, ms)
    decreases |ms|
  {
    if ms == [] then p
    else
      var m := ms[|ms| - 1];
      VisitAll(Scan(p, bindings, state, ms[..|ms| - 1]), bindings, state, m.key, m.data, m.matchedBy)
  }

  /** One iteration keeps the invariant and extends the pass: `key` is in both
      maps afterwards, and `nextBound` records it with the latest data (a
      bound key's entry in `bound` keeps its old data). */
  lemma VisitPreserves(p: Pass, bindings: map<Pattern, Caps>, state: Ref, key: Path, data: Ref, decl: Pattern)
    requires p.Inv() && decl in bindings
    ensures var r := Visit(p, bindings, state, key, data, decl);
      && r.Inv() && Extends(p, r)
      && r.bound.Has(key) && r.next.Has(key) && r.next.entries[key].data == data
  {
    var r := Visit(p, bindings, state, key, data, decl);
    if !p.bound.Has(key) {
      var e := Entry(Instance(p.serial, decl, bindings[decl]), data);
      assert r.bound == p.bound.Put(key, e) && r.next == p.next.Put(key, e);
      OwnedAdd(p.bound.entries, p.serial, key, e);
    } else {
      assert r.bound == p.bound && r.next == p.next.Put(key, Entry(p.bound.entries[key].methods, data));
    }
    assert forall k | k in r.next.entries :: k in r.bound.entries && r.next.entries[k].methods == r.bound.entries[k].methods;
  }

  /** Binding a new key to the next instance keeps the instances owned and
      distinct. */
  lemma OwnedAdd(m: map<Path, Entry>, serial: nat, key: Path, e: Entry)
    requires Owned(m, serial) && key !in m && e.methods.serial == serial
    ensures Owned(m[key := e], serial + 1)
  {
  }

  /** One iteration touches only `key`. */
  lemma VisitTouches(p: Pass, bindings: map<Pattern, Caps>, state: Ref, key: Path, data: Ref, decl: Pattern)
    requires decl in bindings
    ensures OnlyTouches(p, Visit(p, bindings, state, key, data, decl), key)
  {
  }

  /** The inner loop touches only `key`. */
  lemma {:induction false} VisitAllTouches(p: Pass, bindings: map<Pattern, Caps>, state: Ref, key: Path, data: Ref, decls: seq<Pattern>)
    requires Declared(bindings, decls)
    ensures OnlyTouches(p, VisitAll(p, bindings, state, key, data, decls), key)
    decreases |decls|
  {
    if decls != [] {
      var ds := decls[..|decls| - 1];
      VisitAllTouches(p, bindings, state, key, data, ds);
      VisitTouches(VisitAll(p, bindings, state, key, data, ds), bindings, state, key, data, decls[|decls| - 1]);
    }
  }

  /** The inner loop keeps the invariant. */
  lemma {:induction false} VisitAllPreserves(p: Pass, bindings: map<Pattern, Caps>, state: Ref, key: Path, data: Ref, decls: seq<Pattern>)
    requires p.Inv() && Declared(bindings, decls)
    ensures var r := VisitAll(p, bindings, state, key, data, decls);
      && r.Inv() && Extends(p, r)
      && (decls != [] ==> r.bound.Has(key) && r.next.Has(key) && r.next.entries[key].data == data)
    decreases |decls|
  {
    if decls != [] {
      var ds := decls[..|decls| - 1];
      VisitAllPreserves(p, bindings, state, key, data, ds);
      var q := VisitAll(p, bindings, state, key, data, ds);
      VisitPreserves(q, bindings, state, key, data, decls[|decls| - 1]);
    }
  }

  /** The match loop keeps the invariant. */
  lemma {:induction false} ScanPreserves(p: Pass, bindings: map<Pattern, Caps>, state: Ref, ms: seq<Match>)
    requires p.Inv() && Admissible(bindings, ms)
    ensures var r := Scan(p, bindings, state, ms); r.Inv() && Extends(p, r)
    decreases |ms|
  {
    if ms != [] {
      var ms' := ms[..|ms| - 1];
      var m := ms[|ms| - 1];
      ScanPreserves(p, bindings, state, ms');
      VisitAllPreserves(Scan(p, bindings, state, ms'), bindings, state, m.key, m.data, m.matchedBy);
    }
  }

  /** The delete loop over `Object.keys(bound)`, after its first `|keys|`
      iterations: a key missing from `nextBound` gets `delete(state)` when its
      instance has one. */
  function Deletions(keys: seq<Path>, bound: map<Path, Entry>, next: map<Path, Entry>, state: Ref): (r: seq<Event>)
    requires forall k | k in keys :: k in bound
    decreases |keys|
  {
    if keys == [] then []
    else
      var key := keys[|keys| - 1];
      Deletions(keys[..|keys| - 1], bound, next, state) +
        (if key !in next && bound[key].methods.caps.delete then [Delete(key, bound[key].methods, state)] else [])
  }

  /** The delete loop only calls `delete`, with the new snapshot, on behalf of
      keys that are walked and missing from `nextBound`, and on the instance
      bound to the key. */
  lemma {:induction false} DeletionsOnly(keys: seq<Path>, bound: map<Path, Entry>, next: map<Path, Entry>, state: Ref)
    requires forall k | k in keys :: k in bound
    ensures forall e | e in Deletions(keys, bound, next, state) ::
      && e.Delete? && e.key in keys && e.key !in next && e.key in bound
      && e.inst == bound[e.key].methods && e.inst.caps.delete && e.state == state
    decreases |keys|
  {
    if keys != [] {
      DeletionsOnly(keys[..|keys| - 1], bound, next, state);
    }
  }

  /** The inner loop's next iteration is one more `Visit`. */
  lemma VisitAllSnoc(p: Pass, bindings: map<Pattern, Caps>, state: Ref, key: Path, data: Ref, decls: seq<Pattern>, j: nat)
    requires Declared(bindings, decls) && j < |decls|
    ensures VisitAll(p, bindings, state, key, data, decls[..j + 1])
         == Visit(VisitAll(p, bindings, state, key, data, decls[..j]), bindings, state, key, data, decls[j])
  {
    assert decls[..j + 1][..j] == decls[..j];
  }

  /** The match loop's next iteration is one more `VisitAll`. */
  lemma ScanSnoc(p: Pass, bindings: map<Pattern, Caps>, state: Ref, ms: seq<Match>, i: nat)
    requires Admissible(bindings, ms) && i < |ms|
    ensures Scan(p, bindings, state, ms[..i + 1])
         == VisitAll(Scan(p, bindings, state, ms[..i]), bindings, state, ms[i].key, ms[i].data, ms[i].matchedBy)
  {
    assert ms[..i + 1][..i] == ms[..i];
  }

  /** The delete loop's next iteration adds at most the delete of `keys[i]`. */
  lemma DeletionsSnoc(keys: seq<Path>, bound: map<Path, Entry>, next: map<Path, Entry>, state: Ref, i: nat)
    requires (forall k | k in keys :: k in bound) && i < |keys|
    ensures Deletions(keys[..i + 1], bound, next, state)
         == Deletions(keys[..i], bound, next, state) +
            (if keys[i] !in next && bound[keys[i]].methods.caps.delete then [Delete(keys[i], bound[keys[i]].methods, state)] else [])
  {
    assert keys[..i + 1][..i] == keys[..i];
  }

  /** What one call of the processor leaves behind and the calls it makes. */
  datatype Outcome = Outcome(after: Store, events: seq<Event>)

  /** One call `processor(update)`, where `snapshot` is what `produce` returned
      and `ms` is what the matcher reported on it: the match loop, the delete
      loop over the keys of `bound` (including those the match loop added),
      then `bound = nextBound`. */
  function Cycle(s: Store, bindings: map<Pattern, Caps>, snapshot: Ref, ms: seq<Match>): (out: Outcome)
    requires s.Valid() && Admissible(bindings, ms)
    ensures out.after.Valid() && out.after.state == snapshot && s.serial <= out.after.serial
  {
    var p0 := Pass(s.bound, Empty(), s.serial, []);
    var p := Scan(p0, bindings, snapshot, ms);
    ScanPreserves(p0, bindings, snapshot, ms);
    Outcome(Store(snapshot, p.next, p.serial),
            p.fired + Deletions(p.bound.keys, p.bound.entries, p.next.entries, snapshot))
  }

  /** Given the match loop's final state `p`, a call commits `p.next`, and the
      calls it appends to a trace `before` are the match loop's followed by the
      delete loop's. */
  lemma CycleSteps(s: Store, bindings: map<Pattern, Caps>, snapshot: Ref, ms: seq<Match>, p: Pass, before: seq<Event>)
    requires s.Valid() && Admissible(bindings, ms)
    requires p == Scan(Pass(s.bound, Empty(), s.serial, []), bindings, snapshot, ms)
    ensures p.bound.Valid()
    ensures Cycle(s, bindings, snapshot, ms).after == Store(snapshot, p.next, p.serial)
    ensures before + Cycle(s, bindings, snapshot, ms).events ==
      before + p.fired + Deletions(p.bound.keys, p.bound.entries, p.next.entries, snapshot)
  {
    ScanPreserves(Pass(s.bound, Empty(), s.serial, []), bindings, snapshot, ms);
    var deletes := Deletions(p.bound.keys, p.bound.entries, p.next.entries, snapshot);
    assert Cycle(s, bindings, snapshot, ms).events == p.fired + deletes;
    assert before + (p.fired + deletes) == before + p.fired + deletes;
  }
}
