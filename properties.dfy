/** What one call of the processor does to each concrete path, and what
    successive calls do: the lifecycle rules of one-way-data-binding-library.mjs
    proved of `Reconcile.Cycle`. The matcher reports each concrete path at most
    once per call (`DistinctKeys`), as the joined keys of a scan are unique. */
module Properties {
  import opened Objects
  import opened Reconcile

  /** The calls made on behalf of path `k`, in the order they were made. */
  function EventsFor(ev: seq<Event>, k: Path): (r: seq<Event>)
    decreases |ev|
  {
    if ev == [] then []
    else
      assert ev == ev[..|ev| - 1] + [ev[|ev| - 1]];
      EventsFor(ev[..|ev| - 1], k) + (if ev[|ev| - 1].key == k then [ev[|ev| - 1]] else [])
  }

  /** `n` copies of `e`. */
  function Repeat(e: Event, n: nat): (r: seq<Event>)
    ensures |r| == n && forall x | x in r :: x == e
  {
    if n == 0 then [] else Repeat(e, n - 1) + [e]
  }

  /** No concrete path is reported twice. */
  ghost predicate DistinctKeys(ms: seq<Match>) {
    forall i, j | 0 <= i < j < |ms| :: ms[i].key != ms[j].key
  }

  /** Path `k` is reported with at least one matching declaration. */
  ghost predicate Matched(ms: seq<Match>, k: Path) {
    exists i | 0 <= i < |ms| :: ms[i].key == k && ms[i].matchedBy != []
  }

  /** The reported paths that some declaration matched, in report order. */
  function MatchedKeys(ms: seq<Match>): (r: seq<Path>)
    decreases |ms|
  {
    if ms == [] then []
    else MatchedKeys(ms[..|ms| - 1]) + (if ms[|ms| - 1].matchedBy != [] then [ms[|ms| - 1].key] else [])
  }

  // ---------------------------------------------------------------------------
  // Helpers about event sequences

  lemma {:induction false} EventsForAppend(a: seq<Event>, b: seq<Event>, k: Path)
    ensures EventsFor(a + b, k) == EventsFor(a, k) + EventsFor(b, k)
    decreases |b|
  {
    if b == [] {
      assert a + b == a;
    } else {
      var b' := b[..|b| - 1];
      EventsForAppend(a, b', k);
      assert (a + b)[..|a + b| - 1] == a + b';
    }
  }

  lemma {:induction false} EventsForNone(ev: seq<Event>, k: Path)
    requires forall i | 0 <= i < |ev| :: ev[i].key != k
    ensures EventsFor(ev, k) == []
    decreases |ev|
  {
    if ev != [] {
      EventsForNone(ev[..|ev| - 1], k);
    }
  }

  lemma EventsForSingle(e: Event, k: Path)
    ensures EventsFor([e], k) == if e.key == k then [e] else []
  {
    assert [e][..0] == [];
  }

  /** Calls made on behalf of another path leave the calls for `k` as they were. */
  lemma EventsForOther(p: Pass, r: Pass, key: Path, k: Path)
    requires OnlyTouches(p, r, key) && key != k
    ensures EventsFor(r.fired, k) == EventsFor(p.fired, k)
  {
    var added := r.fired[|p.fired|..];
    assert r.fired == p.fired + added;
    EventsForAppend(p.fired, added, k);
    EventsForNone(added, k);
  }

  /** When every call is made on behalf of `k`, those are all the calls. */
  lemma {:induction false} EventsForSole(ev: seq<Event>, k: Path)
    requires forall i | 0 <= i < |ev| :: ev[i].key == k
    ensures EventsFor(ev, k) == ev
    decreases |ev|
  {
    if ev != [] {
      EventsForSole(ev[..|ev| - 1], k);
    }
  }

  /** Every call made is among the calls made on behalf of its own path. */
  lemma {:induction false} EventsForContains(ev: seq<Event>, a: nat)
    requires a < |ev|
    ensures ev[a] in EventsFor(ev, ev[a].key)
    decreases |ev|
  {
    if a < |ev| - 1 {
      EventsForContains(ev[..|ev| - 1], a);
    }
  }

  lemma MatchedKeysSpec(ms: seq<Match>, k: Path)
    ensures k in MatchedKeys(ms) <==> Matched(ms, k)
    decreases |ms|
  {
    if ms != [] {
      var ms' := ms[..|ms| - 1];
      MatchedKeysSpec(ms', k);
      if Matched(ms', k) {
        var i :| 0 <= i < |ms'| && ms'[i].key == k && ms'[i].matchedBy != [];
        assert ms[i] == ms'[i];
      }
      if Matched(ms, k) {
        var i :| 0 <= i < |ms| && ms[i].key == k && ms[i].matchedBy != [];
        if i < |ms| - 1 {
          assert ms'[i] == ms[i];
        }
      }
    }
  }

  // ---------------------------------------------------------------------------
  // The match loop, one path at a time

  /** A path the matches do not report is left alone by the match loop, and
      the factory count only grows. */
  lemma {:induction false} ScanUntouched(p: Pass, bindings: map<Pattern, Caps>, state: Ref, ms: seq<Match>, k: Path)
    requires Admissible(bindings, ms) && !Matched(ms, k)
    ensures var q := Scan(p, bindings, state, ms);
      && p.serial <= q.serial && p.fired <= q.fired
      && (forall a | |p.fired| <= a < |q.fired| :: q.fired[a].key != k)
      && (q.bound.Has(k) <==> p.bound.Has(k))
      && (q.next.Has(k) <==> p.next.Has(k))
      && (p.bound.Has(k) ==> q.bound.entries[k] == p.bound.entries[k])
      && (p.next.Has(k) ==> q.next.entries[k] == p.next.entries[k])
      && EventsFor(q.fired, k) == EventsFor(p.fired, k)
    decreases |ms|
  {
    if ms != [] {
      var ms' := ms[..|ms| - 1];
      var m := ms[|ms| - 1];
      assert !Matched(ms', k) by {
        forall i | 0 <= i < |ms'| ensures !(ms'[i].key == k && ms'[i].matchedBy != []) {
          assert ms'[i] == ms[i];
        }
      }
      ScanUntouched(p, bindings, state, ms', k);
      var q' := Scan(p, bindings, state, ms');
      VisitAllTouches(q', bindings, state, m.key, m.data, m.matchedBy);
      var q := VisitAll(q', bindings, state, m.key, m.data, m.matchedBy);
      assert Scan(p, bindings, state, ms) == q;
      if m.matchedBy != [] {
        assert m.key != k;
        EventsForOther(q', q, m.key, k);
      }
    }
  }

  /** One iteration on a path not yet bound: a new instance from `decl`'s
      factory, and `create` when it has one. */
  lemma VisitNew(p: Pass, bindings: map<Pattern, Caps>, state: Ref, key: Path, data: Ref, decl: Pattern)
    requires decl in bindings && !p.bound.Has(key)
    ensures var q := Visit(p, bindings, state, key, data, decl);
      var inst := Instance(p.serial, decl, bindings[decl]);
      && q.bound.Has(key) && q.bound.entries[key] == Entry(inst, data)
      && q.next.Has(key) && q.next.entries[key] == Entry(inst, data)
      && q.serial == p.serial + 1
      && EventsFor(q.fired, key) == EventsFor(p.fired, key) +
           (if inst.caps.create then [Create(key, inst, data, state)] else [])
  {
    var q := Visit(p, bindings, state, key, data, decl);
    var inst := Instance(p.serial, decl, bindings[decl]);
    var c := Create(key, inst, data, state);
    var added := if inst.caps.create then [c] else [];
    assert q.fired == p.fired + added;
    EventsForAppend(p.fired, added, key);
    EventsForSingle(c, key);
  }

  /** One iteration on a bound path: its entry in `bound` stays, `nextBound`
      records the current data, and `update` fires when the data changed. */
  lemma VisitBound(p: Pass, bindings: map<Pattern, Caps>, state: Ref, key: Path, data: Ref, decl: Pattern)
    requires decl in bindings && p.bound.Has(key)
    ensures var q := Visit(p, bindings, state, key, data, decl);
      var e := p.bound.entries[key];
      && q.bound == p.bound && q.serial == p.serial
      && q.next.Has(key) && q.next.entries[key] == Entry(e.methods, data)
      && EventsFor(q.fired, key) == EventsFor(p.fired, key) +
           (if e.methods.caps.update && data != e.data then [Update(key, e.methods, data, state)] else [])
  {
    var q := Visit(p, bindings, state, key, data, decl);
    var e := p.bound.entries[key];
    var u := Update(key, e.methods, data, state);
    var added := if e.methods.caps.update && data != e.data then [u] else [];
    assert q.fired == p.fired + added;
    EventsForAppend(p.fired, added, key);
    EventsForSingle(u, key);
  }

  /** The inner loop on one path: the first declaration's factory makes the
      instance of a new path (and `create` fires once), and no other factory
      is called for it; a path bound before
      keeps its entry in `bound` and gets one `update` per declaration when its
      data changed identity. */
  lemma {:induction false} VisitAllKey(p: Pass, bindings: map<Pattern, Caps>, state: Ref, key: Path, data: Ref, decls: seq<Pattern>)
    requires Declared(bindings, decls) && decls != []
    ensures var q := VisitAll(p, bindings, state, key, data, decls);
      && q.bound.Has(key) && q.next.Has(key)
      && q.next.entries[key] == Entry(q.bound.entries[key].methods, data)
      && q.serial == p.serial + (if p.bound.Has(key) then 0 else 1)
      && (p.bound.Has(key) ==>
            var e := p.bound.entries[key];
            && q.bound.entries[key] == e
            && EventsFor(q.fired, key) == EventsFor(p.fired, key) +
                 Repeat(Update(key, e.methods, data, state), if e.methods.caps.update && data != e.data then |decls| else 0))
      && (!p.bound.Has(key) ==>
            var inst := Instance(p.serial, decls[0], bindings[decls[0]]);
            && q.bound.entries[key] == Entry(inst, data)
            && EventsFor(q.fired, key) == EventsFor(p.fired, key) +
                 (if inst.caps.create then [Create(key, inst, data, state)] else []))
    decreases |decls|
  {
    var n := |decls|;
    var ds := decls[..n - 1];
    var d := decls[n - 1];
    var q' := VisitAll(p, bindings, state, key, data, ds);
    assert VisitAll(p, bindings, state, key, data, decls) == Visit(q', bindings, state, key, data, d);
    if ds == [] {
      assert q' == p && d == decls[0];
      if !p.bound.Has(key) {
        VisitNew(p, bindings, state, key, data, d);
      } else {
        VisitBound(p, bindings, state, key, data, d);
        assert Repeat(Update(key, p.bound.entries[key].methods, data, state), 1) == [Update(key, p.bound.entries[key].methods, data, state)];
      }
    } else {
      VisitAllKey(p, bindings, state, key, data, ds);
      assert ds[0] == decls[0];
      VisitBound(q', bindings, state, key, data, d);
      if p.bound.Has(key) {
        var e := p.bound.entries[key];
        var u := Update(key, e.methods, data, state);
        if e.methods.caps.update && data != e.data {
          assert Repeat(u, |decls|) == Repeat(u, |ds|) + [u];
        }
      }
    }
  }

  /** The match loop on one reported path. */
  lemma {:induction false} ScanKey(p: Pass, bindings: map<Pattern, Caps>, state: Ref, ms: seq<Match>, i: nat)
    requires Admissible(bindings, ms) && DistinctKeys(ms)
    requires i < |ms| && ms[i].matchedBy != []
    ensures var q := Scan(p, bindings, state, ms);
      var k := ms[i].key;
      var decls := ms[i].matchedBy;
      && q.bound.Has(k) && q.next.Has(k)
      && q.next.entries[k] == Entry(q.bound.entries[k].methods, ms[i].data)
      && (p.bound.Has(k) ==>
            var e := p.bound.entries[k];
            && q.bound.entries[k] == e
            && EventsFor(q.fired, k) == EventsFor(p.fired, k) +
              Repeat(Update(k, e.methods, ms[i].data, state), if e.methods.caps.update && ms[i].data != e.data then |decls| else 0))
      && (!p.bound.Has(k) ==>
            var inst := q.bound.entries[k].methods;
            && inst.decl == decls[0] && inst.caps == bindings[decls[0]] && p.serial <= inst.serial
            && q.bound.entries[k].data == ms[i].data
            && EventsFor(q.fired, k) == EventsFor(p.fired, k) +
                 (if inst.caps.create then [Create(k, inst, ms[i].data, state)] else []))
    decreases |ms|
  {
    var n := |ms|;
    var ms' := ms[..n - 1];
    var m := ms[n - 1];
    var q' := Scan(p, bindings, state, ms');
    var q := VisitAll(q', bindings, state, m.key, m.data, m.matchedBy);
    assert Scan(p, bindings, state, ms) == q;
    var k := ms[i].key;
    if i == n - 1 {
      assert !Matched(ms', k) by {
        forall j | 0 <= j < |ms'| ensures ms'[j].key != k {
          assert ms'[j] == ms[j];
        }
      }
      ScanUntouched(p, bindings, state, ms', k);
      VisitAllKey(q', bindings, state, m.key, m.data, m.matchedBy);
    } else {
      assert ms'[i] == ms[i];
      assert DistinctKeys(ms') by {
        forall a, b | 0 <= a < b < |ms'| ensures ms'[a].key != ms'[b].key {
          assert ms'[a] == ms[a] && ms'[b] == ms[b];
        }
      }
      ScanKey(p, bindings, state, ms', i);
      assert m.key != k;
      VisitAllTouches(q', bindings, state, m.key, m.data, m.matchedBy);
      EventsForOther(q', q, m.key, k);
    }
  }

  /** The reported paths that some declaration matched and that `bound` does
      not hold yet, counted. */
  function NewPaths(bound: Obj<Entry>, ms: seq<Match>): (r: nat)
    decreases |ms|
  {
    if ms == [] then 0
    else
      var m := ms[|ms| - 1];
      NewPaths(bound, ms[..|ms| - 1]) + (if m.matchedBy != [] && !bound.Has(m.key) then 1 else 0)
  }

  /** The match loop calls exactly one factory per new matched path, however
      many declarations match it, and none for a path already bound. */
  lemma {:induction false} ScanSerial(p: Pass, bindings: map<Pattern, Caps>, state: Ref, ms: seq<Match>)
    requires Admissible(bindings, ms) && DistinctKeys(ms)
    ensures Scan(p, bindings, state, ms).serial == p.serial + NewPaths(p.bound, ms)
    decreases |ms|
  {
    if ms != [] {
      var n := |ms|;
      var ms' := ms[..n - 1];
      var m := ms[n - 1];
      assert DistinctKeys(ms') by {
        forall a, b | 0 <= a < b < |ms'| ensures ms'[a].key != ms'[b].key {
          assert ms'[a] == ms[a] && ms'[b] == ms[b];
        }
      }
      ScanSerial(p, bindings, state, ms');
      var q' := Scan(p, bindings, state, ms');
      assert Scan(p, bindings, state, ms) == VisitAll(q', bindings, state, m.key, m.data, m.matchedBy);
      if m.matchedBy != [] {
        assert !Matched(ms', m.key) by {
          forall j | 0 <= j < |ms'| ensures ms'[j].key != m.key {
            assert ms'[j] == ms[j];
          }
        }
        ScanUntouched(p, bindings, state, ms', m.key);
        VisitAllKey(q', bindings, state, m.key, m.data, m.matchedBy);
      }
    }
  }

  // ---------------------------------------------------------------------------
  // The delete loop

  /** The delete loop calls `delete` on behalf of `k` at most once: exactly
      when `k` is among the keys walked, is missing from `nextBound` and its
      instance has `delete`. */
  lemma {:induction false} DeletionsFor(keys: seq<Path>, bound: map<Path, Entry>, next: map<Path, Entry>, state: Ref, k: Path)
    requires forall x | x in keys :: x in bound
    requires forall i, j | 0 <= i < j < |keys| :: keys[i] != keys[j]
    ensures EventsFor(Deletions(keys, bound, next, state), k) ==
      if k in keys && k !in next && bound[k].methods.caps.delete then [Delete(k, bound[k].methods, state)] else []
    decreases |keys|
  {
    if keys != [] {
      var n := |keys|;
      var ks := keys[..n - 1];
      var last := keys[n - 1];
      assert && (forall x | x in ks :: x in bound)
             && (forall i, j | 0 <= i < j < |ks| :: ks[i] != ks[j])
             && last !in ks && (k in keys <==> k in ks || k == last) by {
        assert keys == ks + [last];
        forall j | 0 <= j < |ks| ensures ks[j] == keys[j] && ks[j] != last {
        }
      }
      DeletionsFor(ks, bound, next, state, k);
      var d := Delete(last, bound[last].methods, state);
      var added := if last !in next && bound[last].methods.caps.delete then [d] else [];
      EventsForAppend(Deletions(ks, bound, next, state), added, k);
      EventsForSingle(d, k);
    }
  }

  /** Keys appended to `bound` that are all in `nextBound` add no delete, and
      the deletes of the older keys depend only on their own entries. */
  lemma {:induction false} DeletionsExtended(keys: seq<Path>, more: seq<Path>, before: map<Path, Entry>,
                                             bound: map<Path, Entry>, next: map<Path, Entry>, state: Ref)
    requires keys <= more
    requires forall k | k in more :: k in bound
    requires forall k | k in keys :: k in before && before[k] == bound[k]
    requires forall i | |keys| <= i < |more| :: more[i] in next
    ensures Deletions(more, bound, next, state) == Deletions(keys, before, next, state)
    decreases |more|
  {
    if more != [] {
      var n := |more|;
      var last := more[n - 1];
      if n == |keys| {
        assert keys == more;
        DeletionsExtended(keys[..n - 1], more[..n - 1], before, bound, next, state);
      } else {
        DeletionsExtended(keys, more[..n - 1], before, bound, next, state);
      }
    }
  }

  // ---------------------------------------------------------------------------
  // One call of the processor

  /** What a call does for path `k`: the calls of the match loop for `k`,
      then at most one `delete`, made when `k` was bound and the match loop
      did not carry it into `nextBound`; `nextBound` is committed. */
  lemma CycleFor(s: Store, bindings: map<Pattern, Caps>, snapshot: Ref, ms: seq<Match>, k: Path)
    requires s.Valid() && Admissible(bindings, ms)
    ensures var p := Scan(Pass(s.bound, Empty(), s.serial, []), bindings, snapshot, ms);
      var out := Cycle(s, bindings, snapshot, ms);
      && out.after.bound == p.next
      && EventsFor(out.events, k) == EventsFor(p.fired, k) +
           (if p.bound.Has(k) && !p.next.Has(k) && p.bound.entries[k].methods.caps.delete
            then [Delete(k, p.bound.entries[k].methods, snapshot)] else [])
  {
    var p0 := Pass(s.bound, Empty(), s.serial, []);
    var p := Scan(p0, bindings, snapshot, ms);
    ScanPreserves(p0, bindings, snapshot, ms);
    EventsForAppend(p.fired, Deletions(p.bound.keys, p.bound.entries, p.next.entries, snapshot), k);
    DeletionsFor(p.bound.keys, p.bound.entries, p.next.entries, snapshot, k);
  }

  /** A path not bound before the call and matched now gets a new instance
      from its first matching declaration's factory (shared by every other
      declaration matching it), recorded with the current data; `create(data,
      state)` is the only call made for it, and is made when the instance has
      `create`. */
  lemma CycleNewKey(s: Store, bindings: map<Pattern, Caps>, snapshot: Ref, ms: seq<Match>, i: nat)
    requires s.Valid() && Admissible(bindings, ms) && DistinctKeys(ms)
    requires i < |ms| && ms[i].matchedBy != [] && !s.bound.Has(ms[i].key)
    ensures var out := Cycle(s, bindings, snapshot, ms);
      var k := ms[i].key;
      && out.after.bound.Has(k)
      && var inst := out.after.bound.entries[k].methods;
      && out.after.bound.entries[k].data == ms[i].data
      && inst.decl == ms[i].matchedBy[0] && inst.caps == bindings[ms[i].matchedBy[0]]
      && (forall k' | s.bound.Has(k') :: s.bound.entries[k'].methods != inst)
      && EventsFor(out.events, k) == if inst.caps.create then [Create(k, inst, ms[i].data, snapshot)] else []
  {
    CycleFor(s, bindings, snapshot, ms, ms[i].key);
    ScanKey(Pass(s.bound, Empty(), s.serial, []), bindings, snapshot, ms, i);
  }

  /** One call makes exactly one factory call per matched path that was not
      bound before it. */
  lemma CycleSerial(s: Store, bindings: map<Pattern, Caps>, snapshot: Ref, ms: seq<Match>)
    requires s.Valid() && Admissible(bindings, ms) && DistinctKeys(ms)
    ensures Cycle(s, bindings, snapshot, ms).after.serial == s.serial + NewPaths(s.bound, ms)
  {
    ScanSerial(Pass(s.bound, Empty(), s.serial, []), bindings, snapshot, ms);
  }

  /** A path bound before the call and matched now keeps its instance and
      records the current data; it gets no `create` and no `delete`, and gets
      `update(data, state)` once per matching declaration exactly when its
      instance has `update` and the data is no longer identical to the data
      recorded. */
  lemma CycleBoundKey(s: Store, bindings: map<Pattern, Caps>, snapshot: Ref, ms: seq<Match>, i: nat)
    requires s.Valid() && Admissible(bindings, ms) && DistinctKeys(ms)
    requires i < |ms| && ms[i].matchedBy != [] && s.bound.Has(ms[i].key)
    ensures var out := Cycle(s, bindings, snapshot, ms);
      var k := ms[i].key;
      var e := s.bound.entries[k];
      && out.after.bound.Has(k)
      && out.after.bound.entries[k] == Entry(e.methods, ms[i].data)
      && EventsFor(out.events, k) ==
           Repeat(Update(k, e.methods, ms[i].data, snapshot),
                  if e.methods.caps.update && ms[i].data != e.data then |ms[i].matchedBy| else 0)
  {
    CycleFor(s, bindings, snapshot, ms, ms[i].key);
    ScanKey(Pass(s.bound, Empty(), s.serial, []), bindings, snapshot, ms, i);
  }

  /** A path not matched now is not bound after the call; if it was bound
      before, `delete(state)` with the new snapshot is the only call made for
      it, made when its instance has `delete`; otherwise nothing is called. */
  lemma CycleUnmatchedKey(s: Store, bindings: map<Pattern, Caps>, snapshot: Ref, ms: seq<Match>, k: Path)
    requires s.Valid() && Admissible(bindings, ms) && !Matched(ms, k)
    ensures var out := Cycle(s, bindings, snapshot, ms);
      && !out.after.bound.Has(k)
      && EventsFor(out.events, k) ==
           if s.bound.Has(k) && s.bound.entries[k].methods.caps.delete
           then [Delete(k, s.bound.entries[k].methods, snapshot)] else []
  {
    CycleFor(s, bindings, snapshot, ms, k);
    ScanUntouched(Pass(s.bound, Empty(), s.serial, []), bindings, snapshot, ms, k);
  }

  // ---------------------------------------------------------------------------
  // Order of `nextBound` and of the calls

  /** The inner loop adds `key` to `nextBound` once, at the end, if it was not
      there already. */
  lemma {:induction false} VisitAllNextKeys(p: Pass, bindings: map<Pattern, Caps>, state: Ref, key: Path, data: Ref, decls: seq<Pattern>)
    requires Declared(bindings, decls)
    ensures VisitAll(p, bindings, state, key, data, decls).next.keys ==
      p.next.keys + (if decls != [] && !p.next.Has(key) then [key] else [])
    decreases |decls|
  {
    if decls != [] {
      var ds := decls[..|decls| - 1];
      VisitAllNextKeys(p, bindings, state, key, data, ds);
      if ds != [] {
        VisitAllKey(p, bindings, state, key, data, ds);
      }
    }
  }

  /** The match loop adds the matched paths to `nextBound` in report order. */
  lemma {:induction false} ScanNextKeys(p: Pass, bindings: map<Pattern, Caps>, state: Ref, ms: seq<Match>)
    requires Admissible(bindings, ms) && DistinctKeys(ms)
    requires forall i | 0 <= i < |ms| :: !p.next.Has(ms[i].key)
    ensures Scan(p, bindings, state, ms).next.keys == p.next.keys + MatchedKeys(ms)
    decreases |ms|
  {
    if ms != [] {
      var n := |ms|;
      var ms' := ms[..n - 1];
      var m := ms[n - 1];
      assert DistinctKeys(ms') by {
        forall a, b | 0 <= a < b < |ms'| ensures ms'[a].key != ms'[b].key {
          assert ms'[a] == ms[a] && ms'[b] == ms[b];
        }
      }
      assert !Matched(ms', m.key) by {
        forall j | 0 <= j < |ms'| ensures ms'[j].key != m.key {
          assert ms'[j] == ms[j];
        }
      }
      ScanNextKeys(p, bindings, state, ms');
      ScanUntouched(p, bindings, state, ms', m.key);
      var q' := Scan(p, bindings, state, ms');
      VisitAllNextKeys(q', bindings, state, m.key, m.data, m.matchedBy);
    }
  }

  /** The calls of `ev` from position `from` on follow the order of the
      reports in `ms`: a call for a later report never precedes one for an
      earlier report. */
  ghost predicate InReportOrder(ev: seq<Event>, from: nat, ms: seq<Match>) {
    forall a, b, i, j | from <= a < b < |ev| && 0 <= i < |ms| && 0 <= j < |ms| &&
        ev[a].key == ms[i].key && ev[b].key == ms[j].key :: i <= j
  }

  /** The calls the match loop makes for an earlier report all come before
      those for a later one. */
  lemma {:induction false} ScanOrder(p: Pass, bindings: map<Pattern, Caps>, state: Ref, ms: seq<Match>)
    requires Admissible(bindings, ms) && DistinctKeys(ms)
    ensures InReportOrder(Scan(p, bindings, state, ms).fired, |p.fired|, ms)
    decreases |ms|
  {
    if ms != [] {
      var n := |ms|;
      var ms' := ms[..n - 1];
      var m := ms[n - 1];
      assert DistinctKeys(ms') by {
        forall a, b | 0 <= a < b < |ms'| ensures ms'[a].key != ms'[b].key {
          assert ms'[a] == ms[a] && ms'[b] == ms[b];
        }
      }
      assert !Matched(ms', m.key) by {
        forall j | 0 <= j < |ms'| ensures ms'[j].key != m.key {
          assert ms'[j] == ms[j];
        }
      }
      var q' := Scan(p, bindings, state, ms');
      var q := VisitAll(q', bindings, state, m.key, m.data, m.matchedBy);
      assert Scan(p, bindings, state, ms) == q;
      ScanOrder(p, bindings, state, ms');
      assert p.fired <= q'.fired && forall a | |p.fired| <= a < |q'.fired| :: q'.fired[a].key != m.key by {
        ScanUntouched(p, bindings, state, ms', m.key);
      }
      assert q'.fired <= q.fired && forall a | |q'.fired| <= a < |q.fired| :: q.fired[a].key == m.key by {
        VisitAllTouches(q', bindings, state, m.key, m.data, m.matchedBy);
      }
      OrderExtend(q'.fired, q.fired, |p.fired|, ms);
    }
  }

  /** Appending calls for the last report, after calls that were in order and
      none of which was for it, keeps the calls in order. */
  lemma OrderExtend(before: seq<Event>, after: seq<Event>, from: nat, ms: seq<Match>)
    requires ms != [] && DistinctKeys(ms) && InReportOrder(before, from, ms[..|ms| - 1])
    requires from <= |before| && before <= after
    requires forall a | from <= a < |before| :: before[a].key != ms[|ms| - 1].key
    requires forall a | |before| <= a < |after| :: after[a].key == ms[|ms| - 1].key
    ensures InReportOrder(after, from, ms)
  {
    var n := |ms|;
    var ms' := ms[..n - 1];
    forall a, b, i, j | from <= a < b < |after| && 0 <= i < n && 0 <= j < n &&
        after[a].key == ms[i].key && after[b].key == ms[j].key
      ensures i <= j
    {
      if j < n - 1 {
        if b < |before| {
          assert after[a] == before[a] && after[b] == before[b];
          if i == n - 1 {
            assert false;
          }
          assert ms'[i] == ms[i] && ms'[j] == ms[j];
        } else {
          assert false;
        }
      }
    }
  }

  /** After the call `bound` holds exactly the matched paths, in report order. */
  lemma CycleCommit(s: Store, bindings: map<Pattern, Caps>, snapshot: Ref, ms: seq<Match>)
    requires s.Valid() && Admissible(bindings, ms) && DistinctKeys(ms)
    ensures Cycle(s, bindings, snapshot, ms).after.bound.keys == MatchedKeys(ms)
  {
    ScanNextKeys(Pass(s.bound, Empty(), s.serial, []), bindings, snapshot, ms);
  }

  /** Every `delete` comes after every `create` and `update` of the call, and
      the deletes are those of the keys bound before the call, in the order of
      `Object.keys(bound)`: a path bound during the call is never deleted by it. */
  lemma CycleDeletesLast(s: Store, bindings: map<Pattern, Caps>, snapshot: Ref, ms: seq<Match>)
    requires s.Valid() && Admissible(bindings, ms)
    ensures var out := Cycle(s, bindings, snapshot, ms);
      var dels := Deletions(s.bound.keys, s.bound.entries, out.after.bound.entries, snapshot);
      var n := |out.events| - |dels|;
      && 0 <= n && out.events[n..] == dels
      && forall a | 0 <= a < n :: !out.events[a].Delete?
  {
    var p0 := Pass(s.bound, Empty(), s.serial, []);
    var p := Scan(p0, bindings, snapshot, ms);
    ScanPreserves(p0, bindings, snapshot, ms);
    DeletionsExtended(s.bound.keys, p.bound.keys, s.bound.entries, p.bound.entries, p.next.entries, snapshot);
    var out := Cycle(s, bindings, snapshot, ms);
    assert out.events == p.fired + Deletions(s.bound.keys, s.bound.entries, p.next.entries, snapshot);
  }

  /** The creates and updates of a call follow the matcher's report order: the
      calls for an earlier path all come before those for a later one. */
  lemma CycleMatchOrder(s: Store, bindings: map<Pattern, Caps>, snapshot: Ref, ms: seq<Match>)
    requires s.Valid() && Admissible(bindings, ms) && DistinctKeys(ms)
    ensures var out := Cycle(s, bindings, snapshot, ms);
      forall a, b, i, j | 0 <= a < b < |out.events| && !out.events[b].Delete? &&
          0 <= i < |ms| && 0 <= j < |ms| && out.events[a].key == ms[i].key && out.events[b].key == ms[j].key :: i <= j
  {
    var p0 := Pass(s.bound, Empty(), s.serial, []);
    var p := Scan(p0, bindings, snapshot, ms);
    ScanPreserves(p0, bindings, snapshot, ms);
    ScanOrder(p0, bindings, snapshot, ms);
    var out := Cycle(s, bindings, snapshot, ms);
    var dels := Deletions(p.bound.keys, p.bound.entries, p.next.entries, snapshot);
    DeletionsOnly(p.bound.keys, p.bound.entries, p.next.entries, snapshot);
    assert out.events == p.fired + dels;
    forall a, b | 0 <= a < b < |out.events| && !out.events[b].Delete?
      ensures b < |p.fired| && out.events[a] == p.fired[a] && out.events[b] == p.fired[b]
    {
      if b >= |p.fired| {
        assert false;
      }
    }
  }

  // ---------------------------------------------------------------------------
  // Successive calls

  /** A call whose report names exactly the bound paths, in any order, each
      with data identical to the data recorded, leaves the entry of a bound
      path as it was. */
  lemma QuiescentEntry(s: Store, bindings: map<Pattern, Caps>, snapshot: Ref, ms: seq<Match>, k: Path)
    requires s.Valid() && Admissible(bindings, ms) && DistinctKeys(ms)
    requires forall o :: s.bound.Has(o) <==> Matched(ms, o)
    requires forall i | 0 <= i < |ms| && ms[i].matchedBy != [] ::
      ms[i].key in s.bound.entries && s.bound.entries[ms[i].key].data == ms[i].data
    requires k in s.bound.entries
    ensures var after := Cycle(s, bindings, snapshot, ms).after;
      k in after.bound.entries && after.bound.entries[k] == s.bound.entries[k]
  {
    assert s.bound.Has(k);
    var i :| 0 <= i < |ms| && ms[i].key == k && ms[i].matchedBy != [];
    CycleBoundKey(s, bindings, snapshot, ms, i);
  }

  /** The same call leaves every entry of `bound` as it was. */
  lemma QuiescentEntries(s: Store, bindings: map<Pattern, Caps>, snapshot: Ref, ms: seq<Match>)
    requires s.Valid() && Admissible(bindings, ms) && DistinctKeys(ms)
    requires forall o :: s.bound.Has(o) <==> Matched(ms, o)
    requires forall i | 0 <= i < |ms| && ms[i].matchedBy != [] ::
      ms[i].key in s.bound.entries && s.bound.entries[ms[i].key].data == ms[i].data
    ensures Cycle(s, bindings, snapshot, ms).after.bound.entries == s.bound.entries
  {
    var after := Cycle(s, bindings, snapshot, ms).after;
    assert forall k | k in after.bound.entries :: k in s.bound.entries by {
      CycleCommit(s, bindings, snapshot, ms);
      forall k | k in after.bound.entries ensures s.bound.Has(k) {
        assert k in after.bound.keys;
        MatchedKeysSpec(ms, k);
      }
    }
    forall k | k in s.bound.entries
      ensures k in after.bound.entries && after.bound.entries[k] == s.bound.entries[k]
    {
      QuiescentEntry(s, bindings, snapshot, ms, k);
    }
    SameMap(after.bound.entries, s.bound.entries);
  }

  /** Two maps with the same keys and the same values are equal. */
  lemma SameMap<K, V>(m1: map<K, V>, m2: map<K, V>)
    requires forall k | k in m1 :: k in m2
    requires forall k | k in m2 :: k in m1 && m1[k] == m2[k]
    ensures m1 == m2
  {
  }

  /** The same call makes no call for any path. */
  lemma QuiescentSilent(s: Store, bindings: map<Pattern, Caps>, snapshot: Ref, ms: seq<Match>, k: Path)
    requires s.Valid() && Admissible(bindings, ms) && DistinctKeys(ms)
    requires forall o :: s.bound.Has(o) <==> Matched(ms, o)
    requires forall i | 0 <= i < |ms| && ms[i].matchedBy != [] ::
      ms[i].key in s.bound.entries && s.bound.entries[ms[i].key].data == ms[i].data
    ensures EventsFor(Cycle(s, bindings, snapshot, ms).events, k) == []
  {
    if Matched(ms, k) {
      var i :| 0 <= i < |ms| && ms[i].key == k && ms[i].matchedBy != [];
      CycleBoundKey(s, bindings, snapshot, ms, i);
    } else {
      CycleUnmatchedKey(s, bindings, snapshot, ms, k);
    }
  }

  /** A call whose report names exactly the bound paths, in any order, each
      with data identical to the data recorded, makes no call at all and
      keeps every binding. When the report also lists the paths in the order
      of `bound`, `bound` is left exactly as it was, key order included. */
  lemma Quiescent(s: Store, bindings: map<Pattern, Caps>, snapshot: Ref, ms: seq<Match>)
    requires s.Valid() && Admissible(bindings, ms) && DistinctKeys(ms)
    requires forall o :: s.bound.Has(o) <==> Matched(ms, o)
    requires forall i | 0 <= i < |ms| && ms[i].matchedBy != [] ::
      ms[i].key in s.bound.entries && s.bound.entries[ms[i].key].data == ms[i].data
    ensures var out := Cycle(s, bindings, snapshot, ms);
      && out.events == []
      && out.after.bound.entries == s.bound.entries
      && (s.bound.keys == MatchedKeys(ms) ==> out.after.bound == s.bound)
  {
    var out := Cycle(s, bindings, snapshot, ms);
    CycleCommit(s, bindings, snapshot, ms);
    QuiescentEntries(s, bindings, snapshot, ms);
    if out.events != [] {
      EventsForContains(out.events, 0);
      QuiescentSilent(s, bindings, snapshot, ms, out.events[0].key);
      assert false;
    }
  }

  /** Calling the processor again with an update that changes nothing (the
      same snapshot, so the same report) makes no call and changes no binding. */
  lemma Idempotent(s: Store, bindings: map<Pattern, Caps>, snapshot: Ref, ms: seq<Match>)
    requires s.Valid() && Admissible(bindings, ms) && DistinctKeys(ms)
    ensures var first := Cycle(s, bindings, snapshot, ms);
      var second := Cycle(first.after, bindings, snapshot, ms);
      second.events == [] && second.after.bound == first.after.bound
  {
    var first := Cycle(s, bindings, snapshot, ms);
    CycleCommit(s, bindings, snapshot, ms);
    forall i | 0 <= i < |ms| && ms[i].matchedBy != []
      ensures ms[i].key in first.after.bound.entries && first.after.bound.entries[ms[i].key].data == ms[i].data
    {
      if s.bound.Has(ms[i].key) {
        CycleBoundKey(s, bindings, snapshot, ms, i);
      } else {
        CycleNewKey(s, bindings, snapshot, ms, i);
      }
    }
    forall o ensures first.after.bound.Has(o) <==> Matched(ms, o) {
      MatchedKeysSpec(ms, o);
    }
    Quiescent(first.after, bindings, snapshot, ms);
  }

  /** A path that one call did not match gets no `delete` from the next call:
      it was deleted (or never bound) once, and only a new match can bind it
      again. */
  lemma NoDeleteOnceGone(s: Store, bindings: map<Pattern, Caps>, snap1: Ref, ms1: seq<Match>,
                         snap2: Ref, ms2: seq<Match>, k: Path)
    requires s.Valid() && Admissible(bindings, ms1) && Admissible(bindings, ms2) && DistinctKeys(ms2)
    requires !Matched(ms1, k)
    ensures var first := Cycle(s, bindings, snap1, ms1);
      var second := Cycle(first.after, bindings, snap2, ms2);
      forall e | e in EventsFor(second.events, k) :: !e.Delete?
  {
    var first := Cycle(s, bindings, snap1, ms1);
    assert !first.after.bound.Has(k) by {
      CycleUnmatchedKey(s, bindings, snap1, ms1, k);
    }
    UnboundNoDelete(first.after, bindings, snap2, ms2, k);
  }

  /** A path that is not bound when a call starts gets no `delete` from it. */
  lemma UnboundNoDelete(s: Store, bindings: map<Pattern, Caps>, snapshot: Ref, ms: seq<Match>, k: Path)
    requires s.Valid() && Admissible(bindings, ms) && DistinctKeys(ms) && !s.bound.Has(k)
    ensures forall e | e in EventsFor(Cycle(s, bindings, snapshot, ms).events, k) :: !e.Delete?
  {
    if Matched(ms, k) {
      var i :| 0 <= i < |ms| && ms[i].key == k && ms[i].matchedBy != [];
      CycleNewKey(s, bindings, snapshot, ms, i);
    } else {
      CycleUnmatchedKey(s, bindings, snapshot, ms, k);
    }
  }

  // ---------------------------------------------------------------------------
  // Which paths get calls at all

  /** The match loop only makes calls for matched paths. */
  lemma {:induction false} ScanFiredKeys(p: Pass, bindings: map<Pattern, Caps>, state: Ref, ms: seq<Match>)
    requires Admissible(bindings, ms)
    ensures var q := Scan(p, bindings, state, ms);
      && p.fired <= q.fired
      && forall a | |p.fired| <= a < |q.fired| :: q.fired[a].key in MatchedKeys(ms)
    decreases |ms|
  {
    if ms != [] {
      var ms' := ms[..|ms| - 1];
      var m := ms[|ms| - 1];
      ScanFiredKeys(p, bindings, state, ms');
      var q' := Scan(p, bindings, state, ms');
      VisitAllTouches(q', bindings, state, m.key, m.data, m.matchedBy);
      var q := VisitAll(q', bindings, state, m.key, m.data, m.matchedBy);
      assert Scan(p, bindings, state, ms) == q;
      var mk := MatchedKeys(ms');
      assert MatchedKeys(ms) == mk + (if m.matchedBy != [] then [m.key] else []);
      forall a | |p.fired| <= a < |q.fired| ensures q.fired[a].key in MatchedKeys(ms) {
        if a < |q'.fired| {
          assert q.fired[a] == q'.fired[a];
          assert q'.fired[a].key in mk;
        } else {
          assert q.fired[a].key == m.key;
        }
      }
    }
  }

  /** A call only makes calls on behalf of paths it matched or paths bound
      before it. */
  lemma CycleScope(s: Store, bindings: map<Pattern, Caps>, snapshot: Ref, ms: seq<Match>)
    requires s.Valid() && Admissible(bindings, ms)
    ensures forall e | e in Cycle(s, bindings, snapshot, ms).events :: e.key in MatchedKeys(ms) || e.key in s.bound.keys
  {
    var p0 := Pass(s.bound, Empty(), s.serial, []);
    var p := Scan(p0, bindings, snapshot, ms);
    var dels := Deletions(s.bound.keys, s.bound.entries, p.next.entries, snapshot);
    assert Cycle(s, bindings, snapshot, ms).events == p.fired + dels by {
      ScanPreserves(p0, bindings, snapshot, ms);
      DeletionsExtended(s.bound.keys, p.bound.keys, s.bound.entries, p.bound.entries, p.next.entries, snapshot);
    }
    assert forall a | 0 <= a < |p.fired| :: p.fired[a].key in MatchedKeys(ms) by {
      ScanFiredKeys(p0, bindings, snapshot, ms);
    }
    assert forall e | e in dels :: e.key in s.bound.keys by {
      DeletionsOnly(s.bound.keys, s.bound.entries, p.next.entries, snapshot);
    }
    forall e | e in p.fired + dels ensures e.key in MatchedKeys(ms) || e.key in s.bound.keys {
      if e !in dels {
        var a :| 0 <= a < |p.fired| && p.fired[a] == e;
      }
    }
  }

  // ---------------------------------------------------------------------------
  // Whole traces

  /** A path not yet bound, matched by one declaration: a new instance and,
      when it has `create`, one call. */
  lemma VisitOnceNew(q: Pass, bindings: map<Pattern, Caps>, state: Ref, key: Path, data: Ref, decl: Pattern)
    requires decl in bindings && !q.bound.Has(key)
    ensures var r := VisitAll(q, bindings, state, key, data, [decl]);
      var inst := Instance(q.serial, decl, bindings[decl]);
      && r.fired == q.fired + (if inst.caps.create then [Create(key, inst, data, state)] else [])
      && r.serial == q.serial + 1
  {
    assert [decl][..0] == [];
  }

  /** On a processor that has bound nothing yet, paths each matched by one
      declaration whose instances have `create` get one `create` each, in
      report order, from instances made in that order. */
  lemma {:induction false} FreshScan(bindings: map<Pattern, Caps>, state: Ref, ms: seq<Match>)
    requires Admissible(bindings, ms) && DistinctKeys(ms)
    requires forall i | 0 <= i < |ms| :: |ms[i].matchedBy| == 1 && ms[i].matchedBy[0] in bindings && bindings[ms[i].matchedBy[0]].create
    ensures var q := Scan(Pass(Empty(), Empty(), 0, []), bindings, state, ms);
      && q.serial == |ms| && |q.fired| == |ms|
      && forall i | 0 <= i < |ms| ::
           q.fired[i] == Create(ms[i].key, Instance(i, ms[i].matchedBy[0], bindings[ms[i].matchedBy[0]]), ms[i].data, state)
    decreases |ms|
  {
    if ms != [] {
      var n := |ms|;
      var ms' := ms[..n - 1];
      var m := ms[n - 1];
      var p := Pass(Empty(), Empty(), 0, []);
      assert DistinctKeys(ms') by {
        forall a, b | 0 <= a < b < |ms'| ensures ms'[a].key != ms'[b].key {
          assert ms'[a] == ms[a] && ms'[b] == ms[b];
        }
      }
      assert !Matched(ms', m.key) by {
        forall j | 0 <= j < |ms'| ensures ms'[j].key != m.key {
          assert ms'[j] == ms[j];
        }
      }
      FreshScan(bindings, state, ms');
      ScanUntouched(p, bindings, state, ms', m.key);
      var q' := Scan(p, bindings, state, ms');
      var d := m.matchedBy[0];
      assert m.matchedBy == [d];
      VisitOnceNew(q', bindings, state, m.key, m.data, d);
      var q := Scan(p, bindings, state, ms);
      assert q == VisitAll(q', bindings, state, m.key, m.data, [d]);
      forall i | 0 <= i < n
        ensures q.fired[i] == Create(ms[i].key, Instance(i, ms[i].matchedBy[0], bindings[ms[i].matchedBy[0]]), ms[i].data, state)
      {
        if i < n - 1 {
          assert ms'[i] == ms[i];
          assert q.fired[i] == q'.fired[i];
        }
      }
    }
  }

  /** When every key walked is missing from `nextBound` and its instance has
      `delete`, the delete loop calls `delete` for each, in key order. */
  lemma {:induction false} DeletionsAll(keys: seq<Path>, bound: map<Path, Entry>, next: map<Path, Entry>, state: Ref)
    requires forall k | k in keys :: k in bound && k !in next && bound[k].methods.caps.delete
    ensures var r := Deletions(keys, bound, next, state);
      |r| == |keys| && forall i | 0 <= i < |keys| :: r[i] == Delete(keys[i], bound[keys[i]].methods, state)
    decreases |keys|
  {
    if keys != [] {
      var ks := keys[..|keys| - 1];
      DeletionsAll(ks, bound, next, state);
      var r := Deletions(keys, bound, next, state);
      forall i | 0 <= i < |keys| ensures r[i] == Delete(keys[i], bound[keys[i]].methods, state) {
        if i < |ks| {
          assert keys[i] == ks[i];
        }
      }
    }
  }
}
