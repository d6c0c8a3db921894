/** The expectations of one-way-data-binding-library.test.mjs, each stated as
    a verified method or lemma on fresh `Processor`s. A test's `update`
    function becomes the snapshot that `produce` returns, and the test's
    object shape becomes the matcher's report on that snapshot. Plain objects,
    snapshots included, get fresh refs, kept apart from the numbers a test
    uses; numbers are their own refs, as `!==` compares numbers other than NaN
    by value. A counter such as `runs` is the number of calls in the trace,
    because each test's instances have only the method that counts. */
module Scenarios {
  import opened Objects
  import opened Reconcile
  import opened Engine
  import opened Properties

  // ---------------------------------------------------------------------------
  // Calls on one path

  /** A call that reports one path, matched by one declaration, on a processor
      that has bound nothing or only that path: the path stays bound to one
      instance with the current data, and the only call is that instance's
      `create` (new path) or `update` (changed data). */
  lemma OnePath(s: Store, bindings: map<Pattern, Caps>, snapshot: Ref, k: Path, v: Ref, d: Pattern)
    requires s.Valid() && d in bindings && (s.bound.keys == [] || s.bound.keys == [k])
    ensures var out := Cycle(s, bindings, snapshot, [Match(k, v, [d])]);
      && out.after.bound.keys == [k] && k in out.after.bound.entries
      && out.after.bound.entries[k].data == v
      && (s.bound.Has(k) ==>
            var e := s.bound.entries[k];
            && out.after.bound.entries[k].methods == e.methods
            && out.events == if e.methods.caps.update && v != e.data then [Update(k, e.methods, v, snapshot)] else [])
      && (!s.bound.Has(k) ==>
            var inst := out.after.bound.entries[k].methods;
            && inst.caps == bindings[d]
            && out.events == if inst.caps.create then [Create(k, inst, v, snapshot)] else [])
  {
    var ms := [Match(k, v, [d])];
    OnePathOnly(s, bindings, snapshot, ms);
    if s.bound.Has(k) {
      CycleBoundKey(s, bindings, snapshot, ms, 0);
      var e := s.bound.entries[k];
      assert Repeat(Update(k, e.methods, v, snapshot), 1) == [Update(k, e.methods, v, snapshot)];
    } else {
      CycleNewKey(s, bindings, snapshot, ms, 0);
    }
  }

  /** Such a call binds only its path, and every call it makes is for it. */
  lemma OnePathOnly(s: Store, bindings: map<Pattern, Caps>, snapshot: Ref, ms: seq<Match>)
    requires s.Valid() && |ms| == 1 && ms[0].matchedBy != [] && Admissible(bindings, ms)
    requires s.bound.keys == [] || s.bound.keys == [ms[0].key]
    ensures var out := Cycle(s, bindings, snapshot, ms);
      && out.after.bound.keys == [ms[0].key]
      && EventsFor(out.events, ms[0].key) == out.events
  {
    assert MatchedKeys(ms) == [ms[0].key] by {
      assert ms[..0] == [];
    }
    CycleCommit(s, bindings, snapshot, ms);
    OnePathCalls(s, bindings, snapshot, ms);
  }

  /** Every call of such a call is for its path. */
  lemma OnePathCalls(s: Store, bindings: map<Pattern, Caps>, snapshot: Ref, ms: seq<Match>)
    requires s.Valid() && |ms| == 1 && Admissible(bindings, ms) && MatchedKeys(ms) == [ms[0].key]
    requires s.bound.keys == [] || s.bound.keys == [ms[0].key]
    ensures var out := Cycle(s, bindings, snapshot, ms);
      EventsFor(out.events, ms[0].key) == out.events
  {
    var out := Cycle(s, bindings, snapshot, ms);
    CycleScope(s, bindings, snapshot, ms);
    SoleKeyIn(out.events, ms[0].key, [ms[0].key]);
  }

  /** A call that reports nothing on a processor that has bound one path:
      the path is unbound, and its instance's `delete` is the only call. */
  lemma OnePathGone(s: Store, bindings: map<Pattern, Caps>, snapshot: Ref, k: Path)
    requires s.Valid() && s.bound.keys == [k]
    ensures var out := Cycle(s, bindings, snapshot, []);
      && out.after.bound.keys == []
      && k in s.bound.entries
      && out.events == if s.bound.entries[k].methods.caps.delete then [Delete(k, s.bound.entries[k].methods, snapshot)] else []
  {
    CycleCommit(s, bindings, snapshot, []);
    CycleScope(s, bindings, snapshot, []);
    CycleUnmatchedKey(s, bindings, snapshot, [], k);
    var out := Cycle(s, bindings, snapshot, []);
    forall i | 0 <= i < |out.events| ensures out.events[i].key == k {
      assert out.events[i] in out.events;
    }
    EventsForSole(out.events, k);
  }

  /** On a processor that has bound nothing, a call whose matched paths all
      get instances without `create` makes no call. */
  lemma QuietFirstCall(bindings: map<Pattern, Caps>, snapshot: Ref, ms: seq<Match>)
    requires Admissible(bindings, ms) && DistinctKeys(ms)
    requires forall i | 0 <= i < |ms| && ms[i].matchedBy != [] ::
      ms[i].matchedBy[0] in bindings && !bindings[ms[i].matchedBy[0]].create
    ensures Cycle(Store(0, Empty(), 0), bindings, snapshot, ms).events == []
  {
    var s := Store(0, Empty(), 0);
    var out := Cycle(s, bindings, snapshot, ms);
    CycleScope(s, bindings, snapshot, ms);
    if out.events != [] {
      var k := out.events[0].key;
      assert out.events[0] in out.events;
      EventsForContains(out.events, 0);
      MatchedKeysSpec(ms, k);
      var i :| 0 <= i < |ms| && ms[i].key == k && ms[i].matchedBy != [];
      CycleNewKey(s, bindings, snapshot, ms, i);
      assert false;
    }
  }

  /** The first call on a processor makes no `delete`. */
  lemma FirstCall(bindings: map<Pattern, Caps>, snapshot: Ref, ms: seq<Match>)
    requires Admissible(bindings, ms)
    ensures Cycle(Store(0, Empty(), 0), bindings, snapshot, ms).events ==
            Scan(Pass(Empty(), Empty(), 0, []), bindings, snapshot, ms).fired
  {
    var p0 := Pass(Empty(), Empty(), 0, []);
    var p := Scan(p0, bindings, snapshot, ms);
    ScanPreserves(p0, bindings, snapshot, ms);
    DeletionsExtended([], p.bound.keys, map[], p.bound.entries, p.next.entries, snapshot);
  }

  /** A call that reports nothing unbinds every path and calls `delete` for
      each, in the order of `Object.keys(bound)`, when all instances have it. */
  lemma RemoveAll(s: Store, bindings: map<Pattern, Caps>, snapshot: Ref)
    requires s.Valid() && forall k | k in s.bound.entries :: s.bound.entries[k].methods.caps.delete
    ensures var out := Cycle(s, bindings, snapshot, []);
      && |out.events| == |s.bound.keys|
      && forall i | 0 <= i < |s.bound.keys| :: out.events[i] == Delete(s.bound.keys[i], s.bound.entries[s.bound.keys[i]].methods, snapshot)
  {
    DeletionsAll(s.bound.keys, s.bound.entries, map[], snapshot);
  }

  /** A new path is bound to an instance of its first declaration's factory. */
  lemma NewPathCaps(s: Store, bindings: map<Pattern, Caps>, snapshot: Ref, ms: seq<Match>, i: nat)
    requires s.Valid() && Admissible(bindings, ms) && DistinctKeys(ms)
    requires i < |ms| && ms[i].matchedBy != [] && !s.bound.Has(ms[i].key)
    ensures var after := Cycle(s, bindings, snapshot, ms).after;
      after.bound.Has(ms[i].key) && after.bound.entries[ms[i].key].methods.caps == bindings[ms[i].matchedBy[0]]
  {
    CycleNewKey(s, bindings, snapshot, ms, i);
  }

  /** A bound path whose instance has no `update` gets no call while matched. */
  lemma BoundPathQuiet(s: Store, bindings: map<Pattern, Caps>, snapshot: Ref, ms: seq<Match>, i: nat)
    requires s.Valid() && Admissible(bindings, ms) && DistinctKeys(ms)
    requires i < |ms| && ms[i].matchedBy != [] && s.bound.Has(ms[i].key)
    requires !s.bound.entries[ms[i].key].methods.caps.update
    ensures EventsFor(Cycle(s, bindings, snapshot, ms).events, ms[i].key) == []
  {
    CycleBoundKey(s, bindings, snapshot, ms, i);
  }

  /** When every call is for one of `keys`, and every key but `k` got no
      call, the calls for `k` are all the calls. */
  lemma SoleKeyIn(ev: seq<Event>, k: Path, keys: seq<Path>)
    requires forall e | e in ev :: e.key in keys
    requires forall o | o in keys && o != k :: EventsFor(ev, o) == []
    ensures EventsFor(ev, k) == ev
  {
    forall a | 0 <= a < |ev| ensures ev[a].key == k {
      assert ev[a] in ev;
      if ev[a].key != k {
        EventsForContains(ev, a);
        assert false;
      }
    }
    EventsForSole(ev, k);
  }

  /** After a first call whose every path matches the single declaration
      `d`, every bound path holds what `d`'s factory returned. */
  lemma FirstCallCaps(bindings: map<Pattern, Caps>, snapshot: Ref, ms: seq<Match>, d: Pattern)
    requires d in bindings && DistinctKeys(ms)
    requires forall i | 0 <= i < |ms| :: ms[i].matchedBy == [d]
    ensures var after := Cycle(Store(0, Empty(), 0), bindings, snapshot, ms).after;
      forall k | k in after.bound.entries :: after.bound.entries[k].methods.caps == bindings[d]
  {
    var s := Store(0, Empty(), 0);
    var after := Cycle(s, bindings, snapshot, ms).after;
    CycleCommit(s, bindings, snapshot, ms);
    AllMatched(ms);
    forall k | k in after.bound.entries ensures after.bound.entries[k].methods.caps == bindings[d] {
      assert k in MatchedKeys(ms);
      var i :| 0 <= i < |ms| && MatchedKeys(ms)[i] == k;
      NewPathCaps(s, bindings, snapshot, ms, i);
    }
  }

  /** Every reported path is matched. */
  lemma {:induction false} AllMatched(ms: seq<Match>)
    requires forall i | 0 <= i < |ms| :: ms[i].matchedBy != []
    ensures |MatchedKeys(ms)| == |ms| && forall i | 0 <= i < |ms| :: MatchedKeys(ms)[i] == ms[i].key
    decreases |ms|
  {
    if ms != [] {
      var ms' := ms[..|ms| - 1];
      AllMatched(ms');
      forall i | 0 <= i < |ms| ensures MatchedKeys(ms)[i] == ms[i].key {
        if i < |ms'| {
          assert ms'[i] == ms[i];
        }
      }
    }
  }

  // ---------------------------------------------------------------------------
  // The tests

  /** "executes create on a single json path match": one `create`. */
  method CreateOnSingleMatch() returns (runs: nat)
    ensures runs == 1
  {
    var d := "state.foo";
    var run := new Processor(map[d := Caps(true, false, false)], 0);
    var _ := run.Process(1, [Match("state.foo", 2, [d])]);
    OnePath(Store(0, Empty(), 0), run.bindings, 1, "state.foo", 2, d);
    runs := |run.trace|;
  }

  /** "allows classes to be used": the factory returns a class instance whose
      `create` sits on its prototype. The presence test reads inherited methods
      too, so the instance has `create`, and the top-level path `foo` gets one
      `create`. */
  method ClassInstance() returns (runs: nat)
    ensures runs == 1
  {
    var d := "foo";
    var run := new Processor(map[d := Caps(true, false, false)], 0);
    var _ := run.Process(1, [Match("foo", 2, [d])]);
    OnePath(Store(0, Empty(), 0), run.bindings, 1, "foo", 2, d);
    runs := |run.trace|;
  }

  /** "executes create on multiple matches at end of json path": one `create`
      per matched path. */
  method CreateOnMultipleMatches() returns (runs: nat)
    ensures runs == 2
  {
    var d := "state.*";
    var b := map[d := Caps(true, false, false)];
    var ms := [Match("state.foo", 2, [d]), Match("state.bar", 3, [d])];
    var run := new Processor(b, 0);
    var _ := run.Process(1, ms);
    FirstCall(b, 1, ms);
    FreshScan(b, 1, ms);
    runs := |run.trace|;
  }

  /** "executes create on multiple matches in the middle of json path": the
      wildcard sits between two fixed segments, and each concrete path through
      it gets one `create`. */
  method CreateOnMiddleMatches() returns (runs: nat)
    ensures runs == 2
  {
    var d := "state.*.test";
    var b := map[d := Caps(true, false, false)];
    var ms := [Match("state.foo.test", 2, [d]), Match("state.bar.test", 3, [d])];
    var run := new Processor(b, 0);
    var _ := run.Process(1, ms);
    FirstCall(b, 1, ms);
    FreshScan(b, 1, ms);
    runs := |run.trace|;
  }

  /** "executes an update when a field is updated" (both versions: the field
      replaced, or a field inside it changed, so that `produce` copies it):
      one `update`, with the new data and the new snapshot. */
  method UpdateOnChange() returns (trace: seq<Event>)
    ensures |trace| == 1 && trace[0].Update? && trace[0].data == 4 && trace[0].state == 3
  {
    var d := "state.foo";
    var b := map[d := Caps(false, true, false)];
    var run := new Processor(b, 0);
    var s0 := run.Current();
    var r := run.Process(1, [Match("state.foo", 2, [d])]);
    OnePath(s0, b, 1, "state.foo", 2, d);
    var s1 := r.Current();
    r := r.Process(3, [Match("state.foo", 4, [d])]);
    OnePath(s1, b, 3, "state.foo", 4, d);
    trace := run.trace;
  }

  /** "does not execute an update when a field is not updated": `produce`
      returns the same snapshot, so the matcher reports the same paths with
      the same data, and nothing is called. */
  method NoUpdateWhenUnchanged() returns (trace: seq<Event>)
    ensures trace == []
  {
    var foo, bar := "state.foo", "state.bar";
    var b := map[foo := Caps(false, true, false), bar := Caps(false, true, false)];
    var ms := [Match("state.foo", 2, [foo])];
    var run := new Processor(b, 0);
    var s0 := run.Current();
    var _ := run.Process(1, ms);
    QuietFirstCall(b, 1, ms);
    var _ := run.Process(1, ms);
    Idempotent(s0, b, 1, ms);
    trace := run.trace;
  }

  /** "executes a delete when a field is removed": one `delete`, given the new
      snapshot. */
  method DeleteWhenRemoved() returns (trace: seq<Event>)
    ensures |trace| == 1 && trace[0].Delete? && trace[0].key == "state.foo" && trace[0].state == 3
  {
    var d := "state.foo";
    var b := map[d := Caps(false, false, true)];
    var run := new Processor(b, 0);
    var s0 := run.Current();
    var r := run.Process(1, [Match("state.foo", 2, [d])]);
    OnePath(s0, b, 1, "state.foo", 2, d);
    var s1 := r.Current();
    r := r.Process(3, []);
    OnePathGone(s1, b, 3, "state.foo");
    trace := run.trace;
  }

  /** "executes multiple deletes when multiple fields are removed": two paths
      bound by instances with only `delete`, then a snapshot without them. */
  lemma TwoRemoved(b: map<Pattern, Caps>, d0: Pattern, d1: Pattern, k0: Path, k1: Path, v0: Ref, v1: Ref,
                   snap1: Ref, snap2: Ref)
    requires d0 in b && d1 in b && b[d0] == Caps(false, false, true) && b[d1] == Caps(false, false, true) && k0 != k1
    ensures var first := Cycle(Store(0, Empty(), 0), b, snap1, [Match(k0, v0, [d0]), Match(k1, v1, [d1])]);
      var second := Cycle(first.after, b, snap2, []);
      && first.events == []
      && |second.events| == 2 && second.events[0].Delete? && second.events[1].Delete?
      && second.events[0].key == k0 && second.events[1].key == k1
  {
    var s0 := Store(0, Empty(), 0);
    var ms := [Match(k0, v0, [d0]), Match(k1, v1, [d1])];
    QuietFirstCall(b, snap1, ms);
    var s1 := Cycle(s0, b, snap1, ms).after;
    CycleCommit(s0, b, snap1, ms);
    AllMatched(ms);
    NewPathCaps(s0, b, snap1, ms, 0);
    NewPathCaps(s0, b, snap1, ms, 1);
    AllDelete(s1, b, snap2, k0, k1);
  }

  /** The second call of the same test, on what the first left bound. */
  lemma AllDelete(s1: Store, b: map<Pattern, Caps>, snap2: Ref, k0: Path, k1: Path)
    requires s1.Valid() && s1.bound.keys == [k0, k1]
    requires s1.bound.Has(k0) && s1.bound.entries[k0].methods.caps.delete
    requires s1.bound.Has(k1) && s1.bound.entries[k1].methods.caps.delete
    ensures var second := Cycle(s1, b, snap2, []);
      && |second.events| == 2 && second.events[0].Delete? && second.events[1].Delete?
      && second.events[0].key == k0 && second.events[1].key == k1
  {
    forall k | k in s1.bound.entries ensures s1.bound.entries[k].methods.caps.delete {
      assert k in s1.bound.keys;
    }
    RemoveAll(s1, b, snap2);
  }

  method MultipleDeletes() returns (trace: seq<Event>)
    ensures |trace| == 2 && trace[0].Delete? && trace[1].Delete?
    ensures trace[0].key == "state.foo" && trace[1].key == "state.bar"
  {
    var foo, bar := "state.foo", "state.bar";
    var b := map[foo := Caps(false, false, true), bar := Caps(false, false, true)];
    var run := new Processor(b, 0);
    var r := run.Process(1, [Match("state.foo", 2, [foo]), Match("state.bar", 3, [bar])]);
    r := r.Process(4, []);
    TwoRemoved(b, foo, bar, "state.foo", "state.bar", 2, 3, 1, 4);
    trace := run.trace;
  }

  /** "runs two sequential updates", chaining the calls on the returned
      processor: one `update` per changed value. */
  method TwoSequentialUpdates() returns (runs: nat)
    ensures runs == 2
  {
    var d := "foo";
    var b := map[d := Caps(false, true, false)];
    var run := new Processor(b, 10);
    var r := run.Process(11, [Match("foo", 0, [d])]);
    r := r.Process(12, [Match("foo", 1, [d])]);
    r := r.Process(13, [Match("foo", 2, [d])]);
    UpdateChain(b, d, "foo", 0, 1, 2);
    runs := |run.trace|;
  }

  /** Three calls that report one path, matched by a declaration whose
      instances have only `update`, with data that changes identity each
      time: the first binds silently and each later one makes one `update`. */
  lemma UpdateChain(b: map<Pattern, Caps>, d: Pattern, k: Path, v0: Ref, v1: Ref, v2: Ref)
    requires d in b && b[d] == Caps(false, true, false) && v0 != v1 && v1 != v2
    ensures var c1 := Cycle(Store(10, Empty(), 0), b, 11, [Match(k, v0, [d])]);
      var c2 := Cycle(c1.after, b, 12, [Match(k, v1, [d])]);
      var c3 := Cycle(c2.after, b, 13, [Match(k, v2, [d])]);
      && c1.events == []
      && |c2.events| == 1 && c2.events[0].Update? && c2.events[0].data == v1
      && |c3.events| == 1 && c3.events[0].Update? && c3.events[0].data == v2
  {
    var c1 := Cycle(Store(10, Empty(), 0), b, 11, [Match(k, v0, [d])]);
    OnePath(Store(10, Empty(), 0), b, 11, k, v0, d);
    var c2 := Cycle(c1.after, b, 12, [Match(k, v1, [d])]);
    OnePath(c1.after, b, 12, k, v1, d);
    OnePath(c2.after, b, 13, k, v2, d);
  }

  /** "runs a create, update and delete": the last call made after each of
      three calls is `create`, then `update`, then `delete`. */
  method CreateUpdateDelete() returns (t1: seq<Event>, t2: seq<Event>, t3: seq<Event>)
    ensures |t1| == 1 && t1[0].Create?
    ensures |t2| == 2 && t2[..1] == t1 && t2[1].Update?
    ensures |t3| == 3 && t3[..2] == t2 && t3[2].Delete?
  {
    var d := "foo";
    var b := map[d := Caps(true, true, true)];
    var run := new Processor(b, 10);
    var s0 := run.Current();
    var _ := run.Process(11, [Match("foo", 0, [d])]);
    OnePath(s0, b, 11, "foo", 0, d);
    t1 := run.trace;
    var s1 := run.Current();
    var _ := run.Process(12, [Match("foo", 1, [d])]);
    OnePath(s1, b, 12, "foo", 1, d);
    t2 := run.trace;
    var s2 := run.Current();
    var _ := run.Process(13, []);
    OnePathGone(s2, b, 13, "foo");
    t3 := run.trace;
  }

  /** "exposes the updated state in the update method": `update` receives the
      new value. */
  method UpdatedDataExposed() returns (newData: Ref)
    ensures newData == 1
  {
    var d := "foo";
    var b := map[d := Caps(false, true, false)];
    var run := new Processor(b, 10);
    var s0 := run.Current();
    var r := run.Process(11, [Match("foo", 0, [d])]);
    OnePath(s0, b, 11, "foo", 0, d);
    var s1 := r.Current();
    r := r.Process(12, [Match("foo", 1, [d])]);
    OnePath(s1, b, 12, "foo", 1, d);
    newData := run.trace[0].data;
  }

  /** "allows for nested routes": the instance bound to "state.foo" drives a
      processor of its own, made by a separate `bind`, with the data it is
      given. That processor's `create` runs once, and running it changes
      nothing in the outer processor. */
  method NestedRoutes() returns (runs: nat)
    ensures runs == 1
  {
    var d := "state.foo";
    var outer := new Processor(map[d := Caps(true, true, true)], 0);
    var s0 := outer.Current();
    var _ := outer.Process(1, [Match("state.foo", 2, [d])]);
    OnePath(s0, outer.bindings, 1, "state.foo", 2, d);
    var before := outer.trace;
    // the outer instance's `create(data)` calls the inner processor with an
    // update returning `data`, so the inner snapshot is that object, ref 2
    var inner := new Processor(map["bar" := Caps(true, false, false)], 0);
    var i0 := inner.Current();
    var _ := inner.Process(2, [Match("bar", 3, ["bar"])]);
    OnePath(i0, inner.bindings, 2, "bar", 3, "bar");
    assert outer.trace == before && |before| == 1;
    runs := |inner.trace|;
  }

  /** Popping the last element of a list whose instances have only `delete`:
      the first call binds every element silently, and the call after the pop
      makes a single `delete`, for the popped element. */
  lemma PopLast(b: map<Pattern, Caps>, d: Pattern, ms: seq<Match>, m: Match, snap1: Ref, snap2: Ref)
    requires d in b && b[d] == Caps(false, false, true)
    requires m.matchedBy == [d] && forall i | 0 <= i < |ms| :: ms[i].matchedBy == [d]
    requires DistinctKeys(ms) && forall i | 0 <= i < |ms| :: ms[i].key != m.key
    ensures var first := Cycle(Store(0, Empty(), 0), b, snap1, ms + [m]);
      && first.events == []
      && m.key in first.after.bound.entries
      && Cycle(first.after, b, snap2, ms).events == [Delete(m.key, first.after.bound.entries[m.key].methods, snap2)]
  {
    var ms1 := ms + [m];
    assert DistinctKeys(ms1) && forall i | 0 <= i < |ms1| :: ms1[i].matchedBy == [d] by {
      forall i | 0 <= i < |ms| ensures ms1[i] == ms[i] {
      }
    }
    PopFirst(b, d, ms1, snap1);
    var s1 := Cycle(Store(0, Empty(), 0), b, snap1, ms1).after;
    assert ms1[..|ms1| - 1] == ms;
    PopSecond(s1, b, d, ms, m.key, snap2);
  }

  /** The first call of that test binds every element silently. */
  lemma PopFirst(b: map<Pattern, Caps>, d: Pattern, ms: seq<Match>, snap1: Ref)
    requires d in b && b[d] == Caps(false, false, true)
    requires DistinctKeys(ms) && forall i | 0 <= i < |ms| :: ms[i].matchedBy == [d]
    ensures var first := Cycle(Store(0, Empty(), 0), b, snap1, ms);
      && first.events == []
      && first.after.bound.keys == MatchedKeys(ms)
      && forall k | k in first.after.bound.entries :: first.after.bound.entries[k].methods.caps == Caps(false, false, true)
  {
    QuietFirstCall(b, snap1, ms);
    CycleCommit(Store(0, Empty(), 0), b, snap1, ms);
    FirstCallCaps(b, snap1, ms, d);
  }

  /** The call after the pop, on what the first call left bound: the reported
      elements are bound with the same data, and the popped one is last. */
  lemma PopSecond(s1: Store, b: map<Pattern, Caps>, d: Pattern, ms: seq<Match>, k: Path, snap2: Ref)
    requires d in b && s1.Valid() && DistinctKeys(ms) && forall i | 0 <= i < |ms| :: ms[i].matchedBy == [d]
    requires s1.bound.keys == MatchedKeys(ms) + [k]
    requires forall x | x in s1.bound.entries :: s1.bound.entries[x].methods.caps == Caps(false, false, true)
    ensures k in s1.bound.entries
    ensures Cycle(s1, b, snap2, ms).events == [Delete(k, s1.bound.entries[k].methods, snap2)]
  {
    var out := Cycle(s1, b, snap2, ms);
    var keys := s1.bound.keys;
    assert forall e | e in out.events :: e.key in keys by {
      CycleScope(s1, b, snap2, ms);
    }
    forall o | o in keys && o != k ensures EventsFor(out.events, o) == [] {
      MatchedKeysSpec(ms, o);
      var i :| 0 <= i < |ms| && ms[i].key == o && ms[i].matchedBy != [];
      BoundPathQuiet(s1, b, snap2, ms, i);
    }
    assert !Matched(ms, k) by {
      MatchedKeysSpec(ms, k);
      NotInFront(keys, MatchedKeys(ms), k);
    }
    assert EventsFor(out.events, k) == [Delete(k, s1.bound.entries[k].methods, snap2)] by {
      CycleUnmatchedKey(s1, b, snap2, ms, k);
    }
    SoleKeyIn(out.events, k, keys);
  }

  /** The last of a list of distinct keys is not among the ones before it. */
  lemma NotInFront(keys: seq<Path>, front: seq<Path>, k: Path)
    requires keys == front + [k] && forall i, j | 0 <= i < j < |keys| :: keys[i] != keys[j]
    ensures k !in front
  {
    forall j | 0 <= j < |front| ensures front[j] != k {
      assert front[j] == keys[j] && keys[|front|] == k;
    }
  }

  /** The pop test's report for the list `[1, 2, 3]` without its last
      element: two distinct paths, each matched by `d` alone, neither of them
      the last element's. */
  function PopFront(d: Pattern): (ms: seq<Match>)
    ensures DistinctKeys(ms)
    ensures forall i | 0 <= i < |ms| :: ms[i].matchedBy == [d] && ms[i].key != "state.foo[2]"
  {
    [Match("state.foo[0]", 1, [d]), Match("state.foo[1]", 2, [d])]
  }

  /** "runs a single delete on popping a list": one `delete`, for the popped
      element. */
  method SingleDeleteOnPop() returns (trace: seq<Event>)
    ensures |trace| == 1 && trace[0].Delete? && trace[0].key == "state.foo[2]"
  {
    var d := "state.foo[*]";
    var b := map[d := Caps(false, false, true)];
    var ms := PopFront(d);
    var m := Match("state.foo[2]", 3, [d]);
    var run := new Processor(b, 0);
    var _ := run.Process(11, ms + [m]);
    var _ := run.Process(12, ms);
    PopLast(b, d, ms, m, 11, 12);
    trace := run.trace;
  }

  /** On a processor that has bound nothing, paths matched by one declaration
      whose instances have `create` each get one `create`, in report order,
      with their own data. */
  lemma CreatesInOrder(b: map<Pattern, Caps>, d: Pattern, ms: seq<Match>, snapshot: Ref)
    requires d in b && b[d].create
    requires DistinctKeys(ms) && forall i | 0 <= i < |ms| :: ms[i].matchedBy == [d]
    ensures var ev := Cycle(Store(0, Empty(), 0), b, snapshot, ms).events;
      |ev| == |ms| && forall i | 0 <= i < |ms| :: ev[i].Create? && ev[i].key == ms[i].key && ev[i].data == ms[i].data
  {
    FirstCall(b, snapshot, ms);
    FreshScan(b, snapshot, ms);
  }

  /** "runs creates in list order": the `create` calls receive the elements in
      list order. */
  method CreatesInListOrder() returns (order: seq<Ref>)
    ensures order == [1, 2, 3]
  {
    var d := "state.foo[*]";
    var b := map[d := Caps(true, false, false)];
    var ms := [Match("state.foo[0]", 1, [d]), Match("state.foo[1]", 2, [d]), Match("state.foo[2]", 3, [d])];
    var run := new Processor(b, 0);
    var _ := run.Process(10, ms);
    CreatesInOrder(b, d, ms, 10);
    order := [run.trace[0].data, run.trace[1].data, run.trace[2].data];
  }
}
