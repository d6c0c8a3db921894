/** `bind(bindings)` and the processor closure it returns
    (one-way-data-binding-library.mjs). The closure variables `state` and
    `bound` are the fields of a `Processor`; each lifecycle call the processor
    makes is appended to `trace`. */
module Engine {
  import opened Objects
  import opened Reconcile

  class Processor {
    /** The declarations: pattern to the capabilities of what its factory returns. */
    const bindings: map<Pattern, Caps>
    /** The current snapshot. */
    var state: Ref
    /** Concrete path to `{ methods, data }`. */
    var bound: Obj<Entry>
    /** Factory calls made so far. */
    var serial: nat
    /** Every create, update and delete call made so far, in order. */
    var trace: seq<Event>

    ghost predicate Valid()
      reads this
    {
      Current().Valid()
    }

    /** The closure state, as a value. */
    function Current(): (r: Store)
      reads this
    {
      Store(state, bound, serial)
    }

    /** `bind(bindings)`: `state = {}` (the object `initial`), `bound = {}`. */
    constructor (bindings: map<Pattern, Caps>, initial: Ref)
      ensures Valid() && this.bindings == bindings
      ensures Current() == Store(initial, Empty(), 0) && trace == []
    {
      this.bindings := bindings;
      state := initial;
      bound := Empty();
      serial := 0;
      trace := [];
    }

    /** `processor(update)`: `snapshot` is `produce(state, update)` and
        `matches` is the matcher's report on it. Returns the processor itself,
        so that calls can be chained. */
    method Process(snapshot: Ref, matches: seq<Match>) returns (self: Processor)
      requires Valid() && Admissible(bindings, matches)
      modifies this
      ensures self == this && Valid()
      ensures Current() == Cycle(old(Current()), bindings, snapshot, matches).after
      ensures trace == old(trace) + Cycle(old(Current()), bindings, snapshot, matches).events
    {
      state := snapshot;
      var nextBound: Obj<Entry> := Empty();
      ghost var fired: seq<Event> := [];
      ghost var start := Pass(bound, nextBound, serial, fired);

      var i := 0;
      while i < |matches|
        invariant 0 <= i <= |matches| && state == snapshot
        invariant Pass(bound, nextBound, serial, fired) == Scan(start, bindings, snapshot, matches[..i])
        invariant trace == old(trace) + fired
      {
        ScanSnoc(start, bindings, snapshot, matches, i);
        nextBound, fired := BindMatch(matches[i].key, matches[i].data, matches[i].matchedBy, nextBound, old(trace), fired);
        i := i + 1;
      }
      assert matches[..i] == matches;

      CycleSteps(old(Current()), bindings, snapshot, matches, Pass(bound, nextBound, serial, fired), old(trace));
      FireDeletes(nextBound);
      bound := nextBound;
      self := this;
    }

    /** The callback of the match loop for one `[key, data, matchedBy]`:
        `matchedBy.forEach(...)`. */
    method BindMatch(key: Path, data: Ref, matchedBy: seq<Pattern>, nextBound: Obj<Entry>,
                     ghost t0: seq<Event>, ghost fired: seq<Event>)
      returns (nextBound': Obj<Entry>, ghost fired': seq<Event>)
      requires Declared(bindings, matchedBy)
      requires trace == t0 + fired
      modifies this`bound, this`serial, this`trace
      ensures Pass(bound, nextBound', serial, fired') ==
              VisitAll(Pass(old(bound), nextBound, old(serial), fired), bindings, state, key, data, matchedBy)
      ensures trace == t0 + fired'
    {
      ghost var before := Pass(bound, nextBound, serial, fired);
      nextBound', fired' := nextBound, fired;
      var j := 0;
      while j < |matchedBy|
        invariant 0 <= j <= |matchedBy|
        invariant Declared(bindings, matchedBy[..j])
        invariant Pass(bound, nextBound', serial, fired') == VisitAll(before, bindings, state, key, data, matchedBy[..j])
        invariant trace == t0 + fired'
      {
        VisitAllSnoc(before, bindings, state, key, data, matchedBy, j);
        ghost var cur := Pass(bound, nextBound', serial, fired');
        nextBound', fired' := BindDecl(key, data, matchedBy[j], nextBound', t0, fired');
        assert Pass(bound, nextBound', serial, fired') == Visit(cur, bindings, state, key, data, matchedBy[j]);
        j := j + 1;
      }
      assert matchedBy[..j] == matchedBy;
    }

    /** The callback of `matchedBy.forEach` for one declaration `decl`. */
    method BindDecl(key: Path, data: Ref, decl: Pattern, nextBound: Obj<Entry>,
                    ghost t0: seq<Event>, ghost fired: seq<Event>)
      returns (nextBound': Obj<Entry>, ghost fired': seq<Event>)
      requires decl in bindings
      requires trace == t0 + fired
      modifies this`bound, this`serial, this`trace
      ensures Pass(bound, nextBound', serial, fired') ==
              Visit(Pass(old(bound), nextBound, old(serial), fired), bindings, state, key, data, decl)
      ensures trace == t0 + fired'
    {
      fired' := fired;
      if !bound.Has(key) {
        // No binding exists for this key: bind it and call create
        var inst := Instance(serial, decl, bindings[decl]);
        bound := bound.Put(key, Entry(inst, data));
        serial := serial + 1;
        if inst.caps.create {
          trace := trace + [Create(key, inst, data, state)];
          fired' := fired' + [Create(key, inst, data, state)];
        }
      } else if bound.entries[key].methods.caps.update && data != bound.entries[key].data {
        // Binding exists and the data reference has changed: call update
        var inst := bound.entries[key].methods;
        trace := trace + [Update(key, inst, data, state)];
        fired' := fired' + [Update(key, inst, data, state)];
      }
      nextBound' := nextBound.Put(key, Entry(bound.entries[key].methods, data));
    }

    /** The `Object.keys(bound).forEach` loop: every key missing from
        `nextBound` gets `delete(state)` when its instance has one. */
    method FireDeletes(nextBound: Obj<Entry>)
      requires bound.Valid()
      modifies this`trace
      ensures trace == old(trace) + Deletions(bound.keys, bound.entries, nextBound.entries, state)
    {
      var keys := bound.keys;
      var k := 0;
      while k < |keys|
        invariant 0 <= k <= |keys|
        invariant trace == old(trace) + Deletions(keys[..k], bound.entries, nextBound.entries, state)
      {
        var key := keys[k];
        DeletionsSnoc(keys, bound.entries, nextBound.entries, state, k);
        if !nextBound.Has(key) {
          var methods := bound.entries[key].methods;
          if methods.caps.delete {
            trace := trace + [Delete(key, methods, state)];
          }
        }
        k := k + 1;
      }
      assert keys[..k] == keys;
    }
  }
}
