# One-way data binding reconciler, modelled in Dafny

`bind(bindings)` takes an object of declarations: a JSON-path pattern maps to
a factory. It returns a `processor` closure that owns two variables:

- `state`, the current immutable snapshot;
- `bound`, a map from each concrete matched path to `{ methods, data }`.

Each call `processor(update)` runs one reconciliation cycle:

1. It makes the next snapshot with `produce`.
2. It asks the matcher for `[key, value, matchedBy]` triples.
3. For every triple and every matching declaration it first does one of two things:
   - binds an unbound path to a new instance and calls its `create`;
   - calls `update` on a bound path whose data is no longer `===` the data recorded in `bound`.

   Either way, it then records the instance with the new data in a fresh `nextBound`. The entry in `bound`, data included, is never refreshed during the cycle, so every matching declaration compares against the same old data.
4. It calls `delete(state)` for every path of `bound` that `nextBound` lacks.
5. It commits `bound = nextBound` and returns itself.

The model keeps that shape:

- `objects.dfy` (`Objects`): a JavaScript plain object used as a dictionary. Its keys are listed in first-assignment order.
- `reconcile.dfy` (`Reconcile`): the entities and the cycle as pure functions.
  - `Visit` is one `matchedBy` iteration.
  - `VisitAll` is the inner loop.
  - `Scan` is the match loop.
  - `Deletions` is the delete loop.
  - `Cycle` is one whole call.
  - Lemmas show that bound instances stay owned and distinct.
- `engine.dfy` (`Engine`): the closure as a class `Processor`.
  - `state` and `bound` are fields, and the closure's two loops are `while` loops.
  - Every call of `create`, `update` or `delete` is appended to `trace`.
  - `Process` is proved equal to `Cycle`, iteration by iteration.
- `properties.dfy` (`Properties`): what one cycle, and two cycles in a row, do for each path.
- `scenarios.dfy` (`Scenarios`): the expectations of the test suite, each stated as a verified method or lemma on new `Processor`s.
- `findings.dfy` (`Findings`): the path test as written, with JavaScript's `in`.

Modelling choices:

- Value identity (`===`, `!==`) is equality of a `Ref`. Objects are compared by reference and primitives other than NaN by value.
- A factory call yields an `Instance` whose `serial` stands for the identity of the returned object. Its `Caps` say which of `create`, `update` and `delete` it has.
- The matcher's report and the snapshot from `produce` are inputs to `Process`. A report is a sequence of matches; the lemmas that need it require the paths to be distinct.

## Model

| member | source | states |
|---|---|---|
| `Engine.Processor.constructor` | one-way-data-binding-library.mjs:4-6 | `bind` starts with the given snapshot, an empty `bound`, no factory calls and no lifecycle calls |
| `Engine.Processor.Process` | one-way-data-binding-library.mjs:8-45 | The processor becomes `Cycle`'s outcome and appends exactly `Cycle`'s calls to the trace. It returns itself, so chained calls are successive cycles on the same state |
| `Engine.Processor.BindMatch` | one-way-data-binding-library.mjs:17-33 | The `matchedBy.forEach` loop for one match leaves `bound`, `nextBound`, the factory count and the trace exactly as the `VisitAll` fold over its declarations |
| `Engine.Processor.BindDecl` | one-way-data-binding-library.mjs:19-32 | One declaration's iteration equals `Visit`: create on an unbound path, update on changed data, otherwise no call; the path is always carried into `nextBound` |
| `Engine.Processor.FireDeletes` | one-way-data-binding-library.mjs:36-41 | The delete loop appends exactly `Deletions` over the keys of `bound`, in key order |
| `Objects.Obj.Put` | one-way-data-binding-library.mjs:22 | `obj[k] = v` sets `k`, leaves every other key and value alone, and appends `k` to the key order only if it was new |
| `Objects.Empty` | one-way-data-binding-library.mjs:11 | `{}` has no keys |
| `Reconcile.Cycle` | one-way-data-binding-library.mjs:8-45 | A cycle leaves a well-formed store whose snapshot is the new one; the factory count never decreases |
| `Reconcile.Visit` | one-way-data-binding-library.mjs:19-32 | One `matchedBy` iteration. Its behaviour is stated by `Properties.VisitNew` and `Properties.VisitBound` |
| `Reconcile.VisitAll` | one-way-data-binding-library.mjs:19-33 | The `matchedBy.forEach` loop for one match. Its behaviour is stated by `Properties.VisitAllKey` and `Reconcile.VisitAllTouches` |
| `Reconcile.Scan` | one-way-data-binding-library.mjs:17-34 | The loop over the matcher's report. Its behaviour is stated by `Properties.ScanKey`, `Properties.ScanUntouched` and `Properties.ScanOrder` |
| `Reconcile.Deletions` | one-way-data-binding-library.mjs:36-41 | The delete loop over `Object.keys(bound)`. Its behaviour is stated by `Properties.DeletionsFor`, `Reconcile.DeletionsOnly` and `Properties.DeletionsAll` |
| `Reconcile.VisitPreserves` | one-way-data-binding-library.mjs:19-32 | One iteration keeps every instance owned and distinct. It only appends calls other than `delete`, leaves the path in both `bound` and `nextBound`, and records the new data in `nextBound` |
| `Reconcile.VisitAllTouches` | one-way-data-binding-library.mjs:19-33 | The iterations for one path call only on that path's behalf and change no other path |
| `Reconcile.ScanPreserves` | one-way-data-binding-library.mjs:17-34 | The match loop keeps every instance owned and distinct, and only appends calls |
| `Reconcile.DeletionsOnly` | one-way-data-binding-library.mjs:36-41 | Every call of the delete loop is a `delete` on a path bound before and absent from `nextBound`. It goes to that path's instance, which has `delete`, and receives the new snapshot |
| `Properties.VisitNew` | one-way-data-binding-library.mjs:21-25 | On an unbound path, one iteration binds a new instance of the declaration's factory in both `bound` and `nextBound`, with the current data. It adds a `create(data, state)` exactly when the instance has `create` |
| `Properties.VisitBound` | one-way-data-binding-library.mjs:27-32 | On a bound path, one iteration leaves `bound` unchanged and records the same instance with the new data in `nextBound`. It adds an `update(data, state)` exactly when the instance has `update` and the data is not `===` the recorded data |
| `Properties.VisitAllKey` | one-way-data-binding-library.mjs:19-33 | After the loop over `matchedBy`, the path is in both maps and `nextBound` records the latest data. A new path gets one instance, from the first declaration's factory, the only factory called, and one `create` exactly when the instance has `create`. A path bound before keeps its old entry in `bound`, data included, and gets one `update` per declaration when the instance has `update` and its data changed |
| `Properties.ScanUntouched` | one-way-data-binding-library.mjs:17-34 | A path the matcher did not report gets no call, and its entries in `bound` and `nextBound` stay unchanged |
| `Properties.ScanKey` | one-way-data-binding-library.mjs:19-32 | After the match loop, a reported path is in both maps and `nextBound` records its latest data. A path bound before keeps its old entry in `bound`, data included, and gets only `update`s, one per declaration when the instance has `update` and the data changed. A new path gets an instance of its first declaration's factory, recorded with the current data, and one `create` exactly when that instance has `create` |
| `Properties.CycleNewKey` | one-way-data-binding-library.mjs:21-25 | A matched path that was unbound gets a new instance of its first declaration's factory, unlike any instance already bound. The instance is recorded with the current data. `create(data, state)` is its only call, made once when it has `create`, so no `update` comes in the same cycle |
| `Properties.CycleSerial` | one-way-data-binding-library.mjs:21-22 | A call makes exactly one factory call per matched path that was not bound before it, and none for a bound path |
| `Properties.CycleBoundKey` | one-way-data-binding-library.mjs:27-32 | A matched path that was bound keeps its instance and records the new data. It gets one `update(data, state)` per matching declaration when the instance has `update` and the data is not `===` the recorded data, and no call otherwise |
| `Properties.CycleUnmatchedKey` | one-way-data-binding-library.mjs:36-43 | A path the cycle did not match is unbound afterwards. Its only call is one `delete(state)` with the new snapshot, made when it was bound and its instance has `delete` |
| `Properties.ScanSerial` | one-way-data-binding-library.mjs:17-34 | The match loop calls one factory per new matched path, however many declarations match it: after the first declaration binds the path, later ones see it bound |
| `Properties.DeletionsFor` | one-way-data-binding-library.mjs:36-41 | The delete loop makes at most one call per path: a `delete` exactly when the path is missing from `nextBound` and its instance has `delete` |
| `Properties.CycleCommit` | one-way-data-binding-library.mjs:43 | After commit, the bound paths are exactly the matched paths, in match order |
| `Properties.CycleDeletesLast` | one-way-data-binding-library.mjs:17-41 | Every `delete` of a cycle comes after all its `create` and `update` calls, and the `delete`s are exactly the delete loop's |
| `Properties.ScanOrder` | one-way-data-binding-library.mjs:17-34 | `create` and `update` calls follow the match order: a call for a later match never precedes one for an earlier match |
| `Properties.CycleFor` | one-way-data-binding-library.mjs:17-43 | The committed `bound` is the match loop's `nextBound`. A path's calls in a cycle are its match-loop calls, then one `delete` exactly when it was bound, is missing from `nextBound`, and its instance has `delete` |
| `Properties.CycleMatchOrder` | one-way-data-binding-library.mjs:17-41 | Within a whole cycle, `create` and `update` calls come in the matcher's order |
| `Properties.CycleScope` | one-way-data-binding-library.mjs:17-41 | Every call of a cycle is for a matched path or for a path bound before the cycle |
| `Properties.Quiescent` | one-way-data-binding-library.mjs:21-41 | A cycle whose report names exactly the bound paths, in any order, each with `===` data, makes no call and keeps every binding with its data. If the report also lists them in the order of `bound`, `bound` is unchanged, key order included |
| `Properties.Idempotent` | one-way-data-binding-library.mjs:8-45 | Repeating a cycle with the same snapshot and report makes no call and leaves `bound` unchanged |
| `Properties.NoDeleteOnceGone` | one-way-data-binding-library.mjs:36-43 | A path that a cycle did not match gets no `delete` in the next cycle |
| `Properties.UnboundNoDelete` | one-way-data-binding-library.mjs:21-41 | A path unbound before a cycle never gets a `delete` in it, whether it is matched or not |
| `Properties.FreshScan` | one-way-data-binding-library.mjs:17-25 | On a processor with nothing bound, every path matched by one declaration with `create` gets exactly one `create`, in match order, numbered by the factory calls |
| `Properties.DeletionsAll` | one-way-data-binding-library.mjs:36-41 | When every old path is gone and has `delete`, the delete loop calls `delete` once for each, in key order |
| `Scenarios.CreateOnSingleMatch` | one-way-data-binding-library.test.mjs:6-20 | A single match calls `create` once |
| `Scenarios.ClassInstance` | one-way-data-binding-library.test.mjs:240-256 | A factory returning a class instance, whose `create` is inherited from its prototype, gets one `create` for its path |
| `Scenarios.CreateOnMultipleMatches` | one-way-data-binding-library.test.mjs:22-36 | Two paths matched by a wildcard at the end of the pattern each get one `create` |
| `Scenarios.CreateOnMiddleMatches` | one-way-data-binding-library.test.mjs:38-52 | Two paths matched through a wildcard in the middle of the pattern each get one `create` |
| `Scenarios.UpdateOnChange` | one-way-data-binding-library.test.mjs:54-88 | Changed data gets one `update`, with the new data and the new snapshot |
| `Scenarios.NoUpdateWhenUnchanged` | one-way-data-binding-library.test.mjs:90-106 | The same snapshot again makes no call |
| `Scenarios.DeleteWhenRemoved` | one-way-data-binding-library.test.mjs:108-122 | A removed field gets one `delete` with the new snapshot |
| `Scenarios.MultipleDeletes` | one-way-data-binding-library.test.mjs:124-139 | Two removed fields get one `delete` each, in binding order |
| `Scenarios.TwoSequentialUpdates` | one-way-data-binding-library.test.mjs:141-161 | Chained calls on the returned processor make two `update`s |
| `Scenarios.UpdateChain` | one-way-data-binding-library.test.mjs:141-161 | For any path whose instance has only `update`, three calls whose data changes identity each time make no call, then one `update` with the new data, then another |
| `Scenarios.CreateUpdateDelete` | one-way-data-binding-library.test.mjs:163-192 | Three calls make a `create`, then an `update`, then a `delete` |
| `Scenarios.UpdatedDataExposed` | one-way-data-binding-library.test.mjs:194-212 | `update` receives the new data |
| `Scenarios.NestedRoutes` | one-way-data-binding-library.test.mjs:214-238 | A processor made by a second `bind` runs on its own state: its `create` runs once, and the outer processor's trace is untouched |
| `Scenarios.PopLast` | one-way-data-binding-library.test.mjs:258-275 | For any list of elements bound by a `delete`-only factory, the first call is silent. Dropping the last element in the next call makes a single `delete`, for that element's instance, with the new snapshot |
| `Scenarios.CreatesInOrder` | one-way-data-binding-library.test.mjs:277-291 | On a fresh processor, a report matched by one `create` declaration makes one `create` per element, carrying that element's path and value, in report order |
| `Scenarios.SingleDeleteOnPop` | one-way-data-binding-library.test.mjs:258-275 | The processor's trace for the pop test is a single `delete` of the last element |
| `Scenarios.CreatesInListOrder` | one-way-data-binding-library.test.mjs:277-291 | `create` receives the list elements in list order |
| `Findings.VisitAsWritten` | one-way-data-binding-library.mjs:21-32 | With JavaScript's `in`, an iteration throws exactly for an unbound path named like an `Object.prototype` property. Otherwise it equals `Visit` |
| `Findings.ConstructorPathThrows` | one-way-data-binding-library.mjs:21-28 | The first report of a path "constructor" throws |
| `Findings.ConstructorPathBinds` | one-way-data-binding-library.mjs:21-25 | With the own-key test, that path is bound to a new instance, and `create` is called when the instance has it |

## Left out

- The matcher (`object-scan`, lines 1 and 13-17) is not modelled. `Process` takes its report as a sequence of `[key, value, matchedBy]` matches, and the lemmas about a cycle assume the reported paths are distinct.
- Immer's `produce` (lines 2 and 9) is not modelled. Its result is an input `Ref`. The scenarios state what a test's `update` function makes `produce` return: the same ref when nothing changed, a new ref for a copied object.
- `console.log` (lines 18 and 38) is left out because it is output only.
- The bodies of factories and lifecycle methods are left out. A factory call yields an `Instance` with capability flags. A lifecycle call is an `Event` appended to the trace, so what a callback does is outside the model.
- Exceptions thrown by callbacks, and re-entrant calls into the same processor, are left out. In `Scenarios.NestedRoutes` the inner processor runs after the outer call rather than inside its `create`. Since the two processors share no state, the order does not change either trace.
- `Object.keys` lists integer-like keys first, in numeric order. The model keeps plain insertion order. The two differ only when a path is a bare integer, such as a top-level field named "1"; then the order of `delete` calls within one cycle differs.
- Properties.Idempotent: assumes that no matched path holds NaN. In JavaScript `NaN !== NaN`, so a bound path holding NaN whose instance has `update` gets `update` on every call, even with the same snapshot. The model compares values by `Ref`, so a NaN value is faithful only if it gets a fresh `Ref` in every report, and then the lemma's premise of an unchanged report does not hold.
- Properties.Quiescent: assumes that no matched path holds NaN, for the same reason: "`===` data" never holds for NaN.
- Properties.CycleNewKey: factories are assumed to return a new object on every call, with one capability set per declaration (`bindings` maps a pattern to one `Caps`). A factory is opaque code (line 22) and the source promises neither. A factory returning one shared object would bind two paths to it, so that object would receive both paths' calls. A factory whose results differ would give instances of one declaration different methods. Every factory in the test file returns a new object with fixed methods. The distinctness in `Owned`, stated by `Reconcile.VisitPreserves` and `Reconcile.ScanPreserves`, and the conjunct of `Properties.CycleNewKey` that the new instance differs from every bound one, rest on this assumption.
- Caps: a lifecycle method counts as present when it is truthy, as at lines 23 and 28. Line 39 calls `delete` with `?.`, so a falsy but non-nullish `delete` (such as `false`) throws a TypeError there. The model treats it as absent and skips the call.
- The test `nextBound[key] === undefined` on line 37 is left out because it can never hold: every value stored in `nextBound` is an object.
- `Reconcile.Cycle` states only well-formedness and the new snapshot. What a cycle does is stated by the lemmas in `Properties`.

## Findings

| source | as written | input that shows it | evidently intended | confidence | as-written member | corrected member |
|---|---|---|---|---|---|---|
| one-way-data-binding-library.mjs:21 | `key in bound` also sees names inherited from `Object.prototype`. So an unbound path "constructor" passes as bound, and `bound[key].methods.update` then reads a property of `undefined` and throws a TypeError | bindings `{ constructor: factory }`, update `() => ({ constructor: {} })` | An unbound path is bound and its `create` called, whatever its name. That needs own-key tests both at line 21 and at line 37 (`key in nextBound`): with line 21 fixed alone, a bound path "constructor" that disappears still passes line 37's test and gets no `delete`. For "__proto__" an own-key test is not enough either, since assigning `bound["__proto__"]` sets the prototype; `bound` and `nextBound` must then be prototype-less objects (`Object.create(null)`). `Reconcile.Visit` and `Reconcile.Deletions` model both tests as own-key tests | not executed | `Findings.ConstructorPathThrows` | `Findings.ConstructorPathBinds` |
