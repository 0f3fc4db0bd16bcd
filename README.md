# docker-fu: drop dispatch and container reconciliation, in Dafny

This project models two parts of docker-fu (the "ydm" tool).

**The performer** (`lib/performer.js`) is a closure created for one drop name.
- It looks up the drop's factory in the `ydm.drops` registry once.
- It builds the drop lazily, at most once provided the factory returns: the factory yields a drop type, and one instance of it is created.
- `canPerform(action)` answers `{ok, reason}`: ok when the drop defines the action, and a reason when there is no factory or the action is missing.
- `perform(action, cb)` builds the drop if needed, then calls the named action with `cb` as its only argument.

In `performer.dfy` this is the class `Performer.Performer`:
- its fields are the two slots `Drop`/`drop`;
- ghost fields count how often the factory was called and record every dispatched action;
- a drop is represented by the set of action names it defines.

**The reconciliation engine `State`**, as its test file `test/lib/state_test.js` pins it down, is two things.
- `pullImage` turns a pull reply into an error or `null`. An in-band `error` field in a success-status body counts as an error.
- `apply(scope, config, cb)` is a sequenced decision procedure:
  1. Inspect the container by its stored id.
  2. If it is not found, check that `config.create` names an `Image`.
  3. Create the container.
  4. If the image is missing, pull it, and on success call `apply` again with the same scope and config.
  5. If the container exists, hand over to `ensure`.

In `state.dfy` one pass of `apply` is the step function `State.Step` over already-classified runtime answers, which yields the next call or how the pass ends. `State.Pass` is the whole path of one pass. `State.RunPass` runs that step machine as a loop and counts pulls and `ensure` calls. The re-entrant call after a successful pull is the `ReApply(scope, config)` outcome. `State.Apply` follows it by calling itself: it consumes one round of runtime answers per pass, until a pass ends some other way or the rounds run out. `State.Reconciliation` is the reference definition of that whole trace, and the lemmas about it state the promises the tests check:
- a single inspection per pass;
- every pass after the first follows a re-apply;
- `ensure` runs at most once, and only at the end;
- every call uses the original scope, config and image.

`wrappers.dfy` holds the `Option` type shared by both modules.

## Model

| member | source | states |
|---|---|---|
| Performer.Lookup | lib/performer.js:5 | The factory is present exactly when the registry holds the drop name, and then it is the registered one. |
| Performer.Decide | lib/performer.js:15-29 | `ok` holds iff there is a factory and the built drop defines the action. An `ok` answer carries no reason. With no factory the reason is the "has no factory" text for that drop. With a factory but a missing action the reason is `"Drop does not define " + action`. |
| Performer.MissingActionReasonNamesAction | lib/performer.js:22 | The missing-action reason is the fixed prefix followed by exactly the action's name, which can be read back from it. |
| Performer.MissingActionReasonInjective | lib/performer.js:22 | Two different actions never yield the same missing-action reason. |
| Performer.NoFactoryReasonNamesDrop | lib/performer.js:26 | The no-factory reason quotes the drop name, between single quotes, right after `Drop `. |
| Performer.ReasonsAreDistinct | lib/performer.js:20-27 | A no-factory reason and a missing-action reason are never equal, so a caller can tell the two refusals apart. |
| Performer.Performer.constructor | lib/performer.js:4-7 | The factory is looked up once from the registry. Both slots start empty. The factory has not been called and nothing has been dispatched. |
| Performer.Performer.Build | lib/performer.js:9-13 | Afterwards the drop is built from `factory(argv, ydm)`, and the factory has been called exactly once over the performer's life. A second build changes nothing. |
| Performer.Performer.CanPerform | lib/performer.js:15-29 | The answer is `Decide` for the actions of the one instance the factory produces. With a factory the drop is built afterwards. Without one it stays unbuilt and the factory is never called. The factory is called at most once, and nothing is dispatched. |
| Performer.Performer.Perform | lib/performer.js:31-35 | The drop is built, and the factory has run exactly once. If the drop defines the action, exactly that action is invoked with `cb` alone and recorded. Otherwise the call faults as "not a function" and nothing is invoked. |
| State.StoredId | test/lib/state_test.js:62-63 | The id used for inspection is the storage's `_id` entry when it has one, and absent otherwise. |
| State.ImageOf | test/lib/state_test.js:93-103 | The image is `config.create.Image` when configured, and absent otherwise. |
| State.PullImage | test/lib/state_test.js:21-47 | A reply body with an `error` field gives an error carrying that text. A body without one gives no error (`null`). A failed request gives its own error. |
| State.PullErrorMessageContainsText | test/lib/state_test.js:29-37 | For a body with an `error` field, the error's message contains that field's text. |
| State.PullWithoutErrorIsNull | test/lib/state_test.js:38-46 | A body without an `error` field gives a null error. |
| State.MissingImageMessageMatches | test/lib/state_test.js:67 | The validation message matches `/Missing.+Image/`: "Missing", then at least one character that is not a JavaScript line terminator (`\n`, `\r`, U+2028, U+2029), then "Image". |
| State.CarriageReturnDoesNotMatch | test/lib/state_test.js:67 | The match is as strict as the regular expression: `"Missing\rImage"` does not match, because `.` matches no line terminator. |
| State.Step | test/lib/state_test.js:49-140 | Each transition keeps a pending create carrying an image, and it strictly advances the order inspect, create, pull, end. So a pass always ends. |
| State.Path | test/lib/state_test.js:49-140 | The points a pass runs through from a point start there and end at a terminal point, with at most one point per remaining stage. |
| State.Pass | test/lib/state_test.js:49-140 | Every pass starts by inspecting the stored id and ends terminally after 2 to 4 points. |
| State.PassIsOutline | test/lib/state_test.js:49-140 | For every runtime answer, the step machine runs exactly the case table of `apply` (`State.Outline`). |
| State.ConnectionErrorPassesThrough | test/lib/state_test.js:50-57 | A connection error from the inspect call ends the pass with that error, with its `code` and `syscall` unchanged. |
| State.MissingImageFailsBeforeCreate | test/lib/state_test.js:60-70 | Container not found and no `Image` configured: the pass fails with a validation error matching `/Missing.+Image/` right after inspecting, before any create or pull. |
| State.MissingImagePullsOnce | test/lib/state_test.js:72-108 | Container not found and image missing at create: the pass inspects, creates with `config.create`, then pulls exactly once, with `config.create.Image`. |
| State.PullSuccessReApplies | test/lib/state_test.js:110-119 | After a successful pull the pass ends in exactly one re-apply, with the same scope and config, and without calling `ensure`. |
| State.PullFailureFails | test/lib/state_test.js:80-99 | Untested transition: the tests only stub the pull to succeed (line 95). The model assumes a failed pull ends the pass with the pull's error and no re-apply. |
| State.FoundCallsEnsureOnce | test/lib/state_test.js:125-140 | A container that exists leads straight to one `ensure` call, with no create and no pull. |
| State.CreatedCallsEnsure | test/lib/state_test.js:72-78 | Untested transition: the tests only have create answer 404 (line 77). The model assumes a container created on this pass also goes to `ensure`, and no image is pulled. |
| State.CreateFailureFails | test/lib/state_test.js:72-78 | Untested transition: the tests only have create answer 404 (line 77). The model assumes any other create failure reaches the caller unchanged. |
| State.PassCounts | test/lib/state_test.js:102-140 | Every pass inspects once. It re-applies once exactly when it ends in a re-apply, and calls `ensure` once exactly when it ends there. It pulls at most once, and never re-applies without a pull. |
| State.PassFaithful | test/lib/state_test.js:102-117 | Every point of a pass names that pass's own stored id, creation options, image, scope and config. |
| State.PassWellFormed | test/lib/state_test.js:102-140 | Every pass, whatever the runtime answers, has the shape, counts and faithfulness above. |
| State.RunPass | test/lib/state_test.js:49-140 | The loop's path is exactly `Pass`, and its pull and `ensure` counters equal the numbers of pulls and `ensure` calls on that path. |
| State.ChainEmpty | test/lib/state_test.js:110-119 | A chain of passes is empty exactly when no pass is left. |
| State.ChainEndsTerminal | test/lib/state_test.js:110-119 | A chain of passes ends at a terminal point: `ensure`, a failure, or a pending re-apply. |
| State.ChainFaithfulAt | test/lib/state_test.js:110-119 | Every point of a chain of re-applied passes names the original scope, config and image. |
| State.ChainEnsureCount | test/lib/state_test.js:132-136 | A chain calls `ensure` once if it ends there, and otherwise never. |
| State.ChainPassCounts | test/lib/state_test.js:106-119 | Each pass after the first follows a re-apply. Passes never outnumber the rounds, and all of them run when the chain stops on a pending re-apply. Every re-apply follows a pull, and there is at most one pull without a re-apply. |
| State.EnsureAtMostOnce | test/lib/state_test.js:132-136 | Over a whole reconciliation with retries, `ensure` is called once if the reconciliation ends there, and otherwise never. |
| State.ReconciliationCounts | test/lib/state_test.js:106-119 | A reconciliation is empty exactly when no round is given, and ends terminally. Its inspections number its re-applies plus one when it ends, or all the rounds when it stops on a pending re-apply. Pulls number the re-applies, or one more. |
| State.ReconciliationFaithful | test/lib/state_test.js:110-117 | Every call and re-apply of a whole reconciliation uses the original scope, config and image. |
| State.ReconciliationSummary | test/lib/state_test.js:106-136 | A whole reconciliation makes at most one pass per round and calls `ensure` at most once, and every point of it is faithful to the original arguments. |
| State.Apply | test/lib/state_test.js:110-119 | Calling itself after each re-apply, with the arguments the re-apply carries, yields exactly the chain of passes from `from` on, and so the whole `Reconciliation` from 0. Its pass, pull and `ensure` counters equal the counts on that trace. |

## Left out

- The HTTP remote API plumbing, the request mocks and the test scope builder are not modelled. Runtime responses enter as already-classified outcomes (`InspectOutcome`, `CreateOutcome`, `PullReply`), one set per pass (`Answers`).
- Sinon stubbing and restoring are left out. Only the calls they observe are modelled: which call is made, with which arguments, and how often.
- Asynchronous callback timing and the event loop are left out. Every step is taken in sequence.
- The callbacks handed to `apply` and `ensure` are not modelled as values. A pass ends in `CallEnsure`, `ReApply(scope, config)` or `Fail(err)`, and that outcome stands for the callback that would be invoked.
- Persistent scope storage is not modelled. A scope is a value, and storage is only the place the `_id` is read from.
    - The model assumes a pass writes no storage. If a pass wrote `_id` before a re-apply, the next pass in this model would still inspect the old id.
    - State.ReconciliationFaithful: its claim that every pass inspects the original stored id rests on that assumption.
- `ensure` and `getContainer` are not modelled: their implementations are not part of this model. `getContainer` and the exposed docker connection are only checked to exist (test/lib/state_test.js:11-19).
- The implementation file of `State` is not part of this model. The transitions follow the test file.
    - The tests do not exercise three transitions, so the model assumes them. A successful create goes to `ensure`. Any create failure other than a missing image reaches the caller unchanged. A failed pull reaches the caller unchanged, with no re-apply.
    - The missing-image check comes after the inspect call. The test mocks inspect first (test/lib/state_test.js:60-70). With `{ create: {} }` and a found container it goes to `ensure` (test/lib/state_test.js:134). So the model validates only after inspect reports the container missing, not before any runtime call.
- State.MissingImageMessageMatches: the exact text of the validation message comes from the missing implementation. The model uses its own text and proves only what the test asserts, a match of `/Missing.+Image/`.
- Performer.Performer.Build: a factory receives `argv` and the non-registry part of `ydm` (`Context`), not the whole `ydm` object. A value cannot contain functions that take that same value.
- Performer.Performer.Build: factories and `new Drop()` are assumed not to throw, because `Factory` is a total function.
    - In the source a throwing factory, or one that returns a non-constructor, leaves `drop` null (lib/performer.js:11-12).
    - The `if (drop) return` guard (line 10) then never fires, so the next `canPerform` or `perform` calls the factory again.
    - The "at most once" promise of `Build`, `CanPerform` and `Perform` holds only for factories that return.
- Performer.Decide: `drop[action]` is modelled as membership in the set of action names the drop defines. In JavaScript it is also truthy for inherited members such as `toString` or `constructor`, and the model does not force those names into the set.
- Performer.Performer.Perform: it requires a registered factory. Without one the source calls `undefined` and faults. An action the drop lacks is not a precondition; it is the `NotAFunction` outcome.
- Performer: the unused `lodash` import is left out. The drop type and `new Drop()` become one set of action names, produced by the factory.
- Config: a config always has a `create` map of string options. A config with no `create` key at all (test/lib/state_test.js:52) cannot be written. It only appears where the inspect call already fails.
- State.Apply: the number of re-applies has no cap in the source. The model bounds it only by the finite sequence of runtime answers given. When that sequence runs out, the trace stops at the pending `ReApply`, and no retry limit is invented.
