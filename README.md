# svg-sketch event log, in Dafny

svg-sketch keeps every drawing action as an event in an `EventStream`. The
stream is an array used as a stack: controls `push` events and undo `pop`s
them. `toJSON` turns the raw history into a minimal document in three
passes:

1. `createEvent` builds one record per event. The record's `args` is a copy
   in which a truthy `stroke` or `fill` is rewritten to a canonical RGBA
   string.
2. `processPath` runs over the records in place. A record whose `pathId` is
   truthy looks up the first record with that `id`. When it finds one, the
   linking record is marked deleted, its `args` are merged over the
   target's, and the target's `deleted` flag is assigned `type === 'delete'`.
3. A left fold keeps the records `validEvent` accepts. It emits each as
   `{type, args, layout}` with only the truthy fields. It pops the previous
   output when a style follows an accepted style.

The model is split into five modules:

- `Values` holds JavaScript values, truthiness, `xtend` and the
  line-or-arc test of path data.
- `EventStreams` holds the records and the three passes. Each pass exists
  both as a specification function and as the imperative code it is:
  - an array filled by `createEvent`;
  - `LinkInPlace`, which updates that array in place;
  - `ReduceRecords`, a loop that pushes, pops and reassigns `lastType`.

  The `EventStream` class holds the log as a sequence field and the last
  `normalized` array.
- `LinkProperties` states what the linking pass does to targets, linkers
  and untouched records.
- `ReduceProperties` states what the fold emits and gives an independent
  reference definition of the style collapse.
- `Scenarios` works through concrete logs end to end. It covers deletion,
  the validity rules, a style collapse, and the quirks of the code as
  written:
  - a later amendment revives a deleted shape;
  - the first of two shapes with the same id is the one amended;
  - a link to id 0 is not followed;
  - a shape may link to itself;
  - the style pop happens before the validity check.

  It also has an undo-then-redo client of the class.

The colour library's `Color(v).rgbaString()` is the parameter `canon`,
an arbitrary function from values to strings. JavaScript's `type` field is
called `kind`; the empty string stands for a missing type.

## Model

| member | source | states |
|---|---|---|
| Values.Xtend | event_stream.js:56 | the merged object holds the keys of both sources; the second source's value wins on a shared key and the first's is kept elsewhere; a missing source contributes nothing |
| Values.HasLineOrArc | event_stream.js:94 | `/a\|l/i` matches exactly when some character of `d` is one of `a`, `A`, `l`, `L` |
| EventStreams.CanonArgs | event_stream.js:36-41 | same keys as the event's args; a truthy `stroke` or `fill` becomes `canon` of its value; every other key keeps its value |
| EventStreams.SetRgb | event_stream.js:38-40 | same keys; a truthy value under the key becomes `canon` of it; every other entry is unchanged |
| EventStreams.CreateEvent | event_stream.js:35-49 | the record is not deleted, copies type, id and layout, and has args exactly when the event does, with the same keys; a truthy `stroke` or `fill` becomes `canon` of its value and every other entry is unchanged; `pathId` is the linked event's `id` when the event has a `path` and undefined otherwise |
| EventStreams.Canonical | event_stream.js:27 | one record per event |
| EventStreams.FirstWithId | event_stream.js:53-63 | the index of the first record with the id, or none when no record has it |
| EventStreams.FindById | event_stream.js:53-63 | the scan returns the first record with the id, or none |
| EventStreams.ProcessLink | event_stream.js:51-64 | one step keeps the record count; what it changes is stated by `LinkProperties.StepAmends` and `LinkProperties.StepTouches` |
| EventStreams.LinkPrefix | event_stream.js:28 | the first `n` steps keep the record count; `LinkProperties.LinkPrefixKeepsShape` states what they keep of each record |
| EventStreams.Linked | event_stream.js:28 | the whole pass keeps one record per event |
| EventStreams.LinkInPlace | event_stream.js:28-64 | the in-place pass leaves the array equal to every linking step applied in order, each step reading the records as the earlier steps left them |
| EventStreams.ValidEvent | event_stream.js:86-100 | a deleted record is invalid; text is valid iff `args.value` is truthy; a path is valid iff `d` holds an `a` or `l` in either case; any other type is valid iff `args` and `layout` have at least one key between them |
| EventStreams.CopyEvent | event_stream.js:76-81 | the copy has a type exactly when the record's type is defined, and then the same type; it carries the record's args and layout |
| EventStreams.ReduceStep | event_stream.js:66-83 | `lastType` becomes the record's type when `validEvent` accepts it, and is otherwise unchanged |
| EventStreams.Reduce | event_stream.js:30-83 | the output is never longer than the records |
| EventStreams.ReduceRecords | event_stream.js:30-83 | the loop that pushes, pops and reassigns `lastType` returns exactly the fold's output |
| EventStreams.Normalize | event_stream.js:24-33 | the document never has more elements than the log has events |
| EventStreams.EventStream.constructor | event_stream.js:9-12 | a new stream has an empty log |
| EventStreams.EventStream.Push | event_stream.js:14-17 | the event is appended after the unchanged earlier events, and the new length is returned |
| EventStreams.EventStream.Pop | event_stream.js:19-22 | on an empty log, returns undefined and changes nothing; otherwise returns the last event and leaves the earlier ones unchanged |
| EventStreams.EventStream.ToJSON | event_stream.js:24-33 | leaves the log unchanged, stores a fresh `normalized` array holding the linked records, and returns the document the three passes define |
| LinkProperties.LinkPrefixKeepsShape | event_stream.js:51-64 | the linking pass changes only args and `deleted` flags: every record keeps its type, id, layout and link |
| LinkProperties.AmendStep | event_stream.js:54-57 | when a linker's link resolves, its step merges the linker's args over the target's, assigns the target's `deleted` flag whether the linker is a `delete`, and marks a linker other than the target deleted |
| LinkProperties.StepAmends | event_stream.js:52-57 | a step whose link resolves sets the target's args to the linker's merged over its own and its `deleted` flag to whether the linker is a `delete`, and leaves a linker other than the target unchanged except that it is marked deleted |
| LinkProperties.StepTouches | event_stream.js:51-64 | a step leaves the args of every record but its target unchanged, and every record but the linker and the target wholly unchanged |
| LinkProperties.FirstWithIdByIds | event_stream.js:61-63 | which record is found depends on the ids alone |
| LinkProperties.TargetStable | event_stream.js:52-53 | a record resolves to the same target however many linking steps have run |
| LinkProperties.Untouched | event_stream.js:51-64 | a record no step targets keeps its args, and keeps everything unless it is itself a resolved linker |
| LinkProperties.KeysOnlyGrow | event_stream.js:56 | linking never removes a key from a record's args |
| LinkProperties.DeletedByLastLinker | event_stream.js:57 | when the last record amending a target comes at or after the target, the target ends deleted iff that record is a `delete`, so an earlier delete is undone by a later move |
| LinkProperties.SelfLinkKeptUnlessDelete | event_stream.js:55-57 | a record that links to itself, and that no later record amends, ends up deleted iff it is a `delete` |
| LinkProperties.LinkerSuppressed | event_stream.js:55-87 | a record whose link resolves to another record ends up deleted and rejected by `validEvent` |
| LinkProperties.UnresolvedLinkerUntouched | event_stream.js:52-54 | a record whose link does not resolve, and that nothing amends, leaves the pass exactly as built |
| LinkProperties.MergedFromLastLinker | event_stream.js:56 | when the last record amending a target is not the target itself and nothing amended that record before its own step, its keys carry its values in the target, and the target keeps every key it had |
| LinkProperties.ShapePreserved | event_stream.js:51-64 | linking keeps the fields `validEvent` reads |
| LinkProperties.CreateEventKeepsShape | event_stream.js:35-49 | a record built from an event whose type and args `validEvent` can read can be read as well |
| LinkProperties.ShapedLogNormalizes | event_stream.js:86-100 | a log whose text events carry args, whose path events carry a `d`, and in which every `d` any event carries is a string serialises without throwing |
| ReduceProperties.StepEffect | event_stream.js:66-83 | a style after an accepted style pops the last output whether or not it is accepted; a rejected record that causes no pop changes nothing; an accepted record's copy is appended and its type becomes `lastType` |
| ReduceProperties.CopyEventKeepsContent | event_stream.js:76-81 | two records have the same copy iff they agree on type, args and layout |
| ReduceProperties.LastTypeAccepted | event_stream.js:66-69 | for every log, `lastType` is the type of the last record `validEvent` accepted, and undefined when none was accepted |
| ReduceProperties.ReduceSelectsAccepted | event_stream.js:66-83 | for every log, the output is copies of accepted records taken at strictly increasing positions, so it keeps their relative order and is never longer than the accepted records |
| ReduceProperties.OnlyValidEmitted | event_stream.js:68-72 | every output element is the `{type, args, layout}` copy of a record `validEvent` accepts |
| ReduceProperties.StyleRunCollapses | event_stream.js:67-70 | a run of valid styles contributes only its last member, which also replaces a style accepted just before the run |
| ReduceProperties.ReduceIsCollapse | event_stream.js:66-83 | when every style is valid, the output is the accepted records in their original order, minus each style followed by an accepted style; `lastType` is the last accepted record's type |
| Scenarios.LineDescriptions | event_stream.js:94 | the path data `M0,0 L10,10` passes the line-or-arc test and `M0,0` does not |
| Scenarios.NoLinksIdentity | event_stream.js:52 | a log in which nothing links out passes the linking pass unchanged |
| Scenarios.DeletionCascade | event_stream.js:51-58 | for every id other than 0 and any path data, a path followed by a delete of its id serialises to an empty document |
| Scenarios.TextWithoutValueDropped | event_stream.js:89-91 | for any id and layout, a text event without a link whose args have no truthy `value` serialises to an empty document |
| Scenarios.PathWithoutLineDropped | event_stream.js:93-95 | for any id, a path whose `d` has no line or arc command serialises to an empty document |
| Scenarios.PathWithLineKept | event_stream.js:93-95 | for any id, a path whose `d` has a line or arc command is kept as `{type, args}` with `d` alone |
| Scenarios.LineThenTwoColours | event_stream.js:67-72 | for any path with a line command and any two non-empty colours, the document is the path and the second colour, canonicalised; the first colour is dropped |
| Scenarios.LaterAmendmentRevives | event_stream.js:55-57 | for every id other than 0, a move after a delete of the same path brings the path back, with the move's args merged over the path's |
| Scenarios.DuplicateIdFirstWins | event_stream.js:53 | of two paths sharing an id other than 0, the delete removes the first and the second is emitted |
| Scenarios.LinkToIdZeroIgnored | event_stream.js:52 | for any width, a delete linking to id 0 does not remove the rectangle with id 0 |
| Scenarios.SelfLinkKept | event_stream.js:52-57 | for every id other than 0, a rectangle linking to its own id is still emitted |
| Scenarios.StylePopBeforeValidity | event_stream.js:67-70 | for any path with a line command and two non-empty colours, an empty style between the colours pops the first colour, and the second colour then pops the path, leaving only the second colour |
| Scenarios.UndoThenRedo | event_stream.js:14-33 | popping the last event and pushing it back leaves the log and its document as they were |

## Left out

- The colour library is the abstract parameter `canon`. The model does not capture the library throwing on a colour it cannot parse.
- `validEvent` throws when a text record has no `args`, or when a path record has no `args`, no `d`, or a `d` without `match`. This is a precondition (`Checkable`) of the fold, and `ToJSON` requires it of every linked record (`NormalizeDefined`). Throwing is not modelled as a result.
- Values are strings, integers, booleans and null/undefined. Floating point, `NaN` and nested objects inside `args` or `layout` are not modelled. The drawing controls put nested objects in `layout` (style, font, rotation); the core only counts `layout`'s keys and passes it through, so its behaviour does not depend on them.
- Ids and link ids are integers. That is what the drawing controls assign; string ids are not modelled.
- Fields of events that the core never reads (such as a delete's `target` or a shape's DOM element) are not part of `Event`.
- The shallow copy of `args` and the fresh object `xtend` returns are map values here. Aliasing between a record and the pushed event can therefore not occur. The shared `layout` object is never written by the core.
- Each event is pushed already carrying the `id` it has when `toJSON` runs. The renderer writes a shape's `id` into the event after pushing it, and a delete's `path` is the target event object itself, whose `id` is read only at serialisation; `Event` and `Link` are values fixed at push.
- Calling `EventStream()` without `new` (event_stream.js:10) also returns a fresh stream. It is the same as the constructor and has no separate member.
- The DOM rendering, the debounced change notification, the undo/redo UI that hides and shows elements, the `localStorage` debugging helper and the browser end-to-end test are not part of this model.
- ReduceProperties.ReduceIsCollapse: it requires every style record to be valid, because a rejected style still pops the previous output. That case is shown by `Scenarios.StylePopBeforeValidity`, and `ReduceProperties.ReduceSelectsAccepted` states the order for every log.
- LinkProperties.DeletedByLastLinker: it requires the last amending record to come at or after the target, because a target that itself links to another record is marked deleted by its own step (event_stream.js:55) after any earlier amendment.
- LinkProperties.LinkerSuppressed: it requires that no later record amends the linker in turn, because such an amendment reassigns the linker's `deleted` flag.
