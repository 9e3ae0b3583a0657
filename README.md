# graph-editor.js core, modelled in Dafny

graph-editor.js is an in-browser editor of typed graphs that runs on top of
the vis-network library. This project models the parts of it that hold logic:

- **Event bus** (`src/EventSystem.js`): named events whose callbacks sit in an
  ID-keyed table. A `pipe` event composes its callbacks in subscription order.
  A `broadcast` event calls each callback independently and collects the
  answers in a table keyed by callback ID. A nested event fans `Subscribe` and
  `Unsubscribe` out to its parent events.
- **Legacy events** of the editor itself (`CreateEvent` in `src/main.js`), with
  `TriggerAll` and `TriggerPipe`.
- **Metamodel** (`src/main.js`): element classes, styles, properties and
  types. A type's vis template is its class's template overlaid by its
  styles' templates, and its property values are the properties' defaults.
  Elements are created from a type, with positional class arguments. This
  part also covers the older type/style tables, `ZipArrays` and `SetOrDelete`.
- **Edge-editing state machine** (`src/main.js`): the `editEdge`, `select` and
  `click` handlers around `edgeEditingState`.
- **Scheme validator** (`src/validator.js`): type names with `*` wildcards,
  predicate schemes, array schemes, object schemes with required and optional
  keys, generic (union) schemes and the scheme of schemes.
- **Dataset patch** (`src/vis-network.patch.js`, repeated in `src/main.js`):
  the replacement `DataSet._updateItem`. It keeps only `x`/`y` of the stored
  item and copies in every property of the update.
- **Python pipeline** (`src/pipeline.py`): processors chained with `|`, merged
  with `>`, flattened through `Multidata`, and run by `Pipe.run`.

Shared modules:

- `Wrappers` holds `Option` and `Result`.
- `Js` holds the JavaScript value model: truthiness, the `GetType` tags, the
  spread of an argument, and the `JsObject` class with its mutable properties.
- `Dict` models a JavaScript object as an ordered sequence of (key, value)
  pairs. Assigning an existing key keeps its position; a new key is appended.
  `Object.assign`, `Object.fromEntries` and `delete` are modelled on this and
  proved against lookup (`Get`).

The core's JavaScript functions cannot be put inside a value datatype. Event
callbacks are therefore Dafny functions `seq<Value> -> Value`. Function values
inside schemes are references: a native predicate is interpreted through an
`interp` parameter, and the `GenericType` closure and the scheme of schemes
have their own references. Python processor functions are numbered and
interpreted in the same way.

## Model

| member | source | states |
|---|---|---|
| EventSystem.ChooseID | src/EventSystem.js:13 | a given (non-empty) callback ID is used as is; an empty one is replaced by the generated ID |
| EventSystem.Event.constructor | src/EventSystem.js:6-11 | a new event has its name, description and type, and an empty callback table |
| EventSystem.Event.Subscribe | src/EventSystem.js:12-18 | a duplicate ID without `replaceExisting` raises and leaves the table unchanged; otherwise the callback is stored under the ID (an existing one is replaced in place, a new one appended) and `[id]` is returned |
| EventSystem.Event.Unsubscribe | src/EventSystem.js:19-25 | a known ID is deleted and `[id]` returned; an unknown ID answers null and changes nothing |
| EventSystem.TriggerSpec | src/EventSystem.js:26-43 | the dispatch of `Trigger` by event type: a pipe with zero arguments calls each callback once with none and answers undefined, with one argument threads it, with more spreads the argument array; a broadcast collects every answer by ID; any other type raises. `Event.Trigger`, `TriggerOtherTypeRaises` and `BroadcastIsIndependent` state it |
| EventSystem.PipeOne | src/EventSystem.js:33-37 | `buf = cb(buf)` over the table in subscription order, so no callbacks leave the argument as it is; `PipeCompose`, `PipeFirstThenRest` and `PipeOneCallsInOrder` state it |
| EventSystem.PipeSpread | src/EventSystem.js:38-40 | `buf = cb(...buf)` starting from the argument array, raising when an answer cannot be spread; `PipeSpreadStopsAtFailure` and `PipeSpreadCallsInOrder` state it |
| EventSystem.BroadcastEntries | src/EventSystem.js:41 | each callback ID paired with its callback's answer to the same arguments, in table order; `BroadcastIsIndependent` states it |
| EventSystem.Event.Trigger | src/EventSystem.js:26-43 | the result and the sequence of callback invocations are exactly those of the dispatch specification (pipe with zero, one or several arguments, broadcast, unknown type) |
| EventSystem.PipeCompose | src/EventSystem.js:33-37 | piping through two tables in turn is piping through their concatenation |
| EventSystem.PipeFirstThenRest | src/EventSystem.js:34-35 | the first callback sees the argument itself; the rest see its answer |
| EventSystem.PipeOneCallsInOrder | src/EventSystem.js:33-37 | every callback is called once, in table order, with the answer of the callbacks before it |
| Js.Spread | src/EventSystem.js:39 | an array spreads its items, a string its characters and an iterable built-in what its iterator yields; objects, undefined, null, numbers, booleans and functions are not iterable |
| EventSystem.PipeSpreadStopsAtFailure | src/EventSystem.js:38-40 | once an answer cannot be spread into arguments, no later callback runs and the error stays |
| EventSystem.PipeSpreadCallsInOrder | src/EventSystem.js:38-40 | in a successful spread pipe, callback `i` is called with the spread answer of the first `i` callbacks |
| EventSystem.BroadcastIsIndependent | src/EventSystem.js:41 | the broadcast result has exactly the callback IDs, without duplicates, and each ID maps to its own callback applied to the original arguments |
| EventSystem.TriggerOtherTypeRaises | src/EventSystem.js:42 | an event that is neither pipe nor broadcast raises and calls no callback |
| EventSystem.Uniques | src/EventSystem.js:51 | the unique descriptions contain exactly the descriptions given, each once |
| EventSystem.UniquesKeepsFirstOrder | src/EventSystem.js:51 | the unique descriptions are listed in the order of their first occurrence |
| EventSystem.FirstIndex | src/EventSystem.js:51 | the position found holds the string and no earlier position does |
| EventSystem.NestedEvent.constructor | src/EventSystem.js:48-52 | the nested event keeps its parents; without a description it joins the parents' unique descriptions with `; ` |
| EventSystem.NestedEvent.Trigger | src/EventSystem.js:49 | triggering a nested event always raises the unknown-type error for the type `nested` and calls nothing |
| EventSystem.NestedEvent.Subscribe | src/EventSystem.js:53 | it succeeds iff no parent refuses, and then each parent holds the callback under its ID; otherwise the first refusing parent's error is raised, the parents before it are subscribed and the rest are untouched |
| EventSystem.NestedEvent.Unsubscribe | src/EventSystem.js:54 | each parent answers as a single event would, in parent order |
| GraphEditor.LegacyEvent.constructor | src/main.js:31-35 | a new event has its name and description and no callbacks |
| GraphEditor.LegacyEvent.Subscribe | src/main.js:36-41 | a duplicate ID without `replaceExisting` raises with the table unchanged; otherwise the callback is stored under the ID |
| GraphEditor.LegacyEvent.Unsubscribe | src/main.js:42-45 | the ID is gone afterwards and every other ID looks up as before |
| GraphEditor.LegacyEvent.TriggerAll | src/main.js:46-48 | the result has the callback IDs, without duplicates, each mapped to its callback's answer to the arguments |
| GraphEditor.LegacyEvent.TriggerPipe | src/main.js:49-54 | the loop pipes the argument array through every callback in order; with no callbacks the argument array itself is returned |
| GraphEditor.LegacyPipeIsSingleArgumentPipe | src/main.js:49-54 | `TriggerPipe(...args)` behaves like a pipe event triggered with the one argument `args`, calling callback `i` with the answer of the first `i` |
| GraphEditor.ZipArrays | src/main.js:530-532 | the pairs have the keys of the first array, in order, and the value at the same index of the second, or undefined past its end |
| GraphEditor.OtherClassStyles | src/main.js:543 | the filter keeps exactly the styles of another class |
| GraphEditor.TypeTemplate | src/main.js:547 | `Object.assign({}, class template, ...style templates)`; `TypeTemplateIsOverlay` and `LaterStyleWins` state that the last style having a key decides it, else the class template |
| GraphEditor.TypeDefaults | src/main.js:548 | `Object.fromEntries` of (property ID, default value); `TypeDefaultsKeys` and `TypeDefaultsValues` state its keys and values |
| GraphEditor.PropertyDefaults | src/main.js:548 | the entries are keyed by the property IDs, in order |
| GraphEditor.CreateElementType | src/main.js:542-550 | it raises iff some style belongs to another class, naming those styles; otherwise it gives the type record with the overlaid template and the property defaults |
| GraphEditor.TypeTemplateIsOverlay | src/main.js:547 | a template key reads from the last style that has it, else from the class template |
| GraphEditor.OverlayOfBase | src/main.js:547 | overlaying a base and then templates reads the last template that has the key, else the base |
| GraphEditor.LaterStyleWins | src/main.js:547 | the last style that has a key decides it |
| GraphEditor.TypeDefaultsKeys | src/main.js:548 | the type's property values have no duplicate names, and a name is present iff some property has that ID |
| GraphEditor.TypeDefaultsValues | src/main.js:548 | a property ID reads the default of its last property; with distinct IDs the table is the defaults in order |
| GraphEditor.ElementProperties | src/main.js:554 | the type defaults overlaid by the supplied dict; `ElementPropertiesOverlay` states that a supplied value wins, else the type's value |
| GraphEditor.PositionalKeys | src/main.js:555 | the first `min(n, number of class-template keys)` keys of the class template, as many as its contract says; `PositionalKeysUnique` states that they are distinct |
| GraphEditor.ElementTemplate | src/main.js:555 | the type template overlaid by the positional arguments zipped onto the first class-template keys; `ElementTemplatePositional`, `ElementTemplateElsewhere` and `NodeArgumentsArePosition` state it |
| GraphEditor.CreateElement | src/main.js:551-558 | the element keeps its ID and its type |
| GraphEditor.ElementPropertiesOverlay | src/main.js:554 | a property reads the given value when one is given, else the type's value; with none given the type's values are kept as they are |
| GraphEditor.ZipGet | src/main.js:555 | the zipped positional keys read the arguments at their positions |
| GraphEditor.PositionalKeysUnique | src/main.js:555 | the zipped positional keys are distinct |
| GraphEditor.ElementTemplatePositional | src/main.js:555 | the `i`-th class template key reads the `i`-th class argument |
| GraphEditor.ElementTemplateElsewhere | src/main.js:555 | every key not covered by an argument reads the type's template |
| GraphEditor.NodeArgumentsArePosition | src/main.js:555 | for a node type, the two class arguments become `x` and `y` |
| GraphEditor.OldStyles | src/main.js:572-579 | the table `styles[type.id] = type` builds over the types in order; `CreateStylesOld`, `OldStylesKeys` and `OldStylesLastWins` state it |
| GraphEditor.TypeEntries | src/main.js:575-577 | the entries are keyed by the type IDs, in order |
| GraphEditor.CreateStylesOld | src/main.js:572-579 | the loop builds the table that assigns each type under its ID in order |
| GraphEditor.OldStylesKeys | src/main.js:572-579 | the table has no duplicate IDs, and an ID is present iff some type has it |
| GraphEditor.OldStylesLastWins | src/main.js:575-577 | an ID maps to the last type with that ID |
| GraphEditor.SetOrDelete | src/main.js:407-415 | a truthy value is assigned and a falsy one deletes the property; every other property is unchanged and the same object is returned |
| EdgeEditing.AfterClick | src/main.js:224-232 | a click moves state 1 to 2 and state 2 to idle, and leaves any other state alone |
| EdgeEditing.IdleStaysIdle | src/main.js:224-232 | any number of clicks leaves an idle view idle |
| EdgeEditing.ClicksEndEditing | src/main.js:224-232 | from any state, two or more clicks end edge editing |
| EdgeEditing.AfterClicks | src/main.js:224-232 | the state after `n` canvas clicks, each taking the click transition; `IdleStaysIdle` and `ClicksEndEditing` state it |
| EdgeEditing.GraphView.constructor | src/main.js:156 | the view starts idle with no edited element |
| EdgeEditing.GraphView.EditEdge | src/main.js:166-173 | a loop edge is refused with `callback(null)` and no state change; any other edge resets the state, defers leaving edit mode and hands back the `onSetEdge` pipe's answer to the edge |
| EdgeEditing.GraphView.Select | src/main.js:201-223 | each of the four cases: a node starts editing it; exactly one edge enters edge-edit mode and state 1; otherwise a pending edited element is stored and forgotten; or nothing happens |
| EdgeEditing.GraphView.CanvasClick | src/main.js:224-232 | the new state is the click transition of the old one; edit mode is left and the selection cleared exactly when the old state is 2 |
| EdgeEditing.SelectEdgeThenClickTwice | src/main.js:207-232 | after an edge is selected, the first click does nothing visible and the second leaves edit mode, ending idle |
| Js.Tag | src/validator.js:24-27 | the `GetType` tag of each kind of value (`Undefined`, `Null`, `Boolean`, `Number`, `String`, `Array`, `Object`, `Function`), and for a built-in object the tag it reports; `PlainTypeIsExact` and the wildcard lemmas use it |
| Validator.MatchesType | src/validator.js:97 | the tag test as written: equal, or `*X` and the tag does not end with X, or `X*` and the tag does not start with X; `LeadingWildcard`, `TrailingWildcard` and `LeadingWildcardInverted` state it |
| Validator.AssertType | src/validator.js:91-98 | a type name that is not a string raises, `*` passes, otherwise the tag test decides; `TypeNameMustBeString`, `AnyTypeAcceptsAll`, `PlainTypeIsExact`, `LeadingWildcard` and `TrailingWildcard` state it |
| Validator.RemoveFirst | src/validator.js:97 | without the character the string is unchanged |
| Validator.RemoveFirstOnlyFirst | src/validator.js:97 | only the first occurrence of the character is removed |
| Validator.AnyTypeAcceptsAll | src/validator.js:94 | the `Any` type accepts every value |
| Validator.TypeNameMustBeString | src/validator.js:93 | a type name that is not a string raises |
| Validator.PlainTypeIsExact | src/validator.js:95-98 | a type name without `*` accepts exactly the values of that type |
| Validator.LeadingWildcard | src/validator.js:96-97 | `*X` accepts a value iff its type is `*X` itself or does not end with X (as written) |
| Validator.TrailingWildcard | src/validator.js:96-97 | `X*` accepts a value iff its type is `X*` itself or does not start with X (as written) |
| Validator.Validate | src/validator.js:100-134 | the verdict of `Validate(data, scheme, fullData, fullScheme)`: the scheme of schemes returns at once, and any other scheme is self-checked and then applied by its kind; `SchemeOfSchemesAcceptsAll`, `ValidateUnfolds`, `StringSchemeIsTypeTest`, `PredicateSchemeIsTruthiness`, `EmptyArraySchemeIsArrayTest`, `LongArraySchemeRaises`, `ArraySchemeChecksEveryItem`, `ObjectSchemeConformance` and `UnknownSchemeRaises` state it |
| Validator.ValidateBy | src/validator.js:109-133 | the branch on the kind of scheme (string, function, array, object, other) once the full data and scheme are fixed; the same lemmas as `Validate` state each branch |
| Validator.SchemeOfSchemesAcceptsAll | src/validator.js:101 | validating against the scheme of schemes passes at once |
| Validator.UnknownSchemeRaises | src/validator.js:133 | a scheme that is no string, function, array or object raises |
| Validator.StringSchemeIsTypeTest | src/validator.js:110 | a string scheme is the type test of that name |
| Validator.PredicateSchemeIsTruthiness | src/validator.js:111 | a predicate scheme passes iff the predicate answers truthy for (data, scheme, full data, full scheme) |
| Validator.EmptyArraySchemeIsArrayTest | src/validator.js:112-113 | `[]` accepts exactly arrays |
| Validator.LongArraySchemeRaises | src/validator.js:112-114 | an array scheme with two or more items raises |
| Validator.ValidateUnfolds | src/validator.js:100-108 | every scheme except the scheme of schemes is first checked against the scheme of schemes, then applied with the fallback full data and full scheme |
| Validator.ArraySchemeChecksEveryItem | src/validator.js:112-114 | `[S]` passes iff the data is an array and every item passes S; on an array the verdict is the first item failure, and a value not tagged `Array` gets the type test's failure |
| Validator.ObjectSchemeConformance | src/validator.js:115-132 | an object scheme passes iff the data is an object, no required key is missing, and each entry passes the scheme its name selects |
| Validator.SchemeEntryFor | src/validator.js:117-119 | the scheme entry that checks a data key, a position inside the scheme when found; `SchemeEntryLookupOrder` states the order required, last optional, truthy `*` |
| Validator.EntryVerdict | src/validator.js:121-130 | a data key no entry allows raises, and otherwise its value is validated against the entry found; `ObjectSchemeConformance` states it |
| Validator.SchemeEntryLookupOrder | src/validator.js:117-119 | a name is checked by its required key, else its last optional key, else the `*` key; it has no scheme exactly when none of these exists |
| Validator.LastOptional | src/validator.js:118 | the found key is optional and names the property, and it is the last such key |
| Validator.LastOptionalIsFromEntries | src/validator.js:118 | the lookup agrees with `Object.fromEntries` of the optional keys |
| Validator.LastGetOptional | src/validator.js:118 | the found optional key holds the scheme `Object.fromEntries` gives |
| Validator.MissingKeys | src/validator.js:120-121 | a key is reported missing iff it is a required scheme key the data lacks |
| Validator.FirstFailure | src/validator.js:127-131 | the verdict passes iff all pass, and otherwise is the first failure |
| Validator.GenericType | src/validator.js:136-142 | fewer than two types raise, with the count's error; otherwise the result is a validator over exactly those types |
| Validator.GenericNeverPasses | src/validator.js:139 | as written, a generic scheme fails even when every alternative passes |
| Validator.GenericRejectsMatchingString | src/validator.js:139 | as written, `"a"` passes `"String"` but fails `GenericType("String", "Number")` |
| Validator.SomeTypeAcceptsIff | src/validator.js:139 | the corrected `some` finds an alternative iff one passes |
| Validator.GenericIntendedIsUnion | src/validator.js:136-142 | the corrected generic scheme passes iff some alternative passes |
| Validator.LeadingWildcardInverted | src/validator.js:96-97 | as written, `*Array` rejects `Uint8ClampedArray` and arrays and accepts `Map` |
| Validator.LeadingWildcardIntended | src/validator.js:177-178 | the corrected `*X` accepts a type iff it ends with X |
| Validator.TrailingWildcardIntended | src/validator.js:177-178 | the corrected `X*` accepts a type iff it starts with X |
| VisPatch.Removable | src/vis-network.patch.js:7 | the deleted names are exactly the stored item's names other than `x` and `y` |
| VisPatch.DataSet.constructor | src/vis-network.patch.js:1 | the dataset keeps its ID property and its items |
| VisPatch.DataSet.Target | src/vis-network.patch.js:3-6 | an update addresses a stored item iff its ID is not nullish and is stored |
| VisPatch.DataSet.UpdateItem | src/vis-network.patch.js:1-10 | a nullish ID and an unknown ID raise their errors; otherwise the stored item becomes the patched item and the ID is returned |
| VisPatch.DeleteAllBut | src/vis-network.patch.js:7 | the loop leaves the stored item without its removable names |
| VisPatch.DeleteStep | src/vis-network.patch.js:7 | each deletion removes one more name and keeps the names distinct |
| VisPatch.AssignAll | src/vis-network.patch.js:8 | every property of the update is assigned onto the stored item |
| VisPatch.Patched | src/vis-network.patch.js:7-8 | the stored item without its non-`x`/`y` properties, then every update property assigned onto it; `DataSet.UpdateItem`, `PatchedGet`, `PatchedKeys`, `PatchedTwice` and `PatchedKeepsID` state it |
| VisPatch.PatchedGet | src/vis-network.patch.js:7-8 | a property reads the update's value, else the old `x`/`y`, else nothing |
| VisPatch.PatchedKeys | src/vis-network.patch.js:7-8 | the names afterwards are the update's and the old `x`/`y`, kept first and distinct |
| VisPatch.PatchedTwice | src/vis-network.patch.js:7-8 | applying an update twice reads as applying it once |
| VisPatch.PatchedKeepsID | src/vis-network.patch.js:3-9 | the stored item afterwards carries the update's ID |
| Pipeline.Iterate | src/pipeline.py:94 | what `*res` unpacks: the characters of a str, the integers of bytes, the items of a list, `Multidata` or other iterable, and nothing (a TypeError) for any other value; `GeneratorFansOut` states it |
| Pipeline.Call | src/pipeline.py:76-111 | `p(x)`: a plain processor or user socket returns its function's answer, a generator wraps the unpacked answer in `Multidata`, a merge socket runs the merge on the list; `GeneratorFansOut`, `SocketSeesWholeList`, `MergeJoinsStrings` and `MapCallSingle` state it |
| Pipeline.MergeRun | src/pipeline.py:104-111 | no data gives None; data not starting with str or bytes comes back as the list; a str (bytes) join succeeds iff every item is str (bytes), and then gives the concatenation |
| Pipeline.JoinStrAppend | src/pipeline.py:107-108 | joining two lists of strings in turn is joining their concatenation |
| Pipeline.JoinBytesAppend | src/pipeline.py:109-110 | joining two lists of byte strings in turn is joining their concatenation |
| Pipeline.Flatten | src/pipeline.py:16-24 | each `Multidata` result replaced by its items, every other result kept, in order; `FlattenAppend`, `FlattenKeepsPlain`, `FlattenOneLevel` and `Pipe.ParseResults` state it |
| Pipeline.FlattenAppend | src/pipeline.py:16-24 | parsing two result lists is parsing their concatenation |
| Pipeline.FlattenKeepsPlain | src/pipeline.py:16-24 | results without `Multidata` pass through unchanged |
| Pipeline.FlattenOneLevel | src/pipeline.py:19-21 | a `Multidata` is unpacked one level only |
| Pipeline.MapCall | src/pipeline.py:32 | `[p(x) for x in data]`, the first raise ending it; `MapCallAppend`, `MapCallStops`, `MapCallSingle` and `Pipe.CallEach` state it |
| Pipeline.Step | src/pipeline.py:29-32 | one iteration of `run`: a socket gets the whole list once, any other processor each element, and the answers are flattened; `SocketSeesWholeList` and `ElementwiseStepSplits` state it |
| Pipeline.MapCallAppend | src/pipeline.py:32 | the comprehension succeeds on a concatenation iff it succeeds on both parts, and then yields both answer lists in order |
| Pipeline.MapCallStops | src/pipeline.py:32 | once the comprehension raises, later elements do not matter |
| Pipeline.ElementwiseStepSplits | src/pipeline.py:31-32 | a per-element processor's step on a concatenation is the concatenation of its steps |
| Pipeline.MapCallSingle | src/pipeline.py:32 | on one element the comprehension is the one call |
| Pipeline.GeneratorFansOut | src/pipeline.py:90-94 | the items a generator's iterable answer yields become separate data items; an answer that is not iterable raises |
| Pipeline.SocketSeesWholeList | src/pipeline.py:29-30 | a socket is called once with the whole data list |
| Pipeline.MergeJoinsStrings | src/pipeline.py:104-111 | a merge socket joins all-string data into one string |
| Pipeline.RunFrom | src/pipeline.py:28-32 | the processors applied step by step from given data, the first raise stopping the run; `RunFromConcat` and `RunStops` state it |
| Pipeline.RunSpec | src/pipeline.py:26-32 | the run from `[None]`; `Pipe.Run` and `RunChain` are proved to compute it |
| Pipeline.RunFromConcat | src/pipeline.py:26-32 | running two processor lists in turn is running their concatenation |
| Pipeline.RunStops | src/pipeline.py:26-32 | once a processor raises, later processors do not run |
| Pipeline.Processor.constructor | src/pipeline.py:35-37 | a new processor has its kind and is unlinked |
| Pipeline.Processor.Or | src/pipeline.py:39-44 | a non-processor raises and changes nothing; otherwise the two are linked and the right operand is returned |
| Pipeline.Processor.GetChain | src/pipeline.py:57-68 | the chain is the backward walk reversed, the processor, then the forward walk, and the processor appears once |
| Pipeline.ChainedDistinct | src/pipeline.py:57-68 | the processors of a walk are distinct |
| Pipeline.WalkAvoidsStart | src/pipeline.py:57-68 | a walk never returns to its start |
| Pipeline.ReverseMembers | src/pipeline.py:63 | reversing keeps the members |
| Pipeline.MergeInto | src/pipeline.py:46-55 | a non-processor raises and changes nothing; otherwise a fresh merge socket is linked between the left operand and the head of the right operand's chain, and the chain's tail is returned |
| Pipeline.Pipe.constructor | src/pipeline.py:5-8 | the pipe holds the processors in order |
| Pipeline.Pipe.Chain | src/pipeline.py:10-11 | the processor is appended |
| Pipeline.Pipe.ParseResults | src/pipeline.py:16-24 | the loop flattens the results one `Multidata` level |
| Pipeline.Pipe.CallEach | src/pipeline.py:32 | the loop computes the comprehension, the first raise winning |
| Pipeline.Pipe.Run | src/pipeline.py:26-32 | the loop computes the run specification: sockets see the whole data, other processors each item, and a raise stops the run |
| Pipeline.RunChain | src/pipeline.py:70-71 | the processor's whole chain is run |

## Left out

- Callbacks, predicates and processor functions are total functions that cannot raise or have side effects; an exception thrown inside one is not modelled.
- `GraphEditor.GenerateID` (random IDs) becomes a parameter carrying the fresh ID. The model does not capture that a generated ID can collide.
- `EventSystem.NestedEvent.Valid`: the parents are required to be distinct objects. The source allows a parent twice, which would subscribe it twice.
- `EventSystem.NestedEvent`: its parents are plain events. The source also accepts a nested event as a parent, whose `Subscribe` fans out further; such nesting is not modelled.
- Property order is insertion order everywhere: in the callback tables, in `Validator.ObjectSchemeConformance` and `Validator.SchemeEntryFor` (whose `Object.entries(data)` order decides which failure is reported first), and in `GraphEditor.CreateStylesOld`. JavaScript lists integer-like keys (such as type IDs `'0'` and `'1'`) first; that order is not modelled.
- The prototype chain is not modelled. `Validator.SchemeEntryFor` and `Validator.ObjectSchemeConformance` see only a scheme's own keys, whereas `prop in requiredProperties` (src/validator.js:123, 126) is also true for inherited names such as `constructor`. For data with such a key, the source validates it against the inherited member. The model uses the scheme's truthy `*` entry when there is one, and otherwise raises `ForbiddenProperty`.
- Numbers are modelled as integers (`Js.Value.Num`). NaN, -0 and fractions are not represented, so a falsy NaN (which `GraphEditor.SetOrDelete` would delete and `Js.Truthy` would read as false) cannot be written.
- `Validator.ValidateBy` dispatches on the kind of `Js.Value`, whereas the source dispatches on `GetType(scheme)`. A built-in object (`Host`) used as a scheme and reporting the tag `String`, `Function`, `Array` or `Object` raises `UnknownScheme` in the model; the source would treat it by its tag.
- String wrapper objects and JavaScript coercions outside `||`, `==` and truthiness are not modelled.
- `GraphEditor.CreateElementType`: the styles' classes are compared by value, whereas JavaScript compares object identity with `!==`.
- `GraphEditor.CreateElementType`: the error carries the type name and the offending style IDs, not the formatted message text.
- `CreateObjectFromArguments` and `GetArgumentNames` read parameter names by reflection; the records are Dafny datatypes with those fields instead.
- `GraphEditor.CreateElement` states the element's ID and type in its own contract. Its templates and property values are stated by the lemmas about `ElementProperties` and `ElementTemplate`.
- `CreateType_old` is a plain record constructor (`GraphEditor.OldType`) and has no contract of its own.
- Calls into vis-network, the DOM and the engine (`disableEditMode`, `unselectAll`, the `callback` of `editEdge`, `setTimeout` through `Incoming`) are returned as actions in call order instead of being performed.
- The rest of `BuildGraph` (layout, menus, loading and saving) lies outside the edge-editing state machine and is not modelled.
- `DataSet._updateItem` is modelled on the stored items only. vis-network's change events, its queue and the other `DataSet` methods are not part of this model.
- Python's dynamic typing is modelled by the `PyValue` datatype. Tuples, dicts, sets, ranges and generator objects are one `PIterable` case, by what iterating them yields. Only `str` and `bytes` joins are modelled; other bytes-like objects, which `b''.join` also accepts, are not.
- A non-processor right operand of `|` or `>` is modelled as a null reference.
- `Pipeline.MergeInto` requires that the left operand is not already part of the right operand's chain; the source would then build a cycle.
- `Pipeline.Processor.GetChain` takes the backward and forward walks as ghost witnesses, so both walks are assumed to end. A cyclic chain, on which the source loops forever, is not modelled.
- `Pipeline.Pipe.Run`: Python's `run` computes the data and returns None. The model returns the computed data.
- `Pipeline.RunChain`: like `Pipe.Run`, it returns the data where the source returns None.
- The base processor's `_run` raises `NotImplemented()`. Every processor in the model has one of the concrete kinds, so this error is not modelled.
- `_flat_list` is never called and is left out.
- `GetDefaultTypes` builds the `validationTypes` table by evaluating the built-in constructors' names. The model uses only its `String`, `Array`, `Object` and `Any` (`*`) entries, as constants.

## Findings

In both rows below, the rest of the validator model follows the code as
written (`Validator.Validate`, `Validator.AssertType`). The corrected
definitions are given beside it, with their intended properties proved.

| source | as written | input that shows it | evidently intended | confidence | as-written member | corrected member |
|---|---|---|---|---|---|---|
| src/validator.js:139 | `types.some(t => Validate(data, t))`, but `Validate` returns undefined on success, so `some` never finds an alternative | `Validate("a", GenericType("String", "Number"))` fails although `"a"` is a String | the generic scheme passes iff some alternative passes | not executed | Validator.GenericNeverPasses | Validator.GenericIntendedIsUnion |
| src/validator.js:96-97 | the wildcard test passes when the type does NOT end (start) with the pattern, inverting the documented meaning at lines 177-178 | `AssertType(new Uint8ClampedArray(), "*Array")` fails and `AssertType(new Map(), "*Array")` passes | `*X` accepts the types ending with X, and `X*` those starting with X | not executed | Validator.LeadingWildcardInverted | Validator.LeadingWildcardIntended |
