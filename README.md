# A verified model of the LSL script splicer

The OpenSimulator Python bridge builds LSL (Linden Scripting Language) scripts without a syntax tree. It keeps one growing string. It edits that string by finding anchor text with Python's `str.find` and `str.rfind`, then splicing new text in front of the anchor. The anchors are the sentinel comments the skeletons carry, such as `    }  // End of 'timer' event`.

The model covers five parts of that code:

- **The package engine** (`LSLpkg/LSLEvents.py`). There is a module-global document and a class-wide registry from each state label to "skeleton already printed". The `Events` class:
  - normalises state names;
  - emits state and event skeletons;
  - inserts body lines into events;
  - builds functions and inserts lines into them.
- **The older engine** (`LSL.py`). It uses the same splicing, but:
  - the document is passed in and returned;
  - the registry is a list of `[label, printed]` pairs, and every new object appends one;
  - the closing comment of a state ends in one space.
- **The line builders** (`LSLpkg/LSLFunc.py`): the `key` UUID validator, and `pySay`, `pyListen` and `pyMisc`.
- **The catalogue** (`LSLpkg/LSLConst.py`): the indentation unit, the newline, and the 39 event names. Each wrapper's parameter types come from `LSLEvents.py`.
- **The host's text rewriting** (`LSLUtilities.cs`):
  - the three placeholder replacements run before a script is written out;
  - the `XX_CREATEWORKDIR~…_XX` special-tag rewrite of Python source.

The Dafny modules follow that structure:

| module | contents |
|---|---|
| `Outcomes` | `Option`, `Result`, and one `Error` value per exception site |
| `PyStr` | the Python string builtins used, with their exact semantics: `find`, `rfind`, `strip`, `isspace`, `split(' ')`, `join`, `str(int)` |
| `LSLConst` | `TAB`, `NL`, the `EventKind` catalogue, its names, and the wrapper signature table |
| `Anchors` | the skeleton texts, `Splice`, the two-stage and three-stage anchor searches, and the line inserters shared by both engines |
| `LSLEvents` | the package engine: a `Session` class (`script` plus `__EVarray`) and the `Events` class |
| `LSL` | the older engine: a `Registry` class (the list `EVarray`) and its `LSLEvents` class |
| `LSLFunc` | `key` and the `Func` class |
| `LSLUtilities` | .NET `String.Replace`, the placeholder pass, and `ProcessSpecialTags` |

Python exceptions are `Err` values; the blank-line early exits that return `None` become `Ok(None)`. The 39 wrappers of each engine become one `Register(kind, names)` method over the signature table. The same holds for the 39 `<kind>_event_should_contain` wrappers, which become `EventShouldContain`.

Both engines share `add_function`, `function_should_contain` and `function_add_newline`, and the two copies of each are identical: `LSL.py` writes the indentation as its own `TAB` where the package writes `CONST.TAB`, and both are four spaces. They are therefore defined once: `LSLEvents.AddFunction`, `Anchors.FunctionLine` and `Anchors.FunctionNewline`.

The placeholder pass is sometimes described as order-independent. The host code runs three `Replace` calls in a fixed order, and the order matters: the model follows the code. `HostOrderExample` and `ReversedOrderExample` show a text on which the two orders differ.

## Model

| member | source | states |
|---|---|---|
| PyStr.Find | bin/Python/LSLpkg/LSLEvents.py:247-253 | `s.find(sub, start)` is -1, or an index at or after `start` where `sub` fits inside `s` |
| PyStr.FindFirst | bin/Python/LSLpkg/LSLEvents.py:247-253 | a successful `find` reports the first occurrence at or after `start` |
| PyStr.FindAbsent | bin/Python/LSLpkg/LSLEvents.py:247-253 | `find` gives -1 exactly when `sub` occurs nowhere at or after `start` |
| PyStr.FindIsFirst | bin/Python/LSLpkg/LSLEvents.py:247-253 | the first occurrence at or after `start` is what `find` reports |
| PyStr.RFind | bin/Python/LSLpkg/LSLEvents.py:229 | `rfind('}')` is -1 or an index holding `}` with no `}` after it |
| PyStr.IsSpace | bin/Python/LSLpkg/LSLEvents.py:185 | `str.isspace` for one character: Python's whitespace set; `LStrip`, `RStrip` and `Strip` are stated against it |
| PyStr.IsBlank | bin/Python/LSLpkg/LSLEvents.py:241 | `not(line and line.strip())`, the blank-line test of both engines' inserters: empty or whitespace only; `Strip` proves the stripped text is empty exactly then |
| PyStr.LStrip | bin/Python/LSLpkg/LSLEvents.py:185 | the result is a suffix of the input, what was cut is all whitespace, and the result does not start with whitespace |
| PyStr.RStrip | bin/Python/LSLpkg/LSLEvents.py:185 | the result is a prefix of the input, what was cut is all whitespace, and the result does not end with whitespace |
| PyStr.Strip | bin/Python/LSLpkg/LSLEvents.py:185-189 | `strip()` has no whitespace at either end, and is empty exactly when the input is blank |
| PyStr.StripIdempotent | bin/Python/LSLpkg/LSLEvents.py:185-189 | stripping an already stripped name changes nothing |
| PyStr.Split | bin/Python/LSLpkg/LSLEvents.py:277 | `split(' ')` gives at least one piece, and no piece holds the separator |
| PyStr.Join | bin/Python/LSLpkg/LSLEvents.py:289 | `sep.join(parts)`; `JoinSplit` and `JoinWithout` state its properties |
| PyStr.JoinSplit | bin/Python/LSLpkg/LSLEvents.py:277-289 | joining the pieces of a split with the separator gives the text back |
| PyStr.SplitNoSep | bin/Python/LSLpkg/LSLEvents.py:277 | a text without the separator splits into itself alone |
| PyStr.SplitPair | bin/Python/LSLpkg/LSLEvents.py:277-284 | `"a b".split(' ')` is exactly `[a, b]` when neither side holds a space |
| PyStr.JoinWithout | bin/Python/LSLpkg/LSLEvents.py:289 | a character in neither the pieces nor the separator is not in `", ".join(...)` |
| PyStr.NatToStr | bin/Python/LSLpkg/LSLFunc.py:140 | `str(n)` of a natural number is a non-empty run of decimal digits |
| PyStr.IntToStr | bin/Python/LSLpkg/LSLFunc.py:140 | `str(n)` starts with `-` exactly when `n < 0`, and digits follow |
| PyStr.NatToStrRoundTrip | bin/Python/LSLpkg/LSLFunc.py:140 | reading the digits back gives the number |
| LSLConst.IndentAndNewline | bin/Python/LSLpkg/LSLConst.py:15-20 | `TAB` is four spaces and `NL` is the single newline character |
| LSLConst.Ordinal | bin/Python/LSLpkg/LSLConst.py:22-144 | every kind sits at its ordinal, below 39, of the catalogue |
| LSLConst.CatalogueComplete | bin/Python/LSLpkg/LSLConst.py:22-144 | every event kind is in the catalogue |
| LSLConst.OrdinalOfEntry | bin/Python/LSLpkg/LSLConst.py:22-144 | the kind at catalogue position `i` has ordinal `i` |
| LSLConst.CatalogueHas39Kinds | bin/Python/LSLpkg/LSLConst.py:22-144 | the catalogue lists exactly 39 kinds, every kind, each once |
| LSLConst.CatalogueNameFacts | bin/Python/LSLpkg/LSLConst.py:22-144 | each event name is non-empty lower-case letters and underscores, and looking it up gives its kind back |
| LSLConst.KindNamedInverse | bin/Python/LSLpkg/LSLConst.py:22-144 | name lookup inverts `EventName` |
| LSLConst.EventNamesDistinct | bin/Python/LSLpkg/LSLConst.py:22-144 | the 39 event names are pairwise distinct |
| LSLConst.ExcludedNamesAbsent | bin/Python/LSLpkg/LSLConst.py:52-54 | no kind is named `event_order` or `remote_data` (the second is commented out at lines 115-117) |
| LSLConst.EventNameChars | bin/Python/LSLpkg/LSLConst.py:22-144 | an event name is non-empty and holds only lower-case letters and underscores |
| LSLConst.EventName | bin/Python/LSLpkg/LSLConst.py:22-144 | the value of each of the 39 constants; `EventNameChars`, `EventNamesDistinct` and `KindNamedInverse` state what the values promise |
| LSLConst.Signature | bin/Python/LSLpkg/LSLEvents.py:332-722 | the parameter types of each kind's wrapper, in the order its `params` string lists them |
| LSLConst.KindNamed | bin/Python/LSLpkg/LSLConst.py:22-144 | the kind a constant value names, or nothing; `KindNamedInverse` proves it undoes `EventName` |
| Anchors.EventSentinel | bin/Python/LSLpkg/LSLEvents.py:253 | the comment line that closes an event, indented by one unit; `EventBlockHoldsSentinel`, `EventSentinelsNotNested` and `EventLineSafe` state what the searches rely on |
| Anchors.FunctionSentinel | bin/Python/LSLpkg/LSLEvents.py:299 | the comment line that closes a function, searched for at lines 299 and 317; `FunctionSentinelsNotNested`, `FunctionLineSafe` and `FunctionNewlineSafe` state what the searches rely on |
| Anchors.StateClose | bin/Python/LSLpkg/LSLEvents.py:220 | the line closing a state skeleton, with the engine's pad; `StateCloseTailBraceFree` states that nothing after its `}` is a `}` |
| Anchors.Splice | bin/Python/LSLpkg/LSLEvents.py:255 | `s[:pos] + ins + s[pos:]` keeps the prefix before `pos` and the suffix after it, with `ins` between |
| Anchors.UnspliceRoundTrip | bin/Python/LSLpkg/LSLEvents.py:255 | cutting the inserted text back out gives the original document |
| Anchors.StateCloseTailBraceFree | bin/Python/LSLpkg/LSLEvents.py:220 | what follows the `}` closing a state skeleton holds no `}` when the label and pad hold none |
| Anchors.EventBlock | bin/Python/LSLpkg/LSLEvents.py:219 | the empty event skeleton: indented header, indented `{` and the event sentinel; `EventBlockHoldsSentinel` places the sentinel |
| Anchors.FunctionBlock | bin/Python/LSLpkg/LSLEvents.py:291 | the empty function skeleton: header, `{` and the function sentinel; `FunctionBlockLocatable` shows the search finds it |
| Anchors.StateBlock | bin/Python/LSLpkg/LSLEvents.py:220-225 | a state label, `{`, a body and the closing comment with its pad; `StateCloseTailBraceFree` and `SkeletonLocatable` state what the skeleton offers the searches |
| Anchors.EventBlockHoldsSentinel | bin/Python/LSLpkg/LSLEvents.py:219 | an event skeleton holds its sentinel at a fixed offset |
| Anchors.InsertBeforeLastBrace | bin/Python/LSLpkg/LSLEvents.py:229-234 | the splice before the right-most `}` fails, with the end-of-state error, exactly when the document holds no `}` |
| Anchors.InsertBeforeLastBraceAt | bin/Python/LSLpkg/LSLEvents.py:229-232 | the block lands exactly before the `}` that has no `}` after it |
| Anchors.InsertBeforeClosingBrace | bin/Python/LSLpkg/LSLEvents.py:229-232 | a block put before the brace that closes the last state lands inside that state |
| Anchors.InsertsStackBeforeLastBrace | bin/Python/LSLpkg/LSLEvents.py:229-232 | two blocks spliced one after the other before the right-most `}` appear in call order before the original brace |
| Anchors.LocateAnchor | bin/Python/LSLpkg/LSLEvents.py:296-306 | a successful key-then-sentinel search reports a position at or after `start` where the sentinel fits |
| Anchors.LocateAnchorSpec | bin/Python/LSLpkg/LSLEvents.py:296-306 | a success is the first sentinel past the first occurrence of the key at or after `start`; the first error comes exactly when the key occurs nowhere from `start` on, the second exactly when no sentinel follows the key's first occurrence, and there is no other error |
| Anchors.LocateAnchorFirst | bin/Python/LSLpkg/LSLEvents.py:296-306 | with the key's first occurrence at `p1`, the search gives `q` exactly when `q` is the first sentinel past `p1`, and the second error exactly when there is none |
| Anchors.LocateAnchorSucceeds | bin/Python/LSLpkg/LSLEvents.py:296-302 | the search succeeds exactly when the key occurs at or after `start` and a sentinel follows its first occurrence |
| Anchors.LocateEvent | bin/Python/LSLpkg/LSLEvents.py:247-253 | a successful three-stage search reports a position where the event sentinel fits |
| Anchors.LocateInState | bin/Python/LSLpkg/LSLEvents.py:247-253 | the same for any sentinel |
| Anchors.LocateEventSpec | bin/Python/LSLpkg/LSLEvents.py:247-264 | a success is the first event sentinel past the first event name past the first state label; it fails with state-not-found exactly when the label occurs nowhere, with event-not-found exactly when no event name follows the first label, with sentinel-not-found exactly when no sentinel follows that name, and with no other error |
| Anchors.LocateInStateSpec | bin/Python/LSLpkg/LSLEvents.py:247-264 | the same for any sentinel |
| Anchors.LocateInStateAfter | bin/Python/LSLpkg/LSLEvents.py:250-262 | with the first state label at `p1`: a success is the first sentinel past the first name past `p1`; event-not-found exactly when no name follows `p1`; sentinel-not-found exactly when no sentinel follows that name; never state-not-found |
| Anchors.LocateInStateStops | bin/Python/LSLpkg/LSLEvents.py:253-260 | with the first label at `p1` and the first name past it at `p2`, the search gives `q` exactly when `q` is the first sentinel past `p2`, and otherwise fails with sentinel-not-found |
| Anchors.LocateInStateSucceeds | bin/Python/LSLpkg/LSLEvents.py:247-258 | the event search succeeds exactly when the label occurs, a name follows its first occurrence, and a sentinel follows the first such name |
| Anchors.LocateInStateSucceedsAt | bin/Python/LSLpkg/LSLEvents.py:250-258 | with the first label at `p1`, the search succeeds exactly when a name follows `p1` and a sentinel follows the first such name |
| Anchors.LocateEventSucceeds | bin/Python/LSLpkg/LSLEvents.py:247-258 | the same for the event sentinel |
| Anchors.LocateFunction | bin/Python/LSLpkg/LSLEvents.py:296-299 | a successful function search reports a position where the function sentinel fits |
| Anchors.LocateFunctionSpec | bin/Python/LSLpkg/LSLEvents.py:296-306 | a success is the first function sentinel past the first occurrence of the name; it fails with function-not-found exactly when the name occurs nowhere, with end-not-found exactly when no sentinel follows the name's first occurrence, and with no other error |
| Anchors.LocateFunctionSucceeds | bin/Python/LSLpkg/LSLEvents.py:296-302 | the function search succeeds exactly when the name occurs and a function sentinel follows its first occurrence |
| Anchors.EventLine | bin/Python/LSLpkg/LSLEvents.py:240-264 | `_event_should_contain` on a string document: a blank line gives `None`; where the line goes is stated by `EventLineAt` and every error by `EventLineAt` and `EventLineFails` |
| Anchors.FunctionLine | bin/Python/LSLpkg/LSLEvents.py:310-326 | `function_should_contain`: a blank line gives `None`; where the line goes is stated by `FunctionLineAt` and every error by `FunctionLineAt` and `FunctionLineFails` |
| Anchors.FunctionNewline | bin/Python/LSLpkg/LSLEvents.py:295-308 | `function_add_newline`, with no blank-line exit; where the line break goes is stated by `FunctionNewlineAt` and every error by `FunctionNewlineAt` and `FunctionNewlineFails` |
| Anchors.EventLineAt | bin/Python/LSLpkg/LSLEvents.py:247-258 | with the first state label at `p1` and the first event name past it at `p2`, a non-blank line goes in exactly when an event sentinel follows `p2`, and then as two indentation units and the line right in front of the first such sentinel; otherwise the error is sentinel-not-found |
| Anchors.EventLineFails | bin/Python/LSLpkg/LSLEvents.py:247-264 | a non-blank line fails with state-not-found exactly when the label occurs nowhere, and with event-not-found exactly when no event name follows the first label |
| Anchors.FunctionLineAt | bin/Python/LSLpkg/LSLEvents.py:314-320 | with the first occurrence of the name at `p1`, a non-blank line goes in exactly when a function sentinel follows `p1`, and then as one indentation unit and the line right in front of the first such sentinel; otherwise the error is end-not-found |
| Anchors.FunctionLineFails | bin/Python/LSLpkg/LSLEvents.py:314-324 | a non-blank line fails with function-not-found exactly when the name occurs nowhere |
| Anchors.FunctionNewlineAt | bin/Python/LSLpkg/LSLEvents.py:296-302 | with the first occurrence of the name at `p1`, a line break goes in exactly when a function sentinel follows `p1`, and then right in front of the first such sentinel; otherwise the error is end-not-found |
| Anchors.FunctionNewlineFails | bin/Python/LSLpkg/LSLEvents.py:296-306 | the line break fails with function-not-found exactly when the name occurs nowhere |
| Anchors.EventLineShifts | bin/Python/LSLpkg/LSLEvents.py:247-258 | after a brace-free line is inserted, the event search finds the same sentinel just past the inserted text |
| Anchors.EventLineSafe | bin/Python/LSLpkg/LSLEvents.py:253-255 | an inserted brace-free event line can neither hold nor complete an event sentinel |
| Anchors.EventLinesStack | bin/Python/LSLpkg/LSLEvents.py:247-258 | two lines put into one event appear in call order directly above its sentinel, and nothing else changes |
| Anchors.FunctionInsertShifts | bin/Python/LSLpkg/LSLEvents.py:314-320 | after text that cannot form a sentinel is inserted, the function search finds the same sentinel just past it |
| Anchors.FunctionLineSafe | bin/Python/LSLpkg/LSLEvents.py:317-319 | an inserted brace-free function line can neither hold nor complete a function sentinel |
| Anchors.FunctionNewlineSafe | bin/Python/LSLpkg/LSLEvents.py:299-301 | the inserted newline can neither hold nor complete a function sentinel |
| Anchors.FunctionEditsStack | bin/Python/LSLpkg/LSLEvents.py:295-326 | a line, a newline and a line put into one function appear in call order directly above its sentinel |
| Anchors.SkeletonLocatable | bin/Python/LSLpkg/LSLEvents.py:219-220 | in a fresh state skeleton the three-stage search finds the new handler's sentinel at its known offset |
| Anchors.FunctionBlockLocatable | bin/Python/LSLpkg/LSLEvents.py:291-292 | a function skeleton put in front of any text is found by the function search at its known offset |
| Anchors.EventSentinelsNotNested | bin/Python/LSLpkg/LSLEvents.py:253 | the sentinel of one quote-free event name never occurs inside another's, e.g. `'touch' event` inside `'touch_start' event` |
| Anchors.FunctionSentinelsNotNested | bin/Python/LSLpkg/LSLEvents.py:299 | the same for function sentinels |
| LSLEvents.StateLabel | bin/Python/LSLpkg/LSLEvents.py:185-194 | the label fails with the inner-space error exactly when the stripped name holds a space; it is `default` exactly for a blank name or `default`, and `state ` plus the stripped name otherwise |
| LSLEvents.StateLabelIgnoresPadding | bin/Python/LSLpkg/LSLEvents.py:185 | a name and its stripped form give the same label |
| LSLEvents.StateLabelInjective | bin/Python/LSLpkg/LSLEvents.py:185-194 | equal labels come from equal stripped names, except the names that all mean `default` |
| LSLEvents.IsBlankDoc | bin/Python/LSLpkg/LSLEvents.py:213 | `not(contents and contents.strip())` on a document that may be `None`; `CallEventText` and `CallEventOnBlank` state what the blank path does |
| LSLEvents.CallEventText | bin/Python/LSLpkg/LSLEvents.py:213-234 | the text fails, with the end-of-state error, exactly when the document is not blank, its state is printed and it holds no `}` |
| LSLEvents.CallEventOnBlank | bin/Python/LSLpkg/LSLEvents.py:213-222 | a blank document becomes exactly the state skeleton holding the event, and the event line inserter finds that event's sentinel in it |
| LSLEvents.CallEventOpensState | bin/Python/LSLpkg/LSLEvents.py:224-232 | a non-blank document whose state is unprinted becomes the document followed by a new state holding just the event |
| LSLEvents.CallEventTextUnprinted | bin/Python/LSLpkg/LSLEvents.py:224-231 | on that path the empty state skeleton is appended before the right-most `}` is looked up |
| LSLEvents.StateBlockAround | bin/Python/LSLpkg/LSLEvents.py:220-225 | a state skeleton, cut at the `}` that closes it |
| LSLEvents.CallEventIntoLastState | bin/Python/LSLpkg/LSLEvents.py:229-232 | on a printed state the event lands before the `}` closing the last state of the document, whichever object it is called through |
| LSLEvents.CallEventsInOrder | bin/Python/LSLpkg/LSLEvents.py:229-232 | two events registered for a printed state appear in call order before the original right-most `}` |
| LSLEvents.RenderParams | bin/Python/LSLpkg/LSLEvents.py:332-335 | the wrapper's `params` text: the bindings joined by `", "`; `RenderParamsExamples` and `RenderParamsBraceFree` state its properties |
| LSLEvents.Bindings | bin/Python/LSLpkg/LSLEvents.py:332-335 | one `<type> <name>` binding per wrapper parameter, in order |
| LSLEvents.RenderParamsExamples | bin/Python/LSLpkg/LSLEvents.py:332-335 | `attach` renders `key <id>`; a wrapper without parameters renders nothing |
| LSLEvents.RenderParamsBraceFree | bin/Python/LSLpkg/LSLEvents.py:332-722 | parameter names without `}` give a parameter text without `}` |
| LSLEvents.TypeNameChars | bin/Python/LSLpkg/LSLEvents.py:275-280 | the seven type names hold neither `}` nor a space |
| LSLEvents.IsTypeName | bin/Python/LSLpkg/LSLEvents.py:278-280 | the seven LSL type names the pair check accepts; `IsTypeNameExactly` and `TypeNameChars` state its properties |
| LSLEvents.IsTypeNameExactly | bin/Python/LSLpkg/LSLEvents.py:278-280 | the accepted first tokens are exactly the seven LSL type names |
| LSLEvents.PairError | bin/Python/LSLpkg/LSLEvents.py:277-287 | the error of one argument pair, the type check before the arity check; `PairAccepted` states exactly when there is none |
| LSLEvents.FirstPairError | bin/Python/LSLpkg/LSLEvents.py:273-287 | the error of the first rejected pair, in order; `FirstPairErrorMeans` and `FirstPairErrorAfter` state its properties |
| LSLEvents.PairAccepted | bin/Python/LSLpkg/LSLEvents.py:277-287 | a pair is accepted exactly when it is a type name, one space, and a name without spaces |
| LSLEvents.FirstPairErrorMeans | bin/Python/LSLpkg/LSLEvents.py:273-287 | no error is reported exactly when every pair is accepted, and a reported error is the error of some pair |
| LSLEvents.FirstPairErrorAfter | bin/Python/LSLpkg/LSLEvents.py:273-287 | accepted pairs in front do not change which error is reported |
| LSLEvents.AddFunction | bin/Python/LSLpkg/LSLEvents.py:269-293 | the first bad pair, in order, ends the call with its error; otherwise the result is the function skeleton with the pairs joined by `", "`, put in front of the input, together with the name |
| LSLEvents.AddedFunctionLocatable | bin/Python/LSLpkg/LSLEvents.py:289-293 | the text `add_function` returns ends with the input, and the function search finds the new function's sentinel in it |
| LSLEvents.Session.constructor | bin/Python/LSLpkg/LSLEvents.py:130-177 | the document starts empty and the registry holds no state |
| LSLEvents.Session.ResetScript | bin/Python/LSLpkg/LSLEvents.py:135-137 | the document becomes empty; the registry is unchanged |
| LSLEvents.Session.GetScript | bin/Python/LSLpkg/LSLEvents.py:139-142 | returns the document |
| LSLEvents.Session.SetScript | bin/Python/LSLpkg/LSLEvents.py:144-146 | the document becomes the argument; the registry is unchanged |
| LSLEvents.Events.constructor | bin/Python/LSLpkg/LSLEvents.py:182-197 | the object gets the label, is unprinted, and the registry entry of the label becomes false, even if it was true |
| LSLEvents.Events.Create | bin/Python/LSLpkg/LSLEvents.py:182-197 | a name with an inner space is refused before anything changes; any other name gives a fresh object as the constructor does |
| LSLEvents.Events.Str | bin/Python/LSLpkg/LSLEvents.py:199-201 | the state counts as printed on the object and in the registry; the document is unchanged |
| LSLEvents.Events.CallEvent | bin/Python/LSLpkg/LSLEvents.py:207-238 | an unregistered label fails; otherwise the result is `CallEventText` of the old document and flag, it is stored as the document, and the flag becomes true; an error changes nothing |
| LSLEvents.Events.Register | bin/Python/LSLpkg/LSLEvents.py:332-722 | a wrong number of names is refused; otherwise the event is emitted with the kind's rendered parameter list, as `CallEvent` does |
| LSLEvents.Events.EventShouldContain | bin/Python/LSLpkg/LSLEvents.py:240-264 | a blank line gives `None` and touches nothing; on a `None` document the search fails; otherwise the result is `EventLine`'s, stored only on success |
| LSL.Labels | bin/Python/LSL.py:161 | the labels of the list entries, in list order |
| LSL.IndexOf | bin/Python/LSL.py:214 | `list.index` gives -1 exactly when the entry is absent, and otherwise its first position |
| LSL.ReplaceFirst | bin/Python/LSL.py:214-223 | `pairs[pairs.index(e)] = f`: the first entry equal to `e` becomes `f`; `ReplaceFirstKeepsOthers` states what it keeps |
| LSL.ReplaceFirstKeepsOthers | bin/Python/LSL.py:214-223 | replacing an entry by one with the same label keeps every label and every entry of another state |
| LSL.FlipBack | bin/Python/LSL.py:211-214 | the list after a printed entry of the state, if any, is set back to unprinted; `CallEventKeepsOthers` shows labels and other states are kept |
| LSL.BlankPairs | bin/Python/LSL.py:211-219 | the list after the blank-document path; `BlankMarksPrinted` and `CallEventKeepsOthers` state its properties |
| LSL.UnprintedPairs | bin/Python/LSL.py:221-223 | the list after the non-blank path; `UnprintedMarksPrinted` and `CallEventKeepsOthers` state its properties |
| LSL.CallEventKeepsOthers | bin/Python/LSL.py:208-223 | on either path the list keeps its labels in order, and the entries of other states are unchanged |
| LSL.EntryOfLabel | bin/Python/LSL.py:211-223 | a registered label with no entry of one flag has an entry of the other |
| LSL.BlankIndexFound | bin/Python/LSL.py:211-219 | for a registered label, the `index` of the blank path finds an unprinted entry |
| LSL.BlankMarksPrinted | bin/Python/LSL.py:210-219 | after the blank path a registered label has a printed entry |
| LSL.UnprintedMarksPrinted | bin/Python/LSL.py:221-223 | after the non-blank path a registered label has a printed entry |
| LSL.SecondObjectReopensState | bin/Python/LSL.py:181 | two objects of one state leave two entries, so the second still finds an unprinted entry and emits the state skeleton again |
| LSL.Registry.constructor | bin/Python/LSL.py:161 | the list starts empty |
| LSL.LSLEvents.constructor | bin/Python/LSL.py:166-181 | the object gets the label, is unprinted, and a fresh `[label, False]` entry is appended, even if one is there |
| LSL.LSLEvents.Create | bin/Python/LSL.py:166-181 | a name with an inner space is refused before the list changes; any other name gives a fresh object as the constructor does |
| LSL.LSLEvents.Str | bin/Python/LSL.py:183-185 | the text is the label followed by an empty pair of braces |
| LSL.LSLEvents.CallEvent | bin/Python/LSL.py:208-232 | the result is the new text and `params`, as `CallEventText` computes with the one-space pad; the list becomes `BlankPairs` or `UnprintedPairs`; a blank document with an unregistered label fails at the `index` |
| LSL.WithParams | bin/Python/LSL.py:232 | `return contents, params`: the text paired with the parameter list, an error passed on; `LSL.LSLEvents.CallEvent` states the result through it |
| LSL.LSLEvents.Register | bin/Python/LSL.py:300-690 | a wrong number of names is refused and changes nothing; otherwise the event is emitted with the kind's rendered parameter list, as `CallEvent` does |
| LSL.LSLEvents.EventShouldContain | bin/Python/LSL.py:187-206 | a blank line gives `None`; a `None` document fails with the error of `None.find`; otherwise the result is `EventLine`'s on the passed document; nothing is stored |
| LSLFunc.KeyAccepts | bin/Python/LSLpkg/LSLFunc.py:14-15 | what `re.match` accepts: the UUID layout at the start, or `^$`, which also accepts `"\n"`; `MakeKey`, `UuidLayoutAccepted`, `ShortTextRefused` and `GroupsMatchIsUuidShape` state its properties |
| LSLFunc.GroupsMatchIsUuidShape | bin/Python/LSLpkg/LSLFunc.py:14 | matching the five groups left to right is the positional UUID layout |
| LSLFunc.MakeKey | bin/Python/LSLpkg/LSLFunc.py:14-16 | `key(uuid)` succeeds exactly when the pattern accepts the text; otherwise it fails with the UUID error |
| LSLFunc.KeyText | bin/Python/LSLpkg/LSLFunc.py:20-21 | `str(key)`: the stored UUID text; `KeyRoundTrip` shows it is exactly the text the key was made from |
| LSLFunc.KeyRoundTrip | bin/Python/LSLpkg/LSLFunc.py:18-21 | an accepted key renders as exactly the text it was made from |
| LSLFunc.UuidLayoutAccepted | bin/Python/LSLpkg/LSLFunc.py:14-16 | runs of 8, 4, 4, 4 and 12 letters or digits joined by `-` are accepted, whatever follows |
| LSLFunc.ShortTextRefused | bin/Python/LSLpkg/LSLFunc.py:14-16 | a non-empty text shorter than a UUID, other than a lone newline, is refused |
| LSLFunc.SayLine | bin/Python/LSLpkg/LSLFunc.py:139-140 | the `llSay` line with the channel and the quoted message; `SayLineFacts` and `SayLineInjective` state its properties |
| LSLFunc.ListenLine | bin/Python/LSLpkg/LSLFunc.py:121-124 | the `llListen` line, closed by `;` and a newline unless embedded; `ListenLineFacts`, `ListenLineBrace` and `ListenLineEnd` state its properties |
| LSLFunc.SayLineFacts | bin/Python/LSLpkg/LSLFunc.py:139-140 | a say line is never blank, and holds a `}` exactly when the message does |
| LSLFunc.ListenLineFacts | bin/Python/LSLpkg/LSLFunc.py:121-124 | a listen line is never blank, holds a `}` exactly when one of its texts does, and ends with `;` and a newline exactly when not embedded |
| LSLFunc.ListenLineBrace | bin/Python/LSLpkg/LSLFunc.py:121-122 | the `}` of a listen line come from its name, id and message |
| LSLFunc.ListenLineEnd | bin/Python/LSLpkg/LSLFunc.py:123-124 | a listen line ends with `;` and a newline exactly when it is not embedded |
| LSLFunc.SayLineInjective | bin/Python/LSLpkg/LSLFunc.py:139-140 | a say line determines its channel and its message |
| LSLFunc.IntToStrInjective | bin/Python/LSLpkg/LSLFunc.py:140 | different channels render differently |
| LSLFunc.SaysStack | bin/Python/LSLpkg/LSLFunc.py:132-145 | two say lines put into one event appear in call order directly above its sentinel |
| LSLFunc.Func.constructor | bin/Python/LSLpkg/LSLFunc.py:86-92 | the helper is bound to its object and event name |
| LSLFunc.Func.Put | bin/Python/LSLpkg/LSLFunc.py:126-129 | the line goes in through `_event_should_contain`, and what that returns, `None` included, becomes the document; an error leaves it unchanged |
| LSLFunc.Func.PySay | bin/Python/LSLpkg/LSLFunc.py:132-145 | the say line goes into the bound event, and the edited document is stored |
| LSLFunc.Func.PyListen | bin/Python/LSLpkg/LSLFunc.py:105-129 | the listen line goes into the bound event, and the edited document is stored |
| LSLFunc.Func.PyMisc | bin/Python/LSLpkg/LSLFunc.py:170-176 | the text goes in verbatim; a blank text stores `None` as the document |
| LSLUtilities.Replace | OpenSim/Region/ScriptEngine/Shared/CodeTools/LSLUtilities.cs:44-46 | the result is no longer than the input when the replacement is no longer than the pattern, and no shorter when it is no shorter |
| LSLUtilities.Substitute | OpenSim/Region/ScriptEngine/Shared/CodeTools/LSLUtilities.cs:44-46 | the three replacements never lengthen the text |
| LSLUtilities.ReplaceAbsent | OpenSim/Region/ScriptEngine/Shared/CodeTools/LSLUtilities.cs:44-46 | `Replace` returns a text without the pattern unchanged |
| LSLUtilities.ReplaceRemoves | OpenSim/Region/ScriptEngine/Shared/CodeTools/LSLUtilities.cs:44-46 | after `Replace` with a text sharing no character with the pattern, the pattern occurs nowhere |
| LSLUtilities.ReplaceKeepsAbsent | OpenSim/Region/ScriptEngine/Shared/CodeTools/LSLUtilities.cs:44-46 | a replacement sharing no character with a text `q` creates no occurrence of `q` |
| LSLUtilities.NoPlaceholderLeft | OpenSim/Region/ScriptEngine/Shared/CodeTools/LSLUtilities.cs:44-46 | after the three replacements none of the three placeholders is left |
| LSLUtilities.PlaceholderFreeUnchanged | OpenSim/Region/ScriptEngine/Shared/CodeTools/LSLUtilities.cs:44-46 | a text holding no placeholder passes through unchanged |
| LSLUtilities.HostOrderExample | OpenSim/Region/ScriptEngine/Shared/CodeTools/LSLUtilities.cs:44-45 | in the host's order, `__obrace__cbrace__` becomes `{cbrace__` |
| LSLUtilities.ReversedOrderExample | OpenSim/Region/ScriptEngine/Shared/CodeTools/LSLUtilities.cs:44-45 | in the other order the same text becomes `__obrace}`, so the order matters |
| LSLUtilities.IsNetSpace | OpenSim/Region/ScriptEngine/Shared/CodeTools/LSLUtilities.cs:62 | the .NET `\s` set, which `TagMatch` requires of the white space after `_XX`; `MatchEnd` and `LongestSpace` state what the greedy run takes |
| LSLUtilities.TagMatch | OpenSim/Region/ScriptEngine/Shared/CodeTools/LSLUtilities.cs:62 | one way the pattern matches at a start: the tag head, a directory without a newline, `_XX`, then white space ending in a newline; `MatchFrom` and `TagMatchOnLine` are stated against it |
| LSLUtilities.ChosenFrom | OpenSim/Region/ScriptEngine/Shared/CodeTools/LSLUtilities.cs:62 | the match the regular expression reports: the leftmost start, then the longest directory, then the longest white space; `MatchFromSpec` proves `MatchFrom` reports it |
| LSLUtilities.LineEnd | OpenSim/Region/ScriptEngine/Shared/CodeTools/LSLUtilities.cs:62 | the first newline at or after `k`, or the end: where `.` stops |
| LSLUtilities.LastTail | OpenSim/Region/ScriptEngine/Shared/CodeTools/LSLUtilities.cs:62 | the largest position up to `p` where `_XX`, white space and a newline fit, or -1 |
| LSLUtilities.LastTailSpec | OpenSim/Region/ScriptEngine/Shared/CodeTools/LSLUtilities.cs:62 | no larger position fits |
| LSLUtilities.MatchEnd | OpenSim/Region/ScriptEngine/Shared/CodeTools/LSLUtilities.cs:62 | the match ends after white space that ends in a newline |
| LSLUtilities.MatchAt | OpenSim/Region/ScriptEngine/Shared/CodeTools/LSLUtilities.cs:62-63 | what it reports at a start holding the head is a match of the pattern |
| LSLUtilities.MatchFrom | OpenSim/Region/ScriptEngine/Shared/CodeTools/LSLUtilities.cs:62-63 | what it reports is a match of the pattern |
| LSLUtilities.TagMatchOnLine | OpenSim/Region/ScriptEngine/Shared/CodeTools/LSLUtilities.cs:62 | every match puts `_XX` on the tag's line, where the tail fits |
| LSLUtilities.NoMatchAt | OpenSim/Region/ScriptEngine/Shared/CodeTools/LSLUtilities.cs:62 | when the tail fits nowhere on the tag's line, the pattern does not match at that start |
| LSLUtilities.LongestDirectory | OpenSim/Region/ScriptEngine/Shared/CodeTools/LSLUtilities.cs:62 | the directory taken is the longest one (`.*` is greedy) |
| LSLUtilities.LongestSpace | OpenSim/Region/ScriptEngine/Shared/CodeTools/LSLUtilities.cs:62 | the white space taken after `_XX` is the longest (`\s*` is greedy) |
| LSLUtilities.MatchFromSpec | OpenSim/Region/ScriptEngine/Shared/CodeTools/LSLUtilities.cs:62-63 | `MatchFrom` reports the leftmost match with the longest directory and then the longest white space, and nothing only when the pattern matches nowhere |
| LSLUtilities.ProcessSpecialTags | OpenSim/Region/ScriptEngine/Shared/CodeTools/LSLUtilities.cs:60-85 | a source holding no `XX_CREATEWORKDIR~` comes back unchanged |
| LSLUtilities.ProcessSpecialTagsSpec | OpenSim/Region/ScriptEngine/Shared/CodeTools/LSLUtilities.cs:60-85 | without a match the source comes back unchanged; with one, every copy of the matched text is deleted and then every `XX_WORKDIR_XX` becomes the captured directory |
| LSLUtilities.WorkDirReplaced | OpenSim/Region/ScriptEngine/Shared/CodeTools/LSLUtilities.cs:71-72 | after processing, no `XX_WORKDIR_XX` is left when the directory is non-empty and shares no character with the tag |

## Left out

- `write_to_file`, `File.WriteAllText` and its catch-and-log, `Directory.Exists` and `Directory.CreateDirectory`, `lsl_log` and the logger: file-system access and logging. The model returns the rewritten text. The exceptions the directory call can throw are not modelled either: for an empty captured directory, as in `XX_CREATEWORKDIR~_XX` followed by a newline, or for an invalid path, the host throws after the rewrite, while `ProcessSpecialTags` still returns the rewritten text.
- The `print` warnings of both engines: they are diagnostics only and change no state.
- The `inspect.currentframe()` name derivation and the 39 copy-paste wrappers of each engine, including the second `listen` definition that shadows the first: `Register` and `EventShouldContain` take the kind or its name instead.
- The `isinstance` checks and their `ValueError`s: Dafny's types rule out wrongly typed arguments.
- The `vector` and `rotation` classes and `pySetColor`: they parse and print floats.
- Reading and assigning the `constant` properties: Dafny constants are immutable. The catalogue names each constant by its `EventKind` constructor. The relation between the upper-case identifier and the lower-case value is not stated.
- `None` passed as the input text to `add_function`, `function_should_contain` or `function_add_newline`: the model takes a string there.
- `LSLEvents.Events.Str`: the package's `__str__` returns `None`, so `str()` raises a `TypeError` after setting the flag. The model records only the flag update.
- `LSLFunc.MakeKey`: `\d` is read as the ASCII digits. Python's `\d` on text also accepts other Unicode decimal digits.
- `LSLUtilities.MatchFromSpec`: the pattern is modelled for its own shape only. Its `.*` stops at a newline, the match is leftmost, and both quantifiers are greedy. General .NET regular expressions are not.
- `bin/main.py` is not part of this model: it is a host driver.
