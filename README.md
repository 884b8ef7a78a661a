# Branching-story player: loading and navigation, verified in Dafny

This project models the logic of `src/App.jsx`, a React component that plays
a branching story. The story is a spreadsheet: one row per scene, a numeric
`sceneId` and a `choices` cell holding a JSON list of buttons, each of which
names the `nextSceneId` it leads to. The model covers five parts.

- **Values and `parseInt`** (`JsRuntime`, `js_runtime.dfy`). This part
  covers the JavaScript values the code handles and the `String(...)`
  conversion, which throws for an object with its own non-callable
  `toString`. It also covers `trim`, the JavaScript whitespace set, property
  access, and `parseInt` for radix 10 and 16: leading whitespace, a sign, a
  `0x` prefix in radix 16, the longest digit prefix, and NaN when there is
  no digit.
- **`parseChoices`** (`ChoiceParsing`, `choices.dfy`). It classifies the
  cell:
  - null or undefined gives `[]`;
  - an array passes through unvalidated;
  - any other non-string, or a blank string, gives `[]`;
  - otherwise the string is stripped of `\n\r\t`, trimmed and decoded. A
    result that is not an array gives `[]`.
  - In a decoded array, each entry is kept when its `text` is a string and
    its `nextSceneId` parses as a decimal integer, and is otherwise dropped.
  - A decoding failure, or an entry on which field access throws, becomes
    the error the function re-throws.
- **`fetchData` after the response has been decoded** (`StoryLoader`,
  `story_loader.dfy`).
  - The row loop skips rows whose id is NaN. It records the last row error
    but keeps going.
  - Then come the two "nothing to show" errors, the stable sort by
    `sceneId`, and the choice of the initial scene.
  - The loop is a method, proved equal to a function over the rows. The
    function's properties are proved as lemmas.
- **The `App` state machine** (`Navigation`, `navigation.dfy`).
  - The state is `storyData`, `currentSceneId`, `currentScene`,
    `isLoading`, `error` and `isTransitioning`, plus a virtual clock and a
    queue of pending `setTimeout` callbacks ordered by due time, FIFO among
    equal times.
  - It covers the effect that looks up the current scene, the click handler
    with its 300 ms and 50 ms callbacks, and the render priority.
  - A scene that cannot be put on screen crashes the page: a position
    cell without `includes`, a question colour that cannot be converted
    to a string, or a background image or music cell that is truthy but
    not a string.
  - A class `App` holds the state as fields. Each of its methods is proved
    to produce the state that a step function computes.
- **Presentation helpers** (`Styles`, `styles.dfy`; `SceneMedia`,
  `scene_media.dfy`).
  - The two alignment `switch`es.
  - `getPositionStyles`, as the in-place update of a style record, on
    any cell value (a value without an `includes` method throws).
  - The colour part of `hexToRgba`.
  - The background-image path rule and the background-music decision.

JSON decoding is a parameter `parse: string -> Option<JsValue>`, where `None`
means `JSON.parse` threw. Numbers are unbounded integers and strings are
sequences of Unicode characters; "## Left out" lists what that changes.

## Model

| member | source | states |
|---|---|---|
| JsRuntime.Property | src/App.jsx:237 | `row.sceneId` on a non-object is undefined; on an object it is the field, or undefined when absent; the requires excludes null/undefined, where access throws |
| JsRuntime.Trim | src/App.jsx:182-184 | `trim()` removes JavaScript white space at both ends: the result is empty exactly when the input is blank (`TrimEmptyIffBlank`), and text with no white space at either end is left as it is (`TrimNoop`) |
| JsRuntime.ToStr | src/App.jsx:7 | `String(v)` of a string is the string, of a number its decimal text, and of an object it throws exactly when the object has its own `toString` key |
| JsRuntime.ParseIntValue | src/App.jsx:237 | `parseInt(v, 10)` throws exactly when converting `v` to a string throws |
| JsRuntime.ParseInt | src/App.jsx:191 | `parseInt(s, radix)` skips leading white space and reads the rest with `ParseTrimmed`; what it returns is carried by `ParseIntSkipsWhitespace`, `ParseIntIgnoresTrailing`, `ParseIntNaNWithoutDigits`, `ParseIntDecimalRoundTrip` and `ParseIntHexPair` below |
| JsRuntime.ParseTrimmed | src/App.jsx:26-27 | after the white space: an optional sign, in radix 16 an optional `0x`, then the longest digit prefix, NaN when it is empty (`ParseIntNaNWithoutDigits`, `ParseIntIgnoresTrailing`, `ParseIntHexPair`) |
| JsRuntime.TrimEmptyIffBlank | src/App.jsx:182 | `s.trim() === ''` holds exactly when every character of `s` is JavaScript whitespace |
| JsRuntime.ParseIntDecimalRoundTrip | src/App.jsx:237 | `parseInt` of the decimal text of any integer gives that integer back |
| JsRuntime.ParseIntValueOfNum | src/App.jsx:237 | a numeric `sceneId` cell parses to itself |
| JsRuntime.ParseIntSkipsWhitespace | src/App.jsx:191 | leading whitespace does not change what `parseInt` reads |
| JsRuntime.ParseIntIgnoresTrailing | src/App.jsx:191 | `parseInt` reads the longest digit prefix and ignores what follows it |
| JsRuntime.ParseIntNaNWithoutDigits | src/App.jsx:238 | `parseInt` is NaN exactly when, after whitespace, sign and (radix 16) `0x` prefix, no digit follows |
| JsRuntime.ParseIntHexPair | src/App.jsx:26-27 | two hex digits parse in radix 16 to 16·hi + lo, which lies in 0..255 |
| ChoiceParsing.RemoveControl | src/App.jsx:184 | the result has no `\n`, `\r` or `\t`, and is the input when the input had none; with `RemoveControlChar` and `RemoveControlAppend` this fixes the result of every input: every other character survives, in order |
| ChoiceParsing.RemoveControlChar | src/App.jsx:184 | one character is removed exactly when it is `\n`, `\r` or `\t`, and otherwise kept |
| ChoiceParsing.RemoveControlAppend | src/App.jsx:184 | the global `replace` works character by character: cleaning `a + b` is cleaning `a`, then `b` |
| ChoiceParsing.Cleaned | src/App.jsx:184 | `replace(/[\n\r\t]/g, '').trim()`: the contract is that of its two parts, `RemoveControl` (with `RemoveControlChar` and `RemoveControlAppend`) and `Trim`, and `CleanedKeepsPlainText` below |
| ChoiceParsing.CleanedKeepsPlainText | src/App.jsx:184 | cleaning leaves a string with no control characters and no outer whitespace unchanged, and it is not blank |
| ChoiceParsing.WithNextSceneId | src/App.jsx:196 | `{ ...choice, nextSceneId: id }` keeps every other field and sets `nextSceneId` to the number |
| ChoiceParsing.NormaliseChoice | src/App.jsx:190-197 | a kept entry is well formed (string `text`, numeric `nextSceneId`) |
| ChoiceParsing.NormaliseChoiceCases | src/App.jsx:191-196 | an entry throws exactly when it is nullish or its `nextSceneId` cannot be converted to a string; it is kept exactly when `text` is a string and `nextSceneId` parses to an integer, and then it is the entry with that integer in place |
| ChoiceParsing.FilterKept | src/App.jsx:197 | `filter(choice => choice !== null)` after a `map` that may throw: the result is never longer than the outcomes; it fails when some outcome threw (`FilterKeptThrows`); otherwise it holds exactly the kept choices, in order (`FilterKeptSelects`, `FilterKeptFrom`) |
| ChoiceParsing.NormaliseAll | src/App.jsx:190-197 | the map-then-filter keeps at most as many entries as it was given, all well formed |
| ChoiceParsing.ParseChoices | src/App.jsx:179-202 | nullish gives `[]`; an array passes unchanged; another non-string or a blank string gives `[]`; a decode failure is an error carrying the raw cell; a decoded non-array gives `[]`; every error comes from a string cell; a list made from a string is all well formed |
| ChoiceParsing.ParseChoicesOfArray | src/App.jsx:190-200 | for a cell decoding to an array, the result is the normalised array, or the error when some entry throws |
| ChoiceParsing.ParseChoicesKeepsValidInOrder | src/App.jsx:190-197 | when no entry throws, the result is exactly the kept entries, normalised, in input order (an index sequence, increasing, holding exactly the kept positions) |
| ChoiceParsing.ParseChoicesFailsOnBadElement | src/App.jsx:190-200 | one throwing entry anywhere makes the whole cell fail with its raw text |
| ChoiceParsing.KeptChoiceIsFixedPoint | src/App.jsx:191-196 | normalising a well-formed entry keeps it as it is |
| ChoiceParsing.NormaliseAllIdempotent | src/App.jsx:190-197 | normalising an already-normalised list returns it unchanged |
| ChoiceParsing.PerEntryValidation | src/App.jsx:192-195 | entries are judged one by one: a numeric `text` is dropped while a valid neighbour is kept |
| StoryLoader.UndefinedIdIsNaN | src/App.jsx:237-238 | a row without `sceneId` parses to NaN |
| StoryLoader.ProcessRow | src/App.jsx:235-251 | a formatted row keeps the row's fields, and its id and choices are what `parseInt` and `parseChoices` gave; `ProcessRowCases` states every other outcome |
| StoryLoader.ProcessRowCases | src/App.jsx:236-250 | a row is skipped exactly when its id parses to NaN; it throws a type error exactly when it is nullish or its `sceneId` cannot be converted to a string; it throws a choices error exactly when the id is an integer and `parseChoices` fails, and then it is that error |
| StoryLoader.NaNRowIgnoresChoices | src/App.jsx:237-241 | a row with a NaN id is skipped whatever its choices, so `parseChoices` is never consulted |
| StoryLoader.Collect | src/App.jsx:234-252 | the filter over the row outcomes, with `processingError` set by each throwing row: never more scenes than rows; its meaning is carried by `CollectAppend`, `CollectErrorIff`, `CollectEmptyIff`, `LastRowErrorWins` and `CollectMembers` below |
| StoryLoader.ProcessAll | src/App.jsx:235-251 | the row loop over the decoded rows, as `ProcessRow` per row then `Collect`; `LoadErrors`, `LoadSuccess` and the method `FormatStory` state what it yields |
| StoryLoader.CollectAppend | src/App.jsx:234-252 | running the row loop over `a + b` is running it over `a`, then over `b` (the later error wins) |
| StoryLoader.DroppedRowIsInvisible | src/App.jsx:252 | a skipped row changes nothing in the loop's result |
| StoryLoader.CollectErrorIff | src/App.jsx:247-254 | `processingError` is unset exactly when no row threw |
| StoryLoader.CollectEmptyIff | src/App.jsx:252 | the formatted list is empty exactly when no row was formatted |
| StoryLoader.LastRowErrorWins | src/App.jsx:249 | the recorded error is that of the last row that threw |
| StoryLoader.CollectMembers | src/App.jsx:235-252 | a scene is in the formatted list exactly when some row formats to it |
| StoryLoader.Insert | src/App.jsx:265 | inserting into a sorted list keeps it sorted and adds one element |
| StoryLoader.InsertIsPermutation | src/App.jsx:265 | insertion adds exactly the new element |
| StoryLoader.SortBySceneId | src/App.jsx:265 | the sort's result is ordered by `sceneId` and as long as its input |
| StoryLoader.SortIsPermutation | src/App.jsx:265 | the sort is a permutation of its input |
| StoryLoader.InsertKeepsIdOrder | src/App.jsx:265 | insertion puts the new scene ahead of the equal ids already present |
| StoryLoader.SortIsStable | src/App.jsx:265 | for every id, the scenes with that id come out in input order |
| StoryLoader.StableSortIsUnique | src/App.jsx:265 | two sorted lists with the same scenes per id in the same order are equal, so any stable sort gives this model's result |
| StoryLoader.FindIndex | src/App.jsx:295 | `findIndex` gives the first index with the id, or nothing exactly when no scene has it |
| StoryLoader.FindScene | src/App.jsx:271 | `find` gives a scene of the list with that id, and nothing exactly when none has it |
| StoryLoader.FindSceneIsFirstWithId | src/App.jsx:295 | `find` gives the first of the scenes with that id |
| StoryLoader.InitialScene | src/App.jsx:270-278 | the initial id names a scene; it is 1 whenever scene 1 exists; otherwise, in a sorted list, it is the smallest id |
| StoryLoader.Load | src/App.jsx:229-278 | a non-array payload, and only that, is the "not an array" error; a success is non-empty, sorted, and its initial id names a scene |
| StoryLoader.LoadErrors | src/App.jsx:229-263 | the load fails with a row's error exactly when some row threw; with "no valid scenes" exactly when rows arrived and all were skipped; with "no data" exactly for an empty array |
| StoryLoader.LoadSuccess | src/App.jsx:234-267 | on success nothing threw, and the scenes are a permutation of the formatted rows that keeps every id's rows in input order; a scene is present exactly when some row formats to it |
| StoryLoader.LookupPrefersEarliestRow | src/App.jsx:265 | with duplicate ids, looking an id up after the sort finds the scene of the earliest row with it |
| StoryLoader.FormatStory | src/App.jsx:229-278 | the row loop with its `processingError`, the checks, the sort and the initial id compute `Load` |
| StoryLoader.EmptyPayload | src/App.jsx:261-263 | an empty array is "no data" |
| StoryLoader.SkippedRowFails | src/App.jsx:258-260 | a single skipped row gives "no valid scenes" |
| StoryLoader.OnlyInvalidIdRow | src/App.jsx:237-241 | a single row with id "x" gives "no valid scenes" |
| StoryLoader.RowThrowsOnChoices | src/App.jsx:245-249 | a row with a numeric id whose choices fail throws that error |
| StoryLoader.ThrowingRowFails | src/App.jsx:254-256 | a single throwing row fails the load with its error |
| StoryLoader.UndecodableCell | src/App.jsx:183-185 | a choices cell the decoder rejects is `parseChoices`' error for that text |
| StoryLoader.UndecodableChoices | src/App.jsx:254-256 | one row with id "1" and undecodable choices fails the whole load with that error |
| Navigation.ScheduleIsPermutation | src/App.jsx:363-365 | queueing a callback adds exactly that callback to the pending ones |
| Navigation.ScheduleSorted | src/App.jsx:363-365 | the queue stays ordered by due time |
| Navigation.ScheduleFifo | src/App.jsx:363-365 | a new callback goes after every pending one due no later, and before the others, which keep their order |
| Navigation.ScheduleLast | src/App.jsx:363-365 | a callback due no earlier than all pending ones is appended |
| Navigation.InsertionPoint | src/App.jsx:363-365 | the callbacks before the insertion point are due no later than the new one, and in a sorted queue all after it are due later |
| Navigation.Schedule | src/App.jsx:363-365 | queueing a `setTimeout` callback adds one entry and one unit of weight per pending swap; `ScheduleIsPermutation`, `ScheduleSorted`, `ScheduleFifo` and `ScheduleLast` state where it goes |
| Navigation.SyncScene | src/App.jsx:293-303 | the lookup effect changes only `currentScene` and `error`; with no data it does nothing; with a known id it shows the first scene with that id; with an unknown id it sets the not-found error |
| Navigation.AfterLoad | src/App.jsx:229-285 | the end of `fetchData`: a successful load stores the sorted scenes and the initial id and runs the lookup effect, a failed one sets the error; both end loading (`AfterLoadInv`, `LoadShowsInitialScene`) |
| Navigation.AfterFetchFailure | src/App.jsx:280-285 | a failed request sets the error and ends loading, keeping the invariant (`AfterLoadInv`) |
| Navigation.OnClick | src/App.jsx:349-367 | the click handler; `NullishClickIgnored`, `UnknownClickShowsError`, `OnClickInv`, `ClickQueuesLast` and `ClickLastWins` state its three outcomes and what follows them |
| Navigation.Swap | src/App.jsx:363-365 | the 300 ms callback sets the id and queues the fade end 50 ms later; when the target is known and the state is consistent, the shown scene becomes the target's and the error is untouched |
| Navigation.SwapKnown | src/App.jsx:363-365 | the full state after a swap to a known scene |
| Navigation.Fire | src/App.jsx:363-366 | running one callback: a swap queues exactly one fade end, so the weight of the queue grows by one exactly then; `FireInv` shows it keeps the invariant |
| Navigation.Settle | src/App.jsx:363-366 | running every callback due by a time, in due order; `SettleInv`, `SettleKeepsError`, `EveryTransitionEnds` and `LastSwapWins` state what it keeps and where it ends |
| Navigation.Advance | src/App.jsx:363-366 | letting a number of milliseconds pass; `AdvanceInv` and `ClickLastWins` state what it keeps and reaches |
| Navigation.Render | src/App.jsx:370-384 | the render's early returns in order: loading, then error, then no scene; then the scene, faded while transitioning, or the blank page of an uncaught throw when one of the scene's cells cannot be read (`InitialInv`, `RenderShowsCurrentScene`, `NullPositionCrashes`, `StringCellsAreShown`, `UnknownClickShowsError`, `LoadShowsInitialScene`) |
| Navigation.InitialInv | src/App.jsx:168-173 | the mount state satisfies the invariant and renders the loading screen |
| Navigation.AfterLoadInv | src/App.jsx:265-285 | ending a load, successfully or not, keeps the invariant |
| Navigation.OnClickInv | src/App.jsx:349-367 | a click keeps the invariant |
| Navigation.SwapInv | src/App.jsx:363-365 | running a swap callback keeps the invariant |
| Navigation.FireInv | src/App.jsx:363-366 | running any due callback keeps the invariant |
| Navigation.SettleInv | src/App.jsx:363-366 | letting time pass keeps the invariant |
| Navigation.AdvanceInv | src/App.jsx:363-366 | advancing the clock by any amount keeps the invariant |
| Navigation.LoadShowsInitialScene | src/App.jsx:267-303 | after a successful load the screen shows the initial scene, unfaded, or the crash when that scene's cells throw; after a failed one it shows the load error |
| Navigation.RenderShowsCurrentScene | src/App.jsx:370-384 | once loaded without error, the screen shows the scene with the current id, faded exactly while transitioning; it is the crash exactly when that scene throws |
| Navigation.NullPositionCrashes | src/App.jsx:382-383 | a shown scene whose `questionPosition` is null makes `getPositionStyles` throw, and the page is blank |
| Navigation.StringCellsAreShown | src/App.jsx:306-335 | a scene whose position, question colour, background and music cells are strings or absent is shown, not crashed |
| Navigation.SettleKeepsError | src/App.jsx:363-366 | the timer callbacks never change `error`, the story or `isLoading` |
| Navigation.NullishClickIgnored | src/App.jsx:350-353 | a null or undefined target changes nothing |
| Navigation.UnknownClickShowsError | src/App.jsx:354-358 | a target naming no scene (including a non-number) sets the error, changes nothing else and renders the error |
| Navigation.ClickFadesOut | src/App.jsx:360-363 | after a click the scene fades out at once and is still the old one 299 ms later (or the crash, if that scene throws) |
| Navigation.ClickSwapsAt300 | src/App.jsx:363-364 | 300 ms after a click the id is the target and its scene is shown, still faded, or the crash when the target scene throws |
| Navigation.EveryTransitionEnds | src/App.jsx:362-366 | once every pending callback has fallen due, the queue is empty and the fade has ended |
| Navigation.LastSwapWins | src/App.jsx:363-364 | after all pending callbacks run, the current id is the target of the last queued swap and its scene is shown |
| Navigation.ClickQueuesLast | src/App.jsx:360-366 | a click on a known scene clears the error, keeps the invariant and queues its swap as the last one, all due within 350 ms |
| Navigation.QueueSettles | src/App.jsx:363-366 | when the queued callbacks have run, nothing is pending and the last swap's scene is current and shown unfaded, or the crash when it throws |
| Navigation.ClickLastWins | src/App.jsx:349-367 | 350 ms after a click on a known scene, that scene is current and shown unfaded, or the crash when it throws, with nothing pending, whatever was pending before |
| Navigation.DoubleClickLastWins | src/App.jsx:349-367 | with no guard against a second click, two clicks in a row end on the second target |
| Navigation.App.constructor | src/App.jsx:168-173 | the component mounts with id 1, no data, loading, no error, not transitioning |
| Navigation.App.SyncCurrentScene | src/App.jsx:293-303 | the lookup effect updates the fields as `SyncScene` says |
| Navigation.App.ReceivePayload | src/App.jsx:229-285 | handling the decoded body gives the state `AfterLoad` computes |
| Navigation.App.InstallStory | src/App.jsx:267-278 | storing the story and the initial id, then running the lookup effect |
| Navigation.App.FailFetch | src/App.jsx:280-285 | a failed request sets the error and ends loading |
| Navigation.App.HandleChoiceClick | src/App.jsx:349-367 | the click handler updates the fields as `OnClick` says |
| Navigation.App.QueueSwap | src/App.jsx:361-366 | a known target clears the error, sets `isTransitioning` and queues the swap 300 ms ahead |
| Navigation.App.RunTimer | src/App.jsx:363-366 | a callback updates the fields as `Fire` says |
| Navigation.App.SwapScene | src/App.jsx:364-365 | the 300 ms callback updates the fields as `Swap` says |
| Navigation.App.SetTargetAndQueueFadeEnd | src/App.jsx:364-365 | the callback's two statements: set the id, queue the 50 ms callback |
| Navigation.App.AdvanceClock | src/App.jsx:363-366 | the loop that runs due callbacks one by one reaches the state `Advance` computes |
| Styles.TextAlignClass | src/App.jsx:59-61 | "text-left" exactly for "left", "text-right" exactly for "right", "text-center" for every other value |
| Styles.ChoicesAlignmentClass | src/App.jsx:64-66 | "items-start" exactly for "left", "items-end" exactly for "right", "items-center" otherwise |
| Styles.Contains | src/App.jsx:39-42 | `String.prototype.includes`: `ContainsIff` shows it holds exactly when the word occurs at some index |
| Styles.ContainsIff | src/App.jsx:39-42 | `includes` holds exactly when the word occurs at some index |
| Styles.ZeroFirstCentre | src/App.jsx:41-42 | `replace('-50%', '0')` zeroes the first centred component only |
| Styles.GetPositionStyles | src/App.jsx:34-56 | the successive updates, with the default "center-center" for undefined, compute `PositionFor`: a value without an `includes` method throws; on a string, a named side is pinned at 2rem, "bottom" beats "top", "right" beats "left", and an axis is centred only when nothing pins it |
| Styles.PositionFor | src/App.jsx:34-42 | null, a boolean, a number or an object throws (`includes` is not a function) and only they do; undefined takes "center-center"; a string is read by substring tests |
| Styles.ApplySideWords | src/App.jsx:36-42 | the four `includes` tests, each updating the style object in turn, give the per-property rule for the side words found |
| Styles.ReassignNamedTransform | src/App.jsx:45-53 | on the styles the side tests produced, the nine strict-equality reassignments change nothing |
| Styles.ArrayPositionByMembership | src/App.jsx:39-42 | an array cell is tested by element membership: `["top", "left"]` is the top-left corner |
| Styles.PositionTopCenter | src/App.jsx:45 | "top-center": top 2rem, left 50%, translate(-50%, 0) |
| Styles.PositionBottomCenter | src/App.jsx:46 | "bottom-center": bottom 2rem, left 50%, translate(-50%, 0) |
| Styles.PositionCenterLeft | src/App.jsx:47 | "center-left": top 50%, left 2rem, translate(0, -50%) |
| Styles.PositionCenterRight | src/App.jsx:48 | "center-right": top 50%, right 2rem, translate(0, -50%) |
| Styles.PositionCenterCenter | src/App.jsx:49 | "center-center": top and left 50%, translate(-50%, -50%) |
| Styles.PositionTopLeft | src/App.jsx:50 | "top-left": top and left 2rem, translate(0, 0) |
| Styles.PositionTopRight | src/App.jsx:51 | "top-right": top and right 2rem, translate(0, 0) |
| Styles.PositionBottomLeft | src/App.jsx:52 | "bottom-left": bottom and left 2rem, translate(0, 0) |
| Styles.PositionBottomRight | src/App.jsx:53 | "bottom-right": bottom and right 2rem, translate(0, 0) |
| Styles.PositionIsConsistent | src/App.jsx:39-42 | for every cell that does not throw: never both top and bottom pinned, never both left and right; horizontal centring goes with left 50%, vertical centring with top 50% |
| Styles.LeftRightDropsVerticalCentring | src/App.jsx:41-42 | a string with both "left" and "right" but no vertical word loses its vertical centring: the second `replace` hits the y component |
| Styles.ColourText | src/App.jsx:7 | the input text: a string is kept; a falsy value becomes "" |
| Styles.WithHash | src/App.jsx:8-9 | a leading "#" is kept; a bare run of 6 or 3 hex digits gets one |
| Styles.HexToRgb | src/App.jsx:7-30 | the channels `hexToRgba` reads from its text; carried by `SixDigitColour`, `ThreeDigitColour`, `OtherLengthsAreBlack`, `FromChannels` and `MalformedColoursAccepted` |
| Styles.HexColour | src/App.jsx:6-30 | `hexToRgba` on a raw value: it throws exactly when converting a truthy value to a string throws; a string is read as its text; any falsy value is black |
| Styles.QuestionColour | src/App.jsx:73 | the question's `hexToRgba` call, with white for a falsy cell, throws exactly when a truthy colour cannot be converted to a string; otherwise it is the colour of the cell |
| Styles.DefaultQuestionColourIsWhite | src/App.jsx:73 | a question with a falsy colour is white, (255, 255, 255) |
| Styles.FromChannels | src/App.jsx:29-30 | black when any channel is NaN, otherwise the three channels |
| Styles.SixDigitColour | src/App.jsx:27 | six hex digits, with or without "#", decode pairwise into the three channels |
| Styles.ThreeDigitColour | src/App.jsx:26 | three hex digits, with or without "#", decode each doubled digit (17·d) |
| Styles.OtherLengthsAreBlack | src/App.jsx:28 | any other trimmed length is black |
| Styles.MalformedColoursAccepted | src/App.jsx:26-30 | as written, "#1g2g3g" gives (1, 2, 3) and "#-1-1-1" gives (-1, -1, -1) |
| Styles.HexToRgbStrict | src/App.jsx:25-30 | the corrected colour reading always yields channels in 0..255 |
| Styles.StrictAgreesOnWellFormed | src/App.jsx:25-30 | on "#" plus 3 or 6 hex digits the corrected reading agrees with the source's |
| Styles.StrictRejectsMalformed | src/App.jsx:25-30 | the corrected reading turns "#1g2g3g" and "#-1-1-1" black |
| SceneMedia.BackgroundFor | src/App.jsx:310-322 | a falsy cell means no image, and only then; a non-string throws; a string gets a leading "/" unless it has one |
| SceneMedia.BackgroundUrlIsStable | src/App.jsx:311-313 | a URL the rule produced is left as it is |
| SceneMedia.AbsoluteBackgroundGetsSlash | src/App.jsx:311-313 | unlike music, an "http..." background also gets the "/" prefix |
| SceneMedia.CorrectedMusic | src/App.jsx:329-331 | falsy stays falsy and only then; a non-string throws; a result is rooted at "/" or starts with "http"; such inputs are kept |
| SceneMedia.BgmDecision | src/App.jsx:333-342 | load exactly when there is a track that differs from the player's source; stop exactly when there is no track but a source is set; otherwise leave the player |
| SceneMedia.BgmDecisionSettles | src/App.jsx:333-342 | after the action the same scene asks for nothing more |
| SceneMedia.LoadedTrackIsRooted | src/App.jsx:329-336 | a loaded track is non-empty and starts with "/" or "http" |
| SceneMedia.RelativeTrackExample | src/App.jsx:329-336 | "track.mp3" loads "/track.mp3", and once loaded it is kept |

## Left out

- The request itself (`fetch`, the HTTP status check, `response.json()`, the URL check) is I/O. `App.FailFetch` stands for every failure there, and the model starts from the decoded body.
- JSON decoding is a parameter of the model, not a grammar. Decoded numbers are integers.
- Numbers are unbounded integers, not IEEE doubles. JavaScript writes a number of magnitude 10^21 or more in exponent form ("1e+21"), and rounds integers beyond 2^53 to the nearest double. The five lines below follow from this.
- JsRuntime.ToStr: gives plain decimal text for every integer. In JavaScript that holds only below 10^21 in magnitude; `String(1e21)` is "1e+21".
- JsRuntime.ParseIntDecimalRoundTrip: holds for every integer in the model. In JavaScript it holds only up to 2^53 in magnitude: `parseInt("9007199254740993", 10)` is 9007199254740992.
- JsRuntime.ParseIntValueOfNum: a numeric cell parses to itself in the model. In JavaScript that holds only below 10^21 in magnitude: `parseInt(1e21, 10)` reads "1e+21" and gives 1.
- ChoiceParsing.KeptChoiceIsFixedPoint: inherits the bound of `ParseIntValueOfNum`. In JavaScript a choice whose `nextSceneId` is 1e21 comes back with 1.
- ChoiceParsing.NormaliseAllIdempotent: inherits the same bound through `KeptChoiceIsFixedPoint`.
- Styles.HexToRgb: strings are sequences of Unicode characters, while JavaScript's `length` and indexing count UTF-16 code units. A text with a character outside the Basic Multilingual Plane has a different length there: "#1a2b3😀" has length 8 in JavaScript and is black, but has 7 characters in the model and gives (26, 43, 3). `Styles.OtherLengthsAreBlack` counts characters in the same way.
- The opacity argument of `hexToRgba` (`parseFloat`, clamping, the `bg-opacity-` form) and the `rgba(...)` text are floating point and formatting. Only the three channels are modelled.
- Writing element styles, `load()`, `pause()` and the `src` attribute are DOM and audio effects. Only the decision they carry out is modelled (`SceneMedia`).
- The JSX markup and the `Question`, `Choices` and `ChoiceButton` components, including hover state, are UI. Only the render priority, the faded flag and the throws listed under `Navigation.Render` are kept.
- Real time: the callbacks run on a virtual clock, one at a time, in due order.
- `console` logging and the Korean message texts: errors are tags.
- `src/main.jsx` (mounting the root) and `tailwind.config.js` (build configuration) are not part of this model.
- Clicks while loading are not modelled: no choice is on screen then. `Navigation.OnClickInv` and the click lemmas require that loading is over.
- Navigation.Render: the crash covers the position cells, the question colour and the media cells. Other throws while a scene is on screen are not modelled. These are a template literal or `String(...)` on an object whose own `toString` is not callable: the container styles and the font size at lines 76-77 and 140, and the button font and opacity at lines 100-101 and 127. The button colours at lines 106-121 are not modelled either. Nor is an object where React expects text, which it refuses as a child: a `question` cell at line 82, or the `text` of an entry of a choices cell given as an array at line 133.
- Navigation.QueueSettles: a crash is not remembered. The model's state runs on after a scene that throws has been shown, while the source's component stays unmounted. The screen stated is that of the final state. When an earlier swap showed a scene that throws, the page is already blank.
- Navigation.ClickLastWins: the same holds when a swap pending before the click shows a scene that throws. The page is then blank from that swap on.
- Navigation.DoubleClickLastWins: states the final state. When the first target throws, the page is blank from the first swap on.
- Navigation.ClickFadesOut: states the timing only for a click with nothing pending. `Navigation.ClickLastWins` covers the general case.
- Navigation.ClickSwapsAt300: states the 300 ms swap only for a click with nothing pending. `Navigation.ClickLastWins` covers the general case.

## Findings

| source | as written | input that shows it | evidently intended | confidence | as-written member | corrected member |
|---|---|---|---|---|---|---|
| src/App.jsx:26-30 | the NaN check is the only validation of a 4- or 7-character colour, and `parseInt(_, 16)` reads a digit prefix and accepts a sign | "#1g2g3g" gives rgb(1, 2, 3); "#-1-1-1" gives rgb(-1, -1, -1) | a colour that is not "#" followed by 3 or 6 hex digits falls back to black, and channels lie in 0..255 | medium, not executed | Styles.MalformedColoursAccepted | Styles.HexToRgbStrict |
