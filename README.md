# A verified model of the draw engine of react-random-pickup

react-random-pickup is a single-page lottery app. The user fills a pool of
entries, either typed as comma-separated text or imported from preset lists.
A draw picks `drawCount` entries that have not been drawn before, marks them
`selected`, spins a display of the pool for a while and then shows the
result list.

The core lives in four places, and each becomes one module here.

- `App` (app.dfy) models src/App.tsx, the main page component. It holds the
  pool (`quests`), the titles, the draw count, the result list
  (`selectedStrings`) and the spin flags. A draw takes two steps:
  - `StartAnimation` samples the indices, marks the chosen entries and
    schedules one stop step (a `PendingStop`).
  - `StopAnimation` runs the oldest scheduled stop step and appends its
    result, as the delayed callback does. It cannot run with nothing
    scheduled.
- `Store` (store.dfy) models src/store/index.ts, the global state container.
  It holds `dataList`, `config` and `selectedStrings`, and its nine actions
  each overwrite one of these fields.
- `Settings` (settings.dfy) models src/components/Config.tsx, the settings
  drawer. It adds, imports, removes and clears entries in the store's data
  set, and edits one configuration field at a time.
- `Spinner` (spinner.dfy) models src/components/StringSpinner.tsx, the
  spinning display: a counter advanced modulo the pool size, and a window of
  consecutive positions that wraps around.

Two further modules hold what these share:

- `Quests` (quests.dfy) is the entry record `{ _id, name, selected }` and the
  pure list operations on a pool: `filter` by flag, `filter` by identifier,
  `map` by identifier, `findIndex` and building new entries.
- `Text` (text.dfy) is the two JavaScript string built-ins the engine uses,
  `trim` and `split(",")`.

State that the source overwrites is the field of a class, and each method
states the field's new value.

Randomness and identifier generation are inputs:

- `Math.floor(Math.random() * n)` is the sequence `draws` of the values it
  returns. Each value is below `n`, and the sequence holds enough distinct
  values for the sampling loop to end.
- `crypto.randomUUID()` is a list `ids`, one identifier per new entry. Where
  uniqueness matters it is required to be fresh (`FreshIds`): pairwise
  distinct and not yet in the pool.

Three behaviours of the code that a reader might not expect, all kept by
the model:

- Comma pieces are not trimmed one by one, only the whole input is.
- A draw on a non-empty pool with no available entry still starts a spin
  that marks nothing. Only an empty pool returns early.
- `startAnimation` itself does not refuse a second start while spinning.
  Only the disabled button does that, and it is a separate predicate here
  (`DrawAllowed`). Two starts queue two stop steps.

## Model

| member | source | states |
|---|---|---|
| Text.Strip | src/App.tsx:97-98 | stripping a character set leaves a contiguous piece of the input, at most as long, that neither starts nor ends with a character of the set, and everything cut off before and after it is in the set; it is empty exactly when every input character is in the set |
| Text.Trim | src/App.tsx:97-98 | `input.trim()` is the part of the input between a whitespace prefix and a whitespace suffix, and it neither starts nor ends with whitespace |
| Text.TrimEmptyIff | src/App.tsx:97 | `input.trim()` is empty exactly when the input consists of whitespace only, so only such input takes the error branch |
| Text.TrimIdempotent | src/App.tsx:97-98 | trimming the already trimmed input changes nothing, so the text `addQuest` receives is not trimmed again |
| Text.Split | src/App.tsx:72 | `split(",")` yields one more piece than there are commas (one empty piece for the empty text), and no piece contains a comma |
| Text.JoinSplit | src/App.tsx:72 | joining the pieces with commas gives back the input: splitting loses and reorders nothing |
| Text.SplitJoin | src/App.tsx:72 | comma-free pieces joined with commas split back into exactly those pieces |
| Text.SplitExample | src/App.tsx:72 | "a,b,c" splits into "a", "b", "c" in that order |
| Quests.NewQuests | src/App.tsx:74-78 | one entry per name, in order, each with its own generated identifier, that name and `selected` false |
| Quests.AddFreshKeepsUniqueIds | src/App.tsx:80 | appending entries with fresh identifiers keeps the pool's identifiers unique |
| Quests.Unselected | src/App.tsx:145 | the available view holds exactly the pool's entries whose flag is false, and is no longer than the pool |
| Quests.Selected | src/App.tsx:266-267 | the history view holds exactly the entries whose flag is true |
| Quests.ViewsPartitionPool | src/App.tsx:145 | the available and history views together are as long as the pool |
| Quests.UnselectedConcat | src/App.tsx:145 | the available view keeps pool order: it distributes over concatenation |
| Quests.UnselectedOfFresh | src/App.tsx:145 | with nothing drawn, the available view is the whole pool |
| Quests.RemoveById | src/App.tsx:359-363 | removal never lengthens the pool and leaves no entry with the removed identifier |
| Quests.RemoveByIdMembers | src/App.tsx:359-363 | an entry survives removal exactly when it was in the pool with another identifier |
| Quests.RemoveByIdConcat | src/App.tsx:359-363 | removal keeps the relative order of what remains: it distributes over concatenation |
| Quests.RemoveByIdAbsent | src/App.tsx:359-363 | removing an identifier that is not present changes nothing |
| Quests.RemoveByIdCount | src/App.tsx:359-363 | with unique identifiers, removing a present identifier drops exactly one entry |
| Quests.RemoveByIdKeepsUniqueIds | src/App.tsx:359-363 | removal keeps identifiers unique |
| Quests.RemoveByIdIdempotent | src/store/index.ts:35 | removing the same identifier twice is removing it once |
| Quests.UnselectedRemoveById | src/components/Config.tsx:204-209 | removing a row's entry from the data set removes it from the available view and changes nothing else in that view |
| Quests.UpdateById | src/store/index.ts:34 | the length is kept; every record with the given identifier becomes the new record, all others are unchanged |
| Quests.UpdateByIdKeepsIds | src/store/index.ts:34 | replacement keeps every identifier in its place, so unique identifiers stay unique |
| Quests.UpdateByIdIdempotent | src/store/index.ts:34 | replacing with the same record twice is replacing once |
| Quests.UpdateByIdAbsent | src/store/index.ts:34 | replacing a record whose identifier is absent changes nothing |
| Quests.FindIndex | src/App.tsx:164-166 | the result is the first position holding the identifier, or -1 exactly when no entry holds it |
| Quests.FindIndexOfMember | src/App.tsx:164-166 | with unique identifiers, looking up an entry's identifier finds that entry's own position |
| Quests.FindIndexByIds | src/App.tsx:164-166 | the lookup depends only on the identifiers, so marking flags does not move later lookups |
| Quests.Pick | src/App.tsx:126-129 | picking by indices yields one element per index, in index order, each the element at that index |
| Quests.NewQuestsSnoc | src/components/Config.tsx:58-64 | building one more entry extends the built list by exactly that entry |
| App.Dedup | src/App.tsx:149-157 | what the loop keeps of the random answers is duplicate-free, holds exactly the answers seen, and is no longer than them |
| App.DedupRejects | src/App.tsx:154 | an answer already chosen leaves the choice unchanged (a rejection changes no state) |
| App.DedupAccepts | src/App.tsx:154-155 | a new answer is appended to the choice |
| App.DedupPrefix | src/App.tsx:149-157 | reading more answers only extends the choice |
| App.SampleIndexes | src/App.tsx:148-157 | at exit there are `min(drawCount, available)` pairwise distinct indices, each below the number of available entries, and they are the first distinct answers of the oracle |
| App.MarkSelected | src/App.tsx:160-170 | the copy of the pool has the flag set at exactly the position of each chosen available entry and is otherwise unchanged; the lookup never returns -1 |
| App.MarkLoopStep | src/App.tsx:163-167 | one iteration finds the chosen entry in the pool and marks one more chosen index |
| App.MarkedKeepsIds | src/App.tsx:167 | marking changes flags only: identifiers, and so their uniqueness, stay |
| App.TargetsAreChosen | src/App.tsx:162-167 | with unique identifiers a position is marked exactly when its identifier is that of a chosen entry, and every marked position was available |
| App.TargetsCount | src/App.tsx:162-167 | distinct chosen indices mark exactly as many positions |
| App.TargetsInPool | src/App.tsx:164-167 | every marked position is a position of the pool |
| App.SelectedCountAfterMark | src/App.tsx:167 | setting the flag at previously unset positions grows the history by exactly their number |
| App.DrawOutcome | src/App.tsx:160-170 | after the marking identifiers stay unique, length, identifiers and names are kept, exactly the chosen entries gain the flag, no flag is cleared, and the history grows by one per chosen index |
| App.UnselectedKeepsUniqueIds | src/App.tsx:145 | the available view of a pool with unique identifiers has unique identifiers |
| App.ResultIsDrawWhenNoneSelected | src/App.tsx:126-132 | when nothing was drawn before, the appended results are the chosen available entries, now flagged |
| App.ResultMisreadsAfterEarlierDraw | src/App.tsx:129 | once an entry was drawn earlier, the appended result can be an entry other than the one chosen (see the notes below) |
| App.DrawAllowed | src/App.tsx:196-205 | an enabled draw button implies an empty result list, a non-empty pool holding more entries than the draw count, and no running spin |
| App.DrawAllowedFillsCount | src/App.tsx:202 | if nothing was drawn before, an enabled button draws exactly `drawCount` entries |
| App.DrawAllowedWithNothingAvailable | src/App.tsx:202 | the button can be enabled while no entry is available, because it counts drawn entries too |
| App.AddedBatchSize | src/App.tsx:86-90 | a preset import adds one entry per comma piece of every preset string |
| App.FreshIdsSplit | src/App.tsx:86-90 | fresh identifiers for a whole import stay fresh piece by piece as the import proceeds |
| App.BatchStep | src/App.tsx:87-89 | one `addQuest` of the import extends the pool by that preset's entries and keeps the remaining identifiers fresh |
| App.AddedBatchSnoc | src/App.tsx:87-89 | the import of one more preset adds that preset's entries after the others |
| App.FlattenSnoc | src/App.tsx:87-89 | the identifiers of one more preset come after the others |
| App.App.constructor | src/App.tsx:39-52 | titles "抽選系統" and "預備階段", draw count 1, empty pool, result and input, dialog closed, no spin, no confetti |
| App.App.SetInput | src/App.tsx:62-64 | the text field holds the typed value |
| App.App.AddQuest | src/App.tsx:70-84 | the pool becomes the old pool followed by one fresh unselected entry per comma piece, in piece order; identifiers stay unique |
| App.App.HandleAddQuestion | src/App.tsx:86-90 | the pool becomes the old pool followed by the entries of every preset in order, each preset split on commas; identifiers stay unique |
| App.App.HandleClearSelectStrings | src/App.tsx:92-94 | the result list becomes empty; draw count and pool, flags included, are outside the frame |
| App.App.HandleAddString | src/App.tsx:96-111 | input that is empty after trimming adds nothing, keeps the field and reports failure; otherwise the pieces of the trimmed input are added, the field is emptied and success is reported with the trimmed text |
| App.App.StartAnimation | src/App.tsx:138-176 | on an empty pool nothing changes; otherwise the spin starts and `min(drawCount, available)` distinct available indices are chosen; exactly the chosen entries are flagged, nothing else of the pool changes, and the history grows by their number; one stop step holding those indices and the marked pool is queued after the ones already scheduled |
| App.App.StopAnimation | src/App.tsx:120-136 | runs only when a stop step is scheduled and consumes the oldest one: the spin stops, confetti shows, the dialog opens, and the result list gains one entry per index of that step, in index order, read from that step's captured pool |
| App.DrawRound | src/App.tsx:138-176 | a start on a non-empty pool followed by the stop it scheduled flags exactly the chosen entries and appends their picks once, leaving nothing scheduled |
| App.App.RemoveQuest | src/App.tsx:359-363 | the pool loses exactly the entries with that identifier |
| App.App.ClearQuests | src/App.tsx:378 | the pool becomes empty |
| App.App.SetMainTitle | src/App.tsx:298-303 | the main title holds the typed value |
| App.App.SetSubTitle | src/App.tsx:314-319 | the subtitle holds the typed value |
| App.App.SetDrawCount | src/App.tsx:327-332 | the draw count holds the entered number |
| Store.Store.constructor | src/store/index.ts:24-32 | empty data set and result list; draw count 3, confetti off, the bundled background and the two titles |
| Store.Store.AddData | src/store/index.ts:33 | one record is appended with the old list as prefix; a record with a new identifier keeps identifiers unique |
| Store.Store.UpdateData | src/store/index.ts:34 | the list is the by-identifier replacement of the old one, with the same identifiers in the same places |
| Store.Store.RemoveData | src/store/index.ts:35 | the list is the old list without the records with the record's identifier |
| Store.Store.UpdateDataList | src/store/index.ts:36 | the list is replaced |
| Store.Store.ClearDataList | src/store/index.ts:37 | the list becomes empty; configuration and results are outside the frame |
| Store.ClearDataListIdempotent | src/store/index.ts:37 | clearing twice leaves the same state as clearing once |
| Store.Store.SetConfig | src/store/index.ts:38 | the configuration is replaced |
| Store.Store.SetSelectedStrings | src/store/index.ts:39 | exactly one item is appended to the results |
| Store.Store.ClearSelectedStrings | src/store/index.ts:40 | the results become empty; the data set and its flags are outside the frame |
| Store.Store.SetShowConfetti | src/store/index.ts:41 | only the confetti flag of the configuration changes |
| Settings.ConfigPanel.constructor | src/components/Config.tsx:41-48 | the panel works on the given store and its text field starts empty |
| Settings.ConfigPanel.SetInput | src/components/Config.tsx:50-52 | the text field holds the typed value |
| Settings.ConfigPanel.HandleAddData | src/components/Config.tsx:54-68 | one record per comma piece is appended, in piece order, each unselected with its own identifier; the list grows by the piece count; fresh identifiers keep identifiers unique |
| Settings.ConfigPanel.HandleAddDataList | src/components/Config.tsx:70-77 | one unselected record per preset string, not split, is appended in one replacement; the list grows by the preset count |
| Settings.ConfigPanel.HandleAddString | src/components/Config.tsx:79-94 | input that is empty after trimming adds nothing and reports failure; otherwise the pieces of the trimmed text are added, the field is emptied and success is reported |
| Settings.ConfigPanel.RemoveEntry | src/components/Config.tsx:204-209 | the list is the old list without the records with that identifier |
| Settings.ConfigPanel.ClearData | src/components/Config.tsx:224 | the list becomes empty |
| Settings.ConfigPanel.EditMainTitle | src/components/Config.tsx:114-117 | the configuration differs from the old one in the main title only |
| Settings.ConfigPanel.EditSubTitle | src/components/Config.tsx:132-135 | the configuration differs from the old one in the subtitle only |
| Settings.ConfigPanel.EditDrawCount | src/components/Config.tsx:147-153 | the configuration differs from the old one in the draw count only |
| Settings.ConfigPanel.EditBackground | src/components/Config.tsx:168-171 | the configuration differs from the old one in the background only |
| Spinner.Advance | src/components/StringSpinner.tsx:13 | the next index is below the list length: one further, or 0 after the last position |
| Spinner.Ticks | src/components/StringSpinner.tsx:10-14 | after at least one tick the counter is a position of the list |
| Spinner.TicksMod | src/components/StringSpinner.tsx:10-14 | after `k` ticks from a position the counter is `(start + k) % n` |
| Spinner.Periodic | src/components/StringSpinner.tsx:10-14 | `n` ticks bring the counter back to where it started, in particular 0 back to 0 |
| Spinner.Window | src/components/StringSpinner.tsx:17-19 | the window has exactly `drawCount` positions, each below the list length |
| Spinner.WindowWraps | src/components/StringSpinner.tsx:17-19 | the window starts at the counter and each next position is one advance step after the previous, wrapping after the last |
| Spinner.WindowDistinct | src/components/StringSpinner.tsx:17-19 | a window no longer than the list repeats no position |
| Spinner.WindowAfterTick | src/components/StringSpinner.tsx:12-19 | a tick scrolls the window by one place |
| Spinner.ItemsToShow | src/components/StringSpinner.tsx:22 | the shown items are as many as the window and item `i` is the entry at window position `i` |
| Spinner.StringSpinner.Shown | src/components/StringSpinner.tsx:17-22 | the rendered items are `drawCount` entries, the i-th being the entry i places after the counter, wrapping around the end of the list |
| Spinner.ItemsDistinct | src/components/StringSpinner.tsx:17-22 | with unique identifiers and a window no longer than the list, no entry is shown twice |
| Spinner.StringSpinner.constructor | src/components/StringSpinner.tsx:5-10 | the counter starts at 0 and the draw count defaults to 3 |
| Spinner.StringSpinner.SetStrings | src/components/StringSpinner.tsx:6 | a re-render replaces the entries and keeps the counter |
| Spinner.StringSpinner.Tick | src/components/StringSpinner.tsx:12-14 | one tick sets the counter to the advance step of the old one, a position of the list |

## Left out

- Rendering is not modelled: JSX, transitions, dialogs, drawers, toasts
  (only their success or failure is kept, as `Notice`), the window size and
  the layout components. This includes the row numbering and the styling of
  the dataset list.
- Time is left out. The animation frames, the `setTimeout` of 2000 ms and the
  100 ms `useInterval` are not modelled. Each `StartAnimation` on a
  non-empty pool queues one stop step, and each `StopAnimation` runs the
  oldest queued one at some later time. All use the same delay, so they
  fire in the order they were scheduled. The spinner moves one `Tick` at a
  time. The clean-up on unmount is left out with them.
- The probability distribution of `Math.random` and the uniqueness of
  `crypto.randomUUID` are not modelled. Both are oracles: a sequence of
  answers below the bound, and lists of identifiers that are assumed fresh
  where uniqueness is proved. That the loop ends with probability 1 becomes
  the requirement that the answers hold enough distinct values.
- The confetti component is not part of this model. It wraps an external
  canvas library and floating-point particle counts.
- `parseInt` of the draw-count field is not modelled. Its result is taken to
  be a natural number, so the NaN and negative cases are not covered.
- The preset lists `quest1` and `quest2` are arbitrary sequences of strings.
  Their contents are not part of this model.
- React's batching of `setState` updaters is not modelled. Each updater runs
  on the state at the time of the call, which is what they compute when
  nothing else intervenes. The model does not capture interleaving with
  other events during the 2000 ms.
- In-place aliasing is modelled as values. `stopAnimation`'s closure holds
  the pre-draw `quests` array, whose entry objects the marking step mutated
  through the shallow copy. That array therefore reads as the marked pool,
  and `PendingStop.captured` is that pool as a value.
- `App.App.StopAnimation` reads a captured pool and appends entries as
  values. In the code these are shared objects. A later draw that flags one
  of them also changes the `selected` flag seen through an earlier captured
  array, or through the result list. This arises for a second start queued
  before the first stop fires, and for a result entry that a later draw
  flags. The model does not show those later flag changes. Identifiers and names are never mutated, so they agree.
- `Spinner.StringSpinner.Tick` requires a non-empty list. The spinner is
  rendered only while spinning, and `StartAnimation` spins only on a pool
  it keeps non-empty. Clearing or emptying the pool during a spin would give
  `% 0`, which yields NaN in JavaScript. That case is not modelled.
- `Text.Trim` removes a fixed set of characters (`Text.Whitespace`): the
  ECMAScript WhiteSpace and LineTerminator characters of current Unicode.
  Characters that later Unicode versions add to the space separators are
  not covered.
- `async` and the `try`/`catch` around `addQuest` and `handleAddData` are
  not modelled. The `catch` logs the error to the console. Nothing inside
  the `try` throws in the model, so that logging never happens.

## Notes on the source

These are discrepancies in the code as written. The model keeps them.

- `stopAnimation` reads the result at `quests[index]` (src/App.tsx:129).
  The index, however, was drawn for the available view `unselectedQuests`
  (src/App.tsx:153,163). The two agree only when nothing was drawn before
  (`App.ResultIsDrawWhenNoneSelected`). `App.ResultMisreadsAfterEarlierDraw`
  gives a two-entry pool where the result is an entry drawn in an earlier
  round, while the newly chosen entry is flagged but never shown.
- Comma pieces are not trimmed (src/App.tsx:72-76,
  src/components/Config.tsx:56-62). Only the whole input is trimmed, so the
  input " a, b" adds the entries "a" and " b".
- The draw button counts the whole pool against the draw count
  (src/App.tsx:202). It can be enabled with no available entry
  (`App.DrawAllowedWithNothingAvailable`), and it is disabled when the pool
  holds exactly `drawCount` fresh entries.
- The store's `config` is the literal at src/store/index.ts:25-31. It has
  titles, background, draw count and confetti flag, which is not the
  `IConfig` type of src/types/index.ts:43-46. `Store.StoreConfig` follows
  the literal.
- The page starts with draw count 1 (src/App.tsx:44) and the store with 3
  (src/store/index.ts:29). The two are separate states.
- The spinner window may be longer than the pool. It then shows entries
  twice; `Spinner.WindowDistinct` holds only up to the pool size.
