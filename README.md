# Station table view — a Dafny model

The repository is a single React component (`src/App.js`). It loads a JSON list of
fuel-station records. It shows them in an eleven-column table that a free-text search
narrows down by station name. It copies a clicked cell's value to the clipboard and
shows a "Text Copied!" banner for two seconds. It also puts the keyboard focus back on
the search box 500 ms after any click.

The model has two cores.

* **Search filter and table projection**, as pure functions and lemmas.
  * `Strings` holds case folding and substring search.
  * `Records` holds the records and the filter `FilteredData`.
  * `Table` holds the eleven column definitions, the rendered table and the value a
    cell click copies.
  * A record is a map from attribute key to a JSON value.
  * The filter keeps, in order, the records whose case-folded name includes the
    case-folded search term.
  * A record whose `name` is missing or is not a string makes the filter fail with a
    TypeError, as `item.name.toLowerCase()` does in the source. The model reports the
    position of the first such record.
* **Event and timer state machine**, as the class `AppComponent.App`.
  * Its fields are the component's state: `data`, `searchTerm`, `showNotification`,
    the shared `clickTimer` handle and the input ref. They also include the browser's
    pending timers, each with a due time and a callback.
  * Each event is a method: mount, teardown, fetch completion, search input, window
    click, cell click, clipboard-write completion, and a timer firing.
  * `Valid()` is the invariant every event keeps:
    * At most one focus timer is pending. It is the one `clickTimer` names, and it is
      due 500 ms after the last click.
    * Each pending hide timer is due within 2000 ms.
    * While the banner is shown, some hide timer is pending.
  * No event cancels a hide timer. This is not part of `Valid()`: the contracts of
    `Click`, `CellClicked` and `CopyResolved` keep every earlier hide timer, and
    `FireTimer` removes only the timer that fires.

Time is discrete. An event carries its time in milliseconds. `CanRunAt(t)` states that
every timer due before `t` has already run. `FireTimer` runs the pending timer that is
due first.

Two behaviours of the code are worth stating directly:

* A later copy does not restart the 2-second window: App.js:54-56 never cancels an
  earlier hide timer. So the first copy's timer hides the banner even when a second
  copy came after it. `EarlierHideClearsLaterCopy` shows this: two copies 1500 ms
  apart, and the banner is hidden at 2000 ms.
* A record without a name is not skipped: App.js:65 throws. The filter returns
  `TypeError(at)`. The render throws with it, and with no error boundary React tears
  the component down, so `FetchCompleted` removes the listener and detaches the input
  when the new dataset has such a record.

## Model

| member | source | states |
|---|---|---|
| Strings.LowerChar | src/App.js:65 | case-folding a character leaves no capital; a capital becomes the same letter in lower case, anything else is unchanged |
| Strings.Lower | src/App.js:65 | `toLowerCase` keeps the length and folds each character in place |
| Strings.LowerIdempotent | src/App.js:65 | folding twice is folding once |
| Strings.LowerHasNoUpper | src/App.js:65 | a folded string has no capital letter |
| Strings.Includes | src/App.js:65 | `includes` never holds for a term longer than the string, and always holds for a prefix of it |
| Strings.IncludesIff | src/App.js:65 | `includes` holds exactly when the term occurs at some position of the name |
| Strings.IncludesEmpty | src/App.js:65 | every string includes the empty string |
| Strings.IncludesTransitive | src/App.js:65 | a substring of a substring is a substring |
| Records.Matches | src/App.js:64-66 | a record matches when its folded name includes the folded term; the empty term matches every record, and a term longer than the name matches none |
| Records.FilteredData | src/App.js:64-66 | the filter throws exactly when some record has no string name, at the first such record; every kept record has a name that matches the term |
| Records.FilterSelectsMatchingPositions | src/App.js:64-66 | the view is the dataset at exactly the matching positions, in increasing order: sound, complete and order-preserving |
| Records.FilterCons | src/App.js:64-66 | a named first record is kept exactly when it matches, and the rest is filtered independently |
| Records.FilterEmptyTerm | src/App.js:64-66 | with the empty term the view is the whole dataset in order |
| Records.FilterIdempotent | src/App.js:64-66 | filtering the view again with the same term returns the same view |
| Records.FilterNarrowing | src/App.js:64-66 | if the folded wider term is part of the folded narrower term, filtering by wider then narrower equals filtering by narrower |
| Records.KeptForNarrowIsKeptForWide | src/App.js:64-66 | every record kept for the narrower term is kept for the wider term |
| Table.HeadersShape | src/App.js:69-82 | the column list has 11 columns with pairwise different attribute keys, and column 1 is "Name" showing `name` |
| Table.CellOf | src/App.js:118-120 | `item[header.attribute]` is undefined exactly when the record lacks the attribute, and otherwise the stored value |
| Table.HeaderCells | src/App.js:105-107 | the header row has one label per column, in column order |
| Table.RowCells | src/App.js:114-122 | a body row has one cell per column; cell j is rendered from the record's value for column j's attribute, or undefined |
| Table.BodyRows | src/App.js:112-124 | one body row per record of the view, in order |
| Table.Render | src/App.js:69-124 | the header has the 11 labels in order; the body has one row per record, each with 11 cells, and cell (i, j) is rendered from record i's value for attribute j |
| Table.CopiedValue | src/App.js:118-120 | the value a cell click copies is the same attribute value the cell is rendered from |
| Table.RenderedNamesMatch | src/App.js:64-124 | the Name column of every body row is rendered from a name that includes the search term, ignoring case |
| Table.EmptyDatasetRendersHeaderOnly | src/App.js:6-6 | an empty dataset renders the header row and no body rows |
| Table.StationSearchExample | src/App.js:64-66 | searching "stat" over "Station A" and "Depot B" keeps only "Station A" |
| AppComponent.App.constructor | src/App.js:6-10 | initial state: empty dataset, empty term, banner hidden, no timer pending, no click timer |
| AppComponent.App.Mount | src/App.js:23-26 | mounting clears the search term, focuses the input once and registers the click listener |
| AppComponent.App.Unmount | src/App.js:29-31 | teardown removes the listener and detaches the input; pending timers stay |
| AppComponent.App.FetchCompleted | src/App.js:13-21 | a successful fetch replaces the dataset wholesale; a failed one leaves it unchanged; a dataset with a nameless record makes the view a TypeError and tears the component down (listener removed, input detached) |
| AppComponent.App.Search | src/App.js:45-47 | the term is replaced verbatim; clearing it makes the view the whole dataset again |
| AppComponent.App.Click | src/App.js:35-42 | a handled click cancels the previous focus timer and schedules one new focus timer 500 ms later, which becomes the only one pending; hide timers are untouched |
| AppComponent.App.CellClicked | src/App.js:116-119 | clicking a cell hands the attribute value the cell is rendered from to the copy, leaves the view unchanged, and has exactly the effect of a window click on the timers, the click handle and every other field |
| AppComponent.App.CopyResolved | src/App.js:50-61 | a failed write changes nothing; a successful one shows the banner, writes the clipboard and adds a hide timer 2000 ms later, leaving earlier hide timers pending |
| AppComponent.App.FireTimer | src/App.js:37-56 | a focus timer fires exactly 500 ms after the last click and focuses only an attached input; a hide timer hides the banner whichever copy scheduled it |
| AppComponent.ClickBurstFocusesOnce | src/App.js:35-42 | three clicks 200 ms apart produce one focus, at 500 ms after the last click, and leave no timer pending |
| AppComponent.FocusAfterTeardownIsHarmless | src/App.js:38-40 | a focus timer that fires after teardown does nothing |
| AppComponent.NamelessRecordTearsDown | src/App.js:64-66 | after a fetch with a nameless record the listener is gone, the input is detached, and a later click schedules no timer |
| AppComponent.EarlierHideClearsLaterCopy | src/App.js:50-61 | with copies at 0 and 1500 ms, the first hide timer clears the banner at 2000 ms while the second is still pending |

## Left out

- The network fetch of `data.json` and JSON parsing (App.js:14-21) are I/O. Their outcome is the parameter of `FetchCompleted`, and `console.error` logging is dropped.
- `navigator.clipboard.writeText` (App.js:51) is a foreign asynchronous browser API. Only its outcome is modelled, as the `written` parameter of `CopyResolved`. The call and its settling are one event.
- DOM focus is reduced to a counter (`focusCount`). Listener registration is reduced to a flag. JSX markup, the CSS class toggle (App.js:128) and the page text are not modelled.
- Real time and event-loop scheduling are reduced to discrete events, each carrying its time in milliseconds. Browser timer clamping and jitter are not modelled.
- React rendering, state batching and re-render timing are not modelled. A state setter takes effect at once, and the view is recomputed from the current state.
- Strings.Lower: folds ASCII letters only. JavaScript's full Unicode case mapping, including the Georgian station names, is not modelled.
- Strings.LowerChar: maps only A-Z, for the same reason.
- AppComponent.App.FireTimer: allows timers due at the same millisecond to run in any order. The browser runs them in scheduling order. No such tie changes the outcome, because a focus timer and a hide timer touch different fields, and two hide timers do the same thing.
- Table.CopiedValue: a `Cell` is the attribute value before React renders it and before `writeText` converts it to a string. The two differ for `Null`, `Bool` and `Undefined`: React renders them as empty text, while the clipboard receives "null", "true", "false" or "undefined". Neither conversion is modelled.
- AppComponent.App.FetchCompleted: after teardown the model keeps its state and still accepts events such as a copy resolving; nothing is rendered then, and no view is derived from that state.
- JSON numbers are modelled as `real`, with no display formatting. Nested arrays and objects as attribute values are not modelled.
