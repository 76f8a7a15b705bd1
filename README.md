# Score display core, modelled in Dafny

This project models the core of the score display component in
`score-display/score-display.global.js`. The component shows an engraved
score page by page, plays one of several audio tracks, highlights the
measure being played and seeks the audio when a measure is clicked.

Seven modules model it, one per concern of the component:

- `Wrappers` holds `Option`.
- `PositionIndex` builds the position index of `PagesDisplay`. The event
  table maps a time in seconds to the id of the measure element that starts
  sounding then. The element table maps an element id to its box in pixels,
  with the clickable width raised to 64 pixels. `selectElement` collects
  every time at which one element sounds.
- `Highlighter` is the highlight cursor (`highlighterIndex` and
  `highlighterElid`). A class keeps the cursor between frames. The two
  loops walk it back and forward to the last event at or before the audio
  time. The walk is proved equal to a full scan on a sorted table, and
  idempotent.
- `PageView` covers two things. First, what one page (the `Page`
  component) shows of the index: the highlighted element and the clickable
  ones. Second, the auto-scroll containment rule and scroll target.
- `Playback` models the `ScorePlayback` controls as a class over an
  abstract audio engine. Each engine instance is a `Player` value. The class
  covers the track cycle with its carry-over of position and playing flag,
  load and end callbacks, play/pause, stop, and the clamped absolute and
  relative seeks.
- `Loader` is the score loader of `ScoreDisplay` as a pure state machine.
  A change of source mints a load token. Every asynchronous result carries
  the token current when it started. A level-triggered scheduler starts page
  loads. Its `Step` function has two variants: `AsWritten` is the code, and
  `Corrected` is the code with the two fixes under "## Findings".
- `Display` is the `ScoreDisplay` component as a class. Its fields are the
  loader state. Each event handler (source change, metadata, positions,
  page arrival, page retry) and the scheduler effect `EvaluateScheduler`
  is proved to perform exactly the `Loader` step of the component's
  variant. With `AsWritten` that is the code; with `Corrected` it is the
  fixed component. `TryLoadGraphic` and `CountLoadingPages`, the helpers
  the scheduler calls, have contracts of their own. The scheduler methods
  keep the source's loops. The module also has `selectTimes`, which picks
  the first closest time, and the click-to-seek path from a measure through
  `selectTimes` to `setProgress`.

Times and geometry are `real`. The position file reaches the model already
parsed into records (`EventRecord`, `ElementRecord`). Fetch, the DOM
parser, Vue reactivity, the Howler engine and the frame loop do not
appear. Their effects are the inputs and events of the model: an audio
time, a completed load, a scheduler run, an engine callback.

Places where the code does not do what its own checks suggest it intends;
the model follows the code:

- **In-flight pages.** The scheduler caps the number of loading pages at
  three (`loadingCount >= 3` at line 673). Its count of the pages already
  loading (lines 666-671) is wrong, so more than three can load at once
  (first finding).
- **Stale results.** Every completion compares its token with the current
  one before it commits (lines 604, 625, 645 and 652). The catch of a
  metadata decoding failure (lines 614-617) does not, so a failure of an
  earlier source reaches the current score (second finding).
- **Track switch.** The `onload` of an audio instance (lines 360-364) does
  not check that its track is still the current one. A replaced instance
  that loads late sets `loaded` and seeks and resumes itself
  (`Playback.ScorePlayback.OnLoad`).
- **Failed pages.** A failed page read leaves the slot at `false`
  (loading) until the retry timer sets it back to `null` (lines 649-656),
  and the model keeps it `Loading` until `RetryFired`.
- **Uncaught fetch failure.** The `await fetch(...)` calls (lines 601, 622
  and 642) stand outside their `try`, so a rejected fetch is never caught:
  it sets no `errored` flag and leaves a page loading.

## Model

| member | source | states |
|---|---|---|
| PositionIndex.EventOf | score-display/score-display.global.js:174-177 | the event keeps the record's element id, and its time in seconds times 1000 is the record's position in milliseconds |
| PositionIndex.ElementOf | score-display/score-display.global.js:182-197 | position and height are the record's values divided by the scale 12; the width is the scaled width when that is at least 64 pixels and exactly 64 otherwise, so it is never below 64; the page is the record's page |
| PositionIndex.EventsOf | score-display/score-display.global.js:169-180 | one event per record, in document order, each the conversion of its record |
| PositionIndex.ElementsOf | score-display/score-display.global.js:181-201 | the table's keys are exactly the ids of the records; every entry carries its own id and a width of at least 64 |
| PositionIndex.LastRecordWins | score-display/score-display.global.js:198 | when ids repeat, an id's entry is built from the last record with that id |
| PositionIndex.EventsSortedIffPositionsAscending | score-display/score-display.global.js:174-177 | the event table is sorted by time exactly when the file lists positions in ascending order, which is what the highlighter's walk relies on |
| PositionIndex.BuildEvents | score-display/score-display.global.js:169-180 | the push loop builds exactly `EventsOf` of the records |
| PositionIndex.BuildElements | score-display/score-display.global.js:181-201 | the loop of assignments builds exactly `ElementsOf` of the records |
| PositionIndex.TimesOf | score-display/score-display.global.js:266-270 | the times of an element are at most as many as the events; `TimesOfMatchingEvents` and `MatchIndices` say which they are |
| PositionIndex.MatchIndices | score-display/score-display.global.js:264-272 | the indices of the events that refer to the element: all of them, only them, strictly ascending |
| PositionIndex.TimesOfMatchingEvents | score-display/score-display.global.js:264-272 | the collected times are the times of the matching events, one for one and in event order |
| PositionIndex.NoMatchNoTimes | score-display/score-display.global.js:264-272 | an element no event refers to yields no times |
| PositionIndex.SelectElement | score-display/score-display.global.js:264-272 | the loop collects exactly the times of the events of the element, in event order |
| Highlighter.LastAtOrBefore | score-display/score-display.global.js:203-226 | the full-scan reference: the last index whose time is at or before the audio time, with every later event after that time, or -1 when no event is at or before it |
| Highlighter.StartIndex | score-display/score-display.global.js:208-211 | the walk starts at the stored cursor when it is a valid index and at 0 otherwise |
| Highlighter.WalkBack | score-display/score-display.global.js:213-215 | the backward loop stops at an index whose event is at or before the time, or at -1, and every event it passed is after the time |
| Highlighter.WalkForward | score-display/score-display.global.js:217-219 | the forward loop passes only events at or before the time and stops at the last index or before an event after the time |
| Highlighter.Walk | score-display/score-display.global.js:208-219 | the cursor after both loops: its event is at or before the time (unless it is -1) and the next event is after the time |
| Highlighter.WalkFindsLastAtOrBefore | score-display/score-display.global.js:208-219 | on a sorted event table the walk from any stored cursor gives the same index as the full scan |
| Highlighter.WalkIsIdempotent | score-display/score-display.global.js:208-221 | walking again from the stored cursor for the same time does not move it, whether or not the table is sorted |
| Highlighter.HighlighterIndex.constructor | score-display/score-display.global.js:202 | the cursor starts at 0 |
| Highlighter.HighlighterIndex.HighlighterElid | score-display/score-display.global.js:203-226 | with no audio time or no events: no element and the cursor untouched; otherwise the cursor becomes the walk's result and the element is that event's element (none for -1); on a sorted table that element is the full scan's |
| PageView.HighlighterElement | score-display/score-display.global.js:64-72 | an element is returned exactly when the highlighted id (the key "null" when there is none) is in the table and its element lies on this page, and it is that element |
| PageView.ClickableElements | score-display/score-display.global.js:73-83 | exactly the elements of the table whose page is this page, unchanged |
| PageView.HighlightedIsClickable | score-display/score-display.global.js:64-83 | a highlighted element is among the page's clickable elements |
| PageView.ClickableOnOnePage | score-display/score-display.global.js:73-83 | every element is clickable on its own page and on no other |
| PageView.IsWithinRange | score-display/score-display.global.js:247-251 | a page no wider than the viewport is within range exactly when it lies wholly inside the visible window; a wider page exactly when it overlaps the window |
| PageView.ScrollTarget | score-display/score-display.global.js:253-256 | the target is one of the two candidates (left edge with a padding of 20% of the page width, or centred) and at least as large as both |
| PageView.ScrollTargetBringsPageIntoRange | score-display/score-display.global.js:247-256 | after scrolling to the target the page is within range under the rule that applies to it: whole for a page that fits, partly for a wider one |
| PageView.AutoScrollTarget | score-display/score-display.global.js:232-256 | a scroll happens exactly when auto-scroll is on, an element is highlighted and known, its page is mounted and that page is not within range, and it goes to the scroll target |
| PageView.AutoScrollSettles | score-display/score-display.global.js:232-256 | after an auto-scroll the effect, run again with the new scroll offset, does not scroll |
| Playback.Clamp | score-display/score-display.global.js:418-424 | the seek time lies in [0, duration]; a time inside is kept, one past the end becomes the duration, a negative one becomes 0 |
| Playback.Successor | score-display/score-display.global.js:343-358 | the new instance plays the new track, is paused at 0 with no duration, and holds the old instance's position and playing flag |
| Playback.Loaded | score-display/score-display.global.js:360-364 | on load the instance seeks to the inherited position and plays if it was playing or should resume |
| Playback.CarryOverRestoresState | score-display/score-display.global.js:343-364 | a track switch followed by the new instance's load restores the old position and playing flag |
| Playback.ScorePlayback.ReportedTime | score-display/score-display.global.js:379-388 | a time is reported exactly while the current instance plays, and it is that instance's position |
| Playback.ScorePlayback.CurrentTime | score-display/score-display.global.js:425-428 | the progress is the current (last) instance's position |
| Playback.ScorePlayback.constructor | score-display/score-display.global.js:335-343 | track 0, one fresh instance, not loaded |
| Playback.ScorePlayback.NextTrack | score-display/score-display.global.js:339-358 | the index cycles modulo the track count; when it changes, the old instance is paused and a successor that takes over its state becomes current and the component is not loaded; with one track nothing changes |
| Playback.ScorePlayback.OnLoad | score-display/score-display.global.js:360-364 | whichever instance loads, the component becomes loaded and that instance takes its duration and inherited state |
| Playback.ScorePlayback.OnEnd | score-display/score-display.global.js:365-369 | the ended instance is paused at its end |
| Playback.ScorePlayback.PlayPause | score-display/score-display.global.js:400-411 | nothing before load; otherwise the playing flag flips, and an instance started at its end starts again from 0 |
| Playback.ScorePlayback.Stop | score-display/score-display.global.js:412-417 | the current instance is paused at 0 and a null time is emitted, which clears the listener's time and so the highlight; the track and `loaded` are unchanged |
| Playback.ScorePlayback.SetProgress | score-display/score-display.global.js:418-424 | the current instance seeks to the clamped time, which is the time reported |
| Playback.ScorePlayback.AddProgress | score-display/score-display.global.js:429-433 | a seek to the current position plus the offset, clamped like an absolute seek |
| Loader.PageSlots | score-display/score-display.global.js:612 | a page count of n gives n pages not yet requested; a missing count gives one page; a negative count throws, so no array is made |
| Loader.Normalise | score-display/score-display.global.js:605-609 | a metadata file with a page count is kept; one without a page count but with a `metadata` member is replaced by that member; one with neither is kept |
| Loader.InitialLoadingCount | score-display/score-display.global.js:666-671 | as written the count is 1 for a non-empty page array and 0 for an empty one; corrected it is the number of loading pages; never more than the number of pages |
| Loader.Step | score-display/score-display.global.js:586-681 | only a change of source touches the source and the token: a new source mints the next token and clears metadata, pages, positions and the error flag, and the same source changes nothing; metadata, position, page and retry results with a stale token change nothing; a current position result stores its text; a current page result stores the page; a metadata failure at most sets the error flag, and corrected only for the current token; the scheduler changes only the page array and keeps its length |
| Loader.Admit | score-display/score-display.global.js:672-680 | one scheduler pass only moves pages from not requested to loading and leaves every other slot as it was |
| Loader.SrcChangeStartsGeneration | score-display/score-display.global.js:586-598 | a new source mints a larger token and clears metadata, pages, positions and the error flag |
| Loader.TokenNeverDecreases | score-display/score-display.global.js:594 | no transition lowers the token, so a stale token stays stale |
| Loader.OldResultIgnored | score-display/score-display.global.js:604-656 | a metadata, position, page or retry result that carries an older token leaves the state unchanged (the checks at lines 604, 625, 645 and 652); with `Corrected`, a metadata failure too |
| Loader.OldGenerationsIgnored | score-display/score-display.global.js:586-681 | on any trace, deleting every result of an older generation leaves the final state the same, whatever order those results arrived in; with `Corrected` this covers metadata failures too |
| Loader.AsWrittenStaleMetaFailureSetsErrored | score-display/score-display.global.js:614-617 | as written, a metadata failure of an earlier source marks the current score as failed |
| Loader.AdmitStartsLowestFirst | score-display/score-display.global.js:672-680 | a pass starts not-requested pages lowest index first: below a started page no not-requested page is skipped |
| Loader.AdmitPrefix | score-display/score-display.global.js:672-680 | the pass over a prefix of the pages is the prefix of the pass |
| Loader.AdmitCountsLoading | score-display/score-display.global.js:672-680 | a pass with a budget of b starts exactly the smaller of b and the number of not-requested pages |
| Loader.AsWrittenStartsUpToTwo | score-display/score-display.global.js:666-680 | as written, every pass on a non-empty page array starts up to two pages, however many are already loading |
| Loader.CountsAfterUpdate | score-display/score-display.global.js:640-655 | overwriting one page slot changes the loading and not-requested counts by what left the slot and what arrived in it |
| Loader.CorrectedStepKeepsBound | score-display/score-display.global.js:662-681 | with the scheduler counting the loading pages, no transition takes the loader past three pages loading |
| Loader.CorrectedBoundOnEveryTrace | score-display/score-display.global.js:662-681 | with the corrected scheduler, every state reachable from a state within the bound is within the bound |
| Loader.AsWrittenRunCounts | score-display/score-display.global.js:666-680 | on a loaded, non-empty page array one pass as written adds the smaller of two and the not-requested count to the loading pages |
| Loader.CompletionCounts | score-display/score-display.global.js:643-648 | a page arriving for the current token ends exactly one load |
| Loader.AsWrittenSixPagesCounts | score-display/score-display.global.js:662-681 | as written, on six pages not yet requested, each completion in run, page 0, run, page 1, run is admissible and four pages end up loading |
| Loader.AsWrittenSixPagesReachFour | score-display/score-display.global.js:662-681 | as written, six pages not yet requested reach four loading after run, completion, run, completion, run |
| Loader.AsWrittenExceedsLoadingBound | score-display/score-display.global.js:586-681 | as written, a concrete trace from the initial state over a six-page score ends with four pages loading, past the bound of three |
| Display.ScoreDisplay.constructor | score-display/score-display.global.js:534-544 | the component starts in the loader's initial state, as written or corrected |
| Display.ScoreDisplay.IsLoaded | score-display/score-display.global.js:538-540 | `loaded` holds exactly when metadata has been committed |
| Display.ScoreDisplay.SrcChanged | score-display/score-display.global.js:586-598 | the source watcher performs exactly the loader's step for a source change |
| Display.ScoreDisplay.MetaParsed | score-display/score-display.global.js:600-613 | the metadata completion performs exactly the loader's step: unwrap, commit only for the current token, make the page slots or fail |
| Display.ScoreDisplay.MetaFailed | score-display/score-display.global.js:614-617 | the metadata failure performs exactly the loader's step: as written errored whatever the token, corrected only for the current token |
| Display.ScoreDisplay.MposLoaded | score-display/score-display.global.js:621-631 | the position file completion performs exactly the loader's step |
| Display.ScoreDisplay.TryLoadGraphic | score-display/score-display.global.js:635-640 | a load starts exactly when the page is not yet requested, and then only that page becomes loading |
| Display.ScoreDisplay.PageLoaded | score-display/score-display.global.js:643-648 | a page arriving performs exactly the loader's step: committed only for the current token |
| Display.ScoreDisplay.RetryFired | score-display/score-display.global.js:649-656 | the retry timer performs exactly the loader's step: the page is requestable again, only for the current token |
| Display.ScoreDisplay.CountLoadingPages | score-display/score-display.global.js:666-671 | the counting loop yields 1 for any non-empty page array as written, and the number of loading pages when corrected |
| Display.ScoreDisplay.EvaluateScheduler | score-display/score-display.global.js:662-681 | the scheduler's loops perform exactly the loader's scheduler step; the pages it starts were not requested, are now loading, and come in ascending order |
| Display.FirstClosestIsUnique | score-display/score-display.global.js:553-562 | at most one index is the first closest, so the seek target is determined |
| Display.SelectsNearestExample | score-display/score-display.global.js:553-562 | times 2, 5 and 9 seconds at 6 seconds choose 5 seconds, and only it |
| Display.TieGoesToEarlierExample | score-display/score-display.global.js:559-562 | of two equally close times the one listed first wins |
| Display.SelectTimes | score-display/score-display.global.js:548-565 | no seek exactly when there is no audio engine or no time; otherwise the seek target is the time closest to the current one, the first listed among equally close times |
| Display.ClickToSeek | score-display/score-display.global.js:548-565 | a click seeks exactly when the element has a time; the target is the first closest of its times to the engine's position, and the current instance then stands at that target clamped to the duration; nothing else changes: not its playing flag, not the other instances, not the track index, not `loaded` |

## Left out

- Fetching, the DOM parser, Vue's reactivity and the Howler engine do not
  appear. Their completions and callbacks are the events of the model.
  Which of them happen, and in which order, is left open: every theorem
  holds for every admissible order.
- A rejected `fetch` is not modelled. It happens before the `try`, so the
  promise rejects uncaught and nothing changes. A page whose fetch rejects
  stays loading forever.
- Load tokens are `Math.random()` values in the code. The model mints 1, 2,
  3, … instead and assumes, as the code does, that a new token differs from
  every earlier one.
- The position file's text is taken as already parsed into records. Number
  coercion of attributes (a non-numeric `page` becoming `NaN`) is not
  modelled: pages are integers and coordinates are reals.
- The missing `page` attribute check of `clickableElements` is not
  modelled, because every element built by the index carries a page.
- The order in which the clickable elements are listed is not modelled.
  `ClickableElements` is a map, since the code's order is that of the
  object's keys.
- Drag seeking on the progress bar, the progress ratio, `loadedRatio` and
  the key handling are out of scope: they are DOM event plumbing over
  `setProgress`.
- The final page signalling "score visible" to a host is not part of this
  file, so it is not modelled.
- Floating point is modelled by `real`, including the division of
  positions by 1000 and of coordinates by 12, so rounding is not captured.
- Playback.ScorePlayback.OnLoad: the seek to the inherited position is not
  clamped to the new track's duration, as in the code. An engine that
  clamps such a seek is not modelled.
- Playback.ScorePlayback.PlayPause: when an instance is at its end it
  rewinds and plays. The engine's own behaviour between callbacks (the
  position advancing while playing) is not modelled; it appears only
  through `OnEnd`.
- Display.ClickToSeek: the engine position that `selectTimes` reads is
  `getProgress`, the current instance's position. The `-1` that
  `getProgress` returns with no engine is not modelled, because an engine
  always exists once the playback component is mounted.

## Findings

| source | as written | input that shows it | evidently intended | confidence | as-written member | corrected member |
|---|---|---|---|---|---|---|
| score-display/score-display.global.js:666-671 | the count of loading pages loops over the array's keys with `for…in` and compares each key to `false`; only the key "0" is loosely equal, so the count is 1 for any non-empty array and each pass starts up to two pages whatever is already loading | a six-page score: load the metadata, run the scheduler, let page 0 arrive, run, let page 1 arrive, run; four pages are loading | count the slots that are loading (`false`) so that at most three pages load at once | high (not executed) | Loader.AsWrittenExceedsLoadingBound | Loader.CorrectedBoundOnEveryTrace |
| score-display/score-display.global.js:614-617 | a metadata decoding failure sets `errored` without comparing its token to the current one | open score A, switch to score B, then A's metadata fails to decode: B is shown as failed | check the token before setting `errored`, as every other completion does | medium (not executed) | Loader.AsWrittenStaleMetaFailureSetsErrored | Loader.OldGenerationsIgnored |
