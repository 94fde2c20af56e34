# Grid-aligned page script, modelled in Dafny

This project models the behaviour of `static/index.js`, the script of a text-grid web page. Every block on the page sits on a vertical rhythm of one line-height (the grid cell). Images and videos are held back until they come near the viewport, and then are sized to whole rows. The parts modelled here are:

- **Media source vault** (`setupLazyLoading`). An image's or video's live `src`/`srcset` move into its `data-*` attributes, where they lie dormant. It returns the captured record, or `null` when the element has no source.
- **Loading** (`loadMedia` and the IntersectionObserver callback of `initializePage`). When a watched element intersects, its sources are written back (`srcset` before `src` for an image; `src` then `load()` for a video). When the load settles, the element is sized; after a failure its `src` is written again first. Only then is the element unobserved.
- **Eager path** (the media loop of `initializePage`). An element with no source gets an empty `src` and is sized at once.
- **Grid-snap sizing** (`handleMediaDimensions`). When the intrinsic size is unknown, the height becomes `Math.round((width / 2) / cell.height) * cell.height`. With a known ratio, nothing is written.
- **Grid auditor** (`checkOffsets`). Each element whose top edge is not on a half-row line is marked `off-grid` and logged. The class is cleared from the others.
- **Analytics buffer** (`processAnalyticsQueue`/`queueAnalyticsEvent` and the script's `onload`). Events are held in a FIFO queue and flushed in front batches of at most ten, one batch per idle callback.
- **URL cleanup**. A path longer than `/` that ends in a slash loses one slash.
- **Resize debounce**. One slot holds the pending animation frame; each resize cancels it and requests a new one.

JavaScript numbers are exact reals here. `Math.round` and the truncating `%` are written out in `JsMath`. An element is a `Dom.Element` object whose attributes, dataset, inline style and class list its methods update in place. The element also keeps a log of the calls whose order the browser observes (`setAttribute`, `removeAttribute`, `load()`). Each step that changes state is a method, proved against a pure function on `Dom.ElementState`; the lemmas are stated about those functions.

Where the code does something a reader might not expect, the model follows the code and says so:

- **Reload on re-intersection.** An element is unobserved only in the `finally` of its load promise. So it stays observed while loading, and a second intersection before the load settles writes its sources again and starts a second pending load. There is no at-most-once trigger.
- **Ratio path.** With a known intrinsic ratio, sizing computes a padding and discards it. No height is written, and no rounding to the nearest row happens on that path.
- **No audit tolerance.** The auditor flags any positive remainder of `top % (h / 2)`. A negative remainder (an element above the page origin) counts as aligned. So a quarter-row shift is flagged only for elements below the origin.
- **No de-duplication.** A misplaced element is logged on every pass.
- **Failure path.** It writes `dataset.src` back as `src`; a missing value is stringified to `"undefined"`. After a fresh capture that value is the element's original source.
- **Eager path `src`.** It writes `dataset.src || ''`, which for an element with no source is always the empty string.
- **Grid cell height.** The grid cell height is required to be positive, because the code divides by it without a guard.

## Model

| member | source | states |
|---|---|---|
| JsMath.Round | static/index.js:75 | `Math.round` gives the integer `k` with `k <= x + 1/2 < k + 1`: the nearest integer, halves rounding up |
| JsMath.Trunc | static/index.js:70 | truncation toward zero is the integer part, bounded on both sides by sign |
| JsMath.Rem | static/index.js:233 | JavaScript `%` keeps the dividend's sign, lies strictly within one divisor of zero, and differs from the dividend by a whole multiple of the divisor |
| JsMath.RemZeroIffMultiple | static/index.js:233-235 | the remainder is zero exactly when the dividend is a whole multiple of the divisor |
| GridSnap.FallbackHeight | static/index.js:73-77 | the fallback height is a whole multiple of the cell height, within half a row of half the box width |
| GridSnap.FallbackIsNearest | static/index.js:75 | no other whole number of rows is closer to half the box width than the fallback height |
| GridSnap.SizedStyle | static/index.js:79-95 | with a positive intrinsic size the style is unchanged; otherwise `height` is set to a whole multiple of the cell height and every other property is kept |
| GridSnap.Sized | static/index.js:66-96 | sizing changes only the inline style: not at all with a positive intrinsic size, otherwise `height` becomes the fallback height |
| GridSnap.SizingSnapsToRows | static/index.js:66-96 | sizing touches only the inline `height`: not at all when both intrinsic dimensions are positive, otherwise with a whole multiple of the cell height; all other properties, attributes and classes are kept |
| GridSnap.SizingIsIdempotent | static/index.js:66-96 | sizing twice with the same measurements equals sizing once |
| GridSnap.HandleMediaDimensions | static/index.js:66-96 | the element's new state is the sized state of its old state |
| GridSnap.FallbackExamples | static/index.js:75 | a 400px box on a 24px grid gets 192px; a 410px box gets 216px |
| MediaVault.Capture | static/index.js:99-126 | an element that is already dormant is returned unchanged with its stored record; `null` exactly when there is no dormant record and no live source (for an image, neither `src` nor `currentSrc`), with nothing changed; otherwise the full move of `src` and a truthy `srcset` into the dataset, the attribute removals in order, `loading=lazy` and a 50px `min-height` |
| MediaVault.CaptureIsIdempotent | static/index.js:100-105 | capturing a captured element changes nothing and returns a record equivalent to the first |
| MediaVault.Restore | static/index.js:142-156 | an image gets a truthy `srcset` written before `src`; a video gets `src` then `load()`; any other element is untouched; the dataset and style are kept |
| MediaVault.CaptureRestoreRoundTrip | static/index.js:99-156 | capture then restore gives an image back its attributes with `src` set to its live source and `loading=lazy` added; a video loses a truthy `srcset` |
| MediaVault.RestoreTwiceWritesTwice | static/index.js:142-148 | nothing prevents a second restore: it repeats the `src` write in the call log |
| MediaVault.SetupLazyLoading | static/index.js:99-126 | the element's new state and the returned record are those of the capture |
| MediaVault.LoadMedia | static/index.js:128-158 | a missing record rejects and changes nothing; otherwise the promise is pending, listening exactly for images and videos, and the element is in its restored state |
| MediaLoader.SettleOne | static/index.js:180-184 | a successful load sizes the element; a failed load writes the record's source as `src` and logs that write; the dataset and classes are kept |
| MediaLoader.Settled | static/index.js:171-190 | settling all pending loads keeps the dataset and classes; on success the call log is unchanged; on failure exactly one `src` write is appended per pending load, in order, each writing that load's record |
| MediaLoader.SettledOutcome | static/index.js:180-187 | after any number of pending loads with the same record: success equals sizing once; failure leaves `src` equal to the record's source, the element sized, and only `src` writes in the log |
| MediaLoader.RestoredTimes | static/index.js:173-180 | after one or more intersections a media element's `src` is the record's source; the dataset, style and classes are kept; other tags are untouched |
| MediaLoader.FailedLoadRestoresCapturedSource | static/index.js:99-187 | capture, one or more intersections (each writing the record back), then a failed load leave `src` equal to the source the element had before capture, with the dataset kept and the sizing applied |
| MediaLoader.EagerSource | static/index.js:199 | for an element with no dormant record the eager `src` is the empty string; a truthy `data-src` is used as it is |
| MediaLoader.Eager | static/index.js:199-200 | the eager path writes `src` once, to the empty string when the element has no dormant record, and sizes the element; dataset and classes are kept |
| MediaLoader.Initialized | static/index.js:195-201 | an element is watched exactly when it has a dormant record or a live source, and a watched element is dormant afterwards |
| MediaLoader.InitializedOutcome | static/index.js:194-202 | an unwatched element gets `src=""` and is sized; a freshly captured one has no `src` |
| MediaLoader.MediaObserver.Observe | static/index.js:197 | the element is added to the observer as dormant |
| MediaLoader.MediaObserver.OnEntry | static/index.js:172-188 | a non-intersecting entry changes nothing; an intersecting one restores the element from its dataset and adds a pending load, and the element stays observed |
| MediaLoader.MediaObserver.OnLoadSettled | static/index.js:180-187 | every pending load settles in order, then the element leaves the observer as loaded or failed |
| MediaLoader.InitializeOne | static/index.js:194-201 | one turn of the media loop leaves the element in its captured or eager state, and adds it to the observer as dormant exactly when it was captured |
| MediaLoader.InitializeMedia | static/index.js:193-202 | each element ends in the state its capture or eager load gives it, and is observed, as dormant, exactly when capture returned a record |
| GridAudit.IsOffGrid | static/index.js:233-235 | a flagged top edge is always below the page origin |
| GridAudit.OffGridIff | static/index.js:232-235 | a top edge is flagged exactly when it is below the page origin and not a whole number of half rows |
| GridAudit.Classify | static/index.js:227-231 | an element is skipped exactly when it is a table part or its box has zero width and zero height; an off-grid element's page top is positive |
| GridAudit.ClassifyIff | static/index.js:227-240 | an element is off-grid exactly when it is not skipped, its page top is positive, and that top is not a multiple of half a row |
| GridAudit.Reclassed | static/index.js:235-240 | a skipped element keeps its classes; otherwise `off-grid` is present exactly when off-grid; no other class changes |
| GridAudit.LogFor | static/index.js:235-237 | an element logs a line exactly when it is off-grid, and the line carries its position |
| GridAudit.Diagnostics | static/index.js:226-237 | a pass logs at most one line per element |
| GridAudit.DiagnosticsAreSound | static/index.js:235-237 | every logged line belongs to an off-grid element, with its remainder against a full row and the half-row unit |
| GridAudit.DiagnosticsInOrder | static/index.js:226-237 | logged lines come in element order, each element at most once |
| GridAudit.OffGridElementsAreLogged | static/index.js:235-237 | every off-grid element is logged in the pass |
| GridAudit.AlignedPageIsClean | static/index.js:232-240 | when every top is a multiple of half a row, no element is off-grid and nothing is logged |
| GridAudit.SecondPassRepeats | static/index.js:226-241 | a second pass over the same layout leaves the same classes; verdicts do not depend on earlier marks |
| GridAudit.QuarterShiftIsOffGrid | static/index.js:232-236 | a top edge a quarter row below a row line is flagged |
| GridAudit.NegativeQuarterShiftPasses | static/index.js:232-239 | a quarter row above the page origin is not a multiple of half a row, yet is not flagged |
| GridAudit.AuditElement | static/index.js:227-240 | one element's class list is reclassed by its verdict, and it is logged exactly when off-grid |
| GridAudit.CheckOffsets | static/index.js:217-243 | every element is reclassed by its verdict, and the log is the pass's diagnostics |
| Analytics.TakeBatch | static/index.js:14 | the batch followed by what stays is the old queue, and the batch holds the first ten events or all of them if fewer |
| Analytics.Batches | static/index.js:14-22 | every batch of a drain holds between one and ten events |
| Analytics.BatchesPartitionQueue | static/index.js:10-23 | draining delivers every event once in order, in ceil(n / 10) batches, all full but the last |
| Analytics.AnalyticsQueue.ProcessQueue | static/index.js:10-24 | a no-op while processing, before load, or on an empty queue; otherwise it takes the front batch and sets the flag; no event is lost or moved |
| Analytics.AnalyticsQueue.QueueEvent | static/index.js:26-31 | the event joins the back of the pipeline; a batch in flight stays in flight; before load nothing is processed |
| Analytics.AnalyticsQueue.OnScriptLoad | static/index.js:46-49 | after `onload` the buffer is loaded, with nothing lost or delivered; a batch already in flight stays; otherwise a non-empty queue has exactly its first ten events (or all, if fewer) put in flight |
| Analytics.AnalyticsQueue.IdleFlush | static/index.js:16-23 | the batch is delivered in order; if events are waiting, exactly their first ten (or all, if fewer) go in flight, otherwise the flag is cleared; the undelivered part shrinks |
| Analytics.AnalyticsQueue.RunIdleCallbacks | static/index.js:16-23 | once loaded, running idle callbacks until none is pending delivers everything queued so far, in order |
| UrlCleanup.CleanUrl | static/index.js:205-208 | the URL is rewritten exactly when the path is longer than one character and ends in `/`; then it is the path without that one slash, followed by the query and the fragment unchanged |
| UrlCleanup.CleanUrlExamples | static/index.js:205-207 | `/a//` becomes `/a/`, `/a/` becomes `/a`, and `/` and `/a` are left alone |
| UrlCleanup.SettledPath | static/index.js:205-207 | rewriting on every run of `initializePage` (page load or resize) ends at a non-empty prefix of the path with no trailing slash, having removed only slashes |
| UrlCleanup.SettledPathIsStable | static/index.js:205-207 | a settled path is not rewritten again |
| Resize.Resized | static/index.js:247-255 | a resize puts the new handle in the slot and leaves exactly that frame pending, without running anything |
| Resize.Fired | static/index.js:251-254 | the frame callback reinitialises once and leaves nothing pending |
| Resize.BurstLeavesOneFrame | static/index.js:246-255 | after any burst of resizes exactly one frame is pending, the last one requested |
| Resize.BurstRunsOnce | static/index.js:246-255 | a burst of resizes followed by the frame reinitialises the page exactly once |
| Resize.ResizeDebouncer.OnResize | static/index.js:247-255 | the listener's effect is the resize step on the slot |
| Resize.ResizeDebouncer.OnFrame | static/index.js:251-254 | running the pending callback is the fire step on the slot |

## Left out

- `gridCellDimensions` (static/index.js:55-64) measures a probe element through layout. The cell is an input whose height is required to be positive. No behaviour for a zero cell height is modelled, because the code divides by it unguarded.
- `loadAnalytics` (static/index.js:33-52) is left out apart from its `onload`: the `gtag('js')`/`gtag('config')` calls, `dataLayer`, script injection and the network fetch. `Analytics.Event` stands for an argument list as strings; the objects `gtag` also receives are not modelled.
- IntersectionObserver options, Promise plumbing, event-listener registration and `requestIdleCallback`/`requestAnimationFrame` scheduling and time-outs are replaced by explicit steps. These are `OnEntry`, `OnLoadSettled`, `IdleFlush`, `OnResize` and `OnFrame`, which a caller invokes in any order their preconditions allow.
- MediaLoader.MediaObserver.OnLoadSettled applies every pending settlement and then unobserves once. The browser runs each promise's `finally` right after its own `catch`. The final state is the same, because unobserving is idempotent and nothing runs in between.
- MediaLoader.MediaObserver.OnEntry requires the element to be observed. The browser delivers entries only for observed targets.
- The listener of the other outcome is not modelled; it stays attached after a `once` listener fires. Both stale listeners can fire.
  - A resize reruns `initializePage` (static/index.js:251-252), which observes again every element that still has `data-src` (static/index.js:100-105, 196-197). Its next intersection writes `src` again (static/index.js:149, 154). If that load fails, the stale `error` listener only logs and rejects a promise that has already settled.
  - After a failure, the retry write in the `catch` (static/index.js:182) can succeed. The stale `load`/`loadeddata` listener (static/index.js:143, 151) then runs sizing again, which writes nothing when the intrinsic size is positive.
- MediaLoader.SettledOutcome states the outcome only for pending loads that all carry the same record. Each record is read from the dataset, which nothing changes while the element is observed.
- `console.warn`/`console.error` output is dropped. The exception is the auditor, whose lines are returned as `GridAudit.Diagnostic` values.
- `history.replaceState` is not modelled: `UrlCleanup.CleanUrl` returns the URL that would be written.
- The `DOMContentLoaded` start (static/index.js:258-263) and the ordering inside `initializePage` are not modelled as one operation. `Resize` counts page reinitialisations but does not run them.
- Element selection (`querySelectorAll`) and layout measurements (bounding boxes, scroll offset, intrinsic sizes) are inputs.
- IEEE-754 floating point is not modelled: lengths are exact reals, so rounding artefacts of `%` and `/` are not reproduced.
