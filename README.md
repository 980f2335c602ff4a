# Live viewer controller: a verified model

This project models the camera viewer of the works-monitoring dashboard. The
Angular component `LiveViewerComponent` gets the camera list from the shared
dashboard state. It chooses one stream URL per camera and packs the per-camera
values into comma-separated strings. Then it injects a script into the page
that drives the viewer. That script keeps four mutable variables:
`currentIndex`, `currentStream`, `isPlayback` and `currentPlaybackId`. Its
click handlers change them. These handlers cover the slide buttons, the quality
buttons, the playback dialog, the playback answer and the Back button.

The model has six modules:

- `Maybe` (maybe.dfy): `Option` for null/undefined and `Result` for error returns.
- `JsText` (js_text.dfy): JavaScript `trim`, `startsWith`, `split`/`join` on a
  single character, and `split('/').pop()`, with their laws. One law is
  split-after-join. Another is that each separator inside an element adds one
  piece.
- `StreamSelection` (stream_selection.dfy): the RTMP-or-RTSP choice, made in
  `loadStream` and when the stream list is built. It also holds the packed
  stream list and `getLiveUrl`'s quality tiers.
- `CameraIndex` (camera_index.dfy): the starting index, the wrap-around next
  and previous moves, and the remainder operator they use.
- `PlaybackWindow` (playback_window.dfy): the playback dialog's checks, the
  From-change helper, and the date and time strings sent with a playback
  request.
- `Viewer` (live_viewer.dfy): the class `LiveViewer`. It holds the script's
  state and its handlers, plus two things the handlers touch outside that
  state. One is the source each camera image requests. The other is the list
  of requests sent to the playback endpoints.

Points where the model follows the code as written rather than what it evidently intends:

- The tier rewrite is `base.replace(/\.264$/, ...)`, but it sits inside a
  template literal, where `\.` becomes `.`. The browser therefore runs
  `/.264$/`. Any character other than a line terminator, followed by `264`,
  matches and is replaced. `EndsLikeH264` models that pattern, with
  characters taken as code points (see "Left out").
  `SubTierRewritesAnyCharBefore264` shows that the pattern agrees with the
  literal `.264` reading when that character is `.`. Otherwise the character
  is lost: `camx264` becomes `cam_third.264`.
- An `rtmp://` URL is returned unchanged at every tier, and so is an unknown
  tier. The tier is not coerced or recorded.
- The slide buttons are not blocked during playback. Only the quality buttons
  check `isPlayback`.
- The code has no maximum length for a playback window and no guard against a
  second OK while a playback is running.
- The script does not track whether a playback request is still in flight. An
  answer that arrives after Back still records the file id while the viewer is
  live, and no delete is sent for it (`Viewer.LateAnswerAfterClose`).
- Back resets only the first image (`cam01`). In the all-camera layout with a
  current index above 0, an RTSP recording shown on channel
  `currentIndex + 1` stays on screen after Back, and the model keeps that
  `Recording` in `images` (`Viewer.LiveViewer.ClosePlayback`,
  `Viewer.LiveViewer.RestoreToLive`).
- The From helper's five-minute To wraps past midnight onto the same date. The
  OK button then refuses the window it proposed
  (`PlaybackWindow.FromChangeWrapsPastMidnight`).
- Times are whole minutes on the local scale. The form's times are whole
  minutes, so comparing them with the millisecond clock gives the same answer
  as comparing them with the current minute rounded down
  (`PlaybackWindow.WholeMinuteComparison`). The clock is the `now` parameter.

## Model

| member | source | states |
|---|---|---|
| `JsText.TrimEmptyIffBlank` | UI/src/app/_features/dashboard/components/live-viewer/live-viewer.component.ts:57 | `trim() !== ''` holds exactly when the string has a character that is not JavaScript whitespace |
| `JsText.SplitJoin` | UI/src/app/_features/dashboard/components/live-viewer/live-viewer.component.ts:142-148 | splitting a non-empty joined list on the separator gives the list back when no element contains the separator |
| `JsText.SplitJoinLength` | UI/src/app/_features/dashboard/components/live-viewer/live-viewer.component.ts:148 | the number of split pieces is the number of elements plus the separators inside them, so it equals the element count exactly when no element contains the separator |
| `JsText.LastPiece` | UI/src/app/_features/dashboard/components/live-viewer/live-viewer.component.ts:465 | `split('/').pop()` is the end of the string after its last `/` (the whole string if it has none) and contains no `/` |
| `StreamSelection.LoadStreamSource` | UI/src/app/_features/dashboard/components/live-viewer/live-viewer.component.ts:46-65 | `loadStream` fails with NoCamera exactly when the index is outside the list; a URL it accepts is non-empty and is the camera's RTMP or RTSP URL |
| `StreamSelection.LoadStreamPrefersRtmp` | UI/src/app/_features/dashboard/components/live-viewer/live-viewer.component.ts:56-65 | the RTMP URL is played whenever it has a non-whitespace character; otherwise the RTSP URL is played, and an absent or empty RTSP URL is the error |
| `StreamSelection.PackedSourceMatchesLoad` | UI/src/app/_features/dashboard/components/live-viewer/live-viewer.component.ts:110-116 | the stream-list entry for a camera is the URL `loadStream` would play, or `''` where `loadStream` gives up |
| `StreamSelection.StreamListRoundTrip` | UI/src/app/_features/dashboard/components/live-viewer/live-viewer.component.ts:110-148 | the script's `streamList` equals the per-camera choices, and `camCount` equals the number of cameras, exactly when no chosen URL contains a comma; `camCount` is never below the camera count |
| `StreamSelection.GetLiveUrl` | UI/src/app/_features/dashboard/components/live-viewer/live-viewer.component.ts:170-182 | a slot outside the stream list plays the empty URL, and an `rtmp://` URL is played as it is whatever the tier |
| `StreamSelection.GetLiveUrlTiers` | UI/src/app/_features/dashboard/components/live-viewer/live-viewer.component.ts:170-182 | `rtmp://` URLs, the `main` tier, unknown tiers and URLs without the suffix are returned unchanged; `sub` and `third` keep all but the last four characters and end in `_third.264` and `_fourth.264` |
| `StreamSelection.SubTierRewritesAnyCharBefore264` | UI/src/app/_features/dashboard/components/live-viewer/live-viewer.component.ts:179-180 | the cooked pattern `/.264$/` turns `<prefix>X264` into `<prefix>_third.264` / `<prefix>_fourth.264` for any X that is not a line terminator, `.` included |
| `StreamSelection.TiersAreDistinct` | UI/src/app/_features/dashboard/components/live-viewer/live-viewer.component.ts:178-181 | for an RTSP URL the pattern matches, the three tiers give three different URLs |
| `CameraIndex.FirstRtmpIndex` | UI/src/app/_features/dashboard/components/live-viewer/live-viewer.component.ts:102 | `findIndex` gives -1 exactly when no camera has a non-blank RTMP URL, otherwise the first such camera |
| `CameraIndex.InitialIndexAsWritten` | UI/src/app/_features/dashboard/components/live-viewer/live-viewer.component.ts:99-106 | the starting index as written: NaN exactly when `selectedIndex` is NaN; otherwise a finite number that is 0 or lies in `[0, cams.length)`; a whole number when no numeric index was given; a finite numeric index inside the range is kept as it is, fractions included |
| `CameraIndex.InitialIndex` | UI/src/app/_features/dashboard/components/live-viewer/live-viewer.component.ts:99-106 | for a non-empty list the starting index lies in `[0, cams.length)`; with no numeric index it is the first RTMP camera, or 0 when there is none; a whole numeric index inside the list is kept |
| `CameraIndex.InitialIndexAgreesOnWholeNumbers` | UI/src/app/_features/dashboard/components/live-viewer/live-viewer.component.ts:99-106 | on every input except NaN, infinities and fractions, the code as written computes the same index as `InitialIndex` |
| `CameraIndex.NaNIndexPassesRangeTest` | UI/src/app/_features/dashboard/components/live-viewer/live-viewer.component.ts:106 | a NaN `selectedIndex` survives the range test as written |
| `CameraIndex.FractionalIndexPassesRangeTest` | UI/src/app/_features/dashboard/components/live-viewer/live-viewer.component.ts:106 | a fractional `selectedIndex` inside the range survives the range test as written |
| `CameraIndex.JsRem` | UI/src/app/_features/dashboard/components/live-viewer/live-viewer.component.ts:228-234 | JavaScript's `%` with a positive divisor: the remainder is smaller than the divisor in size, equals the Euclidean remainder for a non-negative dividend and is never positive for a negative one |
| `CameraIndex.Next` | UI/src/app/_features/dashboard/components/live-viewer/live-viewer.component.ts:229 | the next index stays in `[0, n)`: one more, or 0 after the last camera |
| `CameraIndex.Prev` | UI/src/app/_features/dashboard/components/live-viewer/live-viewer.component.ts:234 | the previous index stays in `[0, n)`: one less, or the last camera before 0 |
| `CameraIndex.NextPrevInverse` | UI/src/app/_features/dashboard/components/live-viewer/live-viewer.component.ts:228-236 | next undoes previous and previous undoes next |
| `CameraIndex.AdvanceRotates` | UI/src/app/_features/dashboard/components/live-viewer/live-viewer.component.ts:228-231 | `k` presses of next move the index `k` places around the ring, and a full turn more changes nothing |
| `CameraIndex.AdvanceWithinTurn` | UI/src/app/_features/dashboard/components/live-viewer/live-viewer.component.ts:228-231 | fewer than `n` presses of next count up from the index and wrap past the last camera to the first at most once |
| `CameraIndex.FullTurnReturns` | UI/src/app/_features/dashboard/components/live-viewer/live-viewer.component.ts:228-231 | pressing next once per camera returns to the starting camera |
| `PlaybackWindow.WholeMinuteComparison` | UI/src/app/_features/dashboard/components/live-viewer/live-viewer.component.ts:335-347 | a whole-minute time is after the millisecond clock exactly when it is after the clock's minute, which justifies the minute scale |
| `PlaybackWindow.ClockOf` | UI/src/app/_features/dashboard/components/live-viewer/live-viewer.component.ts:314-316 | the hours and minutes read from an instant form a valid time whose minute of the day is the instant's |
| `PlaybackWindow.CheckWindow` | UI/src/app/_features/dashboard/components/live-viewer/live-viewer.component.ts:324-352 | a window is accepted exactly when all three fields are filled, From is not after now, To is not after now and To is not before From; the first failing check names the refusal |
| `PlaybackWindow.ProposedTo` | UI/src/app/_features/dashboard/components/live-viewer/live-viewer.component.ts:310-312 | the proposed To is From plus five minutes or now, whichever is earlier, and is not before a From that is not in the future |
| `PlaybackWindow.FromChanged` | UI/src/app/_features/dashboard/components/live-viewer/live-viewer.component.ts:297-317 | the From handler never changes the date, either keeps or clears From, leaves To alone when it clears From, and only ever sets To to a valid time or empty |
| `PlaybackWindow.FromChangeProposesAcceptedWindow` | UI/src/app/_features/dashboard/components/live-viewer/live-viewer.component.ts:310-316 | after a From that is not in the future, To is `min(From + 5 min, now)` when that falls on the chosen date, and the OK button accepts the window |
| `PlaybackWindow.FutureFromIsCleared` | UI/src/app/_features/dashboard/components/live-viewer/live-viewer.component.ts:303-308 | a From in the future is cleared, To is kept, and OK then refuses with a missing field |
| `PlaybackWindow.FromChangeWrapsPastMidnight` | UI/src/app/_features/dashboard/components/live-viewer/live-viewer.component.ts:310-316 | when the proposed To (`min(From + 5 min, now)`) falls past the chosen date, as when From is within five minutes of midnight and now is either later than From + 5 or itself past midnight, To reads that moment's wall-clock minute on the same date, earlier than From, and OK refuses the window as To before From |
| `PlaybackWindow.CompactDateDigits` | UI/src/app/_features/dashboard/components/live-viewer/live-viewer.component.ts:355 | removing the dashes leaves the year, month and day digits in order |
| `PlaybackWindow.CompactTimeDigits` | UI/src/app/_features/dashboard/components/live-viewer/live-viewer.component.ts:356-357 | removing the colon and appending `00` leaves the hour and minute digits and zero seconds |
| `PlaybackWindow.IsoLocalRoundTrip` | UI/src/app/_features/dashboard/components/live-viewer/live-viewer.component.ts:434-446 | the request's start and end rebuilt from the compact strings equal `date + 'T' + time + ':00'`, the moments the OK button checked |
| `Viewer.PlaybackForCarriesWindow` | UI/src/app/_features/dashboard/components/live-viewer/live-viewer.component.ts:426-492 | an RTMP camera's playback request names the camera by its URL's last segment (`LastPiece`: no `/`, a suffix of the URL, preceded by `/` or the whole URL) and carries the checked window; an RTSP camera's recording covers the same window on the same channel |
| `Viewer.LiveViewer.ActiveChannel` | UI/src/app/_features/dashboard/components/live-viewer/live-viewer.component.ts:200-202 | the active channel is `currentIndex + 1`, between 1 and `camCount` |
| `Viewer.LiveViewer.constructor` | UI/src/app/_features/dashboard/components/live-viewer/live-viewer.component.ts:134-221 | the script starts live at the `main` tier with no playback id, on the corrected starting index `InitialIndex` (see Findings: with a NaN or fractional `selectedIndex` the script itself starts at that value, the model at 0), with the stream list unpacked from its packed form, and the first image on the current camera |
| `Viewer.LiveViewer.SetSingleLiveStream` | UI/src/app/_features/dashboard/components/live-viewer/live-viewer.component.ts:205-218 | the first image plays the given slot at the current tier; no other image changes |
| `Viewer.LiveViewer.SetAllLiveStreams` | UI/src/app/_features/dashboard/components/live-viewer/live-viewer.component.ts:185-198 | every image 1..camCount plays its slot at the current tier; the others are untouched |
| `Viewer.LiveViewer.SlideNext` | UI/src/app/_features/dashboard/components/live-viewer/live-viewer.component.ts:228-231 | the index moves to `Next` and stays in range, and the first image follows it; nothing else changes, playback included |
| `Viewer.LiveViewer.SlidePrev` | UI/src/app/_features/dashboard/components/live-viewer/live-viewer.component.ts:233-236 | the index moves to `Prev` and stays in range, and the first image follows it; nothing else changes |
| `Viewer.ButtonTier` | UI/src/app/_features/dashboard/components/live-viewer/live-viewer.component.ts:244 | the tier a quality button selects is never empty: its `data-stream` value when that is non-empty, `main` otherwise |
| `Viewer.LiveViewer.SelectQuality` | UI/src/app/_features/dashboard/components/live-viewer/live-viewer.component.ts:239-252 | during playback the tier and every image stay as they were; otherwise the tier becomes the button's (`main` by default) and the single view or every image 1..camCount switches to it, every other image staying as it was |
| `Viewer.LiveViewer.SetPlaybackForChannel` | UI/src/app/_features/dashboard/components/live-viewer/live-viewer.component.ts:412-493 | any channel but `currentIndex + 1`, or one without its elements, changes nothing; the active one either sends one playback request or switches its own image to the recording |
| `Viewer.LiveViewer.SetPlaybackForAllChannels` | UI/src/app/_features/dashboard/components/live-viewer/live-viewer.component.ts:361-365 | dispatching to every channel in turn has exactly the effect of starting playback on the active channel once |
| `Viewer.LiveViewer.ConfirmPlayback` | UI/src/app/_features/dashboard/components/live-viewer/live-viewer.component.ts:324-377 | a refused window changes nothing and leaves `isPlayback` as it was; an accepted one starts playback on the active channel only and sets `isPlayback` |
| `Viewer.LiveViewer.PlaybackLoaded` | UI/src/app/_features/dashboard/components/live-viewer/live-viewer.component.ts:464-469 | a playback answer records the last segment of the file URL as the playback id |
| `Viewer.LiveViewer.RestoreToLive` | UI/src/app/_features/dashboard/components/live-viewer/live-viewer.component.ts:495-517 | back to live at the `main` tier, with the first image on the current camera |
| `Viewer.LiveViewer.PlaybackFailed` | UI/src/app/_features/dashboard/components/live-viewer/live-viewer.component.ts:470-474 | a failed playback request restores live at the `main` tier |
| `Viewer.LiveViewer.ClosePlayback` | UI/src/app/_features/dashboard/components/live-viewer/live-viewer.component.ts:391-409 | closing sends one delete for a non-empty playback id, then leaves the id null, `isPlayback` false, the tier `main` and the index unchanged |
| `Viewer.ConfirmThenBack` | UI/src/app/_features/dashboard/components/live-viewer/live-viewer.component.ts:361-409 | OK on an RTMP camera then Back: the one request sent is a `CreatePlayback` naming the camera, no delete is sent, and the viewer is live with no playback id |
| `Viewer.LateAnswerAfterClose` | UI/src/app/_features/dashboard/components/live-viewer/live-viewer.component.ts:391-469 | on an RTMP camera, OK sends exactly one request, a `CreatePlayback` naming the camera; an answer arriving after Back leaves the viewer live with a recorded playback id for which no delete was sent |

## Left out

- Page rendering is not modelled: element display styles, video `load`/`play`/`pause`, button classes and pointer events, `setStatus`, `updateHeader`, `hideUnusedCameras`, `alert` and `console`. Whether the active channel's image and video elements exist is the `elementsPresent` input. The image elements are assumed to exist for the live-stream helpers.
- The header columns (division, district, work id, status) are packed and split like the stream list. They only feed `updateHeader`'s text, and `JsText.SplitJoin` covers them.
- The live-proxy URL is not modelled: the API base URL plus `encodeURIComponent` of the chosen URL. The model keeps the stream URL that becomes the proxy's `rtspUrl` parameter.
- The packed strings are placed inside a double-quoted literal of the injected script. The model treats that as the identity, which holds when no URL contains `"`, `\` or a line terminator.
- The hard-coded credentialed RTSP recording URL is not modelled. `Recording` keeps its channel and its start and stop stamps.
- The playback `fetch` calls are recorded as `PlaybackRequest` values. The server's answer is an input: `PlaybackLoaded` on success, `PlaybackFailed` on any failure.
- The clock is the `now` parameter. Time zones and daylight saving are not modelled: instants are local minutes.
- `initPlaybackDefaults` is left out. It mixes the UTC date from `toISOString` with local hours and minutes, which is time-zone formatting.
- The `max` limits on the date and time inputs are left out. They only restrict the browser's picker.
- Dates after year 9999 are left out.
- The form values are taken as the browser's date and time inputs deliver them: empty, or a valid `yyyy-mm-dd` / `hh:mm`.
- `ngOnInit`, the `setTimeout` injection, the shared-state lookup, `goBack`, `Location.back()` and the `window.__restoreLiveFromPlayback` hook are Angular and page plumbing. `ClosePlayback` models the handler the hook calls.
- `playbackActive` is declared in the script and never used.
- The server side of the live and playback endpoints is not modelled. It is not part of this source.
- `Viewer.LiveViewer.constructor`: starts from the corrected `InitialIndex`, so a NaN or fractional `selectedIndex` starts the model at camera 0 where the script starts at NaN or 0.5; `InitialIndexAsWritten` models the script's value (see Findings).
- Strings are sequences of Unicode code points, not UTF-16 code units. The injected `/.264$/` has no `u` flag, so its `.` matches one code unit: before `264`, an astral character loses only its low surrogate in JavaScript, while `ReplaceH264Suffix` drops the whole character. `Trim`, `Split` and `LastPiece` are unaffected, since their separators and whitespace are single code units.
- `StreamSelection.GetLiveUrl`'s own contract covers the missing slot and the `rtmp://` case; `GetLiveUrlTiers` states the `sub` and `third` rewrites.
- `StreamSelection.LoadStreamSource`'s own contract does not say which of the two URLs is chosen. `LoadStreamPrefersRtmp` states the choice.

## Findings

| source | as written | input that shows it | evidently intended | confidence | as-written member | corrected member |
|---|---|---|---|---|---|---|
| UI/src/app/_features/dashboard/components/live-viewer/live-viewer.component.ts:99-106 | a numeric `selectedIndex` is kept unless it is -1, below 0 or at least `cams.length`; NaN fails both comparisons and a fraction passes them | `selectedIndex = NaN` (or `0.5`) with one camera: the script starts with `currentIndex = NaN` (or `0.5`), no stream slot matches, and the playback guard never matches | an index that is a whole number inside the list, else 0 | not executed; medium (depends on what the shared state can hold) | `CameraIndex.NaNIndexPassesRangeTest` | `CameraIndex.InitialIndex` |
