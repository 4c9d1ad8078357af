# Cerebr viewport and keyboard compensation, and boot helpers, in Dafny

Cerebr is a chat side panel that runs as a browser extension and as a web
page. On iOS Safari the on-screen keyboard covers the bottom of the page
without always shrinking the layout, so the page measures the keyboard in
every animation frame and publishes what it measured as CSS variables:
`--keyboard-height`, `--keyboard-offset`, `--chat-top-margin` and the body's
`keyboard-visible` class. This project models four versions of that engine
and three versions of the boot script that loads the app.

- **Keyboard** (`keyboard.dfy`) holds what the src, v2.4.17 and v2.4.28
  engines share. One host sample holds the layout height, the visual
  viewport (or none) and the focused element. From it the engine derives
  the overlay, `max(0, layout − (vvHeight + vvOffsetTop))`, the layout
  shrink, `max(0, baseline − layout)`, and the effective keyboard height,
  the larger of the two. This module also holds the 80 px threshold, the
  publisher, the text-input test and the message-hover rule.
- **ViewportV2417**, **ViewportSrc** and **ViewportV2428** each model one
  engine. A keyboard tick is a function of the baseline (and, in v2.4.28,
  the 4000 ms grace deadline), the time and the sample. Its properties are
  lemmas. Each module-level state becomes a class `Engine`. Its
  `SetViewportVars` method is proved equal to the tick. The
  requestAnimationFrame queue is a `frames` field, and `FireFrame` runs
  every callback requested before the frame, in request order. Timers are a
  list of due times.
  - v2.4.17: the keyboard is visible whenever the reading is above the
    threshold.
  - src: visible only while a text input has focus; adds iOS hover
    suppression and an inline-style lift of the input bar.
  - v2.4.28: adds the grace deadline, `--app-height` and a self-requeuing
    burst of update frames.
- **ViewportV2447** models the scroll-anchoring engine of v2.4.47. It
  publishes `--vv-height` and `--vv-offset-top`. It coalesces update
  requests and ORs their preserve-scroll flags. When asked to, it moves
  `scrollTop` so that the bottom edge of the chat's visible area stays put
  while the input bar and keyboard change that area's height. **CssText**
  gives the px text `roundPx` writes and proves that it reads back as the
  number.
- **BootV2416** covers the v2.4.16 boot helpers:
  - `isExtensionProtocol`;
  - `toSafePathSegment`, with an ECMAScript `trim` and the
    `[0-9A-Za-z._-]` charset;
  - the first-match manifest version choice, over abstract fetch outcomes;
  - the import order: `./main.js` on extension pages, the versioned entry
    first on the web, and `./main.js` only when that import fails.
- **BootV2418** and **BootV2433** reuse the BootV2416 helpers. They add the
  coalesced `--app-height` scheduler, with bursts in v2.4.33, and the
  stylesheet link that is pointed at the versioned tree.

A proved property worth noting: `toSafePathSegment` accepts `.` and `..`,
so a manifest version `..` yields the entry module `../v/../src/main.js`
(`BootV2416.DotSegmentsAccepted`).

Per version:
- v2.4.17 sets the keyboard class whatever has focus.
- v2.4.28 starts a burst for any text-input-like target, not only the
  message input.
- v2.4.18 takes `--app-height` from the visual viewport first.

## Model

| member | source | states |
|---|---|---|
| Keyboard.BurstDueTimes | src/utils/viewport.js:131-137 | one burst sets one timer per delay, due at now + delay |
| Keyboard.BurstDueTimesIncrease | src/utils/viewport.js:134 | a burst is nine requests at strictly increasing times from now to now + 720 |
| Keyboard.IsTextInputLike | src/utils/viewport.js:6-11 | false for no element and for the body, true for editable elements, otherwise true exactly for INPUT and TEXTAREA |
| Keyboard.ShouldSuppressMessageHover | src/utils/viewport.js:20-24 | true exactly on iOS with #message-input focused, never off iOS |
| Keyboard.ClientLayoutHeight | src/utils/viewport.js:43-47 | the layout height is the larger of innerHeight and clientHeight |
| Keyboard.OverlayPx | v/2.4.28/src/utils/viewport.js:54-59 | the overlay is never negative, is 0 without a visual viewport, and is exactly layout − visual bottom when positive |
| Keyboard.LayoutKeyboardPx | v/2.4.28/src/utils/viewport.js:102 | the layout shrink is never negative, is baseline − layout when positive, and is 0 when the layout has not shrunk |
| Keyboard.Measure | v/2.4.28/src/utils/viewport.js:101-103 | effective is at least the overlay and the layout shrink, both at least 0, and equals one of them |
| Keyboard.Publish | v/2.4.28/src/utils/viewport.js:121-136 | a visible tick writes effective, overlay and layout shrink and sets the class; a hidden tick writes three zeros and clears it |
| Keyboard.PublishConsistent | v/2.4.17/src/utils/viewport.js:38-55 | published values are non-negative, the height is the larger of offset and top margin, and the class is set iff the height exceeds 80 |
| ViewportV2417.TickVisibleIffAboveThreshold | v/2.4.17/src/utils/viewport.js:38-39 | visible iff effective > 80; changing the focused element changes nothing |
| ViewportV2417.TickPublishes | v/2.4.17/src/utils/viewport.js:41-58 | visible tick publishes the reading and keeps the baseline; hidden tick publishes zeros and sets the baseline to the layout height |
| ViewportV2417.TickIdempotent | v/2.4.17/src/utils/viewport.js:27-59 | a second tick on the same sample leaves baseline and published values as the first |
| ViewportV2417.Engine.constructor | v/2.4.17/src/utils/viewport.js:76-77 | module load takes max(innerHeight, clientHeight) as baseline and runs one tick; nothing pending |
| ViewportV2417.Engine.SetViewportVars | v/2.4.17/src/utils/viewport.js:27-59 | the new baseline and published values are the tick of the old baseline; the published values stay consistent |
| ViewportV2417.Engine.ScheduleViewportUpdate | v/2.4.17/src/utils/viewport.js:19-25 | a frame is requested only when none is pending; at most one is ever pending |
| ViewportV2417.Engine.FireFrame | v/2.4.17/src/utils/viewport.js:21-24 | the pending frame clears rafId and runs one tick; with none pending nothing changes |
| ViewportV2417.Engine.ScheduleBurstUpdates | v/2.4.17/src/utils/viewport.js:68-74 | appends the nine burst timers in delay order |
| ViewportV2417.Engine.FireTimeout | v/2.4.17/src/utils/viewport.js:72 | a due timer is removed and requests an update through the coalescing scheduler |
| ViewportV2417.Engine.OnFocusChange | v/2.4.17/src/utils/viewport.js:88-104 | focusin/focusout start a burst only for text-input-like targets; others change nothing |
| ViewportSrc.InlineLift | src/utils/viewport.js:83-107 | the bar is lifted iff focus is inside the input container, the keyboard is visible and overlay > 0, by exactly the overlay; otherwise all three properties are cleared |
| ViewportSrc.TickVisibleIffFocusedAboveThreshold | src/utils/viewport.js:75-76 | visible iff a text input has focus and effective > 80; without text focus all values are cleared |
| ViewportSrc.TickBaseline | src/utils/viewport.js:109-128 | a visible tick keeps the baseline; a hidden tick sets it to the layout height, after which the same layout height reads zero layout shrink |
| ViewportSrc.TickHoverOffOffIOS | src/utils/viewport.js:20-24 | off iOS a tick never suppresses hover |
| ViewportSrc.TickIdempotent | src/utils/viewport.js:64-129 | a second tick on the same sample changes nothing |
| ViewportSrc.Engine.constructor | src/utils/viewport.js:139-140 | module load: baseline max(innerHeight, clientHeight), then one tick |
| ViewportSrc.Engine.SetViewportVars | src/utils/viewport.js:64-129 | baseline, published values, hover class and inline style are those of the tick; the inline style is untouched without a container |
| ViewportSrc.Engine.SetMessageHoverSuppressed | src/utils/viewport.js:26-33 | sets the hover class on iOS and is a no-op elsewhere |
| ViewportSrc.Engine.ScheduleViewportUpdate | src/utils/viewport.js:56-62 | at most one update frame is pending; a request while one is pending changes nothing |
| ViewportSrc.Engine.FireFrame | src/utils/viewport.js:58-61 | the pending frame runs one tick and clears rafId |
| ViewportSrc.Engine.ScheduleBurstUpdates | src/utils/viewport.js:131-137 | appends the nine burst timers |
| ViewportSrc.Engine.FireTimeout | src/utils/viewport.js:135 | a due timer requests an update through the coalescing scheduler |
| ViewportSrc.Engine.FocusIn | src/utils/viewport.js:151-162 | a text-like target starts a burst and, for the message input on iOS, sets hover suppression; others change nothing |
| ViewportSrc.Engine.FocusOut | src/utils/viewport.js:164-174 | as focusin, lifting hover suppression |
| ViewportV2428.LayoutHeight | v/2.4.28/src/utils/viewport.js:46-52 | the layout height is the root element's rendered height when non-zero, else max(innerHeight, clientHeight) |
| ViewportV2428.AppHeight | v/2.4.28/src/utils/viewport.js:87-95 | --app-height is the visual height when non-zero, else innerHeight when that is non-zero; nothing is written when both are 0 |
| ViewportV2428.TickVisibleAboveThreshold | v/2.4.28/src/utils/viewport.js:115-117 | a visible keyboard implies effective > 80; the grace window never shows a sub-threshold reading |
| ViewportV2428.TickDeadline | v/2.4.28/src/utils/viewport.js:109-113 | focused above threshold the deadline never decreases and reaches now + 4000; it otherwise changes only by a reset to 0 without focus once passed |
| ViewportV2428.TickAfterFocusLoss | v/2.4.28/src/utils/viewport.js:111-117 | without text focus, visible iff now < deadline and effective > 80 |
| ViewportV2428.TickPublishes | v/2.4.28/src/utils/viewport.js:121-141 | visible tick publishes the reading and keeps the baseline; hidden tick publishes zeros and sets the baseline to the layout height |
| ViewportV2428.TickIdempotent | v/2.4.28/src/utils/viewport.js:85-142 | a second tick with the same sample and time changes nothing |
| ViewportV2428.GraceKeepsVisible | v/2.4.28/src/utils/viewport.js:109-117 | every tick before a reached deadline with readings above threshold shows the keyboard, focused or not |
| ViewportV2428.FocusLossWithinGrace | v/2.4.28/src/utils/viewport.js:109-117 | after a focused tick above threshold, every later tick within 4000 ms above threshold stays visible |
| ViewportV2428.Engine.constructor | v/2.4.28/src/utils/viewport.js:144-145 | module load: baseline is the layout height, deadline 0, then one tick |
| ViewportV2428.Engine.SetViewportVars | v/2.4.28/src/utils/viewport.js:85-142 | baseline, deadline, published values, hover class and --app-height are those of the tick |
| ViewportV2428.Engine.ScheduleViewportUpdate | v/2.4.28/src/utils/viewport.js:61-67 | at most one update frame pending; a request while one is pending changes nothing |
| ViewportV2428.Engine.ScheduleBurstFrames | v/2.4.28/src/utils/viewport.js:69-83 | the burst deadline becomes max(old, now + duration), never shorter; only one burst loop is pending |
| ViewportV2428.Engine.RunUpdate | v/2.4.28/src/utils/viewport.js:63-66 | the update callback clears rafId and runs one tick |
| ViewportV2428.Engine.RunBurstTick | v/2.4.28/src/utils/viewport.js:74-80 | the tick requests an update and requeues itself only while now < deadline |
| ViewportV2428.RequeuesUpdateIffUnconsumedBurst | v/2.4.28/src/utils/viewport.js:61-83 | a frame leaves an update requested exactly when some burst tick runs with no update callback after it, which is when the last callback is a burst tick |
| ViewportV2428.Engine.FireFrame | v/2.4.28/src/utils/viewport.js:61-83 | after a frame the queue is exactly: an update when the last callback was a burst tick, then the burst tick again when it ran and now < deadline, in that order; the state is the tick iff an update was pending |
| ViewportV2428.Engine.SetMessageHoverSuppressed | v/2.4.28/src/utils/viewport.js:29-36 | sets the hover class on iOS only |
| ViewportV2428.Engine.PreFocusSuppression | v/2.4.28/src/utils/viewport.js:156-163 | on iOS a touch on the message input suppresses hover and starts a default burst, appending a burst frame unless one is pending; otherwise nothing changes |
| ViewportV2428.Engine.PointerDown | v/2.4.28/src/utils/viewport.js:166-174 | mouse pointers change nothing; other pointers act as the touch listener: on iOS on the message input they suppress hover and start a burst, otherwise nothing changes |
| ViewportV2428.Engine.FocusIn | v/2.4.28/src/utils/viewport.js:177-188 | a text-like target starts a 1800 ms burst, appending a burst frame unless one is pending (message input on iOS: hover suppressed); others change nothing |
| ViewportV2428.Engine.FocusOut | v/2.4.28/src/utils/viewport.js:190-200 | as focusin, lifting the hover suppression |
| CssText.DigitsRoundTrip | v/2.4.47/src/utils/viewport.js:4 | the decimal digits of a number read back as that number |
| CssText.PxTextRoundTrip | v/2.4.47/src/utils/viewport.js:4 | the px text of an integer parses back to that integer |
| ViewportV2447.RoundPx | v/2.4.47/src/utils/viewport.js:1-5 | '0px' for non-finite input, else text that parses back to the number |
| ViewportV2447.ViewportMetrics | v/2.4.47/src/utils/viewport.js:7-20 | without a visual viewport the metrics are innerHeight and offset 0, else the viewport's own |
| ViewportV2447.Clamp | v/2.4.47/src/utils/viewport.js:33-38 | non-finite gives min; with min <= max the result is in range and the identity on in-range values |
| ViewportV2447.InputOverlapPx | v/2.4.47/src/utils/viewport.js:40-47 | the overlap is at least 0, is 0 when either element is missing, and is exact when positive |
| ViewportV2447.EffectiveChatVisibleHeight | v/2.4.47/src/utils/viewport.js:49-53 | max(0, clientHeight − overlap): at least 0 and at most the client height |
| ViewportV2447.AnchoredScrollTop | v/2.4.47/src/utils/viewport.js:79-83 | the new scrollTop lies in [0, max(0, scrollHeight − clientHeight)] and keeps the old bottom edge when the clamp does not bind |
| ViewportV2447.Engine.constructor | v/2.4.47/src/utils/viewport.js:101-102 | module load writes the two CSS variables; nothing is pending and no height is measured |
| ViewportV2447.Engine.ApplyViewportCssVars | v/2.4.47/src/utils/viewport.js:22-31 | --vv-height and --vv-offset-top are the rounded metrics |
| ViewportV2447.Engine.ApplyViewportUpdate | v/2.4.47/src/utils/viewport.js:59-74 | writes the CSS variables and, when the chat exists, requests a measuring frame carrying the old bottom edge |
| ViewportV2447.Engine.RunMeasure | v/2.4.47/src/utils/viewport.js:74-86 | scroll is anchored only with preserve, an old bottom and an earlier measurement; the measurement is always recorded when the chat is connected |
| ViewportV2447.Engine.ScheduleViewportUpdate | v/2.4.47/src/utils/viewport.js:89-99 | the preserve flag is OR-ed in and at most one update is pending |
| ViewportV2447.Engine.RunScheduled | v/2.4.47/src/utils/viewport.js:93-98 | the update callback resets the flag and the id and applies the update with the accumulated flag, queueing a measuring frame whose bottom edge is the scroll position plus the last measured height (or a fresh one) |
| ViewportV2447.ReplayRecordsHeight | v/2.4.47/src/utils/viewport.js:74-86 | after a run of callbacks the recorded height is the chat's current one exactly when a measuring frame ran and the chat exists |
| ViewportV2447.ReplayKeepsScroll | v/2.4.47/src/utils/viewport.js:74-86 | callbacks none of which asks to preserve scroll leave the scroll position unchanged |
| ViewportV2447.Engine.FireFrame | v/2.4.47/src/utils/viewport.js:74-98 | afterwards nothing is scheduled and the flag is false; --vv-height and --vv-offset-top are the frame's rounded metrics when an update ran and unchanged otherwise; the scroll position and recorded height are those the callbacks leave in order; the only request is one measuring frame carrying the OR of the flags and the bottom edge reached when the update callback ran |
| ViewportV2447.Engine.OnEvent | v/2.4.47/src/utils/viewport.js:104-114 | each host event is one coalesced request: window and visual-viewport resizes OR in preserve-scroll, visual-viewport scroll and DOMContentLoaded do not; a frame is appended only when none is scheduled |
| ViewportV2447.Engine.Settle | v/2.4.47/src/utils/viewport.js:119-121 | a settle timer is due delay ms later |
| ViewportV2447.Engine.FireTimeout | v/2.4.47/src/utils/viewport.js:120 | a due settle timer requests an update that preserves scroll |
| ViewportV2447.Engine.InputFocus | v/2.4.47/src/utils/viewport.js:123-127 | input focus requests a preserving update, appending a frame only when none is scheduled, and settle timers at 320 and 700 ms |
| ViewportV2447.Engine.InputBlur | v/2.4.47/src/utils/viewport.js:129-133 | input blur requests a preserving update, appending a frame only when none is scheduled, and settle timers at 180 and 480 ms |
| BootV2416.IsExtensionProtocol | v/2.4.16/src/boot.js:1-4 | true exactly for chrome-extension: and moz-extension:; false without a location |
| BootV2416.Trim | v/2.4.16/src/boot.js:7 | trim is the middle of the text with only white space before and after it; it has no edge white space, is empty iff the text is all white space, and keeps clean text unchanged |
| BootV2416.TrimIsClean | v/2.4.16/src/boot.js:7 | the trimmed text has no white space at either edge |
| BootV2416.TrimEmptyIffBlank | v/2.4.16/src/boot.js:7 | the trimmed text is empty iff the input is all white space |
| BootV2416.TrimIsInfix | v/2.4.16/src/boot.js:7 | the trimmed text sits inside the input with only white space on either side |
| BootV2416.ToSafePathSegment | v/2.4.16/src/boot.js:6-10 | a result is the non-empty trimmed input made only of [0-9A-Za-z._-], and such an input is always accepted; a missing or falsy value reads as the empty string and is refused |
| BootV2416.BlankIsRefused | v/2.4.16/src/boot.js:6-9 | missing, empty and white-space-only values give null |
| BootV2416.AcceptedSegmentIsClean | v/2.4.18/src/boot.js:37-41 | an accepted segment is non-empty, charset-only, has no edge white space and no '/' |
| BootV2416.SafePathSegmentIdempotent | v/2.4.18/src/boot.js:37-41 | validating an accepted segment again returns it unchanged |
| BootV2416.DotSegmentsAccepted | v/2.4.33/src/boot.js:78-82 | the segments "." and ".." are accepted |
| BootV2416.FirstSafeVersion | v/2.4.16/src/boot.js:28-40 | a chosen version is safe and non-empty |
| BootV2416.FirstSafeVersionIsFirstMatch | v/2.4.18/src/boot.js:80-92 | null iff no candidate yields a safe version, else the version of the first candidate that does; a thrown or non-ok fetch yields none |
| BootV2416.FetchManifestVersion | v/2.4.16/src/boot.js:22-41 | manifest.json's safe version if any, else manifest.firefox.json's |
| BootV2416.VersionedMainInjective | v/2.4.16/src/boot.js:53 | different versions import different entry modules; the version is read back from the path |
| BootV2416.BootImports | v/2.4.16/src/boot.js:43-58 | extension pages import only ./main.js; on the web the versioned entry comes first and ./main.js follows only if it fails; with no version ./main.js |
| BootV2416.BootEndsWithMainOrVersioned | v/2.4.16/src/boot.js:43-58 | boot ends with ./main.js or a successful versioned import; a versioned import happens only off extension with a safe version |
| BootV2418.AppHeightOf | v/2.4.18/src/boot.js:10-12 | visual height when non-zero, else innerHeight when that is non-zero; nothing is written when both are 0 |
| BootV2418.AppHeightScheduler.constructor | v/2.4.18/src/boot.js:6 | no app-height frame is pending at load |
| BootV2418.AppHeightScheduler.UpdateAppHeight | v/2.4.18/src/boot.js:8-14 | clears the id and writes the height unless it is 0 |
| BootV2418.AppHeightScheduler.ScheduleAppHeightUpdate | v/2.4.18/src/boot.js:16-19 | at most one app-height frame is pending |
| BootV2418.AppHeightScheduler.FireFrame | v/2.4.18/src/boot.js:8-19 | firing runs the pending update and leaves none pending |
| BootV2418.FirstMainStylesheet | v/2.4.18/src/boot.js:49-51 | finds the first stylesheet link whose href ends in styles/main.css, or reports none |
| BootV2418.VersionedHref | v/2.4.18/src/boot.js:47 | the versioned stylesheet URL ends in styles/main.css |
| BootV2418.Document.ApplyVersionedStylesheet | v/2.4.18/src/boot.js:43-62 | the links become those of the stylesheet rule |
| BootV2418.StylesheetRewriteOrAppend | v/2.4.18/src/boot.js:43-62 | unsafe version: no change; else exactly the first match gets the versioned href, or exactly one link is appended, or without a head nothing changes |
| BootV2418.StylesheetIdempotent | v/2.4.18/src/boot.js:43-62 | applying the same version twice equals applying it once |
| BootV2418.Boot | v/2.4.18/src/boot.js:95-113 | schedules the first app-height update; imports as v2.4.16; the stylesheet is redirected only on the web with a safe version |
| BootV2433.LayoutAppHeight | v/2.4.33/src/boot.js:22-24 | innerHeight when non-zero, else clientHeight when that is non-zero; nothing is written when both are 0 |
| BootV2433.AppHeightScheduler.constructor | v/2.4.33/src/boot.js:6-8 | nothing pending, burst deadline 0 |
| BootV2433.AppHeightScheduler.UpdateAppHeight | v/2.4.33/src/boot.js:17-25 | always clears the update id; writes the height unless it is 0 |
| BootV2433.AppHeightScheduler.ScheduleAppHeightUpdate | v/2.4.33/src/boot.js:27-30 | at most one app-height frame is pending |
| BootV2433.AppHeightScheduler.ScheduleAppHeightBurst | v/2.4.33/src/boot.js:32-46 | the deadline becomes max(old, now + duration), never shorter; one burst loop |
| BootV2433.AppHeightScheduler.RunBurstTick | v/2.4.33/src/boot.js:37-43 | the tick updates the height and requeues itself only while now < deadline |
| BootV2433.AppHeightScheduler.FireFrame | v/2.4.33/src/boot.js:27-46 | after a frame no update is pending and the burst continues iff it ran and now < deadline |
| BootV2433.AppHeightScheduler.FocusIn | v/2.4.33/src/boot.js:60-67 | one plain update always; a text-like target adds an 1800 ms burst; each frame is appended unless already pending, update first |
| BootV2433.AppHeightScheduler.FocusOut | v/2.4.33/src/boot.js:68-75 | one plain update always; a text-like target adds a 600 ms burst; each frame is appended unless already pending, update first |
| BootV2433.FetchManifestVersionLoop | v/2.4.33/src/boot.js:115-134 | the loop returns the first safe manifest version or null |
| BootV2433.Boot | v/2.4.33/src/boot.js:136-154 | starts the app-height updates; imports and stylesheet as v2.4.18 |

## Left out

- Floating point: pixels and times are integers and `Math.round` is the identity on them. `--vh` (innerHeight × 0.01; the metrics height × 0.01 in v2.4.47) is not modelled.
- `Number(value)` in `roundPx` is reduced to a finite integer or a non-finite value. `visual.height || 0` on NaN is not modelled.
- requestAnimationFrame, setTimeout and performance.now are explicit: a queue of requested callbacks, a list of timer due times, and a `now` parameter. The host's frame and timer order is the caller's choice.
- Event-listener registration is left out. Each listener is a method that the host calls.
- `isProbablyIOS` (user-agent test) is a boolean fixed per page.
- DOM reads (innerHeight, clientHeight, rectangles, visualViewport, activeElement, containment in #input-container) are fields of one sample per frame.
- `instanceof Element` checks are left out: a target is an element or absent.
- The try/catch guards around DOM writes are left out: the writes are assumed not to throw.
- The `keyboard-visible` class, the style properties and the CSS variables are fields of the engine. Other page state is not modelled.
- ViewportV2447: the chat element captured by a measuring frame is the frame's chat. An element replaced between frames, and scroll events caused by writing scrollTop, are not modelled.
- fetch, JSON parsing, dynamic import and `new URL(…, import.meta.url)` are abstract: per-URL fetch outcomes, an import-success oracle, and a site root string.
- BootV2418.VersionedHref: joins the site root, `v/`, the version and `/styles/main.css` as text, without the dot-segment resolution of `new URL`. For the accepted version `..` the browser resolves to `<root>styles/main.css`, while the model keeps `<root>v/../styles/main.css`.
- `String(value)` of a non-string manifest version is given as its text.
- `tryImport`'s console warning is not modelled.
- The document's links are one list in document order. An appended link goes at its end; the head/body placement is not modelled.
- src/main.js (DOM wiring, storage, API streaming) is not part of this model.
