/**
 * The viewport engine of v2.4.47 (v/2.4.47/src/utils/viewport.js): it
 * publishes the visual viewport's height and offset as CSS variables and,
 * when asked to preserve the scroll position, keeps the bottom edge of the
 * chat's visible area where it was across a change of the visible height
 * (the input bar overlapping the chat list, the keyboard opening).
 * Update requests are coalesced into one frame, OR-ing their
 * preserve-scroll flags.
 */
module ViewportV2447 {
  import opened Wrappers
  import opened CssText
  import Keyboard

  /** A JavaScript number as the engine reads it: finite (whole pixels) or not (NaN, ±Infinity). */
  datatype Number = Finite(value: int) | NonFinite

  /**
   * roundPx: the text of a finite number in px, and "0px" for anything else;
   * the text always reads back as the number (0 when it was not finite).
   */
  function RoundPx(n: Number): (r: string)
    ensures ParsePx(r) == Some(if n.Finite? then n.value else 0)
    ensures n.NonFinite? ==> r == "0px"
  {
    PxTextRoundTrip(if n.Finite? then n.value else 0);
    assert PxText(0) == "0px";
    if n.NonFinite? then "0px" else PxText(n.value)
  }

  /** window.visualViewport's height and offsetTop. */
  datatype VisualMetrics = VisualMetrics(height: Number, offsetTop: Number)

  /** getViewportMetrics: the visual viewport's height and offset, or innerHeight and 0 without one. */
  function ViewportMetrics(visual: Option<VisualMetrics>, innerHeight: Number): (m: VisualMetrics)
    ensures visual.None? ==> m.height == innerHeight && m.offsetTop == Finite(0)
    ensures visual.Some? ==> m == visual.value
  {
    if visual.None? then VisualMetrics(innerHeight, Finite(0)) else visual.value
  }

  /**
   * clamp: a non-finite value gives min; a value below min gives min, one
   * above max gives max, and any other value is returned unchanged.
   */
  function Clamp(value: Number, min: int, max: int): (r: int)
    ensures value.NonFinite? ==> r == min
    ensures min <= max ==> min <= r <= max
    ensures value.Finite? && min <= value.value <= max ==> r == value.value
    ensures value.Finite? && value.value < min ==> r == min
    ensures value.Finite? && min <= value.value && value.value > max ==> r == max
  {
    if value.NonFinite? then min
    else if value.value < min then min
    else if value.value > max then max
    else value.value
  }

  /** A bounding rectangle's vertical extent. */
  datatype Rect = Rect(top: int, bottom: int)

  /** #chat-container as one frame sees it. */
  datatype ChatContainer = ChatContainer(rect: Rect, clientHeight: int, scrollHeight: int)

  /** The host readings of one frame. */
  datatype Dom = Dom(
    chat: Option<ChatContainer>,    // #chat-container, when present and connected
    inputRect: Option<Rect>,        // #input-container's rectangle, when present
    visual: Option<VisualMetrics>,  // window.visualViewport
    innerHeight: Number)

  /**
   * getInputOverlapPx: how far the chat container reaches below the top of
   * the input bar; never negative, and 0 when either element is missing.
   */
  function InputOverlapPx(chat: Option<ChatContainer>, inputRect: Option<Rect>): (r: int)
    ensures r >= 0
    ensures chat.None? || inputRect.None? ==> r == 0
    ensures chat.Some? && inputRect.Some? ==> r >= chat.value.rect.bottom - inputRect.value.top
    ensures r > 0 ==> chat.Some? && inputRect.Some? && r == chat.value.rect.bottom - inputRect.value.top
  {
    if chat.None? || inputRect.None? then 0
    else Keyboard.Max(0, chat.value.rect.bottom - inputRect.value.top)
  }

  /**
   * getEffectiveChatVisibleHeight: the part of the chat's client height not
   * covered by the input bar; never negative and never more than the client height.
   */
  function EffectiveChatVisibleHeight(chat: Option<ChatContainer>, inputRect: Option<Rect>): (r: int)
    ensures r >= 0
    ensures chat.None? ==> r == 0
    ensures chat.Some? ==> r <= Keyboard.Max(0, chat.value.clientHeight)
    ensures chat.Some? ==> r == Keyboard.Max(0, chat.value.clientHeight - InputOverlapPx(chat, inputRect))
  {
    if chat.None? then 0
    else Keyboard.Max(0, chat.value.clientHeight - InputOverlapPx(chat, inputRect))
  }

  /**
   * The anchored scroll position: the old bottom edge minus the new visible
   * height, clamped to the scrollable range. When the clamp does not bind,
   * the bottom edge of the visible area stays where it was.
   */
  function AnchoredScrollTop(previousBottom: int, newHeight: int, scrollHeight: int, clientHeight: int): (r: int)
    ensures 0 <= r <= Keyboard.Max(0, scrollHeight - clientHeight)
    ensures 0 <= previousBottom - newHeight <= Keyboard.Max(0, scrollHeight - clientHeight) ==> r + newHeight == previousBottom
  {
    Clamp(Finite(previousBottom - newHeight), 0, Keyboard.Max(0, scrollHeight - clientHeight))
  }

  /** The callbacks this module hands to requestAnimationFrame. */
  datatype Frame =
    | ScheduledUpdate                                     // scheduleViewportUpdate's callback
    | MeasureFrame(preserve: bool, previousBottom: Option<int>)  // applyViewportUpdate's callback

  /** The scheduled update appears at most once. */
  predicate AtMostOneScheduled(q: seq<Frame>) {
    forall i, j :: 0 <= i < j < |q| && q[i] == ScheduledUpdate ==> q[j] != ScheduledUpdate
  }

  /** Whether a measuring frame is among these callbacks, read from the last one back. */
  predicate HasMeasure(q: seq<Frame>) {
    q != [] && (q[|q| - 1].MeasureFrame? || HasMeasure(q[..|q| - 1]))
  }

  /** HasMeasure says exactly that some callback is a measuring frame. */
  lemma {:induction false} HasMeasureIffSome(q: seq<Frame>)
    ensures HasMeasure(q) <==> exists f :: f in q && f.MeasureFrame?
  {
    if q != [] {
      var p := q[..|q| - 1];
      HasMeasureIffSome(p);
      assert q == p + [q[|q| - 1]];
      if exists f :: f in q && f.MeasureFrame? {
        var f :| f in q && f.MeasureFrame?;
        assert f in p || f == q[|q| - 1];
      }
      if HasMeasure(p) {
        var f :| f in p && f.MeasureFrame?;
        assert f in q;
      }
    }
  }

  /** The chat's scroll position and the last measured visible height (lastEffectiveChatHeight). */
  datatype Measurement = Measurement(scrollTop: int, lastHeight: Option<int>)

  /**
   * The bottom edge applyViewportUpdate remembers: the scroll position plus
   * the last measured height, or a fresh measurement when there is none.
   */
  function PreviousBottom(m: Measurement, dom: Dom): int {
    m.scrollTop + (if m.lastHeight.Some? then m.lastHeight.value else EffectiveChatVisibleHeight(dom.chat, dom.inputRect))
  }

  /**
   * What one measuring frame leaves: with the chat present, the new height is
   * recorded, and the scroll position is anchored to the old bottom edge when
   * preservation was asked for and both an old bottom and an earlier
   * measurement exist.
   */
  function Measured(preserve: bool, previousBottom: Option<int>, dom: Dom, m: Measurement): Measurement {
    if dom.chat.None? then m
    else
      var height := EffectiveChatVisibleHeight(dom.chat, dom.inputRect);
      Measurement(
        if preserve && previousBottom.Some? && m.lastHeight.Some?
        then AnchoredScrollTop(previousBottom.value, height, dom.chat.value.scrollHeight, dom.chat.value.clientHeight)
        else m.scrollTop,
        Some(height))
  }

  /** The measurement after running callbacks `q` in order; the scheduled update changes neither part. */
  function Replay(q: seq<Frame>, dom: Dom, m: Measurement): Measurement
    decreases |q|
  {
    if q == [] then m
    else
      var r := Replay(q[..|q| - 1], dom, m);
      var last := q[|q| - 1];
      if last.MeasureFrame? then Measured(last.preserve, last.previousBottom, dom, r) else r
  }

  /** After a run of callbacks the recorded height is the chat's current one exactly when a measuring frame ran. */
  lemma {:induction false} ReplayRecordsHeight(q: seq<Frame>, dom: Dom, m: Measurement)
    ensures Replay(q, dom, m).lastHeight ==
              if dom.chat.Some? && HasMeasure(q) then Some(EffectiveChatVisibleHeight(dom.chat, dom.inputRect))
              else m.lastHeight
  {
    if q != [] {
      ReplayRecordsHeight(q[..|q| - 1], dom, m);
    }
  }

  /** Without a measuring frame that asks to preserve scroll, a run of callbacks leaves the scroll position alone. */
  lemma {:induction false} ReplayKeepsScroll(q: seq<Frame>, dom: Dom, m: Measurement)
    requires forall k :: 0 <= k < |q| && q[k].MeasureFrame? ==> !q[k].preserve
    ensures Replay(q, dom, m).scrollTop == m.scrollTop
  {
    if q != [] {
      ReplayKeepsScroll(q[..|q| - 1], dom, m);
    }
  }

  /**
   * A run of callbacks records the chat's current height exactly when a
   * measuring frame is among them, and moves the scroll position only when
   * one of them asks to preserve scroll.
   */
  lemma ReplaySummary(q: seq<Frame>, dom: Dom, m: Measurement)
    ensures Replay(q, dom, m).lastHeight ==
              if dom.chat.Some? && exists f :: f in q && f.MeasureFrame?
              then Some(EffectiveChatVisibleHeight(dom.chat, dom.inputRect))
              else m.lastHeight
    ensures (forall f :: f in q && f.MeasureFrame? ==> !f.preserve) ==> Replay(q, dom, m).scrollTop == m.scrollTop
  {
    ReplayRecordsHeight(q, dom, m);
    HasMeasureIffSome(q);
    if forall f :: f in q && f.MeasureFrame? ==> !f.preserve {
      assert forall j :: 0 <= j < |q| && q[j].MeasureFrame? ==> q[j] in q;
      ReplayKeepsScroll(q, dom, m);
    }
  }

  /** The position of the scheduled update among callbacks that hold it at most once; |q| when absent. */
  lemma ScheduledPosition(q: seq<Frame>) returns (k: int)
    requires AtMostOneScheduled(q)
    ensures 0 <= k <= |q| && (k < |q| <==> ScheduledUpdate in q)
    ensures forall j :: 0 <= j < |q| ==> (q[j] == ScheduledUpdate <==> j == k)
  {
    k := |q|;
    if ScheduledUpdate in q {
      k :| 0 <= k < |q| && q[k] == ScheduledUpdate;
    }
  }

  /** The host events that ask for an update, apart from the message input's focus and blur. */
  datatype ViewportEvent =
    | WindowResize           // window 'resize'
    | VisualViewportResize   // visualViewport 'resize'
    | VisualViewportScroll   // visualViewport 'scroll' (offsetTop may change without a resize)
    | ContentLoaded          // DOMContentLoaded: establishes the first measurement

  /** Whether the update an event asks for preserves the scroll position: only the resizes do. */
  function PreservesScroll(e: ViewportEvent): (r: bool)
    ensures r <==> e == WindowResize || e == VisualViewportResize
  {
    e.WindowResize? || e.VisualViewportResize?
  }

  /** The settle delays after the message input gains focus, and after it loses it. */
  const FocusSettleDelays: seq<int> := [320, 700]
  const BlurSettleDelays: seq<int> := [180, 480]

  /** The module state of v/2.4.47/src/utils/viewport.js. */
  class Engine {
    /** lastEffectiveChatHeight (null until the first measurement). */
    var lastEffectiveChatHeight: Option<int>
    /** scheduleRafId != 0. */
    var scheduled: bool
    /** pendingPreserveScroll. */
    var pendingPreserveScroll: bool
    /** The callbacks of this module waiting for the next animation frame, in request order. */
    var frames: seq<Frame>
    /** --vv-height and --vv-offset-top. */
    var vvHeight: string
    var vvOffsetTop: string
    /** The due times of pending settle timers, each asking for an update that preserves scroll. */
    var timeouts: seq<int>

    /**
     * At most one scheduled update is pending, scheduleRafId says whether one
     * is, and a preserve request is only ever pending with it.
     */
    ghost predicate Valid()
      reads this
    {
      && (scheduled <==> ScheduledUpdate in frames)
      && AtMostOneScheduled(frames)
      && (pendingPreserveScroll ==> scheduled)
    }

    /** Module load: the CSS variables are written at once; nothing is pending. */
    constructor (dom: Dom)
      ensures Valid()
      ensures lastEffectiveChatHeight.None? && !scheduled && !pendingPreserveScroll && frames == [] && timeouts == []
      ensures vvHeight == RoundPx(ViewportMetrics(dom.visual, dom.innerHeight).height)
      ensures vvOffsetTop == RoundPx(ViewportMetrics(dom.visual, dom.innerHeight).offsetTop)
    {
      lastEffectiveChatHeight := None;
      scheduled := false;
      pendingPreserveScroll := false;
      frames := [];
      timeouts := [];
      var m := ViewportMetrics(dom.visual, dom.innerHeight);
      vvHeight := RoundPx(m.height);
      vvOffsetTop := RoundPx(m.offsetTop);
    }

    /** applyViewportCssVars: publish the viewport metrics. */
    method ApplyViewportCssVars(dom: Dom)
      modifies this`vvHeight, this`vvOffsetTop
      ensures vvHeight == RoundPx(ViewportMetrics(dom.visual, dom.innerHeight).height)
      ensures vvOffsetTop == RoundPx(ViewportMetrics(dom.visual, dom.innerHeight).offsetTop)
    {
      var m := ViewportMetrics(dom.visual, dom.innerHeight);
      vvHeight := RoundPx(m.height);
      vvOffsetTop := RoundPx(m.offsetTop);
    }

    /**
     * applyViewportUpdate: remember where the bottom of the visible chat area
     * is (from the last measured height, or a fresh measurement), publish the
     * CSS variables and, when the chat exists, request the measuring frame.
     */
    method ApplyViewportUpdate(preserve: bool, dom: Dom, scrollTop: int)
      modifies this`vvHeight, this`vvOffsetTop, this`frames
      ensures vvHeight == RoundPx(ViewportMetrics(dom.visual, dom.innerHeight).height)
      ensures vvOffsetTop == RoundPx(ViewportMetrics(dom.visual, dom.innerHeight).offsetTop)
      ensures dom.chat.None? ==> frames == old(frames)
      ensures dom.chat.Some? ==>
                frames == old(frames) + [MeasureFrame(preserve, Some(PreviousBottom(Measurement(scrollTop, lastEffectiveChatHeight), dom)))]
    {
      var previousEffectiveHeight: Option<int> :=
        if dom.chat.Some? && lastEffectiveChatHeight.Some? then lastEffectiveChatHeight
        else if dom.chat.Some? then Some(EffectiveChatVisibleHeight(dom.chat, dom.inputRect))
        else None;
      var previousBottomY: Option<int> :=
        if dom.chat.Some? && previousEffectiveHeight.Some? then Some(scrollTop + previousEffectiveHeight.value)
        else None;

      ApplyViewportCssVars(dom);

      if dom.chat.None? {
        return;
      }
      frames := frames + [MeasureFrame(preserve, previousBottomY)];
    }

    /**
     * The measuring frame: when the chat is still connected, measure the new
     * visible height; move the scroll position to keep the old bottom edge
     * only when preservation was asked for and both an old bottom and an
     * earlier measurement exist; always record the new measurement.
     */
    method RunMeasure(preserve: bool, previousBottom: Option<int>, dom: Dom, scrollTop: int) returns (newScrollTop: int)
      modifies this`lastEffectiveChatHeight
      ensures dom.chat.None? ==> lastEffectiveChatHeight == old(lastEffectiveChatHeight) && newScrollTop == scrollTop
      ensures dom.chat.Some? ==> lastEffectiveChatHeight == Some(EffectiveChatVisibleHeight(dom.chat, dom.inputRect))
      ensures newScrollTop ==
        if dom.chat.Some? && preserve && previousBottom.Some? && old(lastEffectiveChatHeight).Some?
        then AnchoredScrollTop(previousBottom.value, EffectiveChatVisibleHeight(dom.chat, dom.inputRect),
                               dom.chat.value.scrollHeight, dom.chat.value.clientHeight)
        else scrollTop
      ensures Measurement(newScrollTop, lastEffectiveChatHeight) ==
                Measured(preserve, previousBottom, dom, Measurement(scrollTop, old(lastEffectiveChatHeight)))
    {
      newScrollTop := scrollTop;
      if dom.chat.None? {
        return;
      }
      var chat := dom.chat.value;
      var newEffectiveHeight := EffectiveChatVisibleHeight(dom.chat, dom.inputRect);
      if preserve && previousBottom.Some? && lastEffectiveChatHeight.Some? {
        var targetScrollTop := previousBottom.value - newEffectiveHeight;
        var maxScrollTop := Keyboard.Max(0, chat.scrollHeight - chat.clientHeight);
        newScrollTop := Clamp(Finite(targetScrollTop), 0, maxScrollTop);
      }
      lastEffectiveChatHeight := Some(newEffectiveHeight);
    }

    /**
     * scheduleViewportUpdate: OR the preserve flag into the pending one and
     * request the update frame unless it is already pending.
     */
    method ScheduleViewportUpdate(preserveScroll: bool)
      modifies this`pendingPreserveScroll, this`scheduled, this`frames
      ensures old(Valid()) ==> Valid()
      ensures pendingPreserveScroll == (old(pendingPreserveScroll) || preserveScroll)
      ensures scheduled
      ensures frames == (if old(scheduled) then old(frames) else old(frames) + [ScheduledUpdate])
    {
      pendingPreserveScroll := pendingPreserveScroll || preserveScroll;
      if scheduled {
        return;
      }
      scheduled := true;
      frames := frames + [ScheduledUpdate];
    }

    /** The scheduled update's callback: take and reset the preserve flag, clear the id, apply the update. */
    method RunScheduled(dom: Dom, scrollTop: int)
      modifies this`pendingPreserveScroll, this`scheduled, this`vvHeight, this`vvOffsetTop, this`frames
      ensures !pendingPreserveScroll && !scheduled
      ensures vvHeight == RoundPx(ViewportMetrics(dom.visual, dom.innerHeight).height)
      ensures vvOffsetTop == RoundPx(ViewportMetrics(dom.visual, dom.innerHeight).offsetTop)
      ensures dom.chat.None? ==> frames == old(frames)
      ensures dom.chat.Some? ==>
                frames == old(frames) + [MeasureFrame(old(pendingPreserveScroll),
                                                      Some(PreviousBottom(Measurement(scrollTop, lastEffectiveChatHeight), dom)))]
    {
      var preserve := pendingPreserveScroll;
      pendingPreserveScroll := false;
      scheduled := false;
      ApplyViewportUpdate(preserve, dom, scrollTop);
    }

    /**
     * An animation frame: every callback requested before it runs once, in
     * request order, against the frame's readings; `scrollTop` is the chat's
     * scroll position when the frame starts and `newScrollTop` when it ends.
     * Afterwards nothing is scheduled, no preserve request is pending, and the
     * only frame requested is the measuring frame of this frame's update, which
     * carries the preserve flags OR-ed since the last frame and the bottom edge
     * as it stood when the update ran.
     */
    method FireFrame(dom: Dom, scrollTop: int) returns (newScrollTop: int)
      requires Valid()
      modifies this`pendingPreserveScroll, this`scheduled, this`vvHeight, this`vvOffsetTop, this`frames,
               this`lastEffectiveChatHeight
      ensures Valid()
      ensures !scheduled && !pendingPreserveScroll
      ensures vvHeight == if old(scheduled) then RoundPx(ViewportMetrics(dom.visual, dom.innerHeight).height) else old(vvHeight)
      ensures vvOffsetTop == if old(scheduled) then RoundPx(ViewportMetrics(dom.visual, dom.innerHeight).offsetTop) else old(vvOffsetTop)
      ensures Measurement(newScrollTop, lastEffectiveChatHeight) ==
                Replay(old(frames), dom, Measurement(scrollTop, old(lastEffectiveChatHeight)))
      ensures |frames| == (if old(scheduled) && dom.chat.Some? then 1 else 0)
      ensures forall k :: 0 <= k < |old(frames)| && old(frames)[k] == ScheduledUpdate && dom.chat.Some? ==>
                frames == [MeasureFrame(old(pendingPreserveScroll),
                                        Some(PreviousBottom(Replay(old(frames)[..k], dom,
                                                                   Measurement(scrollTop, old(lastEffectiveChatHeight))), dom)))]
      ensures lastEffectiveChatHeight ==
                if dom.chat.Some? && exists f :: f in old(frames) && f.MeasureFrame?
                then Some(EffectiveChatVisibleHeight(dom.chat, dom.inputRect))
                else old(lastEffectiveChatHeight)
      ensures (forall f :: f in old(frames) && f.MeasureFrame? ==> !f.preserve) ==> newScrollTop == scrollTop
    {
      var callbacks := frames;
      ghost var k := ScheduledPosition(callbacks);
      frames := [];
      ghost var height0, offsetTop0 := vvHeight, vvOffsetTop;
      ghost var start := Measurement(scrollTop, lastEffectiveChatHeight);
      assert scheduled <==> k < |callbacks|;
      newScrollTop := RunCallbacks(callbacks, k, dom, scrollTop, pendingPreserveScroll, start, height0, offsetTop0);
      assert callbacks[..|callbacks|] == callbacks;
      ReplaySummary(callbacks, dom, start);
    }

    /** Runs the callbacks of an animation frame once each, in request order. */
    method RunCallbacks(callbacks: seq<Frame>, ghost k: int, dom: Dom, scrollTop: int, ghost wasPreserve: bool,
                        ghost start: Measurement, ghost height0: string, ghost offsetTop0: string)
      returns (newScrollTop: int)
      requires FrameProgress(callbacks, 0, k, dom, wasPreserve, start, scrollTop)
      requires CssProgress(0, k, dom, height0, offsetTop0)
      modifies this`pendingPreserveScroll, this`scheduled, this`vvHeight, this`vvOffsetTop, this`frames,
               this`lastEffectiveChatHeight
      ensures FrameProgress(callbacks, |callbacks|, k, dom, wasPreserve, start, newScrollTop)
      ensures CssProgress(|callbacks|, k, dom, height0, offsetTop0)
    {
      newScrollTop := scrollTop;
      var i := 0;
      while i < |callbacks|
        invariant 0 <= i <= |callbacks|
        invariant FrameProgress(callbacks, i, k, dom, wasPreserve, start, newScrollTop)
        invariant CssProgress(i, k, dom, height0, offsetTop0)
      {
        newScrollTop := RunCallback(callbacks, i, k, dom, newScrollTop, wasPreserve, start, height0, offsetTop0);
        i := i + 1;
      }
    }

    /** Runs callback `i` of an animation frame. */
    method RunCallback(callbacks: seq<Frame>, i: int, ghost k: int, dom: Dom, scrollTop: int, ghost wasPreserve: bool,
                       ghost start: Measurement, ghost height0: string, ghost offsetTop0: string)
      returns (newScrollTop: int)
      requires 0 <= i < |callbacks|
      requires FrameProgress(callbacks, i, k, dom, wasPreserve, start, scrollTop)
      requires CssProgress(i, k, dom, height0, offsetTop0)
      modifies this`pendingPreserveScroll, this`scheduled, this`vvHeight, this`vvOffsetTop, this`frames,
               this`lastEffectiveChatHeight
      ensures FrameProgress(callbacks, i + 1, k, dom, wasPreserve, start, newScrollTop)
      ensures CssProgress(i + 1, k, dom, height0, offsetTop0)
    {
      if callbacks[i].ScheduledUpdate? {
        RunScheduledCallback(callbacks, i, k, dom, scrollTop, wasPreserve, start, height0, offsetTop0);
        newScrollTop := scrollTop;
      } else {
        newScrollTop := RunMeasureCallback(callbacks, i, k, dom, scrollTop, wasPreserve, start);
        CssUntouched(i, k, dom, height0, offsetTop0);
      }
    }

    /**
     * How far an animation frame has got after running the first `i` of its
     * callbacks, `k` being the position of the scheduled update (|callbacks|
     * when there is none): the scheduled flag and its preserve flag stay set
     * until the update runs, which requests one measuring frame when the chat
     * exists, carrying the bottom edge reached by the callbacks before it; the
     * scroll position and recorded height are those the callbacks run so far
     * leave.
     */
    ghost predicate FrameProgress(callbacks: seq<Frame>, i: int, k: int, dom: Dom, wasPreserve: bool,
                                  start: Measurement, scroll: int)
      reads this
    {
      && 0 <= i <= |callbacks| && 0 <= k <= |callbacks|
      && (forall j :: 0 <= j < |callbacks| ==> (callbacks[j] == ScheduledUpdate <==> j == k))
      && (scheduled <==> i <= k < |callbacks|)
      && (scheduled ==> pendingPreserveScroll == wasPreserve)
      && (!scheduled ==> !pendingPreserveScroll)
      && frames == (if k < i && dom.chat.Some?
                    then [MeasureFrame(wasPreserve, Some(PreviousBottom(Replay(callbacks[..k], dom, start), dom)))]
                    else [])
      && Measurement(scroll, lastEffectiveChatHeight) == Replay(callbacks[..i], dom, start)
    }

    /**
     * The CSS variables during an animation frame: as they were (`height0`,
     * `offsetTop0`) until the scheduled update at `k` runs, the frame's
     * rounded metrics after.
     */
    ghost predicate CssProgress(i: int, k: int, dom: Dom, height0: string, offsetTop0: string)
      reads this`vvHeight, this`vvOffsetTop
    {
      if k < i
      then vvHeight == RoundPx(ViewportMetrics(dom.visual, dom.innerHeight).height)
           && vvOffsetTop == RoundPx(ViewportMetrics(dom.visual, dom.innerHeight).offsetTop)
      else vvHeight == height0 && vvOffsetTop == offsetTop0
    }

    /** A callback other than the scheduled update leaves the CSS variables where they were. */
    lemma CssUntouched(i: int, k: int, dom: Dom, height0: string, offsetTop0: string)
      requires CssProgress(i, k, dom, height0, offsetTop0) && i != k
      ensures CssProgress(i + 1, k, dom, height0, offsetTop0)
    {
    }

    /** Runs callback `i` of an animation frame when it is the scheduled update. */
    method RunScheduledCallback(callbacks: seq<Frame>, i: int, ghost k: int, dom: Dom, scrollTop: int,
                                ghost wasPreserve: bool, ghost start: Measurement,
                                ghost height0: string, ghost offsetTop0: string)
      requires 0 <= i < |callbacks| && callbacks[i] == ScheduledUpdate
      requires FrameProgress(callbacks, i, k, dom, wasPreserve, start, scrollTop)
      modifies this`pendingPreserveScroll, this`scheduled, this`vvHeight, this`vvOffsetTop, this`frames
      ensures FrameProgress(callbacks, i + 1, k, dom, wasPreserve, start, scrollTop)
      ensures CssProgress(i + 1, k, dom, height0, offsetTop0)
    {
      assert i == k;
      assert callbacks[..i + 1][..i] == callbacks[..i];
      RunScheduled(dom, scrollTop);
    }

    /** Runs callback `i` of an animation frame when it is a measuring frame. */
    method RunMeasureCallback(callbacks: seq<Frame>, i: int, ghost k: int, dom: Dom, scrollTop: int,
                              ghost wasPreserve: bool, ghost start: Measurement)
      returns (newScrollTop: int)
      requires 0 <= i < |callbacks| && callbacks[i].MeasureFrame?
      requires FrameProgress(callbacks, i, k, dom, wasPreserve, start, scrollTop)
      modifies this`lastEffectiveChatHeight
      ensures FrameProgress(callbacks, i + 1, k, dom, wasPreserve, start, newScrollTop)
      ensures i != k
    {
      assert i != k;
      assert callbacks[..i + 1][..i] == callbacks[..i];
      assert Replay(callbacks[..i + 1], dom, start) ==
               Measured(callbacks[i].preserve, callbacks[i].previousBottom, dom, Replay(callbacks[..i], dom, start));
      newScrollTop := RunMeasure(callbacks[i].preserve, callbacks[i].previousBottom, dom, scrollTop);
    }

    /** A host event's listener: one coalesced update request with the event's preserve flag. */
    method OnEvent(e: ViewportEvent)
      requires Valid()
      modifies this`pendingPreserveScroll, this`scheduled, this`frames
      ensures Valid()
      ensures scheduled
      ensures pendingPreserveScroll == (old(pendingPreserveScroll) || PreservesScroll(e))
      ensures frames == (if old(scheduled) then old(frames) else old(frames) + [ScheduledUpdate])
    {
      ScheduleViewportUpdate(PreservesScroll(e));
    }

    /** A settle timer: `delayMs` from now, ask for an update that preserves scroll. */
    method Settle(now: int, delayMs: int)
      modifies this`timeouts
      ensures timeouts == old(timeouts) + [now + delayMs]
    {
      timeouts := timeouts + [now + delayMs];
    }

    /** A due settle timer fires: it is removed and asks for an update that preserves scroll. */
    method FireTimeout(now: int, k: nat)
      requires Valid()
      requires k < |timeouts| && timeouts[k] <= now
      modifies this`timeouts, this`pendingPreserveScroll, this`scheduled, this`frames
      ensures Valid()
      ensures timeouts == old(timeouts[..k] + timeouts[k + 1..])
      ensures scheduled && pendingPreserveScroll
      ensures frames == (if old(scheduled) then old(frames) else old(frames) + [ScheduledUpdate])
    {
      timeouts := timeouts[..k] + timeouts[k + 1..];
      ScheduleViewportUpdate(true);
    }

    /** The message input's focus listener: an update that preserves scroll now, and two settle timers. */
    method InputFocus(now: int)
      requires Valid()
      modifies this`timeouts, this`pendingPreserveScroll, this`scheduled, this`frames
      ensures Valid()
      ensures scheduled && pendingPreserveScroll
      ensures frames == (if old(scheduled) then old(frames) else old(frames) + [ScheduledUpdate])
      ensures timeouts == old(timeouts) + [now + FocusSettleDelays[0], now + FocusSettleDelays[1]]
    {
      ScheduleViewportUpdate(true);
      Settle(now, FocusSettleDelays[0]);
      Settle(now, FocusSettleDelays[1]);
    }

    /** The message input's blur listener: as focus, with the shorter settle delays. */
    method InputBlur(now: int)
      requires Valid()
      modifies this`timeouts, this`pendingPreserveScroll, this`scheduled, this`frames
      ensures Valid()
      ensures scheduled && pendingPreserveScroll
      ensures frames == (if old(scheduled) then old(frames) else old(frames) + [ScheduledUpdate])
      ensures timeouts == old(timeouts) + [now + BlurSettleDelays[0], now + BlurSettleDelays[1]]
    {
      ScheduleViewportUpdate(true);
      Settle(now, BlurSettleDelays[0]);
      Settle(now, BlurSettleDelays[1]);
    }
  }
}
