/**
 * The keyboard compensation engine of v2.4.28 (v/2.4.28/src/utils/viewport.js):
 * the keyboard counts as visible while the effective keyboard height exceeds
 * the threshold and either a text input has focus or a grace deadline set by
 * the last focused, above-threshold tick has not passed. Focus, touch and
 * pointer events on inputs start a burst of per-frame update requests whose
 * deadline only ever moves later.
 */
module ViewportV2428 {
  import opened Wrappers
  import opened Keyboard

  /** How long after the last focused, visible tick the keyboard stays visible without focus. */
  const GraceMs: int := 4000

  /** The default length of a burst of update frames. */
  const DefaultBurstMs: int := 1800

  /**
   * getLayoutViewportHeight of v2.4.28: the root element's rendered height
   * when it is non-zero, else max(innerHeight, clientHeight).
   */
  function LayoutHeight(s: Sample): (h: int)
    ensures s.rectHeight != 0 ==> h == s.rectHeight
    ensures s.rectHeight == 0 ==> h == ClientLayoutHeight(s)
  {
    if s.rectHeight != 0 then s.rectHeight else ClientLayoutHeight(s)
  }

  /**
   * The --app-height fallback: the visual viewport's height, else innerHeight;
   * nothing is written when both are 0.
   */
  function AppHeight(s: Sample): (h: Option<int>)
    ensures h.Some? ==> h.value != 0
    ensures h.None? <==> (s.visual.NoVisualViewport? || s.visual.height == 0) && s.innerHeight == 0
    ensures s.visual.VisualViewport? && s.visual.height != 0 ==> h == Some(s.visual.height)
    ensures (s.visual.NoVisualViewport? || s.visual.height == 0) && s.innerHeight != 0 ==> h == Some(s.innerHeight)
  {
    var visualHeight :=
      if s.visual.VisualViewport? && s.visual.height != 0 then s.visual.height
      else if s.innerHeight != 0 then s.innerHeight
      else 0;
    if visualHeight != 0 then Some(visualHeight) else None
  }

  /** The state a tick reads and writes: the baseline and keyboardVisibleUntilMs. */
  datatype KeyboardState = KeyboardState(baseline: int, visibleUntilMs: int)

  /** What one setViewportVars call leaves behind. */
  datatype TickResult = TickResult(
    state: KeyboardState,
    vars: Published,
    hoverSuppressed: bool,
    appHeight: Option<int>)  // None: --app-height not written

  function ReadingOf(baseline: int, s: Sample): Reading {
    Measure(baseline, LayoutHeight(s), s.visual)
  }

  /**
   * The grace deadline after a tick: a focused, above-threshold tick pushes it
   * to at least now + 4000; an unfocused tick at or past it resets it to 0;
   * otherwise it stays.
   */
  function NextDeadline(deadline: int, now: int, textFocused: bool, effective: int): int {
    if textFocused && effective > VisibleMinPx then Max(deadline, now + GraceMs)
    else if !textFocused && now >= deadline then 0
    else deadline
  }

  /** setViewportVars as a function of the device, the state, the time and the sample. */
  function Tick(isIOS: bool, st: KeyboardState, now: nat, s: Sample): TickResult {
    var r := ReadingOf(st.baseline, s);
    var focused := IsTextInputLike(s.active);
    var until := NextDeadline(st.visibleUntilMs, now, focused, r.effective);
    var visible := r.effective > VisibleMinPx && (focused || now < until);
    TickResult(
      KeyboardState(if visible then st.baseline else LayoutHeight(s), until),
      Publish(visible, r),
      ShouldSuppressMessageHover(isIOS, s.active),
      AppHeight(s))
  }

  /** A visible keyboard always means an effective height above 80 px: the grace window never lifts a small reading. */
  lemma TickVisibleAboveThreshold(isIOS: bool, st: KeyboardState, now: nat, s: Sample)
    ensures Tick(isIOS, st, now, s).vars.keyboardVisible ==> ReadingOf(st.baseline, s).effective > VisibleMinPx
    ensures ReadingOf(st.baseline, s).effective <= VisibleMinPx ==> Tick(isIOS, st, now, s).vars == Cleared
  {
  }

  /**
   * The grace deadline: while a text input has focus above the threshold it
   * never decreases and reaches at least now + 4000; it changes otherwise only
   * by a reset to 0, which happens only without text focus once the deadline
   * has passed.
   */
  lemma TickDeadline(isIOS: bool, st: KeyboardState, now: nat, s: Sample)
    ensures var until, d := Tick(isIOS, st, now, s).state.visibleUntilMs, st.visibleUntilMs;
      && (IsTextInputLike(s.active) && ReadingOf(st.baseline, s).effective > VisibleMinPx ==>
            until >= d && until >= now + GraceMs)
      && (until != d ==>
            (IsTextInputLike(s.active) && until == now + GraceMs > d) ||
            (!IsTextInputLike(s.active) && now >= d && until == 0))
  {
  }

  /**
   * Without text focus the keyboard stays visible exactly while the old
   * deadline has not passed and the effective height exceeds 80 px.
   */
  lemma TickAfterFocusLoss(isIOS: bool, st: KeyboardState, now: nat, s: Sample)
    requires !IsTextInputLike(s.active)
    ensures Tick(isIOS, st, now, s).vars.keyboardVisible <==>
              now < st.visibleUntilMs && ReadingOf(st.baseline, s).effective > VisibleMinPx
  {
  }

  /**
   * A visible tick publishes the effective height, overlay and layout shrink
   * and keeps the baseline; a hidden tick publishes zeros and moves the
   * baseline to the layout height.
   */
  lemma TickPublishes(isIOS: bool, st: KeyboardState, now: nat, s: Sample)
    ensures var t, r := Tick(isIOS, st, now, s), ReadingOf(st.baseline, s);
      if t.vars.keyboardVisible
      then t.state.baseline == st.baseline && t.vars == Published(r.effective, r.overlay, r.layoutKeyboard, true)
      else t.state.baseline == LayoutHeight(s) && t.vars == Published(0, 0, 0, false)
  {
  }

  /** Feeding the same sample again at the same time changes nothing. */
  lemma TickIdempotent(isIOS: bool, st: KeyboardState, now: nat, s: Sample)
    ensures var t := Tick(isIOS, st, now, s); Tick(isIOS, t.state, now, s) == t
  {
    var t := Tick(isIOS, st, now, s);
    if !t.vars.keyboardVisible {
      var r, r2 := ReadingOf(st.baseline, s), ReadingOf(LayoutHeight(s), s);
      assert r2.layoutKeyboard == 0 && r2.effective == r.overlay;
    }
  }

  /** A sample taken at a time. */
  datatype Timed = Timed(now: nat, sample: Sample)

  /** Whether every tick of a run, started in a state, shows the keyboard. */
  ghost predicate AllVisible(isIOS: bool, st: KeyboardState, ticks: seq<Timed>)
    decreases |ticks|
  {
    |ticks| == 0 ||
      var t := Tick(isIOS, st, ticks[0].now, ticks[0].sample);
      t.vars.keyboardVisible && AllVisible(isIOS, t.state, ticks[1..])
  }

  /**
   * While the time stays before a deadline the state has reached and every
   * reading stays above the threshold, every tick shows the keyboard, focused or not.
   */
  lemma {:induction false} GraceKeepsVisible(isIOS: bool, st: KeyboardState, ticks: seq<Timed>, until: int)
    requires st.visibleUntilMs >= until
    requires forall i :: 0 <= i < |ticks| ==>
               ticks[i].now < until && ReadingOf(st.baseline, ticks[i].sample).effective > VisibleMinPx
    ensures AllVisible(isIOS, st, ticks)
    decreases |ticks|
  {
    if |ticks| > 0 {
      var t := Tick(isIOS, st, ticks[0].now, ticks[0].sample);
      assert t.state.baseline == st.baseline && t.state.visibleUntilMs >= until;
      GraceKeepsVisible(isIOS, t.state, ticks[1..], until);
    }
  }

  /**
   * After a focused tick above the threshold, the keyboard stays visible
   * through every later tick within 4000 ms whose reading stays above the
   * threshold, even once focus is lost.
   */
  lemma FocusLossWithinGrace(isIOS: bool, st: KeyboardState, t0: nat, s0: Sample, later: seq<Timed>)
    requires IsTextInputLike(s0.active) && ReadingOf(st.baseline, s0).effective > VisibleMinPx
    requires forall i :: 0 <= i < |later| ==>
               later[i].now < t0 + GraceMs && ReadingOf(st.baseline, later[i].sample).effective > VisibleMinPx
    ensures AllVisible(isIOS, st, [Timed(t0, s0)] + later)
  {
    var t := Tick(isIOS, st, t0, s0);
    GraceKeepsVisible(isIOS, t.state, later, t0 + GraceMs);
    assert ([Timed(t0, s0)] + later)[1..] == later;
  }

  /** The callbacks this module hands to requestAnimationFrame. */
  datatype Frame = UpdateFrame | BurstTick

  /** No callback is requested twice. */
  predicate Distinct(q: seq<Frame>) {
    forall i, j :: 0 <= i < j < |q| ==> q[i] != q[j]
  }

  /**
   * Whether running these callbacks in order ends with a new update frame
   * requested: the last callback is a burst tick, which finds no update
   * pending and requests one.
   */
  predicate RequeuesUpdate(q: seq<Frame>) {
    q != [] && q[|q| - 1] == BurstTick
  }

  /**
   * The same condition read off the callbacks: some burst tick runs with no
   * update callback left after it to consume the update it requests.
   */
  lemma RequeuesUpdateIffUnconsumedBurst(q: seq<Frame>)
    ensures RequeuesUpdate(q) <==> exists j :: 0 <= j < |q| && q[j] == BurstTick && UpdateFrame !in q[j + 1..]
  {
    if exists j :: 0 <= j < |q| && q[j] == BurstTick && UpdateFrame !in q[j + 1..] {
      var j :| 0 <= j < |q| && q[j] == BurstTick && UpdateFrame !in q[j + 1..];
      if j < |q| - 1 {
        assert q[|q| - 1] in q[j + 1..];
      }
    }
    if RequeuesUpdate(q) {
      assert q[|q| - 1..] == [BurstTick];
    }
  }

  /**
   * The positions of the update and the burst tick among callbacks that hold
   * each at most once; |q| for one that is absent.
   */
  lemma FramePositions(q: seq<Frame>) returns (u: int, b: int)
    requires Distinct(q)
    ensures 0 <= u <= |q| && (u < |q| <==> UpdateFrame in q)
    ensures 0 <= b <= |q| && (b < |q| <==> BurstTick in q)
    ensures forall j :: 0 <= j < |q| ==> (q[j] == UpdateFrame <==> j == u) && (q[j] == BurstTick <==> j == b)
  {
    u, b := |q|, |q|;
    if UpdateFrame in q {
      u :| 0 <= u < |q| && q[u] == UpdateFrame;
    }
    if BurstTick in q {
      b :| 0 <= b < |q| && q[b] == BurstTick;
    }
  }

  /** The engine state a tick leaves behind; --app-height keeps its value when not written. */
  function Applied(t: TickResult, oldAppHeight: Option<int>): (KeyboardState, Published, bool, Option<int>) {
    (t.state, t.vars, t.hoverSuppressed, if t.appHeight.Some? then t.appHeight else oldAppHeight)
  }

  /** The module state of v/2.4.28/src/utils/viewport.js. */
  class Engine {
    /** isProbablyIOS(): a property of the device, fixed for the page. */
    const isIOS: bool
    /** originalLayoutViewportHeight. */
    var baseline: int
    /** keyboardVisibleUntilMs. */
    var visibleUntilMs: int
    /** rafId != 0. */
    var rafPending: bool
    /** burstRafId != 0. */
    var burstPending: bool
    /** burstUntilMs. */
    var burstUntilMs: int
    /** The callbacks of this module waiting for the next animation frame, in request order. */
    var frames: seq<Frame>
    /** The values last published. */
    var vars: Published
    /** The body's cerebr-suppress-message-hover class. */
    var hoverSuppressed: bool
    /** --app-height, once written. */
    var appHeight: Option<int>

    /**
     * At most one update frame and one burst frame are pending, and the two
     * ids say which are; the published values are consistent.
     */
    ghost predicate Valid()
      reads this
    {
      && (rafPending <==> UpdateFrame in frames)
      && (burstPending <==> BurstTick in frames)
      && Distinct(frames)
      && Consistent(vars)
    }

    function State(): (KeyboardState, Published, bool, Option<int>)
      reads this
    {
      (KeyboardState(baseline, visibleUntilMs), vars, hoverSuppressed, appHeight)
    }

    /** Module load: the baseline is the layout height, then one update runs at once. */
    constructor (isIOS: bool, now: nat, initial: Sample)
      ensures Valid() && this.isIOS == isIOS
      ensures State() == Applied(Tick(isIOS, KeyboardState(LayoutHeight(initial), 0), now, initial), None)
      ensures !rafPending && !burstPending && burstUntilMs == 0 && frames == []
    {
      this.isIOS := isIOS;
      baseline := LayoutHeight(initial);
      visibleUntilMs := 0;
      rafPending := false;
      burstPending := false;
      burstUntilMs := 0;
      frames := [];
      vars := Cleared;
      hoverSuppressed := false;
      appHeight := None;
      new;
      SetViewportVars(now, initial);
    }

    /** setViewportVars: one keyboard tick over a sample taken at `now`. */
    method SetViewportVars(now: nat, s: Sample)
      modifies this`baseline, this`visibleUntilMs, this`vars, this`hoverSuppressed, this`appHeight
      ensures Consistent(vars)
      ensures var t := Tick(isIOS, old(KeyboardState(baseline, visibleUntilMs)), now, s);
        && KeyboardState(baseline, visibleUntilMs) == t.state
        && vars == t.vars
        && hoverSuppressed == t.hoverSuppressed
        && appHeight == (if t.appHeight.Some? then t.appHeight else old(appHeight))
    {
      ghost var r := ReadingOf(baseline, s);
      var layoutHeight := LayoutHeight(s);
      var visualHeight :=
        if s.visual.VisualViewport? && s.visual.height != 0 then s.visual.height
        else if s.innerHeight != 0 then s.innerHeight
        else 0;
      if visualHeight != 0 {
        appHeight := Some(visualHeight);
      }

      var overlay := OverlayPx(layoutHeight, s.visual);
      var layoutKeyboard := LayoutKeyboardPx(baseline, layoutHeight);
      var effective := Max(layoutKeyboard, overlay);
      assert Reading(overlay, layoutKeyboard, effective) == r;
      var activeIsTextInput := IsTextInputLike(s.active);

      ghost var until := NextDeadline(visibleUntilMs, now, activeIsTextInput, effective);
      if activeIsTextInput && effective > VisibleMinPx {
        visibleUntilMs := Max(visibleUntilMs, now + GraceMs);
      } else if !activeIsTextInput && now >= visibleUntilMs {
        visibleUntilMs := 0;
      }
      assert visibleUntilMs == until;

      var isKeyboardVisible := effective > VisibleMinPx && (activeIsTextInput || now < visibleUntilMs);
      hoverSuppressed := ShouldSuppressMessageHover(isIOS, s.active);

      if isKeyboardVisible {
        vars := Published(effective, overlay, layoutKeyboard, true);
        assert Consistent(vars);
        return;
      }
      vars := Published(0, 0, 0, false);
      hoverSuppressed := ShouldSuppressMessageHover(isIOS, s.active);
      baseline := layoutHeight;
      assert Consistent(vars);
    }

    /** scheduleViewportUpdate: request an update frame unless one is already pending. */
    method ScheduleViewportUpdate()
      modifies this`rafPending, this`frames
      ensures old(Valid()) ==> Valid()
      ensures rafPending
      ensures frames == (if old(rafPending) then old(frames) else old(frames) + [UpdateFrame])
    {
      if rafPending {
        return;
      }
      rafPending := true;
      frames := frames + [UpdateFrame];
    }

    /**
     * scheduleBurstFrames: the burst deadline becomes the later of the old one
     * and now + duration, and a burst frame is requested unless one is pending.
     */
    method ScheduleBurstFrames(now: nat, durationMs: int)
      requires Valid()
      modifies this`burstUntilMs, this`burstPending, this`frames
      ensures Valid()
      ensures burstUntilMs == Max(old(burstUntilMs), now + durationMs)
      ensures burstUntilMs >= old(burstUntilMs) && burstUntilMs >= now + durationMs
      ensures burstPending
      ensures frames == (if old(burstPending) then old(frames) else old(frames) + [BurstTick])
    {
      burstUntilMs := Max(burstUntilMs, now + durationMs);
      if burstPending {
        return;
      }
      burstPending := true;
      frames := frames + [BurstTick];
    }

    /** The update frame's callback: clear rafId, then run one tick. */
    method RunUpdate(now: nat, s: Sample)
      modifies this`rafPending, this`baseline, this`visibleUntilMs, this`vars, this`hoverSuppressed, this`appHeight
      ensures !rafPending && Consistent(vars)
      ensures State() == Applied(Tick(isIOS, old(KeyboardState(baseline, visibleUntilMs)), now, s), old(appHeight))
    {
      rafPending := false;
      SetViewportVars(now, s);
    }

    /**
     * The burst frame's callback (tick): clear burstRafId, request an update
     * and request itself again while now is before the burst deadline.
     */
    method RunBurstTick(now: nat)
      modifies this`burstPending, this`rafPending, this`frames
      ensures rafPending
      ensures burstPending == (now < burstUntilMs)
      ensures frames == old(frames) + (if old(rafPending) then [] else [UpdateFrame])
                                    + (if now < burstUntilMs then [BurstTick] else [])
    {
      burstPending := false;
      ScheduleViewportUpdate();
      if now < burstUntilMs {
        burstPending := true;
        frames := frames + [BurstTick];
      }
    }

    /**
     * An animation frame at `now`: every callback requested before it runs
     * once, in request order. The update callback clears rafId and runs one
     * tick; the burst tick clears burstRafId, requests an update and requests
     * itself again while now is before the burst deadline.
     */
    method FireFrame(now: nat, s: Sample)
      requires Valid()
      modifies this
      ensures Valid()
      ensures burstUntilMs == old(burstUntilMs)
      ensures burstPending <==> old(burstPending) && now < burstUntilMs
      ensures rafPending <==> RequeuesUpdate(old(frames))
      ensures frames == (if RequeuesUpdate(old(frames)) then [UpdateFrame] else [])
                        + (if old(burstPending) && now < burstUntilMs then [BurstTick] else [])
      ensures State() == if old(rafPending)
                         then Applied(Tick(isIOS, old(KeyboardState(baseline, visibleUntilMs)), now, s), old(appHeight))
                         else old(State())
    {
      var callbacks := frames;
      ghost var u, b := FramePositions(callbacks);
      ghost var before := State();
      frames := [];
      var i := 0;
      while i < |callbacks|
        invariant 0 <= i <= |callbacks| && callbacks == old(frames)
        invariant FrameProgress(callbacks, i, u, b, now, s, before, old(burstUntilMs))
      {
        match callbacks[i] {
          case UpdateFrame => RunUpdateCallback(callbacks, i, u, b, now, s, before, old(burstUntilMs));
          case BurstTick => RunBurstCallback(callbacks, i, u, b, now, s, before, old(burstUntilMs));
        }
        i := i + 1;
      }
      assert callbacks[..i] == callbacks;
    }

    /**
     * How far an animation frame has got after running the first `i` of its
     * callbacks, `u` and `b` being the positions of the update and the burst
     * tick (|callbacks| when absent): the update flag is set while the update
     * is still to run or has been requested again, which happens when the
     * callbacks run so far end with a burst tick; the burst flag is set while
     * the tick is still to run or once it ran before the deadline; requested
     * callbacks are queued update first; and the tick has been applied once the
     * update ran.
     */
    ghost predicate FrameProgress(callbacks: seq<Frame>, i: int, u: int, b: int, now: nat, s: Sample,
                                  before: (KeyboardState, Published, bool, Option<int>), until: int)
      reads this
    {
      && 0 <= i <= |callbacks| && 0 <= u <= |callbacks| && 0 <= b <= |callbacks|
      && (forall j :: 0 <= j < |callbacks| ==>
            (callbacks[j] == UpdateFrame <==> j == u) && (callbacks[j] == BurstTick <==> j == b))
      && burstUntilMs == until
      && (rafPending <==> i <= u < |callbacks| || RequeuesUpdate(callbacks[..i]))
      && (burstPending <==> i <= b < |callbacks| || (b < i && now < until))
      && frames == (if RequeuesUpdate(callbacks[..i]) && !(i <= u < |callbacks|) then [UpdateFrame] else [])
                   + (if b < i && now < until then [BurstTick] else [])
      && State() == (if u < i then Applied(Tick(isIOS, before.0, now, s), before.3) else before)
      && Consistent(vars)
    }

    /** Runs callback `i` of an animation frame when it is the update. */
    method RunUpdateCallback(callbacks: seq<Frame>, i: int, ghost u: int, ghost b: int, now: nat, s: Sample,
                             ghost before: (KeyboardState, Published, bool, Option<int>), ghost until: int)
      requires 0 <= i < |callbacks| && callbacks[i] == UpdateFrame
      requires FrameProgress(callbacks, i, u, b, now, s, before, until)
      modifies this`rafPending, this`baseline, this`visibleUntilMs, this`vars, this`hoverSuppressed, this`appHeight
      ensures FrameProgress(callbacks, i + 1, u, b, now, s, before, until)
    {
      assert i == u;
      assert callbacks[..i + 1][i] == UpdateFrame;
      RunUpdate(now, s);
    }

    /** Runs callback `i` of an animation frame when it is the burst tick. */
    method RunBurstCallback(callbacks: seq<Frame>, i: int, ghost u: int, ghost b: int, now: nat, s: Sample,
                            ghost before: (KeyboardState, Published, bool, Option<int>), ghost until: int)
      requires 0 <= i < |callbacks| && callbacks[i] == BurstTick
      requires FrameProgress(callbacks, i, u, b, now, s, before, until)
      modifies this`burstPending, this`rafPending, this`frames
      ensures FrameProgress(callbacks, i + 1, u, b, now, s, before, until)
    {
      assert i == b;
      assert callbacks[..i + 1][i] == BurstTick;
      RunBurstTick(now);
    }

    /** setMessageHoverSuppressed: sets the class on iOS and does nothing elsewhere. */
    method SetMessageHoverSuppressed(enabled: bool)
      modifies this`hoverSuppressed
      ensures hoverSuppressed == if isIOS then enabled else old(hoverSuppressed)
    {
      if !isIOS {
        return;
      }
      hoverSuppressed := enabled;
    }

    /**
     * preFocusSuppression (the touchstart listener): on iOS, a touch on the
     * message input suppresses hover and starts a burst before focus arrives;
     * anything else changes nothing.
     */
    method PreFocusSuppression(target: Option<Element>, now: nat)
      requires Valid()
      modifies this`hoverSuppressed, this`burstUntilMs, this`burstPending, this`frames
      ensures Valid()
      ensures isIOS && IsMessageInput(target) ==>
                hoverSuppressed && burstPending && burstUntilMs == Max(old(burstUntilMs), now + DefaultBurstMs)
      ensures isIOS && IsMessageInput(target) ==> frames == (if old(burstPending) then old(frames) else old(frames) + [BurstTick])
      ensures !(isIOS && IsMessageInput(target)) ==>
                hoverSuppressed == old(hoverSuppressed) && burstUntilMs == old(burstUntilMs) &&
                burstPending == old(burstPending) && frames == old(frames)
    {
      if !isIOS {
        return;
      }
      if !IsMessageInput(target) {
        return;
      }
      SetMessageHoverSuppressed(true);
      ScheduleBurstFrames(now, DefaultBurstMs);
    }

    /** The pointerdown listener: mouse pointers are ignored, others go to preFocusSuppression. */
    method PointerDown(pointerType: string, target: Option<Element>, now: nat)
      requires Valid()
      modifies this`hoverSuppressed, this`burstUntilMs, this`burstPending, this`frames
      ensures Valid()
      ensures pointerType == "mouse" || !(isIOS && IsMessageInput(target)) ==>
                hoverSuppressed == old(hoverSuppressed) && burstUntilMs == old(burstUntilMs) &&
                burstPending == old(burstPending) && frames == old(frames)
      ensures pointerType != "mouse" && isIOS && IsMessageInput(target) ==>
                hoverSuppressed && burstPending && burstUntilMs == Max(old(burstUntilMs), now + DefaultBurstMs)
      ensures pointerType != "mouse" && isIOS && IsMessageInput(target) ==> frames == (if old(burstPending) then old(frames) else old(frames) + [BurstTick])
    {
      if pointerType == "mouse" {
        return;
      }
      PreFocusSuppression(target, now);
    }

    /**
     * The focusin listener: a text-input-like target starts a burst, and the
     * message input also suppresses hover; any other target changes nothing.
     */
    method FocusIn(target: Option<Element>, now: nat)
      requires Valid()
      modifies this`hoverSuppressed, this`burstUntilMs, this`burstPending, this`frames
      ensures Valid()
      ensures IsTextInputLike(target) ==> burstPending && burstUntilMs == Max(old(burstUntilMs), now + DefaultBurstMs)
      ensures hoverSuppressed == if IsTextInputLike(target) && IsMessageInput(target) && isIOS then true else old(hoverSuppressed)
      ensures IsTextInputLike(target) ==> frames == (if old(burstPending) then old(frames) else old(frames) + [BurstTick])
      ensures !IsTextInputLike(target) ==>
                burstUntilMs == old(burstUntilMs) && burstPending == old(burstPending) && frames == old(frames)
    {
      if !IsTextInputLike(target) {
        return;
      }
      if IsMessageInput(target) {
        SetMessageHoverSuppressed(true);
      }
      ScheduleBurstFrames(now, DefaultBurstMs);
    }

    /** The focusout listener: as focusin, but leaving the message input lifts the suppression. */
    method FocusOut(target: Option<Element>, now: nat)
      requires Valid()
      modifies this`hoverSuppressed, this`burstUntilMs, this`burstPending, this`frames
      ensures Valid()
      ensures IsTextInputLike(target) ==> burstPending && burstUntilMs == Max(old(burstUntilMs), now + DefaultBurstMs)
      ensures hoverSuppressed == if IsTextInputLike(target) && IsMessageInput(target) && isIOS then false else old(hoverSuppressed)
      ensures IsTextInputLike(target) ==> frames == (if old(burstPending) then old(frames) else old(frames) + [BurstTick])
      ensures !IsTextInputLike(target) ==>
                burstUntilMs == old(burstUntilMs) && burstPending == old(burstPending) && frames == old(frames)
    {
      if !IsTextInputLike(target) {
        return;
      }
      if IsMessageInput(target) {
        SetMessageHoverSuppressed(false);
      }
      ScheduleBurstFrames(now, DefaultBurstMs);
    }
  }
}
