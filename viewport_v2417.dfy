/**
 * The keyboard compensation engine of v2.4.17 (v/2.4.17/src/utils/viewport.js):
 * the keyboard counts as visible whenever the effective keyboard height
 * exceeds the threshold, whatever has focus. Updates are coalesced into at
 * most one pending animation frame; focus changes on text inputs start a
 * burst of nine timed update requests.
 */
module ViewportV2417 {
  import opened Wrappers
  import opened Keyboard

  /** What one setViewportVars call leaves behind: the new baseline and the published values. */
  datatype TickResult = TickResult(baseline: int, vars: Published)

  /** The reading of a sample against a baseline. */
  function ReadingOf(baseline: int, s: Sample): Reading {
    Measure(baseline, ClientLayoutHeight(s), s.visual)
  }

  /**
   * setViewportVars as a function of the baseline and the sample: a visible
   * tick publishes the reading and keeps the baseline; a hidden tick clears
   * the published values and takes the current layout height as the baseline.
   */
  function Tick(baseline: int, s: Sample): TickResult {
    var r := ReadingOf(baseline, s);
    var visible := r.effective > VisibleMinPx;
    TickResult(if visible then baseline else ClientLayoutHeight(s), Publish(visible, r))
  }

  /** The keyboard is visible exactly when the effective height exceeds 80 px; focus plays no part. */
  lemma TickVisibleIffAboveThreshold(baseline: int, s: Sample, otherFocus: Option<Element>)
    ensures Tick(baseline, s).vars.keyboardVisible <==> ReadingOf(baseline, s).effective > VisibleMinPx
    ensures Tick(baseline, s.(active := otherFocus)) == Tick(baseline, s)
  {
  }

  /**
   * A visible tick publishes the rounded effective height, overlay and layout
   * shrink, sets the class and keeps the baseline; a hidden tick publishes
   * three zeros, clears the class and records the layout height as the baseline.
   */
  lemma TickPublishes(baseline: int, s: Sample)
    ensures var t, r := Tick(baseline, s), ReadingOf(baseline, s);
      if r.effective > VisibleMinPx
      then t.baseline == baseline && t.vars == Published(r.effective, r.overlay, r.layoutKeyboard, true)
      else t.baseline == ClientLayoutHeight(s) && t.vars == Published(0, 0, 0, false)
  {
  }

  /** Feeding the same sample again changes nothing: the tick is idempotent. */
  lemma TickIdempotent(baseline: int, s: Sample)
    ensures Tick(Tick(baseline, s).baseline, s) == Tick(baseline, s)
  {
    var r := ReadingOf(baseline, s);
    if r.effective <= VisibleMinPx {
      var r2 := ReadingOf(ClientLayoutHeight(s), s);
      assert r2.layoutKeyboard == 0;
      assert r2.effective == r.overlay;
    }
  }

  /** The callbacks this module hands to requestAnimationFrame. */
  datatype Frame = UpdateFrame

  /** The module state of v/2.4.17/src/utils/viewport.js. */
  class Engine {
    /** originalLayoutViewportHeight: the layout height last seen with the keyboard hidden. */
    var baseline: int
    /** rafId != 0: an update frame has been requested and has not run yet. */
    var rafPending: bool
    /** The callbacks of this module waiting for the next animation frame. */
    var frames: seq<Frame>
    /** The due times of pending setTimeout(scheduleViewportUpdate, delay) timers. */
    var timeouts: seq<int>
    /** The values last published. */
    var vars: Published

    /** At most one update frame is pending, and rafPending says whether one is. */
    ghost predicate Valid()
      reads this
    {
      && frames == (if rafPending then [UpdateFrame] else [])
      && Consistent(vars)
    }

    /** Module load: the baseline is the layout height, then one update runs at once. */
    constructor (initial: Sample)
      ensures Valid()
      ensures TickResult(baseline, vars) == Tick(ClientLayoutHeight(initial), initial)
      ensures !rafPending && frames == [] && timeouts == []
    {
      baseline := ClientLayoutHeight(initial);
      rafPending := false;
      frames := [];
      timeouts := [];
      vars := Cleared;
      new;
      SetViewportVars(initial);
    }

    /** setViewportVars: one keyboard tick over a sample. */
    method SetViewportVars(s: Sample)
      requires Valid()
      modifies this`baseline, this`vars
      ensures Valid()
      ensures TickResult(baseline, vars) == Tick(old(baseline), s)
    {
      var layoutHeight := ClientLayoutHeight(s);
      var overlay := OverlayPx(layoutHeight, s.visual);
      var layoutKeyboard := LayoutKeyboardPx(baseline, layoutHeight);
      var effective := Max(layoutKeyboard, overlay);
      if effective > VisibleMinPx {
        vars := Published(effective, overlay, layoutKeyboard, true);
        return;
      }
      vars := Published(0, 0, 0, false);
      baseline := layoutHeight;
    }

    /** scheduleViewportUpdate: request an update frame unless one is already pending. */
    method ScheduleViewportUpdate()
      requires Valid()
      modifies this`rafPending, this`frames
      ensures Valid()
      ensures rafPending
      ensures frames == (if old(rafPending) then old(frames) else old(frames) + [UpdateFrame])
    {
      if rafPending {
        return;
      }
      rafPending := true;
      frames := frames + [UpdateFrame];
    }

    /** An animation frame: the pending update, if any, clears rafId and runs one tick. */
    method FireFrame(s: Sample)
      requires Valid()
      modifies this`rafPending, this`frames, this`baseline, this`vars
      ensures Valid()
      ensures !rafPending && frames == []
      ensures TickResult(baseline, vars) == if old(rafPending) then Tick(old(baseline), s) else TickResult(old(baseline), old(vars))
    {
      var callbacks := frames;
      frames := [];
      if callbacks == [UpdateFrame] {
        rafPending := false;
        SetViewportVars(s);
      }
    }

    /** scheduleBurstUpdates: one timer per delay, each of which will request an update. */
    method ScheduleBurstUpdates(now: int)
      modifies this`timeouts
      ensures timeouts == old(timeouts) + BurstDueTimes(now)
    {
      for i := 0 to |BurstDelays|
        invariant timeouts == old(timeouts) + BurstDueTimes(now)[..i]
      {
        timeouts := timeouts + [now + BurstDelays[i]];
      }
    }

    /** A due burst timer fires: it is removed and requests an update through the coalescing scheduler. */
    method FireTimeout(now: int, k: nat)
      requires Valid()
      requires k < |timeouts| && timeouts[k] <= now
      modifies this`timeouts, this`rafPending, this`frames
      ensures Valid()
      ensures timeouts == old(timeouts[..k] + timeouts[k + 1..])
      ensures rafPending
      ensures frames == (if old(rafPending) then old(frames) else old(frames) + [UpdateFrame])
    {
      timeouts := timeouts[..k] + timeouts[k + 1..];
      ScheduleViewportUpdate();
    }

    /**
     * The focusin and focusout listeners (their bodies are the same): a burst
     * for a text-input-like target, nothing for any other target.
     */
    method OnFocusChange(target: Option<Element>, now: int)
      modifies this`timeouts
      ensures timeouts == if IsTextInputLike(target) then old(timeouts) + BurstDueTimes(now) else old(timeouts)
    {
      if !IsTextInputLike(target) {
        return;
      }
      ScheduleBurstUpdates(now);
    }
  }
}
