/**
 * The keyboard compensation engine of src/utils/viewport.js: the keyboard
 * counts as visible only while a text input has focus and the effective
 * keyboard height exceeds the threshold. Beside the published values it
 * keeps the message-hover suppression class in step with focus on iOS and,
 * as a last resort, lifts the input bar with inline styles.
 */
module ViewportSrc {
  import opened Wrappers
  import opened Keyboard

  /** The transform of the input container: none, or translate3d(0, -px, 0). */
  datatype Transform = NoTransform | TranslateUp(px: int)

  /** The three inline style properties of #input-container that the fallback manages. */
  datatype InlineStyle = InlineStyle(marginBottom: string, transform: Transform, willChange: string)

  /** The style of an input bar that is not lifted: all three properties cleared. */
  const Unlifted: InlineStyle := InlineStyle("", NoTransform, "")

  /** What one setViewportVars call leaves behind. */
  datatype TickResult = TickResult(
    baseline: int,
    vars: Published,
    hoverSuppressed: bool,
    inlineStyle: Option<InlineStyle>)  // None: no input container, nothing written

  function ReadingOf(baseline: int, s: Sample): Reading {
    Measure(baseline, ClientLayoutHeight(s), s.visual)
  }

  /** The keyboard is visible exactly when a text input has focus and the effective height exceeds 80 px. */
  predicate KeyboardVisible(baseline: int, s: Sample) {
    IsTextInputLike(s.active) && ReadingOf(baseline, s).effective > VisibleMinPx
  }

  /** Whether the focused element lies inside #input-container. */
  predicate ActiveWithinInput(s: Sample) {
    s.inputContainer && s.active.Some? && s.activeInInputContainer
  }

  /**
   * The inline-lift fallback: when focus is inside the input container, the
   * keyboard is visible and the overlay is positive, the bar is lifted by the
   * overlay; otherwise the three properties are cleared.
   */
  function InlineLift(baseline: int, s: Sample): (st: InlineStyle)
    ensures st.transform.TranslateUp? <==>
              ActiveWithinInput(s) && KeyboardVisible(baseline, s) && ReadingOf(baseline, s).overlay > 0
    ensures st.transform.TranslateUp? ==>
              st == InlineStyle("0px", TranslateUp(ReadingOf(baseline, s).overlay), "transform") && st.transform.px > 0
    ensures st.transform.NoTransform? ==> st == Unlifted
  {
    var overlay := ReadingOf(baseline, s).overlay;
    if ActiveWithinInput(s) && KeyboardVisible(baseline, s) && overlay > 0 then
      InlineStyle("0px", TranslateUp(overlay), "transform")
    else
      Unlifted
  }

  /**
   * setViewportVars as a function of the baseline and the sample (and the
   * device): hover suppression follows focus, the inline style is rewritten
   * when the container exists, and the published values and the baseline
   * follow the focus-gated visibility.
   */
  function Tick(isIOS: bool, baseline: int, s: Sample): TickResult {
    var visible := KeyboardVisible(baseline, s);
    TickResult(
      if visible then baseline else ClientLayoutHeight(s),
      Publish(visible, ReadingOf(baseline, s)),
      ShouldSuppressMessageHover(isIOS, s.active),
      if s.inputContainer then Some(InlineLift(baseline, s)) else None)
  }

  /**
   * The published class is set exactly when a text input has focus and the
   * effective height exceeds 80 px; without text focus nothing is published.
   */
  lemma TickVisibleIffFocusedAboveThreshold(isIOS: bool, baseline: int, s: Sample)
    ensures Tick(isIOS, baseline, s).vars.keyboardVisible <==>
              IsTextInputLike(s.active) && ReadingOf(baseline, s).effective > VisibleMinPx
    ensures !IsTextInputLike(s.active) ==> Tick(isIOS, baseline, s).vars == Cleared
  {
  }

  /**
   * The baseline moves only on hidden ticks: a visible tick keeps it, a
   * hidden tick replaces it with the layout height, and after a hidden tick
   * the same layout height reads as no layout shrink.
   */
  lemma TickBaseline(isIOS: bool, baseline: int, s: Sample, next: Sample)
    requires ClientLayoutHeight(next) == ClientLayoutHeight(s)
    ensures var t := Tick(isIOS, baseline, s);
      && (t.vars.keyboardVisible ==> t.baseline == baseline)
      && (!t.vars.keyboardVisible ==> t.baseline == ClientLayoutHeight(s) && ReadingOf(t.baseline, next).layoutKeyboard == 0)
  {
  }

  /** Hover suppression is off everywhere but iOS, whatever has focus. */
  lemma TickHoverOffOffIOS(baseline: int, s: Sample)
    ensures !Tick(false, baseline, s).hoverSuppressed
  {
  }

  /** Feeding the same sample again changes nothing. */
  lemma TickIdempotent(isIOS: bool, baseline: int, s: Sample)
    ensures Tick(isIOS, Tick(isIOS, baseline, s).baseline, s) == Tick(isIOS, baseline, s)
  {
    if !KeyboardVisible(baseline, s) {
      var r, r2 := ReadingOf(baseline, s), ReadingOf(ClientLayoutHeight(s), s);
      assert r2.layoutKeyboard == 0 && r2.effective == r.overlay;
      assert !KeyboardVisible(ClientLayoutHeight(s), s);
    }
  }

  /**
   * The engine state a tick leaves behind (baseline, published values, hover
   * class, inline style); the inline style stays as it was when no container exists.
   */
  function TickState(oldInline: InlineStyle, t: TickResult): (int, Published, bool, InlineStyle) {
    (t.baseline, t.vars, t.hoverSuppressed, t.inlineStyle.GetOr(oldInline))
  }

  /** The callbacks this module hands to requestAnimationFrame. */
  datatype Frame = UpdateFrame

  /** The module state of src/utils/viewport.js. */
  class Engine {
    /** isProbablyIOS(): a property of the device, fixed for the page. */
    const isIOS: bool
    /** originalLayoutViewportHeight. */
    var baseline: int
    /** rafId != 0. */
    var rafPending: bool
    /** The callbacks of this module waiting for the next animation frame. */
    var frames: seq<Frame>
    /** The due times of pending setTimeout(scheduleViewportUpdate, delay) timers. */
    var timeouts: seq<int>
    /** The values last published. */
    var vars: Published
    /** The body's cerebr-suppress-message-hover class. */
    var hoverSuppressed: bool
    /** The inline style of #input-container. */
    var inlineStyle: InlineStyle

    /** At most one update frame is pending; the published values are consistent. */
    ghost predicate Valid()
      reads this
    {
      && frames == (if rafPending then [UpdateFrame] else [])
      && Consistent(vars)
    }

    /** Module load: the baseline is max(innerHeight, clientHeight), then one update runs at once. */
    constructor (isIOS: bool, initial: Sample)
      ensures Valid() && this.isIOS == isIOS
      ensures (baseline, vars, hoverSuppressed, inlineStyle) ==
                TickState(Unlifted, Tick(isIOS, ClientLayoutHeight(initial), initial))
      ensures !rafPending && frames == [] && timeouts == []
    {
      this.isIOS := isIOS;
      baseline := ClientLayoutHeight(initial);
      rafPending := false;
      frames := [];
      timeouts := [];
      vars := Cleared;
      hoverSuppressed := false;
      inlineStyle := Unlifted;
      new;
      SetViewportVars(initial);
    }

    /** setViewportVars: one keyboard tick over a sample. */
    method SetViewportVars(s: Sample)
      requires Valid()
      modifies this`baseline, this`vars, this`hoverSuppressed, this`inlineStyle
      ensures Valid()
      ensures (baseline, vars, hoverSuppressed, inlineStyle) == TickState(old(inlineStyle), Tick(isIOS, old(baseline), s))
    {
      var layoutHeight := ClientLayoutHeight(s);
      var overlay := OverlayPx(layoutHeight, s.visual);
      var layoutKeyboard := LayoutKeyboardPx(baseline, layoutHeight);
      var effective := Max(layoutKeyboard, overlay);
      var isKeyboardVisible := IsTextInputLike(s.active) && effective > VisibleMinPx;
      hoverSuppressed := ShouldSuppressMessageHover(isIOS, s.active);

      var activeWithinInput := s.inputContainer && s.active.Some? && s.activeInInputContainer;
      var shouldInlineLift := activeWithinInput && isKeyboardVisible && overlay > 0;
      if s.inputContainer {
        if shouldInlineLift {
          inlineStyle := InlineStyle("0px", TranslateUp(overlay), "transform");
        } else {
          inlineStyle := InlineStyle("", NoTransform, "");
        }
      }

      if isKeyboardVisible {
        vars := Published(effective, overlay, layoutKeyboard, true);
        return;
      }
      vars := Published(0, 0, 0, false);
      hoverSuppressed := ShouldSuppressMessageHover(isIOS, s.active);
      baseline := layoutHeight;
    }

    /** setMessageHoverSuppressed: sets the class on iOS and does nothing elsewhere. */
    method SetMessageHoverSuppressed(enabled: bool)
      modifies this`hoverSuppressed
      ensures hoverSuppressed == if isIOS then enabled else old(hoverSuppressed)
    {
      if !isIOS {
        return;
      }
      hoverSuppressed := enabled;
    }

    /** scheduleViewportUpdate: request an update frame unless one is already pending. */
    method ScheduleViewportUpdate()
      requires Valid()
      modifies this`rafPending, this`frames
      ensures Valid()
      ensures rafPending
      ensures frames == (if old(rafPending) then old(frames) else old(frames) + [UpdateFrame])
    {
      if rafPending {
        return;
      }
      rafPending := true;
      frames := frames + [UpdateFrame];
    }

    /** An animation frame: the pending update, if any, clears rafId and runs one tick. */
    method FireFrame(s: Sample)
      requires Valid()
      modifies this`rafPending, this`frames, this`baseline, this`vars, this`hoverSuppressed, this`inlineStyle
      ensures Valid()
      ensures !rafPending && frames == []
      ensures (baseline, vars, hoverSuppressed, inlineStyle) ==
                if old(rafPending) then TickState(old(inlineStyle), Tick(isIOS, old(baseline), s))
                else old((baseline, vars, hoverSuppressed, inlineStyle))
    {
      var callbacks := frames;
      frames := [];
      if callbacks == [UpdateFrame] {
        rafPending := false;
        SetViewportVars(s);
      }
    }

    /** scheduleBurstUpdates: one timer per delay, each of which will request an update. */
    method ScheduleBurstUpdates(now: int)
      modifies this`timeouts
      ensures timeouts == old(timeouts) + BurstDueTimes(now)
    {
      for i := 0 to |BurstDelays|
        invariant timeouts == old(timeouts) + BurstDueTimes(now)[..i]
      {
        timeouts := timeouts + [now + BurstDelays[i]];
      }
    }

    /** A due burst timer fires: it is removed and requests an update through the coalescing scheduler. */
    method FireTimeout(now: int, k: nat)
      requires Valid()
      requires k < |timeouts| && timeouts[k] <= now
      modifies this`timeouts, this`rafPending, this`frames
      ensures Valid()
      ensures timeouts == old(timeouts[..k] + timeouts[k + 1..])
      ensures rafPending
      ensures frames == (if old(rafPending) then old(frames) else old(frames) + [UpdateFrame])
    {
      timeouts := timeouts[..k] + timeouts[k + 1..];
      ScheduleViewportUpdate();
    }

    /**
     * The focusin listener: for a text-input-like target, suppress message
     * hover when it is the message input, then start a burst; any other
     * target changes nothing.
     */
    method FocusIn(target: Option<Element>, now: int)
      modifies this`timeouts, this`hoverSuppressed
      ensures timeouts == if IsTextInputLike(target) then old(timeouts) + BurstDueTimes(now) else old(timeouts)
      ensures hoverSuppressed == if IsTextInputLike(target) && IsMessageInput(target) && isIOS then true else old(hoverSuppressed)
    {
      if !IsTextInputLike(target) {
        return;
      }
      if IsMessageInput(target) {
        SetMessageHoverSuppressed(true);
      }
      ScheduleBurstUpdates(now);
    }

    /** The focusout listener: as focusin, but it lifts the hover suppression. */
    method FocusOut(target: Option<Element>, now: int)
      modifies this`timeouts, this`hoverSuppressed
      ensures timeouts == if IsTextInputLike(target) then old(timeouts) + BurstDueTimes(now) else old(timeouts)
      ensures hoverSuppressed == if IsTextInputLike(target) && IsMessageInput(target) && isIOS then false else old(hoverSuppressed)
    {
      if !IsTextInputLike(target) {
        return;
      }
      if IsMessageInput(target) {
        SetMessageHoverSuppressed(false);
      }
      ScheduleBurstUpdates(now);
    }
  }
}
