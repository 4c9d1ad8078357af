/**
 * Quantities shared by every version of the keyboard compensation engine
 * (src/utils/viewport.js and its v2.4.17 and v2.4.28 snapshots): the host
 * readings of one animation frame, the keyboard overlay and layout shrink
 * derived from them, the values the engine publishes, the text-input test
 * and the message-hover rule.
 *
 * Pixels are integers: Math.round on them is the identity.
 */
module Keyboard {
  import opened Wrappers

  /** KEYBOARD_VISIBLE_MIN_PX: a keyboard reading must exceed this to count as a keyboard. */
  const VisibleMinPx: int := 80

  /** The id of the chat's message input. */
  const MessageInputId: string := "message-input"

  /** The delays of scheduleBurstUpdates (src and v2.4.17 alike), in milliseconds. */
  const BurstDelays: seq<int> := [0, 40, 80, 120, 180, 260, 360, 520, 720]

  /** The due times of the timers one burst started at `now` sets. */
  function BurstDueTimes(now: int): (t: seq<int>)
    ensures |t| == |BurstDelays|
    ensures forall i :: 0 <= i < |t| ==> t[i] == now + BurstDelays[i]
  {
    seq(|BurstDelays|, i requires 0 <= i < |BurstDelays| => now + BurstDelays[i])
  }

  /** A burst asks for nine updates at strictly increasing times, from `now` to 720 ms later. */
  lemma BurstDueTimesIncrease(now: int)
    ensures |BurstDueTimes(now)| == 9
    ensures BurstDueTimes(now)[0] == now && BurstDueTimes(now)[8] == now + 720
    ensures forall i, j :: 0 <= i < j < 9 ==> BurstDueTimes(now)[i] < BurstDueTimes(now)[j]
  {
  }

  function Max(a: int, b: int): (m: int)
    ensures m >= a && m >= b
    ensures m == a || m == b
  {
    if a >= b then a else b
  }

  /** window.visualViewport, which some hosts do not provide. */
  datatype VisualViewport = NoVisualViewport | VisualViewport(height: int, offsetTop: int)

  /** A DOM element as the engine inspects it; `isBody` stands for `el === document.body`. */
  datatype Element = Element(tagName: string, isContentEditable: bool, id: string, isBody: bool)

  /** The host readings of one animation frame. */
  datatype Sample = Sample(
    rectHeight: int,               // documentElement.getBoundingClientRect().height, 0 when unavailable
    innerHeight: int,              // window.innerHeight
    clientHeight: int,             // documentElement.clientHeight, 0 when unavailable
    visual: VisualViewport,        // window.visualViewport
    active: Option<Element>,       // document.activeElement
    inputContainer: bool,          // #input-container exists
    activeInInputContainer: bool)  // #input-container contains the active element

  /**
   * isTextInputLike: nothing and the body are not text inputs, an editable
   * element always is, and otherwise exactly INPUT and TEXTAREA elements are.
   */
  function IsTextInputLike(el: Option<Element>): (r: bool)
    ensures el.None? ==> !r
    ensures el.Some? && el.value.isBody ==> !r
    ensures el.Some? && !el.value.isBody && el.value.isContentEditable ==> r
    ensures el.Some? && !el.value.isBody && !el.value.isContentEditable ==>
              (r <==> el.value.tagName == "INPUT" || el.value.tagName == "TEXTAREA")
  {
    if el.None? || el.value.isBody then false
    else if el.value.isContentEditable then true
    else el.value.tagName == "INPUT" || el.value.tagName == "TEXTAREA"
  }

  /** Whether an element is the chat's message input (`el instanceof Element && el.id === 'message-input'`). */
  predicate IsMessageInput(el: Option<Element>) {
    el.Some? && el.value.id == MessageInputId
  }

  /**
   * shouldSuppressMessageHover: the sticky hover state of messages is
   * suppressed only on iOS and only while the message input has focus.
   */
  function ShouldSuppressMessageHover(isIOS: bool, active: Option<Element>): (r: bool)
    ensures r <==> isIOS && active.Some? && active.value.id == MessageInputId
    ensures !isIOS ==> !r
  {
    if !isIOS then false else IsMessageInput(active)
  }

  /**
   * getLayoutViewportHeight of src and v2.4.17 (and the initial baseline of
   * both): the larger of window.innerHeight and documentElement.clientHeight.
   */
  function ClientLayoutHeight(s: Sample): (h: int)
    ensures h >= s.innerHeight && h >= s.clientHeight
    ensures h == s.innerHeight || h == s.clientHeight
  {
    Max(s.innerHeight, s.clientHeight)
  }

  /**
   * getKeyboardOverlayPx: how far the bottom of the layout viewport lies below
   * the bottom of the visual viewport; never negative, and 0 without a visual viewport.
   */
  function OverlayPx(layoutHeight: int, visual: VisualViewport): (r: int)
    ensures r >= 0
    ensures visual.NoVisualViewport? ==> r == 0
    ensures visual.VisualViewport? ==> r >= layoutHeight - (visual.height + visual.offsetTop)
    ensures r > 0 ==> visual.VisualViewport? && r == layoutHeight - (visual.height + visual.offsetTop)
  {
    match visual
    case NoVisualViewport => 0
    case VisualViewport(height, offsetTop) => Max(0, layoutHeight - (height + offsetTop))
  }

  /**
   * layoutKeyboardPx: how much the layout viewport shrank below the baseline
   * recorded while the keyboard was hidden; never negative.
   */
  function LayoutKeyboardPx(baseline: int, layoutHeight: int): (r: int)
    ensures r >= 0 && r >= baseline - layoutHeight
    ensures r > 0 ==> r == baseline - layoutHeight
    ensures baseline <= layoutHeight ==> r == 0
  {
    Max(0, baseline - layoutHeight)
  }

  /** The three quantities one tick derives from a sample. */
  datatype Reading = Reading(overlay: int, layoutKeyboard: int, effective: int)

  /**
   * The reading of one tick: the overlay, the layout shrink and the effective
   * keyboard height, which is the larger of the two.
   */
  function Measure(baseline: int, layoutHeight: int, visual: VisualViewport): (r: Reading)
    ensures r.overlay == OverlayPx(layoutHeight, visual)
    ensures r.layoutKeyboard == LayoutKeyboardPx(baseline, layoutHeight)
    ensures r.effective >= r.overlay >= 0 && r.effective >= r.layoutKeyboard >= 0
    ensures r.effective == r.overlay || r.effective == r.layoutKeyboard
  {
    var overlay := OverlayPx(layoutHeight, visual);
    var layoutKeyboard := LayoutKeyboardPx(baseline, layoutHeight);
    Reading(overlay, layoutKeyboard, Max(layoutKeyboard, overlay))
  }

  /**
   * What setViewportVars publishes: --keyboard-height, --keyboard-offset and
   * --chat-top-margin (in px) and the body's keyboard-visible class.
   */
  datatype Published = Published(keyboardHeight: int, keyboardOffset: int, chatTopMargin: int, keyboardVisible: bool)

  /** The hidden-keyboard values: three zeros and no class. */
  const Cleared: Published := Published(0, 0, 0, false)

  /**
   * The publisher: a visible tick writes the effective height, the overlay and
   * the layout shrink and sets the class; a hidden tick zeroes all three and
   * clears it. Every managed value is written either way.
   */
  function Publish(visible: bool, r: Reading): (p: Published)
    ensures p.keyboardVisible == visible
    ensures visible ==> p.keyboardHeight == r.effective && p.keyboardOffset == r.overlay && p.chatTopMargin == r.layoutKeyboard
    ensures !visible ==> p == Cleared
  {
    if visible then Published(r.effective, r.overlay, r.layoutKeyboard, true) else Cleared
  }

  /**
   * The invariant of the published values: offsets are non-negative, the
   * keyboard height is the larger of the offset and the top margin, and the
   * class is set exactly when the keyboard height exceeds the threshold.
   */
  ghost predicate Consistent(p: Published) {
    && p.keyboardOffset >= 0
    && p.chatTopMargin >= 0
    && p.keyboardHeight == Max(p.keyboardOffset, p.chatTopMargin)
    && (p.keyboardVisible <==> p.keyboardHeight > VisibleMinPx)
  }

  /** Publishing a reading is consistent whenever a visible tick is above the threshold. */
  lemma PublishConsistent(visible: bool, baseline: int, layoutHeight: int, visual: VisualViewport)
    requires visible ==> Measure(baseline, layoutHeight, visual).effective > VisibleMinPx
    ensures Consistent(Publish(visible, Measure(baseline, layoutHeight, visual)))
  {
  }
}
