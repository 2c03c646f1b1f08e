/**
 * The state machine of the `ModalWindow` component (src/index.ts) as pure
 * transitions on a record of its state. The class in component.dfy performs
 * the same steps on fields and is proved to end in the state these
 * functions give.
 *
 * The record holds the component's own fields, its attributes, the facts
 * about the DOM the state machine reads or writes (whether the structure and
 * the close button exist, the accessible texts, the classes of the scroll
 * container), the two timer slots and the timers still armed, and logs of the
 * calls the component makes to the outside: scroll lock and unlock, focus
 * requests and `close` events.
 */
module ModalState {
  import opened Wrappers
  import opened Attributes
  import opened FocusTrap
  import Label
  import Dismissal

  const ANIMATION_DURATION: nat := 250

  /** The attributes whose changes reach `attributeChangedCallback`. */
  const OBSERVED: set<string> := {ACTIVE, ANIMATED, ARIA_DESCRIBEDBY, CLOSE, STATIC}

  /** The classes the component puts on its scroll container. */
  datatype ScrollClass =
    | Visible   // modal-visible
    | Show      // modal-show, the entering animation
    | Hide      // modal-hide, the exiting animation

  /** Calls to the scroll-lock package. */
  datatype ScrollCall = Lock | Unlock

  /** Focus moves the component asks the browser for (run in the next frame). */
  datatype FocusRequest =
    | RequestDialogFocus                     // `_focusModal`: the dialog, and scroll to the top
    | RequestElementFocus(element: ElementId) // `_focusElement`

  /** What the component samples from the browser when it runs: the
      reduced-motion media query and `document.activeElement`. */
  datatype Env = Env(reducedMotion: bool, focused: Option<ElementId>)

  /** The callback `_toggleModalDisplay` receives from its three callers. */
  datatype Callback =
    | FocusModal          // from `open`
    | RestoreFocus        // from `close`
    | FocusModalIfActive  // from `_setActiveFlag`

  /** The flags read from attributes. */
  datatype Config = Config(
    isAnimated: bool,
    isStatic: bool,
    closable: bool,
    showIcon: bool,
    noClick: bool)

  /** What the state machine knows of the DOM it built. */
  datatype Dom = Dom(
    hasStructure: bool,                // `_modal`, `_modalScroll`, `_modalOverlay` exist
    hasCloseButton: bool,              // `_buttonClose` exists
    closeTitle: Option<string>,        // title and aria-label of the close button
    ariaLabel: Option<string>,         // aria-label of the dialog
    description: Option<string>)       // aria-describedby of the dialog

  /** The two timer slots and the timers armed and not yet run or cleared. */
  datatype Timers = Timers(
    timerForShow: Option<nat>,         // `_timerForShow`
    timerForHide: Option<nat>,         // `_timerForHide`
    pendingShow: map<nat, nat>,        // show timer id -> delay
    pendingHide: map<nat, nat>,        // hide timer id -> delay
    nextTimer: nat)                    // the id the next `setTimeout` returns

  /** What the component has asked of the outside world so far. */
  datatype Outside = Outside(
    scrollLog: seq<ScrollCall>,
    focusLog: seq<FocusRequest>,
    closeEvents: nat)                  // `close` events emitted

  datatype Modal = Modal(
    attrs: Attrs,                      // the host element's attributes
    isActive: bool,
    isBuilt: bool,
    isHideShow: bool,
    activeElement: Option<ElementId>,  // `_activeElement`
    classes: set<ScrollClass>,         // classes of the scroll container
    config: Config,
    dom: Dom,
    timers: Timers,
    out: Outside)

  /** A new component: the field initialisers and no attributes. */
  function Initial(): Modal {
    Modal(map[], false, false, false, None, {},
          Config(true, false, true, true, false),
          Dom(false, false, None, None, None),
          Timers(None, None, map[], map[], 0),
          Outside([], [], 0))
  }

  /** `setTimeout` for a show timer: a fresh id, stored in the slot. */
  function ArmShow(t: Timers, delay: nat): Timers {
    t.(timerForShow := Some(t.nextTimer), pendingShow := t.pendingShow[t.nextTimer := delay],
       nextTimer := t.nextTimer + 1)
  }

  /** `setTimeout` for a hide timer: a fresh id, stored in the slot. */
  function ArmHide(t: Timers, delay: nat): Timers {
    t.(timerForHide := Some(t.nextTimer), pendingHide := t.pendingHide[t.nextTimer := delay],
       nextTimer := t.nextTimer + 1)
  }

  /** The dismissal flags of the component. */
  function PolicyOf(m: Modal): Dismissal.Policy {
    Dismissal.Policy(m.isHideShow, m.config.isStatic, m.config.noClick, m.config.closable)
  }

  /** `_isMotionOkay`. */
  predicate IsMotionOkay(m: Modal, env: Env) {
    m.config.isAnimated && !env.reducedMotion
  }

  /** The delay `_toggleModalDisplay` gives its timer. */
  function Delay(m: Modal, env: Env): nat {
    if IsMotionOkay(m, env) then ANIMATION_DURATION else 0
  }

  /** The `active` attribute holds the text of `isActive`. */
  predicate Mirrored(m: Modal) {
    GetAttribute(m.attrs, ACTIVE) == Some(BoolText(m.isActive))
  }

  // ---------------------------------------------------------------------
  // Measures for the re-entrant path: writing `active` while toggling runs
  // `attributeChangedCallback`, which toggles again, but the second write
  // stores the same text and stops there.
  // ---------------------------------------------------------------------

  /** 0 when `active` holds "true" or "false", which reads back unchanged. */
  function ReadbackMeasure(m: Modal): nat {
    if GetAttribute(m.attrs, ACTIVE) == Some(TRUE) || GetAttribute(m.attrs, ACTIVE) == Some(FALSE) then 0 else 1
  }

  function ToggleMeasure(m: Modal): nat {
    (if Mirrored(m) then 0 else 1) + ReadbackMeasure(m) + 1
  }

  function FlagMeasure(m: Modal): nat {
    2 * ReadbackMeasure(m) + 1
  }

  function ChangeMeasure(m: Modal, name: string, oldValue: Option<string>, newValue: Option<string>): nat {
    if name == ACTIVE && oldValue != newValue then FlagMeasure(m) else 0
  }

  function WriteMeasure(m: Modal, name: string, value: Option<string>): nat {
    ChangeMeasure(m.(attrs := WriteAttribute(m.attrs, name, value)), name, GetAttribute(m.attrs, name), value)
  }

  // ---------------------------------------------------------------------
  // Transitions.
  // ---------------------------------------------------------------------

  /** The name an HTML element stores an attribute under: `setAttribute`
      and `removeAttribute` lower-case ASCII letters in the name first. */
  function AttributeName(name: string): string {
    Dismissal.ToLower(name)
  }

  /** The component's own writes use a name that is already lower case. */
  lemma ActiveIsLower()
    ensures AttributeName(ACTIVE) == ACTIVE
  {
    assert Dismissal.ToLower(ACTIVE) == ACTIVE;
  }

  /** `setAttribute(name, v)` (or `removeAttribute(name)` for `None`) on the
      host, followed by the `attributeChangedCallback` reaction the browser
      runs before the call returns. Both see the lower-cased name. */
  function SetAttribute(m: Modal, name: string, value: Option<string>, env: Env): Modal
    decreases WriteMeasure(m, AttributeName(name), value), 3
  {
    var key := AttributeName(name);
    var oldValue := GetAttribute(m.attrs, key);
    var m1 := m.(attrs := WriteAttribute(m.attrs, key, value));
    if key in OBSERVED then AttributeChanged(m1, key, oldValue, value, env) else m1
  }

  /** `attributeChangedCallback`. */
  function AttributeChanged(m: Modal, name: string, oldValue: Option<string>, newValue: Option<string>, env: Env): Modal
    decreases ChangeMeasure(m, name, oldValue, newValue), 2
  {
    if oldValue == newValue then m
    else if name == ACTIVE then SetActiveFlag(m, env)
    else if name == ANIMATED then m.(config := m.config.(isAnimated := AnimatedFlag(m.attrs)))
    else if name == ARIA_DESCRIBEDBY then SetModalDescription(m)
    else if name == CLOSE then SetCloseTitle(m)
    else if name == STATIC then m.(config := m.config.(isStatic := StaticFlag(m.attrs)))
    else m
  }

  /** `_setActiveFlag`. */
  function SetActiveFlag(m: Modal, env: Env): Modal
    decreases FlagMeasure(m), 1
  {
    ToggleModalDisplay(m.(isActive := ActiveFlag(m.attrs)), env, FocusModalIfActive)
  }

  /** `_setCloseTitle`. */
  function SetCloseTitle(m: Modal): Modal {
    if m.dom.hasCloseButton then m.(dom := m.dom.(closeTitle := Some(CloseTitle(m.attrs)))) else m
  }

  /** `_setModalDescription`. */
  function SetModalDescription(m: Modal): Modal {
    if !m.dom.hasStructure then m else m.(dom := m.dom.(description := Description(m.attrs)))
  }

  /** `_setModalLabel`, given the text of the first heading, if any. */
  function SetModalLabel(m: Modal, heading: Option<string>): Modal {
    if m.dom.hasStructure then m.(dom := m.dom.(ariaLabel := Some(Label.ModalLabel(heading)))) else m
  }

  /** The focus requests the callback passed to `_toggleModalDisplay`
      makes, given `_isActive` and `_activeElement` when it runs. */
  function Requested(cb: Callback, isActive: bool, activeElement: Option<ElementId>): seq<FocusRequest> {
    match cb
    case FocusModal => [RequestDialogFocus]
    case RestoreFocus => if activeElement.Some? then [RequestElementFocus(activeElement.value)] else []
    case FocusModalIfActive => if isActive then [RequestDialogFocus] else []
  }

  /** Appends focus requests to the log. */
  function RequestFocus(m: Modal, reqs: seq<FocusRequest>): Modal {
    m.(out := m.out.(focusLog := m.out.focusLog + reqs))
  }

  /** `_toggleModalDisplay`: nothing before the structure exists; otherwise
      write the mirror (which may re-enter through `attributeChangedCallback`)
      and then show or hide. */
  function ToggleModalDisplay(m: Modal, env: Env, cb: Callback): Modal
    decreases ToggleMeasure(m), 0
  {
    if !m.dom.hasStructure then m
    else
      ActiveIsLower();
      var m1 := SetAttribute(m, ACTIVE, Some(BoolText(m.isActive)), env);
      ShowOrHide(m1, env, cb)
  }

  /** The part of `_toggleModalDisplay` after the mirror write: remember the
      focused element when opening, then show, hide, or (closing a modal
      that is not visible) nothing more. */
  function ShowOrHide(m: Modal, env: Env, cb: Callback): Modal {
    var m1 := if m.isActive && env.focused.Some? then m.(activeElement := env.focused) else m;
    if m1.isActive then ShowBranch(m1, env, cb)
    else if Visible in m1.classes then HideBranch(m1, env, cb)
    else m1
  }

  /** The `_isActive` branch: show, lock scrolling, start the entering
      animation when motion is okay, run the callback, arm the show timer. */
  function ShowBranch(m: Modal, env: Env, cb: Callback): Modal {
    var motion := IsMotionOkay(m, env);
    m.(classes := m.classes + {Visible} + (if motion then {Show} else {}),
       isHideShow := m.isHideShow || motion,
       out := m.out.(scrollLog := m.out.scrollLog + [Lock],
                     focusLog := m.out.focusLog + Requested(cb, m.isActive, m.activeElement)),
       timers := ArmShow(m.timers, Delay(m, env)))
  }

  /** The `isModalVisible` branch: start the exiting animation when motion
      is okay, run the callback, arm the hide timer. */
  function HideBranch(m: Modal, env: Env, cb: Callback): Modal {
    var motion := IsMotionOkay(m, env);
    m.(classes := m.classes + (if motion then {Hide} else {}),
       isHideShow := m.isHideShow || motion,
       out := m.out.(focusLog := m.out.focusLog + Requested(cb, m.isActive, m.activeElement)),
       timers := ArmHide(m.timers, Delay(m, env)))
  }

  /** The timer ids `clearTimeout(slot)` cancels. */
  function SlotIds(slot: Option<nat>): set<nat> {
    if slot.Some? then {slot.value} else {}
  }

  /** The show timer `id` fires: it clears whatever timer is in the show
      slot, ends the transition and removes `modal-show`. */
  function FireShowTimer(m: Modal, id: nat): Modal
    requires id in m.timers.pendingShow
  {
    var t := m.timers;
    m.(timers := t.(pendingShow := t.pendingShow - ({id} + SlotIds(t.timerForShow))),
       isHideShow := false,
       classes := if m.dom.hasStructure then m.classes - {Show} else m.classes)
  }

  /** The hide timer `id` fires: it clears whatever timer is in the hide
      slot, ends the transition, removes `modal-hide` and `modal-visible`
      and unlocks scrolling. */
  function FireHideTimer(m: Modal, id: nat): Modal
    requires id in m.timers.pendingHide
  {
    var t := m.timers;
    m.(timers := t.(pendingHide := t.pendingHide - ({id} + SlotIds(t.timerForHide))),
       isHideShow := false,
       classes := if m.dom.hasStructure then m.classes - {Hide, Visible} else m.classes,
       out := m.out.(scrollLog := m.out.scrollLog + [Unlock]))
  }

  /** `_buildModal`, as far as the state machine sees it: the structure
      exists, and the close button when the modal is closable and shows its
      icon. */
  function BuildModal(m: Modal): Modal {
    m.(dom := m.dom.(hasStructure := true,
                     hasCloseButton := if m.config.closable && m.config.showIcon then true else m.dom.hasCloseButton))
  }

  /** The first part of `connectedCallback`: read the build-time flags,
      build the structure, then apply `animated`, `close`, the heading,
      `aria-describedby` and `static`. */
  function BuildAndApply(m: Modal, heading: Option<string>): Modal {
    var m1 := m.(config := m.config.(closable := ClosableFlag(m.attrs), showIcon := ShowIconFlag(m.attrs),
                                     noClick := NoClickFlag(m.attrs)));
    var m2 := BuildModal(m1);
    var m3 := m2.(config := m2.config.(isAnimated := AnimatedFlag(m2.attrs)));
    var m4 := SetCloseTitle(m3);
    var m5 := SetModalLabel(m4, heading);
    var m6 := SetModalDescription(m5);
    m6.(config := m6.config.(isStatic := StaticFlag(m6.attrs)))
  }

  /** `connectedCallback`: the first call builds and applies every
      attribute, runs `_setActiveFlag` and marks the modal built; later
      calls change nothing here (they only re-attach the listeners). */
  function Connect(m: Modal, heading: Option<string>, env: Env): Modal {
    if m.isBuilt then m
    else SetActiveFlag(BuildAndApply(m, heading), env).(isBuilt := true)
  }

  /** `open`. */
  function Open(m: Modal, env: Env): Modal {
    ToggleModalDisplay(m.(isActive := true), env, FocusModal)
  }

  /** `close`: toggles, then emits `close`. */
  function Close(m: Modal, env: Env): Modal {
    var m1 := ToggleModalDisplay(m.(isActive := false), env, RestoreFocus);
    m1.(out := m1.out.(closeEvents := m1.out.closeEvents + 1))
  }

  /** The focus requests for an action of the focus trap. */
  function ActionRequests(a: FocusAction): seq<FocusRequest> {
    match a
    case NoAction => []
    case FocusLast(t) => [RequestElementFocus(t)]
    case FocusFirst(t) => [RequestElementFocus(t)]
    case FocusDialog => [RequestDialogFocus]
  }

  /** `_handleFocusIn`. */
  function HandleFocusIn(m: Modal, env: Env, v: DomView): Modal {
    RequestFocus(m, ActionRequests(FocusInDecision(m.isActive, m.dom.hasStructure, env.focused, v)))
  }

  /** `_handleKeyDown`. */
  function HandleKeyDown(m: Modal, key: string, env: Env, v: DomView): Modal {
    if !m.isActive then m
    else
      var m1 := if Dismissal.EscapeCloses(m.isActive, PolicyOf(m), key) then Close(m, env) else m;
      if Dismissal.IsTab(key) then HandleFocusIn(m1, env, v) else m1
  }

  /** `_handleClickOverlay`. */
  function HandleClickOverlay(m: Modal, targetIsOverlay: bool, env: Env): Modal {
    if Dismissal.OverlayClickCloses(PolicyOf(m), targetIsOverlay) then Close(m, env) else m
  }

  /** `_handleClickClose`. */
  function HandleClickClose(m: Modal, env: Env): Modal {
    Close(m, env)
  }

  // ---------------------------------------------------------------------
  // The invariant.
  // ---------------------------------------------------------------------

  /** Armed timers have ids already handed out, distinct for the two kinds,
      and one of the two delays; the slots hold ids already handed out. */
  predicate TimersOk(t: Timers) {
    (forall id :: id in t.pendingShow ==> id < t.nextTimer && id !in t.pendingHide) &&
    (forall id :: id in t.pendingHide ==> id < t.nextTimer) &&
    (forall id :: id in t.pendingShow ==> t.pendingShow[id] in {0, ANIMATION_DURATION}) &&
    (forall id :: id in t.pendingHide ==> t.pendingHide[id] in {0, ANIMATION_DURATION}) &&
    (t.timerForShow.Some? ==> t.timerForShow.value < t.nextTimer) &&
    (t.timerForHide.Some? ==> t.timerForHide.value < t.nextTimer)
  }

  /** What holds at every step, also in the middle of `connectedCallback`. */
  predicate Core(m: Modal) {
    (m.isBuilt ==> m.dom.hasStructure) &&
    (m.dom.hasCloseButton <==> m.dom.hasStructure && m.config.closable && m.config.showIcon) &&
    (!m.dom.hasStructure ==>
      m.classes == {} && m.timers.pendingShow == map[] && m.timers.pendingHide == map[] &&
      m.out.scrollLog == [] && m.timers.timerForShow == None && m.timers.timerForHide == None) &&
    // the exiting animation only while visible (a late hide timer can leave
    // `modal-show` behind without `modal-visible`, so there is no such rule
    // for the entering one)
    (Hide in m.classes ==> Visible in m.classes) &&
    TimersOk(m.timers)
  }

  /** The flags and texts that follow observed attributes agree with them. */
  predicate Reconciled(m: Modal) {
    m.config.isAnimated == AnimatedFlag(m.attrs) &&
    m.config.isStatic == StaticFlag(m.attrs) &&
    (m.dom.hasStructure ==> m.dom.description == Description(m.attrs)) &&
    (m.dom.hasCloseButton ==> m.dom.closeTitle == Some(CloseTitle(m.attrs)))
  }

  /** What holds between the component's calls: the core, built exactly
      when the structure exists, the flags reconciled with the attributes,
      and once built a label and the `active` attribute mirroring
      `isActive`. */
  predicate Valid(m: Modal) {
    Core(m) && Reconciled(m) && (m.isBuilt <==> m.dom.hasStructure) &&
    (m.isBuilt ==> Mirrored(m) && m.dom.ariaLabel.Some?)
  }
}
