/**
 * Properties of the state machine in modal_state.dfy: what each operation
 * does to the state, the invariant every operation keeps, and scenarios
 * that show the behaviour of the code as written.
 */
module ModalProperties {
  import opened Wrappers
  import opened Attributes
  import opened FocusTrap
  import opened ModalState
  import Label
  import Dismissal

  /** The parts of the state that showing or hiding never touches. */
  predicate SameSetup(a: Modal, b: Modal) {
    a.attrs == b.attrs && a.isActive == b.isActive && a.isBuilt == b.isBuilt &&
    a.config == b.config && a.dom == b.dom && a.out.closeEvents == b.out.closeEvents
  }

  /** The class an animation adds when motion is okay. */
  function MotionClass(motion: bool, c: ScrollClass): set<ScrollClass> {
    if motion then {c} else {}
  }

  /** The focus request `close` makes: back to the element focused when the
      modal was opened, if any. */
  function RestoreRequests(activeElement: Option<ElementId>): seq<FocusRequest> {
    Requested(RestoreFocus, false, activeElement)
  }

  /** The state right after the mirror write that changes the attribute. */
  function WithMirror(m: Modal): Modal {
    m.(attrs := m.attrs[ACTIVE := BoolText(m.isActive)])
  }

  // ---------------------------------------------------------------------
  // Showing and hiding.
  // ---------------------------------------------------------------------

  /** The show branch keeps the invariant. */
  lemma ShowBranchCore(m: Modal, env: Env, cb: Callback)
    requires Core(m) && m.dom.hasStructure && m.isActive
    ensures Core(ShowBranch(m, env, cb))
  {
    var r := ShowBranch(m, env, cb);
    assert r.timers == ArmShow(m.timers, Delay(m, env));
    assert forall id :: id in r.timers.pendingShow ==> id < r.timers.nextTimer && id !in r.timers.pendingHide;
  }

  /** The hide branch keeps the invariant. */
  lemma HideBranchCore(m: Modal, env: Env, cb: Callback)
    requires Core(m) && m.dom.hasStructure && !m.isActive && Visible in m.classes
    ensures Core(HideBranch(m, env, cb))
  {
    var r := HideBranch(m, env, cb);
    assert r.timers == ArmHide(m.timers, Delay(m, env));
    assert forall id :: id in r.timers.pendingShow ==> id < r.timers.nextTimer && id !in r.timers.pendingHide;
  }

  /** The step after the mirror write keeps the invariant and leaves the
      attributes, the flags and the DOM texts alone. */
  lemma ShowOrHideCore(m: Modal, env: Env, cb: Callback)
    requires Core(m) && m.dom.hasStructure
    ensures Core(ShowOrHide(m, env, cb)) && SameSetup(ShowOrHide(m, env, cb), m)
  {
    var m1 := if m.isActive && env.focused.Some? then m.(activeElement := env.focused) else m;
    if m1.isActive {
      ShowBranchCore(m1, env, cb);
    } else if Visible in m1.classes {
      HideBranchCore(m1, env, cb);
    }
  }

  /** Toggling before the structure exists changes nothing: not even the
      mirror is written. */
  lemma ToggleUnbuilt(m: Modal, env: Env, cb: Callback)
    requires !m.dom.hasStructure
    ensures ToggleModalDisplay(m, env, cb) == m
  {
  }

  /** Toggling once the structure exists: the mirror write re-enters
      `_setActiveFlag` exactly when it changes the attribute, and then the
      show-or-hide step runs twice, first with `_setActiveFlag`'s
      callback. */
  lemma {:induction false} ToggleBuilt(m: Modal, env: Env, cb: Callback)
    requires m.dom.hasStructure
    ensures Mirrored(m) ==> ToggleModalDisplay(m, env, cb) == ShowOrHide(m, env, cb)
    ensures !Mirrored(m) ==>
      ToggleModalDisplay(m, env, cb) == ShowOrHide(ShowOrHide(WithMirror(m), env, FocusModalIfActive), env, cb)
  {
    ActiveIsLower();
    var mirror := Some(BoolText(m.isActive));
    var m1 := m.(attrs := WriteAttribute(m.attrs, ACTIVE, mirror));
    if Mirrored(m) {
      assert m.attrs[ACTIVE := BoolText(m.isActive)] == m.attrs;
      assert m1 == m;
      assert SetAttribute(m, ACTIVE, mirror, env) == m;
    } else {
      assert m1 == WithMirror(m);
      assert SetAttribute(m, ACTIVE, mirror, env) ==
        AttributeChanged(m1, ACTIVE, GetAttribute(m.attrs, ACTIVE), mirror, env);
      assert m1.(isActive := ActiveFlag(m1.attrs)) == m1;
      assert AttributeChanged(m1, ACTIVE, GetAttribute(m.attrs, ACTIVE), mirror, env) == SetActiveFlag(m1, env);
      assert m1.attrs[ACTIVE := BoolText(m1.isActive)] == m1.attrs;
      assert SetAttribute(m1, ACTIVE, mirror, env) == m1;
      assert ToggleModalDisplay(m1, env, FocusModalIfActive) == ShowOrHide(m1, env, FocusModalIfActive);
    }
  }

  /** Writing the mirror does not disturb the flags and texts that follow
      the other observed attributes. */
  lemma MirrorKeepsReconciled(m: Modal)
    requires Reconciled(m)
    ensures Reconciled(WithMirror(m)) && Mirrored(WithMirror(m))
    ensures Mirrored(m) ==> WithMirror(m) == m
  {
    if Mirrored(m) {
      assert m.attrs[ACTIVE := BoolText(m.isActive)] == m.attrs;
    }
    var a := WithMirror(m).attrs;
    assert GetAttribute(a, ANIMATED) == GetAttribute(m.attrs, ANIMATED);
    assert GetAttribute(a, STATIC) == GetAttribute(m.attrs, STATIC);
    assert GetAttribute(a, ARIA_DESCRIBEDBY) == GetAttribute(m.attrs, ARIA_DESCRIBEDBY);
    assert GetAttribute(a, CLOSE) == GetAttribute(m.attrs, CLOSE);
  }

  /** The invariant's attribute-dependent parts only read what showing and
      hiding leave alone. */
  lemma SameSetupKeeps(a: Modal, b: Modal)
    requires SameSetup(a, b) && Reconciled(b)
    ensures Reconciled(a) && (Mirrored(a) <==> Mirrored(b))
  {
  }

  /** Showing or hiding once keeps the invariant of a mirrored modal. */
  lemma OnceKeeps(w: Modal, env: Env, cb: Callback)
    requires Core(w) && Reconciled(w) && Mirrored(w) && w.dom.hasStructure
    ensures Core(ShowOrHide(w, env, cb)) && Reconciled(ShowOrHide(w, env, cb))
    ensures Mirrored(ShowOrHide(w, env, cb)) && SameSetup(ShowOrHide(w, env, cb), w)
  {
    ShowOrHideCore(w, env, cb);
    SameSetupKeeps(ShowOrHide(w, env, cb), w);
  }

  /** Showing or hiding twice, as the re-entrant path does, keeps it too. */
  lemma TwiceKeeps(w: Modal, env: Env, cb: Callback)
    requires Core(w) && Reconciled(w) && Mirrored(w) && w.dom.hasStructure
    ensures var r := ShowOrHide(ShowOrHide(w, env, FocusModalIfActive), env, cb);
      Core(r) && Reconciled(r) && Mirrored(r) && SameSetup(r, w)
  {
    OnceKeeps(w, env, FocusModalIfActive);
    OnceKeeps(ShowOrHide(w, env, FocusModalIfActive), env, cb);
  }

  /** `_toggleModalDisplay` on a built modal keeps the invariant and ends
      with the `active` attribute mirroring `isActive`; only the attribute,
      the classes, the timers and the logs change. */
  lemma ToggleKeeps(m: Modal, env: Env, cb: Callback)
    requires Core(m) && Reconciled(m) && m.dom.hasStructure
    ensures var t := ToggleModalDisplay(m, env, cb);
      Core(t) && Reconciled(t) && Mirrored(t) && SameSetup(t, WithMirror(m))
  {
    ToggleBuilt(m, env, cb);
    MirrorKeepsReconciled(m);
    if Mirrored(m) {
      OnceKeeps(m, env, cb);
    } else {
      TwiceKeeps(WithMirror(m), env, cb);
    }
  }

  // ---------------------------------------------------------------------
  // The effects of one show-or-hide step.
  // ---------------------------------------------------------------------

  /** The element `_activeElement` holds after an opening step. */
  function Cached(m: Modal, env: Env): Option<ElementId> {
    if env.focused.Some? then env.focused else m.activeElement
  }

  /** An active step: visible, the entering animation when motion is okay,
      one lock, the callback's requests, a new show timer in the slot. */
  lemma ShowStep(m: Modal, env: Env, cb: Callback)
    requires m.isActive
    ensures var r := ShowOrHide(m, env, cb);
      SameSetup(r, m) &&
      r.activeElement == Cached(m, env) &&
      r.classes == m.classes + {Visible} + MotionClass(IsMotionOkay(m, env), Show) &&
      r.isHideShow == (m.isHideShow || IsMotionOkay(m, env)) &&
      r.out.scrollLog == m.out.scrollLog + [Lock] &&
      r.out.focusLog == m.out.focusLog + Requested(cb, true, Cached(m, env)) &&
      r.timers == ArmShow(m.timers, Delay(m, env))
  {
  }

  /** An inactive step on a visible modal: the exiting animation when
      motion is okay, no unlock yet, the callback's requests, a new hide
      timer in the slot. */
  lemma HideStep(m: Modal, env: Env, cb: Callback)
    requires !m.isActive && Visible in m.classes
    ensures var r := ShowOrHide(m, env, cb);
      SameSetup(r, m) &&
      r.activeElement == m.activeElement &&
      r.classes == m.classes + MotionClass(IsMotionOkay(m, env), Hide) &&
      r.isHideShow == (m.isHideShow || IsMotionOkay(m, env)) &&
      r.out.scrollLog == m.out.scrollLog &&
      r.out.focusLog == m.out.focusLog + Requested(cb, false, m.activeElement) &&
      r.timers == ArmHide(m.timers, Delay(m, env))
  {
  }

  /** An inactive step on a modal that is not visible does nothing. */
  lemma QuietStep(m: Modal, env: Env, cb: Callback)
    requires !m.isActive && Visible !in m.classes
    ensures ShowOrHide(m, env, cb) == m
  {
  }

  // ---------------------------------------------------------------------
  // `open` and `close`.
  // ---------------------------------------------------------------------

  /** Before the modal is built, `open` only sets the flag. */
  lemma OpenUnbuilt(m: Modal, env: Env)
    requires !m.dom.hasStructure
    ensures Open(m, env) == m.(isActive := true)
  {
  }

  /** `open` on a built modal that is already open: the mirror is in place,
      so the show step runs once: one more lock, one dialog focus request
      and one more show timer. */
  lemma {:induction false} OpenWhileOpen(m: Modal, env: Env)
    requires Valid(m) && m.isBuilt && m.isActive
    ensures var r := Open(m, env);
      SameSetup(r, m) &&
      r.activeElement == Cached(m, env) &&
      r.classes == m.classes + {Visible} + MotionClass(IsMotionOkay(m, env), Show) &&
      r.isHideShow == (m.isHideShow || IsMotionOkay(m, env)) &&
      r.out.scrollLog == m.out.scrollLog + [Lock] &&
      r.out.focusLog == m.out.focusLog + [RequestDialogFocus] &&
      r.timers == ArmShow(m.timers, Delay(m, env))
  {
    assert m.(isActive := true) == m;
    ToggleBuilt(m, env, FocusModal);
    ShowStep(m, env, FocusModal);
  }

  /** `open` on a built modal that is closed: the mirror write changes
      `active` from "false" to "true", `attributeChangedCallback` re-enters
      and shows the modal first, then `open` shows it again. Scrolling is
      locked twice, the dialog focus is requested twice and two show timers
      are armed, the later one in the slot. */
  lemma {:induction false} OpenWhileClosed(m: Modal, env: Env)
    requires Valid(m) && m.isBuilt && !m.isActive
    ensures var r := Open(m, env);
      r.isActive && r.attrs == m.attrs[ACTIVE := TRUE] &&
      r.isBuilt && r.config == m.config && r.dom == m.dom && r.out.closeEvents == m.out.closeEvents &&
      r.activeElement == Cached(m, env) &&
      r.classes == m.classes + {Visible} + MotionClass(IsMotionOkay(m, env), Show) &&
      r.isHideShow == (m.isHideShow || IsMotionOkay(m, env)) &&
      r.out.scrollLog == m.out.scrollLog + [Lock, Lock] &&
      r.out.focusLog == m.out.focusLog + [RequestDialogFocus, RequestDialogFocus] &&
      r.timers == ArmShow(ArmShow(m.timers, Delay(m, env)), Delay(m, env))
  {
    var a := m.(isActive := true);
    var w := WithMirror(a);
    assert !Mirrored(a);
    ToggleBuilt(a, env, FocusModal);
    ShowStep(w, env, FocusModalIfActive);
    var u := ShowOrHide(w, env, FocusModalIfActive);
    ShowStep(u, env, FocusModal);
    assert u.out.scrollLog + [Lock] == m.out.scrollLog + [Lock, Lock];
    assert u.out.focusLog + [RequestDialogFocus] == m.out.focusLog + [RequestDialogFocus, RequestDialogFocus];
  }

  /** Before the modal is built, `close` sets the flag and emits `close`. */
  lemma CloseUnbuilt(m: Modal, env: Env)
    requires !m.dom.hasStructure
    ensures Close(m, env) == m.(isActive := false, out := m.out.(closeEvents := m.out.closeEvents + 1))
  {
  }

  /** `close` on a built modal that is already closed: the mirror is in
      place, so one hide step runs if the modal is still visible; `close`
      is emitted either way. */
  lemma {:induction false} CloseWhileClosed(m: Modal, env: Env)
    requires Valid(m) && m.isBuilt && !m.isActive
    ensures var r := Close(m, env);
      r.isActive == m.isActive && r.attrs == m.attrs && r.isBuilt && r.config == m.config && r.dom == m.dom &&
      r.out.closeEvents == m.out.closeEvents + 1 &&
      r.activeElement == m.activeElement &&
      r.out.scrollLog == m.out.scrollLog &&
      (Visible !in m.classes ==>
        r.classes == m.classes && r.isHideShow == m.isHideShow &&
        r.out.focusLog == m.out.focusLog && r.timers == m.timers) &&
      (Visible in m.classes ==>
        r.classes == m.classes + MotionClass(IsMotionOkay(m, env), Hide) &&
        r.isHideShow == (m.isHideShow || IsMotionOkay(m, env)) &&
        r.out.focusLog == m.out.focusLog + RestoreRequests(m.activeElement) &&
        r.timers == ArmHide(m.timers, Delay(m, env)))
  {
    assert m.(isActive := false) == m;
    ToggleBuilt(m, env, RestoreFocus);
    if Visible in m.classes {
      HideStep(m, env, RestoreFocus);
    } else {
      QuietStep(m, env, RestoreFocus);
    }
  }

  /** `close` on a built modal that is open: the mirror write changes
      `active` from "true" to "false" and `attributeChangedCallback`
      re-enters. When the modal is visible both passes hide it: two hide
      timers, the later one in the slot, but only `close`'s callback asks for
      the focus back. Scrolling stays locked until a hide timer fires. */
  lemma {:induction false} CloseWhileOpen(m: Modal, env: Env)
    requires Valid(m) && m.isBuilt && m.isActive
    ensures var r := Close(m, env);
      !r.isActive && r.attrs == m.attrs[ACTIVE := FALSE] &&
      r.isBuilt && r.config == m.config && r.dom == m.dom &&
      r.out.closeEvents == m.out.closeEvents + 1 &&
      r.activeElement == m.activeElement &&
      r.out.scrollLog == m.out.scrollLog &&
      (Visible !in m.classes ==>
        r.classes == m.classes && r.isHideShow == m.isHideShow &&
        r.out.focusLog == m.out.focusLog && r.timers == m.timers) &&
      (Visible in m.classes ==>
        r.classes == m.classes + MotionClass(IsMotionOkay(m, env), Hide) &&
        r.isHideShow == (m.isHideShow || IsMotionOkay(m, env)) &&
        r.out.focusLog == m.out.focusLog + RestoreRequests(m.activeElement) &&
        r.timers == ArmHide(ArmHide(m.timers, Delay(m, env)), Delay(m, env)))
  {
    var a := m.(isActive := false);
    var w := WithMirror(a);
    assert !Mirrored(a);
    ToggleBuilt(a, env, RestoreFocus);
    if Visible in m.classes {
      HideStep(w, env, FocusModalIfActive);
      var u := ShowOrHide(w, env, FocusModalIfActive);
      assert u.out.focusLog == m.out.focusLog;
      HideStep(u, env, RestoreFocus);
    } else {
      QuietStep(w, env, FocusModalIfActive);
      QuietStep(w, env, RestoreFocus);
    }
  }

  // ---------------------------------------------------------------------
  // The invariant is kept by every operation.
  // ---------------------------------------------------------------------

  /** `open` keeps the invariant and leaves the modal active. */
  lemma ValidOpen(m: Modal, env: Env)
    requires Valid(m)
    ensures Valid(Open(m, env)) && Open(m, env).isActive
    ensures Open(m, env).isBuilt == m.isBuilt
  {
    if m.isBuilt {
      ToggleKeeps(m.(isActive := true), env, FocusModal);
    }
  }

  /** `close` keeps the invariant and leaves the modal inactive. */
  lemma ValidClose(m: Modal, env: Env)
    requires Valid(m)
    ensures Valid(Close(m, env)) && !Close(m, env).isActive
    ensures Close(m, env).isBuilt == m.isBuilt
  {
    if m.isBuilt {
      ToggleKeeps(m.(isActive := false), env, RestoreFocus);
    }
  }

  /** A show timer firing keeps the invariant. */
  lemma ValidFireShow(m: Modal, id: nat)
    requires Valid(m) && id in m.timers.pendingShow
    ensures Valid(FireShowTimer(m, id))
  {
  }

  /** A hide timer firing keeps the invariant. */
  lemma ValidFireHide(m: Modal, id: nat)
    requires Valid(m) && id in m.timers.pendingHide
    ensures Valid(FireHideTimer(m, id))
  {
  }

  /** Writing one attribute leaves what the others control as it was. */
  lemma WriteKeeps(m: Modal, name: string, value: Option<string>)
    requires Reconciled(m)
    ensures var n := m.(attrs := WriteAttribute(m.attrs, name, value));
      (name != ACTIVE ==> (Mirrored(n) <==> Mirrored(m))) &&
      (name != ANIMATED ==> AnimatedFlag(n.attrs) == AnimatedFlag(m.attrs)) &&
      (name != STATIC ==> StaticFlag(n.attrs) == StaticFlag(m.attrs)) &&
      (name != ARIA_DESCRIBEDBY ==> Description(n.attrs) == Description(m.attrs)) &&
      (name != CLOSE ==> CloseTitle(n.attrs) == CloseTitle(m.attrs))
  {
  }

  /** A write to `active` that changes it runs `_setActiveFlag`: the flag
      becomes "is the new text exactly `true`" and the display toggles. */
  lemma {:induction false} ActiveWriteToggles(m: Modal, value: Option<string>, env: Env)
    requires GetAttribute(m.attrs, ACTIVE) != value
    ensures SetAttribute(m, ACTIVE, value, env) ==
      ToggleModalDisplay(m.(attrs := WriteAttribute(m.attrs, ACTIVE, value), isActive := value == Some(TRUE)),
                         env, FocusModalIfActive)
  {
    ActiveIsLower();
    var m1 := m.(attrs := WriteAttribute(m.attrs, ACTIVE, value));
    assert ActiveFlag(m1.attrs) == (value == Some(TRUE));
    assert SetAttribute(m, ACTIVE, value, env) == AttributeChanged(m1, ACTIVE, GetAttribute(m.attrs, ACTIVE), value, env);
  }

  /** A write to `active` keeps the invariant. */
  lemma ValidActiveWrite(m: Modal, value: Option<string>, env: Env)
    requires Valid(m)
    ensures Valid(SetAttribute(m, ACTIVE, value, env))
  {
    ActiveIsLower();
    WriteKeeps(m, ACTIVE, value);
    var m1 := m.(attrs := WriteAttribute(m.attrs, ACTIVE, value));
    if GetAttribute(m.attrs, ACTIVE) == value {
      assert SetAttribute(m, ACTIVE, value, env) == m1;
    } else {
      ActiveWriteToggles(m, value, env);
      var n := m1.(isActive := value == Some(TRUE));
      if m.isBuilt {
        ToggleKeeps(n, env, FocusModalIfActive);
      }
    }
  }

  /** A write to an attribute other than `active`, under its lower-cased
      name: unobserved or unchanged ones only store the text; the others
      update what they control. */
  lemma {:induction false} OtherWriteEffect(m: Modal, name: string, value: Option<string>, env: Env)
    requires AttributeName(name) != ACTIVE
    ensures var key := AttributeName(name);
      var m1 := m.(attrs := WriteAttribute(m.attrs, key, value));
      SetAttribute(m, name, value, env) ==
        if key !in OBSERVED || GetAttribute(m.attrs, key) == value then m1
        else if key == ANIMATED then m1.(config := m1.config.(isAnimated := AnimatedFlag(m1.attrs)))
        else if key == ARIA_DESCRIBEDBY then SetModalDescription(m1)
        else if key == CLOSE then SetCloseTitle(m1)
        else m1.(config := m1.config.(isStatic := StaticFlag(m1.attrs)))
  {
  }

  /** The letter case of the name makes no difference to a write: it acts
      as the write under the lower-cased name. */
  lemma AttributeNameCase(m: Modal, name: string, value: Option<string>, env: Env)
    ensures SetAttribute(m, name, value, env) == SetAttribute(m, AttributeName(name), value, env)
  {
    Dismissal.ToLowerIdempotent(name);
  }

  /** So a page that writes `ACTIVE` or `Active` opens or closes the modal
      exactly as a write of `active` does. */
  lemma UpperCaseActive(m: Modal, value: Option<string>, env: Env)
    ensures SetAttribute(m, "ACTIVE", value, env) == SetAttribute(m, ACTIVE, value, env)
    ensures SetAttribute(m, "Active", value, env) == SetAttribute(m, ACTIVE, value, env)
  {
    assert AttributeName("ACTIVE") == ACTIVE;
    assert AttributeName("Active") == ACTIVE;
    AttributeNameCase(m, "ACTIVE", value, env);
    AttributeNameCase(m, "Active", value, env);
  }

  /** The reactions to a write of an attribute other than `active` keep
      the invariant. */
  lemma ValidOtherReaction(m: Modal, name: string, value: Option<string>)
    requires Valid(m) && name != ACTIVE
    ensures var m1 := m.(attrs := WriteAttribute(m.attrs, name, value));
      (name == ANIMATED ==> Valid(m1.(config := m1.config.(isAnimated := AnimatedFlag(m1.attrs))))) &&
      (name == STATIC ==> Valid(m1.(config := m1.config.(isStatic := StaticFlag(m1.attrs))))) &&
      (name == ARIA_DESCRIBEDBY ==> Valid(SetModalDescription(m1))) &&
      (name == CLOSE ==> Valid(SetCloseTitle(m1))) &&
      (name !in OBSERVED || GetAttribute(m.attrs, name) == value ==> Valid(m1))
  {
    WriteKeeps(m, name, value);
  }

  /** Any attribute write, with the reaction it triggers, keeps the
      invariant. */
  lemma ValidSetAttribute(m: Modal, name: string, value: Option<string>, env: Env)
    requires Valid(m)
    ensures Valid(SetAttribute(m, name, value, env))
  {
    var key := AttributeName(name);
    if key == ACTIVE {
      AttributeNameCase(m, name, value, env);
      ValidActiveWrite(m, value, env);
    } else {
      OtherWriteEffect(m, name, value, env);
      ValidOtherReaction(m, key, value);
    }
  }

  // ---------------------------------------------------------------------
  // Opening and closing through the `active` attribute.
  // ---------------------------------------------------------------------

  /** `setAttribute('active', 'true')` on a built, closed modal shows it
      once: the mirror write stores the same text, so there is no second
      pass. One lock, one dialog focus request, one show timer. */
  lemma {:induction false} ActiveAttributeOpens(m: Modal, env: Env)
    requires Valid(m) && m.isBuilt && !m.isActive
    ensures var r := SetAttribute(m, ACTIVE, Some(TRUE), env);
      r.isActive && r.attrs == m.attrs[ACTIVE := TRUE] &&
      r.config == m.config && r.dom == m.dom && r.out.closeEvents == m.out.closeEvents &&
      r.classes == m.classes + {Visible} + MotionClass(IsMotionOkay(m, env), Show) &&
      r.out.scrollLog == m.out.scrollLog + [Lock] &&
      r.out.focusLog == m.out.focusLog + [RequestDialogFocus] &&
      r.timers == ArmShow(m.timers, Delay(m, env))
  {
    ActiveWriteToggles(m, Some(TRUE), env);
    var n := m.(attrs := m.attrs[ACTIVE := TRUE], isActive := true);
    assert Mirrored(n);
    ToggleBuilt(n, env, FocusModalIfActive);
    ShowStep(n, env, FocusModalIfActive);
  }

  /** Any other write to `active` (including removing it) on a built, open
      visible modal hides it without a `close` event and without asking
      for the focus back. The mirror write stores "false", which re-enters
      unless "false" was the text written, so there are one or two hide
      timers. */
  lemma {:induction false} ActiveAttributeCloses(m: Modal, value: Option<string>, env: Env)
    requires Valid(m) && m.isBuilt && m.isActive && Visible in m.classes && value != Some(TRUE)
    ensures var r := SetAttribute(m, ACTIVE, value, env);
      !r.isActive && r.attrs == m.attrs[ACTIVE := FALSE] &&
      r.config == m.config && r.dom == m.dom && r.out.closeEvents == m.out.closeEvents &&
      r.classes == m.classes + MotionClass(IsMotionOkay(m, env), Hide) &&
      r.out.scrollLog == m.out.scrollLog &&
      r.out.focusLog == m.out.focusLog &&
      r.timers == if value == Some(FALSE) then ArmHide(m.timers, Delay(m, env))
                  else ArmHide(ArmHide(m.timers, Delay(m, env)), Delay(m, env))
  {
    ActiveWriteToggles(m, value, env);
    var n := m.(attrs := WriteAttribute(m.attrs, ACTIVE, value), isActive := false);
    ToggleBuilt(n, env, FocusModalIfActive);
    if value == Some(FALSE) {
      assert Mirrored(n);
      HideStep(n, env, FocusModalIfActive);
    } else {
      var w := WithMirror(n);
      MirrorAfterWrite(m.attrs, value, FALSE);
      assert w.attrs == m.attrs[ACTIVE := FALSE];
      HideStep(w, env, FocusModalIfActive);
      HideStep(ShowOrHide(w, env, FocusModalIfActive), env, FocusModalIfActive);
    }
  }

  /** Writing `active` and then the mirror leaves the mirror's text. */
  lemma MirrorAfterWrite(attrs: Attrs, value: Option<string>, text: string)
    ensures WriteAttribute(attrs, ACTIVE, value)[ACTIVE := text] == attrs[ACTIVE := text]
  {
  }

  // ---------------------------------------------------------------------
  // `connectedCallback`.
  // ---------------------------------------------------------------------

  /** After the first part of `connectedCallback` the structure exists, the
      flags and texts follow the attributes, and the close button exists
      exactly when the modal is closable and shows its icon. */
  lemma BuildAndApplyEffects(m: Modal, heading: Option<string>)
    requires Valid(m) && !m.isBuilt
    ensures var b := BuildAndApply(m, heading);
      Core(b) && Reconciled(b) && b.dom.hasStructure && !b.isBuilt &&
      b.attrs == m.attrs && b.isActive == m.isActive && b.classes == {} && b.out == m.out &&
      b.config == Config(AnimatedFlag(m.attrs), StaticFlag(m.attrs), ClosableFlag(m.attrs),
                         ShowIconFlag(m.attrs), NoClickFlag(m.attrs)) &&
      b.dom.hasCloseButton == (ClosableFlag(m.attrs) && ShowIconFlag(m.attrs)) &&
      b.dom.ariaLabel == Some(Label.ModalLabel(heading)) &&
      b.dom.description == Description(m.attrs)
  {
  }

  /** `_setActiveFlag` on a freshly built modal that shows nothing yet:
      it opens exactly when `active` is the text "true". */
  lemma {:induction false} FirstActiveFlag(b: Modal, env: Env)
    requires Core(b) && Reconciled(b) && b.dom.hasStructure && b.classes == {}
    ensures var t := SetActiveFlag(b, env);
      Core(t) && Reconciled(t) && Mirrored(t) &&
      t.isActive == ActiveFlag(b.attrs) && t.attrs == b.attrs[ACTIVE := BoolText(ActiveFlag(b.attrs))] &&
      t.isBuilt == b.isBuilt && t.config == b.config && t.dom == b.dom && t.out.closeEvents == b.out.closeEvents &&
      (Visible in t.classes <==> ActiveFlag(b.attrs)) &&
      t.out.scrollLog == b.out.scrollLog + (if ActiveFlag(b.attrs) then [Lock] else []) &&
      t.out.focusLog == b.out.focusLog + (if ActiveFlag(b.attrs) then [RequestDialogFocus] else [])
  {
    var n := b.(isActive := ActiveFlag(b.attrs));
    assert SetActiveFlag(b, env) == ToggleModalDisplay(n, env, FocusModalIfActive);
    ToggleKeeps(n, env, FocusModalIfActive);
    ToggleBuilt(n, env, FocusModalIfActive);
    MirrorKeepsReconciled(n);
    if ActiveFlag(b.attrs) {
      ShowStep(n, env, FocusModalIfActive);
    } else if Mirrored(n) {
      QuietStep(n, env, FocusModalIfActive);
    } else {
      QuietStep(WithMirror(n), env, FocusModalIfActive);
    }
  }

  /** The first `connectedCallback`: the modal is built, every flag and text
      follows the attributes, and the modal opens exactly when `active` is
      the text "true" (one lock, one dialog focus request); otherwise
      nothing is shown, locked or focused. */
  lemma {:induction false} ConnectEffects(m: Modal, heading: Option<string>, env: Env)
    requires Valid(m) && !m.isBuilt
    ensures var r := Connect(m, heading, env);
      Valid(r) && r.isBuilt &&
      r.isActive == ActiveFlag(m.attrs) && r.attrs == m.attrs[ACTIVE := BoolText(ActiveFlag(m.attrs))] &&
      r.config == Config(AnimatedFlag(m.attrs), StaticFlag(m.attrs), ClosableFlag(m.attrs),
                         ShowIconFlag(m.attrs), NoClickFlag(m.attrs)) &&
      r.dom.hasCloseButton == (ClosableFlag(m.attrs) && ShowIconFlag(m.attrs)) &&
      (r.dom.hasCloseButton ==> r.dom.closeTitle == Some(CloseTitle(m.attrs))) &&
      r.dom.ariaLabel == Some(Label.ModalLabel(heading)) &&
      r.dom.description == Description(m.attrs) &&
      r.out.closeEvents == m.out.closeEvents &&
      (Visible in r.classes <==> ActiveFlag(m.attrs)) &&
      r.out.scrollLog == (if ActiveFlag(m.attrs) then [Lock] else []) &&
      r.out.focusLog == m.out.focusLog + (if ActiveFlag(m.attrs) then [RequestDialogFocus] else [])
  {
    var b := BuildAndApply(m, heading);
    BuildAndApplyEffects(m, heading);
    FirstActiveFlag(b, env);
    var t := SetActiveFlag(b, env);
    assert Connect(m, heading, env) == t.(isBuilt := true);
  }

  /** `connectedCallback` builds once: every later call leaves the state as
      it is. */
  lemma ConnectOnce(m: Modal, heading: Option<string>, heading2: Option<string>, env: Env, env2: Env)
    requires Valid(m)
    ensures var r := Connect(m, heading, env);
      r.isBuilt && Connect(r, heading2, env2) == r
  {
    if !m.isBuilt {
      ConnectEffects(m, heading, env);
    }
  }

  /** Showing or hiding leaves the attributes, the flags, the DOM texts and
      the count of `close` events alone. */
  lemma ShowOrHideSetup(m: Modal, env: Env, cb: Callback)
    ensures SameSetup(ShowOrHide(m, env, cb), m)
  {
  }

  /** Whatever the state, `_toggleModalDisplay` keeps `isActive`, the
      flags, the DOM texts and the count of `close` events. */
  lemma ToggleKeepsFlag(m: Modal, env: Env, cb: Callback)
    ensures var t := ToggleModalDisplay(m, env, cb);
      t.isActive == m.isActive && t.isBuilt == m.isBuilt && t.config == m.config && t.dom == m.dom &&
      t.out.closeEvents == m.out.closeEvents
  {
    if m.dom.hasStructure {
      ToggleBuilt(m, env, cb);
      if Mirrored(m) {
        ShowOrHideSetup(m, env, cb);
      } else {
        var u := ShowOrHide(WithMirror(m), env, FocusModalIfActive);
        ShowOrHideSetup(WithMirror(m), env, FocusModalIfActive);
        ShowOrHideSetup(u, env, cb);
      }
    }
  }

  /** `close` always leaves the modal inactive and emits one `close`
      event, whether or not it is built; `open` always leaves it active and
      emits nothing. */
  lemma OpenCloseFlag(m: Modal, env: Env)
    ensures !Close(m, env).isActive && Close(m, env).out.closeEvents == m.out.closeEvents + 1
    ensures Open(m, env).isActive && Open(m, env).out.closeEvents == m.out.closeEvents
  {
    ToggleKeepsFlag(m.(isActive := false), env, RestoreFocus);
    ToggleKeepsFlag(m.(isActive := true), env, FocusModal);
  }

  // ---------------------------------------------------------------------
  // User input.
  // ---------------------------------------------------------------------

  /** While the modal is inactive, key presses do nothing. */
  lemma KeyDownInactive(m: Modal, key: string, env: Env, v: DomView)
    requires !m.isActive
    ensures HandleKeyDown(m, key, env, v) == m
  {
  }

  /** On an active modal, a key press emits `close` exactly when it is
      Escape in any case, no transition runs, the modal is not static and
      it is closable; the modal is then inactive, and otherwise still
      active. */
  lemma {:induction false} KeyDownCloses(m: Modal, key: string, env: Env, v: DomView)
    requires m.isActive
    ensures var r := HandleKeyDown(m, key, env, v);
      var closes := Dismissal.IsEscape(key) && !m.isHideShow && !m.config.isStatic && m.config.closable;
      (r.out.closeEvents == m.out.closeEvents + 1 <==> closes) &&
      (r.out.closeEvents == m.out.closeEvents <==> !closes) &&
      (r.isActive <==> !closes) &&
      (!closes && !Dismissal.IsTab(key) ==> r == m)
  {
    assert Dismissal.TAB != Dismissal.ESCAPE;
    var closes := Dismissal.EscapeCloses(m.isActive, PolicyOf(m), key);
    if closes {
      OpenCloseFlag(m, env);
      assert !Dismissal.IsTab(key);
      assert HandleKeyDown(m, key, env, v) == Close(m, env);
    } else {
      var r := HandleKeyDown(m, key, env, v);
      assert r == m || r == HandleFocusIn(m, env, v);
    }
  }

  /** On an active modal, Tab in any case runs the focus handler; any key
      other than Escape and Tab does nothing. */
  lemma {:induction false} KeyDownTab(m: Modal, key: string, env: Env, v: DomView)
    requires m.isActive
    ensures Dismissal.IsTab(key) ==> HandleKeyDown(m, key, env, v) == HandleFocusIn(m, env, v)
    ensures !Dismissal.IsTab(key) && !Dismissal.IsEscape(key) ==> HandleKeyDown(m, key, env, v) == m
  {
    assert Dismissal.TAB != Dismissal.ESCAPE;
  }

  /** The focus handler only asks for focus moves, and every element it
      sends focus to lies in the dialog. */
  lemma FocusInStaysInDialog(m: Modal, env: Env, v: DomView)
    requires WellFormed(v)
    ensures var r := HandleFocusIn(m, env, v);
      r == m.(out := r.out) && r.out == m.out.(focusLog := r.out.focusLog) &&
      |r.out.focusLog| - |m.out.focusLog| <= 1 &&
      r.out.focusLog[..|m.out.focusLog|] == m.out.focusLog &&
      forall i :: |m.out.focusLog| <= i < |r.out.focusLog| && r.out.focusLog[i].RequestElementFocus? ==>
        r.out.focusLog[i].element in v.dialog
  {
    RedirectsLandInDialog(m.isActive, m.dom.hasStructure, env.focused, v);
  }

  /** A click closes the modal through the overlay exactly when the gate of
      `_handleClickOverlay` lets it; otherwise nothing changes. */
  lemma ClickOverlayCloses(m: Modal, targetIsOverlay: bool, env: Env)
    ensures var r := HandleClickOverlay(m, targetIsOverlay, env);
      var closes := !m.isHideShow && !m.config.isStatic && !m.config.noClick && m.config.closable && targetIsOverlay;
      (closes ==> r == Close(m, env) && r.out.closeEvents == m.out.closeEvents + 1 && !r.isActive) &&
      (!closes ==> r == m)
  {
    OpenCloseFlag(m, env);
  }

  /** A modal built as not closable can be dismissed by the user in no
      way: it has no close button, Escape does not close it and overlay
      clicks do nothing. */
  lemma {:induction false} NotClosableStaysOpen(m: Modal, key: string, targetIsOverlay: bool, env: Env, v: DomView)
    requires Valid(m) && m.isBuilt && !m.config.closable
    ensures !m.dom.hasCloseButton
    ensures HandleClickOverlay(m, targetIsOverlay, env) == m
    ensures HandleKeyDown(m, key, env, v).isActive == m.isActive
    ensures HandleKeyDown(m, key, env, v).out.closeEvents == m.out.closeEvents
    ensures !Dismissal.IsTab(key) ==> HandleKeyDown(m, key, env, v) == m
  {
    if m.isActive {
      KeyDownCloses(m, key, env, v);
    }
  }

  // ---------------------------------------------------------------------
  // Any sequence of calls keeps the invariant.
  // ---------------------------------------------------------------------

  /** What can reach the component: attribute writes, connection, the two
      public methods, timers firing, and user input to the handlers the
      component attaches. */
  datatype Event =
    | WriteAttr(name: string, value: Option<string>)
    | Connected(heading: Option<string>)
    | OpenCall
    | CloseCall
    | ShowTimerFires(id: nat)
    | HideTimerFires(id: nat)
    | KeyDown(key: string, view: DomView)
    | FocusIn(view: DomView)
    | OverlayClick(targetIsOverlay: bool)
    | CloseButtonClick

  /** User input, as opposed to the page's calls and the timers. */
  predicate IsUserInput(e: Event) {
    e.KeyDown? || e.FocusIn? || e.OverlayClick? || e.CloseButtonClick?
  }

  /** One event. A timer runs only while it is armed and not cleared; the
      document listeners exist once the modal is built, the overlay's once
      the structure exists, the close button's only with the button. */
  function Step(m: Modal, e: Event, env: Env): Modal {
    match e
    case WriteAttr(name, value) => SetAttribute(m, name, value, env)
    case Connected(heading) => Connect(m, heading, env)
    case OpenCall => Open(m, env)
    case CloseCall => Close(m, env)
    case ShowTimerFires(id) => if id in m.timers.pendingShow then FireShowTimer(m, id) else m
    case HideTimerFires(id) => if id in m.timers.pendingHide then FireHideTimer(m, id) else m
    case KeyDown(key, v) => if m.isBuilt then HandleKeyDown(m, key, env, v) else m
    case FocusIn(v) => if m.isBuilt then HandleFocusIn(m, env, v) else m
    case OverlayClick(t) => if m.dom.hasStructure then HandleClickOverlay(m, t, env) else m
    case CloseButtonClick => if m.dom.hasCloseButton then HandleClickClose(m, env) else m
  }

  /** A sequence of events, each with what the browser reports at the
      time. */
  function Run(m: Modal, events: seq<(Event, Env)>): Modal
    decreases |events|
  {
    if events == [] then m else Run(Step(m, events[0].0, events[0].1), events[1..])
  }

  /** The focus handler keeps the invariant. */
  lemma ValidFocusIn(m: Modal, env: Env, v: DomView)
    requires Valid(m)
    ensures Valid(HandleFocusIn(m, env, v))
  {
  }

  /** Key presses keep the invariant. */
  lemma ValidKeyDown(m: Modal, key: string, env: Env, v: DomView)
    requires Valid(m)
    ensures Valid(HandleKeyDown(m, key, env, v))
  {
    if m.isActive {
      var m1 := if Dismissal.EscapeCloses(m.isActive, PolicyOf(m), key) then Close(m, env) else m;
      ValidClose(m, env);
      ValidFocusIn(m1, env, v);
    }
  }

  /** Overlay clicks keep the invariant. */
  lemma ValidClickOverlay(m: Modal, targetIsOverlay: bool, env: Env)
    requires Valid(m)
    ensures Valid(HandleClickOverlay(m, targetIsOverlay, env))
  {
    ValidClose(m, env);
  }

  /** Connection keeps the invariant. */
  lemma ValidConnect(m: Modal, heading: Option<string>, env: Env)
    requires Valid(m)
    ensures Valid(Connect(m, heading, env))
  {
    if !m.isBuilt {
      ConnectEffects(m, heading, env);
    }
  }

  /** Every event keeps the invariant. */
  lemma ValidStep(m: Modal, e: Event, env: Env)
    requires Valid(m)
    ensures Valid(Step(m, e, env))
  {
    match e
    case WriteAttr(name, value) => ValidSetAttribute(m, name, value, env);
    case Connected(heading) => ValidConnect(m, heading, env);
    case OpenCall => ValidOpen(m, env);
    case CloseCall => ValidClose(m, env);
    case ShowTimerFires(id) => if id in m.timers.pendingShow { ValidFireShow(m, id); }
    case HideTimerFires(id) => if id in m.timers.pendingHide { ValidFireHide(m, id); }
    case KeyDown(key, v) => ValidKeyDown(m, key, env, v);
    case FocusIn(v) => ValidFocusIn(m, env, v);
    case OverlayClick(t) => ValidClickOverlay(m, t, env);
    case CloseButtonClick => ValidClose(m, env);
  }

  /** The invariant holds after any sequence of events from a new
      component: in particular, once built, `active` always reads back as
      the text of `isActive`, and the exiting animation never outlives the
      visible class. */
  lemma {:induction false} ValidRun(m: Modal, events: seq<(Event, Env)>)
    requires Valid(m)
    ensures Valid(Run(m, events))
    decreases |events|
  {
    if events != [] {
      ValidStep(m, events[0].0, events[0].1);
      ValidRun(Step(m, events[0].0, events[0].1), events[1..]);
    }
  }

  /** The new component satisfies the invariant. */
  lemma ValidInitial()
    ensures Valid(Initial()) && !Initial().isBuilt && !Initial().isActive
  {
  }

  /** Built as not closable and open, no user input closes the modal or
      emits `close`. */
  lemma {:induction false} NotClosableRun(m: Modal, events: seq<(Event, Env)>)
    requires Valid(m) && m.isBuilt && m.isActive && !m.config.closable
    requires forall i :: 0 <= i < |events| ==> IsUserInput(events[i].0)
    ensures Run(m, events).isActive && Run(m, events).out.closeEvents == m.out.closeEvents
    ensures Valid(Run(m, events)) && !Run(m, events).config.closable
    decreases |events|
  {
    if events != [] {
      var e := events[0].0;
      var env := events[0].1;
      var n := Step(m, e, env);
      ValidStep(m, e, env);
      assert IsUserInput(events[0].0);
      var none := DomView(0, 0, {}, {}, []);
      if e.KeyDown? {
        NotClosableStaysOpen(m, e.key, false, env, e.view);
      } else if e.OverlayClick? || e.CloseButtonClick? {
        NotClosableStaysOpen(m, "", if e.OverlayClick? then e.targetIsOverlay else false, env, none);
      }
      assert n.isActive && n.out.closeEvents == m.out.closeEvents && n.isBuilt && !n.config.closable;
      NotClosableRun(n, events[1..]);
    }
  }

  // ---------------------------------------------------------------------
  // Timers and the motion gate.
  // ---------------------------------------------------------------------

  /** The delay is the animation duration exactly when animation is on (the
      `animated` attribute is not the text "false") and the user does not
      prefer reduced motion; otherwise it is 0. */
  lemma MotionGate(m: Modal, env: Env)
    requires Valid(m)
    ensures Delay(m, env) == ANIMATION_DURATION <==> GetAttribute(m.attrs, ANIMATED) != Some(FALSE) && !env.reducedMotion
    ensures Delay(m, env) != ANIMATION_DURATION ==> Delay(m, env) == 0
    ensures IsMotionOkay(m, env) <==> Delay(m, env) == ANIMATION_DURATION
  {
  }

  /** A show timer firing ends the entering animation: `modal-show` is gone,
      no transition runs, the timer and the one in the show slot are
      cancelled; nothing else changes: the focused element, both slots
      (`clearTimeout` does not empty them) and the next timer id stay. */
  lemma FireShowEffects(m: Modal, id: nat)
    requires Valid(m) && m.isBuilt && id in m.timers.pendingShow
    ensures var r := FireShowTimer(m, id);
      r.classes == m.classes - {Show} && !r.isHideShow &&
      id !in r.timers.pendingShow &&
      (m.timers.timerForShow.Some? ==> m.timers.timerForShow.value !in r.timers.pendingShow) &&
      (forall k :: k in r.timers.pendingShow <==> k in m.timers.pendingShow && k != id && Some(k) != m.timers.timerForShow) &&
      r.timers.pendingHide == m.timers.pendingHide &&
      r.out == m.out && SameSetup(r, m) &&
      r == m.(classes := r.classes, isHideShow := false,
              timers := m.timers.(pendingShow := r.timers.pendingShow))
  {
  }

  /** A hide timer firing ends the exit: `modal-hide` and `modal-visible`
      are gone, no transition runs, one unlock is issued, the timer and the
      one in the hide slot are cancelled; nothing else changes: the focused
      element, both slots and the next timer id stay. */
  lemma FireHideEffects(m: Modal, id: nat)
    requires Valid(m) && m.isBuilt && id in m.timers.pendingHide
    ensures var r := FireHideTimer(m, id);
      r.classes == m.classes - {Hide, Visible} && !r.isHideShow &&
      r.out.scrollLog == m.out.scrollLog + [Unlock] &&
      r.out.focusLog == m.out.focusLog &&
      id !in r.timers.pendingHide &&
      (forall k :: k in r.timers.pendingHide <==> k in m.timers.pendingHide && k != id && Some(k) != m.timers.timerForHide) &&
      r.timers.pendingShow == m.timers.pendingShow &&
      SameSetup(r, m) &&
      r == m.(classes := r.classes, isHideShow := false,
              timers := m.timers.(pendingHide := r.timers.pendingHide),
              out := m.out.(scrollLog := r.out.scrollLog))
  {
  }

  // ---------------------------------------------------------------------
  // Scenarios.
  // ---------------------------------------------------------------------

  /** `open` then `close` on a quiet closed modal: the re-entrant passes
      arm two show and then two hide timers; with motion both animation
      classes are on at once. */
  lemma {:induction false} OpenThenClose(m: Modal, env: Env)
    requires Valid(m) && m.isBuilt && !m.isActive && m.classes == {}
    ensures var r := Close(Open(m, env), env);
      var d := Delay(m, env);
      Valid(r) && r.isBuilt && !r.isActive && GetAttribute(r.attrs, ACTIVE) == Some(FALSE) &&
      r.classes == {Visible} + MotionClass(IsMotionOkay(m, env), Show) + MotionClass(IsMotionOkay(m, env), Hide) &&
      r.timers == ArmHide(ArmHide(ArmShow(ArmShow(m.timers, d), d), d), d) &&
      r.out.scrollLog == m.out.scrollLog + [Lock, Lock] &&
      r.out.closeEvents == m.out.closeEvents + 1
  {
    var r1 := Open(m, env);
    OpenWhileClosed(m, env);
    ValidOpen(m, env);
    CloseWhileOpen(r1, env);
    ValidClose(r1, env);
    assert Delay(r1, env) == Delay(m, env);
  }

  /** After two show and two hide timers were armed in a row, firing the
      first of each cancels the other, restoring the armed timers, and the
      exit removes every class and unlocks once. */
  lemma FireFirstTwins(r: Modal, t: Timers, d: nat)
    requires TimersOk(t) && r.dom.hasStructure && r.timers == ArmHide(ArmHide(ArmShow(ArmShow(t, d), d), d), d)
    ensures t.nextTimer in r.timers.pendingShow
    ensures var r3 := FireShowTimer(r, t.nextTimer);
      t.nextTimer + 2 in r3.timers.pendingHide &&
      var r4 := FireHideTimer(r3, t.nextTimer + 2);
      r4.classes == {} && !r4.isHideShow && r4.attrs == r.attrs && r4.isActive == r.isActive &&
      r4.timers.pendingShow == t.pendingShow && r4.timers.pendingHide == t.pendingHide &&
      r4.out.scrollLog == r.out.scrollLog + [Unlock] && r4.out.closeEvents == r.out.closeEvents
  {
    var n := t.nextTimer;
    assert n !in t.pendingShow && n + 1 !in t.pendingShow;
    assert n + 2 !in t.pendingHide && n + 3 !in t.pendingHide;
    var r3 := FireShowTimer(r, n);
    assert r3.timers.pendingShow == t.pendingShow;
    var r4 := FireHideTimer(r3, n + 2);
    assert r4.timers.pendingHide == t.pendingHide;
    forall c | c in r4.classes ensures false {
      if c.Visible? || c.Show? || c.Hide? { assert false; }
    }
  }

  /** A full cycle in the order the browser runs it (timers of equal delay
      fire in the order they were armed): `open`, `close`, the first show
      timer, the first hide timer. Each first timer cancels its twin, so the
      classes and the armed timers are back where they were, but the
      re-entrant `open` locked scrolling twice and the exit unlocks once. */
  lemma {:induction false} OpenCloseCycle(m: Modal, env: Env)
    requires Valid(m) && m.isBuilt && !m.isActive && m.classes == {}
    ensures var n := m.timers.nextTimer;
      var r2 := Close(Open(m, env), env);
      n in r2.timers.pendingShow &&
      var r3 := FireShowTimer(r2, n);
      n + 2 in r3.timers.pendingHide &&
      var r4 := FireHideTimer(r3, n + 2);
      r4.classes == {} && !r4.isActive && !r4.isHideShow &&
      GetAttribute(r4.attrs, ACTIVE) == Some(FALSE) &&
      r4.timers.pendingShow == m.timers.pendingShow && r4.timers.pendingHide == m.timers.pendingHide &&
      r4.out.scrollLog == m.out.scrollLog + [Lock, Lock, Unlock] &&
      r4.out.closeEvents == m.out.closeEvents + 1
  {
    OpenThenClose(m, env);
    FireFirstTwins(Close(Open(m, env), env), m.timers, Delay(m, env));
  }

  /** Re-opening does not cancel the hide timers of the `close` before it:
      when the first of them fires, the modal is active and its `active`
      attribute says "true", yet `modal-visible` is gone and scrolling is
      unlocked. */
  lemma {:induction false} StaleHideTimer(m: Modal, env: Env)
    requires Valid(m) && m.isBuilt && m.isActive && Visible in m.classes
    ensures var n := m.timers.nextTimer;
      var r2 := Open(Close(m, env), env);
      n in r2.timers.pendingHide &&
      var r3 := FireHideTimer(r2, n);
      r3.isActive && GetAttribute(r3.attrs, ACTIVE) == Some(TRUE) &&
      Visible !in r3.classes &&
      r3.out.scrollLog == r2.out.scrollLog + [Unlock]
  {
    var n := m.timers.nextTimer;
    var r1 := Close(m, env);
    CloseWhileOpen(m, env);
    ValidClose(m, env);
    assert n in r1.timers.pendingHide;
    var r2 := Open(r1, env);
    OpenWhileClosed(r1, env);
    ValidOpen(r1, env);
    FireHideEffects(r2, n);
  }

  /** The component's first test: a modal with a heading, connected, then
      opened and closed. The label is the heading's text, `open` makes
      `active` read "true" and `close` makes it read "false" at once. */
  lemma {:induction false} BasicsScenario(env: Env)
    ensures var m0 := Initial().(attrs := map["id" := "test-modal"]);
      var m1 := Connect(m0, Some("Test Modal"), env);
      var m2 := Open(m1, env);
      var m3 := Close(m2, env);
      m1.dom.ariaLabel == Some("Test Modal") && !m1.isActive &&
      GetAttribute(m2.attrs, ACTIVE) == Some(TRUE) && m2.isActive &&
      GetAttribute(m3.attrs, ACTIVE) == Some(FALSE) && !m3.isActive &&
      m3.out.closeEvents == 1
  {
    var m0 := Initial().(attrs := map["id" := "test-modal"]);
    ValidInitial();
    assert Valid(m0) && !ActiveFlag(m0.attrs);
    var m1 := Connect(m0, Some("Test Modal"), env);
    ConnectEffects(m0, Some("Test Modal"), env);
    Label.TestHeadingLabel();
    var m2 := Open(m1, env);
    OpenWhileClosed(m1, env);
    ValidOpen(m1, env);
    CloseWhileOpen(m2, env);
  }
}
