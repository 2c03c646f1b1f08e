/**
 * The `ModalWindow` custom element (src/index.ts) as a class whose methods
 * update its fields step by step, as the component does. Every method is
 * proved to leave the object in the state the transition of the same name
 * in modal_state.dfy gives, so everything proved about those transitions
 * holds of the object.
 */
module Component {
  import opened Wrappers
  import opened Attributes
  import opened FocusTrap
  import opened ModalState
  import Label
  import Dismissal
  import ModalProperties

  class ModalWindow {
    // The host element's attributes.
    var attrs: Attrs
    // The component's own fields; the flags read from attributes are kept
    // together in `config` and the two timer slots in `timers`.
    var isActive: bool
    var isBuilt: bool
    var isHideShow: bool
    var activeElement: Option<ElementId>
    var config: Config
    // The DOM the component builds, as far as the state machine sees it,
    // and the classes of its scroll container.
    var dom: Dom
    var classes: set<ScrollClass>
    // The timer slots, the timers armed and not yet run or cleared, and the
    // id the next `setTimeout` returns.
    var timers: Timers
    // What the component asked of the outside world.
    var out: Outside

    /** The state of the object as a value of the model. */
    function Snap(): Modal
      reads this
    {
      Modal(attrs, isActive, isBuilt, isHideShow, activeElement, classes, config, dom, timers, out)
    }

    /** The object is in a state the model's invariant allows. */
    predicate Valid()
      reads this
    {
      ModalState.Valid(Snap())
    }

    /** The field initialisers: a new element with no attributes. */
    constructor ()
      ensures Snap() == Initial() && Valid()
    {
      attrs := map[];
      isActive, isBuilt, isHideShow, activeElement := false, false, false, None;
      config := Config(true, false, true, true, false);
      dom := Dom(false, false, None, None, None);
      classes := {};
      timers := Timers(None, None, map[], map[], 0);
      out := Outside([], [], 0);
      ModalProperties.ValidInitial();
    }

    /** `setAttribute(name, v)`, or `removeAttribute(name)` for `None`,
        with the `attributeChangedCallback` the browser runs before the
        call returns. Both see the lower-cased name. */
    method SetAttribute(name: string, value: Option<string>, env: Env)
      modifies this
      ensures Snap() == ModalState.SetAttribute(old(Snap()), name, value, env)
      ensures old(Valid()) ==> Valid()
      decreases WriteMeasure(Snap(), AttributeName(name), value), 3
    {
      var key := AttributeName(name);
      var oldValue := GetAttribute(attrs, key);
      attrs := WriteAttribute(attrs, key, value);
      if key in OBSERVED {
        AttributeChangedCallback(key, oldValue, value, env);
      }
      if old(Valid()) {
        ModalProperties.ValidSetAttribute(old(Snap()), name, value, env);
      }
    }

    /** `attributeChangedCallback`. */
    method AttributeChangedCallback(name: string, oldValue: Option<string>, newValue: Option<string>, env: Env)
      modifies this
      ensures Snap() == ModalState.AttributeChanged(old(Snap()), name, oldValue, newValue, env)
      decreases ChangeMeasure(Snap(), name, oldValue, newValue), 2
    {
      if oldValue != newValue {
        if name == ACTIVE {
          SetActiveFlag(env);
        } else if name == ANIMATED {
          SetAnimationFlag();
        } else if name == ARIA_DESCRIBEDBY {
          SetModalDescription();
        } else if name == CLOSE {
          SetCloseTitle();
        } else if name == STATIC {
          SetStaticFlag();
        }
      }
    }

    /** `_setAnimationFlag`. */
    method SetAnimationFlag()
      modifies this
      ensures Snap() == old(Snap()).(config := old(config).(isAnimated := AnimatedFlag(attrs)))
    {
      config := config.(isAnimated := AnimatedFlag(attrs));
    }

    /** `_setStaticFlag`. */
    method SetStaticFlag()
      modifies this
      ensures Snap() == old(Snap()).(config := old(config).(isStatic := StaticFlag(attrs)))
    {
      config := config.(isStatic := StaticFlag(attrs));
    }

    /** `_setCloseTitle`. */
    method SetCloseTitle()
      modifies this
      ensures Snap() == ModalState.SetCloseTitle(old(Snap()))
    {
      if dom.hasCloseButton {
        dom := dom.(closeTitle := Some(CloseTitle(attrs)));
      }
    }

    /** `_setModalDescription`. */
    method SetModalDescription()
      modifies this
      ensures Snap() == ModalState.SetModalDescription(old(Snap()))
    {
      if dom.hasStructure {
        dom := dom.(description := Description(attrs));
      }
    }

    /** `_setModalLabel`, given the text of the first heading, if any. */
    method SetModalLabel(heading: Option<string>)
      modifies this
      ensures Snap() == ModalState.SetModalLabel(old(Snap()), heading)
    {
      if dom.hasStructure {
        dom := dom.(ariaLabel := Some(Label.ModalLabel(heading)));
      }
    }

    /** `_setActiveFlag`. */
    method SetActiveFlag(env: Env)
      modifies this
      ensures Snap() == ModalState.SetActiveFlag(old(Snap()), env)
      decreases FlagMeasure(Snap()), 1
    {
      isActive := ActiveFlag(attrs);
      ToggleModalDisplay(env, FocusModalIfActive);
    }

    /** `_toggleModalDisplay`: nothing before the structure exists; otherwise
        write the mirror, which may re-enter through
        `attributeChangedCallback`, then show or hide. */
    method ToggleModalDisplay(env: Env, cb: Callback)
      modifies this
      ensures Snap() == ModalState.ToggleModalDisplay(old(Snap()), env, cb)
      decreases ToggleMeasure(Snap()), 0
    {
      if !dom.hasStructure {
        return;
      }
      ActiveIsLower();
      SetAttribute(ACTIVE, Some(BoolText(isActive)), env);
      ShowOrHide(env, cb);
    }

    /** The part of `_toggleModalDisplay` after the mirror write. */
    method ShowOrHide(env: Env, cb: Callback)
      modifies this
      ensures Snap() == ModalState.ShowOrHide(old(Snap()), env, cb)
    {
      var isModalVisible := Visible in classes;
      if isActive && env.focused.Some? {
        activeElement := env.focused;
      }
      if isActive {
        ShowBranch(env, cb);
      } else if isModalVisible {
        HideBranch(env, cb);
      }
    }

    /** The `_isActive` branch of `_toggleModalDisplay`. */
    method ShowBranch(env: Env, cb: Callback)
      modifies this
      ensures Snap() == ModalState.ShowBranch(old(Snap()), env, cb)
    {
      var isMotionOkay := IsMotionOkay(Snap(), env);
      var delay := if isMotionOkay then ANIMATION_DURATION else 0;
      classes := classes + {Visible};
      out := out.(scrollLog := out.scrollLog + [Lock]);
      if isMotionOkay {
        isHideShow := true;
        classes := classes + {Show};
      }
      out := out.(focusLog := out.focusLog + Requested(cb, isActive, activeElement));
      timers := ArmShow(timers, delay);
    }

    /** The `isModalVisible` branch of `_toggleModalDisplay`. */
    method HideBranch(env: Env, cb: Callback)
      modifies this
      ensures Snap() == ModalState.HideBranch(old(Snap()), env, cb)
    {
      var isMotionOkay := IsMotionOkay(Snap(), env);
      var delay := if isMotionOkay then ANIMATION_DURATION else 0;
      if isMotionOkay {
        isHideShow := true;
        classes := classes + {Hide};
      }
      out := out.(focusLog := out.focusLog + Requested(cb, isActive, activeElement));
      timers := ArmHide(timers, delay);
    }

    /** The show timer `id` runs: its callback clears the slot and ends the
        entering animation. */
    method FireShowTimer(id: nat)
      requires id in timers.pendingShow
      modifies this
      ensures Snap() == ModalState.FireShowTimer(old(Snap()), id)
      ensures old(Valid()) ==> Valid()
    {
      timers := timers.(pendingShow := timers.pendingShow - ({id} + SlotIds(timers.timerForShow)));
      isHideShow := false;
      if dom.hasStructure {
        classes := classes - {Show};
      }
      if old(Valid()) {
        ModalProperties.ValidFireShow(old(Snap()), id);
      }
    }

    /** The hide timer `id` runs: its callback clears the slot, removes the
        hiding classes and unlocks scrolling. */
    method FireHideTimer(id: nat)
      requires id in timers.pendingHide
      modifies this
      ensures Snap() == ModalState.FireHideTimer(old(Snap()), id)
      ensures old(Valid()) ==> Valid()
    {
      timers := timers.(pendingHide := timers.pendingHide - ({id} + SlotIds(timers.timerForHide)));
      isHideShow := false;
      if dom.hasStructure {
        classes := classes - {Hide};
        classes := classes - {Visible};
      }
      out := out.(scrollLog := out.scrollLog + [Unlock]);
      if old(Valid()) {
        ModalProperties.ValidFireHide(old(Snap()), id);
      }
    }

    /** `_buildModal`, as far as the state machine sees it. */
    method BuildModal()
      modifies this
      ensures Snap() == ModalState.BuildModal(old(Snap()))
    {
      dom := dom.(hasStructure := true);
      if config.closable && config.showIcon {
        dom := dom.(hasCloseButton := true);
      }
    }

    /** The part of `connectedCallback` before `_setActiveFlag`: read the
        flags, build, and apply the attributes to what was built. */
    method BuildAndApply(heading: Option<string>)
      modifies this
      ensures Snap() == ModalState.BuildAndApply(old(Snap()), heading)
    {
      config := config.(closable := ClosableFlag(attrs), showIcon := ShowIconFlag(attrs),
                        noClick := NoClickFlag(attrs));
      BuildModal();
      SetAnimationFlag();
      SetCloseTitle();
      SetModalLabel(heading);
      SetModalDescription();
      SetStaticFlag();
    }

    /** `connectedCallback`, given the text of the first heading, if any. */
    method ConnectedCallback(heading: Option<string>, env: Env)
      modifies this
      ensures Snap() == Connect(old(Snap()), heading, env)
      ensures isBuilt
      ensures old(Valid()) ==> Valid()
    {
      if !isBuilt {
        BuildAndApply(heading);
        SetActiveFlag(env);
        isBuilt := true;
      }
      if old(Valid()) {
        ModalProperties.ValidConnect(old(Snap()), heading, env);
      }
    }

    /** `open`. */
    method Open(env: Env)
      modifies this
      ensures Snap() == ModalState.Open(old(Snap()), env)
      ensures isActive && out.closeEvents == old(out.closeEvents)
      ensures old(Valid()) ==> Valid()
    {
      isActive := true;
      ToggleModalDisplay(env, FocusModal);
      ModalProperties.OpenCloseFlag(old(Snap()), env);
      if old(Valid()) {
        ModalProperties.ValidOpen(old(Snap()), env);
      }
    }

    /** `close`. */
    method Close(env: Env)
      modifies this
      ensures Snap() == ModalState.Close(old(Snap()), env)
      ensures !isActive && out.closeEvents == old(out.closeEvents) + 1
      ensures old(Valid()) ==> Valid()
    {
      isActive := false;
      ToggleModalDisplay(env, RestoreFocus);
      out := out.(closeEvents := out.closeEvents + 1);
      ModalProperties.OpenCloseFlag(old(Snap()), env);
      if old(Valid()) {
        ModalProperties.ValidClose(old(Snap()), env);
      }
    }

    /** `_handleClickOverlay`. */
    method HandleClickOverlay(targetIsOverlay: bool, env: Env)
      modifies this
      ensures Snap() == ModalState.HandleClickOverlay(old(Snap()), targetIsOverlay, env)
      ensures old(Valid()) ==> Valid()
    {
      if isHideShow || config.isStatic || config.noClick {
        return;
      }
      if !config.closable {
        return;
      }
      if targetIsOverlay {
        Close(env);
      }
    }

    /** `_handleClickClose`. */
    method HandleClickClose(env: Env)
      modifies this
      ensures Snap() == ModalState.HandleClickClose(old(Snap()), env)
      ensures !isActive && out.closeEvents == old(out.closeEvents) + 1
      ensures old(Valid()) ==> Valid()
    {
      Close(env);
    }

    /** `_handleFocusIn`. */
    method HandleFocusIn(env: Env, v: DomView)
      modifies this
      ensures Snap() == ModalState.HandleFocusIn(old(Snap()), env, v)
      ensures old(Valid()) ==> Valid()
    {
      var action := FocusInDecision(isActive, dom.hasStructure, env.focused, v);
      out := out.(focusLog := out.focusLog + ActionRequests(action));
      if old(Valid()) {
        ModalProperties.ValidFocusIn(old(Snap()), env, v);
      }
    }

    /** `_handleKeyDown`. */
    method HandleKeyDown(key: string, env: Env, v: DomView)
      modifies this
      ensures Snap() == ModalState.HandleKeyDown(old(Snap()), key, env, v)
      ensures old(Valid()) ==> Valid()
    {
      if !isActive {
        return;
      }
      var k := Dismissal.ToLower(key);
      if k == Dismissal.ESCAPE && !isHideShow && !config.isStatic && config.closable {
        Close(env);
      }
      if k == Dismissal.TAB {
        HandleFocusIn(env, v);
      }
    }
  }
}
