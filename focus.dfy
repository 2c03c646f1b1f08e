/**
 * The focus trap: where `_handleFocusIn` sends focus after it moved
 * (src/index.ts). Elements are abstract identities; the structure of the
 * page is given by which elements lie inside the component and inside the
 * dialog, the two sentinel elements around the dialog, and the focusable
 * elements of the dialog in document order.
 */
module FocusTrap {
  import opened Wrappers

  type ElementId = nat

  /** What the page looks like to the focus handler. */
  datatype DomView = DomView(
    trap1: ElementId,               // sentinel before the dialog
    trap2: ElementId,               // sentinel after the dialog
    component: set<ElementId>,      // the `<modal-window>` element and its subtree
    dialog: set<ElementId>,         // the dialog element and its subtree
    focusables: seq<ElementId>)     // focusable elements of the dialog, in order

  /** The shape the component builds: two distinct sentinels inside the
      component but outside the dialog, the dialog inside the component, and
      the focusable elements inside the dialog. */
  predicate WellFormed(v: DomView) {
    v.trap1 != v.trap2 &&
    v.trap1 in v.component && v.trap2 in v.component &&
    v.trap1 !in v.dialog && v.trap2 !in v.dialog &&
    v.dialog <= v.component &&
    forall i :: 0 <= i < |v.focusables| ==> v.focusables[i] in v.dialog
  }

  /** The focus move `_handleFocusIn` requests. */
  datatype FocusAction =
    | NoAction
    | FocusLast(target: ElementId)    // `_focusElement(focusItemLast)`
    | FocusFirst(target: ElementId)   // `_focusElement(focusItemFirst)`
    | FocusDialog                     // `_focusModal()`

  /** `_isOutsideModal`: false when inactive, when there is no element or no
      dialog; otherwise whether the element lies outside both the component
      and the dialog. */
  predicate IsOutsideModal(isActive: bool, hasDialog: bool, element: Option<ElementId>, v: DomView) {
    if !isActive || element.None? || !hasDialog then false
    else !(element.value in v.component || element.value in v.dialog)
  }

  /** `_handleFocusIn`, given the element that now has focus. */
  function FocusInDecision(isActive: bool, hasDialog: bool, focused: Option<ElementId>, v: DomView): FocusAction {
    if !isActive || !hasDialog then NoAction
    else if focused == Some(v.trap1) && |v.focusables| > 0 then FocusLast(v.focusables[|v.focusables| - 1])
    else if focused == Some(v.trap2) && |v.focusables| > 0 then FocusFirst(v.focusables[0])
    else if IsOutsideModal(isActive, hasDialog, focused, v) then FocusDialog
    else NoAction
  }

  /** Inactive, or without a dialog, the handler does nothing. */
  lemma InactiveDoesNothing(isActive: bool, hasDialog: bool, focused: Option<ElementId>, v: DomView)
    requires !isActive || !hasDialog
    ensures FocusInDecision(isActive, hasDialog, focused, v) == NoAction
  {
  }

  /** Reaching the leading sentinel wraps to the last focusable element,
      reaching the trailing one wraps to the first one. */
  lemma SentinelsWrap(focused: ElementId, v: DomView)
    requires WellFormed(v) && |v.focusables| > 0
    ensures focused == v.trap1 ==>
      FocusInDecision(true, true, Some(focused), v) == FocusLast(v.focusables[|v.focusables| - 1])
    ensures focused == v.trap2 ==>
      FocusInDecision(true, true, Some(focused), v) == FocusFirst(v.focusables[0])
  {
  }

  /** Every focus move the handler requests lands inside the dialog. */
  lemma RedirectsLandInDialog(isActive: bool, hasDialog: bool, focused: Option<ElementId>, v: DomView)
    requires WellFormed(v)
    ensures match FocusInDecision(isActive, hasDialog, focused, v)
      case FocusLast(t) => t in v.dialog && t == v.focusables[|v.focusables| - 1]
      case FocusFirst(t) => t in v.dialog && t == v.focusables[0]
      case _ => true
  {
  }

  /** While the modal is active, focus that escaped the component is always
      sent back to the dialog, focus inside the component is never moved
      except from a sentinel, and with nothing focused nothing happens. */
  lemma OutsideFocusReturns(focused: Option<ElementId>, v: DomView)
    requires WellFormed(v)
    ensures focused.None? ==> FocusInDecision(true, true, focused, v) == NoAction
    ensures focused.Some? && focused.value !in v.component ==>
      FocusInDecision(true, true, focused, v) == FocusDialog
    ensures focused.Some? && focused.value in v.component && focused.value != v.trap1 && focused.value != v.trap2
      ==> FocusInDecision(true, true, focused, v) == NoAction
  {
  }

  /** On a sentinel with nothing focusable in the dialog, focus stays where
      it is: the sentinel lies inside the component. */
  lemma EmptyDialogKeepsSentinelFocus(focused: ElementId, v: DomView)
    requires WellFormed(v) && v.focusables == []
    requires focused == v.trap1 || focused == v.trap2
    ensures FocusInDecision(true, true, Some(focused), v) == NoAction
  {
  }
}
