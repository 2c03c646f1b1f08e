/**
 * The dismissal policy: when a click on the overlay or a key press closes
 * the modal (`_handleClickOverlay`, `_handleKeyDown`, src/index.ts).
 */
module Dismissal {
  const ESCAPE: string := "escape"
  const TAB: string := "tab"

  /** The flags the gates read. */
  datatype Policy = Policy(isHideShow: bool, isStatic: bool, noClick: bool, closable: bool)

  /** `_handleClickOverlay`: the click closes the modal when no transition
      is running, the modal is neither static nor `noclick`, it is closable,
      and the click landed on the overlay itself (not inside the dialog). */
  predicate OverlayClickCloses(p: Policy, targetIsOverlay: bool) {
    !(p.isHideShow || p.isStatic || p.noClick) && p.closable && targetIsOverlay
  }

  /** `String.prototype.toLowerCase` on one character, restricted to ASCII
      letters. No character outside ASCII lower-cases to a letter of
      "escape" or "tab", so the comparisons below are exact. */
  function LowerChar(c: char): char {
    if 'A' <= c <= 'Z' then (c as int + 32) as char else c
  }

  /** `key.toLowerCase()`, character by character. */
  function ToLower(s: string): (r: string)
    ensures |r| == |s|
    ensures forall i :: 0 <= i < |s| ==> r[i] == LowerChar(s[i])
  {
    if s == [] then [] else [LowerChar(s[0])] + ToLower(s[1..])
  }

  /** `key.toLowerCase() === ESCAPE`. */
  predicate IsEscape(key: string) {
    ToLower(key) == ESCAPE
  }

  /** `key.toLowerCase() === TAB`. */
  predicate IsTab(key: string) {
    ToLower(key) == TAB
  }

  /** `_handleKeyDown`: the key closes the modal when it is active, the key is
      Escape in any letter case, no transition is running, the modal is not
      static, and it is closable. `noclick` plays no part. */
  predicate EscapeCloses(isActive: bool, p: Policy, key: string) {
    isActive && IsEscape(key) && !p.isHideShow && !p.isStatic && p.closable
  }

  /** A key is Escape exactly when it spells "escape" in any mix of letter
      cases. */
  lemma {:induction false} EscapeAnyCase(key: string)
    ensures IsEscape(key) <==>
      |key| == 6 && forall i :: 0 <= i < 6 ==> LowerChar(key[i]) == ESCAPE[i]
  {
    if |key| == 6 && forall i :: 0 <= i < 6 ==> LowerChar(key[i]) == ESCAPE[i] {
      assert ToLower(key) == ESCAPE;
    }
  }

  /** The browser's names "Escape" and "Tab" are recognised. */
  lemma BrowserKeyNames()
    ensures IsEscape("Escape") && IsEscape("ESCAPE") && IsTab("Tab")
    ensures !IsEscape("Esc") && !IsTab("Escape")
  {
    assert ToLower("Escape") == ESCAPE;
    assert ToLower("ESCAPE") == ESCAPE;
    assert ToLower("Tab") == TAB;
    assert ToLower("Esc")[..] != ESCAPE by { assert |ToLower("Esc")| == 3; }
  }

  /** Lower-casing a key again changes nothing, so the gates see the same key. */
  lemma {:induction false} ToLowerIdempotent(s: string)
    ensures ToLower(ToLower(s)) == ToLower(s)
  {
    var r := ToLower(s);
    assert forall i :: 0 <= i < |r| ==> ToLower(r)[i] == r[i];
  }

  /** `closable = false` blocks both user dismissals. */
  lemma ClosableGatesAll(isActive: bool, p: Policy, key: string, targetIsOverlay: bool)
    requires !p.closable
    ensures !OverlayClickCloses(p, targetIsOverlay) && !EscapeCloses(isActive, p, key)
  {
  }

  /** A running transition blocks both user dismissals. */
  lemma TransitionGatesAll(isActive: bool, p: Policy, key: string, targetIsOverlay: bool)
    requires p.isHideShow
    ensures !OverlayClickCloses(p, targetIsOverlay) && !EscapeCloses(isActive, p, key)
  {
  }

  /** `static` blocks both user dismissals. */
  lemma StaticGatesBoth(isActive: bool, p: Policy, key: string, targetIsOverlay: bool)
    requires p.isStatic
    ensures !OverlayClickCloses(p, targetIsOverlay) && !EscapeCloses(isActive, p, key)
  {
  }

  /** `noclick` blocks the overlay click only: Escape decides the same with
      or without it, and with every other gate open Escape still closes. */
  lemma NoClickGatesOnlyOverlay(isActive: bool, p: Policy, key: string, targetIsOverlay: bool)
    requires p.noClick
    ensures !OverlayClickCloses(p, targetIsOverlay)
    ensures EscapeCloses(isActive, p, key) == EscapeCloses(isActive, p.(noClick := false), key)
    ensures isActive && IsEscape(key) && !p.isHideShow && !p.isStatic && p.closable ==>
      EscapeCloses(isActive, p, key)
  {
  }
}
