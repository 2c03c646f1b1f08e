/**
 * The string-valued attributes of the `<modal-window>` element and the way
 * the component turns them into flags and texts (src/index.ts). An element's
 * attributes are a map from name to value; `getAttribute` of an absent name
 * is `None` (JavaScript's `null`).
 */
module Attributes {
  import opened Wrappers

  type Attrs = map<string, string>

  const ACTIVE: string := "active"
  const ANIMATED: string := "animated"
  const ARIA_DESCRIBEDBY: string := "aria-describedby"
  const CLOSE: string := "close"
  const CLOSE_TITLE: string := "Close"
  const CLOSABLE: string := "closable"
  const NO_ICON: string := "no-icon"
  const NOCLICK: string := "noclick"
  const STATIC: string := "static"
  const TRUE: string := "true"
  const FALSE: string := "false"

  /** `element.getAttribute(name)`. */
  function GetAttribute(attrs: Attrs, name: string): Option<string> {
    if name in attrs then Some(attrs[name]) else None
  }

  /** `element.setAttribute(name, v)` for `Some(v)`, `removeAttribute(name)`
      for `None`. */
  function WriteAttribute(attrs: Attrs, name: string, value: Option<string>): (r: Attrs)
    ensures GetAttribute(r, name) == value
    ensures forall n :: n != name ==> GetAttribute(r, n) == GetAttribute(attrs, n)
  {
    match value
    case Some(v) => attrs[name := v]
    case None => attrs - {name}
  }

  /** JavaScript's `String(b)`, the text `setAttribute` stores for a boolean. */
  function BoolText(b: bool): string {
    if b then TRUE else FALSE
  }

  /** `_setActiveFlag`: active only for the exact text "true". */
  predicate ActiveFlag(attrs: Attrs) {
    GetAttribute(attrs, ACTIVE) == Some(TRUE)
  }

  /** `_setAnimationFlag`: animated unless the exact text "false". */
  predicate AnimatedFlag(attrs: Attrs) {
    GetAttribute(attrs, ANIMATED) != Some(FALSE)
  }

  /** `_setStaticFlag`: static only for the exact text "true". */
  predicate StaticFlag(attrs: Attrs) {
    GetAttribute(attrs, STATIC) == Some(TRUE)
  }

  /** Read once when the modal is built: closable unless the exact text
      "false". */
  predicate ClosableFlag(attrs: Attrs) {
    GetAttribute(attrs, CLOSABLE) != Some(FALSE)
  }

  /** Read once when the modal is built: `noclick` counts when present,
      whatever its value. */
  predicate NoClickFlag(attrs: Attrs) {
    NOCLICK in attrs
  }

  /** Read once when the modal is built: the close icon is shown unless
      `no-icon` is present, whatever its value. */
  predicate ShowIconFlag(attrs: Attrs) {
    NO_ICON !in attrs
  }

  /** `_setCloseTitle`: `getAttribute(CLOSE) || CLOSE_TITLE`, so an absent or
      EMPTY `close` attribute gives the default title. */
  function CloseTitle(attrs: Attrs): (title: string)
    ensures title != ""
    ensures GetAttribute(attrs, CLOSE).Some? && attrs[CLOSE] != "" ==> title == attrs[CLOSE]
    ensures GetAttribute(attrs, CLOSE) in {None, Some("")} ==> title == CLOSE_TITLE
  {
    match GetAttribute(attrs, CLOSE)
    case Some(t) => if t != "" then t else CLOSE_TITLE
    case None => CLOSE_TITLE
  }

  /** `_setModalDescription`: the dialog's `aria-describedby` is the host's
      when that is a non-empty text, and is removed otherwise. */
  function Description(attrs: Attrs): (d: Option<string>)
    ensures d != Some("")
    ensures d.Some? <==> ARIA_DESCRIBEDBY in attrs && attrs[ARIA_DESCRIBEDBY] != ""
    ensures d.Some? ==> d.value == attrs[ARIA_DESCRIBEDBY]
  {
    match GetAttribute(attrs, ARIA_DESCRIBEDBY)
    case Some(t) => if t != "" then Some(t) else None
    case None => None
  }

  /** With no attributes at all, the flags take the values the component's
      fields start with: inactive, animated, not static, closable, clicks
      allowed, icon shown. */
  lemma DefaultFlags()
    ensures !ActiveFlag(map[]) && AnimatedFlag(map[]) && !StaticFlag(map[])
    ensures ClosableFlag(map[]) && !NoClickFlag(map[]) && ShowIconFlag(map[])
  {
  }

  /** The mirror written for a boolean reads back as that boolean. */
  lemma MirrorReadsBack(attrs: Attrs, b: bool)
    ensures ActiveFlag(WriteAttribute(attrs, ACTIVE, Some(BoolText(b)))) == b
  {
  }

  /** Matching is exact and case-sensitive: "TRUE", "True" and " true" do not
      make the modal active or static, and "FALSE" does not switch off
      animation. */
  lemma FlagsAreExact()
    ensures !ActiveFlag(map[ACTIVE := "TRUE"]) && !ActiveFlag(map[ACTIVE := "True"])
    ensures !ActiveFlag(map[ACTIVE := " true"]) && !StaticFlag(map[STATIC := "TRUE"])
    ensures AnimatedFlag(map[ANIMATED := "FALSE"]) && ClosableFlag(map[CLOSABLE := ""])
    ensures NoClickFlag(map[NOCLICK := "false"]) && !ShowIconFlag(map[NO_ICON := "false"])
  {
  }
}
