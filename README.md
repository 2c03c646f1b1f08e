# modal-window: the state machine of `ModalWindow`

`ModalWindow` (src/index.ts) is a custom element that wraps its children in a
modal dialog. This project models its state machine without a DOM:

- the component's fields;
- the host element's attributes;
- the classes of the scroll container (`modal-visible`, `modal-show`, `modal-hide`);
- the two timer slots and the timers armed and not yet run;
- what the component asks of the outside world: scroll lock and unlock calls,
  focus requests and `close` events.

The project then proves what each operation does to that state and which
invariant every operation keeps.

The files:

- `attributes.dfy` (module `Attributes`) covers the attribute names and the
  parsing of each attribute into a flag. It also holds the default close
  title and the description that is set or removed.
- `label.dfy` (module `Label`) covers the dialog's `aria-label`: the heading
  text, trimmed, with every run of white space collapsed to one space, and
  `modal` as the fallback.
- `dismissal.dfy` (module `Dismissal`) holds the two gates that decide
  whether an overlay click or a key press closes the modal.
- `focus.dfy` (module `FocusTrap`) holds the focus-trap decision of
  `_handleFocusIn`, taken over abstract element ids.
- `modal_state.dfy` (module `ModalState`) defines the state as the datatype
  `Modal`, each method of the component as a transition function on it, and
  the invariant `Valid`.
- `modal_lemmas.dfy` (module `ModalProperties`) proves what the transitions
  do, step by step and over whole runs of events, and checks the scenarios
  shown by the component's test file.
- `component.dfy` (module `Component`) is the class `ModalWindow`. Its
  methods update its fields step by step, as the component does. Each method
  is proved to leave the object in the state its transition function gives,
  so every lemma about the transitions holds of the object.

The model follows the code as written, including the following behaviours.

- **Re-entrant attribute reaction.** The mirror-attribute write at the top
  of `_toggleModalDisplay` re-enters `attributeChangedCallback`, then
  `_setActiveFlag`, then `_toggleModalDisplay`, whenever it changes the
  attribute, because custom element reactions run before `setAttribute`
  returns. So `open()` on a closed modal runs the show step twice: two
  scroll locks, two dialog focus requests and two show timers (lemma
  `OpenWhileClosed`).
- **Timer slots.** Timers are not cleared before re-arming. A timer's
  callback clears whichever timer is in its slot when it runs, which may be
  a later one (lemma `FireShowEffects`).
- **Deferred hiding.** `modal-visible` is removed and scrolling unlocked
  only when a hide timer runs, even with no motion, when the delay is 0.
- **Attribute names.** An HTML element lower-cases the ASCII letters of an
  attribute name before it stores the value and runs
  `attributeChangedCallback`, so a page writing `ACTIVE` opens the modal
  exactly as `active` does (lemmas `AttributeNameCase`, `UpperCaseActive`).
- **Close events.** Every `close()` emits exactly one `close` event,
  whatever the state. Closing through the `active` attribute emits none and
  restores no focus (lemma `ActiveAttributeCloses`).

The timers' `setTimeout` and real time are not modelled. A timer is an id
that the environment may fire, in any order, while it is pending.

### Behaviour worth knowing

- A second `open()` locks scrolling again, requests dialog focus again and
  arms another show timer (`OpenWhileOpen`).
- With motion on (`animated` not `false` and no reduced-motion
  preference), `close()` right after `open()` leaves `modal-show` and
  `modal-hide` together on the scroll container (`OpenThenClose`). Without
  motion neither class is added, and only `modal-visible` is left.
- Arming a timer never cancels the one already in its slot. Only the timer
  callback cancels, and it cancels the timer currently in its slot; the
  slot still holds that id afterwards (`FireShowEffects`,
  `FireHideEffects`).
- Without motion, the unlock still waits for a hide timer with a 0 ms
  delay (`HideStep`, `CloseWhileOpen`).
- `isHideShow` does not block the re-entrant toggle (`OpenWhileClosed`); it
  only gates the user's means of dismissal. A hide timer left over from a
  close therefore removes `modal-visible` from a modal that was opened
  again in the meantime, while the modal stays active (`StaleHideTimer`).
- One open and close cycle started from a closed modal issues two locks and
  one unlock (`OpenCloseCycle`). Whether the page stays locked depends on
  the scroll-lock package, which is not part of this model.

## Model

| member | source | states |
|---|---|---|
| Attributes.CloseTitle | src/index.ts:348-357 | the close title is never empty: it is the `close` attribute when that is present and non-empty, and `Close` otherwise |
| Attributes.Description | src/index.ts:384-394 | the dialog's `aria-describedby` is set exactly when the host's attribute is present and non-empty, to that value; otherwise it is removed |
| Attributes.DefaultFlags | src/index.ts:84-94 | with no attributes, every flag the parsers give equals the field's initial value |
| Attributes.FlagsAreExact | src/index.ts:230-232 | `active`, `static`, `animated` and `closable` compare case-sensitively with the exact text; `noclick` and `no-icon` count by presence, whatever their value |
| Attributes.MirrorReadsBack | src/index.ts:400-402 | reading the mirrored `active` attribute back gives the flag that was written |
| Dismissal.ToLower | src/index.ts:635 | the lower-cased key has the same length and lower-cases each character |
| Dismissal.EscapeAnyCase | src/index.ts:632-645 | a key counts as Escape exactly when it spells `escape` in any mix of letter cases |
| Dismissal.BrowserKeyNames | src/index.ts:635-649 | the browser names `Escape`, `ESCAPE` and `Tab` match; `Esc` does not |
| Dismissal.ToLowerIdempotent | src/index.ts:635 | lower-casing twice gives the same key as lower-casing once |
| Dismissal.ClosableGatesAll | src/index.ts:571-651 | a modal that is not closable closes neither on an overlay click nor on Escape |
| Dismissal.TransitionGatesAll | src/index.ts:571-651 | while a transition runs, neither an overlay click nor Escape closes |
| Dismissal.StaticGatesBoth | src/index.ts:571-651 | a static modal closes neither on an overlay click nor on Escape |
| Dismissal.NoClickGatesOnlyOverlay | src/index.ts:571-651 | `noclick` blocks overlay clicks but leaves the Escape decision unchanged |
| FocusTrap.InactiveDoesNothing | src/index.ts:596-597 | when the modal is inactive or has no dialog, the focus handler does nothing |
| FocusTrap.SentinelsWrap | src/index.ts:602-620 | in the structure the component builds (two distinct sentinels), focus on the leading sentinel goes to the last focusable element, and focus on the trailing sentinel to the first |
| FocusTrap.RedirectsLandInDialog | src/index.ts:606-620 | every element the handler sends focus to is a focusable element of the dialog |
| FocusTrap.OutsideFocusReturns | src/index.ts:455-469 | focus outside the component goes back to the dialog; focus inside the component, other than on a sentinel, is left alone; with nothing focused nothing happens |
| FocusTrap.EmptyDialogKeepsSentinelFocus | src/index.ts:611-626 | with nothing focusable in the dialog, focus on a sentinel stays where it is |
| Label.TrimStart | src/index.ts:371 | the result is the suffix of the text that starts at its first non-space character |
| Label.TrimEnd | src/index.ts:371 | the result is the prefix of the text that ends at its last non-space character |
| Label.TrimKeepsText | src/index.ts:371 | trimming drops only white space |
| Label.TrimHasNoEdgeSpaces | src/index.ts:371 | a trimmed text has no white space at either end |
| Label.TrimOfTrimmed | src/index.ts:371 | a text with no white space at its ends is unchanged by trimming |
| Label.CollapseNoAdjacent | src/index.ts:371 | after collapsing, no two white-space characters are neighbours |
| Label.CollapsePlainSpaces | src/index.ts:371 | after collapsing, the only white space left is the plain space |
| Label.CollapseKeepsText | src/index.ts:371 | collapsing keeps every non-space character, in order |
| Label.CollapseOfCollapsed | src/index.ts:371 | a text with only single plain spaces is unchanged by collapsing |
| Label.NormalizeShape | src/index.ts:371 | the cleaned text has no edge spaces, no adjacent spaces, only plain spaces, and the same non-space characters as the input |
| Label.NormalizeIdempotent | src/index.ts:371 | cleaning the text twice gives the same label as cleaning it once |
| Label.LabelFallback | src/index.ts:363-378 | no heading, or a heading with empty text, gives the label `modal` |
| Label.LabelShape | src/index.ts:363-378 | every label is clean, and a non-empty heading's label keeps the heading's non-space characters |
| Label.CollapseSplit | src/index.ts:371 | a maximal run of white space between two parts becomes exactly one plain space, and each part is collapsed on its own |
| Label.LabelSplitsWords | src/index.ts:363-378 | the label of a heading made of two trimmed parts around a run of white space is the first part collapsed, one space, the second part collapsed |
| Label.LabelOfBlankHeading | src/index.ts:365-371 | a heading made of white space only gives the empty label, because the fallback is taken before trimming |
| Label.LabelOfCleanHeading | src/index.ts:363-378 | an already clean, non-empty heading text is its own label |
| Label.TestHeadingLabel | test/index.ts:7-11 | the heading `Test Modal` gives the label `Test Modal` |
| ModalProperties.ToggleUnbuilt | src/index.ts:487-488 | before the structure exists, toggling changes nothing, not even the mirror |
| ModalProperties.ToggleBuilt | src/index.ts:487-491 | once built, toggling shows or hides once when the mirror already agrees; otherwise the re-entrant reaction first shows or hides with the active-flag callback, then the step runs again with the caller's callback |
| ModalProperties.ToggleKeeps | src/index.ts:487-565 | toggling keeps the invariant and leaves the mirror agreeing with the flag; the configuration, the DOM and the close events are unchanged |
| ModalProperties.ShowStep | src/index.ts:504-536 | an active step caches the focused element, adds `modal-visible` (and `modal-show` with motion), sets the transition flag only with motion, locks once, runs the callback and arms one show timer with the motion delay |
| ModalProperties.HideStep | src/index.ts:537-563 | an inactive step on a visible modal adds `modal-hide` only with motion, does not unlock yet, runs the callback and arms one hide timer with the motion delay |
| ModalProperties.QuietStep | src/index.ts:512-565 | an inactive step on a modal that is not visible changes nothing |
| ModalProperties.OpenUnbuilt | src/index.ts:657-662 | before the structure exists, `open()` only sets the flag |
| ModalProperties.OpenWhileOpen | src/index.ts:657-662 | a second `open()` locks again, requests dialog focus again and arms another show timer |
| ModalProperties.OpenWhileClosed | src/index.ts:657-662 | `open()` on a closed modal sets the flag and the mirror to `true`, caches the focus, and locks twice, focuses twice and arms two show timers through the re-entrant reaction |
| ModalProperties.CloseUnbuilt | src/index.ts:668-676 | before the structure exists, `close()` clears the flag and emits one `close` event |
| ModalProperties.CloseWhileClosed | src/index.ts:668-676 | `close()` on a closed modal emits one event; it arms a hide timer and restores focus only when `modal-visible` is present, and never touches the lock |
| ModalProperties.CloseWhileOpen | src/index.ts:668-676 | `close()` on an open modal sets the mirror to `false`, emits one event and, when visible, restores focus once and arms two hide timers, without unlocking yet |
| ModalProperties.ValidOpen | src/index.ts:657-662 | `open()` keeps the invariant and leaves the modal active |
| ModalProperties.ValidClose | src/index.ts:668-676 | `close()` keeps the invariant and leaves the modal inactive |
| ModalProperties.ValidFireShow | src/index.ts:529-536 | a show timer firing keeps the invariant |
| ModalProperties.ValidFireHide | src/index.ts:548-563 | a hide timer firing keeps the invariant |
| ModalProperties.WriteKeeps | src/index.ts:189-221 | writing one attribute changes no flag parsed from another |
| ModalProperties.ActiveWriteToggles | src/index.ts:195-199 | a write that changes `active` sets the flag to whether the value is `true` and toggles with the active-flag callback |
| ModalProperties.OtherWriteEffect | src/index.ts:189-221 | a write whose lower-cased name is another observed attribute and that changes its value runs exactly that attribute's reaction; any other write only changes the attribute under its lower-cased name |
| ModalProperties.AttributeNameCase | src/index.ts:181-199 | a write under any letter case of a name acts exactly as the write under the lower-cased name |
| ModalProperties.UpperCaseActive | src/index.ts:189-199 | writing `ACTIVE` or `Active` has the same effect as writing `active` |
| ModalProperties.ValidSetAttribute | src/index.ts:189-221 | every attribute write, with its reactions, keeps the invariant |
| ModalProperties.ActiveAttributeOpens | src/index.ts:400-414 | setting `active` to `true` on a closed modal shows it once: one lock, one dialog focus request, one show timer, and no close event |
| ModalProperties.ActiveAttributeCloses | src/index.ts:400-414 | any other value hides an open visible modal without a close event and without restoring focus; the mirror becomes `false` and one or two hide timers are armed |
| ModalProperties.BuildAndApplyEffects | src/index.ts:229-256 | the first mount parses every flag, builds the close button exactly when closable and shown, and sets the label and description |
| ModalProperties.FirstActiveFlag | src/index.ts:258-259 | on a fresh structure, the active-flag step shows the modal exactly when `active` is `true`, with one lock and one dialog focus request |
| ModalProperties.ConnectEffects | src/index.ts:227-262 | mounting keeps the invariant, marks the modal built, and gives the flags, close button, title, label, description, active state and lock that the attributes call for |
| ModalProperties.ConnectOnce | src/index.ts:229 | a second mount changes nothing |
| ModalProperties.OpenCloseFlag | src/index.ts:657-676 | `close()` always leaves the modal inactive with one more close event; `open()` always leaves it active with none |
| ModalProperties.KeyDownInactive | src/index.ts:633 | while inactive, a key press does nothing |
| ModalProperties.KeyDownCloses | src/index.ts:632-645 | on an active modal, a key press emits `close` exactly when it is Escape in any case, no transition runs, the modal is not static and it is closable; a key that closes nothing and is not Tab leaves the whole state unchanged |
| ModalProperties.KeyDownTab | src/index.ts:647-650 | Tab in any case runs the focus handler; any other key except Escape does nothing |
| ModalProperties.FocusInStaysInDialog | src/index.ts:596-626 | the focus handler adds at most one focus request, and every element it asks to focus lies in the dialog |
| ModalProperties.ClickOverlayCloses | src/index.ts:571-582 | an overlay click closes exactly when the gate lets it through and the target is the overlay; otherwise nothing changes |
| ModalProperties.NotClosableStaysOpen | src/index.ts:571-651 | a modal built as not closable has no close button, neither Escape nor an overlay click dismisses it, and every key other than Tab leaves the whole state unchanged |
| ModalProperties.ValidFocusIn | src/index.ts:596-626 | the focus handler keeps the invariant |
| ModalProperties.ValidKeyDown | src/index.ts:632-651 | the key handler keeps the invariant |
| ModalProperties.ValidClickOverlay | src/index.ts:571-582 | the overlay handler keeps the invariant |
| ModalProperties.ValidConnect | src/index.ts:227-265 | mounting keeps the invariant |
| ModalProperties.ValidStep | src/index.ts:189-676 | every event keeps the invariant |
| ModalProperties.ValidRun | src/index.ts:189-676 | every sequence of events keeps the invariant |
| ModalProperties.ValidInitial | src/index.ts:84-94 | a new component satisfies the invariant and is neither built nor active |
| ModalProperties.NotClosableRun | src/index.ts:571-651 | on an open modal that is not closable, no sequence of user input ever closes it or emits `close` |
| ModalProperties.MotionGate | src/index.ts:475-498 | the delay is 250 exactly when `animated` is not `false` and reduced motion is off, and 0 otherwise |
| ModalProperties.FireShowEffects | src/index.ts:529-536 | a show timer removes `modal-show`, clears the transition flag, and cancels itself and the timer in its slot; the focused element, both slots, the next timer id, the hide timers, the logs and the setup stay as they were |
| ModalProperties.FireHideEffects | src/index.ts:548-563 | a hide timer removes `modal-hide` and `modal-visible`, clears the transition flag, unlocks once, and cancels itself and the timer in its slot; the focused element, both slots, the next timer id, the show timers, the focus log and the setup stay as they were |
| ModalProperties.OpenThenClose | src/index.ts:657-676 | `open()` then `close()` sets the mirror to `false`, keeps `modal-visible`, holds `modal-show` and `modal-hide` together exactly when motion is okay (and neither otherwise), locks twice and emits one event |
| ModalProperties.OpenCloseCycle | src/index.ts:529-563 | after `open()`, `close()` and the first show and hide timers, no class is left, the mirror is `false`, the armed timers are back to what they were, and the lock log gains two locks and one unlock |
| ModalProperties.StaleHideTimer | src/index.ts:548-563 | after `close()` and `open()`, the hide timer from the close still removes `modal-visible` and unlocks, while the modal stays active with the mirror `true` |
| ModalProperties.BasicsScenario | test/index.ts:6-26 | mounting the test's element gives the label `Test Modal`; then `open()` sets `active` to `true`, and `close()` sets it to `false` and emits one event |
| Component.ModalWindow.constructor | src/index.ts:84-103 | a new element is in the initial state, which satisfies the invariant |
| Component.ModalWindow.SetAttribute | src/index.ts:189-221 | the write and its reactions leave the object in the state of the attribute transition, and keep the invariant |
| Component.ModalWindow.AttributeChangedCallback | src/index.ts:189-221 | runs the reaction of the attribute that changed, as the transition does |
| Component.ModalWindow.SetAnimationFlag | src/index.ts:340-342 | only the animation flag changes, to the parsed `animated` attribute |
| Component.ModalWindow.SetStaticFlag | src/index.ts:420-422 | only the static flag changes, to the parsed `static` attribute |
| Component.ModalWindow.SetCloseTitle | src/index.ts:348-357 | the close button, if any, gets the close title |
| Component.ModalWindow.SetModalDescription | src/index.ts:384-394 | the dialog, if built, gets or loses its description |
| Component.ModalWindow.SetModalLabel | src/index.ts:363-378 | the dialog, if built, gets the heading's label |
| Component.ModalWindow.SetActiveFlag | src/index.ts:400-414 | the flag follows the attribute, then the display toggles |
| Component.ModalWindow.ToggleModalDisplay | src/index.ts:487-565 | the object ends in the state of the toggle transition, re-entrancy included |
| Component.ModalWindow.ShowOrHide | src/index.ts:494-565 | the object ends in the state of the show-or-hide step |
| Component.ModalWindow.ShowBranch | src/index.ts:512-536 | the object ends in the state of the show branch |
| Component.ModalWindow.HideBranch | src/index.ts:537-563 | the object ends in the state of the hide branch |
| Component.ModalWindow.FireShowTimer | src/index.ts:529-536 | the object ends in the state after the show timer's callback, and keeps the invariant |
| Component.ModalWindow.FireHideTimer | src/index.ts:548-563 | the object ends in the state after the hide timer's callback, and keeps the invariant |
| Component.ModalWindow.BuildModal | src/index.ts:115-175 | the structure exists, with the close button when closable and shown |
| Component.ModalWindow.BuildAndApply | src/index.ts:230-256 | the flags are read, the structure is built and the attributes are applied to it |
| Component.ModalWindow.ConnectedCallback | src/index.ts:227-262 | the object ends in the state of the mount transition, is built, and keeps the invariant |
| Component.ModalWindow.Open | src/index.ts:657-662 | the object ends in the state of `open()`, active, with no new close event, and keeps the invariant |
| Component.ModalWindow.Close | src/index.ts:668-676 | the object ends in the state of `close()`, inactive, with exactly one more close event, and keeps the invariant |
| Component.ModalWindow.HandleClickOverlay | src/index.ts:571-582 | the object ends in the state of the overlay handler, and keeps the invariant |
| Component.ModalWindow.HandleClickClose | src/index.ts:588-590 | the close button closes: the modal is inactive with one more close event |
| Component.ModalWindow.HandleFocusIn | src/index.ts:596-626 | the object ends in the state of the focus handler, and keeps the invariant |
| Component.ModalWindow.HandleKeyDown | src/index.ts:632-651 | the object ends in the state of the key handler, and keeps the invariant |

## Left out

- DOM construction in `_buildModal` (src/index.ts:115-175): elements, children and classes are not modelled. The model keeps only whether the structure and the close button exist.
- Listener wiring: `_addEvents`, `_removeEvents`, `disconnectedCallback`, `_bind` and `define` (src/index.ts:264-334, 679) are host plumbing. Instead, the event step `ModalProperties.Step` delivers key and focus events once the modal is built, overlay clicks once the structure exists, and close-button clicks only when the button exists. `_removeEvents` detaches all four listeners on disconnect, but the model has no disconnected state, so `ModalProperties.Step` keeps delivering key, focus and click events to a modal whose element was removed.
- Deferred focus: `_focusElement` and `_focusModal` (src/index.ts:428-449) schedule work with `requestAnimationFrame`. The model records each as a focus request; the focus moves and the `scrollTo` themselves are not modelled.
- Focusable elements: the focusable elements of the dialog are an input list. `FOCUSABLE_SELECTORS` and `querySelectorAll` (src/index.ts:52-64, 606-608) are not modelled.
- Environment inputs: `matchMedia` (src/index.ts:477) and `document.activeElement` (src/index.ts:501, 599) are inputs, passed in as `ModalState.Env`.
- Scroll locking: the scroll-lock package is a foreign dependency. Its calls are recorded in a log; its reference counting is not part of this model.
- Timers: real time and `setTimeout` scheduling are not modelled. Any pending timer may fire at any point, so the model allows more orders than 250 time units would.
- `Dismissal.ToLower`: lower-cases ASCII letters only, not the full Unicode `toLowerCase`. This is exact for comparisons with `escape` and `tab`, because no other character lower-cases to one of their letters.
- The heading: the heading's text content is an input (`None` when there is no heading); `querySelector` and `textContent` are not modelled.
- Attribute order at upgrade: the browser may run `attributeChangedCallback` for the initial attributes before `connectedCallback`. The model takes whatever attribute writes the events give.
- `render()` (src/index.ts:106-109) belongs to the base class's rendering path and is not called by the component itself.
- The accessibility checks of test/index.ts:28-66 need a browser. example/index.ts only wires up a demo page.
