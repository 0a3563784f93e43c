# Modal controller: a verified model of its visibility state machine

`modal.js` gives a page a modal dialog. The `Modal` controller owns one
overlay element (the *surface*). It shows and hides the surface, with or
without a CSS opacity fade. It locks page scrolling while the modal is open.
It reports four lifecycle callbacks: `onShow`, `onShowEnd`, `onHide` and
`onHideEnd`. The modal is dismissed by a click on the backdrop or by Escape.
This project models that state machine in Dafny and proves what it promises.

The model has four modules:

- `Dom` (`dom.dfy`): the document state the controller touches, as values.
  A `Surface` holds `display` (`'none'`/`'block'`), `opacity` (unset, 0 or 1)
  and `scrollTop`. A `Target` is a trigger element or none.
- `ModalMachine` (`machine.dfy`): every operation as a function on a `Page`.
  A `Page` is one controller's state together with the page-wide body
  `overflow`. The operations are construction (`Init`), `Show`, `Hide`, the
  wrapped `HideEnd`, the fade-in timer (`Tick`), the transition-end listener
  (`TransitionEnd`) and the two dismissal filters (`OverlayClick`, `KeyDown`).
  The user callbacks are opaque. Each call is recorded in a trace as an
  `Event`, together with the surface the callback is handed. That makes
  "display is `'none'` before `onHideEnd` runs" something the trace shows.
- `ModalRuns` (`runs.dfy`): the model runs any sequence of actions: calls,
  clicks, keys, timers, transition ends, and writes to the shared overflow by
  other controllers. It proves invariants that hold in every state reachable
  from construction.
- `ModalController` (`controller.dfy`): the controller as the source has it.
  `class Modal` has mutable fields (`isVisible`, `surface`, `pendingTicks`,
  the ghost `trace`) and the settings as constants (`fade`, `scrollTop`).
  It holds a reference to a `Body` object that every controller of the page
  shares. Each method has a `modifies` clause and says that the new state is
  what the matching `ModalMachine` function gives for the old state. `Show`,
  `Hide`, `Tick`, `TransitionEnd`, `OverlayClick` and `KeyDown` also keep the
  object invariant `Valid()`. The internal `HideEnd` (the wrapped
  `onHideEnd`) only gives its new state: `Hide` calls it at a point where
  `Valid()` does not yet hold again.

Modelling choices:

- Only the truthiness of `opts.fade` matters to the state machine, so it is a
  boolean.
- Transition-end support is probed at start-up by the source. Here it is a
  boolean constructor parameter.
- The `setTimeout` that starts the fade-in is a count of pending timers, and
  `Tick` runs one of them. This is a count rather than a flag: `show`, `hide`,
  `show` in quick succession leaves two timers waiting.
- The surface's style before construction is a constructor parameter.

Two details of the code that the model keeps:

- The wrapped `onHideEnd` sets display to `'none'` *before* calling the
  user's callback (modal.js:50-53).
- The transition-end listener is bound only when fading is on (modal.js:96-102).
  Without fade, a transition-end event does nothing.

## Model

| member | source | states |
|---|---|---|
| `ModalMachine.Configure` | modal.js:55-57 | fade is forced off when transition-end events are unsupported and otherwise follows the option; `scrollTop` defaults to true when the option is absent and otherwise follows it |
| `ModalMachine.Init` | modal.js:55-71 | after construction the modal is not visible, display is `'none'`, no timer is pending, no callback has been called, opacity and scroll offset are untouched, and the settings are those of `Configure` |
| `ModalController.Modal.constructor` | modal.js:43-71 | the new object is in the state `Init` describes, holds the given shared body, and satisfies the invariant |
| `ModalMachine.RepeatIsNoop` | modal.js:110 | `show` on a visible modal and `hide` on a hidden one change no state and call no callback |
| `ModalMachine.ShowFromHidden` | modal.js:106-133 | `show` from hidden makes the modal visible, displays it, locks scrolling, scrolls to 0 exactly when configured; without fade it calls `onShow(trigger)` then `onShowEnd` and leaves opacity alone; with fade it calls only `onShow`, sets opacity 0, and schedules one more timer |
| `ModalMachine.HideFromVisible` | modal.js:135-150 | `hide` from visible makes it not visible, unlocks scrolling and calls `onHide(trigger)`; without fade the wrapped `onHideEnd` follows and is handed a surface already at display `'none'`; with fade opacity becomes 0 and display is left alone |
| `ModalMachine.ShowTwiceCallsOnce` | modal.js:110-131 | a second `show` returns the same state as the first; `onShow` is counted once more in total, `onShowEnd` once more without fade and not yet with fade, the hide callbacks not at all |
| `ModalMachine.HideTwiceCallsOnce` | modal.js:138-148 | a second `hide` returns the same state as the first; `onHide` is counted once more in total, `onHideEnd` once more without fade, the show callbacks not at all |
| `ModalMachine.TickFadesIn` | modal.js:123-127 | the scheduled timer's new page is the old one with opacity 1 and one pending timer fewer, nothing else changed |
| `ModalMachine.TransitionEndDispatch` | modal.js:96-102 | the transition-end listener reads `isVisible` when the event arrives: if visible it calls `onShowEnd` with nothing else changed, otherwise it hides the surface and calls `onHideEnd`; without fade nothing happens; scrolling is never touched |
| `ModalMachine.StaleTransitionEndGoesToHideEnd` | modal.js:99-101 | with fade, a transition end arriving after `show` then `hide` goes to the hide-end path: the calls are exactly onShow, onHide, onHideEnd and the surface ends at display `'none'` |
| `ModalMachine.TimerAfterHideRace` | modal.js:122-145 | with fade, if `hide` comes before the fade-in timer runs, the timer still sets opacity 1 on a modal that is no longer visible and still displayed; only a later transition end hides it |
| `ModalMachine.SharedOverflowClobbered` | modal.js:112-140 | show A, show B, hide A leaves body overflow `''` while B is still visible |
| `ModalMachine.OverlayClickFilter` | modal.js:84-86 | a click whose target is the surface itself is exactly `hide` with the surface as trigger; any other target changes nothing |
| `ModalMachine.KeyDownFilter` | modal.js:90-92 | keyCode 27 (Escape) is exactly `hide` with the event target as trigger; any other key changes nothing |
| `ModalRuns.InitInv` | modal.js:56-71 | the state after construction satisfies the invariant |
| `ModalRuns.HideEndKeeps` | modal.js:50-53 | the wrapped `onHideEnd` leaves display `'none'`, keeps every callback's view of the surface consistent, and does not change the onShow/onHide sequence, the visibility or the settings |
| `ModalRuns.ShowKeepsInv` | modal.js:106-133 | `show` keeps the invariant |
| `ModalRuns.HideKeepsInv` | modal.js:135-150 | `hide` keeps the invariant |
| `ModalRuns.TransitionEndKeepsInv` | modal.js:99-101 | the transition-end listener keeps the invariant |
| `ModalRuns.ApplyKeepsInv` | modal.js:84-150 | every action keeps the invariant; none changes the settings or the element |
| `ModalRuns.RunKeepsInv` | modal.js:84-150 | any executable sequence of actions keeps the invariant, the settings and the element |
| `ModalRuns.Reachable` | modal.js:43-150 | in every state reachable from construction: visible implies displayed; without fade no timer is pending, display `'block'` holds exactly when visible, and the calls cycle onShow, onShowEnd, onHide, onHideEnd; `onShow` and `onHide` alternate, starting with `onShow`, and the modal is visible exactly when the last of them was `onShow`; only `onHideEnd` is handed a surface at `'none'`; the settings are those fixed at construction |
| `ModalController.Modal.HideEnd` | modal.js:50-53 | the wrapped callback's new state is `ModalMachine.HideEnd` of the old one |
| `ModalController.Modal.Show` | modal.js:106-133 | the new state and body overflow are `ModalMachine.Show` of the old ones, and the invariant holds |
| `ModalController.Modal.Hide` | modal.js:135-150 | the new state and body overflow are `ModalMachine.Hide` of the old ones, and the invariant holds |
| `ModalController.Modal.Tick` | modal.js:124-126 | the timer callback's new state is `ModalMachine.Tick` of the old one, and the invariant holds |
| `ModalController.Modal.TransitionEnd` | modal.js:99-101 | the listener's new state is `ModalMachine.TransitionEnd` of the old one, and the invariant holds |
| `ModalController.Modal.OverlayClick` | modal.js:84-86 | the click listener's new state is `ModalMachine.OverlayClick` of the old one |
| `ModalController.Modal.KeyDown` | modal.js:90-92 | the keydown listener's new state is `ModalMachine.KeyDown` of the old one |
| `ModalController.SharedScrollLock` | modal.js:112-140 | two controller objects sharing one body: after show A, show B, hide A, scrolling is unlocked while B is visible |
| `ModalController.FadeInScenario` | modal.js:96-131 | a new fading controller after `show`, the timer and one transition end: visible, displayed at opacity 1, scrolling locked, and exactly `onShow(trigger)` then one `onShowEnd` called |

## Left out

- The probe for the transition-end event name (modal.js:9-23) reads the host's style object. It is replaced by the `transitionSupported` parameter.
- `bindToClick` and the show/hide selector bindings (modal.js:26-33, 75-80) are event-listener plumbing. Their effect is a call of `Show` or `Hide` with the clicked element, which the model covers directly.
- The spacer element, `getComputedStyle`, and the `cssText` strings for centering and transitions (modal.js:61-71, 97-98) are layout side effects. Only the `display:none` in modal.js:71 is modelled. The transition duration and timing function (`fade.duration`, `fade.timingFunction`) appear only in those strings, so the fade option is a boolean.
- Real asynchrony is not modelled. `setTimeout` and CSS transition timing appear only as the pending-timer count and the externally invoked `Tick` and `TransitionEnd`. When and whether the browser fires transition-end is the host's business.
- The `new`-less call form and the module export shim (modal.js:37-42, 152-156) are specific to JavaScript.
- The user callbacks are opaque and appear only as trace entries. The model assumes each one returns normally: it does not throw, call back into the controller or change the surface. A callback that throws would stop `show` or `hide` partway. For example, an `onHide` that throws in a `hide` without fade leaves the modal not visible with display `'block'`, and `onHideEnd` never runs (modal.js:146-148). The invariants of `ModalRuns.Reachable` do not cover that case.
- The keydown listener is bound on the document by every controller, so Escape reaches all of them. Each controller is modelled on its own.
- `opts.scrollTop` is modelled as an optional boolean. A non-boolean value that is not null would be used by its truthiness in the source.
- The surface's `scrollTop` changes only where the controller writes it. User scrolling is not modelled.
