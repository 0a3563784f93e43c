/** The visibility state machine of one modal controller, as values: each
    operation maps the controller's state and the page's shared body overflow
    to their new values. The class in ModalController follows these functions
    step by step. */
module ModalMachine {
  import opened Dom

  /** Body overflow written by `show` (scrolling locked) and by `hide`. */
  const LOCKED: string := "hidden"
  const UNLOCKED: string := ""

  /** The key code the keydown listener reacts to (Escape). */
  const ESCAPE: int := 27

  /** The constructor options that reach the state machine: `fade` is whether
      `opts.fade` is truthy, `scrollTop` is `opts.scrollTop`, `None` when it is
      null or undefined. */
  datatype Options = Options(fade: bool, scrollTop: Option<bool>)

  /** The settings fixed at construction. */
  datatype Settings = Settings(fade: bool, scrollTop: bool)

  /** One call of a user callback, with the surface it is handed (`seen`)
      and, for `onShow`/`onHide`, the trigger element. */
  datatype Event =
    | OnShow(seen: Surface, trigger: Target)
    | OnShowEnd(seen: Surface)
    | OnHide(seen: Surface, trigger: Target)
    | OnHideEnd(seen: Surface)

  /** One controller: its settings, its surface element `elem` and that
      element's style, `isVisible`, the number of scheduled fade-in timers not
      yet run, and the callbacks called so far. */
  datatype ModalState = ModalState(settings: Settings, elem: NodeId, visible: bool, surface: Surface,
                         pendingTicks: nat, trace: seq<Event>)

  /** A controller together with the page-wide `document.body.style.overflow`. */
  datatype Page = Page(modal: ModalState, overflow: string)

  /** Positions of the four callbacks in the no-fade cycle. */
  const SHOW_RANK: nat := 0
  const SHOW_END_RANK: nat := 1
  const HIDE_RANK: nat := 2
  const HIDE_END_RANK: nat := 3

  /** Position of an event in the no-fade cycle onShow, onShowEnd, onHide, onHideEnd. */
  function Rank(e: Event): nat
  {
    match e
    case OnShow(_, _) => SHOW_RANK
    case OnShowEnd(_) => SHOW_END_RANK
    case OnHide(_, _) => HIDE_RANK
    case OnHideEnd(_) => HIDE_END_RANK
  }

  /** Number of events of rank `k` in a trace. */
  function Count(trace: seq<Event>, k: nat): nat
  {
    if trace == [] then 0
    else Count(trace[..|trace| - 1], k) + (if Rank(trace[|trace| - 1]) == k then 1 else 0)
  }

  /** Appending one call adds one to the count of its own rank only. */
  lemma CountSnoc(a: seq<Event>, e: Event, k: nat)
    ensures Count(a + [e], k) == Count(a, k) + (if Rank(e) == k then 1 else 0)
  {
    assert (a + [e])[..|a|] == a;
  }

  /** Effective settings: fading needs transition-end support, `scrollTop`
      defaults to true. */
  function Configure(opts: Options, transitionSupported: bool): (r: Settings)
    ensures !transitionSupported ==> !r.fade
    ensures transitionSupported ==> r.fade == opts.fade
    ensures opts.scrollTop.None? ==> r.scrollTop
    ensures opts.scrollTop.Some? ==> r.scrollTop == opts.scrollTop.value
  {
    Settings(if transitionSupported then opts.fade else false,
             if opts.scrollTop.Some? then opts.scrollTop.value else true)
  }

  /** The state right after construction: hidden, display `'none'`, no timer,
      no callback called; opacity and scroll offset as the page had them. */
  function Init(opts: Options, transitionSupported: bool, elem: NodeId, initial: Surface): (m: ModalState)
    ensures !m.visible && m.surface.display == DisplayNone
    ensures m.pendingTicks == 0 && m.trace == []
    ensures m.surface.opacity == initial.opacity && m.surface.scrollTop == initial.scrollTop
    ensures m.settings == Configure(opts, transitionSupported) && m.elem == elem
  {
    ModalState(Configure(opts, transitionSupported), elem, false, initial.(display := DisplayNone), 0, [])
  }

  /** The wrapped `onHideEnd`: hide the surface, then call the user's callback. */
  function HideEnd(m: ModalState): ModalState
  {
    var s := m.surface.(display := DisplayNone);
    m.(surface := s, trace := m.trace + [OnHideEnd(s)])
  }

  /** `show(trigger)`: nothing when already visible; otherwise lock scrolling,
      start from opacity 0 when fading, display the surface, scroll it to the
      top if configured, schedule the fade-in, mark visible and call `onShow`,
      then `onShowEnd` at once unless fading. */
  function Show(p: Page, trigger: Target): Page
  {
    var m := p.modal;
    if m.visible then p
    else
      var fade := m.settings.fade;
      var s1 := if fade then m.surface.(opacity := Transparent) else m.surface;
      var s2 := s1.(display := DisplayBlock);
      var s3 := if m.settings.scrollTop then s2.(scrollTop := 0) else s2;
      var ticks := if fade then m.pendingTicks + 1 else m.pendingTicks;
      var calls := [OnShow(s3, trigger)] + (if fade then [] else [OnShowEnd(s3)]);
      Page(m.(visible := true, surface := s3, pendingTicks := ticks, trace := m.trace + calls), LOCKED)
  }

  /** `hide(trigger)`: nothing when already hidden; otherwise unlock scrolling,
      start the fade-out, mark hidden and call `onHide`, then the wrapped
      `onHideEnd` at once unless fading. */
  function Hide(p: Page, trigger: Target): Page
  {
    var m := p.modal;
    if !m.visible then p
    else
      var fade := m.settings.fade;
      var s := if fade then m.surface.(opacity := Transparent) else m.surface;
      var m1 := m.(visible := false, surface := s, trace := m.trace + [OnHide(s, trigger)]);
      Page(if fade then m1 else HideEnd(m1), UNLOCKED)
  }

  /** The `setTimeout` callback scheduled by a fading `show`. */
  function Tick(p: Page): Page
    requires p.modal.pendingTicks > 0
  {
    var m := p.modal;
    p.(modal := m.(surface := m.surface.(opacity := Opaque), pendingTicks := m.pendingTicks - 1))
  }

  /** A transition-end event on the surface. The listener exists only when
      fading; it reads `isVisible` as it is when the event arrives. */
  function TransitionEnd(p: Page): Page
  {
    var m := p.modal;
    if !m.settings.fade then p
    else if m.visible then p.(modal := m.(trace := m.trace + [OnShowEnd(m.surface)]))
    else p.(modal := HideEnd(m))
  }

  /** The click listener on the surface: only a click whose target is the
      surface itself (the backdrop) hides, with the surface as trigger. */
  function OverlayClick(p: Page, target: Target): Page
  {
    if target == Node(p.modal.elem) then Hide(p, Node(p.modal.elem)) else p
  }

  /** The document keydown listener: only Escape hides, with the event's
      target as trigger. */
  function KeyDown(p: Page, keyCode: int, target: Target): Page
  {
    if keyCode == ESCAPE then Hide(p, target) else p
  }

  // ---------------------------------------------------------------------------
  // Properties of single calls

  /** `show` on a visible modal and `hide` on a hidden one change nothing and
      call nothing. */
  lemma RepeatIsNoop(p: Page, t: Target)
    ensures p.modal.visible ==> Show(p, t) == p
    ensures !p.modal.visible ==> Hide(p, t) == p
  {
  }

  /** `show` from hidden: visible, displayed, scrolling locked, scrolled to the
      top when configured; without fade `onShow` then `onShowEnd` are called
      before it returns, with fade only `onShow`, opacity starts at 0 and one
      more fade-in timer is pending. Settings and element never change. */
  lemma ShowFromHidden(p: Page, t: Target)
    requires !p.modal.visible
    ensures var q := Show(p, t); var m := p.modal; var s := q.modal.surface;
      && q.modal.visible && s.display == DisplayBlock && q.overflow == LOCKED
      && s.scrollTop == (if m.settings.scrollTop then 0 else m.surface.scrollTop)
      && q.modal.settings == m.settings && q.modal.elem == m.elem
      && (!m.settings.fade ==>
            s.opacity == m.surface.opacity && q.modal.pendingTicks == m.pendingTicks
            && q.modal.trace == m.trace + [OnShow(s, t), OnShowEnd(s)])
      && (m.settings.fade ==>
            s.opacity == Transparent && q.modal.pendingTicks == m.pendingTicks + 1
            && q.modal.trace == m.trace + [OnShow(s, t)])
  {
  }

  /** `hide` from visible: hidden, scrolling unlocked, `onHide` called with the
      surface as it then is. Without fade the wrapped `onHideEnd` follows at
      once and the surface it is handed is already `'none'`; with fade the
      opacity drops to 0 and the display is left as it was. */
  lemma HideFromVisible(p: Page, t: Target)
    requires p.modal.visible
    ensures var q := Hide(p, t); var m := p.modal; var s := q.modal.surface;
      && !q.modal.visible && q.overflow == UNLOCKED
      && q.modal.settings == m.settings && q.modal.elem == m.elem
      && q.modal.pendingTicks == m.pendingTicks && s.scrollTop == m.surface.scrollTop
      && (!m.settings.fade ==>
            s == m.surface.(display := DisplayNone)
            && q.modal.trace == m.trace + [OnHide(m.surface, t), OnHideEnd(s)]
            && q.modal.trace[|q.modal.trace| - 1].seen.display == DisplayNone)
      && (m.settings.fade ==>
            s == m.surface.(opacity := Transparent)
            && q.modal.trace == m.trace + [OnHide(s, t)])
  {
  }

  /** Calling `show` twice calls `onShow` once and, without fade, `onShowEnd`
      once; with fade `onShowEnd` has not been called yet. */
  lemma ShowTwiceCallsOnce(p: Page, t1: Target, t2: Target)
    requires !p.modal.visible
    ensures var q := Show(Show(p, t1), t2); var tr := p.modal.trace;
      && q == Show(p, t1)
      && Count(q.modal.trace, SHOW_RANK) == Count(tr, SHOW_RANK) + 1
      && Count(q.modal.trace, SHOW_END_RANK)
         == Count(tr, SHOW_END_RANK) + (if p.modal.settings.fade then 0 else 1)
      && Count(q.modal.trace, HIDE_RANK) == Count(tr, HIDE_RANK)
      && Count(q.modal.trace, HIDE_END_RANK) == Count(tr, HIDE_END_RANK)
  {
    var q := Show(p, t1);
    var s := q.modal.surface;
    var tr := p.modal.trace;
    forall k: nat
      ensures Count(tr + [OnShow(s, t1)], k) == Count(tr, k) + (if k == SHOW_RANK then 1 else 0)
    {
      CountSnoc(tr, OnShow(s, t1), k);
    }
    if !p.modal.settings.fade {
      assert q.modal.trace == tr + [OnShow(s, t1)] + [OnShowEnd(s)];
      forall k: nat {
        CountSnoc(tr + [OnShow(s, t1)], OnShowEnd(s), k);
      }
    }
  }

  /** Calling `hide` twice calls `onHide` once and, without fade, the wrapped
      `onHideEnd` once. */
  lemma HideTwiceCallsOnce(p: Page, t1: Target, t2: Target)
    requires p.modal.visible
    ensures var q := Hide(Hide(p, t1), t2); var tr := p.modal.trace;
      && q == Hide(p, t1)
      && Count(q.modal.trace, HIDE_RANK) == Count(tr, HIDE_RANK) + 1
      && Count(q.modal.trace, HIDE_END_RANK)
         == Count(tr, HIDE_END_RANK) + (if p.modal.settings.fade then 0 else 1)
      && Count(q.modal.trace, SHOW_RANK) == Count(tr, SHOW_RANK)
      && Count(q.modal.trace, SHOW_END_RANK) == Count(tr, SHOW_END_RANK)
  {
    var q := Hide(p, t1);
    var tr := p.modal.trace;
    var s1 := if p.modal.settings.fade then q.modal.surface else p.modal.surface;
    forall k: nat
      ensures Count(tr + [OnHide(s1, t1)], k) == Count(tr, k) + (if k == HIDE_RANK then 1 else 0)
    {
      CountSnoc(tr, OnHide(s1, t1), k);
    }
    if !p.modal.settings.fade {
      assert q.modal.trace == tr + [OnHide(s1, t1)] + [OnHideEnd(q.modal.surface)];
      forall k: nat {
        CountSnoc(tr + [OnHide(s1, t1)], OnHideEnd(q.modal.surface), k);
      }
    }
  }

  /** A timer tick sets the opacity to 1, takes one timer off the pending
      count, and changes nothing else. */
  lemma TickFadesIn(p: Page)
    requires p.modal.pendingTicks > 0
    ensures Tick(p) == p.(modal := p.modal.(surface := p.modal.surface.(opacity := Opaque),
                                              pendingTicks := p.modal.pendingTicks - 1))
  {
  }

  /** The transition-end listener dispatches on `isVisible` as it is when the
      event arrives: visible calls `onShowEnd`, hidden runs the wrapped
      `onHideEnd`, which hides the surface before calling out. Without fade
      there is no listener. Scrolling is never touched. */
  lemma TransitionEndDispatch(p: Page)
    ensures var q := TransitionEnd(p); var m := p.modal;
      && (!m.settings.fade ==> q == p)
      && (m.settings.fade && m.visible ==>
            q == p.(modal := m.(trace := m.trace + [OnShowEnd(m.surface)])))
      && (m.settings.fade && !m.visible ==>
            q == p.(modal := m.(surface := m.surface.(display := DisplayNone),
                                trace := m.trace + [OnHideEnd(m.surface.(display := DisplayNone))])))
  {
  }

  /** With fade, a transition-end that arrives after `show` and then `hide`
      (the fade-in's own completion arriving late) is routed to the hide-end
      path: `onShowEnd` is never called and the surface ends up hidden. */
  lemma StaleTransitionEndGoesToHideEnd(p: Page, t1: Target, t2: Target)
    requires !p.modal.visible && p.modal.settings.fade
    ensures var q := TransitionEnd(Hide(Show(p, t1), t2));
      && !q.modal.visible && q.modal.surface.display == DisplayNone
      && |q.modal.trace| == |p.modal.trace| + 3
      && q.modal.trace[..|p.modal.trace|] == p.modal.trace
      && q.modal.trace[|p.modal.trace|].OnShow?
      && q.modal.trace[|p.modal.trace| + 1].OnHide?
      && q.modal.trace[|p.modal.trace| + 2].OnHideEnd?
  {
  }

  /** With fade, `show`, then `hide` before the fade-in timer has run, then the
      timer: the surface is hidden by state but displayed at full opacity until
      a transition-end arrives and is routed to the hide-end path. */
  lemma TimerAfterHideRace(p: Page, t1: Target, t2: Target)
    requires !p.modal.visible && p.modal.settings.fade && p.modal.pendingTicks == 0
    ensures var q := Tick(Hide(Show(p, t1), t2));
      && !q.modal.visible && q.modal.pendingTicks == 0
      && q.modal.surface.display == DisplayBlock && q.modal.surface.opacity == Opaque
      && TransitionEnd(q).modal.surface.display == DisplayNone
  {
  }

  /** Body overflow is one flag shared by all controllers: show A, show B,
      hide A unlocks scrolling although B is still visible. */
  lemma SharedOverflowClobbered(a: ModalState, b: ModalState, overflow: string, ta: Target, tb: Target, th: Target)
    requires !a.visible && !b.visible
    ensures var p1 := Show(Page(a, overflow), ta);
      var p2 := Show(Page(b, p1.overflow), tb);
      var p3 := Hide(Page(p1.modal, p2.overflow), th);
      && p2.modal.visible && !p3.modal.visible && p3.overflow == UNLOCKED
  {
  }

  /** A click hides exactly when its target is the surface itself, and then it
      is `hide` with the surface as trigger; any other target (a descendant
      included) changes nothing. */
  lemma OverlayClickFilter(p: Page, target: Target)
    ensures target == Node(p.modal.elem) ==> OverlayClick(p, target) == Hide(p, target)
    ensures target != Node(p.modal.elem) ==> OverlayClick(p, target) == p
  {
  }

  /** A keydown hides exactly when its key code is Escape's, and then it is
      `hide` with the event target as trigger. */
  lemma KeyDownFilter(p: Page, keyCode: int, target: Target)
    ensures keyCode == ESCAPE ==> KeyDown(p, keyCode, target) == Hide(p, target)
    ensures keyCode != ESCAPE ==> KeyDown(p, keyCode, target) == p
  {
  }
}
