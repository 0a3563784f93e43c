/** Any sequence of events one controller can see after construction, and the
    invariants that hold in every state such a sequence reaches. */
module ModalRuns {
  import opened Dom
  import opened ModalMachine

  /** What can happen to a controller: a call of `show` or `hide` (through
      the bound trigger elements or by the program), a click on the surface, a
      keydown, a scheduled fade-in timer running, a transition-end event on
      the surface, and another controller writing the shared body overflow. */
  datatype Action =
    | ShowCall(trigger: Target)
    | HideCall(trigger: Target)
    | Click(target: Target)
    | Key(keyCode: int, target: Target)
    | TimerFires
    | TransitionEnded
    | OtherWrites(overflow: string)

  /** A timer can only run when one was scheduled. */
  predicate Enabled(m: ModalState, a: Action)
  {
    a.TimerFires? ==> m.pendingTicks > 0
  }

  function Apply(p: Page, a: Action): Page
    requires Enabled(p.modal, a)
  {
    match a
    case ShowCall(t) => Show(p, t)
    case HideCall(t) => Hide(p, t)
    case Click(t) => OverlayClick(p, t)
    case Key(code, t) => KeyDown(p, code, t)
    case TimerFires => Tick(p)
    case TransitionEnded => TransitionEnd(p)
    case OtherWrites(o) => p.(overflow := o)
  }

  /** Every action of the sequence can happen in the state it meets. */
  predicate Executable(p: Page, acts: seq<Action>)
    decreases |acts|
  {
    acts == [] || (Enabled(p.modal, acts[0]) && Executable(Apply(p, acts[0]), acts[1..]))
  }

  function Run(p: Page, acts: seq<Action>): Page
    requires Executable(p, acts)
    decreases |acts|
  {
    if acts == [] then p else Run(Apply(p, acts[0]), acts[1..])
  }

  /** The `onShow` (true) and `onHide` (false) calls of a trace, in order. */
  function Phases(trace: seq<Event>): seq<bool>
  {
    if trace == [] then []
    else
      var e := trace[|trace| - 1];
      Phases(trace[..|trace| - 1]) + (if e.OnShow? then [true] else if e.OnHide? then [false] else [])
  }

  lemma PhasesSnoc(a: seq<Event>, e: Event)
    ensures Phases(a + [e]) == Phases(a) + (if e.OnShow? then [true] else if e.OnHide? then [false] else [])
  {
    assert (a + [e])[..|a|] == a;
  }

  // ---------------------------------------------------------------------------
  // The invariant

  /** A visible modal is displayed. */
  ghost predicate VisibleIsDisplayed(m: ModalState)
  {
    m.visible ==> m.surface.display == DisplayBlock
  }

  /** Without fade no timer is ever pending and display `'block'` is exactly
      visibility. */
  ghost predicate NoFadeIsSynchronous(m: ModalState)
  {
    !m.settings.fade ==> m.pendingTicks == 0 && (m.surface.display == DisplayBlock <==> m.visible)
  }

  /** `onShow` and `onHide` strictly alternate, starting with `onShow`, and the
      last of them was `onShow` exactly when the modal is visible. */
  ghost predicate ShowHideAlternate(m: ModalState)
  {
    Alternates(Phases(m.trace)) && (m.visible <==> |Phases(m.trace)| % 2 == 1)
  }

  ghost predicate Alternates(ph: seq<bool>)
  {
    forall i :: 0 <= i < |ph| ==> ph[i] == (i % 2 == 0)
  }

  lemma AlternatesSnoc(ph: seq<bool>, b: bool)
    requires Alternates(ph) && b == (|ph| % 2 == 0)
    ensures Alternates(ph + [b])
  {
    forall i | 0 <= i < |ph| + 1 ensures (ph + [b])[i] == (i % 2 == 0) {
      if i < |ph| {
        assert (ph + [b])[i] == ph[i];
      }
    }
  }

  /** Without fade the trace is a repetition of onShow, onShowEnd, onHide,
      onHideEnd, cut after an onShowEnd exactly when visible. */
  ghost predicate NoFadeTraceCycles(m: ModalState)
  {
    !m.settings.fade ==> Cycles(m.trace) && |m.trace| % 4 == (if m.visible then 2 else 0)
  }

  ghost predicate Cycles(trace: seq<Event>)
  {
    forall i :: 0 <= i < |trace| ==> Rank(trace[i]) == i % 4
  }

  lemma CyclesSnoc(trace: seq<Event>, e: Event)
    requires Cycles(trace) && Rank(e) == |trace| % 4
    ensures Cycles(trace + [e])
  {
    forall i | 0 <= i < |trace| + 1 ensures Rank((trace + [e])[i]) == i % 4 {
      if i < |trace| {
        assert (trace + [e])[i] == trace[i];
      }
    }
  }

  /** Every callback is handed a displayed surface, except `onHideEnd`, which
      always sees it with display `'none'`. */
  ghost predicate CallbacksSeeDisplay(m: ModalState)
  {
    SeesDisplay(m.trace)
  }

  ghost predicate SeesDisplay(trace: seq<Event>)
  {
    forall i :: 0 <= i < |trace| ==> (trace[i].seen.display == DisplayNone <==> trace[i].OnHideEnd?)
  }

  lemma SeesDisplaySnoc(trace: seq<Event>, e: Event)
    requires SeesDisplay(trace) && (e.seen.display == DisplayNone <==> e.OnHideEnd?)
    ensures SeesDisplay(trace + [e])
  {
    forall i | 0 <= i < |trace| + 1
      ensures (trace + [e])[i].seen.display == DisplayNone <==> (trace + [e])[i].OnHideEnd?
    {
      if i < |trace| {
        assert (trace + [e])[i] == trace[i];
      }
    }
  }

  ghost predicate Inv(m: ModalState)
  {
    VisibleIsDisplayed(m) && NoFadeIsSynchronous(m) && ShowHideAlternate(m)
    && NoFadeTraceCycles(m) && CallbacksSeeDisplay(m)
  }

  lemma InitInv(opts: Options, transitionSupported: bool, elem: NodeId, initial: Surface)
    ensures Inv(Init(opts, transitionSupported, elem, initial))
  {
  }

  /** The wrapped `onHideEnd` keeps the trace facts that concern it. */
  lemma HideEndKeeps(m: ModalState)
    requires !m.visible && CallbacksSeeDisplay(m)
    ensures var r := HideEnd(m);
      && CallbacksSeeDisplay(r) && VisibleIsDisplayed(r) && Phases(r.trace) == Phases(m.trace)
      && r.settings == m.settings && r.pendingTicks == m.pendingTicks && !r.visible
      && r.surface.display == DisplayNone
  {
    var e := OnHideEnd(m.surface.(display := DisplayNone));
    PhasesSnoc(m.trace, e);
    SeesDisplaySnoc(m.trace, e);
  }

  /** The two calls a `show` without fade adds complete half a round. */
  lemma ShowRound(trace: seq<Event>, s: Surface, t: Target)
    requires Cycles(trace) && |trace| % 4 == 0 && SeesDisplay(trace) && s.display == DisplayBlock
    ensures var r := trace + [OnShow(s, t)] + [OnShowEnd(s)];
      Cycles(r) && |r| % 4 == 2 && SeesDisplay(r) && Phases(r) == Phases(trace) + [true]
  {
    var r1 := trace + [OnShow(s, t)];
    assert |r1| % 4 == SHOW_END_RANK by { assert |r1| == |trace| + 1; }
    assert |r1 + [OnShowEnd(s)]| % 4 == 2 by { assert |r1 + [OnShowEnd(s)]| == |trace| + 2; }
    CyclesSnoc(trace, OnShow(s, t));
    CyclesSnoc(r1, OnShowEnd(s));
    SeesDisplaySnoc(trace, OnShow(s, t));
    SeesDisplaySnoc(r1, OnShowEnd(s));
    PhasesSnoc(trace, OnShow(s, t));
    PhasesSnoc(r1, OnShowEnd(s));
  }

  /** The two calls a `hide` without fade adds complete the round. */
  lemma HideRound(trace: seq<Event>, s: Surface, t: Target)
    requires Cycles(trace) && |trace| % 4 == 2 && SeesDisplay(trace) && s.display == DisplayBlock
    ensures var r := trace + [OnHide(s, t)] + [OnHideEnd(s.(display := DisplayNone))];
      Cycles(r) && |r| % 4 == 0 && SeesDisplay(r) && Phases(r) == Phases(trace) + [false]
  {
    var r1 := trace + [OnHide(s, t)];
    var e := OnHideEnd(s.(display := DisplayNone));
    assert |r1| % 4 == HIDE_END_RANK by { assert |r1| == |trace| + 1; }
    assert |r1 + [e]| % 4 == 0 by { assert |r1 + [e]| == |trace| + 2; }
    CyclesSnoc(trace, OnHide(s, t));
    CyclesSnoc(r1, e);
    SeesDisplaySnoc(trace, OnHide(s, t));
    SeesDisplaySnoc(r1, e);
    PhasesSnoc(trace, OnHide(s, t));
    PhasesSnoc(r1, e);
  }

  lemma ShowKeepsInv(p: Page, t: Target)
    requires Inv(p.modal)
    ensures Inv(Show(p, t).modal)
  {
    if !p.modal.visible {
      if p.modal.settings.fade {
        ShowFadeKeepsInv(p, t);
      } else {
        ShowNoFadeKeepsInv(p, t);
      }
    }
  }

  lemma ShowFadeKeepsInv(p: Page, t: Target)
    requires Inv(p.modal) && !p.modal.visible && p.modal.settings.fade
    ensures Inv(Show(p, t).modal)
  {
    var m := p.modal;
    var q := Show(p, t).modal;
    var ph := Phases(m.trace);
    assert q.trace == m.trace + [OnShow(q.surface, t)];
    assert q.visible && q.surface.display == DisplayBlock && q.settings == m.settings;
    AlternatesSnoc(ph, true);
    PhasesSnoc(m.trace, OnShow(q.surface, t));
    SeesDisplaySnoc(m.trace, OnShow(q.surface, t));
    assert |ph + [true]| % 2 == 1 by { assert |ph + [true]| == |ph| + 1; }
    assert ShowHideAlternate(q);
  }

  lemma ShowNoFadeKeepsInv(p: Page, t: Target)
    requires Inv(p.modal) && !p.modal.visible && !p.modal.settings.fade
    ensures Inv(Show(p, t).modal)
  {
    var m := p.modal;
    var q := Show(p, t).modal;
    var ph := Phases(m.trace);
    assert q.trace == m.trace + [OnShow(q.surface, t)] + [OnShowEnd(q.surface)];
    assert q.visible && q.surface.display == DisplayBlock && q.settings == m.settings;
    assert q.pendingTicks == 0;
    AlternatesSnoc(ph, true);
    ShowRound(m.trace, q.surface, t);
    assert |ph + [true]| % 2 == 1 by { assert |ph + [true]| == |ph| + 1; }
    assert ShowHideAlternate(q);
    assert NoFadeTraceCycles(q);
  }

  lemma HideKeepsInv(p: Page, t: Target)
    requires Inv(p.modal)
    ensures Inv(Hide(p, t).modal)
  {
    var m := p.modal;
    if m.visible {
      var q := Hide(p, t).modal;
      var ph := Phases(m.trace);
      assert |ph| % 2 == 1;
      AlternatesSnoc(ph, false);
      if m.settings.fade {
        assert q.trace == m.trace + [OnHide(q.surface, t)];
        PhasesSnoc(m.trace, OnHide(q.surface, t));
        SeesDisplaySnoc(m.trace, OnHide(q.surface, t));
      } else {
        assert q.trace == m.trace + [OnHide(m.surface, t)] + [OnHideEnd(m.surface.(display := DisplayNone))];
        HideRound(m.trace, m.surface, t);
        assert NoFadeTraceCycles(q);
      }
      assert Phases(q.trace) == ph + [false];
      assert |ph + [false]| % 2 == 0 by { assert |ph + [false]| == |ph| + 1; }
      assert ShowHideAlternate(q);
      assert CallbacksSeeDisplay(q);
      assert VisibleIsDisplayed(q) && NoFadeIsSynchronous(q);
    }
  }

  lemma TransitionEndKeepsInv(p: Page)
    requires Inv(p.modal)
    ensures Inv(TransitionEnd(p).modal)
  {
    var m := p.modal;
    if m.settings.fade {
      if m.visible {
        PhasesSnoc(m.trace, OnShowEnd(m.surface));
        SeesDisplaySnoc(m.trace, OnShowEnd(m.surface));
      } else {
        HideEndKeeps(m);
      }
    }
  }

  /** Every action keeps the invariant, the settings and the element. */
  lemma ApplyKeepsInv(p: Page, a: Action)
    requires Inv(p.modal) && Enabled(p.modal, a)
    ensures Inv(Apply(p, a).modal)
    ensures Apply(p, a).modal.settings == p.modal.settings && Apply(p, a).modal.elem == p.modal.elem
  {
    match a
    case ShowCall(t) => ShowKeepsInv(p, t);
    case HideCall(t) => HideKeepsInv(p, t);
    case Click(t) => HideKeepsInv(p, Node(p.modal.elem));
    case Key(code, t) => HideKeepsInv(p, t);
    case TimerFires =>
    case TransitionEnded => TransitionEndKeepsInv(p);
    case OtherWrites(o) =>
  }

  lemma {:induction false} RunKeepsInv(p: Page, acts: seq<Action>)
    requires Inv(p.modal) && Executable(p, acts)
    ensures Inv(Run(p, acts).modal)
    ensures Run(p, acts).modal.settings == p.modal.settings && Run(p, acts).modal.elem == p.modal.elem
    decreases |acts|
  {
    if acts != [] {
      ApplyKeepsInv(p, acts[0]);
      RunKeepsInv(Apply(p, acts[0]), acts[1..]);
    }
  }

  /** In every state reachable from construction: a visible modal is
      displayed; without fade display is exactly visibility, no timer is
      pending and the callbacks come in complete onShow, onShowEnd, onHide,
      onHideEnd rounds; `onShow` and `onHide` alternate and visibility is
      whether the last was `onShow`; only `onHideEnd` sees the surface hidden;
      the settings are those fixed at construction. */
  lemma Reachable(opts: Options, transitionSupported: bool, elem: NodeId, initial: Surface,
                  overflow: string, acts: seq<Action>)
    requires Executable(Page(Init(opts, transitionSupported, elem, initial), overflow), acts)
    ensures var m := Run(Page(Init(opts, transitionSupported, elem, initial), overflow), acts).modal;
      && (m.visible ==> m.surface.display == DisplayBlock)
      && (!m.settings.fade ==> m.pendingTicks == 0 && (m.surface.display == DisplayBlock <==> m.visible))
      && (!m.settings.fade ==> forall i :: 0 <= i < |m.trace| ==> Rank(m.trace[i]) == i % 4)
      && (forall i :: 0 <= i < |Phases(m.trace)| ==> Phases(m.trace)[i] == (i % 2 == 0))
      && (m.visible <==> |Phases(m.trace)| % 2 == 1)
      && (forall i :: 0 <= i < |m.trace| ==> (m.trace[i].seen.display == DisplayNone <==> m.trace[i].OnHideEnd?))
      && m.settings == Configure(opts, transitionSupported) && m.elem == elem
  {
    var p := Page(Init(opts, transitionSupported, elem, initial), overflow);
    InitInv(opts, transitionSupported, elem, initial);
    RunKeepsInv(p, acts);
  }
}
