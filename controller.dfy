/** The `Modal` controller as an object: its fields are updated in place by
    `show`, `hide` and the three listeners, and `document.body` is an object
    shared by every controller of the page. Each method leaves the object in
    the state the matching ModalMachine function gives for its old state. */
module ModalController {
  import opened Dom
  import M = ModalMachine
  import ModalRuns

  /** `document.body`, as far as controllers touch it. */
  class Body {
    var overflow: string

    constructor (overflow: string)
      ensures this.overflow == overflow
    {
      this.overflow := overflow;
    }
  }

  class Modal {
    const elem: NodeId
    const body: Body
    const fade: bool
    const scrollTop: bool
    var isVisible: bool
    var surface: Surface
    var pendingTicks: nat
    /** The user callbacks called so far, in order. */
    ghost var trace: seq<M.Event>

    ghost function State(): M.ModalState
      reads this
    {
      M.ModalState(M.Settings(fade, scrollTop), elem, isVisible, surface, pendingTicks, trace)
    }

    ghost function Page(): M.Page
      reads this, body
    {
      M.Page(State(), body.overflow)
    }

    ghost predicate Valid()
      reads this
    {
      ModalRuns.Inv(State())
    }

    /** Construction: take the settings, hide the surface. Whether the host
        supports transition-end events is `transitionSupported`; `initial` is
        the surface's style before the constructor runs. */
    constructor (elem: NodeId, initial: Surface, body: Body, opts: M.Options, transitionSupported: bool)
      ensures Valid()
      ensures State() == M.Init(opts, transitionSupported, elem, initial)
      ensures this.body == body
    {
      this.elem := elem;
      this.body := body;
      fade := if transitionSupported then opts.fade else false;
      scrollTop := if opts.scrollTop.Some? then opts.scrollTop.value else true;
      isVisible := false;
      surface := initial.(display := DisplayNone);
      pendingTicks := 0;
      trace := [];
      new;
      ModalRuns.InitInv(opts, transitionSupported, elem, initial);
    }

    /** The wrapped `onHideEnd`: hide the surface, then call the user's callback. */
    method HideEnd()
      modifies this
      ensures State() == M.HideEnd(old(State()))
    {
      surface := surface.(display := DisplayNone);
      trace := trace + [M.OnHideEnd(surface)];
    }

    method Show(trigger: Target)
      requires Valid()
      modifies this, body
      ensures Valid()
      ensures Page() == M.Show(old(Page()), trigger)
    {
      ghost var before := Page();
      if !isVisible {
        body.overflow := M.LOCKED;
        if fade {
          surface := surface.(opacity := Transparent);
        }
        surface := surface.(display := DisplayBlock);
        if scrollTop {
          surface := surface.(scrollTop := 0);
        }
        if fade {
          pendingTicks := pendingTicks + 1;
        }
        isVisible := true;
        trace := trace + [M.OnShow(surface, trigger)];
        if !fade {
          trace := trace + [M.OnShowEnd(surface)];
        }
      }
      assert Page() == M.Show(before, trigger);
      ModalRuns.ShowKeepsInv(before, trigger);
    }

    method Hide(trigger: Target)
      requires Valid()
      modifies this, body
      ensures Valid()
      ensures Page() == M.Hide(old(Page()), trigger)
    {
      ghost var before := Page();
      if isVisible {
        body.overflow := M.UNLOCKED;
        if fade {
          surface := surface.(opacity := Transparent);
        }
        isVisible := false;
        trace := trace + [M.OnHide(surface, trigger)];
        if !fade {
          HideEnd();
        }
      }
      ModalRuns.HideKeepsInv(before, trigger);
    }

    /** The `setTimeout` callback that starts the fade-in. */
    method Tick()
      requires Valid() && pendingTicks > 0
      modifies this
      ensures Valid()
      ensures Page() == M.Tick(old(Page()))
    {
      surface := surface.(opacity := Opaque);
      pendingTicks := pendingTicks - 1;
    }

    /** A transition-end event on the surface; only listened to when fading. */
    method TransitionEnd()
      requires Valid()
      modifies this
      ensures Valid()
      ensures Page() == M.TransitionEnd(old(Page()))
    {
      ghost var before := Page();
      if fade {
        if isVisible {
          trace := trace + [M.OnShowEnd(surface)];
        } else {
          HideEnd();
        }
      }
      ModalRuns.TransitionEndKeepsInv(before);
    }

    /** The surface's click listener. */
    method OverlayClick(target: Target)
      requires Valid()
      modifies this, body
      ensures Valid()
      ensures Page() == M.OverlayClick(old(Page()), target)
    {
      if target == Node(elem) {
        Hide(Node(elem));
      }
    }

    /** The document's keydown listener. */
    method KeyDown(keyCode: int, target: Target)
      requires Valid()
      modifies this, body
      ensures Valid()
      ensures Page() == M.KeyDown(old(Page()), keyCode, target)
    {
      if keyCode == M.ESCAPE {
        Hide(target);
      }
    }
  }

  /** Two controllers on one page: show A, show B, hide A. Scrolling is
      unlocked although B is still visible. */
  method SharedScrollLock(a: Modal, b: Modal, ta: Target, tb: Target, th: Target)
    requires a != b && a.body == b.body
    requires a.Valid() && b.Valid() && !a.isVisible && !b.isVisible
    modifies a, b, a.body
    ensures !a.isVisible && b.isVisible && a.body.overflow == M.UNLOCKED
  {
    a.Show(ta);
    b.Show(tb);
    assert b.isVisible;
    a.Hide(th);
  }

  /** A fading controller: `show` calls only `onShow`; the timer brings the
      opacity to 1; the transition-end event then calls `onShowEnd` once. */
  method FadeInScenario(elem: NodeId, initial: Surface, body: Body, trigger: Target) returns (m: Modal)
    modifies body
    ensures fresh(m) && m.body == body && m.isVisible && m.pendingTicks == 0
    ensures m.surface.display == DisplayBlock && m.surface.opacity == Opaque && body.overflow == M.LOCKED
    ensures |m.trace| == 2 && m.trace[0].OnShow? && m.trace[0].trigger == trigger && m.trace[1].OnShowEnd?
  {
    m := new Modal(elem, initial, body, M.Options(true, None), true);
    m.Show(trigger);
    assert |m.trace| == 1 && m.surface.opacity == Transparent && m.pendingTicks == 1;
    m.Tick();
    m.TransitionEnd();
  }
}
