/**
  The demo program (main.rs): open the display, create and map a window,
  select input, then handle one event per loop iteration while the
  `running` flag is set. Key 24 (Q) quits; key 54 (C) quits while key 37
  (Ctrl) is held; releasing 37 lets go of Ctrl.
 */
module App {
  import opened RustStd
  import opened Xlib
  import opened Librx

  const QuitKey: u32 := 24
  const CKey: u32 := 54
  const CtrlKey: u32 := 37

  /** The two flags the event handler closure captures. */
  datatype LoopState = LoopState(running: bool, ctrl: bool)

  /** `ctrl` starts false and `running` starts true. */
  const Start: LoopState := LoopState(true, false)

  /** The handler's reaction to a key press with the given code. */
  function OnKeyPress(s: LoopState, code: u32): LoopState
  {
    if code == QuitKey then s.(running := false)
    else if code == CKey then (if s.ctrl then s.(running := false) else s)
    else if code == CtrlKey then s.(ctrl := true)
    else s
  }

  /** The handler's reaction to a key release with the given code. */
  function OnKeyRelease(s: LoopState, code: u32): LoopState
  {
    if code == CtrlKey then s.(ctrl := false) else s
  }

  /** The events that make the handler change a flag. */
  predicate IsControlEvent(x: XEvent)
  {
    || (x.typ == KeyPress && (x.key.keycode == QuitKey || x.key.keycode == CKey || x.key.keycode == CtrlKey))
    || (x.typ == KeyRelease && x.key.keycode == CtrlKey)
  }

  /**
    The event handler closure: the key-press arm, then the key-release arm,
    each reached only through the tag-checked accessors.
   */
  function OnEvent(s: LoopState, ev: Event): (r: LoopState)
    ensures ev.e.typ == KeyPress && ev.e.key.keycode == QuitKey ==> r == s.(running := false)
    ensures ev.e.typ == KeyPress && ev.e.key.keycode == CKey ==> r == (if s.ctrl then s.(running := false) else s)
    ensures ev.e.typ == KeyPress && ev.e.key.keycode == CtrlKey ==> r == s.(ctrl := true)
    ensures ev.e.typ == KeyRelease && ev.e.key.keycode == CtrlKey ==> r == s.(ctrl := false)
    ensures !IsControlEvent(ev.e) ==> r == s
    ensures r.running <==> s.running && ev.KeyPressCode() != Some(QuitKey)
                           && !(ev.KeyPressCode() == Some(CKey) && s.ctrl)
    ensures r.ctrl <==> ev.KeyPressCode() == Some(CtrlKey) || (s.ctrl && ev.KeyReleaseCode() != Some(CtrlKey))
  {
    var pressed := match ev.KeyPressCode()
      case Some(code) => OnKeyPress(s, code)
      case None => s;
    match ev.KeyReleaseCode()
    case Some(code) => OnKeyRelease(pressed, code)
    case None => pressed
  }

  /** The flags after the handler has seen each of evs in turn. */
  function Fold(s: LoopState, evs: seq<XEvent>): LoopState
  {
    if evs == [] then s else OnEvent(Fold(s, evs[..|evs| - 1]), Event(evs[|evs| - 1]))
  }

  /** Once `running` is false it stays false, whatever events follow. */
  lemma {:induction false} StaysStopped(s: LoopState, evs: seq<XEvent>, k: nat)
    requires k <= |evs| && !Fold(s, evs[..k]).running
    ensures !Fold(s, evs).running
    decreases |evs| - k
  {
    if k == |evs| {
      assert evs[..k] == evs;
    } else {
      assert evs[..k + 1][..k] == evs[..k];
      StaysStopped(s, evs, k + 1);
    }
  }

  /** Ctrl went down at position i of evs and has not been released since. */
  predicate HeldSince(evs: seq<XEvent>, i: int)
    requires 0 <= i < |evs|
  {
    && Event(evs[i]).KeyPressCode() == Some(CtrlKey)
    && forall k :: i < k < |evs| ==> Event(evs[k]).KeyReleaseCode() != Some(CtrlKey)
  }

  predicate CtrlHeld(evs: seq<XEvent>)
  {
    exists i :: 0 <= i < |evs| && HeldSince(evs, i)
  }

  /** The `ctrl` flag is set exactly when Ctrl was pressed and not released since. */
  lemma {:induction false} CtrlTracksKey(evs: seq<XEvent>)
    ensures Fold(Start, evs).ctrl <==> CtrlHeld(evs)
  {
    if evs != [] {
      var n := |evs| - 1;
      var pre := evs[..n];
      CtrlTracksKey(pre);
      var ev := Event(evs[n]);
      if ev.KeyPressCode() == Some(CtrlKey) {
        assert HeldSince(evs, n);
      } else if ev.KeyReleaseCode() == Some(CtrlKey) {
        forall i | 0 <= i < |evs|
          ensures !HeldSince(evs, i)
        {
          if i < n {
            assert Event(evs[n]).KeyReleaseCode() == Some(CtrlKey);
          }
        }
      } else {
        assert Fold(Start, evs).ctrl == Fold(Start, pre).ctrl;
        assert !HeldSince(evs, n);
        forall i | 0 <= i < n
          ensures HeldSince(evs, i) <==> HeldSince(pre, i)
        {
          assert pre[i] == evs[i];
          assert forall k :: i < k < n ==> pre[k] == evs[k];
        }
        if CtrlHeld(evs) {
          var i :| 0 <= i < |evs| && HeldSince(evs, i);
          assert HeldSince(pre, i);
        }
        if CtrlHeld(pre) {
          var i :| 0 <= i < |pre| && HeldSince(pre, i);
          assert HeldSince(evs, i);
        }
      }
    }
  }

  /** The event at position j quits: Q, or C while Ctrl is held after the events before it. */
  predicate QuitsAt(evs: seq<XEvent>, j: int)
    requires 0 <= j < |evs|
  {
    var code := Event(evs[j]).KeyPressCode();
    code == Some(QuitKey) || (code == Some(CKey) && CtrlHeld(evs[..j]))
  }

  predicate Quits(evs: seq<XEvent>)
  {
    exists j :: 0 <= j < |evs| && QuitsAt(evs, j)
  }

  /** `running` is cleared exactly when some event is Q, or C while Ctrl is held. */
  lemma {:induction false} StopsIffQuit(evs: seq<XEvent>)
    ensures !Fold(Start, evs).running <==> Quits(evs)
  {
    if evs != [] {
      var n := |evs| - 1;
      var pre := evs[..n];
      StopsIffQuit(pre);
      CtrlTracksKey(pre);
      forall j | 0 <= j < n
        ensures QuitsAt(evs, j) <==> QuitsAt(pre, j)
      {
        assert evs[..j] == pre[..j];
      }
      assert evs[..n] == pre;
      if Fold(Start, pre).running {
        assert !Fold(Start, evs).running <==> QuitsAt(evs, n);
      }
      if Quits(evs) && !QuitsAt(evs, n) {
        var j :| 0 <= j < |evs| && QuitsAt(evs, j);
        assert QuitsAt(pre, j);
      }
      if Quits(pre) {
        var j :| 0 <= j < |pre| && QuitsAt(pre, j);
        assert QuitsAt(evs, j);
      }
      if QuitsAt(evs, n) {
        assert Quits(evs);
      }
    }
  }

  function Press(code: u32): XEvent
  {
    XEvent(KeyPress, XKeyEvent(code))
  }

  function Release(code: u32): XEvent
  {
    XEvent(KeyRelease, XKeyEvent(code))
  }

  /** Pressing Ctrl then C clears `running`. */
  lemma CtrlCStops()
    ensures Fold(Start, [Press(CtrlKey), Press(CKey)]) == LoopState(false, true)
  {
    var evs := [Press(CtrlKey), Press(CKey)];
    assert evs[..1] == [Press(CtrlKey)];
    assert evs[..1][..0] == [];
  }

  /** Pressing and releasing Ctrl before C leaves the program running. */
  lemma ReleasedCtrlThenCKeepsRunning()
    ensures Fold(Start, [Press(CtrlKey), Release(CtrlKey), Press(CKey)]) == Start
  {
    var evs := [Press(CtrlKey), Release(CtrlKey), Press(CKey)];
    assert evs[..2] == [Press(CtrlKey), Release(CtrlKey)];
    assert evs[..2][..1] == [Press(CtrlKey)];
    assert evs[..2][..1][..0] == [];
    assert Fold(Start, evs[..2][..1]) == LoopState(true, true);
    assert Fold(Start, evs[..2]) == Start;
  }

  /** The loop handles exactly n events: it was running before each, and stops after the n-th. */
  predicate StopsAfter(evs: seq<XEvent>, n: nat)
  {
    && 0 < n <= |evs|
    && !Fold(Start, evs[..n]).running
    && forall k :: 0 <= k < n ==> Fold(Start, evs[..k]).running
  }

  /** The calls XNextEvent records for delivering evs on connection d. */
  function NextEvents(d: Handle, evs: seq<XEvent>): seq<NativeCall>
  {
    if evs == [] then [] else NextEvents(d, evs[..|evs| - 1]) + [NextEvent(d, evs[|evs| - 1])]
  }

  /** main after opening the display, up to the loop: create the window with GCV::new, map, select input. */
  function WindowSetupCalls(d: Handle, w: Handle, g: Handle): seq<NativeCall>
  {
    NewWindowCalls(d, w, NewGCV(), g) + [MapRaised(d, w), SelectInput(d, w, InputMask)]
  }

  /** main up to the loop: open the display, then WindowSetupCalls. */
  function SetupCalls(d: Handle, w: Handle, g: Handle): seq<NativeCall>
  {
    [OpenDisplay(None, d)] + WindowSetupCalls(d, w, g)
  }

  /** main after the loop: the window is dropped, then the display. */
  function TeardownCalls(d: Handle, w: Handle, g: Handle): seq<NativeCall>
  {
    DropWindowCalls(d, w, g) + [CloseDisplay(d)]
  }

  /** Delivering events neither acquires nor releases anything. */
  lemma {:induction false} NextEventsKeepLive(live: set<Resource>, d: Handle, evs: seq<XEvent>)
    requires Conn(d) in live
    ensures Permitted(live, NextEvents(d, evs)) && Replay(live, NextEvents(d, evs)) == live
  {
    if evs != [] {
      var n := |evs| - 1;
      var last := [NextEvent(d, evs[n])];
      NextEventsKeepLive(live, d, evs[..n]);
      ReplayAppend(live, NextEvents(d, evs[..n]), last);
      assert last[0..] == last && last[1..] == [];
      ReplayStep(live, last, 0);
    }
  }

  /**
    A run of main that leaves its loop is permitted by the native library,
    leaves behind exactly the resources that were live before it, and
    releases every resource exactly as often as it acquires it.
   */
  lemma CompletedRunIsBalanced(live: set<Resource>, d: Handle, w: Handle, g: Handle, evs: seq<XEvent>)
    requires d != Null && g != Null
    requires Conn(d) !in live && Win(d, w) !in live && GC(d, g) !in live
    ensures Permitted(live, SetupCalls(d, w, g) + NextEvents(d, evs) + TeardownCalls(d, w, g))
    ensures Replay(live, SetupCalls(d, w, g) + NextEvents(d, evs) + TeardownCalls(d, w, g)) == live
    ensures forall r :: AcquireCount(SetupCalls(d, w, g) + NextEvents(d, evs) + TeardownCalls(d, w, g), r)
                     == ReleaseCount(SetupCalls(d, w, g) + NextEvents(d, evs) + TeardownCalls(d, w, g), r)
  {
    var open := [OpenDisplay(None, d)];
    var create := NewWindowCalls(d, w, NewGCV(), g);
    var select := [MapRaised(d, w), SelectInput(d, w, InputMask)];
    var events := NextEvents(d, evs);
    var drop := DropWindowCalls(d, w, g);
    var close := [CloseDisplay(d)];
    var l1 := live + {Conn(d)};
    var l2 := l1 + {Win(d, w), GC(d, g)};

    assert Permitted(live, open) && Replay(live, open) == l1 by {
      assert open[0..] == open && open[1..] == [];
      ReplayStep(live, open, 0);
    }
    NewWindowSucceeds(l1, d, w, NewGCV(), g);
    assert Permitted(l2, select) && Replay(l2, select) == l2 by {
      assert select[0..] == select && select[2..] == [];
      ReplayStep(l2, select, 0);
      ReplayStep(l2, select, 1);
    }
    NextEventsKeepLive(l2, d, evs);
    DropWindowReleases(l2, d, w, g);
    assert l2 - {Win(d, w), GC(d, g)} == l1;
    assert Permitted(l1, close) && Replay(l1, close) == live by {
      assert close[0..] == close && close[1..] == [];
      ReplayStep(l1, close, 0);
    }

    ReplayAppend(live, open, create);
    ReplayAppend(live, open + create, select);
    assert SetupCalls(d, w, g) == open + create + select;
    ReplayAppend(live, SetupCalls(d, w, g), events);
    ReplayAppend(live, SetupCalls(d, w, g) + events, drop);
    ReplayAppend(live, SetupCalls(d, w, g) + events + drop, close);
    assert TeardownCalls(d, w, g) == drop + close;
    var all := SetupCalls(d, w, g) + events + TeardownCalls(d, w, g);
    assert all == SetupCalls(d, w, g) + events + drop + close;
    ReleasedAsOftenAsAcquired(live, all);
  }

  /**
    The `while running` loop of main: `ctrl` and `running` start as in
    Start, and each iteration hands one delivered event to the handler
    closure. When the events run out while the program is still running,
    the loop stops where `next` would block.
   */
  method HandleEvents(handler: EventHandler, display: Display, events: seq<XEvent>)
    returns (state: LoopState, handled: nat)
    requires handler.Valid() && handler.display == display
    modifies display.backend
    ensures handler.Valid() && display.backend.next == old(display.backend.next)
    ensures handled <= |events| && state == Fold(Start, events[..handled])
    ensures state.running ==> handled == |events|
    ensures forall k :: 0 <= k < handled ==> Fold(Start, events[..k]).running
    ensures display.backend.trace == old(display.backend.trace) + NextEvents(display.display, events[..handled])
    ensures display.backend.live == old(display.backend.live)
  {
    var b := display.backend;
    state, handled := Start, 0;
    while state.running
      invariant 0 <= handled <= |events|
      invariant state == Fold(Start, events[..handled])
      invariant forall k :: 0 <= k < handled ==> Fold(Start, events[..k]).running
      invariant handler.Valid() && b.next == old(b.next) && b.live == old(b.live)
      invariant b.trace == old(b.trace) + NextEvents(display.display, events[..handled])
      decreases |events| - handled
    {
      if handled == |events| {
        return;
      }
      state := handler.Next(display, events[handled], OnEvent, state);
      assert events[..handled + 1][..handled] == events[..handled];
      handled := handled + 1;
    }
  }

  /** How a run of main ends. */
  datatype Exit =
    | Failed(message: string)                  // the error is printed and the process exits with status 1
    | Blocked(state: LoopState)                // every event was handled and `next` waits for another
    | Finished(state: LoopState, handled: nat) // the loop ended; the window and the display were dropped

  /**
    The part of main that runs while the display is open: create the window
    with GCV::new (on failure print and exit), map it, select input, run the
    loop, and drop the window when the loop ends.
   */
  method RunWindow(display: Display, events: seq<XEvent>, gcCreated: bool) returns (exit: Exit)
    requires display.Valid()
    modifies display.backend
    ensures display.Valid()
    ensures !gcCreated ==> exit == Failed("Failed to create GC")
    ensures !gcCreated ==>
              display.backend.trace == old(display.backend.trace)
                + NewWindowCalls(display.display, old(display.backend.next), NewGCV(), Null)
    ensures !gcCreated ==> display.backend.live == old(display.backend.live)
    ensures gcCreated <==> exit.Blocked? || exit.Finished?
    ensures exit.Blocked? ==> exit.state == Fold(Start, events)
    ensures exit.Blocked? ==> forall k :: 0 <= k <= |events| ==> Fold(Start, events[..k]).running
    ensures exit.Blocked? ==>
              display.backend.trace == old(display.backend.trace)
                + WindowSetupCalls(display.display, old(display.backend.next), old(display.backend.next) + 1)
                + NextEvents(display.display, events)
    ensures exit.Blocked? ==>
              display.backend.live == old(display.backend.live)
                + {Win(display.display, old(display.backend.next)), GC(display.display, old(display.backend.next) + 1)}
    ensures exit.Finished? ==> StopsAfter(events, exit.handled) && exit.state == Fold(Start, events[..exit.handled])
    ensures exit.Finished? ==>
              display.backend.trace == old(display.backend.trace)
                + WindowSetupCalls(display.display, old(display.backend.next), old(display.backend.next) + 1)
                + NextEvents(display.display, events[..exit.handled])
                + DropWindowCalls(display.display, old(display.backend.next), old(display.backend.next) + 1)
    ensures exit.Finished? ==> display.backend.live == old(display.backend.live)
    ensures display.backend.next == old(display.backend.next) + (if gcCreated then 2 else 1)
  {
    var created := Window.New(display, NewGCV(), gcCreated);
    if created.Err? {
      // process::exit runs no destructor: the display is left open.
      return Failed(created.error);
    }
    var window := created.value;
    window.Map();
    var handler := new EventHandler(display, window);
    handler.SelectInput();
    var state, handled := HandleEvents(handler, display, events);
    if state.running {
      // `next` blocks for an event that never comes.
      assert events[..handled] == events;
      return Blocked(state);
    }
    window.Drop();
    return Finished(state, handled);
  }

  /**
    main, with the native library's choices as parameters: whether the
    display opens, whether the GC is created, and the events the server
    delivers, in order. The display is dropped after the window.
   */
  method RunMain(b: Backend, events: seq<XEvent>, displayOpens: bool, gcCreated: bool) returns (exit: Exit)
    requires b.Valid()
    modifies b
    ensures b.Valid()
    ensures !displayOpens ==> exit == Failed("Failed to open display")
    ensures !displayOpens ==> b.trace == old(b.trace) + [OpenDisplay(None, Null)] && b.live == old(b.live)
    ensures displayOpens && !gcCreated ==> exit == Failed("Failed to create GC")
    ensures displayOpens && !gcCreated ==>
              b.trace == old(b.trace) + [OpenDisplay(None, old(b.next))]
                         + NewWindowCalls(old(b.next), old(b.next) + 1, NewGCV(), Null)
    ensures displayOpens && !gcCreated ==> b.live == old(b.live) + {Conn(old(b.next))}
    ensures displayOpens && gcCreated <==> exit.Blocked? || exit.Finished?
    ensures exit.Blocked? ==> exit.state == Fold(Start, events)
    ensures exit.Blocked? ==> forall k :: 0 <= k <= |events| ==> Fold(Start, events[..k]).running
    ensures exit.Blocked? ==>
              b.trace == old(b.trace) + SetupCalls(old(b.next), old(b.next) + 1, old(b.next) + 2)
                         + NextEvents(old(b.next), events)
    ensures exit.Blocked? ==>
              b.live == old(b.live) + {Conn(old(b.next)), Win(old(b.next), old(b.next) + 1), GC(old(b.next), old(b.next) + 2)}
    ensures exit.Finished? ==> StopsAfter(events, exit.handled) && exit.state == Fold(Start, events[..exit.handled])
    ensures exit.Finished? ==>
              b.trace == old(b.trace) + SetupCalls(old(b.next), old(b.next) + 1, old(b.next) + 2)
                         + NextEvents(old(b.next), events[..exit.handled])
                         + TeardownCalls(old(b.next), old(b.next) + 1, old(b.next) + 2)
    ensures exit.Finished? ==> b.live == old(b.live)
  {
    ghost var t0, d := b.trace, b.next;
    var connected := Display.New(b, None, displayOpens);
    if connected.Err? {
      return Failed(connected.error);
    }
    var display := connected.value;
    ghost var t1 := b.trace;
    exit := RunWindow(display, events, gcCreated);
    if exit.Finished? {
      ghost var handled := NextEvents(d, events[..exit.handled]);
      ghost var w := WindowSetupCalls(d, d + 1, d + 2);
      assert b.trace == t1 + w + handled + DropWindowCalls(d, d + 1, d + 2);
      display.Drop();
      assert SetupCalls(d, d + 1, d + 2) == [OpenDisplay(None, d)] + w;
      assert b.trace == t0 + SetupCalls(d, d + 1, d + 2) + handled + TeardownCalls(d, d + 1, d + 2);
    } else if exit.Blocked? {
      assert SetupCalls(d, d + 1, d + 2) == [OpenDisplay(None, d)] + WindowSetupCalls(d, d + 1, d + 2);
    }
  }
}
