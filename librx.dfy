/**
  The wrapper library (module `librx`): owning wrappers around a display
  connection and a window with its graphics context, a tag-checked view of
  an event, and an event handler that selects input and delivers one event
  per call. Every native call goes to an Xlib.Backend.
 */
module Librx {
  import opened RustStd
  import opened Xlib

  /** The fixed geometry and colours of every window Window::new creates. */
  const WindowWidth: nat := 200
  const WindowHeight: nat := 100
  const BorderColor: nat := 0x00ff0000
  const BackgroundColor: nat := 0x0000ff00

  /** The event classes select_input registers: exposure, key press, key release, button press. */
  const InputMask: bv64 := ExposureMask | KeyPressMask | KeyReleaseMask | ButtonPressMask

  /** A GC configuration: the mask of attributes to apply and the attribute record. */
  datatype GCV = GCV(flags: u64, gcv: GCValues)

  predicate IsZero(v: GCValues)
  {
    && v.func == 0 && v.planeMask == 0 && v.foreground == 0 && v.background == 0
    && v.lineWidth == 0 && v.lineStyle == 0 && v.capStyle == 0 && v.joinStyle == 0
    && v.fillStyle == 0 && v.fillRule == 0 && v.arcMode == 0 && v.tile == 0
    && v.stipple == 0 && v.tsXOrigin == 0 && v.tsYOrigin == 0 && v.font == 0
    && v.subwindowMode == 0 && v.graphicsExposures == 0 && v.clipXOrigin == 0
    && v.clipYOrigin == 0 && v.clipMask == 0 && v.dashOffset == 0 && v.dashes == 0
  }

  /** GCV::new: no attribute is marked for use, and every attribute is zero. */
  function NewGCV(): (g: GCV)
    ensures g.flags == 0 && IsZero(g.gcv)
  {
    GCV(0, GCValues(0, 0, 0, 0, 0, 0, 0, 0, 0, 0, 0, 0, 0, 0, 0, 0, 0, 0, 0, 0, 0, 0, 0))
  }

  /** A delivered event: the raw record, read only through its type tag. */
  datatype Event = Event(e: XEvent)
  {
    /** The type tag; it alone decides whether the key member of the union may be read. */
    function GetType(): (t: int)
      ensures IsKeyEvent(e) <==> t == KeyPress || t == KeyRelease
    {
      e.typ
    }

    /** The key code of a key press, and nothing for any other kind of event. */
    function KeyPressCode(): (r: Option<u32>)
      ensures r.Some? <==> e.typ == KeyPress
      ensures r.Some? ==> r.value == e.key.keycode
    {
      if GetType() != KeyPress then None else Some(KeyCodeOf(e))
    }

    /** The key code of a key release, and nothing for any other kind of event. */
    function KeyReleaseCode(): (r: Option<u32>)
      ensures r.Some? <==> e.typ == KeyRelease
      ensures r.Some? ==> r.value == e.key.keycode
    {
      if GetType() != KeyRelease then None else Some(KeyCodeOf(e))
    }
  }

  /** At most one accessor yields a code, and neither does for an event that is not a key event. */
  lemma AtMostOneKeyCode(ev: Event)
    ensures ev.KeyPressCode() == None || ev.KeyReleaseCode() == None
    ensures !IsKeyEvent(ev.e) ==> ev.KeyPressCode() == None && ev.KeyReleaseCode() == None
  {
  }

  /** The native calls Window::new makes on connection d for a window w whose GC creation returned g. */
  function NewWindowCalls(d: Handle, w: Handle, gcv: GCV, g: Handle): seq<NativeCall>
  {
    [ DefaultRootWindow(d),
      CreateSimpleWindow(d, RootWindow, 0, 0, WindowWidth, WindowHeight, 0, 0, 0, w),
      CreateGC(d, w, gcv.flags, gcv.gcv, g) ]
    + if g == Null then [DestroyWindow(d, w)]
      else [SetWindowBorder(d, w, BorderColor), SetWindowBackground(d, w, BackgroundColor), ClearWindow(d, w)]
  }

  /** The native calls dropping a window makes: free the GC, unmap, destroy. */
  function DropWindowCalls(d: Handle, w: Handle, g: Handle): seq<NativeCall>
  {
    [FreeGC(d, g), UnmapWindow(d, w), DestroyWindow(d, w)]
  }

  /**
    When GC creation fails, Window::new is permitted, leaves the live
    resources as they were, destroys the new window exactly once and sets
    no border, background or clear on it.
   */
  lemma NewWindowRollsBack(live: set<Resource>, d: Handle, w: Handle, gcv: GCV)
    requires Conn(d) in live && Win(d, w) !in live
    ensures Permitted(live, NewWindowCalls(d, w, gcv, Null))
    ensures Replay(live, NewWindowCalls(d, w, gcv, Null)) == live
    ensures Occurrences(NewWindowCalls(d, w, gcv, Null), DestroyWindow(d, w)) == 1
    ensures forall c :: c in NewWindowCalls(d, w, gcv, Null) ==>
              !c.SetWindowBorder? && !c.SetWindowBackground? && !c.ClearWindow?
  {
    var t := NewWindowCalls(d, w, gcv, Null);
    var l1 := Apply(live, t[0]);
    var l2 := Apply(l1, t[1]);
    var l3 := Apply(l2, t[2]);
    assert l1 == live;
    assert l2 == live + {Win(d, w)};
    assert l3 == l2;
    assert Apply(l3, t[3]) == live;
    assert t[0..] == t && t[4..] == [];
    ReplayStep(live, t, 0);
    ReplayStep(l1, t, 1);
    ReplayStep(l2, t, 2);
    ReplayStep(l3, t, 3);
    assert Occurrences(t[3..], DestroyWindow(d, w)) == 1 by { assert t[3..][1..] == []; }
    assert Occurrences(t[2..], DestroyWindow(d, w)) == 1 by { assert t[2..][1..] == t[3..]; }
    assert Occurrences(t[1..], DestroyWindow(d, w)) == 1 by { assert t[1..][1..] == t[2..]; }
  }

  /**
    A window created and then dropped is permitted and leaves the live
    resources as they were: its window and its GC are each released exactly
    once, the GC before the window, in the reverse of their acquisition.
   */
  lemma WindowLifecycleBalanced(live: set<Resource>, d: Handle, w: Handle, gcv: GCV, g: Handle)
    requires Conn(d) in live && Win(d, w) !in live && g != Null && GC(d, g) !in live
    ensures Permitted(live, NewWindowCalls(d, w, gcv, g) + DropWindowCalls(d, w, g))
    ensures Replay(live, NewWindowCalls(d, w, gcv, g) + DropWindowCalls(d, w, g)) == live
    ensures AcquireCount(NewWindowCalls(d, w, gcv, g) + DropWindowCalls(d, w, g), Win(d, w)) == 1
    ensures ReleaseCount(NewWindowCalls(d, w, gcv, g) + DropWindowCalls(d, w, g), Win(d, w)) == 1
    ensures ReleaseCount(NewWindowCalls(d, w, gcv, g) + DropWindowCalls(d, w, g), GC(d, g)) == 1
  {
    var t := NewWindowCalls(d, w, gcv, g);
    var u := DropWindowCalls(d, w, g);
    var full := live + {Win(d, w), GC(d, g)};
    NewWindowSucceeds(live, d, w, gcv, g);
    DropWindowReleases(full, d, w, g);
    assert full - {Win(d, w), GC(d, g)} == live;
    ReplayAppend(live, t, u);
    NewWindowCounts(d, w, gcv, g);
    DropWindowCounts(d, w, g);
    CountsAppend(t, u, Win(d, w));
    CountsAppend(t, u, GC(d, g));
  }

  /** Dropping a live window is permitted and removes exactly its window and its GC. */
  lemma DropWindowReleases(live: set<Resource>, d: Handle, w: Handle, g: Handle)
    requires Conn(d) in live && Win(d, w) in live && GC(d, g) in live
    ensures Permitted(live, DropWindowCalls(d, w, g))
    ensures Replay(live, DropWindowCalls(d, w, g)) == live - {Win(d, w), GC(d, g)}
  {
    var u := DropWindowCalls(d, w, g);
    var m1 := Apply(live, u[0]);
    var m2 := Apply(m1, u[1]);
    assert m1 == live - {GC(d, g)};
    assert m2 == m1;
    assert Apply(m2, u[2]) == live - {Win(d, w), GC(d, g)};
    assert u[0..] == u && u[3..] == [];
    ReplayStep(live, u, 0);
    ReplayStep(m1, u, 1);
    ReplayStep(m2, u, 2);
  }

  /** Window::new on success acquires the window once and releases neither the window nor the GC. */
  lemma NewWindowCounts(d: Handle, w: Handle, gcv: GCV, g: Handle)
    requires g != Null
    ensures AcquireCount(NewWindowCalls(d, w, gcv, g), Win(d, w)) == 1
    ensures ReleaseCount(NewWindowCalls(d, w, gcv, g), Win(d, w)) == 0
    ensures ReleaseCount(NewWindowCalls(d, w, gcv, g), GC(d, g)) == 0
  {
    var t := NewWindowCalls(d, w, gcv, g);
    var win, gc := Win(d, w), GC(d, g);
    assert t[0..] == t && t[6..] == [];
    CountStep(t, 5, win); CountStep(t, 5, gc);
    CountStep(t, 4, win); CountStep(t, 4, gc);
    CountStep(t, 3, win); CountStep(t, 3, gc);
    CountStep(t, 2, win); CountStep(t, 2, gc);
    CountStep(t, 1, win); CountStep(t, 1, gc);
    CountStep(t, 0, win); CountStep(t, 0, gc);
  }

  /** Dropping a window releases its GC once and its window once. */
  lemma DropWindowCounts(d: Handle, w: Handle, g: Handle)
    ensures ReleaseCount(DropWindowCalls(d, w, g), Win(d, w)) == 1
    ensures ReleaseCount(DropWindowCalls(d, w, g), GC(d, g)) == 1
    ensures AcquireCount(DropWindowCalls(d, w, g), Win(d, w)) == 0
  {
    var u := DropWindowCalls(d, w, g);
    var win, gc := Win(d, w), GC(d, g);
    assert u[0..] == u && u[3..] == [];
    CountStep(u, 2, win); CountStep(u, 2, gc);
    CountStep(u, 1, win); CountStep(u, 1, gc);
    CountStep(u, 0, win); CountStep(u, 0, gc);
  }

  /** When GC creation succeeds, Window::new is permitted and adds exactly the window and its GC. */
  lemma NewWindowSucceeds(live: set<Resource>, d: Handle, w: Handle, gcv: GCV, g: Handle)
    requires Conn(d) in live && Win(d, w) !in live && g != Null && GC(d, g) !in live
    ensures Permitted(live, NewWindowCalls(d, w, gcv, g))
    ensures Replay(live, NewWindowCalls(d, w, gcv, g)) == live + {Win(d, w), GC(d, g)}
  {
    var t := NewWindowCalls(d, w, gcv, g);
    var l1 := Apply(live, t[0]);
    var l2 := Apply(l1, t[1]);
    var l3 := Apply(l2, t[2]);
    assert l1 == live;
    assert l2 == live + {Win(d, w)};
    assert l3 == live + {Win(d, w), GC(d, g)};
    assert Apply(l3, t[3]) == l3 && Apply(l3, t[4]) == l3 && Apply(l3, t[5]) == l3;
    assert t[0..] == t && t[6..] == [];
    ReplayStep(live, t, 0);
    ReplayStep(l1, t, 1);
    ReplayStep(l2, t, 2);
    ReplayStep(l3, t, 3);
    ReplayStep(l3, t, 4);
    ReplayStep(l3, t, 5);
  }

  /** An open display connection (struct Display). */
  class Display {
    const backend: Backend
    const display: Handle

    constructor (backend: Backend, display: Handle)
      ensures this.backend == backend && this.display == display
    {
      this.backend := backend;
      this.display := display;
    }

    ghost predicate Valid()
      reads backend
    {
      backend.Valid() && Conn(display) in backend.live
    }

    /** Display::new: open a connection; a null handle is the error "Failed to open display". */
    static method New(backend: Backend, path: Option<string>, succeeds: bool) returns (r: Result<Display>)
      requires backend.Valid()
      modifies backend
      ensures backend.Valid()
      ensures r.Err? <==> !succeeds
      ensures r.Err? ==> r.error == "Failed to open display"
      ensures r.Err? ==> backend.trace == old(backend.trace) + [OpenDisplay(path, Null)]
      ensures r.Err? ==> backend.live == old(backend.live) && backend.next == old(backend.next)
      ensures r.Ok? ==> fresh(r.value) && r.value.backend == backend && r.value.Valid()
      ensures r.Ok? ==> r.value.display == old(backend.next) && backend.next == old(backend.next) + 1
      ensures r.Ok? ==> backend.trace == old(backend.trace) + [OpenDisplay(path, r.value.display)]
      ensures r.Ok? ==> backend.live == old(backend.live) + {Conn(r.value.display)}
    {
      var display := backend.XOpenDisplay(path, succeeds);
      if display == Null {
        return Err("Failed to open display");
      }
      var d := new Display(backend, display);
      return Ok(d);
    }

    /**
      Drop for Display: close the connection once. The windows borrowing the
      display have been dropped already, so none of its windows or GCs is live.
     */
    method Drop()
      requires Valid()
      requires forall r :: r in backend.live && !r.Conn? ==> r.display != display
      modifies backend
      ensures backend.Valid() && backend.next == old(backend.next)
      ensures backend.trace == old(backend.trace) + [CloseDisplay(display)]
      ensures backend.live == old(backend.live) - {Conn(display)}
    {
      backend.XCloseDisplay(display);
    }
  }

  /** A window with its GC, borrowing the display it was created on (struct Window). */
  class Window {
    const display: Display
    const window: Handle
    const gc: Handle

    constructor (display: Display, window: Handle, gc: Handle)
      ensures this.display == display && this.window == window && this.gc == gc
    {
      this.display := display;
      this.window := window;
      this.gc := gc;
    }

    ghost predicate Valid()
      reads display.backend
    {
      && display.Valid()
      && Win(display.display, window) in display.backend.live
      && GC(display.display, gc) in display.backend.live
    }

    /**
      Window::new: create a 200x100 window at the origin of the root window
      and a GC for it; when the GC is null, destroy the window and return
      "Failed to create GC", otherwise set border and background and clear.
     */
    static method New(display: Display, gcv: GCV, gcSucceeds: bool) returns (r: Result<Window>)
      requires display.Valid()
      modifies display.backend
      ensures display.Valid()
      ensures r.Err? <==> !gcSucceeds
      ensures r.Err? ==> r.error == "Failed to create GC"
      ensures r.Err? ==> display.backend.trace
                         == old(display.backend.trace) + NewWindowCalls(display.display, old(display.backend.next), gcv, Null)
      ensures r.Err? ==> display.backend.live == old(display.backend.live)
      ensures r.Err? ==> display.backend.next == old(display.backend.next) + 1
      ensures r.Ok? ==> fresh(r.value) && r.value.display == display && r.value.Valid()
      ensures r.Ok? ==> r.value.window == old(display.backend.next) && r.value.gc == old(display.backend.next) + 1
      ensures r.Ok? ==> display.backend.trace
                        == old(display.backend.trace) + NewWindowCalls(display.display, r.value.window, gcv, r.value.gc)
      ensures r.Ok? ==> display.backend.live
                        == old(display.backend.live) + {Win(display.display, r.value.window), GC(display.display, r.value.gc)}
      ensures r.Ok? ==> display.backend.next == old(display.backend.next) + 2
    {
      var b, d := display.backend, display.display;
      var root := b.XDefaultRootWindow(d);
      var window := b.XCreateSimpleWindow(d, root, 0, 0, WindowWidth, WindowHeight, 0, 0, 0);
      var gc := b.XCreateGC(d, window, gcv.flags, gcv.gcv, gcSucceeds);
      if gc == Null {
        b.XDestroyWindow(d, window);
        return Err("Failed to create GC");
      }
      b.XSetWindowBorder(d, window, BorderColor);
      b.XSetWindowBackground(d, window, BackgroundColor);
      b.XClearWindow(d, window);
      var w := new Window(display, window, gc);
      return Ok(w);
    }

    /** Window::map: raise and show the window. */
    method Map()
      requires Valid()
      modifies display.backend
      ensures Valid() && display.backend.next == old(display.backend.next)
      ensures display.backend.trace == old(display.backend.trace) + [MapRaised(display.display, window)]
      ensures display.backend.live == old(display.backend.live)
    {
      display.backend.XMapRaised(display.display, window);
    }

    /** Drop for Window: free the GC, unmap the window, destroy it. */
    method Drop()
      requires Valid()
      modifies display.backend
      ensures display.Valid() && display.backend.next == old(display.backend.next)
      ensures display.backend.trace == old(display.backend.trace) + DropWindowCalls(display.display, window, gc)
      ensures display.backend.live == old(display.backend.live) - {Win(display.display, window), GC(display.display, gc)}
    {
      var b, d := display.backend, display.display;
      b.XFreeGC(d, gc);
      b.XUnmapWindow(d, window);
      b.XDestroyWindow(d, window);
    }
  }

  /** Delivers events of a display's window to handlers (struct EventHandler). */
  class EventHandler {
    const display: Display
    const window: Window

    constructor (display: Display, window: Window)
      ensures this.display == display && this.window == window
    {
      this.display := display;
      this.window := window;
    }

    ghost predicate Valid()
      reads display.backend
    {
      window.display == display && window.Valid()
    }

    /** select_input: register exposure, key press, key release and button press for the window. */
    method SelectInput()
      requires Valid()
      modifies display.backend
      ensures Valid() && display.backend.next == old(display.backend.next)
      ensures display.backend.trace
              == old(display.backend.trace) + [NativeCall.SelectInput(display.display, window.window, InputMask)]
      ensures display.backend.live == old(display.backend.live)
      ensures EventMask(display.backend.trace, display.display, window.window) == Some(InputMask)
    {
      display.backend.XSelectInput(display.display, window.window, InputMask);
    }

    /**
      next: block until the connection delivers an event (here: the supplied
      one), then hand it to the handler f exactly once. The handler's
      captured state is threaded through as s.
     */
    method Next<S>(display: Display, supplied: XEvent, f: (S, Event) -> S, s: S) returns (s': S)
      requires display.Valid()
      modifies display.backend
      ensures display.Valid() && display.backend.next == old(display.backend.next)
      ensures display.backend.trace == old(display.backend.trace) + [NextEvent(display.display, supplied)]
      ensures display.backend.live == old(display.backend.live)
      ensures s' == f(s, Event(supplied))
    {
      var e := display.backend.XNextEvent(display.display, supplied);
      s' := f(s, Event(e));
    }
  }
}
