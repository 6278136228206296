/**
  An abstract stand-in for the native Xlib library that the wrapper calls.

  Every native call is appended to a trace, together with the handle it
  returned, and the set of live native resources is the replay of that
  trace. The fake server hands out fresh handles from a counter; whether
  XOpenDisplay or XCreateGC fails (returns null) is chosen by the caller.
  What the native library demands of its callers (a handle is used only
  while it is live, a handle is released only while it is live) is the
  predicate Permitted, which every trace of the backend satisfies.
 */
module Xlib {
  import opened RustStd

  /** The fixed-width unsigned integers of the native interface. */
  type u32 = x: int | 0 <= x < 0x1_0000_0000
  type u64 = x: int | 0 <= x < 0x1_0000_0000_0000_0000

  /** A native handle: a Display pointer, a window id or a GC pointer; 0 is null. */
  type Handle = nat

  const Null: Handle := 0

  /** The root window of every connection of the fake server. */
  const RootWindow: Handle := 1

  /** Event type codes (X.h). */
  const KeyPress: int := 2
  const KeyRelease: int := 3

  /** Event selection masks (X.h). */
  const KeyPressMask: bv64 := 0x1
  const KeyReleaseMask: bv64 := 0x2
  const ButtonPressMask: bv64 := 0x4
  const ExposureMask: bv64 := 0x8000

  /** The key member of the XEvent union. */
  datatype XKeyEvent = XKeyEvent(keycode: u32)

  /** The raw event record: a type tag and the storage of the union's key member. */
  datatype XEvent = XEvent(typ: int, key: XKeyEvent)

  predicate IsKeyEvent(ev: XEvent)
  {
    ev.typ == KeyPress || ev.typ == KeyRelease
  }

  /**
    Reads the key member of the union. The member is well defined only when
    the tag says the record is a key event, hence the precondition.
   */
  function KeyCodeOf(ev: XEvent): u32
    requires IsKeyEvent(ev)
  {
    ev.key.keycode
  }

  /** The attribute record XCreateGC takes (XGCValues). */
  datatype GCValues = GCValues(
    func: int, planeMask: int, foreground: int, background: int,
    lineWidth: int, lineStyle: int, capStyle: int, joinStyle: int,
    fillStyle: int, fillRule: int, arcMode: int, tile: int, stipple: int,
    tsXOrigin: int, tsYOrigin: int, font: int, subwindowMode: int,
    graphicsExposures: int, clipXOrigin: int, clipYOrigin: int,
    clipMask: int, dashOffset: int, dashes: int)

  /** A native resource that must be released: a connection, a window or a GC of a connection. */
  datatype Resource =
    | Conn(display: Handle)
    | Win(display: Handle, window: Handle)
    | GC(display: Handle, gc: Handle)

  function Id(r: Resource): Handle
  {
    match r
    case Conn(d) => d
    case Win(_, w) => w
    case GC(_, g) => g
  }

  /** One call into the native library; a creating call records the handle it returned. */
  datatype NativeCall =
    | OpenDisplay(name: Option<string>, display: Handle)
    | CloseDisplay(display: Handle)
    | DefaultRootWindow(display: Handle)
    | CreateSimpleWindow(display: Handle, parent: Handle, x: int, y: int,
                         width: nat, height: nat, borderWidth: nat,
                         border: nat, background: nat, window: Handle)
    | CreateGC(display: Handle, drawable: Handle, valueMask: u64, values: GCValues, gc: Handle)
    | FreeGC(display: Handle, gc: Handle)
    | MapRaised(display: Handle, window: Handle)
    | UnmapWindow(display: Handle, window: Handle)
    | DestroyWindow(display: Handle, window: Handle)
    | SetWindowBorder(display: Handle, window: Handle, pixel: nat)
    | SetWindowBackground(display: Handle, window: Handle, pixel: nat)
    | ClearWindow(display: Handle, window: Handle)
    | SelectInput(display: Handle, window: Handle, mask: bv64)
    | NextEvent(display: Handle, event: XEvent)

  /** The resource a call acquires (a null result acquires nothing). */
  function Acquired(c: NativeCall): set<Resource>
  {
    match c
    case OpenDisplay(_, d) => if d == Null then {} else {Conn(d)}
    case CreateSimpleWindow(d, _, _, _, _, _, _, _, _, w) => {Win(d, w)}
    case CreateGC(d, _, _, _, g) => if g == Null then {} else {GC(d, g)}
    case _ => {}
  }

  /** The resource a call releases. */
  function Released(c: NativeCall): set<Resource>
  {
    match c
    case CloseDisplay(d) => {Conn(d)}
    case FreeGC(d, g) => {GC(d, g)}
    case DestroyWindow(d, w) => {Win(d, w)}
    case _ => {}
  }

  /** The resources a call hands to the native library, which must be live at the call. */
  function Uses(c: NativeCall): set<Resource>
  {
    match c
    case OpenDisplay(_, _) => {}
    case CloseDisplay(d) => {Conn(d)}
    case DefaultRootWindow(d) => {Conn(d)}
    case CreateSimpleWindow(d, _, _, _, _, _, _, _, _, _) => {Conn(d)}
    case CreateGC(d, w, _, _, _) => {Conn(d), Win(d, w)}
    case FreeGC(d, g) => {Conn(d), GC(d, g)}
    case MapRaised(d, w) => {Conn(d), Win(d, w)}
    case UnmapWindow(d, w) => {Conn(d), Win(d, w)}
    case DestroyWindow(d, w) => {Conn(d), Win(d, w)}
    case SetWindowBorder(d, w, _) => {Conn(d), Win(d, w)}
    case SetWindowBackground(d, w, _) => {Conn(d), Win(d, w)}
    case ClearWindow(d, w) => {Conn(d), Win(d, w)}
    case SelectInput(d, w, _) => {Conn(d), Win(d, w)}
    case NextEvent(d, _) => {Conn(d)}
  }

  /** What the native library demands of one call: its handles are live, a new handle is fresh. */
  predicate Allowed(live: set<Resource>, c: NativeCall)
  {
    Uses(c) <= live && Released(c) <= live && Acquired(c) !! live
  }

  function Apply(live: set<Resource>, c: NativeCall): set<Resource>
  {
    (live - Released(c)) + Acquired(c)
  }

  /** The live resources after the calls of t, starting from live. */
  function Replay(live: set<Resource>, t: seq<NativeCall>): set<Resource>
    decreases t
  {
    if t == [] then live else Replay(Apply(live, t[0]), t[1..])
  }

  /** Every call of t, replayed from live, is one the native library allows. */
  predicate Permitted(live: set<Resource>, t: seq<NativeCall>)
    decreases t
  {
    t == [] || (Allowed(live, t[0]) && Permitted(Apply(live, t[0]), t[1..]))
  }

  /** How many calls of t acquire r. */
  function AcquireCount(t: seq<NativeCall>, r: Resource): nat
  {
    if t == [] then 0 else (if r in Acquired(t[0]) then 1 else 0) + AcquireCount(t[1..], r)
  }

  /** How many calls of t release r. */
  function ReleaseCount(t: seq<NativeCall>, r: Resource): nat
  {
    if t == [] then 0 else (if r in Released(t[0]) then 1 else 0) + ReleaseCount(t[1..], r)
  }

  /** How many times c occurs in t. */
  function Occurrences(t: seq<NativeCall>, c: NativeCall): nat
  {
    if t == [] then 0 else (if t[0] == c then 1 else 0) + Occurrences(t[1..], c)
  }

  /** The event mask in effect for window w of connection d: the last one selected, if any. */
  function EventMask(t: seq<NativeCall>, d: Handle, w: Handle): Option<bv64>
  {
    if t == [] then None
    else
      var c := t[|t| - 1];
      if c.SelectInput? && c.display == d && c.window == w then Some(c.mask)
      else EventMask(t[..|t| - 1], d, w)
  }

  /** Replays the call at index k of t: one unfolding of Replay and Permitted. */
  lemma ReplayStep(live: set<Resource>, t: seq<NativeCall>, k: nat)
    requires k < |t|
    ensures Replay(live, t[k..]) == Replay(Apply(live, t[k]), t[k + 1..])
    ensures Permitted(live, t[k..]) <==> Allowed(live, t[k]) && Permitted(Apply(live, t[k]), t[k + 1..])
  {
    assert t[k..][0] == t[k];
    assert t[k..][1..] == t[k + 1..];
  }

  /** Counts the call at index k of t: one unfolding of AcquireCount and ReleaseCount. */
  lemma CountStep(t: seq<NativeCall>, k: nat, r: Resource)
    requires k < |t|
    ensures AcquireCount(t[k..], r) == (if r in Acquired(t[k]) then 1 else 0) + AcquireCount(t[k + 1..], r)
    ensures ReleaseCount(t[k..], r) == (if r in Released(t[k]) then 1 else 0) + ReleaseCount(t[k + 1..], r)
  {
    assert t[k..][0] == t[k];
    assert t[k..][1..] == t[k + 1..];
  }

  /** Acquisitions and releases of a concatenation are those of its parts added up. */
  lemma {:induction false} CountsAppend(t: seq<NativeCall>, u: seq<NativeCall>, r: Resource)
    ensures AcquireCount(t + u, r) == AcquireCount(t, r) + AcquireCount(u, r)
    ensures ReleaseCount(t + u, r) == ReleaseCount(t, r) + ReleaseCount(u, r)
  {
    if t == [] {
      assert t + u == u;
    } else {
      assert (t + u)[0] == t[0];
      assert (t + u)[1..] == t[1..] + u;
      CountsAppend(t[1..], u, r);
    }
  }

  /** Replaying a concatenation replays its parts in turn; it is permitted when both parts are. */
  lemma {:induction false} ReplayAppend(live: set<Resource>, t: seq<NativeCall>, u: seq<NativeCall>)
    ensures Replay(live, t + u) == Replay(Replay(live, t), u)
    ensures Permitted(live, t + u) <==> Permitted(live, t) && Permitted(Replay(live, t), u)
    decreases t
  {
    if t == [] {
      assert t + u == u;
    } else {
      assert (t + u)[0] == t[0];
      assert (t + u)[1..] == t[1..] + u;
      ReplayAppend(Apply(live, t[0]), t[1..], u);
    }
  }

  /**
    Over a permitted run, every resource is acquired exactly as often as it
    is released, up to whether it was live before and is live after: no
    handle is released twice, and none is released that was not acquired.
   */
  lemma {:induction false} Balance(live: set<Resource>, t: seq<NativeCall>, r: Resource)
    requires Permitted(live, t)
    ensures AcquireCount(t, r) + (if r in live then 1 else 0)
         == ReleaseCount(t, r) + (if r in Replay(live, t) then 1 else 0)
    decreases t
  {
    if t != [] {
      var c := t[0];
      assert Acquired(c) * Released(c) == {} by {
        match c
        case OpenDisplay(_, _) =>
        case CreateSimpleWindow(_, _, _, _, _, _, _, _, _, _) =>
        case CreateGC(_, _, _, _, _) =>
        case _ =>
      }
      Balance(Apply(live, c), t[1..], r);
    }
  }

  /** A permitted run that ends with what it started with releases each acquired resource exactly once. */
  lemma ReleasedAsOftenAsAcquired(live: set<Resource>, t: seq<NativeCall>)
    requires Permitted(live, t) && Replay(live, t) == live
    ensures forall r :: AcquireCount(t, r) == ReleaseCount(t, r)
  {
    forall r ensures AcquireCount(t, r) == ReleaseCount(t, r) {
      Balance(live, t, r);
    }
  }

  /** Selecting the same mask twice leaves every window with the mask it has after selecting once. */
  lemma SelectInputIdempotent(t: seq<NativeCall>, c: NativeCall, d: Handle, w: Handle)
    requires c.SelectInput?
    ensures EventMask(t + [c, c], d, w) == EventMask(t + [c], d, w)
  {
    assert (t + [c, c])[..|t| + 1] == t + [c];
  }

  /** The fake native library: the calls made so far, the resources live now, the next fresh handle. */
  class Backend {
    var trace: seq<NativeCall>
    var live: set<Resource>
    var next: Handle

    ghost predicate Valid()
      reads this
    {
      && Permitted({}, trace)
      && live == Replay({}, trace)
      && RootWindow < next
      && (forall r :: r in live ==> Id(r) < next && r.display < next)
    }

    constructor ()
      ensures Valid() && trace == [] && live == {}
    {
      trace := [];
      live := {};
      next := RootWindow + 1;
    }

    /** Appends one allowed call to the trace. */
    method Record(c: NativeCall)
      requires Valid() && Allowed(live, c)
      requires forall r :: r in Acquired(c) ==> Id(r) < next && r.display < next
      modifies this
      ensures Valid() && next == old(next)
      ensures trace == old(trace) + [c] && live == Apply(old(live), c)
    {
      ReplayAppend({}, trace, [c]);
      assert [c][1..] == [];
      trace := trace + [c];
      live := Apply(live, c);
    }

    method XOpenDisplay(name: Option<string>, succeeds: bool) returns (d: Handle)
      requires Valid()
      modifies this
      ensures Valid()
      ensures d == (if succeeds then old(next) else Null)
      ensures next == (if succeeds then old(next) + 1 else old(next))
      ensures trace == old(trace) + [OpenDisplay(name, d)]
      ensures live == old(live) + (if succeeds then {Conn(d)} else {})
    {
      d := Null;
      if succeeds {
        d := next;
        assert Conn(d) !in live;
        next := next + 1;
      }
      Record(OpenDisplay(name, d));
    }

    method XCloseDisplay(d: Handle)
      requires Valid() && Conn(d) in live
      modifies this
      ensures Valid() && next == old(next)
      ensures trace == old(trace) + [CloseDisplay(d)]
      ensures live == old(live) - {Conn(d)}
    {
      Record(CloseDisplay(d));
    }

    method XDefaultRootWindow(d: Handle) returns (root: Handle)
      requires Valid() && Conn(d) in live
      modifies this
      ensures Valid() && next == old(next)
      ensures root == RootWindow
      ensures trace == old(trace) + [DefaultRootWindow(d)] && live == old(live)
    {
      root := RootWindow;
      Record(DefaultRootWindow(d));
    }

    method XCreateSimpleWindow(d: Handle, parent: Handle, x: int, y: int, width: nat, height: nat,
                               borderWidth: nat, border: nat, background: nat) returns (w: Handle)
      requires Valid() && Conn(d) in live
      modifies this
      ensures Valid()
      ensures w == old(next) && next == old(next) + 1
      ensures trace == old(trace) + [CreateSimpleWindow(d, parent, x, y, width, height, borderWidth, border, background, w)]
      ensures live == old(live) + {Win(d, w)}
    {
      w := next;
      assert Win(d, w) !in live;
      next := next + 1;
      Record(CreateSimpleWindow(d, parent, x, y, width, height, borderWidth, border, background, w));
    }

    method XCreateGC(d: Handle, drawable: Handle, valueMask: u64, values: GCValues, succeeds: bool)
      returns (g: Handle)
      requires Valid() && Conn(d) in live && Win(d, drawable) in live
      modifies this
      ensures Valid()
      ensures g == (if succeeds then old(next) else Null)
      ensures next == (if succeeds then old(next) + 1 else old(next))
      ensures trace == old(trace) + [CreateGC(d, drawable, valueMask, values, g)]
      ensures live == old(live) + (if succeeds then {GC(d, g)} else {})
    {
      g := Null;
      if succeeds {
        g := next;
        assert GC(d, g) !in live;
        next := next + 1;
      }
      Record(CreateGC(d, drawable, valueMask, values, g));
    }

    method XFreeGC(d: Handle, g: Handle)
      requires Valid() && Conn(d) in live && GC(d, g) in live
      modifies this
      ensures Valid() && next == old(next)
      ensures trace == old(trace) + [FreeGC(d, g)]
      ensures live == old(live) - {GC(d, g)}
    {
      Record(FreeGC(d, g));
    }

    method XMapRaised(d: Handle, w: Handle)
      requires Valid() && Conn(d) in live && Win(d, w) in live
      modifies this
      ensures Valid() && next == old(next)
      ensures trace == old(trace) + [MapRaised(d, w)] && live == old(live)
    {
      Record(MapRaised(d, w));
    }

    method XUnmapWindow(d: Handle, w: Handle)
      requires Valid() && Conn(d) in live && Win(d, w) in live
      modifies this
      ensures Valid() && next == old(next)
      ensures trace == old(trace) + [UnmapWindow(d, w)] && live == old(live)
    {
      Record(UnmapWindow(d, w));
    }

    method XDestroyWindow(d: Handle, w: Handle)
      requires Valid() && Conn(d) in live && Win(d, w) in live
      modifies this
      ensures Valid() && next == old(next)
      ensures trace == old(trace) + [DestroyWindow(d, w)]
      ensures live == old(live) - {Win(d, w)}
    {
      Record(DestroyWindow(d, w));
    }

    method XSetWindowBorder(d: Handle, w: Handle, pixel: nat)
      requires Valid() && Conn(d) in live && Win(d, w) in live
      modifies this
      ensures Valid() && next == old(next)
      ensures trace == old(trace) + [SetWindowBorder(d, w, pixel)] && live == old(live)
    {
      Record(SetWindowBorder(d, w, pixel));
    }

    method XSetWindowBackground(d: Handle, w: Handle, pixel: nat)
      requires Valid() && Conn(d) in live && Win(d, w) in live
      modifies this
      ensures Valid() && next == old(next)
      ensures trace == old(trace) + [SetWindowBackground(d, w, pixel)] && live == old(live)
    {
      Record(SetWindowBackground(d, w, pixel));
    }

    method XClearWindow(d: Handle, w: Handle)
      requires Valid() && Conn(d) in live && Win(d, w) in live
      modifies this
      ensures Valid() && next == old(next)
      ensures trace == old(trace) + [ClearWindow(d, w)] && live == old(live)
    {
      Record(ClearWindow(d, w));
    }

    method XSelectInput(d: Handle, w: Handle, mask: bv64)
      requires Valid() && Conn(d) in live && Win(d, w) in live
      modifies this
      ensures Valid() && next == old(next)
      ensures trace == old(trace) + [SelectInput(d, w, mask)] && live == old(live)
      ensures EventMask(trace, d, w) == Some(mask)
    {
      Record(SelectInput(d, w, mask));
    }

    /** Blocks until the server delivers an event; here the delivered event is the one supplied. */
    method XNextEvent(d: Handle, supplied: XEvent) returns (ev: XEvent)
      requires Valid() && Conn(d) in live
      modifies this
      ensures Valid() && next == old(next)
      ensures ev == supplied
      ensures trace == old(trace) + [NextEvent(d, supplied)] && live == old(live)
    {
      ev := supplied;
      Record(NextEvent(d, supplied));
    }
  }
}
