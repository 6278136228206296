# rust-x11 in Dafny

A model of `rustx11::librx` and the demo program that uses it. `librx` is a small safe wrapper over Xlib:

- `Display` owns a connection.
- `Window` owns a window and its graphics context (GC), and borrows the display.
- `Event` is a tag-checked view of the raw `XEvent` union.
- `EventHandler` selects the input events of a window and delivers one event per call.

The demo opens a display and creates, maps and listens on a window. It then runs a `while running` loop. In that loop, key 24 (Q) quits, key 54 (C) quits while key 37 (Ctrl) is held, and releasing key 37 lets go of Ctrl.

The project has four modules:

- `RustStd` holds Rust's `Option` and `Result`. The error of a `Result` is a static message.
- `Xlib` is an abstract native library, the class `Backend`. Every native call is appended to a trace, together with the handle it returned.
  - The set of live native resources is the replay of that trace (`Replay`).
  - What the native library demands of its callers is the predicate `Permitted`: handles are used and released only while live, and new handles are fresh.
  - Every trace of the backend satisfies `Permitted`.
  - Handles come from a counter. The root window is the constant 1.
  - Whether `XOpenDisplay` or `XCreateGC` returns null is a parameter.
- `Librx` models `src/lib.rs`:
  - `Event` and `NewGCV` are pure functions.
  - `Display`, `Window` and `EventHandler` are classes whose methods make the native calls in the source's order.
  - Each of those methods ensures the exact trace it appends and the resulting live set.
- `App` models `src/main.rs`:
  - The handler closure is the transition function `OnEvent` on the two captured flags.
  - The loop is the method `HandleEvents`.
  - `main` is `RunMain` (the display's scope) and `RunWindow` (the window's scope).

Rust's borrow rule is a precondition of `Display.Drop`: a display outlives the windows that borrow it, so none of the display's windows or GCs is live when it closes. `std::process::exit` runs no destructors. After a failed GC creation, the model therefore exits with the display still open, as the program does.

## Model

| member | source | states |
|---|---|---|
| `Librx.Event.GetType` | src/lib.rs:172-176 | Returns the event's type tag without reading the union's payload; the event is a key event exactly when the tag is KeyPress or KeyRelease. |
| `Librx.Event.KeyPressCode` | src/lib.rs:178-186 | The result is `Some` exactly when the tag is KeyPress, and then it holds the event's keycode. The union is read only under that tag, because `KeyCodeOf` requires a key event. |
| `Librx.Event.KeyReleaseCode` | src/lib.rs:188-196 | The result is `Some` exactly when the tag is KeyRelease, and then it holds the event's keycode. |
| `Librx.AtMostOneKeyCode` | src/lib.rs:178-196 | At most one of the two accessors yields a code. Neither does for an event that is not a key event. |
| `Librx.NewGCV` | src/lib.rs:35-63 | The flags are 0 and every one of the 23 attributes is 0. |
| `Librx.Display.New` | src/lib.rs:76-96 | The result is `Err("Failed to open display")` exactly when the native open returns null. The trace then gains only that open and nothing becomes live. Otherwise it is `Ok` of a display that wraps the returned fresh handle, and that connection is now live. |
| `Librx.Display.Drop` | src/lib.rs:99-105 | Exactly one close of this connection is appended, and only that connection stops being live. It requires that no window or GC of the display is live, which is the borrow rule. |
| `Librx.Window.New` | src/lib.rs:114-148 | The exact call sequence is `NewWindowCalls`: root query, 200x100 window at (0,0) with border width 0, GC with the given flags and values, then border 0x00ff0000, background 0x0000ff00 and clear. When the GC is null, the sequence is root query, create window, create GC, destroy window, and the result is `Err("Failed to create GC")` with the live set unchanged. On success the window and its GC are new, distinct and live. |
| `Librx.Window.Map` | src/lib.rs:150-154 | Exactly one map-raised of this window is appended, and nothing is acquired or released. |
| `Librx.Window.Drop` | src/lib.rs:157-164 | Appends free-GC, unmap and destroy-window on the window's own handles, in that order. Exactly its window and its GC stop being live. |
| `Librx.EventHandler.constructor` | src/lib.rs:205-210 | Binds the given display and window and makes no native call. |
| `Librx.EventHandler.SelectInput` | src/lib.rs:223-232 | Appends one selection of Exposure, KeyPress, KeyRelease and ButtonPress for the handler's window. That mask is then in effect for the window. |
| `Librx.EventHandler.Next` | src/lib.rs:212-221 | Appends one native event wait on the given display and hands the delivered event to the handler exactly once. The handler's new state is `f(s, event)`. |
| `Librx.NewWindowRollsBack` | src/lib.rs:131-136 | When GC creation fails, `Window::new`'s calls are permitted and leave the live set as it was. They destroy the new window exactly once and contain no border, background or clear call. |
| `Librx.NewWindowSucceeds` | src/lib.rs:119-141 | When GC creation succeeds, `Window::new`'s calls are permitted and add exactly the window and its GC to the live set. |
| `Librx.DropWindowReleases` | src/lib.rs:157-164 | Dropping a live window is permitted and removes exactly its window and its GC from the live set. |
| `Librx.NewWindowCounts` | src/lib.rs:119-141 | On success, `Window::new` acquires the window once and releases neither the window nor the GC. |
| `Librx.DropWindowCounts` | src/lib.rs:157-164 | `Drop` releases the GC once and the window once, and acquires nothing. |
| `Librx.WindowLifecycleBalanced` | src/lib.rs:114-164 | A window created and then dropped gives a permitted trace and leaves the live set as it was. The window is acquired once and released once, and the GC is released once. |
| `Xlib.Balance` | src/lib.rs:99-164 | Over any permitted trace, a resource's acquisitions plus "live before" equal its releases plus "live after". Hence no handle is released twice and none is released unacquired. |
| `Xlib.ReleasedAsOftenAsAcquired` | src/lib.rs:157-164 | A permitted trace that ends with the live set it started with releases every resource exactly as often as it acquires it. |
| `Xlib.SelectInputIdempotent` | src/lib.rs:223-232 | Selecting the same input twice leaves every window with the mask that selecting once gives it. |
| `Xlib.Backend.constructor` | src/lib.rs:3-27 | The native library starts with an empty trace and nothing live. |
| `Xlib.Backend.XOpenDisplay` | src/lib.rs:85 | Returns a fresh connection handle, or null when the open fails. The connection becomes live only in the first case. |
| `Xlib.Backend.XCloseDisplay` | src/lib.rs:102 | Requires a live connection, which then stops being live. |
| `Xlib.Backend.XDefaultRootWindow` | src/lib.rs:120 | Returns the root window and changes no resource. |
| `Xlib.Backend.XCreateSimpleWindow` | src/lib.rs:121-129 | Returns a fresh window handle on a live connection, and that window becomes live. |
| `Xlib.Backend.XCreateGC` | src/lib.rs:131 | Requires a live window. Returns a fresh GC, which becomes live, or null. |
| `Xlib.Backend.XFreeGC` | src/lib.rs:160 | Requires a live GC, which then stops being live. |
| `Xlib.Backend.XMapRaised` | src/lib.rs:152 | Requires a live window and changes no resource. |
| `Xlib.Backend.XUnmapWindow` | src/lib.rs:161 | Requires a live window and changes no resource. |
| `Xlib.Backend.XDestroyWindow` | src/lib.rs:134 | Requires a live window, which then stops being live. |
| `Xlib.Backend.XSetWindowBorder` | src/lib.rs:138 | Requires a live window and changes no resource. |
| `Xlib.Backend.XSetWindowBackground` | src/lib.rs:139 | Requires a live window and changes no resource. |
| `Xlib.Backend.XClearWindow` | src/lib.rs:140 | Requires a live window and changes no resource. |
| `Xlib.Backend.XSelectInput` | src/lib.rs:225-230 | Requires a live window. Afterwards the selected mask is the one in effect for it. |
| `Xlib.Backend.XNextEvent` | src/lib.rs:217 | Requires a live connection and returns the event the server delivers. |
| `App.OnEvent` | src/main.rs:29-47 | Q stops the loop whatever `ctrl` is. C stops it only when `ctrl` is set. Ctrl press sets `ctrl` and Ctrl release clears it. Every other key and every non-key event changes nothing. It also states when `running` and `ctrl` hold, each as an if-and-only-if over the two accessors. |
| `App.StaysStopped` | src/main.rs:28 | Once `running` is false after a prefix of the events, it is false after all of them. |
| `App.CtrlTracksKey` | src/main.rs:35 | `ctrl` is set after a sequence of events exactly when some key 37 press has no key 37 release after it. |
| `App.StopsIffQuit` | src/main.rs:33-34 | `running` is false after a sequence exactly when some event is a Q press, or a C press while Ctrl is held after the events before it. |
| `App.CtrlCStops` | src/main.rs:33-35 | Starting from `running = true, ctrl = false`, pressing Ctrl then C ends with `running = false` and `ctrl = true`. |
| `App.ReleasedCtrlThenCKeepsRunning` | src/main.rs:34-43 | Pressing Ctrl, releasing Ctrl, then pressing C ends in the initial state. |
| `App.NextEventsKeepLive` | src/lib.rs:212-221 | Delivering any sequence of events on a live connection is permitted and acquires or releases nothing. |
| `App.CompletedRunIsBalanced` | src/main.rs:8-49 | Setup, any events and teardown (window, then display) form a permitted trace. It leaves behind the resources that were live before, and releases every resource exactly as often as it acquires it. |
| `App.HandleEvents` | src/main.rs:22-48 | The loop starts from `running = true, ctrl = false`. It handles events only while `running` holds, and its final flags are the fold of `OnEvent` over exactly the handled events. It stops early only when the supplied events run out, and appends one native event wait per handled event. |
| `App.RunWindow` | src/main.rs:15-48 | A failed GC creation exits with "Failed to create GC" after the rollback. Otherwise the window is set up and the loop runs. A loop that ends drops the window, which restores the live set. A loop still running when the events run out holds the window and its GC. |
| `App.RunMain` | src/main.rs:8-49 | A failed open exits with "Failed to open display". A failed GC creation exits with the connection still open, because `exit` skips destructors. A loop that ends after the n-th event, with `running` true before each event, drops the window and then closes the display. The full trace is setup, n event waits and teardown, and the live set ends as it started. |

## Left out

- The real Xlib calls are replaced by the traced `Backend`.
  - Handles come from a counter, and the root window is the constant 1.
  - A failed `XOpenDisplay` or `XCreateGC` is a parameter.
  - `XCreateSimpleWindow` always succeeds, because the source never checks its result.
- The blocking wait of `XNextEvent` is not modelled. The delivered events are a supplied sequence. When they run out while the loop is still running, the model returns `Exit.Blocked`, where the program would wait forever.
- `println!`, `eprintln!` and the exit status of `std::process::exit` are console I/O and process control. They are left out. The printed message is the `Exit.Failed` value.
- `GCV::as_ptr` and the conversion of the `&str` path into a C pointer are pointer plumbing (src/lib.rs:66-68, 77-80). The path is recorded as given. The fact that the Rust string is not NUL-terminated is not modelled.
- The concrete bit layout of the `XEvent` union is not modelled. An event is a type tag plus the key member, which may be read only under a key tag.
- Rust's lifetimes are expressed as preconditions rather than checked by a borrow checker: `Display.Drop` requires that none of its windows or GCs is live, and `EventHandler.Valid` requires that the handler's window belongs to the handler's display.
- Drawing, line attributes, sync and flush are not modelled. src/lib.rs and src/main.rs make no drawing, sync or flush call.
