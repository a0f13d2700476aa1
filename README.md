# Non-spatial input for StardustXR, modelled in Dafny

The repository holds a set of small daemons. Each one carries desktop keyboard and mouse input into a StardustXR scene:

- **manifold** grabs a desktop window's input and writes it to standard output as length-prefixed messages.
- **azimuth** reads those messages and drives a pointer input method with a reticle. Every frame it picks the input handlers the pointer hits and the keyboard it hovers.
- **simular** reads the same messages and forwards them as mouse and keyboard pulses to whatever the head gazes at.
- **spatializer** is a library that sends batched events over D-Bus to the object a beam points at. When the target changes, it resets the previous one.
- **ipc** is shared by all of them. It holds the message type, a per-key press/release counter (`ButtonBlot`) that lets the writer undo held keys on reset, and the framing.

The model keeps the logic of these daemons and leaves out the scene graph, the windowing system and the transport. It has one module per source file, plus four shared modules:

- `Wrappers`: `Option` and `Result`.
- `Geometry`: vectors and the ray-march result.
- `Stardust`: the server objects the daemons hold, as plain values.
- `Arbitration`: the per-frame arbitration folds, which three daemons share.

Where a daemon updates state in place, it is a class whose methods state the new state. A `sent`, `pulses`, `pushes` or `calls` field logs, in order, every message or call that the source makes on an object the model cannot see.

**Arbitration.** Every frame, the daemons ray-march each registered field concurrently and fold the results in the order they complete. The model takes that completion order as an arbitrary sequence of `Completion`s. It specifies each fold by what it computes:

- the pointer fold:
  - returns nothing exactly when no result survives its filter;
  - otherwise returns the minimum distance over the survivors;
  - and the list of every survivor at that distance, in arrival order.
- the single-winner folds return the first survivor to arrive at the minimum distance.

The winner set and the best distance are proved the same for every arrival order. The order of the tie list is shown to depend on arrival.

**ButtonBlot.** The model proves that replaying the cleanup events into the blot they came from leaves it clean. It also proves that the framing's length prefix decodes back to the payload length, so a stream of frames reads back as the payloads it was made of.

## Model

| member | source | states |
|---|---|---|
| Arbitration.ClosestHits | azimuth/src/handlers.rs:78-95 | pointer fold: `None` iff no result has `min_distance <= 0`; otherwise the distance is the minimum over survivors, the list is exactly the survivors at that minimum in arrival order, and the kept result is the first such arrival's |
| Arbitration.ClosestHit | simular/src/main.rs:238-254 | single-winner fold: `None` iff nothing passes the filter; otherwise the first survivor to arrive at the minimum distance (later equal distances do not replace it) |
| Arbitration.WinnersMembers | azimuth/src/handlers.rs:85-94 | a handler is in the tie list iff some survivor at that distance targets it |
| Arbitration.WinnersAreTargets | azimuth/src/handlers.rs:64-94 | every winner is one of the handlers that were ray-marched |
| Arbitration.WinnersPermutation | azimuth/src/handlers.rs:85-94 | reordering the arrivals permutes the tie list (same multiset of winners) |
| Arbitration.BestPermutation | azimuth/src/handlers.rs:82-94 | whether a distance is the best one, and whether anything survives, do not depend on arrival order |
| Arbitration.BestUnique | azimuth/src/handlers.rs:85-94 | the best distance is unique |
| Arbitration.TieOutcomeOrderIndependent | azimuth/src/handlers.rs:85-94 | two arrival orders of the same results give the same best distance and the same winners (as a multiset and as a set) |
| Arbitration.TieListFollowsArrival | azimuth/src/handlers.rs:86-87 | two tied handlers are listed in the order they arrive, so the list itself is not order independent |
| Arbitration.FirstAtHeadsWinners | simular/src/main.rs:245-252 | the single-winner choice is the head of the tie list at the same distance |
| Arbitration.FirstAtIsTarget | simular/src/main.rs:226-252 | the single winner is one of the receivers that were ray-marched |
| Arbitration.HoverOrderIndependentWithoutTie | simular/src/main.rs:245-252 | when exactly one survivor sits at the best distance, every arrival order hovers the same receiver |
| Arbitration.NoneAtDist | azimuth/src/handlers.rs:88-90 | when no survivor sits at a distance, nothing is listed or chosen there (used when a strictly closer result replaces the list) |
| Arbitration.TieStart | azimuth/src/handlers.rs:92-93 | the first survivor starts a one-element list at its own distance, which is then the minimum |
| Arbitration.TieJoin | azimuth/src/handlers.rs:86-87 | a survivor at exactly the kept distance is appended to the list |
| Arbitration.TieReplace | azimuth/src/handlers.rs:88-90 | a strictly closer survivor replaces the list by itself and its result |
| Arbitration.TieKeep | azimuth/src/handlers.rs:79-84 | a failed query, a result with `min_distance > 0`, or a farther survivor leaves the outcome as it was |
| Arbitration.HoverStart | simular/src/main.rs:250-251 | the first survivor becomes the winner |
| Arbitration.HoverReplace | simular/src/main.rs:246-249 | a strictly closer survivor replaces the winner |
| Arbitration.HoverKeep | simular/src/main.rs:239-249 | a filtered-out result, or one no closer than the winner, keeps the winner |
| Ipc.SignedKey | ipc/src/lib.rs:159-161 | `code as i32 * ±1` with the cast and the negation wrapping: `+code` for a press and `-code` for a release when the code fits in `i32` |
| Ipc.SignedKeyRoundTrip | ipc/src/lib.rs:145-161 | for codes `1..=i32::MAX`, the key counted is the code itself and the step is positive exactly for a press |
| Ipc.Tally | ipc/src/lib.rs:145-152 | `key_math`: key `unsigned_abs(code)` is present afterwards and moves by `signum(code)`; every other count is unchanged |
| Ipc.CleanMeansAllZero | ipc/src/lib.rs:164-166 | `is_clean` holds iff every count is zero |
| Ipc.PressThenReleaseRestores | ipc/src/lib.rs:153-158 | a press followed by a release of the same key restores every count |
| Ipc.CleanupCounts | ipc/src/lib.rs:168-172 | `cleanup_presses_releases` emits, for each key with count m, exactly abs(m) events, each with `pressed == (m < 0)`, and nothing else |
| Ipc.ReplayingCleanupCleans | ipc/src/lib.rs:168-172 | replaying the cleanup events through `key_update` into the blot they came from leaves it clean |
| Ipc.KeyMathCancels | ipc/src/lib.rs:173-175 | `cleanup_key_math` yields every key with its count negated: adding them back cancels every count |
| Ipc.ButtonBlot.constructor | ipc/src/lib.rs:139-142 | a default blot has no keys and is clean |
| Ipc.ButtonBlot.KeyMath | ipc/src/lib.rs:145-152 | the counts become `Tally` of the old counts |
| Ipc.ButtonBlot.KeyPressed | ipc/src/lib.rs:153-155 | `key_math(code as i32)` |
| Ipc.ButtonBlot.KeyReleased | ipc/src/lib.rs:156-158 | `key_math(-(code as i32))`, with the negation wrapping as a build without overflow checks does |
| Ipc.ButtonBlot.KeyUpdate | ipc/src/lib.rs:159-161 | a press adds 1 and a release subtracts 1 from the key's count; no other key changes |
| Ipc.MouseButtons | ipc/src/lib.rs:77-79 | one `MouseButton` message per cleanup event, in order |
| Ipc.Keys | ipc/src/lib.rs:82-84 | one `Key` message per cleanup event, in order |
| Ipc.Outgoing | ipc/src/lib.rs:61-87 | a non-reset message is written once, unchanged; `ResetInput` is never written and becomes only `MouseButton` and `Key` messages |
| Ipc.InputSession.constructor | ipc/src/lib.rs:16-17 | both blots start absent and nothing has been written |
| Ipc.InputSession.Send | ipc/src/lib.rs:60-97 | the written messages grow by `Outgoing`; `MouseButton` updates only the mouse blot and `Key` only the key blot (creating it on first use); `ResetInput` leaves both blots empty |
| Ipc.InputSession.Reset | ipc/src/lib.rs:73-86 | both blots are replaced by empty ones, and the old mouse blot's cleanup is written before the old key blot's |
| Ipc.InputSession.Updated | ipc/src/lib.rs:63-72 | `get_or_insert(default).key_update(..)`: an existing blot is updated in place, a missing one is created first |
| Ipc.LengthPrefix | ipc/src/lib.rs:92-93 | four bytes, the big-endian form of the length taken modulo 2^32 |
| Ipc.ReadLength | ipc/src/lib.rs:102-104 | `u32::from_be_bytes`: the value is below 2^32 |
| Ipc.LengthRoundTrip | ipc/src/lib.rs:92-104 | decoding the prefix gives back any length below 2^32 |
| Ipc.FrameRoundTrip | ipc/src/lib.rs:92-107 | reading one frame gives back the payload and leaves the rest of the stream |
| Ipc.StreamRoundTrip | ipc/src/lib.rs:89-107 | a stream of frames reads back as exactly the payloads written, in order |
| AzimuthHandlers.PulseReceiverCollector.constructor | azimuth/src/handlers.rs:13-14 | the collector starts empty |
| AzimuthHandlers.PulseReceiverCollector.NewReceiver | azimuth/src/handlers.rs:16-19 | inserts or replaces the receiver's own id only |
| AzimuthHandlers.PulseReceiverCollector.DropReceiver | azimuth/src/handlers.rs:20-22 | removes that id only; nothing changes when it is absent |
| AzimuthHandlers.PointerHandler.constructor | azimuth/src/handlers.rs:49-55 | no handlers, nothing captured |
| AzimuthHandlers.PointerHandler.CreateHandler | azimuth/src/handlers.rs:32-35 | inserts or replaces the handler's own id only; the capture slot is untouched |
| AzimuthHandlers.PointerHandler.RequestCaptureHandler | azimuth/src/handlers.rs:36-43 | an unknown uid changes nothing; an existing capture is never overwritten; otherwise the requested handler is captured |
| AzimuthHandlers.PointerHandler.DestroyHandler | azimuth/src/handlers.rs:44-46 | removes that id only and does not clear the capture slot |
| AzimuthHandlers.PointerHandler.UpdatePointer | azimuth/src/handlers.rs:56-116 | the slot is empty afterwards; a taken capture h first sets the handler order and the captures to exactly [h]; the fold then publishes the tied winners, all registered handlers, or an empty order and the reticle at (0, 0, -0.5) |
| AzimuthMain.UpdatePointer | azimuth/src/main.rs:259-317 | handlers without a field are skipped; the outcome is the pointer fold's, and every winner has a field |
| AzimuthMain.ReconnectKeyboard | azimuth/src/main.rs:320-357 | the hovered keyboard is `None` iff no receiver passes `min_distance <= 0 && deepest_point_distance > 0.001`, and otherwise is a registered receiver, the first to arrive at the minimum distance |
| AzimuthMain.Clamp | azimuth/src/main.rs:197 | the pitch after clamping lies in [-90, 90] and is unchanged when already inside |
| AzimuthMain.Held | azimuth/src/main.rs:206-212 | codes up to 255 leave the button set unchanged; above that, a press inserts and a release removes the code; other codes are untouched |
| AzimuthMain.HeldAfterTracksLastEvent | azimuth/src/main.rs:206-213 | after any run of button events only codes above 255 are held, and such a code is held iff its last event was a press |
| AzimuthMain.ButtonEventsStep | azimuth/src/main.rs:204-213 | handling one more message applies its button event, if any, to the held set |
| AzimuthMain.InputLoop.constructor | azimuth/src/main.rs:137-144 | no keymap, zero yaw and pitch, no buttons, the default datamap, frame count 0 |
| AzimuthMain.InputLoop.NewFrame | azimuth/src/main.rs:150-154 | on the first message after the frame count rises, both scroll accumulators are zeroed and the count is recorded; otherwise nothing changes |
| AzimuthMain.InputLoop.MouseButtonMessage | azimuth/src/main.rs:204-230 | the held set is updated and copied into the datamap; `BTN_LEFT` sets select and 8-9 set grab to 1/0, the other flag unchanged, and push the datamap; any other button changes neither flag and skips the push |
| AzimuthMain.InputLoop.ScrollMessage | azimuth/src/main.rs:232-252 | a scroll adds componentwise to its own accumulator, the other fields of the datamap are kept, and the datamap is pushed |
| AzimuthMain.InputLoop.Step | azimuth/src/main.rs:147-254 | stops only on `Disconnect`; a successful keymap registration replaces the id; a key is sent as ±keycode only with a hovered keyboard and a keymap id; pitch stays in [-90, 90]; the new datamap is given in full: the frame reset, then the scroll sum or the button update, and no other message touches it; the datamap is pushed exactly after a scroll, `BTN_LEFT` or buttons 8-9 |
| AzimuthMain.InputLoop.Run | azimuth/src/main.rs:147-256 | every message up to the first `Disconnect` is handled and none after it; the held set is the fold of `Held` over the button events handled |
| SimularHandlers.PulseReceiverCollector.constructor | simular/src/handlers.rs:8-9 | the collector starts empty |
| SimularHandlers.PulseReceiverCollector.NewReceiver | simular/src/handlers.rs:11-18 | maps the uid to (receiver, field), replacing any previous entry, and nothing else |
| SimularHandlers.PulseReceiverCollector.DropReceiver | simular/src/handlers.rs:19-21 | removes the uid only; a no-op when absent |
| SimularHandlers.InputHandlerCollector.constructor | simular/src/handlers.rs:24-25 | the collector starts empty |
| SimularHandlers.InputHandlerCollector.CreateHandler | simular/src/handlers.rs:27-29 | maps the uid to the handler, replacing any previous entry, and nothing else |
| SimularHandlers.InputHandlerCollector.DropHandler | simular/src/handlers.rs:30-32 | removes the uid only; every other key is unchanged |
| SimularMain.DetectHover | simular/src/main.rs:219-255 | `None` iff no receiver passes `min_distance <= 0 && deepest_point_distance > 0.001`; otherwise a registered receiver, the first to arrive at the minimum distance |
| SimularMain.Pressed | simular/src/main.rs:160-167 | a press inserts the button into the raw set and a release removes it; other buttons are untouched |
| SimularMain.Forwarded | simular/src/main.rs:125-189 | at most one pulse per message; a key is sent iff a keyboard is hovered and a keymap is registered, as `+keycode` for a press and `-keycode` for a release under that keymap, to the hovered keyboard; a mouse message is sent iff a mouse is hovered, as one mouse pulse carrying only that message's field (delta, held buttons, or one scroll); keymap, reset and disconnect send nothing |
| SimularMain.InputLoop.constructor | simular/src/main.rs:108-112 | no keymap and an empty raw button set |
| SimularMain.InputLoop.Step | simular/src/main.rs:114-192 | stops only on `Disconnect`; the raw button set changes only on a button message with a hovered mouse; the pulses sent are `Forwarded`, so a key or mouse message whose hovered receiver is `None` sends nothing |
| Spatializer.CacheAfter | spatializer/src/lib.rs:31-71 | afterwards every cache key is among the objects just listed; a listed object is cached iff it was cached already or its import returned a field; a cached field is kept |
| Spatializer.CacheAfterStable | spatializer/src/lib.rs:31-71 | a second lookup over the same listing leaves the cache unchanged |
| Spatializer.ImportedStep | spatializer/src/lib.rs:33-46 | one more listed object is cached only when it was uncached and its import returned a field |
| Spatializer.RetainImported | spatializer/src/lib.rs:71 | `retain` to the listed objects after the import loop gives `CacheAfter` |
| Spatializer.Handled | spatializer/src/lib.rs:136-140 | one `handle_event` call per event of the batch, in order |
| Spatializer.Delivered | spatializer/src/lib.rs:134-145 | a batch's events reach the target in order, followed by exactly one `handle_cached_event` when cached state was produced, and no other call |
| Spatializer.Beam.constructor | spatializer/src/lib.rs:98-100 | empty cache, no last handler |
| Spatializer.Beam.Push | spatializer/src/lib.rs:91 | an event sent into the channel is queued last |
| Spatializer.Beam.SpatialBeamTarget | spatializer/src/lib.rs:21-85 | the cache becomes `CacheAfter`; the target is `None` iff no result has `deepest_point_distance > 0 && min_distance < 0.05`, otherwise a listed object, the first to arrive at the minimum distance |
| Spatializer.Beam.ImportFields | spatializer/src/lib.rs:31-46 | the import loop adds exactly the uncached objects whose import succeeds, keeping cached fields |
| Spatializer.Beam.Turn | spatializer/src/lib.rs:102-150 | takes up to 32 events, none when the channel is empty or closed; with no target they are dropped and `last_handler` is unchanged; otherwise `reset` goes to the previous handler iff there was one, it differs from the target and its proxy was built; then the batch is delivered, or every waiting event is dropped when the target's proxy fails; `last_handler` becomes the target |
| Spatializer.Beam.Deliver | spatializer/src/lib.rs:134-145 | the calls made are exactly `Delivered` |
| ManifoldWindow.ButtonCode | manifold/src/input_window.rs:239-246 | named buttons map to their Linux event codes `BTN_LEFT` to `BTN_BACK`, and `Other(n)` to n |
| ManifoldWindow.KeyCode | manifold/src/input_window.rs:266 | keycode = scancode + 8, wrapping in `u32` as a build without overflow checks does |
| ManifoldWindow.Forwarded | manifold/src/input_window.rs:142-177 | what one window event sends: a button only while grabbed, with its event code; a wheel one axis message of its kind; a key with a scancode as scancode + 8, except the super+q release; enter and leave `ResetInput`; close and destroy `ResetInput` then `Disconnect`; modifiers, redraw and the rest nothing. Every `Disconnect` comes right after a `ResetInput` |
| ManifoldWindow.AfterSetGrab | manifold/src/input_window.rs:272-296 | `set_grab` on the grab state: the result is in the requested state, unchanged when it already was, keeps the cursor hidden exactly while grabbed, and its title is the old one or one of the two grab titles |
| ManifoldWindow.GrabAfter | manifold/src/input_window.rs:142-177 | only mouse and keyboard input change the grab state: a release of Left grabs an ungrabbed window, super+q ungrabs, and a grab change comes only from those two |
| ManifoldWindow.ClickThenShortcutReleases | manifold/src/input_window.rs:232-296 | clicking an ungrabbed window grabs it and hides the cursor; super+q then returns it to ungrabbed with a visible cursor and the ungrabbed title when the grab calls succeed |
| ManifoldWindow.InputWindow.constructor | manifold/src/input_window.rs:46-111 | the keymap is sent first; the window starts ungrabbed with a visible cursor |
| ManifoldWindow.InputWindow.SetGrab | manifold/src/input_window.rs:272-296 | the new grab state is `AfterSetGrab`: a no-op when already in that state; otherwise the state follows even if the cursor grab fails, the cursor is hidden exactly while grabbed, and only the title depends on success; the stored mouse delta and the messages sent are untouched |
| ManifoldWindow.InputWindow.HandleMouseDelta | manifold/src/input_window.rs:133-140 | while grabbed the delta is stored and sent as `MouseMove`; while ungrabbed the stored delta is cleared and nothing is sent |
| ManifoldWindow.InputWindow.HandleMouseInput | manifold/src/input_window.rs:232-251 | while ungrabbed nothing is sent and releasing Left grabs through `set_grab` (cursor hidden, title set on success); while grabbed the button is sent with its event code and the grab state is kept; the mouse delta is never touched |
| ManifoldWindow.InputWindow.HandleKeyboardInput | manifold/src/input_window.rs:253-268 | releasing q with super held ungrabs through `set_grab` (cursor visible, title set on success) and sends nothing; otherwise the grab state is kept and a key with a scancode is sent as scancode + 8 with pressed = the state is Pressed, and a key without one sends nothing; the mouse delta is never touched |
| ManifoldWindow.InputWindow.HandleWindowEvent | manifold/src/input_window.rs:142-177 | on a live process, sends what `Forwarded` says and leaves the grab state as `GrabAfter` says; the process exits exactly on close and destroy, with `Disconnect` the last message; a modifier change records super; the mouse delta is never touched |
| ManifoldWindow.InputWindow.HandleEvent | manifold/src/input_window.rs:113-131 | on a live process, a close request for this window only ends the event loop; other events for this window are handled with the messages, grab state and super flag above; raw motion is a mouse delta; events for other windows, idling and the rest send nothing and change neither the grab state nor the delta |
| ManifoldWayland.Stripped | manifold/src/wayland.rs:55-57 | the result is a prefix of the bytes read, does not end in a zero byte, and the removed suffix is all zeros |
| ManifoldWayland.StripTrailingNuls | manifold/src/wayland.rs:55-57 | the pop loop computes `Stripped` |
| ManifoldWayland.StrippedOfPadded | manifold/src/wayland.rs:55-57 | bytes not ending in zero, padded with any number of zeros, strip back to themselves |
| ManifoldWayland.StrippedThenPadded | manifold/src/wayland.rs:55-57 | the bytes read are exactly the stored keymap followed by zeros |
| ManifoldWayland.StrippedIdempotent | manifold/src/wayland.rs:55-57 | stripping twice is stripping once |
| ManifoldWayland.InteriorZerosKept | manifold/src/wayland.rs:55-57 | a zero byte followed by a non-zero one is kept |
| ManifoldWayland.WlHandler.constructor | manifold/src/input_window.rs:66 | no keymap yet |
| ManifoldWayland.WlHandler.KeymapEvent | manifold/src/wayland.rs:31-61 | an `XkbV1` keymap is stored without its trailing NULs; `NoKeymap` changes nothing; an unknown format aborts |

## Left out

- Concurrency. The `JoinSet` fan-out, spawned tasks, `watch` and `Notify` channels, frame loops and `spawn_blocking` are not modelled. Each fold takes its completions in an arbitrary arrival order. The channel values a loop reads (frame count, hovered receivers) are parameters of each message.
- Completions. Each daemon spawns one task per registered field. The model assumes that the set of completion targets equals the set of spawned handlers (`Targets(rs) == ...`), and that a failed task or a failed ray march is a completion with no result.
- Floating point. Distances, deltas, yaw, pitch and scroll are `real`, so NaN and infinity are not modelled. The spatializer fold starts from `f32::INFINITY`. For finite distances this is the same as taking the first survivor, so it reuses `ClosestHit`.
- Geometry. The reticle transform is computed as origin + direction × distance × 0.95, but nothing is proved about it. The quaternion rotation from yaw and pitch, the window `redraw` and `line_dist` are out.
- Message encoding. The flexbuffers encoding of a message and its round-trip test rely on a foreign library, so frames carry opaque byte payloads. The `Display` strings are out.
- I/O and foreign interfaces are out:
  - standard input and output;
  - the Stardust client calls (`register_xkb_keymap`, `send_event`, `set_datamap`, `set_handler_order`, `set_captures`, transforms);
  - zbus proxies and the object registry;
  - winit, softbuffer and xkbcommon;
  - Wayland dispatch and fd reads;
  - eclipse's libinput reader.
- Outcomes of foreign calls. The model takes these as parameters:
  - the keymap registration;
  - whether a cursor grab succeeded;
  - the field import;
  - whether a D-Bus proxy was built.
- Panics. These are not modelled: `unwrap` panics on foreign calls, read errors of the keymap fd, and a failed field proxy in `spatial_beam_target`. An unknown keymap format is recorded as `panicked`. Integer overflow is modelled as the wrapping of a build without overflow checks (`-(code as i32)` in `key_released`, `scancode + 8` in `handle_keyboard_input`). A build with overflow checks panics there instead.
- Node ids. They are unbounded naturals, and `get_id().unwrap()` is assumed to succeed.
- Ipc.ButtonBlot.KeyMath: the per-key `i32` count is an unbounded integer, so overflow after 2^31 presses is not modelled.
- Ipc.ReplayingCleanupCleans: it requires keys in `1..=i32::MAX`. Key 0 never moves its count (`signum(0) == 0`). A pressed code above `i32::MAX` is counted as a release of another key by `code as i32`.
- Ipc.LengthPrefix: a payload of 2^32 bytes or more gets a truncated prefix (`as u32`). The round-trip lemmas require shorter payloads.
- Ipc.Message: `ResetInput` is produced by manifold and consumed by `send_input_ipc`. The input loops of azimuth and simular do not match it (it never reaches the wire), so they treat it as doing nothing.
- AzimuthMain.UpdatePointer: `azimuth/src/main.rs` uses an `InputHandlerCollector` that `azimuth/src/handlers.rs` does not define. The collector is modelled as a map from ids to handlers, whose `field()` may be absent.
- AzimuthMain.InputLoop.NewFrame: the frame counter is a `u32` incremented by the frame handler. It is a natural here, so its overflow is not modelled.
- Spatializer.Beam.Turn: once every sender is dropped, `recv_many` returns no events at once and the source's loop spins, picking a target and possibly resetting the last handler on every pass. The model describes one pass with an empty batch and does not capture that the loop never ends.
- ManifoldWindow.InputWindow.constructor: `manifold/src/main.rs` declares only `mod input_window`, while `manifold/src/input_window.rs` imports `crate::wayland::WlHandler`. The window and the Wayland keymap reader are modelled as separate modules, `ManifoldWindow` and `ManifoldWayland`, and the keymap the constructor sends is a parameter.
- ManifoldWindow.ButtonCode: `Other(n)` carries a 16-bit code (`requires n < 2^16`), as the windowing library defines it.
- ManifoldWindow.InputWindow.HandleEvent: `handle_event` ends the event loop on `CloseRequested` before `handle_window_event` can see it. So the `ResetInput`/`Disconnect` branch for `CloseRequested` in `handle_window_event` is reachable only by calling `handle_window_event` directly, and both paths are modelled as written.
- ManifoldWindow.InputWindow: the title "Manifold" and the visible cursor of a new window are what the window builder sets. The modifier state keeps only whether super is held.
- `manifold/src/main.rs`, `display/src/main.rs` and `eclipse/src/main.rs` are entry points with no logic of their own and are not part of this model. Nor is `eclipse/src/lib.rs`, which reads libinput.
