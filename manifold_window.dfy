/**
 * manifold/src/input_window.rs: the desktop window that captures the mouse and the
 * keyboard while grabbed and forwards their input to `send_input_ipc`.
 */
module ManifoldWindow {
  import opened Wrappers
  import opened Geometry
  import opened Ipc

  /** The window's mouse buttons as the windowing library names them. */
  datatype MouseButtonKind = Left | Right | Middle | Back | Forward | Other(n: nat)

  const BtnRight: U32 := 0x111
  const BtnMiddle: U32 := 0x112
  const BtnForward: U32 := 0x115
  const BtnBack: U32 := 0x116

  /** The Linux input event code sent for a button; `Other` carries a 16-bit code. */
  function ButtonCode(b: MouseButtonKind): (code: U32)
    requires b.Other? ==> b.n < 0x1_0000
    ensures b.Other? ==> code == b.n
    ensures !b.Other? ==> 0x110 <= code <= 0x116 && code != 0x113 && code != 0x114
    ensures b == Left ==> code == BtnLeft
  {
    match b
    case Left => BtnLeft
    case Right => BtnRight
    case Middle => BtnMiddle
    case Back => BtnBack
    case Forward => BtnForward
    case Other(n) => n
  }

  /** The XKB keycode of a scancode: 8 more, in `u32` arithmetic (wrapping). */
  function KeyCode(scancode: U32): (k: U32)
    ensures scancode + 8 < U32Limit ==> k == scancode + 8
    ensures scancode + 8 >= U32Limit ==> k < 8
  {
    (scancode + 8) % U32Limit
  }

  /** A key event: its logical key when it is a character, its scancode if known,
      and whether it is a press. */
  datatype KeyEvent = KeyEvent(character: Option<string>, scancode: Option<U32>, pressed: bool)

  datatype ScrollDelta = LineDelta(x: real, y: real) | PixelDelta(px: real, py: real)

  /** The window events the handler distinguishes; everything else is `OtherWindowEvent`. */
  datatype WindowEvent =
    | MouseInput(pressed: bool, button: MouseButtonKind)
    | MouseWheel(delta: ScrollDelta)
    | KeyboardInput(event: KeyEvent)
    | ModifiersChanged(superHeld: bool)
    | CursorEntered
    | CursorLeft
    | Destroyed
    | CloseRequested
    | RedrawRequested
    | OtherWindowEvent

  /** The event loop's events: a window event with whether it is for this window, raw
      mouse motion, the loop going idle, or anything else. */
  datatype Event =
    | ForWindow(ours: bool, event: WindowEvent)
    | MouseMotion(dx: real, dy: real)
    | AboutToWait
    | OtherEvent

  const GrabbedTitle: string := "Manifold Input (super+q to release cursor)"
  const UngrabbedTitle: string := "Manifold Input (click to grab input)"

  /** The part of the window's state that `set_grab` changes. */
  datatype GrabView = GrabView(grabbed: bool, cursorVisible: bool, title: string)

  /** The state after `set_grab(grab)`: unchanged when already in that state;
      otherwise the new grab state with the cursor hidden exactly while grabbed, and
      the matching title only when the cursor grab call succeeded (`grabOk`). */
  function AfterSetGrab(v: GrabView, grab: bool, grabOk: bool): (r: GrabView)
    ensures r.grabbed == grab
    ensures v.cursorVisible == !v.grabbed ==> r.cursorVisible == !r.grabbed
    ensures grab == v.grabbed ==> r == v
    ensures r.title in {v.title, GrabbedTitle, UngrabbedTitle}
  {
    if grab == v.grabbed then v
    else GrabView(grab, !grab, if grabOk then (if grab then GrabbedTitle else UngrabbedTitle) else v.title)
  }

  /** Releasing q while super is held: the ungrab shortcut. */
  predicate IsReleaseShortcut(k: KeyEvent, superHeld: bool) {
    k.character == Some("q") && !k.pressed && superHeld
  }

  /** The grab state after one window event: a release of the left button grabs an
      ungrabbed window, the shortcut ungrabs, and nothing else changes it. */
  function GrabAfter(v: GrabView, superHeld: bool, e: WindowEvent, grabOk: bool): (r: GrabView)
    ensures e.MouseInput? && !v.grabbed && !e.pressed && e.button == Left ==> r.grabbed
    ensures e.KeyboardInput? && IsReleaseShortcut(e.event, superHeld) ==> !r.grabbed
    ensures !(e.MouseInput? || e.KeyboardInput?) ==> r == v
    ensures r.grabbed != v.grabbed ==> (e.MouseInput? && !v.grabbed) || (e.KeyboardInput? && v.grabbed)
  {
    match e
    case MouseInput(pressed, button) =>
      if !v.grabbed && !pressed && button == Left then AfterSetGrab(v, true, grabOk) else v
    case KeyboardInput(k) =>
      if IsReleaseShortcut(k, superHeld) then AfterSetGrab(v, false, grabOk) else v
    case _ => v
  }

  /** Clicking into an ungrabbed window and then pressing super+q returns it to the
      ungrabbed state with a visible cursor, and, when both grab calls succeed, the
      ungrabbed title. */
  lemma ClickThenShortcutReleases(v: GrabView, k: KeyEvent, grabOk: bool)
    requires !v.grabbed && v.cursorVisible
    requires IsReleaseShortcut(k, true)
    ensures var grabbedView := GrabAfter(v, true, MouseInput(false, Left), grabOk);
            && grabbedView.grabbed && !grabbedView.cursorVisible
            && GrabAfter(grabbedView, true, KeyboardInput(k), grabOk)
               == GrabView(false, true, if grabOk then UngrabbedTitle else v.title)
  {
  }

  /** Every `Disconnect` handed to `send_input_ipc` comes right after a `ResetInput`. */
  ghost predicate ResetBeforeDisconnect(sent: seq<Message>) {
    forall i :: 0 <= i < |sent| && sent[i].Disconnect? ==> i > 0 && sent[i - 1].ResetInput?
  }

  /** The messages handed to `send_input_ipc` for one window event while `grabbed`
      (the super+q release and mouse input while ungrabbed send nothing). */
  function Forwarded(grabbed: bool, superHeld: bool, e: WindowEvent): (r: seq<Message>)
    requires e.MouseInput? && e.button.Other? ==> e.button.n < 0x1_0000
    ensures ResetBeforeDisconnect(r)
    ensures e.MouseInput? && !grabbed ==> r == []
    ensures e.MouseInput? && grabbed ==> r == [MouseButton(ButtonCode(e.button), e.pressed)]
    ensures e.MouseWheel? ==> |r| == 1 && (r[0].MouseAxisContinuous? <==> e.delta.LineDelta?)
    ensures e.KeyboardInput? ==>
              r == if IsReleaseShortcut(e.event, superHeld) || e.event.scancode.None? then []
                   else [Key(KeyCode(e.event.scancode.value), e.event.pressed)]
    ensures e.CursorEntered? || e.CursorLeft? ==> r == [ResetInput]
    ensures e.Destroyed? || e.CloseRequested? ==> r == [ResetInput, Disconnect]
    ensures e.ModifiersChanged? || e.RedrawRequested? || e.OtherWindowEvent? ==> r == []
  {
    match e
    case MouseInput(pressed, button) =>
      if grabbed then [MouseButton(ButtonCode(button), pressed)] else []
    case MouseWheel(LineDelta(x, y)) => [MouseAxisContinuous(Vec2(x, y))]
    case MouseWheel(PixelDelta(x, y)) => [MouseAxisDiscrete(Vec2(x, y))]
    case KeyboardInput(k) =>
      if IsReleaseShortcut(k, superHeld) then []
      else if k.scancode.None? then []
      else [Key(KeyCode(k.scancode.value), k.pressed)]
    case CursorEntered => [ResetInput]
    case CursorLeft => [ResetInput]
    case Destroyed => [ResetInput, Disconnect]
    case CloseRequested => [ResetInput, Disconnect]
    case _ => []
  }

  /**
   * `InputWindow`. `sent` is every message handed to `send_input_ipc`, `exited` the
   * `exit(0)` of the process, after which no event is handled (the handlers require
   * `!exited`), and `loopExit` the event loop's `exit()`. The cursor's
   * visibility and the title stand for the window calls that set them.
   */
  class InputWindow {
    var grabbed: bool
    var mouseDelta: Option<Vec2>
    var superHeld: bool
    var cursorVisible: bool
    var title: string
    var sent: seq<Message>
    var exited: bool
    var loopExit: bool

    /** The keymap goes out first, the cursor is hidden exactly while grabbed, the
        title is the builder's or one of the two grab titles, and every disconnect is
        preceded by a reset. */
    ghost predicate Valid()
      reads this
    {
      && |sent| >= 1 && sent[0].Keymap?
      && cursorVisible == !grabbed
      && title in {"Manifold", GrabbedTitle, UngrabbedTitle}
      && ResetBeforeDisconnect(sent)
    }

    function View(): GrabView
      reads this
    {
      GrabView(grabbed, cursorVisible, title)
    }

    /**
     * `InputWindow::new`: sends the keymap, starts as if grabbed and then releases the
     * grab, so a new window is ungrabbed with a visible cursor; the title changes only
     * if releasing the cursor succeeded.
     */
    constructor (keymap: string, grabOk: bool)
      ensures Valid()
      ensures sent == [Keymap(keymap)]
      ensures !grabbed && cursorVisible && mouseDelta == None && !superHeld
      ensures title == if grabOk then UngrabbedTitle else "Manifold"
      ensures !exited && !loopExit
    {
      sent := [Keymap(keymap)];
      grabbed := true;
      mouseDelta := None;
      superHeld := false;
      cursorVisible := false;
      title := "Manifold";
      exited, loopExit := false, false;
      new;
      SetGrab(false, grabOk);
    }

    /**
     * `set_grab`: nothing happens when the state is already `grab`. Otherwise the
     * state becomes `grab` even when the cursor grab fails (`grabOk`), the cursor is
     * hidden exactly while grabbed, and the title follows only on success.
     */
    method SetGrab(grab: bool, grabOk: bool)
      requires Valid()
      modifies this
      ensures grab == old(grabbed) ==> grabbed == old(grabbed) && cursorVisible == old(cursorVisible) && title == old(title)
      ensures grab != old(grabbed) ==>
                grabbed == grab && cursorVisible == !grab
                && title == (if grabOk then (if grab then GrabbedTitle else UngrabbedTitle) else old(title))
      ensures View() == AfterSetGrab(old(View()), grab, grabOk)
      ensures mouseDelta == old(mouseDelta)
      ensures sent == old(sent) && superHeld == old(superHeld)
      ensures exited == old(exited) && loopExit == old(loopExit)
      ensures Valid()
    {
      if grab == grabbed {
        return;
      }
      grabbed := grab;
      cursorVisible := !grab;
      var windowTitle := if grab then GrabbedTitle else UngrabbedTitle;
      if grabOk {
        title := windowTitle;
      }
    }

    /** `handle_mouse_delta`: while grabbed the delta is stored and sent as a move;
        while ungrabbed the stored delta is cleared and nothing is sent. */
    method HandleMouseDelta(dx: real, dy: real)
      requires Valid()
      modifies this
      ensures Valid()
      ensures grabbed == old(grabbed) && superHeld == old(superHeld)
      ensures cursorVisible == old(cursorVisible) && title == old(title)
      ensures exited == old(exited) && loopExit == old(loopExit)
      ensures grabbed ==> mouseDelta == Some(Vec2(dx, dy)) && sent == old(sent) + [MouseMove(Vec2(dx, dy))]
      ensures !grabbed ==> mouseDelta == None && sent == old(sent)
    {
      if grabbed {
        mouseDelta := Some(Vec2(dx, dy));
        sent := sent + [MouseMove(Vec2(dx, dy))];
      } else {
        mouseDelta := None;
      }
    }

    /** `handle_mouse_input`: while ungrabbed nothing is sent and releasing the left
        button grabs; while grabbed the button goes out with its event code. */
    method HandleMouseInput(pressed: bool, button: MouseButtonKind, grabOk: bool)
      requires Valid()
      requires button.Other? ==> button.n < 0x1_0000
      modifies this
      ensures Valid()
      ensures sent == old(sent) + Forwarded(old(grabbed), old(superHeld), MouseInput(pressed, button))
      ensures grabbed == (old(grabbed) || (!pressed && button == Left))
      ensures View() == GrabAfter(old(View()), old(superHeld), MouseInput(pressed, button), grabOk)
      ensures mouseDelta == old(mouseDelta)
      ensures superHeld == old(superHeld) && exited == old(exited) && loopExit == old(loopExit)
    {
      if !grabbed {
        if !pressed && button == Left {
          SetGrab(true, grabOk);
        }
        return;
      }
      sent := sent + [MouseButton(ButtonCode(button), pressed)];
    }

    /** `handle_keyboard_input`: releasing q with super held ungrabs and sends nothing;
        otherwise a key with a scancode goes out as keycode scancode + 8. */
    method HandleKeyboardInput(k: KeyEvent, grabOk: bool)
      requires Valid()
      modifies this
      ensures Valid()
      ensures sent == old(sent) + Forwarded(old(grabbed), old(superHeld), KeyboardInput(k))
      ensures IsReleaseShortcut(k, old(superHeld)) ==> !grabbed && cursorVisible
      ensures View() == GrabAfter(old(View()), old(superHeld), KeyboardInput(k), grabOk)
      ensures mouseDelta == old(mouseDelta)
      ensures superHeld == old(superHeld) && exited == old(exited) && loopExit == old(loopExit)
    {
      if IsReleaseShortcut(k, superHeld) {
        SetGrab(false, grabOk);
        return;
      }
      var pressed := k.pressed;
      if k.scancode.None? {
        return;
      }
      var keycode := KeyCode(k.scancode.value);
      sent := sent + [Key(keycode, pressed)];
    }

    /** `handle_window_event`: input is forwarded as above, the modifier state is
        recorded, entering or leaving the window resets input, and closing or
        destroying it resets, disconnects and exits. */
    method HandleWindowEvent(e: WindowEvent, grabOk: bool)
      requires Valid()
      requires !exited
      requires e.MouseInput? && e.button.Other? ==> e.button.n < 0x1_0000
      modifies this
      ensures Valid()
      ensures sent == old(sent) + Forwarded(old(grabbed), old(superHeld), e)
      ensures superHeld == (if e.ModifiersChanged? then e.superHeld else old(superHeld))
      ensures exited <==> e.Destroyed? || e.CloseRequested?
      ensures loopExit == old(loopExit)
      ensures View() == GrabAfter(old(View()), old(superHeld), e, grabOk)
      ensures mouseDelta == old(mouseDelta)
    {
      match e {
        case MouseInput(pressed, button) =>
          HandleMouseInput(pressed, button, grabOk);
        case MouseWheel(LineDelta(x, y)) =>
          sent := sent + [MouseAxisContinuous(Vec2(x, y))];
        case MouseWheel(PixelDelta(x, y)) =>
          sent := sent + [MouseAxisDiscrete(Vec2(x, y))];
        case KeyboardInput(k) =>
          HandleKeyboardInput(k, grabOk);
        case ModifiersChanged(s) =>
          superHeld := s;
        case CursorEntered =>
          sent := sent + [ResetInput];
        case CursorLeft =>
          sent := sent + [ResetInput];
        case Destroyed =>
          sent := sent + [ResetInput, Disconnect];
          exited := true;
        case CloseRequested =>
          sent := sent + [ResetInput, Disconnect];
          exited := true;
        case RedrawRequested =>
        case OtherWindowEvent =>
      }
    }

    /**
     * `handle_event`: a close request for this window only ends the event loop (it
     * never reaches `handle_window_event`, so it sends nothing), other events for this
     * window are handled, raw mouse motion is a delta, and everything else draws or is
     * ignored.
     */
    method HandleEvent(ev: Event, grabOk: bool)
      requires Valid()
      requires !exited
      requires ev.ForWindow? && ev.event.MouseInput? && ev.event.button.Other? ==> ev.event.button.n < 0x1_0000
      modifies this
      ensures Valid()
      ensures ev.ForWindow? && ev.ours && ev.event.CloseRequested? ==>
                loopExit && sent == old(sent) && exited == old(exited)
      ensures ev.ForWindow? && ev.ours && !ev.event.CloseRequested? ==>
                sent == old(sent) + Forwarded(old(grabbed), old(superHeld), ev.event) && loopExit == old(loopExit)
      ensures ev.MouseMotion? ==> sent == old(sent) + (if old(grabbed) then [MouseMove(Vec2(ev.dx, ev.dy))] else [])
      ensures ev.ForWindow? && ev.ours && !ev.event.CloseRequested? ==>
                View() == GrabAfter(old(View()), old(superHeld), ev.event, grabOk)
                && mouseDelta == old(mouseDelta)
                && superHeld == (if ev.event.ModifiersChanged? then ev.event.superHeld else old(superHeld))
      ensures ev.MouseMotion? ==>
                mouseDelta == (if old(grabbed) then Some(Vec2(ev.dx, ev.dy)) else None)
      ensures !(ev.ForWindow? && ev.ours && !ev.event.CloseRequested?) ==>
                View() == old(View()) && superHeld == old(superHeld) && exited == old(exited)
      ensures !ev.MouseMotion? && !(ev.ForWindow? && ev.ours) ==> mouseDelta == old(mouseDelta)
      ensures !(ev.ForWindow? && ev.ours && ev.event.CloseRequested?) ==> loopExit == old(loopExit)
      ensures (ev.ForWindow? && !ev.ours) || ev.AboutToWait? || ev.OtherEvent? ==> sent == old(sent)
      ensures exited ==> sent[|sent| - 1] == Disconnect
    {
      match ev {
        case ForWindow(ours, event) =>
          if ours {
            if event.CloseRequested? {
              loopExit := true;
            } else {
              HandleWindowEvent(event, grabOk);
            }
          }
        case MouseMotion(dx, dy) =>
          HandleMouseDelta(dx, dy);
        case AboutToWait =>
        case OtherEvent =>
      }
    }
  }
}
