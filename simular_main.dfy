/**
 * simular/src/main.rs: the head-gaze hover detection for the mouse and the keyboard
 * and the loop that forwards wire messages as pulses to whatever is hovered.
 */
module SimularMain {
  import opened Wrappers
  import opened Geometry
  import opened Stardust
  import opened Arbitration
  import opened Ipc

  /**
   * `detect_hover`: the registered receiver whose field the head ray hits nearest
   * (deeper than 0.001, ray starting inside or on it), the first such arrival on a
   * tie, or nobody when no receiver qualifies.
   */
  method DetectHover(receivers: map<string, (PulseReceiver, Field)>, rs: seq<Completion<PulseReceiver>>)
    returns (hovered: Option<PulseReceiver>)
    requires Targets(rs) == Receivers(receivers)
    ensures IsHoverChoice(HoverFilter, rs, hovered)
    ensures hovered.Some? ==> hovered.value in Receivers(receivers)
  {
    var closest := ClosestHit(HoverFilter, rs);
    if closest.Some? {
      FirstAtIsTarget(HoverFilter, rs, closest.value.1.deepestPointDistance);
      hovered := Some(closest.value.0);
    } else {
      hovered := None;
    }
  }

  /** The mouse pulse: the fields simular fills, the others left at their default. */
  datatype MouseEvent = MouseEvent(
    delta: Option<Vec2>, scrollContinuous: Option<Vec2>, scrollDiscrete: Option<Vec2>,
    rawInputEvents: Option<set<U32>>)

  const EmptyMouseEvent := MouseEvent(None, None, None, None)

  /** A pulse and the receiver it was sent to. */
  datatype Pulse =
    | KeyPulse(key: KeyboardEvent, target: PulseReceiver)
    | MousePulse(mouse: MouseEvent, target: PulseReceiver)

  /** One message as the loop sees it: the hovered keyboard and mouse at that moment,
      and the outcome of registering a keymap (`None` on either failure). */
  datatype Delivery = Delivery(
    message: Message, hoveredKeyboard: Option<PulseReceiver>, hoveredMouse: Option<PulseReceiver>,
    registration: Option<string>)

  /** The held set after one button event: a press adds the code, a release removes it
      (every code is tracked). */
  function Pressed(held: set<U32>, button: U32, pressed: bool): (r: set<U32>)
    ensures button in r <==> pressed
    ensures forall b :: b != button ==> (b in r <==> b in held)
  {
    if pressed then held + {button} else held - {button}
  }

  /** The state of `input_loop`; `sent` logs every pulse in order. */
  class InputLoop {
    var keymapId: Option<string>
    var rawInputEvents: set<U32>
    var sent: seq<Pulse>

    constructor ()
      ensures keymapId == None && rawInputEvents == {} && sent == []
    {
      keymapId, rawInputEvents, sent := None, {}, [];
    }

    /**
     * One iteration; `proceed` is false only for `Disconnect`. Key messages need a
     * hovered keyboard and a keymap; every mouse message needs a hovered mouse and is
     * dropped without effect otherwise, so a button released while nothing is hovered
     * stays in the held set. A button event sends the whole held set; motion and
     * scrolling send only their own field.
     */
    method Step(d: Delivery) returns (proceed: bool)
      modifies this
      ensures proceed <==> !d.message.Disconnect?
      ensures d.message.Keymap? ==> keymapId == (if d.registration.Some? then d.registration else old(keymapId))
      ensures !d.message.Keymap? ==> keymapId == old(keymapId)
      ensures d.message.MouseButton? && d.hoveredMouse.Some? ==>
                rawInputEvents == Pressed(old(rawInputEvents), d.message.button, d.message.pressed)
      ensures !(d.message.MouseButton? && d.hoveredMouse.Some?) ==> rawInputEvents == old(rawInputEvents)
      ensures sent == old(sent) + Forwarded(d, old(keymapId), rawInputEvents)
    {
      proceed := true;
      match d.message {
        case Keymap(_) =>
          if d.registration.Some? {
            keymapId := d.registration;
          }
        case Key(keycode, pressed) =>
          if d.hoveredKeyboard.Some? && keymapId.Some? {
            var event := KeyboardEvent(keymapId.value, {SignedKey(keycode, pressed)});
            sent := sent + [KeyPulse(event, d.hoveredKeyboard.value)];
          }
        case MouseMove(delta) =>
          if d.hoveredMouse.Some? {
            sent := sent + [MousePulse(EmptyMouseEvent.(delta := Some(delta)), d.hoveredMouse.value)];
          }
        case MouseButton(button, pressed) =>
          if d.hoveredMouse.Some? {
            rawInputEvents := Pressed(rawInputEvents, button, pressed);
            sent := sent + [MousePulse(EmptyMouseEvent.(rawInputEvents := Some(rawInputEvents)), d.hoveredMouse.value)];
          }
        case MouseAxisContinuous(scroll) =>
          if d.hoveredMouse.Some? {
            sent := sent + [MousePulse(EmptyMouseEvent.(scrollContinuous := Some(scroll)), d.hoveredMouse.value)];
          }
        case MouseAxisDiscrete(scroll) =>
          if d.hoveredMouse.Some? {
            sent := sent + [MousePulse(EmptyMouseEvent.(scrollDiscrete := Some(scroll)), d.hoveredMouse.value)];
          }
        case ResetInput =>
        case Disconnect =>
          proceed := false;
      }
    }
  }

  /** The messages simular forwards to the hovered mouse. */
  predicate IsMouseMessage(m: Message) {
    m.MouseMove? || m.MouseButton? || m.MouseAxisContinuous? || m.MouseAxisDiscrete?
  }

  /** A mouse pulse carries exactly one field, the one its message sets: the delta,
      the held button set, or one of the two scrolls. */
  predicate Carries(e: MouseEvent, m: Message, held: set<U32>) {
    && e.delta == (if m.MouseMove? then Some(m.delta) else None)
    && e.rawInputEvents == (if m.MouseButton? then Some(held) else None)
    && e.scrollContinuous == (if m.MouseAxisContinuous? then Some(m.scroll) else None)
    && e.scrollDiscrete == (if m.MouseAxisDiscrete? then Some(m.scroll) else None)
  }

  /** The pulses one delivery produces, given the keymap before it and the held set
      after it. */
  function Forwarded(d: Delivery, keymapId: Option<string>, held: set<U32>): (r: seq<Pulse>)
    ensures |r| <= 1
    ensures r != [] && r[0].KeyPulse? ==> d.message.Key? && d.hoveredKeyboard == Some(r[0].target)
    ensures r != [] && r[0].MousePulse? ==> d.hoveredMouse == Some(r[0].target)
    ensures (d.message.Keymap? || d.message.ResetInput? || d.message.Disconnect?) ==> r == []
    ensures d.message.Key? ==>
              && (r != [] <==> d.hoveredKeyboard.Some? && keymapId.Some?)
              && (r != [] ==> r[0] == KeyPulse(KeyboardEvent(keymapId.value, {SignedKey(d.message.keycode, d.message.pressed)}),
                                               d.hoveredKeyboard.value))
    ensures !d.message.Key? && d.hoveredMouse.None? ==> r == []
    ensures IsMouseMessage(d.message) ==>
              && (r != [] <==> d.hoveredMouse.Some?)
              && (r != [] ==> r[0].MousePulse? && Carries(r[0].mouse, d.message, held))
  {
    match d.message
    case Key(keycode, pressed) =>
      if d.hoveredKeyboard.Some? && keymapId.Some?
      then [KeyPulse(KeyboardEvent(keymapId.value, {SignedKey(keycode, pressed)}), d.hoveredKeyboard.value)]
      else []
    case MouseMove(delta) =>
      if d.hoveredMouse.Some? then [MousePulse(EmptyMouseEvent.(delta := Some(delta)), d.hoveredMouse.value)] else []
    case MouseButton(_, _) =>
      if d.hoveredMouse.Some? then [MousePulse(EmptyMouseEvent.(rawInputEvents := Some(held)), d.hoveredMouse.value)] else []
    case MouseAxisContinuous(scroll) =>
      if d.hoveredMouse.Some? then [MousePulse(EmptyMouseEvent.(scrollContinuous := Some(scroll)), d.hoveredMouse.value)] else []
    case MouseAxisDiscrete(scroll) =>
      if d.hoveredMouse.Some? then [MousePulse(EmptyMouseEvent.(scrollDiscrete := Some(scroll)), d.hoveredMouse.value)] else []
    case _ => []
  }
}
