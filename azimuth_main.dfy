/**
 * azimuth/src/main.rs: the per-frame pointer and keyboard-focus arbitration and the
 * loop that turns wire messages into a pointer pose, a pointer datamap and keyboard
 * pulses.
 */
module AzimuthMain {
  import opened Wrappers
  import opened Geometry
  import opened Stardust
  import opened Arbitration
  import opened Ipc
  import opened AzimuthHandlers

  // ---------------------------------------------------------------- per-frame arbitration

  /** The handlers of the collector that currently have a field to ray-march. */
  function WithField(collector: map<nat, InputHandler>): set<InputHandler> {
    set k | k in collector && collector[k].field.Some? :: collector[k]
  }

  /**
   * `update_pointer` (the free function): handlers without a field are skipped, the
   * rest are ray-marched and folded with the tie-keeping rule; the commands issued
   * are the new handler order and the reticle transform.
   */
  method UpdatePointer(collector: map<nat, InputHandler>, rs: seq<Completion<InputHandler>>)
    returns (closest: Option<(seq<InputHandler>, RayMarch)>, cmds: seq<PointerCommand>)
    requires Targets(rs) == WithField(collector)
    ensures IsTieOutcome(rs, closest)
    ensures cmds == Publish(closest)
    ensures closest.Some? ==> forall h :: h in closest.value.0 ==> h.field.Some? && h in collector.Values
  {
    closest := ClosestHits(rs);
    if closest.Some? {
      WinnersAreTargets(PointerFilter, rs, closest.value.1.deepestPointDistance);
    }
    cmds := Publish(closest);
  }

  /**
   * `reconnect_keyboard`: the hovered keyboard becomes the registered receiver whose
   * field is hit nearest (deeper than 0.001, ray starting inside or on it), the first
   * such arrival on a tie, or nobody when no receiver qualifies.
   */
  method ReconnectKeyboard(receivers: map<nat, (PulseReceiver, Field)>, rs: seq<Completion<PulseReceiver>>)
    returns (hovered: Option<PulseReceiver>)
    requires Targets(rs) == Receivers(receivers)
    ensures IsHoverChoice(HoverFilter, rs, hovered)
    ensures hovered.Some? ==> hovered.value in Receivers(receivers)
  {
    var closest := ClosestHit(HoverFilter, rs);
    if closest.Some? {
      FirstAtIsTarget(HoverFilter, rs, closest.value.1.deepestPointDistance);
      hovered := Some(closest.value.0);
    } else {
      hovered := None;
    }
  }

  // ---------------------------------------------------------------- the input loop

  /** Degrees per unit of mouse delta. */
  const MouseSensitivity: real := 0.01

  /** `f32::clamp` for `lo <= hi`. */
  function Clamp(x: real, lo: real, hi: real): (r: real)
    requires lo <= hi
    ensures lo <= r <= hi
    ensures lo <= x <= hi ==> r == x
    ensures x < lo ==> r == lo
    ensures hi < x ==> r == hi
  {
    if x < lo then lo else if hi < x then hi else x
  }

  /** The set of held mouse buttons after one button event: codes up to 255 are not
      tracked, a press adds the code and a release removes it. */
  function Held(buttons: set<U32>, button: U32, pressed: bool): (r: set<U32>)
    ensures button <= 255 ==> r == buttons
    ensures button > 255 ==> (button in r <==> pressed)
    ensures forall b :: b != button ==> (b in r <==> b in buttons)
  {
    if button <= 255 then buttons
    else if pressed then buttons + {button}
    else buttons - {button}
  }

  /** The held set after a run of button events. */
  function HeldAfter(buttons: set<U32>, events: seq<(U32, bool)>): set<U32>
    decreases |events|
  {
    if events == [] then buttons
    else
      var last := events[|events| - 1];
      Held(HeldAfter(buttons, events[..|events| - 1]), last.0, last.1)
  }

  /** Whether some event concerns button `b`. */
  predicate Mentions(events: seq<(U32, bool)>, b: U32) {
    exists i :: 0 <= i < |events| && events[i].0 == b
  }

  /** Whether the last event for button `b` is a press. */
  function LastPress(events: seq<(U32, bool)>, b: U32): bool
    decreases |events|
  {
    if events == [] then false
    else if events[|events| - 1].0 == b then events[|events| - 1].1
    else LastPress(events[..|events| - 1], b)
  }

  /** Only codes above 255 are ever held, and such a code is held exactly when its last
      event was a press (or, when no event concerns it, when it was held before). */
  lemma {:induction false} HeldAfterTracksLastEvent(buttons: set<U32>, events: seq<(U32, bool)>, b: U32)
    requires forall x :: x in buttons ==> x > 255
    ensures forall x :: x in HeldAfter(buttons, events) ==> x > 255
    ensures b in HeldAfter(buttons, events) <==>
              if b > 255 && Mentions(events, b) then LastPress(events, b) else b in buttons
    decreases |events|
  {
    if events != [] {
      var pre, last := events[..|events| - 1], events[|events| - 1];
      HeldAfterTracksLastEvent(buttons, pre, b);
      if last.0 != b {
        if Mentions(events, b) {
          var i :| 0 <= i < |events| && events[i].0 == b;
          assert pre[i].0 == b;
        }
        if Mentions(pre, b) {
          var i :| 0 <= i < |pre| && pre[i].0 == b;
          assert events[i].0 == b;
        }
      } else {
        assert events[|events| - 1].0 == b;
      }
    }
  }

  /** `PointerDatamap`: what the pointer input method publishes to its handlers. */
  datatype PointerDatamap = PointerDatamap(
    select: real, grab: real, scrollContinuous: Vec2, scrollDiscrete: Vec2, rawInputEvents: set<U32>)

  const DefaultDatamap := PointerDatamap(0.0, 0.0, Zero2, Zero2, {})

  /** The datamap once a message is read: both scroll accumulators are zeroed when
      the frame counter has moved past the last one seen. */
  function FrameReset(dm: PointerDatamap, frameCount: nat, oldFrameCount: nat): PointerDatamap {
    if frameCount > oldFrameCount then dm.(scrollContinuous := Zero2, scrollDiscrete := Zero2) else dm
  }

  /** The messages after which the datamap is set on the pointer: scrolls, and the
      left button and buttons 8 and 9. */
  predicate Publishes(m: Message) {
    || m.MouseAxisContinuous? || m.MouseAxisDiscrete?
    || (m.MouseButton? && (m.button == BtnLeft || m.button in {8, 9}))
  }

  /** The datamap after handling message `m` from `dm`, with `held` the held buttons
      afterwards: a scroll adds to its accumulator, a button publishes the held set
      and sets select (left button) or grab (buttons 8 and 9), and nothing else
      touches it. */
  function DatamapAfter(dm: PointerDatamap, held: set<U32>, m: Message): PointerDatamap {
    match m
    case MouseAxisContinuous(scroll) => dm.(scrollContinuous := Add2(dm.scrollContinuous, scroll))
    case MouseAxisDiscrete(scroll) => dm.(scrollDiscrete := Add2(dm.scrollDiscrete, scroll))
    case MouseButton(button, pressed) =>
      var level := if pressed then 1.0 else 0.0;
      var raw := dm.(rawInputEvents := held);
      if button == BtnLeft then raw.(select := level)
      else if button in {8, 9} then raw.(grab := level)
      else raw
    case _ => dm
  }

  /** A pulse sent to the hovered keyboard. */
  datatype KeyPulse = KeyPulse(event: KeyboardEvent, receiver: PulseReceiver)

  /** One message as the loop sees it: the frame counter read just before handling it,
      the hovered keyboard at that moment, and the outcome of registering a keymap
      (`None` when either the request or its reply failed). */
  datatype Delivery = Delivery(
    message: Message, frameCount: nat, hovered: Option<PulseReceiver>, registration: Option<string>)

  /** The button events among the deliveries, in order. */
  function ButtonEvents(ds: seq<Delivery>): seq<(U32, bool)>
    decreases |ds|
  {
    if ds == [] then []
    else
      var m := ds[|ds| - 1].message;
      ButtonEvents(ds[..|ds| - 1]) + if m.MouseButton? then [(m.button, m.pressed)] else []
  }

  /** Handling one more delivery applies its button event, if any, to the held set. */
  lemma ButtonEventsStep(buttons: set<U32>, ds: seq<Delivery>, n: nat)
    requires n < |ds|
    ensures var m := ds[n].message;
            HeldAfter(buttons, ButtonEvents(ds[..n + 1]))
            == if m.MouseButton? then Held(HeldAfter(buttons, ButtonEvents(ds[..n])), m.button, m.pressed)
               else HeldAfter(buttons, ButtonEvents(ds[..n]))
  {
    var m := ds[n].message;
    var before, after := ButtonEvents(ds[..n]), ButtonEvents(ds[..n + 1]);
    assert ds[..n + 1][..n] == ds[..n];
    if m.MouseButton? {
      assert after == before + [(m.button, m.pressed)];
      assert after[..|before|] == before;
    } else {
      assert after == before;
    }
  }

  /** The state of `input_loop`. `pushes` logs every datamap set on the pointer and
      `pulses` every keyboard event sent. */
  class InputLoop {
    var keymapId: Option<string>
    var yaw: real
    var pitch: real
    var mouseButtons: set<U32>
    var datamap: PointerDatamap
    var oldFrameCount: nat
    var pushes: seq<PointerDatamap>
    var pulses: seq<KeyPulse>

    /** Pitch stays within ±90 degrees, only codes above 255 are held, the published
        raw button set is the held set, and select and grab are each 0 or 1. */
    ghost predicate Valid()
      reads this
    {
      && -90.0 <= pitch <= 90.0
      && (forall b :: b in mouseButtons ==> b > 255)
      && datamap.rawInputEvents == mouseButtons
      && datamap.select in {0.0, 1.0}
      && datamap.grab in {0.0, 1.0}
    }

    constructor ()
      ensures Valid()
      ensures keymapId == None && yaw == 0.0 && pitch == 0.0 && mouseButtons == {}
      ensures datamap == DefaultDatamap && oldFrameCount == 0 && pushes == [] && pulses == []
    {
      keymapId, yaw, pitch, mouseButtons := None, 0.0, 0.0, {};
      datamap, oldFrameCount, pushes, pulses := DefaultDatamap, 0, [], [];
    }

    /** Zeroes both scroll accumulators once a new frame has begun. */
    method NewFrame(frameCount: nat)
      modifies this
      ensures frameCount > old(oldFrameCount) ==>
                oldFrameCount == frameCount
                && datamap == old(datamap).(scrollContinuous := Zero2, scrollDiscrete := Zero2)
      ensures frameCount <= old(oldFrameCount) ==> oldFrameCount == old(oldFrameCount) && datamap == old(datamap)
      ensures keymapId == old(keymapId) && yaw == old(yaw) && pitch == old(pitch)
      ensures mouseButtons == old(mouseButtons) && pushes == old(pushes) && pulses == old(pulses)
    {
      if frameCount > oldFrameCount {
        oldFrameCount := frameCount;
        datamap := datamap.(scrollContinuous := Zero2, scrollDiscrete := Zero2);
      }
    }

    /**
     * One iteration of the loop; `proceed` is false only for `Disconnect`.
     * A key pulse needs both a hovered keyboard and a registered keymap. A button event
     * always updates the held set, but only the left button (select) and the side
     * buttons 8 and 9 (grab) publish the datamap.
     */
    method Step(d: Delivery) returns (proceed: bool)
      requires Valid()
      modifies this
      ensures Valid()
      ensures proceed <==> !d.message.Disconnect?
      ensures oldFrameCount == if d.frameCount > old(oldFrameCount) then d.frameCount else old(oldFrameCount)
      ensures d.message.Keymap? ==> keymapId == (if d.registration.Some? then d.registration else old(keymapId))
      ensures !d.message.Keymap? ==> keymapId == old(keymapId)
      ensures d.message.Key? && d.hovered.Some? && old(keymapId).Some? ==>
                pulses == old(pulses) + [KeyPulse(KeyboardEvent(old(keymapId).value,
                                                                {SignedKey(d.message.keycode, d.message.pressed)}),
                                                  d.hovered.value)]
      ensures !(d.message.Key? && d.hovered.Some? && old(keymapId).Some?) ==> pulses == old(pulses)
      ensures d.message.MouseMove? ==>
                yaw == old(yaw) + d.message.delta.x * MouseSensitivity
                && pitch == Clamp(old(pitch) + d.message.delta.y * MouseSensitivity, -90.0, 90.0)
      ensures !d.message.MouseMove? ==> yaw == old(yaw) && pitch == old(pitch)
      ensures d.message.MouseButton? ==> mouseButtons == Held(old(mouseButtons), d.message.button, d.message.pressed)
      ensures !d.message.MouseButton? ==> mouseButtons == old(mouseButtons)
      ensures datamap == DatamapAfter(FrameReset(old(datamap), d.frameCount, old(oldFrameCount)),
                                      mouseButtons, d.message)
      ensures pushes == old(pushes) + if Publishes(d.message) then [datamap] else []
    {
      NewFrame(d.frameCount);
      proceed := true;
      match d.message {
        case Keymap(_) =>
          if d.registration.Some? {
            keymapId := d.registration;
          }
        case Key(keycode, pressed) =>
          if d.hovered.Some? && keymapId.Some? {
            var event := KeyboardEvent(keymapId.value, {SignedKey(keycode, pressed)});
            pulses := pulses + [KeyPulse(event, d.hovered.value)];
          }
        case MouseMove(delta) =>
          yaw := yaw + delta.x * MouseSensitivity;
          pitch := Clamp(pitch + delta.y * MouseSensitivity, -90.0, 90.0);
        case MouseButton(button, pressed) =>
          MouseButtonMessage(button, pressed);
        case MouseAxisContinuous(_) =>
          ScrollMessage(d.message);
        case MouseAxisDiscrete(_) =>
          ScrollMessage(d.message);
        case ResetInput =>
        case Disconnect =>
          proceed := false;
      }
    }

    /** The two scroll arms: the scroll is added to its accumulator and the datamap
        is published. */
    method ScrollMessage(m: Message)
      requires Valid()
      requires m.MouseAxisContinuous? || m.MouseAxisDiscrete?
      modifies this
      ensures Valid()
      ensures datamap == DatamapAfter(old(datamap), mouseButtons, m)
      ensures pushes == old(pushes) + [datamap]
      ensures keymapId == old(keymapId) && yaw == old(yaw) && pitch == old(pitch) && mouseButtons == old(mouseButtons)
      ensures oldFrameCount == old(oldFrameCount) && pulses == old(pulses)
    {
      if m.MouseAxisContinuous? {
        datamap := datamap.(scrollContinuous := Add2(datamap.scrollContinuous, m.scroll));
      } else {
        datamap := datamap.(scrollDiscrete := Add2(datamap.scrollDiscrete, m.scroll));
      }
      pushes := pushes + [datamap];
    }

    /**
     * The `MouseButton` arm: the held set is updated and published as the raw input
     * events; the left button sets select and buttons 8 and 9 set grab, and only these
     * push the datamap.
     */
    method MouseButtonMessage(button: U32, pressed: bool)
      requires Valid()
      modifies this
      ensures Valid()
      ensures mouseButtons == Held(old(mouseButtons), button, pressed)
      ensures datamap == DatamapAfter(old(datamap), mouseButtons, MouseButton(button, pressed))
      ensures pushes == old(pushes) + if Publishes(MouseButton(button, pressed)) then [datamap] else []
      ensures keymapId == old(keymapId) && yaw == old(yaw) && pitch == old(pitch)
      ensures oldFrameCount == old(oldFrameCount) && pulses == old(pulses)
    {
      mouseButtons := Held(mouseButtons, button, pressed);
      datamap := datamap.(rawInputEvents := mouseButtons);
      var level := if pressed then 1.0 else 0.0;
      if button == BtnLeft {
        datamap := datamap.(select := level);
        pushes := pushes + [datamap];
      } else if button == 8 || button == 9 {
        datamap := datamap.(grab := level);
        pushes := pushes + [datamap];
      }
    }

    /**
     * `input_loop` over the messages read before the stream failed: every message up
     * to the first `Disconnect` is handled, in order, and nothing after it.
     */
    method Run(deliveries: seq<Delivery>) returns (handled: nat)
      requires Valid()
      modifies this
      ensures Valid()
      ensures handled <= |deliveries|
      ensures forall i :: 0 <= i < handled - 1 ==> !deliveries[i].message.Disconnect?
      ensures handled < |deliveries| ==> handled > 0 && deliveries[handled - 1].message.Disconnect?
      ensures handled == |deliveries| && handled > 0 && !deliveries[handled - 1].message.Disconnect? ==>
                forall i :: 0 <= i < |deliveries| ==> !deliveries[i].message.Disconnect?
      ensures mouseButtons == HeldAfter(old(mouseButtons), ButtonEvents(deliveries[..handled]))
      ensures oldFrameCount >= old(oldFrameCount)
      ensures |pushes| >= |old(pushes)| && pushes[..|old(pushes)|] == old(pushes)
    {
      handled := 0;
      var proceed := true;
      while handled < |deliveries| && proceed
        invariant Valid()
        invariant handled <= |deliveries|
        invariant forall i :: 0 <= i < handled - 1 ==> !deliveries[i].message.Disconnect?
        invariant handled > 0 ==> (proceed <==> !deliveries[handled - 1].message.Disconnect?)
        invariant handled == 0 ==> proceed
        invariant mouseButtons == HeldAfter(old(mouseButtons), ButtonEvents(deliveries[..handled]))
        invariant oldFrameCount >= old(oldFrameCount)
        invariant |pushes| >= |old(pushes)| && pushes[..|old(pushes)|] == old(pushes)
        decreases |deliveries| - handled
      {
        var d := deliveries[handled];
        ButtonEventsStep(old(mouseButtons), deliveries, handled);
        ghost var before := pushes;
        proceed := Step(d);
        assert pushes[..|before|] == before;
        assert pushes[..|old(pushes)|] == before[..|old(pushes)|];
        handled := handled + 1;
      }
    }
  }
}
