/**
 * azimuth/src/handlers.rs: the keyboard receiver registry and the pointer's handler
 * registry with its one-shot capture slot and per-frame arbitration.
 */
module AzimuthHandlers {
  import opened Wrappers
  import opened Geometry
  import opened Stardust
  import opened Arbitration

  /** `PulseReceiverCollector`: keyboard receivers keyed by their node id. */
  class PulseReceiverCollector {
    var receivers: map<nat, (PulseReceiver, Field)>

    constructor ()
      ensures receivers == map[]
    {
      receivers := map[];
    }

    /** `new_receiver`: inserts or replaces the entry of the receiver's own id only. */
    method NewReceiver(receiver: PulseReceiver, field: Field)
      modifies this
      ensures receivers == old(receivers)[receiver.node := (receiver, field)]
    {
      receivers := receivers[receiver.node := (receiver, field)];
    }

    /** `drop_receiver`: removes `uid` only; nothing happens when it is absent. */
    method DropReceiver(uid: nat)
      modifies this
      ensures receivers == old(receivers) - {uid}
    {
      receivers := receivers - {uid};
    }
  }

  /** What the daemon tells the input method and the reticle. */
  datatype PointerCommand =
    | SetHandlerOrder(order: seq<InputHandler>)
    | SetCaptures(captures: seq<InputHandler>)
    | SetReticle(offset: Vec3)

  /** Where the reticle rests when nothing is hit. */
  const RestingReticle: Vec3 := Vec3(0.0, 0.0, -0.5)

  /** Just short (0.95) of the deepest point along the ray. */
  function ReticleOffset(info: RayMarch): Vec3 {
    var k := info.deepestPointDistance * 0.95;
    Vec3(info.rayOrigin.x + info.rayDirection.x * k,
         info.rayOrigin.y + info.rayDirection.y * k,
         info.rayOrigin.z + info.rayDirection.z * k)
  }

  /** Applying a fold outcome: the tied handlers become the handler order and the
      reticle moves to the hit, or the order empties and the reticle rests. */
  function Publish(closest: Option<(seq<InputHandler>, RayMarch)>): seq<PointerCommand> {
    match closest
    case Some((hits, info)) => [SetHandlerOrder(hits), SetReticle(ReticleOffset(info))]
    case None => [SetHandlerOrder([]), SetReticle(RestingReticle)]
  }

  /** The commands issued for a capture taken from the slot. */
  function CaptureCommands(captured: Option<InputHandler>): seq<PointerCommand> {
    match captured
    case Some(h) => [SetHandlerOrder([h]), SetCaptures([h])]
    case None => []
  }

  /** The handler values registered in a handler map. */
  function Registered(handlers: map<nat, (InputHandler, Field)>): set<InputHandler> {
    set k | k in handlers :: handlers[k].0
  }

  /** `PointerHandler`: the pointer's input handlers and its capture slot. `sent` is
      every command issued to the input method and the reticle, in order. */
  class PointerHandler {
    var handlers: map<nat, (InputHandler, Field)>
    var captured: Option<InputHandler>
    var sent: seq<PointerCommand>

    /** `PointerHandler::new`: no handlers, nothing captured. */
    constructor ()
      ensures handlers == map[] && captured == None && sent == []
    {
      handlers, captured, sent := map[], None, [];
    }

    /** `create_handler`: inserts or replaces the entry of the handler's own id only. */
    method CreateHandler(handler: InputHandler, field: Field)
      modifies this
      ensures handlers == old(handlers)[handler.node := (handler, field)]
      ensures captured == old(captured) && sent == old(sent)
    {
      handlers := handlers[handler.node := (handler, field)];
    }

    /**
     * `request_capture_handler`: an unknown uid changes nothing, and an existing capture
     * is never overwritten, so the first known requester since the last update wins.
     */
    method RequestCaptureHandler(uid: nat)
      modifies this
      ensures handlers == old(handlers) && sent == old(sent)
      ensures uid !in handlers ==> captured == old(captured)
      ensures old(captured).Some? ==> captured == old(captured)
      ensures uid in handlers && old(captured).None? ==> captured == Some(handlers[uid].0)
    {
      if uid !in handlers {
        return;
      }
      var newCapture := handlers[uid].0;
      if captured.None? {
        captured := Some(newCapture);
      }
    }

    /** `destroy_handler`: removes `uid` only; the capture slot is left as it is. */
    method DestroyHandler(uid: nat)
      modifies this
      ensures handlers == old(handlers) - {uid}
      ensures captured == old(captured) && sent == old(sent)
    {
      handlers := handlers - {uid};
    }

    /**
     * `update_pointer`. A capture in the slot is consumed: the handler order and the
     * captures are both set to exactly that handler, and the slot is empty afterwards.
     * The geometric fold still runs over the completions `rs` of every registered
     * handler and its outcome is published after that: the tied winners, which are
     * registered handlers, or an empty order and the resting reticle.
     */
    method UpdatePointer(rs: seq<Completion<InputHandler>>) returns (closest: Option<(seq<InputHandler>, RayMarch)>)
      requires Targets(rs) == Registered(handlers)
      modifies this
      ensures captured == None
      ensures handlers == old(handlers)
      ensures IsTieOutcome(rs, closest)
      ensures sent == old(sent) + CaptureCommands(old(captured)) + Publish(closest)
      ensures closest.Some? ==> forall h :: h in closest.value.0 ==> h in Registered(handlers)
      ensures closest.None? ==> sent[|sent| - 2..] == [SetHandlerOrder([]), SetReticle(RestingReticle)]
    {
      var taken := captured;
      captured := None;
      if taken.Some? {
        sent := sent + [SetHandlerOrder([taken.value]), SetCaptures([taken.value])];
      }
      closest := ClosestHits(rs);
      if closest.Some? {
        WinnersAreTargets(PointerFilter, rs, closest.value.1.deepestPointDistance);
      }
      sent := sent + Publish(closest);
    }
  }
}
