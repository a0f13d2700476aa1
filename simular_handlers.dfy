/**
 * simular/src/handlers.rs: the receiver and handler registries, keyed by the uid
 * string the server assigns.
 */
module SimularHandlers {
  import opened Stardust

  /** `PulseReceiverCollector` of simular: receivers keyed by their uid. */
  class PulseReceiverCollector {
    var receivers: map<string, (PulseReceiver, Field)>

    constructor ()
      ensures receivers == map[]
    {
      receivers := map[];
    }

    /** `new_receiver`: inserts or replaces the entry of `uid` only. */
    method NewReceiver(uid: string, receiver: PulseReceiver, field: Field)
      modifies this
      ensures receivers == old(receivers)[uid := (receiver, field)]
    {
      receivers := receivers[uid := (receiver, field)];
    }

    /** `drop_receiver`: removes `uid` only; nothing happens when it is absent. */
    method DropReceiver(uid: string)
      modifies this
      ensures receivers == old(receivers) - {uid}
    {
      receivers := receivers - {uid};
    }
  }

  /** `InputHandlerCollector` of simular: handlers keyed by their uid. */
  class InputHandlerCollector {
    var handlers: map<string, InputHandler>

    constructor ()
      ensures handlers == map[]
    {
      handlers := map[];
    }

    /** `create_handler`: inserts or replaces the entry of `uid` only. */
    method CreateHandler(uid: string, handler: InputHandler)
      modifies this
      ensures handlers == old(handlers)[uid := handler]
    {
      handlers := handlers[uid := handler];
    }

    /** `drop_handler`: removes `uid` only; nothing happens when it is absent. */
    method DropHandler(uid: string)
      modifies this
      ensures handlers == old(handlers) - {uid}
    {
      handlers := handlers - {uid};
    }
  }
}
