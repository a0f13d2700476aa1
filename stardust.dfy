/**
 * The Stardust client objects the daemons hold. They are remote nodes, so the model
 * keeps only what the daemons look at: a node id and, for input handlers, whether a
 * field is attached.
 */
module Stardust {
  import opened Wrappers

  /** A field that can be ray-marched. */
  datatype Field = Field(node: nat)

  /** A pulse receiver (keyboard or mouse target). */
  datatype PulseReceiver = PulseReceiver(node: nat)

  /** An input handler; `field` is what `InputHandler::field()` returns. */
  datatype InputHandler = InputHandler(node: nat, field: Option<Field>)

  /** A keyboard pulse: the registered keymap and the signed keys (positive = pressed). */
  datatype KeyboardEvent = KeyboardEvent(keymapId: string, keys: set<int>)

  /** The receivers registered with a pulse sender, whatever the map is keyed by. */
  function Receivers<K>(receivers: map<K, (PulseReceiver, Field)>): set<PulseReceiver> {
    set k | k in receivers :: receivers[k].0
  }
}
