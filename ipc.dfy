/**
 * The input wire shared by the daemons (ipc/src/lib.rs): the `Message` type, the
 * `ButtonBlot` press/release counter, the writer `send_input_ipc` with its two
 * process-wide blots (one session object here), and the length-prefixed framing.
 */
module Ipc {
  import opened Wrappers
  import opened Geometry

  const U32Limit: int := 0x1_0000_0000
  const I32Min: int := -0x8000_0000
  const I32Max: int := 0x7fff_ffff

  type U32 = x: int | 0 <= x < 0x1_0000_0000
  type I32 = x: int | -0x8000_0000 <= x <= 0x7fff_ffff
  type Byte = x: int | 0 <= x < 256

  /** `BTN_LEFT` of the Linux input event codes, the code of a left-button
      `MouseButton` message. */
  const BtnLeft: U32 := 0x110

  datatype Message =
    | Keymap(keymap: string)
    | Key(keycode: U32, pressed: bool)
    | MouseMove(delta: Vec2)
    | MouseButton(button: U32, pressed: bool)
    | MouseAxisContinuous(scroll: Vec2)
    | MouseAxisDiscrete(scroll: Vec2)
    | ResetInput
    | Disconnect

  // ---------------------------------------------------------------- signed key values

  /** `x as i32` for a `u32`: the two's-complement reinterpretation. */
  function AsI32(x: U32): I32 {
    if x <= I32Max then x else x - U32Limit
  }

  /** Negating an `i32`, wrapping at `i32::MIN` as a release build does. */
  function WrappingNeg(x: I32): I32 {
    if x == I32Min then x else -x
  }

  /**
   * The signed value of a key event: `code as i32` when pressed and its negation when
   * released. The same expression is used by `key_update` and by the keyboard events
   * of azimuth and simular.
   */
  function SignedKey(code: U32, pressed: bool): (k: I32)
    ensures code <= I32Max ==> k == (if pressed then code as int else -(code as int))
    ensures code > I32Max && pressed ==> k < 0
  {
    if pressed then AsI32(code) else WrappingNeg(AsI32(code))
  }

  function Abs(x: int): nat {
    if x < 0 then -x else x
  }

  function Sign(x: int): int {
    if x < 0 then -1 else if x == 0 then 0 else 1
  }

  /** Reading a signed key value back: the key is its absolute value, the event is a
      press when it is positive. */
  lemma SignedKeyRoundTrip(code: U32, pressed: bool)
    requires 0 < code <= I32Max
    ensures Abs(SignedKey(code, pressed)) == code
    ensures (SignedKey(code, pressed) > 0) == pressed
  {
  }

  // ---------------------------------------------------------------- ButtonBlot counts

  /** The count a blot holds for `k` (an absent key counts 0). */
  function Count(m: map<U32, int>, k: U32): int {
    if k in m then m[k] else 0
  }

  /** `is_clean`: every key was released as often as it was pressed. */
  predicate Clean(m: map<U32, int>) {
    forall k :: k in m ==> m[k] == 0
  }

  /** What `key_math(code)` does to the counts: key `|code|` moves by `signum(code)`,
      and the key is present afterwards even when the step is 0. */
  function Tally(m: map<U32, int>, code: I32): (r: map<U32, int>)
    ensures r.Keys == m.Keys + {Abs(code)}
    ensures forall k :: Count(r, k) == Count(m, k) + (if k == Abs(code) then Sign(code) else 0)
  {
    m[Abs(code) := Count(m, Abs(code)) + Sign(code)]
  }

  lemma CleanMeansAllZero(m: map<U32, int>)
    ensures Clean(m) <==> forall k :: Count(m, k) == 0
  {
    if !Clean(m) {
      var k :| k in m && m[k] != 0;
      assert Count(m, k) != 0;
    }
  }

  /** A press followed by a release of the same key restores every count. */
  lemma PressThenReleaseRestores(m: map<U32, int>, code: U32)
    requires 0 < code <= I32Max
    ensures forall k :: Count(Tally(Tally(m, SignedKey(code, true)), SignedKey(code, false)), k) == Count(m, k)
  {
  }

  /** `code` is listed once in `order` for every key of the blot: the (unspecified)
      iteration order of the hash map. */
  predicate Enumerates(order: seq<U32>, keys: set<U32>) {
    && (forall i, j :: 0 <= i < j < |order| ==> order[i] != order[j])
    && (forall i :: 0 <= i < |order| ==> order[i] in keys)
    && (forall k :: k in keys ==> k in order)
  }

  function Repeat<T>(x: T, n: nat): (r: seq<T>)
    ensures |r| == n
    ensures forall i :: 0 <= i < n ==> r[i] == x
  {
    if n == 0 then [] else [x] + Repeat(x, n - 1)
  }

  /** `cleanup_presses_releases`: for every key with count `m`, `|m|` events, each a
      press when `m` is negative and a release otherwise. */
  function CleanupPressesReleases(m: map<U32, int>, order: seq<U32>): seq<(U32, bool)>
    requires forall i :: 0 <= i < |order| ==> order[i] in m
  {
    if order == [] then []
    else
      var k := order[0];
      Repeat((k, m[k] < 0), Abs(m[k])) + CleanupPressesReleases(m, order[1..])
  }

  /** `cleanup_key_math`: every key with its count negated. */
  function CleanupKeyMath(m: map<U32, int>, order: seq<U32>): seq<(U32, int)>
    requires forall i :: 0 <= i < |order| ==> order[i] in m
  {
    if order == [] then [] else [(order[0], -m[order[0]])] + CleanupKeyMath(m, order[1..])
  }

  /** Feeding events to `key_update` one after another. */
  function Replay(m: map<U32, int>, events: seq<(U32, bool)>): map<U32, int>
    decreases |events|
  {
    if events == [] then m else Replay(Tally(m, SignedKey(events[0].0, events[0].1)), events[1..])
  }

  /** Adding signed amounts to counts. */
  function Adjust(m: map<U32, int>, deltas: seq<(U32, int)>): map<U32, int>
    decreases |deltas|
  {
    if deltas == [] then m
    else
      var (k, v) := deltas[0];
      Adjust(m[k := Count(m, k) + v], deltas[1..])
  }

  lemma {:induction false} MultisetRepeat<T>(x: T, n: nat, y: T)
    ensures multiset(Repeat(x, n))[y] == if y == x then n else 0
  {
    if n > 0 {
      MultisetRepeat(x, n - 1, y);
      assert Repeat(x, n) == [x] + Repeat(x, n - 1);
    }
  }

  /**
   * `cleanup_presses_releases` emits, for every listed key with count `m`, exactly
   * `|m|` events with `pressed == (m < 0)`, and nothing else.
   */
  lemma {:induction false} CleanupCounts(m: map<U32, int>, order: seq<U32>, k: U32, p: bool)
    requires forall i :: 0 <= i < |order| ==> order[i] in m
    requires forall i, j :: 0 <= i < j < |order| ==> order[i] != order[j]
    ensures multiset(CleanupPressesReleases(m, order))[(k, p)] ==
      if k in order && p == (m[k] < 0) then Abs(m[k]) else 0
  {
    if order != [] {
      var h := order[0];
      CleanupCounts(m, order[1..], k, p);
      MultisetRepeat((h, m[h] < 0), Abs(m[h]), (k, p));
      assert k in order <==> k == h || k in order[1..];
      assert k == h ==> k !in order[1..];
    }
  }

  lemma {:induction false} ReplayAppend(m: map<U32, int>, a: seq<(U32, bool)>, b: seq<(U32, bool)>)
    ensures Replay(m, a + b) == Replay(Replay(m, a), b)
    decreases |a|
  {
    if a == [] {
      assert a + b == b;
    } else {
      assert (a + b)[0] == a[0];
      assert (a + b)[1..] == a[1..] + b;
      ReplayAppend(Tally(m, SignedKey(a[0].0, a[0].1)), a[1..], b);
    }
  }

  /** Replaying `n` copies of one event moves only that key, by `n` steps. */
  lemma {:induction false} ReplayRepeat(m: map<U32, int>, k: U32, p: bool, n: nat)
    requires 0 < k <= I32Max
    decreases n
    ensures forall j ::
      Count(Replay(m, Repeat((k, p), n)), j) == Count(m, j) + (if j == k then (if p then n as int else -(n as int)) else 0)
  {
    if n > 0 {
      var m' := Tally(m, SignedKey(k, p));
      assert Repeat((k, p), n)[1..] == Repeat((k, p), n - 1);
      ReplayRepeat(m', k, p, n - 1);
    }
  }

  /** Replaying the cleanup of `m` on top of `w` subtracts `m`'s count of every listed key. */
  lemma {:induction false} ReplayCleanup(w: map<U32, int>, m: map<U32, int>, order: seq<U32>)
    requires forall i :: 0 <= i < |order| ==> order[i] in m && 0 < order[i] <= I32Max
    requires forall i, j :: 0 <= i < j < |order| ==> order[i] != order[j]
    decreases |order|
    ensures forall j ::
      Count(Replay(w, CleanupPressesReleases(m, order)), j) == Count(w, j) - (if j in order then m[j] else 0)
  {
    if order != [] {
      var h := order[0];
      var events := Repeat((h, m[h] < 0), Abs(m[h]));
      ReplayAppend(w, events, CleanupPressesReleases(m, order[1..]));
      ReplayRepeat(w, h, m[h] < 0, Abs(m[h]));
      ReplayCleanup(Replay(w, events), m, order[1..]);
      forall j ensures j in order <==> j == h || j in order[1..] {
      }
      assert h !in order[1..];
    }
  }

  /**
   * Replaying what `cleanup_presses_releases` emits into the blot it came from leaves
   * that blot clean. Keys must lie in `1..=i32::MAX`: key 0 never moves, and a key
   * above `i32::MAX` is counted with the wrong sign by `code as i32`.
   */
  lemma ReplayingCleanupCleans(m: map<U32, int>, order: seq<U32>)
    requires Enumerates(order, m.Keys)
    requires forall k :: k in m ==> 0 < k <= I32Max
    ensures Clean(Replay(m, CleanupPressesReleases(m, order)))
  {
    ReplayCleanup(m, m, order);
    var r := Replay(m, CleanupPressesReleases(m, order));
    forall k | k in r ensures r[k] == 0 {
      assert Count(r, k) == r[k];
    }
  }

  /** Adding `cleanup_key_math`'s negated counts back into the blot cancels every count. */
  lemma {:induction false} KeyMathCancels(w: map<U32, int>, m: map<U32, int>, order: seq<U32>)
    requires forall i :: 0 <= i < |order| ==> order[i] in m
    requires forall i, j :: 0 <= i < j < |order| ==> order[i] != order[j]
    decreases |order|
    ensures forall j ::
      Count(Adjust(w, CleanupKeyMath(m, order)), j) == Count(w, j) - (if j in order then m[j] else 0)
  {
    if order != [] {
      var h := order[0];
      KeyMathCancels(w[h := Count(w, h) - m[h]], m, order[1..]);
      forall j ensures j in order <==> j == h || j in order[1..] {
      }
      assert h !in order[1..];
    }
  }

  // ---------------------------------------------------------------- ButtonBlot

  /** Per-key signed press/release counter. */
  class ButtonBlot {
    var keys: map<U32, int>

    /** `ButtonBlot::default()`: no keys. */
    constructor ()
      ensures keys == map[]
      ensures IsClean()
    {
      keys := map[];
    }

    /** `key_math`: positive codes are presses, negative codes releases. */
    method KeyMath(code: I32)
      modifies this
      ensures keys == Tally(old(keys), code)
    {
      var step := Sign(code);
      var key: U32 := Abs(code);
      if key in keys {
        keys := keys[key := keys[key] + step];
      } else {
        keys := keys[key := step];
      }
    }

    method KeyPressed(code: U32)
      modifies this
      ensures keys == Tally(old(keys), AsI32(code))
    {
      KeyMath(AsI32(code));
    }

    method KeyReleased(code: U32)
      modifies this
      ensures keys == Tally(old(keys), WrappingNeg(AsI32(code)))
    {
      KeyMath(WrappingNeg(AsI32(code)));
    }

    /** `key_update(code, pressed)`: one press adds 1 to the key's count, one release
        subtracts 1, and no other key changes (for codes in `1..=i32::MAX`). */
    method KeyUpdate(code: U32, pressed: bool)
      modifies this
      ensures keys == Tally(old(keys), SignedKey(code, pressed))
      ensures 0 < code <= I32Max ==> Count(keys, code) == Count(old(keys), code) + (if pressed then 1 else -1)
      ensures forall k :: k != Abs(SignedKey(code, pressed)) ==> Count(keys, k) == Count(old(keys), k)
    {
      KeyMath(SignedKey(code, pressed));
    }

    /** `is_clean`. */
    predicate IsClean()
      reads this
    {
      Clean(keys)
    }
  }

  // ---------------------------------------------------------------- send_input_ipc

  function MouseButtons(events: seq<(U32, bool)>): (r: seq<Message>)
    ensures |r| == |events|
    ensures forall i :: 0 <= i < |r| ==> r[i] == MouseButton(events[i].0, events[i].1)
  {
    if events == [] then [] else [MouseButton(events[0].0, events[0].1)] + MouseButtons(events[1..])
  }

  function Keys(events: seq<(U32, bool)>): (r: seq<Message>)
    ensures |r| == |events|
    ensures forall i :: 0 <= i < |r| ==> r[i] == Key(events[i].0, events[i].1)
  {
    if events == [] then [] else [Key(events[0].0, events[0].1)] + Keys(events[1..])
  }

  /** The cleanup messages of a blot that may not exist yet. */
  function ResetMessages(mouse: Option<map<U32, int>>, key: Option<map<U32, int>>,
                         mouseOrder: seq<U32>, keyOrder: seq<U32>): seq<Message>
    requires mouse.Some? ==> Enumerates(mouseOrder, mouse.value.Keys)
    requires key.Some? ==> Enumerates(keyOrder, key.value.Keys)
  {
    (if mouse.Some? then MouseButtons(CleanupPressesReleases(mouse.value, mouseOrder)) else [])
    + (if key.Some? then Keys(CleanupPressesReleases(key.value, keyOrder)) else [])
  }

  /**
   * The messages `send_input_ipc` writes for one call: the message itself, except that
   * `ResetInput` is replaced by the mouse blot's cleanup as `MouseButton` messages
   * followed by the key blot's cleanup as `Key` messages. `ResetInput` itself is never
   * written.
   */
  function Outgoing(message: Message, mouse: Option<map<U32, int>>, key: Option<map<U32, int>>,
                    mouseOrder: seq<U32>, keyOrder: seq<U32>): (out: seq<Message>)
    requires message.ResetInput? && mouse.Some? ==> Enumerates(mouseOrder, mouse.value.Keys)
    requires message.ResetInput? && key.Some? ==> Enumerates(keyOrder, key.value.Keys)
    ensures ResetInput !in out
    ensures !message.ResetInput? ==> out == [message]
    ensures message.ResetInput? ==> forall m :: m in out ==> m.MouseButton? || m.Key?
  {
    if message.ResetInput? then ResetMessages(mouse, key, mouseOrder, keyOrder) else [message]
  }

  /** The process-wide state behind `send_input_ipc`: the two blots (initially absent)
      and the messages written to standard output so far, in order. */
  class InputSession {
    var mouseBlot: ButtonBlot?
    var keyBlot: ButtonBlot?
    var written: seq<Message>

    ghost predicate Valid()
      reads this
    {
      mouseBlot != null && keyBlot != null ==> mouseBlot != keyBlot
    }

    function MouseCounts(): Option<map<U32, int>>
      reads this, mouseBlot
    {
      if mouseBlot == null then None else Some(mouseBlot.keys)
    }

    function KeyCounts(): Option<map<U32, int>>
      reads this, keyBlot
    {
      if keyBlot == null then None else Some(keyBlot.keys)
    }

    constructor ()
      ensures Valid()
      ensures MouseCounts() == None && KeyCounts() == None && written == []
    {
      mouseBlot, keyBlot, written := null, null, [];
    }

    /**
     * `send_input_ipc`. `mouseOrder` and `keyOrder` stand for the blots' hash-map
     * iteration orders, used only by `ResetInput`.
     */
    method Send(message: Message, mouseOrder: seq<U32>, keyOrder: seq<U32>)
      requires Valid()
      requires message.ResetInput? && mouseBlot != null ==> Enumerates(mouseOrder, mouseBlot.keys.Keys)
      requires message.ResetInput? && keyBlot != null ==> Enumerates(keyOrder, keyBlot.keys.Keys)
      modifies this, mouseBlot, keyBlot
      ensures Valid()
      ensures written == old(written) + Outgoing(message, old(MouseCounts()), old(KeyCounts()), mouseOrder, keyOrder)
      ensures message.MouseButton? ==>
        && MouseCounts() == Some(Tally(old(MouseCounts()).GetOr(map[]), SignedKey(message.button, message.pressed)))
        && KeyCounts() == old(KeyCounts())
      ensures message.Key? ==>
        && KeyCounts() == Some(Tally(old(KeyCounts()).GetOr(map[]), SignedKey(message.keycode, message.pressed)))
        && MouseCounts() == old(MouseCounts())
      ensures message.ResetInput? ==> MouseCounts() == Some(map[]) && KeyCounts() == Some(map[])
      ensures !(message.MouseButton? || message.Key? || message.ResetInput?) ==>
        MouseCounts() == old(MouseCounts()) && KeyCounts() == old(KeyCounts())
    {
      match message {
        case MouseButton(button, pressed) =>
          mouseBlot := Updated(mouseBlot, button, pressed);
          written := written + [message];
        case Key(keycode, pressed) =>
          keyBlot := Updated(keyBlot, keycode, pressed);
          written := written + [message];
        case ResetInput =>
          Reset(mouseOrder, keyOrder);
        case _ =>
          written := written + [message];
      }
    }

    /** The `ResetInput` branch: both blots are replaced by empty ones and the old ones'
        cleanup events are written, mouse buttons first. */
    method Reset(mouseOrder: seq<U32>, keyOrder: seq<U32>)
      requires mouseBlot != null ==> Enumerates(mouseOrder, mouseBlot.keys.Keys)
      requires keyBlot != null ==> Enumerates(keyOrder, keyBlot.keys.Keys)
      modifies this
      ensures Valid()
      ensures written == old(written) + ResetMessages(old(MouseCounts()), old(KeyCounts()), mouseOrder, keyOrder)
      ensures MouseCounts() == Some(map[]) && KeyCounts() == Some(map[])
    {
      var mouse, key := MouseCounts(), KeyCounts();
      var mouseMessages: seq<Message> := [];
      mouseBlot := new ButtonBlot();
      if mouse.Some? {
        mouseMessages := MouseButtons(CleanupPressesReleases(mouse.value, mouseOrder));
      }
      var keyMessages: seq<Message> := [];
      keyBlot := new ButtonBlot();
      if key.Some? {
        keyMessages := Keys(CleanupPressesReleases(key.value, keyOrder));
      }
      written := written + (mouseMessages + keyMessages);
    }

    /** `blot.get_or_insert(ButtonBlot::default()).key_update(code, pressed)`. */
    static method Updated(blot: ButtonBlot?, code: U32, pressed: bool) returns (b: ButtonBlot)
      modifies blot
      ensures blot != null ==> b == blot
      ensures blot == null ==> fresh(b)
      ensures b.keys == Tally(if blot == null then map[] else old(blot.keys), SignedKey(code, pressed))
    {
      if blot == null {
        b := new ButtonBlot();
      } else {
        b := blot;
      }
      b.KeyUpdate(code, pressed);
    }
  }

  // ---------------------------------------------------------------- framing

  /** `(len as u32).to_be_bytes()`: four big-endian bytes of the length, truncated to
      32 bits by the cast. */
  function LengthPrefix(n: nat): (b: seq<Byte>)
    ensures |b| == 4
  {
    var v := n % U32Limit;
    [v / 0x100_0000, v / 0x1_0000 % 256, v / 0x100 % 256, v % 256]
  }

  /** `u32::from_be_bytes`. */
  function ReadLength(b: seq<Byte>): (n: nat)
    requires |b| == 4
    ensures n < U32Limit
  {
    (b[0] as int) * 0x100_0000 + (b[1] as int) * 0x1_0000 + (b[2] as int) * 0x100 + (b[3] as int)
  }

  /** One frame: the length prefix followed by the payload. */
  function Frame(payload: seq<Byte>): seq<Byte> {
    LengthPrefix(|payload|) + payload
  }

  /** The bytes written for a sequence of payloads, one frame after another. */
  function Frames(payloads: seq<seq<Byte>>): seq<Byte> {
    if payloads == [] then [] else Frame(payloads[0]) + Frames(payloads[1..])
  }

  datatype ReadError = UnexpectedEof

  /** The reader's two `read_exact` calls: the length, then that many payload bytes. */
  function ReadFrame(stream: seq<Byte>): Result<(seq<Byte>, seq<Byte>), ReadError> {
    if |stream| < 4 then Err(UnexpectedEof)
    else
      var n := ReadLength(stream[..4]);
      if |stream| - 4 < n then Err(UnexpectedEof)
      else Ok((stream[4..4 + n], stream[4 + n..]))
  }

  /** Reading frames until the stream is used up. */
  function ReadAll(stream: seq<Byte>): Result<seq<seq<Byte>>, ReadError>
    decreases |stream|
  {
    if stream == [] then Ok([])
    else
      match ReadFrame(stream)
      case Err(e) => Err(e)
      case Ok((payload, rest)) =>
        match ReadAll(rest)
        case Err(e) => Err(e)
        case Ok(more) => Ok([payload] + more)
  }

  lemma DigitsRoundTrip(v: nat)
    requires v < U32Limit
    ensures (v / 0x100_0000) * 0x100_0000 + (v / 0x1_0000 % 256) * 0x1_0000 + (v / 0x100 % 256) * 0x100 + v % 256 == v
  {
    var q0 := v / 0x100;
    var q1 := q0 / 0x100;
    var q2 := q1 / 0x100;
    assert v == q0 * 0x100 + v % 256;
    assert q0 == q1 * 0x100 + q0 % 256;
    assert q1 == q2 * 0x100 + q1 % 256;
    assert v / 0x1_0000 == q1;
    assert v / 0x100_0000 == q2;
  }

  /** The reader recovers every length below 2^32 from its prefix. */
  lemma LengthRoundTrip(n: nat)
    requires n < U32Limit
    ensures ReadLength(LengthPrefix(n)) == n
  {
    assert n % U32Limit == n;
    var b := LengthPrefix(n);
    assert b == [n / 0x100_0000, n / 0x1_0000 % 256, n / 0x100 % 256, n % 256];
    DigitsRoundTrip(n);
  }

  /** The reader recovers a frame's payload and leaves what follows untouched. */
  lemma FrameRoundTrip(payload: seq<Byte>, rest: seq<Byte>)
    requires |payload| < U32Limit
    ensures ReadFrame(Frame(payload) + rest) == Ok((payload, rest))
  {
    var s := Frame(payload) + rest;
    assert s[..4] == LengthPrefix(|payload|);
    LengthRoundTrip(|payload|);
    assert s[4..4 + |payload|] == payload;
    assert s[4 + |payload|..] == rest;
  }

  /** Reading back a whole stream of frames yields the payloads in order. */
  lemma {:induction false} StreamRoundTrip(payloads: seq<seq<Byte>>)
    requires forall i :: 0 <= i < |payloads| ==> |payloads[i]| < U32Limit
    ensures ReadAll(Frames(payloads)) == Ok(payloads)
  {
    if payloads != [] {
      var rest := Frames(payloads[1..]);
      FrameRoundTrip(payloads[0], rest);
      StreamRoundTrip(payloads[1..]);
      assert [payloads[0]] + payloads[1..] == payloads;
    }
  }
}
