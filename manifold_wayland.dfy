/**
 * manifold/src/wayland.rs: the `wl_keyboard` keymap event handler, which reads the
 * keymap and strips its trailing NUL bytes before storing it.
 */
module ManifoldWayland {
  import opened Wrappers
  import opened Ipc

  /** `data` with every trailing zero byte removed (the keymap's NUL terminators). */
  function Stripped(data: seq<Byte>): (r: seq<Byte>)
    ensures |r| <= |data| && r == data[..|r|]
    ensures r == [] || r[|r| - 1] != 0
    ensures forall i :: |r| <= i < |data| ==> data[i] == 0
    decreases |data|
  {
    if data != [] && data[|data| - 1] == 0 then Stripped(data[..|data| - 1]) else data
  }

  /** The `while let Some(0) = data.last() { data.pop(); }` loop. */
  method StripTrailingNuls(data: seq<Byte>) returns (r: seq<Byte>)
    ensures r == Stripped(data)
  {
    r := data;
    while r != [] && r[|r| - 1] == 0
      invariant Stripped(r) == Stripped(data)
      decreases |r|
    {
      r := r[..|r| - 1];
    }
  }

  /** A run of `n` zero bytes. */
  function Zeros(n: nat): (z: seq<Byte>)
    ensures |z| == n && forall i :: 0 <= i < n ==> z[i] == 0
  {
    if n == 0 then [] else Zeros(n - 1) + [0]
  }

  /** Stripping is characterised by its result: appending zeros to bytes that do not end
      in zero and stripping gives those bytes back. */
  lemma {:induction false} StrippedOfPadded(p: seq<Byte>, n: nat)
    requires p == [] || p[|p| - 1] != 0
    ensures Stripped(p + Zeros(n)) == p
    decreases n
  {
    if n == 0 {
      assert p + Zeros(0) == p;
    } else {
      var padded := p + Zeros(n);
      assert padded[..|padded| - 1] == p + Zeros(n - 1);
      StrippedOfPadded(p, n - 1);
    }
  }

  /** Stripping twice is stripping once. */
  lemma StrippedIdempotent(data: seq<Byte>)
    ensures Stripped(Stripped(data)) == Stripped(data)
  {
  }

  /** The input is exactly the stripped keymap followed by zeros. */
  lemma StrippedThenPadded(data: seq<Byte>)
    ensures data == Stripped(data) + Zeros(|data| - |Stripped(data)|)
  {
    var r := Stripped(data);
    assert data == r + data[|r|..];
  }

  /** Zero bytes inside the keymap are kept: only the trailing run is removed. */
  lemma InteriorZerosKept(a: seq<Byte>, b: seq<Byte>)
    requires b != [] && b[|b| - 1] != 0
    ensures Stripped(a + [0] + b) == a + [0] + b
  {
    var x := a + [0] + b;
    assert x[|x| - 1] == b[|b| - 1];
  }

  /** The keymap format of the event, as `WEnum<KeymapFormat>`: a known value or an
      unknown raw one. */
  datatype KeymapFormat = NoKeymap | XkbV1 | UnknownFormat(raw: U32)

  /** `WlHandler`: the keymap received so far; `panicked` records the `unwrap` on an
      unknown format. */
  class WlHandler {
    var keymap: Option<seq<Byte>>
    var panicked: bool

    constructor ()
      ensures keymap == None && !panicked
    {
      keymap, panicked := None, false;
    }

    /**
     * A `Keymap` event whose file holds `data`: an `XkbV1` keymap is stored without its
     * trailing NULs, a `NoKeymap` event changes nothing, and an unknown format aborts.
     */
    method KeymapEvent(format: KeymapFormat, data: seq<Byte>)
      modifies this
      ensures format.XkbV1? ==> keymap == Some(Stripped(data)) && panicked == old(panicked)
      ensures format.NoKeymap? ==> keymap == old(keymap) && panicked == old(panicked)
      ensures format.UnknownFormat? ==> keymap == old(keymap) && panicked
    {
      match format {
        case UnknownFormat(_) =>
          panicked := true;
        case NoKeymap =>
        case XkbV1 =>
          var stripped := StripTrailingNuls(data);
          keymap := Some(stripped);
      }
    }
  }
}
