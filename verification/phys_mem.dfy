/** Guest-physical memory as a store of 4 KiB frames: reads of absent frames give zeros, a write creates the frame. */
module PhysMemory {

  type byte = x: int | 0 <= x < 256

  const FRAME: nat := 4096

  type Frame = s: seq<byte> | |s| == FRAME witness seq(FRAME, _ => 0)

  // --- Little-endian words -----------------------------------------------------------

  function FromLe(s: seq<byte>): nat {
    if s == [] then 0 else s[0] + 256 * FromLe(s[1..])
  }

  function ToLe(v: nat, n: nat): (s: seq<byte>)
    ensures |s| == n
  {
    if n == 0 then [] else [v % 256] + ToLe(v / 256, n - 1)
  }

  function Pow256(n: nat): (p: nat)
    ensures p >= 1
  {
    if n == 0 then 1 else 256 * Pow256(n - 1)
  }

  const WORD: nat := 0x1_0000_0000_0000_0000

  lemma {:induction false} LeRoundTrip(v: nat, n: nat)
    requires v < Pow256(n)
    ensures FromLe(ToLe(v, n)) == v
  {
    if n > 0 {
      LeRoundTrip(v / 256, n - 1);
      assert ToLe(v, n)[1..] == ToLe(v / 256, n - 1);
    }
  }

  lemma {:induction false} LeBounded(s: seq<byte>)
    ensures FromLe(s) < Pow256(|s|)
  {
    if s != [] {
      LeBounded(s[1..]);
    }
  }

  lemma WordSize()
    ensures Pow256(8) == WORD
  {
    assert Pow256(4) == 0x1_0000_0000;
    assert Pow256(8) == 256 * (256 * (256 * (256 * Pow256(4))));
  }

  // --- The contents of a frame store ---------------------------------------------------

  /** The byte a frame store holds at `addr`. */
  function ByteAt(frames: map<nat, Frame>, addr: nat): byte {
    if addr / FRAME in frames then frames[addr / FRAME][addr % FRAME] else 0
  }

  function Bytes(frames: map<nat, Frame>, addr: nat, n: nat): (s: seq<byte>)
    ensures |s| == n
    ensures forall i :: 0 <= i < n ==> s[i] == ByteAt(frames, addr + i)
    decreases n
  {
    if n == 0 then [] else [ByteAt(frames, addr)] + Bytes(frames, addr + 1, n - 1)
  }

  /** A span inside one frame is a slice of that frame. */
  lemma SpanIsSlice(frames: map<nat, Frame>, addr: nat, n: nat)
    requires addr % FRAME + n <= FRAME
    ensures var page, off := addr / FRAME, addr % FRAME;
            Bytes(frames, addr, n) == if page in frames then frames[page][off..off + n] else seq(n, _ => 0)
  {
    var page, off := addr / FRAME, addr % FRAME;
    var slice := if page in frames then frames[page][off..off + n] else seq(n, _ => 0);
    forall i | 0 <= i < n
      ensures Bytes(frames, addr, n)[i] == slice[i]
    {
      assert (addr + i) / FRAME == page && (addr + i) % FRAME == off + i;
    }
  }

  /** The little-endian quad-word at `addr`. */
  function WordAt(frames: map<nat, Frame>, addr: nat): (v: nat)
    ensures v < WORD
  {
    LeBounded(Bytes(frames, addr, 8));
    WordSize();
    FromLe(Bytes(frames, addr, 8))
  }

  /** `g` is `f` with `data` stored at `addr`. */
  ghost predicate Stored(f: map<nat, Frame>, g: map<nat, Frame>, addr: nat, data: seq<byte>) {
    forall a: nat :: ByteAt(g, a) == if addr <= a < addr + |data| then data[a - addr] else ByteAt(f, a)
  }

  /** Two frame stores that differ only in which zero frames exist. */
  ghost predicate SameBytes(f: map<nat, Frame>, g: map<nat, Frame>) {
    forall a: nat :: ByteAt(g, a) == ByteAt(f, a)
  }

  lemma WordStored(f: map<nat, Frame>, g: map<nat, Frame>, addr: nat, v: nat)
    requires v < WORD && Stored(f, g, addr, ToLe(v, 8))
    ensures WordAt(g, addr) == v
  {
    WordSize();
    LeRoundTrip(v, 8);
    assert Bytes(g, addr, 8) == ToLe(v, 8);
  }

  lemma WordUntouched(f: map<nat, Frame>, g: map<nat, Frame>, addr: nat, data: seq<byte>, a: nat)
    requires Stored(f, g, addr, data)
    requires a + 8 <= addr || addr + |data| <= a
    ensures WordAt(g, a) == WordAt(f, a)
  {
    assert Bytes(g, a, 8) == Bytes(f, a, 8);
  }

  /** Frames in the store: `frame_mut` creates them zeroed, loads of missing ones give zero. */
  class PhysMem {
    var frames: map<nat, Frame>

    constructor ()
      ensures frames == map[]
    {
      frames := map[];
    }

    method FrameMut(page: nat)
      modifies this
      ensures page in frames && SameBytes(old(frames), frames)
    {
      if page !in frames {
        frames := frames[page := seq(FRAME, _ => 0)];
      }
    }

    function Load8(addr: nat): (v: byte)
      reads this
    {
      ByteAt(frames, addr)
    }

    method Store8(addr: nat, v: byte)
      modifies this
      ensures Stored(old(frames), frames, addr, [v])
    {
      FrameMut(addr / FRAME);
      frames := frames[addr / FRAME := frames[addr / FRAME][addr % FRAME := v]];
    }

    function Load64(addr: nat): (v: nat)
      reads this
      ensures v == WordAt(frames, addr)
    {
      var off := addr % FRAME;
      if addr / FRAME in frames && off + 8 <= FRAME then
        SpanIsSlice(frames, addr, 8);
        FromLe(frames[addr / FRAME][off..off + 8])
      else
        FromLe(Bytes(frames, addr, 8))
    }

    method Store64(addr: nat, v: nat)
      requires v < WORD
      modifies this
      ensures Stored(old(frames), frames, addr, ToLe(v, 8))
    {
      var off := addr % FRAME;
      if off + 8 <= FRAME {
        CopyIn(addr, ToLe(v, 8));
      } else {
        for i := 0 to 8
          invariant Stored(old(frames), frames, addr, ToLe(v, 8)[..i])
        {
          Store8(addr + i, ToLe(v, 8)[i]);
        }
        assert ToLe(v, 8)[..8] == ToLe(v, 8);
      }
    }

    /** Store `data` at `addr`; the caller keeps the span within one frame. */
    method CopyIn(addr: nat, data: seq<byte>)
      requires addr % FRAME + |data| <= FRAME
      modifies this
      ensures Stored(old(frames), frames, addr, data)
    {
      var page, off := addr / FRAME, addr % FRAME;
      FrameMut(page);
      var f := frames[page];
      frames := frames[page := f[..off] + data + f[off + |data|..]];
    }

    /** The `n` bytes at `addr`; the caller keeps the span within one frame. */
    function CopyOut(addr: nat, n: nat): (data: seq<byte>)
      requires addr % FRAME + n <= FRAME
      reads this
      ensures data == Bytes(frames, addr, n)
    {
      var page, off := addr / FRAME, addr % FRAME;
      SpanIsSlice(frames, addr, n);
      if page in frames then frames[page][off..off + n] else seq(n, _ => 0)
    }
  }
}
