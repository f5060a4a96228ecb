/** The direct-mapped cache of decoded instructions. An entry is live while its version is no older
    than the last store to its page and the last invalidation; that evidence alone must imply that the
    entry is what a fresh decode would give. */
module ArmCache {
  import opened ArmAlu
  import opened ArmDecode
  import opened ArmMachine
  import opened ArmMemory

  const ENTRIES: nat := 16384
  const STAMPS: nat := 16384

  datatype Entry = Entry(key: nat, version: nat, insn: Decoded)

  type Entries = s: seq<Entry> | |s| == ENTRIES witness seq(ENTRIES, _ => Entry(0, 0, DEAD))
  type Stamps = s: seq<nat> | |s| == STAMPS witness seq(STAMPS, _ => 0)

  const DEAD: Decoded := Decoded(0, 0, Undef)

  /** Instruction address, with the Thumb bit in bit 63. */
  function KeyOf(h: Here): nat {
    h.start + if h.thumb then 0x8000_0000_0000_0000 else 0
  }

  function SlotOf(start: u32): (s: nat)
    ensures s < ENTRIES
  {
    start / 2 % 16384
  }

  predicate Aligned(h: Here) {
    if h.thumb then h.start % 2 == 0 else h.start % 4 == 0
  }

  predicate HitsAt(entries: Entries, stamps: Stamps, inval: nat, h: Here) {
    var e := entries[SlotOf(h.start)];
    e.key == KeyOf(h) && e.version >= stamps[StampSlot(h.start)] && e.version >= inval
  }

  /** An address the stamps can vouch for: any, when mirrors share stamp slots; else in the first copy of its 64 MiB
      window, as windows share slots. */
  predicate Direct(a: u32, size: nat) {
    size % 0x400_0000 == 0 || a % 0x400_0000 < size
  }

  /** The clock is ahead of all evidence. */
  ghost predicate ClockedAt(entries: Entries, stamps: Stamps, clock: nat, inval: nat) {
    && inval <= clock
    && (forall s :: 0 <= s < STAMPS ==> stamps[s] <= clock)
    && (forall s :: 0 <= s < ENTRIES ==> entries[s].version <= clock)
  }

  /** Every hit is what a fresh decode of the current bytes gives. */
  ghost predicate CoherentAt(entries: Entries, stamps: Stamps, clock: nat, inval: nat, ram: Ram) {
    && ClockedAt(entries, stamps, clock, inval)
    && forall h: Here :: Aligned(h) && Direct(h.start, |ram|) && HitsAt(entries, stamps, inval, h) ==>
         entries[SlotOf(h.start)].insn == Fetch(ram, h)
  }

  // --- One store ---------------------------------------------------------------------------------

  /** Addresses with one cell have one stamp slot, for addresses the stamps can vouch for. */
  lemma SharedSlot(a: u32, b: u32, size: nat)
    requires RamSize(size) && Direct(a, size) && Direct(b, size) && Cell(a, size) == Cell(b, size)
    ensures StampSlot(a) == StampSlot(b)
  {
    hide Cell, StampSlot, RamSize;
    SizeAtLeast(size);
    if size % 0x400_0000 == 0 {
      SameSlot(a, b, size);
    } else {
      WindowCell(a, size);
      WindowCell(b, size);
      SlotOfRem(a);
      SlotOfRem(b);
    }
  }

  /** Those are the only such addresses: any other shares its cell with one of them in another slot. */
  lemma VouchedExactly(a: u32, size: nat)
    requires RamSize(size)
    ensures Direct(a, size) <==>
            forall b: u32 :: Direct(b, size) && Cell(b, size) == Cell(a, size) ==> StampSlot(b) == StampSlot(a)
  {
    hide Cell, StampSlot, RamSize;
    SizeAtLeast(size);
    if Direct(a, size) {
      forall b: u32 | Direct(b, size) && Cell(b, size) == Cell(a, size)
        ensures StampSlot(b) == StampSlot(a)
      {
        SharedSlot(a, b, size);
      }
    } else {
      SmallSize(size);
      var b: u32 := Cell(a, size);
      SlotBelow(b, size);
      CellOfSmall(b, size);
      SlotOfRem(a);
      SlotOfRem(b);
      assert Direct(b, size) && StampSlot(b) != StampSlot(a);
    }
  }

  lemma SlotBelow(b: nat, size: nat)
    requires b < size <= 0x200_0000 && size % 4096 == 0
    ensures b % 0x400_0000 == b && forall r: nat :: r >= size ==> r / 4096 > b / 4096
  {
  }

  /** A word is all in one page. */
  lemma WordInPage(a: u32)
    ensures StampSlot(AlignWord(a)) == StampSlot(a)
    ensures AlignWord(a) % 4 == 0 && a == AlignWord(a) + a % 4
  {
    var q := a / 4096;
    assert a == 4096 * q + a % 4096;
  }

  /** The cell of an address, through the cell of its word. */
  lemma CellInWord(a: u32, size: nat)
    requires RamSize(size)
    ensures Cell(a, size) == Cell(AlignWord(a), size) + a % 4
    ensures Cell(AlignWord(a), size) % 4 == 0 && Cell(AlignWord(a), size) + 4 <= size
  {
    hide Cell, RamSize, AlignWord, StampSlot;
    SizeAtLeast(size);
    WordInPage(a);
    WordCells(AlignWord(a), size);
    NextCell(AlignWord(a), size, a % 4);
  }

  /** Reads of an aligned instruction only see the cells of its word. */
  lemma FetchInWord(ram: Ram, other: Ram, h: Here)
    requires RamSize(|ram|) && |other| == |ram| && Aligned(h)
    requires var c := Cell(AlignWord(h.start), |ram|);
             forall k :: c <= k < c + 4 && k < |ram| ==> other[k] == ram[k]
    ensures Fetch(other, h) == Fetch(ram, h)
  {
    hide Cell, RamSize, AlignWord, DecodeArm, DecodeThumb, Wrap, StampSlot;
    CellInWord(h.start, |ram|);
    WordInPage(h.start);
    if h.thumb {
      HalfNext(h.start);
      CellInWord(Wrap(h.start + 1), |ram|);
    } else {
      WordCells(h.start, |ram|);
      Wrap3(h.start);
      assert AlignWord(h.start) == h.start;
    }
  }

  lemma HalfNext(a: u32)
    requires a % 2 == 0
    ensures Wrap(a + 1) == a + 1 && AlignWord(Wrap(a + 1)) == AlignWord(a) && Wrap(a + 1) % 4 == a % 4 + 1
  {
    var q := a / 4;
    assert a == 4 * q + a % 4;
  }

  /** A store of `n` aligned bytes stays inside one word. */
  lemma StoreInWord(ram: Ram, other: Ram, a: u32, n: nat)
    requires RamSize(|ram|) && (n == 1 || (n == 2 && a % 2 == 0) || (n == 4 && a % 4 == 0))
    requires Outside(ram, other, Cell(a, |ram|), n)
    ensures Outside(ram, other, Cell(AlignWord(a), |ram|), 4)
  {
    hide Cell, RamSize, AlignWord;
    CellInWord(a, |ram|);
    WithinWord(a, n);
  }

  lemma WithinWord(a: u32, n: nat)
    requires n == 1 || (n == 2 && a % 2 == 0) || (n == 4 && a % 4 == 0)
    ensures a % 4 + n <= 4
  {
  }

  /** A store to another stamp slot does not touch the instruction. */
  lemma FetchUntouched(ram: Ram, other: Ram, a: u32, n: nat, h: Here)
    requires RamSize(|ram|) && (n == 1 || (n == 2 && a % 2 == 0) || (n == 4 && a % 4 == 0))
    requires Outside(ram, other, Cell(a, |ram|), n) && Aligned(h)
    requires Direct(a, |ram|) && Direct(h.start, |ram|) && StampSlot(a) != StampSlot(h.start)
    ensures Fetch(other, h) == Fetch(ram, h)
  {
    hide Cell, RamSize, AlignWord, StampSlot, Fetch, Aligned;
    SizeAtLeast(|ram|);
    StoreInWord(ram, other, a, n);
    WordInPage(a);
    WordInPage(h.start);
    CellInWord(a, |ram|);
    CellInWord(h.start, |ram|);
    if Cell(AlignWord(a), |ram|) == Cell(AlignWord(h.start), |ram|) {
      SharedSlot(AlignWord(a), AlignWord(h.start), |ram|);
    } else {
      WordsApart(Cell(AlignWord(a), |ram|), Cell(AlignWord(h.start), |ram|));
    }
    FetchInWord(ram, other, h);
  }

  /** A stamped store keeps the cache coherent: it kills exactly the entries it might have changed. */
  lemma StampKeeps(entries: Entries, stamps: Stamps, clock: nat, inval: nat, ram: Ram, other: Ram, a: u32, n: nat)
    requires CoherentAt(entries, stamps, clock, inval, ram) && RamSize(|ram|) && Direct(a, |ram|)
    requires n == 1 || (n == 2 && a % 2 == 0) || (n == 4 && a % 4 == 0)
    requires Outside(ram, other, Cell(a, |ram|), n)
    ensures CoherentAt(entries, stamps[StampSlot(a) := clock + 1], clock + 1, inval, other)
  {
    hide RamSize, Cell, StampSlot, SlotOf, KeyOf, Fetch, Aligned, Direct;
    var newer := stamps[StampSlot(a) := clock + 1];
    forall h: Here | Aligned(h) && Direct(h.start, |ram|) && HitsAt(entries, newer, inval, h)
      ensures entries[SlotOf(h.start)].insn == Fetch(other, h)
    {
      assert entries[SlotOf(h.start)].version <= clock;
      assert HitsAt(entries, stamps, inval, h);
      FetchUntouched(ram, other, a, n, h);
    }
  }

  lemma KeyIsInjective(h: Here, g: Here)
    requires KeyOf(h) == KeyOf(g)
    ensures h == g
  {
  }

  /** Filling a slot with a fresh decode keeps the cache coherent. */
  lemma FillKeeps(entries: Entries, stamps: Stamps, clock: nat, inval: nat, ram: Ram, h: Here)
    requires CoherentAt(entries, stamps, clock, inval, ram)
    ensures CoherentAt(entries[SlotOf(h.start) := Entry(KeyOf(h), clock, Fetch(ram, h))], stamps, clock, inval, ram)
  {
    hide StampSlot, SlotOf, KeyOf, Fetch, Aligned, Direct;
    var newer := entries[SlotOf(h.start) := Entry(KeyOf(h), clock, Fetch(ram, h))];
    forall g: Here | Aligned(g) && Direct(g.start, |ram|) && HitsAt(newer, stamps, inval, g)
      ensures newer[SlotOf(g.start)].insn == Fetch(ram, g)
    {
      if SlotOf(g.start) == SlotOf(h.start) {
        KeyIsInjective(g, h);
      } else {
        assert HitsAt(entries, stamps, inval, g);
      }
    }
  }

  /** Nothing is live right after an invalidation, so any memory is coherent. */
  lemma InvalidKeeps(entries: Entries, stamps: Stamps, clock: nat, inval: nat, ram: Ram)
    requires ClockedAt(entries, stamps, clock, inval)
    ensures CoherentAt(entries, stamps, clock + 1, clock + 1, ram)
  {
    hide StampSlot, SlotOf, KeyOf, Fetch, Aligned, Direct;
  }

  /** A power-on cache that has decoded one instruction. */
  function OneFill(ram: Ram, h: Here): Entries {
    seq(ENTRIES, _ => Entry(0, 0, DEAD))[SlotOf(h.start) := Entry(KeyOf(h), 1, Fetch(ram, h))]
  }

  function NoStamps(): Stamps {
    seq(STAMPS, _ => 0)
  }

  lemma OneFillCoherent(ram: Ram, h: Here)
    ensures CoherentAt(OneFill(ram, h), NoStamps(), 1, 1, ram)
  {
    hide Fetch, StampSlot, CoherentAt, KeyOf, SlotOf;
    InvalidKeeps(seq(ENTRIES, _ => Entry(0, 0, DEAD)), NoStamps(), 0, 0, ram);
    FillKeeps(seq(ENTRIES, _ => Entry(0, 0, DEAD)), NoStamps(), 1, 1, ram, h);
  }

  /** Without the hypothesis on the size a mirror goes stale: below 64 MiB, a store at address `size`
      leaves the entry for address 0 live although its bytes changed. */
  lemma MirrorGoesStale(ram: Ram, v: u32, store: u32, h: Here)
    requires RamSize(|ram|) && |ram| % 0x400_0000 != 0 && store == |ram| && h == Here(0, false)
    requires DecodeArm(v) != Fetch(ram, h)
    ensures var entries, after := OneFill(ram, h), NoStamps()[StampSlot(store) := 2];
            && CoherentAt(entries, NoStamps(), 1, 1, ram)
            && HitsAt(entries, after, 1, h)
            && entries[SlotOf(h.start)].insn != Fetch(Write32(ram, store, v), h)
  {
    hide Cell, RamSize, DecodeArm, DecodeThumb, Read32, Write32, StampSlot, CoherentAt, KeyOf, SlotOf;
    SmallSize(|ram|);
    SizeAtLeast(|ram|);
    MirrorOfZero(|ram|);
    OneFillCoherent(ram, h);
    AlignedSize(|ram|);
    WordReadBack(ram, store, v, 0);
  }

  lemma AlignedSize(n: nat)
    requires n % 4096 == 0
    ensures n % 4 == 0
  {
  }

  // --- The cache proper ------------------------------------------------------------------------------

  class ICache {
    const entries: array<Entry>
    const stamps: array<nat>
    var clock: nat
    var inval: nat

    predicate Sized() {
      entries.Length == ENTRIES && stamps.Length == STAMPS
    }

    /** Every hit matches the given memory. */
    ghost predicate Coherent(ram: Ram)
      requires Sized()
      reads this, entries, stamps
    {
      CoherentAt(entries[..], stamps[..], clock, inval, ram)
    }

    ghost predicate Clocked()
      requires Sized()
      reads this, entries, stamps
    {
      ClockedAt(entries[..], stamps[..], clock, inval)
    }

    constructor ()
      ensures Sized() && Clocked() && fresh(entries) && fresh(stamps)
      ensures forall ram :: Coherent(ram)
    {
      entries := new Entry[ENTRIES](_ => Entry(0, 0, DEAD));
      stamps := new nat[STAMPS](_ => 0);
      clock, inval := 1, 1;
    }

    /** Whether the slot of `h` holds a live entry for it. */
    predicate Hits(h: Here)
      requires Sized()
      reads this, entries, stamps
    {
      var e := entries[SlotOf(h.start)];
      e.key == KeyOf(h) && e.version >= stamps[StampSlot(h.start)] && e.version >= inval
    }

    /** Record a guest store to `a`. */
    method StampWrite(a: u32)
      requires Sized() && Clocked()
      modifies this`clock, stamps
      ensures Clocked() && clock == old(clock) + 1 && stamps[..] == old(stamps[..])[StampSlot(a) := clock]
    {
      clock := clock + 1;
      stamps[StampSlot(a)] := clock;
    }

    /** Kill every entry. */
    method InvalidateAll()
      requires Sized() && Clocked()
      modifies this`clock, this`inval
      ensures Clocked() && clock == inval == old(clock) + 1 && forall ram :: Coherent(ram)
    {
      ghost var clock0, inval0 := clock, inval;
      clock := clock + 1;
      inval := clock;
      forall ram: Ram
        ensures Coherent(ram)
      {
        InvalidKeeps(entries[..], stamps[..], clock0, inval0, ram);
      }
    }

    /** Install a freshly decoded instruction. */
    method Fill(h: Here, d: Decoded)
      requires Sized() && Clocked()
      modifies entries
      ensures Clocked() && entries[..] == old(entries[..])[SlotOf(h.start) := Entry(KeyOf(h), clock, d)] && Hits(h)
    {
      entries[SlotOf(h.start)] := Entry(KeyOf(h), clock, d);
    }
  }
}
