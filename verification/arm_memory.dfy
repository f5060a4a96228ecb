/** The flat power-of-two RAM of the ARM core: mirrors, words that read back, and the wide accessors. */
module ArmMemory {
  import opened ArmAlu
  import opened ArmRegisters
  import opened ArmDecode
  import opened ArmMachine
  import opened Words

  /** A power of two, at least 64 KiB. */
  ghost predicate RamSize(n: nat) {
    exists k: nat :: k >= 16 && n == Pow2(k)
  }

  lemma CellIsRem(a: nat, size: nat)
    requires size > 0
    ensures Cell(a, size) == Rem(a, size)
  {
    QuotientIs(a, size);
  }

  /** Powers of two divide one another. */
  lemma SizeSplits(size: nat, j: nat)
    requires RamSize(size) && size >= Pow2(j)
    ensures exists b: nat :: b > 0 && size == Mul(Pow2(j), b)
  {
    hide Mul, Pow2;
    var k: nat :| k >= 16 && size == Pow2(k);
    if k < j {
      Pow2Monotone(k + 1, j);
      Pow2Double(k + 1);
    }
    Pow2Add(j, k - j);
  }

  lemma SizeAtLeast(size: nat)
    requires RamSize(size)
    ensures size >= 0x1_0000
  {
    hide Pow2;
    var k: nat :| k >= 16 && size == Pow2(k);
    Pow2Widths();
    Pow2Monotone(16, k);
  }

  /** Reduction modulo a divisor sees through reduction modulo the size. */
  lemma CellMod(a: nat, size: nat, d: nat, b: nat)
    requires d > 0 && b > 0 && size == Mul(d, b) > 0
    ensures Rem(Cell(a, size), d) == Rem(a, d)
  {
    hide Mul, Quo, Rem, Cell;
    CellIsRem(a, size);
    DivDiv(a, d, b);
    DivMod(a, d);
    DivModUnique(Cell(a, size), d, Rem(Quo(a, d), b), Rem(a, d));
  }

  /** The four bytes of an aligned word are four adjacent cells. */
  lemma WordCells(a: u32, size: nat)
    requires RamSize(size) && a % 4 == 0
    ensures Cell(a, size) % 4 == 0 && Cell(a, size) + 3 < size
    ensures Cell(Wrap(a + 1), size) == Cell(a, size) + 1
    ensures Cell(Wrap(a + 2), size) == Cell(a, size) + 2
    ensures Cell(Wrap(a + 3), size) == Cell(a, size) + 3
  {
    hide Mul, Quo, Rem, Cell, Pow2, RamSize, Wrap;
    SizeAtLeast(size);
    Pow2Base();
    Pow2Double(2);
    SizeSplits(size, 2);
    var b: nat :| b > 0 && size == Mul(4, b);
    CellMod(a, size, 4, b);
    QuotientIs(a, 4);
    QuotientIs(Cell(a, size), 4);
    ProductIs(4, b);
    RoomForWord(Cell(a, size), b);
    NoWrap(a, 1);
    NoWrap(a, 2);
    NoWrap(a, 3);
    NextCell(a, size, 1);
    NextCell(a, size, 2);
    NextCell(a, size, 3);
  }

  lemma RoomForWord(c: nat, b: nat)
    requires c % 4 == 0 && c < 4 * b
    ensures c + 3 < 4 * b
  {
  }

  lemma NoWrap(a: u32, k: nat)
    requires a % 4 == 0 && k < 4
    ensures Wrap(a + k) == a + k
  {
    WordEnd(a);
  }

  lemma WordEnd(a: u32)
    requires a % 4 == 0
    ensures a + 3 < 0x1_0000_0000
  {
  }

  lemma NextCell(a: nat, size: nat, k: nat)
    requires size > 0 && Cell(a, size) + k < size
    ensures Cell(a + k, size) == Cell(a, size) + k
  {
    hide Mul, Quo, Rem, Cell;
    CellIsRem(a, size);
    CellIsRem(a + k, size);
    DivMod(a, size);
    DivModUnique(a + k, size, Quo(a, size), Rem(a, size) + k);
  }

  /** Distinct words of a block of at most 64 bytes have distinct cells, wherever it wraps. */
  lemma BlockCells(a: u32, i: nat, j: nat, size: nat)
    requires RamSize(size) && i < j <= 16 && j - i < 16
    ensures Cell(Wrap(a + 4 * i), size) != Cell(Wrap(a + 4 * j), size)
  {
    hide Mul, Quo, Rem, Cell, Pow2, RamSize, Wrap;
    SizeAtLeast(size);
    var x, y := a + 4 * i, a + 4 * j;
    Pow2Widths();
    if size >= 0x1_0000_0000 {
      CellOfSmall(Wrap(x), size);
      CellOfSmall(Wrap(y), size);
      WrapApart(x, y);
    } else {
      WrapCell(x, size);
      WrapCell(y, size);
      CellApart(x, y - x, size);
    }
  }

  lemma WrapApart(x: nat, y: nat)
    requires x < y < x + 64
    ensures Wrap(x) != Wrap(y)
  {
  }

  lemma CellOfSmall(a: nat, size: nat)
    requires a < size
    ensures Cell(a, size) == a
  {
  }

  lemma WrapCell(x: nat, size: nat)
    requires RamSize(size) && size < 0x1_0000_0000
    ensures Cell(Wrap(x), size) == Cell(x, size)
  {
    hide Mul, Quo, Rem, Cell, Pow2, Wrap;
    var k: nat :| k >= 16 && size == Pow2(k);
    Pow2Widths();
    if k > 32 {
      Pow2Monotone(32, k);
    }
    Pow2Add(k, 32 - k);
    DivDiv(x, size, Pow2(32 - k));
    WrapIsRem(x);
    CellIsRem(x, size);
    CellIsRem(Wrap(x), size);
    DivMod(x, size);
    DivModUnique(Wrap(x), size, Rem(Quo(x, size), Pow2(32 - k)), Rem(x, size));
  }

  lemma WrapIsRem(x: nat)
    ensures Wrap(x) == Rem(x, 0x1_0000_0000)
  {
    hide Rem;
    QuotientIs(x, 0x1_0000_0000);
  }

  lemma CellApart(x: nat, d: nat, size: nat)
    requires 0 < d < size
    ensures Cell(x, size) != Cell(x + d, size)
  {
    hide Mul, Quo, Rem, Cell;
    CellIsRem(x, size);
    CellIsRem(x + d, size);
    DivMod(x, size);
    DivMod(x + d, size);
    if Rem(x, size) == Rem(x + d, size) {
      MulSum(Quo(x + d, size), Quo(x, size), size);
      NoMultiple(Quo(x + d, size) - Quo(x, size), d, size);
    }
  }

  lemma NoMultiple(q: int, d: nat, size: nat)
    requires Mul(q, size) == d
    ensures d == 0 || d >= size
  {
    hide Mul;
    MulBasics(size);
    if q >= 1 {
      MulMonotone(1, q, size);
    } else {
      MulMonotone(q, 0, size);
    }
  }

  // --- Stores -----------------------------------------------------------------------------------

  /** `b` is `a` with `n` bytes at cell `c` replaced. */
  ghost predicate Outside(a: Ram, b: Ram, c: nat, n: nat) {
    |a| == |b| && forall k :: 0 <= k < |a| && !(c <= k < c + n) ==> b[k] == a[k]
  }

  lemma Write32Cells(ram: Ram, a: u32, v: u32)
    requires RamSize(|ram|) && a % 4 == 0
    ensures Outside(ram, Write32(ram, a, v), Cell(a, |ram|), 4) && Cell(a, |ram|) + 3 < |ram|
    ensures Read32(Write32(ram, a, v), a) == v
  {
    hide Cell, RamSize, Wrap;
    WordCells(a, |ram|);
    NoWrap(a, 1);
    NoWrap(a, 2);
    WordEnd(a);
    Wrap3(a);
    var c := Cell(a, |ram|);
    var w := ram[c := v % 0x1_0000 % 256][c + 1 := v % 0x1_0000 / 256];
    assert Write16(ram, a, v % 0x1_0000) == w;
    var x := w[c + 2 := v / 0x1_0000 % 256][c + 3 := v / 0x1_0000 / 256];
    assert Write32(ram, a, v) == x;
    assert Read16(x, a) == v % 0x1_0000 % 256 + 256 * (v % 0x1_0000 / 256) == v % 0x1_0000;
  }

  lemma Wrap3(a: u32)
    requires a % 4 == 0
    ensures Wrap(Wrap(a + 2) + 1) == Wrap(a + 3)
  {
    WordEnd(a);
  }

  lemma Read32Same(ram: Ram, other: Ram, a: u32, c: nat)
    requires RamSize(|ram|) && a % 4 == 0 && Outside(ram, other, c, 4)
    requires Cell(a, |ram|) + 4 <= c || c + 4 <= Cell(a, |ram|)
    ensures Read32(other, a) == Read32(ram, a)
  {
    hide Cell, RamSize, Wrap;
    WordCells(a, |ram|);
    NoWrap(a, 1);
    NoWrap(a, 2);
    Wrap3(a);
  }

  /** A word store is read back exactly through the addresses that share its cell. */
  lemma WordReadBack(ram: Ram, a: u32, v: u32, b: u32)
    requires RamSize(|ram|) && a % 4 == 0 && b % 4 == 0
    ensures Read32(Write32(ram, a, v), b) == if Cell(a, |ram|) == Cell(b, |ram|) then v else Read32(ram, b)
  {
    hide Cell, RamSize, Wrap, Read32, Write32, Outside;
    Write32Cells(ram, a, v);
    WordCells(a, |ram|);
    WordCells(b, |ram|);
    if Cell(a, |ram|) == Cell(b, |ram|) {
      SameCellSameWord(Write32(ram, a, v), a, b);
    } else {
      WordsApart(Cell(a, |ram|), Cell(b, |ram|));
      Read32Same(ram, Write32(ram, a, v), b, Cell(a, |ram|));
    }
  }

  lemma WordsApart(c: nat, d: nat)
    requires c % 4 == 0 && d % 4 == 0 && c != d
    ensures c + 4 <= d || d + 4 <= c
  {
  }

  lemma SameCellSameWord(ram: Ram, a: u32, b: u32)
    requires RamSize(|ram|) && a % 4 == 0 && b % 4 == 0 && Cell(a, |ram|) == Cell(b, |ram|)
    ensures Read32(ram, a) == Read32(ram, b)
  {
    hide Cell, RamSize, Wrap;
    WordCells(a, |ram|);
    WordCells(b, |ram|);
    Wrap3(a);
    Wrap3(b);
  }

  // --- Mirrors and write stamps -----------------------------------------------------------------------

  /** The write-stamp slot of an address: its page number modulo 16384. */
  function StampSlot(a: nat): (s: nat)
    ensures s < 16384
  {
    a / 4096 % 16384
  }

  /** Addresses that share a cell share a stamp slot exactly when the memory is a multiple of 64 MiB. */
  lemma MirrorsShareSlots(size: nat)
    requires RamSize(size)
    ensures (forall a: u32, b: u32 :: Cell(a, size) == Cell(b, size) ==> StampSlot(a) == StampSlot(b)) <==>
            size % 0x400_0000 == 0
  {
    hide Cell, StampSlot, RamSize;
    SizeAtLeast(size);
    if size % 0x400_0000 == 0 {
      forall a: u32, b: u32 | Cell(a, size) == Cell(b, size)
        ensures StampSlot(a) == StampSlot(b)
      {
        SameSlot(a, b, size);
      }
    } else {
      SmallSize(size);
      MirrorOfZero(size);
    }
  }

  lemma SameSlot(a: u32, b: u32, size: nat)
    requires size > 0 && size % 0x400_0000 == 0 && Cell(a, size) == Cell(b, size)
    ensures StampSlot(a) == StampSlot(b)
  {
    hide Mul, Quo, Rem, Cell, StampSlot;
    var n := size / 0x400_0000;
    ProductIs(0x400_0000, n);
    CellMod(a, size, 0x400_0000, n);
    CellMod(b, size, 0x400_0000, n);
    QuotientIs(a, 0x400_0000);
    QuotientIs(b, 0x400_0000);
    SlotOfRem(a);
    SlotOfRem(b);
  }

  lemma SlotOfRem(a: nat)
    ensures StampSlot(a) == a % 0x400_0000 / 4096
  {
    var q, r := a / 0x400_0000, a % 0x400_0000;
    assert a == 0x400_0000 * q + r;
    assert a / 4096 == 16384 * q + r / 4096;
  }

  /** A power of two that 64 MiB does not divide is below it, and at least 64 KiB. */
  lemma SmallSize(size: nat)
    requires RamSize(size) && size % 0x400_0000 != 0
    ensures 0x1_0000 <= size <= 0x200_0000 && size % 4096 == 0
  {
    hide Mul, Pow2;
    SizeAtLeast(size);
    var k: nat :| k >= 16 && size == Pow2(k);
    Pow2Widths();
    assert Pow2(12) == 4096 && Pow2(25) == 0x200_0000 && Pow2(26) == 0x400_0000 by { SmallPowers(); }
    if k >= 26 {
      Pow2Add(26, k - 26);
      ProductIs(0x400_0000, Pow2(k - 26));
      assert false;
    }
    Pow2Monotone(k, 25);
    Pow2Add(12, k - 12);
    ProductIs(4096, Pow2(k - 12));
  }

  /** In a memory smaller than a 64 MiB window, the addresses of a window's first copy have their offset in it as
      their cell. */
  lemma WindowCell(a: u32, size: nat)
    requires RamSize(size) && size % 0x400_0000 != 0 && a % 0x400_0000 < size
    ensures Cell(a, size) == a % 0x400_0000
  {
    hide Mul, Quo, Rem, Cell, Pow2;
    SmallSize(size);
    var k: nat :| k >= 16 && size == Pow2(k);
    SmallPowers();
    if k > 25 {
      Pow2Monotone(26, k);
    }
    Pow2Add(k, 26 - k);
    CellMod(a, 0x400_0000, size, Pow2(26 - k));
    CellIsRem(a, size);
    CellIsRem(a % 0x400_0000, size);
    CellOfSmall(a % 0x400_0000, size);
    assert Cell(a, 0x400_0000) == a % 0x400_0000 by { WindowOffset(a); }
  }

  lemma WindowOffset(a: u32)
    ensures Cell(a, 0x400_0000) == a % 0x400_0000
  {
  }

  lemma SmallPowers()
    ensures Pow2(12) == 4096 && Pow2(25) == 0x200_0000 && Pow2(26) == 0x400_0000
  {
    assert Pow2(6) == 64;
    assert Pow2(12) == 4096;
    assert Pow2(18) == 0x4_0000;
    assert Pow2(24) == 0x100_0000;
  }

  lemma MirrorOfZero(size: nat)
    requires 0x1_0000 <= size <= 0x200_0000 && size % 4096 == 0
    ensures var a: u32, b: u32 := 0, size; Cell(a, size) == Cell(b, size) && StampSlot(a) != StampSlot(b)
  {
    assert size / 4096 >= 16;
  }

  /** The RAM proper. */
  class LinearMemory {
    var ram: array<bits8>

    ghost predicate Valid()
      reads this
    {
      RamSize(ram.Length)
    }

    ghost function Contents(): (s: Ram)
      requires Valid()
      reads this, ram
      ensures |s| == ram.Length
    {
      SizeAtLeast(ram.Length);
      ram[..]
    }

    /** Wide accesses may assume alignment; in a memory of at most 4 GiB they need not. */
    predicate Fits(a: u32, n: nat)
      requires n == 2 || n == 4
      reads this
    {
      ram.Length <= 0x1_0000_0000 || (if n == 2 then a % 2 == 0 else a % 4 == 0)
    }

    method Read(a: u32) returns (v: bits8)
      requires Valid()
      ensures v == Read8(Contents(), a)
    {
      SizeAtLeast(ram.Length);
      v := ram[Cell(a, ram.Length)];
    }

    method Write(a: u32, v: bits8)
      requires Valid()
      modifies ram
      ensures Contents() == Write8(old(Contents()), a, v)
    {
      SizeAtLeast(ram.Length);
      ram[Cell(a, ram.Length)] := v;
    }

    /** One slice where the halfword does not straddle the end of the RAM. */
    method ReadHalf(a: u32) returns (v: u16)
      requires Valid() && Fits(a, 2)
      ensures v == Read16(Contents(), a)
    {
      hide RamSize, Cell, Wrap;
      SizeAtLeast(ram.Length);
      var c := Cell(a, ram.Length);
      if c < ram.Length - 1 {
        StepCell(a, ram.Length);
        var b0: int, b1: int := ram[c], ram[c + 1];
        v := b0 + 256 * b1;
      } else {
        var lo: int := Read(a);
        var hi: int := Read(Wrap(a + 1));
        v := lo + 256 * hi;
      }
    }

    method ReadWord(a: u32) returns (v: u32)
      requires Valid() && Fits(a, 4)
      ensures v == Read32(Contents(), a)
    {
      hide RamSize, Cell, Wrap;
      SizeAtLeast(ram.Length);
      var c := Cell(a, ram.Length);
      if a % 4 == 0 {
        WordCells(a, ram.Length);
      }
      if c + 3 <= ram.Length - 1 {
        StepCells(a, ram.Length);
        var b0: int, b1: int, b2: int, b3: int := ram[c], ram[c + 1], ram[c + 2], ram[c + 3];
        v := b0 + 256 * b1 + 0x1_0000 * (b2 + 256 * b3);
      } else {
        var lo: int := ReadHalf(a);
        var hi: int := ReadHalf(Wrap(a + 2));
        v := lo + 0x1_0000 * hi;
      }
    }

    method WriteHalf(a: u32, v: u16)
      requires Valid() && Fits(a, 2)
      modifies ram
      ensures Contents() == Write16(old(Contents()), a, v)
    {
      hide RamSize, Cell, Wrap;
      SizeAtLeast(ram.Length);
      var c := Cell(a, ram.Length);
      if c < ram.Length - 1 {
        StepCell(a, ram.Length);
        ram[c] := v % 256;
        ram[c + 1] := v / 256;
      } else {
        Write(a, v % 256);
        Write(Wrap(a + 1), v / 256);
      }
    }

    method WriteWord(a: u32, v: u32)
      requires Valid() && Fits(a, 4)
      modifies ram
      ensures Contents() == Write32(old(Contents()), a, v)
    {
      hide RamSize, Cell, Wrap;
      SizeAtLeast(ram.Length);
      var c := Cell(a, ram.Length);
      if a % 4 == 0 {
        WordCells(a, ram.Length);
      }
      if c + 3 <= ram.Length - 1 {
        StepCells(a, ram.Length);
        ram[c] := v % 0x1_0000 % 256;
        ram[c + 1] := v % 0x1_0000 / 256;
        ram[c + 2] := v / 0x1_0000 % 256;
        ram[c + 3] := v / 0x1_0000 / 256;
      } else {
        WriteHalf(a, v % 0x1_0000);
        WriteHalf(Wrap(a + 2), v / 0x1_0000);
      }
    }

    /** Host-side load of a program. */
    method Load(a: u32, data: seq<bits8>)
      requires Valid()
      modifies ram
      ensures Contents() == WithData(old(Contents()), a, data)
    {
      hide RamSize;
      SizeAtLeast(ram.Length);
      for i := 0 to |data|
        invariant Contents() == WithData(old(Contents()), a, data[..i])
      {
        ram[Cell(a + i, ram.Length)] := data[i];
        assert data[..i + 1][..i] == data[..i];
      }
      assert data[..|data|] == data;
    }
  }

  /** `data` stored byte by byte from `a`, wrapping at the size. */
  function WithData(ram: Ram, a: nat, data: seq<bits8>): (r: Ram)
    ensures |r| == |ram|
    decreases |data|
  {
    if data == [] then ram
    else WithData(ram, a, data[..|data| - 1])[Cell(a + |data| - 1, |ram|) := data[|data| - 1]]
  }

  /** The cell after `a`, also where `a` is the last address. */
  lemma StepCell(a: u32, size: nat)
    requires RamSize(size) && Cell(a, size) + 1 < size && (size <= 0x1_0000_0000 || a % 2 == 0)
    ensures Cell(Wrap(a + 1), size) == Cell(a, size) + 1
  {
    hide Cell, RamSize;
    NextCell(a, size, 1);
    WrapInside(a, 1, size);
  }

  lemma StepCells(a: u32, size: nat)
    requires RamSize(size) && Cell(a, size) + 3 < size && (size <= 0x1_0000_0000 || a % 4 == 0)
    ensures Cell(Wrap(a + 1), size) == Cell(a, size) + 1
    ensures Cell(Wrap(a + 2), size) == Cell(a, size) + 2
    ensures Cell(Wrap(Wrap(a + 2) + 1), size) == Cell(a, size) + 3
  {
    hide Cell, RamSize;
    NextCell(a, size, 1);
    NextCell(a, size, 2);
    NextCell(a, size, 3);
    WrapInside(a, 1, size);
    WrapInside(a, 2, size);
    WrapInside(a, 3, size);
    assert Wrap(Wrap(a + 2) + 1) == Wrap(a + 3);
  }

  lemma WrapInside(a: u32, k: nat, size: nat)
    requires RamSize(size) && Cell(a, size) + k < size && k < 4
    requires size <= 0x1_0000_0000 || a + k < 0x1_0000_0000
    ensures Cell(Wrap(a + k), size) == Cell(a + k, size)
  {
    hide Cell, RamSize, Pow2;
    if size < 0x1_0000_0000 {
      WrapCell(a + k, size);
    } else if size == 0x1_0000_0000 {
      CellOfSmall(a, size);
    }
  }
}
