/** Laws of the plain machine: exception return undoes exception entry, and each block load undoes the
    complementary block store. The processor of `ArmCpu` inherits them by refinement. */
module ArmLaws {
  import opened ArmAlu
  import opened ArmRegisters
  import opened ArmDecode
  import opened ArmMachine
  import opened ArmMemory

  // --- Exceptions --------------------------------------------------------------------------------

  /** The architected return instruction: MOVS PC, LR or SUBS PC, LR, #4 or #8. */
  function ReturnInsn(e: Exception): Insn {
    match e
    case Undefined => Dp(MOV, true, 15, 0, ByImm(LSL, 14, 0))
    case Software => Dp(MOV, true, 15, 0, ByImm(LSL, 14, 0))
    case DataAbort => Dp(SUB, true, 15, 14, Imm(8, false))
    case _ => Dp(SUB, true, 15, 14, Imm(4, false))
  }

  /** The instruction words that decode to them. */
  lemma ReturnWords(w: u32, e: Exception)
    requires w == match e
                  case Undefined => 0xE1B0_F00E
                  case Software => 0xE1B0_F00E
                  case DataAbort => 0xE25E_F008
                  case _ => 0xE25E_F004
    ensures DecodeArm(w) == Decoded(14, 4, ReturnInsn(e))
  {
    if e == Undefined || e == Software {
      MovsWord(w);
    } else {
      SubsWord(w, if e == DataAbort then 8 else 4);
    }
  }

  lemma MovsWord(w: u32)
    requires w == 0xE1B0_F00E
    ensures DecodeArm(w) == Decoded(14, 4, Dp(MOV, true, 15, 0, ByImm(LSL, 14, 0)))
  {
    hide BitList, Ror32, AluOpOf, ShiftOf, DecodeHalfword, FieldsOf;
    assert w / 0x200_0000 % 8 == 0 && w / 16 % 0x100_0000 == 0x1B_0F00;
    assert w / 0x80_0000 % 32 == 3 && w / 16 % 16 == 0;
    assert AluOpOf(13) == MOV && ShiftOf(0) == LSL by { MoveCodes(); }
  }

  lemma SubsWord(w: u32, k: u32)
    requires (k == 4 || k == 8) && w == 0xE25E_F000 + k
    ensures DecodeArm(w) == Decoded(14, 4, Dp(SUB, true, 15, 14, Imm(k, false)))
  {
    hide BitList, Ror32, AluOpOf, DecodeRegister;
    assert w / 0x200_0000 % 8 == 1 && w / 0x80_0000 % 32 == 4;
    assert AluOpOf(2) == SUB by { MoveCodes(); }
  }

  lemma MoveCodes()
    ensures AluOpOf(13) == MOV && AluOpOf(2) == SUB && ShiftOf(0) == LSL
  {
  }

  /** Where a return resumes: past the instruction for SWI and undefined, at the boundary for
      interrupts, at the instruction itself for aborts. */
  function Resume(v: RegView, start: u32, e: Exception): u32 {
    if e == PrefetchAbort || e == DataAbort then start else v.Get(15)
  }

  /** A handler that kept its mode, its LR and its SPSR returns to the raw CPSR and the PC of the
      interrupted program, leaving every other physical register as the handler left it. */
  lemma ReturnRestores(v: RegView, start: u32, e: Exception, end: RegView, h: Here)
    requires end.cpsr.Mode() == e.Mode() && end.spsr[e.Mode().Bank()] == v.cpsr
    requires end.phys[Phys(e.Mode(), 14)] == ReturnAddress(v, start, e)
    ensures var pc := Resume(v, start, e);
            ExecRegister(end, h, ReturnInsn(e)).0 ==
            RegView(end.phys[15 := if v.cpsr.t then AlignHalf(pc) else pc], v.cpsr, end.spsr)
  {
    hide DpResult, AlignHalf, Mode.Bank, FlagsAfter;
    ReturnValue(v, start, e, end, h);
  }

  /** The return instruction computes the resume address. */
  lemma ReturnValue(v: RegView, start: u32, e: Exception, end: RegView, h: Here)
    requires end.Get(14) == ReturnAddress(v, start, e)
    ensures var n := ReturnInsn(e);
            DpResult(end, h, n.op, n.rn, n.operand).value == Resume(v, start, e)
  {
    hide Logic, AddWithCarry, RegView.Get;
    SubtractBack(Resume(v, start, e), 4);
    SubtractBack(Resume(v, start, e), 8);
  }

  lemma SubtractBack(pc: u32, k: u32)
    ensures SubWithCarry(Wrap(pc + k), k, true).value == pc
  {
  }

  /** Entry followed at once by the return: everything is as before but r14 and SPSR of the exception
      mode, and bit 0 of a Thumb PC. */
  lemma EntryThenReturn(v: RegView, start: u32, e: Exception, h: Here)
    ensures var r := ExecRegister(Raise(v, start, e), h, ReturnInsn(e)).0;
            var pc := Resume(v, start, e);
            && r.cpsr == v.cpsr
            && r.Get(15) == (if v.cpsr.t then AlignHalf(pc) else pc)
            && r.spsr == v.spsr[e.Mode().Bank() := v.cpsr]
            && forall m: Mode, i: reg :: i != 15 && Phys(m, i) != Phys(e.Mode(), 14) ==>
                 r.phys[Phys(m, i)] == v.phys[Phys(m, i)]
  {
    hide AlignHalf, Mode.Bank, ExecRegister;
    EntryState(v, start, e);
    ReturnRestores(v, start, e, Raise(v, start, e), h);
    forall m: Mode, i: reg | i != 15
      ensures Phys(m, i) != 15
    {
      PhysShared(m, i, Usr, 15);
    }
  }

  /** What entry leaves for the handler. */
  lemma EntryState(v: RegView, start: u32, e: Exception)
    ensures var w := Raise(v, start, e);
            && w.cpsr.Mode() == e.Mode() && !w.cpsr.t && w.cpsr.i && (e == FiqLine ==> w.cpsr.f)
            && w.spsr == v.spsr[e.Mode().Bank() := v.cpsr]
            && w.phys == v.phys[Phys(e.Mode(), 14) := ReturnAddress(v, start, e)][15 := e.Vector()]
            && w.phys[Phys(e.Mode(), 14)] == ReturnAddress(v, start, e)
  {
    PhysShared(e.Mode(), 14, e.Mode(), 15);
  }

  // --- Block transfers -------------------------------------------------------------------------------

  /** The cells of the words of a block. */
  ghost predicate InBlock(c: nat, a: u32, n: nat, size: nat)
    requires size > 0
  {
    exists k: nat :: k < n && WordOf(a, k, size) <= c < WordOf(a, k, size) + 4
  }

  /** The first cell of word `k` of a block. */
  function WordOf(a: u32, k: nat, size: nat): nat
    requires size > 0
  {
    Cell(Wrap(a + 4 * k), size)
  }

  /** How many listed registers lie in `[j, i)`. */
  function Before(list: RegList, j: nat, i: nat): (n: nat)
    requires j <= i <= 16
    ensures n <= i - j
    decreases i - j
  {
    if j == i then 0 else (if list[j] then 1 else 0) + Before(list, j + 1, i)
  }

  lemma WrapWrap(a: int, k: int)
    ensures Wrap(Wrap(a) + k) == Wrap(a + k)
  {
    var q := a / 0x1_0000_0000;
    assert a == 0x1_0000_0000 * q + Wrap(a);
    WrapAdd(Wrap(a) + k, q);
  }

  lemma WrapOf(a: u32)
    ensures Wrap(a) == a
  {
  }

  lemma WrapAdd(x: int, q: int)
    ensures Wrap(x + 0x1_0000_0000 * q) == Wrap(x)
  {
  }

  lemma AlignedNext(a: u32, k: nat)
    requires a % 4 == 0
    ensures Wrap(a + 4 * k) % 4 == 0
  {
    var q := (a + 4 * k) / 0x1_0000_0000;
    assert a + 4 * k == 0x1_0000_0000 * q + Wrap(a + 4 * k);
  }

  lemma {:induction false} CountIsBefore(list: RegList, i: nat)
    requires i <= 16
    ensures Before(list, i, 16) == Count(list, i)
    decreases 16 - i
  {
    if i < 16 {
      CountIsBefore(list, i + 1);
    }
  }

  /** What a block store from register `i` on leaves: each listed register in its own word, the rest of
      memory alone. */
  ghost predicate StoredAs(v: RegView, ram: Ram, r: Ram, list: RegList, i: nat, a: u32)
    requires i <= 16
  {
    && |r| == |ram|
    && (forall j :: i <= j < 16 && list[j] ==> Read32(r, Wrap(a + 4 * Before(list, i, j))) == v.Get(j))
    && (forall c :: 0 <= c < |ram| && !InBlock(c, a, Before(list, i, 16), |ram|) ==> r[c] == ram[c])
  }

  lemma {:induction false} StoreListHolds(v: RegView, ram: Ram, h: Here, wb: bool, base: reg, x: u32, list: RegList,
                                          i: nat, a: u32)
    requires RamSize(|ram|) && a % 4 == 0 && i <= 16 && !list[15] && !list[base]
    ensures StoredAs(v, ram, StoreList(v, ram, h, false, wb, base, x, list, i, a), list, i, a)
    decreases 16 - i
  {
    hide Read32, Write32, RamSize, RegView.Get, IsLowest, StoredAs;
    if i == 16 {
      StoredNothing(v, ram, list, a);
    } else if !list[i] {
      StoreListHolds(v, ram, h, wb, base, x, list, i + 1, a);
      StoredSkip(v, ram, StoreList(v, ram, h, false, wb, base, x, list, i + 1, a), list, i, a);
    } else {
      var w := Write32(ram, a, v.Get(i));
      AlignedNext(a, 1);
      StoreListHolds(v, w, h, wb, base, x, list, i + 1, Wrap(a + 4));
      StoredStep(v, ram, w, StoreList(v, w, h, false, wb, base, x, list, i + 1, Wrap(a + 4)), list, i, a);
    }
  }

  lemma StoredNothing(v: RegView, ram: Ram, list: RegList, a: u32)
    ensures StoredAs(v, ram, ram, list, 16, a)
  {
  }

  lemma StoredSkip(v: RegView, ram: Ram, r: Ram, list: RegList, i: nat, a: u32)
    requires i < 16 && !list[i] && StoredAs(v, ram, r, list, i + 1, a)
    ensures StoredAs(v, ram, r, list, i, a)
  {
    hide Read32, RegView.Get, InBlock;
  }

  lemma StoredStep(v: RegView, ram: Ram, w: Ram, r: Ram, list: RegList, i: nat, a: u32)
    requires RamSize(|ram|) && a % 4 == 0 && i < 16 && list[i] && w == Write32(ram, a, v.Get(i))
    requires StoredAs(v, w, r, list, i + 1, Wrap(a + 4))
    ensures StoredAs(v, ram, r, list, i, a)
  {
    hide Read32, Write32, RamSize, RegView.Get, InBlock, Before, Wrap;
    if i < 16 {
      FirstBefore(list, i, 16);
    }
    StoredWord(ram, w, r, a, v.Get(i), Before(list, i + 1, 16));
    forall j | i <= j < 16 && list[j]
      ensures Read32(r, Wrap(a + 4 * Before(list, i, j))) == v.Get(j)
    {
      if j == i {
        NoneBefore(list, i);
        WrapOf(a);
      } else {
        FirstBefore(list, i, j);
        WrapWrap(a + 4, 4 * Before(list, i + 1, j));
      }
    }
  }

  lemma FirstBefore(list: RegList, i: nat, j: nat)
    requires i < j <= 16 && list[i]
    ensures Before(list, i, j) == 1 + Before(list, i + 1, j)
  {
  }

  lemma NoneBefore(list: RegList, i: nat)
    requires i <= 16
    ensures Before(list, i, i) == 0
  {
  }

  /** The first word of a block survives the stores of the rest, and they all stay inside the block. */
  lemma StoredWord(ram: Ram, w: Ram, r: Ram, a: u32, v: u32, n: nat)
    requires RamSize(|ram|) && a % 4 == 0 && n < 16 && w == Write32(ram, a, v) && |r| == |ram|
    requires forall c :: 0 <= c < |ram| && !InBlock(c, Wrap(a + 4), n, |ram|) ==> r[c] == w[c]
    ensures Read32(r, a) == v
    ensures forall c :: 0 <= c < |ram| && !InBlock(c, a, n + 1, |ram|) ==> r[c] == ram[c]
  {
    hide Read32, Write32, RamSize, Cell, WordOf, InBlock;
    Write32Cells(ram, a, v);
    forall c | 0 <= c < |ram|
      ensures Cell(a, |ram|) <= c < Cell(a, |ram|) + 4 ==> r[c] == w[c]
      ensures !InBlock(c, a, n + 1, |ram|) ==> r[c] == ram[c]
    {
      BlockSplits(c, a, n, |ram|);
    }
    SameWord(w, r, a);
  }

  /** A block is its first word and the disjoint block of the rest. */
  lemma BlockSplits(c: nat, a: u32, n: nat, size: nat)
    requires RamSize(size) && a % 4 == 0 && n < 16
    ensures InBlock(c, a, n + 1, size) <==> Cell(a, size) <= c < Cell(a, size) + 4 || InBlock(c, Wrap(a + 4), n, size)
    ensures !(Cell(a, size) <= c < Cell(a, size) + 4 && InBlock(c, Wrap(a + 4), n, size))
  {
    hide RamSize, Cell, WordOf;
    SizeAtLeast(size);
    WordZero(a, size);
    if InBlock(c, a, n + 1, size) {
      var k: nat :| k < n + 1 && WordOf(a, k, size) <= c < WordOf(a, k, size) + 4;
      if k > 0 {
        LaterWord(a, k - 1, size);
        assert WordOf(Wrap(a + 4), k - 1, size) == WordOf(a, k, size);
      }
    }
    if InBlock(c, Wrap(a + 4), n, size) {
      var k: nat :| k < n && WordOf(Wrap(a + 4), k, size) <= c < WordOf(Wrap(a + 4), k, size) + 4;
      LaterWord(a, k, size);
      WordsApart(Cell(a, size), WordOf(a, k + 1, size));
    }
  }

  lemma WordZero(a: u32, size: nat)
    requires size > 0
    ensures WordOf(a, 0, size) == Cell(a, size)
  {
  }

  lemma LaterWord(a: u32, k: nat, size: nat)
    requires RamSize(size) && a % 4 == 0 && k < 15
    ensures WordOf(Wrap(a + 4), k, size) == WordOf(a, k + 1, size) != Cell(a, size)
    ensures Cell(a, size) % 4 == 0 && WordOf(a, k + 1, size) % 4 == 0
  {
    hide Cell, RamSize, Wrap;
    WrapWrap(a + 4, 4 * k);
    BlockCells(a, 0, k + 1, size);
    NoWrap(a, 0);
    WordCells(a, size);
    AlignedNext(a, k + 1);
    WordCells(Wrap(a + 4 * (k + 1)), size);
  }

  lemma SameWord(ram: Ram, other: Ram, a: u32)
    requires RamSize(|ram|) && a % 4 == 0 && |other| == |ram|
    requires forall c :: 0 <= c < |ram| && Cell(a, |ram|) <= c < Cell(a, |ram|) + 4 ==> other[c] == ram[c]
    ensures Read32(other, a) == Read32(ram, a)
  {
    hide Cell, RamSize, Wrap;
    WordCells(a, |ram|);
    Wrap3(a);
  }

  /** What a block load does to each register of the current mode. */
  lemma {:induction false} LoadListGets(v: RegView, ram: Ram, list: RegList, i: nat, a: u32, j: reg)
    requires i <= 16 && !list[15]
    ensures var r := LoadList(v, ram, list, i, a, false);
            && r.cpsr == v.cpsr && r.spsr == v.spsr
            && r.Get(j) == if i <= j && list[j] then Read32(ram, Wrap(a + 4 * Before(list, i, j))) else v.Get(j)
    decreases 16 - i
  {
    hide Read32, Phys;
    if i < 16 {
      if !list[i] {
        LoadListGets(v, ram, list, i + 1, a, j);
      } else {
        var w := v.Put(i, Read32(ram, a));
        LoadListGets(w, ram, list, i + 1, Wrap(a + 4), j);
        PhysShared(v.cpsr.Mode(), i, v.cpsr.Mode(), j);
        if i < j {
          WrapWrap(a + 4, 4 * Before(list, i + 1, j));
        } else if i == j {
          assert Before(list, i, i) == 0;
        }
      }
    }
  }

  /** The complementary load starts where the store did, and steps the base back. */
  lemma PairedAddresses(base: u32, pre: bool, up: bool, list: RegList)
    ensures var (a, x) := BlockAddr(base, pre, up, false, list);
            BlockAddr(x, !pre, !up, false, list) == (a, base)
  {
    hide AlignWord, Count, Wrap;
    var bytes := 4 * Count(list, 0);
    WrapWrap(base + bytes, 0 - bytes);
    WrapWrap(base - bytes, bytes);
    assert base + bytes + (0 - bytes) == base && base - bytes + bytes == base;
    assert Wrap(base + bytes) - bytes == Wrap(base + bytes) + (0 - bytes);
    WrapOf(base);
  }

  /** STMDB/LDMIA, STMIA/LDMDB, STMIB/LDMDA and STMDA/LDMIB with write-back, for any base value and any
      list without the base and r15: after the store, and whatever the program then did to the listed
      registers, the load restores them and the base; memory outside the block never changed. */
  lemma BlockPairsUndo(v: RegView, ram: Ram, h: Here, h2: Here, pre: bool, up: bool, base: reg, list: RegList,
                       between: RegView)
    requires RamSize(|ram|) && base != 15 && !list[15] && !list[base]
    requires var st := ExecStm(v, ram, h, pre, up, false, true, false, base, list);
             between.cpsr.Mode() == v.cpsr.Mode() && between.Get(base) == st.v.Get(base)
    ensures var st := ExecStm(v, ram, h, pre, up, false, true, false, base, list);
            var ld := ExecLdm(between, st.ram, h2, !pre, !up, false, true, false, base, list);
            && ld.ram == st.ram && |st.ram| == |ram|
            && ld.v.Get(base) == v.Get(base)
            && (forall i: reg :: list[i] ==> ld.v.Get(i) == v.Get(i))
            && (forall i: reg :: !list[i] && i != base ==> ld.v.Get(i) == between.Get(i))
            && ld.v.cpsr == between.cpsr && ld.v.spsr == between.spsr
            && var a := BlockAddr(v.Get(base), pre, up, false, list).0;
               forall c :: 0 <= c < |ram| && !InBlock(c, a, Count(list, 0), |ram|) ==> st.ram[c] == ram[c]
  {
    hide Read32, RamSize, Phys, StoreList, LoadList, InBlock, Count, BlockAddr, Cell;
    NoneBefore(list, 0);
    var st := ExecStm(v, ram, h, pre, up, false, true, false, base, list);
    var (a, x) := BlockAddr(v.Get(base), pre, up, false, list);
    BlockStart(v.Get(base), pre, up, list);
    StoreListHolds(v, ram, h, true, base, x, list, 0, a);
    CountIsBefore(list, 0);
    PairedAddresses(v.Get(base), pre, up, list);
    assert between.Get(base) == x;
    var w := LoadList(between, st.ram, list, 0, a, false);
    forall i: reg
      ensures w.Put(base, v.Get(base)).Get(i) ==
              if list[i] then v.Get(i) else if i == base then v.Get(base) else between.Get(i)
      ensures w.cpsr == between.cpsr && w.spsr == between.spsr
    {
      LoadListGets(between, st.ram, list, 0, a, i);
      PhysShared(between.cpsr.Mode(), i, between.cpsr.Mode(), base);
    }
  }

  lemma BlockStart(base: u32, pre: bool, up: bool, list: RegList)
    ensures BlockAddr(base, pre, up, false, list).0 % 4 == 0
  {
  }
}
