/** The ARM processor: banked registers, decoded-instruction cache, stamped stores and the run loop,
    proved to be the plain machine of `ArmMachine` for as long as it does not stray through a mirror of
    a small memory. */
module ArmCpu {
  import opened ArmAlu
  import opened ArmRegisters
  import opened ArmDecode
  import opened ArmMachine
  import opened ArmMemory
  import opened ArmCache
  import opened ArmMirrors

  class Cpu {
    const regs: Registers
    const icache: ICache
    var cycles: nat
    var halted: bool
    /** The event bits: two interrupt lines and the host-trap doorbell. */
    var irq: bool
    var fiq: bool
    var bell: bool
    var startPc: u32
    var thumb: bool
    var trapSwi: bool
    var trapFaults: bool
    var hostTrap: Option<HostTrap>
    /** Whether a fetch or store has used a mirror the write stamps cannot see through. */
    ghost var stray: bool

    ghost predicate Valid(mem: LinearMemory): (b: bool)
      reads this`stray, icache, icache.entries, icache.stamps, mem, mem.ram
      ensures b ==> mem.Valid() && (stray ==> mem.ram.Length % 0x400_0000 != 0)
    {
      && icache.Sized() && icache.Clocked() && mem.Valid()
      && (icache.stamps as object) != mem.ram && (icache.entries as object) != mem.ram
      && (icache.stamps as object) != icache.entries
      && (stray || icache.Coherent(mem.Contents()))
      && (stray ==> mem.ram.Length % 0x400_0000 != 0)
    }

    function Location(): Here
      reads this
    {
      Here(startPc, thumb)
    }

    /** The plain machine this processor stands for. */
    ghost function State(mem: LinearMemory): Machine
      requires mem.Valid()
      reads this, regs, mem, mem.ram
    {
      Machine(regs.View(), mem.Contents(), cycles, halted, irq, fiq, trapSwi, trapFaults, hostTrap, Location())
    }

    /** Power-on, beside any memory. */
    constructor (ghost mem: LinearMemory)
      requires mem.Valid()
      ensures Valid(mem) && State(mem) == Machine(PowerOn(), mem.Contents(), 0, false, false, false, false, false, None,
                                                  Here(0, false))
      ensures !stray && fresh(regs) && fresh(icache) && fresh(icache.entries) && fresh(icache.stamps)
    {
      regs := new Registers();
      icache := new ICache();
      cycles, halted, irq, fiq, bell := 0, false, false, false, false;
      startPc, thumb, trapSwi, trapFaults, hostTrap, stray := 0, false, false, false, None, false;
    }

    // --- Stores: every one is stamped ----------------------------------------------------------

    method Write8(mem: LinearMemory, a: u32, x: bits8)
      requires Valid(mem)
      modifies this`stray, icache`clock, icache.stamps, mem.ram
      ensures Valid(mem) && mem.Contents() == ArmMachine.Write8(old(mem.Contents()), a, x)
      ensures stray == (old(stray) || !Direct(a, mem.ram.Length))
    {
      hide RamSize, Cell, CoherentAt, ClockedAt, StampSlot;
      ghost var ram := mem.Contents();
      ghost var entries, stamps, clock := icache.entries[..], icache.stamps[..], icache.clock;
      icache.StampWrite(a);
      mem.Write(a, x);
      stray := stray || !Direct(a, |ram|);
      if !stray {
        StampKeeps(entries, stamps, clock, icache.inval, ram, mem.Contents(), a, 1);
      }
    }

    method Write16(mem: LinearMemory, a: u32, x: u16)
      requires Valid(mem) && a % 2 == 0
      modifies this`stray, icache`clock, icache.stamps, mem.ram
      ensures Valid(mem) && mem.Contents() == ArmMachine.Write16(old(mem.Contents()), a, x)
      ensures stray == (old(stray) || !Direct(a, mem.ram.Length))
    {
      hide RamSize, Cell, CoherentAt, ClockedAt, StampSlot, ArmMachine.Write16;
      ghost var ram := mem.Contents();
      ghost var entries, stamps, clock := icache.entries[..], icache.stamps[..], icache.clock;
      icache.StampWrite(a);
      mem.WriteHalf(a, x);
      stray := stray || !Direct(a, |ram|);
      HalfCells(ram, a, x);
      if !stray {
        StampKeeps(entries, stamps, clock, icache.inval, ram, mem.Contents(), a, 2);
      }
    }

    method Write32(mem: LinearMemory, a: u32, x: u32)
      requires Valid(mem) && a % 4 == 0
      modifies this`stray, icache`clock, icache.stamps, mem.ram
      ensures Valid(mem) && mem.Contents() == ArmMachine.Write32(old(mem.Contents()), a, x)
      ensures stray == (old(stray) || !Direct(a, mem.ram.Length))
      ensures icache.stamps[..] == old(icache.stamps[..])[StampSlot(a) := icache.clock]
    {
      hide RamSize, Cell, CoherentAt, ClockedAt, StampSlot, ArmMachine.Write32, Outside;
      ghost var ram := mem.Contents();
      ghost var entries, stamps, clock := icache.entries[..], icache.stamps[..], icache.clock;
      icache.StampWrite(a);
      mem.WriteWord(a, x);
      stray := stray || !Direct(a, |ram|);
      Write32Cells(ram, a, x);
      if !stray {
        StampKeeps(entries, stamps, clock, icache.inval, ram, mem.Contents(), a, 4);
      }
    }

    // --- Operands ---------------------------------------------------------------------------------

    function Operand8(i: areg): (x: u32)
      reads this, regs
      ensures x == RegOp(regs.View(), Location(), i)
    {
      if i == 15 then Location().Pc()
      else if i == 16 then AlignWord(Location().Pc())
      else
        regs.Window(i);
        regs.gpr[i]
    }

    function Operand12(i: areg): (x: u32)
      reads this, regs
      ensures x == RegOp12(regs.View(), Location(), i)
    {
      if i >= 15 then Location().Pc12()
      else
        regs.Window(i);
        regs.gpr[i]
    }

    method Branch(target: u32)
      modifies regs
      ensures regs.View() == BranchTo(old(regs.View()), target)
    {
      hide Registers.Flat, AlignHalf;
      regs.Put(15, if regs.cpsr.t then AlignHalf(target) else target);
    }

    method SetRegister(i: reg, x: u32)
      modifies regs
      ensures regs.View() == SetReg(old(regs.View()), i, x)
    {
      hide Registers.Flat, AlignHalf;
      if i == 15 {
        Branch(x);
      } else {
        regs.Put(i, x);
      }
    }

    /** CPSR = SPSR, loading the register window of the mode it selects. */
    method Restore()
      modifies regs
      ensures regs.View() == RestoreCpsr(old(regs.View()))
    {
      hide Registers.Flat, BankMode;
      var m := regs.cpsr.Mode();
      if m.HasSpsr() {
        var next := regs.spsr[m.Bank()];
        regs.MoveCpsr(next);
      }
    }

    /** Write flags: the mode field does not change. */
    method SetFlags(next: Psr)
      requires next.mode == regs.cpsr.mode
      modifies regs
      ensures regs.View() == old(regs.View()).(cpsr := next)
    {
      hide Registers.Flat, BankMode;
      regs.SetCpsr(next);
    }

    // --- Register-only instructions -------------------------------------------------------------------

    /** The second operand and the shifter carry. */
    function Operand2(o: Operand): (sh: Shifted)
      reads this, regs
      ensures sh == OperandOf(regs.View(), Location(), o)
    {
      match o
      case Imm(x, rotated) => Shifted(x, if rotated then Negative(x) else regs.cpsr.c)
      case ByImm(ty, rm, amount) => ShiftImm(ty, amount, Operand8(rm), regs.cpsr.c)
      case ByReg(ty, rm, rs) => ShiftReg(ty, Operand8(rs) % 256, Operand12(rm), regs.cpsr.c)
    }

    method ExecDp(op: AluOp, s: bool, rd: reg, rn: areg, o: Operand) returns (c: nat)
      modifies regs
      ensures (regs.View(), c) == ArmMachine.ExecDp(old(regs.View()), Location(), op, s, rd, rn, o)
    {
      hide Registers.Flat, Alu, RegOp, RegOp12, DpFinish, OperandOf, WritesRd, Operand2, Operand8, Operand12;
      var sh := Operand2(o);
      var a := if o.ByReg? then Operand12(rn) else Operand8(rn);
      FinishDp(op, s, rd, Alu(op, a, sh.value, regs.cpsr.c, sh.carry, regs.cpsr.v));
      c := if o.ByReg? then 2 else 1;
      if WritesRd(op) && rd == 15 {
        c := c + 2;
      }
    }

    method FinishDp(op: AluOp, s: bool, rd: reg, r: Sum)
      modifies regs
      ensures regs.View() == DpFinish(old(regs.View()), op, s, rd, r)
    {
      hide Registers.Flat, RestoreCpsr, SetReg, BankMode, Logical, WritesRd;
      var restores := rd == 15 && s && regs.cpsr.Mode().HasSpsr();
      if s && !(restores && WritesRd(op)) {
        SetFlags(FlagsAfter(regs.cpsr, op, r));
      }
      if restores {
        Restore();
      }
      if WritesRd(op) {
        SetRegister(rd, r.value);
      }
    }

    method ExecMul(acc: bool, s: bool, rd: reg, ra: reg, rs: reg, rm: reg) returns (c: nat)
      modifies regs
      ensures (regs.View(), c) == ArmMachine.ExecMul(old(regs.View()), Location(), acc, s, rd, ra, rs, rm)
    {
      hide Registers.Flat, RegOp12, SetReg, BankMode, MulCycles, Words.Mul;
      var x := Operand12(rs);
      var r := Wrap(Words.Mul(Operand12(rm), x));
      c := CountMulCycles(x, true);
      c := 1 + c;
      if acc {
        r := Wrap(r + Operand12(ra));
        c := c + 1;
      }
      SetRegister(rd, r);
      if s {
        SetFlags(regs.cpsr.SetNz(r));
      }
    }

    method ExecMull(signed: bool, acc: bool, s: bool, hi: reg, lo: reg, rs: reg, rm: reg) returns (c: nat)
      modifies regs
      ensures (regs.View(), c) == ArmMachine.ExecMull(old(regs.View()), Location(), signed, acc, s, hi, lo, rs, rm)
    {
      hide Registers.Flat, RegOp12, SetReg, BankMode, MulCycles, Product;
      var x := Operand12(rs);
      var sum := Product(signed, Operand12(rm), x);
      c := CountMulCycles(x, signed);
      c := 2 + c;
      if acc {
        sum := sum + (0x1_0000_0000 * Operand12(hi) + Operand12(lo));
        c := c + 1;
      }
      var r := sum % 0x1_0000_0000_0000_0000;
      SetRegister(lo, r % 0x1_0000_0000);
      SetRegister(hi, r / 0x1_0000_0000);
      if s {
        SetFlags(regs.cpsr.(n := r >= 0x8000_0000_0000_0000, z := r == 0));
      }
    }

    method ExecMrs(spsr: bool, rd: reg)
      modifies regs
      ensures regs.View() == ArmMachine.ExecMrs(old(regs.View()), spsr, rd)
    {
      hide Registers.Flat, BankMode, Psr.Bits;
      var x := if spsr then regs.SpsrBits() else regs.cpsr.Bits();
      regs.Put(rd, if rd == 15 then Wrap(x - 4) else x);
    }

    method ExecMsr(spsr: bool, fields: Fields, x: u32)
      modifies regs
      ensures regs.View() == ArmMachine.ExecMsr(old(regs.View()), spsr, fields, x)
    {
      hide Registers.Flat, BankMode, MsrCpsr, Psr.Write;
      if spsr {
        regs.SetSpsr(x, fields);
      } else {
        regs.MoveCpsr(MsrCpsr(regs.cpsr, x, fields));
      }
    }

    method ExecBranch(link: bool, offset: u32)
      modifies regs
      ensures regs.View() == ArmMachine.ExecBranch(old(regs.View()), Location(), link, offset)
    {
      hide Registers.Flat, BranchTo;
      var target := Wrap(Location().Pc() + offset);
      if link {
        regs.Put(14, Wrap(startPc + 4));
      }
      Branch(target);
    }

    method ExecBx(rm: reg)
      modifies regs
      ensures regs.View() == ArmMachine.ExecBx(old(regs.View()), Location(), rm)
    {
      hide Registers.Flat, BranchTo, RegOp, BankMode, AlignHalf;
      var x := Operand8(rm);
      SetFlags(regs.cpsr.(t := x % 2 == 1));
      Branch(AlignHalf(x));
    }

    method ExecThumbBl(suffix: bool, off11: nat) returns (c: nat)
      modifies regs
      ensures (regs.View(), c) == ArmMachine.ExecThumbBl(old(regs.View()), Location(), suffix, off11)
    {
      hide Registers.Flat, BranchTo, Wrap;
      if !suffix {
        regs.Put(14, Wrap(Location().Pc() + 4096 * (if off11 >= 1024 then off11 - 2048 else off11)));
        return 1;
      }
      regs.Window(15);
      regs.Window(14);
      var ret := if regs.gpr[15] % 2 == 1 then regs.gpr[15] else Wrap(regs.gpr[15] + 1);
      var target := Wrap(regs.gpr[14] + 2 * off11);
      regs.Put(14, ret);
      Branch(target);
      return 3;
    }

    method ExecRegister(n: Insn) returns (c: nat)
      requires RegisterOnly(n)
      modifies regs
      ensures (regs.View(), c) == ArmMachine.ExecRegister(old(regs.View()), Location(), n)
    {
      hide Registers.Flat, ArmMachine.ExecDp, ArmMachine.ExecMul, ArmMachine.ExecMull, ArmMachine.ExecMrs,
        ArmMachine.ExecMsr, ArmMachine.ExecBranch, ArmMachine.ExecBx, ArmMachine.ExecThumbBl, RegOp;
      c := 1;
      match n {
        case Dp(op, s, rd, rn, o) => c := ExecDp(op, s, rd, rn, o);
        case MulWord(acc, s, rd, ra, rs, rm) => c := ExecMul(acc, s, rd, ra, rs, rm);
        case MulLong(signed, acc, s, hi, lo, rs, rm) => c := ExecMull(signed, acc, s, hi, lo, rs, rm);
        case Mrs(spsr, rd) => ExecMrs(spsr, rd);
        case MsrReg(spsr, fields, rm) => ExecMsr(spsr, fields, Operand8(rm));
        case MsrImm(spsr, fields, x) => ExecMsr(spsr, fields, x);
        case Branch(link, offset) => ExecBranch(link, offset); c := 3;
        case Bx(rm) => ExecBx(rm); c := 3;
        case ThumbBl(suffix, off11) => c := ExecThumbBl(suffix, off11);
      }
    }

    // --- Transfers -------------------------------------------------------------------------------------

    /** Address and write-back value of a single transfer. */
    function Transfer(pre: bool, up: bool, rn: areg, off: Offset): (r: (u32, u32))
      reads this, regs
      ensures r == XferAddr(regs.View(), Location(), pre, up, rn, off)
    {
      var base := Operand8(rn);
      var x := match off
               case OffImm(i) => i
               case OffReg(ty, rm, amount) => ShiftImm(ty, amount, Operand8(rm), regs.cpsr.c).value;
      var indexed := if up then Wrap(base + x) else Wrap(base - x);
      (if pre then indexed else base, indexed)
    }

    method BackUp(wb: bool, rn: areg, x: u32)
      modifies regs
      ensures regs.View() == WriteBack(old(regs.View()), wb, rn, x)
    {
      hide Registers.Flat, Wrap;
      if wb && rn != PCA {
        regs.Put(rn, if rn == 15 then Wrap(x + 4) else x);
      }
    }

    /** Write back first, so that a loaded base wins. */
    method FinishLoad(wb: bool, rn: areg, x: u32, rd: reg, value: u32) returns (c: nat)
      modifies regs
      ensures (regs.View(), c) == ArmMachine.FinishLoad(old(regs.View()), wb, rn, x, rd, value)
    {
      hide Registers.Flat, WriteBack, SetReg;
      BackUp(wb, rn, x);
      SetRegister(rd, value);
      c := if rd == 15 then 5 else 3;
    }

    function StoredValue(rd: reg): (x: u32)
      reads this, regs
      ensures x == StoreValue(regs.View(), Location(), rd)
    {
      regs.Window(rd);
      if rd == 15 then Location().PcStore() else regs.gpr[rd]
    }

    method LoadRotated(mem: LinearMemory, a: u32) returns (x: u32)
      requires mem.Valid()
      ensures x == Read32Rot(mem.Contents(), a)
    {
      hide RamSize, Read32, AlignWord, RotR;
      x := mem.ReadWord(AlignWord(a));
      x := RotR(x, 8 * (a % 4));
    }

    method LoadNarrow(mem: LinearMemory, width: Width, a: u32) returns (x: u32)
      requires mem.Valid()
      ensures x == LoadMisc(mem.Contents(), width, a)
    {
      hide RamSize, Read16, Read8, AlignHalf, RotR;
      if width == H {
        var half := mem.ReadHalf(AlignHalf(a));
        x := RotR(half, 8 * (a % 2));
      } else if width == SB || a % 2 == 1 {
        var b := mem.Read(a);
        x := Sext8(b);
      } else {
        var half := mem.ReadHalf(a);
        x := Sext16(half);
      }
    }

    method ExecLdr(mem: LinearMemory, bytewise: bool, pre: bool, up: bool, wb: bool, rd: reg, rn: areg, off: Offset)
      returns (c: nat)
      requires mem.Valid()
      modifies regs
      ensures Moved(regs.View(), mem.Contents(), c) ==
              ArmMachine.ExecLdr(old(regs.View()), mem.Contents(), Location(), bytewise, pre, up, wb, rd, rn, off)
    {
      hide Registers.Flat, RamSize, XferAddr, ArmMachine.FinishLoad, Read8, Read32Rot, Transfer;
      var r := Transfer(pre, up, rn, off);
      var x: u32;
      if bytewise {
        x := mem.Read(r.0);
      } else {
        x := LoadRotated(mem, r.0);
      }
      c := FinishLoad(wb, rn, r.1, rd, x);
    }

    method ExecLdrMisc(mem: LinearMemory, width: Width, pre: bool, up: bool, wb: bool, rd: reg, rn: areg, off: Offset)
      returns (c: nat)
      requires mem.Valid()
      modifies regs
      ensures Moved(regs.View(), mem.Contents(), c) ==
              ArmMachine.ExecLdrMisc(old(regs.View()), mem.Contents(), Location(), width, pre, up, wb, rd, rn, off)
    {
      hide Registers.Flat, RamSize, XferAddr, ArmMachine.FinishLoad, LoadMisc, Transfer;
      var r := Transfer(pre, up, rn, off);
      var x := LoadNarrow(mem, width, r.0);
      c := FinishLoad(wb, rn, r.1, rd, x);
    }

    method ExecStr(mem: LinearMemory, bytewise: bool, pre: bool, up: bool, wb: bool, rd: reg, rn: areg, off: Offset)
      returns (c: nat)
      requires Valid(mem)
      modifies regs, this`stray, icache`clock, icache.stamps, mem.ram
      ensures Valid(mem)
      ensures stray == (old(stray) || StoreStrays(old(regs.View()), old(Location()),
                                              Str(bytewise, pre, up, wb, rd, rn, off), mem.ram.Length))
      ensures Moved(regs.View(), mem.Contents(), c) ==
              ArmMachine.ExecStr(old(regs.View()), old(mem.Contents()), old(Location()), bytewise, pre, up, wb, rd,
                                 rn, off)
      ensures StoresElsewhere(old(regs.View()), old(Location()), Str(bytewise, pre, up, wb, rd, rn, off)) ==>
                icache.stamps[StampSlot(startPc)] == old(icache.stamps[StampSlot(startPc)])
    {
      hide Registers.Flat, RamSize, XferAddr, Transfer, StoreValue, StoredValue, WriteBack, ArmMachine.Write8,
        ArmMachine.Write32, AlignWord, CoherentAt, ClockedAt;
      var r := Transfer(pre, up, rn, off);
      var x := StoredValue(rd);
      if bytewise {
        Write8(mem, r.0, x % 256);
      } else {
        Write32(mem, AlignWord(r.0), x);
      }
      BackUp(wb, rn, r.1);
      c := 2;
    }

    method ExecStrMisc(mem: LinearMemory, pre: bool, up: bool, wb: bool, rd: reg, rn: areg, off: Offset)
      returns (c: nat)
      requires Valid(mem)
      modifies regs, this`stray, icache`clock, icache.stamps, mem.ram
      ensures Valid(mem)
      ensures stray == (old(stray) || StoreStrays(old(regs.View()), old(Location()),
                                              StrMisc(pre, up, wb, rd, rn, off), mem.ram.Length))
      ensures Moved(regs.View(), mem.Contents(), c) ==
              ArmMachine.ExecStrMisc(old(regs.View()), old(mem.Contents()), old(Location()), pre, up, wb, rd, rn, off)
    {
      hide Registers.Flat, RamSize, XferAddr, Transfer, StoreValue, StoredValue, WriteBack, ArmMachine.Write16,
        AlignHalf, CoherentAt, ClockedAt;
      var r := Transfer(pre, up, rn, off);
      Write16(mem, AlignHalf(r.0), StoredValue(rd) % 0x1_0000);
      BackUp(wb, rn, r.1);
      c := 2;
    }

    method ExecSwp(mem: LinearMemory, bytewise: bool, rd: reg, base: reg, rm: reg) returns (c: nat)
      requires Valid(mem)
      modifies regs, this`stray, icache`clock, icache.stamps, mem.ram
      ensures Valid(mem)
      ensures stray == (old(stray) || StoreStrays(old(regs.View()), old(Location()),
                                              Swp(bytewise, rd, base, rm), mem.ram.Length))
      ensures Moved(regs.View(), mem.Contents(), c) ==
              ArmMachine.ExecSwp(old(regs.View()), old(mem.Contents()), old(Location()), bytewise, rd, base, rm)
    {
      hide Registers.Flat, RamSize, RegOp12, Operand12, SetReg, Read8, Read32Rot, ArmMachine.Write8,
        ArmMachine.Write32, AlignWord, CoherentAt, ClockedAt;
      var a, src := Operand12(base), Operand12(rm);
      var was: u32;
      if bytewise {
        was := mem.Read(a);
        Write8(mem, a, src % 256);
      } else {
        was := LoadRotated(mem, a);
        Write32(mem, AlignWord(a), src);
      }
      SetRegister(rd, was);
      c := 4;
    }

    // --- Block transfers -------------------------------------------------------------------------------

    method BlockBackUp(wb: bool, user: bool, base: reg, x: u32)
      modifies regs
      ensures regs.View() == BlockBack(old(regs.View()), wb, user, base, x)
    {
      hide Registers.Flat, Phys;
      if wb {
        if user {
          regs.SetUserReg(base, x);
        } else {
          regs.Put(base, x);
        }
      }
    }

    /** The load loop: registers in ascending order from ascending words; R15 comes back aside. */
    method LoadLoop(mem: LinearMemory, list: RegList, start: u32, user: bool) returns (pc: Option<u32>)
      requires mem.Valid() && start % 4 == 0
      modifies regs
      ensures regs.View() == LoadList(old(regs.View()), mem.Contents(), list, 0, start, user)
      ensures pc == if list[15] then Some(Read32(mem.Contents(), SlotAddr(list, 0, start, 15))) else None
    {
      hide Registers.Flat, RamSize, Read32, Wrap, RegView.Put, RegView.PutUser, RegView.Get;
      var a: u32 := start;
      pc := None;
      ghost var v0, ram := regs.View(), mem.Contents();
      for i := 0 to 16
        invariant a % 4 == 0 && mem.Contents() == ram
        invariant LoadList(v0, ram, list, 0, start, user) == LoadList(regs.View(), ram, list, i, a, user)
        invariant i <= 15 ==> SlotAddr(list, 0, start, 15) == SlotAddr(list, i, a, 15) && pc == None
        invariant i == 16 ==> pc == if list[15] then Some(Read32(ram, SlotAddr(list, 0, start, 15))) else None
      {
        if list[i] {
          var x := mem.ReadWord(a);
          NextWord(a);
          a := Wrap(a + 4);
          if i == 15 {
            pc := Some(x);
          } else if user {
            regs.SetUserReg(i, x);
          } else {
            regs.Put(i, x);
          }
        }
      }
    }

    method ExecLdm(mem: LinearMemory, pre: bool, up: bool, s: bool, wb: bool, hollow: bool, base: reg, list: RegList)
      returns (c: nat)
      requires mem.Valid()
      modifies regs
      ensures Moved(regs.View(), mem.Contents(), c) ==
              ArmMachine.ExecLdm(old(regs.View()), mem.Contents(), Location(), pre, up, s, wb, hollow, base, list)
    {
      hide Registers.Flat, RamSize, Read32, LoadList, SlotAddr, BlockBack, RestoreCpsr, BranchTo, Count, RegOp,
        Operand8, BlockAddr;
      var r := BlockAddr(Operand8(base), pre, up, hollow, list);
      BlockAligned(Operand8(base), pre, up, hollow, list);
      var user := s && !list[15];
      var pc := LoadLoop(mem, list, r.0, user);
      BlockBackUp(wb && !list[base], user, base, r.1);
      c := Count(list, 0) + 2;
      if pc.Some? {
        if s {
          Restore();
        }
        if hollow {
          regs.Put(15, pc.value);
        } else {
          Branch(pc.value);
        }
        c := c + 2;
      }
    }

    /** The store loop, each word stamped. */
    method StoreLoop(mem: LinearMemory, list: RegList, start: u32, user: bool, wb: bool, base: reg, x: u32)
      requires Valid(mem) && start % 4 == 0
      modifies this`stray, icache`clock, icache.stamps, mem.ram
      ensures Valid(mem) && stray == (old(stray) || ListStrays(list, 0, start, mem.ram.Length))
      ensures mem.Contents() ==
              StoreList(regs.View(), old(mem.Contents()), old(Location()), user, wb, base, x, list, 0, start)
    {
      hide Registers.Flat, RamSize, ArmMachine.Write32, Wrap, RegView.Get, StmValue, IsLowest, CoherentAt, ClockedAt;
      var a: u32 := start;
      ghost var ram, h := mem.Contents(), Location();
      for i := 0 to 16
        invariant a % 4 == 0 && Valid(mem)
        invariant (stray || ListStrays(list, i, a, mem.ram.Length)) ==
                  (old(stray) || ListStrays(list, 0, start, mem.ram.Length))
        invariant Location() == h
        invariant StoreList(regs.View(), ram, h, user, wb, base, x, list, 0, start) ==
                  StoreList(regs.View(), mem.Contents(), h, user, wb, base, x, list, i, a)
      {
        if list[i] {
          Write32(mem, a, SlotValue(user, wb, base, IsLowest(list, i), x, i));
          NextWord(a);
          a := Wrap(a + 4);
        }
      }
    }

    function SlotValue(user: bool, wb: bool, base: reg, first: bool, x: u32, i: reg): (r: u32)
      reads this, regs
      ensures r == StmValue(regs.View(), Location(), user, wb, base, first, x, i)
    {
      regs.Window(i);
      if i == base && wb && !first then x
      else if i == 15 then Location().PcStore()
      else if user then regs.UserReg(i)
      else regs.gpr[i]
    }

    method ExecStm(mem: LinearMemory, pre: bool, up: bool, s: bool, wb: bool, hollow: bool, base: reg, list: RegList)
      returns (c: nat)
      requires Valid(mem)
      modifies regs, this`stray, icache`clock, icache.stamps, mem.ram
      ensures Valid(mem)
      ensures stray == (old(stray) || StoreStrays(old(regs.View()), old(Location()),
                                              Stm(pre, up, s, wb, hollow, base, list), mem.ram.Length))
      ensures Moved(regs.View(), mem.Contents(), c) ==
              ArmMachine.ExecStm(old(regs.View()), old(mem.Contents()), old(Location()), pre, up, s, wb, hollow, base,
                                 list)
    {
      hide Registers.Flat, RamSize, StoreList, BlockBack, Count, RegOp, Operand8, BlockAddr, CoherentAt, ClockedAt;
      var r := BlockAddr(Operand8(base), pre, up, hollow, list);
      BlockAligned(Operand8(base), pre, up, hollow, list);
      StoreLoop(mem, list, r.0, s, wb, base, r.1);
      BlockBackUp(wb, s, base, r.1);
      c := Count(list, 0) + 1;
    }

    method ExecMemory(mem: LinearMemory, n: Insn) returns (c: nat)
      requires Valid(mem) && MovesMemory(n)
      modifies regs, this`stray, icache`clock, icache.stamps, mem.ram
      ensures Valid(mem)
      ensures stray == (old(stray) || StoreStrays(old(regs.View()), old(Location()),
                                              n, mem.ram.Length))
      ensures Moved(regs.View(), mem.Contents(), c) ==
              ArmMachine.ExecMemory(old(regs.View()), old(mem.Contents()), old(Location()), n)
      ensures StoresElsewhere(old(regs.View()), old(Location()), n) ==>
                icache.stamps[StampSlot(startPc)] == old(icache.stamps[StampSlot(startPc)])
    {
      hide Registers.Flat, RamSize, ArmMachine.ExecLdr, ArmMachine.ExecStr, ArmMachine.ExecLdrMisc,
        ArmMachine.ExecStrMisc, ArmMachine.ExecLdm, ArmMachine.ExecStm, ArmMachine.ExecSwp, CoherentAt, ClockedAt;
      match n {
        case Ldr(bytewise, pre, up, wb, rd, rn, off) => c := ExecLdr(mem, bytewise, pre, up, wb, rd, rn, off);
        case Str(bytewise, pre, up, wb, rd, rn, off) => c := ExecStr(mem, bytewise, pre, up, wb, rd, rn, off);
        case LdrMisc(width, pre, up, wb, rd, rn, off) => c := ExecLdrMisc(mem, width, pre, up, wb, rd, rn, off);
        case StrMisc(pre, up, wb, rd, rn, off) => c := ExecStrMisc(mem, pre, up, wb, rd, rn, off);
        case Ldm(pre, up, s, wb, hollow, base, list) => c := ExecLdm(mem, pre, up, s, wb, hollow, base, list);
        case Stm(pre, up, s, wb, hollow, base, list) => c := ExecStm(mem, pre, up, s, wb, hollow, base, list);
        case Swp(bytewise, rd, base, rm) => c := ExecSwp(mem, bytewise, rd, base, rm);
      }
    }

    // --- Exceptions and events ----------------------------------------------------------------------------

    /** Record a host trap and ring the doorbell of the run loop. */
    method SetHostTrap(t: HostTrap)
      modifies this`hostTrap, this`bell
      ensures hostTrap == Some(t) && bell
    {
      hostTrap, bell := Some(t), true;
    }

    /** Exception entry: bank into the mode, save the CPSR, link, mask and vector. */
    method Raise(e: Exception)
      modifies regs
      ensures regs.View() == ArmMachine.Raise(old(regs.View()), startPc, e)
    {
      hide Registers.Flat, BankMode, Wrap;
      regs.Window(15);
      var pc: int := regs.gpr[15];
      var ret: u32 := match e
                      case Undefined => pc
                      case Software => pc
                      case PrefetchAbort => Wrap(startPc + 4)
                      case DataAbort => Wrap(startPc + 8)
                      case IrqLine => Wrap(pc + 4)
                      case FiqLine => Wrap(pc + 4);
      var was := regs.cpsr;
      regs.SetMode(e.Mode());
      regs.SpsrStore(was);
      regs.Put(14, ret);
      SetFlags(regs.cpsr.(t := false, i := true, f := regs.cpsr.f || e == FiqLine));
      regs.Put(15, e.Vector());
    }

    method Epilogue(e: Exception)
      modifies regs, this`hostTrap, this`bell
      ensures regs.View() == (if trapFaults then old(regs.View()).Put(15, startPc)
                              else ArmMachine.Raise(old(regs.View()), startPc, e))
      ensures hostTrap == (if trapFaults then Some(Trapped(e)) else old(hostTrap)) && bell == (trapFaults || old(bell))
    {
      hide Registers.Flat, ArmMachine.Raise;
      if trapFaults {
        regs.Put(15, startPc);
        SetHostTrap(Trapped(e));
      } else {
        Raise(e);
      }
    }

    /** A recorded trap has rung the doorbell. */
    predicate Rung()
      reads this
    {
      hostTrap.Some? ==> bell
    }

    method ExecInsn(mem: LinearMemory, n: Insn) returns (c: nat)
      requires Valid(mem)
      modifies regs, this`stray, this`hostTrap, this`bell, icache`clock, icache.stamps, mem.ram
      ensures Valid(mem) && (old(Rung()) ==> Rung())
      ensures stray == (old(stray) || StoreStrays(old(regs.View()), old(Location()), n, mem.ram.Length))
      ensures (State(mem), c) == ArmMachine.ExecInsn(old(State(mem)), n)
      ensures StoresElsewhere(old(regs.View()), old(Location()), n) ==>
                icache.stamps[StampSlot(startPc)] == old(icache.stamps[StampSlot(startPc)])
    {
      hide Valid, Registers.Flat, RamSize, ArmMachine.ExecRegister, ArmMachine.ExecMemory, ArmMachine.Raise, CoherentAt,
        ClockedAt, RegView.Put;
      if RegisterOnly(n) {
        c := ExecRegister(n);
      } else if MovesMemory(n) {
        c := ExecMemory(mem, n);
      } else if n.Swi? {
        if trapSwi {
          SetHostTrap(Syscall);
        } else {
          Raise(Software);
        }
        c := 3;
      } else {
        Epilogue(Undefined);
        c := EXCEPTION_CYCLES;
      }
    }

    // --- Fetch, step and run -----------------------------------------------------------------------------------

    /** The decode the processor works with: a live entry, or the bytes. */
    ghost function Seen(mem: LinearMemory, h: Here): Decoded
      requires icache.Sized() && mem.Valid()
      reads icache, icache.entries, icache.stamps, mem, mem.ram
    {
      if icache.Hits(h) then icache.entries[SlotOf(h.start)].insn else Fetch(mem.Contents(), h)
    }

    /** The decode of the instruction at the current location, from the cache where the stamps allow. */
    method FetchDecoded(mem: LinearMemory) returns (d: Decoded)
      requires Valid(mem) && Aligned(Location())
      modifies this`stray, icache.entries
      ensures Valid(mem) && stray == (old(stray) || !Direct(startPc, mem.ram.Length))
      ensures !stray ==> d == Fetch(mem.Contents(), Location())
      ensures d == old(Seen(mem, Location())) && icache.Hits(Location()) && d == Seen(mem, Location())
    {
      hide RamSize, CoherentAt, ClockedAt, StampSlot, SlotOf, KeyOf, DecodeArm, DecodeThumb, Read16, Read32;
      var h := Location();
      ghost var ram := mem.Contents();
      stray := stray || !Direct(startPc, |ram|);
      if icache.Hits(h) {
        d := icache.entries[SlotOf(startPc)].insn;
        if !stray {
          LiveHit(icache.entries[..], icache.stamps[..], icache.clock, icache.inval, ram, h);
        }
      } else {
        if thumb {
          var half := mem.ReadHalf(startPc);
          d := DecodeThumb(half);
        } else {
          var word := mem.ReadWord(startPc);
          d := DecodeArm(word);
        }
        if !stray {
          FillKeeps(icache.entries[..], icache.stamps[..], icache.clock, icache.inval, ram, h);
        }
        icache.Fill(h, d);
      }
    }

    /** Advance over the current instruction and execute it as `d`, if its condition holds. */
    method ExecAs(mem: LinearMemory, d: Decoded) returns (c: nat)
      requires Valid(mem)
      modifies regs, this`stray, this`hostTrap, this`bell, icache`clock, icache.stamps, mem.ram
      ensures Valid(mem) && (old(Rung()) ==> Rung())
      ensures var v := old(regs.View()).Put(15, Wrap(startPc + d.len));
              && stray == (old(stray) || (CondPass(old(regs.cpsr), d.cond) &&
                                            StoreStrays(v, old(Location()), d.insn, mem.ram.Length)))
              && (State(mem), c) == ArmMachine.ExecDecoded(old(State(mem)).(v := v), d)
              && (StoresElsewhere(v, old(Location()), d.insn) && old(icache.Hits(Location())) ==>
                    icache.Hits(Location()) && Seen(mem, Location()) == old(Seen(mem, Location())))
    {
      hide Valid, Registers.Flat, RamSize, ArmMachine.ExecInsn, CoherentAt, ClockedAt, RegView.Put, StoreStrays,
        StoresElsewhere, StampSlot, Wrap;
      regs.Put(15, Wrap(startPc + d.len));
      if CondPass(regs.cpsr, d.cond) {
        c := ExecInsn(mem, d.insn);
      } else {
        c := 1;
      }
    }

    /** The instruction at the PC becomes the current one. */
    method Locate()
      modifies this`startPc, this`thumb
      ensures Location() == Next(regs.View())
    {
      hide Registers.Flat, AlignHalf, AlignWord;
      regs.Window(15);
      var t := regs.cpsr.t;
      var pc := regs.gpr[15];
      startPc, thumb := if t then AlignHalf(pc) else AlignWord(pc), t;
    }

    /** Until something has strayed, what the cache answers is what memory holds. */
    lemma SeenIsFetch(mem: LinearMemory, h: Here)
      requires Valid(mem) && !stray && Aligned(h) && Direct(h.start, mem.ram.Length)
      ensures Seen(mem, h) == Fetch(mem.Contents(), h)
    {
      hide StampSlot, SlotOf, KeyOf, Fetch, ClockedAt;
      if icache.Hits(h) {
        LiveHit(icache.entries[..], icache.stamps[..], icache.clock, icache.inval, mem.Contents(), h);
      }
    }

    method ExecOne(mem: LinearMemory) returns (c: nat)
      requires Valid(mem)
      modifies this, regs, icache`clock, icache.entries, icache.stamps, mem.ram
      ensures Valid(mem) && stray == (old(stray) || OneStrays(old(State(mem)))) && (old(Rung()) ==> Rung())
      ensures !stray ==> (State(mem), c) == ArmMachine.ExecOne(old(State(mem)))
      ensures unchanged(this`cycles, this`halted, this`irq, this`fiq, this`trapSwi, this`trapFaults)
      ensures var h := Next(old(regs.View()));
              var d := old(Seen(mem, Next(regs.View())));
              && (State(mem), c) == ArmMachine.ExecAs(old(State(mem)), d)
              && (StoresElsewhere(old(regs.View()).Put(15, Wrap(h.start + d.len)), h, d.insn) ==>
                    icache.Hits(h) && Seen(mem, h) == d)
    {
      hide Valid, Registers.Flat, RamSize, ArmMachine.ExecDecoded, CoherentAt, ClockedAt, RegView.Put, RegView.Get,
        Fetch, AlignHalf, AlignWord, Wrap, StoreStrays, StoresElsewhere, Direct, StampSlot, Seen, ICache.Hits, Next;
      Locate();
      AlignedNow(regs.View());
      var d := FetchDecoded(mem);
      c := ExecAs(mem, d);
    }

    predicate InterruptPending()
      reads this, regs
    {
      (fiq && !regs.cpsr.f) || (irq && !regs.cpsr.i)
    }

    /** A latched event or the halted state sends the step down the slow path. */
    predicate BoundaryPending()
      reads this
    {
      irq || fiq || bell || halted
    }

    method StepFast(mem: LinearMemory) returns (c: nat)
      requires Valid(mem) && !halted && !InterruptPending()
      modifies this, regs, icache`clock, icache.entries, icache.stamps, mem.ram
      ensures Valid(mem) && stray == (old(stray) || StepStrays(old(State(mem)))) && (old(Rung()) ==> Rung())
      ensures !stray ==> (State(mem), c) == ArmMachine.Step(old(State(mem)))
      ensures var v, h := old(regs.View()), Next(old(regs.View()));
              var d := old(Seen(mem, Next(regs.View())));
              && (State(mem), c) == Timed(ArmMachine.ExecAs(old(State(mem)), d))
              && (StoresElsewhere(v.Put(15, Wrap(h.start + d.len)), h, d.insn) ==> icache.Hits(h) && Seen(mem, h) == d)
    {
      hide Valid, Registers.Flat, RamSize, ArmMachine.ExecOne, CoherentAt, ClockedAt, ArmMachine.ExecAs, Seen,
        StoresElsewhere, RegView.Put, OneStrays, ICache.Hits, Next, Wrap, ArmMachine.Raise;
      c := ExecOne(mem);
      cycles := cycles + c;
    }

    method Deliver(e: Exception) returns (c: nat)
      modifies regs, this`halted, this`cycles
      ensures regs.View() == ArmMachine.Raise(old(regs.View()), startPc, e)
      ensures !halted && cycles == old(cycles) + EXCEPTION_CYCLES && c == EXCEPTION_CYCLES
    {
      halted := false;
      Raise(e);
      cycles := cycles + EXCEPTION_CYCLES;
      return EXCEPTION_CYCLES;
    }

    method StepSlow(mem: LinearMemory) returns (c: nat)
      requires Valid(mem)
      modifies this, regs, icache`clock, icache.entries, icache.stamps, mem.ram
      ensures Valid(mem) && stray == (old(stray) || StepStrays(old(State(mem)))) && (old(hostTrap) == None ==> Rung())
      ensures !stray ==> (State(mem), c) == ArmMachine.Step(old(State(mem)))
      ensures !old(halted || InterruptPending()) ==>
              var v, h := old(regs.View()), Next(old(regs.View()));
              var d := old(Seen(mem, Next(regs.View())));
              && (State(mem), c) == Timed(ArmMachine.ExecAs(old(State(mem)), d))
              && (StoresElsewhere(v.Put(15, Wrap(h.start + d.len)), h, d.insn) ==> icache.Hits(h) && Seen(mem, h) == d)
    {
      hide Valid, Registers.Flat, RamSize, ArmMachine.ExecOne, CoherentAt, ClockedAt, ArmMachine.Raise, OneStrays,
        Next, Fetch, StoreStrays, Direct, ArmMachine.ExecAs, Seen, StoresElsewhere, RegView.Put;
      bell := false;
      if fiq && !regs.cpsr.f {
        c := Deliver(FiqLine);
      } else if irq && !regs.cpsr.i {
        c := Deliver(IrqLine);
      } else if halted {
        cycles := cycles + 1;
        c := 1;
      } else {
        c := ExecOne(mem);
        cycles := cycles + c;
      }
    }

    /** Execute one instruction or service a pending interrupt. */
    method Step(mem: LinearMemory) returns (c: nat)
      requires Valid(mem)
      modifies this, regs, icache`clock, icache.entries, icache.stamps, mem.ram
      ensures Valid(mem) && stray == (old(stray) || StepStrays(old(State(mem))))
      ensures !stray ==> (State(mem), c) == ArmMachine.Step(old(State(mem)))
      ensures !old(halted || InterruptPending()) ==>
              var v, h := old(regs.View()), Next(old(regs.View()));
              var d := old(Seen(mem, Next(regs.View())));
              && (State(mem), c) == Timed(ArmMachine.ExecAs(old(State(mem)), d))
              && (StoresElsewhere(v.Put(15, Wrap(h.start + d.len)), h, d.insn) ==> icache.Hits(h) && Seen(mem, h) == d)
    {
      hide Valid, Registers.Flat, RamSize, ArmMachine.Step, CoherentAt, ClockedAt, ArmMachine.ExecAs, Seen,
        StoresElsewhere, ICache.Hits, Next, RegView.Put;
      if BoundaryPending() {
        c := StepSlow(mem);
      } else {
        c := StepFast(mem);
      }
    }

    /** The boundary of a batch: an exit reason, or one slow step. */
    method RunBoundary(mem: LinearMemory) returns (exit: Option<RunExit>)
      requires Valid(mem) && Rung()
      modifies this, regs, icache`clock, icache.entries, icache.stamps, mem.ram
      ensures Valid(mem) && stray == (old(stray) || (exit == None && StepStrays(old(State(mem)))))
      ensures exit == Some(HostTrapped) ==> old(hostTrap).Some? && State(mem) == old(State(mem))
      ensures exit == Some(Idle) ==>
                old(hostTrap) == None && old(halted && !InterruptPending()) && State(mem) == old(State(mem))
      ensures exit != Some(Completed)
      ensures exit == None ==> old(hostTrap) == None && !old(halted && !InterruptPending()) && Rung()
      ensures exit == None && !stray ==> State(mem) == ArmMachine.Step(old(State(mem))).0
    {
      hide Valid, Registers.Flat, RamSize, ArmMachine.Step, CoherentAt, ClockedAt;
      if hostTrap.Some? {
        bell := false;
        return Some(HostTrapped);
      }
      if halted && !InterruptPending() {
        return Some(Idle);
      }
      var _ := StepSlow(mem);
      return None;
    }

    /** Execute up to `n` steps as one batch. */
    method Run(mem: LinearMemory, n: nat) returns (executed: nat, exit: RunExit)
      requires Valid(mem)
      modifies this, regs, icache`clock, icache.entries, icache.stamps, mem.ram
      ensures Valid(mem) && stray == (old(stray) || BatchStrays(old(State(mem)), n))
      ensures !stray ==> RunResult(State(mem), executed, exit) == RunOf(old(State(mem)), n)
    {
      hide Valid, Registers.Flat, RamSize, ArmMachine.Step, CoherentAt, ClockedAt, StepStrays, ArmMachine.ExecAs, Seen,
        StoresElsewhere, ICache.Hits, Next, RegView.Put, Timed;
      ghost var m := State(mem);
      if hostTrap.Some? {
        return 0, HostTrapped;
      }
      executed := 0;
      while executed < n
        invariant executed <= n && Valid(mem) && Rung()
        invariant (stray || BatchStrays(State(mem), n - executed)) == (old(stray) || BatchStrays(m, n))
        invariant !stray ==> RunFrom(m, n) == Later(RunFrom(State(mem), n - executed), executed)
      {
        if BoundaryPending() {
          ghost var before := State(mem);
          var e := RunBoundary(mem);
          if e.Some? {
            assert e.value == HostTrapped ==> before.hostTrap.Some?;
            assert e.value == Idle ==> before.hostTrap == None && before.halted && !ArmMachine.InterruptPending(before);
            return executed, e.value;
          }
        } else {
          var _ := StepFast(mem);
        }
        executed := executed + 1;
      }
      return executed, Completed;
    }

    // --- The host ----------------------------------------------------------------------------------------------

    /** Drive the interrupt lines. */
    method SetLines(ghost mem: LinearMemory, irqLevel: bool, fiqLevel: bool)
      requires Valid(mem)
      modifies this`irq, this`fiq
      ensures Valid(mem) && State(mem) == old(State(mem)).(irq := irqLevel, fiq := fiqLevel)
    {
      hide Registers.Flat, RamSize, Valid;
      irq, fiq := irqLevel, fiqLevel;
    }

    /** What an embedder sets directly: the idle state, the trap options, and a trap taken. */
    method Configure(ghost mem: LinearMemory, idle: bool, swi: bool, faults: bool, trap: Option<HostTrap>)
      requires Valid(mem)
      modifies this`halted, this`trapSwi, this`trapFaults, this`hostTrap
      ensures Valid(mem)
      ensures State(mem) == old(State(mem)).(halted := idle, trapSwi := swi, trapFaults := faults, hostTrap := trap)
    {
      hide Registers.Flat, RamSize, Valid;
      halted, trapSwi, trapFaults, hostTrap := idle, swi, faults, trap;
    }

    /** A host-side write followed by the required invalidation. */
    method HostWrite(mem: LinearMemory, a: u32, data: seq<bits8>)
      requires Valid(mem)
      modifies icache`clock, icache`inval, mem.ram
      ensures Valid(mem) && State(mem) == old(State(mem)).(ram := WithData(old(mem.Contents()), a, data))
    {
      hide Registers.Flat, RamSize, CoherentAt, ClockedAt, WithData;
      mem.Load(a, data);
      icache.InvalidateAll();
    }

    /** The host injects an exception, or sets a register, the mode or the status. */
    method Arrange(ghost mem: LinearMemory, e: Event)
      requires Valid(mem)
      modifies regs
      ensures Valid(mem) && State(mem) == old(State(mem)).(v := ViewAfter(old(regs.View()), startPc, e))
    {
      hide Valid, Registers.Flat, RamSize, Phys, ArmMachine.Raise, BankMode, Psr.Mode, Mode.Bits;
      match e {
        case Inject(x) => Raise(x);
        case Poke(mode, i, x) => regs.SetRegOf(mode, i, x);
        case Switch(to) => regs.SetMode(to);
        case Status(p) => regs.MoveCpsr(p);
        case _ =>
      }
    }

    method Reset(mem: LinearMemory)
      requires Valid(mem)
      modifies this`halted, this`bell, this`hostTrap, regs, icache`clock, icache`inval
      ensures Valid(mem) && stray == old(stray)
      ensures State(mem) == old(State(mem)).(v := PowerOn(), halted := false, hostTrap := None)
    {
      hide Registers.Flat, RamSize, CoherentAt, ClockedAt, PowerOn;
      regs.Reset();
      halted, bell := false, false;
      icache.InvalidateAll();
      hostTrap := None;
    }
  }

  /** A step's outcome, its cycles added to the counter. */
  function Timed(r: (Machine, nat)): (Machine, nat) {
    (r.0.(cycles := r.0.cycles + r.1), r.1)
  }

  // --- Runs ------------------------------------------------------------------------------------------------------

  datatype RunExit = Completed | HostTrapped | Idle

  datatype RunResult = RunResult(m: Machine, executed: nat, exit: RunExit)

  /** A batch of the plain machine: steps until a trap is pending, nothing can wake it, or `n` are done. */
  function RunFrom(m: Machine, n: nat): RunResult
    decreases n
  {
    if n == 0 then RunResult(m, 0, Completed)
    else if m.hostTrap.Some? then RunResult(m, 0, HostTrapped)
    else if m.halted && !ArmMachine.InterruptPending(m) then RunResult(m, 0, Idle)
    else Later(RunFrom(ArmMachine.Step(m).0, n - 1), 1)
  }

  function Later(r: RunResult, k: nat): RunResult {
    r.(executed := r.executed + k)
  }

  function RunOf(m: Machine, n: nat): RunResult {
    if m.hostTrap.Some? then RunResult(m, 0, HostTrapped) else RunFrom(m, n)
  }

  /** A machine a batch may step: no trap waits for the host, and something can happen. */
  predicate Runnable(m: Machine) {
    m.hostTrap == None && (m.halted ==> ArmMachine.InterruptPending(m))
  }

  /** A step of the batch strays. */
  predicate BatchStrays(m: Machine, n: nat)
    decreases n
  {
    n > 0 && Runnable(m) && (StepStrays(m) || BatchStrays(ArmMachine.Step(m).0, n - 1))
  }

  /** A batch is exactly `executed` single steps, none of them past a trap or an idle halt, and each exit
      means what it says. */
  lemma BatchIsSteps(m: Machine, n: nat)
    ensures var r := RunOf(m, n);
            && r.m == Steps(m, r.executed) && r.executed <= n
            && (forall k: nat :: k < r.executed ==> Runnable(Steps(m, k)))
            && (r.exit == Completed ==> r.executed == n)
            && (r.exit == HostTrapped <==> r.m.hostTrap.Some? && (r.executed < n || r.executed == 0 == n))
            && (r.exit == Idle ==> r.m.halted && !ArmMachine.InterruptPending(r.m) && r.executed < n)
  {
    hide ArmMachine.Step, ArmMachine.InterruptPending, RunFrom;
    BatchFrom(m, n);
    NoneDone(m);
  }

  lemma NoneDone(m: Machine)
    ensures RunFrom(m, 0) == RunResult(m, 0, Completed)
  {
  }

  lemma {:induction false} BatchFrom(m: Machine, n: nat)
    ensures var r := RunFrom(m, n);
            && r.m == Steps(m, r.executed) && r.executed <= n
            && (forall k: nat :: k < r.executed ==> Runnable(Steps(m, k)))
            && (r.exit == Completed ==> r.executed == n)
            && (r.exit == HostTrapped <==> r.m.hostTrap.Some? && r.executed < n)
            && (r.exit == Idle ==> r.m.halted && !ArmMachine.InterruptPending(r.m) && r.executed < n)
    decreases n
  {
    hide ArmMachine.Step, ArmMachine.InterruptPending;
    if n > 0 && Runnable(m) {
      var next := ArmMachine.Step(m).0;
      BatchFrom(next, n - 1);
      var r := RunFrom(m, n);
      forall k: nat | k < r.executed
        ensures Runnable(Steps(m, k))
      {
        if k > 0 {
          assert Steps(m, k) == Steps(next, k - 1);
        }
      }
    }
  }

  /** What a host can do between batches: step, drive the lines, write memory, take traps, inject an exception, and
      set registers, mode and status directly. */
  datatype Event =
    | StepOnce
    | Batch(n: nat)
    | Lines(irq: bool, fiq: bool)
    | Store(a: u32, data: seq<bits8>)
    | TakeTrap
    | Halt
    | Options(trapSwi: bool, trapFaults: bool)
    | Inject(e: Exception)
    | Poke(mode: Mode, i: reg, x: u32)
    | Switch(to: Mode)
    | Status(p: Psr)
    | PowerCycle

  function After(m: Machine, e: Event): Machine {
    match e
    case StepOnce => ArmMachine.Step(m).0
    case Batch(n) => RunOf(m, n).m
    case Lines(irq, fiq) => m.(irq := irq, fiq := fiq)
    case Store(a, data) => m.(ram := WithData(m.ram, a, data))
    case TakeTrap => m.(hostTrap := None)
    case Halt => m.(halted := true)
    case Options(trapSwi, trapFaults) => m.(trapSwi := trapSwi, trapFaults := trapFaults)
    case PowerCycle =>
      m.(v := RegView(seq(PHYSICAL, _ => 0), PsrOf(0xD3), seq(5, _ => PsrOf(0x13))), halted := false, hostTrap := None)
    case _ => m.(v := ViewAfter(m.v, m.here.start, e))
  }

  /** What the host does to the registers alone. */
  function ViewAfter(v: RegView, start: u32, e: Event): RegView {
    match e
    case Inject(x) => ArmMachine.Raise(v, start, x)
    case Poke(mode, i, x) => v.(phys := v.phys[Phys(mode, i) := x])
    case Switch(to) => v.(cpsr := v.cpsr.(mode := to.Bits()))
    case Status(p) => v.(cpsr := p)
    case _ => v
  }

  function AfterAll(m: Machine, events: seq<Event>): Machine
    decreases |events|
  {
    if events == [] then m else After(AfterAll(m, events[..|events| - 1]), events[|events| - 1])
  }

  predicate EventStrays(m: Machine, e: Event) {
    match e
    case StepOnce => StepStrays(m)
    case Batch(n) => BatchStrays(m, n)
    case _ => false
  }

  /** Some step of the plain machine's history uses a mirror the stamps cannot see through. */
  predicate Strays(m: Machine, events: seq<Event>)
    decreases |events|
  {
    if events == [] then false
    else
      var front := events[..|events| - 1];
      Strays(m, front) || EventStrays(AfterAll(m, front), events[|events| - 1])
  }

  method Serve(cpu: Cpu, mem: LinearMemory, e: Event)
    requires cpu.Valid(mem)
    modifies cpu, cpu.regs, cpu.icache, cpu.icache.entries, cpu.icache.stamps, mem.ram
    ensures cpu.Valid(mem) && cpu.stray == (old(cpu.stray) || EventStrays(old(cpu.State(mem)), e))
    ensures !cpu.stray ==> cpu.State(mem) == After(old(cpu.State(mem)), e)
  {
    hide Cpu.Valid, Registers.Flat, RamSize, ArmMachine.Step, CoherentAt, ClockedAt, RunOf, WithData, PsrOf, ViewAfter,
      ArmMachine.ExecAs, Cpu.Seen, StoresElsewhere, ICache.Hits, Next, RegView.Put, Timed;
    match e {
      case StepOnce => var _ := cpu.Step(mem);
      case Batch(n) => var _, _ := cpu.Run(mem, n);
      case Lines(irq, fiq) => cpu.SetLines(mem, irq, fiq);
      case Store(a, data) => cpu.HostWrite(mem, a, data);
      case TakeTrap => cpu.Configure(mem, cpu.halted, cpu.trapSwi, cpu.trapFaults, None);
      case Halt => cpu.Configure(mem, true, cpu.trapSwi, cpu.trapFaults, cpu.hostTrap);
      case Options(trapSwi, trapFaults) => cpu.Configure(mem, cpu.halted, trapSwi, trapFaults, cpu.hostTrap);
      case PowerCycle => cpu.Reset(mem);
      case _ => cpu.Arrange(mem, e);
    }
  }

  /** Over any program and any history of what a host can do, the cached and
      banked processor is the plain machine: always, in a memory that is a multiple of 64 MiB, and
      otherwise whenever no fetch or store of the plain machine's own history strays outside the first copy
      of the memory in its 64 MiB window. */
  method Drive(cpu: Cpu, mem: LinearMemory, events: seq<Event>)
    requires cpu.Valid(mem)
    modifies cpu, cpu.regs, cpu.icache, cpu.icache.entries, cpu.icache.stamps, mem.ram
    ensures cpu.Valid(mem) && cpu.stray == (old(cpu.stray) || Strays(old(cpu.State(mem)), events))
    ensures !old(cpu.stray) && !Strays(old(cpu.State(mem)), events) ==>
              cpu.State(mem) == AfterAll(old(cpu.State(mem)), events)
    ensures mem.ram.Length % 0x400_0000 == 0 ==> cpu.State(mem) == AfterAll(old(cpu.State(mem)), events)
  {
    hide Cpu.Valid, Registers.Flat, RamSize, CoherentAt, ClockedAt, After;
    ghost var m := cpu.State(mem);
    for i := 0 to |events|
      invariant cpu.Valid(mem) && cpu.stray == (old(cpu.stray) || Strays(m, events[..i]))
      invariant !cpu.stray ==> cpu.State(mem) == AfterAll(m, events[..i])
    {
      Serve(cpu, mem, events[i]);
      assert events[..i + 1][..i] == events[..i];
    }
    assert events[..|events|] == events;
  }

  /** A halfword store stays in its two cells. */
  lemma HalfCells(ram: Ram, a: u32, x: u16)
    requires RamSize(|ram|) && a % 2 == 0
    ensures Outside(ram, ArmMachine.Write16(ram, a, x), Cell(a, |ram|), 2)
  {
    hide Cell, RamSize, AlignWord;
    CellInWord(a, |ram|);
    HalfNext(a);
    CellInWord(Wrap(a + 1), |ram|);
  }

  lemma NextWord(a: u32)
    requires a % 4 == 0
    ensures Wrap(a + 4) % 4 == 0
  {
  }

  lemma BlockAligned(base: u32, pre: bool, up: bool, hollow: bool, list: RegList)
    ensures BlockAddr(base, pre, up, hollow, list).0 % 4 == 0
  {
  }

  lemma AlignedNow(v: RegView)
    ensures Aligned(Next(v))
  {
  }

  lemma LiveHit(entries: Entries, stamps: Stamps, clock: nat, inval: nat, ram: Ram, h: Here)
    requires CoherentAt(entries, stamps, clock, inval, ram) && Aligned(h) && Direct(h.start, |ram|)
    requires HitsAt(entries, stamps, inval, h)
    ensures entries[SlotOf(h.start)].insn == Fetch(ram, h)
  {
  }
}
