/** The plain ARM machine: a flat register store, memory as a sequence of bytes, and every instruction
    fetched and decoded afresh. The cached, banked processor is proved to be this machine. */
module ArmMachine {
  import opened ArmAlu
  import opened ArmRegisters
  import opened ArmDecode
  import Words

  // --- Memory ------------------------------------------------------------------------------------

  /** A flat RAM; addresses wrap at its size. */
  type Ram = s: seq<bits8> | |s| > 0 witness [0]

  function Cell(a: nat, size: nat): (k: nat)
    requires size > 0
    ensures k < size
  {
    a % size
  }

  function Read8(ram: Ram, a: u32): bits8 {
    ram[Cell(a, |ram|)]
  }

  function Read16(ram: Ram, a: u32): u16 {
    Read8(ram, a) + 256 * Read8(ram, Wrap(a + 1))
  }

  function Read32(ram: Ram, a: u32): u32 {
    Read16(ram, a) + 0x1_0000 * Read16(ram, Wrap(a + 2))
  }

  function Write8(ram: Ram, a: u32, v: bits8): (r: Ram)
    ensures |r| == |ram|
  {
    ram[Cell(a, |ram|) := v]
  }

  function Write16(ram: Ram, a: u32, v: u16): (r: Ram)
    ensures |r| == |ram|
  {
    Write8(Write8(ram, a, v % 256), Wrap(a + 1), v / 256)
  }

  function Write32(ram: Ram, a: u32, v: u32): (r: Ram)
    ensures |r| == |ram|
  {
    Write16(Write16(ram, a, v % 0x1_0000), Wrap(a + 2), v / 0x1_0000)
  }

  function AlignWord(a: u32): (r: u32)
    ensures r % 4 == 0
  {
    a - a % 4
  }

  function AlignHalf(a: u32): (r: u32)
    ensures r % 2 == 0
  {
    a - a % 2
  }

  // --- Operands ----------------------------------------------------------------------------------

  /** Where the current instruction is, and in which state it executes. */
  datatype Here = Here(start: u32, thumb: bool) {
    /** R15 as an operand: two fetches ahead. */
    function Pc(): u32 {
      Wrap(start + if thumb then 4 else 8)
    }

    /** R15 after the internal cycle of a register shift, multiply or swap. */
    function Pc12(): u32 {
      Wrap(start + 12)
    }

    /** R15 as stored by STR and STM. */
    function PcStore(): u32 {
      Wrap(start + if thumb then 6 else 12)
    }
  }

  function RegOp(v: RegView, h: Here, i: areg): u32 {
    if i == 15 then h.Pc() else if i == 16 then AlignWord(h.Pc()) else v.Get(i)
  }

  function RegOp12(v: RegView, h: Here, i: areg): u32 {
    if i >= 15 then h.Pc12() else v.Get(i)
  }

  function BranchTo(v: RegView, target: u32): RegView {
    v.Put(15, if v.cpsr.t then AlignHalf(target) else target)
  }

  function SetReg(v: RegView, i: reg, x: u32): RegView {
    if i == 15 then BranchTo(v, x) else v.Put(i, x)
  }

  /** CPSR = SPSR, where there is one; the register window follows. */
  function RestoreCpsr(v: RegView): RegView {
    if v.cpsr.Mode().HasSpsr() then v.(cpsr := v.spsr[v.cpsr.Mode().Bank()]) else v
  }

  predicate CondPass(p: Psr, cond: bits4) {
    if cond == 0 then p.z
    else if cond == 1 then !p.z
    else if cond == 2 then p.c
    else if cond == 3 then !p.c
    else if cond == 4 then p.n
    else if cond == 5 then !p.n
    else if cond == 6 then p.v
    else if cond == 7 then !p.v
    else if cond == 8 then p.c && !p.z
    else if cond == 9 then !p.c || p.z
    else if cond == 10 then p.n == p.v
    else if cond == 11 then p.n != p.v
    else if cond == 12 then !p.z && p.n == p.v
    else if cond == 13 then p.z || p.n != p.v
    else cond == 14
  }

  // --- Data processing ------------------------------------------------------------------------------

  predicate Logical(op: AluOp) {
    op in {AND, EOR, TST, TEQ, ORR, MOV, BIC, MVN}
  }

  predicate WritesRd(op: AluOp) {
    op !in {TST, TEQ, CMP, CMN}
  }

  /** Result, carry and overflow of an operation; logical ones pass the shifter carry through. */
  function Alu(op: AluOp, rn: u32, op2: u32, carryIn: bool, shifterCarry: bool, overflow: bool): Sum {
    match op
    case AND => Sum(Logic(BitOp.And, rn, op2), shifterCarry, overflow)
    case TST => Sum(Logic(BitOp.And, rn, op2), shifterCarry, overflow)
    case EOR => Sum(Logic(BitOp.Xor, rn, op2), shifterCarry, overflow)
    case TEQ => Sum(Logic(BitOp.Xor, rn, op2), shifterCarry, overflow)
    case SUB => SubWithCarry(rn, op2, true)
    case CMP => SubWithCarry(rn, op2, true)
    case RSB => SubWithCarry(op2, rn, true)
    case ADD => AddWithCarry(rn, op2, false)
    case CMN => AddWithCarry(rn, op2, false)
    case ADC => AddWithCarry(rn, op2, carryIn)
    case SBC => SubWithCarry(rn, op2, carryIn)
    case RSC => SubWithCarry(op2, rn, carryIn)
    case ORR => Sum(Logic(BitOp.Or, rn, op2), shifterCarry, overflow)
    case MOV => Sum(op2, shifterCarry, overflow)
    case BIC => Sum(Logic(BitOp.And, rn, Not(op2)), shifterCarry, overflow)
    case MVN => Sum(Not(op2), shifterCarry, overflow)
  }

  function OperandOf(v: RegView, h: Here, o: Operand): Shifted {
    match o
    case Imm(x, rotated) => Shifted(x, if rotated then Negative(x) else v.cpsr.c)
    case ByImm(ty, rm, amount) => ShiftImm(ty, amount, RegOp(v, h, rm), v.cpsr.c)
    case ByReg(ty, rm, rs) => ShiftReg(ty, RegOp(v, h, rs) % 256, RegOp12(v, h, rm), v.cpsr.c)
  }

  function FlagsAfter(p: Psr, op: AluOp, r: Sum): Psr {
    p.SetNz(r.value).(c := r.carry, v := if Logical(op) then p.v else r.overflow)
  }

  /** What a data-processing instruction computes. */
  function DpResult(v: RegView, h: Here, op: AluOp, rn: areg, o: Operand): Sum {
    var sh := OperandOf(v, h, o);
    var a := if o.ByReg? then RegOp12(v, h, rn) else RegOp(v, h, rn);
    Alu(op, a, sh.value, v.cpsr.c, sh.carry, v.cpsr.v)
  }

  /** Where it goes: flags, or the SPSR for the mode-return forms, then the destination in the state
      that restored. */
  function DpFinish(v: RegView, op: AluOp, s: bool, rd: reg, r: Sum): RegView {
    var restores := rd == 15 && s && v.cpsr.Mode().HasSpsr();
    var w := if s && !(restores && WritesRd(op)) then v.(cpsr := FlagsAfter(v.cpsr, op, r)) else v;
    var x := if restores then RestoreCpsr(w) else w;
    if WritesRd(op) then SetReg(x, rd, r.value) else x
  }

  /** A data-processing instruction and its cycles. */
  function ExecDp(v: RegView, h: Here, op: AluOp, s: bool, rd: reg, rn: areg, o: Operand): (RegView, nat) {
    var base := if o.ByReg? then 2 else 1;
    (DpFinish(v, op, s, rd, DpResult(v, h, op, rn, o)), if WritesRd(op) && rd == 15 then base + 2 else base)
  }

  // --- Multiplies --------------------------------------------------------------------------------------

  function ExecMul(v: RegView, h: Here, acc: bool, s: bool, rd: reg, ra: reg, rs: reg, rm: reg): (RegView, nat) {
    var x := RegOp12(v, h, rs);
    var p := Wrap(Words.Mul(RegOp12(v, h, rm), x));
    var r := if acc then Wrap(p + RegOp12(v, h, ra)) else p;
    var w := SetReg(v, rd, r);
    (if s then w.(cpsr := w.cpsr.SetNz(r)) else w, 1 + MulCycles(x, true) + if acc then 1 else 0)
  }

  function Product(signed: bool, a: u32, b: u32): int {
    if signed then Words.Mul(Signed32(a), Signed32(b)) else Words.Mul(a, b)
  }

  function ExecMull(v: RegView, h: Here, signed: bool, acc: bool, s: bool, hi: reg, lo: reg, rs: reg, rm: reg)
    : (RegView, nat)
  {
    var x := RegOp12(v, h, rs);
    var sum := Product(signed, RegOp12(v, h, rm), x) +
               if acc then 0x1_0000_0000 * RegOp12(v, h, hi) + RegOp12(v, h, lo) else 0;
    var r := sum % 0x1_0000_0000_0000_0000;
    var w := SetReg(SetReg(v, lo, r % 0x1_0000_0000), hi, r / 0x1_0000_0000);
    (if s then w.(cpsr := w.cpsr.(n := r >= 0x8000_0000_0000_0000, z := r == 0)) else w,
     2 + MulCycles(x, signed) + if acc then 1 else 0)
  }

  // --- Status moves and branches ---------------------------------------------------------------------------

  /** MRS into the PC slips one fetch slot. */
  function ExecMrs(v: RegView, spsr: bool, rd: reg): RegView {
    var x := if spsr then SpsrOfView(v).Bits() else v.cpsr.Bits();
    if rd == 15 then v.Put(15, Wrap(x - 4)) else v.Put(rd, x)
  }

  /** The CPSR an MSR leaves: User mode writes flags only, and mode bit 4 is hardwired on. */
  function MsrCpsr(p: Psr, value: u32, fields: Fields): Psr {
    var mask := if p.Privileged() then fields else Fields(false, false, false, fields.f);
    var raw := p.Write(value, mask);
    if mask.c && raw.mode < 16 then raw.(mode := raw.mode + 16) else raw
  }

  function ExecMsr(v: RegView, spsr: bool, fields: Fields, value: u32): RegView {
    if spsr then WithSpsr(v, SpsrOfView(v).Write(value, fields))
    else v.(cpsr := MsrCpsr(v.cpsr, value, fields))
  }

  function ExecBranch(v: RegView, h: Here, link: bool, offset: u32): RegView {
    var w := if link then v.Put(14, Wrap(h.start + 4)) else v;
    BranchTo(w, Wrap(h.Pc() + offset))
  }

  function ExecBx(v: RegView, h: Here, rm: reg): RegView {
    var x := RegOp(v, h, rm);
    BranchTo(v.(cpsr := v.cpsr.(t := x % 2 == 1)), AlignHalf(x))
  }

  /** The two halves of a Thumb BL: LR gets the high part, then the return address. */
  function ExecThumbBl(v: RegView, h: Here, suffix: bool, off11: nat): (RegView, nat) {
    if !suffix then
      (v.Put(14, Wrap(h.Pc() + 4096 * (if off11 >= 1024 then off11 - 2048 else off11))), 1)
    else
      var ret := v.Get(15);
      var w := v.Put(14, if ret % 2 == 1 then ret else Wrap(ret + 1));
      (BranchTo(w, Wrap(v.Get(14) + 2 * off11)), 3)
  }

  predicate RegisterOnly(n: Insn) {
    n.Dp? || n.MulWord? || n.MulLong? || n.Mrs? || n.MsrReg? || n.MsrImm? || n.Branch? || n.Bx? || n.ThumbBl?
  }

  function ExecRegister(v: RegView, h: Here, n: Insn): (RegView, nat)
    requires RegisterOnly(n)
  {
    match n
    case Dp(op, s, rd, rn, o) => ExecDp(v, h, op, s, rd, rn, o)
    case MulWord(acc, s, rd, ra, rs, rm) => ExecMul(v, h, acc, s, rd, ra, rs, rm)
    case MulLong(signed, acc, s, hi, lo, rs, rm) => ExecMull(v, h, signed, acc, s, hi, lo, rs, rm)
    case Mrs(spsr, rd) => (ExecMrs(v, spsr, rd), 1)
    case MsrReg(spsr, fields, rm) => (ExecMsr(v, spsr, fields, RegOp(v, h, rm)), 1)
    case MsrImm(spsr, fields, x) => (ExecMsr(v, spsr, fields, x), 1)
    case Branch(link, offset) => (ExecBranch(v, h, link, offset), 3)
    case Bx(rm) => (ExecBx(v, h, rm), 3)
    case ThumbBl(suffix, off11) => ExecThumbBl(v, h, suffix, off11)
  }

  // --- Single transfers ----------------------------------------------------------------------------------------

  /** Registers, memory and cycles after a transfer. */
  datatype Moved = Moved(v: RegView, ram: Ram, cycles: nat)

  /** Address and write-back value of a single transfer. */
  function XferAddr(v: RegView, h: Here, pre: bool, up: bool, rn: areg, off: Offset): (u32, u32) {
    var base := RegOp(v, h, rn);
    var x := match off
             case OffImm(i) => i
             case OffReg(ty, rm, amount) => ShiftImm(ty, amount, RegOp(v, h, rm), v.cpsr.c).value;
    var indexed := if up then Wrap(base + x) else Wrap(base - x);
    (if pre then indexed else base, indexed)
  }

  /** A PC base is written back off `pc + 12`. */
  function WriteBack(v: RegView, wb: bool, rn: areg, x: u32): RegView {
    if !wb || rn == PCA then v else if rn == 15 then v.Put(15, Wrap(x + 4)) else v.Put(rn, x)
  }

  function RotR(v: u32, n: nat): u32
    requires n < 32
  {
    if n == 0 then v else Ror32(v, n)
  }

  /** LDR rotates the addressed byte to the bottom. */
  function Read32Rot(ram: Ram, a: u32): u32 {
    RotR(Read32(ram, AlignWord(a)), 8 * (a % 4))
  }

  function Read16Rot(ram: Ram, a: u32): u32 {
    RotR(Read16(ram, AlignHalf(a)), 8 * (a % 2))
  }

  function Sext8(b: bits8): u32 {
    if b >= 0x80 then 0xFFFF_FF00 + b else b
  }

  function Sext16(x: u16): u32 {
    if x >= 0x8000 then 0xFFFF_0000 + x else x
  }

  function LoadMisc(ram: Ram, width: Width, a: u32): u32 {
    match width
    case H => Read16Rot(ram, a)
    case SB => Sext8(Read8(ram, a))
    case SH => if a % 2 == 1 then Sext8(Read8(ram, a)) else Sext16(Read16(ram, a))
  }

  /** What any single load does once the value is known: write back, then load the register. */
  function FinishLoad(v: RegView, wb: bool, rn: areg, x: u32, rd: reg, value: u32): (RegView, nat) {
    (SetReg(WriteBack(v, wb, rn, x), rd, value), if rd == 15 then 5 else 3)
  }

  function StoreValue(v: RegView, h: Here, rd: reg): u32 {
    if rd == 15 then h.PcStore() else v.Get(rd)
  }

  function ExecLdr(v: RegView, ram: Ram, h: Here, bytewise: bool, pre: bool, up: bool, wb: bool, rd: reg, rn: areg,
                   off: Offset): Moved {
    var (a, x) := XferAddr(v, h, pre, up, rn, off);
    var r := FinishLoad(v, wb, rn, x, rd, if bytewise then Read8(ram, a) else Read32Rot(ram, a));
    Moved(r.0, ram, r.1)
  }

  function ExecLdrMisc(v: RegView, ram: Ram, h: Here, width: Width, pre: bool, up: bool, wb: bool, rd: reg, rn: areg,
                       off: Offset): Moved {
    var (a, x) := XferAddr(v, h, pre, up, rn, off);
    var r := FinishLoad(v, wb, rn, x, rd, LoadMisc(ram, width, a));
    Moved(r.0, ram, r.1)
  }

  function ExecStr(v: RegView, ram: Ram, h: Here, bytewise: bool, pre: bool, up: bool, wb: bool, rd: reg, rn: areg,
                   off: Offset): Moved {
    var (a, x) := XferAddr(v, h, pre, up, rn, off);
    var value := StoreValue(v, h, rd);
    Moved(WriteBack(v, wb, rn, x),
          if bytewise then Write8(ram, a, value % 256) else Write32(ram, AlignWord(a), value), 2)
  }

  function ExecStrMisc(v: RegView, ram: Ram, h: Here, pre: bool, up: bool, wb: bool, rd: reg, rn: areg, off: Offset)
    : Moved
  {
    var (a, x) := XferAddr(v, h, pre, up, rn, off);
    Moved(WriteBack(v, wb, rn, x), Write16(ram, AlignHalf(a), StoreValue(v, h, rd) % 0x1_0000), 2)
  }

  function ExecSwp(v: RegView, ram: Ram, h: Here, bytewise: bool, rd: reg, base: reg, rm: reg): Moved {
    var a, src := RegOp12(v, h, base), RegOp12(v, h, rm);
    if bytewise then Moved(SetReg(v, rd, Read8(ram, a)), Write8(ram, a, src % 256), 4)
    else Moved(SetReg(v, rd, Read32Rot(ram, a)), Write32(ram, AlignWord(a), src), 4)
  }

  // --- Block transfers --------------------------------------------------------------------------------------------

  /** Registers in the list from `i` up. */
  function Count(list: RegList, i: nat): (n: nat)
    requires i <= 16
    ensures n <= 16 - i
    decreases 16 - i
  {
    if i == 16 then 0 else (if list[i] then 1 else 0) + Count(list, i + 1)
  }

  /** First address and written-back base; the transfer always walks up. */
  function BlockAddr(base: u32, pre: bool, up: bool, hollow: bool, list: RegList): (u32, u32) {
    var bytes := if hollow then 0x40 else 4 * Count(list, 0);
    var down := Wrap(base - bytes);
    var start := if up then (if pre then Wrap(base + 4) else base) else if pre then down else Wrap(down + 4);
    (AlignWord(start), if up then Wrap(base + bytes) else down)
  }

  /** Load the listed registers from `i` up, R15 aside, from ascending words. */
  function LoadList(v: RegView, ram: Ram, list: RegList, i: nat, a: u32, user: bool): RegView
    requires i <= 16
    decreases 16 - i
  {
    if i == 16 then v
    else if !list[i] then LoadList(v, ram, list, i + 1, a, user)
    else
      var x := Read32(ram, a);
      LoadList(if i == 15 then v else if user then v.PutUser(i, x) else v.Put(i, x), ram, list, i + 1,
               Wrap(a + 4), user)
  }

  /** The address of register `i` in a transfer that reaches `j` with address `a`. */
  function SlotAddr(list: RegList, j: nat, a: u32, i: nat): u32
    requires j <= i <= 16
    decreases i - j
  {
    if j == i then a else SlotAddr(list, j + 1, if list[j] then Wrap(a + 4) else a, i)
  }

  /** Base write-back of a block transfer. */
  function BlockBack(v: RegView, wb: bool, user: bool, base: reg, x: u32): RegView {
    if !wb then v else if user then v.PutUser(base, x) else v.Put(base, x)
  }

  function ExecLdm(v: RegView, ram: Ram, h: Here, pre: bool, up: bool, s: bool, wb: bool, hollow: bool, base: reg,
                   list: RegList): Moved {
    var (a, x) := BlockAddr(RegOp(v, h, base), pre, up, hollow, list);
    var user := s && !list[15];
    var w := BlockBack(LoadList(v, ram, list, 0, a, user), wb && !list[base], user, base, x);
    var n := Count(list, 0) + 2;
    if !list[15] then Moved(w, ram, n)
    else
      var pc := Read32(ram, SlotAddr(list, 0, a, 15));
      var y := if s then RestoreCpsr(w) else w;
      Moved(if hollow then y.Put(15, pc) else BranchTo(y, pc), ram, n + 2)
  }

  /** What slot `i` of an STM holds; a written-back base that is not first stores its new value. */
  function StmValue(v: RegView, h: Here, user: bool, wb: bool, base: reg, first: bool, x: u32, i: reg): u32 {
    if i == base && wb && !first then x
    else if i == 15 then h.PcStore()
    else if user then v.UserReg(i)
    else v.Get(i)
  }

  /** No register below `i` is listed. */
  predicate IsLowest(list: RegList, i: nat)
    requires i <= 16
  {
    forall j :: 0 <= j < i ==> !list[j]
  }

  function StoreList(v: RegView, ram: Ram, h: Here, user: bool, wb: bool, base: reg, x: u32, list: RegList, i: nat,
                     a: u32): Ram
    requires i <= 16
    decreases 16 - i
  {
    if i == 16 then ram
    else if !list[i] then StoreList(v, ram, h, user, wb, base, x, list, i + 1, a)
    else
      var value := StmValue(v, h, user, wb, base, IsLowest(list, i), x, i);
      StoreList(v, Write32(ram, a, value), h, user, wb, base, x, list, i + 1, Wrap(a + 4))
  }

  function ExecStm(v: RegView, ram: Ram, h: Here, pre: bool, up: bool, s: bool, wb: bool, hollow: bool, base: reg,
                   list: RegList): Moved {
    var (a, x) := BlockAddr(RegOp(v, h, base), pre, up, hollow, list);
    Moved(BlockBack(v, wb, s, base, x), StoreList(v, ram, h, s, wb, base, x, list, 0, a), Count(list, 0) + 1)
  }

  predicate MovesMemory(n: Insn) {
    n.Ldr? || n.Str? || n.LdrMisc? || n.StrMisc? || n.Ldm? || n.Stm? || n.Swp?
  }

  function ExecMemory(v: RegView, ram: Ram, h: Here, n: Insn): Moved
    requires MovesMemory(n)
  {
    match n
    case Ldr(bytewise, pre, up, wb, rd, rn, off) => ExecLdr(v, ram, h, bytewise, pre, up, wb, rd, rn, off)
    case Str(bytewise, pre, up, wb, rd, rn, off) => ExecStr(v, ram, h, bytewise, pre, up, wb, rd, rn, off)
    case LdrMisc(width, pre, up, wb, rd, rn, off) => ExecLdrMisc(v, ram, h, width, pre, up, wb, rd, rn, off)
    case StrMisc(pre, up, wb, rd, rn, off) => ExecStrMisc(v, ram, h, pre, up, wb, rd, rn, off)
    case Ldm(pre, up, s, wb, hollow, base, list) => ExecLdm(v, ram, h, pre, up, s, wb, hollow, base, list)
    case Stm(pre, up, s, wb, hollow, base, list) => ExecStm(v, ram, h, pre, up, s, wb, hollow, base, list)
    case Swp(bytewise, rd, base, rm) => ExecSwp(v, ram, h, bytewise, rd, base, rm)
  }

  // --- Exceptions -------------------------------------------------------------------------------------------------

  datatype Exception = Undefined | Software | PrefetchAbort | DataAbort | IrqLine | FiqLine {
    function Vector(): u32 {
      match this
      case Undefined => 0x04
      case Software => 0x08
      case PrefetchAbort => 0x0C
      case DataAbort => 0x10
      case IrqLine => 0x18
      case FiqLine => 0x1C
    }

    function Mode(): (m: Mode)
      ensures m.HasSpsr()
    {
      match this
      case Undefined => Und
      case Software => Svc
      case PrefetchAbort => Abt
      case DataAbort => Abt
      case IrqLine => Irq
      case FiqLine => Fiq
    }
  }

  /** The link value of an exception. */
  function ReturnAddress(v: RegView, start: u32, e: Exception): u32 {
    match e
    case Undefined => v.Get(15)
    case Software => v.Get(15)
    case PrefetchAbort => Wrap(start + 4)
    case DataAbort => Wrap(start + 8)
    case IrqLine => Wrap(v.Get(15) + 4)
    case FiqLine => Wrap(v.Get(15) + 4)
  }

  /** Exception entry. */
  function Raise(v: RegView, start: u32, e: Exception): RegView {
    var ret := ReturnAddress(v, start, e);
    var w := WithSpsr(v.(cpsr := v.cpsr.(mode := e.Mode().Bits())), v.cpsr).Put(14, ret);
    w.(cpsr := w.cpsr.(t := false, i := true, f := w.cpsr.f || e == FiqLine)).Put(15, e.Vector())
  }

  // --- The machine --------------------------------------------------------------------------------------------------

  datatype Option<T> = None | Some(value: T)

  datatype HostTrap = Syscall | Trapped(e: Exception)

  datatype Machine = Machine(v: RegView, ram: Ram, cycles: nat, halted: bool, irq: bool, fiq: bool, trapSwi: bool,
                             trapFaults: bool, hostTrap: Option<HostTrap>, here: Here)

  const EXCEPTION_CYCLES: nat := 3

  function Fetch(ram: Ram, h: Here): Decoded {
    if h.thumb then DecodeThumb(Read16(ram, h.start)) else DecodeArm(Read32(ram, h.start))
  }

  /** The instruction at the PC: state and fetch alignment. */
  function Next(v: RegView): Here {
    var pc := v.Get(15);
    Here(if v.cpsr.t then AlignHalf(pc) else AlignWord(pc), v.cpsr.t)
  }

  /** A fault is handed to the host with the PC rewound, or vectored. */
  function FaultEpilogue(m: Machine, e: Exception): Machine {
    if m.trapFaults then m.(v := m.v.Put(15, m.here.start), hostTrap := Some(Trapped(e)))
    else m.(v := Raise(m.v, m.here.start, e))
  }

  /** One instruction whose condition holds. */
  function ExecInsn(m: Machine, n: Insn): (Machine, nat) {
    if RegisterOnly(n) then
      var r := ExecRegister(m.v, m.here, n);
      (m.(v := r.0), r.1)
    else if MovesMemory(n) then
      var r := ExecMemory(m.v, m.ram, m.here, n);
      (m.(v := r.v, ram := r.ram), r.cycles)
    else if n.Swi? then
      (if m.trapSwi then m.(hostTrap := Some(Syscall)) else m.(v := Raise(m.v, m.here.start, Software)), 3)
    else (FaultEpilogue(m, Undefined), EXCEPTION_CYCLES)
  }

  function ExecDecoded(m: Machine, d: Decoded): (Machine, nat) {
    if CondPass(m.v.cpsr, d.cond) then ExecInsn(m, d.insn) else (m, 1)
  }

  /** Fetch, decode and execute the instruction at the PC. */
  function ExecOne(m: Machine): (Machine, nat) {
    ExecAs(m, Fetch(m.ram, Next(m.v)))
  }

  /** Advance over the instruction at the PC and execute it as `d`. */
  function ExecAs(m: Machine, d: Decoded): (Machine, nat) {
    var h := Next(m.v);
    ExecDecoded(m.(here := h, v := m.v.Put(15, Wrap(h.start + d.len))), d)
  }

  predicate InterruptPending(m: Machine) {
    (m.fiq && !m.v.cpsr.f) || (m.irq && !m.v.cpsr.i)
  }

  /** One step: a pending interrupt, an idle cycle, or an instruction. */
  function Step(m: Machine): (Machine, nat) {
    if InterruptPending(m) then
      var e := if m.fiq && !m.v.cpsr.f then FiqLine else IrqLine;
      (m.(v := Raise(m.v, m.here.start, e), halted := false, cycles := m.cycles + EXCEPTION_CYCLES), EXCEPTION_CYCLES)
    else if m.halted then (m.(cycles := m.cycles + 1), 1)
    else
      var r := ExecOne(m);
      (r.0.(cycles := r.0.cycles + r.1), r.1)
  }

  function Steps(m: Machine, n: nat): Machine
    decreases n
  {
    if n == 0 then m else Steps(Step(m).0, n - 1)
  }
}
