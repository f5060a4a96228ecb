/** The direct ("fused") 386 interpreter on the hot instruction subset: ModRM resolution while the bytes are
    fetched, operands read and written as each handler goes. Flags and memory are parameters: any ALU, and
    any memory whose reads have no side effects and whose accesses may fault. */
module I386Machine {

  type u8 = x: int | 0 <= x < 0x100
  type u16 = x: int | 0 <= x < 0x1_0000
  type u32 = x: int | 0 <= x < 0x1_0000_0000
  type reg = i: int | 0 <= i < 8
  type Gpr = s: seq<u32> | |s| == 8 witness seq(8, _ => 0)

  const ECX: reg := 1
  const EBX: reg := 3
  const ESP: reg := 4
  const EBP: reg := 5
  const ESI: reg := 6
  const EDI: reg := 7

  const SS: bv8 := 2
  const DS: bv8 := 3

  function Wrap(x: int): u32 {
    x % 0x1_0000_0000
  }

  function Low16(x: u32): u16 {
    x % 0x1_0000
  }

  datatype Width = W8 | W16 | W32

  /** A value truncated to an operand width. */
  function Trunc(w: Width, x: u32): u32 {
    match w
    case W8 => x % 0x100
    case W16 => x % 0x1_0000
    case W32 => x
  }

  function Sext8(b: u8): u32 {
    if b >= 0x80 then 0xFFFF_FF00 + b else b
  }

  function Sext16(x: u16): u32 {
    if x >= 0x8000 then 0xFFFF_0000 + x else x
  }

  // --- Registers -----------------------------------------------------------------------------------

  /** AL CL DL BL AH CH DH BH, the low words, or the whole registers. */
  function Reg(g: Gpr, w: Width, i: reg): u32 {
    match w
    case W8 => if i < 4 then g[i] % 0x100 else g[i - 4] / 0x100 % 0x100
    case W16 => g[i] % 0x1_0000
    case W32 => g[i]
  }

  function SetReg(g: Gpr, w: Width, i: reg, x: u32): Gpr {
    match w
    case W8 => if i < 4 then g[i := LowByte(g[i], x % 0x100)] else g[i - 4 := HighByte(g[i - 4], x % 0x100)]
    case W16 => g[i := LowWord(g[i], x % 0x1_0000)]
    case W32 => g[i := x]
  }

  function LowByte(h: u32, b: u8): u32 {
    h - h % 0x100 + b
  }

  function HighByte(h: u32, b: u8): u32 {
    h - h % 0x1_0000 + 0x100 * b + h % 0x100
  }

  function LowWord(h: u32, x: u16): u32 {
    h - h % 0x1_0000 + x
  }

  // --- State -----------------------------------------------------------------------------------------

  /** What can go wrong; `Other` comes from code outside the hot subset, and says whether what it did so far
      stays when the instruction is rewound. */
  datatype Exn = InvalidOpcode | Protection | Bus(code: nat) | Other(code: nat, commits: bool)

  datatype Result<T> = Good(value: T) | Bad(e: Exn) {
    predicate IsFailure() {
      Bad?
    }

    function PropagateFailure<U>(): Result<U>
      requires IsFailure()
    {
      Bad(e)
    }

    function Extract(): T
      requires !IsFailure()
    {
      value
    }
  }

  /** LOCK and REP prefixes seen. */
  datatype Lock = Lock(lock: bool, rep: Option<bool>)

  /** The parts of the processor both interpreters share, as arbitrary functions. The segment registers and all
      other cold state count as memory. The last five are everything outside the hot subset: one-byte and
      two-byte opcodes, far calls and jumps through a resolved operand, instructions with LOCK or REP, and the
      delivery of a fault, given the memory from before the instruction. */
  datatype Hardware<!F, !M> = Hardware(
    alu: (nat, Width, F, u32, u32) -> (u32, F),
    incDec: (bool, Width, F, u32) -> (u32, F),
    shift: (nat, Width, F, u32, u32) -> (u32, F),
    imul: (Width, F, u32, u32) -> (u32, F),
    cond: (nat, F) -> bool,
    fetch: (M, u32) -> Result<u8>,
    read: (M, Width, bv8, u32) -> Result<u32>,
    write: (M, Width, bv8, u32, u32) -> Result<M>,
    csLimit: M -> u32,
    stack32: M -> bool,
    code32: M -> bool,
    cold: (Context, S<F, M>, u8) -> Out<F, M, nat>,
    cold0F: (Context, S<F, M>, u8) -> Out<F, M, nat>,
    far: (Context, S<F, M>, reg, Operand) -> Out<F, M, nat>,
    locked: (Context, Lock, S<F, M>, u8) -> Out<F, M, nat>,
    deliver: (M, S<F, M>, Exn) -> S<F, M>)

  /** What the prefixes and modes fix for one instruction. */
  datatype Context = Context(osize32: bool, asize32: bool, segOverride: Option<bv8>, extensions: bool) {
    /** The operand width selected by a byte or full-size opcode. */
    function Size(bytewise: bool): Width {
      if bytewise then W8 else if osize32 then W32 else W16
    }

    function Seg(d: bv8): bv8 {
      if segOverride.Some? then segOverride.value else d
    }
  }

  datatype Option<T> = None | Some(value: T)

  datatype S<F, M> = S(gpr: Gpr, eip: u32, ilen: nat, flags: F, mem: M)

  /** A fallible step; a fault keeps the state it happened in. */
  datatype Out<F, M, T> = Ok(s: S<F, M>, v: T) | Fault(s: S<F, M>, e: Exn) {
    predicate IsFailure() {
      Fault?
    }

    function PropagateFailure<U>(): Out<F, M, U>
      requires IsFailure()
    {
      Fault(s, e)
    }

    function Extract(): (S<F, M>, T)
      requires !IsFailure()
    {
      (s, v)
    }
  }

  // --- Fetch -----------------------------------------------------------------------------------------

  function Fetch8<F, M>(hw: Hardware<F, M>, s: S<F, M>): Out<F, M, u8> {
    if s.ilen >= 15 then Fault(s, InvalidOpcode)
    else
      var t := s.(ilen := s.ilen + 1);
      match hw.fetch(s.mem, s.eip)
      case Bad(e) => Fault(t, e)
      case Good(b) => Ok(t.(eip := Wrap(s.eip + 1)), b)
  }

  function Fetch16<F, M>(hw: Hardware<F, M>, s: S<F, M>): Out<F, M, u16> {
    var (s1, lo) :- Fetch8(hw, s);
    var (s2, hi) :- Fetch8(hw, s1);
    Ok(s2, lo + 256 * hi)
  }

  function Fetch32<F, M>(hw: Hardware<F, M>, s: S<F, M>): Out<F, M, u32> {
    var (s1, lo) :- Fetch16(hw, s);
    var (s2, hi) :- Fetch16(hw, s1);
    Ok(s2, lo + 0x1_0000 * hi)
  }

  function FetchByteAs<F, M>(hw: Hardware<F, M>, s: S<F, M>, signed: bool): Out<F, M, u32> {
    var (s1, b) :- Fetch8(hw, s);
    Ok(s1, if signed then Sext8(b) else b)
  }

  function FetchWordAs<F, M>(hw: Hardware<F, M>, s: S<F, M>, signed: bool): Out<F, M, u32> {
    var (s1, x) :- Fetch16(hw, s);
    Ok(s1, if signed then Sext16(x) else x)
  }

  /** Forms of immediate and displacement. */
  datatype ImmKind = NoImm | Byte | SignedByte | Word | Full | Relative

  /** Fetch an immediate, extended to 32 bits as its encoding says. */
  function FetchImm<F, M>(hw: Hardware<F, M>, c: Context, s: S<F, M>, k: ImmKind): Out<F, M, u32> {
    match k
    case NoImm => Ok(s, 0)
    case Byte => FetchByteAs(hw, s, false)
    case SignedByte => FetchByteAs(hw, s, true)
    case Word => FetchWordAs(hw, s, false)
    case Full => if c.osize32 then Fetch32(hw, s) else FetchWordAs(hw, s, false)
    case Relative => if c.osize32 then Fetch32(hw, s) else FetchWordAs(hw, s, true)
  }

  // --- ModRM, resolved at once -------------------------------------------------------------------------

  datatype Operand = R(i: reg) | Mem(seg: bv8, off: u32)

  function Md(m: u8): nat { m / 64 }
  function RegField(m: u8): reg { m / 8 % 8 }
  function Rm(m: u8): reg { m % 8 }

  /** The displacement after a ModRM byte, sign-extended. */
  function Disp<F, M>(hw: Hardware<F, M>, s: S<F, M>, md: nat, wide: bool): Out<F, M, u32> {
    if md == 0 then Ok(s, 0)
    else if md == 1 then
      var (s1, b) :- Fetch8(hw, s);
      Ok(s1, if wide then Sext8(b) else Low16(Sext8(b)))
    else if wide then Fetch32(hw, s)
    else
      var (s1, x) :- Fetch16(hw, s);
      Ok(s1, x)
  }

  function Ea16<F, M>(hw: Hardware<F, M>, c: Context, s: S<F, M>, m: u8): Out<F, M, Operand> {
    if Md(m) == 0 && Rm(m) == 6 then
      var (s1, off) :- Fetch16(hw, s);
      Ok(s1, Mem(c.Seg(DS), off))
    else
      var (s1, disp) :- Disp(hw, s, Md(m), false);
      var g := s.gpr;
      var base := if Rm(m) == 0 then Low16(g[EBX]) + Low16(g[ESI])
                  else if Rm(m) == 1 then Low16(g[EBX]) + Low16(g[EDI])
                  else if Rm(m) == 2 then Low16(g[EBP]) + Low16(g[ESI])
                  else if Rm(m) == 3 then Low16(g[EBP]) + Low16(g[EDI])
                  else if Rm(m) == 4 then Low16(g[ESI])
                  else if Rm(m) == 5 then Low16(g[EDI])
                  else if Rm(m) == 6 then Low16(g[EBP])
                  else Low16(g[EBX]);
      var seg := if Rm(m) == 2 || Rm(m) == 3 || Rm(m) == 6 then SS else DS;
      Ok(s1, Mem(c.Seg(seg), (base % 0x1_0000 + disp) % 0x1_0000))
  }

  /** `x << scale`. */
  function Scaled(x: u32, scale: nat): u32 {
    if scale == 0 then x else if scale == 1 then Wrap(2 * x) else if scale == 2 then Wrap(4 * x) else Wrap(8 * x)
  }

  /** Base, with index or scaled-base quirk, and the default segment of a SIB byte. */
  function Sib<F, M>(hw: Hardware<F, M>, s: S<F, M>, m: u8): Out<F, M, (u32, bv8)> {
    var (s1, sib) :- Fetch8(hw, s);
    var scale, index, base := sib / 64, sib / 8 % 8, sib % 8;
    if base == 5 && Md(m) == 0 then
      var (s2, disp) :- Fetch32(hw, s1);
      Ok(s2, (if index != 4 then Wrap(disp + Scaled(s.gpr[index], scale)) else disp, DS))
    else
      var b := s.gpr[base];
      Ok(s1, (if index != 4 then Wrap(b + Scaled(s.gpr[index], scale)) else Scaled(b, scale),
              if base == ESP || base == EBP then SS else DS))
  }

  function Ea32<F, M>(hw: Hardware<F, M>, c: Context, s: S<F, M>, m: u8): Out<F, M, Operand> {
    if Md(m) == 0 && Rm(m) == 5 then
      var (s1, off) :- Fetch32(hw, s);
      Ok(s1, Mem(c.Seg(DS), off))
    else if Rm(m) == 4 then
      var (s1, bs) :- Sib(hw, s, m);
      var (s2, disp) :- Disp(hw, s1, Md(m), true);
      Ok(s2, Mem(c.Seg(bs.1), Wrap(bs.0 + disp)))
    else
      var (s1, disp) :- Disp(hw, s, Md(m), true);
      Ok(s1, Mem(c.Seg(if Rm(m) == EBP then SS else DS), Wrap(s.gpr[Rm(m)] + disp)))
  }

  /** The ModRM byte's `reg` field and its resolved `rm` operand. */
  function ModRm<F, M>(hw: Hardware<F, M>, c: Context, s: S<F, M>): Out<F, M, (reg, Operand)> {
    var (s1, m) :- Fetch8(hw, s);
    if Md(m) == 3 then Ok(s1, (RegField(m), R(Rm(m))))
    else
      var (s2, op) :- if c.asize32 then Ea32(hw, c, s1, m) else Ea16(hw, c, s1, m);
      Ok(s2, (RegField(m), op))
  }

  // --- Operand access and the stack ---------------------------------------------------------------------

  function ReadOp<F, M>(hw: Hardware<F, M>, s: S<F, M>, w: Width, op: Operand): Out<F, M, u32> {
    match op
    case R(i) => Ok(s, Reg(s.gpr, w, i))
    case Mem(seg, off) =>
      match hw.read(s.mem, w, seg, off)
      case Bad(e) => Fault(s, e)
      case Good(x) => Ok(s, x)
  }

  function WriteOp<F, M>(hw: Hardware<F, M>, s: S<F, M>, w: Width, op: Operand, x: u32): Out<F, M, ()> {
    match op
    case R(i) => Ok(s.(gpr := SetReg(s.gpr, w, i, x)), ())
    case Mem(seg, off) =>
      match hw.write(s.mem, w, seg, off, Trunc(w, x))
      case Bad(e) => Fault(s, e)
      case Good(mem) => Ok(s.(mem := mem), ())
  }

  function StackPtr<F, M>(hw: Hardware<F, M>, s: S<F, M>): u32 {
    if hw.stack32(s.mem) then s.gpr[ESP] else s.gpr[ESP] % 0x1_0000
  }

  function AdjustSp<F, M>(hw: Hardware<F, M>, s: S<F, M>, delta: int): S<F, M> {
    var sp := s.gpr[ESP];
    s.(gpr := s.gpr[ESP := if hw.stack32(s.mem) then Wrap(sp + delta)
                           else LowWord(sp, (sp + delta) % 0x1_0000)])
  }

  function Bytes(w: Width): nat {
    match w case W8 => 1 case W16 => 2 case W32 => 4
  }

  function Push<F, M>(hw: Hardware<F, M>, c: Context, s: S<F, M>, x: u32): Out<F, M, ()> {
    var w := c.Size(false);
    var sp := StackPtr(hw, s) - Bytes(w);
    var slot := if hw.stack32(s.mem) then Wrap(sp) else sp % 0x1_0000;
    match hw.write(s.mem, w, SS, slot, Trunc(w, x))
    case Bad(e) => Fault(s, e)
    case Good(mem) => Ok(AdjustSp(hw, s.(mem := mem), 0 - Bytes(w)), ())
  }

  function Pop<F, M>(hw: Hardware<F, M>, c: Context, s: S<F, M>): Out<F, M, u32> {
    var w := c.Size(false);
    match hw.read(s.mem, w, SS, StackPtr(hw, s))
    case Bad(e) => Fault(s, e)
    case Good(x) => Ok(AdjustSp(hw, s, Bytes(w)), x)
  }

  /** A near transfer: truncated to the operand size and checked before it commits. */
  function SetIp<F, M>(hw: Hardware<F, M>, c: Context, s: S<F, M>, ip: u32): Out<F, M, ()> {
    var target := if c.osize32 then ip else ip % 0x1_0000;
    if target > hw.csLimit(s.mem) then Fault(s, Protection) else Ok(s.(eip := target), ())
  }

  function JumpRel<F, M>(hw: Hardware<F, M>, c: Context, s: S<F, M>, rel: u32): Out<F, M, ()> {
    SetIp(hw, c, s, Wrap(s.eip + rel))
  }

  function Cost(op: Operand, mem: nat, r: nat): nat {
    if op.Mem? then mem else r
  }

  /** Store a result in a register at the width. */
  function Put<F, M>(s: S<F, M>, w: Width, i: reg, x: u32): S<F, M> {
    s.(gpr := SetReg(s.gpr, w, i, x))
  }

  // --- Handlers: the fused forms ------------------------------------------------------------------------

  /** ALU r/m, r. */
  function AluRmR<F, M>(hw: Hardware<F, M>, c: Context, s: S<F, M>, w: Width, i: nat, wb: bool): Out<F, M, nat> {
    var (s1, m) :- ModRm(hw, c, s);
    AluInto(hw, s1, w, i, wb, m.1, Reg(s1.gpr, w, m.0))
  }

  /** Read the r/m operand, combine it with `b`, and write it back unless this is CMP or TEST. */
  function AluInto<F, M>(hw: Hardware<F, M>, s: S<F, M>, w: Width, i: nat, wb: bool, op: Operand, b: u32)
    : Out<F, M, nat>
  {
    var (_, a) :- ReadOp(hw, s, w, op);
    var r := hw.alu(i, w, s.flags, a, b);
    var t := s.(flags := r.1);
    if !wb then Ok(t, Cost(op, 7, 2))
    else
      var (t1, _) :- WriteOp(hw, t, w, op, r.0);
      Ok(t1, Cost(op, 7, 2))
  }

  /** ALU r, r/m. */
  function AluRRm<F, M>(hw: Hardware<F, M>, c: Context, s: S<F, M>, w: Width, i: nat, wb: bool): Out<F, M, nat> {
    var (s1, m) :- ModRm(hw, c, s);
    AluFrom(hw, s1, w, i, wb, m.0, m.1)
  }

  function AluFrom<F, M>(hw: Hardware<F, M>, s: S<F, M>, w: Width, i: nat, wb: bool, d: reg, op: Operand)
    : Out<F, M, nat>
  {
    var (_, b) :- ReadOp(hw, s, w, op);
    var r := hw.alu(i, w, s.flags, Reg(s.gpr, w, d), b);
    var t := s.(flags := r.1);
    Ok(if wb then Put(t, w, d, r.0) else t, Cost(op, 6, 2))
  }

  function AluAcc<F, M>(hw: Hardware<F, M>, s: S<F, M>, w: Width, i: nat, wb: bool, imm: u32): Out<F, M, nat> {
    var r := hw.alu(i, w, s.flags, Reg(s.gpr, w, 0), Trunc(w, imm));
    var t := s.(flags := r.1);
    Ok(if wb then Put(t, w, 0, r.0) else t, 2)
  }

  /** Groups 80 to 83: the immediate is fetched after the operand is read. */
  function AluGrp<F, M>(hw: Hardware<F, M>, c: Context, s: S<F, M>, w: Width, k: ImmKind): Out<F, M, nat> {
    var (s1, m) :- ModRm(hw, c, s);
    var (_, a) :- ReadOp(hw, s1, w, m.1);
    var (s2, imm) :- FetchImm(hw, c, s1, k);
    var r := hw.alu(m.0, w, s2.flags, a, Trunc(w, imm));
    var t := s2.(flags := r.1);
    if m.0 == 7 then Ok(t, Cost(m.1, 7, 2))
    else
      var (t1, _) :- WriteOp(hw, t, w, m.1, r.0);
      Ok(t1, Cost(m.1, 7, 2))
  }

  function MovRm<F, M>(hw: Hardware<F, M>, c: Context, s: S<F, M>, w: Width): Out<F, M, nat> {
    var (s1, m) :- ModRm(hw, c, s);
    var (s2, _) :- WriteOp(hw, s1, w, m.1, Reg(s1.gpr, w, m.0));
    Ok(s2, 2)
  }

  /** MOV, MOVZX and MOVSX into a register: read at one width, store at another. */
  function LoadRm<F, M>(hw: Hardware<F, M>, c: Context, s: S<F, M>, from: Width, to: Width, signed: bool, cm: nat,
                        cr: nat): Out<F, M, nat> {
    var (s1, m) :- ModRm(hw, c, s);
    var (_, x) :- ReadOp(hw, s1, from, m.1);
    Ok(Put(s1, to, m.0, Extended(from, signed, x)), Cost(m.1, cm, cr))
  }

  function Extended(w: Width, signed: bool, x: u32): u32 {
    if !signed then x else if w == W8 then Sext8(x % 0x100) else Sext16(x % 0x1_0000)
  }

  function MovImm<F, M>(hw: Hardware<F, M>, c: Context, s: S<F, M>, w: Width, k: ImmKind): Out<F, M, nat> {
    var (s1, m) :- ModRm(hw, c, s);
    if m.0 != 0 then Fault(s1, InvalidOpcode)
    else
      var (s2, imm) :- FetchImm(hw, c, s1, k);
      var (s3, _) :- WriteOp(hw, s2, w, m.1, imm);
      Ok(s3, 2)
  }

  function Lea<F, M>(hw: Hardware<F, M>, c: Context, s: S<F, M>): Out<F, M, nat> {
    var (s1, m) :- ModRm(hw, c, s);
    if m.1.R? then Fault(s1, InvalidOpcode) else Ok(Put(s1, c.Size(false), m.0, m.1.off), 2)
  }

  /** IMUL r, r/m, imm: the immediate after the operand. */
  function ImulImm<F, M>(hw: Hardware<F, M>, c: Context, s: S<F, M>, k: ImmKind): Out<F, M, nat> {
    var w := c.Size(false);
    var (s1, m) :- ModRm(hw, c, s);
    var (_, a) :- ReadOp(hw, s1, w, m.1);
    var (s2, imm) :- FetchImm(hw, c, s1, k);
    MulInto(hw, s2, w, m.0, a, Trunc(w, imm), m.1)
  }

  /** The product into a register; the cost is the source operand's. */
  function MulInto<F, M>(hw: Hardware<F, M>, s: S<F, M>, w: Width, i: reg, a: u32, b: u32, op: Operand)
    : Out<F, M, nat>
  {
    var r := hw.imul(w, s.flags, a, b);
    Ok(Put(s.(flags := r.1), w, i, r.0), Cost(op, 22, 20))
  }

  function ImulRm<F, M>(hw: Hardware<F, M>, c: Context, s: S<F, M>): Out<F, M, nat> {
    var w := c.Size(false);
    var (s1, m) :- ModRm(hw, c, s);
    var (_, b) :- ReadOp(hw, s1, w, m.1);
    MulInto(hw, s1, w, m.0, Reg(s1.gpr, w, m.0), b, m.1)
  }

  function Xchg<F, M>(hw: Hardware<F, M>, c: Context, s: S<F, M>, w: Width): Out<F, M, nat> {
    var (s1, m) :- ModRm(hw, c, s);
    var (_, a) :- ReadOp(hw, s1, w, m.1);
    var (s2, _) :- WriteOp(hw, s1, w, m.1, Reg(s1.gpr, w, m.0));
    Ok(Put(s2, w, m.0, a), Cost(m.1, 5, 3))
  }

  function XchgAcc<F, M>(s: S<F, M>, w: Width, i: reg): Out<F, M, nat> {
    Ok(Put(Put(s, w, 0, Reg(s.gpr, w, i)), w, i, Reg(s.gpr, w, 0)), 3)
  }

  function IncDecReg<F, M>(hw: Hardware<F, M>, s: S<F, M>, w: Width, i: reg, dec: bool): Out<F, M, nat> {
    var r := hw.incDec(dec, w, s.flags, Reg(s.gpr, w, i));
    Ok(Put(s.(flags := r.1), w, i, r.0), 2)
  }

  function PushReg<F, M>(hw: Hardware<F, M>, c: Context, s: S<F, M>, i: reg): Out<F, M, nat> {
    var (s1, _) :- Push(hw, c, s, s.gpr[i]);
    Ok(s1, 2)
  }

  function PopReg<F, M>(hw: Hardware<F, M>, c: Context, s: S<F, M>, i: reg): Out<F, M, nat> {
    var (s1, x) :- Pop(hw, c, s);
    Ok(Put(s1, c.Size(false), i, x), 4)
  }

  function PushValue<F, M>(hw: Hardware<F, M>, c: Context, s: S<F, M>, x: u32): Out<F, M, nat> {
    var (s1, _) :- Push(hw, c, s, x);
    Ok(s1, 2)
  }

  /** Groups FE and FF on a resolved operand. */
  function Group<F, M>(hw: Hardware<F, M>, c: Context, s: S<F, M>, w: Width, sub: reg, op: Operand): Out<F, M, nat> {
    if sub <= 1 then
      var (_, x) :- ReadOp(hw, s, w, op);
      var r := hw.incDec(sub == 1, w, s.flags, x);
      var (s1, _) :- WriteOp(hw, s.(flags := r.1), w, op, r.0);
      Ok(s1, Cost(op, 6, 2))
    else if w == W8 || sub == 7 then Fault(s, InvalidOpcode)
    else if sub == 2 then
      var (_, x) :- ReadOp(hw, s, w, op);
      var (s1, _) :- Push(hw, c, s, s.eip);
      var (s2, _) :- SetIp(hw, c, s1, x);
      Ok(s2, Cost(op, 10, 7))
    else if sub == 4 then
      var (_, x) :- ReadOp(hw, s, w, op);
      var (s1, _) :- SetIp(hw, c, s, x);
      Ok(s1, Cost(op, 10, 7))
    else if sub == 6 then
      var (_, x) :- ReadOp(hw, s, w, op);
      var (s1, _) :- Push(hw, c, s, x);
      Ok(s1, Cost(op, 5, 2))
    else hw.far(c, s, sub, op)
  }

  function GroupRm<F, M>(hw: Hardware<F, M>, c: Context, s: S<F, M>, w: Width): Out<F, M, nat> {
    var (s1, m) :- ModRm(hw, c, s);
    Group(hw, c, s1, w, m.0, m.1)
  }

  /** Shift groups: an immediate count comes after the operand read; a CL count is read first. */
  function ShiftGrp<F, M>(hw: Hardware<F, M>, c: Context, s: S<F, M>, w: Width, count: Option<u32>): Out<F, M, nat> {
    var (s1, m) :- ModRm(hw, c, s);
    var (_, x) :- ReadOp(hw, s1, w, m.1);
    var (s2, n) :- if count.Some? then Ok(s1, count.value) else FetchImm(hw, c, s1, Byte);
    var r := hw.shift(m.0, w, s2.flags, x, n);
    var (s3, _) :- WriteOp(hw, s2.(flags := r.1), w, m.1, r.0);
    Ok(s3, Cost(m.1, 7, 3))
  }

  function Jcc<F, M>(hw: Hardware<F, M>, c: Context, s: S<F, M>, cc: nat, rel: u32): Out<F, M, nat> {
    if !hw.cond(cc, s.flags) then Ok(s, 3)
    else
      var (s1, _) :- JumpRel(hw, c, s, rel);
      Ok(s1, 7)
  }

  function JmpRel<F, M>(hw: Hardware<F, M>, c: Context, s: S<F, M>, rel: u32): Out<F, M, nat> {
    var (s1, _) :- JumpRel(hw, c, s, rel);
    Ok(s1, 7)
  }

  function CallRel<F, M>(hw: Hardware<F, M>, c: Context, s: S<F, M>, rel: u32): Out<F, M, nat> {
    var (s1, _) :- Push(hw, c, s, s.eip);
    var (s2, _) :- JumpRel(hw, c, s1, rel);
    Ok(s2, 7)
  }

  function Ret<F, M>(hw: Hardware<F, M>, c: Context, s: S<F, M>, release: nat): Out<F, M, nat> {
    var (s1, ip) :- Pop(hw, c, s);
    var (s2, _) :- SetIp(hw, c, s1, ip);
    Ok(AdjustSp(hw, s2, release), 10)
  }

  function RetNear<F, M>(hw: Hardware<F, M>, c: Context, s: S<F, M>): Out<F, M, nat> {
    var (s1, ip) :- Pop(hw, c, s);
    var (s2, _) :- SetIp(hw, c, s1, ip);
    Ok(s2, 10)
  }

  function Setcc<F, M>(hw: Hardware<F, M>, c: Context, s: S<F, M>, cc: nat): Out<F, M, nat> {
    var (s1, m) :- ModRm(hw, c, s);
    var (s2, _) :- WriteOp(hw, s1, W8, m.1, if hw.cond(cc, s1.flags) then 1 else 0);
    Ok(s2, 4)
  }

  function Cmov<F, M>(hw: Hardware<F, M>, c: Context, s: S<F, M>, cc: nat): Out<F, M, nat> {
    var w := c.Size(false);
    var (s1, m) :- ModRm(hw, c, s);
    var (_, x) :- ReadOp(hw, s1, w, m.1);
    Ok(if hw.cond(cc, s1.flags) then Put(s1, w, m.0, x) else s1, Cost(m.1, 5, 4))
  }

  // --- Dispatch ---------------------------------------------------------------------------------------------

  /** The opcodes 00 to 3F whose low three bits select one of the six ALU forms. */
  function AluForm<F, M>(hw: Hardware<F, M>, c: Context, s: S<F, M>, opcode: u8): Out<F, M, nat>
    requires opcode < 0x40 && opcode % 8 < 6
  {
    var i, form := opcode / 8, opcode % 8;
    var w := c.Size(form % 2 == 0);
    if form < 2 then AluRmR(hw, c, s, w, i, i != 7)
    else if form < 4 then AluRRm(hw, c, s, w, i, i != 7)
    else
      var (s1, imm) :- FetchImm(hw, c, s, if form == 4 then Byte else Full);
      AluAcc(hw, s1, w, i, i != 7, imm)
  }

  /** Execute the instruction whose opcode byte has been fetched. */
  function Dispatch<F, M>(hw: Hardware<F, M>, c: Context, s: S<F, M>, opcode: u8): Out<F, M, nat> {
    if opcode < 0x80 then DispatchLow(hw, c, s, opcode)
    else if opcode < 0xC0 then DispatchMiddle(hw, c, s, opcode)
    else DispatchHigh(hw, c, s, opcode)
  }

  function DispatchLow<F, M>(hw: Hardware<F, M>, c: Context, s: S<F, M>, opcode: u8): Out<F, M, nat>
    requires opcode < 0x80
  {
    if opcode < 0x40 && opcode % 8 < 6 then AluForm(hw, c, s, opcode)
    else if opcode == 0x0F then
      var (s1, op2) :- Fetch8(hw, s);
      Dispatch0F(hw, c, s1, op2)
    else if 0x40 <= opcode < 0x50 then IncDecReg(hw, s, c.Size(false), opcode % 8, opcode >= 0x48)
    else if 0x50 <= opcode < 0x58 then PushReg(hw, c, s, opcode % 8)
    else if 0x58 <= opcode < 0x60 then PopReg(hw, c, s, opcode % 8)
    else if opcode == 0x68 || opcode == 0x6A then
      var (s1, imm) :- FetchImm(hw, c, s, if opcode == 0x68 then Full else SignedByte);
      PushValue(hw, c, s1, imm)
    else if opcode == 0x69 || opcode == 0x6B then ImulImm(hw, c, s, if opcode == 0x69 then Full else SignedByte)
    else if 0x70 <= opcode then
      var (s1, rel) :- FetchImm(hw, c, s, SignedByte);
      Jcc(hw, c, s1, opcode % 16, rel)
    else hw.cold(c, s, opcode)
  }

  function DispatchMiddle<F, M>(hw: Hardware<F, M>, c: Context, s: S<F, M>, opcode: u8): Out<F, M, nat>
    requires 0x80 <= opcode < 0xC0
  {
    var w := c.Size(opcode % 2 == 0);
    if opcode < 0x84 then
      AluGrp(hw, c, s, w, if opcode == 0x81 then Full else if opcode == 0x83 then SignedByte else Byte)
    else if opcode == 0x84 || opcode == 0x85 then AluRmR(hw, c, s, w, 4, false)
    else if opcode == 0x86 || opcode == 0x87 then Xchg(hw, c, s, w)
    else if opcode == 0x88 || opcode == 0x89 then MovRm(hw, c, s, w)
    else if opcode == 0x8A || opcode == 0x8B then LoadRm(hw, c, s, w, w, false, 4, 2)
    else if opcode == 0x8D then Lea(hw, c, s)
    else if 0x90 <= opcode < 0x98 then XchgAcc(s, c.Size(false), opcode % 8)
    else if opcode == 0xA8 || opcode == 0xA9 then
      var (s1, imm) :- FetchImm(hw, c, s, if opcode == 0xA8 then Byte else Full);
      AluAcc(hw, s1, w, 4, false, imm)
    else if 0xB0 <= opcode then
      var (s1, imm) :- FetchImm(hw, c, s, if opcode < 0xB8 then Byte else Full);
      Ok(Put(s1, c.Size(opcode < 0xB8), opcode % 8, imm), 2)
    else hw.cold(c, s, opcode)
  }

  function DispatchHigh<F, M>(hw: Hardware<F, M>, c: Context, s: S<F, M>, opcode: u8): Out<F, M, nat>
    requires 0xC0 <= opcode
  {
    var w := c.Size(opcode % 2 == 0);
    if opcode == 0xC0 || opcode == 0xC1 then ShiftGrp(hw, c, s, w, None)
    else if opcode == 0xD0 || opcode == 0xD1 then ShiftGrp(hw, c, s, w, Some(1))
    else if opcode == 0xD2 || opcode == 0xD3 then ShiftGrp(hw, c, s, w, Some(Reg(s.gpr, W8, ECX)))
    else if opcode == 0xC2 then
      var (s1, n) :- FetchImm(hw, c, s, Word);
      Ret(hw, c, s1, n)
    else if opcode == 0xC3 then RetNear(hw, c, s)
    else if opcode == 0xC6 || opcode == 0xC7 then MovImm(hw, c, s, w, if opcode == 0xC6 then Byte else Full)
    else if opcode == 0xE8 then
      var (s1, rel) :- FetchImm(hw, c, s, Relative);
      CallRel(hw, c, s1, rel)
    else if opcode == 0xE9 || opcode == 0xEB then
      var (s1, rel) :- FetchImm(hw, c, s, if opcode == 0xE9 then Relative else SignedByte);
      JmpRel(hw, c, s1, rel)
    else if opcode == 0xFE || opcode == 0xFF then GroupRm(hw, c, s, w)
    else hw.cold(c, s, opcode)
  }

  /** The two-byte opcodes of the hot subset. */
  function Dispatch0F<F, M>(hw: Hardware<F, M>, c: Context, s: S<F, M>, op2: u8): Out<F, M, nat> {
    var w := c.Size(false);
    if 0x40 <= op2 < 0x50 && c.extensions then Cmov(hw, c, s, op2 % 16)
    else if 0x80 <= op2 < 0x90 then
      var (s1, rel) :- FetchImm(hw, c, s, Relative);
      Jcc(hw, c, s1, op2 % 16, rel)
    else if 0x90 <= op2 < 0xA0 then Setcc(hw, c, s, op2 % 16)
    else if op2 == 0xAF then ImulRm(hw, c, s)
    else if op2 == 0xB6 || op2 == 0xB7 then LoadRm(hw, c, s, if op2 == 0xB6 then W8 else W16, w, false, 6, 3)
    else if op2 == 0xBE || op2 == 0xBF then LoadRm(hw, c, s, if op2 == 0xBE then W8 else W16, w, true, 6, 3)
    else hw.cold0F(c, s, op2)
  }
}
