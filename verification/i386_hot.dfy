/** The decoupled decoder of the hot subset: instruction bytes become a packed, register-independent
    instruction, and a second function executes one against the live registers. */
module I386Hot {
  import opened I386Machine

  /** Handler discriminants. */
  datatype Op =
    | AluRmR8 | AluRmRW | AluRRm8 | AluRRmW | AluAccImm8 | AluAccImmW | AluGrpImm8 | AluGrpImmW
    | MovRmR8 | MovRmRW | MovRRm8 | MovRRmW | MovRegImm8 | MovRegImmW | MovRmImm8 | MovRmImmW | LeaM
    | IncR | DecR | PushR | PopR | IncDecRm8 | IncDecRmW | CallRm | JmpRm | PushRm
    | ShiftRm8 | ShiftRmW | JccRel | JmpShort | CallNear | RetPlain | RetImm
    | ImulRRmW | PushI | ImulRmImm | XchgRm8 | XchgRmW | XchgA
    | MovzxB | MovzxW | MovsxB | MovsxW | SetccRm | CmovW

  /** A register index or `NONE`. */
  type slot = i: int | 0 <= i <= 0xFF

  const NONE: slot := 0xFF

  /** Operand shape of the `rm` field. */
  datatype Kind = NoOperand | RegOperand | MemOperand

  /** The decode products; `flags` and `segscale` are packed.
      `flags`: bit 0 osize32, bit 1 asize32, bit 2 write-back, bits 3-4 kind, bits 5-7 prefix count.
      `segscale`: bits 0-2 segment, bits 3-4 scale, bits 5-7 the override prefix, 6 for none. */
  datatype Insn = Insn(op: Op, len: nat, flags: bv8, reg: reg, aux: nat, base: slot, index: slot, segscale: bv8,
                       disp: u32, imm: u32) {
    predicate Osize32() { flags & 1 != 0 }
    predicate Asize32() { flags & 2 != 0 }
    predicate Wb() { flags & 4 != 0 }

    function SetWb(wb: bool): Insn {
      this.(flags := flags | (if wb then 4 else 0))
    }

    function Kind(): Kind {
      var k := (flags >> 3) & 3;
      if k == 0 then NoOperand else if k == 1 then RegOperand else MemOperand
    }

    function SetKind(k: Kind): Insn {
      var bits: bv8 := match k case NoOperand => 0 case RegOperand => 1 case MemOperand => 2;
      this.(flags := (flags & !0x18) | (bits << 3))
    }

    function Npfx(): bv8 {
      flags >> 5
    }

    function SetNpfx(n: bv8): Insn {
      this.(flags := flags | (n << 5))
    }

    function Seg(): bv8 {
      segscale & 7
    }

    function SetSeg(x: bv8): Insn {
      this.(segscale := (segscale & !7) | x)
    }

    function Scale(): nat {
      var k := (segscale >> 3) & 3;
      if k == 0 then 0 else if k == 1 then 1 else if k == 2 then 2 else 3
    }

    function SetScale(n: nat): Insn
      requires n < 4
    {
      var bits: bv8 := if n == 0 then 0 else if n == 1 then 1 else if n == 2 then 2 else 3;
      this.(segscale := (segscale & !0x18) | (bits << 3))
    }

    function SegOverride(): Option<bv8> {
      if segscale >> 5 == 6 then None else Some(segscale >> 5)
    }
  }

  /** A blank instruction that carries the prefix state. */
  function Blank(c: Context): Insn {
    Insn(RetPlain, 0, (if c.osize32 then 1 else 0) | (if c.asize32 then 2 else 0), 0, 0, NONE, NONE,
         (if c.segOverride.Some? then c.segOverride.value else 6) << 5, 0, 0)
  }

  /** The segment registers fit their packed fields. */
  predicate Encodable(c: Context) {
    c.segOverride.Some? ==> c.segOverride.value < 6
  }

  // --- ModRM as a formula --------------------------------------------------------------------------------

  /** The base and index registers and the default segment of the 16-bit table. */
  function Base16(rm: reg): reg {
    if rm == 2 || rm == 3 || rm == 6 then EBP else if rm == 4 then ESI else if rm == 5 then EDI else EBX
  }

  function Index16(rm: reg): slot {
    if rm == 0 || rm == 2 then ESI else if rm == 1 || rm == 3 then EDI else NONE
  }

  function Seg16(rm: reg): (x: bv8)
    ensures x < 8
  {
    if rm == 2 || rm == 3 || rm == 6 then SS else DS
  }

  function Ea16Formula<F, M>(hw: Hardware<F, M>, c: Context, s: S<F, M>, m: u8, d: Insn): Out<F, M, Insn> {
    if Md(m) == 0 && Rm(m) == 6 then
      var (s1, off) :- Fetch16(hw, s);
      Ok(s1, d.(disp := off).SetSeg(c.Seg(DS)))
    else
      var (s1, disp) :- Disp(hw, s, Md(m), false);
      Ok(s1, d.(base := Base16(Rm(m)), index := Index16(Rm(m)), disp := disp).SetSeg(c.Seg(Seg16(Rm(m)))))
  }

  /** The SIB byte, and its default segment; a scaled base becomes an index without a base. */
  function SibFormula<F, M>(hw: Hardware<F, M>, s: S<F, M>, m: u8, d: Insn): Out<F, M, (Insn, bv8)> {
    var (s1, sib) :- Fetch8(hw, s);
    var scale, index, base := sib / 64, sib / 8 % 8, sib % 8;
    if base == 5 && Md(m) == 0 then
      var (s2, disp) :- Fetch32(hw, s1);
      var e := d.(disp := disp);
      Ok(s2, (if index != 4 then e.(index := index).SetScale(scale) else e, DS))
    else
      var seg := if base == ESP || base == EBP then SS else DS;
      Ok(s1, (if index != 4 then d.(base := base, index := index).SetScale(scale)
              else d.(base := NONE, index := base).SetScale(scale), seg))
  }

  function Ea32Formula<F, M>(hw: Hardware<F, M>, c: Context, s: S<F, M>, m: u8, d: Insn): Out<F, M, Insn> {
    if Md(m) == 0 && Rm(m) == 5 then
      var (s1, off) :- Fetch32(hw, s);
      Ok(s1, d.(disp := off).SetSeg(c.Seg(DS)))
    else if Rm(m) == 4 then
      var (s1, e) :- SibFormula(hw, s, m, d);
      var (s2, disp) :- Disp(hw, s1, Md(m), true);
      Ok(s2, e.0.(disp := Wrap(e.0.disp + disp)).SetSeg(c.Seg(e.1)))
    else
      var (s1, disp) :- Disp(hw, s, Md(m), true);
      Ok(s1, d.(base := Rm(m), disp := Wrap(d.disp + disp)).SetSeg(c.Seg(if Rm(m) == EBP then SS else DS)))
  }

  function DecodeModRm<F, M>(hw: Hardware<F, M>, c: Context, s: S<F, M>, d: Insn): Out<F, M, Insn> {
    var (s1, m) :- Fetch8(hw, s);
    var e := d.(reg := RegField(m));
    if Md(m) == 3 then Ok(s1, e.SetKind(RegOperand).(base := Rm(m)))
    else if c.asize32 then Ea32Formula(hw, c, s1, m, e.SetKind(MemOperand))
    else Ea16Formula(hw, c, s1, m, e.SetKind(MemOperand))
  }

  /** The operand a formula stands for, from live registers. */
  function EaOperand(g: Gpr, d: Insn): Operand {
    if d.Kind() == RegOperand then R(d.base % 8)
    else
      var o1 := if d.base != NONE then Wrap(d.disp + g[d.base % 8]) else d.disp;
      var o2 := if d.index != NONE then Wrap(o1 + Scaled(g[d.index % 8], d.Scale())) else o1;
      Mem(d.Seg(), if d.Asize32() then o2 else o2 % 0x1_0000)
  }

  // --- Decode ----------------------------------------------------------------------------------------------

  datatype Decoded = Hot(d: Insn) | Cold | Cold0F(op2: u8)

  /** ModRM, then an immediate of the given form. */
  function WithModRm<F, M>(hw: Hardware<F, M>, c: Context, s: S<F, M>, d: Insn, k: ImmKind): Out<F, M, Insn> {
    var (s1, e) :- DecodeModRm(hw, c, s, d);
    var (s2, imm) :- FetchImm(hw, c, s1, k);
    Ok(s2, if k == NoImm then e else e.(imm := imm))
  }

  function WithImm<F, M>(hw: Hardware<F, M>, c: Context, s: S<F, M>, d: Insn, k: ImmKind): Out<F, M, Insn> {
    var (s1, imm) :- FetchImm(hw, c, s, k);
    Ok(s1, if k == NoImm then d else d.(imm := imm))
  }

  /** Group 80 to 83: the sub-opcode selects the operation and CMP does not write back. */
  function DecodeAluGrp<F, M>(hw: Hardware<F, M>, c: Context, s: S<F, M>, d: Insn, k: ImmKind): Out<F, M, Insn> {
    var (s1, e) :- DecodeModRm(hw, c, s, d);
    var f := e.(aux := e.reg).SetWb(e.reg != 7);
    var (s2, imm) :- FetchImm(hw, c, s1, k);
    Ok(s2, f.(imm := imm))
  }

  function DecodeMovImm<F, M>(hw: Hardware<F, M>, c: Context, s: S<F, M>, d: Insn, k: ImmKind): Out<F, M, Insn> {
    var (s1, e) :- DecodeModRm(hw, c, s, d);
    if e.reg != 0 then Fault(s1, InvalidOpcode)
    else
      var (s2, imm) :- FetchImm(hw, c, s1, k);
      Ok(s2, e.(imm := imm))
  }

  /** Shift groups; bit 7 of `aux` means the count comes from CL at execution. */
  function DecodeShift<F, M>(hw: Hardware<F, M>, c: Context, s: S<F, M>, d: Insn, form: nat): Out<F, M, Insn> {
    var (s1, e) :- DecodeModRm(hw, c, s, d);
    if form == 0 then
      var (s2, n) :- FetchImm(hw, c, s1, Byte);
      Ok(s2, e.(aux := e.reg, imm := n))
    else if form == 1 then Ok(s1, e.(aux := e.reg, imm := 1))
    else Ok(s1, e.(aux := e.reg + 0x80))
  }

  function AsHot<F, M>(o: Out<F, M, Insn>): Out<F, M, Decoded> {
    match o
    case Ok(s, d) => Ok(s, Hot(d))
    case Fault(s, e) => Fault(s, e)
  }

  function DecodeAlu<F, M>(hw: Hardware<F, M>, c: Context, s: S<F, M>, opcode: u8): Out<F, M, Insn>
    requires opcode < 0x40 && opcode % 8 < 6
  {
    var form := opcode % 8;
    var d := Blank(c).(aux := opcode / 8).SetWb(opcode / 8 != 7);
    if form == 0 then WithModRm(hw, c, s, d.(op := AluRmR8), NoImm)
    else if form == 1 then WithModRm(hw, c, s, d.(op := AluRmRW), NoImm)
    else if form == 2 then WithModRm(hw, c, s, d.(op := AluRRm8), NoImm)
    else if form == 3 then WithModRm(hw, c, s, d.(op := AluRRmW), NoImm)
    else if form == 4 then WithImm(hw, c, s, d.(op := AluAccImm8), Byte)
    else WithImm(hw, c, s, d.(op := AluAccImmW), Full)
  }

  function DecodeGroupFF<F, M>(hw: Hardware<F, M>, c: Context, s: S<F, M>): Out<F, M, Decoded> {
    var (s1, e) :- DecodeModRm(hw, c, s, Blank(c));
    var f := e.(aux := e.reg);
    if e.reg <= 1 then Ok(s1, Hot(f.(op := IncDecRmW)))
    else if e.reg == 2 then Ok(s1, Hot(f.(op := CallRm)))
    else if e.reg == 4 then Ok(s1, Hot(f.(op := JmpRm)))
    else if e.reg == 6 then Ok(s1, Hot(f.(op := PushRm)))
    else Ok(s1, Cold)
  }

  function DecodeGroupFE<F, M>(hw: Hardware<F, M>, c: Context, s: S<F, M>): Out<F, M, Insn> {
    var (s1, e) :- DecodeModRm(hw, c, s, Blank(c).(op := IncDecRm8));
    if e.reg > 1 then Fault(s1, InvalidOpcode) else Ok(s1, e.(aux := e.reg))
  }

  function DecodeLea<F, M>(hw: Hardware<F, M>, c: Context, s: S<F, M>): Out<F, M, Insn> {
    var (s1, e) :- DecodeModRm(hw, c, s, Blank(c).(op := LeaM));
    if e.Kind() != MemOperand then Fault(s1, InvalidOpcode) else Ok(s1, e)
  }

  /** The opcode table, in three parts. */
  function DecodeOp<F, M>(hw: Hardware<F, M>, c: Context, s: S<F, M>, opcode: u8): Out<F, M, Decoded> {
    if opcode < 0x80 then DecodeLow(hw, c, s, opcode)
    else if opcode < 0xC0 then DecodeMiddle(hw, c, s, opcode)
    else DecodeHigh(hw, c, s, opcode)
  }

  function DecodeLow<F, M>(hw: Hardware<F, M>, c: Context, s: S<F, M>, opcode: u8): Out<F, M, Decoded>
    requires opcode < 0x80
  {
    var d := Blank(c);
    if opcode < 0x40 && opcode % 8 < 6 then AsHot(DecodeAlu(hw, c, s, opcode))
    else if opcode == 0x0F then
      var (s1, op2) :- Fetch8(hw, s);
      Decode0F(hw, c, s1, op2)
    else if 0x40 <= opcode < 0x60 then
      Ok(s, Hot(d.(op := if opcode < 0x48 then IncR else if opcode < 0x50 then DecR
                         else if opcode < 0x58 then PushR else PopR, reg := opcode % 8)))
    else if opcode == 0x68 then AsHot(WithImm(hw, c, s, d.(op := PushI), Full))
    else if opcode == 0x6A then AsHot(WithImm(hw, c, s, d.(op := PushI), SignedByte))
    else if opcode == 0x69 then AsHot(WithModRm(hw, c, s, d.(op := ImulRmImm), Full))
    else if opcode == 0x6B then AsHot(WithModRm(hw, c, s, d.(op := ImulRmImm), SignedByte))
    else if 0x70 <= opcode then AsHot(WithImm(hw, c, s, d.(op := JccRel, aux := opcode % 16), SignedByte))
    else Ok(s, Cold)
  }

  function DecodeMiddle<F, M>(hw: Hardware<F, M>, c: Context, s: S<F, M>, opcode: u8): Out<F, M, Decoded>
    requires 0x80 <= opcode < 0xC0
  {
    var d := Blank(c);
    if opcode == 0x80 || opcode == 0x82 then AsHot(DecodeAluGrp(hw, c, s, d.(op := AluGrpImm8), Byte))
    else if opcode == 0x81 then AsHot(DecodeAluGrp(hw, c, s, d.(op := AluGrpImmW), Full))
    else if opcode == 0x83 then AsHot(DecodeAluGrp(hw, c, s, d.(op := AluGrpImmW), SignedByte))
    else if opcode == 0x84 then AsHot(WithModRm(hw, c, s, d.(op := AluRmR8, aux := 4), NoImm))
    else if opcode == 0x85 then AsHot(WithModRm(hw, c, s, d.(op := AluRmRW, aux := 4), NoImm))
    else if opcode == 0x86 then AsHot(WithModRm(hw, c, s, d.(op := XchgRm8), NoImm))
    else if opcode == 0x87 then AsHot(WithModRm(hw, c, s, d.(op := XchgRmW), NoImm))
    else if opcode == 0x88 then AsHot(WithModRm(hw, c, s, d.(op := MovRmR8), NoImm))
    else if opcode == 0x89 then AsHot(WithModRm(hw, c, s, d.(op := MovRmRW), NoImm))
    else if opcode == 0x8A then AsHot(WithModRm(hw, c, s, d.(op := MovRRm8), NoImm))
    else if opcode == 0x8B then AsHot(WithModRm(hw, c, s, d.(op := MovRRmW), NoImm))
    else if opcode == 0x8D then AsHot(DecodeLea(hw, c, s))
    else if 0x90 <= opcode < 0x98 then Ok(s, Hot(d.(op := XchgA, reg := opcode % 8)))
    else if opcode == 0xA8 then AsHot(WithImm(hw, c, s, d.(op := AluAccImm8, aux := 4), Byte))
    else if opcode == 0xA9 then AsHot(WithImm(hw, c, s, d.(op := AluAccImmW, aux := 4), Full))
    else if 0xB0 <= opcode < 0xB8 then AsHot(WithImm(hw, c, s, d.(op := MovRegImm8, reg := opcode % 8), Byte))
    else if 0xB8 <= opcode then AsHot(WithImm(hw, c, s, d.(op := MovRegImmW, reg := opcode % 8), Full))
    else Ok(s, Cold)
  }

  function DecodeHigh<F, M>(hw: Hardware<F, M>, c: Context, s: S<F, M>, opcode: u8): Out<F, M, Decoded>
    requires 0xC0 <= opcode
  {
    var d := Blank(c);
    if opcode == 0xC0 then AsHot(DecodeShift(hw, c, s, d.(op := ShiftRm8), 0))
    else if opcode == 0xC1 then AsHot(DecodeShift(hw, c, s, d.(op := ShiftRmW), 0))
    else if opcode == 0xC2 then AsHot(WithImm(hw, c, s, d.(op := RetImm), Word))
    else if opcode == 0xC3 then Ok(s, Hot(d.(op := RetPlain)))
    else if opcode == 0xC6 then AsHot(DecodeMovImm(hw, c, s, d.(op := MovRmImm8), Byte))
    else if opcode == 0xC7 then AsHot(DecodeMovImm(hw, c, s, d.(op := MovRmImmW), Full))
    else if opcode == 0xD0 then AsHot(DecodeShift(hw, c, s, d.(op := ShiftRm8), 1))
    else if opcode == 0xD1 then AsHot(DecodeShift(hw, c, s, d.(op := ShiftRmW), 1))
    else if opcode == 0xD2 then AsHot(DecodeShift(hw, c, s, d.(op := ShiftRm8), 2))
    else if opcode == 0xD3 then AsHot(DecodeShift(hw, c, s, d.(op := ShiftRmW), 2))
    else if opcode == 0xE8 then AsHot(WithImm(hw, c, s, d.(op := CallNear), Relative))
    else if opcode == 0xE9 then AsHot(WithImm(hw, c, s, d.(op := JmpShort), Relative))
    else if opcode == 0xEB then AsHot(WithImm(hw, c, s, d.(op := JmpShort), SignedByte))
    else if opcode == 0xFE then AsHot(DecodeGroupFE(hw, c, s))
    else if opcode == 0xFF then DecodeGroupFF(hw, c, s)
    else Ok(s, Cold)
  }

  function Decode0F<F, M>(hw: Hardware<F, M>, c: Context, s: S<F, M>, op2: u8): Out<F, M, Decoded> {
    var d := Blank(c);
    if 0x80 <= op2 < 0x90 then AsHot(WithImm(hw, c, s, d.(op := JccRel, aux := op2 % 16), Relative))
    else if op2 == 0xAF then AsHot(WithModRm(hw, c, s, d.(op := ImulRRmW), NoImm))
    else if op2 == 0xB6 then AsHot(WithModRm(hw, c, s, d.(op := MovzxB), NoImm))
    else if op2 == 0xB7 then AsHot(WithModRm(hw, c, s, d.(op := MovzxW), NoImm))
    else if op2 == 0xBE then AsHot(WithModRm(hw, c, s, d.(op := MovsxB), NoImm))
    else if op2 == 0xBF then AsHot(WithModRm(hw, c, s, d.(op := MovsxW), NoImm))
    else if 0x90 <= op2 < 0xA0 then AsHot(WithModRm(hw, c, s, d.(op := SetccRm, aux := op2 % 16), NoImm))
    else if 0x40 <= op2 < 0x50 && c.extensions then
      AsHot(WithModRm(hw, c, s, d.(op := CmovW, aux := op2 % 16), NoImm))
    else Ok(s, Cold0F(op2))
  }

  /** The prefix count as it is packed. */
  function PrefixBits(n: nat): bv8
    requires n <= 7
  {
    if n == 0 then 0 else if n == 1 then 1 else if n == 2 then 2 else if n == 3 then 3
    else if n == 4 then 4 else if n == 5 then 5 else if n == 6 then 6 else 7
  }

  /** Try to decode; on any failure the state is back at the post-opcode position. */
  function TryDecode<F, M>(hw: Hardware<F, M>, c: Context, s: S<F, M>, opcode: u8, npfx: nat): (S<F, M>, Decoded) {
    if npfx > 7 then (s, Cold)
    else
      match DecodeOp(hw, c, s, opcode)
      case Ok(s1, Hot(d)) => (s1, Hot(d.(len := s1.ilen).SetNpfx(PrefixBits(npfx))))
      case Ok(s1, Cold0F(op2)) => (s1, Cold0F(op2))
      case Ok(s1, Cold) => (s.(flags := s1.flags, mem := s1.mem, gpr := s1.gpr), Cold)
      case Fault(s1, _) => (s.(flags := s1.flags, mem := s1.mem, gpr := s1.gpr), Cold)
  }

  // --- Execution --------------------------------------------------------------------------------------------------

  function ExecAlu<F, M>(hw: Hardware<F, M>, s: S<F, M>, d: Insn, w: Width, into: bool): Out<F, M, nat> {
    var op := EaOperand(s.gpr, d);
    if into then AluInto(hw, s, w, d.aux, d.Wb(), op, Reg(s.gpr, w, d.reg))
    else AluFrom(hw, s, w, d.aux, d.Wb(), d.reg, op)
  }

  function ExecLoad<F, M>(hw: Hardware<F, M>, s: S<F, M>, d: Insn, from: Width, to: Width, signed: bool, cm: nat,
                          cr: nat): Out<F, M, nat> {
    var op := EaOperand(s.gpr, d);
    var (_, x) :- ReadOp(hw, s, from, op);
    Ok(Put(s, to, d.reg, Extended(from, signed, x)), Cost(op, cm, cr))
  }

  function ExecImul<F, M>(hw: Hardware<F, M>, c: Context, s: S<F, M>, d: Insn, immediate: bool): Out<F, M, nat> {
    var w, op := c.Size(false), EaOperand(s.gpr, d);
    var (_, x) :- ReadOp(hw, s, w, op);
    if immediate then MulInto(hw, s, w, d.reg, x, Trunc(w, d.imm), op)
    else MulInto(hw, s, w, d.reg, Reg(s.gpr, w, d.reg), x, op)
  }

  function ExecXchg<F, M>(hw: Hardware<F, M>, s: S<F, M>, d: Insn, w: Width): Out<F, M, nat> {
    var op := EaOperand(s.gpr, d);
    var (_, a) :- ReadOp(hw, s, w, op);
    var (s1, _) :- WriteOp(hw, s, w, op, Reg(s.gpr, w, d.reg));
    Ok(Put(s1, w, d.reg, a), Cost(op, 5, 3))
  }

  function ExecShift<F, M>(hw: Hardware<F, M>, s: S<F, M>, d: Insn, w: Width): Out<F, M, nat> {
    var op := EaOperand(s.gpr, d);
    var (_, x) :- ReadOp(hw, s, w, op);
    var n := if d.aux >= 0x80 then Reg(s.gpr, W8, ECX) else d.imm;
    var r := hw.shift(d.aux % 8, w, s.flags, x, n);
    var (s1, _) :- WriteOp(hw, s.(flags := r.1), w, op, r.0);
    Ok(s1, Cost(op, 7, 3))
  }

  function ExecStore<F, M>(hw: Hardware<F, M>, s: S<F, M>, d: Insn, w: Width, x: u32, cost: nat): Out<F, M, nat> {
    var (s1, _) :- WriteOp(hw, s, w, EaOperand(s.gpr, d), x);
    Ok(s1, cost)
  }

  function ExecCmov<F, M>(hw: Hardware<F, M>, c: Context, s: S<F, M>, d: Insn): Out<F, M, nat> {
    var w, op := c.Size(false), EaOperand(s.gpr, d);
    var (_, x) :- ReadOp(hw, s, w, op);
    Ok(if hw.cond(d.aux, s.flags) then Put(s, w, d.reg, x) else s, Cost(op, 5, 4))
  }

  function ExecAluGrp<F, M>(hw: Hardware<F, M>, s: S<F, M>, d: Insn, w: Width): Out<F, M, nat> {
    AluInto(hw, s, w, d.aux, d.Wb(), EaOperand(s.gpr, d), Trunc(w, d.imm))
  }

  /** Execute a decoded instruction; EIP is already past it. */
  function ExecDecoded<F, M>(hw: Hardware<F, M>, c: Context, s: S<F, M>, d: Insn): Out<F, M, nat> {
    var w := c.Size(false);
    match d.op
    case AluRmR8 => ExecAlu(hw, s, d, W8, true)
    case AluRmRW => ExecAlu(hw, s, d, w, true)
    case AluRRm8 => ExecAlu(hw, s, d, W8, false)
    case AluRRmW => ExecAlu(hw, s, d, w, false)
    case AluAccImm8 => AluAcc(hw, s, W8, d.aux, d.Wb(), d.imm)
    case AluAccImmW => AluAcc(hw, s, w, d.aux, d.Wb(), d.imm)
    case AluGrpImm8 => ExecAluGrp(hw, s, d, W8)
    case AluGrpImmW => ExecAluGrp(hw, s, d, w)
    case MovRmR8 => ExecStore(hw, s, d, W8, Reg(s.gpr, W8, d.reg), 2)
    case MovRmRW => ExecStore(hw, s, d, w, Reg(s.gpr, w, d.reg), 2)
    case MovRRm8 => ExecLoad(hw, s, d, W8, W8, false, 4, 2)
    case MovRRmW => ExecLoad(hw, s, d, w, w, false, 4, 2)
    case MovRegImm8 => Ok(Put(s, W8, d.reg, d.imm), 2)
    case MovRegImmW => Ok(Put(s, w, d.reg, d.imm), 2)
    case MovRmImm8 => ExecStore(hw, s, d, W8, d.imm, 2)
    case MovRmImmW => ExecStore(hw, s, d, w, d.imm, 2)
    case LeaM =>
      var op := EaOperand(s.gpr, d);
      if op.R? then Fault(s, InvalidOpcode) else Ok(Put(s, w, d.reg, op.off), 2)
    case IncR => IncDecReg(hw, s, w, d.reg, false)
    case DecR => IncDecReg(hw, s, w, d.reg, true)
    case PushR => PushReg(hw, c, s, d.reg)
    case PopR => PopReg(hw, c, s, d.reg)
    case IncDecRm8 => Group(hw, c, s, W8, if d.aux == 0 then 0 else 1, EaOperand(s.gpr, d))
    case IncDecRmW => Group(hw, c, s, w, if d.aux == 0 then 0 else 1, EaOperand(s.gpr, d))
    case CallRm => Group(hw, c, s, w, 2, EaOperand(s.gpr, d))
    case JmpRm => Group(hw, c, s, w, 4, EaOperand(s.gpr, d))
    case PushRm => Group(hw, c, s, w, 6, EaOperand(s.gpr, d))
    case ShiftRm8 => ExecShift(hw, s, d, W8)
    case ShiftRmW => ExecShift(hw, s, d, w)
    case JccRel => Jcc(hw, c, s, d.aux, d.imm)
    case JmpShort => JmpRel(hw, c, s, d.imm)
    case CallNear => CallRel(hw, c, s, d.imm)
    case RetPlain => RetNear(hw, c, s)
    case RetImm => Ret(hw, c, s, d.imm)
    case ImulRRmW => ExecImul(hw, c, s, d, false)
    case PushI => PushValue(hw, c, s, d.imm)
    case ImulRmImm => ExecImul(hw, c, s, d, true)
    case XchgRm8 => ExecXchg(hw, s, d, W8)
    case XchgRmW => ExecXchg(hw, s, d, w)
    case XchgA => XchgAcc(s, w, d.reg)
    case MovzxB => ExecLoad(hw, s, d, W8, w, false, 6, 3)
    case MovzxW => ExecLoad(hw, s, d, W16, w, false, 6, 3)
    case MovsxB => ExecLoad(hw, s, d, W8, w, true, 6, 3)
    case MovsxW => ExecLoad(hw, s, d, W16, w, true, 6, 3)
    case SetccRm => ExecStore(hw, s, d, W8, if hw.cond(d.aux, s.flags) then 1 else 0, 4)
    case CmovW => ExecCmov(hw, c, s, d)
  }
}
