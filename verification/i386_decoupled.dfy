/** The decoupled decoder and executor against the fused interpreter, handler by handler and then for every
    opcode. */
module I386Decoupled {
  import opened I386Machine
  import opened I386Hot
  import opened I386Equivalence

  /** Outcomes that agree: completely on success; on a fault in all but EIP and the length count, which the
      fault epilogue resets. */
  ghost predicate Same<F, M>(a: Out<F, M, nat>, b: Out<F, M, nat>) {
    if a.Ok? then a == b else b.Fault? && b.e == a.e && Kept(a.s, b.s)
  }

  /** Reads see registers and memory only, so they commute with fetching. */
  lemma ReadKept<F, M>(hw: Hardware<F, M>, s: S<F, M>, t: S<F, M>, w: Width, op: Operand)
    requires Kept(s, t)
    ensures var a, b := ReadOp(hw, s, w, op), ReadOp(hw, t, w, op);
            if a.Ok? then a.s == s && b == Ok(t, a.v) else a == Fault(s, a.e) && b == Fault(t, a.e)
  {
  }

  // --- Handlers with a ModRM operand -----------------------------------------------------------------------

  lemma AluRmRSame<F, M>(hw: Hardware<F, M>, c: Context, s: S<F, M>, d: Insn, w: Width)
    requires Encodable(c) && Clean(d, c) && WithModRm(hw, c, s, d, NoImm).Ok?
    ensures var r := WithModRm(hw, c, s, d, NoImm);
            r.v.op == d.op && ExecAlu(hw, r.s, r.v, w, true) == AluRmR(hw, c, s, w, d.aux, d.Wb())
  {
    hide Insn.Wb, ModRm, DecodeModRm, EaOperand, ReadOp, WriteOp, Reg, AluInto, Clean;
    ModRmAgrees(hw, c, s, d);
  }

  lemma AluRRmSame<F, M>(hw: Hardware<F, M>, c: Context, s: S<F, M>, d: Insn, w: Width)
    requires Encodable(c) && Clean(d, c) && WithModRm(hw, c, s, d, NoImm).Ok?
    ensures var r := WithModRm(hw, c, s, d, NoImm);
            r.v.op == d.op && ExecAlu(hw, r.s, r.v, w, false) == AluRRm(hw, c, s, w, d.aux, d.Wb())
  {
    hide Insn.Wb, ModRm, DecodeModRm, EaOperand, ReadOp, WriteOp, Reg, AluFrom, Clean;
    ModRmAgrees(hw, c, s, d);
  }

  lemma MovRmSame<F, M>(hw: Hardware<F, M>, c: Context, s: S<F, M>, d: Insn, w: Width)
    requires Encodable(c) && Clean(d, c) && WithModRm(hw, c, s, d, NoImm).Ok?
    ensures var r := WithModRm(hw, c, s, d, NoImm);
            r.v.op == d.op && ExecStore(hw, r.s, r.v, w, Reg(r.s.gpr, w, r.v.reg), 2) == MovRm(hw, c, s, w)
  {
    hide Insn.Wb, ModRm, DecodeModRm, EaOperand, ReadOp, WriteOp, Reg, Clean;
    ModRmAgrees(hw, c, s, d);
  }

  lemma SetccSame<F, M>(hw: Hardware<F, M>, c: Context, s: S<F, M>, d: Insn)
    requires Encodable(c) && Clean(d, c) && WithModRm(hw, c, s, d, NoImm).Ok?
    ensures var r := WithModRm(hw, c, s, d, NoImm);
            r.v.op == d.op && r.v.aux == d.aux &&
            ExecStore(hw, r.s, r.v, W8, if hw.cond(d.aux, r.s.flags) then 1 else 0, 4) == Setcc(hw, c, s, d.aux)
  {
    hide Insn.Wb, ModRm, DecodeModRm, EaOperand, ReadOp, WriteOp, Reg, Clean;
    ModRmAgrees(hw, c, s, d);
  }

  lemma LoadSame<F, M>(hw: Hardware<F, M>, c: Context, s: S<F, M>, d: Insn, from: Width, to: Width, signed: bool,
                       cm: nat, cr: nat)
    requires Encodable(c) && Clean(d, c) && WithModRm(hw, c, s, d, NoImm).Ok?
    ensures var r := WithModRm(hw, c, s, d, NoImm);
            r.v.op == d.op &&
            ExecLoad(hw, r.s, r.v, from, to, signed, cm, cr) == LoadRm(hw, c, s, from, to, signed, cm, cr)
  {
    hide Insn.Wb, ModRm, DecodeModRm, EaOperand, ReadOp, WriteOp, Put, Extended, Clean;
    ModRmAgrees(hw, c, s, d);
  }

  lemma ImulRmSame<F, M>(hw: Hardware<F, M>, c: Context, s: S<F, M>, d: Insn)
    requires Encodable(c) && Clean(d, c) && WithModRm(hw, c, s, d, NoImm).Ok?
    ensures var r := WithModRm(hw, c, s, d, NoImm);
            r.v.op == d.op && ExecImul(hw, c, r.s, r.v, false) == ImulRm(hw, c, s)
  {
    hide Insn.Wb, ModRm, DecodeModRm, EaOperand, ReadOp, WriteOp, Put, Reg, Clean, Context.Size;
    ModRmAgrees(hw, c, s, d);
  }

  /** The immediate is fetched before the operand is read here, after it there. */
  lemma ImulImmSame<F, M>(hw: Hardware<F, M>, c: Context, s: S<F, M>, d: Insn, k: ImmKind)
    requires Encodable(c) && Clean(d, c) && k != NoImm && WithModRm(hw, c, s, d, k).Ok?
    ensures var r := WithModRm(hw, c, s, d, k);
            r.v.op == d.op && Same(ExecImul(hw, c, r.s, r.v, true), ImulImm(hw, c, s, k))
  {
    hide Insn.Wb, Insn.Kind, Insn.Scale, Insn.Seg, Insn.Asize32, Insn.Npfx, Insn.SegOverride, Insn.Osize32, ModRm,
      DecodeModRm, EaOperand, ReadOp, WriteOp, Put, Reg, Clean, Context.Size, FetchImm, Trunc;
    ModRmAgrees(hw, c, s, d);
    var m, e := ModRm(hw, c, s), DecodeModRm(hw, c, s, d);
    FetchedImm(hw, c, e.s, k);
    var r := WithModRm(hw, c, s, d, k);
    SameOperandWithImm(m.s.gpr, e.v, r.v.imm);
    ReadKept(hw, m.s, r.s, c.Size(false), m.v.1);
  }

  lemma SameOperandWithImm(g: Gpr, d: Insn, imm: u32)
    ensures EaOperand(g, d.(imm := imm)) == EaOperand(g, d) && d.(imm := imm).Wb() == d.Wb()
  {
  }

  lemma SameOperandWithAux(g: Gpr, d: Insn, op: Op, aux: nat)
    ensures EaOperand(g, d.(op := op, aux := aux)) == EaOperand(g, d) && d.(op := op, aux := aux).Wb() == d.Wb()
  {
  }

  lemma XchgSame<F, M>(hw: Hardware<F, M>, c: Context, s: S<F, M>, d: Insn, w: Width)
    requires Encodable(c) && Clean(d, c) && WithModRm(hw, c, s, d, NoImm).Ok?
    ensures var r := WithModRm(hw, c, s, d, NoImm);
            r.v.op == d.op && ExecXchg(hw, r.s, r.v, w) == Xchg(hw, c, s, w)
  {
    hide Insn.Wb, ModRm, DecodeModRm, EaOperand, ReadOp, WriteOp, Put, Reg, Clean;
    ModRmAgrees(hw, c, s, d);
  }

  lemma CmovSame<F, M>(hw: Hardware<F, M>, c: Context, s: S<F, M>, d: Insn)
    requires Encodable(c) && Clean(d, c) && WithModRm(hw, c, s, d, NoImm).Ok?
    ensures var r := WithModRm(hw, c, s, d, NoImm);
            r.v.op == d.op && ExecCmov(hw, c, r.s, r.v) == Cmov(hw, c, s, d.aux)
  {
    hide Insn.Wb, ModRm, DecodeModRm, EaOperand, ReadOp, WriteOp, Put, Reg, Clean, Context.Size;
    ModRmAgrees(hw, c, s, d);
  }

  /** Groups 80 to 83: CMP is the sub-opcode that does not write back. */
  lemma AluGrpSame<F, M>(hw: Hardware<F, M>, c: Context, s: S<F, M>, d: Insn, w: Width, k: ImmKind)
    requires Encodable(c) && Clean(d, c) && !d.Wb() && DecodeAluGrp(hw, c, s, d, k).Ok?
    ensures var r := DecodeAluGrp(hw, c, s, d, k);
            r.v.op == d.op && Same(ExecAluGrp(hw, r.s, r.v, w), AluGrp(hw, c, s, w, k))
  {
    hide Insn.Wb, Insn.Kind, Insn.Scale, Insn.Seg, Insn.Asize32, Insn.Npfx, Insn.SegOverride, Insn.Osize32, ModRm,
      DecodeModRm, EaOperand, ReadOp, WriteOp, Put, Reg, Clean, FetchImm, Trunc, Insn.SetWb;
    ModRmAgrees(hw, c, s, d);
    var m, e := ModRm(hw, c, s), DecodeModRm(hw, c, s, d);
    FetchedImm(hw, c, e.s, k);
    var f := e.v.(aux := e.v.reg);
    SameOperandWithAux(m.s.gpr, e.v, e.v.op, e.v.reg);
    SetWbSays(f, e.v.reg != 7);
    WbOperand(m.s.gpr, f, e.v.reg != 7);
    var r := DecodeAluGrp(hw, c, s, d, k);
    SameOperandWithImm(m.s.gpr, f.SetWb(e.v.reg != 7), r.v.imm);
    ReadKept(hw, m.s, r.s, w, m.v.1);
  }

  lemma WbOperand(g: Gpr, d: Insn, wb: bool)
    ensures EaOperand(g, d.SetWb(wb)) == EaOperand(g, d)
  {
    hide Scaled, Wrap;
    SetWbSays(d, wb);
  }

  lemma MovImmSame<F, M>(hw: Hardware<F, M>, c: Context, s: S<F, M>, d: Insn, w: Width, k: ImmKind)
    requires Encodable(c) && Clean(d, c) && DecodeMovImm(hw, c, s, d, k).Ok?
    ensures var r := DecodeMovImm(hw, c, s, d, k);
            r.v.op == d.op && ExecStore(hw, r.s, r.v, w, r.v.imm, 2) == MovImm(hw, c, s, w, k)
  {
    hide Insn.Wb, Insn.Kind, Insn.Scale, Insn.Seg, Insn.Asize32, Insn.Npfx, Insn.SegOverride, Insn.Osize32, ModRm,
      DecodeModRm, EaOperand, ReadOp, WriteOp, Clean, FetchImm;
    ModRmAgrees(hw, c, s, d);
    var m, e := ModRm(hw, c, s), DecodeModRm(hw, c, s, d);
    FetchedImm(hw, c, e.s, k);
    SameOperandWithImm(m.s.gpr, e.v, DecodeMovImm(hw, c, s, d, k).v.imm);
  }

  lemma LeaSame<F, M>(hw: Hardware<F, M>, c: Context, s: S<F, M>)
    requires Encodable(c) && DecodeLea(hw, c, s).Ok?
    ensures var r := DecodeLea(hw, c, s);
            r.v.op == LeaM && ExecDecoded(hw, c, r.s, r.v) == Lea(hw, c, s)
  {
    hide Insn.Wb, Insn.Kind, ModRm, DecodeModRm, EaOperand, Put, Clean, Context.Size, Blank;
    Ready(c, LeaM, 0, 0);
    ModRmAgrees(hw, c, s, Blank(c).(op := LeaM));
  }

  /** Shift groups: immediate, one, or CL, which no read can change. */
  lemma ShiftSame<F, M>(hw: Hardware<F, M>, c: Context, s: S<F, M>, d: Insn, w: Width, form: nat)
    requires Encodable(c) && Clean(d, c) && form < 3 && DecodeShift(hw, c, s, d, form).Ok?
    ensures var r := DecodeShift(hw, c, s, d, form);
            var count := if form == 0 then None else if form == 1 then Some(1) else Some(Reg(s.gpr, W8, ECX));
            r.v.op == d.op && Same(ExecShift(hw, r.s, r.v, w), ShiftGrp(hw, c, s, w, count))
  {
    hide Insn.Wb, Insn.Kind, Insn.Scale, Insn.Seg, Insn.Asize32, Insn.Npfx, Insn.SegOverride, Insn.Osize32, ModRm,
      DecodeModRm, EaOperand, ReadOp, WriteOp, Put, Reg, Clean, FetchImm;
    ModRmAgrees(hw, c, s, d);
    var m, e := ModRm(hw, c, s), DecodeModRm(hw, c, s, d);
    var r := DecodeShift(hw, c, s, d, form);
    FetchedImm(hw, c, e.s, Byte);
    SameOperandWithAux(m.s.gpr, e.v, e.v.op, r.v.aux);
    SameOperandWithImm(m.s.gpr, e.v.(aux := r.v.aux), r.v.imm);
    ReadKept(hw, m.s, r.s, w, m.v.1);
    SubOp(e.v.reg);
  }

  lemma SubOp(r: reg)
    ensures r % 8 == r && (r + 0x80) % 8 == r
  {
  }

  lemma GroupFESame<F, M>(hw: Hardware<F, M>, c: Context, s: S<F, M>)
    requires Encodable(c) && DecodeGroupFE(hw, c, s).Ok?
    ensures var r := DecodeGroupFE(hw, c, s);
            r.v.op == IncDecRm8 && ExecDecoded(hw, c, r.s, r.v) == GroupRm(hw, c, s, W8)
  {
    hide Insn.Wb, ModRm, DecodeModRm, EaOperand, Clean, Blank, Group;
    Ready(c, IncDecRm8, 0, 0);
    ModRmAgrees(hw, c, s, Blank(c).(op := IncDecRm8));
    var e := DecodeModRm(hw, c, s, Blank(c).(op := IncDecRm8));
    SameOperandWithAux(e.s.gpr, e.v, IncDecRm8, e.v.reg);
  }

  lemma GroupFFSame<F, M>(hw: Hardware<F, M>, c: Context, s: S<F, M>)
    requires Encodable(c) && DecodeGroupFF(hw, c, s).Ok? && DecodeGroupFF(hw, c, s).v.Hot?
    ensures var r := DecodeGroupFF(hw, c, s);
            ExecDecoded(hw, c, r.s, r.v.d) == GroupRm(hw, c, s, c.Size(false))
  {
    hide Insn.Wb, ModRm, DecodeModRm, EaOperand, Clean, Blank, Group, Context.Size;
    Ready(c, RetPlain, 0, 0);
    ModRmAgrees(hw, c, s, Blank(c));
    var e := DecodeModRm(hw, c, s, Blank(c));
    var r := DecodeGroupFF(hw, c, s);
    SameOperandWithAux(e.s.gpr, e.v, r.v.d.op, e.v.reg);
  }

  /** A blank instruction with its handler, selector and register is ready for an operand. */
  lemma Ready(c: Context, op: Op, aux: nat, r: reg)
    requires Encodable(c)
    ensures Clean(Blank(c), c) && !Blank(c).Wb() && Blank(c).op == RetPlain
    ensures var d := Blank(c).(op := op, aux := aux, reg := r); Clean(d, c) && !d.Wb()
    ensures Clean(Blank(c).(op := op), c) && !Blank(c).(op := op).Wb()
  {
    BlankSays(c);
  }

  // --- What each discriminant executes ----------------------------------------------------------------------

  lemma Executes<F, M>(hw: Hardware<F, M>, c: Context, s: S<F, M>, d: Insn)
    ensures d.op == AluRmR8 ==> ExecDecoded(hw, c, s, d) == ExecAlu(hw, s, d, W8, true)
    ensures d.op == AluRmRW ==> ExecDecoded(hw, c, s, d) == ExecAlu(hw, s, d, c.Size(false), true)
    ensures d.op == AluRRm8 ==> ExecDecoded(hw, c, s, d) == ExecAlu(hw, s, d, W8, false)
    ensures d.op == AluRRmW ==> ExecDecoded(hw, c, s, d) == ExecAlu(hw, s, d, c.Size(false), false)
    ensures d.op == AluAccImm8 ==> ExecDecoded(hw, c, s, d) == AluAcc(hw, s, W8, d.aux, d.Wb(), d.imm)
    ensures d.op == AluAccImmW ==> ExecDecoded(hw, c, s, d) == AluAcc(hw, s, c.Size(false), d.aux, d.Wb(), d.imm)
    ensures d.op == AluGrpImm8 ==> ExecDecoded(hw, c, s, d) == ExecAluGrp(hw, s, d, W8)
    ensures d.op == AluGrpImmW ==> ExecDecoded(hw, c, s, d) == ExecAluGrp(hw, s, d, c.Size(false))
    ensures d.op == MovRmR8 ==> ExecDecoded(hw, c, s, d) == ExecStore(hw, s, d, W8, Reg(s.gpr, W8, d.reg), 2)
    ensures d.op == MovRmRW ==>
              ExecDecoded(hw, c, s, d) == ExecStore(hw, s, d, c.Size(false), Reg(s.gpr, c.Size(false), d.reg), 2)
    ensures d.op == MovRRm8 ==> ExecDecoded(hw, c, s, d) == ExecLoad(hw, s, d, W8, W8, false, 4, 2)
    ensures d.op == MovRRmW ==>
              ExecDecoded(hw, c, s, d) == ExecLoad(hw, s, d, c.Size(false), c.Size(false), false, 4, 2)
    ensures d.op == MovRmImm8 ==> ExecDecoded(hw, c, s, d) == ExecStore(hw, s, d, W8, d.imm, 2)
    ensures d.op == MovRmImmW ==> ExecDecoded(hw, c, s, d) == ExecStore(hw, s, d, c.Size(false), d.imm, 2)
  {
    hide ExecAlu, AluAcc, ExecAluGrp, ExecStore, ExecLoad, Reg, Context.Size, Insn.Wb;
  }

  lemma ExecutesMore<F, M>(hw: Hardware<F, M>, c: Context, s: S<F, M>, d: Insn)
    ensures d.op == ImulRRmW ==> ExecDecoded(hw, c, s, d) == ExecImul(hw, c, s, d, false)
    ensures d.op == ImulRmImm ==> ExecDecoded(hw, c, s, d) == ExecImul(hw, c, s, d, true)
    ensures d.op == XchgRm8 ==> ExecDecoded(hw, c, s, d) == ExecXchg(hw, s, d, W8)
    ensures d.op == XchgRmW ==> ExecDecoded(hw, c, s, d) == ExecXchg(hw, s, d, c.Size(false))
    ensures d.op == ShiftRm8 ==> ExecDecoded(hw, c, s, d) == ExecShift(hw, s, d, W8)
    ensures d.op == ShiftRmW ==> ExecDecoded(hw, c, s, d) == ExecShift(hw, s, d, c.Size(false))
  {
    hide ExecImul, ExecXchg, ExecShift, Context.Size, Insn.Wb;
  }

  lemma ExecutesExtended<F, M>(hw: Hardware<F, M>, c: Context, s: S<F, M>, d: Insn)
    ensures d.op == MovzxB ==> ExecDecoded(hw, c, s, d) == ExecLoad(hw, s, d, W8, c.Size(false), false, 6, 3)
    ensures d.op == MovzxW ==> ExecDecoded(hw, c, s, d) == ExecLoad(hw, s, d, W16, c.Size(false), false, 6, 3)
    ensures d.op == MovsxB ==> ExecDecoded(hw, c, s, d) == ExecLoad(hw, s, d, W8, c.Size(false), true, 6, 3)
    ensures d.op == MovsxW ==> ExecDecoded(hw, c, s, d) == ExecLoad(hw, s, d, W16, c.Size(false), true, 6, 3)
    ensures d.op == SetccRm ==>
              ExecDecoded(hw, c, s, d) == ExecStore(hw, s, d, W8, if hw.cond(d.aux, s.flags) then 1 else 0, 4)
    ensures d.op == CmovW ==> ExecDecoded(hw, c, s, d) == ExecCmov(hw, c, s, d)
  {
    hide ExecStore, ExecLoad, ExecCmov, Context.Size, Insn.Wb;
  }

  lemma ExecutesFlow<F, M>(hw: Hardware<F, M>, c: Context, s: S<F, M>, d: Insn)
    ensures d.op == JccRel ==> ExecDecoded(hw, c, s, d) == Jcc(hw, c, s, d.aux, d.imm)
    ensures d.op == JmpShort ==> ExecDecoded(hw, c, s, d) == JmpRel(hw, c, s, d.imm)
    ensures d.op == CallNear ==> ExecDecoded(hw, c, s, d) == CallRel(hw, c, s, d.imm)
    ensures d.op == RetImm ==> ExecDecoded(hw, c, s, d) == Ret(hw, c, s, d.imm)
    ensures d.op == PushI ==> ExecDecoded(hw, c, s, d) == PushValue(hw, c, s, d.imm)
    ensures d.op == MovRegImm8 ==> ExecDecoded(hw, c, s, d) == Ok(Put(s, W8, d.reg, d.imm), 2)
    ensures d.op == MovRegImmW ==> ExecDecoded(hw, c, s, d) == Ok(Put(s, c.Size(false), d.reg, d.imm), 2)
  {
    hide Context.Size, Insn.Wb, Jcc, JmpRel, CallRel, Ret, PushValue, Put;
  }

  // --- Every opcode ------------------------------------------------------------------------------------------

  /** Decoding is hot and executing it agrees with the fused handler. */
  ghost predicate Agrees<F, M>(hw: Hardware<F, M>, c: Context, d: Out<F, M, Decoded>, f: Out<F, M, nat>) {
    d.Ok? && d.v.Hot? ==> Same(ExecDecoded(hw, c, d.s, d.v.d), f)
  }

  lemma SameAsItself<F, M>(a: Out<F, M, nat>)
    ensures Same(a, a)
  {
  }

  lemma AluOpcode<F, M>(hw: Hardware<F, M>, c: Context, s: S<F, M>, opcode: u8)
    requires Encodable(c) && opcode < 0x40 && opcode % 8 < 6
    ensures Agrees(hw, c, AsHot(DecodeAlu(hw, c, s, opcode)), AluForm(hw, c, s, opcode))
  {
    hide Insn.Wb, Insn.SetWb, Blank, Clean, Encodable, WithModRm, WithImm, FetchImm, ExecAlu, AluAcc, AluRmR, AluRRm,
      Context.Size, Insn.Npfx, Insn.Kind, Insn.SegOverride, Insn.Scale, Insn.Asize32, Insn.Osize32, ExecDecoded, Same;
    var i, form := opcode / 8, opcode % 8;
    var d0 := Blank(c).(aux := i);
    ReadyAux(c, i);
    SetWbSays(d0, i != 7);
    var w := c.Size(form % 2 == 0);
    SizeIs(c);
    var op := if form == 0 then AluRmR8 else if form == 1 then AluRmRW else if form == 2 then AluRRm8
              else if form == 3 then AluRRmW else if form == 4 then AluAccImm8 else AluAccImmW;
    ReadyOp(c, d0.SetWb(i != 7), op);
    var d := d0.SetWb(i != 7).(op := op);
    SameAsItself(AluForm(hw, c, s, opcode));
    if form < 4 {
      var r := WithModRm(hw, c, s, d, NoImm);
      if r.Ok? {
        Executes(hw, c, r.s, r.v);
        if form < 2 {
          AluRmRSame(hw, c, s, d, w);
        } else {
          AluRRmSame(hw, c, s, d, w);
        }
      }
    } else {
      AluAccSame(hw, c, s, d, form);
    }
  }

  lemma AluAccSame<F, M>(hw: Hardware<F, M>, c: Context, s: S<F, M>, d: Insn, form: nat)
    requires (form == 4 && d.op == AluAccImm8) || (form == 5 && d.op == AluAccImmW)
    ensures var k := if form == 4 then Byte else Full;
            var r, i := WithImm(hw, c, s, d, k), FetchImm(hw, c, s, k);
            r.Ok? ==> (i.Ok? && ExecDecoded(hw, c, r.s, r.v) ==
                                AluAcc(hw, i.s, c.Size(form % 2 == 0), d.aux, d.Wb(), i.v))
  {
    hide Insn.Wb, FetchImm, AluAcc, Context.Size, ExecDecoded;
    SizeIs(c);
    var k := if form == 4 then Byte else Full;
    var r := WithImm(hw, c, s, d, k);
    WithImmWb(d, FetchImm(hw, c, s, k));
    if r.Ok? {
      Executes(hw, c, r.s, r.v);
    }
  }

  lemma WithImmWb<F, M>(d: Insn, i: Out<F, M, u32>)
    ensures i.Ok? ==> d.(imm := i.v).Wb() == d.Wb()
  {
  }

  lemma SizeIs(c: Context)
    ensures c.Size(true) == W8
  {
  }

  lemma ReadyAux(c: Context, aux: nat)
    requires Encodable(c)
    ensures Clean(Blank(c).(aux := aux), c) && !Blank(c).(aux := aux).Wb()
    ensures forall wb :: Clean(Blank(c).(aux := aux).SetWb(wb), c)
  {
    BlankSays(c);
  }

  lemma ReadyOp(c: Context, d: Insn, op: Op)
    requires Clean(d, c)
    ensures Clean(d.(op := op), c) && d.(op := op).Wb() == d.Wb()
  {
  }

  /** Register forms and RET: nothing more to fetch. */
  lemma ShortOpcode<F, M>(hw: Hardware<F, M>, c: Context, s: S<F, M>, opcode: u8)
    requires 0x40 <= opcode < 0x60 || 0x90 <= opcode < 0x98 || opcode == 0xC3
    ensures Agrees(hw, c, DecodeOp(hw, c, s, opcode), Dispatch(hw, c, s, opcode))
  {
    hide Blank, Context.Size, IncDecReg, PushReg, PopReg, XchgAcc, RetNear;
    SameAsItself(Dispatch(hw, c, s, opcode));
  }

  /** Immediate and relative forms: PUSH, Jcc, MOV r, RET n, CALL and JMP. */
  lemma ImmediateOpcode<F, M>(hw: Hardware<F, M>, c: Context, s: S<F, M>, opcode: u8)
    requires opcode in {0x68, 0x6A, 0xC2, 0xE8, 0xE9, 0xEB} || 0x70 <= opcode < 0x80 || 0xB0 <= opcode < 0xC0
    ensures Agrees(hw, c, DecodeOp(hw, c, s, opcode), Dispatch(hw, c, s, opcode))
  {
    hide Blank, Context.Size, PushValue, Jcc, JmpRel, CallRel, Ret, AluAcc, FetchImm, Insn.Wb, Put, ExecDecoded, Same;
    SizeIs(c);
    SameAsItself(Dispatch(hw, c, s, opcode));
    var r := DecodeOp(hw, c, s, opcode);
    if r.Ok? {
      ExecutesFlow(hw, c, r.s, r.v.d);
    }
  }

  lemma AccumulatorOpcode<F, M>(hw: Hardware<F, M>, c: Context, s: S<F, M>, opcode: u8)
    requires Encodable(c) && (opcode == 0xA8 || opcode == 0xA9)
    ensures Agrees(hw, c, DecodeOp(hw, c, s, opcode), Dispatch(hw, c, s, opcode))
  {
    hide Blank, Context.Size, AluAcc, FetchImm, Insn.Wb, Encodable, ExecDecoded, Same;
    SizeIs(c);
    BlankReg(c);
    SameAsItself(Dispatch(hw, c, s, opcode));
    var op, k := if opcode == 0xA8 then AluAccImm8 else AluAccImmW, if opcode == 0xA8 then Byte else Full;
    Ready(c, op, 4, 0);
    WithImmWb(Blank(c).(op := op, aux := 4), FetchImm(hw, c, s, k));
    var r := DecodeOp(hw, c, s, opcode);
    if r.Ok? {
      Executes(hw, c, r.s, r.v.d);
    }
  }

  lemma BlankReg(c: Context)
    ensures Blank(c).reg == 0
  {
  }

  /** TEST and XCHG with an operand. */
  lemma TestOpcode<F, M>(hw: Hardware<F, M>, c: Context, s: S<F, M>, opcode: u8)
    requires Encodable(c) && 0x84 <= opcode <= 0x87
    ensures Agrees(hw, c, DecodeOp(hw, c, s, opcode), Dispatch(hw, c, s, opcode))
  {
    hide Blank, Context.Size, WithModRm, Insn.Wb, Encodable, Clean, AluRmR, Xchg, ExecAlu, ExecXchg, ExecDecoded, Same;
    SizeIs(c);
    BlankReg(c);
    SameAsItself(Dispatch(hw, c, s, opcode));
    var w := c.Size(opcode % 2 == 0);
    var op := if opcode == 0x84 then AluRmR8 else if opcode == 0x85 then AluRmRW
              else if opcode == 0x86 then XchgRm8 else XchgRmW;
    var aux := if opcode < 0x86 then 4 else 0;
    Ready(c, op, aux, 0);
    var d := if opcode < 0x86 then Blank(c).(op := op, aux := 4) else Blank(c).(op := op);
    var r := WithModRm(hw, c, s, d, NoImm);
    if r.Ok? {
      Executes(hw, c, r.s, r.v);
      ExecutesMore(hw, c, r.s, r.v);
      if opcode < 0x86 {
        AluRmRSame(hw, c, s, d, w);
      } else {
        XchgSame(hw, c, s, d, w);
      }
    }
  }

  lemma MoveOpcode<F, M>(hw: Hardware<F, M>, c: Context, s: S<F, M>, opcode: u8)
    requires Encodable(c) && 0x88 <= opcode <= 0x8B
    ensures Agrees(hw, c, DecodeOp(hw, c, s, opcode), Dispatch(hw, c, s, opcode))
  {
    hide Blank, Context.Size, WithModRm, Insn.Wb, Encodable, Clean, MovRm, LoadRm, ExecStore, ExecLoad, ExecDecoded,
      Same, Reg;
    SizeIs(c);
    SameAsItself(Dispatch(hw, c, s, opcode));
    var w := c.Size(opcode % 2 == 0);
    var op := if opcode == 0x88 then MovRmR8 else if opcode == 0x89 then MovRmRW
              else if opcode == 0x8A then MovRRm8 else MovRRmW;
    Ready(c, op, 0, 0);
    var d := Blank(c).(op := op);
    var r := WithModRm(hw, c, s, d, NoImm);
    if r.Ok? {
      Executes(hw, c, r.s, r.v);
      if opcode < 0x8A {
        MovRmSame(hw, c, s, d, w);
      } else {
        LoadSame(hw, c, s, d, w, w, false, 4, 2);
      }
    }
  }

  lemma LeaOpcode<F, M>(hw: Hardware<F, M>, c: Context, s: S<F, M>)
    requires Encodable(c)
    ensures Agrees(hw, c, DecodeOp(hw, c, s, 0x8D), Dispatch(hw, c, s, 0x8D))
  {
    hide Blank, Encodable, Lea, DecodeLea, ExecDecoded, Same;
    SameAsItself(Lea(hw, c, s));
    if DecodeLea(hw, c, s).Ok? {
      LeaSame(hw, c, s);
    }
  }

  lemma ImulImmOpcode<F, M>(hw: Hardware<F, M>, c: Context, s: S<F, M>, opcode: u8)
    requires Encodable(c) && (opcode == 0x69 || opcode == 0x6B)
    ensures Agrees(hw, c, DecodeOp(hw, c, s, opcode), Dispatch(hw, c, s, opcode))
  {
    hide Blank, WithModRm, Encodable, Clean, ImulImm, ExecImul, ExecDecoded, Same, Insn.Wb;
    var k := if opcode == 0x69 then Full else SignedByte;
    Ready(c, ImulRmImm, 0, 0);
    var d := Blank(c).(op := ImulRmImm);
    var r := WithModRm(hw, c, s, d, k);
    if r.Ok? {
      ExecutesMore(hw, c, r.s, r.v);
      ImulImmSame(hw, c, s, d, k);
    }
  }

  lemma AluGrpOpcode<F, M>(hw: Hardware<F, M>, c: Context, s: S<F, M>, opcode: u8)
    requires Encodable(c) && 0x80 <= opcode < 0x84
    ensures Agrees(hw, c, DecodeOp(hw, c, s, opcode), Dispatch(hw, c, s, opcode))
  {
    hide Blank, Context.Size, Insn.Wb, Encodable, Clean, AluGrp, DecodeAluGrp, ExecAluGrp, ExecDecoded, Same;
    SizeIs(c);
    var op := if opcode % 2 == 0 then AluGrpImm8 else AluGrpImmW;
    var k := if opcode == 0x81 then Full else if opcode == 0x83 then SignedByte else Byte;
    Ready(c, op, 0, 0);
    var d := Blank(c).(op := op);
    var r := DecodeAluGrp(hw, c, s, d, k);
    if r.Ok? {
      Executes(hw, c, r.s, r.v);
      AluGrpSame(hw, c, s, d, c.Size(opcode % 2 == 0), k);
    }
  }

  lemma MovImmOpcode<F, M>(hw: Hardware<F, M>, c: Context, s: S<F, M>, opcode: u8)
    requires Encodable(c) && (opcode == 0xC6 || opcode == 0xC7)
    ensures Agrees(hw, c, DecodeOp(hw, c, s, opcode), Dispatch(hw, c, s, opcode))
  {
    hide Blank, Context.Size, Insn.Wb, Encodable, Clean, MovImm, DecodeMovImm, ExecStore, ExecDecoded, Same;
    SizeIs(c);
    SameAsItself(Dispatch(hw, c, s, opcode));
    var op, k := if opcode == 0xC6 then MovRmImm8 else MovRmImmW, if opcode == 0xC6 then Byte else Full;
    Ready(c, op, 0, 0);
    var d := Blank(c).(op := op);
    var r := DecodeMovImm(hw, c, s, d, k);
    if r.Ok? {
      Executes(hw, c, r.s, r.v);
      MovImmSame(hw, c, s, d, c.Size(opcode % 2 == 0), k);
    }
  }

  lemma GroupOpcode<F, M>(hw: Hardware<F, M>, c: Context, s: S<F, M>, opcode: u8)
    requires Encodable(c) && (opcode == 0xFE || opcode == 0xFF)
    ensures Agrees(hw, c, DecodeOp(hw, c, s, opcode), Dispatch(hw, c, s, opcode))
  {
    hide Blank, Context.Size, Encodable, GroupRm, DecodeGroupFE, DecodeGroupFF, ExecDecoded, Same;
    SizeIs(c);
    SameAsItself(Dispatch(hw, c, s, opcode));
    if opcode == 0xFE {
      if DecodeGroupFE(hw, c, s).Ok? {
        GroupFESame(hw, c, s);
      }
    } else if DecodeGroupFF(hw, c, s).Ok? && DecodeGroupFF(hw, c, s).v.Hot? {
      GroupFFSame(hw, c, s);
    }
  }

  lemma ShiftOpcode<F, M>(hw: Hardware<F, M>, c: Context, s: S<F, M>, opcode: u8)
    requires Encodable(c) && opcode in {0xC0, 0xC1, 0xD0, 0xD1, 0xD2, 0xD3}
    ensures Agrees(hw, c, DecodeOp(hw, c, s, opcode), Dispatch(hw, c, s, opcode))
  {
    hide Blank, Context.Size, Insn.Wb, Encodable, Clean, ShiftGrp, DecodeShift, ExecShift, Same, Reg, ExecDecoded;
    SizeIs(c);
    var form := if opcode < 0xD0 then 0 else if opcode < 0xD2 then 1 else 2;
    var op := if opcode % 2 == 0 then ShiftRm8 else ShiftRmW;
    Ready(c, op, 0, 0);
    var d := Blank(c).(op := op);
    var r := DecodeShift(hw, c, s, d, form);
    if r.Ok? {
      ExecutesMore(hw, c, r.s, r.v);
      ShiftSame(hw, c, s, d, c.Size(opcode % 2 == 0), form);
    }
  }

  /** The two-byte opcodes with an operand. */
  lemma TwoByteOperand<F, M>(hw: Hardware<F, M>, c: Context, s: S<F, M>, op2: u8)
    requires Encodable(c)
    requires op2 in {0xAF, 0xB6, 0xB7, 0xBE, 0xBF} || 0x90 <= op2 < 0xA0 || (0x40 <= op2 < 0x50 && c.extensions)
    ensures Agrees(hw, c, Decode0F(hw, c, s, op2), Dispatch0F(hw, c, s, op2))
  {
    hide Blank, Context.Size, WithModRm, Insn.Wb, Encodable, Clean, Setcc, Cmov, ImulRm, LoadRm, ExecStore,
      ExecLoad, ExecImul, ExecCmov, ExecDecoded, Same;
    BlankReg(c);
    SameAsItself(Dispatch0F(hw, c, s, op2));
    var op := if op2 < 0x50 then CmovW else if op2 < 0xA0 then SetccRm else if op2 == 0xAF then ImulRRmW
              else if op2 == 0xB6 then MovzxB else if op2 == 0xB7 then MovzxW
              else if op2 == 0xBE then MovsxB else MovsxW;
    var aux := if op2 < 0xA0 then op2 % 16 else 0;
    Ready(c, op, aux, 0);
    var d := if op2 < 0xA0 then Blank(c).(op := op, aux := op2 % 16) else Blank(c).(op := op);
    var r := WithModRm(hw, c, s, d, NoImm);
    if r.Ok? {
      ExecutesMore(hw, c, r.s, r.v);
      ExecutesExtended(hw, c, r.s, r.v);
      if op2 < 0x50 {
        CmovSame(hw, c, s, d);
      } else if op2 < 0xA0 {
        SetccSame(hw, c, s, d);
      } else if op2 == 0xAF {
        ImulRmSame(hw, c, s, d);
      } else {
        LoadSame(hw, c, s, d, if op2 % 2 == 0 then W8 else W16, c.Size(false), op2 >= 0xBE, 6, 3);
      }
    }
  }

  lemma TwoByteOpcode<F, M>(hw: Hardware<F, M>, c: Context, s: S<F, M>, op2: u8)
    requires Encodable(c)
    ensures Agrees(hw, c, Decode0F(hw, c, s, op2), Dispatch0F(hw, c, s, op2))
    ensures Decode0F(hw, c, s, op2).Ok? && !Decode0F(hw, c, s, op2).v.Hot? ==>
              Decode0F(hw, c, s, op2) == Ok(s, Cold0F(op2))
  {
    hide Blank, WithModRm, Encodable, Jcc, Setcc, Cmov, ImulRm, LoadRm, FetchImm, ExecDecoded, Same;
    if op2 in {0xAF, 0xB6, 0xB7, 0xBE, 0xBF} || 0x90 <= op2 < 0xA0 || (0x40 <= op2 < 0x50 && c.extensions) {
      TwoByteOperand(hw, c, s, op2);
    } else if 0x80 <= op2 < 0x90 {
      SameAsItself(Dispatch0F(hw, c, s, op2));
      var r := Decode0F(hw, c, s, op2);
      if r.Ok? {
        ExecutesFlow(hw, c, r.s, r.v.d);
      }
    }
  }

  /** One-byte opcodes below 80. */
  lemma LowOpcode<F, M>(hw: Hardware<F, M>, c: Context, s: S<F, M>, opcode: u8)
    requires Encodable(c) && opcode < 0x80
    ensures Agrees(hw, c, DecodeOp(hw, c, s, opcode), Dispatch(hw, c, s, opcode))
  {
    hide DecodeAlu, AluForm, Decode0F, Dispatch0F, Fetch8, ExecDecoded, Same, Encodable, Blank;
    if opcode < 0x40 && opcode % 8 < 6 {
      AluOpcode(hw, c, s, opcode);
    } else if opcode == 0x0F {
      if Fetch8(hw, s).Ok? {
        TwoByteOpcode(hw, c, Fetch8(hw, s).s, Fetch8(hw, s).v);
      }
    } else if 0x40 <= opcode < 0x60 {
      ShortOpcode(hw, c, s, opcode);
    } else if opcode == 0x69 || opcode == 0x6B {
      ImulImmOpcode(hw, c, s, opcode);
    } else if opcode == 0x68 || opcode == 0x6A || 0x70 <= opcode {
      ImmediateOpcode(hw, c, s, opcode);
    }
  }

  lemma MiddleOpcode<F, M>(hw: Hardware<F, M>, c: Context, s: S<F, M>, opcode: u8)
    requires Encodable(c) && 0x80 <= opcode < 0xC0
    ensures Agrees(hw, c, DecodeOp(hw, c, s, opcode), Dispatch(hw, c, s, opcode))
  {
    hide ExecDecoded, Same, Encodable, Blank, Dispatch;
    if opcode < 0x84 {
      AluGrpOpcode(hw, c, s, opcode);
    } else if opcode < 0x88 {
      TestOpcode(hw, c, s, opcode);
    } else if opcode < 0x8C {
      MoveOpcode(hw, c, s, opcode);
    } else if opcode == 0x8D {
      LeaOpcode(hw, c, s);
    } else if 0x90 <= opcode < 0x98 {
      ShortOpcode(hw, c, s, opcode);
    } else if opcode == 0xA8 || opcode == 0xA9 {
      AccumulatorOpcode(hw, c, s, opcode);
    } else if 0xB0 <= opcode {
      ImmediateOpcode(hw, c, s, opcode);
    }
  }

  lemma HighOpcode<F, M>(hw: Hardware<F, M>, c: Context, s: S<F, M>, opcode: u8)
    requires Encodable(c) && 0xC0 <= opcode
    ensures Agrees(hw, c, DecodeOp(hw, c, s, opcode), Dispatch(hw, c, s, opcode))
  {
    hide ExecDecoded, Same, Encodable, Blank, Dispatch;
    if opcode in {0xC0, 0xC1, 0xD0, 0xD1, 0xD2, 0xD3} {
      ShiftOpcode(hw, c, s, opcode);
    } else if opcode == 0xC3 {
      ShortOpcode(hw, c, s, opcode);
    } else if opcode in {0xC2, 0xE8, 0xE9, 0xEB} {
      ImmediateOpcode(hw, c, s, opcode);
    } else if opcode == 0xC6 || opcode == 0xC7 {
      MovImmOpcode(hw, c, s, opcode);
    } else if opcode == 0xFE || opcode == 0xFF {
      GroupOpcode(hw, c, s, opcode);
    }
  }

  lemma EveryOpcode<F, M>(hw: Hardware<F, M>, c: Context, s: S<F, M>, opcode: u8)
    requires Encodable(c)
    ensures Agrees(hw, c, DecodeOp(hw, c, s, opcode), Dispatch(hw, c, s, opcode))
  {
    hide DecodeOp, Dispatch, Agrees;
    if opcode < 0x80 {
      LowOpcode(hw, c, s, opcode);
    } else if opcode < 0xC0 {
      MiddleOpcode(hw, c, s, opcode);
    } else {
      HighOpcode(hw, c, s, opcode);
    }
  }

  // --- The decoder leaves the machine alone ----------------------------------------------------------------------

  /** The prefix state is packed, and no prefix count yet. */
  ghost predicate Primed(d: Insn, c: Context) {
    d.Npfx() == 0 && d.Osize32() == c.osize32 && d.Asize32() == c.asize32 && d.SegOverride() == c.segOverride
  }

  lemma PrimedAlso(d: Insn, c: Context, op: Op, aux: nat, r: reg, imm: u32, wb: bool)
    requires Primed(d, c)
    ensures Primed(d.(imm := imm), c) && Primed(d.(op := op), c) && Primed(d.(aux := aux), c) && Primed(d.SetWb(wb), c)
    ensures Primed(d.(op := op, aux := aux), c) && Primed(d.(op := op, reg := r), c) &&
            Primed(d.(aux := aux, imm := imm), c)
  {
    hide Primed, Insn.SetWb;
    PrimedOnPacked(d, d.(imm := imm), c);
    PrimedOnPacked(d, d.(op := op), c);
    PrimedOnPacked(d, d.(aux := aux), c);
    PrimedOnPacked(d, d.(op := op, aux := aux), c);
    PrimedOnPacked(d, d.(op := op, reg := r), c);
    PrimedOnPacked(d, d.(aux := aux, imm := imm), c);
    PrimedWb(d, c, wb);
  }

  lemma PrimedOnPacked(d: Insn, e: Insn, c: Context)
    requires Primed(d, c) && e.flags == d.flags && e.segscale == d.segscale
    ensures Primed(e, c)
  {
  }

  lemma PrimedWb(d: Insn, c: Context, wb: bool)
    requires Primed(d, c)
    ensures Primed(d.SetWb(wb), c)
  {
    hide Insn.SetWb, Insn.Npfx, Insn.Osize32, Insn.Asize32, Insn.SegOverride;
    SetWbSays(d, wb);
  }

  lemma BlankPrimed(c: Context)
    requires Encodable(c)
    ensures Primed(Blank(c), c)
  {
    BlankSays(c);
  }

  /** What every step of the decoder keeps: the machine, and the packed prefix state. */
  ghost predicate Steady<F, M>(c: Context, s: S<F, M>, o: Out<F, M, Insn>) {
    Kept(s, o.s) && (o.Ok? ==> Primed(o.v, c))
  }

  ghost predicate Settled<F, M>(c: Context, s: S<F, M>, o: Out<F, M, Decoded>) {
    Kept(s, o.s) && (o.Ok? && o.v.Hot? ==> Primed(o.v.d, c))
  }

  lemma ModRmKept<F, M>(hw: Hardware<F, M>, c: Context, s: S<F, M>, d: Insn)
    requires Encodable(c) && Clean(d, c)
    ensures Steady(c, s, DecodeModRm(hw, c, s, d))
  {
    hide DecodeModRm, ModRm, Fetch8, Fetch16, Fetch32, Disp, EaOperand;
    ModRmAgrees(hw, c, s, d);
    ResolveKept(hw, c, s);
  }

  lemma ResolveKept<F, M>(hw: Hardware<F, M>, c: Context, s: S<F, M>)
    ensures Kept(s, ModRm(hw, c, s).s)
  {
    hide Fetch8, Ea16, Ea32;
    Fetched8(hw, s);
    if Fetch8(hw, s).Ok? {
      EaKept(hw, c, Fetch8(hw, s).s, Fetch8(hw, s).v);
    }
  }

  lemma EaKept<F, M>(hw: Hardware<F, M>, c: Context, s: S<F, M>, m: u8)
    ensures Kept(s, Ea16(hw, c, s, m).s) && Kept(s, Ea32(hw, c, s, m).s)
  {
    hide Fetch8, Fetch16, Fetch32, Disp, Sib, Wrap, Low16, Context.Seg;
    Fetched16(hw, s);
    Fetched32(hw, s);
    FetchedDisp(hw, s, Md(m), false);
    FetchedDisp(hw, s, Md(m), true);
    SibKept(hw, s, m);
    FetchedDisp(hw, Sib(hw, s, m).s, Md(m), true);
  }

  lemma SibKept<F, M>(hw: Hardware<F, M>, s: S<F, M>, m: u8)
    ensures Kept(s, Sib(hw, s, m).s)
  {
    hide Fetch8, Fetch32, Wrap, Scaled;
    Fetched8(hw, s);
    Fetched32(hw, Fetch8(hw, s).s);
  }

  lemma OperandKept<F, M>(hw: Hardware<F, M>, c: Context, s: S<F, M>, d: Insn, k: ImmKind, form: nat)
    requires Encodable(c) && Clean(d, c)
    ensures Steady(c, s, WithModRm(hw, c, s, d, k)) && Steady(c, s, DecodeAluGrp(hw, c, s, d, k))
    ensures Steady(c, s, DecodeMovImm(hw, c, s, d, k)) && Steady(c, s, DecodeShift(hw, c, s, d, form))
  {
    hide DecodeModRm, FetchImm, Clean, Insn.SetWb, Primed;
    ModRmKept(hw, c, s, d);
    var r := DecodeModRm(hw, c, s, d);
    FetchedImm(hw, c, r.s, k);
    FetchedImm(hw, c, r.s, Byte);
    if r.Ok? {
      var e := r.v;
      var i, b := FetchImm(hw, c, r.s, k), FetchImm(hw, c, r.s, Byte);
      PrimedAlso(e, c, e.op, e.reg, 0, if i.Ok? then i.v else 0, e.reg != 7);
      PrimedAlso(e, c, e.op, e.reg, 0, if b.Ok? then b.v else 0, false);
      PrimedAlso(e, c, e.op, e.reg, 0, 1, false);
      PrimedAlso(e, c, e.op, e.reg + 0x80, 0, 1, false);
      PrimedAlso(e.(aux := e.reg), c, e.op, 0, 0, 0, e.reg != 7);
      PrimedAlso(e.(aux := e.reg).SetWb(e.reg != 7), c, e.op, 0, 0, if i.Ok? then i.v else 0, false);
    }
  }

  lemma ImmKept<F, M>(hw: Hardware<F, M>, c: Context, s: S<F, M>, d: Insn, k: ImmKind)
    requires Primed(d, c)
    ensures Steady(c, s, WithImm(hw, c, s, d, k))
  {
    hide FetchImm, Primed;
    FetchedImm(hw, c, s, k);
    var i := FetchImm(hw, c, s, k);
    PrimedAlso(d, c, d.op, 0, 0, if i.Ok? then i.v else 0, false);
  }

  lemma SpecialKept<F, M>(hw: Hardware<F, M>, c: Context, s: S<F, M>)
    requires Encodable(c)
    ensures Steady(c, s, DecodeLea(hw, c, s)) && Steady(c, s, DecodeGroupFE(hw, c, s))
    ensures Settled(c, s, DecodeGroupFF(hw, c, s))
  {
    hide DecodeModRm, Clean, Blank, Encodable, Insn.Kind, Primed;
    Ready(c, LeaM, 0, 0);
    Ready(c, IncDecRm8, 0, 0);
    ModRmKept(hw, c, s, Blank(c).(op := LeaM));
    ModRmKept(hw, c, s, Blank(c).(op := IncDecRm8));
    ModRmKept(hw, c, s, Blank(c));
    var fe, ff := DecodeModRm(hw, c, s, Blank(c).(op := IncDecRm8)), DecodeModRm(hw, c, s, Blank(c));
    if fe.Ok? {
      PrimedAlso(fe.v, c, RetPlain, fe.v.reg, 0, 0, false);
    }
    if ff.Ok? {
      PrimedAlso(ff.v, c, if ff.v.reg <= 1 then IncDecRmW else if ff.v.reg == 2 then CallRm
                          else if ff.v.reg == 4 then JmpRm else PushRm, ff.v.reg, 0, 0, false);
    }
  }

  /** Decoding reads no register and writes nothing but EIP and the length count. */
  lemma DecodeKept<F, M>(hw: Hardware<F, M>, c: Context, s: S<F, M>, opcode: u8)
    requires Encodable(c)
    ensures Settled(c, s, DecodeOp(hw, c, s, opcode))
  {
    hide DecodeAlu, WithModRm, WithImm, DecodeAluGrp, DecodeMovImm, DecodeShift, DecodeLea, DecodeGroupFE,
      DecodeGroupFF,
      Decode0F, Fetch8, Blank, Encodable, Clean;
    if opcode < 0x80 {
      LowKept(hw, c, s, opcode);
    } else if opcode < 0xC0 {
      MiddleKept(hw, c, s, opcode);
    } else {
      HighKept(hw, c, s, opcode);
    }
  }

  lemma MiddleKept<F, M>(hw: Hardware<F, M>, c: Context, s: S<F, M>, opcode: u8)
    requires Encodable(c) && 0x80 <= opcode < 0xC0
    ensures Settled(c, s, DecodeOp(hw, c, s, opcode))
  {
    hide WithImm, DecodeAluGrp, DecodeLea, Blank, Encodable, Clean, Primed;
    BlankPrimed(c);
    if opcode < 0x84 {
      var op := if opcode % 2 == 0 then AluGrpImm8 else AluGrpImmW;
      Ready(c, op, 0, 0);
      OperandKept(hw, c, s, Blank(c).(op := op),
                  if opcode == 0x81 then Full else if opcode == 0x83 then SignedByte else Byte, 0);
    } else if opcode < 0x8C {
      PlainOperandKept(hw, c, s, opcode);
    } else if opcode == 0x8D {
      SpecialKept(hw, c, s);
    } else if opcode < 0x98 {
      PrimedAlso(Blank(c), c, XchgA, 0, opcode % 8, 0, false);
    } else if opcode == 0xA8 || opcode == 0xA9 {
      var op := if opcode == 0xA8 then AluAccImm8 else AluAccImmW;
      PrimedAlso(Blank(c), c, op, 4, 0, 0, false);
      ImmKept(hw, c, s, Blank(c).(op := op, aux := 4), if opcode == 0xA8 then Byte else Full);
    } else if 0xB0 <= opcode {
      var op := if opcode < 0xB8 then MovRegImm8 else MovRegImmW;
      PrimedAlso(Blank(c), c, op, 0, opcode % 8, 0, false);
      ImmKept(hw, c, s, Blank(c).(op := op, reg := opcode % 8), if opcode < 0xB8 then Byte else Full);
    }
  }

  lemma PlainOperandKept<F, M>(hw: Hardware<F, M>, c: Context, s: S<F, M>, opcode: u8)
    requires Encodable(c) && 0x84 <= opcode < 0x8C
    ensures Settled(c, s, DecodeOp(hw, c, s, opcode))
  {
    hide WithModRm, Blank, Encodable, Clean, Primed;
    if opcode < 0x86 {
      var op := if opcode == 0x84 then AluRmR8 else AluRmRW;
      BlankReg(c);
      Ready(c, op, 4, 0);
      OperandKept(hw, c, s, Blank(c).(op := op, aux := 4), NoImm, 0);
    } else {
      var op := if opcode == 0x86 then XchgRm8 else if opcode == 0x87 then XchgRmW else if opcode == 0x88 then MovRmR8
                else if opcode == 0x89 then MovRmRW else if opcode == 0x8A then MovRRm8 else MovRRmW;
      Ready(c, op, 0, 0);
      OperandKept(hw, c, s, Blank(c).(op := op), NoImm, 0);
    }
  }

  lemma HighKept<F, M>(hw: Hardware<F, M>, c: Context, s: S<F, M>, opcode: u8)
    requires Encodable(c) && 0xC0 <= opcode
    ensures Settled(c, s, DecodeOp(hw, c, s, opcode))
  {
    hide WithImm, DecodeMovImm, DecodeShift, DecodeGroupFE, DecodeGroupFF, Blank, Encodable, Clean, Primed;
    BlankPrimed(c);
    PrimedAlso(Blank(c), c, if opcode == 0xC2 then RetImm else if opcode == 0xE8 then CallNear
                            else if opcode == 0xC3 then RetPlain else JmpShort, 0, 0, 0, false);
    SpecialKept(hw, c, s);
    if opcode in {0xC0, 0xC1, 0xD0, 0xD1, 0xD2, 0xD3} {
      var op := if opcode % 2 == 0 then ShiftRm8 else ShiftRmW;
      Ready(c, op, 0, 0);
      OperandKept(hw, c, s, Blank(c).(op := op), NoImm, if opcode < 0xD0 then 0 else if opcode < 0xD2 then 1 else 2);
    } else if opcode == 0xC6 || opcode == 0xC7 {
      var op := if opcode == 0xC6 then MovRmImm8 else MovRmImmW;
      Ready(c, op, 0, 0);
      OperandKept(hw, c, s, Blank(c).(op := op), if opcode == 0xC6 then Byte else Full, 0);
    } else if opcode in {0xC2, 0xE8, 0xE9, 0xEB} {
      var op := if opcode == 0xC2 then RetImm else if opcode == 0xE8 then CallNear else JmpShort;
      ImmKept(hw, c, s, Blank(c).(op := op),
              if opcode == 0xC2 then Word else if opcode == 0xEB then SignedByte else Relative);
    }
  }

  lemma LowKept<F, M>(hw: Hardware<F, M>, c: Context, s: S<F, M>, opcode: u8)
    requires Encodable(c) && opcode < 0x80
    ensures Settled(c, s, DecodeOp(hw, c, s, opcode))
  {
    hide DecodeAlu, WithModRm, WithImm, Decode0F, Fetch8, Blank, Encodable, Clean, Primed;
    BlankPrimed(c);
    PrimedAlso(Blank(c), c, if opcode < 0x48 then IncR else if opcode < 0x50 then DecR
                            else if opcode < 0x58 then PushR else PopR, 0, opcode % 8, 0, false);
    PrimedAlso(Blank(c), c, JccRel, opcode % 16, 0, 0, false);
    PrimedAlso(Blank(c), c, PushI, 0, 0, 0, false);
    Fetched8(hw, s);
    if opcode < 0x40 && opcode % 8 < 6 {
      AluKept(hw, c, s, opcode);
    } else if opcode == 0x0F {
      if Fetch8(hw, s).Ok? {
        Decode0FKept(hw, c, Fetch8(hw, s).s, Fetch8(hw, s).v);
      }
    } else if opcode == 0x69 || opcode == 0x6B {
      Ready(c, ImulRmImm, 0, 0);
      OperandKept(hw, c, s, Blank(c).(op := ImulRmImm), if opcode == 0x69 then Full else SignedByte, 0);
    } else if 0x60 <= opcode {
      var d := if 0x70 <= opcode then Blank(c).(op := JccRel, aux := opcode % 16) else Blank(c).(op := PushI);
      ImmKept(hw, c, s, d, if opcode == 0x68 then Full else SignedByte);
    }
  }

  lemma AluKept<F, M>(hw: Hardware<F, M>, c: Context, s: S<F, M>, opcode: u8)
    requires Encodable(c) && opcode < 0x40 && opcode % 8 < 6
    ensures Steady(c, s, DecodeAlu(hw, c, s, opcode))
  {
    hide WithModRm, WithImm, Blank, Encodable, Clean, Primed, Insn.SetWb;
    BlankPrimed(c);
    PrimedAlso(Blank(c), c, RetPlain, opcode / 8, 0, 0, false);
    PrimedAlso(Blank(c).(aux := opcode / 8), c, RetPlain, 0, 0, 0, opcode / 8 != 7);
    var aux, form := opcode / 8, opcode % 8;
    var op := if form == 0 then AluRmR8 else if form == 1 then AluRmRW else if form == 2 then AluRRm8
              else if form == 3 then AluRRmW else if form == 4 then AluAccImm8 else AluAccImmW;
    ReadyAux(c, aux);
    ReadyOp(c, Blank(c).(aux := aux).SetWb(aux != 7), op);
    var d := Blank(c).(aux := aux).SetWb(aux != 7).(op := op);
    PrimedAlso(Blank(c).(aux := aux).SetWb(aux != 7), c, op, 0, 0, 0, false);
    if form < 4 {
      OperandKept(hw, c, s, d, NoImm, 0);
    } else {
      ImmKept(hw, c, s, d, if form == 4 then Byte else Full);
    }
  }

  lemma Decode0FKept<F, M>(hw: Hardware<F, M>, c: Context, s: S<F, M>, op2: u8)
    requires Encodable(c)
    ensures Settled(c, s, Decode0F(hw, c, s, op2))
  {
    hide WithModRm, WithImm, Blank, Encodable, Clean, Primed;
    BlankPrimed(c);
    PrimedAlso(Blank(c), c, JccRel, op2 % 16, 0, 0, false);
    BlankReg(c);
    var op := if op2 < 0x50 then CmovW else if op2 < 0xA0 then SetccRm else if op2 == 0xAF then ImulRRmW
              else if op2 == 0xB6 then MovzxB else if op2 == 0xB7 then MovzxW
              else if op2 == 0xBE then MovsxB else MovsxW;
    Ready(c, op, if op2 < 0xA0 then op2 % 16 else 0, 0);
    OperandKept(hw, c, s, Blank(c).(op := op), NoImm, 0);
    OperandKept(hw, c, s, Blank(c).(op := op, aux := if op2 < 0xA0 then op2 % 16 else 0), NoImm, 0);
    ImmKept(hw, c, s, Blank(c).(op := JccRel, aux := op2 % 16), Relative);
  }

  // --- The whole path ---------------------------------------------------------------------------------------------

  /** The step's path for an instruction without LOCK or REP: decode and execute what is hot, interpret the
      rest directly. */
  function Decoupled<F, M>(hw: Hardware<F, M>, c: Context, s: S<F, M>, opcode: u8, npfx: nat): Out<F, M, nat> {
    match TryDecode(hw, c, s, opcode, npfx)
    case (s1, Hot(d)) => ExecDecoded(hw, c, s1, d)
    case (s1, Cold0F(op2)) => Dispatch0F(hw, c, s1, op2)
    case (s1, Cold) => Dispatch(hw, c, s1, opcode)
  }

  /** A failed or cold decode leaves EIP, the length count and everything else at the post-opcode position; a
      cold two-byte opcode has consumed exactly its second byte. */
  lemma DecodeRewinds<F, M>(hw: Hardware<F, M>, c: Context, s: S<F, M>, opcode: u8, npfx: nat)
    requires Encodable(c)
    ensures var r := TryDecode(hw, c, s, opcode, npfx);
            && (r.1 == Cold ==> r.0 == s)
            && (r.1.Cold0F? ==> opcode == 0x0F && Fetch8(hw, s) == Ok(r.0, r.1.op2))
  {
    hide DecodeOp, Kept, Encodable, PrefixBits, Fetch8;
    DecodeKept(hw, c, s, opcode);
    KeptIs(s, DecodeOp(hw, c, s, opcode).s);
    ColdOnlyAfter0F(hw, c, s, opcode);
  }

  lemma KeptIs<F, M>(s: S<F, M>, t: S<F, M>)
    requires Kept(s, t)
    ensures s.(flags := t.flags, mem := t.mem, gpr := t.gpr) == s
  {
  }

  lemma ColdOnlyAfter0F<F, M>(hw: Hardware<F, M>, c: Context, s: S<F, M>, opcode: u8)
    ensures var r := DecodeOp(hw, c, s, opcode);
            r.Ok? && r.v.Cold0F? ==> opcode == 0x0F && Fetch8(hw, s) == Ok(r.s, r.v.op2)
  {
    hide Fetch8, WithModRm, WithImm, DecodeAlu, DecodeAluGrp, DecodeShift, DecodeMovImm, DecodeLea, DecodeGroupFE,
      Blank;
  }

  /** The prefix count and length of a cached instruction change nothing it does. */
  lemma CountsDoNotMatter<F, M>(hw: Hardware<F, M>, c: Context, s: S<F, M>, d: Insn, len: nat, n: nat)
    requires n <= 7 && d.Npfx() == 0
    ensures ExecDecoded(hw, c, s, d.(len := len).SetNpfx(PrefixBits(n))) == ExecDecoded(hw, c, s, d)
  {
    hide ReadOp, WriteOp, Reg, Put, AluInto, AluFrom, AluAcc, Group, Jcc, JmpRel, CallRel, Ret, RetNear, PushReg,
      PopReg,
      PushValue, XchgAcc, IncDecReg, Context.Size, EaOperand, PrefixBits, Insn.SetNpfx;
    var e := d.(len := len).SetNpfx(PrefixBits(n));
    CountsKeepFields(d, len, n);
    CountsKeepOperand(s.gpr, d, len, n);
  }

  lemma CountsKeepFields(d: Insn, len: nat, n: nat)
    requires n <= 7 && d.Npfx() == 0
    ensures var e := d.(len := len).SetNpfx(PrefixBits(n)); SameFields(d, e) && e.Wb() == d.Wb()
  {
  }

  lemma CountsKeepOperand(g: Gpr, d: Insn, len: nat, n: nat)
    requires n <= 7 && d.Npfx() == 0
    ensures EaOperand(g, d.(len := len).SetNpfx(PrefixBits(n))) == EaOperand(g, d)
  {
    hide Scaled, Wrap;
  }

  /** For every opcode, prefix state, register file, ALU and memory: decoding and executing is interpreting. */
  lemma DecoupledIsFused<F, M>(hw: Hardware<F, M>, c: Context, s: S<F, M>, opcode: u8, npfx: nat)
    requires Encodable(c)
    ensures Same(Decoupled(hw, c, s, opcode, npfx), Dispatch(hw, c, s, opcode))
  {
    hide DecodeOp, Dispatch, Dispatch0F, ExecDecoded, Same, Encodable, PrefixBits, Insn.SetNpfx;
    DecodeRewinds(hw, c, s, opcode, npfx);
    EveryOpcode(hw, c, s, opcode);
    SameAsItself(Dispatch(hw, c, s, opcode));
    EscapeIs(hw, c, s);
    var r := DecodeOp(hw, c, s, opcode);
    if npfx <= 7 && r.Ok? && r.v.Hot? {
      DecodeKept(hw, c, s, opcode);
      CountsDoNotMatter(hw, c, r.s, r.v.d, r.s.ilen, npfx);
    }
  }

  lemma EscapeIs<F, M>(hw: Hardware<F, M>, c: Context, s: S<F, M>)
    ensures Fetch8(hw, s).Ok? ==> Dispatch(hw, c, s, 0x0F) == Dispatch0F(hw, c, Fetch8(hw, s).s, Fetch8(hw, s).v)
  {
    hide Fetch8, Dispatch0F;
  }

  /** A hot instruction carries the prefix state it was decoded under, so a cached one can restore it. */
  lemma HotCarriesContext<F, M>(hw: Hardware<F, M>, c: Context, s: S<F, M>, opcode: u8, npfx: nat)
    requires Encodable(c)
    ensures var r := TryDecode(hw, c, s, opcode, npfx);
            r.1.Hot? ==>
              && r.1.d.Osize32() == c.osize32 && r.1.d.Asize32() == c.asize32 && r.1.d.SegOverride() == c.segOverride
              && r.1.d.Npfx() == PrefixBits(npfx) && r.1.d.len == r.0.ilen
  {
    hide DecodeOp, Encodable, Insn.SetNpfx, Insn.Npfx, Insn.Osize32, Insn.Asize32, Insn.SegOverride, PrefixBits;
    DecodeKept(hw, c, s, opcode);
    var r := DecodeOp(hw, c, s, opcode);
    if npfx <= 7 && r.Ok? && r.v.Hot? {
      PrimedOnPacked(r.v.d, r.v.d.(len := r.s.ilen), c);
      PrefixCount(r.v.d.(len := r.s.ilen), npfx);
      CountKeepsOverride(r.v.d.(len := r.s.ilen), npfx);
    }
  }

  lemma CountKeepsOverride(d: Insn, n: nat)
    requires n <= 7
    ensures d.SetNpfx(PrefixBits(n)).SegOverride() == d.SegOverride() && d.SetNpfx(PrefixBits(n)).len == d.len
  {
  }

  /** A fault rewinds EIP and, unless the instruction commits what it has done, the general registers. */
  function Rewound<F, M>(start: S<F, M>, s: S<F, M>, e: Exn): S<F, M> {
    var t := s.(eip := start.eip, ilen := start.ilen);
    if e.Other? && e.commits then t else t.(gpr := start.gpr)
  }

  /** The end of an instruction: its cycles, or the delivery of its fault. */
  function Epilogue<F, M>(hw: Hardware<F, M>, start: S<F, M>, o: Out<F, M, nat>): (S<F, M>, nat) {
    match o
    case Ok(s, n) => (s, n)
    case Fault(s, e) => (hw.deliver(start.mem, Rewound(start, s, e), e), INTERRUPT_CYCLES)
  }

  const INTERRUPT_CYCLES: nat := 37

  /** After the epilogue nothing tells the two paths apart: registers, EIP, flags, memory and cycles. */
  lemma StepsAgree<F, M>(hw: Hardware<F, M>, c: Context, start: S<F, M>, s: S<F, M>, opcode: u8, npfx: nat)
    requires Encodable(c)
    ensures var a, b := Decoupled(hw, c, s, opcode, npfx), Dispatch(hw, c, s, opcode);
            Epilogue(hw, start, a) == Epilogue(hw, start, b)
  {
    hide Decoupled, Dispatch;
    DecoupledIsFused(hw, c, s, opcode, npfx);
  }
}
