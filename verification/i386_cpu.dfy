/** The 386 processor in place: a fetch cursor that advances EIP, handlers that update registers, flags and
    memory step by step, the decoder that fills a packed instruction, and the step that chooses between
    them. Each method is the function of the same name in `I386Machine`, `I386Hot` or `I386Steps`; the step
    probes a cache of decoded instructions first. */
module I386Cpu {
  import opened Direct = I386Machine
  import opened Packed = I386Hot
  import opened I386Equivalence
  import opened I386Decoupled
  import opened Whole = I386Steps
  import opened I386Cached

  /** The state after an operation and its answer, as one outcome. */
  function Outcome<F, M, T>(s: S<F, M>, r: Result<T>): Out<F, M, T> {
    match r
    case Good(v) => Ok(s, v)
    case Bad(e) => Fault(s, e)
  }

  class Cpu<F, M> {
    const hw: Hardware<F, M>
    /** Whether the later two-byte opcodes are on. */
    const extensions: bool
    var gpr: Gpr
    var eip: u32
    /** Instruction bytes fetched so far. */
    var ilen: nat
    var flags: F
    var mem: M
    var osize32: bool
    var asize32: bool
    var segOverride: Option<bv8>
    /** Decoded instructions, by slot. */
    var cache: map<nat, Entry<F, M>>

    constructor (hw: Hardware<F, M>, extensions: bool, s: S<F, M>)
      ensures State() == s && this.hw == hw && this.extensions == extensions && cache == map[]
    {
      this.hw, this.extensions := hw, extensions;
      gpr, eip, ilen, flags, mem := s.gpr, s.eip, s.ilen, s.flags, s.mem;
      osize32, asize32, segOverride, cache := false, false, None, map[];
    }

    function State(): S<F, M>
      reads this`gpr, this`eip, this`ilen, this`flags, this`mem
    {
      S(gpr, eip, ilen, flags, mem)
    }

    function Ctx(): Context
      reads this`osize32, this`asize32, this`segOverride
    {
      Context(osize32, asize32, segOverride, extensions)
    }

    /** Run code outside the hot subset. */
    method Take(o: Out<F, M, nat>) returns (r: Result<nat>)
      modifies this`gpr, this`eip, this`ilen, this`flags, this`mem
      ensures Outcome(State(), r) == o
    {
      Install(o.s);
      r := if o.Ok? then Good(o.v) else Bad(o.e);
    }

    // --- Fetch ---------------------------------------------------------------------------------------------

    method Fetch8() returns (r: Result<u8>)
      modifies this`eip, this`ilen
      ensures Outcome(State(), r) == Direct.Fetch8(hw, old(State()))
    {
      if ilen >= 15 {
        return Bad(InvalidOpcode);
      }
      ilen := ilen + 1;
      var b :- hw.fetch(mem, eip);
      eip := Wrap(eip + 1);
      return Good(b);
    }

    method Fetch16() returns (r: Result<u16>)
      modifies this`eip, this`ilen
      ensures Outcome(State(), r) == Direct.Fetch16(hw, old(State()))
    {
      hide Direct.Fetch8;
      var lo: int :- Fetch8();
      var hi: int :- Fetch8();
      return Good(lo + 256 * hi);
    }

    method Fetch32() returns (r: Result<u32>)
      modifies this`eip, this`ilen
      ensures Outcome(State(), r) == Direct.Fetch32(hw, old(State()))
    {
      hide Direct.Fetch16;
      var lo: int :- Fetch16();
      var hi: int :- Fetch16();
      return Good(lo + 0x1_0000 * hi);
    }

    /** An immediate of the given form. */
    method FetchImm(k: ImmKind) returns (r: Result<u32>)
      modifies this`eip, this`ilen
      ensures Outcome(State(), r) == Direct.FetchImm(hw, Ctx(), old(State()), k)
    {
      hide Direct.Fetch8, Direct.Fetch16, Direct.Fetch32, Sext8, Sext16;
      match k {
        case NoImm =>
          return Good(0);
        case Byte =>
          var b :- Fetch8();
          return Good(b);
        case SignedByte =>
          var b :- Fetch8();
          return Good(Sext8(b));
        case Word =>
          var x :- Fetch16();
          return Good(x);
        case _ =>
          if osize32 {
            r := Fetch32();
          } else {
            var x :- Fetch16();
            return Good(if k == Relative then Sext16(x) else x);
          }
      }
    }

    method FetchDisp(md: nat, wide: bool) returns (r: Result<u32>)
      modifies this`eip, this`ilen
      ensures Outcome(State(), r) == Disp(hw, old(State()), md, wide)
    {
      hide Direct.Fetch8, Direct.Fetch16, Direct.Fetch32, Sext8, Low16;
      if md == 0 {
        return Good(0);
      } else if md == 1 {
        var b :- Fetch8();
        return Good(if wide then Sext8(b) else Low16(Sext8(b)));
      } else if wide {
        r := Fetch32();
      } else {
        var x :- Fetch16();
        return Good(x);
      }
    }

    // --- ModRM, resolved at once -----------------------------------------------------------------------------

    method Ea16(m: u8) returns (r: Result<Operand>)
      modifies this`eip, this`ilen
      ensures Outcome(State(), r) == Direct.Ea16(hw, Ctx(), old(State()), m)
    {
      hide Direct.Fetch16, Disp, Low16;
      if Md(m) == 0 && Rm(m) == 6 {
        var off :- Fetch16();
        return Good(Mem(Ctx().Seg(DS), off));
      }
      var disp :- FetchDisp(Md(m), false);
      var base, seg := Low16(gpr[EBX]), DS;
      match Rm(m) {
        case 0 => base := Low16(gpr[EBX]) + Low16(gpr[ESI]);
        case 1 => base := Low16(gpr[EBX]) + Low16(gpr[EDI]);
        case 2 => base, seg := Low16(gpr[EBP]) + Low16(gpr[ESI]), SS;
        case 3 => base, seg := Low16(gpr[EBP]) + Low16(gpr[EDI]), SS;
        case 4 => base := Low16(gpr[ESI]);
        case 5 => base := Low16(gpr[EDI]);
        case 6 => base, seg := Low16(gpr[EBP]), SS;
        case _ =>
      }
      return Good(Mem(Ctx().Seg(seg), (base % 0x1_0000 + disp) % 0x1_0000));
    }

    method Sib(m: u8) returns (r: Result<(u32, bv8)>)
      modifies this`eip, this`ilen
      ensures Outcome(State(), r) == Direct.Sib(hw, old(State()), m)
    {
      hide Direct.Fetch8, Direct.Fetch32, Scaled, Wrap;
      var sib :- Fetch8();
      var scale, index, base := sib / 64, sib / 8 % 8, sib % 8;
      var addr: u32, seg, scalable := gpr[base], if base == ESP || base == EBP then SS else DS, true;
      if base == 5 && Md(m) == 0 {
        addr :- Fetch32();
        seg, scalable := DS, false;
      }
      if index != 4 {
        addr := Wrap(addr + Scaled(gpr[index], scale));
      } else if scalable {
        addr := Scaled(addr, scale);
      }
      return Good((addr, seg));
    }

    method Ea32(m: u8) returns (r: Result<Operand>)
      modifies this`eip, this`ilen
      ensures Outcome(State(), r) == Direct.Ea32(hw, Ctx(), old(State()), m)
    {
      hide Direct.Fetch32, Direct.Sib, Disp, Wrap;
      if Md(m) == 0 && Rm(m) == 5 {
        var off :- Fetch32();
        return Good(Mem(Ctx().Seg(DS), off));
      }
      var base: int, seg := gpr[Rm(m)], if Rm(m) == EBP then SS else DS;
      if Rm(m) == 4 {
        var bs :- Sib(m);
        base, seg := bs.0, bs.1;
      }
      var disp :- FetchDisp(Md(m), true);
      return Good(Mem(Ctx().Seg(seg), Wrap(base + disp)));
    }

    method ModRm() returns (r: Result<(reg, Operand)>)
      modifies this`eip, this`ilen
      ensures Outcome(State(), r) == Direct.ModRm(hw, Ctx(), old(State()))
    {
      hide Direct.Fetch8, Direct.Ea16, Direct.Ea32;
      var m :- Fetch8();
      if Md(m) == 3 {
        return Good((RegField(m), R(Rm(m))));
      }
      var op: Operand;
      if asize32 {
        op :- Ea32(m);
      } else {
        op :- Ea16(m);
      }
      return Good((RegField(m), op));
    }

    // --- Operands and the stack ------------------------------------------------------------------------------

    method ReadOp(w: Width, op: Operand) returns (r: Result<u32>)
      ensures Outcome(State(), r) == Direct.ReadOp(hw, State(), w, op)
    {
      match op {
        case R(i) => return Good(Reg(gpr, w, i));
        case Mem(seg, off) => return hw.read(mem, w, seg, off);
      }
    }

    method WriteOp(w: Width, op: Operand, x: u32) returns (r: Result<()>)
      modifies this`gpr, this`mem
      ensures Outcome(State(), r) == Direct.WriteOp(hw, old(State()), w, op, x)
    {
      hide SetReg, Trunc;
      match op {
        case R(i) =>
          gpr := SetReg(gpr, w, i, x);
        case Mem(seg, off) =>
          mem :- hw.write(mem, w, seg, off, Trunc(w, x));
      }
      return Good(());
    }

    method Put(w: Width, i: reg, x: u32)
      modifies this`gpr
      ensures State() == Direct.Put(old(State()), w, i, x)
    {
      hide SetReg;
      gpr := SetReg(gpr, w, i, x);
    }

    method AdjustSp(delta: int)
      modifies this`gpr
      ensures State() == Direct.AdjustSp(hw, old(State()), delta)
    {
      hide Wrap, LowWord;
      var sp := gpr[ESP];
      gpr := gpr[ESP := if hw.stack32(mem) then Wrap(sp + delta) else LowWord(sp, (sp + delta) % 0x1_0000)];
    }

    method Push(x: u32) returns (r: Result<()>)
      modifies this`gpr, this`mem
      ensures Outcome(State(), r) == Direct.Push(hw, Ctx(), old(State()), x)
    {
      hide Direct.AdjustSp, StackPtr, Wrap, Trunc;
      var w := Ctx().Size(false);
      var sp := StackPtr(hw, State()) - Bytes(w);
      var slot := if hw.stack32(mem) then Wrap(sp) else sp % 0x1_0000;
      mem :- hw.write(mem, w, SS, slot, Trunc(w, x));
      AdjustSp(0 - Bytes(w));
      return Good(());
    }

    method Pop() returns (r: Result<u32>)
      modifies this`gpr
      ensures Outcome(State(), r) == Direct.Pop(hw, Ctx(), old(State()))
    {
      hide Direct.AdjustSp, StackPtr;
      var w := Ctx().Size(false);
      var x :- hw.read(mem, w, SS, StackPtr(hw, State()));
      AdjustSp(Bytes(w));
      return Good(x);
    }

    method SetIp(ip: u32) returns (r: Result<()>)
      modifies this`eip
      ensures Outcome(State(), r) == Direct.SetIp(hw, Ctx(), old(State()), ip)
    {
      var target := if osize32 then ip else ip % 0x1_0000;
      if target > hw.csLimit(mem) {
        return Bad(Protection);
      }
      eip := target;
      return Good(());
    }

    method JumpRel(rel: u32) returns (r: Result<()>)
      modifies this`eip
      ensures Outcome(State(), r) == Direct.JumpRel(hw, Ctx(), old(State()), rel)
    {
      hide Direct.SetIp, Wrap;
      r := SetIp(Wrap(eip + rel));
    }

    // --- What both paths do with a resolved operand ------------------------------------------------------------

    method AluInto(w: Width, i: nat, wb: bool, op: Operand, b: u32) returns (r: Result<nat>)
      modifies this`gpr, this`flags, this`mem
      ensures Outcome(State(), r) == Direct.AluInto(hw, old(State()), w, i, wb, op, b)
    {
      hide Direct.ReadOp, Direct.WriteOp;
      var a :- ReadOp(w, op);
      var x := hw.alu(i, w, flags, a, b);
      flags := x.1;
      if wb {
        var _ :- WriteOp(w, op, x.0);
      }
      return Good(Cost(op, 7, 2));
    }

    method AluFrom(w: Width, i: nat, wb: bool, d: reg, op: Operand) returns (r: Result<nat>)
      modifies this`gpr, this`flags
      ensures Outcome(State(), r) == Direct.AluFrom(hw, old(State()), w, i, wb, d, op)
    {
      hide Direct.ReadOp, Direct.Put, Reg;
      var b :- ReadOp(w, op);
      var x := hw.alu(i, w, flags, Reg(gpr, w, d), b);
      flags := x.1;
      if wb {
        Put(w, d, x.0);
      }
      return Good(Cost(op, 6, 2));
    }

    method AluAcc(w: Width, i: nat, wb: bool, imm: u32) returns (r: Result<nat>)
      modifies this`gpr, this`flags
      ensures Outcome(State(), r) == Direct.AluAcc(hw, old(State()), w, i, wb, imm)
    {
      hide Direct.Put, Reg, Trunc;
      var x := hw.alu(i, w, flags, Reg(gpr, w, 0), Trunc(w, imm));
      flags := x.1;
      if wb {
        Put(w, 0, x.0);
      }
      return Good(2);
    }

    method IncDecReg(w: Width, i: reg, dec: bool) returns (r: Result<nat>)
      modifies this`gpr, this`flags
      ensures Outcome(State(), r) == Direct.IncDecReg(hw, old(State()), w, i, dec)
    {
      hide Direct.Put, Reg;
      var x := hw.incDec(dec, w, flags, Reg(gpr, w, i));
      flags := x.1;
      Put(w, i, x.0);
      return Good(2);
    }

    method XchgAcc(w: Width, i: reg) returns (r: Result<nat>)
      modifies this`gpr
      ensures Outcome(State(), r) == Direct.XchgAcc(old(State()), w, i)
    {
      hide Direct.Put, Reg;
      var t := Reg(gpr, w, 0);
      Put(w, 0, Reg(gpr, w, i));
      Put(w, i, t);
      return Good(3);
    }

    method PushValue(x: u32) returns (r: Result<nat>)
      modifies this`gpr, this`mem
      ensures Outcome(State(), r) == Direct.PushValue(hw, Ctx(), old(State()), x)
    {
      hide Direct.Push;
      var _ :- Push(x);
      return Good(2);
    }

    method PopReg(i: reg) returns (r: Result<nat>)
      modifies this`gpr
      ensures Outcome(State(), r) == Direct.PopReg(hw, Ctx(), old(State()), i)
    {
      hide Direct.Pop, Direct.Put;
      var x :- Pop();
      Put(Ctx().Size(false), i, x);
      return Good(4);
    }

    /** INC, DEC, CALL, JMP and PUSH on a resolved operand. */
    method Group(w: Width, sub: reg, op: Operand) returns (r: Result<nat>)
      requires w != W8 ==> sub != 3 && sub != 5
      modifies this`gpr, this`eip, this`flags, this`mem
      ensures Outcome(State(), r) == Direct.Group(hw, Ctx(), old(State()), w, sub, op)
    {
      hide Direct.ReadOp, Direct.WriteOp, Direct.Push, Direct.SetIp;
      if sub > 1 && (w == W8 || sub == 7) {
        return Bad(InvalidOpcode);
      }
      var x :- ReadOp(w, op);
      if sub <= 1 {
        var y := hw.incDec(sub == 1, w, flags, x);
        flags := y.1;
        var _ :- WriteOp(w, op, y.0);
        return Good(Cost(op, 6, 2));
      } else if sub == 6 {
        var _ :- Push(x);
        return Good(Cost(op, 5, 2));
      }
      if sub == 2 {
        var _ :- Push(eip);
      }
      var _ :- SetIp(x);
      return Good(Cost(op, 10, 7));
    }

    method Jcc(cc: nat, rel: u32) returns (r: Result<nat>)
      modifies this`eip
      ensures Outcome(State(), r) == Direct.Jcc(hw, Ctx(), old(State()), cc, rel)
    {
      hide Direct.JumpRel;
      if !hw.cond(cc, flags) {
        return Good(3);
      }
      var _ :- JumpRel(rel);
      return Good(7);
    }

    method JmpRel(rel: u32) returns (r: Result<nat>)
      modifies this`eip
      ensures Outcome(State(), r) == Direct.JmpRel(hw, Ctx(), old(State()), rel)
    {
      hide Direct.JumpRel;
      var _ :- JumpRel(rel);
      return Good(7);
    }

    method CallRel(rel: u32) returns (r: Result<nat>)
      modifies this`gpr, this`eip, this`mem
      ensures Outcome(State(), r) == Direct.CallRel(hw, Ctx(), old(State()), rel)
    {
      hide Direct.Push, Direct.JumpRel;
      var _ :- Push(eip);
      var _ :- JumpRel(rel);
      return Good(7);
    }

    method RetNear() returns (r: Result<nat>)
      modifies this`gpr, this`eip
      ensures Outcome(State(), r) == Direct.RetNear(hw, Ctx(), old(State()))
    {
      hide Direct.Pop, Direct.SetIp;
      var ip :- Pop();
      var _ :- SetIp(ip);
      return Good(10);
    }

    method Ret(release: nat) returns (r: Result<nat>)
      modifies this`gpr, this`eip
      ensures Outcome(State(), r) == Direct.Ret(hw, Ctx(), old(State()), release)
    {
      hide Direct.Pop, Direct.SetIp, Direct.AdjustSp;
      var ip :- Pop();
      var _ :- SetIp(ip);
      AdjustSp(release);
      return Good(10);
    }

    // --- The fused handlers ------------------------------------------------------------------------------------

    method AluRmR(w: Width, i: nat, wb: bool) returns (r: Result<nat>)
      modifies this`gpr, this`eip, this`ilen, this`flags, this`mem
      ensures Outcome(State(), r) == Direct.AluRmR(hw, Ctx(), old(State()), w, i, wb)
    {
      hide Direct.ModRm, Direct.AluInto, Reg;
      var m :- ModRm();
      r := AluInto(w, i, wb, m.1, Reg(gpr, w, m.0));
    }

    method AluRRm(w: Width, i: nat, wb: bool) returns (r: Result<nat>)
      modifies this`gpr, this`eip, this`ilen, this`flags
      ensures Outcome(State(), r) == Direct.AluRRm(hw, Ctx(), old(State()), w, i, wb)
    {
      hide Direct.ModRm, Direct.AluFrom;
      var m :- ModRm();
      r := AluFrom(w, i, wb, m.0, m.1);
    }

    /** Groups 80 to 83: the immediate comes after the operand has been read. */
    method AluGrp(w: Width, k: ImmKind) returns (r: Result<nat>)
      modifies this`gpr, this`eip, this`ilen, this`flags, this`mem
      ensures Outcome(State(), r) == Direct.AluGrp(hw, Ctx(), old(State()), w, k)
    {
      hide Direct.ModRm, Direct.ReadOp, Direct.WriteOp, Direct.FetchImm, Trunc;
      var m :- ModRm();
      var a :- ReadOp(w, m.1);
      var imm :- FetchImm(k);
      var x := hw.alu(m.0, w, flags, a, Trunc(w, imm));
      flags := x.1;
      if m.0 != 7 {
        var _ :- WriteOp(w, m.1, x.0);
      }
      return Good(Cost(m.1, 7, 2));
    }

    method MovRm(w: Width) returns (r: Result<nat>)
      modifies this`gpr, this`eip, this`ilen, this`mem
      ensures Outcome(State(), r) == Direct.MovRm(hw, Ctx(), old(State()), w)
    {
      hide Direct.ModRm, Direct.WriteOp, Reg;
      var m :- ModRm();
      var _ :- WriteOp(w, m.1, Reg(gpr, w, m.0));
      return Good(2);
    }

    method LoadRm(from: Width, to: Width, signed: bool, cm: nat, cr: nat) returns (r: Result<nat>)
      modifies this`gpr, this`eip, this`ilen
      ensures Outcome(State(), r) == Direct.LoadRm(hw, Ctx(), old(State()), from, to, signed, cm, cr)
    {
      hide Direct.ModRm, Direct.ReadOp, Direct.Put, Extended;
      var m :- ModRm();
      var x :- ReadOp(from, m.1);
      Put(to, m.0, Extended(from, signed, x));
      return Good(Cost(m.1, cm, cr));
    }

    method MovImm(w: Width, k: ImmKind) returns (r: Result<nat>)
      modifies this`gpr, this`eip, this`ilen, this`mem
      ensures Outcome(State(), r) == Direct.MovImm(hw, Ctx(), old(State()), w, k)
    {
      hide Direct.ModRm, Direct.WriteOp, Direct.FetchImm;
      var m :- ModRm();
      if m.0 != 0 {
        return Bad(InvalidOpcode);
      }
      var imm :- FetchImm(k);
      var _ :- WriteOp(w, m.1, imm);
      return Good(2);
    }

    method Lea() returns (r: Result<nat>)
      modifies this`gpr, this`eip, this`ilen
      ensures Outcome(State(), r) == Direct.Lea(hw, Ctx(), old(State()))
    {
      hide Direct.ModRm, Direct.Put;
      var m :- ModRm();
      if m.1.R? {
        return Bad(InvalidOpcode);
      }
      Put(Ctx().Size(false), m.0, m.1.off);
      return Good(2);
    }

    method ImulImm(k: ImmKind) returns (r: Result<nat>)
      modifies this`gpr, this`eip, this`ilen, this`flags
      ensures Outcome(State(), r) == Direct.ImulImm(hw, Ctx(), old(State()), k)
    {
      hide Direct.ModRm, Direct.ReadOp, Direct.FetchImm, Direct.MulInto, Trunc, Context.Size;
      var w := Ctx().Size(false);
      var m :- ModRm();
      var a :- ReadOp(w, m.1);
      var imm :- FetchImm(k);
      r := MulInto(w, m.0, a, Trunc(w, imm), m.1);
    }

    method MulInto(w: Width, i: reg, a: u32, b: u32, op: Operand) returns (r: Result<nat>)
      modifies this`gpr, this`flags
      ensures Outcome(State(), r) == Direct.MulInto(hw, old(State()), w, i, a, b, op)
    {
      hide Direct.Put;
      var x := hw.imul(w, flags, a, b);
      flags := x.1;
      Put(w, i, x.0);
      return Good(Cost(op, 22, 20));
    }

    method ImulRm() returns (r: Result<nat>)
      modifies this`gpr, this`eip, this`ilen, this`flags
      ensures Outcome(State(), r) == Direct.ImulRm(hw, Ctx(), old(State()))
    {
      hide Direct.ModRm, Direct.ReadOp, Direct.MulInto, Reg, Context.Size;
      var w := Ctx().Size(false);
      var m :- ModRm();
      var b :- ReadOp(w, m.1);
      r := MulInto(w, m.0, Reg(gpr, w, m.0), b, m.1);
    }

    method Xchg(w: Width) returns (r: Result<nat>)
      modifies this`gpr, this`eip, this`ilen, this`mem
      ensures Outcome(State(), r) == Direct.Xchg(hw, Ctx(), old(State()), w)
    {
      hide Direct.ModRm, Direct.ReadOp, Direct.WriteOp, Direct.Put, Reg;
      var m :- ModRm();
      var a :- ReadOp(w, m.1);
      var _ :- WriteOp(w, m.1, Reg(gpr, w, m.0));
      Put(w, m.0, a);
      return Good(Cost(m.1, 5, 3));
    }

    method GroupRm(w: Width) returns (r: Result<nat>)
      modifies this`gpr, this`eip, this`ilen, this`flags, this`mem
      ensures Outcome(State(), r) == Direct.GroupRm(hw, Ctx(), old(State()), w)
    {
      hide Direct.ModRm, Direct.Group;
      var m :- ModRm();
      if w != W8 && (m.0 == 3 || m.0 == 5) {
        FarIs(hw, Ctx(), State(), w, m.0, m.1);
        r := Take(hw.far(Ctx(), State(), m.0, m.1));
      } else {
        r := Group(w, m.0, m.1);
      }
    }

    method ShiftGrp(w: Width, count: Option<u32>) returns (r: Result<nat>)
      modifies this`gpr, this`eip, this`ilen, this`flags, this`mem
      ensures Outcome(State(), r) == Direct.ShiftGrp(hw, Ctx(), old(State()), w, count)
    {
      hide Direct.ModRm, Direct.ReadOp, Direct.WriteOp, Direct.FetchImm;
      var m :- ModRm();
      var x :- ReadOp(w, m.1);
      var n: u32 := 0;
      if count.Some? {
        n := count.value;
      } else {
        n :- FetchImm(Byte);
      }
      var y := hw.shift(m.0, w, flags, x, n);
      flags := y.1;
      var _ :- WriteOp(w, m.1, y.0);
      return Good(Cost(m.1, 7, 3));
    }

    method Setcc(cc: nat) returns (r: Result<nat>)
      modifies this`gpr, this`eip, this`ilen, this`mem
      ensures Outcome(State(), r) == Direct.Setcc(hw, Ctx(), old(State()), cc)
    {
      hide Direct.ModRm, Direct.WriteOp;
      var m :- ModRm();
      var _ :- WriteOp(W8, m.1, if hw.cond(cc, flags) then 1 else 0);
      return Good(4);
    }

    method Cmov(cc: nat) returns (r: Result<nat>)
      modifies this`gpr, this`eip, this`ilen
      ensures Outcome(State(), r) == Direct.Cmov(hw, Ctx(), old(State()), cc)
    {
      hide Direct.ModRm, Direct.ReadOp, Direct.Put;
      var w := Ctx().Size(false);
      var m :- ModRm();
      var x :- ReadOp(w, m.1);
      if hw.cond(cc, flags) {
        Put(w, m.0, x);
      }
      return Good(Cost(m.1, 5, 4));
    }

    // --- Dispatch ------------------------------------------------------------------------------------------------

    method Dispatch(opcode: u8) returns (r: Result<nat>)
      modifies this`gpr, this`eip, this`ilen, this`flags, this`mem
      ensures Outcome(State(), r) == Direct.Dispatch(hw, Ctx(), old(State()), opcode)
    {
      hide Direct.DispatchLow, Direct.DispatchMiddle, Direct.DispatchHigh;
      if opcode < 0x80 {
        r := DispatchLow(opcode);
      } else if opcode < 0xC0 {
        r := DispatchMiddle(opcode);
      } else {
        r := DispatchHigh(opcode);
      }
    }

    method AluForm(opcode: u8) returns (r: Result<nat>)
      requires opcode < 0x40 && opcode % 8 < 6
      modifies this`gpr, this`eip, this`ilen, this`flags, this`mem
      ensures Outcome(State(), r) == Direct.AluForm(hw, Ctx(), old(State()), opcode)
    {
      hide Direct.AluRmR, Direct.AluRRm, Direct.AluAcc, Direct.FetchImm, Context.Size;
      var i, form := opcode / 8, opcode % 8;
      var w := Ctx().Size(form % 2 == 0);
      if form < 2 {
        r := AluRmR(w, i, i != 7);
      } else if form < 4 {
        r := AluRRm(w, i, i != 7);
      } else {
        var imm :- FetchImm(if form == 4 then Byte else Full);
        r := AluAcc(w, i, i != 7, imm);
      }
    }

    method DispatchLow(opcode: u8) returns (r: Result<nat>)
      requires opcode < 0x80
      modifies this`gpr, this`eip, this`ilen, this`flags, this`mem
      ensures Outcome(State(), r) == Direct.DispatchLow(hw, Ctx(), old(State()), opcode)
    {
      hide Direct.AluForm, Direct.Fetch8, Direct.Dispatch0F, Direct.IncDecReg, Direct.PopReg, Direct.PushValue,
        Direct.Push, Direct.FetchImm, Direct.ImulImm, Direct.Jcc, Context.Size;
      if opcode < 0x40 && opcode % 8 < 6 {
        r := AluForm(opcode);
      } else if opcode == 0x0F {
        var op2 :- Fetch8();
        r := Dispatch0F(op2);
      } else if 0x40 <= opcode < 0x50 {
        r := IncDecReg(Ctx().Size(false), opcode % 8, opcode >= 0x48);
      } else if 0x50 <= opcode < 0x58 {
        r := PushValue(gpr[opcode % 8]);
        PushIs(hw, Ctx(), old(State()), opcode % 8);
      } else if 0x58 <= opcode < 0x60 {
        r := PopReg(opcode % 8);
      } else if opcode == 0x68 || opcode == 0x6A {
        var imm :- FetchImm(if opcode == 0x68 then Full else SignedByte);
        r := PushValue(imm);
      } else if opcode == 0x69 || opcode == 0x6B {
        r := ImulImm(if opcode == 0x69 then Full else SignedByte);
      } else if 0x70 <= opcode {
        var rel :- FetchImm(SignedByte);
        r := Jcc(opcode % 16, rel);
      } else {
        r := Take(hw.cold(Ctx(), State(), opcode));
      }
    }

    method DispatchMiddle(opcode: u8) returns (r: Result<nat>)
      requires 0x80 <= opcode < 0xC0
      modifies this`gpr, this`eip, this`ilen, this`flags, this`mem
      ensures Outcome(State(), r) == Direct.DispatchMiddle(hw, Ctx(), old(State()), opcode)
    {
      hide Direct.AluGrp, Direct.AluRmR, Direct.Xchg, Direct.MovRm, Direct.LoadRm, Direct.Lea, Direct.XchgAcc,
        Direct.FetchImm, Direct.AluAcc, Direct.Put, Context.Size;
      var w := Ctx().Size(opcode % 2 == 0);
      if opcode < 0x84 {
        r := AluGrp(w, if opcode == 0x81 then Full else if opcode == 0x83 then SignedByte else Byte);
      } else if opcode == 0x84 || opcode == 0x85 {
        r := AluRmR(w, 4, false);
      } else if opcode == 0x86 || opcode == 0x87 {
        r := Xchg(w);
      } else if opcode == 0x88 || opcode == 0x89 {
        r := MovRm(w);
      } else if opcode == 0x8A || opcode == 0x8B {
        r := LoadRm(w, w, false, 4, 2);
      } else if opcode == 0x8D {
        r := Lea();
      } else if 0x90 <= opcode < 0x98 {
        r := XchgAcc(Ctx().Size(false), opcode % 8);
      } else if opcode == 0xA8 || opcode == 0xA9 {
        var imm :- FetchImm(if opcode == 0xA8 then Byte else Full);
        r := AluAcc(w, 4, false, imm);
      } else if 0xB0 <= opcode {
        var imm :- FetchImm(if opcode < 0xB8 then Byte else Full);
        Put(Ctx().Size(opcode < 0xB8), opcode % 8, imm);
        return Good(2);
      } else {
        r := Take(hw.cold(Ctx(), State(), opcode));
      }
    }

    method DispatchHigh(opcode: u8) returns (r: Result<nat>)
      requires 0xC0 <= opcode
      modifies this`gpr, this`eip, this`ilen, this`flags, this`mem
      ensures Outcome(State(), r) == Direct.DispatchHigh(hw, Ctx(), old(State()), opcode)
    {
      hide Direct.ShiftGrp, Direct.FetchImm, Direct.Ret, Direct.RetNear, Direct.MovImm, Direct.CallRel, Direct.JmpRel,
        Direct.GroupRm, Context.Size, Reg;
      var w := Ctx().Size(opcode % 2 == 0);
      if opcode == 0xC0 || opcode == 0xC1 {
        r := ShiftGrp(w, None);
      } else if opcode == 0xD0 || opcode == 0xD1 {
        r := ShiftGrp(w, Some(1));
      } else if opcode == 0xD2 || opcode == 0xD3 {
        r := ShiftGrp(w, Some(Reg(gpr, W8, ECX)));
      } else if opcode == 0xC2 {
        var n :- FetchImm(Word);
        r := Ret(n);
      } else if opcode == 0xC3 {
        r := RetNear();
      } else if opcode == 0xC6 || opcode == 0xC7 {
        r := MovImm(w, if opcode == 0xC6 then Byte else Full);
      } else if opcode == 0xE8 {
        var rel :- FetchImm(Relative);
        r := CallRel(rel);
      } else if opcode == 0xE9 || opcode == 0xEB {
        var rel :- FetchImm(if opcode == 0xE9 then Relative else SignedByte);
        r := JmpRel(rel);
      } else if opcode == 0xFE || opcode == 0xFF {
        r := GroupRm(w);
      } else {
        r := Take(hw.cold(Ctx(), State(), opcode));
      }
    }

    method Dispatch0F(op2: u8) returns (r: Result<nat>)
      modifies this`gpr, this`eip, this`ilen, this`flags, this`mem
      ensures Outcome(State(), r) == Direct.Dispatch0F(hw, Ctx(), old(State()), op2)
    {
      hide Direct.Cmov, Direct.FetchImm, Direct.Jcc, Direct.Setcc, Direct.ImulRm, Direct.LoadRm, Context.Size;
      var w := Ctx().Size(false);
      if 0x40 <= op2 < 0x50 && extensions {
        r := Cmov(op2 % 16);
      } else if 0x80 <= op2 < 0x90 {
        var rel :- FetchImm(Relative);
        r := Jcc(op2 % 16, rel);
      } else if 0x90 <= op2 < 0xA0 {
        r := Setcc(op2 % 16);
      } else if op2 == 0xAF {
        r := ImulRm();
      } else if op2 == 0xB6 || op2 == 0xB7 {
        r := LoadRm(if op2 == 0xB6 then W8 else W16, w, false, 6, 3);
      } else if op2 == 0xBE || op2 == 0xBF {
        r := LoadRm(if op2 == 0xBE then W8 else W16, w, true, 6, 3);
      } else {
        r := Take(hw.cold0F(Ctx(), State(), op2));
      }
    }

    // --- Decode ----------------------------------------------------------------------------------------------------

    method Ea16Formula(m: u8, d: Insn) returns (r: Result<Insn>)
      modifies this`eip, this`ilen
      ensures Outcome(State(), r) == Packed.Ea16Formula(hw, Ctx(), old(State()), m, d)
    {
      hide Direct.Fetch16, Disp, Insn.SetSeg, Context.Seg;
      if Md(m) == 0 && Rm(m) == 6 {
        var off :- Fetch16();
        return Good(d.(disp := off).SetSeg(Ctx().Seg(DS)));
      }
      var disp :- FetchDisp(Md(m), false);
      return Good(d.(base := Base16(Rm(m)), index := Index16(Rm(m)), disp := disp).SetSeg(Ctx().Seg(Seg16(Rm(m)))));
    }

    method SibFormula(m: u8, d: Insn) returns (r: Result<(Insn, bv8)>)
      modifies this`eip, this`ilen
      ensures Outcome(State(), r) == Packed.SibFormula(hw, old(State()), m, d)
    {
      hide Direct.Fetch8, Direct.Fetch32, Insn.SetScale;
      var sib :- Fetch8();
      var scale, index, base := sib / 64, sib / 8 % 8, sib % 8;
      var e := d;
      if base == 5 && Md(m) == 0 {
        var disp :- Fetch32();
        e := e.(disp := disp);
        if index != 4 {
          e := e.(index := index).SetScale(scale);
        }
        return Good((e, DS));
      }
      var seg := if base == ESP || base == EBP then SS else DS;
      if index != 4 {
        e := e.(base := base, index := index);
      } else {
        // the scaled base is an index without a base
        e := e.(base := NONE, index := base);
      }
      return Good((e.SetScale(scale), seg));
    }

    method Ea32Formula(m: u8, d: Insn) returns (r: Result<Insn>)
      modifies this`eip, this`ilen
      ensures Outcome(State(), r) == Packed.Ea32Formula(hw, Ctx(), old(State()), m, d)
    {
      hide Direct.Fetch32, Disp, Packed.SibFormula, Insn.SetSeg, Context.Seg, Wrap;
      var e := d;
      if Md(m) == 0 && Rm(m) == 5 {
        var off :- Fetch32();
        return Good(e.(disp := off).SetSeg(Ctx().Seg(DS)));
      }
      var seg := if Rm(m) == EBP then SS else DS;
      if Rm(m) == 4 {
        var es :- SibFormula(m, e);
        e, seg := es.0, es.1;
      } else {
        e := e.(base := Rm(m));
      }
      var disp :- FetchDisp(Md(m), true);
      e := e.(disp := Wrap(e.disp + disp));
      return Good(e.SetSeg(Ctx().Seg(seg)));
    }

    method DecodeModRm(d: Insn) returns (r: Result<Insn>)
      modifies this`eip, this`ilen
      ensures Outcome(State(), r) == Packed.DecodeModRm(hw, Ctx(), old(State()), d)
    {
      hide Direct.Fetch8, Packed.Ea16Formula, Packed.Ea32Formula, Insn.SetKind;
      var m :- Fetch8();
      var e := d.(reg := RegField(m));
      if Md(m) == 3 {
        e := e.SetKind(RegOperand);
        return Good(e.(base := Rm(m)));
      }
      e := e.SetKind(MemOperand);
      if asize32 {
        r := Ea32Formula(m, e);
      } else {
        r := Ea16Formula(m, e);
      }
    }

    method WithModRm(d: Insn, k: ImmKind) returns (r: Result<Insn>)
      modifies this`eip, this`ilen
      ensures Outcome(State(), r) == Packed.WithModRm(hw, Ctx(), old(State()), d, k)
    {
      hide Packed.DecodeModRm, Direct.FetchImm;
      var e :- DecodeModRm(d);
      var imm :- FetchImm(k);
      return Good(if k == NoImm then e else e.(imm := imm));
    }

    method WithImm(d: Insn, k: ImmKind) returns (r: Result<Insn>)
      modifies this`eip, this`ilen
      ensures Outcome(State(), r) == Packed.WithImm(hw, Ctx(), old(State()), d, k)
    {
      hide Direct.FetchImm;
      var imm :- FetchImm(k);
      return Good(if k == NoImm then d else d.(imm := imm));
    }

    method DecodeAluGrp(d: Insn, k: ImmKind) returns (r: Result<Insn>)
      modifies this`eip, this`ilen
      ensures Outcome(State(), r) == Packed.DecodeAluGrp(hw, Ctx(), old(State()), d, k)
    {
      hide Packed.DecodeModRm, Direct.FetchImm, Insn.SetWb;
      var e :- DecodeModRm(d);
      e := e.(aux := e.reg).SetWb(e.reg != 7);
      var imm :- FetchImm(k);
      return Good(e.(imm := imm));
    }

    method DecodeMovImm(d: Insn, k: ImmKind) returns (r: Result<Insn>)
      modifies this`eip, this`ilen
      ensures Outcome(State(), r) == Packed.DecodeMovImm(hw, Ctx(), old(State()), d, k)
    {
      hide Packed.DecodeModRm, Direct.FetchImm;
      var e :- DecodeModRm(d);
      if e.reg != 0 {
        return Bad(InvalidOpcode);
      }
      var imm :- FetchImm(k);
      return Good(e.(imm := imm));
    }

    method DecodeShift(d: Insn, form: nat) returns (r: Result<Insn>)
      modifies this`eip, this`ilen
      ensures Outcome(State(), r) == Packed.DecodeShift(hw, Ctx(), old(State()), d, form)
    {
      hide Packed.DecodeModRm, Direct.FetchImm;
      var e :- DecodeModRm(d);
      e := e.(aux := if form <= 1 then e.reg else e.reg + 0x80);
      if form == 0 {
        var n :- FetchImm(Byte);
        e := e.(imm := n);
      } else if form == 1 {
        e := e.(imm := 1);
      }
      return Good(e);
    }

    method DecodeAlu(opcode: u8) returns (r: Result<Insn>)
      requires opcode < 0x40 && opcode % 8 < 6
      modifies this`eip, this`ilen
      ensures Outcome(State(), r) == Packed.DecodeAlu(hw, Ctx(), old(State()), opcode)
    {
      hide Packed.WithModRm, Packed.WithImm, Insn.SetWb, Blank;
      var d := Blank(Ctx()).(aux := opcode / 8).SetWb(opcode / 8 != 7);
      match opcode % 8 {
        case 0 => r := WithModRm(d.(op := AluRmR8), NoImm);
        case 1 => r := WithModRm(d.(op := AluRmRW), NoImm);
        case 2 => r := WithModRm(d.(op := AluRRm8), NoImm);
        case 3 => r := WithModRm(d.(op := AluRRmW), NoImm);
        case 4 => r := WithImm(d.(op := AluAccImm8), Byte);
        case _ => r := WithImm(d.(op := AluAccImmW), Full);
      }
    }

    method DecodeLea() returns (r: Result<Insn>)
      modifies this`eip, this`ilen
      ensures Outcome(State(), r) == Packed.DecodeLea(hw, Ctx(), old(State()))
    {
      hide Packed.DecodeModRm, Blank, Insn.Kind;
      var e :- DecodeModRm(Blank(Ctx()).(op := LeaM));
      if e.Kind() != MemOperand {
        return Bad(InvalidOpcode);
      }
      return Good(e);
    }

    method DecodeGroupFE() returns (r: Result<Insn>)
      modifies this`eip, this`ilen
      ensures Outcome(State(), r) == Packed.DecodeGroupFE(hw, Ctx(), old(State()))
    {
      hide Packed.DecodeModRm, Blank;
      var e :- DecodeModRm(Blank(Ctx()).(op := IncDecRm8));
      if e.reg > 1 {
        return Bad(InvalidOpcode);
      }
      return Good(e.(aux := e.reg));
    }

    method DecodeGroupFF() returns (r: Result<Decoded>)
      modifies this`eip, this`ilen
      ensures Outcome(State(), r) == Packed.DecodeGroupFF(hw, Ctx(), old(State()))
    {
      hide Packed.DecodeModRm, Blank;
      var e :- DecodeModRm(Blank(Ctx()));
      e := e.(aux := e.reg);
      match e.reg {
        case 2 => return Good(Hot(e.(op := CallRm)));
        case 4 => return Good(Hot(e.(op := JmpRm)));
        case 6 => return Good(Hot(e.(op := PushRm)));
        case _ => return Good(if e.reg <= 1 then Hot(e.(op := IncDecRmW)) else Cold);
      }
    }

    method DecodeOp(opcode: u8) returns (r: Result<Decoded>)
      modifies this`eip, this`ilen
      ensures Outcome(State(), r) == Packed.DecodeOp(hw, Ctx(), old(State()), opcode)
    {
      hide Packed.DecodeLow, Packed.DecodeMiddle, Packed.DecodeHigh;
      if opcode < 0x80 {
        r := DecodeLow(opcode);
      } else if opcode < 0xC0 {
        r := DecodeMiddle(opcode);
      } else {
        r := DecodeHigh(opcode);
      }
    }

    method DecodeLow(opcode: u8) returns (r: Result<Decoded>)
      requires opcode < 0x80
      modifies this`eip, this`ilen
      ensures Outcome(State(), r) == Packed.DecodeLow(hw, Ctx(), old(State()), opcode)
    {
      hide Packed.DecodeAlu, Direct.Fetch8, Packed.Decode0F, Packed.WithImm, Packed.WithModRm, Blank;
      var d := Blank(Ctx());
      if opcode < 0x40 && opcode % 8 < 6 {
        d :- DecodeAlu(opcode);
      } else if opcode == 0x0F {
        var op2 :- Fetch8();
        r := Decode0F(op2);
        return;
      } else if 0x40 <= opcode < 0x60 {
        d := d.(op := if opcode < 0x48 then IncR else if opcode < 0x50 then DecR else if opcode < 0x58 then PushR
                      else PopR, reg := opcode % 8);
      } else if opcode == 0x68 || opcode == 0x6A {
        d :- WithImm(d.(op := PushI), if opcode == 0x68 then Full else SignedByte);
      } else if opcode == 0x69 || opcode == 0x6B {
        d :- WithModRm(d.(op := ImulRmImm), if opcode == 0x69 then Full else SignedByte);
      } else if 0x70 <= opcode {
        d :- WithImm(d.(op := JccRel, aux := opcode % 16), SignedByte);
      } else {
        return Good(Cold);
      }
      return Good(Hot(d));
    }

    method DecodeMiddle(opcode: u8) returns (r: Result<Decoded>)
      requires 0x80 <= opcode < 0xC0
      modifies this`eip, this`ilen
      ensures Outcome(State(), r) == Packed.DecodeMiddle(hw, Ctx(), old(State()), opcode)
    {
      hide Packed.DecodeAluGrp, Packed.WithImm, Packed.WithModRm, Packed.DecodeLea, Blank;
      var d := Blank(Ctx());
      match opcode {
        case 0x81 => d :- DecodeAluGrp(d.(op := AluGrpImmW), Full);
        case 0x83 => d :- DecodeAluGrp(d.(op := AluGrpImmW), SignedByte);
        case 0x84 => d :- WithModRm(d.(op := AluRmR8, aux := 4), NoImm);
        case 0x85 => d :- WithModRm(d.(op := AluRmRW, aux := 4), NoImm);
        case 0x86 => d :- WithModRm(d.(op := XchgRm8), NoImm);
        case 0x87 => d :- WithModRm(d.(op := XchgRmW), NoImm);
        case 0x88 => d :- WithModRm(d.(op := MovRmR8), NoImm);
        case 0x89 => d :- WithModRm(d.(op := MovRmRW), NoImm);
        case 0x8A => d :- WithModRm(d.(op := MovRRm8), NoImm);
        case 0x8B => d :- WithModRm(d.(op := MovRRmW), NoImm);
        case 0x8D => d :- DecodeLea();
        case 0xA8 => d :- WithImm(d.(op := AluAccImm8, aux := 4), Byte);
        case 0xA9 => d :- WithImm(d.(op := AluAccImmW, aux := 4), Full);
        case _ =>
          if opcode < 0x84 {
            d :- DecodeAluGrp(d.(op := AluGrpImm8), Byte);
          } else if 0x90 <= opcode < 0x98 {
            d := d.(op := XchgA, reg := opcode % 8);
          } else if 0xB0 <= opcode < 0xB8 {
            d :- WithImm(d.(op := MovRegImm8, reg := opcode % 8), Byte);
          } else if 0xB8 <= opcode {
            d :- WithImm(d.(op := MovRegImmW, reg := opcode % 8), Full);
          } else {
            return Good(Cold);
          }
      }
      return Good(Hot(d));
    }

    method DecodeHigh(opcode: u8) returns (r: Result<Decoded>)
      requires 0xC0 <= opcode
      modifies this`eip, this`ilen
      ensures Outcome(State(), r) == Packed.DecodeHigh(hw, Ctx(), old(State()), opcode)
    {
      hide Packed.DecodeShift, Packed.WithImm, Packed.DecodeMovImm, Packed.DecodeGroupFE, Packed.DecodeGroupFF, Blank;
      var d := Blank(Ctx());
      match opcode {
        case 0xC0 => d :- DecodeShift(d.(op := ShiftRm8), 0);
        case 0xC1 => d :- DecodeShift(d.(op := ShiftRmW), 0);
        case 0xC2 => d :- WithImm(d.(op := RetImm), Word);
        case 0xC3 => d := d.(op := RetPlain);
        case 0xC6 => d :- DecodeMovImm(d.(op := MovRmImm8), Byte);
        case 0xC7 => d :- DecodeMovImm(d.(op := MovRmImmW), Full);
        case 0xD0 => d :- DecodeShift(d.(op := ShiftRm8), 1);
        case 0xD1 => d :- DecodeShift(d.(op := ShiftRmW), 1);
        case 0xD2 => d :- DecodeShift(d.(op := ShiftRm8), 2);
        case 0xD3 => d :- DecodeShift(d.(op := ShiftRmW), 2);
        case 0xE8 => d :- WithImm(d.(op := CallNear), Relative);
        case 0xE9 => d :- WithImm(d.(op := JmpShort), Relative);
        case 0xEB => d :- WithImm(d.(op := JmpShort), SignedByte);
        case 0xFE => d :- DecodeGroupFE();
        case 0xFF =>
          r := DecodeGroupFF();
          return;
        case _ => return Good(Cold);
      }
      return Good(Hot(d));
    }

    method Decode0F(op2: u8) returns (r: Result<Decoded>)
      modifies this`eip, this`ilen
      ensures Outcome(State(), r) == Packed.Decode0F(hw, Ctx(), old(State()), op2)
    {
      hide Packed.WithImm, Packed.WithModRm, Blank;
      var d := Blank(Ctx());
      match op2 {
        case 0xAF => d :- WithModRm(d.(op := ImulRRmW), NoImm);
        case 0xB6 => d :- WithModRm(d.(op := MovzxB), NoImm);
        case 0xB7 => d :- WithModRm(d.(op := MovzxW), NoImm);
        case 0xBE => d :- WithModRm(d.(op := MovsxB), NoImm);
        case 0xBF => d :- WithModRm(d.(op := MovsxW), NoImm);
        case _ =>
          if 0x80 <= op2 < 0x90 {
            d :- WithImm(d.(op := JccRel, aux := op2 % 16), Relative);
          } else if 0x90 <= op2 < 0xA0 {
            d :- WithModRm(d.(op := SetccRm, aux := op2 % 16), NoImm);
          } else if 0x40 <= op2 < 0x50 && extensions {
            d :- WithModRm(d.(op := CmovW, aux := op2 % 16), NoImm);
          } else {
            return Good(Cold0F(op2));
          }
      }
      return Good(Hot(d));
    }

    /** Try to decode; a failed or cold decode rewinds EIP and the length count. */
    method TryDecode(opcode: u8, npfx: nat) returns (r: Decoded)
      requires Encodable(Ctx())
      modifies this`eip, this`ilen
      ensures (State(), r) == Packed.TryDecode(hw, Ctx(), old(State()), opcode, npfx)
      ensures r == Cold ==> State() == old(State())
    {
      hide Packed.DecodeOp, Encodable, PrefixBits, Insn.SetNpfx;
      DecodeRewinds(hw, Ctx(), State(), opcode, npfx);
      if npfx > 7 {
        return Cold;
      }
      var start, count := eip, ilen;
      var o := DecodeOp(opcode);
      if o.Good? && o.value.Hot? {
        return Hot(o.value.d.(len := ilen).SetNpfx(PrefixBits(npfx)));
      } else if o.Good? && o.value.Cold0F? {
        return o.value;
      }
      eip, ilen := start, count;
      return Cold;
    }

    // --- Execution of a decoded instruction ------------------------------------------------------------------------

    method ExecLoad(d: Insn, from: Width, to: Width, signed: bool, cm: nat, cr: nat) returns (r: Result<nat>)
      modifies this`gpr
      ensures Outcome(State(), r) == Packed.ExecLoad(hw, old(State()), d, from, to, signed, cm, cr)
    {
      hide EaOperand, Direct.ReadOp, Direct.Put, Extended;
      var op := EaOperand(gpr, d);
      var x :- ReadOp(from, op);
      Put(to, d.reg, Extended(from, signed, x));
      return Good(Cost(op, cm, cr));
    }

    method ExecStore(d: Insn, w: Width, x: u32, cost: nat) returns (r: Result<nat>)
      modifies this`gpr, this`mem
      ensures Outcome(State(), r) == Packed.ExecStore(hw, old(State()), d, w, x, cost)
    {
      hide EaOperand, Direct.WriteOp;
      var _ :- WriteOp(w, EaOperand(gpr, d), x);
      return Good(cost);
    }

    method ExecImul(d: Insn, immediate: bool) returns (r: Result<nat>)
      modifies this`gpr, this`flags
      ensures Outcome(State(), r) == Packed.ExecImul(hw, Ctx(), old(State()), d, immediate)
    {
      hide EaOperand, Direct.ReadOp, Direct.MulInto, Trunc, Reg, Context.Size;
      var w, op := Ctx().Size(false), EaOperand(gpr, d);
      var x :- ReadOp(w, op);
      if immediate {
        r := MulInto(w, d.reg, x, Trunc(w, d.imm), op);
      } else {
        r := MulInto(w, d.reg, Reg(gpr, w, d.reg), x, op);
      }
    }

    method ExecXchg(d: Insn, w: Width) returns (r: Result<nat>)
      modifies this`gpr, this`mem
      ensures Outcome(State(), r) == Packed.ExecXchg(hw, old(State()), d, w)
    {
      hide EaOperand, Direct.ReadOp, Direct.WriteOp, Direct.Put, Reg;
      var op := EaOperand(gpr, d);
      var a :- ReadOp(w, op);
      var _ :- WriteOp(w, op, Reg(gpr, w, d.reg));
      Put(w, d.reg, a);
      return Good(Cost(op, 5, 3));
    }

    method ExecShift(d: Insn, w: Width) returns (r: Result<nat>)
      modifies this`gpr, this`flags, this`mem
      ensures Outcome(State(), r) == Packed.ExecShift(hw, old(State()), d, w)
    {
      hide EaOperand, Direct.ReadOp, Direct.WriteOp, Reg;
      var op := EaOperand(gpr, d);
      var x :- ReadOp(w, op);
      var n := if d.aux >= 0x80 then Reg(gpr, W8, ECX) else d.imm;
      var y := hw.shift(d.aux % 8, w, flags, x, n);
      flags := y.1;
      var _ :- WriteOp(w, op, y.0);
      return Good(Cost(op, 7, 3));
    }

    method ExecCmov(d: Insn) returns (r: Result<nat>)
      modifies this`gpr
      ensures Outcome(State(), r) == Packed.ExecCmov(hw, Ctx(), old(State()), d)
    {
      hide EaOperand, Direct.ReadOp, Direct.Put;
      var w, op := Ctx().Size(false), EaOperand(gpr, d);
      var x :- ReadOp(w, op);
      if hw.cond(d.aux, flags) {
        Put(w, d.reg, x);
      }
      return Good(Cost(op, 5, 4));
    }

    method ExecLea(d: Insn) returns (r: Result<nat>)
      requires d.op == LeaM
      modifies this`gpr
      ensures Outcome(State(), r) == Packed.ExecDecoded(hw, Ctx(), old(State()), d)
    {
      hide EaOperand, Direct.Put;
      var op := EaOperand(gpr, d);
      if op.R? {
        return Bad(InvalidOpcode);
      }
      Put(Ctx().Size(false), d.reg, op.off);
      return Good(2);
    }

    /** Execute a decoded instruction; EIP is already past it. Wherever it was decoded from, that is what the direct
        interpreter does from there. */
    method ExecDecoded(d: Insn) returns (r: Result<nat>)
      modifies this`gpr, this`eip, this`flags, this`mem
      ensures Outcome(State(), r) == Packed.ExecDecoded(hw, Ctx(), old(State()), d)
      ensures forall s, opcode, npfx ::
                Encodable(Ctx()) && Packed.TryDecode(hw, Ctx(), s, opcode, npfx) == (old(State()), Hot(d)) ==>
                  Same(Outcome(State(), r), Direct.Dispatch(hw, Ctx(), s, opcode))
    {
      hide Packed.ExecDecoded, Packed.TryDecode, Direct.Dispatch, Same, Encodable;
      ghost var t, c := State(), Ctx();
      r := Perform(d);
      forall s, opcode, npfx | Encodable(c) && Packed.TryDecode(hw, c, s, opcode, npfx) == (t, Hot(d))
        ensures Same(Packed.ExecDecoded(hw, c, t, d), Direct.Dispatch(hw, c, s, opcode))
      {
        DecoupledIsFused(hw, c, s, opcode, npfx);
      }
    }

    /** The handlers by discriminant. */
    method Perform(d: Insn) returns (r: Result<nat>)
      modifies this`gpr, this`eip, this`flags, this`mem
      ensures Outcome(State(), r) == Packed.ExecDecoded(hw, Ctx(), old(State()), d)
    {
      hide EaOperand, Direct.AluInto, Direct.AluFrom, Direct.AluAcc, Packed.ExecLoad, Packed.ExecStore, Packed.ExecImul,
        Packed.ExecXchg, Packed.ExecShift, Packed.ExecCmov, Direct.IncDecReg, Direct.PushReg, Direct.PopReg,
        Direct.Group, Direct.Jcc, Direct.JmpRel, Direct.CallRel, Direct.RetNear, Direct.Ret, Direct.PushValue,
        Direct.XchgAcc, Direct.Put, Reg, Trunc, Context.Size, Insn.Wb;
      var w := Ctx().Size(false);
      match d.op {
        case AluRmR8 => r := AluInto(W8, d.aux, d.Wb(), EaOperand(gpr, d), Reg(gpr, W8, d.reg));
        case AluRmRW => r := AluInto(w, d.aux, d.Wb(), EaOperand(gpr, d), Reg(gpr, w, d.reg));
        case AluRRm8 => r := AluFrom(W8, d.aux, d.Wb(), d.reg, EaOperand(gpr, d));
        case AluRRmW => r := AluFrom(w, d.aux, d.Wb(), d.reg, EaOperand(gpr, d));
        case AluAccImm8 => r := AluAcc(W8, d.aux, d.Wb(), d.imm);
        case AluAccImmW => r := AluAcc(w, d.aux, d.Wb(), d.imm);
        case AluGrpImm8 => r := AluInto(W8, d.aux, d.Wb(), EaOperand(gpr, d), Trunc(W8, d.imm));
        case AluGrpImmW => r := AluInto(w, d.aux, d.Wb(), EaOperand(gpr, d), Trunc(w, d.imm));
        case MovRmR8 => r := ExecStore(d, W8, Reg(gpr, W8, d.reg), 2);
        case MovRmRW => r := ExecStore(d, w, Reg(gpr, w, d.reg), 2);
        case MovRRm8 => r := ExecLoad(d, W8, W8, false, 4, 2);
        case MovRRmW => r := ExecLoad(d, w, w, false, 4, 2);
        case MovRegImm8 => Put(W8, d.reg, d.imm); r := Good(2);
        case MovRegImmW => Put(w, d.reg, d.imm); r := Good(2);
        case MovRmImm8 => r := ExecStore(d, W8, d.imm, 2);
        case MovRmImmW => r := ExecStore(d, w, d.imm, 2);
        case LeaM => r := ExecLea(d);
        case IncR => r := IncDecReg(w, d.reg, false);
        case DecR => r := IncDecReg(w, d.reg, true);
        case PushR =>
          r := PushValue(gpr[d.reg]);
          PushIs(hw, Ctx(), old(State()), d.reg);
        case PopR => r := PopReg(d.reg);
        case IncDecRm8 => r := Group(W8, if d.aux == 0 then 0 else 1, EaOperand(gpr, d));
        case IncDecRmW => r := Group(w, if d.aux == 0 then 0 else 1, EaOperand(gpr, d));
        case CallRm => r := Group(w, 2, EaOperand(gpr, d));
        case JmpRm => r := Group(w, 4, EaOperand(gpr, d));
        case PushRm => r := Group(w, 6, EaOperand(gpr, d));
        case ShiftRm8 => r := ExecShift(d, W8);
        case ShiftRmW => r := ExecShift(d, w);
        case JccRel => r := Jcc(d.aux, d.imm);
        case JmpShort => r := JmpRel(d.imm);
        case CallNear => r := CallRel(d.imm);
        case RetPlain => r := RetNear();
        case RetImm => r := Ret(d.imm);
        case ImulRRmW => r := ExecImul(d, false);
        case PushI => r := PushValue(d.imm);
        case ImulRmImm => r := ExecImul(d, true);
        case XchgRm8 => r := ExecXchg(d, W8);
        case XchgRmW => r := ExecXchg(d, w);
        case XchgA => r := XchgAcc(w, d.reg);
        case MovzxB => r := ExecLoad(d, W8, w, false, 6, 3);
        case MovzxW => r := ExecLoad(d, W16, w, false, 6, 3);
        case MovsxB => r := ExecLoad(d, W8, w, true, 6, 3);
        case MovsxW => r := ExecLoad(d, W16, w, true, 6, 3);
        case SetccRm => r := ExecStore(d, W8, if hw.cond(d.aux, flags) then 1 else 0, 4);
        case CmovW => r := ExecCmov(d);
      }
    }

    // --- One instruction, and runs ---------------------------------------------------------------------------------

    /** Consume the prefix bytes; the opcode byte, how many there were, and LOCK and REP. */
    method ScanPrefixes() returns (r: Result<u8>, npfx: nat, lock: Lock)
      modifies this`eip, this`ilen, this`osize32, this`asize32, this`segOverride
      ensures var code32 := hw.code32(mem);
              var o := Scan(hw, old(State()), NoPrefixes(code32, extensions), code32);
              if o.Fault? then r == Bad(o.e) && State() == o.s
              else r.Good? && Ok(State(), (r.value, Prefixes(Ctx(), lock, npfx))) == o
    {
      hide Direct.Fetch8;
      var code32 := hw.code32(mem);
      osize32, asize32, segOverride, npfx, lock := code32, code32, None, 0, Lock(false, None);
      ghost var s0 := State();
      while true
        invariant Scan(hw, s0, NoPrefixes(code32, extensions), code32) ==
                  Scan(hw, State(), Prefixes(Ctx(), lock, npfx), code32)
        decreases 15 - ilen
      {
        ghost var s := State();
        Counts(hw, s);
        r := Fetch8();
        if r.Bad? {
          return;
        }
        var b := r.value;
        if !IsPrefix(b) {
          return;
        }
        if Override(b).Some? {
          segOverride := Override(b);
        } else if b == 0x66 {
          osize32 := !code32;
        } else if b == 0x67 {
          asize32 := !code32;
        } else if b == 0xF0 {
          lock := lock.(lock := true);
        } else {
          lock := lock.(rep := Some(b == 0xF3));
        }
        npfx := npfx + 1;
      }
    }

    /** Decode prefixes and execute one instruction; what decodes hot goes into the cache slot, if there is one,
        before it executes. */
    method ExecMiss(slot: Option<nat>) returns (r: Result<nat>)
      modifies this
      ensures Outcome(State(), r) == OneStep(hw, extensions, old(State()), true)
      ensures var d := Fresh(hw, extensions, old(State()));
              cache == if slot.Some? && d.Some? then old(cache[slot.value := Entry(d.value, State())]) else old(cache)
    {
      hide Scan, Packed.TryDecode, Packed.ExecDecoded, Direct.Dispatch, Direct.Dispatch0F, Encodable, NoPrefixes;
      var start := State();
      StartEncodable(hw, extensions, start);
      ilen := 0;
      var opcode, npfx, lock := ScanPrefixes();
      if opcode.Bad? {
        return Bad(opcode.e);
      }
      var n: nat;
      if lock.lock || lock.rep != None {
        n :- Take(hw.locked(Ctx(), lock, State(), opcode.value));
      } else {
        var d := TryDecode(opcode.value, npfx);
        match d {
          case Hot(i) =>
            if slot.Some? {
              cache := cache[slot.value := Entry(i, start)];
            }
            n :- ExecDecoded(i);
          case Cold0F(op2) => n :- Dispatch0F(op2);
          case Cold => n :- Dispatch(opcode.value);
        }
      }
      return Good(npfx + n);
    }

    /** Execute a cached instruction: install what its execution reads, move EIP past it, and run it. */
    method ExecHit(d: Insn) returns (r: Result<nat>)
      modifies this`gpr, this`eip, this`flags, this`mem, this`osize32, this`segOverride
      ensures Outcome(State(), r) == Hit(hw, old(Ctx()), old(State()), d)
    {
      hide Packed.ExecDecoded, Packed.TryDecode, Direct.Dispatch, Same, Encodable, Insn.Osize32, Insn.SegOverride,
        Insn.Npfx, Wrap;
      osize32, segOverride := d.Osize32(), d.SegOverride();
      eip := Wrap(eip + d.len);
      var n: nat :- Perform(d);
      return Good(n + d.Npfx() as nat);
    }

    /** One instruction, through the cache when the slot holds one that is current. Either way it is one step of the
        direct interpreter. */
    method ExecOne(slot: Option<nat>) returns (r: Result<nat>)
      requires Genuine(hw, extensions, cache)
      modifies this
      ensures Genuine(hw, extensions, cache)
      ensures Alike(Outcome(State(), r), OneStep(hw, extensions, old(State()), false))
    {
      hide OneStep, Fresh, Current, Hit, Same;
      ghost var s := State();
      if slot.Some? && slot.value in cache && Current(hw, cache[slot.value], State()) {
        HitIsStep(hw, extensions, Ctx(), cache[slot.value], s);
        r := ExecHit(cache[slot.value].d);
      } else {
        OneStepAgrees(hw, extensions, s);
        r := ExecMiss(slot);
        SameIsAlike(OneStep(hw, extensions, s, true), OneStep(hw, extensions, s, false));
      }
    }

    /** One instruction and its end: the cycles, or the rewind and delivery of its fault. */
    method Step(slot: Option<nat>) returns (cycles: nat)
      requires Genuine(hw, extensions, cache)
      modifies this
      ensures Genuine(hw, extensions, cache)
      ensures var end := Epilogue(hw, old(State()), OneStep(hw, extensions, old(State()), false));
              Boundary(State()) == Boundary(end.0) && cycles == end.1
    {
      hide OneStep, Genuine, Rewound;
      var start := State();
      var r := ExecOne(slot);
      AlikeEnds(hw, start, Outcome(State(), r), OneStep(hw, extensions, start, false));
      if r.Good? {
        return r.value;
      }
      Install(hw.deliver(start.mem, Rewound(start, State(), r.e), r.e));
      return INTERRUPT_CYCLES;
    }

    /** `n` instructions with whatever comes between them; a fault rewinds its instruction and is delivered. `probe`
        picks the cache slot to use, or none. However the cache fills, the run is the direct interpreter's. */
    method Run(n: nat, between: (nat, S<F, M>) -> S<F, M>, probe: (nat, S<F, M>) -> Option<nat>)
      returns (cycles: nat)
      requires Genuine(hw, extensions, cache)
      modifies this
      ensures Genuine(hw, extensions, cache)
      ensures End(Boundary(State()), cycles) == Steps(hw, extensions, between, old(State()), n, false)
    {
      hide OneStep, Genuine, Epilogue;
      ghost var s0 := State();
      cycles := 0;
      for i := 0 to n
        invariant Genuine(hw, extensions, cache)
        invariant Steps(hw, extensions, between, s0, n, false) ==
                  Later(Steps(hw, extensions, between, State(), n - i, false), cycles)
      {
        var start := between(n - i, Boundary(State()));
        Install(start);
        var spent := Step(probe(n - i, start));
        cycles := cycles + spent;
      }
    }

    /** Take over a state. */
    method Install(s: S<F, M>)
      modifies this`gpr, this`eip, this`ilen, this`flags, this`mem
      ensures State() == s
    {
      gpr, eip, ilen, flags, mem := s.gpr, s.eip, s.ilen, s.flags, s.mem;
    }
  }

  lemma SameIsAlike<F, M>(a: Out<F, M, nat>, b: Out<F, M, nat>)
    requires Same(a, b)
    ensures Alike(a, b)
  {
  }

  /** Outcomes alike end an instruction alike. */
  lemma AlikeEnds<F, M>(hw: Hardware<F, M>, start: S<F, M>, a: Out<F, M, nat>, b: Out<F, M, nat>)
    requires Alike(a, b)
    ensures Boundary(Epilogue(hw, start, a).0) == Boundary(Epilogue(hw, start, b).0)
    ensures Epilogue(hw, start, a).1 == Epilogue(hw, start, b).1
  {
  }

  /** Far calls and jumps are not of the hot groups. */
  lemma FarIs<F, M>(hw: Hardware<F, M>, c: Context, s: S<F, M>, w: Width, sub: reg, op: Operand)
    requires w != W8 && (sub == 3 || sub == 5)
    ensures Direct.Group(hw, c, s, w, sub, op) == hw.far(c, s, sub, op)
  {
  }

  lemma PushIs<F, M>(hw: Hardware<F, M>, c: Context, s: S<F, M>, i: reg)
    ensures PushReg(hw, c, s, i) == PushValue(hw, c, s, s.gpr[i])
  {
  }
}
