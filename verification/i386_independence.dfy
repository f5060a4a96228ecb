/** Decoding depends on the instruction bytes alone: wherever the same bytes stand, in any memory and with any
    registers and flags, the decode products and the length are the same. */
module I386Independence {
  import opened I386Machine
  import opened I386Hot
  import opened I386Equivalence
  import opened I386Decoupled

  /** Where the instruction under way began: the length counts the bytes since. */
  function Origin<F, M>(s: S<F, M>): u32 {
    Wrap(s.eip - s.ilen)
  }

  function At(origin: u32, i: nat): u32 {
    Wrap(origin + i)
  }

  /** The `n` code bytes at one place in a memory are those at a place in another, faults included. */
  predicate SameCode<F, M>(hw: Hardware<F, M>, a: M, p: u32, b: M, q: u32, n: nat) {
    forall i: nat :: i < n ==> hw.fetch(a, At(p, i)) == hw.fetch(b, At(q, i))
  }

  /** Equally far into instructions whose first `n` bytes are the same; nothing else need be. */
  predicate Twin<F, M>(hw: Hardware<F, M>, n: nat, s: S<F, M>, t: S<F, M>) {
    s.ilen == t.ilen && SameCode(hw, s.mem, Origin(s), t.mem, Origin(t), n)
  }

  /** Only EIP and the length move, together and within the limit. */
  predicate Along<F, M>(s: S<F, M>, u: S<F, M>) {
    Origin(u) == Origin(s) && s.ilen <= u.ilen && (u.ilen == s.ilen || u.ilen <= 15)
  }

  /** What one twin fetches within the common bytes the other fetches too; with all 15 in common, so are the
      faults. */
  ghost predicate Tracks<F, M, T>(hw: Hardware<F, M>, n: nat, s: S<F, M>, t: S<F, M>, a: Out<F, M, T>,
                                  b: Out<F, M, T>) {
    && (a.Ok? ==> Along(s, a.s))
    && (Twin(hw, n, s, t) && s.ilen <= n ==>
          && (a.Ok? && a.s.ilen <= n ==> b.Ok? && b.v == a.v && Along(t, b.s) && Twin(hw, n, a.s, b.s))
          && (a.Fault? && n >= 15 ==> b.Fault? && b.e == a.e))
  }

  lemma Fetches<F, M>(hw: Hardware<F, M>, n: nat, s: S<F, M>, t: S<F, M>)
    ensures Tracks(hw, n, s, t, Fetch8(hw, s), Fetch8(hw, t))
    ensures Tracks(hw, n, s, t, Fetch16(hw, s), Fetch16(hw, t))
    ensures Tracks(hw, n, s, t, Fetch32(hw, s), Fetch32(hw, t))
  {
    hide Fetch8, Fetch16, Twin, Origin;
    ByteFetch(hw, n, s, t);
    WordFetch(hw, n, s, t);
    WordFetch(hw, n, Fetch16(hw, s).s, Fetch16(hw, t).s);
  }

  lemma ByteFetch<F, M>(hw: Hardware<F, M>, n: nat, s: S<F, M>, t: S<F, M>)
    ensures Tracks(hw, n, s, t, Fetch8(hw, s), Fetch8(hw, t))
  {
    hide Wrap, Origin, At;
    OneByte(s);
    OneByte(t);
  }

  lemma OneByte<F, M>(s: S<F, M>)
    ensures At(Origin(s), s.ilen) == s.eip && Origin(s.(ilen := s.ilen + 1, eip := Wrap(s.eip + 1))) == Origin(s)
  {
  }

  lemma WordFetch<F, M>(hw: Hardware<F, M>, n: nat, s: S<F, M>, t: S<F, M>)
    ensures Tracks(hw, n, s, t, Fetch16(hw, s), Fetch16(hw, t))
  {
    hide Fetch8, Twin, Origin;
    ByteFetch(hw, n, s, t);
    ByteFetch(hw, n, Fetch8(hw, s).s, Fetch8(hw, t).s);
  }

  lemma Immediates<F, M>(hw: Hardware<F, M>, n: nat, c: Context, s: S<F, M>, t: S<F, M>, k: ImmKind, md: nat,
                         wide: bool)
    ensures Tracks(hw, n, s, t, FetchImm(hw, c, s, k), FetchImm(hw, c, t, k))
    ensures Tracks(hw, n, s, t, Disp(hw, s, md, wide), Disp(hw, t, md, wide))
  {
    hide Fetch8, Fetch16, Fetch32, Twin, Origin;
    Fetches(hw, n, s, t);
  }

  lemma Formulas<F, M>(hw: Hardware<F, M>, n: nat, c: Context, s: S<F, M>, t: S<F, M>, m: u8, d: Insn)
    ensures Tracks(hw, n, s, t, Ea16Formula(hw, c, s, m, d), Ea16Formula(hw, c, t, m, d))
    ensures Tracks(hw, n, s, t, SibFormula(hw, s, m, d), SibFormula(hw, t, m, d))
    ensures Tracks(hw, n, s, t, Ea32Formula(hw, c, s, m, d), Ea32Formula(hw, c, t, m, d))
  {
    hide Fetch8, Fetch16, Fetch32, Disp, Twin, Origin, Insn.SetSeg, Insn.SetScale, Context.Seg, Wrap;
    Fetches(hw, n, s, t);
    Immediates(hw, n, c, s, t, NoImm, Md(m), false);
    Immediates(hw, n, c, s, t, NoImm, Md(m), true);
    Fetches(hw, n, Fetch8(hw, s).s, Fetch8(hw, t).s);
    Immediates(hw, n, c, SibFormula(hw, s, m, d).s, SibFormula(hw, t, m, d).s, NoImm, Md(m), true);
  }

  lemma ModRmBytes<F, M>(hw: Hardware<F, M>, n: nat, c: Context, s: S<F, M>, t: S<F, M>, d: Insn)
    ensures Tracks(hw, n, s, t, DecodeModRm(hw, c, s, d), DecodeModRm(hw, c, t, d))
  {
    hide Fetch8, Ea16Formula, Ea32Formula, Twin, Origin, Insn.SetKind;
    Fetches(hw, n, s, t);
    if Fetch8(hw, s).Ok? {
      var m := Fetch8(hw, s).v;
      Formulas(hw, n, c, Fetch8(hw, s).s, Fetch8(hw, t).s, m, d.(reg := RegField(m)).SetKind(MemOperand));
    }
  }

  lemma Operands<F, M>(hw: Hardware<F, M>, n: nat, c: Context, s: S<F, M>, t: S<F, M>, d: Insn, k: ImmKind, form: nat)
    ensures Tracks(hw, n, s, t, WithModRm(hw, c, s, d, k), WithModRm(hw, c, t, d, k))
    ensures Tracks(hw, n, s, t, DecodeAluGrp(hw, c, s, d, k), DecodeAluGrp(hw, c, t, d, k))
    ensures Tracks(hw, n, s, t, DecodeMovImm(hw, c, s, d, k), DecodeMovImm(hw, c, t, d, k))
    ensures Tracks(hw, n, s, t, DecodeShift(hw, c, s, d, form), DecodeShift(hw, c, t, d, form))
  {
    hide DecodeModRm, FetchImm, Twin, Origin, Insn.SetWb;
    ModRmBytes(hw, n, c, s, t, d);
    var r, q := DecodeModRm(hw, c, s, d), DecodeModRm(hw, c, t, d);
    Immediates(hw, n, c, r.s, q.s, k, 0, false);
    Immediates(hw, n, c, r.s, q.s, Byte, 0, false);
  }

  lemma ImmediateOnly<F, M>(hw: Hardware<F, M>, n: nat, c: Context, s: S<F, M>, t: S<F, M>, d: Insn, k: ImmKind)
    ensures Tracks(hw, n, s, t, WithImm(hw, c, s, d, k), WithImm(hw, c, t, d, k))
  {
    hide FetchImm, Twin, Origin;
    Immediates(hw, n, c, s, t, k, 0, false);
  }

  lemma Specials<F, M>(hw: Hardware<F, M>, n: nat, c: Context, s: S<F, M>, t: S<F, M>)
    ensures Tracks(hw, n, s, t, DecodeLea(hw, c, s), DecodeLea(hw, c, t))
    ensures Tracks(hw, n, s, t, DecodeGroupFE(hw, c, s), DecodeGroupFE(hw, c, t))
    ensures Tracks(hw, n, s, t, DecodeGroupFF(hw, c, s), DecodeGroupFF(hw, c, t))
  {
    hide DecodeModRm, Twin, Origin, Blank, Insn.Kind;
    ModRmBytes(hw, n, c, s, t, Blank(c).(op := LeaM));
    ModRmBytes(hw, n, c, s, t, Blank(c).(op := IncDecRm8));
    ModRmBytes(hw, n, c, s, t, Blank(c));
  }

  /** Decoding that reads nothing, and wrapping what decoding found. */
  lemma Wrapped<F, M>(hw: Hardware<F, M>, n: nat, s: S<F, M>, t: S<F, M>)
    ensures forall d: Decoded :: Tracks(hw, n, s, t, Ok(s, d), Ok(t, d))
    ensures forall a: Out<F, M, Insn>, b: Out<F, M, Insn> ::
              Tracks(hw, n, s, t, a, b) ==> Tracks(hw, n, s, t, AsHot(a), AsHot(b))
  {
    hide Twin, Origin;
  }

  lemma AluBytes<F, M>(hw: Hardware<F, M>, n: nat, c: Context, s: S<F, M>, t: S<F, M>, opcode: u8)
    requires opcode < 0x40 && opcode % 8 < 6
    ensures Tracks(hw, n, s, t, DecodeAlu(hw, c, s, opcode), DecodeAlu(hw, c, t, opcode))
  {
    hide WithModRm, WithImm, Twin, Origin, Blank, Insn.SetWb;
    var form := opcode % 8;
    var op := if form == 0 then AluRmR8 else if form == 1 then AluRmRW else if form == 2 then AluRRm8
              else if form == 3 then AluRRmW else if form == 4 then AluAccImm8 else AluAccImmW;
    var d := Blank(c).(aux := opcode / 8).SetWb(opcode / 8 != 7).(op := op);
    Operands(hw, n, c, s, t, d, NoImm, 0);
    ImmediateOnly(hw, n, c, s, t, d, if form == 4 then Byte else Full);
  }

  lemma TwoBytes<F, M>(hw: Hardware<F, M>, n: nat, c: Context, s: S<F, M>, t: S<F, M>, op2: u8)
    ensures Tracks(hw, n, s, t, Decode0F(hw, c, s, op2), Decode0F(hw, c, t, op2))
  {
    hide WithModRm, WithImm, Tracks, AsHot, Blank;
    Wrapped(hw, n, s, t);
    if op2 in {0xAF, 0xB6, 0xB7, 0xBE, 0xBF} {
      var op := if op2 == 0xAF then ImulRRmW else if op2 == 0xB6 then MovzxB else if op2 == 0xB7 then MovzxW
                else if op2 == 0xBE then MovsxB else MovsxW;
      Operands(hw, n, c, s, t, Blank(c).(op := op), NoImm, 0);
    } else if 0x80 <= op2 < 0x90 {
      ImmediateOnly(hw, n, c, s, t, Blank(c).(op := JccRel, aux := op2 % 16), Relative);
    } else {
      var op := if op2 < 0x50 then CmovW else SetccRm;
      Operands(hw, n, c, s, t, Blank(c).(op := op, aux := op2 % 16), NoImm, 0);
    }
  }

  lemma LowBytes<F, M>(hw: Hardware<F, M>, n: nat, c: Context, s: S<F, M>, t: S<F, M>, opcode: u8)
    requires opcode < 0x80
    ensures Tracks(hw, n, s, t, DecodeOp(hw, c, s, opcode), DecodeOp(hw, c, t, opcode))
  {
    hide DecodeAlu, WithModRm, WithImm, Decode0F, Fetch8, Twin, Origin, AsHot, Blank;
    Wrapped(hw, n, s, t);
    if opcode < 0x40 && opcode % 8 < 6 {
      AluBytes(hw, n, c, s, t, opcode);
    } else if opcode == 0x0F {
      Fetches(hw, n, s, t);
      if Fetch8(hw, s).Ok? {
        TwoBytes(hw, n, c, Fetch8(hw, s).s, Fetch8(hw, t).s, Fetch8(hw, s).v);
      }
    } else if opcode == 0x69 || opcode == 0x6B {
      Operands(hw, n, c, s, t, Blank(c).(op := ImulRmImm), if opcode == 0x69 then Full else SignedByte, 0);
    } else if 0x60 <= opcode {
      var d := if 0x70 <= opcode then Blank(c).(op := JccRel, aux := opcode % 16) else Blank(c).(op := PushI);
      ImmediateOnly(hw, n, c, s, t, d, if opcode == 0x68 then Full else SignedByte);
    }
  }

  lemma OperandBytes<F, M>(hw: Hardware<F, M>, n: nat, c: Context, s: S<F, M>, t: S<F, M>, opcode: u8)
    requires 0x84 <= opcode < 0x8C
    ensures Tracks(hw, n, s, t, DecodeOp(hw, c, s, opcode), DecodeOp(hw, c, t, opcode))
  {
    hide WithModRm, Tracks, AsHot, Blank;
    Wrapped(hw, n, s, t);
    if opcode < 0x86 {
      Operands(hw, n, c, s, t, Blank(c).(op := if opcode == 0x84 then AluRmR8 else AluRmRW, aux := 4), NoImm, 0);
    } else {
      var op := if opcode == 0x86 then XchgRm8 else if opcode == 0x87 then XchgRmW else if opcode == 0x88 then MovRmR8
                else if opcode == 0x89 then MovRmRW else if opcode == 0x8A then MovRRm8 else MovRRmW;
      Operands(hw, n, c, s, t, Blank(c).(op := op), NoImm, 0);
    }
  }

  lemma ConstantBytes<F, M>(hw: Hardware<F, M>, n: nat, c: Context, s: S<F, M>, t: S<F, M>, opcode: u8)
    requires 0x90 <= opcode < 0xC0
    ensures Tracks(hw, n, s, t, DecodeOp(hw, c, s, opcode), DecodeOp(hw, c, t, opcode))
  {
    hide WithImm, Tracks, AsHot, Blank;
    Wrapped(hw, n, s, t);
    if opcode == 0xA8 || opcode == 0xA9 {
      var op := if opcode == 0xA8 then AluAccImm8 else AluAccImmW;
      ImmediateOnly(hw, n, c, s, t, Blank(c).(op := op, aux := 4), if opcode == 0xA8 then Byte else Full);
    } else if 0xB0 <= opcode {
      var op := if opcode < 0xB8 then MovRegImm8 else MovRegImmW;
      ImmediateOnly(hw, n, c, s, t, Blank(c).(op := op, reg := opcode % 8), if opcode < 0xB8 then Byte else Full);
    }
  }

  lemma MiddleBytes<F, M>(hw: Hardware<F, M>, n: nat, c: Context, s: S<F, M>, t: S<F, M>, opcode: u8)
    requires 0x80 <= opcode < 0xC0
    ensures Tracks(hw, n, s, t, DecodeOp(hw, c, s, opcode), DecodeOp(hw, c, t, opcode))
  {
    hide DecodeAluGrp, DecodeLea, Tracks, AsHot, Blank;
    Wrapped(hw, n, s, t);
    if opcode < 0x84 {
      var op := if opcode % 2 == 0 then AluGrpImm8 else AluGrpImmW;
      Operands(hw, n, c, s, t, Blank(c).(op := op),
               if opcode == 0x81 then Full else if opcode == 0x83 then SignedByte else Byte, 0);
    } else if opcode < 0x8C {
      OperandBytes(hw, n, c, s, t, opcode);
    } else if opcode == 0x8D {
      Specials(hw, n, c, s, t);
    } else if 0x90 <= opcode {
      ConstantBytes(hw, n, c, s, t, opcode);
    }
  }

  lemma HighBytes<F, M>(hw: Hardware<F, M>, n: nat, c: Context, s: S<F, M>, t: S<F, M>, opcode: u8)
    requires 0xC0 <= opcode
    ensures Tracks(hw, n, s, t, DecodeOp(hw, c, s, opcode), DecodeOp(hw, c, t, opcode))
  {
    hide WithImm, DecodeMovImm, DecodeShift, DecodeGroupFE, DecodeGroupFF, Tracks, AsHot, Blank;
    Wrapped(hw, n, s, t);
    if opcode == 0xFE || opcode == 0xFF {
      Specials(hw, n, c, s, t);
    } else if opcode in {0xC0, 0xC1, 0xD0, 0xD1, 0xD2, 0xD3} {
      var op := if opcode % 2 == 0 then ShiftRm8 else ShiftRmW;
      Operands(hw, n, c, s, t, Blank(c).(op := op), NoImm, if opcode < 0xD0 then 0 else if opcode < 0xD2 then 1 else 2);
    } else if opcode == 0xC6 || opcode == 0xC7 {
      Operands(hw, n, c, s, t, Blank(c).(op := if opcode == 0xC6 then MovRmImm8 else MovRmImmW),
               if opcode == 0xC6 then Byte else Full, 0);
    } else if opcode in {0xC2, 0xE8, 0xE9, 0xEB} {
      var op := if opcode == 0xC2 then RetImm else if opcode == 0xE8 then CallNear else JmpShort;
      ImmediateOnly(hw, n, c, s, t, Blank(c).(op := op),
                    if opcode == 0xC2 then Word else if opcode == 0xEB then SignedByte else Relative);
    }
  }

  lemma OpcodeBytes<F, M>(hw: Hardware<F, M>, n: nat, c: Context, s: S<F, M>, t: S<F, M>, opcode: u8)
    ensures Tracks(hw, n, s, t, DecodeOp(hw, c, s, opcode), DecodeOp(hw, c, t, opcode))
  {
    hide DecodeOp, Tracks;
    if opcode < 0x80 {
      LowBytes(hw, n, c, s, t, opcode);
    } else if opcode < 0xC0 {
      MiddleBytes(hw, n, c, s, t, opcode);
    } else {
      HighBytes(hw, n, c, s, t, opcode);
    }
  }

  /** The post-decode EIP is the start of the instruction plus the length that is recorded for it. */
  lemma LengthGivesEip<F, M>(hw: Hardware<F, M>, c: Context, s: S<F, M>, opcode: u8, npfx: nat)
    requires Encodable(c)
    ensures var r := TryDecode(hw, c, s, opcode, npfx);
            r.1.Hot? ==>
              s.ilen <= r.0.ilen == r.1.d.len && r.0 == s.(eip := Wrap(Origin(s) + r.1.d.len), ilen := r.1.d.len)
  {
    hide DecodeOp, Encodable, Insn.SetNpfx, Insn.Npfx, Insn.Osize32, Insn.Asize32, Insn.SegOverride, PrefixBits,
      Wrap, Twin, Origin;
    OpcodeBytes(hw, 0, c, s, s, opcode);
    DecodeKept(hw, c, s, opcode);
    HotCarriesContext(hw, c, s, opcode, npfx);
    OneByte(DecodeOp(hw, c, s, opcode).s);
  }

  /** The decode products depend on the instruction's own bytes and the prefix state alone; a failed or cold decode,
      on the bytes up to the length limit. */
  lemma DecodeReadsBytesOnly<F, M>(hw: Hardware<F, M>, n: nat, c: Context, s: S<F, M>, t: S<F, M>, opcode: u8,
                                   npfx: nat)
    requires Encodable(c) && Twin(hw, n, s, t) && s.ilen <= n
    ensures var a, b := TryDecode(hw, c, s, opcode, npfx), TryDecode(hw, c, t, opcode, npfx);
            n >= 15 || (a.1.Hot? && a.1.d.len <= n) ==> b.1 == a.1
  {
    hide DecodeOp, Encodable, Insn.SetNpfx, PrefixBits, SameCode, Origin, Kept;
    OpcodeBytes(hw, n, c, s, t, opcode);
    LengthGivesEip(hw, c, s, opcode, npfx);
  }

  /** An instruction decoded once executes as the direct interpreter does wherever its bytes stand again. */
  lemma DecodedOnceRunsAnywhere<F, M>(hw: Hardware<F, M>, c: Context, s: S<F, M>, t: S<F, M>, opcode: u8, npfx: nat)
    requires Encodable(c) && TryDecode(hw, c, s, opcode, npfx).1.Hot?
    requires Twin(hw, TryDecode(hw, c, s, opcode, npfx).1.d.len, s, t)
    ensures var d := TryDecode(hw, c, s, opcode, npfx).1.d;
            Same(ExecDecoded(hw, c, t.(eip := Wrap(Origin(t) + d.len), ilen := d.len), d), Dispatch(hw, c, t, opcode))
  {
    hide TryDecode, Dispatch, ExecDecoded, Same, Twin, Wrap, Origin, Encodable;
    var d := TryDecode(hw, c, s, opcode, npfx).1.d;
    LengthGivesEip(hw, c, s, opcode, npfx);
    DecodeReadsBytesOnly(hw, d.len, c, s, t, opcode, npfx);
    LengthGivesEip(hw, c, t, opcode, npfx);
    DecoupledIsFused(hw, c, t, opcode, npfx);
  }
}
