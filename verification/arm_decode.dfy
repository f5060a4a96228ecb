/** The ARM and Thumb decoders: pure functions of the fetched word. */
module ArmDecode {
  import opened ArmAlu
  import opened ArmRegisters

  type u16 = x: int | 0 <= x < 0x1_0000

  /** A register, or the word-aligned PC of the Thumb PC-relative forms. */
  type areg = i: int | 0 <= i <= 16

  const PCA: areg := 16

  /** Data-processing opcodes, bits 24:21. */
  datatype AluOp = AND | EOR | SUB | RSB | ADD | ADC | SBC | RSC | TST | TEQ | CMP | CMN | ORR | MOV | BIC | MVN

  function AluOpOf(n: bits4): AluOp {
    if n == 0 then AND else if n == 1 then EOR else if n == 2 then SUB else if n == 3 then RSB
    else if n == 4 then ADD else if n == 5 then ADC else if n == 6 then SBC else if n == 7 then RSC
    else if n == 8 then TST else if n == 9 then TEQ else if n == 10 then CMP else if n == 11 then CMN
    else if n == 12 then ORR else if n == 13 then MOV else if n == 14 then BIC else MVN
  }

  function ShiftOf(n: nat): Shift
    requires n < 4
  {
    if n == 0 then LSL else if n == 1 then LSR else if n == 2 then ASR else ROR
  }

  /** The second operand of a data-processing instruction. */
  datatype Operand =
    | Imm(value: u32, rotated: bool)
    | ByImm(ty: Shift, rm: reg, amount: bits5)
    | ByReg(ty: Shift, rm: reg, rs: reg)

  /** The offset of a single transfer. */
  datatype Offset = OffImm(value: u32) | OffReg(ty: Shift, rm: reg, amount: bits5)

  /** Halfword and signed transfers. */
  datatype Width = H | SB | SH

  /** Bit `i` says whether register `i` is transferred. */
  type RegList = s: seq<bool> | |s| == 16 witness seq(16, _ => false)

  datatype Insn =
    | Dp(op: AluOp, s: bool, rd: reg, rn: areg, operand: Operand)
    | MulWord(acc: bool, s: bool, rd: reg, ra: reg, rs: reg, rm: reg)
    | MulLong(signed: bool, acc: bool, s: bool, hi: reg, lo: reg, rs: reg, rm: reg)
    | Mrs(spsr: bool, rd: reg)
    | MsrReg(spsr: bool, fields: Fields, rm: reg)
    | MsrImm(spsr: bool, fields: Fields, imm: u32)
    | Branch(link: bool, offset: u32)
    | Bx(rm: reg)
    | Ldr(bytewise: bool, pre: bool, up: bool, wb: bool, rd: reg, rn: areg, off: Offset)
    | Str(bytewise: bool, pre: bool, up: bool, wb: bool, rd: reg, rn: areg, off: Offset)
    | LdrMisc(width: Width, pre: bool, up: bool, wb: bool, rd: reg, rn: areg, off: Offset)
    | StrMisc(pre: bool, up: bool, wb: bool, rd: reg, rn: areg, off: Offset)
    | Ldm(pre: bool, up: bool, s: bool, wb: bool, hollow: bool, base: reg, list: RegList)
    | Stm(pre: bool, up: bool, s: bool, wb: bool, hollow: bool, base: reg, list: RegList)
    | Swp(bytewise: bool, rd: reg, base: reg, rm: reg)
    | Swi(comment: u32)
    | Undef
    | ThumbBl(suffix: bool, off11: nat)

  /** A register-independent instruction; `len` is 4 in ARM state and 2 in Thumb state. */
  datatype Decoded = Decoded(cond: bits4, len: nat, insn: Insn)

  const COND_AL: bits4 := 14

  // --- Fields ------------------------------------------------------------------------------------

  function BitList(w: nat, n: nat): (s: seq<bool>)
    ensures |s| == n
  {
    if n == 0 then [] else [w % 2 == 1] + BitList(w / 2, n - 1)
  }

  /** An 8-bit immediate rotated right by twice `rot`. */
  function Rotated(b: bits8, rot: bits4): u32 {
    if rot == 0 then b else Ror32(b, 2 * rot)
  }

  function FieldsOf(n: bits4): Fields {
    Fields(n % 2 == 1, n / 2 % 2 == 1, n / 4 % 2 == 1, n / 8 == 1)
  }

  function Rn(w: u32): reg { w / 0x1_0000 % 16 }
  function Rd(w: u32): reg { w / 0x1000 % 16 }
  function Rs(w: u32): reg { w / 0x100 % 16 }
  function Rm(w: u32): reg { w % 16 }

  // --- ARM state ---------------------------------------------------------------------------------

  function DecodeArm(w: u32): Decoded {
    Decoded(w / 0x1000_0000, 4, DecodeGroup(w, w / 0x200_0000 % 8))
  }

  function DecodeGroup(w: u32, group: nat): Insn
    requires group < 8
  {
    var wbit, load, bit22, up, pre := w / 0x20_0000 % 2 == 1, w / 0x10_0000 % 2 == 1, w / 0x40_0000 % 2 == 1,
                                      w / 0x80_0000 % 2 == 1, w / 0x100_0000 % 2 == 1;
    if group == 0 then DecodeRegister(w)
    else if group == 1 then
      if w / 0x80_0000 % 32 == 0x06 && w / 0x10_0000 % 4 == 2 && Rd(w) == 15 then
        MsrImm(bit22, FieldsOf(Rn(w)), Rotated(w % 256, Rs(w)))
      else
        Dp(AluOpOf(w / 0x20_0000 % 16), load, Rd(w), Rn(w), Imm(Rotated(w % 256, Rs(w)), Rs(w) != 0))
    else if group == 2 || group == 3 then
      if group == 3 && w / 16 % 2 == 1 then Undef
      else
        var off := if group == 3 then OffReg(ShiftOf(w / 32 % 4), Rm(w), w / 128 % 32) else OffImm(w % 0x1000);
        if load then Ldr(bit22, pre, up, !pre || wbit, Rd(w), Rn(w), off)
        else Str(bit22, pre, up, !pre || wbit, Rd(w), Rn(w), off)
    else if group == 4 then
      var hollow := w % 0x1_0000 == 0;
      var list := BitList(if hollow then 0x8000 else w % 0x1_0000, 16);
      if load then Ldm(pre, up, bit22, wbit, hollow, Rn(w), list)
      else Stm(pre, up, bit22, wbit, hollow, Rn(w), list)
    else if group == 5 then
      var off := w % 0x100_0000;
      Branch(pre, Wrap(4 * (if off >= 0x80_0000 then off - 0x100_0000 else off)))
    else if group == 7 && pre then Swi(w % 0x100_0000)
    else Undef
  }

  /** Group 000: multiplies, swaps, halfword transfers, status moves and register operands. */
  function DecodeRegister(w: u32): Insn {
    var high, mid, low := w / 0x80_0000 % 32, w / 0x10_0000 % 4, w / 16 % 16;
    var bit21, bit22, s := w / 0x20_0000 % 2 == 1, w / 0x40_0000 % 2 == 1, w / 0x10_0000 % 2 == 1;
    if w / 16 % 0x100_0000 == 0x12_FFF1 then Bx(Rm(w))
    else if high == 2 && mid == 0 && w / 16 % 256 == 9 then Swp(bit22, Rd(w), Rn(w), Rm(w))
    else if w / 0x40_0000 % 64 == 0 && low == 9 then MulWord(bit21, s, Rn(w), Rd(w), Rs(w), Rm(w))
    else if high == 1 && low == 9 then MulLong(bit22, bit21, s, Rn(w), Rd(w), Rs(w), Rm(w))
    else if w / 128 % 2 == 1 && w / 16 % 2 == 1 then DecodeHalfword(w)
    else if high == 2 && mid == 0 && Rn(w) == 15 && w % 0x1000 == 0 then Mrs(bit22, Rd(w))
    else if high == 2 && mid == 2 && w / 16 % 0x1000 == 0xF00 then MsrReg(bit22, FieldsOf(Rn(w)), Rm(w))
    else
      var ty := ShiftOf(w / 32 % 4);
      Dp(AluOpOf(w / 0x20_0000 % 16), s, Rd(w), Rn(w),
         if w / 16 % 2 == 1 then ByReg(ty, Rm(w), Rs(w)) else ByImm(ty, Rm(w), w / 128 % 32))
  }

  function DecodeHalfword(w: u32): Insn {
    var sh, load := w / 32 % 4, w / 0x10_0000 % 2 == 1;
    var pre, up, wbit := w / 0x100_0000 % 2 == 1, w / 0x80_0000 % 2 == 1, w / 0x20_0000 % 2 == 1;
    var off := if w / 0x40_0000 % 2 == 1 then OffImm(Rs(w) * 16 + Rm(w)) else OffReg(LSL, Rm(w), 0);
    if sh != 0 && load then
      LdrMisc(if sh == 1 then H else if sh == 2 then SB else SH, pre, up, !pre || wbit, Rd(w), Rn(w), off)
    else if sh == 1 then StrMisc(pre, up, !pre || wbit, Rd(w), Rn(w), off)
    else Undef
  }

  // --- Thumb state -------------------------------------------------------------------------------

  function DecodeThumb(w: u16): Decoded {
    var cond := w / 256 % 16;
    if w / 0x1000 == 13 && cond != 15 then
      var off := w % 256;
      Decoded(cond, 2, Branch(false, Wrap(2 * (if off >= 128 then off - 256 else off))))
    else Decoded(COND_AL, 2, ThumbInsn(w, w / 0x800))
  }

  function ThumbInsn(w: u16, top: nat): Insn
    requires top == w / 0x800
  {
    var rd, rs, rn, r8 := w % 8, w / 8 % 8, w / 64 % 8, w / 256 % 8;
    var imm5, imm8 := w / 64 % 32, w % 256;
    if top <= 2 then Dp(MOV, true, rd, 0, ByImm(ShiftOf(top), rs, imm5))
    else if top == 3 then
      Dp(if w / 512 % 2 == 1 then SUB else ADD, true, rd, rs,
         if w / 1024 % 2 == 1 then Imm(rn, false) else ByImm(LSL, rn, 0))
    else if top <= 7 then
      Dp(if top == 4 then MOV else if top == 5 then CMP else if top == 6 then ADD else SUB, true, r8, r8,
         Imm(imm8, false))
    else if top == 8 then (if w / 1024 % 2 == 0 then ThumbAlu(w / 64 % 16, rd, rs) else ThumbHigh(w))
    else if top == 9 then Ldr(false, true, true, false, r8, PCA, OffImm(imm8 * 4))
    else if top <= 11 then ThumbIndexed(w)
    else if top <= 15 then
      var bytewise := top >= 14;
      var off := OffImm(if bytewise then imm5 else imm5 * 4);
      if top % 2 == 1 then Ldr(bytewise, true, true, false, rd, rs, off)
      else Str(bytewise, true, true, false, rd, rs, off)
    else if top == 16 then StrMisc(true, true, false, rd, rs, OffImm(imm5 * 2))
    else if top == 17 then LdrMisc(H, true, true, false, rd, rs, OffImm(imm5 * 2))
    else if top == 18 then Str(false, true, true, false, r8, 13, OffImm(imm8 * 4))
    else if top == 19 then Ldr(false, true, true, false, r8, 13, OffImm(imm8 * 4))
    else if top <= 21 then Dp(ADD, false, r8, if top == 21 then 13 else PCA, Imm(imm8 * 4, false))
    else if top <= 23 then ThumbStack(w)
    else if top <= 25 then
      var hollow := imm8 == 0;
      var list := BitList(if hollow then 0x8000 else imm8, 16);
      if top == 25 then Ldm(false, true, false, true, hollow, r8, list)
      else Stm(false, true, false, true, hollow, r8, list)
    else if top <= 27 then Swi(imm8)
    else if top == 28 then
      var off := w % 2048;
      Branch(false, Wrap(2 * (if off >= 1024 then off - 2048 else off)))
    else if top == 29 then Undef
    else ThumbBl(top == 31, w % 2048)
  }

  /** Format 4: register ALU operations. */
  function ThumbAlu(op: nat, rd: reg, rs: reg): Insn
    requires op < 16
  {
    if op == 2 || op == 3 || op == 4 || op == 7 then
      Dp(MOV, true, rd, 0,
         ByReg(if op == 2 then LSL else if op == 3 then LSR else if op == 4 then ASR else ROR, rd, rs))
    else if op == 9 then Dp(RSB, true, rd, rs, Imm(0, false))
    else if op == 13 then MulWord(false, true, rd, 0, rs, rd)
    else Dp(AluOpOf(op), true, rd, rd, ByImm(LSL, rs, 0))
  }

  /** Format 5: high registers and BX. */
  function ThumbHigh(w: u16): Insn {
    var rd: reg, rs: reg := w % 8 + 8 * (w / 128 % 2), w / 8 % 16;
    var op := w / 256 % 4;
    if op == 0 then Dp(ADD, false, rd, rd, ByImm(LSL, rs, 0))
    else if op == 1 then Dp(CMP, true, 0, rd, ByImm(LSL, rs, 0))
    else if op == 2 then Dp(MOV, false, rd, 0, ByImm(LSL, rs, 0))
    else Bx(rs)
  }

  /** Formats 7 and 8: register-offset transfers. */
  function ThumbIndexed(w: u16): Insn {
    var rd, rb, off := w % 8, w / 8 % 8, OffReg(LSL, w / 64 % 8, 0);
    var hi, lo := w / 2048 % 2 == 1, w / 1024 % 2 == 1;
    if w / 512 % 2 == 0 then
      if hi then Ldr(lo, true, true, false, rd, rb, off) else Str(lo, true, true, false, rd, rb, off)
    else if !hi && !lo then StrMisc(true, true, false, rd, rb, off)
    else LdrMisc(if !hi then SB else if !lo then H else SH, true, true, false, rd, rb, off)
  }

  /** Formats 13 and 14: stack adjustment, PUSH and POP. */
  function ThumbStack(w: u16): Insn {
    var op := w / 256 % 16;
    if op == 0 then Dp(if w / 128 % 2 == 1 then SUB else ADD, false, 13, 13, Imm(w % 128 * 4, false))
    else if op == 4 || op == 5 || op == 12 || op == 13 then
      var load, extra := op >= 12, op % 2 == 1;
      var hollow := w % 256 == 0 && !extra;
      var low := BitList(w % 256, 16);
      var list := if hollow || (extra && load) then low[15 := true] else if extra then low[14 := true] else low;
      if load then Ldm(false, true, false, true, hollow, 13, list)
      else Stm(true, false, false, true, hollow, 13, list)
    else Undef
  }
}
