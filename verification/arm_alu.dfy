/** 32-bit words, the barrel shifter and the carry rules of the ARM core. */
module ArmAlu {
  import opened Words

  type u32 = x: int | 0 <= x < 0x1_0000_0000

  /** Wrapping arithmetic. */
  function Wrap(x: int): u32 {
    x % 0x1_0000_0000
  }

  function Not(a: u32): u32 {
    0xFFFF_FFFF - a
  }

  predicate Negative(a: u32) {
    a >= 0x8000_0000
  }

  datatype BitOp = And | Or | Xor

  function BitOf(op: BitOp, a: nat, b: nat): nat {
    match op
    case And => if a % 2 == 1 && b % 2 == 1 then 1 else 0
    case Or => if a % 2 == 1 || b % 2 == 1 then 1 else 0
    case Xor => if a % 2 != b % 2 then 1 else 0
  }

  /** `a op b` on the low `n` bits. */
  function Bitwise(op: BitOp, a: nat, b: nat, n: nat): (r: nat)
    ensures r < Pow2(n)
  {
    if n == 0 then 0 else BitOf(op, a, b) + 2 * Bitwise(op, a / 2, b / 2, n - 1)
  }

  function Logic(op: BitOp, a: u32, b: u32): u32 {
    Pow2Widths();
    Bitwise(op, a, b, 32)
  }

  // --- Shifts -----------------------------------------------------------------------------

  function Shl32(v: u32, n: nat): u32 {
    Mul(v, Pow2(n)) % 0x1_0000_0000
  }

  function Shr32(v: u32, n: nat): u32 {
    QuotientAtMost(v, Pow2(n));
    Quo(v, Pow2(n))
  }

  function Sar32(v: u32, n: nat): u32 {
    if Negative(v) then Not(Shr32(Not(v), n)) else Shr32(v, n)
  }

  function Ror32(v: u32, n: nat): u32
    requires 1 <= n <= 31
  {
    RotateFits(v, n);
    Shr32(v, n) + Shl32(v, 32 - n)
  }

  /** The two parts of a rotation do not overlap: the low `n` bits land above the rest. */
  lemma RotateFits(v: u32, n: nat)
    requires 1 <= n <= 31
    ensures Shl32(v, 32 - n) == Mul(Rem(v, Pow2(n)), Pow2(32 - n))
    ensures Shr32(v, n) < Pow2(32 - n)
    ensures Shr32(v, n) + Shl32(v, 32 - n) < 0x1_0000_0000
  {
    hide Mul, Quo, Rem, Pow2;
    var p, h := Pow2(n), Pow2(32 - n);
    var q, r := Quo(v, p), Rem(v, p);
    DivMod(v, p);
    Pow2Widths();
    Pow2Add(n, 32 - n);
    Pow2Add(32 - n, n);
    // v << (32 - n) is q * 2^32 + r << (32 - n)
    MulSum(Mul(q, p), r, h);
    MulAssoc(q, p, h);
    MulComm(q, 0x1_0000_0000);
    ProductIs(0x1_0000_0000, q);
    // r << (32 - n) leaves room for q below it
    MulMonotone(r, p - 1, h);
    MulSum(p, 1, h);
    MulBasics(h);
    MulNat(r, h);
    HighPart(q, Mul(r, h), Mul(v, h));
    QuotientAtLeast(v, p, h);
  }

  lemma HighPart(q: int, s: int, x: int)
    requires 0 <= s < 0x1_0000_0000 && x == 0x1_0000_0000 * q + s
    ensures x % 0x1_0000_0000 == s
  {
  }

  datatype Shift = LSL | LSR | ASR | ROR

  /** A shifter result and its carry-out. */
  datatype Shifted = Shifted(value: u32, carry: bool)

  /** Shift by an immediate amount; amount 0 encodes pass-through, 32-bit shifts and RRX. */
  function ShiftImm(ty: Shift, n: nat, v: u32, carryIn: bool): Shifted
    requires n < 32
  {
    match ty
    case LSL => if n == 0 then Shifted(v, carryIn) else Shifted(Shl32(v, n), Bit(v, 32 - n))
    case LSR => if n == 0 then Shifted(0, Negative(v)) else Shifted(Shr32(v, n), Bit(v, n - 1))
    case ASR => if n == 0 then Shifted(if Negative(v) then 0xFFFF_FFFF else 0, Negative(v))
                else Shifted(Sar32(v, n), Bit(v, n - 1))
    case ROR => if n == 0 then Shifted(v / 2 + (if carryIn then 0x8000_0000 else 0), v % 2 == 1)
                else Shifted(Ror32(v, n), Bit(v, n - 1))
  }

  /** Shift by the low byte of a register, used as it is. */
  function ShiftReg(ty: Shift, n: nat, v: u32, carryIn: bool): Shifted
    requires n < 256
  {
    if n == 0 then Shifted(v, carryIn)
    else
      match ty
      case LSL => if n <= 31 then Shifted(Shl32(v, n), Bit(v, 32 - n))
                  else if n == 32 then Shifted(0, v % 2 == 1) else Shifted(0, false)
      case LSR => if n <= 31 then Shifted(Shr32(v, n), Bit(v, n - 1))
                  else if n == 32 then Shifted(0, Negative(v)) else Shifted(0, false)
      case ASR => if n <= 31 then Shifted(Sar32(v, n), Bit(v, n - 1))
                  else Shifted(if Negative(v) then 0xFFFF_FFFF else 0, Negative(v))
      case ROR => if n % 32 == 0 then Shifted(v, Negative(v)) else Shifted(Ror32(v, n % 32), Bit(v, n % 32 - 1))
  }

  /** An immediate encoding is the register shift it stands for. */
  lemma ImmediateIsRegister(ty: Shift, n: nat, v: u32, carryIn: bool)
    requires n < 32 && !(ty == ROR && n == 0)
    ensures ShiftImm(ty, n, v, carryIn) == ShiftReg(ty, if n == 0 && ty != LSL then 32 else n, v, carryIn)
  {
    hide Shl32, Shr32, Sar32, Ror32, Bit;
  }

  /** One more register shift places is one more one-bit shift, all the way to saturation. */
  lemma RightShiftsChain(v: u32, n: nat, carryIn: bool)
    requires 1 <= n < 255
    ensures var one := ShiftReg(LSR, n, v, carryIn);
            ShiftReg(LSR, n + 1, v, carryIn) == ShiftReg(LSR, 1, one.value, one.carry)
  {
    hide Mul, Quo, Rem, Pow2;
    Pow2Base();
    Pow2Add(n, 1);
    Pow2Widths();
    if n <= 31 {
      DivDiv(v, Pow2(n), 2);
      QuotientIs(Quo(v, Pow2(n)), 1);
      QuotientIs(Quo(v, Pow2(n)), 2);
      if n == 31 {
        TopBit(v);
      }
    } else {
      QuotientIs(0, 1);
      QuotientIs(0, 2);
    }
  }

  lemma TopBit(v: u32)
    ensures Quo(v, Pow2(31)) == if Negative(v) then 1 else 0
  {
    hide Mul, Quo, Rem, Pow2;
    Pow2Widths();
    Pow2Double(32);
    MulBasics(Pow2(31));
    DivModUnique(v, Pow2(31), if Negative(v) then 1 else 0, if Negative(v) then v - 0x8000_0000 else v);
  }

  // --- Carry rules --------------------------------------------------------------------------

  datatype Sum = Sum(value: u32, carry: bool, overflow: bool)

  function AddWithCarry(a: u32, b: u32, carry: bool): Sum {
    var r1 := Wrap(a + b);
    var c1 := a + b >= 0x1_0000_0000;
    var r := Wrap(r1 + BoolToInt(carry));
    var c2 := r1 + BoolToInt(carry) >= 0x1_0000_0000;
    Sum(r, c1 || c2, Negative(a) != Negative(r) && Negative(b) != Negative(r))
  }

  /** `a - b`, less one more when `carry` is clear. */
  function SubWithCarry(a: u32, b: u32, carry: bool): Sum {
    AddWithCarry(a, Not(b), carry)
  }

  /** The word as a two's complement number. */
  function Signed32(a: u32): int {
    if Negative(a) then a - 0x1_0000_0000 else a
  }

  /** The carry is the 33rd bit, and overflow means the signed sum does not fit. */
  lemma AddMeans(a: u32, b: u32, carry: bool)
    ensures var s := AddWithCarry(a, b, carry);
            && s.value + (if s.carry then 0x1_0000_0000 else 0) == a + b + BoolToInt(carry)
            && var sum := Signed32(a) + Signed32(b) + BoolToInt(carry);
               && (s.overflow <==> !(-0x8000_0000 <= sum < 0x8000_0000))
               && (!s.overflow ==> Signed32(s.value) == sum)
  {
  }

  /** Carry after a subtraction means no borrow. */
  lemma SubMeans(a: u32, b: u32)
    ensures var s := SubWithCarry(a, b, true);
            && s.value == Wrap(a - b) && (s.carry <==> a >= b)
            && (s.overflow <==> !(-0x8000_0000 <= Signed32(a) - Signed32(b) < 0x8000_0000))
  {
  }

  // --- Multiplier timing -----------------------------------------------------------------------

  /** Bytes of `rs` the multiplier consumes before the rest is all zeros (or all ones, if signed). */
  function MulCycles(rs: u32, signed: bool): nat {
    if rs / 0x100 == 0 || (signed && rs / 0x100 == 0xFF_FFFF) then 1
    else if rs / 0x1_0000 == 0 || (signed && rs / 0x1_0000 == 0xFFFF) then 2
    else if rs / 0x100_0000 == 0 || (signed && rs / 0x100_0000 == 0xFF) then 3
    else 4
  }

  method CountMulCycles(rs: u32, signed: bool) returns (m: nat)
    ensures m == MulCycles(rs, signed)
  {
    var rest, ones := rs, 0xFFFF_FFFF;
    m := 1;
    while m < 4
      invariant 1 <= m <= 4
      invariant rest == if m == 1 then rs else if m == 2 then rs / 0x100 else if m == 3 then rs / 0x1_0000
                        else rs / 0x100_0000
      invariant ones == if m == 1 then 0xFFFF_FFFF else if m == 2 then 0xFF_FFFF else if m == 3 then 0xFFFF else 0xFF
      invariant MulCycles(rs, signed) >= m
    {
      rest, ones := rest / 256, ones / 256;
      if rest == 0 || (signed && rest == ones) {
        return m;
      }
      m := m + 1;
    }
  }
}
