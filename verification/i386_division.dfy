/** The 386's signed divider: a restoring loop whose remainder register is exactly `w` bits, so a
    bit shifted past its top is lost. It is compared with the 8086's IDIV. */
module I386Division {
  import opened Words
  import opened X86Flags
  import opened X86Division

  // --- The lossy core --------------------------------------------------------------------

  /** The remainder register with the next dividend bit shifted in; its top bit is lost. */
  function ShiftIn(w: nat, r: nat, bit: bool): (s: nat)
    requires w >= 1 && r < Pow2(w)
    ensures s < Pow2(w)
    ensures r < Pow2(w - 1) ==> s == 2 * r + BoolToInt(bit)
  {
    Pow2Double(w);
    (if r >= Pow2(w - 1) then 2 * r - Pow2(w) else 2 * r) + BoolToInt(bit)
  }

  /** Quotient (its `k` leading bits, in place) and remainder after `k` steps. */
  function LossySteps(w: nat, hi: nat, lo: nat, d: nat, k: nat): (s: (nat, nat))
    requires w >= 1 && hi < Pow2(w) && k <= w
    ensures s.1 < Pow2(w)
  {
    if k == 0 then (0, hi)
    else
      var (q, r) := LossySteps(w, hi, lo, d, k - 1);
      var t := ShiftIn(w, r, Bit(lo, w - k));
      if t >= d then (q + Pow2(w - k), t - d) else (q, t)
  }

  lemma LossyUnfold(w: nat, hi: nat, lo: nat, d: nat, k: nat)
    requires w >= 1 && hi < Pow2(w) && k <= w
    ensures k == 0 ==> LossySteps(w, hi, lo, d, k) == (0, hi)
    ensures k > 0 ==>
              var (q, r) := LossySteps(w, hi, lo, d, k - 1);
              var t := ShiftIn(w, r, Bit(lo, w - k));
              LossySteps(w, hi, lo, d, k) == if t >= d then (q + Pow2(w - k), t - d) else (q, t)
  {
    hide Pow2, Bit, ShiftIn;
  }

  lemma {:induction false} LossyQuotientFits(w: nat, hi: nat, lo: nat, d: nat, k: nat)
    requires w >= 1 && hi < Pow2(w) && k <= w
    ensures LossySteps(w, hi, lo, d, k).0 <= Pow2(w) - Pow2(w - k)
  {
    hide Pow2, Bit, ShiftIn, LossySteps;
    LossyUnfold(w, hi, lo, d, k);
    if k > 0 {
      LossyQuotientFits(w, hi, lo, d, k - 1);
      Pow2Double(w - k + 1);
    }
  }

  /** While the divisor is at most half the register's range no bit is ever lost. */
  lemma {:induction false} LossyStepsExact(w: nat, hi: nat, lo: nat, d: nat, k: nat) returns (q: nat)
    requires w >= 1 && lo < Pow2(w) && hi < d <= Pow2(w - 1) && k <= w
    ensures hi < Pow2(w)
    ensures var s := LossySteps(w, hi, lo, d, k);
            && s.0 == Mul(q, Pow2(w - k)) && s.1 < d
            && Mul(hi, Pow2(k)) + Quo(lo, Pow2(w - k)) == Mul(q, d) + s.1
  {
    hide *;
    Pow2Double(w);
    LossyUnfold(w, hi, lo, d, k);
    if k == 0 {
      q := 0;
      Pow2Base();
      MulBasics(hi);
      MulBasics(d);
      MulBasics(Pow2(w));
      DivModUnique(lo, Pow2(w), 0, lo);
    } else {
      var p := LossyStepsExact(w, hi, lo, d, k - 1);
      var r := LossySteps(w, hi, lo, d, k - 1).1;
      NextBit(lo, w - k);
      Pow2Double(k);
      Pow2Double(w - k + 1);
      MulTwice(hi, Pow2(k - 1));
      MulTwice(p, d);
      MulTwice(p, Pow2(w - k));
      q := if 2 * r + BoolToInt(Bit(lo, w - k)) >= d then 2 * p + 1 else 2 * p;
    }
  }

  /** A quotient below `2^w` comes out exact, whatever the divider loses elsewhere. */
  lemma LossyExact(w: nat, n: nat, hi: nat, lo: nat, d: nat)
    requires w >= 1 && hi < Pow2(w) && lo < Pow2(w) && n == Pair(w, hi, lo)
    requires 0 < d <= Pow2(w - 1) && Quo(n, d) < Pow2(w)
    ensures LossySteps(w, hi, lo, d, w) == (Quo(n, d), Rem(n, d))
  {
    hide Mul, Quo, Rem, Pow2, LossySteps;
    FaultIffHighHalfReaches(w, hi, lo, d);
    var q := LossyStepsExact(w, hi, lo, d, w);
    Pow2Base();
    MulBasics(q);
    MulBasics(lo);
    DivModUnique(lo, 1, lo, 0);
    DivModUnique(n, d, q, LossySteps(w, hi, lo, d, w).1);
  }

  // --- IDIV ------------------------------------------------------------------------------------

  /** The one dividend whose negation overflows the double width. */
  predicate MinimumPair(w: nat, hi: nat, lo: nat)
    requires w >= 1
  {
    hi == Pow2(w - 1) && lo == 0
  }

  /** The high and low halves of the dividend's magnitude. */
  function MagnitudePair(w: nat, hi: nat, lo: nat): (m: (nat, nat))
    requires w >= 1 && hi < Pow2(w) && lo < Pow2(w)
    ensures m.0 < Pow2(w) && m.1 < Pow2(w)
    ensures Pair(w, m.0, m.1) == PairMagnitude(w, hi, lo)
  {
    if Bit(hi, w - 1) then
      NegatePairMagnitude(w, hi, lo);
      (if lo != 0 then Complement(w, hi) else Negate(w, hi), Negate(w, lo))
    else
      SignedPairSign(w, hi, lo);
      (hi, lo)
  }

  /** IDIV as a function, for quotients in range and not. */
  function IdivResult(w: nat, hi: nat, lo: nat, v: nat): Quotient
    requires w >= 1 && hi < Pow2(w) && lo < Pow2(w) && v < Pow2(w)
  {
    if v == 0 || MinimumPair(w, hi, lo) then Overflow
    else
      var (mhi, mlo) := MagnitudePair(w, hi, lo);
      LossyQuotientFits(w, mhi, mlo, Magnitude(w, v), w);
      var (q, rem) := LossySteps(w, mhi, mlo, Magnitude(w, v), w);
      var neg := Bit(hi, w - 1) != Bit(v, w - 1);
      if (if neg then q > Pow2(w - 1) else q >= Pow2(w - 1)) then Overflow
      else Quotient(if neg then Negate(w, q) else q, if Bit(hi, w - 1) then Negate(w, rem) else rem)
  }

  method IdivLossy(w: nat, hi: nat, lo: nat, divisor: nat) returns (q: nat, r: nat)
    requires w >= 1 && hi < Pow2(w) && lo < Pow2(w)
    ensures (q, r) == LossySteps(w, hi, lo, divisor, w)
    ensures q < Pow2(w) && r < Pow2(w)
  {
    hide Pow2, Bit, ShiftIn, LossySteps;
    q, r := 0, hi;
    var i := w;
    LossyUnfold(w, hi, lo, divisor, 0);
    while i > 0
      invariant i <= w && r < Pow2(w)
      invariant (q, r) == LossySteps(w, hi, lo, divisor, w - i)
    {
      i := i - 1;
      LossyUnfold(w, hi, lo, divisor, w - i);
      r := ShiftIn(w, r, Bit(lo, i));
      if r >= divisor {
        r := r - divisor;
        q := q + Pow2(i);
      }
    }
    LossyQuotientFits(w, hi, lo, divisor, w);
  }

  /** IDIV on the signed pair `hi:lo`; the registers are written by the caller. */
  method Idiv(w: nat, hi: nat, lo: nat, v: nat) returns (r: Quotient)
    requires w >= 1 && hi < Pow2(w) && lo < Pow2(w) && v < Pow2(w)
    ensures r == IdivResult(w, hi, lo, v)
    ensures r.Quotient? ==> r.quot < Pow2(w) && r.rem < Pow2(w)
    ensures InRange(w, SignedPair(w, hi, lo), Signed(w, v)) ==>
              ExactAnswer(w, SignedPair(w, hi, lo), Signed(w, v), r)
  {
    hide Pow2, Bit, LossySteps, Negate, MagnitudePair, InRange, ExactAnswer, SignedPair, Signed;
    if InRange(w, SignedPair(w, hi, lo), Signed(w, v)) {
      IdivExact(w, hi, lo, v);
    }
    if v == 0 {
      return Overflow;
    }
    if MinimumPair(w, hi, lo) {
      return Overflow;
    }
    var (mhi, mlo) := MagnitudePair(w, hi, lo);
    var q, rem := IdivLossy(w, mhi, mlo, Magnitude(w, v));
    var neg := Bit(hi, w - 1) != Bit(v, w - 1);
    if neg {
      if q > Pow2(w - 1) {
        return Overflow;
      }
      q := Negate(w, q);
    } else {
      if q >= Pow2(w - 1) {
        return Overflow;
      }
    }
    rem := if Bit(hi, w - 1) then Negate(w, rem) else rem;
    return Quotient(q, rem);
  }

  /** The registers IDIV divides and writes. */
  class Cpu {
    var eax: nat
    var edx: nat

    predicate Valid()
      reads this
    {
      eax < 0x1_0000_0000 && edx < 0x1_0000_0000
    }

    /** IDIV r/m8: AX by `v`, quotient to AL and remainder to AH. */
    method Idiv8(v: nat) returns (ok: bool)
      requires Valid() && v < Pow2(8)
      modifies this`eax
      ensures Valid() && Pow2(8) == 256 && eax / 0x1_0000 == old(eax) / 0x1_0000
      ensures var hi, lo := old(eax) / 256 % 256, old(eax) % 256;
              && IdivResult(8, hi, lo, v) == (if ok then Quotient(eax % 256, eax / 256 % 256) else Overflow)
              && (!ok ==> eax == old(eax))
              && (InRange(8, SignedPair(8, hi, lo), Signed(8, v)) ==> ok)
    {
      hide Pow2, Bit, IdivResult, InRange, SignedPair, Signed;
      Pow2Widths();
      var r := Idiv(8, eax / 256 % 256, eax % 256, v);
      if r.Overflow? {
        return false;
      }
      ByteFields(eax / 0x1_0000, r.rem, r.quot);
      eax := eax / 0x1_0000 * 0x1_0000 + r.rem * 256 + r.quot;
      return true;
    }

    /** IDIV r/m16: DX:AX by `v`, quotient to AX and remainder to DX. */
    method Idiv16(v: nat) returns (ok: bool)
      requires Valid() && v < Pow2(16)
      modifies this
      ensures Valid() && Pow2(16) == 0x1_0000
      ensures eax / 0x1_0000 == old(eax) / 0x1_0000 && edx / 0x1_0000 == old(edx) / 0x1_0000
      ensures var hi, lo := old(edx) % 0x1_0000, old(eax) % 0x1_0000;
              && IdivResult(16, hi, lo, v) == (if ok then Quotient(eax % 0x1_0000, edx % 0x1_0000) else Overflow)
              && (!ok ==> eax == old(eax) && edx == old(edx))
              && (InRange(16, SignedPair(16, hi, lo), Signed(16, v)) ==> ok)
    {
      hide Pow2, Bit, IdivResult, InRange, SignedPair, Signed;
      Pow2Widths();
      var r := Idiv(16, edx % 0x1_0000, eax % 0x1_0000, v);
      if r.Overflow? {
        return false;
      }
      WordFields(eax / 0x1_0000, r.quot);
      WordFields(edx / 0x1_0000, r.rem);
      eax := eax / 0x1_0000 * 0x1_0000 + r.quot;
      edx := edx / 0x1_0000 * 0x1_0000 + r.rem;
      return true;
    }

    /** IDIV r/m32: EDX:EAX by `v`, quotient to EAX and remainder to EDX. */
    method Idiv32(v: nat) returns (ok: bool)
      requires Valid() && v < Pow2(32)
      modifies this
      ensures Valid() && Pow2(32) == 0x1_0000_0000
      ensures IdivResult(32, old(edx), old(eax), v) == (if ok then Quotient(eax, edx) else Overflow)
      ensures !ok ==> eax == old(eax) && edx == old(edx)
      ensures InRange(32, SignedPair(32, old(edx), old(eax)), Signed(32, v)) ==> ok
    {
      hide Pow2, Bit, IdivResult, InRange, SignedPair, Signed;
      Pow2Widths();
      var r := Idiv(32, edx, eax, v);
      if r.Overflow? {
        return false;
      }
      eax, edx := r.quot, r.rem;
      return true;
    }
  }

  lemma ByteFields(top: nat, high: nat, low: nat)
    requires high < 256 && low < 256
    ensures var x := top * 0x1_0000 + high * 256 + low;
            x % 256 == low && x / 256 % 256 == high && x / 0x1_0000 == top
  {
    var x := top * 0x1_0000 + high * 256 + low;
    assert x / 256 == top * 256 + high;
  }

  lemma WordFields(top: nat, low: nat)
    requires low < 0x1_0000
    ensures (top * 0x1_0000 + low) % 0x1_0000 == low && (top * 0x1_0000 + low) / 0x1_0000 == top
  {
  }

  /** The truncated quotient fits the signed operand width. */
  predicate InRange(w: nat, n: int, d: int)
    requires w >= 1
  {
    d != 0 && 0 - Pow2(w - 1) <= TruncDiv(n, d) < Pow2(w - 1)
  }

  ghost predicate ExactAnswer(w: nat, n: int, d: int, r: Quotient)
    requires w >= 1
  {
    && d != 0 && r.Quotient? && r.quot < Pow2(w) && r.rem < Pow2(w)
    && Signed(w, r.quot) == TruncDiv(n, d) && Signed(w, r.rem) == TruncRem(n, d)
  }

  lemma InRangeLossless(w: nat, hi: nat, lo: nat, v: nat, q: int, rem: int)
    requires w >= 1 && hi < Pow2(w) && lo < Pow2(w) && v < Pow2(w)
    requires Magnitude(w, v) > 0 && q <= Pow2(w - 1)
    requires q == Quo(PairMagnitude(w, hi, lo), Magnitude(w, v))
    requires rem == Rem(PairMagnitude(w, hi, lo), Magnitude(w, v))
    ensures var m := MagnitudePair(w, hi, lo); LossySteps(w, m.0, m.1, Magnitude(w, v), w) == (q, rem)
    ensures !MinimumPair(w, hi, lo)
  {
    hide Mul, Quo, Rem, Pow2, LossySteps, Pair, PairMagnitude, Magnitude, MagnitudePair, MinimumPair;
    var (mhi, mlo) := MagnitudePair(w, hi, lo);
    Pow2Double(w);
    LossyExact(w, PairMagnitude(w, hi, lo), mhi, mlo, Magnitude(w, v));
    FaultIffHighHalfReaches(w, mhi, mlo, Magnitude(w, v));
    if MinimumPair(w, hi, lo) {
      MinimumMagnitude(w, hi, lo);
      assert false;
    }
  }

  lemma MinimumMagnitude(w: nat, hi: nat, lo: nat)
    requires w >= 1 && hi < Pow2(w) && lo < Pow2(w) && MinimumPair(w, hi, lo)
    ensures MagnitudePair(w, hi, lo).0 == Pow2(w - 1)
  {
    hide Mul, Quo, Rem, Pow2, Bit, Pair, PairMagnitude;
    SignBit(w, hi);
    Pow2Double(w);
  }

  /** Whenever the true quotient fits, the lossy divider finds it and its remainder. */
  lemma IdivExact(w: nat, hi: nat, lo: nat, v: nat)
    requires w >= 1 && hi < Pow2(w) && lo < Pow2(w) && v < Pow2(w)
    requires InRange(w, SignedPair(w, hi, lo), Signed(w, v))
    ensures ExactAnswer(w, SignedPair(w, hi, lo), Signed(w, v), IdivResult(w, hi, lo, v))
  {
    hide Mul, Quo, Rem, Pow2, Bit, LossySteps, TruncDiv, TruncRem, Pair, SignedPair, Signed, Negate, MagnitudePair,
      MinimumPair;
    var n, d := SignedPair(w, hi, lo), Signed(w, v);
    SignBit(w, v);
    var q, rem := Quo(Abs(n), Abs(d)), Rem(Abs(n), Abs(d));
    Magnitudes(n, d, q, rem);
    NegateSigned(w, q);
    NegateSigned(w, rem);
    SignedPairSign(w, hi, lo);
    InRangeLossless(w, hi, lo, v, q, rem);
  }

  // --- Across the two generations ------------------------------------------------------------

  /** Where the 8086's IDIV (without REP) succeeds, the 386's gives the same two words. */
  lemma GenerationsAgree(w: nat, hi: nat, lo: nat, v: nat, r: Quotient)
    requires w >= 1 && hi < Pow2(w) && lo < Pow2(w) && v < Pow2(w)
    requires Answer(w, hi, lo, v, true, false, r) && r.Quotient?
    ensures IdivResult(w, hi, lo, v) == r
  {
    hide Pow2, Bit, TruncDiv, TruncRem, SignedPair, IdivResult, Signed;
    IdivExact(w, hi, lo, v);
    var s := IdivResult(w, hi, lo, v);
    SignedInjective(w, r.quot, s.quot);
    SignedInjective(w, r.rem, s.rem);
  }

  /** Among in-range quotients the generations differ on -2^(w-1) only: the 8086 faults, the 386
      returns it. */
  lemma MinimumQuotientDiffers(w: nat, hi: nat, lo: nat, v: nat)
    requires w >= 1 && hi < Pow2(w) && lo < Pow2(w) && v < Pow2(w)
    requires InRange(w, SignedPair(w, hi, lo), Signed(w, v))
    ensures IdivResult(w, hi, lo, v).Quotient?
    ensures Answer(w, hi, lo, v, true, false, Overflow) <==>
            TruncDiv(SignedPair(w, hi, lo), Signed(w, v)) == 0 - Pow2(w - 1)
  {
    hide Pow2, Bit, TruncDiv, TruncRem, SignedPair, IdivResult, Signed;
    IdivExact(w, hi, lo, v);
  }

  /** The range condition is needed: 0xBF80 (-16512) divided by 1 does not fit eight bits, yet the
      lossy divider reports no fault and returns -128. */
  lemma OverflowEscapes()
    ensures 0xBF < Pow2(8)
    ensures !InRange(8, SignedPair(8, 0xBF, 0x80), Signed(8, 1))
    ensures IdivResult(8, 0xBF, 0x80, 1) == Quotient(0x80, 0)
  {
    hide Mul, Quo, Rem, Pow2, Bit, LossySteps, TruncDiv, Pair;
    Pow2Widths();
    Pow2Double(8);
    SignBit(8, 0xBF);
    SignBit(8, 1);
    EscapeSteps();
    EscapeQuotient();
  }

  lemma EscapeQuotient()
    ensures 0xBF < Pow2(8) && SignedPair(8, 0xBF, 0x80) == -16512 && Signed(8, 1) == 1
    ensures TruncDiv(-16512, 1) == -16512
  {
    hide Pow2, Bit, Mul, Quo;
    Pow2Widths();
    Pow2Double(8);
    SignBit(8, 0xBF);
    SignBit(8, 1);
    ProductIs(0xBF, 0x100);
    ProductIs(0x100, 0x100);
    MulBasics(16512);
    DivModUnique(16512, 1, 16512, 0);
  }

  lemma EscapeSteps()
    ensures 0x40 < Pow2(8) && LossySteps(8, 0x40, 0x80, 1, 8) == (0x80, 0)
  {
    hide Quo, Bit, LossySteps, Pow2;
    Pow2Widths();
    Pow2Double(8);
    SignBit(8, 0x80);
    LossyUnfold(8, 0x40, 0x80, 1, 0);
    LossyUnfold(8, 0x40, 0x80, 1, 1);
    assert LossySteps(8, 0x40, 0x80, 1, 1) == (0x80, 0x80);
    LossyUnfold(8, 0x40, 0x80, 1, 2);
    LowBitsClear(6);
    assert LossySteps(8, 0x40, 0x80, 1, 2) == (0x80, 0);
    StaysZero(3);
    StaysZero(4);
    StaysZero(5);
    StaysZero(6);
    StaysZero(7);
    StaysZero(8);
  }

  lemma StaysZero(k: nat)
    requires 2 < k <= 8 && 0x40 < Pow2(8) && LossySteps(8, 0x40, 0x80, 1, k - 1) == (0x80, 0)
    ensures LossySteps(8, 0x40, 0x80, 1, k) == (0x80, 0)
  {
    hide Quo, Bit, LossySteps, Pow2;
    Pow2Widths();
    LossyUnfold(8, 0x40, 0x80, 1, k);
    LowBitsClear(8 - k);
  }

  lemma LowBitsClear(k: nat)
    requires k < 7
    ensures !Bit(0x80, k)
  {
    hide Quo, Bit, Pow2, Mul;
    Pow2Widths();
    Pow2Double(8);
    Pow2Add(k, 7 - k);
    Pow2Double(7 - k);
    MulTwice(Pow2(6 - k), Pow2(k));
    MulComm(Pow2(k), Pow2(7 - k));
    DivModUnique(0x80, Pow2(k), Pow2(7 - k), 0);
    BitIs(0x80, k, 2 * Pow2(6 - k));
  }
}
