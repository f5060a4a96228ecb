/** The 8086 divider: the CORD microcode loop and its signed co-routines, at any width. */
module X86Division {
  import opened Words
  import opened X86Flags

  datatype CordResult = DivideFault | Divided(tmpc: nat, tmpa: nat, carry: bool)

  datatype Signs = Signs(tmpa: nat, tmpb: nat, tmpc: nat, negate: bool)

  datatype Quotient = Overflow | Quotient(quot: nat, rem: nat)

  // --- Operands -------------------------------------------------------------------------

  /** The dividend a double-width register pair holds. */
  function Pair(w: nat, hi: nat, lo: nat): (n: nat)
    requires hi < Pow2(w) && lo < Pow2(w)
    ensures n < Mul(Pow2(w), Pow2(w))
    ensures Quo(n, Pow2(w)) == hi && Rem(n, Pow2(w)) == lo
  {
    PairBound(w, hi, lo);
    Mul(hi, Pow2(w)) + lo
  }

  lemma PairBound(w: nat, hi: nat, lo: nat)
    requires hi < Pow2(w) && lo < Pow2(w)
    ensures var n := Mul(hi, Pow2(w)) + lo;
            && 0 <= n < Mul(Pow2(w), Pow2(w))
            && Quo(n, Pow2(w)) == hi && Rem(n, Pow2(w)) == lo
  {
    hide *;
    var p := Pow2(w);
    MulNat(hi, p);
    MulMonotone(hi + 1, p, p);
    MulSum(hi, 1, p);
    MulBasics(p);
    DivModUnique(Mul(hi, p) + lo, p, hi, lo);
  }

  /** The signed dividend of a double-width register pair. */
  function SignedPair(w: nat, hi: nat, lo: nat): int
    requires w >= 1 && hi < Pow2(w) && lo < Pow2(w)
  {
    Pair(w, hi, lo) - if Bit(hi, w - 1) then Mul(Pow2(w), Pow2(w)) else 0
  }

  lemma SignedPairSign(w: nat, hi: nat, lo: nat)
    requires w >= 1 && hi < Pow2(w) && lo < Pow2(w)
    ensures Bit(hi, w - 1) <==> SignedPair(w, hi, lo) < 0
    ensures !Bit(hi, w - 1) ==> SignedPair(w, hi, lo) == Pair(w, hi, lo)
  {
    hide Mul, Quo, Rem, Pow2, Bit, Pair;
  }

  function Abs(x: int): (a: nat)
    ensures a == 0 <==> x == 0
  {
    if x < 0 then -x else x
  }

  /** The double-width magnitude of a negative dividend, as NEGATE computes it. */
  lemma NegatePairMagnitude(w: nat, hi: nat, lo: nat)
    requires w >= 1 && hi < Pow2(w) && lo < Pow2(w) && Bit(hi, w - 1)
    ensures var hi' := if lo != 0 then Complement(w, hi) else Negate(w, hi);
            hi' < Pow2(w) && Pair(w, hi', Negate(w, lo)) == Abs(SignedPair(w, hi, lo))
  {
    hide Mul, Quo, Rem, Pow2, Bit;
    var p := Pow2(w);
    SignBit(w, hi);
    SignedPairSign(w, hi, lo);
    MulSum(p, hi, p);
    MulSum(p - hi, 1, p);
    MulBasics(p);
  }

  /** The magnitude of a signed word. */
  function Magnitude(w: nat, x: nat): (m: nat)
    requires w >= 1 && x < Pow2(w)
    ensures m == Abs(Signed(w, x)) <= Pow2(w - 1) < Pow2(w)
  {
    Pow2Double(w);
    Abs(Signed(w, x))
  }

  /** The magnitude of a signed double-width dividend. */
  function PairMagnitude(w: nat, hi: nat, lo: nat): (m: nat)
    requires w >= 1 && hi < Pow2(w) && lo < Pow2(w)
    ensures m == Abs(SignedPair(w, hi, lo))
    ensures m < Mul(Pow2(w), Pow2(w))
  {
    if Bit(hi, w - 1) then
      NegatePairMagnitude(w, hi, lo);
      Abs(SignedPair(w, hi, lo))
    else
      Abs(SignedPair(w, hi, lo))
  }

  // --- Truncating division ------------------------------------------------------------------

  /** Quotient truncated toward zero. */
  function TruncDiv(n: int, d: int): int
    requires d != 0
  {
    var q := Quo(Abs(n), Abs(d));
    if (n < 0) != (d < 0) then -q else q
  }

  /** Remainder of truncating division: it takes the dividend's sign. */
  function TruncRem(n: int, d: int): int
    requires d != 0
  {
    var r := Rem(Abs(n), Abs(d));
    if n < 0 then -r else r
  }

  /** What a truncating signed divider promises of its quotient and remainder. */
  predicate Truncates(n: int, d: int, q: int, r: int) {
    n == Mul(q, d) + r && Abs(r) < Abs(d) && (r < 0 ==> n < 0) && (r > 0 ==> n > 0)
  }

  lemma TruncDivTruncates(n: int, d: int)
    requires d != 0
    ensures Truncates(n, d, TruncDiv(n, d), TruncRem(n, d))
  {
    hide Mul, Quo, Rem;
    DivMod(Abs(n), Abs(d));
    MulSigns(Quo(Abs(n), Abs(d)), Abs(d), TruncDiv(n, d), d);
    MulBasics(Abs(d));
    MulBasics(d);
    if n == 0 {
      DivModUnique(0, Abs(d), 0, 0);
    }
  }

  /** Truncating division has exactly one answer. */
  lemma TruncatesUnique(n: int, d: int, q: int, r: int, q': int, r': int)
    requires d != 0 && Truncates(n, d, q, r) && Truncates(n, d, q', r')
    ensures q == q' && r == r'
  {
    hide Mul;
    MulSum(q, q', d);
    if q != q' {
      MulSigns(Abs(q - q'), Abs(d), q - q', d);
      MulMonotone(1, Abs(q - q'), Abs(d));
      MulBasics(Abs(d));
    }
  }

  // --- CORD: specification --------------------------------------------------------------------

  /** What CORD returns, in terms of the dividend `n` and the divisor. */
  ghost predicate CordAnswers(w: nat, n: nat, d: nat, r: CordResult)
    requires w >= 1
  {
    if d == 0 || Quo(n, d) >= Pow2(w) then r == DivideFault
    else
      && r.Divided?
      && Pow2(w) - 1 - r.tmpc == Quo(n, d)
      && r.tmpa == Rem(n, d)
      && (r.carry <==> Quo(n, d) < Pow2(w - 1))
  }

  /** What the trial subtraction of step `i` subtracts the divisor from: the running
      remainder with the next dividend bit shifted in (step 0 is the initial compare). */
  function TrialOperand(w: nat, n: nat, d: nat, i: nat): int
    requires d > 0 && i <= w
  {
    if i == 0 then Quo(n, Pow2(w))
    else 2 * Rem(Quo(n, Pow2(w - i + 1)), d) + BoolToInt(Bit(n, w - i))
  }

  lemma TrialOperandNat(w: nat, n: nat, d: nat, i: nat)
    requires d > 0 && i <= w && n < Mul(Pow2(w), Pow2(w))
    ensures TrialOperand(w, n, d, i) >= 0
    ensures i == 0 ==> TrialOperand(w, n, d, i) < Pow2(w)
  {
    hide Mul, Quo, Rem, Pow2, Bit;
    QuotientAtLeast(n, Pow2(w), Pow2(w));
    DivMod(n, Pow2(w));
    if i > 0 {
      DivMod(Quo(n, Pow2(w - i + 1)), d);
    }
  }

  /** The flags after `i` steps: those of the last trial subtraction that was narrow
      enough to be performed as a flag-setting compare. */
  ghost function TrialFlags(w: nat, n: nat, d: nat, i: nat): Flags
    requires w >= 1 && 0 < d < Pow2(w) && n < Mul(Pow2(w), Pow2(w)) && i <= w
  {
    var t := TrialOperand(w, n, d, i);
    TrialOperandNat(w, n, d, i);
    if i > 0 && t >= Pow2(w) then TrialFlags(w, n, d, i - 1) else CompareFlags(w, t, d)
  }

  // --- CORD: one step, as arithmetic -------------------------------------------------------------

  /** CORD's loop invariant after `i` steps: `q` and `rem` divide the dividend bits consumed so
      far, `low` is what is left of the low half, and `tmpc:carry` holds `low` above the
      complement of `q` (with the initial borrow in front). */
  ghost predicate CordState(w: nat, n: nat, d: nat, i: nat, q: nat, rem: nat, low: nat,
                            tmpa: nat, tmpc: nat, carry: bool)
  {
    && i <= w
    && rem < d && low < Pow2(w - i) && q < Pow2(i)
    && n == Mul(Mul(q, d) + rem, Pow2(w - i)) + low
    && tmpa == rem
    && 2 * tmpc + BoolToInt(carry) == Mul(low, Pow2(i + 1)) + Pow2(i + 1) - 1 - q
  }

  lemma CordStart(w: nat, hi: nat, lo: nat, d: nat)
    requires w >= 1 && hi < Pow2(w) && lo < Pow2(w) && d < Pow2(w)
    ensures hi >= d ==> CordAnswers(w, Pair(w, hi, lo), d, DivideFault)
    ensures hi < d ==> CordState(w, Pair(w, hi, lo), d, 0, 0, hi, lo, hi, lo, true)
    ensures hi < d ==> TrialFlags(w, Pair(w, hi, lo), d, 0) == CompareFlags(w, hi, d)
  {
    hide Mul, Quo, Rem, Pow2, Bit, CompareFlags;
    FaultIffHighHalfReaches(w, hi, lo, d);
    Pow2Base();
    MulBasics(d);
    MulBasics(lo);
  }

  /** The initial compare of the high half with the divisor detects both fault causes. */
  lemma FaultIffHighHalfReaches(w: nat, hi: nat, lo: nat, d: nat)
    requires hi < Pow2(w) && lo < Pow2(w)
    ensures hi >= d <==> d == 0 || Quo(Pair(w, hi, lo), d) >= Pow2(w)
  {
    hide *;
    if d > 0 {
      QuotientAtLeast(Pair(w, hi, lo), d, Pow2(w));
      QuotientAtLeast(Pair(w, hi, lo), Pow2(w), d);
      MulComm(d, Pow2(w));
    }
  }

  lemma TrialFlagsStep(w: nat, n: nat, d: nat, i: nat)
    requires w >= 1 && 0 < d < Pow2(w) && n < Mul(Pow2(w), Pow2(w)) && i < w
    ensures var t := TrialOperand(w, n, d, i + 1);
            t >= 0 && TrialFlags(w, n, d, i + 1) ==
                      if t >= Pow2(w) then TrialFlags(w, n, d, i) else CompareFlags(w, t, d)
  {
    hide Mul, Quo, Rem, Pow2, Bit, TrialOperand, CompareFlags;
    TrialOperandNat(w, n, d, i + 1);
  }

  /** The dividend bits consumed by step `i + 1`, in terms of what step `i` had divided. */
  lemma CordOperand(w: nat, n: nat, d: nat, i: nat, q: nat, rem: nat, low: nat, bit: bool, low': nat)
    requires d > 0 && i < w && rem < d && low' < Pow2(w - i - 1)
    requires low == (if bit then Pow2(w - i - 1) else 0) + low'
    requires n == Mul(Mul(q, d) + rem, Pow2(w - i)) + low
    ensures TrialOperand(w, n, d, i + 1) == 2 * rem + BoolToInt(bit)
    ensures n == Mul(2 * (Mul(q, d) + rem) + BoolToInt(bit), Pow2(w - i - 1)) + low'
  {
    hide Mul, Quo, Rem, Pow2, Bit;
    var p' := Pow2(w - i - 1);
    var m := Mul(q, d) + rem;
    Pow2Double(w - i);
    MulNat(q, d);
    DivModUnique(n, Pow2(w - i), m, low);
    DivModUnique(m, d, q, rem);
    MulTwice(m, p');
    DivModUnique(n, p', 2 * m + BoolToInt(bit), low');
    BitIs(n, w - i - 1, 2 * m + BoolToInt(bit));
  }

  /** The first rotate of a step: the top bit of what is left of the low half comes out. */
  lemma CordShift(w: nat, i: nat, q: nat, low: nat, tmpc: nat, carry: bool, bit: bool, low': nat)
    requires w >= 1 && i < w && q < Pow2(i) && tmpc < Pow2(w)
    requires low' < Pow2(w - i - 1) && low == (if bit then Pow2(w - i - 1) else 0) + low'
    requires 2 * tmpc + BoolToInt(carry) == Mul(low, Pow2(i + 1)) + Pow2(i + 1) - 1 - q
    ensures var r := RotateCarryLeft(w, tmpc, carry);
            r.1 == bit && r.0 == Mul(low', Pow2(i + 1)) + Pow2(i + 1) - 1 - q
  {
    hide *;
    var p, s := Pow2(w - i - 1), Pow2(i + 1);
    Pow2Add(w - i - 1, i + 1);
    Pow2Double(i + 1);
    MulSum(p, low', s);
    MulMonotone(low' + 1, p, s);
    MulSum(low', 1, s);
    MulNat(low', s);
    MulBasics(s);
  }

  lemma CordStep(w: nat, n: nat, d: nat, i: nat, q: nat, rem: nat, low: nat,
                 tmpa: nat, tmpc: nat, carry: bool, tmpa': nat, tmpc': nat, carry': bool)
    returns (q': nat, rem': nat, low': nat)
    requires w >= 1 && 0 < d < Pow2(w) && i < w && tmpc < Pow2(w)
    requires CordState(w, n, d, i, q, rem, low, tmpa, tmpc, carry)
    requires tmpc' == RotateCarryLeft(w, tmpc, carry).0
    requires var t := TrialOperand(w, n, d, i + 1);
             carry' == (t < d) && tmpa' == if t < d then t else t - d
    ensures CordState(w, n, d, i + 1, q', rem', low', tmpa', tmpc', carry')
  {
    hide Mul, Quo, Rem, Pow2, Bit, TrialOperand, RotateCarryLeft;
    var p' := Pow2(w - i - 1);
    Pow2Double(w - i);
    Pow2Double(i + 1);
    Pow2Double(i + 2);
    var bit := low >= p';
    low' := low - if bit then p' else 0;
    CordOperand(w, n, d, i, q, rem, low, bit, low');
    CordShift(w, i, q, low, tmpc, carry, bit, low');
    MulTwice(q, d);
    MulTwice(low', Pow2(i + 1));
    var t := 2 * rem + BoolToInt(bit);
    q', rem' := if t < d then 2 * q else 2 * q + 1, if t < d then t else t - d;
  }

  lemma CordOperandValue(w: nat, n: nat, d: nat, i: nat, q: nat, rem: nat, low: nat,
                         tmpa: nat, tmpc: nat, carry: bool)
    requires w >= 1 && 0 < d < Pow2(w) && i < w && tmpc < Pow2(w)
    requires CordState(w, n, d, i, q, rem, low, tmpa, tmpc, carry)
    ensures TrialOperand(w, n, d, i + 1) == 2 * tmpa + BoolToInt(RotateCarryLeft(w, tmpc, carry).1) < 2 * d
  {
    hide Mul, Quo, Rem, Pow2, Bit, TrialOperand, RotateCarryLeft;
    var p' := Pow2(w - i - 1);
    Pow2Double(w - i);
    var bit := low >= p';
    var low' := low - if bit then p' else 0;
    CordOperand(w, n, d, i, q, rem, low, bit, low');
    CordShift(w, i, q, low, tmpc, carry, bit, low');
  }

  /** After `w` steps the rotate that follows the loop drops the initial borrow and leaves the
      complemented quotient. */
  lemma CordFinish(w: nat, n: nat, d: nat, q: nat, rem: nat, low: nat, tmpa: nat, tmpc: nat, carry: bool)
    requires w >= 1 && 0 < d < Pow2(w) && tmpc < Pow2(w)
    requires CordState(w, n, d, w, q, rem, low, tmpa, tmpc, carry)
    ensures var last := RotateCarryLeft(w, tmpc, carry);
            CordAnswers(w, n, d, Divided(last.0, tmpa, RotateCarryLeft(w, last.0, last.1).1))
  {
    hide Mul, Quo, Rem, Pow2, Bit, RotateCarryLeft;
    Pow2Double(w + 1);
    Pow2Double(w);
    Pow2Base();
    MulBasics(Pow2(w + 1));
    MulBasics(Mul(q, d) + rem);
    DivModUnique(n, d, q, rem);
  }

  // --- Reading CORD's answer ----------------------------------------------------------------------

  /** DIV: the quotient and remainder, or a fault exactly when the quotient does not fit. */
  ghost predicate UnsignedAnswer(w: nat, n: nat, d: nat, r: Quotient) {
    if d == 0 || Quo(n, d) >= Pow2(w) then r == Overflow
    else r.Quotient? && r.quot == Quo(n, d) && r.rem == Rem(n, d)
  }

  /** IDIV: a fault exactly when the divisor is zero or the magnitude of the truncated quotient
      reaches the sign bit; otherwise the truncated quotient, negated by a REP prefix, and the
      remainder, both as two's-complement words. */
  ghost predicate SignedAnswer(w: nat, n: int, d: int, rep: bool, r: Quotient)
    requires w >= 1
  {
    if d == 0 || Abs(TruncDiv(n, d)) >= Pow2(w - 1) then r == Overflow
    else
      && r.Quotient? && r.quot < Pow2(w) && r.rem < Pow2(w)
      && Signed(w, r.quot) == (if rep then -TruncDiv(n, d) else TruncDiv(n, d))
      && Signed(w, r.rem) == TruncRem(n, d)
  }

  ghost predicate Answer(w: nat, hi: nat, lo: nat, divisor: nat, signed: bool, rep: bool, r: Quotient)
    requires w >= 1 && hi < Pow2(w) && lo < Pow2(w) && divisor < Pow2(w)
  {
    if signed then SignedAnswer(w, SignedPair(w, hi, lo), Signed(w, divisor), rep, r)
    else UnsignedAnswer(w, Pair(w, hi, lo), divisor, r)
  }

  lemma Magnitudes(n: int, d: int, q: int, rem: int)
    requires d != 0 && q == Quo(Abs(n), Abs(d)) && rem == Rem(Abs(n), Abs(d))
    ensures q >= 0 && 0 <= rem < Abs(d)
    ensures TruncDiv(n, d) == if (n < 0) != (d < 0) then 0 - q else q
    ensures TruncRem(n, d) == if n < 0 then 0 - rem else rem
    ensures Abs(TruncDiv(n, d)) == q
  {
    hide Mul, Quo, Rem;
    DivMod(Abs(n), Abs(d));
  }

  /** An IDIV that does not fault satisfies the division equation, with the quotient negated
      under REP and the remainder smaller than the divisor and of the dividend's sign. */
  lemma SignedDivisionEquation(w: nat, n: int, d: int, rep: bool, r: Quotient)
    requires w >= 1 && SignedAnswer(w, n, d, rep, r) && r.Quotient?
    ensures Truncates(n, d, if rep then 0 - Signed(w, r.quot) else Signed(w, r.quot), Signed(w, r.rem))
  {
    hide Truncates, TruncDiv, TruncRem, Signed;
    TruncDivTruncates(n, d);
  }

  /** The flags a division leaves, from the magnitudes of its operands. */
  ghost function DivideFlags(w: nat, m: nat, e: nat, signed: bool): Flags
    requires w >= 1 && e < Pow2(w) && m < Mul(Pow2(w), Pow2(w))
  {
    TrialOperandNat(w, m, 1, 0);
    var hi: nat := Quo(m, Pow2(w));
    if hi >= e then CompareFlags(w, hi, e)
    else
      var g := TrialFlags(w, m, e, w);
      var inRange := Quo(m, e) < Pow2(w - 1);
      if signed && inRange then g.(cf := false, of := false) else g.(cf := inRange)
  }

  /** The flags DIV or IDIV leaves, fault or not. */
  ghost function DivisionFlags(w: nat, hi: nat, lo: nat, divisor: nat, signed: bool): Flags
    requires w >= 1 && hi < Pow2(w) && lo < Pow2(w) && divisor < Pow2(w)
  {
    if signed then DivideFlags(w, PairMagnitude(w, hi, lo), Magnitude(w, divisor), true)
    else DivideFlags(w, Pair(w, hi, lo), divisor, false)
  }

  /** CORD's result and flags, read as an unsigned division of the pair `hi:lo`. */
  lemma CordUnsigned(w: nat, hi: nat, lo: nat, d: nat, c: CordResult)
    requires w >= 1 && hi < Pow2(w) && lo < Pow2(w) && d < Pow2(w)
    requires CordAnswers(w, Pair(w, hi, lo), d, c)
    ensures c.DivideFault? ==>
              && UnsignedAnswer(w, Pair(w, hi, lo), d, Overflow)
              && forall signed :: DivideFlags(w, Pair(w, hi, lo), d, signed) == CompareFlags(w, hi, d)
    ensures c.Divided? ==>
              && d > 0 && c.tmpc < Pow2(w) && c.tmpa < d
              && UnsignedAnswer(w, Pair(w, hi, lo), d, Quotient(Pow2(w) - 1 - c.tmpc, c.tmpa))
              && var g := TrialFlags(w, Pair(w, hi, lo), d, w).(cf := c.carry);
                 forall signed :: DivideFlags(w, Pair(w, hi, lo), d, signed) ==
                                  if signed && c.carry then g.(cf := false, of := false) else g
  {
    hide Mul, Quo, Rem, Pow2, Bit, CompareFlags, TrialFlags, Pair;
    FaultIffHighHalfReaches(w, hi, lo, d);
    if d > 0 {
      DivMod(Pair(w, hi, lo), d);
    }
  }

  /** CORD on the magnitudes, followed by the sign fix-up, is a signed division. */
  lemma CordSigned(w: nat, n: int, d: int, rep: bool, c: CordResult)
    requires w >= 1 && Abs(d) <= Pow2(w - 1) && CordAnswers(w, Abs(n), Abs(d), c)
    ensures c.DivideFault? || !c.carry ==> SignedAnswer(w, n, d, rep, Overflow)
    ensures c.Divided? && c.carry ==>
              var q, negative := Pow2(w) - 1 - c.tmpc, rep != ((n < 0) != (d < 0));
              && 0 <= q < Pow2(w) && c.tmpa < Pow2(w)
              && SignedAnswer(w, n, d, rep, Quotient(if negative then Negate(w, q) else q,
                                                     if n < 0 then Negate(w, c.tmpa) else c.tmpa))
  {
    hide TruncDiv, TruncRem, Signed, Negate, Pow2, Bit, Mul, Quo, Rem;
    Pow2Double(w);
    if d != 0 {
      var q, rem := Quo(Abs(n), Abs(d)), Rem(Abs(n), Abs(d));
      Magnitudes(n, d, q, rem);
      if c.Divided? && c.carry {
        NegateSigned(w, q);
        NegateSigned(w, rem);
      }
    }
  }

  /** A dividend with an empty high half faults on a zero divisor only. */
  lemma LowDividend(w: nat, lo: nat, d: nat, r: Quotient)
    requires w >= 1 && lo < Pow2(w) && d < Pow2(w) && UnsignedAnswer(w, Pair(w, 0, lo), d, r)
    ensures r.Overflow? <==> d == 0
    ensures d > 0 ==> r.quot == Quo(lo, d) && r.rem == Rem(lo, d) && r.quot <= lo && r.rem < d
  {
    hide Mul, Quo, Rem, Pow2;
    MulBasics(Pow2(w));
    if d > 0 {
      QuotientAtMost(lo, d);
      DivMod(lo, d);
    }
  }

  // --- The machine ----------------------------------------------------------------------------

  class Cpu {
    var flags: Flags
    var ax: nat
    var dx: nat
    /** Whether the current instruction carries a REP prefix. */
    var rep: bool

    predicate Valid()
      reads this
    {
      ax < Pow2(16) && dx < Pow2(16)
    }

    method Cord(w: nat, hi: nat, divisor: nat, lo: nat) returns (r: CordResult)
      requires w >= 1 && hi < Pow2(w) && divisor < Pow2(w) && lo < Pow2(w)
      modifies this`flags
      ensures CordAnswers(w, Pair(w, hi, lo), divisor, r)
      ensures r.DivideFault? ==> flags == CompareFlags(w, hi, divisor)
      ensures r.Divided? ==> divisor > 0
      ensures r.Divided? ==> flags == TrialFlags(w, Pair(w, hi, lo), divisor, w).(cf := r.carry)
    {
      hide CordState, TrialFlags, TrialOperand, CordAnswers, Pair, RotateCarryLeft, Bit, EvenParity, Pow2, Mul, Quo,
        Rem;
      ghost var n := Pair(w, hi, lo);
      CordStart(w, hi, lo, divisor);
      var tmpa: nat, tmpc: nat := hi, lo;
      var first := Subtract(w, tmpa, divisor);
      var carry := first.borrow;
      flags := SetSzp(flags.(af := first.aux, of := first.overflow, cf := carry), w, first.result);
      if !carry {
        return DivideFault;
      }
      ghost var q: nat, rem, low := 0, hi, lo;
      var i := 0;
      while i < w
        invariant i <= w && tmpa < Pow2(w) && tmpc < Pow2(w)
        invariant CordState(w, n, divisor, i, q, rem, low, tmpa, tmpc, carry)
        invariant flags == TrialFlags(w, n, divisor, i)
      {
        ghost var tmpa0, tmpc0, carry0 := tmpa, tmpc, carry;
        var shifted := RotateCarryLeft(w, tmpc, carry);
        tmpc, carry := shifted.0, shifted.1;
        shifted := RotateCarryLeft(w, tmpa, carry);
        tmpa, carry := shifted.0, shifted.1;
        TrialFlagsStep(w, n, divisor, i);
        CordOperandValue(w, n, divisor, i, q, rem, low, tmpa0, tmpc0, carry0);
        if carry {
          carry := false;
          tmpa := Subtract(w, tmpa, divisor).result;
        } else {
          var trial := Subtract(w, tmpa, divisor);
          flags := SetSzp(flags.(af := trial.aux, of := trial.overflow, cf := trial.borrow), w, trial.result);
          carry := trial.borrow;
          if !trial.borrow {
            tmpa := trial.result;
          }
        }
        q, rem, low := CordStep(w, n, divisor, i, q, rem, low, tmpa0, tmpc0, carry0, tmpa, tmpc, carry);
        i := i + 1;
      }
      CordFinish(w, n, divisor, q, rem, low, tmpa, tmpc, carry);
      var last := RotateCarryLeft(w, tmpc, carry);
      tmpc, carry := last.0, last.1;
      carry := RotateCarryLeft(w, tmpc, carry).1;
      flags := flags.(cf := carry);
      return Divided(tmpc, tmpa, carry);
    }

    /** Magnitudes of divisor and, unless `skip`, dividend; the sign that the quotient will need is collected. */
    method NegateOperands(w: nat, tmpa: nat, tmpb: nat, tmpc: nat, negate: bool, skip: bool)
      returns (s: Signs)
      requires w >= 1 && tmpa < Pow2(w) && tmpb < Pow2(w) && tmpc < Pow2(w)
      modifies this`flags
      ensures s.tmpa < Pow2(w) && s.tmpb < Pow2(w) && s.tmpc < Pow2(w)
      ensures skip ==> s.tmpa == tmpa && s.tmpc == tmpc
      ensures !skip && Bit(tmpa, w - 1) ==> Pair(w, s.tmpa, s.tmpc) == Abs(SignedPair(w, tmpa, tmpc))
      ensures s.tmpb == Abs(Signed(w, tmpb))
      ensures s.negate == ((negate != !skip) != (Signed(w, tmpb) < 0))
      ensures flags == old(flags).(cf := Bit(tmpb, w - 1))
    {
      hide Pow2, Bit, Pair, SignedPair, Signed, Mul, Quo, Rem;
      var a, b, c, neg := tmpa, tmpb, tmpc, negate;
      if !skip {
        var carry := c != 0;
        c := Negate(w, tmpc);
        a := if carry then Complement(w, tmpa) else Negate(w, tmpa);
        neg := !neg;
        if Bit(tmpa, w - 1) {
          NegatePairMagnitude(w, tmpa, tmpc);
        }
      }
      var sign := Bit(tmpb, w - 1);
      Pow2Double(w);
      flags := flags.(cf := sign);
      if sign {
        b := Negate(w, tmpb);
        neg := !neg;
      }
      return Signs(a, b, c, neg);
    }

    /** PREIDIV: the magnitudes of a signed division, and the sign its quotient will take. */
    method PreIdiv(w: nat, tmpa: nat, tmpb: nat, tmpc: nat, negate: bool) returns (s: Signs)
      requires w >= 1 && tmpa < Pow2(w) && tmpb < Pow2(w) && tmpc < Pow2(w)
      modifies this`flags
      ensures s.tmpa < Pow2(w) && s.tmpb < Pow2(w) && s.tmpc < Pow2(w)
      ensures Pair(w, s.tmpa, s.tmpc) == PairMagnitude(w, tmpa, tmpc)
      ensures s.tmpb == Magnitude(w, tmpb)
      ensures s.negate == (negate != ((SignedPair(w, tmpa, tmpc) < 0) != (Signed(w, tmpb) < 0)))
    {
      hide Pow2, Bit, Pair, SignedPair, Signed, Mul, Quo, Rem;
      SignedPairSign(w, tmpa, tmpc);
      var negative := Bit(tmpa, w - 1);
      s := NegateOperands(w, tmpa, tmpb, tmpc, negate, !negative);
    }

    /** POSTIDIV: the signed fix-up; `tmpb` is the original high half of the dividend. */
    method PostIdiv(w: nat, tmpa: nat, tmpb: nat, tmpc: nat, carry: bool, negate: bool) returns (r: Quotient)
      requires w >= 1 && tmpa < Pow2(w) && tmpb < Pow2(w) && tmpc < Pow2(w)
      modifies this`flags
      ensures r.Overflow? <==> !carry
      ensures !carry ==> flags == old(flags)
      ensures carry ==> flags == old(flags).(cf := false, of := false)
      ensures carry ==> r.rem == (if Bit(tmpb, w - 1) then Negate(w, tmpa) else tmpa)
      ensures carry ==> r.quot == if negate then Negate(w, Complement(w, tmpc)) else Complement(w, tmpc)
    {
      hide Pow2, Bit;
      if !carry {
        return Overflow;
      }
      var rem := if Bit(tmpb, w - 1) then Negate(w, tmpa) else tmpa;
      // the un-complemented quotient, or `tmpc + 1`, wrapping
      var quot := if !negate then Complement(w, tmpc) else if tmpc + 1 == Pow2(w) then 0 else tmpc + 1;
      flags := flags.(cf := false, of := false);
      return Quotient(quot, rem);
    }

    /** DIV/IDIV on `hi:lo`, the part the two operand widths share. */
    method Divide(w: nat, hi: nat, lo: nat, divisor: nat, signed: bool) returns (r: Quotient)
      requires w >= 1 && hi < Pow2(w) && lo < Pow2(w) && divisor < Pow2(w)
      modifies this`flags
      ensures Answer(w, hi, lo, divisor, signed, rep, r)
      ensures r.Quotient? ==> r.quot < Pow2(w) && r.rem < Pow2(w)
      ensures flags == DivisionFlags(w, hi, lo, divisor, signed)
    {
      hide Pow2, Bit, Pair, SignedPair, Signed, Mul, Quo, Rem, PairMagnitude, Magnitude, Negate, Complement,
        CordAnswers, SignedAnswer, UnsignedAnswer, DivideFlags, TrialFlags, CompareFlags;
      var s := Signs(hi, divisor, lo, signed && rep);
      if signed {
        s := PreIdiv(w, s.tmpa, s.tmpb, s.tmpc, s.negate);
      }
      var c := Cord(w, s.tmpa, s.tmpb, s.tmpc);
      CordUnsigned(w, s.tmpa, s.tmpc, s.tmpb, c);
      if signed {
        CordSigned(w, SignedPair(w, hi, lo), Signed(w, divisor), rep, c);
      }
      if c.DivideFault? {
        return Overflow;
      }
      r := Quotient(Complement(w, c.tmpc), c.tmpa);
      if signed {
        SignedPairSign(w, hi, lo);
        r := PostIdiv(w, r.rem, hi, c.tmpc, c.carry, s.negate);
      }
    }

    /** DIV/IDIV r/m8: AX by `divisor`, quotient to AL and remainder to AH. */
    method Div8(divisor: nat, signed: bool) returns (ok: bool)
      requires Valid() && divisor < Pow2(8)
      modifies this`flags, this`ax
      ensures Valid() && Pow2(8) == 256
      ensures flags == DivisionFlags(8, old(ax) / 256, old(ax) % 256, divisor, signed)
      ensures ok ==> Answer(8, old(ax) / 256, old(ax) % 256, divisor, signed, rep, Quotient(ax % 256, ax / 256))
      ensures !ok ==> Answer(8, old(ax) / 256, old(ax) % 256, divisor, signed, rep, Overflow) && ax == old(ax)
    {
      hide Answer, DivisionFlags, Pow2, PairMagnitude, Magnitude, Pair, SignedPair, Mul, Quo, Rem;
      Pow2Widths();
      var r := Divide(8, ax / 256, ax % 256, divisor, signed);
      if r.Overflow? {
        return false;
      }
      ax := r.rem * 256 + r.quot;
      return true;
    }

    /** DIV/IDIV r/m16: DX:AX by `divisor`, quotient to AX and remainder to DX. */
    method Div16(divisor: nat, signed: bool) returns (ok: bool)
      requires Valid() && divisor < Pow2(16)
      modifies this`flags, this`ax, this`dx
      ensures Valid()
      ensures ok ==> Answer(16, old(dx), old(ax), divisor, signed, rep, Quotient(ax, dx))
      ensures !ok ==> Answer(16, old(dx), old(ax), divisor, signed, rep, Overflow)
      ensures !ok ==> ax == old(ax) && dx == old(dx)
      ensures flags == DivisionFlags(16, old(dx), old(ax), divisor, signed)
    {
      hide Answer, DivisionFlags, Pow2, PairMagnitude, Magnitude, Pair, SignedPair, Mul, Quo, Rem;
      var r := Divide(16, dx, ax, divisor, signed);
      if r.Overflow? {
        return false;
      }
      ax, dx := r.quot, r.rem;
      return true;
    }

    /** AAM: split AL into AH (quotient) and AL (remainder) through the same divider. */
    method Aam(base: nat) returns (ok: bool)
      requires Valid() && base < Pow2(8)
      modifies this`flags, this`ax
      ensures Valid() && (ok <==> base != 0)
      ensures ok ==> ax / 256 == Quo(old(ax) % 256, base) && ax % 256 == Rem(old(ax) % 256, base)
      ensures !ok ==> ax == old(ax)
      ensures flags == SetSzp(old(flags), 8, if ok then ax % 256 else 0).(cf := false, af := false, of := false)
    {
      hide TrialFlags, DivideFlags, CompareFlags, CordAnswers, Pair, UnsignedAnswer, Bit, EvenParity, Pow2, Quo, Rem;
      Pow2Widths();
      var al := ax % 256;
      var c := Cord(8, 0, base, al);
      CordUnsigned(8, 0, al, base, c);
      if c.DivideFault? {
        LowDividend(8, al, base, Overflow);
        flags := SetSzp(flags, 8, 0).(cf := false, af := false, of := false);
        return false;
      }
      var quot := Complement(8, c.tmpc);
      LowDividend(8, al, base, Quotient(quot, c.tmpa));
      ax := quot * 256 + c.tmpa;
      flags := SetSzp(flags, 8, c.tmpa).(cf := false, af := false, of := false);
      return true;
    }
  }
}
