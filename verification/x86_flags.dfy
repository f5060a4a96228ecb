/** The arithmetic flags shared by the 8086 and 386 cores, at an arbitrary operand width `w`. */
module X86Flags {
  import opened Words

  datatype Flags = Flags(cf: bool, pf: bool, af: bool, zf: bool, sf: bool, of: bool)

  /** Whether the low `n` bits of `v` hold an even number of ones. */
  predicate EvenParity(v: nat, n: nat) {
    n == 0 || (v % 2 == 0) == EvenParity(v / 2, n - 1)
  }

  /** SF, ZF and PF from a `w`-bit result; PF looks at the low byte only. */
  function SetSzp(f: Flags, w: nat, v: nat): Flags
    requires w >= 1
  {
    f.(sf := Bit(v, w - 1), zf := v == 0, pf := EvenParity(v % 256, 8))
  }

  /** The result, borrow, overflow and auxiliary carry of a `w`-bit subtraction. */
  datatype Difference = Difference(result: nat, borrow: bool, overflow: bool, aux: bool)

  function Subtract(w: nat, a: nat, b: nat): (d: Difference)
    requires w >= 1 && a < Pow2(w) && b < Pow2(w)
    ensures d.result < Pow2(w)
    ensures d.borrow <==> a < b
    ensures d.result == a - b + (if d.borrow then Pow2(w) else 0)
  {
    var r := if a >= b then a - b else a + Pow2(w) - b;
    Difference(
      r,
      b > a,
      (Bit(a, w - 1) != Bit(b, w - 1)) && (Bit(a, w - 1) != Bit(r, w - 1)),
      (Bit(a, 4) != Bit(b, 4)) != Bit(r, 4))
  }

  /** The flags a `w`-bit compare of `a` with `b` leaves: all six are determined by the operands. */
  function CompareFlags(w: nat, a: nat, b: nat): Flags
    requires w >= 1 && a < Pow2(w) && b < Pow2(w)
  {
    var d := Subtract(w, a, b);
    Flags(d.borrow, EvenParity(d.result % 256, 8), d.aux, d.result == 0, Bit(d.result, w - 1), d.overflow)
  }

  /** Two's-complement reading of a `w`-bit word. */
  function Signed(w: nat, x: nat): (s: int)
    requires w >= 1 && x < Pow2(w)
    ensures 0 - Pow2(w - 1) <= s < Pow2(w - 1)
    ensures s < 0 <==> Bit(x, w - 1)
    ensures s == if Bit(x, w - 1) then x - Pow2(w) else x
  {
    SignBit(w, x);
    Pow2Double(w);
    if x < Pow2(w - 1) then x else x - Pow2(w)
  }

  lemma SignedInjective(w: nat, x: nat, y: nat)
    requires w >= 1 && x < Pow2(w) && y < Pow2(w) && Signed(w, x) == Signed(w, y)
    ensures x == y
  {
    hide *;
    Pow2Double(w);
  }

  /** `w`-bit two's-complement negation. */
  function Negate(w: nat, x: nat): (r: nat)
    requires x < Pow2(w)
    ensures r < Pow2(w)
    ensures x == 0 ==> r == 0
    ensures x > 0 ==> r == Pow2(w) - x
  {
    if x == 0 then 0 else Pow2(w) - x
  }

  /** Negation is exact up to the magnitude 2^(w-1), which only the negative side reaches. */
  lemma NegateSigned(w: nat, x: nat)
    requires w >= 1 && x <= Pow2(w - 1)
    ensures Pow2(w - 1) < Pow2(w)
    ensures Signed(w, Negate(w, x)) == 0 - x
    ensures x < Pow2(w - 1) ==> Signed(w, x) == x
  {
    hide *;
    Pow2Double(w);
    SignBit(w, x);
    SignBit(w, Negate(w, x));
  }

  function Complement(w: nat, x: nat): (r: nat)
    requires x < Pow2(w)
    ensures r == Pow2(w) - 1 - x
  {
    Pow2(w) - 1 - x
  }

  /** `v << 1 | carry` with the bit shifted out. */
  function RotateCarryLeft(w: nat, v: nat, carry: bool): (r: (nat, bool))
    requires w >= 1 && v < Pow2(w)
    ensures r.0 < Pow2(w)
    ensures 2 * v + BoolToInt(carry) == (if r.1 then Pow2(w) else 0) + r.0
  {
    SignBit(w, v);
    Pow2Double(w);
    var out := Bit(v, w - 1);
    (2 * v + BoolToInt(carry) - (if out then Pow2(w) else 0), out)
  }
}
