/** Shifts and rotates: the 8086's one-bit loops as the reference for the 386's barrel shifter. */
module X86Shifts {
  import opened Words
  import opened X86Flags

  datatype Shifted = Shifted(value: nat, flags: Flags)

  // --- The 8086 loops, as functions of the iteration count ------------------------

  /** Value and carry after `n` left shifts. */
  function ShlLoop(w: nat, v: nat, n: nat, cf: bool): (r: (nat, bool))
    requires w >= 1 && v < Pow2(w)
    ensures r.0 < Pow2(w)
  {
    if n == 0 then (v, cf)
    else
      var p := ShlLoop(w, v, n - 1, cf);
      (DropTop(w, 2 * p.0), Bit(p.0, w - 1))
  }

  /** A `w + 1`-bit value cut to `w` bits. */
  function DropTop(w: nat, x: nat): (r: nat)
    requires x < 2 * Pow2(w)
    ensures r < Pow2(w) && (r == x || r + Pow2(w) == x)
  {
    if x >= Pow2(w) then x - Pow2(w) else x
  }

  /** Value, carry and overflow after `n` logical right shifts. */
  function ShrLoop(w: nat, v: nat, n: nat, cf: bool, of: bool): (r: (nat, bool, bool))
    requires w >= 1 && v < Pow2(w)
    ensures r.0 < Pow2(w)
  {
    if n == 0 then (v, cf, of)
    else
      var p := ShrLoop(w, v, n - 1, cf, of);
      (p.0 / 2, p.0 % 2 == 1, Bit(p.0, w - 1))
  }

  /** Value and carry after `n` arithmetic right shifts. */
  function SarLoop(w: nat, v: nat, n: nat, cf: bool): (r: (nat, bool))
    requires w >= 1 && v < Pow2(w)
    ensures r.0 < Pow2(w)
  {
    if n == 0 then (v, cf)
    else
      var p := SarLoop(w, v, n - 1, cf);
      (Unsigned(w, Signed(w, p.0) / 2), p.0 % 2 == 1)
  }

  /** The `w`-bit image of a signed value. */
  function Unsigned(w: nat, s: int): (r: nat)
    requires w >= 1 && 0 - Pow2(w - 1) <= s < Pow2(w - 1)
    ensures r < Pow2(w) && Signed(w, r) == s
    ensures r % 2 == s % 2
  {
    Pow2Double(w);
    SignBit(w, if s < 0 then s + Pow2(w) else s);
    if s < 0 then s + Pow2(w) else s
  }

  function RolOne(w: nat, v: nat): (r: nat)
    requires w >= 1 && v < Pow2(w)
    ensures r < Pow2(w)
  {
    SignBit(w, v);
    Pow2Double(w);
    DropTop(w, 2 * v) + BoolToInt(Bit(v, w - 1))
  }

  function RorOne(w: nat, v: nat): (r: nat)
    requires w >= 1 && v < Pow2(w)
    ensures r < Pow2(w)
  {
    Pow2Double(w);
    v / 2 + (if v % 2 == 1 then Pow2(w - 1) else 0)
  }

  function RolLoop(w: nat, v: nat, n: nat, cf: bool): (r: (nat, bool))
    requires w >= 1 && v < Pow2(w)
    ensures r.0 < Pow2(w)
  {
    if n == 0 then (v, cf)
    else
      var u := RolOne(w, RolLoop(w, v, n - 1, cf).0);
      (u, u % 2 == 1)
  }

  function RorLoop(w: nat, v: nat, n: nat, cf: bool): (r: (nat, bool))
    requires w >= 1 && v < Pow2(w)
    ensures r.0 < Pow2(w)
  {
    if n == 0 then (v, cf)
    else
      var p := RorLoop(w, v, n - 1, cf);
      (RorOne(w, p.0), p.0 % 2 == 1)
  }

  // --- What a shift by a nonzero count leaves ---------------------------------------

  function IteratedShl(w: nat, v: nat, n: nat, f: Flags): Shifted
    requires w >= 2 && v < Pow2(w)
  {
    if n == 0 then Shifted(v, f)
    else
      var (u, cf) := ShlLoop(w, v, n, f.cf);
      Shifted(u, SetSzp(f.(cf := cf, of := Bit(u, w - 1) != cf, af := false), w, u))
  }

  function IteratedShr(w: nat, v: nat, n: nat, f: Flags): Shifted
    requires w >= 2 && v < Pow2(w)
  {
    if n == 0 then Shifted(v, f)
    else
      var (u, cf, of) := ShrLoop(w, v, n, f.cf, f.of);
      Shifted(u, SetSzp(f.(cf := cf, of := of, af := false), w, u))
  }

  function IteratedSar(w: nat, v: nat, n: nat, f: Flags): Shifted
    requires w >= 2 && v < Pow2(w)
  {
    if n == 0 then Shifted(v, f)
    else
      var (u, cf) := SarLoop(w, v, n, f.cf);
      Shifted(u, SetSzp(f.(cf := cf, of := false, af := false), w, u))
  }

  function IteratedRol(w: nat, v: nat, n: nat, f: Flags): Shifted
    requires w >= 2 && v < Pow2(w)
  {
    if n == 0 then Shifted(v, f)
    else
      var (u, cf) := RolLoop(w, v, n, f.cf);
      Shifted(u, f.(cf := cf, of := Bit(u, w - 1) != cf))
  }

  function IteratedRor(w: nat, v: nat, n: nat, f: Flags): Shifted
    requires w >= 2 && v < Pow2(w)
  {
    if n == 0 then Shifted(v, f)
    else
      var (u, cf) := RorLoop(w, v, n, f.cf);
      Shifted(u, f.(cf := cf, of := Bit(u, w - 1) != Bit(u, w - 2)))
  }

  // --- Closed forms of the loops -------------------------------------------------------

  lemma ShlLoopStep(w: nat, v: nat, n: nat, cf: bool)
    requires w >= 1 && v < Pow2(w) && n >= 1
    ensures var r := ShlLoop(w, v, n - 1, cf).0;
            ShlLoop(w, v, n, cf) == if 2 * r >= Pow2(w) then (2 * r - Pow2(w), true) else (2 * r, false)
    ensures ShlLoop(w, v, 0, cf) == (v, cf)
  {
    hide Pow2, Bit;
    Pow2Double(w);
    SignBit(w, ShlLoop(w, v, n - 1, cf).0);
  }

  /** `n` left shifts split `v * 2^n` at the width: the loop keeps the low part, and its last
      carry is the lowest bit of what was shifted out. */
  lemma {:induction false} ShlLoopSplits(w: nat, v: nat, n: nat, cf: bool) returns (above: nat)
    requires w >= 1 && v < Pow2(w) && n >= 1
    ensures var (r, out) := ShlLoop(w, v, n, cf);
            Mul(v, Pow2(n)) == Mul(2 * above + BoolToInt(out), Pow2(w)) + r
  {
    hide *;
    Pow2Base();
    Pow2Double(n);
    ShlLoopStep(w, v, n, cf);
    above := 0;
    if n > 1 {
      var p := ShlLoopSplits(w, v, n - 1, cf);
      above := 2 * p + BoolToInt(ShlLoop(w, v, n - 1, cf).1);
    }
    MulBasics(v);
    MulBasics(Pow2(w));
    MulTwice(v, Pow2(n - 1));
    MulTwice(above, Pow2(w));
  }

  lemma ShlLoopClosed(w: nat, v: nat, n: nat, cf: bool)
    requires w >= 1 && v < Pow2(w) && n >= 1
    ensures Mul(v, Pow2(n)) >= 0
    ensures ShlLoop(w, v, n, cf).0 == Rem(Mul(v, Pow2(n)), Pow2(w))
    ensures ShlLoop(w, v, n, cf).1 == Bit(Mul(v, Pow2(n)), w)
  {
    hide *;
    MulNat(v, Pow2(n));
    var above := ShlLoopSplits(w, v, n, cf);
    var (r, out) := ShlLoop(w, v, n, cf);
    DivModUnique(Mul(v, Pow2(n)), Pow2(w), 2 * above + BoolToInt(out), r);
    BitIs(Mul(v, Pow2(n)), w, 2 * above + BoolToInt(out));
  }

  /** The last bit out of `n` left shifts is bit `w - n` of the operand, or 0 beyond the width. */
  lemma ShlCarry(w: nat, v: nat, n: nat)
    requires w >= 1 && v < Pow2(w) && n >= 1
    ensures Mul(v, Pow2(n)) >= 0
    ensures Bit(Mul(v, Pow2(n)), w) <==> n <= w && Bit(v, w - n)
  {
    hide *;
    var x := Mul(v, Pow2(n));
    MulNat(v, Pow2(n));
    if n <= w {
      Pow2Add(n, w - n);
      DivDiv(x, Pow2(n), Pow2(w - n));
      DivModUnique(x, Pow2(n), v, 0);
      BitIs(x, w, Quo(v, Pow2(w - n)));
      BitIs(v, w - n, Quo(v, Pow2(w - n)));
    } else {
      Pow2Add(n - w, w);
      MulAssoc(v, Pow2(n - w), Pow2(w));
      DivModUnique(x, Pow2(w), Mul(v, Pow2(n - w)), 0);
      Pow2Double(n - w);
      MulTwice(v, Pow2(n - w - 1));
      BitIs(x, w, 2 * Mul(v, Pow2(n - w - 1)));
    }
  }

  lemma {:induction false} ShrLoopClosed(w: nat, v: nat, n: nat, cf: bool, of: bool)
    requires w >= 1 && v < Pow2(w) && n >= 1
    ensures Quo(v, Pow2(n - 1)) >= 0
    ensures ShrLoop(w, v, n, cf, of) == (Quo(v, Pow2(n)), Bit(v, n - 1), Bit(Quo(v, Pow2(n - 1)), w - 1))
  {
    hide Mul, Quo, Rem, Pow2, Bit;
    DivMod(v, Pow2(n - 1));
    if n == 1 {
      Pow2Base();
      MulBasics(v);
      DivModUnique(v, 1, v, 0);
    } else {
      ShrLoopClosed(w, v, n - 1, cf, of);
    }
    NextBit(v, n - 1);
  }

  /** The signed operand shifted right arithmetically, which always fits the width. */
  function SarValue(w: nat, v: nat, n: nat): (s: int)
    requires w >= 1 && v < Pow2(w)
    ensures 0 - Pow2(w - 1) <= s < Pow2(w - 1)
  {
    FloorShrinks(Signed(w, v), Pow2(n));
    Quo(Signed(w, v), Pow2(n))
  }

  lemma FloorShrinks(s: int, d: nat)
    requires d >= 1
    ensures s < 0 ==> s <= Quo(s, d) <= -1
    ensures s >= 0 ==> 0 <= Quo(s, d) <= s
  {
    hide *;
    var q := Quo(s, d);
    DivMod(s, d);
    if s >= 0 {
      QuotientAtMost(s, d);
    } else if q >= 0 {
      MulNat(q, d);
      assert false;
    } else if q < s {
      MulMonotone(q + 1, s, d);
      MulSum(q, 1, d);
      MulBasics(d);
      MulComm(s, d);
      MulMonotone(1 - d, 0, -s);
      MulSum(1, d, -s);
      MulBasics(-s);
      MulSigns(s, d, -s, d);
      MulComm(-s, d);
      assert false;
    }
  }

  lemma {:induction false} SarLoopClosed(w: nat, v: nat, n: nat, cf: bool)
    requires w >= 1 && v < Pow2(w) && n >= 1
    ensures SarLoop(w, v, n, cf) == (Unsigned(w, SarValue(w, v, n)), SarValue(w, v, n - 1) % 2 == 1)
  {
    hide Mul, Quo, Rem, Pow2, Bit, Unsigned, Signed;
    var s := Signed(w, v);
    if n == 1 {
      Pow2Base();
      MulBasics(s);
      DivModUnique(s, 1, s, 0);
      SignedParity(w, v);
    } else {
      SarLoopClosed(w, v, n - 1, cf);
    }
    DivDiv(s, Pow2(n - 1), 2);
    MulBasics(Pow2(n - 1));
    Pow2Double(n);
    HalfIs(Quo(s, Pow2(n - 1)));
  }

  lemma HalfIs(s: int)
    ensures Quo(s, 2) == s / 2
  {
    QuotientIs(s, 2);
  }

  lemma SignedParity(w: nat, v: nat)
    requires w >= 1 && v < Pow2(w)
    ensures Signed(w, v) % 2 == v % 2
  {
    hide Pow2, Bit, Signed;
    Pow2Double(w);
  }

  // --- Rotates -----------------------------------------------------------------------

  /** Rotation left by `k <= w`, as the barrel shifter does it in one move. */
  function RotateLeft(w: nat, v: nat, k: nat): int
    requires k <= w
  {
    Mul(Rem(v, Pow2(w - k)), Pow2(k)) + Quo(v, Pow2(w - k))
  }

  function RotateRight(w: nat, v: nat, k: nat): int
    requires k <= w
  {
    Mul(Rem(v, Pow2(k)), Pow2(w - k)) + Quo(v, Pow2(k))
  }

  lemma RotateLeftIs(w: nat, v: nat, k: nat, a: int, b: int)
    requires k <= w && v == Mul(a, Pow2(w - k)) + b && 0 <= b < Pow2(w - k)
    ensures RotateLeft(w, v, k) == Mul(b, Pow2(k)) + a
  {
    hide Mul, Quo, Rem, Pow2;
    DivModUnique(v, Pow2(w - k), a, b);
  }

  lemma RotateEnds(w: nat, v: nat)
    requires v < Pow2(w)
    ensures RotateLeft(w, v, 0) == v == RotateLeft(w, v, w)
  {
    hide *;
    Pow2Base();
    MulBasics(v);
    MulBasics(0);
    MulBasics(Pow2(w));
    RotateLeftIs(w, v, 0, 0, v);
    RotateLeftIs(w, v, w, v, 0);
  }

  /** One more one-bit rotate is one more position of the barrel. */
  lemma RotateStep(w: nat, v: nat, k: nat)
    requires w >= 1 && v < Pow2(w) && k < w
    ensures 0 <= RotateLeft(w, v, k) < Pow2(w)
    ensures RolOne(w, RotateLeft(w, v, k)) == RotateLeft(w, v, k + 1)
  {
    hide *;
    var p, s := Pow2(w - k - 1), Pow2(k);
    Pow2Double(w - k);
    Pow2Double(k + 1);
    Pow2Add(w - k, k);
    DivMod(v, Pow2(w - k));
    var a, b := Quo(v, Pow2(w - k)), Rem(v, Pow2(w - k));
    QuotientAtLeast(v, Pow2(w - k), s);
    MulComm(Pow2(w - k), s);
    RotateLeftIs(w, v, k, a, b);
    var bit := b >= p;
    var b' := b - if bit then p else 0;
    MulTwice(a, p);
    RotateLeftIs(w, v, k + 1, 2 * a + BoolToInt(bit), b');
    // the rotated value doubled, with the bit that leaves the top split off
    MulTwice(b', s);
    MulSum(p, b', s);
    MulTwice(p, s);
    MulMonotone(b' + 1, p, s);
    MulSum(b', 1, s);
    MulBasics(s);
    MulNat(b', s);
    RolOneOf(w, Mul(b, s) + a, bit, 2 * Mul(b', s) + 2 * a);
  }

  lemma RolOneOf(w: nat, x: int, bit: bool, rest: int)
    requires w >= 1 && 0 <= rest < Pow2(w) && 2 * x == (if bit then Pow2(w) else 0) + rest
    ensures 0 <= x < Pow2(w) && RolOne(w, x) == rest + BoolToInt(bit)
  {
    hide Pow2, Bit;
    Pow2Double(w);
    SignBit(w, x);
  }

  /** The two one-bit rotates undo each other, and the rotate right moves bit 0 to the top. */
  lemma RorUndoesRol(w: nat, x: nat)
    requires w >= 1 && x < Pow2(w)
    ensures RorOne(w, RolOne(w, x)) == x
    ensures Bit(RorOne(w, x), w - 1) <==> x % 2 == 1
  {
    hide Pow2, Bit;
    Pow2Double(w);
    SignBit(w, x);
    SignBit(w, RorOne(w, x));
    var u := RolOne(w, x);
    if x >= Pow2(w - 1) {
      assert u == 2 * (x - Pow2(w - 1)) + 1;
    } else {
      assert u == 2 * x;
    }
  }

  lemma {:induction false} RolLoopClosed(w: nat, v: nat, n: nat, cf: bool)
    requires w >= 1 && v < Pow2(w)
    ensures 0 <= Rem(n, w) < w && RolLoop(w, v, n, cf).0 == RotateLeft(w, v, Rem(n, w))
  {
    hide Pow2, RolOne, RotateLeft, Mul, Quo, Rem;
    RotateEnds(w, v);
    if n == 0 {
      NextMod(0, w);
    } else {
      RolLoopClosed(w, v, n - 1, cf);
      NextMod(n - 1, w);
      RotateStep(w, v, Rem(n - 1, w));
    }
  }

  lemma RotateRightStep(w: nat, v: nat, k: nat)
    requires w >= 1 && v < Pow2(w) && k < w
    ensures 0 <= RotateRight(w, v, k) < Pow2(w)
    ensures RorOne(w, RotateRight(w, v, k)) == RotateRight(w, v, k + 1)
    ensures RotateRight(w, v, 0) == v == RotateRight(w, v, w)
  {
    hide *;
    RotateEnds(w, v);
    RightIsLeft(w, v, 0);
    RightIsLeft(w, v, w);
    RightIsLeft(w, v, k);
    RightIsLeft(w, v, k + 1);
    RotateStep(w, v, w - k - 1);
    RorUndoesRol(w, RotateLeft(w, v, w - k - 1));
  }

  lemma RightIsLeft(w: nat, v: nat, k: nat)
    requires k <= w
    ensures RotateRight(w, v, k) == RotateLeft(w, v, w - k)
  {
    hide Mul, Quo, Rem, Pow2;
  }

  lemma {:induction false} RorLoopClosed(w: nat, v: nat, n: nat, cf: bool)
    requires w >= 1 && v < Pow2(w)
    ensures 0 <= Rem(n, w) < w && RorLoop(w, v, n, cf).0 == RotateRight(w, v, Rem(n, w))
  {
    hide Pow2, RorOne, RotateRight, Mul, Quo, Rem;
    if n == 0 {
      NextMod(0, w);
      RotateRightStep(w, v, 0);
    } else {
      RorLoopClosed(w, v, n - 1, cf);
      NextMod(n - 1, w);
      RotateRightStep(w, v, Rem(n - 1, w));
    }
  }

  lemma NextMod(n: nat, w: nat)
    requires w >= 1
    ensures 0 <= Rem(n, w) < w && Rem(0, w) == 0
    ensures Rem(n + 1, w) == if Rem(n, w) + 1 == w then 0 else Rem(n, w) + 1
  {
    hide *;
    var q, r := Quo(n, w), Rem(n, w);
    DivMod(n, w);
    MulSum(q, 1, w);
    MulBasics(w);
    DivModUnique(0, w, 0, 0);
    if r + 1 == w {
      DivModUnique(n + 1, w, q + 1, 0);
    } else {
      DivModUnique(n + 1, w, q, r + 1);
    }
  }

  lemma RemIs(n: nat, w: nat)
    requires w >= 1
    ensures Rem(n, w) == n % w
  {
    QuotientIs(n, w);
  }

  /** The 8086 shifter: the count is used in full, one bit at a time. */
  class Alu8086 {
    var flags: Flags

    method Shl(w: nat, operand: nat, count: nat) returns (v: nat)
      requires w >= 2 && operand < Pow2(w)
      modifies this
      ensures v < Pow2(w) && Shifted(v, flags) == IteratedShl(w, operand, count, old(flags))
    {
      v := operand;
      if count == 0 {
        return;
      }
      for i := 0 to count
        invariant (v, flags.cf) == ShlLoop(w, operand, i, old(flags.cf))
        invariant flags == old(flags).(cf := flags.cf)
      {
        flags := flags.(cf := Bit(v, w - 1));
        v := DropTop(w, 2 * v);
      }
      flags := flags.(of := Bit(v, w - 1) != flags.cf, af := false);
      flags := SetSzp(flags, w, v);
    }

    method Shr(w: nat, operand: nat, count: nat) returns (v: nat)
      requires w >= 2 && operand < Pow2(w)
      modifies this
      ensures v < Pow2(w) && Shifted(v, flags) == IteratedShr(w, operand, count, old(flags))
    {
      v := operand;
      if count == 0 {
        return;
      }
      for i := 0 to count
        invariant (v, flags.cf, flags.of) == ShrLoop(w, operand, i, old(flags.cf), old(flags.of))
        invariant flags == old(flags).(cf := flags.cf, of := flags.of)
      {
        flags := flags.(of := Bit(v, w - 1));
        flags := flags.(cf := v % 2 == 1);
        v := v / 2;
      }
      flags := flags.(af := false);
      flags := SetSzp(flags, w, v);
    }

    method Sar(w: nat, operand: nat, count: nat) returns (v: nat)
      requires w >= 2 && operand < Pow2(w)
      modifies this
      ensures v < Pow2(w) && Shifted(v, flags) == IteratedSar(w, operand, count, old(flags))
    {
      v := operand;
      if count == 0 {
        return;
      }
      for i := 0 to count
        invariant (v, flags.cf) == SarLoop(w, operand, i, old(flags.cf))
        invariant flags == old(flags).(cf := flags.cf)
      {
        flags := flags.(cf := v % 2 == 1);
        v := Unsigned(w, Signed(w, v) / 2);
      }
      flags := flags.(of := false, af := false);
      flags := SetSzp(flags, w, v);
    }

    method Rol(w: nat, operand: nat, count: nat) returns (v: nat)
      requires w >= 2 && operand < Pow2(w)
      modifies this
      ensures v < Pow2(w) && Shifted(v, flags) == IteratedRol(w, operand, count, old(flags))
    {
      v := operand;
      if count == 0 {
        return;
      }
      for i := 0 to count
        invariant (v, flags.cf) == RolLoop(w, operand, i, old(flags.cf))
        invariant flags == old(flags).(cf := flags.cf)
      {
        v := RolOne(w, v);
        flags := flags.(cf := v % 2 == 1);
      }
      flags := flags.(of := Bit(v, w - 1) != flags.cf);
    }

    method Ror(w: nat, operand: nat, count: nat) returns (v: nat)
      requires w >= 2 && operand < Pow2(w)
      modifies this
      ensures v < Pow2(w) && Shifted(v, flags) == IteratedRor(w, operand, count, old(flags))
    {
      v := operand;
      if count == 0 {
        return;
      }
      for i := 0 to count
        invariant (v, flags.cf) == RorLoop(w, operand, i, old(flags.cf))
        invariant flags == old(flags).(cf := flags.cf)
      {
        flags := flags.(cf := v % 2 == 1);
        v := RorOne(w, v);
      }
      flags := flags.(of := Bit(v, w - 1) != Bit(v, w - 2));
    }
  }

  // --- Where the barrel shifter departs from the loops --------------------------------------

  /** A count that is a multiple of the width above it: the 386 takes CF from the replicated
      lane of its 32-bit shifter, the loop has shifted everything out. */
  predicate WrapsLane(w: nat, n: nat)
    requires w >= 1
  {
    n > w && n % w == 0
  }

  /** Left shifts: the carries differ exactly when the lane's bit 0 is set. */
  lemma ShlAgreement(w: nat, v: nat, n: nat, cf: bool)
    requires w >= 2 && v < Pow2(w) && n >= 1
    ensures Mul(v, Pow2(n)) >= 0
    ensures ShlLoop(w, v, n, cf).0 == Rem(Mul(v, Pow2(n)), Pow2(w))
    ensures var barrel := if n % w == 0 then v % 2 == 1 else Bit(Mul(v, Pow2(n)), w);
            barrel == if WrapsLane(w, n) && v % 2 == 1 then !ShlLoop(w, v, n, cf).1 else ShlLoop(w, v, n, cf).1
  {
    hide ShlLoop, Pow2, Mul, Quo, Rem, Bit;
    ShlLoopClosed(w, v, n, cf);
    ShlCarry(w, v, n);
    MultipleOf(n, w);
    LowBit(v);
  }

  lemma LowBit(v: nat)
    ensures Bit(v, 0) <==> v % 2 == 1
  {
    Pow2Base();
    MulBasics(v);
    DivModUnique(v, 1, v, 0);
  }

  lemma MultipleOf(n: nat, w: nat)
    requires w >= 1 && n >= 1
    ensures n % w == 0 ==> n >= w
    ensures n == w ==> n % w == 0
  {
    hide Mul, Quo, Rem;
    RemIs(n, w);
    if n < w {
      MulBasics(w);
      DivModUnique(n, w, 0, n);
    }
    MulBasics(w);
    DivModUnique(w, w, 1, 0);
  }

  lemma ShrAgreement(w: nat, v: nat, n: nat, cf: bool, of: bool)
    requires w >= 2 && v < Pow2(w) && n >= 1
    ensures Quo(v, Pow2(n)) >= 0 && Quo(v, Pow2(n - 1)) >= 0
    ensures var (u, c, o) := ShrLoop(w, v, n, cf, of);
            && u == Quo(v, Pow2(n)) && o == Bit(Quo(v, Pow2(n - 1)), w - 1)
            && var barrel := if n % w == 0 then Bit(v, w - 1) else Bit(v, n - 1);
               barrel == if WrapsLane(w, n) && Bit(v, w - 1) then !c else c
  {
    hide ShrLoop, Pow2, Bit, Mul, Quo, Rem;
    ShrLoopClosed(w, v, n, cf, of);
    MultipleOf(n, w);
    if n > w {
      HighBitClear(w, v, n - 1);
    }
  }

  /** The 386 shifter: the count is masked to five bits and applied in one move. */
  class Alu386 {
    var flags: Flags

    method Shl(w: nat, v: nat, count: nat) returns (r: nat)
      requires 2 <= w <= 32 && v < Pow2(w)
      modifies this
      ensures var n := count % 32;
              var reference := IteratedShl(w, v, n, old(flags));
              r == reference.value &&
              flags == if WrapsLane(w, n) && v % 2 == 1
                       then reference.flags.(cf := true, of := !reference.flags.of)
                       else reference.flags
    {
      hide Pow2, Mul, Quo, Rem, Bit, EvenParity, ShlLoop, ShrLoop, SarLoop, RotateLeft, RotateRight, SarValue;
      var n := count % 32;
      if n == 0 {
        return v;
      }
      ShlAgreement(w, v, n, flags.cf);
      var wide := Mul(v, Pow2(n));
      r := Rem(wide, Pow2(w));
      var cf := if n % w == 0 then v % 2 == 1 else Bit(wide, w);
      flags := flags.(cf := cf);
      flags := flags.(of := Bit(r, w - 1) != cf, af := false);
      flags := SetSzp(flags, w, r);
    }

    method Shr(w: nat, v: nat, count: nat) returns (r: nat)
      requires 2 <= w <= 32 && v < Pow2(w)
      modifies this
      ensures var n := count % 32;
              var reference := IteratedShr(w, v, n, old(flags));
              r == reference.value &&
              flags == if WrapsLane(w, n) && Bit(v, w - 1) then reference.flags.(cf := true) else reference.flags
    {
      hide Pow2, Mul, Quo, Rem, Bit, EvenParity, ShlLoop, ShrLoop, SarLoop, RotateLeft, RotateRight, SarValue;
      var n := count % 32;
      if n == 0 {
        return v;
      }
      ShrAgreement(w, v, n, flags.cf, flags.of);
      r := Quo(v, Pow2(n));
      var cf := if n % w == 0 then Bit(v, w - 1) else Bit(v, n - 1);
      flags := flags.(cf := cf);
      flags := flags.(of := Bit(Quo(v, Pow2(n - 1)), w - 1), af := false);
      flags := SetSzp(flags, w, r);
    }

    method Sar(w: nat, v: nat, count: nat) returns (r: nat)
      requires 2 <= w <= 32 && v < Pow2(w)
      modifies this
      ensures Shifted(r, flags) == IteratedSar(w, v, count % 32, old(flags))
    {
      hide Pow2, Mul, Quo, Rem, Bit, EvenParity, ShlLoop, ShrLoop, SarLoop, RotateLeft, RotateRight, SarValue;
      var n := count % 32;
      if n == 0 {
        return v;
      }
      SarLoopClosed(w, v, n, flags.cf);
      r := Unsigned(w, SarValue(w, v, n));
      flags := flags.(cf := SarValue(w, v, n - 1) % 2 == 1);
      flags := flags.(of := false, af := false);
      flags := SetSzp(flags, w, r);
    }

    method Rol(w: nat, v: nat, count: nat) returns (r: nat)
      requires 2 <= w <= 32 && v < Pow2(w)
      modifies this
      ensures Shifted(r, flags) == IteratedRol(w, v, count % 32, old(flags))
    {
      hide Pow2, Mul, Quo, Rem, Bit, EvenParity, ShlLoop, ShrLoop, SarLoop, RotateLeft, RotateRight, SarValue;
      var n := count % 32;
      if n == 0 {
        return v;
      }
      RolLoopClosed(w, v, n, flags.cf);
      RemIs(n, w);
      r := RotateLeft(w, v, n % w);
      var cf := r % 2 == 1;
      flags := flags.(cf := cf);
      flags := flags.(of := Bit(r, w - 1) != cf);
    }

    method Ror(w: nat, v: nat, count: nat) returns (r: nat)
      requires 2 <= w <= 32 && v < Pow2(w)
      modifies this
      ensures Shifted(r, flags) == IteratedRor(w, v, count % 32, old(flags))
    {
      hide Pow2, Mul, Quo, Rem, Bit, EvenParity, ShlLoop, ShrLoop, SarLoop, RotateLeft, RotateRight, SarValue;
      var n := count % 32;
      if n == 0 {
        return v;
      }
      RorLoopClosed(w, v, n, flags.cf);
      RorUndoesRol(w, RorLoop(w, v, n - 1, flags.cf).0);
      RemIs(n, w);
      r := RotateRight(w, v, n % w);
      flags := flags.(cf := Bit(r, w - 1));
      flags := flags.(of := Bit(r, w - 1) != Bit(r, w - 2));
    }
  }
}
