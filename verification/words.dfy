/** Machine words as bounded naturals: powers of two, bits, products and quotients.

    Products and quotients by a variable are named functions defined by recursion (`ProductIs` and
    `QuotientIs` say that they are the built-in ones): proofs reason about them with the lemmas of
    this module rather than with raw nonlinear arithmetic. */
module Words {

  function Mul(a: int, b: int): int
    decreases if b < 0 then -b else b
  {
    if b == 0 then 0 else if b > 0 then Mul(a, b - 1) + a else Mul(a, b + 1) - a
  }

  function Quo(n: int, d: nat): int
    requires d > 0
    decreases if n < 0 then d - n else n
  {
    if n < 0 then Quo(n + d, d) - 1 else if n < d then 0 else Quo(n - d, d) + 1
  }

  function Rem(n: int, d: nat): int
    requires d > 0
    decreases if n < 0 then d - n else n
  {
    if n < 0 then Rem(n + d, d) else if n < d then n else Rem(n - d, d)
  }

  function Pow2(n: nat): (p: nat)
    ensures p >= 1
  {
    if n == 0 then 1 else 2 * Pow2(n - 1)
  }

  /** Bit `k` of `x`. */
  predicate Bit(x: nat, k: nat) {
    Quo(x, Pow2(k)) % 2 == 1
  }

  function BoolToInt(b: bool): (r: nat)
    ensures b ==> r == 1
    ensures !b ==> r == 0
  {
    if b then 1 else 0
  }

  // --- Products --------------------------------------------------------------------------

  lemma {:induction false} ProductIs(a: int, b: int)
    ensures Mul(a, b) == a * b
    decreases if b < 0 then -b else b
  {
    if b > 0 {
      ProductIs(a, b - 1);
      Distribute(a, b, 1);
    } else if b < 0 {
      ProductIs(a, b + 1);
      Distribute(a, b, -1);
    }
  }

  lemma Distribute(a: int, b: int, c: int)
    ensures a * (b - c) == a * b - a * c
    ensures (b - c) * a == b * a - c * a
    ensures (b + c) * a == b * a + c * a
  {
  }

  lemma MulBasics(a: int)
    ensures Mul(a, 0) == 0 == Mul(0, a) && Mul(a, 1) == a == Mul(1, a)
    ensures Mul(a, 2) == 2 * a == Mul(2, a)
  {
    ProductIs(0, a);
    ProductIs(1, a);
    ProductIs(2, a);
  }

  lemma MulSum(a: int, b: int, c: int)
    ensures Mul(a + b, c) == Mul(a, c) + Mul(b, c)
    ensures Mul(a - b, c) == Mul(a, c) - Mul(b, c)
  {
    hide *;
    ProductIs(a + b, c);
    ProductIs(a - b, c);
    ProductIs(a, c);
    ProductIs(b, c);
    Distribute(c, a, b);
  }

  lemma MulTwice(a: int, c: int)
    ensures Mul(2 * a, c) == 2 * Mul(a, c) == Mul(a, 2 * c)
    ensures Mul(2 * a + 1, c) == 2 * Mul(a, c) + c
  {
    hide *;
    MulSum(a, a, c);
    MulSum(2 * a, 1, c);
    MulBasics(c);
    ProductIs(a, 2 * c);
    ProductIs(a, c);
  }

  lemma MulComm(a: int, b: int)
    ensures Mul(a, b) == Mul(b, a)
  {
    hide *;
    ProductIs(a, b);
    ProductIs(b, a);
  }

  lemma {:induction false} MulAssoc(a: int, b: int, c: int)
    ensures Mul(Mul(a, b), c) == Mul(a, Mul(b, c))
    decreases if c < 0 then -c else c
  {
    MulBasics(a);
    if c > 0 {
      MulAssoc(a, b, c - 1);
      MulSumRight(a, Mul(b, c - 1), b);
    } else if c < 0 {
      MulAssoc(a, b, c + 1);
      MulSumRight(a, Mul(b, c + 1), b);
    }
  }

  lemma MulSumRight(a: int, b: int, c: int)
    ensures Mul(a, b + c) == Mul(a, b) + Mul(a, c)
    ensures Mul(a, b - c) == Mul(a, b) - Mul(a, c)
  {
    hide *;
    MulSum(b, c, a);
    MulComm(a, b + c);
    MulComm(a, b - c);
    MulComm(a, b);
    MulComm(a, c);
  }

  lemma {:induction false} MulMonotone(a: int, b: int, c: int)
    requires a <= b && c >= 0
    ensures Mul(a, c) <= Mul(b, c)
    decreases c
  {
    if c > 0 {
      MulMonotone(a, b, c - 1);
    }
  }

  lemma MulNat(a: nat, b: nat)
    ensures Mul(a, b) >= 0
  {
    MulBasics(b);
    MulMonotone(0, a, b);
  }

  /** Products of factors known up to sign. */
  lemma MulSigns(a: int, b: int, a': int, b': int)
    requires (a' == a || a' == -a) && (b' == b || b' == -b)
    ensures Mul(a', b') == if (a' == a) == (b' == b) then Mul(a, b) else -Mul(a, b)
  {
    hide *;
    MulBasics(b);
    MulBasics(a);
    MulSum(0, a, b);
    MulSumRight(a, 0, b);
    MulSumRight(a', 0, b);
    MulBasics(a');
    MulSum(0, a, b');
    MulBasics(b');
  }

  // --- Quotients and remainders ---------------------------------------------------------------

  lemma {:induction false} DivMod(n: int, d: nat)
    requires d > 0
    ensures n == Mul(Quo(n, d), d) + Rem(n, d) && 0 <= Rem(n, d) < d
    ensures n >= 0 ==> Quo(n, d) >= 0
    decreases if n < 0 then d - n else n
  {
    MulBasics(d);
    if n < 0 {
      DivMod(n + d, d);
      MulSum(Quo(n + d, d), 1, d);
    } else if n >= d {
      DivMod(n - d, d);
      MulSum(Quo(n - d, d), 1, d);
    }
  }

  lemma QuotientIs(n: int, d: nat)
    requires d > 0
    ensures Quo(n, d) == n / d && Rem(n, d) == n % d
  {
    hide *;
    ProductIs(n / d, d);
    DivModUnique(n, d, n / d, n % d);
  }

  lemma EuclidUnique(d: nat, q: int, r: int, q': int, r': int)
    requires 0 <= r < d && 0 <= r' < d
    requires Mul(q, d) + r == Mul(q', d) + r'
    ensures q == q' && r == r'
  {
    hide Mul;
    MulSum(q, q', d);
    MulBasics(d);
    if q > q' {
      MulMonotone(1, q - q', d);
    } else if q < q' {
      MulSum(q', q, d);
      MulMonotone(1, q' - q, d);
    }
  }

  /** The quotient and remainder are the only pair that satisfy the division equation. */
  lemma DivModUnique(n: int, d: nat, q: int, r: int)
    requires d > 0 && 0 <= r < d && n == Mul(q, d) + r
    ensures Quo(n, d) == q && Rem(n, d) == r
  {
    hide *;
    DivMod(n, d);
    EuclidUnique(d, Quo(n, d), Rem(n, d), q, r);
  }

  /** Splitting off low bits in two steps is the same as splitting them off at once. */
  lemma DivDiv(n: int, a: nat, b: nat)
    requires a > 0 && b > 0
    ensures Mul(a, b) > 0
    ensures Quo(n, Mul(a, b)) == Quo(Quo(n, a), b)
    ensures Rem(n, Mul(a, b)) == Mul(Rem(Quo(n, a), b), a) + Rem(n, a)
  {
    hide *;
    var q, r := Quo(n, a), Rem(n, a);
    var q2, r2 := Quo(q, b), Rem(q, b);
    DivMod(n, a);
    DivMod(q, b);
    MulSum(Mul(q2, b), r2, a);
    MulAssoc(q2, b, a);
    MulComm(a, b);
    MulMonotone(r2, b - 1, a);
    MulMonotone(0, r2, a);
    MulMonotone(1, b, a);
    MulSum(b, 1, a);
    MulBasics(a);
    DivModUnique(n, Mul(a, b), q2, Mul(r2, a) + r);
  }

  lemma QuotientAtLeast(n: nat, d: nat, k: nat)
    requires d > 0
    ensures Quo(n, d) >= k <==> n >= Mul(k, d)
  {
    hide *;
    DivMod(n, d);
    var q := Quo(n, d);
    if q >= k {
      MulMonotone(k, q, d);
    } else {
      MulMonotone(q + 1, k, d);
      MulSum(q, 1, d);
      MulBasics(d);
    }
  }

  lemma QuotientAtMost(n: nat, d: nat)
    requires d > 0
    ensures 0 <= Quo(n, d) <= n
  {
    hide *;
    QuotientAtLeast(n, d, n + 1);
    MulComm(n + 1, d);
    MulMonotone(1, d, n + 1);
    MulBasics(n + 1);
    DivMod(n, d);
  }

  // --- Powers of two and bits --------------------------------------------------------------------

  lemma Pow2Base()
    ensures Pow2(0) == 1 && Pow2(1) == 2
  {
  }

  lemma Pow2Double(n: nat)
    requires n >= 1
    ensures Pow2(n) == 2 * Pow2(n - 1)
  {
  }

  lemma {:induction false} Pow2Add(a: nat, b: nat)
    ensures Pow2(a + b) == Mul(Pow2(a), Pow2(b))
  {
    hide *;
    Pow2Base();
    MulBasics(Pow2(b));
    if a > 0 {
      Pow2Add(a - 1, b);
      Pow2Double(a);
      Pow2Double(a + b);
      MulTwice(Pow2(a - 1), Pow2(b));
    }
  }

  lemma {:induction false} Pow2Monotone(a: nat, b: nat)
    requires a <= b
    ensures Pow2(a) <= Pow2(b)
  {
    if a < b {
      Pow2Monotone(a, b - 1);
    }
  }

  lemma Pow2Widths()
    ensures Pow2(8) == 0x100 && Pow2(16) == 0x1_0000 && Pow2(32) == 0x1_0000_0000
  {
    hide Pow2, Mul;
    Pow2Base();
    Pow2Double(2);
    Pow2Double(3);
    Pow2Add(1, 3);
    ProductIs(2, 8);
    Pow2Add(4, 4);
    ProductIs(16, 16);
    Pow2Add(8, 8);
    ProductIs(0x100, 0x100);
    Pow2Add(16, 16);
    ProductIs(0x1_0000, 0x1_0000);
  }

  lemma BitIs(x: nat, k: nat, q: int)
    requires Quo(x, Pow2(k)) == q
    ensures Bit(x, k) <==> q % 2 == 1
  {
  }

  lemma NextBit(x: nat, k: nat)
    ensures Quo(x, Pow2(k)) == 2 * Quo(x, Pow2(k + 1)) + BoolToInt(Bit(x, k))
  {
    hide Quo, Mul, Pow2;
    DivDiv(x, Pow2(k), 2);
    DivMod(Quo(x, Pow2(k)), 2);
    MulBasics(Pow2(k));
    MulBasics(Quo(Quo(x, Pow2(k)), 2));
    Pow2Double(k + 1);
  }

  lemma SignBit(w: nat, x: nat)
    requires w >= 1 && x < Pow2(w)
    ensures Bit(x, w - 1) <==> x >= Pow2(w - 1)
  {
    hide *;
    var h := Pow2(w - 1);
    Pow2Double(w);
    MulBasics(h);
    if x >= h {
      DivModUnique(x, h, 1, x - h);
      BitIs(x, w - 1, 1);
    } else {
      DivModUnique(x, h, 0, x);
      BitIs(x, w - 1, 0);
    }
  }

  lemma HighBitClear(w: nat, x: nat, k: nat)
    requires x < Pow2(w) && k >= w
    ensures !Bit(x, k)
  {
    hide *;
    Pow2Monotone(w, k);
    MulBasics(Pow2(k));
    DivModUnique(x, Pow2(k), 0, x);
    BitIs(x, k, 0);
  }
}
