/** Fixed-width machine words over unbounded naturals: powers of two, bit length and the bitwise
    operators, each defined bit by bit so that a mask, a shift or an `|` means what the hardware does. */
module Words {
  const TWO_32: nat := 0x1_0000_0000
  const TWO_64: nat := 0x1_0000_0000_0000_0000

  type u32 = x: nat | x < TWO_32
  type u64 = x: nat | x < TWO_64

  function Pow2(k: nat): (r: nat)
    ensures r >= 1
  {
    if k == 0 then 1 else 2 * Pow2(k - 1)
  }

  lemma Pow2Literals()
    ensures Pow2(32) == TWO_32 && Pow2(64) == TWO_64 && Pow2(16) == 0x1_0000 && Pow2(17) == 0x2_0000
  {
    Pow2Small();
    Pow2Add(16, 16);
    Pow2Add(32, 32);
  }

  lemma Pow2Small()
    ensures Pow2(16) == 0x1_0000 && Pow2(17) == 0x2_0000
  {
    assert Pow2(4) == 16 && Pow2(8) == 256 && Pow2(12) == 4096;
  }

  lemma {:induction false} Pow2Add(a: nat, b: nat)
    ensures Pow2(a + b) == Pow2(a) * Pow2(b)
  {
    if a != 0 {
      Pow2Add(a - 1, b);
      assert 2 * (Pow2(a - 1) * Pow2(b)) == (2 * Pow2(a - 1)) * Pow2(b);
    }
  }

  lemma {:induction false} Pow2Monotone(a: nat, b: nat)
    requires a <= b
    ensures Pow2(a) <= Pow2(b)
  {
    if a < b { Pow2Monotone(a, b - 1); }
  }

  /** Number of bits needed to write `x`, i.e. 64 minus the leading zeros of a 64-bit word. */
  function BitLength(x: nat): nat {
    if x == 0 then 0 else 1 + BitLength(x / 2)
  }

  lemma {:induction false} BitLengthBounds(x: nat)
    ensures x < Pow2(BitLength(x))
    ensures x > 0 ==> Pow2(BitLength(x) - 1) <= x
  {
    if x > 0 { BitLengthBounds(x / 2); }
  }

  lemma {:induction false} BitLengthBelow(x: nat, k: nat)
    requires x < Pow2(k)
    ensures BitLength(x) <= k
  {
    if x > 0 { BitLengthBelow(x / 2, k - 1); }
  }

  lemma {:induction false} BitLengthAbove(x: nat, k: nat)
    requires Pow2(k) <= x
    ensures k < BitLength(x)
  {
    if k > 0 { BitLengthAbove(x / 2, k - 1); }
  }

  function And(a: nat, b: nat): nat {
    if a == 0 then 0 else 2 * And(a / 2, b / 2) + (if a % 2 == 1 && b % 2 == 1 then 1 else 0)
  }

  function Or(a: nat, b: nat): nat
    decreases a + b
  {
    if a == 0 && b == 0 then 0 else 2 * Or(a / 2, b / 2) + (if a % 2 == 1 || b % 2 == 1 then 1 else 0)
  }

  function Xor(a: nat, b: nat): nat
    decreases a + b
  {
    if a == 0 && b == 0 then 0 else 2 * Xor(a / 2, b / 2) + (if a % 2 != b % 2 then 1 else 0)
  }

  /** Right shift: drop the low bit `k` times. */
  function Shr(a: nat, k: nat): nat {
    if k == 0 then a else Shr(a / 2, k - 1)
  }

  /** Left shift, before any truncation to a word. */
  function Shl(a: nat, k: nat): nat {
    if k == 0 then a else 2 * Shl(a, k - 1)
  }

  /** The lowest `k` bits. */
  function LowBits(a: nat, k: nat): nat {
    if k == 0 then 0 else 2 * LowBits(a / 2, k - 1) + a % 2
  }

  /** A value is its shifted-out high part and its low bits. */
  lemma {:induction false} ShiftSplit(a: nat, k: nat)
    ensures a == Shl(Shr(a, k), k) + LowBits(a, k)
    ensures LowBits(a, k) < Pow2(k)
  {
    if k > 0 { ShiftSplit(a / 2, k - 1); }
  }

  lemma {:induction false} ShlIsMul(a: nat, k: nat)
    ensures Shl(a, k) == a * Pow2(k)
  {
    if k > 0 {
      ShlIsMul(a, k - 1);
      MulAssoc(a, 2, Pow2(k - 1));
    }
  }

  /** Shifting right divides and keeping low bits takes the remainder. */
  lemma ShiftIsDiv(a: nat, k: nat)
    ensures Shr(a, k) == a / Pow2(k) && LowBits(a, k) == a % Pow2(k)
  {
    ShiftSplit(a, k);
    ShlIsMul(Shr(a, k), k);
    DivModUnique(a, Pow2(k), Shr(a, k), LowBits(a, k));
  }

  lemma DivModUnique(a: nat, m: nat, q: nat, r: nat)
    requires m > 0 && r < m && a == q * m + r
    ensures a / m == q && a % m == r
  {
    var q', r' := a / m, a % m;
    assert a == q' * m + r';
    if q' < q { MulGap(q', q, m); }
    if q < q' { MulGap(q, q', m); }
  }

  lemma MulGap(a: nat, b: nat, m: nat)
    requires a < b
    ensures a * m + m <= b * m
  {
    assert (b - a) * m == b * m - a * m;
    assert (b - a) * m >= m by {
      assert (b - a - 1) * m >= 0;
      assert (b - a) * m == (b - a - 1) * m + m;
    }
  }

  lemma {:induction false} AndMask(a: nat, k: nat)
    ensures And(a, Pow2(k) - 1) == LowBits(a, k)
  {
    if k == 0 {
      AndZero(a);
    } else if a == 0 {
      LowBitsZero(k);
    } else {
      AndMask(a / 2, k - 1);
      assert (Pow2(k) - 1) / 2 == Pow2(k - 1) - 1 && (Pow2(k) - 1) % 2 == 1;
    }
  }

  lemma {:induction false} LowBitsZero(k: nat)
    ensures LowBits(0, k) == 0 && Shr(0, k) == 0
  {
    if k > 0 { LowBitsZero(k - 1); }
  }

  lemma {:induction false} AndZero(a: nat)
    ensures And(a, 0) == 0
  {
    if a != 0 { AndZero(a / 2); }
  }

  lemma {:induction false} OrDisjoint(h: nat, l: nat, k: nat)
    requires l < Pow2(k)
    ensures Or(Shl(h, k), l) == Shl(h, k) + l
  {
    if k == 0 {
      OrZero(h);
    } else {
      OrDisjoint(h, l / 2, k - 1);
      OrDouble(Shl(h, k - 1), l);
    }
  }

  lemma OrDouble(a: nat, l: nat)
    requires Or(a, l / 2) == a + l / 2
    ensures Or(2 * a, l) == 2 * a + l
  {
    assert (2 * a) / 2 == a && (2 * a) % 2 == 0;
  }

  lemma MulAssoc(a: nat, b: nat, c: nat)
    ensures a * (b * c) == b * (a * c) == (a * b) * c
  {
  }

  lemma {:induction false} OrZero(a: nat)
    ensures Or(a, 0) == a
  {
    if a != 0 { OrZero(a / 2); }
  }

  lemma {:induction false} XorBelow(a: nat, b: nat, k: nat)
    requires a < Pow2(k) && b < Pow2(k)
    ensures Xor(a, b) < Pow2(k)
  {
    if k > 0 && (a != 0 || b != 0) { XorBelow(a / 2, b / 2, k - 1); }
  }

  lemma {:induction false} XorCancel(a: nat, b: nat)
    ensures Xor(Xor(a, b), b) == a
    decreases a + b
  {
    if a != 0 || b != 0 {
      XorCancel(a / 2, b / 2);
      assert Xor(a, b) / 2 == Xor(a / 2, b / 2);
    }
  }

  lemma {:induction false} XorZero(b: nat)
    ensures Xor(0, b) == b
  {
    if b != 0 { XorZero(b / 2); }
  }

  lemma {:induction false} XorCommutes(a: nat, b: nat)
    ensures Xor(a, b) == Xor(b, a)
    decreases a + b
  {
    if a != 0 || b != 0 { XorCommutes(a / 2, b / 2); }
  }

  lemma XorInjective(a: nat, b: nat, c: nat)
    requires Xor(a, c) == Xor(b, c)
    ensures a == b
  {
    XorCancel(a, c);
    XorCancel(b, c);
  }

  /** XOR commutes with a right shift. */
  lemma {:induction false} XorShr(a: nat, b: nat, k: nat)
    ensures Shr(Xor(a, b), k) == Xor(Shr(a, k), Shr(b, k))
    decreases k
  {
    if k > 0 {
      XorShr(a / 2, b / 2, k - 1);
      assert Xor(a, b) / 2 == Xor(a / 2, b / 2);
    }
  }

  lemma {:induction false} ShrBelow(a: nat, k: nat)
    ensures Shr(a, k) <= a
    ensures k > 0 && a > 0 ==> Shr(a, k) < a
  {
    if k > 0 { ShrBelow(a / 2, k - 1); }
  }

  /** Reducing modulo a larger multiple first does not change a residue: wrapping then masking is masking. */
  lemma WrapThenMask(a: nat, w: nat, k: nat)
    requires w <= k
    ensures (a % Pow2(k)) % Pow2(w) == a % Pow2(w)
  {
    Pow2Add(k - w, w);
    ModOfMod(a, Pow2(w), Pow2(k - w));
  }

  lemma ModOfMod(a: nat, p: nat, m: nat)
    requires p > 0 && m > 0
    ensures m * p > 0 && (a % (m * p)) % p == a % p
  {
    MulPositive(m, p);
    var q, r := DivMod(a, m * p);
    var q2, r2 := DivMod(r, p);
    MulAssoc(q, m, p);
    MulAdd(q * m, q2, p);
    DivModUnique(a, p, q * m + q2, r2);
  }

  lemma MulPositive(a: nat, b: nat)
    requires a > 0 && b > 0
    ensures a * b > 0
  {
  }

  function Quotient(a: nat, m: nat): nat
    requires m > 0
  {
    var q, r := a / m, a % m;
    assert a == q * m + r;
    q
  }

  /** Quotient and remainder with their defining equation. */
  lemma DivMod(a: nat, m: nat) returns (q: nat, r: nat)
    requires m > 0
    ensures q == a / m && r == a % m && a == q * m + r && r < m
  {
    q, r := a / m, a % m;
  }

  lemma MulAdd(a: int, b: int, c: int)
    ensures (a + b) * c == a * c + b * c
  {
  }

  lemma MulMonotone(a: nat, b: nat, c: nat)
    requires a <= b
    ensures a * c <= b * c
  {
  }

  lemma DivMonotone(a: nat, b: nat, w: nat)
    requires w > 0 && a <= b
    ensures a / w <= b / w
  {
    var q, r := DivMod(a, w);
    var q', r' := DivMod(b, w);
    if q > q' { MulGap(q', q, w); }
  }

  /** `k` copies of `n`, by repeated addition. */
  function Times(k: nat, n: nat): nat {
    if k == 0 then 0 else Times(k - 1, n) + n
  }

  lemma {:induction false} TimesIsMul(k: nat, n: nat)
    ensures Times(k, n) == k * n
  {
    if k > 0 {
      TimesIsMul(k - 1, n);
      MulAdd(k - 1, 1, n);
    }
  }

  lemma TimesShift(k: nat, n: nat)
    requires k > 0
    ensures Times(k, n) == Times(k - 1, n) + n
  {
  }

  lemma {:induction false} TimesMonotone(j: nat, k: nat, n: nat)
    requires j <= k
    ensures Times(j, n) <= Times(k, n)
    ensures j < k ==> Times(j, n) + n <= Times(k, n)
  {
    if j < k { TimesMonotone(j, k - 1, n); }
  }
}
