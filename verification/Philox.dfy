/** The Philox4x32-10 block function and a proof that it permutes the counter space under every key. */
module Philox {
  import opened Words

  const PHILOX_M0: u32 := 0xD251_1F53
  const PHILOX_M1: u32 := 0xCD9E_8D57
  const PHILOX_W0: u32 := 0x9E37_79B9
  const PHILOX_W1: u32 := 0xBB67_AE85
  // Inverses of the two multipliers modulo 2^32; they exist because both multipliers are odd.
  const PHILOX_M0_INVERSE: u32 := 0x991A_7CDB
  const PHILOX_M1_INVERSE: u32 := 0x6D7C_AE67

  datatype Block = Block(w0: u32, w1: u32, w2: u32, w3: u32)
  datatype Key = Key(k0: u32, k1: u32)

  lemma XorFits(a: u32, b: u32)
    ensures Xor(a, b) < TWO_32
  {
    Pow2Literals();
    XorBelow(a, b, 32);
  }

  function Xor32(a: u32, b: u32): u32 {
    XorFits(a, b);
    Xor(a, b)
  }

  /** The low and the high word of the 64-bit product of two words. */
  function MultiplyWords(left: u32, right: u32): (u32, u32) {
    ProductHigh(left, right);
    ((left * right) % TWO_32, (left * right) / TWO_32)
  }

  lemma ProductHigh(left: u32, right: u32)
    ensures (left * right) / TWO_32 < TWO_32
  {
    assert left * right <= left * TWO_32;
    assert left * right < TWO_32 * TWO_32;
  }

  function Round(c: Block, k: Key): Block {
    var (lo0, hi0) := MultiplyWords(PHILOX_M0, c.w0);
    var (lo1, hi1) := MultiplyWords(PHILOX_M1, c.w2);
    Block(Xor32(Xor32(hi1, c.w1), k.k0), lo1, Xor32(Xor32(hi0, c.w3), k.k1), lo0)
  }

  function BumpKey(k: Key): Key {
    Key((k.k0 + PHILOX_W0) % TWO_32, (k.k1 + PHILOX_W1) % TWO_32)
  }

  function Rounds(c: Block, k: Key, n: nat): Block
    decreases n, c
  {
    if n == 0 then c else Rounds(Round(c, k), BumpKey(k), n - 1)
  }

  function Philox4x32(c: Block, k: Key): Block {
    Rounds(c, k, 10)
  }

  /** Ten rounds with the key bumped between them. */
  method Philox4x32_10(counter: Block, key: Key) returns (r: Block)
    ensures r == Philox4x32(counter, key)
  {
    var c, k := counter, key;
    var round := 0;
    while round < 10
      invariant 0 <= round <= 10
      invariant Rounds(c, k, 10 - round) == Philox4x32(counter, key) || round == 10
      invariant round == 10 ==> c == Philox4x32(counter, key)
    {
      var (lo0, hi0) := MultiplyWords(PHILOX_M0, c.w0);
      var (lo1, hi1) := MultiplyWords(PHILOX_M1, c.w2);
      assert Rounds(c, k, 10 - round) == Rounds(Round(c, k), BumpKey(k), 9 - round);
      c := Block(Xor32(Xor32(hi1, c.w1), k.k0), lo1, Xor32(Xor32(hi0, c.w3), k.k1), lo0);
      if round != 9 {
        k := Key((k.k0 + PHILOX_W0) % TWO_32, (k.k1 + PHILOX_W1) % TWO_32);
      }
      round := round + 1;
    }
    r := c;
  }

  // ----- the inverse -----

  function UnRound(c: Block, k: Key): Block {
    var w0 := (c.w3 * PHILOX_M0_INVERSE) % TWO_32;
    var w2 := (c.w1 * PHILOX_M1_INVERSE) % TWO_32;
    var (_, hi0) := MultiplyWords(PHILOX_M0, w0);
    var (_, hi1) := MultiplyWords(PHILOX_M1, w2);
    Block(w0, Xor32(Xor32(c.w0, k.k0), hi1), w2, Xor32(Xor32(c.w2, k.k1), hi0))
  }

  function UnRounds(c: Block, k: Key, n: nat): Block
    decreases n, c
  {
    if n == 0 then c else UnRound(UnRounds(c, BumpKey(k), n - 1), k)
  }

  lemma MultiplierCancels(m: nat, inverse: nat, q: nat, modulus: nat, x: nat)
    requires modulus > 0 && x < modulus && m * inverse == q * modulus + 1
    ensures (((m * x) % modulus) * inverse) % modulus == x
  {
    var a, lo := DivMod(m * x, modulus);
    CancelIdentity(m, inverse, q, modulus, x, a, lo);
    ModUnique(lo * inverse, modulus, x * q - a * inverse, x);
  }

  lemma CancelIdentity(m: int, inverse: int, q: int, modulus: int, x: int, a: int, lo: int)
    requires m * inverse == q * modulus + 1 && m * x == a * modulus + lo
    ensures lo * inverse == (x * q - a * inverse) * modulus + x
  {
    calc {
      lo * inverse;
      (m * x - a * modulus) * inverse;
      (m * x) * inverse - (a * modulus) * inverse;
      { Swap(m, x, inverse); Swap(a, modulus, inverse); }
      x * (m * inverse) - (a * inverse) * modulus;
      x * (q * modulus + 1) - (a * inverse) * modulus;
      { Distribute(x, q, modulus); }
      (x * q) * modulus + x - (a * inverse) * modulus;
      { MulAdd(x * q, -(a * inverse), modulus); MulAdd(a * inverse, -(a * inverse), modulus); }
      (x * q - a * inverse) * modulus + x;
    }
  }

  lemma Swap(a: int, b: int, c: int)
    ensures (a * b) * c == b * (a * c) == (a * c) * b
  {
  }

  lemma Distribute(x: int, q: int, m: int)
    ensures x * (q * m + 1) == (x * q) * m + x
  {
  }

  lemma ModUnique(n: nat, m: nat, q: int, r: nat)
    requires r < m && n == q * m + r
    ensures n % m == r
  {
    assert q >= 0 by {
      if q < 0 { NegativeMultiple(q, m); }
    }
    DivModUnique(n, m, q, r);
  }

  lemma NegativeMultiple(q: int, m: int)
    requires q < 0 < m
    ensures q * m <= -m
  {
    MulGap(0, -q, m);
    MulAdd(q, -q, m);
  }

  lemma LowWordCancels(x: u32)
    ensures (((PHILOX_M0 * x) % TWO_32) * PHILOX_M0_INVERSE) % TWO_32 == x
    ensures (((PHILOX_M1 * x) % TWO_32) * PHILOX_M1_INVERSE) % TWO_32 == x
    ensures (PHILOX_M0 * ((x * PHILOX_M0_INVERSE) % TWO_32)) % TWO_32 == x
    ensures (PHILOX_M1 * ((x * PHILOX_M1_INVERSE) % TWO_32)) % TWO_32 == x
  {
    var q0 := (PHILOX_M0 * PHILOX_M0_INVERSE - 1) / TWO_32;
    var q1 := (PHILOX_M1 * PHILOX_M1_INVERSE - 1) / TWO_32;
    MultiplierCancels(PHILOX_M0, PHILOX_M0_INVERSE, q0, TWO_32, x);
    MultiplierCancels(PHILOX_M1, PHILOX_M1_INVERSE, q1, TWO_32, x);
    MultiplierCancels(PHILOX_M0_INVERSE, PHILOX_M0, q0, TWO_32, x);
    MultiplierCancels(PHILOX_M1_INVERSE, PHILOX_M1, q1, TWO_32, x);
  }

  lemma RoundInvertible(c: Block, k: Key)
    ensures UnRound(Round(c, k), k) == c
    ensures Round(UnRound(c, k), k) == c
  {
    LowWordCancels(c.w0);
    LowWordCancels(c.w1);
    LowWordCancels(c.w2);
    LowWordCancels(c.w3);
    var (_, hi0) := MultiplyWords(PHILOX_M0, c.w0);
    var (_, hi1) := MultiplyWords(PHILOX_M1, c.w2);
    UnmaskWord(hi1, c.w1, k.k0);
    UnmaskWord(hi0, c.w3, k.k1);
    var u := UnRound(c, k);
    var (_, g0) := MultiplyWords(PHILOX_M0, u.w0);
    var (_, g1) := MultiplyWords(PHILOX_M1, u.w2);
    RemaskWord(g1, c.w0, k.k0);
    RemaskWord(g0, c.w2, k.k1);
  }

  lemma UnmaskWord(hi: u32, w: u32, k: u32)
    ensures Xor32(Xor32(Xor32(Xor32(hi, w), k), k), hi) == w
  {
    XorCancel(Xor(hi, w), k);
    XorCommutes(hi, w);
    XorCancel(w, hi);
  }

  lemma RemaskWord(hi: u32, w: u32, k: u32)
    ensures Xor32(Xor32(hi, Xor32(Xor32(w, k), hi)), k) == w
  {
    XorCommutes(hi, Xor(Xor(w, k), hi));
    XorCancel(Xor(w, k), hi);
    XorCancel(w, k);
  }

  /** Any number of rounds is a bijection on counters: `UnRounds` is its inverse on both sides. */
  lemma {:induction false} RoundsInvertible(c: Block, k: Key, n: nat)
    ensures UnRounds(Rounds(c, k, n), k, n) == c
    decreases n
  {
    if n > 0 {
      RoundsInvertible(Round(c, k), BumpKey(k), n - 1);
      RoundInvertible(c, k);
    }
  }

  lemma {:induction false} RoundsOnto(c: Block, k: Key, n: nat)
    ensures Rounds(UnRounds(c, k, n), k, n) == c
    decreases n
  {
    if n > 0 {
      RoundInvertible(UnRounds(c, BumpKey(k), n - 1), k);
      RoundsOnto(c, BumpKey(k), n - 1);
    }
  }

  /** Philox4x32-10 is one-to-one on counters under every key. */
  lemma PhiloxInjective(c: Block, d: Block, k: Key)
    requires Philox4x32(c, k) == Philox4x32(d, k)
    ensures c == d
  {
    RoundsInvertible(c, k, 10);
    RoundsInvertible(d, k, 10);
  }

  // ----- what the rounds are -----

  /** One round solved for its input: the two products as high and low words. The high word of each is
      what is left of an output word once the key and a counter word are taken out of it again. */
  lemma RoundProducts(c: Block, k: Key)
    ensures 0xD251_1F53 * c.w0 == Xor32(Xor32(Round(c, k).w2, k.k1), c.w3) * 0x1_0000_0000 + Round(c, k).w3
    ensures 0xCD9E_8D57 * c.w2 == Xor32(Xor32(Round(c, k).w0, k.k0), c.w1) * 0x1_0000_0000 + Round(c, k).w1
  {
    var (lo0, hi0) := MultiplyWords(PHILOX_M0, c.w0);
    var (lo1, hi1) := MultiplyWords(PHILOX_M1, c.w2);
    TakenOut(hi0, c.w3, k.k1);
    TakenOut(hi1, c.w1, k.k0);
    var q0, r0 := DivMod(0xD251_1F53 * c.w0, TWO_32);
    var q1, r1 := DivMod(0xCD9E_8D57 * c.w2, TWO_32);
  }

  lemma TakenOut(hi: u32, w: u32, k: u32)
    ensures Xor32(Xor32(Xor32(Xor32(hi, w), k), k), w) == hi
  {
    XorCancel(Xor(hi, w), k);
    XorCancel(hi, w);
  }

  /** The key of round `i`, without going through the rounds before it. */
  function RoundKey(k: Key, i: nat): Key {
    Key((k.k0 + i * 0x9E37_79B9) % 0x1_0000_0000, (k.k1 + i * 0xBB67_AE85) % 0x1_0000_0000)
  }

  lemma RoundKeyNext(k: Key, i: nat)
    ensures RoundKey(BumpKey(k), i) == RoundKey(k, i + 1)
  {
    AddedModulo(k.k0 + PHILOX_W0, i * 0x9E37_79B9, TWO_32);
    AddedModulo(k.k1 + PHILOX_W1, i * 0xBB67_AE85, TWO_32);
  }

  lemma AddedModulo(a: nat, b: nat, m: nat)
    requires m > 0
    ensures (a % m + b) % m == (a + b) % m
  {
    var q, r := DivMod(a, m);
    var q', r' := DivMod(r + b, m);
    MulAdd(q, q', m);
    DivModUnique(a + b, m, q + q', r');
  }

  lemma {:induction false} LastRound(c: Block, k: Key, n: nat)
    ensures Rounds(c, k, n + 1) == Round(Rounds(c, k, n), RoundKey(k, n))
    decreases n
  {
    if n == 0 {
      assert Rounds(c, k, 1) == Rounds(Round(c, k), BumpKey(k), 0);
      assert RoundKey(k, 0) == k;
    } else {
      LastRound(Round(c, k), BumpKey(k), n - 1);
      RoundKeyNext(k, n - 1);
    }
  }

  /** Philox4x32-10 is ten rounds, each under the key advanced by so many increments as rounds came before. */
  lemma TenRounds(c: Block, k: Key)
    ensures Rounds(c, k, 0) == c && Rounds(c, k, 10) == Philox4x32(c, k)
    ensures forall n: nat | n < 10 :: Rounds(c, k, n + 1) == Round(Rounds(c, k, n), RoundKey(k, n))
  {
    forall n: nat | n < 10 ensures Rounds(c, k, n + 1) == Round(Rounds(c, k, n), RoundKey(k, n)) {
      LastRound(c, k, n);
    }
  }
}
