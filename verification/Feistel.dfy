/** The stateless large-domain permutation: an eight-round unbalanced Feistel cipher with cycle walking.
    The specification works on unbounded integers and for every round function; the methods are the
    32/64-bit engine code, proved equal to it. */
module Feistel {
  import opened Words
  import opened Outcomes
  import opened Philox
  import opened Streams
  import opened CycleWalk

  const FEISTEL_THRESHOLD: nat := 0x2_0000
  const PERM_ROUND_TAG: u32 := 3
  const CIPHER_ROUNDS: nat := 8

  /** The two halves of a value, each with its current width in bits. */
  datatype Halves = Halves(high: nat, low: nat, highWidth: nat, lowWidth: nat) {
    predicate Fits() {
      high < Pow2(highWidth) && low < Pow2(lowWidth)
    }
  }

  /** A round function maps (low half, round number) to any natural. */
  type RoundFunction = (nat, nat) -> nat

  function CipherRound(f: RoundFunction, round: nat, s: Halves): Halves {
    var m := Pow2(s.highWidth);
    Halves(s.low, (s.high + f(s.low, round) % m) % m, s.lowWidth, s.highWidth)
  }

  /** Apply rounds `round` to 7 in order. */
  function Forwards(step: (nat, Halves) -> Halves, round: nat, s: Halves): Halves
    requires round <= CIPHER_ROUNDS
    decreases CIPHER_ROUNDS - round, s
  {
    if round == CIPHER_ROUNDS then s else Forwards(step, round + 1, step(round, s))
  }

  /** Apply rounds 7 down to `round`. */
  function Backwards(step: (nat, Halves) -> Halves, round: nat, s: Halves): Halves
    requires round <= CIPHER_ROUNDS
    decreases CIPHER_ROUNDS - round, s
  {
    if round == CIPHER_ROUNDS then s else step(round, Backwards(step, round + 1, s))
  }

  function CipherStep(f: RoundFunction): (nat, Halves) -> Halves {
    (round: nat, s: Halves) => CipherRound(f, round, s)
  }

  function Split(bits: nat, value: nat): Halves {
    var w := bits / 2;
    Halves(value / Pow2(w), value % Pow2(w), bits - w, w)
  }

  function Join(bits: nat, s: Halves): nat {
    s.high * Pow2(bits / 2) + s.low
  }

  /** The cipher on `bits`-bit values, over unbounded integers. */
  function Cipher(f: RoundFunction, bits: nat, value: nat): nat {
    Join(bits, Forwards(CipherStep(f), 0, Split(bits, value)))
  }

  // ----- what the rounds are -----

  /** A half with one round's word added, modulo its width. */
  function Added(f: RoundFunction, round: nat, half: nat, other: nat, m: nat): nat
    requires m > 0
  {
    (half + f(other, round) % m) % m
  }

  /** `x` are the halves in the order they appear, from the upper and the lower half of the value on: each one is the
      half before the last with the word of the last half and the round's own number added. */
  ghost predicate Trail(f: RoundFunction, bits: nat, value: nat, x: seq<nat>, rounds: nat) {
    var a, b := Pow2(bits - bits / 2), Pow2(bits / 2);
    && |x| == rounds + 2 && x[0] == value / b && x[1] == value % b
    && forall k: nat | k < rounds :: x[k + 2] == Added(f, k, x[k], x[k + 1], if k % 2 == 0 then a else b)
  }

  /** The cipher written out: eight rounds and no more, numbered 0 to 7, the upper half first, which is the wider one
      when the widths differ; the last two halves are put together again. */
  lemma EightRounds(f: RoundFunction, bits: nat, value: nat) returns (x: seq<nat>)
    ensures Trail(f, bits, value, x, 8)
    ensures Cipher(f, bits, value) == x[8] * Pow2(bits / 2) + x[9]
  {
    x := TrailTo(f, bits, value, 8);
  }

  /** The halves before round `k`. */
  function HalvesAt(bits: nat, x: seq<nat>, k: nat): Halves
    requires k + 1 < |x|
  {
    if k % 2 == 0 then Halves(x[k], x[k + 1], bits - bits / 2, bits / 2)
    else Halves(x[k], x[k + 1], bits / 2, bits - bits / 2)
  }

  lemma {:induction false} TrailTo(f: RoundFunction, bits: nat, value: nat, k: nat) returns (x: seq<nat>)
    requires k <= 8
    ensures Trail(f, bits, value, x, k)
    ensures Forwards(CipherStep(f), k, HalvesAt(bits, x, k)) == Forwards(CipherStep(f), 0, Split(bits, value))
  {
    if k == 0 {
      x := [value / Pow2(bits / 2), value % Pow2(bits / 2)];
    } else {
      var y := TrailTo(f, bits, value, k - 1);
      x := OneMore(f, bits, value, y, k - 1);
    }
  }

  lemma OneMore(f: RoundFunction, bits: nat, value: nat, x: seq<nat>, k: nat) returns (y: seq<nat>)
    requires k < 8 && Trail(f, bits, value, x, k)
    ensures Trail(f, bits, value, y, k + 1)
    ensures Forwards(CipherStep(f), k, HalvesAt(bits, x, k)) == Forwards(CipherStep(f), k + 1, HalvesAt(bits, y, k + 1))
  {
    var s := HalvesAt(bits, x, k);
    y := x + [Added(f, k, s.high, s.low, Pow2(s.highWidth))];
    assert HalvesAt(bits, y, k + 1) == CipherRound(f, k, s);
  }

  /** Only rounds 0 to 7 act: round functions that agree there give the same cipher. */
  lemma NoOtherRound(f: RoundFunction, g: RoundFunction, bits: nat, value: nat)
    requires forall low: nat, round: nat | round < 8 :: f(low, round) == g(low, round)
    ensures Cipher(f, bits, value) == Cipher(g, bits, value)
  {
    SameRounds(f, g, 0, Split(bits, value));
  }

  lemma {:induction false} SameRounds(f: RoundFunction, g: RoundFunction, round: nat, s: Halves)
    requires round <= 8 && forall low: nat, r: nat | r < 8 :: f(low, r) == g(low, r)
    ensures Forwards(CipherStep(f), round, s) == Forwards(CipherStep(g), round, s)
    decreases 8 - round
  {
    if round < 8 {
      assert CipherRound(f, round, s) == CipherRound(g, round, s);
      SameRounds(f, g, round + 1, CipherRound(f, round, s));
    }
  }

  /** One in round `k`, nothing in any other. */
  function OnlyIn(k: nat): RoundFunction {
    (low: nat, round: nat) => if round == k then 1 else 0
  }

  /** Each of the rounds 0 to 7 acts. */
  lemma EveryRoundActs(k: nat, bits: nat)
    requires k < 8 && bits >= 2
    ensures Cipher(OnlyIn(k), bits, 0) != 0
  {
    var x := EightRounds(OnlyIn(k), bits, 0);
    OneOfTwo(k, bits, x, 8);
    OneOfTwo(k, bits, x, 9);
    MulPositive(1, Pow2(bits / 2));
  }

  /** Before round `k` nothing has been added; from it on every second half is one. */
  function OneOrNothing(k: nat, j: nat): nat {
    if j >= k + 2 && (j - k) % 2 == 0 then 1 else 0
  }

  lemma {:induction false} OneOfTwo(k: nat, bits: nat, x: seq<nat>, j: nat)
    requires k < 8 && bits >= 2 && Trail(OnlyIn(k), bits, 0, x, 8) && j < 10
    ensures x[j] == OneOrNothing(k, j)
    decreases j
  {
    if j < 2 {
      NothingYet(k, bits, x);
    } else {
      OneOfTwo(k, bits, x, j - 2);
      NextHalf(k, bits, x, j - 2);
    }
  }

  lemma NothingYet(k: nat, bits: nat, x: seq<nat>)
    requires bits >= 2 && Trail(OnlyIn(k), bits, 0, x, 8)
    ensures x[0] == 0 && x[1] == 0
  {
    var b := Pow2(bits / 2);
    assert b >= 2;
    SmallMod(b);
  }

  lemma NextHalf(k: nat, bits: nat, x: seq<nat>, round: nat)
    requires bits >= 2 && Trail(OnlyIn(k), bits, 0, x, 8) && round < 8 && x[round] == OneOrNothing(k, round)
    ensures x[round + 2] == OneOrNothing(k, round + 2)
  {
    var a, b := Pow2(bits - bits / 2), Pow2(bits / 2);
    assert a >= 2 && b >= 2;
    OneAdded(k, round, x[round], x[round + 1], if round % 2 == 0 then a else b);
  }

  lemma OneAdded(k: nat, round: nat, half: nat, other: nat, m: nat)
    requires m >= 2 && half == OneOrNothing(k, round)
    ensures Added(OnlyIn(k), round, half, other, m) == OneOrNothing(k, round + 2)
  {
    SmallMod(m);
    assert OnlyIn(k)(other, round) == if round == k then 1 else 0;
  }

  lemma SmallMod(m: nat)
    requires m >= 2
    ensures 0 % m == 0 && 1 % m == 1 && 0 / m == 0
  {
    DivModUnique(0, m, 0, 0);
    DivModUnique(1, m, 0, 1);
  }

  // ----- the inverse cipher -----

  function UncipherRound(f: RoundFunction, round: nat, s: Halves): Halves {
    var m := Pow2(s.lowWidth);
    Halves((s.low + (m - f(s.high, round) % m)) % m, s.high, s.lowWidth, s.highWidth)
  }

  function UncipherStep(f: RoundFunction): (nat, Halves) -> Halves {
    (round: nat, s: Halves) => UncipherRound(f, round, s)
  }

  function Uncipher(f: RoundFunction, bits: nat, value: nat): nat {
    Join(bits, Backwards(UncipherStep(f), 0, Split(bits, value)))
  }

  lemma Residue(a: nat, m: nat) returns (r: nat)
    requires m > 0
    ensures r == a % m && r < m
  {
    r := a % m;
  }

  lemma AddSubtract(h: nat, g: nat, m: nat) returns (sum: nat)
    requires h < m && g < m
    ensures sum == (h + g) % m && sum < m
    ensures (sum + (m - g)) % m == h
  {
    if h + g >= m {
      sum := h + g - m;
      DivModUnique(h + g, m, 1, sum);
      DivModUnique(sum + (m - g), m, 0, h);
    } else {
      sum := h + g;
      DivModUnique(h + g, m, 0, sum);
      DivModUnique(sum + (m - g), m, 1, h);
    }
  }

  lemma SubtractAdd(h: nat, g: nat, m: nat) returns (difference: nat)
    requires h < m && g < m
    ensures difference == (h + (m - g)) % m && difference < m
    ensures (difference + g) % m == h
  {
    if h >= g {
      difference := h - g;
      DivModUnique(h + (m - g), m, 1, difference);
      DivModUnique(difference + g, m, 0, h);
    } else {
      difference := h + (m - g);
      DivModUnique(h + (m - g), m, 0, difference);
      DivModUnique(difference + g, m, 1, h);
    }
  }

  lemma RoundInvertible(f: RoundFunction, round: nat, s: Halves)
    requires s.Fits()
    ensures CipherRound(f, round, s).Fits() && UncipherRound(f, round, CipherRound(f, round, s)) == s
  {
    var m := Pow2(s.highWidth);
    var g := Residue(f(s.low, round), m);
    var sum := AddSubtract(s.high, g, m);
    var t := CipherRound(f, round, s);
    assert t == Halves(s.low, sum, s.lowWidth, s.highWidth);
    assert UncipherRound(f, round, t) == Halves((sum + (m - g)) % m, t.high, t.lowWidth, t.highWidth);
  }

  lemma RoundOnto(f: RoundFunction, round: nat, s: Halves)
    requires s.Fits()
    ensures UncipherRound(f, round, s).Fits() && CipherRound(f, round, UncipherRound(f, round, s)) == s
  {
    var m := Pow2(s.lowWidth);
    var g := Residue(f(s.high, round), m);
    var difference := SubtractAdd(s.low, g, m);
    var t := UncipherRound(f, round, s);
    assert t == Halves(difference, s.high, s.lowWidth, s.highWidth);
    assert CipherRound(f, round, t) == Halves(t.low, (difference + g) % m, t.lowWidth, t.highWidth);
  }

  /** The halves at the start of a round: in range, with the two widths exchanged on odd rounds. */
  predicate Shaped(bits: nat, round: nat, s: Halves) {
    && s.Fits()
    && s.highWidth + s.lowWidth == bits
    && s.lowWidth == (if round % 2 == 0 then bits / 2 else bits - bits / 2)
  }

  /** Running a round forwards keeps the shape and `back` undoes it. */
  ghost predicate StepsUndone(step: (nat, Halves) -> Halves, back: (nat, Halves) -> Halves, bits: nat) {
    forall r: nat, s: Halves {:trigger step(r, s)} | Shaped(bits, r, s) ::
      Shaped(bits, r + 1, step(r, s)) && back(r, step(r, s)) == s
  }

  /** Running a round backwards keeps the shape and `step` redoes it. */
  ghost predicate StepsRedone(step: (nat, Halves) -> Halves, back: (nat, Halves) -> Halves, bits: nat) {
    forall r: nat, s: Halves {:trigger back(r, s)} | Shaped(bits, r + 1, s) ::
      Shaped(bits, r, back(r, s)) && step(r, back(r, s)) == s
  }

  lemma StepInvertible(f: RoundFunction, bits: nat, r: nat, s: Halves)
    requires Shaped(bits, r, s)
    ensures Shaped(bits, r + 1, CipherStep(f)(r, s)) && UncipherStep(f)(r, CipherStep(f)(r, s)) == s
  {
    RoundInvertible(f, r, s);
  }

  lemma StepOnto(f: RoundFunction, bits: nat, r: nat, s: Halves)
    requires Shaped(bits, r + 1, s)
    ensures Shaped(bits, r, UncipherStep(f)(r, s)) && CipherStep(f)(r, UncipherStep(f)(r, s)) == s
  {
    RoundOnto(f, r, s);
  }

  lemma CipherStepsUndone(f: RoundFunction, bits: nat)
    ensures StepsUndone(CipherStep(f), UncipherStep(f), bits)
  {
    var step, back := CipherStep(f), UncipherStep(f);
    forall r: nat, s: Halves | Shaped(bits, r, s)
      ensures Shaped(bits, r + 1, step(r, s)) && back(r, step(r, s)) == s
    {
      StepInvertible(f, bits, r, s);
    }
  }

  lemma CipherStepsRedone(f: RoundFunction, bits: nat)
    ensures StepsRedone(CipherStep(f), UncipherStep(f), bits)
  {
    var step, back := CipherStep(f), UncipherStep(f);
    forall r: nat, s: Halves | Shaped(bits, r + 1, s)
      ensures Shaped(bits, r, back(r, s)) && step(r, back(r, s)) == s
    {
      StepOnto(f, bits, r, s);
    }
  }

  lemma {:induction false} ForwardsInvertible(step: (nat, Halves) -> Halves, back: (nat, Halves) -> Halves, bits: nat,
                                              round: nat, s: Halves)
    requires StepsUndone(step, back, bits) && round <= CIPHER_ROUNDS && Shaped(bits, round, s)
    ensures Shaped(bits, CIPHER_ROUNDS, Forwards(step, round, s))
    ensures Backwards(back, round, Forwards(step, round, s)) == s
    decreases CIPHER_ROUNDS - round
  {
    if round < CIPHER_ROUNDS {
      ForwardsInvertible(step, back, bits, round + 1, step(round, s));
    }
  }

  lemma {:induction false} BackwardsInvertible(step: (nat, Halves) -> Halves, back: (nat, Halves) -> Halves,
                                               bits: nat, round: nat, s: Halves)
    requires StepsRedone(step, back, bits) && round <= CIPHER_ROUNDS && Shaped(bits, CIPHER_ROUNDS, s)
    ensures Shaped(bits, round, Backwards(back, round, s))
    ensures Forwards(step, round, Backwards(back, round, s)) == s
    decreases CIPHER_ROUNDS - round
  {
    if round < CIPHER_ROUNDS {
      BackwardsInvertible(step, back, bits, round + 1, s);
    }
  }

  lemma SplitFits(bits: nat, value: nat)
    requires value < Pow2(bits)
    ensures Shaped(bits, 0, Split(bits, value))
    ensures Join(bits, Split(bits, value)) == value
  {
    var w := bits / 2;
    var q, r := DivMod(value, Pow2(w));
    Pow2Add(bits - w, w);
    if q >= Pow2(bits - w) {
      MulMonotone(Pow2(bits - w), q, Pow2(w));
    }
  }

  lemma JoinFits(bits: nat, s: Halves)
    requires Shaped(bits, 0, s)
    ensures Join(bits, s) < Pow2(bits)
    ensures Split(bits, Join(bits, s)) == s
  {
    var w := bits / 2;
    Pow2Add(bits - w, w);
    MulGap(s.high, Pow2(bits - w), Pow2(w));
    DivModUnique(Join(bits, s), Pow2(w), s.high, s.low);
  }

  /** For every round function and width the cipher is a bijection of [0, 2^bits). */
  lemma CipherBijective(f: RoundFunction, bits: nat, value: nat)
    requires value < Pow2(bits)
    ensures Cipher(f, bits, value) < Pow2(bits) && Uncipher(f, bits, Cipher(f, bits, value)) == value
    ensures Uncipher(f, bits, value) < Pow2(bits) && Cipher(f, bits, Uncipher(f, bits, value)) == value
  {
    SplitFits(bits, value);
    CipherStepsUndone(f, bits);
    CipherStepsRedone(f, bits);
    var s := Split(bits, value);
    ForwardsInvertible(CipherStep(f), UncipherStep(f), bits, 0, s);
    JoinFits(bits, Forwards(CipherStep(f), 0, s));
    BackwardsInvertible(CipherStep(f), UncipherStep(f), bits, 0, s);
    JoinFits(bits, Backwards(UncipherStep(f), 0, s));
  }

  // ----- cycle walking -----

  function Forward(f: RoundFunction, bits: nat): nat -> nat {
    (x: nat) => Cipher(f, bits, x)
  }

  function Backward(f: RoundFunction, bits: nat): nat -> nat {
    (x: nat) => Uncipher(f, bits, x)
  }

  function CipherBits(domain: nat): nat
    requires domain > 0
  {
    BitLength(domain - 1)
  }

  lemma CipherInverses(f: RoundFunction, bits: nat)
    ensures Inverses(Forward(f, bits), Backward(f, bits), Pow2(bits))
    ensures Inverses(Backward(f, bits), Forward(f, bits), Pow2(bits))
  {
    forall x: nat | x < Pow2(bits)
      ensures Forward(f, bits)(x) < Pow2(bits) && Backward(f, bits)(Forward(f, bits)(x)) == x
      ensures Backward(f, bits)(x) < Pow2(bits) && Forward(f, bits)(Backward(f, bits)(x)) == x
    {
      CipherBijective(f, bits, x);
    }
  }

  lemma CipherCovers(domain: nat)
    requires domain > 0
    ensures domain <= Pow2(CipherBits(domain))
    ensures domain >= 2 ==> Pow2(CipherBits(domain)) - domain + 1 < domain
  {
    BitLengthBounds(domain - 1);
  }

  /** The dataset index that the permutation with round function `f` assigns to a position. */
  ghost function FeistelIndex(f: RoundFunction, domain: nat, position: nat): (r: nat)
    requires position < domain
    ensures r < domain
  {
    CipherInverses(f, CipherBits(domain));
    CipherCovers(domain);
    Walk(Forward(f, CipherBits(domain)), Backward(f, CipherBits(domain)), Pow2(CipherBits(domain)), domain, position)
  }

  ghost function FeistelPosition(f: RoundFunction, domain: nat, index: nat): (r: nat)
    requires index < domain
    ensures r < domain
  {
    CipherInverses(f, CipherBits(domain));
    CipherCovers(domain);
    Walk(Backward(f, CipherBits(domain)), Forward(f, CipherBits(domain)), Pow2(CipherBits(domain)), domain, index)
  }

  /** The cycle-walked cipher is a bijection of [0, domain), for every round function and domain. */
  lemma FeistelBijective(f: RoundFunction, domain: nat, x: nat)
    requires x < domain
    ensures FeistelPosition(f, domain, FeistelIndex(f, domain, x)) == x
    ensures FeistelIndex(f, domain, FeistelPosition(f, domain, x)) == x
  {
    var bits := CipherBits(domain);
    CipherInverses(f, bits);
    CipherCovers(domain);
    WalkInvertible(Forward(f, bits), Backward(f, bits), Pow2(bits), domain, x);
    WalkInvertible(Backward(f, bits), Forward(f, bits), Pow2(bits), domain, x);
  }

  /** From any position the walk re-enters the domain within 2^bits - domain + 1 cipher calls, which
      is fewer calls than the domain has positions. */
  lemma FeistelWalkTerminates(f: RoundFunction, domain: nat, position: nat) returns (calls: nat)
    requires position < domain && domain >= 2
    ensures ReturnsAt(Forward(f, CipherBits(domain)), domain, calls, position)
    ensures FeistelIndex(f, domain, position) == Iterate(Forward(f, CipherBits(domain)), calls, position)
    ensures calls <= Pow2(CipherBits(domain)) - domain + 1 < domain
  {
    var bits := CipherBits(domain);
    CipherInverses(f, bits);
    CipherCovers(domain);
    calls := ReturnTime(Forward(f, bits), Backward(f, bits), Pow2(bits), domain, 0, position);
  }

  // ----- the engine code -----

  function LowMask(width: nat): u32
    requires 0 < width <= 32
  {
    MaskFits(width);
    if width == 32 then TWO_32 - 1 else Pow2(width) - 1
  }

  lemma MaskFits(width: nat)
    requires width <= 32
    ensures Pow2(width) <= TWO_32
  {
    Pow2Literals();
    Pow2Monotone(width, 32);
  }

  lemma MaskIsMod(a: nat, width: nat)
    requires 0 < width <= 32
    ensures And(a, LowMask(width)) == a % Pow2(width)
  {
    Pow2Literals();
    AndMask(a, width);
    ShiftIsDiv(a, width);
  }

  /** Wrapping to 32 bits before masking loses nothing. */
  lemma WrapMask(a: nat, width: nat)
    requires 0 < width <= 32
    ensures And(a % TWO_32, LowMask(width)) == a % Pow2(width)
  {
    Pow2Literals();
    WrapThenMask(a, width, 32);
    MaskIsMod(a % TWO_32, width);
  }

  /** The keyed round function of the epoch permutation. */
  function KeyedRound(key: Key): RoundFunction {
    (low: nat, round: nat) =>
      if low < TWO_32 && round < TWO_32 then Philox4x32(Block(low, round, PERM_ROUND_TAG, 0), key).w0 else 0
  }

  /** The word of a round is the first of the block that ten rounds make of the half, the round's number, the
      tag 3 and zero. */
  lemma RoundWord(key: Key, low: u32, round: u32, b: Block)
    requires UnRounds(b, key, 10) == Block(low, round, 3, 0)
    ensures KeyedRound(key)(low, round) == b.w0
  {
    RoundsOnto(b, key, 10);
  }

  /** Extract the two halves of a value as 32-bit words. */
  method SplitWord(value: u64, bits: nat) returns (high: u32, low: u32)
    requires 2 <= bits <= 64 && value < Pow2(bits)
    ensures Halves(high, low, bits - bits / 2, bits / 2) == Split(bits, value)
    ensures Shaped(bits, 0, Split(bits, value))
  {
    SplitFits(bits, value);
    MaskFits(bits / 2);
    MaskFits(bits - bits / 2);
    WrapMask(value, bits / 2);
    ShiftIsDiv(value, bits / 2);
    high := Shr(value, bits / 2) % TWO_32;
    low := And(value % TWO_32, LowMask(bits / 2));
  }

  /** Add the masked round word to a half, wrapping at 32 bits, and mask the sum to the half's width. */
  method MixHalf(high: u32, word: u32, width: nat) returns (r: u32)
    requires 0 < width <= 32
    ensures r == (high + word % Pow2(width)) % Pow2(width)
  {
    MaskFits(width);
    MaskIsMod(word, width);
    var mixed := And(word, LowMask(width));
    WrapMask(high + mixed, width);
    r := And((high + mixed) % TWO_32, LowMask(width));
  }

  lemma JoinIsOr(high: nat, low: nat, w: nat)
    requires low < Pow2(w) && high * Pow2(w) + low < TWO_64
    ensures Or(Shl(high, w) % TWO_64, low) == high * Pow2(w) + low
  {
    ShlIsMul(high, w);
    DivModUnique(high * Pow2(w), TWO_64, 0, high * Pow2(w));
    OrDisjoint(high, low, w);
  }

  method JoinWord(high: u32, low: u32, bits: nat) returns (r: u64)
    requires bits <= 64 && low < Pow2(bits / 2) && high * Pow2(bits / 2) + low < Pow2(bits)
    ensures r == high * Pow2(bits / 2) + low
  {
    Below64(bits);
    JoinIsOr(high, low, bits / 2);
    r := Or(Shl(high, bits / 2) % TWO_64, low);
  }

  lemma Below64(bits: nat)
    requires bits <= 64
    ensures Pow2(bits) <= TWO_64
  {
    Pow2Literals();
    Pow2Monotone(bits, 64);
  }

  lemma CipherResult(f: RoundFunction, bits: nat, value: nat)
    requires value < Pow2(bits)
    ensures var s := Forwards(CipherStep(f), 0, Split(bits, value));
            Shaped(bits, 0, s) && Cipher(f, bits, value) == Join(bits, s) < Pow2(bits)
  {
    SplitFits(bits, value);
    CipherStepsUndone(f, bits);
    ForwardsInvertible(CipherStep(f), UncipherStep(f), bits, 0, Split(bits, value));
    CipherBijective(f, bits, value);
  }

  lemma KeyedStep(key: Key, round: nat, s: Halves, word: nat)
    requires round < TWO_32 && s.low < TWO_32
    requires word == Philox4x32(Block(s.low, round, PERM_ROUND_TAG, 0), key).w0
    ensures CipherStep(KeyedRound(key))(round, s)
         == Halves(s.low, (s.high + word % Pow2(s.highWidth)) % Pow2(s.highWidth), s.lowWidth, s.highWidth)
  {
  }

  /** One engine round: the keyed word, the wrapping addition and the swap of the halves. */
  method EngineRound(key: Key, round: u32, high: u32, low: u32, highWidth: nat, lowWidth: nat)
    returns (nextHigh: u32, nextLow: u32)
    requires 0 < highWidth <= 32
    ensures Halves(nextHigh, nextLow, lowWidth, highWidth)
         == CipherStep(KeyedRound(key))(round, Halves(high, low, highWidth, lowWidth))
  {
    var word := Philox4x32_10(Block(low, round, PERM_ROUND_TAG, 0), key);
    nextHigh := low;
    nextLow := MixHalf(high, word.w0, highWidth);
    KeyedStep(key, round, Halves(high, low, highWidth, lowWidth), word.w0);
  }

  lemma RoundStays(f: RoundFunction, bits: nat, round: nat, s: Halves)
    requires round < CIPHER_ROUNDS && Shaped(bits, round, s)
    ensures Shaped(bits, round + 1, CipherStep(f)(round, s))
    ensures Forwards(CipherStep(f), round, s) == Forwards(CipherStep(f), round + 1, CipherStep(f)(round, s))
  {
    StepInvertible(f, bits, round, s);
  }

  /** After `round` rounds from `s0`, at `s`, with the rest still to do. */
  ghost predicate AtRound(f: RoundFunction, bits: nat, round: nat, s: Halves, s0: Halves) {
    && round <= CIPHER_ROUNDS && Shaped(bits, round, s)
    && Forwards(CipherStep(f), round, s) == Forwards(CipherStep(f), 0, s0)
  }

  lemma NoRoundYet(f: RoundFunction, bits: nat, s0: Halves)
    requires Shaped(bits, 0, s0)
    ensures AtRound(f, bits, 0, s0, s0)
  {
  }

  lemma NextRound(f: RoundFunction, bits: nat, round: nat, s: Halves, s0: Halves)
    requires 2 <= bits <= 64 && round < CIPHER_ROUNDS && AtRound(f, bits, round, s, s0)
    ensures 0 < s.highWidth <= 32 && AtRound(f, bits, round + 1, CipherStep(f)(round, s), s0)
  {
    RoundStays(f, bits, round, s);
  }

  /** One engine round of the eight. */
  method RoundOn(key: Key, round: u32, high: u32, low: u32, highWidth: nat, lowWidth: nat, ghost bits: nat,
                 ghost s0: Halves)
    returns (nextHigh: u32, nextLow: u32)
    requires 2 <= bits <= 64 && round < CIPHER_ROUNDS
    requires AtRound(KeyedRound(key), bits, round, Halves(high, low, highWidth, lowWidth), s0)
    ensures AtRound(KeyedRound(key), bits, round + 1, Halves(nextHigh, nextLow, lowWidth, highWidth), s0)
  {
    NextRound(KeyedRound(key), bits, round, Halves(high, low, highWidth, lowWidth), s0);
    nextHigh, nextLow := EngineRound(key, round, high, low, highWidth, lowWidth);
  }

  lemma RoundsDone(f: RoundFunction, bits: nat, s: Halves, s0: Halves)
    requires AtRound(f, bits, CIPHER_ROUNDS, s, s0) && Shaped(bits, 0, s0)
    ensures Forwards(CipherStep(f), 0, s0) == s && s.highWidth == s0.highWidth && s.lowWidth == s0.lowWidth
  {
  }

  /** The eight rounds, swapping the half widths after each. */
  method RoundLoop(key: Key, high0: u32, low0: u32, bits: nat, ghost s0: Halves)
    returns (high: u32, low: u32, highWidth: nat, lowWidth: nat)
    requires 2 <= bits <= 64 && Shaped(bits, 0, s0) && s0 == Halves(high0, low0, bits - bits / 2, bits / 2)
    ensures AtRound(KeyedRound(key), bits, CIPHER_ROUNDS, Halves(high, low, highWidth, lowWidth), s0)
  {
    highWidth, lowWidth := bits - bits / 2, bits / 2;
    high, low := high0, low0;
    var round := 0;
    NoRoundYet(KeyedRound(key), bits, s0);
    while round < CIPHER_ROUNDS
      invariant 0 <= round <= CIPHER_ROUNDS
      invariant AtRound(KeyedRound(key), bits, round, Halves(high, low, highWidth, lowWidth), s0)
    {
      high, low := RoundOn(key, round, high, low, highWidth, lowWidth, bits, s0);
      highWidth, lowWidth := lowWidth, highWidth;
      round := round + 1;
    }
  }

  /** What the loop leaves are the reference's halves, at their first widths again. */
  method EngineRounds(key: Key, high0: u32, low0: u32, bits: nat, ghost s0: Halves) returns (high: u32, low: u32)
    requires 2 <= bits <= 64 && Shaped(bits, 0, s0) && s0 == Halves(high0, low0, bits - bits / 2, bits / 2)
    ensures Halves(high, low, s0.highWidth, s0.lowWidth) == Forwards(CipherStep(KeyedRound(key)), 0, s0)
  {
    var highWidth, lowWidth;
    high, low, highWidth, lowWidth := RoundLoop(key, high0, low0, bits, s0);
    RoundsDone(KeyedRound(key), bits, Halves(high, low, highWidth, lowWidth), s0);
  }

  method FeistelCipher(value: u64, bits: nat, key: Key) returns (r: u64)
    requires 2 <= bits <= 64 && value < Pow2(bits)
    ensures r == Cipher(KeyedRound(key), bits, value) < Pow2(bits)
  {
    var high, low := SplitWord(value, bits);
    high, low := EngineRounds(key, high, low, bits, Split(bits, value));
    CipherResult(KeyedRound(key), bits, value);
    r := JoinWord(high, low, bits);
  }

  /** After `calls` cipher calls from `position` the walk is at `candidate`, having missed the domain each time. */
  ghost predicate Walking(f: RoundFunction, domain: nat, position: nat, calls: nat, candidate: nat)
    requires domain > 0
  {
    && Outside(Forward(f, CipherBits(domain)), domain, calls, position)
    && candidate == Iterate(Forward(f, CipherBits(domain)), calls, position)
  }

  /** A walk is short of its bound, and one more cipher call either continues or ends it. */
  lemma FeistelWalkStep(f: RoundFunction, domain: nat, position: nat, calls: nat, candidate: nat)
    requires domain > 0 && position < domain && Walking(f, domain, position, calls, candidate)
    ensures calls <= Pow2(CipherBits(domain)) - domain && candidate < Pow2(CipherBits(domain))
    ensures var next := Cipher(f, CipherBits(domain), candidate);
            && (next >= domain ==> Walking(f, domain, position, calls + 1, next))
            && (next < domain ==> next == FeistelIndex(f, domain, position))
  {
    var bits := CipherBits(domain);
    CipherInverses(f, bits);
    CipherCovers(domain);
    WalkStep(Forward(f, bits), Backward(f, bits), Pow2(bits), domain, calls, position);
  }

  /** Re-encrypt until the candidate lands in the domain. */
  method WalkIntoDomain(key: Key, domain: u64, position: u64) returns (candidate: u64)
    requires FEISTEL_THRESHOLD <= domain && position < domain
    ensures candidate == FeistelIndex(KeyedRound(key), domain, position)
  {
    var bits := CipherBits(domain);
    WidthRange(domain);
    Below64(bits);
    CipherCovers(domain);
    candidate := position;
    ghost var calls := 0;
    while true
      invariant Walking(KeyedRound(key), domain, position, calls, candidate)
      decreases Pow2(bits) - domain - calls
    {
      FeistelWalkStep(KeyedRound(key), domain, position, calls, candidate);
      candidate := FeistelCipher(candidate, bits, key);
      calls := calls + 1;
      if candidate < domain {
        return;
      }
    }
  }

  /** One position of the large-domain permutation; declines small domains and out-of-range positions. */
  method FeistelPermute(rootSeed: u64, epoch: u64, domain: u64, position: u64) returns (r: Option<u64>)
    ensures r.None? <==> domain < 131072 || position >= domain
    ensures r.Some? ==> r.value == FeistelIndex(KeyedRound(PermutationKey(rootSeed, epoch)), domain, position)
  {
    if domain < FEISTEL_THRESHOLD || position >= domain {
      return None;
    }
    var candidate := WalkIntoDomain(PermutationKey(rootSeed, epoch), domain, position);
    r := Some(candidate);
  }

  lemma WidthRange(domain: nat)
    requires FEISTEL_THRESHOLD <= domain < TWO_64
    ensures 17 <= CipherBits(domain) <= 64
  {
    Pow2Literals();
    BitLengthBelow(domain - 1, 64);
    assert Pow2(17) == 2 * Pow2(16);
    BitLengthAbove(domain - 1, 16);
  }
}
