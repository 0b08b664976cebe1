/** Keys of an epoch and blocks of a sample: the SplitMix64 finalizer and what is derived with it. */
module Streams {
  import opened Words
  import opened Philox

  const SPLIT_M0: u64 := 0xBF58_476D_1CE4_E5B9
  const SPLIT_M1: u64 := 0x94D0_49BB_1331_11EB
  const SPLIT_M0_INVERSE: u64 := 0x96DE_1B17_3F11_9089
  const SPLIT_M1_INVERSE: u64 := 0x3196_42B2_D24D_8EC3
  const EPOCH_TAG: u64 := 0x9E37
  const PERM_TAG: u64 := 2

  lemma Xor64Fits(a: u64, b: u64)
    ensures Xor(a, b) < TWO_64
  {
    Pow2Literals();
    XorBelow(a, b, 64);
  }

  function Xor64(a: u64, b: u64): u64 {
    Xor64Fits(a, b);
    Xor(a, b)
  }

  /** `value ^= value >> s`. */
  function XorShift(v: u64, s: nat): u64 {
    ShrBelow(v, s);
    Xor64(v, Shr(v, s))
  }

  function SplitMix64(value: u64): u64 {
    var a := XorShift(value, 30);
    var b := (a * SPLIT_M0) % TWO_64;
    var c := XorShift(b, 27);
    var d := (c * SPLIT_M1) % TWO_64;
    XorShift(d, 31)
  }

  function WrappingShl64(v: u64, k: nat): u64 {
    Shl(v, k % 64) % TWO_64
  }

  lemma EpochTagFits(epoch: u64)
    ensures Or(WrappingShl64(epoch, 32), EPOCH_TAG) == (epoch % TWO_32) * TWO_32 + EPOCH_TAG
    ensures Or(WrappingShl64(epoch, 32), EPOCH_TAG) < TWO_64
  {
    Pow2Literals();
    var q, r := DivMod(epoch, TWO_32);
    ShlIsMul(epoch, 32);
    ShlIsMul(r, 32);
    DivModUnique(epoch * TWO_32, TWO_64, q, r * TWO_32);
    OrDisjoint(r, EPOCH_TAG, 32);
  }

  function Key64(rootSeed: u64, epoch: u64): u64 {
    EpochTagFits(epoch);
    Xor64(SplitMix64(rootSeed), SplitMix64(Or(WrappingShl64(epoch, 32), EPOCH_TAG)))
  }

  function SplitWords(v: u64): Key {
    Key(v % TWO_32, v / TWO_32)
  }

  function BlockFromKey(key: u64, coord: u64, drawIndex: u32, streamId: u32): Block {
    Philox4x32(Block(coord % TWO_32, drawIndex, streamId, coord / TWO_32), SplitWords(key))
  }

  function SampleBlock(rootSeed: u64, epoch: u64, coord: u64, drawIndex: u32, streamId: u32): Block {
    BlockFromKey(Key64(rootSeed, epoch), coord, drawIndex, streamId)
  }

  /** The key of the epoch permutation: a re-finalized epoch key tagged for the permutation stream. */
  function PermutationKey(rootSeed: u64, epoch: u64): Key {
    SplitWords(SplitMix64(Xor64(Key64(rootSeed, epoch), 2 * PERM_TAG + 1)))
  }

  // ----- inverses -----

  /** Undo `v ^ (v >> s)`: the high bits come out unchanged and feed the lower ones. */
  function UnXorShift(z: nat, s: nat): nat
    requires s > 0
    decreases z
  {
    if z == 0 then 0 else
      ShrBelow(z, s);
      Xor(z, UnXorShift(Shr(z, s), s))
  }

  lemma {:induction false} UnXorShiftLeft(v: nat, s: nat)
    requires s > 0
    ensures UnXorShift(Xor(v, Shr(v, s)), s) == v
    decreases v
  {
    var z := Xor(v, Shr(v, s));
    if v == 0 {
      LowBitsZero(s);
    } else {
      ShrBelow(v, s);
      XorShr(v, Shr(v, s), s);
      UnXorShiftLeft(Shr(v, s), s);
      assert UnXorShift(Shr(z, s), s) == Shr(v, s);
      XorCancel(v, Shr(v, s));
      XorZero(Shr(v, s));
    }
  }

  lemma {:induction false} UnXorShiftRight(z: nat, s: nat)
    requires s > 0
    ensures Xor(UnXorShift(z, s), Shr(UnXorShift(z, s), s)) == z
    decreases z
  {
    if z == 0 {
      LowBitsZero(s);
    } else {
      ShrBelow(z, s);
      var y := Shr(z, s);
      UnXorShiftRight(y, s);
      var x := UnXorShift(y, s);
      XorShr(z, x, s);
      assert Shr(Xor(z, x), s) == Xor(y, Shr(x, s));
      XorCommutes(x, Shr(x, s));
      XorCancel(Shr(x, s), x);
      // Xor(Shr(x, s), x) == y, hence Xor(y, Shr(x, s)) == x
      XorCancel(x, Shr(x, s));
      XorCancel(z, x);
    }
  }

  lemma {:induction false} UnXorShiftBelow(z: nat, s: nat, k: nat)
    requires s > 0 && z < Pow2(k)
    ensures UnXorShift(z, s) < Pow2(k)
    decreases z
  {
    if z != 0 {
      ShrBelow(z, s);
      UnXorShiftBelow(Shr(z, s), s, k);
      XorBelow(z, UnXorShift(Shr(z, s), s), k);
    }
  }

  function UndoXorShift(z: u64, s: nat): u64
    requires s > 0
  {
    Pow2Literals();
    UnXorShiftBelow(z, s, 64);
    UnXorShift(z, s)
  }

  function UnSplitMix64(z: u64): u64 {
    var d := UndoXorShift(z, 31);
    var c := (d * SPLIT_M1_INVERSE) % TWO_64;
    var b := UndoXorShift(c, 27);
    var a := (b * SPLIT_M0_INVERSE) % TWO_64;
    UndoXorShift(a, 30)
  }

  lemma SplitMultipliersCancel(x: u64)
    ensures (((x * SPLIT_M0) % TWO_64) * SPLIT_M0_INVERSE) % TWO_64 == x
    ensures (((x * SPLIT_M1) % TWO_64) * SPLIT_M1_INVERSE) % TWO_64 == x
    ensures (((x * SPLIT_M0_INVERSE) % TWO_64) * SPLIT_M0) % TWO_64 == x
    ensures (((x * SPLIT_M1_INVERSE) % TWO_64) * SPLIT_M1) % TWO_64 == x
  {
    var q0 := (SPLIT_M0 * SPLIT_M0_INVERSE - 1) / TWO_64;
    var q1 := (SPLIT_M1 * SPLIT_M1_INVERSE - 1) / TWO_64;
    MultiplierCancels(SPLIT_M0, SPLIT_M0_INVERSE, q0, TWO_64, x);
    MultiplierCancels(SPLIT_M1, SPLIT_M1_INVERSE, q1, TWO_64, x);
    MultiplierCancels(SPLIT_M0_INVERSE, SPLIT_M0, q0, TWO_64, x);
    MultiplierCancels(SPLIT_M1_INVERSE, SPLIT_M1, q1, TWO_64, x);
  }

  /** SplitMix64 is a bijection on 64-bit words. */
  lemma SplitMixInvertible(v: u64)
    ensures UnSplitMix64(SplitMix64(v)) == v
    ensures SplitMix64(UnSplitMix64(v)) == v
  {
    SplitMixLeft(v);
    SplitMixRight(v);
  }

  lemma SplitMixLeft(v: u64)
    ensures UnSplitMix64(SplitMix64(v)) == v
  {
    var a := XorShift(v, 30);
    var b := (a * SPLIT_M0) % TWO_64;
    var c := XorShift(b, 27);
    var d := (c * SPLIT_M1) % TWO_64;
    UnXorShiftLeft(v, 30);
    UnXorShiftLeft(b, 27);
    UnXorShiftLeft(d, 31);
    SplitMultipliersCancel(a);
    SplitMultipliersCancel(c);
  }

  lemma SplitMixRight(z: u64)
    ensures SplitMix64(UnSplitMix64(z)) == z
  {
    var d := UndoXorShift(z, 31);
    var c := (d * SPLIT_M1_INVERSE) % TWO_64;
    var b := UndoXorShift(c, 27);
    var a := (b * SPLIT_M0_INVERSE) % TWO_64;
    UnXorShiftRight(z, 31);
    UnXorShiftRight(c, 27);
    UnXorShiftRight(a, 30);
    SplitMultipliersCancel(d);
    SplitMultipliersCancel(b);
  }

  lemma SplitMixInjective(v: u64, w: u64)
    requires SplitMix64(v) == SplitMix64(w)
    ensures v == w
  {
    SplitMixLeft(v);
    SplitMixLeft(w);
  }

  // ----- stream separation -----

  /** Within one epoch, distinct root seeds give distinct keys. */
  lemma KeySeparatesSeeds(s: u64, t: u64, epoch: u64)
    ensures Key64(s, epoch) == Key64(t, epoch) <==> s == t
  {
    EpochTagFits(epoch);
    var tag := SplitMix64(Or(WrappingShl64(epoch, 32), EPOCH_TAG));
    if Key64(s, epoch) == Key64(t, epoch) {
      XorInjective(SplitMix64(s), SplitMix64(t), tag);
      SplitMixInjective(s, t);
    }
  }

  /** Under one root seed, two epochs share a key exactly when they agree modulo 2^32: the shift in
      the epoch tag drops the upper half of the epoch counter. */
  lemma KeySeparatesEpochs(seed: u64, d: u64, e: u64)
    ensures Key64(seed, d) == Key64(seed, e) <==> d % TWO_32 == e % TWO_32
  {
    EpochTagFits(d);
    EpochTagFits(e);
    if Key64(seed, d) == Key64(seed, e) {
      var x, y := Or(WrappingShl64(d, 32), EPOCH_TAG), Or(WrappingShl64(e, 32), EPOCH_TAG);
      XorCommutes(SplitMix64(seed), SplitMix64(x));
      XorCommutes(SplitMix64(seed), SplitMix64(y));
      XorInjective(SplitMix64(x), SplitMix64(y), SplitMix64(seed));
      SplitMixInjective(x, y);
    }
  }

  lemma SplitWordsInjective(v: u64, w: u64)
    requires SplitWords(v) == SplitWords(w)
    ensures v == w
  {
  }

  /** The permutation key separates epochs and root seeds exactly as the epoch key does. */
  lemma PermutationKeySeparates(s: u64, d: u64, t: u64, e: u64)
    ensures PermutationKey(s, d) == PermutationKey(t, e) <==> Key64(s, d) == Key64(t, e)
  {
    if PermutationKey(s, d) == PermutationKey(t, e) {
      var x, y := Xor64(Key64(s, d), 2 * PERM_TAG + 1), Xor64(Key64(t, e), 2 * PERM_TAG + 1);
      SplitWordsInjective(SplitMix64(x), SplitMix64(y));
      SplitMixInjective(x, y);
      XorInjective(Key64(s, d), Key64(t, e), 2 * PERM_TAG + 1);
    }
  }

  /** Under one key, blocks coincide only when coordinate, draw index and stream all coincide. */
  lemma BlocksSeparate(key: u64, c: u64, i: u32, s: u32, c': u64, i': u32, s': u32)
    ensures BlockFromKey(key, c, i, s) == BlockFromKey(key, c', i', s') <==> c == c' && i == i' && s == s'
  {
    if BlockFromKey(key, c, i, s) == BlockFromKey(key, c', i', s') {
      PhiloxInjective(Block(c % TWO_32, i, s, c / TWO_32), Block(c' % TWO_32, i', s', c' / TWO_32),
                      SplitWords(key));
    }
  }

  /** Within one epoch of one root seed, two draws read the same block only if they are the same draw. */
  lemma SampleBlocksSeparate(rootSeed: u64, epoch: u64, c: u64, i: u32, s: u32, c': u64, i': u32, s': u32)
    ensures SampleBlock(rootSeed, epoch, c, i, s) == SampleBlock(rootSeed, epoch, c', i', s')
        <==> c == c' && i == i' && s == s'
  {
    BlocksSeparate(Key64(rootSeed, epoch), c, i, s, c', i', s');
  }

  // ----- what the derivations are -----

  /** The finalizer's three shifts and two multipliers. */
  lemma SplitMixStages(v: u64)
    ensures var b := (Xor64(v, v / 0x4000_0000) * 0xBF58_476D_1CE4_E5B9) % 0x1_0000_0000_0000_0000;
      var d := (Xor64(b, b / 0x800_0000) * 0x94D0_49BB_1331_11EB) % 0x1_0000_0000_0000_0000;
      SplitMix64(v) == Xor64(d, d / 0x8000_0000)
  {
    var b := (XorShift(v, 30) * SPLIT_M0) % TWO_64;
    var d := (XorShift(b, 27) * SPLIT_M1) % TWO_64;
    ShiftPowers();
    ShiftIsDiv(v, 30);
    ShiftIsDiv(b, 27);
    ShiftIsDiv(d, 31);
  }

  lemma ShiftPowers()
    ensures Pow2(30) == 0x4000_0000 && Pow2(27) == 0x800_0000 && Pow2(31) == 0x8000_0000
  {
    Pow2Small();
    Pow2Add(16, 11);
    Pow2Add(16, 14);
    Pow2Add(16, 15);
    assert Pow2(11) == 2048 && Pow2(14) == 0x4000 && Pow2(15) == 0x8000 by {
      assert Pow2(4) == 16 && Pow2(8) == 256 && Pow2(12) == 4096;
    }
  }

  /** An epoch key is the two finalized words laid over each other: taking the seed's out leaves the
      epoch's, whose lower half is the tag. */
  lemma EpochKeyIs(rootSeed: u64, epoch: u64)
    ensures Xor64(Key64(rootSeed, epoch), SplitMix64(rootSeed))
        == SplitMix64((epoch % 0x1_0000_0000) * 0x1_0000_0000 + 0x9E37)
  {
    EpochTagFits(epoch);
    var tag := SplitMix64((epoch % TWO_32) * TWO_32 + 0x9E37);
    XorCommutes(SplitMix64(rootSeed), tag);
    XorCancel(tag, SplitMix64(rootSeed));
  }

  /** The permutation key is the finalized epoch key, tagged with five. */
  lemma PermutationKeyIs(rootSeed: u64, epoch: u64)
    ensures UnSplitMix64(PermutationKey(rootSeed, epoch).k1 * 0x1_0000_0000 + PermutationKey(rootSeed, epoch).k0)
        == Xor64(Key64(rootSeed, epoch), 5)
  {
    SplitMixLeft(Xor64(Key64(rootSeed, epoch), 5));
  }

  /** A sample's block can be read back: undoing ten rounds under the two halves of the epoch key gives
      the halves of the coordinate around the draw index and the stream. */
  lemma SampleBlockRead(rootSeed: u64, epoch: u64, coord: u64, drawIndex: u32, streamId: u32, k: Key, r: Block)
    requires Key64(rootSeed, epoch) == k.k1 * 0x1_0000_0000 + k.k0
    requires r == UnRounds(SampleBlock(rootSeed, epoch, coord, drawIndex, streamId), k, 10)
    ensures r.w3 * 0x1_0000_0000 + r.w0 == coord && r.w1 == drawIndex && r.w2 == streamId
  {
    BlockRead(Key64(rootSeed, epoch), coord, drawIndex, streamId, k);
    var q, low := DivMod(coord, TWO_32);
  }

  lemma BlockRead(key: u64, coord: u64, drawIndex: u32, streamId: u32, k: Key)
    requires key == k.k1 * 0x1_0000_0000 + k.k0
    ensures UnRounds(BlockFromKey(key, coord, drawIndex, streamId), k, 10)
        == Block(coord % 0x1_0000_0000, drawIndex, streamId, coord / 0x1_0000_0000)
  {
    DivModUnique(key, 0x1_0000_0000, k.k1, k.k0);
    RoundsInvertible(Block(coord % TWO_32, drawIndex, streamId, coord / TWO_32), k, 10);
  }
}
