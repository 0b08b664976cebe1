/** The materialized small-domain permutation: backward Fisher-Yates over rejection-sampled words. */
module FisherYates {
  import opened Words
  import opened Outcomes
  import opened Philox
  import opened Streams
  import opened Feistel

  const FISHER_YATES_WORD: u32 := 8

  /** A stream of 32-bit words indexed by the draw ordinal. */
  type WordStream = u32 -> u32

  // ----- shuffling by a sequence of choices -----

  function Identity(n: nat): (p: seq<nat>)
    ensures |p| == n && forall i | 0 <= i < n :: p[i] == i
  {
    seq(n, i => i)
  }

  function Swap(p: seq<nat>, i: nat, j: nat): (q: seq<nat>)
    requires i < |p| && j < |p|
    ensures |q| == |p| && q[i] == p[j] && q[j] == p[i]
    ensures forall k | 0 <= k < |p| && k != i && k != j :: q[k] == p[k]
  {
    p[i := p[j]][j := p[i]]
  }

  /** `choices[u - 1] < u` is the partner drawn when the unshuffled prefix has length `u`. */
  predicate Choices(choices: seq<nat>) {
    forall u | 0 <= u < |choices| :: choices[u] <= u
  }

  /** Shuffle the prefix of length `|choices|`, from its end backwards. */
  function Shuffle(p: seq<nat>, choices: seq<nat>): (q: seq<nat>)
    requires |choices| <= |p| && Choices(choices)
    ensures |q| == |p|
    decreases |choices|
  {
    if |choices| <= 1 then p
    else
      var last := |choices| - 1;
      Shuffle(Swap(p, last, choices[last]), choices[..last])
  }

  /** Every value of [0, n) occurs in `p`, and only once. */
  ghost predicate Permutation(p: seq<nat>, n: nat) {
    && |p| == n
    && (forall i, j | 0 <= i < j < n :: p[i] != p[j])
    && (forall i | 0 <= i < n :: p[i] < n)
    && (forall v: nat | v < n :: v in p)
  }

  lemma SwapPermutation(p: seq<nat>, n: nat, i: nat, j: nat)
    requires Permutation(p, n) && i < n && j < n
    ensures Permutation(Swap(p, i, j), n)
  {
    var q := Swap(p, i, j);
    forall v: nat | v < n ensures v in q {
      assert v in p;
      var k := IndexOf(p, v);
      assert q[if k == i then j else if k == j then i else k] == v;
    }
  }

  lemma {:induction false} ShufflePermutation(p: seq<nat>, choices: seq<nat>)
    requires Permutation(p, |p|) && |choices| <= |p| && Choices(choices)
    ensures Permutation(Shuffle(p, choices), |p|)
    decreases |choices|
  {
    if |choices| > 1 {
      var last := |choices| - 1;
      SwapPermutation(p, |p|, last, choices[last]);
      ShufflePermutation(Swap(p, last, choices[last]), choices[..last]);
    }
  }

  /** Positions beyond the choices are already final. */
  lemma {:induction false} ShuffleKeepsTail(p: seq<nat>, choices: seq<nat>)
    requires |choices| <= |p| && Choices(choices)
    ensures forall k | |choices| <= k < |p| :: Shuffle(p, choices)[k] == p[k]
    decreases |choices|
  {
    if |choices| > 1 {
      var last := |choices| - 1;
      ShuffleKeepsTail(Swap(p, last, choices[last]), choices[..last]);
    }
  }

  // ----- choices and permutations correspond one to one -----

  function IndexOf(p: seq<nat>, v: nat): (i: nat)
    requires v in p
    ensures i < |p| && p[i] == v
  {
    if p[0] == v then 0 else 1 + IndexOf(p[1..], v)
  }

  /** The choices for the prefix of length `upper` that turn `p` into `target`. */
  function Recover(p: seq<nat>, upper: nat, target: seq<nat>): (choices: seq<nat>)
    requires upper <= |p| == |target|
    ensures |choices| == upper
    decreases upper
  {
    if upper == 0 then []
    else if upper == 1 then [0]
    else
      var c := if target[upper - 1] in p then IndexOf(p, target[upper - 1]) else 0;
      Recover(Swap(p, upper - 1, c), upper - 1, target) + [c]
  }

  predicate AgreeFrom(p: seq<nat>, q: seq<nat>, upper: nat) {
    |p| == |q| && forall k | upper <= k < |p| :: p[k] == q[k]
  }

  /** Every permutation is reached, by the choices recovered from it. */
  lemma {:induction false} ShuffleOnto(p: seq<nat>, upper: nat, target: seq<nat>)
    requires Permutation(p, |p|) && Permutation(target, |p|) && AgreeFrom(p, target, upper) && upper <= |p|
    ensures Choices(Recover(p, upper, target))
    ensures Shuffle(p, Recover(p, upper, target)) == target
    decreases upper
  {
    if upper <= 1 {
      if upper == 1 { OneLeft(p, target); }
      assert p == target;
    } else {
      var c := StillInPrefix(p, upper, target);
      var q := Swap(p, upper - 1, c);
      SwapPermutation(p, |p|, upper - 1, c);
      ShuffleOnto(q, upper - 1, target);
      ShuffleStep(p, Recover(q, upper - 1, target), c);
    }
  }

  lemma ShuffleStep(p: seq<nat>, rest: seq<nat>, c: nat)
    requires 0 < |rest| < |p| && c <= |rest| && Choices(rest)
    ensures Choices(rest + [c])
    ensures Shuffle(p, rest + [c]) == Shuffle(Swap(p, |rest|, c), rest)
  {
    var all := rest + [c];
    var last := |all| - 1;
    assert all[last] == c && all[..last] == rest;
    assert Shuffle(p, all) == Shuffle(Swap(p, last, all[last]), all[..last]);
  }

  /** The value that `target` wants at the end of the prefix is still somewhere in the prefix. */
  lemma StillInPrefix(p: seq<nat>, upper: nat, target: seq<nat>) returns (c: nat)
    requires Permutation(p, |p|) && Permutation(target, |p|) && AgreeFrom(p, target, upper) && 0 < upper <= |p|
    ensures target[upper - 1] in p && c == IndexOf(p, target[upper - 1]) && c < upper
  {
    var v := target[upper - 1];
    assert v in p;
    c := IndexOf(p, v);
    assert forall k | upper <= k < |p| :: target[k] != v;
  }

  /** Two permutations that agree above position 0 agree at position 0 too. */
  lemma OneLeft(p: seq<nat>, target: seq<nat>)
    requires |p| > 0 && Permutation(p, |p|) && Permutation(target, |p|) && AgreeFrom(p, target, 1)
    ensures p[0] == target[0]
  {
    var c := StillInPrefix(p, 1, target);
  }

  /** The choices can be read back from the shuffled result. */
  lemma {:induction false} ShuffleInvertible(p: seq<nat>, choices: seq<nat>)
    requires Permutation(p, |p|) && |choices| <= |p| && Choices(choices)
    ensures Recover(p, |choices|, Shuffle(p, choices)) == choices
    decreases |choices|
  {
    var n := |choices|;
    if n > 1 {
      var c := choices[n - 1];
      var q := Swap(p, n - 1, c);
      SwapPermutation(p, |p|, n - 1, c);
      ShuffleKeepsTail(q, choices[..n - 1]);
      ShuffleInvertible(q, choices[..n - 1]);
      assert Shuffle(p, choices)[n - 1] == q[n - 1] == p[c];
      DistinctIndex(p, c, IndexOf(p, p[c]));
      assert choices == choices[..n - 1] + [c];
    }
  }

  lemma DistinctIndex(p: seq<nat>, i: nat, j: nat)
    requires Permutation(p, |p|) && i < |p| && j < |p| && p[i] == p[j]
    ensures i == j
  {
  }

  lemma IdentityPermutation(n: nat)
    ensures Permutation(Identity(n), n)
  {
    var p := Identity(n);
    forall v: nat | v < n ensures v in p { assert p[v] == v; }
  }

  /** Choice sequences of length `n` inject into the permutations of [0, n) ... */
  lemma ChoicesToPermutations(n: nat, choices: seq<nat>)
    requires |choices| == n && Choices(choices)
    ensures Permutation(Shuffle(Identity(n), choices), n)
    ensures Recover(Identity(n), n, Shuffle(Identity(n), choices)) == choices
  {
    IdentityPermutation(n);
    ShufflePermutation(Identity(n), choices);
    ShuffleInvertible(Identity(n), choices);
  }

  /** ... and onto them, so selections and permutations correspond one to one. */
  lemma PermutationsToChoices(n: nat, target: seq<nat>)
    requires Permutation(target, n)
    ensures Choices(Recover(Identity(n), n, target))
    ensures Shuffle(Identity(n), Recover(Identity(n), n, target)) == target
  {
    IdentityPermutation(n);
    ShuffleOnto(Identity(n), n, target);
  }

  // ----- rejection sampling -----

  /** The largest multiple of `upper` that fits a 32-bit word; words at or above it are rejected. */
  function Limit(upper: nat): (limit: nat)
    requires 0 < upper <= TWO_32
    ensures limit <= TWO_32 && TWO_32 < limit + upper
  {
    TWO_32 - TWO_32 % upper
  }

  /** The words below `bound` with residue `r` modulo `m`. */
  ghost function WordsWithResidue(bound: nat, m: nat, r: nat): set<nat>
    requires m > 0
  {
    set w: nat | w < bound && w % m == r
  }

  lemma {:induction false} ResidueCount(blocks: nat, m: nat, r: nat)
    requires r < m
    ensures |WordsWithResidue(blocks * m, m, r)| == blocks
  {
    if blocks == 0 {
      assert WordsWithResidue(0 * m, m, r) == {};
    } else {
      ResidueCount(blocks - 1, m, r);
      var s, t := WordsWithResidue(blocks * m, m, r), WordsWithResidue((blocks - 1) * m, m, r);
      var w := (blocks - 1) * m + r;
      MulAdd(blocks - 1, 1, m);
      DivModUnique(w, m, blocks - 1, r);
      forall x: nat | x in s && x !in t ensures x == w {
        LastBlock(x, blocks, m, r);
      }
      assert s == t + {w};
    }
  }

  lemma LastBlock(x: nat, blocks: nat, m: nat, r: nat)
    requires blocks > 0 && m > 0 && (blocks - 1) * m <= x < blocks * m && x % m == r
    ensures x == (blocks - 1) * m + r
  {
    MulAdd(blocks - 1, 1, m);
    DivModUnique(x, m, blocks - 1, x - (blocks - 1) * m);
  }

  /** Among the accepted words every residue is equally frequent: exactly limit / upper words each. */
  lemma AcceptedResiduesUniform(upper: nat, r: nat)
    requires 0 < upper <= TWO_32 && r < upper
    ensures |WordsWithResidue(Limit(upper), upper, r)| == Limit(upper) / upper
  {
    var q, rest := DivMod(TWO_32, upper);
    DivModUnique(Limit(upper), upper, q, 0);
    ResidueCount(q, upper, r);
  }

  datatype Pick = Pick(selected: nat, next: u32)

  /** Draw from `ordinal` until a word below `limit` is accepted. The ordinal after each draw is checked:
      it never wraps, so the very last ordinal can be read but its draw cannot be completed. */
  function Draw(words: WordStream, limit: nat, upper: nat, ordinal: u32): Option<Pick>
    requires upper > 0
    decreases TWO_32 - ordinal, upper
  {
    if ordinal + 1 == TWO_32 then None
    else if words(ordinal) < limit then Some(Pick(words(ordinal) % upper, ordinal + 1))
    else Draw(words, limit, upper, ordinal + 1)
  }

  /** A draw takes the first accepted word and reduces it; it fails only if no usable word is accepted. */
  lemma {:induction false} DrawIsFirstAccepted(words: WordStream, limit: nat, upper: nat, ordinal: u32)
    requires upper > 0
    ensures match Draw(words, limit, upper, ordinal)
            case Some(pick) =>
              && ordinal < pick.next
              && (forall i: nat | ordinal <= i < pick.next - 1 :: words(i) >= limit)
              && words(pick.next - 1) < limit
              && pick.selected == words(pick.next - 1) % upper
              && pick.selected < upper
            case None => forall i: nat | ordinal <= i < TWO_32 - 1 :: words(i) >= limit
    decreases TWO_32 - ordinal
  {
    if ordinal + 1 < TWO_32 {
      if words(ordinal) < limit {
        var q, r := DivMod(words(ordinal), upper);
      } else {
        DrawIsFirstAccepted(words, limit, upper, ordinal + 1);
      }
    }
  }

  function DrawBelow(words: WordStream, upper: nat, ordinal: u32): (r: Option<Pick>)
    requires 0 < upper <= TWO_32
    ensures r.Some? ==> r.value.selected < upper
  {
    DrawIsFirstAccepted(words, Limit(upper), upper, ordinal);
    Draw(words, Limit(upper), upper, ordinal)
  }

  datatype Shuffled = Shuffled(permutation: seq<nat>, draws: u32)

  /** Shuffle the prefix of length `upper`, drawing one choice per length. */
  function Materialize(words: WordStream, p: seq<nat>, upper: nat, ordinal: u32): (r: Option<Shuffled>)
    requires upper <= |p| <= TWO_32
    decreases upper, p
  {
    if upper <= 1 then Some(Shuffled(p, ordinal))
    else
      match DrawBelow(words, upper, ordinal)
      case None => None
      case Some(pick) => Materialize(words, Swap(p, upper - 1, pick.selected), upper - 1, pick.next)
  }

  /** The drawn choices for prefix lengths up to `upper`, in order of increasing length. */
  function DrawnChoices(words: WordStream, upper: nat, ordinal: u32): (r: Option<seq<nat>>)
    requires upper <= TWO_32
    ensures r.Some? ==> |r.value| == upper && Choices(r.value)
    decreases upper
  {
    if upper == 0 then Some([])
    else if upper == 1 then Some([0])
    else
      match DrawBelow(words, upper, ordinal)
      case None => None
      case Some(pick) =>
        match DrawnChoices(words, upper - 1, pick.next)
        case None => None
        case Some(rest) => Some(rest + [pick.selected])
  }

  /** Materializing is shuffling by the drawn choices, and fails only when a draw does. */
  lemma {:induction false} MaterializeShuffles(words: WordStream, p: seq<nat>, upper: nat, ordinal: u32)
    requires upper <= |p| <= TWO_32
    ensures Materialize(words, p, upper, ordinal).Some? <==> DrawnChoices(words, upper, ordinal).Some?
    ensures DrawnChoices(words, upper, ordinal).Some? ==>
              Materialize(words, p, upper, ordinal).value.permutation
              == Shuffle(p, DrawnChoices(words, upper, ordinal).value)
    decreases upper
  {
    if upper > 1 && DrawBelow(words, upper, ordinal).Some? {
      var pick := DrawBelow(words, upper, ordinal).value;
      MaterializeShuffles(words, Swap(p, upper - 1, pick.selected), upper - 1, pick.next);
      if DrawnChoices(words, upper - 1, pick.next).Some? && upper > 1 {
        ShuffleStep(p, DrawnChoices(words, upper - 1, pick.next).value, pick.selected);
      }
    }
  }

  /** Whatever the word stream, a materialized result is a permutation: the one of its drawn choices. */
  lemma MaterializedIsPermutation(words: WordStream, n: nat)
    requires n <= TWO_32 && Materialize(words, Identity(n), n, 0).Some?
    ensures DrawnChoices(words, n, 0).Some?
    ensures Materialize(words, Identity(n), n, 0).value.permutation
         == Shuffle(Identity(n), DrawnChoices(words, n, 0).value)
    ensures Permutation(Materialize(words, Identity(n), n, 0).value.permutation, n)
  {
    MaterializeShuffles(words, Identity(n), n, 0);
    ChoicesToPermutations(n, DrawnChoices(words, n, 0).value);
  }

  // ----- what the shuffle and its draws are -----

  /** The chosen element ends up last; the last one takes its place among the others, which are shuffled by the
      other choices. */
  lemma ChosenGoesLast(p: seq<nat>, others: seq<nat>, c: nat)
    requires |p| == |others| + 1 && Choices(others) && c <= |others|
    ensures Choices(others + [c])
    ensures Shuffle(p, others + [c]) == Shuffle(p[c := p[|others|]][..|others|], others) + [p[c]]
  {
    var last := |others|;
    var all := others + [c];
    if last == 0 {
      assert Shuffle(p, all) == p;
      assert Shuffle(p[c := p[last]][..last], others) == [];
    } else {
      assert all[..last] == others && all[last] == c;
      var q := Swap(p, last, c);
      ShuffleKeepsTail(q, others);
      ShuffleOfPrefix(q, others);
      assert q[..last] == p[c := p[last]][..last];
    }
  }

  /** A shuffle of a prefix does not look beyond it. */
  lemma {:induction false} ShuffleOfPrefix(p: seq<nat>, choices: seq<nat>)
    requires |choices| <= |p| && Choices(choices)
    ensures Shuffle(p, choices)[..|choices|] == Shuffle(p[..|choices|], choices)
    decreases |choices|
  {
    var n := |choices|;
    if n > 1 {
      var last := n - 1;
      var q, r := Swap(p, last, choices[last]), Swap(p[..n], last, choices[last]);
      ShuffleOfPrefix(q, choices[..last]);
      ShuffleOfPrefix(r, choices[..last]);
      ShuffleKeepsTail(q, choices[..last]);
      ShuffleKeepsTail(r, choices[..last]);
      assert q[..last] == r[..last];
    }
  }

  /** Reading from word `from` on, the one before word `to` is the first accepted for `upper`, and the choice is
      its residue. */
  ghost predicate FirstAccepted(words: WordStream, upper: nat, from: nat, to: nat, choice: nat)
    requires upper > 0
  {
    var limit := 0x1_0000_0000 - 0x1_0000_0000 % upper;
    && from < to < 0x1_0000_0000
    && (forall i: nat | from <= i < to - 1 :: words(i) >= limit)
    && words(to - 1) < limit && choice == words(to - 1) % upper
  }

  /** The selection for the prefix of length `u` reads the words from `at[u]` up to `at[u - 1]`. */
  ghost predicate ReadsInOrder(words: WordStream, choices: seq<nat>, at: seq<nat>) {
    && |at| == |choices| + 1
    && forall u | 2 <= u <= |choices| :: FirstAccepted(words, u, at[u], at[u - 1], choices[u - 1])
  }

  lemma DrawReads(words: WordStream, upper: nat, ordinal: u32)
    requires 0 < upper <= TWO_32 && DrawBelow(words, upper, ordinal).Some?
    ensures var pick := DrawBelow(words, upper, ordinal).value;
      FirstAccepted(words, upper, ordinal, pick.next, pick.selected)
  {
    DrawIsFirstAccepted(words, Limit(upper), upper, ordinal);
  }

  /** The draws read the stream word by word, none twice and none left out: the longest prefix first, each
      selection where the one before stopped. */
  lemma {:induction false} WordsInOrder(words: WordStream, p: seq<nat>, n: nat, ordinal: u32) returns (at: seq<nat>)
    requires n <= |p| <= TWO_32 && DrawnChoices(words, n, ordinal).Some?
    ensures ReadsInOrder(words, DrawnChoices(words, n, ordinal).value, at)
    ensures at[n] == ordinal && Materialize(words, p, n, ordinal).Some?
    ensures Materialize(words, p, n, ordinal).value.draws == at[0]
    decreases n
  {
    if n <= 1 {
      at := seq(n + 1, _ => ordinal);
    } else {
      var pick := DrawBelow(words, n, ordinal).value;
      DrawReads(words, n, ordinal);
      var rest := WordsInOrder(words, Swap(p, n - 1, pick.selected), n - 1, pick.next);
      at := rest + [ordinal];
    }
  }

  // ----- the engine code -----

  /** The draw stream of one epoch's permutation. */
  function KeyedWords(key: Key): WordStream {
    (ordinal: u32) => Philox4x32(Block(ordinal, FISHER_YATES_WORD, PERM_ROUND_TAG, 0), key).w0
  }

  /** The words are those of the blocks with an eight after the ordinal, apart from the cipher's, whose rounds are
      numbered below eight. */
  lemma WordOf(key: Key, ordinal: u32, b: Block)
    requires UnRounds(b, key, 10) == Block(ordinal, 8, 3, 0)
    ensures KeyedWords(key)(ordinal) == b.w0
  {
    RoundsOnto(b, key, 10);
  }

  /** `Declined`: the domain belongs to the stateless regime. `Panicked`: the draw ordinal ran out. */
  datatype Materialized = Declined | Panicked | Drawn(permutation: seq<nat>, draws: u32)

  method DrawSelected(key: Key, upper: nat, ordinal: u32) returns (r: Option<Pick>)
    requires 0 < upper <= TWO_32
    ensures r == DrawBelow(KeyedWords(key), upper, ordinal)
  {
    var limit := Limit(upper);
    var drawOrdinal: nat := ordinal;
    while true
      invariant drawOrdinal < TWO_32
      invariant Draw(KeyedWords(key), limit, upper, drawOrdinal) == Draw(KeyedWords(key), limit, upper, ordinal)
      decreases TWO_32 - drawOrdinal
    {
      var word := Philox4x32_10(Block(drawOrdinal, FISHER_YATES_WORD, PERM_ROUND_TAG, 0), key);
      DrawStep(key, limit, upper, drawOrdinal, word.w0);
      if drawOrdinal + 1 == TWO_32 {
        return None;
      }
      drawOrdinal := drawOrdinal + 1;
      if word.w0 < limit {
        return Some(Pick(word.w0 % upper, drawOrdinal));
      }
    }
  }

  lemma DrawStep(key: Key, limit: nat, upper: nat, ordinal: u32, word: u32)
    requires upper > 0 && word == Philox4x32(Block(ordinal, FISHER_YATES_WORD, PERM_ROUND_TAG, 0), key).w0
    ensures Draw(KeyedWords(key), limit, upper, ordinal)
         == if ordinal + 1 == TWO_32 then None
            else if word < limit then Some(Pick(word % upper, ordinal + 1))
            else Draw(KeyedWords(key), limit, upper, ordinal + 1)
  {
  }

  method SwapInPlace(a: array<nat>, i: nat, j: nat)
    requires i < a.Length && j < a.Length
    modifies a
    ensures a[..] == Swap(old(a[..]), i, j)
  {
    a[i], a[j] := a[j], a[i];
  }

  /** Shuffle an array in place; `None` when the draw ordinal ran out. */
  method ShuffleInPlace(key: Key, a: array<nat>) returns (draws: Option<u32>)
    requires a.Length < TWO_32
    modifies a
    ensures var r := Materialize(KeyedWords(key), old(a[..]), a.Length, 0);
            if draws.None? then r.None? else r == Some(Shuffled(a[..], draws.value))
  {
    var drawOrdinal: u32 := 0;
    var upper: nat := a.Length;
    while upper > 1
      invariant upper <= a.Length
      invariant Materialize(KeyedWords(key), a[..], upper, drawOrdinal)
             == Materialize(KeyedWords(key), old(a[..]), a.Length, 0)
    {
      var pick := DrawSelected(key, upper, drawOrdinal);
      if pick.None? {
        return None;
      }
      SwapInPlace(a, upper - 1, pick.value.selected);
      drawOrdinal := pick.value.next;
      upper := upper - 1;
    }
    draws := Some(drawOrdinal);
  }

  /** The materialized permutation under one permutation key. */
  function MaterializedSpec(key: Key, domain: u32): Option<Shuffled> {
    Materialize(KeyedWords(key), Identity(domain), domain, 0)
  }

  method MaterializedUnderKey(key: Key, domain: u32) returns (r: Materialized)
    ensures r.Declined? <==> domain >= 131072
    ensures r.Panicked? ==> MaterializedSpec(key, domain).None?
    ensures r.Drawn? ==> MaterializedSpec(key, domain) == Some(Shuffled(r.permutation, r.draws))
    ensures r.Drawn? ==> Permutation(r.permutation, domain)
  {
    if domain >= FEISTEL_THRESHOLD {
      return Declined;
    }
    var permutation := new nat[domain](i => i);
    assert permutation[..] == Identity(domain);
    var draws := ShuffleInPlace(key, permutation);
    if draws.None? {
      return Panicked;
    }
    MaterializedIsPermutation(KeyedWords(key), domain);
    r := Drawn(permutation[..], draws.value);
  }

  method MaterializedPermutationWithDraws(rootSeed: u64, epoch: u64, domain: u32) returns (r: Materialized)
    ensures r.Declined? <==> domain >= 131072
    ensures r.Panicked? ==> MaterializedSpec(PermutationKey(rootSeed, epoch), domain).None?
    ensures r.Drawn? ==>
              MaterializedSpec(PermutationKey(rootSeed, epoch), domain) == Some(Shuffled(r.permutation, r.draws))
    ensures r.Drawn? ==> Permutation(r.permutation, domain)
  {
    r := MaterializedUnderKey(PermutationKey(rootSeed, epoch), domain);
  }
}
