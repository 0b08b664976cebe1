/** Distributed placement of sampler positions on ranks, over the epoch permutation. */
module Placement {
  import opened Words
  import opened Outcomes
  import opened Philox
  import opened Streams
  import opened Feistel
  import FisherYates
  import opened Positions

  // ----- the epoch permutation in both regimes -----

  /** The small-domain permutation under this key exists: its draws do not run out of ordinals. */
  ghost predicate Drawable(key: Key, domain: nat) {
    domain < FEISTEL_THRESHOLD ==> FisherYates.MaterializedSpec(key, domain).Some?
  }

  /** The dataset index at a position of the epoch permutation. */
  ghost function EpochIndex(key: Key, domain: u64, position: nat): (index: nat)
    requires position < domain && Drawable(key, domain)
    ensures index < domain
  {
    if domain < FEISTEL_THRESHOLD then
      FisherYates.MaterializedIsPermutation(FisherYates.KeyedWords(key), domain);
      FisherYates.MaterializedSpec(key, domain).value.permutation[position]
    else
      FeistelIndex(KeyedRound(key), domain, position)
  }

  /** The position at which a dataset index is delivered. */
  ghost function EpochPosition(key: Key, domain: u64, index: nat): (position: nat)
    requires index < domain && Drawable(key, domain)
    ensures position < domain
  {
    if domain < FEISTEL_THRESHOLD then
      FisherYates.MaterializedIsPermutation(FisherYates.KeyedWords(key), domain);
      assert index in FisherYates.MaterializedSpec(key, domain).value.permutation;
      FisherYates.IndexOf(FisherYates.MaterializedSpec(key, domain).value.permutation, index)
    else
      FeistelPosition(KeyedRound(key), domain, index)
  }

  /** In both regimes positions and dataset indices correspond one to one. */
  lemma EpochBijective(key: Key, domain: u64, position: nat, index: nat)
    requires position < domain && index < domain && Drawable(key, domain)
    ensures EpochIndex(key, domain, position) == index
       <==> EpochPosition(key, domain, index) == position
  {
    if domain < FEISTEL_THRESHOLD {
      FisherYates.MaterializedIsPermutation(FisherYates.KeyedWords(key), domain);
      var p := FisherYates.MaterializedSpec(key, domain).value.permutation;
      assert index in p;
      if p[position] == index {
        FisherYates.DistinctIndex(p, position, FisherYates.IndexOf(p, index));
      }
    } else {
      FeistelBijective(KeyedRound(key), domain, position);
      FeistelBijective(KeyedRound(key), domain, index);
    }
  }

  datatype Indexed = OutOfRange | DrawsExhausted | Index(value: nat)

  /** The permutation index in whichever regime the domain selects. */
  method PermutationIndex(rootSeed: u64, epoch: u64, domain: u64, position: u64) returns (r: Indexed)
    ensures r.OutOfRange? <==> position >= domain
    ensures position < domain ==> (r.Index? <==> Drawable(PermutationKey(rootSeed, epoch), domain))
    ensures r.Index? ==> r.value == EpochIndex(PermutationKey(rootSeed, epoch), domain, position)
  {
    if position >= domain {
      return OutOfRange;
    }
    if domain < FEISTEL_THRESHOLD {
      var drawn := FisherYates.MaterializedPermutationWithDraws(rootSeed, epoch, domain);
      if drawn.Panicked? {
        return DrawsExhausted;
      }
      return Index(drawn.permutation[position]);
    }
    var walked := FeistelPermute(rootSeed, epoch, domain, position);
    r := Index(walked.value);
  }

  // ----- positions per rank, over unbounded integers -----

  /** One epoch's delivery contract: dataset, per-rank batch, world and tail policy. */
  datatype Topology = Topology(datasetLen: nat, batchSize: nat, worldSize: nat, dropLast: bool, exactCount: bool) {
    predicate Valid() {
      batchSize > 0 && worldSize > 0
    }

    function GlobalBatch(): (g: nat)
      requires Valid()
      ensures g > 0
    {
      MulPositive(batchSize, worldSize);
      batchSize * worldSize
    }

    function FullBatches(): nat
      requires Valid()
    {
      datasetLen / GlobalBatch()
    }

    function Batches(): nat
      requires Valid()
    {
      if dropLast || exactCount then FullBatches() else (datasetLen + GlobalBatch() - 1) / GlobalBatch()
    }

    function FullEnd(): nat
      requires Valid()
    {
      FullBatches() * GlobalBatch()
    }

    predicate SharesTail() {
      exactCount && !dropLast
    }

    function TailSize(): nat
      requires Valid()
    {
      var q, r := datasetLen / GlobalBatch(), datasetLen % GlobalBatch();
      assert datasetLen == q * GlobalBatch() + r;
      datasetLen - FullEnd()
    }

    /** How many positions the whole world delivers. */
    function Delivered(): nat
      requires Valid()
    {
      if SharesTail() then datasetLen else Batches() * GlobalBatch()
    }
  }

  /** A rank's slice of `batches` consecutive global batches. */
  function RegularPositions(start: nat, batches: nat, global: nat, offset: nat, size: nat): seq<nat>
    decreases batches
  {
    if batches == 0 then []
    else Range(start + offset, start + offset + size)
         + RegularPositions(start + global, batches - 1, global, offset, size)
  }

  /** The tail boundary before rank `rank`. */
  function TailCut(fullEnd: nat, tail: nat, world: nat, rank: nat): nat
    requires world > 0
  {
    fullEnd + (rank * tail) / world
  }

  lemma TailCutMonotone(fullEnd: nat, tail: nat, world: nat, rank: nat)
    requires world > 0
    ensures TailCut(fullEnd, tail, world, rank) <= TailCut(fullEnd, tail, world, rank + 1)
  {
    MulAdd(rank, 1, tail);
    DivMonotone(rank * tail, (rank + 1) * tail, world);
  }

  function TailPositions(t: Topology, rank: nat): seq<nat>
    requires t.Valid()
  {
    if !t.SharesTail() then []
    else
      TailCutMonotone(t.FullEnd(), t.TailSize(), t.worldSize, rank);
      Range(TailCut(t.FullEnd(), t.TailSize(), t.worldSize, rank),
            TailCut(t.FullEnd(), t.TailSize(), t.worldSize, rank + 1))
  }

  function RankPositions(t: Topology, rank: nat): seq<nat>
    requires t.Valid()
  {
    RegularPositions(0, t.Batches(), t.GlobalBatch(), rank * t.batchSize, t.batchSize) + TailPositions(t, rank)
  }

  // ----- coverage of positions -----

  /** Everything delivered by ranks 0 to `ranks` - 1, one rank after the other. */
  function WorldPositions(t: Topology, ranks: nat): seq<nat>
    requires t.Valid()
  {
    if ranks == 0 then [] else WorldPositions(t, ranks - 1) + RankPositions(t, ranks - 1)
  }

  /** The ranks' slices of one global batch, in rank order. */
  function BatchAcrossRanks(start: nat, size: nat, ranks: nat): seq<nat> {
    if ranks == 0 then []
    else BatchAcrossRanks(start, size, ranks - 1)
         + Range(start + Times(ranks - 1, size), start + Times(ranks - 1, size) + size)
  }

  lemma {:induction false} BatchContiguous(start: nat, size: nat, ranks: nat)
    ensures BatchAcrossRanks(start, size, ranks) == Range(start, start + Times(ranks, size))
  {
    if ranks > 0 {
      BatchContiguous(start, size, ranks - 1);
      RangeSplit(start, start + Times(ranks - 1, size), start + Times(ranks, size));
    }
  }

  function RegularAcrossRanks(start: nat, batches: nat, global: nat, size: nat, ranks: nat): seq<nat> {
    if ranks == 0 then []
    else RegularAcrossRanks(start, batches, global, size, ranks - 1)
         + RegularPositions(start, batches, global, Times(ranks - 1, size), size)
  }

  /** Peeling the first batch off every rank's slice. */
  lemma {:induction false} RegularPeel(m: seq<nat> -> nat, start: nat, batches: nat, global: nat, size: nat, ranks: nat)
    requires Additive(m) && batches > 0
    ensures m(RegularAcrossRanks(start, batches, global, size, ranks))
         == m(BatchAcrossRanks(start, size, ranks))
            + m(RegularAcrossRanks(start + global, batches - 1, global, size, ranks))
  {
    if ranks > 0 {
      RegularPeel(m, start, batches, global, size, ranks - 1);
      var offset := Times(ranks - 1, size);
      assert RegularPositions(start, batches, global, offset, size)
          == Range(start + offset, start + offset + size)
             + RegularPositions(start + global, batches - 1, global, offset, size);
    }
  }

  lemma {:induction false} RegularNone(start: nat, global: nat, size: nat, ranks: nat)
    ensures RegularAcrossRanks(start, 0, global, size, ranks) == []
  {
    if ranks > 0 { RegularNone(start, global, size, ranks - 1); }
  }

  /** The first global batch is the next range of positions, the rest the same plan from its end. */
  lemma RegularFirst(m: seq<nat> -> nat, start: nat, batches: nat, global: nat, size: nat, ranks: nat, mid: nat)
    requires Additive(m) && global == Times(ranks, size) && batches > 0 && mid == start + global
    ensures m(RegularAcrossRanks(start, batches, global, size, ranks))
         == m(Range(start, mid)) + m(RegularAcrossRanks(mid, batches - 1, global, size, ranks))
  {
    RegularPeel(m, start, batches, global, size, ranks);
    BatchContiguous(start, size, ranks);
  }

  lemma {:induction false} RegularCoverage(m: seq<nat> -> nat, start: nat, batches: nat, global: nat, size: nat,
                                           ranks: nat, stop: nat)
    requires Additive(m) && global == Times(ranks, size) && stop == start + Times(batches, global)
    ensures m(RegularAcrossRanks(start, batches, global, size, ranks)) == m(Range(start, stop))
    decreases batches
  {
    if batches == 0 {
      RegularNone(start, global, size, ranks);
      assert Range(start, stop) == [];
    } else {
      var mid := start + global;
      RegularFirst(m, start, batches, global, size, ranks, mid);
      TimesShift(batches, global);
      RegularCoverage(m, mid, batches - 1, global, size, ranks, stop);
      RangeAdds(m, start, mid, stop);
    }
  }

  lemma RangeAdds(m: seq<nat> -> nat, lo: nat, mid: nat, hi: nat)
    requires Additive(m) && lo <= mid <= hi
    ensures m(Range(lo, hi)) == m(Range(lo, mid)) + m(Range(mid, hi))
  {
    RangeSplit(lo, mid, hi);
  }

  /** The tail shares of ranks below `ranks` are one contiguous range from the full end. */
  function TailAcrossRanks(t: Topology, ranks: nat): seq<nat>
    requires t.Valid()
  {
    if ranks == 0 then [] else TailAcrossRanks(t, ranks - 1) + TailPositions(t, ranks - 1)
  }

  lemma {:induction false} TailContiguous(t: Topology, ranks: nat)
    requires t.Valid() && t.SharesTail()
    ensures t.FullEnd() <= TailCut(t.FullEnd(), t.TailSize(), t.worldSize, ranks)
    ensures TailAcrossRanks(t, ranks) == Range(t.FullEnd(), TailCut(t.FullEnd(), t.TailSize(), t.worldSize, ranks))
  {
    if ranks == 0 {
      DivModUnique(0 * t.TailSize(), t.worldSize, 0, 0);
    } else {
      TailContiguous(t, ranks - 1);
      TailCutMonotone(t.FullEnd(), t.TailSize(), t.worldSize, ranks - 1);
      RangeSplit(t.FullEnd(), TailCut(t.FullEnd(), t.TailSize(), t.worldSize, ranks - 1),
                 TailCut(t.FullEnd(), t.TailSize(), t.worldSize, ranks));
    }
  }

  lemma TailCoverage(t: Topology)
    requires t.Valid()
    ensures TailAcrossRanks(t, t.worldSize) == if t.SharesTail() then Range(t.FullEnd(), t.datasetLen) else []
  {
    if t.SharesTail() {
      TailContiguous(t, t.worldSize);
      DivModUnique(t.worldSize * t.TailSize(), t.worldSize, t.TailSize(), 0);
    } else {
      NoTail(t, t.worldSize);
    }
  }

  lemma {:induction false} NoTail(t: Topology, ranks: nat)
    requires t.Valid() && !t.SharesTail()
    ensures TailAcrossRanks(t, ranks) == []
  {
    if ranks > 0 { NoTail(t, ranks - 1); }
  }

  lemma RankParts(t: Topology, rank: nat)
    requires t.Valid()
    ensures RankPositions(t, rank)
         == RegularPositions(0, t.Batches(), t.GlobalBatch(), Times(rank, t.batchSize), t.batchSize)
            + TailPositions(t, rank)
  {
    TimesIsMul(rank, t.batchSize);
  }

  lemma {:induction false} WorldSplits(m: seq<nat> -> nat, t: Topology, ranks: nat, batches: nat, global: nat)
    requires Additive(m) && t.Valid() && batches == t.Batches() && global == t.GlobalBatch()
    ensures m(WorldPositions(t, ranks))
         == m(RegularAcrossRanks(0, batches, global, t.batchSize, ranks)) + m(TailAcrossRanks(t, ranks))
  {
    if ranks > 0 {
      WorldSplits(m, t, ranks - 1, batches, global);
      RankParts(t, ranks - 1);
    }
  }

  /** Across all ranks every delivered position occurs exactly once, and no other position occurs. */
  lemma PositionCoverage(t: Topology)
    requires t.Valid()
    ensures multiset(WorldPositions(t, t.worldSize)) == multiset(Range(0, t.Delivered()))
  {
    forall p: nat ensures Count(WorldPositions(t, t.worldSize), p) == Count(Range(0, t.Delivered()), p) {
      CountAdditive(p);
      MeasureCoverage(CountsOf(p), t);
    }
    SameCounts(WorldPositions(t, t.worldSize), Range(0, t.Delivered()));
  }

  lemma MeasureCoverage(m: seq<nat> -> nat, t: Topology)
    requires Additive(m) && t.Valid()
    ensures m(WorldPositions(t, t.worldSize)) == m(Range(0, t.Delivered()))
  {
    var batches, global := t.Batches(), t.GlobalBatch();
    WorldSplits(m, t, t.worldSize, batches, global);
    TimesIsMul(t.worldSize, t.batchSize);
    TimesIsMul(batches, global);
    RegularCoverage(m, 0, batches, global, t.batchSize, t.worldSize, batches * global);
    TailCoverage(t);
    if t.SharesTail() { RangeAdds(m, 0, t.FullEnd(), t.datasetLen); }
  }

  // ----- coverage of dataset indices -----

  /** The dataset index of a position, padding positions wrapping around the dataset. */
  ghost function IndexAt(key: Key, n: u64): nat -> nat {
    (p: nat) => if n > 0 && Drawable(key, n) then EpochIndex(key, n, p % n) else 0
  }

  lemma IndexAtWrapped(key: Key, n: u64, p: nat, wrapped: nat)
    requires n > 0 && Drawable(key, n) && wrapped == p % n && wrapped < n
    ensures IndexAt(key, n)(p) == EpochIndex(key, n, wrapped)
  {
  }

  /** A position has an index exactly when it meets that index's residue class. */
  lemma IndexMeets(key: Key, n: u64, index: nat, p: nat)
    requires n > 0 && Drawable(key, n) && index < n
    ensures IndexAt(key, n)(p) == index <==> p % n == EpochPosition(key, n, index)
  {
    var _, r := DivMod(p, n);
    EpochBijective(key, n, r, index);
  }

  /** Over the whole world a dataset index is delivered as often as its residue class meets the delivered positions:
      exactly once when the tail is shared, at most once when it is dropped (exactly once inside the full batches),
      and the floor or the ceiling of delivered / datasetLen times when it is padded. */
  lemma IndexCoverage(key: Key, t: Topology, index: nat)
    requires t.Valid() && 0 < t.datasetLen < TWO_64 && index < t.datasetLen && Drawable(key, t.datasetLen)
    ensures var times := multiset(Map<nat, nat>(IndexAt(key, t.datasetLen), WorldPositions(t, t.worldSize)))[index];
            var position := EpochPosition(key, t.datasetLen, index);
            && times == ResidueShare(t.Delivered(), t.datasetLen, position)
            && (t.SharesTail() ==> times == 1)
            && (t.dropLast ==> times == if position < t.FullEnd() then 1 else 0)
  {
    var n := t.datasetLen;
    var f, q := IndexAt(key, n), EpochPosition(key, n, index);
    forall p: nat ensures f(p) == index <==> p % n == q {
      IndexMeets(key, n, index, p);
    }
    PositionCoverage(t);
    MapMultiset(f, WorldPositions(t, t.worldSize), Range(0, t.Delivered()));
    CountOnRange(f, n, q, index, t.Delivered());
    ShareOfShort(n, n, q);
    FullEndBelow(t);
    ShareOfShort(t.FullEnd(), n, q);
  }

  lemma FullEndBelow(t: Topology)
    requires t.Valid()
    ensures t.FullEnd() <= t.datasetLen
  {
    var q, r := DivMod(t.datasetLen, t.GlobalBatch());
  }

  lemma ShareOfShort(count: nat, n: nat, q: nat)
    requires q < n && count <= n
    ensures ResidueShare(count, n, q) == if q < count then 1 else 0
  {
    if count == n { DivModUnique(count, n, 1, 0); } else { DivModUnique(count, n, 0, count); }
  }

  /** With a padded or dropped tail all ranks deliver equally many samples; a shared tail's shares differ by one at
      most. */
  lemma RankCounts(t: Topology, rank: nat)
    requires t.Valid()
    ensures !t.SharesTail() ==> |RankPositions(t, rank)| == t.Batches() * t.batchSize
    ensures t.SharesTail() ==>
              var extra := |RankPositions(t, rank)| - t.Batches() * t.batchSize;
              t.TailSize() / t.worldSize <= extra <= t.TailSize() / t.worldSize + 1
  {
    RegularLength(0, t.Batches(), t.GlobalBatch(), rank * t.batchSize, t.batchSize);
    TimesIsMul(t.Batches(), t.batchSize);
    if t.SharesTail() { TailShare(t.TailSize(), t.worldSize, rank); }
  }

  lemma {:induction false} RegularLength(start: nat, batches: nat, global: nat, offset: nat, size: nat)
    ensures |RegularPositions(start, batches, global, offset, size)| == Times(batches, size)
    decreases batches
  {
    if batches > 0 { RegularLength(start + global, batches - 1, global, offset, size); }
  }

  lemma TailShare(tail: nat, world: nat, rank: nat)
    requires world > 0
    ensures tail / world <= ((rank + 1) * tail) / world - (rank * tail) / world <= tail / world + 1
  {
    MulAdd(rank, 1, tail);
    var a, x := DivMod(rank * tail, world);
    var b, y := DivMod(tail, world);
    MulAdd(a, b, world);
    if x + y < world {
      DivModUnique(rank * tail + tail, world, a + b, x + y);
    } else {
      MulAdd(a + b, 1, world);
      DivModUnique(rank * tail + tail, world, a + b + 1, x + y - world);
    }
  }

  // ----- elastic worlds -----

  /** The per-rank batch size that keeps a global batch on a new world, if it divides evenly. */
  function ElasticBatchSize(globalBatch: nat, newWorldSize: nat): Option<nat> {
    if newWorldSize == 0 || globalBatch % newWorldSize != 0 then None else Some(globalBatch / newWorldSize)
  }

  function Slice(s: seq<nat>, k: nat, size: nat): seq<nat> {
    if Times(k, size) + size <= |s| then s[Times(k, size)..Times(k, size) + size] else []
  }

  /** What a world consumes as its `k`-th step: every rank's `k`-th batch, in rank order. */
  function StepOfWorld(t: Topology, k: nat, ranks: nat): seq<nat>
    requires t.Valid()
  {
    if ranks == 0 then [] else StepOfWorld(t, k, ranks - 1) + Slice(RankPositions(t, ranks - 1), k, t.batchSize)
  }

  lemma {:induction false} RegularSlice(start: nat, batches: nat, global: nat, offset: nat, size: nat, k: nat,
                                        tail: seq<nat>)
    requires k < batches
    ensures Slice(RegularPositions(start, batches, global, offset, size) + tail, k, size)
         == Range(start + Times(k, global) + offset, start + Times(k, global) + offset + size)
    decreases k
  {
    var head := Range(start + offset, start + offset + size);
    var rest := RegularPositions(start + global, batches - 1, global, offset, size);
    assert RegularPositions(start, batches, global, offset, size) + tail == head + (rest + tail);
    if k > 0 {
      RegularSlice(start + global, batches - 1, global, offset, size, k - 1, tail);
      SliceLater(head, rest + tail, k, size);
      TimesShift(k, global);
    }
  }

  lemma SliceLater(head: seq<nat>, rest: seq<nat>, k: nat, size: nat)
    requires |head| == size && k > 0
    ensures Slice(head + rest, k, size) == Slice(rest, k - 1, size)
  {
    TimesShift(k, size);
  }

  lemma {:induction false} StepIsBatch(t: Topology, k: nat, ranks: nat)
    requires t.Valid() && k < t.Batches()
    ensures StepOfWorld(t, k, ranks) == BatchAcrossRanks(Times(k, t.GlobalBatch()), t.batchSize, ranks)
  {
    if ranks > 0 {
      StepIsBatch(t, k, ranks - 1);
      RankParts(t, ranks - 1);
      RegularSlice(0, t.Batches(), t.GlobalBatch(), Times(ranks - 1, t.batchSize), t.batchSize, k,
                   TailPositions(t, ranks - 1));
    }
  }

  /** Step `k` of a world is the contiguous block of positions [k * G, (k + 1) * G), whatever its width. */
  lemma StepContiguous(t: Topology, k: nat)
    requires t.Valid() && k < t.Batches()
    ensures StepOfWorld(t, k, t.worldSize) == Range(k * t.GlobalBatch(), k * t.GlobalBatch() + t.GlobalBatch())
  {
    StepIsBatch(t, k, t.worldSize);
    BatchContiguous(Times(k, t.GlobalBatch()), t.batchSize, t.worldSize);
    TimesIsMul(k, t.GlobalBatch());
    TimesIsMul(t.worldSize, t.batchSize);
  }

  /** If a new world size is accepted, every full or padded global batch is the same ordered list of positions, and so
      of dataset indices, as in the old topology. */
  lemma ElasticInvariance(t: Topology, u: Topology, k: nat)
    requires t.Valid() && u.datasetLen == t.datasetLen && u.dropLast == t.dropLast && u.exactCount == t.exactCount
    requires ElasticBatchSize(t.GlobalBatch(), u.worldSize) == Some(u.batchSize)
    ensures u.Valid() && u.GlobalBatch() == t.GlobalBatch() && u.Batches() == t.Batches()
    ensures k < t.Batches() ==> StepOfWorld(u, k, u.worldSize) == StepOfWorld(t, k, t.worldSize)
  {
    var q, r := DivMod(t.GlobalBatch(), u.worldSize);
    if k < t.Batches() {
      StepContiguous(t, k);
      StepContiguous(u, k);
    }
  }

  // ----- what the numbers are -----

  /** A new world size is accepted with exactly the batch size whose product with it is the global batch. */
  lemma ElasticIff(globalBatch: nat, newWorldSize: nat, batchSize: nat)
    ensures ElasticBatchSize(globalBatch, newWorldSize) == Some(batchSize)
       <==> newWorldSize > 0 && batchSize * newWorldSize == globalBatch
  {
    if newWorldSize > 0 {
      var q, r := DivMod(globalBatch, newWorldSize);
      if batchSize * newWorldSize == globalBatch { DivModUnique(globalBatch, newWorldSize, batchSize, 0); }
    }
  }

  /** `m` is the greatest multiple of `g` that does not exceed `n`. */
  predicate RoundedDown(m: nat, n: nat, g: nat)
    requires g > 0
  {
    m % g == 0 && m <= n < m + g
  }

  /** `m` is the least multiple of `g` that is not below `n`. */
  predicate RoundedUp(m: nat, n: nat, g: nat)
    requires g > 0
  {
    m % g == 0 && n <= m < n + g
  }

  /** A world delivers the whole dataset when its tail is shared, what whole global batches hold of it when the tail
      is dropped, and otherwise as much as fills up the last global batch. */
  lemma DeliveredIs(t: Topology, g: nat)
    requires t.Valid() && g == t.batchSize * t.worldSize && g > 0
    ensures t.exactCount && !t.dropLast ==> t.Delivered() == t.datasetLen
    ensures t.dropLast ==> RoundedDown(t.Delivered(), t.datasetLen, g)
    ensures !t.exactCount && !t.dropLast ==> RoundedUp(t.Delivered(), t.datasetLen, g)
    ensures RoundedDown(t.FullEnd(), t.datasetLen, g)
  {
    var q, r := DivMod(t.datasetLen, g);
    DivModUnique(q * g, g, q, 0);
    PaddedIs(t.datasetLen, g);
  }

  lemma PaddedIs(n: nat, g: nat)
    requires g > 0
    ensures RoundedUp(((n + g - 1) / g) * g, n, g)
  {
    var q, r := DivMod(n + g - 1, g);
    DivModUnique(q * g, g, q, 0);
  }
}
