/** The 64-bit placement code: checked and wrapping coordinates, its loops, and how far it agrees with
    the unbounded placement. */
module PlacementEngine {
  import opened Words
  import opened Outcomes
  import opened Philox
  import opened Streams
  import opened Feistel
  import FisherYates
  import opened Positions
  import opened Placement

  datatype Request = Request(rootSeed: u64, epoch: u64, datasetLen: u64, batchSize: u64, worldSize: u64, rank: u64,
                             dropLast: bool, exactCount: bool) {
    function Topology(): Topology {
      Placement.Topology(datasetLen, batchSize, worldSize, dropLast, exactCount)
    }
  }

  datatype PlacementError = ZeroBatchSize | ZeroWorldSize | RankOutOfRange | CoordinateOverflow

  /** A sample of the dataset together with the position it is delivered at. */
  datatype PlacedSample = PlacedSample(position: nat, index: nat)

  /** `Panicked`: the small-domain permutation ran out of draw ordinals. */
  datatype Placements = Placed(samples: seq<PlacedSample>) | Rejected(error: PlacementError) | Panicked

  // ----- the wrapping tail product -----

  function WrappingMul(a: u64, b: u64): u64 {
    (a * b) % TWO_64
  }

  /** A rank's share of a tail of `tail` positions after `fullEnd`, with the engine's wrapping products. */
  function WrappedShare(fullEnd: nat, tail: u64, world: nat, rank: u64): seq<nat>
    requires world > 0 && rank + 1 < TWO_64
  {
    var lo := fullEnd + Quotient(WrappingMul(rank, tail), world);
    var hi := fullEnd + Quotient(WrappingMul(rank + 1, tail), world);
    if lo <= hi then Range(lo, hi) else []
  }

  /** The tail share of a rank as computed in 64-bit words: the product with the tail size wraps. */
  function EngineTail(t: Topology, rank: u64): seq<nat>
    requires t.Valid() && t.datasetLen < TWO_64 && rank + 1 < TWO_64
  {
    if t.SharesTail() then WrappedShare(t.FullEnd(), t.TailSize(), t.worldSize, rank) else []
  }

  function EnginePositions(t: Topology, rank: u64): seq<nat>
    requires t.Valid() && t.datasetLen < TWO_64 && rank + 1 < TWO_64
  {
    RegularPositions(0, t.Batches(), t.GlobalBatch(), rank * t.batchSize, t.batchSize) + EngineTail(t, rank)
  }

  function EngineWorld(t: Topology, ranks: nat): seq<nat>
    requires t.Valid() && t.datasetLen < TWO_64 && ranks < TWO_64
  {
    if ranks == 0 then [] else EngineWorld(t, ranks - 1) + EnginePositions(t, ranks - 1)
  }

  lemma DivLess(a: nat, w: nat, t: nat)
    requires w > 0 && a < w * t
    ensures a / w < t
  {
    var q, r := DivMod(a, w);
    if q >= t { MulMonotone(t, q, w); }
  }

  /** Nothing wraps while the product of world and tail fits 64 bits. */
  lemma ShareWithoutWrap(fullEnd: nat, tail: u64, world: nat, rank: u64)
    requires rank < world < TWO_64 && world * tail < TWO_64
    ensures TailCut(fullEnd, tail, world, rank) <= TailCut(fullEnd, tail, world, rank + 1)
    ensures WrappedShare(fullEnd, tail, world, rank)
         == Range(TailCut(fullEnd, tail, world, rank), TailCut(fullEnd, tail, world, rank + 1))
  {
    TailCutMonotone(fullEnd, tail, world, rank);
    MulMonotone(rank, rank + 1, tail);
    MulMonotone(rank + 1, world, tail);
    DivModUnique(rank * tail, TWO_64, 0, rank * tail);
    DivModUnique((rank + 1) * tail, TWO_64, 0, (rank + 1) * tail);
  }

  /** Once the product reaches 2^64 every share ends before the last tail position. */
  lemma ShareWithWrap(fullEnd: nat, tail: u64, world: nat, rank: u64)
    requires rank < world < TWO_64 && world * tail >= TWO_64
    ensures forall p | p in WrappedShare(fullEnd, tail, world, rank) :: p < fullEnd + tail - 1
  {
    DivLess(WrappingMul(rank + 1, tail), world, tail);
  }

  lemma {:induction false} RegularBelow(start: nat, batches: nat, global: nat, offset: nat, size: nat)
    requires offset + size <= global
    ensures forall p | p in RegularPositions(start, batches, global, offset, size) :: p < start + Times(batches, global)
    decreases batches
  {
    if batches > 0 { RegularBelow(start + global, batches - 1, global, offset, size); }
  }

  lemma RegularBelowFullEnd(batches: nat, global: nat, size: nat, world: nat, rank: nat)
    requires rank < world && global == size * world
    ensures forall p | p in RegularPositions(0, batches, global, rank * size, size) :: p < batches * global
  {
    TimesIsMul(batches, global);
    MulMonotone(rank + 1, world, size);
    MulAdd(rank, 1, size);
    RegularBelow(0, batches, global, rank * size, size);
  }

  lemma AllBelow(a: seq<nat>, b: seq<nat>, limit: nat)
    requires (forall p | p in a :: p < limit) && (forall p | p in b :: p < limit)
    ensures forall p | p in a + b :: p < limit
  {
  }

  /** Under a wrapping product no rank reaches the last position of the dataset. */
  lemma PositionsWithWrap(t: Topology, rank: u64, tail: u64)
    requires t.Valid() && t.datasetLen < TWO_64 && rank < t.worldSize < TWO_64 && t.SharesTail()
    requires tail == t.TailSize() && t.worldSize * tail >= TWO_64
    ensures forall p | p in EnginePositions(t, rank) :: p < t.datasetLen - 1
  {
    var batches, global, size := t.Batches(), t.GlobalBatch(), t.batchSize;
    RegularBelowFullEnd(batches, global, size, t.worldSize, rank);
    ShareWithWrap(t.FullEnd(), tail, t.worldSize, rank);
    TwoOrMore(t.worldSize, tail);
    AllBelow(RegularPositions(0, batches, global, rank * size, size), EngineTail(t, rank), t.datasetLen - 1);
  }

  lemma TwoOrMore(world: nat, tail: nat)
    requires world < TWO_64 <= world * tail
    ensures tail >= 2
  {
    if tail <= 1 { MulMonotone(tail, 1, world); }
  }

  lemma {:induction false} WorldWithoutWrap(t: Topology, ranks: nat)
    requires t.Valid() && t.datasetLen < TWO_64 && ranks <= t.worldSize < TWO_64
    requires forall r: nat | r < ranks :: EnginePositions(t, r) == RankPositions(t, r)
    ensures EngineWorld(t, ranks) == WorldPositions(t, ranks)
  {
    if ranks > 0 { WorldWithoutWrap(t, ranks - 1); }
  }

  lemma {:induction false} WorldBelow(t: Topology, ranks: nat, limit: nat)
    requires t.Valid() && t.datasetLen < TWO_64 && ranks <= t.worldSize < TWO_64
    requires forall r: nat | r < ranks :: forall p | p in EnginePositions(t, r) :: p < limit
    ensures forall p | p in EngineWorld(t, ranks) :: p < limit
  {
    if ranks > 0 {
      WorldBelow(t, ranks - 1, limit);
      AllBelow(EngineWorld(t, ranks - 1), EnginePositions(t, ranks - 1), limit);
    }
  }

  lemma WorldFits(t: Topology, tail: u64)
    requires t.Valid() && t.datasetLen < TWO_64 && t.worldSize < TWO_64 && t.SharesTail()
    requires tail == t.TailSize() && t.worldSize * tail < TWO_64
    ensures EngineWorld(t, t.worldSize) == WorldPositions(t, t.worldSize)
  {
    forall r: nat | r < t.worldSize ensures EnginePositions(t, r) == RankPositions(t, r) {
      ShareWithoutWrap(t.FullEnd(), tail, t.worldSize, r);
    }
    WorldWithoutWrap(t, t.worldSize);
  }

  lemma WorldWraps(t: Topology, tail: u64)
    requires t.Valid() && t.datasetLen < TWO_64 && t.worldSize < TWO_64 && t.SharesTail()
    requires tail == t.TailSize() && t.worldSize * tail >= TWO_64
    ensures forall p | p in EngineWorld(t, t.worldSize) :: p < t.datasetLen - 1
  {
    forall r: nat | r < t.worldSize ensures forall p | p in EnginePositions(t, r) :: p < t.datasetLen - 1 {
      PositionsWithWrap(t, r, tail);
    }
    WorldBelow(t, t.worldSize, t.datasetLen - 1);
  }

  lemma MissingLast(s: seq<nat>, n: nat)
    requires n > 0 && forall p | p in s :: p < n - 1
    ensures multiset(s) != multiset(Range(0, n))
  {
    assert Range(0, n)[n - 1] == n - 1;
    var last: nat := n - 1;
    assert last !in s;
    assert last in multiset(Range(0, n)) && last !in multiset(s);
  }

  /** The shared tail covers the dataset exactly once if and only if world size times tail size fits 64 bits. */
  lemma SharedTailCoverage(t: Topology, tail: u64)
    requires t.Valid() && 0 < t.datasetLen < TWO_64 && t.worldSize < TWO_64 && t.SharesTail() && tail == t.TailSize()
    ensures multiset(EngineWorld(t, t.worldSize)) == multiset(Range(0, t.datasetLen))
       <==> t.worldSize * tail < TWO_64
  {
    if t.worldSize * tail < TWO_64 {
      WorldFits(t, tail);
      PositionCoverage(t);
    } else {
      WorldWraps(t, tail);
      MissingLast(EngineWorld(t, t.worldSize), t.datasetLen);
    }
  }

  /** A request whose shares wrap: 2^33 ranks of one sample each over a dataset one short of the world. */
  lemma WrappingTopology()
    ensures var t := Placement.Topology(0x1_FFFF_FFFF, 1, 0x2_0000_0000, false, true);
            t.Valid() && t.worldSize * t.TailSize() >= TWO_64
            && multiset(EngineWorld(t, t.worldSize)) != multiset(Range(0, t.datasetLen))
  {
    var t := Placement.Topology(0x1_FFFF_FFFF, 1, 0x2_0000_0000, false, true);
    SharedTailCoverage(t, 0x1_FFFF_FFFF);
  }

  // ----- the engine code -----

  /** The index mapping of one epoch over `n` samples: `small` holds the materialized permutation of a small dataset. */
  datatype EpochMap = EpochMap(key: Key, n: u64, small: Option<seq<nat>>) {
    ghost predicate Valid() {
      && n > 0
      && Drawable(key, n)
      && (small.Some? <==> n < FEISTEL_THRESHOLD)
      && (small.Some? ==> |small.value| == n && FisherYates.MaterializedSpec(key, n).value.permutation == small.value)
    }
  }

  /** The sample delivered at a position. */
  ghost function Place(key: Key, n: u64): nat -> PlacedSample {
    (p: nat) => PlacedSample(p, IndexAt(key, n)(p))
  }

  method MapIndex(m: EpochMap, position: u64) returns (index: nat)
    requires m.Valid() && position < m.n
    ensures index == EpochIndex(m.key, m.n, position)
  {
    match m.small {
      case Some(permutation) => index := permutation[position];
      case None => index := WalkIntoDomain(m.key, m.n, position);
    }
  }

  /** Reduce a padding position into the dataset. */
  method WrapIntoDataset(position: u64, n: u64) returns (wrapped: u64)
    requires n > 0
    ensures wrapped == position % n && wrapped < n
  {
    WrapPosition(position, n);
    var _, r := DivMod(position, n);
    if position < n {
      wrapped := position;
    } else {
      wrapped := (position - n) % n;
    }
  }

  method PlaceOne(m: EpochMap, position: u64) returns (sample: PlacedSample)
    requires m.Valid()
    ensures sample == Place(m.key, m.n)(position)
  {
    var permutationPosition := WrapIntoDataset(position, m.n);
    IndexAtWrapped(m.key, m.n, position, permutationPosition);
    var index := MapIndex(m, permutationPosition);
    sample := PlacedSample(position, index);
  }

  lemma WrapPosition(p: nat, n: nat)
    requires n > 0
    ensures (if p < n then p else (p - n) % n) == p % n
  {
    if p < n {
      DivModUnique(p, n, 0, p);
    } else {
      var q, r := DivMod(p - n, n);
      MulAdd(q, 1, n);
      DivModUnique(p, n, q + 1, r);
    }
  }

  /** Push the samples of the positions [lo, hi). */
  method PlaceRange(m: EpochMap, output: seq<PlacedSample>, lo: u64, hi: u64) returns (r: seq<PlacedSample>)
    requires m.Valid() && lo <= hi
    ensures r == output + Map(Place(m.key, m.n), Range(lo, hi))
  {
    r := output;
    var position: nat := lo;
    assert Map(Place(m.key, m.n), Range(lo, lo)) == [];
    while position < hi
      invariant lo <= position <= hi
      invariant r == output + Map(Place(m.key, m.n), Range(lo, position))
    {
      var sample := PlaceOne(m, position);
      r := r + [sample];
      MapNext(Place(m.key, m.n), lo, position);
      position := position + 1;
    }
  }

  lemma MapNext(place: nat -> PlacedSample, lo: nat, position: nat)
    requires lo <= position
    ensures Map(place, Range(lo, position + 1)) == Map(place, Range(lo, position)) + [place(position)]
  {
  }

  /** The samples of `left` further batches of one rank, from `start` on. */
  ghost function PlacedRegular(place: nat -> PlacedSample, start: nat, left: nat, global: nat, offset: nat,
                               size: nat): seq<PlacedSample>
    decreases left, size
  {
    if left == 0 then []
    else Map(place, Range(start + offset, start + offset + size))
         + PlacedRegular(place, start + global, left - 1, global, offset, size)
  }

  lemma {:induction false} PlacedRegularIsMap(place: nat -> PlacedSample, start: nat, left: nat, global: nat,
                                              offset: nat, size: nat)
    ensures PlacedRegular(place, start, left, global, offset, size)
         == Map(place, RegularPositions(start, left, global, offset, size))
    decreases left
  {
    if left > 0 {
      PlacedRegularIsMap(place, start + global, left - 1, global, offset, size);
      MapConcat(place, Range(start + offset, start + offset + size),
                RegularPositions(start + global, left - 1, global, offset, size));
    }
  }

  lemma PlacedBatch(place: nat -> PlacedSample, output: seq<PlacedSample>, start: nat, left: nat, global: nat,
                    offset: nat, size: nat)
    requires left > 0
    ensures output + PlacedRegular(place, start, left, global, offset, size)
         == output + Map(place, Range(start + offset, start + offset + size))
            + PlacedRegular(place, start + global, left - 1, global, offset, size)
  {
  }

  /** One rank's slice of the global batch that starts at `batchStart`; its coordinates fit 64 bits. */
  method PlaceBatch(m: EpochMap, output: seq<PlacedSample>, batchStart: u64, offset: u64, batchSize: u64)
    returns (r: seq<PlacedSample>)
    requires m.Valid() && batchStart + offset + batchSize < TWO_64
    ensures r == output + Map(Place(m.key, m.n), Range(batchStart + offset, batchStart + offset + batchSize))
  {
    var rankStart: u64 := batchStart + offset;
    var rankEnd: u64 := rankStart + batchSize;
    r := PlaceRange(m, output, rankStart, rankEnd);
  }

  /** The loop over global batches; its coordinate additions never leave 64 bits. */
  method PlaceBatches(m: EpochMap, offset: u64, batchSize: u64, globalBatch: u64, regularEnd: u64, ghost batches: nat)
    returns (output: seq<PlacedSample>)
    requires m.Valid() && globalBatch > 0 && offset + batchSize <= globalBatch
    requires regularEnd == Times(batches, globalBatch)
    ensures output == PlacedRegular(Place(m.key, m.n), 0, batches, globalBatch, offset, batchSize)
  {
    output := [];
    var batchStart: u64 := 0;
    ghost var left := batches;
    ghost var place := Place(m.key, m.n);
    while batchStart < regularEnd
      invariant batchStart + Times(left, globalBatch) == regularEnd
      invariant output + PlacedRegular(place, batchStart, left, globalBatch, offset, batchSize)
             == PlacedRegular(place, 0, batches, globalBatch, offset, batchSize)
      decreases left
    {
      PlacedBatch(place, output, batchStart, left, globalBatch, offset, batchSize);
      output := PlaceBatch(m, output, batchStart, offset, batchSize);
      batchStart := batchStart + globalBatch;
      left := left - 1;
    }
    NoneLeft(left, globalBatch);
  }

  lemma NoneLeft(left: nat, globalBatch: nat)
    requires globalBatch > 0 && Times(left, globalBatch) == 0
    ensures left == 0
  {
  }

  lemma OffsetFits(rank: nat, batchSize: nat, worldSize: nat) returns (offset: nat)
    requires rank < worldSize
    ensures offset == rank * batchSize && offset + batchSize <= batchSize * worldSize
  {
    TimesIsMul(rank, batchSize);
    offset := Times(rank, batchSize);
    MulMonotone(rank + 1, worldSize, batchSize);
    MulAdd(rank, 1, batchSize);
  }

  /** The shared tail of one rank, pushed after its regular batches. */
  method PlaceTail(m: EpochMap, output: seq<PlacedSample>, rank: u64, worldSize: u64, fullEnd: u64)
    returns (r: seq<PlacedSample>)
    requires m.Valid() && rank < worldSize && fullEnd <= m.n
    ensures r == output + Map(Place(m.key, m.n), WrappedShare(fullEnd, m.n - fullEnd, worldSize, rank))
  {
    var tailSize := m.n - fullEnd;
    ShareBelow(tailSize, worldSize, rank);
    var rankStart: u64 := fullEnd + Quotient(WrappingMul(rank, tailSize), worldSize);
    var rankEnd: u64 := fullEnd + Quotient(WrappingMul(rank + 1, tailSize), worldSize);
    if rankStart <= rankEnd {
      r := PlaceRange(m, output, rankStart, rankEnd);
    } else {
      r := output;
      assert Map(Place(m.key, m.n), []) == [];
    }
  }

  /** Wrapping or not, both ends of a share stay within the tail. */
  lemma ShareBelow(tail: u64, world: nat, rank: nat)
    requires rank < world < TWO_64
    ensures Quotient(WrappingMul(rank, tail), world) <= tail
    ensures Quotient(WrappingMul(rank + 1, tail), world) <= tail
  {
    MulMonotone(rank, world, tail);
    MulMonotone(rank + 1, world, tail);
    ReduceBelow(rank * tail, TWO_64);
    ReduceBelow((rank + 1) * tail, TWO_64);
    QuotientBelow(WrappingMul(rank, tail), world, tail);
    QuotientBelow(WrappingMul(rank + 1, tail), world, tail);
  }

  lemma ReduceBelow(a: nat, m: nat)
    requires m > 0
    ensures a % m <= a
  {
    var q, r := DivMod(a, m);
  }

  lemma QuotientBelow(a: nat, w: nat, t: nat)
    requires w > 0 && a <= w * t
    ensures Quotient(a, w) <= t
  {
    var q, r := DivMod(a, w);
    if q > t { MulGap(t, q, w); }
  }

  /** Round the dataset up to whole global batches, unless the result leaves the 64-bit coordinates. */
  method EnginePaddedLen(datasetLen: u64, globalBatch: u64) returns (r: Option<u64>)
    requires globalBatch > 0
    ensures var padded := ((datasetLen + globalBatch - 1) / globalBatch) * globalBatch;
            r == if padded < TWO_64 then Some(padded) else None
  {
    var batches := datasetLen / globalBatch + if datasetLen % globalBatch > 0 then 1 else 0;
    CeilingDivision(datasetLen, globalBatch);
    var padded := batches * globalBatch;
    if padded < TWO_64 {
      r := Some(padded);
    } else {
      r := None;
    }
    if datasetLen == 0 {
      DivModUnique(0, globalBatch, 0, 0);
    }
  }

  lemma CeilingDivision(n: nat, g: nat)
    requires g > 0
    ensures n / g + (if n % g > 0 then 1 else 0) == (n + g - 1) / g
  {
    var q, r := DivMod(n, g);
    if r > 0 {
      MulAdd(q, 1, g);
      DivModUnique(n + g - 1, g, q + 1, r - 1);
    } else {
      DivModUnique(n + g - 1, g, q, g - 1);
    }
  }

  /** What the epoch delivers to one rank: either its placed samples, or why there are none. */
  ghost function PlacementsSpec(request: Request, key: Key): Placements {
    if request.batchSize == 0 then Rejected(ZeroBatchSize)
    else if request.worldSize == 0 then Rejected(ZeroWorldSize)
    else if request.rank >= request.worldSize then Rejected(RankOutOfRange)
    else if request.datasetLen == 0 then Placed([])
    else
      var t := request.Topology();
      if t.GlobalBatch() >= TWO_64 || t.Batches() * t.GlobalBatch() >= TWO_64 then Rejected(CoordinateOverflow)
      else if !Drawable(key, request.datasetLen) then Panicked
      else Placed(Map(Place(key, request.datasetLen), EnginePositions(t, request.rank)))
  }

  method BuildMap(key: Key, n: u64) returns (r: Option<EpochMap>)
    requires n > 0
    ensures r.Some? <==> Drawable(key, n)
    ensures r.Some? ==> r.value.Valid() && r.value.key == key && r.value.n == n
  {
    if n >= FEISTEL_THRESHOLD {
      return Some(EpochMap(key, n, None));
    }
    var drawn := FisherYates.MaterializedUnderKey(key, n);
    if drawn.Panicked? {
      return None;
    }
    r := Some(EpochMap(key, n, Some(drawn.permutation)));
  }

  /** The engine's full and regular ends; `None` when padding leaves the 64-bit coordinates. */
  method RegularEnd(t: Topology, globalBatch: u64) returns (fullEnd: u64, regularEnd: Option<u64>)
    requires t.Valid() && t.datasetLen < TWO_64 && globalBatch == t.GlobalBatch()
    ensures fullEnd == t.FullEnd() <= t.datasetLen
    ensures regularEnd == if t.Batches() * globalBatch < TWO_64 then Some(t.Batches() * globalBatch) else None
  {
    FullEndBelow(t);
    fullEnd := Quotient(t.datasetLen, globalBatch) * globalBatch;
    if t.dropLast || t.exactCount {
      regularEnd := Some(fullEnd);
    } else {
      regularEnd := EnginePaddedLen(t.datasetLen, globalBatch);
    }
  }

  method RankPlacements(request: Request) returns (r: Placements)
    ensures r == PlacementsSpec(request, PermutationKey(request.rootSeed, request.epoch))
  {
    if request.batchSize == 0 {
      return Rejected(ZeroBatchSize);
    }
    if request.worldSize == 0 {
      return Rejected(ZeroWorldSize);
    }
    if request.rank >= request.worldSize {
      return Rejected(RankOutOfRange);
    }
    if request.datasetLen == 0 {
      return Placed([]);
    }
    var globalBatch := request.batchSize * request.worldSize;
    MulPositive(request.batchSize, request.worldSize);
    if globalBatch >= TWO_64 {
      return Rejected(CoordinateOverflow);
    }
    var fullEnd, regularEnd := RegularEnd(request.Topology(), globalBatch);
    if regularEnd.None? {
      return Rejected(CoordinateOverflow);
    }
    var map_ := BuildMap(PermutationKey(request.rootSeed, request.epoch), request.datasetLen);
    if map_.None? {
      return Panicked;
    }
    r := PlaceAll(request, map_.value, globalBatch, fullEnd, regularEnd.value);
  }

  method PlaceAll(request: Request, m: EpochMap, globalBatch: u64, fullEnd: u64, regularEnd: u64)
    returns (r: Placements)
    requires m.Valid() && m.n == request.datasetLen && request.Topology().Valid() && request.rank < request.worldSize
    requires globalBatch == request.Topology().GlobalBatch() && fullEnd == request.Topology().FullEnd() <= m.n
    requires regularEnd == request.Topology().Batches() * globalBatch
    ensures r == Placed(Map(Place(m.key, m.n), EnginePositions(request.Topology(), request.rank)))
  {
    ghost var batches := request.Topology().Batches();
    TimesIsMul(batches, globalBatch);
    ghost var rankOffset := OffsetFits(request.rank, request.batchSize, request.worldSize);
    var offset: u64 := request.rank * request.batchSize;
    var output := PlaceBatches(m, offset, request.batchSize, globalBatch, regularEnd, batches);
    ghost var regular := RegularPositions(0, batches, globalBatch, offset, request.batchSize);
    PlacedRegularIsMap(Place(m.key, m.n), 0, batches, globalBatch, offset, request.batchSize);
    if request.exactCount && !request.dropLast {
      output := PlaceTail(m, output, request.rank, request.worldSize, fullEnd);
    }
    MapConcat(Place(m.key, m.n), regular, EngineTail(request.Topology(), request.rank));
    r := Placed(output);
  }

  // ----- what the answers are -----

  /** A request is refused for its first fault, in the order batch size, world size, rank, coordinates; coordinates
      overflow when the global batch does, or when the tail is padded and no multiple of the global batch from the
      dataset length on fits 64 bits. An empty dataset never overflows. */
  lemma WhyRefused(request: Request, key: Key, g: nat)
    requires g == request.batchSize * request.worldSize
    ensures var r := PlacementsSpec(request, key);
      var member := request.batchSize > 0 && request.rank < request.worldSize;
      && (r == Rejected(ZeroBatchSize) <==> request.batchSize == 0)
      && (r == Rejected(ZeroWorldSize) <==> request.batchSize > 0 && request.worldSize == 0)
      && (r == Rejected(RankOutOfRange)
          <==> request.batchSize > 0 && request.worldSize > 0 && request.rank >= request.worldSize)
      && (r == Rejected(CoordinateOverflow) <==> member && request.datasetLen > 0 && Overflows(request, g))
      && (r == Placed([]) <== member && request.datasetLen == 0)
      && (r.Panicked? <==>
            member && request.datasetLen > 0 && !Overflows(request, g) && !Drawable(key, request.datasetLen))
  {
    if request.batchSize > 0 && request.worldSize > 0 {
      MulPositive(request.batchSize, request.worldSize);
      EndFits(request.Topology(), g);
    }
  }

  ghost predicate Overflows(request: Request, g: nat) {
    || g >= 0x1_0000_0000_0000_0000
    || (!request.dropLast && !request.exactCount && g > 0
        && forall m: nat | m % g == 0 && request.datasetLen <= m :: m >= 0x1_0000_0000_0000_0000)
  }

  lemma EndFits(t: Topology, g: nat)
    requires t.Valid() && t.datasetLen < TWO_64 && g == t.GlobalBatch()
    ensures t.dropLast || t.exactCount ==> t.Batches() * g < TWO_64
    ensures !t.dropLast && !t.exactCount ==>
              (t.Batches() * g < TWO_64 <==> exists m: nat :: m % g == 0 && t.datasetLen <= m < TWO_64)
  {
    FullEndBelow(t);
    if !t.dropLast && !t.exactCount {
      var end := t.Batches() * g;
      PaddedIs(t.datasetLen, g);
      forall m: nat | m % g == 0 && t.datasetLen <= m ensures end <= m {
        LeastMultiple(end, m, t.datasetLen, g);
      }
    }
  }

  lemma LeastMultiple(end: nat, m: nat, n: nat, g: nat)
    requires g > 0 && RoundedUp(end, n, g) && m % g == 0 && n <= m
    ensures end <= m
  {
    var q, r := DivMod(end, g);
    var q', r' := DivMod(m, g);
    if m < end {
      if q' < q { MulGap(q', q, g); } else { MulMonotone(q, q', g); }
    }
  }

  /** Tail position `i` goes to the rank at whose share of the tail, counted out in 64-bit products, it lies: share
      `rank` begins after `rank` times the tail and ends with `rank + 1` times the tail, in units of the world. */
  lemma TailOwner(t: Topology, rank: u64, tail: u64, i: nat)
    requires t.Valid() && t.datasetLen < TWO_64 && rank < t.worldSize < TWO_64 && t.exactCount && !t.dropLast
    requires tail == t.datasetLen - t.FullEnd()
    ensures t.FullEnd() + i in EnginePositions(t, rank)
       <==> (rank * tail) % 0x1_0000_0000_0000_0000 < (i + 1) * t.worldSize
              <= ((rank + 1) * tail) % 0x1_0000_0000_0000_0000
  {
    var batches, global, size := t.Batches(), t.GlobalBatch(), t.batchSize;
    RegularBelowFullEnd(batches, global, size, t.worldSize, rank);
    InShare(t.FullEnd(), tail, t.worldSize, rank, i);
  }

  lemma InShare(fullEnd: nat, tail: u64, world: nat, rank: u64, i: nat)
    requires world > 0 && rank + 1 < TWO_64
    ensures fullEnd + i in WrappedShare(fullEnd, tail, world, rank)
       <==> WrappingMul(rank, tail) < (i + 1) * world <= WrappingMul(rank + 1, tail)
  {
    QuotientAtMost(WrappingMul(rank, tail), world, i);
    QuotientAtMost(WrappingMul(rank + 1, tail), world, i);
    var lo := fullEnd + Quotient(WrappingMul(rank, tail), world);
    var hi := fullEnd + Quotient(WrappingMul(rank + 1, tail), world);
    if lo <= fullEnd + i < hi {
      assert Range(lo, hi)[fullEnd + i - lo] == fullEnd + i;
    }
  }

  lemma QuotientAtMost(a: nat, w: nat, i: nat)
    requires w > 0
    ensures Quotient(a, w) <= i <==> a < (i + 1) * w
  {
    var q, r := DivMod(a, w);
    if q <= i { MulGap(q, i + 1, w); } else { MulMonotone(i + 1, q, w); }
  }
}
