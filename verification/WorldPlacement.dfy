/** What the engine's placements deliver over a whole world: the samples of every rank put together. */
module WorldPlacement {
  import opened Words
  import opened Outcomes
  import opened Philox
  import opened Streams
  import opened Positions
  import opened Placement
  import opened PlacementEngine

  function AtRank(request: Request, rank: u64): Request {
    request.(rank := rank)
  }

  /** The request is one that the engine answers with samples, over a dataset that is not empty. */
  ghost predicate Answered(request: Request, key: Key) {
    request.datasetLen > 0 && request.worldSize > 0 && PlacementsSpec(AtRank(request, 0), key).Placed?
  }

  /** What ranks 0 to `ranks` - 1 are answered, one after the other. */
  function Joined(answers: nat -> Placements, ranks: nat): seq<PlacedSample> {
    if ranks == 0 then []
    else Joined(answers, ranks - 1) + if answers(ranks - 1).Placed? then answers(ranks - 1).samples else []
  }

  ghost function Answers(request: Request, key: Key): nat -> Placements {
    (rank: nat) => if rank < request.worldSize then PlacementsSpec(AtRank(request, rank), key) else Panicked
  }

  /** The samples of every rank, in rank order. */
  ghost function WorldSamples(request: Request, key: Key): seq<PlacedSample> {
    Joined(Answers(request, key), request.worldSize)
  }

  lemma AnsweredShape(request: Request, key: Key)
    requires Answered(request, key)
    ensures request.Topology().Valid() && Drawable(key, request.datasetLen)
  {
  }

  /** An answered request is answered on every rank, with that rank's positions placed. */
  lemma RankAnswer(request: Request, key: Key, rank: u64)
    requires Answered(request, key) && rank < request.worldSize
    ensures request.Topology().Valid()
    ensures PlacementsSpec(AtRank(request, rank), key)
         == Placed(Map(Place(key, request.datasetLen), EnginePositions(request.Topology(), rank)))
  {
  }

  function Concat(positions: nat -> seq<nat>, ranks: nat): seq<nat> {
    if ranks == 0 then [] else Concat(positions, ranks - 1) + positions(ranks - 1)
  }

  lemma {:induction false} JoinedPlaced(answers: nat -> Placements, positions: nat -> seq<nat>,
                                        place: nat -> PlacedSample, ranks: nat)
    requires forall r: nat | r < ranks :: answers(r) == Placed(Map(place, positions(r)))
    ensures Joined(answers, ranks) == Map(place, Concat(positions, ranks))
  {
    if ranks == 0 {
      assert Map(place, []) == [];
    } else {
      JoinedPlaced(answers, positions, place, ranks - 1);
      MapConcat(place, Concat(positions, ranks - 1), positions(ranks - 1));
    }
  }

  function PositionsAt(t: Topology): nat -> seq<nat>
    requires t.Valid() && t.datasetLen < TWO_64
  {
    (rank: nat) => if rank + 1 < TWO_64 then EnginePositions(t, rank) else []
  }

  lemma {:induction false} EngineWorldIs(t: Topology, ranks: nat)
    requires t.Valid() && t.datasetLen < TWO_64 && ranks < TWO_64
    ensures Concat(PositionsAt(t), ranks) == EngineWorld(t, ranks)
  {
    if ranks > 0 { EngineWorldIs(t, ranks - 1); }
  }

  lemma WorldSamplesPlaced(request: Request, key: Key, t: Topology)
    requires Answered(request, key) && t == request.Topology() && t.Valid()
    ensures WorldSamples(request, key) == Map(Place(key, request.datasetLen), EngineWorld(t, t.worldSize))
  {
    forall r: nat | r < request.worldSize
      ensures Answers(request, key)(r) == Placed(Map(Place(key, request.datasetLen), PositionsAt(t)(r)))
    {
      RankAnswer(request, key, r);
    }
    JoinedPlaced(Answers(request, key), PositionsAt(t), Place(key, request.datasetLen), t.worldSize);
    EngineWorldIs(t, t.worldSize);
  }

  /** No share of the tail wraps: there is none, or world size times tail size fits 64 bits. */
  predicate Unwrapped(t: Topology)
    requires t.Valid()
  {
    t.SharesTail() ==> t.worldSize * t.TailSize() < TWO_64
  }

  /** Then the engine's positions are those of the unbounded placement, for every tail policy. */
  lemma WorldAgrees(t: Topology)
    requires t.Valid() && t.datasetLen < TWO_64 && t.worldSize < TWO_64 && Unwrapped(t)
    ensures EngineWorld(t, t.worldSize) == WorldPositions(t, t.worldSize)
  {
    if t.SharesTail() {
      WorldFits(t, t.TailSize());
    } else {
      forall r: nat | r < t.worldSize
        ensures EnginePositions(t, r) == RankPositions(t, r)
      {
      }
      WorldWithoutWrap(t, t.worldSize);
    }
  }

  function PositionOf(s: PlacedSample): nat {
    s.position
  }

  function IndexOf(s: PlacedSample): nat {
    s.index
  }

  function DeliveredPositions(samples: seq<PlacedSample>): seq<nat> {
    Map(PositionOf, samples)
  }

  function DeliveredIndices(samples: seq<PlacedSample>): seq<nat> {
    Map(IndexOf, samples)
  }

  /** How often a value occurs. */
  function Occurrences(s: seq<nat>, value: nat): nat {
    multiset(s)[value]
  }

  ghost predicate EachOnce(indices: seq<nat>, n: nat) {
    forall index: nat | index < n :: Occurrences(indices, index) == 1
  }

  lemma PlacedParts(key: Key, n: u64, positions: seq<nat>)
    requires n > 0 && Drawable(key, n)
    ensures var samples := Map(Place(key, n), positions);
            && DeliveredPositions(samples) == positions
            && DeliveredIndices(samples) == Map<nat, nat>(IndexAt(key, n), positions)
            && forall i | 0 <= i < |samples| :: samples[i].index == EpochIndex(key, n, samples[i].position % n)
  {
  }

  /** The samples an answered request delivers over all its ranks, when no share wraps: every position of the epoch
      exactly once, each with the index that the epoch permutation gives it, and each dataset index as often as the
      tail policy says: once if the tail is shared, once inside the full batches and not beyond them if it is dropped,
      and the floor or ceiling of delivered / datasetLen times if it is padded. */
  lemma WorldCoverage(request: Request, key: Key, index: nat)
    requires Answered(request, key) && index < request.datasetLen
    requires request.Topology().Valid() && Unwrapped(request.Topology())
    ensures var samples := WorldSamples(request, key);
            && multiset(DeliveredPositions(samples)) == multiset(Range(0, request.Topology().Delivered()))
            && forall i | 0 <= i < |samples| ::
                 && Drawable(key, request.datasetLen)
                 && samples[i].index == EpochIndex(key, request.datasetLen, samples[i].position % request.datasetLen)
    ensures Drawable(key, request.datasetLen)
    ensures var t := request.Topology();
            var position := EpochPosition(key, t.datasetLen, index);
            var times := Occurrences(DeliveredIndices(WorldSamples(request, key)), index);
            && times == ResidueShare(t.Delivered(), t.datasetLen, position)
            && (t.SharesTail() ==> times == 1)
            && (t.dropLast ==> times == if position < t.FullEnd() then 1 else 0)
  {
    AnsweredShape(request, key);
    var t := request.Topology();
    WorldSamplesPlaced(request, key, t);
    WorldAgrees(t);
    PlacedParts(key, t.datasetLen, WorldPositions(t, t.worldSize));
    PositionCoverage(t);
    IndexCoverage(key, t, index);
  }

  /** With a shared tail every sample of the dataset is delivered exactly once if and only if no share wraps; when one
      does, the sample of the last position is delivered to nobody. */
  lemma SharedTailDelivers(request: Request, key: Key)
    requires Answered(request, key) && request.Topology().Valid() && request.Topology().SharesTail()
    ensures EachOnce(DeliveredIndices(WorldSamples(request, key)), request.datasetLen)
       <==> Unwrapped(request.Topology())
  {
    AnsweredShape(request, key);
    var t := request.Topology();
    var indices := DeliveredIndices(WorldSamples(request, key));
    if Unwrapped(t) {
      forall index: nat | index < t.datasetLen
        ensures Occurrences(indices, index) == 1
      {
        WorldCoverage(request, key, index);
      }
    } else {
      var lost := LastLost(request, key);
      assert Occurrences(indices, lost) == 0;
    }
  }

  lemma LastLost(request: Request, key: Key) returns (lost: nat)
    requires Answered(request, key) && request.Topology().Valid() && !Unwrapped(request.Topology())
    ensures lost < request.datasetLen
    ensures lost !in DeliveredIndices(WorldSamples(request, key))
  {
    AnsweredShape(request, key);
    var t := request.Topology();
    var n := t.datasetLen;
    lost := LastIndex(key, n);
    WorldSamplesPlaced(request, key, t);
    WorldWraps(t, t.TailSize());
    PlacedParts(key, n, EngineWorld(t, t.worldSize));
    NotAmong(IndexAt(key, n), n, lost, EngineWorld(t, t.worldSize));
  }

  /** The index of the last position, which no position below has. */
  lemma LastIndex(key: Key, n: u64) returns (lost: nat)
    requires n > 0 && Drawable(key, n)
    ensures lost < n && forall p: nat | p + 1 < n :: IndexAt(key, n)(p) != lost
  {
    lost := EpochIndex(key, n, n - 1);
    EpochBijective(key, n, n - 1, lost);
    forall p: nat | p + 1 < n
      ensures IndexAt(key, n)(p) != lost
    {
      IndexMeets(key, n, lost, p);
      DivModUnique(p, n, 0, p);
    }
  }

  lemma NotAmong(f: nat -> nat, n: nat, lost: nat, positions: seq<nat>)
    requires (forall p: nat | p + 1 < n :: f(p) != lost) && forall p | p in positions :: p < n - 1
    ensures lost !in Map<nat, nat>(f, positions)
  {
    forall i | 0 <= i < |positions|
      ensures f(positions[i]) != lost
    {
      assert positions[i] in positions;
    }
  }
}
