/** Resuming from a checkpoint: the rebuilt iteration and exactly when it continues the interrupted stream. */
module LaneResume {
  import opened Words
  import opened Outcomes
  import opened Lanes
  import opened CompatState
  import opened LaneSystem
  import opened LaneCapture
  import opened LaneInOrder

  datatype LaneSeed = LaneSeed(base: int, worker: nat)
  datatype Draw = Draw(seed: int, generator: Bytes)
  datatype Sampling = Sampling(units: seq<Bytes>, generator: Bytes)

  /** A loader: its lanes, its dataset, and the deterministic functions of its generator: the base seed it draws
      and the sampler's order, each with the state it leaves the generator in; and the state a newly seeded lane starts
      from. */
  datatype Loader = Loader(workers: nat, prefetch: nat, fetch: Request -> Reply, draw: Bytes -> Draw,
                           order: Bytes -> Sampling, seeded: LaneSeed -> Bytes, fingerprint: seq<Element>) {
    ghost predicate Valid() {
      workers > 0 && prefetch > 0
    }
  }

  /** An iteration of the loader begun with its generator at `generator`, its base seed drawn then or kept. */
  ghost predicate Of(loader: Loader, e: Iteration, generator: Bytes, reused: bool) {
    && loader.Valid() && e.Valid() && e.inOrder
    && e.workers == loader.workers && e.prefetch == loader.prefetch && e.fetch == loader.fetch
    && e.units == Skippable(loader.order(if reused then generator else loader.draw(generator).generator).units, e.start)
    && (!reused ==> e.baseSeed == loader.draw(generator).seed)
  }

  /** A sampler's units, with room for as many as are skipped: those are drawn if there are that many, never fetched. */
  function Skippable(units: seq<Bytes>, skip: nat): (r: seq<Bytes>)
    ensures units <= r && skip <= |r|
    ensures skip <= |units| ==> r == units
    ensures |units| < skip ==> |r| == skip
  {
    if skip <= |units| then units else units + seq(skip - |units|, i => [])
  }

  // ----- capture -----

  function StatesOf(captured: seq<TaggedBatch>): (d: ByLane<Bytes>)
    ensures |d| == |captured| && forall i | 0 <= i < |d| :: d[i] == LaneEntry(captured[i].worker, captured[i].state)
  {
    seq(|captured|, i requires 0 <= i < |captured| => LaneEntry(captured[i].worker, captured[i].state))
  }

  function SeedsOf(captured: seq<TaggedBatch>): (d: ByLane<int>)
    ensures |d| == |captured| && forall i | 0 <= i < |d| :: d[i] == LaneEntry(captured[i].worker, captured[i].seed)
  {
    seq(|captured|, i requires 0 <= i < |captured| => LaneEntry(captured[i].worker, captured[i].seed))
  }

  function Capture(loader: Loader, e: Iteration, generator: Bytes, current: Bytes, reused: bool, delivered: nat,
                   position: nat, captured: seq<TaggedBatch>): Checkpoint
    requires e.workers > 0
  {
    Checkpoint(position, delivered, e.workers, delivered % e.workers, reused, Some(e.baseSeed), generator, current,
               StatesOf(captured), SeedsOf(captured), loader.fingerprint)
  }

  /** Every captured checkpoint passes validation unchanged. */
  lemma CaptureAccepted(loader: Loader, e: Iteration, generator: Bytes, current: Bytes, reused: bool, delivered: nat,
                        position: nat, captured: seq<TaggedBatch>, digest: Digest)
    requires e.Valid() && delivered <= position && Captured(e, captured, delivered, position)
    ensures var c := Capture(loader, e, generator, current, reused, delivered, position, captured);
            WellFormed(c) && Parse(ToDict(c, digest), digest) == Ok(c)
  {
    var c := Capture(loader, e, generator, current, reused, delivered, position, captured);
    CapturedLanes(e, captured, delivered, position);
    RoundTrip(c, digest);
  }

  lemma CapturedLanes(e: Iteration, captured: seq<TaggedBatch>, delivered: nat, position: nat)
    requires e.Valid() && Captured(e, captured, delivered, position)
    ensures Keyed(StatesOf(captured), e.workers) && Keyed(SeedsOf(captured), e.workers)
    ensures SameLanes(StatesOf(captured), SeedsOf(captured))
  {
    var d, s := StatesOf(captured), SeedsOf(captured);
    forall i | 0 <= i < |captured|
      ensures Has(d, s[i].lane) && Has(s, d[i].lane)
    {
      assert d[i].lane == captured[i].worker == s[i].lane;
    }
  }

  // ----- resume -----

  function Lookup(d: ByLane<Bytes>, lane: int): Option<Bytes>
    decreases |d|
  {
    if d == [] then None else if d[0].lane == lane then Some(d[0].value) else Lookup(d[1..], lane)
  }

  /** The last value of a path, as a dictionary of the elements would hold it. */
  function ValueAt(elements: seq<Element>, path: Word): Option<Value> {
    if elements == [] then None
    else
      var last := elements[|elements| - 1];
      if last.path == path then Some(last.value) else ValueAt(elements[..|elements| - 1], path)
  }

  predicate SameContract(expected: seq<Element>, actual: seq<Element>) {
    && (forall i | 0 <= i < |expected| :: ValueAt(expected, expected[i].path) == ValueAt(actual, expected[i].path))
    && (forall i | 0 <= i < |actual| :: ValueAt(expected, actual[i].path) == ValueAt(actual, actual[i].path))
  }

  datatype ResumeError = WorkersChanged | ContractChanged | BaseSeedLost | BaseSeedNotReproduced | LaneSeedMismatch

  /** The base seed of the resumed pool: kept, or drawn again and checked. */
  function ResumedSeed(loader: Loader, c: Checkpoint): Result<int, ResumeError> {
    if c.reused then
      if c.baseSeed.None? then Err(BaseSeedLost) else Ok(c.baseSeed.value)
    else
      var seed := loader.draw(c.iteratorGenerator).seed;
      if c.baseSeed.Some? && seed != c.baseSeed.value then Err(BaseSeedNotReproduced) else Ok(seed)
  }

  predicate LaneSeedsAgree(seeds: ByLane<int>, base: int) {
    forall i | 0 <= i < |seeds| :: seeds[i].value == base + seeds[i].lane
  }

  /** A lane starts from its saved state, or from its seed when the checkpoint holds none. */
  function StartState(loader: Loader, c: Checkpoint, base: int, w: nat): Bytes {
    var saved := Lookup(c.laneStates, w);
    if saved.Some? then saved.value else loader.seeded(LaneSeed(base, w))
  }

  /** The iteration a loader rebuilds from a validated checkpoint. */
  function Resume(loader: Loader, c: Checkpoint): Result<Iteration, ResumeError>
    requires WellFormed(c)
  {
    if c.workers != loader.workers then Err(WorkersChanged)
    else if !SameContract(c.fingerprint, loader.fingerprint) then Err(ContractChanged)
    else
      var base :- ResumedSeed(loader, c);
      if !LaneSeedsAgree(c.laneSeeds, base) then Err(LaneSeedMismatch)
      else
        var sampler := if c.reused then c.iteratorGenerator else loader.draw(c.iteratorGenerator).generator;
        Ok(Iteration(Skippable(loader.order(sampler).units, c.delivered), loader.workers, loader.prefetch, true,
                     loader.fetch, c.delivered, c.phase, base,
                     seq(loader.workers, w requires 0 <= w < loader.workers => StartState(loader, c, base, w))))
  }

  lemma {:induction false} LookupAt(d: ByLane<Bytes>, i: nat)
    requires Dictionary(d) && i < |d|
    ensures Lookup(d, d[i].lane) == Some(d[i].value)
    decreases |d|
  {
    if i > 0 { LookupAt(d[1..], i - 1); }
  }

  lemma {:induction false} LookupNone(d: ByLane<Bytes>, lane: int)
    requires forall i | 0 <= i < |d| :: d[i].lane != lane
    ensures Lookup(d, lane) == None
    decreases |d|
  {
    if d != [] { LookupNone(d[1..], lane); }
  }

  /** The saved state of a lane is the one before its first undelivered unit, if that unit was admitted. */
  lemma LookupCaptured(e: Iteration, captured: seq<TaggedBatch>, from: nat, to: nat, w: nat)
    requires e.Valid() && Captured(e, captured, from, to) && w < e.workers && to <= |e.units|
    ensures Lookup(StatesOf(captured), w)
         == if FirstOn(e.workers, from, w) < to then Some(Before(e, FirstOn(e.workers, from, w))) else None
  {
    var d := StatesOf(captured);
    if FirstOn(e.workers, from, w) < to {
      var i :| 0 <= i < |captured| && captured[i].worker == w;
      assert d[i] == LaneEntry(captured[i].worker, captured[i].state);
      LookupAt(d, i);
    } else {
      LookupNone(d, w);
    }
  }

  /** Lanes with an admitted undelivered unit. */
  predicate Covered(e: Iteration, from: nat, to: nat, w: nat)
    requires w < e.workers
  {
    FirstOn(e.workers, from, w) < to
  }

  /** The resumed iteration continues the interrupted one: same units, same seeds, each covered lane from the state
      before its first undelivered unit, every other lane from its seed. */
  ghost predicate Continues(loader: Loader, e: Iteration, e': Iteration, from: nat, to: nat)
    requires e.Valid()
  {
    && e'.Valid() && e'.inOrder && e'.units == e.units && e'.workers == e.workers && e'.prefetch == e.prefetch
    && e'.fetch == e.fetch && e'.start == from && e'.baseSeed == e.baseSeed
    && (forall w {:trigger e'.initial[w]} | 0 <= w < e.workers ::
          e'.initial[w] == if Covered(e, from, to, w) && FirstOn(e.workers, from, w) < |e.units|
                           then Before(e, FirstOn(e.workers, from, w)) else loader.seeded(LaneSeed(e.baseSeed, w)))
  }

  /** Every captured checkpoint of a loader's iteration is accepted by that loader. */
  lemma ResumeAccepted(loader: Loader, e: Iteration, generator: Bytes, current: Bytes, reused: bool, from: nat, to: nat,
                       captured: seq<TaggedBatch>)
    requires Of(loader, e, generator, reused) && e.start <= from <= to <= |e.units| && Captured(e, captured, from, to)
    ensures var c := Capture(loader, e, generator, current, reused, from, to, captured);
            && WellFormed(c) && Resume(loader, c).Ok?
            && Continues(loader, e, Resume(loader, c).value, from, to)
            && Of(loader, Resume(loader, c).value, generator, reused)
  {
    var c := Capture(loader, e, generator, current, reused, from, to, captured);
    CapturedLanes(e, captured, from, to);
    LaneOfIsMod(e.workers, from);
    CapturedSeeds(e, captured, from, to);
    var e' := Resume(loader, c).value;
    forall w | 0 <= w < e.workers
      ensures e'.initial[w] == StartState(loader, c, e.baseSeed, w)
      ensures Lookup(c.laneStates, w)
           == if FirstOn(e.workers, from, w) < to then Some(Before(e, FirstOn(e.workers, from, w))) else None
    {
      LookupCaptured(e, captured, from, to, w);
    }
  }

  lemma CapturedSeeds(e: Iteration, captured: seq<TaggedBatch>, from: nat, to: nat)
    requires e.Valid() && Captured(e, captured, from, to)
    ensures LaneSeedsAgree(SeedsOf(captured), e.baseSeed)
  {
    forall i | 0 <= i < |captured|
      ensures captured[i].seed == e.baseSeed + captured[i].worker
    {
      FirstOnRange(e.workers, from, captured[i].worker);
    }
  }

  // ----- exactly when the stream continues -----

  /** Lane `w` goes on as if never interrupted: it has no undelivered unit, or its state was saved, or its seed
      gives the very state it was in. */
  ghost predicate Restored(loader: Loader, e: Iteration, from: nat, to: nat, w: nat)
    requires e.Valid() && w < e.workers
  {
    var f := FirstOn(e.workers, from, w);
    f < |e.units| ==> Covered(e, from, to, w) || loader.seeded(LaneSeed(e.baseSeed, w)) == Before(e, f)
  }

  lemma {:induction false} BeforeSame(loader: Loader, e: Iteration, e': Iteration, from: nat, to: nat, t: nat)
    requires e.Valid() && e.start <= from <= t < |e.units| && Continues(loader, e, e', from, to)
    requires Restored(loader, e, from, to, LaneOf(e.workers, t))
    ensures Before(e', t) == Before(e, t)
    decreases t
  {
    if t < from + e.workers {
      FirstOnUnique(e.workers, from, LaneOf(e.workers, t), t);
      assert e'.initial[LaneOf(e.workers, t)] == Before(e, t);
    } else {
      BeforeSame(loader, e, e', from, to, t - e.workers);
    }
  }

  lemma {:induction false} StreamSame(e: Iteration, e': Iteration, from: nat, to: nat)
    requires e.Valid() && e'.Valid() && from <= to <= |e.units| == |e'.units|
    requires forall t: nat | from <= t < to :: Expected(e', t) == Expected(e, t)
    ensures Stream(e', from, to) == Stream(e, from, to)
  {
    if from < to { StreamSame(e, e', from, to - 1); }
  }

  /** The resumed iteration produces exactly the undelivered batches of the interrupted one, lanes, seeds and restore
      states included, if and only if every lane is restored. */
  lemma BatchesExact(loader: Loader, e: Iteration, e': Iteration, from: nat, to: nat)
    requires e.Valid() && e.start <= from <= to <= |e.units| && Continues(loader, e, e', from, to)
    ensures Stream(e', from, |e.units|) == Stream(e, from, |e.units|)
       <==> forall w | 0 <= w < e.workers :: Restored(loader, e, from, to, w)
  {
    if forall w | 0 <= w < e.workers :: Restored(loader, e, from, to, w) {
      forall t: nat | from <= t < |e.units|
        ensures Expected(e', t) == Expected(e, t)
      {
        BeforeSame(loader, e, e', from, to, t);
      }
      StreamSame(e, e', from, |e.units|);
    }
    if Stream(e', from, |e.units|) == Stream(e, from, |e.units|) {
      forall w | 0 <= w < e.workers
        ensures Restored(loader, e, from, to, w)
      {
        SameStreamRestores(loader, e, e', from, to, w);
      }
    }
  }

  /** What the training loop sees of batches. */
  function Values(batches: seq<TaggedBatch>): (values: seq<Bytes>)
    ensures |values| == |batches| && forall i | 0 <= i < |values| :: values[i] == batches[i].value
  {
    seq(|batches|, i requires 0 <= i < |batches| => batches[i].value)
  }

  /** The value of a fetch shows the state it was fetched from. */
  ghost predicate Revealing(fetch: Request -> Reply) {
    forall payload: Bytes, a: Bytes, b: Bytes ::
      fetch(Request(payload, a)).value == fetch(Request(payload, b)).value ==> a == b
  }

  /** The values the resumed iteration delivers are exactly the undelivered values of the interrupted one if every lane
      is restored; and only if, for every dataset whose values show the lane state they were fetched from. */
  lemma ResumeExact(loader: Loader, e: Iteration, e': Iteration, from: nat, to: nat)
    requires e.Valid() && e.start <= from <= to <= |e.units| && Continues(loader, e, e', from, to)
    ensures (forall w | 0 <= w < e.workers :: Restored(loader, e, from, to, w)) ==>
              Values(Stream(e', from, |e.units|)) == Values(Stream(e, from, |e.units|))
    ensures Revealing(e.fetch) && Values(Stream(e', from, |e.units|)) == Values(Stream(e, from, |e.units|)) ==>
              forall w | 0 <= w < e.workers :: Restored(loader, e, from, to, w)
  {
    BatchesExact(loader, e, e', from, to);
    if Revealing(e.fetch) && Values(Stream(e', from, |e.units|)) == Values(Stream(e, from, |e.units|)) {
      forall w | 0 <= w < e.workers
        ensures Restored(loader, e, from, to, w)
      {
        SameValuesRestore(loader, e, e', from, to, w);
      }
    }
  }

  lemma SameValuesRestore(loader: Loader, e: Iteration, e': Iteration, from: nat, to: nat, w: nat)
    requires e.Valid() && e.start <= from <= to <= |e.units| && Continues(loader, e, e', from, to) && w < e.workers
    requires Revealing(e.fetch) && Values(Stream(e', from, |e.units|)) == Values(Stream(e, from, |e.units|))
    ensures Restored(loader, e, from, to, w)
  {
    var f := FirstOn(e.workers, from, w);
    FirstOnRange(e.workers, from, w);
    if f < |e.units| {
      StreamAt(e, from, |e.units|, f);
      StreamAt(e', from, |e.units|, f);
      assert Values(Stream(e, from, |e.units|))[f - from] == Expected(e, f).value;
      assert Values(Stream(e', from, |e.units|))[f - from] == Expected(e', f).value;
      assert Before(e', f) == Before(e, f) && e'.initial[w] == Before(e', f);
    }
  }

  lemma SameStreamRestores(loader: Loader, e: Iteration, e': Iteration, from: nat, to: nat, w: nat)
    requires e.Valid() && e.start <= from <= to <= |e.units| && Continues(loader, e, e', from, to) && w < e.workers
    requires Stream(e', from, |e.units|) == Stream(e, from, |e.units|)
    ensures Restored(loader, e, from, to, w)
  {
    var f := FirstOn(e.workers, from, w);
    FirstOnRange(e.workers, from, w);
    if f < |e.units| {
      StreamAt(e, from, |e.units|, f);
      StreamAt(e', from, |e.units|, f);
      assert Before(e', f) == Before(e, f) && e'.initial[w] == Before(e', f);
    }
  }

  /** With the sampler exhausted, or a unit admitted on every lane, every lane is restored. A delivery fills the
      lanes to the limit, so this holds of every capture after a delivery. */
  lemma CoveredRestores(loader: Loader, e: Iteration, from: nat, to: nat)
    requires e.Valid() && from <= to <= |e.units| && (to == |e.units| || to - from >= e.workers)
    ensures forall w | 0 <= w < e.workers :: Restored(loader, e, from, to, w)
  {
    forall w | 0 <= w < e.workers
      ensures Restored(loader, e, from, to, w)
    {
      FirstOnRange(e.workers, from, w);
    }
  }

  /** `e'` takes up an iteration of the loader captured with `from` units delivered and `to` admitted. */
  ghost predicate TakenUp(loader: Loader, e: Iteration, e': Iteration, generator: Bytes, reused: bool,
                          units: seq<Bytes>, workers: nat, prefetch: nat, from: nat, to: nat) {
    && Of(loader, e, generator, reused) && e.units == units && e.workers == workers && e.prefetch == prefetch
    && e.start <= from <= to <= |units| && Continues(loader, e, e', from, to)
  }

  /** Whatever the dataset, the seeding and the states the lanes began from, the values delivered after resuming are the
      undelivered ones, if and only if when the capture is taken the sampler is exhausted or at least one unit for
      each lane is admitted and undelivered. */
  lemma CaptureExactIff(units: seq<Bytes>, workers: nat, prefetch: nat, from: nat, to: nat)
    requires workers > 0 && prefetch > 0 && from <= to <= |units|
    ensures (forall loader, e, e', generator, reused |
               TakenUp(loader, e, e', generator, reused, units, workers, prefetch, from, to) ::
               Values(Stream(e', from, |units|)) == Values(Stream(e, from, |units|)))
       <==> to == |units| || to - from >= workers
  {
    if to == |units| || to - from >= workers {
      forall loader, e, e', generator, reused |
        TakenUp(loader, e, e', generator, reused, units, workers, prefetch, from, to)
        ensures Values(Stream(e', from, |units|)) == Values(Stream(e, from, |units|))
      {
        CoveredRestores(loader, e, from, to);
        ResumeExact(loader, e, e', from, to);
      }
    } else {
      var loader, e, e' := UncoveredLoses(units, workers, prefetch, from, to);
      assert TakenUp(loader, e, e', [], true, units, workers, prefetch, from, to);
    }
  }

  /** A loader whose values are the lane states they are fetched from; a new lane's state is empty. */
  function StateShowing(units: seq<Bytes>, workers: nat, prefetch: nat): Loader {
    Loader(workers, prefetch, (q: Request) => Reply(q.state, q.state), (g: Bytes) => Draw(0, g),
           (g: Bytes) => Sampling(units, g), (s: LaneSeed) => [], [])
  }

  /** Its iteration over lanes left in another state than a new lane's. */
  function UsedLanes(units: seq<Bytes>, workers: nat, prefetch: nat, start: nat): Iteration
    requires workers > 0
  {
    Iteration(units, workers, prefetch, true, StateShowing(units, workers, prefetch).fetch, start,
              LaneOf(workers, start), 0, seq(workers, i => [1]))
  }

  /** What any capture of the iteration is rebuilt to. */
  function Rebuilt(loader: Loader, e: Iteration, from: nat, to: nat): Iteration
    requires e.Valid()
  {
    e.(start := from, phase := LaneOf(e.workers, from),
       initial := seq(e.workers, w requires 0 <= w < e.workers =>
         if Covered(e, from, to, w) && FirstOn(e.workers, from, w) < |e.units|
         then Before(e, FirstOn(e.workers, from, w)) else loader.seeded(LaneSeed(e.baseSeed, w))))
  }

  lemma RebuiltContinues(loader: Loader, e: Iteration, from: nat, to: nat)
    requires e.Valid() && e.inOrder && from <= |e.units|
    ensures Continues(loader, e, Rebuilt(loader, e, from, to), from, to)
  {
  }

  /** With fewer units admitted than lanes, and more units to come, some lane's state is lost, and its next value. */
  lemma UncoveredLoses(units: seq<Bytes>, workers: nat, prefetch: nat, from: nat, to: nat)
    returns (loader: Loader, e: Iteration, e': Iteration)
    requires workers > 0 && prefetch > 0 && from <= to < |units| && to - from < workers
    ensures TakenUp(loader, e, e', [], true, units, workers, prefetch, from, to)
    ensures Values(Stream(e', from, |units|)) != Values(Stream(e, from, |units|))
  {
    loader, e := StateShowing(units, workers, prefetch), UsedLanes(units, workers, prefetch, from);
    e' := Rebuilt(loader, e, from, to);
    RebuiltContinues(loader, e, from, to);
    var w := LaneOf(workers, to);
    FirstOnUnique(workers, from, w, to);
    UndeliveredRestores(loader, e, to, w);
    assert !Restored(loader, e, from, to, w);
    assert Revealing(e.fetch);
    ResumeExact(loader, e, e', from, to);
  }

  /** The lanes' states once the `admitted` units have run: each the one before its next task, had there been one. */
  ghost function LanesLeft(e: Iteration, admitted: nat): (left: seq<Bytes>)
    requires e.Valid() && admitted <= |e.units|
    ensures |left| == e.workers
  {
    seq(e.workers, w requires 0 <= w < e.workers =>
      FirstOnRange(e.workers, admitted, w);
      Before(e, FirstOn(e.workers, admitted, w)))
  }

  /** Lane `w` starts the resumed iteration in the state the interrupted one would have gone on from. */
  ghost predicate Kept(loader: Loader, e: Iteration, from: nat, to: nat, w: nat)
    requires e.Valid() && from <= |e.units| && w < e.workers
  {
    FirstOnRange(e.workers, from, w);
    Covered(e, from, to, w) || loader.seeded(LaneSeed(e.baseSeed, w)) == Before(e, FirstOn(e.workers, from, w))
  }

  /** The state a fetch leaves shows the state it was fetched from. */
  ghost predicate Reversible(fetch: Request -> Reply) {
    forall payload: Bytes, a: Bytes, b: Bytes ::
      fetch(Request(payload, a)).state == fetch(Request(payload, b)).state ==> a == b
  }

  /** From its first task on, a lane's states agree as long as they agreed there; and only then, if fetches can be
      reversed. */
  lemma {:induction false} StatesAgree(loader: Loader, e: Iteration, e': Iteration, from: nat, to: nat, w: nat, t: nat)
    requires e.Valid() && e.start <= from <= to <= |e.units| && Continues(loader, e, e', from, to) && w < e.workers
    requires from <= t < |e.units| + e.workers && LaneOf(e.workers, t) == w
    ensures Kept(loader, e, from, to, w) ==> Before(e', t) == Before(e, t)
    ensures Reversible(e.fetch) && Before(e', t) == Before(e, t) ==> Kept(loader, e, from, to, w)
    decreases t
  {
    if t < from + e.workers {
      FirstOnUnique(e.workers, from, w, t);
      assert Before(e', t) == e'.initial[w];
    } else {
      StatesAgree(loader, e, e', from, to, w, t - e.workers);
      BeforeNext(e, t - e.workers);
      BeforeNext(e', t - e.workers);
    }
  }

  /** The resumed epoch leaves the lanes as the uninterrupted one would have if every lane was kept; and only if, for
      every dataset whose fetches can be reversed. */
  lemma LanesLeftSame(loader: Loader, e: Iteration, e': Iteration, from: nat, to: nat)
    requires e.Valid() && e.start <= from <= to <= |e.units| && Continues(loader, e, e', from, to)
    ensures (forall w | 0 <= w < e.workers :: Kept(loader, e, from, to, w)) ==>
              LanesLeft(e', |e.units|) == LanesLeft(e, |e.units|)
    ensures Reversible(e.fetch) && LanesLeft(e', |e.units|) == LanesLeft(e, |e.units|) ==>
              forall w | 0 <= w < e.workers :: Kept(loader, e, from, to, w)
  {
    var n := |e.units|;
    forall w | 0 <= w < e.workers
      ensures LanesLeft(e, n)[w] == Before(e, FirstOn(e.workers, n, w))
      ensures LanesLeft(e', n)[w] == Before(e', FirstOn(e.workers, n, w))
      ensures Kept(loader, e, from, to, w) ==> LanesLeft(e', n)[w] == LanesLeft(e, n)[w]
      ensures Reversible(e.fetch) && LanesLeft(e', n)[w] == LanesLeft(e, n)[w] ==> Kept(loader, e, from, to, w)
    {
      FirstOnRange(e.workers, n, w);
      StatesAgree(loader, e, e', from, to, w, FirstOn(e.workers, n, w));
    }
  }

  /** Whatever the dataset, the seeding and the states the lanes began from, the next epoch over the retained lanes goes
      on from the states of the uninterrupted one, if and only if when the capture is taken at least one unit for each
      lane is admitted and undelivered. */
  lemma LanesLeftIff(units: seq<Bytes>, workers: nat, prefetch: nat, from: nat, to: nat)
    requires workers > 0 && prefetch > 0 && from <= to <= |units|
    ensures (forall loader, e, e', generator, reused |
               TakenUp(loader, e, e', generator, reused, units, workers, prefetch, from, to) ::
               LanesLeft(e', |units|) == LanesLeft(e, |units|))
       <==> to - from >= workers
  {
    if to - from >= workers {
      forall loader, e, e', generator, reused |
        TakenUp(loader, e, e', generator, reused, units, workers, prefetch, from, to)
        ensures LanesLeft(e', |units|) == LanesLeft(e, |units|)
      {
        forall w | 0 <= w < e.workers
          ensures Kept(loader, e, from, to, w)
        {
          FirstOnRange(e.workers, from, w);
        }
        LanesLeftSame(loader, e, e', from, to);
      }
    } else {
      var loader, e, e' := UncoveredLaneLost(units, workers, prefetch, from, to);
      assert TakenUp(loader, e, e', [], true, units, workers, prefetch, from, to);
    }
  }

  lemma UncoveredLaneLost(units: seq<Bytes>, workers: nat, prefetch: nat, from: nat, to: nat)
    returns (loader: Loader, e: Iteration, e': Iteration)
    requires workers > 0 && prefetch > 0 && from <= to <= |units| && to - from < workers
    ensures TakenUp(loader, e, e', [], true, units, workers, prefetch, from, to)
    ensures LanesLeft(e', |units|) != LanesLeft(e, |units|)
  {
    loader, e := StateShowing(units, workers, prefetch), UsedLanes(units, workers, prefetch, from);
    e' := Rebuilt(loader, e, from, to);
    RebuiltContinues(loader, e, from, to);
    var w := LaneOf(workers, to);
    FirstOnUnique(workers, from, w, to);
    assert !Kept(loader, e, from, to, w);
    assert Reversible(e.fetch);
    LanesLeftSame(loader, e, e', from, to);
  }

  /** Before any delivery a lane is restored, covered or not, exactly when it is idle or began from its seed: so
      always for the first iterator of a new pool. */
  lemma UndeliveredRestores(loader: Loader, e: Iteration, to: nat, w: nat)
    requires e.Valid() && e.start <= to && w < e.workers && !Covered(e, e.start, to, w)
    ensures Restored(loader, e, e.start, to, w)
       <==> FirstOn(e.workers, e.start, w) < |e.units| ==> e.initial[w] == loader.seeded(LaneSeed(e.baseSeed, w))
  {
    FirstOnRange(e.workers, e.start, w);
  }

  lemma {:induction false} StreamSplit(e: Iteration, a: nat, b: nat, to: nat)
    requires e.Valid() && a <= b <= to <= |e.units|
    ensures Stream(e, a, b) + Stream(e, b, to) == Stream(e, a, to)
  {
    if b < to {
      StreamSplit(e, a, b, to - 1);
    } else {
      assert Stream(e, b, to) == [];
    }
  }

  /** Interrupt any run anywhere, resume from its capture and run to the end, each in any interleaving: the values the
      two delivered together are the uninterrupted values if every lane was restored; and only if, for every dataset
      whose values show the lane state they were fetched from. */
  lemma InterruptedRunCompletes(loader: Loader, e: Iteration, generator: Bytes, current: Bytes, reused: bool,
                                moves: seq<Move>, captured: seq<TaggedBatch>, e': Iteration, moves': seq<Move>)
    requires Of(loader, e, generator, reused)
    requires var s := AfterAll(e, Begin(e), moves).system;
             && e.start <= s.nextDelivery <= s.nextTask <= |e.units|
             && Captured(e, captured, s.nextDelivery, s.nextTask)
             && var c := Capture(loader, e, generator, current, reused, s.nextDelivery, s.nextTask, captured);
                WellFormed(c) && Resume(loader, c) == Ok(e')
    requires e'.Valid() && forall m :: !Enabled(e', AfterAll(e', Begin(e'), moves').system, m)
    ensures var r := AfterAll(e, Begin(e), moves);
            var whole := Values(r.delivered) + Values(AfterAll(e', Begin(e'), moves').delivered)
                      == Values(Stream(e, e.start, |e.units|));
            var restored := forall w | 0 <= w < e.workers ::
                              Restored(loader, e, r.system.nextDelivery, r.system.nextTask, w);
            (restored ==> whole) && (Revealing(e.fetch) && whole ==> restored)
  {
    var r := AfterAll(e, Begin(e), moves);
    var from, to := r.system.nextDelivery, r.system.nextTask;
    EveryRun(e, moves);
    ResumeAccepted(loader, e, generator, current, reused, from, to, captured);
    EveryFullRun(e', moves');
    ResumeExact(loader, e, e', from, to);
    StreamSplit(e, e.start, from, |e.units|);
    ValuesSplit(Stream(e, e.start, from), Stream(e, from, |e.units|));
    SameSuffix(Values(Stream(e, e.start, from)), Values(Stream(e, from, |e.units|)),
               Values(Stream(e', from, |e.units|)));
  }

  lemma ValuesSplit(a: seq<TaggedBatch>, b: seq<TaggedBatch>)
    ensures Values(a + b) == Values(a) + Values(b)
  {
  }

  lemma SameSuffix(a: seq<Bytes>, b: seq<Bytes>, c: seq<Bytes>)
    ensures a + b == a + c <==> b == c
  {
    assert (a + b)[|a|..] == b && (a + c)[|a|..] == c;
  }

  // ----- how iterations begin -----

  /** The first iterator over a new pool: the base seed is drawn and every lane starts from its seed. */
  function Fresh(loader: Loader, generator: Bytes): Iteration {
    var d := loader.draw(generator);
    Iteration(loader.order(d.generator).units, loader.workers, loader.prefetch, true, loader.fetch, 0, 0, d.seed,
              seq(loader.workers, w requires 0 <= w < loader.workers => loader.seeded(LaneSeed(d.seed, w))))
  }

  /** A later iterator over retained lanes: the base seed is kept and every lane goes on from where it was left. */
  function Retained(loader: Loader, generator: Bytes, base: int, left: seq<Bytes>): Iteration {
    Iteration(loader.order(generator).units, loader.workers, loader.prefetch, true, loader.fetch, 0, 0, base, left)
  }

  /** A first iterator over a new pool resumes exactly from every capture before its first delivery too. */
  lemma FreshRestores(loader: Loader, generator: Bytes, to: nat)
    requires loader.Valid()
    ensures Of(loader, Fresh(loader, generator), generator, false)
    ensures forall w | 0 <= w < loader.workers :: Restored(loader, Fresh(loader, generator), 0, to, w)
  {
    var e := Fresh(loader, generator);
    assert LaneOf(loader.workers, 0) == 0;
    forall w | 0 <= w < loader.workers
      ensures Restored(loader, e, 0, to, w)
    {
      if !Covered(e, 0, to, w) { UndeliveredRestores(loader, e, to, w); }
    }
  }

  /** A later iterator resumes exactly from a capture before its first delivery only if each lane that has a unit but
      none admitted was left in its seed's state. */
  lemma RetainedRestores(loader: Loader, generator: Bytes, base: int, left: seq<Bytes>, to: nat, w: nat)
    requires loader.Valid() && |left| == loader.workers && to <= w
    requires w < loader.workers <= |loader.order(generator).units|
    ensures Of(loader, Retained(loader, generator, base, left), generator, true)
    ensures Restored(loader, Retained(loader, generator, base, left), 0, to, w)
        <==> left[w] == loader.seeded(LaneSeed(base, w))
  {
    assert LaneOf(loader.workers, 0) == 0;
    UndeliveredRestores(loader, Retained(loader, generator, base, left), to, w);
  }

  // ----- a capture that loses a lane's state -----

  /** Two lanes, one unit of prefetch, four units; a value is its unit followed by its lane's state, which every fetch
      lengthens. */
  function TwoLanes(): Loader {
    Loader(2, 1, (q: Request) => Reply(q.payload + q.state, q.state + [1]), (g: Bytes) => Draw(0, g),
           (g: Bytes) => Sampling([[0], [1], [2], [3]], g), (s: LaneSeed) => [], [])
  }

  /** The same loader resumed after two deliveries, each lane from its saved state. */
  function ResumedTwoLanes(): Iteration {
    Iteration([[0], [1], [2], [3]], 2, 1, true, TwoLanes().fetch, 2, 0, 0, [[1], [1]])
  }

  lemma TwoLanesPlaced()
    ensures LaneOf(2, 2) == 0 && FirstOn(2, 2, 0) == 2 && FirstOn(2, 2, 1) == 3
  {
    assert LaneOf(2, 0) == 0;
  }

  lemma TwoLanesResumed()
    ensures Continues(TwoLanes(), Fresh(TwoLanes(), []), ResumedTwoLanes(), 2, 4)
    ensures Of(TwoLanes(), ResumedTwoLanes(), [], false)
  {
    TwoLanesPlaced();
    var first := Fresh(TwoLanes(), []);
    assert Before(first, 2) == [1] && Before(first, 3) == [1];
  }

  lemma TwoLanesCaptured() returns (captured: seq<TaggedBatch>)
    ensures Captured(ResumedTwoLanes(), captured, 2, 3)
  {
    TwoLanesPlaced();
    captured := [Expected(ResumedTwoLanes(), 2)];
    assert captured[0].worker == 0;
  }

  lemma TwoLanesNotRestored()
    ensures !Restored(TwoLanes(), ResumedTwoLanes(), 2, 3, 1)
  {
    TwoLanesPlaced();
    UndeliveredRestores(TwoLanes(), ResumedTwoLanes(), 3, 1);
  }

  lemma TwoLanesReveal()
    ensures Revealing(TwoLanes().fetch)
  {
    var fetch := TwoLanes().fetch;
    forall payload: Bytes, a: Bytes, b: Bytes | fetch(Request(payload, a)).value == fetch(Request(payload, b)).value
      ensures a == b
    {
      assert (payload + a)[|payload|..] == a && (payload + b)[|payload|..] == b;
    }
  }

  /** A capture that leaves some lane unrestored resumes to other values. */
  lemma UnrestoredDiffers(loader: Loader, e: Iteration, generator: Bytes, reused: bool, from: nat, to: nat, w: nat,
                          captured: seq<TaggedBatch>) returns (again: Iteration)
    requires Of(loader, e, generator, reused) && e.start <= from <= to <= |e.units| && Captured(e, captured, from, to)
    requires w < e.workers && !Restored(loader, e, from, to, w) && Revealing(e.fetch)
    ensures Continues(loader, e, again, from, to)
    ensures Values(Stream(again, from, |e.units|)) != Values(Stream(e, from, |e.units|))
  {
    ResumeAccepted(loader, e, generator, [], reused, from, to, captured);
    again := Resume(loader, Capture(loader, e, generator, [], reused, from, to, captured)).value;
    ResumeExact(loader, e, again, from, to);
  }

  /** A resumed iterator admits one prefetch factor's worth of units until its first delivery. Captured then, with
      fewer units admitted than lanes, it saves no state for the others, and resuming that capture starts them from
      their seeds again: the values delivered are not the interrupted ones. */
  lemma CaptureBeforeDeliveryLosesState() returns (captured: seq<TaggedBatch>, again: Iteration)
    ensures var e := ResumedTwoLanes();
            && Continues(TwoLanes(), Fresh(TwoLanes(), []), e, 2, 4)
            && Of(TwoLanes(), e, [], false) && Captured(e, captured, e.start, e.start + e.prefetch)
            && Continues(TwoLanes(), e, again, e.start, e.start + e.prefetch)
            && Values(Stream(again, e.start, |e.units|)) != Values(Stream(e, e.start, |e.units|))
  {
    TwoLanesResumed();
    captured := TwoLanesCaptured();
    TwoLanesNotRestored();
    TwoLanesReveal();
    again := UnrestoredDiffers(TwoLanes(), ResumedTwoLanes(), [], false, 2, 3, 1, captured);
  }
}
