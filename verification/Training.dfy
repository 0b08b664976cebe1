/** Live-training comparison: the collection loop and the validator that every record it builds must satisfy. */
module Training {
  import opened Outcomes

  /** A digest or a chain value, as its hexadecimal text. */
  datatype Hash = Hash(text: string)

  datatype Mode = Upper | Absolute | OtherMode

  datatype DecisionRule = DecisionRule(threshold: real, minPairs: int, maxPairs: int, maxHalfWidth: real, draws: int,
                                       mode: Mode)

  /** `declared` stands for the checks of the declaration itself: dimensions, identity and tuning. */
  datatype Config = Config(subject: string, reference: string, halfSeconds: real, declared: bool,
                           decision: DecisionRule)

  /** `controlled` stands for the checks of lease, load, clocks, power and pulse settings. */
  datatype Environment = Environment(stabilityKey: string, capturedAt: string, controlled: bool)

  datatype Half = Half(system: string, token: string, duration: real, stepStart: int, stepStop: int, samples: int,
                       stepRate: real, sampleRate: real, warmed: bool, chain: Hash, environment: Environment)

  datatype Observation = Observation(ordinal: int, config: Config, first: Half, second: Half, uninterrupted: bool)

  // ----- the validator -----

  predicate HalfOk(half: Half, halfSeconds: real) {
    && half.duration >= halfSeconds && halfSeconds > 0.0
    && half.stepStop - half.stepStart > 0 && half.samples > 0
    && half.stepRate > 0.0 && half.sampleRate > 0.0
    && half.warmed && half.chain.text != "" && half.environment.controlled
  }

  predicate PairOk(o: Observation) {
    && o.first.system == (if o.ordinal % 2 == 0 then o.config.reference else o.config.subject)
    && {o.first.system, o.second.system} == {o.config.reference, o.config.subject}
    && o.uninterrupted && o.second.stepStart == o.first.stepStop && o.first.environment == o.second.environment
    && HalfOk(o.first, o.config.halfSeconds) && HalfOk(o.second, o.config.halfSeconds)
  }

  predicate RuleOk(rule: DecisionRule) {
    && !rule.mode.OtherMode? && rule.threshold >= 0.0 && 1 <= rule.minPairs <= rule.maxPairs
    && rule.maxHalfWidth > 0.0 && rule.draws > 0
  }

  /** What the validator accepts. */
  predicate Accepted(observations: seq<Observation>) {
    && observations != [] && (forall i | 0 <= i < |observations| :: observations[i].ordinal == i)
    && var config := observations[0].config; var first := observations[0].first;
       && config.declared && RuleOk(config.decision)
       && forall i | 0 <= i < |observations| ::
            var o := observations[i];
            && o.config == config && PairOk(o)
            && o.first.environment.stabilityKey == o.second.environment.stabilityKey == first.environment.stabilityKey
            && o.first.token == o.second.token == first.token
  }

  /** A half the validator can compare: by this system, in this process, under these controls, warm, chained, as long
      as declared and with something done. */
  ghost predicate Comparable(half: Half, system: string, config: Config, key: string, token: string) {
    && half.system == system && half.token == token && half.environment.stabilityKey == key
    && half.environment.controlled && half.warmed && half.chain != Hash("")
    && half.duration >= config.halfSeconds && half.stepStart < half.stepStop && half.samples >= 1
    && half.stepRate > 0.0 && half.sampleRate > 0.0
  }

  /** Pair `i` of a point: the reference goes first in even pairs and the subject in odd ones, without a break. */
  ghost predicate Paired(o: Observation, i: nat, config: Config, key: string, token: string) {
    && o.ordinal == i && o.config == config && o.uninterrupted
    && Comparable(o.first, if i % 2 == 0 then config.reference else config.subject, config, key, token)
    && Comparable(o.second, if i % 2 == 0 then config.subject else config.reference, config, key, token)
    && o.second.stepStart == o.first.stepStop && o.second.environment == o.first.environment
  }

  /** Pairs of one declared configuration under one rule that can decide, in one process and environment. */
  ghost predicate PointOf(observations: seq<Observation>, config: Config, key: string, token: string) {
    && config.declared && config.halfSeconds > 0.0
    && (config.decision.mode == Upper || config.decision.mode == Absolute) && config.decision.threshold >= 0.0
    && 0 < config.decision.minPairs <= config.decision.maxPairs
    && config.decision.maxHalfWidth > 0.0 && config.decision.draws > 0
    && forall i | 0 <= i < |observations| :: Paired(observations[i], i, config, key, token)
  }

  /** The validator accepts exactly the points that have a pair. */
  lemma AcceptedIff(observations: seq<Observation>)
    ensures Accepted(observations)
       <==> observations != [] && exists config, key, token :: PointOf(observations, config, key, token)
  {
    if Accepted(observations) {
      var config, first := observations[0].config, observations[0].first;
      forall i | 0 <= i < |observations|
        ensures Paired(observations[i], i, config, first.environment.stabilityKey, first.token)
      {
        OtherSystem(observations[i]);
      }
      assert PointOf(observations, config, first.environment.stabilityKey, first.token);
    }
    if observations != [] && exists config, key, token :: PointOf(observations, config, key, token) {
      var config, key, token :| PointOf(observations, config, key, token);
      forall i | 0 <= i < |observations|
        ensures observations[i].config == config && PairOk(observations[i])
        ensures observations[i].first.token == observations[i].second.token == token
      {
        assert Paired(observations[i], i, config, key, token);
      }
      assert Paired(observations[0], 0, config, key, token);
    }
  }

  lemma OtherSystem(o: Observation)
    requires PairOk(o)
    ensures o.second.system == if o.ordinal % 2 == 0 then o.config.subject else o.config.reference
  {
    assert o.second.system in {o.config.reference, o.config.subject};
    assert o.config.reference in {o.first.system, o.second.system};
    assert o.config.subject in {o.first.system, o.second.system};
  }

  // ----- the decision -----

  datatype Interval = Interval(lower: real, upper: real)

  /** The bootstrap interval of the observed taxes: any fixed function of the observations. */
  type Bootstrap = seq<Observation> -> Interval

  datatype Status = Collect | Pass | Fail

  datatype Decision = Decision(status: Status, pairs: nat, interval: Interval)

  function Abs(x: real): real {
    if x < 0.0 then -x else x
  }

  function Decide(observations: seq<Observation>, bootstrap: Bootstrap): Decision
    requires Accepted(observations)
  {
    var rule := observations[0].config.decision;
    var interval := bootstrap(observations);
    var halfWidth := (interval.upper - interval.lower) / 2.0;
    var count := |observations|;
    var needsPrecision := halfWidth > rule.maxHalfWidth && count < rule.maxPairs;
    var bound := if Abs(interval.lower) > Abs(interval.upper) then Abs(interval.lower) else Abs(interval.upper);
    var status :=
      if count < rule.minPairs || needsPrecision then Collect
      else if (if rule.mode.Upper? then interval.upper else bound) < rule.threshold then Pass
      else Fail;
    Decision(status, count, interval)
  }

  /** What a decision says. More pairs are collected exactly below the least count, or while the interval is too wide
      and the greatest count is not reached. After that an upper rule passes exactly when the interval's upper end is
      below the threshold, and an absolute rule exactly when both ends, and so the whole interval, lie strictly within
      it. */
  lemma DecisionMeaning(observations: seq<Observation>, bootstrap: Bootstrap)
    requires Accepted(observations)
    ensures var d, rule := Decide(observations, bootstrap), observations[0].config.decision;
            var lower, upper := d.interval.lower, d.interval.upper;
            && d.pairs == |observations| && d.interval == bootstrap(observations)
            && (d.status.Collect? <==>
                  || |observations| < rule.minPairs
                  || (upper - lower > 2.0 * rule.maxHalfWidth && |observations| < rule.maxPairs))
            && (!d.status.Collect? && rule.mode.Upper? ==> (d.status.Pass? <==> upper < rule.threshold))
            && (!d.status.Collect? && rule.mode.Absolute? ==>
                  (d.status.Pass? <==> Within(lower, rule.threshold) && Within(upper, rule.threshold)))
            && (!d.status.Collect? && rule.mode.Absolute? && lower <= upper ==>
                  (d.status.Pass? <==> forall x: real | lower <= x <= upper :: Within(x, rule.threshold)))
  {
    var d, rule := Decide(observations, bootstrap), observations[0].config.decision;
    var lower, upper := d.interval.lower, d.interval.upper;
    if lower <= upper && forall x: real | lower <= x <= upper :: Within(x, rule.threshold) {
      assert Within(lower, rule.threshold) && Within(upper, rule.threshold);
    }
  }

  predicate Within(x: real, threshold: real) {
    -threshold < x < threshold
  }

  // ----- hash chains -----

  datatype Link = Link(previous: Hash, digest: Hash)

  function Advanced(advance: Link -> Hash, chain: Hash, digest: Hash): Hash {
    advance(Link(chain, digest))
  }

  /** The chain after every digest in order. */
  function Chained(advance: Link -> Hash, from: Hash, digests: seq<Hash>): Hash {
    if digests == [] then from
    else Advanced(advance, Chained(advance, from, digests[..|digests| - 1]), digests[|digests| - 1])
  }

  lemma {:induction false} ChainedOn(advance: Link -> Hash, from: Hash, a: seq<Hash>, b: seq<Hash>)
    ensures Chained(advance, from, a + b) == Chained(advance, Chained(advance, from, a), b)
  {
    if b == [] {
      assert a + b == a;
    } else {
      assert (a + b)[..|a + b| - 1] == a + b[..|b| - 1];
      ChainedOn(advance, from, a, b[..|b| - 1]);
    }
  }

  // ----- collection -----

  datatype Batch = Batch(digest: Hash, samples: int)

  function BatchAt(supply: nat -> Batch, i: nat): Batch {
    supply(i)
  }

  /** Every batch holds a sample. */
  ghost predicate Fruitful(supply: nat -> Batch) {
    forall i: nat :: BatchAt(supply, i).samples > 0
  }

  /** One feeder: an endless supply of batches, taken in order. */
  class Feeder {
    const system: string
    const supply: nat -> Batch
    var position: nat

    constructor (system: string, supply: nat -> Batch)
      ensures this.system == system && this.supply == supply && position == 0
    {
      this.system, this.supply := system, supply;
      position := 0;
    }

    method NextBatch() returns (batch: Batch)
      modifies this
      ensures batch == BatchAt(supply, old(position)) && position == old(position) + 1
    {
      batch := BatchAt(supply, position);
      position := position + 1;
    }
  }

  function TimeAt(times: nat -> real, i: nat): real {
    times(i)
  }

  /** A clock that never goes back and passes every instant. */
  ghost predicate Ticking(times: nat -> real) {
    && (forall i: nat, j: nat | i <= j :: TimeAt(times, i) <= TimeAt(times, j))
    && (forall bound: real :: Passes(times, bound))
  }

  ghost predicate Passes(times: nat -> real, bound: real) {
    exists i: nat :: PastFrom(times, i, bound)
  }

  ghost predicate PastFrom(times: nat -> real, i: nat, bound: real) {
    forall j: nat | i <= j :: TimeAt(times, j) >= bound
  }

  class Clock {
    const times: nat -> real
    var reading: nat

    constructor (times: nat -> real)
      ensures this.times == times && reading == 0
    {
      this.times := times;
      reading := 0;
    }

    method Now() returns (t: real)
      modifies this
      ensures t == TimeAt(times, old(reading)) && reading == old(reading) + 1
    {
      t := TimeAt(times, reading);
      reading := reading + 1;
    }
  }

  /** The digests of `n` batches of a supply, from its `start`-th on. */
  function Taken(supply: nat -> Batch, start: nat, n: nat): (digests: seq<Hash>)
    ensures |digests| == n
  {
    if n == 0 then [] else Taken(supply, start, n - 1) + [BatchAt(supply, start + n - 1).digest]
  }

  /** The samples in them. */
  function SamplesIn(supply: nat -> Batch, start: nat, n: nat): int {
    if n == 0 then 0 else SamplesIn(supply, start, n - 1) + BatchAt(supply, start + n - 1).samples
  }

  function Steps(half: Half): nat {
    if half.stepStop > half.stepStart then half.stepStop - half.stepStart else 0
  }

  /** The rates are the counts over the duration. */
  ghost predicate Rated(half: Half) {
    && half.stepRate * half.duration == (half.stepStop - half.stepStart) as real
    && half.sampleRate * half.duration == half.samples as real
  }

  /** What one timed half must be, whatever the clock and the batches: long enough, with at least one step, its samples
      and its chain those of the next batches of its feeder. */
  ghost predicate HalfOf(half: Half, system: string, supply: nat -> Batch, position: nat, config: Config,
                         environment: Environment, token: string, stepStart: int, chain: Hash, advance: Link -> Hash) {
    && half.system == system && half.token == token && half.environment == environment && half.warmed
    && half.stepStart == stepStart && half.stepStop > stepStart
    && half.duration >= config.halfSeconds && half.duration > 0.0 && half.samples > 0
    && half.samples == SamplesIn(supply, position, Steps(half))
    && half.stepRate > 0.0 && half.sampleRate > 0.0
    && half.chain == Chained(advance, chain, Taken(supply, position, Steps(half))) && half.chain.text != ""
  }

  /** The chain advanced by `n` batches of a supply, one by one. */
  function Folded(advance: Link -> Hash, chain: Hash, supply: nat -> Batch, start: nat, n: nat): Hash {
    if n == 0 then chain
    else Advanced(advance, Folded(advance, chain, supply, start, n - 1), BatchAt(supply, start + n - 1).digest)
  }

  /** Step until the deadline has passed, and at least once: the clock is read after every step, and only the last
      reading is at or after the deadline. The loop ends because the clock does not stop. */
  method StepUntil(feeder: Feeder, clock: Clock, deadline: real, chain: Hash, advance: Link -> Hash)
    returns (steps: nat, samples: int, current: Hash)
    requires Passes(clock.times, deadline) && Fruitful(feeder.supply)
    modifies feeder, clock
    ensures steps == feeder.position - old(feeder.position) && steps > 0 && samples > 0
    ensures current == Folded(advance, chain, feeder.supply, old(feeder.position), steps)
    ensures samples == SamplesIn(feeder.supply, old(feeder.position), steps)
    ensures clock.reading == old(clock.reading) + steps && TimeAt(clock.times, clock.reading - 1) >= deadline
    ensures forall i: nat | old(clock.reading) <= i < clock.reading - 1 :: TimeAt(clock.times, i) < deadline
  {
    steps, samples, current := 0, 0, chain;
    var now := deadline;
    ghost var start := feeder.position;
    ghost var end: nat :| PastFrom(clock.times, end, deadline);
    ghost var latest := if end < clock.reading then clock.reading else end;
    while steps == 0 || now < deadline
      invariant feeder.position == start + steps && samples >= steps
      invariant samples == SamplesIn(feeder.supply, start, steps) && clock.reading == old(clock.reading) + steps
      invariant forall i: nat | old(clock.reading) <= i < clock.reading - 1 :: TimeAt(clock.times, i) < deadline
      invariant current == Folded(advance, chain, feeder.supply, start, steps)
      invariant steps == 0 || now < deadline ==> clock.reading <= latest
      invariant steps > 0 ==> now == TimeAt(clock.times, clock.reading - 1)
      decreases latest + 1 - clock.reading
    {
      var batch := feeder.NextBatch();
      current := Advanced(advance, current, batch.digest);
      samples := samples + batch.samples;
      steps := steps + 1;
      now := clock.Now();
    }
  }

  /** Folding batches one by one is the chain over their digests. */
  lemma {:induction false} FoldedIsChained(advance: Link -> Hash, chain: Hash, supply: nat -> Batch, start: nat, n: nat)
    ensures Folded(advance, chain, supply, start, n) == Chained(advance, chain, Taken(supply, start, n))
  {
    if n > 0 {
      FoldedIsChained(advance, chain, supply, start, n - 1);
      var digests := Taken(supply, start, n);
      assert digests[..|digests| - 1] == Taken(supply, start, n - 1);
    }
  }

  function Rate(count: int, duration: real): (r: real)
    requires count > 0 && duration > 0.0
    ensures r > 0.0 && r * duration == count as real
  {
    count as real / duration
  }

  /** The record of what was done in a time. */
  method Record(system: string, token: string, duration: real, stepStart: int, steps: nat, samples: int, chain: Hash,
                environment: Environment) returns (half: Half)
    requires duration > 0.0 && steps > 0 && samples > 0
    ensures half == Half(system, token, duration, stepStart, stepStart + steps, samples, half.stepRate, half.sampleRate,
                         true, chain, environment)
    ensures half.stepRate > 0.0 && half.sampleRate > 0.0 && Rated(half)
  {
    half := Half(system, token, duration, stepStart, stepStart + steps, samples, Rate(steps, duration),
                 Rate(samples, duration), true, chain, environment);
  }

  /** One timed half, from a reading of the clock before it to one after it, with one after every step between. */
  method RunHalf(feeder: Feeder, clock: Clock, config: Config, environment: Environment, token: string, stepStart: int,
                 chain: Hash, advance: Link -> Hash) returns (half: Half)
    requires Ticking(clock.times) && config.halfSeconds > 0.0 && Fruitful(feeder.supply) && Hexadecimal(advance)
    modifies feeder, clock
    ensures HalfOf(half, feeder.system, feeder.supply, old(feeder.position), config, environment, token, stepStart,
                   chain, advance)
    ensures feeder.position == old(feeder.position) + Steps(half) && Rated(half)
    ensures clock.reading == old(clock.reading) + Steps(half) + 2
    ensures var times, i := clock.times, old(clock.reading);
            half.duration == TimeAt(times, i + Steps(half) + 1) - TimeAt(times, i)
    ensures var times, i := clock.times, old(clock.reading);
            && TimeAt(times, i + Steps(half)) >= TimeAt(times, i) + config.halfSeconds
            && forall j: nat | i < j < i + Steps(half) :: TimeAt(times, j) < TimeAt(times, i) + config.halfSeconds
  {
    var started := clock.Now();
    assert Passes(clock.times, started + config.halfSeconds);
    var steps, samples, current := StepUntil(feeder, clock, started + config.halfSeconds, chain, advance);
    FoldedIsChained(advance, chain, feeder.supply, old(feeder.position), steps);
    ghost var last := clock.reading - 1;
    var stopped := clock.Now();
    assert TimeAt(clock.times, last) <= stopped;
    half := Record(feeder.system, token, stopped - started, stepStart, steps, samples, current, environment);
  }

  /** Two contiguous timed halves, the second going on from the first one's step and chain. */
  method RunHalves(front: Feeder, back: Feeder, clock: Clock, config: Config, environment: Environment, token: string,
                   stepStart: int, chain: Hash, advance: Link -> Hash) returns (first: Half, second: Half)
    requires front != back && Fruitful(front.supply) && Fruitful(back.supply)
    requires Ticking(clock.times) && config.halfSeconds > 0.0 && Hexadecimal(advance)
    modifies front, back, clock
    ensures HalfOf(first, front.system, front.supply, old(front.position), config, environment, token, stepStart, chain,
                   advance)
    ensures HalfOf(second, back.system, back.supply, old(back.position), config, environment, token, first.stepStop,
                   first.chain, advance)
    ensures front.position == old(front.position) + Steps(first) && back.position == old(back.position) + Steps(second)
  {
    first := RunHalf(front, clock, config, environment, token, stepStart, chain, advance);
    second := RunHalf(back, clock, config, environment, token, first.stepStop, first.chain, advance);
  }

  /** What has been timed: the digests of the batches in order, and where each feeder stands after them. */
  datatype Tape = Tape(digests: seq<Hash>, reference: nat, subject: nat)

  /** What a pair adds to the tape: the reference's batches first when the ordinal is even. */
  function Timed(o: Observation, tape: Tape, reference: nat -> Batch, subject: nat -> Batch): seq<Hash> {
    var a, b := Steps(o.first), Steps(o.second);
    if o.ordinal % 2 == 0 then Taken(reference, tape.reference, a) + Taken(subject, tape.subject, b)
    else Taken(subject, tape.subject, a) + Taken(reference, tape.reference, b)
  }

  /** The tape after one more pair. */
  function Played(o: Observation, tape: Tape, reference: nat -> Batch, subject: nat -> Batch): Tape {
    var a, b := Steps(o.first), Steps(o.second);
    var digests := tape.digests + Timed(o, tape, reference, subject);
    if o.ordinal % 2 == 0 then Tape(digests, tape.reference + a, tape.subject + b)
    else Tape(digests, tape.reference + b, tape.subject + a)
  }

  function TapeOf(observations: seq<Observation>, start: Tape, reference: nat -> Batch, subject: nat -> Batch): Tape {
    if observations == [] then start
    else
      var n := |observations| - 1;
      Played(observations[n], TapeOf(observations[..n], start, reference, subject), reference, subject)
  }

  lemma TapeMore(observations: seq<Observation>, o: Observation, start: Tape, reference: nat -> Batch,
                 subject: nat -> Batch)
    ensures TapeOf(observations + [o], start, reference, subject)
         == Played(o, TapeOf(observations, start, reference, subject), reference, subject)
  {
    assert (observations + [o])[..|observations|] == observations;
  }

  /** The halves are the ones that follow the tape: `front`'s batches first, then `back`'s. */
  lemma HalvesChained(advance: Link -> Hash, chain: Hash, first: Half, second: Half, front: seq<Hash>, back: seq<Hash>)
    requires first.chain == Chained(advance, chain, front) && second.chain == Chained(advance, first.chain, back)
    ensures second.chain == Chained(advance, chain, front + back)
  {
    ChainedOn(advance, chain, front, back);
  }

  /** One observation: the reference first when the ordinal is even, the subject first when it is odd, the second half
      going on from the first one's step and chain. */
  method RunObservation(config: Config, environment: Environment, ordinal: nat, token: string, stepStart: nat,
                        reference: Feeder, subject: Feeder, clock: Clock, chain: Hash, advance: Link -> Hash,
                        ghost tape: Tape) returns (o: Observation)
    requires Running(config, environment, reference, subject, clock) && Hexadecimal(advance)
    requires At(tape, reference, subject)
    modifies reference, subject, clock
    ensures Recorded(config, environment, ordinal, token, stepStart, o)
    ensures At(Played(o, tape, reference.supply, subject.supply), reference, subject)
    ensures Continues(advance, chain, o, Timed(o, tape, reference.supply, subject.supply))
  {
    var first, second;
    if ordinal % 2 == 0 {
      first, second := RunHalves(reference, subject, clock, config, environment, token, stepStart, chain, advance);
      HalvesChained(advance, chain, first, second, Taken(reference.supply, tape.reference, Steps(first)),
                    Taken(subject.supply, tape.subject, Steps(second)));
    } else {
      first, second := RunHalves(subject, reference, clock, config, environment, token, stepStart, chain, advance);
      HalvesChained(advance, chain, first, second, Taken(subject.supply, tape.subject, Steps(first)),
                    Taken(reference.supply, tape.reference, Steps(second)));
    }
    o := Observation(ordinal, config, first, second, true);
  }

  /** Each feeder stands where the tape says. */
  ghost predicate At(tape: Tape, reference: Feeder, subject: Feeder)
    reads reference, subject
  {
    reference.position == tape.reference && subject.position == tape.subject
  }

  /** The pair's chain goes on from `chain` over exactly the digests timed, one for each step. */
  ghost predicate Continues(advance: Link -> Hash, chain: Hash, o: Observation, timed: seq<Hash>) {
    o.second.chain == Chained(advance, chain, timed) && o.second.stepStop == o.first.stepStart + |timed|
  }

  ghost predicate Running(config: Config, environment: Environment, reference: Feeder, subject: Feeder, clock: Clock) {
    && reference != subject
    && Ticking(clock.times) && config.declared && RuleOk(config.decision) && config.halfSeconds > 0.0
    && environment.controlled && reference.system == config.reference && subject.system == config.subject
    && Fruitful(reference.supply) && Fruitful(subject.supply)
  }

  /** An observation the validator accepts as the next of its point, its steps going on from `stepStart`. */
  ghost predicate Recorded(config: Config, environment: Environment, ordinal: nat, token: string, stepStart: int,
                           o: Observation) {
    Member(config, environment, token, ordinal, o) && o.first.stepStart == stepStart
  }

  /** A chain value is never empty. */
  ghost predicate Hexadecimal(advance: Link -> Hash) {
    forall chain: Hash, digest: Hash :: Advanced(advance, chain, digest).text != ""
  }

  // ----- the point -----

  ghost predicate Contiguous(observations: seq<Observation>, warmup: nat) {
    forall i | 0 <= i < |observations| ::
      observations[i].first.stepStart == Reached(observations, i, warmup)
  }

  /** The step reached after the first `n` pairs. */
  function Reached(observations: seq<Observation>, n: nat, warmup: int): int
    requires n <= |observations|
  {
    if n == 0 then warmup else observations[n - 1].second.stepStop
  }

  /** The half collected last. */
  function Last(observations: seq<Observation>): Half
    requires observations != []
  {
    observations[|observations| - 1].second
  }

  /** Collect pairs until the decision is terminal. Every prefix of the observations is accepted by the validator,
      their steps go on from the warmup without a gap, the last chain is the fold over every timed batch of either
      feeder in the order they were timed, none skipped or repeated, and collection stops at the first count where
      the rule decides, between its bounds. */
  method CollectPoint(config: Config, environment: Environment, token: string, reference: Feeder, subject: Feeder,
                      clock: Clock, warmupSteps: nat, emptyChain: Hash, advance: Link -> Hash, bootstrap: Bootstrap)
    returns (result: Decision, observations: seq<Observation>, ghost tape: Tape)
    requires Running(config, environment, reference, subject, clock) && warmupSteps > 0 && Hexadecimal(advance)
    modifies reference, subject, clock
    ensures forall n | 0 < n <= |observations| :: Accepted(observations[..n])
    ensures Accepted(observations) && result == Decide(observations, bootstrap) && !result.status.Collect?
    ensures forall n | 0 < n < |observations| :: Undecided(observations[..n], bootstrap)
    ensures config.decision.minPairs <= |observations| <= config.decision.maxPairs
    ensures Contiguous(observations, 2 * warmupSteps)
    ensures tape == TapeOf(observations, Warmed(old(reference.position), old(subject.position), warmupSteps),
                           reference.supply, subject.supply)
    ensures At(tape, reference, subject)
    ensures Last(observations).chain == Chained(advance, emptyChain, tape.digests)
    ensures Last(observations).stepStop == 2 * warmupSteps + |tape.digests|
  {
    var warmed := WarmUp(reference, subject, warmupSteps);
    var step := warmed.value;
    ghost var start := Warmed(old(reference.position), old(subject.position), warmupSteps);
    tape := start;
    var chain := emptyChain;
    observations := [];
    while true
      invariant Running(config, environment, reference, subject, clock)
      invariant At(tape, reference, subject) && tape == TapeOf(observations, start, reference.supply, subject.supply)
      invariant Collected(config, environment, token, observations, 2 * warmupSteps, step, chain, emptyChain, advance,
                          tape.digests)
      invariant StillOpen(observations, bootstrap)
      invariant |observations| < config.decision.maxPairs
      decreases config.decision.maxPairs - |observations|
    {
      ghost var before := observations;
      var o := RunObservation(config, environment, |observations|, token, step, reference, subject, clock, chain,
                              advance, tape);
      CollectedMore(config, environment, token, observations, 2 * warmupSteps, step, chain, emptyChain, advance,
                    tape.digests, o, Timed(o, tape, reference.supply, subject.supply));
      TapeMore(observations, o, start, reference.supply, subject.supply);
      tape := Played(o, tape, reference.supply, subject.supply);
      observations := observations + [o];
      step := o.second.stepStop;
      chain := o.second.chain;
      CountBounds(config, environment, token, observations, bootstrap);
      result := Decide(observations, bootstrap);
      if !result.status.Collect? {
        PrefixesAccepted(config, environment, token, observations);
        PrefixesUndecided(before, o, bootstrap);
        return;
      }
      OneMoreUndecided(before, o, bootstrap);
    }
  }

  /** Nothing timed yet, each feeder past its warmup batches. */
  function Warmed(reference: nat, subject: nat, steps: nat): Tape {
    Tape([], reference + steps, subject + steps)
  }

  /** A decision falls between the rule's bounds: never before the least count, always by the greatest. */
  lemma CountBounds(config: Config, environment: Environment, token: string, observations: seq<Observation>,
                    bootstrap: Bootstrap)
    requires Uniform(config, environment, token, observations) && observations != []
    requires config.declared && RuleOk(config.decision) && |observations| <= config.decision.maxPairs
    ensures Accepted(observations)
    ensures Decide(observations, bootstrap).status.Collect? ==> |observations| < config.decision.maxPairs
    ensures !Decide(observations, bootstrap).status.Collect? ==> config.decision.minPairs <= |observations|
  {
    UniformAccepted(config, environment, token, observations);
    assert observations[0].config == config;
  }

  ghost predicate Undecided(observations: seq<Observation>, bootstrap: Bootstrap) {
    Accepted(observations) && Decide(observations, bootstrap).status.Collect?
  }

  /** No prefix decides. */
  ghost predicate StillOpen(observations: seq<Observation>, bootstrap: Bootstrap) {
    forall n | 0 < n <= |observations| :: Undecided(observations[..n], bootstrap)
  }

  lemma PrefixesUndecided(before: seq<Observation>, o: Observation, bootstrap: Bootstrap)
    requires StillOpen(before, bootstrap)
    ensures forall n | 0 < n < |before + [o]| :: Undecided((before + [o])[..n], bootstrap)
  {
    assert forall n | 0 < n <= |before| :: (before + [o])[..n] == before[..n];
  }

  lemma OneMoreUndecided(before: seq<Observation>, o: Observation, bootstrap: Bootstrap)
    requires StillOpen(before, bootstrap) && Undecided(before + [o], bootstrap)
    ensures StillOpen(before + [o], bootstrap)
  {
    PrefixesUndecided(before, o, bootstrap);
    assert (before + [o])[..|before| + 1] == before + [o];
  }

  /** What has been collected so far: uniform records, steps without a gap, and the chain over all timed batches. */
  ghost predicate Collected(config: Config, environment: Environment, token: string, observations: seq<Observation>,
                            warmup: nat, step: int, chain: Hash, emptyChain: Hash, advance: Link -> Hash,
                            digests: seq<Hash>) {
    && Uniform(config, environment, token, observations) && Contiguous(observations, warmup)
    && Chains(observations, warmup, step, chain, emptyChain, advance, digests)
  }

  ghost predicate Chains(observations: seq<Observation>, warmup: nat, step: int, chain: Hash, emptyChain: Hash,
                         advance: Link -> Hash, digests: seq<Hash>) {
    && step == warmup + |digests| && chain == Chained(advance, emptyChain, digests)
    && step == Reached(observations, |observations|, warmup)
    && (observations != [] ==> Last(observations).chain == chain)
  }

  lemma ContiguousMore(observations: seq<Observation>, warmup: nat, o: Observation)
    requires Contiguous(observations, warmup)
    requires o.first.stepStart == Reached(observations, |observations|, warmup)
    ensures Contiguous(observations + [o], warmup)
  {
    var all := observations + [o];
    forall i | 0 <= i < |all|
      ensures all[i].first.stepStart == Reached(all, i, warmup)
    {
      assert Reached(all, i, warmup) == Reached(observations, i, warmup);
    }
  }

  lemma UniformMore(config: Config, environment: Environment, token: string, observations: seq<Observation>,
                    o: Observation)
    requires Uniform(config, environment, token, observations) && Member(config, environment, token, |observations|, o)
    ensures Uniform(config, environment, token, observations + [o])
  {
    var all := observations + [o];
    forall i | 0 <= i < |all|
      ensures Member(config, environment, token, i, all[i])
    {
      if i < |observations| { assert Member(config, environment, token, i, observations[i]); }
    }
  }

  lemma ChainsMore(observations: seq<Observation>, warmup: nat, step: nat, chain: Hash, emptyChain: Hash,
                   advance: Link -> Hash, digests: seq<Hash>, o: Observation, timed: seq<Hash>)
    requires Chains(observations, warmup, step, chain, emptyChain, advance, digests)
    requires o.first.stepStart == step && Continues(advance, chain, o, timed)
    ensures Chains(observations + [o], warmup, o.second.stepStop, o.second.chain, emptyChain, advance, digests + timed)
  {
    ChainedOn(advance, emptyChain, digests, timed);
  }

  lemma CollectedMore(config: Config, environment: Environment, token: string, observations: seq<Observation>,
                      warmup: nat, step: nat, chain: Hash, emptyChain: Hash, advance: Link -> Hash,
                      digests: seq<Hash>, o: Observation, timed: seq<Hash>)
    requires Collected(config, environment, token, observations, warmup, step, chain, emptyChain, advance, digests)
    requires Recorded(config, environment, |observations|, token, step, o) && Continues(advance, chain, o, timed)
    ensures Collected(config, environment, token, observations + [o], warmup, o.second.stepStop, o.second.chain,
                      emptyChain, advance, digests + timed)
  {
    ContiguousMore(observations, warmup, o);
    UniformMore(config, environment, token, observations, o);
    ChainsMore(observations, warmup, step, chain, emptyChain, advance, digests, o, timed);
  }

  lemma PrefixesAccepted(config: Config, environment: Environment, token: string, observations: seq<Observation>)
    requires Uniform(config, environment, token, observations) && config.declared && RuleOk(config.decision)
    ensures forall n | 0 < n <= |observations| :: Accepted(observations[..n])
  {
    forall n | 0 < n <= |observations|
      ensures Accepted(observations[..n])
    {
      UniformAccepted(config, environment, token, observations[..n]);
    }
  }

  /** Warm each feeder outside timing; nothing is drawn when the count is refused. */
  method WarmUp(reference: Feeder, subject: Feeder, stepsPerFeeder: int) returns (steps: Option<nat>)
    requires reference != subject
    modifies reference, subject
    ensures steps == if stepsPerFeeder <= 0 then None else Some(2 * stepsPerFeeder)
    ensures reference.position == old(reference.position) + if steps.Some? then stepsPerFeeder else 0
    ensures subject.position == old(subject.position) + if steps.Some? then stepsPerFeeder else 0
  {
    if stepsPerFeeder <= 0 {
      return None;
    }
    var taken := 0;
    for i := 0 to stepsPerFeeder
      invariant taken == i && reference.position == old(reference.position) + i
      invariant subject.position == old(subject.position)
    {
      var _ := reference.NextBatch();
      taken := taken + 1;
    }
    for i := 0 to stepsPerFeeder
      invariant taken == stepsPerFeeder + i && subject.position == old(subject.position) + i
      invariant reference.position == old(reference.position) + stepsPerFeeder
    {
      var _ := subject.NextBatch();
      taken := taken + 1;
    }
    steps := Some(taken);
  }

  /** Observations of one configuration, environment and process, numbered from zero. */
  ghost predicate Uniform(config: Config, environment: Environment, token: string, observations: seq<Observation>) {
    forall i | 0 <= i < |observations| :: Member(config, environment, token, i, observations[i])
  }

  /** A valid record of the configuration, environment and process, with its number. */
  ghost predicate Member(config: Config, environment: Environment, token: string, ordinal: nat, o: Observation) {
    && o.ordinal == ordinal && o.config == config && PairOk(o)
    && o.first.environment == o.second.environment == environment && o.first.token == o.second.token == token
  }

  lemma UniformAccepted(config: Config, environment: Environment, token: string, observations: seq<Observation>)
    requires Uniform(config, environment, token, observations) && observations != []
    requires config.declared && RuleOk(config.decision)
    ensures Accepted(observations)
  {
  }
}
