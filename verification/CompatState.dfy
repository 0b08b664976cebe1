/** Checkpoints of an in-order iterator: their public dictionary form and its validation. */
module CompatState {
  import opened Outcomes
  import opened Lanes

  /** Text, with the words of the checkpoint format set apart from all other text. */
  datatype Word =
    | Kind | CompatMulti | SamplerPosition | DeliveredCursor | NumWorkers | AssignmentPhase | ReusedBaseSeed | BaseSeed
    | IteratorGenerator | CurrentGenerator | LaneStatesWord | LaneSeedsWord | FingerprintWord
    | DigestWord | ElementsWord | Path | ValueWord | Other(text: string)

  /** Values a state dictionary can hold; a dictionary keeps its entries in order, each key once. */
  datatype Value =
    | Integer(i: int) | Boolean(b: bool) | Octets(bytes: Bytes) | Text(text: Word) | Nothing
    | List(items: seq<Value>) | Dict(entries: Entries)
  datatype Entries = NoEntries | Entry(key: Value, value: Value, rest: Entries)

  datatype StateError = TypeError | ValueError

  /** A dictionary from lane numbers, in insertion order. */
  datatype LaneEntry<T> = LaneEntry(lane: int, value: T)
  type ByLane<T> = seq<LaneEntry<T>>

  datatype Element = Element(path: Word, value: Value)

  /** The digest of a fingerprint's elements: any fixed function of them. */
  type Digest = seq<Element> -> Word

  datatype Checkpoint = Checkpoint(samplerPosition: int, delivered: int, workers: int, phase: int, reused: bool,
                                   baseSeed: Option<int>, iteratorGenerator: Bytes, currentGenerator: Bytes,
                                   laneStates: ByLane<Bytes>, laneSeeds: ByLane<int>, fingerprint: seq<Element>)

  // ----- to the public form -----

  function StateEntries(d: ByLane<Bytes>): Entries {
    if d == [] then NoEntries else Entry(Integer(d[0].lane), Octets(d[0].value), StateEntries(d[1..]))
  }

  function SeedEntries(d: ByLane<int>): Entries {
    if d == [] then NoEntries else Entry(Integer(d[0].lane), Integer(d[0].value), SeedEntries(d[1..]))
  }

  function ElementValues(elements: seq<Element>): (r: seq<Value>)
    ensures |r| == |elements|
  {
    if elements == [] then []
    else [Dict(Entry(Text(Path), Text(elements[0].path), Entry(Text(ValueWord), elements[0].value, NoEntries)))]
         + ElementValues(elements[1..])
  }

  function FingerprintDict(elements: seq<Element>, digest: Digest): Value {
    Dict(Entry(Text(DigestWord), Text(digest(elements)),
         Entry(Text(ElementsWord), List(ElementValues(elements)), NoEntries)))
  }

  function ScalarEntries(c: Checkpoint, rest: Entries): Entries {
    Entry(Text(Kind), Text(CompatMulti),
    Entry(Text(SamplerPosition), Integer(c.samplerPosition),
    Entry(Text(DeliveredCursor), Integer(c.delivered),
    Entry(Text(NumWorkers), Integer(c.workers),
    Entry(Text(AssignmentPhase), Integer(c.phase),
    Entry(Text(ReusedBaseSeed), Boolean(c.reused),
    Entry(Text(BaseSeed), if c.baseSeed.None? then Nothing else Integer(c.baseSeed.value), rest)))))))
  }

  function StoredEntries(c: Checkpoint, digest: Digest): Entries {
    Entry(Text(IteratorGenerator), Octets(c.iteratorGenerator),
    Entry(Text(CurrentGenerator), Octets(c.currentGenerator),
    Entry(Text(LaneStatesWord), Dict(StateEntries(c.laneStates)),
    Entry(Text(LaneSeedsWord), Dict(SeedEntries(c.laneSeeds)),
    Entry(Text(FingerprintWord), FingerprintDict(c.fingerprint, digest), NoEntries)))))
  }

  function ToDict(c: Checkpoint, digest: Digest): Value {
    Dict(ScalarEntries(c, StoredEntries(c, digest)))
  }

  // ----- from the public form -----

  /** The value of a text key, or nothing when the key is missing. */
  function Get(entries: Entries, key: Word): Value {
    if entries.NoEntries? then Nothing
    else if entries.key == Text(key) then entries.value
    else Get(entries.rest, key)
  }

  /** Assign a lane: replace its value in place, or add it at the end. */
  function Put<T>(d: ByLane<T>, lane: int, value: T): ByLane<T>
    decreases |d|
  {
    if d == [] then [LaneEntry(lane, value)]
    else if d[0].lane == lane then [LaneEntry(lane, value)] + d[1..]
    else [d[0]] + Put(d[1..], lane, value)
  }

  predicate Has<T>(d: ByLane<T>, lane: int) {
    exists i :: 0 <= i < |d| && d[i].lane == lane
  }

  predicate SameLanes(d: ByLane<Bytes>, s: ByLane<int>) {
    (forall i | 0 <= i < |d| :: Has(s, d[i].lane)) && (forall i | 0 <= i < |s| :: Has(d, s[i].lane))
  }

  function NonnegativeInteger(entries: Entries, key: Word): Result<int, StateError> {
    var value := Get(entries, key);
    if !value.Integer? then Err(TypeError) else if value.i < 0 then Err(ValueError) else Ok(value.i)
  }

  function PositiveInteger(entries: Entries, key: Word): Result<int, StateError> {
    var value :- NonnegativeInteger(entries, key);
    if value == 0 then Err(ValueError) else Ok(value)
  }

  function BytesOf(entries: Entries, key: Word): Result<Bytes, StateError> {
    var value := Get(entries, key);
    if value.Octets? then Ok(value.bytes) else Err(TypeError)
  }

  function LaneStates(entries: Entries, workers: int, validated: ByLane<Bytes>): Result<ByLane<Bytes>, StateError>
    decreases entries
  {
    if entries.NoEntries? then Ok(validated)
    else
      var lane, state := entries.key, entries.value;
      if !lane.Integer? then Err(TypeError)
      else if lane.i < 0 || lane.i >= workers then Err(ValueError)
      else if !state.Octets? then Err(TypeError)
      else LaneStates(entries.rest, workers, Put(validated, lane.i, state.bytes))
  }

  function LaneSeeds(entries: Entries, workers: int, validated: ByLane<int>): Result<ByLane<int>, StateError>
    decreases entries
  {
    if entries.NoEntries? then Ok(validated)
    else
      var lane, seed := entries.key, entries.value;
      if !lane.Integer? then Err(TypeError)
      else if lane.i < 0 || lane.i >= workers then Err(ValueError)
      else if !seed.Integer? then Err(TypeError)
      else LaneSeeds(entries.rest, workers, Put(validated, lane.i, seed.i))
  }

  function Elements(items: seq<Value>): Result<seq<Element>, StateError>
    decreases |items|
  {
    if items == [] then Ok([])
    else
      var raw := items[0];
      if !raw.Dict? || !Get(raw.entries, Path).Text? then Err(ValueError)
      else
        var rest :- Elements(items[1..]);
        Ok([Element(Get(raw.entries, Path).text, Get(raw.entries, ValueWord))] + rest)
  }

  function ParseFingerprint(entries: Entries, digest: Digest): Result<seq<Element>, StateError> {
    var raw := Get(entries, ElementsWord);
    if !raw.List? then Err(ValueError)
    else
      var elements :- Elements(raw.items);
      if Get(entries, DigestWord) != Text(digest(elements)) then Err(ValueError) else Ok(elements)
  }

  function ParseBaseSeed(entries: Entries, reused: bool): Result<Option<int>, StateError> {
    var seed := Get(entries, BaseSeed);
    if seed != Nothing && !seed.Integer? then Err(TypeError)
    else if reused && seed == Nothing then Err(ValueError)
    else Ok(if seed == Nothing then None else Some(seed.i))
  }

  function ParseLanes(entries: Entries, workers: int): Result<(ByLane<Bytes>, ByLane<int>), StateError> {
    var rawStates := Get(entries, LaneStatesWord);
    if !rawStates.Dict? then Err(TypeError)
    else
      var states :- LaneStates(rawStates.entries, workers, []);
      var rawSeeds := Get(entries, LaneSeedsWord);
      if !rawSeeds.Dict? then Err(TypeError)
      else
        var seeds :- LaneSeeds(rawSeeds.entries, workers, []);
        if !SameLanes(states, seeds) then Err(ValueError) else Ok((states, seeds))
  }

  datatype Header = Header(delivered: int, position: int, workers: int, phase: int, reused: bool, baseSeed: Option<int>)

  function ParseHeader(entries: Entries): Result<Header, StateError> {
    if Get(entries, Kind) != Text(CompatMulti) then Err(ValueError)
    else
      var delivered :- NonnegativeInteger(entries, DeliveredCursor);
      var position :- NonnegativeInteger(entries, SamplerPosition);
      if position < delivered then Err(ValueError)
      else
        var workers :- PositiveInteger(entries, NumWorkers);
        var phase :- NonnegativeInteger(entries, AssignmentPhase);
        if phase != delivered % workers then Err(ValueError)
        else if !Get(entries, ReusedBaseSeed).Boolean? then Err(TypeError)
        else
          var reused := Get(entries, ReusedBaseSeed).b;
          var baseSeed :- ParseBaseSeed(entries, reused);
          Ok(Header(delivered, position, workers, phase, reused, baseSeed))
  }

  /** Validation of a public checkpoint, check by check in the order the errors are raised. */
  function Parse(payload: Value, digest: Digest): Result<Checkpoint, StateError> {
    if !payload.Dict? then Err(TypeError)
    else
      var entries := payload.entries;
      var h :- ParseHeader(entries);
      var lanes :- ParseLanes(entries, h.workers);
      var fingerprint := Get(entries, FingerprintWord);
      if !fingerprint.Dict? then Err(TypeError)
      else
        var iteratorGenerator :- BytesOf(entries, IteratorGenerator);
        var currentGenerator :- BytesOf(entries, CurrentGenerator);
        var elements :- ParseFingerprint(fingerprint.entries, digest);
        Ok(Checkpoint(h.position, h.delivered, h.workers, h.phase, h.reused, h.baseSeed, iteratorGenerator,
                      currentGenerator, lanes.0, lanes.1, elements))
  }

  // ----- validation, in loops -----

  /** Check and collect the lane states, entry by entry. */
  method CollectStates(entries: Entries, workers: int) returns (r: Result<ByLane<Bytes>, StateError>)
    ensures r == LaneStates(entries, workers, [])
  {
    var validated: ByLane<Bytes> := [];
    var left := entries;
    while left.Entry?
      invariant LaneStates(left, workers, validated) == LaneStates(entries, workers, [])
      decreases left
    {
      var lane, state := left.key, left.value;
      if !lane.Integer? {
        return Err(TypeError);
      }
      if lane.i < 0 || lane.i >= workers {
        return Err(ValueError);
      }
      if !state.Octets? {
        return Err(TypeError);
      }
      validated := Put(validated, lane.i, state.bytes);
      left := left.rest;
    }
    r := Ok(validated);
  }

  /** Check and collect the lane seeds, entry by entry. */
  method CollectSeeds(entries: Entries, workers: int) returns (r: Result<ByLane<int>, StateError>)
    ensures r == LaneSeeds(entries, workers, [])
  {
    var validated: ByLane<int> := [];
    var left := entries;
    while left.Entry?
      invariant LaneSeeds(left, workers, validated) == LaneSeeds(entries, workers, [])
      decreases left
    {
      var lane, seed := left.key, left.value;
      if !lane.Integer? {
        return Err(TypeError);
      }
      if lane.i < 0 || lane.i >= workers {
        return Err(ValueError);
      }
      if !seed.Integer? {
        return Err(TypeError);
      }
      validated := Put(validated, lane.i, seed.i);
      left := left.rest;
    }
    r := Ok(validated);
  }

  // ----- what validation accepts -----

  ghost predicate InRange<T>(d: ByLane<T>, workers: int) {
    forall i | 0 <= i < |d| :: 0 <= d[i].lane < workers
  }

  /** Each lane once, as in any dictionary. */
  ghost predicate Dictionary<T>(d: ByLane<T>) {
    forall i, j | 0 <= i < j < |d| :: d[i].lane != d[j].lane
  }

  ghost predicate Keyed<T>(d: ByLane<T>, workers: int) {
    InRange(d, workers) && Dictionary(d)
  }

  ghost predicate WellFormed(c: Checkpoint) {
    && 0 <= c.delivered <= c.samplerPosition && c.workers > 0 && c.phase == c.delivered % c.workers
    && (c.reused ==> c.baseSeed.Some?)
    && Keyed(c.laneStates, c.workers) && Keyed(c.laneSeeds, c.workers) && SameLanes(c.laneStates, c.laneSeeds)
  }

  /** Assigning replaces the one entry of the lane, or adds one at the end. */
  lemma {:induction false} PutIs<T>(d: ByLane<T>, lane: int, value: T) returns (i: nat)
    ensures i < |d| ==> d[i].lane == lane && Put(d, lane, value) == d[i := LaneEntry(lane, value)]
    ensures i >= |d| ==>
              (forall j | 0 <= j < |d| :: d[j].lane != lane) && Put(d, lane, value) == d + [LaneEntry(lane, value)]
    decreases |d|
  {
    i := 0;
    if d != [] && d[0].lane != lane {
      var rest := d[1..];
      var k := PutIs(rest, lane, value);
      i := k + 1;
      assert d == [d[0]] + rest;
      if k < |rest| {
        assert [d[0]] + rest[k := LaneEntry(lane, value)] == d[i := LaneEntry(lane, value)];
      } else {
        assert [d[0]] + (rest + [LaneEntry(lane, value)]) == d + [LaneEntry(lane, value)];
      }
    }
  }

  lemma PutKeyed<T>(d: ByLane<T>, lane: int, value: T, workers: int)
    requires Keyed(d, workers) && 0 <= lane < workers
    ensures Keyed(Put(d, lane, value), workers)
  {
    var i := PutIs(d, lane, value);
  }

  lemma {:induction false} StatesKeyed(entries: Entries, workers: int, validated: ByLane<Bytes>)
    requires Keyed(validated, workers) && LaneStates(entries, workers, validated).Ok?
    ensures Keyed(LaneStates(entries, workers, validated).value, workers)
    decreases entries
  {
    if entries.Entry? {
      PutKeyed(validated, entries.key.i, entries.value.bytes, workers);
      StatesKeyed(entries.rest, workers, Put(validated, entries.key.i, entries.value.bytes));
    }
  }

  lemma {:induction false} SeedsKeyed(entries: Entries, workers: int, validated: ByLane<int>)
    requires Keyed(validated, workers) && LaneSeeds(entries, workers, validated).Ok?
    ensures Keyed(LaneSeeds(entries, workers, validated).value, workers)
    decreases entries
  {
    if entries.Entry? {
      PutKeyed(validated, entries.key.i, entries.value.i, workers);
      SeedsKeyed(entries.rest, workers, Put(validated, entries.key.i, entries.value.i));
    }
  }

  /** Whatever dictionary is offered, what validation lets through is well formed. */
  lemma ParsedWellFormed(payload: Value, digest: Digest)
    requires Parse(payload, digest).Ok?
    ensures WellFormed(Parse(payload, digest).value)
  {
    var c := Parse(payload, digest).value;
    StatesKeyed(Get(payload.entries, LaneStatesWord).entries, c.workers, []);
    SeedsKeyed(Get(payload.entries, LaneSeedsWord).entries, c.workers, []);
  }

  lemma InRangeTail<T>(d: ByLane<T>, workers: int)
    requires d != []
    ensures InRange(d, workers) <==> 0 <= d[0].lane < workers && InRange(d[1..], workers)
  {
    assert forall i | 0 < i < |d| :: d[i] == d[1..][i - 1];
  }

  /** Collecting the entries of a dictionary gives it back; a lane out of range is refused. */
  lemma {:induction false} StatesBack(done: ByLane<Bytes>, d: ByLane<Bytes>, workers: int)
    requires Dictionary(done + d)
    ensures InRange(d, workers) ==> LaneStates(StateEntries(d), workers, done) == Ok(done + d)
    ensures !InRange(d, workers) ==> LaneStates(StateEntries(d), workers, done).Err?
    decreases |d|
  {
    if d == [] {
      assert done + d == done;
    } else {
      assert (done + d)[|done|] == d[0] && forall i | 0 <= i < |done| :: (done + d)[i] == done[i];
      var _ := PutIs(done, d[0].lane, d[0].value);
      assert done + d == done + [d[0]] + d[1..];
      InRangeTail(d, workers);
      StatesBack(done + [d[0]], d[1..], workers);
    }
  }

  lemma {:induction false} SeedsBack(done: ByLane<int>, d: ByLane<int>, workers: int)
    requires Dictionary(done + d)
    ensures InRange(d, workers) ==> LaneSeeds(SeedEntries(d), workers, done) == Ok(done + d)
    ensures !InRange(d, workers) ==> LaneSeeds(SeedEntries(d), workers, done).Err?
    decreases |d|
  {
    if d == [] {
      assert done + d == done;
    } else {
      assert (done + d)[|done|] == d[0] && forall i | 0 <= i < |done| :: (done + d)[i] == done[i];
      var _ := PutIs(done, d[0].lane, d[0].value);
      assert done + d == done + [d[0]] + d[1..];
      InRangeTail(d, workers);
      SeedsBack(done + [d[0]], d[1..], workers);
    }
  }

  lemma {:induction false} ElementsBack(elements: seq<Element>)
    ensures Elements(ElementValues(elements)) == Ok(elements)
  {
    if elements != [] {
      GetPast();
      var e := elements[0];
      assert ElementValues(elements)[1..] == ElementValues(elements[1..]);
      ElementsBack(elements[1..]);
      assert [e] + elements[1..] == elements;
    }
  }

  lemma FingerprintBack(elements: seq<Element>, digest: Digest)
    ensures ParseFingerprint(FingerprintDict(elements, digest).entries, digest) == Ok(elements)
  {
    GetPast();
    ElementsBack(elements);
  }

  /** Looking a key up goes past the entries of other keys. */
  lemma GetPast()
    ensures forall key: Value, value: Value, rest: Entries, k: Word {:trigger Get(Entry(key, value, rest), k)} ::
              Get(Entry(key, value, rest), k) == if key == Text(k) then value else Get(rest, k)
  {
  }

  lemma LanesBack(c: Checkpoint, entries: Entries)
    requires Get(entries, LaneStatesWord) == Dict(StateEntries(c.laneStates))
    requires Get(entries, LaneSeedsWord) == Dict(SeedEntries(c.laneSeeds))
    requires Dictionary(c.laneStates) && Dictionary(c.laneSeeds)
    ensures var r := ParseLanes(entries, c.workers);
            if Keyed(c.laneStates, c.workers) && Keyed(c.laneSeeds, c.workers) && SameLanes(c.laneStates, c.laneSeeds)
            then r == Ok((c.laneStates, c.laneSeeds)) else r.Err?
  {
    assert [] + c.laneStates == c.laneStates && [] + c.laneSeeds == c.laneSeeds;
    StatesBack([], c.laneStates, c.workers);
    SeedsBack([], c.laneSeeds, c.workers);
  }

  ghost predicate Scalars(c: Checkpoint, entries: Entries) {
    && Get(entries, Kind) == Text(CompatMulti) && Get(entries, SamplerPosition) == Integer(c.samplerPosition)
    && Get(entries, DeliveredCursor) == Integer(c.delivered) && Get(entries, NumWorkers) == Integer(c.workers)
    && Get(entries, AssignmentPhase) == Integer(c.phase) && Get(entries, ReusedBaseSeed) == Boolean(c.reused)
    && Get(entries, BaseSeed) == if c.baseSeed.None? then Nothing else Integer(c.baseSeed.value)
  }

  ghost predicate Stored(c: Checkpoint, digest: Digest, entries: Entries) {
    && Get(entries, IteratorGenerator) == Octets(c.iteratorGenerator)
    && Get(entries, CurrentGenerator) == Octets(c.currentGenerator)
    && Get(entries, LaneStatesWord) == Dict(StateEntries(c.laneStates))
    && Get(entries, LaneSeedsWord) == Dict(SeedEntries(c.laneSeeds))
    && Get(entries, FingerprintWord) == FingerprintDict(c.fingerprint, digest)
  }

  lemma StoredBack(c: Checkpoint, digest: Digest)
    ensures Stored(c, digest, StoredEntries(c, digest))
  {
    GetPast();
  }

  lemma ScalarsBack(c: Checkpoint, rest: Entries)
    ensures Scalars(c, ScalarEntries(c, rest))
    ensures forall k | k in {IteratorGenerator, CurrentGenerator, LaneStatesWord, LaneSeedsWord, FingerprintWord} ::
              Get(ScalarEntries(c, rest), k) == Get(rest, k)
  {
    GetPast();
  }

  /** The header is accepted exactly when its numbers agree. */
  lemma HeaderBack(c: Checkpoint, entries: Entries)
    requires Scalars(c, entries)
    ensures if 0 <= c.delivered <= c.samplerPosition && c.workers > 0 && c.phase == c.delivered % c.workers
               && (c.reused ==> c.baseSeed.Some?)
            then ParseHeader(entries)
              == Ok(Header(c.delivered, c.samplerPosition, c.workers, c.phase, c.reused, c.baseSeed))
            else ParseHeader(entries).Err?
  {
  }

  /** Validation of entries that hold a checkpoint's fields. */
  lemma ParseFields(c: Checkpoint, digest: Digest, entries: Entries)
    requires Scalars(c, entries) && Stored(c, digest, entries) && Dictionary(c.laneStates) && Dictionary(c.laneSeeds)
    ensures Parse(Dict(entries), digest) == Ok(c) <==> WellFormed(c)
  {
    HeaderBack(c, entries);
    LanesBack(c, entries);
    FingerprintBack(c.fingerprint, digest);
  }

  /** A checkpoint survives its public form exactly when it is well formed. */
  lemma RoundTrip(c: Checkpoint, digest: Digest)
    requires Dictionary(c.laneStates) && Dictionary(c.laneSeeds)
    ensures Parse(ToDict(c, digest), digest) == Ok(c) <==> WellFormed(c)
  {
    StoredBack(c, digest);
    ScalarsBack(c, StoredEntries(c, digest));
    ParseFields(c, digest, ScalarEntries(c, StoredEntries(c, digest)));
  }

  /** Validate a public checkpoint. */
  method FromDict(payload: Value, digest: Digest) returns (r: Result<Checkpoint, StateError>)
    ensures r == Parse(payload, digest)
    ensures r.Ok? ==> WellFormed(r.value)
  {
    if Parse(payload, digest).Ok? { ParsedWellFormed(payload, digest); }
    if !payload.Dict? {
      return Err(TypeError);
    }
    var entries := payload.entries;
    if Get(entries, Kind) != Text(CompatMulti) {
      return Err(ValueError);
    }
    var delivered :- NonnegativeInteger(entries, DeliveredCursor);
    var position :- NonnegativeInteger(entries, SamplerPosition);
    if position < delivered {
      return Err(ValueError);
    }
    var workers :- PositiveInteger(entries, NumWorkers);
    var phase :- NonnegativeInteger(entries, AssignmentPhase);
    if phase != delivered % workers {
      return Err(ValueError);
    }
    var reused := Get(entries, ReusedBaseSeed);
    if !reused.Boolean? {
      return Err(TypeError);
    }
    var baseSeed :- ParseBaseSeed(entries, reused.b);
    var rawStates, rawSeeds := Get(entries, LaneStatesWord), Get(entries, LaneSeedsWord);
    if !rawStates.Dict? {
      return Err(TypeError);
    }
    var states :- CollectStates(rawStates.entries, workers);
    if !rawSeeds.Dict? {
      return Err(TypeError);
    }
    var seeds :- CollectSeeds(rawSeeds.entries, workers);
    if !SameLanes(states, seeds) {
      return Err(ValueError);
    }
    var fingerprint := Get(entries, FingerprintWord);
    if !fingerprint.Dict? {
      return Err(TypeError);
    }
    var iteratorGenerator :- BytesOf(entries, IteratorGenerator);
    var currentGenerator :- BytesOf(entries, CurrentGenerator);
    var elements :- ParseFingerprint(fingerprint.entries, digest);
    r := Ok(Checkpoint(position, delivered, workers, phase, reused.b, baseSeed, iteratorGenerator, currentGenerator,
                       states, seeds, elements));
  }
}
