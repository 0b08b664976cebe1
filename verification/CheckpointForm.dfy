/** Which dictionaries are checkpoints, what they say, and why the others are refused. */
module CheckpointForm {
  import opened Outcomes
  import opened Lanes
  import opened CompatState

  // ----- lanes -----

  ghost predicate HasKey(entries: Entries, key: Value)
    decreases entries
  {
    entries.Entry? && (entries.key == key || HasKey(entries.rest, key))
  }

  /** No key twice, as in any dictionary. */
  ghost predicate OnceEach(entries: Entries)
    decreases entries
  {
    entries.Entry? ==> !HasKey(entries.rest, entries.key) && OnceEach(entries.rest)
  }

  /** None of the lanes collected so far is still to come. */
  ghost predicate Apart<T>(done: ByLane<T>, entries: Entries) {
    forall i | 0 <= i < |done| :: !HasKey(entries, Integer(done[i].lane))
  }

  lemma PutNew<T>(done: ByLane<T>, lane: int, value: T)
    requires forall i | 0 <= i < |done| :: done[i].lane != lane
    ensures Put(done, lane, value) == done + [LaneEntry(lane, value)]
  {
    var i := PutIs(done, lane, value);
  }

  /** The lane states read are the dictionary's entries, one for one and in their order; each lane is a number below
      the workers, and each state is bytes. */
  lemma {:induction false} StatesRead(entries: Entries, workers: int, done: ByLane<Bytes>, d: ByLane<Bytes>)
    requires OnceEach(entries) && Apart(done, entries)
    ensures LaneStates(entries, workers, done) == Ok(done + d) <==> StateEntries(d) == entries && InRange(d, workers)
    ensures LaneStates(entries, workers, done).Ok? ==> done <= LaneStates(entries, workers, done).value
    decreases entries
  {
    if entries.NoEntries? {
      assert done + [] == done;
      if d != [] { assert |done + d| > |done|; }
    } else if entries.key.Integer? && 0 <= entries.key.i < workers && entries.value.Octets? {
      var first := LaneEntry(entries.key.i, entries.value.bytes);
      PutNew(done, first.lane, first.value);
      assert Apart(done + [first], entries.rest);
      StatesRead(entries.rest, workers, done + [first], if d == [] then [] else d[1..]);
      if d != [] {
        InRangeTail(d, workers);
        if d[0] == first { assert done + d == done + [first] + d[1..]; } else { assert (done + d)[|done|] == d[0]; }
      } else {
        assert |done + d| == |done|;
      }
    } else if d != [] {
      InRangeTail(d, workers);
    }
  }

  lemma {:induction false} SeedsRead(entries: Entries, workers: int, done: ByLane<int>, d: ByLane<int>)
    requires OnceEach(entries) && Apart(done, entries)
    ensures LaneSeeds(entries, workers, done) == Ok(done + d) <==> SeedEntries(d) == entries && InRange(d, workers)
    ensures LaneSeeds(entries, workers, done).Ok? ==> done <= LaneSeeds(entries, workers, done).value
    decreases entries
  {
    if entries.NoEntries? {
      assert done + [] == done;
      if d != [] { assert |done + d| > |done|; }
    } else if entries.key.Integer? && 0 <= entries.key.i < workers && entries.value.Integer? {
      var first := LaneEntry(entries.key.i, entries.value.i);
      PutNew(done, first.lane, first.value);
      assert Apart(done + [first], entries.rest);
      SeedsRead(entries.rest, workers, done + [first], if d == [] then [] else d[1..]);
      if d != [] {
        InRangeTail(d, workers);
        if d[0] == first { assert done + d == done + [first] + d[1..]; } else { assert (done + d)[|done|] == d[0]; }
      } else {
        assert |done + d| == |done|;
      }
    } else if d != [] {
      InRangeTail(d, workers);
    }
  }

  // ----- the fingerprint -----

  /** The item is a dictionary with this path and value. */
  predicate Describes(item: Value, element: Element) {
    && item.Dict? && Get(item.entries, Path) == Text(element.path)
    && Get(item.entries, ValueWord) == element.value
  }

  lemma {:induction false} ElementsRead(items: seq<Value>, elements: seq<Element>)
    ensures Elements(items) == Ok(elements)
       <==> |items| == |elements| && forall i | 0 <= i < |items| :: Describes(items[i], elements[i])
    ensures Elements(items).Err? ==> Elements(items) == Err(ValueError)
    decreases |items|
  {
    if items != [] {
      ElementsRead(items[1..], if elements == [] then [] else elements[1..]);
      if elements != [] {
        assert elements == [elements[0]] + elements[1..];
        forall i | 0 < i < |items| && i < |elements|
          ensures items[i] == items[1..][i - 1] && elements[i] == elements[1..][i - 1]
        {
        }
        if |items| == |elements| && forall i | 0 <= i < |items| :: Describes(items[i], elements[i]) {
          assert Describes(items[0], elements[0]);
        }
        if Elements(items) == Ok(elements) { assert Describes(items[0], elements[0]); }
      }
    }
  }

  /** The fingerprint's dictionary lists these elements and claims their digest. */
  ghost predicate Fingerprints(entries: Entries, elements: seq<Element>, digest: Digest) {
    var raw := Get(entries, ElementsWord);
    && raw.List? && |raw.items| == |elements|
    && (forall i | 0 <= i < |elements| :: Describes(raw.items[i], elements[i]))
    && Get(entries, DigestWord) == Text(digest(elements))
  }

  lemma FingerprintRead(entries: Entries, elements: seq<Element>, digest: Digest)
    ensures ParseFingerprint(entries, digest) == Ok(elements) <==> Fingerprints(entries, elements, digest)
    ensures ParseFingerprint(entries, digest).Err? ==> ParseFingerprint(entries, digest) == Err(ValueError)
  {
    var raw := Get(entries, ElementsWord);
    if raw.List? {
      ElementsRead(raw.items, elements);
      if Elements(raw.items).Ok? { ElementsRead(raw.items, Elements(raw.items).value); }
    }
  }

  // ----- what is accepted -----

  /** The entries are those of this checkpoint, key by key. */
  ghost predicate Says(entries: Entries, c: Checkpoint, digest: Digest) {
    && Scalars(c, entries)
    && Get(entries, IteratorGenerator) == Octets(c.iteratorGenerator)
    && Get(entries, CurrentGenerator) == Octets(c.currentGenerator)
    && Get(entries, LaneStatesWord) == Dict(StateEntries(c.laneStates))
    && Get(entries, LaneSeedsWord) == Dict(SeedEntries(c.laneSeeds))
    && Get(entries, FingerprintWord).Dict?
    && Fingerprints(Get(entries, FingerprintWord).entries, c.fingerprint, digest)
  }

  ghost predicate LanesOnce(entries: Entries) {
    && (Get(entries, LaneStatesWord).Dict? ==> OnceEach(Get(entries, LaneStatesWord).entries))
    && (Get(entries, LaneSeedsWord).Dict? ==> OnceEach(Get(entries, LaneSeedsWord).entries))
  }

  lemma HeaderRead(entries: Entries, c: Checkpoint)
    ensures ParseHeader(entries) == Ok(Header(c.delivered, c.samplerPosition, c.workers, c.phase, c.reused, c.baseSeed))
       <==> Scalars(c, entries) && 0 <= c.delivered <= c.samplerPosition && c.workers > 0
            && c.phase == c.delivered % c.workers && (c.reused ==> c.baseSeed.Some?)
  {
  }

  lemma LanesRead(entries: Entries, c: Checkpoint)
    requires LanesOnce(entries)
    ensures ParseLanes(entries, c.workers) == Ok((c.laneStates, c.laneSeeds))
       <==> && Get(entries, LaneStatesWord) == Dict(StateEntries(c.laneStates))
            && Get(entries, LaneSeedsWord) == Dict(SeedEntries(c.laneSeeds))
            && InRange(c.laneStates, c.workers) && InRange(c.laneSeeds, c.workers)
            && SameLanes(c.laneStates, c.laneSeeds)
  {
    var states, seeds := Get(entries, LaneStatesWord), Get(entries, LaneSeedsWord);
    assert [] + c.laneStates == c.laneStates && [] + c.laneSeeds == c.laneSeeds;
    if states.Dict? { StatesRead(states.entries, c.workers, [], c.laneStates); }
    if seeds.Dict? { SeedsRead(seeds.entries, c.workers, [], c.laneSeeds); }
  }

  /** Validation accepts exactly the dictionaries that say a well-formed checkpoint, and reads the one they say. */
  lemma AcceptedExactly(entries: Entries, c: Checkpoint, digest: Digest)
    requires LanesOnce(entries)
    ensures Parse(Dict(entries), digest) == Ok(c) <==> WellFormed(c) && Says(entries, c, digest)
  {
    HeaderRead(entries, c);
    LanesRead(entries, c);
    var fingerprint := Get(entries, FingerprintWord);
    if fingerprint.Dict? { FingerprintRead(fingerprint.entries, c.fingerprint, digest); }
    if Parse(Dict(entries), digest) == Ok(c) { ParsedWellFormed(Dict(entries), digest); }
  }

  // ----- why others are refused -----

  /** A check and its error, before the checks that follow it. */
  function Unless(passed: bool, error: StateError, later: Option<StateError>): Option<StateError> {
    if passed then later else Some(error)
  }

  predicate IsAtLeast(v: Value, least: int) {
    v.Integer? ==> v.i >= least
  }

  /** A number that is not an integer, a boolean included, is of the wrong type; a negative one is a wrong value. */
  ghost function HeaderFault(entries: Entries): Option<StateError> {
    var delivered, position := Get(entries, DeliveredCursor), Get(entries, SamplerPosition);
    var workers, phase := Get(entries, NumWorkers), Get(entries, AssignmentPhase);
    var reused, seed := Get(entries, ReusedBaseSeed), Get(entries, BaseSeed);
    Unless(Get(entries, Kind) == Text(CompatMulti), ValueError,
    Unless(delivered.Integer?, TypeError, Unless(IsAtLeast(delivered, 0), ValueError,
    Unless(position.Integer?, TypeError, Unless(IsAtLeast(position, 0), ValueError,
    Unless(delivered.Integer? && IsAtLeast(position, delivered.i), ValueError,
    Unless(workers.Integer?, TypeError, Unless(IsAtLeast(workers, 1), ValueError,
    Unless(phase.Integer?, TypeError,
    Unless(workers.Integer? && workers.i > 0 && delivered.Integer? && phase == Integer(delivered.i % workers.i),
           ValueError,
    Unless(reused.Boolean?, TypeError,
    Unless(seed == Nothing || seed.Integer?, TypeError,
    Unless(reused == Boolean(true) ==> seed != Nothing, ValueError, None)))))))))))))
  }

  lemma HeaderRefused(entries: Entries)
    ensures match HeaderFault(entries)
            case Some(e) => ParseHeader(entries) == Err(e)
            case None => ParseHeader(entries).Ok? && ParseHeader(entries).value.workers == Get(entries, NumWorkers).i
  {
  }

  ghost function StatesFault(entries: Entries, workers: int): Option<StateError>
    decreases entries
  {
    if entries.NoEntries? then None
    else
      Unless(entries.key.Integer?, TypeError,
      Unless(IsAtLeast(entries.key, 0) && !IsAtLeast(entries.key, workers), ValueError,
      Unless(entries.value.Octets?, TypeError, StatesFault(entries.rest, workers))))
  }

  ghost function SeedsFault(entries: Entries, workers: int): Option<StateError>
    decreases entries
  {
    if entries.NoEntries? then None
    else
      Unless(entries.key.Integer?, TypeError,
      Unless(IsAtLeast(entries.key, 0) && !IsAtLeast(entries.key, workers), ValueError,
      Unless(entries.value.Integer?, TypeError, SeedsFault(entries.rest, workers))))
  }

  lemma {:induction false} StatesRefused(entries: Entries, workers: int, done: ByLane<Bytes>)
    ensures var r := LaneStates(entries, workers, done);
            match StatesFault(entries, workers) case Some(e) => r == Err(e) case None => r.Ok?
    decreases entries
  {
    if entries.Entry? && entries.key.Integer? && entries.value.Octets? {
      StatesRefused(entries.rest, workers, Put(done, entries.key.i, entries.value.bytes));
    }
  }

  lemma {:induction false} SeedsRefused(entries: Entries, workers: int, done: ByLane<int>)
    ensures var r := LaneSeeds(entries, workers, done);
            match SeedsFault(entries, workers) case Some(e) => r == Err(e) case None => r.Ok?
    decreases entries
  {
    if entries.Entry? && entries.key.Integer? && entries.value.Integer? {
      SeedsRefused(entries.rest, workers, Put(done, entries.key.i, entries.value.i));
    }
  }

  /** Two dictionaries with the same keys. */
  ghost predicate SameKeys(a: Entries, b: Entries) {
    forall key: Value {:trigger HasKey(a, key)} {:trigger HasKey(b, key)} :: HasKey(a, key) <==> HasKey(b, key)
  }

  lemma {:induction false} StateKeys(d: ByLane<Bytes>, key: Value)
    ensures HasKey(StateEntries(d), key) <==> key.Integer? && Has(d, key.i)
    decreases |d|
  {
    if d != [] {
      StateKeys(d[1..], key);
      if key.Integer? { HasTail(d, key.i); }
    }
  }

  lemma {:induction false} SeedKeys(d: ByLane<int>, key: Value)
    ensures HasKey(SeedEntries(d), key) <==> key.Integer? && Has(d, key.i)
    decreases |d|
  {
    if d != [] {
      SeedKeys(d[1..], key);
      if key.Integer? { HasTail(d, key.i); }
    }
  }

  lemma HasTail<T>(d: ByLane<T>, lane: int)
    requires d != []
    ensures Has(d, lane) <==> d[0].lane == lane || Has(d[1..], lane)
  {
    if Has(d, lane) && d[0].lane != lane {
      var i :| 0 <= i < |d| && d[i].lane == lane;
      assert d[1..][i - 1].lane == lane;
    }
    if Has(d[1..], lane) {
      var i :| 0 <= i < |d[1..]| && d[1..][i].lane == lane;
      assert d[i + 1].lane == lane;
    }
  }

  lemma KeysAgree(d: ByLane<Bytes>, s: ByLane<int>)
    ensures SameLanes(d, s) <==> SameKeys(StateEntries(d), SeedEntries(s))
  {
    forall key: Value
      ensures HasKey(StateEntries(d), key) <==> key.Integer? && Has(d, key.i)
      ensures HasKey(SeedEntries(s), key) <==> key.Integer? && Has(s, key.i)
    {
      StateKeys(d, key);
      SeedKeys(s, key);
    }
    if SameKeys(StateEntries(d), SeedEntries(s)) {
      forall i | 0 <= i < |d| ensures Has(s, d[i].lane) { assert HasKey(StateEntries(d), Integer(d[i].lane)); }
      forall i | 0 <= i < |s| ensures Has(d, s[i].lane) { assert HasKey(SeedEntries(s), Integer(s[i].lane)); }
    }
    if SameLanes(d, s) {
      forall key: Value
        ensures HasKey(StateEntries(d), key) <==> HasKey(SeedEntries(s), key)
      {
        if key.Integer? && Has(d, key.i) { var i :| 0 <= i < |d| && d[i].lane == key.i; }
        if key.Integer? && Has(s, key.i) { var i :| 0 <= i < |s| && s[i].lane == key.i; }
      }
    }
  }

  ghost function LanesFault(entries: Entries, workers: int): Option<StateError> {
    var states, seeds := Get(entries, LaneStatesWord), Get(entries, LaneSeedsWord);
    if !states.Dict? then Some(TypeError)
    else if StatesFault(states.entries, workers).Some? then StatesFault(states.entries, workers)
    else if !seeds.Dict? then Some(TypeError)
    else if SeedsFault(seeds.entries, workers).Some? then SeedsFault(seeds.entries, workers)
    else Unless(SameKeys(states.entries, seeds.entries), ValueError, None)
  }

  lemma LanesRefused(entries: Entries, workers: int)
    requires LanesOnce(entries)
    ensures var r := ParseLanes(entries, workers);
            match LanesFault(entries, workers) case Some(e) => r == Err(e) case None => r.Ok?
  {
    var states, seeds := Get(entries, LaneStatesWord), Get(entries, LaneSeedsWord);
    if states.Dict? {
      StatesRefused(states.entries, workers, []);
      if seeds.Dict? {
        SeedsRefused(seeds.entries, workers, []);
        var readStates, readSeeds := LaneStates(states.entries, workers, []), LaneSeeds(seeds.entries, workers, []);
        if readStates.Ok? && readSeeds.Ok? {
          var d, s := readStates.value, readSeeds.value;
          assert [] + d == d && [] + s == s;
          StatesRead(states.entries, workers, [], d);
          SeedsRead(seeds.entries, workers, [], s);
          KeysAgree(d, s);
        }
      }
    }
  }

  /** The error raised is that of the first check that fails: the header's, the lanes', then the fingerprint and the
      two generators, whose elements and digest are looked at last. */
  lemma RefusedFor(entries: Entries, digest: Digest)
    requires LanesOnce(entries)
    ensures var fingerprint := Get(entries, FingerprintWord);
            var r := Parse(Dict(entries), digest);
            if HeaderFault(entries).Some? then r == Err(HeaderFault(entries).value)
            else
              var workers := Get(entries, NumWorkers).i;
              if LanesFault(entries, workers).Some? then r == Err(LanesFault(entries, workers).value)
              else if !fingerprint.Dict? || !Get(entries, IteratorGenerator).Octets?
                      || !Get(entries, CurrentGenerator).Octets? then r == Err(TypeError)
              else if exists elements :: Fingerprints(fingerprint.entries, elements, digest) then r.Ok?
              else r == Err(ValueError)
  {
    HeaderRefused(entries);
    if HeaderFault(entries).None? {
      LanesRefused(entries, Get(entries, NumWorkers).i);
      var fingerprint := Get(entries, FingerprintWord);
      if fingerprint.Dict? {
        var read := ParseFingerprint(fingerprint.entries, digest);
        if read.Ok? {
          FingerprintRead(fingerprint.entries, read.value, digest);
        } else {
          forall elements ensures !Fingerprints(fingerprint.entries, elements, digest) {
            FingerprintRead(fingerprint.entries, elements, digest);
          }
          FingerprintRead(fingerprint.entries, [], digest);
        }
      }
    }
  }

  /** Anything but a dictionary is of the wrong type. */
  lemma NotADictionary(payload: Value, digest: Digest)
    requires !payload.Dict?
    ensures Parse(payload, digest) == Err(TypeError)
  {
  }
}
