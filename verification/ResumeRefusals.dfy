/** Which checkpoints a loader refuses, and what it rebuilds from the others. */
module ResumeRefusals {
  import opened Outcomes
  import opened Lanes
  import opened CompatState
  import opened LaneResume

  /** A fingerprint is read as a dictionary: the last element of a path counts. */
  lemma {:induction false} LastElementCounts(elements: seq<Element>, path: Word)
    ensures ValueAt(elements, path).None? <==> forall i | 0 <= i < |elements| :: elements[i].path != path
    ensures forall i | 0 <= i < |elements| && elements[i].path == path
                       && (forall j | i < j < |elements| :: elements[j].path != path) ::
              ValueAt(elements, path) == Some(elements[i].value)
    decreases |elements|
  {
    if elements != [] {
      var rest := elements[..|elements| - 1];
      LastElementCounts(rest, path);
      assert forall i | 0 <= i < |rest| :: rest[i] == elements[i];
    }
  }

  /** Two fingerprints agree when they give every path the same value, or both none. */
  ghost predicate SameValues(a: seq<Element>, b: seq<Element>) {
    forall path: Word :: ValueAt(a, path) == ValueAt(b, path)
  }

  lemma ContractIsValues(a: seq<Element>, b: seq<Element>)
    ensures SameContract(a, b) <==> SameValues(a, b)
    ensures !SameContract(a, b) ==> exists path: Word :: ValueAt(a, path) != ValueAt(b, path)
  {
    if SameContract(a, b) {
      forall path: Word
        ensures ValueAt(a, path) == ValueAt(b, path)
      {
        LastElementCounts(a, path);
        LastElementCounts(b, path);
      }
    }
  }

  /** The base seed the resumed lanes are seeded from: the checkpoint's own if it was kept, else drawn again. */
  function ExpectedSeed(loader: Loader, c: Checkpoint): int
    requires c.reused ==> c.baseSeed.Some?
  {
    if c.reused then c.baseSeed.value else loader.draw(c.iteratorGenerator).seed
  }

  ghost predicate SeedReproduces(loader: Loader, c: Checkpoint) {
    !c.reused && c.baseSeed.Some? ==> loader.draw(c.iteratorGenerator).seed == c.baseSeed.value
  }

  /** The checkpoint is for this many lanes and for this dataset, sampler and options. */
  ghost predicate ForThisLoader(loader: Loader, c: Checkpoint) {
    c.workers == loader.workers && SameValues(c.fingerprint, loader.fingerprint)
  }

  /** A validated checkpoint is refused exactly for one of four reasons, in this order: another number of lanes; a path
      of the contract with another value, missing or added; a base seed that does not reproduce; a lane seed that is
      not the base seed plus its lane. */
  lemma Refusals(loader: Loader, c: Checkpoint)
    requires WellFormed(c)
    ensures Resume(loader, c) == Err(WorkersChanged) <==> c.workers != loader.workers
    ensures Resume(loader, c) == Err(ContractChanged)
       <==> c.workers == loader.workers
            && exists path: Word :: ValueAt(c.fingerprint, path) != ValueAt(loader.fingerprint, path)
    ensures Resume(loader, c) == Err(BaseSeedNotReproduced) <==> ForThisLoader(loader, c) && !SeedReproduces(loader, c)
    ensures Resume(loader, c) == Err(LaneSeedMismatch)
       <==> ForThisLoader(loader, c) && SeedReproduces(loader, c)
            && exists i :: 0 <= i < |c.laneSeeds|
                           && c.laneSeeds[i].value != ExpectedSeed(loader, c) + c.laneSeeds[i].lane
    ensures Resume(loader, c).Ok?
       <==> ForThisLoader(loader, c) && SeedReproduces(loader, c)
            && forall i | 0 <= i < |c.laneSeeds| ::
                 c.laneSeeds[i].value == ExpectedSeed(loader, c) + c.laneSeeds[i].lane
    ensures Resume(loader, c) != Err(BaseSeedLost)
  {
    ContractIsValues(c.fingerprint, loader.fingerprint);
  }

  /** What is rebuilt otherwise: the loader's own lanes, prefetch and dataset, the units of its sampler from where the
      interrupted one drew them, the first undelivered unit next, and each lane in its saved state or, when none was
      saved, in its seed's. */
  lemma RebuiltPlan(loader: Loader, c: Checkpoint)
    requires WellFormed(c) && Resume(loader, c).Ok?
    ensures var e := Resume(loader, c).value;
            && e.workers == loader.workers && e.prefetch == loader.prefetch && e.fetch == loader.fetch && e.inOrder
            && e.start == c.delivered && e.phase == c.delivered % loader.workers
            && e.baseSeed == ExpectedSeed(loader, c) && |e.initial| == loader.workers
    ensures var e := Resume(loader, c).value;
            var units := loader.order(if c.reused then c.iteratorGenerator
                                      else loader.draw(c.iteratorGenerator).generator).units;
            if c.delivered <= |units| then e.units == units else units <= e.units && |e.units| == c.delivered
    ensures var e := Resume(loader, c).value;
            forall i | 0 <= i < |c.laneStates| :: e.initial[c.laneStates[i].lane] == c.laneStates[i].value
    ensures var e := Resume(loader, c).value;
            forall w | 0 <= w < loader.workers && (forall i | 0 <= i < |c.laneStates| :: c.laneStates[i].lane != w) ::
              e.initial[w] == loader.seeded(LaneSeed(ExpectedSeed(loader, c), w))
  {
    forall i | 0 <= i < |c.laneStates|
      ensures Lookup(c.laneStates, c.laneStates[i].lane) == Some(c.laneStates[i].value)
    {
      LookupAt(c.laneStates, i);
    }
    forall w | 0 <= w < loader.workers && forall i | 0 <= i < |c.laneStates| :: c.laneStates[i].lane != w
      ensures Lookup(c.laneStates, w) == None
    {
      LookupNone(c.laneStates, w);
    }
  }

  /** A path with another value is enough, whatever else agrees. */
  lemma ChangedPathRefused(loader: Loader, c: Checkpoint, path: Word)
    requires WellFormed(c) && c.workers == loader.workers
    requires ValueAt(c.fingerprint, path) != ValueAt(loader.fingerprint, path)
    ensures Resume(loader, c) == Err(ContractChanged)
  {
    Refusals(loader, c);
  }
}
