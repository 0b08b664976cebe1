/** The iterator handed to the training loop: it counts deliveries and captures checkpoints. */
module MultiIterator {
  import opened Words
  import opened Outcomes
  import opened Lanes
  import opened LaneSystem
  import opened LaneLedger
  import opened LaneRuns
  import opened LaneCapture
  import opened LaneInOrder
  import opened LaneRuntime
  import opened CompatState
  import opened LaneResume

  lemma LimitCoversLanes(plan: Iteration)
    requires plan.Valid()
    ensures plan.Limit() >= plan.workers
  {
    TimesMonotone(1, plan.prefetch, plan.workers);
  }

  datatype IteratorError = NoLongerActive | StopIteration

  /** The sampler is exhausted, or a unit for each lane is admitted and undelivered. */
  predicate Ahead(plan: Iteration, from: nat, to: nat) {
    to == |plan.units| || to - from >= plan.workers
  }

  class CompatMultiIterator {
    const loader: Loader
    const runtime: CompatLaneRuntime
    const generator: Bytes
    const reused: bool
    var delivered: nat
    var complete: bool
    var active: bool

    ghost predicate Valid()
      reads this, runtime, runtime.pool
    {
      && runtime.Valid() && Of(loader, runtime.plan, generator, reused)
      && delivered == runtime.nextDelivery <= runtime.nextTask <= |runtime.plan.units|
      && (complete ==> delivered == |runtime.plan.units|)
      && (delivered > runtime.plan.start ==> Ahead(runtime.plan, delivered, runtime.nextTask))
    }

    constructor (loader: Loader, runtime: CompatLaneRuntime, generator: Bytes, reused: bool)
      requires runtime.Valid() && Of(loader, runtime.plan, generator, reused)
      requires runtime.nextDelivery == runtime.plan.start
      ensures Valid() && this.loader == loader && this.runtime == runtime && this.generator == generator
      ensures this.reused == reused && delivered == runtime.plan.start && !complete && active
    {
      this.loader, this.runtime, this.generator, this.reused := loader, runtime, generator, reused;
      delivered := runtime.plan.start;
      complete, active := false, true;
      RunCounts(runtime.plan, runtime.runs, runtime.History());
    }

    /** The next unit's value, or the end once every unit has been delivered. */
    method Next() returns (r: Result<Bytes, IteratorError>)
      requires Valid()
      modifies this, runtime, runtime.pool
      ensures Valid() && active == old(active)
      ensures r.Ok? ==> old(active) && old(delivered) < |runtime.plan.units| && delivered == old(delivered) + 1
      ensures r.Ok? ==> r.value == Expected(runtime.plan, old(delivered)).value
      ensures r.Ok? ==>
                || runtime.nextTask == |runtime.plan.units|
                || runtime.nextTask - delivered == runtime.plan.prefetch * runtime.plan.workers
      ensures r == Err(StopIteration) ==> complete && delivered == old(delivered) == |runtime.plan.units|
      ensures r == Err(NoLongerActive) <==> !old(active)
      ensures r.Ok? || r == Err(StopIteration) || r == Err(NoLongerActive)
      ensures r == Err(NoLongerActive) ==> delivered == old(delivered) && complete == old(complete)
    {
      if !active {
        return Err(NoLongerActive);
      }
      var batch := runtime.Next();
      RunCounts(runtime.plan, runtime.runs, runtime.History());
      LimitCoversLanes(runtime.plan);
      if batch.None? {
        complete := true;
        return Err(StopIteration);
      }
      TimesIsMul(runtime.plan.prefetch, runtime.plan.workers);
      delivered := delivered + 1;
      r := Ok(batch.value.value);
    }

    /** Capture a checkpoint: it passes validation unchanged, its loader accepts it, and the rebuilt iteration takes up
        the undelivered units, each lane with an admitted one from the state before its first. After a delivery, or
        with the lanes ahead for another reason, the rebuilt iteration produces exactly the undelivered batches. */
    method CaptureCheckpoint(current: Bytes, ghost digest: Digest) returns (c: Checkpoint)
      requires Valid()
      modifies runtime`ready, runtime.pool
      ensures Valid() && WellFormed(c) && Parse(ToDict(c, digest), digest) == Ok(c)
      ensures c.delivered == delivered <= runtime.nextTask == c.samplerPosition <= |runtime.plan.units|
      ensures c.baseSeed == Some(runtime.plan.baseSeed) && c.reused == reused && c.currentGenerator == current
      ensures Resume(loader, c).Ok?
      ensures Continues(loader, runtime.plan, Resume(loader, c).value, delivered, runtime.nextTask)
      ensures delivered > runtime.plan.start || Ahead(runtime.plan, delivered, runtime.nextTask) ==>
                var n := |runtime.plan.units|;
                Stream(Resume(loader, c).value, delivered, n) == Stream(runtime.plan, delivered, n)
    {
      var batches := runtime.CapturePoints();
      c := Checkpoint(runtime.nextTask, delivered, loader.workers, delivered % loader.workers, reused,
                      Some(runtime.plan.baseSeed), generator, current, StatesOf(batches), SeedsOf(batches),
                      loader.fingerprint);
      RunCounts(runtime.plan, runtime.runs, runtime.History());
      CaptureAccepted(loader, runtime.plan, generator, current, reused, delivered, runtime.nextTask, batches, digest);
      ResumeAccepted(loader, runtime.plan, generator, current, reused, delivered, runtime.nextTask, batches);
      if Ahead(runtime.plan, delivered, runtime.nextTask) {
        CoveredRestores(loader, runtime.plan, delivered, runtime.nextTask);
        BatchesExact(loader, runtime.plan, Resume(loader, c).value, delivered, runtime.nextTask);
      }
    }

    /** Stop an abandoned iterator: it delivers nothing more. */
    method Invalidate()
      modifies `active
      ensures !active
    {
      active := false;
    }
  }
}
