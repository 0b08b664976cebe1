/** The loader object: each iteration starts a new pool, reuses drained lanes, or resumes a checkpoint. */
module MultiMap {
  import opened Outcomes
  import opened Lanes
  import opened LaneSystem
  import opened LaneRuns
  import opened LanePool
  import opened LaneRuntime
  import opened CompatState
  import opened LaneResume
  import opened ResumeRefusals
  import opened MultiIterator

  class CompatLoader {
    const loader: Loader
    const persistent: bool
    var pool: CompatLanePool?
    var active: CompatMultiIterator?
    var baseSeed: Option<int>
    var hasStarted: bool
    var resume: Option<Checkpoint>
    var generator: Bytes

    /** An open pool belongs to the last iterator. */
    ghost predicate Valid()
      reads this, active, if active == null then {} else {active.runtime, active.runtime.pool}
    {
      && loader.Valid()
      && (active != null ==> active.Valid() && active.loader == loader)
      && (pool != null ==>
            && active != null && active.runtime.pool == pool && hasStarted
            && baseSeed == Some(active.runtime.plan.baseSeed))
    }

    /** The iteration that would begin now, with no checkpoint to resume. */
    ghost function Upcoming(): Iteration
      requires Valid()
      reads this, active, if active == null then {} else {active.runtime, active.runtime.pool}
    {
      if persistent && pool != null then
        Retained(loader, generator, baseSeed.value, LanesLeft(active.runtime.plan, active.runtime.nextTask))
      else Fresh(loader, generator)
    }

    /** No lanes are retained, or their iteration would have nothing a fresh one has not. */
    ghost predicate StartsFresh()
      requires Valid()
      reads this, active, if active == null then {} else {active.runtime, active.runtime.pool}
    {
      persistent && pool != null ==>
        LikeFresh(loader, generator, baseSeed.value, LanesLeft(active.runtime.plan, active.runtime.nextTask))
    }

    constructor (loader: Loader, persistent: bool, generator: Bytes)
      requires loader.Valid()
      ensures Valid() && this.loader == loader && this.persistent == persistent && this.generator == generator
      ensures pool == null && active == null && resume == None && !hasStarted
    {
      this.loader, this.persistent, this.generator := loader, persistent, generator;
      pool, active, baseSeed, hasStarted, resume := null, null, None, false, None;
    }

    /** Install a validated checkpoint: the last iterator stops, its pool closes and the generator goes back. */
    method RestoreState(c: Checkpoint) returns (error: Option<ResumeError>)
      requires Valid() && WellFormed(c)
      modifies this, active
      ensures Valid()
      ensures error == (if c.workers != loader.workers then Some(WorkersChanged)
                        else if !SameContract(c.fingerprint, loader.fingerprint) then Some(ContractChanged) else None)
      ensures error == Some(ContractChanged)
         <==> c.workers == loader.workers
              && exists path: Word :: ValueAt(c.fingerprint, path) != ValueAt(loader.fingerprint, path)
      ensures error.None? ==> resume == Some(c) && pool == null && active == null && generator == c.currentGenerator
      ensures error.None? && old(active) != null ==> !old(active).active
    {
      ContractIsValues(c.fingerprint, loader.fingerprint);
      if c.workers != loader.workers {
        return Some(WorkersChanged);
      }
      if !SameContract(c.fingerprint, loader.fingerprint) {
        return Some(ContractChanged);
      }
      if active != null {
        active.Invalidate();
      }
      active, pool, baseSeed := null, null, None;
      generator := c.currentGenerator;
      resume := Some(c);
      error := None;
    }

    /** Capture a continuation: of the iterator under way, or the checkpoint still to be resumed, or a blank one. The
        blank one resumes to a fresh iteration: to the one that would begin now if no lanes are retained, and with
        retained lanes only if their iteration has nothing a fresh one would not have. */
    method CaptureState(ghost digest: Digest) returns (c: Checkpoint)
      requires Valid() && (resume.Some? ==> WellFormed(resume.value))
      modifies if active == null then {} else {active.runtime, active.runtime.pool}
      ensures Valid() && WellFormed(c)
      ensures active != null && !active.complete ==>
                && Parse(ToDict(c, digest), digest) == Ok(c) && Resume(loader, c).Ok?
                && Continues(loader, active.runtime.plan, Resume(loader, c).value, active.delivered,
                             active.runtime.nextTask)
      ensures (active == null || active.complete) && resume.Some? ==> c == resume.value
      ensures (active != null && !active.complete) || resume.None? ==> c.currentGenerator == generator
      ensures (active == null || active.complete) && resume.None? ==>
                && Resume(loader, c) == Ok(Fresh(loader, generator))
                && (Resume(loader, c) == Ok(Upcoming()) <==> StartsFresh())
    {
      if active != null && !active.complete {
        c := active.CaptureCheckpoint(generator, digest);
        return;
      }
      if resume.Some? {
        return resume.value;
      }
      c := Checkpoint(0, 0, loader.workers, 0, false, None, generator, generator, [], [], loader.fingerprint);
      BlankResumesFresh(loader, c, generator);
      if persistent && pool != null {
        RetainedIsFresh(loader, generator, baseSeed.value, LanesLeft(active.runtime.plan, active.runtime.nextTask));
      }
    }

    /** The RNG states the retained lanes were left in, once everything admitted has run. */
    method DrainLanes() returns (left: seq<Bytes>)
      requires Valid() && pool != null
      modifies pool
      ensures left == LanesLeft(active.runtime.plan, active.runtime.nextTask)
    {
      var open, runtime := pool, active.runtime;
      ghost var drained := open.Drain(runtime.runs, runtime.History());
      var lanes := open.lanes;
      left := seq(|lanes|, w requires 0 <= w < |lanes| => lanes[w].rng);
    }

    /** Put a new pool, owner and iterator over a plan, and make them the loader's own. */
    method Start(plan: Iteration, iteratorGenerator: Bytes, reused: bool, requested: Option<nat>)
      returns (it: CompatMultiIterator)
      requires Of(loader, plan, iteratorGenerator, reused)
      modifies `pool, `active, `baseSeed, `resume, `hasStarted
      ensures Begun(it) && fresh({it, it.runtime, it.runtime.pool})
      ensures it.runtime.plan == plan && it.generator == iteratorGenerator && it.reused == reused
    {
      var lanes := new CompatLanePool(plan);
      assert lanes.View().lanes == LaneSystem.Begin(plan).system.pool.lanes;
      var runtime := new CompatLaneRuntime(plan, lanes, requested);
      it := new CompatMultiIterator(loader, runtime, iteratorGenerator, reused);
      pool, active, baseSeed, resume, hasStarted := lanes, it, Some(plan.baseSeed), None, true;
    }

    /** Begin the iteration a checkpoint rebuilds, with the generator put back to where the capture left it. */
    method BeginResumed() returns (r: Result<CompatMultiIterator, ResumeError>)
      requires loader.Valid() && resume.Some? && WellFormed(resume.value)
      modifies this
      ensures r.Ok? ==> Begun(r.value) && fresh({r.value, r.value.runtime, r.value.runtime.pool})
      ensures Resume(loader, old(resume).value).Ok? ==>
                && r.Ok? && r.value.runtime.plan == Resume(loader, old(resume).value).value
                && generator == old(resume).value.currentGenerator
      ensures Resume(loader, old(resume).value).Err? ==> r == Err(Resume(loader, old(resume).value).error)
    {
      var c := resume.value;
      generator := c.iteratorGenerator;
      var rebuilt := Resume(loader, c);
      if rebuilt.Err? {
        return Err(rebuilt.error);
      }
      ResumedOf(loader, c);
      var it := Start(rebuilt.value, c.iteratorGenerator, c.reused, Some(c.samplerPosition - c.delivered));
      generator := c.currentGenerator;
      r := Ok(it);
    }

    /** Begin an iteration over the retained lanes, or over new ones, drawing their base seed first; the sampler then
        draws its order. */
    method BeginAnew(retain: bool, left: seq<Bytes>) returns (it: CompatMultiIterator)
      requires loader.Valid() && (retain ==> baseSeed.Some? && |left| == loader.workers)
      modifies this
      ensures Begun(it) && fresh({it, it.runtime, it.runtime.pool}) && it.reused == retain
      ensures it.runtime.plan == if retain then Retained(loader, old(generator), old(baseSeed).value, left)
                                 else Fresh(loader, old(generator))
      ensures retain ==> generator == loader.order(old(generator)).generator
      ensures !retain ==> generator == loader.order(loader.draw(old(generator)).generator).generator
    {
      var before := generator;
      if retain {
        it := Start(Retained(loader, before, baseSeed.value, left), before, true, None);
      } else {
        FreshRestores(loader, before, 0);
        it := Start(Fresh(loader, before), before, false, None);
        generator := loader.draw(before).generator;
      }
      generator := loader.order(generator).generator;
    }

    /** The iterator is the loader's own and has delivered nothing yet. */
    ghost predicate Begun(it: CompatMultiIterator)
      reads this, it, it.runtime, it.runtime.pool
    {
      && active == it && Valid() && pool != null && it.active && !it.complete && it.delivered == it.runtime.plan.start
      && resume == None && hasStarted
    }

    /** Begin an iteration. Without a checkpoint it is a fresh one over a new pool, or one over the retained lanes, each
        left in the state after exactly its admitted units. With a checkpoint it is the one the checkpoint rebuilds. */
    method Iterate() returns (r: Result<CompatMultiIterator, ResumeError>)
      requires Valid() && (resume.Some? ==> WellFormed(resume.value))
      modifies this, active, pool
      ensures r.Ok? ==> Begun(r.value) && fresh({r.value, r.value.runtime, r.value.runtime.pool})
      ensures old(active) != null && !old(active.complete) ==> !old(active).active
      ensures old(resume).None? ==> r.Ok? && r.value.runtime.plan == old(Upcoming())
      ensures old(resume).None? ==> r.value.reused == (persistent && old(pool) != null)
      ensures old(resume).None? && r.value.reused ==> generator == loader.order(old(generator)).generator
      ensures old(resume).None? && !r.value.reused ==>
                generator == loader.order(loader.draw(old(generator)).generator).generator
      ensures old(resume).Some? && Resume(loader, old(resume).value).Ok? ==>
                && r.Ok? && r.value.runtime.plan == Resume(loader, old(resume).value).value
                && generator == old(resume).value.currentGenerator
      ensures old(resume).Some? && Resume(loader, old(resume).value).Err? ==>
                r == Err(Resume(loader, old(resume).value).error)
    {
      var retain := persistent && pool != null;
      if active != null && !active.complete {
        active.Invalidate();
      }
      var left := [];
      if retain {
        left := DrainLanes();
      }
      if resume.Some? {
        r := BeginResumed();
      } else {
        var it := BeginAnew(retain, left);
        r := Ok(it);
      }
    }
  }

  /** A checkpoint from before any iteration resumes to the iteration begun from the same generator state. */
  lemma BlankResumesFresh(loader: Loader, c: Checkpoint, generator: Bytes)
    requires loader.Valid()
    requires c == Checkpoint(0, 0, loader.workers, 0, false, None, generator, generator, [], [], loader.fingerprint)
    ensures WellFormed(c) && Resume(loader, c) == Ok(Fresh(loader, generator))
  {
    var e, f := Resume(loader, c).value, Fresh(loader, generator);
    assert e.initial == f.initial;
  }

  /** Deliver what is left of an iteration. */
  method Finish(it: CompatMultiIterator)
    requires it.Valid() && it.active
    modifies it, it.runtime, it.runtime.pool
    ensures it.Valid() && it.active && it.complete
  {
    var r := it.Next();
    while r.Ok?
      invariant it.Valid() && it.active && (r.Ok? || it.complete)
      decreases r.Ok?, |it.runtime.plan.units| - it.delivered
    {
      r := it.Next();
    }
  }

  /** With persistent workers, one epoch from a new loader and then a capture: the next epoch would sample from the
      generator as it stands, the checkpoint resumes to one that draws a base seed from it first. */
  method CaptureBetweenEpochs(loader: Loader, generator: Bytes, ghost digest: Digest)
    returns (owner: CompatLoader, c: Checkpoint)
    requires loader.Valid()
    ensures owner.Valid() && owner.loader == loader && owner.persistent && owner.resume.None?
    ensures owner.active != null && owner.active.complete && WellFormed(c) && Resume(loader, c).Ok?
    ensures owner.generator == Sampled(loader, generator, false)
    ensures owner.Upcoming().units == loader.order(owner.generator).units
    ensures Resume(loader, c).value.units == loader.order(loader.draw(owner.generator).generator).units
  {
    owner := new CompatLoader(loader, true, generator);
    var begun := owner.Iterate();
    Finish(begun.value);
    c := owner.CaptureState(digest);
  }

  /** Where an iteration leaves the generator: past its base seed, if one is drawn, and past its sampler's order. */
  function Sampled(loader: Loader, generator: Bytes, reused: bool): Bytes {
    loader.order(if reused then generator else loader.draw(generator).generator).generator
  }

  /** Two samples in an order that the generator state decides; drawing a seed or an order moves the generator on. */
  function TwoSamples(): Loader {
    Loader(1, 1, (q: Request) => Reply(q.payload, q.state), (g: Bytes) => Draw(0, g + [1]),
           (g: Bytes) => Sampling(if g == [1, 2] then [[0], [1]] else [[1], [0]], g + [2]), (s: LaneSeed) => [], [])
  }

  /** So the two orders can differ: a checkpoint taken between two persistent epochs can change the sample order. */
  lemma BetweenEpochsReorders()
    ensures var loader, now := TwoSamples(), Sampled(TwoSamples(), [], false);
            && loader.Valid() && loader.order(now).units == [[0], [1]]
            && loader.order(loader.draw(now).generator).units == [[1], [0]]
  {
    assert Sampled(TwoSamples(), [], false) == [1, 2] && TwoSamples().draw([1, 2]).generator == [1, 2, 1];
  }

  /** What a checkpoint rebuilds is an iteration of the loader. */
  lemma ResumedOf(loader: Loader, c: Checkpoint)
    requires loader.Valid() && WellFormed(c) && Resume(loader, c).Ok?
    ensures Of(loader, Resume(loader, c).value, c.iteratorGenerator, c.reused)
  {
    LaneOfIsMod(loader.workers, c.delivered);
  }

  /** The retained iteration has the base seed, the sampler's order and the lane states a fresh one would have. */
  ghost predicate LikeFresh(loader: Loader, generator: Bytes, base: int, left: seq<Bytes>)
    requires |left| == loader.workers
  {
    var d := loader.draw(generator);
    && base == d.seed && loader.order(generator).units == loader.order(d.generator).units
    && forall w | 0 <= w < loader.workers :: left[w] == loader.seeded(LaneSeed(base, w))
  }

  lemma RetainedIsFresh(loader: Loader, generator: Bytes, base: int, left: seq<Bytes>)
    requires |left| == loader.workers
    ensures Retained(loader, generator, base, left) == Fresh(loader, generator)
        <==> LikeFresh(loader, generator, base, left)
  {
    var fresh' := Fresh(loader, generator).initial;
    if LikeFresh(loader, generator, base, left) {
      assert left == fresh';
    }
    if left == fresh' {
      forall w | 0 <= w < loader.workers
        ensures left[w] == loader.seeded(LaneSeed(loader.draw(generator).seed, w))
      {
        assert fresh'[w] == loader.seeded(LaneSeed(loader.draw(generator).seed, w));
      }
    }
  }
}
