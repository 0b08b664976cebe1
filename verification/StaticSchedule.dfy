/** The scheduler object: fields updated in place, each method proved to perform one step of the
    frontier state machine. */
module StaticSchedule {
  import opened Words
  import opened Outcomes
  import opened Schedule
  import opened Positions

  class StaticSchedule {
    const end: u64
    var depth: nat
    var workerCount: nat
    const workerCeiling: nat
    var nextCommit: nat
    var dispatchOrdinal: nat
    var positions: map<nat, PositionState>
    var delivered: set<nat>
    /** Where the whole history started, and every position committed in it, in order. */
    ghost const start: nat
    ghost var committed: seq<nat>

    ghost function View(): State
      reads this
    {
      State(end, depth, workerCount, workerCeiling, nextCommit, dispatchOrdinal, positions, delivered)
    }

    ghost function History(): Run
      reads this
    {
      Run(View(), committed)
    }

    ghost predicate Valid()
      reads this
    {
      Inv(start, History()) && OrdinalBounded(start, View())
    }

    /** A schedule over [from, end) whose earlier positions `past` were committed by previous runs. */
    constructor (ghost origin: nat, ghost past: seq<nat>, from: u64, end: u64, depth: nat, workers: nat)
      requires from <= end && depth > 0 && workers > 0
      requires origin <= from && Distinct(past) && forall p: nat :: p in past <==> origin <= p < from
      ensures Valid() && start == origin && committed == past
      ensures Schedule.New(from, end, depth, workers) == Ok(View())
    {
      this.end := end;
      this.depth := depth;
      this.workerCount, this.workerCeiling := workers, workers;
      this.nextCommit, this.dispatchOrdinal := from, 0;
      this.positions, this.delivered := map[], {};
      this.start, this.committed := origin, past;
      new;
      SumAtMostOne(Awaiting(View()), origin, end);
    }

    /** Every unsubmitted position admitted by the current frontier, in order. */
    method DispatchCandidates() returns (candidates: seq<nat>)
      requires Valid()
      ensures forall p: nat :: p in candidates <==> View().Eligible(p)
      ensures forall i, j | 0 <= i < j < |candidates| :: candidates[i] < candidates[j]
    {
      var stop := Min(SaturatingAdd(nextCommit, depth), end);
      candidates := [];
      var p := nextCommit;
      while p < stop
        invariant nextCommit <= p
        invariant forall q: nat :: q in candidates <==> View().Eligible(q) && q < p
        invariant forall i | 0 <= i < |candidates| :: candidates[i] < p
        invariant forall i, j | 0 <= i < j < |candidates| :: candidates[i] < candidates[j]
      {
        if p !in positions && p !in delivered {
          candidates := candidates + [p];
        }
        p := p + 1;
      }
    }

    /** The next first-in-first-out dispatch while the frontier has room. */
    method NextDispatch() returns (r: Option<Dispatch>)
      requires Valid()
      ensures r.None? ==> forall p: nat :: !View().Eligible(p)
      ensures r.Some? ==> r == View().DispatchAt(r.value.position)
      ensures r.Some? ==> forall p: nat | View().Eligible(p) :: r.value.position <= p
    {
      var candidates := DispatchCandidates();
      if candidates == [] {
        return None;
      }
      assert candidates[0] in candidates;
      r := DispatchAt(candidates[0]);
    }

    method DispatchAt(position: nat) returns (r: Option<Dispatch>)
      requires Valid()
      ensures r == View().DispatchAt(position)
    {
      var stop := Min(SaturatingAdd(nextCommit, depth), end);
      if position < nextCommit || position >= stop || position in positions || position in delivered {
        return None;
      }
      r := Some(Dispatch(position, dispatchOrdinal % workerCount));
    }

    method MarkDispatched(dispatch: Dispatch) returns (error: Option<ScheduleError>)
      requires Valid()
      modifies this
      ensures Valid() && History() == After(old(History()), Op.MarkDispatched(dispatch))
      ensures error == Step(old(View()), Op.MarkDispatched(dispatch)).error
    {
      StepKeeps(start, History(), Op.MarkDispatched(dispatch));
      OrdinalKept(start, History(), Op.MarkDispatched(dispatch));
      var expected := DispatchAt(dispatch.position);
      if Some(dispatch) != expected {
        return Some(NotEligible);
      }
      positions := positions[dispatch.position := Dispatched(dispatch.worker)];
      var ordinal: u64 := dispatchOrdinal + 1;
      dispatchOrdinal := ordinal;
      error := None;
    }

    method MarkCompleted(dispatch: Dispatch) returns (error: Option<ScheduleError>)
      requires Valid()
      modifies this
      ensures Valid() && History() == After(old(History()), Op.MarkCompleted(dispatch))
      ensures error == Step(old(View()), Op.MarkCompleted(dispatch)).error
    {
      StepKeeps(start, History(), Op.MarkCompleted(dispatch));
      OrdinalKept(start, History(), Op.MarkCompleted(dispatch));
      if dispatch.position !in positions {
        return Some(OutsideFrontier);
      }
      match positions[dispatch.position] {
        case Dispatched(worker) =>
          if worker != dispatch.worker {
            return Some(WrongWorker);
          }
          positions := positions[dispatch.position := Ready(dispatch.worker)];
          error := None;
        case Ready(_) => error := Some(CompletedTwice);
      }
    }

    method TryCommit() returns (r: Option<nat>)
      requires Valid()
      modifies this
      ensures Valid() && History() == After(old(History()), Op.TryCommit)
      ensures r == Step(old(View()), Op.TryCommit).committed
    {
      r := TryCommitReady(nextCommit);
    }

    /** Advance the commit base over the deliveries that follow it. */
    method SkipDelivered()
      modifies `nextCommit, `delivered
      ensures (nextCommit, delivered) == Advance(old(nextCommit), old(delivered))
    {
      while nextCommit in delivered
        invariant Advance(nextCommit, delivered) == Advance(old(nextCommit), old(delivered))
        decreases |delivered|
      {
        delivered := delivered - {nextCommit};
        nextCommit := nextCommit + 1;
      }
    }

    /** Commit one ready position; a commit at the base also skips the deliveries that follow it. */
    method TryCommitReady(position: nat) returns (r: Option<nat>)
      requires Valid()
      modifies this
      ensures Valid() && History() == After(old(History()), Op.TryCommitReady(position))
      ensures r == Step(old(View()), Op.TryCommitReady(position)).committed
    {
      StepKeeps(start, History(), Op.TryCommitReady(position));
      OrdinalKept(start, History(), Op.TryCommitReady(position));
      if !(position in positions && positions[position].Ready?) {
        return None;
      }
      positions := positions - {position};
      if position == nextCommit {
        nextCommit := nextCommit + 1;
        SkipDelivered();
      } else {
        delivered := delivered + {position};
      }
      committed := committed + [position];
      r := Some(position);
    }

    /** Record a delivery of an earlier run beyond the commit base. */
    method SeedDelivered(position: nat) returns (error: Option<ScheduleError>)
      requires Valid()
      modifies this
      ensures Valid()
      ensures var r := Schedule.SeedDelivered(old(View()), position);
              match r
              case Ok(next) => error.None? && View() == next && committed == old(committed) + [position]
              case Err(e) => error == Some(e) && History() == old(History())
    {
      if position <= nextCommit || position >= end {
        return Some(OutsideOpenRange);
      }
      if position in positions || position in delivered {
        return Some(DeliveredTwice);
      }
      SeedKeeps(start, History(), position);
      delivered := delivered + {position};
      committed := committed + [position];
      error := None;
    }

    /** A new schedule from a checkpoint of this one: its commit base and its deliveries in some order. It never
        fails, continues the same history and holds nothing in flight. */
    method Rebuilt(order: seq<nat>, newDepth: nat, newWorkers: nat) returns (s: StaticSchedule)
      requires Valid() && newDepth > 0 && newWorkers > 0
      requires Admissible(View(), Op.Resume(newDepth, newWorkers, order))
      ensures fresh(s) && s.Valid() && s.start == start
      ensures s.View() == Step(View(), Op.Resume(newDepth, newWorkers, order)).state
      ensures forall p: nat :: p in s.committed <==> p in committed
    {
      ghost var op := Op.Resume(newDepth, newWorkers, order);
      ResumeKeeps(start, History(), op);
      RangeHistory(start, nextCommit);
      s := new StaticSchedule(start, Range(start, nextCommit), nextCommit, end, newDepth, newWorkers);
      ghost var blank := s.View();
      var i := 0;
      while i < |order|
        invariant 0 <= i <= |order| && fresh(s) && s.Valid() && s.start == start
        invariant SeedAll(s.View(), order[i..]) == SeedAll(blank, order)
        invariant SeedAll(blank, order).Ok?
      {
        var error := s.SeedDelivered(order[i]);
        assert order[i..][1..] == order[i + 1..];
        i := i + 1;
      }
    }

    /** True once nothing of the range is left to dispatch, complete or commit. */
    method IsComplete() returns (complete: bool)
      requires Valid()
      ensures complete == View().Complete()
      ensures complete ==> forall p: nat :: p in committed <==> start <= p < end
    {
      complete := nextCommit == end && |positions| == 0 && |delivered| == 0;
    }

    /** Widen or narrow the window; a depth that would leave an active position outside is refused. */
    method SetDepth(newDepth: nat) returns (error: Option<ScheduleError>)
      requires Valid()
      modifies this
      ensures Valid() && History() == After(old(History()), Op.SetDepth(newDepth))
      ensures error == Step(old(View()), Op.SetDepth(newDepth)).error
    {
      StepKeeps(start, History(), Op.SetDepth(newDepth));
      OrdinalKept(start, History(), Op.SetDepth(newDepth));
      if newDepth == 0 {
        return Some(ZeroDepth);
      }
      var stop := SaturatingAdd(nextCommit, newDepth);
      if exists p :: p in positions && p >= stop {
        return Some(DepthExcludesActive);
      }
      depth := newDepth;
      error := None;
    }

    /** Route over fewer or more workers, up to the ceiling fixed at the start. */
    method SetWorkerCount(workers: nat) returns (error: Option<ScheduleError>)
      requires Valid()
      modifies this
      ensures Valid() && History() == After(old(History()), Op.SetWorkerCount(workers))
      ensures error == Step(old(View()), Op.SetWorkerCount(workers)).error
    {
      StepKeeps(start, History(), Op.SetWorkerCount(workers));
      OrdinalKept(start, History(), Op.SetWorkerCount(workers));
      if workers == 0 || workers > workerCeiling {
        return Some(WidthOutsideCeiling);
      }
      workerCount := workers;
      dispatchOrdinal := dispatchOrdinal % workers;
      error := None;
    }
  }
}
