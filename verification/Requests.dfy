/** What each request does to the frontier schedule: which positions the window admits, what becomes of a dispatched
    position, and why a request is refused. */
module Requests {
  import opened Outcomes
  import opened Schedule

  /** A position may be dispatched exactly when it is below the end and less than a depth beyond the base, and neither
      active nor delivered: the saturation of the window's end never matters. */
  lemma Window(s: State, p: nat)
    ensures s.Eligible(p) <==>
              && s.nextCommit <= p < s.nextCommit + s.depth && p < s.end
              && p !in s.positions && p !in s.delivered
  {
  }

  /** A request that is refused. */
  ghost predicate Refused(s: State, op: Op, e: ScheduleError)
    requires s.workerCount > 0
  {
    Step(s, op) == Outcome(s, Some(e), None)
  }

  /** Nothing but the position itself, and the turn, is changed. */
  predicate OnlyAt(s: State, t: State, p: nat) {
    && t == s.(positions := t.positions, dispatchOrdinal := t.dispatchOrdinal)
    && t.positions - {p} == s.positions - {p}
  }

  /** A dispatched position waits for its own worker: nobody else completes it and nothing commits it. */
  lemma AfterDispatch(s: State, d: Dispatch, w: nat)
    requires s.workerCount > 0 && Step(s, MarkDispatched(d)).error.None?
    ensures var t := Step(s, MarkDispatched(d)).state;
      && OnlyAt(s, t, d.position)
      && Refused(t, MarkDispatched(Dispatch(d.position, w)), NotEligible)
      && Step(t, TryCommitReady(d.position)) == Outcome(t, None, None)
      && (w != d.worker ==> Refused(t, MarkCompleted(Dispatch(d.position, w)), WrongWorker))
      && Step(t, MarkCompleted(d)).error.None?
  {
  }

  /** Once completed it is not completed again, and it commits, whatever the others do. */
  lemma AfterCompletion(s: State, d: Dispatch, w: nat)
    requires s.workerCount > 0 && Step(s, MarkCompleted(d)).error.None?
    ensures d.position in s.positions && s.positions[d.position] == Dispatched(d.worker)
    ensures var t := Step(s, MarkCompleted(d)).state;
      && OnlyAt(s, t, d.position) && t.dispatchOrdinal == s.dispatchOrdinal
      && Refused(t, MarkDispatched(Dispatch(d.position, w)), NotEligible)
      && Refused(t, MarkCompleted(Dispatch(d.position, w)), CompletedTwice)
      && Step(t, TryCommitReady(d.position)).committed == Some(d.position)
  {
  }

  /** Once committed it is gone for good. */
  lemma AfterCommit(start: nat, s: State, p: nat, w: nat)
    requires Shape(start, s) && Step(s, TryCommitReady(p)).committed == Some(p)
    ensures p in s.positions && s.positions[p].Ready?
    ensures var t := Step(s, TryCommitReady(p)).state;
      && t.positions == s.positions - {p} && t.depth == s.depth && t.workerCount == s.workerCount
      && Refused(t, MarkDispatched(Dispatch(p, w)), NotEligible)
      && Refused(t, MarkCompleted(Dispatch(p, w)), OutsideFrontier)
      && Step(t, TryCommitReady(p)) == Outcome(t, None, None)
  {
    if p == s.nextCommit { AdvanceSkips(p + 1, s.delivered); }
  }

  /** A completion of a position that is not active is refused, and so is a dispatch outside the window. */
  lemma NotActive(s: State, d: Dispatch)
    requires s.workerCount > 0
    ensures d.position !in s.positions ==> Refused(s, MarkCompleted(d), OutsideFrontier)
    ensures !s.Eligible(d.position) ==> Refused(s, MarkDispatched(d), NotEligible)
  {
  }

  /** The window may be given any positive depth that keeps the active positions inside. */
  lemma DepthChange(start: nat, s: State, depth: nat)
    requires Shape(start, s)
    ensures depth == 0 ==> Refused(s, SetDepth(depth), ZeroDepth)
    ensures depth > 0 ==>
              var kept := forall p | p in s.positions :: p < s.nextCommit + depth;
              if kept then Step(s, SetDepth(depth)) == Outcome(s.(depth := depth), None, None)
              else Refused(s, SetDepth(depth), DepthExcludesActive)
  {
    if depth > 0 && !(forall p | p in s.positions :: p < s.nextCommit + depth) {
      var p :| p in s.positions && p >= s.nextCommit + depth;
      assert p >= SaturatingAdd(s.nextCommit, depth);
    }
  }

  /** A width is refused outside the ceiling and otherwise changes nothing but the routing. */
  lemma WidthChange(s: State, workers: nat)
    requires s.workerCount > 0
    ensures workers == 0 || workers > s.workerCeiling ==> Refused(s, SetWorkerCount(workers), WidthOutsideCeiling)
    ensures 0 < workers <= s.workerCeiling ==>
              var o := Step(s, SetWorkerCount(workers));
              && o.error.None? && o.committed.None?
              && o.state == s.(workerCount := workers, dispatchOrdinal := o.state.dispatchOrdinal)
  {
  }

  /** A new schedule needs an end at or after its start, then a depth, then a worker. */
  lemma NewIs(start: nat, end: nat, depth: nat, workers: nat)
    requires start < 0x1_0000_0000_0000_0000 && end < 0x1_0000_0000_0000_0000
    ensures New(start, end, depth, workers)
         == if start > end then Err(EndPrecedesStart)
            else if depth < 1 then Err(ZeroDepth)
            else if workers < 1 then Err(ZeroWorkers)
            else Ok(State(end, depth, workers, workers, start, 0, map[], {}))
  {
  }

  /** A restored delivery lies strictly between the base and the end and is new; it is then never dispatched. */
  lemma SeedIs(s: State, p: nat)
    ensures !(s.nextCommit < p < s.end) ==> SeedDelivered(s, p) == Err(OutsideOpenRange)
    ensures s.nextCommit < p < s.end ==>
              if p in s.positions || p in s.delivered then SeedDelivered(s, p) == Err(DeliveredTwice)
              else
                && SeedDelivered(s, p).Ok? && p in SeedDelivered(s, p).value.delivered
                && SeedDelivered(s, p).value == s.(delivered := SeedDelivered(s, p).value.delivered)
                && SeedDelivered(s, p).value.delivered - {p} == s.delivered
                && !SeedDelivered(s, p).value.Eligible(p)
  {
  }
}
