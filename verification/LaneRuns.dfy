/** The runs of one iteration, in either delivery order: every state reachable from its start. */
module LaneRuns {
  import opened Outcomes
  import opened Lanes
  import opened LaneSystem
  import opened LaneLedger
  import opened LaneProgress
  import InOrder = LaneInOrder
  import AnyOrder = LaneAnyOrder

  ghost predicate Reachable(e: Iteration, r: Run)
    requires e.Valid()
  {
    exists moves :: AfterAll(e, Begin(e), moves) == r
  }

  /** `runs` is the set of all reachable runs. */
  ghost predicate RunsOf(e: Iteration, runs: iset<Run>) {
    e.Valid() && forall r {:trigger Reachable(e, r)} :: r in runs <==> Reachable(e, r)
  }

  lemma RunsExist(e: Iteration) returns (runs: iset<Run>)
    requires e.Valid()
    ensures RunsOf(e, runs) && Begin(e) in runs
  {
    runs := iset r | Reachable(e, r);
    assert AfterAll(e, Begin(e), []) == Begin(e);
    assert Reachable(e, Begin(e));
  }

  lemma {:induction false} AfterOneMore(e: Iteration, r: Run, moves: seq<Move>, m: Move)
    requires e.workers > 0 && |r.system.pool.lanes| == e.workers && e.start <= r.system.nextTask
    ensures var s := AfterAll(e, r, moves).system; |s.pool.lanes| == e.workers && e.start <= s.nextTask
    ensures AfterAll(e, r, moves + [m]) == After(e, AfterAll(e, r, moves), m)
    decreases |moves|
  {
    if moves == [] {
      assert ([] + [m])[1..] == [] && AfterAll(e, After(e, r, m), []) == After(e, r, m);
    } else {
      AfterOneMore(e, After(e, r, moves[0]), moves[1..], m);
      assert (moves + [m])[1..] == moves[1..] + [m];
    }
  }

  /** What holds of every run, in the delivery order of the iteration. */
  ghost predicate Safe(e: Iteration, r: Run) {
    if e.inOrder then InOrder.Inv(e, r) else AnyOrder.Inv(e, r)
  }

  lemma RunIsSafe(e: Iteration, runs: iset<Run>, r: Run)
    requires RunsOf(e, runs) && r in runs
    ensures Safe(e, r)
  {
    assert Reachable(e, r);
    var moves :| AfterAll(e, Begin(e), moves) == r;
    if e.inOrder {
      InOrder.BeginKeeps(e);
      InOrder.RunKeeps(e, Begin(e), moves);
    } else {
      AnyOrder.BeginKeeps(e);
      AnyOrder.RunKeeps(e, Begin(e), moves);
    }
  }

  /** No run has a fault, and its counts agree. */
  lemma RunCounts(e: Iteration, runs: iset<Run>, r: Run)
    requires RunsOf(e, runs) && r in runs
    ensures e.workers > 0 && |r.system.pool.lanes| == e.workers && e.start <= r.system.nextTask
    ensures CountsAt(e, r.system) && r.faults == [] && Remaining(e, r.system) >= 0
    ensures forall t: nat | t in r.system.pool.pending :: t < r.system.nextTask
  {
    RunIsSafe(e, runs, r);
    if e.inOrder { var v, heads :| InOrder.At(e, v, r.system, heads); }
  }

  /** One more move of a run: it faults nothing and is nearer the end. */
  lemma Moved(e: Iteration, runs: iset<Run>, r: Run, m: Move) returns (r': Run)
    requires RunsOf(e, runs) && r in runs && Enabled(e, r.system, m)
    ensures e.workers > 0 && |r.system.pool.lanes| == e.workers && e.start <= r.system.nextTask
    ensures r' == After(e, r, m) && r' in runs && Step(e, r.system, m).fault.None?
    ensures 0 <= Remaining(e, r'.system) < Remaining(e, r.system)
  {
    RunCounts(e, runs, r);
    assert Reachable(e, r);
    var moves :| AfterAll(e, Begin(e), moves) == r;
    AfterOneMore(e, Begin(e), moves, m);
    r' := After(e, r, m);
    assert Reachable(e, r');
    RunCounts(e, runs, r');
    RunIsSafe(e, runs, r);
    if e.inOrder { InOrder.OneMoveNearer(e, r, m); } else { AnyOrder.OneMoveNearer(e, r, m); }
  }

  /** The oldest command of a lane runs. */
  lemma Ran(e: Iteration, runs: iset<Run>, r: Run, w: nat) returns (r': Run)
    requires RunsOf(e, runs) && r in runs && w < |r.system.pool.lanes| && r.system.pool.lanes[w].queue != []
    ensures r' == r.(system := r.system.(pool := RunOldest(e, r.system.pool, w))) && r' in runs
    ensures 0 <= Remaining(e, r'.system) < Remaining(e, r.system)
  {
    r' := Moved(e, runs, r, Move.Execute(w));
  }

  /** The lanes running on their own are moves of the run; the owner's side does not change. */
  lemma {:induction false} Advanced(e: Iteration, runs: iset<Run>, r: Run, ws: seq<nat>) returns (r': Run)
    requires RunsOf(e, runs) && r in runs
    ensures r' == r.(system := r.system.(pool := ExecuteAll(e, r.system.pool, ws))) && r' in runs
    ensures 0 <= Remaining(e, r'.system) <= Remaining(e, r.system)
    decreases |ws|
  {
    RunCounts(e, runs, r);
    r' := r;
    if ws != [] {
      if ws[0] < |r.system.pool.lanes| && r.system.pool.lanes[ws[0]].queue != [] { r' := Ran(e, runs, r, ws[0]); }
      r' := Advanced(e, runs, r', ws[1..]);
    }
  }

  /** A completion is always from the lane that owns it. */
  lemma Took(e: Iteration, runs: iset<Run>, r: Run, w: nat, b: TaggedBatch) returns (r': Run)
    requires RunsOf(e, runs) && r in runs
    requires w < |r.system.pool.lanes| && r.system.pool.lanes[w].done != [] && r.system.pool.lanes[w].done[0] == b
    ensures Owned(r.system.pool.pending, b.batch, w)
    ensures r' == r.(system := r.system.(pool := TakeCompletion(r.system.pool, w),
                                         ready := r.system.ready[b.batch := b]))
    ensures r' in runs && 0 <= Remaining(e, r'.system) < Remaining(e, r.system)
  {
    r' := Moved(e, runs, r, Move.Receive(w));
  }

  /** Admitting below the limit never drops the unit it draws. */
  lemma Admitted(e: Iteration, runs: iset<Run>, r: Run) returns (r': Run)
    requires RunsOf(e, runs) && r in runs && Admitting(r.system, e.Limit())
    ensures e.workers > 0 && |r.system.pool.lanes| == e.workers && e.start <= r.system.nextTask
    ensures AdmitUnit(e, r.system) == Outcome(r'.system, None, None) && r' == r.(system := r'.system)
    ensures r' in runs && 0 <= Remaining(e, r'.system) < Remaining(e, r.system)
  {
    RunCounts(e, runs, r);
    r' := Moved(e, runs, r, Move.Admit);
    AdmitEffect(e, r.system, r'.system);
  }

  lemma AdmitEffect(e: Iteration, s: System, s': System)
    requires e.workers > 0 && |s.pool.lanes| == e.workers && e.start <= s.nextTask == s.drawn <= |e.units|
    requires !s.exhausted
    requires AdmitUnit(e, s).fault.None? && AdmitUnit(e, s).system == s'
    ensures AdmitUnit(e, s).delivered.None? && s'.exhausted == (s.nextTask == |e.units|)
    ensures s'.ready == s.ready && s'.nextDelivery == s.nextDelivery && |s'.pool.pending| <= |s.pool.pending| + 1
  {
  }

  /** Delivering: in order the batch is the next task's own. */
  lemma Delivered(e: Iteration, runs: iset<Run>, r: Run, task: nat, b: TaggedBatch) returns (r': Run)
    requires RunsOf(e, runs) && r in runs
    requires task in r.system.ready && r.system.ready[task] == b && (e.inOrder ==> task == r.system.nextDelivery)
    ensures r'.system == r.system.(ready := r.system.ready - {task}, nextDelivery := r.system.nextDelivery + 1)
    ensures r'.delivered == r.delivered + [b] && r'.faults == r.faults
    ensures r' in runs && 0 <= Remaining(e, r'.system) < Remaining(e, r.system)
    ensures e.inOrder ==> task < |e.units| && b == Expected(e, task)
  {
    r' := Moved(e, runs, r, Move.Deliver(task));
    if e.inOrder { LastDelivered(e, runs, r, r', b); }
  }

  lemma LastDelivered(e: Iteration, runs: iset<Run>, r: Run, r': Run, b: TaggedBatch)
    requires RunsOf(e, runs) && r in runs && r' in runs && e.inOrder
    requires r'.delivered == r.delivered + [b] && r'.system.nextDelivery == r.system.nextDelivery + 1
    ensures r.system.nextDelivery < |e.units| && b == Expected(e, r.system.nextDelivery)
  {
    RunIsSafe(e, runs, r);
    RunIsSafe(e, runs, r');
    RunCounts(e, runs, r);
    RunCounts(e, runs, r');
    assert r'.delivered[|r'.delivered| - 1] == b;
  }

  /** A pending task is held by some lane. */
  lemma BusyLane(e: Iteration, runs: iset<Run>, r: Run) returns (w: nat)
    requires RunsOf(e, runs) && r in runs && r.system.pool.pending != map[]
    ensures w < e.workers == |r.system.pool.lanes| && r.system.pool.lanes[w].Outstanding() > 0
  {
    RunIsSafe(e, runs, r);
    if e.inOrder { w := InOrder.BusyLane(e, r); } else { w := AnyOrder.BusyLane(e, r); }
  }

  /** An owner that waits has something to wait for. */
  lemma WaitsForSomething(e: Iteration, runs: iset<Run>, r: Run)
    requires RunsOf(e, runs) && r in runs
    requires !(r.system.exhausted && r.system.pool.pending == map[] && r.system.ready == map[])
    requires r.system.exhausted || |r.system.ready| + |r.system.pool.pending| >= e.Limit()
    requires if e.inOrder then r.system.nextDelivery !in r.system.ready else r.system.ready == map[]
    ensures r.system.pool.pending != map[]
  {
    RunCounts(e, runs, r);
    RunIsSafe(e, runs, r);
    InOrder.LimitPositive(e);
    if e.inOrder && r.system.nextDelivery < r.system.nextTask { InOrder.NextHeld(e, r); }
  }

  /** In order, a drained lane is in the state after exactly its admitted tasks. */
  lemma DrainedLane(e: Iteration, runs: iset<Run>, r: Run, w: nat)
    requires RunsOf(e, runs) && r in runs && e.inOrder && r.system.pool.pending == map[] && w < e.workers
    ensures |r.system.pool.lanes| == e.workers
    ensures var next := FirstOn(e.workers, r.system.nextTask, w);
            next < |e.units| + e.workers && r.system.pool.lanes[w] == Lane([], [], Before(e, next))
  {
    RunIsSafe(e, runs, r);
    InOrder.IdleLane(e, r, w);
  }
}
