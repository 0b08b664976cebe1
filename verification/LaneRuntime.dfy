/** The owner's iterator as an object: it fills the lanes ahead of delivery, receives completions and delivers
    them, its fields updated in place. Each method is proved to take moves of the lane system. */
module LaneRuntime {
  import opened Words
  import opened Outcomes
  import opened Lanes
  import opened LaneSystem
  import opened LaneLedger
  import opened LaneProgress
  import opened LaneRuns
  import opened LanePool
  import opened LaneCapture

  class CompatLaneRuntime {
    const plan: Iteration
    const pool: CompatLanePool
    var ready: map<nat, TaggedBatch>
    var drawn: nat
    var nextTask: nat
    var nextDelivery: nat
    var cursor: nat
    var exhausted: bool
    var closed: bool
    ghost var delivered: seq<TaggedBatch>
    /** Every run of this iteration. */
    ghost const runs: iset<Run>

    ghost function View(): System
      reads this, pool
    {
      System(pool.View(), ready, drawn, nextTask, nextDelivery, cursor, exhausted)
    }

    ghost function History(): Run
      reads this, pool
    {
      Run(View(), [], delivered)
    }

    /** The history is a run of the lane system from the start of the iteration. */
    ghost predicate Valid()
      reads this, pool
    {
      && RunsOf(plan, runs) && pool.plan == plan && History() in runs
      && (closed ==> exhausted && nextDelivery == |plan.units|)
    }

    /** Skip the units delivered before, then fill. The requested prefetch is overwritten by the prefetch factor
        before it is used, so a new iterator admits one factor's worth of units, not one limit's worth. */
    constructor (plan: Iteration, pool: CompatLanePool, requested: Option<nat>)
      requires plan.Valid() && pool.plan == plan && pool.View() == Begin(plan).system.pool
      modifies pool
      ensures Valid() && this.plan == plan && this.pool == pool
      ensures delivered == [] && nextDelivery == plan.start
      ensures nextTask == if plan.start + plan.prefetch < |plan.units| then plan.start + plan.prefetch else |plan.units|
    {
      this.plan, this.pool := plan, pool;
      ready, cursor, exhausted, closed := map[], plan.phase, false, false;
      nextTask, nextDelivery := plan.start, plan.start;
      delivered := [];
      ghost var all := RunsExist(plan);
      runs := all;
      var position := 0;
      var skipped := 0;
      while skipped < plan.start && position < |plan.units|
        invariant skipped == position <= plan.start
      {
        position := position + 1;
        skipped := skipped + 1;
      }
      drawn := position;
      new;
      assert History() == Begin(plan);
      PrefetchWithinLimit(plan);
      Fill(Some(plan.prefetch));
      RunCounts(plan, runs, History());
    }

    /** The lane for the next task: by round robin in order, else the first lane with room from the cursor on. */
    method NextWorker() returns (worker: Option<nat>)
      requires plan.workers > 0 && plan.start <= nextTask && forall t: nat | t in pool.pending :: t < nextTask
      modifies `cursor
      ensures (worker, cursor) == LaneSystem.NextWorker(plan, old(View()))
    {
      if plan.inOrder {
        LaneOfIsMod(plan.workers, plan.phase + (nextTask - plan.start));
        return Some((plan.phase + nextTask - plan.start) % plan.workers);
      }
      TimesIsMul(plan.prefetch, plan.workers);
      RoundsIsDiv(plan.workers, plan.Limit());
      var taskLimit := Max(1, plan.prefetch * plan.workers / plan.workers);
      var tries := plan.workers;
      while tries > 0
        invariant Scan(plan, pool.pending, nextTask, cursor, tries) == LaneSystem.NextWorker(plan, old(View()))
      {
        var w := cursor % plan.workers;
        LaneOfIsMod(plan.workers, cursor);
        cursor := cursor + 1;
        tries := tries - 1;
        var held := pool.CountPending(w, nextTask);
        if held < taskLimit {
          return Some(w);
        }
      }
      worker := None;
    }

    /** One turn of the fill loop; `more` unless the sampler ended, no lane was found or the lane refused. */
    method FillOnce() returns (more: bool)
      requires plan.workers > 0 && pool.plan == plan && |pool.lanes| == plan.workers && plan.start <= nextTask
      requires forall t: nat | t in pool.pending :: t < nextTask
      modifies `cursor, `drawn, `nextTask, `exhausted, pool
      ensures View() == AdmitUnit(plan, old(View())).system
      ensures more <==> old(drawn) < |plan.units| && AdmitUnit(plan, old(View())).fault.None?
    {
      if drawn >= |plan.units| {
        exhausted := true;
        return false;
      }
      var indices := plan.units[drawn];
      drawn := drawn + 1;
      var worker := NextWorker();
      if worker.None? {
        exhausted := true;
        return false;
      }
      var accepted := pool.TrySubmit(nextTask, indices, worker.value);
      if !accepted {
        return false;
      }
      nextTask := nextTask + 1;
      more := true;
    }

    /** Admit units up to the target, or up to the limit. */
    method Fill(target: Option<nat>)
      requires Valid() && (target.Some? ==> target.value <= plan.Limit())
      modifies `cursor, `drawn, `nextTask, `exhausted, pool
      ensures Valid() && Remaining(plan, View()) <= old(Remaining(plan, View()))
      ensures nextTask == |plan.units| ||
              |ready| + |pool.pending| >= (if target.None? then plan.Limit() else target.value)
      ensures exhausted || |ready| + |pool.pending| >= (if target.None? then plan.Limit() else target.value)
      ensures old(|ready| + |pool.pending|) <= (if target.None? then plan.Limit() else target.value)
          ==> |ready| + |pool.pending| <= (if target.None? then plan.Limit() else target.value)
    {
      var limit := if target.None? then plan.Limit() else target.value;
      while !exhausted && |ready| + |pool.pending| < limit
        invariant Valid() && Remaining(plan, View()) <= old(Remaining(plan, View()))
        invariant old(|ready| + |pool.pending|) <= limit ==> |ready| + |pool.pending| <= limit
        decreases Remaining(plan, View())
      {
        ghost var before := History();
        RunCounts(plan, runs, before);
        ghost var after := Admitted(plan, runs, before);
        AdmitEffect(plan, View(), after.system);
        var more := FillOnce();
        assert History() == after;
        if !more {
          break;
        }
      }
      RunCounts(plan, runs, History());
    }

    /** The next batch, or nothing once every admitted unit is delivered and the sampler has ended. */
    method Next() returns (r: Option<TaggedBatch>)
      requires Valid()
      modifies this, pool
      ensures Valid()
      ensures r.None? ==> closed && nextDelivery == old(nextDelivery) == |plan.units| && delivered == old(delivered)
      ensures r.Some? ==> delivered == old(delivered) + [r.value] && nextDelivery == old(nextDelivery) + 1
      ensures r.Some? && plan.inOrder ==>
                old(nextDelivery) < |plan.units| && r.value == Expected(plan, old(nextDelivery))
      ensures r.Some? ==> nextTask == |plan.units| || nextTask - nextDelivery == plan.Limit()
    {
      if closed {
        return None;
      }
      r := Turn();
      while r.None? && !closed
        invariant Valid() && (closed ==> r.None?)
        invariant r.None? ==> delivered == old(delivered) && nextDelivery == old(nextDelivery)
        invariant r.Some? ==> delivered == old(delivered) + [r.value] && nextDelivery == old(nextDelivery) + 1
        invariant r.Some? && plan.inOrder ==>
                    old(nextDelivery) < |plan.units| && r.value == Expected(plan, old(nextDelivery))
        invariant r.Some? ==> nextTask == |plan.units| || nextTask - nextDelivery == plan.Limit()
        invariant 0 <= Remaining(plan, View())
        decreases if r.None? && !closed then Remaining(plan, View()) + 1 else 0
      {
        r := Turn();
      }
    }

    /** One turn of the delivery loop: deliver, or see the end, or receive or await a completion. */
    method Turn() returns (r: Option<TaggedBatch>)
      requires Valid() && !closed
      modifies this, pool
      ensures Valid() && 0 <= Remaining(plan, View())
      ensures r.None? ==> delivered == old(delivered) && nextDelivery == old(nextDelivery)
      ensures r.None? && !closed ==> Remaining(plan, View()) < old(Remaining(plan, View()))
      ensures r.Some? ==> !closed && delivered == old(delivered) + [r.value] && nextDelivery == old(nextDelivery) + 1
      ensures r.Some? && plan.inOrder ==>
                old(nextDelivery) < |plan.units| && r.value == Expected(plan, old(nextDelivery))
      ensures r.Some? ==> nextTask == |plan.units| || nextTask - nextDelivery == plan.Limit()
    {
      RunCounts(plan, runs, History());
      Fill(None);
      RunCounts(plan, runs, History());
      if plan.inOrder && nextDelivery in ready {
        r := HandOver(nextDelivery);
      } else if !plan.inOrder && ready != map[] {
        var task :| task in ready;
        r := HandOver(task);
      } else if exhausted && pool.pending == map[] && ready == map[] {
        closed := true;
        r := None;
      } else {
        WaitsForSomething(plan, runs, History());
        Await();
        r := None;
      }
    }

    /** Receive a completion into the ready dictionary, or wait for one. */
    method Await()
      requires Valid() && !closed && pool.pending != map[]
      modifies `ready, pool
      ensures Valid() && 0 <= Remaining(plan, View()) < old(Remaining(plan, View()))
    {
      var c;
      ghost var after;
      c, after := pool.TakeOrWait(runs, History());
      if c.Some? {
        Accept(c.value.batch, c.value);
      }
      assert View() == after.system;
    }

    /** Take a ready batch out, count it delivered and fill up again. */
    method HandOver(task: nat) returns (r: Option<TaggedBatch>)
      requires Valid() && !closed && task in ready && (plan.inOrder ==> task == nextDelivery)
      modifies this, pool
      ensures Valid() && !closed && r.Some? && delivered == old(delivered) + [r.value]
      ensures nextDelivery == old(nextDelivery) + 1
      ensures plan.inOrder ==> old(nextDelivery) < |plan.units| && r.value == Expected(plan, old(nextDelivery))
      ensures nextTask == |plan.units| || nextTask - nextDelivery == plan.Limit()
      ensures 0 <= Remaining(plan, View())
    {
      var b := Take(task);
      Fill(None);
      RunCounts(plan, runs, History());
      r := Some(b);
    }

    method Take(task: nat) returns (b: TaggedBatch)
      requires Valid() && !closed && task in ready && (plan.inOrder ==> task == nextDelivery)
      modifies `ready, `nextDelivery, `delivered
      ensures Valid() && delivered == old(delivered) + [b] && nextDelivery == old(nextDelivery) + 1
      ensures plan.inOrder ==> old(nextDelivery) < |plan.units| && b == Expected(plan, old(nextDelivery))
      ensures |ready| + |pool.pending| <= plan.Limit()
    {
      b := ready[task];
      ghost var after := Delivered(plan, runs, History(), task, b);
      ready := ready - {task};
      nextDelivery := nextDelivery + 1;
      delivered := delivered + [b];
      assert View() == after.system;
      RunCounts(plan, runs, after);
    }

    /** Restore points among the batches already ready: the first in task order for each lane. */
    method SnapshotPoints() returns (points: map<nat, TaggedBatch>)
      requires Valid() && plan.inOrder
      ensures Points(plan, points, ready.Keys, nextDelivery)
    {
      points := map[];
      var order := Sorted(ready.Keys);
      ghost var seen := {};
      for k := 0 to |order|
        invariant Points(plan, points, seen, nextDelivery) && seen <= ready.Keys
        invariant forall i | 0 <= i < k :: order[i] in seen
      {
        var value := ready[order[k]];
        ReadyFirst(plan, runs, History(), order[k]);
        FirstSeen(order, k, seen, FirstOn(plan.workers, nextDelivery, value.worker));
        PointAdded(plan, points, seen, nextDelivery, value);
        seen := seen + {order[k]};
        points := SetDefault(points, value);
      }
      AllSeen(order, seen, ready.Keys);
    }

    /** Receive or await one completion, keeping it as its lane's point if the lane has none. */
    method CaptureTurn(before: map<nat, TaggedBatch>) returns (points: map<nat, TaggedBatch>)
      requires Valid() && plan.inOrder && Points(plan, before, ready.Keys, nextDelivery) && pool.pending != map[]
      modifies `ready, pool
      ensures Valid() && Points(plan, points, ready.Keys, nextDelivery)
      ensures 0 <= Remaining(plan, View()) < old(Remaining(plan, View()))
    {
      points := before;
      ghost var after;
      var c;
      c, after := pool.TakeOrWait(runs, History());
      if c.Some? {
        var b := c.value;
        PointReceived(plan, runs, after, points, ready.Keys, b);
        Accept(b.batch, b);
        points := SetDefault(points, b);
      }
      assert View() == after.system;
    }

    /** Receive completions until each lane with an admitted undelivered unit has a point. */
    method Answers(snapshot: map<nat, TaggedBatch>) returns (points: map<nat, TaggedBatch>)
      requires Valid() && plan.inOrder && Points(plan, snapshot, ready.Keys, nextDelivery)
      modifies `ready, pool
      ensures Valid() && Points(plan, points, ready.Keys, nextDelivery)
      ensures forall w: nat | w < plan.workers :: w in points <==> FirstOn(plan.workers, nextDelivery, w) < nextTask
    {
      points := snapshot;
      var targets := pool.pending.Values + points.Keys;
      RunCounts(plan, runs, History());
      Targets(plan, runs, History(), points);
      while !(targets <= points.Keys) && pool.pending != map[]
        invariant Valid() && Points(plan, points, ready.Keys, nextDelivery) && 0 <= Remaining(plan, View())
        invariant forall w: nat | w < plan.workers && FirstOn(plan.workers, nextDelivery, w) < nextTask :: w in targets
        decreases Remaining(plan, View())
      {
        points := CaptureTurn(points);
      }
      AllAnswered(plan, runs, History(), points, targets);
    }

    /** The first undelivered restore point of every lane that has one admitted, in lane order. Nothing is admitted
        or delivered meanwhile. */
    method CapturePoints() returns (captured: seq<TaggedBatch>)
      requires Valid() && plan.inOrder
      modifies `ready, pool
      ensures Valid() && Captured(plan, captured, nextDelivery, nextTask)
    {
      var points := SnapshotPoints();
      points := Answers(points);
      PointsOfLanes(plan, points, ready.Keys, nextDelivery);
      captured := InLaneOrder(points);
    }

    method Accept(task: nat, value: TaggedBatch)
      modifies `ready
      ensures ready == old(ready)[task := value]
    {
      ready := ready[task := value];
    }
  }

  lemma PrefetchWithinLimit(e: Iteration)
    requires e.Valid()
    ensures 0 < e.prefetch <= e.Limit()
  {
    TimesAtLeast(e.prefetch, e.workers);
  }

  lemma {:induction false} TimesAtLeast(k: nat, n: nat)
    requires n > 0
    ensures k <= Times(k, n)
  {
    if k > 0 { TimesAtLeast(k - 1, n); }
  }
}
