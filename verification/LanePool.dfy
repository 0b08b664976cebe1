/** The owner's pool of lanes as an object: the pending dictionary and the lanes' rings, changed in place. */
module LanePool {
  import opened Words
  import opened Outcomes
  import opened Lanes
  import opened LaneSystem
  import opened LaneProgress
  import opened LaneRuns

  /** The share of the pending dictionary that one lane owns is what `PendingFor` counts. */
  lemma {:induction false} PendingForCounts(pending: map<nat, nat>, w: nat, below: nat)
    ensures PendingFor(pending, w, below) == |set t | t in pending && t < below && pending[t] == w|
    decreases below
  {
    var here := set t | t in pending && t < below && pending[t] == w;
    if below == 0 {
      assert here == {};
    } else {
      var rest := set t | t in pending && t < below - 1 && pending[t] == w;
      PendingForCounts(pending, w, below - 1);
      assert here == if Owned(pending, below - 1, w) then rest + {below - 1} else rest;
    }
  }

  class CompatLanePool {
    /** What the lanes run, and how many there are. */
    const plan: Iteration
    var lanes: seq<Lane>
    var pending: map<nat, nat>

    function View(): Pool
      reads this
    {
      Pool(lanes, pending)
    }

    constructor (plan: Iteration)
      requires |plan.initial| == plan.workers
      ensures this.plan == plan && |lanes| == plan.workers && pending == map[]
      ensures forall w | 0 <= w < plan.workers :: lanes[w] == Lane([], [], plan.initial[w])
    {
      this.plan := plan;
      this.lanes := seq(plan.workers, w requires 0 <= w < plan.workers => Lane([], [], plan.initial[w]));
      this.pending := map[];
    }

    ghost function OnLane(tasks: set<nat>, worker: nat): set<nat>
      reads this
    {
      set t | t in tasks && t in pending && pending[t] == worker
    }

    /** Incomplete commands owned by one lane. */
    method CountPending(worker: nat, ghost below: nat) returns (count: nat)
      requires forall t: nat | t in pending :: t < below
      ensures count == LaneSystem.PendingFor(pending, worker, below)
    {
      var rest := pending.Keys;
      count := 0;
      while rest != {}
        invariant rest <= pending.Keys
        invariant count + |OnLane(rest, worker)| == |OnLane(pending.Keys, worker)|
      {
        var t :| t in rest;
        assert OnLane(rest, worker) == OnLane(rest - {t}, worker) + if pending[t] == worker then {t} else {};
        rest := rest - {t};
        if pending[t] == worker {
          count := count + 1;
        }
      }
      PendingForCounts(pending, worker, below);
      assert (set t | t in pending && t < below && pending[t] == worker) == OnLane(pending.Keys, worker);
    }

    /** Publish one unit to a lane: refused exactly when the lane's ring is full. */
    method TrySubmit(task: nat, payload: Bytes, worker: nat) returns (accepted: bool)
      requires worker < |lanes|
      modifies this
      ensures accepted <==> old(lanes[worker].Outstanding()) < Capacity(plan.prefetch)
      ensures accepted ==>
                LaneSystem.TrySubmit(old(View()), Capacity(plan.prefetch), task, payload, worker) == Some(View())
      ensures !accepted ==> View() == old(View())
    {
      var lane := lanes[worker];
      accepted := |lane.queue| + |lane.done| < Capacity(plan.prefetch);
      if accepted {
        lanes := lanes[worker := lane.(queue := lane.queue + [Command(task, payload)])];
        pending := pending[task := worker];
      }
    }

    /** Lane processes make progress of their own at any time. */
    method LanesAdvance() returns (ghost ws: seq<nat>)
      modifies `lanes
      ensures View() == ExecuteAll(plan, old(View()), ws)
    {
      ws := [];
      var turns: nat :| turns >= 0;
      while turns > 0
        invariant View() == ExecuteAll(plan, old(View()), ws)
        modifies `lanes
      {
        var w: nat :| w >= 0;
        if w < |lanes| && lanes[w].queue != [] {
          ExecuteMore(plan, old(View()), ws, w);
          ws := ws + [w];
          lanes := RunOldest(plan, View(), w).lanes;
        }
        turns := turns - 1;
      }
    }

    /** Wait on the lanes: while some lane has a command, until one completes; others may complete too. With no command
        in any lane there is nothing to wait for. */
    method WaitForCompletion() returns (ghost first: Option<nat>, ghost ws: seq<nat>)
      modifies `lanes
      ensures first.None? <==> forall w | 0 <= w < |old(lanes)| :: old(lanes)[w].queue == []
      ensures first.None? ==> View() == old(View())
      ensures first.Some? ==>
                && first.value < |old(lanes)| && old(lanes)[first.value].queue != []
                && View() == ExecuteAll(plan, RunOldest(plan, old(View()), first.value), ws)
    {
      first, ws := None, [];
      if w: nat :| w < |lanes| && lanes[w].queue != [] {
        lanes := RunOldest(plan, View(), w).lanes;
        first := Some(w);
        ws := LanesAdvance();
      }
    }

    /** Take one completion from the first lane that has one. It is an error if the pending dictionary gives
        the completed task to no lane or to another. */
    method TryReceive() returns (r: Result<Option<TaggedBatch>, Fault>, ghost ws: seq<nat>, ghost worker: nat)
      modifies this
      ensures var p := ExecuteAll(plan, old(View()), ws);
              match r
              case Ok(None) => View() == p && forall w | 0 <= w < |lanes| :: p.lanes[w].done == []
              case Ok(Some(b)) => worker < |p.lanes| && p.lanes[worker].done != [] && p.lanes[worker].done[0] == b
                                  && Owned(p.pending, b.batch, worker) && View() == TakeCompletion(p, worker)
              case Err(f) => f == LaneMismatch && worker < |p.lanes| && p.lanes[worker].done != []
                             && !Owned(p.pending, p.lanes[worker].done[0].batch, worker)
      ensures r.Err? || r.value.Some? ==>
                var p := ExecuteAll(plan, old(View()), ws);
                worker < |p.lanes| && forall u | 0 <= u < worker :: p.lanes[u].done == []
    {
      ws := LanesAdvance();
      worker := 0;
      var w := 0;
      while w < |lanes|
        invariant w <= |lanes| && lanes == ExecuteAll(plan, old(View()), ws).lanes && pending == old(pending)
        invariant forall u | 0 <= u < w :: lanes[u].done == []
      {
        if lanes[w].done != [] {
          worker := w;
          var b := lanes[w].done[0];
          var owned := b.batch in pending && pending[b.batch] == w;
          lanes := lanes[w := lanes[w].(done := lanes[w].done[1..])];
          pending := pending - {b.batch};
          return if owned then Ok(Some(b)) else Err(LaneMismatch), ws, worker;
        }
        w := w + 1;
      }
      r := Ok(None);
    }

    /** One turn of an owner's loop over completions: take one if there is one, else wait for a lane. What a lane
        completes is always accepted, and either way the run is nearer its end. */
    method TakeOrWait(ghost runs: iset<Run>, ghost r: Run) returns (c: Option<TaggedBatch>, ghost r': Run)
      requires RunsOf(plan, runs) && r in runs && r.system.pool == View() && pending != map[]
      modifies this
      ensures r' in runs && 0 <= Remaining(plan, r'.system) < Remaining(plan, r.system)
      ensures var ready := r.system.ready;
              r'.system == r.system.(pool := View(),
                                             ready := if c.Some? then ready[c.value.batch := c.value] else ready)
      ensures r'.delivered == r.delivered && r'.faults == r.faults
    {
      var received, ws, w := TryReceive();
      r' := Advanced(plan, runs, r, ws);
      if received == Ok(None) {
        var _ := BusyLane(plan, runs, r');
        var first, others := WaitForCompletion();
        r' := Ran(plan, runs, r', first.value);
        r' := Advanced(plan, runs, r', others);
        c := None;
      } else {
        r' := Took(plan, runs, r', w, r'.system.pool.lanes[w].done[0]);
        c := received.value;
      }
    }

    /** Discard every admitted result before the lanes are reused. No completion is refused, and when the
        dictionary is empty every admitted command has run, on its own lane, exactly once. */
    method Drain(ghost runs: iset<Run>, ghost r: Run) returns (ghost r': Run)
      requires RunsOf(plan, runs) && r in runs && r.system.pool == View()
      modifies this
      ensures r' in runs && r'.system.pool == View() && pending == map[]
      ensures |lanes| == plan.workers && r.system.nextTask <= |plan.units|
      ensures plan.inOrder ==> forall w | 0 <= w < plan.workers ::
                lanes[w] == Lane([], [], Before(plan, FirstOn(plan.workers, r.system.nextTask, w)))
      ensures r'.system.nextTask == r.system.nextTask && r'.system.nextDelivery == r.system.nextDelivery
    {
      r' := r;
      RunCounts(plan, runs, r);
      while pending != map[]
        invariant r' in runs && r'.system.pool == View() && Remaining(plan, r'.system) >= 0
        invariant r'.system.nextTask == r.system.nextTask && r'.system.nextDelivery == r.system.nextDelivery
        decreases Remaining(plan, r'.system)
      {
        var dropped;
        dropped, r' := TakeOrWait(runs, r');
      }
      RunCounts(plan, runs, r');
      if plan.inOrder {
        forall w | 0 <= w < plan.workers
          ensures lanes[w] == Lane([], [], Before(plan, FirstOn(plan.workers, r.system.nextTask, w)))
        {
          DrainedLane(plan, runs, r', w);
        }
      }
    }
  }
}
