/** How much is left to do: a count that every faultless move lowers by exactly one, in either delivery order. */
module LaneProgress {
  import opened Outcomes
  import opened Lanes
  import opened LaneSystem
  import opened LaneLedger

  /** Moves still to come: four for a unit not yet admitted, three for a queued one, two for a done one, one
      for a ready one, and one to see that the sampler has ended. */
  function Remaining(e: Iteration, s: System): int {
    4 * (|e.units| - s.nextTask) + LaneWork(s.pool.lanes) + |s.ready| + if s.exhausted then 0 else 1
  }

  function LaneWork(lanes: seq<Lane>): nat {
    if lanes == [] then 0
    else LaneWork(lanes[..|lanes| - 1]) + 3 * |lanes[|lanes| - 1].queue| + 2 * |lanes[|lanes| - 1].done|
  }

  lemma {:induction false} LaneWorkUpdate(lanes: seq<Lane>, w: nat, lane: Lane)
    requires w < |lanes|
    ensures LaneWork(lanes[w := lane])
         == LaneWork(lanes) - (3 * |lanes[w].queue| + 2 * |lanes[w].done|) + (3 * |lane.queue| + 2 * |lane.done|)
  {
    var n := |lanes| - 1;
    if w == n {
      assert lanes[w := lane][..n] == lanes[..n];
    } else {
      assert lanes[w := lane][..n] == lanes[..n][w := lane];
      LaneWorkUpdate(lanes[..n], w, lane);
    }
  }

  lemma AdmitWork(e: Iteration, s: System, s': System)
    requires e.workers > 0 && |s.pool.lanes| == e.workers && e.start <= s.nextTask == s.drawn <= |e.units|
    requires !s.exhausted && AdmitUnit(e, s).system == s' && AdmitUnit(e, s).fault.None?
    ensures Remaining(e, s') == Remaining(e, s) - 1
  {
    if s.nextTask < |e.units| {
      var w := NextWorker(e, s).0.value;
      var lane := s.pool.lanes[w];
      var more := lane.(queue := lane.queue + [Command(s.nextTask, e.units[s.nextTask])]);
      LaneWorkUpdate(s.pool.lanes, w, more);
      assert s'.pool.lanes == s.pool.lanes[w := more];
    }
  }

  lemma WorkDrops(e: Iteration, s: System, m: Move, s': System)
    requires e.workers > 0 && |s.pool.lanes| == e.workers && e.start <= s.nextTask == s.drawn <= |e.units|
    requires Enabled(e, s, m) && Step(e, s, m).system == s' && Step(e, s, m).fault.None?
    requires m.Receive? ==> s.pool.lanes[m.lane].done[0].batch !in s.ready
    ensures Remaining(e, s') == Remaining(e, s) - 1
  {
    match m {
      case Admit => AdmitWork(e, s, s');
      case Execute(w) => LaneWorkUpdate(s.pool.lanes, w, Executed(e, s.pool.lanes[w], w));
      case Receive(w) => LaneWorkUpdate(s.pool.lanes, w, s.pool.lanes[w].(done := s.pool.lanes[w].done[1..]));
      case Deliver(t) => RemoveOne(s.ready, t);
    }
  }

  /** How many of the requested moves were enabled when their turn came. */
  ghost function Turns(e: Iteration, r: Run, moves: seq<Move>): nat
    requires e.workers > 0 && |r.system.pool.lanes| == e.workers && e.start <= r.system.nextTask
    decreases |moves|
  {
    if moves == [] then 0
    else (if Enabled(e, r.system, moves[0]) then 1 else 0) + Turns(e, After(e, r, moves[0]), moves[1..])
  }

  lemma {:induction false} BeginWork(e: Iteration, k: nat)
    requires |e.initial| == e.workers && k <= e.workers
    ensures LaneWork(Begin(e).system.pool.lanes[..k]) == 0
    ensures k == e.workers ==> Begin(e).system.pool.lanes[..k] == Begin(e).system.pool.lanes
  {
    var lanes := Begin(e).system.pool.lanes;
    if k > 0 {
      BeginWork(e, k - 1);
      assert lanes[..k][..k - 1] == lanes[..k - 1];
    }
  }

  lemma {:induction false} IdleWork(lanes: seq<Lane>)
    requires forall w | 0 <= w < |lanes| :: lanes[w].queue == [] && lanes[w].done == []
    ensures LaneWork(lanes) == 0
  {
    if lanes != [] { IdleWork(lanes[..|lanes| - 1]); }
  }

  /** A system with no move left and nothing admitted but undelivered has nothing in its lanes. */
  lemma Idle(e: Iteration, s: System)
    requires |s.pool.lanes| == e.workers && CountsAt(e, s) && s.exhausted && s.nextDelivery == |e.units|
    requires forall m :: !Enabled(e, s, m)
    ensures Remaining(e, s) == 0
  {
    forall w | 0 <= w < |s.pool.lanes|
      ensures s.pool.lanes[w].queue == [] && s.pool.lanes[w].done == []
    {
      assert !Enabled(e, s, Move.Execute(w)) && !Enabled(e, s, Move.Receive(w));
    }
    IdleWork(s.pool.lanes);
  }
}
