/** What a capture must find: for every lane holding an admitted undelivered unit, its first such unit's batch. */
module LaneCapture {
  import opened Lanes
  import opened LaneSystem
  import opened LaneLedger
  import opened LaneRuns
  import opened LaneOrder
  import InOrder = LaneInOrder

  // ----- sets in ascending order -----

  ghost predicate Ascending(order: seq<nat>) {
    forall i, j | 0 <= i < j < |order| :: order[i] < order[j]
  }

  lemma {:induction false} LeastExists(tasks: set<nat>, t: nat)
    requires t in tasks
    ensures exists s :: s in tasks && forall u | u in tasks :: s <= u
    decreases t
  {
    if u :| u in tasks && u < t { LeastExists(tasks, u); }
  }

  /** The elements not in `rest` in ascending order, all below those in `rest`. */
  ghost predicate SortedSoFar(tasks: set<nat>, order: seq<nat>, rest: set<nat>) {
    && Ascending(order) && (forall t: nat :: t in order <==> t in tasks && t !in rest)
    && (forall i, u | 0 <= i < |order| && u in rest :: order[i] < u)
  }

  lemma LeastNext(tasks: set<nat>, order: seq<nat>, rest: set<nat>, t: nat)
    requires rest <= tasks && SortedSoFar(tasks, order, rest) && t in rest && forall u | u in rest :: t <= u
    ensures SortedSoFar(tasks, order + [t], rest - {t})
  {
    var more := order + [t];
    forall u: nat
      ensures u in more <==> u in tasks && u !in rest - {t}
    {
      assert u in more <==> u in order || u == t;
    }
  }

  method Least(tasks: set<nat>) returns (t: nat)
    requires tasks != {}
    ensures t in tasks && forall u | u in tasks :: t <= u
  {
    ghost var some :| some in tasks;
    LeastExists(tasks, some);
    t :| t in tasks && forall u | u in tasks :: t <= u;
  }

  method Sorted(tasks: set<nat>) returns (order: seq<nat>)
    ensures Ascending(order) && forall t: nat :: t in order <==> t in tasks
  {
    order := [];
    var rest := tasks;
    while rest != {}
      invariant rest <= tasks && SortedSoFar(tasks, order, rest)
      decreases |rest|
    {
      var t := Least(rest);
      LeastNext(tasks, order, rest, t);
      order := order + [t];
      rest := rest - {t};
    }
  }

  // ----- capture points -----

  /** One restore point per lane: the batch of the lane's first undelivered task, for the lanes where it is ready. */
  ghost predicate Points(e: Iteration, points: map<nat, TaggedBatch>, ready: set<nat>, from: nat)
    requires e.Valid()
  {
    && (forall w: nat :: w in points <==> w < e.workers && FirstOn(e.workers, from, w) in ready)
    && (forall w | w in points ::
          FirstOn(e.workers, from, w) < |e.units| && points[w] == Expected(e, FirstOn(e.workers, from, w)))
  }

  /** The captured points, in lane order: one for each lane with an admitted undelivered unit. */
  ghost predicate Captured(e: Iteration, captured: seq<TaggedBatch>, from: nat, to: nat)
    requires e.Valid()
  {
    && (forall i, j | 0 <= i < j < |captured| :: captured[i].worker < captured[j].worker)
    && (forall i | 0 <= i < |captured| ::
          var w := captured[i].worker;
          && w < e.workers && FirstOn(e.workers, from, w) < to && FirstOn(e.workers, from, w) < |e.units|
          && captured[i] == Expected(e, FirstOn(e.workers, from, w)))
    && (forall w: nat | w < e.workers && FirstOn(e.workers, from, w) < to ::
          exists i :: 0 <= i < |captured| && captured[i].worker == w)
  }

  lemma FirstOnLeast(n: nat, from: nat, t: nat)
    requires n > 0 && from <= t
    ensures FirstOn(n, from, LaneOf(n, t)) <= t
  {
    var w := LaneOf(n, t);
    FirstOnRange(n, from, w);
    if t < FirstOn(n, from, w) { LaneGap(n, t, FirstOn(n, from, w)); }
  }

  /** A ready task's lane has its first undelivered task ready too. */
  lemma ReadyFirst(e: Iteration, runs: iset<Run>, r: Run, t: nat)
    requires RunsOf(e, runs) && r in runs && e.inOrder && t in r.system.ready
    ensures t < |e.units| && r.system.ready[t] == Expected(e, t)
    ensures var f := FirstOn(e.workers, r.system.nextDelivery, LaneOf(e.workers, t)); f <= t && f in r.system.ready
  {
    RunIsSafe(e, runs, r);
    var v, heads :| InOrder.At(e, v, r.system, heads);
    var f := FirstOn(e.workers, r.system.nextDelivery, LaneOf(e.workers, t));
    FirstOnLeast(e.workers, r.system.nextDelivery, t);
    FirstOnRange(e.workers, r.system.nextDelivery, LaneOf(e.workers, t));
    assert v.place(f) == v.place(t);
  }

  /** An admitted undelivered task is ready, or pending on its own lane. */
  lemma AdmittedHeld(e: Iteration, runs: iset<Run>, r: Run, t: nat)
    requires RunsOf(e, runs) && r in runs && e.inOrder && r.system.nextDelivery <= t
    ensures t < r.system.nextTask <==> t in r.system.ready || Owned(r.system.pool.pending, t, LaneOf(e.workers, t))
    ensures t in r.system.pool.pending ==> Owned(r.system.pool.pending, t, LaneOf(e.workers, t))
  {
    RunIsSafe(e, runs, r);
    var v, heads :| InOrder.At(e, v, r.system, heads);
  }

  /** A task is the first of its own lane only. */
  lemma OtherFirsts(e: Iteration, from: nat, t: nat)
    requires e.Valid()
    ensures forall w: nat | w < e.workers && w != LaneOf(e.workers, t) :: FirstOn(e.workers, from, w) != t
  {
    forall w: nat | w < e.workers && w != LaneOf(e.workers, t)
      ensures FirstOn(e.workers, from, w) != t
    {
      FirstOnRange(e.workers, from, w);
    }
  }

  /** Keep the first batch seen of each lane. */
  function SetDefault(points: map<nat, TaggedBatch>, b: TaggedBatch): map<nat, TaggedBatch> {
    if b.worker in points then points else points[b.worker := b]
  }

  /** One more batch of a set that has its lane's first task: the point of that lane is the first task's. */
  lemma PointAdded(e: Iteration, points: map<nat, TaggedBatch>, ready: set<nat>, from: nat, b: TaggedBatch)
    requires e.Valid() && Points(e, points, ready, from) && b.batch < |e.units| && b == Expected(e, b.batch)
    requires FirstOn(e.workers, from, b.worker) in ready + {b.batch}
    ensures Points(e, SetDefault(points, b), ready + {b.batch}, from)
  {
    OtherFirsts(e, from, b.batch);
  }

  /** In task order a lane's first ready task comes before its others. */
  lemma FirstSeen(order: seq<nat>, k: nat, seen: set<nat>, f: nat)
    requires Ascending(order) && k < |order| && f in order && f <= order[k]
    requires forall i | 0 <= i < k :: order[i] in seen
    ensures f in seen + {order[k]}
  {
    var j :| 0 <= j < |order| && order[j] == f;
  }

  /** A received batch is its task's, and its lane's first undelivered task is ready once it is. */
  lemma ReceivedPoint(e: Iteration, runs: iset<Run>, r: Run, b: TaggedBatch)
    requires RunsOf(e, runs) && r in runs && e.inOrder
    requires b.batch in r.system.ready && r.system.ready[b.batch] == b
    ensures b.batch < |e.units| && b == Expected(e, b.batch)
    ensures FirstOn(e.workers, r.system.nextDelivery, b.worker) in r.system.ready
  {
    ReadyFirst(e, runs, r, b.batch);
  }

  /** A received batch becomes its lane's point if the lane has none. */
  lemma PointReceived(e: Iteration, runs: iset<Run>, r: Run, points: map<nat, TaggedBatch>, ready: set<nat>,
                      b: TaggedBatch)
    requires RunsOf(e, runs) && r in runs && e.inOrder && Points(e, points, ready, r.system.nextDelivery)
    requires b.batch in r.system.ready && r.system.ready[b.batch] == b && r.system.ready.Keys == ready + {b.batch}
    ensures Points(e, SetDefault(points, b), r.system.ready.Keys, r.system.nextDelivery)
  {
    ReceivedPoint(e, runs, r, b);
    PointAdded(e, points, ready, r.system.nextDelivery, b);
  }

  /** Every lane with an admitted undelivered unit is a target. */
  lemma Targets(e: Iteration, runs: iset<Run>, r: Run, points: map<nat, TaggedBatch>)
    requires RunsOf(e, runs) && r in runs && e.inOrder && Points(e, points, r.system.ready.Keys, r.system.nextDelivery)
    ensures forall w: nat | w < e.workers && FirstOn(e.workers, r.system.nextDelivery, w) < r.system.nextTask ::
              w in r.system.pool.pending.Values || w in points
  {
    forall w: nat | w < e.workers && FirstOn(e.workers, r.system.nextDelivery, w) < r.system.nextTask
      ensures w in r.system.pool.pending.Values || w in points
    {
      var f := FirstOn(e.workers, r.system.nextDelivery, w);
      FirstOnRange(e.workers, r.system.nextDelivery, w);
      AdmittedHeld(e, runs, r, f);
    }
  }

  /** When every target has answered, or nothing is pending, every such lane has its point. */
  lemma AllAnswered(e: Iteration, runs: iset<Run>, r: Run, points: map<nat, TaggedBatch>, targets: set<nat>)
    requires RunsOf(e, runs) && r in runs && e.inOrder && Points(e, points, r.system.ready.Keys, r.system.nextDelivery)
    requires forall w: nat | w < e.workers && FirstOn(e.workers, r.system.nextDelivery, w) < r.system.nextTask ::
               w in targets
    requires targets <= points.Keys || r.system.pool.pending == map[]
    ensures forall w: nat | w < e.workers ::
              w in points <==> FirstOn(e.workers, r.system.nextDelivery, w) < r.system.nextTask
  {
    Targets(e, runs, r, points);
    forall w: nat | w in points
      ensures w < e.workers && FirstOn(e.workers, r.system.nextDelivery, w) < r.system.nextTask
    {
      var f := FirstOn(e.workers, r.system.nextDelivery, w);
      FirstOnRange(e.workers, r.system.nextDelivery, w);
      AdmittedHeld(e, runs, r, f);
    }
  }

  lemma AllSeen(order: seq<nat>, seen: set<nat>, ready: set<nat>)
    requires seen <= ready && (forall i | 0 <= i < |order| :: order[i] in seen)
    requires forall t: nat :: t in order <==> t in ready
    ensures seen == ready
  {
  }

  lemma PointsOfLanes(e: Iteration, points: map<nat, TaggedBatch>, ready: set<nat>, from: nat)
    requires e.Valid() && Points(e, points, ready, from)
    ensures forall w | w in points :: points[w].worker == w
  {
    forall w | w in points
      ensures points[w].worker == w
    {
      FirstOnRange(e.workers, from, w);
    }
  }

  /** The points in lane order. */
  method InLaneOrder(points: map<nat, TaggedBatch>) returns (captured: seq<TaggedBatch>)
    requires forall w | w in points :: points[w].worker == w
    ensures forall i, j | 0 <= i < j < |captured| :: captured[i].worker < captured[j].worker
    ensures forall i | 0 <= i < |captured| :: captured[i].worker in points && captured[i] == points[captured[i].worker]
    ensures forall w | w in points :: exists i :: 0 <= i < |captured| && captured[i].worker == w
  {
    var order := Sorted(points.Keys);
    captured := [];
    while |captured| < |order|
      invariant |captured| <= |order|
      invariant forall i | 0 <= i < |captured| :: order[i] in points && captured[i] == points[order[i]]
    {
      assert order[|captured|] in order;
      captured := captured + [points[order[|captured|]]];
    }
    forall w | w in points
      ensures exists i :: 0 <= i < |captured| && captured[i].worker == w
    {
      assert w in order;
      var i :| 0 <= i < |order| && order[i] == w;
      assert captured[i].worker == w;
    }
  }
}
