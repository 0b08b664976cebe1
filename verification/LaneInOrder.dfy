/** In-order map delivery: every interleaving delivers the sampler's units once each, in order, each
    fetched on its own lane from that lane's RNG state. */
module LaneInOrder {
  import opened Words
  import opened Outcomes
  import opened Lanes
  import opened LaneSystem
  import opened LaneLedger
  import opened LaneOrder
  import opened LaneProgress

  /** In order, task `t` runs on lane `t` modulo the lanes and delivers its own unit from its lane's state. */
  ghost predicate InOrderView(e: Iteration, v: View)
    requires e.Valid()
  {
    && (forall t: nat {:trigger v.place(t)} :: v.place(t) == LaneOf(e.workers, t))
    && (forall t: nat {:trigger v.due(t)} | t < |e.units| :: v.due(t) == Expected(e, t))
    && (forall x: Stand {:trigger InOrderStand(e, x)} :: v.fits(x) <==> InOrderStand(e, x))
  }

  ghost predicate InOrderStand(e: Iteration, x: Stand)
    requires e.Valid()
  {
    x.w < e.workers && LaneAt(e, x.lane, x.w, x.head) && Tail(e, x.lane, x.head) == FirstOn(e.workers, x.to, x.w)
  }

  lemma InOrderViewExists(e: Iteration) returns (v: View)
    requires e.Valid()
    ensures InOrderView(e, v)
  {
    v := View((t: nat) => LaneOf(e.workers, t),
              (t: nat) => if t < |e.units| then Expected(e, t) else TaggedBatch(t, 0, 0, [], []),
              (x: Stand) => InOrderStand(e, x));
  }

  /** The batches that tasks [from, to) deliver, in order. */
  function Stream(e: Iteration, from: nat, to: nat): seq<TaggedBatch>
    requires e.workers > 0 && |e.initial| == e.workers && from <= to <= |e.units|
  {
    if from == to then [] else Stream(e, from, to - 1) + [Expected(e, to - 1)]
  }

  ghost predicate At(e: Iteration, v: View, s: System, heads: seq<nat>) {
    e.Valid() && e.inOrder && InOrderView(e, v) && SystemAt(e, v, s, heads)
  }

  ghost predicate Inv(e: Iteration, r: Run) {
    && (exists v, heads :: At(e, v, r.system, heads))
    && r.faults == [] && r.delivered == Stream(e, e.start, r.system.nextDelivery)
  }

  // ----- admit -----

  /** Round robin from the phase gives task `t` to its own lane, before and after a resume. */
  lemma InOrderLaneIs(e: Iteration, t: nat)
    requires e.Valid() && e.start <= t
    ensures InOrderLane(e, t) == LaneOf(e.workers, t)
  {
    LaneOfShift(e.workers, e.start, t - e.start);
  }

  /** A lane about to be given a task below the limit holds fewer than `prefetch` tasks. */
  lemma RoomAt(e: Iteration, lane: Lane, head: nat, from: nat)
    requires from <= head && Tail(e, lane, head) - from < e.Limit()
    ensures lane.Outstanding() < e.prefetch
  {
    if e.prefetch <= lane.Outstanding() { TimesMonotone(e.prefetch, lane.Outstanding(), e.workers); }
  }

  /** The lane whose turn it is accepts the drawn unit, and holds it as its newest. */
  lemma AdmitLane(e: Iteration, v: View, lane: Lane, w: nat, head: nat, from: nat, t: nat) returns (more: Lane)
    requires e.Valid() && InOrderView(e, v) && t < |e.units| && w == LaneOf(e.workers, t)
    requires from <= head && t < from + e.Limit() && v.fits(Stand(lane, w, head, t))
    ensures lane.Outstanding() < e.prefetch < Capacity(e.prefetch) && head <= t
    ensures more == lane.(queue := lane.queue + [Command(t, e.units[t])]) && v.fits(Stand(more, w, head, t + 1))
  {
    assert InOrderStand(e, Stand(lane, w, head, t));
    FirstOnNext(e.workers, t, w);
    RoomAt(e, lane, head, from);
    CapacityExceedsPrefetch(e.prefetch);
    SubmitAt(e, lane, w, head);
    more := lane.(queue := lane.queue + [Command(t, e.units[t])]);
    assert InOrderStand(e, Stand(more, w, head, t + 1));
  }

  /** Admitting task `t` changes where its own lane stands and no other. */
  lemma OtherLanes(e: Iteration, v: View, lanes: seq<Lane>, heads: seq<nat>, from: nat, t: nat)
    requires e.Valid() && InOrderView(e, v) && LanesAt(v, lanes, heads, from, t) && |lanes| == e.workers
    ensures forall u | 0 <= u < |lanes| && u != LaneOf(e.workers, t) :: v.fits(Stand(lanes[u], u, heads[u], t + 1))
  {
    forall u | 0 <= u < |lanes| && u != LaneOf(e.workers, t)
      ensures v.fits(Stand(lanes[u], u, heads[u], t + 1))
    {
      assert v.fits(Stand(lanes[u], u, heads[u], t)) && InOrderStand(e, Stand(lanes[u], u, heads[u], t));
      FirstOnNext(e.workers, t, u);
      assert InOrderStand(e, Stand(lanes[u], u, heads[u], t + 1));
    }
  }

  lemma AdmitLanes(e: Iteration, v: View, s: System, heads: seq<nat>, w: nat) returns (lanes: seq<Lane>)
    requires e.Valid() && InOrderView(e, v) && |heads| == e.workers && w == LaneOf(e.workers, s.nextTask)
    requires s.nextTask < |e.units| && s.nextTask < s.nextDelivery + e.Limit()
    requires LanesAt(v, s.pool.lanes, heads, s.nextDelivery, s.nextTask)
    ensures heads[w] <= s.nextTask && LanesAt(v, lanes, heads, s.nextDelivery, s.nextTask + 1)
    ensures TrySubmit(s.pool, Capacity(e.prefetch), s.nextTask, e.units[s.nextTask], w)
         == Some(Pool(lanes, s.pool.pending[s.nextTask := w]))
  {
    var t := s.nextTask;
    assert v.fits(Stand(s.pool.lanes[w], w, heads[w], t));
    var lane := AdmitLane(e, v, s.pool.lanes[w], w, heads[w], s.nextDelivery, t);
    OtherLanes(e, v, s.pool.lanes, heads, s.nextDelivery, t);
    LanesReplace(v, s.pool.lanes, heads, s.nextDelivery, t, t + 1, w, lane, heads[w]);
    assert heads[w := heads[w]] == heads;
    lanes := s.pool.lanes[w := lane];
  }

  /** A unit offered to a lane with room is admitted there. */
  lemma AdmitUnitIs(e: Iteration, s: System, w: nat, pool: Pool)
    requires e.workers > 0 && |s.pool.lanes| == e.workers && e.start <= s.nextTask && w < e.workers
    requires s.drawn < |e.units| && NextWorker(e, s) == (Some(w), s.cursor)
    requires TrySubmit(s.pool, Capacity(e.prefetch), s.nextTask, e.units[s.drawn], w) == Some(pool)
    ensures AdmitUnit(e, s) == Outcome(s.(pool := pool, nextTask := s.nextTask + 1, drawn := s.drawn + 1), None, None)
  {
  }

  /** With units left, the lane whose turn it is admits the next one. */
  lemma AdmitNext(e: Iteration, v: View, s: System, heads: seq<nat>) returns (s': System)
    requires At(e, v, s, heads) && Admitting(s, e.Limit()) && s.nextTask < |e.units|
    ensures AdmitUnit(e, s) == Outcome(s', None, None) && At(e, v, s', heads)
    ensures s'.nextTask == s.nextTask + 1 && s'.exhausted == s.exhausted
    ensures s'.ready == s.ready && s'.nextDelivery == s.nextDelivery
  {
    var w := LaneOf(e.workers, s.nextTask);
    InOrderLaneIs(e, s.nextTask);
    var lanes := AdmitLanes(e, v, s, heads, w);
    AdmitUnitIs(e, s, w, Pool(lanes, s.pool.pending[s.nextTask := w]));
    s' := AdmitFrame(e, v, s, heads, lanes);
  }

  /** The drawn unit is always accepted, by its own lane. */
  lemma AdmitKeeps(e: Iteration, v: View, s: System, heads: seq<nat>) returns (s': System)
    requires At(e, v, s, heads) && Admitting(s, e.Limit())
    ensures AdmitUnit(e, s) == Outcome(s', None, None) && At(e, v, s', heads)
    ensures s'.nextTask == (if s.nextTask < |e.units| then s.nextTask + 1 else s.nextTask)
    ensures s'.exhausted == (s.nextTask == |e.units|)
    ensures s'.ready == s.ready && s'.nextDelivery == s.nextDelivery
  {
    if s.nextTask < |e.units| {
      s' := AdmitNext(e, v, s, heads);
    } else {
      s' := s.(exhausted := true);
    }
  }

  // ----- execute, receive, deliver -----

  lemma ExecuteLane(e: Iteration, v: View, lane: Lane, w: nat, head: nat, to: nat)
    requires e.Valid() && InOrderView(e, v) && e.start <= head && lane.queue != [] && v.fits(Stand(lane, w, head, to))
    ensures v.fits(Stand(Executed(e, lane, w), w, head, to))
  {
    assert InOrderStand(e, Stand(lane, w, head, to));
    ExecuteAt(e, lane, w, head);
    assert InOrderStand(e, Stand(Executed(e, lane, w), w, head, to));
  }

  lemma ExecuteKeeps(e: Iteration, v: View, s: System, heads: seq<nat>, w: nat) returns (s': System)
    requires At(e, v, s, heads) && w < e.workers && s.pool.lanes[w].queue != []
    ensures s' == s.(pool := RunOldest(e, s.pool, w)) && At(e, v, s', heads)
  {
    assert v.fits(Stand(s.pool.lanes[w], w, heads[w], s.nextTask));
    ExecuteLane(e, v, s.pool.lanes[w], w, heads[w], s.nextTask);
    s' := ExecuteFrame(e, v, s, heads, w, Executed(e, s.pool.lanes[w], w));
  }

  /** A lane's oldest completion is its head, an admitted task of that lane. */
  lemma ReceiveLane(e: Iteration, v: View, lane: Lane, w: nat, head: nat, to: nat) returns (rest: Lane)
    requires e.Valid() && InOrderView(e, v) && lane.done != [] && v.fits(Stand(lane, w, head, to))
    ensures head < to && LaneOf(e.workers, head) == w && head < |e.units| && lane.done[0] == Expected(e, head)
    ensures rest == lane.(done := lane.done[1..]) && v.fits(Stand(rest, w, head + e.workers, to))
  {
    assert InOrderStand(e, Stand(lane, w, head, to));
    ReceiveAt(e, lane, w, head);
    TimesShift(lane.Outstanding(), e.workers);
    FirstOnRange(e.workers, to, w);
    rest := lane.(done := lane.done[1..]);
    assert InOrderStand(e, Stand(rest, w, head + e.workers, to));
  }

  /** Receiving task `h` moves its lane's head one round, past `h` alone. */
  lemma HeadMoves(e: Iteration, v: View, h: nat, w: nat, next: nat)
    requires e.Valid() && InOrderView(e, v) && w == LaneOf(e.workers, h) && next == h + e.workers
    ensures v.place(h) == w && forall t: nat | v.place(t) == w && t < next :: t <= h
  {
    forall t: nat | v.place(t) == w && t < next
      ensures t <= h
    {
      if h < t { LaneGap(e.workers, h, t); }
    }
  }

  lemma AcceptIs(s: System, w: nat, rest: Lane, b: TaggedBatch)
    requires w < |s.pool.lanes| && s.pool.lanes[w].done != [] && s.pool.lanes[w].done[0] == b
    requires rest == s.pool.lanes[w].(done := s.pool.lanes[w].done[1..]) && Owned(s.pool.pending, b.batch, w)
    ensures Accept(s, w) == Outcome(s.(pool := Pool(s.pool.lanes[w := rest], s.pool.pending - {b.batch}),
                                       ready := s.ready[b.batch := b]), None, None)
  {
  }

  lemma ReceiveKeeps(e: Iteration, v: View, s: System, heads: seq<nat>, w: nat) returns (s': System, heads': seq<nat>)
    requires At(e, v, s, heads) && w < e.workers && s.pool.lanes[w].done != []
    ensures Accept(s, w) == Outcome(s', None, None) && At(e, v, s', heads')
    ensures heads[w] < |e.units| && s.pool.lanes[w].done[0] == Expected(e, heads[w]) && heads[w] !in s.ready
    ensures s'.ready == s.ready[heads[w] := Expected(e, heads[w])] && s'.nextDelivery == s.nextDelivery
  {
    var h, lane := heads[w], s.pool.lanes[w];
    assert v.fits(Stand(lane, w, h, s.nextTask));
    var rest := ReceiveLane(e, v, lane, w, h, s.nextTask);
    var next := h + e.workers;
    HeadMoves(e, v, h, w, next);
    s', heads' := ReceiveFrame(e, v, s, heads, w, h, rest, next);
    AcceptIs(s, w, rest, v.due(h));
  }

  /** Heads of different lanes differ, so only the delivered task's own lane could stand at it. */
  lemma HeadOwner(e: Iteration, v: View, s: System, heads: seq<nat>, t: nat)
    requires e.Valid() && InOrderView(e, v) && |heads| == e.workers
    requires LanesAt(v, s.pool.lanes, heads, s.nextDelivery, s.nextTask)
    ensures forall w | 0 <= w < |heads| && heads[w] == t :: w == v.place(t)
  {
    forall w | 0 <= w < |heads| && heads[w] == t
      ensures w == v.place(t)
    {
      var x := Stand(s.pool.lanes[w], w, heads[w], s.nextTask);
      assert v.fits(x) && InOrderStand(e, x);
    }
  }

  lemma DeliverKeeps(e: Iteration, v: View, s: System, heads: seq<nat>) returns (s': System)
    requires At(e, v, s, heads) && s.nextDelivery in s.ready
    ensures s.nextDelivery < |e.units|
    ensures HandOver(s, s.nextDelivery) == Outcome(s', None, Some(Expected(e, s.nextDelivery)))
    ensures At(e, v, s', heads) && s'.nextDelivery == s.nextDelivery + 1
  {
    HeadOwner(e, v, s, heads, s.nextDelivery);
    s' := DeliverFrame(e, v, s, heads);
  }

  // ----- every run -----

  /** Every move of every interleaving keeps the invariant, faults nothing and delivers only the next task. */
  lemma StepAt(e: Iteration, v: View, s: System, heads: seq<nat>, m: Move) returns (s': System, heads': seq<nat>)
    requires At(e, v, s, heads) && Enabled(e, s, m)
    ensures At(e, v, s', heads')
    ensures s'.nextDelivery == if m.Deliver? then s.nextDelivery + 1 else s.nextDelivery
    ensures m.Deliver? ==> s.nextDelivery < |e.units|
    ensures Step(e, s, m) == Outcome(s', None, if m.Deliver? then Some(Expected(e, s.nextDelivery)) else None)
  {
    heads' := heads;
    match m {
      case Admit => s' := AdmitKeeps(e, v, s, heads);
      case Execute(w) => s' := ExecuteKeeps(e, v, s, heads, w);
      case Receive(w) => s', heads' := ReceiveKeeps(e, v, s, heads, w);
      case Deliver(_) => s' := DeliverKeeps(e, v, s, heads);
    }
  }

  lemma StepKeeps(e: Iteration, r: Run, m: Move)
    requires Inv(e, r)
    ensures Inv(e, After(e, r, m))
  {
    var v, heads :| At(e, v, r.system, heads);
    if Enabled(e, r.system, m) {
      var s', heads' := StepAt(e, v, r.system, heads, m);
      Extends(e, r, m, s');
      InvIntro(e, v, After(e, r, m), s', heads');
    }
  }

  /** A faultless step extends the deliveries by what it delivers. */
  lemma Extends(e: Iteration, r: Run, m: Move, s': System)
    requires e.Valid() && |r.system.pool.lanes| == e.workers && e.start <= r.system.nextTask && Enabled(e, r.system, m)
    requires var d := r.system.nextDelivery;
             && e.start <= d && (m.Deliver? ==> d < |e.units|) && s'.nextDelivery == (if m.Deliver? then d + 1 else d)
             && Step(e, r.system, m) == Outcome(s', None, if m.Deliver? then Some(Expected(e, d)) else None)
             && d <= |e.units| && r.delivered == Stream(e, e.start, d)
    ensures After(e, r, m) == Run(s', r.faults, Stream(e, e.start, s'.nextDelivery))
  {
  }

  lemma InvIntro(e: Iteration, v: View, r: Run, s: System, heads: seq<nat>)
    requires At(e, v, s, heads) && r == Run(s, [], Stream(e, e.start, s.nextDelivery))
    ensures Inv(e, r)
  {
  }

  lemma {:induction false} RunKeeps(e: Iteration, r: Run, moves: seq<Move>)
    requires Inv(e, r)
    ensures Inv(e, AfterAll(e, r, moves))
    decreases |moves|
  {
    if moves != [] {
      StepKeeps(e, r, moves[0]);
      RunKeeps(e, After(e, r, moves[0]), moves[1..]);
    }
  }

  lemma BeginLedger(e: Iteration, v: View, s: System, heads: seq<nat>)
    requires e.Valid() && InOrderView(e, v) && |heads| == e.workers
    requires s.pool.pending == map[] && s.ready == map[] && s.nextDelivery == s.nextTask == e.start
    requires forall w | 0 <= w < e.workers :: e.start <= heads[w]
    ensures Ledger(v, s.pool.pending, s.ready, heads, s.nextDelivery, s.nextTask)
  {
  }

  lemma BeginLane(e: Iteration, v: View, w: nat) returns (head: nat)
    requires e.Valid() && InOrderView(e, v) && w < e.workers
    ensures e.start <= head && v.fits(Stand(Lane([], [], e.initial[w]), w, head, e.start))
  {
    head := FirstOn(e.workers, e.start, w);
    FirstOnRange(e.workers, e.start, w);
    assert InOrderStand(e, Stand(Lane([], [], e.initial[w]), w, head, e.start));
  }

  lemma BeginHeads(e: Iteration, v: View, k: nat) returns (heads: seq<nat>)
    requires e.Valid() && InOrderView(e, v) && k <= e.workers
    ensures |heads| == k
    ensures forall w | 0 <= w < k ::
              e.start <= heads[w] && v.fits(Stand(Lane([], [], e.initial[w]), w, heads[w], e.start))
  {
    heads := [];
    while |heads| < k
      invariant |heads| <= k
      invariant forall w | 0 <= w < |heads| ::
                  e.start <= heads[w] && v.fits(Stand(Lane([], [], e.initial[w]), w, heads[w], e.start))
    {
      var head := BeginLane(e, v, |heads|);
      heads := heads + [head];
    }
  }

  lemma BeginKeeps(e: Iteration)
    requires e.Valid() && e.inOrder
    ensures Inv(e, Begin(e))
  {
    var v := InOrderViewExists(e);
    var heads := BeginHeads(e, v, e.workers);
    var s := Begin(e).system;
    BeginLedger(e, v, s, heads);
    assert Stream(e, e.start, e.start) == [];
    InvIntro(e, v, Begin(e), s, heads);
  }

  // ----- what every run does -----

  /** No lane ever holds more than the prefetch factor, so its ring always has room. */
  lemma LaneBound(e: Iteration, v: View, lane: Lane, w: nat, head: nat, from: nat, to: nat)
    requires e.Valid() && InOrderView(e, v) && from <= head && to - from <= e.Limit()
    requires v.fits(Stand(lane, w, head, to))
    ensures lane.Outstanding() <= e.prefetch < Capacity(e.prefetch)
    ensures head < to ==> lane.Outstanding() > 0
  {
    assert InOrderStand(e, Stand(lane, w, head, to));
    CapacityExceedsPrefetch(e.prefetch);
    FirstOnRange(e.workers, to, w);
    if lane.Outstanding() > e.prefetch {
      TimesMonotone(e.prefetch, lane.Outstanding() - 1, e.workers);
      TimesShift(lane.Outstanding(), e.workers);
    }
    if lane.Outstanding() == 0 && head < to { FirstOnGap(e, to, w, head); }
  }

  lemma FirstOnGap(e: Iteration, to: nat, w: nat, head: nat)
    requires e.Valid() && w < e.workers && head == FirstOn(e.workers, to, w)
    ensures to <= head
  {
    FirstOnRange(e.workers, to, w);
  }

  /** Whatever the interleaving: no fault, units admitted are exactly units drawn, the admitted and undelivered
      tasks are split between the two dictionaries, each pending on its own lane, within every bound, and the
      deliveries are the sampler's units from the start, in order, with none missing. */
  lemma EveryRun(e: Iteration, moves: seq<Move>)
    requires e.Valid() && e.inOrder
    ensures var r := AfterAll(e, Begin(e), moves); var s := r.system;
            && r.faults == [] && s.nextTask == s.drawn
            && e.start <= s.nextDelivery <= |e.units| && r.delivered == Stream(e, e.start, s.nextDelivery)
            && (forall t: nat :: s.nextDelivery <= t < s.nextTask <==> t in s.ready || t in s.pool.pending)
            && (forall t: nat | t in s.ready :: t !in s.pool.pending)
            && (forall t: nat | t in s.pool.pending :: s.pool.pending[t] == LaneOf(e.workers, t))
            && |s.ready| + |s.pool.pending| <= e.Limit() && |s.pool.lanes| == e.workers
            && (forall w | 0 <= w < e.workers :: s.pool.lanes[w].Outstanding() <= e.prefetch < Capacity(e.prefetch))
  {
    BeginKeeps(e);
    RunKeeps(e, Begin(e), moves);
    var s := AfterAll(e, Begin(e), moves).system;
    var v, heads :| At(e, v, s, heads);
    forall w | 0 <= w < e.workers
      ensures s.pool.lanes[w].Outstanding() <= e.prefetch < Capacity(e.prefetch)
    {
      assert v.fits(Stand(s.pool.lanes[w], w, heads[w], s.nextTask));
      LaneBound(e, v, s.pool.lanes[w], w, heads[w], s.nextDelivery, s.nextTask);
    }
  }

  /** Until everything is delivered and the sampler is seen to end, some move is enabled: no deadlock. */
  lemma CanMove(e: Iteration, r: Run) returns (m: Move)
    requires Inv(e, r) && (r.system.nextDelivery < |e.units| || !r.system.exhausted)
    ensures Enabled(e, r.system, m)
  {
    var s := r.system;
    var v, heads :| At(e, v, s, heads);
    LimitPositive(e);
    if Admitting(s, e.Limit()) {
      m := Move.Admit;
    } else if s.nextDelivery in s.ready {
      m := Move.Deliver(s.nextDelivery);
    } else {
      var w := v.place(s.nextDelivery);
      assert s.nextDelivery in s.pool.pending;
      assert v.fits(Stand(s.pool.lanes[w], w, heads[w], s.nextTask));
      LaneBound(e, v, s.pool.lanes[w], w, heads[w], s.nextDelivery, s.nextTask);
      m := if s.pool.lanes[w].queue != [] then Move.Execute(w) else Move.Receive(w);
    }
  }

  /** A pending task is held by some lane. */
  lemma BusyLane(e: Iteration, r: Run) returns (w: nat)
    requires Inv(e, r) && r.system.pool.pending != map[]
    ensures w < e.workers == |r.system.pool.lanes| && r.system.pool.lanes[w].Outstanding() > 0
  {
    var s := r.system;
    var v, heads :| At(e, v, s, heads);
    var t :| t in s.pool.pending;
    w := v.place(t);
    assert v.fits(Stand(s.pool.lanes[w], w, heads[w], s.nextTask));
    LaneBound(e, v, s.pool.lanes[w], w, heads[w], s.nextDelivery, s.nextTask);
  }

  /** With nothing pending every lane is idle, in the state after exactly its admitted tasks. */
  lemma IdleLane(e: Iteration, r: Run, w: nat)
    requires Inv(e, r) && r.system.pool.pending == map[] && w < e.workers
    ensures e.Valid() && |r.system.pool.lanes| == e.workers
    ensures var next := FirstOn(e.workers, r.system.nextTask, w);
            next < |e.units| + e.workers && r.system.pool.lanes[w] == Lane([], [], Before(e, next))
  {
    var s := r.system;
    var v, heads :| At(e, v, s, heads);
    var x := Stand(s.pool.lanes[w], w, heads[w], s.nextTask);
    assert v.fits(x) && InOrderStand(e, x);
    assert heads[w] !in s.pool.pending;
    assert v.place(heads[w]) == w;
    Drained(e, x.lane, w, x.head, x.to);
  }

  /** A lane whose head is not below the next task holds nothing. */
  lemma Drained(e: Iteration, lane: Lane, w: nat, head: nat, to: nat)
    requires e.Valid() && InOrderStand(e, Stand(lane, w, head, to)) && to <= head
    ensures head == FirstOn(e.workers, to, w) && head < |e.units| + e.workers && lane == Lane([], [], Before(e, head))
  {
    FirstOnRange(e.workers, to, w);
    LessThanARound(lane.Outstanding(), e.workers);
    assert lane.done == [] && lane.queue == [];
  }

  lemma LessThanARound(k: nat, n: nat)
    requires Times(k, n) < n
    ensures k == 0
  {
  }

  /** The next task to deliver, once admitted, is ready or still pending. */
  lemma NextHeld(e: Iteration, r: Run)
    requires Inv(e, r) && r.system.nextDelivery < r.system.nextTask
    ensures r.system.nextDelivery in r.system.ready || r.system.nextDelivery in r.system.pool.pending
  {
    var v, heads :| At(e, v, r.system, heads);
  }

  lemma LimitPositive(e: Iteration)
    requires e.Valid()
    ensures e.Limit() > 0
  {
    TimesShift(e.prefetch, e.workers);
  }

  /** Every enabled move brings the end exactly one move nearer. */
  lemma OneMoveNearer(e: Iteration, r: Run, m: Move)
    requires Inv(e, r) && Enabled(e, r.system, m)
    ensures Remaining(e, After(e, r, m).system) == Remaining(e, r.system) - 1
  {
    var s := r.system;
    var v, heads :| At(e, v, s, heads);
    if m.Receive? { var _, _ := ReceiveKeeps(e, v, s, heads, m.lane); }
    var s', _ := StepAt(e, v, s, heads, m);
    WorkDrops(e, s, m, s');
  }

  lemma {:induction false} TurnsSpent(e: Iteration, r: Run, moves: seq<Move>)
    requires Inv(e, r)
    ensures Remaining(e, AfterAll(e, r, moves).system) == Remaining(e, r.system) - Turns(e, r, moves)
    decreases |moves|
  {
    if moves != [] {
      if Enabled(e, r.system, moves[0]) { OneMoveNearer(e, r, moves[0]); }
      StepKeeps(e, r, moves[0]);
      TurnsSpent(e, After(e, r, moves[0]), moves[1..]);
    }
  }

  /** A run that can go no further has delivered every unit, and took four moves for each and one to stop:
      every interleaving of the lanes gives the same stream in the same number of moves. */
  lemma EveryFullRun(e: Iteration, moves: seq<Move>)
    requires e.Valid() && e.inOrder
    requires forall m :: !Enabled(e, AfterAll(e, Begin(e), moves).system, m)
    ensures AfterAll(e, Begin(e), moves).delivered == Stream(e, e.start, |e.units|)
    ensures Turns(e, Begin(e), moves) == 4 * (|e.units| - e.start) + 1
  {
    var r := AfterAll(e, Begin(e), moves);
    BeginKeeps(e);
    RunKeeps(e, Begin(e), moves);
    TurnsSpent(e, Begin(e), moves);
    BeginWork(e, e.workers);
    if r.system.nextDelivery < |e.units| || !r.system.exhausted { var m := CanMove(e, r); }
    NothingLeft(e, r);
  }

  lemma {:induction false} StreamAt(e: Iteration, from: nat, to: nat, t: nat)
    requires e.Valid() && from <= t < to <= |e.units|
    ensures |Stream(e, from, to)| == to - from && Stream(e, from, to)[t - from] == Expected(e, t)
  {
    if t < to - 1 {
      StreamAt(e, from, to - 1, t);
    } else {
      StreamLength(e, from, to - 1);
    }
  }

  lemma {:induction false} StreamLength(e: Iteration, from: nat, to: nat)
    requires e.Valid() && from <= to <= |e.units|
    ensures |Stream(e, from, to)| == to - from
  {
    if from < to { StreamLength(e, from, to - 1); }
  }

  /** Batch `i` of a delivery carries the restore point of its lane: the lane's start state before its first fetch, and
      then the very state its previous fetch left; and its value is fetched from that state. */
  ghost predicate FollowsOn(e: Iteration, d: seq<TaggedBatch>, i: nat)
    requires e.Valid() && i < |d|
  {
    && d[i].batch == e.start + i < |e.units| && d[i].worker == (e.start + i) % e.workers
    && d[i].seed == e.baseSeed + d[i].worker && d[i].worker < e.workers
    && d[i].value == e.fetch(Request(e.units[e.start + i], d[i].state)).value
    && if i < e.workers then d[i].state == e.initial[d[i].worker]
       else
         var previous := d[i - e.workers];
         && previous.worker == d[i].worker
         && d[i].state == e.fetch(Request(e.units[e.start + i - e.workers], previous.state)).state
  }

  lemma ExpectedFollows(e: Iteration, d: seq<TaggedBatch>, to: nat, i: nat)
    requires e.Valid() && e.start + i < to <= |e.units| && d == Stream(e, e.start, to)
    ensures i < |d| && FollowsOn(e, d, i)
  {
    var t := e.start + i;
    StreamAt(e, e.start, to, t);
    assert d[i] == Expected(e, t);
    LaneOfIsMod(e.workers, t);
    if i >= e.workers {
      StreamAt(e, e.start, to, t - e.workers);
      assert d[i - e.workers] == Expected(e, t - e.workers);
      assert LaneOf(e.workers, t) == LaneOf(e.workers, t - e.workers);
      BeforeNext(e, t - e.workers);
    }
  }

  /** In every run, whatever the interleaving, every delivered batch follows on from its lane's previous one. */
  lemma SnapshotsChain(e: Iteration, moves: seq<Move>, i: nat)
    requires e.Valid() && e.inOrder && i < |AfterAll(e, Begin(e), moves).delivered|
    ensures FollowsOn(e, AfterAll(e, Begin(e), moves).delivered, i)
  {
    EveryRun(e, moves);
    var r := AfterAll(e, Begin(e), moves);
    StreamLength(e, e.start, r.system.nextDelivery);
    ExpectedFollows(e, r.delivered, r.system.nextDelivery, i);
  }

  /** Once everything is delivered nothing is left in the lanes or with the owner. */
  lemma NothingLeft(e: Iteration, r: Run)
    requires Inv(e, r) && r.system.nextDelivery == |e.units| && r.system.exhausted
    requires forall m :: !Enabled(e, r.system, m)
    ensures Remaining(e, r.system) == 0
  {
    var v, heads :| At(e, v, r.system, heads);
    Idle(e, r.system);
  }
}
