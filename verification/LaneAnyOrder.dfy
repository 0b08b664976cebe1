/** On-completion map delivery: some lane always has room, and every unit is delivered exactly once in
    whatever order the lanes complete. */
module LaneAnyOrder {
  import opened Words
  import opened Outcomes
  import opened Lanes
  import opened LaneSystem
  import opened LaneLedger
  import opened LaneProgress

  // ----- pigeonhole over the pending dictionary -----

  /** Keys below a bound, counted one by one. */
  ghost function KeysBelow(pending: map<nat, nat>, below: nat): set<nat> {
    set t | t in pending && t < below
  }

  lemma KeysBelowNext(pending: map<nat, nat>, below: nat)
    ensures |KeysBelow(pending, below + 1)| == |KeysBelow(pending, below)| + if below in pending then 1 else 0
  {
    if below in pending {
      assert KeysBelow(pending, below + 1) == KeysBelow(pending, below) + {below};
    } else {
      assert KeysBelow(pending, below + 1) == KeysBelow(pending, below);
    }
  }

  /** Pending tasks of the first `k` lanes together. */
  function PendingOfFirst(pending: map<nat, nat>, k: nat, below: nat): nat
    decreases k
  {
    if k == 0 then 0 else PendingOfFirst(pending, k - 1, below) + PendingFor(pending, k - 1, below)
  }

  lemma {:induction false} PendingOfFirstNext(pending: map<nat, nat>, k: nat, below: nat)
    ensures PendingOfFirst(pending, k, below + 1)
         == PendingOfFirst(pending, k, below) + if below in pending && pending[below] < k then 1 else 0
    decreases k
  {
    if k > 0 { PendingOfFirstNext(pending, k - 1, below); }
  }

  lemma {:induction false} PendingOfFirstNone(pending: map<nat, nat>, k: nat)
    ensures PendingOfFirst(pending, k, 0) == 0
    decreases k
  {
    if k > 0 { PendingOfFirstNone(pending, k - 1); }
  }

  /** Every pending task is on one of the lanes, so the lanes' shares add up. */
  lemma {:induction false} SharesAddUp(pending: map<nat, nat>, n: nat, below: nat)
    requires forall t: nat | t in pending :: pending[t] < n
    ensures PendingOfFirst(pending, n, below) == |KeysBelow(pending, below)|
    decreases below
  {
    if below == 0 {
      PendingOfFirstNone(pending, n);
      assert KeysBelow(pending, 0) == {};
    } else {
      SharesAddUp(pending, n, below - 1);
      PendingOfFirstNext(pending, n, below - 1);
      KeysBelowNext(pending, below - 1);
    }
  }

  lemma {:induction false} FullShares(pending: map<nat, nat>, k: nat, below: nat, share: nat)
    requires forall w: nat | w < k :: PendingFor(pending, w, below) >= share
    ensures PendingOfFirst(pending, k, below) >= Times(k, share)
    decreases k
  {
    if k > 0 { FullShares(pending, k - 1, below, share); }
  }

  lemma {:induction false} TimesSwap(a: nat, b: nat)
    ensures Times(a, b) == Times(b, a)
  {
    TimesIsMul(a, b);
    TimesIsMul(b, a);
  }

  /** Below the limit, some lane holds fewer than its share. */
  lemma SomeLaneHasRoom(pending: map<nat, nat>, n: nat, below: nat, share: nat) returns (w: nat)
    requires forall t: nat | t in pending :: pending[t] < n && t < below
    requires |pending| < Times(share, n)
    ensures w < n && PendingFor(pending, w, below) < share
  {
    SharesAddUp(pending, n, below);
    TimesSwap(n, share);
    assert KeysBelow(pending, below) == pending.Keys;
    if forall u: nat | u < n :: PendingFor(pending, u, below) >= share {
      FullShares(pending, n, below, share);
    }
    w :| w < n && PendingFor(pending, w, below) < share;
  }

  /** The scan tries `tries` consecutive lanes: it finds none only if all of those are full. */
  lemma {:induction false} ScanFinds(e: Iteration, pending: map<nat, nat>, below: nat, cursor: nat, tries: nat, k: nat)
    requires e.workers > 0 && k < tries
    requires PendingFor(pending, LaneOf(e.workers, cursor + k), below) < TaskLimit(e)
    ensures var w := Scan(e, pending, below, cursor, tries).0;
            w.Some? && w.value < e.workers && PendingFor(pending, w.value, below) < TaskLimit(e)
    decreases tries
  {
    if PendingFor(pending, LaneOf(e.workers, cursor), below) >= TaskLimit(e) {
      assert k > 0;
      ScanFinds(e, pending, below, cursor + 1, tries - 1, k - 1);
    }
  }

  lemma {:induction false} RoundsOfTimes(k: nat, n: nat)
    requires n > 0
    ensures Rounds(n, Times(k, n)) == k
  {
    if k > 0 { RoundsOfTimes(k - 1, n); }
  }

  /** A lane is always found below the limit, and it holds fewer than the prefetch factor. */
  lemma WorkerFound(e: Iteration, s: System)
    requires e.Valid() && !e.inOrder && e.start <= s.nextTask && |s.pool.pending| < e.Limit()
    requires forall t: nat | t in s.pool.pending :: s.pool.pending[t] < e.workers && t < s.nextTask
    ensures var w := NextWorker(e, s).0;
            w.Some? && w.value < e.workers && PendingFor(s.pool.pending, w.value, s.nextTask) < e.prefetch
  {
    RoundsOfTimes(e.prefetch, e.workers);
    var w := SomeLaneHasRoom(s.pool.pending, e.workers, s.nextTask, e.prefetch);
    FirstOnRange(e.workers, s.cursor, w);
    ScanFinds(e, s.pool.pending, s.nextTask, s.cursor, e.workers, FirstOn(e.workers, s.cursor, w) - s.cursor);
  }

  // ----- shares change with the dictionary -----

  /** A lane's share of the limit is the prefetch factor. */
  lemma TaskLimitIs(e: Iteration)
    requires e.Valid()
    ensures TaskLimit(e) == e.prefetch
  {
    RoundsOfTimes(e.prefetch, e.workers);
  }

  predicate HasRoom(e: Iteration, pending: map<nat, nat>, below: nat, w: nat) {
    PendingFor(pending, w, below) < e.prefetch
  }

  /** The lanes are asked in turn from the cursor on, around the ring: the first with room is taken, and the cursor
      moves just past it. */
  lemma {:induction false} FirstWithRoom(e: Iteration, pending: map<nat, nat>, below: nat, cursor: nat, tries: nat)
    requires e.Valid()
    ensures var r := Scan(e, pending, below, cursor, tries);
            match r.0
            case Some(w) =>
              && cursor < r.1 <= cursor + tries && w == (r.1 - 1) % e.workers && HasRoom(e, pending, below, w)
              && forall c: nat | cursor <= c < r.1 - 1 :: !HasRoom(e, pending, below, c % e.workers)
            case None =>
              && r.1 == cursor + tries
              && forall c: nat | cursor <= c < cursor + tries :: !HasRoom(e, pending, below, c % e.workers)
    decreases tries
  {
    if tries > 0 {
      TaskLimitIs(e);
      LaneOfIsMod(e.workers, cursor);
      if !HasRoom(e, pending, below, cursor % e.workers) { FirstWithRoom(e, pending, below, cursor + 1, tries - 1); }
    }
  }

  /** The first unit of an iteration goes to the lane of its own number. */
  lemma FirstLane(e: Iteration)
    requires e.Valid() && !e.inOrder
    ensures NextWorker(e, Begin(e).system).0 == Some(e.start % e.workers)
  {
    var s := Begin(e).system;
    FirstWithRoom(e, s.pool.pending, s.nextTask, s.cursor, e.workers);
    NoShares(s.nextTask);
    LaneOfIsMod(e.workers, e.start);
    LaneOfIsMod(e.workers, e.phase);
    var _, lane := DivMod(e.start, e.workers);
    DivModUnique(lane, e.workers, 0, lane);
  }

  lemma {:induction false} ShareBelow(pending: map<nat, nat>, w: nat, below: nat, t: nat, x: nat)
    requires below <= t
    ensures PendingFor(pending[t := x], w, below) == PendingFor(pending, w, below)
    decreases below
  {
    if below > 0 { ShareBelow(pending, w, below - 1, t, x); }
  }

  lemma {:induction false} ShareWithout(pending: map<nat, nat>, w: nat, below: nat, t: nat)
    requires t in pending
    ensures PendingFor(pending - {t}, w, below)
         == PendingFor(pending, w, below) - if t < below && pending[t] == w then 1 else 0
    decreases below
  {
    if below > 0 { ShareWithout(pending, w, below - 1, t); }
  }

  lemma {:induction false} ShareOf(pending: map<nat, nat>, w: nat, below: nat, t: nat)
    requires t < below && Owned(pending, t, w)
    ensures PendingFor(pending, w, below) > 0
    decreases below
  {
    if t < below - 1 { ShareOf(pending, w, below - 1, t); }
  }

  // ----- the invariant -----

  /** A batch that is some unit's own, fetched on the lane it names. */
  ghost predicate Own(e: Iteration, b: TaggedBatch) {
    && e.start <= b.batch < |e.units| && b.worker < e.workers && b.seed == e.baseSeed + b.worker
    && b.value == e.fetch(Request(e.units[b.batch], b.state)).value
  }

  function TaskAt(lane: Lane, i: nat): nat
    requires i < lane.Outstanding()
  {
    if i < |lane.done| then lane.done[i].batch else lane.queue[i - |lane.done|].task
  }

  /** A lane holds its own pending tasks, oldest first, each once. */
  ghost predicate LaneHolds(e: Iteration, lane: Lane, w: nat) {
    && (forall i | 0 <= i < |lane.done| :: Own(e, lane.done[i]) && lane.done[i].worker == w)
    && (forall i | 0 <= i < |lane.queue| ::
          var c := lane.queue[i]; e.start <= c.task < |e.units| && c.payload == e.units[c.task])
    && (forall i, j | 0 <= i < j < lane.Outstanding() :: TaskAt(lane, i) < TaskAt(lane, j))
  }

  ghost predicate LanePending(lane: Lane, w: nat, pending: map<nat, nat>, below: nat) {
    && (forall i | 0 <= i < lane.Outstanding() :: Owned(pending, TaskAt(lane, i), w) && TaskAt(lane, i) < below)
    && lane.Outstanding() == PendingFor(pending, w, below)
  }

  ghost predicate LanesHold(e: Iteration, lanes: seq<Lane>, pending: map<nat, nat>, below: nat) {
    && |lanes| == e.workers
    && (forall w | 0 <= w < |lanes| :: LaneHolds(e, lanes[w], w))
    && (forall w | 0 <= w < |lanes| :: LanePending(lanes[w], w, pending, below))
  }

  ghost predicate Among(delivered: seq<TaggedBatch>, t: nat) {
    exists i :: 0 <= i < |delivered| && delivered[i].batch == t
  }

  /** Every admitted task is pending, ready or delivered, and only one of these. */
  ghost predicate Split(pending: map<nat, nat>, ready: map<nat, TaggedBatch>, delivered: seq<TaggedBatch>,
                        start: nat, below: nat) {
    && (forall t: nat | t in pending :: start <= t < below && t !in ready && !Among(delivered, t))
    && (forall t: nat | t in ready :: start <= t < below && !Among(delivered, t))
    && (forall t: nat | start <= t < below :: t in pending || t in ready || Among(delivered, t))
  }

  ghost predicate DeliveredOnce(e: Iteration, delivered: seq<TaggedBatch>) {
    && (forall i | 0 <= i < |delivered| :: Own(e, delivered[i]))
    && (forall i, j | 0 <= i < j < |delivered| :: delivered[i].batch != delivered[j].batch)
  }

  ghost predicate Books(e: Iteration, s: System, delivered: seq<TaggedBatch>) {
    && Split(s.pool.pending, s.ready, delivered, e.start, s.nextTask)
    && (forall t: nat | t in s.ready :: s.ready[t].batch == t && Own(e, s.ready[t]))
    && (forall t: nat | t in s.pool.pending :: s.pool.pending[t] < e.workers)
    && DeliveredOnce(e, delivered) && |delivered| == s.nextDelivery - e.start
  }

  // ----- one lane -----

  lemma SubmitLane(e: Iteration, lane: Lane, w: nat, pending: map<nat, nat>, t: nat) returns (more: Lane)
    requires LaneHolds(e, lane, w) && LanePending(lane, w, pending, t) && e.start <= t < |e.units|
    ensures more == lane.(queue := lane.queue + [Command(t, e.units[t])])
    ensures LaneHolds(e, more, w) && LanePending(more, w, pending[t := w], t + 1)
  {
    more := lane.(queue := lane.queue + [Command(t, e.units[t])]);
    ShareBelow(pending, w, t, t, w);
    forall i | 0 <= i < more.Outstanding()
      ensures TaskAt(more, i) == if i < lane.Outstanding() then TaskAt(lane, i) else t
    {
    }
  }

  lemma SubmitOther(lane: Lane, u: nat, pending: map<nat, nat>, t: nat, w: nat)
    requires LanePending(lane, u, pending, t) && u != w
    ensures LanePending(lane, u, pending[t := w], t + 1)
  {
    ShareBelow(pending, u, t, t, w);
  }

  lemma ExecuteLane(e: Iteration, lane: Lane, w: nat, pending: map<nat, nat>, below: nat)
    requires LaneHolds(e, lane, w) && LanePending(lane, w, pending, below) && lane.queue != [] && w < e.workers
    ensures LaneHolds(e, Executed(e, lane, w), w) && LanePending(Executed(e, lane, w), w, pending, below)
  {
    var more := Executed(e, lane, w);
    forall i | 0 <= i < lane.Outstanding()
      ensures TaskAt(more, i) == TaskAt(lane, i)
    {
    }
  }

  lemma ReceiveLane(e: Iteration, lane: Lane, w: nat, pending: map<nat, nat>, below: nat) returns (rest: Lane)
    requires LaneHolds(e, lane, w) && LanePending(lane, w, pending, below) && lane.done != []
    ensures rest == lane.(done := lane.done[1..])
    ensures Owned(pending, lane.done[0].batch, w) && lane.done[0].batch < below && Own(e, lane.done[0])
    ensures LaneHolds(e, rest, w) && LanePending(rest, w, pending - {lane.done[0].batch}, below)
  {
    rest := lane.(done := lane.done[1..]);
    assert TaskAt(lane, 0) == lane.done[0].batch;
    ShareWithout(pending, w, below, lane.done[0].batch);
    forall i | 0 <= i < rest.Outstanding()
      ensures TaskAt(rest, i) == TaskAt(lane, i + 1) > TaskAt(lane, 0)
    {
    }
  }

  lemma ReceiveOther(lane: Lane, u: nat, pending: map<nat, nat>, below: nat, t: nat)
    requires LanePending(lane, u, pending, below) && t in pending && pending[t] != u
    ensures LanePending(lane, u, pending - {t}, below)
  {
    ShareWithout(pending, u, below, t);
  }

  // ----- every move keeps the invariant -----

  lemma AdmitLanes(e: Iteration, lanes: seq<Lane>, pending: map<nat, nat>, t: nat, w: nat) returns (more: seq<Lane>)
    requires LanesHold(e, lanes, pending, t) && w < e.workers && e.start <= t < |e.units|
    ensures more == lanes[w := lanes[w].(queue := lanes[w].queue + [Command(t, e.units[t])])]
    ensures LanesHold(e, more, pending[t := w], t + 1)
  {
    var lane := SubmitLane(e, lanes[w], w, pending, t);
    more := lanes[w := lane];
    forall u | 0 <= u < |lanes|
      ensures LanePending(more[u], u, pending[t := w], t + 1)
    {
      if u != w { SubmitOther(lanes[u], u, pending, t, w); }
    }
  }

  lemma AdmitBooks(pending: map<nat, nat>, ready: map<nat, TaggedBatch>, delivered: seq<TaggedBatch>, start: nat,
                   t: nat, w: nat)
    requires Split(pending, ready, delivered, start, t) && start <= t
    requires forall i | 0 <= i < |delivered| :: delivered[i].batch < t
    ensures t !in pending && Split(pending[t := w], ready, delivered, start, t + 1)
  {
  }

  /** Batches delivered were admitted. */
  ghost predicate DeliveredBelow(delivered: seq<TaggedBatch>, below: nat) {
    forall i | 0 <= i < |delivered| :: delivered[i].batch < below
  }

  /** The drawn unit always finds a lane, and that lane always accepts it. */
  lemma AdmitKeeps(e: Iteration, s: System, delivered: seq<TaggedBatch>) returns (s': System)
    requires Holds(e, s, delivered) && Admitting(s, e.Limit())
    ensures AdmitUnit(e, s) == Outcome(s', None, None) && Holds(e, s', delivered)
  {
    var t := s.nextTask;
    if t < |e.units| {
      WorkerFound(e, s);
      var w, cursor := NextWorker(e, s).0.value, NextWorker(e, s).1;
      CapacityExceedsPrefetch(e.prefetch);
      assert LanePending(s.pool.lanes[w], w, s.pool.pending, t);
      var lanes := AdmitLanes(e, s.pool.lanes, s.pool.pending, t, w);
      AdmitBooks(s.pool.pending, s.ready, delivered, e.start, t, w);
      AddOne(s.pool.pending, t, w);
      var p := Pool(lanes, s.pool.pending[t := w]);
      assert TrySubmit(s.pool, Capacity(e.prefetch), t, e.units[t], w) == Some(p);
      s' := s.(pool := p, nextTask := t + 1, drawn := s.drawn + 1, cursor := cursor);
    } else {
      s' := s.(exhausted := true);
    }
  }

  ghost predicate Holds(e: Iteration, s: System, delivered: seq<TaggedBatch>) {
    && e.Valid() && !e.inOrder && CountsAt(e, s)
    && LanesHold(e, s.pool.lanes, s.pool.pending, s.nextTask)
    && Books(e, s, delivered) && DeliveredBelow(delivered, s.nextTask)
  }

  lemma ExecuteKeeps(e: Iteration, s: System, delivered: seq<TaggedBatch>, w: nat) returns (s': System)
    requires Holds(e, s, delivered) && w < e.workers && s.pool.lanes[w].queue != []
    ensures s' == s.(pool := RunOldest(e, s.pool, w)) && Holds(e, s', delivered)
  {
    ExecuteLane(e, s.pool.lanes[w], w, s.pool.pending, s.nextTask);
    var p := RunOldest(e, s.pool, w);
    assert LanesHold(e, p.lanes, p.pending, s.nextTask);
    s' := s.(pool := p);
  }

  lemma ReceiveLanes(e: Iteration, lanes: seq<Lane>, pending: map<nat, nat>, below: nat, w: nat)
    returns (rest: seq<Lane>)
    requires LanesHold(e, lanes, pending, below) && w < e.workers && lanes[w].done != []
    ensures var b := lanes[w].done[0];
            && Owned(pending, b.batch, w) && b.batch < below && Own(e, b)
            && rest == lanes[w := lanes[w].(done := lanes[w].done[1..])]
            && LanesHold(e, rest, pending - {b.batch}, below)
  {
    assert LanePending(lanes[w], w, pending, below);
    var lane := ReceiveLane(e, lanes[w], w, pending, below);
    var t := lanes[w].done[0].batch;
    rest := lanes[w := lane];
    forall u | 0 <= u < |lanes|
      ensures LanePending(rest[u], u, pending - {t}, below)
    {
      if u != w { ReceiveOther(lanes[u], u, pending, below, t); }
    }
  }

  lemma ReceiveKeeps(e: Iteration, s: System, delivered: seq<TaggedBatch>, w: nat) returns (s': System)
    requires Holds(e, s, delivered) && w < e.workers && s.pool.lanes[w].done != []
    ensures Accept(s, w) == Outcome(s', None, None) && Holds(e, s', delivered)
    ensures s.pool.lanes[w].done[0].batch !in s.ready
  {
    var b := s.pool.lanes[w].done[0];
    var rest := ReceiveLanes(e, s.pool.lanes, s.pool.pending, s.nextTask, w);
    RemoveOne(s.pool.pending, b.batch);
    AddOne(s.ready, b.batch, b);
    s' := s.(pool := Pool(rest, s.pool.pending - {b.batch}), ready := s.ready[b.batch := b]);
    assert Split(s'.pool.pending, s'.ready, delivered, e.start, s'.nextTask);
  }

  lemma DeliverSplit(pending: map<nat, nat>, ready: map<nat, TaggedBatch>, delivered: seq<TaggedBatch>, start: nat,
                     below: nat, t: nat, b: TaggedBatch)
    requires Split(pending, ready, delivered, start, below) && t in ready && b.batch == t
    ensures Split(pending, ready - {t}, delivered + [b], start, below)
  {
    assert (delivered + [b])[|delivered|] == b;
    forall u: nat
      ensures Among(delivered + [b], u) <==> Among(delivered, u) || u == t
    {
      if Among(delivered, u) {
        var i :| 0 <= i < |delivered| && delivered[i].batch == u;
        assert (delivered + [b])[i].batch == u;
      }
    }
  }

  lemma DeliverBooks(e: Iteration, s: System, s': System, delivered: seq<TaggedBatch>, t: nat, b: TaggedBatch)
    requires Books(e, s, delivered) && t in s.ready && b == s.ready[t]
    requires s' == s.(ready := s.ready - {t}, nextDelivery := s.nextDelivery + 1)
    ensures Books(e, s', delivered + [b])
  {
    DeliverSplit(s.pool.pending, s.ready, delivered, e.start, s.nextTask, t, b);
    DeliverOnce(e, delivered, b);
  }

  lemma DeliverKeeps(e: Iteration, s: System, delivered: seq<TaggedBatch>, t: nat) returns (s': System, b: TaggedBatch)
    requires Holds(e, s, delivered) && t in s.ready
    ensures HandOver(s, t) == Outcome(s', None, Some(b)) && b.batch == t && Holds(e, s', delivered + [b])
  {
    b := s.ready[t];
    s' := s.(ready := s.ready - {t}, nextDelivery := s.nextDelivery + 1);
    RemoveOne(s.ready, t);
    DeliverBooks(e, s, s', delivered, t, b);
  }

  lemma DeliverOnce(e: Iteration, delivered: seq<TaggedBatch>, b: TaggedBatch)
    requires DeliveredOnce(e, delivered) && Own(e, b) && !Among(delivered, b.batch)
    ensures DeliveredOnce(e, delivered + [b])
  {
  }

  ghost predicate Inv(e: Iteration, r: Run) {
    Holds(e, r.system, r.delivered) && r.faults == []
  }

  /** Every move of every interleaving keeps the invariant and faults nothing. */
  lemma StepKeeps(e: Iteration, r: Run, m: Move)
    requires Inv(e, r)
    ensures Inv(e, After(e, r, m))
  {
    if Enabled(e, r.system, m) {
      match m {
        case Admit => var _ := AdmitKeeps(e, r.system, r.delivered);
        case Execute(w) => var _ := ExecuteKeeps(e, r.system, r.delivered, w);
        case Receive(w) => var _ := ReceiveKeeps(e, r.system, r.delivered, w);
        case Deliver(t) => var _, _ := DeliverKeeps(e, r.system, r.delivered, t);
      }
    }
  }

  lemma {:induction false} RunKeeps(e: Iteration, r: Run, moves: seq<Move>)
    requires Inv(e, r)
    ensures Inv(e, AfterAll(e, r, moves))
    ensures Remaining(e, AfterAll(e, r, moves).system) == Remaining(e, r.system) - Turns(e, r, moves)
    decreases |moves|
  {
    if moves != [] {
      if Enabled(e, r.system, moves[0]) { OneMoveNearer(e, r, moves[0]); }
      StepKeeps(e, r, moves[0]);
      RunKeeps(e, After(e, r, moves[0]), moves[1..]);
    }
  }

  lemma OneMoveNearer(e: Iteration, r: Run, m: Move)
    requires Inv(e, r) && Enabled(e, r.system, m)
    ensures Remaining(e, After(e, r, m).system) == Remaining(e, r.system) - 1
  {
    if m.Receive? { var _ := ReceiveKeeps(e, r.system, r.delivered, m.lane); }
    StepKeeps(e, r, m);
    WorkDrops(e, r.system, m, Step(e, r.system, m).system);
  }

  lemma BeginKeeps(e: Iteration)
    requires e.Valid() && !e.inOrder
    ensures Inv(e, Begin(e))
  {
    NoShares(e.start);
  }

  lemma {:induction false} NoShares(below: nat)
    ensures forall w: nat :: PendingFor(map[], w, below) == 0
    decreases below
  {
    if below > 0 { NoShares(below - 1); }
  }

  /** A pending task is held by some lane. */
  lemma BusyLane(e: Iteration, r: Run) returns (w: nat)
    requires Inv(e, r) && r.system.pool.pending != map[]
    ensures w < e.workers == |r.system.pool.lanes| && r.system.pool.lanes[w].Outstanding() > 0
  {
    var p := r.system.pool;
    var t :| t in p.pending;
    w := p.pending[t];
    ShareOf(p.pending, w, r.system.nextTask, t);
    assert LanePending(p.lanes[w], w, p.pending, r.system.nextTask);
  }

  /** Until every unit is delivered and the sampler is seen to end, some move is enabled. */
  lemma CanMove(e: Iteration, r: Run) returns (m: Move)
    requires Inv(e, r) && (r.system.nextDelivery < |e.units| || !r.system.exhausted)
    ensures Enabled(e, r.system, m)
  {
    var s := r.system;
    TimesShift(e.prefetch, e.workers);
    if Admitting(s, e.Limit()) {
      m := Move.Admit;
    } else if t :| t in s.ready {
      m := Move.Deliver(t);
    } else {
      var w := BusyLane(e, r);
      m := if s.pool.lanes[w].queue != [] then Move.Execute(w) else Move.Receive(w);
    }
  }

  /** Whatever the completion order: a lane is always found, no unit is refused or lost, no completion comes from
      a lane that does not own it, and every batch delivered is a different unit's own. */
  lemma EveryRun(e: Iteration, moves: seq<Move>)
    requires e.Valid() && !e.inOrder
    ensures var r := AfterAll(e, Begin(e), moves); var s := r.system;
            && r.faults == [] && s.nextTask == s.drawn <= |e.units|
            && |s.ready| + |s.pool.pending| + |r.delivered| == s.nextTask - e.start
            && |s.ready| + |s.pool.pending| <= e.Limit() && DeliveredOnce(e, r.delivered)
  {
    BeginKeeps(e);
    RunKeeps(e, Begin(e), moves);
  }

  /** A run that can go no further has delivered every unit exactly once, in four moves each and one to stop. */
  lemma EveryFullRun(e: Iteration, moves: seq<Move>)
    requires e.Valid() && !e.inOrder
    requires forall m :: !Enabled(e, AfterAll(e, Begin(e), moves).system, m)
    ensures var delivered := AfterAll(e, Begin(e), moves).delivered;
            && DeliveredOnce(e, delivered) && |delivered| == |e.units| - e.start
            && (forall t: nat | e.start <= t < |e.units| :: Among(delivered, t))
    ensures Turns(e, Begin(e), moves) == 4 * (|e.units| - e.start) + 1
  {
    var r := AfterAll(e, Begin(e), moves);
    BeginKeeps(e);
    RunKeeps(e, Begin(e), moves);
    BeginWork(e, e.workers);
    if r.system.nextDelivery < |e.units| || !r.system.exhausted { var m := CanMove(e, r); }
    Idle(e, r.system);
    NoneHeld(r.system);
  }

  lemma NoneHeld(s: System)
    requires |s.ready| + |s.pool.pending| == 0
    ensures s.ready == map[] && s.pool.pending == map[]
  {
  }
}
