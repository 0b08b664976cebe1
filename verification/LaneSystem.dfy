/** The owner's prefetch loop over worker lanes as one state machine: admit a unit, let a lane execute,
    receive a completion, deliver a batch, in any interleaving. */
module LaneSystem {
  import opened Words
  import opened Outcomes
  import opened Lanes

  datatype Command = Command(task: nat, payload: Bytes)

  /** A worker process and its ring: commands not yet run, completions not yet received, its RNG state. */
  datatype Lane = Lane(queue: seq<Command>, done: seq<TaggedBatch>, rng: Bytes) {
    function Outstanding(): nat {
      |queue| + |done|
    }
  }

  datatype Pool = Pool(lanes: seq<Lane>, pending: map<nat, nat>)

  datatype System = System(pool: Pool, ready: map<nat, TaggedBatch>, drawn: nat, nextTask: nat,
                           nextDelivery: nat, cursor: nat, exhausted: bool)

  function Max(a: nat, b: nat): nat {
    if a < b then b else a
  }

  /** Slots of one lane's ring. */
  function Capacity(prefetch: nat): nat {
    Max(2, Pow2(BitLength(Max(1, prefetch))))
  }

  lemma CapacityExceedsPrefetch(prefetch: nat)
    ensures prefetch < Capacity(prefetch)
  {
    BitLengthBounds(prefetch);
  }

  /** A ring has the least power of two of slots that exceeds both one and the prefetch factor. */
  lemma CapacityIs(prefetch: nat)
    ensures exists k :: Capacity(prefetch) == Pow2(k)
    ensures 1 < Capacity(prefetch) && prefetch < Capacity(prefetch)
    ensures forall k: nat | 1 < Pow2(k) && prefetch < Pow2(k) :: Capacity(prefetch) <= Pow2(k)
  {
    var least := Max(1, prefetch);
    BitLengthBounds(least);
    assert Capacity(prefetch) == Pow2(BitLength(least));
    forall k: nat | 1 < Pow2(k) && prefetch < Pow2(k)
      ensures Capacity(prefetch) <= Pow2(k)
    {
      BitLengthBelow(least, k);
      Pow2Monotone(BitLength(least), k);
    }
  }

  // ----- the pool -----

  function TrySubmit(p: Pool, capacity: nat, task: nat, payload: Bytes, w: nat): Option<Pool>
    requires w < |p.lanes|
  {
    var lane := p.lanes[w];
    if lane.Outstanding() >= capacity then None
    else Some(Pool(p.lanes[w := lane.(queue := lane.queue + [Command(task, payload)])], p.pending[task := w]))
  }

  /** A lane takes its oldest command, snapshots its RNG state, fetches and publishes. */
  function Executed(e: Iteration, lane: Lane, w: nat): Lane
    requires lane.queue != []
  {
    var c := lane.queue[0];
    var reply := e.fetch(Request(c.payload, lane.rng));
    Lane(lane.queue[1..], lane.done + [TaggedBatch(c.task, w, e.baseSeed + w, reply.value, lane.rng)], reply.state)
  }

  function RunOldest(e: Iteration, p: Pool, w: nat): Pool
    requires w < |p.lanes| && p.lanes[w].queue != []
  {
    p.(lanes := p.lanes[w := Executed(e, p.lanes[w], w)])
  }

  predicate Owned(pending: map<nat, nat>, task: nat, w: nat) {
    task in pending && pending[task] == w
  }

  /** The owner takes a lane's oldest completion and forgets its pending entry. */
  function TakeCompletion(p: Pool, w: nat): Pool
    requires w < |p.lanes| && p.lanes[w].done != []
  {
    var lane := p.lanes[w];
    Pool(p.lanes[w := lane.(done := lane.done[1..])], p.pending - {lane.done[0].batch})
  }

  /** Tasks below `below` that are pending on lane `w`. */
  function PendingFor(pending: map<nat, nat>, w: nat, below: nat): nat
    decreases below
  {
    if below == 0 then 0 else PendingFor(pending, w, below - 1) + if Owned(pending, below - 1, w) then 1 else 0
  }

  // ----- the owner -----

  /** Share of the limit one lane may hold under on-completion delivery. */
  function TaskLimit(e: Iteration): nat
    requires e.workers > 0
  {
    Max(1, Rounds(e.workers, e.Limit()))
  }

  /** Try `tries` lanes from the cursor on; the cursor moves past every lane tried. */
  function Scan(e: Iteration, pending: map<nat, nat>, below: nat, cursor: nat, tries: nat): (r: (Option<nat>, nat))
    requires e.workers > 0
    ensures r.0.Some? ==> r.0.value < e.workers
    decreases tries
  {
    if tries == 0 then (None, cursor)
    else if PendingFor(pending, LaneOf(e.workers, cursor), below) < TaskLimit(e) then
      (Some(LaneOf(e.workers, cursor)), cursor + 1)
    else Scan(e, pending, below, cursor + 1, tries - 1)
  }

  function InOrderLane(e: Iteration, task: nat): (w: nat)
    requires e.workers > 0 && e.start <= task
    ensures w < e.workers
  {
    LaneOf(e.workers, e.phase + (task - e.start))
  }

  function NextWorker(e: Iteration, s: System): (r: (Option<nat>, nat))
    requires e.workers > 0 && e.start <= s.nextTask
    ensures r.0.Some? ==> r.0.value < e.workers
  {
    if e.inOrder then (Some(InOrderLane(e, s.nextTask)), s.cursor)
    else Scan(e, s.pool.pending, s.nextTask, s.cursor, e.workers)
  }

  /** What must never happen: a drawn unit dropped by a full ring or for want of a lane, or a completion from
      a lane that does not own it. */
  datatype Fault = SubmitRefused | NoLane | LaneMismatch

  datatype Outcome = Outcome(system: System, fault: Option<Fault>, delivered: Option<TaggedBatch>)

  predicate Admitting(s: System, limit: nat) {
    !s.exhausted && |s.ready| + |s.pool.pending| < limit
  }

  /** One turn of the fill loop: the unit is drawn before any lane has accepted it. */
  function AdmitUnit(e: Iteration, s: System): (o: Outcome)
    requires e.workers > 0 && |s.pool.lanes| == e.workers && e.start <= s.nextTask
    ensures |o.system.pool.lanes| == e.workers && e.start <= o.system.nextTask
  {
    if s.drawn >= |e.units| then Outcome(s.(exhausted := true), None, None)
    else
      var (lane, cursor) := NextWorker(e, s);
      var drawn := s.(drawn := s.drawn + 1, cursor := cursor);
      if lane.None? then Outcome(drawn.(exhausted := true), Some(NoLane), None)
      else
        var submitted := TrySubmit(s.pool, Capacity(e.prefetch), s.nextTask, e.units[s.drawn], lane.value);
        if submitted.None? then Outcome(drawn, Some(SubmitRefused), None)
        else Outcome(drawn.(pool := submitted.value, nextTask := s.nextTask + 1), None, None)
  }

  function Accept(s: System, w: nat): Outcome
    requires w < |s.pool.lanes| && s.pool.lanes[w].done != []
  {
    var b := s.pool.lanes[w].done[0];
    var received := s.(pool := TakeCompletion(s.pool, w));
    if !Owned(s.pool.pending, b.batch, w) then Outcome(received, Some(LaneMismatch), None)
    else Outcome(received.(ready := s.ready[b.batch := b]), None, None)
  }

  function HandOver(s: System, task: nat): Outcome
    requires task in s.ready
  {
    Outcome(s.(ready := s.ready - {task}, nextDelivery := s.nextDelivery + 1), None, Some(s.ready[task]))
  }

  /** The moves of the owner and of the lanes, in any order. */
  datatype Move = Admit | Execute(lane: nat) | Receive(lane: nat) | Deliver(task: nat)

  predicate Enabled(e: Iteration, s: System, m: Move) {
    match m
    case Admit => Admitting(s, e.Limit())
    case Execute(w) => w < |s.pool.lanes| && s.pool.lanes[w].queue != []
    case Receive(w) => w < |s.pool.lanes| && s.pool.lanes[w].done != []
    case Deliver(t) => t in s.ready && (e.inOrder ==> t == s.nextDelivery)
  }

  /** The owner admits units until as many are admitted and undelivered as the lanes hold with `prefetch` each. */
  lemma AdmitsUpTo(e: Iteration, s: System)
    ensures Enabled(e, s, Admit) <==> !s.exhausted && |s.ready| + |s.pool.pending| < e.prefetch * e.workers
  {
    TimesIsMul(e.prefetch, e.workers);
  }

  function Step(e: Iteration, s: System, m: Move): (o: Outcome)
    requires e.workers > 0 && |s.pool.lanes| == e.workers && e.start <= s.nextTask && Enabled(e, s, m)
    ensures |o.system.pool.lanes| == e.workers && e.start <= o.system.nextTask
  {
    match m
    case Admit => AdmitUnit(e, s)
    case Execute(w) => Outcome(s.(pool := RunOldest(e, s.pool, w)), None, None)
    case Receive(w) => Accept(s, w)
    case Deliver(t) => HandOver(s, t)
  }

  /** A run: the system now, the faults so far, and every batch delivered so far, in order. */
  datatype Run = Run(system: System, faults: seq<Fault>, delivered: seq<TaggedBatch>)

  function After(e: Iteration, r: Run, m: Move): (r': Run)
    requires e.workers > 0 && |r.system.pool.lanes| == e.workers && e.start <= r.system.nextTask
    ensures |r'.system.pool.lanes| == e.workers && e.start <= r'.system.nextTask
  {
    if !Enabled(e, r.system, m) then r
    else
      var o := Step(e, r.system, m);
      Run(o.system,
          if o.fault.Some? then r.faults + [o.fault.value] else r.faults,
          if o.delivered.Some? then r.delivered + [o.delivered.value] else r.delivered)
  }

  function AfterAll(e: Iteration, r: Run, moves: seq<Move>): Run
    requires e.workers > 0 && |r.system.pool.lanes| == e.workers && e.start <= r.system.nextTask
    decreases |moves|
  {
    if moves == [] then r else AfterAll(e, After(e, r, moves[0]), moves[1..])
  }

  /** A new iterator over lanes that hold nothing, its sampler already advanced past what was delivered. */
  function Begin(e: Iteration): Run
    requires |e.initial| == e.workers
  {
    var lanes := seq(e.workers, w requires 0 <= w < e.workers => Lane([], [], e.initial[w]));
    Run(System(Pool(lanes, map[]), map[], e.start, e.start, e.start, e.phase, false), [], [])
  }

  /** Lanes run on their own: lane by lane, each listed lane with a command runs its oldest. */
  function ExecuteAll(e: Iteration, p: Pool, ws: seq<nat>): (r: Pool)
    ensures |r.lanes| == |p.lanes| && r.pending == p.pending
    decreases |ws|
  {
    if ws == [] then p
    else ExecuteAll(e, if ws[0] < |p.lanes| && p.lanes[ws[0]].queue != [] then RunOldest(e, p, ws[0]) else p, ws[1..])
  }

  lemma {:induction false} ExecuteMore(e: Iteration, p: Pool, ws: seq<nat>, w: nat)
    requires var q := ExecuteAll(e, p, ws); w < |q.lanes| && q.lanes[w].queue != []
    ensures ExecuteAll(e, p, ws + [w]) == RunOldest(e, ExecuteAll(e, p, ws), w)
    decreases |ws|
  {
    if ws == [] {
      var q := RunOldest(e, p, w);
      assert ([] + [w])[1..] == [] && ExecuteAll(e, q, []) == q;
    } else {
      var p' := if ws[0] < |p.lanes| && p.lanes[ws[0]].queue != [] then RunOldest(e, p, ws[0]) else p;
      assert (ws + [w])[1..] == ws[1..] + [w];
      ExecuteMore(e, p', ws[1..], w);
    }
  }
}
