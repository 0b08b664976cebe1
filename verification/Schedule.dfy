/** The bounded dispatch frontier as a state machine over values, with its whole-run guarantees. */
module Schedule {
  import opened Words
  import opened Outcomes
  import opened Intervals
  import opened Positions

  const MAX_U64: nat := TWO_64 - 1

  datatype Dispatch = Dispatch(position: nat, worker: nat)
  datatype PositionState = Dispatched(worker: nat) | Ready(worker: nat)

  datatype ScheduleError =
    | EndPrecedesStart | ZeroDepth | ZeroWorkers
    | NotEligible | OutsideFrontier | WrongWorker | CompletedTwice
    | OutsideOpenRange | DeliveredTwice | DepthExcludesActive | WidthOutsideCeiling

  function SaturatingAdd(a: nat, b: nat): nat {
    if a + b > MAX_U64 then MAX_U64 else a + b
  }

  function Min(a: nat, b: nat): nat {
    if a <= b then a else b
  }

  datatype State = State(end: u64, depth: nat, workerCount: nat, workerCeiling: nat, nextCommit: nat,
                         dispatchOrdinal: nat, positions: map<nat, PositionState>, delivered: set<nat>) {
    function Stop(): nat {
      Min(SaturatingAdd(nextCommit, depth), end)
    }

    predicate Eligible(p: nat) {
      nextCommit <= p < Stop() && p !in positions && p !in delivered
    }

    function DispatchAt(p: nat): Option<Dispatch>
      requires workerCount > 0
    {
      if Eligible(p) then Some(Dispatch(p, dispatchOrdinal % workerCount)) else None
    }

    predicate Complete() {
      nextCommit == end && positions == map[] && delivered == {}
    }
  }

  /** Skip the contiguous run of delivered positions from `next`. */
  function Advance(next: nat, delivered: set<nat>): (nat, set<nat>)
    decreases |delivered|
  {
    if next in delivered then Advance(next + 1, delivered - {next}) else (next, delivered)
  }

  /** The requests a driver can make of a running schedule. `Resume` replaces it by a new one rebuilt from
      its checkpoint: the commit base and the deliveries beyond it, seeded in some order. */
  datatype Op =
    | MarkDispatched(dispatch: Dispatch)
    | MarkCompleted(dispatch: Dispatch)
    | TryCommit
    | TryCommitReady(position: nat)
    | SetDepth(depth: nat)
    | SetWorkerCount(workers: nat)
    | Resume(newDepth: nat, newWorkers: nat, order: seq<nat>)

  function New(start: u64, end: u64, depth: nat, workers: nat): Result<State, ScheduleError> {
    if end < start then Err(EndPrecedesStart)
    else if depth == 0 then Err(ZeroDepth)
    else if workers == 0 then Err(ZeroWorkers)
    else Ok(State(end, depth, workers, workers, start, 0, map[], {}))
  }

  function SeedDelivered(s: State, p: nat): Result<State, ScheduleError> {
    if p <= s.nextCommit || p >= s.end then Err(OutsideOpenRange)
    else if p in s.positions || p in s.delivered then Err(DeliveredTwice)
    else Ok(s.(delivered := s.delivered + {p}))
  }

  function SeedAll(s: State, order: seq<nat>): (r: Result<State, ScheduleError>)
    ensures r.Ok? ==> r.value.workerCount == s.workerCount
    decreases |order|
  {
    if order == [] then Ok(s)
    else
      var next := SeedDelivered(s, order[0]);
      if next.Err? then next else SeedAll(next.value, order[1..])
  }

  /** A new schedule from the checkpoint of `s`, on a possibly different depth and width. */
  function Rebuild(s: State, depth: nat, workers: nat, order: seq<nat>): (r: Result<State, ScheduleError>)
    ensures r.Ok? ==> r.value.workerCount == workers > 0
  {
    if s.nextCommit >= TWO_64 then Err(EndPrecedesStart)
    else
      var blank := New(s.nextCommit, s.end, depth, workers);
      if blank.Err? then blank else SeedAll(blank.value, order)
  }

  function CommitReady(s: State, p: nat): (State, Option<nat>) {
    if !(p in s.positions && s.positions[p].Ready?) then (s, None)
    else
      var rest := s.(positions := s.positions - {p});
      if p == s.nextCommit then
        var (next, delivered) := Advance(p + 1, s.delivered);
        (rest.(nextCommit := next, delivered := delivered), Some(p))
      else (rest.(delivered := s.delivered + {p}), Some(p))
  }

  /** The outcome of one request: an error leaves the state unchanged. */
  datatype Outcome = Outcome(state: State, error: Option<ScheduleError>, committed: Option<nat>)

  function Fail(s: State, e: ScheduleError): Outcome {
    Outcome(s, Some(e), None)
  }

  function Step(s: State, op: Op): (o: Outcome)
    requires s.workerCount > 0
    ensures o.state.workerCount > 0
  {
    match op
    case MarkDispatched(d) =>
      if s.DispatchAt(d.position) != Some(d) then Fail(s, NotEligible)
      else Outcome(s.(positions := s.positions[d.position := Dispatched(d.worker)],
                      dispatchOrdinal := s.dispatchOrdinal + 1), None, None)
    case MarkCompleted(d) =>
      if d.position !in s.positions then Fail(s, OutsideFrontier)
      else if s.positions[d.position].Ready? then Fail(s, CompletedTwice)
      else if s.positions[d.position].worker != d.worker then Fail(s, WrongWorker)
      else Outcome(s.(positions := s.positions[d.position := Ready(d.worker)]), None, None)
    case TryCommit =>
      var (s', committed) := CommitReady(s, s.nextCommit);
      Outcome(s', None, committed)
    case TryCommitReady(p) =>
      var (s', committed) := CommitReady(s, p);
      Outcome(s', None, committed)
    case SetDepth(depth) =>
      if depth == 0 then Fail(s, ZeroDepth)
      else if exists p :: p in s.positions && p >= SaturatingAdd(s.nextCommit, depth) then Fail(s, DepthExcludesActive)
      else Outcome(s.(depth := depth), None, None)
    case SetWorkerCount(workers) =>
      if workers == 0 || workers > s.workerCeiling then Fail(s, WidthOutsideCeiling)
      else Outcome(s.(workerCount := workers, dispatchOrdinal := s.dispatchOrdinal % workers), None, None)
    case Resume(depth, workers, order) =>
      var rebuilt := Rebuild(s, depth, workers, order);
      if rebuilt.Err? then Fail(s, rebuilt.error) else Outcome(rebuilt.value, None, None)
  }

  /** A run: the schedule now, and every position it has committed so far, in order. */
  datatype Run = Run(state: State, committed: seq<nat>)

  function After(r: Run, op: Op): (r': Run)
    requires r.state.workerCount > 0
    ensures r'.state.workerCount > 0
  {
    var o := Step(r.state, op);
    Run(o.state, if o.committed.Some? then r.committed + [o.committed.value] else r.committed)
  }

  /** A resume must seed exactly the checkpoint's deliveries, each once. */
  ghost predicate Admissible(s: State, op: Op) {
    op.Resume? ==> Distinct(op.order) && (forall p: nat :: p in op.order <==> p in s.delivered)
  }

  ghost predicate Distinct(s: seq<nat>) {
    forall i, j | 0 <= i < j < |s| :: s[i] != s[j]
  }

  // ----- the whole-run invariant -----

  ghost predicate Shape(start: nat, s: State) {
    && start <= s.nextCommit <= s.end
    && s.depth > 0 && 0 < s.workerCount <= s.workerCeiling
    && (forall p | p in s.positions :: s.nextCommit <= p < s.Stop() && s.positions[p].worker < s.workerCeiling)
    && (forall p | p in s.delivered :: s.nextCommit < p < s.end && p !in s.positions)
  }

  /** Committed so far: exactly the positions below the base and the deliveries beyond it, each once. */
  ghost predicate Ledger(start: nat, s: State, committed: seq<nat>) {
    && Distinct(committed)
    && (forall p: nat :: p in committed <==> start <= p < s.nextCommit || p in s.delivered)
  }

  ghost predicate Inv(start: nat, r: Run) {
    Shape(start, r.state) && Ledger(start, r.state, r.committed)
  }

  lemma {:induction false} AdvanceSkips(next: nat, delivered: set<nat>)
    ensures var (n, d) := Advance(next, delivered);
            && next <= n && n !in d && d <= delivered
            && (forall p | p in delivered :: p in d || next <= p < n)
            && (forall p | next <= p < n :: p in delivered && p !in d)
    decreases |delivered|
  {
    if next in delivered { AdvanceSkips(next + 1, delivered - {next}); }
  }

  lemma CommitKeeps(start: nat, r: Run, p: nat)
    requires Inv(start, r) && p in r.state.positions && r.state.positions[p].Ready?
    ensures var (s', c) := CommitReady(r.state, p);
            c == Some(p) && p !in r.committed && Inv(start, Run(s', r.committed + [p]))
  {
    var s := r.state;
    var (s', _) := CommitReady(s, p);
    if p == s.nextCommit {
      AdvanceSkips(p + 1, s.delivered);
      assert s.end !in s.delivered;
    }
    DistinctSnoc(r.committed, p);
  }

  lemma DistinctSnoc(s: seq<nat>, p: nat)
    requires Distinct(s) && p !in s
    ensures Distinct(s + [p])
  {
  }

  lemma {:induction false} SeedAllSucceeds(s: State, order: seq<nat>)
    requires Distinct(order)
    requires forall p | p in order :: s.nextCommit < p < s.end && p !in s.positions && p !in s.delivered
    ensures SeedAll(s, order) == Ok(s.(delivered := s.delivered + (set p | p in order)))
    decreases |order|
  {
    if order != [] {
      var next := SeedDelivered(s, order[0]).value;
      assert order == [order[0]] + order[1..];
      assert forall p | p in order[1..] :: p in order && p != order[0];
      SeedAllSucceeds(next, order[1..]);
      assert next.delivered + (set p | p in order[1..]) == s.delivered + (set p | p in order);
    } else {
      assert s.delivered + (set p | p in order) == s.delivered;
    }
  }

  /** Rebuilding from a checkpoint never fails, keeps the commit history and drops what was in flight. */
  lemma ResumeKeeps(start: nat, r: Run, op: Op)
    requires Inv(start, r) && op.Resume? && Admissible(r.state, op) && op.newDepth > 0 && op.newWorkers > 0
    ensures Step(r.state, op).error.None?
    ensures Step(r.state, op).state == State(r.state.end, op.newDepth, op.newWorkers, op.newWorkers,
                                             r.state.nextCommit, 0, map[], r.state.delivered)
    ensures Inv(start, After(r, op))
  {
    var s := r.state;
    var blank := New(s.nextCommit, s.end, op.newDepth, op.newWorkers).value;
    SeedAllSucceeds(blank, op.order);
    assert {} + (set p | p in op.order) == s.delivered;
  }

  /** Every request keeps the invariant. */
  lemma StepKeeps(start: nat, r: Run, op: Op)
    requires Inv(start, r) && Admissible(r.state, op)
    ensures Inv(start, After(r, op))
  {
    var s := r.state;
    match op {
      case TryCommit =>
        if s.nextCommit in s.positions && s.positions[s.nextCommit].Ready? { CommitKeeps(start, r, s.nextCommit); }
      case TryCommitReady(p) =>
        if p in s.positions && s.positions[p].Ready? { CommitKeeps(start, r, p); }
      case Resume(depth, workers, order) =>
        if depth > 0 && workers > 0 { ResumeKeeps(start, r, op); }
      case MarkDispatched(d) => DispatchKeeps(start, s, d);
      case MarkCompleted(d) =>
      case SetDepth(depth) => DepthKeeps(start, s, depth);
      case SetWorkerCount(workers) =>
    }
  }

  lemma DispatchKeeps(start: nat, s: State, d: Dispatch)
    requires Shape(start, s)
    ensures Shape(start, Step(s, MarkDispatched(d)).state)
  {
    if s.DispatchAt(d.position) == Some(d) {
      assert d.worker < s.workerCount by { var q, m := DivMod(s.dispatchOrdinal, s.workerCount); }
    }
  }

  lemma DepthKeeps(start: nat, s: State, depth: nat)
    requires Shape(start, s)
    ensures Shape(start, Step(s, SetDepth(depth)).state)
  {
  }

  // ----- whole runs -----

  function RunAll(r: Run, ops: seq<Op>): Run
    requires r.state.workerCount > 0
    decreases |ops|
  {
    if ops == [] then r else RunAll(After(r, ops[0]), ops[1..])
  }

  ghost predicate AllAdmissible(r: Run, ops: seq<Op>)
    requires r.state.workerCount > 0
    decreases |ops|
  {
    ops != [] ==> Admissible(r.state, ops[0]) && AllAdmissible(After(r, ops[0]), ops[1..])
  }

  lemma {:induction false} RunKeeps(start: nat, r: Run, ops: seq<Op>)
    requires Inv(start, r) && AllAdmissible(r, ops)
    ensures Inv(start, RunAll(r, ops))
    decreases |ops|
  {
    if ops != [] {
      StepKeeps(start, r, ops[0]);
      RunKeeps(start, After(r, ops[0]), ops[1..]);
    }
  }

  /** After any requests and resumes on a new schedule, exactly the positions below the commit base and the
      deliveries beyond it have been committed, each once; a complete run has committed every position of
      [start, end) exactly once. */
  lemma ExactlyOnce(start: u64, end: u64, depth: nat, workers: nat, ops: seq<Op>)
    requires New(start, end, depth, workers).Ok?
    requires AllAdmissible(Run(New(start, end, depth, workers).value, []), ops)
    ensures var r := RunAll(Run(New(start, end, depth, workers).value, []), ops);
            && Inv(start, r)
            && (r.state.Complete() ==>
                  Distinct(r.committed) && forall p: nat :: p in r.committed <==> start <= p < r.state.end)
  {
    RunKeeps(start, Run(New(start, end, depth, workers).value, []), ops);
  }

  /** A position is never dispatched while it is active or once it has been committed. */
  lemma DispatchOnce(start: nat, r: Run, d: Dispatch)
    requires Inv(start, r)
    ensures Step(r.state, MarkDispatched(d)).error.None? ==>
              && d.position !in r.state.positions && d.position !in r.committed
              && start <= d.position < r.state.end && d.worker < r.state.workerCount
  {
    var q, m := DivMod(r.state.dispatchOrdinal, r.state.workerCount);
  }

  /** The frontier never holds more positions than its depth. */
  lemma OccupiedWithinDepth(start: nat, s: State)
    requires Shape(start, s)
    ensures |s.positions| <= s.depth
  {
    var lo, hi := s.nextCommit, s.Stop();
    if lo <= hi {
      SubsetSize(s.positions.Keys, Interval(lo, hi));
      assert |s.positions| == |s.positions.Keys|;
    } else {
      assert s.positions == map[];
    }
  }

  // ----- strict commits deliver in order -----

  ghost predicate InOrder(start: nat, r: Run) {
    Shape(start, r.state) && r.state.delivered == {} && r.committed == Range(start, r.state.nextCommit)
  }

  lemma StrictStep(start: nat, r: Run, op: Op)
    requires InOrder(start, r) && Inv(start, r) && Admissible(r.state, op) && !op.TryCommitReady?
    ensures InOrder(start, After(r, op)) && Inv(start, After(r, op))
  {
    StepKeeps(start, r, op);
    if op.Resume? && op.newDepth > 0 && op.newWorkers > 0 { ResumeKeeps(start, r, op); }
  }

  /** Under `try_commit` alone the committed sequence is start, start + 1, ..., whatever was dispatched and
      completed in whatever order, at whatever depth and width, across resumes. */
  lemma {:induction false} StrictOrder(start: nat, r: Run, ops: seq<Op>)
    requires InOrder(start, r) && Inv(start, r) && AllAdmissible(r, ops)
    requires forall op | op in ops :: !op.TryCommitReady?
    ensures InOrder(start, RunAll(r, ops))
    decreases |ops|
  {
    if ops != [] {
      StrictStep(start, r, ops[0]);
      StrictOrder(start, After(r, ops[0]), ops[1..]);
    }
  }

  /** So a new schedule under `try_commit` alone has committed exactly the positions from its start to its base, in
      order, at every moment of every run. */
  lemma CommitsInOrder(start: u64, end: u64, depth: nat, workers: nat, ops: seq<Op>)
    requires New(start, end, depth, workers).Ok? && forall op | op in ops :: !op.TryCommitReady?
    requires AllAdmissible(Run(New(start, end, depth, workers).value, []), ops)
    ensures var r := RunAll(Run(New(start, end, depth, workers).value, []), ops);
            && start <= r.state.nextCommit && |r.committed| == r.state.nextCommit - start
            && forall i | 0 <= i < |r.committed| :: r.committed[i] == start + i
  {
    StrictOrder(start, Run(New(start, end, depth, workers).value, []), ops);
  }

  // ----- progress -----

  /** In an incomplete schedule the next position to commit can always move: dispatch it, complete it or commit it. */
  lemma NextCanMove(start: nat, s: State)
    requires Shape(start, s) && !s.Complete()
    ensures s.nextCommit < s.end
    ensures s.nextCommit !in s.positions ==>
              s.DispatchAt(s.nextCommit).Some? && Step(s, MarkDispatched(s.DispatchAt(s.nextCommit).value)).error.None?
    ensures s.nextCommit in s.positions && s.positions[s.nextCommit].Dispatched? ==>
              Step(s, MarkCompleted(Dispatch(s.nextCommit, s.positions[s.nextCommit].worker))).error.None?
    ensures s.nextCommit in s.positions && s.positions[s.nextCommit].Ready? ==>
              Step(s, TryCommit).committed == Some(s.nextCommit)
  {
    if s.nextCommit == s.end { NothingLeft(start, s); }
  }

  lemma NothingLeft(start: nat, s: State)
    requires Shape(start, s) && s.nextCommit == s.end
    ensures s.Complete()
  {
    assert s.positions == map[] && s.delivered == {};
  }

  /** Positions that still await their dispatch. */
  function Awaiting(s: State): nat -> nat {
    (p: nat) => if p < s.nextCommit || p in s.delivered || p in s.positions then 0 else 1
  }

  /** The dispatch ordinal counts dispatched positions, so it never outgrows its 64-bit word. */
  ghost predicate OrdinalBounded(start: nat, s: State) {
    s.dispatchOrdinal + Sum(Awaiting(s), start, s.end) <= s.end - start
  }

  lemma OrdinalKept(start: nat, r: Run, op: Op)
    requires Inv(start, r) && Admissible(r.state, op) && OrdinalBounded(start, r.state)
    ensures OrdinalBounded(start, After(r, op).state)
    ensures op.MarkDispatched? && Step(r.state, op).error.None? ==> r.state.dispatchOrdinal + 1 < TWO_64
  {
    match op {
      case MarkDispatched(d) => OrdinalDispatched(start, r, d);
      case MarkCompleted(d) => OrdinalCompleted(start, r, d);
      case TryCommit => AwaitingAfterCommit(start, r, r.state.nextCommit);
      case TryCommitReady(p) => AwaitingAfterCommit(start, r, p);
      case SetDepth(depth) => OrdinalDeepened(start, r, depth);
      case SetWorkerCount(workers) => OrdinalRerouted(start, r, op);
      case Resume(_, _, _) => OrdinalResumed(start, r, op);
    }
  }

  /** A dispatch counts one more and awaits one less. */
  lemma OrdinalDispatched(start: nat, r: Run, d: Dispatch)
    requires Inv(start, r) && OrdinalBounded(start, r.state)
    ensures OrdinalBounded(start, After(r, MarkDispatched(d)).state)
    ensures Step(r.state, MarkDispatched(d)).error.None? ==> r.state.dispatchOrdinal + 1 < TWO_64
  {
    SumChange(Awaiting(r.state), Awaiting(After(r, MarkDispatched(d)).state), start, r.state.end, d.position);
  }

  lemma OrdinalCompleted(start: nat, r: Run, d: Dispatch)
    requires Inv(start, r) && OrdinalBounded(start, r.state)
    ensures OrdinalBounded(start, After(r, MarkCompleted(d)).state)
  {
    SumChange(Awaiting(r.state), Awaiting(After(r, MarkCompleted(d)).state), start, r.state.end, r.state.end);
  }

  lemma OrdinalDeepened(start: nat, r: Run, depth: nat)
    requires Inv(start, r) && OrdinalBounded(start, r.state)
    ensures OrdinalBounded(start, After(r, SetDepth(depth)).state)
  {
    SumChange(Awaiting(r.state), Awaiting(After(r, SetDepth(depth)).state), start, r.state.end, r.state.end);
  }

  /** A width change only reduces the ordinal. */
  lemma OrdinalRerouted(start: nat, r: Run, op: Op)
    requires Inv(start, r) && OrdinalBounded(start, r.state) && op.SetWorkerCount?
    ensures OrdinalBounded(start, After(r, op).state)
  {
    SumChange(Awaiting(r.state), Awaiting(After(r, op).state), start, r.state.end, r.state.end);
    if 0 < op.workers { var q, m := DivMod(r.state.dispatchOrdinal, op.workers); }
  }

  lemma OrdinalResumed(start: nat, r: Run, op: Op)
    requires Inv(start, r) && Admissible(r.state, op) && OrdinalBounded(start, r.state) && op.Resume?
    ensures OrdinalBounded(start, After(r, op).state)
  {
    if op.newDepth > 0 && op.newWorkers > 0 {
      ResumeKeeps(start, r, op);
      SumAtMostOne(Awaiting(After(r, op).state), start, r.state.end);
    }
  }

  lemma RangeHistory(lo: nat, hi: nat)
    requires lo <= hi
    ensures Distinct(Range(lo, hi)) && forall p: nat :: p in Range(lo, hi) <==> lo <= p < hi
  {
    forall p: nat | lo <= p < hi ensures p in Range(lo, hi) {
      assert Range(lo, hi)[p - lo] == p;
    }
  }

  lemma SeedKeeps(start: nat, r: Run, p: nat)
    requires Inv(start, r) && OrdinalBounded(start, r.state) && SeedDelivered(r.state, p).Ok?
    ensures var s' := SeedDelivered(r.state, p).value;
            Inv(start, Run(s', r.committed + [p])) && OrdinalBounded(start, s')
  {
    var s' := SeedDelivered(r.state, p).value;
    DistinctSnoc(r.committed, p);
    SumChange(Awaiting(r.state), Awaiting(s'), start, r.state.end, p);
  }

  lemma AwaitingAfterCommit(start: nat, r: Run, p: nat)
    requires Inv(start, r)
    ensures Sum(Awaiting(CommitReady(r.state, p).0), start, r.state.end) == Sum(Awaiting(r.state), start, r.state.end)
  {
    var s, s' := r.state, CommitReady(r.state, p).0;
    AdvanceSkips(p + 1, s.delivered);
    SumChange(Awaiting(s), Awaiting(s'), start, s.end, s.end);
  }

  lemma {:induction false} SumAtMostOne(f: nat -> nat, lo: nat, hi: nat)
    requires lo <= hi && forall p: nat | lo <= p < hi :: f(p) <= 1
    ensures Sum(f, lo, hi) <= hi - lo
    decreases hi - lo
  {
    if lo < hi { SumAtMostOne(f, lo, hi - 1); }
  }

  /** Steps still owed by a position: three before dispatch, two in flight, one when ready, none once committed. */
  function Owed(s: State): nat -> nat {
    (p: nat) =>
      if p < s.nextCommit || p in s.delivered then 0
      else if p !in s.positions then 3
      else if s.positions[p].Dispatched? then 2 else 1
  }

  function Sum(f: nat -> nat, lo: nat, hi: nat): nat
    decreases hi - lo
  {
    if lo >= hi then 0 else Sum(f, lo, hi - 1) + f(hi - 1)
  }

  lemma {:induction false} SumChange(f: nat -> nat, g: nat -> nat, lo: nat, hi: nat, q: nat)
    requires forall p: nat | lo <= p < hi && p != q :: f(p) == g(p)
    ensures Sum(g, lo, hi) + (if lo <= q < hi then f(q) else 0) == Sum(f, lo, hi) + (if lo <= q < hi then g(q) else 0)
    decreases hi - lo
  {
    if lo < hi { SumChange(f, g, lo, hi - 1, q); }
  }

  lemma {:induction false} SumConstant(f: nat -> nat, lo: nat, hi: nat, c: nat)
    requires lo <= hi && forall p: nat | lo <= p < hi :: f(p) == c
    ensures Sum(f, lo, hi) == c * (hi - lo)
    decreases hi - lo
  {
    if lo < hi {
      SumConstant(f, lo, hi - 1, c);
      MulAdd(hi - 1 - lo, 1, c);
    }
  }

  function TotalOwed(start: nat, s: State): nat {
    Sum(Owed(s), start, s.end)
  }

  /** A dispatch, a completion or a commit that succeeded. */
  predicate Progressed(s: State, op: Op)
    requires s.workerCount > 0
  {
    match op
    case MarkDispatched(_) => Step(s, op).error.None?
    case MarkCompleted(_) => Step(s, op).error.None?
    case TryCommit => Step(s, op).committed.Some?
    case TryCommitReady(_) => Step(s, op).committed.Some?
    case _ => false
  }

  lemma OwedAfterCommit(start: nat, r: Run, p: nat)
    requires Inv(start, r) && p in r.state.positions && r.state.positions[p].Ready?
    ensures TotalOwed(start, r.state) == TotalOwed(start, CommitReady(r.state, p).0) + 1
  {
    var s := r.state;
    var s' := CommitReady(s, p).0;
    if p == s.nextCommit { AdvanceSkips(p + 1, s.delivered); }
    SumChange(Owed(s), Owed(s'), start, s.end, p);
  }

  /** Every successful dispatch, completion or commit lowers the total owed by exactly one; nothing else but a
      resume changes it. */
  lemma OwedStep(start: nat, r: Run, op: Op)
    requires Inv(start, r) && !op.Resume?
    ensures TotalOwed(start, r.state) == TotalOwed(start, After(r, op).state) + if Progressed(r.state, op) then 1 else 0
  {
    var s, s' := r.state, After(r, op).state;
    match op {
      case MarkDispatched(d) => SumChange(Owed(s), Owed(s'), start, s.end, d.position);
      case MarkCompleted(d) => SumChange(Owed(s), Owed(s'), start, s.end, d.position);
      case TryCommit => if Progressed(s, op) { OwedAfterCommit(start, r, s.nextCommit); }
      case TryCommitReady(p) => if Progressed(s, op) { OwedAfterCommit(start, r, p); }
      case SetDepth(_) => SumChange(Owed(s), Owed(s'), start, s.end, s.end);
      case SetWorkerCount(_) => SumChange(Owed(s), Owed(s'), start, s.end, s.end);
      case Resume(_, _, _) =>
    }
  }

  /** How many requests of a run made progress. */
  function ProgressCount(r: Run, ops: seq<Op>): nat
    requires r.state.workerCount > 0
    decreases |ops|
  {
    if ops == [] then 0
    else (if Progressed(r.state, ops[0]) then 1 else 0) + ProgressCount(After(r, ops[0]), ops[1..])
  }

  lemma {:induction false} OwedRun(start: nat, r: Run, ops: seq<Op>)
    requires Inv(start, r) && forall op | op in ops :: !op.Resume?
    ensures TotalOwed(start, r.state) == TotalOwed(start, RunAll(r, ops).state) + ProgressCount(r, ops)
    ensures Inv(start, RunAll(r, ops))
    decreases |ops|
  {
    if ops != [] {
      OwedStep(start, r, ops[0]);
      StepKeeps(start, r, ops[0]);
      OwedRun(start, After(r, ops[0]), ops[1..]);
    }
  }

  /** Without resumes at most three steps per position make progress, and exactly three when the run completes. */
  lemma ThreeStepsEach(start: u64, end: u64, depth: nat, workers: nat, ops: seq<Op>)
    requires New(start, end, depth, workers).Ok? && forall op | op in ops :: !op.Resume?
    ensures var r := Run(New(start, end, depth, workers).value, []);
            && ProgressCount(r, ops) <= 3 * (end - start)
            && (RunAll(r, ops).state.Complete() ==> ProgressCount(r, ops) == 3 * (end - start))
  {
    var r := Run(New(start, end, depth, workers).value, []);
    OwedRun(start, r, ops);
    SumConstant(Owed(r.state), start, end, 3);
    var final := RunAll(r, ops).state;
    if final.Complete() {
      RunEnd(r, ops);
      SumConstant(Owed(final), start, end, 0);
    }
  }

  lemma {:induction false} RunEnd(r: Run, ops: seq<Op>)
    requires r.state.workerCount > 0 && forall op | op in ops :: !op.Resume?
    ensures RunAll(r, ops).state.end == r.state.end
    decreases |ops|
  {
    if ops != [] { RunEnd(After(r, ops[0]), ops[1..]); }
  }
}
