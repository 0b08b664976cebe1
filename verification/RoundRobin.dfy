/** Where the frontier schedule routes its dispatches: round robin over the workers in use. */
module RoundRobin {
  import opened Words
  import opened Outcomes
  import opened Schedule

  /** The worker the next dispatch goes to, whatever its position. */
  function NextWorker(s: State): (worker: nat)
    requires s.workerCount > 0
  {
    s.dispatchOrdinal % s.workerCount
  }

  /** The worker after another, the first one after the last. */
  function Following(worker: nat, workers: nat): nat {
    if worker + 1 >= workers then 0 else worker + 1
  }

  lemma ModNext(o: nat, n: nat)
    requires n > 0
    ensures (o + 1) % n == Following(o % n, n)
  {
    var q, r := DivMod(o, n);
    if r + 1 == n {
      MulAdd(q, 1, n);
      DivModUnique(o + 1, n, q + 1, 0);
    } else {
      DivModUnique(o + 1, n, q, r + 1);
    }
  }

  lemma ModSmall(o: nat, n: nat)
    requires n > 0
    ensures o % n < n && (o < n ==> o % n == o)
  {
    var q, r := DivMod(o, n);
    if o < n { DivModUnique(o, n, 0, o); }
  }

  // ----- routes -----

  /** Every eligible position is offered the same worker, which is in use; no other position is offered any. */
  lemma Offered(s: State, p: nat)
    requires s.workerCount > 0
    ensures s.DispatchAt(p) == if s.Eligible(p) then Some(Dispatch(p, NextWorker(s))) else None
    ensures NextWorker(s) < s.workerCount
  {
    ModSmall(s.dispatchOrdinal, s.workerCount);
  }

  /** An accepted dispatch went to the worker whose turn it was, and the turn passes to the one after it. */
  lemma TurnPasses(s: State, d: Dispatch)
    requires s.workerCount > 0 && Step(s, MarkDispatched(d)).error.None?
    ensures d.worker == NextWorker(s)
    ensures NextWorker(Step(s, MarkDispatched(d)).state) == Following(d.worker, s.workerCount)
    ensures Step(s, MarkDispatched(d)).state.workerCount == s.workerCount
  {
    ModNext(s.dispatchOrdinal, s.workerCount);
  }

  /** A refused dispatch, a completion, a commit or another depth passes no turn. */
  lemma TurnStays(s: State, op: Op)
    requires s.workerCount > 0 && !op.SetWorkerCount? && !op.Resume?
    requires op.MarkDispatched? ==> Step(s, op).error.Some?
    ensures NextWorker(Step(s, op).state) == NextWorker(s) && Step(s, op).state.workerCount == s.workerCount
  {
  }

  /** A new schedule begins at worker 0, and so does one rebuilt from a checkpoint. */
  lemma BeginsAtZero(start: u64, end: u64, depth: nat, workers: nat)
    requires New(start, end, depth, workers).Ok?
    ensures var s := New(start, end, depth, workers).value; s.workerCount == workers > 0 && NextWorker(s) == 0
  {
    ModSmall(0, workers);
  }

  lemma {:induction false} SeedingKeepsTurn(s: State, order: seq<nat>)
    requires SeedAll(s, order).Ok?
    ensures SeedAll(s, order).value.dispatchOrdinal == s.dispatchOrdinal
    decreases |order|
  {
    if order != [] { SeedingKeepsTurn(SeedDelivered(s, order[0]).value, order[1..]); }
  }

  lemma ResumesAtZero(s: State, depth: nat, workers: nat, order: seq<nat>)
    requires Rebuild(s, depth, workers, order).Ok?
    ensures var r := Rebuild(s, depth, workers, order).value; r.workerCount == workers > 0 && NextWorker(r) == 0
  {
    SeedingKeepsTurn(New(s.nextCommit, s.end, depth, workers).value, order);
    ModSmall(0, workers);
  }

  /** A width within the ceiling is taken, and the turn goes on from the dispatch ordinal modulo the new width. */
  lemma WidthTurn(s: State, workers: nat)
    requires s.workerCount > 0
    ensures Step(s, SetWorkerCount(workers)).error.None? <==> 0 < workers <= s.workerCeiling
    ensures 0 < workers <= s.workerCeiling ==>
              var t := Step(s, SetWorkerCount(workers)).state;
              && t.workerCount == workers && NextWorker(t) == s.dispatchOrdinal % workers
              && (s.dispatchOrdinal < workers ==> NextWorker(t) == s.dispatchOrdinal)
  {
    if 0 < workers {
      ModSmall(s.dispatchOrdinal, workers);
      ModSmall(s.dispatchOrdinal % workers, workers);
    }
  }

  // ----- whole runs -----

  ghost predicate Accepts(s: State, op: Op)
    requires s.workerCount > 0
  {
    op.MarkDispatched? && Step(s, op).error.None?
  }

  /** How many dispatches of a run were accepted. */
  ghost function DispatchCount(r: Run, ops: seq<Op>): nat
    requires r.state.workerCount > 0
    decreases |ops|
  {
    if ops == [] then 0
    else (if Accepts(r.state, ops[0]) then 1 else 0) + DispatchCount(After(r, ops[0]), ops[1..])
  }

  /** How many of them went to a worker. */
  ghost function SentTo(r: Run, ops: seq<Op>, worker: nat): nat
    requires r.state.workerCount > 0
    decreases |ops|
  {
    if ops == [] then 0
    else (if Accepts(r.state, ops[0]) && ops[0].dispatch.worker == worker then 1 else 0)
         + SentTo(After(r, ops[0]), ops[1..], worker)
  }

  /** How often a worker's turn comes in `k` turns, the first of them worker `from`'s. */
  function Turns(n: nat, from: nat, k: nat, worker: nat): nat
    decreases k
  {
    if k == 0 then 0 else (if from == worker then 1 else 0) + Turns(n, Following(from, n), k - 1, worker)
  }

  /** Turns until a worker's first. */
  function Distance(n: nat, from: nat, worker: nat): nat {
    if from <= worker then worker - from else if worker + n >= from then worker + n - from else 0
  }

  /** In one round at most, a worker has its turn once, when it is reached. */
  lemma {:induction false} OneRound(n: nat, from: nat, k: nat, worker: nat)
    requires from < n && worker < n && k <= n
    ensures Turns(n, from, k, worker) == if Distance(n, from, worker) < k then 1 else 0
    decreases k
  {
    if k > 0 {
      OneRound(n, Following(from, n), k - 1, worker);
    }
  }

  lemma {:induction false} TurnsSplit(n: nat, from: nat, j: nat, k: nat, worker: nat)
    requires from < n
    ensures TurnAfter(n, from, j) < n
    ensures Turns(n, from, j + k, worker) == Turns(n, from, j, worker) + Turns(n, TurnAfter(n, from, j), k, worker)
    decreases j
  {
    if j > 0 { TurnsSplit(n, Following(from, n), j - 1, k, worker); }
  }

  /** Whose turn it is after `j` turns. */
  function TurnAfter(n: nat, from: nat, j: nat): nat
    decreases j
  {
    if j == 0 then from else TurnAfter(n, Following(from, n), j - 1)
  }

  lemma {:induction false} AfterIs(n: nat, from: nat, j: nat)
    requires from < n && j <= n
    ensures TurnAfter(n, from, j) == if from + j < n then from + j else from + j - n
    decreases j
  {
    if j > 0 { AfterIs(n, Following(from, n), j - 1); }
  }

  /** Any two workers have had equally many turns, but for one. */
  lemma {:induction false} TurnsBalanced(n: nat, from: nat, k: nat, u: nat, w: nat)
    requires from < n && u < n && w < n
    ensures Turns(n, from, k, u) <= Turns(n, from, k, w) + 1
    decreases k
  {
    if k < n {
      OneRound(n, from, k, u);
      OneRound(n, from, k, w);
    } else {
      TurnsSplit(n, from, n, k - n, u);
      TurnsSplit(n, from, n, k - n, w);
      OneRound(n, from, n, u);
      OneRound(n, from, n, w);
      AfterIs(n, from, n);
      TurnsBalanced(n, from, k - n, u, w);
    }
  }

  /** A run's dispatches are the workers' turns, one after another. */
  lemma {:induction false} DispatchesAreTurns(r: Run, ops: seq<Op>, worker: nat)
    requires r.state.workerCount > 0 && forall op | op in ops :: !op.SetWorkerCount? && !op.Resume?
    ensures SentTo(r, ops, worker) == Turns(r.state.workerCount, NextWorker(r.state), DispatchCount(r, ops), worker)
    decreases |ops|
  {
    if ops != [] {
      DispatchesAreTurns(After(r, ops[0]), ops[1..], worker);
      if Accepts(r.state, ops[0]) {
        TurnPasses(r.state, ops[0].dispatch);
      } else {
        TurnStays(r.state, ops[0]);
      }
    }
  }

  /** Round robin over a whole run: while the width stays and nothing is resumed, whatever is dispatched, completed and
      committed in whatever order, any two workers are sent equally many positions, but for one. */
  lemma Balanced(r: Run, ops: seq<Op>, u: nat, w: nat)
    requires r.state.workerCount > 0 && u < r.state.workerCount && w < r.state.workerCount
    requires forall op | op in ops :: !op.SetWorkerCount? && !op.Resume?
    ensures SentTo(r, ops, u) <= SentTo(r, ops, w) + 1
  {
    DispatchesAreTurns(r, ops, u);
    DispatchesAreTurns(r, ops, w);
    ModSmall(r.state.dispatchOrdinal, r.state.workerCount);
    TurnsBalanced(r.state.workerCount, NextWorker(r.state), DispatchCount(r, ops), u, w);
  }
}
