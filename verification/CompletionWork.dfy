/** Every read returns: without new reads, each step of any schedule lowers a count of the work left. */
module CompletionWork {
  import opened Outcomes
  import opened CompletionPort
  import opened CompletionPump

  function PhaseWork(p: Phase): nat {
    match p
    case Idle => 0
    case Keyed => 30
    case Registered => 20
    case Cancelling(_) => 1
    case Polling => 5
    case Locking => 4
    case Holding => 3
    case Blocked => 2
    case Dispatching(_) => 1
    case Sending(_, _) => 0
  }

  function StageWork(g: Stage): nat {
    match g
    case InFlight => 9
    case InPort => 8
    case Taken => 7
    case Removed => 6
    case _ => 0
  }

  function ThreadWork(threads: seq<Thread>): nat {
    if threads == [] then 0 else ThreadWork(threads[..|threads| - 1]) + PhaseWork(threads[|threads| - 1].phase)
  }

  function RequestWork(history: map<nat, Read>, below: nat): nat {
    if below == 0 then 0
    else RequestWork(history, below - 1) + if below - 1 in history then StageWork(history[below - 1].stage) else 0
  }

  /** Steps still to come at most, unless another read begins: what each thread has to do before it returns, and
      what each request has to go through before its answer is delivered. */
  function Work(s: State): nat {
    ThreadWork(s.threads) + RequestWork(s.history, s.nextKey)
  }

  lemma {:induction false} ThreadWorkUpdate(threads: seq<Thread>, t: nat, th: Thread)
    requires t < |threads|
    ensures ThreadWork(threads[t := th]) == ThreadWork(threads) - PhaseWork(threads[t].phase) + PhaseWork(th.phase)
  {
    var n := |threads| - 1;
    if t == n {
      assert threads[t := th][..n] == threads[..n];
    } else {
      assert threads[t := th][..n] == threads[..n][t := th];
      ThreadWorkUpdate(threads[..n], t, th);
    }
  }

  lemma {:induction false} RequestWorkUpdate(history: map<nat, Read>, below: nat, k: nat, r: Read)
    requires k in history
    ensures RequestWork(history[k := r], below)
         == RequestWork(history, below) + if k < below then StageWork(r.stage) - StageWork(history[k].stage) else 0
  {
    if below > 0 { RequestWorkUpdate(history, below - 1, k, r); }
  }

  lemma MovedWork(s: State, s': State, t: nat, th: Thread, k: nat, r: Read)
    requires t < |s.threads| && s'.threads == s.threads[t := th] && s'.nextKey == s.nextKey
    requires k in s.history && k < s.nextKey && s'.history == s.history[k := r]
    ensures Work(s') == Work(s) - PhaseWork(s.threads[t].phase) + PhaseWork(th.phase)
                      - StageWork(s.history[k].stage) + StageWork(r.stage)
  {
    ThreadWorkUpdate(s.threads, t, th);
    RequestWorkUpdate(s.history, s.nextKey, k, r);
  }

  lemma OwnWork(s: State, t: nat, s': State)
    requires Inv(s) && t < |s.threads| && !s.threads[t].phase.Idle? && s.threads[t].key in s'.history
    requires |s'.threads| == |s.threads| && s'.threads == s.threads[t := s'.threads[t]] && s'.nextKey == s.nextKey
    requires s'.history == s.history[s.threads[t].key := s'.history[s.threads[t].key]]
    ensures s.threads[t].key in s.history
    ensures Work(s') == Work(s) - PhaseWork(s.threads[t].phase) + PhaseWork(s'.threads[t].phase)
                      - StageWork(s.history[s.threads[t].key].stage) + StageWork(s'.history[s.threads[t].key].stage)
  {
    Known(s, t);
    MovedWork(s, s', t, s'.threads[t], s.threads[t].key, s'.history[s.threads[t].key]);
  }

  lemma ReturnWork(s: State, t: nat, result: ReadResult)
    requires Inv(s) && t < |s.threads| && PhaseWork(s.threads[t].phase) > 0
    ensures Work(Return(s, t, result)) < Work(s)
  {
    Known(s, t);
    OwnWork(s, t, Return(s, t, result));
  }

  lemma UnassociatedWork(s: State, t: nat, result: ReadResult)
    requires Inv(s) && In(s, t, Keyed)
    ensures Work(Unassociated(s, t, result)) < Work(s)
  {
    Known(s, t);
    OwnWork(s, t, Unassociated(s, t, result));
  }

  lemma PostWork(s: State, key: nat, status: Status)
    requires Inv(s) && key in s.inflight
    ensures Work(Posting(s, key, status)) < Work(s)
  {
    Placed(s, key);
    var now := Posting(s, key, status).history[key];
    assert Posting(s, key, status).history == s.history[key := now];
    RequestWorkUpdate(s.history, s.nextKey, key, now);
  }

  lemma ReceiveWork(s: State, t: nat, key: nat)
    requires Inv(s) && In(s, t, Blocked) && key in s.port
    ensures Work(Receiving(s, t, key)) < Work(s)
  {
    Placed(s, key);
    var s' := Receiving(s, t, key);
    MovedWork(s, s', t, s'.threads[t], key, s'.history[key]);
  }

  lemma RemoveWork(s: State, t: nat)
    requires Inv(s) && Enabled(s, Remove(t))
    ensures Work(Removing(s, t)) < Work(s)
  {
    Known(s, t);
    var s', key := Removing(s, t), s.threads[t].phase.packet.key;
    MovedWork(s, s', t, s'.threads[t], key, s'.history[key]);
  }

  /** The pump goes back to polling, but one more answer has been delivered. */
  lemma SendWork(s: State, t: nat)
    requires Inv(s) && Enabled(s, Send(t))
    ensures Work(SendingResult(s, t)) < Work(s)
  {
    Known(s, t);
    var s', key := SendingResult(s, t), s.threads[t].phase.packet.key;
    Placed(s, key);
    MovedWork(s, s', t, s'.threads[t], key, s'.history[key]);
  }

  lemma RegisterWork(s: State, t: nat)
    requires Inv(s) && In(s, t, Keyed)
    ensures Work(Registering(s, t)) < Work(s)
  {
    Known(s, t);
    OwnWork(s, t, Registering(s, t));
  }

  lemma SubmitWork(s: State, t: nat)
    requires Inv(s) && In(s, t, Registered)
    ensures Work(Submitting(s, t)) < Work(s)
  {
    Known(s, t);
    OwnWork(s, t, Submitting(s, t));
  }

  lemma RefuseWork(s: State, t: nat, r: ReadResult)
    requires Inv(s) && In(s, t, Registered)
    ensures Work(Refusing(s, t, r)) < Work(s)
  {
    Known(s, t);
    OwnWork(s, t, Refusing(s, t, r));
  }

  lemma CancelWork(s: State, t: nat)
    requires Inv(s) && Enabled(s, Cancel(t))
    ensures Work(Unregistering(s, t)) < Work(s)
  {
    Known(s, t);
    OwnWork(s, t, Unregistering(s, t));
  }

  lemma PhaseOnlyWork(s: State, t: nat, s': State)
    requires t < |s.threads| && |s'.threads| == |s.threads| && s'.threads == s.threads[t := s'.threads[t]]
    requires s'.history == s.history && s'.nextKey == s.nextKey
    requires PhaseWork(s'.threads[t].phase) < PhaseWork(s.threads[t].phase)
    ensures Work(s') < Work(s)
  {
    ThreadWorkUpdate(s.threads, t, s'.threads[t]);
  }

  lemma TryReceiveWork(s: State, t: nat, next: Phase)
    requires Inv(s) && t < |s.threads| && PhaseWork(next) < PhaseWork(s.threads[t].phase) && Waiting(s.threads[t].phase)
    ensures Work(TryReceive(s, t, next)) < Work(s)
  {
    if ChannelOf(s, t) in s.mail {
      ReturnWork(s, t, s.mail[ChannelOf(s, t)]);
    } else {
      StillConnected(s, t);
      PhaseOnlyWork(s, t, At(s, t, next));
    }
  }

  lemma StepWork(s: State, x: Step)
    requires Inv(s) && Enabled(s, x) && !x.Begin?
    ensures Work(Next(s, x)) < Work(s)
  {
    match x {
      case AssociateFails(t, code) => UnassociatedWork(s, t, OsError(code));
      case Register(t) => RegisterWork(s, t);
      case Submit(t) => SubmitWork(s, t);
      case RefuseSubmit(t, result) => RefuseWork(s, t, result);
      case Cancel(t) => CancelWork(s, t);
      case Post(key, status) => PostWork(s, key, status);
      case Poll(t) => TryReceiveWork(s, t, Locking);
      case Lock(t) => PhaseOnlyWork(s, t, Locked(s, t));
      case Check(t) => TryReceiveWork(s, t, Blocked);
      case Receive(t, key) => ReceiveWork(s, t, key);
      case Remove(t) => RemoveWork(s, t);
      case Send(t) => SendWork(s, t);
    }
  }

  /** How many of the requested steps were enabled when their turn came. */
  ghost function Turns(s: State, steps: seq<Step>): nat
    decreases |steps|
  {
    if steps == [] then 0
    else if Enabled(s, steps[0]) then 1 + Turns(Next(s, steps[0]), steps[1..])
    else Turns(s, steps[1..])
  }

  /** Once no read begins, any schedule takes at most the work left. */
  lemma {:induction false} ScheduleEnds(s: State, steps: seq<Step>)
    requires Inv(s) && forall i | 0 <= i < |steps| :: !steps[i].Begin?
    ensures Turns(s, steps) + Work(Run(s, steps)) <= Work(s)
    decreases |steps|
  {
    if steps != [] {
      var rest := steps[1..];
      if Enabled(s, steps[0]) {
        StepKeeps(s, steps[0]);
        StepWork(s, steps[0]);
        ScheduleEnds(Next(s, steps[0]), rest);
      } else {
        ScheduleEnds(s, rest);
      }
    }
  }

  /** From any reachable state, a schedule without new reads that can go no further leaves every thread returned:
      together with `ScheduleEnds`, every read returns whatever the order of threads and completions. */
  lemma EveryReadReturns(n: nat, before: seq<Step>, steps: seq<Step>)
    requires forall i | 0 <= i < |steps| :: !steps[i].Begin?
    requires forall x: Step | !x.Begin? :: !Enabled(Run(Run(Initial(n), before), steps), x)
    ensures var s := Run(Run(Initial(n), before), steps);
            && (forall t: nat | t < |s.threads| :: s.threads[t].phase.Idle?)
            && (forall k | k in s.history :: s.history[k].stage.Done?)
  {
    InitialOk(n);
    RunKeeps(Initial(n), before);
    RunKeeps(Run(Initial(n), before), steps);
    var s := Run(Run(Initial(n), before), steps);
    forall t: nat | t < |s.threads|
      ensures s.threads[t].phase.Idle?
    {
      if !s.threads[t].phase.Idle? { var x := CanMove(s, t); }
    }
    forall k | k in s.history
      ensures s.history[k].stage.Done?
    {
      Placed(s, k);
    }
  }
}
