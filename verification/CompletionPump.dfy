/** What every interleaving of the completion port keeps: each read gets one result, its own packet's; no
    registration is replaced; and the pump never waits on an empty port. */
module CompletionPump {
  import opened Outcomes
  import opened CompletionPort

  predicate Submitted(g: Stage) {
    g.InFlight? || g.InPort? || g.Taken? || g.Removed? || g.Delivered?
  }

  /** Which stages a thread's own request can be in, by where the thread is. */
  predicate Fitting(p: Phase, g: Stage) {
    match p
    case Idle => false
    case Keyed => g.New?
    case Registered => g.Listed?
    case Cancelling(_) => g.Refused?
    case Polling => Submitted(g)
    case Locking => Submitted(g)
    case Holding => g.InFlight? || g.InPort? || g.Delivered?
    case Blocked => g.InFlight? || g.InPort?
    case Dispatching(_) => g.InFlight? || g.InPort? || g.Taken?
    case Sending(_, _) => g.InFlight? || g.InPort? || g.Removed?
  }

  predicate Carried(p: Phase) {
    p.Dispatching? || p.Sending?
  }

  /** Stages in which the request's waiter is in the map. */
  predicate Awaited(g: Stage) {
    g.Listed? || g.Refused? || g.InFlight? || g.InPort? || g.Taken?
  }

  /** What a read can fail with before it is submitted: an error, or an end of file. */
  predicate Unsubmitted(result: ReadResult) {
    result == Transferred(0) || result.OsError?
  }

  /** A read's fate by its stage: once returned it gave its own packet's result, or what it failed with. */
  predicate FateOk(r: Read) {
    match r.stage
    case New => r.fate.Open?
    case Listed => r.fate.Open?
    case Refused => r.fate.Failing? && Unsubmitted(r.fate.result)
    case InFlight => r.fate.Accepted?
    case Done(result) =>
      if r.fate.Failing? then result == r.fate.result && Unsubmitted(result)
      else r.fate.Posted? && result == ResultOf(r.fate.status)
    case _ => r.fate.Posted?
  }

  ghost predicate ThreadOk(s: State, t: nat)
    requires t < |s.threads|
  {
    var th := s.threads[t];
    && (s.holder == Some(t) <==> Pumping(th.phase))
    && (!th.phase.Idle? ==>
          && th.key in s.history
          && var r := s.history[th.key];
             r.thread == t && r.overlapped == th.overlapped && r.serial == th.serial && Fitting(th.phase, r.stage))
    && (th.phase.Cancelling? ==> s.history[th.key].fate == Failing(th.phase.result))
    && (Carried(th.phase) ==>
          && th.phase.packet.key in s.history
          && var r := s.history[th.phase.packet.key];
             && r.stage == (if th.phase.Dispatching? then Taken else Removed)
             && r.overlapped == th.phase.packet.overlapped && r.fate == Posted(th.phase.packet.status)
             && (th.phase.Sending? ==> th.phase.waiter == Waiter(r.overlapped, Channel(r.thread, r.serial))))
  }

  ghost predicate ReadOk(s: State, k: nat)
    requires k in s.history
  {
    var r := s.history[k];
    && 0 < k < s.nextKey && r.thread < |s.threads| && r.serial <= s.threads[r.thread].serial
    && (!r.stage.Done? ==> s.threads[r.thread].key == k && !s.threads[r.thread].phase.Idle?)
    && (r.stage.Done? && s.threads[r.thread].serial == r.serial ==> s.threads[r.thread].phase.Idle?)
    && FateOk(r)
    && (k in s.waiters <==> Awaited(r.stage))
    && (k in s.waiters ==> s.waiters[k] == Waiter(r.overlapped, Channel(r.thread, r.serial)))
    && (k in s.inflight <==> r.stage.InFlight?) && (k in s.inflight ==> s.inflight[k] == r.overlapped)
    && (k in s.port <==> r.stage.InPort?)
    && (k in s.port ==> r.fate.Posted? && s.port[k] == Packet(k, r.overlapped, r.fate.status))
    && (r.stage.Taken? || r.stage.Removed? ==>
          && s.holder.Some? && s.holder.value < |s.threads|
          && var p := s.threads[s.holder.value].phase;
             (if r.stage.Taken? then p.Dispatching? else p.Sending?) && p.packet.key == k)
    && (Channel(r.thread, r.serial) in s.mail <==> r.stage.Delivered?)
    && (r.stage.Delivered? ==> s.mail[Channel(r.thread, r.serial)] == ResultOf(r.fate.status))
  }

  ghost predicate ThreadsOk(s: State) {
    forall t: nat {:trigger ThreadOk(s, t)} | t < |s.threads| :: ThreadOk(s, t)
  }

  ghost predicate ReadsOk(s: State) {
    forall k: nat {:trigger ReadOk(s, k)} | k in s.history :: ReadOk(s, k)
  }

  ghost predicate Inv(s: State) {
    && s.faults == [] && s.nextKey > 0 && (s.holder.Some? ==> s.holder.value < |s.threads|)
    && ThreadsOk(s) && ReadsOk(s)
    && (forall k | k in s.waiters :: k in s.history)
    && (forall k | k in s.inflight :: k in s.history)
    && (forall k | k in s.port :: k in s.history)
    && (forall c | c in s.mail :: Listening(s, c))
  }

  /** What the invariant says of a thread, its own request and the packet it carries. */
  lemma Known(s: State, t: nat)
    requires Inv(s) && t < |s.threads|
    ensures ThreadOk(s, t)
    ensures !s.threads[t].phase.Idle? ==> s.threads[t].key in s.history && ReadOk(s, s.threads[t].key)
    ensures Carried(s.threads[t].phase) ==>
              s.threads[t].phase.packet.key in s.history && ReadOk(s, s.threads[t].phase.packet.key)
  {
    assert ThreadOk(s, t);
    if !s.threads[t].phase.Idle? { assert ReadOk(s, s.threads[t].key); }
    if Carried(s.threads[t].phase) { assert ReadOk(s, s.threads[t].phase.packet.key); }
  }

  /** What the invariant says of a request and its thread. */
  lemma Placed(s: State, k: nat)
    requires Inv(s) && k in s.history
    ensures ReadOk(s, k) && s.history[k].thread < |s.threads| && ThreadOk(s, s.history[k].thread)
  {
    assert ReadOk(s, k);
    assert ThreadOk(s, s.history[k].thread);
  }

  lemma InitialOk(n: nat)
    ensures Inv(Initial(n))
  {
    var s := Initial(n);
    forall t: nat | t < |s.threads|
      ensures ThreadOk(s, t)
    {
    }
  }

  /** A thread whose request was submitted and not answered still has a sender. */
  lemma StillConnected(s: State, t: nat)
    requires Inv(s) && t < |s.threads| && Waiting(s.threads[t].phase) && ChannelOf(s, t) !in s.mail
    ensures Connected(s, ChannelOf(s, t))
  {
    Known(s, t);
    var r := s.history[s.threads[t].key];
    if r.stage.Removed? {
      Known(s, s.holder.value);
      assert s.threads[s.holder.value].phase.Sending?;
    } else {
      assert s.threads[t].key in s.waiters;
    }
  }

  lemma BeginThreads(s: State, t: nat, overlapped: nat)
    requires Inv(s) && In(s, t, Idle)
    ensures ThreadsOk(Beginning(s, t, overlapped))
  {
    var s' := Beginning(s, t, overlapped);
    Known(s, t);
    forall u: nat | u < |s.threads|
      ensures ThreadOk(s', u)
    {
      Known(s, u);
    }
  }

  lemma BeginKeeps(s: State, t: nat, overlapped: nat)
    requires Inv(s) && In(s, t, Idle)
    ensures Inv(Beginning(s, t, overlapped))
  {
    var s' := Beginning(s, t, overlapped);
    Known(s, t);
    BeginThreads(s, t, overlapped);
    forall k: nat | k in s'.history
      ensures ReadOk(s', k)
    {
      if k in s.history { Placed(s, k); }
    }
  }

  lemma AssociateFailsReads(s: State, t: nat, code: int)
    requires Inv(s) && In(s, t, Keyed)
    ensures ReadsOk(Unassociated(s, t, OsError(code)))
  {
    var s' := Unassociated(s, t, OsError(code));
    Known(s, t);
    forall k: nat | k in s'.history
      ensures ReadOk(s', k)
    {
      Placed(s, k);
    }
  }

  lemma AssociateFailsThreads(s: State, t: nat, code: int)
    requires Inv(s) && In(s, t, Keyed)
    ensures ThreadsOk(Unassociated(s, t, OsError(code)))
  {
    var s' := Unassociated(s, t, OsError(code));
    Known(s, t);
    forall u: nat | u < |s.threads|
      ensures ThreadOk(s', u)
    {
      Known(s, u);
    }
  }

  lemma AssociateFailsKeeps(s: State, t: nat, code: int)
    requires Inv(s) && In(s, t, Keyed)
    ensures Inv(Unassociated(s, t, OsError(code)))
  {
    var s' := Unassociated(s, t, OsError(code));
    Known(s, t);
    AssociateFailsThreads(s, t, code);
    AssociateFailsReads(s, t, code);
  }

  lemma RegisterReads(s: State, t: nat)
    requires Inv(s) && In(s, t, Keyed)
    ensures ReadsOk(Registering(s, t))
  {
    var s' := Registering(s, t);
    Known(s, t);
    forall k: nat | k in s'.history
      ensures ReadOk(s', k)
    {
      Placed(s, k);
    }
  }

  lemma RegisterThreads(s: State, t: nat)
    requires Inv(s) && In(s, t, Keyed)
    ensures ThreadsOk(Registering(s, t))
  {
    var s' := Registering(s, t);
    Known(s, t);
    forall u: nat | u < |s.threads|
      ensures ThreadOk(s', u)
    {
      Known(s, u);
    }
  }

  lemma RegisterKeeps(s: State, t: nat)
    requires Inv(s) && In(s, t, Keyed)
    ensures Inv(Registering(s, t))
  {
    Known(s, t);
    RegisterThreads(s, t);
    RegisterReads(s, t);
  }

  lemma SubmitReads(s: State, t: nat)
    requires Inv(s) && In(s, t, Registered)
    ensures ReadsOk(Submitting(s, t))
  {
    var s' := Submitting(s, t);
    Known(s, t);
    forall k: nat | k in s'.history
      ensures ReadOk(s', k)
    {
      Placed(s, k);
    }
  }

  lemma SubmitThreads(s: State, t: nat)
    requires Inv(s) && In(s, t, Registered)
    ensures ThreadsOk(Submitting(s, t))
  {
    var s' := Submitting(s, t);
    Known(s, t);
    forall u: nat | u < |s.threads|
      ensures ThreadOk(s', u)
    {
      Known(s, u);
    }
  }

  lemma SubmitKeeps(s: State, t: nat)
    requires Inv(s) && In(s, t, Registered)
    ensures Inv(Submitting(s, t))
  {
    Known(s, t);
    SubmitThreads(s, t);
    SubmitReads(s, t);
  }

  lemma RefuseReads(s: State, t: nat, r: ReadResult)
    requires Inv(s) && In(s, t, Registered) && Unsubmitted(r)
    ensures ReadsOk(Refusing(s, t, r))
  {
    var s' := Refusing(s, t, r);
    Known(s, t);
    forall k: nat | k in s'.history
      ensures ReadOk(s', k)
    {
      Placed(s, k);
    }
  }

  lemma RefuseKeeps(s: State, t: nat, r: ReadResult)
    requires Inv(s) && In(s, t, Registered) && Unsubmitted(r)
    ensures Inv(Refusing(s, t, r))
  {
    var s' := Refusing(s, t, r);
    Known(s, t);
    forall u: nat | u < |s.threads|
      ensures ThreadOk(s', u)
    {
      Known(s, u);
    }
    RefuseReads(s, t, r);
  }

  lemma CancelReads(s: State, t: nat)
    requires Inv(s) && t < |s.threads| && s.threads[t].phase.Cancelling?
    ensures ReadsOk(Unregistering(s, t))
  {
    var s' := Unregistering(s, t);
    Known(s, t);
    forall k: nat | k in s'.history
      ensures ReadOk(s', k)
    {
      Placed(s, k);
    }
  }

  lemma CancelThreads(s: State, t: nat)
    requires Inv(s) && t < |s.threads| && s.threads[t].phase.Cancelling?
    ensures ThreadsOk(Unregistering(s, t))
  {
    var s' := Unregistering(s, t);
    Known(s, t);
    forall u: nat | u < |s.threads|
      ensures ThreadOk(s', u)
    {
      Known(s, u);
    }
  }

  lemma CancelKeeps(s: State, t: nat)
    requires Inv(s) && t < |s.threads| && s.threads[t].phase.Cancelling?
    ensures Inv(Unregistering(s, t))
  {
    var s' := Unregistering(s, t);
    Known(s, t);
    CancelThreads(s, t);
    CancelReads(s, t);
  }

  lemma PostThreads(s: State, key: nat, status: Status)
    requires Inv(s) && key in s.inflight
    ensures ThreadsOk(Posting(s, key, status))
  {
    var s' := Posting(s, key, status);
    Placed(s, key);
    forall u: nat | u < |s.threads|
      ensures ThreadOk(s', u)
    {
      Known(s, u);
    }
  }

  lemma PostKeeps(s: State, key: nat, status: Status)
    requires Inv(s) && key in s.inflight
    ensures Inv(Posting(s, key, status))
  {
    var s' := Posting(s, key, status);
    Placed(s, key);
    PostThreads(s, key, status);
    forall k: nat | k in s'.history
      ensures ReadOk(s', k)
    {
      if k in s.history { Placed(s, k); }
    }
  }

  lemma ReturnReads(s: State, t: nat)
    requires Inv(s) && t < |s.threads| && Waiting(s.threads[t].phase) && ChannelOf(s, t) in s.mail
    ensures ReadsOk(Return(s, t, s.mail[ChannelOf(s, t)]))
  {
    var s' := Return(s, t, s.mail[ChannelOf(s, t)]);
    Known(s, t);
    forall k: nat | k in s'.history
      ensures ReadOk(s', k)
    {
      Placed(s, k);
    }
  }

  /** A thread whose answer has arrived returns it: its own packet's result. */
  lemma ReturnKeeps(s: State, t: nat)
    requires Inv(s) && t < |s.threads| && Waiting(s.threads[t].phase) && ChannelOf(s, t) in s.mail
    ensures Inv(Return(s, t, s.mail[ChannelOf(s, t)]))
  {
    var s' := Return(s, t, s.mail[ChannelOf(s, t)]);
    Known(s, t);
    forall u: nat | u < |s.threads|
      ensures ThreadOk(s', u)
    {
      Known(s, u);
    }
    ReturnReads(s, t);
  }

  lemma AwaitLockThreads(s: State, t: nat)
    requires Inv(s) && In(s, t, Polling) && ChannelOf(s, t) !in s.mail
    ensures ThreadsOk(At(s, t, Locking))
  {
    var s' := At(s, t, Locking);
    Known(s, t);
    forall u: nat | u < |s.threads|
      ensures ThreadOk(s', u)
    {
      Known(s, u);
    }
  }

  lemma AwaitLockKeeps(s: State, t: nat)
    requires Inv(s) && In(s, t, Polling) && ChannelOf(s, t) !in s.mail
    ensures Inv(At(s, t, Locking))
  {
    var s' := At(s, t, Locking);
    Known(s, t);
    AwaitLockThreads(s, t);
    forall k: nat | k in s'.history
      ensures ReadOk(s', k)
    {
      if k in s.history { Placed(s, k); }
    }
  }

  lemma LockKeeps(s: State, t: nat)
    requires Inv(s) && In(s, t, Locking) && s.holder.None?
    ensures Inv(Locked(s, t))
  {
    var s' := Locked(s, t);
    Known(s, t);
    forall u: nat | u < |s.threads|
      ensures ThreadOk(s', u)
    {
      Known(s, u);
    }
    forall k: nat | k in s'.history
      ensures ReadOk(s', k)
    {
      if k in s.history { Placed(s, k); }
    }
  }

  lemma BlockThreads(s: State, t: nat)
    requires Inv(s) && In(s, t, Holding) && ChannelOf(s, t) !in s.mail
    ensures ThreadsOk(At(s, t, Blocked))
  {
    var s' := At(s, t, Blocked);
    Known(s, t);
    forall u: nat | u < |s.threads|
      ensures ThreadOk(s', u)
    {
      Known(s, u);
    }
  }

  lemma BlockKeeps(s: State, t: nat)
    requires Inv(s) && In(s, t, Holding) && ChannelOf(s, t) !in s.mail
    ensures Inv(At(s, t, Blocked))
  {
    var s' := At(s, t, Blocked);
    Known(s, t);
    BlockThreads(s, t);
    forall k: nat | k in s'.history
      ensures ReadOk(s', k)
    {
      if k in s.history { Placed(s, k); }
    }
  }

  lemma ReceiveReads(s: State, t: nat, key: nat)
    requires Inv(s) && In(s, t, Blocked) && key in s.port
    ensures ReadsOk(Receiving(s, t, key))
  {
    var s' := Receiving(s, t, key);
    Known(s, t);
    Placed(s, key);
    forall k: nat | k in s'.history
      ensures ReadOk(s', k)
    {
      Placed(s, k);
    }
  }

  lemma ReceiveKeeps(s: State, t: nat, key: nat)
    requires Inv(s) && In(s, t, Blocked) && key in s.port
    ensures Inv(Receiving(s, t, key))
  {
    var s' := Receiving(s, t, key);
    Known(s, t);
    Placed(s, key);
    forall u: nat | u < |s.threads|
      ensures ThreadOk(s', u)
    {
      Known(s, u);
    }
    ReceiveReads(s, t, key);
  }

  lemma RemoveReads(s: State, t: nat)
    requires Inv(s) && t < |s.threads| && s.threads[t].phase.Dispatching?
    ensures ReadsOk(Removing(s, t))
  {
    var s' := Removing(s, t);
    Known(s, t);
    Placed(s, s.threads[t].phase.packet.key);
    forall k: nat | k in s'.history
      ensures ReadOk(s', k)
    {
      Placed(s, k);
    }
  }

  lemma RemoveKeeps(s: State, t: nat)
    requires Inv(s) && t < |s.threads| && s.threads[t].phase.Dispatching?
    ensures Inv(Removing(s, t))
  {
    var s' := Removing(s, t);
    Known(s, t);
    Placed(s, s.threads[t].phase.packet.key);
    forall u: nat | u < |s.threads|
      ensures ThreadOk(s', u)
    {
      Known(s, u);
    }
    RemoveReads(s, t);
  }

  /** The state after a result has been sent to a listening waiter of its own. */
  function Sent(s: State, t: nat): (r: State)
    requires t < |s.threads| && s.threads[t].phase.Sending?
    ensures |r.threads| == |s.threads|
  {
    var packet, waiter := s.threads[t].phase.packet, s.threads[t].phase.waiter;
    var mailed := s.(mail := s.mail[waiter.channel := ResultOf(packet.status)], holder := None);
    Staged(At(mailed, t, Polling), packet.key, Delivered)
  }

  /** Nothing goes wrong when a result is sent: its waiter is the packet's, listens, and has no result yet. */
  lemma SendIs(s: State, t: nat)
    requires Inv(s) && t < |s.threads| && s.threads[t].phase.Sending?
    ensures SendingResult(s, t) == Sent(s, t)
  {
    Known(s, t);
    Placed(s, s.threads[t].phase.packet.key);
  }

  lemma SendReads(s: State, t: nat)
    requires Inv(s) && t < |s.threads| && s.threads[t].phase.Sending?
    ensures ReadsOk(Sent(s, t))
  {
    var s' := Sent(s, t);
    Known(s, t);
    Placed(s, s.threads[t].phase.packet.key);
    forall k: nat | k in s'.history
      ensures ReadOk(s', k)
    {
      Placed(s, k);
    }
  }

  lemma SendThreads(s: State, t: nat)
    requires Inv(s) && t < |s.threads| && s.threads[t].phase.Sending?
    ensures ThreadsOk(Sent(s, t))
  {
    var s' := Sent(s, t);
    Known(s, t);
    Placed(s, s.threads[t].phase.packet.key);
    forall u: nat | u < |s.threads|
      ensures ThreadOk(s', u)
    {
      Known(s, u);
    }
  }

  lemma SendKeeps(s: State, t: nat)
    requires Inv(s) && t < |s.threads| && s.threads[t].phase.Sending?
    ensures Inv(SendingResult(s, t))
  {
    Known(s, t);
    Placed(s, s.threads[t].phase.packet.key);
    SendIs(s, t);
    SendThreads(s, t);
    SendReads(s, t);
  }

  // ----- every run -----

  /** Whatever a thread or the kernel does next, the invariant stays and nothing goes wrong. */
  lemma StepKeeps(s: State, x: Step)
    requires Inv(s) && Enabled(s, x)
    ensures Inv(Next(s, x))
  {
    match x {
      case Begin(t, overlapped) => BeginKeeps(s, t, overlapped);
      case AssociateFails(t, code) => AssociateFailsKeeps(s, t, code);
      case Register(t) => RegisterKeeps(s, t);
      case Submit(t) => SubmitKeeps(s, t);
      case RefuseSubmit(t, result) => RefuseKeeps(s, t, result);
      case Cancel(t) => CancelKeeps(s, t);
      case Post(key, status) => PostKeeps(s, key, status);
      case Poll(t) => PollKeeps(s, t);
      case Lock(t) => LockKeeps(s, t);
      case Check(t) => CheckKeeps(s, t);
      case Receive(t, key) => ReceiveKeeps(s, t, key);
      case Remove(t) => RemoveKeeps(s, t);
      case Send(t) => SendKeeps(s, t);
    }
  }

  lemma PollKeeps(s: State, t: nat)
    requires Inv(s) && In(s, t, Polling)
    ensures Inv(TryReceive(s, t, Locking))
  {
    if ChannelOf(s, t) in s.mail {
      ReturnKeeps(s, t);
    } else {
      StillConnected(s, t);
      AwaitLockKeeps(s, t);
    }
  }

  lemma CheckKeeps(s: State, t: nat)
    requires Inv(s) && In(s, t, Holding)
    ensures Inv(TryReceive(s, t, Blocked))
  {
    if ChannelOf(s, t) in s.mail {
      ReturnKeeps(s, t);
    } else {
      StillConnected(s, t);
      BlockKeeps(s, t);
    }
  }

  lemma {:induction false} RunKeeps(s: State, steps: seq<Step>)
    requires Inv(s)
    ensures Inv(Run(s, steps))
    decreases |steps|
  {
    if steps != [] {
      if Enabled(s, steps[0]) { StepKeeps(s, steps[0]); }
      RunKeeps(if Enabled(s, steps[0]) then Next(s, steps[0]) else s, steps[1..]);
    }
  }

  /** In every run of any number of threads: no registration is replaced, no packet lacks its waiter or goes to
      another read, no sender or receiver is lost, no read gets a second result. A read that has returned failed before
      submission and gave what it failed with, an error or an end of file; or it was submitted, its own packet was
      posted and it gave the bytes that packet moved, none at an end of file, or its error. */
  lemma EveryRun(n: nat, steps: seq<Step>)
    ensures var s := Run(Initial(n), steps);
            && s.faults == []
            && forall k | k in s.history && s.history[k].stage.Done? ::
                 Returned(s.history[k], s.history[k].stage.result)
  {
    InitialOk(n);
    RunKeeps(Initial(n), steps);
    var s := Run(Initial(n), steps);
    forall k | k in s.history && s.history[k].stage.Done?
      ensures Returned(s.history[k], s.history[k].stage.result)
    {
      assert ReadOk(s, k);
    }
  }

  predicate Returned(r: Read, result: ReadResult) {
    match r.fate
    case Open => false
    case Accepted => false
    case Failing(failure) => result == failure && (failure == Transferred(0) || failure.OsError?)
    case Posted(Moved(bytes)) => result == Transferred(bytes)
    case Posted(AtEnd) => result == Transferred(0)
    case Posted(Failed(code)) => result == OsError(code)
  }

  /** A fate changes only so: an open read fails or is submitted, by its own thread; a submitted one is posted by the
      kernel; nothing else. */
  lemma FateMoves(s: State, x: Step, k: nat)
    requires Inv(s) && Enabled(s, x) && k in s.history
    ensures k in Next(s, x).history
    ensures var r := s.history[k]; var now := Next(s, x).history[k].fate;
            || now == r.fate
            || (r.fate.Open? && x == Submit(r.thread) && now == Accepted)
            || (r.fate.Open? && x.RefuseSubmit? && x.t == r.thread && now == Failing(x.result))
            || (r.fate.Open? && x.AssociateFails? && x.t == r.thread && now == Failing(OsError(x.code)))
            || (r.fate.Accepted? && x.Post? && x.key == k && now == Posted(x.status))
  {
    match x {
      case Begin(_, _) => Placed(s, k);
      case Post(key, _) => Placed(s, key);
      case Submit(t) => Known(s, t);
      case RefuseSubmit(t, _) => Known(s, t);
      case AssociateFails(t, _) => Known(s, t);
      case _ => FateStays(s, x, k);
    }
  }

  /** Any other step leaves every fate alone. */
  lemma FateStays(s: State, x: Step, k: nat)
    requires Inv(s) && Enabled(s, x) && k in s.history
    requires !x.Begin? && !x.Post? && !x.Submit? && !x.RefuseSubmit? && !x.AssociateFails?
    ensures k in Next(s, x).history && Next(s, x).history[k].fate == s.history[k].fate
  {
    match x {
      case Poll(t) => TryReceiveFate(s, t, Locking, k);
      case Check(t) => TryReceiveFate(s, t, Blocked, k);
      case Register(t) => RegisterFate(s, t, k);
      case Remove(t) => RemoveFate(s, t, k);
      case Send(t) => SendIs(s, t); SentFate(s, t, k);
      case _ =>
    }
  }

  lemma RegisterFate(s: State, t: nat, k: nat)
    requires t < |s.threads| && k in s.history
    ensures k in Registering(s, t).history && Registering(s, t).history[k].fate == s.history[k].fate
  {
  }

  lemma RemoveFate(s: State, t: nat, k: nat)
    requires t < |s.threads| && s.threads[t].phase.Dispatching? && k in s.history
    ensures k in Removing(s, t).history && Removing(s, t).history[k].fate == s.history[k].fate
  {
    if s.threads[t].phase.packet.key !in s.waiters { ReturnFate(Faulted(s, NoWaiter), t, CompletionMismatch, k); }
  }

  lemma SentFate(s: State, t: nat, k: nat)
    requires t < |s.threads| && s.threads[t].phase.Sending? && k in s.history
    ensures k in Sent(s, t).history && Sent(s, t).history[k].fate == s.history[k].fate
  {
  }

  lemma TryReceiveFate(s: State, t: nat, next: Phase, k: nat)
    requires t < |s.threads| && k in s.history
    ensures k in TryReceive(s, t, next).history && TryReceive(s, t, next).history[k].fate == s.history[k].fate
  {
    var c := ChannelOf(s, t);
    if c in s.mail {
      ReturnFate(s, t, s.mail[c], k);
    } else if !Connected(s, c) {
      ReturnFate(Faulted(s, SenderLost), t, CompletionMismatch, k);
    }
  }

  lemma ReturnFate(s: State, t: nat, result: ReadResult, k: nat)
    requires t < |s.threads| && k in s.history
    ensures k in Return(s, t, result).history && Return(s, t, result).history[k].fate == s.history[k].fate
  {
  }

  /** A thread blocked in the pump has its own request registered and not dispatched: it is in flight or on the port,
      so the wait is never on an empty port. */
  lemma BlockedHasItsOwn(n: nat, steps: seq<Step>, t: nat)
    requires In(Run(Initial(n), steps), t, Blocked)
    ensures var s := Run(Initial(n), steps); var key := s.threads[t].key;
            && key in s.waiters && s.waiters[key] == Waiter(s.threads[t].overlapped, ChannelOf(s, t))
            && (key in s.inflight || key in s.port) && s.holder == Some(t)
  {
    InitialOk(n);
    RunKeeps(Initial(n), steps);
    Known(Run(Initial(n), steps), t);
  }

  lemma OwnMoveStays(s: State, x: Step, k: nat)
    requires Inv(s) && Enabled(s, x) && k in s.history && s.history[k].stage.Done?
    requires x.AssociateFails? || x.Register? || x.Submit? || x.RefuseSubmit? || x.Cancel? || x.Lock?
    ensures k in Next(s, x).history && Next(s, x).history[k] == s.history[k]
  {
    OwnReadOpen(s, x.t);
  }

  lemma TryReceiveStays(s: State, t: nat, next: Phase, k: nat)
    requires Inv(s) && t < |s.threads| && Waiting(s.threads[t].phase) && k in s.history && s.history[k].stage.Done?
    ensures k in TryReceive(s, t, next).history && TryReceive(s, t, next).history[k] == s.history[k]
  {
    if ChannelOf(s, t) in s.mail {
      OwnReadOpen(s, t);
    } else {
      StillConnected(s, t);
    }
  }

  /** A thread under way has a read of its own that has not returned. */
  lemma OwnReadOpen(s: State, t: nat)
    requires Inv(s) && t < |s.threads| && !s.threads[t].phase.Idle?
    ensures s.threads[t].key in s.history && !s.history[s.threads[t].key].stage.Done?
  {
    Known(s, t);
  }

  /** A returned read is final: its result never changes again. */
  lemma ReturnedOnce(s: State, x: Step, k: nat)
    requires Inv(s) && Enabled(s, x) && k in s.history && s.history[k].stage.Done?
    ensures k in Next(s, x).history && Next(s, x).history[k] == s.history[k]
  {
    Placed(s, k);
    match x {
      case Begin(t, _) =>
      case Post(key, _) => Placed(s, key);
      case Receive(t, key) => Placed(s, key);
      case Remove(t) => RemoveStays(s, t, k);
      case Send(t) => SendStays(s, t, k);
      case Poll(t) => TryReceiveStays(s, t, Locking, k);
      case Check(t) => TryReceiveStays(s, t, Blocked, k);
      case _ => OwnMoveStays(s, x, k);
    }
  }

  lemma RemoveStays(s: State, t: nat, k: nat)
    requires Inv(s) && Enabled(s, Remove(t)) && k in s.history && s.history[k].stage.Done?
    ensures k in Removing(s, t).history && Removing(s, t).history[k] == s.history[k]
  {
    Known(s, t);
    Placed(s, k);
  }

  lemma SendStays(s: State, t: nat, k: nat)
    requires Inv(s) && Enabled(s, Send(t)) && k in s.history && s.history[k].stage.Done?
    ensures k in SendingResult(s, t).history && SendingResult(s, t).history[k] == s.history[k]
  {
    Known(s, t);
    Placed(s, k);
  }

  /** A thread that does not wait for the pump can move, or the kernel can complete its read. */
  lemma ThreadMove(s: State, t: nat) returns (x: Step)
    requires Inv(s) && t < |s.threads| && !s.threads[t].phase.Idle? && (s.threads[t].phase.Locking? ==> s.holder.None?)
    ensures Enabled(s, x) && !x.Begin?
  {
    Known(s, t);
    var th := s.threads[t];
    match th.phase {
      case Keyed => x := Register(t);
      case Registered => x := Submit(t);
      case Cancelling(_) => x := Cancel(t);
      case Polling => x := Poll(t);
      case Locking => x := Lock(t);
      case Holding => x := Check(t);
      case Blocked => x := if th.key in s.port then Receive(t, th.key) else Post(th.key, AtEnd);
      case Dispatching(_) => x := Remove(t);
      case Sending(_, _) => x := Send(t);
    }
  }

  /** While any read is under way, some thread or the kernel can move: no deadlock. */
  lemma CanMove(s: State, t: nat) returns (x: Step)
    requires Inv(s) && t < |s.threads| && !s.threads[t].phase.Idle?
    ensures Enabled(s, x) && !x.Begin?
  {
    if s.threads[t].phase.Locking? && s.holder.Some? {
      Known(s, s.holder.value);
      x := ThreadMove(s, s.holder.value);
    } else {
      x := ThreadMove(s, t);
    }
  }
}
