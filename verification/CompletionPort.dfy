/** Overlapped reads through one completion port, as a state machine over every interleaving of the reading
    threads and the kernel: one pump mutex, one waiter map, one channel for each read. */
module CompletionPort {
  import opened Outcomes

  /** How the kernel ends a read: bytes moved, end of file, or another error. */
  datatype Status = Moved(bytes: nat) | AtEnd | Failed(code: int)

  datatype Packet = Packet(key: nat, overlapped: nat, status: Status)

  datatype ReadResult = Transferred(bytes: nat) | OsError(code: int) | CompletionMismatch

  function ResultOf(status: Status): ReadResult {
    match status
    case Moved(bytes) => Transferred(bytes)
    case AtEnd => Transferred(0)
    case Failed(code) => OsError(code)
  }

  /** A read's own channel: the thread that reads and how many reads it began before. */
  datatype Channel = Channel(thread: nat, serial: nat)

  datatype Waiter = Waiter(overlapped: nat, channel: Channel)

  /** Where a thread is inside `read_into`. From Holding to Sending it holds the pump. */
  datatype Phase =
    | Idle | Keyed | Registered | Cancelling(result: ReadResult) | Polling | Locking
    | Holding | Blocked | Dispatching(packet: Packet) | Sending(packet: Packet, waiter: Waiter)

  datatype Thread = Thread(phase: Phase, key: nat, overlapped: nat, serial: nat)

  predicate Pumping(p: Phase) {
    p.Holding? || p.Blocked? || p.Dispatching? || p.Sending?
  }

  predicate Waiting(p: Phase) {
    p.Polling? || p.Locking? || Pumping(p)
  }

  /** What must never happen. */
  datatype Fault = RegistrationReplaced | NoWaiter | ForeignPacket | SenderLost | ReceiverGone | SecondResult

  /** How a read ends: it failed before submission, or it was submitted, and then the kernel posted its packet. */
  datatype Fate = Open | Failing(result: ReadResult) | Accepted | Posted(status: Status)

  /** History: where each read's request stands, and its fate. */
  datatype Stage = New | Listed | Refused | InFlight | InPort | Taken | Removed | Delivered | Done(result: ReadResult)
  datatype Read = Read(thread: nat, overlapped: nat, serial: nat, stage: Stage, fate: Fate)

  datatype State = State(threads: seq<Thread>, nextKey: nat, waiters: map<nat, Waiter>, holder: Option<nat>,
                         port: map<nat, Packet>, inflight: map<nat, nat>, mail: map<Channel, ReadResult>,
                         faults: seq<Fault>, history: map<nat, Read>)

  /** `threads` threads that have read nothing yet; keys start at one. */
  function Initial(threads: nat): State {
    State(seq(threads, t => Thread(Idle, 0, 0, 0)), 1, map[], None, map[], map[], map[], [], map[])
  }

  function ChannelOf(s: State, t: nat): Channel
    requires t < |s.threads|
  {
    Channel(t, s.threads[t].serial)
  }

  function At(s: State, t: nat, phase: Phase): (r: State)
    requires t < |s.threads|
    ensures |r.threads| == |s.threads|
  {
    s.(threads := s.threads[t := s.threads[t].(phase := phase)])
  }

  function Staged(s: State, key: nat, stage: Stage): (r: State)
    ensures |r.threads| == |s.threads|
  {
    if key in s.history then s.(history := s.history[key := s.history[key].(stage := stage)]) else s
  }

  function Fated(s: State, key: nat, fate: Fate): (r: State)
    ensures |r.threads| == |s.threads|
  {
    if key in s.history then s.(history := s.history[key := s.history[key].(fate := fate)]) else s
  }

  function Faulted(s: State, f: Fault): State {
    s.(faults := s.faults + [f])
  }

  /** A sender of the channel is still registered or about to send. */
  predicate Connected(s: State, c: Channel) {
    || (exists k :: k in s.waiters && s.waiters[k].channel == c)
    || (exists u :: 0 <= u < |s.threads| && s.threads[u].phase.Sending? && s.threads[u].phase.waiter.channel == c)
  }

  /** The read of the channel has not returned. */
  predicate Listening(s: State, c: Channel) {
    c.thread < |s.threads| && !s.threads[c.thread].phase.Idle? && s.threads[c.thread].serial == c.serial
  }

  /** Return from `read_into`: the pump guard and the receiver are dropped. */
  function Return(s: State, t: nat, result: ReadResult): (r: State)
    requires t < |s.threads|
    ensures |r.threads| == |s.threads|
  {
    var freed := s.(holder := if s.holder == Some(t) then None else s.holder, mail := s.mail - {ChannelOf(s, t)});
    Staged(At(freed, t, Idle), s.threads[t].key, Done(result))
  }

  /** Look into the channel without blocking; go on to `next` when it is empty. */
  function TryReceive(s: State, t: nat, next: Phase): (r: State)
    requires t < |s.threads|
    ensures |r.threads| == |s.threads|
  {
    var c := ChannelOf(s, t);
    if c in s.mail then Return(s, t, s.mail[c])
    else if !Connected(s, c) then Return(Faulted(s, SenderLost), t, CompletionMismatch)
    else At(s, t, next)
  }

  datatype Step =
    | Begin(t: nat, overlapped: nat)          // next_key; the file is opened and associated with the key
    | AssociateFails(t: nat, code: int)
    | Register(t: nat)
    | Submit(t: nat)                          // ReadFile succeeded or is pending: a packet will follow
    | RefuseSubmit(t: nat, result: ReadResult) // ReadFile failed synchronously: no packet will follow
    | Cancel(t: nat)
    | Post(key: nat, status: Status)          // the kernel completes a submitted read
    | Poll(t: nat)
    | Lock(t: nat)
    | Check(t: nat)
    | Receive(t: nat, key: nat)
    | Remove(t: nat)
    | Send(t: nat)

  predicate In(s: State, t: nat, phase: Phase) {
    t < |s.threads| && s.threads[t].phase == phase
  }

  predicate Enabled(s: State, x: Step) {
    match x
    case Begin(t, _) => In(s, t, Idle)
    case AssociateFails(t, _) => In(s, t, Keyed)
    case Register(t) => In(s, t, Keyed)
    case Submit(t) => In(s, t, Registered)
    case RefuseSubmit(t, r) => In(s, t, Registered) && (r == Transferred(0) || r.OsError?)
    case Cancel(t) => t < |s.threads| && s.threads[t].phase.Cancelling?
    case Post(key, _) => key in s.inflight
    case Poll(t) => In(s, t, Polling)
    case Lock(t) => In(s, t, Locking) && s.holder.None?
    case Check(t) => In(s, t, Holding)
    case Receive(t, key) => In(s, t, Blocked) && key in s.port
    case Remove(t) => t < |s.threads| && s.threads[t].phase.Dispatching?
    case Send(t) => t < |s.threads| && s.threads[t].phase.Sending?
  }

  /** Take a fresh key; the file is opened and associated with it. */
  function Beginning(s: State, t: nat, overlapped: nat): (r: State)
    requires t < |s.threads|
    ensures |r.threads| == |s.threads|
  {
    var thread := Thread(Keyed, s.nextKey, overlapped, s.threads[t].serial + 1);
    s.(threads := s.threads[t := thread], nextKey := s.nextKey + 1,
       history := s.history[s.nextKey := Read(t, overlapped, thread.serial, New, Open)])
  }

  /** The file could not be associated with its key: nothing was registered. */
  function Unassociated(s: State, t: nat, result: ReadResult): (r: State)
    requires t < |s.threads|
    ensures |r.threads| == |s.threads|
  {
    Return(Fated(s, s.threads[t].key, Failing(result)), t, result)
  }

  function Registering(s: State, t: nat): (r: State)
    requires t < |s.threads|
    ensures |r.threads| == |s.threads|
  {
    var key := s.threads[t].key;
    var added := s.(waiters := s.waiters[key := Waiter(s.threads[t].overlapped, ChannelOf(s, t))]);
    if key in s.waiters then Return(Faulted(added, RegistrationReplaced), t, CompletionMismatch)
    else Staged(At(added, t, Registered), key, Listed)
  }

  /** The read was accepted: its packet will follow. */
  function Submitting(s: State, t: nat): (r: State)
    requires t < |s.threads|
    ensures |r.threads| == |s.threads|
  {
    var thread := s.threads[t];
    var sent := At(s.(inflight := s.inflight[thread.key := thread.overlapped]), t, Polling);
    Fated(Staged(sent, thread.key, InFlight), thread.key, Accepted)
  }

  /** The read failed at once: no packet will follow. */
  function Refusing(s: State, t: nat, result: ReadResult): (r: State)
    requires t < |s.threads|
    ensures |r.threads| == |s.threads|
  {
    var key := s.threads[t].key;
    Fated(Staged(At(s, t, Cancelling(result)), key, Refused), key, Failing(result))
  }

  function Unregistering(s: State, t: nat): (r: State)
    requires t < |s.threads| && s.threads[t].phase.Cancelling?
    ensures |r.threads| == |s.threads|
  {
    Return(s.(waiters := s.waiters - {s.threads[t].key}), t, s.threads[t].phase.result)
  }

  /** The kernel completes a submitted read and posts its packet. */
  function Posting(s: State, key: nat, status: Status): (r: State)
    requires key in s.inflight
    ensures |r.threads| == |s.threads|
  {
    var arrived := s.(inflight := s.inflight - {key}, port := s.port[key := Packet(key, s.inflight[key], status)]);
    Fated(Staged(arrived, key, InPort), key, Posted(status))
  }

  function Locked(s: State, t: nat): (r: State)
    requires t < |s.threads|
    ensures |r.threads| == |s.threads|
  {
    At(s.(holder := Some(t)), t, Holding)
  }

  /** The pump takes a packet off the port. */
  function Receiving(s: State, t: nat, key: nat): (r: State)
    requires t < |s.threads| && key in s.port
    ensures |r.threads| == |s.threads|
  {
    Staged(At(s.(port := s.port - {key}), t, Dispatching(s.port[key])), key, Taken)
  }

  /** Take the waiter of the received packet out of the map. */
  function Removing(s: State, t: nat): (r: State)
    requires t < |s.threads| && s.threads[t].phase.Dispatching?
    ensures |r.threads| == |s.threads|
  {
    var packet := s.threads[t].phase.packet;
    if packet.key !in s.waiters then Return(Faulted(s, NoWaiter), t, CompletionMismatch)
    else
      var waiter := s.waiters[packet.key];
      Staged(At(s.(waiters := s.waiters - {packet.key}), t, Sending(packet, waiter)), packet.key, Removed)
  }

  /** Send the waiter its result and release the pump. */
  function SendingResult(s: State, t: nat): (r: State)
    requires t < |s.threads| && s.threads[t].phase.Sending?
    ensures |r.threads| == |s.threads|
  {
    var packet, waiter := s.threads[t].phase.packet, s.threads[t].phase.waiter;
    var foreign := waiter.overlapped != packet.overlapped;
    var result := if foreign then CompletionMismatch else ResultOf(packet.status);
    var checked := if foreign then Faulted(s, ForeignPacket) else s;
    if !Listening(s, waiter.channel) then Return(Faulted(checked, ReceiverGone), t, CompletionMismatch)
    else
      var sent := checked.(mail := checked.mail[waiter.channel := result], holder := None);
      var counted := if waiter.channel in s.mail then Faulted(sent, SecondResult) else sent;
      Staged(At(counted, t, Polling), packet.key, Delivered)
  }

  function Next(s: State, x: Step): (s': State)
    requires Enabled(s, x)
    ensures |s'.threads| == |s.threads|
  {
    match x
    case Begin(t, overlapped) => Beginning(s, t, overlapped)
    case AssociateFails(t, code) => Unassociated(s, t, OsError(code))
    case Register(t) => Registering(s, t)
    case Submit(t) => Submitting(s, t)
    case RefuseSubmit(t, result) => Refusing(s, t, result)
    case Cancel(t) => Unregistering(s, t)
    case Post(key, status) => Posting(s, key, status)
    case Poll(t) => TryReceive(s, t, Locking)
    case Lock(t) => Locked(s, t)
    case Check(t) => TryReceive(s, t, Blocked)
    case Receive(t, key) => Receiving(s, t, key)
    case Remove(t) => Removing(s, t)
    case Send(t) => SendingResult(s, t)
  }

  function Run(s: State, steps: seq<Step>): State
    decreases |steps|
  {
    if steps == [] then s else Run(if Enabled(s, steps[0]) then Next(s, steps[0]) else s, steps[1..])
  }
}
