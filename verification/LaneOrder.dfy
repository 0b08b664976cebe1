/** What one lane holds under in-order delivery: its own tasks, a whole round apart, oldest first. */
module LaneOrder {
  import opened Words
  import opened Outcomes
  import opened Lanes
  import opened LaneSystem

  // ----- one lane -----

  /** Completions of a lane whose oldest is task `t`. */
  ghost predicate DoneFrom(e: Iteration, done: seq<TaggedBatch>, t: nat)
    requires e.Valid()
    decreases |done|
  {
    done != [] ==> t < |e.units| && done[0] == Expected(e, t) && DoneFrom(e, done[1..], t + e.workers)
  }

  /** Commands of a lane whose oldest is task `t`. */
  ghost predicate QueueFrom(e: Iteration, queue: seq<Command>, t: nat)
    decreases |queue|
  {
    queue != [] ==> t < |e.units| && queue[0] == Command(t, e.units[t]) && QueueFrom(e, queue[1..], t + e.workers)
  }

  /** A lane holds, oldest first, its tasks from `head` on: some done, the rest queued. */
  ghost predicate LaneAt(e: Iteration, lane: Lane, w: nat, head: nat)
    requires e.Valid()
  {
    var next := head + Times(|lane.done|, e.workers);
    && LaneOf(e.workers, head) == w
    && DoneFrom(e, lane.done, head) && QueueFrom(e, lane.queue, next)
    && next < |e.units| + e.workers && lane.rng == Before(e, next)
  }

  /** The task that lane will be given next. */
  function Tail(e: Iteration, lane: Lane, head: nat): nat {
    head + Times(lane.Outstanding(), e.workers)
  }

  lemma {:induction false} DoneAppend(e: Iteration, done: seq<TaggedBatch>, t: nat, b: TaggedBatch)
    requires e.Valid() && DoneFrom(e, done, t)
    requires t + Times(|done|, e.workers) < |e.units| && b == Expected(e, t + Times(|done|, e.workers))
    ensures DoneFrom(e, done + [b], t)
    decreases |done|
  {
    if done != [] {
      TimesShift(|done|, e.workers);
      DoneAppend(e, done[1..], t + e.workers, b);
      assert (done + [b])[1..] == done[1..] + [b];
    }
  }

  lemma {:induction false} QueueAppend(e: Iteration, queue: seq<Command>, t: nat)
    requires QueueFrom(e, queue, t)
    requires t + Times(|queue|, e.workers) < |e.units|
    ensures var u := t + Times(|queue|, e.workers); QueueFrom(e, queue + [Command(u, e.units[u])], t)
    decreases |queue|
  {
    var u := t + Times(|queue|, e.workers);
    if queue != [] {
      TimesShift(|queue|, e.workers);
      QueueAppend(e, queue[1..], t + e.workers);
      assert (queue + [Command(u, e.units[u])])[1..] == queue[1..] + [Command(u, e.units[u])];
    }
  }

  lemma {:induction false} TimesSplit(j: nat, k: nat, n: nat)
    ensures Times(j + k, n) == Times(j, n) + Times(k, n)
  {
    if k > 0 { TimesSplit(j, k - 1, n); }
  }

  lemma {:induction false} TimesOnLane(a: nat, k: nat, n: nat)
    requires n > 0
    ensures LaneOf(n, a + Times(k, n)) == LaneOf(n, a)
  {
    if k > 0 {
      TimesOnLane(a, k - 1, n);
    }
  }

  /** The lane's oldest command is its next task, run from the state its previous task left. */
  lemma ExecutedIs(e: Iteration, lane: Lane, w: nat, head: nat, next: nat)
    requires e.Valid() && e.start <= head && LaneAt(e, lane, w, head) && lane.queue != []
    requires next == head + Times(|lane.done|, e.workers)
    ensures next < |e.units| && QueueFrom(e, lane.queue[1..], next + e.workers)
    ensures Executed(e, lane, w) == Lane(lane.queue[1..], lane.done + [Expected(e, next)], Before(e, next + e.workers))
  {
    TimesOnLane(head, |lane.done|, e.workers);
    BeforeNext(e, next);
  }

  lemma ExecuteAt(e: Iteration, lane: Lane, w: nat, head: nat)
    requires e.Valid() && e.start <= head && LaneAt(e, lane, w, head) && lane.queue != []
    ensures LaneAt(e, Executed(e, lane, w), w, head)
    ensures Executed(e, lane, w).Outstanding() == lane.Outstanding()
  {
    var next := head + Times(|lane.done|, e.workers);
    ExecutedIs(e, lane, w, head, next);
    DoneAppend(e, lane.done, head, Expected(e, next));
    TimesShift(|lane.done| + 1, e.workers);
  }

  lemma ReceiveAt(e: Iteration, lane: Lane, w: nat, head: nat)
    requires e.Valid() && LaneAt(e, lane, w, head) && lane.done != []
    ensures lane.done[0] == Expected(e, head)
    ensures LaneAt(e, lane.(done := lane.done[1..]), w, head + e.workers)
    ensures Tail(e, lane.(done := lane.done[1..]), head + e.workers) == Tail(e, lane, head)
  {
    TimesShift(|lane.done|, e.workers);
    TimesShift(lane.Outstanding(), e.workers);
  }

  lemma SubmitAt(e: Iteration, lane: Lane, w: nat, head: nat)
    requires e.Valid() && LaneAt(e, lane, w, head) && Tail(e, lane, head) < |e.units|
    ensures var t := Tail(e, lane, head); var more := lane.(queue := lane.queue + [Command(t, e.units[t])]);
            LaneAt(e, more, w, head) && Tail(e, more, head) == t + e.workers
  {
    TimesSplit(|lane.done|, |lane.queue|, e.workers);
    SubmitQueue(e, lane.queue, head + Times(|lane.done|, e.workers), Tail(e, lane, head));
    TimesShift(lane.Outstanding() + 1, e.workers);
  }

  lemma SubmitQueue(e: Iteration, queue: seq<Command>, next: nat, t: nat)
    requires QueueFrom(e, queue, next) && t == next + Times(|queue|, e.workers) && t < |e.units|
    ensures QueueFrom(e, queue + [Command(t, e.units[t])], next)
  {
    QueueAppend(e, queue, next);
  }
}
