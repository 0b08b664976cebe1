/** The owner's bookkeeping over any number of lanes, whatever a lane holds: which admitted tasks are pending
    on a lane and which are ready, and where each lane stands. */
module LaneLedger {
  import opened LaneSystem
  import opened Lanes

  /** Where a lane stands: its contents from its oldest task `head` on, once tasks below `to` are admitted. */
  datatype Stand = Stand(lane: Lane, w: nat, head: nat, to: nat)

  /** The lane of each task, the batch each task must deliver and where a lane may stand. */
  datatype View = View(place: nat -> nat, due: nat -> TaggedBatch, fits: Stand -> bool)

  /** Tasks [from, to) are admitted and undelivered. A lane's tasks are ready before its head and pending
      from it on; every task is in exactly one of the two dictionaries. */
  ghost predicate Ledger(v: View, pending: map<nat, nat>, ready: map<nat, TaggedBatch>, heads: seq<nat>,
                         from: nat, to: nat) {
    && (forall t: nat :: v.place(t) < |heads|)
    && (forall t: nat :: t in pending <==> heads[v.place(t)] <= t < to)
    && (forall t: nat :: t in ready <==> from <= t < heads[v.place(t)] && t < to)
    && (forall t: nat | t in pending :: pending[t] == v.place(t))
    && (forall t: nat | t in ready :: ready[t] == v.due(t))
  }

  ghost predicate LanesAt(v: View, lanes: seq<Lane>, heads: seq<nat>, from: nat, to: nat) {
    && |lanes| == |heads|
    && (forall w | 0 <= w < |lanes| :: from <= heads[w])
    && (forall w {:trigger v.fits(Stand(lanes[w], w, heads[w], to))} | 0 <= w < |lanes| ::
          v.fits(Stand(lanes[w], w, heads[w], to)))
  }

  /** Tasks admitted, delivered and drawn from the sampler agree, within the prefetch limit. */
  ghost predicate CountsAt(e: Iteration, s: System) {
    && e.start <= s.nextDelivery <= s.nextTask == s.drawn <= |e.units|
    && |s.ready| + |s.pool.pending| == s.nextTask - s.nextDelivery <= e.Limit()
    && (s.exhausted ==> s.nextTask == |e.units|)
  }

  ghost predicate SystemAt(e: Iteration, v: View, s: System, heads: seq<nat>) {
    && |heads| == e.workers && CountsAt(e, s)
    && LanesAt(v, s.pool.lanes, heads, s.nextDelivery, s.nextTask)
    && Ledger(v, s.pool.pending, s.ready, heads, s.nextDelivery, s.nextTask)
  }

  lemma LedgerSubmit(v: View, pending: map<nat, nat>, ready: map<nat, TaggedBatch>, heads: seq<nat>, from: nat, to: nat)
    requires Ledger(v, pending, ready, heads, from, to) && heads[v.place(to)] <= to
    ensures to !in pending && Ledger(v, pending[to := v.place(to)], ready, heads, from, to + 1)
  {
  }

  /** Receiving a lane's head moves the head past that task and no other of the lane. */
  lemma LedgerReceive(v: View, pending: map<nat, nat>, ready: map<nat, TaggedBatch>, heads: seq<nat>, from: nat,
                      to: nat, h: nat, next: nat)
    requires Ledger(v, pending, ready, heads, from, to)
    requires from <= h < to && heads[v.place(h)] == h < next
    requires forall t: nat | v.place(t) == v.place(h) && t < next :: t <= h
    ensures h in pending && pending[h] == v.place(h) && h !in ready
    ensures Ledger(v, pending - {h}, ready[h := v.due(h)], heads[v.place(h) := next], from, to)
  {
  }

  lemma LedgerDeliver(v: View, pending: map<nat, nat>, ready: map<nat, TaggedBatch>, heads: seq<nat>, from: nat,
                      to: nat)
    requires Ledger(v, pending, ready, heads, from, to) && from in ready
    ensures ready[from] == v.due(from)
    ensures Ledger(v, pending, ready - {from}, heads, from + 1, to)
  {
  }

  lemma AddOne<T>(m: map<nat, T>, k: nat, x: T)
    requires k !in m
    ensures |m[k := x]| == |m| + 1
  {
  }

  lemma RemoveOne<T>(m: map<nat, T>, k: nat)
    requires k in m
    ensures |m - {k}| == |m| - 1
  {
    assert (m - {k}).Keys == m.Keys - {k};
  }

  lemma LanesReplace(v: View, lanes: seq<Lane>, heads: seq<nat>, from: nat, to: nat, to': nat, w: nat, lane: Lane,
                     head: nat)
    requires LanesAt(v, lanes, heads, from, to)
    requires w < |lanes| && from <= head && v.fits(Stand(lane, w, head, to'))
    requires forall u | 0 <= u < |lanes| && u != w :: v.fits(Stand(lanes[u], u, heads[u], to'))
    ensures LanesAt(v, lanes[w := lane], heads[w := head], from, to')
  {
  }

  // ----- the owner's moves, for any view -----

  lemma AdmitFrame(e: Iteration, v: View, s: System, heads: seq<nat>, lanes: seq<Lane>) returns (s': System)
    requires SystemAt(e, v, s, heads) && s.nextTask < |e.units| && Admitting(s, e.Limit())
    requires heads[v.place(s.nextTask)] <= s.nextTask && LanesAt(v, lanes, heads, s.nextDelivery, s.nextTask + 1)
    ensures s' == s.(pool := Pool(lanes, s.pool.pending[s.nextTask := v.place(s.nextTask)]),
                     nextTask := s.nextTask + 1, drawn := s.drawn + 1)
    ensures SystemAt(e, v, s', heads)
  {
    var pending := s.pool.pending[s.nextTask := v.place(s.nextTask)];
    LedgerSubmit(v, s.pool.pending, s.ready, heads, s.nextDelivery, s.nextTask);
    AddOne(s.pool.pending, s.nextTask, v.place(s.nextTask));
    s' := s.(pool := Pool(lanes, pending), nextTask := s.nextTask + 1, drawn := s.drawn + 1);
  }

  lemma ExecuteFrame(e: Iteration, v: View, s: System, heads: seq<nat>, w: nat, lane: Lane) returns (s': System)
    requires SystemAt(e, v, s, heads) && w < e.workers && v.fits(Stand(lane, w, heads[w], s.nextTask))
    ensures s' == s.(pool := s.pool.(lanes := s.pool.lanes[w := lane])) && SystemAt(e, v, s', heads)
  {
    LanesReplace(v, s.pool.lanes, heads, s.nextDelivery, s.nextTask, s.nextTask, w, lane, heads[w]);
    assert heads[w := heads[w]] == heads;
    s' := s.(pool := s.pool.(lanes := s.pool.lanes[w := lane]));
  }

  lemma ReceiveFrame(e: Iteration, v: View, s: System, heads: seq<nat>, w: nat, h: nat, lane: Lane, next: nat)
    returns (s': System, heads': seq<nat>)
    requires SystemAt(e, v, s, heads) && w < e.workers && v.fits(Stand(lane, w, next, s.nextTask))
    requires heads[w] == h && h < next && h < s.nextTask && v.place(h) == w
    requires forall t: nat | v.place(t) == w && t < next :: t <= h
    ensures h in s.pool.pending && s.pool.pending[h] == w && h !in s.ready
    ensures s' == s.(pool := Pool(s.pool.lanes[w := lane], s.pool.pending - {h}), ready := s.ready[h := v.due(h)])
    ensures heads' == heads[w := next] && SystemAt(e, v, s', heads')
  {
    LanesReplace(v, s.pool.lanes, heads, s.nextDelivery, s.nextTask, s.nextTask, w, lane, next);
    LedgerReceive(v, s.pool.pending, s.ready, heads, s.nextDelivery, s.nextTask, h, next);
    RemoveOne(s.pool.pending, h);
    s' := s.(pool := Pool(s.pool.lanes[w := lane], s.pool.pending - {h}), ready := s.ready[h := v.due(h)]);
    heads' := heads[w := next];
  }

  lemma DeliverFrame(e: Iteration, v: View, s: System, heads: seq<nat>) returns (s': System)
    requires SystemAt(e, v, s, heads) && s.nextDelivery in s.ready
    requires forall w | 0 <= w < |heads| && heads[w] == s.nextDelivery :: w == v.place(s.nextDelivery)
    ensures s.nextDelivery < s.nextTask && s.ready[s.nextDelivery] == v.due(s.nextDelivery)
    ensures s' == s.(ready := s.ready - {s.nextDelivery}, nextDelivery := s.nextDelivery + 1)
    ensures SystemAt(e, v, s', heads)
  {
    LedgerDeliver(v, s.pool.pending, s.ready, heads, s.nextDelivery, s.nextTask);
    RemoveOne(s.ready, s.nextDelivery);
    LanesPast(v, s.pool.lanes, heads, s.nextDelivery, s.nextTask);
    s' := s.(ready := s.ready - {s.nextDelivery}, nextDelivery := s.nextDelivery + 1);
  }

  lemma LanesPast(v: View, lanes: seq<Lane>, heads: seq<nat>, from: nat, to: nat)
    requires LanesAt(v, lanes, heads, from, to) && v.place(from) < |heads| && from < heads[v.place(from)]
    requires forall w | 0 <= w < |heads| && heads[w] == from :: w == v.place(from)
    ensures LanesAt(v, lanes, heads, from + 1, to)
  {
    forall w | 0 <= w < |heads|
      ensures from + 1 <= heads[w]
    {
    }
  }
}
