/** Worker lanes: which lane runs which fetch unit, and what every unit must produce. */
module Lanes {
  import opened Words

  /** Pickled indices, serialized RNG states and collated values are all opaque byte strings. */
  type Bytes = seq<bv8>

  /** A lane fetches one unit from its RNG state, giving a value and its next state. */
  datatype Request = Request(payload: Bytes, state: Bytes)
  datatype Reply = Reply(value: Bytes, state: Bytes)

  /** One batch with the worker restore point taken before its fetch. */
  datatype TaggedBatch = TaggedBatch(batch: nat, worker: nat, seed: int, value: Bytes, state: Bytes)

  /** One iteration of a map-style loader: the sampler's units, the lanes' start states and where it starts. */
  datatype Iteration = Iteration(units: seq<Bytes>, workers: nat, prefetch: nat, inOrder: bool, fetch: Request -> Reply,
                                 start: nat, phase: nat, baseSeed: int, initial: seq<Bytes>) {
    ghost predicate Valid() {
      workers > 0 && prefetch > 0 && |initial| == workers && start <= |units| && phase == LaneOf(workers, start)
    }

    /** Most units admitted and not yet delivered: the lanes times the prefetch factor. */
    function Limit(): nat {
      Times(prefetch, workers)
    }
  }

  // ----- lane arithmetic -----

  /** The lane that task `t` belongs to: its remainder by the number of lanes, by repeated subtraction. */
  function LaneOf(n: nat, t: nat): (w: nat)
    requires n > 0
    ensures w < n
    decreases t
  {
    if t < n then t else LaneOf(n, t - n)
  }

  lemma {:induction false} LaneOfIsMod(n: nat, t: nat)
    requires n > 0
    ensures LaneOf(n, t) == t % n
    decreases t
  {
    if t < n {
      DivModUnique(t, n, 0, t);
    } else {
      LaneOfIsMod(n, t - n);
      var q, r := DivMod(t - n, n);
      MulAdd(q, 1, n);
      DivModUnique(t, n, q + 1, r);
    }
  }

  /** Counting on from a task is counting on from its lane. */
  lemma {:induction false} LaneOfShift(n: nat, t: nat, k: nat)
    requires n > 0
    ensures LaneOf(n, LaneOf(n, t) + k) == LaneOf(n, t + k)
    decreases t
  {
    if n <= t { LaneOfShift(n, t - n, k); }
  }

  /** Whole rounds of `n` lanes in `t`: the integer quotient, by repeated subtraction. */
  function Rounds(n: nat, t: nat): nat
    requires n > 0
    decreases t
  {
    if t < n then 0 else 1 + Rounds(n, t - n)
  }

  lemma {:induction false} RoundsIsDiv(n: nat, t: nat)
    requires n > 0
    ensures Rounds(n, t) == t / n
    decreases t
  {
    if t < n {
      DivModUnique(t, n, 0, t);
    } else {
      RoundsIsDiv(n, t - n);
      var q, r := DivMod(t - n, n);
      MulAdd(q, 1, n);
      DivModUnique(t, n, q + 1, r);
    }
  }

  /** Tasks of one lane are at least `n` apart. */
  lemma {:induction false} LaneGap(n: nat, a: nat, b: nat)
    requires n > 0 && a < b && LaneOf(n, a) == LaneOf(n, b)
    ensures a + n <= b
    decreases b
  {
    if n <= a { LaneGap(n, a - n, b - n); }
  }

  /** The first task at or after `x` that belongs to lane `w`. */
  function FirstOn(n: nat, x: nat, w: nat): nat
    requires w < n
  {
    var own := LaneOf(n, x);
    if own <= w then x + (w - own) else x + (n - own) + w
  }

  lemma {:induction false} FirstOnRange(n: nat, x: nat, w: nat)
    requires w < n
    ensures x <= FirstOn(n, x, w) < x + n && LaneOf(n, FirstOn(n, x, w)) == w
    decreases x
  {
    if n <= x { FirstOnRange(n, x - n, w); }
  }

  lemma FirstOnUnique(n: nat, x: nat, w: nat, t: nat)
    requires w < n && x <= t < x + n && LaneOf(n, t) == w
    ensures t == FirstOn(n, x, w)
  {
    FirstOnRange(n, x, w);
    if t < FirstOn(n, x, w) { LaneGap(n, t, FirstOn(n, x, w)); }
    if FirstOn(n, x, w) < t { LaneGap(n, FirstOn(n, x, w), t); }
  }

  /** Moving past `x` moves only the lane that owns `x`, by one round. */
  lemma FirstOnNext(n: nat, x: nat, w: nat)
    requires w < n
    ensures FirstOn(n, x + 1, w) == if LaneOf(n, x) == w then x + n else FirstOn(n, x, w)
    ensures LaneOf(n, x) == w ==> FirstOn(n, x, w) == x
  {
    FirstOnRange(n, x, w);
    if LaneOf(n, x) == w {
      FirstOnUnique(n, x + 1, w, x + n);
      FirstOnUnique(n, x, w, x);
    } else {
      FirstOnUnique(n, x + 1, w, FirstOn(n, x, w));
    }
  }

  // ----- what every unit must produce -----

  /** The RNG state of task `t`'s lane just before it fetches task `t`: the lane's start state advanced by its
      earlier tasks of this iteration. */
  function Before(e: Iteration, t: nat): Bytes
    requires e.workers > 0 && |e.initial| == e.workers && t < |e.units| + e.workers
  {
    if t < e.start + e.workers then e.initial[LaneOf(e.workers, t)]
    else e.fetch(Request(e.units[t - e.workers], Before(e, t - e.workers))).state
  }

  /** The batch that task `t` delivers: its own unit, fetched on its own lane from that lane's state. */
  function Expected(e: Iteration, t: nat): TaggedBatch
    requires e.workers > 0 && |e.initial| == e.workers && t < |e.units|
  {
    var before := Before(e, t);
    TaggedBatch(t, LaneOf(e.workers, t), e.baseSeed + LaneOf(e.workers, t), e.fetch(Request(e.units[t], before)).value,
                before)
  }

  /** Fetching task `t` leaves its lane in the state from which the lane's next task starts. */
  lemma BeforeNext(e: Iteration, t: nat)
    requires e.Valid() && e.start <= t < |e.units|
    ensures Before(e, t + e.workers) == e.fetch(Request(e.units[t], Before(e, t))).state
  {
  }
}
