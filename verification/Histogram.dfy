/** The power-of-two latency histogram against exact nearest-rank percentiles of what it observed. */
module Histogram {
  import opened Words

  const BUCKETS := 65
  const MAX_U64: nat := TWO_64 - 1

  /** The bucket of a value: zero for zero, else its number of significant bits. */
  function Bucket(value: nat): nat {
    BitLength(value)
  }

  function UpperBound(index: nat): nat {
    Pow2(index) - 1
  }

  // ----- exact percentiles -----

  function CountIf(values: seq<nat>, keep: nat -> bool): nat {
    if values == [] then 0 else CountIf(values[..|values| - 1], keep) + if keep(values[|values| - 1]) then 1 else 0
  }

  /** Values at most `v`, and values below it. */
  function AtMost(values: seq<nat>, v: nat): nat {
    CountIf(values, (x: nat) => x <= v)
  }

  function Under(values: seq<nat>, v: nat): nat {
    CountIf(values, (x: nat) => x < v)
  }

  /** `q` is the value of rank `rank` in ascending order, counting from one. */
  ghost predicate OfRank(values: seq<nat>, rank: nat, q: nat) {
    q in values && Under(values, q) < rank <= AtMost(values, q)
  }

  lemma {:induction false} CountMonotone(values: seq<nat>, p: nat -> bool, q: nat -> bool)
    requires forall x | x in values :: p(x) ==> q(x)
    ensures CountIf(values, p) <= CountIf(values, q) <= |values|
  {
    if values != [] { CountMonotone(values[..|values| - 1], p, q); }
  }

  /** There is only one value of a rank. */
  lemma RankUnique(values: seq<nat>, rank: nat, a: nat, b: nat)
    requires OfRank(values, rank, a) && OfRank(values, rank, b)
    ensures a == b
  {
    if a < b { CountMonotone(values, (x: nat) => x <= a, (x: nat) => x < b); }
    if b < a { CountMonotone(values, (x: nat) => x <= b, (x: nat) => x < a); }
  }

  /** The smallest of the values that at least `rank` values are at most. */
  lemma {:induction false} RankExists(values: seq<nat>, rank: nat, v: nat) returns (q: nat)
    requires 0 < rank <= AtMost(values, v)
    ensures OfRank(values, rank, q)
    decreases v
  {
    if rank <= Under(values, v) {
      assert v > 0 by { NoneUnder(values); }
      CountMonotone(values, (x: nat) => x < v, (x: nat) => x <= v - 1);
      q := RankExists(values, rank, v - 1);
    } else {
      q := v;
      if v !in values { CountMonotone(values, (x: nat) => x <= v, (x: nat) => x < v); }
    }
  }

  lemma {:induction false} NoneUnder(values: seq<nat>)
    ensures Under(values, 0) == 0
  {
    if values != [] { NoneUnder(values[..|values| - 1]); }
  }

  // ----- buckets -----

  lemma BucketMonotone(a: nat, b: nat)
    requires a <= b
    ensures Bucket(a) <= Bucket(b)
  {
    BitLengthBounds(b);
    BitLengthBelow(a, Bucket(b));
  }

  /** A value lies below its bucket's bound, and above half of it. */
  lemma BucketBounds(v: nat)
    ensures v <= UpperBound(Bucket(v)) && (v == 0 <==> Bucket(v) == 0) && (v == 0 <==> UpperBound(Bucket(v)) == 0)
    ensures v > 0 ==> UpperBound(Bucket(v)) < 2 * v
  {
    BitLengthBounds(v);
  }

  lemma BucketOfWord(v: nat)
    requires v < TWO_64
    ensures Bucket(v) < BUCKETS
  {
    Pow2Literals();
    BitLengthBelow(v, 64);
  }

  function CountAt(values: seq<nat>, b: nat): nat {
    CountIf(values, (x: nat) => Bucket(x) == b)
  }

  /** Values in buckets below `n`. */
  function InFirst(values: seq<nat>, n: nat): nat {
    CountIf(values, (x: nat) => Bucket(x) < n)
  }

  lemma {:induction false} InFirstNext(values: seq<nat>, n: nat)
    ensures InFirst(values, n + 1) == InFirst(values, n) + CountAt(values, n)
  {
    if values != [] { InFirstNext(values[..|values| - 1], n); }
  }

  lemma {:induction false} InFirstAll(values: seq<nat>)
    requires forall i | 0 <= i < |values| :: values[i] < TWO_64
    ensures InFirst(values, BUCKETS) == |values| && InFirst(values, 0) == 0
  {
    if values != [] {
      InFirstAll(values[..|values| - 1]);
      BucketOfWord(values[|values| - 1]);
    }
  }

  /** The first bucket whose cumulative count reaches the rank is the bucket of the value of that rank. */
  lemma RankBucket(values: seq<nat>, rank: nat, q: nat, b: nat)
    requires OfRank(values, rank, q) && InFirst(values, b) < rank <= InFirst(values, b + 1)
    ensures Bucket(q) == b
  {
    if b < Bucket(q) {
      forall x | x in values && Bucket(x) < b + 1
        ensures x < q
      {
        if q <= x { BucketMonotone(q, x); }
      }
      CountMonotone(values, (x: nat) => Bucket(x) < b + 1, (x: nat) => x < q);
    }
    if Bucket(q) < b {
      forall x | x in values && x <= q
        ensures Bucket(x) < b
      {
        BucketMonotone(x, q);
      }
      CountMonotone(values, (x: nat) => x <= q, (x: nat) => Bucket(x) < b);
    }
  }

  // ----- the histogram -----

  function SaturatingMul(a: nat, b: nat): nat {
    if a * b > MAX_U64 then MAX_U64 else a * b
  }

  function CeilDiv(a: nat, m: nat): nat
    requires m > 0
  {
    (a + m - 1) / m
  }

  /** The nearest rank of a percentile among `total` values. */
  function Rank(total: nat, percent: nat): nat {
    CeilDiv(SaturatingMul(total, percent), 100)
  }

  lemma RankInRange(total: nat, percent: nat)
    requires 0 < total && 0 < percent <= 100 && total * percent <= MAX_U64
    ensures 0 < Rank(total, percent) <= total
    ensures 100 * (Rank(total, percent) - 1) < total * percent <= 100 * Rank(total, percent)
  {
    var n := total * percent;
    assert 0 < n by { MulPositive(total, percent); }
    assert n <= 100 * total by { MulMonotone(percent, 100, total); }
  }

  lemma RankMonotone(total: nat, p: nat, q: nat)
    requires p <= q
    ensures Rank(total, p) <= Rank(total, q)
  {
    MulMonotone(p, q, total);
  }

  lemma TotalFits(total: nat, percent: nat)
    requires percent > 0 && total * percent <= MAX_U64
    ensures total <= MAX_U64
  {
    MulMonotone(1, percent, total);
  }

  lemma PercentFits(total: nat, percent: nat)
    requires percent <= 99 && total * 99 <= MAX_U64
    ensures total * percent <= MAX_U64
  {
    MulMonotone(percent, 99, total);
  }

  /** Higher percentiles are reported no lower. */
  lemma PercentileOrder(values: seq<nat>, p: nat, q: nat, a: nat, b: nat)
    requires p <= q && OfRank(values, Rank(|values|, p), a) && OfRank(values, Rank(|values|, q), b)
    ensures a <= b && UpperBound(Bucket(a)) <= UpperBound(Bucket(b))
  {
    RankMonotone(|values|, p, q);
    if b < a { CountMonotone(values, (x: nat) => x <= b, (x: nat) => x < a); }
    BucketMonotone(a, b);
    Pow2Monotone(Bucket(a), Bucket(b));
  }

  /** `bound` is at least the exact percentile, zero exactly when it is, and otherwise below twice it. */
  ghost predicate Reported(values: seq<nat>, percent: nat, bound: nat) {
    exists q: nat ::
      OfRank(values, Rank(|values|, percent), q) && q <= bound && (bound == 0 <==> q == 0) && (q > 0 ==> bound < 2 * q)
  }

  lemma WrappedCount(c: nat)
    ensures (c % TWO_64 + 1) % TWO_64 == (c + 1) % TWO_64
  {
  }

  lemma CountedOne(values: seq<nat>, v: nat)
    ensures forall b: nat :: CountAt(values + [v], b) == CountAt(values, b) + if Bucket(v) == b then 1 else 0
  {
    assert (values + [v])[..|values|] == values;
  }

  /** No bucket's count exceeds the number of values, so none has wrapped. */
  lemma CountFits(values: seq<nat>, b: nat)
    requires |values| <= MAX_U64
    ensures CountAt(values, b) % TWO_64 == CountAt(values, b)
  {
    CountMonotone(values, (x: nat) => Bucket(x) == b, (x: nat) => true);
  }

  /** The rank of a percentile is within the values, so there is a value of that rank and the counters reach it. */
  lemma PercentileExists(values: seq<nat>, percent: nat) returns (q: nat)
    requires values != [] && 0 < percent <= 100 && |values| * percent <= MAX_U64
    requires forall i | 0 <= i < |values| :: values[i] < TWO_64
    ensures OfRank(values, Rank(|values|, percent), q)
    ensures 0 == InFirst(values, 0) < Rank(|values|, percent) <= InFirst(values, BUCKETS)
  {
    RankInRange(|values|, percent);
    InFirstAll(values);
    CountEvery(values);
    CountMonotone(values, (x: nat) => true, (x: nat) => x <= MAX_U64);
    q := RankExists(values, Rank(|values|, percent), MAX_U64);
  }

  class LatencyHistogram {
    const counts: array<nat>
    /** Everything observed since the last reset, in order. */
    ghost var observed: seq<nat>

    /** Counters are 64-bit words: each holds its bucket's count modulo 2 to the 64. */
    ghost predicate Valid()
      reads this, counts
    {
      && counts.Length == BUCKETS && (forall i | 0 <= i < |observed| :: observed[i] < TWO_64)
      && (forall b | 0 <= b < BUCKETS :: counts[b] == CountAt(observed, b) % TWO_64)
    }

    constructor ()
      ensures Valid() && observed == [] && fresh(counts)
    {
      counts := new nat[BUCKETS](i => 0);
      observed := [];
    }

    /** Count one value in its bucket. */
    method Observe(value: u64)
      requires Valid()
      modifies this, counts
      ensures Valid() && observed == old(observed) + [value]
    {
      BucketOfWord(value);
      var b := Bucket(value);
      WrappedCount(CountAt(observed, b));
      counts[b] := (counts[b] + 1) % TWO_64;
      observed := observed + [value];
      CountedOne(old(observed), value);
    }

    method Reset()
      requires Valid()
      modifies this, counts
      ensures Valid() && observed == []
    {
      for i := 0 to BUCKETS
        modifies counts
        invariant forall b | 0 <= b < i :: counts[b] == 0
      {
        counts[i] := 0;
      }
      observed := [];
    }

    /** The bound reported for one percentile. For values whose number times the percent fits a word: it is the bound of
        the bucket that holds the exact nearest-rank value `q`, so never below `q`, zero exactly for zero and otherwise
        less than twice `q`; the counters never run out before the rank is reached. */
    method Percentile(percent: nat) returns (bound: nat, ghost q: nat)
      requires Valid() && 0 < percent <= 100 && |observed| * percent <= MAX_U64
      ensures observed == [] ==> bound == 0
      ensures observed != [] ==>
                && OfRank(observed, Rank(|observed|, percent), q) && bound == UpperBound(Bucket(q))
                && q <= bound && (bound == 0 <==> q == 0) && (q > 0 ==> bound < 2 * q)
    {
      q := 0;
      TotalFits(|observed|, percent);
      var total := Total();
      if total == 0 {
        return 0, q;
      }
      var target := Rank(total, percent);
      q := PercentileExists(observed, percent);
      var cumulative := 0;
      for index := 0 to BUCKETS
        invariant cumulative == InFirst(observed, index) < target
      {
        InFirstNext(observed, index);
        CountFits(observed, index);
        cumulative := cumulative + counts[index];
        if cumulative >= target {
          RankBucket(observed, target, q, index);
          BucketBounds(q);
          return UpperBound(index), q;
        }
      }
      assert false;
      bound := MAX_U64;
    }

    /** The reported percentiles: each as above, and in order. */
    method Percentiles() returns (p50: nat, p95: nat, p99: nat)
      requires Valid() && |observed| * 99 <= MAX_U64
      ensures p50 <= p95 <= p99
      ensures observed == [] ==> p50 == p95 == p99 == 0
      ensures observed != [] ==>
                && Reported(observed, 50, p50) && Reported(observed, 95, p95) && Reported(observed, 99, p99)
    {
      PercentFits(|observed|, 50);
      PercentFits(|observed|, 95);
      ghost var a, b, c;
      p50, a := Percentile(50);
      p95, b := Percentile(95);
      p99, c := Percentile(99);
      if |observed| > 0 {
        PercentileOrder(observed, 50, 95, a, b);
        PercentileOrder(observed, 95, 99, b, c);
      }
    }

    /** How many values were observed, as the sum of the counters. */
    method Total() returns (total: nat)
      requires Valid() && |observed| <= MAX_U64
      ensures total == |observed|
    {
      InFirstAll(observed);
      total := 0;
      for index := 0 to BUCKETS
        invariant total == InFirst(observed, index)
      {
        InFirstNext(observed, index);
        CountFits(observed, index);
        total := total + counts[index];
      }
    }
  }

  lemma {:induction false} CountEvery(values: seq<nat>)
    ensures CountIf(values, (x: nat) => true) == |values|
  {
    if values != [] { CountEvery(values[..|values| - 1]); }
  }
}
