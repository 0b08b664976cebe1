/** Sequences of sampler positions: ranges, mapping and counting. */
module Positions {
  import opened Words

  function Range(lo: nat, hi: nat): (s: seq<nat>)
    requires lo <= hi
    ensures |s| == hi - lo && forall i | 0 <= i < |s| :: s[i] == lo + i
    decreases hi - lo
  {
    if lo == hi then [] else Range(lo, hi - 1) + [hi - 1]
  }

  lemma RangeSplit(lo: nat, mid: nat, hi: nat)
    requires lo <= mid <= hi
    ensures Range(lo, hi) == Range(lo, mid) + Range(mid, hi)
  {
  }

  /** Occurrences of `p` in `s`. */
  function Count(s: seq<nat>, p: nat): nat {
    if s == [] then 0 else Count(s[..|s| - 1], p) + if s[|s| - 1] == p then 1 else 0
  }

  lemma {:induction false} CountConcat(a: seq<nat>, b: seq<nat>, p: nat)
    ensures Count(a + b, p) == Count(a, p) + Count(b, p)
    decreases |b|
  {
    if b == [] {
      assert a + b == a;
    } else {
      assert (a + b)[..|a + b| - 1] == a + b[..|b| - 1];
      CountConcat(a, b[..|b| - 1], p);
    }
  }

  /** A measure of sequences that adds up over concatenation, such as the count of one value. */
  ghost predicate Additive(m: seq<nat> -> nat) {
    && m([]) == 0
    && forall a: seq<nat>, b: seq<nat> {:trigger m(a + b)} :: m(a + b) == m(a) + m(b)
  }

  function CountsOf(p: nat): seq<nat> -> nat {
    s => Count(s, p)
  }

  lemma CountAdditive(p: nat)
    ensures Additive(CountsOf(p))
  {
    forall a: seq<nat>, b: seq<nat> ensures CountsOf(p)(a + b) == CountsOf(p)(a) + CountsOf(p)(b) {
      CountConcat(a, b, p);
    }
  }

  lemma {:induction false} CountRange(lo: nat, hi: nat, p: nat)
    requires lo <= hi
    ensures Count(Range(lo, hi), p) == if lo <= p < hi then 1 else 0
    decreases hi - lo
  {
    if lo < hi {
      CountRange(lo, hi - 1, p);
      assert Range(lo, hi)[..hi - lo - 1] == Range(lo, hi - 1);
    }
  }

  lemma {:induction false} CountIsMultiplicity(s: seq<nat>, p: nat)
    ensures multiset(s)[p] == Count(s, p)
    decreases |s|
  {
    if s != [] {
      CountIsMultiplicity(s[..|s| - 1], p);
      assert s == s[..|s| - 1] + [s[|s| - 1]];
    }
  }

  /** Equal counts everywhere mean equal contents. */
  lemma SameCounts(a: seq<nat>, b: seq<nat>)
    requires forall p: nat :: Count(a, p) == Count(b, p)
    ensures multiset(a) == multiset(b)
  {
    forall p: nat ensures multiset(a)[p] == multiset(b)[p] {
      CountIsMultiplicity(a, p);
      CountIsMultiplicity(b, p);
    }
  }

  function Map<S, T>(f: S -> T, s: seq<S>): (t: seq<T>)
    ensures |t| == |s| && forall i | 0 <= i < |s| :: t[i] == f(s[i])
  {
    seq(|s|, i requires 0 <= i < |s| => f(s[i]))
  }

  lemma MapConcat<S, T>(f: S -> T, a: seq<S>, b: seq<S>)
    ensures Map(f, a + b) == Map(f, a) + Map(f, b)
  {
  }

  function Without<S>(s: seq<S>, k: nat): seq<S>
    requires k < |s|
  {
    s[..k] + s[k + 1..]
  }

  lemma WithoutMultiset<S>(s: seq<S>, k: nat)
    requires k < |s|
    ensures multiset(s) == multiset{s[k]} + multiset(Without(s, k))
  {
    assert s == s[..k] + [s[k]] + s[k + 1..];
  }

  lemma MapWithout<S, T>(f: S -> T, s: seq<S>, k: nat)
    requires k < |s|
    ensures Map(f, Without(s, k)) == Without(Map(f, s), k)
  {
  }

  /** Mapping depends on a sequence's elements only, not on their order. */
  lemma {:induction false} MapMultiset<S, T>(f: S -> T, a: seq<S>, b: seq<S>)
    requires multiset(a) == multiset(b)
    ensures multiset(Map(f, a)) == multiset(Map(f, b))
    decreases |a|
  {
    if a == [] {
      assert |multiset(b)| == 0;
    } else {
      assert a[0] in multiset(a);
      var k := Find(b, a[0]);
      WithoutMultiset(a, 0);
      WithoutMultiset(b, k);
      assert multiset(Without(a, 0)) == multiset(a) - multiset{a[0]} == multiset(Without(b, k));
      MapMultiset(f, Without(a, 0), Without(b, k));
      MapWithout(f, a, 0);
      MapWithout(f, b, k);
      WithoutMultiset(Map(f, a), 0);
      WithoutMultiset(Map(f, b), k);
    }
  }

  lemma Find<S>(s: seq<S>, x: S) returns (k: nat)
    requires x in multiset(s)
    ensures k < |s| && s[k] == x
  {
    k :| k < |s| && s[k] == x;
  }

  /** How often a residue class modulo `n` meets [0, count). */
  function ResidueShare(count: nat, n: nat, q: nat): nat
    requires n > 0
  {
    count / n + if q < count % n then 1 else 0
  }

  lemma ResidueShareStep(count: nat, n: nat, q: nat)
    requires q < n
    ensures ResidueShare(count + 1, n, q) == ResidueShare(count, n, q) + if count % n == q then 1 else 0
  {
    var d, m := DivMod(count, n);
    if m + 1 == n {
      MulAdd(d, 1, n);
      DivModUnique(count + 1, n, d + 1, 0);
    } else {
      DivModUnique(count + 1, n, d, m + 1);
    }
  }

  /** If `f` takes the value `i` exactly on one residue class, it takes it on [0, count) as often as the
      class meets that range. */
  lemma {:induction false} CountOnRange(f: nat -> nat, n: nat, q: nat, i: nat, count: nat)
    requires q < n && forall p: nat :: f(p) == i <==> p % n == q
    ensures multiset(Map<nat, nat>(f, Range(0, count)))[i] == ResidueShare(count, n, q)
  {
    if count == 0 {
      assert Map<nat, nat>(f, Range(0, 0)) == [];
      DivModUnique(0, n, 0, 0);
    } else {
      CountOnRange(f, n, q, i, count - 1);
      CountNext(f, count - 1, i);
      ResidueShareStep(count - 1, n, q);
    }
  }

  lemma CountNext(f: nat -> nat, last: nat, i: nat)
    ensures multiset(Map<nat, nat>(f, Range(0, last + 1)))[i]
         == multiset(Map<nat, nat>(f, Range(0, last)))[i] + if f(last) == i then 1 else 0
  {
    assert Map<nat, nat>(f, Range(0, last + 1)) == Map<nat, nat>(f, Range(0, last)) + [f(last)];
    CountSnoc(Map<nat, nat>(f, Range(0, last)), f(last), i);
  }

  lemma CountSnoc(s: seq<nat>, x: nat, i: nat)
    ensures multiset(s + [x])[i] == multiset(s)[i] + if x == i then 1 else 0
  {
    assert multiset(s + [x]) == multiset(s) + multiset([x]);
  }
}
