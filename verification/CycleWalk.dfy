/** Cycle walking: restricting a bijection of [0, size) to a bijection of a smaller domain [0, domain)
    by iterating it until it lands back inside. */
module CycleWalk {
  import opened Intervals

  /** `d` undoes `c` on both sides over [0, size). */
  ghost predicate Inverses(c: nat -> nat, d: nat -> nat, size: nat) {
    && (forall x: nat | x < size :: c(x) < size && d(c(x)) == x)
    && (forall x: nat | x < size :: d(x) < size && c(d(x)) == x)
  }

  function Iterate(c: nat -> nat, k: nat, x: nat): nat {
    if k == 0 then x else c(Iterate(c, k - 1, x))
  }

  lemma {:induction false} IterateBelow(c: nat -> nat, d: nat -> nat, size: nat, k: nat, x: nat)
    requires Inverses(c, d, size) && x < size
    ensures Iterate(c, k, x) < size
  {
    if k > 0 { IterateBelow(c, d, size, k - 1, x); }
  }

  lemma {:induction false} IterateAdd(c: nat -> nat, j: nat, k: nat, x: nat)
    ensures Iterate(c, j + k, x) == Iterate(c, j, Iterate(c, k, x))
  {
    if j > 0 { IterateAdd(c, j - 1, k, x); }
  }

  /** Going `k` steps forward and `k` steps back returns to the start. */
  lemma {:induction false} IterateUndo(c: nat -> nat, d: nat -> nat, size: nat, k: nat, x: nat)
    requires Inverses(c, d, size) && x < size
    ensures Iterate(d, k, Iterate(c, k, x)) == x
  {
    if k > 0 {
      IterateBelow(c, d, size, k - 1, x);
      var y := Iterate(c, k - 1, x);
      IterateAdd(d, k - 1, 1, c(y));
      assert Iterate(d, 1, c(y)) == d(Iterate(d, 0, c(y))) == y;
      IterateUndo(c, d, size, k - 1, x);
    }
  }

  /** Going `k` forward and then `j <= k` back leaves `k - j` steps forward. */
  lemma IteratePartialUndo(c: nat -> nat, d: nat -> nat, size: nat, k: nat, j: nat, x: nat)
    requires Inverses(c, d, size) && x < size && j <= k
    ensures Iterate(d, j, Iterate(c, k, x)) == Iterate(c, k - j, x)
  {
    IterateAdd(c, j, k - j, x);
    IterateBelow(c, d, size, k - j, x);
    IterateUndo(c, d, size, j, Iterate(c, k - j, x));
  }

  /** Steps 1 to `k` of the walk from `x` all miss the domain. */
  ghost predicate Outside(c: nat -> nat, domain: nat, k: nat, x: nat) {
    forall i: nat | 1 <= i <= k :: Iterate(c, i, x) >= domain
  }

  /** The walk from `x` first re-enters the domain after exactly `k` steps. */
  ghost predicate ReturnsAt(c: nat -> nat, domain: nat, k: nat, x: nat) {
    k >= 1 && Outside(c, domain, k - 1, x) && Iterate(c, k, x) < domain
  }

  /** Two different steps outside the domain never visit the same value: undoing the smaller one would
      put a later step of the same walk on `x` itself, which is inside. */
  lemma StepsDistinct(c: nat -> nat, d: nat -> nat, size: nat, domain: nat, k: nat, x: nat, i: nat, j: nat)
    requires Inverses(c, d, size) && domain <= size && x < domain
    requires Outside(c, domain, k, x) && 1 <= i < j <= k
    ensures Iterate(c, i, x) != Iterate(c, j, x)
  {
    IteratePartialUndo(c, d, size, i, i, x);
    IteratePartialUndo(c, d, size, j, i, x);
    assert Iterate(c, j - i, x) >= domain;
  }

  /** The values met by the first `m` steps of the walk. */
  ghost function Visited(c: nat -> nat, m: nat, x: nat): set<nat> {
    if m == 0 then {} else Visited(c, m - 1, x) + {Iterate(c, m, x)}
  }

  lemma {:induction false} NotRevisited(c: nat -> nat, d: nat -> nat, size: nat, domain: nat, k: nat, x: nat, m: nat,
                                        j: nat)
    requires Inverses(c, d, size) && domain <= size && x < domain && Outside(c, domain, k, x)
    requires m < j <= k
    ensures Iterate(c, j, x) !in Visited(c, m, x)
  {
    if m > 0 {
      NotRevisited(c, d, size, domain, k, x, m - 1, j);
      StepsDistinct(c, d, size, domain, k, x, m, j);
    }
  }

  lemma {:induction false} VisitedOutside(c: nat -> nat, d: nat -> nat, size: nat, domain: nat, k: nat, x: nat, m: nat)
    requires Inverses(c, d, size) && domain <= size && x < domain && Outside(c, domain, k, x) && m <= k
    ensures |Visited(c, m, x)| == m && Visited(c, m, x) <= Interval(domain, size)
  {
    if m > 0 {
      VisitedOutside(c, d, size, domain, k, x, m - 1);
      NotRevisited(c, d, size, domain, k, x, m - 1, m);
      IterateBelow(c, d, size, m, x);
      assert Iterate(c, m, x) >= domain;
    }
  }

  /** Pigeonhole: a walk can miss the domain at most `size - domain` times in a row. */
  lemma WalkBound(c: nat -> nat, d: nat -> nat, size: nat, domain: nat, k: nat, x: nat)
    requires Inverses(c, d, size) && domain <= size && x < domain && Outside(c, domain, k, x)
    ensures k <= size - domain
  {
    VisitedOutside(c, d, size, domain, k, x, k);
    SubsetSize(Visited(c, k, x), Interval(domain, size));
  }

  /** Number of applications of `c` before the walk from `x` re-enters the domain. */
  ghost function ReturnTime(c: nat -> nat, d: nat -> nat, size: nat, domain: nat, k: nat, x: nat): (r: nat)
    requires Inverses(c, d, size) && domain <= size && x < domain && Outside(c, domain, k, x)
    ensures ReturnsAt(c, domain, r, x) && k < r <= size - domain + 1
    decreases size - domain - k
  {
    WalkBound(c, d, size, domain, k, x);
    if Iterate(c, k + 1, x) < domain then k + 1
    else ReturnTime(c, d, size, domain, k + 1, x)
  }

  /** The value at which the walk from `x` re-enters the domain. */
  ghost function Walk(c: nat -> nat, d: nat -> nat, size: nat, domain: nat, x: nat): (y: nat)
    requires Inverses(c, d, size) && domain <= size && x < domain
    ensures y < domain
  {
    Iterate(c, ReturnTime(c, d, size, domain, 0, x), x)
  }

  lemma ReturnTimeUnique(c: nat -> nat, domain: nat, k: nat, m: nat, x: nat)
    requires ReturnsAt(c, domain, k, x) && ReturnsAt(c, domain, m, x)
    ensures k == m
  {
    assert k < m ==> Iterate(c, k, x) >= domain;
    assert m < k ==> Iterate(c, m, x) >= domain;
  }

  /** One more application either stays outside the domain or ends the walk. */
  lemma WalkStep(c: nat -> nat, d: nat -> nat, size: nat, domain: nat, k: nat, x: nat)
    requires Inverses(c, d, size) && domain <= size && x < domain && Outside(c, domain, k, x)
    ensures k <= size - domain && Iterate(c, k, x) < size
    ensures var next := c(Iterate(c, k, x));
            && next == Iterate(c, k + 1, x)
            && (next >= domain ==> Outside(c, domain, k + 1, x))
            && (next < domain ==> next == Walk(c, d, size, domain, x))
  {
    WalkBound(c, d, size, domain, k, x);
    IterateBelow(c, d, size, k, x);
    if Iterate(c, k + 1, x) < domain {
      ReturnTimeUnique(c, domain, k + 1, ReturnTime(c, d, size, domain, 0, x), x);
    }
  }

  /** Walking back with the inverse undoes the walk, so the walk is a bijection on [0, domain). */
  lemma WalkInvertible(c: nat -> nat, d: nat -> nat, size: nat, domain: nat, x: nat)
    requires Inverses(c, d, size) && Inverses(d, c, size) && domain <= size && x < domain
    ensures Walk(d, c, size, domain, Walk(c, d, size, domain, x)) == x
  {
    var k := ReturnTime(c, d, size, domain, 0, x);
    var y := Iterate(c, k, x);
    forall i: nat | 1 <= i <= k - 1 ensures Iterate(d, i, y) >= domain {
      IteratePartialUndo(c, d, size, k, i, x);
    }
    IteratePartialUndo(c, d, size, k, k, x);
    ReturnTimeUnique(d, domain, ReturnTime(d, c, size, domain, 0, y), k, y);
  }
}
