/** Samplers that draw while they run: a pull may read and move the loader's generator, so a resumed sampler goes on as
    the interrupted one only if it and the generator stand where they stood together. */
module SamplerResume {
  import opened Words
  import opened Outcomes
  import opened Lanes

  /** What a pull reads: the sampler's own state and the generator it shares with the loader. */
  datatype Pulling = Pulling(state: Bytes, generator: Bytes)
  datatype Pulled = Pulled(unit: Bytes, state: Bytes, generator: Bytes)

  /** A sampler of `length` units. Each pull gives a unit; the pull after the last finds the end, and may still move
      the generator; after that nothing happens. */
  datatype Sampler = Sampler(length: nat, begin: Bytes, pull: Pulling -> Pulled)

  /** Where a sampler stands: the pulls made, its state, and the generator. */
  datatype Place = Place(pulls: nat, state: Bytes, generator: Bytes)

  function Start(s: Sampler, generator: Bytes): Place {
    Place(0, s.begin, generator)
  }

  function Pull(s: Sampler, p: Place): Place {
    if p.pulls > s.length then p
    else
      var r := s.pull(Pulling(p.state, p.generator));
      Place(p.pulls + 1, r.state, r.generator)
  }

  function UnitAt(s: Sampler, p: Place): Bytes {
    s.pull(Pulling(p.state, p.generator)).unit
  }

  function After(s: Sampler, p: Place, k: nat): Place {
    if k == 0 then p else Pull(s, After(s, p, k - 1))
  }

  /** The units still to come. */
  function Rest(s: Sampler, p: Place): seq<Bytes>
    decreases s.length - p.pulls
  {
    if p.pulls >= s.length then [] else [UnitAt(s, p)] + Rest(s, Pull(s, p))
  }

  /** The first `k` units from a place. */
  function Units(s: Sampler, p: Place, k: nat): seq<Bytes> {
    if k == 0 then [] else Units(s, p, k - 1) + [UnitAt(s, After(s, p, k - 1))]
  }

  /** The generator once the end has been found. */
  function EndGenerator(s: Sampler, p: Place): Bytes
    decreases s.length + 1 - p.pulls
  {
    if p.pulls > s.length then p.generator else EndGenerator(s, Pull(s, p))
  }

  /** A sampler rebuilt with `q` pulls from where the interrupted one began, the generator then put back to where it
      stood at the capture, `p` pulls on. */
  function Rebuilt(s: Sampler, generator: Bytes, p: nat, q: nat): Place {
    After(s, Start(s, generator), q).(generator := After(s, Start(s, generator), p).generator)
  }

  /** The units a rebuilt sampler gives in all: those pulled while rebuilding, then those from the restored place. */
  function ResumedUnits(s: Sampler, generator: Bytes, p: nat, q: nat): seq<Bytes> {
    Units(s, Start(s, generator), if q < s.length then q else s.length) + Rest(s, Rebuilt(s, generator, p, q))
  }

  lemma {:induction false} AfterPulls(s: Sampler, generator: Bytes, k: nat)
    ensures After(s, Start(s, generator), k).pulls == if k <= s.length then k else s.length + 1
  {
    if k > 0 { AfterPulls(s, generator, k - 1); }
  }

  /** Pulling one by one gives the units to come. */
  lemma {:induction false} UnitsThenRest(s: Sampler, generator: Bytes, k: nat)
    requires k <= s.length
    ensures Units(s, Start(s, generator), k) + Rest(s, After(s, Start(s, generator), k)) == Rest(s, Start(s, generator))
    ensures |Units(s, Start(s, generator), k)| == k
  {
    var p := Start(s, generator);
    if k > 0 {
      UnitsThenRest(s, generator, k - 1);
      AfterPulls(s, generator, k - 1);
      var at := After(s, p, k - 1);
      assert Units(s, p, k) + Rest(s, After(s, p, k)) == Units(s, p, k - 1) + ([UnitAt(s, at)] + Rest(s, Pull(s, at)));
    } else {
      assert Units(s, p, 0) + Rest(s, p) == Rest(s, p);
    }
  }

  lemma {:induction false} RestLength(s: Sampler, p: Place)
    ensures |Rest(s, p)| == if p.pulls < s.length then s.length - p.pulls else 0
    decreases s.length - p.pulls
  {
    if p.pulls < s.length { RestLength(s, Pull(s, p)); }
  }

  /** The resumed units are the uninterrupted ones exactly when the units to come are. */
  lemma ResumedWhenRest(s: Sampler, generator: Bytes, p: nat, q: nat)
    ensures ResumedUnits(s, generator, p, q) == Rest(s, Start(s, generator))
       <==> Rest(s, Rebuilt(s, generator, p, q)) == Rest(s, After(s, Start(s, generator), q))
  {
    var start := Start(s, generator);
    AfterPulls(s, generator, q);
    if q < s.length {
      UnitsThenRest(s, generator, q);
      SamePrefix(Units(s, start, q), Rest(s, Rebuilt(s, generator, p, q)), Rest(s, After(s, start, q)));
    } else {
      UnitsThenRest(s, generator, s.length);
      AfterPulls(s, generator, s.length);
      assert Rest(s, After(s, start, s.length)) == [];
    }
  }

  lemma SamePrefix(a: seq<Bytes>, b: seq<Bytes>, c: seq<Bytes>)
    ensures a + b == a + c <==> b == c
  {
    assert (a + b)[|a|..] == b && (a + c)[|a|..] == c;
  }

  // ----- samplers that draw everything at their first pull -----

  /** Only the first pull reads or moves the generator, until the end is found: later pulls give the same units and
      states whatever the generator. */
  ghost predicate DrawsFirst(s: Sampler) {
    && (forall state: Bytes, a: Bytes :: s.pull(Pulling(state, a)).state != s.begin)
    && (forall state: Bytes, a: Bytes, b: Bytes | state != s.begin ::
          && s.pull(Pulling(state, a)).unit == s.pull(Pulling(state, b)).unit
          && s.pull(Pulling(state, a)).state == s.pull(Pulling(state, b)).state)
  }

  lemma {:induction false} Drawn(s: Sampler, generator: Bytes, k: nat)
    requires DrawsFirst(s) && k > 0
    ensures After(s, Start(s, generator), k).state != s.begin
  {
    if k > 1 { Drawn(s, generator, k - 1); }
  }

  lemma {:induction false} RestWhatever(s: Sampler, p: Place, q: Place)
    requires DrawsFirst(s) && p.pulls == q.pulls && p.state == q.state != s.begin
    ensures Rest(s, p) == Rest(s, q)
    decreases s.length - p.pulls
  {
    if p.pulls < s.length {
      assert s.pull(Pulling(p.state, p.generator)).unit == s.pull(Pulling(p.state, q.generator)).unit;
      RestWhatever(s, Pull(s, p), Pull(s, q));
    }
  }

  /** A sampler that draws everything at its first pull is resumed exactly, however far it had been pulled: so its
      order is a function of the generator alone. */
  lemma DrawnFirstExact(s: Sampler, generator: Bytes, p: nat, q: nat)
    requires DrawsFirst(s) && q > 0
    ensures ResumedUnits(s, generator, p, q) == Rest(s, Start(s, generator))
  {
    Drawn(s, generator, q);
    RestWhatever(s, Rebuilt(s, generator, p, q), After(s, Start(s, generator), q));
    ResumedWhenRest(s, generator, p, q);
  }

  /** A sampler that keeps what it drew: its first unit is the generator it began at, and the later ones grow from
      it. */
  function DrawsOnce(length: nat): Sampler {
    Sampler(length, [], (r: Pulling) =>
      if r.state == [] then Pulled(r.generator, [1] + r.generator, r.generator + [1])
      else Pulled(r.state, r.state + [1], r.generator))
  }

  /** So it is resumed exactly, where one that draws at every pull is not. */
  lemma DrawsOnceExact(length: nat, generator: Bytes, p: nat, q: nat)
    requires q > 0
    ensures var s := DrawsOnce(length); ResumedUnits(s, generator, p, q) == Rest(s, Start(s, generator))
  {
    assert DrawsFirst(DrawsOnce(length));
    DrawnFirstExact(DrawsOnce(length), generator, p, q);
  }

  // ----- any sampler -----

  /** Every sampler of the length gives its units, resumed after `q` pulls from a capture `p` pulls on. */
  ghost predicate UnitsExact(length: nat, p: nat, q: nat) {
    forall s: Sampler, generator: Bytes | s.length == length ::
      ResumedUnits(s, generator, p, q) == Rest(s, Start(s, generator))
  }

  /** Every sampler of the length then leaves the generator where it would have been left. */
  ghost predicate GeneratorExact(length: nat, p: nat, q: nat) {
    forall s: Sampler, generator: Bytes | s.length == length ::
      EndGenerator(s, Rebuilt(s, generator, p, q)) == EndGenerator(s, Start(s, generator))
  }

  /** The units of every sampler of a length are resumed exactly, if and only if it was rebuilt to where it stood at the
      capture, or past its last unit. */
  lemma UnitsExactIff(length: nat, p: nat, q: nat)
    requires p <= length + 1 && q <= length + 1
    ensures UnitsExact(length, p, q) <==> p == q || q >= length
  {
    if p == q || q >= length {
      forall s: Sampler, generator: Bytes | s.length == length
        ensures ResumedUnits(s, generator, p, q) == Rest(s, Start(s, generator))
      {
        AfterPulls(s, generator, q);
        ResumedWhenRest(s, generator, p, q);
      }
    } else {
      var s := Counting(length);
      CountingLosesUnits(length, p, q);
      assert s.length == length && ResumedUnits(s, [], p, q) != Rest(s, Start(s, []));
    }
  }

  /** The generator every sampler of a length leaves behind for the next epoch is the uninterrupted one, if and only if
      it was rebuilt to where it stood at the capture. */
  lemma GeneratorExactIff(length: nat, p: nat, q: nat)
    requires p <= length + 1 && q <= length + 1
    ensures GeneratorExact(length, p, q) <==> p == q
  {
    if p == q {
      forall s: Sampler, generator: Bytes | s.length == length
        ensures EndGenerator(s, Rebuilt(s, generator, p, q)) == EndGenerator(s, Start(s, generator))
      {
        EndAfter(s, generator, q);
      }
    } else {
      var s := Counting(length);
      CountingMovesEnd(length, p, q);
      assert s.length == length && EndGenerator(s, Rebuilt(s, [], p, q)) != EndGenerator(s, Start(s, []));
    }
  }

  lemma {:induction false} EndAfter(s: Sampler, generator: Bytes, k: nat)
    requires k <= s.length + 1
    ensures EndGenerator(s, After(s, Start(s, generator), k)) == EndGenerator(s, Start(s, generator))
  {
    if k > 0 {
      EndAfter(s, generator, k - 1);
      AfterPulls(s, generator, k - 1);
    }
  }

  /** A sampler whose units are the generator states they are pulled at; every pull lengthens the generator. */
  function Counting(length: nat): Sampler {
    Sampler(length, [], (r: Pulling) => Pulled(r.generator, [], r.generator + [1]))
  }

  lemma {:induction false} CountingAfter(length: nat, k: nat)
    requires k <= length + 1
    ensures |After(Counting(length), Start(Counting(length), []), k).generator| == k
  {
    if k > 0 {
      CountingAfter(length, k - 1);
      AfterPulls(Counting(length), [], k - 1);
    }
  }

  lemma CountingLosesUnits(length: nat, p: nat, q: nat)
    requires p <= length + 1 && q < length && p != q
    ensures ResumedUnits(Counting(length), [], p, q) != Rest(Counting(length), Start(Counting(length), []))
  {
    var s := Counting(length);
    CountingAfter(length, p);
    CountingAfter(length, q);
    AfterPulls(s, [], q);
    var was, now := After(s, Start(s, []), q), Rebuilt(s, [], p, q);
    assert Rest(s, was)[0] == was.generator && Rest(s, now)[0] == now.generator;
    ResumedWhenRest(s, [], p, q);
  }

  lemma {:induction false} CountingEnd(length: nat, p: Place)
    requires p.pulls <= length + 1
    ensures |EndGenerator(Counting(length), p)| == |p.generator| + (length + 1 - p.pulls)
    decreases length + 1 - p.pulls
  {
    if p.pulls <= length { CountingEnd(length, Pull(Counting(length), p)); }
  }

  lemma CountingMovesEnd(length: nat, p: nat, q: nat)
    requires p <= length + 1 && q <= length + 1 && p != q
    ensures EndGenerator(Counting(length), Rebuilt(Counting(length), [], p, q))
         != EndGenerator(Counting(length), Start(Counting(length), []))
  {
    var s := Counting(length);
    CountingAfter(length, p);
    AfterPulls(s, [], q);
    CountingEnd(length, Rebuilt(s, [], p, q));
    CountingEnd(length, Start(s, []));
  }

  // ----- the owner's pulls -----

  /** Pulls made once the owner has filled up to `ahead` units beyond the delivered ones: it stops there, or at the pull
      that finds the end. */
  function PullsFor(length: nat, delivered: nat, ahead: nat): nat {
    if delivered + ahead <= length then delivered + ahead else length + 1
  }

  /** The generator that the loader and its sampler share. */
  class SharedGenerator {
    var state: Bytes

    constructor (state: Bytes)
      ensures this.state == state
    {
      this.state := state;
    }
  }

  class SamplerIterator {
    const sampler: Sampler
    const source: SharedGenerator
    var pulls: nat
    var state: Bytes

    ghost function At(): Place
      reads this, source
    {
      Place(pulls, state, source.state)
    }

    constructor (sampler: Sampler, source: SharedGenerator)
      ensures this.sampler == sampler && this.source == source && At() == Start(sampler, source.state)
    {
      this.sampler, this.source := sampler, source;
      pulls, state := 0, sampler.begin;
    }

    /** The next unit, or nothing at the end. */
    method Next() returns (unit: Option<Bytes>)
      modifies this, source
      ensures At() == Pull(sampler, old(At()))
      ensures unit == if old(pulls) < sampler.length then Some(UnitAt(sampler, old(At()))) else None
    {
      if pulls > sampler.length {
        return None;
      }
      var r := sampler.pull(Pulling(state, source.state));
      unit := if pulls < sampler.length then Some(r.unit) else None;
      pulls, state, source.state := pulls + 1, r.state, r.generator;
    }
  }

  /** Rebuild a sampler as a resumed owner does: from where it began, skip what was delivered, fill up to `ahead` units,
      and put the generator back to where the capture found it. */
  method Rebuild(s: Sampler, source: SharedGenerator, began: Bytes, delivered: nat, ahead: nat, current: Bytes)
    returns (it: SamplerIterator)
    requires ahead > 0
    modifies source
    ensures fresh(it) && it.sampler == s && it.source == source
    ensures it.At() == After(s, Start(s, began), PullsFor(s.length, delivered, ahead)).(generator := current)
  {
    source.state := began;
    it := new SamplerIterator(s, source);
    var skipped := 0;
    var found := false;
    while skipped < delivered && !found
      invariant it.At() == After(s, Start(s, began), it.pulls) && skipped <= delivered
      invariant found ==> s.length == skipped < delivered && it.pulls == s.length + 1
      invariant !found ==> it.pulls == skipped <= s.length
      decreases delivered - skipped, !found
    {
      var unit := it.Next();
      if unit.None? {
        found := true;
      } else {
        skipped := skipped + 1;
      }
    }
    var outstanding := 0;
    var exhausted := false;
    while !exhausted && outstanding < ahead
      invariant it.At() == After(s, Start(s, began), it.pulls) && outstanding <= ahead
      invariant exhausted || found ==> it.pulls == s.length + 1
      invariant found ==> outstanding == 0 && s.length < delivered
      invariant exhausted && !found ==> s.length < delivered + ahead
      invariant !exhausted && !found ==> it.pulls == delivered + outstanding <= s.length
      decreases ahead - outstanding, !exhausted
    {
      var unit := it.Next();
      if unit.None? {
        exhausted := true;
      } else {
        outstanding := outstanding + 1;
      }
    }
    source.state := current;
  }

  /** After a delivery the owner has filled to the limit, while a rebuilt owner fills to one prefetch factor. So the
      units of every sampler are resumed exactly if and only if there is one lane, or one prefetch factor reaches the
      last unit; and the generator after the epoch if and only if there is one lane, or it reaches past the end. */
  lemma AfterDelivery(length: nat, workers: nat, prefetch: nat, delivered: nat)
    requires workers > 0 && prefetch > 0 && delivered <= length
    ensures var p, q := PullsFor(length, delivered, Times(prefetch, workers)), PullsFor(length, delivered, prefetch);
            && (UnitsExact(length, p, q) <==> workers == 1 || delivered + prefetch >= length)
            && (GeneratorExact(length, p, q) <==> workers == 1 || delivered + prefetch > length)
  {
    var p, q := PullsFor(length, delivered, Times(prefetch, workers)), PullsFor(length, delivered, prefetch);
    LimitOverFactor(prefetch, workers);
    UnitsExactIff(length, p, q);
    GeneratorExactIff(length, p, q);
  }

  lemma LimitOverFactor(prefetch: nat, workers: nat)
    requires workers > 0 && prefetch > 0
    ensures Times(prefetch, workers) >= prefetch
    ensures Times(prefetch, workers) == prefetch <==> workers == 1
  {
    TimesIsMul(prefetch, workers);
    if workers > 1 {
      MulMonotone(2, workers, prefetch);
    }
  }
}
