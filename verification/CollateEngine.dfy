/** Collation as the engine runs it: loops over keys, positions and samples, proved equal to the recursive form. */
module CollateEngine {
  import opened Outcomes
  import opened Collate

  function Ahead<T>(done: seq<T>, rest: Result<seq<T>, Error>): Result<seq<T>, Error> {
    if rest.Ok? then Ok(done + rest.value) else rest
  }

  lemma AheadOfNothing<T>(rest: Result<seq<T>, Error>)
    ensures Ahead([], rest) == rest
  {
    if rest.Ok? { assert [] + rest.value == rest.value; }
  }

  lemma AheadByOne<T>(done: seq<T>, x: T, rest: Result<seq<T>, Error>)
    ensures Ahead(done, Ahead([x], rest)) == Ahead(done + [x], rest)
  {
    if rest.Ok? { assert done + ([x] + rest.value) == (done + [x]) + rest.value; }
  }

  /** One subscript taken from every sample, in batch order. */
  method GatherSamples(batch: seq<Value>, key: Key) returns (r: Result<seq<Value>, Error>)
    ensures r == Gather(batch, key)
  {
    var samples := [];
    AheadOfNothing(Gather(batch, key));
    assert batch[0..] == batch;
    for n := 0 to |batch|
      invariant Ahead(samples, Gather(batch[n..], key)) == Gather(batch, key)
    {
      var item :- GetItem(batch[n], key);
      assert batch[n..][1..] == batch[n + 1..];
      AheadByOne(samples, item, Gather(batch[n + 1..], key));
      samples := samples + [item];
    }
    assert samples + [] == samples;
    r := Ok(samples);
  }

  method CheckSizes(batch: seq<Value>, width: nat) returns (r: Result<(), Error>)
    ensures r == EqualSizes(batch, width)
  {
    for n := 0 to |batch|
      invariant EqualSizes(batch[n..], width) == EqualSizes(batch, width)
    {
      assert batch[n..][1..] == batch[n + 1..];
      var size :- Length(batch[n]);
      if size != width {
        return Err(UnequalSizes);
      }
    }
    r := Ok(());
  }

  method ConvertArrays(batch: seq<Value>) returns (converted: seq<Value>)
    ensures converted == Converted(batch)
  {
    converted := [];
    for n := 0 to |batch|
      invariant |converted| == n && forall i | 0 <= i < n :: converted[i] == AsTensor(batch[i])
    {
      converted := converted + [AsTensor(batch[n])];
    }
  }

  method MappingCollate(batch: seq<Value>) returns (r: Result<Value, Error>)
    requires batch != [] && batch[0].Mapping?
    ensures r == DefaultCollate(batch)
    decreases batch[0], 0
  {
    var element := batch[0];
    var values := [];
    AheadOfNothing(CollateEntries(batch, 0));
    for k := 0 to |element.entries|
      invariant Ahead(values, CollateEntries(batch, k)) == CollateEntries(batch, 0)
    {
      var key := element.entries[k].key;
      var samples :- GatherSamples(batch, key);
      assert GetItem(element, key) == Ok(samples[0]);
      var value :- CollateBatch(samples);
      AheadByOne(values, Entry(key, value), CollateEntries(batch, k + 1));
      values := values + [Entry(key, value)];
    }
    assert values + [] == values;
    r := RebuildMapping(element.cls, values);
  }

  method CollatedColumns(batch: seq<Value>) returns (r: Result<seq<Value>, Error>)
    requires batch != [] && HasItems(batch[0])
    ensures r == CollateColumns(batch, 0)
    decreases batch[0], 0
  {
    var columns := [];
    AheadOfNothing(CollateColumns(batch, 0));
    for k := 0 to |batch[0].items|
      invariant Ahead(columns, CollateColumns(batch, k)) == CollateColumns(batch, 0)
    {
      var samples :- GatherSamples(batch, Position(k));
      assert GetItem(batch[0], Position(k)) == Ok(samples[0]);
      var value :- CollateBatch(samples);
      AheadByOne(columns, value, CollateColumns(batch, k + 1));
      columns := columns + [value];
    }
    assert columns + [] == columns;
    r := Ok(columns);
  }

  /** A sequence that is not a named tuple: sizes are checked first, and a tuple becomes a list. */
  method SequenceCollate(batch: seq<Value>) returns (r: Result<Value, Error>)
    requires batch != [] && (batch[0].Tuple? || batch[0].Sequence?)
    ensures r == DefaultCollate(batch)
    decreases batch[0], 1
  {
    var element := batch[0];
    var _ :- CheckSizes(batch[1..], |element.items|);
    var columns :- CollatedColumns(batch);
    if element.Tuple? {
      return Ok(Sequence(PLAIN_LIST, columns));
    }
    r := RebuildSequence(element.cls, columns);
  }

  /** The dispatch, branch by branch in order. */
  method CollateBatch(batch: seq<Value>) returns (r: Result<Value, Error>)
    requires batch != []
    ensures r == DefaultCollate(batch)
    decreases batch[0], 2
  {
    var element := batch[0];
    if element.Tensor? {
      return TensorCollate(batch);
    }
    if element.Array? {
      if element.textual {
        return Err(UnsupportedType);
      }
      var converted := ConvertArrays(batch);
      return TensorCollate(converted);
    }
    if element.NumpyScalar? || element.Float? || element.Integer? || element.Stacked? {
      return Ok(Stacked(batch));
    }
    if element.Text? {
      return Ok(Sequence(PLAIN_LIST, batch));
    }
    if element.Mapping? {
      r := MappingCollate(batch);
      return;
    }
    if element.NamedTuple? {
      var columns :- CollatedColumns(batch);
      return RebuildNamedTuple(element.cls, columns);
    }
    if element.Tuple? || element.Sequence? {
      r := SequenceCollate(batch);
      return;
    }
    r := Err(UnsupportedType);
  }
}
