/** Default collation: the recursive transpose of a batch of nested containers, over values that stand for the
    Python objects the dispatch tells apart. */
module Collate {
  import opened Outcomes

  datatype Layout = Dense | Sparse | Nested

  /** A subscript: a position or a mapping key. */
  datatype Key = Position(i: int) | Name(s: string)

  /** What happens when a container class is asked to rebuild itself from collated contents. */
  datatype Rebuild = Rebuilds | RaisesTypeError | RaisesOther

  datatype Class = Class(name: string, mutable: bool, rebuild: Rebuild)

  datatype Entry = Entry(key: Key, value: Value)

  datatype Value =
    | Tensor(layout: Layout, data: int)
    | Array(textual: bool, data: int)                  // a NumPy array; textual for string and object dtypes
    | NumpyScalar(data: int)
    | Float(data: int)
    | Integer(data: int)
    | Text(text: string)
    | Mapping(cls: Class, entries: seq<Entry>)
    | NamedTuple(cls: Class, items: seq<Value>)
    | Tuple(items: seq<Value>)
    | Sequence(cls: Class, items: seq<Value>)
    | Unknown(registered: bool)                        // any other object, with a custom registration or not
    | Stacked(samples: seq<Value>)                     // a tensor holding one slice for each sample

  const PLAIN_DICT := Class("dict", true, Rebuilds)
  const PLAIN_LIST := Class("list", true, Rebuilds)

  datatype Error =
    | TypeError | KeyError | IndexError | UnequalSizes | UnsupportedLayout | UnsupportedType | RebuildFailed

  function AsTensor(v: Value): Value {
    if v.Array? then Tensor(Dense, v.data) else v
  }

  predicate HasItems(v: Value) {
    v.NamedTuple? || v.Tuple? || v.Sequence?
  }

  function Lookup(entries: seq<Entry>, key: Key): (r: Option<Value>)
    ensures r.Some? ==> exists i :: 0 <= i < |entries| && entries[i] == Entry(key, r.value)
  {
    if entries == [] then None
    else if entries[0].key == key then
      assert entries[0] == Entry(key, entries[0].value);
      Some(entries[0].value)
    else
      var r := Lookup(entries[1..], key);
      assert forall i | 0 <= i < |entries| - 1 :: entries[1..][i] == entries[i + 1];
      r
  }

  /** `v[key]`. Leaves are not subscripted here. */
  function GetItem(v: Value, key: Key): Result<Value, Error> {
    match v
    case Mapping(_, entries) =>
      var found := Lookup(entries, key);
      if found.Some? then Ok(found.value) else Err(KeyError)
    case NamedTuple(_, items) => Indexed(items, key)
    case Tuple(items) => Indexed(items, key)
    case Sequence(_, items) => Indexed(items, key)
    case _ => Err(TypeError)
  }

  function Indexed(items: seq<Value>, key: Key): Result<Value, Error> {
    if !key.Position? then Err(TypeError)
    else if 0 <= key.i < |items| then Ok(items[key.i])
    else Err(IndexError)
  }

  function Length(v: Value): Result<nat, Error> {
    if v.Mapping? then Ok(|v.entries|)
    else if HasItems(v) then Ok(|v.items|)
    else Err(TypeError)
  }

  /** One subscript taken from every sample, in batch order. */
  function Gather(batch: seq<Value>, key: Key): (r: Result<seq<Value>, Error>)
    ensures r.Ok? ==> |r.value| == |batch| && forall i | 0 <= i < |batch| :: GetItem(batch[i], key) == Ok(r.value[i])
  {
    if batch == [] then Ok([])
    else
      var first :- GetItem(batch[0], key);
      var rest :- Gather(batch[1..], key);
      Ok([first] + rest)
  }

  function EqualSizes(batch: seq<Value>, width: nat): Result<(), Error> {
    if batch == [] then Ok(())
    else
      var size :- Length(batch[0]);
      if size != width then Err(UnequalSizes) else EqualSizes(batch[1..], width)
  }

  function TensorCollate(batch: seq<Value>): Result<Value, Error>
    requires batch != [] && batch[0].Tensor?
  {
    if !batch[0].layout.Dense? then Err(UnsupportedLayout) else Ok(Stacked(batch))
  }

  function Converted(batch: seq<Value>): (r: seq<Value>)
    ensures |r| == |batch| && forall i | 0 <= i < |batch| :: r[i] == AsTensor(batch[i])
  {
    if batch == [] then [] else [AsTensor(batch[0])] + Converted(batch[1..])
  }

  /** A mapping rebuilt from its collated values. A mutable one is a copy updated in place, whose errors escape; an
      immutable one is constructed anew, and a plain dictionary stands in when construction raises a type error. */
  function RebuildMapping(cls: Class, values: seq<Entry>): Result<Value, Error> {
    match cls.rebuild
    case Rebuilds => Ok(Mapping(cls, values))
    case RaisesTypeError => if cls.mutable then Err(TypeError) else Ok(Mapping(PLAIN_DICT, values))
    case RaisesOther => Err(RebuildFailed)
  }

  /** A sequence rebuilt from its collated columns, likewise. */
  function RebuildSequence(cls: Class, columns: seq<Value>): Result<Value, Error> {
    match cls.rebuild
    case Rebuilds => Ok(Sequence(cls, columns))
    case RaisesTypeError => if cls.mutable then Err(TypeError) else Ok(Sequence(PLAIN_LIST, columns))
    case RaisesOther => Err(RebuildFailed)
  }

  function RebuildNamedTuple(cls: Class, columns: seq<Value>): Result<Value, Error> {
    match cls.rebuild
    case Rebuilds => Ok(NamedTuple(cls, columns))
    case RaisesTypeError => Err(TypeError)
    case RaisesOther => Err(RebuildFailed)
  }

  /** Collation of a batch, by the kind of its first sample. */
  function DefaultCollate(batch: seq<Value>): Result<Value, Error>
    requires batch != []
    decreases batch[0], 1, 0
  {
    var element := batch[0];
    match element
    case Tensor(_, _) => TensorCollate(batch)
    case Array(textual, _) => if textual then Err(UnsupportedType) else TensorCollate(Converted(batch))
    case NumpyScalar(_) => Ok(Stacked(batch))
    case Float(_) => Ok(Stacked(batch))
    case Integer(_) => Ok(Stacked(batch))
    case Text(_) => Ok(Sequence(PLAIN_LIST, batch))
    case Mapping(cls, entries) =>
      var values :- CollateEntries(batch, 0);
      RebuildMapping(cls, values)
    case NamedTuple(cls, items) =>
      var columns :- CollateColumns(batch, 0);
      RebuildNamedTuple(cls, columns)
    case Tuple(items) =>
      var _ :- EqualSizes(batch[1..], |items|);
      var columns :- CollateColumns(batch, 0);
      Ok(Sequence(PLAIN_LIST, columns))
    case Sequence(cls, items) =>
      var _ :- EqualSizes(batch[1..], |items|);
      var columns :- CollateColumns(batch, 0);
      RebuildSequence(cls, columns)
    case Unknown(_) => Err(UnsupportedType)
    case Stacked(_) => Ok(Stacked(batch))
  }

  /** The first sample's entries from `k` on, each key collated over the batch. */
  function CollateEntries(batch: seq<Value>, k: nat): Result<seq<Entry>, Error>
    requires batch != [] && batch[0].Mapping? && k <= |batch[0].entries|
    decreases batch[0], 0, |batch[0].entries| - k
  {
    if k == |batch[0].entries| then Ok([])
    else
      var key := batch[0].entries[k].key;
      var samples :- Gather(batch, key);
      var value :- DefaultCollate(samples);
      var rest :- CollateEntries(batch, k + 1);
      Ok([Entry(key, value)] + rest)
  }

  /** The columns from `k` on, each position collated over the batch. */
  function CollateColumns(batch: seq<Value>, k: nat): Result<seq<Value>, Error>
    requires batch != [] && HasItems(batch[0]) && k <= |batch[0].items|
    decreases batch[0], 0, |batch[0].items| - k
  {
    if k == |batch[0].items| then Ok([])
    else
      var samples :- Gather(batch, Position(k));
      var value :- DefaultCollate(samples);
      var rest :- CollateColumns(batch, k + 1);
      Ok([value] + rest)
  }

  // ----- when collation succeeds -----

  predicate IsLeaf(v: Value) {
    !v.Mapping? && !HasItems(v)
  }

  /** What collation supports: stackable leaves, and containers that rebuild or may fall back to a plain one. */
  predicate Supported(v: Value) {
    match v
    case Tensor(layout, _) => layout.Dense?
    case Array(textual, _) => !textual
    case Mapping(cls, entries) =>
      Rebuildable(cls) && forall i | 0 <= i < |entries| :: Supported(entries[i].value)
    case NamedTuple(cls, items) => cls.rebuild.Rebuilds? && forall i | 0 <= i < |items| :: Supported(items[i])
    case Tuple(items) => forall i | 0 <= i < |items| :: Supported(items[i])
    case Sequence(cls, items) => Rebuildable(cls) && forall i | 0 <= i < |items| :: Supported(items[i])
    case Unknown(_) => false
    case _ => true
  }

  /** A class that rebuilds, or an immutable one whose constructor raises a type error: the fallback is not reached
      for a mutable class, whose copy or update raises past it. */
  predicate Rebuildable(cls: Class) {
    cls.rebuild.Rebuilds? || (cls.rebuild.RaisesTypeError? && !cls.mutable)
  }

  /** `b` has everything `a` has: the same keys, the same lengths, leaves where `a` has leaves. */
  ghost predicate SameShape(a: Value, b: Value) {
    if a.Mapping? then
      b.Mapping? && forall i | 0 <= i < |a.entries| ::
        var found := Lookup(b.entries, a.entries[i].key); found.Some? && SameShape(a.entries[i].value, found.value)
    else if HasItems(a) then
      HasItems(b) && |b.items| == |a.items| && forall i | 0 <= i < |a.items| :: SameShape(a.items[i], b.items[i])
    else IsLeaf(b)
  }

  /** A mapping holds each key once. */
  ghost predicate WellKeyed(v: Value) {
    if v.Mapping? then
      && (forall i, j | 0 <= i < j < |v.entries| :: v.entries[i].key != v.entries[j].key)
      && (forall i | 0 <= i < |v.entries| :: WellKeyed(v.entries[i].value))
    else if HasItems(v) then forall i | 0 <= i < |v.items| :: WellKeyed(v.items[i])
    else true
  }

  lemma {:induction false} LookupAt(entries: seq<Entry>, i: nat)
    requires i < |entries| && forall j, k | 0 <= j < k < |entries| :: entries[j].key != entries[k].key
    ensures Lookup(entries, entries[i].key) == Some(entries[i].value)
    decreases |entries|
  {
    if i > 0 { LookupAt(entries[1..], i - 1); }
  }

  lemma {:induction false} GatherAll(batch: seq<Value>, key: Key)
    requires forall i | 0 <= i < |batch| :: GetItem(batch[i], key).Ok?
    ensures Gather(batch, key).Ok?
  {
    if batch != [] {
      assert forall i | 0 <= i < |batch| - 1 :: batch[1..][i] == batch[i + 1];
      GatherAll(batch[1..], key);
    }
  }

  lemma {:induction false} GatherFails(batch: seq<Value>, key: Key, i: nat)
    requires i < |batch| && GetItem(batch[i], key).Err?
    ensures Gather(batch, key).Err?
  {
    if i > 0 { GatherFails(batch[1..], key, i - 1); }
  }

  lemma {:induction false} SizesEqual(batch: seq<Value>, width: nat)
    requires forall i | 0 <= i < |batch| :: Length(batch[i]) == Ok(width)
    ensures EqualSizes(batch, width).Ok?
  {
    if batch != [] {
      assert forall i | 0 <= i < |batch| - 1 :: batch[1..][i] == batch[i + 1];
      SizesEqual(batch[1..], width);
    }
  }

  /** A batch of samples shaped like its first. */
  ghost predicate Uniform(batch: seq<Value>) {
    batch != [] && WellKeyed(batch[0]) && forall i | 0 <= i < |batch| :: SameShape(batch[0], batch[i])
  }

  /** The samples under one key of a uniform batch are there and uniform again. */
  lemma GatherEntry(batch: seq<Value>, k: nat) returns (samples: seq<Value>)
    requires Uniform(batch) && batch[0].Mapping? && k < |batch[0].entries|
    ensures Gather(batch, batch[0].entries[k].key) == Ok(samples) && Uniform(samples)
    ensures samples[0] == batch[0].entries[k].value
  {
    var entry := batch[0].entries[k];
    LookupAt(batch[0].entries, k);
    forall i | 0 <= i < |batch|
      ensures GetItem(batch[i], entry.key).Ok? && SameShape(entry.value, GetItem(batch[i], entry.key).value)
    {
      assert SameShape(batch[0], batch[i]);
    }
    GatherAll(batch, entry.key);
    samples := Gather(batch, entry.key).value;
  }

  lemma GatherColumn(batch: seq<Value>, k: nat) returns (samples: seq<Value>)
    requires Uniform(batch) && HasItems(batch[0]) && k < |batch[0].items|
    ensures Gather(batch, Position(k)) == Ok(samples) && Uniform(samples)
    ensures samples[0] == batch[0].items[k]
  {
    forall i | 0 <= i < |batch|
      ensures GetItem(batch[i], Position(k)).Ok? && SameShape(batch[0].items[k], GetItem(batch[i], Position(k)).value)
    {
      assert SameShape(batch[0], batch[i]);
    }
    GatherAll(batch, Position(k));
    samples := Gather(batch, Position(k)).value;
  }

  /** A uniform batch collates exactly when its first sample is supported all the way down. */
  lemma {:induction false} CollatesIff(batch: seq<Value>)
    requires Uniform(batch)
    ensures DefaultCollate(batch).Ok? <==> Supported(batch[0])
    decreases batch[0], 1, 0
  {
    var element := batch[0];
    if element.Mapping? {
      EntriesIff(batch, 0);
    } else if HasItems(element) {
      ColumnsIff(batch, 0);
      forall i | 0 <= i < |batch[1..]|
        ensures HasItems(batch[1..][i]) && |batch[1..][i].items| == |element.items|
      {
        assert SameShape(element, batch[i + 1]);
      }
      SizesEqual(batch[1..], |element.items|);
    }
  }

  lemma {:induction false} EntriesIff(batch: seq<Value>, k: nat)
    requires Uniform(batch) && batch[0].Mapping? && k <= |batch[0].entries|
    ensures CollateEntries(batch, k).Ok? <==> forall i | k <= i < |batch[0].entries| ::
              Supported(batch[0].entries[i].value)
    decreases batch[0], 0, |batch[0].entries| - k
  {
    if k < |batch[0].entries| {
      var samples := GatherEntry(batch, k);
      CollatesIff(samples);
      EntriesIff(batch, k + 1);
    }
  }

  lemma {:induction false} ColumnsIff(batch: seq<Value>, k: nat)
    requires Uniform(batch) && HasItems(batch[0]) && k <= |batch[0].items|
    ensures CollateColumns(batch, k).Ok? <==> forall i | k <= i < |batch[0].items| :: Supported(batch[0].items[i])
    decreases batch[0], 0, |batch[0].items| - k
  {
    if k < |batch[0].items| {
      var samples := GatherColumn(batch, k);
      CollatesIff(samples);
      ColumnsIff(batch, k + 1);
    }
  }

  // ----- what collation preserves -----

  function ReadAt(v: Value, path: seq<Key>): Result<Value, Error>
    decreases |path|
  {
    if path == [] then Ok(v)
    else
      var child :- GetItem(v, path[0]);
      ReadAt(child, path[1..])
  }

  /** What a sample's leaf becomes when the batch's leaves are arrays. */
  function Leaf(first: Value, v: Value): Value {
    if first.Array? then AsTensor(v) else v
  }

  /** Sample `i` of a collated leaf: a slice of the stacked tensor, or an item of the list of texts. */
  function SampleOf(collated: Value, i: nat): Option<Value> {
    if collated.Stacked? && i < |collated.samples| then Some(collated.samples[i])
    else if collated.Sequence? && i < |collated.items| then Some(collated.items[i])
    else None
  }

  lemma {:induction false} EntriesAt(batch: seq<Value>, k: nat, values: seq<Entry>, key: Key)
    requires batch != [] && batch[0].Mapping? && k <= |batch[0].entries| && CollateEntries(batch, k) == Ok(values)
    ensures |values| == |batch[0].entries| - k
    ensures Lookup(batch[0].entries[k..], key).Some? ==>
              && Gather(batch, key).Ok? && DefaultCollate(Gather(batch, key).value).Ok?
              && Lookup(values, key) == Some(DefaultCollate(Gather(batch, key).value).value)
    decreases |batch[0].entries| - k
  {
    if k < |batch[0].entries| {
      var rest := CollateEntries(batch, k + 1).value;
      EntriesAt(batch, k + 1, rest, key);
      assert batch[0].entries[k..][1..] == batch[0].entries[k + 1..];
      assert values[1..] == rest;
    }
  }

  function Column(batch: seq<Value>, k: nat): Result<Value, Error>
    requires batch != [] && HasItems(batch[0])
  {
    var samples :- Gather(batch, Position(k));
    DefaultCollate(samples)
  }

  /** The columns collated from `k` on: the one at `k`, and the rest. */
  lemma ColumnsHead(batch: seq<Value>, k: nat, columns: seq<Value>) returns (first: Value, rest: seq<Value>)
    requires batch != [] && HasItems(batch[0]) && k < |batch[0].items| && CollateColumns(batch, k) == Ok(columns)
    ensures Column(batch, k) == Ok(first) && CollateColumns(batch, k + 1) == Ok(rest) && columns == [first] + rest
  {
    first, rest := columns[0], CollateColumns(batch, k + 1).value;
  }

  lemma {:induction false} ColumnsAt(batch: seq<Value>, k: nat, columns: seq<Value>)
    requires batch != [] && HasItems(batch[0]) && k <= |batch[0].items| && CollateColumns(batch, k) == Ok(columns)
    ensures |columns| == |batch[0].items| - k
    ensures forall i | 0 <= i < |columns| :: Column(batch, k + i) == Ok(columns[i])
    decreases |batch[0].items| - k
  {
    if k < |batch[0].items| {
      var first, rest := ColumnsHead(batch, k, columns);
      ColumnsAt(batch, k + 1, rest);
      forall i | 0 <= i < |columns|
        ensures Column(batch, k + i) == Ok(columns[i])
      {
        if i > 0 { assert Column(batch, k + 1 + (i - 1)) == Ok(rest[i - 1]); }
      }
    }
  }

  /** What a batch of sequences of any kind collates to, column by column. */
  lemma ItemsParts(batch: seq<Value>, r: Value)
    requires batch != [] && HasItems(batch[0]) && DefaultCollate(batch) == Ok(r)
    ensures HasItems(r) && |r.items| == |batch[0].items|
    ensures forall k | 0 <= k < |r.items| :: Column(batch, k) == Ok(r.items[k])
  {
    ItemsColumns(batch, r);
    ColumnsAt(batch, 0, r.items);
    forall k | 0 <= k < |r.items|
      ensures Column(batch, k) == Ok(r.items[k])
    {
      assert Column(batch, 0 + k) == Ok(r.items[k]);
    }
  }

  lemma ItemsColumns(batch: seq<Value>, r: Value)
    requires batch != [] && HasItems(batch[0]) && DefaultCollate(batch) == Ok(r)
    ensures HasItems(r) && CollateColumns(batch, 0) == Ok(r.items)
  {
  }

  lemma EntryCollated(batch: seq<Value>, key: Key)
    requires batch != [] && batch[0].Mapping? && DefaultCollate(batch).Ok? && GetItem(batch[0], key).Ok?
    ensures Gather(batch, key).Ok? && DefaultCollate(Gather(batch, key).value).Ok?
    ensures GetItem(DefaultCollate(batch).value, key) == DefaultCollate(Gather(batch, key).value)
  {
    var values := CollateEntries(batch, 0).value;
    assert batch[0].entries[0..] == batch[0].entries;
    EntriesAt(batch, 0, values, key);
    assert DefaultCollate(batch) == RebuildMapping(batch[0].cls, values);
  }

  lemma ColumnCollated(batch: seq<Value>, key: Key)
    requires batch != [] && HasItems(batch[0]) && DefaultCollate(batch).Ok? && GetItem(batch[0], key).Ok?
    ensures Gather(batch, key).Ok? && DefaultCollate(Gather(batch, key).value).Ok?
    ensures GetItem(DefaultCollate(batch).value, key) == DefaultCollate(Gather(batch, key).value)
  {
    var r := DefaultCollate(batch).value;
    ItemsParts(batch, r);
    assert Column(batch, key.i) == Ok(r.items[key.i]);
  }

  /** Below a container, the collated result holds under each key of the first sample what the samples under that
      key collate to, whichever class it was rebuilt in. */
  lemma ItemCollated(batch: seq<Value>, key: Key)
    requires batch != [] && DefaultCollate(batch).Ok? && !IsLeaf(batch[0]) && GetItem(batch[0], key).Ok?
    ensures Gather(batch, key).Ok? && DefaultCollate(Gather(batch, key).value).Ok?
    ensures GetItem(DefaultCollate(batch).value, key) == DefaultCollate(Gather(batch, key).value)
  {
    if batch[0].Mapping? { EntryCollated(batch, key); } else { ColumnCollated(batch, key); }
  }

  /** Reading sample `i` of the collated batch at any leaf path of the first sample gives exactly sample `i`'s leaf
      there, whichever containers were rebuilt and whichever fell back to plain ones. */
  lemma {:induction false} CollatePreserves(batch: seq<Value>, path: seq<Key>, i: nat)
    requires batch != [] && i < |batch| && DefaultCollate(batch).Ok?
    requires ReadAt(batch[0], path).Ok? && IsLeaf(ReadAt(batch[0], path).value)
    ensures ReadAt(batch[i], path).Ok? && ReadAt(DefaultCollate(batch).value, path).Ok?
    ensures SampleOf(ReadAt(DefaultCollate(batch).value, path).value, i)
         == Some(Leaf(ReadAt(batch[0], path).value, ReadAt(batch[i], path).value))
    decreases |path|
  {
    if path != [] {
      ItemCollated(batch, path[0]);
      var samples := Gather(batch, path[0]).value;
      assert GetItem(batch[0], path[0]) == Ok(samples[0]) && GetItem(batch[i], path[0]) == Ok(samples[i]);
      CollatePreserves(samples, path[1..], i);
    }
  }

  /** The collated result has the first sample's containers and no others: the same keys in the same order, the same
      lengths, and at each leaf one entry for each of `count` samples. */
  ghost predicate Transposed(element: Value, collated: Value, count: nat) {
    if element.Mapping? then
      collated.Mapping? && |collated.entries| == |element.entries| && forall k | 0 <= k < |element.entries| ::
        && collated.entries[k].key == element.entries[k].key
        && Transposed(element.entries[k].value, collated.entries[k].value, count)
    else if HasItems(element) then
      HasItems(collated) && |collated.items| == |element.items|
      && forall k | 0 <= k < |element.items| :: Transposed(element.items[k], collated.items[k], count)
    else if element.Text? then collated.Sequence? && |collated.items| == count
    else collated.Stacked? && |collated.samples| == count
  }

  lemma FirstOfEntry(batch: seq<Value>, k: nat) returns (samples: seq<Value>)
    requires batch != [] && batch[0].Mapping? && WellKeyed(batch[0]) && k < |batch[0].entries|
    requires Gather(batch, batch[0].entries[k].key).Ok?
    ensures Gather(batch, batch[0].entries[k].key) == Ok(samples) && |samples| == |batch|
    ensures samples[0] == batch[0].entries[k].value
  {
    samples := Gather(batch, batch[0].entries[k].key).value;
    LookupAt(batch[0].entries, k);
    assert GetItem(batch[0], batch[0].entries[k].key) == Ok(samples[0]);
  }

  /** Entry `k` collated: the first sample's key there, with what the samples under it collate to. */
  ghost predicate EntryFrom(batch: seq<Value>, k: nat, entry: Entry)
    requires batch != [] && batch[0].Mapping? && k < |batch[0].entries|
  {
    var key := batch[0].entries[k].key;
    entry.key == key && Gather(batch, key).Ok? && DefaultCollate(Gather(batch, key).value) == Ok(entry.value)
  }

  /** The entries collated from `k` on: the one at `k`, and the rest. */
  lemma EntriesHead(batch: seq<Value>, k: nat, values: seq<Entry>) returns (first: Entry, rest: seq<Entry>)
    requires batch != [] && batch[0].Mapping? && k < |batch[0].entries| && CollateEntries(batch, k) == Ok(values)
    ensures EntryFrom(batch, k, first) && CollateEntries(batch, k + 1) == Ok(rest) && values == [first] + rest
  {
    first, rest := values[0], CollateEntries(batch, k + 1).value;
  }

  lemma {:induction false} EntriesFrom(batch: seq<Value>, k: nat, values: seq<Entry>)
    requires batch != [] && batch[0].Mapping? && k <= |batch[0].entries| && CollateEntries(batch, k) == Ok(values)
    ensures |values| == |batch[0].entries| - k
    ensures forall i | 0 <= i < |values| :: EntryFrom(batch, k + i, values[i])
    decreases |batch[0].entries| - k
  {
    if k < |batch[0].entries| {
      var first, rest := EntriesHead(batch, k, values);
      EntriesFrom(batch, k + 1, rest);
      forall i | 0 <= i < |values|
        ensures EntryFrom(batch, k + i, values[i])
      {
        if i > 0 { assert EntryFrom(batch, k + 1 + (i - 1), rest[i - 1]); }
      }
    }
  }

  /** What a batch of mappings collates to, entry by entry. */
  lemma MappingParts(batch: seq<Value>, r: Value)
    requires batch != [] && batch[0].Mapping? && DefaultCollate(batch) == Ok(r)
    ensures r.Mapping? && |r.entries| == |batch[0].entries|
    ensures forall k | 0 <= k < |r.entries| :: EntryFrom(batch, k, r.entries[k])
  {
    MappingEntries(batch, r);
    EntriesFrom(batch, 0, r.entries);
    forall k | 0 <= k < |r.entries|
      ensures EntryFrom(batch, k, r.entries[k])
    {
      assert EntryFrom(batch, 0 + k, r.entries[k]);
    }
  }

  lemma MappingEntries(batch: seq<Value>, r: Value)
    requires batch != [] && batch[0].Mapping? && DefaultCollate(batch) == Ok(r)
    ensures r.Mapping? && CollateEntries(batch, 0) == Ok(r.entries)
  {
    var values := CollateEntries(batch, 0).value;
    assert DefaultCollate(batch) == RebuildMapping(batch[0].cls, values);
  }

  lemma LeafTransposed(batch: seq<Value>, r: Value)
    requires batch != [] && IsLeaf(batch[0]) && DefaultCollate(batch) == Ok(r)
    ensures Transposed(batch[0], r, |batch|)
  {
  }

  /** The result has the first sample's containers, lengths and keys, and one entry for each sample at each leaf. */
  lemma {:induction false} CollateTransposes(batch: seq<Value>)
    requires batch != [] && WellKeyed(batch[0]) && DefaultCollate(batch).Ok?
    ensures Transposed(batch[0], DefaultCollate(batch).value, |batch|)
    decreases batch[0], 1
  {
    var r := DefaultCollate(batch).value;
    if batch[0].Mapping? {
      MappingTransposed(batch, r);
    } else if HasItems(batch[0]) {
      ItemsTransposed(batch, r);
    } else {
      LeafTransposed(batch, r);
    }
  }

  lemma {:induction false} MappingTransposed(batch: seq<Value>, r: Value)
    requires batch != [] && batch[0].Mapping? && WellKeyed(batch[0]) && DefaultCollate(batch) == Ok(r)
    ensures Transposed(batch[0], r, |batch|)
    decreases batch[0], 0
  {
    MappingParts(batch, r);
    forall k | 0 <= k < |batch[0].entries|
      ensures r.entries[k].key == batch[0].entries[k].key
      ensures Transposed(batch[0].entries[k].value, r.entries[k].value, |batch|)
    {
      assert EntryFrom(batch, k, r.entries[k]);
      var samples := FirstOfEntry(batch, k);
      CollateTransposes(samples);
    }
  }

  lemma {:induction false} ItemsTransposed(batch: seq<Value>, r: Value)
    requires batch != [] && HasItems(batch[0]) && WellKeyed(batch[0]) && DefaultCollate(batch) == Ok(r)
    ensures Transposed(batch[0], r, |batch|)
    decreases batch[0], 0
  {
    ItemsParts(batch, r);
    forall k | 0 <= k < |batch[0].items|
      ensures Transposed(batch[0].items[k], r.items[k], |batch|)
    {
      assert Column(batch, k) == Ok(r.items[k]);
      var samples := Gather(batch, Position(k)).value;
      assert GetItem(batch[0], Position(k)) == Ok(samples[0]);
      CollateTransposes(samples);
    }
  }

  // ----- a container that does not rebuild -----

  /** One key, one integer: copied and updated in place by a mutable class whose update raises a type error, the error
      leaves; an immutable class with the same error falls back to a plain dictionary. */
  lemma MutableDoesNotFallBack(a: int)
    ensures var refusing, frozen := Class("m", true, RaisesTypeError), Class("f", false, RaisesTypeError);
            var entries, stacked := [Entry(Name("x"), Integer(a))], [Entry(Name("x"), Stacked([Integer(a)]))];
            && DefaultCollate([Mapping(refusing, entries)]) == Err(TypeError)
            && DefaultCollate([Mapping(frozen, entries)]) == Ok(Mapping(PLAIN_DICT, stacked))
  {
    OneEntry(Class("m", true, RaisesTypeError), Name("x"), a);
    OneEntry(Class("f", false, RaisesTypeError), Name("x"), a);
  }

  lemma OneEntry(cls: Class, key: Key, a: int)
    ensures CollateEntries([Mapping(cls, [Entry(key, Integer(a))])], 0) == Ok([Entry(key, Stacked([Integer(a)]))])
  {
    var batch := [Mapping(cls, [Entry(key, Integer(a))])];
    assert GetItem(batch[0], key) == Ok(Integer(a));
    GatherAll(batch, key);
    var samples := Gather(batch, key).value;
    assert samples == [Integer(a)];
    LastEntry(batch, 0, samples, Stacked(samples));
  }

  /** The last key's entry is all that is collated from it on. */
  lemma LastEntry(batch: seq<Value>, k: nat, samples: seq<Value>, value: Value)
    requires batch != [] && batch[0].Mapping? && k + 1 == |batch[0].entries|
    requires Gather(batch, batch[0].entries[k].key) == Ok(samples)
    requires samples != [] && DefaultCollate(samples) == Ok(value)
    ensures CollateEntries(batch, k) == Ok([Entry(batch[0].entries[k].key, value)])
  {
    assert CollateEntries(batch, k + 1) == Ok([]);
    assert [Entry(batch[0].entries[k].key, value)] + [] == [Entry(batch[0].entries[k].key, value)];
  }

  // ----- uneven batches -----

  predicate SizeChecked(v: Value) {
    v.Tuple? || v.Sequence?
  }

  /** The first later sample whose size cannot be read, or is not the first sample's, decides the error: whatever the
      samples hold, tuples and sequences are then refused before any column is collated. */
  lemma UnevenRefused(batch: seq<Value>, i: nat)
    requires batch != [] && SizeChecked(batch[0]) && 0 < i < |batch| && Length(batch[i]) != Ok(|batch[0].items|)
    requires forall j | 0 < j < i :: Length(batch[j]) == Ok(|batch[0].items|)
    ensures DefaultCollate(batch) == Err(if Length(batch[i]).Ok? then UnequalSizes else TypeError)
  {
    SizesRefused(batch[1..], |batch[0].items|, i - 1);
  }

  lemma {:induction false} SizesRefused(batch: seq<Value>, width: nat, i: nat)
    requires i < |batch| && Length(batch[i]) != Ok(width) && forall j | 0 <= j < i :: Length(batch[j]) == Ok(width)
    ensures EqualSizes(batch, width) == Err(if Length(batch[i]).Ok? then UnequalSizes else TypeError)
  {
    if i > 0 {
      assert Length(batch[0]) == Ok(width);
      SizesRefused(batch[1..], width, i - 1);
    }
  }

  /** Every column before `k` collates and column `k` fails with the error. */
  ghost predicate FailsAt(batch: seq<Value>, k: nat, error: Error)
    requires batch != [] && HasItems(batch[0])
  {
    && k < |batch[0].items| && (forall j | 0 <= j < k :: Column(batch, j).Ok?) && Column(batch, k) == Err(error)
  }

  /** When every later sample has the first one's size, the size error comes only from inside some column. */
  lemma EvenSizesPass(batch: seq<Value>)
    requires batch != [] && SizeChecked(batch[0])
    requires forall j | 0 < j < |batch| :: Length(batch[j]) == Ok(|batch[0].items|)
    ensures DefaultCollate(batch) == Err(UnequalSizes) <==> exists k :: FailsAt(batch, k, UnequalSizes)
  {
    SizesEqual(batch[1..], |batch[0].items|);
    ColumnsFail(batch, 0, UnequalSizes);
  }

  lemma {:induction false} ColumnsFail(batch: seq<Value>, k: nat, error: Error)
    requires batch != [] && HasItems(batch[0]) && k <= |batch[0].items| && forall j | 0 <= j < k :: Column(batch, j).Ok?
    ensures CollateColumns(batch, k) == Err(error) <==> exists n :: FailsAt(batch, n, error)
    decreases |batch[0].items| - k
  {
    if k < |batch[0].items| {
      if Column(batch, k).Ok? {
        ColumnsFail(batch, k + 1, error);
      } else if Column(batch, k) == Err(error) {
        assert FailsAt(batch, k, error);
      }
    }
  }

  /** A sample cut to its first `width` fields. */
  function Cut(v: Value, width: nat): Value {
    if HasItems(v) && width <= |v.items| then v.(items := v.items[..width]) else v
  }

  function CutAll(batch: seq<Value>, width: nat): (r: seq<Value>)
    ensures |r| == |batch| && forall i | 0 <= i < |batch| :: r[i] == Cut(batch[i], width)
  {
    seq(|batch|, i requires 0 <= i < |batch| => Cut(batch[i], width))
  }

  predicate LongEnough(batch: seq<Value>, width: nat) {
    forall i | 0 <= i < |batch| :: HasItems(batch[i]) && |batch[i].items| >= width
  }

  /** Named tuples are not checked. Every column can be gathered exactly when no later sample is shorter than the first;
      what later samples have beyond its width changes nothing, and a shorter one is an error. */
  lemma NamedTuplesTruncated(batch: seq<Value>)
    requires batch != [] && batch[0].NamedTuple? && forall i | 0 <= i < |batch| :: HasItems(batch[i])
    ensures (forall k | 0 <= k < |batch[0].items| :: Gather(batch, Position(k)).Ok?)
        <==> LongEnough(batch, |batch[0].items|)
    ensures LongEnough(batch, |batch[0].items|) ==>
              var cut := CutAll(batch, |batch[0].items|);
              cut[0] == batch[0] && DefaultCollate(batch) == DefaultCollate(cut)
    ensures !LongEnough(batch, |batch[0].items|) ==> DefaultCollate(batch).Err?
  {
    var width := |batch[0].items|;
    if LongEnough(batch, width) {
      forall k | 0 <= k < width
        ensures Gather(batch, Position(k)).Ok?
      {
        GatherAll(batch, Position(k));
      }
      assert batch[0].items[..width] == batch[0].items;
      ColumnsCut(batch, CutAll(batch, width), 0);
    } else {
      var i :| 0 <= i < |batch| && |batch[i].items| < width;
      ShortFails(batch, i, 0);
      GatherFails(batch, Position(|batch[i].items|), i);
    }
  }

  /** A position below the width is in the cut samples what it was. */
  lemma GatherCut(batch: seq<Value>, width: nat, k: nat)
    requires LongEnough(batch, width) && k < width
    ensures Gather(CutAll(batch, width), Position(k)) == Gather(batch, Position(k))
  {
    var cut := CutAll(batch, width);
    forall i | 0 <= i < |batch|
      ensures GetItem(cut[i], Position(k)) == GetItem(batch[i], Position(k))
    {
      CutItem(batch[i], width, k);
    }
    GatherSame(batch, cut, Position(k));
  }

  lemma CutItem(v: Value, width: nat, k: nat)
    requires HasItems(v) && k < width <= |v.items|
    ensures GetItem(Cut(v, width), Position(k)) == GetItem(v, Position(k))
  {
  }

  lemma {:induction false} GatherSame(a: seq<Value>, b: seq<Value>, key: Key)
    requires |a| == |b| && forall i | 0 <= i < |a| :: GetItem(b[i], key) == GetItem(a[i], key)
    ensures Gather(b, key) == Gather(a, key)
  {
    if a != [] {
      assert forall i | 0 <= i < |a| - 1 :: a[1..][i] == a[i + 1] && b[1..][i] == b[i + 1];
      GatherSame(a[1..], b[1..], key);
    }
  }

  lemma {:induction false} ColumnsCut(batch: seq<Value>, cut: seq<Value>, k: nat)
    requires batch != [] && HasItems(batch[0]) && k <= |batch[0].items| && LongEnough(batch, |batch[0].items|)
    requires cut == CutAll(batch, |batch[0].items|) && cut[0] == batch[0]
    ensures CollateColumns(batch, k) == CollateColumns(cut, k)
    decreases |batch[0].items| - k
  {
    if k < |batch[0].items| {
      GatherCut(batch, |batch[0].items|, k);
      ColumnsCut(batch, cut, k + 1);
    }
  }

  lemma {:induction false} ShortFails(batch: seq<Value>, i: nat, k: nat)
    requires batch != [] && HasItems(batch[0]) && i < |batch| && HasItems(batch[i])
    requires k <= |batch[i].items| < |batch[0].items|
    ensures CollateColumns(batch, k).Err?
    decreases |batch[0].items| - k
  {
    if k == |batch[i].items| {
      GatherFails(batch, Position(k), i);
    } else {
      ShortFails(batch, i, k + 1);
      LaterFails(batch, k);
    }
  }

  lemma LaterFails(batch: seq<Value>, k: nat)
    requires batch != [] && HasItems(batch[0]) && k < |batch[0].items| && CollateColumns(batch, k + 1).Err?
    ensures CollateColumns(batch, k).Err?
  {
  }

  // ----- what each kind of sample becomes -----

  /** Leaves: tensors are stacked if the first is dense, arrays as the tensors they become unless the first is textual,
      numbers in one tensor, texts in a plain list; any other object is refused, registered or not. */
  lemma LeafCollates(batch: seq<Value>)
    requires batch != [] && IsLeaf(batch[0])
    ensures match batch[0]
            case Tensor(layout, _) =>
              DefaultCollate(batch) == if layout == Dense then Ok(Stacked(batch)) else Err(UnsupportedLayout)
            case Array(textual, _) =>
              if textual then DefaultCollate(batch) == Err(UnsupportedType)
              else
                && DefaultCollate(batch).Ok? && DefaultCollate(batch).value.Stacked?
                && var samples := DefaultCollate(batch).value.samples;
                   |samples| == |batch| && forall i | 0 <= i < |batch| ::
                     samples[i] == if batch[i].Array? then Tensor(Dense, batch[i].data) else batch[i]
            case Text(_) => DefaultCollate(batch) == Ok(Sequence(Class("list", true, Rebuilds), batch))
            case Unknown(_) => DefaultCollate(batch) == Err(UnsupportedType)
            case _ => DefaultCollate(batch) == Ok(Stacked(batch))
  {
  }

  /** A container that rebuilds keeps its class. One that raises a type error is replaced by a plain one if it is
      immutable and fails if there is no replacement; one that raises anything else fails. */
  function ByRebuild(cls: Class, same: Value, plain: Option<Value>): Result<Value, Error> {
    match cls.rebuild
    case Rebuilds => Ok(same)
    case RaisesTypeError => if plain.Some? && !cls.mutable then Ok(plain.value) else Err(TypeError)
    case RaisesOther => Err(RebuildFailed)
  }

  /** Mappings, once their values are collated: rebuilt, or replaced by a plain dictionary. */
  lemma MappingRebuilt(batch: seq<Value>, values: seq<Entry>)
    requires batch != [] && batch[0].Mapping? && CollateEntries(batch, 0) == Ok(values)
    ensures var cls := batch[0].cls;
            DefaultCollate(batch) == ByRebuild(cls, Mapping(cls, values),
                                               Some(Mapping(Class("dict", true, Rebuilds), values)))
  {
  }

  /** Sequences, once their columns are collated: a named tuple is rebuilt and never replaced, a tuple always becomes a
      plain list, any other sequence is rebuilt or replaced by a plain list. */
  lemma ItemsRebuilt(batch: seq<Value>, columns: seq<Value>)
    requires batch != [] && HasItems(batch[0]) && CollateColumns(batch, 0) == Ok(columns)
    requires forall j | 0 < j < |batch| :: Length(batch[j]) == Ok(|batch[0].items|)
    ensures var plain := Sequence(Class("list", true, Rebuilds), columns);
            DefaultCollate(batch) == match batch[0]
                                     case NamedTuple(cls, _) => ByRebuild(cls, NamedTuple(cls, columns), None)
                                     case Sequence(cls, _) => ByRebuild(cls, Sequence(cls, columns), Some(plain))
                                     case _ => Ok(plain)
  {
    SizesEqual(batch[1..], |batch[0].items|);
  }

  // ----- which error -----

  /** What the samples under entry `k` of the first sample collate to. */
  function EntryValue(batch: seq<Value>, k: nat): Result<Value, Error>
    requires batch != [] && batch[0].Mapping? && k < |batch[0].entries|
  {
    var samples :- Gather(batch, batch[0].entries[k].key);
    DefaultCollate(samples)
  }

  /** The first key whose samples do not collate decides the error of a mapping. */
  lemma FirstKeyFails(batch: seq<Value>, k: nat)
    requires batch != [] && batch[0].Mapping? && k < |batch[0].entries| && EntryValue(batch, k).Err?
    requires forall j | 0 <= j < k :: EntryValue(batch, j).Ok?
    ensures DefaultCollate(batch) == Err(EntryValue(batch, k).error)
  {
    EntriesFail(batch, 0, k);
  }

  lemma {:induction false} EntriesFail(batch: seq<Value>, from: nat, k: nat)
    requires batch != [] && batch[0].Mapping? && from <= k < |batch[0].entries| && EntryValue(batch, k).Err?
    requires forall j | from <= j < k :: EntryValue(batch, j).Ok?
    ensures CollateEntries(batch, from) == Err(EntryValue(batch, k).error)
    decreases k - from
  {
    if from < k {
      assert EntryValue(batch, from).Ok?;
      EntriesFail(batch, from + 1, k);
    }
  }

  /** The first position whose samples do not collate decides the error of a sequence of any kind, once sizes agree. */
  lemma FirstColumnFails(batch: seq<Value>, k: nat, error: Error)
    requires batch != [] && HasItems(batch[0]) && FailsAt(batch, k, error)
    requires batch[0].NamedTuple? || forall j | 0 < j < |batch| :: Length(batch[j]) == Ok(|batch[0].items|)
    ensures DefaultCollate(batch) == Err(error)
  {
    if !batch[0].NamedTuple? { SizesEqual(batch[1..], |batch[0].items|); }
    ColumnsFail(batch, 0, error);
  }

  /** The first sample that does not answer the subscript decides the error of a column. */
  lemma {:induction false} FirstMissing(batch: seq<Value>, key: Key, i: nat)
    requires i < |batch| && GetItem(batch[i], key).Err? && forall j | 0 <= j < i :: GetItem(batch[j], key).Ok?
    ensures Gather(batch, key) == Err(GetItem(batch[i], key).error)
  {
    if i > 0 {
      assert GetItem(batch[0], key).Ok?;
      FirstMissing(batch[1..], key, i - 1);
    }
  }

  /** A mapping answers its keys, and a missing one is a key error; a sequence answers positions, one past its end is
      an index error and a name a type error; nothing else is subscripted. */
  lemma Subscripted(v: Value, key: Key)
    ensures v.Mapping? && (forall i | 0 <= i < |v.entries| :: v.entries[i].key != key) ==>
              GetItem(v, key) == Err(KeyError)
    ensures v.Mapping? ==>
              forall i | 0 <= i < |v.entries| && v.entries[i].key == key
                         && (forall j | 0 <= j < i :: v.entries[j].key != key) ::
                GetItem(v, key) == Ok(v.entries[i].value)
    ensures HasItems(v) && key.Position? && key.i >= |v.items| ==> GetItem(v, key) == Err(IndexError)
    ensures HasItems(v) && key.Position? && 0 <= key.i < |v.items| ==> GetItem(v, key) == Ok(v.items[key.i])
    ensures (HasItems(v) && key.Name?) || IsLeaf(v) ==> GetItem(v, key) == Err(TypeError)
  {
    if v.Mapping? { LookupFirst(v.entries, key); }
  }

  lemma {:induction false} LookupFirst(entries: seq<Entry>, key: Key)
    ensures Lookup(entries, key).None? <==> forall i | 0 <= i < |entries| :: entries[i].key != key
    ensures forall i | 0 <= i < |entries| && entries[i].key == key
                       && (forall j | 0 <= j < i :: entries[j].key != key) ::
              Lookup(entries, key) == Some(entries[i].value)
    decreases |entries|
  {
    if entries != [] {
      LookupFirst(entries[1..], key);
      assert forall i | 0 < i < |entries| :: entries[i] == entries[1..][i - 1];
      if entries[0].key != key {
        forall i | 0 <= i < |entries| && entries[i].key == key && (forall j | 0 <= j < i :: entries[j].key != key)
          ensures Lookup(entries, key) == Some(entries[i].value)
        {
          assert forall j | 0 <= j < i - 1 :: entries[1..][j] == entries[j + 1];
          assert entries[1..][i - 1].key == key;
        }
      }
    }
  }
}
