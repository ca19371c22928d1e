/** The older engine's `database`: a registry of named datasets that user functions
    address through their parameter names. */
module Database {

  import opened Wrappers
  import opened Text
  import opened Values
  import opened Parser
  import opened Buckets
  import opened JsArrays
  import General
  import Merger

  /** A user function as the registry sees it: its source text, whose parameter names
      name the datasets it works on, and what it computes from a row. */
  datatype UserFunction = UserFunction(text: string, apply: Selector)

  /** What `getDatasets` accepts: a name, a list of names, or a function. */
  datatype DatasetKey = Name(name: string) | Names(names: seq<string>) | Function(text: string)

  /** A function stands for its parameter names. */
  function KeyNames(key: DatasetKey): (r: Result<seq<string>>)
    ensures key.Name? ==> r == Ok([key.name])
    ensures key.Names? ==> r == Ok(key.names)
    ensures key.Function? ==> r == Parameters(key.text)
  {
    match key
    case Name(n) => Ok([n])
    case Names(ns) => Ok(ns)
    case Function(t) => Parameters(t)
  }

  /** How the key reads inside the "more than one dataset" message. */
  function KeyText(key: DatasetKey): string {
    match key
    case Name(n) => n
    case Names(ns) => Join(ns, ",")
    case Function(t) => t
  }

  /** Reading `.data` of the `undefined` that a missing dataset lookup returns. */
  const UndefinedData := TypeError("Cannot read properties of undefined (reading 'data')")

  /** The older engine's `dataset`: a name and its rows. */
  class Dataset {
    const key: string
    var data: seq<Value>

    constructor (key: string, data: seq<Value>)
      ensures this.key == key && this.data == data
    {
      this.key := key;
      this.data := data;
    }
  }

  /** `datasets.filter(ds => keys.some(k => ds.key == k))`. */
  function Named(dss: seq<Dataset>, names: seq<string>): seq<Dataset>
    decreases |dss|
  {
    if dss == [] then []
    else Named(dss[..|dss| - 1], names) + (if dss[|dss| - 1].key in names then [dss[|dss| - 1]] else [])
  }

  /** The index of the first dataset whose name is one of `names`. */
  function FirstNamed(dss: seq<Dataset>, names: seq<string>): (r: Option<nat>)
    ensures r.None? <==> forall i :: 0 <= i < |dss| ==> dss[i].key !in names
    ensures r.Some? ==> (r.value < |dss| && dss[r.value].key in names
                         && forall j :: 0 <= j < r.value ==> dss[j].key !in names)
    decreases |dss|
  {
    if dss == [] then None
    else if dss[0].key in names then Some(0)
    else match FirstNamed(dss[1..], names)
      case None => None
      case Some(i) => Some(i + 1)
  }

  /** The rows `group` gives a dataset: its buckets under the selector's key. */
  function GroupedRows(data: seq<Value>, sel: Selector): (r: Result<seq<Value>>)
    ensures r.Err? <==> Grouped(data, sel).None?
    ensures r.Err? ==> r.error == NullKey
  {
    match Grouped(data, sel)
    case None => Err(NullKey)
    case Some(t) =>
      AddAllValid(EmptyTable, data, sel);
      Ok(BucketRows(t.order, t.buckets))
  }

  /** `hashBuckets(...).getBuckets()` as the rows of a grouped dataset. */
  function BucketRows(order: seq<string>, buckets: map<string, seq<Value>>): (r: seq<Value>)
    requires forall k :: k in order ==> k in buckets
    ensures |r| == |order|
    decreases |order|
  {
    if order == [] then [] else [Arr(buckets[order[0]])] + BucketRows(order[1..], buckets)
  }

  class Database {
    var datasets: seq<Dataset>

    /** `addSource` always makes a new dataset, so no dataset is listed twice. */
    ghost predicate Valid()
      reads this
    {
      forall i, j :: 0 <= i < j < |datasets| ==> datasets[i] != datasets[j]
    }

    constructor ()
      ensures Valid() && datasets == []
    {
      datasets := [];
    }

    /** `getDatasets(key, errorIfNotFound)`: the datasets named by the key, in
        registration order; with the flag set, fails unless there are as many as names. */
    function GetDatasets(key: DatasetKey, errorIfNotFound: bool): (r: Result<seq<Dataset>>)
      reads this
    {
      match KeyNames(key)
      case Err(e) => Err(e)
      case Ok(names) =>
        var found := Named(datasets, names);
        if errorIfNotFound && |found| != |names| then Err(MissingDataset) else Ok(found)
    }

    /** `getDataset(key)`: the one dataset named by the key (`undefined` for none);
        fails when there are several. */
    function GetDataset(key: DatasetKey): (r: Result<Option<Dataset>>)
      reads this
    {
      match GetDatasets(key, false)
      case Err(e) => Err(e)
      case Ok(dss) =>
        if |dss| > 1 then Err(AmbiguousDataset(KeyText(key)))
        else if dss == [] then Ok(None)
        else Ok(Some(dss[0]))
    }

    /** The position of the dataset `getDataset(key)` returns; reading `.data` of the
        `undefined` returned for no dataset fails. */
    function Locate(key: DatasetKey): (r: Result<nat>)
      requires Valid()
      reads this
      ensures r.Ok? ==> r.value < |datasets| && GetDataset(key) == Ok(Some(datasets[r.value]))
      ensures r.Err? ==> (GetDataset(key).Err? && r.error == GetDataset(key).error)
                         || (GetDataset(key) == Ok(None) && r.error == UndefinedData)
    {
      match GetDataset(key)
      case Err(e) => Err(e)
      case Ok(None) => Err(UndefinedData)
      case Ok(Some(d)) =>
        var names := KeyNames(key).value;
        NamedHead(datasets, names);
        Ok(FirstNamed(datasets, names).value)
    }

    /** `addSource(key, data)`: registers a new dataset at the end. */
    method AddSource(key: string, data: seq<Value>)
      requires Valid()
      modifies this
      ensures Valid()
      ensures |datasets| == |old(datasets)| + 1 && datasets[..|old(datasets)|] == old(datasets)
      ensures fresh(datasets[|old(datasets)|])
      ensures datasets[|old(datasets)|].key == key && datasets[|old(datasets)|].data == data
    {
      var ds := new Dataset(key, data);
      datasets := datasets + [ds];
    }

    /** `removeSource(key)`: drops the first dataset with that name, if any. */
    method RemoveSource(key: string)
      requires Valid()
      modifies this
      ensures Valid()
      ensures match FirstNamed(old(datasets), [key])
        case None => datasets == old(datasets)
        case Some(i) => datasets == old(datasets)[..i] + old(datasets)[i + 1..]
    {
      for i := 0 to |datasets|
        invariant datasets == old(datasets)
        invariant forall j :: 0 <= j < i ==> datasets[j].key !in [key]
      {
        var ds := datasets[i];
        if ds.key == key {
          datasets := datasets[..i] + datasets[i + 1..];
          assert forall a :: 0 <= a < |datasets| ==> datasets[a] == old(datasets)[if a < i then a else a + 1];
          return;
        }
      }
    }

    /** `group(groupKeySelector)`: the dataset the selector's parameter names gets its
        rows replaced by their buckets under the selector's key. */
    method Group(groupKeySelector: UserFunction) returns (r: Result<()>)
      requires Valid()
      modifies datasets
      ensures var g := Locate(Function(groupKeySelector.text));
        (g.Err? ==> r == Err(g.error))
        && (g.Ok? ==>
              var res := GroupedRows(old(datasets[g.value].data), groupKeySelector.apply);
              (res.Err? ==> r == Err(res.error) && datasets[g.value].data == old(datasets[g.value].data))
              && (res.Ok? ==> r == Ok(()) && datasets[g.value].data == res.value))
      ensures forall i :: 0 <= i < |datasets| && Locate(Function(groupKeySelector.text)) != Ok(i) ==>
        datasets[i].data == old(datasets[i].data)
    {
      var loc := Locate(Function(groupKeySelector.text));
      if loc.Err? {
        return Err(loc.error);
      }
      var ds := datasets[loc.value];
      var rows := GroupData(ds.data, groupKeySelector.apply);
      if rows.Err? {
        return Err(rows.error);
      }
      ds.data := rows.value;
      return Ok(());
    }

    /** `merge(type, targetIdentityKey, sourceIdentityKey)`: the dataset the target key
        names gets `merger`'s result on its rows and those of the dataset the source key
        names. Both lookups happen before either `.data` is read. */
    method Merge(mergeType: Merger.MergeType, targetIdentityKey: UserFunction, sourceIdentityKey: UserFunction)
      returns (r: Result<()>)
      requires Valid()
      modifies datasets
      ensures var tl, sl := Locate(Function(targetIdentityKey.text)), Locate(Function(sourceIdentityKey.text));
        var tg, sg := GetDataset(Function(targetIdentityKey.text)), GetDataset(Function(sourceIdentityKey.text));
        (tg.Err? ==> r == Err(tg.error))
        && (tg.Ok? && sg.Err? ==> r == Err(sg.error))
        && (tg.Ok? && sg.Ok? && (tl.Err? || sl.Err?) ==> r == Err(UndefinedData))
        && (tl.Ok? && sl.Ok? ==>
              var m := Merger.Merged(mergeType, old(datasets[tl.value].data), old(datasets[sl.value].data),
                                     targetIdentityKey.apply, sourceIdentityKey.apply);
              (m.Err? ==> r == Err(m.error))
              && (m.Ok? ==> r == Ok(()) && datasets[tl.value].data == m.value)
              && datasets[tl.value].data
                 == Merger.LeftBehind(mergeType, old(datasets[tl.value].data), old(datasets[sl.value].data),
                                      targetIdentityKey.apply, sourceIdentityKey.apply))
      ensures forall i :: 0 <= i < |datasets| && Locate(Function(targetIdentityKey.text)) != Ok(i) ==>
        datasets[i].data == old(datasets[i].data)
    {
      var tg := GetDataset(Function(targetIdentityKey.text));
      if tg.Err? {
        return Err(tg.error);
      }
      var sg := GetDataset(Function(sourceIdentityKey.text));
      if sg.Err? {
        return Err(sg.error);
      }
      var tl, sl := Locate(Function(targetIdentityKey.text)), Locate(Function(sourceIdentityKey.text));
      if tl.Err? || sl.Err? {
        return Err(UndefinedData);
      }
      var target, source := datasets[tl.value], datasets[sl.value];
      r := MergeInto(target, source.data, mergeType, targetIdentityKey.apply, sourceIdentityKey.apply);
      forall i | 0 <= i < |datasets| && i != tl.value ensures datasets[i] != target {
        assert datasets[i] != datasets[tl.value];
      }
    }
  }

  /** `merger(type, target.data, source.data, …)` on the target dataset's own array: the
      rows it changes in place stay changed even when it throws. */
  method MergeInto(target: Dataset, sourceData: seq<Value>, mergeType: Merger.MergeType, tk: Selector, sk: Selector)
    returns (r: Result<()>)
    modifies target
    ensures var m := Merger.Merged(mergeType, old(target.data), sourceData, tk, sk);
      (m.Err? ==> r == Err(m.error)) && (m.Ok? ==> r == Ok(()) && target.data == m.value)
    ensures target.data == Merger.LeftBehind(mergeType, old(target.data), sourceData, tk, sk)
  {
    var targetRows := new JsArray(target.data);
    var merged := Merger.Merge(mergeType, targetRows, sourceData, tk, sk);
    target.data := targetRows.items;
    if merged.Err? {
      return Err(merged.error);
    }
    return Ok(());
  }

  /** `new hashBuckets(sel).addItems(data).getBuckets()`. */
  method GroupData(data: seq<Value>, sel: Selector) returns (r: Result<seq<Value>>)
    ensures r == GroupedRows(data, sel)
  {
    var buckets := new HashBuckets(sel);
    var ok := buckets.AddItems(data);
    if !ok {
      return Err(NullKey);
    }
    assert Grouped(data, sel) == Some(buckets.State());
    var rows := BucketsAsRows(buckets);
    return Ok(rows);
  }

  /** `getBuckets()`, each bucket an array row. */
  method BucketsAsRows(buckets: HashBuckets) returns (rows: seq<Value>)
    requires buckets.Valid()
    ensures forall k :: k in buckets.order ==> k in buckets.buckets
    ensures rows == BucketRows(buckets.order, buckets.buckets)
  {
    var grouped := buckets.GetBuckets();
    rows := WrapRows(grouped, buckets.order, buckets.buckets);
  }

  /** Each bucket of `grouped`, listed in `order`, as an array row. */
  method WrapRows(grouped: seq<seq<Value>>, ghost order: seq<string>, ghost bs: map<string, seq<Value>>)
      returns (rows: seq<Value>)
    requires forall k :: k in order ==> k in bs
    requires |grouped| == |order|
    requires forall i :: 0 <= i < |grouped| ==> grouped[i] == bs[order[i]]
    ensures rows == BucketRows(order, bs)
  {
    rows := [];
    for i := 0 to |grouped|
      invariant rows == BucketRows(order[..i], bs)
    {
      BucketRowsStep(order, i, bs);
      rows := rows + [Arr(grouped[i])];
    }
    assert order[..|grouped|] == order;
  }

  // ---------------------------------------------------------------------------
  // Properties of the lookups.

  /** A dataset is found exactly when it is registered and one of the names is its own. */
  lemma {:induction false} NamedMembers(dss: seq<Dataset>, names: seq<string>, d: Dataset)
    ensures d in Named(dss, names) <==> d in dss && d.key in names
    decreases |dss|
  {
    if dss != [] {
      NamedMembers(dss[..|dss| - 1], names, d);
      assert dss == dss[..|dss| - 1] + [dss[|dss| - 1]];
    }
  }

  lemma {:induction false} NamedAppend(a: seq<Dataset>, b: seq<Dataset>, names: seq<string>)
    ensures Named(a + b, names) == Named(a, names) + Named(b, names)
    decreases |b|
  {
    if b == [] {
      assert a + b == a;
    } else {
      NamedAppend(a, b[..|b| - 1], names);
      assert (a + b)[..|a + b| - 1] == a + b[..|b| - 1];
    }
  }

  /** The first dataset found is the first one registered under one of the names. */
  lemma {:induction false} NamedHead(dss: seq<Dataset>, names: seq<string>)
    ensures Named(dss, names) != [] <==> FirstNamed(dss, names).Some?
    ensures Named(dss, names) != [] ==> Named(dss, names)[0] == dss[FirstNamed(dss, names).value]
    decreases |dss|
  {
    if dss != [] {
      NamedAppend([dss[0]], dss[1..], names);
      assert [dss[0]] + dss[1..] == dss;
      assert [dss[0]][..0] == [];
      NamedHead(dss[1..], names);
    }
  }

  lemma NamedNone(dss: seq<Dataset>, names: seq<string>)
    requires forall i :: 0 <= i < |dss| ==> dss[i].key !in names
    ensures Named(dss, names) == []
  {
    if Named(dss, names) != [] {
      var d := Named(dss, names)[0];
      NamedMembers(dss, names, d);
    }
  }

  /** A source registered under a fresh name is what looking that name up returns. */
  lemma AddedSourceFound(db: seq<Dataset>, d: Dataset)
    requires forall i :: 0 <= i < |db| ==> db[i].key != d.key
    ensures Named(db + [d], [d.key]) == [d]
  {
    NamedAppend(db, [d], [d.key]);
    NamedNone(db, [d.key]);
    assert [d][..0] == [];
  }

  /** Removing a source makes one fewer dataset answer to its name, and leaves the
      others registered in their order. */
  lemma RemovedSourceCount(dss: seq<Dataset>, key: string)
    requires FirstNamed(dss, [key]).Some?
    ensures var i := FirstNamed(dss, [key]).value;
      |Named(dss[..i] + dss[i + 1..], [key])| == |Named(dss, [key])| - 1
  {
    var i := FirstNamed(dss, [key]).value;
    assert dss == dss[..i] + [dss[i]] + dss[i + 1..];
    NamedAppend(dss[..i] + [dss[i]], dss[i + 1..], [key]);
    NamedAppend(dss[..i], [dss[i]], [key]);
    NamedAppend(dss[..i], dss[i + 1..], [key]);
    assert [dss[i]][..0] == [];
  }

  /** Two datasets answering to the names make at least two found. */
  lemma {:induction false} NamedTwo(dss: seq<Dataset>, names: seq<string>, i: nat, j: nat)
    requires i < j < |dss| && dss[i].key in names && dss[j].key in names
    ensures |Named(dss, names)| >= 2
    decreases |dss|
  {
    var n := |dss| - 1;
    assert dss[..n][i] == dss[i];
    if j == n {
      NamedMembers(dss[..n], names, dss[i]);
    } else {
      assert dss[..n][j] == dss[j];
      NamedTwo(dss[..n], names, i, j);
    }
  }

  /** At least two found means two datasets answering to the names. */
  lemma {:induction false} NamedMany(dss: seq<Dataset>, names: seq<string>)
    requires |Named(dss, names)| >= 2
    ensures exists i, j :: 0 <= i < j < |dss| && dss[i].key in names && dss[j].key in names
    decreases |dss|
  {
    var n := |dss| - 1;
    if dss[n].key in names {
      var d := Named(dss[..n], names)[0];
      NamedMembers(dss[..n], names, d);
      var i :| 0 <= i < n && dss[..n][i] == d;
      assert dss[i].key in names && dss[n].key in names;
    } else {
      NamedMany(dss[..n], names);
      var i, j :| 0 <= i < j < n && dss[..n][i].key in names && dss[..n][j].key in names;
      assert dss[i].key in names && dss[j].key in names;
    }
  }

  /** `getDatasets` finds exactly the registered datasets answering to one of the key's
      names; without the flag it fails only when a function key cannot be parsed, and
      with it exactly when fewer or more are found than there are names. */
  lemma GetDatasetsFinds(db: Database, key: DatasetKey, errorIfNotFound: bool, d: Dataset)
    ensures KeyNames(key).Err? ==> db.GetDatasets(key, errorIfNotFound) == Err(KeyNames(key).error)
    ensures KeyNames(key).Ok? ==>
      var names := KeyNames(key).value;
      (db.GetDatasets(key, errorIfNotFound).Err? <==> errorIfNotFound && |Named(db.datasets, names)| != |names|)
      && (db.GetDatasets(key, errorIfNotFound).Ok? ==>
            (d in db.GetDatasets(key, errorIfNotFound).value <==> d in db.datasets && d.key in names))
  {
    if KeyNames(key).Ok? {
      NamedMembers(db.datasets, KeyNames(key).value, d);
    }
  }

  /** `getDataset` returns `undefined` exactly when no registered dataset answers to the
      key's names, fails as ambiguous exactly when two do, and otherwise returns the one
      that does. */
  lemma GetDatasetFinds(db: Database, key: DatasetKey)
    requires KeyNames(key).Ok?
    ensures var names, r := KeyNames(key).value, db.GetDataset(key);
      (r.Err? <==> exists i, j :: 0 <= i < j < |db.datasets| && db.datasets[i].key in names && db.datasets[j].key in names)
      && (r.Err? ==> r.error == AmbiguousDataset(KeyText(key)))
      && (r == Ok(None) <==> forall i :: 0 <= i < |db.datasets| ==> db.datasets[i].key !in names)
      && (r.Ok? && r.value.Some? ==>
            forall i :: 0 <= i < |db.datasets| ==> (db.datasets[i].key in names <==> db.datasets[i] == r.value.value))
  {
    var names, dss := KeyNames(key).value, db.datasets;
    NamedHead(dss, names);
    if |Named(dss, names)| >= 2 {
      NamedMany(dss, names);
    } else {
      forall i, j | 0 <= i < j < |dss| && dss[i].key in names
        ensures dss[j].key !in names
      {
        if dss[j].key in names {
          NamedTwo(dss, names, i, j);
        }
      }
      if Named(dss, names) != [] {
        var f := FirstNamed(dss, names).value;
        forall i | 0 <= i < |dss|
          ensures dss[i].key in names <==> dss[i] == dss[f]
        {
          if dss[i] == dss[f] {
            NamedMembers(dss, names, dss[f]);
          }
        }
      }
    }
  }

  lemma BucketRowsStep(order: seq<string>, i: nat, bs: map<string, seq<Value>>)
    requires forall k :: k in order ==> k in bs
    requires i < |order|
    ensures forall k :: k in order[..i] ==> k in bs
    ensures BucketRows(order[..i + 1], bs) == BucketRows(order[..i], bs) + [Arr(bs[order[i]])]
  {
    assert order[..i + 1] == order[..i] + [order[i]];
    BucketRowsSnoc(order[..i], order[i], bs);
  }

  lemma {:induction false} BucketRowsSnoc(order: seq<string>, k: string, buckets: map<string, seq<Value>>)
    requires forall x :: x in order ==> x in buckets
    requires k in buckets
    ensures BucketRows(order + [k], buckets) == BucketRows(order, buckets) + [Arr(buckets[k])]
    decreases |order|
  {
    if order == [] {
      assert [k][1..] == [];
    } else {
      assert (order + [k])[1..] == order[1..] + [k];
      BucketRowsSnoc(order[1..], k, buckets);
    }
  }

  lemma {:induction false} BucketRowsFlatten(order: seq<string>, buckets: map<string, seq<Value>>)
    requires forall x :: x in order ==> x in buckets
    ensures General.Flatten(BucketRows(order, buckets)) == Flat(order, buckets)
    decreases |order|
  {
    if order != [] {
      BucketRowsFlatten(order[1..], buckets);
      var rows := BucketRows(order, buckets);
      assert rows[0] == Arr(buckets[order[0]]) && rows[1..] == BucketRows(order[1..], buckets);
    }
  }

  /** Grouping a dataset loses and invents no row: flattening the buckets one level gives
      back a permutation of the rows. */
  lemma GroupedRowsPermute(data: seq<Value>, sel: Selector)
    requires Grouped(data, sel).Some?
    ensures var t := Grouped(data, sel).value;
      (forall k :: k in t.order ==> k in t.buckets)
      && multiset(General.Flatten(BucketRows(t.order, t.buckets))) == multiset(data)
  {
    var t := Grouped(data, sel).value;
    GroupedBuckets(data, sel, "");
    BucketRowsFlatten(t.order, t.buckets);
  }

  // ---------------------------------------------------------------------------
  // The older `dataset.callNested`.

  /** What `for (... of maybeNested)` throws on a plain object. */
  const NotIterable := TypeError("maybeNested is not iterable")

  /** `callNested(op, fromArrayProto, maybeNested)`: applies the operation to the value
      when its element 0 is not an array, and otherwise recurses into each element.
      Reading element 0 of `null` or `undefined` throws. */
  function CallNested(op: Value -> Value, maybeNested: Value): (r: Result<Value>)
    ensures maybeNested.Null? || maybeNested.Undef? ==> r.Err?
    // Not nested: the operation is applied to the value itself.
    ensures !maybeNested.Null? && !maybeNested.Undef? && !PropOf(maybeNested, "0").Arr? ==> r == Ok(op(maybeNested))
    // Nested: one result per element, in order.
    ensures r.Ok? && PropOf(maybeNested, "0").Arr? ==>
      maybeNested.Arr? && r.value.Arr? && |r.value.items| == |maybeNested.items|
    decreases maybeNested
  {
    if maybeNested.Null? || maybeNested.Undef? then Err(TypeError("Cannot read properties of null (reading '0')"))
    else if !PropOf(maybeNested, "0").Arr? then Ok(op(maybeNested))
    else if !maybeNested.Arr? then Err(NotIterable)
    else CallEach(op, maybeNested.items, maybeNested)
  }

  function CallEach(op: Value -> Value, items: seq<Value>, ghost parent: Value): (r: Result<Value>)
    requires forall i :: 0 <= i < |items| ==> items[i] < parent
    ensures r.Ok? ==> r.value.Arr? && |r.value.items| == |items|
    decreases parent, |items|
  {
    if items == [] then Ok(Arr([]))
    else match CallEach(op, items[..|items| - 1], parent)
      case Err(e) => Err(e)
      case Ok(done) =>
        match CallNested(op, items[|items| - 1])
        case Err(e) => Err(e)
        case Ok(v) => Ok(Arr(done.items + [v]))
  }

  /** Values reached by descending while element 0 is an array: `callNested` succeeds on
      them whatever the operation. */
  predicate Nesting(v: Value)
    decreases v
  {
    match v
    case Null => false
    case Undef => false
    case Arr(items) =>
      |items| == 0 || !items[0].Arr? || (forall i :: 0 <= i < |items| ==> Nesting(items[i]))
    case Obj(_) => !PropOf(v, "0").Arr?
    case _ => true
  }

  /** `callNested` keeps the nesting: on a value whose element 0 is an array, it returns
      an array with one result per element, each the call on that element. */
  lemma {:induction false} CallNestedShape(op: Value -> Value, items: seq<Value>, parent: Value)
    requires forall i :: 0 <= i < |items| ==> items[i] < parent
    requires forall i :: 0 <= i < |items| ==> CallNested(op, items[i]).Ok?
    ensures CallEach(op, items, parent).Ok? && CallEach(op, items, parent).value.Arr?
    ensures |CallEach(op, items, parent).value.items| == |items|
    ensures forall i :: 0 <= i < |items| ==> CallEach(op, items, parent).value.items[i] == CallNested(op, items[i]).value
    decreases |items|
  {
    if items != [] {
      CallNestedShape(op, items[..|items| - 1], parent);
    }
  }

  /** Passing the identity operation through `callNested` changes nothing. */
  lemma {:induction false} CallNestedIdentity(op: Value -> Value, v: Value)
    requires forall x :: op(x) == x
    requires Nesting(v)
    ensures CallNested(op, v) == Ok(v)
    decreases v
  {
    if v.Arr? && PropOf(v, "0").Arr? {
      var items := v.items;
      assert items != [] && items[0].Arr? by {
        PropOfFirst(items);
      }
      forall i | 0 <= i < |items|
        ensures CallNested(op, items[i]) == Ok(items[i])
      {
        CallNestedIdentity(op, items[i]);
      }
      CallNestedShape(op, items, v);
      assert CallEach(op, items, v).value.items == items;
    } else if v.Obj? {
      assert !PropOf(v, "0").Arr?;
    }
  }

  lemma PropOfFirst(items: seq<Value>)
    ensures PropOf(Arr(items), "0").Arr? <==> items != [] && items[0].Arr?
  {
    ParseIndexOfNat(0);
  }
}
