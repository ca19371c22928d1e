/** `runEmulators`: gathering one column of row values per aggregate key, then handing
    each column to its processor. */
module Emulators {

  import opened Wrappers
  import opened Values

  /** An aggregate function over a gathered column (a user or numeric reducer). */
  type Processor = seq<Value> -> Value

  /** `new emulator(processor, rowValue)`. */
  datatype Emulator = Emulator(processor: Processor, rowValue: Value)

  datatype Column = Column(key: string, emulator: Emulator)

  /** What `emulatorsFunc(row)` returns: one bare emulator, or an object of them. */
  datatype Emulators = Naked(emulator: Emulator) | Columns(columns: seq<Column>)

  /** A bare emulator is treated as `{ x: emulator }`. */
  function ColumnsOf(e: Emulators): (r: seq<Column>)
    ensures e.Naked? ==> r == [Column("x", e.emulator)]
  {
    match e
    case Naked(em) => [Column("x", em)]
    case Columns(cs) => cs
  }

  /** One entry of `keyStores`: the processor of the key's first emulator and the
      gathered row values. */
  datatype Store = Store(processor: Processor, data: seq<Value>)

  /** `keyStores`: its keys in insertion order and its entries. */
  datatype Stores = Stores(order: seq<string>, byKey: map<string, Store>)

  ghost predicate StoresValid(s: Stores) {
    (forall i, j :: 0 <= i < j < |s.order| ==> s.order[i] != s.order[j])
    && (forall k :: k in s.byKey <==> k in s.order)
  }

  // ---------------------------------------------------------------------------
  // The gathering, as a left fold over the rows and, within a row, over its keys.

  /** `keyStores[key]` is opened on first sight of the key, then the row value pushed. */
  function AddColumn(s: Stores, c: Column): Stores {
    if c.key in s.byKey then
      Stores(s.order, s.byKey[c.key := Store(s.byKey[c.key].processor, s.byKey[c.key].data + [c.emulator.rowValue])])
    else
      Stores(s.order + [c.key], s.byKey[c.key := Store(c.emulator.processor, [c.emulator.rowValue])])
  }

  function AddColumns(s: Stores, cs: seq<Column>): Stores
    decreases |cs|
  {
    if cs == [] then s else AddColumn(AddColumns(s, cs[..|cs| - 1]), cs[|cs| - 1])
  }

  function Gather(rows: seq<Value>, f: Value -> Emulators): Stores
    decreases |rows|
  {
    if rows == [] then Stores([], map[])
    else AddColumns(Gather(rows[..|rows| - 1], f), ColumnsOf(f(rows[|rows| - 1])))
  }

  predicate AnyNaked(rows: seq<Value>, f: Value -> Emulators) {
    exists i :: 0 <= i < |rows| && f(rows[i]).Naked?
  }

  /** `keyStores[key] = processor(data)` for each key, in key order. */
  function Processed(order: seq<string>, byKey: map<string, Store>): (r: seq<Field>)
    requires forall k :: k in order ==> k in byKey
    ensures |r| == |order|
    ensures forall i :: 0 <= i < |order| ==> r[i] == Field(order[i], byKey[order[i]].processor(byKey[order[i]].data))
    decreases |order|
  {
    if order == [] then []
    else Processed(order[..|order| - 1], byKey) + [Field(order[|order| - 1], byKey[order[|order| - 1]].processor(byKey[order[|order| - 1]].data))]
  }

  /** What `runEmulators` returns: the object of aggregates, or its `x` entry when some
      row returned a bare emulator. */
  ghost function Emulated(rows: seq<Value>, f: Value -> Emulators): Value {
    var s := Gather(rows, f);
    GatherValid(rows, f);
    var fields := Processed(s.order, s.byKey);
    if AnyNaked(rows, f) then Get(fields, "x") else Obj(fields)
  }

  // ---------------------------------------------------------------------------
  // The method.

  /** `for (let key of Object.keys(emulators))`: one row's keys. */
  method GatherRow(stores: Stores, columns: seq<Column>) returns (r: Stores)
    ensures r == AddColumns(stores, columns)
  {
    r := stores;
    for j := 0 to |columns|
      invariant r == AddColumns(stores, columns[..j])
    {
      assert columns[..j + 1][..j] == columns[..j];
      ghost var before := r;
      var key := columns[j].key;
      var rowValue := columns[j].emulator.rowValue;
      if key !in r.byKey {
        r := Stores(r.order + [key], r.byKey[key := Store(columns[j].emulator.processor, [])]);
      }
      r := Stores(r.order, r.byKey[key := Store(r.byKey[key].processor, r.byKey[key].data + [rowValue])]);
      if key !in before.byKey {
        assert [] + [rowValue] == [rowValue];
        assert r.byKey == before.byKey[key := Store(columns[j].emulator.processor, [rowValue])];
      }
      assert r == AddColumn(before, columns[j]);
    }
    assert columns[..|columns|] == columns;
  }

  /** `runEmulators(dataset, emulatorsFunc)`. */
  method RunEmulators(dataset: seq<Value>, emulatorsFunc: Value -> Emulators) returns (r: Value)
    ensures r == Emulated(dataset, emulatorsFunc)
  {
    var keyStores := Stores([], map[]);
    var isNaked := false;
    for i := 0 to |dataset|
      invariant keyStores == Gather(dataset[..i], emulatorsFunc)
      invariant isNaked <==> AnyNaked(dataset[..i], emulatorsFunc)
    {
      assert dataset[..i + 1][..i] == dataset[..i];
      var emulators := emulatorsFunc(dataset[i]);
      if emulators.Naked? {
        isNaked := true;
      }
      keyStores := GatherRow(keyStores, ColumnsOf(emulators));
      assert AnyNaked(dataset[..i + 1], emulatorsFunc) <==> AnyNaked(dataset[..i], emulatorsFunc) || emulators.Naked? by {
        if emulators.Naked? {
          assert dataset[..i + 1][i] == dataset[i];
        }
        if AnyNaked(dataset[..i + 1], emulatorsFunc) {
          var x :| 0 <= x < i + 1 && emulatorsFunc(dataset[..i + 1][x]).Naked?;
          if x < i {
            assert dataset[..i][x] == dataset[..i + 1][x];
          }
        }
      }
    }
    assert dataset[..|dataset|] == dataset;
    GatherValid(dataset, emulatorsFunc);
    var fields := [];
    for i := 0 to |keyStores.order|
      invariant fields == Processed(keyStores.order[..i], keyStores.byKey)
    {
      assert keyStores.order[..i + 1][..i] == keyStores.order[..i];
      var key := keyStores.order[i];
      fields := fields + [Field(key, keyStores.byKey[key].processor(keyStores.byKey[key].data))];
    }
    assert keyStores.order[..|keyStores.order|] == keyStores.order;
    if isNaked {
      r := Get(fields, "x");
    } else {
      r := Obj(fields);
    }
  }

  // ---------------------------------------------------------------------------
  // What the gathering computes.

  lemma AddColumnValid(s: Stores, c: Column)
    requires StoresValid(s)
    ensures StoresValid(AddColumn(s, c))
  {
  }

  lemma {:induction false} AddColumnsValid(s: Stores, cs: seq<Column>)
    requires StoresValid(s)
    ensures StoresValid(AddColumns(s, cs))
    decreases |cs|
  {
    if cs != [] {
      AddColumnsValid(s, cs[..|cs| - 1]);
      AddColumnValid(AddColumns(s, cs[..|cs| - 1]), cs[|cs| - 1]);
    }
  }

  /** Each key appears once in the key order, and the order lists exactly the keys. */
  lemma {:induction false} GatherValid(rows: seq<Value>, f: Value -> Emulators)
    ensures StoresValid(Gather(rows, f))
    decreases |rows|
  {
    if rows != [] {
      GatherValid(rows[..|rows| - 1], f);
      AddColumnsValid(Gather(rows[..|rows| - 1], f), ColumnsOf(f(rows[|rows| - 1])));
    }
  }

  /** The gathered values of key `k` so far (none when the key is not open). */
  function DataOf(s: Stores, k: string): seq<Value> {
    if k in s.byKey then s.byKey[k].data else []
  }

  /** The row values one row contributes to key `k`. */
  function RowColumn(cs: seq<Column>, k: string): seq<Value>
    decreases |cs|
  {
    if cs == [] then []
    else RowColumn(cs[..|cs| - 1], k) + (if cs[|cs| - 1].key == k then [cs[|cs| - 1].emulator.rowValue] else [])
  }

  /** Column `k` of the rows: each row's value for `k`, in row order, skipping rows that
      have no `k`. */
  function ColumnOf(rows: seq<Value>, f: Value -> Emulators, k: string): seq<Value>
    decreases |rows|
  {
    if rows == [] then []
    else ColumnOf(rows[..|rows| - 1], f, k) + RowColumn(ColumnsOf(f(rows[|rows| - 1])), k)
  }

  lemma {:induction false} AddColumnsData(s: Stores, cs: seq<Column>, k: string)
    ensures DataOf(AddColumns(s, cs), k) == DataOf(s, k) + RowColumn(cs, k)
    ensures k in AddColumns(s, cs).byKey <==> k in s.byKey || RowColumn(cs, k) != []
    decreases |cs|
  {
    if cs != [] {
      AddColumnsData(s, cs[..|cs| - 1], k);
    }
  }

  /** The store of key `k` holds exactly column `k` of the rows, and is open exactly when
      that column is not empty. */
  lemma {:induction false} GatherColumn(rows: seq<Value>, f: Value -> Emulators, k: string)
    ensures DataOf(Gather(rows, f), k) == ColumnOf(rows, f, k)
    ensures k in Gather(rows, f).byKey <==> ColumnOf(rows, f, k) != []
    decreases |rows|
  {
    if rows != [] {
      GatherColumn(rows[..|rows| - 1], f, k);
      AddColumnsData(Gather(rows[..|rows| - 1], f), ColumnsOf(f(rows[|rows| - 1])), k);
    }
  }

  /** The first emulator with key `k` among one row's keys. */
  function FirstInRow(cs: seq<Column>, k: string): Option<Emulator>
    decreases |cs|
  {
    if cs == [] then None
    else if cs[0].key == k then Some(cs[0].emulator)
    else FirstInRow(cs[1..], k)
  }

  /** The first emulator with key `k` over the rows. */
  function FirstEmulator(rows: seq<Value>, f: Value -> Emulators, k: string): Option<Emulator>
    decreases |rows|
  {
    if rows == [] then None
    else match FirstInRow(ColumnsOf(f(rows[0])), k)
      case Some(e) => Some(e)
      case None => FirstEmulator(rows[1..], f, k)
  }

  lemma {:induction false} AddColumnsProcessor(s: Stores, cs: seq<Column>, k: string)
    ensures k in s.byKey ==> k in AddColumns(s, cs).byKey && AddColumns(s, cs).byKey[k].processor == s.byKey[k].processor
    ensures k !in s.byKey && FirstInRow(cs, k).Some? ==>
      k in AddColumns(s, cs).byKey && AddColumns(s, cs).byKey[k].processor == FirstInRow(cs, k).value.processor
    ensures k !in s.byKey && FirstInRow(cs, k).None? ==> k !in AddColumns(s, cs).byKey
    decreases |cs|
  {
    if cs != [] {
      var init := cs[..|cs| - 1];
      AddColumnsProcessor(s, init, k);
      FirstInRowSnoc(init, cs[|cs| - 1], k);
      assert init + [cs[|cs| - 1]] == cs;
    }
  }

  lemma {:induction false} FirstInRowSnoc(cs: seq<Column>, c: Column, k: string)
    ensures FirstInRow(cs + [c], k) == if FirstInRow(cs, k).Some? then FirstInRow(cs, k) else if c.key == k then Some(c.emulator) else None
    decreases |cs|
  {
    if cs == [] {
      assert [c][1..] == [];
    } else {
      assert (cs + [c])[1..] == cs[1..] + [c];
      FirstInRowSnoc(cs[1..], c, k);
    }
  }

  lemma {:induction false} FirstEmulatorSnoc(rows: seq<Value>, row: Value, f: Value -> Emulators, k: string)
    ensures FirstEmulator(rows + [row], f, k)
      == if FirstEmulator(rows, f, k).Some? then FirstEmulator(rows, f, k) else FirstInRow(ColumnsOf(f(row)), k)
    decreases |rows|
  {
    if rows == [] {
      assert [row][1..] == [];
    } else {
      assert (rows + [row])[1..] == rows[1..] + [row];
      FirstEmulatorSnoc(rows[1..], row, f, k);
    }
  }

  /** Each key's processor is the one of the first emulator with that key; later rows
      only contribute their values. */
  lemma {:induction false} GatherProcessor(rows: seq<Value>, f: Value -> Emulators, k: string)
    ensures k in Gather(rows, f).byKey <==> FirstEmulator(rows, f, k).Some?
    ensures k in Gather(rows, f).byKey ==> Gather(rows, f).byKey[k].processor == FirstEmulator(rows, f, k).value.processor
    decreases |rows|
  {
    if rows != [] {
      var init := rows[..|rows| - 1];
      var last := rows[|rows| - 1];
      GatherProcessor(init, f, k);
      AddColumnsProcessor(Gather(init, f), ColumnsOf(f(last)), k);
      FirstEmulatorSnoc(init, last, f, k);
      assert init + [last] == rows;
    }
  }

  /** With bare emulators only, the result is the first emulator's processor applied to
      every row's value, in row order. */
  lemma NakedAggregate(rows: seq<Value>, f: Value -> Emulators)
    requires rows != []
    requires forall i :: 0 <= i < |rows| ==> f(rows[i]).Naked?
    ensures Emulated(rows, f) == f(rows[0]).emulator.processor(RowValues(rows, f))
  {
    var s := Gather(rows, f);
    NakedColumn(rows, f);
    GatherColumn(rows, f, "x");
    GatherProcessor(rows, f, "x");
    GatherValid(rows, f);
    OnlyX(rows, f);
    assert AnyNaked(rows, f) by {
      assert 0 <= 0 < |rows| && f(rows[0]).Naked?;
    }
    var v := s.byKey["x"].processor(s.byKey["x"].data);
    assert Processed(s.order, s.byKey) == [Field("x", v)];
    assert Get([Field("x", v)], "x") == v;
  }

  /** The row values of bare emulators, in row order. */
  function RowValues(rows: seq<Value>, f: Value -> Emulators): (r: seq<Value>)
    requires forall i :: 0 <= i < |rows| ==> f(rows[i]).Naked?
    ensures |r| == |rows|
    ensures forall i :: 0 <= i < |rows| ==> r[i] == f(rows[i]).emulator.rowValue
    decreases |rows|
  {
    if rows == [] then [] else RowValues(rows[..|rows| - 1], f) + [f(rows[|rows| - 1]).emulator.rowValue]
  }

  lemma {:induction false} NakedColumn(rows: seq<Value>, f: Value -> Emulators)
    requires forall i :: 0 <= i < |rows| ==> f(rows[i]).Naked?
    ensures ColumnOf(rows, f, "x") == RowValues(rows, f)
    ensures rows != [] ==> FirstEmulator(rows, f, "x") == Some(f(rows[0]).emulator)
    decreases |rows|
  {
    if rows != [] {
      NakedColumn(rows[..|rows| - 1], f);
      var c := Column("x", f(rows[|rows| - 1]).emulator);
      assert [c][..0] == [];
      assert RowColumn([c], "x") == [c.emulator.rowValue];
      if |rows| > 1 {
        assert rows[..|rows| - 1][0] == rows[0];
        FirstEmulatorSnoc(rows[..|rows| - 1], rows[|rows| - 1], f, "x");
        assert rows[..|rows| - 1] + [rows[|rows| - 1]] == rows;
      }
    }
  }

  /** With bare emulators only, `x` is the only key. */
  lemma {:induction false} OnlyX(rows: seq<Value>, f: Value -> Emulators)
    requires forall i :: 0 <= i < |rows| ==> f(rows[i]).Naked?
    ensures Gather(rows, f).order == if rows == [] then [] else ["x"]
    decreases |rows|
  {
    if rows != [] {
      OnlyX(rows[..|rows| - 1], f);
      var c := Column("x", f(rows[|rows| - 1]).emulator);
      assert [c][..0] == [];
      assert AddColumns(Gather(rows[..|rows| - 1], f), [c]) == AddColumn(Gather(rows[..|rows| - 1], f), c);
    }
  }
}
