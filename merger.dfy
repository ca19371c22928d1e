/** `merger`: reconciling a target array with a source array, row by row on identity
    keys, in place. */
module Merger {

  import opened Wrappers
  import opened Text
  import opened Values
  import opened Buckets
  import opened JsArrays

  // ---------------------------------------------------------------------------
  // The four flags.

  /** The `type` argument: a mode keyword, or an array whose entries 0..3 are the flags. */
  datatype MergeType = Mode(name: string) | FlagArray(entries: seq<Value>)

  datatype Flags = Flags(updateIfMatched: bool, deleteIfMatched: bool, insertIfNoTarget: bool, deleteIfNoSource: bool)

  /** `typeIx(ix)`: the array's entry, `undefined` past its end; false for a keyword. */
  predicate TypeIx(mergeType: MergeType, ix: nat) {
    mergeType.FlagArray? && ix < |mergeType.entries| && Truthy(mergeType.entries[ix])
  }

  /** `typeIn(...words)`: the lower-cased keyword is one of the words; false for an array. */
  predicate TypeIn(mergeType: MergeType, words: seq<string>) {
    mergeType.Mode? && ToLower(mergeType.name) in words
  }

  function MergeFlags(mergeType: MergeType): Flags {
    Flags(TypeIn(mergeType, ["upsert", "update", "full"]) || TypeIx(mergeType, 0),
          TypeIn(mergeType, ["delete"]) || TypeIx(mergeType, 1),
          TypeIn(mergeType, ["upsert", "insert", "full"]) || TypeIx(mergeType, 2),
          TypeIn(mergeType, ["full"]) || TypeIx(mergeType, 3))
  }

  lemma {:induction false} ToLowerIdempotent(s: string)
    ensures ToLower(ToLower(s)) == ToLower(s)
  {
    if s != [] {
      ToLowerIdempotent(s[1..]);
      assert ToLower(s)[1..] == ToLower(s[1..]);
    }
  }

  lemma TypeInIgnoreCase(name: string, words: seq<string>)
    ensures TypeIn(Mode(name), words) == TypeIn(Mode(ToLower(name)), words)
  {
    ToLowerIdempotent(name);
  }

  /** Keywords are compared case-insensitively. */
  lemma KeywordsIgnoreCase(name: string)
    ensures MergeFlags(Mode(name)) == MergeFlags(Mode(ToLower(name)))
  {
    TypeInIgnoreCase(name, ["upsert", "update", "full"]);
    TypeInIgnoreCase(name, ["delete"]);
    TypeInIgnoreCase(name, ["upsert", "insert", "full"]);
    TypeInIgnoreCase(name, ["full"]);
  }

  /** `upsert` updates matched rows and inserts unmatched source rows. */
  lemma UpsertKeyword()
    ensures MergeFlags(Mode("upsert")) == Flags(true, false, true, false)
  {
    assert ToLower("upsert") == "upsert";
  }

  /** `full` also sets delete-if-no-source. */
  lemma FullKeyword()
    ensures MergeFlags(Mode("full")) == Flags(true, false, true, true)
  {
    assert ToLower("full") == "full";
  }

  /** `delete` deletes matched rows and nothing else. */
  lemma DeleteKeyword()
    ensures MergeFlags(Mode("delete")) == Flags(false, true, false, false)
  {
    assert ToLower("delete") == "delete";
  }

  /** A keyword none of the five modes names sets no flag. */
  lemma UnknownModeSetsNothing(name: string)
    requires ToLower(name) !in ["upsert", "update", "full", "delete", "insert"]
    ensures MergeFlags(Mode(name)) == Flags(false, false, false, false)
  {
  }

  // ---------------------------------------------------------------------------
  // The backward scan of the target.

  /** `getBucketFirstItem`: the first item of the key's bucket, `null` when absent. */
  function FirstOf(t: Table, k: string): Value {
    if k in t.buckets && t.buckets[k] != [] then t.buckets[k][0] else Null
  }

  /** What replaces target row `row` once its source row is known. The `else` binds to
      the inner `if`: a row without a truthy source row is always kept, and the
      delete-if-no-source branch is reached only by matched rows that are neither deleted
      nor updated. */
  function Visit(flags: Flags, row: Value, sourceRow: Value): seq<Value> {
    if Truthy(sourceRow) then
      if flags.deleteIfMatched then []
      else if flags.updateIfMatched then [sourceRow]
      else if flags.deleteIfNoSource then []
      else [row]
    else [row]
  }

  datatype Scan = Scan(rows: seq<Value>, table: Table)

  /** The loop from the last target row down to row `i`: what rows `i..` have become,
      and the source buckets not yet claimed. Each lookup removes its key. */
  function ScanFrom(flags: Flags, target: seq<Value>, i: nat, t0: Table, tk: Selector): Result<Scan>
    requires i <= |target|
    decreases |target| - i
  {
    if i == |target| then Ok(Scan([], t0))
    else
      match ScanFrom(flags, target, i + 1, t0, tk)
      case Err(e) => Err(e)
      case Ok(s) =>
        match KeyOf(tk, target[i])
        case None => Err(NullKey)
        case Some(k) => Ok(Scan(Visit(flags, target[i], FirstOf(s.table, k)) + s.rows, RemoveKey(s.table, k)))
  }

  /** What the target holds when the scan throws: the rows from the failing one down are
      as they were, those above it as the scan had left them. */
  function Stuck(flags: Flags, target: seq<Value>, i: nat, t0: Table, tk: Selector): seq<Value>
    requires i <= |target| && ScanFrom(flags, target, i, t0, tk).Err?
    decreases |target| - i
  {
    if ScanFrom(flags, target, i + 1, t0, tk).Err? then Stuck(flags, target, i + 1, t0, tk)
    else target[..i + 1] + ScanFrom(flags, target, i + 1, t0, tk).value.rows
  }

  /** `bucket[0]` of a bucket (never empty in a valid map). */
  function BucketHead(t: Table, k: string): Value {
    if Lookup(t, k) == [] then Undef else Lookup(t, k)[0]
  }

  /** `getBuckets().map(bucket => bucket[0])`. */
  function Heads(order: seq<string>, t: Table): seq<Value>
    decreases |order|
  {
    if order == [] then [] else Heads(order[..|order| - 1], t) + [BucketHead(t, order[|order| - 1])]
  }

  /** What `merger` leaves in `target`, or the failure: a `null` identity key throws. */
  function Merged(mergeType: MergeType, target: seq<Value>, source: seq<Value>, tk: Selector, sk: Selector): Result<seq<Value>> {
    var flags := MergeFlags(mergeType);
    match Grouped(source, sk)
    case None => Err(NullKey)
    case Some(t0) =>
      match ScanFrom(flags, target, 0, t0, tk)
      case Err(e) => Err(e)
      case Ok(s) => Ok(s.rows + (if flags.insertIfNoTarget then Heads(s.table.order, s.table) else []))
  }

  /** What `target` holds once `merger` returns or throws: a throw while grouping the
      source leaves it as it was, a throw in the scan keeps the changes already made. */
  function LeftBehind(mergeType: MergeType, target: seq<Value>, source: seq<Value>, tk: Selector, sk: Selector): seq<Value> {
    var flags := MergeFlags(mergeType);
    match Grouped(source, sk)
    case None => target
    case Some(t0) =>
      if ScanFrom(flags, target, 0, t0, tk).Err? then Stuck(flags, target, 0, t0, tk)
      else Merged(mergeType, target, source, tk, sk).value
  }

  // ---------------------------------------------------------------------------
  // The method.

  /** The target's backward loop: each row looks up (and removes) its key's bucket,
      then is spliced out, replaced or kept. */
  method ScanTarget(flags: Flags, target: JsArray, incoming: HashBuckets, tk: Selector) returns (failed: bool)
    requires incoming.Valid()
    modifies target, incoming
    ensures incoming.Valid()
    ensures var s := ScanFrom(flags, old(target.items), 0, old(incoming.State()), tk);
      (failed <==> s.Err?) && (s.Ok? ==> target.items == s.value.rows && incoming.State() == s.value.table)
      && (s.Err? ==> target.items == Stuck(flags, old(target.items), 0, old(incoming.State()), tk))
  {
    ghost var rows := target.items;
    ghost var t0 := incoming.State();
    var t := |target.items|;
    ghost var scan := Scan([], t0);
    assert rows[..t] + [] == rows;
    while t > 0
      invariant 0 <= t <= |rows|
      invariant incoming.Valid()
      invariant ScanFrom(flags, rows, t, t0, tk) == Ok(scan)
      invariant target.items == rows[..t] + scan.rows
      invariant incoming.State() == scan.table
      decreases t
    {
      t := t - 1;
      assert rows[..t + 1] == rows[..t] + [rows[t]];
      failed := ScanRow(flags, target, incoming, tk, t, rows, t0, scan);
      if failed {
        ScanFromFail(flags, rows, t, 0, t0, tk);
        StuckAt(flags, rows, t0, tk, t, 0);
        assert rows[..t + 1] == rows[..t] + [rows[t]];
        return;
      }
      scan := Scan(target.items[t..], incoming.State());
      assert target.items == target.items[..t] + target.items[t..];
    }
    assert rows[..0] == [];
    return false;
  }

  /** One turn of the loop: row `t` looks up its source row and is visited. */
  method ScanRow(flags: Flags, target: JsArray, incoming: HashBuckets, tk: Selector, t: nat,
                 ghost rows: seq<Value>, ghost t0: Table, ghost s: Scan) returns (failed: bool)
    requires t < |rows| && incoming.Valid()
    requires ScanFrom(flags, rows, t + 1, t0, tk) == Ok(s)
    requires target.items == rows[..t] + [rows[t]] + s.rows && incoming.State() == s.table
    modifies target, incoming
    ensures incoming.Valid()
    ensures failed <==> KeyOf(tk, rows[t]).None?
    ensures failed ==> target.items == old(target.items)
    ensures !failed ==> t <= |target.items|
    ensures !failed ==> Ok(Scan(target.items[t..], incoming.State())) == ScanFrom(flags, rows, t, t0, tk)
    ensures !failed ==> target.items[..t] == rows[..t]
  {
    assert target.items[t] == rows[t];
    var sourceRow := incoming.GetBucketFirstItem(target.items[t], tk, true);
    if sourceRow.Err? {
      return true;
    }
    ghost var k := KeyOf(tk, rows[t]).value;
    assert sourceRow.value == FirstOf(s.table, k);
    assert incoming.State() == RemoveKey(s.table, k);
    ScanStep(flags, rows, t, t0, tk);
    VisitTarget(flags, target, t, sourceRow.value, rows[..t], rows[t], s.rows);
    return false;
  }

  lemma ScanStep(flags: Flags, target: seq<Value>, i: nat, t0: Table, tk: Selector)
    requires i < |target| && ScanFrom(flags, target, i + 1, t0, tk).Ok? && KeyOf(tk, target[i]).Some?
    ensures var s := ScanFrom(flags, target, i + 1, t0, tk).value;
      var k := KeyOf(tk, target[i]).value;
      ScanFrom(flags, target, i, t0, tk) == Ok(Scan(Visit(flags, target[i], FirstOf(s.table, k)) + s.rows, RemoveKey(s.table, k)))
  {
  }

  /** `target.splice(t, 1)`, `target[t] = sourceRow`, or nothing. */
  method VisitTarget(flags: Flags, target: JsArray, t: nat, sourceRow: Value,
                     ghost before: seq<Value>, ghost row: Value, ghost after: seq<Value>)
    requires target.items == before + [row] + after && |before| == t
    modifies target
    ensures target.items == before + Visit(flags, row, sourceRow) + after
    ensures target.items[..t] == before && target.items[t..] == Visit(flags, row, sourceRow) + after
  {
    SliceAround(before, [row], after);
    if Truthy(sourceRow) {
      if flags.deleteIfMatched {
        target.RemoveAt(t);
      } else if flags.updateIfMatched {
        target.SetAt(t, sourceRow);
        assert target.items == before + [sourceRow] + after;
      } else if flags.deleteIfNoSource {
        target.RemoveAt(t);
      }
    }
    assert target.items == before + Visit(flags, row, sourceRow) + after;
    SliceAround(before, Visit(flags, row, sourceRow), after);
  }

  lemma SliceAround(before: seq<Value>, mid: seq<Value>, after: seq<Value>)
    ensures (before + mid + after)[..|before|] == before
    ensures (before + mid + after)[|before|..] == mid + after
    ensures (before + mid + after)[|before| + |mid|..] == after
  {
  }

  /** `for (let item of remainingItems) target.push(item)`. */
  method AppendHeads(target: JsArray, incoming: HashBuckets)
    requires incoming.Valid()
    modifies target
    ensures target.items == old(target.items) + Heads(incoming.order, incoming.State())
  {
    var remaining := incoming.GetBuckets();
    var remainingItems := FirstOfEach(remaining);
    HeadsOfBuckets(incoming.State(), remaining, remainingItems);
    PushAll(target, remainingItems);
  }

  /** `buckets.map(bucket => bucket[0])`. */
  function FirstOfEach(buckets: seq<seq<Value>>): (r: seq<Value>)
    requires forall i :: 0 <= i < |buckets| ==> buckets[i] != []
    ensures |r| == |buckets| && forall i :: 0 <= i < |r| ==> r[i] == buckets[i][0]
  {
    seq(|buckets|, i requires 0 <= i < |buckets| => buckets[i][0])
  }

  /** Pushing each item in turn appends them all, in order. */
  method PushAll(target: JsArray, items: seq<Value>)
    modifies target
    ensures target.items == old(target.items) + items
  {
    ghost var start := target.items;
    for i := 0 to |items|
      invariant target.items == start + items[..i]
    {
      assert items[..i + 1] == items[..i] + [items[i]];
      target.Push(items[i]);
    }
    assert items[..|items|] == items;
  }

  /** The first item of each bucket, in key order, is `Heads` of the table. */
  lemma HeadsOfBuckets(t: Table, remaining: seq<seq<Value>>, items: seq<Value>)
    requires |remaining| == |t.order| && |items| == |remaining|
    requires forall i :: 0 <= i < |remaining| ==> remaining[i] == Lookup(t, t.order[i]) && remaining[i] != []
    requires forall i :: 0 <= i < |items| ==> items[i] == remaining[i][0]
    ensures items == Heads(t.order, t)
  {
    HeadsPrefix(t, remaining, items, |items|);
    assert items[..|items|] == items && t.order[..|items|] == t.order;
  }

  lemma {:induction false} HeadsPrefix(t: Table, remaining: seq<seq<Value>>, items: seq<Value>, n: nat)
    requires |remaining| == |t.order| && |items| == |remaining| && n <= |items|
    requires forall i :: 0 <= i < |remaining| ==> remaining[i] == Lookup(t, t.order[i]) && remaining[i] != []
    requires forall i :: 0 <= i < |items| ==> items[i] == remaining[i][0]
    ensures items[..n] == Heads(t.order[..n], t)
  {
    if n > 0 {
      HeadsPrefix(t, remaining, items, n - 1);
      assert t.order[..n][..n - 1] == t.order[..n - 1];
      assert items[..n] == items[..n - 1] + [items[n - 1]];
      assert items[n - 1] == BucketHead(t, t.order[n - 1]);
    }
  }

  /** `merger(type, target, source, targetIdentityKey, sourceIdentityKey)`: returns the
      target it changed in place. */
  method Merge(mergeType: MergeType, target: JsArray, source: seq<Value>, targetIdentityKey: Selector,
               sourceIdentityKey: Selector) returns (r: Result<JsArray>)
    modifies target
    ensures var m := Merged(mergeType, old(target.items), source, targetIdentityKey, sourceIdentityKey);
      (m.Err? ==> r == Err(m.error)) && (m.Ok? ==> r == Ok(target) && target.items == m.value)
    ensures target.items == LeftBehind(mergeType, old(target.items), source, targetIdentityKey, sourceIdentityKey)
  {
    ghost var items := target.items;
    var flags := MergeFlags(mergeType);
    var incomingBuckets := new HashBuckets(sourceIdentityKey);
    var ok := incomingBuckets.AddItems(source);
    assert Grouped(source, sourceIdentityKey) == AddAll(EmptyTable, source, sourceIdentityKey);
    if !ok {
      assert Merged(mergeType, items, source, targetIdentityKey, sourceIdentityKey) == Err(NullKey);
      return Err(NullKey);
    }
    ghost var t0 := incomingBuckets.State();
    assert Grouped(source, sourceIdentityKey) == Some(t0);
    var failed := ScanTarget(flags, target, incomingBuckets, targetIdentityKey);
    if failed {
      ScanFails(flags, items, 0, t0, targetIdentityKey);
      assert Merged(mergeType, items, source, targetIdentityKey, sourceIdentityKey) == Err(NullKey);
      return Err(NullKey);
    }
    if flags.insertIfNoTarget {
      AppendHeads(target, incomingBuckets);
    }
    return Ok(target);
  }

  // ---------------------------------------------------------------------------
  // What the scan does.

  lemma {:induction false} ScanFromFail(flags: Flags, target: seq<Value>, k: nat, i: nat, t0: Table, tk: Selector)
    requires i <= k < |target|
    requires ScanFrom(flags, target, k + 1, t0, tk).Ok? && KeyOf(tk, target[k]).None?
    ensures ScanFrom(flags, target, i, t0, tk) == Err(NullKey)
    decreases k - i
  {
    if i < k {
      ScanFromFail(flags, target, k, i + 1, t0, tk);
    }
  }

  /** When the scan throws at row `k`, the first with no key counting down from the end,
      the target holds rows `..k` untouched and rows above as the scan made them. */
  lemma {:induction false} StuckAt(flags: Flags, target: seq<Value>, t0: Table, tk: Selector, k: nat, i: nat)
    requires i <= k < |target|
    requires ScanFrom(flags, target, k + 1, t0, tk).Ok? && KeyOf(tk, target[k]).None?
    ensures ScanFrom(flags, target, i, t0, tk).Err?
    ensures Stuck(flags, target, i, t0, tk) == target[..k + 1] + ScanFrom(flags, target, k + 1, t0, tk).value.rows
    decreases k - i
  {
    ScanFromFail(flags, target, k, i, t0, tk);
    if i < k {
      StuckAt(flags, target, t0, tk, k, i + 1);
    }
  }

  /** A `delete` whose last target row is matched and whose first has a `null` key: the
      matched row is spliced out before the throw, and stays out. */
  lemma DeleteThenThrow(t1: Value, t2: Value, s2: Value, tk: Selector, sk: Selector)
    requires KeyOf(tk, t1).None? && KeyOf(tk, t2).Some? && KeyOf(sk, s2) == KeyOf(tk, t2) && Truthy(s2)
    ensures Merged(Mode("delete"), [t1, t2], [s2], tk, sk) == Err(NullKey)
    ensures LeftBehind(Mode("delete"), [t1, t2], [s2], tk, sk) == [t1]
  {
    DeleteKeyword();
    var flags := Flags(false, true, false, false);
    var t0 := SingleGroup(s2, sk);
    var k := KeyOf(tk, t2).value;
    var target := [t1, t2];
    DeleteLastRow(flags, target, t0, tk, k, s2);
    StuckAt(flags, target, t0, tk, 0, 0);
    assert target[..1] == [t1];
  }

  /** Under `delete`, the last of two target rows finds its source row and is spliced out. */
  lemma DeleteLastRow(flags: Flags, target: seq<Value>, t0: Table, tk: Selector, k: string, s2: Value)
    requires flags == Flags(false, true, false, false) && |target| == 2
    requires KeyOf(tk, target[1]) == Some(k) && t0 == Table([k], map[k := [s2]]) && Truthy(s2)
    ensures ScanFrom(flags, target, 1, t0, tk) == Ok(Scan([], RemoveKey(t0, k)))
  {
    var s := Scan([], t0);
    assert ScanFrom(flags, target, 2, t0, tk) == Ok(s);
    assert FirstOf(s.table, k) == s2;
    assert Visit(flags, target[1], s2) + s.rows == [];
    assert ScanFrom(flags, target, 1, t0, tk)
      == Ok(Scan(Visit(flags, target[1], FirstOf(s.table, k)) + s.rows, RemoveKey(s.table, k)));
  }

  /** The only way the scan fails is a `null` identity key. */
  lemma {:induction false} ScanFails(flags: Flags, target: seq<Value>, i: nat, t0: Table, tk: Selector)
    requires i <= |target|
    ensures ScanFrom(flags, target, i, t0, tk).Err? ==> ScanFrom(flags, target, i, t0, tk).error == NullKey
    decreases |target| - i
  {
    if i < |target| {
      ScanFails(flags, target, i + 1, t0, tk);
    }
  }

  /** The keys of rows `i..`, last row first: the order the scan removes them in. */
  function KeysFrom(target: seq<Value>, i: nat, tk: Selector): seq<string>
    requires i <= |target|
    decreases |target| - i
  {
    if i == |target| then []
    else KeysFrom(target, i + 1, tk) + (match KeyOf(tk, target[i]) case Some(k) => [k] case None => [])
  }

  /** Some row from `i` on has key `k`. */
  ghost predicate KeyedFrom(target: seq<Value>, i: nat, tk: Selector, k: string) {
    exists j :: i <= j < |target| && KeyOf(tk, target[j]) == Some(k)
  }

  lemma {:induction false} KeysFromMembers(target: seq<Value>, i: nat, tk: Selector, k: string)
    requires i <= |target|
    ensures k in KeysFrom(target, i, tk) <==> KeyedFrom(target, i, tk, k)
    decreases |target| - i
  {
    if i < |target| {
      KeysFromMembers(target, i + 1, tk, k);
      var rest := KeysFrom(target, i + 1, tk);
      var own: seq<string> := match KeyOf(tk, target[i]) case Some(x) => [x] case None => [];
      assert KeysFrom(target, i, tk) == rest + own;
      assert k in rest + own <==> k in rest || k in own;
      assert k in own <==> KeyOf(tk, target[i]) == Some(k);
      if KeyedFrom(target, i, tk, k) {
        var j :| i <= j < |target| && KeyOf(tk, target[j]) == Some(k);
        if j > i {
          assert KeyedFrom(target, i + 1, tk, k);
        }
      }
      if KeyedFrom(target, i + 1, tk, k) {
        var j :| i + 1 <= j < |target| && KeyOf(tk, target[j]) == Some(k);
        assert KeyedFrom(target, i, tk, k);
      }
      if KeyOf(tk, target[i]) == Some(k) {
        assert KeyedFrom(target, i, tk, k);
      }
    } else {
      assert !KeyedFrom(target, i, tk, k);
    }
  }

  /** A scan succeeds only when every row from `i` on has a key. */
  lemma {:induction false} ScanKeyed(flags: Flags, target: seq<Value>, i: nat, t0: Table, tk: Selector)
    requires i <= |target|
    requires ScanFrom(flags, target, i, t0, tk).Ok?
    ensures forall j :: i <= j < |target| ==> KeyOf(tk, target[j]).Some?
    decreases |target| - i
  {
    if i < |target| {
      ScanKeyed(flags, target, i + 1, t0, tk);
      assert KeyOf(tk, target[i]).Some?;
    }
  }

  /** A successful scan found every key from row `i` on, and left exactly the buckets of
      the keys no row from `i` on has. */
  lemma {:induction false} ScanTable(flags: Flags, target: seq<Value>, i: nat, t0: Table, tk: Selector)
    requires i <= |target|
    requires ScanFrom(flags, target, i, t0, tk).Ok?
    ensures forall j :: i <= j < |target| ==> KeyOf(tk, target[j]).Some?
    ensures ScanFrom(flags, target, i, t0, tk).value.table == RemoveKeys(t0, KeysFrom(target, i, tk))
    decreases |target| - i
  {
    ScanKeyed(flags, target, i, t0, tk);
    if i < |target| {
      ScanTable(flags, target, i + 1, t0, tk);
      var rest := ScanFrom(flags, target, i + 1, t0, tk).value;
      var ks := KeysFrom(target, i + 1, tk);
      var k := KeyOf(tk, target[i]).value;
      assert ScanFrom(flags, target, i, t0, tk).value.table == RemoveKey(rest.table, k);
      assert KeysFrom(target, i, tk) == ks + [k];
      assert (ks + [k])[..|ks|] == ks;
      assert RemoveKeys(t0, ks + [k]) == RemoveKey(RemoveKeys(t0, ks), k);
    }
  }

  /** The bucket a row finds is the one of its key in the source, unless a later row
      had the same key and took it. */
  lemma FoundBucket(flags: Flags, target: seq<Value>, i: nat, t0: Table, tk: Selector, k: string)
    requires i < |target|
    requires ScanFrom(flags, target, i + 1, t0, tk).Ok?
    ensures FirstOf(ScanFrom(flags, target, i + 1, t0, tk).value.table, k)
      == if KeyedFrom(target, i + 1, tk, k) then Null else FirstOf(t0, k)
  {
    ScanTable(flags, target, i + 1, t0, tk);
    RemoveKeysContents(t0, KeysFrom(target, i + 1, tk));
    KeysFromMembers(target, i + 1, tk, k);
  }

  /** The dangling else: whatever the flags, a target row whose key has no source bucket
      is kept, so a scan over rows none of whose keys are in the source keeps them all. */
  lemma {:induction false} UnmatchedRowsKept(flags: Flags, target: seq<Value>, i: nat, t0: Table, tk: Selector)
    requires i <= |target|
    requires forall j :: i <= j < |target| ==> KeyOf(tk, target[j]).Some? && KeyOf(tk, target[j]).value !in t0.buckets
    ensures ScanFrom(flags, target, i, t0, tk).Ok?
    ensures ScanFrom(flags, target, i, t0, tk).value.rows == target[i..]
    decreases |target| - i
  {
    if i < |target| {
      UnmatchedRowsKept(flags, target, i + 1, t0, tk);
      UnmatchedRowKept(flags, target, i, t0, tk);
    }
  }

  /** The scan only ever removes source buckets. */
  lemma {:induction false} ScanShrinks(flags: Flags, target: seq<Value>, i: nat, t0: Table, tk: Selector)
    requires i <= |target| && ScanFrom(flags, target, i, t0, tk).Ok?
    ensures ScanFrom(flags, target, i, t0, tk).value.table.buckets.Keys <= t0.buckets.Keys
    decreases |target| - i
  {
    if i < |target| {
      ScanShrinks(flags, target, i + 1, t0, tk);
    }
  }

  lemma UnmatchedRowKept(flags: Flags, target: seq<Value>, i: nat, t0: Table, tk: Selector)
    requires i < |target| && KeyOf(tk, target[i]).Some? && KeyOf(tk, target[i]).value !in t0.buckets
    requires ScanFrom(flags, target, i + 1, t0, tk).Ok?
    requires ScanFrom(flags, target, i + 1, t0, tk).value.rows == target[i + 1..]
    ensures ScanFrom(flags, target, i, t0, tk).Ok?
    ensures ScanFrom(flags, target, i, t0, tk).value.rows == target[i..]
  {
    var k := KeyOf(tk, target[i]).value;
    var rest := ScanFrom(flags, target, i + 1, t0, tk).value;
    ScanShrinks(flags, target, i + 1, t0, tk);
    assert k !in rest.table.buckets;
    assert Visit(flags, target[i], Null) == [target[i]];
    assert ScanFrom(flags, target, i, t0, tk) == Ok(Scan([target[i]] + rest.rows, RemoveKey(rest.table, k)));
    assert target[i..] == [target[i]] + target[i + 1..];
  }

  /** With distinct target keys, each row is judged against its own key's source bucket:
      what row `j` becomes depends on nothing else. */
  lemma {:induction false} DistinctKeysVisit(flags: Flags, target: seq<Value>, i: nat, t0: Table, tk: Selector)
    requires i <= |target|
    requires forall j :: i <= j < |target| ==> KeyOf(tk, target[j]).Some?
    requires forall j, j' :: i <= j < j' < |target| ==> KeyOf(tk, target[j]) != KeyOf(tk, target[j'])
    ensures ScanFrom(flags, target, i, t0, tk).Ok?
    ensures ScanFrom(flags, target, i, t0, tk).value.rows == VisitEach(flags, target, i, t0, tk)
    decreases |target| - i
  {
    if i < |target| {
      DistinctKeysVisit(flags, target, i + 1, t0, tk);
      FoundBucket(flags, target, i, t0, tk, KeyOf(tk, target[i]).value);
    }
  }

  /** Each row from `i` on visited with its own key's source row. */
  function VisitEach(flags: Flags, target: seq<Value>, i: nat, t0: Table, tk: Selector): seq<Value>
    requires i <= |target|
    requires forall j :: i <= j < |target| ==> KeyOf(tk, target[j]).Some?
    decreases |target| - i
  {
    if i == |target| then []
    else Visit(flags, target[i], FirstOf(t0, KeyOf(tk, target[i]).value)) + VisitEach(flags, target, i + 1, t0, tk)
  }

  /** The source row a key finds: the first source row with that key, `null` for none. */
  function SourceFor(source: seq<Value>, sk: Selector, k: string): Value {
    var m := Matching(source, sk, k);
    if m == [] then Null else m[0]
  }

  lemma FirstOfGrouped(source: seq<Value>, sk: Selector, k: string)
    requires Grouped(source, sk).Some?
    ensures FirstOf(Grouped(source, sk).value, k) == SourceFor(source, sk, k)
  {
    AddAllBuckets(EmptyTable, source, sk, k);
  }

  /** With distinct target keys and an update mode, exactly the target rows with a
      truthy source row are replaced by it, and the others kept, in place. */
  lemma UpdateReplacesMatched(mergeType: MergeType, target: seq<Value>, source: seq<Value>, tk: Selector, sk: Selector, j: nat)
    requires MergeFlags(mergeType).updateIfMatched && !MergeFlags(mergeType).deleteIfMatched
    requires Grouped(source, sk).Some?
    requires forall i :: 0 <= i < |target| ==> KeyOf(tk, target[i]).Some?
    requires forall i, i' :: 0 <= i < i' < |target| ==> KeyOf(tk, target[i]) != KeyOf(tk, target[i'])
    requires j < |target|
    ensures var m := Merged(mergeType, target, source, tk, sk);
      m.Ok? && |m.value| >= |target|
      && m.value[j] == (var s := SourceFor(source, sk, KeyOf(tk, target[j]).value); if Truthy(s) then s else target[j])
  {
    var flags := MergeFlags(mergeType);
    var t0 := Grouped(source, sk).value;
    DistinctKeysVisit(flags, target, 0, t0, tk);
    VisitEachUpdate(flags, target, 0, t0, tk, j);
    FirstOfGrouped(source, sk, KeyOf(tk, target[j]).value);
  }

  lemma {:induction false} VisitEachUpdate(flags: Flags, target: seq<Value>, i: nat, t0: Table, tk: Selector, j: nat)
    requires flags.updateIfMatched && !flags.deleteIfMatched
    requires i <= j < |target|
    requires forall x :: i <= x < |target| ==> KeyOf(tk, target[x]).Some?
    ensures |VisitEach(flags, target, i, t0, tk)| == |target| - i
    ensures VisitEach(flags, target, i, t0, tk)[j - i]
      == (var s := FirstOf(t0, KeyOf(tk, target[j]).value); if Truthy(s) then s else target[j])
    decreases |target| - i
  {
    var s := FirstOf(t0, KeyOf(tk, target[i]).value);
    var head := Visit(flags, target[i], s);
    assert head == [if Truthy(s) then s else target[i]];
    var rest := VisitEach(flags, target, i + 1, t0, tk);
    assert VisitEach(flags, target, i, t0, tk) == head + rest;
    if i + 1 < |target| {
      VisitEachUpdate(flags, target, i + 1, t0, tk, if j > i then j else i + 1);
      assert |rest| == |target| - i - 1;
    } else {
      assert rest == [];
    }
    if j > i {
      assert (head + rest)[j - i] == rest[j - i - 1];
    }
  }

  /** Target rows none of whose keys any source row has come through unchanged whatever
      the mode (even `full`), and the inserted rows follow them. */
  lemma UnmatchedTargetKept(mergeType: MergeType, target: seq<Value>, source: seq<Value>, tk: Selector, sk: Selector)
    requires Grouped(source, sk).Some?
    requires forall i :: 0 <= i < |target| ==> KeyOf(tk, target[i]).Some?
    requires forall i, s :: 0 <= i < |target| && s in source ==> KeyOf(sk, s) != KeyOf(tk, target[i])
    ensures var m := Merged(mergeType, target, source, tk, sk);
      m.Ok? && |m.value| >= |target| && m.value[..|target|] == target
  {
    var t0 := Grouped(source, sk).value;
    forall j | 0 <= j < |target|
      ensures KeyOf(tk, target[j]).value !in t0.buckets
    {
      GroupedBuckets(source, sk, KeyOf(tk, target[j]).value);
    }
    UnmatchedRowsKept(MergeFlags(mergeType), target, 0, t0, tk);
  }

  /** The dangling else, the other way: with only the delete-if-no-source flag set, a
      MATCHED target row is spliced out. */
  lemma MatchedRowDeletedByNoSourceFlag(row: Value, src: Value, tk: Selector, sk: Selector)
    requires KeyOf(tk, row).Some? && KeyOf(sk, src) == KeyOf(tk, row) && Truthy(src)
    ensures Merged(FlagArray([Bool(false), Bool(false), Bool(false), Bool(true)]), [row], [src], tk, sk) == Ok([])
  {
    var k := KeyOf(sk, src).value;
    var t0 := SingleGroup(src, sk);
    var flags := MergeFlags(FlagArray([Bool(false), Bool(false), Bool(false), Bool(true)]));
    assert flags == Flags(false, false, false, true);
    assert ScanFrom(flags, [row], 1, t0, tk) == Ok(Scan([], t0));
    assert [row][0] == row;
    assert FirstOf(t0, k) == src;
    assert Visit(flags, row, src) == [];
    assert Visit(flags, row, src) + [] == [];
    assert ScanFrom(flags, [row], 0, t0, tk) == Ok(Scan([], RemoveKey(t0, k)));
  }

  /** The buckets of a one-row source. */
  lemma SingleGroup(src: Value, sk: Selector) returns (t0: Table)
    requires KeyOf(sk, src).Some?
    ensures Grouped([src], sk) == Some(t0)
    ensures t0 == Table([KeyOf(sk, src).value], map[KeyOf(sk, src).value := [src]])
  {
    var k := KeyOf(sk, src).value;
    t0 := AddOne(EmptyTable, k, src);
    assert t0.order == [k];
    assert t0.buckets == map[k := [src]];
    assert [src][1..] == [];
    assert AddAll(t0, [], sk) == Some(t0);
    assert AddAll(EmptyTable, [src], sk) == AddAll(t0, [src][1..], sk);
  }

  /** Inserting: after the scan, exactly the first rows of the source keys no target row
      has are appended, in the order their keys first appeared in the source. */
  lemma InsertedRows(mergeType: MergeType, target: seq<Value>, source: seq<Value>, tk: Selector, sk: Selector)
    requires MergeFlags(mergeType).insertIfNoTarget
    requires Grouped(source, sk).Some?
    requires ScanFrom(MergeFlags(mergeType), target, 0, Grouped(source, sk).value, tk).Ok?
    ensures var t0 := Grouped(source, sk).value;
      var s := ScanFrom(MergeFlags(mergeType), target, 0, t0, tk).value;
      Merged(mergeType, target, source, tk, sk) == Ok(s.rows + Heads(s.table.order, s.table))
      && (forall k :: k in s.table.order <==>
            k in t0.order && !KeyedFrom(target, 0, tk, k))
      && (forall k :: k in s.table.order ==> BucketHead(s.table, k) == SourceFor(source, sk, k))
  {
    var t0 := Grouped(source, sk).value;
    var flags := MergeFlags(mergeType);
    ScanTable(flags, target, 0, t0, tk);
    var ks := KeysFrom(target, 0, tk);
    RemoveKeysContents(t0, ks);
    forall k
      ensures k in ks <==> KeyedFrom(target, 0, tk, k)
    {
      KeysFromMembers(target, 0, tk, k);
    }
    var s := ScanFrom(flags, target, 0, t0, tk).value;
    forall k | k in s.table.order
      ensures BucketHead(s.table, k) == SourceFor(source, sk, k)
    {
      GroupedBuckets(source, sk, k);
      RemoveKeysValid(t0, ks);
      AddAllBuckets(EmptyTable, source, sk, k);
    }
  }

  /** `upsert` on `[t1, t2]` with `[s2, s3]`, where `s2` shares `t2`'s key and the other
      keys differ: `[t1, s2, s3]`, as with `[{1,A},{2,B}]` and `[{2,B2},{3,C}]`. */
  lemma UpsertExample(t1: Value, t2: Value, s2: Value, s3: Value, tk: Selector, sk: Selector)
    requires KeyOf(tk, t1).Some? && KeyOf(tk, t2).Some? && KeyOf(sk, s3).Some?
    requires KeyOf(sk, s2) == KeyOf(tk, t2)
    requires KeyOf(tk, t1) != KeyOf(tk, t2) && KeyOf(tk, t1) != KeyOf(sk, s3) && KeyOf(tk, t2) != KeyOf(sk, s3)
    requires Truthy(s2) && Truthy(s3)
    ensures Merged(Mode("upsert"), [t1, t2], [s2, s3], tk, sk) == Ok([t1, s2, s3])
  {
    UpsertKeyword();
    UpsertFlagsExample(Mode("upsert"), t1, t2, s2, s3, tk, sk);
  }

  lemma UpsertFlagsExample(mergeType: MergeType, t1: Value, t2: Value, s2: Value, s3: Value, tk: Selector, sk: Selector)
    requires MergeFlags(mergeType) == Flags(true, false, true, false)
    requires KeyOf(tk, t1).Some? && KeyOf(tk, t2).Some? && KeyOf(sk, s3).Some?
    requires KeyOf(sk, s2) == KeyOf(tk, t2)
    requires KeyOf(tk, t1) != KeyOf(tk, t2) && KeyOf(tk, t1) != KeyOf(sk, s3) && KeyOf(tk, t2) != KeyOf(sk, s3)
    requires Truthy(s2) && Truthy(s3)
    ensures Merged(mergeType, [t1, t2], [s2, s3], tk, sk) == Ok([t1, s2, s3])
  {
    var flags := Flags(true, false, true, false);
    var k1, k2, k3 := KeyOf(tk, t1).value, KeyOf(tk, t2).value, KeyOf(sk, s3).value;
    var t0 := TwoGroups(s2, s3, sk);
    var rest := Table([k3], map[k3 := [s3]]);
    UpsertSecondRow(flags, [t1, t2], tk, k2, s2, k3, s3);
    UpsertFirstRow(flags, [t1, t2], t0, tk, [s2], k1, k3, s3);
    assert ScanFrom(flags, [t1, t2], 0, t0, tk) == Ok(Scan([t1] + [s2], rest));
    SingleHead(k3, s3);
    assert [t1] + [s2] + [s3] == [t1, s2, s3];
  }

  lemma SingleHead(k: string, row: Value)
    ensures Heads([k], Table([k], map[k := [row]])) == [row]
  {
    assert [k][..0] == [];
    assert BucketHead(Table([k], map[k := [row]]), k) == row;
  }

  lemma TwoGroups(s2: Value, s3: Value, sk: Selector) returns (t0: Table)
    requires KeyOf(sk, s2).Some? && KeyOf(sk, s3).Some? && KeyOf(sk, s2) != KeyOf(sk, s3)
    ensures Grouped([s2, s3], sk) == Some(t0)
    ensures t0 == Table([KeyOf(sk, s2).value, KeyOf(sk, s3).value],
                        map[KeyOf(sk, s2).value := [s2], KeyOf(sk, s3).value := [s3]])
  {
    var k2, k3 := KeyOf(sk, s2).value, KeyOf(sk, s3).value;
    var ta := AddOne(EmptyTable, k2, s2);
    assert ta.order == [k2] && ta.buckets == map[k2 := [s2]];
    t0 := AddOne(ta, k3, s3);
    assert t0.order == [k2, k3];
    assert t0.buckets == map[k2 := [s2], k3 := [s3]];
    assert [s2, s3][1..] == [s3];
    assert [s3][1..] == [];
    assert AddAll(t0, [], sk) == Some(t0);
    assert AddAll(ta, [s3], sk) == AddAll(t0, [s3][1..], sk);
    assert AddAll(EmptyTable, [s2, s3], sk) == AddAll(ta, [s2, s3][1..], sk);
  }

  /** The last target row takes its key's source row and removes the key. */
  lemma UpsertSecondRow(flags: Flags, target: seq<Value>, tk: Selector, k2: string, s2: Value, k3: string, s3: Value)
    requires flags == Flags(true, false, true, false) && |target| == 2
    requires KeyOf(tk, target[1]) == Some(k2) && Truthy(s2) && k2 != k3
    ensures var t0 := Table([k2, k3], map[k2 := [s2], k3 := [s3]]);
      ScanFrom(flags, target, 1, t0, tk) == Ok(Scan([s2], Table([k3], map[k3 := [s3]])))
  {
    var t0 := Table([k2, k3], map[k2 := [s2], k3 := [s3]]);
    assert ScanFrom(flags, target, 2, t0, tk) == Ok(Scan([], t0));
    assert FirstOf(t0, k2) == s2;
    assert Visit(flags, target[1], s2) + [] == [s2];
    assert Without([k3], k2) == [k3];
    assert Without([k2, k3], k2) == [k3] by {
      assert [k2, k3][1..] == [k3];
    }
    assert t0.buckets - {k2} == map[k3 := [s3]];
  }

  /** The first target row finds no source row and is kept. */
  lemma UpsertFirstRow(flags: Flags, target: seq<Value>, t0: Table, tk: Selector, rows: seq<Value>, k1: string, k3: string, s3: Value)
    requires flags == Flags(true, false, true, false) && |target| == 2
    requires KeyOf(tk, target[0]) == Some(k1) && k1 != k3
    requires ScanFrom(flags, target, 1, t0, tk) == Ok(Scan(rows, Table([k3], map[k3 := [s3]])))
    ensures ScanFrom(flags, target, 0, t0, tk) == Ok(Scan([target[0]] + rows, Table([k3], map[k3 := [s3]])))
  {
    var rest := Table([k3], map[k3 := [s3]]);
    assert FirstOf(rest, k1) == Null;
    assert Without([k3], k1) == [k3];
    assert rest.buckets - {k1} == rest.buckets;
  }
}
