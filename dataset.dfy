/** The `dataset` class of src/dataset.js: data nested `groupLevel` levels deep, each
    operation lifted to the base record sequences by `recurse` and `recurseToArray`.
    The generators these build are modelled materialised, as arrays. */
module Datasets {

  import opened Wrappers
  import opened Text
  import opened Values
  import opened Parser
  import opened Buckets
  import General
  import Sorts
  import MergeTools
  import Database

  // ---------------------------------------------------------------------------
  // Iteration.

  /** What `for ... of` throws on a value that has no iterator. */
  const NotIterable := TypeError("data is not iterable")

  /** `g.isIterable`: strings and arrays have an iterator, other values do not. */
  predicate Iterable(v: Value) {
    v.Arr? || v.Str?
  }

  /** The elements `for ... of` visits: an array's items, a string's characters. */
  function Elements(v: Value): (r: Result<seq<Value>>)
    ensures r.Ok? <==> Iterable(v)
    ensures v.Arr? ==> r == Ok(v.items)
    ensures r.Err? ==> r.error == NotIterable
  {
    match v
    case Arr(items) => Ok(items)
    case Str(s) => Ok(seq(|s|, i requires 0 <= i < |s| => Str([s[i]])))
    case _ => Err(NotIterable)
  }

  /** The default `func` of `ungroup` and `get`. */
  const Identity: Selector := v => v

  // ---------------------------------------------------------------------------
  // What each operation does to one base sequence of records.

  /** One named reducer of a `reduce` object. */
  datatype NamedReducer = NamedReducer(key: string, reduce: seq<Value> -> Value)

  /** The argument of `reduce`: a bare function (no own keys), or an object whose
      entries are reducers. */
  datatype Reducer = Naked(aggregate: seq<Value> -> Value) | Named(reducers: seq<NamedReducer>)

  /** What calling an object without keys, `obj(data)`, throws. */
  const ObjNotAFunction := TypeError("obj is not a function")

  /** The function `recurse` runs on each base sequence (each method's `outerFunc`); a
      throw is an `Err`. */
  type Step = seq<Value> -> Result<seq<Value>>

  /** `_map`, and the base case of `recurseToArray`: `noUndefined(func(row))` for every
      row, failing at the first row whose result is `undefined` or `null`. */
  function MapRows(func: Selector, rows: seq<Value>): (r: Result<seq<Value>>)
    ensures r.Ok? <==> forall i :: 0 <= i < |rows| ==> !Nullish(func(rows[i]))
    ensures r.Ok? ==> (|r.value| == |rows|
      && forall i :: 0 <= i < |rows| ==> General.NoUndefinedValue(func(rows[i])) == Ok(r.value[i]))
    decreases |rows|
  {
    if rows == [] then Ok([])
    else
      match MapRows(func, rows[..|rows| - 1])
      case Err(e) => Err(e)
      case Ok(done) =>
        match General.NoUndefinedValue(func(rows[|rows| - 1]))
        case Err(e) => Err(e)
        case Ok(v) => Ok(done + [v])
  }

  /** `_filter`: the rows the predicate holds for. */
  function FilterRows(pred: Selector, rows: seq<Value>): (r: seq<Value>)
    ensures forall i :: 0 <= i < |r| ==> Truthy(pred(r[i]))
    decreases |rows|
  {
    if rows == [] then []
    else
      var last := rows[|rows| - 1];
      FilterRows(pred, rows[..|rows| - 1]) + (if Truthy(pred(last)) then [last] else [])
  }

  /** Each row occurs among the kept rows as often as in the input when the predicate
      holds for it, and not at all otherwise. */
  lemma {:induction false} FilterCounts(pred: Selector, rows: seq<Value>, x: Value)
    ensures multiset(FilterRows(pred, rows))[x] == if Truthy(pred(x)) then multiset(rows)[x] else 0
    decreases |rows|
  {
    if rows != [] {
      var front, last := rows[..|rows| - 1], rows[|rows| - 1];
      assert rows == front + [last];
      FilterCounts(pred, front, x);
    }
  }

  /** `ungroup`'s `outerFunc`: every item's elements, each through `func`. */
  function UngroupRows(func: Selector, rows: seq<Value>): (r: Result<seq<Value>>)
    ensures r.Ok? <==> forall i :: 0 <= i < |rows| ==> Iterable(rows[i])
    decreases |rows|
  {
    if rows == [] then Ok([])
    else
      match UngroupRows(func, rows[..|rows| - 1])
      case Err(e) => Err(e)
      case Ok(done) =>
        match Elements(rows[|rows| - 1])
        case Err(e) => Err(e)
        case Ok(nested) => Ok(done + seq(|nested|, i requires 0 <= i < |nested| => func(nested[i])))
  }

  /** The object `reduce` builds: `agg[key] = reducer(data)` for each entry in turn. */
  function AggregateFields(rs: seq<NamedReducer>, rows: seq<Value>): (es: seq<Field>)
    ensures DistinctNames(rs) ==> KeysOf(es) == Names(rs)
    decreases |rs|
  {
    if rs == [] then []
    else
      var front, last := rs[..|rs| - 1], rs[|rs| - 1];
      assert Names(rs) == Names(front) + [last.key];
      HasKeyByKeys(AggregateFields(front, rows), last.key);
      assert DistinctNames(rs) ==> last.key !in Names(front);
      Put(AggregateFields(front, rows), last.key, last.reduce(rows))
  }

  function Names(rs: seq<NamedReducer>): (ks: seq<string>)
    ensures |ks| == |rs| && forall i :: 0 <= i < |rs| ==> ks[i] == rs[i].key
  {
    seq(|rs|, i requires 0 <= i < |rs| => rs[i].key)
  }

  /** `Object.entries` never lists a key twice. */
  predicate DistinctNames(rs: seq<NamedReducer>) {
    forall i, j :: 0 <= i < j < |rs| ==> rs[i].key != rs[j].key
  }

  /** `reduce`'s `outerFunc` before the wrapping array: `obj(data)` for a naked reducer,
      the object of named results otherwise. */
  function Aggregate(reducer: Reducer, rows: seq<Value>): (r: Result<Value>)
    ensures r.Err? <==> reducer == Named([])
  {
    match reducer
    case Naked(f) => Ok(f(rows))
    case Named(rs) => if rs == [] then Err(ObjNotAFunction) else Ok(Obj(AggregateFields(rs, rows)))
  }

  /** The row `distinct` keeps of a bucket: its first row, after sorting the bucket
      with `quickSort` when a sorter is given. */
  function Representative(bucket: seq<Value>, sel: Selector, sorted: bool): Value {
    var s := if sorted then Sorts.QuickSorted(bucket, sel) else bucket;
    if s == [] then Undef else s[0]
  }

  function Representatives(order: seq<string>, buckets: map<string, seq<Value>>, sel: Selector, sorted: bool): (r: seq<Value>)
    requires forall k :: k in order ==> k in buckets
    ensures |r| == |order|
  {
    seq(|order|, i requires 0 <= i < |order| => Representative(buckets[order[i]], sel, sorted))
  }

  /** `distinct`'s `outerFunc`: one row per bucket, buckets in their key order. */
  function DistinctRows(sel: Selector, sorted: bool, rows: seq<Value>): (r: Result<seq<Value>>)
    ensures r.Err? <==> Grouped(rows, sel).None?
  {
    match Grouped(rows, sel)
    case None => Err(NullKey)
    case Some(t) =>
      AddAllValid(EmptyTable, rows, sel);
      Ok(Representatives(t.order, t.buckets, sel, sorted))
  }

  function MapStep(func: Selector): Step {
    rows => MapRows(func, rows)
  }

  function FilterStep(pred: Selector): Step {
    rows => Ok(FilterRows(pred, rows))
  }

  /** `data => quickSort(data, func, ...)`. */
  function SortStep(sel: Selector): Step {
    rows => Ok(Sorts.QuickSorted(rows, sel))
  }

  /** `data => new hashBuckets(func).addItems(data).getBuckets()`. */
  function GroupStep(sel: Selector): Step {
    rows => Database.GroupedRows(rows, sel)
  }

  function UngroupStep(func: Selector): Step {
    rows => UngroupRows(func, rows)
  }

  /** The aggregate, wrapped in an array to keep the nesting. */
  function ReduceStep(reducer: Reducer): Step {
    rows => match Aggregate(reducer, rows)
            case Err(e) => Err(e)
            case Ok(agg) => Ok([agg])
  }

  function DistinctStep(sel: Selector, sorted: bool): Step {
    rows => DistinctRows(sel, sorted, rows)
  }

  /** Rows as `merge` receives them: from a generator, or from an array. */
  function Held(rows: seq<Value>, generated: bool): MergeTools.Input {
    if generated then MergeTools.Generated(rows) else MergeTools.Listed(rows)
  }

  /** The values of some properties, in order. */
  function FieldValues(es: seq<Field>): (vs: seq<Value>)
    ensures |vs| == |es| && forall i :: 0 <= i < |es| ==> vs[i] == es[i].val
  {
    seq(|es|, i requires 0 <= i < |es| => es[i].val)
  }

  /** What `merge` hands `mrg` as its right side, unchanged: an array or a string iterates
      to its elements (a dataset's generator to its rows); any other value has no
      iterator, and `for...in` reads the values of its own properties, which only an
      object has. */
  function IncomingInput(incoming: Value, generated: bool): (r: MergeTools.Input)
    ensures r.Uniterable? <==> !Iterable(incoming)
    ensures Iterable(incoming) ==> r.rows == Elements(incoming).value
  {
    if Iterable(incoming) then Held(Elements(incoming).value, generated)
    else MergeTools.Uniterable(FieldValues(OwnEntries(incoming)))
  }

  /** The rows `loopMerge`'s `for (let r in rightData)` reads as `rightData[r]`: one per
      own key of the incoming value, in key order, and none of a generator. */
  lemma IncomingVisitsProperties(incoming: Value, generated: bool)
    requires incoming.Obj? ==> DistinctKeys(incoming.entries)
    ensures var visited := MergeTools.Indexed(IncomingInput(incoming, generated));
      (generated && Iterable(incoming) ==> visited == [])
      && (!(generated && Iterable(incoming)) ==>
            |visited| == |OwnEntries(incoming)|
            && forall i :: 0 <= i < |visited| ==> visited[i] == PropOf(incoming, OwnEntries(incoming)[i].key))
  {
    var visited := MergeTools.Indexed(IncomingInput(incoming, generated));
    if !(generated && Iterable(incoming)) {
      forall i | 0 <= i < |visited| ensures visited[i] == PropOf(incoming, OwnEntries(incoming)[i].key) {
        PropOfOwn(incoming, i);
        match incoming
        case Arr(items) => IndexEntriesAt(items, i);
        case Str(t) => CharEntriesAt(t, i);
        case _ =>
      }
    }
  }

  /** `data => [...mrg(data, incoming, matcher, options, method)]`, on base sequences
      that are generators when `generatedBase` holds. */
  function MergeStep(generatedBase: bool, incoming: MergeTools.Input, matcher: MergeTools.Matcher,
                     options: MergeTools.MergeOptions, methodName: Option<string>, eval: MergeTools.Evaluator): Step {
    data => MergeTools.Merged(Held(data, generatedBase), incoming, matcher, options, methodName, eval)
  }

  // ---------------------------------------------------------------------------
  // recurse and recurseToArray.

  /** The nesting a group level describes: at level 1 the data is a sequence of records,
      at each higher level an array of data one level lower. */
  predicate Nested(v: Value, level: int)
    decreases if level > 0 then level else 0
  {
    if level <= 0 then true
    else if level == 1 then Iterable(v)
    else v.Arr? && forall i :: 0 <= i < |v.items| ==> Nested(v.items[i], level - 1)
  }

  /** Every row a step produces is nested `depth` levels: grouping makes each row an
      array, one level. */
  ghost predicate RowsNested(step: Step, depth: int) {
    forall rows :: step(rows).Ok? ==> forall i :: 0 <= i < |step(rows).value| ==> Nested(step(rows).value[i], depth)
  }

  /** `recurse(func, data, levelCountdown)`, iterated. At level 0 the generator returns
      before its first `yield`, so it yields nothing; above level 1 each item is recursed
      into one level lower; otherwise the step runs on the data's elements. */
  function Recurse(step: Step, data: Value, level: int): (r: Result<Value>)
    decreases if level > 0 then level else 0, 0
  {
    if level == 0 then Ok(Arr([]))
    else
      match Elements(data)
      case Err(e) => Err(e)
      case Ok(items) =>
        if level > 1 then RecurseEach(step, items, level - 1)
        else
          match step(items)
          case Err(e) => Err(e)
          case Ok(rows) => Ok(Arr(rows))
  }

  /** The items of nested data, each recursed into at `level`: the outer array keeps
      its length and each entry is what recursing into that item gives. */
  function RecurseEach(step: Step, items: seq<Value>, level: int): (r: Result<Value>)
    requires level >= 1
    ensures r.Ok? <==> forall i :: 0 <= i < |items| ==> Recurse(step, items[i], level).Ok?
    ensures r.Ok? ==> (r.value.Arr? && |r.value.items| == |items|
      && forall i :: 0 <= i < |items| ==> Recurse(step, items[i], level) == Ok(r.value.items[i]))
    decreases level, |items|
  {
    if items == [] then Ok(Arr([]))
    else
      match RecurseEach(step, items[..|items| - 1], level)
      case Err(e) => Err(e)
      case Ok(done) =>
        match Recurse(step, items[|items| - 1], level)
        case Err(e) => Err(e)
        case Ok(v) => Ok(Arr(done.items + [v]))
  }

  /** `recurseToArray(func, data, levelCountdown)`: `func([data])[0]` at level 0, the
      entries one level lower above level 1, `noUndefined(func(item))` otherwise. */
  function ToArray(func: Selector, data: Value, level: int): (r: Result<Value>)
    decreases if level > 0 then level else 0, 0
  {
    if level == 0 then
      var wrapped := func(Arr([data]));
      if Nullish(wrapped) then Err(TypeError("Cannot read properties of undefined (reading '0')"))
      else Ok(PropOf(wrapped, "0"))
    else
      match Elements(data)
      case Err(e) => Err(e)
      case Ok(items) =>
        if level > 1 then ToArrayEach(func, items, level - 1)
        else
          match MapRows(func, items)
          case Err(e) => Err(e)
          case Ok(list) => Ok(Arr(list))
  }

  /** The entries `recurseToArray` pushes above level 1: one per item, in order. */
  function ToArrayEach(func: Selector, items: seq<Value>, level: int): (r: Result<Value>)
    requires level >= 1
    ensures r.Ok? <==> forall i :: 0 <= i < |items| ==> ToArray(func, items[i], level).Ok?
    ensures r.Ok? ==> (r.value.Arr? && |r.value.items| == |items|
      && forall i :: 0 <= i < |items| ==> ToArray(func, items[i], level) == Ok(r.value.items[i]))
    decreases level, |items|
  {
    if items == [] then Ok(Arr([]))
    else
      match ToArrayEach(func, items[..|items| - 1], level)
      case Err(e) => Err(e)
      case Ok(done) =>
        match ToArray(func, items[|items| - 1], level)
        case Err(e) => Err(e)
        case Ok(v) => Ok(Arr(done.items + [v]))
  }

  /** Once a prefix of the items fails, the whole fails with the same error. */
  lemma {:induction false} MapRowsPrefixFails(func: Selector, items: seq<Value>, i: nat)
    requires i <= |items| && MapRows(func, items[..i]).Err?
    ensures MapRows(func, items) == MapRows(func, items[..i])
    decreases |items|
  {
    if i < |items| {
      var front := items[..|items| - 1];
      assert front[..i] == items[..i];
      MapRowsPrefixFails(func, front, i);
    } else {
      assert items[..i] == items;
    }
  }

  lemma {:induction false} ToArrayEachPrefixFails(func: Selector, items: seq<Value>, level: int, i: nat)
    requires level >= 1 && i <= |items| && ToArrayEach(func, items[..i], level).Err?
    ensures ToArrayEach(func, items, level) == ToArrayEach(func, items[..i], level)
    decreases |items|
  {
    if i < |items| {
      var front := items[..|items| - 1];
      assert front[..i] == items[..i];
      ToArrayEachPrefixFails(func, front, level, i);
    } else {
      assert items[..i] == items;
    }
  }

  /** `recurseToArray`: builds each level's list by pushing the entries in order. */
  method RecurseToArray(func: Selector, data: Value, levelCountdown: int) returns (r: Result<Value>)
    ensures r == ToArray(func, data, levelCountdown)
    decreases if levelCountdown > 0 then levelCountdown else 0, 0
  {
    if levelCountdown == 0 {
      var wrapped := func(Arr([data]));
      if Nullish(wrapped) {
        return Err(TypeError("Cannot read properties of undefined (reading '0')"));
      }
      return Ok(PropOf(wrapped, "0"));
    }
    var elements := Elements(data);
    if elements.Err? {
      return Err(elements.error);
    }
    if levelCountdown > 1 {
      r := PushNested(func, elements.value, levelCountdown - 1);
      NestedLevel(func, data, levelCountdown);
    } else {
      var list := PushBase(func, elements.value);
      BaseLevel(func, data);
      if list.Err? {
        return Err(list.error);
      }
      r := Ok(Arr(list.value));
    }
  }

  lemma NestedLevel(func: Selector, data: Value, level: int)
    requires level > 1 && Elements(data).Ok?
    ensures ToArray(func, data, level) == ToArrayEach(func, Elements(data).value, level - 1)
  {
  }

  lemma BaseLevel(func: Selector, data: Value)
    requires Elements(data).Ok?
    ensures ToArray(func, data, 1) == match MapRows(func, Elements(data).value)
      case Err(e) => Err(e)
      case Ok(list) => Ok(Arr(list))
  {
  }

  /** The loop of `recurseToArray` above level 1: each item materialised one level lower. */
  method PushNested(func: Selector, items: seq<Value>, level: int) returns (r: Result<Value>)
    requires level >= 1
    ensures r == ToArrayEach(func, items, level)
    decreases level, 1
  {
    var list: seq<Value> := [];
    for i := 0 to |items|
      invariant ToArrayEach(func, items[..i], level) == Ok(Arr(list))
    {
      assert items[..i + 1][..i] == items[..i];
      var entry := RecurseToArray(func, items[i], level);
      if entry.Err? {
        ToArrayEachPrefixFails(func, items, level, i + 1);
        return Err(entry.error);
      }
      list := list + [entry.value];
    }
    assert items[..|items|] == items;
    return Ok(Arr(list));
  }

  /** The loop of `recurseToArray` at the base: `noUndefined(func(item))` for each item. */
  method PushBase(func: Selector, items: seq<Value>) returns (r: Result<seq<Value>>)
    ensures r == MapRows(func, items)
  {
    var list: seq<Value> := [];
    for i := 0 to |items|
      invariant MapRows(func, items[..i]) == Ok(list)
    {
      assert items[..i + 1][..i] == items[..i];
      var entry := General.NoUndefinedValue(func(items[i]));
      if entry.Err? {
        MapRowsPrefixFails(func, items, i + 1);
        return Err(entry.error);
      }
      list := list + [entry.value];
    }
    assert items[..|items|] == items;
    return Ok(list);
  }

  // ---------------------------------------------------------------------------
  // The dataset's state and what each method makes of it.

  /** The dataset's fields, and what kind of object its data is: `generated` when
      `data` is a generator, `generatedBase` when the sequences its next step reads are.
      `recurse` is a generator function, so every method run through it leaves
      generators at every level; `group` leaves its buckets as arrays beneath them. */
  datatype State = State(data: Value, groupLevel: int, generated: bool, generatedBase: bool)

  /** The state after a method and what it returned or threw. */
  datatype Outcome<T> = Outcome(state: State, result: Result<T>)

  /** A method that runs a step through `recurse` and keeps the group level. */
  function Lift(s: State, step: Step): Outcome<()> {
    match Recurse(step, s.data, s.groupLevel)
    case Err(e) => Outcome(s, Err(e))
    case Ok(d) => Outcome(State(d, s.groupLevel, true, true), Ok(()))
  }

  /** `sort(func)`: `parser.parameters(func)` picks the third argument of `quickSort`,
      which the bundled `quickSort` does not read. */
  function AfterSort(s: State, func: Database.UserFunction): Outcome<()> {
    match Parameters(func.text)
    case Err(e) => Outcome(s, Err(e))
    case Ok(_) => Lift(s, SortStep(func.apply))
  }

  /** `group(func)`: each base sequence becomes its buckets, one level deeper. */
  function AfterGroup(s: State, func: Selector): Outcome<()> {
    match Recurse(GroupStep(func), s.data, s.groupLevel)
    case Err(e) => Outcome(s, Err(e))
    case Ok(d) => Outcome(State(d, s.groupLevel + 1, true, s.groupLevel < 1), Ok(()))
  }

  /** `ungroup(func)`. At level 1 the only item becomes the data; a second item throws,
      after the first has already been stored. Elsewhere the items one level above the
      base are concatenated, one level higher. */
  function AfterUngroup(s: State, func: Option<Selector>): (r: Outcome<()>)
    // Ungrouping goes one level up, and to 0 from 1.
    ensures r.result.Ok? ==> r.state.groupLevel == s.groupLevel - 1
    // At level 1 the data becomes the only item, which is not a generator.
    ensures s.groupLevel == 1 && r.result.Ok? && r.state != s.(groupLevel := 0) ==>
      !r.state.generated && Elements(s.data).Ok? && Elements(s.data).value == [r.state.data]
    // A second item at level 1 throws, with the first item already stored.
    ensures s.groupLevel == 1 && Elements(s.data).Ok? && |Elements(s.data).value| >= 2 ==>
      r.result == Err(UngroupToZero) && r.state.data == Elements(s.data).value[0] && r.state.groupLevel == 1
    // Anywhere else a failure leaves the state as it was.
    ensures r.result.Err? && r.result != Err(UngroupToZero) ==> r.state == s
  {
    if s.groupLevel == 1 then
      match Elements(s.data)
      case Err(e) => Outcome(s, Err(e))
      case Ok(items) =>
        if |items| == 0 then Outcome(s.(groupLevel := 0), Ok(()))
        else if |items| == 1 then Outcome(State(items[0], 0, false, false), Ok(()))
        else Outcome(State(items[0], 1, false, false), Err(UngroupToZero))
    else
      var f := if func.Some? then func.value else Identity;
      match Recurse(UngroupStep(f), s.data, s.groupLevel - 1)
      case Err(e) => Outcome(s, Err(e))
      case Ok(d) => Outcome(State(d, s.groupLevel - 1, true, true), Ok(()))
  }

  /** `reduce(obj, ungroup)`: one aggregate per base sequence, wrapped in an array, then
      (by default) ungrouped. */
  function AfterReduce(s: State, reducer: Reducer, ungroup: bool): Outcome<()> {
    match Recurse(ReduceStep(reducer), s.data, s.groupLevel)
    case Err(e) => Outcome(s, Err(e))
    case Ok(d) =>
      if ungroup then AfterUngroup(State(d, s.groupLevel, true, true), None)
      else Outcome(State(d, s.groupLevel, true, true), Ok(()))
  }

  /** `distinct(func, sorter)`: without a key selector the row itself is the key; a sorter
      is only read for its parameters. */
  function AfterDistinct(s: State, func: Option<Selector>, sorter: Option<string>): Outcome<()> {
    var sel := if func.Some? then func.value else Identity;
    if sorter.Some? && Parameters(sorter.value).Err? then Outcome(s, Err(Parameters(sorter.value).error))
    else Lift(s, DistinctStep(sel, sorter.Some?))
  }

  /** The matcher argument of `merge`: `'='` or a matcher function. */
  datatype MatcherArg = EqualsSign | MatcherFunction(matcher: MergeTools.Matcher)

  /** `'='` stands for `(l,r) => g.eq(l,r)`. */
  function MatcherOf(arg: MatcherArg): MergeTools.Matcher {
    match arg
    case EqualsSign => MergeTools.Matcher("(l,r) => g.eq(l,r)", (l, r) => General.Eq(l, r))
    case MatcherFunction(m) => m
  }

  /** `merge(incoming, matcher, options, method)` with the incoming value, whose rows
      come from a generator when `incomingGenerated` holds. Whether it can be iterated
      matters only inside each base sequence's merge. */
  function AfterMerge(s: State, incoming: Value, incomingGenerated: bool, matcher: MatcherArg,
                      options: MergeTools.MergeOptions, methodName: Option<string>, eval: MergeTools.Evaluator): (r: Outcome<()>)
    ensures r.result.Err? ==> r.state == s
    ensures r.result.Ok? ==> r.state.groupLevel == s.groupLevel && r.state.generated && r.state.generatedBase
  {
    Lift(s, MergeStep(s.generatedBase, IncomingInput(incoming, incomingGenerated), MatcherOf(matcher), options, methodName, eval))
  }

  /** `get(func)`: data without an iterator goes through `func` (when given) and is
      returned; otherwise it is materialised by `recurseToArray`. */
  function AfterGet(s: State, func: Option<Selector>): Outcome<Value> {
    if !Iterable(s.data) then
      var d := if func.Some? then func.value(s.data) else s.data;
      Outcome(State(d, s.groupLevel, false, false), Ok(d))
    else
      match ToArray(if func.Some? then func.value else Identity, s.data, s.groupLevel)
      case Err(e) => Outcome(s, Err(e))
      case Ok(arr) => Outcome(State(arr, s.groupLevel, false, false), Ok(arr))
  }

  class Dataset {
    var data: Value
    var groupLevel: int
    /** Whether `data` is a generator, and whether the sequences at its base are. */
    var generated: bool
    var generatedBase: bool

    function Snapshot(): State
      reads this
    {
      State(data, groupLevel, generated, generatedBase)
    }

    /** `new dataset(data, groupLevel)`; the source defaults `groupLevel` to 1. */
    constructor (data: Value, groupLevel: int)
      ensures Snapshot() == State(data, groupLevel, false, false)
    {
      this.data := data;
      this.groupLevel := groupLevel;
      generated := false;
      generatedBase := false;
    }

    /** Stores the data of a step run through `recurse`; nothing changes when it throws. */
    method Run(step: Step) returns (r: Result<()>)
      modifies this
      ensures Outcome(Snapshot(), r) == Lift(old(Snapshot()), step)
    {
      var next := Recurse(step, data, groupLevel);
      if next.Err? {
        return Err(next.error);
      }
      data := next.value;
      generated, generatedBase := true, true;
      return Ok(());
    }

    method Map(func: Selector) returns (r: Result<()>)
      modifies this
      ensures Outcome(Snapshot(), r) == Lift(old(Snapshot()), MapStep(func))
    {
      r := Run(MapStep(func));
    }

    method Filter(func: Selector) returns (r: Result<()>)
      modifies this
      ensures Outcome(Snapshot(), r) == Lift(old(Snapshot()), FilterStep(func))
    {
      r := Run(FilterStep(func));
    }

    method Sort(func: Database.UserFunction) returns (r: Result<()>)
      modifies this
      ensures Outcome(Snapshot(), r) == AfterSort(old(Snapshot()), func)
    {
      var params := Parameters(func.text);
      if params.Err? {
        return Err(params.error);
      }
      r := Run(SortStep(func.apply));
    }

    method Group(func: Selector) returns (r: Result<()>)
      modifies this
      ensures Outcome(Snapshot(), r) == AfterGroup(old(Snapshot()), func)
    {
      r := Run(GroupStep(func));
      if r.Ok? {
        generatedBase := groupLevel < 1;
        groupLevel := groupLevel + 1;
      }
    }

    /** `ungroup(func)`; at level 1 the counter loop stores each item it visits and
        throws at the second. */
    method Ungroup(func: Option<Selector>) returns (r: Result<()>)
      modifies this
      ensures Outcome(Snapshot(), r) == AfterUngroup(old(Snapshot()), func)
    {
      if groupLevel == 1 {
        var elements := Elements(data);
        if elements.Err? {
          return Err(elements.error);
        }
        var items := elements.value;
        var counter := 0;
        var i := 0;
        while i < |items|
          invariant 0 <= i <= |items| && counter == i && i <= 1
          invariant groupLevel == 1
          invariant i == 0 ==> data == old(data) && generated == old(generated) && generatedBase == old(generatedBase)
          invariant i == 1 ==> data == items[0] && !generated && !generatedBase
        {
          counter := counter + 1;
          if counter > 1 {
            return Err(UngroupToZero);
          }
          data := items[i];
          generated, generatedBase := false, false;
          i := i + 1;
        }
        groupLevel := groupLevel - 1;
        return Ok(());
      }
      var f := if func.Some? then func.value else Identity;
      var next := Recurse(UngroupStep(f), data, groupLevel - 1);
      if next.Err? {
        return Err(next.error);
      }
      data := next.value;
      groupLevel := groupLevel - 1;
      generated, generatedBase := true, true;
      return Ok(());
    }

    method Reduce(obj: Reducer, ungroup: bool) returns (r: Result<()>)
      modifies this
      ensures Outcome(Snapshot(), r) == AfterReduce(old(Snapshot()), obj, ungroup)
    {
      r := Run(ReduceStep(obj));
      if r.Ok? && ungroup {
        r := Ungroup(None);
      }
    }

    method Distinct(func: Option<Selector>, sorter: Option<string>) returns (r: Result<()>)
      modifies this
      ensures Outcome(Snapshot(), r) == AfterDistinct(old(Snapshot()), func, sorter)
    {
      var sel := if func.Some? then func.value else Identity;
      if sorter.Some? {
        var params := Parameters(sorter.value);
        if params.Err? {
          return Err(params.error);
        }
      }
      r := Run(DistinctStep(sel, sorter.Some?));
    }

    /** `merge` with incoming rows given as a value: an array. */
    method Merge(incoming: Value, matcher: MatcherArg, options: MergeTools.MergeOptions,
                 methodName: Option<string>, eval: MergeTools.Evaluator) returns (r: Result<()>)
      modifies this
      ensures Outcome(Snapshot(), r) == AfterMerge(old(Snapshot()), incoming, false, matcher, options, methodName, eval)
    {
      r := MergeRows(incoming, false, matcher, options, methodName, eval);
    }

    /** `merge` with another dataset: its data, an array or a generator, is the incoming
        rows. */
    method MergeDataset(other: Dataset, matcher: MatcherArg, options: MergeTools.MergeOptions,
                        methodName: Option<string>, eval: MergeTools.Evaluator) returns (r: Result<()>)
      modifies this
      ensures Outcome(Snapshot(), r)
        == AfterMerge(old(Snapshot()), old(other.data), old(other.generated), matcher, options, methodName, eval)
    {
      r := MergeRows(other.data, other.generated, matcher, options, methodName, eval);
    }

    method MergeRows(incoming: Value, incomingGenerated: bool, matcher: MatcherArg, options: MergeTools.MergeOptions,
                     methodName: Option<string>, eval: MergeTools.Evaluator) returns (r: Result<()>)
      modifies this
      ensures Outcome(Snapshot(), r)
        == AfterMerge(old(Snapshot()), incoming, incomingGenerated, matcher, options, methodName, eval)
    {
      r := Run(MergeStep(generatedBase, IncomingInput(incoming, incomingGenerated), MatcherOf(matcher), options, methodName, eval));
    }

    method Get(func: Option<Selector>) returns (r: Result<Value>)
      modifies this
      ensures Outcome(Snapshot(), r) == AfterGet(old(Snapshot()), func)
    {
      if !Iterable(data) {
        if func.Some? {
          data := func.value(data);
        }
        generated, generatedBase := false, false;
        return Ok(data);
      }
      var arr := RecurseToArray(if func.Some? then func.value else Identity, data, groupLevel);
      if arr.Err? {
        return Err(arr.error);
      }
      data := arr.value;
      generated, generatedBase := false, false;
      return arr;
    }
  }

  // ---------------------------------------------------------------------------
  // Group levels.

  /** Whatever the input, a result of `recurse` has the nesting of its level, plus the
      nesting of the rows its step produces. */
  lemma {:induction false} RecurseNests(step: Step, data: Value, level: int, depth: int)
    requires 0 <= depth <= 1 && RowsNested(step, depth)
    requires Recurse(step, data, level).Ok?
    ensures Nested(Recurse(step, data, level).value, level + depth)
    decreases if level > 0 then level else 0
  {
    var r := Recurse(step, data, level).value;
    if level > 1 {
      var items := Elements(data).value;
      assert Recurse(step, data, level) == RecurseEach(step, items, level - 1);
      forall i | 0 <= i < |items| ensures Nested(r.items[i], level - 1 + depth) {
        RecurseNests(step, items[i], level - 1, depth);
      }
    } else if level == 1 {
      StepNests(step, Elements(data).value, depth);
    }
  }

  /** Below level 2 the result is the array of the step's rows. */
  lemma StepNests(step: Step, items: seq<Value>, depth: int)
    requires 0 <= depth <= 1 && RowsNested(step, depth)
    requires step(items).Ok?
    ensures Nested(Arr(step(items).value), 1 + depth)
  {
    var rows := step(items).value;
    if depth == 1 {
      assert forall i :: 0 <= i < |rows| ==> Nested(rows[i], 1);
    }
  }

  /** Grouping makes every row a bucket array. */
  lemma GroupRowsNested(sel: Selector)
    ensures RowsNested(GroupStep(sel), 1)
  {
    forall rows | GroupStep(sel)(rows).Ok?
      ensures forall i :: 0 <= i < |GroupStep(sel)(rows).value| ==> Nested(GroupStep(sel)(rows).value[i], 1)
    {
      var t := Grouped(rows, sel).value;
      AddAllValid(EmptyTable, rows, sel);
      BucketRowsArrays(t.order, t.buckets);
    }
  }

  lemma {:induction false} BucketRowsArrays(order: seq<string>, buckets: map<string, seq<Value>>)
    requires forall k :: k in order ==> k in buckets
    ensures forall i :: 0 <= i < |order| ==> Database.BucketRows(order, buckets)[i] == Arr(buckets[order[i]])
    decreases |order|
  {
    if order != [] {
      BucketRowsArrays(order[1..], buckets);
    }
  }

  /** `map`, `filter`, `sort`, `distinct`, `merge` and `reduce`'s first half keep the
      group level and leave data nested as that level says. */
  lemma LiftKeepsLevel(s: State, step: Step)
    requires Lift(s, step).result.Ok?
    ensures Lift(s, step).state.groupLevel == s.groupLevel
    ensures Nested(Lift(s, step).state.data, s.groupLevel)
  {
    RecurseNests(step, s.data, s.groupLevel, 0);
  }

  /** `group` adds exactly one level, and the data has one more level of nesting. */
  lemma GroupAddsLevel(s: State, func: Selector)
    requires AfterGroup(s, func).result.Ok?
    ensures AfterGroup(s, func).state.groupLevel == s.groupLevel + 1
    ensures Nested(AfterGroup(s, func).state.data, s.groupLevel + 1)
  {
    GroupRowsNested(func);
    RecurseNests(GroupStep(func), s.data, s.groupLevel, 1);
  }

  /** `ungroup` takes exactly one level away, and the data is nested as that level says. */
  lemma UngroupDropsLevel(s: State, func: Option<Selector>)
    requires AfterUngroup(s, func).result.Ok?
    ensures AfterUngroup(s, func).state.groupLevel == s.groupLevel - 1
    ensures Nested(AfterUngroup(s, func).state.data, s.groupLevel - 1)
  {
    if s.groupLevel != 1 {
      var f := if func.Some? then func.value else Identity;
      RecurseNests(UngroupStep(f), s.data, s.groupLevel - 1, 0);
    }
  }

  /** Ungrouping to level 0 succeeds exactly when the data has at most one item, which
      then becomes the data; the second item raises the error. */
  lemma UngroupToZeroRule(s: State, func: Option<Selector>)
    requires s.groupLevel == 1 && Iterable(s.data)
    ensures var items := Elements(s.data).value;
      var o := AfterUngroup(s, func);
      (o.result.Ok? <==> |items| <= 1)
      && (|items| == 1 ==> o.state == State(items[0], 0, false, false))
      && (|items| > 1 ==> o.result == Err(UngroupToZero) && o.state.data == items[0])
  {
  }

  // ---------------------------------------------------------------------------
  // What the operations do to base sequences.

  /** Filtering distributes over concatenation, so the kept rows stay in input order. */
  lemma {:induction false} FilterAppend(pred: Selector, a: seq<Value>, b: seq<Value>)
    ensures FilterRows(pred, a + b) == FilterRows(pred, a) + FilterRows(pred, b)
    decreases |b|
  {
    if b == [] {
      assert a + b == a;
    } else {
      var front, last := b[..|b| - 1], b[|b| - 1];
      assert (a + b)[..|a + b| - 1] == a + front;
      assert (a + b)[|a + b| - 1] == last;
      FilterAppend(pred, a, front);
    }
  }

  /** A single row is kept exactly when the predicate holds for it. */
  lemma FilterOne(pred: Selector, x: Value)
    ensures FilterRows(pred, [x]) == if Truthy(pred(x)) then [x] else []
  {
    assert [x][..0] == [];
  }

  /** Ungrouping with the identity removes one level of arrays, keeping order. */
  lemma {:induction false} UngroupIdentityFlattens(rows: seq<Value>)
    requires forall i :: 0 <= i < |rows| ==> rows[i].Arr?
    ensures UngroupRows(Identity, rows) == Ok(General.Flatten(rows))
    decreases |rows|
  {
    if rows != [] {
      var front, last := rows[..|rows| - 1], rows[|rows| - 1];
      UngroupIdentityFlattens(front);
      assert rows == front + [last];
      General.FlattenAppend(front, [last]);
      General.FlattenOneLevel(last.items, last);
      var nested := last.items;
      assert seq(|nested|, i requires 0 <= i < |nested| => Identity(nested[i])) == nested;
    }
  }

  /** At level 2 `ungroup()` concatenates the groups, one level higher. */
  lemma UngroupFlattens(groups: seq<Value>, generated: bool, generatedBase: bool)
    requires forall i :: 0 <= i < |groups| ==> groups[i].Arr?
    ensures AfterUngroup(State(Arr(groups), 2, generated, generatedBase), None)
      == Outcome(State(Arr(General.Flatten(groups)), 1, true, true), Ok(()))
  {
    UngroupIdentityFlattens(groups);
    var step := UngroupStep(Identity);
    assert step(groups) == Ok(General.Flatten(groups));
    assert Recurse(step, Arr(groups), 1) == Ok(Arr(General.Flatten(groups)));
  }

  /** Grouping records and ungrouping them again loses and invents no record. */
  lemma GroupThenUngroup(rows: seq<Value>, sel: Selector)
    requires AfterGroup(State(Arr(rows), 1, false, false), sel).result.Ok?
    ensures var g := AfterGroup(State(Arr(rows), 1, false, false), sel).state;
      var u := AfterUngroup(g, None);
      u.result.Ok? && u.state.groupLevel == 1 && u.state.data.Arr?
      && multiset(u.state.data.items) == multiset(rows)
  {
    var t := Grouped(rows, sel).value;
    AddAllValid(EmptyTable, rows, sel);
    var grouped := Database.BucketRows(t.order, t.buckets);
    assert AfterGroup(State(Arr(rows), 1, false, false), sel).state == State(Arr(grouped), 2, true, false);
    BucketRowsArrays(t.order, t.buckets);
    UngroupFlattens(grouped, true, false);
    Database.GroupedRowsPermute(rows, sel);
  }

  /** At level 1 `sort` returns a permutation of the records, non-decreasing under
      `decideOrder` when the selected keys are comparable. */
  lemma SortLevelOne(rows: seq<Value>, func: Database.UserFunction)
    requires Parameters(func.text).Ok?
    ensures var o := AfterSort(State(Arr(rows), 1, false, false), func);
      o.result.Ok? && o.state.groupLevel == 1 && o.state.data.Arr?
      && multiset(o.state.data.items) == multiset(rows)
      && (Sorts.UniformKeys(rows, func.apply) ==> Sorts.SortedBy(o.state.data.items, func.apply))
  {
    if Sorts.UniformKeys(rows, func.apply) {
      Sorts.QuickSortedSorted(rows, func.apply);
    }
  }

  /** The reference meaning of `distinct` without a sorter: a row is kept when no earlier
      row had its key signature. */
  function KeepFirst(rows: seq<Value>, sel: Selector, seen: set<string>): seq<Value>
    decreases |rows|
  {
    if rows == [] then []
    else
      match KeyOf(sel, rows[0])
      case None => KeepFirst(rows[1..], sel, seen)
      case Some(k) =>
        if k in seen then KeepFirst(rows[1..], sel, seen)
        else [rows[0]] + KeepFirst(rows[1..], sel, seen + {k})
  }

  /** Adding rows to a bucket map adds, after the heads it had, the rows whose key was
      new. */
  lemma {:induction false} AddAllHeads(t: Table, rows: seq<Value>, sel: Selector)
    requires TableValid(t) && AddAll(t, rows, sel).Some?
    ensures var t' := AddAll(t, rows, sel).value;
      TableValid(t')
      && Representatives(t'.order, t'.buckets, sel, false)
         == Representatives(t.order, t.buckets, sel, false) + KeepFirst(rows, sel, t.buckets.Keys)
    decreases |rows|
  {
    if rows == [] {
      assert KeepFirst(rows, sel, t.buckets.Keys) == [];
    } else {
      var k := KeyOf(sel, rows[0]).value;
      var t1 := AddOne(t, k, rows[0]);
      AddOneHeads(t, k, rows[0], sel);
      AddAllHeads(t1, rows[1..], sel);
      AddAllHeadsStep(t, rows, sel);
    }
  }

  /** The step of `AddAllHeads`: what the first row adds, then what the rest add. */
  lemma AddAllHeadsStep(t: Table, rows: seq<Value>, sel: Selector)
    requires TableValid(t) && rows != [] && AddAll(t, rows, sel).Some?
    requires var t1 := AddOne(t, KeyOf(sel, rows[0]).value, rows[0]);
      TableValid(t1) && AddAll(t1, rows[1..], sel).Some?
      && var t' := AddAll(t1, rows[1..], sel).value;
      TableValid(t')
      && Representatives(t1.order, t1.buckets, sel, false)
         == Representatives(t.order, t.buckets, sel, false) + (if KeyOf(sel, rows[0]).value in t.buckets then [] else [rows[0]])
      && Representatives(t'.order, t'.buckets, sel, false)
         == Representatives(t1.order, t1.buckets, sel, false) + KeepFirst(rows[1..], sel, t1.buckets.Keys)
    ensures var t' := AddAll(t, rows, sel).value;
      TableValid(t')
      && Representatives(t'.order, t'.buckets, sel, false)
         == Representatives(t.order, t.buckets, sel, false) + KeepFirst(rows, sel, t.buckets.Keys)
  {
    var k := KeyOf(sel, rows[0]).value;
    var t1 := AddOne(t, k, rows[0]);
    assert AddAll(t, rows, sel) == AddAll(t1, rows[1..], sel);
    KeepFirstStep(t, rows, sel);
    var heads, added, rest := Representatives(t.order, t.buckets, sel, false),
      (if k in t.buckets then [] else [rows[0]]), KeepFirst(rows[1..], sel, t1.buckets.Keys);
    AppendTwice(heads, added, rest);
  }

  /** Appending two parts one after the other is appending them together. */
  lemma AppendTwice(heads: seq<Value>, added: seq<Value>, rest: seq<Value>)
    ensures heads + added + rest == heads + (added + rest)
  {
  }

  /** `KeepFirst` against a bucket map's keys, one row at a time. */
  lemma KeepFirstStep(t: Table, rows: seq<Value>, sel: Selector)
    requires rows != [] && KeyOf(sel, rows[0]).Some?
    ensures var k := KeyOf(sel, rows[0]).value;
      KeepFirst(rows, sel, t.buckets.Keys)
      == (if k in t.buckets then [] else [rows[0]]) + KeepFirst(rows[1..], sel, AddOne(t, k, rows[0]).buckets.Keys)
  {
    var k := KeyOf(sel, rows[0]).value;
    var seen := t.buckets.Keys;
    if k in seen {
      assert AddOne(t, k, rows[0]).buckets.Keys == seen;
      assert KeepFirst(rows, sel, seen) == KeepFirst(rows[1..], sel, seen);
    } else {
      assert AddOne(t, k, rows[0]).buckets.Keys == seen + {k};
      assert KeepFirst(rows, sel, seen) == [rows[0]] + KeepFirst(rows[1..], sel, seen + {k});
    }
  }

  /** Adding one row to a bucket map adds it after the heads when its key is new, and
      leaves the heads as they were otherwise. */
  lemma AddOneHeads(t: Table, k: string, x: Value, sel: Selector)
    requires TableValid(t)
    ensures var t1 := AddOne(t, k, x);
      TableValid(t1)
      && Representatives(t1.order, t1.buckets, sel, false)
         == Representatives(t.order, t.buckets, sel, false) + (if k in t.buckets then [] else [x])
  {
    var t1 := AddOne(t, k, x);
    AddOneValid(t, k, x);
    if k in t.buckets {
      assert Representatives(t1.order, t1.buckets, sel, false) == Representatives(t.order, t.buckets, sel, false);
    } else {
      assert k !in t.order;
      assert Representatives(t1.order, t1.buckets, sel, false)
        == Representatives(t.order, t.buckets, sel, false) + [x];
    }
  }

  /** Without a sorter, `distinct` keeps the first row of each key signature, in order of
      first appearance. */
  lemma DistinctKeepsFirst(rows: seq<Value>, sel: Selector)
    requires Grouped(rows, sel).Some?
    ensures DistinctRows(sel, false, rows) == Ok(KeepFirst(rows, sel, {}))
  {
    assert TableValid(EmptyTable);
    AddAllHeads(EmptyTable, rows, sel);
    var t := Grouped(rows, sel).value;
    var none: set<string> := {};
    assert EmptyTable.buckets.Keys == none;
    assert Representatives(EmptyTable.order, EmptyTable.buckets, sel, false) == [];
    assert Representatives(t.order, t.buckets, sel, false) == KeepFirst(rows, sel, none);
  }

  /** Each named reducer's result is stored under its name. */
  lemma {:induction false} AggregateFieldReads(rs: seq<NamedReducer>, rows: seq<Value>, i: nat)
    requires DistinctNames(rs) && i < |rs|
    ensures Get(AggregateFields(rs, rows), rs[i].key) == rs[i].reduce(rows)
    decreases |rs|
  {
    var front, last := rs[..|rs| - 1], rs[|rs| - 1];
    GetPut(AggregateFields(front, rows), last.key, last.reduce(rows), rs[i].key);
    if i < |rs| - 1 {
      AggregateFieldReads(front, rows, i);
    }
  }

  /** At level 1, `reduce` with the default ungroup leaves the one aggregate as the data,
      at level 0. */
  lemma ReduceLevelOne(rows: seq<Value>, reducer: Reducer)
    requires reducer != Named([])
    ensures AfterReduce(State(Arr(rows), 1, false, false), reducer, true)
      == Outcome(State(Aggregate(reducer, rows).value, 0, false, false), Ok(()))
  {
  }

  /** At level 2, `reduce` with the default ungroup gives one aggregate row per group, in
      group order, at level 1. */
  lemma ReduceLevelTwo(groups: seq<Value>, reducer: Reducer)
    requires reducer != Named([])
    requires forall i :: 0 <= i < |groups| ==> groups[i].Arr?
    ensures var o := AfterReduce(State(Arr(groups), 2, false, false), reducer, true);
      o.result.Ok? && o.state.groupLevel == 1 && o.state.data.Arr?
      && |o.state.data.items| == |groups|
      && forall i :: 0 <= i < |groups| ==> o.state.data.items[i] == Aggregate(reducer, groups[i].items).value
  {
    var step := ReduceStep(reducer);
    forall i | 0 <= i < |groups|
      ensures Recurse(step, groups[i], 1) == Ok(Arr([Aggregate(reducer, groups[i].items).value]))
    {
    }
    var d := RecurseEach(step, groups, 1).value;
    var values := seq(|groups|, i requires 0 <= i < |groups| => Aggregate(reducer, groups[i].items).value);
    forall i | 0 <= i < |groups| ensures d.items[i] == Arr([values[i]]) {
      assert Recurse(step, groups[i], 1) == Ok(d.items[i]);
    }
    assert Recurse(step, Arr(groups), 2) == Ok(d);
    UngroupFlattens(d.items, true, true);
    SinglesFlatten(d.items, values);
    assert AfterReduce(State(Arr(groups), 2, false, false), reducer, true) == Outcome(State(Arr(values), 1, true, true), Ok(()));
  }

  // ---------------------------------------------------------------------------
  // Generators.

  /** Once a method has run through `recurse`, the base sequence a merge reads is a
      generator, and a loop merge visits none of its rows: only `mapper(undefined, r)` for
      each incoming row comes out. */
  lemma ChainedLoopMergeSeesNoRows(s: State, incoming: seq<Value>, matcher: MatcherArg, keywords: string,
                                   eval: MergeTools.Evaluator)
    requires s.groupLevel == 1 && s.generatedBase && Iterable(s.data)
    requires Decomposition(MatcherOf(matcher).text) == Ok(None)
    requires MergeTools.NormalizeMapper(MergeTools.KeywordText(keywords), MatcherOf(matcher).text).Ok?
    ensures var mapper := MergeTools.NormalizeMapper(MergeTools.KeywordText(keywords), MatcherOf(matcher).text).value;
      AfterMerge(s, Arr(incoming), false, matcher, MergeTools.StringOption(keywords), None, eval)
        == Outcome(State(Arr(MergeTools.Unmatched(incoming, mapper)), 1, true, true), Ok(()))
  {
    var m := MatcherOf(matcher);
    var mapper := MergeTools.NormalizeMapper(MergeTools.KeywordText(keywords), m.text).value;
    var rows := Elements(s.data).value;
    var right := MergeTools.Listed(incoming);
    MergeTools.GeneratedLeftLoopMerged(rows, incoming, m, keywords, eval);
    var step := MergeStep(true, right, m, MergeTools.StringOption(keywords), None, eval);
    assert step(rows) == Ok(MergeTools.Unmatched(incoming, mapper));
    assert Recurse(step, s.data, 1) == Ok(Arr(MergeTools.Unmatched(incoming, mapper)));
  }

  /** A loop merge reads an incoming value with no iterator through `for...in`, so it
      merges as the array of that value's property values would: nothing for
      `undefined`, `null`, a number or a boolean, and an object's values in key order. */
  lemma LoopMergeReadsProperties(s: State, incoming: Value, incomingGenerated: bool, matcher: MatcherArg,
                                 options: MergeTools.MergeOptions, eval: MergeTools.Evaluator)
    requires s.groupLevel == 1 && Iterable(s.data) && !Iterable(incoming)
    ensures AfterMerge(s, incoming, incomingGenerated, matcher, options, Some("loop"), eval)
      == AfterMerge(s, Arr(FieldValues(OwnEntries(incoming))), false, matcher, options, Some("loop"), eval)
  {
    var rows := Elements(s.data).value;
    var m := MatcherOf(matcher);
    var values := FieldValues(OwnEntries(incoming));
    assert IncomingInput(Arr(values), false) == MergeTools.Listed(values);
    assert IncomingInput(incoming, incomingGenerated) == MergeTools.Uniterable(values);
    MergeTools.UniterableLoopMerged(Held(rows, s.generatedBase), values, m, options, eval);
    LiftAtBase(s, MergeStep(s.generatedBase, MergeTools.Uniterable(values), m, options, Some("loop"), eval),
               MergeStep(s.generatedBase, MergeTools.Listed(values), m, options, Some("loop"), eval));
  }

  /** At level 1 a lifted step runs once, on the data's elements. */
  lemma LiftAtBase(s: State, step: Step, step': Step)
    requires s.groupLevel == 1 && Iterable(s.data)
    requires step(Elements(s.data).value) == step'(Elements(s.data).value)
    ensures Lift(s, step) == Lift(s, step')
    ensures step(Elements(s.data).value).Err? ==> Lift(s, step).result.Err?
  {
  }

  /** Hashing iterates the incoming value with `for...of`, so a merge that hashes one
      without an iterator fails. */
  lemma HashMergeNeedsIterator(s: State, incoming: Value, incomingGenerated: bool, matcher: MatcherArg,
                               options: MergeTools.MergeOptions, eval: MergeTools.Evaluator)
    requires s.groupLevel == 1 && Iterable(s.data) && !Iterable(incoming)
    ensures AfterMerge(s, incoming, incomingGenerated, matcher, options, Some("hash"), eval).result.Err?
  {
    var rows := Elements(s.data).value;
    var right := IncomingInput(incoming, incomingGenerated);
    var step := MergeStep(s.generatedBase, right, MatcherOf(matcher), options, Some("hash"), eval);
    MergeTools.UniterableHashRefused(Held(rows, s.generatedBase), right.visited, MatcherOf(matcher), options, eval);
    LiftAtBase(s, step, step);
  }

  /** With no groups to merge into, the merge never runs, whatever the incoming value. */
  lemma NoGroupsMergeAnything(level: int, generated: bool, generatedBase: bool, incoming: Value, incomingGenerated: bool,
                              matcher: MatcherArg, options: MergeTools.MergeOptions, methodName: Option<string>,
                              eval: MergeTools.Evaluator)
    requires level > 1
    ensures AfterMerge(State(Arr([]), level, generated, generatedBase), incoming, incomingGenerated, matcher, options, methodName, eval)
      == Outcome(State(Arr([]), level, true, true), Ok(()))
  {
  }

  /** `new dataset([{id: 1}]).merge(undefined, '=', 'both both')` and the like: the rows
      meet nothing, and `'both both'` keeps each of them. */
  lemma MergeUndefinedKeepsRows(rows: seq<Value>, eval: MergeTools.Evaluator)
    requires forall i :: 0 <= i < |rows| ==> rows[i].Obj?
    ensures AfterMerge(State(Arr(rows), 1, false, false), Undef, false, EqualsSign, MergeTools.StringOption("both both"), None, eval)
      == Outcome(State(Arr(rows), 1, true, true), Ok(()))
  {
    var right := IncomingInput(Undef, false);
    UndefinedVisitsNothing();
    EqualsBothBothKeepsRows(rows, right, eval);
    LiftKeepsRows(rows, MergeStep(false, right, MatcherOf(EqualsSign), MergeTools.StringOption("both both"), None, eval));
  }

  /** `for...in` visits nothing of `undefined`. */
  lemma UndefinedVisitsNothing()
    ensures MergeTools.Indexed(IncomingInput(Undef, false)) == []
  {
    assert OwnEntries(Undef) == [];
  }

  /** `'='` with `'both both'` keeps records that meet nothing. */
  lemma EqualsBothBothKeepsRows(rows: seq<Value>, right: MergeTools.Input, eval: MergeTools.Evaluator)
    requires (forall i :: 0 <= i < |rows| ==> rows[i].Obj?) && MergeTools.Indexed(right) == []
    ensures MergeStep(false, right, MatcherOf(EqualsSign), MergeTools.StringOption("both both"), None, eval)(rows) == Ok(rows)
  {
    EqMatcherUndecomposable(MatcherOf(EqualsSign).text);
    MergeTools.BothBothMapper(MatcherOf(EqualsSign).text);
    NothingVisitedKeepsRows(rows, right, MatcherOf(EqualsSign), "both both", eval);
  }

  /** A step that gives back the rows of a level-1 dataset leaves its data as it was. */
  lemma LiftKeepsRows(rows: seq<Value>, step: Step)
    requires step(rows) == Ok(rows)
    ensures Lift(State(Arr(rows), 1, false, false), step) == Outcome(State(Arr(rows), 1, true, true), Ok(()))
  {
    assert Elements(Arr(rows)) == Ok(rows);
  }

  /** An undecomposable matcher loop-merges records with an incoming value that `for...in`
      visits nothing of, and `'both both'` keeps them. */
  lemma NothingVisitedKeepsRows(rows: seq<Value>, right: MergeTools.Input, m: MergeTools.Matcher, keywords: string,
                                eval: MergeTools.Evaluator)
    requires (forall i :: 0 <= i < |rows| ==> rows[i].Obj?) && MergeTools.Indexed(right) == []
    requires Decomposition(m.text) == Ok(None)
    requires MergeTools.NormalizeMapper(MergeTools.KeywordText(keywords), m.text) == Ok(MergeTools.ByKeywords(MergeTools.Both, MergeTools.Both))
    ensures MergeStep(false, right, m, MergeTools.StringOption(keywords), None, eval)(rows) == Ok(rows)
  {
    var left := Held(rows, false);
    assert MergeTools.Indexed(left) == rows;
    MergeTools.EmptyRightLoopMerged(left, right, m, keywords, eval);
    MergeTools.BothKeepsUnmatchedLeft(rows);
  }

  /** So `new dataset(rows).map(f).merge(incoming, '=', 'both null')` yields nothing at
      all, where the same merge on the dataset as built pairs equal rows. */
  lemma MapThenMergeIsEmpty(rows: seq<Value>, f: Selector, incoming: seq<Value>, eval: MergeTools.Evaluator)
    requires Lift(State(Arr(rows), 1, false, false), MapStep(f)).result.Ok?
    ensures var mapped := Lift(State(Arr(rows), 1, false, false), MapStep(f)).state;
      AfterMerge(mapped, Arr(incoming), false, EqualsSign, MergeTools.StringOption("both null"), None, eval)
        == Outcome(State(Arr([]), 1, true, true), Ok(()))
  {
    var mapped := Lift(State(Arr(rows), 1, false, false), MapStep(f)).state;
    LiftedRowsGenerated(rows, MapStep(f));
    BothNullOnGeneratedIsEmpty(mapped, incoming, eval);
  }

  /** A step that succeeds on rows one level deep leaves generated rows one level deep. */
  lemma LiftedRowsGenerated(rows: seq<Value>, step: Step)
    requires Lift(State(Arr(rows), 1, false, false), step).result.Ok?
    ensures var t := Lift(State(Arr(rows), 1, false, false), step).state;
      t.groupLevel == 1 && t.generatedBase && t.data.Arr?
  {
  }

  /** A `'both null'` merge on generated rows one level deep yields nothing. */
  lemma BothNullOnGeneratedIsEmpty(s: State, incoming: seq<Value>, eval: MergeTools.Evaluator)
    requires s.groupLevel == 1 && s.generatedBase && Iterable(s.data)
    ensures AfterMerge(s, Arr(incoming), false, EqualsSign, MergeTools.StringOption("both null"), None, eval)
      == Outcome(State(Arr([]), 1, true, true), Ok(()))
  {
    EqMatcherUndecomposable(MatcherOf(EqualsSign).text);
    MergeTools.BothNullMapper(MatcherOf(EqualsSign).text);
    ChainedLoopMergeSeesNoRows(s, incoming, EqualsSign, "both null", eval);
    MergeTools.UnmatchedDropped(incoming, MergeTools.Both);
  }

  /** Flattening one-element arrays gives back their elements. */
  lemma {:induction false} SinglesFlatten(wrapped: seq<Value>, values: seq<Value>)
    requires |wrapped| == |values|
    requires forall i :: 0 <= i < |values| ==> wrapped[i] == Arr([values[i]])
    ensures General.Flatten(wrapped) == values
    decreases |values|
  {
    if values != [] {
      var ws, vs := wrapped[1..], values[1..];
      forall i | 0 <= i < |vs| ensures ws[i] == Arr([vs[i]]) {
        assert ws[i] == wrapped[i + 1] && vs[i] == values[i + 1];
      }
      SinglesFlatten(ws, vs);
      assert General.Spread(wrapped[0]) == [values[0]];
      assert values == [values[0]] + vs;
    }
  }

  // ---------------------------------------------------------------------------
  // get.

  lemma NoUndefinedValueIdempotent(v: Value)
    requires General.NoUndefinedValue(v).Ok?
    ensures General.NoUndefinedValue(General.NoUndefinedValue(v).value) == General.NoUndefinedValue(v)
  {
    if v.Obj? {
      General.DropUndefinedIdempotent(v.entries);
    }
  }

  /** Base entries that went through `noUndefined` go through it unchanged again. */
  lemma MapRowsIdentityFixed(rows: seq<Value>)
    requires MapRows(Identity, rows).Ok?
    ensures MapRows(Identity, MapRows(Identity, rows).value) == MapRows(Identity, rows)
  {
    var list := MapRows(Identity, rows).value;
    forall i | 0 <= i < |list| ensures General.NoUndefinedValue(Identity(list[i])) == Ok(list[i]) {
      NoUndefinedValueIdempotent(rows[i]);
    }
    SameEntries(list);
  }

  /** `MapRows` is determined by what it does to each row. */
  lemma SameEntries(list: seq<Value>)
    requires forall i :: 0 <= i < |list| ==> General.NoUndefinedValue(Identity(list[i])) == Ok(list[i])
    ensures MapRows(Identity, list) == Ok(list)
  {
    var r := MapRows(Identity, list);
    assert r.Ok? by {
      forall i | 0 <= i < |list| ensures !Nullish(Identity(list[i])) {
        assert General.NoUndefinedValue(Identity(list[i])).Ok?;
      }
    }
    assert r.value == list;
  }

  /** Materialising data that `recurseToArray` already produced gives it back. */
  lemma {:induction false} ToArrayFixed(data: Value, level: int)
    requires level != 0 && ToArray(Identity, data, level).Ok?
    ensures var v := ToArray(Identity, data, level).value;
      Iterable(v) && ToArray(Identity, v, level) == Ok(v)
    decreases if level > 0 then level else 0
  {
    var v := ToArray(Identity, data, level).value;
    var items := Elements(data).value;
    if level > 1 {
      var r := ToArrayEach(Identity, v.items, level - 1);
      forall i | 0 <= i < |v.items| ensures ToArray(Identity, v.items[i], level - 1) == Ok(v.items[i]) {
        assert ToArray(Identity, items[i], level - 1) == Ok(v.items[i]);
        ToArrayFixed(items[i], level - 1);
      }
      assert r.Ok?;
      assert r.value.items == v.items;
    } else {
      MapRowsIdentityFixed(items);
    }
  }

  lemma FirstOfWrapped(d: Value)
    ensures PropOf(Arr([d]), "0") == d
  {
    assert ParseIndex("0") == Some(0) by {
      assert "0"[0] == '0';
      ParseIndexOfNat(0);
      assert NatToString(0) == "0";
    }
  }

  /** `get()` twice returns the same data the second time, and changes nothing more. */
  lemma GetTwice(s: State)
    requires AfterGet(s, None).result.Ok?
    ensures var o := AfterGet(s, None);
      AfterGet(o.state, None) == o
  {
    if Iterable(s.data) {
      if s.groupLevel == 0 {
        FirstOfWrapped(s.data);
      } else {
        ToArrayFixed(s.data, s.groupLevel);
      }
    }
  }
}
