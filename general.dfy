/** The value helpers: set comparison, one-level flattening, in-place removal of
    `undefined` properties, structural equality and the peekable iterator. */
module General {

  import opened Wrappers
  import opened Text
  import opened Values
  import Signatures

  // ---------------------------------------------------------------------------
  // Sets.

  /** `setEquals`: same size, and every element of `a` is in `b`. */
  predicate SetEquals<T>(a: set<T>, b: set<T>) {
    |a| == |b| && forall x :: x in a ==> x in b
  }

  /** `isSubsetOf`: the intersection of `sub` with `sup` set-equals `sub`. */
  predicate IsSubsetOf<T>(sub: set<T>, sup: set<T>) {
    SetEquals((set x | x in sub && x in sup), sub)
  }

  lemma {:induction false} SubsetSameSize<T>(a: set<T>, b: set<T>)
    requires a <= b && |a| == |b|
    ensures a == b
    decreases |a|
  {
    if a != {} {
      var x :| x in a;
      assert |a - {x}| == |a| - 1 && |b - {x}| == |b| - 1;
      SubsetSameSize(a - {x}, b - {x});
      assert a == (a - {x}) + {x} && b == (b - {x}) + {x};
    }
  }

  /** `setEquals` is set equality. */
  lemma SetEqualsIsEquality<T>(a: set<T>, b: set<T>)
    ensures SetEquals(a, b) <==> a == b
  {
    if SetEquals(a, b) {
      SubsetSameSize(a, b);
    }
  }

  /** `isSubsetOf` is set inclusion. */
  lemma IsSubsetOfIsInclusion<T>(sub: set<T>, sup: set<T>)
    ensures IsSubsetOf(sub, sup) <==> sub <= sup
  {
    var common := set x | x in sub && x in sup;
    SetEqualsIsEquality(common, sub);
  }

  // ---------------------------------------------------------------------------
  // flattenArray.

  /** What one element contributes: its elements when it is an array, itself otherwise. */
  function Spread(v: Value): seq<Value> {
    if v.Arr? then v.items else [v]
  }

  function Flatten(s: seq<Value>): seq<Value> {
    if s == [] then [] else Spread(s[0]) + Flatten(s[1..])
  }

  lemma {:induction false} FlattenAppend(a: seq<Value>, b: seq<Value>)
    ensures Flatten(a + b) == Flatten(a) + Flatten(b)
  {
    if a == [] {
      assert a + b == b;
    } else {
      assert (a + b)[1..] == a[1..] + b;
      FlattenAppend(a[1..], b);
    }
  }

  /** Exactly one level goes: an array element is replaced by its elements (which are
      not flattened further), any other element stays. */
  lemma FlattenOneLevel(xs: seq<Value>, v: Value)
    ensures Flatten([Arr(xs)]) == xs
    ensures !v.Arr? ==> Flatten([v]) == [v]
  {
    assert [Arr(xs)][1..] == [];
    assert [v][1..] == [];
  }

  /** Without nested arrays flattening changes nothing. */
  lemma {:induction false} FlattenNoArrays(s: seq<Value>)
    requires forall i :: 0 <= i < |s| ==> !s[i].Arr?
    ensures Flatten(s) == s
  {
    if s != [] {
      FlattenNoArrays(s[1..]);
    }
  }

  /** `flattenArray`: the nested loops that push each element or each nested element. */
  method FlattenArray(arr: seq<Value>) returns (result: seq<Value>)
    ensures result == Flatten(arr)
  {
    result := [];
    for i := 0 to |arr|
      invariant result == Flatten(arr[..i])
    {
      var element := arr[i];
      assert arr[..i + 1] == arr[..i] + [element];
      FlattenAppend(arr[..i], [element]);
      assert [element][1..] == [];
      if element.Arr? {
        result := PushEach(result, element.items);
      } else {
        result := result + [element];
      }
    }
    assert arr[..|arr|] == arr;
  }

  /** The inner loop of `flattenArray`: each nested element pushed in turn. */
  method PushEach(result: seq<Value>, items: seq<Value>) returns (r: seq<Value>)
    ensures r == result + items
  {
    r := result;
    for j := 0 to |items|
      invariant r == result + items[..j]
    {
      assert items[..j + 1] == items[..j] + [items[j]];
      r := r + [items[j]];
    }
    assert items[..|items|] == items;
  }

  // ---------------------------------------------------------------------------
  // noUndefined.

  /** The properties left once every `undefined`-valued one is deleted. */
  function DropUndefined(es: seq<Field>): (r: seq<Field>)
    ensures |r| <= |es|
  {
    if es == [] then []
    else DropUndefined(es[..|es| - 1]) + (if es[|es| - 1].val == Undef then [] else [es[|es| - 1]])
  }

  /** `delete obj[k]`. */
  function Delete(es: seq<Field>, k: string): seq<Field> {
    if es == [] then [] else (if es[0].key == k then [] else [es[0]]) + Delete(es[1..], k)
  }

  lemma {:induction false} DeleteAbsent(es: seq<Field>, k: string)
    requires forall i :: 0 <= i < |es| ==> es[i].key != k
    ensures Delete(es, k) == es
  {
    if es != [] {
      DeleteAbsent(es[1..], k);
    }
  }

  lemma {:induction false} DeleteAppend(a: seq<Field>, b: seq<Field>, k: string)
    ensures Delete(a + b, k) == Delete(a, k) + Delete(b, k)
  {
    if a == [] {
      assert a + b == b;
    } else {
      assert (a + b)[1..] == a[1..] + b;
      DeleteAppend(a[1..], b, k);
    }
  }

  lemma {:induction false} DropUndefinedSubset(es: seq<Field>)
    ensures forall i :: 0 <= i < |DropUndefined(es)| ==> DropUndefined(es)[i] in es
  {
    if es != [] {
      DropUndefinedSubset(es[..|es| - 1]);
    }
  }

  lemma GetPrefix(a: seq<Field>, b: seq<Field>, k: string)
    requires forall i :: 0 <= i < |a| ==> a[i].key != k
    ensures Get(a + b, k) == Get(b, k)
  {
    if a == [] {
      assert a + b == b;
    } else {
      assert (a + b)[0] == a[0] && a[0].key != k;
      assert (a + b)[1..] == a[1..] + b;
      forall i | 0 <= i < |a[1..]| ensures a[1..][i].key != k {
        assert a[1..][i] == a[i + 1];
      }
      GetPrefix(a[1..], b, k);
    }
  }

  /** A mutable plain object: the source deletes keys of its argument in place. */
  class PlainObject {
    var props: seq<Field>

    constructor (props: seq<Field>)
      ensures this.props == props
    {
      this.props := props;
    }
  }

  lemma DropUndefinedSnoc(orig: seq<Field>, i: nat)
    requires i < |orig|
    ensures DropUndefined(orig[..i + 1])
         == DropUndefined(orig[..i]) + (if orig[i].val == Undef then [] else [orig[i]])
  {
    assert orig[..i + 1][..i] == orig[..i];
  }

  lemma DeleteOne(done: seq<Field>, f: Field, rest: seq<Field>)
    requires forall j :: 0 <= j < |done| ==> done[j].key != f.key
    requires forall j :: 0 <= j < |rest| ==> rest[j].key != f.key
    ensures Delete(done + [f] + rest, f.key) == done + rest
  {
    var k := f.key;
    assert Delete([f], k) == [] by {
      assert [f][1..] == [];
    }
    DeleteAppend(done, [f], k);
    DeleteAbsent(done, k);
    assert Delete(done + [f], k) == done;
    DeleteAppend(done + [f], rest, k);
    DeleteAbsent(rest, k);
  }

  /** One turn of the loop of `noUndefined`: with the first `i` properties already
      processed, reading key `i` finds its original value, and deleting it when that
      value is `undefined` processes one more property. */
  lemma NoUndefinedStep(orig: seq<Field>, i: nat)
    requires DistinctKeys(orig) && i < |orig|
    ensures Get(DropUndefined(orig[..i]) + orig[i..], orig[i].key) == orig[i].val
    ensures orig[i].val == Undef ==>
      Delete(DropUndefined(orig[..i]) + orig[i..], orig[i].key) == DropUndefined(orig[..i + 1]) + orig[i + 1..]
    ensures orig[i].val != Undef ==>
      DropUndefined(orig[..i]) + orig[i..] == DropUndefined(orig[..i + 1]) + orig[i + 1..]
  {
    var key := orig[i].key;
    var done := DropUndefined(orig[..i]);
    var rest := orig[i + 1..];
    DropUndefinedSubset(orig[..i]);
    forall j | 0 <= j < |done| ensures done[j].key != key {
      var m :| 0 <= m < |orig[..i]| && orig[..i][m] == done[j];
      assert orig[m] == done[j];
    }
    forall j | 0 <= j < |rest| ensures rest[j].key != key {
      assert rest[j] == orig[i + 1 + j];
    }
    assert orig[i..] == [orig[i]] + rest;
    assert done + orig[i..] == done + [orig[i]] + rest;
    GetPrefix(done, orig[i..], key);
    DropUndefinedSnoc(orig, i);
    if orig[i].val == Undef {
      DeleteOne(done, orig[i], rest);
    }
  }

  /** `noUndefined`: deletes, in place, every own property whose value is `undefined`,
      and returns the same object. */
  method NoUndefined(obj: PlainObject) returns (r: PlainObject)
    requires DistinctKeys(obj.props)
    modifies obj
    ensures r == obj
    ensures obj.props == DropUndefined(old(obj.props))
  {
    ghost var orig := obj.props;
    var keys := KeysOf(obj.props);
    for i := 0 to |keys|
      invariant obj.props == DropUndefined(orig[..i]) + orig[i..]
    {
      DeleteIfUndefined(obj, keys[i], orig, i);
    }
    assert orig[..|keys|] == orig;
    return obj;
  }

  /** One turn of the loop of `noUndefined`: `if (obj[key] === undefined) delete obj[key]`. */
  method DeleteIfUndefined(obj: PlainObject, key: string, ghost orig: seq<Field>, i: nat)
    requires DistinctKeys(orig) && i < |orig| && key == orig[i].key
    requires obj.props == DropUndefined(orig[..i]) + orig[i..]
    modifies obj
    ensures obj.props == DropUndefined(orig[..i + 1]) + orig[i + 1..]
  {
    NoUndefinedStep(orig, i);
    if Get(obj.props, key) == Undef {
      obj.props := Delete(obj.props, key);
    }
  }

  lemma {:induction false} GetDropUndefinedLast(es: seq<Field>, f: Field, k: string)
    ensures Get(es + [f], k) == if HasKey(es, k) then Get(es, k) else if f.key == k then f.val else Undef
  {
    if es != [] {
      assert (es + [f])[1..] == es[1..] + [f];
      GetDropUndefinedLast(es[1..], f, k);
      if es[0].key != k {
        assert HasKey(es, k) <==> HasKey(es[1..], k) by {
          if HasKey(es, k) {
            var i :| 0 <= i < |es| && es[i].key == k;
            assert es[1..][i - 1].key == k;
          }
          if HasKey(es[1..], k) {
            var i :| 0 <= i < |es[1..]| && es[1..][i].key == k;
            assert es[i + 1].key == k;
          }
        }
      }
    } else {
      assert [f][1..] == [];
    }
  }

  lemma HasKeyAppend(a: seq<Field>, b: seq<Field>, k: string)
    ensures HasKey(a + b, k) <==> HasKey(a, k) || HasKey(b, k)
  {
    if HasKey(a + b, k) {
      var i :| 0 <= i < |a + b| && (a + b)[i].key == k;
      if i >= |a| { assert b[i - |a|].key == k; }
    }
    if HasKey(b, k) {
      var i :| 0 <= i < |b| && b[i].key == k;
      assert (a + b)[|a| + i].key == k;
    }
    if HasKey(a, k) {
      var i :| 0 <= i < |a| && a[i].key == k;
      assert (a + b)[i].key == k;
    }
  }

  /** Deleting the `undefined` properties leaves every property read unchanged (a deleted
      key reads `undefined` as it did before), and keeps exactly the keys whose value
      was not `undefined`. */
  lemma {:induction false} DropUndefinedReads(es: seq<Field>, k: string)
    requires DistinctKeys(es)
    ensures Get(DropUndefined(es), k) == Get(es, k)
    ensures HasKey(DropUndefined(es), k) <==> HasKey(es, k) && Get(es, k) != Undef
  {
    if es != [] {
      var init, last := es[..|es| - 1], es[|es| - 1];
      assert es == init + [last];
      assert DistinctKeys(init) by {
        forall i, j | 0 <= i < j < |init| ensures init[i].key != init[j].key {
          assert init[i] == es[i] && init[j] == es[j];
        }
      }
      DropUndefinedReads(init, k);
      GetDropUndefinedLast(init, last, k);
      HasKeyAppend(init, [last], k);
      if last.val == Undef {
        assert DropUndefined(es) == DropUndefined(init);
      } else {
        GetDropUndefinedLast(DropUndefined(init), last, k);
        HasKeyAppend(DropUndefined(init), [last], k);
      }
      if last.key == k {
        assert !HasKey(init, k) by {
          forall i | 0 <= i < |init| ensures init[i].key != k {
            assert init[i] == es[i];
          }
        }
      }
    }
  }

  /** After the deletions no property is `undefined`. */
  lemma {:induction false} DropUndefinedNoneLeft(es: seq<Field>)
    ensures forall i :: 0 <= i < |DropUndefined(es)| ==> DropUndefined(es)[i].val != Undef
  {
    if es != [] {
      DropUndefinedNoneLeft(es[..|es| - 1]);
    }
  }

  lemma {:induction false} DropUndefinedOfClean(es: seq<Field>)
    requires forall i :: 0 <= i < |es| ==> es[i].val != Undef
    ensures DropUndefined(es) == es
  {
    if es != [] {
      DropUndefinedOfClean(es[..|es| - 1]);
      assert es == es[..|es| - 1] + [es[|es| - 1]];
    }
  }

  /** Running `noUndefined` twice is the same as once. */
  lemma DropUndefinedIdempotent(es: seq<Field>)
    ensures DropUndefined(DropUndefined(es)) == DropUndefined(es)
  {
    DropUndefinedNoneLeft(es);
    DropUndefinedOfClean(DropUndefined(es));
  }

  lemma DropUndefinedKeepsDistinct(es: seq<Field>)
    requires DistinctKeys(es)
    ensures DistinctKeys(DropUndefined(es))
  {
    var r := DropUndefined(es);
    forall i, j | 0 <= i < j < |r| ensures r[i].key != r[j].key {
      if r[i].key == r[j].key {
        DropUndefinedReads(es, r[i].key);
        DropUndefinedOrder(es, i, j);
      }
    }
  }

  /** Two properties kept by the deletions come from two different properties. */
  lemma {:induction false} DropUndefinedOrder(es: seq<Field>, i: nat, j: nat)
    requires i < j < |DropUndefined(es)|
    ensures exists p, q :: 0 <= p < q < |es| && es[p] == DropUndefined(es)[i] && es[q] == DropUndefined(es)[j]
  {
    var init := es[..|es| - 1];
    var d := DropUndefined(init);
    if j < |d| {
      DropUndefinedOrder(init, i, j);
      var p, q :| 0 <= p < q < |init| && init[p] == d[i] && init[q] == d[j];
      assert es[p] == init[p] && es[q] == init[q];
    } else {
      DropUndefinedSubset(init);
      assert d[i] in init;
      var p :| 0 <= p < |init| && init[p] == d[i];
      assert es[p] == DropUndefined(es)[i];
      assert es[|es| - 1] == DropUndefined(es)[j];
    }
  }

  /** `noUndefined` on a value rather than a mutable object: property reads of
      `undefined` or `null` throw; a primitive has no own keys and is returned as is;
      an array keeps its `undefined` elements, where `delete` would leave holes. */
  function NoUndefinedValue(v: Value): (r: Result<Value>)
    ensures r.Err? <==> Nullish(v)
    ensures r.Ok? && v.Obj? ==> r.value.Obj? && r.value.entries == DropUndefined(v.entries)
    ensures r.Ok? && !v.Obj? ==> r.value == v
  {
    match v
    case Undef => Err(TypeError("Cannot convert undefined or null to object"))
    case Null => Err(TypeError("Cannot convert undefined or null to object"))
    case Obj(es) => Ok(Obj(DropUndefined(es)))
    case _ => Ok(v)
  }

  // ---------------------------------------------------------------------------
  // eq.

  /** `a == b` between two values without own keys other than two strings: objects
      compare by reference (two distinct objects are never equal), otherwise both sides
      go through `ToPrimitive` and, when their types differ, `ToNumber`. */
  predicate LooseEqualKeyless(a: Value, b: Value) {
    if (a.Arr? || a.Obj?) && (b.Arr? || b.Obj?) then false
    else
      var pa, pb := Primitive(a), Primitive(b);
      if pa.Str? && pb.Str? then pa == pb
      else if pa.Bool? && pb.Bool? then pa == pb
      else NumberOf(pa).Some? && NumberOf(pa) == NumberOf(pb)
  }

  /** `ToPrimitive` of a key-less value: `[]` is `""`, `{}` is `"[object Object]"`. */
  function Primitive(v: Value): Value {
    match v
    case Arr(_) => Str("")
    case Obj(_) => Str("[object Object]")
    case _ => v
  }

  /** `ToNumber` of a primitive; `None` stands for `NaN`. The only strings reaching it
      are `""` and `"[object Object]"`. */
  function NumberOf(v: Value): Option<int> {
    match v
    case Num(n) => Some(n)
    case Bool(b) => Some(if b then 1 else 0)
    case Str(s) => if s == "" then Some(0) else None
    case _ => None
  }

  /** `eq(obj1, obj2)`: equality by values, walking the keys of `obj1`. */
  function Eq(a: Value, b: Value): (r: bool)
    ensures Nullish(a) || Nullish(b) ==> (r <==> Nullish(a) && Nullish(b))
    ensures a.Str? && b.Str? ==> (r <==> a == b)
    ensures r && !Nullish(a) && !(a.Str? && b.Str?) ==> |OwnEntries(a)| == |OwnEntries(b)|
    decreases Size(a) + Size(b), 1, 0
  {
    if Nullish(a) || Nullish(b) then Nullish(a) && Nullish(b)
    else if a.Str? && b.Str? then a.s == b.s
    else if |OwnEntries(a)| != |OwnEntries(b)| then false
    else if |OwnEntries(a)| == 0 then LooseEqualKeyless(a, b)
    else EqFrom(a, b, 0)
  }

  /** The loop over the keys of `obj1` from position `i` on. */
  function EqFrom(a: Value, b: Value, i: nat): bool
    requires |OwnEntries(a)| == |OwnEntries(b)| >= 1
    requires !(a.Str? && b.Str?)
    decreases Size(a) + Size(b), 0, |OwnEntries(a)| - i
  {
    if i >= |OwnEntries(a)| then true
    else
      var key := OwnEntries(a)[i].key;
      PropSmaller(a, key);
      PropSmaller(b, key);
      Eq(PropOf(a, key), PropOf(b, key)) && EqFrom(a, b, i + 1)
  }

  /** No empty array or empty object anywhere: those compare by reference, which the
      model does not track. */
  predicate NoKeylessObjects(v: Value)
    decreases Size(v)
  {
    match v
    case Arr(items) =>
      items != [] && forall i :: 0 <= i < |items| ==> (ItemSmaller(items, i); NoKeylessObjects(items[i]))
    case Obj(es) =>
      es != [] && forall i :: 0 <= i < |es| ==> (FieldSmaller(es, i); NoKeylessObjects(es[i].val))
    case _ => true
  }

  /** `eq` is reflexive on well-formed values without empty objects or arrays. */
  lemma {:induction false} EqReflexive(v: Value)
    requires WellFormed(v) && NoKeylessObjects(v)
    ensures Eq(v, v)
    decreases Size(v), 1
  {
    if !Nullish(v) && !v.Str? && |OwnEntries(v)| > 0 {
      EqFromReflexive(v, 0);
    }
  }

  lemma {:induction false} EqFromReflexive(v: Value, i: nat)
    requires WellFormed(v) && NoKeylessObjects(v)
    requires |OwnEntries(v)| >= 1 && !v.Str?
    ensures EqFrom(v, v, i)
    decreases Size(v), 0, |OwnEntries(v)| - i
  {
    if i < |OwnEntries(v)| {
      var e := OwnEntries(v)[i];
      PropOfOwn(v, i);
      OwnEntrySmaller(v, i);
      if v.Arr? {
        ItemSmaller(v.items, i);
        IndexEntriesAt(v.items, i);
        assert e.val == v.items[i];
      } else {
        FieldSmaller(v.entries, i);
        assert e.val == v.entries[i].val;
      }
      EqReflexive(e.val);
      EqFromReflexive(v, i + 1);
    }
  }

  /** Values alike but for the insertion order of object properties, at any depth, are
      `eq`, provided the first is `eq` to itself (an empty object or array anywhere in it
      is not, since those compare by reference). */
  lemma {:induction false} EqIgnoresInsertionOrder(u: Value, v: Value)
    requires Signatures.Rearranged(u, v) && Eq(u, u)
    ensures Eq(u, v)
    decreases Size(u), 1
  {
    if !Nullish(u) && !u.Str? && |OwnEntries(u)| > 0 {
      RearrangedOwnCount(u, v);
      EqFromRearranged(u, v, 0);
    }
  }

  lemma RearrangedOwnCount(u: Value, v: Value)
    requires Signatures.Rearranged(u, v)
    ensures |OwnEntries(u)| == |OwnEntries(v)|
  {
    if u.Obj? {
      Signatures.RearrangedKeys(u.entries, v.entries);
      assert |KeysOf(u.entries)| == |multiset(KeysOf(u.entries))|;
      assert |KeysOf(v.entries)| == |multiset(KeysOf(v.entries))|;
    }
  }

  /** Rearranged objects or arrays read alike under any key. */
  lemma PropRearranged(u: Value, v: Value, key: string)
    requires Signatures.Rearranged(u, v) && (u.Arr? || u.Obj?)
    ensures Signatures.Rearranged(PropOf(u, key), PropOf(v, key))
  {
    if u.Obj? {
      Signatures.RearrangedProperty(u.entries, v.entries, key);
    }
  }

  lemma {:induction false} EqFromRearranged(u: Value, v: Value, i: nat)
    requires Signatures.Rearranged(u, v) && (u.Arr? || u.Obj?)
    requires |OwnEntries(u)| == |OwnEntries(v)| >= 1 && !(u.Str? && v.Str?)
    requires EqFrom(u, u, i)
    ensures EqFrom(u, v, i)
    decreases Size(u), 0, |OwnEntries(u)| - i
  {
    if i < |OwnEntries(u)| {
      var key := OwnEntries(u)[i].key;
      PropRearranged(u, v, key);
      PropSmaller(u, key);
      EqIgnoresInsertionOrder(PropOf(u, key), PropOf(v, key));
      EqFromRearranged(u, v, i + 1);
    }
  }

  /** `eq` is not symmetric: it walks only the first argument's keys. */
  lemma EqNotSymmetric()
    ensures Eq(Obj([Field("a", Undef)]), Obj([Field("b", Num(1))]))
    ensures !Eq(Obj([Field("b", Num(1))]), Obj([Field("a", Undef)]))
  {
    var x, y := Obj([Field("a", Undef)]), Obj([Field("b", Num(1))]);
    assert OwnEntries(x)[0].key == "a";
    assert PropOf(y, "a") == Undef;
    assert EqFrom(x, y, 1);
    assert OwnEntries(y)[0].key == "b";
    assert PropOf(x, "b") == Undef;
    assert !EqFrom(y, x, 0);
  }

  // ---------------------------------------------------------------------------
  // peekable, over an array.

  /** An iterator step, `{ value, done }`; the step before the first carries `beforeStart`. */
  datatype Step = Step(value: Value, done: bool, beforeStart: bool)

  class Peekable {
    const items: seq<Value>
    var pos: nat
    var prevStep: Step

    /** `prev` trails the read position: it is the initial step until a value was yielded,
        and afterwards the step of the last value yielded. */
    ghost predicate Valid()
      reads this
    {
      pos <= |items|
      && (pos == 0 ==> prevStep == Step(Undef, false, true))
      && (pos > 0 ==> prevStep == Step(items[pos - 1], false, false))
    }

    /** `peekable(array)`: reads one step ahead. */
    constructor (items: seq<Value>)
      ensures Valid() && this.items == items && pos == 0
      ensures Prev() == Step(Undef, false, true)
    {
      this.items := items;
      pos := 0;
      prevStep := Step(Undef, false, true);
    }

    /** `peek()`: the step the next `next()` will yield. */
    function Peek(): (s: Step)
      requires Valid()
      reads this
      ensures s.done <==> pos == |items|
      ensures !s.done ==> s.value == items[pos]
      ensures !s.beforeStart
    {
      if pos < |items| then Step(items[pos], false, false) else Step(Undef, true, false)
    }

    /** `prev()`: the last step yielded. */
    function Prev(): (s: Step)
      requires Valid()
      reads this
      ensures s.beforeStart <==> pos == 0
      ensures pos > 0 ==> s.value == items[pos - 1] && !s.done
    {
      prevStep
    }

    /** `next()`: yields the peeked value; `prev()` becomes the step that was peeked. */
    method Next() returns (s: Step)
      requires Valid()
      modifies this
      ensures Valid()
      ensures s.value == old(Peek()).value && s.done == old(Peek()).done
      ensures !old(Peek()).done ==> Prev() == old(Peek()) && pos == old(pos) + 1
      ensures old(Peek()).done ==> Prev() == old(Prev()) && pos == old(pos)
    {
      var peeked := Peek();
      if !peeked.done {
        prevStep := peeked;
        pos := pos + 1;
        return Step(peeked.value, false, false);
      }
      return Step(peeked.value, true, false);
    }
  }
}
