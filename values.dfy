/** The JavaScript values the engine handles: records are plain objects whose own
    properties are kept in insertion order, as `Object.keys` reports them. */
module Values {

  import opened Text

  datatype Value =
    | Undef
    | Null
    | Bool(b: bool)
    | Num(n: int)
    | Str(s: string)
    | Arr(items: seq<Value>)
    | Obj(entries: seq<Field>)

  /** One own property of a plain object. */
  datatype Field = Field(key: string, val: Value)

  /** JavaScript truthiness: `undefined`, `null`, `false`, `0` and `""` are falsy. */
  predicate Truthy(v: Value) {
    match v
    case Undef => false
    case Null => false
    case Bool(b) => b
    case Num(n) => n != 0
    case Str(s) => s != ""
    case Arr(_) => true
    case Obj(_) => true
  }

  /** `v == undefined` with loose equality: true for `undefined` and `null`. */
  predicate Nullish(v: Value) {
    v.Undef? || v.Null?
  }

  function KeysOf(es: seq<Field>): (ks: seq<string>)
    ensures |ks| == |es|
    ensures forall i :: 0 <= i < |es| ==> ks[i] == es[i].key
  {
    if es == [] then [] else [es[0].key] + KeysOf(es[1..])
  }

  predicate HasKey(es: seq<Field>, k: string) {
    exists i :: 0 <= i < |es| && es[i].key == k
  }

  /** What a JavaScript object is: no key occurs twice. */
  predicate DistinctKeys(es: seq<Field>) {
    forall i, j :: 0 <= i < j < |es| ==> es[i].key != es[j].key
  }

  /** Distinct keys at every depth. */
  predicate WellFormed(v: Value) {
    match v
    case Arr(items) => forall i :: 0 <= i < |items| ==> WellFormed(items[i])
    case Obj(es) => DistinctKeys(es) && forall i :: 0 <= i < |es| ==> WellFormed(es[i].val)
    case _ => true
  }

  /** `obj[k]` on a plain object: the property's value, `undefined` when it is absent. */
  function Get(es: seq<Field>, k: string): (v: Value)
    ensures !HasKey(es, k) ==> v == Undef
  {
    if es == [] then Undef else if es[0].key == k then es[0].val else Get(es[1..], k)
  }

  lemma {:induction false} GetAt(es: seq<Field>, i: nat)
    requires i < |es| && DistinctKeys(es)
    ensures Get(es, es[i].key) == es[i].val
  {
    if i > 0 {
      assert es[1..][i - 1] == es[i];
      GetAt(es[1..], i - 1);
    }
  }

  /** `obj[k] = v`: overwrites in place when the key exists, otherwise appends. */
  function Put(es: seq<Field>, k: string, v: Value): (r: seq<Field>)
    ensures HasKey(es, k) ==> KeysOf(r) == KeysOf(es)
    ensures !HasKey(es, k) ==> KeysOf(r) == KeysOf(es) + [k]
  {
    if es == [] then [Field(k, v)]
    else if es[0].key == k then [Field(k, v)] + es[1..]
    else [es[0]] + Put(es[1..], k, v)
  }

  lemma {:induction false} GetPut(es: seq<Field>, k: string, v: Value, k': string)
    ensures Get(Put(es, k, v), k') == if k' == k then v else Get(es, k')
  {
    if es != [] && es[0].key != k {
      GetPut(es[1..], k, v, k');
    }
  }

  lemma HasKeyByKeys(es: seq<Field>, k: string)
    ensures HasKey(es, k) <==> k in KeysOf(es)
  {
    if HasKey(es, k) {
      var i :| 0 <= i < |es| && es[i].key == k;
      assert KeysOf(es)[i] == k;
    }
  }

  lemma PutKeepsDistinct(es: seq<Field>, k: string, v: Value)
    requires DistinctKeys(es)
    ensures DistinctKeys(Put(es, k, v))
  {
    var r := Put(es, k, v);
    HasKeyByKeys(es, k);
    forall i, j | 0 <= i < j < |r| ensures r[i].key != r[j].key {
      assert KeysOf(r)[i] == r[i].key && KeysOf(r)[j] == r[j].key;
      if HasKey(es, k) {
        assert KeysOf(es)[i] == es[i].key && KeysOf(es)[j] == es[j].key;
      } else if j < |es| {
        assert KeysOf(es)[i] == es[i].key && KeysOf(es)[j] == es[j].key;
      } else {
        assert KeysOf(es)[i] == es[i].key;
      }
    }
  }

  /** `Object.assign(target, source)` on own enumerable properties, in source order. */
  function Assign(target: seq<Field>, source: seq<Field>): seq<Field>
    decreases |source|
  {
    if source == [] then target else Assign(Put(target, source[0].key, source[0].val), source[1..])
  }

  /** Overlay: after `Object.assign`, a key the source has reads the source's value and
      every other key reads the target's. */
  lemma {:induction false} GetAssign(target: seq<Field>, source: seq<Field>, k: string)
    requires DistinctKeys(source)
    ensures Get(Assign(target, source), k) == if HasKey(source, k) then Get(source, k) else Get(target, k)
    decreases |source|
  {
    if source != [] {
      var t' := Put(target, source[0].key, source[0].val);
      GetAssign(t', source[1..], k);
      GetPut(target, source[0].key, source[0].val, k);
      if source[0].key == k {
        forall i | 0 <= i < |source[1..]| ensures source[1..][i].key != k {
          assert source[1..][i] == source[i + 1];
        }
      } else {
        assert HasKey(source, k) <==> HasKey(source[1..], k) by {
          if HasKey(source, k) {
            var i :| 0 <= i < |source| && source[i].key == k;
            assert i > 0 && source[1..][i - 1].key == k;
          }
          if HasKey(source[1..], k) {
            var i :| 0 <= i < |source[1..]| && source[1..][i].key == k;
            assert source[i + 1].key == k;
          }
        }
      }
    }
  }

  lemma {:induction false} AssignKeepsDistinct(target: seq<Field>, source: seq<Field>)
    requires DistinctKeys(target)
    ensures DistinctKeys(Assign(target, source))
    decreases |source|
  {
    if source != [] {
      PutKeepsDistinct(target, source[0].key, source[0].val);
      AssignKeepsDistinct(Put(target, source[0].key, source[0].val), source[1..]);
    }
  }

  /** The own properties of an array: its indices as strings. */
  function IndexEntries(items: seq<Value>): (es: seq<Field>)
    ensures |es| == |items|
  {
    if items == [] then []
    else IndexEntries(items[..|items| - 1]) + [Field(NatToString(|items| - 1), items[|items| - 1])]
  }

  /** The own properties of a string: one one-character string per index. */
  function CharEntries(s: string): (es: seq<Field>)
    ensures |es| == |s|
  {
    if s == [] then []
    else CharEntries(s[..|s| - 1]) + [Field(NatToString(|s| - 1), Str([s[|s| - 1]]))]
  }

  /** Entry `i` of an array's own properties is index `i` and item `i`. */
  lemma {:induction false} IndexEntriesAt(items: seq<Value>, i: nat)
    requires i < |items|
    ensures IndexEntries(items)[i] == Field(NatToString(i), items[i])
    decreases |items|
  {
    var init := items[..|items| - 1];
    assert IndexEntries(items) == IndexEntries(init) + [Field(NatToString(|init|), items[|init|])];
    if i < |init| {
      IndexEntriesAt(init, i);
      assert init[i] == items[i];
    }
  }

  /** Entry `i` of a string's own properties is index `i` and character `i`. */
  lemma {:induction false} CharEntriesAt(s: string, i: nat)
    requires i < |s|
    ensures CharEntries(s)[i] == Field(NatToString(i), Str([s[i]]))
    decreases |s|
  {
    var init := s[..|s| - 1];
    assert CharEntries(s) == CharEntries(init) + [Field(NatToString(|init|), Str([s[|init|]]))];
    if i < |init| {
      CharEntriesAt(init, i);
      assert init[i] == s[i];
    }
  }

  /** `Object.keys(v)` with the values: what `Object.assign` copies and `eq` walks. */
  function OwnEntries(v: Value): seq<Field> {
    match v
    case Obj(es) => es
    case Arr(items) => IndexEntries(items)
    case Str(s) => CharEntries(s)
    case _ => []
  }

  lemma IndexEntriesDistinct(items: seq<Value>)
    ensures DistinctKeys(IndexEntries(items))
  {
    var es := IndexEntries(items);
    forall i, j | 0 <= i < j < |es| ensures es[i].key != es[j].key {
      IndexEntriesAt(items, i);
      IndexEntriesAt(items, j);
      if es[i].key == es[j].key { NatToStringInjective(i, j); }
    }
  }

  lemma CharEntriesDistinct(s: string)
    ensures DistinctKeys(CharEntries(s))
  {
    var es := CharEntries(s);
    forall i, j | 0 <= i < j < |es| ensures es[i].key != es[j].key {
      CharEntriesAt(s, i);
      CharEntriesAt(s, j);
      if es[i].key == es[j].key { NatToStringInjective(i, j); }
    }
  }

  /** `v[key]` for a value that is neither `undefined` nor `null` (reading a property of
      those throws, which callers rule out first). */
  function PropOf(v: Value, key: string): Value {
    match v
    case Obj(es) => Get(es, key)
    case Arr(items) =>
      if key == "length" then Num(|items|)
      else (match ParseIndex(key)
            case Some(i) => if i < |items| then items[i] else Undef
            case None => Undef)
    case Str(s) =>
      if key == "length" then Num(|s|)
      else (match ParseIndex(key)
            case Some(i) => if i < |s| then Str([s[i]]) else Undef
            case None => Undef)
    case _ => Undef
  }

  /** Reading an own key of a value returns that property. */
  lemma PropOfOwn(v: Value, i: nat)
    requires i < |OwnEntries(v)|
    requires v.Obj? ==> DistinctKeys(v.entries)
    ensures PropOf(v, OwnEntries(v)[i].key) == OwnEntries(v)[i].val
  {
    match v
    case Obj(es) => GetAt(es, i);
    case Arr(items) =>
      IndexEntriesAt(items, i);
      ParseIndexOfNat(i);
      assert NatToString(i) != "length" by { assert NatToString(i)[0] != 'l'; }
    case Str(s) =>
      CharEntriesAt(s, i);
      ParseIndexOfNat(i);
      assert NatToString(i) != "length" by { assert NatToString(i)[0] != 'l'; }
  }

  /** A size measure under which every property read of a value is no larger than it. */
  function Size(v: Value): (n: nat)
    ensures n >= 1
  {
    match v
    case Str(s) => 1 + |s|
    case Arr(items) => 1 + ItemsSize(items)
    case Obj(es) => 1 + FieldsSize(es)
    case _ => 1
  }

  function ItemsSize(items: seq<Value>): nat {
    if items == [] then 0 else Size(items[0]) + ItemsSize(items[1..])
  }

  function FieldsSize(es: seq<Field>): nat {
    if es == [] then 0 else Size(es[0].val) + FieldsSize(es[1..])
  }

  lemma {:induction false} ItemSmaller(items: seq<Value>, i: nat)
    requires i < |items|
    ensures Size(items[i]) <= ItemsSize(items)
  {
    if i > 0 { ItemSmaller(items[1..], i - 1); }
  }

  lemma {:induction false} FieldSmaller(es: seq<Field>, i: nat)
    requires i < |es|
    ensures Size(es[i].val) <= FieldsSize(es)
  {
    if i > 0 { FieldSmaller(es[1..], i - 1); }
  }

  lemma {:induction false} ItemsSizeAtLeastLength(items: seq<Value>)
    ensures ItemsSize(items) >= |items|
  {
    if items != [] { ItemsSizeAtLeastLength(items[1..]); }
  }

  lemma {:induction false} GetSmaller(es: seq<Field>, k: string)
    requires es != []
    ensures Size(Get(es, k)) < Size(Obj(es))
  {
    if es[0].key != k && es[1..] != [] {
      GetSmaller(es[1..], k);
    }
  }

  /** An own property of an object or array is smaller than the value; one of a
      string is no larger. */
  lemma OwnEntrySmaller(v: Value, i: nat)
    requires i < |OwnEntries(v)|
    ensures v.Str? ==> Size(OwnEntries(v)[i].val) <= Size(v)
    ensures !v.Str? ==> Size(OwnEntries(v)[i].val) < Size(v)
  {
    match v
    case Obj(es) => FieldSmaller(es, i);
    case Arr(items) => IndexEntriesAt(items, i); ItemSmaller(items, i);
    case Str(s) => CharEntriesAt(s, i);
  }

  /** Any property read of a value with own keys is smaller than it, except that a
      string's one-character properties are no larger. */
  lemma PropSmaller(v: Value, key: string)
    requires |OwnEntries(v)| >= 1
    ensures v.Str? ==> Size(PropOf(v, key)) <= Size(v)
    ensures !v.Str? ==> Size(PropOf(v, key)) < Size(v)
  {
    match v
    case Obj(es) => GetSmaller(es, key);
    case Arr(items) =>
      ItemsSizeAtLeastLength(items);
      if key != "length" {
        match ParseIndex(key)
        case Some(i) => if i < |items| { ItemSmaller(items, i); }
        case None =>
      }
    case Str(s) =>
  }
}
