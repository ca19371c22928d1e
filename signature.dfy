/** `stringifyObject`: the key signature under which records are bucketed, grouped,
    de-duplicated, joined and merged. */
module Signatures {

  import opened Text
  import opened Values

  // ---------------------------------------------------------------------------
  // `Object.keys(obj).sort()`: the default sort compares strings with `<`.

  function InsertSorted(x: string, s: seq<string>): seq<string> {
    if s == [] || !StrLess(s[0], x) then [x] + s
    else [s[0]] + InsertSorted(x, s[1..])
  }

  function SortStrings(s: seq<string>): seq<string> {
    if s == [] then []
    else InsertSorted(s[0], SortStrings(s[1..]))
  }

  lemma {:induction false} InsertSortedMultiset(x: string, s: seq<string>)
    ensures multiset(InsertSorted(x, s)) == multiset(s) + multiset{x}
  {
    if s != [] && StrLess(s[0], x) {
      InsertSortedMultiset(x, s[1..]);
      assert s == [s[0]] + s[1..];
    }
  }

  /** Sorting the keys keeps exactly the keys. */
  lemma {:induction false} SortStringsMultiset(s: seq<string>)
    ensures multiset(SortStrings(s)) == multiset(s)
  {
    if s != [] {
      SortStringsMultiset(s[1..]);
      InsertSortedMultiset(s[0], SortStrings(s[1..]));
      assert s == [s[0]] + s[1..];
    }
  }

  /** No later element is `<` an earlier one. */
  predicate SortedStrings(s: seq<string>) {
    forall i, j :: 0 <= i < j < |s| ==> !StrLess(s[j], s[i])
  }

  lemma {:induction false} InsertSortedSorted(x: string, s: seq<string>)
    requires SortedStrings(s)
    ensures SortedStrings(InsertSorted(x, s))
  {
    if s != [] && StrLess(s[0], x) {
      InsertSortedSorted(x, s[1..]);
      InsertSortedMultiset(x, s[1..]);
      var r := InsertSorted(x, s);
      forall j | 0 < j < |r| ensures !StrLess(r[j], r[0]) {
        assert r[j] in multiset(s[1..]) + multiset{x} by {
          assert r[j] in multiset(r[1..]);
        }
        if r[j] == x {
          StrLessAsymmetric(s[0], x);
        } else {
          assert r[j] in s[1..];
          var k :| 0 <= k < |s[1..]| && s[1..][k] == r[j];
          assert s[k + 1] == r[j];
        }
      }
    } else if s != [] {
      var r := [x] + s;
      forall i, j | 0 <= i < j < |r| ensures !StrLess(r[j], r[i]) {
        if i == 0 {
          if StrLess(r[j], x) {
            assert !StrLess(s[j - 1], s[0]);
            if s[0] != r[j] {
              StrLessTotal(s[0], r[j]);
              StrLessTransitive(s[0], r[j], x);
            }
          }
        } else {
          assert r[i] == s[i - 1] && r[j] == s[j - 1];
        }
      }
    }
  }

  lemma {:induction false} SortStringsSorted(s: seq<string>)
    ensures SortedStrings(SortStrings(s))
  {
    if s != [] {
      SortStringsSorted(s[1..]);
      InsertSortedSorted(s[0], SortStrings(s[1..]));
    }
  }

  lemma SortedHeadLeast(s: seq<string>, x: string)
    requires SortedStrings(s) && x in s
    ensures !StrLess(x, s[0])
  {
    var k :| 0 <= k < |s| && s[k] == x;
    if k > 0 {
      assert !StrLess(s[k], s[0]);
    } else {
      StrLessIrreflexive(x);
    }
  }

  lemma SortedTail(s: seq<string>)
    requires SortedStrings(s) && s != []
    ensures SortedStrings(s[1..])
  {
    forall i, j | 0 <= i < j < |s[1..]| ensures !StrLess(s[1..][j], s[1..][i]) {
      assert s[1..][j] == s[j + 1] && s[1..][i] == s[i + 1];
    }
  }

  /** Two sorted sequences with the same elements are the same sequence: the order of
      the input never shows in the sorted keys. */
  lemma {:induction false} SortedUnique(a: seq<string>, b: seq<string>)
    requires SortedStrings(a) && SortedStrings(b)
    requires multiset(a) == multiset(b)
    ensures a == b
  {
    assert |b| == |a| by { assert |multiset(a)| == |multiset(b)|; }
    if a != [] {
      assert a[0] in multiset(b);
      assert b[0] in multiset(a);
      SortedHeadLeast(b, a[0]);
      SortedHeadLeast(a, b[0]);
      if a[0] != b[0] {
        StrLessTotal(a[0], b[0]);
      }
      assert a[0] == b[0];
      assert multiset(a[1..]) == multiset(a) - multiset{a[0]} by { assert a == [a[0]] + a[1..]; }
      assert multiset(b[1..]) == multiset(b) - multiset{b[0]} by { assert b == [b[0]] + b[1..]; }
      SortedTail(a);
      SortedTail(b);
      SortedUnique(a[1..], b[1..]);
      assert a == [a[0]] + a[1..] && b == [b[0]] + b[1..];
    }
  }

  /** The key order `stringifyObject` visits depends only on which keys there are. */
  lemma SortStringsCanonical(a: seq<string>, b: seq<string>)
    requires multiset(a) == multiset(b)
    ensures SortStrings(a) == SortStrings(b)
  {
    SortStringsSorted(a);
    SortStringsSorted(b);
    SortStringsMultiset(a);
    SortStringsMultiset(b);
    SortedUnique(SortStrings(a), SortStrings(b));
  }

  // ---------------------------------------------------------------------------
  // Text of non-object values.

  /** `v.toString()` / `String(v)` for a value that is not recursed into. */
  function ToText(v: Value): string {
    match v
    case Undef => "undefined"
    case Null => "null"
    case Bool(b) => if b then "true" else "false"
    case Num(n) => IntToString(n)
    case Str(s) => s
    case Arr(items) => ArrayText(items)
    case Obj(_) => "[object Object]"
  }

  /** `Array.prototype.toString`: elements joined by commas, `undefined` and `null` empty. */
  function ArrayText(items: seq<Value>): string {
    if items == [] then ""
    else
      var first := if Nullish(items[0]) then "" else ToText(items[0]);
      if |items| == 1 then first else first + "," + ArrayText(items[1..])
  }

  // ---------------------------------------------------------------------------
  // The signature.

  /** `stringifyObject(v)`; `null.toString()` throws, so `null` has no signature. */
  function Signature(v: Value): (r: string)
    requires !v.Null?
    decreases Size(v), 1, 0
  {
    match v
    case Undef => ""
    case Obj(es) => "[" + FieldsText(SortStrings(KeysOf(es)), es) + "]"
    case _ => ToText(v)
  }

  /** A nested plain object is recursed into; any other property value is written as the
      template literal writes it. */
  function PropertyText(es: seq<Field>, k: string): string
    decreases Size(Obj(es)), 0, 1
  {
    var val := Get(es, k);
    if val.Obj? then
      GetSmaller(es, k);
      Signature(val)
    else ToText(val)
  }

  /** `[k,v]` for one key. */
  function FieldText(es: seq<Field>, k: string): string
    decreases Size(Obj(es)), 0, 2
  {
    "[" + k + "," + PropertyText(es, k) + "]"
  }

  /** `[k,v]` for each key in the given order. */
  function FieldsText(keys: seq<string>, es: seq<Field>): string
    decreases Size(Obj(es)), 0, |keys| + 3
  {
    if keys == [] then "" else FieldText(es, keys[0]) + FieldsText(keys[1..], es)
  }

  lemma {:induction false} FieldsTextAppend(a: seq<string>, b: seq<string>, es: seq<Field>)
    ensures FieldsText(a + b, es) == FieldsText(a, es) + FieldsText(b, es)
  {
    if a == [] {
      assert a + b == b;
    } else {
      assert (a + b)[1..] == a[1..] + b;
      FieldsTextAppend(a[1..], b, es);
    }
  }

  lemma FieldsTextSnoc(keys: seq<string>, i: nat, es: seq<Field>)
    requires i < |keys|
    ensures FieldsText(keys[..i + 1], es)
      == FieldsText(keys[..i], es) + ("[" + keys[i] + "," + PropertyText(es, keys[i]) + "]")
  {
    assert FieldsText([keys[i]], es) == FieldText(es, keys[i]);
    assert keys[..i + 1] == keys[..i] + [keys[i]];
    FieldsTextAppend(keys[..i], [keys[i]], es);
  }

  /** The loop of `stringifyObject`, accumulating one `[key,value]` per sorted key. */
  method StringifyObject(obj: Value) returns (r: string)
    requires !obj.Null?
    ensures r == Signature(obj)
    decreases Size(obj), 1
  {
    if obj.Undef? {
      return "";
    }
    if !obj.Obj? {
      return ToText(obj);
    }
    var stringified := "[";
    var keys := SortStrings(KeysOf(obj.entries));
    for i := 0 to |keys|
      invariant stringified == "[" + FieldsText(keys[..i], obj.entries)
    {
      var key := keys[i];
      var valToStringify := StringifyProperty(obj.entries, key);
      FieldsTextSnoc(keys, i, obj.entries);
      stringified := stringified + ("[" + key + "," + valToStringify + "]");
    }
    assert keys[..|keys|] == keys;
    return stringified + "]";
  }

  /** One property's value as the loop of `stringifyObject` writes it. */
  method StringifyProperty(es: seq<Field>, key: string) returns (r: string)
    ensures r == PropertyText(es, key)
    decreases Size(Obj(es)), 0
  {
    var val := Get(es, key);
    if val.Obj? {
      GetSmaller(es, key);
      r := StringifyObject(val);
    } else {
      r := ToText(val);
    }
  }

  // ---------------------------------------------------------------------------
  // Properties.

  /** Two values alike up to the insertion order of object properties, at every depth:
      objects with the same keys, each listed once, whose values are alike in turn;
      arrays alike item by item; any other value equal. */
  ghost predicate Rearranged(u: Value, v: Value)
    decreases Size(u)
  {
    match u
    case Obj(a) =>
      v.Obj? && DistinctKeys(a) && DistinctKeys(v.entries)
      && (forall k :: HasKey(a, k) <==> HasKey(v.entries, k))
      && forall i :: 0 <= i < |a| ==> (FieldSmaller(a, i); Rearranged(a[i].val, Get(v.entries, a[i].key)))
    case Arr(xs) =>
      v.Arr? && |xs| == |v.items|
      && forall i :: 0 <= i < |xs| ==> (ItemSmaller(xs, i); Rearranged(xs[i], v.items[i]))
    case _ => u == v
  }

  lemma {:induction false} DistinctKeysMultiset(es: seq<Field>, k: string)
    requires DistinctKeys(es)
    ensures multiset(KeysOf(es))[k] == if HasKey(es, k) then 1 else 0
  {
    if es != [] {
      var rest := es[1..];
      assert KeysOf(es) == [es[0].key] + KeysOf(rest);
      assert multiset(KeysOf(es)) == multiset([es[0].key]) + multiset(KeysOf(rest));
      DistinctKeysTail(es);
      DistinctKeysMultiset(rest, k);
      if es[0].key == k {
        assert HasKey(es, k);
        forall i | 0 <= i < |rest| ensures rest[i].key != k {
          assert rest[i] == es[i + 1];
        }
      } else {
        assert multiset([es[0].key])[k] == 0;
        if HasKey(es, k) {
          var i :| 0 <= i < |es| && es[i].key == k;
          assert rest[i - 1].key == k;
        }
        if HasKey(rest, k) {
          var i :| 0 <= i < |rest| && rest[i].key == k;
          assert es[i + 1].key == k;
        }
      }
    }
  }

  lemma DistinctKeysTail(es: seq<Field>)
    requires es != [] && DistinctKeys(es)
    ensures DistinctKeys(es[1..])
  {
    forall i, j | 0 <= i < j < |es[1..]| ensures es[1..][i].key != es[1..][j].key {
      assert es[1..][i] == es[i + 1] && es[1..][j] == es[j + 1];
    }
  }

  /** Every well-formed value is a rearrangement of itself. */
  lemma {:induction false} RearrangedReflexive(v: Value)
    requires WellFormed(v)
    ensures Rearranged(v, v)
    decreases Size(v)
  {
    match v
    case Obj(a) =>
      forall i | 0 <= i < |a| ensures Rearranged(a[i].val, Get(a, a[i].key)) {
        GetAt(a, i);
        FieldSmaller(a, i);
        RearrangedReflexive(a[i].val);
      }
    case Arr(xs) =>
      forall i | 0 <= i < |xs| ensures Rearranged(xs[i], xs[i]) {
        ItemSmaller(xs, i);
        RearrangedReflexive(xs[i]);
      }
    case _ =>
  }

  /** Swapping two properties of a record rearranges it. */
  lemma SwapRearranged(k1: string, x: Value, k2: string, y: Value)
    requires k1 != k2 && WellFormed(x) && WellFormed(y)
    ensures Rearranged(Obj([Field(k1, x), Field(k2, y)]), Obj([Field(k2, y), Field(k1, x)]))
  {
    var a, b := [Field(k1, x), Field(k2, y)], [Field(k2, y), Field(k1, x)];
    RearrangedReflexive(x);
    RearrangedReflexive(y);
    assert b[1..] == [Field(k1, x)] && a[1..] == [Field(k2, y)];
    assert Get(b[1..], k1) == x && Get(a[1..], k2) == y;
    assert Get(b, k1) == Get(b[1..], k1) && Get(a, k2) == Get(a[1..], k2);
    forall k ensures HasKey(a, k) <==> HasKey(b, k) {
      if HasKey(a, k) {
        var i :| 0 <= i < |a| && a[i].key == k;
        assert b[1 - i].key == k;
      }
      if HasKey(b, k) {
        var i :| 0 <= i < |b| && b[i].key == k;
        assert a[1 - i].key == k;
      }
    }
  }

  /** Rearranged objects read alike at every key. */
  lemma RearrangedProperty(a: seq<Field>, b: seq<Field>, k: string)
    requires Rearranged(Obj(a), Obj(b))
    ensures Rearranged(Get(a, k), Get(b, k))
  {
    if HasKey(a, k) {
      var i :| 0 <= i < |a| && a[i].key == k;
      GetAt(a, i);
    }
  }

  /** Rearranged objects have the same keys, as many times each. */
  lemma RearrangedKeys(a: seq<Field>, b: seq<Field>)
    requires Rearranged(Obj(a), Obj(b))
    ensures multiset(KeysOf(a)) == multiset(KeysOf(b))
  {
    forall k ensures multiset(KeysOf(a))[k] == multiset(KeysOf(b))[k] {
      DistinctKeysMultiset(a, k);
      DistinctKeysMultiset(b, k);
    }
  }

  /** Rearranged values are written alike: an object is `[object Object]` whatever it
      holds, and an array is written item by item. */
  lemma {:induction false} ToTextRearranged(u: Value, v: Value)
    requires Rearranged(u, v)
    ensures ToText(u) == ToText(v)
    decreases Size(u), 3
  {
    if u.Arr? {
      ArrayTextRearranged(u.items, v.items);
    }
  }

  lemma {:induction false} ArrayTextRearranged(xs: seq<Value>, ys: seq<Value>)
    requires |xs| == |ys| && forall i :: 0 <= i < |xs| ==> Rearranged(xs[i], ys[i])
    ensures ArrayText(xs) == ArrayText(ys)
    decreases ItemsSize(xs), 4
  {
    if xs != [] {
      ToTextRearranged(xs[0], ys[0]);
      assert forall i :: 0 <= i < |xs[1..]| ==> xs[1..][i] == xs[i + 1] && ys[1..][i] == ys[i + 1];
      ArrayTextRearranged(xs[1..], ys[1..]);
    }
  }

  lemma {:induction false} FieldsTextRearranged(keys: seq<string>, a: seq<Field>, b: seq<Field>)
    requires Rearranged(Obj(a), Obj(b))
    ensures FieldsText(keys, a) == FieldsText(keys, b)
    decreases Size(Obj(a)), 0, |keys| + 1
  {
    if keys != [] {
      PropertyTextRearranged(a, b, keys[0]);
      FieldsTextRearranged(keys[1..], a, b);
      assert FieldsText(keys, a) == FieldText(a, keys[0]) + FieldsText(keys[1..], a);
      assert FieldsText(keys, b) == FieldText(b, keys[0]) + FieldsText(keys[1..], b);
    }
  }

  lemma {:induction false} PropertyTextRearranged(a: seq<Field>, b: seq<Field>, k: string)
    requires Rearranged(Obj(a), Obj(b))
    ensures PropertyText(a, k) == PropertyText(b, k)
    decreases Size(Obj(a)), 0, 0
  {
    RearrangedProperty(a, b, k);
    var x, y := Get(a, k), Get(b, k);
    if x.Obj? {
      GetSmaller(a, k);
      SignatureIgnoresInsertionOrder(x, y);
      assert PropertyText(a, k) == Signature(x);
      assert PropertyText(b, k) == Signature(y);
    } else {
      ToTextRearranged(x, y);
      assert !y.Obj?;
    }
  }

  /** Key canonicalisation: values alike but for the order their object properties were
      inserted in, at any depth, have the same signature. */
  lemma {:induction false} SignatureIgnoresInsertionOrder(u: Value, v: Value)
    requires !u.Null? && Rearranged(u, v)
    ensures !v.Null? && Signature(u) == Signature(v)
    decreases Size(u), 1
  {
    if u.Obj? {
      RearrangedKeys(u.entries, v.entries);
      SortStringsCanonical(KeysOf(u.entries), KeysOf(v.entries));
      FieldsTextRearranged(SortStrings(KeysOf(u.entries)), u.entries, v.entries);
    } else {
      ToTextRearranged(u, v);
    }
  }

  /** Signatures are textual, so a number and its decimal string share one: the source
      buckets `1` and `"1"` together. */
  lemma NumberAndStringCollide()
    ensures Signature(Num(1)) == Signature(Str("1"))
    ensures Num(1) != Str("1")
  {
    assert NatToString(1) == "1";
  }

  /** A nested `undefined` is written as the word, a top-level one as the empty string. */
  lemma UndefinedSignatures()
    ensures Signature(Undef) == ""
    ensures Signature(Obj([Field("a", Undef)])) == "[[a,undefined]]"
  {
    assert KeysOf([Field("a", Undef)]) == ["a"];
    assert SortStrings(["a"]) == ["a"];
  }
}
