/** `hashBuckets`: an insertion-ordered map from key signature to the bucket of items
    whose selected key has that signature. */
module Buckets {

  import opened Wrappers
  import opened Values
  import opened Signatures

  /** A user key selector, such as `row => row.id` or `row => ({ a: row.a, b: row.b })`. */
  type Selector = Value -> Value

  /** The signature of the key an item selects; a `null` key makes `stringifyObject`
      throw, reported as `None`. */
  function KeyOf(sel: Selector, item: Value): Option<string> {
    var k := sel(item);
    if k.Null? then None else Some(Signature(k))
  }

  /** What `stringifyObject(null)` throws: `null.toString` cannot be read. */
  const NullKey := TypeError("Cannot read properties of null (reading 'toString')")

  // ---------------------------------------------------------------------------
  // The state of a bucket map as a value.

  /** The `Map`'s key order and its entries. */
  datatype Table = Table(order: seq<string>, buckets: map<string, seq<Value>>)

  const EmptyTable := Table([], map[])

  predicate DistinctStrings(s: seq<string>) {
    forall i, j :: 0 <= i < j < |s| ==> s[i] != s[j]
  }

  /** The key order lists each key of the map exactly once, and no bucket is empty. */
  ghost predicate TableValid(t: Table) {
    DistinctStrings(t.order)
    && (forall k :: k in t.buckets <==> k in t.order)
    && (forall k :: k in t.buckets ==> t.buckets[k] != [])
  }

  /** What `addItem` does to the map once the signature is known. */
  function AddOne(t: Table, sk: string, item: Value): (r: Table)
    ensures sk in t.buckets ==> r.order == t.order && r.buckets == t.buckets[sk := t.buckets[sk] + [item]]
    ensures sk !in t.buckets ==> r.order == t.order + [sk] && r.buckets == t.buckets[sk := [item]]
  {
    if sk in t.buckets then Table(t.order, t.buckets[sk := t.buckets[sk] + [item]])
    else Table(t.order + [sk], t.buckets[sk := [item]])
  }

  /** `addItems` from a given state: `None` when some item selects a `null` key. */
  function AddAll(t: Table, items: seq<Value>, sel: Selector): Option<Table>
    decreases |items|
  {
    if items == [] then Some(t)
    else match KeyOf(sel, items[0])
      case None => None
      case Some(sk) => AddAll(AddOne(t, sk, items[0]), items[1..], sel)
  }

  /** The buckets of `new hashBuckets(sel).addItems(items)`. */
  function Grouped(items: seq<Value>, sel: Selector): Option<Table> {
    AddAll(EmptyTable, items, sel)
  }

  /** `mapper.get(k)`, with an absent key read as an empty bucket. */
  function Lookup(t: Table, k: string): seq<Value> {
    if k in t.buckets then t.buckets[k] else []
  }

  /** The items whose key signature is `k`, in input order. */
  function Matching(items: seq<Value>, sel: Selector, k: string): seq<Value> {
    if items == [] then []
    else (if KeyOf(sel, items[0]) == Some(k) then [items[0]] else []) + Matching(items[1..], sel, k)
  }

  /** `mapper.delete(k)`: the key leaves the map and the key order. */
  function RemoveKey(t: Table, k: string): Table {
    Table(Without(t.order, k), t.buckets - {k})
  }

  function Without(s: seq<string>, k: string): (r: seq<string>)
    ensures forall x :: x in r <==> x in s && x != k
  {
    if s == [] then [] else (if s[0] == k then [] else [s[0]]) + Without(s[1..], k)
  }

  /** `Array.from(mapper.values())`. */
  function BucketsInOrder(order: seq<string>, buckets: map<string, seq<Value>>): (r: seq<seq<Value>>)
    requires forall k :: k in order ==> k in buckets
    ensures |r| == |order|
    ensures forall i :: 0 <= i < |order| ==> r[i] == buckets[order[i]]
  {
    if order == [] then [] else [buckets[order[0]]] + BucketsInOrder(order[1..], buckets)
  }

  /** All bucket contents, bucket after bucket. */
  function Flat(order: seq<string>, buckets: map<string, seq<Value>>): seq<Value>
    requires forall k :: k in order ==> k in buckets
  {
    if order == [] then [] else buckets[order[0]] + Flat(order[1..], buckets)
  }

  // ---------------------------------------------------------------------------
  // Properties of the bucket map.

  lemma AddOneValid(t: Table, sk: string, item: Value)
    requires TableValid(t)
    ensures TableValid(AddOne(t, sk, item))
  {
  }

  lemma {:induction false} AddAllValid(t: Table, items: seq<Value>, sel: Selector)
    requires TableValid(t) && AddAll(t, items, sel).Some?
    ensures TableValid(AddAll(t, items, sel).value)
    decreases |items|
  {
    if items != [] {
      var sk := KeyOf(sel, items[0]).value;
      AddOneValid(t, sk, items[0]);
      AddAllValid(AddOne(t, sk, items[0]), items[1..], sel);
    }
  }

  /** Adding items fails exactly when some item selects a `null` key. */
  lemma {:induction false} AddAllSucceeds(t: Table, items: seq<Value>, sel: Selector)
    ensures AddAll(t, items, sel).Some? <==> forall i :: 0 <= i < |items| ==> KeyOf(sel, items[i]).Some?
    decreases |items|
  {
    if items != [] {
      match KeyOf(sel, items[0])
      case None =>
      case Some(sk) =>
        AddAllSucceeds(AddOne(t, sk, items[0]), items[1..], sel);
        assert forall i :: 0 < i < |items| ==> items[i] == items[1..][i - 1];
    }
  }

  lemma {:induction false} AddAllSnoc(t: Table, items: seq<Value>, x: Value, sel: Selector)
    ensures AddAll(t, items + [x], sel)
         == match AddAll(t, items, sel)
            case None => None
            case Some(t') =>
              (match KeyOf(sel, x) case None => None case Some(sk) => Some(AddOne(t', sk, x)))
    decreases |items|
  {
    if items == [] {
      assert [x][1..] == [];
    } else {
      assert (items + [x])[0] == items[0];
      assert (items + [x])[1..] == items[1..] + [x];
      match KeyOf(sel, items[0])
      case None =>
      case Some(sk) => AddAllSnoc(AddOne(t, sk, items[0]), items[1..], x, sel);
    }
  }

  /** Each bucket receives exactly the items whose key has its signature, in input
      order, after what it already held. */
  lemma {:induction false} AddAllBuckets(t: Table, items: seq<Value>, sel: Selector, k: string)
    requires AddAll(t, items, sel).Some?
    ensures Lookup(AddAll(t, items, sel).value, k) == Lookup(t, k) + Matching(items, sel, k)
    decreases |items|
  {
    if items != [] {
      var sk := KeyOf(sel, items[0]).value;
      AddAllBuckets(AddOne(t, sk, items[0]), items[1..], sel, k);
    }
  }

  /** New keys go to the end of the key order; existing keys keep their places. */
  lemma {:induction false} AddAllKeepsOrderPrefix(t: Table, items: seq<Value>, sel: Selector)
    requires AddAll(t, items, sel).Some?
    ensures IsPrefixOf(t.order, AddAll(t, items, sel).value.order)
    decreases |items|
  {
    if items != [] {
      var sk := KeyOf(sel, items[0]).value;
      var t1 := AddOne(t, sk, items[0]);
      AddAllKeepsOrderPrefix(t1, items[1..], sel);
      var o := AddAll(t, items, sel).value.order;
      assert o[..|t1.order|] == t1.order;
      assert t1.order[..|t.order|] == t.order;
      assert o[..|t.order|] == o[..|t1.order|][..|t.order|];
    }
  }

  predicate IsPrefixOf(p: seq<string>, s: seq<string>) {
    |p| <= |s| && s[..|p|] == p
  }

  lemma {:induction false} FlatAppend(o1: seq<string>, o2: seq<string>, m: map<string, seq<Value>>)
    requires forall k :: k in o1 + o2 ==> k in m
    ensures Flat(o1 + o2, m) == Flat(o1, m) + Flat(o2, m)
  {
    if o1 == [] {
      assert o1 + o2 == o2;
    } else {
      assert (o1 + o2)[1..] == o1[1..] + o2;
      FlatAppend(o1[1..], o2, m);
    }
  }

  lemma {:induction false} FlatOtherKey(order: seq<string>, m: map<string, seq<Value>>, k: string, b: seq<Value>)
    requires forall x :: x in order ==> x in m
    requires k !in order
    ensures Flat(order, m[k := b]) == Flat(order, m)
  {
    if order != [] {
      FlatOtherKey(order[1..], m, k, b);
    }
  }

  lemma {:induction false} FlatGrowBucket(order: seq<string>, m: map<string, seq<Value>>, k: string, x: Value)
    requires forall y :: y in order ==> y in m
    requires DistinctStrings(order) && k in order && k in m
    ensures multiset(Flat(order, m[k := m[k] + [x]])) == multiset(Flat(order, m)) + multiset{x}
  {
    var rest := order[1..];
    assert DistinctStrings(rest) by {
      forall i, j | 0 <= i < j < |rest| ensures rest[i] != rest[j] {
        assert rest[i] == order[i + 1] && rest[j] == order[j + 1];
      }
    }
    if order[0] == k {
      assert k !in rest by {
        forall i | 0 <= i < |rest| ensures rest[i] != k {
          assert rest[i] == order[i + 1];
        }
      }
      FlatOtherKey(rest, m, k, m[k] + [x]);
    } else {
      assert k in rest;
      FlatGrowBucket(rest, m, k, x);
    }
  }

  lemma AddOneFlat(t: Table, sk: string, item: Value)
    requires TableValid(t)
    ensures multiset(Flat(AddOne(t, sk, item).order, AddOne(t, sk, item).buckets))
         == multiset(Flat(t.order, t.buckets)) + multiset{item}
  {
    if sk in t.buckets {
      FlatGrowBucket(t.order, t.buckets, sk, item);
    } else {
      var m := t.buckets[sk := [item]];
      FlatAppend(t.order, [sk], m);
      FlatOtherKey(t.order, t.buckets, sk, [item]);
      assert Flat([sk], m) == [item];
    }
  }

  /** The buckets partition the items: together they hold every item exactly once. */
  lemma {:induction false} AddAllPermutation(t: Table, items: seq<Value>, sel: Selector)
    requires TableValid(t) && AddAll(t, items, sel).Some?
    ensures var t' := AddAll(t, items, sel).value;
      TableValid(t') && multiset(Flat(t'.order, t'.buckets)) == multiset(Flat(t.order, t.buckets)) + multiset(items)
    decreases |items|
  {
    AddAllValid(t, items, sel);
    if items != [] {
      var sk := KeyOf(sel, items[0]).value;
      var t1 := AddOne(t, sk, items[0]);
      AddOneFlat(t, sk, items[0]);
      AddOneValid(t, sk, items[0]);
      assert AddAll(t, items, sel) == AddAll(t1, items[1..], sel);
      AddAllPermutation(t1, items[1..], sel);
      var t2 := AddAll(t1, items[1..], sel).value;
      MultisetStep(multiset(Flat(t.order, t.buckets)), multiset(Flat(t1.order, t1.buckets)),
                   multiset(Flat(t2.order, t2.buckets)), items);
    }
  }

  lemma MultisetStep(a: multiset<Value>, b: multiset<Value>, c: multiset<Value>, items: seq<Value>)
    requires items != [] && b == a + multiset{items[0]} && c == b + multiset(items[1..])
    ensures c == a + multiset(items)
  {
    assert items == [items[0]] + items[1..];
  }

  lemma {:induction false} MatchingKeyed(items: seq<Value>, sel: Selector, k: string)
    ensures forall i :: 0 <= i < |Matching(items, sel, k)| ==>
      Matching(items, sel, k)[i] in items && KeyOf(sel, Matching(items, sel, k)[i]) == Some(k)
  {
    if items != [] {
      MatchingKeyed(items[1..], sel, k);
    }
  }

  /** A bucket holds exactly the items whose key has its signature. */
  lemma {:induction false} MatchingMembers(items: seq<Value>, sel: Selector, k: string, v: Value)
    ensures v in Matching(items, sel, k) <==> v in items && KeyOf(sel, v) == Some(k)
  {
    if items != [] {
      MatchingMembers(items[1..], sel, k, v);
      assert items == [items[0]] + items[1..];
    }
  }

  lemma {:induction false} MatchingNonEmpty(items: seq<Value>, sel: Selector, k: string)
    ensures Matching(items, sel, k) != [] <==> exists i :: 0 <= i < |items| && KeyOf(sel, items[i]) == Some(k)
  {
    if items != [] {
      MatchingNonEmpty(items[1..], sel, k);
      if KeyOf(sel, items[0]) != Some(k) {
        if exists i :: 0 <= i < |items| && KeyOf(sel, items[i]) == Some(k) {
          var i :| 0 <= i < |items| && KeyOf(sel, items[i]) == Some(k);
          assert items[1..][i - 1] == items[i];
        }
      }
    }
  }

  /** Grouping: a bucket exists exactly for each signature some item's key has; it holds
      exactly those items, in input order; the key order keeps first appearances; and the
      buckets together are a permutation of the items. */
  lemma GroupedBuckets(items: seq<Value>, sel: Selector, k: string)
    requires Grouped(items, sel).Some?
    ensures var t := Grouped(items, sel).value;
      TableValid(t)
      && (k in t.buckets <==> exists i :: 0 <= i < |items| && KeyOf(sel, items[i]) == Some(k))
      && (k in t.buckets ==> t.buckets[k] == Matching(items, sel, k))
      && multiset(Flat(t.order, t.buckets)) == multiset(items)
  {
    var t := AddAll(EmptyTable, items, sel).value;
    AddAllValid(EmptyTable, items, sel);
    AddAllBuckets(EmptyTable, items, sel, k);
    assert Lookup(EmptyTable, k) == [];
    assert Lookup(t, k) == Matching(items, sel, k);
    assert k in t.buckets <==> Matching(items, sel, k) != [];
    MatchingNonEmpty(items, sel, k);
    AddAllPermutation(EmptyTable, items, sel);
    assert Flat(EmptyTable.order, EmptyTable.buckets) == [];
  }

  lemma RemoveKeyValid(t: Table, k: string)
    requires TableValid(t)
    ensures TableValid(RemoveKey(t, k))
  {
    DistinctWithout(t.order, k);
  }

  lemma {:induction false} DistinctWithout(s: seq<string>, k: string)
    requires DistinctStrings(s)
    ensures DistinctStrings(Without(s, k))
  {
    if s != [] {
      assert DistinctStrings(s[1..]) by {
        forall i, j | 0 <= i < j < |s[1..]| ensures s[1..][i] != s[1..][j] {
          assert s[1..][i] == s[i + 1] && s[1..][j] == s[j + 1];
        }
      }
      DistinctWithout(s[1..], k);
      assert s[0] !in s[1..] by {
        forall i | 0 <= i < |s[1..]| ensures s[1..][i] != s[0] {
          assert s[1..][i] == s[i + 1];
        }
      }
    }
  }

  /** Each of the keys deleted in turn. */
  function RemoveKeys(t: Table, ks: seq<string>): Table
    decreases |ks|
  {
    if ks == [] then t
    else RemoveKey(RemoveKeys(t, ks[..|ks| - 1]), ks[|ks| - 1])
  }

  /** Removing keys drops exactly those keys and leaves every other bucket as it was. */
  lemma {:induction false} RemoveKeysContents(t: Table, ks: seq<string>)
    ensures var r := RemoveKeys(t, ks);
      (forall k :: k in r.buckets <==> k in t.buckets && k !in ks)
      && (forall k :: k in r.buckets ==> r.buckets[k] == t.buckets[k])
      && (forall k :: k in r.order <==> k in t.order && k !in ks)
    decreases |ks|
  {
    if ks != [] {
      RemoveKeysContents(t, ks[..|ks| - 1]);
    }
  }

  lemma {:induction false} RemoveKeysValid(t: Table, ks: seq<string>)
    requires TableValid(t)
    ensures TableValid(RemoveKeys(t, ks))
    decreases |ks|
  {
    if ks != [] {
      RemoveKeysValid(t, ks[..|ks| - 1]);
      RemoveKeyValid(RemoveKeys(t, ks[..|ks| - 1]), ks[|ks| - 1]);
    }
  }

  // ---------------------------------------------------------------------------
  // The class.

  class HashBuckets {
    const hashKeySelector: Selector
    var order: seq<string>
    var buckets: map<string, seq<Value>>

    function State(): Table
      reads this
    {
      Table(order, buckets)
    }

    ghost predicate Valid()
      reads this
    {
      TableValid(State())
    }

    constructor (hashKeySelector: Selector)
      ensures Valid() && State() == EmptyTable
      ensures this.hashKeySelector == hashKeySelector
    {
      this.hashKeySelector := hashKeySelector;
      order := [];
      buckets := map[];
    }

    /** `addItem`: appends the item to its key's bucket, opening a bucket at the end of
        the key order for a new key; fails (the source throws) on a `null` key. */
    method AddItem(item: Value) returns (ok: bool)
      requires Valid()
      modifies this
      ensures Valid()
      ensures ok <==> KeyOf(hashKeySelector, item).Some?
      ensures ok ==> State() == AddOne(old(State()), KeyOf(hashKeySelector, item).value, item)
      ensures !ok ==> State() == old(State())
    {
      var objectKey := hashKeySelector(item);
      if objectKey.Null? {
        return false;
      }
      var stringKey := StringifyObject(objectKey);
      AddOneValid(State(), stringKey, item);
      if stringKey !in buckets {
        order := order + [stringKey];
        buckets := buckets[stringKey := [item]];
      } else {
        buckets := buckets[stringKey := buckets[stringKey] + [item]];
      }
      return true;
    }

    /** `addItems`: `addItem` for each item in turn, stopping at the first failure. */
    method AddItems(items: seq<Value>) returns (ok: bool)
      requires Valid()
      modifies this
      ensures Valid()
      ensures ok <==> AddAll(old(State()), items, hashKeySelector).Some?
      ensures ok ==> State() == AddAll(old(State()), items, hashKeySelector).value
      // On a `null` key the items before it stay added.
      ensures !ok ==> exists i :: (0 <= i < |items| && KeyOf(hashKeySelector, items[i]).None?
        && AddAll(old(State()), items[..i], hashKeySelector) == Some(State()))
    {
      ghost var start := State();
      for i := 0 to |items|
        invariant Valid()
        invariant AddAll(start, items[..i], hashKeySelector) == Some(State())
      {
        AddAllSnoc(start, items[..i], items[i], hashKeySelector);
        assert items[..i + 1] == items[..i] + [items[i]];
        var added := AddItem(items[i]);
        if !added {
          AddAllSucceeds(start, items, hashKeySelector);
          assert KeyOf(hashKeySelector, items[i]).None?;
          return false;
        }
      }
      assert items[..|items|] == items;
      return true;
    }

    /** `getBucket`: the bucket under the signature of `sel(obj)` (none when absent),
        removing the key from the map when asked; fails on a `null` key. */
    method GetBucket(obj: Value, sel: Selector, remove: bool) returns (r: Result<Option<seq<Value>>>)
      requires Valid()
      modifies this
      ensures Valid()
      ensures r.Err? <==> sel(obj).Null?
      ensures r.Err? ==> r.error == NullKey && State() == old(State())
      ensures r.Ok? ==> var sk := KeyOf(sel, obj).value;
        r.value == (if sk in old(buckets) then Some(old(buckets)[sk]) else None)
        && State() == (if remove then RemoveKey(old(State()), sk) else old(State()))
    {
      var objectKey := sel(obj);
      if objectKey.Null? {
        return Err(NullKey);
      }
      var stringKey := StringifyObject(objectKey);
      var value := if stringKey in buckets then Some(buckets[stringKey]) else None;
      if remove {
        RemoveKeyValid(State(), stringKey);
        order := Without(order, stringKey);
        buckets := buckets - {stringKey};
      }
      return Ok(value);
    }

    /** `getBucketFirstItem`: the first item of that bucket, `null` when the bucket is
        absent or empty. */
    method GetBucketFirstItem(obj: Value, sel: Selector, remove: bool) returns (r: Result<Value>)
      requires Valid()
      modifies this
      ensures Valid()
      ensures r.Err? <==> sel(obj).Null?
      ensures r.Err? ==> r.error == NullKey && State() == old(State())
      ensures r.Ok? ==> var sk := KeyOf(sel, obj).value;
        r.value == (if sk in old(buckets) && old(buckets)[sk] != [] then old(buckets)[sk][0] else Null)
        && State() == (if remove then RemoveKey(old(State()), sk) else old(State()))
    {
      var bucket := GetBucket(obj, sel, remove);
      if bucket.Err? {
        return Err(bucket.error);
      }
      if bucket.value.None? || bucket.value.value == [] {
        return Ok(Null);
      }
      return Ok(bucket.value.value[0]);
    }

    /** `get(key)` followed by `delete(key)` on the underlying `Map`, as the merge
        engine's `removeBucket` does: the bucket under a signature, which leaves the map. */
    method Take(key: string) returns (bucket: Option<seq<Value>>)
      requires Valid()
      modifies this
      ensures Valid()
      ensures bucket == (if key in old(buckets) then Some(old(buckets)[key]) else None)
      ensures State() == RemoveKey(old(State()), key)
    {
      bucket := if key in buckets then Some(buckets[key]) else None;
      RemoveKeyValid(State(), key);
      order := Without(order, key);
      buckets := buckets - {key};
    }

    /** `getKeys`: the signatures in insertion order. */
    function GetKeys(): (r: seq<string>)
      requires Valid()
      reads this
      ensures DistinctStrings(r)
      ensures forall k :: k in r <==> k in buckets
    {
      order
    }

    /** `getBuckets`: the buckets in key order. */
    function GetBuckets(): (r: seq<seq<Value>>)
      requires Valid()
      reads this
      ensures |r| == |order|
      ensures forall i :: 0 <= i < |r| ==> r[i] == buckets[order[i]] && r[i] != []
    {
      BucketsInOrder(order, buckets)
    }
  }
}
