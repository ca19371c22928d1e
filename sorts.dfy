/** `decideOrder` and `quickSort`: ordering rows by the lists of values a selector
    picks from them. */
module Sorts {

  import opened Wrappers
  import opened Text
  import opened Values
  import opened Signatures
  import opened JsArrays

  // ---------------------------------------------------------------------------
  // JavaScript `<` on arbitrary values.

  /** `ToPrimitive` with the number hint: an array or an object becomes its `toString`. */
  function ToPrimitive(v: Value): (r: Value)
    ensures !r.Arr? && !r.Obj?
    ensures !v.Arr? && !v.Obj? ==> r == v
    ensures v.Arr? || v.Obj? ==> r == Str(ToText(v))
  {
    match v
    case Arr(items) => Str(ArrayText(items))
    case Obj(_) => Str("[object Object]")
    case _ => v
  }

  /** Every character of `t` is a decimal digit. */
  predicate AllDigits(t: string) {
    forall i :: 0 <= i < |t| ==> '0' <= t[i] <= '9'
  }

  /** The value of a non-empty run of decimal digits; `None` for anything else. */
  function DecimalValue(t: string): (r: Option<nat>)
    ensures r.Some? <==> t != [] && AllDigits(t)
    ensures r.Some? ==> r.value == DigitsValue(t)
  {
    if t == [] then None
    else
      var c := t[|t| - 1];
      if !('0' <= c <= '9') then None
      else if |t| == 1 then Some(DigitValue(c))
      else match DecimalValue(t[..|t| - 1])
        case Some(n) => Some(n * 10 + DigitValue(c))
        case None =>
          assert !AllDigits(t) by {
            var i :| 0 <= i < |t| - 1 && !('0' <= t[..|t| - 1][i] <= '9');
            assert t[i] == t[..|t| - 1][i];
          }
          None
  }

  /** `ToNumber` of a string holding an integer literal: surrounding whitespace is
      ignored, the empty string is 0, an optionally signed run of decimal digits is its
      value, and anything else is `NaN` (`None`). */
  function StringToNumber(s: string): (r: Option<int>)
    ensures (forall i :: 0 <= i < |s| ==> IsSpace(s[i])) ==> r == Some(0)
    ensures s != [] && AllDigits(s) ==> r == Some(DigitsValue(s))
    ensures |s| >= 2 && (s[0] == '-' || s[0] == '+') && AllDigits(s[1..]) ==>
      r == Some(if s[0] == '-' then 0 - DigitsValue(s[1..]) else DigitsValue(s[1..]))
    decreases |s|
  {
    if s == [] then Some(0)
    else if IsSpace(s[0]) then
      assert s[1..][0..|s| - 1] == s[1..];
      StringToNumber(s[1..])
    else if IsSpace(s[|s| - 1]) then
      assert s[..|s| - 1][0..|s| - 1] == s[..|s| - 1];
      StringToNumber(s[..|s| - 1])
    else if s[0] == '-' || s[0] == '+' then
      match DecimalValue(s[1..])
      case Some(n) => var v: int := n; Some(if s[0] == '-' then -v else v)
      case None => None
    else match DecimalValue(s)
      case Some(n) => Some(n)
      case None => None
  }

  /** `ToNumber` of a primitive; `None` stands for `NaN`. */
  function ToNumber(p: Value): (r: Option<int>)
    ensures p.Undef? || p.Arr? || p.Obj? ==> r.None?
    ensures p.Null? || p.Bool? ==> r.Some? && 0 <= r.value <= 1
    ensures p.Num? ==> r == Some(p.n)
  {
    match p
    case Null => Some(0)
    case Bool(b) => Some(if b then 1 else 0)
    case Num(n) => Some(n)
    case Str(s) => StringToNumber(s)
    case _ => None
  }

  /** A number's text converts back to that number. */
  lemma NumberTextRoundTrip(n: int)
    ensures ToNumber(Str(ToText(Num(n)))) == Some(n)
  {
    var k: nat := if n < 0 then -n else n;
    var digits := NatToString(k);
    NatToStringValue(k);
    assert AllDigits(digits);
    if n < 0 {
      var t := "-" + digits;
      assert t[0] == '-' && t[1..] == digits;
      assert StringToNumber(t) == Some(n);
    } else {
      assert StringToNumber(digits) == Some(n);
    }
  }

  /** `a < b`: two strings (after `ToPrimitive`) compare character by character, anything else by
      number, and a comparison with `NaN` on either side (`undefined`, say) is false. */
  predicate JsLess(a: Value, b: Value)
    ensures JsLess(a, b) ==> !a.Undef? && !b.Undef?
    ensures a.Num? && b.Num? ==> (JsLess(a, b) <==> a.n < b.n)
    ensures a.Str? && b.Str? ==> (JsLess(a, b) <==> StrLess(a.s, b.s))
  {
    var pa, pb := ToPrimitive(a), ToPrimitive(b);
    if pa.Str? && pb.Str? then StrLess(pa.s, pb.s)
    else
      var na, nb := ToNumber(pa), ToNumber(pb);
      na.Some? && nb.Some? && na.value < nb.value
  }

  /** A one-number array compares with a number as that number would: `[5] < 6`. */
  lemma SingletonArrayComparesAsNumber(n: int, m: int)
    ensures JsLess(Arr([Num(n)]), Num(m)) <==> n < m
    ensures JsLess(Num(m), Arr([Num(n)])) <==> m < n
  {
    assert ToPrimitive(Arr([Num(n)])) == Str(ToText(Num(n)));
    NumberTextRoundTrip(n);
  }

  lemma JsLessIrreflexive(a: Value)
    ensures !JsLess(a, a)
  {
    var pa := ToPrimitive(a);
    if pa.Str? { StrLessIrreflexive(pa.s); }
  }

  lemma JsLessAsymmetric(a: Value, b: Value)
    requires JsLess(a, b)
    ensures !JsLess(b, a)
  {
    var pa, pb := ToPrimitive(a), ToPrimitive(b);
    if pa.Str? && pb.Str? { StrLessAsymmetric(pa.s, pb.s); }
  }

  /** `undefined` is neither below nor above anything. */
  lemma UndefinedIncomparable(a: Value)
    ensures !JsLess(a, Undef) && !JsLess(Undef, a)
  {
  }

  /** Two values of the same kind, both numbers or both strings. */
  predicate SameKind(a: Value, b: Value) {
    (a.Num? && b.Num?) || (a.Str? && b.Str?)
  }

  /** Among numbers, or among strings, `<` is a strict total order. */
  lemma SameKindTrichotomy(a: Value, b: Value)
    requires SameKind(a, b)
    requires !JsLess(a, b) && !JsLess(b, a)
    ensures a == b
  {
    if a.Str? && a != b { StrLessTotal(a.s, b.s); }
  }

  lemma SameKindTransitive(a: Value, b: Value, c: Value)
    requires SameKind(a, b) && SameKind(b, c)
    requires JsLess(a, b) && JsLess(b, c)
    ensures JsLess(a, c)
  {
    if a.Str? { StrLessTransitive(a.s, b.s, c.s); }
  }

  // ---------------------------------------------------------------------------
  // decideOrder.

  /** Element `i` of a list, `undefined` past its end. */
  function At(vs: seq<Value>, i: nat): Value {
    if i < |vs| then vs[i] else Undef
  }

  function Max(a: nat, b: nat): nat {
    if a > b then a else b
  }

  /** The verdict of the comparison loop from index `i` on. */
  function OrderFrom(l: seq<Value>, r: seq<Value>, i: nat): (o: int)
    ensures o == -1 || o == 0 || o == 1
    decreases Max(|l|, |r|) - i
  {
    if i >= Max(|l|, |r|) then 0
    else if JsLess(At(l, i), At(r, i)) then -1
    else if JsLess(At(r, i), At(l, i)) then 1
    else OrderFrom(l, r, i + 1)
  }

  /** The list a selected value stands for: an array is its elements, anything else a
      list of one. */
  function Wrap(v: Value): seq<Value> {
    if v.Arr? then v.items else [v]
  }

  /** What `decideOrder(leftVals, rightVals)` returns. */
  function Compare(leftVals: Value, rightVals: Value): int {
    OrderFrom(Wrap(leftVals), Wrap(rightVals), 0)
  }

  /** `decideOrder`: -1, 0 or 1, decided at the first index where one value is `<` the
      other, both lists read up to the longer one's length. */
  method DecideOrder(leftVals: Value, rightVals: Value) returns (r: int)
    ensures r == Compare(leftVals, rightVals)
    ensures r == -1 || r == 0 || r == 1
  {
    var lefts := if leftVals.Arr? then leftVals.items else [leftVals];
    var rights := if rightVals.Arr? then rightVals.items else [rightVals];
    var length := if |lefts| > |rights| then |lefts| else |rights|;
    for i := 0 to length
      invariant OrderFrom(lefts, rights, i) == Compare(leftVals, rightVals)
    {
      var leftVal := At(lefts, i);
      var rightVal := At(rights, i);
      if JsLess(leftVal, rightVal) {
        return -1;
      }
      if JsLess(rightVal, leftVal) {
        return 1;
      }
    }
    return 0;
  }

  /** Index `i` decides nothing: neither value is `<` the other. */
  predicate Tied(l: seq<Value>, r: seq<Value>, i: nat) {
    !JsLess(At(l, i), At(r, i)) && !JsLess(At(r, i), At(l, i))
  }

  lemma {:induction false} OrderFromFirstDifference(l: seq<Value>, r: seq<Value>, k: nat, i: nat)
    requires k <= i < Max(|l|, |r|)
    requires forall j :: k <= j < i ==> Tied(l, r, j)
    requires !Tied(l, r, i)
    ensures OrderFrom(l, r, k) == if JsLess(At(l, i), At(r, i)) then -1 else 1
    decreases i - k
  {
    if k < i {
      assert Tied(l, r, k);
      OrderFromFirstDifference(l, r, k + 1, i);
    }
  }

  /** The first index where the values differ decides: -1 when the left one is `<` the
      right one there, 1 otherwise. */
  lemma DecidedAtFirstDifference(leftVals: Value, rightVals: Value, i: nat)
    requires i < Max(|Wrap(leftVals)|, |Wrap(rightVals)|)
    requires forall j :: 0 <= j < i ==> Tied(Wrap(leftVals), Wrap(rightVals), j)
    requires !Tied(Wrap(leftVals), Wrap(rightVals), i)
    ensures Compare(leftVals, rightVals) == if JsLess(At(Wrap(leftVals), i), At(Wrap(rightVals), i)) then -1 else 1
  {
    OrderFromFirstDifference(Wrap(leftVals), Wrap(rightVals), 0, i);
  }

  lemma {:induction false} OrderFromZero(l: seq<Value>, r: seq<Value>, k: nat)
    ensures OrderFrom(l, r, k) == 0 <==> forall j :: k <= j < Max(|l|, |r|) ==> Tied(l, r, j)
    decreases Max(|l|, |r|) - k
  {
    if k < Max(|l|, |r|) {
      if Tied(l, r, k) {
        assert OrderFrom(l, r, k) == OrderFrom(l, r, k + 1);
        OrderFromZero(l, r, k + 1);
      } else {
        assert OrderFrom(l, r, k) != 0;
        assert !(forall j :: k <= j < Max(|l|, |r|) ==> Tied(l, r, j));
      }
    }
  }

  /** 0 exactly when no index up to the longer length differs. */
  lemma ZeroIffAllTied(leftVals: Value, rightVals: Value)
    ensures Compare(leftVals, rightVals) == 0 <==>
      forall j :: 0 <= j < Max(|Wrap(leftVals)|, |Wrap(rightVals)|) ==> Tied(Wrap(leftVals), Wrap(rightVals), j)
  {
    OrderFromZero(Wrap(leftVals), Wrap(rightVals), 0);
  }

  /** A list and any extension of it compare equal: the missing values are `undefined`,
      and no comparison with `undefined` holds. */
  lemma PrefixComparesEqual(xs: seq<Value>, ys: seq<Value>)
    ensures Compare(Arr(xs), Arr(xs + ys)) == 0
    ensures Compare(Arr(xs + ys), Arr(xs)) == 0
  {
    var l, r := xs, xs + ys;
    forall j | 0 <= j < Max(|l|, |r|) ensures Tied(l, r, j) && Tied(r, l, j) {
      if j < |xs| {
        assert At(l, j) == At(r, j);
        JsLessIrreflexive(At(l, j));
      } else {
        UndefinedIncomparable(At(r, j));
      }
    }
    OrderFromZero(l, r, 0);
    OrderFromZero(r, l, 0);
  }

  lemma {:induction false} OrderFromAntisymmetric(l: seq<Value>, r: seq<Value>, k: nat)
    ensures OrderFrom(r, l, k) == -OrderFrom(l, r, k)
    decreases Max(|l|, |r|) - k
  {
    if k < Max(|l|, |r|) {
      if JsLess(At(l, k), At(r, k)) {
        JsLessAsymmetric(At(l, k), At(r, k));
      } else if !JsLess(At(r, k), At(l, k)) {
        OrderFromAntisymmetric(l, r, k + 1);
      }
    }
  }

  /** Swapping the arguments negates the verdict. */
  lemma CompareAntisymmetric(u: Value, w: Value)
    ensures Compare(w, u) == -Compare(u, w)
  {
    OrderFromAntisymmetric(Wrap(u), Wrap(w), 0);
  }

  /** Two selected values the comparison orders consistently: lists of one length whose
      values at each index are both numbers or both strings. */
  predicate Comparable(u: Value, w: Value) {
    var a, b := Wrap(u), Wrap(w);
    |a| == |b| && forall i :: 0 <= i < |a| ==> SameKind(a[i], b[i])
  }

  lemma {:induction false} OrderFromTransitive(a: seq<Value>, b: seq<Value>, c: seq<Value>, k: nat)
    requires |a| == |b| == |c|
    requires forall i :: 0 <= i < |a| ==> SameKind(a[i], b[i]) && SameKind(b[i], c[i])
    requires OrderFrom(a, b, k) == -1 && OrderFrom(b, c, k) == -1
    ensures OrderFrom(a, c, k) == -1
    decreases |a| - k
  {
    var x, y, z := At(a, k), At(b, k), At(c, k);
    assert x == a[k] && y == b[k] && z == c[k];
    if JsLess(x, y) {
      if JsLess(y, z) {
        SameKindTransitive(x, y, z);
      } else {
        SameKindTrichotomy(y, z);
      }
    } else {
      SameKindTrichotomy(x, y);
      if !JsLess(y, z) {
        SameKindTrichotomy(y, z);
        OrderFromTransitive(a, b, c, k + 1);
      }
    }
  }

  /** On comparable values "comes before" is transitive. */
  lemma CompareTransitive(u: Value, v: Value, w: Value)
    requires Comparable(u, v) && Comparable(v, w)
    requires Compare(u, v) == -1 && Compare(v, w) == -1
    ensures Compare(u, w) == -1
  {
    OrderFromTransitive(Wrap(u), Wrap(v), Wrap(w), 0);
  }

  // ---------------------------------------------------------------------------
  // quickSort.

  /** The row goes to the left part: it compares -1 against the pivot. */
  predicate Below(row: Value, pivot: Value, sel: Value -> Value) {
    Compare(sel(row), sel(pivot)) == -1
  }

  /** The rows of `rest` that go left (`below`) or right, in their order. */
  function Part(rest: seq<Value>, pivot: Value, sel: Value -> Value, below: bool): (r: seq<Value>)
    ensures |r| <= |rest|
  {
    if rest == [] then []
    else
      var init, last := rest[..|rest| - 1], rest[|rest| - 1];
      assert rest == init + [last];
      Part(init, pivot, sel, below) + (if Below(last, pivot, sel) == below then [last] else [])
  }

  lemma {:induction false} PartMembers(rest: seq<Value>, pivot: Value, sel: Value -> Value, below: bool, x: Value)
    requires x in Part(rest, pivot, sel, below)
    ensures x in rest && Below(x, pivot, sel) == below
  {
    var init, last := rest[..|rest| - 1], rest[|rest| - 1];
    assert rest == init + [last];
    var add := if Below(last, pivot, sel) == below then [last] else [];
    assert Part(rest, pivot, sel, below) == Part(init, pivot, sel, below) + add;
    if x in Part(init, pivot, sel, below) {
      PartMembers(init, pivot, sel, below, x);
      assert x in init;
    } else {
      assert x in add;
      assert x == last;
    }
  }

  lemma {:induction false} PartsPermutation(rest: seq<Value>, pivot: Value, sel: Value -> Value)
    ensures multiset(Part(rest, pivot, sel, true)) + multiset(Part(rest, pivot, sel, false)) == multiset(rest)
  {
    if rest != [] {
      var init := rest[..|rest| - 1];
      assert rest == init + [rest[|rest| - 1]];
      PartsPermutation(init, pivot, sel);
    }
  }

  lemma SplitLast<T>(s: seq<T>)
    requires s != []
    ensures s == s[..|s| - 1] + [s[|s| - 1]]
  {
  }

  /** What `quickSort` returns: the last row is the pivot, the rows below it are sorted to
      its left and all others to its right, each part keeping its relative order before
      it is sorted. */
  function QuickSorted(s: seq<Value>, sel: Value -> Value): (r: seq<Value>)
    ensures multiset(r) == multiset(s)
    decreases |s|
  {
    if |s| <= 1 then s
    else
      var pivot, rest := s[|s| - 1], s[..|s| - 1];
      PartsPermutation(rest, pivot, sel);
      SplitLast(s);
      QuickSorted(Part(rest, pivot, sel, true), sel) + [pivot] + QuickSorted(Part(rest, pivot, sel, false), sel)
  }

  /** `quickSort(unsorted, orderedValuesSelector)`: pops the pivot off the input array,
      returns the input array itself when it has at most one row, a new array otherwise. */
  method QuickSort(unsorted: JsArray, orderedValuesSelector: Value -> Value) returns (r: JsArray)
    modifies unsorted
    ensures r.items == QuickSorted(old(unsorted.items), orderedValuesSelector)
    ensures |old(unsorted.items)| <= 1 ==> r == unsorted && unsorted.items == old(unsorted.items)
    ensures |old(unsorted.items)| > 1 ==>
      fresh(r) && unsorted.items == old(unsorted.items)[..|old(unsorted.items)| - 1]
    decreases |unsorted.items|
  {
    if |unsorted.items| <= 1 {
      return unsorted;
    }
    ghost var s := unsorted.items;
    var pivot := unsorted.Pop();
    var left, right := Partition(unsorted.items, pivot, orderedValuesSelector);
    var sortedLeft := QuickSort(left, orderedValuesSelector);
    var sortedRight := QuickSort(right, orderedValuesSelector);
    QuickSortedStep(s, orderedValuesSelector);
    r := new JsArray(sortedLeft.items + [pivot] + sortedRight.items);
  }

  lemma QuickSortedStep(s: seq<Value>, sel: Value -> Value)
    requires |s| > 1
    ensures QuickSorted(s, sel) ==
      QuickSorted(Part(s[..|s| - 1], s[|s| - 1], sel, true), sel) + [s[|s| - 1]]
      + QuickSorted(Part(s[..|s| - 1], s[|s| - 1], sel, false), sel)
  {
  }

  lemma PartSnoc(rows: seq<Value>, k: nat, pivot: Value, sel: Value -> Value, below: bool)
    requires k < |rows|
    ensures Part(rows[..k + 1], pivot, sel, below)
      == Part(rows[..k], pivot, sel, below) + (if Below(rows[k], pivot, sel) == below then [rows[k]] else [])
  {
    assert rows[..k + 1][..k] == rows[..k];
  }

  /** The loop of `quickSort`: each row is pushed left when it compares -1 against the
      pivot, right otherwise. */
  method Partition(rows: seq<Value>, pivot: Value, orderedValuesSelector: Value -> Value) returns (left: JsArray, right: JsArray)
    ensures fresh(left) && fresh(right) && left != right
    ensures left.items == Part(rows, pivot, orderedValuesSelector, true)
    ensures right.items == Part(rows, pivot, orderedValuesSelector, false)
  {
    left := new JsArray([]);
    right := new JsArray([]);
    for k := 0 to |rows|
      invariant fresh(left) && fresh(right) && left != right
      invariant left.items == Part(rows[..k], pivot, orderedValuesSelector, true)
      invariant right.items == Part(rows[..k], pivot, orderedValuesSelector, false)
    {
      var row := rows[k];
      PartSnoc(rows, k, pivot, orderedValuesSelector, true);
      PartSnoc(rows, k, pivot, orderedValuesSelector, false);
      var orderDecision := DecideOrder(orderedValuesSelector(row), orderedValuesSelector(pivot));
      assert (orderDecision == -1) == Below(row, pivot, orderedValuesSelector);
      if orderDecision == -1 {
        left.Push(row);
      } else {
        right.Push(row);
      }
    }
    assert rows[..|rows|] == rows;
  }

  /** No later row compares -1 against an earlier one. */
  predicate SortedBy(r: seq<Value>, sel: Value -> Value) {
    forall i, j :: 0 <= i < j < |r| ==> Compare(sel(r[j]), sel(r[i])) != -1
  }

  /** Every two rows' selected values are comparable. */
  predicate UniformKeys(s: seq<Value>, sel: Value -> Value) {
    forall x, y :: x in s && y in s ==> Comparable(sel(x), sel(y))
  }

  /** A row below the pivot may precede it. */
  lemma BelowBeforePivot(x: Value, pivot: Value, sel: Value -> Value)
    requires Below(x, pivot, sel)
    ensures Compare(sel(pivot), sel(x)) != -1
  {
    CompareAntisymmetric(sel(x), sel(pivot));
  }

  /** A row below the pivot may precede one that is not, when their keys are comparable. */
  lemma BelowBeforeAbove(x: Value, y: Value, pivot: Value, sel: Value -> Value)
    requires Below(x, pivot, sel) && !Below(y, pivot, sel)
    requires Comparable(sel(y), sel(x)) && Comparable(sel(x), sel(pivot))
    ensures Compare(sel(y), sel(x)) != -1
  {
    if Compare(sel(y), sel(x)) == -1 {
      CompareTransitive(sel(y), sel(x), sel(pivot));
    }
  }

  /** The two sorted parts around the pivot make a sorted whole. */
  lemma SortedAroundPivot(qlo: seq<Value>, pivot: Value, qhi: seq<Value>, sel: Value -> Value)
    requires SortedBy(qlo, sel) && SortedBy(qhi, sel)
    requires forall x :: x in qlo ==> Below(x, pivot, sel) && Comparable(sel(x), sel(pivot))
    requires forall y :: y in qhi ==> !Below(y, pivot, sel)
    requires forall x, y :: x in qlo && y in qhi ==> Comparable(sel(y), sel(x))
    ensures SortedBy(qlo + [pivot] + qhi, sel)
  {
    var left := qlo + [pivot];
    forall i, j | 0 <= i < |qlo| && 0 <= j < 1 ensures Compare(sel([pivot][j]), sel(qlo[i])) != -1 {
      assert qlo[i] in qlo;
      BelowBeforePivot(qlo[i], pivot, sel);
    }
    SortedConcat(qlo, [pivot], sel);
    forall i, j | 0 <= i < |left| && 0 <= j < |qhi| ensures Compare(sel(qhi[j]), sel(left[i])) != -1 {
      assert qhi[j] in qhi;
      if i < |qlo| {
        assert left[i] == qlo[i] && qlo[i] in qlo;
        BelowBeforeAbove(qlo[i], qhi[j], pivot, sel);
      } else {
        assert left[i] == pivot;
      }
    }
    SortedConcat(left, qhi, sel);
  }

  /** Two sorted lists, every row of the second allowed after every row of the first,
      make a sorted whole. */
  lemma SortedConcat(a: seq<Value>, b: seq<Value>, sel: Value -> Value)
    requires SortedBy(a, sel) && SortedBy(b, sel)
    requires forall i, j :: 0 <= i < |a| && 0 <= j < |b| ==> Compare(sel(b[j]), sel(a[i])) != -1
    ensures SortedBy(a + b, sel)
  {
    var r := a + b;
    forall i, j | 0 <= i < j < |r| ensures Compare(sel(r[j]), sel(r[i])) != -1 {
      if j < |a| {
        assert r[i] == a[i] && r[j] == a[j];
      } else if i >= |a| {
        assert r[i] == b[i - |a|] && r[j] == b[j - |a|];
      } else {
        assert r[i] == a[i] && r[j] == b[j - |a|];
      }
    }
  }

  /** When every selected list has the same length and each position holds numbers only
      or strings only, the result is non-decreasing under `decideOrder`. */
  lemma {:induction false} QuickSortedSorted(s: seq<Value>, sel: Value -> Value)
    requires UniformKeys(s, sel)
    ensures SortedBy(QuickSorted(s, sel), sel)
    decreases |s|
  {
    if |s| > 1 {
      var pivot, rest := s[|s| - 1], s[..|s| - 1];
      var lo, hi := Part(rest, pivot, sel, true), Part(rest, pivot, sel, false);
      PartUniform(s, pivot, sel, true);
      PartUniform(s, pivot, sel, false);
      QuickSortedSorted(lo, sel);
      QuickSortedSorted(hi, sel);
      PivotSplit(s, sel);
      QuickSortedStep(s, sel);
      SortedAroundPivot(QuickSorted(lo, sel), pivot, QuickSorted(hi, sel), sel);
    }
  }

  /** Each part of uniform keys has uniform keys. */
  lemma PartUniform(s: seq<Value>, pivot: Value, sel: Value -> Value, below: bool)
    requires |s| > 1 && UniformKeys(s, sel) && pivot == s[|s| - 1]
    ensures UniformKeys(Part(s[..|s| - 1], pivot, sel, below), sel)
  {
    var rest := s[..|s| - 1];
    var part := Part(rest, pivot, sel, below);
    forall x | x in part ensures x in s {
      PartMembers(rest, pivot, sel, below, x);
    }
  }

  /** Around the last row of uniform keys, the sorted parts meet what
      `SortedAroundPivot` asks of them. */
  lemma PivotSplit(s: seq<Value>, sel: Value -> Value)
    requires |s| > 1 && UniformKeys(s, sel)
    ensures var pivot, rest := s[|s| - 1], s[..|s| - 1];
      var qlo, qhi := QuickSorted(Part(rest, pivot, sel, true), sel), QuickSorted(Part(rest, pivot, sel, false), sel);
      (forall x :: x in qlo ==> Below(x, pivot, sel) && Comparable(sel(x), sel(pivot)))
      && (forall y :: y in qhi ==> !Below(y, pivot, sel))
      && (forall x, y :: x in qlo && y in qhi ==> Comparable(sel(y), sel(x)))
  {
    var pivot, rest := s[|s| - 1], s[..|s| - 1];
    var lo, hi := Part(rest, pivot, sel, true), Part(rest, pivot, sel, false);
    var qlo, qhi := QuickSorted(lo, sel), QuickSorted(hi, sel);
    assert pivot in s;
    forall x | x in qlo ensures x in s && Below(x, pivot, sel) {
      assert x in multiset(lo);
      PartMembers(rest, pivot, sel, true, x);
    }
    forall y | y in qhi ensures y in s && !Below(y, pivot, sel) {
      assert y in multiset(hi);
      PartMembers(rest, pivot, sel, false, y);
    }
  }

  /** Ties go right of the pivot, which is the last row: two tied rows come out swapped,
      so sorting an already sorted list can change it. */
  lemma TiesAreSwapped(a: Value, b: Value, sel: Value -> Value)
    requires Compare(sel(a), sel(b)) != -1
    ensures QuickSorted([a, b], sel) == [b, a]
  {
    assert [a, b][..1] == [a];
    assert Part([a], b, sel, true) == [];
    assert Part([a], b, sel, false) == [a];
  }

  lemma MixedKindComparisons()
    ensures Compare(Str("10"), Str("9")) == -1
    ensures Compare(Num(9), Str("9")) == 0
    ensures Compare(Num(9), Str("10")) == -1
  {
    assert StringToNumber("9") == Some(9);
    assert StringToNumber("10") == Some(10) by {
      assert "10"[..1] == "1";
      assert DecimalValue("1") == Some(1);
    }
    assert JsLess(Str("10"), Str("9"));
    assert !JsLess(Num(9), Str("9")) && !JsLess(Str("9"), Num(9));
    assert JsLess(Num(9), Str("10"));
  }

  /** With keys of mixed kinds the output is not sorted: `"10" < "9"` as strings, but
      `9 < "10"` as numbers. */
  lemma MixedKeysUnsorted()
    ensures var s := [Str("10"), Num(9), Str("9")];
      var r := QuickSorted(s, v => v);
      r == [Str("10"), Str("9"), Num(9)] && Compare(r[2], r[0]) == -1
  {
    var sel: Value -> Value := v => v;
    MixedKindComparisons();
    var s := [Str("10"), Num(9), Str("9")];
    var rest := [Str("10"), Num(9)];
    assert s[..2] == rest;
    assert rest[..1] == [Str("10")];
    assert Part(rest, Str("9"), sel, true) == [Str("10")];
    assert Part(rest, Str("9"), sel, false) == [Num(9)];
    QuickSortedStep(s, sel);
  }
}
