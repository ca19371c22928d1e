/** `joiner`: the join of the bundled engine. Its options string picks a join type
    (`inner`, `left`, `right`, `full`) and an algorithm (`hash`, `loop`); `execute`
    checks the mapper, wraps it so that `undefined` properties are dropped, and runs a
    loop join or a hash join, pushing every row it produces into `results`. */
module Joins {

  import opened Wrappers
  import opened Text
  import opened Values
  import opened General
  import opened Buckets
  import opened Parser
  import opened MergeTools

  // ---------------------------------------------------------------------------
  // extractOption.

  /** `s.split(' ').map(o => o.trim())`. */
  function Words(s: string): seq<string> {
    TrimAll(SplitChar(s, ' '))
  }

  function TrimAll(pieces: seq<string>): seq<string> {
    if pieces == [] then [] else [Trim(pieces[0])] + TrimAll(pieces[1..])
  }

  /** `opts.filter(o => terms.includes(o))[0]`: the first option that is a term. */
  function FirstIn(opts: seq<string>, terms: seq<string>): Option<string> {
    if opts == [] then None
    else if opts[0] in terms then Some(opts[0])
    else FirstIn(opts[1..], terms)
  }

  /** The search finds nothing exactly when no option is a term, and what it finds is
      an option that is a term. */
  lemma {:induction false} FirstInFound(opts: seq<string>, terms: seq<string>)
    ensures FirstIn(opts, terms).None? <==> forall i :: 0 <= i < |opts| ==> opts[i] !in terms
    ensures FirstIn(opts, terms).Some? ==> FirstIn(opts, terms).value in terms && FirstIn(opts, terms).value in opts
  {
    if opts != [] && opts[0] !in terms {
      FirstInFound(opts[1..], terms);
      assert forall i :: 0 < i < |opts| ==> opts[i] == opts[1..][i - 1];
      assert opts == [opts[0]] + opts[1..];
    }
  }

  /** The option found is the one at the first index holding a term. */
  lemma {:induction false} FirstInIndex(opts: seq<string>, terms: seq<string>, i: nat)
    requires i < |opts| && opts[i] in terms
    requires forall j :: 0 <= j < i ==> opts[j] !in terms
    ensures FirstIn(opts, terms) == Some(opts[i])
  {
    if i > 0 {
      assert opts[1..][i - 1] == opts[i];
      FirstInIndex(opts[1..], terms, i - 1);
    }
  }

  /** `extractOption(searchTerms, defaultTerm)`: the first word of the options string that
      is one of the search terms, or the default. The search terms are given already
      split into words. */
  function ExtractOption(options: string, terms: seq<string>, defaultTerm: string): (r: string)
    ensures r == defaultTerm || (r in terms && r in Words(options))
  {
    FirstInFound(Words(options), terms);
    match FirstIn(Words(options), terms)
    case Some(o) => o
    case None => defaultTerm
  }

  /** The default is returned exactly when no option is a search term; otherwise the
      first option that is one is returned. */
  lemma ExtractOptionFirst(options: string, terms: seq<string>, defaultTerm: string)
    ensures var opts, r := Words(options), ExtractOption(options, terms, defaultTerm);
      ((forall i :: 0 <= i < |opts| ==> opts[i] !in terms) ==> r == defaultTerm)
      && ((exists i :: 0 <= i < |opts| && opts[i] in terms) ==> r in terms && r in opts)
      && (forall i :: FirstTermAt(opts, terms, i) ==> r == opts[i])
  {
    FirstInFound(Words(options), terms);
    FirstInEarliest(Words(options), terms);
  }

  /** Index `i` holds the first option that is a term. */
  predicate FirstTermAt(opts: seq<string>, terms: seq<string>, i: int) {
    0 <= i < |opts| && opts[i] in terms && forall j :: 0 <= j < i ==> opts[j] !in terms
  }

  lemma FirstInEarliest(opts: seq<string>, terms: seq<string>)
    ensures forall i :: FirstTermAt(opts, terms, i) ==> FirstIn(opts, terms) == Some(opts[i])
  {
    forall i | FirstTermAt(opts, terms, i) {
      FirstInIndex(opts, terms, i);
    }
  }

  /** A word with no whitespace in it. */
  predicate Plain(w: string) {
    forall i :: 0 <= i < |w| ==> !IsSpace(w[i])
  }

  lemma TrimPlain(w: string)
    requires Plain(w)
    ensures Trim(w) == w
  {
    if w != [] {
      assert !IsSpace(w[0]);
      assert TrimStart(w) == w;
      assert !IsSpace(w[|w| - 1]);
    }
  }

  lemma {:induction false} SplitCharCons(w: string, rest: string, c: char)
    requires c !in w
    ensures SplitChar(w + [c] + rest, c) == [w] + SplitChar(rest, c)
  {
    var s := w + [c] + rest;
    if w == [] {
      assert s[1..] == rest;
    } else {
      assert s[1..] == w[1..] + [c] + rest;
      SplitCharCons(w[1..], rest, c);
      assert [w[0]] + w[1..] == w;
    }
  }

  /** A plain word, a space and the rest split into that word and the rest's words. */
  lemma WordsCons(w: string, rest: string)
    requires Plain(w)
    ensures Words(w + " " + rest) == [w] + Words(rest)
  {
    assert ' ' !in w by {
      forall i | 0 <= i < |w| ensures w[i] != ' ' {
        assert !IsSpace(w[i]);
      }
    }
    SplitCharCons(w, rest, ' ');
    assert w + " " + rest == w + [' '] + rest;
    TrimPlain(w);
    var pieces := SplitChar(rest, ' ');
    assert ([w] + pieces)[0] == w;
    assert ([w] + pieces)[1..] == pieces;
    assert TrimAll([w] + pieces) == [Trim(w)] + TrimAll(pieces);
  }

  lemma WordsOne(w: string)
    requires Plain(w)
    ensures Words(w) == [w]
  {
    assert ' ' !in w by {
      forall i | 0 <= i < |w| ensures w[i] != ' ' {
        assert !IsSpace(w[i]);
      }
    }
    SplitCharNone(w, ' ');
    TrimPlain(w);
    assert [w][0] == w && [w][1..] == [];
    assert TrimAll([w]) == [Trim(w)] + TrimAll([]);
  }

  /** `'inner left right full'` split into words. */
  const JoinTypes: seq<string> := ["inner", "left", "right", "full"]

  /** `'hash loop'` split into words. */
  const Algorithms: seq<string> := ["hash", "loop"]

  /** The join type is always one of the four, and `inner` unless the options name
      another. */
  lemma JoinTypeChoice(options: string)
    ensures ExtractOption(options, JoinTypes, "inner") in JoinTypes
    ensures ExtractOption(options, Algorithms, "hash") in Algorithms
    ensures (forall i :: 0 <= i < |Words(options)| ==> Words(options)[i] !in JoinTypes)
      ==> ExtractOption(options, JoinTypes, "inner") == "inner"
  {
    FirstInFound(Words(options), JoinTypes);
    FirstInFound(Words(options), Algorithms);
  }

  /** The algorithm is `loop` when `loop` comes before any `hash` among the words of the
      options, and `hash` when `hash` comes first. */
  lemma AlgorithmChoice(options: string, i: nat)
    requires i < |Words(options)| && Words(options)[i] in Algorithms
    requires forall j :: 0 <= j < i ==> Words(options)[j] !in Algorithms
    ensures ExtractOption(options, Algorithms, "hash") == Words(options)[i]
  {
    FirstInIndex(Words(options), Algorithms, i);
  }

  /** A join type keeps the unmatched left rows when it is `left` or `full`. */
  predicate KeepsLeft(joinType: string) {
    joinType == "left" || joinType == "full"
  }

  /** A join type keeps the unmatched right rows when it is `right` or `full`. */
  predicate KeepsRight(joinType: string) {
    joinType == "right" || joinType == "full"
  }

  // ---------------------------------------------------------------------------
  // Mappers and matching logic.

  /** The mapper passed to `execute`: absent, or a function with its source text. */
  datatype JoinMapper = DefaultJoinMapper | JoinMapperFn(text: string, f: (Value, Value) -> Value)

  /** The mapper's result before `thenRemoveUndefinedKeys`: the default is
      `Object.assign({}, joinRow, fromRow)`. */
  function Mapped(mapper: JoinMapper, fromRow: Value, joinRow: Value): Value {
    match mapper
    case DefaultJoinMapper => Obj(Assign(Assign([], OwnEntries(joinRow)), OwnEntries(fromRow)))
    case JoinMapperFn(_, f) => f(fromRow, joinRow)
  }

  /** The wrapped mapper: its result with every `undefined` property deleted;
      `Object.keys` throws on an `undefined` or `null` result. */
  function MapRow(mapper: JoinMapper, fromRow: Value, joinRow: Value): Result<Value> {
    NoUndefinedValue(Mapped(mapper, fromRow, joinRow))
  }

  /** The default mapper never throws, and the merged row reads each key from the
      from-row when it has that key (even as `undefined`, which is then dropped) and
      from the join-row otherwise. */
  lemma DefaultMapperPrefersFromRow(fromRow: seq<Field>, joinRow: seq<Field>, k: string)
    requires DistinctKeys(fromRow) && DistinctKeys(joinRow)
    ensures var r := MapRow(DefaultJoinMapper, Obj(fromRow), Obj(joinRow));
      r.Ok? && r.value.Obj?
      && Get(r.value.entries, k) == (if HasKey(fromRow, k) then Get(fromRow, k) else Get(joinRow, k))
      && DistinctKeys(r.value.entries)
      && forall i :: 0 <= i < |r.value.entries| ==> r.value.entries[i].val != Undef
  {
    var merged := Assign(Assign([], joinRow), fromRow);
    GetAssign(Assign([], joinRow), fromRow, k);
    GetAssign([], joinRow, k);
    AssignKeepsDistinct([], joinRow);
    AssignKeepsDistinct(Assign([], joinRow), fromRow);
    DropUndefinedReads(merged, k);
    DropUndefinedKeepsDistinct(merged);
    DropUndefinedNoneLeft(merged);
  }

  /** The wrapped mapper's results carry no `undefined` property, and wrapping twice
      changes nothing. */
  lemma RemoveUndefinedKeysIdempotent(mapper: JoinMapper, fromRow: Value, joinRow: Value)
    ensures var r := MapRow(mapper, fromRow, joinRow);
      r.Ok? ==> (NoUndefinedValue(r.value) == r
                 && (r.value.Obj? ==> forall i :: 0 <= i < |r.value.entries| ==> r.value.entries[i].val != Undef))
  {
    var v := Mapped(mapper, fromRow, joinRow);
    if v.Obj? {
      DropUndefinedIdempotent(v.entries);
      DropUndefinedNoneLeft(v.entries);
    }
  }

  /** The matching logic: a predicate with its source text, or a pair of key selectors
      whose signatures are compared (the join selector may be missing). */
  datatype Logic = LogicFn(text: string, holds: (Value, Value) -> bool) | SelectorPair(fromSel: Selector, joinSel: Option<Selector>)

  const MissingSelector := TypeError("ml1 is not a function")

  /** The matching logic applied to two rows. For a selector pair the from-row's key is
      signed first, then the join selector is called and its key signed. */
  function Holds(logic: Logic, fromRow: Value, joinRow: Value): Result<bool> {
    match logic
    case LogicFn(_, holds) => Ok(holds(fromRow, joinRow))
    case SelectorPair(fromSel, joinSel) =>
      match KeyOf(fromSel, fromRow)
      case None => Err(NullKey)
      case Some(a) =>
        match joinSel
        case None => Err(MissingSelector)
        case Some(js) =>
          match KeyOf(js, joinRow)
          case None => Err(NullKey)
          case Some(b) => Ok(a == b)
  }

  predicate Hit(logic: Logic, fromRow: Value, joinRow: Value) {
    Holds(logic, fromRow, joinRow) == Ok(true)
  }

  // ---------------------------------------------------------------------------
  // Sequencing pushes that may throw.

  /** Running `a` then `b`: the first failure stops the run. */
  function Then(a: Result<seq<Value>>, b: Result<seq<Value>>): Result<seq<Value>> {
    if a.Err? then a else if b.Err? then b else Ok(a.value + b.value)
  }

  /** Nothing runs after a failure. */
  lemma ThenFailed(a: Result<seq<Value>>, b: Result<seq<Value>>)
    requires a.Err?
    ensures Then(a, b) == a
  {
  }

  /** Running something that pushes nothing after `a` is running `a`. */
  lemma ThenNothing(a: Result<seq<Value>>)
    ensures Then(a, Ok([])) == a
  {
    if a.Ok? {
      assert a.value + [] == a.value;
    }
  }

  /** One push of a computed row. */
  function One(v: Result<Value>): Result<seq<Value>> {
    match v
    case Err(e) => Err(e)
    case Ok(x) => Ok([x])
  }

  // ---------------------------------------------------------------------------
  // executeLoopJoin.

  /** What the pair loop does for one from-row and one join-row. */
  function PairStep(fromData: seq<Value>, joinData: seq<Value>, logic: Logic, mapper: JoinMapper, fix: nat, jix: nat): Result<seq<Value>>
    requires fix < |fromData| && jix < |joinData|
  {
    match Holds(logic, fromData[fix], joinData[jix])
    case Err(e) => Err(e)
    case Ok(h) => if h then One(MapRow(mapper, fromData[fix], joinData[jix])) else Ok([])
  }

  /** The pair loop for from-row `fix` against the first `n` join-rows. */
  function RowSteps(fromData: seq<Value>, joinData: seq<Value>, logic: Logic, mapper: JoinMapper, fix: nat, n: nat): Result<seq<Value>>
    requires fix < |fromData| && n <= |joinData|
  {
    if n == 0 then Ok([])
    else Then(RowSteps(fromData, joinData, logic, mapper, fix, n - 1), PairStep(fromData, joinData, logic, mapper, fix, n - 1))
  }

  /** The pair loop over the first `m` from-rows. */
  function PairSteps(fromData: seq<Value>, joinData: seq<Value>, logic: Logic, mapper: JoinMapper, m: nat): Result<seq<Value>>
    requires m <= |fromData|
  {
    if m == 0 then Ok([])
    else Then(PairSteps(fromData, joinData, logic, mapper, m - 1), RowSteps(fromData, joinData, logic, mapper, m - 1, |joinData|))
  }

  /** From-row `fix` matched one of the first `n` join-rows. */
  predicate FromHit(fromData: seq<Value>, joinData: seq<Value>, logic: Logic, fix: nat, n: nat)
    requires fix < |fromData| && n <= |joinData|
  {
    exists j :: 0 <= j < n && Hit(logic, fromData[fix], joinData[j])
  }

  /** Join-row `jix` matched one of the first `m` from-rows. */
  predicate JoinHit(fromData: seq<Value>, joinData: seq<Value>, logic: Logic, jix: nat, m: nat)
    requires jix < |joinData| && m <= |fromData|
  {
    exists i :: 0 <= i < m && Hit(logic, fromData[i], joinData[jix])
  }

  /** `joinHits[fix]` for an index of the from-rows: unset past the join-rows. */
  predicate JoinHitAt(fromData: seq<Value>, joinData: seq<Value>, logic: Logic, ix: nat) {
    ix < |joinData| && JoinHit(fromData, joinData, logic, ix, |fromData|)
  }

  /** `this.joinDs.data[fix]`: `undefined` past the end. */
  function JoinAt(joinData: seq<Value>, ix: nat): Value {
    if ix < |joinData| then joinData[ix] else Undef
  }

  /** `mapper(fromRow, {})` for each of the first `m` from-rows that matched nothing. */
  function LeftSteps(fromData: seq<Value>, joinData: seq<Value>, logic: Logic, mapper: JoinMapper, m: nat): Result<seq<Value>>
    requires m <= |fromData|
  {
    if m == 0 then Ok([])
    else Then(LeftSteps(fromData, joinData, logic, mapper, m - 1), LeftStep(fromData, joinData, logic, mapper, m - 1))
  }

  /** The left pass at from-row `fix`: nothing when it was hit, else `mapper(fromRow, {})`. */
  function LeftStep(fromData: seq<Value>, joinData: seq<Value>, logic: Logic, mapper: JoinMapper, fix: nat): Result<seq<Value>>
    requires fix < |fromData|
  {
    if FromHit(fromData, joinData, logic, fix, |joinData|) then Ok([])
    else One(MapRow(mapper, fromData[fix], Obj([])))
  }

  /** The right pass: it walks the indices of the FROM-rows, and for each unset
      `joinHits[fix]` pushes `mapper({}, joinDs.data[fix])`. */
  function RightSteps(fromData: seq<Value>, joinData: seq<Value>, logic: Logic, mapper: JoinMapper, m: nat): Result<seq<Value>>
    requires m <= |fromData|
  {
    if m == 0 then Ok([])
    else Then(RightSteps(fromData, joinData, logic, mapper, m - 1), RightStep(fromData, joinData, logic, mapper, m - 1))
  }

  /** The right pass at index `ix`: nothing when `joinHits[ix]` is set, else
      `mapper({}, joinDs.data[ix])`. */
  function RightStep(fromData: seq<Value>, joinData: seq<Value>, logic: Logic, mapper: JoinMapper, ix: nat): Result<seq<Value>> {
    if JoinHitAt(fromData, joinData, logic, ix) then Ok([])
    else One(MapRow(mapper, Obj([]), JoinAt(joinData, ix)))
  }

  /** What `executeLoopJoin` pushes, or the first failure. */
  function LoopJoined(fromData: seq<Value>, joinData: seq<Value>, logic: Logic, mapper: JoinMapper, joinType: string): Result<seq<Value>> {
    Then(Then(PairSteps(fromData, joinData, logic, mapper, |fromData|),
              if KeepsLeft(joinType) then LeftSteps(fromData, joinData, logic, mapper, |fromData|) else Ok([])),
         if KeepsRight(joinType) then RightSteps(fromData, joinData, logic, mapper, |fromData|) else Ok([]))
  }

  lemma {:induction false} RowStepsFail(fromData: seq<Value>, joinData: seq<Value>, logic: Logic, mapper: JoinMapper, fix: nat, k: nat, n: nat)
    requires fix < |fromData| && k <= n <= |joinData|
    requires RowSteps(fromData, joinData, logic, mapper, fix, k).Err?
    ensures RowSteps(fromData, joinData, logic, mapper, fix, n) == RowSteps(fromData, joinData, logic, mapper, fix, k)
  {
    if n > k {
      RowStepsFail(fromData, joinData, logic, mapper, fix, k, n - 1);
    }
  }

  lemma {:induction false} PairStepsFail(fromData: seq<Value>, joinData: seq<Value>, logic: Logic, mapper: JoinMapper, k: nat, m: nat)
    requires k <= m <= |fromData|
    requires PairSteps(fromData, joinData, logic, mapper, k).Err?
    ensures PairSteps(fromData, joinData, logic, mapper, m) == PairSteps(fromData, joinData, logic, mapper, k)
  {
    if m > k {
      PairStepsFail(fromData, joinData, logic, mapper, k, m - 1);
    }
  }

  lemma {:induction false} LeftStepsFail(fromData: seq<Value>, joinData: seq<Value>, logic: Logic, mapper: JoinMapper, k: nat, m: nat)
    requires k <= m <= |fromData|
    requires LeftSteps(fromData, joinData, logic, mapper, k).Err?
    ensures LeftSteps(fromData, joinData, logic, mapper, m) == LeftSteps(fromData, joinData, logic, mapper, k)
  {
    if m > k {
      LeftStepsFail(fromData, joinData, logic, mapper, k, m - 1);
      ThenFailed(LeftSteps(fromData, joinData, logic, mapper, m - 1), LeftStep(fromData, joinData, logic, mapper, m - 1));
    }
  }

  lemma {:induction false} RightStepsFail(fromData: seq<Value>, joinData: seq<Value>, logic: Logic, mapper: JoinMapper, k: nat, m: nat)
    requires k <= m <= |fromData|
    requires RightSteps(fromData, joinData, logic, mapper, k).Err?
    ensures RightSteps(fromData, joinData, logic, mapper, m) == RightSteps(fromData, joinData, logic, mapper, k)
  {
    if m > k {
      RightStepsFail(fromData, joinData, logic, mapper, k, m - 1);
      ThenFailed(RightSteps(fromData, joinData, logic, mapper, m - 1), RightStep(fromData, joinData, logic, mapper, m - 1));
    }
  }

  lemma FromHitStep(fromData: seq<Value>, joinData: seq<Value>, logic: Logic, fix: nat, n: nat)
    requires fix < |fromData| && n < |joinData|
    ensures FromHit(fromData, joinData, logic, fix, n + 1) <==>
      FromHit(fromData, joinData, logic, fix, n) || Hit(logic, fromData[fix], joinData[n])
  {
    if FromHit(fromData, joinData, logic, fix, n + 1) {
      var j :| 0 <= j < n + 1 && Hit(logic, fromData[fix], joinData[j]);
      if j < n { assert FromHit(fromData, joinData, logic, fix, n); }
    }
  }

  lemma JoinHitStep(fromData: seq<Value>, joinData: seq<Value>, logic: Logic, jix: nat, m: nat)
    requires jix < |joinData| && m < |fromData|
    ensures JoinHit(fromData, joinData, logic, jix, m + 1) <==>
      JoinHit(fromData, joinData, logic, jix, m) || Hit(logic, fromData[m], joinData[jix])
  {
    if JoinHit(fromData, joinData, logic, jix, m + 1) {
      var i :| 0 <= i < m + 1 && Hit(logic, fromData[i], joinData[jix]);
      if i < m { assert JoinHit(fromData, joinData, logic, jix, m); }
    }
  }

  /** An inner loop join pushes the matched pairs and nothing else. */
  lemma InnerLoopJoin(fromData: seq<Value>, joinData: seq<Value>, logic: Logic, mapper: JoinMapper)
    ensures LoopJoined(fromData, joinData, logic, mapper, "inner") == PairSteps(fromData, joinData, logic, mapper, |fromData|)
  {
    assert !KeepsLeft("inner") && !KeepsRight("inner");
    var p := PairSteps(fromData, joinData, logic, mapper, |fromData|);
    ThenNothing(p);
    ThenNothing(Then(p, Ok([])));
  }

  /** The right pass walks the from-indices: with no from-rows, a right join pushes no
      join-row at all, though every join-row went unmatched. */
  lemma RightLoopJoinSkipsJoinRows(joinData: seq<Value>, logic: Logic, mapper: JoinMapper)
    requires joinData != []
    ensures LoopJoined([], joinData, logic, mapper, "right") == Ok([])
    ensures !JoinHit([], joinData, logic, 0, 0)
  {
    assert !KeepsLeft("right") && KeepsRight("right");
    assert RightSteps([], joinData, logic, mapper, 0) == Ok([]);
    var none: seq<Value> := [];
    assert none + none == none;
  }

  /** With more from-rows than join-rows, the right pass maps `undefined` for the indices
      past the join-rows. */
  lemma RightLoopJoinReadsPastEnd(fromRow: Value, logic: Logic, mapper: JoinMapper)
    requires !Hit(logic, fromRow, fromRow)
    requires Holds(logic, fromRow, fromRow).Ok?
    requires MapRow(mapper, Obj([]), Undef).Ok? && MapRow(mapper, Obj([]), fromRow).Ok?
    ensures LoopJoined([fromRow, fromRow], [fromRow], logic, mapper, "right")
      == Ok([MapRow(mapper, Obj([]), fromRow).value, MapRow(mapper, Obj([]), Undef).value])
  {
    var fromData, joinData := [fromRow, fromRow], [fromRow];
    var none: seq<Value> := [];
    var a, b := MapRow(mapper, Obj([]), fromRow).value, MapRow(mapper, Obj([]), Undef).value;
    PastEndPairs(fromRow, logic, mapper);
    PastEndRight(fromRow, logic, mapper);
    assert !KeepsLeft("right") && KeepsRight("right");
    assert Then(Ok([]), Ok([])) == Ok(none);
    assert none + [a, b] == [a, b];
  }

  lemma PastEndPairs(fromRow: Value, logic: Logic, mapper: JoinMapper)
    requires !Hit(logic, fromRow, fromRow) && Holds(logic, fromRow, fromRow).Ok?
    ensures PairSteps([fromRow, fromRow], [fromRow], logic, mapper, 2) == Ok([])
    ensures !JoinHitAt([fromRow, fromRow], [fromRow], logic, 0) && !JoinHitAt([fromRow, fromRow], [fromRow], logic, 1)
  {
    var fromData, joinData := [fromRow, fromRow], [fromRow];
    var none: seq<Value> := [];
    assert none + none == none;
    assert PairStep(fromData, joinData, logic, mapper, 0, 0) == Ok([]);
    assert PairStep(fromData, joinData, logic, mapper, 1, 0) == Ok([]);
    assert RowSteps(fromData, joinData, logic, mapper, 0, 1) == Ok([]);
    assert RowSteps(fromData, joinData, logic, mapper, 1, 1) == Ok([]);
    assert PairSteps(fromData, joinData, logic, mapper, 1) == Ok([]);
    assert !JoinHit(fromData, joinData, logic, 0, 2);
  }

  lemma PastEndRight(fromRow: Value, logic: Logic, mapper: JoinMapper)
    requires !JoinHitAt([fromRow, fromRow], [fromRow], logic, 0) && !JoinHitAt([fromRow, fromRow], [fromRow], logic, 1)
    requires MapRow(mapper, Obj([]), Undef).Ok? && MapRow(mapper, Obj([]), fromRow).Ok?
    ensures RightSteps([fromRow, fromRow], [fromRow], logic, mapper, 2)
      == Ok([MapRow(mapper, Obj([]), fromRow).value, MapRow(mapper, Obj([]), Undef).value])
  {
    var fromData, joinData := [fromRow, fromRow], [fromRow];
    var none: seq<Value> := [];
    var a, b := MapRow(mapper, Obj([]), fromRow).value, MapRow(mapper, Obj([]), Undef).value;
    assert RightSteps(fromData, joinData, logic, mapper, 0) == Ok([]);
    assert none + [a] == [a];
    assert RightSteps(fromData, joinData, logic, mapper, 1) == Ok([a]);
    assert [a] + [b] == [a, b];
  }

  // ---------------------------------------------------------------------------
  // executeHashJoin.

  /** Each row of a from-bucket mapped with the join-row, in bucket order. */
  function MapBucket(bucket: seq<Value>, joinRow: Value, mapper: JoinMapper): Result<seq<Value>>
    decreases |bucket|
  {
    if bucket == [] then Ok([])
    else Then(MapBucket(bucket[..|bucket| - 1], joinRow, mapper), One(MapRow(mapper, bucket[|bucket| - 1], joinRow)))
  }

  /** The pushes so far and the bucket map. */
  datatype Pass = Pass(out: seq<Value>, table: Table)

  /** One join-row: its from-bucket is removed and mapped against it; with no bucket, a
      right or full join pushes `{}` and the join-row as two separate rows. */
  function ProbeStep(t: Table, joinRow: Value, joinSel: Selector, mapper: JoinMapper, joinType: string): Result<Pass> {
    match KeyOf(joinSel, joinRow)
    case None => Err(NullKey)
    case Some(k) =>
      if k in t.buckets then
        match MapBucket(t.buckets[k], joinRow, mapper)
        case Err(e) => Err(e)
        case Ok(o) => Ok(Pass(o, RemoveKey(t, k)))
      else Ok(Pass(if KeepsRight(joinType) then [Obj([]), joinRow] else [], RemoveKey(t, k)))
  }

  /** The join-row loop over the first rows. */
  function Probe(t: Table, joinRows: seq<Value>, joinSel: Selector, mapper: JoinMapper, joinType: string): Result<Pass>
    decreases |joinRows|
  {
    if joinRows == [] then Ok(Pass([], t))
    else
      match Probe(t, joinRows[..|joinRows| - 1], joinSel, mapper, joinType)
      case Err(e) => Err(e)
      case Ok(p) =>
        match ProbeStep(p.table, joinRows[|joinRows| - 1], joinSel, mapper, joinType)
        case Err(e) => Err(e)
        case Ok(q) => Ok(Pass(p.out + q.out, q.table))
  }

  /** The from-rows still in the map, bucket after bucket in key order. */
  function Remaining(order: seq<string>, t: Table): seq<Value>
    decreases |order|
  {
    if order == [] then [] else Remaining(order[..|order| - 1], t) + Lookup(t, order[|order| - 1])
  }

  /** `results.push(fromRow, {})` for each row: the row unmapped, then an empty object. */
  function Leftovers(rows: seq<Value>): seq<Value>
    decreases |rows|
  {
    if rows == [] then [] else Leftovers(rows[..|rows| - 1]) + [rows[|rows| - 1], Obj([])]
  }

  /** Each row is pushed unmapped at an even position, followed by an empty object. */
  lemma {:induction false} LeftoversShape(rows: seq<Value>)
    ensures |Leftovers(rows)| == 2 * |rows|
    ensures forall i :: 0 <= i < |rows| ==> Leftovers(rows)[2 * i] == rows[i] && Leftovers(rows)[2 * i + 1] == Obj([])
    decreases |rows|
  {
    if rows != [] {
      LeftoversShape(rows[..|rows| - 1]);
    }
  }

  /** What `executeHashJoin` pushes, or the first failure. */
  function HashJoined(fromData: seq<Value>, joinData: seq<Value>, fromSel: Selector, joinSel: Selector,
                      mapper: JoinMapper, joinType: string): Result<seq<Value>>
  {
    match Grouped(fromData, fromSel)
    case None => Err(NullKey)
    case Some(t) =>
      match Probe(t, joinData, joinSel, mapper, joinType)
      case Err(e) => Err(e)
      case Ok(p) => Ok(p.out + (if KeepsLeft(joinType) then Leftovers(Remaining(p.table.order, p.table)) else []))
  }

  /** An unmatched join-row in a right hash join is pushed as two rows, `{}` and the row
      itself, and the mapper is not called. */
  lemma RightHashJoinPushesPair(joinRow: Value, fromSel: Selector, joinSel: Selector, mapper: JoinMapper)
    requires !joinSel(joinRow).Null?
    ensures HashJoined([], [joinRow], fromSel, joinSel, mapper, "right") == Ok([Obj([]), joinRow])
  {
    assert [joinRow][..0] == [];
    var k := KeyOf(joinSel, joinRow).value;
    assert Grouped([], fromSel) == Some(EmptyTable);
    assert KeepsRight("right") && !KeepsLeft("right");
    assert ProbeStep(EmptyTable, joinRow, joinSel, mapper, "right") == Ok(Pass([Obj([]), joinRow], RemoveKey(EmptyTable, k)));
    var none: seq<Value> := [];
    assert Probe(EmptyTable, [], joinSel, mapper, "right") == Ok(Pass([], EmptyTable));
    assert Probe(EmptyTable, [joinRow], joinSel, mapper, "right") == Ok(Pass(none + [Obj([]), joinRow], RemoveKey(EmptyTable, k)));
    assert none + [Obj([]), joinRow] + none == [Obj([]), joinRow];
  }

  /** An unmatched from-row in a left hash join is pushed unmapped, followed by `{}`. */
  lemma LeftHashJoinPushesPair(fromRow: Value, fromSel: Selector, joinSel: Selector, mapper: JoinMapper)
    requires !fromSel(fromRow).Null?
    ensures HashJoined([fromRow], [], fromSel, joinSel, mapper, "left") == Ok([fromRow, Obj([])])
  {
    var k := KeyOf(fromSel, fromRow).value;
    var t := Table([k], map[k := [fromRow]]);
    GroupedSingle(fromRow, fromSel);
    assert Probe(t, [], joinSel, mapper, "left") == Ok(Pass([], t));
    SingleLeftover(k, fromRow);
    assert KeepsLeft("left");
  }

  lemma GroupedSingle(row: Value, sel: Selector)
    requires !sel(row).Null?
    ensures Grouped([row], sel) == Some(Table([KeyOf(sel, row).value], map[KeyOf(sel, row).value := [row]]))
  {
    var k := KeyOf(sel, row).value;
    var t := Table([k], map[k := [row]]);
    assert AddOne(EmptyTable, k, row) == t;
    assert [row][1..] == [];
    assert AddAll(t, [], sel) == Some(t);
  }

  lemma SingleLeftover(k: string, row: Value)
    ensures Leftovers(Remaining([k], Table([k], map[k := [row]]))) == [row, Obj([])]
  {
    assert [k][..0] == [];
    assert Remaining([k], Table([k], map[k := [row]])) == [row];
    assert [row][..0] == [];
  }

  lemma {:induction false} MapBucketFail(bucket: seq<Value>, joinRow: Value, mapper: JoinMapper, k: nat)
    requires k <= |bucket| && MapBucket(bucket[..k], joinRow, mapper).Err?
    ensures MapBucket(bucket, joinRow, mapper) == MapBucket(bucket[..k], joinRow, mapper)
    decreases |bucket| - k
  {
    if k < |bucket| {
      assert bucket[..k + 1][..k] == bucket[..k];
      MapBucketFail(bucket, joinRow, mapper, k + 1);
    } else {
      assert bucket[..k] == bucket;
    }
  }

  lemma {:induction false} ProbeFail(t: Table, joinRows: seq<Value>, joinSel: Selector, mapper: JoinMapper, joinType: string, k: nat)
    requires k <= |joinRows| && Probe(t, joinRows[..k], joinSel, mapper, joinType).Err?
    ensures Probe(t, joinRows, joinSel, mapper, joinType).Err?
    ensures Probe(t, joinRows, joinSel, mapper, joinType).error == Probe(t, joinRows[..k], joinSel, mapper, joinType).error
    decreases |joinRows| - k
  {
    if k < |joinRows| {
      assert joinRows[..k + 1][..k] == joinRows[..k];
      ProbeFail(t, joinRows, joinSel, mapper, joinType, k + 1);
    } else {
      assert joinRows[..k] == joinRows;
    }
  }

  lemma RemainingSnoc(order: seq<string>, i: nat, t: Table)
    requires i < |order|
    ensures Remaining(order[..i + 1], t) == Remaining(order[..i], t) + Lookup(t, order[i])
  {
    assert order[..i + 1][..i] == order[..i];
  }

  // ---------------------------------------------------------------------------
  // The hash join, join-row by join-row.

  /** Some row of `earlier` has key signature `k`. */
  predicate KeyTaken(earlier: seq<Value>, joinSel: Selector, k: string) {
    exists i :: 0 <= i < |earlier| && KeyOf(joinSel, earlier[i]) == Some(k)
  }

  /** The reference meaning of one join-row's pushes, after the join-rows `earlier`: the
      first join-row with a key gets every from-row with that key, in input order, each
      mapped against it; a join-row whose key an earlier one took, or that no from-row
      has, gets nothing, or `{}` and itself in a right or full join. */
  function JoinShare(fromData: seq<Value>, fromSel: Selector, joinSel: Selector, mapper: JoinMapper,
                     joinType: string, earlier: seq<Value>, joinRow: Value): Result<seq<Value>> {
    match KeyOf(joinSel, joinRow)
    case None => Err(NullKey)
    case Some(k) =>
      var bucket := if KeyTaken(earlier, joinSel, k) then [] else Matching(fromData, fromSel, k);
      if bucket != [] then MapBucket(bucket, joinRow, mapper)
      else Ok(if KeepsRight(joinType) then [Obj([]), joinRow] else [])
  }

  /** Each join-row's share in turn; the first failure stops them. */
  function JoinShares(fromData: seq<Value>, joinRows: seq<Value>, fromSel: Selector, joinSel: Selector,
                      mapper: JoinMapper, joinType: string): Result<seq<Value>>
    decreases |joinRows|
  {
    if joinRows == [] then Ok([])
    else
      var front := joinRows[..|joinRows| - 1];
      Then(JoinShares(fromData, front, fromSel, joinSel, mapper, joinType),
           JoinShare(fromData, fromSel, joinSel, mapper, joinType, front, joinRows[|joinRows| - 1]))
  }

  /** The key signatures of the join-rows, in order. */
  function JoinKeys(joinRows: seq<Value>, joinSel: Selector): seq<string>
    decreases |joinRows|
  {
    if joinRows == [] then []
    else
      JoinKeys(joinRows[..|joinRows| - 1], joinSel)
      + (match KeyOf(joinSel, joinRows[|joinRows| - 1]) case Some(k) => [k] case None => [])
  }

  lemma {:induction false} JoinKeysTaken(joinRows: seq<Value>, joinSel: Selector, k: string)
    ensures k in JoinKeys(joinRows, joinSel) <==> KeyTaken(joinRows, joinSel, k)
    decreases |joinRows|
  {
    if joinRows != [] {
      var front, last := joinRows[..|joinRows| - 1], joinRows[|joinRows| - 1];
      var tail := match KeyOf(joinSel, last) case Some(k') => [k'] case None => [];
      assert JoinKeys(joinRows, joinSel) == JoinKeys(front, joinSel) + tail;
      assert k in tail <==> KeyOf(joinSel, last) == Some(k);
      JoinKeysTaken(front, joinSel, k);
      if KeyTaken(front, joinSel, k) {
        var i :| 0 <= i < |front| && KeyOf(joinSel, front[i]) == Some(k);
        assert joinRows[i] == front[i];
      }
      if KeyTaken(joinRows, joinSel, k) {
        var i :| 0 <= i < |joinRows| && KeyOf(joinSel, joinRows[i]) == Some(k);
        if i < |front| { assert front[i] == joinRows[i]; }
      }
    }
  }

  /** What is left of a from-bucket once the earlier join-rows took their keys. */
  lemma RemainingBucket(fromData: seq<Value>, t: Table, earlier: seq<Value>, fromSel: Selector, joinSel: Selector, k: string)
    requires Grouped(fromData, fromSel) == Some(t)
    ensures var r := RemoveKeys(t, JoinKeys(earlier, joinSel));
      (k in r.buckets <==> Matching(fromData, fromSel, k) != [] && !KeyTaken(earlier, joinSel, k))
      && (k in r.buckets ==> r.buckets[k] == Matching(fromData, fromSel, k))
  {
    RemoveKeysContents(t, JoinKeys(earlier, joinSel));
    GroupedBuckets(fromData, fromSel, k);
    MatchingNonEmpty(fromData, fromSel, k);
    JoinKeysTaken(earlier, joinSel, k);
  }

  /** One more join-row with key `k` removes `k` as well. */
  lemma RemoveJoinKeysSnoc(t: Table, earlier: seq<Value>, joinRow: Value, joinSel: Selector, k: string)
    requires KeyOf(joinSel, joinRow) == Some(k)
    ensures RemoveKeys(t, JoinKeys(earlier + [joinRow], joinSel)) == RemoveKey(RemoveKeys(t, JoinKeys(earlier, joinSel)), k)
  {
    var rows, ks := earlier + [joinRow], JoinKeys(earlier, joinSel);
    assert rows[..|rows| - 1] == earlier;
    assert JoinKeys(rows, joinSel) == ks + [k];
    assert (ks + [k])[..|ks|] == ks;
  }

  /** One probe agrees with the join-row's share, and deletes its key from the map. */
  lemma ProbeStepShare(fromData: seq<Value>, t: Table, earlier: seq<Value>, joinRow: Value, fromSel: Selector,
                       joinSel: Selector, mapper: JoinMapper, joinType: string)
    requires Grouped(fromData, fromSel) == Some(t)
    ensures var q := ProbeStep(RemoveKeys(t, JoinKeys(earlier, joinSel)), joinRow, joinSel, mapper, joinType);
      var share := JoinShare(fromData, fromSel, joinSel, mapper, joinType, earlier, joinRow);
      (q.Ok? <==> share.Ok?) && (q.Err? ==> q.error == share.error)
      && (q.Ok? ==> q.value.out == share.value
                    && q.value.table == RemoveKeys(t, JoinKeys(earlier + [joinRow], joinSel)))
  {
    if KeyOf(joinSel, joinRow).Some? {
      var k := KeyOf(joinSel, joinRow).value;
      RemainingBucket(fromData, t, earlier, fromSel, joinSel, k);
      RemoveJoinKeysSnoc(t, earlier, joinRow, joinSel, k);
    }
  }

  /** The join-row loop pushes each join-row's share in turn, and leaves in the map the
      from-buckets whose key no join-row has. */
  lemma {:induction false} ProbeShares(fromData: seq<Value>, t: Table, joinRows: seq<Value>, fromSel: Selector,
                                       joinSel: Selector, mapper: JoinMapper, joinType: string)
    requires Grouped(fromData, fromSel) == Some(t)
    ensures var p := Probe(t, joinRows, joinSel, mapper, joinType);
      var o := JoinShares(fromData, joinRows, fromSel, joinSel, mapper, joinType);
      (p.Ok? <==> o.Ok?) && (p.Err? ==> p.error == o.error)
      && (p.Ok? ==> p.value.out == o.value && p.value.table == RemoveKeys(t, JoinKeys(joinRows, joinSel)))
    decreases |joinRows|
  {
    if joinRows == [] {
      assert RemoveKeys(t, []) == t;
    } else {
      var front, last := joinRows[..|joinRows| - 1], joinRows[|joinRows| - 1];
      ProbeShares(fromData, t, front, fromSel, joinSel, mapper, joinType);
      ProbeStepShare(fromData, t, front, last, fromSel, joinSel, mapper, joinType);
      assert front + [last] == joinRows;
    }
  }

  /** The hash join, for all inputs: once the from-rows are bucketed, its pushes are the
      join-rows' shares in turn, followed in a left or full join by the from-rows whose
      key no join-row has, each with `{}`; it fails exactly when a share does. */
  lemma HashJoinByJoinRows(fromData: seq<Value>, joinData: seq<Value>, fromSel: Selector, joinSel: Selector,
                           mapper: JoinMapper, joinType: string)
    requires Grouped(fromData, fromSel).Some?
    ensures var rest := RemoveKeys(Grouped(fromData, fromSel).value, JoinKeys(joinData, joinSel));
      HashJoined(fromData, joinData, fromSel, joinSel, mapper, joinType)
        == match JoinShares(fromData, joinData, fromSel, joinSel, mapper, joinType)
           case Err(e) => Err(e)
           case Ok(o) => Ok(o + (if KeepsLeft(joinType) then Leftovers(Remaining(rest.order, rest)) else []))
  {
    ProbeShares(fromData, Grouped(fromData, fromSel).value, joinData, fromSel, joinSel, mapper, joinType);
  }

  /** An inner or right hash join pushes exactly the join-rows' shares. */
  lemma InnerHashJoin(fromData: seq<Value>, joinData: seq<Value>, fromSel: Selector, joinSel: Selector,
                      mapper: JoinMapper, joinType: string)
    requires Grouped(fromData, fromSel).Some? && !KeepsLeft(joinType)
    ensures HashJoined(fromData, joinData, fromSel, joinSel, mapper, joinType)
      == JoinShares(fromData, joinData, fromSel, joinSel, mapper, joinType)
  {
    HashJoinByJoinRows(fromData, joinData, fromSel, joinSel, mapper, joinType);
    var o := JoinShares(fromData, joinData, fromSel, joinSel, mapper, joinType);
    if o.Ok? {
      assert o.value + [] == o.value;
    }
  }

  // ---------------------------------------------------------------------------
  // execute.

  /** `ml[i]` of a parameter list: `undefined` when absent. */
  function ParamOpt(ps: seq<string>, i: nat): Option<string> {
    if i < |ps| then Some(ps[i]) else None
  }

  /** The mapper check of `execute`: with a predicate as matching logic, a mapper
      function must agree with it on the first two parameter names. */
  function CheckMapper(logic: Logic, mapper: JoinMapper): Result<bool> {
    if mapper.JoinMapperFn? && logic.LogicFn? then
      match Parameters(logic.text)
      case Err(e) => Err(e)
      case Ok(ml) =>
        match Parameters(mapper.text)
        case Err(e) => Err(e)
        case Ok(mp) => if ParamOpt(ml, 0) != ParamOpt(mp, 0) || ParamOpt(ml, 1) != ParamOpt(mp, 1) then Err(ParameterMismatch) else Ok(true)
    else Ok(true)
  }

  /** What `execute` pushes, or the first failure. */
  function Executed(fromData: seq<Value>, joinData: seq<Value>, joinType: string, algorithm: string,
                    logic: Logic, mapper: JoinMapper, eval: Evaluator): Result<seq<Value>>
  {
    match CheckMapper(logic, mapper)
    case Err(e) => Err(e)
    case Ok(_) =>
      if algorithm == "hash" then
        match logic
        case SelectorPair(fromSel, joinSel) =>
          HashJoined(fromData, joinData, fromSel, if joinSel.Some? then joinSel.value else fromSel, mapper, joinType)
        case LogicFn(text, _) =>
          match Decomposition(text)
          case Err(e) => Err(e)
          case Ok(None) => Err(CannotParseSelectors)
          case Ok(Some(h)) => HashJoined(fromData, joinData, LeftSelector(h, eval), RightSelector(h, eval), mapper, joinType)
      else LoopJoined(fromData, joinData, logic, mapper, joinType)
  }

  /** Hashing needs selectors: a predicate the parser cannot decompose is refused. */
  lemma HashJoinNeedsSelectors(fromData: seq<Value>, joinData: seq<Value>, joinType: string, text: string,
                               holds: (Value, Value) -> bool, eval: Evaluator)
    requires Decomposition(text) == Ok(None)
    ensures Executed(fromData, joinData, joinType, "hash", LogicFn(text, holds), DefaultJoinMapper, eval) == Err(CannotParseSelectors)
    ensures Executed(fromData, joinData, joinType, "loop", LogicFn(text, holds), DefaultJoinMapper, eval)
      == LoopJoined(fromData, joinData, LogicFn(text, holds), DefaultJoinMapper, joinType)
  {
  }

  /** A mapper whose first two parameter names differ from the predicate's is refused
      whatever the algorithm. */
  lemma MapperParametersChecked(fromData: seq<Value>, joinData: seq<Value>, joinType: string, algorithm: string,
                                logic: Logic, mapper: JoinMapper, eval: Evaluator)
    requires logic.LogicFn? && mapper.JoinMapperFn?
    requires Parameters(logic.text).Ok? && Parameters(mapper.text).Ok?
    requires ParamOpt(Parameters(logic.text).value, 0) != ParamOpt(Parameters(mapper.text).value, 0)
    ensures Executed(fromData, joinData, joinType, algorithm, logic, mapper, eval) == Err(ParameterMismatch)
  {
  }

  // ---------------------------------------------------------------------------
  // What a join has pushed when it throws.
  //
  // A push onto `results` is not undone by a later throw. A step that fails before its
  // own push pushes nothing, so what a loop has pushed when it throws is the result of
  // the longest run of steps that did not throw, followed by whatever the failing step
  // pushed itself before it threw.

  /** The inner pair loop for from-row `fix` over the first `n` join-rows. */
  function RowPushed(fromData: seq<Value>, joinData: seq<Value>, logic: Logic, mapper: JoinMapper, fix: nat, n: nat): seq<Value>
    requires fix < |fromData| && n <= |joinData|
  {
    if n == 0 then []
    else match RowSteps(fromData, joinData, logic, mapper, fix, n)
      case Ok(v) => v
      case Err(_) => RowPushed(fromData, joinData, logic, mapper, fix, n - 1)
  }

  /** The pair loop over the first `m` from-rows: a from-row that throws keeps what its
      inner loop pushed. */
  function PairPushed(fromData: seq<Value>, joinData: seq<Value>, logic: Logic, mapper: JoinMapper, m: nat): seq<Value>
    requires m <= |fromData|
  {
    if m == 0 then []
    else match PairSteps(fromData, joinData, logic, mapper, m)
      case Ok(v) => v
      case Err(_) =>
        match PairSteps(fromData, joinData, logic, mapper, m - 1)
        case Err(_) => PairPushed(fromData, joinData, logic, mapper, m - 1)
        case Ok(v) => v + RowPushed(fromData, joinData, logic, mapper, m - 1, |joinData|)
  }

  /** The left pass over the first `m` from-rows. */
  function LeftPushed(fromData: seq<Value>, joinData: seq<Value>, logic: Logic, mapper: JoinMapper, m: nat): seq<Value>
    requires m <= |fromData|
  {
    if m == 0 then []
    else match LeftSteps(fromData, joinData, logic, mapper, m)
      case Ok(v) => v
      case Err(_) => LeftPushed(fromData, joinData, logic, mapper, m - 1)
  }

  /** The right pass over the first `m` from-indices. */
  function RightPushed(fromData: seq<Value>, joinData: seq<Value>, logic: Logic, mapper: JoinMapper, m: nat): seq<Value>
    requires m <= |fromData|
  {
    if m == 0 then []
    else match RightSteps(fromData, joinData, logic, mapper, m)
      case Ok(v) => v
      case Err(_) => RightPushed(fromData, joinData, logic, mapper, m - 1)
  }

  /** What `executeLoopJoin` pushes before it returns or throws. */
  function LoopPushed(fromData: seq<Value>, joinData: seq<Value>, logic: Logic, mapper: JoinMapper, joinType: string): seq<Value> {
    var n := |fromData|;
    match LoopJoined(fromData, joinData, logic, mapper, joinType)
    case Ok(v) => v
    case Err(_) =>
      match PairSteps(fromData, joinData, logic, mapper, n)
      case Err(_) => PairPushed(fromData, joinData, logic, mapper, n)
      case Ok(p) =>
        if KeepsLeft(joinType) && LeftSteps(fromData, joinData, logic, mapper, n).Err? then
          p + LeftPushed(fromData, joinData, logic, mapper, n)
        else
          p + (if KeepsLeft(joinType) then LeftSteps(fromData, joinData, logic, mapper, n).value else [])
            + RightPushed(fromData, joinData, logic, mapper, n)
  }

  /** An inner pair loop that does not throw pushes its whole result. */
  lemma RowPushedOk(fromData: seq<Value>, joinData: seq<Value>, logic: Logic, mapper: JoinMapper, fix: nat, n: nat)
    requires fix < |fromData| && n <= |joinData| && RowSteps(fromData, joinData, logic, mapper, fix, n).Ok?
    ensures RowPushed(fromData, joinData, logic, mapper, fix, n) == RowSteps(fromData, joinData, logic, mapper, fix, n).value
  {
  }

  lemma {:induction false} RowPushedFail(fromData: seq<Value>, joinData: seq<Value>, logic: Logic, mapper: JoinMapper, fix: nat, k: nat, n: nat)
    requires fix < |fromData| && k <= n <= |joinData| && RowSteps(fromData, joinData, logic, mapper, fix, k).Err?
    ensures RowPushed(fromData, joinData, logic, mapper, fix, n) == RowPushed(fromData, joinData, logic, mapper, fix, k)
  {
    if n > k {
      RowStepsFail(fromData, joinData, logic, mapper, fix, k, n);
      RowPushedSkip(fromData, joinData, logic, mapper, fix, n);
      RowPushedFail(fromData, joinData, logic, mapper, fix, k, n - 1);
    }
  }

  lemma RowPushedSkip(fromData: seq<Value>, joinData: seq<Value>, logic: Logic, mapper: JoinMapper, fix: nat, n: nat)
    requires fix < |fromData| && 0 < n <= |joinData| && RowSteps(fromData, joinData, logic, mapper, fix, n).Err?
    ensures RowPushed(fromData, joinData, logic, mapper, fix, n) == RowPushed(fromData, joinData, logic, mapper, fix, n - 1)
  {
  }

  /** When join-row `jix` is the first of the inner loop to throw, the loop has pushed
      what the join-rows before it produced. */
  lemma RowPushedStops(fromData: seq<Value>, joinData: seq<Value>, logic: Logic, mapper: JoinMapper, fix: nat, jix: nat, out: seq<Value>)
    requires fix < |fromData| && jix < |joinData|
    requires RowSteps(fromData, joinData, logic, mapper, fix, jix) == Ok(out)
    requires RowSteps(fromData, joinData, logic, mapper, fix, jix + 1).Err?
    ensures RowPushed(fromData, joinData, logic, mapper, fix, |joinData|) == out
  {
    RowPushedFail(fromData, joinData, logic, mapper, fix, jix + 1, |joinData|);
    assert RowPushed(fromData, joinData, logic, mapper, fix, jix + 1) == RowPushed(fromData, joinData, logic, mapper, fix, jix);
  }

  lemma {:induction false} PairPushedFail(fromData: seq<Value>, joinData: seq<Value>, logic: Logic, mapper: JoinMapper, k: nat, m: nat)
    requires k <= m <= |fromData| && PairSteps(fromData, joinData, logic, mapper, k).Err?
    ensures PairPushed(fromData, joinData, logic, mapper, m) == PairPushed(fromData, joinData, logic, mapper, k)
  {
    if m > k {
      PairStepsFail(fromData, joinData, logic, mapper, k, m);
      PairStepsFail(fromData, joinData, logic, mapper, k, m - 1);
      PairPushedSkip(fromData, joinData, logic, mapper, m);
      PairPushedFail(fromData, joinData, logic, mapper, k, m - 1);
    }
  }

  lemma PairPushedSkip(fromData: seq<Value>, joinData: seq<Value>, logic: Logic, mapper: JoinMapper, m: nat)
    requires 0 < m <= |fromData| && PairSteps(fromData, joinData, logic, mapper, m).Err? && PairSteps(fromData, joinData, logic, mapper, m - 1).Err?
    ensures PairPushed(fromData, joinData, logic, mapper, m) == PairPushed(fromData, joinData, logic, mapper, m - 1)
  {
  }

  /** When from-row `fix` is the first of the pair loop to throw, the loop has pushed
      what the from-rows before it produced, then what its own inner loop pushed. */
  lemma PairPushedStops(fromData: seq<Value>, joinData: seq<Value>, logic: Logic, mapper: JoinMapper, fix: nat, out: seq<Value>)
    requires fix < |fromData|
    requires PairSteps(fromData, joinData, logic, mapper, fix) == Ok(out)
    requires RowSteps(fromData, joinData, logic, mapper, fix, |joinData|).Err?
    ensures PairPushed(fromData, joinData, logic, mapper, |fromData|) == out + RowPushed(fromData, joinData, logic, mapper, fix, |joinData|)
  {
    PairStepsThrow(fromData, joinData, logic, mapper, fix, out);
    PairPushedThrow(fromData, joinData, logic, mapper, fix, out);
    PairPushedFail(fromData, joinData, logic, mapper, fix + 1, |fromData|);
  }

  lemma PairStepsThrow(fromData: seq<Value>, joinData: seq<Value>, logic: Logic, mapper: JoinMapper, fix: nat, out: seq<Value>)
    requires fix < |fromData|
    requires PairSteps(fromData, joinData, logic, mapper, fix) == Ok(out)
    requires RowSteps(fromData, joinData, logic, mapper, fix, |joinData|).Err?
    ensures PairSteps(fromData, joinData, logic, mapper, fix + 1).Err?
  {
  }

  lemma PairPushedThrow(fromData: seq<Value>, joinData: seq<Value>, logic: Logic, mapper: JoinMapper, fix: nat, out: seq<Value>)
    requires fix < |fromData|
    requires PairSteps(fromData, joinData, logic, mapper, fix) == Ok(out)
    requires PairSteps(fromData, joinData, logic, mapper, fix + 1).Err?
    ensures PairPushed(fromData, joinData, logic, mapper, fix + 1) == out + RowPushed(fromData, joinData, logic, mapper, fix, |joinData|)
  {
  }

  lemma {:induction false} LeftPushedFail(fromData: seq<Value>, joinData: seq<Value>, logic: Logic, mapper: JoinMapper, k: nat, m: nat)
    requires k <= m <= |fromData| && LeftSteps(fromData, joinData, logic, mapper, k).Err?
    ensures LeftPushed(fromData, joinData, logic, mapper, m) == LeftPushed(fromData, joinData, logic, mapper, k)
    decreases m - k
  {
    if m > k {
      LeftStepsThrowOn(fromData, joinData, logic, mapper, k + 1);
      LeftPushedSkip(fromData, joinData, logic, mapper, k + 1);
      LeftPushedFail(fromData, joinData, logic, mapper, k + 1, m);
    }
  }

  lemma LeftStepsThrowOn(fromData: seq<Value>, joinData: seq<Value>, logic: Logic, mapper: JoinMapper, m: nat)
    requires 0 < m <= |fromData| && LeftSteps(fromData, joinData, logic, mapper, m - 1).Err?
    ensures LeftSteps(fromData, joinData, logic, mapper, m).Err?
  {
  }

  lemma LeftPushedSkip(fromData: seq<Value>, joinData: seq<Value>, logic: Logic, mapper: JoinMapper, m: nat)
    requires 0 < m <= |fromData| && LeftSteps(fromData, joinData, logic, mapper, m).Err?
    ensures LeftPushed(fromData, joinData, logic, mapper, m) == LeftPushed(fromData, joinData, logic, mapper, m - 1)
  {
  }

  /** When from-row `fix` is the first of the left pass to throw, the pass has pushed
      what the from-rows before it produced. */
  lemma LeftPushedStops(fromData: seq<Value>, joinData: seq<Value>, logic: Logic, mapper: JoinMapper, fix: nat, out: seq<Value>)
    requires fix < |fromData|
    requires LeftSteps(fromData, joinData, logic, mapper, fix) == Ok(out)
    requires LeftSteps(fromData, joinData, logic, mapper, fix + 1).Err?
    ensures LeftPushed(fromData, joinData, logic, mapper, |fromData|) == out
  {
    LeftPushedFail(fromData, joinData, logic, mapper, fix + 1, |fromData|);
    assert LeftPushed(fromData, joinData, logic, mapper, fix + 1) == LeftPushed(fromData, joinData, logic, mapper, fix);
  }

  lemma {:induction false} RightPushedFail(fromData: seq<Value>, joinData: seq<Value>, logic: Logic, mapper: JoinMapper, k: nat, m: nat)
    requires k <= m <= |fromData| && RightSteps(fromData, joinData, logic, mapper, k).Err?
    ensures RightPushed(fromData, joinData, logic, mapper, m) == RightPushed(fromData, joinData, logic, mapper, k)
    decreases m - k
  {
    if m > k {
      RightStepsThrowOn(fromData, joinData, logic, mapper, k + 1);
      RightPushedSkip(fromData, joinData, logic, mapper, k + 1);
      RightPushedFail(fromData, joinData, logic, mapper, k + 1, m);
    }
  }

  lemma RightStepsThrowOn(fromData: seq<Value>, joinData: seq<Value>, logic: Logic, mapper: JoinMapper, m: nat)
    requires 0 < m <= |fromData| && RightSteps(fromData, joinData, logic, mapper, m - 1).Err?
    ensures RightSteps(fromData, joinData, logic, mapper, m).Err?
  {
  }

  lemma RightPushedSkip(fromData: seq<Value>, joinData: seq<Value>, logic: Logic, mapper: JoinMapper, m: nat)
    requires 0 < m <= |fromData| && RightSteps(fromData, joinData, logic, mapper, m).Err?
    ensures RightPushed(fromData, joinData, logic, mapper, m) == RightPushed(fromData, joinData, logic, mapper, m - 1)
  {
  }

  /** When index `fix` is the first of the right pass to throw, the pass has pushed
      what the indices before it produced. */
  lemma RightPushedStops(fromData: seq<Value>, joinData: seq<Value>, logic: Logic, mapper: JoinMapper, fix: nat, out: seq<Value>)
    requires fix < |fromData|
    requires RightSteps(fromData, joinData, logic, mapper, fix) == Ok(out)
    requires RightSteps(fromData, joinData, logic, mapper, fix + 1).Err?
    ensures RightPushed(fromData, joinData, logic, mapper, |fromData|) == out
  {
    RightPushedFail(fromData, joinData, logic, mapper, fix + 1, |fromData|);
    assert RightPushed(fromData, joinData, logic, mapper, fix + 1) == RightPushed(fromData, joinData, logic, mapper, fix);
  }

  /** A from-bucket mapped row by row: a mapper that throws keeps the rows mapped
      before it. */
  function BucketPushed(bucket: seq<Value>, joinRow: Value, mapper: JoinMapper): seq<Value>
    decreases |bucket|
  {
    if bucket == [] then []
    else match MapBucket(bucket, joinRow, mapper)
      case Ok(v) => v
      case Err(_) => BucketPushed(bucket[..|bucket| - 1], joinRow, mapper)
  }

  lemma {:induction false} BucketPushedFail(bucket: seq<Value>, joinRow: Value, mapper: JoinMapper, k: nat)
    requires k <= |bucket| && MapBucket(bucket[..k], joinRow, mapper).Err?
    ensures BucketPushed(bucket, joinRow, mapper) == BucketPushed(bucket[..k], joinRow, mapper)
    decreases |bucket|
  {
    if k < |bucket| {
      var init := bucket[..|bucket| - 1];
      MapBucketFail(bucket, joinRow, mapper, k);
      assert init[..k] == bucket[..k];
      BucketPushedFail(init, joinRow, mapper, k);
    } else {
      assert bucket[..k] == bucket;
    }
  }

  /** When row `i` of the bucket is the first the mapper throws on, the rows before it
      are pushed. */
  lemma BucketPushedStops(bucket: seq<Value>, joinRow: Value, mapper: JoinMapper, i: nat, out: seq<Value>)
    requires i < |bucket| && MapBucket(bucket[..i], joinRow, mapper) == Ok(out)
    requires MapBucket(bucket[..i + 1], joinRow, mapper).Err?
    ensures BucketPushed(bucket, joinRow, mapper) == out
  {
    BucketPushedFail(bucket, joinRow, mapper, i + 1);
    assert bucket[..i + 1][..i] == bucket[..i];
  }

  /** One join-row of the probe loop; a `null` key throws before anything is pushed. */
  function StepPushed(t: Table, joinRow: Value, joinSel: Selector, mapper: JoinMapper, joinType: string): seq<Value> {
    match KeyOf(joinSel, joinRow)
    case None => []
    case Some(k) =>
      if k in t.buckets then BucketPushed(t.buckets[k], joinRow, mapper)
      else if KeepsRight(joinType) then [Obj([]), joinRow] else []
  }

  /** The probe loop: the join-rows before the first that throws, then what that one
      pushed before it threw. */
  function ProbePushed(t: Table, joinRows: seq<Value>, joinSel: Selector, mapper: JoinMapper, joinType: string): seq<Value>
    decreases |joinRows|
  {
    if joinRows == [] then []
    else match Probe(t, joinRows, joinSel, mapper, joinType)
      case Ok(p) => p.out
      case Err(_) =>
        var init := joinRows[..|joinRows| - 1];
        match Probe(t, init, joinSel, mapper, joinType)
        case Err(_) => ProbePushed(t, init, joinSel, mapper, joinType)
        case Ok(p) => p.out + StepPushed(p.table, joinRows[|joinRows| - 1], joinSel, mapper, joinType)
  }

  lemma {:induction false} ProbePushedFail(t: Table, joinRows: seq<Value>, joinSel: Selector, mapper: JoinMapper, joinType: string, k: nat)
    requires k <= |joinRows| && Probe(t, joinRows[..k], joinSel, mapper, joinType).Err?
    ensures ProbePushed(t, joinRows, joinSel, mapper, joinType) == ProbePushed(t, joinRows[..k], joinSel, mapper, joinType)
    decreases |joinRows|
  {
    if k < |joinRows| {
      var init := joinRows[..|joinRows| - 1];
      assert init[..k] == joinRows[..k];
      ProbeFail(t, joinRows, joinSel, mapper, joinType, k);
      ProbeFail(t, init, joinSel, mapper, joinType, k);
      ProbePushedFail(t, init, joinSel, mapper, joinType, k);
    } else {
      assert joinRows[..k] == joinRows;
    }
  }

  /** When join-row `i` is the first of the probe loop to throw, the loop has pushed
      what the join-rows before it produced, then what join-row `i` pushed. */
  lemma ProbePushedStops(t: Table, joinRows: seq<Value>, joinSel: Selector, mapper: JoinMapper, joinType: string, i: nat, p: Pass)
    requires i < |joinRows| && Probe(t, joinRows[..i], joinSel, mapper, joinType) == Ok(p)
    requires ProbeStep(p.table, joinRows[i], joinSel, mapper, joinType).Err?
    ensures Probe(t, joinRows, joinSel, mapper, joinType) == Err(ProbeStep(p.table, joinRows[i], joinSel, mapper, joinType).error)
    ensures ProbePushed(t, joinRows, joinSel, mapper, joinType) == p.out + StepPushed(p.table, joinRows[i], joinSel, mapper, joinType)
  {
    var prefix := joinRows[..i + 1];
    assert prefix[..|prefix| - 1] == joinRows[..i] && prefix[|prefix| - 1] == joinRows[i];
    assert Probe(t, prefix, joinSel, mapper, joinType) == Err(ProbeStep(p.table, joinRows[i], joinSel, mapper, joinType).error);
    ProbeFail(t, joinRows, joinSel, mapper, joinType, i + 1);
    ProbePushedFail(t, joinRows, joinSel, mapper, joinType, i + 1);
  }

  /** What `executeHashJoin` pushes before it returns or throws; a `null` from-key
      throws while the buckets are built, before any push. */
  function HashPushed(fromData: seq<Value>, joinData: seq<Value>, fromSel: Selector, joinSel: Selector,
                      mapper: JoinMapper, joinType: string): seq<Value>
  {
    match HashJoined(fromData, joinData, fromSel, joinSel, mapper, joinType)
    case Ok(v) => v
    case Err(_) =>
      match Grouped(fromData, fromSel)
      case None => []
      case Some(t) => ProbePushed(t, joinData, joinSel, mapper, joinType)
  }

  /** In a right hash join whose second join-row has a `null` key, the pair pushed for
      the first join-row stays in `results` although the join throws. */
  lemma RightHashJoinKeepsRowsBeforeThrow(first: Value, second: Value, fromSel: Selector, joinSel: Selector, mapper: JoinMapper)
    requires !joinSel(first).Null? && joinSel(second).Null?
    ensures HashJoined([], [first, second], fromSel, joinSel, mapper, "right") == Err(NullKey)
    ensures HashPushed([], [first, second], fromSel, joinSel, mapper, "right") == [Obj([]), first]
  {
    var rows := [first, second];
    var k := KeyOf(joinSel, first).value;
    var p := Pass([Obj([]), first], RemoveKey(EmptyTable, k));
    assert Grouped([], fromSel) == Some(EmptyTable);
    assert KeepsRight("right");
    assert [first][..0] == [];
    assert Probe(EmptyTable, [], joinSel, mapper, "right") == Ok(Pass([], EmptyTable));
    assert ProbeStep(EmptyTable, first, joinSel, mapper, "right") == Ok(p);
    var none: seq<Value> := [];
    assert none + [Obj([]), first] == [Obj([]), first];
    assert rows[..1] == [first] && rows[1] == second;
    assert Probe(EmptyTable, rows[..1], joinSel, mapper, "right") == Ok(p);
    assert ProbeStep(p.table, second, joinSel, mapper, "right") == Err(NullKey);
    assert rows[..2] == rows;
    ProbePushedStops(EmptyTable, rows, joinSel, mapper, "right", 1, p);
    assert [Obj([]), first] + [] == [Obj([]), first];
  }

  /** What `execute` pushes before it returns or throws: a failed parameter check or
      a predicate the parser cannot decompose throws before any push. */
  function ExecutedPushed(fromData: seq<Value>, joinData: seq<Value>, joinType: string, algorithm: string,
                          logic: Logic, mapper: JoinMapper, eval: Evaluator): seq<Value>
  {
    if CheckMapper(logic, mapper).Err? then []
    else if algorithm == "hash" then
      match logic
      case SelectorPair(fromSel, joinSel) =>
        HashPushed(fromData, joinData, fromSel, if joinSel.Some? then joinSel.value else fromSel, mapper, joinType)
      case LogicFn(text, _) =>
        match Decomposition(text)
        case Ok(Some(h)) => HashPushed(fromData, joinData, LeftSelector(h, eval), RightSelector(h, eval), mapper, joinType)
        case _ => []
    else LoopPushed(fromData, joinData, logic, mapper, joinType)
  }

  /** A join that does not throw pushes its whole result; one that throws before the
      loops start pushes nothing. */
  lemma ExecutedPushedOk(fromData: seq<Value>, joinData: seq<Value>, joinType: string, algorithm: string,
                         logic: Logic, mapper: JoinMapper, eval: Evaluator)
    ensures var spec := Executed(fromData, joinData, joinType, algorithm, logic, mapper, eval);
      spec.Ok? ==> ExecutedPushed(fromData, joinData, joinType, algorithm, logic, mapper, eval) == spec.value
    ensures CheckMapper(logic, mapper).Err? ==> ExecutedPushed(fromData, joinData, joinType, algorithm, logic, mapper, eval) == []
  {
  }

  // ---------------------------------------------------------------------------
  // The loops of executeLoopJoin.

  /** The body of the pair loop: the mapped row when the logic accepts the pair. */
  method TryPair(fromData: seq<Value>, joinData: seq<Value>, logic: Logic, mapper: JoinMapper, fix: nat, jix: nat)
    returns (r: Result<seq<Value>>, hit: bool)
    requires fix < |fromData| && jix < |joinData|
    ensures r == PairStep(fromData, joinData, logic, mapper, fix, jix)
    ensures r.Ok? ==> (hit <==> Hit(logic, fromData[fix], joinData[jix]))
  {
    var fromRow := fromData[fix];
    var joinRow := joinData[jix];
    var matches := Holds(logic, fromRow, joinRow);
    if matches.Err? {
      return Err(matches.error), false;
    }
    if !matches.value {
      return Ok([]), false;
    }
    var row := MapRow(mapper, fromRow, joinRow);
    if row.Err? {
      return Err(row.error), false;
    }
    return Ok([row.value]), true;
  }

  /** `fromHits` and `joinHits` after the first `m` from-rows of the pair loop. */
  ghost predicate HitsSoFar(fromData: seq<Value>, joinData: seq<Value>, logic: Logic, m: nat,
                      fromHits: set<nat>, joinHits: set<nat>)
    requires m <= |fromData|
  {
    (forall i: nat :: i in fromHits <==> i < m && FromHit(fromData, joinData, logic, i, |joinData|))
    && (forall j: nat :: j in joinHits <==> j < |joinData| && JoinHit(fromData, joinData, logic, j, m))
  }

  /** One from-row's hits extend both sets. */
  lemma HitsStep(fromData: seq<Value>, joinData: seq<Value>, logic: Logic, fix: nat,
                 fromHits: set<nat>, joinHits: set<nat>, hits: set<nat>)
    requires fix < |fromData|
    requires HitsSoFar(fromData, joinData, logic, fix, fromHits, joinHits)
    requires forall j: nat :: j in hits <==> j < |joinData| && Hit(logic, fromData[fix], joinData[j])
    ensures HitsSoFar(fromData, joinData, logic, fix + 1,
                      if hits != {} then fromHits + {fix} else fromHits, joinHits + hits)
  {
    HitsFromHit(fromData, joinData, logic, fix, hits);
    forall j: nat | j < |joinData| {
      JoinHitStep(fromData, joinData, logic, j, fix);
    }
  }

  /** The join-rows a from-row hit are non-empty exactly when the from-row was hit. */
  lemma HitsFromHit(fromData: seq<Value>, joinData: seq<Value>, logic: Logic, fix: nat, hits: set<nat>)
    requires fix < |fromData|
    requires forall j: nat :: j in hits <==> j < |joinData| && Hit(logic, fromData[fix], joinData[j])
    ensures hits != {} <==> FromHit(fromData, joinData, logic, fix, |joinData|)
  {
    if hits != {} {
      var j :| j in hits;
      assert Hit(logic, fromData[fix], joinData[j]);
    }
    if FromHit(fromData, joinData, logic, fix, |joinData|) {
      var j :| 0 <= j < |joinData| && Hit(logic, fromData[fix], joinData[j]);
      assert j in hits;
    }
  }

  /** The inner loop of the pair loop for from-row `fix`: it pushes the mapped row for
      every join-row the logic accepts, and records the join-rows it hit. */
  method JoinRow(fromData: seq<Value>, joinData: seq<Value>, logic: Logic, mapper: JoinMapper, fix: nat)
    returns (r: Result<seq<Value>>, hits: set<nat>, pushed: seq<Value>)
    requires fix < |fromData|
    ensures r == RowSteps(fromData, joinData, logic, mapper, fix, |joinData|)
    ensures r.Ok? ==> forall j: nat :: j in hits <==> j < |joinData| && Hit(logic, fromData[fix], joinData[j])
    ensures pushed == RowPushed(fromData, joinData, logic, mapper, fix, |joinData|)
  {
    var out := [];
    hits := {};
    for jix := 0 to |joinData|
      invariant RowSteps(fromData, joinData, logic, mapper, fix, jix) == Ok(out)
      invariant forall j: nat :: j in hits <==> j < jix && Hit(logic, fromData[fix], joinData[j])
    {
      var step, hit := TryPair(fromData, joinData, logic, mapper, fix, jix);
      if step.Err? {
        RowStepsFail(fromData, joinData, logic, mapper, fix, jix + 1, |joinData|);
        RowPushedStops(fromData, joinData, logic, mapper, fix, jix, out);
        return step, hits, out;
      }
      out := out + step.value;
      if hit {
        hits := hits + {jix};
      }
    }
    RowPushedOk(fromData, joinData, logic, mapper, fix, |joinData|);
    r, pushed := Ok(out), out;
  }

  /** One from-row of the pair loop: its inner loop, then the hits it records. */
  method PairRow(fromData: seq<Value>, joinData: seq<Value>, logic: Logic, mapper: JoinMapper, fix: nat,
                 fromHits: set<nat>, joinHits: set<nat>)
    returns (r: Result<seq<Value>>, fromHits': set<nat>, joinHits': set<nat>, pushed: seq<Value>)
    requires fix < |fromData|
    requires HitsSoFar(fromData, joinData, logic, fix, fromHits, joinHits)
    ensures r == RowSteps(fromData, joinData, logic, mapper, fix, |joinData|)
    ensures r.Ok? ==> HitsSoFar(fromData, joinData, logic, fix + 1, fromHits', joinHits')
    ensures pushed == RowPushed(fromData, joinData, logic, mapper, fix, |joinData|)
  {
    var hits;
    r, hits, pushed := JoinRow(fromData, joinData, logic, mapper, fix);
    fromHits', joinHits' := fromHits, joinHits;
    if r.Ok? {
      HitsStep(fromData, joinData, logic, fix, fromHits, joinHits, hits);
      if hits != {} {
        fromHits' := fromHits + {fix};
      }
      joinHits' := joinHits + hits;
    }
  }

  /** The pair loop: every from-row against every join-row, with the rows each side hit. */
  method JoinPairs(fromData: seq<Value>, joinData: seq<Value>, logic: Logic, mapper: JoinMapper)
    returns (r: Result<seq<Value>>, fromHits: set<nat>, joinHits: set<nat>, pushed: seq<Value>)
    ensures r == PairSteps(fromData, joinData, logic, mapper, |fromData|)
    ensures r.Ok? ==> HitsSoFar(fromData, joinData, logic, |fromData|, fromHits, joinHits)
    ensures pushed == PairPushed(fromData, joinData, logic, mapper, |fromData|)
  {
    var out := [];
    fromHits, joinHits := {}, {};
    for fix := 0 to |fromData|
      invariant PairSteps(fromData, joinData, logic, mapper, fix) == Ok(out)
      invariant HitsSoFar(fromData, joinData, logic, fix, fromHits, joinHits)
    {
      var row, rowPushed;
      row, fromHits, joinHits, rowPushed := PairRow(fromData, joinData, logic, mapper, fix, fromHits, joinHits);
      if row.Err? {
        PairStepsFail(fromData, joinData, logic, mapper, fix + 1, |fromData|);
        PairPushedStops(fromData, joinData, logic, mapper, fix, out);
        return row, fromHits, joinHits, out + rowPushed;
      }
      out := out + row.value;
    }
    r, pushed := Ok(out), out;
  }

  /** The left pass at from-row `fix`, appended to what the pass has pushed so far. */
  method LeftRow(fromData: seq<Value>, joinData: seq<Value>, logic: Logic, mapper: JoinMapper, fix: nat, fromHits: set<nat>,
                 out: seq<Value>)
    returns (r: Result<seq<Value>>)
    requires fix < |fromData|
    requires forall i: nat :: i in fromHits <==> i < |fromData| && FromHit(fromData, joinData, logic, i, |joinData|)
    requires LeftSteps(fromData, joinData, logic, mapper, fix) == Ok(out)
    ensures r == LeftSteps(fromData, joinData, logic, mapper, fix + 1)
  {
    var step: Result<seq<Value>>;
    if fix in fromHits {
      step := Ok([]);
    } else {
      var row := MapRow(mapper, fromData[fix], Obj([]));
      step := if row.Err? then Err(row.error) else Ok([row.value]);
    }
    assert step == LeftStep(fromData, joinData, logic, mapper, fix);
    r := if step.Err? then step else Ok(out + step.value);
  }

  /** The left pass: `mapper(fromRow, {})` for each from-row not hit. */
  method JoinLeftRest(fromData: seq<Value>, joinData: seq<Value>, logic: Logic, mapper: JoinMapper, fromHits: set<nat>)
    returns (r: Result<seq<Value>>, pushed: seq<Value>)
    requires forall i: nat :: i in fromHits <==> i < |fromData| && FromHit(fromData, joinData, logic, i, |joinData|)
    ensures r == LeftSteps(fromData, joinData, logic, mapper, |fromData|)
    ensures pushed == LeftPushed(fromData, joinData, logic, mapper, |fromData|)
  {
    var out := [];
    for fix := 0 to |fromData|
      invariant LeftSteps(fromData, joinData, logic, mapper, fix) == Ok(out)
    {
      var next := LeftRow(fromData, joinData, logic, mapper, fix, fromHits, out);
      if next.Err? {
        LeftStepsFail(fromData, joinData, logic, mapper, fix + 1, |fromData|);
        LeftPushedStops(fromData, joinData, logic, mapper, fix, out);
        return next, out;
      }
      out := next.value;
    }
    r, pushed := Ok(out), out;
  }

  /** The right pass at index `ix`, appended to what the pass has pushed so far; past the
      join-rows it maps `undefined`. */
  method RightRow(fromData: seq<Value>, joinData: seq<Value>, logic: Logic, mapper: JoinMapper, ix: nat, joinHits: set<nat>,
                  out: seq<Value>)
    returns (r: Result<seq<Value>>)
    requires ix < |fromData|
    requires forall j: nat :: j in joinHits <==> j < |joinData| && JoinHit(fromData, joinData, logic, j, |fromData|)
    requires RightSteps(fromData, joinData, logic, mapper, ix) == Ok(out)
    ensures r == RightSteps(fromData, joinData, logic, mapper, ix + 1)
  {
    var step: Result<seq<Value>>;
    if ix in joinHits {
      step := Ok([]);
    } else {
      var joinRow := if ix < |joinData| then joinData[ix] else Undef;
      var row := MapRow(mapper, Obj([]), joinRow);
      step := if row.Err? then Err(row.error) else Ok([row.value]);
    }
    assert step == RightStep(fromData, joinData, logic, mapper, ix);
    r := if step.Err? then step else Ok(out + step.value);
  }

  /** The right pass, over the from-indices: `mapper({}, joinDs.data[fix])` for each
      index whose `joinHits` entry is unset. */
  method JoinRightRest(fromData: seq<Value>, joinData: seq<Value>, logic: Logic, mapper: JoinMapper, joinHits: set<nat>)
    returns (r: Result<seq<Value>>, pushed: seq<Value>)
    requires forall j: nat :: j in joinHits <==> j < |joinData| && JoinHit(fromData, joinData, logic, j, |fromData|)
    ensures r == RightSteps(fromData, joinData, logic, mapper, |fromData|)
    ensures pushed == RightPushed(fromData, joinData, logic, mapper, |fromData|)
  {
    var out := [];
    for fix := 0 to |fromData|
      invariant RightSteps(fromData, joinData, logic, mapper, fix) == Ok(out)
    {
      var next := RightRow(fromData, joinData, logic, mapper, fix, joinHits, out);
      if next.Err? {
        RightStepsFail(fromData, joinData, logic, mapper, fix + 1, |fromData|);
        RightPushedStops(fromData, joinData, logic, mapper, fix, out);
        return next, out;
      }
      out := next.value;
    }
    r, pushed := Ok(out), out;
  }

  /** `executeLoopJoin`: the pair loop, then the left pass for `left` and `full`, then the
      right pass for `right` and `full`. */
  method LoopJoin(fromData: seq<Value>, joinData: seq<Value>, logic: Logic, mapper: JoinMapper, joinType: string)
    returns (r: Result<seq<Value>>, pushed: seq<Value>)
    ensures r == LoopJoined(fromData, joinData, logic, mapper, joinType)
    ensures pushed == LoopPushed(fromData, joinData, logic, mapper, joinType)
  {
    var fromHits, joinHits;
    r, fromHits, joinHits, pushed := JoinPairs(fromData, joinData, logic, mapper);
    if r.Err? {
      return;
    }
    if KeepsLeft(joinType) {
      var left, leftPushed := JoinLeftRest(fromData, joinData, logic, mapper, fromHits);
      if left.Err? {
        return left, r.value + leftPushed;
      }
      r := Ok(r.value + left.value);
    } else {
      r := Ok(r.value + []);
    }
    if KeepsRight(joinType) {
      var right, rightPushed := JoinRightRest(fromData, joinData, logic, mapper, joinHits);
      if right.Err? {
        return right, r.value + rightPushed;
      }
      r := Ok(r.value + right.value);
    } else {
      r := Ok(r.value + []);
    }
    pushed := r.value;
  }

  // ---------------------------------------------------------------------------
  // The loops of executeHashJoin.

  /** Every row of a from-bucket mapped with the join-row, in bucket order. */
  method BucketRows(bucket: seq<Value>, joinRow: Value, mapper: JoinMapper) returns (r: Result<seq<Value>>, pushed: seq<Value>)
    ensures r == MapBucket(bucket, joinRow, mapper)
    ensures pushed == BucketPushed(bucket, joinRow, mapper)
  {
    var out := [];
    for i := 0 to |bucket|
      invariant MapBucket(bucket[..i], joinRow, mapper) == Ok(out)
    {
      assert bucket[..i + 1][..i] == bucket[..i];
      var row := MapRow(mapper, bucket[i], joinRow);
      if row.Err? {
        MapBucketFail(bucket, joinRow, mapper, i + 1);
        BucketPushedStops(bucket, joinRow, mapper, i, out);
        return Err(row.error), out;
      }
      out := out + [row.value];
    }
    assert bucket[..|bucket|] == bucket;
    r, pushed := Ok(out), out;
  }

  /** The join-row loop: each join-row takes its from-bucket out of the map. */
  method ProbeRows(fromBucketsMap: HashBuckets, joinData: seq<Value>, joinSel: Selector, mapper: JoinMapper, joinType: string)
    returns (r: Result<seq<Value>>, pushed: seq<Value>)
    requires fromBucketsMap.Valid()
    modifies fromBucketsMap
    ensures fromBucketsMap.Valid()
    ensures var spec := Probe(old(fromBucketsMap.State()), joinData, joinSel, mapper, joinType);
      (spec.Err? ==> r == Err(spec.error))
      && (spec.Ok? ==> r == Ok(spec.value.out) && fromBucketsMap.State() == spec.value.table)
    ensures pushed == ProbePushed(old(fromBucketsMap.State()), joinData, joinSel, mapper, joinType)
  {
    ghost var start := fromBucketsMap.State();
    var out := [];
    for i := 0 to |joinData|
      invariant fromBucketsMap.Valid()
      invariant Probe(start, joinData[..i], joinSel, mapper, joinType) == Ok(Pass(out, fromBucketsMap.State()))
    {
      assert joinData[..i + 1][..i] == joinData[..i];
      assert joinData[..i + 1][i] == joinData[i];
      var joinRow := joinData[i];
      ghost var t := fromBucketsMap.State();
      var fromBucket := fromBucketsMap.GetBucket(joinRow, joinSel, true);
      if fromBucket.Err? {
        assert ProbeStep(t, joinRow, joinSel, mapper, joinType) == Err(NullKey);
        ProbePushedStops(start, joinData, joinSel, mapper, joinType, i, Pass(out, t));
        assert out + [] == out;
        return Err(fromBucket.error), out;
      }
      if fromBucket.value.Some? {
        var rows, rowsPushed := BucketRows(fromBucket.value.value, joinRow, mapper);
        if rows.Err? {
          assert ProbeStep(t, joinRow, joinSel, mapper, joinType) == Err(rows.error);
          ProbePushedStops(start, joinData, joinSel, mapper, joinType, i, Pass(out, t));
          return Err(rows.error), out + rowsPushed;
        }
        out := out + rows.value;
      } else if KeepsRight(joinType) {
        out := out + [Obj([]), joinRow];
      } else {
        out := out + [];
      }
    }
    assert joinData[..|joinData|] == joinData;
    r, pushed := Ok(out), out;
  }

  lemma {:induction false} LeftoversAppend(a: seq<Value>, b: seq<Value>)
    ensures Leftovers(a + b) == Leftovers(a) + Leftovers(b)
    decreases |b|
  {
    if b == [] {
      assert a + b == a;
    } else {
      var b' := b[..|b| - 1];
      assert (a + b)[..|a + b| - 1] == a + b';
      LeftoversAppend(a, b');
    }
  }

  /** `results.push(fromRow, {})` for each row of one bucket. */
  method LeftoverBucket(bucket: seq<Value>) returns (out: seq<Value>)
    ensures out == Leftovers(bucket)
  {
    out := [];
    for i := 0 to |bucket|
      invariant out == Leftovers(bucket[..i])
    {
      assert bucket[..i + 1][..i] == bucket[..i];
      out := out + [bucket[i], Obj([])];
    }
    assert bucket[..|bucket|] == bucket;
  }

  /** The left pass: every from-row left in the buckets, pushed unmapped and followed
      by `{}`. */
  method LeftoverRows(order: seq<string>, t: Table, buckets: seq<seq<Value>>) returns (out: seq<Value>)
    requires |buckets| == |order|
    requires forall b :: 0 <= b < |order| ==> buckets[b] == Lookup(t, order[b])
    ensures out == Leftovers(Remaining(order, t))
  {
    out := [];
    for b := 0 to |buckets|
      invariant out == Leftovers(Remaining(order[..b], t))
    {
      RemainingSnoc(order, b, t);
      LeftoversAppend(Remaining(order[..b], t), buckets[b]);
      var rows := LeftoverBucket(buckets[b]);
      out := out + rows;
    }
    assert order[..|buckets|] == order;
  }

  /** `executeHashJoin`: the from-rows are bucketed, each join-row takes its bucket out,
      and for `left` and `full` the buckets never taken are pushed at the end. */
  method HashJoin(fromData: seq<Value>, joinData: seq<Value>, fromSel: Selector, joinSel: Selector,
                  mapper: JoinMapper, joinType: string) returns (r: Result<seq<Value>>, pushed: seq<Value>)
    ensures r == HashJoined(fromData, joinData, fromSel, joinSel, mapper, joinType)
    ensures pushed == HashPushed(fromData, joinData, fromSel, joinSel, mapper, joinType)
  {
    var fromBucketsMap := new HashBuckets(fromSel);
    var ok := fromBucketsMap.AddItems(fromData);
    if !ok {
      return Err(NullKey), [];
    }
    r, pushed := ProbeRows(fromBucketsMap, joinData, joinSel, mapper, joinType);
    if r.Err? || !KeepsLeft(joinType) {
      if r.Ok? {
        r := Ok(r.value + []);
        pushed := r.value;
      }
      return;
    }
    var rest := LeftoverRows(fromBucketsMap.order, fromBucketsMap.State(), fromBucketsMap.GetBuckets());
    r := Ok(r.value + rest);
    pushed := r.value;
  }

  // ---------------------------------------------------------------------------
  // The class.

  class Joiner {
    const fromData: seq<Value>
    const joinData: seq<Value>
    const options: string
    const joinType: string
    const algorithm: string
    var results: seq<Value>

    /** The join type and the algorithm are read from the options string. */
    constructor (fromData: seq<Value>, joinData: seq<Value>, options: string)
      ensures this.fromData == fromData && this.joinData == joinData && this.options == options
      ensures joinType == ExtractOption(options, JoinTypes, "inner")
      ensures algorithm == ExtractOption(options, Algorithms, "hash")
      ensures results == []
    {
      this.fromData := fromData;
      this.joinData := joinData;
      this.options := options;
      this.joinType := ExtractOption(options, JoinTypes, "inner");
      this.algorithm := ExtractOption(options, Algorithms, "hash");
      this.results := [];
    }

    /** `executeLoopJoin`: pushes what the loop join produces onto `results`; the rows
        pushed before a throw stay pushed. */
    method ExecuteLoopJoin(logic: Logic, mapper: JoinMapper) returns (r: Result<seq<Value>>)
      modifies this
      ensures var spec := LoopJoined(fromData, joinData, logic, mapper, joinType);
        (spec.Err? ==> r == Err(spec.error))
        && (spec.Ok? ==> results == old(results) + spec.value && r == Ok(results))
      ensures results == old(results) + LoopPushed(fromData, joinData, logic, mapper, joinType)
    {
      var rows, pushed := LoopJoin(fromData, joinData, logic, mapper, joinType);
      results := results + pushed;
      if rows.Err? {
        return Err(rows.error);
      }
      return Ok(results);
    }

    /** `executeHashJoin`: pushes what the hash join produces onto `results`, keeping
        the rows pushed before a throw; a missing join selector falls back to the from
        selector. */
    method ExecuteHashJoin(fromEqualitySelector: Selector, joinEqualitySelector: Option<Selector>, mapper: JoinMapper)
      returns (r: Result<seq<Value>>)
      modifies this
      ensures var spec := HashJoined(fromData, joinData, fromEqualitySelector,
                                     if joinEqualitySelector.Some? then joinEqualitySelector.value else fromEqualitySelector,
                                     mapper, joinType);
        (spec.Err? ==> r == Err(spec.error))
        && (spec.Ok? ==> results == old(results) + spec.value && r == Ok(results))
      ensures results == old(results) + HashPushed(fromData, joinData, fromEqualitySelector,
                                                   if joinEqualitySelector.Some? then joinEqualitySelector.value else fromEqualitySelector,
                                                   mapper, joinType)
    {
      var joinSel := if joinEqualitySelector.Some? then joinEqualitySelector.value else fromEqualitySelector;
      var rows, pushed := HashJoin(fromData, joinData, fromEqualitySelector, joinSel, mapper, joinType);
      results := results + pushed;
      if rows.Err? {
        return Err(rows.error);
      }
      return Ok(results);
    }

    /** `execute`: checks the mapper against the logic, wraps it, and runs the join the
        algorithm names; the value returned is `results` itself, and the rows pushed
        before a throw stay pushed. */
    method Execute(logic: Logic, mapper: JoinMapper, eval: Evaluator) returns (r: Result<seq<Value>>)
      modifies this
      ensures var spec := Executed(fromData, joinData, joinType, algorithm, logic, mapper, eval);
        (spec.Err? ==> r == Err(spec.error))
        && (spec.Ok? ==> results == old(results) + spec.value && r == Ok(results))
      ensures results == old(results) + ExecutedPushed(fromData, joinData, joinType, algorithm, logic, mapper, eval)
    {
      if mapper.JoinMapperFn? && logic.LogicFn? {
        var ml := Parameters(logic.text);
        if ml.Err? {
          return Err(ml.error);
        }
        var mp := Parameters(mapper.text);
        if mp.Err? {
          return Err(mp.error);
        }
        if ParamOpt(ml.value, 0) != ParamOpt(mp.value, 0) || ParamOpt(ml.value, 1) != ParamOpt(mp.value, 1) {
          return Err(ParameterMismatch);
        }
      }
      assert CheckMapper(logic, mapper).Ok?;
      ghost var pushed := ExecutedPushed(fromData, joinData, joinType, algorithm, logic, mapper, eval);
      if algorithm == "hash" {
        if logic.SelectorPair? {
          assert pushed == HashPushed(fromData, joinData, logic.fromSel,
                                      if logic.joinSel.Some? then logic.joinSel.value else logic.fromSel, mapper, joinType);
          r := ExecuteHashJoin(logic.fromSel, logic.joinSel, mapper);
          return;
        }
        var parsed := PairEqualitiesToObjectSelectors(logic.text);
        if parsed.Err? {
          return Err(parsed.error);
        }
        if parsed.value.None? {
          return Err(CannotParseSelectors);
        }
        assert pushed == HashPushed(fromData, joinData, LeftSelector(parsed.value.value, eval), RightSelector(parsed.value.value, eval),
                                    mapper, joinType);
        r := ExecuteHashJoin(LeftSelector(parsed.value.value, eval), Some(RightSelector(parsed.value.value, eval)), mapper);
        return;
      }
      assert pushed == LoopPushed(fromData, joinData, logic, mapper, joinType);
      r := ExecuteLoopJoin(logic, mapper);
    }
  }
}
