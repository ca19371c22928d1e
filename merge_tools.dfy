/** `mergeTools`: the join and merge engine. A mapper is given by keywords or as a
    function; `loopMerge` pairs every left row with every right row, `hashMerge`
    pairs rows bucket by bucket, and `merge` chooses between them. */
module MergeTools {

  import opened Wrappers
  import opened Text
  import opened Values
  import opened General
  import opened Buckets
  import opened Parser

  // ---------------------------------------------------------------------------
  // Mapper keywords.

  /** The six mapper keywords: `both`, `thob`, `left`, `right`, `null` and `stack`. */
  datatype Keyword = Both | Thob | LeftRow | RightRow | NoRow | Stack

  const AllowedTerms: seq<string> := ["both", "thob", "left", "right", "null", "stack"]

  function KeywordName(k: Keyword): string {
    match k
    case Both => "both"
    case Thob => "thob"
    case LeftRow => "left"
    case RightRow => "right"
    case NoRow => "null"
    case Stack => "stack"
  }

  /** `allowedTerms.includes(word)`, with the keyword it names. */
  function ParseKeyword(word: string): (r: Option<Keyword>)
    ensures r.Some? <==> word in AllowedTerms
    ensures r.Some? ==> KeywordName(r.value) == word
  {
    if word == "both" then Some(Both)
    else if word == "thob" then Some(Thob)
    else if word == "left" then Some(LeftRow)
    else if word == "right" then Some(RightRow)
    else if word == "null" then Some(NoRow)
    else if word == "stack" then Some(Stack)
    else None
  }

  /** Reading back a keyword's name gives the keyword. */
  lemma ParseKeywordName(k: Keyword)
    ensures ParseKeyword(KeywordName(k)) == Some(k)
  {
  }

  /** The `replacer` of `inflateKeywords`: an unknown letter gives `null`, which the
      string concatenation turns into the word `"null"`. */
  function Letter(c: char): string {
    if c == 'b' then "both"
    else if c == 't' then "thob"
    else if c == 'l' then "left"
    else if c == 'r' then "right"
    else if c == 'n' then "null"
    else if c == 's' then "stack"
    else "null"
  }

  /** The keyword a letter stands for once inflated. */
  function LetterKeyword(c: char): (k: Keyword)
    ensures KeywordName(k) == Letter(c)
  {
    if c == 'b' then Both
    else if c == 't' then Thob
    else if c == 'l' then LeftRow
    else if c == 'r' then RightRow
    else if c == 's' then Stack
    else NoRow
  }

  /** `inflateKeywords` on a two-letter mapper. */
  function InflateKeywords(keywordString: string): (r: string)
    requires |keywordString| == 2
    ensures r == KeywordName(LetterKeyword(keywordString[0])) + " " + KeywordName(LetterKeyword(keywordString[1]))
  {
    Letter(keywordString[0]) + " " + Letter(keywordString[1])
  }

  // ---------------------------------------------------------------------------
  // normalizeMapper.

  /** A mapper as the caller passes it: absent (or any falsy value), a keyword string, or
      a function with its source text. */
  datatype MapperSpec = Unset | KeywordText(s: string) | MapperFn(text: string, f: (Value, Value) -> Value)

  /** A validated mapper. */
  datatype Mapping = ByKeywords(onMatched: Keyword, onUnmatched: Keyword) | ByFunction(f: (Value, Value) -> Value)

  /** The keyword branch of `normalizeMapper`: inflate a two-letter string, split at
      spaces, and require the first two words to be allowed keywords. */
  function KeywordMapping(mapFunc: string): Result<Mapping> {
    var inflated := if |mapFunc| == 2 then InflateKeywords(mapFunc) else mapFunc;
    var keywords := SplitChar(inflated, ' ');
    var onMatched := ParseKeyword(keywords[0]);
    var onUnmatched := if |keywords| > 1 then ParseKeyword(keywords[1]) else None;
    if onMatched.Some? && onUnmatched.Some? then Ok(ByKeywords(onMatched.value, onUnmatched.value))
    else Err(BadMapperKeywords)
  }

  /** `parametersAreEqual(a, b)` as a value: the parameter lists of both texts, compared;
      the parser throws on a text that is not a function. */
  function SameParameters(a: string, b: string): Result<bool> {
    match Parameters(a)
    case Err(e) => Err(e)
    case Ok(pa) =>
      match Parameters(b)
      case Err(e) => Err(e)
      case Ok(pb) => Ok(pa == pb)
  }

  /** `parametersAreEqual`: lengths first, then element by element, returning at the
      first difference. */
  method ParametersAreEqual(a: string, b: string) returns (r: Result<bool>)
    ensures r == SameParameters(a, b)
  {
    var pa := Parameters(a);
    if pa.Err? {
      return Err(pa.error);
    }
    var pb := Parameters(b);
    if pb.Err? {
      return Err(pb.error);
    }
    var same := SameNames(pa.value, pb.value);
    return Ok(same);
  }

  /** The comparison loop of `parametersAreEqual`: lengths first, then element by
      element, stopping at the first difference. */
  method SameNames(x: seq<string>, y: seq<string>) returns (same: bool)
    ensures same <==> x == y
  {
    if |x| != |y| {
      return false;
    }
    for i := 0 to |x|
      invariant x[..i] == y[..i]
    {
      if x[i] != y[i] {
        return false;
      }
      assert x[..i + 1] == x[..i] + [x[i]] && y[..i + 1] == y[..i] + [y[i]];
    }
    assert x == x[..|x|] && y == y[..|y|];
    return true;
  }

  /** `normalizeMapper(mapFunc, matchingLogic)`: a falsy mapper is `'both null'`. */
  function NormalizeMapper(mapFunc: MapperSpec, matchingLogic: string): (r: Result<Mapping>)
    ensures mapFunc.MapperFn? ==> (r.Ok? <==> SameParameters(matchingLogic, mapFunc.text) == Ok(true))
    ensures mapFunc.MapperFn? && r.Ok? ==> r.value == ByFunction(mapFunc.f)
    ensures !mapFunc.MapperFn? ==> (r.Ok? ==> r.value.ByKeywords?) && (r.Err? ==> r.error == BadMapperKeywords)
  {
    match mapFunc
    case Unset => KeywordMapping("both null")
    case KeywordText(s) => KeywordMapping(if s == "" then "both null" else s)
    case MapperFn(text, f) =>
      match SameParameters(matchingLogic, text)
      case Err(e) => Err(e)
      case Ok(same) => if same then Ok(ByFunction(f)) else Err(ParameterMismatch)
  }

  lemma SplitKeywords(a: Keyword, b: Keyword)
    ensures SplitChar(KeywordName(a) + " " + KeywordName(b), ' ') == [KeywordName(a), KeywordName(b)]
  {
    SplitCharTwo(KeywordName(a), KeywordName(b), ' ');
  }

  /** Two keywords written out are read back as they were written. */
  lemma KeywordsRoundTrip(a: Keyword, b: Keyword, matchingLogic: string)
    ensures NormalizeMapper(KeywordText(KeywordName(a) + " " + KeywordName(b)), matchingLogic) == Ok(ByKeywords(a, b))
  {
    var text := KeywordName(a) + " " + KeywordName(b);
    assert |text| > 2;
    KeywordPair(a, b);
  }

  /** A missing mapper means `both null`: matched rows overlaid, unmatched ones dropped. */
  lemma DefaultMapper(matchingLogic: string)
    ensures NormalizeMapper(Unset, matchingLogic) == Ok(ByKeywords(Both, NoRow))
    ensures NormalizeMapper(KeywordText(""), matchingLogic) == Ok(ByKeywords(Both, NoRow))
  {
    KeywordPair(Both, NoRow);
    assert "both null" == KeywordName(Both) + " " + KeywordName(NoRow);
  }

  /** `'both null'` written out is read as itself. */
  lemma BothNullMapper(matchingLogic: string)
    ensures NormalizeMapper(KeywordText("both null"), matchingLogic) == Ok(ByKeywords(Both, NoRow))
  {
    DefaultMapper(matchingLogic);
  }

  /** `'both both'` is read as itself. */
  lemma BothBothMapper(matchingLogic: string)
    ensures NormalizeMapper(KeywordText("both both"), matchingLogic) == Ok(ByKeywords(Both, Both))
  {
    var text := KeywordName(Both) + " " + KeywordName(Both);
    assert text == "both both" by { assert KeywordName(Both) == "both"; }
    KeywordPair(Both, Both);
    assert NormalizeMapper(KeywordText(text), matchingLogic) == KeywordMapping(text) by { assert text != ""; }
  }

  lemma KeywordPair(a: Keyword, b: Keyword)
    ensures KeywordMapping(KeywordName(a) + " " + KeywordName(b)) == Ok(ByKeywords(a, b))
  {
    var text := KeywordName(a) + " " + KeywordName(b);
    assert |text| != 2;
    SplitKeywords(a, b);
    var keywords := SplitChar(text, ' ');
    assert keywords[0] == KeywordName(a) && |keywords| > 1 && keywords[1] == KeywordName(b);
    ParseKeywordName(a);
    ParseKeywordName(b);
  }

  /** Every two-letter string is a valid mapper: each letter is inflated to its keyword,
      and a letter that names none becomes `null`. */
  lemma TwoLetterMappers(s: string, matchingLogic: string)
    requires |s| == 2 && s != ""
    ensures NormalizeMapper(KeywordText(s), matchingLogic) == Ok(ByKeywords(LetterKeyword(s[0]), LetterKeyword(s[1])))
  {
    var a, b := LetterKeyword(s[0]), LetterKeyword(s[1]);
    assert InflateKeywords(s) == KeywordName(a) + " " + KeywordName(b);
    SplitKeywords(a, b);
    var keywords := SplitChar(InflateKeywords(s), ' ');
    assert keywords == [KeywordName(a), KeywordName(b)];
    ParseKeywordName(a);
    ParseKeywordName(b);
  }

  /** So `'bx'` passes validation as `'both null'`. */
  lemma UnknownLetterIsNull(matchingLogic: string)
    ensures NormalizeMapper(KeywordText("bx"), matchingLogic) == Ok(ByKeywords(Both, NoRow))
  {
    TwoLetterMappers("bx", matchingLogic);
  }

  /** A keyword string is accepted exactly when its first two space-separated words are
      among the six keywords. */
  lemma KeywordValidation(s: string, matchingLogic: string)
    requires s != "" && |s| != 2
    ensures var words := SplitChar(s, ' ');
      NormalizeMapper(KeywordText(s), matchingLogic).Ok? <==> |words| >= 2 && words[0] in AllowedTerms && words[1] in AllowedTerms
  {
  }

  /** A function mapper is accepted exactly when its parameter list is the matcher's. */
  lemma FunctionMapperValidation(text: string, f: (Value, Value) -> Value, matchingLogic: string)
    requires Parameters(text).Ok? && Parameters(matchingLogic).Ok?
    ensures NormalizeMapper(MapperFn(text, f), matchingLogic).Ok? <==> Parameters(text) == Parameters(matchingLogic)
    ensures NormalizeMapper(MapperFn(text, f), matchingLogic).Err? ==>
      NormalizeMapper(MapperFn(text, f), matchingLogic).error == ParameterMismatch
  {
  }

  // ---------------------------------------------------------------------------
  // mergeByKeywords and wrapper.

  /** `g.noUndefined(Object.assign({}, base, top))`: the own properties of `base`, then
      those of `top` over them, without the `undefined` ones. */
  function Overlay(base: Value, top: Value): seq<Field> {
    DropUndefined(Assign(Assign([], OwnEntries(base)), OwnEntries(top)))
  }

  /** `mergeByKeywords(left, right, onMatched, onUnmatched)`. */
  function MergeByKeywords(left: Value, right: Value, onMatched: Keyword, onUnmatched: Keyword): (r: Value)
  {
    if Truthy(left) && Truthy(right) then
      match onMatched
      case Both => Obj(Overlay(right, left))
      case Thob => Obj(Overlay(left, right))
      case LeftRow => left
      case RightRow => right
      case NoRow => Undef
      case Stack => Arr([left, right])
    else
      match onUnmatched
      case Both => if Truthy(left) then left else right
      case Thob => if Truthy(left) then left else right
      case LeftRow => left
      case RightRow => right
      case NoRow => Undef
      case Stack => Undef
  }

  /** What the keywords give: a pair with a falsy side is unmatched and gives one of its
      sides or nothing, and nothing truthy when both are falsy; the overlaying keywords give
      a record on a matched pair; `null null` gives nothing. */
  lemma MergeByKeywordsCases(left: Value, right: Value, onMatched: Keyword, onUnmatched: Keyword)
    ensures var r := MergeByKeywords(left, right, onMatched, onUnmatched);
      (!(Truthy(left) && Truthy(right)) ==> r == left || r == right || r == Undef)
      && (!Truthy(left) && !Truthy(right) ==> !Truthy(r))
      && (Truthy(left) && Truthy(right) && (onMatched == Both || onMatched == Thob) ==> r.Obj?)
      && (onMatched == NoRow && onUnmatched == NoRow ==> r == Undef)
  {
  }

  /** Calling a validated mapper. */
  function Apply(mapper: Mapping, left: Value, right: Value): Value {
    match mapper
    case ByKeywords(onMatched, onUnmatched) => MergeByKeywords(left, right, onMatched, onUnmatched)
    case ByFunction(f) => f(left, right)
  }

  /** `wrapper(mapped)`: nothing for a falsy value, the elements of an iterable (an array,
      or a string's characters), the value itself otherwise. */
  function Wrapper(mapped: Value): (r: seq<Value>)
    ensures !Truthy(mapped) ==> r == []
    ensures mapped.Arr? ==> r == mapped.items
    ensures mapped.Str? ==> |r| == |mapped.s| && forall i :: 0 <= i < |r| ==> r[i] == Str([mapped.s[i]])
    ensures Truthy(mapped) && !mapped.Arr? && !mapped.Str? ==> r == [mapped]
  {
    if !Truthy(mapped) then []
    else match mapped
      case Arr(items) => items
      case Str(s) => Chars(s)
      case _ => [mapped]
  }

  /** Iterating a string: its characters as one-character strings. */
  function Chars(s: string): (r: seq<Value>)
    ensures |r| == |s| && forall i :: 0 <= i < |r| ==> r[i] == Str([s[i]])
  {
    if s == [] then [] else [Str([s[0]])] + Chars(s[1..])
  }

  lemma OwnEntriesDistinct(v: Value)
    requires v.Obj? ==> DistinctKeys(v.entries)
    ensures DistinctKeys(OwnEntries(v))
  {
    match v
    case Arr(items) => IndexEntriesDistinct(items);
    case Str(s) => CharEntriesDistinct(s);
    case _ =>
  }

  /** After the overlay a key reads `top`'s value when `top` has it and `base`'s otherwise;
      no key is left holding `undefined`, and no key occurs twice. */
  lemma OverlayReads(base: Value, top: Value, k: string)
    requires base.Obj? ==> DistinctKeys(base.entries)
    requires top.Obj? ==> DistinctKeys(top.entries)
    ensures Get(Overlay(base, top), k) ==
      if HasKey(OwnEntries(top), k) then Get(OwnEntries(top), k) else Get(OwnEntries(base), k)
    ensures forall i :: 0 <= i < |Overlay(base, top)| ==> Overlay(base, top)[i].val != Undef
    ensures DistinctKeys(Overlay(base, top))
  {
    OwnEntriesDistinct(base);
    OwnEntriesDistinct(top);
    var inner := Assign([], OwnEntries(base));
    var outer := Assign(inner, OwnEntries(top));
    GetAssign([], OwnEntries(base), k);
    GetAssign(inner, OwnEntries(top), k);
    AssignKeepsDistinct([], OwnEntries(base));
    AssignKeepsDistinct(inner, OwnEntries(top));
    DropUndefinedReads(outer, k);
    DropUndefinedNoneLeft(outer);
    DropUndefinedKeepsDistinct(outer);
  }

  /** `both` on a matched pair: left's values win, right fills in the rest. */
  lemma BothPrefersLeft(left: Value, right: Value, onUnmatched: Keyword, k: string)
    requires Truthy(left) && Truthy(right)
    requires left.Obj? ==> DistinctKeys(left.entries)
    requires right.Obj? ==> DistinctKeys(right.entries)
    ensures var m := MergeByKeywords(left, right, Both, onUnmatched);
      m.Obj? && Get(m.entries, k) == if HasKey(OwnEntries(left), k) then Get(OwnEntries(left), k) else Get(OwnEntries(right), k)
  {
    OverlayReads(right, left, k);
  }

  /** `thob` on a matched pair: right's values win, left fills in the rest. */
  lemma ThobPrefersRight(left: Value, right: Value, onUnmatched: Keyword, k: string)
    requires Truthy(left) && Truthy(right)
    requires left.Obj? ==> DistinctKeys(left.entries)
    requires right.Obj? ==> DistinctKeys(right.entries)
    ensures var m := MergeByKeywords(left, right, Thob, onUnmatched);
      m.Obj? && Get(m.entries, k) == if HasKey(OwnEntries(right), k) then Get(OwnEntries(right), k) else Get(OwnEntries(left), k)
  {
    OverlayReads(left, right, k);
  }

  /** An unmatched row: `both`, `thob` and its own side keep it, `null`, `stack` and the
      other side drop it. */
  lemma UnmatchedRow(row: Value, onMatched: Keyword, onUnmatched: Keyword)
    requires Truthy(row)
    ensures MergeByKeywords(row, Undef, onMatched, onUnmatched) ==
      if onUnmatched in {Both, Thob, LeftRow} then row else Undef
    ensures MergeByKeywords(Undef, row, onMatched, onUnmatched) ==
      if onUnmatched in {Both, Thob, RightRow} then row else Undef
  {
  }

  /** `stack` emits the matched pair as two rows, left then right. */
  lemma StackEmitsBoth(left: Value, right: Value, onUnmatched: Keyword)
    requires Truthy(left) && Truthy(right)
    ensures Wrapper(MergeByKeywords(left, right, Stack, onUnmatched)) == [left, right]
  {
  }

  // ---------------------------------------------------------------------------
  // loopMerge.

  /** A matcher: its source text (read by the parser) and its verdict on a pair. */
  datatype Matcher = Matcher(text: string, holds: (Value, Value) -> bool)

  /** The pair loop pairs rows `i` and `j`: neither is `undefined` or `null` and the
      matcher holds. */
  predicate Matched(leftData: seq<Value>, rightData: seq<Value>, matcher: Matcher, i: nat, j: nat)
    requires i < |leftData| && j < |rightData|
  {
    Pairs(matcher, leftData[i], rightData[j])
  }

  /** Two rows pair: neither is `undefined` or `null`, and the matcher holds. */
  predicate Pairs(matcher: Matcher, left: Value, right: Value) {
    !Nullish(left) && !Nullish(right) && matcher.holds(left, right)
  }

  /** Left row `i` matches one of the first `n` right rows. */
  predicate LeftHit(leftData: seq<Value>, rightData: seq<Value>, matcher: Matcher, i: nat, n: nat)
    requires i < |leftData| && n <= |rightData|
  {
    exists j :: 0 <= j < n && Matched(leftData, rightData, matcher, i, j)
  }

  /** Right row `j` matches one of the first `m` left rows. */
  predicate RightHit(leftData: seq<Value>, rightData: seq<Value>, matcher: Matcher, j: nat, m: nat)
    requires j < |rightData| && m <= |leftData|
  {
    exists i :: 0 <= i < m && Matched(leftData, rightData, matcher, i, j)
  }

  /** What the pair loop emits for left row `i` against the first `n` right rows. */
  function RowOutput(leftData: seq<Value>, rightData: seq<Value>, matcher: Matcher, mapper: Mapping, i: nat, n: nat): seq<Value>
    requires i < |leftData| && n <= |rightData|
  {
    if n == 0 then []
    else
      RowOutput(leftData, rightData, matcher, mapper, i, n - 1)
      + (if Matched(leftData, rightData, matcher, i, n - 1)
         then Emitted(mapper, leftData[i], rightData[n - 1]) else [])
  }

  /** What the pair loop emits for the first `m` left rows, left-major. */
  function PairsOutput(leftData: seq<Value>, rightData: seq<Value>, matcher: Matcher, mapper: Mapping, m: nat): seq<Value>
    requires m <= |leftData|
  {
    if m == 0 then []
    else
      PairsOutput(leftData, rightData, matcher, mapper, m - 1)
      + RowOutput(leftData, rightData, matcher, mapper, m - 1, |rightData|)
  }

  /** `mapper(l, undefined)` for each of the first `m` left rows that matched nothing. */
  function LeftRest(leftData: seq<Value>, rightData: seq<Value>, matcher: Matcher, mapper: Mapping, m: nat): seq<Value>
    requires m <= |leftData|
  {
    if m == 0 then []
    else
      LeftRest(leftData, rightData, matcher, mapper, m - 1)
      + (if !LeftHit(leftData, rightData, matcher, m - 1, |rightData|)
         then Emitted(mapper, leftData[m - 1], Undef) else [])
  }

  /** `mapper(undefined, r)` for each of the first `n` right rows that matched nothing. */
  function RightRest(leftData: seq<Value>, rightData: seq<Value>, matcher: Matcher, mapper: Mapping, n: nat): seq<Value>
    requires n <= |rightData|
  {
    if n == 0 then []
    else
      RightRest(leftData, rightData, matcher, mapper, n - 1)
      + (if !RightHit(leftData, rightData, matcher, n - 1, |leftData|)
         then Emitted(mapper, Undef, rightData[n - 1]) else [])
  }

  /** What `loopMerge` yields: the matched pairs, then the unmatched left rows, then the
      unmatched right rows. */
  function LoopMerged(leftData: seq<Value>, rightData: seq<Value>, matcher: Matcher, mapper: Mapping): (r: seq<Value>)
    ensures mapper == ByKeywords(NoRow, NoRow) ==> r == []
  {
    NullNullYieldsNothing(leftData, rightData, matcher, mapper);
    PairsOutput(leftData, rightData, matcher, mapper, |leftData|)
    + LeftRest(leftData, rightData, matcher, mapper, |leftData|)
    + RightRest(leftData, rightData, matcher, mapper, |rightData|)
  }

  lemma NullNullEmitsNothing(left: Value, right: Value)
    ensures Emitted(ByKeywords(NoRow, NoRow), left, right) == []
  {
    assert Apply(ByKeywords(NoRow, NoRow), left, right) == Undef;
  }

  /** Under `null null` not one of the three loops yields anything. */
  lemma NullNullYieldsNothing(leftData: seq<Value>, rightData: seq<Value>, matcher: Matcher, mapper: Mapping)
    ensures mapper == ByKeywords(NoRow, NoRow) ==>
      PairsOutput(leftData, rightData, matcher, mapper, |leftData|) == []
      && LeftRest(leftData, rightData, matcher, mapper, |leftData|) == []
      && RightRest(leftData, rightData, matcher, mapper, |rightData|) == []
  {
    if mapper == ByKeywords(NoRow, NoRow) {
      var pairs := PairsOutput(leftData, rightData, matcher, mapper, |leftData|);
      var lefts := LeftRest(leftData, rightData, matcher, mapper, |leftData|);
      var rights := RightRest(leftData, rightData, matcher, mapper, |rightData|);
      if pairs != [] {
        PairsOutputMembers(leftData, rightData, matcher, mapper, |leftData|, pairs[0]);
        var i, j :| 0 <= i < |leftData| && 0 <= j < |rightData| && Matched(leftData, rightData, matcher, i, j)
          && pairs[0] in Emitted(mapper, leftData[i], rightData[j]);
        NullNullEmitsNothing(leftData[i], rightData[j]);
        assert false;
      }
      if lefts != [] {
        LeftRestMembers(leftData, rightData, matcher, mapper, |leftData|, lefts[0]);
        var i :| 0 <= i < |leftData| && !LeftHit(leftData, rightData, matcher, i, |rightData|)
          && lefts[0] in Emitted(mapper, leftData[i], Undef);
        NullNullEmitsNothing(leftData[i], Undef);
        assert false;
      }
      if rights != [] {
        RightRestMembers(leftData, rightData, matcher, mapper, |rightData|, rights[0]);
        var j :| 0 <= j < |rightData| && !RightHit(leftData, rightData, matcher, j, |leftData|)
          && rights[0] in Emitted(mapper, Undef, rightData[j]);
        NullNullEmitsNothing(Undef, rightData[j]);
        assert false;
      }
    }
  }

  lemma LeftHitStep(leftData: seq<Value>, rightData: seq<Value>, matcher: Matcher, i: nat, n: nat)
    requires i < |leftData| && n < |rightData|
    ensures LeftHit(leftData, rightData, matcher, i, n + 1) <==>
      LeftHit(leftData, rightData, matcher, i, n) || Matched(leftData, rightData, matcher, i, n)
  {
    if LeftHit(leftData, rightData, matcher, i, n + 1) {
      var j :| 0 <= j < n + 1 && Matched(leftData, rightData, matcher, i, j);
      if j < n { assert LeftHit(leftData, rightData, matcher, i, n); }
    }
  }

  lemma RightHitStep(leftData: seq<Value>, rightData: seq<Value>, matcher: Matcher, j: nat, m: nat)
    requires j < |rightData| && m < |leftData|
    ensures RightHit(leftData, rightData, matcher, j, m + 1) <==>
      RightHit(leftData, rightData, matcher, j, m) || Matched(leftData, rightData, matcher, m, j)
  {
    if RightHit(leftData, rightData, matcher, j, m + 1) {
      var i :| 0 <= i < m + 1 && Matched(leftData, rightData, matcher, i, j);
      if i < m { assert RightHit(leftData, rightData, matcher, j, m); }
    }
  }

  /** One pass of the inner loop of `loopMerge`, for left row `l`: what it yields, and
      the hit sets with `l` and the right rows it matched added. */
  method MatchRow(leftData: seq<Value>, rightData: seq<Value>, matcher: Matcher, mapper: Mapping, l: nat,
                  leftHits: set<nat>, rightHits: set<nat>)
    returns (out: seq<Value>, leftHits': set<nat>, rightHits': set<nat>)
    requires l < |leftData|
    ensures out == RowOutput(leftData, rightData, matcher, mapper, l, |rightData|)
    ensures forall i: nat :: i in leftHits' <==>
      i in leftHits || (i == l && LeftHit(leftData, rightData, matcher, l, |rightData|))
    ensures forall j: nat :: j in rightHits' <==>
      j in rightHits || (j < |rightData| && Matched(leftData, rightData, matcher, l, j))
  {
    out := [];
    leftHits', rightHits' := leftHits, rightHits;
    for r := 0 to |rightData|
      invariant out == RowOutput(leftData, rightData, matcher, mapper, l, r)
      invariant forall i: nat :: i in leftHits' <==>
        i in leftHits || (i == l && LeftHit(leftData, rightData, matcher, l, r))
      invariant forall j: nat :: j in rightHits' <==>
        j in rightHits || (j < r && Matched(leftData, rightData, matcher, l, j))
    {
      LeftHitStep(leftData, rightData, matcher, l, r);
      if Nullish(leftData[l]) || Nullish(rightData[r]) {
        continue;
      }
      if matcher.holds(leftData[l], rightData[r]) {
        leftHits' := leftHits' + {l};
        rightHits' := rightHits' + {r};
        out := out + Wrapper(Apply(mapper, leftData[l], rightData[r]));
      }
    }
  }

  /** The pair loop of `loopMerge`: every matched pair left-major, with the indices of
      the rows it hit. */
  method MatchPairs(leftData: seq<Value>, rightData: seq<Value>, matcher: Matcher, mapper: Mapping)
    returns (out: seq<Value>, leftHits: set<nat>, rightHits: set<nat>)
    ensures out == PairsOutput(leftData, rightData, matcher, mapper, |leftData|)
    ensures forall i: nat :: i in leftHits <==> i < |leftData| && LeftHit(leftData, rightData, matcher, i, |rightData|)
    ensures forall j: nat :: j in rightHits <==> j < |rightData| && RightHit(leftData, rightData, matcher, j, |leftData|)
  {
    leftHits, rightHits := {}, {};
    out := [];
    for l := 0 to |leftData|
      invariant out == PairsOutput(leftData, rightData, matcher, mapper, l)
      invariant forall i: nat :: i in leftHits <==> i < l && LeftHit(leftData, rightData, matcher, i, |rightData|)
      invariant forall j: nat :: j in rightHits <==> j < |rightData| && RightHit(leftData, rightData, matcher, j, l)
    {
      var row;
      row, leftHits, rightHits := MatchRow(leftData, rightData, matcher, mapper, l, leftHits, rightHits);
      out := out + row;
      forall j: nat | j < |rightData| {
        RightHitStep(leftData, rightData, matcher, j, l);
      }
    }
  }

  /** The second loop of `loopMerge`: `mapper(l, undefined)` for each left row not hit. */
  method EmitLeftRest(leftData: seq<Value>, rightData: seq<Value>, matcher: Matcher, mapper: Mapping, leftHits: set<nat>)
    returns (out: seq<Value>)
    requires forall i: nat :: i in leftHits <==> i < |leftData| && LeftHit(leftData, rightData, matcher, i, |rightData|)
    ensures out == LeftRest(leftData, rightData, matcher, mapper, |leftData|)
  {
    out := [];
    for l := 0 to |leftData|
      invariant out == LeftRest(leftData, rightData, matcher, mapper, l)
    {
      if l !in leftHits {
        out := out + Wrapper(Apply(mapper, leftData[l], Undef));
      }
    }
  }

  /** The third loop of `loopMerge`: `mapper(undefined, r)` for each right row not hit. */
  method EmitRightRest(leftData: seq<Value>, rightData: seq<Value>, matcher: Matcher, mapper: Mapping, rightHits: set<nat>)
    returns (out: seq<Value>)
    requires forall j: nat :: j in rightHits <==> j < |rightData| && RightHit(leftData, rightData, matcher, j, |leftData|)
    ensures out == RightRest(leftData, rightData, matcher, mapper, |rightData|)
  {
    out := [];
    for r := 0 to |rightData|
      invariant out == RightRest(leftData, rightData, matcher, mapper, r)
    {
      if r !in rightHits {
        out := out + Wrapper(Apply(mapper, Undef, rightData[r]));
      }
    }
  }

  /** `loopMerge`: the pair loop records the indices it hits in `leftHits` and
      `rightHits`; the two passes after it emit the rows never hit. */
  method LoopMerge(leftData: seq<Value>, rightData: seq<Value>, matcher: Matcher, mapper: Mapping) returns (out: seq<Value>)
    ensures out == LoopMerged(leftData, rightData, matcher, mapper)
  {
    var pairs, leftHits, rightHits := MatchPairs(leftData, rightData, matcher, mapper);
    var lefts := EmitLeftRest(leftData, rightData, matcher, mapper, leftHits);
    var rights := EmitRightRest(leftData, rightData, matcher, mapper, rightHits);
    out := pairs + lefts + rights;
  }

  // ---------------------------------------------------------------------------
  // What loopMerge yields.

  /** What a pair of rows contributes once mapped and wrapped. */
  function Emitted(mapper: Mapping, left: Value, right: Value): seq<Value> {
    Wrapper(Apply(mapper, left, right))
  }

  /** A value appears in a row's output exactly when a right row it matched emitted it. */
  lemma {:induction false} RowOutputMembers(leftData: seq<Value>, rightData: seq<Value>, matcher: Matcher, mapper: Mapping,
                                            i: nat, n: nat, x: Value)
    requires i < |leftData| && n <= |rightData|
    ensures x in RowOutput(leftData, rightData, matcher, mapper, i, n) <==>
      exists j :: 0 <= j < n && Matched(leftData, rightData, matcher, i, j) && x in Emitted(mapper, leftData[i], rightData[j])
  {
    if n > 0 {
      RowOutputMembers(leftData, rightData, matcher, mapper, i, n - 1, x);
      if x in RowOutput(leftData, rightData, matcher, mapper, i, n) && x !in RowOutput(leftData, rightData, matcher, mapper, i, n - 1) {
        assert Matched(leftData, rightData, matcher, i, n - 1) && x in Emitted(mapper, leftData[i], rightData[n - 1]);
      }
    }
  }

  /** A value appears among the pairs exactly when some matched pair emitted it. */
  lemma {:induction false} PairsOutputMembers(leftData: seq<Value>, rightData: seq<Value>, matcher: Matcher, mapper: Mapping,
                                              m: nat, x: Value)
    requires m <= |leftData|
    ensures x in PairsOutput(leftData, rightData, matcher, mapper, m) <==>
      exists i, j :: 0 <= i < m && 0 <= j < |rightData| && Matched(leftData, rightData, matcher, i, j)
        && x in Emitted(mapper, leftData[i], rightData[j])
  {
    if m > 0 && x in PairsOutput(leftData, rightData, matcher, mapper, m) {
      var i, j := PairsOutputSource(leftData, rightData, matcher, mapper, m, x);
    }
    forall i, j | 0 <= i < m && 0 <= j < |rightData| && Matched(leftData, rightData, matcher, i, j)
        && x in Emitted(mapper, leftData[i], rightData[j])
      ensures x in PairsOutput(leftData, rightData, matcher, mapper, m)
    {
      RowOutputHas(leftData, rightData, matcher, mapper, i, |rightData|, j, x);
      PairsOutputHas(leftData, rightData, matcher, mapper, m, i, x);
    }
  }

  /** A value among the pairs' output comes from a matched pair. */
  lemma {:induction false} PairsOutputSource(leftData: seq<Value>, rightData: seq<Value>, matcher: Matcher, mapper: Mapping,
                                             m: nat, x: Value) returns (i: nat, j: nat)
    requires 0 < m <= |leftData|
    requires x in PairsOutput(leftData, rightData, matcher, mapper, m)
    ensures i < m && j < |rightData| && Matched(leftData, rightData, matcher, i, j)
    ensures x in Emitted(mapper, leftData[i], rightData[j])
  {
    var before := PairsOutput(leftData, rightData, matcher, mapper, m - 1);
    var row := RowOutput(leftData, rightData, matcher, mapper, m - 1, |rightData|);
    assert PairsOutput(leftData, rightData, matcher, mapper, m) == before + row;
    if m > 1 && x in before {
      i, j := PairsOutputSource(leftData, rightData, matcher, mapper, m - 1, x);
    } else {
      RowOutputMembers(leftData, rightData, matcher, mapper, m - 1, |rightData|, x);
      i := m - 1;
      j :| 0 <= j < |rightData| && Matched(leftData, rightData, matcher, i, j)
        && x in Emitted(mapper, leftData[i], rightData[j]);
    }
  }

  /** What a left row's pass emits is among the pairs' output. */
  lemma {:induction false} PairsOutputHas(leftData: seq<Value>, rightData: seq<Value>, matcher: Matcher, mapper: Mapping,
                                          m: nat, i: nat, x: Value)
    requires m <= |leftData| && i < m
    requires x in RowOutput(leftData, rightData, matcher, mapper, i, |rightData|)
    ensures x in PairsOutput(leftData, rightData, matcher, mapper, m)
  {
    if i < m - 1 {
      PairsOutputHas(leftData, rightData, matcher, mapper, m - 1, i, x);
    }
    InPrefixOrSuffix(x, PairsOutput(leftData, rightData, matcher, mapper, m - 1),
      RowOutput(leftData, rightData, matcher, mapper, m - 1, |rightData|), i < m - 1);
  }

  /** A member of either part is a member of the concatenation. */
  lemma InPrefixOrSuffix(x: Value, a: seq<Value>, b: seq<Value>, inA: bool)
    requires if inA then x in a else x in b
    ensures x in a + b
  {
  }

  /** What a matched pair emits is in its left row's output. */
  lemma {:induction false} RowOutputHas(leftData: seq<Value>, rightData: seq<Value>, matcher: Matcher, mapper: Mapping,
                                        i: nat, n: nat, j: nat, x: Value)
    requires i < |leftData| && j < n <= |rightData| && Matched(leftData, rightData, matcher, i, j)
    requires x in Emitted(mapper, leftData[i], rightData[j])
    ensures x in RowOutput(leftData, rightData, matcher, mapper, i, n)
  {
    var before := RowOutput(leftData, rightData, matcher, mapper, i, n - 1);
    var last := if Matched(leftData, rightData, matcher, i, n - 1)
      then Emitted(mapper, leftData[i], rightData[n - 1]) else [];
    assert RowOutput(leftData, rightData, matcher, mapper, i, n) == before + last;
    if j < n - 1 {
      RowOutputHas(leftData, rightData, matcher, mapper, i, n - 1, j, x);
      assert x in before;
    } else {
      assert x in last;
    }
  }

  /** The concatenation of `emit(k)` over the indices `k < n` that `keep` admits, in order. */
  ghost function Collected(n: nat, keep: nat -> bool, emit: nat -> seq<Value>): seq<Value> {
    if n == 0 then [] else Collected(n - 1, keep, emit) + (if keep(n - 1) then emit(n - 1) else [])
  }

  lemma {:induction false} CollectedMembers(n: nat, keep: nat -> bool, emit: nat -> seq<Value>, x: Value)
    ensures x in Collected(n, keep, emit) <==> exists k :: 0 <= k < n && keep(k) && x in emit(k)
  {
    if n > 0 {
      CollectedMembers(n - 1, keep, emit, x);
      assert Collected(n, keep, emit) == Collected(n - 1, keep, emit) + (if keep(n - 1) then emit(n - 1) else []);
    }
  }

  lemma {:induction false} LeftRestCollected(leftData: seq<Value>, rightData: seq<Value>, matcher: Matcher, mapper: Mapping, m: nat)
    requires m <= |leftData|
    ensures LeftRest(leftData, rightData, matcher, mapper, m) == Collected(m,
      (k: nat) => k < |leftData| && !LeftHit(leftData, rightData, matcher, k, |rightData|),
      (k: nat) => if k < |leftData| then Emitted(mapper, leftData[k], Undef) else [])
  {
    if m > 0 {
      var keep := (k: nat) => k < |leftData| && !LeftHit(leftData, rightData, matcher, k, |rightData|);
      var emit := (k: nat) => if k < |leftData| then Emitted(mapper, leftData[k], Undef) else [];
      LeftRestCollected(leftData, rightData, matcher, mapper, m - 1);
      assert keep(m - 1) == !LeftHit(leftData, rightData, matcher, m - 1, |rightData|);
      assert emit(m - 1) == Emitted(mapper, leftData[m - 1], Undef);
      assert Collected(m, keep, emit) == Collected(m - 1, keep, emit) + (if keep(m - 1) then emit(m - 1) else []);
    }
  }

  lemma {:induction false} RightRestCollected(leftData: seq<Value>, rightData: seq<Value>, matcher: Matcher, mapper: Mapping, n: nat)
    requires n <= |rightData|
    ensures RightRest(leftData, rightData, matcher, mapper, n) == Collected(n,
      (k: nat) => k < |rightData| && !RightHit(leftData, rightData, matcher, k, |leftData|),
      (k: nat) => if k < |rightData| then Emitted(mapper, Undef, rightData[k]) else [])
  {
    if n > 0 {
      var keep := (k: nat) => k < |rightData| && !RightHit(leftData, rightData, matcher, k, |leftData|);
      var emit := (k: nat) => if k < |rightData| then Emitted(mapper, Undef, rightData[k]) else [];
      RightRestCollected(leftData, rightData, matcher, mapper, n - 1);
      assert keep(n - 1) == !RightHit(leftData, rightData, matcher, n - 1, |leftData|);
      assert emit(n - 1) == Emitted(mapper, Undef, rightData[n - 1]);
      assert Collected(n, keep, emit) == Collected(n - 1, keep, emit) + (if keep(n - 1) then emit(n - 1) else []);
    }
  }

  /** A value appears among the unmatched left rows exactly when such a row, mapped with
      `undefined`, emitted it. */
  lemma LeftRestMembers(leftData: seq<Value>, rightData: seq<Value>, matcher: Matcher, mapper: Mapping,
                        m: nat, x: Value)
    requires m <= |leftData|
    ensures x in LeftRest(leftData, rightData, matcher, mapper, m) <==>
      exists i :: 0 <= i < m && !LeftHit(leftData, rightData, matcher, i, |rightData|)
        && x in Emitted(mapper, leftData[i], Undef)
  {
    var keep := (k: nat) => k < |leftData| && !LeftHit(leftData, rightData, matcher, k, |rightData|);
    var emit := (k: nat) => if k < |leftData| then Emitted(mapper, leftData[k], Undef) else [];
    LeftRestCollected(leftData, rightData, matcher, mapper, m);
    CollectedMembers(m, keep, emit, x);
    if x in LeftRest(leftData, rightData, matcher, mapper, m) {
      var k :| 0 <= k < m && keep(k) && x in emit(k);
      assert !LeftHit(leftData, rightData, matcher, k, |rightData|) && x in Emitted(mapper, leftData[k], Undef);
    }
    if exists i :: 0 <= i < m && !LeftHit(leftData, rightData, matcher, i, |rightData|) && x in Emitted(mapper, leftData[i], Undef) {
      var i :| 0 <= i < m && !LeftHit(leftData, rightData, matcher, i, |rightData|) && x in Emitted(mapper, leftData[i], Undef);
      assert keep(i) && x in emit(i);
    }
  }

  /** A value appears among the unmatched right rows exactly when such a row, mapped with
      `undefined`, emitted it. */
  lemma RightRestMembers(leftData: seq<Value>, rightData: seq<Value>, matcher: Matcher, mapper: Mapping,
                         n: nat, x: Value)
    requires n <= |rightData|
    ensures x in RightRest(leftData, rightData, matcher, mapper, n) <==>
      exists j :: 0 <= j < n && !RightHit(leftData, rightData, matcher, j, |leftData|)
        && x in Emitted(mapper, Undef, rightData[j])
  {
    var keep := (k: nat) => k < |rightData| && !RightHit(leftData, rightData, matcher, k, |leftData|);
    var emit := (k: nat) => if k < |rightData| then Emitted(mapper, Undef, rightData[k]) else [];
    RightRestCollected(leftData, rightData, matcher, mapper, n);
    CollectedMembers(n, keep, emit, x);
    if x in RightRest(leftData, rightData, matcher, mapper, n) {
      var k :| 0 <= k < n && keep(k) && x in emit(k);
      assert !RightHit(leftData, rightData, matcher, k, |leftData|) && x in Emitted(mapper, Undef, rightData[k]);
    }
    if exists j :: 0 <= j < n && !RightHit(leftData, rightData, matcher, j, |leftData|) && x in Emitted(mapper, Undef, rightData[j]) {
      var j :| 0 <= j < n && !RightHit(leftData, rightData, matcher, j, |leftData|) && x in Emitted(mapper, Undef, rightData[j]);
      assert keep(j) && x in emit(j);
    }
  }

  /** Everything `loopMerge` yields comes from a matched pair, from a left row that
      matched nothing, or from a right row that matched nothing, and everything those
      emit is yielded. */
  lemma LoopMergedMembers(leftData: seq<Value>, rightData: seq<Value>, matcher: Matcher, mapper: Mapping, x: Value)
    ensures x in LoopMerged(leftData, rightData, matcher, mapper) <==>
      (exists i, j :: 0 <= i < |leftData| && 0 <= j < |rightData| && Matched(leftData, rightData, matcher, i, j)
           && x in Emitted(mapper, leftData[i], rightData[j]))
      || (exists i :: 0 <= i < |leftData| && !LeftHit(leftData, rightData, matcher, i, |rightData|)
           && x in Emitted(mapper, leftData[i], Undef))
      || (exists j :: 0 <= j < |rightData| && !RightHit(leftData, rightData, matcher, j, |leftData|)
           && x in Emitted(mapper, Undef, rightData[j]))
  {
    PairsOutputMembers(leftData, rightData, matcher, mapper, |leftData|, x);
    LeftRestMembers(leftData, rightData, matcher, mapper, |leftData|, x);
    RightRestMembers(leftData, rightData, matcher, mapper, |rightData|, x);
  }

  /** With `null` for unmatched rows, a row paired with `undefined` yields nothing. */
  lemma UnmatchedNull(onMatched: Keyword, row: Value)
    ensures Emitted(ByKeywords(onMatched, NoRow), row, Undef) == []
    ensures Emitted(ByKeywords(onMatched, NoRow), Undef, row) == []
  {
  }

  /** Inner join: with `null` for unmatched rows, `loopMerge` yields the matched pairs
      and nothing else. */
  lemma InnerLoopMerge(leftData: seq<Value>, rightData: seq<Value>, matcher: Matcher, onMatched: Keyword)
    ensures LoopMerged(leftData, rightData, matcher, ByKeywords(onMatched, NoRow))
      == PairsOutput(leftData, rightData, matcher, ByKeywords(onMatched, NoRow), |leftData|)
  {
    var mapper := ByKeywords(onMatched, NoRow);
    var pairs := PairsOutput(leftData, rightData, matcher, mapper, |leftData|);
    var lefts := LeftRest(leftData, rightData, matcher, mapper, |leftData|);
    var rights := RightRest(leftData, rightData, matcher, mapper, |rightData|);
    if lefts != [] {
      LeftRestMembers(leftData, rightData, matcher, mapper, |leftData|, lefts[0]);
      var i :| 0 <= i < |leftData| && !LeftHit(leftData, rightData, matcher, i, |rightData|)
        && lefts[0] in Emitted(mapper, leftData[i], Undef);
      UnmatchedNull(onMatched, leftData[i]);
      assert false;
    }
    if rights != [] {
      RightRestMembers(leftData, rightData, matcher, mapper, |rightData|, rights[0]);
      var j :| 0 <= j < |rightData| && !RightHit(leftData, rightData, matcher, j, |leftData|)
        && rights[0] in Emitted(mapper, Undef, rightData[j]);
      UnmatchedNull(onMatched, rightData[j]);
      assert false;
    }
    assert LoopMerged(leftData, rightData, matcher, mapper) == pairs + lefts + rights;
    assert pairs + [] + [] == pairs;
  }

  /** Left join: with `left` for unmatched rows, every left record that matched nothing is
      yielded unchanged, and no right row that matched nothing contributes. */
  lemma LeftLoopMerge(leftData: seq<Value>, rightData: seq<Value>, matcher: Matcher, onMatched: Keyword, i: nat)
    requires i < |leftData| && leftData[i].Obj?
    requires !LeftHit(leftData, rightData, matcher, i, |rightData|)
    ensures leftData[i] in LoopMerged(leftData, rightData, matcher, ByKeywords(onMatched, LeftRow))
    ensures RightRest(leftData, rightData, matcher, ByKeywords(onMatched, LeftRow), |rightData|) == []
  {
    var mapper := ByKeywords(onMatched, LeftRow);
    assert Emitted(mapper, leftData[i], Undef) == [leftData[i]];
    LeftRestMembers(leftData, rightData, matcher, mapper, |leftData|, leftData[i]);
    LoopMergedMembers(leftData, rightData, matcher, mapper, leftData[i]);
    var rights := RightRest(leftData, rightData, matcher, mapper, |rightData|);
    if rights != [] {
      RightRestMembers(leftData, rightData, matcher, mapper, |rightData|, rights[0]);
    }
  }

  /** A row that is `undefined` or `null` never pairs, so it only ever meets the mapper
      on its own. */
  lemma NullishNeverPairs(leftData: seq<Value>, rightData: seq<Value>, matcher: Matcher, i: nat)
    requires i < |leftData| && Nullish(leftData[i])
    ensures !LeftHit(leftData, rightData, matcher, i, |rightData|)
  {
  }

  /** The pairs part of `loopMerge`, by value: what every pairing left and right row emits. */
  lemma PairsOutputByValue(leftData: seq<Value>, rightData: seq<Value>, matcher: Matcher, mapper: Mapping, x: Value)
    ensures x in PairsOutput(leftData, rightData, matcher, mapper, |leftData|) <==>
      exists l, r :: l in leftData && r in rightData && Pairs(matcher, l, r) && x in Emitted(mapper, l, r)
  {
    PairsOutputMembers(leftData, rightData, matcher, mapper, |leftData|, x);
    if exists l, r :: l in leftData && r in rightData && Pairs(matcher, l, r) && x in Emitted(mapper, l, r) {
      var l, r :| l in leftData && r in rightData && Pairs(matcher, l, r) && x in Emitted(mapper, l, r);
      var i :| 0 <= i < |leftData| && leftData[i] == l;
      var j :| 0 <= j < |rightData| && rightData[j] == r;
      assert Matched(leftData, rightData, matcher, i, j);
    }
  }

  // ---------------------------------------------------------------------------
  // hashMerge.

  /** `removeBucket(rightBuckets, key) || [undefined]` on a right table none of whose
      other keys were taken. */
  function RightBucket(rt: Table, k: string): (b: seq<Value>)
    ensures k !in rt.buckets ==> b == [Undef]
  {
    if k in rt.buckets then rt.buckets[k] else [Undef]
  }

  /** The first loop of `hashMerge`: each left bucket, in key order, loop-merged with
      its right bucket. */
  function LeftPass(keys: seq<string>, lt: Table, rt: Table, matcher: Matcher, mapper: Mapping): seq<Value>
    decreases |keys|
  {
    if keys == [] then []
    else
      var k := keys[|keys| - 1];
      LeftPass(keys[..|keys| - 1], lt, rt, matcher, mapper) + LoopMerged(Lookup(lt, k), RightBucket(rt, k), matcher, mapper)
  }

  lemma LeftPassSnoc(keys: seq<string>, k: string, lt: Table, rt: Table, matcher: Matcher, mapper: Mapping)
    ensures LeftPass(keys + [k], lt, rt, matcher, mapper)
      == LeftPass(keys, lt, rt, matcher, mapper) + LoopMerged(Lookup(lt, k), RightBucket(rt, k), matcher, mapper)
  {
    assert (keys + [k])[..|keys|] == keys;
  }

  /** `mapper(undefined, r)` for each item of an unclaimed right bucket. */
  function Unmatched(items: seq<Value>, mapper: Mapping): seq<Value>
    decreases |items|
  {
    if items == [] then []
    else Unmatched(items[..|items| - 1], mapper) + Emitted(mapper, Undef, items[|items| - 1])
  }

  /** The second loop of `hashMerge`, over the right keys still in the map. */
  function RightPass(keys: seq<string>, rt: Table, mapper: Mapping): seq<Value>
    decreases |keys|
  {
    if keys == [] then []
    else RightPass(keys[..|keys| - 1], rt, mapper) + Unmatched(Lookup(rt, keys[|keys| - 1]), mapper)
  }

  /** What `hashMerge` yields; building either side's buckets throws on a `null` key. */
  function HashMerged(leftData: seq<Value>, rightData: seq<Value>, matcher: Matcher,
                      leftHasher: Selector, rightHasher: Selector, mapper: Mapping): (r: Result<seq<Value>>)
    ensures r.Err? ==> r.error == NullKey
  {
    match Grouped(leftData, leftHasher)
    case None => Err(NullKey)
    case Some(lt) =>
      match Grouped(rightData, rightHasher)
      case None => Err(NullKey)
      case Some(rt) =>
        var rest := RemoveKeys(rt, lt.order);
        Ok(LeftPass(lt.order, lt, rt, matcher, mapper) + RightPass(rest.order, rest, mapper))
  }

  /** The hash merge succeeds exactly when every row on both sides has a key. */
  lemma HashMergeNeedsKeys(leftData: seq<Value>, rightData: seq<Value>, matcher: Matcher,
                           leftHasher: Selector, rightHasher: Selector, mapper: Mapping)
    ensures HashMerged(leftData, rightData, matcher, leftHasher, rightHasher, mapper).Ok? <==>
      (forall i :: 0 <= i < |leftData| ==> KeyOf(leftHasher, leftData[i]).Some?)
      && (forall j :: 0 <= j < |rightData| ==> KeyOf(rightHasher, rightData[j]).Some?)
  {
    AddAllSucceeds(EmptyTable, leftData, leftHasher);
    AddAllSucceeds(EmptyTable, rightData, rightHasher);
  }

  /** The second loop of `hashMerge`, for one bucket. */
  method EmitUnmatched(bucket: seq<Value>, mapper: Mapping) returns (out: seq<Value>)
    ensures out == Unmatched(bucket, mapper)
  {
    out := [];
    for i := 0 to |bucket|
      invariant out == Unmatched(bucket[..i], mapper)
    {
      assert bucket[..i + 1][..i] == bucket[..i];
      out := out + Emitted(mapper, Undef, bucket[i]);
    }
    assert bucket[..|bucket|] == bucket;
  }

  /** The first loop of `hashMerge`: each left key's bucket removed and loop-merged with
      the right bucket it removes, or `[undefined]`. */
  method DrainLeft(leftBuckets: HashBuckets, rightBuckets: HashBuckets, matcher: Matcher, mapper: Mapping)
    returns (out: seq<Value>)
    requires leftBuckets.Valid() && rightBuckets.Valid() && leftBuckets != rightBuckets
    modifies leftBuckets, rightBuckets
    ensures rightBuckets.Valid()
    ensures rightBuckets.State() == RemoveKeys(old(rightBuckets.State()), old(leftBuckets.order))
    ensures out == LeftPass(old(leftBuckets.order), old(leftBuckets.State()), old(rightBuckets.State()), matcher, mapper)
  {
    ghost var lt := leftBuckets.State();
    ghost var rt := rightBuckets.State();
    var keys := leftBuckets.GetKeys();
    assert TableValid(lt) && keys == lt.order;
    out := [];
    for i := 0 to |keys|
      invariant leftBuckets.Valid() && rightBuckets.Valid()
      invariant leftBuckets.State() == RemoveKeys(lt, keys[..i])
      invariant rightBuckets.State() == RemoveKeys(rt, keys[..i])
      invariant out == LeftPass(keys[..i], lt, rt, matcher, mapper)
    {
      out := MergeKey(leftBuckets, rightBuckets, matcher, mapper, keys, i, lt, rt, out);
    }
    assert keys[..|keys|] == keys;
  }

  /** One step of the first loop: the left bucket of `key` and the right bucket of `key`,
      both removed, loop-merged and appended to what the loop has yielded so far. */
  method MergeKey(leftBuckets: HashBuckets, rightBuckets: HashBuckets, matcher: Matcher, mapper: Mapping,
                  keys: seq<string>, i: nat, ghost lt: Table, ghost rt: Table, acc: seq<Value>)
    returns (out: seq<Value>)
    requires TableValid(lt) && keys == lt.order && i < |keys|
    requires leftBuckets.Valid() && rightBuckets.Valid() && leftBuckets != rightBuckets
    requires leftBuckets.State() == RemoveKeys(lt, keys[..i]) && rightBuckets.State() == RemoveKeys(rt, keys[..i])
    requires acc == LeftPass(keys[..i], lt, rt, matcher, mapper)
    modifies leftBuckets, rightBuckets
    ensures leftBuckets.Valid() && rightBuckets.Valid()
    ensures leftBuckets.State() == RemoveKeys(lt, keys[..i + 1])
    ensures rightBuckets.State() == RemoveKeys(rt, keys[..i + 1])
    ensures out == LeftPass(keys[..i + 1], lt, rt, matcher, mapper)
  {
    NextOrderKey(lt, i);
    out := TakeAndMerge(leftBuckets, rightBuckets, matcher, mapper, keys[i], lt, rt, keys[..i], acc);
  }

  /** The `i`-th key of a valid table's order is one of its keys and not among the
      earlier ones. */
  lemma NextOrderKey(t: Table, i: nat)
    requires TableValid(t) && i < |t.order|
    ensures t.order[i] in t.buckets && t.order[i] !in t.order[..i]
    ensures t.order[..i + 1] == t.order[..i] + [t.order[i]]
  {
  }

  method TakeAndMerge(leftBuckets: HashBuckets, rightBuckets: HashBuckets, matcher: Matcher, mapper: Mapping, key: string,
                      ghost lt: Table, ghost rt: Table, ghost done: seq<string>, acc: seq<Value>)
    returns (out: seq<Value>)
    requires leftBuckets.Valid() && rightBuckets.Valid() && leftBuckets != rightBuckets
    requires leftBuckets.State() == RemoveKeys(lt, done) && rightBuckets.State() == RemoveKeys(rt, done)
    requires key in lt.buckets && key !in done
    requires acc == LeftPass(done, lt, rt, matcher, mapper)
    modifies leftBuckets, rightBuckets
    ensures leftBuckets.Valid() && rightBuckets.Valid()
    ensures leftBuckets.State() == RemoveKeys(lt, done + [key])
    ensures rightBuckets.State() == RemoveKeys(rt, done + [key])
    ensures out == LeftPass(done + [key], lt, rt, matcher, mapper)
  {
    RemoveKeysContents(lt, done);
    RemoveKeysContents(rt, done);
    assert (done + [key])[..|done|] == done;
    var leftBucket := leftBuckets.Take(key);
    var rightBucket := rightBuckets.Take(key);
    var rows := if rightBucket.Some? then rightBucket.value else [Undef];
    var merged := LoopMerge(leftBucket.value, rows, matcher, mapper);
    LeftPassSnoc(done, key, lt, rt, matcher, mapper);
    out := acc + merged;
  }

  /** One step of the second loop: the bucket of `key`, removed and emitted as unmatched. */
  method DrainKey(rightBuckets: HashBuckets, mapper: Mapping, key: string, ghost rest: Table, ghost done: seq<string>)
    returns (unmatched: seq<Value>)
    requires rightBuckets.Valid() && rightBuckets.State() == RemoveKeys(rest, done)
    requires key in rest.buckets && key !in done
    modifies rightBuckets
    ensures rightBuckets.Valid()
    ensures rightBuckets.State() == RemoveKeys(rest, done + [key])
    ensures unmatched == Unmatched(Lookup(rest, key), mapper)
  {
    RemoveKeysContents(rest, done);
    assert (done + [key])[..|done|] == done;
    var bucket := rightBuckets.Take(key);
    unmatched := EmitUnmatched(bucket.value, mapper);
  }

  /** The second loop of `hashMerge`: every right key still in the map, its bucket
      removed and emitted as unmatched. */
  method DrainRight(rightBuckets: HashBuckets, mapper: Mapping) returns (out: seq<Value>)
    requires rightBuckets.Valid()
    modifies rightBuckets
    ensures out == RightPass(old(rightBuckets.order), old(rightBuckets.State()), mapper)
  {
    ghost var rest := rightBuckets.State();
    var keys := rightBuckets.GetKeys();
    out := [];
    for i := 0 to |keys|
      invariant rightBuckets.Valid()
      invariant rightBuckets.State() == RemoveKeys(rest, keys[..i])
      invariant out == RightPass(keys[..i], rest, mapper)
    {
      assert keys[i] !in keys[..i];
      assert keys[..i + 1] == keys[..i] + [keys[i]];
      var unmatched := DrainKey(rightBuckets, mapper, keys[i], rest, keys[..i]);
      out := out + unmatched;
    }
    assert keys[..|keys|] == keys;
  }

  /** `hashMerge`: both sides are bucketed by their hasher; each left key's bucket is
      removed and loop-merged with the right bucket it removes (or `[undefined]`), and
      the right buckets left over are emitted as unmatched. */
  method HashMerge(leftInput: Input, rightInput: Input, matcher: Matcher,
                   leftHasher: Selector, rightHasher: Selector, mapper: Mapping)
    returns (r: Result<seq<Value>>)
    ensures r == HashMergedInputs(leftInput, rightInput, matcher, leftHasher, rightHasher, mapper)
  {
    if leftInput.Uniterable? {
      return Err(ItemsNotIterable);
    }
    var leftData := leftInput.rows;
    var leftBuckets := new HashBuckets(leftHasher);
    var ok := leftBuckets.AddItems(leftData);
    if !ok {
      return Err(NullKey);
    }
    ghost var lt := leftBuckets.State();
    assert Grouped(leftData, leftHasher) == Some(lt);
    if rightInput.Uniterable? {
      return Err(ItemsNotIterable);
    }
    var rightData := rightInput.rows;
    var rightBuckets := new HashBuckets(rightHasher);
    ok := rightBuckets.AddItems(rightData);
    if !ok {
      return Err(NullKey);
    }
    ghost var rt := rightBuckets.State();
    assert Grouped(rightData, rightHasher) == Some(rt);
    var pairs := DrainLeft(leftBuckets, rightBuckets, matcher, mapper);
    assert pairs == LeftPass(lt.order, lt, rt, matcher, mapper);
    ghost var rest := rightBuckets.State();
    assert rest == RemoveKeys(rt, lt.order);
    var unmatched := DrainRight(rightBuckets, mapper);
    assert unmatched == RightPass(rest.order, rest, mapper);
    return Ok(pairs + unmatched);
  }

  // ---------------------------------------------------------------------------
  // What hashMerge yields.

  lemma {:induction false} LeftPassMembers(keys: seq<string>, lt: Table, rt: Table, matcher: Matcher, mapper: Mapping, x: Value)
    ensures x in LeftPass(keys, lt, rt, matcher, mapper) <==>
      exists k :: k in keys && x in LoopMerged(Lookup(lt, k), RightBucket(rt, k), matcher, mapper)
    decreases |keys|
  {
    if keys != [] {
      var init := keys[..|keys| - 1];
      LeftPassMembers(init, lt, rt, matcher, mapper, x);
      assert keys == init + [keys[|keys| - 1]];
    }
  }

  lemma {:induction false} UnmatchedMembers(items: seq<Value>, mapper: Mapping, x: Value)
    ensures x in Unmatched(items, mapper) <==> exists r :: r in items && x in Emitted(mapper, Undef, r)
    decreases |items|
  {
    if items != [] {
      var init := items[..|items| - 1];
      UnmatchedMembers(init, mapper, x);
      assert items == init + [items[|items| - 1]];
    }
  }

  lemma {:induction false} RightPassMembers(keys: seq<string>, t: Table, mapper: Mapping, x: Value)
    ensures x in RightPass(keys, t, mapper) <==>
      exists k, r :: k in keys && r in Lookup(t, k) && x in Emitted(mapper, Undef, r)
    decreases |keys|
  {
    if keys != [] {
      var init := keys[..|keys| - 1];
      var last := keys[|keys| - 1];
      RightPassMembers(init, t, mapper, x);
      UnmatchedMembers(Lookup(t, last), mapper, x);
      assert keys == init + [last];
    }
  }

  /** Grouping succeeded, so every row's key has a signature. */
  lemma GroupedKeyed(items: seq<Value>, sel: Selector, v: Value)
    requires Grouped(items, sel).Some? && v in items
    ensures KeyOf(sel, v).Some?
  {
    AddAllSucceeds(EmptyTable, items, sel);
  }

  /** Within one left key, an inner hash merge pairs exactly the left and right rows
      with that key that the matcher accepts. */
  lemma InnerBucketPairs(leftData: seq<Value>, rightData: seq<Value>, matcher: Matcher,
                         leftHasher: Selector, rightHasher: Selector, onMatched: Keyword, k: string, x: Value)
    requires Grouped(leftData, leftHasher).Some? && Grouped(rightData, rightHasher).Some?
    requires k in Grouped(leftData, leftHasher).value.buckets
    ensures var lt := Grouped(leftData, leftHasher).value;
      var rt := Grouped(rightData, rightHasher).value;
      x in LoopMerged(Lookup(lt, k), RightBucket(rt, k), matcher, ByKeywords(onMatched, NoRow)) <==>
        exists l, r :: l in leftData && r in rightData && KeyOf(leftHasher, l) == Some(k)
          && KeyOf(rightHasher, r) == Some(k) && Pairs(matcher, l, r)
          && x in Emitted(ByKeywords(onMatched, NoRow), l, r)
  {
    var lt := Grouped(leftData, leftHasher).value;
    var rt := Grouped(rightData, rightHasher).value;
    var mapper := ByKeywords(onMatched, NoRow);
    GroupedBuckets(leftData, leftHasher, k);
    GroupedBuckets(rightData, rightHasher, k);
    InnerLoopMerge(Lookup(lt, k), RightBucket(rt, k), matcher, onMatched);
    PairsOutputByValue(Lookup(lt, k), RightBucket(rt, k), matcher, mapper, x);
    forall l ensures l in Lookup(lt, k) <==> l in leftData && KeyOf(leftHasher, l) == Some(k) {
      MatchingMembers(leftData, leftHasher, k, l);
    }
    forall r ensures r in rightData && KeyOf(rightHasher, r) == Some(k) ==> r in RightBucket(rt, k) {
      MatchingMembers(rightData, rightHasher, k, r);
    }
    forall r | r in RightBucket(rt, k) && !Nullish(r)
      ensures r in rightData && KeyOf(rightHasher, r) == Some(k)
    {
      MatchingMembers(rightData, rightHasher, k, r);
    }
  }

  /** A right row whose key some left row has is claimed by the left pass. */
  lemma ClaimedKeys(leftData: seq<Value>, rightData: seq<Value>, leftHasher: Selector, rightHasher: Selector, k: string)
    requires Grouped(leftData, leftHasher).Some? && Grouped(rightData, rightHasher).Some?
    ensures var lt := Grouped(leftData, leftHasher).value;
      var rt := Grouped(rightData, rightHasher).value;
      k in RemoveKeys(rt, lt.order).buckets <==>
        (exists r :: r in rightData && KeyOf(rightHasher, r) == Some(k))
        && !(exists l :: l in leftData && KeyOf(leftHasher, l) == Some(k))
  {
    var lt := Grouped(leftData, leftHasher).value;
    var rt := Grouped(rightData, rightHasher).value;
    RemoveKeysContents(rt, lt.order);
    GroupedBuckets(leftData, leftHasher, k);
    GroupedBuckets(rightData, rightHasher, k);
    if exists r :: r in rightData && KeyOf(rightHasher, r) == Some(k) {
      var r :| r in rightData && KeyOf(rightHasher, r) == Some(k);
      var j :| 0 <= j < |rightData| && rightData[j] == r;
    }
    if exists l :: l in leftData && KeyOf(leftHasher, l) == Some(k) {
      var l :| l in leftData && KeyOf(leftHasher, l) == Some(k);
      var i :| 0 <= i < |leftData| && leftData[i] == l;
    }
  }

  /** With `null` for unmatched rows, the leftover right buckets yield nothing. */
  lemma InnerRightPass(keys: seq<string>, t: Table, onMatched: Keyword, x: Value)
    ensures x !in RightPass(keys, t, ByKeywords(onMatched, NoRow))
  {
    RightPassMembers(keys, t, ByKeywords(onMatched, NoRow), x);
  }

  /** A pair of rows with equal keys that the matcher accepts emits `x`. */
  ghost predicate KeyedPairEmits(leftData: seq<Value>, rightData: seq<Value>, matcher: Matcher,
                                 leftHasher: Selector, rightHasher: Selector, mapper: Mapping, x: Value)
  {
    exists l, r :: l in leftData && r in rightData && KeyOf(leftHasher, l) == KeyOf(rightHasher, r)
      && Pairs(matcher, l, r) && x in Emitted(mapper, l, r)
  }

  /** Inner hash join: `hashMerge` with `null` for unmatched rows yields exactly what the
      matcher-accepted pairs of rows with equal keys emit. */
  lemma InnerHashMerge(leftData: seq<Value>, rightData: seq<Value>, matcher: Matcher,
                       leftHasher: Selector, rightHasher: Selector, onMatched: Keyword, x: Value)
    requires Grouped(leftData, leftHasher).Some? && Grouped(rightData, rightHasher).Some?
    ensures var h := HashMerged(leftData, rightData, matcher, leftHasher, rightHasher, ByKeywords(onMatched, NoRow));
      h.Ok? && (x in h.value <==>
        KeyedPairEmits(leftData, rightData, matcher, leftHasher, rightHasher, ByKeywords(onMatched, NoRow), x))
  {
    var lt := Grouped(leftData, leftHasher).value;
    var rt := Grouped(rightData, rightHasher).value;
    var mapper := ByKeywords(onMatched, NoRow);
    var rest := RemoveKeys(rt, lt.order);
    var h := LeftPass(lt.order, lt, rt, matcher, mapper) + RightPass(rest.order, rest, mapper);
    assert HashMerged(leftData, rightData, matcher, leftHasher, rightHasher, mapper) == Ok(h);
    InnerRightPass(rest.order, rest, onMatched, x);
    LeftPassMembers(lt.order, lt, rt, matcher, mapper, x);
    if x in h {
      var k :| k in lt.order && x in LoopMerged(Lookup(lt, k), RightBucket(rt, k), matcher, mapper);
      GroupedBuckets(leftData, leftHasher, k);
      InnerBucketPairs(leftData, rightData, matcher, leftHasher, rightHasher, onMatched, k, x);
    }
    if KeyedPairEmits(leftData, rightData, matcher, leftHasher, rightHasher, mapper, x) {
      var l, r :| l in leftData && r in rightData && KeyOf(leftHasher, l) == KeyOf(rightHasher, r)
         && Pairs(matcher, l, r) && x in Emitted(mapper, l, r);
      GroupedKeyed(leftData, leftHasher, l);
      var k := KeyOf(leftHasher, l).value;
      GroupedBuckets(leftData, leftHasher, k);
      var i :| 0 <= i < |leftData| && leftData[i] == l;
      assert k in lt.order;
      InnerBucketPairs(leftData, rightData, matcher, leftHasher, rightHasher, onMatched, k, x);
    }
  }

  /** Loop and hash merges agree: when the hashers never separate two rows the matcher
      accepts, an inner `hashMerge` yields the same values as an inner `loopMerge`. */
  lemma HashAgreesWithLoop(leftData: seq<Value>, rightData: seq<Value>, matcher: Matcher,
                           leftHasher: Selector, rightHasher: Selector, onMatched: Keyword, x: Value)
    requires Grouped(leftData, leftHasher).Some? && Grouped(rightData, rightHasher).Some?
    requires forall l, r :: Pairs(matcher, l, r) ==> KeyOf(leftHasher, l) == KeyOf(rightHasher, r)
    ensures var h := HashMerged(leftData, rightData, matcher, leftHasher, rightHasher, ByKeywords(onMatched, NoRow));
      h.Ok? && (x in h.value <==> x in LoopMerged(leftData, rightData, matcher, ByKeywords(onMatched, NoRow)))
  {
    InnerHashMerge(leftData, rightData, matcher, leftHasher, rightHasher, onMatched, x);
    InnerLoopMerge(leftData, rightData, matcher, onMatched);
    PairsOutputByValue(leftData, rightData, matcher, ByKeywords(onMatched, NoRow), x);
  }

  /** Right rows no left key claims are emitted once the left pass is over: whatever
      `mapper(undefined, r)` yields for such a row appears in the output. */
  lemma UnclaimedRightEmitted(leftData: seq<Value>, rightData: seq<Value>, matcher: Matcher,
                              leftHasher: Selector, rightHasher: Selector, mapper: Mapping, r: Value, x: Value)
    requires Grouped(leftData, leftHasher).Some? && Grouped(rightData, rightHasher).Some?
    requires r in rightData && forall l :: l in leftData ==> KeyOf(leftHasher, l) != KeyOf(rightHasher, r)
    requires x in Emitted(mapper, Undef, r)
    ensures var h := HashMerged(leftData, rightData, matcher, leftHasher, rightHasher, mapper);
      h.Ok? && x in h.value
  {
    var lt := Grouped(leftData, leftHasher).value;
    var rt := Grouped(rightData, rightHasher).value;
    var rest := RemoveKeys(rt, lt.order);
    GroupedKeyed(rightData, rightHasher, r);
    var k := KeyOf(rightHasher, r).value;
    ClaimedKeys(leftData, rightData, leftHasher, rightHasher, k);
    GroupedBuckets(rightData, rightHasher, k);
    RemoveKeysValid(rt, lt.order);
    RemoveKeysContents(rt, lt.order);
    MatchingMembers(rightData, rightHasher, k, r);
    assert r in Lookup(rest, k);
    assert k in rest.order;
    RightPassMembers(rest.order, rest, mapper, x);
    var left := LeftPass(lt.order, lt, rt, matcher, mapper);
    var right := RightPass(rest.order, rest, mapper);
    assert x in right;
    assert HashMerged(leftData, rightData, matcher, leftHasher, rightHasher, mapper) == Ok(left + right);
  }

  /** The `[undefined]` stand-in for a missing right bucket is itself an unmatched right
      row, so a function mapper is also called as `mapper(undefined, undefined)`, and
      whatever record it returns is yielded. */
  lemma PaddingReachesMapper(leftData: seq<Value>, rightData: seq<Value>, matcher: Matcher,
                             leftHasher: Selector, rightHasher: Selector, f: (Value, Value) -> Value, l: Value)
    requires Grouped(leftData, leftHasher).Some? && Grouped(rightData, rightHasher).Some?
    requires l in leftData && forall r :: r in rightData ==> KeyOf(rightHasher, r) != KeyOf(leftHasher, l)
    requires f(Undef, Undef).Obj?
    ensures var h := HashMerged(leftData, rightData, matcher, leftHasher, rightHasher, ByFunction(f));
      h.Ok? && f(Undef, Undef) in h.value
  {
    var lt := Grouped(leftData, leftHasher).value;
    var rt := Grouped(rightData, rightHasher).value;
    var mapper := ByFunction(f);
    var x := f(Undef, Undef);
    GroupedKeyed(leftData, leftHasher, l);
    var k := KeyOf(leftHasher, l).value;
    GroupedBuckets(leftData, leftHasher, k);
    GroupedBuckets(rightData, rightHasher, k);
    var i :| 0 <= i < |leftData| && leftData[i] == l;
    assert k in lt.order;
    forall j | 0 <= j < |rightData| ensures KeyOf(rightHasher, rightData[j]) != Some(k) {
      assert rightData[j] in rightData;
    }
    var bucket := Lookup(lt, k);
    assert RightBucket(rt, k) == [Undef];
    assert !RightHit(bucket, [Undef], matcher, 0, |bucket|);
    assert x in Emitted(mapper, Undef, Undef);
    LoopMergedMembers(bucket, [Undef], matcher, mapper, x);
    assert x in Emitted(mapper, Undef, [Undef][0]);
    assert x in LoopMerged(Lookup(lt, k), RightBucket(rt, k), matcher, mapper);
    LeftPassMembers(lt.order, lt, rt, matcher, mapper, x);
    var rest := RemoveKeys(rt, lt.order);
    var left := LeftPass(lt.order, lt, rt, matcher, mapper);
    assert x in left;
    assert HashMerged(leftData, rightData, matcher, leftHasher, rightHasher, mapper)
      == Ok(left + RightPass(rest.order, rest, mapper));
  }

  // ---------------------------------------------------------------------------
  // merge.

  /** The merge methods `mergeMethod` names. */
  const MergeMethods: seq<string> := ["hash", "loop", "hashDistinct"]

  /** The options argument: absent, a mapper keyword string, a mapper function, or an
      object whose `leftHasher`, `rightHasher`, `hasher` and `mapper` properties are read. */
  datatype MergeOptions =
    | NoOptions
    | StringOption(keywords: string)
    | FunctionOption(text: string, f: (Value, Value) -> Value)
    | ObjectOption(leftHasher: Option<Selector>, rightHasher: Option<Selector>, hasher: Option<Selector>, mapper: MapperSpec)

  /** What `options.leftHasher` reads on `undefined`. */
  const NoOptionsError := TypeError("Cannot read properties of undefined (reading 'leftHasher')")

  /** Evaluates the text of a property expression (such as `l.id`) with the parameter
      bound to a row: the body of a selector that the parser generates. */
  type Evaluator = (string, string, Value) -> Value

  /** The object a generated selector returns: `x<i>` holding conjunct `i`'s side, or
      `undefined` when the conjunct has no such side. */
  function HashObject(fields: seq<HashField>, param: string, eval: Evaluator, row: Value): (es: seq<Field>)
    ensures |es| == |fields|
    ensures forall i :: 0 <= i < |fields| ==> es[i].key == fields[i].name
    decreases |fields|
  {
    if fields == [] then []
    else
      var f := fields[0];
      [Field(f.name, if f.expr.Some? then eval(param, f.expr.value, row) else Undef)]
      + HashObject(fields[1..], param, eval, row)
  }

  /** `leftFunc` of the parser's selectors. */
  function LeftSelector(h: Hashers, eval: Evaluator): Selector {
    row => Obj(HashObject(h.leftFields, h.leftParam, eval, row))
  }

  /** `rightFunc` of the parser's selectors. */
  function RightSelector(h: Hashers, eval: Evaluator): Selector {
    row => Obj(HashObject(h.rightFields, h.rightParam, eval, row))
  }

  /** `options.leftHasher || options.hasher`; a hasher that is still missing fails at
      the first row it is asked to hash, modelled as a key that cannot be signed. */
  function HasherOr(first: Option<Selector>, fallback: Option<Selector>): Selector {
    if first.Some? then first.value
    else if fallback.Some? then fallback.value
    else v => Null
  }

  /** One side handed to `merge`: an array, or a generator, which is what a dataset holds
      once any method has run through `recurse`; both iterate to `rows` under `for...of`.
      Or a value with no iterator (a plain object, a number, `undefined`, ...): `for...of`
      throws on it, and `for...in` reads the values of its enumerable properties, `visited`. */
  datatype Input = Listed(rows: seq<Value>) | Generated(rows: seq<Value>) | Uniterable(visited: seq<Value>)

  /** What the `for...in` loops of `loopMerge` visit: the indexes of an array, none of
      a generator, which has no enumerable index properties, and the enumerable
      properties of any other value. */
  function Indexed(d: Input): seq<Value> {
    match d
    case Listed(rows) => rows
    case Generated(_) => []
    case Uniterable(visited) => visited
  }

  /** What `for (let item of items)` in `addItems` throws on a value with no iterator. */
  const ItemsNotIterable := TypeError("items is not iterable")

  /** `hashMerge` on the sides as handed over: `addItems` iterates the left side, then
      the right side, and either throws on a side with no iterator or on a `null` key. */
  function HashMergedInputs(leftData: Input, rightData: Input, matcher: Matcher,
                            leftHasher: Selector, rightHasher: Selector, mapper: Mapping): (r: Result<seq<Value>>)
    ensures r.Err? ==> r.error == NullKey || r.error == ItemsNotIterable
  {
    if leftData.Uniterable? then Err(ItemsNotIterable)
    else if Grouped(leftData.rows, leftHasher).None? then Err(NullKey)
    else if rightData.Uniterable? then Err(ItemsNotIterable)
    else HashMerged(leftData.rows, rightData.rows, matcher, leftHasher, rightHasher, mapper)
  }

  /** Hashing needs an iterator on both sides: with one, it is the hash merge of the
      rows; a left side without one throws at once, and a right side without one throws
      once every left row has been hashed, unless a left row's `null` key throws first. */
  lemma HashMergeNeedsIterables(leftData: Input, rightData: Input, matcher: Matcher,
                                leftHasher: Selector, rightHasher: Selector, mapper: Mapping)
    ensures !leftData.Uniterable? && !rightData.Uniterable? ==>
      HashMergedInputs(leftData, rightData, matcher, leftHasher, rightHasher, mapper)
        == HashMerged(leftData.rows, rightData.rows, matcher, leftHasher, rightHasher, mapper)
    ensures leftData.Uniterable? ==>
      HashMergedInputs(leftData, rightData, matcher, leftHasher, rightHasher, mapper) == Err(ItemsNotIterable)
    ensures !leftData.Uniterable? && rightData.Uniterable? ==>
      HashMergedInputs(leftData, rightData, matcher, leftHasher, rightHasher, mapper)
        == if forall i :: 0 <= i < |leftData.rows| ==> KeyOf(leftHasher, leftData.rows[i]).Some?
           then Err(ItemsNotIterable) else Err(NullKey)
  {
    if !leftData.Uniterable? {
      AddAllSucceeds(EmptyTable, leftData.rows, leftHasher);
    }
  }

  /** The method once validated: loop for `'loop'`, hashing otherwise. */
  function MergeWith(leftData: Input, rightData: Input, matcher: Matcher,
                     leftHasher: Selector, rightHasher: Selector, mapper: Mapping, methodName: Option<string>): Result<seq<Value>>
  {
    if methodName == Some("loop") then Ok(LoopMerged(Indexed(leftData), Indexed(rightData), matcher, mapper))
    else HashMergedInputs(leftData, rightData, matcher, leftHasher, rightHasher, mapper)
  }

  /** What `merge` yields. A falsy method (absent or empty) is no method. */
  function Merged(leftData: Input, rightData: Input, matcher: Matcher, options: MergeOptions,
                  methodName: Option<string>, eval: Evaluator): Result<seq<Value>>
  {
    var chosen := if methodName == Some("") then None else methodName;
    if chosen.Some? && chosen.value !in MergeMethods then Err(UnknownMethod(chosen.value))
    else
      match options
      case NoOptions => Err(NoOptionsError)
      case ObjectOption(lh, rh, h, spec) =>
        (match NormalizeMapper(spec, matcher.text)
         case Err(e) => Err(e)
         case Ok(mapper) => MergeWith(leftData, rightData, matcher, HasherOr(lh, h), HasherOr(rh, h), mapper, chosen))
      case StringOption(keywords) => MergedByMatcher(leftData, rightData, matcher, KeywordText(keywords), chosen, eval)
      case FunctionOption(text, f) => MergedByMatcher(leftData, rightData, matcher, MapperFn(text, f), chosen, eval)
  }

  /** `merge` when the options are the mapper itself: the hashers come from the parser,
      and a matcher it cannot decompose must be loop-merged. */
  function MergedByMatcher(leftData: Input, rightData: Input, matcher: Matcher, spec: MapperSpec,
                           chosen: Option<string>, eval: Evaluator): Result<seq<Value>>
  {
    match NormalizeMapper(spec, matcher.text)
    case Err(e) => Err(e)
    case Ok(mapper) =>
      match Decomposition(matcher.text)
      case Err(e) => Err(e)
      case Ok(None) =>
        if chosen.Some? && chosen.value != "loop" then Err(MustLoopMerge)
        else Ok(LoopMerged(Indexed(leftData), Indexed(rightData), matcher, mapper))
      case Ok(Some(h)) =>
        MergeWith(leftData, rightData, matcher, LeftSelector(h, eval), RightSelector(h, eval), mapper, chosen)
  }

  /** `merge`: validates the method, reads the options, parses the matcher when no hashers
      are given, and runs the loop or the hash merge. */
  method Merge(leftData: Input, rightData: Input, matcher: Matcher, options: MergeOptions,
               methodName: Option<string>, eval: Evaluator) returns (r: Result<seq<Value>>)
    ensures r == Merged(leftData, rightData, matcher, options, methodName, eval)
  {
    var chosen := if methodName == Some("") then None else methodName;
    if chosen.Some? && chosen.value !in MergeMethods {
      return Err(UnknownMethod(chosen.value));
    }
    var leftHasher: Selector := v => Null;
    var rightHasher: Selector := v => Null;
    var mapper;
    if options.NoOptions? {
      return Err(NoOptionsError);
    } else if options.ObjectOption? {
      leftHasher := HasherOr(options.leftHasher, options.hasher);
      rightHasher := HasherOr(options.rightHasher, options.hasher);
      var normalized := NormalizeMapper(options.mapper, matcher.text);
      if normalized.Err? {
        return Err(normalized.error);
      }
      mapper := normalized.value;
    } else {
      var spec := if options.StringOption? then KeywordText(options.keywords) else MapperFn(options.text, options.f);
      var normalized := NormalizeMapper(spec, matcher.text);
      if normalized.Err? {
        return Err(normalized.error);
      }
      mapper := normalized.value;
      var hashers := PairEqualitiesToObjectSelectors(matcher.text);
      if hashers.Err? {
        return Err(hashers.error);
      }
      if hashers.value.None? {
        chosen := if chosen.Some? then chosen else Some("loop");
        if chosen != Some("loop") {
          return Err(MustLoopMerge);
        }
      } else {
        leftHasher := LeftSelector(hashers.value.value, eval);
        rightHasher := RightSelector(hashers.value.value, eval);
      }
    }
    if chosen == Some("loop") {
      var out := LoopMerge(Indexed(leftData), Indexed(rightData), matcher, mapper);
      return Ok(out);
    }
    r := HashMerge(leftData, rightData, matcher, leftHasher, rightHasher, mapper);
  }

  /** A method outside `hash`, `loop` and `hashDistinct` is refused before anything else. */
  lemma UnknownMethodRejected(leftData: Input, rightData: Input, matcher: Matcher, options: MergeOptions,
                              methodName: string, eval: Evaluator)
    requires methodName != "" && methodName !in MergeMethods
    ensures Merged(leftData, rightData, matcher, options, Some(methodName), eval) == Err(UnknownMethod(methodName))
  {
  }

  /** A matcher the parser cannot turn into hashers is loop-merged when no method is
      given, and refused when hashing is asked for. */
  lemma UndecomposableMatcher(leftData: Input, rightData: Input, matcher: Matcher, spec: MapperSpec,
                              eval: Evaluator)
    requires Decomposition(matcher.text) == Ok(None)
    requires NormalizeMapper(spec, matcher.text).Ok?
    ensures MergedByMatcher(leftData, rightData, matcher, spec, None, eval)
      == Ok(LoopMerged(Indexed(leftData), Indexed(rightData), matcher, NormalizeMapper(spec, matcher.text).value))
    ensures MergedByMatcher(leftData, rightData, matcher, spec, Some("hash"), eval) == Err(MustLoopMerge)
    ensures MergedByMatcher(leftData, rightData, matcher, spec, Some("hashDistinct"), eval) == Err(MustLoopMerge)
  {
    HashIsNotLoop();
    UndecomposableRefused(leftData, rightData, matcher, spec, eval, "hash");
    UndecomposableRefused(leftData, rightData, matcher, spec, eval, "hashDistinct");
  }

  lemma HashIsNotLoop()
    ensures "hash" != "loop" && "hashDistinct" != "loop"
  {
    assert "hash"[1] != "loop"[1];
    assert "hashDistinct"[1] != "loop"[1];
  }

  lemma UndecomposableRefused(leftData: Input, rightData: Input, matcher: Matcher, spec: MapperSpec,
                              eval: Evaluator, chosen: string)
    requires Decomposition(matcher.text) == Ok(None)
    requires NormalizeMapper(spec, matcher.text).Ok? && chosen != "loop"
    ensures MergedByMatcher(leftData, rightData, matcher, spec, Some(chosen), eval) == Err(MustLoopMerge)
  {
  }

  /** A loop merge walks a right side without an iterator by `for...in`, over the values
      of its properties, as it would an array of them. */
  lemma UniterableLoopMerged(leftData: Input, visited: seq<Value>, matcher: Matcher, options: MergeOptions,
                             eval: Evaluator)
    ensures Merged(leftData, Uniterable(visited), matcher, options, Some("loop"), eval)
      == Merged(leftData, Listed(visited), matcher, options, Some("loop"), eval)
  {
    var u, l := Uniterable(visited), Listed(visited);
    assert Indexed(u) == Indexed(l);
    match options
    case NoOptions =>
    case ObjectOption(lh, rh, h, spec) =>
      if NormalizeMapper(spec, matcher.text).Ok? {
        MergeWithLoop(leftData, u, l, matcher, HasherOr(lh, h), HasherOr(rh, h), NormalizeMapper(spec, matcher.text).value);
      }
    case StringOption(keywords) =>
      MergedByMatcherLoop(leftData, u, l, matcher, KeywordText(keywords), eval);
    case FunctionOption(text, f) =>
      MergedByMatcherLoop(leftData, u, l, matcher, MapperFn(text, f), eval);
  }

  lemma MergeWithLoop(leftData: Input, rightData: Input, rightData': Input, matcher: Matcher,
                      leftHasher: Selector, rightHasher: Selector, mapper: Mapping)
    requires Indexed(rightData) == Indexed(rightData')
    ensures MergeWith(leftData, rightData, matcher, leftHasher, rightHasher, mapper, Some("loop"))
      == MergeWith(leftData, rightData', matcher, leftHasher, rightHasher, mapper, Some("loop"))
  {
  }

  /** Asked to loop, `merge` sees the right side only through `for...in`. */
  lemma MergedByMatcherLoop(leftData: Input, rightData: Input, rightData': Input, matcher: Matcher, spec: MapperSpec,
                            eval: Evaluator)
    requires Indexed(rightData) == Indexed(rightData')
    ensures MergedByMatcher(leftData, rightData, matcher, spec, Some("loop"), eval)
      == MergedByMatcher(leftData, rightData', matcher, spec, Some("loop"), eval)
  {
  }

  /** A hash merge, which iterates the right side with `for...of`, fails on a right side
      without an iterator. */
  lemma UniterableHashRefused(leftData: Input, visited: seq<Value>, matcher: Matcher, options: MergeOptions,
                              eval: Evaluator)
    requires !leftData.Uniterable?
    ensures Merged(leftData, Uniterable(visited), matcher, options, Some("hash"), eval).Err?
  {
    var u := Uniterable(visited);
    match options
    case NoOptions =>
    case ObjectOption(lh, rh, h, spec) =>
      if NormalizeMapper(spec, matcher.text).Ok? {
        MergeWithHashRefused(leftData, visited, matcher, HasherOr(lh, h), HasherOr(rh, h), NormalizeMapper(spec, matcher.text).value);
      }
    case StringOption(keywords) =>
      MergedByMatcherHashRefused(leftData, visited, matcher, KeywordText(keywords), eval);
    case FunctionOption(text, f) =>
      MergedByMatcherHashRefused(leftData, visited, matcher, MapperFn(text, f), eval);
  }

  lemma MergeWithHashRefused(leftData: Input, visited: seq<Value>, matcher: Matcher,
                             leftHasher: Selector, rightHasher: Selector, mapper: Mapping)
    requires !leftData.Uniterable?
    ensures MergeWith(leftData, Uniterable(visited), matcher, leftHasher, rightHasher, mapper, Some("hash")).Err?
  {
    HashIsNotLoop();
  }

  lemma MergedByMatcherHashRefused(leftData: Input, visited: seq<Value>, matcher: Matcher, spec: MapperSpec,
                                   eval: Evaluator)
    requires !leftData.Uniterable?
    ensures MergedByMatcher(leftData, Uniterable(visited), matcher, spec, Some("hash"), eval).Err?
  {
    var normalized, decomposed := NormalizeMapper(spec, matcher.text), Decomposition(matcher.text);
    if normalized.Ok? && decomposed.Ok? {
      if decomposed.value.None? {
        HashIsNotLoop();
        UndecomposableRefused(leftData, Uniterable(visited), matcher, spec, eval, "hash");
      } else {
        var h := decomposed.value.value;
        MergeWithHashRefused(leftData, visited, matcher, LeftSelector(h, eval), RightSelector(h, eval), normalized.value);
      }
    }
  }

  /** `mapper(l, undefined)` for each left row, in order. */
  function UnmatchedLeft(items: seq<Value>, mapper: Mapping): seq<Value>
    decreases |items|
  {
    if items == [] then []
    else UnmatchedLeft(items[..|items| - 1], mapper) + Emitted(mapper, items[|items| - 1], Undef)
  }

  /** A loop merge over a side with no rows to visit (a generator, under `for...in`)
      yields only the other side's rows, each mapped against `undefined`. */
  lemma LoopMergeWithoutRows(leftData: seq<Value>, rightData: seq<Value>, matcher: Matcher, mapper: Mapping)
    ensures LoopMerged([], rightData, matcher, mapper) == Unmatched(rightData, mapper)
    ensures LoopMerged(leftData, [], matcher, mapper) == UnmatchedLeft(leftData, mapper)
  {
    RightRestOfNone(rightData, matcher, mapper, |rightData|);
    assert rightData[..|rightData|] == rightData;
    LeftRestOfNone(leftData, matcher, mapper, |leftData|);
    PairsOfNone(leftData, matcher, mapper, |leftData|);
    assert leftData[..|leftData|] == leftData;
  }

  /** Merged with keyword options and an undecomposable matcher, rows from a generator
      on the left meet nothing: each incoming row is mapped against `undefined`. */
  lemma GeneratedLeftLoopMerged(leftRows: seq<Value>, rightRows: seq<Value>, matcher: Matcher, keywords: string,
                                eval: Evaluator)
    requires Decomposition(matcher.text) == Ok(None)
    requires NormalizeMapper(KeywordText(keywords), matcher.text).Ok?
    ensures Merged(Generated(leftRows), Listed(rightRows), matcher, StringOption(keywords), None, eval)
      == Ok(Unmatched(rightRows, NormalizeMapper(KeywordText(keywords), matcher.text).value))
  {
    var left, right := Generated(leftRows), Listed(rightRows);
    KeywordOptions(left, right, matcher, keywords, eval);
    UndecomposableMatcher(left, right, matcher, KeywordText(keywords), eval);
    LoopMergeWithoutRows(leftRows, rightRows, matcher, NormalizeMapper(KeywordText(keywords), matcher.text).value);
  }

  /** Likewise a right side with nothing to visit under `for...in` (`undefined`, `null`, a
      number) meets no left row: each left row is mapped against `undefined`. */
  lemma EmptyRightLoopMerged(leftData: Input, rightData: Input, matcher: Matcher, keywords: string, eval: Evaluator)
    requires Indexed(rightData) == []
    requires Decomposition(matcher.text) == Ok(None)
    requires NormalizeMapper(KeywordText(keywords), matcher.text).Ok?
    ensures Merged(leftData, rightData, matcher, StringOption(keywords), None, eval)
      == Ok(UnmatchedLeft(Indexed(leftData), NormalizeMapper(KeywordText(keywords), matcher.text).value))
  {
    var mapper := NormalizeMapper(KeywordText(keywords), matcher.text).value;
    UndecomposedKeywordsLoopMerged(leftData, rightData, matcher, keywords, eval);
    LoopMergeWithoutRows(Indexed(leftData), [], matcher, mapper);
  }

  /** Keyword options with an undecomposable matcher loop-merge what `for...in` visits. */
  lemma UndecomposedKeywordsLoopMerged(leftData: Input, rightData: Input, matcher: Matcher, keywords: string, eval: Evaluator)
    requires Decomposition(matcher.text) == Ok(None)
    requires NormalizeMapper(KeywordText(keywords), matcher.text).Ok?
    ensures Merged(leftData, rightData, matcher, StringOption(keywords), None, eval)
      == Ok(LoopMerged(Indexed(leftData), Indexed(rightData), matcher, NormalizeMapper(KeywordText(keywords), matcher.text).value))
  {
    KeywordOptions(leftData, rightData, matcher, keywords, eval);
    UndecomposableMatcher(leftData, rightData, matcher, KeywordText(keywords), eval);
  }

  /** `'both both'` keeps unmatched left records as they are. */
  lemma {:induction false} BothKeepsUnmatchedLeft(rows: seq<Value>)
    requires forall i :: 0 <= i < |rows| ==> rows[i].Obj?
    ensures UnmatchedLeft(rows, ByKeywords(Both, Both)) == rows
    decreases |rows|
  {
    if rows != [] {
      var init, last := rows[..|rows| - 1], rows[|rows| - 1];
      BothKeepsUnmatchedLeft(init);
      assert MergeByKeywords(last, Undef, Both, Both) == last;
      assert rows == init + [last];
    }
  }

  /** Under `null` for unmatched rows, nothing unmatched is kept. */
  lemma {:induction false} UnmatchedDropped(items: seq<Value>, onMatched: Keyword)
    ensures Unmatched(items, ByKeywords(onMatched, NoRow)) == []
    decreases |items|
  {
    if items != [] {
      UnmatchedDropped(items[..|items| - 1], onMatched);
    }
  }

  lemma {:induction false} RightRestOfNone(rightData: seq<Value>, matcher: Matcher, mapper: Mapping, n: nat)
    requires n <= |rightData|
    ensures RightRest([], rightData, matcher, mapper, n) == Unmatched(rightData[..n], mapper)
  {
    if n > 0 {
      RightRestOfNone(rightData, matcher, mapper, n - 1);
      assert rightData[..n][..n - 1] == rightData[..n - 1];
      assert !RightHit([], rightData, matcher, n - 1, 0);
    }
  }

  lemma {:induction false} LeftRestOfNone(leftData: seq<Value>, matcher: Matcher, mapper: Mapping, m: nat)
    requires m <= |leftData|
    ensures LeftRest(leftData, [], matcher, mapper, m) == UnmatchedLeft(leftData[..m], mapper)
  {
    if m > 0 {
      LeftRestOfNone(leftData, matcher, mapper, m - 1);
      assert leftData[..m][..m - 1] == leftData[..m - 1];
      assert !LeftHit(leftData, [], matcher, m - 1, 0);
    }
  }

  lemma {:induction false} PairsOfNone(leftData: seq<Value>, matcher: Matcher, mapper: Mapping, m: nat)
    requires m <= |leftData|
    ensures PairsOutput(leftData, [], matcher, mapper, m) == []
  {
    if m > 0 {
      PairsOfNone(leftData, matcher, mapper, m - 1);
    }
  }

  /** Options given as a keyword string are the mapper, and the matcher alone decides
      the hashers. */
  lemma KeywordOptions(leftData: Input, rightData: Input, matcher: Matcher, keywords: string,
                       eval: Evaluator)
    ensures Merged(leftData, rightData, matcher, StringOption(keywords), None, eval)
      == MergedByMatcher(leftData, rightData, matcher, KeywordText(keywords), None, eval)
  {
  }

  /** Options given as a function are the mapper, and the matcher alone decides the
      hashers. */
  lemma FunctionOptions(leftData: Input, rightData: Input, matcher: Matcher,
                        text: string, f: (Value, Value) -> Value, eval: Evaluator)
    ensures Merged(leftData, rightData, matcher, FunctionOption(text, f), Some("loop"), eval)
      == MergedByMatcher(leftData, rightData, matcher, MapperFn(text, f), Some("loop"), eval)
  {
  }

  /** With object options and no method, rows are hashed with the hashers given, falling
      back to `hasher` for a side without its own. */
  lemma ObjectOptionsHash(leftData: Input, rightData: Input, matcher: Matcher, hasher: Selector,
                          spec: MapperSpec, eval: Evaluator)
    requires NormalizeMapper(spec, matcher.text).Ok?
    ensures Merged(leftData, rightData, matcher, ObjectOption(None, None, Some(hasher), spec), None, eval)
      == HashMergedInputs(leftData, rightData, matcher, hasher, hasher, NormalizeMapper(spec, matcher.text).value)
  {
  }

  /** A decomposable matcher is hash-merged by default with the parser's selectors. */
  lemma DecomposedMatcherHashes(leftData: Input, rightData: Input, matcher: Matcher, spec: MapperSpec,
                                eval: Evaluator)
    requires Decomposition(matcher.text).Ok? && Decomposition(matcher.text).value.Some?
    requires NormalizeMapper(spec, matcher.text).Ok?
    ensures var h := Decomposition(matcher.text).value.value;
      MergedByMatcher(leftData, rightData, matcher, spec, None, eval)
        == HashMergedInputs(leftData, rightData, matcher, LeftSelector(h, eval), RightSelector(h, eval),
                            NormalizeMapper(spec, matcher.text).value)
  {
  }

  /** The parser gives conjunct `i` the field name `x<i>` on both sides. */
  lemma DecomposedFieldNames(lr: LeftRight)
    requires DecomposeSplit(lr).Some?
    ensures var h := DecomposeSplit(lr).value;
      |h.leftFields| == |h.rightFields|
      && forall i :: 0 <= i < |h.leftFields| ==> h.leftFields[i].name == FieldName(i) == h.rightFields[i].name
  {
    var h := DecomposeSplit(lr).value;
    DecompositionShape(lr, 0);
    forall i | 0 <= i < |h.leftFields| ensures h.leftFields[i].name == FieldName(i) == h.rightFields[i].name {
      DecompositionShape(lr, i);
    }
  }

  /** Selectors whose fields carry the same names return objects with the same keys, so
      a left and a right row share a signature exactly when each field's two sides
      evaluate alike. */
  lemma SelectorsShareKeys(h: Hashers, eval: Evaluator, left: Value, right: Value)
    requires |h.leftFields| == |h.rightFields|
    requires forall i :: 0 <= i < |h.leftFields| ==> h.leftFields[i].name == h.rightFields[i].name
    ensures KeysOf(LeftSelector(h, eval)(left).entries) == KeysOf(RightSelector(h, eval)(right).entries)
  {
    var lk := KeysOf(LeftSelector(h, eval)(left).entries);
    var rk := KeysOf(RightSelector(h, eval)(right).entries);
    assert |lk| == |rk|;
    forall i | 0 <= i < |lk| ensures lk[i] == rk[i] {
    }
  }

  /** Joining on `id`: `[{id:1,v:'a'},{id:2,v:'b'}]` with `[{id:2,w:'x'},{id:3,w:'y'}]`
      under `both null` yields the one overlaid record `{id:2,w:'x',v:'b'}`. */
  lemma InnerJoinOnId(leftData: seq<Value>, rightData: seq<Value>, matcher: Matcher)
    requires leftData == [Obj([Field("id", Num(1)), Field("v", Str("a"))]), Obj([Field("id", Num(2)), Field("v", Str("b"))])]
    requires rightData == [Obj([Field("id", Num(2)), Field("w", Str("x"))]), Obj([Field("id", Num(3)), Field("w", Str("y"))])]
    requires forall l, r :: matcher.holds(l, r) <==> PropOf(l, "id") == PropOf(r, "id")
    ensures LoopMerged(leftData, rightData, matcher, ByKeywords(Both, NoRow))
      == [Obj([Field("id", Num(2)), Field("w", Str("x")), Field("v", Str("b"))])]
  {
    InnerLoopMerge(leftData, rightData, matcher, Both);
    PairsOnId(leftData, rightData, matcher);
  }

  lemma PairsOnId(leftData: seq<Value>, rightData: seq<Value>, matcher: Matcher)
    requires leftData == [Obj([Field("id", Num(1)), Field("v", Str("a"))]), Obj([Field("id", Num(2)), Field("v", Str("b"))])]
    requires rightData == [Obj([Field("id", Num(2)), Field("w", Str("x"))]), Obj([Field("id", Num(3)), Field("w", Str("y"))])]
    requires forall l, r :: matcher.holds(l, r) <==> PropOf(l, "id") == PropOf(r, "id")
    ensures PairsOutput(leftData, rightData, matcher, ByKeywords(Both, NoRow), 2)
      == [Obj([Field("id", Num(2)), Field("w", Str("x")), Field("v", Str("b"))])]
  {
    var mapper := ByKeywords(Both, NoRow);
    RowsOnId(leftData, rightData, matcher);
    assert PairsOutput(leftData, rightData, matcher, mapper, 1) == [];
  }

  lemma RowsOnId(leftData: seq<Value>, rightData: seq<Value>, matcher: Matcher)
    requires leftData == [Obj([Field("id", Num(1)), Field("v", Str("a"))]), Obj([Field("id", Num(2)), Field("v", Str("b"))])]
    requires rightData == [Obj([Field("id", Num(2)), Field("w", Str("x"))]), Obj([Field("id", Num(3)), Field("w", Str("y"))])]
    requires forall l, r :: matcher.holds(l, r) <==> PropOf(l, "id") == PropOf(r, "id")
    ensures RowOutput(leftData, rightData, matcher, ByKeywords(Both, NoRow), 0, 2) == []
    ensures RowOutput(leftData, rightData, matcher, ByKeywords(Both, NoRow), 1, 2)
      == [Obj([Field("id", Num(2)), Field("w", Str("x")), Field("v", Str("b"))])]
  {
    FirstRowOnId(leftData, rightData, matcher);
    SecondRowOnId(leftData, rightData, matcher);
  }

  lemma FirstRowOnId(leftData: seq<Value>, rightData: seq<Value>, matcher: Matcher)
    requires leftData == [Obj([Field("id", Num(1)), Field("v", Str("a"))]), Obj([Field("id", Num(2)), Field("v", Str("b"))])]
    requires rightData == [Obj([Field("id", Num(2)), Field("w", Str("x"))]), Obj([Field("id", Num(3)), Field("w", Str("y"))])]
    requires forall l, r :: matcher.holds(l, r) <==> PropOf(l, "id") == PropOf(r, "id")
    ensures RowOutput(leftData, rightData, matcher, ByKeywords(Both, NoRow), 0, 2) == []
  {
    var mapper := ByKeywords(Both, NoRow);
    assert !Matched(leftData, rightData, matcher, 0, 0) && !Matched(leftData, rightData, matcher, 0, 1);
    assert RowOutput(leftData, rightData, matcher, mapper, 0, 1) == [];
  }

  lemma SecondRowOnId(leftData: seq<Value>, rightData: seq<Value>, matcher: Matcher)
    requires leftData == [Obj([Field("id", Num(1)), Field("v", Str("a"))]), Obj([Field("id", Num(2)), Field("v", Str("b"))])]
    requires rightData == [Obj([Field("id", Num(2)), Field("w", Str("x"))]), Obj([Field("id", Num(3)), Field("w", Str("y"))])]
    requires forall l, r :: matcher.holds(l, r) <==> PropOf(l, "id") == PropOf(r, "id")
    ensures RowOutput(leftData, rightData, matcher, ByKeywords(Both, NoRow), 1, 2)
      == [Obj([Field("id", Num(2)), Field("w", Str("x")), Field("v", Str("b"))])]
  {
    var mapper := ByKeywords(Both, NoRow);
    assert Matched(leftData, rightData, matcher, 1, 0) && !Matched(leftData, rightData, matcher, 1, 1);
    EmittedOnId(rightData[0], leftData[1]);
    assert RowOutput(leftData, rightData, matcher, mapper, 1, 1) == Emitted(mapper, leftData[1], rightData[0]);
  }

  lemma EmittedOnId(right: Value, left: Value)
    requires right == Obj([Field("id", Num(2)), Field("w", Str("x"))])
    requires left == Obj([Field("id", Num(2)), Field("v", Str("b"))])
    ensures Emitted(ByKeywords(Both, NoRow), left, right) == [Obj([Field("id", Num(2)), Field("w", Str("x")), Field("v", Str("b"))])]
  {
    OverlayOnId(right, left);
    var joined := Obj([Field("id", Num(2)), Field("w", Str("x")), Field("v", Str("b"))]);
    assert Apply(ByKeywords(Both, NoRow), left, right) == joined;
  }

  lemma OverlayOnId(right: Value, left: Value)
    requires right == Obj([Field("id", Num(2)), Field("w", Str("x"))])
    requires left == Obj([Field("id", Num(2)), Field("v", Str("b"))])
    ensures Overlay(right, left) == [Field("id", Num(2)), Field("w", Str("x")), Field("v", Str("b"))]
  {
    var merged := [Field("id", Num(2)), Field("w", Str("x")), Field("v", Str("b"))];
    assert OwnEntries(right) == right.entries && OwnEntries(left) == left.entries;
    AssignRightOnId(right.entries);
    AssignLeftOnId(right.entries, left.entries);
    assert Assign(Assign([], right.entries), left.entries) == merged;
    DropUndefinedOfClean(merged);
  }

  lemma AssignRightOnId(es: seq<Field>)
    requires es == [Field("id", Num(2)), Field("w", Str("x"))]
    ensures Assign([], es) == es
  {
    var first := [Field("id", Num(2))];
    assert Put([], "id", Num(2)) == first;
    assert Assign([], es) == Assign(first, es[1..]);
    assert Put(first, "w", Str("x")) == [first[0]] + Put([], "w", Str("x")) == es;
    assert Assign(first, es[1..]) == Assign(es, es[1..][1..]);
    assert es[1..][1..] == [];
  }

  lemma AssignLeftOnId(es: seq<Field>, ls: seq<Field>)
    requires es == [Field("id", Num(2)), Field("w", Str("x"))]
    requires ls == [Field("id", Num(2)), Field("v", Str("b"))]
    ensures Assign(es, ls) == [Field("id", Num(2)), Field("w", Str("x")), Field("v", Str("b"))]
  {
    var merged := [Field("id", Num(2)), Field("w", Str("x")), Field("v", Str("b"))];
    assert Put(es, "id", Num(2)) == [Field("id", Num(2))] + es[1..] == es;
    assert Assign(es, ls) == Assign(es, ls[1..]);
    assert Put(es[1..], "v", Str("b")) == [es[1]] + Put([], "v", Str("b"));
    assert Put(es, "v", Str("b")) == [es[0]] + Put(es[1..], "v", Str("b")) == merged;
    assert Assign(es, ls[1..]) == Assign(merged, ls[1..][1..]);
    assert ls[1..][1..] == [];
  }
}
