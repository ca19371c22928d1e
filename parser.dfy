/** `parser`: splits the source text of a function into its parameter names and its
    body, and decomposes a matcher written as a conjunction of equalities into a pair
    of key selectors. */
module Parser {

  import opened Wrappers
  import opened Text

  /** The text before and after the arrow or the opening brace. */
  datatype LeftRight = LeftRight(left: string, right: string)

  /** `str.slice(i)` for `-1 <= i`: a negative start counts from the end. */
  function SliceFrom(s: string, i: int): (r: string)
    requires -1 <= i <= |s|
    ensures i >= 0 ==> r == s[i..]
    ensures i == -1 ==> r == (if s == [] then [] else [s[|s| - 1]])
  {
    if i >= 0 then s[i..] else if s == [] then [] else [s[|s| - 1]]
  }

  /** `splitLeftAndRight`: splits at whichever of `=>` and `{` comes first; an arrow
      is dropped, and before a brace the text is cut back to its first `(` (to its last
      character when there is none). Fails when the text has neither. */
  function SplitLeftAndRight(text: string): (r: Result<LeftRight>)
    ensures r.Err? <==> IndexOf(text, "=>") == -1 && IndexOf(text, "{") == -1
    ensures r.Err? ==> r.error == NotAFunction
    // The arrow comes first: the text before it, and the text after it without the arrow.
    ensures var a, b := IndexOf(text, "=>"), IndexOf(text, "{");
      a >= 0 && (b == -1 || a < b) ==> r == Ok(LeftRight(text[..a], text[a + 2..]))
    // The brace comes first: the text from the brace on, and before it the text cut
    // back to its first `(`, when it has one.
    ensures var a, b := IndexOf(text, "=>"), IndexOf(text, "{");
      b >= 0 && (a == -1 || b < a) ==>
        r.Ok? && r.value.right == text[b..]
        && (IndexOf(text[..b], "(") >= 0 ==>
              r.value.left == text[IndexOf(text[..b], "(")..b] && r.value.left[0] == '(')
    // The two cannot start at the same place, so one of the cases above applies.
    ensures r.Ok? ==> IndexOf(text, "=>") != IndexOf(text, "{")
  {
    var arrowIx := IndexOf(text, "=>");
    var braceIx := IndexOf(text, "{");
    if arrowIx == -1 && braceIx == -1 then Err(NotAFunction)
    else
      var splitIx :=
        if braceIx == -1 then arrowIx
        else if arrowIx == -1 then braceIx
        else if arrowIx < braceIx then arrowIx
        else braceIx;
      var left, right := text[..splitIx], text[splitIx..];
      ArrowIsNotBrace(text);
      if splitIx == arrowIx then
        assert right[2..] == text[arrowIx + 2..];
        Ok(LeftRight(left, right[2..]))
      else
        CutAtParen(text, splitIx);
        Ok(LeftRight(SliceFrom(left, IndexOf(left, "(")), right))
  }

  /** `=>` and `{` cannot be found at the same place. */
  lemma ArrowIsNotBrace(text: string)
    ensures IndexOf(text, "=>") == -1 || IndexOf(text, "=>") != IndexOf(text, "{")
  {
    var a, b := IndexOf(text, "=>"), IndexOf(text, "{");
    if a >= 0 && b >= 0 {
      assert text[a] == text[a..a + 2][0] == '=';
      assert text[b] == text[b..b + 1][0] == '{';
    }
  }

  /** The text before `b`, from its first `(` on, when it has one. */
  lemma CutAtParen(text: string, b: nat)
    requires b <= |text|
    ensures var i := IndexOf(text[..b], "(");
      i >= 0 ==> text[..b][i..] == text[i..b] && text[i] == '('
  {
    var i := IndexOf(text[..b], "(");
    if i >= 0 {
      assert text[..b][i..i + 1][0] == text[i];
    }
  }

  /** `replace(/[()\s]/g, '')`. */
  function StripParensAndSpace(s: string): (r: string)
    ensures forall i :: 0 <= i < |r| ==> r[i] != '(' && r[i] != ')' && !IsSpace(r[i])
    // A text with none of the removed characters comes back as it was.
    ensures (forall i :: 0 <= i < |s| ==> !Stripped(s[i])) ==> r == s
    // A text made only of removed characters comes back empty.
    ensures (forall i :: 0 <= i < |s| ==> Stripped(s[i])) ==> r == []
  {
    if s == [] then []
    else (if Stripped(s[0]) then [] else [s[0]]) + StripParensAndSpace(s[1..])
  }

  /** The characters `[()\s]` matches. */
  predicate Stripped(c: char) {
    c == '(' || c == ')' || IsSpace(c)
  }

  /** The removal works character by character, so it distributes over concatenation and
      keeps the other characters in order. */
  lemma {:induction false} StripParensAndSpaceAppend(a: string, b: string)
    ensures StripParensAndSpace(a + b) == StripParensAndSpace(a) + StripParensAndSpace(b)
    decreases |a|
  {
    if a != [] {
      var h := if Stripped(a[0]) then [] else [a[0]];
      assert (a + b)[0] == a[0] && (a + b)[1..] == a[1..] + b;
      assert StripParensAndSpace(a + b) == h + StripParensAndSpace(a[1..] + b);
      assert StripParensAndSpace(a) == h + StripParensAndSpace(a[1..]);
      StripParensAndSpaceAppend(a[1..], b);
    } else {
      assert a + b == b;
    }
  }

  /** The parameter names: the text before the split point with parentheses and
      whitespace removed, split at commas. */
  function ParametersOf(lr: LeftRight): (r: seq<string>)
    ensures |r| >= 1
    ensures forall i :: 0 <= i < |r| ==> ParameterName(r[i])
    ensures Join(r, ",") == StripParensAndSpace(lr.left)
  {
    var stripped := StripParensAndSpace(lr.left);
    SplitJoin(stripped, ',');
    SplitChar(stripped, ',')
  }

  /** `parser.parameters`. */
  function Parameters(text: string): (r: Result<seq<string>>)
    ensures r.Err? <==> SplitLeftAndRight(text).Err?
  {
    match SplitLeftAndRight(text)
    case Err(e) => Err(e)
    case Ok(lr) => Ok(ParametersOf(lr))
  }

  /** What a name produced by `parameters` can contain. */
  predicate ParameterName(p: string) {
    forall i :: 0 <= i < |p| ==> p[i] != ',' && p[i] != '(' && p[i] != ')' && !IsSpace(p[i])
  }

  /** Removes a leading `\s*{`. */
  function StripOpenBrace(s: string): string {
    var t := TrimStart(s);
    if t != [] && t[0] == '{' then t[1..] else s
  }

  /** Removes a trailing `}\s*`. */
  function StripCloseBrace(s: string): string {
    var t := TrimEnd(s);
    if t != [] && t[|t| - 1] == '}' then t[..|t| - 1] else s
  }

  /** The body: the text after the split point without its enclosing braces, trimmed. */
  function BodyOf(lr: LeftRight): (r: string)
    ensures r == [] || (!IsSpace(r[0]) && !IsSpace(r[|r| - 1]))
  {
    var u := TrimStart(StripCloseBrace(StripOpenBrace(lr.right)));
    var t := TrimEnd(u);
    assert t == u[..|t|];
    t
  }

  /** A body in braces is the text between them, trimmed. */
  lemma BodyOfBraced(left: string, w1: string, w2: string, b: string, w3: string, w4: string)
    requires Blank(w1) && Blank(w2) && Blank(w3) && Blank(w4) && Trimmed(b)
    ensures BodyOf(LeftRight(left, w1 + "{" + w2 + b + w3 + "}" + w4)) == b
  {
    var inner := w2 + b + w3;
    assert w1 + "{" + w2 + b + w3 + "}" + w4 == w1 + "{" + (inner + "}" + w4);
    OpenBraceStripped(w1, inner + "}" + w4);
    CloseBraceStripped(inner, w4);
    TrimmedBetweenBlanks(w2, b, w3);
  }

  /** A body without braces is the text itself, trimmed. */
  lemma BodyOfBare(left: string, w1: string, b: string, w2: string)
    requires Blank(w1) && Blank(w2) && Trimmed(b)
    requires b == [] || (b[0] != '{' && b[|b| - 1] != '}')
    ensures BodyOf(LeftRight(left, w1 + b + w2)) == b
  {
    NoOpenBrace(w1, b, w2);
    NoCloseBrace(w1, b, w2);
    TrimmedBetweenBlanks(w1, b, w2);
  }

  lemma NoOpenBrace(w1: string, b: string, w2: string)
    requires Blank(w1) && Blank(w2) && Trimmed(b) && (b == [] || b[0] != '{')
    ensures StripOpenBrace(w1 + b + w2) == w1 + b + w2
  {
    assert w1 + b + w2 == w1 + (b + w2);
    TrimStartBlank(w1, b + w2);
    if b == [] {
      assert b + w2 == w2 + [];
      TrimStartBlank(w2, []);
    } else {
      assert (b + w2)[0] == b[0];
    }
  }

  lemma NoCloseBrace(w1: string, b: string, w2: string)
    requires Blank(w1) && Blank(w2) && Trimmed(b) && (b == [] || b[|b| - 1] != '}')
    ensures StripCloseBrace(w1 + b + w2) == w1 + b + w2
  {
    TrimEndBlank(w1 + b, w2);
    if b == [] {
      assert w1 + b == [] + w1;
      TrimEndBlank([], w1);
    } else {
      assert (w1 + b)[|w1 + b| - 1] == b[|b| - 1];
    }
  }

  lemma OpenBraceStripped(w: string, rest: string)
    requires Blank(w)
    ensures StripOpenBrace(w + "{" + rest) == rest
  {
    assert w + "{" + rest == w + ("{" + rest);
    TrimStartBlank(w, "{" + rest);
    assert ("{" + rest)[0] == '{' && ("{" + rest)[1..] == rest;
  }

  lemma CloseBraceStripped(inner: string, w: string)
    requires Blank(w)
    ensures StripCloseBrace(inner + "}" + w) == inner
  {
    TrimEndBlank(inner + "}", w);
    var t := inner + "}";
    assert t[|t| - 1] == '}' && t[..|t| - 1] == inner;
  }

  /** Trimming whitespace off both ends of a trimmed text between blanks gives it back. */
  lemma TrimmedBetweenBlanks(w1: string, b: string, w2: string)
    requires Blank(w1) && Blank(w2) && Trimmed(b)
    ensures TrimEnd(TrimStart(w1 + b + w2)) == b
  {
    assert w1 + b + w2 == w1 + (b + w2);
    TrimStartBlank(w1, b + w2);
    if b == [] {
      assert b + w2 == w2 + [];
      TrimStartBlank(w2, []);
    } else {
      assert (b + w2)[0] == b[0];
      assert TrimStart(b + w2) == b + w2;
      TrimEndBlank(b, w2);
      assert TrimEnd(b) == b;
    }
  }

  /** `parser.parse(func).body`. */
  function Body(text: string): (r: Result<string>)
    ensures r.Err? <==> SplitLeftAndRight(text).Err?
  {
    match SplitLeftAndRight(text)
    case Err(e) => Err(e)
    case Ok(lr) => Ok(BodyOf(lr))
  }

  // ---------------------------------------------------------------------------
  // pairEqualitiesToObjectSelectors.

  /** `/[^A-Za-z0-9_. ]/.test(ep)` fails: only letters, digits, `_`, `.` and spaces. */
  predicate PlainExpression(ep: string) {
    forall i :: 0 <= i < |ep| ==> PlainChar(ep[i])
  }

  predicate PlainChar(c: char) {
    ('A' <= c <= 'Z') || ('a' <= c <= 'z') || ('0' <= c <= '9') || c == '_' || c == '.' || c == ' '
  }

  /** The two sides of one conjunct, as the selector expressions for the left and the
      right parameter; `None` when the conjunct is rejected. A side not found stays
      missing (it becomes the text `undefined`). */
  datatype Sides = Sides(leftEq: Option<string>, rightEq: Option<string>)

  /** Where one side of an equality goes: to the left selector when it mentions
      `leftParam.`, else to the right one when it mentions `rightParam.`. */
  datatype Placement = ToLeft | ToRight | Rejected

  function Place(ep: string, leftParam: string, rightParam: string): (p: Placement)
    ensures p == ToLeft <==> PlainExpression(ep) && Contains(ep, leftParam + ".")
    ensures p == ToRight <==> PlainExpression(ep) && !Contains(ep, leftParam + ".") && Contains(ep, rightParam + ".")
  {
    if !PlainExpression(ep) then Rejected
    else if Contains(ep, leftParam + ".") then ToLeft
    else if Contains(ep, rightParam + ".") then ToRight
    else Rejected
  }

  /** One conjunct: split at `==` or `=` into exactly two sides, each placed in turn
      (the later one wins when both go to the same side). */
  function ClauseSides(andPart: string, leftParam: string, rightParam: string): (r: Option<Sides>)
    ensures r.Some? ==> |SplitDoubleOrSingle(andPart, '=')| == 2
  {
    var eqParts := SplitDoubleOrSingle(andPart, '=');
    if |eqParts| != 2 then None
    else
      var e0, e1 := Trim(eqParts[0]), Trim(eqParts[1]);
      var p0, p1 := Place(e0, leftParam, rightParam), Place(e1, leftParam, rightParam);
      if p0 == Rejected || p1 == Rejected then None
      else
        var leftEq := if p1 == ToLeft then Some(e1) else if p0 == ToLeft then Some(e0) else None;
        var rightEq := if p1 == ToRight then Some(e1) else if p0 == ToRight then Some(e0) else None;
        Some(Sides(leftEq, rightEq))
  }

  /** A conjunct is accepted exactly when it splits into two sides, each made of plain
      characters only and mentioning one of the two parameters. */
  lemma ClauseAccepted(andPart: string, leftParam: string, rightParam: string)
    ensures var parts := SplitDoubleOrSingle(andPart, '=');
      ClauseSides(andPart, leftParam, rightParam).Some? <==>
        |parts| == 2
        && forall k :: 0 <= k < 2 ==>
             PlainExpression(Trim(parts[k]))
             && (Contains(Trim(parts[k]), leftParam + ".") || Contains(Trim(parts[k]), rightParam + "."))
  {
    var parts := SplitDoubleOrSingle(andPart, '=');
    if |parts| == 2 {
      var e0, e1 := Trim(parts[0]), Trim(parts[1]);
      assert Place(e0, leftParam, rightParam) != Rejected <==>
        PlainExpression(e0) && (Contains(e0, leftParam + ".") || Contains(e0, rightParam + "."));
      assert Place(e1, leftParam, rightParam) != Rejected <==>
        PlainExpression(e1) && (Contains(e1, leftParam + ".") || Contains(e1, rightParam + "."));
    }
  }

  /** One field `x<i>: <expr>` of a generated selector; a missing expression is
      `undefined`. */
  datatype HashField = HashField(name: string, expr: Option<string>)

  /** The generated `leftFunc` and `rightFunc`: each takes its parameter and returns an
      object with one field per conjunct. */
  datatype Hashers = Hashers(leftParam: string, rightParam: string, leftFields: seq<HashField>, rightFields: seq<HashField>)

  /** `x<i>`, the name the generated selectors give conjunct `i`. */
  function FieldName(i: nat): string {
    "x" + NatToString(i)
  }

  /** The second parameter name as it is interpolated: `undefined` when there is none. */
  function ParamAt(ps: seq<string>, i: nat): string {
    if i < |ps| then ps[i] else "undefined"
  }

  /** The conjuncts of a body, split at `&&` or `&`. */
  function Conjuncts(body: string): seq<string> {
    SplitDoubleOrSingle(body, '&')
  }

  /** The verdict on every conjunct. */
  function SidesOf(clauses: seq<string>, lp: string, rp: string): (r: seq<Option<Sides>>)
    ensures |r| == |clauses|
    ensures forall i :: 0 <= i < |clauses| ==> r[i] == ClauseSides(clauses[i], lp, rp)
  {
    seq(|clauses|, i requires 0 <= i < |clauses| => ClauseSides(clauses[i], lp, rp))
  }

  predicate AllAccepted(ss: seq<Option<Sides>>) {
    forall i :: 0 <= i < |ss| ==> ss[i].Some?
  }

  function SideOf(s: Sides, left: bool): Option<string> {
    if left then s.leftEq else s.rightEq
  }

  /** The fields of one generated selector: `x<i>` with conjunct `i`'s side. */
  function FieldsOf(ss: seq<Option<Sides>>, left: bool): (r: seq<HashField>)
    requires AllAccepted(ss)
    ensures |r| == |ss|
    ensures forall i :: 0 <= i < |ss| ==> r[i] == HashField(FieldName(i), SideOf(ss[i].value, left))
  {
    seq(|ss|, i requires 0 <= i < |ss| => HashField(FieldName(i), SideOf(ss[i].value, left)))
  }

  /** The decomposition of a split function text. */
  function DecomposeSplit(lr: LeftRight): Option<Hashers> {
    var ps := ParametersOf(lr);
    var lp, rp := ParamAt(ps, 0), ParamAt(ps, 1);
    var ss := SidesOf(Conjuncts(BodyOf(lr)), lp, rp);
    if AllAccepted(ss) then Some(Hashers(lp, rp, FieldsOf(ss, true), FieldsOf(ss, false))) else None
  }

  /** The decomposition as a value: what `pairEqualitiesToObjectSelectors` returns,
      `None` for its falsy returns. */
  function Decomposition(text: string): Result<Option<Hashers>> {
    match SplitLeftAndRight(text)
    case Err(e) => Err(e)
    case Ok(lr) => Ok(DecomposeSplit(lr))
  }

  /** The matcher `dataset.merge` builds for `'='` calls `g.eq` and has no equality in its
      body, so it does not decompose into key selectors. */
  lemma EqMatcherUndecomposable(text: string)
    requires text == "(l,r) => g.eq(l,r)"
    ensures Decomposition(text) == Ok(None)
  {
    var lr := EqMatcherSplit(text);
    EqMatcherBody(lr);
    var body := BodyOf(lr);
    assert '&' !in body && '=' !in body by { EqCallHasNoSeparator(body); }
    NoClauseInBody(lr, body);
  }

  lemma EqCallHasNoSeparator(body: string)
    requires body == "g.eq(l,r)"
    ensures '&' !in body && '=' !in body
  {
  }

  lemma EqMatcherSplit(text: string) returns (lr: LeftRight)
    requires text == "(l,r) => g.eq(l,r)"
    ensures SplitLeftAndRight(text) == Ok(lr) && lr.right == " g.eq(l,r)"
  {
    assert OccursAt(text, "=>", 6);
    forall j: nat | j < 6 ensures !OccursAt(text, "=>", j) {
      assert text[j] != '=';
      if j + 2 <= |text| { assert text[j..j + 2][0] == text[j]; }
    }
    forall j: nat ensures !OccursAt(text, "{", j) {
      if j + 1 <= |text| { assert text[j] != '{' && text[j..j + 1][0] == text[j]; }
    }
    lr := LeftRight(text[..6], text[8..]);
  }

  lemma EqMatcherBody(lr: LeftRight)
    requires lr.right == " g.eq(l,r)"
    ensures BodyOf(lr) == "g.eq(l,r)"
  {
    var body := "g.eq(l,r)";
    assert lr.right == " " + body + "";
    BodyOfBare(lr.left, " ", body, "");
  }

  /** A body with no `&` and no `=` is one conjunct that is not an equality. */
  lemma NoClauseInBody(lr: LeftRight, body: string)
    requires BodyOf(lr) == body && '&' !in body && '=' !in body
    ensures DecomposeSplit(lr) == None
  {
    SplitDoubleOrSingleNone(body, '&');
    SplitDoubleOrSingleNone(body, '=');
    var ps := ParametersOf(lr);
    var ss := SidesOf(Conjuncts(body), ParamAt(ps, 0), ParamAt(ps, 1));
    assert ss[0] == None;
  }

  lemma FieldsOfSnoc(ss: seq<Option<Sides>>, n: nat)
    requires n < |ss| && AllAccepted(ss[..n]) && ss[n].Some?
    ensures AllAccepted(ss[..n + 1])
    ensures FieldsOf(ss[..n + 1], true) == FieldsOf(ss[..n], true) + [HashField(FieldName(n), ss[n].value.leftEq)]
    ensures FieldsOf(ss[..n + 1], false) == FieldsOf(ss[..n], false) + [HashField(FieldName(n), ss[n].value.rightEq)]
  {
    assert forall i :: 0 <= i < n ==> ss[..n + 1][i] == ss[..n][i];
  }

  /** `pairEqualitiesToObjectSelectors`; the parser throws on a text that is not a
      function. */
  method PairEqualitiesToObjectSelectors(text: string) returns (r: Result<Option<Hashers>>)
    ensures r == Decomposition(text)
  {
    var lr := SplitLeftAndRight(text);
    if lr.Err? {
      return Err(lr.error);
    }
    var parameters := ParametersOf(lr.value);
    var hashers := DecomposeConjuncts(ParamAt(parameters, 0), ParamAt(parameters, 1), Conjuncts(BodyOf(lr.value)));
    return Ok(hashers);
  }

  /** The loop over the conjuncts, returning at the first rejected one. */
  method DecomposeConjuncts(leftParam: string, rightParam: string, splitBodyByAnds: seq<string>) returns (r: Option<Hashers>)
    ensures var ss := SidesOf(splitBodyByAnds, leftParam, rightParam);
      r == if AllAccepted(ss) then Some(Hashers(leftParam, rightParam, FieldsOf(ss, true), FieldsOf(ss, false))) else None
  {
    ghost var ss := SidesOf(splitBodyByAnds, leftParam, rightParam);
    var leftEqualities: seq<HashField> := [];
    var rightEqualities: seq<HashField> := [];
    for aix := 0 to |splitBodyByAnds|
      invariant AllAccepted(ss[..aix])
      invariant leftEqualities == FieldsOf(ss[..aix], true)
      invariant rightEqualities == FieldsOf(ss[..aix], false)
    {
      var sides := ClauseSides(splitBodyByAnds[aix], leftParam, rightParam);
      assert sides == ss[aix];
      if sides.None? {
        return None;
      }
      FieldsOfSnoc(ss, aix);
      leftEqualities := leftEqualities + [HashField(FieldName(aix), sides.value.leftEq)];
      rightEqualities := rightEqualities + [HashField(FieldName(aix), sides.value.rightEq)];
    }
    assert ss[..|ss|] == ss;
    return Some(Hashers(leftParam, rightParam, leftEqualities, rightEqualities));
  }

  /** The decomposition succeeds exactly when every conjunct splits into two accepted
      sides; then conjunct `i` becomes field `x<i>` of both selectors, holding the
      conjunct's left side in one and its right side in the other. */
  lemma DecompositionShape(lr: LeftRight, i: nat)
    ensures var ps := ParametersOf(lr);
      var lp, rp := ParamAt(ps, 0), ParamAt(ps, 1);
      var clauses := Conjuncts(BodyOf(lr));
      var d := DecomposeSplit(lr);
      (d.Some? <==> forall j :: 0 <= j < |clauses| ==> ClauseSides(clauses[j], lp, rp).Some?)
      && (d.Some? ==>
            d.value.leftParam == lp && d.value.rightParam == rp
            && |d.value.leftFields| == |clauses| == |d.value.rightFields|
            && (i < |clauses| ==>
                 d.value.leftFields[i] == HashField(FieldName(i), ClauseSides(clauses[i], lp, rp).value.leftEq)
                 && d.value.rightFields[i] == HashField(FieldName(i), ClauseSides(clauses[i], lp, rp).value.rightEq)))
  {
    var ps := ParametersOf(lr);
    ConjunctsShape(Conjuncts(BodyOf(lr)), ParamAt(ps, 0), ParamAt(ps, 1), i);
  }

  lemma ConjunctsShape(clauses: seq<string>, lp: string, rp: string, i: nat)
    ensures var ss := SidesOf(clauses, lp, rp);
      (AllAccepted(ss) <==> forall j :: 0 <= j < |clauses| ==> ClauseSides(clauses[j], lp, rp).Some?)
      && (AllAccepted(ss) ==>
            |FieldsOf(ss, true)| == |clauses| == |FieldsOf(ss, false)|
            && (i < |clauses| ==>
                 FieldsOf(ss, true)[i] == HashField(FieldName(i), ClauseSides(clauses[i], lp, rp).value.leftEq)
                 && FieldsOf(ss, false)[i] == HashField(FieldName(i), ClauseSides(clauses[i], lp, rp).value.rightEq)))
  {
    var ss := SidesOf(clauses, lp, rp);
    assert AllAccepted(ss) <==> forall j :: 0 <= j < |clauses| ==> ss[j].Some?;
  }

  /** Conjunct field names never repeat, so every conjunct keeps its own field. */
  lemma FieldNamesDistinct(i: nat, j: nat)
    requires FieldName(i) == FieldName(j)
    ensures i == j
  {
    assert FieldName(i)[1..] == NatToString(i);
    assert FieldName(j)[1..] == NatToString(j);
    NatToStringInjective(i, j);
  }
}
