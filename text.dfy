/** String helpers with the semantics of the JavaScript built-ins the engine calls
    (`split`, `trim`, `indexOf`, `toLowerCase`, `<` on strings, number-to-string). */
module Text {

  import opened Wrappers

  /** Whitespace as `String.prototype.trim` and the regex class `\s` see it
      (the ASCII and Latin-1 members, plus the byte-order mark). */
  predicate IsSpace(c: char) {
    c == ' ' || c == '\t' || c == '\n' || c == '\r' || c == '\U{B}' || c == '\U{C}'
    || c == '\U{A0}' || c == '\U{FEFF}'
  }

  function TrimStart(s: string): (r: string)
    ensures |r| <= |s| && r == s[|s| - |r|..]
    ensures r == [] || !IsSpace(r[0])
    ensures forall i :: 0 <= i < |s| - |r| ==> IsSpace(s[i])
  {
    if s != [] && IsSpace(s[0]) then TrimStart(s[1..]) else s
  }

  function TrimEnd(s: string): (r: string)
    ensures |r| <= |s| && r == s[..|r|]
    ensures r == [] || !IsSpace(r[|r| - 1])
    ensures forall i :: |r| <= i < |s| ==> IsSpace(s[i])
  {
    if s != [] && IsSpace(s[|s| - 1]) then TrimEnd(s[..|s| - 1]) else s
  }

  /** A text made of whitespace only. */
  predicate Blank(s: string) {
    forall i :: 0 <= i < |s| ==> IsSpace(s[i])
  }

  /** A text with no whitespace at either end. */
  predicate Trimmed(s: string) {
    s == [] || (!IsSpace(s[0]) && !IsSpace(s[|s| - 1]))
  }

  /** Leading whitespace is skipped over. */
  lemma {:induction false} TrimStartBlank(w: string, x: string)
    requires Blank(w)
    ensures TrimStart(w + x) == TrimStart(x)
    decreases |w|
  {
    if w != [] {
      var s, rest := w + x, w[1..];
      assert Blank(rest) by {
        forall i | 0 <= i < |rest| ensures IsSpace(rest[i]) { assert rest[i] == w[i + 1]; }
      }
      assert s[0] == w[0] && IsSpace(w[0]);
      assert s[1..] == rest + x;
      TrimStartBlank(rest, x);
    } else {
      assert w + x == x;
    }
  }

  /** Trailing whitespace is skipped over. */
  lemma {:induction false} TrimEndBlank(x: string, w: string)
    requires Blank(w)
    ensures TrimEnd(x + w) == TrimEnd(x)
    decreases |w|
  {
    if w != [] {
      var s, init := x + w, w[..|w| - 1];
      assert Blank(init) by {
        forall i | 0 <= i < |init| ensures IsSpace(init[i]) { assert init[i] == w[i]; }
      }
      assert s[|s| - 1] == w[|w| - 1] && IsSpace(w[|w| - 1]);
      assert s[..|s| - 1] == x + init;
      TrimEndBlank(x, init);
    } else {
      assert x + w == x;
    }
  }

  /** `String.prototype.trim`. */
  function Trim(s: string): string {
    TrimEnd(TrimStart(s))
  }

  /** `s.split(c)` for a one-character separator: the pieces between the separators. */
  function SplitChar(s: string, c: char): (r: seq<string>)
    ensures |r| >= 1
    ensures forall i :: 0 <= i < |r| ==> c !in r[i]
    ensures forall i, j :: 0 <= i < |r| && 0 <= j < |r[i]| ==> r[i][j] in s
  {
    if s == [] then [""]
    else if s[0] == c then [""] + SplitChar(s[1..], c)
    else
      var rest := SplitChar(s[1..], c);
      [[s[0]] + rest[0]] + rest[1..]
  }

  /** `s.split(/cc|c/)`: at each position the doubled separator is tried first. */
  function SplitDoubleOrSingle(s: string, c: char): (r: seq<string>)
    ensures |r| >= 1
    ensures forall i :: 0 <= i < |r| ==> c !in r[i]
  {
    if s == [] then [""]
    else if s[0] == c then
      [""] + SplitDoubleOrSingle(if |s| >= 2 && s[1] == c then s[2..] else s[1..], c)
    else
      var rest := SplitDoubleOrSingle(s[1..], c);
      [[s[0]] + rest[0]] + rest[1..]
  }

  /** A text without the separator is one piece. */
  lemma {:induction false} SplitDoubleOrSingleNone(s: string, c: char)
    requires c !in s
    ensures SplitDoubleOrSingle(s, c) == [s]
  {
    if s != [] {
      SplitDoubleOrSingleNone(s[1..], c);
      assert s == [s[0]] + s[1..];
    }
  }

  /** `parts.join(sep)`. */
  function Join(parts: seq<string>, sep: string): string {
    if parts == [] then ""
    else if |parts| == 1 then parts[0]
    else parts[0] + sep + Join(parts[1..], sep)
  }

  /** Splitting at a character and joining with it again gives back the text. */
  lemma {:induction false} SplitJoin(s: string, c: char)
    ensures Join(SplitChar(s, c), [c]) == s
  {
    if s != [] {
      SplitJoin(s[1..], c);
      SplitJoinStep(s, c);
    }
  }

  /** One character in front of a text whose pieces join back to it. */
  lemma SplitJoinStep(s: string, c: char)
    requires s != [] && Join(SplitChar(s[1..], c), [c]) == s[1..]
    ensures Join(SplitChar(s, c), [c]) == s
  {
    var rest := SplitChar(s[1..], c);
    if s[0] == c {
      SplitJoinSeparator(s[1..], rest, c);
      assert s == [c] + s[1..];
    } else {
      assert SplitChar(s, c) == [[s[0]] + rest[0]] + rest[1..];
      JoinExtendFirst(s[0], rest, [c]);
      assert s == [s[0]] + s[1..];
    }
  }

  lemma SplitJoinSeparator(t: string, rest: seq<string>, c: char)
    requires rest == SplitChar(t, c) && Join(rest, [c]) == t
    ensures Join(SplitChar([c] + t, c), [c]) == [c] + t
  {
    assert ([c] + t)[1..] == t;
    assert SplitChar([c] + t, c) == [""] + rest;
    JoinCons("", rest, [c]);
  }

  /** Putting a character in front of the first piece puts it in front of the join. */
  lemma JoinExtendFirst(x: char, parts: seq<string>, sep: string)
    requires parts != []
    ensures Join([[x] + parts[0]] + parts[1..], sep) == [x] + Join(parts, sep)
  {
    var first := [x] + parts[0];
    if |parts| > 1 {
      var tail := Join(parts[1..], sep);
      JoinCons(first, parts[1..], sep);
      JoinCons(parts[0], parts[1..], sep);
      assert parts == [parts[0]] + parts[1..];
      assert first + sep + tail == [x] + (parts[0] + sep + tail);
    }
  }

  lemma JoinCons(p: string, parts: seq<string>, sep: string)
    requires parts != []
    ensures Join([p] + parts, sep) == p + sep + Join(parts, sep)
  {
    assert ([p] + parts)[1..] == parts;
  }

  /** A text without the separator is one piece. */
  lemma {:induction false} SplitCharNone(s: string, c: char)
    requires c !in s
    ensures SplitChar(s, c) == [s]
  {
    if s != [] {
      SplitCharNone(s[1..], c);
      assert s == [s[0]] + s[1..];
    }
  }

  /** Two separator-free texts joined by one separator split back into the two. */
  lemma {:induction false} SplitCharTwo(a: string, b: string, c: char)
    requires c !in a && c !in b
    ensures SplitChar(a + [c] + b, c) == [a, b]
  {
    var s := a + [c] + b;
    if a == [] {
      assert s[1..] == b;
      SplitCharNone(b, c);
    } else {
      assert s[1..] == a[1..] + [c] + b;
      SplitCharTwo(a[1..], b, c);
      assert [a[0]] + a[1..] == a;
    }
  }

  predicate IsPrefix(p: string, s: string) {
    |p| <= |s| && s[..|p|] == p
  }

  /** `s.indexOf(t) > -1`. */
  predicate Contains(s: string, t: string)
    decreases |s|
  {
    IsPrefix(t, s) || (s != [] && Contains(s[1..], t))
  }

  lemma {:induction false} ContainsAt(s: string, t: string, i: nat)
    requires i + |t| <= |s| && s[i..i + |t|] == t
    ensures Contains(s, t)
    decreases i
  {
    if i == 0 {
      assert s[..|t|] == t;
    } else {
      assert s[1..][i - 1..i - 1 + |t|] == s[i..i + |t|];
      ContainsAt(s[1..], t, i - 1);
    }
  }

  predicate OccursAt(s: string, t: string, j: nat) {
    j + |t| <= |s| && s[j..j + |t|] == t
  }

  /** `s.indexOf(t)`: the first position where `t` occurs, `-1` when it does not. */
  function IndexOf(s: string, t: string): (r: int)
    ensures r == -1 || 0 <= r <= |s| - |t|
    ensures r >= 0 ==> OccursAt(s, t, r)
    ensures r >= 0 ==> forall j: nat :: j < r ==> !OccursAt(s, t, j)
    ensures r == -1 ==> forall j: nat :: !OccursAt(s, t, j)
    decreases |s|
  {
    if IsPrefix(t, s) then 0
    else if s == [] then -1
    else
      var rest := IndexOf(s[1..], t);
      assert forall j: nat :: 1 <= j ==> (OccursAt(s, t, j) <==> OccursAt(s[1..], t, j - 1)) by {
        forall j: nat | 1 <= j ensures OccursAt(s, t, j) <==> OccursAt(s[1..], t, j - 1) {
          if j + |t| <= |s| {
            var here, there := s[j..j + |t|], s[1..][j - 1..j - 1 + |t|];
            assert forall k :: 0 <= k < |t| ==> here[k] == there[k];
            assert here == there;
          }
        }
      }
      if rest == -1 then -1 else rest + 1
  }

  /** `toLowerCase` on the ASCII letters. */
  function ToLower(s: string): (r: string)
    ensures |r| == |s|
  {
    if s == [] then ""
    else [if 'A' <= s[0] <= 'Z' then (s[0] as int + 32) as char else s[0]] + ToLower(s[1..])
  }

  /** JavaScript `a < b` on two strings: lexicographic order on the characters, a proper prefix
      first. JavaScript compares UTF-16 code units; a Dafny `char` is a Unicode scalar value,
      so the two orders agree on text within the Basic Multilingual Plane. */
  predicate StrLess(a: string, b: string) {
    if b == [] then false
    else if a == [] then true
    else if a[0] != b[0] then a[0] < b[0]
    else StrLess(a[1..], b[1..])
  }

  lemma {:induction false} StrLessIrreflexive(a: string)
    ensures !StrLess(a, a)
  {
    if a != [] { StrLessIrreflexive(a[1..]); }
  }

  lemma {:induction false} StrLessTransitive(a: string, b: string, c: string)
    requires StrLess(a, b) && StrLess(b, c)
    ensures StrLess(a, c)
  {
    if a != [] && a[0] == b[0] && b[0] == c[0] {
      StrLessTransitive(a[1..], b[1..], c[1..]);
    }
  }

  lemma {:induction false} StrLessTotal(a: string, b: string)
    requires a != b
    ensures StrLess(a, b) || StrLess(b, a)
  {
    if a != [] && b != [] && a[0] == b[0] {
      assert a == [a[0]] + a[1..] && b == [b[0]] + b[1..];
      StrLessTotal(a[1..], b[1..]);
    }
  }

  lemma StrLessAsymmetric(a: string, b: string)
    requires StrLess(a, b)
    ensures !StrLess(b, a)
  {
    if StrLess(b, a) {
      StrLessTransitive(a, b, a);
      StrLessIrreflexive(a);
    }
  }

  function DigitChar(d: nat): char
    requires d < 10
  {
    "0123456789"[d]
  }

  /** `String(n)` for a natural number: decimal digits without leading zeros. */
  function NatToString(n: nat): (r: string)
    ensures |r| >= 1
    ensures forall i :: 0 <= i < |r| ==> '0' <= r[i] <= '9'
    ensures r[0] == '0' ==> n == 0 && r == "0"
  {
    if n < 10 then [DigitChar(n)] else NatToString(n / 10) + [DigitChar(n % 10)]
  }

  /** `String(i)` for an integer. */
  function IntToString(i: int): string {
    if i < 0 then "-" + NatToString(-i) else NatToString(i)
  }

  function DigitValue(c: char): nat
    requires '0' <= c <= '9'
  {
    c as int - '0' as int
  }

  /** The value of a string of decimal digits. */
  function DigitsValue(s: string): nat
    requires forall i :: 0 <= i < |s| ==> '0' <= s[i] <= '9'
  {
    if s == [] then 0 else DigitsValue(s[..|s| - 1]) * 10 + DigitValue(s[|s| - 1])
  }

  /** A canonical array index: decimal digits, no leading zero except "0" itself. */
  function ParseIndex(key: string): (r: Option<nat>)
  {
    if key != [] && (forall i :: 0 <= i < |key| ==> '0' <= key[i] <= '9') && (key[0] != '0' || |key| == 1)
    then Some(DigitsValue(key)) else None
  }

  lemma {:induction false} NatToStringValue(n: nat)
    ensures DigitsValue(NatToString(n)) == n
  {
    if n >= 10 {
      var s := NatToString(n);
      assert s[..|s| - 1] == NatToString(n / 10);
      NatToStringValue(n / 10);
    }
  }

  /** Reading back the text of a natural number gives the number: array indices
      written with `String(i)` address element `i`. */
  lemma ParseIndexOfNat(n: nat)
    ensures ParseIndex(NatToString(n)) == Some(n)
  {
    NatToStringValue(n);
  }

  lemma NatToStringInjective(m: nat, n: nat)
    requires NatToString(m) == NatToString(n)
    ensures m == n
  {
    NatToStringValue(m);
    NatToStringValue(n);
  }
}
