# lish query engine core, modelled in Dafny

lish is an in-memory query engine over arrays of plain records. Records are grouped,
de-duplicated, joined and merged by the key a user selector picks from them. Keys are put
into a canonical textual form, the key signature (`stringifyObject`), and rows are
gathered into insertion-ordered buckets (`hashBuckets`). This project models the
engine's core and proves properties of the model:

- the JavaScript values the engine handles (`values.dfy`) and the string built-ins it
  calls (`text.dfy`);
- key signatures (`signature.dfy`) and `hashBuckets` (`buckets.dfy`);
- `parser`: parameter names, function bodies and the decomposition of an equality
  matcher into two key selectors (`parser.dfy`);
- `mergeTools`: mapper keywords, `mergeByKeywords`, `wrapper`, `loopMerge`, `hashMerge`,
  `merge` (`merge_tools.dfy`);
- the bundled engine: `joiner` (`joiner.dfy`), `quickSort` and `decideOrder`
  (`sorts.dfy`), the reconciling `merger` (`merger.dfy`), the column gathering of
  `runEmulators` (`emulators.dfy`), the `database` registry and the old
  `dataset.callNested` (`database.dfy`), and JavaScript arrays changed in place
  (`arrays.dfy`);
- the `dataset` class with its `groupLevel` state machine, `recurse` and `recurseToArray`
  (`dataset.dfy`);
- the value helpers of `general` (`general.dfy`) and the `deferable` pipeline
  (`deferable.dfy`).

Objects whose fields the engine updates in place (`hashBuckets`, JavaScript arrays,
`dataset`, `database`, `deferable`, `peekable`) are classes. Their methods are proved
against functions of the old state, and the properties are proved about those
functions. Pure code is written as functions and lemmas.

Several behaviours of the code are modelled as written, and lemmas state them:

- `merger`'s `else` binds to the inner `if`, so a target row without a source row is
  never deleted;
- the loop join's right-unmatched pass runs over the left array's indices;
- the hash join pushes two rows for each unmatched row;
- `inflateKeywords` turns an unknown letter into the word `null`;
- `wrapper` spreads a `stack` result into two rows;
- `hashMerge` pads a missing right bucket with one `undefined` row;
- `merger` ignores a mode keyword it does not know;
- the bundled `quickSort` moves a row equal to the pivot past it, so sorting twice can
  swap tied rows again.

## Model

| member | source | states |
|---|---|---|
| Values.Get | src/general.js:52 | reading a key an object does not have gives `undefined` |
| Values.GetAt | src/general.js:146-148 | reading an object's own key gives that property's value |
| Values.Put | src/dataset.js:96 | assigning a property keeps the key order when the key exists, otherwise appends the key |
| Values.GetPut | src/dataset.js:96 | after an assignment the key reads the new value and every other key what it read before |
| Values.PutKeepsDistinct | src/dataset.js:96 | an assignment never duplicates a key |
| Values.GetAssign | src/mergeTools.js:190-191 | after `Object.assign(target, source)` a key the source has reads the source's value, any other key the target's |
| Values.AssignKeepsDistinct | src/mergeTools.js:190-191 | `Object.assign` never duplicates a key |
| Values.IndexEntriesAt | src/mergeTools.js:190-191 | an array's own properties are its indices written in decimal, with its elements |
| Values.CharEntriesAt | src/mergeTools.js:190-191 | a string's own properties are its indices, each with a one-character string |
| Values.PropOfOwn | src/general.js:148 | reading back an own key of an object, array or string gives that property |
| Text.TrimStart | test/tests.server.js:90 | removes exactly the leading run of whitespace |
| Text.TrimEnd | test/tests.server.js:90 | removes exactly the trailing run of whitespace |
| Text.TrimStartBlank | test/tests.server.js:90 | leading whitespace does not change what trimming the start leaves |
| Text.TrimEndBlank | test/tests.server.js:90 | trailing whitespace does not change what trimming the end leaves |
| Text.SplitChar | src/mergeTools.js:167 | `split` at one character: at least one piece, no piece holds the separator |
| Text.SplitDoubleOrSingle | test/tests.server.js:150 | splitting at `&&` or `&`, and at `==` or `=`: at least one piece, no piece holds either separator |
| Text.SplitJoin | src/mergeTools.js:167 | splitting at a character and joining with it again gives back the text |
| Text.SplitCharNone | src/mergeTools.js:167 | a text without the separator splits into itself alone |
| Text.SplitCharTwo | src/mergeTools.js:167-169 | two separator-free words joined by one separator split back into the two words |
| Text.SplitDoubleOrSingleNone | test/tests.server.js:150 | a text without the separator splits into itself |
| Text.IndexOf | test/tests.server.js:101-102 | `indexOf` is the first position where the text occurs, `-1` iff it occurs nowhere |
| Text.ToLower | test/tests.server.js:725 | lower-casing keeps the length |
| Text.StrLessIrreflexive | test/tests.server.js:644-647 | no string is below itself in character order |
| Text.StrLessTransitive | test/tests.server.js:644-647 | character order on strings is transitive |
| Text.StrLessTotal | test/tests.server.js:644-647 | of two different strings one is below the other in character order |
| Text.StrLessAsymmetric | test/tests.server.js:644-647 | in character order, `a` below `b` rules out `b` below `a` |
| Text.NatToString | test/tests.server.js:181 | decimal digits with no leading zero |
| Text.NatToStringValue | test/tests.server.js:181 | the digits read back as the number |
| Text.ParseIndexOfNat | test/tests.server.js:155 | the decimal text of `i` addresses index `i`, as a `for ... in` index does |
| Text.NatToStringInjective | test/tests.server.js:181-182 | different numbers have different decimal texts |
| Parser.SliceFrom | test/tests.server.js:117-124 | `slice` from a start index, with `-1` (an absent `(`) counting from the end: the last character only |
| Parser.SplitLeftAndRight | test/tests.server.js:101-127 | fails with the non-function error exactly when the text has neither `=>` nor `{`; when the first `=>` comes before any `{`, the left part is the text before it and the right part the text after the arrow, which is dropped; when the first `{` comes first, the right part is the text from the brace on and the left part the text before it cut back to its first `(`, when it has one; the two never start at the same place |
| Parser.StripParensAndSpace | test/tests.server.js:84 | the result holds no parenthesis and no whitespace character; a text without them comes back unchanged, and one made only of them comes back empty |
| Parser.StripParensAndSpaceAppend | test/tests.server.js:84 | the removal distributes over concatenation, so the other characters are kept in order |
| Parser.ParametersOf | test/tests.server.js:82-85 | at least one name; no name holds a comma, a parenthesis or whitespace; the names joined by commas give back the stripped parameter text |
| Parser.Parameters | test/tests.server.js:137-139 | fails exactly when the text is not a function (no `=>` and no `{`) |
| Parser.BodyOf | test/tests.server.js:87-90 | the body neither starts nor ends with whitespace |
| Parser.BodyOfBraced | test/tests.server.js:87-90 | a body in braces, with whitespace around and inside them, is the text between the braces, trimmed |
| Parser.BodyOfBare | test/tests.server.js:87-90 | a body without braces, with whitespace around it, is the text itself, trimmed |
| Parser.Body | test/tests.server.js:133-135 | fails exactly when the text is not a function |
| Parser.Place | test/tests.server.js:167-177 | a side goes left iff it is plain and mentions `leftParam.`, right iff plain, not mentioning `leftParam.` and mentioning `rightParam.`, else it is rejected |
| Parser.ClauseSides | test/tests.server.js:157-163 | an accepted conjunct split into exactly two parts at `==`/`=` |
| Parser.ClauseAccepted | test/tests.server.js:158-177 | a conjunct is accepted iff it splits into exactly two sides, each plain (only `[A-Za-z0-9_. ]`) and mentioning one of the two parameters |
| Parser.SidesOf | test/tests.server.js:155-158 | one verdict per conjunct, in order |
| Parser.FieldsOf | test/tests.server.js:181-182 | field `i` of each generated selector is named `x<i>` and holds conjunct `i`'s side for that selector |
| Parser.EqMatcherUndecomposable | src/dataset.js:137 | the `(l,r) => g.eq(l,r)` matcher that `merge` builds for `'='` does not decompose: its one conjunct has no equality |
| Parser.PairEqualitiesToObjectSelectors | test/tests.server.js:144-191 | returns exactly `Decomposition(text)`: the parser's error for a non-function, else no result or the two selectors |
| Parser.DecomposeConjuncts | test/tests.server.js:150-184 | the loop returns no result iff some conjunct is rejected, otherwise the two field lists built from every conjunct |
| Parser.DecompositionShape | test/tests.server.js:144-191 | a decomposition exists iff every conjunct is accepted; then both selectors have one field per conjunct, field `i` carrying conjunct `i`'s left and right side |
| Parser.ConjunctsShape | test/tests.server.js:155-184 | the same statement for the conjunct loop alone |
| Parser.FieldNamesDistinct | test/tests.server.js:181-182 | two conjuncts never share a field name `x<i>` |
| Signatures.StringifyObject | src/general.js:34-59 | the loop returns exactly `Signature(obj)`: `''` for `undefined`, the `toString` text for anything but a plain object, else `[` then `[k,v]` per key in sorted order then `]`; `null` is excluded because `null.toString()` throws |
| Signatures.StringifyProperty | src/general.js:52-54 | one property's text: a nested plain object is recursed into, any other value is written as the template literal writes it |
| Signatures.SortStringsMultiset | src/general.js:49 | sorting the keys keeps exactly the keys |
| Signatures.SortStringsSorted | src/general.js:49 | the sorted keys are in ascending character order (the order of `StrLess`) |
| Signatures.SortedUnique | src/general.js:49 | two sorted key lists with the same keys are the same list |
| Signatures.SortStringsCanonical | src/general.js:49 | the order `stringifyObject` visits keys in depends only on which keys there are |
| Signatures.SignatureIgnoresInsertionOrder | src/general.js:34-59 | values alike but for the insertion order of object properties, at any depth, have the same signature |
| Signatures.RearrangedReflexive | src/general.js:34-59 | every value whose objects list each key once is a rearrangement of itself |
| Signatures.SwapRearranged | src/general.js:49 | swapping two properties of a record rearranges it |
| Signatures.RearrangedProperty | src/general.js:52 | rearranged objects read alike at every key |
| Signatures.RearrangedKeys | src/general.js:49 | rearranged objects have the same keys, each as often |
| Signatures.ToTextRearranged | src/general.js:53-54 | rearranged values are written alike by the template literal: an object as `[object Object]` whatever it holds, an array item by item |
| Signatures.FieldsTextRearranged | src/general.js:51-55 | the `[key,value]` text of rearranged objects is the same for any key list |
| Signatures.PropertyTextRearranged | src/general.js:52-54 | one property of rearranged objects is written alike, nested objects recursed into |
| Signatures.NumberAndStringCollide | test/tests.server.js:36-37 | `1` and `"1"` are different values with the same signature |
| Signatures.UndefinedSignatures | test/tests.server.js:28-29 | a top-level `undefined` gives `''`, a nested one the word `undefined` |
| Buckets.AddOne | test/tests.server.js:351-354 | a new signature opens a one-item bucket at the end of the key order; a known one appends to its bucket and keeps the order |
| Buckets.Without | test/tests.server.js:371-372 | deleting a key from the key order keeps exactly the other keys |
| Buckets.BucketsInOrder | test/tests.server.js:402-404 | one bucket per key, in key order |
| Buckets.AddOneValid | test/tests.server.js:346-358 | adding an item keeps the key order duplicate-free, in step with the map, with no empty bucket |
| Buckets.AddAllValid | test/tests.server.js:340-344 | the same for a whole sequence of items |
| Buckets.AddAllSucceeds | test/tests.server.js:340-349 | adding items fails iff some item selects a `null` key |
| Buckets.AddAllBuckets | test/tests.server.js:340-358 | each bucket receives exactly the items whose key has its signature, in input order, after what it held |
| Buckets.AddAllKeepsOrderPrefix | test/tests.server.js:351-352 | the old key order is a prefix of the new one: new keys go to the end |
| Buckets.AddAllPermutation | test/tests.server.js:340-358 | the buckets together hold what they held plus every added item, each exactly once |
| Buckets.MatchingMembers | test/tests.server.js:348-354 | an item is in the bucket of `k` iff it is one of the items and its key signature is `k` |
| Buckets.MatchingNonEmpty | test/tests.server.js:351-352 | the bucket of `k` is non-empty iff some item has key signature `k` |
| Buckets.GroupedBuckets | test/tests.server.js:331-358 | after `new hashBuckets(sel).addItems(items)`: a key has a bucket iff some item has it, that bucket is exactly its items in order, and the buckets are a permutation of the items |
| Buckets.RemoveKeyValid | test/tests.server.js:371-372 | deleting a key keeps the map well formed |
| Buckets.RemoveKeysContents | test/tests.server.js:371-372 | deleting keys drops exactly those keys and leaves every other bucket as it was |
| Buckets.HashBuckets.constructor | test/tests.server.js:333-338 | a new map is empty and keeps its key selector |
| Buckets.HashBuckets.AddItem | test/tests.server.js:346-358 | fails iff the key is `null` (the state is then unchanged); otherwise the new state is `AddOne` of the old |
| Buckets.HashBuckets.AddItems | test/tests.server.js:340-344 | succeeds iff every key is non-`null`, and then the state is `AddAll` of the old; on a `null` key at item `i`, the items before `i` stay added |
| Buckets.HashBuckets.GetBucket | test/tests.server.js:360-376 | the bucket of the signature (none when absent), the key removed iff `remove`; fails on a `null` key with nothing changed |
| Buckets.HashBuckets.GetBucketFirstItem | test/tests.server.js:378-396 | `null` for an absent or empty bucket, otherwise its first item; the key removed iff `remove` |
| Buckets.HashBuckets.Take | src/mergeTools.js:95-99 | `get` then `delete` on the map: the bucket under the signature, which leaves the map |
| Buckets.HashBuckets.GetKeys | test/tests.server.js:398-400 | the signatures, each once, exactly the keys of the map |
| Buckets.HashBuckets.GetBuckets | test/tests.server.js:402-404 | one non-empty bucket per key, in insertion order |
| MergeTools.InflateKeywords | src/mergeTools.js:208-219 | a two-letter mapper becomes the names of the keywords its two letters stand for, separated by a space |
| MergeTools.NormalizeMapper | src/mergeTools.js:157-183 | a function mapper is accepted, unchanged, exactly when its parameters are the matcher's; a keyword mapper is read as two keywords and otherwise fails with the keyword error |
| MergeTools.MergeByKeywordsCases | src/mergeTools.js:186-204 | a pair with a falsy side gives one of the two sides or nothing, and nothing truthy when both are falsy; `both` and `thob` on a matched pair give a record; `null null` gives nothing |
| MergeTools.LoopMerged | src/mergeTools.js:117-146 | under `null null` the loop merge yields nothing |
| MergeTools.NullNullYieldsNothing | src/mergeTools.js:127-144 | under `null null` none of the three loops of `loopMerge` yields anything |
| MergeTools.HashMerged | src/mergeTools.js:76-115 | a failing hash merge fails with the null-key error |
| MergeTools.HashMergeNeedsKeys | src/mergeTools.js:86-92 | the hash merge succeeds exactly when every row on both sides has a key |
| MergeTools.HashMergedInputs | src/mergeTools.js:86-92 | `hashMerge` on the sides as handed over fails only with the null-key error or with "items is not iterable" |
| MergeTools.HashMergeNeedsIterables | src/mergeTools.js:86-92 | with an iterator on both sides, `hashMerge` is the hash merge of their rows. A left side without one throws "items is not iterable" at once. A right side without one throws it after every left row is hashed, unless a left row's `null` key throws first |
| MergeTools.ParseKeyword | src/mergeTools.js:170-172 | a word is accepted exactly when it is one of the six allowed terms, and the keyword returned is the one with that name |
| MergeTools.ParseKeywordName | src/mergeTools.js:170-172 | reading back any keyword's name gives that keyword |
| MergeTools.LetterKeyword | src/mergeTools.js:209-216 | each letter inflates to the name of its keyword; a letter that names none gives `null` |
| MergeTools.ParametersAreEqual | src/mergeTools.js:221-235 | the length-then-element loop answers exactly whether the two parameter lists are equal; a text the parser refuses propagates its error |
| MergeTools.SameNames | src/mergeTools.js:226-233 | the length check and the element loop answer true exactly when the two parameter lists are equal |
| MergeTools.KeywordsRoundTrip | src/mergeTools.js:162-175 | any two keywords written out with a space are read back as that pair |
| MergeTools.DefaultMapper | src/mergeTools.js:159-160 | a missing or empty mapper is `both null` |
| MergeTools.TwoLetterMappers | src/mergeTools.js:164-165 | every two-letter string is a valid mapper whose keywords are its two letters inflated |
| MergeTools.UnknownLetterIsNull | src/mergeTools.js:208-218 | `'bx'` passes validation as `both null`, because the unknown letter becomes the word `null` |
| MergeTools.KeywordValidation | src/mergeTools.js:167-173 | a keyword string of any other length is accepted exactly when its first two space-separated words are allowed terms |
| MergeTools.FunctionMapperValidation | src/mergeTools.js:179-182 | a function mapper is accepted exactly when its parameter list equals the matcher's, and is otherwise refused with the parameter-mismatch error |
| MergeTools.Wrapper | src/mergeTools.js:148-155 | a falsy value yields nothing, an array its elements, a string its characters, anything else itself alone |
| MergeTools.Chars | src/mergeTools.js:151-152 | iterating a string yields one one-character string per character, in order |
| MergeTools.OverlayReads | src/mergeTools.js:190-191 | after the overlay a key reads the top object's value if it has one and the base's otherwise; no key holds `undefined` and none occurs twice |
| MergeTools.BothPrefersLeft | src/mergeTools.js:190 | `both` on a matched pair gives a record in which the left row's values win and the right row fills in the rest |
| MergeTools.ThobPrefersRight | src/mergeTools.js:191 | `thob` on a matched pair gives a record in which the right row's values win and the left row fills in the rest |
| MergeTools.UnmatchedRow | src/mergeTools.js:198-204 | an unmatched row is kept by `both`, `thob` and its own side and dropped by `null`, `stack` and the other side |
| MergeTools.StackEmitsBoth | src/mergeTools.js:195 | `stack` emits a matched pair as two rows, left then right |
| MergeTools.MatchRow | src/mergeTools.js:128-136 | the inner loop for one left row yields that row's matched output and adds to the hit sets exactly that row (if it matched) and the right rows it matched |
| MergeTools.MatchPairs | src/mergeTools.js:127-136 | the pair loop yields every matched pair's output, left-major, and records exactly the left and right rows that matched something |
| MergeTools.EmitLeftRest | src/mergeTools.js:138-140 | the second loop yields `mapper(l, undefined)` for exactly the left rows that matched nothing, in order |
| MergeTools.EmitRightRest | src/mergeTools.js:142-144 | the third loop yields `mapper(undefined, r)` for exactly the right rows that matched nothing, in order |
| MergeTools.LoopMerge | src/mergeTools.js:117-146 | `loopMerge` yields the matched pairs, then the unmatched left rows, then the unmatched right rows |
| MergeTools.RowOutputMembers | src/mergeTools.js:128-136 | a value is in one left row's output exactly when a right row it matched emitted it |
| MergeTools.PairsOutputMembers | src/mergeTools.js:127-136 | a value is among the pairs' output exactly when some matched pair emitted it |
| MergeTools.LeftRestMembers | src/mergeTools.js:138-140 | a value is among the unmatched left output exactly when an unmatched left row, mapped with `undefined`, emitted it |
| MergeTools.RightRestMembers | src/mergeTools.js:142-144 | a value is among the unmatched right output exactly when an unmatched right row, mapped with `undefined`, emitted it |
| MergeTools.LoopMergedMembers | src/mergeTools.js:117-146 | a value is yielded exactly when a matched pair, an unmatched left row or an unmatched right row emitted it |
| MergeTools.UnmatchedNull | src/mergeTools.js:203 | with `null` for unmatched rows, a row paired with `undefined` yields nothing |
| MergeTools.InnerLoopMerge | src/mergeTools.js:117-146 | with `null` for unmatched rows, `loopMerge` yields the matched pairs and nothing else |
| MergeTools.LeftLoopMerge | src/mergeTools.js:138-144 | with `left` for unmatched rows, every left record that matched nothing is yielded unchanged and no unmatched right row contributes |
| MergeTools.NullishNeverPairs | src/mergeTools.js:129-130 | a row that is `undefined` or `null` never pairs |
| MergeTools.PairsOutputByValue | src/mergeTools.js:127-136 | by value: the pairs' output is what every pair of rows the matcher accepts emits |
| MergeTools.RightBucket | src/mergeTools.js:105 | a key the right side lacks pads the left bucket with `[undefined]` |
| MergeTools.EmitUnmatched | src/mergeTools.js:112-113 | one leftover right bucket yields `mapper(undefined, r)` for each of its items, in order |
| MergeTools.DrainLeft | src/mergeTools.js:101-108 | the first loop yields each left key's bucket loop-merged with the right bucket of the same key, in key order, and leaves the right table without those keys |
| MergeTools.MergeKey | src/mergeTools.js:102-108 | one step of the first loop removes one more key from both tables and appends that key's loop merge |
| MergeTools.TakeAndMerge | src/mergeTools.js:95-99 | removing a key's bucket from both tables and loop-merging them extends the output by that key |
| MergeTools.DrainKey | src/mergeTools.js:111-113 | one step of the second loop removes one right key and emits its items as unmatched |
| MergeTools.DrainRight | src/mergeTools.js:110-113 | the second loop emits every right bucket still present, in key order, as unmatched |
| MergeTools.HashMerge | src/mergeTools.js:76-115 | `hashMerge` throws "items is not iterable" on a side without an iterator, the left side first. Otherwise it yields the left pass then the right pass over the buckets, and fails when a row's key cannot be signed |
| MergeTools.LeftPassMembers | src/mergeTools.js:101-108 | a value is in the left pass exactly when some left key's loop merge yielded it |
| MergeTools.UnmatchedMembers | src/mergeTools.js:112-113 | a value is among a bucket's unmatched output exactly when one of its items, mapped with `undefined`, emitted it |
| MergeTools.RightPassMembers | src/mergeTools.js:110-113 | a value is in the right pass exactly when an item of one of the remaining buckets emitted it |
| MergeTools.GroupedKeyed | src/mergeTools.js:86-92 | once grouping succeeded, every row's key has a signature |
| MergeTools.InnerBucketPairs | src/mergeTools.js:102-108 | within one left key, an inner hash merge pairs exactly the left and right rows with that key that the matcher accepts |
| MergeTools.ClaimedKeys | src/mergeTools.js:102-113 | a right key survives the left pass exactly when some right row has it and no left row does |
| MergeTools.InnerRightPass | src/mergeTools.js:110-113 | with `null` for unmatched rows, the leftover right buckets yield nothing |
| MergeTools.InnerHashMerge | src/mergeTools.js:76-115 | an inner `hashMerge` yields exactly what the matcher-accepted pairs of rows with equal keys emit |
| MergeTools.HashAgreesWithLoop | src/mergeTools.js:76-146 | when the hashers never separate two rows the matcher accepts, an inner `hashMerge` yields the same values as an inner `loopMerge` |
| MergeTools.UnclaimedRightEmitted | src/mergeTools.js:110-113 | whatever the mapper makes of a right row whose key no left row has appears in the output |
| MergeTools.PaddingReachesMapper | src/mergeTools.js:105 | a left row whose key no right row has meets the `[undefined]` padding, so a function mapper is also called with two `undefined`s and what it returns is yielded |
| MergeTools.HashObject | test/tests.server.js:186-189 | a generated selector returns one property per conjunct, named `x<i>` in order |
| MergeTools.Merge | src/mergeTools.js:15-74 | `merge` validates the method, reads the options, parses the matcher when no hashers are given and runs the loop or the hash merge, with the same result as the specification `Merged` |
| MergeTools.UnknownMethodRejected | src/mergeTools.js:27-30 | a method other than `hash`, `loop` and `hashDistinct` is refused before anything else |
| MergeTools.UndecomposableMatcher | src/mergeTools.js:44-49 | a matcher the parser cannot turn into hashers is loop-merged when no method is given and refused when hashing is asked for |
| MergeTools.UndecomposableRefused | src/mergeTools.js:46-48 | such a matcher with any method other than `loop` is refused |
| MergeTools.UniterableLoopMerged | src/mergeTools.js:127-144 | a loop merge walks a right side without an iterator by `for...in`, exactly as it would walk the array of that side's property values |
| MergeTools.UniterableHashRefused | src/mergeTools.js:63-92 | asked to hash, `merge` fails on a right side without an iterator when the left side has one, whatever the options |
| MergeTools.UndecomposedKeywordsLoopMerged | src/mergeTools.js:39-61 | with keyword options and a matcher the parser cannot decompose, `merge` is the loop merge of what `for...in` visits on each side |
| MergeTools.EmptyRightLoopMerged | src/mergeTools.js:117-144 | in that case, a right side with nothing to visit meets no left row: each left row is mapped against `undefined`, in order |
| MergeTools.BothBothMapper | src/mergeTools.js:162-175 | `'both both'` is read as the keyword pair `both`, `both` |
| MergeTools.BothKeepsUnmatchedLeft | src/mergeTools.js:198-199 | under `'both both'` every unmatched left record is yielded as it is, in order |
| MergeTools.ObjectOptionsHash | src/mergeTools.js:33-37 | with object options and no method, rows are hashed with the given hashers, falling back to `hasher` on a side without its own |
| MergeTools.DecomposedMatcherHashes | src/mergeTools.js:50-53 | a decomposable matcher is hash-merged by default with the parser's two selectors |
| MergeTools.LoopMergeWithoutRows | src/mergeTools.js:117-146 | when the `for...in` loops find no index on one side, as on a generator, only the other side's rows come out, each mapped against `undefined` |
| MergeTools.GeneratedLeftLoopMerged | src/mergeTools.js:39-60 | with keyword options and a matcher the parser cannot decompose, left rows from a generator meet no right row, and each right row is mapped against `undefined` |
| MergeTools.UnmatchedDropped | src/mergeTools.js:203 | under `null` for unmatched rows, no unmatched row is kept |
| MergeTools.BothNullMapper | src/mergeTools.js:162-175 | the text `'both null'` is read as overlay on a match, nothing otherwise |
| MergeTools.DecomposedFieldNames | test/tests.server.js:181-182 | the parser gives conjunct `i` the field name `x<i>` on both sides |
| MergeTools.SelectorsShareKeys | test/tests.server.js:185-189 | the left and right selectors return objects with the same keys in the same order, so their signatures compare alike |
| MergeTools.InnerJoinOnId | src/mergeTools.js:186-196 | joining `[{id:1,v:'a'},{id:2,v:'b'}]` with `[{id:2,w:'x'},{id:3,w:'y'}]` on `id` under `both null` yields the single record `{id:2,w:'x',v:'b'}` |
| Merger.ToLowerIdempotent | test/tests.server.js:725 | lower-casing twice is lower-casing once |
| Merger.KeywordsIgnoreCase | test/tests.server.js:725-730 | a keyword sets the same flags whatever the case of its letters |
| Merger.UpsertKeyword | test/tests.server.js:727-730 | `upsert` sets update-if-matched and insert-if-no-target only |
| Merger.FullKeyword | test/tests.server.js:727-730 | `full` sets update-if-matched, insert-if-no-target and delete-if-no-source |
| Merger.DeleteKeyword | test/tests.server.js:727-730 | `delete` sets delete-if-matched only |
| Merger.UnknownModeSetsNothing | test/tests.server.js:725-730 | a keyword that none of the five modes names sets no flag |
| Merger.ScanTarget | test/tests.server.js:736-754 | the backward loop over the target leaves exactly the rows and the remaining source buckets of the specification scan, and fails exactly when the scan meets a `null` key, leaving the rows from that one down untouched and those above as the scan made them |
| Merger.ScanRow | test/tests.server.js:738-752 | one turn of the loop fails exactly on a row without a key, leaving the target as it was; otherwise rows below `t` are untouched and rows from `t` on are what the scan makes of them |
| Merger.VisitTarget | test/tests.server.js:745-752 | row `t` is spliced out, replaced by the source row or kept, as the flags and the dangling `else` decide, and nothing else in the target moves |
| Merger.AppendHeads | test/tests.server.js:756-765 | the first item of each remaining bucket is pushed, in key order |
| Merger.FirstOfEach | test/tests.server.js:760 | one item per bucket: its first |
| Merger.PushAll | test/tests.server.js:763-764 | pushing the items in turn appends them all, in order |
| Merger.HeadsOfBuckets | test/tests.server.js:758-760 | the first items of the buckets in key order are the table's heads |
| Merger.Merge | test/tests.server.js:722-769 | returns the target it changed in place, now holding exactly the specification's merged rows, or fails on a `null` identity key; either way the target ends as `LeftBehind` says, keeping the changes made before a throw |
| Merger.StuckAt | test/tests.server.js:736-743 | when the scan throws at the first keyless row counting down, the target holds the rows up to it untouched and the rows above it as the scan made them |
| Merger.DeleteThenThrow | test/tests.server.js:736-749 | `delete` on `[t1, t2]` where `t2` is matched and `t1` has a `null` key throws, and the target is left as `[t1]`: the splice made before the throw stays |
| Merger.ScanFails | test/tests.server.js:738-743 | the only way the scan fails is a `null` identity key |
| Merger.KeysFromMembers | test/tests.server.js:736-743 | a key is among the keys the scan removes exactly when some row from `i` on has it |
| Merger.ScanKeyed | test/tests.server.js:736-743 | a scan succeeds only when every row from `i` on has a key |
| Merger.ScanTable | test/tests.server.js:736-743 | a successful scan leaves exactly the source buckets of the keys no scanned row has |
| Merger.FoundBucket | test/tests.server.js:738-743 | a row finds its key's source row unless a later row with the same key took it first, in which case it finds `null` |
| Merger.UnmatchedRowsKept | test/tests.server.js:751-752 | whatever the flags, target rows whose keys have no source bucket are all kept |
| Merger.ScanShrinks | test/tests.server.js:738-743 | the scan only ever removes source buckets |
| Merger.UnmatchedRowKept | test/tests.server.js:745-752 | one target row whose key has no source bucket is kept |
| Merger.DistinctKeysVisit | test/tests.server.js:736-754 | with distinct target keys, each row is judged against its own key's source bucket alone |
| Merger.FirstOfGrouped | test/tests.server.js:732-743 | the source row a key finds is the first source row with that key, or `null` |
| Merger.UpdateReplacesMatched | test/tests.server.js:745-749 | with distinct target keys and an update mode, exactly the target rows with a truthy source row are replaced by it and the others kept, in place |
| Merger.VisitEachUpdate | test/tests.server.js:745-749 | in an update mode, visiting keeps the length and replaces row `j` by its truthy source row, if any |
| Merger.UnmatchedTargetKept | test/tests.server.js:751-752 | target rows whose keys no source row has come through unchanged whatever the mode, even `full`, and inserted rows come after them |
| Merger.MatchedRowDeletedByNoSourceFlag | test/tests.server.js:745-752 | with only the fourth flag of an array mode set, a matched target row is spliced out, though the flag is meant for rows without a source |
| Merger.SingleGroup | test/tests.server.js:732-734 | a one-row source makes one bucket holding that row |
| Merger.InsertedRows | test/tests.server.js:756-765 | inserting appends exactly the first rows of the source keys no target row has, in the order their keys first appeared in the source |
| Merger.UpsertExample | test/tests.server.js:722-769 | `upsert` on `[t1, t2]` with `[s2, s3]`, where only `s2` shares a key with a target row (`t2`), gives `[t1, s2, s3]` |
| Merger.UpsertFlagsExample | test/tests.server.js:736-765 | the same for any mode with the flags of `upsert` |
| Merger.TwoGroups | test/tests.server.js:732-734 | a two-row source with distinct keys makes two one-row buckets in source order |
| Merger.UpsertSecondRow | test/tests.server.js:738-749 | the last target row takes its key's source row and removes the key |
| Merger.UpsertFirstRow | test/tests.server.js:738-752 | the first target row finds no source row and is kept |
| Joins.ExtractOption | test/tests.server.js:555-565 | the option returned is the default or a search term among the options |
| Joins.ExtractOptionFirst | test/tests.server.js:555-565 | with no option among the search terms the default is returned; otherwise the option returned is the first option that is a search term |
| Joins.FirstInFound | test/tests.server.js:560 | the filter finds nothing exactly when no option is a search term, and what it finds is an option that is a term |
| Joins.FirstInIndex | test/tests.server.js:560 | the option found is the one at the first index that holds a term |
| Joins.WordsCons | test/tests.server.js:557 | a plain word, a space and the rest split into that word followed by the words of the rest |
| Joins.WordsOne | test/tests.server.js:557 | a plain word splits into itself alone |
| Joins.JoinTypeChoice | test/tests.server.js:415-416 | the join type is always one of `inner left right full` and is `inner` unless the options name another; the algorithm is always `hash` or `loop` |
| Joins.AlgorithmChoice | test/tests.server.js:416 | the algorithm is whichever of `hash` and `loop` comes first among the words of the options |
| Joins.DefaultMapperPrefersFromRow | test/tests.server.js:432 | the default mapper gives a record in which a key reads the from-row's value if it has one and the join-row's otherwise, with no key twice and no `undefined` value |
| Joins.RemoveUndefinedKeysIdempotent | test/tests.server.js:317-329 | the wrapped mapper's results carry no `undefined` property, and removing them again changes nothing |
| Joins.RowStepsFail | test/tests.server.js:480-482 | once the inner loop failed, later join-rows do not change the failure |
| Joins.PairStepsFail | test/tests.server.js:480-482 | once the pair loop failed, later from-rows do not change the failure |
| Joins.LeftStepsFail | test/tests.server.js:498-503 | once the left pass failed, later rows do not change the failure |
| Joins.RightStepsFail | test/tests.server.js:505-509 | once the right pass failed, later indices do not change the failure |
| Joins.FromHitStep | test/tests.server.js:484-494 | a from-row is hit by the first `n + 1` join-rows exactly when it was hit by the first `n` or matches join-row `n` |
| Joins.JoinHitStep | test/tests.server.js:484-494 | a join-row is hit by the first `m + 1` from-rows exactly when it was hit by the first `m` or matches from-row `m` |
| Joins.InnerLoopJoin | test/tests.server.js:464-511 | an inner loop join pushes the matched pairs and nothing else |
| Joins.RightLoopJoinSkipsJoinRows | test/tests.server.js:505-509 | with no from-rows a right join pushes nothing, although every join-row went unmatched, because the right pass walks the from-indices |
| Joins.RightLoopJoinReadsPastEnd | test/tests.server.js:505-509 | with more from-rows than join-rows, the right pass maps `undefined` for an index past the join-rows |
| Joins.PastEndPairs | test/tests.server.js:480-494 | two from-rows that match no join-row leave both `joinHits` entries unset |
| Joins.PastEndRight | test/tests.server.js:505-509 | the right pass over two unset indices maps the join-row at 0 and `undefined` at 1 |
| Joins.LeftoversShape | test/tests.server.js:547-550 | each leftover from-row is pushed unmapped at an even position, followed by an empty object |
| Joins.RightHashJoinPushesPair | test/tests.server.js:540-541 | an unmatched join-row in a right hash join is pushed as two rows, `{}` and the row itself, without calling the mapper |
| Joins.LeftHashJoinPushesPair | test/tests.server.js:547-550 | an unmatched from-row in a left hash join is pushed unmapped, followed by `{}` |
| Joins.GroupedSingle | test/tests.server.js:521-523 | one from-row with a key is one bucket holding it |
| Joins.SingleLeftover | test/tests.server.js:547-550 | one leftover bucket of one row pushes that row and `{}` |
| Joins.MapBucketFail | test/tests.server.js:532-536 | once mapping a bucket failed, later rows of the bucket do not change the failure |
| Joins.ProbeFail | test/tests.server.js:525-543 | once the join-row loop failed, later join-rows do not change the failure |
| Joins.RemainingSnoc | test/tests.server.js:548-549 | one more key in the order appends its bucket to the remaining rows |
| Joins.HashJoinNeedsSelectors | test/tests.server.js:447-451 | a hash join on a predicate the parser cannot decompose is refused, and the same predicate loop-joins |
| Joins.MapperParametersChecked | test/tests.server.js:426-432 | a mapper whose first parameter name differs from the predicate's is refused whatever the algorithm |
| Joins.TryPair | test/tests.server.js:487-495 | one pair pushes the mapped row when the logic accepts it and reports the hit exactly then |
| Joins.HitsStep | test/tests.server.js:492-493 | the hits of one more from-row extend both hit sets as recorded |
| Joins.HitsFromHit | test/tests.server.js:492 | the join-rows a from-row hit are non-empty exactly when that from-row was hit |
| Joins.JoinRow | test/tests.server.js:481-496 | the inner loop for one from-row pushes the mapped row for every join-row the logic accepts and records exactly those join-rows; when it throws, the rows it pushed before the throw are returned as well |
| Joins.PairRow | test/tests.server.js:480-496 | one from-row of the pair loop keeps the hit sets exact for the rows seen so far |
| Joins.JoinPairs | test/tests.server.js:480-496 | the pair loop pushes every accepted pair, from-major, and ends with hit sets holding exactly the rows each side matched; when it throws, the rows it pushed before the throw are returned as well |
| Joins.LeftRow | test/tests.server.js:500-503 | one step of the left pass pushes `mapper(fromRow, {})` exactly when the row was not hit |
| Joins.JoinLeftRest | test/tests.server.js:498-503 | the left pass pushes `mapper(fromRow, {})` for each from-row not hit, in order, and also reports what it pushed before a throw |
| Joins.RightRow | test/tests.server.js:506-509 | one step of the right pass pushes `mapper({}, joinDs.data[fix])` exactly when that index's `joinHits` entry is unset |
| Joins.JoinRightRest | test/tests.server.js:505-509 | the right pass, over the from-indices, pushes `mapper({}, joinDs.data[fix])` for each unset entry, and also reports what it pushed before a throw |
| Joins.LoopJoin | test/tests.server.js:464-511 | the pair loop, then the left pass for `left` and `full`, then the right pass for `right` and `full`, stopping at the first failure; the rows pushed are `LoopPushed`, which keeps every row pushed before that failure |
| Joins.BucketRows | test/tests.server.js:532-536 | every row of a from-bucket mapped with the join-row, in bucket order; when the mapper throws, the rows mapped before it are kept |
| Joins.ProbeRows | test/tests.server.js:525-543 | the join-row loop pushes each join-row's mapped bucket, or `{}` and the row for a right or full join, and leaves exactly the buckets no join-row took; when a join-row throws, what the earlier join-rows and that one's bucket pushed stays pushed |
| Joins.JoinShare | test/tests.server.js:525-543 | reference meaning of one join-row: a null key fails; the first join-row with a key gets every from-row of that key mapped against it, a later one with the same key or an unmatched one gets nothing, or `{}` and itself in a right or full join |
| Joins.JoinKeysTaken | test/tests.server.js:528-541 | a key is among the join-rows' keys exactly when some join-row has it |
| Joins.ProbeStepShare | test/tests.server.js:526-542 | one probe of the map left by earlier join-rows gives that join-row's share, fails exactly when it does, and deletes the row's key |
| Joins.ProbeShares | test/tests.server.js:525-543 | the join-row loop fails exactly when a join-row's share fails, pushes the shares in turn, and leaves the from-map minus every join-row key |
| Joins.HashJoinByJoinRows | test/tests.server.js:513-553 | for all inputs, the hash join equals the join-rows' shares in turn, followed in a left or full join by the from-rows whose key no join-row has, each with `{}` |
| Joins.InnerHashJoin | test/tests.server.js:513-553 | an inner or right hash join pushes exactly the join-rows' shares |
| Joins.LeftoversAppend | test/tests.server.js:547-550 | the leftovers of two row sequences are the leftovers of each, concatenated |
| Joins.LeftoverBucket | test/tests.server.js:549-550 | one bucket pushes each of its rows followed by `{}` |
| Joins.LeftoverRows | test/tests.server.js:547-550 | the buckets never taken push their rows, bucket after bucket in key order, each followed by `{}` |
| Joins.HashJoin | test/tests.server.js:513-553 | the from-rows are bucketed, each join-row takes its bucket out, and for `left` and `full` the remaining rows are pushed at the end; the rows pushed are `HashPushed`: nothing when a from-key is `null`, otherwise what the probe loop pushed up to a throw |
| Joins.RowPushedOk | test/tests.server.js:481-496 | an inner loop that does not throw has pushed its whole result |
| Joins.RowPushedFail | test/tests.server.js:481-496 | once the inner loop has thrown, later join-rows push nothing more |
| Joins.RowPushedStops | test/tests.server.js:481-496 | when join-row `jix` is the first to throw, the inner loop has pushed exactly the rows for the join-rows before it |
| Joins.PairPushedFail | test/tests.server.js:480-496 | once the pair loop has thrown, later from-rows push nothing more |
| Joins.PairPushedStops | test/tests.server.js:480-496 | when from-row `fix` is the first to throw, the pair loop has pushed the rows of the earlier from-rows followed by what its inner loop pushed before the throw |
| Joins.LeftPushedFail | test/tests.server.js:498-503 | once the left pass has thrown, later from-rows push nothing more |
| Joins.LeftPushedStops | test/tests.server.js:498-503 | when from-row `fix` is the first of the left pass to throw, the pass has pushed exactly the rows before it |
| Joins.RightPushedFail | test/tests.server.js:505-509 | once the right pass has thrown, later indices push nothing more |
| Joins.RightPushedStops | test/tests.server.js:505-509 | when index `fix` is the first of the right pass to throw, the pass has pushed exactly the rows before it |
| Joins.BucketPushedFail | test/tests.server.js:532-536 | once the mapper has thrown on a bucket row, the later rows of the bucket push nothing more |
| Joins.BucketPushedStops | test/tests.server.js:532-536 | when row `i` of a bucket is the first the mapper throws on, the rows mapped before it are pushed |
| Joins.ProbePushedFail | test/tests.server.js:525-543 | once the join-row loop has thrown, later join-rows push nothing more |
| Joins.ProbePushedStops | test/tests.server.js:525-543 | when join-row `i` is the first to throw, the loop fails with that row's error and has pushed what the earlier join-rows pushed, followed by what that row pushed before its throw |
| Joins.RightHashJoinKeepsRowsBeforeThrow | test/tests.server.js:525-543 | in a right hash join with no from-rows, `{}` and the first join-row are pushed and stay pushed when the second join-row's `null` key throws |
| Joins.ExecutedPushedOk | test/tests.server.js:421-462 | a join that does not throw has pushed exactly its result, and a refused mapper pushes nothing |
| Joins.Joiner.constructor | test/tests.server.js:410-419 | the join type and the algorithm are read from the options, and the results start empty |
| Joins.Joiner.ExecuteLoopJoin | test/tests.server.js:464-511 | `results` becomes its old contents followed by what the loop join pushed, including the rows pushed before a throw; on success it is returned |
| Joins.Joiner.ExecuteHashJoin | test/tests.server.js:513-553 | `results` becomes its old contents followed by what the hash join pushed, including the rows pushed before a throw; a missing join selector falls back to the from selector |
| Joins.Joiner.Execute | test/tests.server.js:421-462 | the mapper is checked against the logic and wrapped, and `results` becomes its old contents followed by what the join the algorithm names pushed, up to a throw if it throws; a refused mapper or predicate pushes nothing |
| Sorts.ToPrimitive | test/tests.server.js:645-646 | `<` first turns an array or an object into its `toString` text, and leaves any other value as it is; the result is never an array or object |
| Sorts.DecimalValue | test/tests.server.js:645-646 | a text has a decimal value exactly when it is a non-empty run of digits, and the value is that of its digits |
| Sorts.StringToNumber | test/tests.server.js:645-646 | a whitespace-only string converts to 0, a run of digits to its value, and a sign followed by digits to the signed value |
| Sorts.ToNumber | test/tests.server.js:645-646 | `undefined`, arrays and objects are `NaN`, `null` and booleans are 0 or 1, and a number is itself |
| Sorts.NumberTextRoundTrip | test/tests.server.js:645-646 | a number's text converts back to that number |
| Sorts.JsLess | test/tests.server.js:645-646 | `undefined` is never on either side of a true `<`; on two numbers `<` is numeric order, and on two strings it is character order |
| Sorts.SingletonArrayComparesAsNumber | test/tests.server.js:645-646 | a one-number array compares with a number as that number does, as in `[5] < 6` |
| Sorts.JsLessIrreflexive | test/tests.server.js:644 | no value is `<` itself |
| Sorts.JsLessAsymmetric | test/tests.server.js:644-645 | when `a < b` holds, `b < a` does not |
| Sorts.UndefinedIncomparable | test/tests.server.js:644-645 | `undefined` is neither below nor above anything, so it never decides an index |
| Sorts.SameKindTrichotomy | test/tests.server.js:644-645 | two numbers, or two strings, neither `<` the other are equal |
| Sorts.SameKindTransitive | test/tests.server.js:644-645 | among numbers, or among strings, `<` is transitive |
| Sorts.OrderFrom | test/tests.server.js:635-648 | the verdict of the comparison loop is -1, 0 or 1 |
| Sorts.DecideOrder | test/tests.server.js:620-653 | the loop returns -1, 0 or 1, the verdict of the specification comparison over the two wrapped lists |
| Sorts.OrderFromFirstDifference | test/tests.server.js:635-648 | from index `k`, the first index that is not tied decides: -1 when the left value is `<` there, 1 otherwise |
| Sorts.DecidedAtFirstDifference | test/tests.server.js:620-653 | the first index up to the longer length where one value is `<` the other decides the verdict |
| Sorts.OrderFromZero | test/tests.server.js:635-650 | the loop from index `k` gives 0 exactly when every later index is tied |
| Sorts.ZeroIffAllTied | test/tests.server.js:620-653 | the verdict is 0 exactly when no index up to the longer length decides |
| Sorts.PrefixComparesEqual | test/tests.server.js:638-645 | a list and any extension of it compare equal, because the missing values are `undefined` |
| Sorts.OrderFromAntisymmetric | test/tests.server.js:644-645 | swapping the lists negates the loop's verdict from any index |
| Sorts.CompareAntisymmetric | test/tests.server.js:620-653 | swapping the arguments negates the verdict |
| Sorts.OrderFromTransitive | test/tests.server.js:635-648 | on lists of one length with values of one kind per index, "comes before" is transitive from any index |
| Sorts.CompareTransitive | test/tests.server.js:620-653 | on comparable values "comes before" is transitive |
| Sorts.Part | test/tests.server.js:591-601 | a part is no longer than the rows it is taken from |
| Sorts.PartMembers | test/tests.server.js:591-601 | every row of a part comes from the rows and went to the side its comparison with the pivot says |
| Sorts.PartsPermutation | test/tests.server.js:591-601 | the left and right parts together hold exactly the rows, with multiplicity |
| Sorts.QuickSorted | test/tests.server.js:582-609 | the sorted list is a permutation of its input |
| Sorts.QuickSort | test/tests.server.js:582-609 | returns the specification's sorted list; with at most one row it returns the input array itself, otherwise a new array, having popped the pivot off the input |
| Sorts.QuickSortedStep | test/tests.server.js:587-607 | sorting more than one row is sorting the left part, then the last row, then sorting the right part |
| Sorts.PartSnoc | test/tests.server.js:591-601 | one more row extends the part it belongs to by that row |
| Sorts.Partition | test/tests.server.js:588-601 | the loop pushes each row to the left array when it compares -1 against the pivot and to the right array otherwise, keeping their order |
| Sorts.BelowBeforePivot | test/tests.server.js:605-607 | a row of the left part may precede the pivot |
| Sorts.BelowBeforeAbove | test/tests.server.js:605-607 | a row of the left part may precede a row of the right part when their keys are comparable |
| Sorts.SortedAroundPivot | test/tests.server.js:605-607 | two sorted parts around the pivot concatenate into a sorted list |
| Sorts.SortedConcat | test/tests.server.js:605-607 | two sorted lists, each row of the second allowed after each of the first, concatenate into a sorted list |
| Sorts.QuickSortedSorted | test/tests.server.js:582-609 | when every selected list has the same length and each position holds only numbers or only strings, no later row of the result compares -1 against an earlier one |
| Sorts.PartUniform | test/tests.server.js:591-601 | each part of rows with uniform keys has uniform keys |
| Sorts.PivotSplit | test/tests.server.js:587-607 | around the last row, the sorted parts meet what concatenation around the pivot needs |
| Sorts.TiesAreSwapped | test/tests.server.js:587-601 | ties go right of the pivot, which is the last row, so two tied rows come out swapped and sorting is not stable |
| Sorts.MixedKindComparisons | test/tests.server.js:644-645 | `"10"` comes before `"9"` as strings, `9` and `"9"` tie, and `9` comes before `"10"` as numbers |
| Sorts.MixedKeysUnsorted | test/tests.server.js:582-609 | with keys of mixed kinds the result is not sorted: `["10", 9, "9"]` comes out `["10", "9", 9]`, whose last row comes before its first |
| General.SubsetSameSize | src/general.js:27-29 | a subset as large as its superset is the whole set |
| General.SetEqualsIsEquality | src/general.js:27-29 | `setEquals` (same size, every element of one in the other) holds exactly when the sets are equal |
| General.IsSubsetOfIsInclusion | src/general.js:2-9 | `isSubsetOf` (the intersection set-equals the subset) holds exactly when one set is included in the other |
| General.FlattenAppend | src/general.js:74-83 | flattening a concatenation flattens each part |
| General.FlattenOneLevel | src/general.js:77-81 | exactly one level goes: an array element is replaced by its elements, which are not flattened further, and any other element stays |
| General.FlattenNoArrays | src/general.js:74-83 | without nested arrays flattening changes nothing |
| General.FlattenArray | src/general.js:74-83 | the nested loops push each element, or each nested element of an array element, in order |
| General.PushEach | src/general.js:78-79 | the inner loop appends the nested elements in order |
| General.DropUndefined | src/general.js:117-125 | deleting the `undefined` properties never lengthens an object |
| General.DeleteAbsent | src/general.js:121 | deleting a key an object does not have changes nothing |
| General.DeleteAppend | src/general.js:121 | deleting a key from two property lists in a row deletes it from each |
| General.DropUndefinedSubset | src/general.js:117-125 | every property kept was a property before |
| General.GetPrefix | src/general.js:120 | a key absent from the first properties reads as in the rest |
| General.PlainObject.constructor | src/general.js:117 | an object is created with the given own properties |
| General.DropUndefinedSnoc | src/general.js:119-121 | one more property processed is kept exactly when its value is not `undefined` |
| General.DeleteOne | src/general.js:121 | deleting a key that occurs once removes exactly that property |
| General.NoUndefinedStep | src/general.js:119-121 | one turn of the loop reads the property's original value and deletes it exactly when it is `undefined` |
| General.NoUndefined | src/general.js:117-125 | deletes, in place, every own property whose value is `undefined` and returns the same object |
| General.DeleteIfUndefined | src/general.js:120-121 | one turn of the loop turns `i` processed properties into `i + 1` |
| General.GetDropUndefinedLast | src/general.js:120 | reading a key of a property list with one more property at the end |
| General.HasKeyAppend | src/general.js:119 | a key is in two property lists in a row exactly when it is in one of them |
| General.DropUndefinedReads | src/general.js:117-125 | after the deletions every key reads what it read before, and a key remains exactly when its value was not `undefined` |
| General.DropUndefinedNoneLeft | src/general.js:117-125 | after the deletions no property is `undefined` |
| General.DropUndefinedOfClean | src/general.js:117-125 | an object without `undefined` properties is left as it was |
| General.DropUndefinedIdempotent | src/general.js:117-125 | running `noUndefined` twice is the same as once |
| General.DropUndefinedKeepsDistinct | src/general.js:117-125 | the deletions never make a key occur twice |
| General.DropUndefinedOrder | src/general.js:117-125 | the properties kept stay in their original order |
| General.NoUndefinedValue | src/general.js:117-125 | `Object.keys` throws exactly on `undefined` and `null`. An object loses exactly its `undefined` properties. A primitive has no own keys and is returned as it was |
| General.Eq | src/general.js:128-155 | `undefined` and `null` are `eq` only to each other, two strings exactly when equal, and `eq` values otherwise have as many keys |
| General.EqReflexive | src/general.js:128-155 | `eq` is reflexive on values without empty objects or arrays, which compare by reference |
| General.EqFromReflexive | src/general.js:146-151 | the key loop of a value against itself succeeds from any position |
| General.EqIgnoresInsertionOrder | src/general.js:137-153 | values alike but for the insertion order of object properties, at any depth, are `eq`, provided the first is `eq` to itself |
| General.RearrangedOwnCount | src/general.js:137-141 | rearranged values have as many own keys |
| General.PropRearranged | src/general.js:148 | rearranged objects or arrays read alike under any key |
| General.EqFromRearranged | src/general.js:146-151 | the key loop succeeds from any position on rearranged values where it succeeds on the first against itself |
| General.EqNotSymmetric | src/general.js:146-151 | `eq` is not symmetric: it walks only the first argument's keys, so `{a: undefined}` is `eq` to `{b: 1}` but not the other way |
| General.Peekable.Prev | src/general.js:92-105 | `prev()` is the before-start step until a value was yielded, and afterwards the step of the last value yielded |
| General.Peekable.constructor | src/general.js:86-92 | the iterator starts at the first item, and `prev()` is the before-start step |
| General.Peekable.Peek | src/general.js:104 | the peeked step is done exactly at the end, and otherwise holds the next item |
| General.Peekable.Next | src/general.js:94-100 | yields the peeked value; at an item `prev()` becomes the step that was peeked and the position advances, and at the end nothing changes |
| Emulators.ColumnsOf | test/tests.server.js:691-694 | a bare emulator is treated as the object `{ x: emulator }` |
| Emulators.Processed | test/tests.server.js:712-713 | one entry per key, in key order, holding the key's processor applied to its gathered values |
| Emulators.GatherRow | test/tests.server.js:696-707 | one row's keys, in order: a key seen for the first time opens a store with that emulator's processor, and the row value is pushed onto the key's store |
| Emulators.RunEmulators | test/tests.server.js:679-720 | returns the object of aggregates, or its `x` entry when some row returned a bare emulator |
| Emulators.AddColumnValid | test/tests.server.js:700-706 | opening or extending a store keeps each key once in the key order, in step with the stores |
| Emulators.AddColumnsValid | test/tests.server.js:696-707 | the same for all of one row's keys |
| Emulators.GatherValid | test/tests.server.js:689-709 | after all rows each key appears once in the key order, and the order lists exactly the opened keys |
| Emulators.AddColumnsData | test/tests.server.js:696-707 | one row appends its values for key `k` to `k`'s store, and opens it exactly when the row has `k` |
| Emulators.GatherColumn | test/tests.server.js:689-709 | the store of key `k` holds exactly each row's value for `k`, in row order, and is open exactly when some row has `k` |
| Emulators.AddColumnsProcessor | test/tests.server.js:700-704 | an open store keeps its processor; a new one takes the processor of the row's first emulator with that key |
| Emulators.FirstInRowSnoc | test/tests.server.js:696 | the first emulator with a key among one more column |
| Emulators.FirstEmulatorSnoc | test/tests.server.js:689 | the first emulator with a key over one more row |
| Emulators.GatherProcessor | test/tests.server.js:700-704 | each key's processor is the one of the first emulator with that key, over all rows; later rows only contribute their values |
| Emulators.NakedAggregate | test/tests.server.js:691-717 | with bare emulators only, the result is the first emulator's processor applied to every row's value, in row order |
| Emulators.RowValues | test/tests.server.js:698 | one row value per row, in row order |
| Emulators.NakedColumn | test/tests.server.js:691-707 | with bare emulators only, column `x` is every row's value and its first emulator that of the first row |
| Emulators.OnlyX | test/tests.server.js:691-694 | with bare emulators only, `x` is the only key |
| JsArrays.JsArray.constructor | test/tests.server.js:589-590 | a new array holds the given elements |
| JsArrays.JsArray.Pop | test/tests.server.js:587 | removes and returns the last element; an empty array gives `undefined` and stays empty |
| JsArrays.JsArray.Push | test/tests.server.js:763-764 | appends one element |
| JsArrays.JsArray.RemoveAt | test/tests.server.js:747 | `splice(i, 1)` removes the element at `i`, and the later ones move down |
| JsArrays.JsArray.SetAt | test/tests.server.js:749 | assigning index `i` replaces that element and nothing else |
| Database.KeyNames | test/tests.server.js:1314-1318 | a name stands for itself alone, a list for its names, a function for its parameter names (and the parser's error when it is not a function) |
| Database.Dataset.constructor | test/tests.server.js:258-261 | a dataset holds the given name and rows |
| Database.FirstNamed | test/tests.server.js:1339-1346 | no index exactly when no dataset answers to the names; otherwise the first index that does |
| Database.GroupedRows | test/tests.server.js:1465-1472 | grouping fails, with the `null`-key error, exactly when some row's key cannot be signed |
| Database.BucketRows | test/tests.server.js:1470 | one row per bucket |
| Database.Database.constructor | test/tests.server.js:1300-1303 | a new registry holds no dataset |
| Database.Database.Locate | test/tests.server.js:1305-1310 | the position of the dataset `getDataset` returns, or its error, or the error of reading `.data` of the `undefined` it returns for no dataset |
| Database.Database.AddSource | test/tests.server.js:1332-1335 | registers one new dataset with the given name and rows at the end, keeping the others in order |
| Database.Database.RemoveSource | test/tests.server.js:1337-1352 | drops the first dataset with that name, if any, and keeps the others in order |
| Database.Database.Group | test/tests.server.js:1463-1476 | the dataset the selector's parameter names gets its rows replaced by their buckets; a failed lookup or a `null` key leaves every dataset as it was |
| Database.Database.Merge | test/tests.server.js:1522-1541 | both lookups happen first; the target dataset then gets `merger`'s result on its rows and the source's, and no other dataset changes; when `merger` throws, the target's rows keep the changes it made before the throw |
| Database.MergeInto | test/tests.server.js:1531-1537 | `merger` works on the target dataset's own rows: they hold its result, or, when it throws, the changes it made before the throw |
| Database.GroupData | test/tests.server.js:1467-1470 | building the buckets and reading them back gives the specification's grouped rows |
| Database.BucketsAsRows | test/tests.server.js:1470 | the buckets in key order, each as an array row |
| Database.NamedMembers | test/tests.server.js:1320-1322 | a dataset is found exactly when it is registered and one of the names is its own |
| Database.NamedAppend | test/tests.server.js:1320-1322 | the filter over two registries in a row is the filter over each |
| Database.NamedHead | test/tests.server.js:1305-1309 | something is found exactly when some dataset answers, and the first found is the first registered that answers |
| Database.NamedNone | test/tests.server.js:1320-1322 | when no dataset answers, nothing is found |
| Database.NamedTwo | test/tests.server.js:1307 | two datasets answering to the names make at least two found |
| Database.NamedMany | test/tests.server.js:1307 | at least two found means two datasets answer to the names |
| Database.GetDatasetsFinds | test/tests.server.js:1312-1330 | `getDatasets` finds exactly the registered datasets answering to one of the key's names, and with the flag fails exactly when their number differs from the number of names |
| Database.GetDatasetFinds | test/tests.server.js:1305-1310 | `getDataset` fails as ambiguous exactly when two datasets answer, returns `undefined` exactly when none does, and otherwise returns the only one that does |
| Database.AddedSourceFound | test/tests.server.js:1332-1335 | a source registered under a fresh name is exactly what looking that name up finds |
| Database.RemovedSourceCount | test/tests.server.js:1337-1352 | removing a source makes one fewer dataset answer to its name |
| Database.BucketRowsSnoc | test/tests.server.js:1470 | one more key appends its bucket as one more row |
| Database.BucketRowsFlatten | test/tests.server.js:1470 | flattening the bucket rows one level gives the buckets' items, in key order |
| Database.GroupedRowsPermute | test/tests.server.js:1463-1476 | grouping loses and invents no row: flattening the buckets one level gives back a permutation of the rows |
| Database.CallNested | test/tests.server.js:286-308 | `null` and `undefined` throw; a value whose element 0 is not an array gets the operation itself; a nested value gives one result per element |
| Database.CallEach | test/tests.server.js:299-305 | the loop over the elements gives an array with one result per element |
| Database.CallNestedShape | test/tests.server.js:299-306 | on a value whose element 0 is an array, `callNested` returns an array with one result per element, each the call on that element |
| Database.CallNestedIdentity | test/tests.server.js:286-308 | passing the identity operation through `callNested` changes nothing |
| Database.PropOfFirst | test/tests.server.js:295 | element 0 is an array exactly when the array is non-empty and its first element is one |
| Datasets.Elements | src/dataset.js:21 | `for ... of` visits an array's items or a string's characters, and throws on anything without an iterator |
| Datasets.MapRows | src/dataset.js:20-23 | fails exactly when `func` returns `undefined` or `null` for some row; otherwise one result per row, each `func(row)` without its `undefined` properties |
| Datasets.FilterRows | src/dataset.js:29-33 | every row kept satisfies the predicate |
| Datasets.FilterCounts | src/dataset.js:29-33 | a row occurs among the kept rows as often as in the input when the predicate holds for it, and not at all otherwise |
| Datasets.UngroupRows | src/dataset.js:73-77 | fails exactly when some item has no iterator |
| Datasets.AggregateFields | src/dataset.js:95-97 | with distinct reducer names the aggregate's keys are those names, in order |
| Datasets.Names | src/dataset.js:95 | one name per reducer, in order |
| Datasets.Aggregate | src/dataset.js:88-98 | fails exactly for an object with no reducer and no call, which is neither naked nor named |
| Datasets.Representatives | src/dataset.js:125-127 | one row per bucket |
| Datasets.DistinctRows | src/dataset.js:121-127 | fails exactly when some row's key cannot be signed |
| Datasets.RecurseEach | src/dataset.js:193-196 | the outer array keeps its length, each entry is what recursing into that item gives, and it fails exactly when one of those does |
| Datasets.ToArrayEach | src/dataset.js:208-215 | the list above level 1 holds one entry per item, each what materialising that item one level lower gives, and fails exactly when one of those does |
| Datasets.MapRowsPrefixFails | src/dataset.js:209-214 | once a prefix of the items fails, the whole list fails with the same error |
| Datasets.ToArrayEachPrefixFails | src/dataset.js:209-214 | the same above level 1 |
| Datasets.RecurseToArray | src/dataset.js:203-217 | `recurseToArray` gives `func([data])[0]` at level 0, the entries one level lower above level 1, and `noUndefined(func(item))` at level 1 |
| Datasets.NestedLevel | src/dataset.js:211-212 | above level 1 each item is materialised one level lower |
| Datasets.BaseLevel | src/dataset.js:213 | at level 1 each item goes through `func` and `noUndefined` |
| Datasets.PushNested | src/dataset.js:208-215 | the loop above level 1 pushes one materialised entry per item, in order |
| Datasets.PushBase | src/dataset.js:208-215 | the loop at level 1 pushes `noUndefined(func(item))` per item, in order |
| Datasets.Dataset.constructor | src/dataset.js:10-13 | a dataset holds the given data and group level, which is not a generator |
| Datasets.Dataset.Run | src/dataset.js:24 | the data becomes what `recurse` makes of it at the current level, a generator at every level, and nothing changes when the step throws |
| Datasets.Dataset.Map | src/dataset.js:19-26 | the data becomes `noUndefined(func(row))` for each base row, at the same level |
| Datasets.Dataset.Filter | src/dataset.js:28-36 | the data keeps the base rows the predicate holds for, at the same level |
| Datasets.Dataset.Sort | src/dataset.js:38-44 | each base sequence is sorted with `quickSort`, at the same level |
| Datasets.Dataset.Group | src/dataset.js:46-54 | each base sequence becomes its buckets, which are arrays beneath generators, and the level goes up by one |
| Datasets.AfterUngroup | src/dataset.js:56-84 | ungrouping goes one level up; at level 1 the only item becomes the data, and a second item throws with the first already stored; any other failure leaves the state unchanged |
| Datasets.AfterMerge | src/dataset.js:134-150 | a failure leaves the state unchanged; on success the level is kept and the data is a generator at every level. The incoming value goes to each base merge as it is, so whether it can be iterated matters only there |
| Datasets.Dataset.Ungroup | src/dataset.js:56-84 | at level 1 the single item becomes the data, and a second item throws; above it the groups are concatenated one level up |
| Datasets.Dataset.Reduce | src/dataset.js:86-108 | each base sequence becomes a one-element array holding its aggregate, then the data is ungrouped unless asked not to; every reducer is handed the whole base sequence |
| Datasets.Dataset.Distinct | src/dataset.js:110-132 | each base sequence keeps one row per key signature |
| Datasets.Dataset.Merge | src/dataset.js:134-150 | each base sequence becomes what `merge` yields for it and the incoming value as it is: iterated when it is an array or a string, read by `for...in` in a loop merge otherwise. The base sequence is handed over as a generator once an earlier method has run through `recurse`; `'='` stands for `eq` |
| Datasets.Dataset.MergeDataset | src/dataset.js:141 | an incoming dataset contributes its data, as a generator when its own data is one |
| Datasets.IncomingInput | src/dataset.js:139-145 | the incoming value is handed over unchanged: it is iterated exactly when it is an array or a string, and then to its elements |
| Datasets.IncomingVisitsProperties | src/mergeTools.js:128-129 | `for...in` over the incoming value reads one value per own key, in key order, and reads nothing of a generator |
| Datasets.LoopMergeReadsProperties | src/dataset.js:139-147 | at level 1, a loop merge with an incoming value without an iterator gives what a merge with the array of its property values gives |
| Datasets.HashMergeNeedsIterator | src/dataset.js:139-147 | at level 1, a hash merge with an incoming value without an iterator fails |
| Datasets.NoGroupsMergeAnything | src/dataset.js:147 | above level 1 with no groups, a merge with any incoming value succeeds and the data stays empty |
| Datasets.MergeUndefinedKeepsRows | src/dataset.js:134-148 | `merge(undefined, '=', 'both both')` on a level-1 dataset of records keeps the records as they were |
| Datasets.NothingVisitedKeepsRows | src/mergeTools.js:117-144 | with a matcher the parser cannot decompose and `'both both'`, records that meet a side with nothing to visit are kept unchanged |
| Datasets.Dataset.MergeRows | src/dataset.js:134-150 | the merge of each base sequence with the incoming value, an array, a generator's rows or a value without an iterator, stored at the same level; nothing changes when it throws |
| Datasets.Dataset.Get | src/dataset.js:166-179 | data without an iterator goes through `func`, when given, and is returned; otherwise it is materialised by `recurseToArray` into arrays, stored and returned |
| Datasets.RecurseNests | src/dataset.js:188-201 | a result of `recurse` is nested as its level says, plus the nesting of the rows its step produces |
| Datasets.StepNests | src/dataset.js:199 | at the base the result is the array of the step's rows |
| Datasets.GroupRowsNested | src/dataset.js:47-50 | grouping makes every row a bucket array |
| Datasets.BucketRowsArrays | src/dataset.js:50 | bucket row `i` is the array of the `i`-th key's bucket |
| Datasets.LiftKeepsLevel | src/dataset.js:24 | `map`, `filter`, `sort`, `distinct` and `merge` keep the group level and leave the data nested as that level says |
| Datasets.GroupAddsLevel | src/dataset.js:51-52 | `group` adds exactly one level and one level of nesting |
| Datasets.UngroupDropsLevel | src/dataset.js:56-84 | `ungroup` takes exactly one level away, and the data is nested as the new level says |
| Datasets.UngroupToZeroRule | src/dataset.js:61-71 | ungrouping to level 0 succeeds exactly when the data has at most one item, which becomes the data; at the second item it throws with the first already stored |
| Datasets.FilterAppend | src/dataset.js:29-33 | filtering distributes over concatenation, so the kept rows stay in input order |
| Datasets.FilterOne | src/dataset.js:31-32 | a single row is kept exactly when the predicate holds for it |
| Datasets.UngroupIdentityFlattens | src/dataset.js:73-77 | ungrouping with the identity removes one level of arrays, keeping order |
| Datasets.UngroupFlattens | src/dataset.js:73-82 | at level 2 `ungroup()` concatenates the groups, at level 1 |
| Datasets.GroupThenUngroup | src/dataset.js:46-84 | grouping records and ungrouping them again loses and invents no record |
| Datasets.SortLevelOne | src/dataset.js:38-44 | at level 1 `sort` gives a permutation of the records, non-decreasing under `decideOrder` when the selected keys are comparable |
| Datasets.AddAllHeads | src/dataset.js:121-127 | adding rows to a bucket map adds, after the heads it had, exactly the rows whose key was new |
| Datasets.DistinctKeepsFirst | src/dataset.js:110-132 | without a sorter, `distinct` keeps the first row of each key signature, in order of first appearance |
| Datasets.AggregateFieldReads | src/dataset.js:95-97 | each named reducer's result is stored under its name |
| Datasets.ReduceLevelOne | src/dataset.js:86-108 | at level 1, `reduce` with the default ungroup leaves the one aggregate as the data, at level 0 |
| Datasets.ReduceLevelTwo | src/dataset.js:86-108 | at level 2, `reduce` with the default ungroup gives one aggregate row per group, in group order, at level 1 |
| Datasets.SinglesFlatten | src/dataset.js:98 | flattening one-element arrays gives back their elements |
| Datasets.NoUndefinedValueIdempotent | src/dataset.js:213 | `noUndefined` applied twice is applied once |
| Datasets.MapRowsIdentityFixed | src/dataset.js:213 | base entries that went through `noUndefined` go through it unchanged again |
| Datasets.SameEntries | src/dataset.js:209-214 | a list each of whose entries `noUndefined` leaves alone is given back |
| Datasets.ToArrayFixed | src/dataset.js:203-217 | materialising data that `recurseToArray` already produced gives it back |
| Datasets.GetTwice | src/dataset.js:166-179 | `get()` twice returns the same data the second time and changes nothing more |
| Datasets.ChainedLoopMergeSeesNoRows | src/dataset.js:134-147 | once the base sequence is a generator, a loop merge with keyword options sees none of its rows and yields only `mapper(undefined, r)` for each incoming row |
| Datasets.BothNullOnGeneratedIsEmpty | src/dataset.js:134-147 | a `'both null'` merge on rows that are already a generator, one level deep, yields nothing |
| Datasets.MapThenMergeIsEmpty | src/dataset.js:19-26 | `map` followed by `merge(incoming, '=', 'both null')` yields nothing at all, whatever the rows |
| Deferables.Deferable.constructor | src/deferable.js:5-11 | holds the initial value with no steps, pending, and no condition, conversion or handler |
| Deferables.Deferable.Then | src/deferable.js:13-16 | queues the step at the end and returns the same object, changing nothing else |
| Deferables.Deferable.Catch | src/deferable.js:19-22 | records the handler, returns the same object and changes nothing else |
| Deferables.Deferable.Catcher | src/deferable.js:25-30 | the status becomes rejected; without a handler the error is rethrown and the value kept, with one the handler's result, plain or a promise, becomes the value |
| Deferables.Deferable.Execute | src/deferable.js:32-64 | queues the final step, if any, then ends in the value, status and result of the specification run of the whole queue, where steps may return promises |
| Deferables.RunAll | src/deferable.js:39-50 | the loop over the queue stops at the first synchronous throw, and a throw only ever comes from a pass over a plain value |
| Deferables.Deferable.RunPass | src/deferable.js:39-50 | one pass of the loop converts a plain value when the condition holds, then chains a promise, or calls the step on a plain value and keeps what it returns, a promise included |
| Deferables.RunAllPrefixThrows | src/deferable.js:39-50 | once a prefix of the queue throws, the rest of the queue does not run |
| Deferables.RunAllAppend | src/deferable.js:39-50 | the steps run in queue order: running `a + b` is running `a`, then `b` from where `a` left the value, unless `a` threw |
| Deferables.AsyncStaysAsync | src/deferable.js:42-48 | once a promise, always a promise: every later step is chained, none throws, and the value never becomes plain again |
| Deferables.OnceAsyncAlwaysAsync | src/deferable.js:42-48 | a queue whose run becomes a promise part way ends as a promise, without a throw |
| Deferables.AsyncMirrorsSync | src/deferable.js:45-48 | without a handler and with a condition that never holds, a promise of `v` settles to what the synchronous run on `v` ends in: its plain result, the settlement of a promise a step returned, or a rejection with what it threw |
| Deferables.RejectionRecovered | src/deferable.js:46 | with a handler, a rejection is recovered at the next step, and the handler's result, or what its promise settles to, is what the remaining steps see |
| Deferables.SyncRunComposes | src/deferable.js:39-50 | with a condition that never holds and steps that never return a promise, a plain value stays plain and the loop computes the composition of the steps, throwing exactly when the composition does |
| Deferables.SyncPipelineResolves | src/deferable.js:32-58 | with steps that never return a promise, a plain value whose composed steps succeed ends resolved with their result, which is returned |
| Deferables.PromiseStepPromisifies | src/deferable.js:45-54 | a step that returns a promise turns a plain pipeline asynchronous: the value is that promise, and `execute` ends promisified without a throw whatever follows |
| Deferables.MissingConditionThrows | src/deferable.js:42 | a plain value with no condition set throws at the first step, since the condition is called before every step on a plain value |

## Left out

- Laziness is not modelled: `recurse`, `merge`, `loopMerge`, `hashMerge`, `wrapper` and `peekable`'s source are evaluated at the call, so an error surfaces at the call rather than when iteration reaches it. A generator is modelled by the rows it yields together with the dataset's record of which levels are generators, which is what `loopMerge`'s `for...in` depends on.
- Datasets.Dataset.Reduce: every named reducer is handed the rows of its base sequence. In the source, once an earlier method has left that sequence a generator, the reducers share it, and the first one that iterates it leaves it exhausted for the rest. Reducers are opaque functions, so how far each one iterates is not modelled.
- Datasets.Dataset.MergeDataset: an incoming dataset whose data is a generator is read once in the source. A hash merge consumes it, so above level 1 only the first base sequence meets its rows, and the other dataset is left holding an exhausted generator. In the model every base sequence meets the incoming rows and the other dataset is unchanged.
- Datasets.Dataset.Sort: the sort is handed the rows of each base sequence. The bundled `quickSort` (test/tests.server.js:582-608) calls `pop` on its input and would throw on a generator, that is after any earlier method run through `recurse`. src/sorts.js, which `dataset` imports, is not part of this model, so the model sorts in both cases.
- The level-0 branch of `recurse` yields nothing in the model: its result is a generator return value that iteration discards. Level 0 is modelled through `recurseToArray`.
- src/sorts.js, src/hashBuckets.js and src/parser.js are not part of this model. The copies bundled in test/tests.server.js stand for them; in particular `quickSort` ignores its third argument and the distinct flag passed to `hashBuckets` has no effect.
- Datasets.Dataset.Distinct: with a sorter, only "the first row of each bucket after `quickSort`" is modelled, because the sorter of src/sorts.js is not part of this model.
- Matcher strings other than `'='` passed to `dataset.merge` are not modelled; a matcher is `'='` or a function.
- Iterables other than arrays and strings (`Map`, `Set`) are not values of the model. Arrays and strings are iterated. Any other value makes `for...of` throw: that is, `addItems` in a hash merge. A loop merge's `for...in` reads an object's property values and nothing of a primitive. A generator appears only as a dataset's data, by the rows it yields.
- General.NoUndefinedValue: on an array the source `delete`s each `undefined` element. That leaves a hole, which `Object.keys` and `for...in` skip. Values in the model have no holes, so the array comes back unchanged, with its `undefined` elements still in place.
- User selectors, mappers, matchers, reducers, handlers and steps are total functions; a user function that throws is modelled only where the source catches the throw (deferable steps).
- A promise is modelled by the result it settles to; the timing of `.then` callbacks and unhandled rejections are not modelled.
- `dataset.matrix` (floating-point matrices), `toJsonString` (JSON serialisation), `with` and the iterator of `dataset` are not modelled.
- The `database` operations other than `getDataset(s)`, `addSource`, `removeSource`, `group` and `merge` (`join`, `filter`, `map`, `sort`, `reduce`, `print`, `addSources`, `makeDsGetter`) are not modelled.
- Merger.Merge: a key selector that itself throws is not modelled, since selectors are total functions; the one throw the engine raises, on a `null` key, keeps the changes already made.
- Several references to one dataset in the `database` registry are modelled by index into the registry's sequence, not by object identity.
- `runEmulators` is modelled for column gathering only; own-property questions and prototype keys of the emulator objects are not modelled.
- JavaScript lists integer-like object keys before the others; the model keeps every key in insertion order.
- Numbers are integers: no floating point, `NaN` or `Infinity`. The numeric reducers (`avg`, `mad`, `cor`) and `studentsTcdf`/`studentsTfromCor` are floating point and are not modelled.
- Code generation with `new Function` in `parser` is not modelled; the clause text it would compile is given to an evaluator parameter, and comment stripping by regular expression is not modelled.
- A hash join or merge whose options lack a hasher is modelled as a selector that returns `null`, which fails at the first row as the source's TypeError does.
- Strings are sequences of Unicode scalar values, not of UTF-16 code units. Text.StrLess, and through it Sorts.JsLess and Signatures.SortStrings, orders strings character by character. That agrees with JavaScript's code-unit order only within the Basic Multilingual Plane: JavaScript puts U+1F600 (two surrogate code units starting at U+D83D) before U+FFFF, and the model puts it after.
- Sorts.StringToNumber: only an optionally signed run of decimal digits, padded with whitespace, is converted. JavaScript's `ToNumber` also accepts exponents (`"1e3"`), hexadecimal, octal and binary literals (`"0x10"`, `"0o7"`, `"0b11"`), decimal points (`"5.0"`, `"5."`, `".5"`) and `"Infinity"`; the model gives `NaN` (`None`) for all of them. Numbers are integers in the model, so most of these have no value to convert to.
- General.LooseEqualKeyless: two values that are each an array or an object are never `==`. In JavaScript `==` is true when both sides are the same object; values carry no identity in the model, so such a comparison is always false.
- Text.IsSpace covers only the ASCII and Latin-1 whitespace and the byte-order mark, and Text.ToLower only ASCII letters, not the whole of Unicode.
- Comparator `sort` through `Array.prototype.sort` is a foreign call and is not modelled.
- The older `deferable` at test/tests.server.js:193-242 is not modelled; src/deferable.js is.
- Pager, CSS and HTML rendering, IndexedDB getters and connectors, `FluentDB` orchestration and the test runner are I/O or presentation, not engine logic.
- `isPromise`, `PromiseAllObjectEntries` and `isIterable` are promise and `Symbol.iterator` plumbing and are not modelled.
