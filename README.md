# yamlsort core, modelled in Dafny

yamlsort reads YAML or JSON documents and writes them back as YAML with map
keys in a fixed order (priority keys first, then by the comparator). It can also deep-merge an "override" document into
the input before writing. This project models the part of
`src/yamlsort/yamlsort.go` that does that work on an already decoded
document tree:

- **Key order** (`KeyOrder`). `priorIndex` gives a key's position in the
  priority list. `convertStringToUint64Slice` turns a key into tokens: a
  digit run becomes its integer value and any other character becomes its
  code plus 2^60. `compairString` compares keys by priority first, then by
  tokens, and falls back to plain string order when a key does not
  tokenise. `sort.Slice` over the map's keys is modelled by an insertion
  sort with that comparator. They are `KeyOrder.PriorIndex`,
  `KeyOrder.ConvertStringToUint64Slice` (specified by `KeyOrder.Tokenize`),
  `KeyOrder.Less` and `KeyOrder.SortKeys` / `KeyOrder.SortedKeys`.
- **Scalar quoting** (`Escape`). `escapeString` leaves a string bare,
  wraps it in single quotes (doubling any `'`), or wraps it in double
  quotes with backslash escapes. It is `Escape.EscapeString`.
- **Paths and filters** (`PathFilter`). `calcPathMap`, `calcPathSlice` and
  `calcPathSliceMap` build the paths `a.b`, `a[3]` and `a[name=x]`.
  `checkSkipKey` and `checkSelectKey` decide which subtrees are written.
  They are `PathFilter.CalcPathMap`, `PathFilter.CalcPathSlice`,
  `PathFilter.CalcPathSliceMap`, `PathFilter.CheckSkipKey` and
  `PathFilter.CheckSelectKey`.
- **The emitter** (`Emitter`). `indentstr`, `myMershalRecursive` and
  `myMarshal` write the tree as indented YAML text into a buffer. They are
  `Emitter.Indentstr`, `Emitter.MarshalRecursive` (with its key and element
  loops) and `Emitter.MyMarshal`.
- **The override merge** (`Override`). `myOverrideRecursive` and
  `myOverride` merge maps key by key and merge sequences by the `name` of
  their map elements. They are `Override.OverrideRecursive` (with
  `Override.OverrideKeys`, `Override.OverrideItems` and
  `Override.OverrideNamed`) and `Override.MyOverride`.

`Document` holds the tree type and the command's options, and `Decimal`
holds the decimal text of integers (`strconv.Itoa`, `strconv.ParseInt`).
`Wrappers` is an `Option` type.

The document tree is the datatype `Document.Value`. Its cases are null,
string, int, float (carried as its printed text), bool, a verbatim macro
string, a map, a sequence, and `Other` for any dynamic type the Go code
does not recognise, so the "unknown type" error paths exist in the model.
The fields of the command object and the global priority list become the
explicit `Options` value.

The Go functions that loop and update state are methods proved against
specification functions:
- `indentstr` and `convertStringToUint64Slice`;
- the emitter, which appends to a `Buffer` object;
- the override merge's key and element loops.

`Emitter.Marshal` states what the emitter writes, and `Override.Merge`
states what the merge returns. The lemmas state the source's promises
about those functions.

## Model

| member | source | states |
|---|---|---|
| Emitter.NamedElementSkipped | src/yamlsort/yamlsort.go:611-626 | with the single skip entry "[name=n]" under a sequence's path and no select entries, an element writes nothing exactly when it is a map whose "name" entry is the string n; every other element still writes its dash |
| Emitter.EffectivePriorHeadFirst | src/yamlsort/yamlsort.go:146-152 | the priority list is the keys given, or ["name"] when none are; its first key, when a map has it, is that map's first key in the sorted order, so "name" comes first by default |
| Decimal.NatToDecimalRoundTrip | src/yamlsort/yamlsort.go:485-490 | the decimal digits written for a number read back as that number |
| Decimal.IntToDecimalInjective | src/yamlsort/yamlsort.go:485-490 | two integers with the same decimal text are equal, so index paths of different elements differ |
| Decimal.SignShows | src/yamlsort/yamlsort.go:641-643 | an integer's text starts with '-' exactly when it is negative |
| Decimal.IntToDecimalChars | src/yamlsort/yamlsort.go:641-643 | an integer's text is non-empty and made of digits, with at most a leading '-' |
| KeyOrder.PriorIndex | src/yamlsort/yamlsort.go:334-341 | a listed key gets the position of its first occurrence; any other key gets 999999 |
| KeyOrder.ConvertStringToUint64Slice | src/yamlsort/yamlsort.go:344-373 | the rune loop succeeds exactly when the key tokenises, and then returns exactly the key's tokens |
| KeyOrder.OverflowFails | src/yamlsort/yamlsort.go:351-356 | a digit run that ParseInt rejects makes the whole conversion fail |
| KeyOrder.TokensFitUint64 | src/yamlsort/yamlsort.go:344-373 | every token of a tokenised key fits in a uint64 |
| KeyOrder.TokenizeAppend | src/yamlsort/yamlsort.go:344-373 | when the first part does not end in a digit, the tokens of a concatenation are the tokens of the parts, one after the other |
| KeyOrder.LeadingZerosIgnored | src/yamlsort/yamlsort.go:344-373 | a leading zero changes neither the tokens nor the order: "0"+d and d are equivalent keys |
| KeyOrder.LessIrreflexive | src/yamlsort/yamlsort.go:376-399 | no key is less than itself |
| KeyOrder.LessAsymmetric | src/yamlsort/yamlsort.go:376-399 | of compairString(a, b) and compairString(b, a), at most one holds |
| KeyOrder.PriorityKeysFirst | src/yamlsort/yamlsort.go:376-383 | a listed key sorts before every unlisted key, and listed keys sort by their position in the list |
| KeyOrder.LessTransitive | src/yamlsort/yamlsort.go:376-399 | on keys that tokenise, the comparator is transitive |
| KeyOrder.LessEquivalence | src/yamlsort/yamlsort.go:376-399 | two tokenising keys are incomparable exactly when they have the same priority and the same tokens |
| KeyOrder.StrTotal | src/yamlsort/yamlsort.go:385-389 | the fallback string order relates every two different strings |
| KeyOrder.NumberedKeys | src/yamlsort/yamlsort.go:391-398 | keys that differ only in a trailing number compare as those numbers compare |
| KeyOrder.ProperPrefixFirst | src/yamlsort/yamlsort.go:391-398 | a key whose tokens are a proper prefix of another key's tokens sorts first |
| KeyOrder.DigitsBeforeCharacters | src/yamlsort/yamlsort.go:344-399 | after a common beginning, a digit run below 2^60 sorts before any non-digit character |
| KeyOrder.NumberedItemsExample | src/yamlsort/yamlsort.go:376-399 | "item2" sorts before "item10" |
| KeyOrder.PrefixExample | src/yamlsort/yamlsort.go:391-398 | "a" sorts before "a1" |
| KeyOrder.LeadingZeroExample | src/yamlsort/yamlsort.go:344-373 | neither of "01" and "1" is less than the other |
| KeyOrder.LeastComesFirst | src/yamlsort/yamlsort.go:554-557 | a key that the comparator puts before every other key of the list is the first key of the sorted list |
| KeyOrder.PriorHeadFirst | src/yamlsort/yamlsort.go:554-557 | the first key of the priority list, when the map has it, is the first key visited |
| KeyOrder.LetterKeysExample | src/yamlsort/yamlsort.go:554-557 | a map whose keys are a, b and c has them visited in the order a, b, c |
| KeyOrder.SortedKeysPermutation | src/yamlsort/yamlsort.go:550-558 | the sorted key list holds every key of the map exactly once |
| KeyOrder.SortedKeysSorted | src/yamlsort/yamlsort.go:555-558 | when every key tokenises, no key of the list is less than a key before it |
| Escape.EscapeString | src/yamlsort/yamlsort.go:401-476 | a value no trigger applies to comes back unchanged; a quoted one is at least two characters longer |
| Escape.UnchangedIffNoTrigger | src/yamlsort/yamlsort.go:401-459 | the value comes back unchanged exactly when no trigger applies; otherwise it starts with '"' when a control-character trigger applies and with '\'' when not |
| Escape.BoolLikeQuoted | src/yamlsort/yamlsort.go:410-416 | a value equal to true/false/yes/no/on/off up to case becomes 'value' |
| Escape.LeadingDigitQuoted | src/yamlsort/yamlsort.go:418-424 | a value starting with a digit, without control characters or quotes, becomes 'value' |
| Escape.SingleQuotedPlain | src/yamlsort/yamlsort.go:472-474 | a triggered value without control characters or a single quote is wrapped in single quotes as it is |
| Escape.DoubleQuotedForm | src/yamlsort/yamlsort.go:461-470 | a value with a tab, newline or carriage return becomes '"', its per-character escape, '"' |
| Escape.EscapeDoubleIsPerChar | src/yamlsort/yamlsort.go:463-468 | the five replacements, in their order, escape each character on its own: backslash, quote, tab, newline and return become two-character escapes |
| Escape.ReplaceAppend | src/yamlsort/yamlsort.go:464-468 | replacing a character in a concatenation is replacing it in each part |
| Escape.EscapeOneLine | src/yamlsort/yamlsort.go:401-476 | the written scalar never contains a raw newline, carriage return or tab |
| Escape.UnescapeRoundTrip | src/yamlsort/yamlsort.go:461-470 | undoing the backslash escapes gives back the original value |
| Escape.UnsingleRoundTrip | src/yamlsort/yamlsort.go:474 | undoing the doubled single quotes gives back the original value |
| Escape.EscapeRoundTrip | src/yamlsort/yamlsort.go:401-476 | the double- and single-quoted forms read back, with their escaping undone, to the original value, whatever the force-quote flag; bare output is read verbatim (see Left out) |
| Escape.PlainExample | src/yamlsort/yamlsort.go:457-459 | "hello" is written bare |
| Escape.ForcedExample | src/yamlsort/yamlsort.go:405-407 | with the force-quote flag, "hello" becomes 'hello' |
| Escape.EmptyExample | src/yamlsort/yamlsort.go:453-455 | the empty string becomes '' |
| Escape.SingleQuoteExample | src/yamlsort/yamlsort.go:427-429 | "it's" becomes 'it''s' |
| Escape.DoubleQuoteExample | src/yamlsort/yamlsort.go:432-435 | "a", newline, "b" becomes "a\nb" in double quotes |
| PathFilter.ChildExtendsParent | src/yamlsort/yamlsort.go:478-497 | every child path starts with its parent's path |
| PathFilter.MapPathInjective | src/yamlsort/yamlsort.go:478-483 | different keys under one path give different paths |
| PathFilter.SlicePathInjective | src/yamlsort/yamlsort.go:485-490 | different indexes under one path give different paths |
| PathFilter.SkipKeyMeaning | src/yamlsort/yamlsort.go:499-508 | a path is skipped exactly when some non-empty skip entry equals it |
| PathFilter.SkipIsMembership | src/yamlsort/yamlsort.go:499-508 | a path is skipped exactly when it is non-empty and in the skip list |
| PathFilter.SelectMeaning | src/yamlsort/yamlsort.go:516-529 | the scan finds a match exactly when some non-empty entry is a prefix of the path or the path is a prefix of it |
| PathFilter.SelectKeyMeaning | src/yamlsort/yamlsort.go:510-532 | a path is selected exactly when the select list is empty or some non-empty entry is a prefix of the path or has the path as a prefix |
| PathFilter.SelectedSubtree | src/yamlsort/yamlsort.go:525-528 | every path below a selected entry, the entry included, is selected |
| PathFilter.AncestorsSelected | src/yamlsort/yamlsort.go:520-524 | every path on the way down to a selected entry is selected |
| PathFilter.SkipExample | src/yamlsort/yamlsort.go:499-508 | "spec.replicas" skips itself but not "spec", and an empty entry skips nothing |
| PathFilter.SelectExample | src/yamlsort/yamlsort.go:510-532 | "spec.template" selects "spec", itself, what lies below it and "spec.templateX", but not "spec.replicas" or "metadata" |
| Emitter.Spaces | src/yamlsort/yamlsort.go:656-662 | the indentation for a level is that many spaces, none for a level below one |
| Emitter.Indentstr | src/yamlsort/yamlsort.go:656-662 | the loop builds exactly the indentation for the level |
| Emitter.MarshalRecursive | src/yamlsort/yamlsort.go:534-654 | the walk appends exactly the text of the tree to the buffer and returns exactly its error |
| Emitter.MarshalKeys | src/yamlsort/yamlsort.go:561-598 | the key loop appends the entries in list order and stops at the first error |
| Emitter.MarshalKey | src/yamlsort/yamlsort.go:562-597 | one pass of the key loop appends nothing for a filtered key, else its head and its value |
| Emitter.MarshalElements | src/yamlsort/yamlsort.go:606-634 | the element loop appends the elements in order and stops at the first error |
| Emitter.MarshalElement | src/yamlsort/yamlsort.go:607-633 | one pass of the element loop appends nothing for a filtered element, else its dash and its text |
| Emitter.MyMarshal | src/yamlsort/yamlsort.go:326-331 | the bytes and the error are those of the walk from level 0 at the root path |
| Emitter.ErrorMeansUnknown | src/yamlsort/yamlsort.go:649-652 | the walk fails only on a tree holding an unknown kind, and without filters always on one |
| Emitter.MarshalErrorIffUnknown | src/yamlsort/yamlsort.go:326-331 | myMarshal fails only on a document holding an unknown kind; with no skip or select entries it fails exactly then |
| Emitter.FilteredValueIrrelevant | src/yamlsort/yamlsort.go:568-575 | what lies under a skipped or unselected key has no effect on the output |
| Emitter.ScalarLine | src/yamlsort/yamlsort.go:638-649 | a string, int, bool or null is written as one line with no line break inside |
| Emitter.ScalarEntryLine | src/yamlsort/yamlsort.go:577-597 | a string, int, bool or null under a key is written as "key: value" on one line |
| Emitter.NestedMapIndented | src/yamlsort/yamlsort.go:580-582 | when a key is written and its value is a non-empty map whose first sorted key is also written, the key is written as "key:", a line break, then that first key indented two more columns |
| Emitter.FirstKeyFollowsDash | src/yamlsort/yamlsort.go:563-567 | when the first sorted key of a map inside a sequence is written (not skipped, and selected), it follows "- " on the same line, unindented |
| Emitter.SkippedFirstEntryIndented | src/yamlsort/yamlsort.go:561-576 | the indentation is chosen by the key's place in the key list before the filters run: when the first key of a slid map is filtered out, the second key still gets the full indentation |
| Emitter.SkippedFirstKeyAfterDash | src/yamlsort/yamlsort.go:561-576 | when a map element's first sorted key is filtered out and the second is written, the second key follows "- " after the element's full indentation |
| Emitter.SkippedFirstKeyExample | src/yamlsort/yamlsort.go:561-576 | the element {a: 1, b: 2, c: 3} of the list under "items", with the skip entry "items[0].a", is written "-   b: 2\n  c: 3\n": "b" sits at column 4 and "c" at column 2 |
| Emitter.ItemText | src/yamlsort/yamlsort.go:628-629 | an element is written as "- " at indentation level-2+offset, then its own text |
| Emitter.SequenceIndentExample | src/yamlsort/yamlsort.go:606-629 | {ports: [80]} is written "ports:\n- 80\n", or with the +2 flag "ports:\n  - 80\n" |
| Emitter.FirstKeyInlineExample | src/yamlsort/yamlsort.go:563-567 | the sequence [{a: 1}] is written "- a: 1\n" |
| Override.OverrideRecursive | src/yamlsort/yamlsort.go:673-840 | the method succeeds exactly when the merge does, and then returns the merged value; on failure it returns the merge's type name |
| Override.OverrideKeys | src/yamlsort/yamlsort.go:699-732 | the key loop returns the merged map, or the first key's error |
| Override.OverrideItems | src/yamlsort/yamlsort.go:740-790 | the element loop returns the merged sequence, or the first element's error |
| Override.OverrideNamed | src/yamlsort/yamlsort.go:745-762 | the inner loop returns the base elements with matches merged in and the flag, or the first error |
| Override.MyOverride | src/yamlsort/yamlsort.go:668-671 | it fails exactly when the recursive merge fails, with an error naming the type that could not be merged; otherwise it returns the merged document |
| Override.MergeBaseCases | src/yamlsort/yamlsort.go:674-680 | a null override returns the base, a null base returns the override, and two values that are not both maps or both sequences fail with the base's type |
| Override.MapMerge | src/yamlsort/yamlsort.go:684-733 | two maps merge exactly when every override key merges; the result keeps the base-only keys and gives every override key its merged value |
| Override.Combined | src/yamlsort/yamlsort.go:699-731 | the merged map has the keys of both; a base-only key keeps its value; an override key absent or null in the base, or with a scalar or null value, takes the override's value; the others take the recursive merge |
| Override.NestedMismatchFails | src/yamlsort/yamlsort.go:726-730 | a map or sequence override under a key whose base value is a non-null scalar makes the whole merge fail |
| Override.SeqMerge | src/yamlsort/yamlsort.go:736-791 | base elements stay in place, each unchanged or merged under its own name; after them come only the override's scalars, in order, and at most one of its maps |
| Override.ScalarListsConcatenate | src/yamlsort/yamlsort.go:768-783 | merging a list of strings, ints, floats and bools appends it to the base |
| Override.MergeKeepsName | src/yamlsort/yamlsort.go:752-758 | a base element merged with a same-named override element keeps its name |
| Override.MatchNamedReplaces | src/yamlsort/yamlsort.go:745-762 | every base map with the override element's string name is replaced by the merge of the two; every other base element is left alone |
| Override.MatchedMapElement | src/yamlsort/yamlsort.go:743-767 | an override map that matches some base element is merged into every match, nothing is appended, and the flag ends set |
| Override.UnmatchedMapElement | src/yamlsort/yamlsort.go:763-767 | an override map that matches no base element is appended while the flag is false and dropped once it is set |
| Override.SecondUnmatchedDropped | src/yamlsort/yamlsort.go:740-767 | with an empty base, [{name: a}, {name: b}] merges to [{name: a}]: the flag is never reset |
| Override.FirstUnmatchedAppended | src/yamlsort/yamlsort.go:763-767 | [{name: a}] merged with [{name: b}] gives [{name: a}, {name: b}] |

## Left out

- Emitter.FirstKeyFollowsDash: holds only when the first sorted key is written. The source picks the indentation from the key-list index (src/yamlsort/yamlsort.go:565-566) before the skip and select checks. So when a filter drops the first key, the next key is indented after "- ", which gives mis-indented YAML: `items: [{a: 1, b: 2, c: 3}]` with the skip entry `items[0].a` becomes `-   b: 2` followed by `  c: 3`. The model reproduces this as written (`Emitter.SkippedFirstKeyAfterDash`, `Emitter.SkippedFirstKeyExample`) and does not correct it.
- `main`, `newRootCmd`, `run` and `procOneFile` (src/yamlsort/yamlsort.go:70-321) are left out. They parse flags, read and write files, split on `---` and pick the output mode, which is I/O around the core. Only the default priority list from `run` is modelled (`Document.EffectivePriorKeys`, with `Emitter.EffectivePriorHeadFirst` connecting it to the key order).
- `myLoadFromFile` and the JSON/YAML decoders are left out. They are calls into libraries this model does not include, so the model starts from an already decoded tree.
- Float text is left out: `fmt.Println` of a float64 is not modelled, and a float carries the text it prints as.
- The messages printed at src/yamlsort/yamlsort.go:788 and :800 are stdout side effects, so they are not modelled.
- The `[]string`, `[]int`, `[]float64` and `[]bool` merge branches (src/yamlsort/yamlsort.go:795-837) are left out. The decoders produce only `[]interface{}`, so these branches never run. Such a value falls to the final "unknown type" error in the model.
- `unicode.IsDigit` is limited to ASCII digits. A non-ASCII digit is treated as an ordinary character, where the source would have `ParseInt` reject it and fall back to string order.
- Go map iteration order is random. The model lists keys in code-point order before sorting, which is one of the orders Go may produce.
- `sort.Slice` is modelled by an insertion sort (`KeyOrder.SortKeys`), and neither is stable. Keys the comparator finds equivalent, such as "01" and "1", may come out in another order than Go's: the model puts ["01", "1"] in the order ["1", "01"].
- KeyOrder.SortedKeysSorted: sortedness is proved only when every key tokenises. The fallback to string order can make the comparator intransitive when tokenising and non-tokenising keys are mixed.
- KeyOrder.LessTransitive: proved only for keys that tokenise, for the same reason.
- KeyOrder.ConvertStringToUint64Slice: on failure the partial token list the source returns is not specified. Its only caller discards it.
- Go reference aliasing is not modelled: maps and slices are values here. The source stores override subtrees into the base by reference (`mdest[k] = v` at src/yamlsort/yamlsort.go:702-703, `append(adest, m)` at src/yamlsort/yamlsort.go:763-765) and later merges mutate them in place, so one subtree can end up shared by several elements. For the base `[{name: x}, {name: x}]` and the override `[{name: x, k: {t: [a]}}, {name: x, k: {t: [b]}}]`, Go gives both elements `t: [a, b, b]`, while the model gives `t: [a, b]`.
- Escape.EscapeRoundTrip: bare output is assumed to read back verbatim. A YAML reader resolves bare text such as `null`, `~`, `-1` or `a: b` to other values or fails on it, and escapeString writes some of these bare; that plain-scalar resolution is not modelled.
- Error messages are reduced to the dynamic type's name. `reflect.TypeOf` and the `%v` rendering of the data are not modelled.
- Integers are unbounded. `int` wrap-around does not arise in the paths modelled: indexes are lengths, and the int64 limit of `ParseInt` is written out.
- Override.OverrideRecursive: on an error, the value returned is not specified. The source returns a partly updated base, which every caller discards.
- Override.OverrideKeys: on an error, the value returned is not specified, for the same reason.
- Override.OverrideItems: on an error, the value returned is not specified, for the same reason.
- Emitter.ErrorMeansUnknown: the converse (an unknown kind always makes the walk fail) is proved only without skip or select entries, because a filtered subtree is never visited.
- Emitter.MarshalErrorIffUnknown: the converse holds only without skip or select entries, for the same reason.
