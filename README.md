# Dangee: order matching, bytecode decoding and method-set queries

Dangee looks for suspicious behaviour chains in Android bytecode. It works over
the method analysis objects of androguard. This project models three parts of it
in Dafny and proves properties of the model:

- `dangee/util/__init__.py`:
  - `contains`, the order-pattern matcher. It filters a copy of the target list
    while iterating over that same copy, then looks for the pattern as a
    contiguous window of what is left.
  - `get_method_bytecode`. It turns every instruction of a method into a
    `BytecodeObject` of mnemonic, register list and parameter, chosen by the
    instruction's operand count.
- `dangee/dangee_analysis.py`: the query class `DangeeAanlysis`. It holds a
  method set that is stored once and never reassigned. Each query narrows or maps that set and returns a new
  instance (`isNative`, `isSelfDefine`, `match`, `get_xref_from`,
  `get_xref_to`), or returns a list of pair entries (`hasMutualParentFunctionWith`,
  `dataFlowto`).
- `dangee/core.py`: `Dangee.init_data`, which splits the analysis' methods into
  all, native-API and self-defined sets, and the static `Dangee.find_method`.

Layout, one module per file:

- `wrappers.dfy` (`Wrappers`): `Option`.
- `sequences.dfy` (`Sequences`): prefix, window (infix) and order-preserving subsequence, with their lemmas.
- `text.dfy` (`Text`): ASCII lowercasing, `str(int)` and its inverse.
- `util.dfy` (`Util`): `contains` and `get_method_bytecode`.
- `methods.dfy` (`Methods`): the method-analysis view, the set filters, and the loops the queries share.
- `dangee_analysis.dfy` (`Analysis`): class `DangeeAanlysis`.
- `core.dfy` (`Core`): class `Dangee`.

How the source's parts are represented:

- Python's list filter loop keeps a hidden iterator index. Each step examines
  the element at that index and advances the index. When the element is not in
  the pattern, `list.remove` drops the FIRST element equal to it, so the list
  shrinks under the iterator. `Util.FilterFrom` states this step by step, and
  the method `Util.FilterCopy` runs the same loop over a `seq`. Because a
  `seq` is a value, the caller's target list cannot change.
- A method analysis object is a `Methods.MethodAnalysis` record. It holds the
  method's identity (class, name, descriptor) and the three attributes the
  queries read. Those attributes are androguard's `full_name`,
  `is_android_api()` and `is_external()`.
- `DangeeAanlysis.buff_method_set` is set once and never reassigned. It is a
  `const` field, so no query can change it. Every query either allocates a new
  instance (`fresh`) or returns a plain value.
- The imported helpers are parameters of the methods that call them. They are
  `get_xref_from`, `get_xref_to`, `hasMutualParentFunction` and
  `hasHandleRegister`. Each is a function that returns a set of methods. For
  `hasMutualParentFunction` and `hasHandleRegister`, whose results are tested
  for truth, the empty set stands for every falsy result (`None` or an empty
  set).
- Python set iteration order is unspecified. The loops pick each next member
  with `:|`, so every proof holds for any order. The pairwise collectors'
  results are therefore stated as a set of entries, plus a proof that no pair
  appears twice.

## Model

Specification definitions that the rows below are stated against:
`Util.FilterFrom` and `Util.Filtered` (the filter loop of dangee/util/__init__.py:76-78, step by step),
`Util.RegisterName` (`"v" + str(...)`, dangee/util/__init__.py:30, 41),
`Text.IntToString` (`str(int)`, dangee/util/__init__.py:41),
`Analysis.DangeeAanlysis.Value` (the `value` property, dangee/dangee_analysis.py:15-21),
`Methods.MatchesWords` (the test of dangee/dangee_analysis.py:95),
`Methods.FindsWords` (the test of dangee/core.py:69) and
`Util.ContainsIntended` (the corrected matcher of "## Findings").

| member | source | states |
|---|---|---|
| `Util.RemoveFirst` | dangee/util/__init__.py:78 | `list.remove` of an element that is present shortens the list by exactly one |
| `Util.RemoveFirstCutsFirstOccurrence` | dangee/util/__init__.py:78 | `list.remove(x)` cuts out exactly one position, the first one holding `x`, and leaves everything else in order |
| `Util.FilterFromIsSubsequence` | dangee/util/__init__.py:75-78 | from any iterator position on, the filter loop leaves an order-preserving subsequence of the list it started with |
| `Util.FilterFromKeepsPattern` | dangee/util/__init__.py:75-78 | the filter loop never removes an element that occurs in the pattern: keeping only pattern elements gives the same sequence before and after |
| `Util.FilterCopy` | dangee/util/__init__.py:73-78 | the filtered copy is an order-preserving subsequence of the target, keeps every pattern element in order, and comes from at most \|target\| loop iterations (between \|copy\| and \|copy\|+1 of them) |
| `Util.Contains` | dangee/util/__init__.py:60-86 | returns true exactly when some contiguous window of the filtered copy equals the pattern, and false otherwise |
| `Util.ContainsIsSound` | dangee/util/__init__.py:73-86 | a true answer implies that the pattern is an order-preserving subsequence of the target |
| `Util.EmptyPatternIsContained` | dangee/util/__init__.py:80-85 | an empty pattern is contained in every target, including an empty one |
| `Util.LongPatternIsNotContained` | dangee/util/__init__.py:80-86 | a pattern longer than the filtered copy is never contained; neither is a non-empty pattern in an empty target |
| `Util.InOrderWithGaps` | dangee/util/__init__.py:64-66 | `[a, b]` against `[x, a, y, b]`, with `x` and `y` not in the pattern, filters to `[a, b]` and is contained |
| `Util.OutOfOrder` | dangee/util/__init__.py:68-70 | `[a, b]` against `[b, x, a, y]` filters to `[b, a]` and is not contained |
| `Util.DocstringInOrder` | dangee/util/__init__.py:63-66 | the first docstring example (`getCellLocation` before `sendTextMessage` with `put` and `query` around them) is true |
| `Util.DocstringOutOfOrder` | dangee/util/__init__.py:67-70 | the second docstring example (calls in the wrong order) is false |
| `Util.SkipsAfterRemoval` | dangee/util/__init__.py:76-78 | the element right after a removed one is never examined: `[a, b]` against `[a, x, y, b]` filters to `[a, y, b]` and is not contained, although `a` precedes `b` in the target |
| `Util.ContainsImpliesIntended` | dangee/util/__init__.py:75-86 | whenever the matcher as written answers true, the corrected matcher answers true as well |
| `Util.ContainsIntendedIsSound` | dangee/util/__init__.py:75-86 | the corrected matcher answers true only when the pattern occurs in order in the target |
| `Util.ContainsIntendedPairIsOrder` | dangee/util/__init__.py:75-86 | for a two-element pattern `[a, b]` with `a != b`, the corrected matcher answers true exactly when `a` occurs and `b` occurs later |
| `Util.RegisterIndexOfName` | dangee/util/__init__.py:29-30 | the register name `"v" + str(value)` determines the operand value: reading it back gives that value |
| `Util.DecodesIsDeterministic` | dangee/util/__init__.py:19-52 | the decoding rules fix the record of an instruction uniquely |
| `Util.DecodedRegisterNamesOperand` | dangee/util/__init__.py:35-42 | the k-th register of a record names the k-th operand, in order |
| `Util.DecodeInstruction` | dangee/util/__init__.py:16-52 | mnemonic is the instruction name. 0 operands: no register list (None) and no parameter. 1 operand: exactly the register `v<operand value>` and no parameter. n >= 2: the first n-1 operands as registers in order, and as parameter the last operand's third field if it has one, else its second |
| `Util.GetMethodBytecode` | dangee/util/__init__.py:6-57 | one record per instruction, in instruction order, each as `DecodeInstruction` states; a method with no instruction body yields nothing and raises nothing |
| `Text.Lower` | dangee/dangee_analysis.py:95 | lowercasing keeps the length and lowercases each character independently |
| `Text.LowerIdempotent` | dangee/dangee_analysis.py:95 | lowercasing twice is lowercasing once |
| `Text.ParseIntToString` | dangee/util/__init__.py:41 | `str(int)` is inverted by parsing, negative numbers included |
| `Methods.Select` | dangee/dangee_analysis.py:29-36 | the filter loop adds exactly the members of the set that pass the test |
| `Methods.UnionOver` | dangee/dangee_analysis.py:60-67 | the nested loop collects exactly the methods that the helper reports for some member |
| `Methods.CollectPairs` | dangee/dangee_analysis.py:102-111 | the entries are exactly one per pair (item1 in the first set, item2 in the second) whose helper result is non-empty, mapped to that result; no pair appears twice; the list is empty when either set is |
| `Methods.NativeOfNarrows` | dangee/dangee_analysis.py:29-36 | the native-API filter yields a subset and is idempotent |
| `Methods.SelfDefinedOfNarrows` | dangee/dangee_analysis.py:44-52 | the self-defined filter yields a subset and is idempotent |
| `Methods.MatchIgnoresCaseOfWords` | dangee/dangee_analysis.py:95 | search words that lowercase alike select the same members |
| `Methods.MatchIgnoresCaseOfNames` | dangee/dangee_analysis.py:95 | methods whose full names lowercase alike are kept or dropped together |
| `Methods.MatchNarrows` | dangee/dangee_analysis.py:91-98 | matching yields a subset and matching twice with the same words changes nothing |
| `Methods.MatchEmptyKeepsAll` | dangee/dangee_analysis.py:95 | matching the empty string keeps every member |
| `Methods.MatchIsFindOfLower` | dangee/core.py:69 | `match(words)` selects what `find_method(words.lower(), ...)` selects |
| `Methods.FindEmptyKeepsAll` | dangee/core.py:69 | `find_method("", s)` returns all of `s` |
| `Methods.FindWithUpperFindsNothing` | dangee/core.py:69 | since the search words are not lowercased, words containing an ASCII capital find nothing |
| `Methods.PairsOfEmptySide` | dangee/dangee_analysis.py:104-105 | a pairwise collector with an empty side has no entries |
| `Analysis.DangeeAanlysis.constructor` | dangee/dangee_analysis.py:12-21 | `value` returns exactly the set the instance was built with |
| `Analysis.DangeeAanlysis.IsNative` | dangee/dangee_analysis.py:23-36 | a new instance holding exactly the members that are Android APIs, a subset of the current set |
| `Analysis.DangeeAanlysis.IsSelfDefine` | dangee/dangee_analysis.py:38-52 | a new instance holding exactly the members that are not external |
| `Analysis.DangeeAanlysis.GetXrefFrom` | dangee/dangee_analysis.py:54-67 | a new instance holding the union, over all members, of what `get_xref_from` reports for the member |
| `Analysis.DangeeAanlysis.GetXrefTo` | dangee/dangee_analysis.py:69-82 | a new instance holding the union, over all members, of what `get_xref_to` reports for the member |
| `Analysis.DangeeAanlysis.Match` | dangee/dangee_analysis.py:84-98 | a new instance holding exactly the members whose lowercased full name contains the lowercased words |
| `Analysis.DangeeAanlysis.HasMutualParentFunctionWith` | dangee/dangee_analysis.py:100-111 | one entry per pair with a truthy `hasMutualParentFunction` result, mapped to that result, no pair twice, empty when either side is empty |
| `Analysis.DangeeAanlysis.DataFlowTo` | dangee/dangee_analysis.py:113-129 | the same for `hasHandleRegister` |
| `Core.Dangee.constructor` | dangee/core.py:28-32 | the sets start empty and, after `init_data`, `all_method` is every reported method, `native_api` exactly its Android APIs and `self_define` exactly its non-external methods, both subsets of `all_method` |
| `Core.Dangee.InitData` | dangee/core.py:34-44 | one pass adds every reported method to `all_method`, the Android APIs among them to `native_api` and the non-external ones to `self_define` |
| `Core.Dangee.FindMethod` | dangee/core.py:57-72 | exactly the members whose lowercased full name contains the words as given, a subset of the input |
| `Core.Dangee.FindMethodIntended` | dangee/core.py:60-69 | the case-insensitive search the documentation describes: exactly the members whose lowercased full name contains the lowercased words, the same set `match` selects |

## Findings

| source | as written | input that shows it | evidently intended | confidence | as-written member | corrected member |
|---|---|---|---|---|---|---|
| dangee/util/__init__.py:76-78 | the filter removes items from the list it is iterating over, so the element that slides into a removed element's place is never examined | pattern `[a, b]`, target `[a, x, y, b]`: the copy becomes `[a, y, b]` and the result is False, although `a` is called before `b` | drop every element not in the pattern, as the comment on line 75 says; then a two-element pattern matches exactly when its first element occurs before its second | high; not executed | `Util.SkipsAfterRemoval` | `Util.ContainsIntendedPairIsOrder` |
| dangee/core.py:60-72 | the documentation promises a case-insensitive comparison returning True or False; the code lowercases only the method name, not the words, and returns a set | `find_method("Location", s)` finds nothing, even for a method named `getLocation` | lowercase the words too, as `match` does | medium; not executed | `Methods.FindWithUpperFindsNothing` | `Core.Dangee.FindMethodIntended` |

`Util.Contains` keeps the behaviour as written, because it models the code.
`Util.ContainsIntended` is the corrected matcher. Nothing else in this model
calls `contains`, and the two are related by `Util.ContainsImpliesIntended`.
Likewise `Core.Dangee.FindMethod` keeps the code's search, and
`Core.Dangee.FindMethodIntended` is the corrected one; it returns the set, as
the code does, not the True or False its documentation mentions.

## Left out

- `Dangee.__init__` recognises and loads an APK or DEX file through androguard. That is file I/O and is not part of this model (dangee/core.py:16-26). The constructor receives the reported methods directly, and then starts the three sets empty and runs `InitData`, as lines 28-32 do.
- The module-level script at the end of dangee/core.py, and the accessors `get_all_method`, `get_native_method` and `get_self_define_method`, are not modelled. The script is I/O, and the accessors only return a field.
- `dangee_analysis.py` imports `hasMutualParentFunction`, `hasHandleRegister`, `get_xref_from` and `get_xref_to` from `dangee.util` (lines 1-6), but `dangee/util/__init__.py` does not define them. They are parameters. No call-graph search, call-order check or register simulation is modelled for them.
- The androguard objects are not modelled. The method attributes are record fields, and the instruction accessors (`get_instructions_idx`, `get_operands`, `get_name`) are the fields of `Util.Instruction`. `BytecodeObject` is a record.
- The operand kind (the first field of an operand tuple) is left out, because the code never reads it. An operand tuple with fewer than two fields is also left out. The source would raise an `IndexError` on one, and androguard does not produce them.
- `Util.GetMethodBytecode` stops only for a method that has no instruction body. That is the case where `get_method()` gives an object without instructions and the source catches the `AttributeError` before yielding anything. An `AttributeError` raised in the middle of the stream is not modelled.
- The generator is modelled as the complete sequence of its records, so laziness is not captured.
- `str.lower()` is modelled for ASCII only. Python's full Unicode case mapping is not.
- `hasMutualParentFunctionWith` and `dataFlowto` evaluate their helper twice for each kept pair. The model evaluates it once, which assumes the helper returns the same value both times.
- `Analysis.DangeeAanlysis.GetXrefFrom` and `Analysis.DangeeAanlysis.GetXrefTo` assume the helper returns an iterable set. The source iterates the helper's result (dangee/dangee_analysis.py:64, 79), so a `None` there would raise a `TypeError`; that error path is not modelled.
- `DangeeAanlysis.__init__` stores the caller's own mutable set by reference, and `value` hands out that same object (dangee/dangee_analysis.py:13, 21). The model's field is a set value, so aliasing is not captured: a caller that mutates the set it passed in, or the set `value` returned, would change the instance in the source but cannot in the model.
- The order of the entries in the pairwise results follows Python's set iteration order. The model states the entries as a set and leaves their order open.
- Two distinct method objects whose identity and attributes are all equal are one element in the model's sets. Python's sets would keep them apart by object identity.
