# tri.declarative's Namespace, setdefaults_path, flatten and sort_after in Dafny

This project models the behaviour that `tests/test_misc.py` of tri.declarative pins down. Each behaviour is written as a
reference model, general laws are proved about it, and the file's own scenarios are then proved against the model.

- **Namespace** (`Namespaces`, `NamespaceObjects`). A Namespace is a dict whose keys are `__`-separated paths.
  - A value is `Null`, an int, a bool, a string, an opaque function id (`Func`), or a nested Namespace. A nested Namespace carries the tag that marks a `Shortcut`.
  - `setitem_path` (`SetIn`, `Write`) splits the path and walks or creates the intermediate Namespaces.
  - At the end of the path it applies the merge rules:
    - a plain scalar replaces whatever was there;
    - a function that gains keys becomes `{call_target: f, ...}`;
    - a string that gains keys becomes `{s: True}`, with a deprecation diagnostic saying "previous" or "written";
    - a Shortcut overwritten by a plain Namespace is replaced outright;
    - every other pair of Namespaces is deep-merged, and the existing tag is kept.
  - `Namespace(s0, s1, ...)` (`Construct`) merges its sources left to right, one `setitem_path` per item.
  - Diagnostics are returned as a list of strings.
  - The in-place API is the class `NamespaceObjects.Namespace`. It holds the items in a field, and its `setitem_path` and `[]=` methods update that field. The `EMPTY` marker is a frozen instance that refuses every assignment.
- **setdefaults_path** (`SetDefaults`) is construction over the defaults in reverse order, followed by the target. The target therefore wins, and an earlier default beats a later one.
- **dispatch** (`Dispatching`) stores `Namespace(**defaults)` and fills each call's keywords in from it.
- **flatten** (`Flattening`, `FlattenObjects`) walks a Namespace depth first and joins the keys with `__`.
  - On values, it is proved sound against path lookup: every emitted pair is the leaf its path reaches. It is proved complete at every depth: every leaf that a path reaches below the start is emitted under that path.
  - On heap objects, the walk keeps the set of objects on the current path and skips a reference back into that set. Loop detection is therefore by identity, not equality.
  - On acyclic object graphs, the object walk is proved equal to the value walk.
- **Calling a Namespace** (`Invocation`). The call-site keywords are merged over the Namespace and `call_target` is taken off. The control keys `cls` and `attribute` select what is called.
  - A Namespace without a call target is a `TypeError` showing `str(namespace)`.
- **sort_after** (`Ordering`). Items carry one of four constraints: none, an index, a name to follow, or `LAST`. The result is either the ordered items or the `KeyError` text.
  - It is proved to be a permutation.
  - Unconstrained items keep their order, and index items come in the order of their positions. Index items tied on a position keep their input order.
  - Every `after=<name>` item comes after an item of that name. Items waiting for the same name keep their input order, and the first of them comes right behind the item it names.
  - `LAST` items come after every unconstrained and every index item.
  - The first item is the first index item when its position is at most 0, and otherwise the first unconstrained item.
  - A missing name is reported in a sorted list, in the singular or the plural.
- **assert_kwargs_empty** (`KeywordArguments`) accepts no keywords. Otherwise it reports the caller and the sorted, quoted keyword names.

The implementation of tri.declarative is not part of this model. Its rules are reconstructed from the assertions of `tests/test_misc.py`.

Two modelling choices rest on the test file alone:

- For several missing names, `sort_after` lists them **sorted**, because the expected message at `tests/test_misc.py:561-569` lists `does-not-exist` before `does-not-exist2`, although the items ask for them in the opposite order.
- A string is promoted to `{s: True}` only when a deeper path is written below it (`tests/test_misc.py:275-279`, `tests/test_misc.py:889-896`), or when the string itself is written onto a Namespace (`tests/test_misc.py:899-906`). A whole Namespace written over an existing string replaces the string. The deprecation tests at `tests/test_misc.py:152-163` and `tests/test_misc.py:889-906` exercise only the first two shapes, and no assertion in the file covers the third.

## Model

| member | source | states |
|---|---|---|
| Paths.Split | tests/test_misc.py:257-266 | a key splits into at least one segment |
| Paths.JoinSplit | tests/test_misc.py:190-193 | joining the segments of a key with `__` gives the key back |
| Paths.SplitGivesSegments | tests/test_misc.py:257-266 | every segment of a split key holds no separator |
| Paths.SplitSegment | tests/test_misc.py:245-254 | a key without separator is its own one-segment path |
| Paths.EmptySegments | tests/test_misc.py:344 | the empty key is one empty segment, and a trailing `__` adds an empty last segment |
| Paths.SplitAppend | tests/test_misc.py:334 | splitting `pre__p` gives the segments of `pre` followed by those of `p` |
| Strings.Insert | tests/test_misc.py:572-578 | inserting into a sorted list keeps it sorted and adds exactly that element |
| Strings.SortStrings | tests/test_misc.py:572-578 | `sorted` on strings returns a sorted permutation of its input |
| Strings.LessTotal | tests/test_misc.py:561-569 | any two distinct strings are ordered one way or the other |
| Strings.LessTransitive | tests/test_misc.py:561-569 | string order is transitive |
| Strings.IntToString | tests/test_misc.py:209-213 | `str(i)` is `-` for a negative `i` followed by decimal digits whose value is `|i|`, with no leading zero except for `0` itself |
| Strings.NatToString | tests/test_misc.py:209-213 | the decimal digits of a natural number read back as that number, with a leading zero only for `0` |
| Namespaces.IndexOf | tests/test_misc.py:184-187 | the position found holds the key, and no earlier position does |
| Namespaces.Get | tests/test_misc.py:184-187 | a missing key reads `None`; a present key reads the value stored with it |
| Namespaces.Put | tests/test_misc.py:1022-1026 | `namespace[key] = v` makes `key` read `v`, leaves every other key unchanged and keeps keys unique |
| Namespaces.SetIn | tests/test_misc.py:245-319 | `setitem_path` adds the path's first segment, changes no other key and keeps keys unique |
| Namespaces.MergeItems | tests/test_misc.py:330-351 | merging a source adds exactly the first segments of its keys, and keys it does not write keep their values |
| Namespaces.Construct | tests/test_misc.py:241 | a constructed Namespace has unique keys, all of them single segments |
| NamespaceObjects.Namespace.constructor | tests/test_misc.py:245-254 | `Namespace(sources)` holds the construction of its sources and its diagnostics |
| NamespaceObjects.Namespace.Frozen | tests/test_misc.py:1022-1026 | `EMPTY` is an empty frozen Namespace |
| NamespaceObjects.Namespace.SetItemPath | tests/test_misc.py:245-319 | on an unfrozen Namespace, the items become `setitem_path`'s result and its diagnostics are appended; on the frozen marker, the call fails and nothing changes |
| NamespaceObjects.Namespace.SetItem | tests/test_misc.py:1022-1026 | `[]=` stores the value on an unfrozen Namespace; it fails and changes nothing on `EMPTY` |
| NamespaceLaws.WriteFresh | tests/test_misc.py:257-260 | writing a path below a missing key builds a chain of single-key Namespaces silently |
| NamespaceLaws.SetInFresh | tests/test_misc.py:257-260 | a path with a new first segment appends that key holding the chain |
| NamespaceLaws.MergeFresh | tests/test_misc.py:333 | merging distinct new segment keys appends the items unchanged, without diagnostics |
| NamespaceLaws.PlainWriteWins | tests/test_misc.py:251-254 | after writing a plain scalar at a path, the path reads that scalar |
| NamespaceLaws.SiblingKept | tests/test_misc.py:269-272 | a path that leaves the written path below Namespaces reads what it read before: siblings survive |
| NamespaceLaws.ScalarThenPath | tests/test_misc.py:310-313 | a plain scalar in the way of a deeper path is replaced by the path's chain, with no diagnostic |
| NamespaceLaws.FunctionGainsPath | tests/test_misc.py:286-289 | a function that gains a nested key becomes `{call_target: f, key: ...}` |
| NamespaceLaws.FunctionGainsNamespace | tests/test_misc.py:298-301 | a Namespace written over a function keeps the function as its `call_target` |
| NamespaceLaws.FunctionIntoNamespace | tests/test_misc.py:292-295 | a function written onto a Namespace becomes its `call_target`, keeps its tag and every other key |
| NamespaceLaws.PreviousStringPromoted | tests/test_misc.py:889-896 | a string in the way of a deeper path becomes `{s: True}` plus the path, with exactly the "previous string value" diagnostic |
| NamespaceLaws.WrittenStringPromoted | tests/test_misc.py:899-906 | a string written onto a Namespace adds `s: True`, with exactly the "written string value" diagnostic |
| NamespaceLaws.ShortcutReplaced | tests/test_misc.py:425-431 | a Shortcut overwritten by a plain Namespace is replaced outright, silently |
| NamespaceLaws.NamespaceMerged | tests/test_misc.py:434-440 | any other Namespace written onto a Namespace is deep-merged: the existing tag stays, the keys are the union, and unwritten keys are kept |
| NamespaceLaws.PathKeepsTag | tests/test_misc.py:909-913 | writing through a Namespace keeps its tag, so a Shortcut stays a Shortcut |
| NamespaceLaws.MergePlainWins | tests/test_misc.py:251-254 | plain scalars under distinct segment keys are what those keys read after a merge, silently |
| NamespaceLaws.ConstructSnoc | tests/test_misc.py:330-351 | one more source is merged into what the earlier sources built, and the diagnostics concatenate |
| NamespaceLaws.ConstructKeys | tests/test_misc.py:330-351 | the constructed Namespace has exactly the top-level keys its sources write |
| NamespaceLaws.LastSourceWins | tests/test_misc.py:330-351 | plain scalars of the last source win over every earlier source |
| NamespaceLaws.UnwrittenKeyKept | tests/test_misc.py:330-351 | a key the last source does not write keeps what the earlier sources gave it |
| NamespaceLaws.TargetWins | tests/test_misc.py:81-97 | in `setdefaults_path` the target's plain values beat every default |
| NamespaceLaws.DefaultsFillIn | tests/test_misc.py:81-97 | keys the target does not write come from the defaults alone |
| NamespaceLaws.EarlierDefaultWins | tests/test_misc.py:385-391 | of two defaults the earlier one wins, for keys the target leaves alone |
| NamespaceLaws.SetDefaultsKeys | tests/test_misc.py:81-97 | `setdefaults_path`'s keys are those of the target and of every default |
| NamespaceLaws.WriteQuiet | tests/test_misc.py:152-163 | deprecation diagnostics come only from strings: string-free writes are silent and stay string-free |
| NamespaceLaws.ConstructQuiet | tests/test_misc.py:152-163 | construction from string-free sources emits no diagnostic |
| NamespaceLaws.ChainSetIn | tests/test_misc.py:263-266 | writing below the end of a chain of single-key Namespaces rewrites only its end value |
| MergeCases.ConstructFresh | tests/test_misc.py:241 | a source of distinct segment keys builds a Namespace holding exactly its items |
| MergeCases.ConstructFreshTwo | tests/test_misc.py:333 | a second source of new segment keys is appended after the first |
| MergeCases.OneSourceTwoItems | tests/test_misc.py:330-351 | the items of one source act as one-item sources in turn |
| MergeCases.DistinctHeads | tests/test_misc.py:333 | keys with different first segments end up side by side, in writing order, in either argument order |
| MergeCases.SharedPrefix | tests/test_misc.py:334 | two paths under a common prefix are merged below the prefix |
| MergeCases.StringThenPath | tests/test_misc.py:335-336 | a string followed by a deeper path gives `{s: True}` plus the path, with one "previous" diagnostic |
| MergeCases.PathThenString | tests/test_misc.py:335-336 | a deeper path followed by a string gives the path plus `s: True`, with one "written" diagnostic |
| MergeCases.FunctionThenPath | tests/test_misc.py:337 | a function followed by a deeper path gives `{call_target: f, ...}` |
| MergeCases.PathThenFunction | tests/test_misc.py:337 | a deeper path followed by a function makes the function its `call_target` |
| MergeCases.FunctionThenNamespace | tests/test_misc.py:298-301 | a function followed by a Namespace of new keys puts the function first as `call_target` |
| MergeCases.ScalarThenDeeperPath | tests/test_misc.py:310-313 | a plain scalar followed by a deeper path is a plain replacement by the path's chain |
| MergeCases.DeeperPathThenScalar | tests/test_misc.py:316-319 | a deeper path followed by a plain scalar is replaced by the scalar |
| MergeCases.ScalarOverwrites | tests/test_misc.py:304-307 | a plain scalar written over anything at the same key replaces it |
| MergeCases.ShortcutThenNamespace | tests/test_misc.py:425-431 | a Shortcut followed by a plain Namespace at the same key leaves only the plain Namespace |
| MergeCases.NamespaceThenShortcut | tests/test_misc.py:434-440 | a plain Namespace followed by a Shortcut of new keys is merged into, keeping both sets of keys and the plain tag |
| MergeCases.SwapSame | tests/test_misc.py:395-410 | two keys in either order under one key are equal Namespaces |
| MergeCases.SetDefaultsOntoEmpty | tests/test_misc.py:69-78 | `setdefaults_path` onto an empty target with one default is that default's Namespace |
| NamespaceTests.SetItemSingleValue | tests/test_misc.py:245-248 | `setitem_path('x', 17)` on an empty Namespace gives `{x: 17}` and no warning |
| NamespaceTests.SetItemSingleValueOverwrite | tests/test_misc.py:251-254 | overwriting `x` gives `{x: 42}` |
| NamespaceTests.SetItemSplitPath | tests/test_misc.py:257-260 | `setitem_path('x__y', 17)` gives `{x: {y: 17}}` |
| NamespaceTests.SetItemSplitPathOverwrite | tests/test_misc.py:263-266 | overwriting `x__y` gives `{x: {y: 42}}` |
| NamespaceTests.SetItemNamespaceMerge | tests/test_misc.py:269-272 | setting `x__z` keeps `x__y` |
| NamespaceTests.SetItemPromoteStringToNamespace | tests/test_misc.py:275-279 | `x='y'` then `x__z` gives `{x: {y: True, z: 17}}` and exactly the "previous" warning |
| NamespaceTests.SetItemFunction | tests/test_misc.py:286-289 | `f=f` then `f__x` gives `{f: {call_target: f, x: 17}}` |
| NamespaceTests.SetItemFunctionBackward | tests/test_misc.py:292-295 | `f__x` then `f=f` gives a Namespace equal, as a dict, to `{f: {call_target: f, x: 17}}` |
| NamespaceTests.SetItemFunctionDict | tests/test_misc.py:298-301 | `f=f` then `f=dict(x=17)` gives `{f: {call_target: f, x: 17}}` |
| NamespaceTests.SetItemFunctionNonDict | tests/test_misc.py:304-307 | `f=f` then `f=17` gives `{f: 17}` |
| NamespaceTests.NoPromoteOverwrite | tests/test_misc.py:310-313 | `x=17` then `x__z=42` equals `Namespace(x__z=42)` |
| NamespaceTests.NoPromoteOverwriteBackwards | tests/test_misc.py:316-319 | `x__z=42` then `x=17` equals `Namespace(x=17)` |
| NamespaceTests.EmptyMarkerIsImmutable | tests/test_misc.py:1022-1026 | `EMPTY['foo'] = 'bar'` fails |
| NamespaceTests.SetItemAfter | tests/test_misc.py:245-319 | `setitem_path` on a built Namespace equals construction with one more source |
| SetDefaultsTests.SetDefaultsPath1 | tests/test_misc.py:69-70 | `setdefaults_path(dict(), x=17)` is `{x: 17}` |
| SetDefaultsTests.SetDefaultsPath2 | tests/test_misc.py:73-74 | an empty dict in the target takes the default `x__y=17` below it |
| SetDefaultsTests.SetDefaultsPath3 | tests/test_misc.py:77-78 | `setdefaults_path(dict(), x__y=17)` is `{x: {y: 17}}` (also `tests/test_misc.py:379-382`) |
| SetDefaultsTests.EmptyMarker | tests/test_misc.py:358-361 | `EMPTY` defaults become empty Namespaces, also below a path |
| SetDefaultsTests.EmptyMarkerCopy | tests/test_misc.py:364-368 | an `EMPTY` default is written as an empty Namespace value |
| SetDefaultsTests.MultipleDefaults | tests/test_misc.py:385-391 | of two defaults the earlier wins, and the result has exactly the keys `a`, `b`, `c` |
| SetDefaultsTests.SetDefaultsOrdering | tests/test_misc.py:393-408 | a dict under `x` and a path below `x` give the same Namespace in either order |
| SetDefaultsTests.DictThenPath | tests/test_misc.py:393-400 | a dict default under `pre` followed by a path below it extends that dict |
| SetDefaultsTests.PathThenDict | tests/test_misc.py:402-408 | a path below `pre` followed by a dict under `pre` merges the dict in |
| SetDefaultsTests.CallTargetFromDefault | tests/test_misc.py:1002-1013 | a function default below an empty dict becomes its `call_target` |
| SetDefaultsTests.NoCallTargetOverwrite | tests/test_misc.py:1015-1019 | a later function default does not replace the existing `call_target` |
| SetDefaultsTests.CallTargetStays | tests/test_misc.py:1015-1019 | a Namespace holding a function `call_target` written over a function keeps its own |
| Dispatching.StoredKeys | tests/test_misc.py:614-622 | `f.dispatch` has unique keys, exactly the first segments of the decorator's keywords |
| Dispatching.ArgumentKeys | tests/test_misc.py:322-327 | a call receives the keys of the call site and of the stored defaults, and no others |
| Dispatching.CallSiteBeatsDefaults | tests/test_misc.py:322-327 | plain call-site keywords beat the stored defaults |
| Dispatching.DefaultKept | tests/test_misc.py:322-327 | a key the call site does not write is passed on as stored |
| Dispatching.StoredAgain | tests/test_misc.py:614-622 | rebuilding a Namespace from stored defaults changes nothing and warns nothing |
| DispatchingTests.StoreArguments | tests/test_misc.py:614-622 | `@dispatch(foo=1, bar=2)` stores `Namespace(foo=1, bar=2)` |
| DispatchingTests.EmptyDefault | tests/test_misc.py:322-327 | `@dispatch(foo=EMPTY)` called bare receives `{foo: {}}` |
| KeywordArguments.Quoted | tests/test_misc.py:572-578 | each name is quoted in single quotes, position by position |
| KeywordArguments.UnexpectedNames | tests/test_misc.py:572-578 | the listed names are the keywords given, as a sorted permutation |
| KeywordArguments.AssertKwargsEmpty | tests/test_misc.py:572-578 | the check passes exactly when no keyword is given |
| KeywordArguments.UnexpectedReported | tests/test_misc.py:572-578 | the message starts with the caller's name, and the list quotes each keyword given and names only keywords given, sorted |
| KeywordArgumentsTests.AssertKwargsEmptyExample | tests/test_misc.py:572-578 | `{}` passes, and `foo, bar, baz` gives exactly the message of the test |
| KeywordArgumentsTests.InsertLast | tests/test_misc.py:572-578 | a string greater than every element of a sorted list is inserted at its end |
| Flattening.FlattenPaths | tests/test_misc.py:190-193 | every emitted path goes below the prefix, and every emitted value is a leaf |
| Flattening.JoinAll | tests/test_misc.py:190-193 | each emitted path is joined with `__`, position by position, and splitting a joined key gives its path back whenever no segment but the last ends in `_` |
| Paths.SplitJoin | tests/test_misc.py:190-193 | splitting the `__`-join of separator-free segments, none but the last ending in `_`, gives the segments back |
| Flattening.ToDict | tests/test_misc.py:196-200 | `dict(pairs)` has unique keys, exactly the keys of the pairs |
| Flattening.ToDictUnique | tests/test_misc.py:196-200 | pairs with distinct keys go into the dict unchanged |
| Flattening.FlattenSound | tests/test_misc.py:190-193 | every emitted pair is a leaf reached by following its path from the root |
| Flattening.FlattenComplete | tests/test_misc.py:190-193 | every leaf item one level below the walk's start is emitted under its path |
| Flattening.FlattenCompleteDeep | tests/test_misc.py:190-193 | every leaf that a path reaches through non-empty Namespaces, at any depth, is emitted under that path |
| FlattenObjects.NamespaceObject.SetAttr | tests/test_misc.py:215-220 | `n.key = s` replaces the attribute in place or appends it |
| FlattenObjects.Assign | tests/test_misc.py:215-220 | the assigned key holds `s`, every other attribute keeps its place, and the count grows only for a new key |
| FlattenObjects.Walk | tests/test_misc.py:215-230 | the identity-checked walk emits paths below its prefix |
| FlattenObjects.Unfold | tests/test_misc.py:224-230 | an acyclic object stands for a Namespace value with the same keys in the same order |
| FlattenObjects.WalkAcyclic | tests/test_misc.py:224-230 | on objects that never reach themselves, the identity-checked walk equals `flatten` of the value they stand for |
| FlattenTests.FlattenNested | tests/test_misc.py:190-193 | `flatten` gives `a, b, c__d, c__e__f` with their values |
| FlattenTests.FlattenNestedPaths | tests/test_misc.py:190-193 | the path walk of the same Namespace in order |
| FlattenTests.FlattenForCall | tests/test_misc.py:196-200 | the keywords `a, b__c, b__d` reach the call |
| FlattenTests.LoopDetection | tests/test_misc.py:215-221 | `n1.foo = n1; n1.bar = 'baz'; n2.buzz = n1` flattens to exactly `{buzz__bar: 'baz'}` |
| FlattenTests.FlattenLoop | tests/test_misc.py:215-221 | the same for any two distinct objects so linked |
| FlattenTests.SharedNotLoop | tests/test_misc.py:228-230 | one object under two keys is flattened under both |
| FlattenTests.EqualNotLoop | tests/test_misc.py:224-225 | two equal but distinct objects under two keys are flattened under both |
| FlattenTests.FlattenTwoKeys | tests/test_misc.py:224-230 | the same for any objects so linked, shared or not |
| Invocation.Remove | tests/test_misc.py:1052-1058 | `pop(key)` removes exactly that key, keeps every other value and keeps keys unique |
| Invocation.Invoke | tests/test_misc.py:203-213 | a call fails exactly when the merged parameters lack `call_target`, with the message showing the Namespace; otherwise the call target receives every other parameter, and what is called is: a plain target itself; a nested target that holds its own `call_target`, as that Namespace minus `cls` and `attribute`; otherwise `cls`, or the named attribute of `cls` when `attribute` is given |
| Invocation.Fields | tests/test_misc.py:209-213 | one `key=value` field per flattened item, each the item's joined key, `=` and its rendered value |
| Invocation.CallSiteWins | tests/test_misc.py:877-885 | plain call-site keywords reach the call target unchanged |
| Invocation.NamespaceKeyForwarded | tests/test_misc.py:203-206 | a key the call site does not write is forwarded as the Namespace holds it |
| Invocation.CallWithoutKeywords | tests/test_misc.py:203-213 | with no keywords, a Namespace without `call_target` fails with its message, and one with a function target calls it with the other keys |
| InvocationTests.NamespaceCallTarget | tests/test_misc.py:203-206 | `Namespace(x=17, call_target=f)()` calls `f` with `{x: 17}` |
| InvocationTests.NamespaceMissingCallTarget | tests/test_misc.py:208-213 | `Namespace(x=17)()` fails with exactly the test's message |
| InvocationTests.NestedOverridingAndCalling | tests/test_misc.py:877-885 | `extra__foo='qwe'` at the call site overrides the Shortcut's `'asd'` |
| InvocationTests.ShortcutCallTargetAttribute | tests/test_misc.py:916-922 | `call_target__attribute` and `call_target__cls` call the named attribute of the class |
| InvocationTests.ShortcutCallTargetCls | tests/test_misc.py:916-923 | `call_target__cls` alone calls the class |
| InvocationTests.ChainedShortcut | tests/test_misc.py:1041-1056 | `bar` holds `foo` as its call target, with `cls` and `attribute` set below it |
| InvocationTests.ChainingFirstStep | tests/test_misc.py:1058 | calling `bar` pops `cls` and `attribute` and calls `foo` with `bar=1` |
| InvocationTests.ChainingSecondStep | tests/test_misc.py:1058 | calling `foo` with `bar=1` calls `endpoint` with `tag='foo', bar=1` |
| Ordering.Select | tests/test_misc.py:443-547 | the items of one kind, in input order |
| Ordering.Others | tests/test_misc.py:461-477 | the items left waiting and the children of a name together are as many as the waiting items |
| Ordering.OthersKeeps | tests/test_misc.py:461-477 | taking the children of a name splits the waiting items without loss: the two parts together are the waiting items, as a multiset |
| Ordering.Place | tests/test_misc.py:461-477 | `place(x)` emits `x` first and leaves no more items waiting than there were |
| Ordering.InsertByPosition | tests/test_misc.py:535-541 | inserting keeps the index items ordered by position and adds exactly the item |
| Ordering.SortByPosition | tests/test_misc.py:535-541 | index items are sorted by position, as a permutation |
| OrderingTies.InsertKeepsTies | tests/test_misc.py:498-518 | inserting an item puts it before the items already holding its position, and leaves every other position's items as they were |
| OrderingTies.SortKeepsTies | tests/test_misc.py:498-518 | sorting by position is stable: the items tied on any one position keep their input order |
| Ordering.Next | tests/test_misc.py:480-486 | the main loop takes the head of the index items or of the unconstrained items |
| Ordering.NextKeeps | tests/test_misc.py:480-486 | the item taken and the items left are the items there were |
| Ordering.PlaceKeeps | tests/test_misc.py:461-477 | `place` emits its item and what it takes from the waiting items, nothing more and nothing less |
| Ordering.TraverseKeeps | tests/test_misc.py:443-547 | the main loop emits or leaves waiting every item it is given, once |
| Ordering.Distinct | tests/test_misc.py:561-569 | the reported names without repetition, none lost |
| OrderingLaws.SelectPartition | tests/test_misc.py:443-547 | splitting by kind loses and invents nothing |
| OrderingLaws.RunKeeps | tests/test_misc.py:443-547 | every item is emitted or left waiting, once |
| OrderingLaws.SortAfterPermutes | tests/test_misc.py:543-547 | a successful `sort_after` returns a permutation of its input |
| OrderingLaws.SortAfterOrder | tests/test_misc.py:443-541 | unconstrained items keep their order, index items come by position, `LAST` items keep their order, and every `LAST` item comes after every unconstrained and every index item |
| OrderingLaws.LastAfterRest | tests/test_misc.py:452-458 | in a successful result a `LAST` item comes after any given unconstrained or index item |
| OrderingTies.SortAfterTies | tests/test_misc.py:498-518 | in a successful result, the index items tied on a position come in input order |
| OrderingTies.SortAfterFront | tests/test_misc.py:443-449 | the first item is the first index item by position when that position is at most 0; otherwise it is the first unconstrained item, when there is one |
| OrderingLaws.LastOrder | tests/test_misc.py:452-458 | `LAST` items are emitted in input order |
| OrderingLaws.TraverseOrder | tests/test_misc.py:443-449 | the main loop emits unconstrained items in input order and index items by position |
| OrderingLaws.PlaceJustified | tests/test_misc.py:461-477 | every waiting item `place(x)` emits comes after an emitted item of the name it follows |
| OrderingTies.PlaceFirstChild | tests/test_misc.py:461-467 | the first item waiting for `x` comes right behind `x` |
| OrderingTies.PlaceWaiting | tests/test_misc.py:470-477 | `place` keeps, across what it emits and what it leaves waiting, the input order of the items waiting for any one name |
| OrderingTies.TraverseWaiting | tests/test_misc.py:470-477 | so does the main loop |
| OrderingLaws.RunJustified | tests/test_misc.py:521-533 | every emitted `after=<name>` item comes after an emitted item of that name |
| OrderingLaws.SortAfterFollows | tests/test_misc.py:461-495 | in a successful result each `after=<name>` item comes after an item of that name |
| OrderingTies.SortAfterSameTarget | tests/test_misc.py:470-477 | in a successful result the items that follow any one name come in their input order |
| OrderingLaws.MissingNameReported | tests/test_misc.py:550-569 | following a name no item has is a `KeyError` whose sorted name list includes that name |
| OrderingLaws.StillWaiting | tests/test_misc.py:550-558 | an item whose target no item has is still waiting at the end |
| OrderingLaws.NoNamesSucceed | tests/test_misc.py:443-458 | without `after=<name>` items, `sort_after` always succeeds |
| OrderingTests.OrderAfterZero | tests/test_misc.py:443-449 | `after=0` goes first |
| OrderingTests.OrderAfterLast | tests/test_misc.py:452-458 | `after=LAST` goes last |
| OrderingTests.OrderAfterName | tests/test_misc.py:461-467 | `after='foo'` comes right after `foo` |
| OrderingTests.OrderAfterNameStable | tests/test_misc.py:470-477 | two items after the same name keep their input order |
| OrderingTests.OrderAfterNameInterleave | tests/test_misc.py:480-486 | an index counts the items already placed, including those placed by name |
| OrderingTests.OrderAfterNameLast | tests/test_misc.py:489-495 | an item may follow a `LAST` item |
| OrderingTests.OrderAfterComplete | tests/test_misc.py:498-518 | the fourteen items of the test come out in exactly the expected positions |
| OrderingTests.SortAfterChaining | tests/test_misc.py:520-524 | an item may follow an index item |
| OrderingTests.SortAfterNameChaining | tests/test_misc.py:527-532 | chains of names resolve transitively |
| OrderingTests.SortAfterIndexes | tests/test_misc.py:535-540 | index items come in the order of their positions, a negative one first |
| OrderingTests.PointsToNothing | tests/test_misc.py:550-558 | one missing name gives exactly the singular message |
| OrderingTests.PointsToNothingPlural | tests/test_misc.py:561-569 | two missing names give exactly the sorted, plural message |

## Left out

- `getattr_path`, `setattr_path`, `RefinableObject`, `refinable`, `class_shortcut`, `get_shortcuts_by_name`, `get_members`, `get_signature` and `full_function_name` (`tests/test_misc.py:42-66`, `tests/test_misc.py:625-1000`, `tests/test_misc.py:1028-1038`): they rest on Python's reflection over classes and attributes.
- `dispatch`'s signature binding, positional arguments, `functools.wraps` and the legacy form (`tests/test_misc.py:581-611`, `tests/test_misc.py:629-656`): only the stored defaults and their merge with the call-site keywords are modelled.
- Python callables are opaque function ids. A call is modelled as a single step (`Invoke` returns what would be called and with which keywords), and the callee is not run. A chained Shortcut is called in two steps, one `Invoke` each.
- `Invoke`: diagnostics raised while merging the call-site keywords are not reported.
- Python's `warnings` machinery is a returned list of messages.
- `repr` and `str` of a Namespace (`tests/test_misc.py:166-181`) are modelled only as far as the missing-call-target message needs, for ints, bools and strings without escaping.
- `assert_kwargs_empty` reads its caller's name from the call stack; here the name is a parameter.
- `Namespace` and `Struct` are one type in the model, and Python's `==` on them is dict equality (`Namespaces.Same`). Dict order is modelled by the item order, so most scenarios state equality of the item lists, which is stronger.
- `EMPTY`'s identity: values are not shared in the model, so `actual.x is not EMPTY` (`tests/test_misc.py:364-368`) has no counterpart. The frozen marker object refuses assignment.
- `tests/test_misc.py:330-351` (`test_merge`) is modelled by the general `MergeCases` laws for each row's shape. The parametrised rows are not instantiated one by one, and `flatten` is not applied to the arguments first.
- `tests/test_misc.py:100-140`, `tests/test_misc.py:143-149`, `tests/test_misc.py:371-376` and `tests/test_misc.py:411-422` have no scenario lemma. The general laws above cover the rules they rely on.
- `sort_after`: when no unconstrained item is left and the next index item's position is beyond the number of items emitted, tri.declarative's main loop never ends: it keeps checking that index item without emitting anything. The model instead takes the pending index items in order and goes on to a result, `Ok` when nothing is left waiting for a name. No test of the file reaches that case.
- `OrderingLaws.PlaceJustified`: states that each waiting item comes after some item of the name it follows, not that it sits right behind that item. Directness is proved only for the first waiting item, by `OrderingTies.PlaceFirstChild`; later ones come after the subtrees placed before them.
- `OrderingLaws.SortAfterFollows`: states "after an item of that name", not "directly after it". Items that follow the same name keep their input order by `OrderingTies.SortAfterSameTarget`, and the first of them comes right behind that name's item by `OrderingTies.PlaceFirstChild`.
- `OrderingLaws.SortAfterPermutes`: states the permutation only for a successful result, because a failing call returns the `KeyError` text instead of items.
- `NamespaceTests.SetItemSplitPath`: the test at `tests/test_misc.py:257-260` asserts only that a non-empty dict is true, because it lacks `== x`. The model proves the equality the test evidently means.
