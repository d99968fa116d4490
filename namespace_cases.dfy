/** Two-source constructions `Namespace(a, b)` in every combination the rules distinguish,
    each proved for all keys and values: what the merged Namespace is and what it warns. */
module MergeCases {
  import opened Paths
  import opened Namespaces
  import opened NamespaceLaws

  /** Construction from one source merges it into the empty Namespace. */
  lemma ConstructOne(a: Items)
    ensures Construct([a]) == MergeItems([], Nested(false, a), 0)
  {
    ConstructSnoc([], a);
    assert [] + [a] == [a];
  }

  /** Construction from two sources merges them in turn. */
  lemma ConstructTwo(a: Items, b: Items)
    ensures var m1 := MergeItems([], Nested(false, a), 0);
            var m2 := MergeItems(m1.items, Nested(false, b), 0);
            Construct([a, b]) == Built(m2.items, m1.diagnostics + m2.diagnostics)
  {
    ConstructOne(a);
    ConstructSnoc([a], b);
    assert [a] + [b] == [a, b];
  }

  /** A one-item source is one `setitem_path`. */
  lemma MergeOne(acc: Items, sc: bool, k: string, v: Value)
    ensures MergeItems(acc, Nested(sc, [(k, v)]), 0) == SetIn(acc, Split(k), v)
  {
    MergeStep(acc, Nested(sc, [(k, v)]), 0);
  }

  /** A two-item source is two `setitem_path`s. */
  lemma MergeTwo(acc: Items, sc: bool, k1: string, v1: Value, k2: string, v2: Value)
    ensures var b1 := SetIn(acc, Split(k1), v1);
            var b2 := SetIn(b1.items, Split(k2), v2);
            MergeItems(acc, Nested(sc, [(k1, v1), (k2, v2)]), 0) == Built(b2.items, b1.diagnostics + b2.diagnostics)
  {
    var src := Nested(sc, [(k1, v1), (k2, v2)]);
    var b1 := SetIn(acc, Split(k1), v1);
    var b2 := SetIn(b1.items, Split(k2), v2);
    MergeStep(acc, src, 0);
    MergeStep(b1.items, src, 1);
    assert MergeItems(b2.items, src, 2) == Built(b2.items, []);
    assert b2.diagnostics + [] == b2.diagnostics;
  }

  /** A source whose keys are distinct segments builds a Namespace holding exactly its items. */
  lemma ConstructFresh(a: Items)
    requires UniqueKeys(a) && forall j :: 0 <= j < |a| ==> IsSegment(a[j].0)
    ensures Construct([a]) == Built(a, [])
  {
    ConstructOne(a);
    MergeFresh([], Nested(false, a), 0);
    assert a[0..] == a;
  }

  /** A second source of new segment keys is appended after the first. */
  lemma ConstructFreshTwo(a: Items, b: Items)
    requires UniqueKeys(a) && forall j :: 0 <= j < |a| ==> IsSegment(a[j].0)
    requires UniqueKeys(b) && forall j :: 0 <= j < |b| ==> IsSegment(b[j].0) && !Has(a, b[j].0)
    ensures Construct([a, b]) == Built(a + b, [])
  {
    ConstructTwo(a, b);
    MergeAllFresh([], a);
    assert [] + a == a;
    MergeAllFresh(a, b);
  }

  /** Merging a source whose keys are distinct segments absent from `acc` appends it. */
  lemma MergeAllFresh(acc: Items, b: Items)
    requires UniqueKeys(b) && forall j :: 0 <= j < |b| ==> IsSegment(b[j].0) && !Has(acc, b[j].0)
    ensures MergeItems(acc, Nested(false, b), 0) == Built(acc + b, [])
  {
    MergeFresh(acc, Nested(false, b), 0);
    assert b[0..] == b;
  }

  /** The items of one source are written one after another: a source of two items builds
      what two one-item sources build. */
  lemma OneSourceTwoItems(a: (string, Value), b: (string, Value))
    ensures Construct([[a, b]]) == Construct([[a], [b]])
  {
    ConstructOne([a, b]);
    MergeTwo([], false, a.0, a.1, b.0, b.1);
    ConstructTwo([a], [b]);
    MergeOne([], false, a.0, a.1);
    MergeOne(SetIn([], Split(a.0), a.1).items, false, b.0, b.1);
  }

  /** A path `pre__p` whose last segment is new below an existing Namespace at `pre` adds it there. */
  lemma PathIntoNested(s: Items, j: nat, sc: bool, its: Items, pre: string, p: string, v: Value)
    requires UniqueKeys(s) && j < |s| && s[j] == (pre, Nested(sc, its))
    requires IsSegment(pre) && IsSegment(p) && |pre| > 0 && pre[|pre| - 1] != '_' && !Has(its, p)
    ensures SetIn(s, Split(pre + Separator + p), v) == Built(s[j := (pre, Nested(sc, its + [(p, v)]))], [])
  {
    SplitTwo(pre, p);
    assert Write(Nested(sc, its), [p], v) == Written(Nested(sc, its + [(p, v)]), []) by {
      SetInFresh(its, [p], v);
      assert [p][1..] == [];
    }
    assert IndexOf(s, pre) == j;
    SetInStep(s, [pre, p], v);
    assert [pre, p][1..] == [p];
  }

  /** Splitting `a__b` where `a` and `b` are segments. */
  lemma SplitTwo(a: string, b: string)
    requires IsSegment(a) && IsSegment(b) && |a| > 0 && a[|a| - 1] != '_'
    ensures Split(a + Separator + b) == [a, b]
  {
    SplitAppend(a, b);
    SplitSegment(a);
    SplitSegment(b);
  }

  /** One source holding one key gives the chain its path describes. */
  lemma FirstSource(key: string, v: Value)
    ensures Construct([[(key, v)]]) == Built([(Split(key)[0], Chain(Split(key)[1..], v))], [])
  {
    ConstructOne([(key, v)]);
    MergeOne([], false, key, v);
    SetInFresh([], Split(key), v);
  }

  /** A second one-key source is one `setitem_path` on what the first built. */
  lemma SecondSource(a: Items, key: string, v: Value)
    ensures var first := Construct([a]);
            var b := SetIn(first.items, Split(key), v);
            Construct([a, [(key, v)]]) == Built(b.items, first.diagnostics + b.diagnostics)
  {
    ConstructSnoc([a], [(key, v)]);
    assert [a] + [[(key, v)]] == [a, [(key, v)]];
    MergeOne(Construct([a]).items, false, key, v);
  }

  /** Two keys whose first segments differ end up side by side, in writing order. */
  lemma DistinctHeads(k1: string, v1: Value, k2: string, v2: Value)
    requires Split(k1)[0] != Split(k2)[0]
    ensures Construct([[(k1, v1)], [(k2, v2)]]) ==
            Built([(Split(k1)[0], Chain(Split(k1)[1..], v1)), (Split(k2)[0], Chain(Split(k2)[1..], v2))], [])
  {
    FirstSource(k1, v1);
    SecondSource([(k1, v1)], k2, v2);
    var m1 := [(Split(k1)[0], Chain(Split(k1)[1..], v1))];
    assert IndexOf(m1, Split(k2)[0]) == 1;
    SetInFresh(m1, Split(k2), v2);
  }

  /** The first source's key, `pre__p`, as a chain ending in the chain of `p`. */
  lemma FirstPathSource(pre: string, p: string, v: Value)
    requires |pre| == 0 || pre[|pre| - 1] != '_'
    ensures var q := Split(pre);
            Construct([[(pre + Separator + p, v)]]) == Built([(q[0], Chain(q[1..], Chain(Split(p), v)))], [])
  {
    SplitAppend(pre, p);
    FirstSource(pre + Separator + p, v);
    var q := Split(pre);
    assert (q + Split(p))[0] == q[0];
    assert (q + Split(p))[1..] == q[1..] + Split(p);
    ChainAppend(q[1..], Split(p), v);
  }

  /** A string followed by a deeper path: `{s: True}` plus the path, and one "previous" diagnostic. */
  lemma StringThenPath(pre: string, s: string, p: string, v: Value)
    requires |pre| == 0 || pre[|pre| - 1] != '_'
    requires IsSegment(s) && s != Split(p)[0]
    ensures var q := Split(pre);
            var t := Split(p);
            Construct([[(pre, Str(s))], [(pre + Separator + p, v)]]) ==
            Built([(q[0], Chain(q[1..], Nested(false, [(s, Bool(true)), (t[0], Chain(t[1..], v))])))], [PreviousMessage(s)])
  {
    var q := Split(pre);
    var t := Split(p);
    var m1 := [(q[0], Chain(q[1..], Str(s)))];
    FirstSource(pre, Str(s));
    assert Construct([[(pre, Str(s))]]) == Built(m1, []);
    SecondSource([(pre, Str(s))], pre + Separator + p, v);
    SplitAppend(pre, p);
    var b := SetIn(m1, q + t, v);
    assert Construct([[(pre, Str(s))], [(pre + Separator + p, v)]]) == Built(b.items, b.diagnostics);
    PromoteWrite(s, t, v);
    var w := Write(Str(s), t, v);
    ChainSetIn(q, Str(s), t, v);
    assert b == Built([(q[0], Chain(q[1..], w.value))], w.diagnostics);
  }

  /** Writing a path below a string: the diagnostic, then the path written into `{s: True}`. */
  lemma PromoteWrite(s: string, t: seq<string>, v: Value)
    requires IsSegment(s) && |t| >= 1 && s != t[0]
    ensures Write(Str(s), t, v) == Written(Nested(false, [(s, Bool(true)), (t[0], Chain(t[1..], v))]), [PreviousMessage(s)])
  {
    SplitSegment(s);
    assert Promoted(s) == [(s, Bool(true))];
    assert IndexOf([(s, Bool(true))], t[0]) == 1;
    SetInFresh([(s, Bool(true))], t, v);
    var b := SetIn(Promoted(s), t, v);
    assert Write(Str(s), t, v) == Written(Nested(false, b.items), [PreviousMessage(s)] + b.diagnostics);
    assert [PreviousMessage(s)] + [] == [PreviousMessage(s)];
    assert [(s, Bool(true))] + [(t[0], Chain(t[1..], v))] == [(s, Bool(true)), (t[0], Chain(t[1..], v))];
  }

  /** Writing a path that leaves a chain at its first segment adds a sibling there. */
  lemma WriteChainFresh(t1: seq<string>, v1: Value, t2: seq<string>, v2: Value)
    requires |t1| >= 1 && |t2| >= 1 && t1[0] != t2[0]
    ensures Write(Chain(t1, v1), t2, v2) ==
            Written(Nested(false, [(t1[0], Chain(t1[1..], v1)), (t2[0], Chain(t2[1..], v2))]), [])
  {
    var inner := [(t1[0], Chain(t1[1..], v1))];
    assert IndexOf(inner, t2[0]) == 1;
    SetInFresh(inner, t2, v2);
    assert inner + [(t2[0], Chain(t2[1..], v2))] == [(t1[0], Chain(t1[1..], v1)), (t2[0], Chain(t2[1..], v2))];
  }

  /** A string written onto a chain joins it as `s: True`, with the "written" diagnostic. */
  lemma WriteStringOnChain(t: seq<string>, v: Value, s: string)
    requires |t| >= 1 && IsSegment(s) && t[0] != s
    ensures Write(Chain(t, v), [], Str(s)) ==
            Written(Nested(false, [(t[0], Chain(t[1..], v)), (s, Bool(true))]), [WrittenMessage(s)])
  {
    var inner := [(t[0], Chain(t[1..], v))];
    SplitSegment(s);
    assert IndexOf(inner, s) == 1;
    SetInFresh(inner, [s], Bool(true));
    var b := SetIn(inner, [s], Bool(true));
    assert Write(Chain(t, v), [], Str(s)) == Written(Nested(false, b.items), [WrittenMessage(s)] + b.diagnostics);
    assert [WrittenMessage(s)] + [] == [WrittenMessage(s)];
    assert inner + [(s, Chain([], Bool(true)))] == [(t[0], Chain(t[1..], v)), (s, Bool(true))];
  }

  /** A path written below a function promotes it to `{call_target: f, ...}`. */
  lemma WriteBelowFunction(f: FuncId, t: seq<string>, v: Value)
    requires |t| >= 1 && t[0] != CallTarget
    ensures Write(Func(f), t, v) ==
            Written(Nested(false, [(CallTarget, Func(f)), (t[0], Chain(t[1..], v))]), [])
  {
    assert IndexOf([(CallTarget, Func(f))], t[0]) == 1;
    SetInFresh([(CallTarget, Func(f))], t, v);
    assert [(CallTarget, Func(f))] + [(t[0], Chain(t[1..], v))] == [(CallTarget, Func(f)), (t[0], Chain(t[1..], v))];
  }

  /** A function written onto a chain joins it as `call_target`. */
  lemma WriteFunctionOnChain(t: seq<string>, v: Value, f: FuncId)
    requires |t| >= 1 && t[0] != CallTarget
    ensures Write(Chain(t, v), [], Func(f)) ==
            Written(Nested(false, [(t[0], Chain(t[1..], v)), (CallTarget, Func(f))]), [])
  {
    var inner := [(t[0], Chain(t[1..], v))];
    assert IndexOf(inner, CallTarget) == 1;
    assert Put(inner, CallTarget, Func(f)) == inner + [(CallTarget, Func(f))];
    assert inner + [(CallTarget, Func(f))] == [(t[0], Chain(t[1..], v)), (CallTarget, Func(f))];
  }

  /** A path written below a plain scalar replaces it by the path's chain. */
  lemma WriteBelowScalar(x: Value, t: seq<string>, v: Value)
    requires |t| >= 1 && PlainScalar(x)
    ensures Write(x, t, v) == Written(Chain(t, v), [])
  {
    SetInFresh([], t, v);
    assert [] + [(t[0], Chain(t[1..], v))] == [(t[0], Chain(t[1..], v))];
    assert Write(x, t, v) == Written(Nested(false, SetIn([], t, v).items), SetIn([], t, v).diagnostics);
  }

  /** Two keys under a common prefix whose next segments differ are merged below the prefix. */
  lemma SharedPrefix(pre: string, p1: string, v1: Value, p2: string, v2: Value)
    requires |pre| == 0 || pre[|pre| - 1] != '_'
    requires Split(p1)[0] != Split(p2)[0]
    ensures var q := Split(pre);
            var s1 := Split(p1); var s2 := Split(p2);
            Construct([[(pre + Separator + p1, v1)], [(pre + Separator + p2, v2)]]) ==
            Built([(q[0], Chain(q[1..], Nested(false, [(s1[0], Chain(s1[1..], v1)), (s2[0], Chain(s2[1..], v2))])))], [])
  {
    var q := Split(pre);
    var s1 := Split(p1); var s2 := Split(p2);
    var m1 := [(q[0], Chain(q[1..], Chain(s1, v1)))];
    FirstPathSource(pre, p1, v1);
    assert Construct([[(pre + Separator + p1, v1)]]) == Built(m1, []);
    SecondSource([(pre + Separator + p1, v1)], pre + Separator + p2, v2);
    SplitAppend(pre, p2);
    var b := SetIn(m1, q + s2, v2);
    assert Construct([[(pre + Separator + p1, v1)], [(pre + Separator + p2, v2)]]) == Built(b.items, b.diagnostics);
    WriteChainFresh(s1, v1, s2, v2);
    var w := Write(Chain(s1, v1), s2, v2);
    ChainSetIn(q, Chain(s1, v1), s2, v2);
    assert b == Built([(q[0], Chain(q[1..], w.value))], w.diagnostics);
  }

  /** A deeper path followed by a string: the string joins as `s: True`, with one "written" diagnostic. */
  lemma PathThenString(pre: string, p: string, v: Value, s: string)
    requires |pre| == 0 || pre[|pre| - 1] != '_'
    requires IsSegment(s) && s != Split(p)[0]
    ensures var q := Split(pre);
            var t := Split(p);
            Construct([[(pre + Separator + p, v)], [(pre, Str(s))]]) ==
            Built([(q[0], Chain(q[1..], Nested(false, [(t[0], Chain(t[1..], v)), (s, Bool(true))])))], [WrittenMessage(s)])
  {
    var q := Split(pre);
    var t := Split(p);
    var m1 := [(q[0], Chain(q[1..], Chain(t, v)))];
    FirstPathSource(pre, p, v);
    assert Construct([[(pre + Separator + p, v)]]) == Built(m1, []);
    SecondSource([(pre + Separator + p, v)], pre, Str(s));
    assert q + [] == q;
    var b := SetIn(m1, q + [], Str(s));
    assert Construct([[(pre + Separator + p, v)], [(pre, Str(s))]]) == Built(b.items, b.diagnostics);
    WriteStringOnChain(t, v, s);
    var w := Write(Chain(t, v), [], Str(s));
    ChainSetIn(q, Chain(t, v), [], Str(s));
    assert b == Built([(q[0], Chain(q[1..], w.value))], w.diagnostics);
  }

  /** A function followed by a deeper path: `{call_target: f, ...}`. */
  lemma FunctionThenPath(pre: string, f: FuncId, p: string, v: Value)
    requires |pre| == 0 || pre[|pre| - 1] != '_'
    requires Split(p)[0] != CallTarget
    ensures var q := Split(pre);
            var t := Split(p);
            Construct([[(pre, Func(f))], [(pre + Separator + p, v)]]) ==
            Built([(q[0], Chain(q[1..], Nested(false, [(CallTarget, Func(f)), (t[0], Chain(t[1..], v))])))], [])
  {
    var q := Split(pre);
    var t := Split(p);
    var m1 := [(q[0], Chain(q[1..], Func(f)))];
    FirstSource(pre, Func(f));
    assert Construct([[(pre, Func(f))]]) == Built(m1, []);
    SecondSource([(pre, Func(f))], pre + Separator + p, v);
    SplitAppend(pre, p);
    var b := SetIn(m1, q + t, v);
    assert Construct([[(pre, Func(f))], [(pre + Separator + p, v)]]) == Built(b.items, b.diagnostics);
    WriteBelowFunction(f, t, v);
    var w := Write(Func(f), t, v);
    ChainSetIn(q, Func(f), t, v);
    assert b == Built([(q[0], Chain(q[1..], w.value))], w.diagnostics);
  }

  /** A deeper path followed by a function: the function joins as `call_target`. */
  lemma PathThenFunction(pre: string, p: string, v: Value, f: FuncId)
    requires |pre| == 0 || pre[|pre| - 1] != '_'
    requires Split(p)[0] != CallTarget
    ensures var q := Split(pre);
            var t := Split(p);
            Construct([[(pre + Separator + p, v)], [(pre, Func(f))]]) ==
            Built([(q[0], Chain(q[1..], Nested(false, [(t[0], Chain(t[1..], v)), (CallTarget, Func(f))])))], [])
  {
    var q := Split(pre);
    var t := Split(p);
    var m1 := [(q[0], Chain(q[1..], Chain(t, v)))];
    FirstPathSource(pre, p, v);
    assert Construct([[(pre + Separator + p, v)]]) == Built(m1, []);
    SecondSource([(pre + Separator + p, v)], pre, Func(f));
    assert q + [] == q;
    var b := SetIn(m1, q + [], Func(f));
    assert Construct([[(pre + Separator + p, v)], [(pre, Func(f))]]) == Built(b.items, b.diagnostics);
    WriteFunctionOnChain(t, v, f);
    var w := Write(Chain(t, v), [], Func(f));
    ChainSetIn(q, Chain(t, v), [], Func(f));
    assert b == Built([(q[0], Chain(q[1..], w.value))], w.diagnostics);
  }

  /** A plain scalar followed by a deeper path: a plain replacement by the path's chain. */
  lemma ScalarThenDeeperPath(pre: string, x: Value, p: string, v: Value)
    requires |pre| == 0 || pre[|pre| - 1] != '_'
    requires PlainScalar(x)
    ensures var q := Split(pre);
            var t := Split(p);
            Construct([[(pre, x)], [(pre + Separator + p, v)]]) ==
            Built([(q[0], Chain(q[1..], Chain(t, v)))], [])
  {
    var q := Split(pre);
    var t := Split(p);
    var m1 := [(q[0], Chain(q[1..], x))];
    FirstSource(pre, x);
    assert Construct([[(pre, x)]]) == Built(m1, []);
    SecondSource([(pre, x)], pre + Separator + p, v);
    SplitAppend(pre, p);
    var b := SetIn(m1, q + t, v);
    assert Construct([[(pre, x)], [(pre + Separator + p, v)]]) == Built(b.items, b.diagnostics);
    WriteBelowScalar(x, t, v);
    var w := Write(x, t, v);
    ChainSetIn(q, x, t, v);
    assert b == Built([(q[0], Chain(q[1..], w.value))], w.diagnostics);
  }

  /** A function followed by a Namespace with new segment keys: the function becomes its `call_target`. */
  lemma FunctionThenNamespace(pre: string, f: FuncId, src: Items)
    requires UniqueKeys(src)
    requires forall j :: 0 <= j < |src| ==> IsSegment(src[j].0) && src[j].0 != CallTarget
    ensures var q := Split(pre);
            Construct([[(pre, Func(f))], [(pre, Nested(false, src))]]) ==
            Built([(q[0], Chain(q[1..], Nested(false, [(CallTarget, Func(f))] + src)))], [])
  {
    var q := Split(pre);
    FirstSource(pre, Func(f));
    SecondSource([(pre, Func(f))], pre, Nested(false, src));
    assert q + [] == q;
    ChainSetIn(q, Func(f), [], Nested(false, src));
    NamespaceOntoFunction(f, src);
  }

  /** A Namespace written over a function keeps the function as its `call_target`. */
  lemma NamespaceOntoFunction(f: FuncId, src: Items)
    requires UniqueKeys(src)
    requires forall j :: 0 <= j < |src| ==> IsSegment(src[j].0) && src[j].0 != CallTarget
    ensures Write(Func(f), [], Nested(false, src)) == Written(Nested(false, [(CallTarget, Func(f))] + src), [])
  {
    forall j | 0 <= j < |src| ensures !Has([(CallTarget, Func(f))], src[j].0) {
      assert IndexOf([(CallTarget, Func(f))], src[j].0) == 1;
    }
    MergeFresh([(CallTarget, Func(f))], Nested(false, src), 0);
    assert src[0..] == src;
  }

  /** A plain scalar written over anything at the same key replaces it. */
  lemma ScalarOverwrites(pre: string, x: Value, y: Value)
    requires PlainScalar(y)
    ensures var q := Split(pre);
            Construct([[(pre, x)], [(pre, y)]]) == Built([(q[0], Chain(q[1..], y))], [])
  {
    var q := Split(pre);
    FirstSource(pre, x);
    SecondSource([(pre, x)], pre, y);
    assert q + [] == q;
    ChainSetIn(q, x, [], y);
  }

  /** A deeper path followed by a plain scalar: the scalar replaces the Namespace. */
  lemma DeeperPathThenScalar(pre: string, p: string, v: Value, x: Value)
    requires |pre| == 0 || pre[|pre| - 1] != '_'
    requires PlainScalar(x)
    ensures var q := Split(pre);
            Construct([[(pre + Separator + p, v)], [(pre, x)]]) == Built([(q[0], Chain(q[1..], x))], [])
  {
    var q := Split(pre);
    FirstPathSource(pre, p, v);
    SecondSource([(pre + Separator + p, v)], pre, x);
    assert q + [] == q;
    ChainSetIn(q, Chain(Split(p), v), [], x);
    ScalarWrite(Chain(Split(p), v), x);
  }

  /** A Shortcut overwritten by a plain Namespace at the same key is replaced outright. */
  lemma ShortcutThenNamespace(pre: string, a: Items, b: Items)
    ensures var q := Split(pre);
            Construct([[(pre, Nested(true, a))], [(pre, Nested(false, b))]]) == Built([(q[0], Chain(q[1..], Nested(false, b)))], [])
  {
    var q := Split(pre);
    FirstSource(pre, Nested(true, a));
    SecondSource([(pre, Nested(true, a))], pre, Nested(false, b));
    assert q + [] == q;
    ChainSetIn(q, Nested(true, a), [], Nested(false, b));
  }

  /** A plain Namespace followed by a Shortcut with new segment keys is merged into, keeping its tag. */
  lemma NamespaceThenShortcut(pre: string, a: Items, b: Items)
    requires UniqueKeys(b)
    requires forall j :: 0 <= j < |b| ==> IsSegment(b[j].0) && !Has(a, b[j].0)
    ensures var q := Split(pre);
            Construct([[(pre, Nested(false, a))], [(pre, Nested(true, b))]]) == Built([(q[0], Chain(q[1..], Nested(false, a + b)))], [])
  {
    var q := Split(pre);
    FirstSource(pre, Nested(false, a));
    SecondSource([(pre, Nested(false, a))], pre, Nested(true, b));
    assert q + [] == q;
    ChainSetIn(q, Nested(false, a), [], Nested(true, b));
    ShortcutOntoPlain(a, b);
  }

  lemma ShortcutOntoPlain(a: Items, b: Items)
    requires UniqueKeys(b)
    requires forall j :: 0 <= j < |b| ==> IsSegment(b[j].0) && !Has(a, b[j].0)
    ensures Write(Nested(false, a), [], Nested(true, b)) == Written(Nested(false, a + b), [])
  {
    MergeFresh(a, Nested(true, b), 0);
    assert b[0..] == b;
  }

  /** One source holding a segment key and then a two-segment path below a new key. */
  lemma SegmentThenPath(k1: string, v1: Value, pre: string, p: string, v2: Value)
    requires IsSegment(k1) && IsSegment(pre) && IsSegment(p) && k1 != pre
    requires |pre| > 0 && pre[|pre| - 1] != '_'
    ensures Construct([[(k1, v1), (pre + Separator + p, v2)]]) == Built([(k1, v1), (pre, Nested(false, [(p, v2)]))], [])
  {
    FreshKey(k1, v1);
    FreshPath([(k1, v1)], pre, p, v2);
    ConstructOne([(k1, v1), (pre + Separator + p, v2)]);
    MergeTwo([], false, k1, v1, pre + Separator + p, v2);
  }

  lemma FreshKey(k: string, v: Value)
    requires IsSegment(k)
    ensures SetIn([], Split(k), v) == Built([(k, v)], [])
  {
    SplitSegment(k);
    SetInFresh([], [k], v);
    assert [] + [(k, v)] == [(k, v)];
  }

  lemma FreshPath(s: Items, pre: string, p: string, v: Value)
    requires IsSegment(pre) && IsSegment(p) && !Has(s, pre)
    requires |pre| > 0 && pre[|pre| - 1] != '_'
    ensures SetIn(s, Split(pre + Separator + p), v) == Built(s + [(pre, Nested(false, [(p, v)]))], [])
  {
    SplitTwo(pre, p);
    SetInFresh(s, [pre, p], v);
    assert [pre, p][1..] == [p];
  }

  /** A segment key is appended to a Namespace that lacks it. */
  lemma FreshSegment(s: Items, k: string, v: Value)
    requires IsSegment(k) && !Has(s, k)
    ensures SetIn(s, Split(k), v) == Built(s + [(k, v)], [])
  {
    SplitSegment(k);
    SetInFresh(s, [k], v);
    assert [k][1..] == [];
  }

  /** A merge step that emits no warning moves on with the written items. */
  lemma QuietStep(acc: Items, src: Value, i: nat, next: Items)
    requires src.Nested? && i < |src.items|
    requires SetIn(acc, Split(src.items[i].0), src.items[i].1) == Built(next, [])
    ensures MergeItems(acc, src, i) == MergeItems(next, src, i + 1)
  {
    MergeStep(acc, src, i);
  }

  /** Two keys in either order under one key are the same Namespace. */
  lemma SwapSame(k: string, k1: string, v1: Value, k2: string, v2: Value)
    requires k1 != k2 && !v1.Nested? && !v2.Nested?
    ensures Same(Nested(false, [(k, Nested(false, [(k1, v1), (k2, v2)]))]),
                 Nested(false, [(k, Nested(false, [(k2, v2), (k1, v1)]))]))
  {
    var a := [(k1, v1), (k2, v2)];
    var b := [(k2, v2), (k1, v1)];
    assert b[1..] == [(k1, v1)] && a[1..] == [(k2, v2)];
    assert IndexOf(b, k1) == 1 && IndexOf(b, k2) == 0;
    assert Same(Nested(false, a), Nested(false, b));
    assert IndexOf([(k, Nested(false, b))], k) == 0;
  }

  /** A last source with nothing in it leaves what the others built. */
  lemma ConstructEmptyLast(sources: seq<Items>)
    ensures Construct(sources + [[]]).items == Construct(sources).items
  {
    ConstructSnoc(sources, []);
  }

  /** `setdefaults_path` onto an empty target with one default: the Namespace of that default. */
  lemma SetDefaultsOntoEmpty(d: Items)
    ensures SetDefaults([], [d]).items == Construct([d]).items
  {
    assert Reverse([d]) == [d];
    ConstructEmptyLast([d]);
  }

  /** `call_target` is a single segment. */
  lemma CallTargetSegment()
    ensures IsSegment(CallTarget) && Split(CallTarget) == [CallTarget]
  {
    SplitSegment(CallTarget);
  }
}
