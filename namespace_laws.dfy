/** The rules of `setitem_path` and of the merge, stated for all inputs. */
module NamespaceLaws {
  import opened Paths
  import opened Namespaces

  /** Writing below a missing key builds a fresh chain of single-key Namespaces. */
  lemma {:induction false} WriteFresh(p: seq<string>, v: Value)
    ensures Write(Null, p, v) == Written(Chain(p, v), [])
    decreases |p|
  {
    if |p| > 0 {
      WriteFresh(p[1..], v);
      var w := Write(Null, p[1..], v);
      assert IndexOf<Value>([], p[0]) == 0;
      assert SetIn([], p, v) == Built(Put([], p[0], w.value), w.diagnostics);
      assert Put([], p[0], w.value) == [(p[0], w.value)];
    }
  }

  /** A path whose first segment is a new key appends that key, holding the chain, and warns about nothing. */
  lemma SetInFresh(items: Items, path: seq<string>, v: Value)
    requires |path| >= 1 && !Has(items, path[0])
    ensures SetIn(items, path, v) == Built(items + [(path[0], Chain(path[1..], v))], [])
  {
    WriteFresh(path[1..], v);
  }

  /** One step of `setitem_path`: the first segment's slot is rewritten from what it held. */
  lemma SetInStep(items: Items, path: seq<string>, v: Value)
    requires |path| >= 1
    ensures var w := Write(Get(items, path[0]), path[1..], v);
            SetIn(items, path, v) == Built(Put(items, path[0], w.value), w.diagnostics)
  {
  }

  /** One step of the merge: the item at `i` is written, then the rest. */
  lemma MergeStep(acc: Items, src: Value, i: nat)
    requires src.Nested? && i < |src.items|
    ensures var b := SetIn(acc, Split(src.items[i].0), src.items[i].1);
            var rest := MergeItems(b.items, src, i + 1);
            MergeItems(acc, src, i) == Built(rest.items, b.diagnostics + rest.diagnostics)
  {
  }

  /** Merging a Namespace whose keys are distinct new segments appends its items unchanged. */
  lemma {:induction false} MergeFresh(acc: Items, src: Value, i: nat)
    requires src.Nested? && i <= |src.items|
    requires UniqueKeys(src.items)
    requires forall j :: i <= j < |src.items| ==> IsSegment(src.items[j].0) && !Has(acc, src.items[j].0)
    ensures MergeItems(acc, src, i) == Built(acc + src.items[i..], [])
    decreases |src.items| - i
  {
    if i < |src.items| {
      var acc' := acc + [src.items[i]];
      FreshMergeStep(acc, src, i);
      FreshStaysFresh(acc, src, i);
      MergeFresh(acc', src, i + 1);
      AppendShift(acc, src.items, i);
    }
  }

  lemma AppendShift(acc: Items, s: Items, i: nat)
    requires i < |s|
    ensures acc + [s[i]] + s[i + 1..] == acc + s[i..]
  {
    assert s[i..] == [s[i]] + s[i + 1..];
  }

  /** A new segment key is appended, and the merge goes on from there. */
  lemma FreshMergeStep(acc: Items, src: Value, i: nat)
    requires src.Nested? && i < |src.items|
    requires IsSegment(src.items[i].0) && !Has(acc, src.items[i].0)
    ensures MergeItems(acc, src, i) == MergeItems(acc + [src.items[i]], src, i + 1)
  {
    var k := src.items[i].0;
    var x := src.items[i].1;
    assert SetIn(acc, Split(k), x) == Built(acc + [(k, x)], []) by {
      SplitSegment(k);
      SetInFresh(acc, [k], x);
      assert [k][1..] == [];
    }
    MergeStep(acc, src, i);
  }

  /** The keys after `i` are still missing once the key at `i` is appended. */
  lemma FreshStaysFresh(acc: Items, src: Value, i: nat)
    requires src.Nested? && i < |src.items| && UniqueKeys(src.items)
    requires forall j :: i <= j < |src.items| ==> !Has(acc, src.items[j].0)
    ensures forall j :: i + 1 <= j < |src.items| ==> !Has(acc + [src.items[i]], src.items[j].0)
  {
    forall j | i + 1 <= j < |src.items| ensures !Has(acc + [src.items[i]], src.items[j].0) {
      assert src.items[j].0 != src.items[i].0;
      IndexOfAppend(acc, src.items[i].0, src.items[i].1, src.items[j].0);
    }
  }

  /** A plain scalar written at a path is what the path then reads, whatever was in the way. */
  lemma {:induction false} PlainWriteWins(items: Items, path: seq<string>, v: Value)
    requires |path| >= 1 && PlainScalar(v)
    ensures Lookup(SetIn(items, path, v).items, path) == v
    decreases |path|
  {
    var e := Get(items, path[0]);
    SetInStep(items, path, v);
    if |path| > 1 {
      match e
      case Nested(_, its) => PlainWriteWins(its, path[1..], v);
      case Func(_) => PlainWriteWins([(CallTarget, e)], path[1..], v);
      case Str(s) => PlainWriteWins(Promoted(s), path[1..], v);
      case _ => PlainWriteWins([], path[1..], v);
    }
  }

  /** `path` passes through Namespaces only, so writing below it promotes nothing. */
  predicate NestedAlong(items: Items, p: seq<string>)
    decreases |p|
  {
    |p| == 0 || (Get(items, p[0]).Nested? && NestedAlong(Get(items, p[0]).items, p[1..]))
  }

  /** Siblings survive: a path `q` that leaves `path` at position `m`, below Namespaces only,
      reads the same before and after the write. */
  lemma {:induction false} SiblingKept(items: Items, path: seq<string>, q: seq<string>, m: nat, v: Value)
    requires m < |path| && m < |q| && path[..m] == q[..m] && path[m] != q[m]
    requires NestedAlong(items, path[..m])
    ensures Lookup(SetIn(items, path, v).items, q) == Lookup(items, q)
    decreases m
  {
    var r := SetIn(items, path, v).items;
    if m > 0 {
      assert path[0] == q[0] by { assert path[..m][0] == q[..m][0]; }
      var e := Get(items, path[0]);
      assert e.Nested? by { assert path[..m][0] == path[0]; }
      assert path[..m][1..] == path[1..][..m - 1];
      assert q[..m][1..] == q[1..][..m - 1];
      SiblingKept(e.items, path[1..], q[1..], m - 1, v);
      SetInStep(items, path, v);
    }
  }

  /** A plain scalar followed by a deeper path is a plain replacement (no promotion, no warning). */
  lemma ScalarThenPath(items: Items, path: seq<string>, v: Value)
    requires |path| >= 2 && PlainScalar(Get(items, path[0]))
    ensures Get(SetIn(items, path, v).items, path[0]) == Chain(path[1..], v)
    ensures SetIn(items, path, v).diagnostics == []
  {
    SetInStep(items, path, v);
    SetInFresh([], path[1..], v);
    assert path[1..][1..] == path[2..];
  }

  /** A function that gains a nested key becomes `{call_target: f, key: ...}`. */
  lemma FunctionGainsPath(items: Items, path: seq<string>, v: Value, f: FuncId)
    requires |path| >= 2 && Get(items, path[0]) == Func(f) && path[1] != CallTarget
    ensures Get(SetIn(items, path, v).items, path[0]) ==
            Nested(false, [(CallTarget, Func(f)), (path[1], Chain(path[2..], v))])
    ensures SetIn(items, path, v).diagnostics == []
  {
    SetInStep(items, path, v);
    assert IndexOf([(CallTarget, Func(f))], path[1]) == 1;
    SetInFresh([(CallTarget, Func(f))], path[1..], v);
    assert path[1..][1..] == path[2..];
  }

  /** A function overwritten by a Namespace with new segment keys keeps the function as its
      `call_target`, ahead of those keys; the Namespace's tag is kept. */
  lemma FunctionGainsNamespace(items: Items, k: string, f: FuncId, sc: bool, src: Items)
    requires Get(items, k) == Func(f)
    requires UniqueKeys(src)
    requires forall j :: 0 <= j < |src| ==> IsSegment(src[j].0) && src[j].0 != CallTarget
    ensures Get(SetIn(items, [k], Nested(sc, src)).items, k) == Nested(sc, [(CallTarget, Func(f))] + src)
    ensures SetIn(items, [k], Nested(sc, src)).diagnostics == []
  {
    SetInStep(items, [k], Nested(sc, src));
    forall j | 0 <= j < |src| ensures !Has([(CallTarget, Func(f))], src[j].0) {
      assert IndexOf([(CallTarget, Func(f))], src[j].0) == 1;
    }
    MergeFresh([(CallTarget, Func(f))], Nested(sc, src), 0);
    assert src[0..] == src;
  }

  /** A function written onto a Namespace becomes its `call_target`; every other key stays. */
  lemma FunctionIntoNamespace(items: Items, k: string, sc: bool, its: Items, f: FuncId)
    requires Get(items, k) == Nested(sc, its) && !Get(its, CallTarget).Nested?
    ensures var n := Get(SetIn(items, [k], Func(f)).items, k);
      && n.Nested? && n.shortcut == sc
      && Get(n.items, CallTarget) == Func(f)
      && KeySet(n.items) == KeySet(its) + {CallTarget}
      && forall k' :: k' != CallTarget ==> Get(n.items, k') == Get(its, k')
    ensures SetIn(items, [k], Func(f)).diagnostics == []
  {
    SetInStep(items, [k], Func(f));
  }

  /** A string in the way of a deeper path becomes `{s: True}` and the path is written into it,
      with exactly one diagnostic naming the previous value. */
  lemma PreviousStringPromoted(items: Items, path: seq<string>, v: Value, s: string)
    requires |path| >= 2 && Get(items, path[0]) == Str(s)
    requires IsSegment(s) && s != path[1]
    ensures Get(SetIn(items, path, v).items, path[0]) ==
            Nested(false, [(s, Bool(true)), (path[1], Chain(path[2..], v))])
    ensures SetIn(items, path, v).diagnostics == [PreviousMessage(s)]
  {
    SetInStep(items, path, v);
    SplitSegment(s);
    assert Promoted(s) == [(s, Bool(true))];
    assert IndexOf([(s, Bool(true))], path[1]) == 1;
    SetInFresh([(s, Bool(true))], path[1..], v);
    assert path[1..][1..] == path[2..];
  }

  /** A string written onto a Namespace adds the key `s` holding True, with exactly one diagnostic
      naming the written value; the rest of the Namespace and its tag are kept. */
  lemma WrittenStringPromoted(items: Items, k: string, sc: bool, its: Items, s: string)
    requires Get(items, k) == Nested(sc, its) && IsSegment(s) && !Has(its, s)
    ensures Get(SetIn(items, [k], Str(s)).items, k) == Nested(sc, its + [(s, Bool(true))])
    ensures SetIn(items, [k], Str(s)).diagnostics == [WrittenMessage(s)]
  {
    SetInStep(items, [k], Str(s));
    SplitSegment(s);
    SetInFresh(its, [s], Bool(true));
  }

  /** A Shortcut overwritten by a plain Namespace is replaced outright. */
  lemma ShortcutReplaced(items: Items, k: string, a: Items, b: Items)
    requires Get(items, k) == Nested(true, a)
    ensures Get(SetIn(items, [k], Nested(false, b)).items, k) == Nested(false, b)
    ensures SetIn(items, [k], Nested(false, b)).diagnostics == []
  {
    SetInStep(items, [k], Nested(false, b));
  }

  /** Any other Namespace written onto a Namespace is deep-merged into it: the existing tag
      stays, the keys are the union, and keys the new value does not touch are kept. */
  lemma NamespaceMerged(items: Items, k: string, sc: bool, a: Items, vsc: bool, b: Items)
    requires Get(items, k) == Nested(sc, a) && !(sc && !vsc)
    ensures var n := Get(SetIn(items, [k], Nested(vsc, b)).items, k);
      && n.Nested? && n.shortcut == sc
      && KeySet(n.items) == KeySet(a) + Heads(b)
      && forall k' :: k' !in Heads(b) ==> Get(n.items, k') == Get(a, k')
  {
    SetInStep(items, [k], Nested(vsc, b));
    assert b[0..] == b;
  }

  /** Writing through a Namespace keeps its tag, so a Shortcut stays a Shortcut. */
  lemma PathKeepsTag(items: Items, path: seq<string>, v: Value, sc: bool, its: Items)
    requires |path| >= 2 && Get(items, path[0]) == Nested(sc, its)
    ensures Get(SetIn(items, path, v).items, path[0]).Nested?
    ensures Get(SetIn(items, path, v).items, path[0]).shortcut == sc
  {
    SetInStep(items, path, v);
  }

  /** Plain scalars under distinct segment keys are what those keys read after the merge. */
  lemma {:induction false} MergePlainWins(acc: Items, src: Value, i: nat)
    requires src.Nested? && i <= |src.items| && UniqueKeys(src.items)
    requires forall j :: i <= j < |src.items| ==> IsSegment(src.items[j].0) && PlainScalar(src.items[j].1)
    ensures forall j :: i <= j < |src.items| ==> Get(MergeItems(acc, src, i).items, src.items[j].0) == src.items[j].1
    ensures MergeItems(acc, src, i).diagnostics == []
    decreases |src.items| - i
  {
    if i < |src.items| {
      var k := src.items[i].0;
      PlainSegmentStep(acc, src, i);
      var b := SetIn(acc, [k], src.items[i].1);
      MergeStep(acc, src, i);
      MergePlainWins(b.items, src, i + 1);
    }
  }

  /** One plain scalar under a segment key: written without a diagnostic, and no later key of
      the source reaches it. */
  lemma PlainSegmentStep(acc: Items, src: Value, i: nat)
    requires src.Nested? && i < |src.items| && UniqueKeys(src.items)
    requires forall j :: i <= j < |src.items| ==> IsSegment(src.items[j].0)
    requires PlainScalar(src.items[i].1)
    ensures var k := src.items[i].0;
            var b := SetIn(acc, [k], src.items[i].1);
            && Split(k) == [k] && Get(b.items, k) == src.items[i].1 && b.diagnostics == []
            && k !in Heads(src.items[i + 1..])
  {
    var k := src.items[i].0;
    var x := src.items[i].1;
    SplitSegment(k);
    PlainWriteWins(acc, [k], x);
    SetInStep(acc, [k], x);
    ScalarWrite(Get(acc, k), x);
    var tail := src.items[i + 1..];
    forall j | 0 <= j < |tail| ensures Split(tail[j].0)[0] != k {
      assert tail[j] == src.items[i + 1 + j];
      SplitSegment(tail[j].0);
    }
  }

  /** A plain scalar written at the end of a path replaces whatever is there, silently. */
  lemma ScalarWrite(e: Value, x: Value)
    requires PlainScalar(x)
    ensures Write(e, [], x) == Written(x, [])
  {
  }

  /** The heads of keys that are already segments are the keys themselves. */
  lemma SegmentHeads(items: Items)
    requires forall j :: 0 <= j < |items| ==> IsSegment(items[j].0)
    ensures Heads(items) == KeySet(items)
  {
    forall j | 0 <= j < |items| ensures Split(items[j].0)[0] == items[j].0 {
      SplitSegment(items[j].0);
    }
  }

  /** Construction with one more source merges that source into what the others built. */
  lemma ConstructSnoc(sources: seq<Items>, last: Items)
    ensures var first := Construct(sources);
            var m := MergeItems(first.items, Nested(false, last), 0);
            Construct(sources + [last]) == Built(m.items, first.diagnostics + m.diagnostics)
  {
    assert (sources + [last])[..|sources|] == sources;
  }

  /** Every top-level key written by some source. */
  function AllHeads(sources: seq<Items>): set<string>
    decreases |sources|
  {
    if |sources| == 0 then {} else AllHeads(sources[..|sources| - 1]) + Heads(sources[|sources| - 1])
  }

  /** The constructed Namespace has exactly the top-level keys that the sources write. */
  lemma {:induction false} ConstructKeys(sources: seq<Items>)
    ensures KeySet(Construct(sources).items) == AllHeads(sources)
    decreases |sources|
  {
    if |sources| > 0 {
      var n := |sources| - 1;
      ConstructKeys(sources[..n]);
      assert sources[n][0..] == sources[n];
    }
  }

  /** Plain scalars of the last source, under distinct segment keys, win over all earlier sources. */
  lemma LastSourceWins(sources: seq<Items>, last: Items)
    requires UniqueKeys(last)
    requires forall j :: 0 <= j < |last| ==> IsSegment(last[j].0) && PlainScalar(last[j].1)
    ensures forall j :: 0 <= j < |last| ==> Get(Construct(sources + [last]).items, last[j].0) == last[j].1
  {
    ConstructSnoc(sources, last);
    MergePlainWins(Construct(sources).items, Nested(false, last), 0);
  }

  /** A key the last source does not write keeps what the earlier sources gave it. */
  lemma UnwrittenKeyKept(sources: seq<Items>, last: Items, k: string)
    requires k !in Heads(last)
    ensures Get(Construct(sources + [last]).items, k) == Get(Construct(sources).items, k)
  {
    ConstructSnoc(sources, last);
    assert last[0..] == last;
  }

  /** The target beats every default: its plain values under distinct segment keys are kept. */
  lemma TargetWins(target: Items, defaults: seq<Items>)
    requires UniqueKeys(target)
    requires forall j :: 0 <= j < |target| ==> IsSegment(target[j].0) && PlainScalar(target[j].1)
    ensures forall j :: 0 <= j < |target| ==> Get(SetDefaults(target, defaults).items, target[j].0) == target[j].1
  {
    LastSourceWins(Reverse(defaults), target);
  }

  /** Keys the target does not write are filled in from the defaults alone. */
  lemma DefaultsFillIn(target: Items, defaults: seq<Items>, k: string)
    requires k !in Heads(target)
    ensures Get(SetDefaults(target, defaults).items, k) == Get(Construct(Reverse(defaults)).items, k)
  {
    UnwrittenKeyKept(Reverse(defaults), target, k);
  }

  /** Of two defaults the earlier one wins, for keys the target leaves alone. */
  lemma EarlierDefaultWins(target: Items, d1: Items, d2: Items)
    requires UniqueKeys(d1)
    requires forall j :: 0 <= j < |d1| ==> IsSegment(d1[j].0) && PlainScalar(d1[j].1)
    ensures forall j :: 0 <= j < |d1| && d1[j].0 !in Heads(target) ==>
              Get(SetDefaults(target, [d1, d2]).items, d1[j].0) == d1[j].1
  {
    assert Reverse([d1, d2]) == [d2] + [d1];
    LastSourceWins([d2], d1);
    forall j | 0 <= j < |d1| && d1[j].0 !in Heads(target)
      ensures Get(SetDefaults(target, [d1, d2]).items, d1[j].0) == d1[j].1
    {
      UnwrittenKeyKept([d2, d1], target, d1[j].0);
    }
  }

  /** The keys of `setdefaults_path`'s result: those of the target and of every default. */
  lemma SetDefaultsKeys(target: Items, defaults: seq<Items>)
    ensures KeySet(SetDefaults(target, defaults).items) == AllHeads(Reverse(defaults)) + Heads(target)
  {
    ConstructKeys(Reverse(defaults) + [target]);
    assert (Reverse(defaults) + [target])[..|defaults|] == Reverse(defaults);
  }

  /** No string anywhere in `v`. */
  predicate NoStr(v: Value)
    decreases v
  {
    match v
    case Str(_) => false
    case Nested(_, items) => forall i :: 0 <= i < |items| ==> NoStr(items[i].1)
    case _ => true
  }

  predicate NoStrItems(items: Items) {
    forall i :: 0 <= i < |items| ==> NoStr(items[i].1)
  }

  lemma PutNoStr(items: Items, k: string, x: Value)
    requires NoStrItems(items) && NoStr(x)
    ensures NoStrItems(Put(items, k, x))
  {
  }

  /** Deprecation diagnostics come only from strings: writing a string-free value into a
      string-free Namespace warns about nothing and leaves it string-free. */
  lemma {:induction false} WriteQuiet(e: Value, path: seq<string>, v: Value)
    requires NoStr(e) && NoStr(v)
    ensures Write(e, path, v).diagnostics == [] && NoStr(Write(e, path, v).value)
    decreases Size(v), |path|, 1, e
  {
    if |path| > 0 {
      match e
      case Nested(sc, items) => SetInQuiet(items, path, v);
      case Func(_) => SetInQuiet([(CallTarget, e)], path, v);
      case Str(_) => assert false;
      case _ => SetInQuiet([], path, v);
    } else {
      match e
      case Nested(sc, items) =>
        match v {
          case Nested(vsc, _) =>
            if !(sc && !vsc) { MergeQuiet(items, v, 0); }
          case Func(_) =>
            var j := IndexOf(items, CallTarget);
            if j < |items| { WriteQuiet(items[j].1, [], v); }
            var w := if j < |items| then Write(items[j].1, [], v) else Written(v, []);
            PutNoStr(items, CallTarget, w.value);
          case _ =>
        }
      case Func(_) =>
        if v.Nested? { MergeQuiet([(CallTarget, e)], v, 0); }
      case _ =>
    }
  }

  lemma {:induction false} SetInQuiet(items: Items, path: seq<string>, v: Value)
    requires |path| >= 1 && NoStrItems(items) && NoStr(v)
    ensures SetIn(items, path, v).diagnostics == [] && NoStrItems(SetIn(items, path, v).items)
    decreases Size(v), |path|, 0, 0
  {
    var j := IndexOf(items, path[0]);
    if j < |items| { WriteQuiet(items[j].1, path[1..], v); } else { WriteQuiet(Null, path[1..], v); }
    var w := if j < |items| then Write(items[j].1, path[1..], v) else Write(Null, path[1..], v);
    PutNoStr(items, path[0], w.value);
  }

  lemma {:induction false} MergeQuiet(acc: Items, src: Value, i: nat)
    requires src.Nested? && i <= |src.items| && NoStrItems(acc) && NoStr(src)
    ensures MergeItems(acc, src, i).diagnostics == [] && NoStrItems(MergeItems(acc, src, i).items)
    decreases SizeFrom(src, i), 0, 0, 0
  {
    if i < |src.items| {
      SetInQuiet(acc, Split(src.items[i].0), src.items[i].1);
      var b := SetIn(acc, Split(src.items[i].0), src.items[i].1);
      MergeQuiet(b.items, src, i + 1);
    }
  }

  /** Construction from string-free sources emits no diagnostic. */
  lemma {:induction false} ConstructQuiet(sources: seq<Items>)
    requires forall s :: 0 <= s < |sources| ==> NoStrItems(sources[s])
    ensures Construct(sources).diagnostics == [] && NoStrItems(Construct(sources).items)
    decreases |sources|
  {
    if |sources| > 0 {
      var n := |sources| - 1;
      ConstructQuiet(sources[..n]);
      MergeQuiet(Construct(sources[..n]).items, Nested(false, sources[n]), 0);
    }
  }

  lemma {:induction false} ChainAppend(p: seq<string>, q: seq<string>, x: Value)
    ensures Chain(p + q, x) == Chain(p, Chain(q, x))
    decreases |p|
  {
    if |p| > 0 {
      assert (p + q)[1..] == p[1..] + q;
      ChainAppend(p[1..], q, x);
    } else {
      assert p + q == q;
    }
  }

  /** Writing below the end of a chain of single-key Namespaces rewrites only its end value. */
  lemma {:induction false} ChainSetIn(p: seq<string>, x: Value, q: seq<string>, v: Value)
    requires |p| >= 1
    ensures var w := Write(x, q, v);
            SetIn([(p[0], Chain(p[1..], x))], p + q, v) == Built([(p[0], Chain(p[1..], w.value))], w.diagnostics)
    decreases |p|
  {
    var c := Chain(p[1..], x);
    assert p + q == [p[0]] + (p[1..] + q);
    SingleSetIn(p[0], c, p[1..] + q, v);
    if |p| == 1 {
      assert p[1..] + q == q;
    } else {
      ChainSetIn(p[1..], x, q, v);
      assert p[1..][1..] == p[2..];
      NestedWrite(false, [(p[1], Chain(p[2..], x))], p[1..] + q, v);
    }
  }

  /** Setting a path in a Namespace holding only its first segment rewrites that one value. */
  lemma SingleSetIn(k: string, c: Value, rest: seq<string>, v: Value)
    ensures var w := Write(c, rest, v);
            SetIn([(k, c)], [k] + rest, v) == Built([(k, w.value)], w.diagnostics)
  {
    assert IndexOf([(k, c)], k) == 0;
    SetInStep([(k, c)], [k] + rest, v);
    assert ([k] + rest)[1..] == rest;
  }

  /** Writing below a Namespace sets the path in its items and keeps its tag. */
  lemma NestedWrite(sc: bool, items: Items, path: seq<string>, v: Value)
    requires |path| > 0
    ensures var b := SetIn(items, path, v);
            Write(Nested(sc, items), path, v) == Written(Nested(sc, b.items), b.diagnostics)
  {
  }

}
