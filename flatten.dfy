/** `flatten`: a depth-first walk of a Namespace that gives every leaf under its
    `__`-joined path. `FlattenPaths` walks a Namespace value (a tree); `Objects` below
    walks Namespace objects, whose identity lets a Namespace contain itself. */
module Flattening {
  import opened Paths
  import opened Namespaces

  /** A leaf of the walk: anything but a non-empty Namespace (an empty one is emitted as is). */
  predicate IsLeaf(v: Value) {
    !v.Nested? || |v.items| == 0
  }

  /** Every path starts with `pre` and goes at least one segment below it. */
  predicate Below(fl: seq<(seq<string>, Value)>, pre: seq<string>) {
    forall j :: 0 <= j < |fl| ==> |fl[j].0| > |pre| && fl[j].0[..|pre|] == pre
  }

  /** `flatten_items(n, prefix)`: the leaves of the items of `n` from position `i` on, in
      order, each with its path below `pre`. */
  function FlattenPaths(n: Value, i: nat, pre: seq<string>): (fl: seq<(seq<string>, Value)>)
    requires n.Nested? && i <= |n.items|
    ensures Below(fl, pre)
    ensures forall j :: 0 <= j < |fl| ==> IsLeaf(fl[j].1)
    decreases n, |n.items| - i
  {
    if i == |n.items| then []
    else
      var (k, v) := n.items[i];
      var here := if v.Nested? && |v.items| > 0 then FlattenPaths(v, 0, pre + [k]) else [(pre + [k], v)];
      assert Below(here, pre) by {
        forall j | 0 <= j < |here| ensures |here[j].0| > |pre| && here[j].0[..|pre|] == pre {
          assert here[j].0[..|pre| + 1] == pre + [k];
          assert here[j].0[..|pre|] == (pre + [k])[..|pre|];
        }
      }
      here + FlattenPaths(n, i + 1, pre)
  }

  /** The flattened keys: each path joined with `__`. */
  function JoinAll(fl: seq<(seq<string>, Value)>): (r: Items)
    requires forall j :: 0 <= j < |fl| ==> |fl[j].0| >= 1
    ensures |r| == |fl|
    ensures forall j :: 0 <= j < |fl| ==> r[j] == (Join(fl[j].0), fl[j].1)
    ensures forall j :: 0 <= j < |fl| && Joinable(fl[j].0) ==> Split(r[j].0) == fl[j].0
  {
    JoinedSplit(fl);
    seq(|fl|, j requires 0 <= j < |fl| => (Join(fl[j].0), fl[j].1))
  }

  /** A path whose segments can be told apart again is recovered from its joined key. */
  lemma JoinedSplit(fl: seq<(seq<string>, Value)>)
    requires forall j :: 0 <= j < |fl| ==> |fl[j].0| >= 1
    ensures forall j :: 0 <= j < |fl| && Joinable(fl[j].0) ==> Split(Join(fl[j].0)) == fl[j].0
  {
    forall j | 0 <= j < |fl| && Joinable(fl[j].0) ensures Split(Join(fl[j].0)) == fl[j].0 {
      SplitJoin(fl[j].0);
    }
  }

  /** `dict(pairs)`: a later pair for a key already present replaces its value in place. */
  function ToDict(pairs: Items): (r: Items)
    ensures UniqueKeys(r)
    ensures KeySet(r) == KeySet(pairs)
    decreases |pairs|
  {
    if |pairs| == 0 then []
    else
      var init := ToDict(pairs[..|pairs| - 1]);
      var last := pairs[|pairs| - 1];
      assert KeySet(pairs) == KeySet(pairs[..|pairs| - 1]) + {last.0} by {
        assert pairs == pairs[..|pairs| - 1] + [last];
      }
      Put(init, last.0, last.1)
  }

  /** `flatten(namespace)`. */
  function Flatten(items: Items): Items {
    ToDict(JoinAll(FlattenPaths(Nested(false, items), 0, [])))
  }

  /** Distinct keys go into a dict unchanged. */
  lemma {:induction false} ToDictUnique(pairs: Items)
    requires UniqueKeys(pairs)
    ensures ToDict(pairs) == pairs
    decreases |pairs|
  {
    if |pairs| > 0 {
      var init := pairs[..|pairs| - 1];
      ToDictUnique(init);
      var last := pairs[|pairs| - 1];
      forall j | 0 <= j < |init| ensures init[j].0 != last.0 {
        assert init[j] == pairs[j];
      }
      assert init + [last] == pairs;
    }
  }

  /** Unique keys at every level of a Namespace value, as in every dict. */
  predicate WellFormed(v: Value)
    decreases v
  {
    v.Nested? ==> UniqueKeys(v.items) && forall j :: 0 <= j < |v.items| ==> WellFormed(v.items[j].1)
  }

  lemma GetAt(items: Items, j: nat)
    requires UniqueKeys(items) && j < |items|
    ensures Has(items, items[j].0) && Get(items, items[j].0) == items[j].1
  {
    var i := IndexOf(items, items[j].0);
    assert i <= j;
  }

  /** Each pair's path, less its first `d` segments, leads from `items` to its value. */
  predicate Found(items: Items, fl: seq<(seq<string>, Value)>, d: nat) {
    forall j :: 0 <= j < |fl| ==> d < |fl[j].0| && Lookup(items, fl[j].0[d..]) == fl[j].1
  }

  /** Every emitted pair is a leaf reached by following its path from the root: the walk
      invents nothing. */
  lemma {:induction false} FlattenSound(n: Value, i: nat, pre: seq<string>)
    requires n.Nested? && i <= |n.items| && WellFormed(n)
    ensures Found(n.items, FlattenPaths(n, i, pre), |pre|)
    decreases n, |n.items| - i, 1
  {
    if i < |n.items| {
      var k := n.items[i].0;
      var v := n.items[i].1;
      FlattenSound(n, i + 1, pre);
      var rest := FlattenPaths(n, i + 1, pre);
      var here := if v.Nested? && |v.items| > 0 then FlattenPaths(v, 0, pre + [k]) else [(pre + [k], v)];
      var fl := FlattenPaths(n, i, pre);
      assert fl == here + rest;
      if v.Nested? && |v.items| > 0 {
        SoundBelow(n, i, pre);
      } else {
        GetAt(n.items, i);
        assert here[0].0[|pre|..] == [k];
      }
      forall j | 0 <= j < |fl| ensures Lookup(n.items, fl[j].0[|pre|..]) == fl[j].1 {
        if j >= |here| {
          assert fl[j] == rest[j - |here|];
        } else {
          assert fl[j] == here[j];
          assert Found(n.items, here, |pre|);
        }
      }
    }
  }

  /** The step of `FlattenSound` into a non-empty Namespace item. */
  lemma {:induction false} SoundBelow(n: Value, i: nat, pre: seq<string>)
    requires n.Nested? && i < |n.items| && WellFormed(n)
    requires n.items[i].1.Nested? && |n.items[i].1.items| > 0
    ensures Found(n.items, FlattenPaths(n.items[i].1, 0, pre + [n.items[i].0]), |pre|)
    decreases n, |n.items| - i, 0
  {
    var k := n.items[i].0;
    var v := n.items[i].1;
    GetAt(n.items, i);
    FlattenSound(v, 0, pre + [k]);
    var sub := FlattenPaths(v, 0, pre + [k]);
    forall j | 0 <= j < |sub| ensures Lookup(n.items, sub[j].0[|pre|..]) == sub[j].1 {
      var p := sub[j].0;
      var q := p[|pre|..];
      assert |p| > |pre| + 1 && p[..|pre| + 1] == pre + [k];
      assert q[0] == k;
      assert q[1..] == p[|pre + [k]|..];
      assert Found(v.items, sub, |pre + [k]|);
      assert Lookup(v.items, p[|pre + [k]|..]) == sub[j].1;
      assert Get(n.items, q[0]) == v;
      assert Lookup(n.items, q) == Lookup(v.items, q[1..]);
    }
  }

  /** The walk emits a pair for every leaf item: nothing below a Namespace is lost. */
  lemma {:induction false} FlattenComplete(n: Value, i: nat, pre: seq<string>, m: nat)
    requires n.Nested? && i <= m < |n.items| && IsLeaf(n.items[m].1)
    ensures (pre + [n.items[m].0], n.items[m].1) in FlattenPaths(n, i, pre)
    decreases |n.items| - i
  {
    var fl := FlattenPaths(n, i, pre);
    var v := n.items[i].1;
    var here := if v.Nested? && |v.items| > 0 then FlattenPaths(v, 0, pre + [n.items[i].0]) else [(pre + [n.items[i].0], v)];
    assert fl == here + FlattenPaths(n, i + 1, pre);
    if m > i {
      FlattenComplete(n, i + 1, pre, m);
    }
  }

  /** `path` leads from `items` through non-empty Namespaces to a leaf. */
  predicate Reaches(items: Items, path: seq<string>)
    decreases |path|
  {
    && |path| >= 1 && Has(items, path[0])
    && var v := Get(items, path[0]);
       if |path| == 1 then IsLeaf(v) else v.Nested? && |v.items| > 0 && Reaches(v.items, path[1..])
  }

  /** Whatever the walk emits below the item at `m` is part of the walk from `i` on. */
  lemma {:induction false} BranchIncluded(n: Value, i: nat, pre: seq<string>, m: nat, e: (seq<string>, Value))
    requires n.Nested? && i <= m < |n.items|
    requires n.items[m].1.Nested? && |n.items[m].1.items| > 0
    requires e in FlattenPaths(n.items[m].1, 0, pre + [n.items[m].0])
    ensures e in FlattenPaths(n, i, pre)
    decreases |n.items| - i
  {
    var v := n.items[i].1;
    var here := if v.Nested? && |v.items| > 0 then FlattenPaths(v, 0, pre + [n.items[i].0]) else [(pre + [n.items[i].0], v)];
    assert FlattenPaths(n, i, pre) == here + FlattenPaths(n, i + 1, pre);
    if m > i {
      BranchIncluded(n, i + 1, pre, m, e);
    }
  }

  /** The walk emits every leaf at any depth, under its full path: a leaf that `path` reaches
      through non-empty Namespaces is emitted with the key path `pre + path`. */
  lemma {:induction false} FlattenCompleteDeep(n: Value, pre: seq<string>, path: seq<string>)
    requires n.Nested? && Reaches(n.items, path)
    ensures (pre + path, Lookup(n.items, path)) in FlattenPaths(n, 0, pre)
    decreases |path|
  {
    var m := IndexOf(n.items, path[0]);
    var k, v := n.items[m].0, n.items[m].1;
    assert k == path[0] && Get(n.items, k) == v;
    if |path| == 1 {
      assert Lookup(n.items, path) == v && pre + path == pre + [k];
      FlattenComplete(n, 0, pre, m);
    } else {
      var rest := path[1..];
      assert Lookup(n.items, path) == Lookup(v.items, rest) && Reaches(v.items, rest);
      assert (pre + [k]) + rest == pre + path;
      FlattenCompleteDeep(v, pre + [k], rest);
      BranchIncluded(n, 0, pre, m, (pre + path, Lookup(v.items, rest)));
    }
  }
}
