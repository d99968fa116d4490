/** The Namespace value: an ordered mapping from keys to values, where a value is a
    scalar, an opaque function, or a nested Namespace (possibly tagged as a Shortcut).
    `Write`, `SetIn` and `MergeItems` are `setitem_path` and the left-to-right merge
    performed by the `Namespace(...)` constructor. */
module Namespaces {
  import opened Paths

  /** An opaque Python callable (a function, a class, a bound method). */
  type FuncId = nat

  datatype Value =
    | Null                                    // Python None; also what `Struct.get` gives for a missing key
    | Int(i: int)
    | Bool(b: bool)
    | Str(s: string)
    | Func(f: FuncId)
    | Nested(shortcut: bool, items: Items)    // a Namespace, or a Shortcut when `shortcut` holds

  /** The items of one Namespace level, in insertion order; keys are unique (`UniqueKeys`). */
  type Items = seq<(string, Value)>

  const CallTarget: string := "call_target"

  /** The `EMPTY` marker, as a value: an empty, plain Namespace. */
  const Empty: Value := Nested(false, [])

  /** A written value together with the deprecation diagnostics emitted while writing it. */
  datatype Written = Written(value: Value, diagnostics: seq<string>)

  /** Namespace items together with the deprecation diagnostics emitted while building them. */
  datatype Built = Built(items: Items, diagnostics: seq<string>)

  predicate UniqueKeys(items: Items) {
    forall i, j :: 0 <= i < j < |items| ==> items[i].0 != items[j].0
  }

  function KeySet(items: Items): set<string> {
    set i | 0 <= i < |items| :: items[i].0
  }

  /** Position of `key` among keyed entries, or `|items|` when absent. */
  function IndexOf<V>(items: seq<(string, V)>, key: string): (j: nat)
    ensures j <= |items|
    ensures j < |items| ==> items[j].0 == key
    ensures forall i :: 0 <= i < j ==> items[i].0 != key
  {
    if |items| == 0 then 0
    else if items[0].0 == key then 0
    else 1 + IndexOf(items[1..], key)
  }

  predicate Has(items: Items, key: string) {
    IndexOf(items, key) < |items|
  }

  /** `Struct.get(namespace, key)`: the value at `key`, or `Null` when absent. */
  function Get(items: Items, key: string): (v: Value)
    ensures !Has(items, key) ==> v == Null
    ensures Has(items, key) ==> exists i :: 0 <= i < |items| && items[i] == (key, v)
  {
    var j := IndexOf(items, key);
    if j < |items| then items[j].1 else Null
  }

  /** `namespace[key] = v`: replaces the value in place, or appends a new key at the end. */
  function Put(items: Items, key: string, v: Value): (r: Items)
    ensures Has(r, key) && Get(r, key) == v
    ensures forall k :: k != key ==> Get(r, k) == Get(items, k) && (Has(r, k) <==> Has(items, k))
    ensures KeySet(r) == KeySet(items) + {key}
    ensures UniqueKeys(items) ==> UniqueKeys(r)
  {
    var j := IndexOf(items, key);
    if j < |items| then
      PutReplaces(items, key, v, j);
      items[j := (key, v)]
    else
      PutAppends(items, key, v);
      items + [(key, v)]
  }

  lemma PutReplaces(items: Items, key: string, v: Value, j: nat)
    requires j == IndexOf(items, key) < |items|
    ensures var r := items[j := (key, v)];
      && Has(r, key) && Get(r, key) == v
      && (forall k :: k != key ==> Get(r, k) == Get(items, k) && (Has(r, k) <==> Has(items, k)))
      && KeySet(r) == KeySet(items) + {key}
      && (UniqueKeys(items) ==> UniqueKeys(r))
  {
    var r := items[j := (key, v)];
    forall k ensures IndexOf(r, k) == IndexOf(items, k) {
      IndexOfSameKeys(items, r, k);
    }
    assert forall i :: 0 <= i < |r| ==> r[i].0 == items[i].0;
    assert KeySet(r) == KeySet(items);
    assert items[j].0 == key;
  }

  lemma PutAppends(items: Items, key: string, v: Value)
    requires !Has(items, key)
    ensures var r := items + [(key, v)];
      && Has(r, key) && Get(r, key) == v
      && (forall k :: k != key ==> Get(r, k) == Get(items, k) && (Has(r, k) <==> Has(items, k)))
      && KeySet(r) == KeySet(items) + {key}
      && (UniqueKeys(items) ==> UniqueKeys(r))
  {
    var r := items + [(key, v)];
    IndexOfAppend(items, key, v, key);
    forall k | k != key ensures Get(r, k) == Get(items, k) && (Has(r, k) <==> Has(items, k)) {
      IndexOfAppend(items, key, v, k);
    }
    assert forall i :: 0 <= i < |items| ==> r[i] == items[i];
    assert r[|items|].0 == key;
    assert KeySet(r) == KeySet(items) + {key};
    assert forall i :: 0 <= i < |items| ==> items[i].0 != key;
  }

  lemma {:induction false} IndexOfSameKeys(a: Items, b: Items, k: string)
    requires |a| == |b| && forall i :: 0 <= i < |a| ==> a[i].0 == b[i].0
    ensures IndexOf(a, k) == IndexOf(b, k)
    decreases |a|
  {
    if |a| > 0 && a[0].0 != k {
      IndexOfSameKeys(a[1..], b[1..], k);
    }
  }

  lemma {:induction false} IndexOfAppend(items: Items, key: string, v: Value, k: string)
    requires !Has(items, key)
    ensures IndexOf(items + [(key, v)], k) ==
      if Has(items, k) then IndexOf(items, k) else if k == key then |items| else |items| + 1
    decreases |items|
  {
    if |items| > 0 && items[0].0 != k {
      assert (items + [(key, v)])[1..] == items[1..] + [(key, v)];
      IndexOfAppend(items[1..], key, v, k);
    }
  }

  /** The value reached by following `path` through nested Namespaces (`Null` when it leaves them). */
  function Lookup(items: Items, path: seq<string>): Value
    requires |path| >= 1
    decreases |path|
  {
    var v := Get(items, path[0]);
    if |path| == 1 then v
    else if v.Nested? then Lookup(v.items, path[1..])
    else Null
  }

  /** Scalars that are neither strings nor callables: writing one never promotes anything. */
  predicate PlainScalar(v: Value) {
    v.Null? || v.Int? || v.Bool?
  }

  /** A size that decreases when a written string is promoted to `{s: True}`. */
  function Size(v: Value): nat
    decreases v, 1
  {
    match v
    case Str(_) => 1
    case Nested(_, _) => 1 + SizeFrom(v, 0)
    case _ => 0
  }

  function SizeFrom(v: Value, i: nat): nat
    requires v.Nested? && i <= |v.items|
    decreases v, 0, |v.items| - i
  {
    if i == |v.items| then 0 else 1 + Size(v.items[i].1) + SizeFrom(v, i + 1)
  }

  function PreviousMessage(s: string): string {
    "Deprecated promotion of previous string value \"" + s + "\" to dict(" + s + "=True)"
  }

  function WrittenMessage(s: string): string {
    "Deprecated promotion of written string value \"" + s + "\" to dict(" + s + "=True)"
  }

  /** What a fresh key holds after `p` is written below it: nested single-key Namespaces ending in `x`. */
  function Chain(p: seq<string>, x: Value): Value
    decreases |p|
  {
    if |p| == 0 then x else Nested(false, [(p[0], Chain(p[1..], x))])
  }

  /** `Namespace({s: True})`: the promotion of the string `s`. */
  function Promoted(s: string): Items {
    var p := Split(s);
    [(p[0], Chain(p[1..], Bool(true)))]
  }

  /** The value a key holds after `setitem_path` writes `v` at the remaining segments `path`
      below it, when it held `e` before (`Null` when it was missing). */
  function Write(e: Value, path: seq<string>, v: Value): Written
    decreases Size(v), |path|, 1, e
  {
    if |path| > 0 then
      match e
      case Nested(sc, items) =>
        var b := SetIn(items, path, v);
        Written(Nested(sc, b.items), b.diagnostics)
      case Func(_) =>
        var b := SetIn([(CallTarget, e)], path, v);
        Written(Nested(false, b.items), b.diagnostics)
      case Str(s) =>
        var b := SetIn(Promoted(s), path, v);
        Written(Nested(false, b.items), [PreviousMessage(s)] + b.diagnostics)
      case _ =>
        // unable to promote to a Namespace: overwrite
        var b := SetIn([], path, v);
        Written(Nested(false, b.items), b.diagnostics)
    else
      match e
      case Nested(sc, items) =>
        (match v
         case Nested(vsc, _) =>
           if sc && !vsc then Written(v, [])
           else
             var b := MergeItems(items, v, 0);
             Written(Nested(sc, b.items), b.diagnostics)
         case Func(_) =>
           var j := IndexOf(items, CallTarget);
           var w := if j < |items| then Write(items[j].1, [], v) else Written(v, []);
           Written(Nested(sc, Put(items, CallTarget, w.value)), w.diagnostics)
         case Str(s) =>
           var b := SetIn(items, Split(s), Bool(true));
           Written(Nested(sc, b.items), [WrittenMessage(s)] + b.diagnostics)
         case _ => Written(v, []))
      case Func(_) =>
        (match v
         case Nested(vsc, _) =>
           var b := MergeItems([(CallTarget, e)], v, 0);
           Written(Nested(vsc, b.items), b.diagnostics)
         case _ => Written(v, []))
      case _ => Written(v, [])
  }

  /** `namespace.setitem_path(Join(path), v)` on a Namespace holding `items`. */
  function SetIn(items: Items, path: seq<string>, v: Value): (r: Built)
    requires |path| >= 1
    ensures Has(r.items, path[0])
    ensures forall k :: k != path[0] ==> Get(r.items, k) == Get(items, k) && (Has(r.items, k) <==> Has(items, k))
    ensures KeySet(r.items) == KeySet(items) + {path[0]}
    ensures UniqueKeys(items) ==> UniqueKeys(r.items)
    decreases Size(v), |path|, 0, 0
  {
    var j := IndexOf(items, path[0]);
    var w := if j < |items| then Write(items[j].1, path[1..], v) else Write(Null, path[1..], v);
    Built(Put(items, path[0], w.value), w.diagnostics)
  }

  /** Writes every item of the Namespace `src` from position `i` on into `acc`, each key
      read as a path, left to right. */
  function MergeItems(acc: Items, src: Value, i: nat): (r: Built)
    requires src.Nested? && i <= |src.items|
    ensures KeySet(r.items) == KeySet(acc) + Heads(src.items[i..])
    ensures forall k :: k !in Heads(src.items[i..]) ==> Get(r.items, k) == Get(acc, k)
    ensures UniqueKeys(acc) ==> UniqueKeys(r.items)
    decreases SizeFrom(src, i), 0, 0, 0
  {
    if i == |src.items| then Built(acc, [])
    else
      var b := SetIn(acc, Split(src.items[i].0), src.items[i].1);
      var rest := MergeItems(b.items, src, i + 1);
      HeadsFrom(src.items, i);
      Built(rest.items, b.diagnostics + rest.diagnostics)
  }

  /** The first segments of the keys of `items`: the top-level keys that merging them writes. */
  function Heads(items: Items): set<string> {
    set j | 0 <= j < |items| :: Split(items[j].0)[0]
  }

  lemma HeadsFrom(items: Items, i: nat)
    requires i < |items|
    ensures Heads(items[i..]) == {Split(items[i].0)[0]} + Heads(items[i + 1..])
  {
    assert items[i..] == [items[i]] + items[i + 1..];
    HeadsCons(items[i], items[i + 1..]);
  }

  lemma HeadsCons(x: (string, Value), rest: Items)
    ensures Heads([x] + rest) == {Split(x.0)[0]} + Heads(rest)
  {
    var s := [x] + rest;
    forall h | h in Heads(s) ensures h in {Split(x.0)[0]} + Heads(rest) {
      var j :| 0 <= j < |s| && Split(s[j].0)[0] == h;
      if j > 0 { assert s[j] == rest[j - 1]; }
    }
    forall h | h in Heads(rest) ensures h in Heads(s) {
      var j :| 0 <= j < |rest| && Split(rest[j].0)[0] == h;
      assert s[j + 1] == rest[j];
    }
    assert Split(s[0].0)[0] in Heads(s);
  }

  /** `Namespace(source_0, source_1, ...)`: starts empty and merges the sources left to right. */
  function Construct(sources: seq<Items>): (r: Built)
    ensures UniqueKeys(r.items)
    ensures forall k :: k in KeySet(r.items) ==> IsSegment(k)
    decreases |sources|
  {
    if |sources| == 0 then Built([], [])
    else
      var first := Construct(sources[..|sources| - 1]);
      var last := MergeItems(first.items, Nested(false, sources[|sources| - 1]), 0);
      HeadsAreSegments(sources[|sources| - 1]);
      Built(last.items, first.diagnostics + last.diagnostics)
  }

  lemma HeadsAreSegments(items: Items)
    ensures forall h :: h in Heads(items) ==> IsSegment(h)
  {
    forall h | h in Heads(items) ensures IsSegment(h) {
      var j :| 0 <= j < |items| && Split(items[j].0)[0] == h;
      SplitGivesSegments(items[j].0);
    }
  }

  /** Python's `==` on Namespaces: dict equality, blind to key order and to the Shortcut tag. */
  predicate Same(x: Value, y: Value)
    decreases x
  {
    match x
    case Nested(_, a) =>
      && y.Nested? && |a| == |y.items| && UniqueKeys(a) && UniqueKeys(y.items)
      && forall i :: 0 <= i < |a| ==> Has(y.items, a[i].0) && Same(a[i].1, Get(y.items, a[i].0))
    case _ => x == y
  }

  /** `Shortcut(source_0, ...)`: the same construction, tagged as a Shortcut. */
  function MakeShortcut(sources: seq<Items>): Value {
    Nested(true, Construct(sources).items)
  }

  function Reverse<T>(s: seq<T>): (r: seq<T>)
    ensures |r| == |s|
    ensures forall i :: 0 <= i < |s| ==> r[i] == s[|s| - 1 - i]
  {
    if |s| == 0 then [] else Reverse(s[1..]) + [s[0]]
  }

  /** `setdefaults_path(target, default_1, ..., default_n)`: like `Namespace(...)` over the
      sources in reverse, so the target beats every default and an earlier default beats a
      later one. Keyword defaults are passed as the last default. */
  function SetDefaults(target: Items, defaults: seq<Items>): Built {
    Construct(Reverse(defaults) + [target])
  }
}
