/** `sort_after`: orders named items under `after` constraints. An item without `after`
    keeps its place among the other unconstrained items; `after=<int>` places it once that
    many items have been emitted (a negative index means at the front); `after=<name>` places
    it right after the item of that name (and after the items already placed there); `LAST`
    places it at the end. References to names that were never placed are reported together. */
module Ordering {
  import opened Strings

  datatype After = Unconstrained | AtIndex(index: int) | AfterName(target: string) | Last

  datatype Item = Item(name: string, after: After)

  datatype Outcome = Ok(items: seq<Item>) | KeyError(message: string)

  /** The four kinds of constraint the items are partitioned by. */
  datatype Kind = Free | Index | Name | AtEnd

  function KindOf(x: Item): Kind {
    match x.after
    case Unconstrained => Free
    case AtIndex(_) => Index
    case AfterName(_) => Name
    case Last => AtEnd
  }

  /** The items of kind `k`, in input order. */
  function Select(s: seq<Item>, k: Kind): (r: seq<Item>)
    ensures forall j :: 0 <= j < |r| ==> KindOf(r[j]) == k
    ensures |r| <= |s|
  {
    if |s| == 0 then []
    else (if KindOf(s[0]) == k then [s[0]] else []) + Select(s[1..], k)
  }

  /** The items waiting to be placed right after an item called `name`. */
  function Children(pending: seq<Item>, name: string): (r: seq<Item>)
    ensures |r| <= |pending|
  {
    if |pending| == 0 then []
    else (if pending[0].after == AfterName(name) then [pending[0]] else []) + Children(pending[1..], name)
  }

  /** The items still waiting once the children of `name` are taken away. */
  function Others(pending: seq<Item>, name: string): (r: seq<Item>)
    ensures |r| + |Children(pending, name)| == |pending|
  {
    if |pending| == 0 then []
    else (if pending[0].after == AfterName(name) then [] else [pending[0]]) + Others(pending[1..], name)
  }

  /** Taking the children of `name` splits the waiting items without loss. */
  lemma {:induction false} OthersKeeps(pending: seq<Item>, name: string)
    ensures multiset(Others(pending, name)) + multiset(Children(pending, name)) == multiset(pending)
    decreases |pending|
  {
    if |pending| > 0 {
      var h, t := pending[0], pending[1..];
      OthersKeeps(t, name);
      assert pending == [h] + t;
      SplitCons(h, Others(t, name), Children(t, name), t);
      if h.after == AfterName(name) {
        assert Others(pending, name) == Others(t, name);
        assert Children(pending, name) == [h] + Children(t, name);
      } else {
        assert Others(pending, name) == [h] + Others(t, name);
        assert Children(pending, name) == Children(t, name);
      }
    }
  }

  /** A split of `t` into `a` and `b` extends to `[h] + t`, whichever side `h` joins. */
  lemma SplitCons(h: Item, a: seq<Item>, b: seq<Item>, t: seq<Item>)
    requires multiset(a) + multiset(b) == multiset(t)
    ensures multiset([h] + a) + multiset(b) == multiset([h] + t)
    ensures multiset(a) + multiset([h] + b) == multiset([h] + t)
  {
    assert multiset([h] + a) == multiset{h} + multiset(a);
    assert multiset([h] + b) == multiset{h} + multiset(b);
    assert multiset([h] + t) == multiset{h} + multiset(t);
  }

  /** `place(x)`: `x`, then each item waiting for `x`'s name, each followed in turn by the
      items waiting for it. Returns what was emitted and what is still waiting. */
  function Place(x: Item, pending: seq<Item>): (r: (seq<Item>, seq<Item>))
    ensures |r.1| <= |pending|
    ensures |r.0| >= 1 && r.0[0] == x
    decreases |pending|, 0
  {
    var ys := Children(pending, x.name);
    if |ys| == 0 then ([x], pending)
    else
      var placed := PlaceAll(ys, Others(pending, x.name));
      ([x] + placed.0, placed.1)
  }

  /** `place` applied to each of `ys` in turn. */
  function PlaceAll(ys: seq<Item>, pending: seq<Item>): (r: (seq<Item>, seq<Item>))
    ensures |r.1| <= |pending|
    decreases |pending|, 1, |ys|
  {
    if |ys| == 0 then ([], pending)
    else
      var first := Place(ys[0], pending);
      var rest := PlaceAll(ys[1..], first.1);
      (first.0 + rest.0, rest.1)
  }

  /** The position an index-constrained item asks for. */
  function Position(x: Item): int {
    if x.after.AtIndex? then x.after.index else 0
  }

  predicate ByPosition(s: seq<Item>) {
    forall i, j :: 0 <= i < j < |s| ==> Position(s[i]) <= Position(s[j])
  }

  /** No item of `s` asks for a position before `p`. */
  predicate AtLeast(p: int, s: seq<Item>) {
    forall j :: 0 <= j < |s| ==> p <= Position(s[j])
  }

  lemma AtLeastPermuted(p: int, s: seq<Item>, t: seq<Item>)
    requires AtLeast(p, s) && multiset(s) == multiset(t)
    ensures AtLeast(p, t)
  {
    forall j | 0 <= j < |t| ensures p <= Position(t[j]) {
      assert t[j] in multiset(s);
      var i :| 0 <= i < |s| && s[i] == t[j];
    }
  }

  lemma ConsByPosition(h: Item, s: seq<Item>)
    requires ByPosition(s) && AtLeast(Position(h), s)
    ensures ByPosition([h] + s)
  {
    forall i, j | 0 <= i < j < |s| + 1 ensures Position(([h] + s)[i]) <= Position(([h] + s)[j]) {
      assert ([h] + s)[j] == s[j - 1];
      if i > 0 { assert ([h] + s)[i] == s[i - 1]; }
    }
  }

  /** Inserts `x` before the first item that asks for the same position or a later one. */
  function InsertByPosition(x: Item, s: seq<Item>): (r: seq<Item>)
    requires ByPosition(s)
    ensures ByPosition(r)
    ensures multiset(r) == multiset(s) + multiset{x}
  {
    if |s| == 0 || Position(x) <= Position(s[0]) then
      ConsByPosition(x, s);
      [x] + s
    else
      var rest := InsertByPosition(x, s[1..]);
      assert s == [s[0]] + s[1..];
      assert AtLeast(Position(s[0]), s[1..] + [x]);
      AtLeastPermuted(Position(s[0]), s[1..] + [x], rest);
      ConsByPosition(s[0], rest);
      [s[0]] + rest
  }

  /** `sorted(items, key=lambda x: x.after)`: a stable sort by the position asked for. */
  function SortByPosition(s: seq<Item>): (r: seq<Item>)
    ensures ByPosition(r)
    ensures multiset(r) == multiset(s)
  {
    if |s| == 0 then []
    else
      assert s == [s[0]] + s[1..];
      InsertByPosition(s[0], SortByPosition(s[1..]))
  }

  /** The item the main loop places next, and the unconstrained and index items left after
      it: the first index item once its position has been reached (or once no unconstrained
      item is left), otherwise the first unconstrained item. */
  function Next(free: seq<Item>, byIndex: seq<Item>, count: int): (r: (Item, seq<Item>, seq<Item>))
    requires |free| + |byIndex| > 0
    ensures |r.1| + |r.2| + 1 == |free| + |byIndex|
    ensures || (|byIndex| > 0 && r == (byIndex[0], free, byIndex[1..]))
            || (|free| > 0 && r == (free[0], free[1..], byIndex))
  {
    if |byIndex| > 0 && (Position(byIndex[0]) <= count || |free| == 0) then
      (byIndex[0], free, byIndex[1..])
    else
      (free[0], free[1..], byIndex)
  }

  /** The item chosen and the items left are the items there were. */
  lemma NextKeeps(free: seq<Item>, byIndex: seq<Item>, count: int)
    requires |free| + |byIndex| > 0
    ensures var r := Next(free, byIndex, count);
      multiset{r.0} + multiset(r.1) + multiset(r.2) == multiset(free) + multiset(byIndex)
  {
    if |byIndex| > 0 && (Position(byIndex[0]) <= count || |free| == 0) {
      assert byIndex == [byIndex[0]] + byIndex[1..];
    } else {
      assert free == [free[0]] + free[1..];
    }
  }

  /** The count after `emitted` went out. */
  function Advance(count: int, emitted: seq<Item>): int {
    count + |emitted|
  }

  /** The main loop of `sort_after`: while unconstrained or index items remain, place the
      `Next` one with the items waiting for it; `count` is the number of items emitted so far. */
  function Traverse(free: seq<Item>, byIndex: seq<Item>, pending: seq<Item>, count: int): (r: (seq<Item>, seq<Item>))
    ensures |r.1| <= |pending|
    decreases |free| + |byIndex|
  {
    if |free| + |byIndex| == 0 then ([], pending)
    else
      var next := Next(free, byIndex, count);
      var first := Place(next.0, pending);
      var rest := Traverse(next.1, next.2, first.1, Advance(count, first.0));
      (first.0 + rest.0, rest.1)
  }

  /** `place` emits its item and what it takes from `pending`, nothing more and nothing less. */
  lemma {:induction false} PlaceKeeps(x: Item, pending: seq<Item>)
    ensures var r := Place(x, pending);
      multiset(r.0) + multiset(r.1) == multiset{x} + multiset(pending)
    decreases |pending|, 0
  {
    var ys := Children(pending, x.name);
    var r := Place(x, pending);
    if |ys| == 0 {
      assert r == ([x], pending);
    } else {
      var others := Others(pending, x.name);
      var placed := PlaceAll(ys, others);
      assert r == ([x] + placed.0, placed.1);
      PlaceAllKeeps(ys, others);
      OthersKeeps(pending, x.name);
      assert multiset(placed.0) + multiset(placed.1) == multiset(ys) + multiset(others);
      assert multiset(ys) + multiset(others) == multiset(pending);
      assert multiset([x] + placed.0) == multiset{x} + multiset(placed.0);
    }
  }

  /** One step followed by the rest: what both emitted plus what is left accounts for the
      step's own input, the rest's own input and what was waiting before the step. */
  lemma Combine(first: (seq<Item>, seq<Item>), rest: (seq<Item>, seq<Item>), own: multiset<Item>,
                others: multiset<Item>, pending: multiset<Item>)
    requires multiset(first.0) + multiset(first.1) == own + pending
    requires multiset(rest.0) + multiset(rest.1) == others + multiset(first.1)
    ensures multiset(first.0 + rest.0) + multiset(rest.1) == own + others + pending
  {
    calc {
      multiset(first.0 + rest.0) + multiset(rest.1);
      multiset(first.0) + (multiset(rest.0) + multiset(rest.1));
      (multiset(first.0) + multiset(first.1)) + others;
    }
  }

  lemma {:induction false} PlaceAllKeeps(ys: seq<Item>, pending: seq<Item>)
    ensures var r := PlaceAll(ys, pending);
      multiset(r.0) + multiset(r.1) == multiset(ys) + multiset(pending)
    decreases |pending|, 1, |ys|
  {
    if |ys| > 0 {
      var first := Place(ys[0], pending);
      PlaceKeeps(ys[0], pending);
      PlaceAllKeeps(ys[1..], first.1);
      Combine(first, PlaceAll(ys[1..], first.1), multiset{ys[0]}, multiset(ys[1..]), multiset(pending));
      assert ys == [ys[0]] + ys[1..];
    }
  }

  lemma {:induction false} TraverseKeeps(free: seq<Item>, byIndex: seq<Item>, pending: seq<Item>, count: int)
    ensures var r := Traverse(free, byIndex, pending, count);
      multiset(r.0) + multiset(r.1) == multiset(free) + multiset(byIndex) + multiset(pending)
    decreases |free| + |byIndex|
  {
    if |free| + |byIndex| > 0 {
      var next := Next(free, byIndex, count);
      var first := Place(next.0, pending);
      var c := Advance(count, first.0);
      var rest := Traverse(next.1, next.2, first.1, c);
      TraverseKeeps(next.1, next.2, first.1, c);
      NextKeeps(free, byIndex, count);
      PlaceKeeps(next.0, pending);
      Combine(first, rest, multiset{next.0}, multiset(next.1) + multiset(next.2), multiset(pending));
    }
  }

  /** The names that some item asked to follow, in `pending`. */
  function Targets(pending: seq<Item>): (r: seq<string>)
    ensures |r| == |pending|
  {
    if |pending| == 0 then []
    else [if pending[0].after.AfterName? then pending[0].after.target else ""] + Targets(pending[1..])
  }

  /** `s` without repetitions, keeping first occurrences. */
  function Distinct(s: seq<string>): (r: seq<string>)
    ensures forall x :: x in r <==> x in s
    ensures forall i, j :: 0 <= i < j < |r| ==> r[i] != r[j]
  {
    if |s| == 0 then []
    else if s[0] in s[1..] then Distinct(s[1..])
    else [s[0]] + Distinct(s[1..])
  }

  /** The `KeyError` text for the names that no placed item had. */
  function MissingMessage(names: seq<string>): string {
    "Tried to order after " + JoinWith(", ", names) + " but "
      + (if |names| == 1 then "that key does not exist" else "those keys do not exist")
  }

  /** The whole run: what is emitted, and what is still waiting at the end. */
  function Run(items: seq<Item>): (seq<Item>, seq<Item>) {
    var main := Traverse(Select(items, Free), SortByPosition(Select(items, Index)), Select(items, Name), 0);
    var last := PlaceAll(Select(items, AtEnd), main.1);
    (main.0 + last.0, last.1)
  }

  /** The names reported when some items could not be placed: sorted, each once. */
  function MissingNames(items: seq<Item>): seq<string> {
    SortStrings(Distinct(Targets(Run(items).1)))
  }

  /** `sort_after(items)`. */
  function SortAfter(items: seq<Item>): Outcome {
    var run := Run(items);
    if |run.1| == 0 then Ok(run.0) else KeyError(MissingMessage(MissingNames(items)))
  }
}
