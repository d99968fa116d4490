/** What `sort_after` promises: the result is a reordering of the input, the unconstrained,
    index and `LAST` items keep their own order, every item that asked to follow a name comes
    after an item of that name, and a name that no item has is reported. */
module OrderingLaws {
  import opened Strings
  import opened Ordering

  predicate AllOf(s: seq<Item>, k: Kind) {
    forall j :: 0 <= j < |s| ==> KindOf(s[j]) == k
  }

  lemma {:induction false} SelectAppend(a: seq<Item>, b: seq<Item>, k: Kind)
    ensures Select(a + b, k) == Select(a, k) + Select(b, k)
    decreases |a|
  {
    if |a| > 0 {
      SelectAppend(a[1..], b, k);
      var h := if KindOf(a[0]) == k then [a[0]] else [];
      assert (a + b)[0] == a[0];
      assert (a + b)[1..] == a[1..] + b;
      calc {
        Select(a + b, k);
        h + Select(a[1..] + b, k);
        h + (Select(a[1..], k) + Select(b, k));
        (h + Select(a[1..], k)) + Select(b, k);
      }
    } else {
      assert a + b == b;
    }
  }

  lemma {:induction false} SelectNone(s: seq<Item>, k: Kind)
    requires forall j :: 0 <= j < |s| ==> KindOf(s[j]) != k
    ensures Select(s, k) == []
    decreases |s|
  {
    if |s| > 0 {
      SelectNone(s[1..], k);
    }
  }

  lemma {:induction false} SelectAll(s: seq<Item>, k: Kind)
    requires AllOf(s, k)
    ensures Select(s, k) == s
    decreases |s|
  {
    if |s| > 0 {
      SelectAll(s[1..], k);
      assert s == [s[0]] + s[1..];
    }
  }

  lemma SelectStep(s: seq<Item>, k: Kind)
    requires |s| > 0
    ensures multiset(Select(s, k)) == (if KindOf(s[0]) == k then multiset{s[0]} else multiset{}) + multiset(Select(s[1..], k))
  {
  }

  lemma AddOne(x: multiset<Item>, a: multiset<Item>, b: multiset<Item>, c: multiset<Item>, d: multiset<Item>)
    ensures (x + a) + b + c + d == x + (a + b + c + d)
    ensures a + (x + b) + c + d == x + (a + b + c + d)
    ensures a + b + (x + c) + d == x + (a + b + c + d)
    ensures a + b + c + (x + d) == x + (a + b + c + d)
  {
  }

  /** The items of each kind, together. */
  function Buckets(s: seq<Item>): multiset<Item> {
    multiset(Select(s, Free)) + multiset(Select(s, Index)) + multiset(Select(s, Name))
      + multiset(Select(s, AtEnd))
  }

  /** Splitting by kind loses and invents nothing. */
  lemma {:induction false} SelectPartition(s: seq<Item>)
    ensures Buckets(s) == multiset(s)
    decreases |s|
  {
    if |s| > 0 {
      SelectPartition(s[1..]);
      BucketsStep(s);
      MultisetHead(s);
    }
  }

  lemma MultisetHead(s: seq<Item>)
    requires |s| > 0
    ensures multiset(s) == multiset{s[0]} + multiset(s[1..])
  {
    assert s == [s[0]] + s[1..];
  }

  /** The first item goes into the bucket of its kind. */
  lemma BucketsStep(s: seq<Item>)
    requires |s| > 0
    ensures Buckets(s) == multiset{s[0]} + Buckets(s[1..])
  {
    var t := s[1..];
    SelectStep(s, Free);
    SelectStep(s, Index);
    SelectStep(s, Name);
    SelectStep(s, AtEnd);
    AddOne(multiset{s[0]}, multiset(Select(t, Free)), multiset(Select(t, Index)), multiset(Select(t, Name)), multiset(Select(t, AtEnd)));
  }

  lemma AllOfPermuted(s: seq<Item>, t: seq<Item>, k: Kind)
    requires AllOf(s, k) && multiset(s) == multiset(t)
    ensures AllOf(t, k)
  {
    forall j | 0 <= j < |t| ensures KindOf(t[j]) == k {
      assert t[j] in multiset(s);
      var i :| 0 <= i < |s| && s[i] == t[j];
    }
  }

  /** Only items that asked to follow a name ever wait: what `place` emits after its own item,
      and what it leaves waiting, are such items. */
  lemma {:induction false} PlaceNamed(x: Item, pending: seq<Item>)
    requires AllOf(pending, Name)
    ensures var r := Place(x, pending); AllOf(r.0[1..], Name) && AllOf(r.1, Name)
    decreases |pending|, 0
  {
    var ys := Children(pending, x.name);
    if |ys| > 0 {
      OthersNamed(pending, x.name);
      ChildrenNamed(pending, x.name);
      PlaceAllNamed(ys, Others(pending, x.name));
      var placed := PlaceAll(ys, Others(pending, x.name));
      assert Place(x, pending).0[1..] == placed.0;
    }
  }

  lemma {:induction false} PlaceAllNamed(ys: seq<Item>, pending: seq<Item>)
    requires AllOf(ys, Name) && AllOf(pending, Name)
    ensures var r := PlaceAll(ys, pending); AllOf(r.0, Name) && AllOf(r.1, Name)
    decreases |pending|, 1, |ys|
  {
    if |ys| > 0 {
      var first := Place(ys[0], pending);
      PlaceNamed(ys[0], pending);
      PlaceAllNamed(ys[1..], first.1);
      assert first.0 == [ys[0]] + first.0[1..];
    }
  }

  lemma {:induction false} ChildrenNamed(pending: seq<Item>, name: string)
    ensures AllOf(Children(pending, name), Name)
    decreases |pending|
  {
    if |pending| > 0 {
      ChildrenNamed(pending[1..], name);
    }
  }

  lemma {:induction false} OthersNamed(pending: seq<Item>, name: string)
    requires AllOf(pending, Name)
    ensures AllOf(Others(pending, name), Name)
    decreases |pending|
  {
    if |pending| > 0 {
      OthersNamed(pending[1..], name);
    }
  }

  /** Of the kinds that never wait, `place(x)` emits `x` alone. */
  lemma PlacedSelect(x: Item, pending: seq<Item>, k: Kind)
    requires AllOf(pending, Name) && k != Name
    ensures Select(Place(x, pending).0, k) == Select([x], k)
  {
    var r := Place(x, pending).0;
    PlaceNamed(x, pending);
    assert r == [x] + r[1..];
    SelectAppend([x], r[1..], k);
    SelectNone(r[1..], k);
  }

  /** One placement followed by the rest, seen through kind `k`. */
  lemma PlacedThen(x: Item, pending: seq<Item>, rest: seq<Item>, k: Kind)
    requires AllOf(pending, Name) && k != Name
    ensures Select(Place(x, pending).0 + rest, k) == Select([x], k) + Select(rest, k)
  {
    PlacedSelect(x, pending, k);
    SelectAppend(Place(x, pending).0, rest, k);
  }

  lemma SelectOne(x: Item, k: Kind)
    ensures Select([x], k) == if KindOf(x) == k then [x] else []
  {
    assert [x][1..] == [];
  }

  /** `r` emits `free` and `byIndex` in that order, no `LAST` item, and leaves only items that
      follow a name waiting. */
  predicate EmitsInOrder(r: (seq<Item>, seq<Item>), free: seq<Item>, byIndex: seq<Item>) {
    && Select(r.0, Free) == free && Select(r.0, Index) == byIndex && Select(r.0, AtEnd) == []
    && AllOf(r.1, Name)
  }

  /** The main loop emits the unconstrained items in input order and the index items in the
      order they were sorted into; it places no `LAST` item. */
  lemma {:induction false} TraverseOrder(free: seq<Item>, byIndex: seq<Item>, pending: seq<Item>, count: int)
    requires AllOf(free, Free) && AllOf(byIndex, Index) && AllOf(pending, Name)
    ensures EmitsInOrder(Traverse(free, byIndex, pending, count), free, byIndex)
    decreases |free| + |byIndex|
  {
    if |free| + |byIndex| > 0 {
      var next := Next(free, byIndex, count);
      var first := Place(next.0, pending);
      var c := Advance(count, first.0);
      var rest := Traverse(next.1, next.2, first.1, c);
      assert Traverse(free, byIndex, pending, count) == (first.0 + rest.0, rest.1);
      PlaceNamed(next.0, pending);
      NextKinds(free, byIndex, count);
      TraverseOrder(next.1, next.2, first.1, c);
      PlacedBefore(next.0, pending, rest, next.1, next.2);
    }
  }

  /** `Next` takes the head of one of the two lists, which keep their kinds. */
  lemma NextKinds(free: seq<Item>, byIndex: seq<Item>, count: int)
    requires |free| + |byIndex| > 0 && AllOf(free, Free) && AllOf(byIndex, Index)
    ensures var r := Next(free, byIndex, count);
      && AllOf(r.1, Free) && AllOf(r.2, Index)
      && (if KindOf(r.0) == Free then free == [r.0] + r.1 else free == r.1)
      && (if KindOf(r.0) == Index then byIndex == [r.0] + r.2 else byIndex == r.2)
      && KindOf(r.0) != Name && KindOf(r.0) != AtEnd
  {
    var r := Next(free, byIndex, count);
    if |byIndex| > 0 && r == (byIndex[0], free, byIndex[1..]) {
      assert byIndex == [byIndex[0]] + byIndex[1..];
      assert AllOf(byIndex[1..], Index);
    } else {
      assert free == [free[0]] + free[1..];
      assert AllOf(free[1..], Free);
    }
  }

  /** An unconstrained or index item placed before what the rest of the loop emits. */
  lemma PlacedBefore(x: Item, pending: seq<Item>, rest: (seq<Item>, seq<Item>), f: seq<Item>, b: seq<Item>)
    requires AllOf(pending, Name) && KindOf(x) != Name && KindOf(x) != AtEnd
    requires EmitsInOrder(rest, f, b)
    ensures EmitsInOrder((Place(x, pending).0 + rest.0, rest.1),
                         if KindOf(x) == Free then [x] + f else f,
                         if KindOf(x) == Index then [x] + b else b)
  {
    PlacedThen(x, pending, rest.0, Free);
    PlacedThen(x, pending, rest.0, Index);
    PlacedThen(x, pending, rest.0, AtEnd);
    SelectOne(x, Free);
    SelectOne(x, Index);
    SelectOne(x, AtEnd);
  }

  /** The `LAST` items are emitted in input order, with nothing else of their kind. */
  lemma {:induction false} LastOrder(ys: seq<Item>, pending: seq<Item>)
    requires AllOf(ys, AtEnd) && AllOf(pending, Name)
    ensures var r := PlaceAll(ys, pending);
      && Select(r.0, AtEnd) == ys && Select(r.0, Free) == [] && Select(r.0, Index) == []
    decreases |ys|
  {
    if |ys| > 0 {
      var first := Place(ys[0], pending);
      var rest := PlaceAll(ys[1..], first.1);
      PlaceNamed(ys[0], pending);
      LastOrder(ys[1..], first.1);
      PlacedThen(ys[0], pending, rest.0, Free);
      PlacedThen(ys[0], pending, rest.0, Index);
      PlacedThen(ys[0], pending, rest.0, AtEnd);
      assert ys == [ys[0]] + ys[1..];
    }
  }

  /** Every item is emitted or left waiting, once. */
  lemma RunKeeps(items: seq<Item>)
    ensures multiset(Run(items).0) + multiset(Run(items).1) == multiset(items)
  {
    var main := Traverse(Select(items, Free), SortByPosition(Select(items, Index)), Select(items, Name), 0);
    var last := PlaceAll(Select(items, AtEnd), main.1);
    TraverseKeeps(Select(items, Free), SortByPosition(Select(items, Index)), Select(items, Name), 0);
    PlaceAllKeeps(Select(items, AtEnd), main.1);
    SelectPartition(items);
    calc {
      multiset(main.0 + last.0) + multiset(last.1);
      multiset(main.0) + (multiset(last.0) + multiset(last.1));
      multiset(main.0) + multiset(main.1) + multiset(Select(items, AtEnd));
    }
  }

  /** `sort_after` returns a reordering of its input. */
  lemma SortAfterPermutes(items: seq<Item>)
    ensures SortAfter(items).Ok? ==> multiset(SortAfter(items).items) == multiset(items)
  {
    RunKeeps(items);
  }

  /** Unconstrained items keep their input order, index items come in the order of the
      positions they ask for (ties in input order), and `LAST` items keep their input order. */
  lemma SortAfterOrder(items: seq<Item>)
    requires SortAfter(items).Ok?
    ensures var out := SortAfter(items).items;
      && Select(out, Free) == Select(items, Free)
      && Select(out, Index) == SortByPosition(Select(items, Index))
      && Select(out, AtEnd) == Select(items, AtEnd)
    ensures var out := SortAfter(items).items;
      forall i, j :: 0 <= i < |out| && 0 <= j < |out| && KindOf(out[i]) == AtEnd ==>
        (KindOf(out[j]) == Free || KindOf(out[j]) == Index ==> j < i)
  {
    forall i, j | 0 <= i < |SortAfter(items).items| && 0 <= j < |SortAfter(items).items|
        && KindOf(SortAfter(items).items[i]) == AtEnd
        && (KindOf(SortAfter(items).items[j]) == Free || KindOf(SortAfter(items).items[j]) == Index)
      ensures j < i
    {
      LastAfterRest(items, i, j);
    }
    var free := Select(items, Free);
    var byIndex := SortByPosition(Select(items, Index));
    var main := Traverse(free, byIndex, Select(items, Name), 0);
    var last := PlaceAll(Select(items, AtEnd), main.1);
    AllOfPermuted(Select(items, Index), byIndex, Index);
    TraverseOrder(free, byIndex, Select(items, Name), 0);
    LastOrder(Select(items, AtEnd), main.1);
    SelectAppend(main.0, last.0, Free);
    SelectAppend(main.0, last.0, Index);
    SelectAppend(main.0, last.0, AtEnd);
  }

  /** The item at `j` asked to follow a name, and an earlier item has it. */
  predicate Preceded(s: seq<Item>, j: int)
    requires 0 <= j < |s|
  {
    s[j].after.AfterName? && exists i :: 0 <= i < j && s[i].name == s[j].after.target
  }

  /** Every item that asked to follow a name comes after an item of that name, unless the name
      is one of `outside`. */
  predicate Justified(s: seq<Item>, outside: set<string>) {
    forall j :: 0 <= j < |s| && s[j].after.AfterName? ==> s[j].after.target in outside || Preceded(s, j)
  }

  lemma JustifiedAppend(a: seq<Item>, b: seq<Item>, outside: set<string>)
    requires Justified(a, outside) && Justified(b, outside)
    ensures Justified(a + b, outside)
  {
    var s := a + b;
    forall j | 0 <= j < |s| && s[j].after.AfterName? && s[j].after.target !in outside
      ensures Preceded(s, j)
    {
      if j < |a| {
        assert s[j] == a[j];
        var i :| 0 <= i < j && a[i].name == a[j].after.target;
        assert s[i] == a[i];
      } else {
        assert s[j] == b[j - |a|];
        assert Preceded(b, j - |a|);
        var i :| 0 <= i < j - |a| && b[i].name == b[j - |a|].after.target;
        assert s[i + |a|] == b[i];
      }
    }
  }

  lemma JustifiedCons(x: Item, s: seq<Item>, outside: set<string>)
    requires Justified(s, outside + {x.name})
    requires x.after.AfterName? ==> x.after.target in outside
    ensures Justified([x] + s, outside)
  {
    var t := [x] + s;
    forall j | 0 <= j < |t| && t[j].after.AfterName? && t[j].after.target !in outside
      ensures Preceded(t, j)
    {
      assert j > 0;
      assert t[j] == s[j - 1];
      if t[j].after.target == x.name {
        assert t[0].name == x.name;
      } else {
        assert Preceded(s, j - 1);
        var i :| 0 <= i < j - 1 && s[i].name == s[j - 1].after.target;
        assert t[i + 1] == s[i];
      }
    }
  }

  lemma {:induction false} ChildrenFollow(pending: seq<Item>, name: string)
    ensures forall j :: 0 <= j < |Children(pending, name)| ==> Children(pending, name)[j].after == AfterName(name)
    decreases |pending|
  {
    if |pending| > 0 {
      ChildrenFollow(pending[1..], name);
    }
  }

  /** Every waiting item `place(x)` emits comes after an item it names, unless that name is one
      of `outside`. */
  lemma {:induction false} PlaceJustified(x: Item, pending: seq<Item>, outside: set<string>)
    requires x.after.AfterName? ==> x.after.target in outside
    ensures Justified(Place(x, pending).0, outside)
    decreases |pending|, 0
  {
    var ys := Children(pending, x.name);
    if |ys| == 0 {
      assert Place(x, pending).0 == [x];
    } else {
      ChildrenFollow(pending, x.name);
      PlaceAllJustified(ys, Others(pending, x.name), outside + {x.name});
      JustifiedCons(x, PlaceAll(ys, Others(pending, x.name)).0, outside);
    }
  }

  lemma {:induction false} PlaceAllJustified(ys: seq<Item>, pending: seq<Item>, outside: set<string>)
    requires forall j :: 0 <= j < |ys| && ys[j].after.AfterName? ==> ys[j].after.target in outside
    ensures Justified(PlaceAll(ys, pending).0, outside)
    decreases |pending|, 1, |ys|
  {
    if |ys| > 0 {
      var first := Place(ys[0], pending);
      PlaceJustified(ys[0], pending, outside);
      assert forall j :: 0 <= j < |ys[1..]| ==> ys[1..][j] == ys[j + 1];
      PlaceAllJustified(ys[1..], first.1, outside);
      JustifiedAppend(first.0, PlaceAll(ys[1..], first.1).0, outside);
    }
  }

  lemma {:induction false} TraverseJustified(free: seq<Item>, byIndex: seq<Item>, pending: seq<Item>, count: int)
    requires AllOf(free, Free) && AllOf(byIndex, Index)
    ensures Justified(Traverse(free, byIndex, pending, count).0, {})
    decreases |free| + |byIndex|
  {
    if |free| + |byIndex| > 0 {
      var next := Next(free, byIndex, count);
      var first := Place(next.0, pending);
      var c := Advance(count, first.0);
      assert KindOf(next.0) != Name;
      PlaceJustified(next.0, pending, {});
      assert AllOf(next.1, Free) && AllOf(next.2, Index);
      TraverseJustified(next.1, next.2, first.1, c);
      JustifiedAppend(first.0, Traverse(next.1, next.2, first.1, c).0, {});
    }
  }

  /** Everything emitted that asked to follow a name comes after an emitted item of that name. */
  lemma RunJustified(items: seq<Item>)
    ensures Justified(Run(items).0, {})
  {
    var free := Select(items, Free);
    var byIndex := SortByPosition(Select(items, Index));
    var main := Traverse(free, byIndex, Select(items, Name), 0);
    var ends := Select(items, AtEnd);
    AllOfPermuted(Select(items, Index), byIndex, Index);
    TraverseJustified(free, byIndex, Select(items, Name), 0);
    assert forall j :: 0 <= j < |ends| ==> KindOf(ends[j]) == AtEnd;
    PlaceAllJustified(ends, main.1, {});
    JustifiedAppend(main.0, PlaceAll(ends, main.1).0, {});
  }

  /** `after=<name>`: in a successful result each such item comes after an item called `name`. */
  lemma SortAfterFollows(items: seq<Item>, j: int)
    requires SortAfter(items).Ok? && 0 <= j < |SortAfter(items).items|
    requires SortAfter(items).items[j].after.AfterName?
    ensures exists i :: 0 <= i < j && SortAfter(items).items[i].name == SortAfter(items).items[j].after.target
  {
    RunJustified(items);
    assert Preceded(Run(items).0, j);
  }

  lemma {:induction false} TargetsHas(pending: seq<Item>, j: int)
    requires 0 <= j < |pending| && pending[j].after.AfterName?
    ensures pending[j].after.target in Targets(pending)
    decreases j
  {
    if j > 0 {
      TargetsHas(pending[1..], j - 1);
    }
  }

  lemma EmittedFromInput(items: seq<Item>, i: int)
    requires 0 <= i < |Run(items).0|
    ensures Run(items).0[i] in items
  {
    var run := Run(items);
    RunKeeps(items);
    assert run.0[i] in multiset(run.0);
    assert run.0[i] in multiset(run.0) + multiset(run.1);
    assert run.0[i] in multiset(items);
  }

  /** Asking to follow a name that no item has is a `KeyError` that reports that name, in a
      sorted list of the names that could not be followed. */
  lemma MissingNameReported(items: seq<Item>, y: Item)
    requires y in items && y.after.AfterName?
    requires forall z :: z in items ==> z.name != y.after.target
    ensures SortAfter(items) == KeyError(MissingMessage(MissingNames(items)))
    ensures y.after.target in MissingNames(items) && Sorted(MissingNames(items))
  {
    var j := StillWaiting(items, y);
    var run := Run(items);
    TargetsHas(run.1, j);
    var names := Distinct(Targets(run.1));
    assert y.after.target in multiset(names);
  }

  /** An item whose target no item has is never emitted: it is still waiting at the end. */
  lemma StillWaiting(items: seq<Item>, y: Item) returns (j: int)
    requires y in items && y.after.AfterName?
    requires forall z :: z in items ==> z.name != y.after.target
    ensures 0 <= j < |Run(items).1| && Run(items).1[j] == y
  {
    var run := Run(items);
    InRun(items, y);
    if y in run.0 {
      var k :| 0 <= k < |run.0| && run.0[k] == y;
      NeverEmitted(items, y, k);
      assert false;
    }
    j :| 0 <= j < |run.1| && run.1[j] == y;
  }

  /** Every item ends up either emitted or still waiting. */
  lemma InRun(items: seq<Item>, y: Item)
    requires y in items
    ensures y in Run(items).0 || y in Run(items).1
  {
    var run := Run(items);
    RunKeeps(items);
    assert y in multiset(items);
    assert y in multiset(run.0) + multiset(run.1);
  }

  lemma NeverEmitted(items: seq<Item>, y: Item, k: int)
    requires y.after.AfterName?
    requires forall z :: z in items ==> z.name != y.after.target
    requires 0 <= k < |Run(items).0|
    ensures Run(items).0[k] != y
  {
    var run := Run(items);
    if run.0[k] == y {
      RunJustified(items);
      assert Preceded(run.0, k);
      var i :| 0 <= i < k && run.0[i].name == y.after.target;
      EmittedFromInput(items, i);
    }
  }

  /** Without `after=<name>` nothing waits, and `sort_after` always succeeds. */
  lemma NoNamesSucceed(items: seq<Item>)
    requires forall z :: z in items ==> !z.after.AfterName?
    ensures SortAfter(items).Ok?
  {
    SelectNone(items, Name);
  }

  /** Nothing of kind `k` in `s`. */
  lemma {:induction false} SelectEmpty(s: seq<Item>, k: Kind, j: int)
    requires Select(s, k) == [] && 0 <= j < |s|
    ensures KindOf(s[j]) != k
    decreases |s|
  {
    if j > 0 {
      SelectEmpty(s[1..], k, j - 1);
    }
  }

  /** `LAST` items come after every unconstrained and every index item. */
  lemma LastAfterRest(items: seq<Item>, i: int, j: int)
    requires SortAfter(items).Ok?
    requires 0 <= i < |SortAfter(items).items| && 0 <= j < |SortAfter(items).items|
    requires KindOf(SortAfter(items).items[i]) == AtEnd
    requires KindOf(SortAfter(items).items[j]) == Free || KindOf(SortAfter(items).items[j]) == Index
    ensures j < i
  {
    var free := Select(items, Free);
    var byIndex := SortByPosition(Select(items, Index));
    var main := Traverse(free, byIndex, Select(items, Name), 0);
    var last := PlaceAll(Select(items, AtEnd), main.1);
    var out := main.0 + last.0;
    AllOfPermuted(Select(items, Index), byIndex, Index);
    TraverseOrder(free, byIndex, Select(items, Name), 0);
    LastOrder(Select(items, AtEnd), main.1);
    if i < |main.0| {
      assert out[i] == main.0[i];
      SelectEmpty(main.0, AtEnd, i);
    }
    if j >= |main.0| {
      assert out[j] == last.0[j - |main.0|];
      SelectEmpty(last.0, Free, j - |main.0|);
      SelectEmpty(last.0, Index, j - |main.0|);
    }
  }
}
