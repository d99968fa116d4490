/** Ties and groups in `sort_after`: index items asking for the same position keep their input
    order (Python's `sorted` is stable), the items waiting for the same name keep theirs, and
    the front of the result is the first index item that asks for position 0 or earlier. */
module OrderingTies {
  import opened Ordering
  import opened OrderingLaws

  /** The items of `s` that ask for position `p`, in order. */
  function AtPosition(s: seq<Item>, p: int): (r: seq<Item>)
    ensures forall j :: 0 <= j < |r| ==> Position(r[j]) == p
    ensures |r| <= |s|
  {
    if |s| == 0 then []
    else (if Position(s[0]) == p then [s[0]] else []) + AtPosition(s[1..], p)
  }

  lemma AtPositionCons(x: Item, s: seq<Item>, p: int)
    ensures AtPosition([x] + s, p) == (if Position(x) == p then [x] else []) + AtPosition(s, p)
  {
    assert ([x] + s)[1..] == s;
  }

  /** Two fronts, one of them empty, can be put in either order. */
  lemma SwapFront(a: seq<Item>, b: seq<Item>, s: seq<Item>)
    requires a == [] || b == []
    ensures a + (b + s) == b + (a + s)
  {
    if a == [] {
      assert a + (b + s) == b + s;
    } else {
      assert a + (b + s) == a + s;
    }
  }

  /** Inserting `x` puts it ahead of the items asking for its own position. */
  lemma {:induction false} InsertKeepsTies(x: Item, s: seq<Item>, p: int)
    requires ByPosition(s)
    ensures AtPosition(InsertByPosition(x, s), p) == (if Position(x) == p then [x] else []) + AtPosition(s, p)
    decreases |s|
  {
    if |s| == 0 || Position(x) <= Position(s[0]) {
      AtPositionCons(x, s, p);
    } else {
      var h, t := s[0], s[1..];
      var rest := InsertByPosition(x, t);
      InsertKeepsTies(x, t, p);
      assert s == [h] + t;
      assert InsertByPosition(x, s) == [h] + rest;
      AtPositionCons(h, rest, p);
      AtPositionCons(h, t, p);
      var hs: seq<Item> := if Position(h) == p then [h] else [];
      var xs: seq<Item> := if Position(x) == p then [x] else [];
      assert hs == [] || xs == [];
      SwapFront(hs, xs, AtPosition(t, p));
    }
  }

  /** `SortByPosition` is stable: the items asking for the same position keep their order. */
  lemma {:induction false} SortKeepsTies(s: seq<Item>, p: int)
    ensures AtPosition(SortByPosition(s), p) == AtPosition(s, p)
    decreases |s|
  {
    if |s| > 0 {
      SortKeepsTies(s[1..], p);
      InsertKeepsTies(s[0], SortByPosition(s[1..]), p);
      AtPositionCons(s[0], s[1..], p);
      assert s == [s[0]] + s[1..];
    }
  }

  /** Index items that ask for the same position come out in input order. */
  lemma SortAfterTies(items: seq<Item>, p: int)
    requires SortAfter(items).Ok?
    ensures AtPosition(Select(SortAfter(items).items, Index), p) == AtPosition(Select(items, Index), p)
  {
    SortAfterOrder(items);
    SortKeepsTies(Select(items, Index), p);
  }

  lemma WaitingCons(x: Item, s: seq<Item>, t: string)
    ensures Children([x] + s, t) == (if x.after == AfterName(t) then [x] else []) + Children(s, t)
  {
    assert ([x] + s)[1..] == s;
  }

  lemma {:induction false} WaitingAppend(a: seq<Item>, b: seq<Item>, t: string)
    ensures Children(a + b, t) == Children(a, t) + Children(b, t)
    decreases |a|
  {
    if |a| > 0 {
      WaitingAppend(a[1..], b, t);
      assert a + b == [a[0]] + (a[1..] + b);
      WaitingCons(a[0], a[1..] + b, t);
      WaitingCons(a[0], a[1..], t);
      assert a == [a[0]] + a[1..];
    } else {
      assert a + b == b;
    }
  }

  /** Taking the children of `name` takes all the items waiting for `t` when `name` is `t`,
      and none of them otherwise. */
  lemma {:induction false} WaitingChildren(pending: seq<Item>, name: string, t: string)
    ensures Children(Children(pending, name), t) == if name == t then Children(pending, t) else []
    decreases |pending|
  {
    if |pending| > 0 {
      var x := pending[0];
      var rest := pending[1..];
      WaitingChildren(rest, name, t);
      assert Children(pending, t) == (if x.after == AfterName(t) then [x] else []) + Children(rest, t) by {
        assert pending == [x] + rest;
        WaitingCons(x, rest, t);
      }
      if x.after == AfterName(name) {
        assert Children(pending, name) == [x] + Children(rest, name);
        WaitingCons(x, Children(rest, name), t);
      } else {
        assert Children(pending, name) == Children(rest, name);
      }
    }
  }

  /** What is left once the children of `name` are taken: none of the items waiting for `t`
      when `name` is `t`, all of them otherwise. */
  lemma {:induction false} WaitingOthers(pending: seq<Item>, name: string, t: string)
    ensures Children(Others(pending, name), t) == if name == t then [] else Children(pending, t)
    decreases |pending|
  {
    if |pending| > 0 {
      var x := pending[0];
      var rest := pending[1..];
      WaitingOthers(rest, name, t);
      assert Children(pending, t) == (if x.after == AfterName(t) then [x] else []) + Children(rest, t) by {
        assert pending == [x] + rest;
        WaitingCons(x, rest, t);
      }
      if x.after == AfterName(name) {
        assert Others(pending, name) == Others(rest, name);
      } else {
        assert Others(pending, name) == [x] + Others(rest, name);
        WaitingCons(x, Others(rest, name), t);
      }
    }
  }

  lemma Regroup(a: seq<Item>, b: seq<Item>, c: seq<Item>)
    ensures (a + b) + c == a + (b + c)
  {
  }

  /** `place(x)` emits and leaves waiting the items waiting for `t` in the order they were
      waiting in. */
  lemma {:induction false} PlaceWaiting(x: Item, pending: seq<Item>, t: string)
    ensures var r := Place(x, pending);
      Children(r.0, t) + Children(r.1, t) == Children([x], t) + Children(pending, t)
    decreases |pending|, 0, 0
  {
    var ys := Children(pending, x.name);
    if |ys| > 0 {
      var others := Others(pending, x.name);
      var placed := PlaceAll(ys, others);
      var wx, wys, wothers, wp := Children([x], t), Children(ys, t), Children(others, t), Children(pending, t);
      WaitingChildren(pending, x.name, t);
      WaitingOthers(pending, x.name, t);
      assert wys + wothers == wp;
      PlaceAllWaiting(ys, others, t);
      WaitingAppend([x], placed.0, t);
      assert Place(x, pending) == ([x] + placed.0, placed.1);
      var w0, w1 := Children(placed.0, t), Children(placed.1, t);
      assert w0 + w1 == wys + wothers;
      Regroup(wx, w0, w1);
    } else {
      assert Place(x, pending) == ([x], pending);
    }
  }

  /** When nothing waits for `t`, `place(x)` emits at most `x` of those items and leaves none. */
  lemma PlaceNoneLeft(x: Item, pending: seq<Item>, t: string)
    requires Children(pending, t) == []
    ensures Children(Place(x, pending).0, t) == Children([x], t) && Children(Place(x, pending).1, t) == []
    decreases |pending|, 0, 1
  {
    var r := Place(x, pending);
    PlaceWaiting(x, pending, t);
    assert r.0 == [x] + r.0[1..];
    WaitingAppend([x], r.0[1..], t);
    assert |Children([x], t)| + |Children(r.0[1..], t)| + |Children(r.1, t)| == |Children([x], t)|;
  }

  lemma {:induction false} PlaceAllWaiting(ys: seq<Item>, pending: seq<Item>, t: string)
    requires Children(ys, t) == [] || Children(pending, t) == []
    ensures var r := PlaceAll(ys, pending);
      Children(r.0, t) + Children(r.1, t) == Children(ys, t) + Children(pending, t)
    decreases |pending|, 1, |ys|
  {
    if |ys| > 0 {
      var first := Place(ys[0], pending);
      var rest := PlaceAll(ys[1..], first.1);
      assert PlaceAll(ys, pending) == (first.0 + rest.0, rest.1);
      var w0, w1, wp := Children([ys[0]], t), Children(ys[1..], t), Children(pending, t);
      assert Children(ys, t) == w0 + w1 by {
        assert ys == [ys[0]] + ys[1..];
        WaitingAppend([ys[0]], ys[1..], t);
      }
      var f0, f1, r0, r1 := Children(first.0, t), Children(first.1, t), Children(rest.0, t), Children(rest.1, t);
      assert Children(first.0 + rest.0, t) == f0 + r0 by {
        WaitingAppend(first.0, rest.0, t);
      }
      if wp == [] {
        PlaceNoneLeft(ys[0], pending, t);
        PlaceAllWaiting(ys[1..], first.1, t);
        StepNoneWaiting(w0, w1, wp, f0, f1, r0, r1);
      } else {
        PlaceWaiting(ys[0], pending, t);
        PlaceAllWaiting(ys[1..], first.1, t);
        StepNoneToPlace(w0, w1, wp, f0, f1, r0, r1);
      }
    } else {
      assert PlaceAll(ys, pending) == ([], pending);
    }
  }

  /** The step of `PlaceAllWaiting` when nothing waits for `t`. */
  lemma StepNoneWaiting(w0: seq<Item>, w1: seq<Item>, wp: seq<Item>, f0: seq<Item>, f1: seq<Item>,
                        r0: seq<Item>, r1: seq<Item>)
    requires wp == [] && f0 == w0 && f1 == [] && r0 + r1 == w1 + f1
    ensures (f0 + r0) + r1 == (w0 + w1) + wp
  {
    assert w1 + f1 == w1;
  }

  /** The step of `PlaceAllWaiting` when none of the items placed waits for `t`. */
  lemma StepNoneToPlace(w0: seq<Item>, w1: seq<Item>, wp: seq<Item>, f0: seq<Item>, f1: seq<Item>,
                        r0: seq<Item>, r1: seq<Item>)
    requires w0 + w1 == [] && f0 + f1 == w0 + wp && r0 + r1 == w1 + f1
    ensures (f0 + r0) + r1 == (w0 + w1) + wp
  {
    assert |w0| + |w1| == 0;
    assert w0 == [] && w1 == [];
    assert r0 + r1 == f1;
    calc {
      (f0 + r0) + r1;
      f0 + (r0 + r1);
      f0 + f1;
    }
  }

  lemma WaitingNotNamed(x: Item, t: string)
    requires KindOf(x) != Name
    ensures Children([x], t) == []
  {
    WaitingCons(x, [], t);
  }

  /** The main loop emits and leaves waiting the items waiting for `t` in their order. */
  lemma {:induction false} TraverseWaiting(free: seq<Item>, byIndex: seq<Item>, pending: seq<Item>, count: int, t: string)
    requires AllOf(free, Free) && AllOf(byIndex, Index)
    ensures var r := Traverse(free, byIndex, pending, count);
      Children(r.0, t) + Children(r.1, t) == Children(pending, t)
    decreases |free| + |byIndex|
  {
    if |free| + |byIndex| > 0 {
      var next := Next(free, byIndex, count);
      var first := Place(next.0, pending);
      var c := Advance(count, first.0);
      var rest := Traverse(next.1, next.2, first.1, c);
      assert Traverse(free, byIndex, pending, count) == (first.0 + rest.0, rest.1);
      NextKinds(free, byIndex, count);
      PlaceWaiting(next.0, pending, t);
      WaitingNotNamed(next.0, t);
      TraverseWaiting(next.1, next.2, first.1, c, t);
      var f0, f1, r0, r1 := Children(first.0, t), Children(first.1, t), Children(rest.0, t), Children(rest.1, t);
      assert Children(first.0 + rest.0, t) == f0 + r0 by {
        WaitingAppend(first.0, rest.0, t);
      }
      StepTraverse(Children([next.0], t), Children(pending, t), f0, f1, r0, r1);
    } else {
      assert Traverse(free, byIndex, pending, count) == ([], pending);
    }
  }

  lemma StepTraverse(wx: seq<Item>, wp: seq<Item>, f0: seq<Item>, f1: seq<Item>, r0: seq<Item>, r1: seq<Item>)
    requires wx == [] && f0 + f1 == wx + wp && r0 + r1 == f1
    ensures (f0 + r0) + r1 == wp
  {
    calc {
      (f0 + r0) + r1;
      f0 + (r0 + r1);
      wx + wp;
    }
  }

  lemma {:induction false} WaitingOfKind(s: seq<Item>, k: Kind, t: string)
    requires AllOf(s, k) && k != Name
    ensures Children(s, t) == []
    decreases |s|
  {
    if |s| > 0 {
      WaitingOfKind(s[1..], k, t);
    }
  }

  lemma {:induction false} WaitingSelect(s: seq<Item>, t: string)
    ensures Children(Select(s, Name), t) == Children(s, t)
    decreases |s|
  {
    if |s| > 0 {
      WaitingSelect(s[1..], t);
      var h := if KindOf(s[0]) == Name then [s[0]] else [];
      WaitingAppend(h, Select(s[1..], Name), t);
      assert s == [s[0]] + s[1..];
      WaitingCons(s[0], s[1..], t);
      if h == [] {
        WaitingCons(s[0], [], t);
      } else {
        assert h == [s[0]] + [];
      }
    }
  }

  /** Items that asked to follow the same name come out in input order. */
  lemma SortAfterSameTarget(items: seq<Item>, t: string)
    requires SortAfter(items).Ok?
    ensures Children(SortAfter(items).items, t) == Children(items, t)
  {
    var free := Select(items, Free);
    var byIndex := SortByPosition(Select(items, Index));
    var ends := Select(items, AtEnd);
    var main := Traverse(free, byIndex, Select(items, Name), 0);
    var last := PlaceAll(ends, main.1);
    assert SortAfter(items).items == main.0 + last.0 && |last.1| == 0;
    AllOfPermuted(Select(items, Index), byIndex, Index);
    TraverseWaiting(free, byIndex, Select(items, Name), 0, t);
    WaitingOfKind(ends, AtEnd, t);
    PlaceAllWaiting(ends, main.1, t);
    WaitingSelect(items, t);
    var m0, m1, l0, l1 := Children(main.0, t), Children(main.1, t), Children(last.0, t), Children(last.1, t);
    assert Children(main.0 + last.0, t) == m0 + l0 by {
      WaitingAppend(main.0, last.0, t);
    }
    StepRun(m0, m1, l0, l1, Children(ends, t), Children(items, t));
  }

  lemma StepRun(m0: seq<Item>, m1: seq<Item>, l0: seq<Item>, l1: seq<Item>, we: seq<Item>, wn: seq<Item>)
    requires we == [] && |l1| == 0 && m0 + m1 == wn && l0 + l1 == we + m1
    ensures m0 + l0 == wn
  {
    assert l1 == [] && l0 + l1 == l0 && we + m1 == m1;
  }

  /** What comes first: the first index item in position order when it asks for position 0 or
      earlier, otherwise the first unconstrained item. */
  lemma SortAfterFront(items: seq<Item>)
    requires SortAfter(items).Ok?
    ensures var out := SortAfter(items).items;
      var byIndex := SortByPosition(Select(items, Index));
      |byIndex| > 0 && Position(byIndex[0]) <= 0 ==> |out| > 0 && out[0] == byIndex[0]
    ensures var out := SortAfter(items).items;
      var byIndex := SortByPosition(Select(items, Index));
      var free := Select(items, Free);
      |free| > 0 && (|byIndex| == 0 || Position(byIndex[0]) > 0) ==> |out| > 0 && out[0] == free[0]
  {
    var free := Select(items, Free);
    var byIndex := SortByPosition(Select(items, Index));
    var pending := Select(items, Name);
    var main := Traverse(free, byIndex, pending, 0);
    var last := PlaceAll(Select(items, AtEnd), main.1);
    if |free| + |byIndex| > 0 {
      var next := Next(free, byIndex, 0);
      var first := Place(next.0, pending);
      var c := Advance(0, first.0);
      assert main == (first.0 + Traverse(next.1, next.2, first.1, c).0, Traverse(next.1, next.2, first.1, c).1);
      assert (main.0 + last.0)[0] == next.0;
    }
  }

  /** `place(x)`: the first item waiting for `x`'s name comes directly after `x`. */
  lemma PlaceFirstChild(x: Item, pending: seq<Item>)
    requires |Children(pending, x.name)| > 0
    ensures |Place(x, pending).0| >= 2 && Place(x, pending).0[1] == Children(pending, x.name)[0]
  {
    var ys := Children(pending, x.name);
    var placed := PlaceAll(ys, Others(pending, x.name));
    var first := Place(ys[0], Others(pending, x.name));
    assert placed.0 == first.0 + PlaceAll(ys[1..], first.1).0;
    assert Place(x, pending).0 == [x] + placed.0;
  }
}
