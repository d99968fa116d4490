/** Namespace objects: mutable Namespaces whose attributes may refer to other Namespace
    objects, and to themselves. `Walk` is `flatten_items` over them: it detects a loop by
    identity, with the set of objects on the current path, so an object met again on its own
    path ends that branch while the same object under two sibling keys is walked twice. */
module FlattenObjects {
  import opened Paths
  import opened Namespaces
  import opened Flattening

  /** What an attribute of a Namespace object holds: a value that is not a Namespace, or a
      reference to a Namespace object. */
  datatype Slot = Leaf(v: Value) | Ref(obj: NamespaceObject)

  class NamespaceObject {
    var entries: seq<(string, Slot)>

    /** `Namespace()` */
    constructor ()
      ensures entries == []
    {
      entries := [];
    }

    /** `namespace.key = s`: replaces the attribute in place, or adds it at the end. */
    method SetAttr(key: string, s: Slot)
      modifies this
      ensures entries == Assign(old(entries), key, s)
    {
      var j := IndexOf(entries, key);
      if j < |entries| {
        entries := entries[j := (key, s)];
      } else {
        entries := entries + [(key, s)];
      }
    }
  }

  /** The attributes after `key` is assigned `s`. */
  function Assign(es: seq<(string, Slot)>, key: string, s: Slot): (r: seq<(string, Slot)>)
    ensures IndexOf(es, key) < |r| && r[IndexOf(es, key)] == (key, s)
    ensures forall i :: 0 <= i < |es| && es[i].0 != key ==> i < |r| && r[i] == es[i]
    ensures |r| == if IndexOf(es, key) < |es| then |es| else |es| + 1
  {
    var j := IndexOf(es, key);
    if j < |es| then es[j := (key, s)] else es + [(key, s)]
  }

  /** Every reference held by an object of `universe` stays in `universe`, and no attribute
      holds a Namespace other than by reference. */
  predicate Closed(universe: set<NamespaceObject>)
    reads universe
  {
    forall o, j :: o in universe && 0 <= j < |o.entries| ==>
      match o.entries[j].1
      case Ref(m) => m in universe
      case Leaf(v) => !v.Nested?
  }

  lemma Smaller(universe: set<NamespaceObject>, visited: set<NamespaceObject>, m: NamespaceObject)
    requires m in universe && m !in visited
    ensures |universe - (visited + {m})| < |universe - visited|
  {
    var rest := universe - (visited + {m});
    assert universe - visited == rest + {m};
    assert m !in rest;
  }

  /** `flatten_items(n, prefix, visited)` from attribute `i` on. `visited` holds the objects
      on the current path, `n` included; a reference to one of them is skipped. An empty
      Namespace object is emitted as a leaf. */
  function Walk(n: NamespaceObject, i: nat, pre: seq<string>, visited: set<NamespaceObject>,
                universe: set<NamespaceObject>): (fl: seq<(seq<string>, Value)>)
    requires Closed(universe) && n in visited && visited <= universe && i <= |n.entries|
    reads universe
    ensures Below(fl, pre)
    decreases |universe - visited|, |n.entries| - i
  {
    if i == |n.entries| then []
    else
      var k := n.entries[i].0;
      var s := n.entries[i].1;
      var here :=
        if s.Leaf? then [(pre + [k], s.v)]
        else if s.obj in visited then []
        else if |s.obj.entries| == 0 then [(pre + [k], Empty)]
        else
          (Smaller(universe, visited, s.obj);
           Walk(s.obj, 0, pre + [k], visited + {s.obj}, universe));
      assert Below(here, pre) by {
        forall j | 0 <= j < |here| ensures |here[j].0| > |pre| && here[j].0[..|pre|] == pre {
          assert here[j].0[..|pre| + 1] == pre + [k];
          assert here[j].0[..|pre|] == (pre + [k])[..|pre|];
        }
      }
      here + Walk(n, i + 1, pre, visited, universe)
  }

  /** `flatten(n)` on a Namespace object, all of whose reachable objects are in `universe`. */
  function FlattenObject(n: NamespaceObject, universe: set<NamespaceObject>): Items
    requires Closed(universe) && n in universe
    reads universe
  {
    ToDict(JoinAll(Walk(n, 0, [], {n}, universe)))
  }

  /** References go from higher to strictly lower `rank`: no object reaches itself. */
  predicate Acyclic(universe: set<NamespaceObject>, rank: map<NamespaceObject, nat>)
    reads universe
  {
    && universe <= rank.Keys
    && forall o, j :: o in universe && 0 <= j < |o.entries| && o.entries[j].1.Ref? ==>
         o.entries[j].1.obj in rank && rank[o.entries[j].1.obj] < rank[o]
  }

  /** The Namespace value an acyclic object stands for, from attribute `i` on. */
  function Unfold(n: NamespaceObject, i: nat, universe: set<NamespaceObject>, rank: map<NamespaceObject, nat>): (r: Items)
    requires Closed(universe) && Acyclic(universe, rank) && n in universe && i <= |n.entries|
    reads universe
    ensures |r| == |n.entries| - i
    ensures forall j :: 0 <= j < |r| ==> r[j].0 == n.entries[i + j].0
    decreases rank[n], |n.entries| - i
  {
    if i == |n.entries| then []
    else
      var s := n.entries[i].1;
      var v := if s.Leaf? then s.v else Nested(false, Unfold(s.obj, 0, universe, rank));
      [(n.entries[i].0, v)] + Unfold(n, i + 1, universe, rank)
  }

  /** On objects that never reach themselves, the identity-based walk is the flatten of the
      Namespace value they stand for: sharing an object under two keys, or two equal objects,
      is never taken for a loop. */
  lemma {:induction false} WalkAcyclic(n: NamespaceObject, i: nat, pre: seq<string>, visited: set<NamespaceObject>,
                                       universe: set<NamespaceObject>, rank: map<NamespaceObject, nat>)
    requires Closed(universe) && Acyclic(universe, rank) && n in visited && visited <= universe && i <= |n.entries|
    requires forall o :: o in visited ==> rank[o] >= rank[n]
    ensures Walk(n, i, pre, visited, universe) == FlattenPaths(Nested(false, Unfold(n, 0, universe, rank)), i, pre)
    decreases |universe - visited|, |n.entries| - i
  {
    if i < |n.entries| {
      var k := n.entries[i].0;
      var s := n.entries[i].1;
      if s.Ref? && s.obj !in visited && |s.obj.entries| > 0 {
        Deeper(n, i, visited, universe, rank);
        WalkAcyclic(s.obj, 0, pre + [k], visited + {s.obj}, universe, rank);
      }
      HereAgrees(n, i, pre, visited, universe, rank);
      WalkAcyclic(n, i + 1, pre, visited, universe, rank);
      WalkStep(n, i, pre, visited, universe);
      FlattenStep(Nested(false, Unfold(n, 0, universe, rank)), i, pre);
    }
  }

  /** An object referred to from `n` ranks below everything on the path to `n`, and adding it
      to the path shrinks what is left to visit. */
  lemma Deeper(n: NamespaceObject, i: nat, visited: set<NamespaceObject>,
               universe: set<NamespaceObject>, rank: map<NamespaceObject, nat>)
    requires Closed(universe) && Acyclic(universe, rank) && n in visited && visited <= universe && i < |n.entries|
    requires forall o :: o in visited ==> rank[o] >= rank[n]
    requires n.entries[i].1.Ref?
    ensures var m := n.entries[i].1.obj;
      && m in universe && m !in visited && visited + {m} <= universe
      && (forall o :: o in visited + {m} ==> rank[o] >= rank[m])
      && |universe - (visited + {m})| < |universe - visited|
  {
    var m := n.entries[i].1.obj;
    assert m in universe && rank[m] < rank[n];
    Smaller(universe, visited, m);
  }

  /** One attribute: a reference to an object off the current path is walked as the value it
      stands for, given that the walk below it agrees. */
  lemma HereAgrees(n: NamespaceObject, i: nat, pre: seq<string>, visited: set<NamespaceObject>,
                   universe: set<NamespaceObject>, rank: map<NamespaceObject, nat>)
    requires Closed(universe) && Acyclic(universe, rank) && n in visited && visited <= universe && i < |n.entries|
    requires forall o :: o in visited ==> rank[o] >= rank[n]
    requires var k := n.entries[i].0; var s := n.entries[i].1;
      s.Ref? && s.obj !in visited && |s.obj.entries| > 0 ==>
        Walk(s.obj, 0, pre + [k], visited + {s.obj}, universe)
        == FlattenPaths(Nested(false, Unfold(s.obj, 0, universe, rank)), 0, pre + [k])
    ensures WalkHere(n, i, pre, visited, universe) == FlatHere(Nested(false, Unfold(n, 0, universe, rank)), i, pre)
  {
    UnfoldAt(n, 0, i, universe, rank);
    match n.entries[i].1
    case Leaf(v) =>
    case Ref(m) =>
      assert m !in visited;
      UnfoldEmpty(m, universe, rank);
  }

  /** What `Walk` emits for attribute `i` alone. */
  function WalkHere(n: NamespaceObject, i: nat, pre: seq<string>, visited: set<NamespaceObject>,
                    universe: set<NamespaceObject>): seq<(seq<string>, Value)>
    requires Closed(universe) && n in visited && visited <= universe && i < |n.entries|
    reads universe
  {
    var k := n.entries[i].0;
    var s := n.entries[i].1;
    if s.Leaf? then [(pre + [k], s.v)]
    else if s.obj in visited then []
    else if |s.obj.entries| == 0 then [(pre + [k], Empty)]
    else Walk(s.obj, 0, pre + [k], visited + {s.obj}, universe)
  }

  lemma WalkStep(n: NamespaceObject, i: nat, pre: seq<string>, visited: set<NamespaceObject>,
                 universe: set<NamespaceObject>)
    requires Closed(universe) && n in visited && visited <= universe && i < |n.entries|
    ensures Walk(n, i, pre, visited, universe) == WalkHere(n, i, pre, visited, universe) + Walk(n, i + 1, pre, visited, universe)
  {
  }

  /** What `FlattenPaths` emits for item `i` alone. */
  function FlatHere(n: Value, i: nat, pre: seq<string>): seq<(seq<string>, Value)>
    requires n.Nested? && i < |n.items|
  {
    var (k, v) := n.items[i];
    if v.Nested? && |v.items| > 0 then FlattenPaths(v, 0, pre + [k]) else [(pre + [k], v)]
  }

  lemma FlattenStep(n: Value, i: nat, pre: seq<string>)
    requires n.Nested? && i < |n.items|
    ensures FlattenPaths(n, i, pre) == FlatHere(n, i, pre) + FlattenPaths(n, i + 1, pre)
  {
  }

  lemma {:induction false} UnfoldAt(n: NamespaceObject, i: nat, j: nat, universe: set<NamespaceObject>, rank: map<NamespaceObject, nat>)
    requires Closed(universe) && Acyclic(universe, rank) && n in universe && i <= j < |n.entries|
    ensures var s := n.entries[j].1;
      Unfold(n, i, universe, rank)[j - i].1 == if s.Leaf? then s.v else Nested(false, Unfold(s.obj, 0, universe, rank))
    decreases j - i
  {
    if i < j {
      UnfoldAt(n, i + 1, j, universe, rank);
    }
  }

  lemma UnfoldEmpty(m: NamespaceObject, universe: set<NamespaceObject>, rank: map<NamespaceObject, nat>)
    requires Closed(universe) && Acyclic(universe, rank) && m in universe
    ensures |Unfold(m, 0, universe, rank)| == |m.entries|
  {
  }
}
