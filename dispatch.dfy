/** `@dispatch(**defaults)`: the decorated function keeps its defaults as a Namespace in
    `f.dispatch`, and every call fills the call-site keywords in from them with
    `setdefaults_path(Namespace(), kwargs, f.dispatch)`. */
module Dispatching {
  import opened Paths
  import opened Namespaces
  import opened NamespaceLaws
  import opened MergeCases

  /** A function decorated with `@dispatch(**defaults)`. */
  datatype Dispatcher = Dispatcher(decorated: FuncId, defaults: Items)

  /** `f.dispatch`: `Namespace(defaults)`. */
  function Stored(d: Dispatcher): Items {
    Construct([d.defaults]).items
  }

  /** The keyword arguments the decorated function receives when called with `kwargs`. */
  function Arguments(d: Dispatcher, kwargs: Items): Items {
    SetDefaults([], [kwargs, Stored(d)]).items
  }

  /** The stored defaults hold exactly the top-level keys the decorator's keywords write. */
  lemma StoredKeys(d: Dispatcher)
    ensures UniqueKeys(Stored(d))
    ensures KeySet(Stored(d)) == Heads(d.defaults)
  {
    ConstructKeys([d.defaults]);
    assert [d.defaults][..0] == [];
  }

  /** A call receives the keys of the call site and of the stored defaults, and no others. */
  lemma ArgumentKeys(d: Dispatcher, kwargs: Items)
    ensures KeySet(Arguments(d, kwargs)) == Heads(kwargs) + Heads(d.defaults)
  {
    var stored := Stored(d);
    var sources := Reverse([kwargs, stored]) + [[]];
    assert sources == [stored, kwargs, []];
    ConstructKeys(sources);
    assert AllHeads(sources) == AllHeads([stored, kwargs]) + Heads([]) by {
      assert sources[..2] == [stored, kwargs];
    }
    assert AllHeads([stored, kwargs]) == AllHeads([stored]) + Heads(kwargs) by {
      assert [stored, kwargs][..1] == [stored];
    }
    assert AllHeads([stored]) == Heads(stored) by {
      assert [stored][..0] == [];
    }
    assert Heads([]) == {};
    StoredKeys(d);
    SegmentHeads(stored);
  }

  /** Plain keywords given at the call site beat the stored defaults. */
  lemma CallSiteBeatsDefaults(d: Dispatcher, kwargs: Items)
    requires UniqueKeys(kwargs)
    requires forall j :: 0 <= j < |kwargs| ==> IsSegment(kwargs[j].0) && PlainScalar(kwargs[j].1)
    ensures forall j :: 0 <= j < |kwargs| ==> Get(Arguments(d, kwargs), kwargs[j].0) == kwargs[j].1
  {
    assert Heads([]) == {};
    EarlierDefaultWins([], kwargs, Stored(d));
  }

  /** A key the call site does not write is passed on as stored. */
  lemma DefaultKept(d: Dispatcher, kwargs: Items, k: string)
    requires k !in Heads(kwargs)
    ensures Get(Arguments(d, kwargs), k) == Get(Stored(d), k)
  {
    assert Heads([]) == {};
    DefaultsFillIn([], [kwargs, Stored(d)], k);
    assert Reverse([kwargs, Stored(d)]) == [Stored(d)] + [kwargs];
    UnwrittenKeyKept([Stored(d)], kwargs, k);
    StoredAgain(d);
  }

  /** Building a Namespace from one that is already built changes nothing. */
  lemma StoredAgain(d: Dispatcher)
    ensures Construct([Stored(d)]) == Built(Stored(d), [])
  {
    var s := Stored(d);
    forall j | 0 <= j < |s| ensures IsSegment(s[j].0) {
      assert s[j].0 in KeySet(s);
    }
    ConstructFresh(s);
  }
}
