/** The `dispatch` examples of tests/test_misc.py, proved on the model. */
module DispatchingTests {
  import opened Paths
  import opened Namespaces
  import opened NamespaceLaws
  import opened MergeCases
  import opened Dispatching

  /** The decorated function `f` (or `foo`) of the examples. */
  const F: FuncId := 1

  /** tests/test_misc.py:614-622: the decorator's keywords are stored as a Namespace. */
  lemma StoreArguments()
    ensures Stored(Dispatcher(F, [("foo", Int(1)), ("bar", Int(2))])) == [("foo", Int(1)), ("bar", Int(2))]
  {
    SplitSegment("foo");
    SplitSegment("bar");
    ConstructFresh([("foo", Int(1)), ("bar", Int(2))]);
  }

  /** tests/test_misc.py:322-327: an `EMPTY` default reaches the function as an empty
      Namespace. */
  lemma EmptyDefault()
    ensures Arguments(Dispatcher(F, [("foo", Empty)]), []) == [("foo", Empty)]
  {
    var s := [("foo", Empty)];
    SplitSegment("foo");
    ConstructFresh(s);
    assert Stored(Dispatcher(F, s)) == s;
    assert Reverse([[], s]) == [s, []];
    ConstructFreshTwo(s, []);
    assert s + [] == s;
    ConstructEmptyLast([s, []]);
  }
}
