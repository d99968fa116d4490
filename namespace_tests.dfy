/** The examples of tests/test_misc.py for `setitem_path`, construction and
    `setdefaults_path`, proved on the model. Nested Namespace values and expected results
    are spelled out in nested form; `Same` is Python's `==`. */
module NamespaceTests {
  import opened Paths
  import opened Namespaces
  import opened NamespaceLaws
  import opened MergeCases
  import opened NamespaceObjects

  /** The function `f` of the tests, and a second one `b`. */
  const F: FuncId := 1
  const B: FuncId := 2

  /** `x = Namespace(k1=v1); x.setitem_path(k, v)` is the two-source construction. */
  lemma SetItemAfter(k1: string, v1: Value, k: string, v: Value)
    ensures SetIn(Construct([[(k1, v1)]]).items, Split(k), v) == Construct([[(k1, v1)], [(k, v)]])
  {
    FirstSource(k1, v1);
    SecondSource([(k1, v1)], k, v);
  }

  lemma Segments()
    ensures Split("x") == ["x"] && Split("y") == ["y"] && Split("z") == ["z"] && Split("f") == ["f"]
    ensures "x" + Separator + "y" == "x__y" && "x" + Separator + "z" == "x__z" && "f" + Separator + "x" == "f__x"
  {
    SplitSegment("x");
    SplitSegment("y");
    SplitSegment("z");
    SplitSegment("f");
  }

  // ---- setitem_path on a Namespace object (tests/test_misc.py:245-319) ----

  /** tests/test_misc.py:245-248 */
  method SetItemSingleValue() returns (x: Namespace)
    ensures x.items == [("x", Int(17))] && x.warnings == []
  {
    x := new Namespace([]);
    var ok := x.SetItemPath("x", Int(17));
    Segments();
    SetInFresh([], ["x"], Int(17));
  }

  /** tests/test_misc.py:251-254 */
  method SetItemSingleValueOverwrite() returns (x: Namespace)
    ensures x.items == [("x", Int(42))]
  {
    x := new Namespace([[("x", Int(17))]]);
    var ok := x.SetItemPath("x", Int(42));
    Segments();
    SetItemAfter("x", Int(17), "x", Int(42));
    ScalarOverwrites("x", Int(17), Int(42));
  }

  /** tests/test_misc.py:257-260 (the test's own assertion lacks its `== x`; this is the
      equality it evidently means). */
  method SetItemSplitPath() returns (x: Namespace)
    ensures x.items == [("x", Nested(false, [("y", Int(17))]))]
  {
    x := new Namespace([]);
    var ok := x.SetItemPath("x__y", Int(17));
    Segments();
    SplitTwo("x", "y");
    SetInFresh([], ["x", "y"], Int(17));
    assert ["x", "y"][1..] == ["y"];
  }

  /** tests/test_misc.py:263-266 */
  method SetItemSplitPathOverwrite() returns (x: Namespace)
    ensures x.items == [("x", Nested(false, [("y", Int(42))]))]
  {
    x := new Namespace([[("x__y", Int(17))]]);
    var ok := x.SetItemPath("x__y", Int(42));
    Segments();
    SplitTwo("x", "y");
    SetItemAfter("x__y", Int(17), "x__y", Int(42));
    ScalarOverwrites("x__y", Int(17), Int(42));
    assert ["x", "y"][1..] == ["y"];
  }

  /** tests/test_misc.py:269-272 */
  method SetItemNamespaceMerge() returns (x: Namespace)
    ensures x.items == [("x", Nested(false, [("y", Int(17)), ("z", Int(42))]))]
  {
    x := new Namespace([[("x__y", Int(17))]]);
    var ok := x.SetItemPath("x__z", Int(42));
    Segments();
    SetItemAfter("x__y", Int(17), "x__z", Int(42));
    SharedPrefix("x", "y", Int(17), "z", Int(42));
  }

  /** tests/test_misc.py:275-279: the string is promoted, with one warning. */
  method SetItemPromoteStringToNamespace() returns (x: Namespace)
    ensures x.items == [("x", Nested(false, [("y", Bool(true)), ("z", Int(17))]))]
    ensures x.warnings == [PreviousMessage("y")]
  {
    x := new Namespace([[("x", Str("y"))]]);
    FirstSource("x", Str("y"));
    var ok := x.SetItemPath("x__z", Int(17));
    Segments();
    SetItemAfter("x", Str("y"), "x__z", Int(17));
    StringThenPath("x", "y", "z", Int(17));
  }

  /** tests/test_misc.py:286-289 */
  method SetItemFunction() returns (x: Namespace)
    ensures x.items == [("f", Nested(false, [(CallTarget, Func(F)), ("x", Int(17))]))]
  {
    x := new Namespace([[("f", Func(F))]]);
    var ok := x.SetItemPath("f__x", Int(17));
    Segments();
    SetItemAfter("f", Func(F), "f__x", Int(17));
    FunctionThenPath("f", F, "x", Int(17));
  }

  /** tests/test_misc.py:292-295: equal as dicts; the keys come in the other order. */
  method SetItemFunctionBackward() returns (x: Namespace)
    ensures Same(Nested(false, x.items), Nested(false, [("f", Nested(false, [(CallTarget, Func(F)), ("x", Int(17))]))]))
  {
    x := new Namespace([[("f__x", Int(17))]]);
    var ok := x.SetItemPath("f", Func(F));
    assert x.items == [("f", Nested(false, [("x", Int(17)), (CallTarget, Func(F))]))] by {
      Segments();
      SetItemAfter("f__x", Int(17), "f", Func(F));
      PathThenFunction("f", "x", Int(17), F);
    }
    SwapSame("f", "x", Int(17), CallTarget, Func(F));
  }

  /** tests/test_misc.py:298-301 */
  method SetItemFunctionDict() returns (x: Namespace)
    ensures x.items == [("f", Nested(false, [(CallTarget, Func(F)), ("x", Int(17))]))]
  {
    x := new Namespace([[("f", Func(F))]]);
    var ok := x.SetItemPath("f", Nested(false, [("x", Int(17))]));
    Segments();
    SetItemAfter("f", Func(F), "f", Nested(false, [("x", Int(17))]));
    FunctionThenNamespace("f", F, [("x", Int(17))]);
    assert [(CallTarget, Func(F))] + [("x", Int(17))] == [(CallTarget, Func(F)), ("x", Int(17))];
  }

  /** tests/test_misc.py:304-307 */
  method SetItemFunctionNonDict() returns (x: Namespace)
    ensures x.items == [("f", Int(17))]
  {
    x := new Namespace([[("f", Func(F))]]);
    var ok := x.SetItemPath("f", Int(17));
    Segments();
    SetItemAfter("f", Func(F), "f", Int(17));
    ScalarOverwrites("f", Func(F), Int(17));
  }

  /** tests/test_misc.py:310-313 */
  method NoPromoteOverwrite() returns (x: Namespace)
    ensures x.items == Construct([[("x__z", Int(42))]]).items
  {
    x := new Namespace([[("x", Int(17))]]);
    var ok := x.SetItemPath("x__z", Int(42));
    Segments();
    SetItemAfter("x", Int(17), "x__z", Int(42));
    ScalarThenDeeperPath("x", Int(17), "z", Int(42));
    FirstPathSource("x", "z", Int(42));
  }

  /** tests/test_misc.py:316-319 */
  method NoPromoteOverwriteBackwards() returns (x: Namespace)
    ensures x.items == Construct([[("x", Int(17))]]).items
  {
    x := new Namespace([[("x__z", Int(42))]]);
    var ok := x.SetItemPath("x", Int(17));
    Segments();
    SetItemAfter("x__z", Int(42), "x", Int(17));
    DeeperPathThenScalar("x", "z", Int(42), Int(17));
    FirstSource("x", Int(17));
  }

  /** tests/test_misc.py:1022-1026: the `EMPTY` marker refuses an assignment. */
  method EmptyMarkerIsImmutable() returns (ok: bool)
    ensures !ok
  {
    var empty := new Namespace.Frozen();
    ok := empty.SetItem("foo", Str("bar"));
  }
}
