/** The `assert_kwargs_empty` example of tests/test_misc.py, proved on the model. */
module KeywordArgumentsTests {
  import opened Strings
  import opened Namespaces
  import opened KeywordArguments

  const Caller: string := "test_assert_kwargs_empty"

  /** tests/test_misc.py:572-578 */
  lemma AssertKwargsEmptyExample()
    ensures AssertKwargsEmpty(Caller, []) == Accepted
    ensures AssertKwargsEmpty(Caller, [("foo", Int(1)), ("bar", Int(2)), ("baz", Int(3))])
         == Unexpected("test_assert_kwargs_empty() got unexpected keyword arguments 'bar', 'baz', 'foo'")
  {
    ListedExample();
    MessageOf(Caller, [("foo", Int(1)), ("bar", Int(2)), ("baz", Int(3))], "'bar', 'baz', 'foo'");
    MessageTextExample();
  }

  lemma MessageOf(caller: string, kwargs: Items, listed: string)
    requires |kwargs| > 0 && JoinWith(", ", Quoted(UnexpectedNames(kwargs))) == listed
    ensures AssertKwargsEmpty(caller, kwargs) == Unexpected(caller + UnexpectedText + listed)
  {
  }

  lemma MessageTextExample()
    ensures Caller + UnexpectedText + "'bar', 'baz', 'foo'"
         == "test_assert_kwargs_empty() got unexpected keyword arguments 'bar', 'baz', 'foo'"
  {
    HeadText();
    TailText();
  }

  lemma HeadText()
    ensures Caller + UnexpectedText == "test_assert_kwargs_empty() got unexpected keyword arguments "
  {
    HeadLiterals();
  }

  lemma HeadLiterals()
    ensures "test_assert_kwargs_empty" + "() got unexpected keyword arguments "
         == "test_assert_kwargs_empty() got unexpected keyword arguments "
  {
  }

  lemma TailText()
    ensures "test_assert_kwargs_empty() got unexpected keyword arguments " + "'bar', 'baz', 'foo'"
         == "test_assert_kwargs_empty() got unexpected keyword arguments 'bar', 'baz', 'foo'"
  {
  }

  lemma ListedExample()
    ensures JoinWith(", ", Quoted(UnexpectedNames([("foo", Int(1)), ("bar", Int(2)), ("baz", Int(3))])))
         == "'bar', 'baz', 'foo'"
  {
    NamesExample();
    QuotedBarBazFoo();
    JoinExample();
  }

  lemma NamesExample()
    ensures UnexpectedNames([("foo", Int(1)), ("bar", Int(2)), ("baz", Int(3))]) == ["bar", "baz", "foo"]
  {
    assert Keys([("foo", Int(1)), ("bar", Int(2)), ("baz", Int(3))]) == ["foo", "bar", "baz"];
    SortFooBarBaz();
  }

  lemma JoinExample()
    ensures JoinWith(", ", ["'bar'", "'baz'", "'foo'"]) == "'bar', 'baz', 'foo'"
  {
    assert ["'bar'", "'baz'", "'foo'"][1..] == ["'baz'", "'foo'"];
    assert ["'baz'", "'foo'"][1..] == ["'foo'"];
    assert JoinWith(", ", ["'baz'", "'foo'"]) == "'baz', 'foo'";
  }

  lemma QuotedBarBazFoo()
    ensures Quoted(["bar", "baz", "foo"]) == ["'bar'", "'baz'", "'foo'"]
  {
    assert "'" + "bar" + "'" == "'bar'";
    assert "'" + "baz" + "'" == "'baz'";
    assert "'" + "foo" + "'" == "'foo'";
  }

  /** `sorted(['foo', 'bar', 'baz'])` */
  lemma SortFooBarBaz()
    ensures SortStrings(["foo", "bar", "baz"]) == ["bar", "baz", "foo"]
  {
    assert ["foo"] + ["bar", "baz"] == ["foo", "bar", "baz"];
    SortCons("foo", ["bar", "baz"]);
    SortBarBaz();
    BeforeFoo();
    InsertAfterTwo("foo", "bar", "baz");
  }

  lemma InsertAfterTwo(x: string, a: string, b: string)
    requires LessEq(a, b) && Less(a, x) && Less(b, x)
    ensures Insert(x, [a, b]) == [a, b, x]
  {
    assert Sorted([a, b]);
    InsertLast(x, [a, b]);
    assert [a, b] + [x] == [a, b, x];
  }

  lemma SortCons(x: string, s: seq<string>)
    ensures SortStrings([x] + s) == Insert(x, SortStrings(s))
  {
    assert ([x] + s)[1..] == s;
  }

  lemma SortBarBaz()
    ensures SortStrings(["bar", "baz"]) == ["bar", "baz"] && LessEq("bar", "baz")
  {
    SortCons("bar", ["baz"]);
    assert SortStrings(["baz"]) == ["baz"] by { SortCons("baz", []); }
    assert Less("bar", "baz") by {
      assert "bar"[1..] == "ar" && "baz"[1..] == "az";
      assert "ar"[1..] == "r" && "az"[1..] == "z";
    }
  }

  lemma BeforeFoo()
    ensures Less("bar", "foo") && Less("baz", "foo")
  {
  }

  /** A string greater than every element of a sorted sequence goes to its end. */
  lemma {:induction false} InsertLast(x: string, s: seq<string>)
    requires Sorted(s) && forall j :: 0 <= j < |s| ==> Less(s[j], x)
    ensures Insert(x, s) == s + [x]
  {
    if |s| > 0 {
      LessIrreflexive(x);
      assert !LessEq(x, s[0]) by {
        if Less(x, s[0]) { LessTransitive(x, s[0], x); }
      }
      assert Sorted(s[1..]) by {
        forall i, j | 0 <= i < j < |s[1..]| ensures LessEq(s[1..][i], s[1..][j]) {
          assert s[1..][i] == s[i + 1] && s[1..][j] == s[j + 1];
        }
      }
      forall j | 0 <= j < |s[1..]| ensures Less(s[1..][j], x) {
        assert s[1..][j] == s[j + 1];
      }
      InsertLast(x, s[1..]);
      assert s == [s[0]] + s[1..];
    }
  }
}
