/** `assert_kwargs_empty(kwargs)`: a function that takes `**kwargs` only to refuse them raises
    a `TypeError` naming its caller and every unexpected keyword, sorted. The caller's name is
    read from the call stack in Python; here it is a parameter. */
module KeywordArguments {
  import opened Strings
  import opened Namespaces

  datatype Check =
    | Accepted
    | Unexpected(message: string)   // the `TypeError`

  /** The keywords given, in call order. */
  function Keys(kwargs: Items): seq<string> {
    seq(|kwargs|, i requires 0 <= i < |kwargs| => kwargs[i].0)
  }

  /** `repr` of each name: the name in single quotes. */
  function Quoted(names: seq<string>): (r: seq<string>)
    ensures |r| == |names|
    ensures forall i :: 0 <= i < |names| ==> r[i] == "'" + names[i] + "'"
  {
    if |names| == 0 then [] else ["'" + names[0] + "'"] + Quoted(names[1..])
  }

  /** The names the message lists: every keyword, in sorted order. */
  function UnexpectedNames(kwargs: Items): (r: seq<string>)
    ensures Sorted(r)
    ensures multiset(r) == multiset(Keys(kwargs))
  {
    SortStrings(Keys(kwargs))
  }

  const UnexpectedText: string := "() got unexpected keyword arguments "

  /** `assert_kwargs_empty(kwargs)` called from the function named `caller`. */
  function AssertKwargsEmpty(caller: string, kwargs: Items): (r: Check)
    ensures r.Accepted? <==> |kwargs| == 0
  {
    if |kwargs| == 0 then Accepted
    else Unexpected(caller + UnexpectedText + JoinWith(", ", Quoted(UnexpectedNames(kwargs))))
  }

  /** The message starts with the caller's name, and the list it ends with quotes exactly the
      keywords given, in sorted order. */
  lemma {:induction false} UnexpectedReported(caller: string, kwargs: Items)
    requires |kwargs| > 0
    ensures var r := AssertKwargsEmpty(caller, kwargs);
            var listed := UnexpectedNames(kwargs);
            && r.Unexpected?
            && r.message[..|caller| + |UnexpectedText|] == caller + UnexpectedText
            && Sorted(listed) && |listed| == |kwargs|
            && (forall j :: 0 <= j < |kwargs| ==> "'" + kwargs[j].0 + "'" in Quoted(listed))
            && (forall n :: n in listed ==> exists j :: 0 <= j < |kwargs| && kwargs[j].0 == n)
  {
    var listed := UnexpectedNames(kwargs);
    ListedLength(kwargs);
    KeysQuoted(kwargs);
    ListedAreKeys(kwargs);
    var tail := JoinWith(", ", Quoted(listed));
    assert AssertKwargsEmpty(caller, kwargs).message == (caller + UnexpectedText) + tail;
  }

  lemma ListedLength(kwargs: Items)
    ensures |UnexpectedNames(kwargs)| == |kwargs|
  {
    assert |multiset(UnexpectedNames(kwargs))| == |multiset(Keys(kwargs))|;
  }

  /** Every keyword appears, quoted, in the list. */
  lemma KeysQuoted(kwargs: Items)
    ensures forall j :: 0 <= j < |kwargs| ==> "'" + kwargs[j].0 + "'" in Quoted(UnexpectedNames(kwargs))
  {
    var listed := UnexpectedNames(kwargs);
    var keys := Keys(kwargs);
    forall j | 0 <= j < |kwargs| ensures "'" + kwargs[j].0 + "'" in Quoted(listed) {
      assert keys[j] in multiset(keys);
      assert kwargs[j].0 in multiset(listed);
      var i :| 0 <= i < |listed| && listed[i] == kwargs[j].0;
      assert Quoted(listed)[i] == "'" + kwargs[j].0 + "'";
    }
  }

  /** The list names nothing but keywords given. */
  lemma ListedAreKeys(kwargs: Items)
    ensures forall n :: n in UnexpectedNames(kwargs) ==> exists j :: 0 <= j < |kwargs| && kwargs[j].0 == n
  {
    var listed := UnexpectedNames(kwargs);
    var keys := Keys(kwargs);
    forall n | n in listed ensures exists j :: 0 <= j < |kwargs| && kwargs[j].0 == n {
      assert n in multiset(listed);
      assert n in multiset(keys);
      var j :| 0 <= j < |keys| && keys[j] == n;
      assert kwargs[j].0 == n;
    }
  }
}
