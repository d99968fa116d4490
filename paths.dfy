/** Path keys: a flat key such as `a__b__c` names the nested position a / b / c.
    Splitting follows repeated `str.partition('__')`: the first separator ends the
    first segment, so an empty key gives one empty segment and a trailing `__`
    gives an empty last segment. */
module Paths {

  const Separator: string := "__"

  /** A separator starts at position `i` of `s`. */
  predicate SepAt(s: string, i: int) {
    0 <= i && i + 1 < |s| && s[i] == '_' && s[i + 1] == '_'
  }

  /** A segment: a key holding no separator, as every key of a Namespace built from paths. */
  predicate IsSegment(k: string) {
    forall i :: 0 <= i < |k| ==> !SepAt(k, i)
  }

  /** Position of the first separator at or after `from`, or `|s|` when there is none. */
  function FindSep(s: string, from: nat): (r: nat)
    requires from <= |s|
    ensures from <= r <= |s|
    ensures r < |s| ==> SepAt(s, r)
    ensures forall j :: from <= j < r ==> !SepAt(s, j)
    decreases |s| - from
  {
    if from + 1 >= |s| then |s|
    else if SepAt(s, from) then from
    else FindSep(s, from + 1)
  }

  /** The segments of a path key. */
  function Split(s: string): (segs: seq<string>)
    ensures |segs| >= 1
    decreases |s|
  {
    var i := FindSep(s, 0);
    if i == |s| then [s] else [s[..i]] + Split(s[i + 2..])
  }

  /** The path key of a sequence of segments (used to form flattened keys). */
  function Join(segs: seq<string>): string
    requires |segs| >= 1
  {
    if |segs| == 1 then segs[0] else segs[0] + Separator + Join(segs[1..])
  }

  lemma {:induction false} JoinSplit(s: string)
    ensures Join(Split(s)) == s
    decreases |s|
  {
    var i := FindSep(s, 0);
    if i < |s| {
      JoinSplit(s[i + 2..]);
      assert s == s[..i] + Separator + s[i + 2..];
    }
  }

  /** Segments that `Join` puts together so that `Split` can take them apart again: none holds
      a separator, and none but the last ends in `_`. */
  predicate Joinable(segs: seq<string>) {
    && (forall k :: 0 <= k < |segs| ==> IsSegment(segs[k]))
    && (forall k :: 0 <= k < |segs| - 1 ==> |segs[k]| == 0 || segs[k][|segs[k]| - 1] != '_')
  }

  /** Splitting a joined path gives back its segments. */
  lemma {:induction false} SplitJoin(segs: seq<string>)
    requires |segs| >= 1 && Joinable(segs)
    ensures Split(Join(segs)) == segs
    decreases |segs|
  {
    if |segs| == 1 {
      SplitSegment(segs[0]);
    } else {
      var rest := segs[1..];
      assert Joinable(rest) by {
        forall k | 0 <= k < |rest| ensures IsSegment(rest[k]) { assert rest[k] == segs[k + 1]; }
        forall k | 0 <= k < |rest| - 1 ensures |rest[k]| == 0 || rest[k][|rest[k]| - 1] != '_' {
          assert rest[k] == segs[k + 1];
        }
      }
      SplitJoin(rest);
      SplitAppend(segs[0], Join(rest));
      SplitSegment(segs[0]);
      assert segs == [segs[0]] + rest;
    }
  }

  lemma {:induction false} SplitGivesSegments(s: string)
    ensures forall k :: 0 <= k < |Split(s)| ==> IsSegment(Split(s)[k])
    decreases |s|
  {
    var i := FindSep(s, 0);
    if i == |s| {
      assert IsSegment(s);
    } else {
      SplitGivesSegments(s[i + 2..]);
      var head := s[..i];
      forall j | 0 <= j < |head| ensures !SepAt(head, j) {
        assert SepAt(head, j) ==> SepAt(s, j);
      }
      assert Split(s) == [head] + Split(s[i + 2..]);
    }
  }

  /** A key that is already a segment is its own path. */
  lemma SplitSegment(k: string)
    requires IsSegment(k)
    ensures Split(k) == [k]
  {
    assert FindSep(k, 0) == |k|;
  }

  lemma {:induction false} FindSepFirst(s: string, from: nat, i: nat)
    requires from <= i && SepAt(s, i)
    requires forall j :: from <= j < i ==> !SepAt(s, j)
    ensures FindSep(s, from) == i
    decreases i - from
  {
    if from < i {
      FindSepFirst(s, from + 1, i);
    }
  }

  /** The empty key and a trailing separator give empty segments. */
  lemma EmptySegments(k: string)
    requires IsSegment(k) && (|k| == 0 || k[|k| - 1] != '_')
    ensures Split("") == [""]
    ensures Split(k + Separator) == [k, ""]
  {
    assert FindSep("", 0) == 0;
    TrailingSeparator(k);
  }

  lemma TrailingSeparator(k: string)
    requires IsSegment(k) && (|k| == 0 || k[|k| - 1] != '_')
    ensures Split(k + Separator) == [k, ""]
  {
    assert FindSep(k, 0) == |k|;
    SeparatorFirst(k, "");
    assert k + Separator + "" == k + Separator;
  }

  /** Joining two path keys with a separator concatenates their segments, provided the
      first does not end in `_` (which would make the separator start one place earlier). */
  lemma {:induction false} SplitAppend(pre: string, p: string)
    requires |pre| == 0 || pre[|pre| - 1] != '_'
    ensures Split(pre + Separator + p) == Split(pre) + Split(p)
    decreases |pre|
  {
    var i := FindSep(pre, 0);
    if i == |pre| {
      SeparatorFirst(pre, p);
    } else {
      SeparatorInside(pre, p, i);
      var rest := pre[i + 2..];
      assert |rest| > 0 && rest[|rest| - 1] == pre[|pre| - 1];
      SplitAppend(rest, p);
    }
  }

  /** When `pre` holds no separator and does not end in `_`, the added separator is the first. */
  lemma SeparatorFirst(pre: string, p: string)
    requires FindSep(pre, 0) == |pre| && (|pre| == 0 || pre[|pre| - 1] != '_')
    ensures var s := pre + Separator + p;
      FindSep(s, 0) == |pre| && s[..|pre|] == pre && s[|pre| + 2..] == p
  {
    var s := pre + Separator + p;
    forall j | 0 <= j < |pre| ensures !SepAt(s, j) {
      assert s[j] == pre[j];
      if j + 1 < |pre| { assert s[j + 1] == pre[j + 1]; assert !SepAt(pre, j); }
    }
    assert s[|pre|] == '_' && s[|pre| + 1] == '_';
    FindSepFirst(s, 0, |pre|);
    assert s[..|pre|] == pre;
    assert s[|pre| + 2..] == p;
  }

  /** A separator inside `pre` is still the first one after more is appended. */
  lemma SeparatorInside(pre: string, p: string, i: nat)
    requires i == FindSep(pre, 0) < |pre|
    ensures FindSep(pre + Separator + p, 0) == i
    ensures (pre + Separator + p)[..i] == pre[..i]
    ensures (pre + Separator + p)[i + 2..] == pre[i + 2..] + Separator + p
  {
    var s := pre + Separator + p;
    forall j | 0 <= j < i ensures !SepAt(s, j) {
      assert !SepAt(pre, j);
      assert s[j] == pre[j] && s[j + 1] == pre[j + 1];
    }
    assert s[i] == pre[i] && s[i + 1] == pre[i + 1];
    FindSepFirst(s, 0, i);
    assert s == pre + (Separator + p);
    DropFromLeft(pre, Separator + p, i + 2);
  }

  lemma DropFromLeft(a: string, b: string, n: nat)
    requires n <= |a|
    ensures (a + b)[n..] == a[n..] + b
  {
  }
}
