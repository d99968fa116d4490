/** Calling a Namespace. `namespace(**kwargs)` merges the call-site keywords into the
    Namespace, takes `call_target` out of the result and calls it with the remaining items as
    keyword arguments. A `call_target` that is itself a Namespace either names a class in `cls`
    (and a method of it in `attribute`), or carries a `call_target` of its own, in which case it
    is called in turn as a Namespace, less its `cls` and `attribute` keys. Callables are opaque:
    the model says which one is called with which keyword arguments. */
module Invocation {
  import opened Strings
  import opened Paths
  import opened Namespaces
  import opened Flattening
  import opened NamespaceLaws
  import opened MergeCases

  const Cls: string := "cls"
  const Attribute: string := "attribute"

  /** `namespace.pop(key)`, keeping the rest in order. */
  function Remove(items: Items, key: string): (r: Items)
    ensures !Has(r, key)
    ensures forall k :: k != key ==> Get(r, k) == Get(items, k) && (Has(r, k) <==> Has(items, k))
    ensures KeySet(r) == KeySet(items) - {key}
    ensures UniqueKeys(items) ==> UniqueKeys(r)
    decreases |items|
  {
    if |items| == 0 then []
    else
      var rest := Remove(items[1..], key);
      assert KeySet(items) == {items[0].0} + KeySet(items[1..]) by {
        assert items == [items[0]] + items[1..];
        KeySetCons(items[0], items[1..]);
      }
      forall k ensures Get(items, k) == (if items[0].0 == k then items[0].1 else Get(items[1..], k))
                    && (Has(items, k) <==> items[0].0 == k || Has(items[1..], k)) {
        GetCons(items[0], items[1..], k);
        assert items == [items[0]] + items[1..];
      }
      if items[0].0 == key then rest
      else
        GetConsAll(items[0], rest);
        KeySetCons(items[0], rest);
        assert UniqueKeys(items) ==> items[0].0 !in KeySet(items[1..]) by {
          if UniqueKeys(items) {
            forall j | 0 <= j < |items[1..]| ensures items[1..][j].0 != items[0].0 {
              assert items[1..][j] == items[j + 1];
            }
          }
        }
        assert UniqueKeys(items) ==> UniqueKeys(items[1..]) by {
          if UniqueKeys(items) {
            forall i, j | 0 <= i < j < |items[1..]| ensures items[1..][i].0 != items[1..][j].0 {
              assert items[1..][i] == items[i + 1] && items[1..][j] == items[j + 1];
            }
          }
        }
        assert UniqueKeys(items) ==> UniqueKeys([items[0]] + rest) by {
          if UniqueKeys(items) { UniqueCons(items[0], rest); }
        }
        [items[0]] + rest
  }

  lemma GetCons(x: (string, Value), rest: Items, k: string)
    ensures Get([x] + rest, k) == (if x.0 == k then x.1 else Get(rest, k))
    ensures Has([x] + rest, k) <==> x.0 == k || Has(rest, k)
  {
    var s := [x] + rest;
    assert s[1..] == rest;
    if x.0 != k {
      assert IndexOf(s, k) == 1 + IndexOf(rest, k);
    }
  }

  lemma GetConsAll(x: (string, Value), rest: Items)
    ensures forall k :: Get([x] + rest, k) == (if x.0 == k then x.1 else Get(rest, k))
    ensures forall k :: Has([x] + rest, k) <==> x.0 == k || Has(rest, k)
  {
    forall k ensures Get([x] + rest, k) == (if x.0 == k then x.1 else Get(rest, k))
                  && (Has([x] + rest, k) <==> x.0 == k || Has(rest, k)) {
      GetCons(x, rest, k);
    }
  }

  lemma KeySetCons(x: (string, Value), rest: Items)
    ensures KeySet([x] + rest) == {x.0} + KeySet(rest)
  {
    var s := [x] + rest;
    forall k | k in KeySet(s) ensures k in {x.0} + KeySet(rest) {
      var j :| 0 <= j < |s| && s[j].0 == k;
      if j > 0 { assert s[j] == rest[j - 1]; }
    }
    forall k | k in KeySet(rest) ensures k in KeySet(s) {
      var j :| 0 <= j < |rest| && rest[j].0 == k;
      assert s[j + 1] == rest[j];
    }
    assert s[0].0 == x.0;
  }

  lemma UniqueCons(x: (string, Value), rest: Items)
    requires UniqueKeys(rest) && x.0 !in KeySet(rest)
    ensures UniqueKeys([x] + rest)
  {
    var s := [x] + rest;
    forall i, j | 0 <= i < j < |s| ensures s[i].0 != s[j].0 {
      assert s[j] == rest[j - 1];
      if i > 0 { assert s[i] == rest[i - 1]; }
      else { assert rest[j - 1].0 in KeySet(rest); }
    }
  }

  /** What is finally called. */
  datatype Callee =
    | Call(target: Value)                      // the call target itself, or the class in `cls`
    | AttributeOf(cls: Value, name: Value)     // `getattr(cls, attribute)`
    | NamespaceCall(target: Value)             // a Namespace call target, called in turn

  datatype Invoked =
    | Called(callee: Callee, kwargs: Items)
    | NoCallTarget(message: string)            // the `TypeError` of a Namespace without `call_target`

  /** The keyword arguments of `namespace(**kwargs)`: `Namespace(namespace, kwargs)`. */
  function Params(self: Items, kwargs: Items): Items {
    Construct([self, kwargs]).items
  }

  /** `namespace(**kwargs)` */
  function Invoke(self: Value, kwargs: Items): (r: Invoked)
    requires self.Nested?
    ensures r.NoCallTarget? <==> Get(Params(self.items, kwargs), CallTarget).Null?
    ensures r.NoCallTarget? ==> r.message == MissingTargetMessage(self)
    ensures r.Called? ==> !Has(r.kwargs, CallTarget) && UniqueKeys(r.kwargs)
    ensures r.Called? ==> forall k :: k != CallTarget ==>
              Get(r.kwargs, k) == Get(Params(self.items, kwargs), k)
              && (Has(r.kwargs, k) <==> Has(Params(self.items, kwargs), k))
    ensures r.Called? && r.callee.NamespaceCall? ==>
              && r.callee.target.Nested?
              && Has(r.callee.target.items, CallTarget)
              && !Has(r.callee.target.items, Cls) && !Has(r.callee.target.items, Attribute)
    ensures var target := Get(Params(self.items, kwargs), CallTarget);
              !target.Null? && !target.Nested? ==> r.callee == Call(target)
    ensures var target := Get(Params(self.items, kwargs), CallTarget);
              target.Nested? && Has(target.items, CallTarget) ==>
                r.callee.NamespaceCall? && r.callee.target.shortcut == target.shortcut
                && forall k :: k != Cls && k != Attribute ==> Get(r.callee.target.items, k) == Get(target.items, k)
    ensures var target := Get(Params(self.items, kwargs), CallTarget);
              target.Nested? && !Has(target.items, CallTarget) ==>
                r.callee == if Has(target.items, Attribute)
                            then AttributeOf(Get(target.items, Cls), Get(target.items, Attribute))
                            else Call(Get(target.items, Cls))
  {
    var params := Params(self.items, kwargs);
    var target := Get(params, CallTarget);
    if target.Null? then NoCallTarget(MissingTargetMessage(self))
    else
      var rest := Remove(params, CallTarget);
      match target
      case Nested(sc, inner) =>
        if Has(inner, CallTarget) then Called(NamespaceCall(Nested(sc, Remove(Remove(inner, Cls), Attribute))), rest)
        else if Has(inner, Attribute) then Called(AttributeOf(Get(inner, Cls), Get(inner, Attribute)), rest)
        else Called(Call(Get(inner, Cls)), rest)
      case _ => Called(Call(target), rest)
  }

  function MissingTargetMessage(self: Value): string
    requires self.Nested?
  {
    "Namespace was used as a function, but no call_target was specified. The namespace is: "
      + Render(self, false)
  }

  function TypeName(shortcut: bool): string {
    if shortcut then "Shortcut" else "Namespace"
  }

  /** `repr(namespace)` when `quote` holds, `str(namespace)` otherwise: the type name and the
      flattened items. */
  function Render(self: Value, quote: bool): string
    requires self.Nested?
  {
    TypeName(self.shortcut) + "(" + JoinWith(", ", Fields(Flatten(self.items), quote)) + ")"
  }

  /** `key=value` for each flattened item. */
  function Fields(flat: Items, quote: bool): (r: seq<string>)
    ensures |r| == |flat|
    ensures forall j :: 0 <= j < |r| ==> r[j] == flat[j].0 + "=" + Scalar(flat[j].1, quote)
  {
    if |flat| == 0 then []
    else [flat[0].0 + "=" + Scalar(flat[0].1, quote)] + Fields(flat[1..], quote)
  }

  /** A flattened value, shown with `repr` or `str`; `flatten` emits a Namespace only when it
      is empty. */
  function Scalar(v: Value, quote: bool): string {
    match v
    case Null => "None"
    case Int(i) => IntToString(i)
    case Bool(b) => if b then "True" else "False"
    case Str(s) => if quote then "'" + s + "'" else s
    case Func(_) => "<function>"
    case Nested(sc, _) => TypeName(sc) + "()"
  }

  /** Plain keywords given at the call site reach the call target unchanged, whatever the
      Namespace held under those keys. */
  lemma CallSiteWins(self: Value, kwargs: Items)
    requires self.Nested? && UniqueKeys(kwargs)
    requires forall j :: 0 <= j < |kwargs| ==> IsSegment(kwargs[j].0) && PlainScalar(kwargs[j].1)
    requires Invoke(self, kwargs).Called?
    ensures forall j :: 0 <= j < |kwargs| && kwargs[j].0 != CallTarget ==>
              Get(Invoke(self, kwargs).kwargs, kwargs[j].0) == kwargs[j].1
  {
    assert [self.items] + [kwargs] == [self.items, kwargs];
    LastSourceWins([self.items], kwargs);
  }

  /** A key the call site does not write is forwarded as the Namespace holds it. */
  lemma NamespaceKeyForwarded(self: Value, kwargs: Items, k: string)
    requires self.Nested? && k != CallTarget && k !in Heads(kwargs)
    requires Invoke(self, kwargs).Called?
    ensures Get(Invoke(self, kwargs).kwargs, k) == Get(Construct([self.items]).items, k)
  {
    assert [self.items] + [kwargs] == [self.items, kwargs];
    UnwrittenKeyKept([self.items], kwargs, k);
  }

  /** Called with no keywords, a Namespace of segment keys without `call_target` fails, and
      one with a function as `call_target` calls it with everything else. */
  lemma CallWithoutKeywords(self: Value)
    requires self.Nested? && UniqueKeys(self.items)
    requires forall j :: 0 <= j < |self.items| ==> IsSegment(self.items[j].0)
    ensures !Has(self.items, CallTarget) ==> Invoke(self, []) == NoCallTarget(MissingTargetMessage(self))
    ensures Get(self.items, CallTarget).Func? ==>
              Invoke(self, []) == Called(Call(Get(self.items, CallTarget)), Remove(self.items, CallTarget))
  {
    ConstructFreshTwo(self.items, []);
    assert self.items + [] == self.items;
  }
}
