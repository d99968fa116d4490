/** `Namespace` as an object changed in place: `setitem_path` and item assignment replace its
    items, and the DeprecationWarnings they emit are collected on it. The `EMPTY` marker is a
    frozen instance that refuses every change. */
module NamespaceObjects {
  import opened Paths
  import opened Namespaces

  class Namespace {
    var items: Items
    /** The deprecation warnings emitted while this Namespace was built and changed. */
    var warnings: seq<string>
    /** Holds only for the `EMPTY` marker. */
    var frozen: bool

    /** Every level of a dict has distinct keys. */
    predicate Valid()
      reads this
    {
      UniqueKeys(items)
    }

    /** `Namespace(source_0, ..., source_n)` */
    constructor (sources: seq<Items>)
      ensures Valid() && !frozen
      ensures items == Construct(sources).items && warnings == Construct(sources).diagnostics
    {
      var b := Construct(sources);
      items := b.items;
      warnings := b.diagnostics;
      frozen := false;
    }

    /** The `EMPTY` marker: an empty Namespace that cannot be changed. */
    constructor Frozen()
      ensures Valid() && frozen
      ensures items == [] && warnings == []
    {
      items := [];
      warnings := [];
      frozen := true;
    }

    /** `namespace.setitem_path(path, v)`. On the frozen marker the assignment fails with a
        `TypeError` (`ok` is false) and nothing changes. */
    method SetItemPath(path: string, v: Value) returns (ok: bool)
      requires Valid()
      modifies this
      ensures Valid() && frozen == old(frozen)
      ensures ok == !old(frozen)
      ensures ok ==> var b := SetIn(old(items), Split(path), v);
                     items == b.items && warnings == old(warnings) + b.diagnostics
      ensures !ok ==> items == old(items) && warnings == old(warnings)
    {
      if frozen {
        return false;
      }
      var b := SetIn(items, Split(path), v);
      items := b.items;
      warnings := warnings + b.diagnostics;
      return true;
    }

    /** `namespace[key] = v`: no path splitting, no merging. */
    method SetItem(key: string, v: Value) returns (ok: bool)
      requires Valid()
      modifies this
      ensures Valid() && frozen == old(frozen) && warnings == old(warnings)
      ensures ok == !old(frozen)
      ensures ok ==> items == Put(old(items), key, v)
      ensures !ok ==> items == old(items)
    {
      if frozen {
        return false;
      }
      items := Put(items, key, v);
      return true;
    }
  }
}
