/**
 * `flatten_dict` (app.py): a nested document becomes one level of entries whose keys
 * are the dot-joined paths to the non-object leaves.
 */
module Flattening {
  import opened Values
  import opened Dicts

  /** The key of a child: `f"{parent_key}.{k}"`, or `k` alone under an empty parent. */
  function NewKey(parent: string, k: string): string
  {
    if parent == "" then k else parent + "." + k
  }

  /** The dictionary `flatten_dict(d, parent)` builds. */
  function Flatten(d: Dict<Json>, parent: string): Dict<Json>
    decreases d
  {
    if d == [] then []
    else
      var (k, v) := d[|d| - 1];
      assert d[|d| - 1] in d && v < d[|d| - 1];
      var items := Flatten(d[..|d| - 1], parent);
      match v
      case JObj(sub) => Update(items, Flatten(sub, NewKey(parent, k)))
      case _ => Set(items, NewKey(parent, k), v)
  }

  /** The leaves of a document in traversal order, each under its dot-joined path. */
  function Leaves(d: Dict<Json>, parent: string): seq<(string, Json)>
    decreases d
  {
    if d == [] then []
    else
      var (k, v) := d[|d| - 1];
      assert d[|d| - 1] in d && v < d[|d| - 1];
      Leaves(d[..|d| - 1], parent) +
        match v
        case JObj(sub) => Leaves(sub, NewKey(parent, k))
        case _ => [(NewKey(parent, k), v)]
  }

  predicate NoObjects(m: Dict<Json>)
  {
    forall i | 0 <= i < |m| :: !m[i].1.JObj?
  }

  method FlattenDict(d: Dict<Json>, parentKey: string) returns (items: Dict<Json>)
    ensures items == Flatten(d, parentKey)
    decreases d
  {
    items := [];
    for i := 0 to |d|
      invariant items == Flatten(d[..i], parentKey)
    {
      var (k, v) := d[i];
      var newKey := if parentKey != "" then parentKey + "." + k else k;
      assert d[..i + 1][..i] == d[..i];
      assert d[i] in d && v < d[i];
      if v.JObj? {
        var sub := FlattenDict(v.members, newKey);
        items := Update(items, sub);
      } else {
        items := Set(items, newKey, v);
      }
    }
    assert d[..|d|] == d;
  }

  /**
   * Flattening is the dictionary built from the leaves in traversal order: every key is
   * a dot-joined leaf path, a path that occurs twice keeps its first position and its
   * last value.
   */
  lemma {:induction false} FlattenIsLeaves(d: Dict<Json>, parent: string)
    ensures Flatten(d, parent) == Update([], Leaves(d, parent))
    decreases d
  {
    if d != [] {
      var d' := d[..|d| - 1];
      var (k, v) := d[|d| - 1];
      var nk := NewKey(parent, k);
      FlattenIsLeaves(d', parent);
      var L' := Leaves(d', parent);
      assert d[|d| - 1] in d && v < d[|d| - 1];
      match v
      case JObj(sub) =>
        FlattenIsLeaves(sub, nk);
        UpdateCollapse(Update([], L'), Leaves(sub, nk));
        UpdateAppend([], L', Leaves(sub, nk));
      case _ =>
        assert (L' + [(nk, v)])[..|L'|] == L';
    }
  }

  lemma {:induction false} LeavesNoObjects(d: Dict<Json>, parent: string)
    ensures NoObjects(Leaves(d, parent))
    decreases d
  {
    if d != [] {
      var (k, v) := d[|d| - 1];
      LeavesNoObjects(d[..|d| - 1], parent);
      assert d[|d| - 1] in d && v < d[|d| - 1];
      if v.JObj? {
        LeavesNoObjects(v.members, NewKey(parent, k));
      }
    }
  }

  lemma {:induction false} SetNoObjects(m: Dict<Json>, k: string, v: Json)
    requires NoObjects(m) && !v.JObj?
    ensures NoObjects(Set(m, k, v))
  {
    if m != [] && m[0].0 != k {
      SetNoObjects(m[1..], k, v);
    }
  }

  lemma {:induction false} UpdateNoObjects(m: Dict<Json>, n: Dict<Json>)
    requires NoObjects(m) && NoObjects(n)
    ensures NoObjects(Update(m, n))
  {
    if n != [] {
      UpdateNoObjects(m, n[..|n| - 1]);
      SetNoObjects(Update(m, n[..|n| - 1]), n[|n| - 1].0, n[|n| - 1].1);
    }
  }

  /** The result never holds a dict value, and never repeats a key. */
  lemma FlattenShape(d: Dict<Json>, parent: string)
    ensures NoObjects(Flatten(d, parent))
    ensures DistinctKeys(Flatten(d, parent))
  {
    FlattenIsLeaves(d, parent);
    LeavesNoObjects(d, parent);
    UpdateNoObjects([], Leaves(d, parent));
    UpdateDistinct([], Leaves(d, parent));
  }

  /** A key is in the result exactly when it is the dot-joined path of some leaf. */
  lemma FlattenKeys(d: Dict<Json>, parent: string, x: string)
    ensures HasKey(Flatten(d, parent), x) <==> HasKey(Leaves(d, parent), x)
  {
    FlattenIsLeaves(d, parent);
    UpdateHasKey([], Leaves(d, parent), x);
  }

  /** When no two leaf paths join to the same key, the result lists every leaf once, in traversal order. */
  lemma FlattenWithoutCollisions(d: Dict<Json>, parent: string)
    requires DistinctKeys(Leaves(d, parent))
    ensures Flatten(d, parent) == Leaves(d, parent)
  {
    FlattenIsLeaves(d, parent);
    UpdateIdentity(Leaves(d, parent));
  }

  /** A nested empty object adds no key. */
  lemma EmptyObjectAddsNothing(d: Dict<Json>, k: string, parent: string)
    ensures Flatten(d + [(k, JObj([]))], parent) == Flatten(d, parent)
  {
    assert (d + [(k, JObj([]))])[..|d|] == d;
  }

  lemma {:induction false} LeavesOfFlat(d: Dict<Json>)
    requires NoObjects(d)
    ensures Leaves(d, "") == d
  {
    if d != [] {
      LeavesOfFlat(d[..|d| - 1]);
    }
  }

  /** Flattening a dictionary that is already flat returns it unchanged. */
  lemma FlattenFlat(d: Dict<Json>)
    requires NoObjects(d) && DistinctKeys(d)
    ensures Flatten(d, "") == d
  {
    LeavesOfFlat(d);
    FlattenWithoutCollisions(d, "");
  }

  /** Flattening is idempotent. */
  lemma FlattenIdempotent(d: Dict<Json>)
    ensures Flatten(Flatten(d, ""), "") == Flatten(d, "")
  {
    FlattenShape(d, "");
    FlattenFlat(Flatten(d, ""));
  }
}
