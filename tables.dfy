/** A database table as a sequence of rows in queryset order, each row carrying
    its primary key (read through `key`). Lookup by primary key, the insert-or-
    update that Django's save() performs, and the auto-increment of new keys. */
module Table {
  import opened Common

  /** The primary keys of the rows, in row order. */
  function Ids<T>(s: seq<T>, key: T -> Pk): (r: seq<Pk>)
    ensures |r| == |s|
    ensures forall k :: 0 <= k < |s| ==> r[k] == key(s[k])
  {
    seq(|s|, k requires 0 <= k < |s| => key(s[k]))
  }

  /** The primary-key constraint: no key occurs twice. */
  predicate Unique(ids: seq<Pk>) {
    forall i, j :: 0 <= i < j < |ids| ==> ids[i] != ids[j]
  }

  /** The position of the first row with primary key `id` (the get_object_or_404 lookup). */
  function Find<T>(s: seq<T>, key: T -> Pk, id: Pk): (r: Option<nat>)
    ensures r.Some? ==> r.value < |s| && key(s[r.value]) == id
    ensures r.Some? ==> forall j :: 0 <= j < r.value ==> key(s[j]) != id
    ensures r.None? ==> forall j :: 0 <= j < |s| ==> key(s[j]) != id
    ensures r.Some? <==> id in Ids(s, key)
  {
    if s == [] then None
    else if key(s[0]) == id then Some(0)
    else match Find(s[1..], key, id)
      case None => None
      case Some(j) => Some(j + 1)
  }

  /** Under the primary-key constraint, the row found for a key is the only one. */
  lemma FindUnique<T>(s: seq<T>, key: T -> Pk, i: nat)
    requires Unique(Ids(s, key)) && i < |s|
    ensures Find(s, key, key(s[i])) == Some(i)
  {
    var ids := Ids(s, key);
    assert ids[i] == key(s[i]);
    var j := Find(s, key, key(s[i])).value;
    assert ids[j] == key(s[j]) == key(s[i]);
    assert !(j < i) && !(i < j);
  }

  function Get<T>(s: seq<T>, key: T -> Pk, id: Pk): (r: Option<T>)
    ensures r.Some? <==> id in Ids(s, key)
    ensures r.Some? ==> key(r.value) == id && r.value in s
  {
    match Find(s, key, id)
    case None => None
    case Some(i) => Some(s[i])
  }

  /** Django's save(): an UPDATE of the row with the same primary key, or an INSERT at the end. */
  function Upsert<T>(s: seq<T>, key: T -> Pk, x: T): (r: seq<T>)
    ensures key(x) in Ids(s, key) ==>
      exists i :: 0 <= i < |s| && key(s[i]) == key(x) && (forall j :: 0 <= j < i ==> key(s[j]) != key(x)) && r == s[i := x]
    ensures key(x) !in Ids(s, key) ==> r == s + [x]
  {
    match Find(s, key, key(x))
    case Some(i) => s[i := x]
    case None => s + [x]
  }

  /** Replacing a row by one with the same key leaves the key column unchanged. */
  lemma IdsUpdate<T>(s: seq<T>, key: T -> Pk, i: nat, x: T)
    requires i < |s| && key(x) == key(s[i])
    ensures Ids(s[i := x], key) == Ids(s, key)
  {
  }

  lemma IdsAppend<T>(s: seq<T>, key: T -> Pk, x: T)
    ensures Ids(s + [x], key) == Ids(s, key) + [key(x)]
  {
  }

  /** An upsert keeps the primary-key constraint and every key already present. */
  lemma UpsertIds<T>(s: seq<T>, key: T -> Pk, x: T)
    requires Unique(Ids(s, key))
    ensures Unique(Ids(Upsert(s, key, x), key))
    ensures forall id :: id in Ids(s, key) ==> id in Ids(Upsert(s, key, x), key)
    ensures key(x) in Ids(Upsert(s, key, x), key)
  {
    match Find(s, key, key(x))
    case Some(i) =>
      IdsUpdate(s, key, i, x);
      assert Ids(s[i := x], key)[i] == key(x);
    case None =>
      IdsAppend(s, key, x);
      assert Ids(s + [x], key)[|s|] == key(x);
  }

  /** UpsertIds, for callers that do not yet know the constraint holds. */
  lemma UpsertIdsWhenUnique<T>(s: seq<T>, key: T -> Pk, x: T)
    ensures Unique(Ids(s, key)) ==>
      && Unique(Ids(Upsert(s, key, x), key))
      && (forall id :: id in Ids(s, key) ==> id in Ids(Upsert(s, key, x), key))
      && key(x) in Ids(Upsert(s, key, x), key)
  {
    if Unique(Ids(s, key)) {
      UpsertIds(s, key, x);
    }
  }

  /** The largest key in use, 0 for an empty table. */
  function MaxId<T>(s: seq<T>, key: T -> Pk): (m: nat)
    ensures forall k :: 0 <= k < |s| ==> key(s[k]) <= m
  {
    if s == [] then 0
    else
      var m := MaxId(s[..|s| - 1], key);
      assert forall k :: 0 <= k < |s| - 1 ==> s[..|s| - 1][k] == s[k];
      if key(s[|s| - 1]) > m then key(s[|s| - 1]) else m
  }

  /** The key the auto-increment column hands to the next inserted row. */
  function NextId<T>(s: seq<T>, key: T -> Pk): (id: Pk)
    ensures id !in Ids(s, key)
  {
    MaxId(s, key) + 1
  }

  /** Appending a row with an unused key keeps the primary-key constraint. */
  lemma AppendFresh<T>(s: seq<T>, key: T -> Pk, x: T)
    requires Unique(Ids(s, key)) && key(x) !in Ids(s, key)
    ensures Unique(Ids(s + [x], key))
    ensures Ids(s + [x], key) == Ids(s, key) + [key(x)]
  {
    IdsAppend(s, key, x);
  }

  /** AppendFresh, for callers that do not yet know the constraint holds. */
  lemma AppendFreshWhenUnique<T>(s: seq<T>, key: T -> Pk, x: T)
    requires key(x) !in Ids(s, key)
    ensures Unique(Ids(s, key)) ==> Unique(Ids(s + [x], key))
  {
    if Unique(Ids(s, key)) {
      AppendFresh(s, key, x);
    }
  }

  /** A row appended under a fresh key is the one found for that key. */
  lemma FindAppended<T>(s: seq<T>, key: T -> Pk, x: T)
    requires key(x) !in Ids(s, key)
    ensures Find(s + [x], key, key(x)) == Some(|s|)
  {
    var s' := s + [x];
    forall j | 0 <= j < |s| ensures key(s'[j]) != key(x) {
      assert s'[j] == s[j] && Ids(s, key)[j] == key(s[j]);
    }
    assert key(s'[|s|]) == key(x);
  }

  /** Saving a row whose key is already at position i overwrites position i. */
  lemma UpsertAt<T>(s: seq<T>, key: T -> Pk, i: nat, x: T)
    requires Unique(Ids(s, key)) && i < |s| && key(x) == key(s[i])
    ensures Upsert(s, key, x) == s[i := x]
    ensures Ids(s[i := x], key) == Ids(s, key)
  {
    FindUnique(s, key, i);
    IdsUpdate(s, key, i, x);
  }

  /** filter(fk=id).exists() for a non-nullable foreign key. */
  function Refers<T>(s: seq<T>, fk: T -> Pk, id: Pk): (b: bool)
    ensures b <==> exists k :: 0 <= k < |s| && fk(s[k]) == id
  {
    if s == [] then false
    else if fk(s[0]) == id then true
    else
      var b := Refers(s[1..], fk, id);
      assert forall k :: 1 <= k < |s| ==> s[k] == s[1..][k - 1];
      b
  }

  /** filter(fk=id).exists() for a nullable foreign key. */
  function RefersOpt<T>(s: seq<T>, fk: T -> Option<Pk>, id: Pk): (b: bool)
    ensures b <==> exists k :: 0 <= k < |s| && fk(s[k]) == Some(id)
  {
    if s == [] then false
    else if fk(s[0]) == Some(id) then true
    else
      var b := RefersOpt(s[1..], fk, id);
      assert forall k :: 1 <= k < |s| ==> s[k] == s[1..][k - 1];
      b
  }
}
