/** The vault-items table: records by id, kept in the order of their creation. */
module VaultItems {
  import opened Common

  datatype VaultItem = VaultItem(
    id: string,
    userId: string,
    ciphertext: Bytes,
    dekVersion: int,
    itemVersion: int,
    conflictOf: Option<string>,
    updatedAt: int
  )

  type Table = JsMap<string, VaultItem>

  /** A property of a JavaScript object: missing, present with the value `undefined`, or present with a value. */
  datatype Field<T> = Absent | Undefined | Given(value: T)

  /** Any selection of the fields that may be patched. */
  datatype Patch = Patch(
    ciphertext: Field<Bytes>, dekVersion: Field<int>, itemVersion: Field<int>, conflictOf: Field<string>)

  /** The patch leaves a well-formed record: only the optional field is ever set to `undefined`. */
  predicate Storable(patch: Patch) {
    !patch.ciphertext.Undefined? && !patch.dekVersion.Undefined? && !patch.itemVersion.Undefined?
  }

  /** `{ ...record, ...patch, updatedAt: now }`. */
  function Merged(record: VaultItem, patch: Patch, now: int): VaultItem
    requires Storable(patch)
  {
    record.(
      ciphertext := if patch.ciphertext.Given? then patch.ciphertext.value else record.ciphertext,
      dekVersion := if patch.dekVersion.Given? then patch.dekVersion.value else record.dekVersion,
      itemVersion := if patch.itemVersion.Given? then patch.itemVersion.value else record.itemVersion,
      conflictOf := match patch.conflictOf
      case Absent => record.conflictOf
      case Undefined => None
      case Given(v) => Some(v),
      updatedAt := now)
  }

  function Insert(t: Table, item: VaultItem): Table {
    t.Set(item.id, item)
  }

  function GetById(t: Table, id: string, userId: string): Option<VaultItem> {
    var found := t.Get(id);
    if found.Some? && found.value.userId == userId then found else None
  }

  function FilterByUser(ids: seq<string>, entries: map<string, VaultItem>, userId: string): seq<VaultItem>
    requires forall id :: id in ids ==> id in entries
  {
    if ids == [] then []
    else
      var rest := FilterByUser(ids[..|ids| - 1], entries, userId);
      var last := entries[ids[|ids| - 1]];
      if last.userId == userId then rest + [last] else rest
  }

  function ListByUser(t: Table, userId: string): seq<VaultItem>
    requires t.Valid()
  {
    FilterByUser(t.order, t.entries, userId)
  }

  /** The list holds exactly the user's items. */
  lemma {:induction false} ListIsExact(
      ids: seq<string>, entries: map<string, VaultItem>, userId: string, item: VaultItem)
    requires forall id :: id in ids ==> id in entries
    ensures item in FilterByUser(ids, entries, userId)
       <==> exists id :: id in ids && entries[id] == item && item.userId == userId
  {
    if ids != [] {
      var front, last := ids[..|ids| - 1], ids[|ids| - 1];
      assert ids == front + [last];
      ListIsExact(front, entries, userId, item);
    }
  }

  ghost predicate DistinctIds(items: seq<VaultItem>) {
    forall i, j :: 0 <= i < j < |items| ==> items[i].id != items[j].id
  }

  /** The list holds no item twice. */
  lemma {:induction false} ListHasNoRepeats(ids: seq<string>, entries: map<string, VaultItem>, userId: string)
    requires forall id :: id in ids ==> id in entries && entries[id].id == id
    requires forall i, j :: 0 <= i < j < |ids| ==> ids[i] != ids[j]
    ensures forall item :: item in FilterByUser(ids, entries, userId) ==> item.id in ids
    ensures DistinctIds(FilterByUser(ids, entries, userId))
  {
    if ids != [] {
      var front, last := ids[..|ids| - 1], ids[|ids| - 1];
      assert ids == front + [last] && last !in front && entries[last].id == last;
      ListHasNoRepeats(front, entries, userId);
      var rest := FilterByUser(front, entries, userId);
      assert forall i :: 0 <= i < |rest| ==> rest[i] in rest && rest[i].id != last;
    }
  }

  ghost predicate Before(ids: seq<string>, first: string, second: string) {
    forall a, b :: 0 <= a < |ids| && 0 <= b < |ids| && ids[a] == first && ids[b] == second ==> a < b
  }

  /** The items come in the order of their ids in `ids`. */
  ghost predicate InOrderOf(ids: seq<string>, items: seq<VaultItem>) {
    forall i, j :: 0 <= i < j < |items| ==> Before(ids, items[i].id, items[j].id)
  }

  lemma BeforeLast(front: seq<string>, last: string, first: string, second: string)
    requires last !in front && first != last && (second == last || Before(front, first, second))
    ensures Before(front + [last], first, second)
  {
  }

  lemma {:induction false} ListKeepsOrder(ids: seq<string>, entries: map<string, VaultItem>, userId: string)
    requires forall id :: id in ids ==> id in entries && entries[id].id == id
    requires forall i, j :: 0 <= i < j < |ids| ==> ids[i] != ids[j]
    ensures InOrderOf(ids, FilterByUser(ids, entries, userId))
  {
    if ids != [] {
      var front, last := ids[..|ids| - 1], ids[|ids| - 1];
      var rest, items := FilterByUser(front, entries, userId), FilterByUser(ids, entries, userId);
      assert ids == front + [last] && entries[last].id == last && last !in front;
      ListKeepsOrder(front, entries, userId);
      assert forall item :: item in rest ==> item.id in front by {
        ListHasNoRepeats(front, entries, userId);
      }
      forall i, j | 0 <= i < j < |items| ensures Before(ids, items[i].id, items[j].id) {
        assert items[i] == rest[i] && rest[i] in rest;
        BeforeLast(front, last, items[i].id, items[j].id);
      }
    }
  }

  class InMemoryVaultItemsRepository {
    var byId: Table

    constructor ()
      ensures byId == JsMap([], map[])
    {
      byId := JsMap([], map[]);
    }

    method Create(userId: string, ciphertext: Bytes, dekVersion: int, id: string, now: int) returns (record: VaultItem)
      modifies this
      ensures record == VaultItem(id, userId, ciphertext, dekVersion, 1, None, now)
      ensures byId == Insert(old(byId), record)
    {
      record := VaultItem(id, userId, ciphertext, dekVersion, 1, None, now);
      byId := byId.Set(record.id, record);
    }

    method CreateFork(userId: string, ciphertext: Bytes, dekVersion: int, conflictOf: string, id: string, now: int)
      returns (record: VaultItem)
      modifies this
      ensures record == VaultItem(id, userId, ciphertext, dekVersion, 1, Some(conflictOf), now)
      ensures byId == Insert(old(byId), record)
    {
      record := VaultItem(id, userId, ciphertext, dekVersion, 1, Some(conflictOf), now);
      byId := byId.Set(record.id, record);
    }

    method Update(id: string, userId: string, patch: Patch, now: int) returns (updated: Option<VaultItem>)
      requires Storable(patch)
      modifies this
      ensures GetById(old(byId), id, userId).None? ==> updated.None? && byId == old(byId)
      ensures GetById(old(byId), id, userId).Some? ==>
                && updated == Some(Merged(GetById(old(byId), id, userId).value, patch, now))
                && byId == old(byId).Set(id, updated.value)
    {
      var record := byId.Get(id);
      if record.None? || record.value.userId != userId {
        return None;
      }
      var merged := Merged(record.value, patch, now);
      byId := byId.Set(id, merged);
      return Some(merged);
    }

    method FindById(id: string, userId: string) returns (record: Option<VaultItem>)
      ensures record == GetById(byId, id, userId)
    {
      var found := byId.Get(id);
      return if found.Some? && found.value.userId == userId then found else None;
    }

    /** Filters the records in the order they were created. */
    method List(userId: string) returns (items: seq<VaultItem>)
      requires byId.Valid()
      ensures items == ListByUser(byId, userId)
    {
      items := [];
      for k := 0 to |byId.order|
        invariant forall id :: id in byId.order[..k] ==> id in byId.entries
        invariant items == FilterByUser(byId.order[..k], byId.entries, userId)
      {
        assert byId.order[..k + 1] == byId.order[..k] + [byId.order[k]];
        var record := byId.entries[byId.order[k]];
        if record.userId == userId {
          items := items + [record];
        }
      }
      assert byId.order[..|byId.order|] == byId.order;
    }
  }
}
