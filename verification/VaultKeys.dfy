/** The vault-keys table: one wrapping per user and purpose, filed under a composed string key. */
module VaultKeys {
  import opened Common

  datatype VaultKey = VaultKey(
    id: string,
    userId: string,
    purpose: Purpose,
    wrappedDek: Bytes,
    keyVersion: int,
    updatedAt: int
  )

  type Table = JsMap<string, VaultKey>

  function PurposeText(purpose: Purpose): string {
    match purpose
    case Master => "master"
    case Recovery => "recovery"
  }

  function Key(userId: string, purpose: Purpose): string {
    userId + ":" + PurposeText(purpose)
  }

  function Upsert(
      t: Table, userId: string, purpose: Purpose, wrappedDek: Bytes, keyVersion: int, freshId: string, now: int)
    : Table
  {
    var key := Key(userId, purpose);
    var id := if t.Get(key).Some? then t.Get(key).value.id else freshId;
    t.Set(key, VaultKey(id, userId, purpose, wrappedDek, keyVersion, now))
  }

  function GetByUserAndPurpose(t: Table, userId: string, purpose: Purpose): Option<VaultKey> {
    t.Get(Key(userId, purpose))
  }

  /** No two users (whatever characters their ids hold) and purposes share a key. */
  lemma KeyIsInjective(u: string, p: Purpose, u': string, p': Purpose)
    requires Key(u, p) == Key(u', p')
    ensures u == u' && p == p'
  {
    var k := Key(u, p);
    assert k[|k| - 1] == PurposeText(p)[|PurposeText(p)| - 1];
    assert k[|k| - 1] == PurposeText(p')[|PurposeText(p')| - 1];
    assert u == k[..|k| - 1 - |PurposeText(p)|];
    assert u' == k[..|k| - 1 - |PurposeText(p')|];
  }

  /** An upsert is seen by its own user and purpose, and by nobody else. */
  lemma UpsertIsLocal(
      t: Table, userId: string, purpose: Purpose, wrappedDek: Bytes, keyVersion: int, freshId: string, now: int,
      otherUser: string, otherPurpose: Purpose)
    ensures var t' := Upsert(t, userId, purpose, wrappedDek, keyVersion, freshId, now);
            var found, before := GetByUserAndPurpose(t', otherUser, otherPurpose),
                                 GetByUserAndPurpose(t, otherUser, otherPurpose);
            if (otherUser, otherPurpose) == (userId, purpose)
            then
              var id := if before.Some? then before.value.id else freshId;
              found == Some(VaultKey(id, userId, purpose, wrappedDek, keyVersion, now))
            else found == before
  {
    if Key(userId, purpose) == Key(otherUser, otherPurpose) {
      KeyIsInjective(userId, purpose, otherUser, otherPurpose);
    }
  }

  class InMemoryVaultKeysRepository {
    var byUserAndPurpose: Table

    constructor ()
      ensures byUserAndPurpose == JsMap([], map[])
    {
      byUserAndPurpose := JsMap([], map[]);
    }

    method Store(userId: string, purpose: Purpose, wrappedDek: Bytes, keyVersion: int, freshId: string, now: int)
      returns (record: VaultKey)
      modifies this
      ensures byUserAndPurpose == Upsert(old(byUserAndPurpose), userId, purpose, wrappedDek, keyVersion, freshId, now)
      ensures Some(record) == GetByUserAndPurpose(byUserAndPurpose, userId, purpose)
    {
      var key := Key(userId, purpose);
      var existing := byUserAndPurpose.Get(key);
      record := VaultKey(
        if existing.Some? then existing.value.id else freshId, userId, purpose, wrappedDek, keyVersion, now);
      byUserAndPurpose := byUserAndPurpose.Set(key, record);
    }

    method Find(userId: string, purpose: Purpose) returns (record: Option<VaultKey>)
      ensures record == GetByUserAndPurpose(byUserAndPurpose, userId, purpose)
    {
      record := byUserAndPurpose.Get(Key(userId, purpose));
    }
  }
}
