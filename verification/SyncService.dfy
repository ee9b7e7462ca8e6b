/** The reconciliation gate and the conflict-fork decision, as functions and as the service that runs them. */
module Sync {
  import opened Common
  import Items = VaultItems
  import Keys = VaultKeys

  datatype PushInput = PushInput(
    itemId: Option<string>,
    ciphertext: Bytes,
    dekVersion: int,
    lastSeenItemVersion: Option<int>,
    masterKeyVersion: int
  )

  datatype PushResult = PushResult(item: Items.VaultItem, conflict: bool)

  datatype PullResult = PullResult(items: seq<Items.VaultItem>, masterKeyVersion: int)

  datatype SyncEvent = SyncEvent(
    id: string,
    userId: string,
    deviceId: string,
    masterKeyVersion: int,
    updatedAtServer: int
  )

  datatype SyncError = NoMasterKey | OutdatedMasterKey(currentMasterKeyVersion: int) | ItemNotFound

  /** What a call draws from outside: random ids and the clock. */
  datatype Env = Env(newId: string, eventId: string, now: int)

  /** The three stores the service works on. */
  datatype State = State(keys: Keys.Table, items: Items.Table, events: seq<SyncEvent>)

  /** What the gate answers; the attempt itself is recorded separately, whatever the answer. */
  function Gate(keys: Keys.Table, userId: string, clientVersion: int): Option<SyncError> {
    var master := Keys.GetByUserAndPurpose(keys, userId, Master);
    if master.None? then Some(NoMasterKey)
    else if clientVersion != master.value.keyVersion then Some(OutdatedMasterKey(master.value.keyVersion))
    else None
  }

  function Recorded(s: State, userId: string, deviceId: string, clientVersion: int, env: Env): State {
    s.(events := s.events + [SyncEvent(env.eventId, userId, deviceId, clientVersion, env.now)])
  }

  /** An absent item id and an empty one both mean "a new item". */
  predicate Targets(input: PushInput) {
    input.itemId.Some? && input.itemId.value != ""
  }

  function Push(s: State, userId: string, deviceId: string, input: PushInput, env: Env)
    : (State, Result<PushResult, SyncError>)
  {
    var s1 := Recorded(s, userId, deviceId, input.masterKeyVersion, env);
    var refusal := Gate(s.keys, userId, input.masterKeyVersion);
    if refusal.Some? then (s1, Err(refusal.value))
    else if !Targets(input) then
      var item := Items.VaultItem(env.newId, userId, input.ciphertext, input.dekVersion, 1, None, env.now);
      (s1.(items := Items.Insert(s.items, item)), Ok(PushResult(item, false)))
    else
      var existing := Items.GetById(s.items, input.itemId.value, userId);
      if existing.None? then (s1, Err(ItemNotFound))
      else if existing.value.itemVersion > input.lastSeenItemVersion.GetOr(0) then
        var fork := Items.VaultItem(
                      env.newId, userId, input.ciphertext, input.dekVersion, 1, Some(existing.value.id), env.now);
        (s1.(items := Items.Insert(s.items, fork)), Ok(PushResult(fork, true)))
      else
        var (items, updated) := Overwrite(
                                s.items, input.itemId.value, existing.value, input.ciphertext, input.dekVersion, env);
        (s1.(items := items), Ok(PushResult(updated, false)))
  }

  function Overwrite(
      items: Items.Table, id: string, existing: Items.VaultItem, ciphertext: Bytes, dekVersion: int, env: Env)
    : (Items.Table, Items.VaultItem)
  {
    var updated := existing.(
                   ciphertext := ciphertext, dekVersion := dekVersion,
                   itemVersion := existing.itemVersion + 1, updatedAt := env.now);
    (items.Set(id, updated), updated)
  }

  function Pull(s: State, userId: string, deviceId: string, clientVersion: int, env: Env)
    : (State, Result<PullResult, SyncError>)
    requires s.items.Valid()
  {
    var s1 := Recorded(s, userId, deviceId, clientVersion, env);
    var refusal := Gate(s.keys, userId, clientVersion);
    if refusal.Some? then (s1, Err(refusal.value))
    else (s1, Ok(PullResult(Items.ListByUser(s.items, userId), clientVersion)))
  }

  /** `VaultService.updateItem`: writes without looking at versions the client has seen. */
  function UpdateItem(items: Items.Table, userId: string, itemId: string, ciphertext: Bytes, dekVersion: int, env: Env)
    : (Items.Table, Result<Items.VaultItem, SyncError>)
  {
    var existing := Items.GetById(items, itemId, userId);
    if existing.None? then (items, Err(ItemNotFound))
    else
      var (items', updated) := Overwrite(items, itemId, existing.value, ciphertext, dekVersion, env);
      (items', Ok(updated))
  }

  class InMemorySyncEventsRepository {
    var events: seq<SyncEvent>

    constructor ()
      ensures events == []
    {
      events := [];
    }

    method Record(userId: string, deviceId: string, masterKeyVersion: int, env: Env)
      modifies this
      ensures events == old(events) + [SyncEvent(env.eventId, userId, deviceId, masterKeyVersion, env.now)]
    {
      events := events + [SyncEvent(env.eventId, userId, deviceId, masterKeyVersion, env.now)];
    }
  }

  class SyncService {
    const vaultKeys: Keys.InMemoryVaultKeysRepository
    const items: Items.InMemoryVaultItemsRepository
    const syncEvents: InMemorySyncEventsRepository

    constructor (
        vaultKeys: Keys.InMemoryVaultKeysRepository,
        items: Items.InMemoryVaultItemsRepository,
        syncEvents: InMemorySyncEventsRepository)
      ensures this.vaultKeys == vaultKeys && this.items == items && this.syncEvents == syncEvents
    {
      this.vaultKeys, this.items, this.syncEvents := vaultKeys, items, syncEvents;
    }

    ghost function Stores(): State
      reads vaultKeys, items, syncEvents
    {
      State(vaultKeys.byUserAndPurpose, items.byId, syncEvents.events)
    }

    method AssertReconciled(userId: string, deviceId: string, clientMasterKeyVersion: int, env: Env)
      returns (refusal: Option<SyncError>)
      modifies syncEvents
      ensures refusal == Gate(vaultKeys.byUserAndPurpose, userId, clientMasterKeyVersion)
      ensures Stores() == Recorded(old(Stores()), userId, deviceId, clientMasterKeyVersion, env)
    {
      syncEvents.Record(userId, deviceId, clientMasterKeyVersion, env);
      var masterKey := vaultKeys.Find(userId, Master);
      if masterKey.None? {
        return Some(NoMasterKey);
      }
      if clientMasterKeyVersion != masterKey.value.keyVersion {
        return Some(OutdatedMasterKey(masterKey.value.keyVersion));
      }
      return None;
    }

    method PushItem(userId: string, deviceId: string, input: PushInput, env: Env)
      returns (result: Result<PushResult, SyncError>)
      modifies items, syncEvents
      ensures (Stores(), result) == Push(old(Stores()), userId, deviceId, input, env)
    {
      var refusal := AssertReconciled(userId, deviceId, input.masterKeyVersion, env);
      if refusal.Some? {
        return Err(refusal.value);
      }
      if input.itemId.None? || input.itemId.value == "" {
        var created := items.Create(userId, input.ciphertext, input.dekVersion, env.newId, env.now);
        return Ok(PushResult(created, false));
      }
      var existing := items.FindById(input.itemId.value, userId);
      if existing.None? {
        return Err(ItemNotFound);
      }
      var lastSeen := input.lastSeenItemVersion.GetOr(0);
      var conflictDetected := existing.value.itemVersion > lastSeen;
      if conflictDetected {
        var fork := items.CreateFork(
          userId, input.ciphertext, input.dekVersion, existing.value.id, env.newId, env.now);
        return Ok(PushResult(fork, true));
      }
      var updated := items.Update(
        input.itemId.value, userId,
        Items.Patch(
          Items.Given(input.ciphertext), Items.Given(input.dekVersion),
          Items.Given(existing.value.itemVersion + 1), Items.Absent),
        env.now);
      return Ok(PushResult(updated.value, false));
    }

    method PullItems(userId: string, deviceId: string, clientMasterKeyVersion: int, env: Env)
      returns (result: Result<PullResult, SyncError>)
      requires items.byId.Valid()
      modifies syncEvents
      ensures (Stores(), result) == Pull(old(Stores()), userId, deviceId, clientMasterKeyVersion, env)
    {
      var refusal := AssertReconciled(userId, deviceId, clientMasterKeyVersion, env);
      if refusal.Some? {
        return Err(refusal.value);
      }
      var found := items.List(userId);
      return Ok(PullResult(found, clientMasterKeyVersion));
    }
  }

  class VaultService {
    const items: Items.InMemoryVaultItemsRepository

    constructor (items: Items.InMemoryVaultItemsRepository)
      ensures this.items == items
    {
      this.items := items;
    }

    method Create(userId: string, ciphertext: Bytes, dekVersion: int, env: Env) returns (item: Items.VaultItem)
      modifies items
      ensures item == Items.VaultItem(env.newId, userId, ciphertext, dekVersion, 1, None, env.now)
      ensures items.byId == Items.Insert(old(items.byId), item)
    {
      item := items.Create(userId, ciphertext, dekVersion, env.newId, env.now);
    }

    method Update(userId: string, itemId: string, ciphertext: Bytes, dekVersion: int, env: Env)
      returns (result: Result<Items.VaultItem, SyncError>)
      modifies items
      ensures (items.byId, result) == UpdateItem(old(items.byId), userId, itemId, ciphertext, dekVersion, env)
    {
      var existing := items.FindById(itemId, userId);
      if existing.None? {
        return Err(ItemNotFound);
      }
      var updated := items.Update(
        itemId, userId,
        Items.Patch(
          Items.Given(ciphertext), Items.Given(dekVersion), Items.Given(existing.value.itemVersion + 1), Items.Absent),
        env.now);
      return Ok(updated.value);
    }
  }
}
