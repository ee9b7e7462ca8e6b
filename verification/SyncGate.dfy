/** The reconciliation gate over whole runs. */
module SyncGate {
  import opened Common
  import opened Sync
  import opened SyncRuns
  import Items = VaultItems
  import Keys = VaultKeys
  import SyncHistory

  /** The key version of the user's most recent 'master' upsert. */
  function LatestMaster(steps: seq<Step>, userId: string): Option<int> {
    if steps == [] then None
    else
      match steps[|steps| - 1].op
      case UpsertOp(u, p, _, v) =>
        if u == userId && p == Master then Some(v) else LatestMaster(steps[..|steps| - 1], userId)
      case _ => LatestMaster(steps[..|steps| - 1], userId)
  }

  /** The attempts to push or pull, as the event log should show them. */
  function Attempts(steps: seq<Step>): seq<SyncEvent> {
    if steps == [] then []
    else
      var before, env := Attempts(steps[..|steps| - 1]), steps[|steps| - 1].env;
      match steps[|steps| - 1].op
      case PushOp(u, d, input) => before + [SyncEvent(env.eventId, u, d, input.masterKeyVersion, env.now)]
      case PullOp(u, d, v) => before + [SyncEvent(env.eventId, u, d, v, env.now)]
      case _ => before
  }

  /** The wrapping stored last for a user and purpose, under the row id of the first. */
  function LatestKey(steps: seq<Step>, userId: string, purpose: Purpose): Option<Keys.VaultKey> {
    if steps == [] then None
    else
      var before, last := LatestKey(steps[..|steps| - 1], userId, purpose), steps[|steps| - 1];
      match last.op
      case UpsertOp(u, p, wrapped, version) =>
        if u != userId || p != purpose then before
        else
          var id := if before.Some? then before.value.id else last.env.newId;
          Some(Keys.VaultKey(id, u, p, wrapped, version, last.env.now))
      case _ => before
  }

  /** What is read for a user and purpose is exactly what was stored last, whatever others have stored. */
  lemma {:induction false} StoredKeyIsLatest(steps: seq<Step>, userId: string, purpose: Purpose)
    ensures Keys.GetByUserAndPurpose(Run(steps).state.keys, userId, purpose) == LatestKey(steps, userId, purpose)
  {
    if steps != [] {
      var front, last := steps[..|steps| - 1], steps[|steps| - 1];
      StoredKeyIsLatest(front, userId, purpose);
      if last.op.UpsertOp? {
        Keys.UpsertIsLocal(
          Run(front).state.keys, last.op.userId, last.op.purpose, last.op.wrappedDek, last.op.keyVersion,
          last.env.newId, last.env.now, userId, purpose);
      }
    }
  }

  lemma {:induction false} StoredMasterIsLatest(steps: seq<Step>, userId: string)
    ensures var stored := Keys.GetByUserAndPurpose(Run(steps).state.keys, userId, Master);
            LatestMaster(steps, userId) == if stored.Some? then Some(stored.value.keyVersion) else None
  {
    if steps != [] {
      var front, last := steps[..|steps| - 1], steps[|steps| - 1];
      StoredMasterIsLatest(front, userId);
      if last.op.UpsertOp? {
        Keys.UpsertIsLocal(
          Run(front).state.keys, last.op.userId, last.op.purpose, last.op.wrappedDek, last.op.keyVersion,
          last.env.newId, last.env.now, userId, Master);
      }
    }
  }

  /** Every push or pull attempt, accepted or refused, leaves exactly one event; nothing else leaves any. */
  lemma {:induction false} EveryAttemptIsLogged(steps: seq<Step>)
    ensures Run(steps).state.events == Attempts(steps)
  {
    if steps != [] {
      EveryAttemptIsLogged(steps[..|steps| - 1]);
    }
  }

  /**
   * After any run: a pull is answered exactly when its version is that of the
   * user's latest 'master' upsert, and then with exactly the user's items.
   */
  lemma PullGate(steps: seq<Step>, userId: string, deviceId: string, version: int, env: Env, item: Items.VaultItem)
    ensures var s := Run(steps).state;
            var (s', result) := Pull(s, userId, deviceId, version, env);
            && (result.Ok? <==> LatestMaster(steps, userId) == Some(version))
            && (result == Err(NoMasterKey) <==> LatestMaster(steps, userId).None?)
            && (forall v :: result == Err(OutdatedMasterKey(v)) <==>
                              LatestMaster(steps, userId) == Some(v) && v != version)
            && (result.Ok? ==>
                  && result.value.masterKeyVersion == version
                  && (item in result.value.items <==>
                        exists id :: id in s.items.order && s.items.entries[id] == item && item.userId == userId))
            && s' == s.(events := s'.events)
  {
    StoredMasterIsLatest(steps, userId);
    var s := Run(steps).state;
    Items.ListIsExact(s.items.order, s.items.entries, userId, item);
  }

  /**
   * After any run: a push is accepted exactly when its version is that of the
   * user's latest 'master' upsert and it names no item or one of the user's
   * own; a refused push changes nothing but the event log, and says why.
   */
  lemma PushGate(steps: seq<Step>, userId: string, deviceId: string, input: PushInput, env: Env)
    ensures var s := Run(steps).state;
            var (s', result) := Push(s, userId, deviceId, input, env);
            var reconciled := LatestMaster(steps, userId) == Some(input.masterKeyVersion);
            var found := forall id :: input.itemId == Some(id) && id != "" ==>
                                        id in s.items.entries && s.items.entries[id].userId == userId;
            && (result.Ok? <==> reconciled && found)
            && (result.Err? ==> s' == s.(events := s'.events))
            && (result == Err(NoMasterKey) <==> LatestMaster(steps, userId).None?)
            && (result == Err(ItemNotFound) <==> reconciled && !found)
            && (forall v :: result == Err(OutdatedMasterKey(v)) <==>
                              LatestMaster(steps, userId) == Some(v) && v != input.masterKeyVersion)
            && s'.keys == s.keys
  {
    StoredMasterIsLatest(steps, userId);
  }

  /** A pull lists no item twice, and lists them in the order of their creation. */
  lemma PullListsOnce(steps: seq<Step>, userId: string, deviceId: string, version: int, env: Env)
    requires FreshRun(steps)
    ensures var result := Pull(Run(steps).state, userId, deviceId, version, env).1;
            result.Ok? ==>
              && Items.DistinctIds(result.value.items)
              && Items.InOrderOf(Run(steps).state.items.order, result.value.items)
  {
    var t := Run(steps).state.items;
    assert IdsMatch(t) by {
      SyncHistory.RunKeepsLog(steps);
    }
    Items.ListHasNoRepeats(t.order, t.entries, userId);
    Items.ListKeepsOrder(t.order, t.entries, userId);
    assert Items.ListByUser(t, userId) == Items.FilterByUser(t.order, t.entries, userId);
  }

  /**
   * The reply to an accepted push is the record now stored. It reports a
   * conflict exactly when the write did not land on the item it was meant for.
   */
  lemma PushReplyIsStored(steps: seq<Step>, userId: string, deviceId: string, input: PushInput, env: Env)
    requires FreshRun(steps) && Fresh(Run(steps).state, env)
    ensures var (s', result) := Push(Run(steps).state, userId, deviceId, input, env);
            result.Ok? ==>
              && result.value.item.id in s'.items.entries
              && s'.items.entries[result.value.item.id] == result.value.item
              && result.value.item.userId == userId
              && result.value.item.ciphertext == input.ciphertext
              && (result.value.conflict
                  <==> exists id :: input.itemId == Some(id) && id != "" && result.value.item.id != id)
  {
    SyncHistory.RunKeepsLog(steps);
  }

  /** Storing a recovery wrapping commutes with every push and pull, of any user. */
  lemma RecoveryUpsertsCommute(
      s: State, owner: string, wrappedDek: Bytes, keyVersion: int, keyEnv: Env, op: Op, env: Env)
    requires s.items.Valid() && (op.PushOp? || op.PullOp?)
    ensures var upsert := UpsertOp(owner, Recovery, wrappedDek, keyVersion);
            && Exec(Exec(s, upsert, keyEnv).0, op, env).0 == Exec(Exec(s, op, env).0, upsert, keyEnv).0
            && Exec(Exec(s, upsert, keyEnv).0, op, env).1 == Exec(s, op, env).1
  {
    Keys.UpsertIsLocal(
      s.keys, owner, Recovery, wrappedDek, keyVersion, keyEnv.newId, keyEnv.now, op.userId, Master);
  }
}
