/** What the server answers to each write, and what its tables hold afterwards, after any run. */
module SyncReplies {
  import opened Common
  import opened Sync
  import opened SyncRuns
  import Items = VaultItems
  import SyncHistory

  /** The client has not seen the item's present version; a client that names none has seen version 0. */
  ghost predicate Unseen(item: Items.VaultItem, lastSeen: Option<int>) {
    match lastSeen
    case None => item.itemVersion > 0
    case Some(v) => item.itemVersion > v
  }

  /** The item is stored under its own id, and nothing else has changed in the table. */
  ghost predicate StoresOnly(t: Items.Table, t': Items.Table, item: Items.VaultItem) {
    && t'.entries == t.entries[item.id := item]
    && t'.order == if item.id in t.entries then t.order else t.order + [item.id]
  }

  /**
   * An accepted push that names an item: if the client has not seen its
   * present version the reply is a fork of it, with a new id, and the item
   * stays as it was; otherwise it is the next version of the item itself.
   * Either way it holds what was sent, and it is all that changes.
   */
  lemma PushToItemIsExact(
      steps: seq<Step>, userId: string, deviceId: string, input: PushInput, env: Env, id: string)
    requires FreshRun(steps) && Fresh(Run(steps).state, env)
    requires input.itemId == Some(id) && id != ""
    ensures var t := Run(steps).state.items;
            var (s', result) := Push(Run(steps).state, userId, deviceId, input, env);
            result.Ok? ==>
              && id in t.entries && t.entries[id].userId == userId
              && var found, item := t.entries[id], result.value.item;
              && StoresOnly(t, s'.items, item)
              && result.value.conflict == Unseen(found, input.lastSeenItemVersion)
              && item == if Unseen(found, input.lastSeenItemVersion)
                         then Items.VaultItem(
                             env.newId, userId, input.ciphertext, input.dekVersion, 1, Some(id), env.now)
                         else Items.VaultItem(
                             id, userId, input.ciphertext, input.dekVersion, found.itemVersion + 1,
                             found.conflictOf, env.now)
  {
    SyncHistory.RunKeepsLog(steps);
  }

  /** An accepted push that names no item (or the empty id) makes a new one, without a parent. */
  lemma PushOfNewItemIsExact(steps: seq<Step>, userId: string, deviceId: string, input: PushInput, env: Env)
    requires FreshRun(steps) && Fresh(Run(steps).state, env)
    requires input.itemId == None || input.itemId == Some("")
    ensures var t := Run(steps).state.items;
            var (s', result) := Push(Run(steps).state, userId, deviceId, input, env);
            result.Ok? ==>
              && StoresOnly(t, s'.items, result.value.item)
              && !result.value.conflict
              && result.value.item
              == Items.VaultItem(env.newId, userId, input.ciphertext, input.dekVersion, 1, None, env.now)
  {
  }

  /**
   * A vault write: accepted exactly for the owner of the item, whatever
   * version the client has seen; then it is the next version, and all that
   * changes. Refused, it changes nothing.
   */
  lemma VaultUpdateIsExact(
      steps: seq<Step>, userId: string, id: string, ciphertext: Bytes, dekVersion: int, env: Env)
    requires FreshRun(steps)
    ensures var t := Run(steps).state.items;
            var (t', result) := UpdateItem(t, userId, id, ciphertext, dekVersion, env);
            && (result.Ok? <==> id in t.entries && t.entries[id].userId == userId)
            && (result.Err? ==> result.error == ItemNotFound && t' == t)
            && (result.Ok? ==>
                  && var found := t.entries[id];
                  && StoresOnly(t, t', result.value)
                  && result.value == Items.VaultItem(
                       id, userId, ciphertext, dekVersion, found.itemVersion + 1, found.conflictOf, env.now))
  {
    SyncHistory.RunKeepsLog(steps);
  }
}
