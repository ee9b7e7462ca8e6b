/** What every run of the sync server keeps about the items table. */
module SyncTables {
  import opened Common
  import opened Sync
  import opened SyncRuns
  import SyncHistory
  import Items = VaultItems

  // ---- conservation ----

  /** Sum of the versions of a user's items. */
  function VersionSum(ids: seq<string>, entries: map<string, Items.VaultItem>, userId: string): int
    requires forall id :: id in ids ==> id in entries
  {
    if ids == [] then 0
    else
      var last := entries[ids[|ids| - 1]];
      VersionSum(ids[..|ids| - 1], entries, userId) + (if last.userId == userId then last.itemVersion else 0)
  }

  function WritesBy(log: seq<Write>, userId: string): nat {
    if log == [] then 0
    else WritesBy(log[..|log| - 1], userId) + if log[|log| - 1].userId == userId then 1 else 0
  }

  lemma {:induction false} SumAfterSet(
      ids: seq<string>, entries: map<string, Items.VaultItem>, id: string, item: Items.VaultItem, userId: string)
    requires forall i :: i in ids ==> i in entries
    requires forall i, j :: 0 <= i < j < |ids| ==> ids[i] != ids[j]
    requires id in entries ==> entries[id].userId == item.userId
    ensures VersionSum(ids, entries[id := item], userId)
         == VersionSum(ids, entries, userId)
            + if id in ids && item.userId == userId then item.itemVersion - entries[id].itemVersion else 0
  {
    if ids != [] {
      var front, last := ids[..|ids| - 1], ids[|ids| - 1];
      assert ids == front + [last];
      SumAfterSet(front, entries, id, item, userId);
    }
  }

  lemma InsertAdds(t: Items.Table, item: Items.VaultItem, userId: string)
    requires t.Valid() && item.id !in t.entries
    ensures var t' := Items.Insert(t, item);
            VersionSum(t'.order, t'.entries, userId)
            == VersionSum(t.order, t.entries, userId) + if item.userId == userId then item.itemVersion else 0
  {
    var t' := Items.Insert(t, item);
    SumAfterSet(t.order, t.entries, item.id, item, userId);
    assert t'.order[..|t'.order| - 1] == t.order;
  }

  lemma InsertConserves(before: Config, after: Config, w: Write, userId: string)
    requires IdsMatch(before.state.items) && after.state.items.Valid() && InsertsNew(before, after, w)
    requires VersionSum(before.state.items.order, before.state.items.entries, userId) == WritesBy(before.log, userId)
    ensures VersionSum(after.state.items.order, after.state.items.entries, userId) == WritesBy(after.log, userId)
  {
    assert after.log[..|after.log| - 1] == before.log;
    InsertAdds(before.state.items, after.state.items.entries[w.item], userId);
  }

  lemma BumpConserves(before: Config, after: Config, w: Write, userId: string)
    requires IdsMatch(before.state.items) && after.state.items.Valid() && Bumps(before, after, w)
    requires VersionSum(before.state.items.order, before.state.items.entries, userId) == WritesBy(before.log, userId)
    ensures VersionSum(after.state.items.order, after.state.items.entries, userId) == WritesBy(after.log, userId)
  {
    var t, t' := before.state.items, after.state.items;
    assert after.log[..|after.log| - 1] == before.log;
    assert t'.entries == t.entries[w.item := t'.entries[w.item]];
    SumAfterSet(t.order, t.entries, w.item, t'.entries[w.item], userId);
  }

  lemma ChangesConserve(before: Config, after: Config, actor: string, userId: string)
    requires IdsMatch(before.state.items) && after.state.items.Valid() && Changes(before, after, actor)
    requires VersionSum(before.state.items.order, before.state.items.entries, userId) == WritesBy(before.log, userId)
    ensures VersionSum(after.state.items.order, after.state.items.entries, userId) == WritesBy(after.log, userId)
  {
    if after.log != before.log || after.state.items != before.state.items {
      if exists w :: Bumps(before, after, w) && w.userId == actor {
        var w :| Bumps(before, after, w) && w.userId == actor;
        BumpConserves(before, after, w, userId);
      } else {
        var w :| InsertsNew(before, after, w) && w.userId == actor;
        InsertConserves(before, after, w, userId);
      }
    }
  }

  /**
   * Conservation, over every run: for every user the versions of their items
   * add up to the number of writes the server accepted from them.
   */
  lemma {:induction false} VersionsCountWrites(steps: seq<Step>, userId: string)
    requires FreshRun(steps)
    ensures VersionSum(Run(steps).state.items.order, Run(steps).state.items.entries, userId)
         == WritesBy(Run(steps).log, userId)
  {
    if steps != [] {
      var front, last := steps[..|steps| - 1], steps[|steps| - 1];
      VersionsCountWrites(front, userId);
      SyncHistory.RunKeepsLog(front);
      StepEffect(Run(front), last);
      ChangesConserve(Run(front), Run(steps), last.op.userId, userId);
    }
  }

  // ---- growth, isolation ----

  /** Items stay, in place; versions never decrease; owner and fork parent never change. */
  ghost predicate Grows(t: Items.Table, t': Items.Table) {
    && t.order <= t'.order
    && forall id :: id in t.entries ==>
         && id in t'.entries
         && t'.entries[id].id == t.entries[id].id
         && t'.entries[id].userId == t.entries[id].userId
         && t'.entries[id].conflictOf == t.entries[id].conflictOf
         && t.entries[id].itemVersion <= t'.entries[id].itemVersion
  }

  lemma InsertGrows(before: Config, after: Config, w: Write)
    requires IdsMatch(before.state.items) && InsertsNew(before, after, w)
    ensures Grows(before.state.items, after.state.items)
  {
    InsertShape(before, after, w);
  }

  lemma BumpGrows(before: Config, after: Config, w: Write)
    requires IdsMatch(before.state.items) && Bumps(before, after, w)
    ensures Grows(before.state.items, after.state.items)
  {
  }

  lemma ChangesGrow(before: Config, after: Config, actor: string)
    requires IdsMatch(before.state.items) && Changes(before, after, actor)
    ensures Grows(before.state.items, after.state.items)
  {
    if after.log != before.log || after.state.items != before.state.items {
      if exists w :: Bumps(before, after, w) && w.userId == actor {
        var w :| Bumps(before, after, w) && w.userId == actor;
        BumpGrows(before, after, w);
      } else {
        var w :| InsertsNew(before, after, w) && w.userId == actor;
        InsertGrows(before, after, w);
      }
    }
  }

  lemma {:induction false} RunGrows(steps: seq<Step>, n: nat)
    requires FreshRun(steps) && n <= |steps|
    ensures Grows(Run(steps[..n]).state.items, Run(steps).state.items)
    decreases |steps|
  {
    if n == |steps| {
      assert steps[..n] == steps;
    } else {
      var front, last := steps[..|steps| - 1], steps[|steps| - 1];
      RunGrows(front, n);
      assert front[..n] == steps[..n];
      SyncHistory.RunKeepsLog(front);
      StepEffect(Run(front), last);
      ChangesGrow(Run(front), Run(steps), last.op.userId);
    }
  }

  lemma {:induction false} FilterIgnores(
      ids: seq<string>, entries: map<string, Items.VaultItem>, entries': map<string, Items.VaultItem>, userId: string)
    requires forall id :: id in ids ==> id in entries && id in entries'
    requires forall id :: id in ids ==>
               entries'[id] == entries[id] || (entries[id].userId != userId && entries'[id].userId != userId)
    ensures Items.FilterByUser(ids, entries, userId) == Items.FilterByUser(ids, entries', userId)
  {
    if ids != [] {
      FilterIgnores(ids[..|ids| - 1], entries, entries', userId);
    }
  }

  ghost predicate SameView(t: Items.Table, t': Items.Table, userId: string, id: string)
    requires t.Valid() && t'.Valid()
  {
    && Items.ListByUser(t', userId) == Items.ListByUser(t, userId)
    && Items.GetById(t', id, userId) == Items.GetById(t, id, userId)
  }

  lemma InsertIsLocal(before: Config, after: Config, w: Write, other: string, id: string)
    requires before.state.items.Valid() && after.state.items.Valid()
    requires InsertsNew(before, after, w) && w.userId != other
    ensures SameView(before.state.items, after.state.items, other, id)
  {
    InsertShape(before, after, w);
    FilterAppend(
      before.state.items.order, before.state.items.entries, w.item, after.state.items.entries[w.item], other);
  }

  lemma InsertShape(before: Config, after: Config, w: Write)
    requires InsertsNew(before, after, w)
    ensures w.item in after.state.items.entries && after.state.items.entries[w.item].userId == w.userId
    ensures after.state.items.order == before.state.items.order + [w.item]
    ensures after.state.items.entries == before.state.items.entries[w.item := after.state.items.entries[w.item]]
  {
  }

  lemma FilterAppend(
      ids: seq<string>, entries: map<string, Items.VaultItem>, newId: string, item: Items.VaultItem, userId: string)
    requires newId !in ids && item.userId != userId && forall id :: id in ids ==> id in entries
    ensures Items.FilterByUser(ids + [newId], entries[newId := item], userId)
         == Items.FilterByUser(ids, entries, userId)
  {
    FilterIgnores(ids, entries, entries[newId := item], userId);
    FilterSkipsLast(ids + [newId], entries[newId := item], userId);
    assert (ids + [newId])[..|ids|] == ids;
  }

  lemma FilterSkipsLast(ids: seq<string>, entries: map<string, Items.VaultItem>, userId: string)
    requires forall id :: id in ids ==> id in entries
    requires ids != [] && entries[ids[|ids| - 1]].userId != userId
    ensures Items.FilterByUser(ids, entries, userId) == Items.FilterByUser(ids[..|ids| - 1], entries, userId)
  {
  }

  lemma BumpIsLocal(before: Config, after: Config, w: Write, other: string, id: string)
    requires before.state.items.Valid() && after.state.items.Valid()
    requires Bumps(before, after, w) && w.userId != other
    ensures SameView(before.state.items, after.state.items, other, id)
  {
    FilterIgnores(before.state.items.order, before.state.items.entries, after.state.items.entries, other);
  }

  lemma ChangesAreIsolated(before: Config, after: Config, actor: string, other: string, id: string)
    requires before.state.items.Valid() && after.state.items.Valid()
    requires Changes(before, after, actor) && other != actor
    ensures SameView(before.state.items, after.state.items, other, id)
  {
    if after.log != before.log || after.state.items != before.state.items {
      if exists w :: Bumps(before, after, w) && w.userId == actor {
        var w :| Bumps(before, after, w) && w.userId == actor;
        BumpIsLocal(before, after, w, other, id);
      } else {
        var w :| InsertsNew(before, after, w) && w.userId == actor;
        InsertIsLocal(before, after, w, other, id);
      }
    }
  }

  /** No operation of one user changes what any other user owns, looks up or lists. */
  lemma UsersAreIsolated(steps: seq<Step>, step: Step, other: string, id: string)
    requires FreshRun(steps) && Fresh(Run(steps).state, step.env) && other != step.op.userId
    ensures SameView(Run(steps).state.items, Next(Run(steps), step).state.items, other, id)
  {
    SyncHistory.RunKeepsLog(steps);
    StepEffect(Run(steps), step);
    ChangesAreIsolated(Run(steps), Next(Run(steps), step), step.op.userId, other, id);
  }

  // ---- the fork forest ----

  /** Each fork points at an item of the same user that was created strictly before it. */
  ghost predicate ForestOk(t: Items.Table) {
    && t.Valid()
    && forall i :: 0 <= i < |t.order| ==> ParentOk(t, i)
  }

  ghost predicate ParentOk(t: Items.Table, i: nat)
    requires t.Valid() && i < |t.order|
  {
    var item := t.entries[t.order[i]];
    item.conflictOf.Some? ==>
      exists j :: 0 <= j < i && t.order[j] == item.conflictOf.value && t.entries[t.order[j]].userId == item.userId
  }

  /** Parents that were there stay where they were. */
  lemma OldParentsStay(t: Items.Table, t': Items.Table, i: nat)
    requires ForestOk(t) && t'.Valid() && Grows(t, t') && i < |t.order|
    ensures ParentOk(t', i)
  {
    assert ParentOk(t, i) && t'.order[i] == t.order[i];
    var item := t.entries[t.order[i]];
    if item.conflictOf.Some? {
      var j :| 0 <= j < i && t.order[j] == item.conflictOf.value && t.entries[t.order[j]].userId == item.userId;
      assert t'.order[j] == t.order[j];
    }
  }

  lemma NewForkHasParent(before: Config, after: Config, w: Write)
    requires IdsMatch(before.state.items) && after.state.items.Valid() && InsertsNew(before, after, w)
    ensures ParentOk(after.state.items, |before.state.items.order|)
  {
    InsertGrows(before, after, w);
    InsertShape(before, after, w);
    if w.how.Forked? {
      var j :| 0 <= j < |before.state.items.order| && before.state.items.order[j] == w.how.of;
      assert after.state.items.order[j] == w.how.of;
    }
  }

  lemma ChangesKeepForest(before: Config, after: Config, actor: string)
    requires IdsMatch(before.state.items) && after.state.items.Valid()
    requires Changes(before, after, actor) && ForestOk(before.state.items)
    ensures ForestOk(after.state.items)
  {
    var t, t' := before.state.items, after.state.items;
    ChangesGrow(before, after, actor);
    forall i | 0 <= i < |t'.order| ensures ParentOk(t', i) {
      if i < |t.order| {
        OldParentsStay(t, t', i);
      } else {
        var w :| InsertsNew(before, after, w);
        InsertShape(before, after, w);
        NewForkHasParent(before, after, w);
      }
    }
  }

  lemma {:induction false} ForksFormAForest(steps: seq<Step>)
    requires FreshRun(steps)
    ensures ForestOk(Run(steps).state.items)
  {
    if steps != [] {
      var front := steps[..|steps| - 1];
      ForksFormAForest(front);
      SyncHistory.RunKeepsLog(front);
      StepEffect(Run(front), steps[|steps| - 1]);
      ChangesKeepForest(Run(front), Run(steps), steps[|steps| - 1].op.userId);
    }
  }

  /** Where in the order of creation the parent of a fork is. */
  ghost function Parent(t: Items.Table, i: nat): (j: nat)
    requires ForestOk(t) && i < |t.order| && t.entries[t.order[i]].conflictOf.Some?
    ensures j < i && t.entries[t.order[i]].conflictOf == Some(t.order[j])
    ensures t.entries[t.order[j]].userId == t.entries[t.order[i]].userId
  {
    assert ParentOk(t, i);
    var item := t.entries[t.order[i]];
    var j :| 0 <= j < i && t.order[j] == item.conflictOf.value && t.entries[t.order[j]].userId == item.userId;
    j
  }

  /** Following `conflictOf` from the item created `i`-th until an item that is no fork. */
  ghost function Root(t: Items.Table, i: nat): (root: nat)
    requires ForestOk(t) && i < |t.order|
    ensures root <= i && t.entries[t.order[root]].conflictOf.None?
    ensures t.entries[t.order[root]].userId == t.entries[t.order[i]].userId
    decreases i
  {
    if t.entries[t.order[i]].conflictOf.None? then i else Root(t, Parent(t, i))
  }

  /** From any item of any run the chain of forks ends at an original of the same user, created no later. */
  lemma EveryForkHasARoot(steps: seq<Step>, i: nat)
    requires FreshRun(steps) && i < |Run(steps).state.items.order|
    ensures var t := Run(steps).state.items;
            && ForestOk(t)
            && Root(t, i) <= i
            && t.entries[t.order[Root(t, i)]].conflictOf.None?
            && t.entries[t.order[Root(t, i)]].userId == t.entries[t.order[i]].userId
  {
    ForksFormAForest(steps);
  }
}
