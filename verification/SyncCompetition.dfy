/** Exactly when the edits that start from one version of an item can no longer overwrite it. */
module SyncCompetition {
  import opened Common
  import opened Sync
  import opened SyncRuns
  import opened SyncHistory
  import SyncTables
  import Items = VaultItems
  import Keys = VaultKeys

  /** No continuation of the run, by whatever clients, overwrites the item from this base version. */
  ghost predicate ClosedForever(steps: seq<Step>, item: string, base: int) {
    forall more, k :: FreshRun(steps + more) && |Run(steps).log| <= k < |Run(steps + more).log| ==>
                        !Overwrites(Run(steps + more).log[k], item, base)
  }

  lemma RunAppend(steps: seq<Step>, step: Step)
    ensures Run(steps + [step]) == Next(Run(steps), step)
    ensures FreshRun(steps + [step]) <==> FreshRun(steps) && Fresh(Run(steps).state, step.env)
  {
    assert (steps + [step])[..|steps|] == steps;
  }

  lemma NewestIsNoOverwrite(steps: seq<Step>, n: nat, step: Step, item: string, base: int)
    requires FreshRun(steps) && n <= |steps| && Fresh(Run(steps).state, step.env)
    requires |Next(Run(steps), step).log| > |Run(steps).log|
    requires item in Run(steps[..n]).state.items.entries && base < Run(steps[..n]).state.items.entries[item].itemVersion
    ensures !Overwrites(Next(Run(steps), step).log[|Run(steps).log|], item, base)
  {
    assert item in Run(steps).state.items.entries && base < Run(steps).state.items.entries[item].itemVersion by {
      SyncTables.RunGrows(steps, n);
    }
    assert LogOk(Run(steps)) by {
      RunKeepsLog(steps);
    }
    NewWriteSawItsTarget(Run(steps), step, item, base);
  }

  /** Once the item has moved past the base (after `n` steps), nothing overwrites it from there again. */
  lemma {:induction false} PassedBaseIsClosed(steps: seq<Step>, n: nat, item: string, base: int, k: nat)
    requires FreshRun(steps) && n <= |steps| && |Run(steps[..n]).log| <= k < |Run(steps).log|
    requires item in Run(steps[..n]).state.items.entries && base < Run(steps[..n]).state.items.entries[item].itemVersion
    ensures !Overwrites(Run(steps).log[k], item, base)
  {
    assert steps[..|steps|] == steps;
    if n < |steps| {
      var front, last := steps[..|steps| - 1], steps[|steps| - 1];
      assert front[..n] == steps[..n];
      assert FreshRun(front) && Fresh(Run(front).state, last.env) && Run(steps) == Next(Run(front), last);
      NextAddsAtMostOne(Run(front), last);
      if k < |Run(front).log| {
        PassedBaseIsClosed(front, n, item, base, k);
      } else {
        NewestIsNoOverwrite(front, n, last, item, base);
      }
    }
  }

  // ---- and until then it can be overwritten ----

  function Longest(ids: seq<string>): nat {
    if ids == [] then 0
    else
      var rest := Longest(ids[1..]);
      if |ids[0]| > rest then |ids[0]| else rest
  }

  lemma {:induction false} LongestBounds(ids: seq<string>, id: string)
    requires id in ids
    ensures |id| <= Longest(ids)
  {
    if id != ids[0] {
      LongestBounds(ids[1..], id);
    }
  }

  /** There is always an id not in use. */
  lemma UnusedId(t: Items.Table) returns (id: string)
    requires t.Valid()
    ensures id != "" && id !in t.entries
  {
    id := seq(Longest(t.order) + 1, _ => 'x');
    if id in t.order {
      LongestBounds(t.order, id);
    }
  }

  /** The owner re-keys to version 1, claims the base, and overwrites the item. */
  lemma RekeyAndPush(c: Config, item: string, base: int, id: string) returns (rekey: Step, push: Step)
    requires LogOk(c) && item in c.state.items.entries && base >= c.state.items.entries[item].itemVersion
    ensures rekey.env.newId == push.env.newId == id
    ensures Next(c, rekey).state.items == c.state.items
    ensures var end := Next(Next(c, rekey), push);
            |end.log| == |c.log| + 1 && Overwrites(end.log[|c.log|], item, base)
  {
    var owner := c.state.items.entries[item].userId;
    rekey := Step(UpsertOp(owner, Master, [], 1), Env(id, "", 0));
    push := Step(PushOp(owner, "", PushInput(Some(item), [], 1, Some(base), 1)), Env(id, "", 0));
    Keys.UpsertIsLocal(c.state.keys, owner, Master, [], 1, id, 0, owner, Master);
  }

  lemma OpenBaseIsOverwritten(steps: seq<Step>, item: string, base: int) returns (more: seq<Step>)
    requires FreshRun(steps) && item in Run(steps).state.items.entries
    requires base >= Run(steps).state.items.entries[item].itemVersion
    ensures FreshRun(steps + more)
    ensures |Run(steps).log| < |Run(steps + more).log|
         && Overwrites(Run(steps + more).log[|Run(steps).log|], item, base)
  {
    var c := Run(steps);
    assert LogOk(c) by {
      RunKeepsLog(steps);
    }
    var id := UnusedId(c.state.items);
    var rekey, push := RekeyAndPush(c, item, base, id);
    TwoMore(steps, rekey, push);
    more := [rekey, push];
  }

  lemma TwoMore(steps: seq<Step>, a: Step, b: Step)
    requires FreshRun(steps) && Fresh(Run(steps).state, a.env) && Fresh(Next(Run(steps), a).state, b.env)
    ensures FreshRun(steps + [a, b]) && Run(steps + [a, b]) == Next(Next(Run(steps), a), b)
  {
    RunAppend(steps, a);
    RunAppend(steps + [a], b);
    assert steps + [a] + [b] == steps + [a, b];
  }

  /**
   * In any run: edits of an item from a base version are closed for good, for
   * all clients, if and only if the item has moved past that version.
   */
  lemma BaseIsClosedExactly(steps: seq<Step>, item: string, base: int)
    requires FreshRun(steps) && item in Run(steps).state.items.entries
    ensures ClosedForever(steps, item, base) <==> base < Run(steps).state.items.entries[item].itemVersion
  {
    if base < Run(steps).state.items.entries[item].itemVersion {
      forall more, k | FreshRun(steps + more) && |Run(steps).log| <= k < |Run(steps + more).log|
        ensures !Overwrites(Run(steps + more).log[k], item, base)
      {
        assert (steps + more)[..|steps|] == steps;
        PassedBaseIsClosed(steps + more, |steps|, item, base, k);
      }
    } else {
      var more := OpenBaseIsOverwritten(steps, item, base);
    }
  }

  /**
   * In any run, for the next push of an existing item, whatever version it
   * claims to have seen: if it is accepted, all later edits from that version
   * will fork, for good and for all clients, if and only if the claimed
   * version is not ahead of the item the push finds.
   */
  lemma AcceptedPushClosesExactly(
      steps: seq<Step>, userId: string, deviceId: string, input: PushInput, env: Env, item: string, base: int)
    requires FreshRun(steps) && Fresh(Run(steps).state, env)
    requires input.itemId == Some(item) && item != "" && base == input.lastSeenItemVersion.GetOr(0)
    requires Push(Run(steps).state, userId, deviceId, input, env).1.Ok?
    ensures item in Run(steps).state.items.entries
    ensures ClosedForever(steps + [Step(PushOp(userId, deviceId, input), env)], item, base)
       <==> base <= Run(steps).state.items.entries[item].itemVersion
  {
    var step := Step(PushOp(userId, deviceId, input), env);
    PushMovesItem(steps, step, item);
    BaseIsClosedExactly(steps + [step], item, base);
  }

  /** An accepted push leaves its target past the claimed version exactly when that was not ahead before. */
  lemma PushMovesItem(steps: seq<Step>, step: Step, item: string)
    requires FreshRun(steps) && Fresh(Run(steps).state, step.env)
    requires step.op.PushOp? && step.op.input.itemId == Some(item) && item != ""
    requires Push(Run(steps).state, step.op.userId, step.op.deviceId, step.op.input, step.env).1.Ok?
    ensures FreshRun(steps + [step])
    ensures var base := step.op.input.lastSeenItemVersion.GetOr(0);
            var before, after := Run(steps).state.items.entries, Run(steps + [step]).state.items.entries;
            && item in before && item in after
            && (base < after[item].itemVersion <==> base <= before[item].itemVersion)
  {
    RunAppend(steps, step);
    RunKeepsLog(steps);
  }

  /** The newest write of a run is what its item holds. */
  lemma NewestIsStored(steps: seq<Step>, k: nat)
    requires FreshRun(steps) && k == |Run(steps).log| - 1
    ensures var c := Run(steps);
            && ForkJustified(c.state.items, c.log[k])
            && c.log[k].item in c.state.items.entries
            && c.state.items.entries[c.log[k].item].itemVersion == c.log[k].version
  {
    RunKeepsLog(steps);
    assert Kept(Run(steps), k);
  }

  /** If the newest write competes for an item, then it shows whether that item is past the base. */
  lemma NewestCompetitor(steps: seq<Step>, item: string, base: int)
    requires FreshRun(steps) && |Run(steps).log| > 0
    requires Competes(Run(steps).log[|Run(steps).log| - 1], item, base)
    ensures item in Run(steps).state.items.entries
    ensures base < Run(steps).state.items.entries[item].itemVersion
       <==> SawItsBase(Run(steps).log[|Run(steps).log| - 1])
  {
    var last := |Run(steps).log| - 1;
    OverwritesStayBehindTheirBase(steps, last);
    NewestIsStored(steps, last);
  }

  /**
   * In any run, the moment a competing edit has been accepted: all later ones
   * from the same base will fork, for good and for all clients, if and only if
   * that one edit did not claim a version ahead of the item.
   */
  lemma FirstCompetitorDecides(steps: seq<Step>, item: string, base: int)
    requires FreshRun(steps) && |Run(steps).log| > 0
    requires Competes(Run(steps).log[|Run(steps).log| - 1], item, base)
    ensures ClosedForever(steps, item, base) <==> SawItsBase(Run(steps).log[|Run(steps).log| - 1])
  {
    NewestCompetitor(steps, item, base);
    BaseIsClosedExactly(steps, item, base);
  }
}
