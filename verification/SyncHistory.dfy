/** No accepted write is ever lost, and competing edits never overwrite each other. */
module SyncHistory {
  import opened Common
  import opened Sync
  import opened SyncRuns
  import Items = VaultItems

  /** The write is still what the item holds. */
  ghost predicate Intact(t: Items.Table, w: Write) {
    w.item in t.entries && StoredAs(t.entries[w.item], w)
  }

  /** The next version of the same item, by a push that had seen `w` or by a direct vault write. */
  ghost predicate Supersedes(later: Write, w: Write) {
    && later.item == w.item
    && later.userId == w.userId
    && later.version == w.version + 1
    && (later.how == Unconditional || (later.how.Overwrote? && later.how.base >= w.version))
  }

  ghost predicate Kept(c: Config, k: nat)
    requires k < |c.log|
  {
    var w := c.log[k];
    && w.item in c.state.items.entries
    && var current := c.state.items.entries[w.item];
    && current.userId == w.userId
    && w.version <= current.itemVersion
    && (w.version == current.itemVersion ==> Intact(c.state.items, w))
    && (w.version < current.itemVersion ==> exists m :: k < m < |c.log| && Supersedes(c.log[m], w))
  }

  /** A fork was made because its target had moved past the version the client saw; it never moves back. */
  ghost predicate ForkJustified(t: Items.Table, w: Write) {
    w.how.Forked? ==> w.how.of in t.entries && w.how.base < t.entries[w.how.of].itemVersion
  }

  ghost predicate LogOk(c: Config) {
    && IdsMatch(c.state.items)
    && (forall k :: 0 <= k < |c.log| ==> Kept(c, k))
    && (forall k :: 0 <= k < |c.log| ==> ForkJustified(c.state.items, c.log[k]))
    && (forall j, k :: 0 <= j < k < |c.log| && c.log[j].item == c.log[k].item ==> c.log[j].version < c.log[k].version)
  }

  lemma StillSuperseded(before: Config, after: Config, k: nat, w: Write)
    requires k < |before.log| && after.log == before.log + [w] && before.log[k].item in before.state.items.entries
    requires Kept(before, k) && before.log[k].version < before.state.items.entries[before.log[k].item].itemVersion
    ensures exists m :: k < m < |after.log| && Supersedes(after.log[m], before.log[k])
  {
    var m :| k < m < |before.log| && Supersedes(before.log[m], before.log[k]);
    assert after.log[m] == before.log[m];
  }

  /** A write at a version its item did not have keeps the versions of each item in order. */
  lemma LogStaysOrdered(before: Config, after: Config, w: Write)
    requires LogOk(before) && after.log == before.log + [w]
    requires w.item in before.state.items.entries ==> w.version > before.state.items.entries[w.item].itemVersion
    ensures forall j, k :: 0 <= j < k < |after.log| && after.log[j].item == after.log[k].item ==>
                             after.log[j].version < after.log[k].version
  {
    forall j, k | 0 <= j < k < |after.log| && after.log[j].item == after.log[k].item
      ensures after.log[j].version < after.log[k].version
    {
      assert Kept(before, j);
    }
  }

  lemma InsertKeepsLog(before: Config, after: Config, w: Write)
    requires LogOk(before) && InsertsNew(before, after, w)
    ensures LogOk(after)
  {
    forall k | 0 <= k < |after.log| ensures Kept(after, k) && ForkJustified(after.state.items, after.log[k]) {
      if k < |before.log| {
        assert Kept(before, k) && ForkJustified(before.state.items, before.log[k]);
        if before.log[k].version < before.state.items.entries[before.log[k].item].itemVersion {
          StillSuperseded(before, after, k, w);
        }
      }
    }
    LogStaysOrdered(before, after, w);
  }

  lemma BumpKeepsLog(before: Config, after: Config, w: Write)
    requires LogOk(before) && Bumps(before, after, w)
    ensures LogOk(after)
  {
    var n := |before.log|;
    assert after.log[n] == w;
    forall k | 0 <= k < |after.log| ensures Kept(after, k) && ForkJustified(after.state.items, after.log[k]) {
      if k < n {
        assert Kept(before, k) && ForkJustified(before.state.items, before.log[k]);
        if before.log[k].version < before.state.items.entries[before.log[k].item].itemVersion {
          StillSuperseded(before, after, k, w);
        } else if before.log[k].item == w.item {
          assert Supersedes(after.log[n], after.log[k]);
        }
      }
    }
    LogStaysOrdered(before, after, w);
  }

  lemma NextKeepsLog(c: Config, step: Step)
    requires LogOk(c) && Fresh(c.state, step.env)
    ensures LogOk(Next(c, step))
  {
    var after := Next(c, step);
    StepEffect(c, step);
    if w :| InsertsNew(c, after, w) {
      InsertKeepsLog(c, after, w);
    } else if w :| Bumps(c, after, w) {
      BumpKeepsLog(c, after, w);
    } else {
      forall k | 0 <= k < |after.log| ensures Kept(after, k) && ForkJustified(after.state.items, after.log[k]) {
        assert Kept(c, k);
      }
    }
  }

  lemma {:induction false} RunKeepsLog(steps: seq<Step>)
    requires FreshRun(steps)
    ensures LogOk(Run(steps))
  {
    if steps != [] {
      RunKeepsLog(steps[..|steps| - 1]);
      NextKeepsLog(Run(steps[..|steps| - 1]), steps[|steps| - 1]);
    }
  }

  /**
   * No lost update, over every run from the empty server: each accepted write
   * is still what its item holds, or the next version was written later by a
   * push that had seen it (or by a vault write, which has no conflict check).
   */
  lemma NoLostUpdate(steps: seq<Step>, k: nat)
    requires FreshRun(steps) && k < |Run(steps).log|
    ensures var c := Run(steps);
            || Intact(c.state.items, c.log[k])
            || exists m :: k < m < |c.log| && Supersedes(c.log[m], c.log[k])
  {
    RunKeepsLog(steps);
    assert Kept(Run(steps), k);
  }

  /** A push to an existing item that does not say which version it saw always forks. */
  lemma UnversionedPushForks(
      steps: seq<Step>, userId: string, deviceId: string, input: PushInput, env: Env, item: string)
    requires FreshRun(steps) && Fresh(Run(steps).state, env)
    requires input.itemId == Some(item) && item != "" && input.lastSeenItemVersion.None?
    ensures var (s', result) := Push(Run(steps).state, userId, deviceId, input, env);
            result.Ok? ==>
              && result.value.conflict
              && result.value.item.conflictOf == Some(item)
              && s'.items.Get(item) == Run(steps).state.items.Get(item)
              && s'.items.Get(env.newId) == Some(result.value.item)
              && result.value.item.ciphertext == input.ciphertext
  {
    RunKeepsLog(steps);
  }

  // ---- competing edits ----

  /** An accepted push that overwrote `item` and claimed to have seen version `base`. */
  ghost predicate Overwrites(w: Write, item: string, base: int) {
    w.item == item && w.how == Overwrote(base)
  }

  /** An accepted push of a client that edited version `base` of `item`. */
  ghost predicate Competes(w: Write, item: string, base: int) {
    Overwrites(w, item, base) || w.how == Forked(item, base)
  }

  /** The push did not claim a version ahead of the item: an overwrite then lands right after its base. */
  ghost predicate SawItsBase(w: Write) {
    w.how.Overwrote? ==> w.version == w.how.base + 1
  }

  /** An overwrite never lands further on than right after the version its client claims. */
  lemma {:induction false} OverwritesStayBehindTheirBase(steps: seq<Step>, k: nat)
    requires FreshRun(steps) && k < |Run(steps).log|
    ensures Run(steps).log[k].how.Overwrote? ==> Run(steps).log[k].version <= Run(steps).log[k].how.base + 1
  {
    var front, last := steps[..|steps| - 1], steps[|steps| - 1];
    var c := Run(front);
    RunKeepsLog(front);
    StepEffect(c, last);
    if k < |c.log| {
      OverwritesStayBehindTheirBase(front, k);
      assert Run(steps).log[k] == c.log[k];
    }
  }

  /**
   * On any stores, an accepted push that overwrites lands right after the
   * version its client claims exactly when that version was not ahead.
   */
  lemma HonestOverwrites(s: State, userId: string, deviceId: string, input: PushInput, env: Env, item: string)
    requires input.itemId == Some(item) && item != ""
    ensures var (_, result) := Push(s, userId, deviceId, input, env);
            var base := input.lastSeenItemVersion.GetOr(0);
            result.Ok? && !result.value.conflict ==>
              && item in s.items.entries
              && result.value.item.itemVersion <= base + 1
              && (result.value.item.itemVersion == base + 1 <==> base <= s.items.entries[item].itemVersion)
  {
  }

  /**
   * Of two successive pushes that edit the same version of an item, the second
   * forks if and only if that version is not ahead of the item; otherwise both
   * overwrite, and nothing of the first push remains.
   */
  lemma CompetingPairIsExact(
      s: State, userId: string, device1: string, input1: PushInput, env1: Env,
      device2: string, input2: PushInput, env2: Env, id: string)
    requires IdsMatch(s.items) && Fresh(s, env1)
    requires input1.itemId == input2.itemId == Some(id) && id != ""
    requires id in s.items.entries && s.items.entries[id].userId == userId
    requires input1.lastSeenItemVersion.GetOr(0) == input2.lastSeenItemVersion.GetOr(0)
    requires Gate(s.keys, userId, input1.masterKeyVersion).None? && Gate(s.keys, userId, input2.masterKeyVersion).None?
    ensures var (s1, r1) := Push(s, userId, device1, input1, env1);
            var (s2, r2) := Push(s1, userId, device2, input2, env2);
            var current := s.items.entries[id];
            var base := input1.lastSeenItemVersion.GetOr(0);
            && r1.Ok? && r2.Ok?
            && (r2.value.conflict <==> base <= current.itemVersion)
            && (base > current.itemVersion ==>
                  && !r1.value.conflict
                  && s2.items.order == s.items.order
                  && s2.items.entries == s.items.entries[id := r2.value.item]
                  && r2.value.item.ciphertext == input2.ciphertext
                  && r2.value.item.itemVersion == current.itemVersion + 2)
  {
  }

  /**
   * In every run, whatever any other client claims: of two accepted pushes
   * that edited the same version of the same item, the later one becomes a
   * fork if the earlier one forked or did not claim a version ahead. (What it
   * carried is then kept under the fork's own id, by `NoLostUpdate`.)
   */
  lemma CompetingEditsFork(steps: seq<Step>, item: string, base: int, j: nat, k: nat)
    requires FreshRun(steps) && j < k < |Run(steps).log|
    requires Competes(Run(steps).log[j], item, base) && Competes(Run(steps).log[k], item, base)
    requires SawItsBase(Run(steps).log[j])
    ensures Run(steps).log[k].how == Forked(item, base)
  {
    var log := Run(steps).log;
    if log[j].how.Forked? {
      ForksAreFinal(steps, item, base, j, k);
    } else if log[k].how.Overwrote? {
      RunKeepsLog(steps);
      OverwritesStayBehindTheirBase(steps, k);
    }
  }

  lemma NextAddsAtMostOne(c: Config, step: Step)
    requires c.state.items.Valid()
    ensures c.log <= Next(c, step).log && |Next(c, step).log| <= |c.log| + 1
  {
  }

  lemma NewWriteSawItsTarget(c: Config, step: Step, item: string, base: int)
    requires LogOk(c) && Fresh(c.state, step.env) && |Next(c, step).log| > |c.log|
    requires item in c.state.items.entries && base < c.state.items.entries[item].itemVersion
    ensures !Overwrites(Next(c, step).log[|c.log|], item, base)
  {
    StepEffect(c, step);
  }

  /** Once one push from a base version had to fork, no later push from that base overwrites (honest or not). */
  lemma {:induction false} ForksAreFinal(steps: seq<Step>, item: string, base: int, j: nat, k: nat)
    requires FreshRun(steps) && j < k < |Run(steps).log|
    requires Run(steps).log[j].how == Forked(item, base)
    ensures !Overwrites(Run(steps).log[k], item, base)
  {
    var front, last := steps[..|steps| - 1], steps[|steps| - 1];
    var c := Run(front);
    RunKeepsLog(front);
    NextAddsAtMostOne(c, last);
    if k < |c.log| {
      ForksAreFinal(front, item, base, j, k);
    } else {
      assert ForkJustified(c.state.items, c.log[j]);
      NewWriteSawItsTarget(c, last, item, base);
    }
  }
}
