/** Whole runs of the sync server: any devices, any users, mixing gated pushes with direct vault writes. */
module SyncRuns {
  import opened Common
  import opened Sync
  import Items = VaultItems
  import Keys = VaultKeys

  datatype Op =
    | PushOp(userId: string, deviceId: string, input: PushInput)
    | PullOp(userId: string, deviceId: string, version: int)
    | UpsertOp(userId: string, purpose: Purpose, wrappedDek: Bytes, keyVersion: int)
    | CreateOp(userId: string, ciphertext: Bytes, dekVersion: int)
    | UpdateOp(userId: string, itemId: string, ciphertext: Bytes, dekVersion: int)

  datatype Reply =
    | Pushed(push: Result<PushResult, SyncError>)
    | Pulled(pull: Result<PullResult, SyncError>)
    | KeyStored
    | Written(write: Result<Items.VaultItem, SyncError>)

  function Exec(s: State, op: Op, env: Env): (State, Reply)
    requires s.items.Valid()
  {
    match op
    case PushOp(u, d, input) =>
      var (s', r) := Push(s, u, d, input, env);
      (s', Pushed(r))
    case PullOp(u, d, v) =>
      var (s', r) := Pull(s, u, d, v, env);
      (s', Pulled(r))
    case UpsertOp(u, p, w, v) =>
      (s.(keys := Keys.Upsert(s.keys, u, p, w, v, env.newId, env.now)), KeyStored)
    case CreateOp(u, c, d) =>
      var item := Items.VaultItem(env.newId, u, c, d, 1, None, env.now);
      (s.(items := Items.Insert(s.items, item)), Written(Ok(item)))
    case UpdateOp(u, id, c, d) =>
      var (items, r) := UpdateItem(s.items, u, id, c, d, env);
      (s.(items := items), Written(r))
  }

  // ---- the history of accepted writes ----

  datatype How =
    | Created
    | Forked(of: string, base: int)
    | Overwrote(base: int)
    | Unconditional

  /** An accepted write: the content the client sent, and where and as which version the reply says it landed. */
  datatype Write = Write(userId: string, item: string, version: int, ciphertext: Bytes, dekVersion: int, how: How)

  function Accepted(op: Op, reply: Reply): seq<Write> {
    match (op, reply)
    case (PushOp(u, _, input), Pushed(Ok(r))) =>
      var base := input.lastSeenItemVersion.GetOr(0);
      var how := if input.itemId.GetOr("") == "" then Created
                 else if r.conflict then Forked(input.itemId.value, base)
                 else Overwrote(base);
      [Write(u, r.item.id, r.item.itemVersion, input.ciphertext, input.dekVersion, how)]
    case (CreateOp(u, c, d), Written(Ok(item))) => [Write(u, item.id, item.itemVersion, c, d, Created)]
    case (UpdateOp(u, _, c, d), Written(Ok(item))) => [Write(u, item.id, item.itemVersion, c, d, Unconditional)]
    case _ => []
  }

  datatype Step = Step(op: Op, env: Env)

  datatype Config = Config(state: State, log: seq<Write>)

  const INITIAL := Config(State(JsMap([], map[]), JsMap([], map[]), []), [])

  function Next(c: Config, step: Step): (after: Config)
    requires c.state.items.Valid()
    ensures after.state.items.Valid()
  {
    var (s, reply) := Exec(c.state, step.op, step.env);
    Config(s, c.log + Accepted(step.op, reply))
  }

  function Run(steps: seq<Step>): (c: Config)
    ensures c.state.items.Valid()
  {
    if steps == [] then INITIAL
    else Next(Run(steps[..|steps| - 1]), steps[|steps| - 1])
  }

  /** Random ids do not collide with ids already in use. */
  ghost predicate Fresh(s: State, env: Env) {
    env.newId != "" && env.newId !in s.items.entries
  }

  ghost predicate FreshRun(steps: seq<Step>) {
    steps != [] ==>
      && FreshRun(steps[..|steps| - 1])
      && Fresh(Run(steps[..|steps| - 1]).state, steps[|steps| - 1].env)
  }

  // ---- what one step does to the items ----

  ghost predicate InsertsNew(before: Config, after: Config, w: Write) {
    && after.log == before.log + [w]
    && w.item !in before.state.items.entries && w.item != ""
    && w.version == 1
    && (w.how == Created || w.how.Forked?)
    && exists item :: StoredAs(item, w) && after.state.items == Items.Insert(before.state.items, item)
         && (item.conflictOf.Some? <==> w.how.Forked?)
         && (item.conflictOf.Some? ==>
               && item.conflictOf == Some(w.how.of)
               && w.how.of in before.state.items.entries
               && before.state.items.entries[w.how.of].userId == w.userId
               && w.how.base < before.state.items.entries[w.how.of].itemVersion)
  }

  ghost predicate Bumps(before: Config, after: Config, w: Write) {
    && after.log == before.log + [w]
    && w.item in before.state.items.entries
    && var old_ := before.state.items.entries[w.item];
    && w.userId == old_.userId
    && w.version == old_.itemVersion + 1
    && (w.how == Unconditional || (w.how.Overwrote? && w.how.base >= old_.itemVersion))
    && after.state.items.order == before.state.items.order
    && exists item :: StoredAs(item, w) && item.conflictOf == old_.conflictOf
         && after.state.items.entries == before.state.items.entries[w.item := item]
  }

  ghost predicate StoredAs(item: Items.VaultItem, w: Write) {
    && item.id == w.item
    && item.userId == w.userId
    && item.itemVersion == w.version
    && item.ciphertext == w.ciphertext
    && item.dekVersion == w.dekVersion
  }

  ghost predicate IdsMatch(t: Items.Table) {
    && t.Valid()
    && (forall id :: id in t.entries ==> t.entries[id].id == id && id != "" && t.entries[id].itemVersion >= 1)
  }

  /** The three things an operation of `userId` can do to the items and their history. */
  ghost predicate Changes(before: Config, after: Config, userId: string) {
    || (after.log == before.log && after.state.items == before.state.items)
    || (exists w :: InsertsNew(before, after, w) && w.userId == userId)
    || (exists w :: Bumps(before, after, w) && w.userId == userId)
  }

  lemma StepEffect(c: Config, step: Step)
    requires IdsMatch(c.state.items) && Fresh(c.state, step.env)
    ensures Changes(c, Next(c, step), step.op.userId)
  {
    var after := Next(c, step);
    var (s, reply) := Exec(c.state, step.op, step.env);
    if Accepted(step.op, reply) != [] {
      var w := Accepted(step.op, reply)[0];
      assert after.log == c.log + [w];
      var item := match reply case Pushed(Ok(r)) => r.item case Written(Ok(i)) => i;
      assert StoredAs(item, w);
      if w.item in c.state.items.entries {
        assert Bumps(c, after, w);
      } else {
        assert InsertsNew(c, after, w);
      }
    }
  }
}
