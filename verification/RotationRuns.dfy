/** Rotation end to end: one device, its vault, its pending slot, the network, and the server. */
module RotationRuns {
  import opened Common
  import opened VaultCrypto
  import opened Rotation
  import A = Accounts
  import V = VaultRuns

  /** The fixed part: the cryptography on both sides, and who is rotating. */
  datatype Setup = Setup(c: Crypto, o: A.Opaque, userId: string, deviceId: string)

  /** `late` are finish requests the network still holds and may deliver, more than once and in any order. */
  datatype State = State(vault: V.Vault, slot: Option<Bytes>, server: Server, late: seq<Bytes>)

  datatype Op =
    | Begin(password: string, salt: Bytes, keyVersion: int, epoch: int, payloadNonce: Bytes, wrapNonce: Bytes)
    | Attempt(kek: Bytes, random: Bytes, nonce: Bytes, net: Net)
    | DeliverLate(index: nat)
    | DropLate(index: nat)
    | Local(op: V.Op)

  function Step(m: Setup, s: State, op: Op): State {
    match op
    case Begin(p, salt, version, epoch, pn, wn) =>
      var pending := PendingRecord(m.c, p, salt, epoch, pn);
      if pending.None? then s
      else s.(slot := pending, vault := V.Step(m.c, s.vault, V.RewrapMaster(p, salt, version, wn)))
    case Attempt(kek, random, nonce, net) =>
      var (slot, server, _, late) := Complete(
                                     m.c, m.o, s.slot, s.server, m.userId, m.deviceId, kek, random, nonce, net);
      s.(slot := slot, server := server, late := s.late + if late.Some? then [late.value] else [])
    case DeliverLate(i) =>
      if i < |s.late| then s.(server := Deliver(m.o, s.server, m.userId, m.deviceId, s.late[i]).0) else s
    case DropLate(i) =>
      if i < |s.late| then s.(late := s.late[..i] + s.late[i + 1..]) else s
    case Local(vop) =>
      if vop.RewrapMaster? then s else s.(vault := V.Step(m.c, s.vault, vop))
  }

  function Run(m: Setup, s: State, ops: seq<Op>): State {
    if ops == [] then s else Step(m, Run(m, s, ops[..|ops| - 1]), ops[|ops| - 1])
  }

  // ---- safety ----

  /** The bytes are an OPAQUE record of this password, for some randomness. */
  ghost predicate RecordOf(o: A.Opaque, record: Bytes, password: string) {
    exists random, response :: o.clientRecord(password, random, response) == Some(record)
  }

  /** The server can log in the latest password. */
  ghost predicate ServerCurrent(m: Setup, s: State) {
    && m.userId in s.server.users
    && s.server.users[m.userId].registrationRecord.Some?
    && RecordOf(m.o, s.server.users[m.userId].registrationRecord.value, s.vault.masterPassword)
  }

  /** The slot gives the latest password to whoever holds the current local key, and to no one else. */
  ghost predicate SlotCurrent(m: Setup, s: State) {
    && s.slot.Some?
    && forall kek: Bytes :: |kek| == 32 ==>
         RecoverPassword(m.c, kek, s.slot.value)
         == if kek == V.MasterKey(m.c, s.vault) then Some(s.vault.masterPassword) else None
  }

  ghost predicate Safe(m: Setup, s: State) {
    SlotCurrent(m, s) || ServerCurrent(m, s)
  }

  ghost predicate Hardened(m: Setup, s: State) {
    m.userId in s.server.users && s.server.users[m.userId].hardenedModeEnabled
  }

  /** The server would accept this finish request of the (never signing) client. */
  ghost predicate Deliverable(m: Setup, s: State, record: Bytes) {
    m.userId in s.server.users && !Hardened(m, s) && m.o.isValidRecord(record)
  }

  /** No finish request still under way can register an older password. */
  ghost predicate NothingStale(m: Setup, s: State) {
    forall i :: 0 <= i < |s.late| && Deliverable(m, s, s.late[i]) ==> RecordOf(m.o, s.late[i], s.vault.masterPassword)
  }

  /** What a device that only ever began rotations unlocked satisfies: slot or server, never neither. */
  ghost predicate Inv(m: Setup, s: State) {
    if s.slot.Some? then SlotCurrent(m, s) else ServerCurrent(m, s) && NothingStale(m, s)
  }

  /** The record the honest exchange yields for a password and the client's randomness. */
  function Exchanged(m: Setup, s: State, password: string, random: Bytes): Option<Bytes>
    requires m.userId in s.server.users
  {
    var response := m.o.registrationResponse(s.server.users[m.userId].email, m.o.clientRequest(password, random));
    if response.None? then None else m.o.clientRecord(password, random, response.value)
  }

  /** With this randomness an attempt would register something that is no record of the latest password. */
  ghost predicate Displaces(m: Setup, s: State, password: string, random: Bytes) {
    && m.userId in s.server.users
    && var record := Exchanged(m, s, password, random);
    && record.Some? && Deliverable(m, s, record.value) && !RecordOf(m.o, record.value, s.vault.masterPassword)
  }

  ghost predicate AttemptDisplaces(m: Setup, s: State, kek: Bytes, random: Bytes) {
    && |kek| == 32 && s.slot.Some?
    && var password := RecoverPassword(m.c, kek, s.slot.value);
    && password.Some? && Displaces(m, s, password.value, random)
  }

  /** No attempt, with whatever key, can register a password other than the latest. */
  ghost predicate SlotHarmless(m: Setup, s: State) {
    forall kek, random :: !AttemptDisplaces(m, s, kek, random)
  }

  /** The slot is current, or the server is and nothing (under way or in the slot) can make it otherwise. */
  ghost predicate Recoverable(m: Setup, s: State) {
    SlotCurrent(m, s) || (ServerCurrent(m, s) && NothingStale(m, s) && SlotHarmless(m, s))
  }

  /** A device that has registered and never rotated. */
  ghost predicate Registered(m: Setup, s: State) {
    s.slot == None && s.late == [] && ServerCurrent(m, s)
  }

  /** Random values have their proper lengths, and keys 32 bytes. */
  ghost predicate WellTyped(op: Op) {
    && (op.Begin? ==> |op.payloadNonce| == |op.wrapNonce| == NONCE_BYTES)
    && (op.Attempt? ==> |op.kek| == 32 && |op.nonce| == 32)
    && (op.Local? ==> V.NoncesOk([op.op]))
  }

  /**
   * What the code relies on: a rotation begins on an unlocked vault, and when
   * an attempt gets as far as clearing the slot no acceptable finish request
   * for an older password is still under way.
   */
  ghost predicate Orderly(m: Setup, s: State, op: Op) {
    && WellTyped(op)
    && (op.Begin? ==> s.vault.resident.Some?)
    && (op.Attempt? && op.net.Clean? ==> NothingStale(m, s))
  }

  ghost predicate OrderlyRun(m: Setup, s: State, ops: seq<Op>) {
    ops != [] ==>
      && OrderlyRun(m, s, ops[..|ops| - 1])
      && Orderly(m, Run(m, s, ops[..|ops| - 1]), ops[|ops| - 1])
  }

  lemma BeginFillsSlot(m: Setup, s: State, op: Op)
    requires Lawful(m.c) && op.Begin? && WellTyped(op)
    ensures var kek := m.c.masterKek(op.password, op.salt);
            && Step(m, s, op).slot.Some?
            && forall k: Bytes :: |k| == 32 ==>
                 RecoverPassword(m.c, k, Step(m, s, op).slot.value) == if k == kek then Some(op.password) else None
  {
  }

  /** The account is still there, with the same email and mode. */
  ghost predicate SameAccount(m: Setup, before: Server, after: Server)
    requires m.userId in before.users
  {
    && m.userId in after.users
    && after.users[m.userId].email == before.users[m.userId].email
    && after.users[m.userId].hardenedModeEnabled == before.users[m.userId].hardenedModeEnabled
  }

  lemma StepKeepsAccount(m: Setup, s: State, op: Op)
    requires m.userId in s.server.users
    ensures SameAccount(m, s.server, Step(m, s, op).server)
  {
    if op.Attempt? && s.slot.Some? {
      var password := RecoverPassword(m.c, op.kek, s.slot.value);
      if password.Some? {
        ReregisterKeepsAccount(m, s.server, password.value, op.random, op.nonce, op.net);
      }
    }
  }

  lemma ReregisterKeepsAccount(m: Setup, server: Server, password: string, random: Bytes, nonce: Bytes, net: Net)
    requires m.userId in server.users
    ensures SameAccount(m, server, Reregister(m.o, server, m.userId, m.deviceId, password, random, nonce, net).0)
  {
  }

  /** A hardened account is out of reach for a client that never signs. */
  lemma DeliverKeepsCurrent(m: Setup, s: State, record: Bytes)
    requires ServerCurrent(m, s)
    requires Deliverable(m, s, record) ==> RecordOf(m.o, record, s.vault.masterPassword)
    ensures ServerCurrent(m, s.(server := Deliver(m.o, s.server, m.userId, m.deviceId, record).0))
  {
  }

  /** An accepted attempt leaves the server with a record of the password in the slot. */
  lemma AttemptResult(m: Setup, s: State, op: Op)
    requires op.Attempt? && WellTyped(op) && s.slot.Some? && SlotCurrent(m, s)
    ensures var s' := Step(m, s, op);
            && s'.vault == s.vault
            && (s'.slot == s.slot || (s'.slot == None && op.net.Clean? && s'.late == s.late && ServerCurrent(m, s')))
  {
  }

  /** An attempt that displaces nothing keeps the server current and sends nothing stale. */
  lemma AttemptKeepsCurrent(m: Setup, s: State, op: Op)
    requires op.Attempt? && WellTyped(op) && ServerCurrent(m, s) && SlotHarmless(m, s)
    ensures var s' := Step(m, s, op);
            && s'.vault == s.vault && ServerCurrent(m, s')
            && (s'.slot == s.slot || s'.slot == None)
            && (s'.late == s.late
                || exists r :: s'.late == s.late + [r]
                               && (Deliverable(m, s, r) ==> RecordOf(m.o, r, s.vault.masterPassword)))
  {
    assert !AttemptDisplaces(m, s, op.kek, op.random);
    var late := Complete(
                m.c, m.o, s.slot, s.server, m.userId, m.deviceId, op.kek, op.random, op.nonce, op.net).3;
    if late.Some? {
      var password := RecoverPassword(m.c, op.kek, s.slot.value).value;
      assert Exchanged(m, s, password, op.random) == late;
      assert Step(m, s, op).late == s.late + [late.value];
    }
  }

  /** What the slot can do depends on the account and the latest password only. */
  lemma HarmlessCarriesOver(m: Setup, s: State, s': State)
    requires SlotHarmless(m, s) && m.userId in s.server.users && SameAccount(m, s.server, s'.server)
    requires s'.vault.masterPassword == s.vault.masterPassword && (s'.slot == s.slot || s'.slot == None)
    ensures SlotHarmless(m, s')
  {
    forall kek, random ensures !AttemptDisplaces(m, s', kek, random) {
      assert !AttemptDisplaces(m, s, kek, random);
    }
  }

  lemma StepKeepsRecoverable(m: Setup, s: State, op: Op)
    requires Lawful(m.c) && Recoverable(m, s) && Orderly(m, s, op)
    ensures Recoverable(m, Step(m, s, op))
  {
    match op
    case Begin(_, _, _, _, _, _) => BeginFillsSlot(m, s, op);
    case Attempt(_, _, _, _) => AttemptKeepsRecoverable(m, s, op);
    case DeliverLate(i) =>
      if i < |s.late| && ServerCurrent(m, s) && NothingStale(m, s) {
        DeliverKeepsCurrent(m, s, s.late[i]);
        StepKeepsAccount(m, s, op);
        if !SlotCurrent(m, s) {
          HarmlessCarriesOver(m, s, Step(m, s, op));
        }
      }
    case _ =>
      if !SlotCurrent(m, s) {
        HarmlessCarriesOver(m, s, Step(m, s, op));
      }
  }

  lemma AttemptKeepsRecoverable(m: Setup, s: State, op: Op)
    requires Recoverable(m, s) && op.Attempt? && Orderly(m, s, op)
    ensures Recoverable(m, Step(m, s, op))
  {
    if m.userId in s.server.users {
      StepKeepsAccount(m, s, op);
    }
    if SlotCurrent(m, s) {
      AttemptResult(m, s, op);
    } else {
      AttemptKeepsCurrent(m, s, op);
      HarmlessCarriesOver(m, s, Step(m, s, op));
    }
  }

  lemma StepKeepsInv(m: Setup, s: State, op: Op)
    requires Lawful(m.c) && Inv(m, s) && Orderly(m, s, op)
    ensures Inv(m, Step(m, s, op))
  {
    match op
    case Begin(_, _, _, _, _, _) => BeginFillsSlot(m, s, op);
    case Attempt(_, _, _, _) => if s.slot.Some? { AttemptResult(m, s, op); }
    case DeliverLate(i) => if i < |s.late| && s.slot.None? { DeliverKeepsCurrent(m, s, s.late[i]); }
    case _ =>
  }

  lemma {:induction false} RunKeepsInv(m: Setup, s: State, ops: seq<Op>)
    requires Lawful(m.c) && Inv(m, s) && OrderlyRun(m, s, ops)
    ensures Inv(m, Run(m, s, ops))
  {
    if ops != [] {
      RunKeepsInv(m, s, ops[..|ops| - 1]);
      StepKeepsInv(m, Run(m, s, ops[..|ops| - 1]), ops[|ops| - 1]);
    }
  }

  /**
   * After any number of rotations, attempts, crashes and losses: the latest
   * password is in the slot or registered with the server, and an empty slot
   * means the server has it.
   */
  lemma RotationIsSafe(m: Setup, s: State, ops: seq<Op>)
    requires Lawful(m.c) && Registered(m, s) && OrderlyRun(m, s, ops)
    ensures Safe(m, Run(m, s, ops))
    ensures Run(m, s, ops).slot.None? ==> ServerCurrent(m, Run(m, s, ops))
  {
    RunKeepsInv(m, s, ops);
  }

  // ---- a network that delivers or loses, but does not delay ----

  ghost predicate Prompt(op: Op) {
    op.Attempt? ==> !op.net.FinishRequestLate?
  }

  ghost predicate PromptRun(m: Setup, s: State, ops: seq<Op>) {
    ops != [] ==>
      && PromptRun(m, s, ops[..|ops| - 1])
      && WellTyped(ops[|ops| - 1]) && Prompt(ops[|ops| - 1])
      && (ops[|ops| - 1].Begin? ==> Run(m, s, ops[..|ops| - 1]).vault.resident.Some?)
  }

  /** Nothing under way would be accepted at all. */
  ghost predicate NothingDeliverable(m: Setup, s: State) {
    forall i :: 0 <= i < |s.late| ==> !Deliverable(m, s, s.late[i])
  }

  lemma PromptStepKeepsQuiet(m: Setup, s: State, op: Op)
    requires NothingDeliverable(m, s) && WellTyped(op) && Prompt(op)
    ensures NothingDeliverable(m, Step(m, s, op))
  {
    if m.userId in s.server.users {
      StepKeepsAccount(m, s, op);
    }
  }

  lemma {:induction false} PromptRunsAreOrderly(m: Setup, s: State, ops: seq<Op>)
    requires NothingDeliverable(m, s) && PromptRun(m, s, ops)
    ensures OrderlyRun(m, s, ops) && NothingDeliverable(m, Run(m, s, ops))
  {
    if ops != [] {
      PromptRunsAreOrderly(m, s, ops[..|ops| - 1]);
      PromptStepKeepsQuiet(m, Run(m, s, ops[..|ops| - 1]), ops[|ops| - 1]);
    }
  }

  /** When requests and responses are delivered at once or lost, no further assumption is needed. */
  lemma PromptRotationIsSafe(m: Setup, s: State, ops: seq<Op>)
    requires Lawful(m.c) && Registered(m, s) && PromptRun(m, s, ops)
    ensures Safe(m, Run(m, s, ops))
    ensures Run(m, s, ops).slot.None? ==> ServerCurrent(m, Run(m, s, ops))
  {
    PromptRunsAreOrderly(m, s, ops);
    RotationIsSafe(m, s, ops);
  }

  // ---- progress ----

  /** An honest client and the server understand each other. */
  ghost predicate Interoperates(o: A.Opaque) {
    forall email, password, random :: HonestExchange(o, email, password, random)
  }

  ghost predicate HonestExchange(o: A.Opaque, email: string, password: string, random: Bytes) {
    var response := o.registrationResponse(email, o.clientRequest(password, random));
    && response.Some?
    && o.clientRecord(password, random, response.value).Some?
    && o.isValidRecord(o.clientRecord(password, random, response.value).value)
  }

  lemma {:induction false} AccountStays(m: Setup, s: State, ops: seq<Op>)
    requires m.userId in s.server.users
    ensures SameAccount(m, s.server, Run(m, s, ops).server)
  {
    if ops != [] {
      AccountStays(m, s, ops[..|ops| - 1]);
      StepKeepsAccount(m, Run(m, s, ops[..|ops| - 1]), ops[|ops| - 1]);
    }
  }

  lemma CleanAttempt(m: Setup, s: State, op: Op)
    requires Interoperates(m.o) && Inv(m, s)
    requires m.userId in s.server.users && !s.server.users[m.userId].hardenedModeEnabled
    requires op.Attempt? && WellTyped(op) && op.net.Clean? && op.kek == V.MasterKey(m.c, s.vault)
    ensures var s' := Step(m, s, op);
            s'.slot == None && ServerCurrent(m, s') && s'.vault == s.vault && s'.late == s.late
  {
    if s.slot.Some? {
      AttemptResult(m, s, op);
      assert HonestExchange(m.o, s.server.users[m.userId].email, s.vault.masterPassword, op.random);
    }
  }

  /**
   * After any such run, one undisturbed attempt with the current local key
   * empties the slot and makes the server current.
   */
  lemma OneCleanAttemptCompletes(m: Setup, s: State, ops: seq<Op>, op: Op)
    requires Lawful(m.c) && Interoperates(m.o) && Registered(m, s) && OrderlyRun(m, s, ops)
    requires !s.server.users[m.userId].hardenedModeEnabled
    requires op.Attempt? && WellTyped(op) && op.net.Clean? && op.kek == V.MasterKey(m.c, Run(m, s, ops).vault)
    ensures var s' := Step(m, Run(m, s, ops), op);
            s'.slot == None && ServerCurrent(m, s') && s'.vault == Run(m, s, ops).vault
  {
    RunKeepsInv(m, s, ops);
    AccountStays(m, s, ops);
    CleanAttempt(m, Run(m, s, ops), op);
  }

  /** Nor is the vault itself ever at risk: through the same runs both wrappings keep opening to its one DEK. */
  lemma {:induction false} VaultSurvivesRotations(m: Setup, s: State, ops: seq<Op>, dek: Bytes)
    requires Lawful(m.c) && V.Readable(m.c, s.vault, dek)
    requires forall i :: 0 <= i < |ops| ==> WellTyped(ops[i])
    ensures V.Readable(m.c, Run(m, s, ops).vault, dek)
  {
    if ops != [] {
      var front, last := ops[..|ops| - 1], ops[|ops| - 1];
      VaultSurvivesRotations(m, s, front, dek);
      match last
      case Begin(p, salt, version, _, _, wn) =>
        V.StepKeepsReadable(m.c, Run(m, s, front).vault, dek, V.RewrapMaster(p, salt, version, wn));
      case Local(vop) => V.StepKeepsReadable(m.c, Run(m, s, front).vault, dek, vop);
      case _ =>
    }
  }

  /** On a hardened account this client gives up before finish: no attempt changes the account or the slot. */
  lemma HardenedAttemptsChangeNothing(m: Setup, s: State, op: Op)
    requires m.userId in s.server.users && s.server.users[m.userId].hardenedModeEnabled
    requires op.Attempt? && WellTyped(op)
    ensures Step(m, s, op).server.users == s.server.users
    ensures Step(m, s, op).slot == s.slot && Step(m, s, op).late == s.late
  {
  }

  // ---- where safety ends, exactly ----

  /** The latest password stays within reach in every orderly continuation, rotations included. */
  ghost predicate SafeForever(m: Setup, s: State) {
    forall ops :: OrderlyRun(m, s, ops) ==> Safe(m, Run(m, s, ops))
  }

  lemma {:induction false} RecoverableIsSafe(m: Setup, s: State, ops: seq<Op>)
    requires Lawful(m.c) && Recoverable(m, s) && OrderlyRun(m, s, ops)
    ensures Recoverable(m, Run(m, s, ops))
  {
    if ops != [] {
      RecoverableIsSafe(m, s, ops[..|ops| - 1]);
      StepKeepsRecoverable(m, Run(m, s, ops[..|ops| - 1]), ops[|ops| - 1]);
    }
  }

  lemma OneOp(m: Setup, s: State, op: Op)
    ensures Run(m, s, [op]) == Step(m, s, op)
    ensures OrderlyRun(m, s, [op]) <==> Orderly(m, s, op)
  {
    assert [op][..0] == [];
  }

  /** Safe forever means safe now, with nothing stale on its way. */
  lemma SafeForeverNeeds(m: Setup, s: State)
    requires SafeForever(m, s) && !SlotCurrent(m, s)
    ensures ServerCurrent(m, s) && NothingStale(m, s)
  {
    assert OrderlyRun(m, s, []) && Run(m, s, []) == s;
    forall i | 0 <= i < |s.late| && Deliverable(m, s, s.late[i])
      ensures RecordOf(m.o, s.late[i], s.vault.masterPassword)
    {
      var op := DeliverLate(i);
      OneOp(m, s, op);
      assert Safe(m, Run(m, s, [op]));
    }
  }

  /** An attempt that displaces the latest password breaks a state that rests on the server. */
  lemma HarmfulSlotBreaks(m: Setup, s: State, kek: Bytes, random: Bytes)
    requires ServerCurrent(m, s) && !SlotCurrent(m, s) && AttemptDisplaces(m, s, kek, random)
    ensures var op := Attempt(kek, random, Zeros(32), FinishResponseLost);
            Orderly(m, s, op) && !Safe(m, Step(m, s, op))
  {
    var s' := Step(m, s, Attempt(kek, random, Zeros(32), FinishResponseLost));
    var record := Exchanged(m, s, RecoverPassword(m.c, kek, s.slot.value).value, random);
    assert s'.slot == s.slot && s'.vault == s.vault;
    assert s'.server.users[m.userId].registrationRecord == record;
  }

  /**
   * Exactly which states are safe for good: from any state whatever, and for
   * any OPAQUE, every orderly continuation is safe if and only if the state is
   * recoverable.
   */
  lemma SafetyIsExact(m: Setup, s: State)
    requires Lawful(m.c)
    ensures SafeForever(m, s) <==> Recoverable(m, s)
  {
    if Recoverable(m, s) {
      forall ops | OrderlyRun(m, s, ops) ensures Safe(m, Run(m, s, ops)) {
        RecoverableIsSafe(m, s, ops);
      }
    } else if SafeForever(m, s) {
      SafeForeverNeeds(m, s);
      var kek, random :| AttemptDisplaces(m, s, kek, random);
      HarmfulSlotBreaks(m, s, kek, random);
      OneOp(m, s, Attempt(kek, random, Zeros(32), FinishResponseLost));
    }
  }

  /**
   * Once the slot is empty, every orderly continuation (rotations included) is
   * safe if and only if the server is current and no acceptable finish request
   * for an older password is under way. This needs nothing of OPAQUE.
   */
  lemma LateRequestsAreExact(m: Setup, s: State)
    requires Lawful(m.c) && s.slot.None?
    ensures SafeForever(m, s) <==> ServerCurrent(m, s) && NothingStale(m, s)
  {
    if ServerCurrent(m, s) && NothingStale(m, s) {
      forall ops | OrderlyRun(m, s, ops) ensures Safe(m, Run(m, s, ops)) {
        RecoverableIsSafe(m, s, ops);
      }
    } else if SafeForever(m, s) {
      SafeForeverNeeds(m, s);
    }
  }

  /**
   * Beginning a rotation overwrites the slot, also when it then fails because
   * the vault is locked. What follows is safe for good if and only if the
   * vault was unlocked (the guard the caller can check), or nothing really
   * changed, or the server is current with nothing stale under way and either
   * the password in the slot is the old one or the account cannot be rotated
   * by this client at all.
   */
  lemma BeginIsExact(m: Setup, s: State, op: Op)
    requires Lawful(m.c) && op.Begin? && WellTyped(op)
    requires op.password != s.vault.masterPassword && m.userId in s.server.users ==> Registrable(m, s, op.password)
    ensures var samePassword := op.password == s.vault.masterPassword;
            var sameKey := m.c.masterKek(op.password, op.salt) == V.MasterKey(m.c, s.vault);
            SafeForever(m, Step(m, s, op)) <==>
              || s.vault.resident.Some?
              || (samePassword && sameKey)
              || (ServerCurrent(m, s) && NothingStale(m, s) && (samePassword || Hardened(m, s)))
  {
    var s' := Step(m, s, op);
    BeginFillsSlot(m, s, op);
    SafetyIsExact(m, s');
    if s.vault.resident.Some? {
      assert SlotCurrent(m, s');
    } else {
      LockedBeginLeaves(m, s, op);
    }
  }

  /** For some randomness the exchange yields an acceptable record of this password that is none of the latest one. */
  ghost predicate Registrable(m: Setup, s: State, password: string)
    requires m.userId in s.server.users
  {
    exists random ::
      && Exchanged(m, s, password, random).Some?
      && m.o.isValidRecord(Exchanged(m, s, password, random).value)
      && !RecordOf(m.o, Exchanged(m, s, password, random).value, s.vault.masterPassword)
  }

  lemma LockedBeginLeaves(m: Setup, s: State, op: Op)
    requires Lawful(m.c) && op.Begin? && WellTyped(op) && s.vault.resident.None?
    requires op.password != s.vault.masterPassword && m.userId in s.server.users ==> Registrable(m, s, op.password)
    ensures var s' := Step(m, s, op);
            && s' == s.(slot := s'.slot)
            && (SlotCurrent(m, s') <==>
                  && op.password == s.vault.masterPassword
                  && m.c.masterKek(op.password, op.salt) == V.MasterKey(m.c, s.vault))
            && (ServerCurrent(m, s) ==>
                  (SlotHarmless(m, s') <==> op.password == s.vault.masterPassword || Hardened(m, s)))
  {
    var s' := Step(m, s, op);
    var kek := m.c.masterKek(op.password, op.salt);
    BeginFillsSlot(m, s, op);
    assert |kek| == 32 && |V.MasterKey(m.c, s.vault)| == 32;
    assert RecoverPassword(m.c, kek, s'.slot.value) == Some(op.password);
    if SlotCurrent(m, s') {
      assert RecoverPassword(m.c, V.MasterKey(m.c, s.vault), s'.slot.value) == Some(s.vault.masterPassword);
    }
    if ServerCurrent(m, s) && op.password != s.vault.masterPassword && !Hardened(m, s) {
      var random :|
        && Exchanged(m, s, op.password, random).Some?
        && m.o.isValidRecord(Exchanged(m, s, op.password, random).value)
        && !RecordOf(m.o, Exchanged(m, s, op.password, random).value, s.vault.masterPassword);
      assert AttemptDisplaces(m, s', kek, random);
    }
  }

  /** And until another rotation begins, no attempt with the vault's own key gets anywhere. */
  lemma LockedBeginBlocksAttempts(m: Setup, s: State, begin: Op, attempt: Op)
    requires Lawful(m.c) && begin.Begin? && WellTyped(begin) && s.vault.resident.None?
    requires m.c.masterKek(begin.password, begin.salt) != V.MasterKey(m.c, s.vault)
    requires attempt.Attempt? && attempt.kek == V.MasterKey(m.c, s.vault)
    ensures Step(m, Step(m, s, begin), attempt) == Step(m, s, begin)
  {
    BeginFillsSlot(m, s, begin);
    assert |attempt.kek| == 32;
  }

  // ---- the failures, reached from registration ----

  /** A begin and a clean attempt on an unlocked vault, followed by an old finish request that is still acceptable. */
  lemma RotateThenDeliver(m: Setup, s: State, begin: Op, attempt: Op, i: nat)
    requires Lawful(m.c) && Interoperates(m.o) && begin.Begin? && WellTyped(begin) && s.vault.resident.Some?
    requires attempt.Attempt? && WellTyped(attempt) && attempt.net.Clean?
    requires attempt.kek == m.c.masterKek(begin.password, begin.salt)
    requires i < |s.late| && Deliverable(m, s, s.late[i]) && !RecordOf(m.o, s.late[i], begin.password)
    ensures !Safe(m, Step(m, Step(m, Step(m, s, begin), attempt), DeliverLate(i)))
  {
    var s1 := Step(m, s, begin);
    BeginFillsSlot(m, s, begin);
    assert s1.server == s.server && s1.late == s.late && s1.vault.masterPassword == begin.password;
    CleanAttempt(m, s1, attempt);
    StepKeepsAccount(m, s1, attempt);
  }

  /** The finish request of an attempt that lost it to the network is a record of the password in the slot. */
  lemma LateAttempt(m: Setup, s: State, op: Op)
    requires Interoperates(m.o) && SlotCurrent(m, s) && m.userId in s.server.users && !Hardened(m, s)
    requires op.Attempt? && WellTyped(op) && op.net.FinishRequestLate? && op.kek == V.MasterKey(m.c, s.vault)
    ensures var s' := Step(m, s, op);
            && s'.vault == s.vault && s'.slot == s.slot && s'.server.users == s.server.users
            && Exchanged(m, s, s.vault.masterPassword, op.random).Some?
            && s'.late == s.late + [Exchanged(m, s, s.vault.masterPassword, op.random).value]
            && m.o.isValidRecord(s'.late[|s.late|])
  {
    assert HonestExchange(m.o, s.server.users[m.userId].email, s.vault.masterPassword, op.random);
  }

  /**
   * From registration, in five steps: a finish request that outlives its
   * attempt undoes the next rotation, after its slot is gone.
   */
  lemma LateRequestUndoesRotation(m: Setup, s: State, begin1: Op, attempt1: Op, begin2: Op, attempt2: Op)
    requires Lawful(m.c) && Interoperates(m.o)
    requires Registered(m, s) && !Hardened(m, s) && s.vault.resident.Some?
    requires begin1.Begin? && begin2.Begin? && attempt1.Attempt? && attempt2.Attempt?
    requires WellTyped(begin1) && WellTyped(attempt1) && WellTyped(begin2) && WellTyped(attempt2)
    requires attempt1.net.FinishRequestLate? && attempt1.kek == m.c.masterKek(begin1.password, begin1.salt)
    requires attempt2.net.Clean? && attempt2.kek == m.c.masterKek(begin2.password, begin2.salt)
    requires forall record :: Exchanged(m, s, begin1.password, attempt1.random) == Some(record) ==>
                                !RecordOf(m.o, record, begin2.password)
    ensures !Safe(m, Run(m, s, [begin1, attempt1, begin2, attempt2, DeliverLate(0)]))
  {
    var s1 := Step(m, s, begin1);
    BeginFillsSlot(m, s, begin1);
    var s2 := Step(m, s1, attempt1);
    LateAttempt(m, s1, attempt1);
    assert Exchanged(m, s, begin1.password, attempt1.random) == Exchanged(m, s1, begin1.password, attempt1.random);
    RotateThenDeliver(m, s2, begin2, attempt2, 0);
    FiveSteps(m, s, begin1, attempt1, begin2, attempt2, DeliverLate(0));
  }

  lemma FiveSteps(m: Setup, s: State, a: Op, b: Op, c: Op, d: Op, e: Op)
    ensures Run(m, s, [a, b, c, d, e]) == Step(m, Step(m, Run(m, s, [a, b, c]), d), e)
    ensures Run(m, s, [a, b, c]) == Step(m, Step(m, Step(m, s, a), b), c)
  {
    assert [a, b, c, d, e][..4] == [a, b, c, d] && [a, b, c, d][..3] == [a, b, c];
    assert [a, b, c][..2] == [a, b] && [a, b][..1] == [a];
    OneOp(m, s, a);
  }

  /** From registration, in three steps: a rotation begun on the locked vault loses the one before it. */
  lemma LockedBeginLosesRotation(m: Setup, s: State, begin1: Op, begin2: Op)
    requires Lawful(m.c) && Registered(m, s) && s.vault.resident.Some?
    requires begin1.Begin? && WellTyped(begin1)
    requires !RecordOf(m.o, s.server.users[m.userId].registrationRecord.value, begin1.password)
    requires begin2.Begin? && WellTyped(begin2) && begin2.password != begin1.password
    ensures !Safe(m, Run(m, s, [begin1, Local(V.LockVault), begin2]))
  {
    var s1 := Step(m, s, begin1);
    BeginFillsSlot(m, s, begin1);
    var s2 := Step(m, s1, Local(V.LockVault));
    var s3 := Step(m, s2, begin2);
    BeginFillsSlot(m, s2, begin2);
    FiveSteps(m, s, begin1, Local(V.LockVault), begin2, begin2, begin2);
    var kek := V.MasterKey(m.c, s3.vault);
    assert |kek| == 32 && s3.server == s.server && s3.vault.masterPassword == begin1.password;
    assert RecoverPassword(m.c, kek, s3.slot.value) != Some(begin1.password);
  }

  // ---- rotations that wait for no one ----

  /** Safe as long as no further request is delayed, however many rotations follow. */
  ghost predicate SafeWhilePrompt(m: Setup, s: State) {
    forall ops :: PromptRun(m, s, ops) ==> Safe(m, Run(m, s, ops))
  }

  lemma PromptSteps(m: Setup, s: State, ops: seq<Op>, op: Op)
    ensures Run(m, s, ops + [op]) == Step(m, Run(m, s, ops), op)
    ensures PromptRun(m, s, ops + [op]) <==>
              && PromptRun(m, s, ops) && WellTyped(op) && Prompt(op)
              && (op.Begin? ==> Run(m, s, ops).vault.resident.Some?)
  {
    assert (ops + [op])[..|ops|] == ops;
  }

  /** A run can be preceded by unlocking the vault. */
  lemma {:induction false} UnlockFirst(m: Setup, s: State, unlock: Op, ops: seq<Op>)
    requires unlock.Local? && WellTyped(unlock) && PromptRun(m, Step(m, s, unlock), ops)
    ensures Run(m, s, [unlock] + ops) == Run(m, Step(m, s, unlock), ops) && PromptRun(m, s, [unlock] + ops)
  {
    if ops == [] {
      PromptSteps(m, s, [], unlock);
      assert [] + [unlock] == [unlock] == [unlock] + ops;
    } else {
      var front, last := ops[..|ops| - 1], ops[|ops| - 1];
      UnlockFirst(m, s, unlock, front);
      PromptSteps(m, s, [unlock] + front, last);
      assert [unlock] + front + [last] == [unlock] + ops;
    }
  }

  lemma RotateThenDeliverIsPrompt(m: Setup, s: State, begin: Op, attempt: Op, i: nat)
    requires begin.Begin? && WellTyped(begin) && s.vault.resident.Some?
    requires attempt.Attempt? && WellTyped(attempt) && attempt.net.Clean?
    ensures var ops := [begin] + [attempt] + [DeliverLate(i)];
            && PromptRun(m, s, ops)
            && Run(m, s, ops) == Step(m, Step(m, Step(m, s, begin), attempt), DeliverLate(i))
  {
    PromptSteps(m, s, [], begin);
    assert [] + [begin] == [begin];
    PromptSteps(m, s, [begin], attempt);
    PromptSteps(m, s, [begin] + [attempt], DeliverLate(i));
  }

  /** The record does not belong to every password there is. */
  ghost predicate TellsPasswordsApart(o: A.Opaque, record: Bytes) {
    exists password :: !RecordOf(o, record, password)
  }

  /** Even an old request for the present password breaks a prompt continuation: rotate, complete, deliver. */
  lemma OldRequestBreaks(m: Setup, s: State, i: nat) returns (ops: seq<Op>)
    requires Lawful(m.c) && Interoperates(m.o) && s.vault.resident.Some?
    requires i < |s.late| && Deliverable(m, s, s.late[i]) && TellsPasswordsApart(m.o, s.late[i])
    ensures PromptRun(m, s, ops) && !Safe(m, Run(m, s, ops))
  {
    var next :| !RecordOf(m.o, s.late[i], next);
    var begin := Begin(next, [], 1, 1, Zeros(NONCE_BYTES), Zeros(NONCE_BYTES));
    var attempt := Attempt(m.c.masterKek(next, []), [], Zeros(32), Clean);
    ops := [begin] + [attempt] + [DeliverLate(i)];
    RotateThenDeliver(m, s, begin, attempt, i);
    RotateThenDeliverIsPrompt(m, s, begin, attempt, i);
  }

  lemma UnlockOpens(m: Setup, s: State, dek: Bytes)
    requires Lawful(m.c) && V.Readable(m.c, s.vault, dek)
    ensures Step(m, s, Local(V.UnlockMaster(s.vault.masterPassword, s.vault.localSalt)))
         == s.(vault := s.vault.(resident := Some(dek)))
  {
    assert |V.MasterKey(m.c, s.vault)| == 32;
  }

  lemma UnlockedBreaks(m: Setup, s: State, unlock: Op, i: nat) returns (ops: seq<Op>)
    requires Lawful(m.c) && Interoperates(m.o) && unlock.Local? && WellTyped(unlock)
    requires var s1 := Step(m, s, unlock);
             s1.vault.resident.Some? && i < |s1.late| && Deliverable(m, s1, s1.late[i])
             && TellsPasswordsApart(m.o, s1.late[i])
    ensures PromptRun(m, s, ops) && !Safe(m, Run(m, s, ops))
  {
    var rest := OldRequestBreaks(m, Step(m, s, unlock), i);
    UnlockFirst(m, s, unlock, rest);
    ops := [unlock] + rest;
  }

  /**
   * Without the clause about late requests: once the slot is empty, every
   * continuation that delays no further request, with rotations at any time,
   * is safe if and only if the server is current and no acceptable finish
   * request at all is under way.
   */
  lemma PromptContinuationsAreExact(m: Setup, s: State, dek: Bytes)
    requires Lawful(m.c) && Interoperates(m.o)
    requires s.slot.None? && V.Readable(m.c, s.vault, dek)
    requires forall i :: 0 <= i < |s.late| ==> TellsPasswordsApart(m.o, s.late[i])
    ensures SafeWhilePrompt(m, s) <==> ServerCurrent(m, s) && NothingDeliverable(m, s)
  {
    if ServerCurrent(m, s) && NothingDeliverable(m, s) {
      forall ops | PromptRun(m, s, ops) ensures Safe(m, Run(m, s, ops)) {
        PromptRunsAreOrderly(m, s, ops);
        RecoverableIsSafe(m, s, ops);
      }
    } else if ServerCurrent(m, s) {
      var i :| 0 <= i < |s.late| && Deliverable(m, s, s.late[i]);
      UnlockOpens(m, s, dek);
      var ops := UnlockedBreaks(m, s, Local(V.UnlockMaster(s.vault.masterPassword, s.vault.localSalt)), i);
      assert !Safe(m, Run(m, s, ops));
    } else {
      assert PromptRun(m, s, []) && Run(m, s, []) == s;
    }
  }

  // ---- the assumptions on OPAQUE can be met ----

  /** A record belongs to one password: more than any lemma above asks of the records it speaks of. */
  ghost predicate Binding(o: A.Opaque) {
    forall record, p, q :: RecordOf(o, record, p) && RecordOf(o, record, q) ==> p == q
  }

  /** A record that spells out its password: accepted by the server, and of no other password. */
  function SpelledRecord(password: string): Bytes {
    [1] + Digits(password)
  }

  lemma SomeOpaqueInteroperates()
    ensures exists o :: Interoperates(o) && Binding(o)
  {
    var o := A.Opaque(
      (email, request) => Some(request), (email, record, ke1, random) => Some((ke1, random)), (id, state, ke3) => true,
      record => |record| > 0, (secret, message) => secret + message,
      (password, random) => random, (password, random, response) => Some(SpelledRecord(password)));
    forall email, password, random ensures HonestExchange(o, email, password, random) { }
    forall record, p, q | RecordOf(o, record, p) && RecordOf(o, record, q) ensures p == q {
      assert SpelledRecord(p)[1..] == Digits(p) && SpelledRecord(q)[1..] == Digits(q);
      DigitsRoundTrip(p);
      DigitsRoundTrip(q);
    }
    assert Interoperates(o) && Binding(o);
  }
}
