/** Whole runs of the account server: registrations, logins and rotations in any order, by any users and devices. */
module AccountRuns {
  import opened Common
  import opened Accounts

  datatype Op =
    | Register(email: string, record: Bytes, secret: Option<Bytes>, newId: string)
    | StartLogin(email: string, ke1: Bytes, random: Bytes)
    | FinishLogin(email: string, ke3: Bytes, deviceLabel: Option<string>, newId: string)
    | StartRotation(userId: string, deviceId: string, request: Bytes, nonce: Bytes)
    | FinishRotation(userId: string, deviceId: string, record: Bytes, signature: Option<Bytes>)

  /** What the caller is told. */
  datatype Reply =
    | Refused(error: AuthError)
    | Registered(userId: string)
    | LoginBegun(ke2: Bytes)
    | LoggedIn(session: Session)
    | RotationBegun(registrationResponse: Bytes, challenge: Option<Bytes>)
    | Rotated

  function Exec(o: Opaque, s: State, op: Op): (State, Reply) {
    match op
    case Register(e, r, k, id) =>
      var (s', res) := RegisterFinish(o, s, e, r, k, id);
      (s', if res.Ok? then Registered(res.value) else Refused(res.error))
    case StartLogin(e, ke1, rnd) =>
      var (s', res) := LoginStart(o, s, e, ke1, rnd);
      (s', if res.Ok? then LoginBegun(res.value) else Refused(res.error))
    case FinishLogin(e, ke3, l, id) =>
      var (s', res) := LoginFinish(o, s, e, ke3, l, id);
      (s', if res.Ok? then LoggedIn(res.value) else Refused(res.error))
    case StartRotation(u, d, req, n) =>
      var (c, res) := RotateStart(o, s.users, s.challenges, u, d, req, n);
      (s.(challenges := c),
       if res.Ok? then RotationBegun(res.value.registrationResponse, res.value.continuityChallenge)
       else Refused(res.error))
    case FinishRotation(u, d, r, sig) =>
      var (us, c, res) := RotateFinish(o, s.users, s.challenges, u, d, r, sig);
      (s.(users := us, challenges := c), if res.Ok? then Rotated else Refused(res.error))
  }

  const EMPTY := State(map[], map[], map[], map[], map[])

  function RunFrom(o: Opaque, s: State, ops: seq<Op>): State {
    if ops == [] then s else Exec(o, RunFrom(o, s, ops[..|ops| - 1]), ops[|ops| - 1]).0
  }

  function Run(o: Opaque, ops: seq<Op>): State {
    RunFrom(o, EMPTY, ops)
  }

  /** Random user ids are not in use (and not empty). */
  ghost predicate FreshRun(o: Opaque, ops: seq<Op>) {
    ops != [] ==>
      && FreshRun(o, ops[..|ops| - 1])
      && (ops[|ops| - 1].Register? ==>
            ops[|ops| - 1].newId != "" && ops[|ops| - 1].newId !in Run(o, ops[..|ops| - 1]).users)
  }

  // ---- account invariants ----

  ghost predicate AccountsOk(o: Opaque, s: State) {
    && (forall id :: id in s.users ==>
          && id != ""
          && s.users[id].id == id
          && s.users[id].email in s.byEmail
          && s.byEmail[s.users[id].email] == id
          && s.users[id].registrationRecord.Some?
          && o.isValidRecord(s.users[id].registrationRecord.value)
          && (s.users[id].hardenedModeEnabled <==> s.users[id].continuitySecret.Some?))
    && (forall e :: e in s.byEmail ==> s.byEmail[e] in s.users && s.users[s.byEmail[e]].email == e)
    && (forall e :: e in s.pendingLogins ==>
          && e in s.byEmail
          && s.pendingLogins[e].userId == s.byEmail[e]
          && s.pendingLogins[e].credentialIdentifier == e)
  }

  lemma ExecKeepsAccounts(o: Opaque, s: State, op: Op)
    requires AccountsOk(o, s) && (op.Register? ==> op.newId != "" && op.newId !in s.users)
    ensures AccountsOk(o, Exec(o, s, op).0)
  {
    match op
    case Register(_, _, _, _) => RegisterKeepsAccounts(o, s, op);
    case StartLogin(_, _, _) => StartLoginKeepsAccounts(o, s, op);
    case FinishLogin(_, _, _, _) => FinishLoginKeepsAccounts(o, s, op);
    case FinishRotation(_, _, _, _) => FinishKeepsAccounts(o, s, op);
    case _ =>
  }

  lemma RegisterKeepsAccounts(o: Opaque, s: State, op: Op)
    requires AccountsOk(o, s) && op.Register? && op.newId != "" && op.newId !in s.users
    ensures AccountsOk(o, Exec(o, s, op).0)
  {
  }

  lemma StartLoginKeepsAccounts(o: Opaque, s: State, op: Op)
    requires AccountsOk(o, s) && op.StartLogin?
    ensures AccountsOk(o, Exec(o, s, op).0)
  {
  }

  lemma FinishLoginKeepsAccounts(o: Opaque, s: State, op: Op)
    requires AccountsOk(o, s) && op.FinishLogin?
    ensures AccountsOk(o, Exec(o, s, op).0)
  {
  }

  lemma FinishKeepsAccounts(o: Opaque, s: State, op: Op)
    requires AccountsOk(o, s) && op.FinishRotation?
    ensures AccountsOk(o, Exec(o, s, op).0)
  {
    var s' := Exec(o, s, op).0;
    if s'.users != s.users {
      ReplacedRecordIsOk(o, s, s', op.userId, op.record);
    }
  }

  lemma ReplacedRecordIsOk(o: Opaque, s: State, s': State, userId: string, record: Bytes)
    requires AccountsOk(o, s) && userId in s.users && o.isValidRecord(record)
    requires s'.users == s.users[userId := s.users[userId].(registrationRecord := Some(record))]
    requires s'.byEmail == s.byEmail && s'.pendingLogins == s.pendingLogins
    ensures AccountsOk(o, s')
  {
  }

  /**
   * In every reachable state: every stored record is well-formed, hardened
   * mode holds exactly for accounts with a continuity secret, the email index
   * and the user table agree both ways, and a login in progress belongs to the
   * user of its email.
   */
  lemma {:induction false} RunKeepsAccounts(o: Opaque, ops: seq<Op>)
    requires FreshRun(o, ops)
    ensures AccountsOk(o, Run(o, ops))
  {
    if ops != [] {
      RunKeepsAccounts(o, ops[..|ops| - 1]);
      ExecKeepsAccounts(o, Run(o, ops[..|ops| - 1]), ops[|ops| - 1]);
    }
  }

  /** Who owns an email, by the history alone: the first well-formed registration of it. */
  function Owner(o: Opaque, ops: seq<Op>, email: string): Option<string> {
    if ops == [] then None
    else
      var before, last := Owner(o, ops[..|ops| - 1], email), ops[|ops| - 1];
      if before.None? && last.Register? && last.email == email && o.isValidRecord(last.record) then Some(last.newId)
      else before
  }

  lemma {:induction false} OwnerIsIndexed(o: Opaque, ops: seq<Op>, email: string)
    ensures var byEmail := Run(o, ops).byEmail;
            Owner(o, ops, email) == if email in byEmail then Some(byEmail[email]) else None
  {
    if ops != [] {
      OwnerIsIndexed(o, ops[..|ops| - 1], email);
    }
  }

  /**
   * After any run, exactly when a registration succeeds: the record is
   * well-formed and nobody owns the email. The reply names the new account,
   * which holds what it was given, and from then on the email, and no other,
   * finds it. Refused, it says why and changes nothing.
   */
  lemma RegistrationIsExact(
      o: Opaque, ops: seq<Op>, email: string, record: Bytes, secret: Option<Bytes>, newId: string, other: string)
    requires FreshRun(o, ops) && newId != "" && newId !in Run(o, ops).users
    ensures var s := Run(o, ops);
            var (s', reply) := Exec(o, s, Register(email, record, secret, newId));
            var found := FindByEmail(s'.users, s'.byEmail, other);
            var free := Owner(o, ops, email).None?;
            && (reply == Registered(newId) <==> o.isValidRecord(record) && free)
            && (reply == Refused(MalformedRecord) <==> !o.isValidRecord(record))
            && (reply == Refused(EmailTaken) <==> o.isValidRecord(record) && !free)
            && (reply.Refused? ==> s' == s)
            && (!reply.Refused? ==>
                  && s' == s.(users := s'.users, byEmail := s'.byEmail)
                  && s'.users == s.users[newId := User(newId, email, Some(record), secret.Some?, secret)]
                  && found == if other == email then Some(s'.users[newId]) else FindByEmail(s.users, s.byEmail, other))
  {
    RunKeepsAccounts(o, ops);
    OwnerIsIndexed(o, ops, email);
  }

  // ---- logins are single-use ----

  function LoginStarts(ops: seq<Op>, email: string): nat {
    if ops == [] then 0
    else
      var last := ops[|ops| - 1];
      LoginStarts(ops[..|ops| - 1], email) + if last.StartLogin? && last.email == email then 1 else 0
  }

  function SessionsIssued(o: Opaque, ops: seq<Op>, email: string): nat {
    if ops == [] then 0
    else
      var front, last := ops[..|ops| - 1], ops[|ops| - 1];
      SessionsIssued(o, front, email) +
      if last.FinishLogin? && last.email == email && Exec(o, Run(o, front), last).1.LoggedIn? then 1 else 0
  }

  /** Each login start yields at most one session: issued ones and the one still pending never exceed the starts. */
  lemma {:induction false} SessionsNeedStarts(o: Opaque, ops: seq<Op>, email: string)
    ensures SessionsIssued(o, ops, email) + (if email in Run(o, ops).pendingLogins then 1 else 0)
         <= LoginStarts(ops, email)
  {
    if ops != [] {
      SessionsNeedStarts(o, ops[..|ops| - 1], email);
    }
  }

  /** What OPAQUE answers to a login start, given whose email it is and what record they have. */
  function Handshake(o: Opaque, s: State, owner: Option<string>, email: string, ke1: Bytes, random: Bytes)
    : Option<(Bytes, Bytes)>
  {
    if owner.None? || owner.value !in s.users || s.users[owner.value].registrationRecord.None? then None
    else o.loginResponse(email, s.users[owner.value].registrationRecord.value, ke1, random)
  }

  /**
   * After any run, exactly when a login start is answered: somebody owns the
   * email and OPAQUE answers for their record. The client gets `ke2`, the
   * server keeps the other half, for this email alone. Refused, it says why
   * and changes nothing.
   */
  lemma LoginStartIsExact(o: Opaque, ops: seq<Op>, email: string, ke1: Bytes, random: Bytes)
    requires FreshRun(o, ops)
    ensures var s := Run(o, ops);
            var (s', reply) := Exec(o, s, StartLogin(email, ke1, random));
            var owner := Owner(o, ops, email);
            var handshake := Handshake(o, s, owner, email, ke1, random);
            && (reply.Refused? <==> handshake.None?)
            && (reply == Refused(InvalidCredentials) <==> owner.None?)
            && (reply == Refused(OpaqueFailed) <==> owner.Some? && handshake.None?)
            && (reply.Refused? ==> s' == s)
            && (!reply.Refused? ==>
                  && var (ke2, state) := handshake.value;
                  && reply == LoginBegun(ke2)
                  && s' == s.(pendingLogins := s.pendingLogins[email := PendingLogin(owner.value, email, state)]))
  {
    RunKeepsAccounts(o, ops);
    OwnerIsIndexed(o, ops, email);
  }

  /** The server's half of the login handshake begun last for the email, unless a finish has consumed it since. */
  function LatestLogin(o: Opaque, ops: seq<Op>, email: string): Option<Bytes> {
    if ops == [] then None
    else
      var front, last := ops[..|ops| - 1], ops[|ops| - 1];
      var before := LatestLogin(o, front, email);
      match last
      case StartLogin(e, ke1, random) =>
        var handshake := Handshake(o, Run(o, front), Owner(o, front, email), email, ke1, random);
        if e == email && handshake.Some? then Some(handshake.value.1) else before
      case FinishLogin(e, _, _, _) => if e == email then None else before
      case _ => before
  }

  lemma {:induction false} PendingLoginIsLatest(o: Opaque, ops: seq<Op>, email: string)
    requires FreshRun(o, ops)
    ensures LatestLogin(o, ops, email) == Pending(Run(o, ops), email)
  {
    if ops != [] {
      var front, last := ops[..|ops| - 1], ops[|ops| - 1];
      PendingLoginIsLatest(o, front, email);
      match last
      case StartLogin(e, ke1, random) => LoginStartIsExact(o, front, e, ke1, random);
      case FinishLogin(_, _, _, _) => FinishConsumesLogin(o, Run(o, front), last, email);
      case _ =>
    }
  }

  function Pending(s: State, email: string): Option<Bytes> {
    if email in s.pendingLogins then Some(s.pendingLogins[email].opaqueState) else None
  }

  lemma FinishConsumesLogin(o: Opaque, s: State, op: Op, email: string)
    requires op.FinishLogin?
    ensures Pending(Exec(o, s, op).0, email) == if op.email == email then None else Pending(s, email)
  {
  }

  /**
   * After any run, exactly when a login finish issues a session: the handshake
   * begun last for that email is still unconsumed and accepts the client's
   * answer. Accepted or not, it is consumed; a session belongs to the owner of
   * the email, on a device created for it; a refusal says why.
   */
  lemma LoginIsExact(o: Opaque, ops: seq<Op>, email: string, ke3: Bytes, deviceLabel: Option<string>, newId: string)
    requires FreshRun(o, ops)
    ensures var s := Run(o, ops);
            var (s', reply) := Exec(o, s, FinishLogin(email, ke3, deviceLabel, newId));
            var handshake, owner := LatestLogin(o, ops, email), Owner(o, ops, email);
            var accepted := handshake.Some? && o.loginAccepts(email, handshake.value, ke3);
            && (reply.LoggedIn? <==> accepted)
            && (reply == Refused(NoLoginInProgress) <==> handshake.None?)
            && (reply == Refused(OpaqueFailed) <==> handshake.Some? && !accepted)
            && s' == s.(pendingLogins := s.pendingLogins - {email}, devices := s'.devices)
            && (!accepted ==> s'.devices == s.devices)
            && (accepted ==>
                  && owner.Some? && reply == LoggedIn(Session(owner.value, newId))
                  && s'.devices == s.devices[newId := Device(newId, owner.value, deviceLabel)])
  {
    RunKeepsAccounts(o, ops);
    OwnerIsIndexed(o, ops, email);
    PendingLoginIsLatest(o, ops, email);
  }

  // ---- hardened rotation ----

  /** The step replaced the record of a hardened account. */
  predicate ReplacesHardened(o: Opaque, s: State, op: Op) {
    && op.FinishRotation?
    && op.userId in s.users
    && s.users[op.userId].hardenedModeEnabled
    && Exec(o, s, op).0.users != s.users
  }

  function Replacements(o: Opaque, ops: seq<Op>, deviceId: string): nat {
    if ops == [] then 0
    else
      var front, last := ops[..|ops| - 1], ops[|ops| - 1];
      Replacements(o, front, deviceId) +
      if ReplacesHardened(o, Run(o, front), last) && last.deviceId == deviceId then 1 else 0
  }

  function RotationStarts(ops: seq<Op>, deviceId: string): nat {
    if ops == [] then 0
    else
      var last := ops[|ops| - 1];
      RotationStarts(ops[..|ops| - 1], deviceId) + if last.StartRotation? && last.deviceId == deviceId then 1 else 0
  }

  /**
   * After any run, exactly when a rotate/start is answered: the user exists
   * and OPAQUE answers for their email. The reply carries that answer; for an
   * account with a continuity secret also the nonce drawn for this call, which
   * from then on is the challenge of this device, and of no other. Refused, it
   * says why and changes nothing.
   */
  lemma StartIsExact(o: Opaque, ops: seq<Op>, userId: string, deviceId: string, request: Bytes, nonce: Bytes)
    requires FreshRun(o, ops)
    ensures var s := Run(o, ops);
            var (s', reply) := Exec(o, s, StartRotation(userId, deviceId, request, nonce));
            var known := userId in s.users;
            && (reply == Refused(UserNotFound) <==> !known)
            && (reply == Refused(OpaqueFailed) <==>
                  known && o.registrationResponse(s.users[userId].email, request).None?)
            && (reply.RotationBegun? <==> known && o.registrationResponse(s.users[userId].email, request).Some?)
            && (reply.RotationBegun? ==>
                  && Some(reply.registrationResponse) == o.registrationResponse(s.users[userId].email, request)
                  && reply.challenge == if s.users[userId].continuitySecret.Some? then Some(nonce) else None)
            && s' == s.(challenges := if reply.RotationBegun? && reply.challenge.Some?
                                      then s.challenges[deviceId := nonce] else s.challenges)
  {
    RunKeepsAccounts(o, ops);
  }

  /** The finish, given the device's challenge, stores a new record for an account with a continuity secret. */
  predicate Consumes(o: Opaque, users: Users, challenge: Option<Bytes>, op: Op)
    requires op.FinishRotation?
  {
    && op.userId in users
    && var user := users[op.userId];
    && user.registrationRecord != Some(op.record) && o.isValidRecord(op.record)
    && user.continuitySecret.Some? && challenge.Some?
    && op.signature == Some(o.hmac(user.continuitySecret.value, challenge.value))
  }

  /** The nonce drawn for the device's last answered start on a hardened account, unless it has been consumed since. */
  function LatestChallenge(o: Opaque, ops: seq<Op>, deviceId: string): Option<Bytes> {
    if ops == [] then None
    else
      var front, last := ops[..|ops| - 1], ops[|ops| - 1];
      var before, users := LatestChallenge(o, front, deviceId), Run(o, front).users;
      match last
      case StartRotation(u, d, request, nonce) =>
        if d == deviceId && u in users && users[u].continuitySecret.Some?
           && o.registrationResponse(users[u].email, request).Some? then Some(nonce)
        else before
      case FinishRotation(_, d, _, _) => if d == deviceId && Consumes(o, users, before, last) then None else before
      case _ => before
  }

  lemma {:induction false} StoredChallengeIsLatest(o: Opaque, ops: seq<Op>, deviceId: string)
    requires FreshRun(o, ops)
    ensures LatestChallenge(o, ops, deviceId) == Challenge(Run(o, ops), deviceId)
  {
    if ops != [] {
      var front, last := ops[..|ops| - 1], ops[|ops| - 1];
      StoredChallengeIsLatest(o, front, deviceId);
      match last
      case StartRotation(u, d, request, nonce) => StartIsExact(o, front, u, d, request, nonce);
      case FinishRotation(_, _, _, _) =>
        RunKeepsAccounts(o, front);
        FinishConsumesChallenge(o, Run(o, front), last, deviceId);
      case _ =>
    }
  }

  function Challenge(s: State, deviceId: string): Option<Bytes> {
    if deviceId in s.challenges then Some(s.challenges[deviceId]) else None
  }

  lemma FinishConsumesChallenge(o: Opaque, s: State, op: Op, deviceId: string)
    requires AccountsOk(o, s) && op.FinishRotation?
    ensures Challenge(Exec(o, s, op).0, deviceId)
         == if op.deviceId == deviceId && Consumes(o, s.users, Challenge(s, deviceId), op) then None
            else Challenge(s, deviceId)
  {
  }

  lemma ChallengesMove(o: Opaque, s: State, op: Op, deviceId: string)
    ensures var s' := Exec(o, s, op).0;
            if ReplacesHardened(o, s, op) && op.deviceId == deviceId then
              deviceId in s.challenges && deviceId !in s'.challenges
            else if op.StartRotation? && op.deviceId == deviceId then true
            else deviceId in s'.challenges ==> deviceId in s.challenges
  {
  }

  /**
   * Single-use challenges, over every run: the hardened records a device has
   * replaced, plus the challenge it may still hold, never exceed its calls of
   * rotate/start.
   */
  lemma {:induction false} ReplacementsNeedStarts(o: Opaque, ops: seq<Op>, deviceId: string)
    ensures Replacements(o, ops, deviceId) + (if deviceId in Run(o, ops).challenges then 1 else 0)
         <= RotationStarts(ops, deviceId)
  {
    if ops != [] {
      var front, last := ops[..|ops| - 1], ops[|ops| - 1];
      ReplacementsNeedStarts(o, front, deviceId);
      ChallengesMove(o, Run(o, front), last, deviceId);
    }
  }

  /**
   * After any run, exactly when a rotate/finish succeeds: the record is the one
   * stored already, or it is well-formed and, for a hardened account, signs the
   * device's latest unconsumed challenge with the account's secret. A refused
   * finish changes nothing at all; an accepted one stores the record, and
   * touches no other user and no other device.
   */
  lemma FinishIsExact(
      o: Opaque, ops: seq<Op>, userId: string, deviceId: string, record: Bytes, signature: Option<Bytes>)
    requires FreshRun(o, ops)
    ensures var s := Run(o, ops);
            var (s', reply) := Exec(o, s, FinishRotation(userId, deviceId, record, signature));
            var challenge := LatestChallenge(o, ops, deviceId);
            && (reply == Rotated <==>
                  && userId in s.users
                  && var secret := s.users[userId].continuitySecret;
                     (|| s.users[userId].registrationRecord == Some(record)
                      || (&& o.isValidRecord(record)
                          && (secret.Some? ==>
                                challenge.Some? && signature == Some(o.hmac(secret.value, challenge.value))))))
            && (reply.Refused? <==> reply != Rotated)
            && (reply.Refused? ==> s' == s)
            && (reply == Rotated ==>
                  && s' == s.(users := s'.users, challenges := s'.challenges)
                  && s'.users == s.users[userId := s.users[userId].(registrationRecord := Some(record))]
                  && s'.challenges == if s'.users != s.users && s.users[userId].hardenedModeEnabled
                                      then s.challenges - {deviceId} else s.challenges)
  {
    RunKeepsAccounts(o, ops);
    StoredChallengeIsLatest(o, ops, deviceId);
    var s := Run(o, ops);
    var s' := Exec(o, s, FinishRotation(userId, deviceId, record, signature)).0;
    if userId in s.users && s.users[userId].registrationRecord != Some(record) && s'.users != s.users {
      assert s'.users[userId] != s.users[userId];
    } else if userId in s.users && s.users[userId].registrationRecord == Some(record) {
      assert s.users[userId].(registrationRecord := Some(record)) == s.users[userId];
    } else if userId in s.users {
      assert s.users[userId := s.users[userId].(registrationRecord := Some(record))][userId] != s.users[userId];
    }
  }

  /** And why a rotate/finish is refused: each error has its own cause, in this order. */
  lemma FinishErrorsAreExact(
      o: Opaque, ops: seq<Op>, userId: string, deviceId: string, record: Bytes, signature: Option<Bytes>)
    requires FreshRun(o, ops)
    ensures var s := Run(o, ops);
            var reply := Exec(o, s, FinishRotation(userId, deviceId, record, signature)).1;
            var challenge := LatestChallenge(o, ops, deviceId);
            var known := userId in s.users;
            var differs := known && s.users[userId].registrationRecord != Some(record);
            var guarded := differs && o.isValidRecord(record) && s.users[userId].continuitySecret.Some?;
            && (reply == Refused(UserNotFound) <==> !known)
            && (reply == Refused(MalformedRecord) <==> differs && !o.isValidRecord(record))
            && (reply == Refused(NoPendingChallenge) <==> guarded && challenge.None?)
            && (reply == Refused(SignatureMissing) <==> guarded && challenge.Some? && signature.None?)
            && (reply == Refused(SignatureMismatch) <==>
                  && guarded && challenge.Some? && signature.Some?
                  && signature.value != o.hmac(s.users[userId].continuitySecret.value, challenge.value))
  {
    RunKeepsAccounts(o, ops);
    StoredChallengeIsLatest(o, ops, deviceId);
  }

  /** Repeats of a finish with the same record, by any device and with any signature, among any rotate/start calls. */
  ghost predicate OnlyRepeats(ops: seq<Op>, userId: string, record: Bytes) {
    forall i :: 0 <= i < |ops| ==>
      || ops[i].StartRotation?
      || (ops[i].FinishRotation? && ops[i].userId == userId && ops[i].record == record)
  }

  ghost predicate AllFinishesSucceed(o: Opaque, s: State, ops: seq<Op>) {
    forall i :: 0 <= i < |ops| && ops[i].FinishRotation? ==> Exec(o, RunFrom(o, s, ops[..i]), ops[i]).1 == Rotated
  }

  lemma {:induction false} StoredRecordReplays(o: Opaque, s: State, userId: string, record: Bytes, repeats: seq<Op>)
    requires userId in s.users && s.users[userId].registrationRecord == Some(record)
    requires OnlyRepeats(repeats, userId, record)
    ensures AllFinishesSucceed(o, s, repeats) && RunFrom(o, s, repeats).users == s.users
  {
    if repeats != [] {
      var front := repeats[..|repeats| - 1];
      StoredRecordReplays(o, s, userId, record, front);
      forall i | 0 <= i < |repeats| && repeats[i].FinishRotation?
        ensures Exec(o, RunFrom(o, s, repeats[..i]), repeats[i]).1 == Rotated
      {
        if i < |front| {
          assert front[..i] == repeats[..i] && front[i] == repeats[i];
        }
      }
    }
  }

  /**
   * Idempotent replay: once a finish succeeded, repeating it succeeds and
   * changes no account, however often and however interleaved.
   */
  lemma FinishIsIdempotent(
      o: Opaque, s: State, userId: string, deviceId: string, record: Bytes, signature: Option<Bytes>, repeats: seq<Op>)
    requires Exec(o, s, FinishRotation(userId, deviceId, record, signature)).1 == Rotated
    requires OnlyRepeats(repeats, userId, record)
    ensures var s' := Exec(o, s, FinishRotation(userId, deviceId, record, signature)).0;
            AllFinishesSucceed(o, s', repeats) && RunFrom(o, s', repeats).users == s'.users
  {
    var s' := Exec(o, s, FinishRotation(userId, deviceId, record, signature)).0;
    StoredRecordReplays(o, s', userId, record, repeats);
  }
}
