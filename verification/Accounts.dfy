/** Users, devices, and the registration, login and rotation decisions taken over them. */
module Accounts {
  import opened Common

  datatype User = User(
    id: string,
    email: string,
    registrationRecord: Option<Bytes>,
    hardenedModeEnabled: bool,
    continuitySecret: Option<Bytes>
  )

  datatype Device = Device(id: string, userId: string, deviceLabel: Option<string>)

  datatype PendingLogin = PendingLogin(userId: string, credentialIdentifier: string, opaqueState: Bytes)

  datatype Session = Session(userId: string, deviceId: string)

  datatype RotateStarted = RotateStarted(registrationResponse: Bytes, continuityChallenge: Option<Bytes>)

  datatype AuthError =
    | UserNotFound
    | MalformedRecord
    | EmailTaken
    | InvalidCredentials
    | NoLoginInProgress
    | OpaqueFailed
    | NoPendingChallenge
    | SignatureMissing
    | SignatureMismatch

  /**
   * The cryptography the services are given: OPAQUE on both sides (random
   * values are arguments; a call that throws is `None`) and HMAC-SHA256.
   */
  datatype Opaque = Opaque(
    registrationResponse: (string, Bytes) -> Option<Bytes>,
    loginResponse: (string, Bytes, Bytes, Bytes) -> Option<(Bytes, Bytes)>,
    loginAccepts: (string, Bytes, Bytes) -> bool,
    isValidRecord: Bytes -> bool,
    hmac: (Bytes, Bytes) -> Bytes,
    clientRequest: (string, Bytes) -> Bytes,
    clientRecord: (string, Bytes, Bytes) -> Option<Bytes>
  )

  type Users = map<string, User>
  type Challenges = map<string, Bytes>

  predicate BytesEqual(a: Bytes, b: Bytes)
    ensures BytesEqual(a, b) <==> a == b
  {
    |a| == |b| && forall i :: 0 <= i < |a| ==> a[i] == b[i]
  }

  // ---- rotation ----

  function RotateStart(
      o: Opaque, users: Users, challenges: Challenges, userId: string, deviceId: string, request: Bytes, nonce: Bytes)
    : (Challenges, Result<RotateStarted, AuthError>)
  {
    if userId !in users then (challenges, Err(UserNotFound))
    else
      var response := o.registrationResponse(users[userId].email, request);
      if response.None? then (challenges, Err(OpaqueFailed))
      else if !users[userId].hardenedModeEnabled then (challenges, Ok(RotateStarted(response.value, None)))
      else (challenges[deviceId := nonce], Ok(RotateStarted(response.value, Some(nonce))))
  }

  /** The Factor 2 check of a hardened account. */
  function Factor2(o: Opaque, user: User, challenge: Option<Bytes>, signature: Option<Bytes>): Option<AuthError> {
    if challenge.None? then Some(NoPendingChallenge)
    else if signature.None? || user.continuitySecret.None? then Some(SignatureMissing)
    else if !BytesEqual(o.hmac(user.continuitySecret.value, challenge.value), signature.value) then
      Some(SignatureMismatch)
    else None
  }

  function RotateFinish(
      o: Opaque, users: Users, challenges: Challenges, userId: string, deviceId: string,
      record: Bytes, signature: Option<Bytes>)
    : (Users, Challenges, Result<(), AuthError>)
  {
    if userId !in users then (users, challenges, Err(UserNotFound))
    else
      var user := users[userId];
      if user.registrationRecord.Some? && BytesEqual(user.registrationRecord.value, record) then
        (users, challenges, Ok(()))
      else if !o.isValidRecord(record) then (users, challenges, Err(MalformedRecord))
      else
        var replaced := users[userId := user.(registrationRecord := Some(record))];
        if !user.hardenedModeEnabled then (replaced, challenges, Ok(()))
        else
          var pending := if deviceId in challenges then Some(challenges[deviceId]) else None;
          var refusal := Factor2(o, user, pending, signature);
          if refusal.Some? then (users, challenges, Err(refusal.value))
          else (replaced, challenges - {deviceId}, Ok(()))
  }

  // ---- registration and login ----

  datatype State = State(
    users: Users,
    byEmail: map<string, string>,
    devices: map<string, Device>,
    challenges: Challenges,
    pendingLogins: map<string, PendingLogin>
  )

  function FindByEmail(users: Users, byEmail: map<string, string>, email: string): Option<User> {
    if email in byEmail && byEmail[email] != "" && byEmail[email] in users then Some(users[byEmail[email]]) else None
  }

  function RegisterFinish(o: Opaque, s: State, email: string, record: Bytes, secret: Option<Bytes>, newId: string)
    : (State, Result<string, AuthError>)
  {
    if !o.isValidRecord(record) then (s, Err(MalformedRecord))
    else if email in s.byEmail then (s, Err(EmailTaken))
    else
      (s.(users := s.users[newId := User(newId, email, Some(record), secret.Some?, secret)],
          byEmail := s.byEmail[email := newId]),
       Ok(newId))
  }

  function LoginStart(o: Opaque, s: State, email: string, ke1: Bytes, random: Bytes)
    : (State, Result<Bytes, AuthError>)
  {
    var user := FindByEmail(s.users, s.byEmail, email);
    if user.None? || user.value.registrationRecord.None? then (s, Err(InvalidCredentials))
    else
      var response := o.loginResponse(email, user.value.registrationRecord.value, ke1, random);
      if response.None? then (s, Err(OpaqueFailed))
      else
        (s.(pendingLogins := s.pendingLogins[email := PendingLogin(user.value.id, email, response.value.1)]),
         Ok(response.value.0))
  }

  function LoginFinish(o: Opaque, s: State, email: string, ke3: Bytes, deviceLabel: Option<string>, newId: string)
    : (State, Result<Session, AuthError>)
  {
    if email !in s.pendingLogins then (s, Err(NoLoginInProgress))
    else
      var pending := s.pendingLogins[email];
      var s1 := s.(pendingLogins := s.pendingLogins - {email});
      if !o.loginAccepts(pending.credentialIdentifier, pending.opaqueState, ke3) then (s1, Err(OpaqueFailed))
      else
        (s1.(devices := s.devices[newId := Device(newId, pending.userId, deviceLabel)]),
         Ok(Session(pending.userId, newId)))
  }
}
