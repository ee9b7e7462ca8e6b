/** What beginning a rotation leaves behind, and what one attempt to complete it answers and changes, from any state. */
module RotationReplies {
  import opened Common
  import opened VaultCrypto
  import opened KeyManagement
  import opened Rotation
  import opened RotationRuns
  import A = Accounts
  import V = VaultRuns

  /**
   * Beginning a rotation on an unlocked vault: the slot seals the new password
   * with its epoch, and the new master wrapping seals the DEK, both under the
   * new key and no other, each with the nonce drawn for it. Nothing else
   * changes; on a locked vault, the slot alone.
   */
  lemma BeginSeals(m: Setup, s: State, op: Op)
    requires Lawful(m.c) && op.Begin? && WellTyped(op)
    ensures var s' := Step(m, s, op);
            var kek := m.c.masterKek(op.password, op.salt);
            && s'.slot.Some?
            && Seals(m.c, s'.slot.value, kek, op.payloadNonce, m.c.encodePayload(op.password, op.epoch))
            && s' == s.(slot := s'.slot, vault := s'.vault)
            && (s.vault.resident.None? ==> s'.vault == s.vault)
            && (s.vault.resident.Some? ==>
                  && s'.vault == s.vault.(
                       masterPassword := op.password, localSalt := op.salt, wrappedMaster := s'.vault.wrappedMaster)
                  && V.Labelled(s'.vault.wrappedMaster, Master, op.keyVersion)
                  && Seals(m.c, s'.vault.wrappedMaster.ciphertext, kek, op.wrapNonce, s.vault.resident.value))
  {
    SealedOpens(m.c, m.c.masterKek(op.password, op.salt), op.payloadNonce, m.c.encodePayload(op.password, op.epoch));
    if s.vault.resident.Some? {
      V.RewrapOpens(
        m.c, s.vault.resident.value, m.c.masterKek(op.password, op.salt), Master, op.keyVersion, op.wrapNonce);
    }
  }

  // ---- one attempt ----

  /** The password the slot gives to the holder of this key. */
  function SlotPassword(m: Setup, s: State, kek: Bytes): Option<string> {
    if s.slot.None? then None
    else
      var payload := Opened(m.c, kek, s.slot.value);
      if payload.None? then None else m.c.decodePassword(payload.value)
  }

  /** The start request arrives and its response comes back. */
  predicate StartsOn(net: Net) {
    net != StartRequestLost && net != StartResponseLost
  }

  /** The finish request arrives within the attempt. */
  predicate FinishesOn(net: Net) {
    net == Clean || net == FinishResponseLost || net == CrashBeforeClear
  }

  /** The record the client would send, if the server lets it get that far. */
  ghost function Sent(m: Setup, s: State, password: string, random: Bytes): Option<Bytes> {
    if m.userId !in s.server.users || Hardened(m, s) then None else Exchanged(m, s, password, random)
  }

  /** The server accepts the record: it is well-formed, or the one it has. */
  predicate Accepts(m: Setup, s: State, record: Bytes) {
    && m.userId in s.server.users
    && (m.o.isValidRecord(record) || s.server.users[m.userId].registrationRecord == Some(record))
  }

  /** A hardened account's server answers the start, and so draws a challenge. */
  ghost predicate Challenges(m: Setup, s: State, password: string, random: Bytes, net: Net) {
    && net != StartRequestLost && Hardened(m, s)
    && m.o.registrationResponse(s.server.users[m.userId].email, m.o.clientRequest(password, random)).Some?
  }

  ghost function WithRecord(m: Setup, s: State, record: Option<Bytes>): A.Users
    requires m.userId in s.server.users
  {
    s.server.users[m.userId := s.server.users[m.userId].(registrationRecord := record)]
  }

  /** The record of the password is on the server when the attempt ends. */
  ghost predicate Registers(m: Setup, s: State, password: string, random: Bytes, net: Net) {
    && FinishesOn(net)
    && Sent(m, s, password, random).Some? && Accepts(m, s, Sent(m, s, password, random).value)
  }

  /**
   * An attempt without a slot does nothing and says so; one whose key does not
   * open the slot fails and changes nothing.
   */
  lemma IdleAttempt(m: Setup, s: State, kek: Bytes, random: Bytes, nonce: Bytes, net: Net)
    requires |kek| == 32 && SlotPassword(m, s, kek).None?
    ensures Complete(m.c, m.o, s.slot, s.server, m.userId, m.deviceId, kek, random, nonce, net)
         == (s.slot, s.server, if s.slot.None? then Ok(false) else Err(PendingUnreadable), None)
  {
    if s.slot.Some? {
      OpeningIsExact(m.c, kek, s.slot.value);
    }
  }

  /** The exchange with the server, whatever the network does to it. */
  lemma ExchangeIsExact(m: Setup, s: State, password: string, random: Bytes, nonce: Bytes, net: Net)
    requires |nonce| == 32
    ensures var (server, result, late) := Reregister(
                                          m.o, s.server, m.userId, m.deviceId, password, random, nonce, net);
            var registers := Registers(m, s, password, random, net);
            && (result.Ok? <==> registers && net != FinishResponseLost)
            && server.users == (if registers then WithRecord(m, s, Sent(m, s, password, random)) else s.server.users)
            && server.challenges == (if Challenges(m, s, password, random, net)
                                     then s.server.challenges[m.deviceId := nonce] else s.server.challenges)
            && late == (if net == FinishRequestLate then Sent(m, s, password, random) else None)
  {
    if m.userId in s.server.users {
      var user := s.server.users[m.userId];
      assert s.server.users[m.userId := user] == s.server.users;
    }
  }

  /**
   * What an attempt on a readable slot changes: the slot is cleared exactly on
   * a clean exchange that the server accepts; the server then has the record
   * of the honest exchange for the password in the slot, as it does when only
   * the confirmation is lost; a delayed finish request carries that record.
   */
  lemma AttemptIsExact(m: Setup, s: State, kek: Bytes, random: Bytes, nonce: Bytes, net: Net)
    requires |kek| == 32 && |nonce| == 32 && SlotPassword(m, s, kek).Some?
    ensures var (slot, server, result, late) :=
              Complete(m.c, m.o, s.slot, s.server, m.userId, m.deviceId, kek, random, nonce, net);
            var password := SlotPassword(m, s, kek).value;
            var registers := Registers(m, s, password, random, net);
            && (result == Ok(true) <==> registers && net == Clean)
            && (result.Ok? ==> result.value)
            && slot == (if result.Ok? then None else s.slot)
            && server.users == (if registers then WithRecord(m, s, Sent(m, s, password, random)) else s.server.users)
            && server.challenges == (if Challenges(m, s, password, random, net)
                                     then s.server.challenges[m.deviceId := nonce] else s.server.challenges)
            && late == (if net == FinishRequestLate then Sent(m, s, password, random) else None)
  {
    OpeningIsExact(m.c, kek, s.slot.value);
    ExchangeIsExact(m, s, SlotPassword(m, s, kek).value, random, nonce, net);
  }

  /** And why it fails. */
  lemma AttemptErrorsAreExact(m: Setup, s: State, kek: Bytes, random: Bytes, nonce: Bytes, net: Net)
    requires |kek| == 32 && |nonce| == 32 && SlotPassword(m, s, kek).Some?
    ensures var result :=
              Complete(m.c, m.o, s.slot, s.server, m.userId, m.deviceId, kek, random, nonce, net).2;
            var password := SlotPassword(m, s, kek).value;
            var sent := Sent(m, s, password, random);
            var known := m.userId in s.server.users;
            var response := if known
                            then m.o.registrationResponse(
                                s.server.users[m.userId].email, m.o.clientRequest(password, random))
                            else None;
            && (result == Err(Crashed) <==> Registers(m, s, password, random, net) && net == CrashBeforeClear)
            && (result == Err(NetworkFailed) <==>
                  || !StartsOn(net)
                  || (sent.Some? && net in {FinishRequestLost, FinishRequestLate, FinishResponseLost}))
            && (result == Err(HardenedUnsupported) <==> StartsOn(net) && Hardened(m, s) && response.Some?)
            && (result == Err(OpaqueClientFailed) <==>
                  StartsOn(net) && known && !Hardened(m, s) && response.Some? && sent.None?)
            && (result == Err(ServerRefused(A.UserNotFound)) <==> StartsOn(net) && !known)
            && (result == Err(ServerRefused(A.OpaqueFailed)) <==> StartsOn(net) && known && response.None?)
            && (result == Err(ServerRefused(A.MalformedRecord)) <==>
                  sent.Some? && net in {Clean, CrashBeforeClear} && !Accepts(m, s, sent.value))
  {
    OpeningIsExact(m.c, kek, s.slot.value);
  }
}
