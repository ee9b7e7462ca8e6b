/** Offline rotation on the client, and the network exchange that completes it. */
module Rotation {
  import opened Common
  import opened VaultCrypto
  import opened KeyManagement
  import A = Accounts
  import S = AccountServices

  /** What becomes of one attempt on the network, and where the client may die. */
  datatype Net =
    | Clean
    | StartRequestLost
    | StartResponseLost
    | FinishRequestLost
    | FinishRequestLate
    | FinishResponseLost
    | CrashBeforeClear

  datatype RotationError =
    | NetworkFailed
    | ServerRefused(error: A.AuthError)
    | HardenedUnsupported
    | OpaqueClientFailed
    | PendingUnreadable
    | Crashed

  /** The server's side, as far as rotation can reach. */
  datatype Server = Server(users: A.Users, challenges: A.Challenges)

  // ---- what the operations compute ----

  /** The packed pending record: the new password, sealed under the new key. */
  function PendingRecord(c: Crypto, password: string, salt: Bytes, epoch: int, nonce: Bytes): Option<Bytes> {
    var s := Seal(c, c.masterKek(password, salt), nonce, c.encodePayload(password, epoch));
    if s.None? then None else Some(Pack(s.value))
  }

  /** The password a pending record holds, if the key opens it. */
  function RecoverPassword(c: Crypto, kek: Bytes, packed: Bytes): Option<string> {
    var payload := OpenPacked(c, kek, packed);
    if payload.None? then None else c.decodePassword(payload.value)
  }

  /** Answers the server's state, what the client sees, and a finish request the network has kept (if any). */
  function Reregister(
      o: A.Opaque, server: Server, userId: string, deviceId: string,
      password: string, random: Bytes, nonce: Bytes, net: Net)
    : (Server, Result<(), RotationError>, Option<Bytes>)
  {
    if net.StartRequestLost? then (server, Err(NetworkFailed), None)
    else
      var (challenges, started) := A.RotateStart(
                                   o, server.users, server.challenges, userId, deviceId,
                                   o.clientRequest(password, random), nonce);
      var server1 := Server(server.users, challenges);
      if net.StartResponseLost? then (server1, Err(NetworkFailed), None)
      else if started.Err? then (server1, Err(ServerRefused(started.error)), None)
      else if started.value.continuityChallenge.GetOr([]) != [] then (server1, Err(HardenedUnsupported), None)
      else
        var record := o.clientRecord(password, random, started.value.registrationResponse);
        if record.None? then (server1, Err(OpaqueClientFailed), None)
        else if net.FinishRequestLost? then (server1, Err(NetworkFailed), None)
        else if net.FinishRequestLate? then (server1, Err(NetworkFailed), record)
        else
          var (server2, finished) := Deliver(o, server1, userId, deviceId, record.value);
          if net.FinishResponseLost? then (server2, Err(NetworkFailed), None)
          else if finished.Err? then (server2, Err(ServerRefused(finished.error)), None)
          else (server2, Ok(()), None)
  }

  /** The server handles a finish request of this client (which never signs). */
  function Deliver(o: A.Opaque, server: Server, userId: string, deviceId: string, record: Bytes)
    : (Server, Result<(), A.AuthError>)
  {
    var (users, challenges, result) := A.RotateFinish(
                                       o, server.users, server.challenges, userId, deviceId, record, None);
    (Server(users, challenges), result)
  }

  /** One completion attempt: the slot is cleared only after the server has confirmed. */
  function Complete(
      c: Crypto, o: A.Opaque, slot: Option<Bytes>, server: Server, userId: string, deviceId: string,
      kek: Bytes, random: Bytes, nonce: Bytes, net: Net)
    : (Option<Bytes>, Server, Result<bool, RotationError>, Option<Bytes>)
  {
    if slot.None? then (slot, server, Ok(false), None)
    else
      var password := RecoverPassword(c, kek, slot.value);
      if password.None? then (slot, server, Err(PendingUnreadable), None)
      else
        var (server', result, late) := Reregister(o, server, userId, deviceId, password.value, random, nonce, net);
        if result.Err? then (slot, server', Err(result.error), late)
        else if net.CrashBeforeClear? then (slot, server', Err(Crashed), late)
        else (None, server', Ok(true), late)
  }

  // ---- the code ----

  /** The single slot on the device. */
  class PendingRotationStore {
    var slot: Option<Bytes>

    constructor ()
      ensures slot == None
    {
      slot := None;
    }

    method Save(packed: Bytes)
      modifies this
      ensures slot == Some(packed)
    {
      slot := Some(packed);
    }

    method Load() returns (packed: Option<Bytes>)
      ensures packed == slot
    {
      packed := slot;
    }

    method Clear()
      modifies this
      ensures slot == None
    {
      slot := None;
    }
  }

  /**
   * Saves the pending record first and re-wraps the DEK second. With a locked
   * manager the call fails, but the slot has been overwritten by then. Of the
   * two buffers that held the new KEK (`keks`), the copy that sealed the
   * payload is never zeroed, and the original only if the re-wrap succeeds.
   */
  method BeginOfflineRotation(
      c: Crypto, manager: KeyManager, password: string, salt: Bytes, keyVersion: int, epoch: int,
      store: PendingRotationStore, payloadNonce: Bytes, wrapNonce: Bytes)
    returns (result: Result<WrappedDek, EngineError>, ghost keks: seq<array<byte>>)
    modifies store, manager`retired
    ensures old(manager.Disciplined()) ==> manager.Disciplined()
    ensures var pending := PendingRecord(c, password, salt, epoch, payloadNonce);
            && store.slot == (if pending.Some? then pending else old(store.slot))
            && result == if pending.None? then Err(CryptoFailed)
                         else Rewrap(c, manager.Resident(), c.masterKek(password, salt), Master, keyVersion, wrapNonce)
    ensures result.Ok? ==> result.value.purpose == Master && result.value.keyVersion == keyVersion
    ensures manager.dek == old(manager.dek) && manager.Resident() == old(manager.Resident())
    ensures |keks| == 2 && keks[0] != keks[1] && fresh(keks[0]) && fresh(keks[1])
    ensures keks[1][..] == c.masterKek(password, salt)
    ensures if result.Ok? then Zeroed(keks[0]) else keks[0][..] == c.masterKek(password, salt)
  {
    var newKek := NewBuffer(c.masterKek(password, salt));
    var copy := NewBuffer(newKek[..]);
    keks := [newKek, copy];
    var payloadSealed := Seal(c, copy[..], payloadNonce, c.encodePayload(password, epoch));
    if payloadSealed.None? {
      return Err(CryptoFailed), keks;
    }
    var packed := PackSealed(payloadSealed.value);
    store.Save(packed[..]);
    result := manager.RewrapUnder(c, newKek, Master, keyVersion, wrapNonce);
  }

  /** Talks to the rotation service across a network that behaves as `net` says. */
  class HttpOpaqueRotationClient {
    const crypto: A.Opaque
    const service: S.RotationService
    const userId: string
    const deviceId: string

    constructor (crypto: A.Opaque, service: S.RotationService, userId: string, deviceId: string)
      ensures this.crypto == crypto && this.service == service && this.userId == userId && this.deviceId == deviceId
    {
      this.crypto, this.service, this.userId, this.deviceId := crypto, service, userId, deviceId;
    }

    ghost function Remote(): Server
      reads service.users, service.users.byId.Values, service.devices
    {
      Server(service.users.Contents(), service.devices.pendingRotationChallenges)
    }

    method ReregisterPassword(password: string, random: Bytes, nonce: Bytes, net: Net)
      returns (result: Result<(), RotationError>, late: Option<Bytes>)
      requires service.users.Valid() && service.crypto == crypto
      modifies service.users.byId.Values, service.devices`pendingRotationChallenges
      ensures (Remote(), result, late)
           == Reregister(crypto, old(Remote()), userId, deviceId, password, random, nonce, net)
    {
      late := None;
      var registrationRequest := crypto.clientRequest(password, random);
      if net.StartRequestLost? {
        return Err(NetworkFailed), late;
      }
      var started := service.RotateStart(userId, deviceId, registrationRequest, nonce);
      if net.StartResponseLost? {
        return Err(NetworkFailed), late;
      }
      if started.Err? {
        return Err(ServerRefused(started.error)), late;
      }
      if started.value.continuityChallenge.GetOr([]) != [] {
        return Err(HardenedUnsupported), late;
      }
      var record := crypto.clientRecord(password, random, started.value.registrationResponse);
      if record.None? {
        return Err(OpaqueClientFailed), late;
      }
      if net.FinishRequestLost? {
        return Err(NetworkFailed), late;
      }
      if net.FinishRequestLate? {
        return Err(NetworkFailed), record;
      }
      var finished := service.RotateFinish(userId, deviceId, record.value, None);
      if net.FinishResponseLost? {
        return Err(NetworkFailed), late;
      }
      return if finished.Err? then Err(ServerRefused(finished.error)) else Ok(()), late;
    }
  }

  method CompleteOfflineRotation(
      c: Crypto, kek: Bytes, store: PendingRotationStore, client: HttpOpaqueRotationClient,
      random: Bytes, nonce: Bytes, net: Net)
    returns (result: Result<bool, RotationError>, late: Option<Bytes>)
    requires client.service.users.Valid() && client.service.crypto == client.crypto
    modifies store, client.service.users.byId.Values, client.service.devices`pendingRotationChallenges
    ensures (store.slot, client.Remote(), result, late)
         == Complete(c, client.crypto, old(store.slot), old(client.Remote()), client.userId, client.deviceId,
                     kek, random, nonce, net)
  {
    late := None;
    var packed := store.Load();
    if packed.None? {
      return Ok(false), late;
    }
    var password := RecoverPassword(c, kek, packed.value);
    if password.None? {
      return Err(PendingUnreadable), late;
    }
    var sent;
    sent, late := client.ReregisterPassword(password.value, random, nonce, net);
    if sent.Err? {
      return Err(sent.error), late;
    }
    if net.CrashBeforeClear? {
      return Err(Crashed), late;
    }
    ghost var remote := client.Remote();
    store.Clear();
    assert client.Remote() == remote;
    return Ok(true), late;
  }
}
