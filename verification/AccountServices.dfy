/** The stores of users and devices, and the two services that work on them. */
module AccountServices {
  import opened Common
  import A = Accounts

  /** A stored user; only its registration record ever changes, in place. */
  class UserRecord {
    const id: string
    const email: string
    var registrationRecord: Option<Bytes>
    const hardenedModeEnabled: bool
    const continuitySecret: Option<Bytes>

    constructor (id: string, email: string, record: Bytes, hardened: bool, secret: Option<Bytes>)
      ensures Value() == A.User(id, email, Some(record), hardened, secret)
    {
      this.id, this.email, this.registrationRecord := id, email, Some(record);
      this.hardenedModeEnabled, this.continuitySecret := hardened, secret;
    }

    ghost function Value(): A.User
      reads this
    {
      A.User(id, email, registrationRecord, hardenedModeEnabled, continuitySecret)
    }
  }

  class InMemoryUsersRepository {
    var byId: map<string, UserRecord>
    var byEmail: map<string, string>

    constructor ()
      ensures Valid() && Contents() == map[] && byEmail == map[]
    {
      byId, byEmail := map[], map[];
    }

    /** Distinct ids never share a record object. */
    ghost predicate Valid()
      reads this
    {
      forall i, j :: i in byId && j in byId && i != j ==> byId[i] != byId[j]
    }

    ghost function Contents(): A.Users
      reads this, byId.Values
    {
      map id | id in byId :: byId[id].Value()
    }

    method FindByEmail(email: string) returns (user: UserRecord?)
      ensures user != null <==> A.FindByEmail(Contents(), byEmail, email).Some?
      ensures user != null ==> user in byId.Values && Some(user.Value()) == A.FindByEmail(Contents(), byEmail, email)
    {
      if email in byEmail && byEmail[email] != "" && byEmail[email] in byId {
        return byId[byEmail[email]];
      }
      return null;
    }

    method FindById(id: string) returns (user: UserRecord?)
      ensures user == if id in byId then byId[id] else null
    {
      return if id in byId then byId[id] else null;
    }

    /** Refuses an email that is already taken. */
    method Create(email: string, record: Bytes, hardened: bool, secret: Option<Bytes>, newId: string)
      returns (user: UserRecord?)
      requires Valid()
      modifies this
      ensures Valid() && fresh(byId.Values - old(byId.Values))
      ensures email in old(byEmail) ==> user == null && Contents() == old(Contents()) && byEmail == old(byEmail)
      ensures email !in old(byEmail) ==>
                && user != null && user.id == newId
                && Contents() == old(Contents())[newId := A.User(newId, email, Some(record), hardened, secret)]
                && byEmail == old(byEmail)[email := newId]
    {
      if email in byEmail {
        return null;
      }
      user := new UserRecord(newId, email, record, hardened, secret);
      byId := byId[user.id := user];
      byEmail := byEmail[user.email := user.id];
    }

    method ReplaceRegistrationRecord(userId: string, record: Bytes) returns (ok: bool)
      requires Valid()
      modifies byId.Values
      ensures ok <==> userId in byId
      ensures Contents() == if ok
                            then old(Contents())[userId := old(Contents())[userId].(registrationRecord := Some(record))]
                            else old(Contents())
    {
      if userId !in byId {
        return false;
      }
      byId[userId].registrationRecord := Some(record);
      return true;
    }
  }

  class InMemoryDevicesRepository {
    var byId: map<string, A.Device>
    var pendingRotationChallenges: A.Challenges

    constructor ()
      ensures byId == map[] && pendingRotationChallenges == map[]
    {
      byId, pendingRotationChallenges := map[], map[];
    }

    method Create(userId: string, deviceLabel: Option<string>, newId: string) returns (device: A.Device)
      modifies `byId
      ensures device == A.Device(newId, userId, deviceLabel) && byId == old(byId)[newId := device]
    {
      device := A.Device(newId, userId, deviceLabel);
      byId := byId[device.id := device];
    }

    method SetPendingRotationChallenge(deviceId: string, challenge: Bytes)
      modifies `pendingRotationChallenges
      ensures pendingRotationChallenges == old(pendingRotationChallenges)[deviceId := challenge]
    {
      pendingRotationChallenges := pendingRotationChallenges[deviceId := challenge];
    }

    method GetPendingRotationChallenge(deviceId: string) returns (challenge: Option<Bytes>)
      ensures challenge
           == if deviceId in pendingRotationChallenges then Some(pendingRotationChallenges[deviceId]) else None
    {
      return if deviceId in pendingRotationChallenges then Some(pendingRotationChallenges[deviceId]) else None;
    }

    method ClearPendingRotationChallenge(deviceId: string)
      modifies `pendingRotationChallenges
      ensures pendingRotationChallenges == old(pendingRotationChallenges) - {deviceId}
    {
      pendingRotationChallenges := pendingRotationChallenges - {deviceId};
    }
  }

  class RotationService {
    const crypto: A.Opaque
    const users: InMemoryUsersRepository
    const devices: InMemoryDevicesRepository

    constructor (crypto: A.Opaque, users: InMemoryUsersRepository, devices: InMemoryDevicesRepository)
      ensures this.crypto == crypto && this.users == users && this.devices == devices
    {
      this.crypto, this.users, this.devices := crypto, users, devices;
    }

    method RotateStart(userId: string, deviceId: string, registrationRequest: Bytes, nonce: Bytes)
      returns (result: Result<A.RotateStarted, A.AuthError>)
      modifies devices`pendingRotationChallenges
      ensures (devices.pendingRotationChallenges, result)
           == A.RotateStart(crypto, users.Contents(), old(devices.pendingRotationChallenges),
                            userId, deviceId, registrationRequest, nonce)
    {
      var user := users.FindById(userId);
      if user == null {
        return Err(A.UserNotFound);
      }
      var response := crypto.registrationResponse(user.email, registrationRequest);
      if response.None? {
        return Err(A.OpaqueFailed);
      }
      if !user.hardenedModeEnabled {
        return Ok(A.RotateStarted(response.value, None));
      }
      devices.SetPendingRotationChallenge(deviceId, nonce);
      return Ok(A.RotateStarted(response.value, Some(nonce)));
    }

    method RotateFinish(userId: string, deviceId: string, registrationRecord: Bytes, continuitySignature: Option<Bytes>)
      returns (result: Result<(), A.AuthError>)
      requires users.Valid()
      modifies users.byId.Values, devices`pendingRotationChallenges
      ensures (users.Contents(), devices.pendingRotationChallenges, result)
           == A.RotateFinish(crypto, old(users.Contents()), old(devices.pendingRotationChallenges),
                             userId, deviceId, registrationRecord, continuitySignature)
    {
      var user := users.FindById(userId);
      if user == null {
        return Err(A.UserNotFound);
      }
      if user.registrationRecord.Some? && A.BytesEqual(user.registrationRecord.value, registrationRecord) {
        return Ok(());
      }
      if !crypto.isValidRecord(registrationRecord) {
        return Err(A.MalformedRecord);
      }
      if user.hardenedModeEnabled {
        var pending := devices.GetPendingRotationChallenge(deviceId);
        if pending.None? {
          return Err(A.NoPendingChallenge);
        }
        if continuitySignature.None? || user.continuitySecret.None? {
          return Err(A.SignatureMissing);
        }
        var expected := crypto.hmac(user.continuitySecret.value, pending.value);
        if !A.BytesEqual(expected, continuitySignature.value) {
          return Err(A.SignatureMismatch);
        }
        devices.ClearPendingRotationChallenge(deviceId);
      }
      var _ := users.ReplaceRegistrationRecord(userId, registrationRecord);
      return Ok(());
    }
  }

  class AuthService {
    const crypto: A.Opaque
    const users: InMemoryUsersRepository
    const devices: InMemoryDevicesRepository
    var pendingLogins: map<string, A.PendingLogin>

    constructor (crypto: A.Opaque, users: InMemoryUsersRepository, devices: InMemoryDevicesRepository)
      ensures this.crypto == crypto && this.users == users && this.devices == devices && pendingLogins == map[]
    {
      this.crypto, this.users, this.devices := crypto, users, devices;
      this.pendingLogins := map[];
    }

    ghost function Stores(): A.State
      reads this, users, users.byId.Values, devices
    {
      A.State(users.Contents(), users.byEmail, devices.byId, devices.pendingRotationChallenges, pendingLogins)
    }

    method RegisterFinish(email: string, registrationRecord: Bytes, continuitySecret: Option<Bytes>, newId: string)
      returns (result: Result<string, A.AuthError>)
      requires users.Valid()
      modifies users
      ensures users.Valid() && fresh(users.byId.Values - old(users.byId.Values))
      ensures (Stores(), result)
           == A.RegisterFinish(crypto, old(Stores()), email, registrationRecord, continuitySecret, newId)
    {
      if !crypto.isValidRecord(registrationRecord) {
        return Err(A.MalformedRecord);
      }
      var user := users.Create(email, registrationRecord, continuitySecret.Some?, continuitySecret, newId);
      if user == null {
        return Err(A.EmailTaken);
      }
      return Ok(user.id);
    }

    method LoginStart(email: string, ke1: Bytes, random: Bytes) returns (result: Result<Bytes, A.AuthError>)
      modifies `pendingLogins
      ensures (Stores(), result) == A.LoginStart(crypto, old(Stores()), email, ke1, random)
    {
      var user := users.FindByEmail(email);
      if user == null || user.registrationRecord.None? {
        return Err(A.InvalidCredentials);
      }
      var response := crypto.loginResponse(email, user.registrationRecord.value, ke1, random);
      if response.None? {
        return Err(A.OpaqueFailed);
      }
      pendingLogins := pendingLogins[email := A.PendingLogin(user.id, email, response.value.1)];
      return Ok(response.value.0);
    }

    method LoginFinish(email: string, ke3: Bytes, deviceLabel: Option<string>, newId: string)
      returns (result: Result<A.Session, A.AuthError>)
      modifies `pendingLogins, devices`byId
      ensures (Stores(), result) == A.LoginFinish(crypto, old(Stores()), email, ke3, deviceLabel, newId)
    {
      if email !in pendingLogins {
        return Err(A.NoLoginInProgress);
      }
      var pending := pendingLogins[email];
      pendingLogins := pendingLogins - {email};
      if !crypto.loginAccepts(pending.credentialIdentifier, pending.opaqueState, ke3) {
        return Err(A.OpaqueFailed);
      }
      var device := devices.Create(pending.userId, deviceLabel, newId);
      return Ok(A.Session(pending.userId, device.id));
    }
  }
}
