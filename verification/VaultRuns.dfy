/** A vault over its whole life: whatever is locked, unlocked or re-keyed, its content stays readable. */
module VaultRuns {
  import opened Common
  import opened VaultCrypto
  import opened KeyManagement

  datatype Item = Item(plaintext: Bytes, packed: Bytes)

  /**
   * What exists of a vault: the resident DEK, the current wrappings and what
   * opens them, and every item ever encrypted.
   */
  datatype Vault = Vault(
    resident: Option<Bytes>,
    masterPassword: string,
    localSalt: Bytes,
    wrappedMaster: WrappedDek,
    recoverySecret: Bytes,
    recoverySalt: Bytes,
    wrappedRecovery: WrappedDek,
    items: seq<Item>
  )

  datatype Op =
    | Encrypt(plaintext: Bytes, nonce: Bytes)
    | RewrapMaster(password: string, salt: Bytes, keyVersion: int, nonce: Bytes)
    | RewrapRecovery(secret: Bytes, salt: Bytes, keyVersion: int, nonce: Bytes)
    | LockVault
    | UnlockMaster(password: string, salt: Bytes)
    | UnlockRecovery(secret: Bytes, salt: Bytes)

  function MasterKey(c: Crypto, v: Vault): Bytes {
    c.masterKek(v.masterPassword, v.localSalt)
  }

  function RecoveryKey(c: Crypto, v: Vault): Bytes {
    c.recoveryKek(v.recoverySecret, v.recoverySalt)
  }

  function Unlocked(c: Crypto, v: Vault, kek: Bytes, wrapped: WrappedDek): Vault {
    var plain := UnwrapDek(c, kek, wrapped);
    if plain.Some? then v.(resident := plain) else v
  }

  /** Any operation, at any time, with any arguments; one that throws leaves the vault as it is. */
  function Step(c: Crypto, v: Vault, op: Op): Vault {
    match op
    case Encrypt(p, n) =>
      var r := EncryptWith(c, v.resident, p, n);
      if r.Ok? then v.(items := v.items + [Item(p, r.value)]) else v
    case RewrapMaster(p, s, k, n) =>
      var r := Rewrap(c, v.resident, c.masterKek(p, s), Master, k, n);
      if r.Ok? then v.(wrappedMaster := r.value, masterPassword := p, localSalt := s) else v
    case RewrapRecovery(x, s, k, n) =>
      var r := Rewrap(c, v.resident, c.recoveryKek(x, s), Recovery, k, n);
      if r.Ok? then v.(wrappedRecovery := r.value, recoverySecret := x, recoverySalt := s) else v
    case LockVault => v.(resident := None)
    case UnlockMaster(p, s) => Unlocked(c, v, c.masterKek(p, s), v.wrappedMaster)
    case UnlockRecovery(x, s) => Unlocked(c, v, c.recoveryKek(x, s), v.wrappedRecovery)
  }

  function Run(c: Crypto, v: Vault, ops: seq<Op>): Vault {
    if ops == [] then v else Step(c, Run(c, v, ops[..|ops| - 1]), ops[|ops| - 1])
  }

  /** Every nonce drawn has 12 bytes. */
  ghost predicate NoncesOk(ops: seq<Op>) {
    forall i :: 0 <= i < |ops| && (ops[i].Encrypt? || ops[i].RewrapMaster? || ops[i].RewrapRecovery?) ==>
                  |ops[i].nonce| == NONCE_BYTES
  }

  /** The vault as `CreateNewVault` leaves it. */
  ghost predicate Created(c: Crypto, v: Vault, d: Draws) {
    && v.resident == Some(d.dek) && v.items == []
    && Ok(v.wrappedMaster) == Rewrap(c, Some(d.dek), MasterKey(c, v), Master, 1, d.masterNonce)
    && Ok(v.wrappedRecovery) == Rewrap(c, Some(d.dek), RecoveryKey(c, v), Recovery, 1, d.recoveryNonce)
  }

  ghost predicate Readable(c: Crypto, v: Vault, dek: Bytes) {
    && |dek| == DEK_BYTES
    && (v.resident == None || v.resident == Some(dek))
    && (forall k :: |k| == 32 ==> UnwrapDek(c, k, v.wrappedMaster) == if k == MasterKey(c, v) then Some(dek) else None)
    && (forall k :: |k| == 32 ==>
          UnwrapDek(c, k, v.wrappedRecovery) == if k == RecoveryKey(c, v) then Some(dek) else None)
    && (forall i :: 0 <= i < |v.items| ==> DecryptWith(c, Some(dek), v.items[i].packed) == Ok(v.items[i].plaintext))
  }

  /** Re-wrapping fails exactly on a locked vault or for a key AES does not have, each with its own error. */
  lemma RewrapIsExact(
      c: Crypto, dek: Option<Bytes>, kek: Bytes, purpose: Purpose, version: int, nonce: Bytes)
    ensures var r := Rewrap(c, dek, kek, purpose, version, nonce);
            && (r == Err(VaultLocked) <==> dek.None?)
            && (r == Err(CryptoFailed) <==> dek.Some? && |kek| !in {16, 24, 32})
            && (r.Ok? ==>
                  Labelled(r.value, purpose, version) && r.value.ciphertext == nonce + c.encrypt(kek, nonce, dek.value))
  {
  }

  /** Says what it is for, and which version it has. */
  ghost predicate Labelled(w: WrappedDek, purpose: Purpose, version: int) {
    w.purpose == purpose && w.keyVersion == version
  }

  /** A wrapping seals the DEK under its key, says what it is for and which version it has, and unwraps accordingly. */
  lemma RewrapOpens(c: Crypto, dek: Bytes, kek: Bytes, purpose: Purpose, version: int, nonce: Bytes)
    requires Lawful(c) && |kek| == 32 && |nonce| == NONCE_BYTES
    ensures var r := Rewrap(c, Some(dek), kek, purpose, version, nonce);
            && r.Ok?
            && Labelled(r.value, purpose, version)
            && Seals(c, r.value.ciphertext, kek, nonce, dek)
            && forall k :: |k| == 32 ==> UnwrapDek(c, k, r.value) == if k == kek then Some(dek) else None
  {
    SealedOpens(c, kek, nonce, dek);
    var packed := Rewrap(c, Some(dek), kek, purpose, version, nonce).value.ciphertext;
    forall k: Bytes ensures OpenPacked(c, k, packed) == if |k| in {16, 24, 32} then Opened(c, k, packed) else None {
      OpeningIsExact(c, k, packed);
    }
  }

  lemma StepKeepsReadable(c: Crypto, v: Vault, dek: Bytes, op: Op)
    requires Lawful(c) && Readable(c, v, dek) && NoncesOk([op])
    ensures Readable(c, Step(c, v, op), dek)
  {
    assert op == [op][0];
    if v.resident.Some? {
      match op
      case Encrypt(_, _) => EncryptKeepsReadable(c, v, dek, op);
      case RewrapMaster(_, _, _, _) => MasterRewrapKeepsReadable(c, v, dek, op);
      case RewrapRecovery(_, _, _, _) => RecoveryRewrapKeepsReadable(c, v, dek, op);
      case _ =>
    }
  }

  lemma EncryptKeepsReadable(c: Crypto, v: Vault, dek: Bytes, op: Op)
    requires Lawful(c) && Readable(c, v, dek) && v.resident.Some?
    requires op.Encrypt? && |op.nonce| == NONCE_BYTES
    ensures Readable(c, Step(c, v, op), dek)
  {
    SealedOpens(c, dek, op.nonce, op.plaintext);
    OpeningIsExact(c, dek, EncryptWith(c, v.resident, op.plaintext, op.nonce).value);
  }

  lemma MasterRewrapKeepsReadable(c: Crypto, v: Vault, dek: Bytes, op: Op)
    requires Lawful(c) && Readable(c, v, dek) && v.resident.Some?
    requires op.RewrapMaster? && |op.nonce| == NONCE_BYTES
    ensures Readable(c, Step(c, v, op), dek)
  {
    RewrapOpens(c, dek, c.masterKek(op.password, op.salt), Master, op.keyVersion, op.nonce);
  }

  lemma RecoveryRewrapKeepsReadable(c: Crypto, v: Vault, dek: Bytes, op: Op)
    requires Lawful(c) && Readable(c, v, dek) && v.resident.Some?
    requires op.RewrapRecovery? && |op.nonce| == NONCE_BYTES
    ensures Readable(c, Step(c, v, op), dek)
  {
    RewrapOpens(c, dek, c.recoveryKek(op.secret, op.salt), Recovery, op.keyVersion, op.nonce);
  }

  lemma {:induction false} RunKeepsReadable(c: Crypto, v: Vault, dek: Bytes, ops: seq<Op>)
    requires Lawful(c) && Readable(c, v, dek) && NoncesOk(ops)
    ensures Readable(c, Run(c, v, ops), dek)
  {
    if ops != [] {
      RunKeepsReadable(c, v, dek, ops[..|ops| - 1]);
      StepKeepsReadable(c, Run(c, v, ops[..|ops| - 1]), dek, ops[|ops| - 1]);
    }
  }

  /**
   * From a new vault, through any run of encryptions, re-keyings, locks and
   * unlocks (right or wrong): unlocking with the current master password, or
   * with the current recovery secret, brings back the one DEK of the vault;
   * no wrong key does; and with it every item ever encrypted decrypts to what
   * was put in.
   */
  lemma VaultStaysReadable(c: Crypto, v0: Vault, d: Draws, ops: seq<Op>, i: nat, wrongKek: Bytes)
    requires Lawful(c) && DrawsOk(d) && Created(c, v0, d) && NoncesOk(ops)
    requires i < |Run(c, v0, ops).items| && |wrongKek| == 32
    ensures var v := Run(c, v0, ops);
            var byMaster := Step(c, v, UnlockMaster(v.masterPassword, v.localSalt));
            var byRecovery := Step(c, v, UnlockRecovery(v.recoverySecret, v.recoverySalt));
            && byMaster.resident == byRecovery.resident == Some(d.dek)
            && DecryptWith(c, byMaster.resident, v.items[i].packed) == Ok(v.items[i].plaintext)
            && (wrongKek != MasterKey(c, v) ==> UnwrapDek(c, wrongKek, v.wrappedMaster) == None)
            && (wrongKek != RecoveryKey(c, v) ==> UnwrapDek(c, wrongKek, v.wrappedRecovery) == None)
  {
    RewrapOpens(c, d.dek, MasterKey(c, v0), Master, 1, d.masterNonce);
    RewrapOpens(c, d.dek, RecoveryKey(c, v0), Recovery, 1, d.recoveryNonce);
    RunKeepsReadable(c, v0, d.dek, ops);
  }

  // ---- what the wrappings say of themselves ----

  /** The version asked for by the last master re-wrap of an unlocked vault; a new vault has version 1. */
  function MasterVersion(c: Crypto, v: Vault, ops: seq<Op>): int {
    if ops == [] then 1
    else
      var front, last := ops[..|ops| - 1], ops[|ops| - 1];
      if last.RewrapMaster? && Run(c, v, front).resident.Some? then last.keyVersion else MasterVersion(c, v, front)
  }

  function RecoveryVersion(c: Crypto, v: Vault, ops: seq<Op>): int {
    if ops == [] then 1
    else
      var front, last := ops[..|ops| - 1], ops[|ops| - 1];
      if last.RewrapRecovery? && Run(c, v, front).resident.Some? then last.keyVersion
      else RecoveryVersion(c, v, front)
  }

  lemma StepLabels(c: Crypto, v: Vault, op: Op)
    requires Lawful(c)
    ensures var v' := Step(c, v, op);
            && (if op.RewrapMaster? && v.resident.Some? then Labelled(v'.wrappedMaster, Master, op.keyVersion)
                else v'.wrappedMaster == v.wrappedMaster)
            && (if op.RewrapRecovery? && v.resident.Some? then Labelled(v'.wrappedRecovery, Recovery, op.keyVersion)
                else v'.wrappedRecovery == v.wrappedRecovery)
  {
  }

  /** In every run each wrapping is labelled with its purpose and with the version it was last re-wrapped to. */
  lemma {:induction false} WrappingsAreLabelled(c: Crypto, v: Vault, d: Draws, ops: seq<Op>)
    requires Lawful(c) && Created(c, v, d)
    ensures Labelled(Run(c, v, ops).wrappedMaster, Master, MasterVersion(c, v, ops))
    ensures Labelled(Run(c, v, ops).wrappedRecovery, Recovery, RecoveryVersion(c, v, ops))
  {
    if ops != [] {
      WrappingsAreLabelled(c, v, d, ops[..|ops| - 1]);
      StepLabels(c, Run(c, v, ops[..|ops| - 1]), ops[|ops| - 1]);
    }
  }

  /** Nothing encrypted is ever dropped: a run only adds items. */
  lemma {:induction false} ItemsOnlyGrow(c: Crypto, v: Vault, ops: seq<Op>, n: nat)
    requires n <= |ops|
    ensures Run(c, v, ops[..n]).items <= Run(c, v, ops).items
    decreases |ops|
  {
    if n == |ops| {
      assert ops[..n] == ops;
    } else {
      assert ops[..|ops| - 1][..n] == ops[..n];
      ItemsOnlyGrow(c, v, ops[..|ops| - 1], n);
    }
  }
}
