/** The worker over whole runs of messages: which key is resident, and what each answer is worth to the client. */
module WorkerRuns {
  import opened Common
  import opened VaultCrypto
  import opened KeyManagement
  import opened EngineWorker

  /** The DEK the worker holds after these operations. */
  function After(c: Crypto, ops: seq<EngineOp>): Option<Bytes> {
    if ops == [] then None else Handle(c, After(c, ops[..|ops| - 1]), ops[|ops| - 1]).0
  }

  /** What it then answers to one more. */
  function Answer(c: Crypto, ops: seq<EngineOp>, op: EngineOp): Result<EngineValue, EngineError> {
    Handle(c, After(c, ops), op).1
  }

  /** The random draws of every new vault have their proper lengths. */
  ghost predicate WellDrawn(ops: seq<EngineOp>) {
    forall i :: 0 <= i < |ops| && ops[i].CreateVault? ==> DrawsOk(ops[i].draws)
  }

  // ---- the resident key, from the history alone ----

  /** The key of the vault created or unlocked last, unless it was locked since; a failed unlock counts for nothing. */
  function ResidentDek(c: Crypto, ops: seq<EngineOp>): Option<Bytes> {
    if ops == [] then None
    else
      var before := ResidentDek(c, ops[..|ops| - 1]);
      match ops[|ops| - 1]
      case CreateVault(_, d) => Some(d.dek)
      case Unlock(password, salt, wrapped) =>
        var plain := Opened(c, c.masterKek(password, salt), wrapped.ciphertext);
        if plain.Some? then plain else before
      case Lock => None
      case _ => before
  }

  lemma WrappingsOfNewVault(c: Crypto, password: string, d: Draws)
    requires Lawful(c) && DrawsOk(d)
    ensures var value := Handle(c, None, CreateVault(password, d)).1;
            && value.Ok? && value.value.NewVault?
            && Wraps(c, value.value.master, Master, c.masterKek(password, d.localSalt), d.masterNonce, d.dek)
            && Wraps(c, value.value.recovery, Recovery, c.recoveryKek(d.recoveryKitSecret, d.recoverySalt),
                     d.recoveryNonce, d.dek)
  {
    SealedOpens(c, c.masterKek(password, d.localSalt), d.masterNonce, d.dek);
    SealedOpens(c, c.recoveryKek(d.recoveryKitSecret, d.recoverySalt), d.recoveryNonce, d.dek);
  }

  /** A first wrapping of the key for this purpose: it opens under this KEK and under no other. */
  ghost predicate Wraps(c: Crypto, w: WrappedDek, purpose: Purpose, kek: Bytes, nonce: Bytes, dek: Bytes) {
    w.purpose == purpose && w.keyVersion == 1 && Seals(c, w.ciphertext, kek, nonce, dek)
  }

  lemma {:induction false} ResidentIsHistory(c: Crypto, ops: seq<EngineOp>)
    requires Lawful(c) && WellDrawn(ops)
    ensures After(c, ops) == ResidentDek(c, ops)
  {
    if ops != [] {
      ResidentIsHistory(c, ops[..|ops| - 1]);
      match ops[|ops| - 1]
      case CreateVault(password, d) => WrappingsOfNewVault(c, password, d);
      case Unlock(password, salt, wrapped) =>
        assert |c.masterKek(password, salt)| == 32;
        OpeningIsExact(c, c.masterKek(password, salt), wrapped.ciphertext);
      case _ =>
    }
  }

  // ---- the answers ----

  /** A new vault: the client gets the salts and the secret drawn, and two wrappings of the one key drawn. */
  lemma CreateVaultAnswer(c: Crypto, ops: seq<EngineOp>, password: string, d: Draws)
    requires Lawful(c) && DrawsOk(d)
    ensures var answer := Answer(c, ops, CreateVault(password, d));
            && answer.Ok? && answer.value.NewVault?
            && answer.value.localSalt == d.localSalt
            && answer.value.recoverySalt == d.recoverySalt
            && answer.value.recoveryKitSecret == d.recoveryKitSecret
            && Wraps(c, answer.value.master, Master, c.masterKek(password, d.localSalt), d.masterNonce, d.dek)
            && Wraps(c, answer.value.recovery, Recovery, c.recoveryKek(d.recoveryKitSecret, d.recoverySalt),
                     d.recoveryNonce, d.dek)
  {
    WrappingsOfNewVault(c, password, d);
  }

  /** An unlock succeeds exactly if the wrapping decrypts under the key derived. A lock always does. */
  lemma UnlockAndLockAnswers(c: Crypto, ops: seq<EngineOp>, password: string, salt: Bytes, wrapped: WrappedDek)
    requires Lawful(c)
    ensures Answer(c, ops, Unlock(password, salt, wrapped))
         == if Opened(c, c.masterKek(password, salt), wrapped.ciphertext).Some? then Ok(UnlockedOk)
            else Err(CryptoFailed)
    ensures Answer(c, ops, Lock) == Ok(LockedOk)
  {
    assert |c.masterKek(password, salt)| == 32;
    OpeningIsExact(c, c.masterKek(password, salt), wrapped.ciphertext);
  }

  /** AES has keys of these lengths only. */
  ghost predicate AesKey(key: Bytes) {
    |key| in {16, 24, 32}
  }

  /**
   * After any run, an encryption is answered exactly if a key is resident (and
   * is one for AES); what is answered is no plaintext but a seal of it, under
   * that key alone and with the nonce drawn for it.
   */
  lemma EncryptAnswer(c: Crypto, ops: seq<EngineOp>, plaintext: Bytes, nonce: Bytes)
    requires Lawful(c) && WellDrawn(ops) && |nonce| == NONCE_BYTES
    ensures var answer, dek := Answer(c, ops, Encrypt(plaintext, nonce)), ResidentDek(c, ops);
            && (answer == Err(VaultLocked) <==> dek.None?)
            && (answer == Err(CryptoFailed) <==> dek.Some? && !AesKey(dek.value))
            && (answer.Ok? <==> dek.Some? && AesKey(dek.value))
            && (answer.Ok? ==> answer == Ok(Ciphertext(nonce + c.encrypt(dek.value, nonce, plaintext))))
            && (answer.Ok? && |dek.value| == DEK_BYTES ==>
                  Seals(c, answer.value.ciphertext, dek.value, nonce, plaintext))
  {
    ResidentIsHistory(c, ops);
    if After(c, ops).Some? && |After(c, ops).value| == 32 {
      SealedOpens(c, After(c, ops).value, nonce, plaintext);
    }
  }

  /** After any run, a decryption answers what the buffer decrypts to under the resident key, or why it cannot. */
  lemma DecryptAnswer(c: Crypto, ops: seq<EngineOp>, packed: Bytes)
    requires Lawful(c) && WellDrawn(ops)
    ensures var answer, dek := Answer(c, ops, Decrypt(packed)), ResidentDek(c, ops);
            && (answer == Err(VaultLocked) <==> dek.None?)
            && (dek.Some? ==>
                  var plain := if AesKey(dek.value) then Opened(c, dek.value, packed) else None;
                  answer == if plain.Some? then Ok(Plaintext(plain.value)) else Err(CryptoFailed))
  {
    ResidentIsHistory(c, ops);
    if After(c, ops).Some? {
      OpeningIsExact(c, After(c, ops).value, packed);
    }
  }

  // ---- what a client can rely on ----

  lemma AppendOne(c: Crypto, ops: seq<EngineOp>, op: EngineOp)
    requires WellDrawn(ops) && (op.CreateVault? ==> DrawsOk(op.draws))
    ensures (ops + [op])[..|ops|] == ops && (ops + [op])[|ops|] == op && WellDrawn(ops + [op])
  {
  }

  /**
   * Whatever was done before: with the password and the wrapping from the
   * creation of a vault an unlock makes its key resident again, and with a
   * password that derives another key it fails and changes nothing.
   */
  lemma VaultReopens(
      c: Crypto, before: seq<EngineOp>, password: string, d: Draws, ops: seq<EngineOp>, attempt: string)
    requires Lawful(c) && WellDrawn(before) && DrawsOk(d) && WellDrawn(ops)
    ensures var created := Answer(c, before, CreateVault(password, d));
            && created.Ok? && created.value.NewVault?
            && var unlock := Unlock(attempt, created.value.localSalt, created.value.master);
            if c.masterKek(attempt, d.localSalt) == c.masterKek(password, d.localSalt)
            then Answer(c, ops, unlock) == Ok(UnlockedOk) && ResidentDek(c, ops + [unlock]) == Some(d.dek)
            else Answer(c, ops, unlock) == Err(CryptoFailed) && ResidentDek(c, ops + [unlock]) == ResidentDek(c, ops)
  {
    CreateVaultAnswer(c, before, password, d);
    var created := Answer(c, before, CreateVault(password, d)).value;
    var unlock := Unlock(attempt, created.localSalt, created.master);
    assert |c.masterKek(attempt, d.localSalt)| == 32;
    UnlockAndLockAnswers(c, ops, attempt, created.localSalt, created.master);
    AppendOne(c, ops, unlock);
  }

  /**
   * An item encrypted while the vault's key is resident survives anything
   * (locks, other vaults, wrong passwords): once the vault is unlocked with
   * its password again, the ciphertext decrypts to what was put in.
   */
  lemma ItemsOutliveLocks(
      c: Crypto, before: seq<EngineOp>, password: string, d: Draws,
      open: seq<EngineOp>, plaintext: Bytes, nonce: Bytes, later: seq<EngineOp>)
    requires Lawful(c) && WellDrawn(before) && DrawsOk(d) && WellDrawn(open) && WellDrawn(later)
    requires ResidentDek(c, open) == Some(d.dek) && |nonce| == NONCE_BYTES
    ensures var created := Answer(c, before, CreateVault(password, d));
            var item := Answer(c, open, Encrypt(plaintext, nonce));
            && created.Ok? && created.value.NewVault? && item.Ok? && item.value.Ciphertext?
            && var unlock := Unlock(password, created.value.localSalt, created.value.master);
            Answer(c, later + [unlock], Decrypt(item.value.ciphertext)) == Ok(Plaintext(plaintext))
  {
    VaultReopens(c, before, password, d, later, password);
    EncryptAnswer(c, open, plaintext, nonce);
    var created := Answer(c, before, CreateVault(password, d)).value;
    var unlock := Unlock(password, created.localSalt, created.master);
    AppendOne(c, later, unlock);
    DecryptAnswer(c, later + [unlock], Answer(c, open, Encrypt(plaintext, nonce)).value.ciphertext);
  }

  /** A ciphertext the worker made is never decrypted to anything but the plaintext, whatever (full) key is resident. */
  lemma NeverMisread(
      c: Crypto, earlier: seq<EngineOp>, later: seq<EngineOp>, plain: Bytes, nonce: Bytes, packed: Bytes, read: Bytes)
    requires Lawful(c) && WellDrawn(earlier) && WellDrawn(later) && |nonce| == NONCE_BYTES
    requires ResidentDek(c, earlier).Some? ==> |ResidentDek(c, earlier).value| == DEK_BYTES
    requires ResidentDek(c, later).Some? ==> |ResidentDek(c, later).value| == DEK_BYTES
    requires Answer(c, earlier, Encrypt(plain, nonce)) == Ok(Ciphertext(packed))
    requires Answer(c, later, Decrypt(packed)) == Ok(Plaintext(read))
    ensures read == plain
  {
    EncryptAnswer(c, earlier, plain, nonce);
    DecryptAnswer(c, later, packed);
  }

  /** A locked worker answers neither encryptions nor decryptions, whatever was resident before. */
  lemma LockedAnswersNothing(c: Crypto, ops: seq<EngineOp>, plaintext: Bytes, nonce: Bytes, packed: Bytes)
    requires Lawful(c) && WellDrawn(ops) && |nonce| == NONCE_BYTES
    ensures Answer(c, ops + [Lock], Encrypt(plaintext, nonce)) == Err(VaultLocked)
    ensures Answer(c, ops + [Lock], Decrypt(packed)) == Err(VaultLocked)
  {
    AppendOne(c, ops, Lock);
    EncryptAnswer(c, ops + [Lock], plaintext, nonce);
    DecryptAnswer(c, ops + [Lock], packed);
  }
}
