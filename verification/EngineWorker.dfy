/** The worker side: one resident key manager, one reply per request. */
module EngineWorker {
  import opened Common
  import opened VaultCrypto
  import opened KeyManagement

  datatype EngineOp =
    | CreateVault(masterPassword: string, draws: Draws)
    | Unlock(masterPassword: string, localSalt: Bytes, wrapped: WrappedDek)
    | Lock
    | Encrypt(plaintext: Bytes, nonce: Bytes)
    | Decrypt(packed: Bytes)

  datatype EngineValue =
    | NewVault(
        localSalt: Bytes, recoverySalt: Bytes, recoveryKitSecret: Bytes, master: WrappedDek, recovery: WrappedDek)
    | UnlockedOk
    | LockedOk
    | Ciphertext(ciphertext: Bytes)
    | Plaintext(plaintext: Bytes)

  datatype Request = Request(id: nat, op: EngineOp)

  datatype Response = Response(id: nat, outcome: Result<EngineValue, EngineError>)

  /** What the worker does with one operation: the DEK it then holds, and its answer. */
  function Handle(c: Crypto, dek: Option<Bytes>, op: EngineOp): (Option<Bytes>, Result<EngineValue, EngineError>) {
    match op
    case CreateVault(p, d) =>
      var master := Rewrap(c, Some(d.dek), c.masterKek(p, d.localSalt), Master, 1, d.masterNonce);
      var recovery := Rewrap(
                      c, Some(d.dek), c.recoveryKek(d.recoveryKitSecret, d.recoverySalt), Recovery, 1, d.recoveryNonce);
      if master.Err? || recovery.Err? then (dek, Err(CryptoFailed))
      else (Some(d.dek), Ok(NewVault(d.localSalt, d.recoverySalt, d.recoveryKitSecret, master.value, recovery.value)))
    case Unlock(p, salt, wrapped) =>
      var plain := UnwrapDek(c, c.masterKek(p, salt), wrapped);
      if plain.None? then (dek, Err(CryptoFailed)) else (plain, Ok(UnlockedOk))
    case Lock => (None, Ok(LockedOk))
    case Encrypt(p, nonce) =>
      var r := EncryptWith(c, dek, p, nonce);
      (dek, if r.Ok? then Ok(Ciphertext(r.value)) else Err(r.error))
    case Decrypt(packed) =>
      var r := DecryptWith(c, dek, packed);
      (dek, if r.Ok? then Ok(Plaintext(r.value)) else Err(r.error))
  }

  class Worker {
    const crypto: Crypto
    var activeManager: KeyManager

    constructor (crypto: Crypto)
      ensures this.crypto == crypto && fresh(activeManager) && activeManager.dek == null
    {
      this.crypto := crypto;
      this.activeManager := new KeyManager();
    }

    /**
     * `createNewVault`: the manager of the new vault takes the place of the
     * active one, whose buffers stay as they are.
     */
    method SwapManager(masterPassword: string, draws: Draws)
      returns (value: EngineValue, ghost keks: seq<array<byte>>)
      requires Lawful(crypto) && DrawsOk(draws)
      modifies this
      ensures (activeManager.Resident(), Ok(value)) == Handle(crypto, None, CreateVault(masterPassword, draws))
      ensures fresh(activeManager) && fresh(activeManager.dek)
      ensures |keks| == 2 && forall kek :: kek in keks ==> fresh(kek) && Zeroed(kek)
    {
      var material;
      material, keks := CreateNewVault(crypto, masterPassword, draws);
      activeManager := material.manager;
      value := NewVault(
        material.localSalt, material.recoverySalt, material.recoveryKitSecret,
        material.wrappedMasterDek, material.wrappedRecoveryDek);
    }

    /**
     * Answers one message. Unlocking and locking zero the DEK buffer they
     * drop; `createNewVault` instead swaps the whole manager, and the DEK
     * buffer of the manager it abandons keeps its content. Of the KEK buffers
     * derived on the way (`keks`), the one of an unlock is zeroed only if the
     * wrapping opens.
     */
    method OnMessage(request: Request) returns (response: Response, ghost keks: seq<array<byte>>)
      requires Lawful(crypto) && (request.op.CreateVault? ==> DrawsOk(request.op.draws))
      modifies this, activeManager, activeManager.dek
      ensures response.id == request.id
      ensures (activeManager.Resident(), response.outcome) == Handle(crypto, old(activeManager.Resident()), request.op)
      ensures var before := old(activeManager.dek);
              before != null && activeManager.dek != before ==>
                (if request.op.CreateVault? then before[..] == old(activeManager.dek[..]) else Zeroed(before))
      ensures |keks| == match request.op case CreateVault(_, _) => 2 case Unlock(_, _, _) => 1 case _ => 0
      ensures forall kek :: kek in keks ==> fresh(kek) && (response.outcome.Ok? ==> Zeroed(kek))
      ensures request.op.Unlock? && response.outcome.Err? ==>
                keks[0][..] == crypto.masterKek(request.op.masterPassword, request.op.localSalt)
    {
      keks := [];
      match request.op {
        case CreateVault(p, d) =>
          var value;
          value, keks := SwapManager(p, d);
          response := Response(request.id, Ok(value));
        case Unlock(p, salt, wrapped) =>
          var kek := NewBuffer(crypto.masterKek(p, salt));
          keks := [kek];
          var ok := activeManager.UnlockWith(crypto, kek, wrapped);
          response := Response(request.id, if ok then Ok(UnlockedOk) else Err(CryptoFailed));
        case Lock =>
          activeManager.Lock();
          response := Response(request.id, Ok(LockedOk));
        case Encrypt(p, nonce) =>
          var r := activeManager.EncryptItem(crypto, p, nonce);
          response := Response(request.id, if r.Ok? then Ok(Ciphertext(r.value)) else Err(r.error));
        case Decrypt(packed) =>
          var r := activeManager.DecryptItem(crypto, packed);
          response := Response(request.id, if r.Ok? then Ok(Plaintext(r.value)) else Err(r.error));
      }
    }
  }
}
