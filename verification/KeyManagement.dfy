/** The resident DEK, the buffers it lives in, and the creation of a vault. */
module KeyManagement {
  import opened Common
  import opened VaultCrypto

  datatype WrappedDek = WrappedDek(ciphertext: Bytes, purpose: Purpose, keyVersion: int)

  datatype EngineError = VaultLocked | CryptoFailed

  // ---- what the operations compute ----

  function UnwrapDek(c: Crypto, kek: Bytes, wrapped: WrappedDek): Option<Bytes> {
    OpenPacked(c, kek, wrapped.ciphertext)
  }

  /** Rewrapping the resident DEK under another key. */
  function Rewrap(c: Crypto, dek: Option<Bytes>, newKek: Bytes, purpose: Purpose, newKeyVersion: int, nonce: Bytes)
    : Result<WrappedDek, EngineError>
  {
    if dek.None? then Err(VaultLocked)
    else
      var s := Seal(c, newKek, nonce, dek.value);
      if s.None? then Err(CryptoFailed) else Ok(WrappedDek(Pack(s.value), purpose, newKeyVersion))
  }

  function EncryptWith(c: Crypto, dek: Option<Bytes>, plaintext: Bytes, nonce: Bytes): Result<Bytes, EngineError> {
    if dek.None? then Err(VaultLocked)
    else
      var s := Seal(c, dek.value, nonce, plaintext);
      if s.None? then Err(CryptoFailed) else Ok(Pack(s.value))
  }

  function DecryptWith(c: Crypto, dek: Option<Bytes>, packed: Bytes): Result<Bytes, EngineError> {
    if dek.None? then Err(VaultLocked)
    else
      var p := OpenPacked(c, dek.value, packed);
      if p.None? then Err(CryptoFailed) else Ok(p.value)
  }

  // ---- buffers ----

  ghost predicate Zeroed(buf: array<byte>)
    reads buf
  {
    buf[..] == Zeros(buf.Length)
  }

  method Zeroize(buf: array<byte>)
    modifies buf
    ensures Zeroed(buf)
  {
    for i := 0 to buf.Length
      invariant forall j :: 0 <= j < i ==> buf[j] == 0
    {
      buf[i] := 0;
    }
  }

  method NewBuffer(contents: Bytes) returns (buf: array<byte>)
    ensures fresh(buf) && buf[..] == contents
  {
    buf := new byte[|contents|](i requires 0 <= i < |contents| => contents[i]);
  }

  /** Writes the nonce, then the ciphertext right behind it, into one buffer. */
  method PackSealed(s: Sealed) returns (packed: array<byte>)
    ensures fresh(packed) && packed[..] == Pack(s)
  {
    packed := new byte[|s.nonce| + |s.ciphertext|];
    forall i | 0 <= i < |s.nonce| {
      packed[i] := s.nonce[i];
    }
    forall i | 0 <= i < |s.ciphertext| {
      packed[|s.nonce| + i] := s.ciphertext[i];
    }
  }

  ghost function Used(buf: array?<byte>): set<array<byte>> {
    if buf == null then {} else {buf}
  }

  class KeyManager {
    var dek: array?<byte>

    /** The buffers this manager has used up: KEKs it consumed, DEK buffers it replaced or locked away. */
    ghost var retired: set<array<byte>>

    constructor ()
      ensures dek == null && retired == {}
    {
      dek, retired := null, {};
    }

    /** Every buffer used up is zeroed, and the resident DEK is not among them. */
    ghost predicate Disciplined()
      reads this, retired
    {
      && Used(dek) !! retired
      && forall buf :: buf in retired ==> Zeroed(buf)
    }

    ghost function Resident(): Option<Bytes>
      reads this, dek
    {
      if dek == null then None else Some(dek[..])
    }

    /**
     * Takes over `newDek`; the buffer it replaces is zeroed first. Handing in
     * the resident buffer itself therefore destroys the key.
     */
    method SetDek(newDek: array<byte>)
      modifies this, dek
      ensures dek == newDek
      ensures old(dek) != null ==> Zeroed(old(dek))
      ensures newDek[..] == if newDek == old(dek) then Zeros(newDek.Length) else old(newDek[..])
      ensures retired == old(retired) + Used(old(dek))
      ensures old(Disciplined()) && newDek !in retired ==> Disciplined()
    {
      if dek != null {
        Zeroize(dek);
      }
      retired := retired + Used(dek);
      dek := newDek;
    }

    method LoadDek(newDek: array<byte>)
      modifies this, dek
      ensures dek == newDek
      ensures old(dek) != null ==> Zeroed(old(dek))
      ensures Resident() == Some(if newDek == old(dek) then Zeros(newDek.Length) else old(newDek[..]))
      ensures retired == old(retired) + Used(old(dek))
      ensures old(Disciplined()) && newDek !in retired ==> Disciplined()
    {
      SetDek(newDek);
    }

    /** On success the KEK and any DEK buffer replaced are zeroed; on failure no buffer and no field changes. */
    method UnlockWith(c: Crypto, kek: array<byte>, wrapped: WrappedDek) returns (ok: bool)
      modifies this, kek, dek
      ensures ok <==> UnwrapDek(c, old(kek[..]), wrapped).Some?
      ensures ok ==> fresh(dek) && Resident() == UnwrapDek(c, old(kek[..]), wrapped)
      ensures ok ==> Zeroed(kek) && (old(dek) != null ==> Zeroed(old(dek)))
      ensures !ok ==> dek == old(dek) && Resident() == old(Resident()) && kek[..] == old(kek[..])
      ensures retired == old(retired) + if ok then Used(old(dek)) + {kek} else {}
      ensures old(Disciplined()) ==> Disciplined()
    {
      var plain := Open(c, kek[..], Unpack(wrapped.ciphertext));
      if plain.None? {
        return false;
      }
      var newDek := NewBuffer(plain.value);
      SetDek(newDek);
      Zeroize(kek);
      retired := retired + {kek};
      return true;
    }

    /** The DEK stays as it is, unless the caller passes the DEK's own buffer as the new KEK. */
    method RewrapUnder(c: Crypto, newKek: array<byte>, purpose: Purpose, newKeyVersion: int, nonce: Bytes)
      returns (result: Result<WrappedDek, EngineError>)
      modifies newKek, `retired
      ensures result == Rewrap(c, old(Resident()), old(newKek[..]), purpose, newKeyVersion, nonce)
      ensures result.Ok? ==> result.value.purpose == purpose && result.value.keyVersion == newKeyVersion
      ensures result.Ok? ==> Zeroed(newKek)
      ensures result.Err? ==> newKek[..] == old(newKek[..])
      ensures Resident() == if result.Ok? && newKek == dek then Some(Zeros(newKek.Length)) else old(Resident())
      ensures retired == old(retired) + if result.Ok? then {newKek} else {}
      ensures old(Disciplined()) && newKek != dek ==> Disciplined()
    {
      if dek == null {
        return Err(VaultLocked);
      }
      var s := Seal(c, newKek[..], nonce, dek[..]);
      if s.None? {
        return Err(CryptoFailed);
      }
      Zeroize(newKek);
      retired := retired + {newKek};
      var packed := PackSealed(s.value);
      return Ok(WrappedDek(packed[..], purpose, newKeyVersion));
    }

    method EncryptItem(c: Crypto, plaintext: Bytes, nonce: Bytes) returns (result: Result<Bytes, EngineError>)
      ensures result == EncryptWith(c, Resident(), plaintext, nonce)
    {
      if dek == null {
        return Err(VaultLocked);
      }
      var s := Seal(c, dek[..], nonce, plaintext);
      if s.None? {
        return Err(CryptoFailed);
      }
      var packed := PackSealed(s.value);
      return Ok(packed[..]);
    }

    method DecryptItem(c: Crypto, packed: Bytes) returns (result: Result<Bytes, EngineError>)
      ensures result == DecryptWith(c, Resident(), packed)
    {
      if dek == null {
        return Err(VaultLocked);
      }
      var p := Open(c, dek[..], Unpack(packed));
      return if p.None? then Err(CryptoFailed) else Ok(p.value);
    }

    method Lock()
      modifies this, dek
      ensures dek == null && (old(dek) != null ==> Zeroed(old(dek)))
      ensures retired == old(retired) + Used(old(dek))
      ensures old(Disciplined()) ==> Disciplined()
    {
      if dek != null {
        Zeroize(dek);
        retired := retired + Used(dek);
        dek := null;
      }
    }
  }

  datatype NewVaultMaterial = NewVaultMaterial(
    manager: KeyManager,
    localSalt: Bytes,
    recoverySalt: Bytes,
    recoveryKitSecret: Bytes,
    wrappedMasterDek: WrappedDek,
    wrappedRecoveryDek: WrappedDek
  )

  /** The random draws of a new vault. */
  datatype Draws = Draws(
    dek: Bytes, localSalt: Bytes, recoverySalt: Bytes, recoveryKitSecret: Bytes,
    masterNonce: Bytes, recoveryNonce: Bytes)

  ghost predicate DrawsOk(d: Draws) {
    && |d.dek| == DEK_BYTES && |d.recoveryKitSecret| == 32
    && |d.localSalt| == SALT_BYTES && |d.recoverySalt| == SALT_BYTES
    && |d.masterNonce| == NONCE_BYTES && |d.recoveryNonce| == NONCE_BYTES
  }

  /**
   * One DEK, two wrappings: both are seals of the very DEK the returned
   * manager holds, and both KEK buffers (`keks`) end up zeroed.
   */
  method CreateNewVault(c: Crypto, masterPassword: string, d: Draws)
    returns (m: NewVaultMaterial, ghost keks: seq<array<byte>>)
    requires Lawful(c) && DrawsOk(d)
    ensures fresh(m.manager) && m.manager.Disciplined() && fresh(m.manager.dek) && m.manager.Resident() == Some(d.dek)
    ensures Ok(m.wrappedMasterDek)
         == Rewrap(c, Some(d.dek), c.masterKek(masterPassword, d.localSalt), Master, 1, d.masterNonce)
    ensures Ok(m.wrappedRecoveryDek)
         == Rewrap(c, Some(d.dek), c.recoveryKek(d.recoveryKitSecret, d.recoverySalt), Recovery, 1, d.recoveryNonce)
    ensures m.wrappedMasterDek.purpose == Master && m.wrappedMasterDek.keyVersion == 1
    ensures m.wrappedRecoveryDek.purpose == Recovery && m.wrappedRecoveryDek.keyVersion == 1
    ensures m.localSalt == d.localSalt && m.recoverySalt == d.recoverySalt && m.recoveryKitSecret == d.recoveryKitSecret
    ensures |keks| == 2 && fresh(keks[0]) && fresh(keks[1]) && m.manager.dek !in keks
    ensures Zeroed(keks[0]) && Zeroed(keks[1])
  {
    var dek := NewBuffer(d.dek);
    var masterKek := NewBuffer(c.masterKek(masterPassword, d.localSalt));
    var recoveryKek := NewBuffer(c.recoveryKek(d.recoveryKitSecret, d.recoverySalt));
    keks := [masterKek, recoveryKek];

    var masterSealed := Seal(c, masterKek[..], d.masterNonce, dek[..]);
    var recoverySealed := Seal(c, recoveryKek[..], d.recoveryNonce, dek[..]);
    Zeroize(masterKek);
    Zeroize(recoveryKek);

    var masterPacked := PackSealed(masterSealed.value);
    var recoveryPacked := PackSealed(recoverySealed.value);
    var manager := new KeyManager();
    manager.LoadDek(dek);
    m := NewVaultMaterial(
      manager, d.localSalt, d.recoverySalt, d.recoveryKitSecret,
      WrappedDek(masterPacked[..], Master, 1), WrappedDek(recoveryPacked[..], Recovery, 1));
  }
}
