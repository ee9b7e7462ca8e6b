/** The engine's cryptography: library calls as given functions with laws, and the packing done around them. */
module VaultCrypto {
  import opened Common

  const NONCE_BYTES := 12
  const DEK_BYTES := 32
  const SALT_BYTES := 16

  /**
   * Argon2id for both keys, AES-GCM on raw keys, and the encoding of the
   * pending-rotation payload (password and epoch).
   */
  datatype Crypto = Crypto(
    masterKek: (string, Bytes) -> Bytes,
    recoveryKek: (Bytes, Bytes) -> Bytes,
    encrypt: (Bytes, Bytes, Bytes) -> Bytes,
    decrypt: (Bytes, Bytes, Bytes) -> Option<Bytes>,
    encodePayload: (string, int) -> Bytes,
    decodePassword: Bytes -> Option<string>
  )

  /**
   * What the properties need of the libraries: keys of 32 bytes, and
   * decryption undoing encryption under the same key only.
   */
  ghost predicate Lawful(c: Crypto) {
    && (forall p, s :: |c.masterKek(p, s)| == 32)
    && (forall r, s :: |c.recoveryKek(r, s)| == 32)
    && (forall k, n, p :: |k| == 32 ==> c.decrypt(k, n, c.encrypt(k, n, p)) == Some(p))
    && (forall k, k', n, p :: |k| == 32 && |k'| == 32 && k != k' ==> c.decrypt(k', n, c.encrypt(k, n, p)) == None)
    && (forall w, e :: c.decodePassword(c.encodePayload(w, e)) == Some(w))
  }

  datatype Sealed = Sealed(nonce: Bytes, ciphertext: Bytes)

  /** WebCrypto imports raw AES keys of these lengths only. */
  predicate ImportableKey(key: Bytes) {
    |key| == 16 || |key| == 24 || |key| == 32
  }

  function Seal(c: Crypto, key: Bytes, nonce: Bytes, plaintext: Bytes): Option<Sealed> {
    if ImportableKey(key) then Some(Sealed(nonce, c.encrypt(key, nonce, plaintext))) else None
  }

  function Open(c: Crypto, key: Bytes, s: Sealed): Option<Bytes> {
    if ImportableKey(key) then c.decrypt(key, s.nonce, s.ciphertext) else None
  }

  function Pack(s: Sealed): Bytes {
    s.nonce + s.ciphertext
  }

  /** Slices clamp: a buffer shorter than a nonce unpacks to itself and nothing. */
  function Unpack(packed: Bytes): Sealed {
    var n := if |packed| < NONCE_BYTES then |packed| else NONCE_BYTES;
    Sealed(packed[..n], packed[n..])
  }

  function OpenPacked(c: Crypto, key: Bytes, packed: Bytes): Option<Bytes> {
    Open(c, key, Unpack(packed))
  }

  /** Packing the parts of any stored buffer gives the buffer back; its first 12 bytes are the nonce. */
  lemma PackAfterUnpack(packed: Bytes)
    ensures Pack(Unpack(packed)) == packed
    ensures Unpack(packed).nonce <= packed
    ensures |Unpack(packed).nonce| == if |packed| < 12 then |packed| else 12
  {
  }

  /** Unpacking undoes packing exactly for 12-byte nonces (or a shorter one with nothing after it). */
  lemma UnpackAfterPack(s: Sealed)
    ensures Unpack(Pack(s)) == s <==> |s.nonce| == NONCE_BYTES || (|s.nonce| < NONCE_BYTES && s.ciphertext == [])
  {
  }

  /** What a stored buffer decrypts to under a key: its first 12 bytes are the nonce. */
  function Opened(c: Crypto, key: Bytes, packed: Bytes): Option<Bytes> {
    if |packed| < 12 then c.decrypt(key, packed, []) else c.decrypt(key, packed[..12], packed[12..])
  }

  /** The buffer starts with the nonce, and decrypts to the plaintext under this key of 32 bytes and no other. */
  ghost predicate Seals(c: Crypto, packed: Bytes, key: Bytes, nonce: Bytes, plaintext: Bytes) {
    && nonce <= packed
    && Opened(c, key, packed) == Some(plaintext)
    && forall other: Bytes :: |other| == 32 && other != key ==> Opened(c, other, packed) == None
  }

  /** What was sealed and packed under a key opens under that key, and under no other. */
  lemma SealedOpens(c: Crypto, key: Bytes, nonce: Bytes, plaintext: Bytes)
    requires Lawful(c) && |key| == 32 && |nonce| == NONCE_BYTES
    ensures var s := Seal(c, key, nonce, plaintext);
            s.Some? && Seals(c, Pack(s.value), key, nonce, plaintext)
  {
    var packed := nonce + c.encrypt(key, nonce, plaintext);
    assert packed[..12] == nonce && packed[12..] == c.encrypt(key, nonce, plaintext);
  }

  /** Opening a stored buffer decrypts it, for keys of the lengths AES has; with any other it fails. */
  lemma OpeningIsExact(c: Crypto, key: Bytes, packed: Bytes)
    ensures OpenPacked(c, key, packed) == if |key| in {16, 24, 32} then Opened(c, key, packed) else None
  {
    assert |packed| < 12 ==> packed[..|packed|] == packed && packed[|packed|..] == [];
  }

  // ---- the laws can be met ----

  function Digits(w: string): Bytes {
    if w == [] then []
    else
      var x := w[0] as int;
      [x % 256, x / 256 % 256, x / 65536 % 256] + Digits(w[1..])
  }

  function FromDigits(b: Bytes): string
    decreases |b|
  {
    if |b| < 3 then []
    else
      var x: int := b[0] as int + 256 * (b[1] as int) + 65536 * (b[2] as int);
      (if 0 <= x < 0xD800 || 0xE000 <= x < 0x11_0000 then [x as char] else []) + FromDigits(b[3..])
  }

  lemma ThreeDigits(x: int)
    requires 0 <= x < 0x100_0000
    ensures x % 256 + 256 * (x / 256 % 256) + 65536 * (x / 65536 % 256) == x
  {
  }

  lemma {:induction false} DigitsRoundTrip(w: string)
    ensures FromDigits(Digits(w)) == w
  {
    if w != [] {
      DigitsRoundTrip(w[1..]);
      ThreeDigits(w[0] as int);
      assert Digits(w)[3..] == Digits(w[1..]);
      assert w == [w[0]] + w[1..];
    }
  }

  /** A toy instance: the ciphertext carries the key in front. */
  function Toy(): Crypto {
    Crypto(
      (p, s) => Zeros(32),
      (r, s) => Zeros(32),
      (k, n, p) => k + p,
      (k: Bytes, n: Bytes, x: Bytes) => if k <= x then Some(x[|k|..]) else None,
      (w, e) => Digits(w),
      b => Some(FromDigits(b))
    )
  }

  lemma ToyIsLawful()
    ensures Lawful(Toy())
  {
    var c := Toy();
    forall k: Bytes, n: Bytes, p: Bytes ensures c.decrypt(k, n, c.encrypt(k, n, p)) == Some(p) {
      assert (k + p)[|k|..] == p;
    }
    forall k: Bytes, k': Bytes, n: Bytes, p: Bytes | |k| == 32 && |k'| == 32 && k != k'
      ensures c.decrypt(k', n, c.encrypt(k, n, p)) == None
    {
      assert (k + p)[..32] == k;
    }
    forall w, e ensures c.decodePassword(c.encodePayload(w, e)) == Some(w) {
      DigitsRoundTrip(w);
    }
  }
}
