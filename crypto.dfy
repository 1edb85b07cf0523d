/**
 * The vault envelope (src-tauri/src/crypto.rs): salt (32) ++ nonce (12) ++
 * AEAD(key, nonce, "CYKEL_V1" ++ plaintext). The key derivation (Argon2id)
 * and the cipher (AES-256-GCM, NIST SP 800-38D) are library code; they are
 * the function-valued fields of `Primitives`, and the properties the
 * envelope relies on are predicates over them that the lemmas require.
 */
module Crypto {
  import opened Wrappers

  newtype byte = x: int | 0 <= x < 0x100

  const SALT_LEN: nat := 32
  const NONCE_LEN: nat := 12
  const KEY_LEN: nat := 32
  /** Length of the authentication tag AES-GCM appends to every ciphertext. */
  const TAG_LEN: nat := 16
  /** "CYKEL_V1" in ASCII, prepended to the plaintext before sealing. */
  const MAGIC: seq<byte> := [0x43, 0x59, 0x4B, 0x45, 0x4C, 0x5F, 0x56, 0x31]
  /** Shortest input decrypt accepts: salt, nonce and room for the magic. */
  const MIN_LEN: nat := SALT_LEN + NONCE_LEN + |MAGIC|

  datatype CryptoError = KeyDerivation | Encryption | Decryption | InvalidFormat

  type Key = k: seq<byte> | |k| == KEY_LEN witness seq(KEY_LEN, _ => 0)

  /**
   * deriveKey(passphrase, salt) is Argon2id (64 MiB, 3 passes, 1 lane,
   * 32-byte output), failing as `hash_password_into` may; seal and open are
   * AES-256-GCM encryption and decryption with empty associated data.
   */
  datatype Primitives = Primitives(
    deriveKey: (string, seq<byte>) -> Option<Key>,
    seal: (Key, seq<byte>, seq<byte>) -> Option<seq<byte>>,
    open: (Key, seq<byte>, seq<byte>) -> Option<seq<byte>>)

  /** Opening what was sealed under the same key and nonce gives back the message. */
  ghost predicate AeadCorrect(p: Primitives) {
    forall k, n, m | p.seal(k, n, m).Some? ::
      |p.seal(k, n, m).value| == |m| + TAG_LEN && p.open(k, n, p.seal(k, n, m).value) == Some(m)
  }

  /** Opening under a different key fails authentication. */
  ghost predicate KeyBinding(p: Primitives) {
    forall k1, k2, n, m | k1 != k2 && p.seal(k1, n, m).Some? ::
      p.open(k2, n, p.seal(k1, n, m).value).None?
  }

  predicate HasMagic(decrypted: seq<byte>) {
    |decrypted| >= |MAGIC| && decrypted[..|MAGIC|] == MAGIC
  }

  /** What `encrypt` returns once its random salt and nonce are drawn. */
  function SealEnvelope(p: Primitives, passphrase: string, salt: seq<byte>, nonce: seq<byte>, plaintext: seq<byte>): (r: Result<seq<byte>, CryptoError>)
    requires |salt| == SALT_LEN && |nonce| == NONCE_LEN
    ensures r == Err(KeyDerivation) <==> p.deriveKey(passphrase, salt).None?
    ensures r == Err(Encryption) <==>
      p.deriveKey(passphrase, salt).Some? && p.seal(p.deriveKey(passphrase, salt).value, nonce, MAGIC + plaintext).None?
    ensures r.Ok? <==>
      p.deriveKey(passphrase, salt).Some? && p.seal(p.deriveKey(passphrase, salt).value, nonce, MAGIC + plaintext).Some?
    ensures r.Ok? ==>
      && |r.value| >= SALT_LEN + NONCE_LEN
      && r.value[..SALT_LEN] == salt
      && r.value[SALT_LEN..SALT_LEN + NONCE_LEN] == nonce
      && p.seal(p.deriveKey(passphrase, salt).value, nonce, MAGIC + plaintext) == Some(r.value[SALT_LEN + NONCE_LEN..])
  {
    match p.deriveKey(passphrase, salt)
    case None => Err(KeyDerivation)
    case Some(key) =>
      match p.seal(key, nonce, MAGIC + plaintext)
      case None => Err(Encryption)
      case Some(ciphertext) =>
        var out := salt + nonce + ciphertext;
        assert out[..SALT_LEN] == salt;
        assert out[SALT_LEN..SALT_LEN + NONCE_LEN] == nonce;
        assert out[SALT_LEN + NONCE_LEN..] == ciphertext;
        Ok(out)
  }

  /**
   * `encrypt`, with the salt and nonce that `rand::thread_rng` would fill
   * given as parameters. The payload and the output are built by appending,
   * as the source extends its vectors.
   */
  method Encrypt(p: Primitives, passphrase: string, salt: seq<byte>, nonce: seq<byte>, plaintext: seq<byte>)
    returns (r: Result<seq<byte>, CryptoError>)
    requires |salt| == SALT_LEN && |nonce| == NONCE_LEN
    ensures r == SealEnvelope(p, passphrase, salt, nonce, plaintext)
    ensures AeadCorrect(p) && r.Ok? ==> Decrypt(p, passphrase, r.value) == Ok(plaintext)
  {
    var key := p.deriveKey(passphrase, salt);
    if key.None? {
      return Err(KeyDerivation);
    }
    var payload: seq<byte> := [];
    payload := payload + MAGIC;
    payload := payload + plaintext;
    assert payload == MAGIC + plaintext;
    var ciphertext := p.seal(key.value, nonce, payload);
    if ciphertext.None? {
      return Err(Encryption);
    }
    var output: seq<byte> := [];
    output := output + salt;
    output := output + nonce;
    output := output + ciphertext.value;
    assert output == salt + nonce + ciphertext.value;
    r := Ok(output);
    RoundTrip(p, passphrase, salt, nonce, plaintext);
  }

  /** `decrypt`: length check, split at fixed offsets, open, check and strip the magic. */
  function Decrypt(p: Primitives, passphrase: string, encrypted: seq<byte>): (r: Result<seq<byte>, CryptoError>)
    ensures r == Err(InvalidFormat) <==> |encrypted| < MIN_LEN
    ensures r.Err? ==> r.error != Encryption
    ensures r == Err(KeyDerivation) <==>
      |encrypted| >= MIN_LEN && p.deriveKey(passphrase, encrypted[..SALT_LEN]).None?
    ensures r.Ok? ==>
      && |encrypted| >= MIN_LEN
      && p.deriveKey(passphrase, encrypted[..SALT_LEN]).Some?
      && p.open(p.deriveKey(passphrase, encrypted[..SALT_LEN]).value,
                encrypted[SALT_LEN..SALT_LEN + NONCE_LEN],
                encrypted[SALT_LEN + NONCE_LEN..]) == Some(MAGIC + r.value)
  {
    if |encrypted| < SALT_LEN + NONCE_LEN + |MAGIC| then
      Err(InvalidFormat)
    else
      var salt := encrypted[..SALT_LEN];
      var nonce := encrypted[SALT_LEN..SALT_LEN + NONCE_LEN];
      var ciphertext := encrypted[SALT_LEN + NONCE_LEN..];
      match p.deriveKey(passphrase, salt)
      case None => Err(KeyDerivation)
      case Some(key) =>
        match p.open(key, nonce, ciphertext)
        case None => Err(Decryption)
        case Some(decrypted) =>
          if !HasMagic(decrypted) then
            Err(Decryption)
          else
            assert decrypted == MAGIC + decrypted[|MAGIC|..];
            Ok(decrypted[|MAGIC|..])
  }

  /**
   * No oracle: once the key is derived, an authentication failure and a
   * magic mismatch both give `Decryption`, and these are the only ways the
   * rest of decrypt can fail.
   */
  lemma DecryptFailuresAgree(p: Primitives, passphrase: string, encrypted: seq<byte>)
    requires |encrypted| >= MIN_LEN
    requires p.deriveKey(passphrase, encrypted[..SALT_LEN]).Some?
    ensures var unsealed := p.open(p.deriveKey(passphrase, encrypted[..SALT_LEN]).value,
                                 encrypted[SALT_LEN..SALT_LEN + NONCE_LEN],
                                 encrypted[SALT_LEN + NONCE_LEN..]);
      && (unsealed.None? ==> Decrypt(p, passphrase, encrypted) == Err(Decryption))
      && (unsealed.Some? && !HasMagic(unsealed.value) ==> Decrypt(p, passphrase, encrypted) == Err(Decryption))
      && (unsealed.Some? && HasMagic(unsealed.value) ==> Decrypt(p, passphrase, encrypted) == Ok(unsealed.value[|MAGIC|..]))
  {
  }

  /** decrypt(p, encrypt(p, data)) == data, for every salt and nonce. */
  lemma RoundTrip(p: Primitives, passphrase: string, salt: seq<byte>, nonce: seq<byte>, plaintext: seq<byte>)
    requires |salt| == SALT_LEN && |nonce| == NONCE_LEN
    ensures AeadCorrect(p) && SealEnvelope(p, passphrase, salt, nonce, plaintext).Ok? ==>
      Decrypt(p, passphrase, SealEnvelope(p, passphrase, salt, nonce, plaintext).value) == Ok(plaintext)
  {
    var env := SealEnvelope(p, passphrase, salt, nonce, plaintext);
    if AeadCorrect(p) && env.Ok? {
      var key := p.deriveKey(passphrase, salt).value;
      var ciphertext := env.value[SALT_LEN + NONCE_LEN..];
      assert p.seal(key, nonce, MAGIC + plaintext) == Some(ciphertext);
      assert p.open(key, nonce, ciphertext) == Some(MAGIC + plaintext);
      assert |ciphertext| >= |MAGIC|;
      assert (MAGIC + plaintext)[..|MAGIC|] == MAGIC;
      assert (MAGIC + plaintext)[|MAGIC|..] == plaintext;
    }
  }

  /**
   * An envelope sealed under one passphrase does not open under another
   * that derives a different key from the envelope's salt.
   */
  lemma WrongPassphraseFails(p: Primitives, right: string, wrong: string, salt: seq<byte>, nonce: seq<byte>, plaintext: seq<byte>)
    requires |salt| == SALT_LEN && |nonce| == NONCE_LEN
    requires AeadCorrect(p) && KeyBinding(p)
    requires p.deriveKey(wrong, salt) != p.deriveKey(right, salt)
    requires SealEnvelope(p, right, salt, nonce, plaintext).Ok?
    ensures var r := Decrypt(p, wrong, SealEnvelope(p, right, salt, nonce, plaintext).value);
      r == if p.deriveKey(wrong, salt).None? then Err(KeyDerivation) else Err(Decryption)
  {
    var env := SealEnvelope(p, right, salt, nonce, plaintext).value;
    var key := p.deriveKey(right, salt).value;
    var ciphertext := env[SALT_LEN + NONCE_LEN..];
    assert p.seal(key, nonce, MAGIC + plaintext) == Some(ciphertext);
    assert |env| >= MIN_LEN;
    if p.deriveKey(wrong, salt).Some? {
      var other := p.deriveKey(wrong, salt).value;
      assert other != key;
      assert p.open(other, nonce, ciphertext).None?;
    }
  }

  /** The envelope is 44 bytes of header followed by the ciphertext, whose length AES-GCM fixes. */
  lemma EnvelopeLength(p: Primitives, passphrase: string, salt: seq<byte>, nonce: seq<byte>, plaintext: seq<byte>)
    requires |salt| == SALT_LEN && |nonce| == NONCE_LEN
    requires AeadCorrect(p)
    requires SealEnvelope(p, passphrase, salt, nonce, plaintext).Ok?
    ensures |SealEnvelope(p, passphrase, salt, nonce, plaintext).value| == SALT_LEN + NONCE_LEN + |MAGIC| + |plaintext| + TAG_LEN
  {
    var key := p.deriveKey(passphrase, salt).value;
    assert p.seal(key, nonce, MAGIC + plaintext).Some?;
  }
}
