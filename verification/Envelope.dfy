/** The encrypted message envelope: Base64 of salt, nonce and sealed text. Argon2id and AES-GCM are parameters. */
module Envelope {
  import opened Options
  import opened Base64

  const SALT_SIZE := 16
  const NONCE_SIZE := 12

  /** The key derivation and the sealed box, which may refuse to open. */
  datatype Cipher = Cipher(
    deriveKey: (string, seq<Byte>) -> seq<Byte>,
    seal: (seq<Byte>, seq<Byte>, seq<Byte>) -> seq<Byte>,
    open: (seq<Byte>, seq<Byte>, seq<Byte>) -> Option<seq<Byte>>)
  {
    /** Under one key and nonce, opening undoes sealing. */
    ghost predicate Inverse() {
      forall key, nonce, text :: open(key, nonce, seal(key, nonce, text)) == Some(text)
    }
  }

  function Encrypt(plain: seq<Byte>, passphrase: string, salt: seq<Byte>, nonce: seq<Byte>, c: Cipher): string
    requires |salt| == SALT_SIZE && |nonce| == NONCE_SIZE
  {
    Encode(salt + (nonce + c.seal(c.deriveKey(passphrase, salt), nonce, plain)), true)
  }

  function Decrypt(text: string, passphrase: string, c: Cipher): Option<seq<Byte>> {
    var data :- Decode(text, true);
    if |data| < SALT_SIZE then None
    else
      var salt, rest := data[..SALT_SIZE], data[SALT_SIZE..];
      if |rest| < NONCE_SIZE then None
      else c.open(c.deriveKey(passphrase, salt), rest[..NONCE_SIZE], rest[NONCE_SIZE..])
  }

  /** Decrypting with any passphrase opens exactly the sealed text under the salt and nonce that were used. */
  lemma EnvelopeOpens(plain: seq<Byte>, passphrase: string, other: string, salt: seq<Byte>, nonce: seq<Byte>, c: Cipher)
    requires |salt| == SALT_SIZE && |nonce| == NONCE_SIZE
    ensures Decrypt(Encrypt(plain, passphrase, salt, nonce, c), other, c) ==
            c.open(c.deriveKey(other, salt), nonce, c.seal(c.deriveKey(passphrase, salt), nonce, plain))
  {
    var sealed := c.seal(c.deriveKey(passphrase, salt), nonce, plain);
    var data := salt + (nonce + sealed);
    RoundTrip(data, true);
    assert data[..SALT_SIZE] == salt && data[SALT_SIZE..] == nonce + sealed;
    assert (nonce + sealed)[..NONCE_SIZE] == nonce && (nonce + sealed)[NONCE_SIZE..] == sealed;
  }

  /** The right passphrase recovers every text, whatever the salt and nonce. */
  lemma EnvelopeRoundTrip(plain: seq<Byte>, passphrase: string, salt: seq<Byte>, nonce: seq<Byte>, c: Cipher)
    requires c.Inverse() && |salt| == SALT_SIZE && |nonce| == NONCE_SIZE
    ensures Decrypt(Encrypt(plain, passphrase, salt, nonce, c), passphrase, c) == Some(plain)
  {
    EnvelopeOpens(plain, passphrase, passphrase, salt, nonce, c);
  }

  /**
   * Exactly the padded Base64 texts of at least 28 bytes reach the cipher: the first 16 bytes are the salt of the key,
   * the next 12 the nonce, the rest is what is opened.
   */
  lemma DecryptIs(text: string, passphrase: string, c: Cipher)
    ensures var data := Decode(text, true);
            Decrypt(text, passphrase, c) ==
            if data.None? || |data.value| < 28 then None
            else c.open(c.deriveKey(passphrase, data.value[..16]), data.value[16..28], data.value[28..])
  {
    var data := Decode(text, true);
    if data.Some? && |data.value| >= 28 {
      assert data.value[16..][..12] == data.value[16..28] && data.value[16..][12..] == data.value[28..];
    }
  }
}
