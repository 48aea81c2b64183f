/** The cryptographic primitives as functions on bytes, and the size checks around the AEAD. */
module Primitives {
  import opened Common
  import opened ByteCoding
  import opened Wire

  /**
   `agree` yields nothing for a non-contributory result, `open` nothing for a body
   that does not authenticate; `seal` takes the nonce it is to use.
   */
  datatype Primitives = Primitives(
    publicKey: Bytes32 -> Bytes32,
    agree: (Bytes32, Bytes32) -> Option<Bytes32>,
    derive: (Bytes, string, Bytes) -> Bytes32,
    seal: (Bytes32, AeadSuite, Bytes, Bytes, Bytes) -> Bytes,
    open: (Bytes32, AeadSuite, Bytes, Bytes, Bytes) -> Option<Bytes>)

  /** What is assumed of the primitives: agreement is symmetric, opening undoes sealing, the tag has 16 bytes. */
  ghost predicate Sound(c: Primitives) {
    && (forall a, b :: c.agree(a, c.publicKey(b)) == c.agree(b, c.publicKey(a)))
    && (forall key, suite, nonce, aad, plaintext ::
          var body := c.seal(key, suite, nonce, aad, plaintext);
          |body| == |plaintext| + AEAD_TAG_LEN && c.open(key, suite, nonce, aad, body) == Some(plaintext))
  }

  /** What was sealed with `key` over `aad` opens with no other key and over no other associated data. */
  ghost predicate TellsApart(c: Primitives, key: Bytes32, aad: Bytes) {
    forall k, suite, nonce, a, plaintext ::
      c.open(k, suite, nonce, a, c.seal(key, suite, nonce, aad, plaintext)).Some? ==> k == key && a == aad
  }

  /**
   The assumptions can be met, together with integrity for the key and the associated
   data at hand. For all associated data at once they could not be: a tag has 16 bytes.
   */
  lemma {:induction false} SoundPrimitivesExist(key: Bytes32, aad: Bytes)
    ensures exists c :: Sound(c) && TellsApart(c, key, aad)
  {
    var zero: Bytes32 := Zeros(32);
    var tag := (k: Bytes32, a: Bytes) => if k == key && a == aad then Zeros(16) else seq(16, _ => 1);
    var c := Primitives(
      (s: Bytes32) => s,
      (a: Bytes32, b: Bytes32) => Some(zero),
      (salt: Bytes, domain: string, input: Bytes) => zero,
      (k: Bytes32, suite: AeadSuite, nonce: Bytes, a: Bytes, p: Bytes) => tag(k, a) + p,
      (k: Bytes32, suite: AeadSuite, nonce: Bytes, a: Bytes, body: Bytes) =>
        if |body| < 16 || body[..16] != tag(k, a) then None else Some(body[16..]));
    assert Sound(c);
    assert TellsApart(c, key, aad) by {
      forall k, suite, nonce, a, p | c.open(k, suite, nonce, a, c.seal(key, suite, nonce, aad, p)).Some?
        ensures k == key && a == aad
      {
        assert (Zeros(16) + p)[..16][0] == 0;
      }
    }
  }

  /** AEAD sealing with the nonce the generator delivered, if it did. */
  function SealedWith(c: Primitives, key: Bytes32, suite: AeadSuite, aad: Bytes, plaintext: Bytes, nonce: Option<Bytes>)
    : Result<Ciphertext>
  {
    if |aad| > MAX_AAD_LEN || |plaintext| > MAX_CIPHERTEXT_LEN - AEAD_TAG_LEN then Err(InvalidLength)
    else if nonce.None? then Err(RandomnessUnavailable)
    else
      var sealed := Ciphertext(suite, nonce.value, c.seal(key, suite, nonce.value, aad, plaintext));
      if sealed.Valid() then Ok(sealed) else Err(InvalidLength)
  }

  function OpenedWith(c: Primitives, key: Bytes32, sealed: Ciphertext, aad: Bytes): Result<Bytes> {
    if |aad| > MAX_AAD_LEN then Err(InvalidLength)
    else
      match c.open(key, sealed.suite, sealed.nonce, aad, sealed.body)
      case None => Err(AuthenticationFailed)
      case Some(plaintext) => Ok(plaintext)
  }

  /** Sealing succeeds exactly within the size limits, and opens again to the plaintext. */
  lemma {:induction false} SealThenOpen(c: Primitives, key: Bytes32, suite: AeadSuite, aad: Bytes, plaintext: Bytes,
                                        nonce: Bytes)
    requires Sound(c) && |nonce| == suite.NonceLen()
    ensures var r := SealedWith(c, key, suite, aad, plaintext, Some(nonce));
            && (r.Ok? <==> |aad| <= MAX_AAD_LEN && |plaintext| + AEAD_TAG_LEN <= MAX_CIPHERTEXT_LEN)
            && (r.Err? ==> r.error == InvalidLength)
            && (r.Ok? ==>
                  && r.value.Valid() && r.value.suite == suite && |r.value.body| == |plaintext| + AEAD_TAG_LEN
                  && OpenedWith(c, key, r.value, aad) == Ok(plaintext))
  {
    var body := c.seal(key, suite, nonce, aad, plaintext);
    assert |body| == |plaintext| + AEAD_TAG_LEN;
  }
}
