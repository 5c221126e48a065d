/** AES-256-GCM as an ideal AEAD (aead.py; section 2 of RFC 5116).

    The log records every sealing that ever happened. Opening succeeds exactly on
    logged tuples, so a blob nobody sealed is never accepted. */
module Aead {
  import opened Basics

  const AEAD_KEY_LENGTH := 32
  const NONCE_LENGTH := 12
  const TAG_LENGTH := 16

  type Nonce = b: Bytes | |b| == NONCE_LENGTH witness Zeros(NONCE_LENGTH)

  /** The cipher: key, nonce, associated data and plaintext give ciphertext and tag. */
  type Seal = (Bytes, Bytes, Bytes, Bytes) -> Bytes

  ghost predicate SoundSeal(seal: Seal) {
    && (forall k, n, a, m :: |seal(k, n, a, m)| == |m| + TAG_LENGTH)
    && (forall k, n, a, m, m' :: seal(k, n, a, m) == seal(k, n, a, m') ==> m == m')
  }

  datatype Sealed = Sealed(key: Bytes, nonce: Bytes, aad: Bytes, plaintext: Bytes, blob: Bytes)

  type Log = seq<Sealed>

  datatype Ciphertext = Ciphertext(nonce: Nonce, blob: Bytes)

  /** What a call that may seal something returns, with the log it leaves behind. */
  datatype Logged<+T> = Logged(log: Log, result: Result<T>)

  function Encrypt(seal: Seal, log: Log, key: Bytes, plaintext: Bytes, aad: Bytes,
                   nonce: Nonce): (r: Logged<Ciphertext>)
    ensures r.result.Ok? <==> |key| == AEAD_KEY_LENGTH
    ensures log <= r.log
  {
    if |key| != AEAD_KEY_LENGTH then Logged(log, Err(ValueError))
    else
      var blob := seal(key, nonce, aad, plaintext);
      Logged(log + [Sealed(key, nonce, aad, plaintext, blob)], Ok(Ciphertext(nonce, blob)))
  }

  predicate Matches(e: Sealed, key: Bytes, nonce: Bytes, blob: Bytes, aad: Bytes) {
    e.key == key && e.nonce == nonce && e.blob == blob && e.aad == aad
  }

  function Find(log: Log, key: Bytes, nonce: Bytes, blob: Bytes, aad: Bytes): (r: Option<Sealed>)
    ensures r.Some? <==> exists e :: e in log && Matches(e, key, nonce, blob, aad)
    ensures r.Some? ==> r.value in log && Matches(r.value, key, nonce, blob, aad)
  {
    if log == [] then None
    else if Matches(log[0], key, nonce, blob, aad) then Some(log[0])
    else Find(log[1..], key, nonce, blob, aad)
  }

  function Decrypt(log: Log, key: Bytes, nonce: Bytes, blob: Bytes, aad: Bytes): Result<Bytes> {
    if |key| != AEAD_KEY_LENGTH then Err(ValueError)
    else if |nonce| != NONCE_LENGTH || |blob| < TAG_LENGTH then Err(AuthenticationError)
    else
      match Find(log, key, nonce, blob, aad)
      case Some(e) => Ok(e.plaintext)
      case None => Err(AuthenticationError)
  }

  /** Every logged blob is what the cipher gives for the logged inputs. */
  ghost predicate SoundLog(seal: Seal, log: Log) {
    forall e :: e in log ==> e.blob == seal(e.key, e.nonce, e.aad, e.plaintext)
  }

  /** Decryption results survive later sealings. */
  lemma {:induction false} FindExtended(log: Log, more: Log, key: Bytes, nonce: Bytes, blob: Bytes, aad: Bytes)
    requires Find(log, key, nonce, blob, aad).Some?
    ensures Find(log + more, key, nonce, blob, aad) == Find(log, key, nonce, blob, aad)
  {
    assert (log + more)[1..] == log[1..] + more;
    if !Matches(log[0], key, nonce, blob, aad) {
      FindExtended(log[1..], more, key, nonce, blob, aad);
    }
  }

  lemma DecryptExtended(log: Log, log': Log, key: Bytes, nonce: Bytes, blob: Bytes, aad: Bytes)
    requires log <= log' && Decrypt(log, key, nonce, blob, aad).Ok?
    ensures Decrypt(log', key, nonce, blob, aad) == Decrypt(log, key, nonce, blob, aad)
  {
    assert log' == log + log'[|log|..];
    FindExtended(log, log'[|log|..], key, nonce, blob, aad);
  }

  /** Opening gives a plaintext exactly if that plaintext was sealed under the same key, nonce and
      associated data; a wrong key length is its own error, all else is one authentication error. */
  lemma DecryptIffSealed(seal: Seal, log: Log, key: Bytes, nonce: Bytes, blob: Bytes, aad: Bytes, m: Bytes)
    requires SoundSeal(seal) && SoundLog(seal, log)
    ensures Decrypt(log, key, nonce, blob, aad) == Ok(m) <==>
            |key| == 32 && |nonce| == 12 && Sealed(key, nonce, aad, m, blob) in log
    ensures Decrypt(log, key, nonce, blob, aad).Err? ==>
              Decrypt(log, key, nonce, blob, aad) == Err(if |key| == 32 then AuthenticationError else ValueError)
  {
    if Sealed(key, nonce, aad, m, blob) in log {
      assert Matches(Sealed(key, nonce, aad, m, blob), key, nonce, blob, aad);
    }
  }

  /** What was just sealed opens to its plaintext. */
  lemma DecryptEncrypt(seal: Seal, log: Log, key: Bytes, plaintext: Bytes, aad: Bytes, nonce: Nonce)
    requires SoundSeal(seal) && SoundLog(seal, log) && |key| == AEAD_KEY_LENGTH
    ensures var r := Encrypt(seal, log, key, plaintext, aad, nonce);
            && SoundLog(seal, r.log) && |r.result.value.blob| == |plaintext| + TAG_LENGTH
            && Decrypt(r.log, key, nonce, r.result.value.blob, aad) == Ok(plaintext)
  {
    var r := Encrypt(seal, log, key, plaintext, aad, nonce);
    assert r.log[|log|] in r.log;
    assert Matches(r.log[|log|], key, nonce, r.result.value.blob, aad);
    assert forall e :: e in r.log ==> e in log || e == r.log[|log|];
  }
}
