/** What each vault operation guarantees about the sealed log and about reopening its output. */
module VaultSessions {
  import opened Basics
  import opened Kdf
  import opened Aead
  import opened FileFormat
  import opened Vault

  /** The largest body whose blob length still fits the 32-bit length field. */
  const MAX_PLAINTEXT := U32_LIMIT - 1 - TAG_LENGTH

  predicate IsWrap(e: Sealed) {
    |e.aad| == KDF_HEADER_LENGTH
  }

  /** Invariant of the log: only vault code seals. Associated data is a KDF header (a wrapped
      data key) or a full header (a body), and no two wraps share a KDF header, because each
      carries a salt that was fresh when it was drawn. */
  ghost predicate LogInv(p: Primitives, log: Log, salts: set<Bytes>) {
    && SoundLog(p.seal, log)
    && (forall e :: e in log ==> IsWrap(e) || |e.aad| == FULL_HEADER_LENGTH)
    && (forall e :: e in log && IsWrap(e) ==> |e.plaintext| == DEK_LENGTH && e.aad[20..36] in salts)
    && (forall i, j :: 0 <= i < j < |log| && IsWrap(log[i]) && IsWrap(log[j]) ==> log[i].aad != log[j].aad)
  }

  lemma WrapUnique(p: Primitives, log: Log, salts: set<Bytes>, e: Sealed, e': Sealed)
    requires LogInv(p, log, salts) && e in log && e' in log && IsWrap(e) && e.aad == e'.aad
    ensures e == e'
  {
    var i :| 0 <= i < |log| && log[i] == e;
    var j :| 0 <= j < |log| && log[j] == e';
    assert i == j;
  }

  lemma LogInvSound(p: Primitives, log: Log, salts: set<Bytes>)
    requires LogInv(p, log, salts)
    ensures SoundLog(p.seal, log)
  {
  }

  lemma MoreSalts(p: Primitives, log: Log, salts: set<Bytes>, salt: Bytes)
    requires LogInv(p, log, salts)
    ensures LogInv(p, log, salts + {salt})
  {
    assert forall e :: e in log && IsWrap(e) ==> e.aad[20..36] in salts + {salt};
  }

  lemma LogInvExtended(p: Primitives, log: Log, salts: set<Bytes>, e: Sealed, salts': set<Bytes>)
    requires LogInv(p, log, salts) && salts <= salts' && e.blob == p.seal(e.key, e.nonce, e.aad, e.plaintext)
    requires IsWrap(e) ==> |e.plaintext| == DEK_LENGTH && e.aad[20..36] !in salts && e.aad[20..36] in salts'
    requires !IsWrap(e) ==> |e.aad| == FULL_HEADER_LENGTH
    ensures LogInv(p, log + [e], salts')
  {
    var log' := log + [e];
    assert forall x :: x in log' ==> x in log || x == e;
    forall i, j | 0 <= i < j < |log'| && IsWrap(log'[i]) && IsWrap(log'[j])
      ensures log'[i].aad != log'[j].aad
    {
      assert log'[i] in log && log'[i].aad[20..36] in salts;
    }
  }

  lemma WrapKeyOpens(p: Primitives, log: Log, salts: set<Bytes>, password: Bytes, salt: Salt,
                     params: Argon2Parameters, dek: Key, nonce: Nonce)
    requires p.Sound() && LogInv(p, log, salts) && params.InRange() && salt !in salts
    ensures var r := WrapKey(p, log, password, salt, params, dek, nonce);
            && r.result.Ok? && LogInv(p, r.log, salts + {salt})
            && BuildKdfHeader(params, salt) == Ok(r.result.value.kdfHeader)
            && r.result.value.sealed.nonce == nonce && |r.result.value.sealed.blob| == DEK_BLOB_LENGTH
            && r.result.value.sealed.blob == p.seal(p.argon2id(password, salt, params), nonce, r.result.value.kdfHeader, dek)
            && Decrypt(r.log, p.argon2id(password, salt, params), nonce, r.result.value.sealed.blob, r.result.value.kdfHeader) == Ok(dek)
            && (forall e :: e in r.log && !IsWrap(e) ==> e in log)
  {
    KdfHeaderFields(params, salt);
    var header := BuildKdfHeader(params, salt).value;
    var kek := p.argon2id(password, salt, params);
    DecryptEncrypt(p.seal, log, kek, dek, header, nonce);
    LogInvExtended(p, log, salts, Sealed(kek, nonce, header, dek, p.seal(kek, nonce, header, dek)), salts + {salt});
  }

  /** A password unlocks a session's wrap. */
  ghost predicate Unlocks(p: Primitives, log: Log, password: Bytes, params: Argon2Parameters, salt: Bytes,
                          kdfHeader: Bytes,
                          dekNonce: Bytes, dekBlob: Bytes, dek: Bytes)
  {
    && params.InRange() && |salt| == SALT_LENGTH && BuildKdfHeader(params, salt) == Ok(kdfHeader)
    && |dekNonce| == NONCE_LENGTH && |dekBlob| == DEK_BLOB_LENGTH && |dek| == DEK_LENGTH
    && Decrypt(log, p.argon2id(password, salt, params), dekNonce, dekBlob, kdfHeader) == Ok(dek)
  }

  /** Sealing a file succeeds exactly when the counter and the body fit their fields, and the
      file then opens to what was sealed. */
  lemma SealFileOpens(p: Primitives, log: Log, salts: set<Bytes>, password: Bytes, params: Argon2Parameters,
                      salt: Bytes, counter: int,
                      kdfHeader: Bytes, dekNonce: Bytes, dekBlob: Bytes, dek: Bytes, plaintext: Bytes, nonce: Nonce)
    requires p.Sound() && LogInv(p, log, salts)
    requires Unlocks(p, log, password, params, salt, kdfHeader, dekNonce, dekBlob, dek)
    ensures var r := SealFile(p, log, params, salt, counter, kdfHeader, dekNonce, dekBlob, dek, plaintext, nonce);
            && LogInv(p, r.log, salts)
            && (r.result.Ok? <==> 0 <= counter < U64_LIMIT && |plaintext| <= MAX_PLAINTEXT)
            && (r.result.Ok? ==>
                  OpenSession(p, r.log, password, r.result.value)
                  == Ok(Session(params, salt, counter, kdfHeader, dekNonce, dekBlob, dek, plaintext, false)))
            && SealsOnly(p, log, r, plaintext)
  {
    FullHeaderFields(params, salt, counter);
    hide Parse, Serialize, BuildKdfHeader, BuildFullHeader, Find, LogInv, SoundLog, SoundSeal;
    assert SoundLog(p.seal, log) by { LogInvSound(p, log, salts); }
    var r := SealFile(p, log, params, salt, counter, kdfHeader, dekNonce, dekBlob, dek, plaintext, nonce);
    if 0 <= counter < U64_LIMIT {
      var header := BuildFullHeader(params, salt, counter).value;
      var e := Sealed(dek, nonce, header, plaintext, p.seal(dek, nonce, header, plaintext));
      DecryptEncrypt(p.seal, log, dek, plaintext, header, nonce);
      LogInvExtended(p, log, salts, e, salts);
      SerializeFailsIff(params, salt, counter, dekNonce, dekBlob, nonce, e.blob);
      if |plaintext| <= MAX_PLAINTEXT {
        ParseSerialize(params, salt, counter, dekNonce, dekBlob, nonce, e.blob);
        DecryptExtended(log, r.log, p.argon2id(password, salt, params), dekNonce, dekBlob, kdfHeader);
      }
    }
  }

  /** Whatever a file-sealing call adds to the log is the body of the file it returns, or too
      long to be the body of any file. */
  ghost predicate SealsOnly(p: Primitives, log: Log, r: Logged<Bytes>, plaintext: Bytes) {
    forall e :: e in r.log && e !in log && !IsWrap(e) && |e.blob| < U32_LIMIT ==>
      r.result.Ok? && BodyOf(e, r.result.value) && e.plaintext == plaintext
  }

  /** A wrap before the file adds no body to the log. */
  lemma SealsOnlyAfterWrap(p: Primitives, log: Log, wrapped: Log, r: Logged<Bytes>, plaintext: Bytes)
    requires forall e :: e in wrapped && !IsWrap(e) ==> e in log
    requires SealsOnly(p, wrapped, r, plaintext)
    ensures SealsOnly(p, log, r, plaintext)
  {
  }

  lemma NothingSealed(p: Primitives, log: Log, r: Result<Bytes>, plaintext: Bytes)
    ensures SealsOnly(p, log, Logged(log, r), plaintext)
  {
  }

  predicate BodyOf(e: Sealed, data: Bytes) {
    var f := Parse(data);
    f.Ok? && f.value.fullHeader == e.aad && f.value.bodyNonce == e.nonce && f.value.bodyBlob == e.blob
  }

  /** What a successful open says about the session it returns. */
  lemma OpenFacts(p: Primitives, log: Log, salts: set<Bytes>, password: Bytes, data: Bytes)
    requires p.Sound() && LogInv(p, log, salts) && OpenSession(p, log, password, data).Ok?
    ensures var s := OpenSession(p, log, password, data).value;
            && !s.closed && 0 <= s.counter < U64_LIMIT
            && Parse(data).Ok? && Parse(data).value.counter == s.counter
            && Unlocks(p, log, password, s.params, s.salt, s.kdfHeader, s.dekNonce, s.dekBlob, s.dek)
  {
    SerializeParse(data);
  }

  lemma OpenExtended(p: Primitives, log: Log, log': Log, password: Bytes, data: Bytes)
    requires log <= log' && OpenSession(p, log, password, data).Ok?
    ensures OpenSession(p, log', password, data) == OpenSession(p, log, password, data)
  {
    var f := Parse(data).value;
    var kek := DeriveKey(p.argon2id, password, f.salt, f.params).value;
    DecryptExtended(log, log', kek, f.dekNonce, f.dekBlob, f.kdfHeader);
    var dek := Decrypt(log, kek, f.dekNonce, f.dekBlob, f.kdfHeader).value;
    DecryptExtended(log, log', dek, f.bodyNonce, f.bodyBlob, f.fullHeader);
  }

  function CostsOrDefault(params: Option<Argon2Parameters>): Argon2Parameters {
    if params.Some? then params.value else DEFAULT_PARAMETERS
  }

  /** The state a new vault is in: counter 0, the given plaintext, and the drawn data key wrapped
      under the password. */
  function CreatedSession(p: Primitives, password: Bytes, plaintext: Bytes, params: Option<Argon2Parameters>,
                          d: CreateDraw): Session
    requires CostsOrDefault(params).InRange()
  {
    var costs := CostsOrDefault(params);
    KdfHeaderFields(costs, d.salt);
    var header := BuildKdfHeader(costs, d.salt).value;
    var blob := p.seal(p.argon2id(password, d.salt, costs), d.wrapNonce, header, d.dek);
    Session(costs, d.salt, 0, header, d.wrapNonce, blob, d.dek, plaintext, false)
  }

  /** `create` fails only on out-of-range costs or an oversized body, and its file opens to the
      state of a new vault. */
  lemma CreateOpens(p: Primitives, log: Log, salts: set<Bytes>, password: Bytes, plaintext: Bytes,
                    params: Option<Argon2Parameters>, d: CreateDraw)
    requires p.Sound() && LogInv(p, log, salts) && d.salt !in salts
    ensures var r := CreateFile(p, log, password, plaintext, params, d);
            && LogInv(p, r.log, salts + {d.salt})
            && (r.result.Ok? <==> CostsOrDefault(params).InRange() && |plaintext| <= MAX_PLAINTEXT)
            && (r.result.Ok? ==>
                  Reopens(p, r.log, password, r.result.value, CreatedSession(p, password, plaintext, params, d)))
            && SealsOnly(p, log, r, plaintext)
  {
    var ps := CostsOrDefault(params);
    if ps.InRange() {
      WrapKeyOpens(p, log, salts, password, d.salt, ps, d.dek, d.wrapNonce);
      var w := WrapKey(p, log, password, d.salt, ps, d.dek, d.wrapNonce);
      SealFileOpens(p, w.log, salts + {d.salt}, password, ps, d.salt, 0, w.result.value.kdfHeader,
                    w.result.value.sealed.nonce, w.result.value.sealed.blob, d.dek, plaintext, d.bodyNonce);
      SealsOnlyAfterWrap(p, log, w.log, CreateFile(p, log, password, plaintext, params, d), plaintext);
    }
  }

  /** A session that its last file reopens to: the state every open session is in. */
  predicate Reopens(p: Primitives, log: Log, password: Bytes, data: Bytes, s: Session) {
    OpenSession(p, log, password, data) == Ok(s)
  }

  lemma SaveOpens(p: Primitives, log: Log, salts: set<Bytes>, password: Bytes, last: Bytes, s: Session,
                  plaintext: Bytes, nonce: Nonce)
    requires p.Sound() && LogInv(p, log, salts) && Reopens(p, log, password, last, s)
    ensures var r := SaveSession(p, log, s, plaintext, nonce);
            && LogInv(p, r.log, salts) && Reopens(p, r.log, password, last, s)
            && (r.result.Ok? <==> s.counter + 1 < U64_LIMIT && |plaintext| <= MAX_PLAINTEXT)
            && (r.result.Ok? ==> Reopens(p, r.log, password, r.result.value, r.session)
                                 && r.session == s.(plaintext := plaintext, counter := s.counter + 1))
            && (r.result.Err? ==> r.session == s)
            && SealsOnly(p, log, Logged(r.log, r.result), plaintext)
  {
    OpenFacts(p, log, salts, password, last);
    SealFileOpens(p, log, salts, password, s.params, s.salt, s.counter + 1, s.kdfHeader, s.dekNonce, s.dekBlob, s.dek, plaintext, nonce);
    OpenExtended(p, log, SaveSession(p, log, s, plaintext, nonce).log, password, last);
  }

  lemma ChangeOpens(p: Primitives, log: Log, salts: set<Bytes>, password: Bytes, last: Bytes, s: Session,
                    newPassword: Bytes, newParams: Option<Argon2Parameters>, d: ChangeDraw)
    requires p.Sound() && LogInv(p, log, salts) && Reopens(p, log, password, last, s) && d.salt !in salts
    ensures var r := ChangeSession(p, log, s, newPassword, newParams, d);
            && LogInv(p, r.log, salts + {d.salt}) && Reopens(p, r.log, password, last, s)
            && (r.result.Ok? <==> (newParams.Some? ==> newParams.value.InRange()) && s.counter + 1 < U64_LIMIT && |s.plaintext| <= MAX_PLAINTEXT)
            && (r.result.Ok? ==> Reopens(p, r.log, newPassword, r.result.value, r.session)
                                 && r.session.dek == s.dek && r.session.plaintext == s.plaintext
                                 && r.session.counter == s.counter + 1 && r.session.salt == d.salt
                                 && r.session.params == if newParams.Some? then newParams.value else s.params)
            && (r.result.Err? ==> r.session == s)
            && SealsOnly(p, log, Logged(r.log, r.result), s.plaintext)
  {
    hide OpenSession, WrapKey, SealFile, SealsOnly, LogInv, Decrypt, BuildKdfHeader;
    OpenFacts(p, log, salts, password, last);
    var r := ChangeSession(p, log, s, newPassword, newParams, d);
    OpenExtended(p, log, r.log, password, last);
    var ps := if newParams.Some? then newParams.value else s.params;
    if ps.InRange() {
      WrapKeyOpens(p, log, salts, newPassword, d.salt, ps, s.dek, d.wrapNonce);
      var w := WrapKey(p, log, newPassword, d.salt, ps, s.dek, d.wrapNonce);
      SealFileOpens(p, w.log, salts + {d.salt}, newPassword, ps, d.salt, s.counter + 1, w.result.value.kdfHeader,
                    w.result.value.sealed.nonce, w.result.value.sealed.blob, s.dek, s.plaintext, d.bodyNonce);
      SealsOnlyAfterWrap(p, log, w.log, Logged(r.log, r.result), s.plaintext);
    } else {
      MoreSalts(p, log, salts, d.salt);
      NothingSealed(p, log, r.result, s.plaintext);
    }
  }

  /** Any two passwords that open a file derive the same key and open it to the same session. */
  lemma OpenAgree(p: Primitives, log: Log, salts: set<Bytes>, password: Bytes, password': Bytes, data: Bytes)
    requires LogInv(p, log, salts)
    requires OpenSession(p, log, password, data).Ok? && OpenSession(p, log, password', data).Ok?
    ensures OpenSession(p, log, password, data) == OpenSession(p, log, password', data)
    ensures var s := OpenSession(p, log, password, data).value;
            p.argon2id(password, s.salt, s.params) == p.argon2id(password', s.salt, s.params)
  {
    var f := Parse(data).value;
    var w := Find(log, p.argon2id(password, f.salt, f.params), f.dekNonce, f.dekBlob, f.kdfHeader);
    var w' := Find(log, p.argon2id(password', f.salt, f.params), f.dekNonce, f.dekBlob, f.kdfHeader);
    WrapUnique(p, log, salts, w.value, w'.value);
  }

  /** Which error an open raises does not depend on the password, except for authentication:
      a malformed file gives the format error under every password, and a well-formed file never
      does. No other error (a bad key length, a bad salt length) can occur. */
  lemma OpenErrors(p: Primitives, log: Log, salts: set<Bytes>, password: Bytes, password': Bytes, data: Bytes)
    requires p.Sound() && LogInv(p, log, salts)
    ensures OpenSession(p, log, password, data) == Err(FormatError) <==> OpenSession(p, log, password', data) == Err(FormatError)
    ensures OpenSession(p, log, password, data) == Err(FormatError) <==> Parse(data).Err?
    ensures OpenSession(p, log, password, data).Err? && Parse(data).Ok? ==>
              OpenSession(p, log, password, data) == Err(AuthenticationError)
  {
    if Parse(data).Ok? {
      SerializeParse(data);
    }
  }

  /** A save counter is not unique among all files ever emitted: two sessions on the same file, or
      a save after a write that never reached the disk and a reopen, seal different bodies under
      the same counter. */
  lemma BranchesShareCounters(p: Primitives, log: Log, salts: set<Bytes>, password: Bytes, file: Bytes,
                              plaintext: Bytes, plaintext': Bytes, nonce: Nonce, nonce': Nonce)
    requires p.Sound() && LogInv(p, log, salts) && OpenSession(p, log, password, file).Ok?
    requires OpenSession(p, log, password, file).value.counter + 1 < U64_LIMIT
    requires plaintext != plaintext' && |plaintext| <= MAX_PLAINTEXT && |plaintext'| <= MAX_PLAINTEXT
    ensures var s := OpenSession(p, log, password, file).value;
            var a := SaveSession(p, log, s, plaintext, nonce);
            var b := SaveSession(p, a.log, s, plaintext', nonce');
            && a.result.Ok? && b.result.Ok? && a.result != b.result
            && Parse(a.result.value).Ok? && Parse(b.result.value).Ok?
            && Parse(a.result.value).value.counter == Parse(b.result.value).value.counter == s.counter + 1
  {
    var s := OpenSession(p, log, password, file).value;
    hide SealFile, OpenSession, Parse;
    SaveOpens(p, log, salts, password, file, s, plaintext, nonce);
    var a := SaveSession(p, log, s, plaintext, nonce);
    SaveOpens(p, a.log, salts, password, file, s, plaintext', nonce');
    var b := SaveSession(p, a.log, s, plaintext', nonce');
    OpenFacts(p, a.log, salts, password, a.result.value);
    OpenFacts(p, b.log, salts, password, b.result.value);
    OpenExtended(p, a.log, b.log, password, a.result.value);
  }
}
