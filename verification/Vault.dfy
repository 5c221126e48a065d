/** Envelope encryption: create, open, save, change password, close (vault.py).

    The functions say what each operation computes; class `UnlockedVault` does the
    same in place, wiping its buffers. Values drawn from the system's random source
    are parameters. */
module Vault {
  import opened Basics
  import opened Kdf
  import opened Aead
  import opened FileFormat

  type Salt = b: Bytes | |b| == SALT_LENGTH witness Zeros(SALT_LENGTH)

  type Key = b: Bytes | |b| == DEK_LENGTH witness Zeros(DEK_LENGTH)

  /** The two primitives the vault is built on. */
  datatype Primitives = Primitives(argon2id: Argon2id, seal: Seal) {
    ghost predicate Sound() {
      && SoundSeal(seal)
      && (forall pw, salt, params :: |argon2id(pw, salt, params)| == KEY_LENGTH)
    }
  }

  /** The state of an `UnlockedVault`. */
  datatype Session = Session(
    params: Argon2Parameters,
    salt: Bytes,
    counter: int,
    kdfHeader: Bytes,
    dekNonce: Bytes,
    dekBlob: Bytes,
    dek: Bytes,
    plaintext: Bytes,
    closed: bool)

  datatype CreateDraw = CreateDraw(salt: Salt, dek: Key, wrapNonce: Nonce, bodyNonce: Nonce)

  datatype ChangeDraw = ChangeDraw(salt: Salt, wrapNonce: Nonce, bodyNonce: Nonce)

  /** A state-changing call on a session: the state and log after it, and the file or error. */
  datatype SessionStep = SessionStep(session: Session, log: Log, result: Result<Bytes>)

  datatype Wrap = Wrap(kdfHeader: Bytes, sealed: Ciphertext)

  /** Wraps the data key under the password-derived key, bound to the KDF header. */
  function WrapKey(p: Primitives, log: Log, password: Bytes, salt: Bytes, params: Argon2Parameters, dek: Bytes,
                   nonce: Nonce)
    : (r: Logged<Wrap>)
    ensures log <= r.log
  {
    match DeriveKey(p.argon2id, password, salt, params)
    case Err(e) => Logged(log, Err(e))
    case Ok(kek) =>
      match BuildKdfHeader(params, salt)
      case Err(e) => Logged(log, Err(e))
      case Ok(header) =>
        var w := Encrypt(p.seal, log, kek, dek, header, nonce);
        match w.result
        case Err(e) => Logged(w.log, Err(e))
        case Ok(c) => Logged(w.log, Ok(Wrap(header, c)))
  }

  /** Seals the body under the data key, bound to the full header, and assembles the file. */
  function SealFile(p: Primitives, log: Log, params: Argon2Parameters, salt: Bytes, counter: int, kdfHeader: Bytes,
                    dekNonce: Bytes, dekBlob: Bytes, dek: Bytes, plaintext: Bytes, nonce: Nonce): (r: Logged<Bytes>)
    ensures log <= r.log
  {
    match BuildFullHeader(params, salt, counter)
    case Err(e) => Logged(log, Err(e))
    case Ok(header) =>
      var b := Encrypt(p.seal, log, dek, plaintext, header, nonce);
      match b.result
      case Err(e) => Logged(b.log, Err(e))
      case Ok(c) => Logged(b.log, Serialize(kdfHeader, counter, dekNonce, dekBlob, c.nonce, c.blob))
  }

  function CreateFile(p: Primitives, log: Log, password: Bytes, plaintext: Bytes, params: Option<Argon2Parameters>,
                      d: CreateDraw)
    : (r: Logged<Bytes>)
    ensures log <= r.log
  {
    var params := if params.Some? then params.value else DEFAULT_PARAMETERS;
    if !params.InRange() then Logged(log, Err(FormatError))
    else
      var w := WrapKey(p, log, password, d.salt, params, d.dek, d.wrapNonce);
      match w.result
      case Err(e) => Logged(w.log, Err(e))
      case Ok(wrap) =>
        SealFile(p, w.log, params, d.salt, 0, wrap.kdfHeader, wrap.sealed.nonce, wrap.sealed.blob, d.dek, plaintext, d.bodyNonce)
  }

  function OpenSession(p: Primitives, log: Log, password: Bytes, data: Bytes): Result<Session> {
    var f :- Parse(data);
    var kek :- DeriveKey(p.argon2id, password, f.salt, f.params);
    var dek :- Decrypt(log, kek, f.dekNonce, f.dekBlob, f.kdfHeader);
    var body :- Decrypt(log, dek, f.bodyNonce, f.bodyBlob, f.fullHeader);
    Ok(Session(f.params, f.salt, f.counter, f.kdfHeader, f.dekNonce, f.dekBlob, dek, body, false))
  }

  function ReadSession(s: Session): Result<Bytes> {
    if s.closed then Err(ValueError) else Ok(s.plaintext)
  }

  function SaveSession(p: Primitives, log: Log, s: Session, plaintext: Bytes, nonce: Nonce): (r: SessionStep)
    ensures log <= r.log
  {
    if s.closed then SessionStep(s, log, Err(ValueError))
    else
      var counter := s.counter + 1;
      var f := SealFile(p, log, s.params, s.salt, counter, s.kdfHeader, s.dekNonce, s.dekBlob, s.dek, plaintext, nonce);
      SessionStep(if f.result.Ok? then s.(plaintext := plaintext, counter := counter) else s, f.log, f.result)
  }

  function ChangeSession(p: Primitives, log: Log, s: Session, password: Bytes, newParams: Option<Argon2Parameters>,
                         d: ChangeDraw)
    : (r: SessionStep)
    ensures log <= r.log
  {
    if s.closed then SessionStep(s, log, Err(ValueError))
    else
      var params := if newParams.Some? then newParams.value else s.params;
      if !params.InRange() then SessionStep(s, log, Err(FormatError))
      else
        var w := WrapKey(p, log, password, d.salt, params, s.dek, d.wrapNonce);
        match w.result
        case Err(e) => SessionStep(s, w.log, Err(e))
        case Ok(wrap) =>
          var counter := s.counter + 1;
          var f := SealFile(p, w.log, params, d.salt, counter, wrap.kdfHeader, wrap.sealed.nonce, wrap.sealed.blob,
                            s.dek, s.plaintext, d.bodyNonce);
          SessionStep(if f.result.Ok? then
                        Session(params, d.salt, counter, wrap.kdfHeader, wrap.sealed.nonce, wrap.sealed.blob, s.dek, s.plaintext, false)
                      else s,
                      f.log, f.result)
  }

  function CloseSession(s: Session): Session {
    if s.closed then s
    else s.(dek := Zeros(|s.dek|), plaintext := Zeros(|s.plaintext|), closed := true)
  }

  /** The primitives together with the record of what has been sealed with them. */
  class Engine {
    const primitives: Primitives
    var log: Log

    constructor (primitives: Primitives)
      ensures this.primitives == primitives && log == []
    {
      this.primitives := primitives;
      log := [];
    }

    method EncryptWith(key: Bytes, plaintext: Bytes, aad: Bytes, nonce: Nonce) returns (r: Result<Ciphertext>)
      modifies this
      ensures Logged(log, r) == Encrypt(primitives.seal, old(log), key, plaintext, aad, nonce)
    {
      if |key| != AEAD_KEY_LENGTH {
        return Err(ValueError);
      }
      var blob := primitives.seal(key, nonce, aad, plaintext);
      log := log + [Sealed(key, nonce, aad, plaintext, blob)];
      return Ok(Ciphertext(nonce, blob));
    }

    method WrapWith(password: Bytes, salt: Bytes, params: Argon2Parameters, dek: array<Byte>, nonce: Nonce)
      returns (r: Result<Wrap>)
      modifies this
      ensures Logged(log, r) == WrapKey(primitives, old(log), password, salt, params, dek[..], nonce)
    {
      var kek :- DeriveKey(primitives.argon2id, password, salt, params);
      var kdfHeader :- BuildKdfHeader(params, salt);
      var wrapped :- EncryptWith(kek, dek[..], kdfHeader, nonce);
      return Ok(Wrap(kdfHeader, wrapped));
    }

    method SealFileWith(params: Argon2Parameters, salt: Bytes, counter: int, kdfHeader: Bytes,
                        dekNonce: Bytes, dekBlob: Bytes, dek: array<Byte>, plaintext: Bytes, nonce: Nonce)
      returns (r: Result<Bytes>)
      modifies this
      ensures Logged(log, r) == SealFile(primitives, old(log), params, salt, counter, kdfHeader, dekNonce, dekBlob, dek[..], plaintext, nonce)
    {
      var fullHeader :- BuildFullHeader(params, salt, counter);
      var body :- EncryptWith(dek[..], plaintext, fullHeader, nonce);
      r := Serialize(kdfHeader, counter, dekNonce, dekBlob, body.nonce, body.blob);
    }
  }

  predicate AllZero(b: Bytes) {
    forall i :: 0 <= i < |b| ==> b[i] == 0
  }

  /** Overwrites the buffer with zero bytes (memory.py). */
  method Wipe(buffer: array<Byte>)
    modifies buffer
    ensures buffer[..] == Zeros(buffer.Length)
  {
    forall i | 0 <= i < buffer.Length {
      buffer[i] := 0;
    }
  }

  method Create(engine: Engine, password: Bytes, plaintext: Bytes, params: Option<Argon2Parameters>, d: CreateDraw)
    returns (r: Result<Bytes>)
    modifies engine
    ensures Logged(engine.log, r) == CreateFile(engine.primitives, old(engine.log), password, plaintext, params, d)
  {
    var params := if params.Some? then params.value else DEFAULT_PARAMETERS;
    if !params.InRange() {
      return Err(FormatError);
    }
    var dek := ToArray(d.dek);
    var wrap := engine.WrapWith(password, d.salt, params, dek, d.wrapNonce);
    if wrap.Ok? {
      r := engine.SealFileWith(params, d.salt, 0, wrap.value.kdfHeader, wrap.value.sealed.nonce, wrap.value.sealed.blob,
                               dek, plaintext, d.bodyNonce);
    } else {
      r := Err(wrap.error);
    }
    Wipe(dek);
  }

  method OpenVault(engine: Engine, password: Bytes, data: Bytes) returns (r: Result<UnlockedVault>)
    ensures r.Ok? ==> fresh(r.value) && fresh(r.value.Repr()) && r.value.Valid()
    ensures match OpenSession(engine.primitives, engine.log, password, data)
            case Ok(s) => r.Ok? && r.value.View() == s
            case Err(e) => r == Err(e)
  {
    var parsed :- Parse(data);
    var kek :- DeriveKey(engine.primitives.argon2id, password, parsed.salt, parsed.params);
    var dekBytes :- Decrypt(engine.log, kek, parsed.dekNonce, parsed.dekBlob, parsed.kdfHeader);
    var dek := ToArray(dekBytes);
    var body :- Decrypt(engine.log, dek[..], parsed.bodyNonce, parsed.bodyBlob, parsed.fullHeader);
    var plaintext := ToArray(body);
    var v := new UnlockedVault(parsed.params, parsed.salt, parsed.counter, parsed.kdfHeader,
                               parsed.dekNonce, parsed.dekBlob, dek, plaintext);
    return Ok(v);
  }

  class UnlockedVault {
    var params: Argon2Parameters
    var salt: Bytes
    var counter: int
    var kdfHeader: Bytes
    var dekNonce: Bytes
    var dekBlob: Bytes
    var dek: array<Byte>
    var plaintext: array<Byte>
    var closed: bool

    ghost predicate Valid()
      reads this
    {
      dek != plaintext
    }

    ghost function Repr(): set<object>
      reads this
    {
      {this, dek, plaintext}
    }

    ghost function View(): Session
      reads this, dek, plaintext
    {
      Session(params, salt, counter, kdfHeader, dekNonce, dekBlob, dek[..], plaintext[..], closed)
    }

    constructor (params: Argon2Parameters, salt: Bytes, counter: int, kdfHeader: Bytes,
                 dekNonce: Bytes, dekBlob: Bytes, dek: array<Byte>, plaintext: array<Byte>)
      requires dek != plaintext
      ensures Valid() && this.dek == dek && this.plaintext == plaintext
      ensures View() == Session(params, salt, counter, kdfHeader, dekNonce, dekBlob, dek[..], plaintext[..], false)
    {
      this.params := params;
      this.salt := salt;
      this.counter := counter;
      this.kdfHeader := kdfHeader;
      this.dekNonce := dekNonce;
      this.dekBlob := dekBlob;
      this.dek := dek;
      this.plaintext := plaintext;
      this.closed := false;
    }

    method Read() returns (r: Result<Bytes>)
      ensures r == ReadSession(View())
      ensures r == if closed then Err(ValueError) else Ok(plaintext[..])
    {
      if closed {
        return Err(ValueError);
      }
      return Ok(plaintext[..]);
    }

    method Save(engine: Engine, newPlaintext: Bytes, nonce: Nonce) returns (r: Result<Bytes>)
      requires Valid()
      modifies this, plaintext, engine
      ensures Valid() && dek == old(dek) && (plaintext == old(plaintext) || fresh(plaintext))
      ensures SessionStep(View(), engine.log, r) == SaveSession(engine.primitives, old(engine.log), old(View()), newPlaintext, nonce)
      ensures r.Ok? ==> forall i :: 0 <= i < old(plaintext).Length ==> old(plaintext)[i] == 0
      ensures r.Err? ==> View() == old(View()) && plaintext == old(plaintext)
      ensures old(closed) ==> r == Err(ValueError) && engine.log == old(engine.log)
    {
      if closed {
        return Err(ValueError);
      }
      var newCounter := counter + 1;
      var data :- engine.SealFileWith(params, salt, newCounter, kdfHeader, dekNonce, dekBlob, dek, newPlaintext, nonce);
      Wipe(plaintext);
      plaintext := ToArray(newPlaintext);
      counter := newCounter;
      return Ok(data);
    }

    method ChangePassword(engine: Engine, newPassword: Bytes, newParams: Option<Argon2Parameters>, d: ChangeDraw)
      returns (r: Result<Bytes>)
      requires Valid()
      modifies this, engine
      ensures Valid() && dek == old(dek) && plaintext == old(plaintext)
      ensures SessionStep(View(), engine.log, r)
           == ChangeSession(engine.primitives, old(engine.log), old(View()), newPassword, newParams, d)
      ensures r.Err? ==> View() == old(View())
      ensures old(closed) ==> r == Err(ValueError) && engine.log == old(engine.log)
    {
      hide WrapKey, SealFile;
      if closed {
        return Err(ValueError);
      }
      var params := if newParams.Some? then newParams.value else this.params;
      if !params.InRange() {
        return Err(FormatError);
      }
      var wrap :- engine.WrapWith(newPassword, d.salt, params, dek, d.wrapNonce);
      var newCounter := counter + 1;
      var data :- engine.SealFileWith(params, d.salt, newCounter, wrap.kdfHeader, wrap.sealed.nonce, wrap.sealed.blob,
                                      dek, plaintext[..], d.bodyNonce);
      this.params := params;
      salt := d.salt;
      kdfHeader := wrap.kdfHeader;
      dekNonce := wrap.sealed.nonce;
      dekBlob := wrap.sealed.blob;
      counter := newCounter;
      return Ok(data);
    }

    method Close()
      requires Valid()
      modifies this, dek, plaintext
      ensures Valid() && dek == old(dek) && plaintext == old(plaintext)
      ensures View() == CloseSession(old(View()))
      ensures old(closed) ==> View() == old(View())
      ensures !old(closed) ==> AllZero(dek[..]) && AllZero(plaintext[..])
      ensures !old(closed) ==> View() == old(View()).(dek := dek[..], plaintext := plaintext[..], closed := true)
    {
      if closed {
        return;
      }
      Wipe(dek);
      Wipe(plaintext);
      closed := true;
    }
  }
}
