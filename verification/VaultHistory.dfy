/** Every history of creates, opens, saves, password changes and closes.

    Sessions may branch: any byte string, in particular any old file, may be opened at any
    time, any number of times, under any password. */
module VaultHistory {
  import opened Basics
  import opened Kdf
  import opened Aead
  import opened FileFormat
  import opened Vault
  import opened VaultSessions

  /** A session together with the file and the password that reopen it. */
  datatype Snapshot = Snapshot(session: Session, password: Bytes, file: Bytes)

  /** A file some call returned, with the index of the session that emitted it, if any. */
  datatype Emission = Emission(owner: Option<nat>, snapshot: Snapshot)

  datatype World = World(log: Log, salts: set<Bytes>, emitted: seq<Emission>, sessions: seq<Snapshot>)

  const EMPTY_WORLD := World([], {}, [], [])

  datatype Event =
    | Create(password: Bytes, plaintext: Bytes, params: Option<Argon2Parameters>, createDraw: CreateDraw)
    | Open(openPassword: Bytes, data: Bytes)
    | Save(saver: nat, newPlaintext: Bytes, nonce: Nonce)
    | ChangePassword(changer: nat, newPassword: Bytes, newParams: Option<Argon2Parameters>, changeDraw: ChangeDraw)
    | Close(closer: nat)

  /** The random source never repeats a salt. */
  predicate Fresh(w: World, ev: Event) {
    match ev
    case Create(_, _, _, d) => d.salt !in w.salts
    case ChangePassword(_, _, _, d) => d.salt !in w.salts
    case _ => true
  }

  /** Records the outcome of a session call that returns a file. */
  function Record(w: World, i: nat, r: SessionStep, salts: set<Bytes>, password: Bytes): World
    requires i < |w.sessions|
  {
    if r.result.Err? then
      World(r.log, salts, w.emitted, w.sessions[i := w.sessions[i].(session := r.session)])
    else
      var snap := Snapshot(r.session, password, r.result.value);
      World(r.log, salts, w.emitted + [Emission(Some(i), snap)], w.sessions[i := snap])
  }

  function StepCreate(p: Primitives, w: World, password: Bytes, plaintext: Bytes, params: Option<Argon2Parameters>,
                      d: CreateDraw): World {
    var r := CreateFile(p, w.log, password, plaintext, params, d);
    var salts := w.salts + {d.salt};
    if r.result.Err? then World(r.log, salts, w.emitted, w.sessions)
    else
      var snap := Snapshot(CreatedSession(p, password, plaintext, params, d), password, r.result.value);
      World(r.log, salts, w.emitted + [Emission(None, snap)], w.sessions)
  }

  function StepOpen(p: Primitives, w: World, password: Bytes, data: Bytes): World {
    match OpenSession(p, w.log, password, data)
    case Err(_) => w
    case Ok(s) => w.(sessions := w.sessions + [Snapshot(s, password, data)])
  }

  function StepSave(p: Primitives, w: World, i: nat, plaintext: Bytes, nonce: Nonce): World {
    if i >= |w.sessions| then w
    else Record(w, i, SaveSession(p, w.log, w.sessions[i].session, plaintext, nonce), w.salts, w.sessions[i].password)
  }

  function StepChange(p: Primitives, w: World, i: nat, password: Bytes, params: Option<Argon2Parameters>,
                      d: ChangeDraw): World {
    if i >= |w.sessions| then w.(salts := w.salts + {d.salt})
    else Record(w, i, ChangeSession(p, w.log, w.sessions[i].session, password, params, d), w.salts + {d.salt}, password)
  }

  function StepClose(w: World, i: nat): World {
    if i >= |w.sessions| then w
    else w.(sessions := w.sessions[i := w.sessions[i].(session := CloseSession(w.sessions[i].session))])
  }

  function Step(p: Primitives, w: World, ev: Event): World {
    match ev
    case Create(password, plaintext, params, d) => StepCreate(p, w, password, plaintext, params, d)
    case Open(password, data) => StepOpen(p, w, password, data)
    case Save(i, plaintext, nonce) => StepSave(p, w, i, plaintext, nonce)
    case ChangePassword(i, password, params, d) => StepChange(p, w, i, password, params, d)
    case Close(i) => StepClose(w, i)
  }

  function Run(p: Primitives, w: World, evs: seq<Event>): World
    decreases |evs|
  {
    if evs == [] then w else Run(p, Step(p, w, evs[0]), evs[1..])
  }

  predicate FreshRun(p: Primitives, w: World, evs: seq<Event>)
    decreases |evs|
  {
    evs == [] || (Fresh(w, evs[0]) && FreshRun(p, Step(p, w, evs[0]), evs[1..]))
  }

  predicate SnapshotOk(p: Primitives, log: Log, s: Snapshot) {
    Reopens(p, log, s.password, s.file, s.session)
  }

  /** Some emitted file has this sealed body, and holds its plaintext. */
  ghost predicate Covered(e: Sealed, emitted: seq<Emission>) {
    exists m :: m in emitted && BodyOf(e, m.snapshot.file) && m.snapshot.session.plaintext == e.plaintext
  }

  ghost predicate Inv(p: Primitives, w: World) {
    && LogInv(p, w.log, w.salts)
    && (forall m :: m in w.emitted ==> SnapshotOk(p, w.log, m.snapshot))
    && (forall s :: s in w.sessions ==> s.session.closed || SnapshotOk(p, w.log, s))
    && (forall e :: e in w.log && !IsWrap(e) && |e.blob| < U32_LIMIT ==> Covered(e, w.emitted))
  }

  lemma SnapshotExtended(p: Primitives, log: Log, log': Log, s: Snapshot)
    requires log <= log' && SnapshotOk(p, log, s)
    ensures SnapshotOk(p, log', s)
  {
    OpenExtended(p, log, log', s.password, s.file);
  }

  /** The one argument behind every step: a longer log, at most one more emitted file that
      reopens, and sessions that reopen. */
  lemma InvExtended(p: Primitives, w: World, w': World, r: Logged<Bytes>, plaintext: Bytes)
    requires Inv(p, w) && w.log <= w'.log && w'.log == r.log && LogInv(p, w'.log, w'.salts)
    requires SealsOnly(p, w.log, r, plaintext)
    requires w.emitted <= w'.emitted
    requires forall m :: m in w'.emitted ==> m in w.emitted || SnapshotOk(p, w'.log, m.snapshot)
    requires forall s :: s in w'.sessions ==> s in w.sessions || s.session.closed || SnapshotOk(p, w'.log, s)
    requires r.result.Ok? ==> exists m :: m in w'.emitted && m.snapshot.file == r.result.value && m.snapshot.session.plaintext == plaintext
    ensures Inv(p, w')
  {
    forall m | m in w'.emitted ensures SnapshotOk(p, w'.log, m.snapshot) {
      if m in w.emitted { SnapshotExtended(p, w.log, w'.log, m.snapshot); }
    }
    forall s | s in w'.sessions && !s.session.closed ensures SnapshotOk(p, w'.log, s) {
      if s in w.sessions { SnapshotExtended(p, w.log, w'.log, s); }
    }
    forall e | e in w'.log && !IsWrap(e) && |e.blob| < U32_LIMIT ensures Covered(e, w'.emitted) {
      if e in w.log {
        var m :| m in w.emitted && BodyOf(e, m.snapshot.file) && m.snapshot.session.plaintext == e.plaintext;
        assert m in w'.emitted;
      }
    }
  }

  lemma RecordInv(p: Primitives, w: World, i: nat, r: SessionStep, salts: set<Bytes>, password: Bytes, plaintext: Bytes)
    requires Inv(p, w) && i < |w.sessions| && w.log <= r.log && LogInv(p, r.log, salts)
    requires SealsOnly(p, w.log, Logged(r.log, r.result), plaintext)
    requires r.result.Ok? ==> Reopens(p, r.log, password, r.result.value, r.session) && r.session.plaintext == plaintext
    requires r.result.Err? ==> r.session == w.sessions[i].session
    ensures Inv(p, Record(w, i, r, salts, password))
  {
    var w' := Record(w, i, r, salts, password);
    if r.result.Ok? {
      assert w'.emitted[|w.emitted|] in w'.emitted;
    }
    InvExtended(p, w, w', Logged(r.log, r.result), plaintext);
  }

  lemma CreateInv(p: Primitives, w: World, password: Bytes, plaintext: Bytes, params: Option<Argon2Parameters>,
                  d: CreateDraw)
    requires p.Sound() && Inv(p, w) && d.salt !in w.salts
    ensures Inv(p, StepCreate(p, w, password, plaintext, params, d))
  {
    hide CreateFile, OpenSession;
    CreateOpens(p, w.log, w.salts, password, plaintext, params, d);
    var r := CreateFile(p, w.log, password, plaintext, params, d);
    var w' := StepCreate(p, w, password, plaintext, params, d);
    if r.result.Ok? {
      assert w'.emitted[|w.emitted|] in w'.emitted;
    }
    InvExtended(p, w, w', r, plaintext);
  }

  lemma SaveInv(p: Primitives, w: World, i: nat, plaintext: Bytes, nonce: Nonce)
    requires p.Sound() && Inv(p, w)
    ensures Inv(p, StepSave(p, w, i, plaintext, nonce))
  {
    hide SealFile, OpenSession;
    if i < |w.sessions| {
      var s := w.sessions[i];
      if !s.session.closed {
        SaveOpens(p, w.log, w.salts, s.password, s.file, s.session, plaintext, nonce);
      }
      RecordInv(p, w, i, SaveSession(p, w.log, s.session, plaintext, nonce), w.salts, s.password, plaintext);
    }
  }

  lemma ChangeInv(p: Primitives, w: World, i: nat, password: Bytes, params: Option<Argon2Parameters>, d: ChangeDraw)
    requires p.Sound() && Inv(p, w) && d.salt !in w.salts
    ensures Inv(p, StepChange(p, w, i, password, params, d))
  {
    hide SealFile, WrapKey, OpenSession;
    assert forall e :: e in w.log && IsWrap(e) ==> e.aad[20..36] in w.salts + {d.salt};
    if i < |w.sessions| {
      var s := w.sessions[i];
      if !s.session.closed {
        ChangeOpens(p, w.log, w.salts, s.password, s.file, s.session, password, params, d);
      }
      RecordInv(p, w, i, ChangeSession(p, w.log, s.session, password, params, d), w.salts + {d.salt}, password, s.session.plaintext);
    }
  }

  /** Every step keeps the invariant, whichever session it acts on and whether or not it fails. */
  lemma StepInv(p: Primitives, w: World, ev: Event)
    requires p.Sound() && Inv(p, w) && Fresh(w, ev)
    ensures Inv(p, Step(p, w, ev))
  {
    hide StepCreate, StepSave, StepChange, OpenSession;
    match ev
    case Create(password, plaintext, params, d) => CreateInv(p, w, password, plaintext, params, d);
    case Open(password, data) =>
    case Save(i, plaintext, nonce) => SaveInv(p, w, i, plaintext, nonce);
    case ChangePassword(i, password, params, d) => ChangeInv(p, w, i, password, params, d);
    case Close(i) =>
  }

  lemma {:induction false} RunInv(p: Primitives, w: World, evs: seq<Event>)
    requires p.Sound() && Inv(p, w) && FreshRun(p, w, evs)
    ensures Inv(p, Run(p, w, evs))
    decreases |evs|
  {
    hide Step;
    if evs != [] {
      StepInv(p, w, evs[0]);
      RunInv(p, Step(p, w, evs[0]), evs[1..]);
    }
  }

  /** The log entry a successful open unwraps the data key from, and the one it takes the body from. */
  lemma OpenEntries(p: Primitives, log: Log, password: Bytes, data: Bytes) returns (wrap: Sealed, body: Sealed)
    requires OpenSession(p, log, password, data).Ok?
    ensures var f := Parse(data).value;
            && Parse(data).Ok? && wrap in log && body in log && |f.kdfHeader| == KDF_HEADER_LENGTH
            && Matches(wrap, p.argon2id(password, f.salt, f.params), f.dekNonce, f.dekBlob, f.kdfHeader)
            && BodyOf(body, data) && |body.aad| == FULL_HEADER_LENGTH && |body.blob| < U32_LIMIT
            && f.kdfHeader == f.fullHeader[..KDF_HEADER_LENGTH]
            && OpenSession(p, log, password, data).value.salt == f.salt
            && OpenSession(p, log, password, data).value.params == f.params
  {
    var s := OpenSession(p, log, password, data).value;
    var f := Parse(data).value;
    SerializeParse(data);
    wrap := Find(log, p.argon2id(password, f.salt, f.params), f.dekNonce, f.dekBlob, f.kdfHeader).value;
    body := Find(log, s.dek, f.bodyNonce, f.bodyBlob, f.fullHeader).value;
    assert f.kdfHeader == f.fullHeader[..KDF_HEADER_LENGTH];
  }

  /** The password derives the same key-encryption key as the one the file was emitted under. */
  predicate SameKey(p: Primitives, s: Snapshot, password: Bytes) {
    p.argon2id(password, s.session.salt, s.session.params) == p.argon2id(s.password, s.session.salt, s.session.params)
  }

  /** No splicing: an accepted file is, byte for byte, one that was emitted, and opens to what
      was sealed in it. */
  lemma AcceptedWasEmitted(p: Primitives, w: World, password: Bytes, data: Bytes) returns (m: Emission)
    requires p.Sound() && Inv(p, w) && OpenSession(p, w.log, password, data).Ok?
    ensures m in w.emitted && m.snapshot.file == data && SameKey(p, m.snapshot, password)
    ensures OpenSession(p, w.log, password, data) == Ok(m.snapshot.session)
  {
    hide OpenSession, Parse;
    var wrap, body := OpenEntries(p, w.log, password, data);
    m :| m in w.emitted && BodyOf(body, m.snapshot.file) && m.snapshot.session.plaintext == body.plaintext;
    var wrap', body' := OpenEntries(p, w.log, m.snapshot.password, m.snapshot.file);
    WrapUnique(p, w.log, w.salts, wrap, wrap');
    ParseInjective(data, m.snapshot.file);
    OpenAgree(p, w.log, w.salts, password, m.snapshot.password, data);
  }

  /** Conversely an emitted file opens under every password that derives its key. */
  lemma EmittedIsAccepted(p: Primitives, w: World, m: Emission, password: Bytes)
    requires p.Sound() && Inv(p, w) && m in w.emitted && SameKey(p, m.snapshot, password)
    ensures OpenSession(p, w.log, password, m.snapshot.file) == Ok(m.snapshot.session)
  {
    SerializeParse(m.snapshot.file);
  }

  /** What `Inv` means for a reader of files: acceptance is emission, and reopening loses nothing. */
  lemma AcceptedIffEmitted(p: Primitives, w: World, password: Bytes, data: Bytes)
    requires p.Sound() && Inv(p, w)
    ensures OpenSession(p, w.log, password, data).Ok? <==>
            exists m :: m in w.emitted && m.snapshot.file == data && SameKey(p, m.snapshot, password)
    ensures forall m :: m in w.emitted && m.snapshot.file == data && OpenSession(p, w.log, password, data).Ok? ==>
              OpenSession(p, w.log, password, data) == Ok(m.snapshot.session)
  {
    hide OpenSession;
    if OpenSession(p, w.log, password, data).Ok? {
      var m := AcceptedWasEmitted(p, w, password, data);
      forall m' | m' in w.emitted && m'.snapshot.file == data
        ensures OpenSession(p, w.log, password, data) == Ok(m'.snapshot.session)
      {
        OpenAgree(p, w.log, w.salts, password, m'.snapshot.password, data);
      }
    }
    forall m | m in w.emitted && m.snapshot.file == data && SameKey(p, m.snapshot, password)
      ensures OpenSession(p, w.log, password, data).Ok?
    {
      EmittedIsAccepted(p, w, m, password);
    }
  }

  /** After any history, a file opens under a password exactly when it was emitted and the
      password derives the key it was emitted under; what it opens to is the state in which it
      was emitted. Every open session is in the state its last file reopens to. */
  lemma HistoryTheorem(p: Primitives, evs: seq<Event>, password: Bytes, data: Bytes)
    requires p.Sound() && FreshRun(p, EMPTY_WORLD, evs)
    ensures var w := Run(p, EMPTY_WORLD, evs);
            && (OpenSession(p, w.log, password, data).Ok? <==>
                exists m :: m in w.emitted && m.snapshot.file == data && SameKey(p, m.snapshot, password))
            && (forall m :: m in w.emitted && m.snapshot.file == data && OpenSession(p, w.log, password, data).Ok? ==>
                  OpenSession(p, w.log, password, data) == Ok(m.snapshot.session))
            && (forall s :: s in w.sessions && !s.session.closed ==>
                  OpenSession(p, w.log, s.password, s.file) == Ok(s.session))
  {
    hide OpenSession, Step;
    RunInv(p, EMPTY_WORLD, evs);
    AcceptedIffEmitted(p, Run(p, EMPTY_WORLD, evs), password, data);
  }

  /** Bytes nobody emitted never open, whatever the password: changing any byte of a file is
      detected unless the result is another emitted file. */
  lemma TamperingDetected(p: Primitives, evs: seq<Event>, password: Bytes, data: Bytes)
    requires p.Sound() && FreshRun(p, EMPTY_WORLD, evs)
    requires forall m :: m in Run(p, EMPTY_WORLD, evs).emitted ==> m.snapshot.file != data
    ensures OpenSession(p, Run(p, EMPTY_WORLD, evs).log, password, data)
         == Err(if Parse(data).Ok? then AuthenticationError else FormatError)
  {
    hide OpenSession, Step, Parse;
    RunInv(p, EMPTY_WORLD, evs);
    var w := Run(p, EMPTY_WORLD, evs);
    AcceptedIffEmitted(p, w, password, data);
    OpenErrors(p, w.log, w.salts, password, password, data);
  }

  /** Session `i` emitted its files from index `from` on under this password and data key, and
      still holds them (its key unless closed). */
  ghost predicate Rotated(w: World, i: nat, from: nat, password: Bytes, dek: Bytes) {
    && i < |w.sessions| && from <= |w.emitted|
    && w.sessions[i].password == password
    && (w.sessions[i].session.closed || w.sessions[i].session.dek == dek)
    && (forall k :: from <= k < |w.emitted| && w.emitted[k].owner == Some(i) ==>
          w.emitted[k].snapshot.password == password && w.emitted[k].snapshot.session.dek == dek)
  }

  lemma RotatedStep(p: Primitives, w: World, ev: Event, i: nat, from: nat, password: Bytes, dek: Bytes)
    requires p.Sound() && Rotated(w, i, from, password, dek) && !(ev.ChangePassword? && ev.changer == i)
    ensures Rotated(Step(p, w, ev), i, from, password, dek)
  {
    hide OpenSession, CreateFile, WrapKey, SealFile;
    match ev
    case Create(_, _, _, _) =>
    case Open(_, _) =>
    case Save(j, plaintext, nonce) =>
    case ChangePassword(j, _, _, _) =>
    case Close(j) =>
  }

  lemma {:induction false} RotatedRun(p: Primitives, w: World, evs: seq<Event>, i: nat, from: nat, password: Bytes,
                                      dek: Bytes)
    requires p.Sound() && Rotated(w, i, from, password, dek)
    requires forall ev :: ev in evs ==> !(ev.ChangePassword? && ev.changer == i)
    ensures Rotated(Run(p, w, evs), i, from, password, dek)
    decreases |evs|
  {
    hide Step;
    if evs != [] {
      RotatedStep(p, w, evs[0], i, from, password, dek);
      RotatedRun(p, Step(p, w, evs[0]), evs[1..], i, from, password, dek);
    }
  }

  /** An emitted file opens under precisely the passwords that derive the key of its own one; every
      other fails authentication. */
  lemma OnlyItsPassword(p: Primitives, w: World, m: Emission, other: Bytes)
    requires p.Sound() && Inv(p, w) && m in w.emitted
    ensures OpenSession(p, w.log, other, m.snapshot.file)
         == if SameKey(p, m.snapshot, other) then Ok(m.snapshot.session) else Err(AuthenticationError)
  {
    hide OpenSession;
    OpenErrors(p, w.log, w.salts, other, m.snapshot.password, m.snapshot.file);
    if OpenSession(p, w.log, other, m.snapshot.file).Ok? {
      OpenAgree(p, w.log, w.salts, other, m.snapshot.password, m.snapshot.file);
    }
    if SameKey(p, m.snapshot, other) {
      EmittedIsAccepted(p, w, m, other);
    }
  }

  /** Sound primitives exist that derive different keys from two given passwords under every salt
      and every cost. */
  lemma DistinctKeysPossible(password: Bytes, other: Bytes) returns (p: Primitives)
    requires password != other
    ensures p.Sound()
    ensures forall salt, params :: p.argon2id(password, salt, params) != p.argon2id(other, salt, params)
  {
    var key: Bytes := [1] + Zeros(KEY_LENGTH - 1);
    p := Primitives((pw: Bytes, salt: Bytes, params: Argon2Parameters) => if pw == other then key else Zeros(KEY_LENGTH),
                    (k: Bytes, n: Bytes, a: Bytes, m: Bytes) => m + Zeros(TAG_LENGTH));
    assert key[0] != Zeros(KEY_LENGTH)[0];
    forall m: Bytes, m': Bytes | m + Zeros(TAG_LENGTH) == m' + Zeros(TAG_LENGTH) ensures m == m' {
      assert (m + Zeros(TAG_LENGTH))[..|m|] == m && (m' + Zeros(TAG_LENGTH))[..|m'|] == m';
    }
  }

  lemma ChangeRotates(p: Primitives, w: World, i: nat, password: Bytes, params: Option<Argon2Parameters>, d: ChangeDraw)
    requires p.Sound() && Inv(p, w) && i < |w.sessions| && d.salt !in w.salts
    requires ChangeSession(p, w.log, w.sessions[i].session, password, params, d).result.Ok?
    ensures Rotated(StepChange(p, w, i, password, params, d), i, |w.emitted|, password, w.sessions[i].session.dek)
    ensures Inv(p, StepChange(p, w, i, password, params, d))
  {
    hide OpenSession, WrapKey, SealFile;
    var s := w.sessions[i];
    assert !s.session.closed && s in w.sessions;
    ChangeOpens(p, w.log, w.salts, s.password, s.file, s.session, password, params, d);
    ChangeInv(p, w, i, password, params, d);
  }

  /** Password change rotates access: every file session `i` emits from a successful change on,
      until it changes the password again, carries the old data key, opens under the new password,
      and fails authentication under every password that does not derive the same key. */
  lemma PasswordChangeRotatesAccess(p: Primitives, before: seq<Event>, i: nat, password: Bytes,
                                    params: Option<Argon2Parameters>,
                                    d: ChangeDraw, after: seq<Event>, k: nat, other: Bytes)
    requires p.Sound() && FreshRun(p, EMPTY_WORLD, before)
    requires forall ev :: ev in after ==> !(ev.ChangePassword? && ev.changer == i)
    requires var w := Run(p, EMPTY_WORLD, before);
             && i < |w.sessions| && d.salt !in w.salts
             && ChangeSession(p, w.log, w.sessions[i].session, password, params, d).result.Ok?
             && FreshRun(p, StepChange(p, w, i, password, params, d), after)
             && var w' := Run(p, StepChange(p, w, i, password, params, d), after);
                |w.emitted| <= k < |w'.emitted| && w'.emitted[k].owner == Some(i)
    ensures var w := Run(p, EMPTY_WORLD, before);
            var w' := Run(p, StepChange(p, w, i, password, params, d), after);
            var m := w'.emitted[k].snapshot;
            && m.password == password && m.session.dek == w.sessions[i].session.dek
            && OpenSession(p, w'.log, password, m.file) == Ok(m.session)
            && OpenSession(p, w'.log, other, m.file) == if SameKey(p, m, other) then Ok(m.session) else Err(AuthenticationError)
  {
    hide OpenSession, ChangeSession, StepChange, Step;
    var w := Run(p, EMPTY_WORLD, before);
    RunInv(p, EMPTY_WORLD, before);
    ChangeRotates(p, w, i, password, params, d);
    var w1 := StepChange(p, w, i, password, params, d);
    RotatedRun(p, w1, after, i, |w.emitted|, password, w.sessions[i].session.dek);
    RunInv(p, w1, after);
    OnlyItsPassword(p, Run(p, w1, after), Run(p, w1, after).emitted[k], password);
    OnlyItsPassword(p, Run(p, w1, after), Run(p, w1, after).emitted[k], other);
  }

  datatype Op = Saving(plaintext: Bytes, nonce: Nonce) | Rekeying(password: Bytes, params: Option<Argon2Parameters>, draw: ChangeDraw)

  function Perform(p: Primitives, log: Log, s: Session, op: Op): SessionStep {
    match op
    case Saving(plaintext, nonce) => SaveSession(p, log, s, plaintext, nonce)
    case Rekeying(password, params, d) => ChangeSession(p, log, s, password, params, d)
  }

  /** A body was sealed and emitted under this data key and counter. */
  ghost predicate CounterUsed(w: World, dek: Bytes, counter: int) {
    exists m :: m in w.emitted && m.snapshot.session.dek == dek && m.snapshot.session.counter == counter
  }

  /** The counters used with a data key go down to 0 without a gap. */
  ghost predicate NoGaps(w: World) {
    forall m, c: nat :: m in w.emitted && c <= m.snapshot.session.counter ==> CounterUsed(w, m.snapshot.session.dek, c)
  }

  /** Some emitted file with this data key has a greater counter than the session. */
  ghost predicate Overtaken(w: World, s: Session) {
    exists m :: m in w.emitted && m.snapshot.session.dek == s.dek && m.snapshot.session.counter > s.counter
  }

  /** An open session's own counter has been used, and so has every one below it. */
  lemma SessionNoGaps(p: Primitives, w: World, s: Snapshot)
    requires p.Sound() && Inv(p, w) && NoGaps(w) && s in w.sessions && !s.session.closed
    ensures forall c: nat :: c <= s.session.counter ==> CounterUsed(w, s.session.dek, c)
  {
    hide OpenSession;
    var m := AcceptedWasEmitted(p, w, s.password, s.file);
  }

  lemma EmissionNoGaps(w: World, w': World, m: Emission)
    requires NoGaps(w) && w'.emitted == w.emitted + [m]
    requires forall c: nat :: c < m.snapshot.session.counter ==> CounterUsed(w, m.snapshot.session.dek, c)
    ensures NoGaps(w')
  {
    assert w'.emitted[|w.emitted|] == m;
    forall x, c: nat | x in w'.emitted && c <= x.snapshot.session.counter ensures CounterUsed(w', x.snapshot.session.dek, c) {
      if CounterUsed(w, x.snapshot.session.dek, c) {
        var y :| y in w.emitted && y.snapshot.session.dek == x.snapshot.session.dek && y.snapshot.session.counter == c;
        assert y in w'.emitted;
      }
    }
  }

  lemma RecordNoGaps(p: Primitives, w: World, i: nat, r: SessionStep, salts: set<Bytes>, password: Bytes)
    requires p.Sound() && Inv(p, w) && NoGaps(w) && i < |w.sessions|
    requires r.result.Ok? ==> var s := w.sessions[i].session;
                              !s.closed && r.session.dek == s.dek && r.session.counter == s.counter + 1
    ensures NoGaps(Record(w, i, r, salts, password))
  {
    hide OpenSession, CounterUsed;
    if r.result.Ok? {
      SessionNoGaps(p, w, w.sessions[i]);
      hide Inv;
      EmissionNoGaps(w, Record(w, i, r, salts, password), Emission(Some(i), Snapshot(r.session, password, r.result.value)));
    } else {
      SameEmitted(w, Record(w, i, r, salts, password));
    }
  }

  lemma StepNoGaps(p: Primitives, w: World, ev: Event)
    requires p.Sound() && Inv(p, w) && NoGaps(w)
    ensures NoGaps(Step(p, w, ev))
  {
    hide OpenSession, CreateFile, SealFile, WrapKey, Record, NoGaps, Inv, CreatedSession;
    match ev
    case Create(password, plaintext, params, d) =>
      CreateNoGaps(p, w, password, plaintext, params, d);
    case Open(_, _) =>
      SameEmitted(w, Step(p, w, ev));
    case Save(i, plaintext, nonce) =>
      if i < |w.sessions| {
        RecordNoGaps(p, w, i, SaveSession(p, w.log, w.sessions[i].session, plaintext, nonce), w.salts, w.sessions[i].password);
      }
    case ChangePassword(i, password, params, d) =>
      if i < |w.sessions| {
        RecordNoGaps(p, w, i, ChangeSession(p, w.log, w.sessions[i].session, password, params, d), w.salts + {d.salt}, password);
      } else {
        SameEmitted(w, Step(p, w, ev));
      }
    case Close(_) =>
      SameEmitted(w, Step(p, w, ev));
  }

  lemma SameEmitted(w: World, w': World)
    requires NoGaps(w) && w'.emitted == w.emitted
    ensures NoGaps(w')
  {
    forall m, c: nat | m in w'.emitted && c <= m.snapshot.session.counter ensures CounterUsed(w', m.snapshot.session.dek, c) {
      assert CounterUsed(w, m.snapshot.session.dek, c);
    }
  }

  lemma CreateNoGaps(p: Primitives, w: World, password: Bytes, plaintext: Bytes, params: Option<Argon2Parameters>,
                     d: CreateDraw)
    requires NoGaps(w)
    ensures NoGaps(StepCreate(p, w, password, plaintext, params, d))
  {
    hide CreateFile, NoGaps;
    var w' := StepCreate(p, w, password, plaintext, params, d);
    if w'.emitted != w.emitted {
      EmissionNoGaps(w, w', w'.emitted[|w.emitted|]);
    } else {
      SameEmitted(w, w');
    }
  }

  lemma {:induction false} RunNoGaps(p: Primitives, w: World, evs: seq<Event>)
    requires p.Sound() && Inv(p, w) && NoGaps(w) && FreshRun(p, w, evs)
    ensures NoGaps(Run(p, w, evs))
    decreases |evs|
  {
    hide Step, Inv, NoGaps;
    if evs != [] {
      StepInv(p, w, evs[0]);
      StepNoGaps(p, w, evs[0]);
      RunNoGaps(p, Step(p, w, evs[0]), evs[1..]);
    }
  }

  /** What a successful save or password change writes. */
  lemma PerformFacts(p: Primitives, w: World, i: nat, op: Op)
    requires p.Sound() && Inv(p, w) && i < |w.sessions| && (op.Rekeying? ==> op.draw.salt !in w.salts)
    requires Perform(p, w.log, w.sessions[i].session, op).result.Ok?
    ensures var s := w.sessions[i].session;
            var written := Parse(Perform(p, w.log, s, op).result.value);
            !s.closed && 0 <= s.counter && written.Ok? && written.value.counter == s.counter + 1
  {
    hide OpenSession, WrapKey, SealFile, Parse;
    var s := w.sessions[i];
    assert s in w.sessions && !s.session.closed;
    OpenFacts(p, w.log, w.salts, s.password, s.file);
    match op
    case Saving(plaintext, nonce) =>
      var r := SaveSession(p, w.log, s.session, plaintext, nonce);
      SaveOpens(p, w.log, w.salts, s.password, s.file, s.session, plaintext, nonce);
      OpenFacts(p, r.log, w.salts, s.password, r.result.value);
    case Rekeying(password, params, d) =>
      var r := ChangeSession(p, w.log, s.session, password, params, d);
      ChangeOpens(p, w.log, w.salts, s.password, s.file, s.session, password, params, d);
      OpenFacts(p, r.log, w.salts + {d.salt}, password, r.result.value);
  }

  lemma NextUsedIff(w: World, s: Session)
    requires NoGaps(w) && 0 <= s.counter
    ensures CounterUsed(w, s.dek, s.counter + 1) <==> Overtaken(w, s)
  {
    if Overtaken(w, s) {
      var m :| m in w.emitted && m.snapshot.session.dek == s.dek && m.snapshot.session.counter > s.counter;
      var next: nat := s.counter + 1;
      assert CounterUsed(w, m.snapshot.session.dek, next);
    }
  }

  /** When a save counter is used twice: after any history, a save or a password change of an open
      session writes a body under a counter already used with its data key if and only if an
      emitted file with that data key is ahead of the session. */
  lemma CounterReusedIff(p: Primitives, evs: seq<Event>, i: nat, op: Op)
    requires p.Sound() && FreshRun(p, EMPTY_WORLD, evs)
    requires var w := Run(p, EMPTY_WORLD, evs);
             && i < |w.sessions| && (op.Rekeying? ==> op.draw.salt !in w.salts)
             && Perform(p, w.log, w.sessions[i].session, op).result.Ok?
    ensures var w := Run(p, EMPTY_WORLD, evs);
            var s := w.sessions[i].session;
            var written := Parse(Perform(p, w.log, s, op).result.value);
            && written.Ok? && written.value.counter == s.counter + 1
            && (CounterUsed(w, s.dek, written.value.counter) <==> Overtaken(w, s))
  {
    assert Inv(p, EMPTY_WORLD) && NoGaps(EMPTY_WORLD);
    hide Step, Inv, NoGaps;
    RunInv(p, EMPTY_WORLD, evs);
    RunNoGaps(p, EMPTY_WORLD, evs);
    PerformFacts(p, Run(p, EMPTY_WORLD, evs), i, op);
    hide Perform, Run, Parse;
    NextUsedIff(Run(p, EMPTY_WORLD, evs), Run(p, EMPTY_WORLD, evs).sessions[i].session);
  }

  /** What a series of saves and password changes on one session returns. */
  function Outputs(p: Primitives, log: Log, s: Session, ops: seq<Op>): seq<Result<Bytes>>
    decreases |ops|
  {
    if ops == [] then []
    else
      var r := Perform(p, log, s, ops[0]);
      [r.result] + Outputs(p, r.log, r.session, ops[1..])
  }

  /** The files a session emits depend on its state and the draws only, not on what else has
      been sealed meanwhile. */
  lemma {:induction false} OutputsIgnoreLog(p: Primitives, log: Log, log': Log, s: Session, ops: seq<Op>)
    ensures Outputs(p, log, s, ops) == Outputs(p, log', s, ops)
    decreases |ops|
  {
    hide BuildKdfHeader, BuildFullHeader, Serialize;
    if ops != [] {
      match ops[0]
      case Saving(plaintext, nonce) =>
        var r, r' := SaveSession(p, log, s, plaintext, nonce), SaveSession(p, log', s, plaintext, nonce);
        OutputsIgnoreLog(p, r.log, r'.log, r.session, ops[1..]);
      case Rekeying(password, params, d) =>
        var r, r' := ChangeSession(p, log, s, password, params, d), ChangeSession(p, log', s, password, params, d);
        OutputsIgnoreLog(p, r.log, r'.log, r.session, ops[1..]);
    }
  }

  /** Reopening is unobservable: replace an open session by the one its last file opens to, now or
      after anything else has happened, and the same operations with the same draws return the
      same bytes. */
  lemma ReopeningUnobservable(p: Primitives, evs: seq<Event>, later: seq<Event>, s: Snapshot, ops: seq<Op>)
    requires p.Sound() && FreshRun(p, EMPTY_WORLD, evs) && FreshRun(p, Run(p, EMPTY_WORLD, evs), later)
    requires s in Run(p, EMPTY_WORLD, evs).sessions && !s.session.closed
    ensures var w := Run(p, EMPTY_WORLD, evs);
            var w' := Run(p, w, later);
            && OpenSession(p, w'.log, s.password, s.file) == Ok(s.session)
            && Outputs(p, w'.log, OpenSession(p, w'.log, s.password, s.file).value, ops) == Outputs(p, w.log, s.session, ops)
  {
    hide OpenSession, Step, Outputs;
    var w := Run(p, EMPTY_WORLD, evs);
    RunInv(p, EMPTY_WORLD, evs);
    RunExtends(p, w, later);
    SnapshotExtended(p, w.log, Run(p, w, later).log, s);
    OutputsIgnoreLog(p, w.log, Run(p, w, later).log, s.session, ops);
  }

  /** What a successful call records: the file it returned, and the session it left. */
  ghost predicate Emits(p: Primitives, w: World, w': World, owner: Option<nat>, session: Session, password: Bytes) {
    && |w'.emitted| == |w.emitted| + 1 && w'.emitted[..|w.emitted|] == w.emitted
    && var m := w'.emitted[|w.emitted|];
       && m.owner == owner && m.snapshot.session == session && m.snapshot.password == password
       && OpenSession(p, w'.log, password, m.snapshot.file) == Ok(session)
       && w'.sessions == if owner.Some? && owner.value < |w.sessions| then w.sessions[owner.value := m.snapshot] else w.sessions
  }

  /** The events, said by their effects. A create, a save or a password change emits a file exactly
      if its costs, counter and body are in range, and it opens to the new state; otherwise nothing
      is emitted and no session changes. Opening adds a session exactly if the bytes open. */
  lemma CreateEffect(p: Primitives, w: World, password: Bytes, plaintext: Bytes, params: Option<Argon2Parameters>, d: CreateDraw)
    requires p.Sound() && Inv(p, w) && d.salt !in w.salts
    ensures var w' := Run(p, w, [Create(password, plaintext, params, d)]);
            if (params.Some? ==> params.value.InRange()) && |plaintext| <= MAX_PLAINTEXT then
              Emits(p, w, w', None, CreatedSession(p, password, plaintext, params, d), password)
            else w'.emitted == w.emitted && w'.sessions == w.sessions
  {
    hide CreateFile, OpenSession, CreatedSession;
    RunOne(p, w, Create(password, plaintext, params, d));
    CreateOpens(p, w.log, w.salts, password, plaintext, params, d);
  }

  lemma OpenEffect(p: Primitives, w: World, password: Bytes, data: Bytes)
    ensures var w' := Run(p, w, [Open(password, data)]);
            && w'.emitted == w.emitted && w'.log == w.log
            && w'.sessions == match OpenSession(p, w.log, password, data)
                              case Ok(s) => w.sessions + [Snapshot(s, password, data)]
                              case Err(_) => w.sessions
  {
    hide OpenSession;
    RunOne(p, w, Open(password, data));
  }

  lemma SaveEffect(p: Primitives, w: World, i: nat, plaintext: Bytes, nonce: Nonce)
    requires p.Sound() && Inv(p, w) && i < |w.sessions|
    ensures var w' := Run(p, w, [Save(i, plaintext, nonce)]);
            var s := w.sessions[i];
            if !s.session.closed && s.session.counter + 1 < U64_LIMIT && |plaintext| <= MAX_PLAINTEXT then
              Emits(p, w, w', Some(i), s.session.(plaintext := plaintext, counter := s.session.counter + 1), s.password)
            else w'.emitted == w.emitted && w'.sessions == w.sessions
  {
    hide OpenSession, SealFile;
    RunOne(p, w, Save(i, plaintext, nonce));
    var s := w.sessions[i];
    assert s in w.sessions;
    if !s.session.closed {
      SaveOpens(p, w.log, w.salts, s.password, s.file, s.session, plaintext, nonce);
    }
  }

  lemma ChangeEffect(p: Primitives, w: World, i: nat, password: Bytes, params: Option<Argon2Parameters>, d: ChangeDraw)
    requires p.Sound() && Inv(p, w) && i < |w.sessions| && d.salt !in w.salts
    ensures var w' := Run(p, w, [ChangePassword(i, password, params, d)]);
            var s := w.sessions[i].session;
            if !s.closed && (params.Some? ==> params.value.InRange()) && s.counter + 1 < U64_LIMIT && |s.plaintext| <= MAX_PLAINTEXT then
              && i < |w'.sessions| && Emits(p, w, w', Some(i), w'.sessions[i].session, password)
              && var s' := w'.sessions[i].session;
                 && !s'.closed && s'.dek == s.dek && s'.plaintext == s.plaintext && s'.counter == s.counter + 1 && s'.salt == d.salt
                 && s'.params == if params.Some? then params.value else s.params
            else w'.emitted == w.emitted && w'.sessions == w.sessions
  {
    hide OpenSession, WrapKey, SealFile;
    RunOne(p, w, ChangePassword(i, password, params, d));
    var s := w.sessions[i];
    assert s in w.sessions;
    if !s.session.closed {
      ChangeOpens(p, w.log, w.salts, s.password, s.file, s.session, password, params, d);
      OpenFacts(p, w.log, w.salts, s.password, s.file);
    }
  }

  lemma CloseEffect(p: Primitives, w: World, i: nat)
    requires i < |w.sessions|
    ensures var w' := Run(p, w, [Close(i)]);
            && w'.emitted == w.emitted && w'.log == w.log && |w'.sessions| == |w.sessions|
            && (forall j :: 0 <= j < |w.sessions| && j != i ==> w'.sessions[j] == w.sessions[j])
            && w'.sessions[i].session.closed
            && (!w.sessions[i].session.closed ==> AllZero(w'.sessions[i].session.dek) && AllZero(w'.sessions[i].session.plaintext))
  {
    RunOne(p, w, Close(i));
  }

  lemma RunOne(p: Primitives, w: World, ev: Event)
    ensures Run(p, w, [ev]) == Step(p, w, ev)
  {
    hide Step;
    assert [ev][1..] == [];
  }

  /** The same operations as events of a history. */
  function EventOf(i: nat, op: Op): Event {
    match op
    case Saving(plaintext, nonce) => Save(i, plaintext, nonce)
    case Rekeying(password, params, d) => ChangePassword(i, password, params, d)
  }

  function EventsOf(i: nat, ops: seq<Op>): seq<Event> {
    if ops == [] then [] else [EventOf(i, ops[0])] + EventsOf(i, ops[1..])
  }

  /** The files among the results. */
  function FilesAmong(results: seq<Result<Bytes>>): seq<Bytes> {
    if results == [] then []
    else (if results[0].Ok? then [results[0].value] else []) + FilesAmong(results[1..])
  }

  function FilesOf(emitted: seq<Emission>): (r: seq<Bytes>)
    ensures |r| == |emitted| && forall i :: 0 <= i < |r| ==> r[i] == emitted[i].snapshot.file
  {
    seq(|emitted|, i requires 0 <= i < |emitted| => emitted[i].snapshot.file)
  }

  /** The outputs of a series of operations are the files a history emits for them. */
  lemma {:induction false} OutputsAreEmitted(p: Primitives, w: World, i: nat, ops: seq<Op>)
    requires i < |w.sessions|
    ensures FilesOf(Run(p, w, EventsOf(i, ops)).emitted)
         == FilesOf(w.emitted) + FilesAmong(Outputs(p, w.log, w.sessions[i].session, ops))
    ensures |Outputs(p, w.log, w.sessions[i].session, ops)| == |ops|
    decreases |ops|
  {
    hide Step;
    if ops == [] {
      assert FilesOf(w.emitted) + [] == FilesOf(w.emitted);
    } else {
      var ev := EventOf(i, ops[0]);
      var w1 := Step(p, w, ev);
      var r := Perform(p, w.log, w.sessions[i].session, ops[0]);
      StepPerforms(p, w, i, ops[0]);
      assert ([ev] + EventsOf(i, ops[1..]))[1..] == EventsOf(i, ops[1..]);
      OutputsAreEmitted(p, w1, i, ops[1..]);
      var later := Outputs(p, r.log, r.session, ops[1..]);
      hide Perform, EventOf, FilesOf;
      FilesAmongFirst(r.result, later);
      assert FilesOf(w.emitted) + (if r.result.Ok? then [r.result.value] else []) + FilesAmong(later)
          == FilesOf(w.emitted) + FilesAmong([r.result] + later);
    }
  }

  lemma FilesAmongFirst(r: Result<Bytes>, later: seq<Result<Bytes>>)
    ensures FilesAmong([r] + later) == (if r.Ok? then [r.value] else []) + FilesAmong(later)
  {
    assert ([r] + later)[1..] == later;
  }

  lemma StepPerforms(p: Primitives, w: World, i: nat, op: Op)
    requires i < |w.sessions|
    ensures var w' := Step(p, w, EventOf(i, op));
            var r := Perform(p, w.log, w.sessions[i].session, op);
            && i < |w'.sessions| && w'.sessions[i].session == r.session && w'.log == r.log
            && FilesOf(w'.emitted) == FilesOf(w.emitted) + if r.result.Ok? then [r.result.value] else []
  {
    hide SaveSession, ChangeSession;
  }

  /** A salt the event draws. */
  function SaltsOf(ev: Event): seq<Bytes> {
    match ev
    case Create(_, _, _, d) => [d.salt]
    case ChangePassword(_, _, _, d) => [d.salt]
    case _ => []
  }

  function AllSalts(evs: seq<Event>): seq<Bytes> {
    if evs == [] then [] else SaltsOf(evs[0]) + AllSalts(evs[1..])
  }

  predicate Distinct(s: seq<Bytes>) {
    forall i, j :: 0 <= i < j < |s| ==> s[i] != s[j]
  }

  /** Exactly the histories that never draw a salt twice are considered. */
  lemma {:induction false} FreshRunIff(p: Primitives, w: World, evs: seq<Event>)
    ensures FreshRun(p, w, evs) <==> Distinct(AllSalts(evs)) && forall salt :: salt in AllSalts(evs) ==> salt !in w.salts
    decreases |evs|
  {
    hide Step;
    if evs != [] {
      StepSalts(p, w, evs[0]);
      FreshRunIff(p, Step(p, w, evs[0]), evs[1..]);
      hide Distinct;
      var rest := AllSalts(evs[1..]);
      if SaltsOf(evs[0]) != [] {
        DistinctFirst(SaltsOf(evs[0])[0], rest);
      } else {
        assert AllSalts(evs) == rest;
      }
    }
  }

  lemma DistinctFirst(x: Bytes, rest: seq<Bytes>)
    ensures Distinct([x] + rest) <==> x !in rest && Distinct(rest)
  {
    var all := [x] + rest;
    assert all[0] == x && forall i :: 0 <= i < |rest| ==> all[i + 1] == rest[i];
    if Distinct(all) {
      forall i, j | 0 <= i < j < |rest| ensures rest[i] != rest[j] {
        assert all[i + 1] != all[j + 1];
      }
    }
  }

  lemma StepSalts(p: Primitives, w: World, ev: Event)
    ensures forall salt :: salt in Step(p, w, ev).salts <==> salt in w.salts || salt in SaltsOf(ev)
  {
    hide CreateFile, OpenSession, SealFile, WrapKey;
  }

  /** The nonces an event draws, in order. */
  function NoncesOf(ev: Event): seq<Bytes> {
    match ev
    case Create(_, _, _, d) => [d.wrapNonce, d.bodyNonce]
    case Save(_, _, nonce) => [nonce]
    case ChangePassword(_, _, _, d) => [d.wrapNonce, d.bodyNonce]
    case _ => []
  }

  function AllNonces(evs: seq<Event>): seq<Bytes> {
    if evs == [] then [] else NoncesOf(evs[0]) + AllNonces(evs[1..])
  }

  function LogNonces(log: Log): (r: seq<Bytes>)
    ensures |r| == |log| && forall i :: 0 <= i < |log| ==> r[i] == log[i].nonce
  {
    seq(|log|, i requires 0 <= i < |log| => log[i].nonce)
  }

  /** Every sealing uses the next nonce drawn for it, and no other. */
  lemma StepNonces(p: Primitives, w: World, ev: Event)
    ensures var log, log' := w.log, Step(p, w, ev).log;
            && log <= log' && |log'| - |log| <= |NoncesOf(ev)|
            && forall i :: |log| <= i < |log'| ==> log'[i].nonce == NoncesOf(ev)[i - |log|]
  {
    hide BuildKdfHeader, BuildFullHeader, Serialize, DeriveKey, OpenSession, CreatedSession;
  }

  lemma DistinctPart(log: seq<Bytes>, drawn: seq<Bytes>, used: seq<Bytes>, later: seq<Bytes>)
    requires Distinct(log + (drawn + later)) && used <= drawn
    ensures Distinct(log + used + later)
  {
    var all := log + (drawn + later);
    var n := |log| + |used|;
    var some := log + used + later;
    assert forall i :: 0 <= i < n ==> some[i] == all[i];
    assert forall i :: n <= i < |some| ==> some[i] == all[i + (|drawn| - |used|)];
  }

  /** As long as the drawn nonces do not repeat, no two sealings share a nonce: in particular no key
      is ever used twice with one nonce, across all vaults, sessions and branches. */
  lemma {:induction false} NoncesNeverRepeat(p: Primitives, w: World, evs: seq<Event>)
    requires Distinct(LogNonces(w.log) + AllNonces(evs))
    ensures Distinct(LogNonces(Run(p, w, evs).log))
    decreases |evs|
  {
    hide Step;
    if evs == [] {
      assert LogNonces(w.log) + AllNonces(evs) == LogNonces(w.log);
    } else {
      var w' := Step(p, w, evs[0]);
      StepNonces(p, w, evs[0]);
      var used := LogNonces(w'.log)[|w.log|..];
      assert LogNonces(w'.log) == LogNonces(w.log) + used && used <= NoncesOf(evs[0]);
      hide Distinct;
      DistinctPart(LogNonces(w.log), NoncesOf(evs[0]), used, AllNonces(evs[1..]));
      NoncesNeverRepeat(p, w', evs[1..]);
    }
  }

  lemma StepExtends(p: Primitives, w: World, ev: Event)
    ensures w.log <= Step(p, w, ev).log
  {
    hide CreateFile, OpenSession, SealFile, WrapKey;
  }

  lemma {:induction false} RunExtends(p: Primitives, w: World, evs: seq<Event>)
    ensures w.log <= Run(p, w, evs).log
    decreases |evs|
  {
    hide Step;
    if evs != [] {
      StepExtends(p, w, evs[0]);
      RunExtends(p, Step(p, w, evs[0]), evs[1..]);
    }
  }
}
