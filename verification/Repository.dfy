/** Entry CRUD with write-through persistence under a lock (repository.py).

    The functions say what each call does to the repository, the file and the sealed log; class
    `VaultRepository` does it in place. New identifiers, clock readings, random draws and the
    behaviour of the file system are parameters. */
module Repository {
  import opened Basics
  import opened Kdf
  import opened Aead
  import opened Vault
  import opened JsonText
  import opened Entries
  import opened Storage
  import opened Locking

  datatype Changes = Changes(service: Option<Text>, username: Option<Text>, password: Option<Text>, notes: Option<Text>)

  datatype Mutation =
    | Add(entry: Entry)
    | Update(updateId: Text, changes: Changes, now: Text)
    | Delete(deleteId: Text)

  /** Where the first entry with this id is. */
  function Position(entries: seq<Entry>, id: Text): (r: Option<nat>)
    ensures r.None? <==> forall i :: 0 <= i < |entries| ==> entries[i].id != id
    ensures r.Some? ==> r.value < |entries| && entries[r.value].id == id && forall i :: 0 <= i < r.value ==> entries[i].id != id
  {
    if entries == [] then None
    else if entries[0].id == id then Some(0)
    else
      match Position(entries[1..], id)
      case None => None
      case Some(i) => Some(i + 1)
  }

  function OrElse<T>(o: Option<T>, default: T): T {
    if o.Some? then o.value else default
  }

  /** Only the fields given change, and the update time. */
  function Updated(e: Entry, c: Changes, now: Text): (u: Entry)
    ensures u.id == e.id && u.createdAt == e.createdAt && u.updatedAt == now
    ensures (c.service.None? ==> u.service == e.service) && (c.username.None? ==> u.username == e.username)
    ensures (c.password.None? ==> u.password == e.password) && (c.notes.None? ==> u.notes == e.notes)
    ensures (c.service.Some? ==> u.service == c.service.value) && (c.username.Some? ==> u.username == c.username.value)
    ensures (c.password.Some? ==> u.password == c.password.value) && (c.notes.Some? ==> u.notes == c.notes.value)
  {
    e.(service := OrElse(c.service, e.service), username := OrElse(c.username, e.username),
       password := OrElse(c.password, e.password), notes := OrElse(c.notes, e.notes), updatedAt := now)
  }

  /** What a mutation makes of the list of entries. */
  function Apply(entries: seq<Entry>, m: Mutation): Result<seq<Entry>> {
    match m
    case Add(e) => Ok(entries + [e])
    case Update(id, c, now) =>
      (match Position(entries, id)
       case None => Err(EntryNotFoundError)
       case Some(i) => Ok(entries[i := Updated(entries[i], c, now)]))
    case Delete(id) =>
      (match Position(entries, id)
       case None => Err(EntryNotFoundError)
       case Some(i) => Ok(entries[..i] + entries[i + 1..]))
  }

  datatype Repo = Repo(session: Session, entries: seq<Entry>, closed: bool)

  /** What a repository call can change outside the repository: the vault file and the log. */
  datatype Store = Store(disk: Option<Bytes>, log: Log)

  datatype RepoStep = RepoStep(repo: Repo, store: Store, result: Result<()>)

  /** Hands the file a session call returned to `write_atomic`. */
  function WriteStep(store: Store, repo: Repo, s: SessionStep, w: Weather): RepoStep {
    match s.result
    case Err(e) => RepoStep(repo.(session := s.session), Store(store.disk, s.log), Err(e))
    case Ok(data) =>
      RepoStep(repo.(session := s.session),
               Store(if w.Replaces() then Some(data) else store.disk, s.log),
               if w.fault.NoFault? then Ok(()) else Err(OSError))
  }

  function Persist(p: Primitives, store: Store, repo: Repo, nonce: Nonce, w: Weather): RepoStep {
    WriteStep(store, repo, SaveSession(p, store.log, repo.session, SerializeEntries(repo.entries), nonce), w)
  }

  /** The list changes first, the file after it. */
  function Mutate(p: Primitives, store: Store, repo: Repo, m: Mutation, nonce: Nonce, w: Weather): RepoStep {
    match Apply(repo.entries, m)
    case Err(e) => RepoStep(repo, store, Err(e))
    case Ok(entries) => Persist(p, store, repo.(entries := entries), nonce, w)
  }

  function ChangeMaster(p: Primitives, store: Store, repo: Repo, password: Bytes, params: Option<Argon2Parameters>,
                        d: ChangeDraw, w: Weather): RepoStep {
    WriteStep(store, repo, ChangeSession(p, store.log, repo.session, password, params, d), w)
  }

  function CloseRepo(repo: Repo): Repo {
    if repo.closed then repo else Repo(CloseSession(repo.session), [], true)
  }

  /** What opening a file gives: unlock, then decode the body. */
  function LoadRepo(p: Primitives, log: Log, password: Bytes, data: Bytes): Result<Repo> {
    var s :- OpenSession(p, log, password, data);
    var plaintext :- ReadSession(s);
    var entries :- DeserializeEntries(plaintext);
    Ok(Repo(s, entries, false))
  }

  function LoadStore(p: Primitives, store: Store, password: Bytes): Result<Repo> {
    if store.disk.None? then Err(FileNotFoundError) else LoadRepo(p, store.log, password, store.disk.value)
  }

  datatype CreateStep = CreateStep(store: Store, result: Result<Repo>)

  function CreateRepo(p: Primitives, store: Store, password: Bytes, params: Option<Argon2Parameters>, d: CreateDraw,
                      w: Weather): CreateStep {
    var c := CreateFile(p, store.log, password, SerializeEntries([]), params, d);
    match c.result
    case Err(e) => CreateStep(Store(store.disk, c.log), Err(e))
    case Ok(data) =>
      var store' := Store(if w.Replaces() then Some(data) else store.disk, c.log);
      CreateStep(store', if w.fault.NoFault? then LoadRepo(p, c.log, password, data) else Err(OSError))
  }

  /** The first of the drawn ids that no entry has. */
  function FreshId(entries: seq<Entry>, draws: seq<Text>): (id: Text)
    requires exists d :: d in draws && Position(entries, d).None?
    ensures exists i :: 0 <= i < |draws| && draws[i] == id && Position(entries, id).None?
                        && forall j :: 0 <= j < i ==> Position(entries, draws[j]).Some?
  {
    if Position(entries, draws[0]).None? then draws[0] else FreshId(entries, draws[1..])
  }

  /** `list.index`: the first entry equal to `e`. */
  function FirstEqual(entries: seq<Entry>, e: Entry): (i: nat)
    requires e in entries
    ensures i < |entries| && entries[i] == e && e !in entries[..i]
  {
    if entries[0] == e then 0 else 1 + FirstEqual(entries[1..], e)
  }

  /** Looking an entry up by equality finds the very position it was found at by id, also when
      ids repeat. */
  lemma FirstEqualIsPosition(entries: seq<Entry>, id: Text)
    requires Position(entries, id).Some?
    ensures var i := Position(entries, id).value;
            entries[i] in entries && FirstEqual(entries, entries[i]) == i
  {
    var i := Position(entries, id).value;
    var j := FirstEqual(entries, entries[i]);
    assert j <= i;
  }

  class VaultRepository {
    const path: Path
    const unlocked: UnlockedVault
    const lock: FileLock
    var entries: seq<Entry>
    var closed: bool

    /** Holds the lock exactly while open. */
    ghost predicate Valid(kernel: Kernel)
      reads this, unlocked, lock, kernel
    {
      && unlocked.Valid() && kernel.Valid() && lock.Valid(kernel) && lock.lockPath == path + ".lock"
      && (closed <==> lock.fd.None?)
    }

    ghost function View(): Repo
      reads this, unlocked, unlocked.dek, unlocked.plaintext
    {
      Repo(unlocked.View(), entries, closed)
    }

    ghost function StoreOf(engine: Engine, files: FileSystem): Store
      reads this, engine, files
      requires files.Valid()
    {
      Store(files.fs.Visible(path), engine.log)
    }

    constructor (path: Path, unlocked: UnlockedVault, lock: FileLock, entries: seq<Entry>)
      ensures this.path == path && this.unlocked == unlocked && this.lock == lock
      ensures this.entries == entries && !closed
    {
      this.path := path;
      this.unlocked := unlocked;
      this.lock := lock;
      this.entries := entries;
      this.closed := false;
    }

    /** The first entry with this id. */
    method GetEntry(id: Text) returns (r: Result<Entry>)
      ensures r == match Position(entries, id)
                   case None => Err(EntryNotFoundError)
                   case Some(i) => Ok(entries[i])
    {
      for i := 0 to |entries|
        invariant forall j :: 0 <= j < i ==> entries[j].id != id
      {
        if entries[i].id == id {
          return Ok(entries[i]);
        }
      }
      return Err(EntryNotFoundError);
    }

    method Write(files: FileSystem, w: Weather, s: Result<Bytes>) returns (r: Result<()>)
      requires files.Valid() && w.Unused(files.fs, path)
      modifies files
      ensures files.Valid()
      ensures s.Err? ==> files.fs == old(files.fs) && r == Err(s.error)
      ensures s.Ok? ==> files.fs.Visible(path) == (if w.Replaces() then Some(s.value) else old(files.fs).Visible(path))
      ensures s.Ok? ==> r == if w.fault.NoFault? then Ok(()) else Err(OSError)
    {
      var data :- s;
      var written := files.WriteAtomic(path, data, w);
      r := if written.Ok? then Ok(()) else Err(OSError);
    }

    method PersistEntries(engine: Engine, files: FileSystem, nonce: Nonce, w: Weather) returns (r: Result<()>)
      requires unlocked.Valid() && files.Valid() && w.Unused(files.fs, path)
      modifies unlocked, unlocked.plaintext, engine, files
      ensures unlocked.Valid() && unlocked.dek == old(unlocked.dek)
      ensures unlocked.plaintext == old(unlocked.plaintext) || fresh(unlocked.plaintext)
      ensures files.Valid()
      ensures RepoStep(View(), StoreOf(engine, files), r)
           == Persist(engine.primitives, old(StoreOf(engine, files)), old(View()), nonce, w)
    {
      var data := unlocked.Save(engine, SerializeEntries(entries), nonce);
      r := Write(files, w, data);
    }

    /** Draws ids until one is unused, appends the new entry, and persists. */
    method AddEntry(engine: Engine, files: FileSystem, service: Text, username: Text, password: Text, notes: Text,
                    draws: seq<Text>, createdAt: Text, updatedAt: Text, nonce: Nonce, w: Weather)
      returns (r: Result<Entry>)
      requires unlocked.Valid() && files.Valid() && w.Unused(files.fs, path)
      requires exists d :: d in draws && Position(entries, d).None?
      modifies this`entries, unlocked, unlocked.plaintext, engine, files
      ensures unlocked.Valid() && unlocked.dek == old(unlocked.dek) && files.Valid()
      ensures unlocked.plaintext == old(unlocked.plaintext) || fresh(unlocked.plaintext)
      ensures var e := Entry(FreshId(old(entries), draws), service, username, password, notes, createdAt, updatedAt);
              var s := Mutate(engine.primitives, old(StoreOf(engine, files)), old(View()), Add(e), nonce, w);
              && View() == s.repo && StoreOf(engine, files) == s.store
              && r == match s.result
                      case Ok(_) => Ok(e)
                      case Err(error) => Err(error)
    {
      var i := 0;
      var entry := Entry(draws[i], service, username, password, notes, createdAt, updatedAt);
      while Position(entries, entry.id).Some?
        invariant i < |draws| && entry == Entry(draws[i], service, username, password, notes, createdAt, updatedAt)
        invariant exists d :: d in draws[i..] && Position(entries, d).None?
        invariant FreshId(entries, draws[i..]) == FreshId(entries, draws)
        decreases |draws| - i
      {
        assert draws[i..] == [draws[i]] + draws[i + 1..];
        i := i + 1;
        entry := entry.(id := draws[i]);
      }
      entries := entries + [entry];
      var _ :- PersistEntries(engine, files, nonce, w);
      return Ok(entry);
    }

    /** Replaces the entry in place; only the given fields and the update time change. */
    method UpdateEntry(engine: Engine, files: FileSystem, id: Text, changes: Changes, now: Text, nonce: Nonce,
                       w: Weather)
      returns (r: Result<Entry>)
      requires unlocked.Valid() && files.Valid() && w.Unused(files.fs, path)
      modifies this`entries, unlocked, unlocked.plaintext, engine, files
      ensures unlocked.Valid() && unlocked.dek == old(unlocked.dek) && files.Valid()
      ensures unlocked.plaintext == old(unlocked.plaintext) || fresh(unlocked.plaintext)
      ensures var s := Mutate(engine.primitives, old(StoreOf(engine, files)), old(View()), Update(id, changes, now), nonce, w);
              && View() == s.repo && StoreOf(engine, files) == s.store
              && match Position(old(entries), id)
                 case None => r == Err(EntryNotFoundError)
                 case Some(i) =>
                   r == match s.result
                        case Ok(_) => Ok(Updated(old(entries)[i], changes, now))
                        case Err(error) => Err(error)
    {
      var current :- GetEntry(id);
      var updated := Updated(current, changes, now);
      FirstEqualIsPosition(entries, id);
      entries := entries[FirstEqual(entries, current) := updated];
      var _ :- PersistEntries(engine, files, nonce, w);
      return Ok(updated);
    }

    method DeleteEntry(engine: Engine, files: FileSystem, id: Text, nonce: Nonce, w: Weather) returns (r: Result<()>)
      requires unlocked.Valid() && files.Valid() && w.Unused(files.fs, path)
      modifies this`entries, unlocked, unlocked.plaintext, engine, files
      ensures unlocked.Valid() && unlocked.dek == old(unlocked.dek) && files.Valid()
      ensures unlocked.plaintext == old(unlocked.plaintext) || fresh(unlocked.plaintext)
      ensures RepoStep(View(), StoreOf(engine, files), r)
           == Mutate(engine.primitives, old(StoreOf(engine, files)), old(View()), Delete(id), nonce, w)
    {
      hide Persist;
      var entry :- GetEntry(id);
      FirstEqualIsPosition(entries, id);
      var i := FirstEqual(entries, entry);
      entries := entries[..i] + entries[i + 1..];
      r := PersistEntries(engine, files, nonce, w);
    }

    method ChangeMasterPassword(engine: Engine, files: FileSystem, newPassword: Bytes,
                                params: Option<Argon2Parameters>, d: ChangeDraw, w: Weather)
      returns (r: Result<()>)
      requires unlocked.Valid() && files.Valid() && w.Unused(files.fs, path)
      modifies unlocked, engine, files
      ensures unlocked.Valid() && unlocked.dek == old(unlocked.dek) && files.Valid() && unlocked.plaintext == old(unlocked.plaintext)
      ensures RepoStep(View(), StoreOf(engine, files), r)
           == ChangeMaster(engine.primitives, old(StoreOf(engine, files)), old(View()), newPassword, params, d, w)
    {
      var data := unlocked.ChangePassword(engine, newPassword, params, d);
      r := Write(files, w, data);
    }

    /** Wipes the session, drops the entries and gives the lock back; idempotent. */
    method Close(kernel: Kernel)
      requires Valid(kernel)
      modifies this, unlocked, unlocked.dek, unlocked.plaintext, lock, kernel
      ensures Valid(kernel) && closed && View() == CloseRepo(old(View()))
      ensures old(closed) ==> View() == old(View())
      ensures !old(closed) ==> entries == [] && unlocked.closed
      ensures !old(closed) && !old(unlocked.closed) ==>
                && AllZero(unlocked.dek[..]) && AllZero(unlocked.plaintext[..])
                && unlocked.View() == old(unlocked.View()).(dek := unlocked.dek[..], plaintext := unlocked.plaintext[..], closed := true)
      ensures old(closed) ==> kernel.holders == old(kernel.holders) && kernel.open == old(kernel.open)
      ensures !old(closed) ==> kernel.holders == old(kernel.holders) - {lock.lockPath}
    {
      if closed {
        return;
      }
      unlocked.Close();
      entries := [];
      lock.Release(kernel);
      closed := true;
    }
  }

  /** Opens under the lock. The lock is held afterwards exactly when a repository is returned. */
  method OpenRepository(engine: Engine, files: FileSystem, kernel: Kernel, path: Path,
                        password: Bytes) returns (r: Result<VaultRepository>)
    requires files.Valid() && kernel.Valid()
    modifies kernel
    ensures kernel.Valid()
    ensures path + ".lock" in old(kernel.holders) ==> r == Err(LockedError)
    ensures path + ".lock" !in old(kernel.holders) ==>
              match LoadStore(engine.primitives, Store(files.fs.Visible(path), engine.log), password)
              case Ok(repo) => r.Ok? && r.value.View() == repo
              case Err(e) => r == Err(e)
    ensures r.Ok? ==> fresh(r.value) && r.value.Valid(kernel) && r.value.path == path
                      && kernel.holders.Keys == old(kernel.holders).Keys + {path + ".lock"}
    ensures r.Err? ==> kernel.holders == old(kernel.holders) && kernel.open == old(kernel.open)
  {
    var lock := new FileLock(path);
    var _ :- lock.Acquire(kernel);
    var data := files.fs.Visible(path);
    if data.None? {
      lock.Release(kernel);
      return Err(FileNotFoundError);
    }
    r := Construct(engine, kernel, path, password, data.value, lock);
  }

  /** The shared tail of `create` and `open`: unlock, decode, or release the lock. */
  method Construct(engine: Engine, kernel: Kernel, path: Path, password: Bytes, data: Bytes, lock: FileLock)
    returns (r: Result<VaultRepository>)
    requires kernel.Valid() && lock.Valid(kernel) && lock.fd.Some? && lock.lockPath == path + ".lock"
    modifies kernel, lock
    ensures kernel.Valid() && lock.Valid(kernel)
    ensures match LoadRepo(engine.primitives, engine.log, password, data)
            case Ok(repo) => r.Ok? && r.value.View() == repo
            case Err(e) => r == Err(e)
    ensures r.Ok? ==> fresh(r.value) && r.value.lock == lock && r.value.path == path && r.value.Valid(kernel)
                      && kernel.holders == old(kernel.holders) && kernel.open == old(kernel.open)
    ensures r.Err? ==> kernel.holders == old(kernel.holders) - {lock.lockPath} && kernel.open == old(kernel.open) - {old(lock.fd).value}
  {
    hide DeserializeEntries;
    var unlocked := OpenVault(engine, password, data);
    if unlocked.Err? {
      lock.Release(kernel);
      return Err(unlocked.error);
    }
    var plaintext := unlocked.value.Read();
    var entries := DeserializeEntries(plaintext.value);
    if entries.Err? {
      lock.Release(kernel);
      return Err(entries.error);
    }
    var repo := new VaultRepository(path, unlocked.value, lock, entries.value);
    return Ok(repo);
  }

  /** Creates an empty vault under the lock, refusing to overwrite. */
  method CreateRepository(engine: Engine, files: FileSystem, kernel: Kernel, path: Path, password: Bytes,
                          params: Option<Argon2Parameters>, d: CreateDraw, w: Weather) returns (r: Result<VaultRepository>)
    requires files.Valid() && kernel.Valid() && w.Unused(files.fs, path)
    modifies engine, files, kernel
    ensures kernel.Valid() && files.Valid()
    ensures old(files.fs).Visible(path).Some? ==> r == Err(FileExistsError)
    ensures old(files.fs).Visible(path).None? && path + ".lock" in old(kernel.holders) ==> r == Err(LockedError)
    ensures old(files.fs).Visible(path).Some? || path + ".lock" in old(kernel.holders) ==>
              files.fs == old(files.fs) && engine.log == old(engine.log)
    ensures old(files.fs).Visible(path).None? && path + ".lock" !in old(kernel.holders) ==>
              var c := CreateRepo(engine.primitives, Store(None, old(engine.log)), password, params, d, w);
              && Store(files.fs.Visible(path), engine.log) == c.store
              && match c.result
                 case Ok(repo) => r.Ok? && r.value.View() == repo
                 case Err(e) => r == Err(e)
    ensures r.Ok? ==> fresh(r.value) && r.value.Valid(kernel) && r.value.path == path
                      && kernel.holders.Keys == old(kernel.holders).Keys + {path + ".lock"}
    ensures r.Err? ==> kernel.holders == old(kernel.holders) && kernel.open == old(kernel.open)
  {
    hide CreateFile, LoadRepo, Fs.Visible, SerializeEntries, Attempt, States, CrashSafe, Fs.AfterCrash;
    if files.fs.Visible(path).Some? {
      return Err(FileExistsError);
    }
    var lock := new FileLock(path);
    var _ :- lock.Acquire(kernel);
    var data := Vault.Create(engine, password, SerializeEntries([]), params, d);
    if data.Err? {
      lock.Release(kernel);
      return Err(data.error);
    }
    var written := files.WriteAtomic(path, data.value, w);
    if written.Err? {
      lock.Release(kernel);
      return Err(OSError);
    }
    r := Construct(engine, kernel, path, password, data.value, lock);
  }
}
