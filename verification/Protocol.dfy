/** Any number of processes on one existing vault (locking.py, repository.py, storage.py).

    Each process locks, loads, changes its list and seals a file, replaces the vault with it call
    by call, and unlocks; the steps of different processes interleave in any order. A write may
    fail, and a process may die, between any two file-system calls; the kernel then drops its
    lock. The machine may crash at any point, which ends every process and leaves of the file
    system what was durable, and anything at all of what was not. */
module Protocol {
  import opened Basics
  import opened Kdf
  import opened Aead
  import opened FileFormat
  import opened Vault
  import opened VaultSessions
  import opened JsonText
  import opened Entries
  import opened Repository
  import opened EntryLists
  import opened Storage

  datatype Process =
    | Idle
    | Locked
    | Active(work: Work)
    | Dead

  /** How far a call of `write_atomic` has come. */
  datatype Stage =
    | Start
    | Created(temp: Name, inode: nat)
    | Written(temp: Name, inode: nat)
    | Flushed(temp: Name, inode: nat)
    | Renamed

  /** A process at work: its repository, the password its wrap is under, its last file (sealed or loaded),
      how far the write of that file has come if one is under way, and its mutations since its last
      completed replace, those in its last sealed body first. */
  datatype Work = Work(
    repo: Repo,
    password: Bytes,
    last: Bytes,
    stage: Option<Stage>,
    saved: seq<Mutation>,
    unsaved: seq<Mutation>)
  {
    /** A write is under way and has not reached the vault. */
    predicate Pending() {
      stage.Some? && !stage.value.Renamed?
    }
  }

  /** One content of the vault file, with the password it was sealed under and the mutations
      stored by the replaces up to it. */
  datatype Version = Version(file: Bytes, password: Bytes, committed: seq<Mutation>)

  /** The log, the locks and the file system are what the steps act on. `versions` and `durable`
      only record: the contents that renames have given the vault file, and which of them was the
      last when the directory was last synced. No step but the recording itself reads them. */
  datatype System = System(
    log: Log,
    salts: set<Bytes>,
    holder: Option<nat>,
    processes: map<nat, Process>,
    path: Name,
    fs: Fs,
    versions: seq<Version>,
    durable: nat)
  {
    function Of(pid: nat): Process {
      if pid in processes then processes[pid] else Idle
    }

    function With(pid: nat, p: Process): System {
      this.(processes := processes[pid := p])
    }

    ghost predicate Valid() {
      fs.Valid() && durable < |versions|
    }

    function Now(): Version
      requires versions != []
    {
      versions[|versions| - 1]
    }
  }

  function Files(versions: seq<Version>): (files: seq<Bytes>)
    ensures |files| == |versions| && forall i :: 0 <= i < |files| ==> files[i] == versions[i].file
  {
    seq(|versions|, i requires 0 <= i < |versions| => versions[i].file)
  }

  datatype Event =
    | Acquire(pid: nat)
    | Load(pid: nat, loadPassword: Bytes)
    | Change(pid: nat, mutation: Mutation, nonce: Nonce)
    | Rekey(pid: nat, newPassword: Bytes, params: Option<Argon2Parameters>, draw: ChangeDraw)
    | CreateTemp(pid: nat, temp: Name, inode: nat)
    | WriteData(pid: nat)
    | SyncData(pid: nat)
    | Replace(pid: nat)
    | SyncDirectory(pid: nat, works: bool)
    | WriteFails(pid: nat, written: nat, cleanupWorks: bool)
    | Close(pid: nat)
    | Die(pid: nat)
    | Crash(keep: map<Name, nat>, garbage: map<nat, Bytes>)

  /** An added entry has a generated id that its own list does not use, and a drawn salt is new. */
  predicate Fresh(s: System, ev: Event) {
    match ev
    case Change(pid, m, _) => NormalAdd(m) && (Ready(s, pid) ==> NewAdd(s.Of(pid).work.repo.entries, m))
    case Rekey(_, _, _, d) => d.salt !in s.salts
    case _ => true
  }

  /** The lock is exclusive and non-blocking: a second process is refused. */
  function DoAcquire(s: System, pid: nat): System {
    if s.Of(pid).Idle? && s.holder.None? then s.With(pid, Locked).(holder := Some(pid)) else s
  }

  /** What opening the vault gives. */
  function LoadFile(p: Primitives, s: System, password: Bytes): Result<Repo>
    requires s.Valid()
  {
    LoadStore(p, Store(s.fs.Visible(s.path), s.log), password)
  }

  /** Reads and opens the file; any error releases the lock. */
  function DoLoad(p: Primitives, s: System, pid: nat, password: Bytes): System
    requires s.Valid()
  {
    if !s.Of(pid).Locked? then s
    else
      match LoadFile(p, s, password)
      case Err(_) => s.With(pid, Idle).(holder := None)
      case Ok(repo) => s.With(pid, Active(Work(repo, password, s.fs.Visible(s.path).value, None, [], [])))
  }

  /** `add_entry` retries until the id is unused. */
  predicate NewAdd(entries: seq<Entry>, m: Mutation) {
    m.Add? ==> Position(entries, m.entry.id).None?
  }

  predicate Ready(s: System, pid: nat) {
    s.Of(pid).Active? && s.Of(pid).work.stage.None?
  }

  /** The in-memory half of a mutation: the list changes, then `save` seals a file. If `save`
      raises, the list keeps the change and there is no file. */
  function ChangeWork(p: Primitives, log: Log, a: Work, m: Mutation, nonce: Nonce): (Work, Log) {
    match Apply(a.repo.entries, m)
    case Err(_) => (a, log)
    case Ok(entries) =>
      var r := SaveSession(p, log, a.repo.session, SerializeEntries(entries), nonce);
      var repo := Repo(r.session, entries, a.repo.closed);
      match r.result
      case Err(_) => (a.(repo := repo, unsaved := a.unsaved + [m]), r.log)
      case Ok(data) => (Work(repo, a.password, data, Some(Start), a.saved + a.unsaved + [m], []), r.log)
  }

  function DoChange(p: Primitives, s: System, pid: nat, m: Mutation, nonce: Nonce): System {
    if !Ready(s, pid) then s
    else
      var (a, log) := ChangeWork(p, s.log, s.Of(pid).work, m, nonce);
      s.With(pid, Active(a)).(log := log)
  }

  function RekeyWork(p: Primitives, log: Log, a: Work, password: Bytes, params: Option<Argon2Parameters>,
                     d: ChangeDraw): (Work, Log) {
    var r := ChangeSession(p, log, a.repo.session, password, params, d);
    match r.result
    case Err(_) => (a.(repo := a.repo.(session := r.session)), r.log)
    case Ok(data) => (a.(repo := a.repo.(session := r.session), password := password, last := data, stage := Some(Start)), r.log)
  }

  function DoRekey(p: Primitives, s: System, pid: nat, password: Bytes, params: Option<Argon2Parameters>,
                   d: ChangeDraw): System {
    if !Ready(s, pid) then s.(salts := s.salts + {d.salt})
    else
      var (a, log) := RekeyWork(p, s.log, s.Of(pid).work, password, params, d);
      s.With(pid, Active(a)).(log := log, salts := s.salts + {d.salt})
  }

  /** The write of this process is about to do its next call. */
  predicate At(s: System, pid: nat, stage: Stage) {
    s.Of(pid).Active? && s.Of(pid).work.stage == Some(stage)
  }

  predicate Writing(s: System, pid: nat) {
    s.Of(pid).Active? && s.Of(pid).work.stage.Some?
  }

  /** The write of this process comes to `stage`, with this file system. */
  function ToStage(s: System, pid: nat, stage: Option<Stage>, fs: Fs): System
    requires s.Of(pid).Active?
  {
    s.With(pid, Active(s.Of(pid).work.(stage := stage))).(fs := fs)
  }

  function DoCreateTemp(s: System, pid: nat, temp: Name, inode: nat): System
    requires s.Valid()
  {
    if !At(s, pid, Start) || temp == s.path || s.fs.Current(temp).Some? || inode in s.fs.inodes then s
    else ToStage(s, pid, Some(Created(temp, inode)), s.fs.CreateFile(temp, inode))
  }

  function DoWriteData(s: System, pid: nat): System
    requires s.Valid()
  {
    if !(Writing(s, pid) && s.Of(pid).work.stage.value.Created?) then s
    else
      var a := s.Of(pid).work;
      var w := a.stage.value;
      ToStage(s, pid, Some(Written(w.temp, w.inode)), s.fs.WriteFile(w.inode, a.last))
  }

  function DoSyncData(s: System, pid: nat): System
    requires s.Valid()
  {
    if !(Writing(s, pid) && s.Of(pid).work.stage.value.Written? && s.Of(pid).work.stage.value.inode in s.fs.inodes) then s
    else
      var w := s.Of(pid).work.stage.value;
      ToStage(s, pid, Some(Flushed(w.temp, w.inode)), s.fs.SyncFile(w.inode))
  }

  /** The vault is replaced: what was saved is stored, and recorded as the next version. */
  function Replaced(s: System, pid: nat, stage: Option<Stage>, fs: Fs, durable: nat): System
    requires s.versions != [] && s.Of(pid).Active?
  {
    var a := s.Of(pid).work;
    s.With(pid, Active(a.(stage := stage, saved := [])))
    .(fs := fs, versions := s.versions + [Version(a.last, a.password, s.Now().committed + a.saved)], durable := durable)
  }

  /** The rename: the mutations in the file are stored. */
  function DoReplace(s: System, pid: nat): System
    requires s.Valid()
  {
    if !(Writing(s, pid) && s.Of(pid).work.stage.value.Flushed? && s.Of(pid).work.stage.value.temp != s.path) then s
    else
      Replaced(s, pid, Some(Renamed), s.fs.Rename(s.Of(pid).work.stage.value.temp, s.path), s.durable)
  }

  /** Not every platform can sync a directory; the call returns all the same. */
  function DoSyncDirectory(s: System, pid: nat, works: bool): System
    requires s.Valid()
  {
    if !At(s, pid, Renamed) then s
    else if !works then ToStage(s, pid, None, s.fs)
    else ToStage(s, pid, None, s.fs.SyncDirectory()).(durable := |s.versions| - 1)
  }

  /** The file system after an exception in a write: part of the data may have been written, and
      the temporary file is removed if the cleanup works. */
  function AfterFailure(fs: Fs, data: Bytes, stage: Stage, written: nat, cleanupWorks: bool): (r: Fs)
    requires fs.Valid()
    ensures r.Valid()
  {
    if stage.Start? || stage.Renamed? then fs
    else
      var partial := if stage.Created? then fs.WriteFile(stage.inode, data[..Least(written, |data|)]) else fs;
      if cleanupWorks then partial.Unlink(stage.temp) else partial
  }

  function DoWriteFails(s: System, pid: nat, written: nat, cleanupWorks: bool): System
    requires s.Valid()
  {
    if !Writing(s, pid) then s
    else
      var a := s.Of(pid).work;
      ToStage(s, pid, None, AfterFailure(s.fs, a.last, a.stage.value, written, cleanupWorks))
  }

  function DoClose(s: System, pid: nat): System {
    if !Ready(s, pid) then s else s.With(pid, Idle).(holder := None)
  }

  function DoDie(s: System, pid: nat): System {
    s.With(pid, Dead).(holder := if s.holder == Some(pid) then None else s.holder)
  }

  /** The last recorded version with this content. */
  function VersionOf(versions: seq<Version>, content: Option<Bytes>): (k: Option<nat>)
    ensures k.Some? ==> k.value < |versions| && content == Some(versions[k.value].file)
    ensures k.None? ==> forall i :: 0 <= i < |versions| ==> content != Some(versions[i].file)
  {
    if versions == [] then None
    else if content == Some(versions[|versions| - 1].file) then Some(|versions| - 1)
    else VersionOf(versions[..|versions| - 1], content)
  }

  /** The machine goes down and comes back: no process, no lock, and a file system that has lost
      whatever it could. What is recorded is cut back to the content found. */
  function DoCrash(s: System, keep: map<Name, nat>, garbage: map<nat, Bytes>): System
    requires s.Valid()
  {
    var after := s.(processes := map[], holder := None, fs := s.fs.Crash(keep, garbage));
    match VersionOf(s.versions, after.fs.Visible(s.path))
    case None => after
    case Some(k) => after.(versions := s.versions[..k + 1], durable := k)
  }

  function Step(p: Primitives, s: System, ev: Event): (s': System)
    requires s.Valid()
    ensures s'.Valid() && s'.path == s.path
  {
    match ev
    case Acquire(pid) => DoAcquire(s, pid)
    case Load(pid, password) => DoLoad(p, s, pid, password)
    case Change(pid, m, nonce) => DoChange(p, s, pid, m, nonce)
    case Rekey(pid, password, params, d) => DoRekey(p, s, pid, password, params, d)
    case CreateTemp(pid, temp, inode) => DoCreateTemp(s, pid, temp, inode)
    case WriteData(pid) => DoWriteData(s, pid)
    case SyncData(pid) => DoSyncData(s, pid)
    case Replace(pid) => DoReplace(s, pid)
    case SyncDirectory(pid, works) => DoSyncDirectory(s, pid, works)
    case WriteFails(pid, written, cleanupWorks) => DoWriteFails(s, pid, written, cleanupWorks)
    case Close(pid) => DoClose(s, pid)
    case Die(pid) => DoDie(s, pid)
    case Crash(keep, garbage) => DoCrash(s, keep, garbage)
  }

  function Run(p: Primitives, s: System, evs: seq<Event>): (s': System)
    requires s.Valid()
    ensures s'.Valid() && s'.path == s.path
    decreases |evs|
  {
    if evs == [] then s else Run(p, Step(p, s, evs[0]), evs[1..])
  }

  predicate FreshRun(p: Primitives, s: System, evs: seq<Event>)
    requires s.Valid()
    decreases |evs|
  {
    evs == [] || (Fresh(s, evs[0]) && FreshRun(p, Step(p, s, evs[0]), evs[1..]))
  }

  /** The system without its records. */
  function Unrecorded(s: System): System {
    s.(versions := [], durable := 0)
  }

  /** The records are never read: with any others every run takes the same course. */
  lemma {:induction false} RecordsUnread(p: Primitives, s: System, other: System, evs: seq<Event>)
    requires s.Valid() && other.Valid() && Unrecorded(s) == Unrecorded(other)
    ensures Unrecorded(Run(p, s, evs)) == Unrecorded(Run(p, other, evs))
    ensures FreshRun(p, s, evs) <==> FreshRun(p, other, evs)
    decreases |evs|
  {
    hide Step, Fresh, Unrecorded;
    if evs != [] {
      StepUnread(p, s, other, evs[0]);
      RecordsUnread(p, Step(p, s, evs[0]), Step(p, other, evs[0]), evs[1..]);
    }
  }

  lemma StepUnread(p: Primitives, s: System, other: System, ev: Event)
    requires s.Valid() && other.Valid() && Unrecorded(s) == Unrecorded(other)
    ensures Unrecorded(Step(p, s, ev)) == Unrecorded(Step(p, other, ev))
    ensures Fresh(s, ev) <==> Fresh(other, ev)
  {
    hide LoadStore, ChangeWork, RekeyWork, Fs.Visible, Fs.Crash, DoCreateTemp, DoWriteData, DoSyncData, DoReplace, DoSyncDirectory, DoWriteFails;
    WriteUnread(s, other, ev);
  }

  lemma WriteUnread(s: System, other: System, ev: Event)
    requires s.Valid() && other.Valid() && Unrecorded(s) == Unrecorded(other)
    ensures match ev
            case CreateTemp(pid, temp, inode) =>
              Unrecorded(DoCreateTemp(s, pid, temp, inode)) == Unrecorded(DoCreateTemp(other, pid, temp, inode))
            case WriteData(pid) => Unrecorded(DoWriteData(s, pid)) == Unrecorded(DoWriteData(other, pid))
            case SyncData(pid) => Unrecorded(DoSyncData(s, pid)) == Unrecorded(DoSyncData(other, pid))
            case Replace(pid) => Unrecorded(DoReplace(s, pid)) == Unrecorded(DoReplace(other, pid))
            case SyncDirectory(pid, works) => Unrecorded(DoSyncDirectory(s, pid, works)) == Unrecorded(DoSyncDirectory(other, pid, works))
            case WriteFails(pid, written, cleanupWorks) =>
              Unrecorded(DoWriteFails(s, pid, written, cleanupWorks)) == Unrecorded(DoWriteFails(other, pid, written, cleanupWorks))
            case _ => true
  {
    hide AfterFailure, Fs.CreateFile, Fs.Rename, Fs.SyncDirectory, Fs.SyncFile, Fs.WriteFile;
  }

  /** What the environment of a run has to provide, step by step: a new salt for every password change,
      and for every addition an id that the list does not use and that has no surrogate pair to merge. */
  lemma {:induction false} FreshRunIff(p: Primitives, s: System, evs: seq<Event>)
    requires s.Valid()
    ensures FreshRun(p, s, evs) <==> forall k :: 0 <= k < |evs| ==> Provided(Run(p, s, evs[..k]), evs[k])
    decreases |evs|
  {
    hide Step;
    if evs != [] {
      var s1, rest := Step(p, s, evs[0]), evs[1..];
      FreshRunIff(p, s1, rest);
      FreshIffProvided(s, evs[0]);
      assert evs[..0] == [];
      forall k | 0 <= k < |rest| ensures Run(p, s, evs[..k + 1]) == Run(p, s1, rest[..k]) && rest[k] == evs[k + 1] {
        assert evs[..k + 1][1..] == rest[..k];
      }
      hide Fresh, Provided, Run;
      if FreshRun(p, s1, rest) && Provided(s, evs[0]) {
        forall k | 0 <= k < |evs| ensures Provided(Run(p, s, evs[..k]), evs[k]) {
          if k > 0 {
            assert Provided(Run(p, s1, rest[..k - 1]), rest[k - 1]);
          }
        }
      }
      if forall k :: 0 <= k < |evs| ==> Provided(Run(p, s, evs[..k]), evs[k]) {
        forall k | 0 <= k < |rest| ensures Provided(Run(p, s1, rest[..k]), rest[k]) {
          assert Provided(Run(p, s, evs[..k + 1]), evs[k + 1]);
        }
        assert Provided(Run(p, s, evs[..0]), evs[0]);
      }
    }
  }

  predicate Provided(s: System, ev: Event) {
    && (ev.Rekey? ==> ev.draw.salt !in s.salts)
    && (ev.Change? && ev.mutation.Add? ==>
          && Merge(ev.mutation.entry.id) == ev.mutation.entry.id
          && (s.Of(ev.pid).Active? && s.Of(ev.pid).work.stage == None ==>
                forall i :: 0 <= i < |s.Of(ev.pid).work.repo.entries| ==>
                  s.Of(ev.pid).work.repo.entries[i].id != ev.mutation.entry.id))
  }

  lemma FreshIffProvided(s: System, ev: Event)
    ensures Fresh(s, ev) <==> Provided(s, ev)
  {
  }

  function Counter(file: Bytes): int {
    if Parse(file).Ok? then Parse(file).value.counter else -1
  }

  /** The save counters of the successive contents strictly increase, and every content keeps the
      mutations stored in the earlier ones. */
  ghost predicate Increasing(versions: seq<Version>) {
    forall i, j :: 0 <= i < j < |versions| ==>
      Counter(versions[i].file) < Counter(versions[j].file) && versions[i].committed <= versions[j].committed
  }

  /** A content of the vault file decodes to its committed history. */
  ghost predicate VersionOk(p: Primitives, log: Log, base: seq<Entry>, v: Version) {
    && OpenSession(p, log, v.password, v.file).Ok?
    && DeserializeEntries(OpenSession(p, log, v.password, v.file).value.plaintext) == Ok(MergeEntries(Fold(base, v.committed)))
    && DistinctIds(Fold(base, v.committed)) && NormalAdds(v.committed)
  }

  ghost predicate VersionsOk(p: Primitives, log: Log, base: seq<Entry>, versions: seq<Version>) {
    forall i :: 0 <= i < |versions| ==> VersionOk(p, log, base, versions[i])
  }

  /** The session reopens from its last file; its sealed body holds the committed history and its
      saved mutations, its list also the unsaved ones; its counter is ahead of the disk's. */
  ghost predicate WorkOk(p: Primitives, log: Log, base: seq<Entry>, now: Version, a: Work) {
    && !a.repo.closed && Reopens(p, log, a.password, a.last, a.repo.session)
    && DeserializeEntries(a.repo.session.plaintext) == Ok(MergeEntries(Fold(base, now.committed + a.saved)))
    && DistinctIds(Fold(base, now.committed + a.saved)) && DistinctIds(a.repo.entries)
    && NormalAdds(a.saved + a.unsaved)
    && Alike(a.repo.entries, Fold(base, now.committed + a.saved + a.unsaved))
    && (if a.Pending() then Counter(now.file) < a.repo.session.counter else Counter(now.file) <= a.repo.session.counter)
  }

  /** The temporary file of a write is what its stage says, and no link of the vault leads to it. */
  ghost predicate StageOk(fs: Fs, path: Name, a: Work)
    requires fs.Valid()
  {
    a.Pending() && !a.stage.value.Start? ==>
      var w := a.stage.value;
      && w.temp != path && fs.Current(w.temp) == Some(w.inode) && w.inode in fs.inodes && Some(w.inode) !in fs.Links(path)
      && (!w.Created? ==> fs.inodes[w.inode].content == a.last) && (w.Flushed? ==> fs.inodes[w.inode].synced)
  }

  /** In particular the records agree with the file system: a process reads the last version at the
      vault's path, and a crash leaves one of those from `durable` on. */
  ghost predicate Inv(p: Primitives, base: seq<Entry>, s: System) {
    && LogInv(p, s.log, s.salts) && s.Valid() && NormalIds(base) && Refines(s.fs, s.path, Files(s.versions), s.durable)
    && (forall pid: nat :: PastLock(s.Of(pid)) ==> s.holder == Some(pid))
    && VersionsOk(p, s.log, base, s.versions) && Increasing(s.versions)
    && (forall pid: nat :: s.Of(pid).Active? ==>
          WorkOk(p, s.log, base, s.Now(), s.Of(pid).work) && StageOk(s.fs, s.path, s.Of(pid).work))
  }

  lemma VersionExtended(p: Primitives, log: Log, log': Log, base: seq<Entry>, v: Version)
    requires log <= log' && VersionOk(p, log, base, v)
    ensures VersionOk(p, log', base, v)
  {
    OpenExtended(p, log, log', v.password, v.file);
  }

  lemma VersionsExtended(p: Primitives, log: Log, log': Log, base: seq<Entry>, versions: seq<Version>)
    requires log <= log' && VersionsOk(p, log, base, versions)
    ensures VersionsOk(p, log', base, versions)
  {
    hide VersionOk;
    forall i | 0 <= i < |versions| ensures VersionOk(p, log', base, versions[i]) {
      VersionExtended(p, log, log', base, versions[i]);
    }
  }

  lemma VersionsMore(p: Primitives, log: Log, base: seq<Entry>, versions: seq<Version>, v: Version)
    requires VersionsOk(p, log, base, versions) && VersionOk(p, log, base, v)
    requires versions != [] && Increasing(versions) && Counter(versions[|versions| - 1].file) < Counter(v.file)
    requires versions[|versions| - 1].committed <= v.committed
    ensures VersionsOk(p, log, base, versions + [v]) && Increasing(versions + [v])
  {
    hide VersionOk, Counter;
  }

  /** A loaded session holds exactly the committed history. */
  lemma LoadedOk(p: Primitives, log: Log, salts: set<Bytes>, base: seq<Entry>, now: Version, other: Bytes)
    requires p.Sound() && LogInv(p, log, salts) && NormalIds(base)
    requires VersionOk(p, log, base, now)
    requires LoadRepo(p, log, other, now.file).Ok?
    ensures WorkOk(p, log, base, now, Work(LoadRepo(p, log, other, now.file).value, other, now.file, None, [], []))
  {
    OpenAgree(p, log, salts, now.password, other, now.file);
    OpenFacts(p, log, salts, other, now.file);
    hide OpenSession, DeserializeEntries, Fold, Merge, Parse, MergeEntries, DistinctIds;
    assert now.committed + [] == now.committed && now.committed + [] + [] == now.committed;
    var es := Fold(base, now.committed);
    FoldNormal(base, now.committed);
    MergeEntriesTwice(es);
    AlikeDistinct(es, MergeEntries(es));
    assert NormalAdds([]);
  }

  /** The history grows by a mutation the list accepted. */
  lemma HistoryGrows(base: seq<Entry>, committed: seq<Mutation>, saved: seq<Mutation>, unsaved: seq<Mutation>,
                     entries: seq<Entry>, m: Mutation)
    requires NormalAdd(m) && NormalAdds(saved + unsaved)
    requires Alike(entries, Fold(base, committed + saved + unsaved)) && Apply(entries, m).Ok?
    ensures Alike(Apply(entries, m).value, Fold(base, committed + saved + (unsaved + [m])))
    ensures Alike(Apply(entries, m).value, Fold(base, committed + (saved + unsaved + [m])))
    ensures NormalAdds(saved + unsaved + [m]) && NormalAdds(saved + (unsaved + [m]))
  {
    hide Apply, Alike, Fold, NormalAdd;
    var h := committed + saved + unsaved;
    assert committed + saved + (unsaved + [m]) == h + [m] && committed + (saved + unsaved + [m]) == h + [m];
    ApplyAlike(entries, Fold(base, h), m);
    FoldMore(base, h, m);
    assert saved + unsaved + [m] == saved + (unsaved + [m]);
  }

  lemma ChangeWorkOk(p: Primitives, log: Log, salts: set<Bytes>, base: seq<Entry>, now: Version,
                    a: Work, m: Mutation, nonce: Nonce)
    requires p.Sound() && LogInv(p, log, salts) && WorkOk(p, log, base, now, a) && a.stage.None?
    requires NormalAdd(m) && NewAdd(a.repo.entries, m)
    ensures var (a', log') := ChangeWork(p, log, a, m, nonce);
            LogInv(p, log', salts) && log <= log' && WorkOk(p, log', base, now, a') && a'.stage in {None, Some(Start)}
  {
    hide OpenSession, DeserializeEntries, SerializeEntries, Fold, Merge, Parse, MergeEntries, Apply, SaveSession,
         NormalAdds, NormalIds, LogInv, DistinctIds, Position;
    if Apply(a.repo.entries, m).Ok? {
      var entries := Apply(a.repo.entries, m).value;
      HistoryGrows(base, now.committed, a.saved, a.unsaved, a.repo.entries, m);
      SaveOpens(p, log, salts, a.password, a.last, a.repo.session, SerializeEntries(entries), nonce);
      DeserializeSerialize(entries);
      ApplyDistinct(a.repo.entries, m);
      AlikeDistinct(entries, Fold(base, now.committed + (a.saved + a.unsaved + [m])));
      var more := a.saved + a.unsaved + [m];
      assert now.committed + more + [] == now.committed + more && more + [] == more;
    }
  }

  lemma RekeyWorkOk(p: Primitives, log: Log, salts: set<Bytes>, base: seq<Entry>, now: Version,
                   a: Work, password: Bytes, params: Option<Argon2Parameters>, d: ChangeDraw)
    requires p.Sound() && LogInv(p, log, salts) && WorkOk(p, log, base, now, a) && a.stage.None? && d.salt !in salts
    ensures var (a', log') := RekeyWork(p, log, a, password, params, d);
            LogInv(p, log', salts + {d.salt}) && log <= log' && WorkOk(p, log', base, now, a') && a'.stage in {None, Some(Start)}
  {
    ChangeOpens(p, log, salts, a.password, a.last, a.repo.session, password, params, d);
  }

  lemma ReplaceOk(p: Primitives, log: Log, salts: set<Bytes>, base: seq<Entry>, now: Version, a: Work)
    requires p.Sound() && LogInv(p, log, salts) && VersionOk(p, log, base, now) && WorkOk(p, log, base, now, a) && a.Pending()
    ensures var next := Version(a.last, a.password, now.committed + a.saved);
            && VersionOk(p, log, base, next) && Counter(now.file) < Counter(next.file)
            && WorkOk(p, log, base, next, a.(stage := Some(Renamed), saved := []))
  {
    OpenFacts(p, log, salts, a.password, a.last);
    hide OpenSession, DeserializeEntries, Fold, Merge, Parse, MergeEntries, NormalIds, NormalAdd, DistinctIds;
    assert now.committed + a.saved + [] == now.committed + a.saved && [] + a.unsaved == a.unsaved;
    assert forall m :: m in a.saved || m in a.unsaved ==> m in a.saved + a.unsaved;
    assert NormalAdds(a.unsaved) && NormalAdds(now.committed + a.saved);
  }

  predicate PastLock(q: Process) {
    q.Locked? || q.Active?
  }

  lemma NowOk(p: Primitives, base: seq<Entry>, s: System)
    requires Inv(p, base, s)
    ensures VersionOk(p, s.log, base, s.Now())
  {
    hide VersionOk, WorkOk, LogInv, Increasing;
  }

  lemma InvSays(p: Primitives, base: seq<Entry>, s: System, pid: nat)
    requires Inv(p, base, s)
    ensures s.Valid() && VersionOk(p, s.log, base, s.Now()) && s.fs.Visible(s.path) == Some(s.Now().file)
    ensures s.Of(pid).Active? ==> WorkOk(p, s.log, base, s.Now(), s.Of(pid).work)
  {
    hide VersionOk, WorkOk, LogInv, Increasing, StageOk;
    LoadFileIs(p, s, []);
  }

  /** A step of the only process past the lock, or of one that takes a free lock. */
  lemma HolderStep(p: Primitives, base: seq<Entry>, s: System, s': System, pid: nat, q: Process)
    requires Inv(p, base, s) && (s.holder.None? || s.holder == Some(pid))
    requires s'.processes == s.processes[pid := q] && (PastLock(q) ==> s'.holder == Some(pid))
    requires LogInv(p, s'.log, s'.salts) && s'.Valid() && Refines(s'.fs, s'.path, Files(s'.versions), s'.durable)
    requires VersionsOk(p, s'.log, base, s'.versions) && Increasing(s'.versions)
    requires q.Active? ==> WorkOk(p, s'.log, base, s'.Now(), q.work) && StageOk(s'.fs, s'.path, q.work)
    ensures Inv(p, base, s')
  {
    hide WorkOk, VersionsOk, LogInv, Increasing, NormalAdds, NormalIds;
    forall other: nat ensures s'.Of(other) == if other == pid then q else s.Of(other) {
    }
    assert forall other: nat :: other != pid ==> !PastLock(s.Of(other));
  }

  /** A step that only seals and changes the acting process's own work. */
  lemma LocalStep(p: Primitives, base: seq<Entry>, s: System, pid: nat, log: Log, salts: set<Bytes>, a: Work)
    requires Inv(p, base, s) && s.Of(pid).Active? && s.log <= log && LogInv(p, log, salts)
    requires WorkOk(p, log, base, s.Now(), a) && StageOk(s.fs, s.path, a)
    ensures Inv(p, base, s.With(pid, Active(a)).(log := log, salts := salts))
  {
    hide WorkOk, VersionsOk, LogInv, Increasing, NormalAdds, NormalIds;
    VersionsExtended(p, s.log, log, base, s.versions);
    assert PastLock(s.Of(pid));
    HolderStep(p, base, s, s.With(pid, Active(a)).(log := log, salts := salts), pid, Active(a));
  }

  /** What a process reads at the vault's path is the last recorded version. */
  lemma LoadFileIs(p: Primitives, s: System, password: Bytes)
    requires s.Valid() && Refines(s.fs, s.path, Files(s.versions), s.durable)
    ensures s.fs.Visible(s.path) == Some(s.Now().file)
    ensures LoadFile(p, s, password) == LoadRepo(p, s.log, password, s.Now().file)
  {
    hide LoadRepo;
  }

  lemma LoadInv(p: Primitives, base: seq<Entry>, s: System, pid: nat, password: Bytes)
    requires p.Sound() && Inv(p, base, s)
    ensures Inv(p, base, DoLoad(p, s, pid, password))
  {
    hide WorkOk, VersionsOk, VersionOk, LogInv, Increasing, LoadRepo, LoadFile, NormalAdds, NormalIds, Refines;
    var s' := DoLoad(p, s, pid, password);
    LoadFileIs(p, s, password);
    if s.Of(pid).Locked? {
      assert PastLock(s.Of(pid));
      if LoadFile(p, s, password).Ok? {
        NowOk(p, base, s);
        LoadedOk(p, s.log, s.salts, base, s.Now(), password);
      }
      HolderStep(p, base, s, s', pid, s'.Of(pid));
    }
  }

  /** A file-system call of a write, or its failure, that leaves the vault's links and their inodes
      alone. */
  lemma FsStep(p: Primitives, base: seq<Entry>, s: System, pid: nat, stage: Option<Stage>, fs: Fs)
    requires Inv(p, base, s) && s.Of(pid).Active?
    requires fs.Valid() && fs.Links(s.path) == s.fs.Links(s.path)
    requires forall i :: i in s.fs.inodes && Some(i) in s.fs.Links(s.path) ==> i in fs.inodes && fs.inodes[i] == s.fs.inodes[i]
    requires var a := s.Of(pid).work.(stage := stage);
             (a.Pending() ==> s.Of(pid).work.Pending()) && StageOk(fs, s.path, a)
    ensures Inv(p, base, ToStage(s, pid, stage, fs))
  {
    hide WorkOk, VersionsOk, LogInv, Increasing, NormalAdds, NormalIds, StageOk, Refines;
    var a := s.Of(pid).work;
    StageWorkOk(p, s.log, base, s.Now(), a, stage);
    RefinesUntouched(s.fs, fs, s.path, Files(s.versions), s.durable);
    assert PastLock(s.Of(pid));
    HolderStep(p, base, s, ToStage(s, pid, stage, fs), pid, Active(a.(stage := stage)));
  }

  lemma StageWorkOk(p: Primitives, log: Log, base: seq<Entry>, now: Version, a: Work, stage: Option<Stage>)
    requires WorkOk(p, log, base, now, a) && (a.(stage := stage).Pending() ==> a.Pending())
    ensures WorkOk(p, log, base, now, a.(stage := stage))
  {
    hide OpenSession, DeserializeEntries, Fold, MergeEntries, Alike, Counter, DistinctIds, NormalAdds;
  }

  lemma CreateTempInv(p: Primitives, base: seq<Entry>, s: System, pid: nat, temp: Name, inode: nat)
    requires Inv(p, base, s)
    ensures Inv(p, base, DoCreateTemp(s, pid, temp, inode))
  {
    hide WorkOk, VersionsOk, LogInv, Increasing, NormalAdds, NormalIds, Refines;
    if DoCreateTemp(s, pid, temp, inode) != s {
      assert forall l :: l in s.fs.Links(s.path) && l.Some? ==> l.value in s.fs.inodes;
      FsStep(p, base, s, pid, Some(Created(temp, inode)), s.fs.CreateFile(temp, inode));
    }
  }

  /** Writing the data, and syncing it. */
  lemma FillInv(p: Primitives, base: seq<Entry>, s: System, pid: nat)
    requires Inv(p, base, s)
    ensures Inv(p, base, DoWriteData(s, pid)) && Inv(p, base, DoSyncData(s, pid))
  {
    hide WorkOk, VersionsOk, LogInv, Increasing, NormalAdds, NormalIds, Refines;
    if Writing(s, pid) {
      var a := s.Of(pid).work;
      var w := a.stage.value;
      if w.Created? {
        FsStep(p, base, s, pid, Some(Written(w.temp, w.inode)), s.fs.WriteFile(w.inode, a.last));
      } else if w.Written? {
        FsStep(p, base, s, pid, Some(Flushed(w.temp, w.inode)), s.fs.SyncFile(w.inode));
      }
    }
  }

  lemma WriteFailsInv(p: Primitives, base: seq<Entry>, s: System, pid: nat, written: nat, cleanupWorks: bool)
    requires Inv(p, base, s)
    ensures Inv(p, base, DoWriteFails(s, pid, written, cleanupWorks))
  {
    hide WorkOk, VersionsOk, LogInv, Increasing, NormalAdds, NormalIds, Refines;
    if Writing(s, pid) {
      var a := s.Of(pid).work;
      FsStep(p, base, s, pid, None, AfterFailure(s.fs, a.last, a.stage.value, written, cleanupWorks));
    }
  }

  lemma FilesMore(versions: seq<Version>, v: Version)
    ensures Files(versions + [v]) == Files(versions) + [v.file]
  {
  }

  lemma ReplaceInv(p: Primitives, base: seq<Entry>, s: System, pid: nat)
    requires p.Sound() && Inv(p, base, s)
    ensures Inv(p, base, DoReplace(s, pid))
  {
    hide LogInv, Increasing, NormalIds, Counter, WorkOk, VersionOk, Refines;
    if DoReplace(s, pid) != s {
      var a := s.Of(pid).work;
      var w := a.stage.value;
      var next := Version(a.last, a.password, s.Now().committed + a.saved);
      assert VersionOk(p, s.log, base, s.Now());
      ReplaceOk(p, s.log, s.salts, base, s.Now(), a);
      VersionsMore(p, s.log, base, s.versions, next);
      FilesMore(s.versions, next);
      RefinesRename(s.fs, w.temp, s.path, w.inode, a.last, Files(s.versions), s.durable);
      hide VersionsOk;
      assert PastLock(s.Of(pid));
      HolderStep(p, base, s, DoReplace(s, pid), pid, Active(a.(stage := Some(Renamed), saved := [])));
    }
  }

  lemma SyncDirectoryInv(p: Primitives, base: seq<Entry>, s: System, pid: nat, works: bool)
    requires Inv(p, base, s)
    ensures Inv(p, base, DoSyncDirectory(s, pid, works))
  {
    hide WorkOk, VersionsOk, LogInv, Increasing, NormalAdds, NormalIds, Refines;
    if At(s, pid, Renamed) {
      var a := s.Of(pid).work;
      FsStep(p, base, s, pid, None, s.fs);
      if works {
        RefinesSync(s.fs, s.path, Files(s.versions), s.durable);
        assert PastLock(s.Of(pid));
        var unsynced := ToStage(s, pid, None, s.fs);
        HolderStep(p, base, unsynced, DoSyncDirectory(s, pid, works), pid, Active(a.(stage := None)));
      }
    }
  }

  /** The content a crash leaves is recorded, and not before the last synced one. */
  lemma CrashFinds(s: System, keep: map<Name, nat>, garbage: map<nat, Bytes>) returns (k: nat)
    requires s.Valid() && Refines(s.fs, s.path, Files(s.versions), s.durable) && Increasing(s.versions)
    ensures s.durable <= k < |s.versions|
    ensures VersionOf(s.versions, s.fs.Crash(keep, garbage).Visible(s.path)) == Some(k)
    ensures var s' := DoCrash(s, keep, garbage);
            Refines(s'.fs, s'.path, Files(s'.versions), s'.durable)
  {
    hide Increasing, VersionOf, Refines, Fs.Crash, Fs.Visible;
    k := RefinesCrash(s.fs, s.path, Files(s.versions), s.durable, keep, garbage);
    assert Files(s.versions)[..k + 1] == Files(s.versions[..k + 1]);
    VersionOfIs(s.versions, k);
  }

  /** Counters tell the recorded contents apart. */
  lemma VersionOfIs(versions: seq<Version>, k: nat)
    requires Increasing(versions) && k < |versions|
    ensures VersionOf(versions, Some(versions[k].file)) == Some(k)
  {
    hide Counter;
    var found := VersionOf(versions, Some(versions[k].file)).value;
    assert versions[found].file == versions[k].file;
  }

  lemma CrashInv(p: Primitives, base: seq<Entry>, s: System, keep: map<Name, nat>, garbage: map<nat, Bytes>)
    requires Inv(p, base, s)
    ensures Inv(p, base, DoCrash(s, keep, garbage))
  {
    hide LogInv, NormalIds, Counter, WorkOk, VersionOk, Refines, VersionOf;
    var k := CrashFinds(s, keep, garbage);
    var s' := DoCrash(s, keep, garbage);
    assert forall pid: nat :: s'.Of(pid) == Idle;
  }

  lemma ChangeInv(p: Primitives, base: seq<Entry>, s: System, pid: nat, m: Mutation, nonce: Nonce)
    requires p.Sound() && Inv(p, base, s) && Fresh(s, Change(pid, m, nonce))
    ensures Inv(p, base, DoChange(p, s, pid, m, nonce))
  {
    hide WorkOk, VersionsOk, LogInv, Increasing, ChangeWork, NormalAdds, NormalIds;
    if Ready(s, pid) {
      var a := s.Of(pid).work;
      var (a', log) := ChangeWork(p, s.log, a, m, nonce);
      ChangeWorkOk(p, s.log, s.salts, base, s.Now(), a, m, nonce);
      LocalStep(p, base, s, pid, log, s.salts, a');
    }
  }

  lemma SaltsInv(p: Primitives, base: seq<Entry>, s: System, salt: Bytes)
    requires Inv(p, base, s)
    ensures Inv(p, base, s.(salts := s.salts + {salt}))
  {
    hide VersionsOk, LogInv, Increasing, NormalAdds, NormalIds, WorkOk;
    MoreSalts(p, s.log, s.salts, salt);
    var s' := s.(salts := s.salts + {salt});
    assert s'.Now() == s.Now();
    forall pid: nat
      ensures PastLock(s'.Of(pid)) ==> s'.holder == Some(pid)
      ensures s'.Of(pid).Active? ==> WorkOk(p, s'.log, base, s'.Now(), s'.Of(pid).work)
    {
      assert s'.Of(pid) == s.Of(pid);
    }
  }

  lemma RekeyInv(p: Primitives, base: seq<Entry>, s: System, pid: nat, password: Bytes,
                 params: Option<Argon2Parameters>, d: ChangeDraw)
    requires p.Sound() && Inv(p, base, s) && d.salt !in s.salts
    ensures Inv(p, base, DoRekey(p, s, pid, password, params, d))
  {
    hide VersionsOk, LogInv, Increasing, RekeyWork, NormalAdds, NormalIds, WorkOk;
    if Ready(s, pid) {
      var a := s.Of(pid).work;
      var (a', log) := RekeyWork(p, s.log, a, password, params, d);
      RekeyWorkOk(p, s.log, s.salts, base, s.Now(), a, password, params, d);
      LocalStep(p, base, s, pid, log, s.salts + {d.salt}, a');
    } else {
      SaltsInv(p, base, s, d.salt);
    }
  }

  /** Taking a free lock, giving it back, dying. */
  lemma LockStepsInv(p: Primitives, base: seq<Entry>, s: System, pid: nat)
    requires Inv(p, base, s)
    ensures Inv(p, base, DoAcquire(s, pid)) && Inv(p, base, DoClose(s, pid)) && Inv(p, base, DoDie(s, pid))
  {
    hide WorkOk, VersionsOk, LogInv, Increasing, NormalAdds, NormalIds;
    if s.Of(pid).Idle? && s.holder.None? {
      HolderStep(p, base, s, DoAcquire(s, pid), pid, Locked);
    }
    if Ready(s, pid) {
      assert PastLock(s.Of(pid));
      HolderStep(p, base, s, DoClose(s, pid), pid, Idle);
    }
    if s.holder == Some(pid) {
      HolderStep(p, base, s, DoDie(s, pid), pid, Dead);
    } else {
      var s' := DoDie(s, pid);
      assert forall q: nat :: s'.Of(q) == if q == pid then Dead else s.Of(q);
    }
  }

  /** Every step of every process keeps the invariant. */
  lemma StepInv(p: Primitives, base: seq<Entry>, s: System, ev: Event)
    requires p.Sound() && Inv(p, base, s) && Fresh(s, ev)
    ensures Inv(p, base, Step(p, s, ev))
  {
    hide WorkOk, VersionsOk, LogInv, Increasing, Refines, DoAcquire, DoClose, DoDie, DoLoad, DoChange, DoRekey,
         DoCreateTemp, DoWriteData, DoSyncData, DoReplace, DoSyncDirectory, DoWriteFails, DoCrash;
    match ev
    case Acquire(pid) => LockStepsInv(p, base, s, pid);
    case Load(pid, password) => LoadInv(p, base, s, pid, password);
    case Change(pid, m, nonce) => ChangeInv(p, base, s, pid, m, nonce);
    case Rekey(pid, password, params, d) => RekeyInv(p, base, s, pid, password, params, d);
    case CreateTemp(pid, temp, inode) => CreateTempInv(p, base, s, pid, temp, inode);
    case WriteData(pid) => FillInv(p, base, s, pid);
    case SyncData(pid) => FillInv(p, base, s, pid);
    case Replace(pid) => ReplaceInv(p, base, s, pid);
    case SyncDirectory(pid, works) => SyncDirectoryInv(p, base, s, pid, works);
    case WriteFails(pid, written, cleanupWorks) => WriteFailsInv(p, base, s, pid, written, cleanupWorks);
    case Close(pid) => LockStepsInv(p, base, s, pid);
    case Die(pid) => LockStepsInv(p, base, s, pid);
    case Crash(keep, garbage) => CrashInv(p, base, s, keep, garbage);
  }

  lemma {:induction false} RunInv(p: Primitives, base: seq<Entry>, s: System, evs: seq<Event>)
    requires p.Sound() && Inv(p, base, s) && FreshRun(p, s, evs)
    ensures Inv(p, base, Run(p, s, evs))
    decreases |evs|
  {
    hide Step, WorkOk, VersionsOk, LogInv, Increasing;
    if evs != [] {
      StepInv(p, base, s, evs[0]);
      RunInv(p, base, Step(p, s, evs[0]), evs[1..]);
    }
  }

  lemma StepKeepsDurable(p: Primitives, base: seq<Entry>, s: System, ev: Event)
    requires Inv(p, base, s)
    ensures var s' := Step(p, s, ev);
            s.durable <= s'.durable && s.versions[..s.durable + 1] <= s'.versions
  {
    hide LoadFile, ChangeWork, RekeyWork, WorkOk, VersionsOk, LogInv, Refines, VersionOf, Increasing, NormalIds;
    if ev.Crash? {
      var k := CrashFinds(s, ev.keep, ev.garbage);
    }
  }

  lemma RunUnfold(p: Primitives, s: System, evs: seq<Event>)
    requires s.Valid() && FreshRun(p, s, evs)
    ensures if evs == [] then Run(p, s, evs) == s
            else Fresh(s, evs[0]) && FreshRun(p, Step(p, s, evs[0]), evs[1..]) && Run(p, s, evs) == Run(p, Step(p, s, evs[0]), evs[1..])
  {
    hide Step, Fresh;
  }

  lemma PrefixKept(a: seq<Version>, b: seq<Version>, c: seq<Version>, d: nat, e: nat)
    requires d < |a| && d <= e < |b| && a[..d + 1] <= b && b[..e + 1] <= c
    ensures a[..d + 1] <= c
  {
    assert a[..d + 1] <= b[..e + 1];
  }

  /** A content recorded as durable stays among the contents of the vault through every later step
      and crash. */
  lemma {:induction false} RunKeepsDurable(p: Primitives, base: seq<Entry>, s: System, evs: seq<Event>)
    requires p.Sound() && Inv(p, base, s) && FreshRun(p, s, evs)
    ensures var s' := Run(p, s, evs);
            s.durable <= s'.durable && s.versions[..s.durable + 1] <= s'.versions
    decreases |evs|
  {
    hide Step, Inv, Fresh, Run, FreshRun;
    InvSays(p, base, s, 0);
    RunUnfold(p, s, evs);
    if evs != [] {
      var s1 := Step(p, s, evs[0]);
      StepInv(p, base, s, evs[0]);
      StepKeepsDurable(p, base, s, evs[0]);
      RunKeepsDurable(p, base, s1, evs[1..]);
      PrefixKept(s.versions, s1.versions, Run(p, s1, evs[1..]).versions, s.durable, s1.durable);
    }
  }

  /** A vault file that holds a serialized list with distinct ids, and no process at work. */
  ghost predicate Initial(p: Primitives, s: System, entries: seq<Entry>) {
    && LogInv(p, s.log, s.salts) && s.holder == None && s.processes == map[]
    && s.Valid() && |s.versions| == 1 && s.durable == 0 && Refines(s.fs, s.path, Files(s.versions), s.durable) && s.Now().committed == [] && DistinctIds(MergeEntries(entries))
    && OpenSession(p, s.log, s.Now().password, s.Now().file).Ok?
    && OpenSession(p, s.log, s.Now().password, s.Now().file).value.plaintext == SerializeEntries(entries)
  }

  lemma InitialInv(p: Primitives, s: System, entries: seq<Entry>)
    requires Initial(p, s, entries)
    ensures Inv(p, MergeEntries(entries), s)
  {
    hide VersionOk, LogInv, Counter, NormalIds, DistinctIds, OpenSession, SerializeEntries, MergeEntries;
    FirstVersionOk(p, s.log, s.Now(), entries);
    MergeEntriesTwice(entries);
    assert forall i :: 0 <= i < |s.versions| ==> s.versions[i] == s.Now();
    assert forall pid: nat :: s.Of(pid) == Idle;
  }

  lemma FirstVersionOk(p: Primitives, log: Log, v: Version, entries: seq<Entry>)
    requires v.committed == [] && DistinctIds(MergeEntries(entries)) && OpenSession(p, log, v.password, v.file).Ok?
    requires OpenSession(p, log, v.password, v.file).value.plaintext == SerializeEntries(entries)
    ensures VersionOk(p, log, MergeEntries(entries), v)
  {
    hide OpenSession, DeserializeEntries, SerializeEntries, MergeEntries, DistinctIds;
    DeserializeSerialize(entries);
    MergeEntriesTwice(entries);
    assert Fold(MergeEntries(entries), []) == MergeEntries(entries) && NormalAdds([]);
  }

  lemma EmptyLog(p: Primitives)
    ensures LogInv(p, [], {})
  {
  }

  /** What a new vault file holds. */
  lemma CreatedFile(p: Primitives, password: Bytes, params: Option<Argon2Parameters>, d: CreateDraw)
    requires p.Sound() && CreateFile(p, [], password, SerializeEntries([]), params, d).result.Ok?
    ensures var c := CreateFile(p, [], password, SerializeEntries([]), params, d);
            && LogInv(p, c.log, {d.salt}) && Counter(c.result.value) == 0
            && OpenSession(p, c.log, password, c.result.value).Ok?
            && OpenSession(p, c.log, password, c.result.value).value.plaintext == SerializeEntries([])
  {
    hide OpenSession, CreateFile, SerializeEntries, LogInv, BuildKdfHeader, CostsOrDefault, SealsOnly, Counter, Primitives.Sound;
    EmptyLog(p);
    CreateOpens(p, [], {}, password, SerializeEntries([]), params, d);
    var c := CreateFile(p, [], password, SerializeEntries([]), params, d);
    assert {} + {d.salt} == {d.salt};
    OpenedCounter(p, c.log, {d.salt}, password, c.result.value);
  }

  lemma OpenedCounter(p: Primitives, log: Log, salts: set<Bytes>, password: Bytes, file: Bytes)
    requires p.Sound() && LogInv(p, log, salts) && OpenSession(p, log, password, file).Ok?
    ensures Counter(file) == OpenSession(p, log, password, file).value.counter
  {
    hide OpenSession, LogInv, Parse;
    OpenFacts(p, log, salts, password, file);
  }

  /** A vault just created by a call whose directory sync worked is such a file, at counter 0. */
  lemma CreatedIsInitial(p: Primitives, password: Bytes, params: Option<Argon2Parameters>, d: CreateDraw,
                         path: Name, before: Fs, w: Weather)
    requires p.Sound() && CreateFile(p, [], password, SerializeEntries([]), params, d).result.Ok?
    requires before.Valid() && w.Unused(before, path) && w.fault.NoFault? && w.directorySyncs
    ensures var c := CreateFile(p, [], password, SerializeEntries([]), params, d);
            var fs := Attempt(before, path, c.result.value, w);
            && Initial(p, System(c.log, {d.salt}, None, map[], path, fs, [Version(c.result.value, password, [])], 0), [])
            && Counter(c.result.value) == 0
  {
    hide OpenSession, CreateFile, SerializeEntries, Attempt, Refines, LogInv, Counter;
    CreatedFile(p, password, params, d);
    var data := CreateFile(p, [], password, SerializeEntries([]), params, d).result.value;
    AttemptStarts(before, path, data, w);
    assert Files([Version(data, password, [])]) == [data];
    assert MergeEntries([]) == [];
  }

  /** What the steps around the lock do: a free lock is taken by the process that asks for it and a
      held one refuses everybody; a load gives the repository in the file, or gives the lock back;
      closing and dying give it back; and a machine crash ends every process. Nothing else changes. */
  lemma LockLifecycle(p: Primitives, s: System, pid: nat, password: Bytes, keep: map<Name, nat>, garbage: map<nat, Bytes>)
    requires s.Valid()
    ensures var s' := Run(p, s, [Acquire(pid)]);
            if s.Of(pid) == Idle && s.holder == None then OnlyProcess(s, s', pid, Locked, Some(pid)) else s' == s
    ensures var s' := Run(p, s, [Load(pid, password)]);
            if s.Of(pid) != Locked then s' == s
            else
              match LoadFile(p, s, password)
              case Err(_) => OnlyProcess(s, s', pid, Idle, None)
              case Ok(repo) =>
                s.fs.Visible(s.path).Some?
                && OnlyProcess(s, s', pid, Active(Work(repo, password, s.fs.Visible(s.path).value, None, [], [])), s.holder)
    ensures var s' := Run(p, s, [Close(pid)]);
            if s.Of(pid).Active? && s.Of(pid).work.stage == None then OnlyProcess(s, s', pid, Idle, None) else s' == s
    ensures OnlyProcess(s, Run(p, s, [Die(pid)]), pid, Dead, if s.holder == Some(pid) then None else s.holder)
    ensures var s' := Run(p, s, [Crash(keep, garbage)]);
            && s'.processes == map[] && s'.holder == None && s'.fs == s.fs.Crash(keep, garbage)
            && s'.log == s.log && s'.salts == s.salts
  {
    hide Run, LoadRepo, Fs.Crash, Fs.Visible;
    RunFirst(p, s, Acquire(pid), []);
    RunFirst(p, s, Load(pid, password), []);
    RunFirst(p, s, Close(pid), []);
    RunFirst(p, s, Die(pid), []);
    RunFirst(p, s, Crash(keep, garbage), []);
  }

  /** Only this process and the lock have changed. */
  ghost predicate OnlyProcess(s: System, s': System, pid: nat, q: Process, holder: Option<nat>) {
    && s'.holder == holder && s'.Of(pid) == q && (forall other: nat :: other != pid ==> s'.Of(other) == s.Of(other))
    && s'.log == s.log && s'.salts == s.salts && s'.path == s.path && s'.fs == s.fs
    && s'.versions == s.versions && s'.durable == s.durable
  }

  predicate WellPairedMutation(m: Mutation) {
    match m
    case Add(e) => WellPairedEntry(e)
    case Update(_, c, now) =>
      && (c.service.Some? ==> WellPaired(c.service.value)) && (c.username.Some? ==> WellPaired(c.username.value))
      && (c.password.Some? ==> WellPaired(c.password.value)) && (c.notes.Some? ==> WellPaired(c.notes.value))
      && WellPaired(now)
    case Delete(_) => true
  }

  lemma {:induction false} FoldWellPaired(base: seq<Entry>, ms: seq<Mutation>)
    requires forall e :: e in base ==> WellPairedEntry(e)
    requires forall m :: m in ms ==> WellPairedMutation(m)
    ensures forall e :: e in Fold(base, ms) ==> WellPairedEntry(e)
  {
    if ms != [] {
      FoldWellPaired(base, ms[..|ms| - 1]);
      assert WellPairedMutation(ms[|ms| - 1]);
      hide WellPaired, Position;
      var before := Fold(base, ms[..|ms| - 1]);
      forall e | e in Fold(base, ms) ensures WellPairedEntry(e) {
        if e !in before {
          var m := ms[|ms| - 1];
          if m.Update? {
            var k := Position(before, m.updateId).value;
            assert before[k] in before;
            assert e == Updated(before[k], m.changes, m.now);
          }
        }
      }
    }
  }

  /** No lost update: after any interleaving, with failed writes, deaths and crashes anywhere, what
      a process reads at the vault's path opens under its current password to the committed
      history, and what a crash would leave there is one of the contents since the last directory
      sync; at most one process is past the lock; ids stay distinct; and the save counters of the
      successive contents strictly increase. Strings come back with surrogate pairs merged, so
      exactly when there is nothing to merge. */
  lemma NoLostUpdate(p: Primitives, s: System, entries: seq<Entry>, evs: seq<Event>)
    requires p.Sound() && s.Valid() && Initial(p, s, entries) && FreshRun(p, s, evs)
    ensures var s' := Run(p, s, evs);
            var now := s'.Now();
            var history := Fold(MergeEntries(entries), now.committed);
            && LoadFile(p, s', now.password).Ok?
            && LoadFile(p, s', now.password).value.entries == MergeEntries(history)
            && ((forall m :: m in now.committed ==> WellPairedMutation(m)) ==>
                  LoadFile(p, s', now.password).value.entries == history)
            && (forall r :: s'.fs.AfterCrash(s'.path, r) ==> OneOf(r, Files(s'.versions), s'.durable))
            && (forall pid: nat, other: nat :: PastLock(s'.Of(pid)) && PastLock(s'.Of(other)) ==> pid == other)
            && DistinctIds(history) && Increasing(s'.versions)
  {
    InitialInv(p, s, entries);
    RunInv(p, MergeEntries(entries), s, evs);
    var s' := Run(p, s, evs);
    var now := s'.Now();
    LoadFileIs(p, s', now.password);
    hide Run, FreshRun, Initial, WorkOk, StageOk, LoadFile, DeserializeEntries, Increasing, Fold, MergeEntries,
         DistinctIds, Fs.AfterCrash, Fs.Visible, OneOf;
    NowOk(p, MergeEntries(entries), s');
    OpenFacts(p, s'.log, s'.salts, now.password, now.file);
    hide OpenSession;
    var base := MergeEntries(entries);
    if forall m :: m in now.committed ==> WellPairedMutation(m) {
      MergeEntriesTwice(entries);
      MergeEntriesFixesIff(base);
      FoldWellPaired(base, now.committed);
      MergeEntriesFixesIff(Fold(base, now.committed));
    }
  }

  /** What was stored with a working directory sync is never lost: once a write has synced the
      directory after its rename, the mutations stored so far stay in the committed history
      through every later step and crash. */
  lemma SyncedReplacesSurvive(p: Primitives, s: System, entries: seq<Entry>, before: seq<Event>, pid: nat, later: seq<Event>)
    requires p.Sound() && s.Valid() && Initial(p, s, entries) && FreshRun(p, s, before)
    requires At(Run(p, s, before), pid, Renamed)
    requires FreshRun(p, Step(p, Run(p, s, before), SyncDirectory(pid, true)), later)
    ensures var stored := Run(p, s, before).Now();
            var s' := Run(p, Step(p, Run(p, s, before), SyncDirectory(pid, true)), later);
            stored in s'.versions && stored.committed <= s'.Now().committed
  {
    hide Run, FreshRun, Initial, WorkOk, StageOk, VersionsOk, LogInv, Refines, Counter, NormalIds, DoSyncDirectory;
    var base := MergeEntries(entries);
    InitialInv(p, s, entries);
    RunInv(p, base, s, before);
    var s1 := Run(p, s, before);
    var s2 := DoSyncDirectory(s1, pid, true);
    SyncDirectoryInv(p, base, s1, pid, true);
    SyncedIsDurable(s1, pid);
    RunKeepsDurable(p, base, s2, later);
    RunInv(p, base, s2, later);
    assert s1.versions == s2.versions[..s2.durable + 1] <= Run(p, s2, later).versions;
    assert Run(p, s2, later).versions[s2.durable] == s1.Now();
  }

  lemma SyncedIsDurable(s: System, pid: nat)
    requires s.Valid() && At(s, pid, Renamed)
    ensures var s' := DoSyncDirectory(s, pid, true);
            s'.Valid() && s'.durable == |s.versions| - 1 && s'.versions == s.versions
  {
  }

  lemma FailedWriteKeeps(s: System, pid: nat, written: nat, cleanupWorks: bool)
    requires s.Valid() && Writing(s, pid)
    ensures var s' := DoWriteFails(s, pid, written, cleanupWorks);
            Ready(s', pid) && s'.versions == s.versions && s'.log == s.log && s'.path == s.path
  {
    hide AfterFailure;
  }

  /** After a failed write the session is ahead of the disk but coherent: unless `save` itself
      raised, its sealed body encodes its list, while the disk still holds the history before. */
  lemma FailedWriteCoherence(p: Primitives, base: seq<Entry>, s: System, pid: nat, written: nat, cleanupWorks: bool)
    requires p.Sound() && Inv(p, base, s) && Writing(s, pid)
    ensures var s' := DoWriteFails(s, pid, written, cleanupWorks);
            var a := s'.Of(pid).work;
            && Ready(s', pid) && Inv(p, base, s')
            && (a.unsaved == [] ==> DeserializeEntries(a.repo.session.plaintext) == Ok(MergeEntries(a.repo.entries)))
            && s'.versions == s.versions && VersionOk(p, s'.log, base, s'.Now())
            && s'.fs.Visible(s'.path) == s.fs.Visible(s.path) == Some(s.Now().file)
  {
    hide Inv, WorkOk, VersionOk, AfterFailure, Fs.Visible, DoWriteFails, DeserializeEntries, MergeEntries;
    InvSays(p, base, s, pid);
    FailedWriteKeeps(s, pid, written, cleanupWorks);
    WriteFailsInv(p, base, s, pid, written, cleanupWorks);
    var s' := DoWriteFails(s, pid, written, cleanupWorks);
    InvSays(p, base, s', pid);
    if s'.Of(pid).work.unsaved == [] {
      SavedBody(p, s'.log, base, s'.Now(), s'.Of(pid).work);
    }
  }

  /** The sealed body encodes the list, if every mutation of the list was saved. */
  lemma SavedBody(p: Primitives, log: Log, base: seq<Entry>, now: Version, a: Work)
    requires WorkOk(p, log, base, now, a) && a.unsaved == []
    ensures DeserializeEntries(a.repo.session.plaintext) == Ok(MergeEntries(a.repo.entries))
  {
    hide DeserializeEntries, Fold, MergeEntries, Reopens, NormalIds, DistinctIds;
    assert now.committed + a.saved + [] == now.committed + a.saved;
  }

  /** The file-system calls of one write, as its weather lets them happen. */
  function WriteEvents(pid: nat, w: Weather): seq<Event> {
    if w.fault.AtCreate? then [Fails(pid, w)] else [CreateTemp(pid, w.temp, w.inode)] + FillEvents(pid, w)
  }

  function FillEvents(pid: nat, w: Weather): seq<Event> {
    if w.fault.AtMode? || w.fault.AtWrite? then [Fails(pid, w)]
    else [WriteData(pid)] + (if w.fault.AtSync? then [Fails(pid, w)] else [SyncData(pid)] + ReplaceEvents(pid, w))
  }

  function ReplaceEvents(pid: nat, w: Weather): seq<Event> {
    if w.fault.AtReplace? then [Fails(pid, w)]
    else [Replace(pid)] + (if w.fault.AfterReplace? then [Fails(pid, w)] else [SyncDirectory(pid, w.directorySyncs)])
  }

  function Fails(pid: nat, w: Weather): Event {
    WriteFails(pid, if w.fault.AtWrite? then w.fault.written else 0, w.cleanupWorks)
  }

  lemma RunFirst(p: Primitives, s: System, ev: Event, rest: seq<Event>)
    requires s.Valid()
    ensures Run(p, s, [ev] + rest) == Run(p, Step(p, s, ev), rest)
    ensures Run(p, s, [ev]) == Step(p, s, ev)
  {
    assert ([ev] + rest)[1..] == rest;
    assert [ev][1..] == [];
  }

  /** What a whole write makes of the system. */
  function Wrote(s: System, pid: nat, w: Weather): System
    requires s.Valid() && At(s, pid, Start) && w.Unused(s.fs, s.path)
  {
    var a := s.Of(pid).work;
    var fs := Attempt(s.fs, s.path, a.last, w);
    if !w.Replaces() then ToStage(s, pid, None, fs)
    else
      Replaced(s, pid, None, fs, if w.fault.NoFault? && w.directorySyncs then |s.versions| else s.durable)
  }

  lemma StepIsCall(p: Primitives, s: System, pid: nat, w: Weather)
    requires s.Valid()
    ensures Step(p, s, CreateTemp(pid, w.temp, w.inode)) == DoCreateTemp(s, pid, w.temp, w.inode)
    ensures Step(p, s, WriteData(pid)) == DoWriteData(s, pid) && Step(p, s, SyncData(pid)) == DoSyncData(s, pid)
    ensures Step(p, s, Replace(pid)) == DoReplace(s, pid)
    ensures Step(p, s, SyncDirectory(pid, w.directorySyncs)) == DoSyncDirectory(s, pid, w.directorySyncs)
    ensures Step(p, s, Fails(pid, w)) == DoWriteFails(s, pid, if w.fault.AtWrite? then w.fault.written else 0, w.cleanupWorks)
  {
    hide DoAcquire, DoLoad, DoChange, DoRekey, DoCreateTemp, DoWriteData, DoSyncData, DoReplace, DoSyncDirectory, DoWriteFails,
         DoClose, DoDie, DoCrash, Fs.Valid;
  }

  lemma AfterReplaced(s: System, pid: nat, renamed: Fs, w: Weather)
    requires s.Valid() && s.Of(pid).Active? && renamed.Valid()
    ensures var s1 := Replaced(s, pid, Some(Renamed), renamed, s.durable);
            && s1.Valid()
            && DoWriteFails(s1, pid, 0, w.cleanupWorks) == Replaced(s, pid, None, renamed, s.durable)
            && DoSyncDirectory(s1, pid, w.directorySyncs)
               == Replaced(s, pid, None, if w.directorySyncs then renamed.SyncDirectory() else renamed,
                           if w.directorySyncs then |s.versions| else s.durable)
  {
    hide Fs.SyncDirectory;
    var a := s.Of(pid).work;
    assert s.processes[pid := Active(a.(stage := Some(Renamed), saved := []))][pid := Active(a.(stage := None, saved := []))]
        == s.processes[pid := Active(a.(stage := None, saved := []))];
  }

  lemma ReplaceRuns(p: Primitives, s: System, pid: nat, w: Weather)
    requires s.Valid() && At(s, pid, Flushed(w.temp, w.inode)) && w.temp != s.path
    requires w.Replaces() || w.fault.AtReplace?
    ensures var s' := Run(p, s, ReplaceEvents(pid, w));
            var renamed := s.fs.Rename(w.temp, s.path);
            if w.fault.AtReplace? then
              s' == ToStage(s, pid, None, if w.cleanupWorks then s.fs.Unlink(w.temp) else s.fs)
            else if w.fault.NoFault? && w.directorySyncs then s' == Replaced(s, pid, None, renamed.SyncDirectory(), |s.versions|)
            else s' == Replaced(s, pid, None, renamed, s.durable)
  {
    hide Run, Step, Fs.Rename, Fs.SyncDirectory, Fs.Unlink, Replaced, DoSyncDirectory, ToStage;
    StepIsCall(p, s, pid, w);
    if w.fault.AtReplace? {
      RunFirst(p, s, Fails(pid, w), []);
    } else {
      var s1 := DoReplace(s, pid);
      DoReplaceIs(s, pid, w);
      hide DoReplace, DoWriteFails;
      var next := if w.fault.AfterReplace? then Fails(pid, w) else SyncDirectory(pid, w.directorySyncs);
      RunFirst(p, s, Replace(pid), [next]);
      RunFirst(p, s1, next, []);
      StepIsCall(p, s1, pid, w);
      AfterReplaced(s, pid, s.fs.Rename(w.temp, s.path), w);
    }
  }

  lemma DoReplaceIs(s: System, pid: nat, w: Weather)
    requires s.Valid() && At(s, pid, Flushed(w.temp, w.inode)) && w.temp != s.path
    ensures DoReplace(s, pid) == Replaced(s, pid, Some(Renamed), s.fs.Rename(w.temp, s.path), s.durable)
  {
    hide Fs.Rename;
  }

  /** The file-system calls of the protocol, run one after another by one process, are a call of
      `write_atomic`. */
  lemma WriteRuns(p: Primitives, s: System, pid: nat, w: Weather)
    requires s.Valid() && At(s, pid, Start) && w.Unused(s.fs, s.path)
    ensures Run(p, s, WriteEvents(pid, w)) == Wrote(s, pid, w)
  {
    hide Wrote, Fs.CreateFile, FillEvents, Run;
    if w.fault.AtCreate? {
      FirstCallFails(p, s, pid, w);
    } else {
      RunFirst(p, s, CreateTemp(pid, w.temp, w.inode), FillEvents(pid, w));
      StepIsCall(p, s, pid, w);
      FillRuns(p, s, pid, w);
    }
  }

  lemma FirstCallFails(p: Primitives, s: System, pid: nat, w: Weather)
    requires s.Valid() && At(s, pid, Start) && w.Unused(s.fs, s.path) && w.fault.AtCreate?
    ensures Run(p, s, [Fails(pid, w)]) == Wrote(s, pid, w)
  {
    hide Run;
    RunFirst(p, s, Fails(pid, w), []);
  }

  /** Only the last stage and file system count. */
  lemma ToStageTwice(s: System, pid: nat, stage: Option<Stage>, fs: Fs, q: Process, fs': Fs)
    requires s.Of(pid).Active?
    ensures var s1 := ToStage(s, pid, stage, fs);
            && s1.Of(pid) == Active(s.Of(pid).work.(stage := stage)) && s1.path == s.path && s1.fs == fs
            && s1.versions == s.versions && s1.durable == s.durable
            && s1.With(pid, q).(fs := fs') == s.With(pid, q).(fs := fs')
  {
    var q1 := Active(s.Of(pid).work.(stage := stage));
    assert s.processes[pid := q1][pid := q] == s.processes[pid := q];
  }

  lemma ToStageAgain(s: System, pid: nat, stage: Option<Stage>, fs: Fs, stage': Option<Stage>, fs': Fs)
    requires s.Of(pid).Active?
    ensures var s1 := ToStage(s, pid, stage, fs);
            && s1.Of(pid) == Active(s.Of(pid).work.(stage := stage)) && s1.path == s.path && s1.fs == fs
            && s1.versions == s.versions && s1.durable == s.durable
            && ToStage(s1, pid, stage', fs') == ToStage(s, pid, stage', fs')
  {
    ToStageTwice(s, pid, stage, fs, Active(s.Of(pid).work.(stage := stage')), fs');
  }

  lemma ReplacedAfterStage(s: System, pid: nat, stage: Option<Stage>, fs: Fs, fs': Fs, durable: nat)
    requires s.Valid() && s.Of(pid).Active?
    ensures Replaced(ToStage(s, pid, stage, fs), pid, None, fs', durable) == Replaced(s, pid, None, fs', durable)
  {
    ToStageTwice(s, pid, stage, fs, Active(s.Of(pid).work.(stage := None, saved := [])), fs');
  }

  /** The states up to the rename. */
  lemma FillStages(s: System, pid: nat, w: Weather)
    requires s.Valid() && At(s, pid, Start) && w.Unused(s.fs, s.path)
    ensures var data := s.Of(pid).work.last;
            var made := s.fs.CreateFile(w.temp, w.inode);
            var s1 := DoCreateTemp(s, pid, w.temp, w.inode);
            && s1.Valid() && s1 == ToStage(s, pid, Some(Created(w.temp, w.inode)), made)
            && DoWriteData(s1, pid) == ToStage(s, pid, Some(Written(w.temp, w.inode)), made.WriteFile(w.inode, data))
            && DoSyncData(DoWriteData(s1, pid), pid)
               == ToStage(s, pid, Some(Flushed(w.temp, w.inode)), made.WriteFile(w.inode, data).SyncFile(w.inode))
  {
    hide ToStage;
    var made := s.fs.CreateFile(w.temp, w.inode);
    var written := made.WriteFile(w.inode, s.Of(pid).work.last);
    var t, t' := Some(Created(w.temp, w.inode)), Some(Written(w.temp, w.inode));
    ToStageAgain(s, pid, t, made, t', written);
    ToStageAgain(s, pid, t', written, Some(Flushed(w.temp, w.inode)), written.SyncFile(w.inode));
  }

  lemma FailsAt(s: System, pid: nat, stage: Stage, fs: Fs, written: nat, cleanupWorks: bool)
    requires fs.Valid() && s.durable < |s.versions| && s.Of(pid).Active?
    ensures var s1 := ToStage(s, pid, Some(stage), fs);
            DoWriteFails(s1, pid, written, cleanupWorks)
            == ToStage(s, pid, None, AfterFailure(fs, s.Of(pid).work.last, stage, written, cleanupWorks))
  {
    ToStageAgain(s, pid, Some(stage), fs, None, AfterFailure(fs, s.Of(pid).work.last, stage, written, cleanupWorks));
    hide AfterFailure;
  }

  lemma FillRuns(p: Primitives, s: System, pid: nat, w: Weather)
    requires s.Valid() && At(s, pid, Start) && w.Unused(s.fs, s.path) && !w.fault.AtCreate?
    ensures Run(p, DoCreateTemp(s, pid, w.temp, w.inode), FillEvents(pid, w)) == Wrote(s, pid, w)
  {
    hide Run, Step, Fs.CreateFile, Fs.Rename, Fs.SyncDirectory, Fs.Unlink, Wrote, ToStage, DoCreateTemp, DoWriteData, DoSyncData, ReplaceEvents;
    FillStages(s, pid, w);
    var s1 := DoCreateTemp(s, pid, w.temp, w.inode);
    StepIsCall(p, s1, pid, w);
    if w.fault.AtMode? || w.fault.AtWrite? {
      RunFirst(p, s1, Fails(pid, w), []);
      FillFails(s, pid, w);
    } else {
      var s2 := DoWriteData(s1, pid);
      StepIsCall(p, s2, pid, w);
      RunFirst(p, s1, WriteData(pid), if w.fault.AtSync? then [Fails(pid, w)] else [SyncData(pid)] + ReplaceEvents(pid, w));
      if w.fault.AtSync? {
        RunFirst(p, s2, Fails(pid, w), []);
        FillFails(s, pid, w);
      } else {
        RunFirst(p, s2, SyncData(pid), ReplaceEvents(pid, w));
        FlushedRuns(p, s, pid, w);
      }
    }
  }

  /** A write that fails before its data is synced. */
  lemma FillFails(s: System, pid: nat, w: Weather)
    requires s.Valid() && At(s, pid, Start) && w.Unused(s.fs, s.path)
    requires w.fault.AtMode? || w.fault.AtWrite? || w.fault.AtSync?
    ensures var s1 := DoCreateTemp(s, pid, w.temp, w.inode);
            var s2 := if w.fault.AtSync? then DoWriteData(s1, pid) else s1;
            DoWriteFails(s2, pid, if w.fault.AtWrite? then w.fault.written else 0, w.cleanupWorks) == Wrote(s, pid, w)
  {
    hide ToStage, DoCreateTemp, DoWriteData, DoSyncData, DoWriteFails, Fs.Unlink;
    FillStages(s, pid, w);
    var made := s.fs.CreateFile(w.temp, w.inode);
    assert made.WriteFile(w.inode, []) == made;
    if w.fault.AtSync? {
      FailsAt(s, pid, Written(w.temp, w.inode), made.WriteFile(w.inode, s.Of(pid).work.last), 0, w.cleanupWorks);
    } else {
      FailsAt(s, pid, Created(w.temp, w.inode), made, if w.fault.AtWrite? then w.fault.written else 0, w.cleanupWorks);
    }
  }

  /** A write that has synced its data. */
  lemma FlushedRuns(p: Primitives, s: System, pid: nat, w: Weather)
    requires s.Valid() && At(s, pid, Start) && w.Unused(s.fs, s.path)
    requires !w.fault.AtCreate? && !w.fault.AtMode? && !w.fault.AtWrite? && !w.fault.AtSync?
    ensures var s3 := DoSyncData(DoWriteData(DoCreateTemp(s, pid, w.temp, w.inode), pid), pid);
            Run(p, s3, ReplaceEvents(pid, w)) == Wrote(s, pid, w)
  {
    hide ToStage, Replaced, DoCreateTemp, DoWriteData, DoSyncData, Fs.Rename, Fs.SyncDirectory, Fs.Unlink, Run, ReplaceEvents;
    FillStages(s, pid, w);
    var a := s.Of(pid).work;
    var fs := Fill(s.fs.CreateFile(w.temp, w.inode), a.last, w);
    var stage := Some(Flushed(w.temp, w.inode));
    ReplacedAfterStage(s, pid, stage, fs, Attempt(s.fs, s.path, a.last, w), if w.fault.NoFault? && w.directorySyncs then |s.versions| else s.durable);
    ToStageAgain(s, pid, stage, fs, None, Attempt(s.fs, s.path, a.last, w));
    ReplaceRuns(p, ToStage(s, pid, stage, fs), pid, w);
  }

  /** Without a write under way these events do nothing. */
  lemma NoWriteRuns(p: Primitives, s: System, pid: nat, w: Weather)
    requires s.Valid() && !Writing(s, pid)
    ensures Run(p, s, WriteEvents(pid, w)) == s
  {
    hide Run, Step;
    StepIsCall(p, s, pid, w);
    var failing := Fails(pid, w);
    RunFirst(p, s, failing, []);
    RunFirst(p, s, CreateTemp(pid, w.temp, w.inode), FillEvents(pid, w));
    RunFirst(p, s, WriteData(pid), if w.fault.AtSync? then [failing] else [SyncData(pid)] + ReplaceEvents(pid, w));
    RunFirst(p, s, SyncData(pid), ReplaceEvents(pid, w));
    var next := if w.fault.AfterReplace? then failing else SyncDirectory(pid, w.directorySyncs);
    RunFirst(p, s, Replace(pid), [next]);
    RunFirst(p, s, next, []);
  }

  /** A mutating call of a repository, uninterrupted: the in-memory step, then its write. */
  ghost function MutateRun(p: Primitives, s: System, pid: nat, m: Mutation, nonce: Nonce, w: Weather): (s': System)
    requires s.Valid()
    ensures s'.Valid()
  {
    Run(p, DoChange(p, s, pid, m, nonce), WriteEvents(pid, w))
  }

  ghost function RekeyRun(p: Primitives, s: System, pid: nat, password: Bytes, params: Option<Argon2Parameters>,
                          d: ChangeDraw, w: Weather): (s': System)
    requires s.Valid()
    ensures s'.Valid()
  {
    Run(p, DoRekey(p, s, pid, password, params, d), WriteEvents(pid, w))
  }

  /** The system shows what a repository call gives: its repository, the vault file, and the log. */
  ghost predicate Shows(s: System, pid: nat, c: RepoStep)
    requires s.Valid()
  {
    s.Of(pid).Active? && s.Of(pid).work.repo == c.repo && s.log == c.store.log && s.fs.Visible(s.path) == c.store.disk
  }

  lemma WroteShows(s: System, pid: nat, w: Weather)
    requires s.Valid() && At(s, pid, Start) && w.Unused(s.fs, s.path)
    ensures var s' := Wrote(s, pid, w);
            && s'.Valid() && s'.Of(pid).Active? && s'.Of(pid).work.repo == s.Of(pid).work.repo && s'.log == s.log
            && s'.fs.Visible(s'.path) == if w.Replaces() then Some(s.Of(pid).work.last) else s.fs.Visible(s.path)
  {
    AttemptVisible(s.fs, s.path, s.Of(pid).work.last, w);
  }

  /** A repository call, with any fault, is a run of the protocol's steps. */
  lemma MutateIsRun(p: Primitives, s: System, pid: nat, m: Mutation, nonce: Nonce, w: Weather)
    requires s.Valid() && Ready(s, pid) && w.Unused(s.fs, s.path)
    ensures var c := Mutate(p, Store(s.fs.Visible(s.path), s.log), s.Of(pid).work.repo, m, nonce, w);
            && Shows(MutateRun(p, s, pid, m, nonce, w), pid, c)
            && (c.result.Ok? <==> At(DoChange(p, s, pid, m, nonce), pid, Start) && w.fault.NoFault?)
  {
    hide SaveSession, SerializeEntries, Run, WriteEvents, Wrote, Fs.Visible;
    var s1 := DoChange(p, s, pid, m, nonce);
    if At(s1, pid, Start) {
      WriteRuns(p, s1, pid, w);
      WroteShows(s1, pid, w);
    } else {
      NoWriteRuns(p, s1, pid, w);
    }
  }

  lemma RekeyIsRun(p: Primitives, s: System, pid: nat, password: Bytes, params: Option<Argon2Parameters>,
                   d: ChangeDraw, w: Weather)
    requires s.Valid() && Ready(s, pid) && w.Unused(s.fs, s.path)
    ensures var c := ChangeMaster(p, Store(s.fs.Visible(s.path), s.log), s.Of(pid).work.repo, password, params, d, w);
            && Shows(RekeyRun(p, s, pid, password, params, d, w), pid, c)
            && (c.result.Ok? <==> At(DoRekey(p, s, pid, password, params, d), pid, Start) && w.fault.NoFault?)
  {
    hide ChangeSession, Run, WriteEvents, Wrote, Fs.Visible;
    var s1 := DoRekey(p, s, pid, password, params, d);
    if At(s1, pid, Start) {
      WriteRuns(p, s1, pid, w);
      WroteShows(s1, pid, w);
    } else {
      NoWriteRuns(p, s1, pid, w);
    }
  }

  /** A write that reaches the disk stores what its process has saved. */
  lemma WroteStores(p: Primitives, base: seq<Entry>, s: System, pid: nat, w: Weather)
    requires p.Sound() && Inv(p, base, s) && At(s, pid, Start) && w.Unused(s.fs, s.path) && w.Replaces()
    ensures var a := s.Of(pid).work;
            var s' := Run(p, s, WriteEvents(pid, w));
            && s'.Now() == Version(a.last, a.password, s.Now().committed + a.saved)
            && s'.log == s.log && VersionOk(p, s.log, base, s'.Now())
  {
    WriteRuns(p, s, pid, w);
    hide VersionOk, WorkOk, LogInv, Increasing, NormalAdds, NormalIds, Run, Refines, StageOk;
    NowOk(p, base, s);
    ReplaceOk(p, s.log, s.salts, base, s.Now(), s.Of(pid).work);
  }

  /** The next mutation that reaches the disk takes every pending one with it. */
  lemma NextReplaceStoresAll(p: Primitives, base: seq<Entry>, s: System, pid: nat, m: Mutation, nonce: Nonce,
                             w: Weather)
    requires p.Sound() && Inv(p, base, s) && Ready(s, pid) && Fresh(s, Change(pid, m, nonce))
    requires At(DoChange(p, s, pid, m, nonce), pid, Start) && w.Unused(s.fs, s.path) && w.Replaces()
    ensures var a := s.Of(pid).work;
            var s' := MutateRun(p, s, pid, m, nonce, w);
            && s'.Now().committed == s.Now().committed + (a.saved + a.unsaved + [m])
            && s'.Now().password == a.password && VersionOk(p, s'.log, base, s'.Now())
  {
    hide VersionOk, WorkOk, LogInv, Apply, SaveSession, SerializeEntries, Increasing, NormalAdds, NormalIds,
         NormalAdd, StageOk, Refines, Run, WriteEvents;
    ChangeInv(p, base, s, pid, m, nonce);
    hide Inv;
    WroteStores(p, base, DoChange(p, s, pid, m, nonce), pid, w);
  }

  /** The next password change that reaches the disk takes with it every mutation whose save
      succeeded, and the disk is under the new password from then on. */
  lemma NextRekeyStoresSaved(p: Primitives, base: seq<Entry>, s: System, pid: nat,
                             password: Bytes, params: Option<Argon2Parameters>, d: ChangeDraw, w: Weather)
    requires p.Sound() && Inv(p, base, s) && Ready(s, pid) && d.salt !in s.salts
    requires At(DoRekey(p, s, pid, password, params, d), pid, Start) && w.Unused(s.fs, s.path) && w.Replaces()
    ensures var s' := RekeyRun(p, s, pid, password, params, d, w);
            && s'.Now().committed == s.Now().committed + s.Of(pid).work.saved
            && s'.Now().password == password && VersionOk(p, s'.log, base, s'.Now())
  {
    hide VersionOk, WorkOk, LogInv, ChangeSession, Increasing, NormalAdds, NormalIds, StageOk, Refines, Run, WriteEvents;
    RekeyInv(p, base, s, pid, password, params, d);
    hide Inv;
    WroteStores(p, base, DoRekey(p, s, pid, password, params, d), pid, w);
  }

  lemma {:induction false} RunAppend(p: Primitives, s: System, first: seq<Event>, rest: seq<Event>)
    requires s.Valid()
    ensures Run(p, s, first + rest) == Run(p, Run(p, s, first), rest)
    ensures FreshRun(p, s, first + rest) <==> FreshRun(p, s, first) && FreshRun(p, Run(p, s, first), rest)
    decreases |first|
  {
    hide Step, Fresh;
    if first == [] {
      assert first + rest == rest;
    } else {
      assert (first + rest)[1..] == first[1..] + rest;
      RunAppend(p, Step(p, s, first[0]), first[1..], rest);
    }
  }

  /** A whole undisturbed session: lock, load, one mutation, its write call by call, unlock. */
  function SessionEvents(pid: nat, password: Bytes, m: Mutation, nonce: Nonce, temp: Name, inode: nat, works: bool): seq<Event> {
    [Acquire(pid), Load(pid, password), Change(pid, m, nonce), CreateTemp(pid, temp, inode), WriteData(pid), SyncData(pid),
     Replace(pid), SyncDirectory(pid, works), Close(pid)]
  }

  /** The lock is free, the password opens the vault, and the mutation applies and fits. */
  ghost predicate CanStore(p: Primitives, s: System, pid: nat, password: Bytes, repo: Repo, m: Mutation, temp: Name, inode: nat)
    requires s.Valid()
  {
    && s.Of(pid) == Idle && s.holder == None && LoadFile(p, s, password) == Ok(repo)
    && NormalAdd(m) && NewAdd(repo.entries, m) && Apply(repo.entries, m).Ok?
    && repo.session.counter + 1 < U64_LIMIT && |SerializeEntries(Apply(repo.entries, m).value)| <= MAX_PLAINTEXT
    && temp != s.path && s.fs.Current(temp) == None && inode !in s.fs.inodes
  }

  lemma CurrentLoads(p: Primitives, base: seq<Entry>, s: System)
    requires p.Sound() && Inv(p, base, s)
    ensures var now := s.Now();
            && LoadFile(p, s, now.password).Ok?
            && LoadFile(p, s, now.password).value.entries == MergeEntries(Fold(base, now.committed))
  {
    hide WorkOk, StageOk, LoadFile, DeserializeEntries, Increasing, Fold, MergeEntries, DistinctIds, Fs.AfterCrash, Fs.Visible, OneOf;
    LoadFileIs(p, s, s.Now().password);
    NowOk(p, base, s);
    OpenFacts(p, s.log, s.salts, s.Now().password, s.Now().file);
    hide OpenSession;
  }

  /** The mutation starts a write, unless it does not fit. */
  lemma ChangeStarts(p: Primitives, log: Log, salts: set<Bytes>, base: seq<Entry>, now: Version, a: Work, m: Mutation, nonce: Nonce)
    requires p.Sound() && LogInv(p, log, salts) && WorkOk(p, log, base, now, a) && Apply(a.repo.entries, m).Ok?
    requires a.repo.session.counter + 1 < U64_LIMIT && |SerializeEntries(Apply(a.repo.entries, m).value)| <= MAX_PLAINTEXT
    ensures ChangeWork(p, log, a, m, nonce).0.stage == Some(Start)
  {
    hide OpenSession, DeserializeEntries, SerializeEntries, Fold, MergeEntries, Alike, DistinctIds, NormalAdds, LogInv, Apply, SaveSession;
    SaveOpens(p, log, salts, a.password, a.last, a.repo.session, SerializeEntries(Apply(a.repo.entries, m).value), nonce);
  }

  lemma WriteEventsAre(pid: nat, w: Weather)
    requires w.fault.NoFault?
    ensures WriteEvents(pid, w)
         == [CreateTemp(pid, w.temp, w.inode), WriteData(pid), SyncData(pid), Replace(pid), SyncDirectory(pid, w.directorySyncs)]
  {
  }

  /** The session's mutation and write, of a process that has loaded the vault. */
  lemma LoadedStores(p: Primitives, base: seq<Entry>, s: System, pid: nat, m: Mutation, nonce: Nonce, w: Weather)
    requires p.Sound() && Inv(p, base, s) && Ready(s, pid) && w.Unused(s.fs, s.path) && w.fault.NoFault?
    requires var a := s.Of(pid).work;
             && a.saved == [] && a.unsaved == [] && NormalAdd(m) && NewAdd(a.repo.entries, m) && Apply(a.repo.entries, m).Ok?
             && a.repo.session.counter + 1 < U64_LIMIT && |SerializeEntries(Apply(a.repo.entries, m).value)| <= MAX_PLAINTEXT
    ensures var s' := MutateRun(p, s, pid, m, nonce, w);
            && s'.Now().committed == s.Now().committed + [m] && s'.Now().password == s.Of(pid).work.password
            && Ready(s', pid) && s'.holder == s.holder
            && (forall other: nat :: other != pid ==> s'.Of(other) == s.Of(other))
            && (w.directorySyncs ==> s'.durable == |s'.versions| - 1)
            && MergeEntries(Fold(base, s'.Now().committed)) == MergeEntries(Apply(s.Of(pid).work.repo.entries, m).value)
  {
    hide WorkOk, LogInv, Increasing, StageOk, Refines, VersionsOk, NormalIds, NormalAdds, NormalAdd, Apply, SerializeEntries, ChangeWork,
         Attempt, Fold, Alike, NewAdd, Run, WriteEvents, VersionOk;
    var a := s.Of(pid).work;
    ChangeStarts(p, s.log, s.salts, base, s.Now(), a, m, nonce);
    NextReplaceStoresAll(p, base, s, pid, m, nonce, w);
    WriteRuns(p, DoChange(p, s, pid, m, nonce), pid, w);
    StoredList(p, s.log, base, s.Now(), a, m);
    assert [] + [] + [m] == [m];
  }

  lemma StoredList(p: Primitives, log: Log, base: seq<Entry>, now: Version, a: Work, m: Mutation)
    requires WorkOk(p, log, base, now, a) && a.saved == [] && a.unsaved == [] && NormalAdd(m) && Apply(a.repo.entries, m).Ok?
    ensures MergeEntries(Fold(base, now.committed + [m])) == MergeEntries(Apply(a.repo.entries, m).value)
  {
    hide OpenSession, DeserializeEntries, Fold, MergeEntries, DistinctIds, Apply, Reopens, NormalAdd;
    HistoryGrows(base, now.committed, a.saved, a.unsaved, a.repo.entries, m);
    assert now.committed + ([] + [] + [m]) == now.committed + [m] && [] + [] + [m] == [m];
  }

  /** Steps that draw nothing are always fresh. */
  lemma {:induction false} FreshQuiet(p: Primitives, s: System, evs: seq<Event>)
    requires s.Valid() && forall ev :: ev in evs ==> !ev.Change? && !ev.Rekey?
    ensures FreshRun(p, s, evs)
    decreases |evs|
  {
    hide Step;
    if evs != [] {
      FreshQuiet(p, Step(p, s, evs[0]), evs[1..]);
    }
  }

  /** The parts of a session. */
  lemma SessionParts(p: Primitives, s: System, pid: nat, password: Bytes, m: Mutation, nonce: Nonce, w: Weather)
    requires s.Valid() && w.fault.NoFault?
    ensures var evs := SessionEvents(pid, password, m, nonce, w.temp, w.inode, w.directorySyncs);
            var loaded := Run(p, Run(p, s, [Acquire(pid)]), [Load(pid, password)]);
            && Run(p, s, evs) == Run(p, MutateRun(p, loaded, pid, m, nonce, w), [Close(pid)])
            && (FreshRun(p, s, evs) <==> Fresh(loaded, Change(pid, m, nonce)))
  {
    hide Run, FreshRun, Step;
    WriteEventsAre(pid, w);
    var writes := WriteEvents(pid, w);
    var quiet := writes + [Close(pid)];
    var evs := SessionEvents(pid, password, m, nonce, w.temp, w.inode, w.directorySyncs);
    assert evs == [Acquire(pid)] + ([Load(pid, password)] + ([Change(pid, m, nonce)] + quiet));
    hide WriteEvents, SessionEvents;
    var s1 := Run(p, s, [Acquire(pid)]);
    var s2 := Run(p, s1, [Load(pid, password)]);
    var s3 := Run(p, s2, [Change(pid, m, nonce)]);
    RunAppend(p, s, [Acquire(pid)], [Load(pid, password)] + ([Change(pid, m, nonce)] + quiet));
    RunAppend(p, s1, [Load(pid, password)], [Change(pid, m, nonce)] + quiet);
    RunAppend(p, s2, [Change(pid, m, nonce)], quiet);
    RunAppend(p, s3, writes, [Close(pid)]);
    ChangeRun(p, s2, pid, m, nonce);
    FreshQuiet(p, s, [Acquire(pid)]);
    FreshQuiet(p, s1, [Load(pid, password)]);
    FreshQuiet(p, s3, quiet);
  }

  lemma ChangeRun(p: Primitives, s: System, pid: nat, m: Mutation, nonce: Nonce)
    requires s.Valid()
    ensures Run(p, s, [Change(pid, m, nonce)]) == DoChange(p, s, pid, m, nonce)
    ensures FreshRun(p, s, [Change(pid, m, nonce)]) <==> Fresh(s, Change(pid, m, nonce))
  {
    hide DoChange;
    RunFirst(p, s, Change(pid, m, nonce), []);
  }

  /** What the lock is for: whenever it is free, a process that locks, loads, mutates, writes and
      closes undisturbed stores its mutation on top of everything stored before, and leaves the lock
      free for the next process to do the same. */
  lemma SessionStores(p: Primitives, base: seq<Entry>, s: System, pid: nat, password: Bytes, repo: Repo, m: Mutation, nonce: Nonce,
                      temp: Name, inode: nat, works: bool)
    requires p.Sound() && Inv(p, base, s) && CanStore(p, s, pid, password, repo, m, temp, inode)
    ensures var evs := SessionEvents(pid, password, m, nonce, temp, inode, works);
            var s' := Run(p, s, evs);
            && FreshRun(p, s, evs) && Inv(p, base, s')
            && s'.Now().committed == s.Now().committed + [m] && s'.Now().password == password
            && LoadFile(p, s', password).Ok?
            && LoadFile(p, s', password).value.entries == MergeEntries(Apply(repo.entries, m).value)
            && (works ==> s'.durable == |s'.versions| - 1)
            && s'.holder == None && s'.Of(pid) == Idle && (forall other: nat :: other != pid ==> s'.Of(other) == s.Of(other))
  {
    hide Inv, Step, Run, FreshRun, LoadFile, Apply, SerializeEntries, NormalAdd, NewAdd, MergeEntries, Fold,
         Fs.Current, SessionEvents, MutateRun;
    InvSays(p, base, s, pid);
    var evs := SessionEvents(pid, password, m, nonce, temp, inode, works);
    var w := Weather(NoFault, works, true, temp, inode);
    SessionLoads(p, base, s, pid, password, repo);
    var loaded := Run(p, Run(p, s, [Acquire(pid)]), [Load(pid, password)]);
    SessionParts(p, s, pid, password, m, nonce, w);
    SessionEnds(p, base, s, loaded, pid, password, repo, m, nonce, w);
    hide CanStore;
    RunInv(p, base, s, evs);
    CurrentLoads(p, base, Run(p, s, evs));
  }

  lemma SessionEnds(p: Primitives, base: seq<Entry>, s: System, loaded: System, pid: nat, password: Bytes, repo: Repo, m: Mutation,
                    nonce: Nonce, w: Weather)
    requires p.Sound() && s.Valid() && CanStore(p, s, pid, password, repo, m, w.temp, w.inode) && w.fault.NoFault?
    requires Inv(p, base, loaded) && loaded.Valid() && s.fs.Visible(s.path).Some?
    requires OnlyProcess(s, loaded, pid, Active(Work(repo, password, s.fs.Visible(s.path).value, None, [], [])), Some(pid))
    ensures Fresh(loaded, Change(pid, m, nonce))
    ensures var s' := Run(p, MutateRun(p, loaded, pid, m, nonce, w), [Close(pid)]);
            && s'.Now().committed == s.Now().committed + [m] && s'.Now().password == password
            && MergeEntries(Fold(base, s'.Now().committed)) == MergeEntries(Apply(repo.entries, m).value)
            && (w.directorySyncs ==> s'.durable == |s'.versions| - 1)
            && s'.holder == None && s'.Of(pid) == Idle && (forall other: nat :: other != pid ==> s'.Of(other) == s.Of(other))
  {
    hide Inv, Run, LoadFile, Apply, SerializeEntries, NormalAdd, NewAdd, MergeEntries, Fold, Fs.Current, Fs.Visible, MutateRun;
    LoadedStores(p, base, loaded, pid, m, nonce, w);
    CloseUnlocks(p, MutateRun(p, loaded, pid, m, nonce, w), pid);
  }

  lemma CloseUnlocks(p: Primitives, s: System, pid: nat)
    requires s.Valid() && Ready(s, pid)
    ensures OnlyProcess(s, Run(p, s, [Close(pid)]), pid, Idle, None)
  {
    hide Run, OnlyProcess;
    LockLifecycle(p, s, pid, [], map[], map[]);
  }

  /** The first two steps of a session. */
  lemma SessionLoads(p: Primitives, base: seq<Entry>, s: System, pid: nat, password: Bytes, repo: Repo)
    requires p.Sound() && Inv(p, base, s) && s.Valid() && s.Of(pid) == Idle && s.holder == None && LoadFile(p, s, password) == Ok(repo)
    ensures var loaded := Run(p, Run(p, s, [Acquire(pid)]), [Load(pid, password)]);
            && Inv(p, base, loaded) && s.fs.Visible(s.path).Some?
            && OnlyProcess(s, loaded, pid, Active(Work(repo, password, s.fs.Visible(s.path).value, None, [], [])), Some(pid))
  {
    hide Inv, Run, FreshRun, LoadFile, Fs.Visible;
    var s1 := Run(p, s, [Acquire(pid)]);
    LockLifecycle(p, s, pid, password, map[], map[]);
    LoadFileSame(p, s, s1, password);
    LockLifecycle(p, s1, pid, password, map[], map[]);
    FreshQuiet(p, s, [Acquire(pid)]);
    RunInv(p, base, s, [Acquire(pid)]);
    FreshQuiet(p, s1, [Load(pid, password)]);
    RunInv(p, base, s1, [Load(pid, password)]);
  }

  lemma LoadFileSame(p: Primitives, s: System, s': System, password: Bytes)
    requires s.Valid() && s'.Valid() && s'.fs == s.fs && s'.path == s.path && s'.log == s.log
    ensures LoadFile(p, s', password) == LoadFile(p, s, password)
  {
    hide LoadStore;
  }

  /** Two processes one after the other: nothing is lost. */
  lemma TwoSessionsStoreBoth(p: Primitives, s: System, entries: seq<Entry>, before: seq<Event>,
                             pid: nat, password: Bytes, repo: Repo, m: Mutation, nonce: Nonce, temp: Name, inode: nat, works: bool,
                             pid': nat, repo': Repo, m': Mutation, nonce': Nonce, temp': Name, inode': nat, works': bool)
    requires p.Sound() && s.Valid() && Initial(p, s, entries) && FreshRun(p, s, before)
    requires CanStore(p, Run(p, s, before), pid, password, repo, m, temp, inode)
    requires CanStore(p, Run(p, Run(p, s, before), SessionEvents(pid, password, m, nonce, temp, inode, works)),
                      pid', password, repo', m', temp', inode')
    ensures var s1 := Run(p, s, before);
            var s2 := Run(p, s1, SessionEvents(pid, password, m, nonce, temp, inode, works));
            var s3 := Run(p, s2, SessionEvents(pid', password, m', nonce', temp', inode', works'));
            && FreshRun(p, s1, SessionEvents(pid, password, m, nonce, temp, inode, works))
            && FreshRun(p, s2, SessionEvents(pid', password, m', nonce', temp', inode', works'))
            && repo'.entries == MergeEntries(Apply(repo.entries, m).value)
            && s3.Now().committed == s1.Now().committed + [m, m']
            && LoadFile(p, s3, password).Ok?
            && LoadFile(p, s3, password).value.entries == MergeEntries(Apply(repo'.entries, m').value)
  {
    hide Inv, Step, Run, FreshRun, Initial, LoadFile, Apply, SerializeEntries, MergeEntries, Fs.Current, SessionEvents, NormalAdd, NewAdd;
    var base := MergeEntries(entries);
    InitialInv(p, s, entries);
    RunInv(p, base, s, before);
    var s1 := Run(p, s, before);
    SessionStores(p, base, s1, pid, password, repo, m, nonce, temp, inode, works);
    var s2 := Run(p, s1, SessionEvents(pid, password, m, nonce, temp, inode, works));
    SessionStores(p, base, s2, pid', password, repo', m', nonce', temp', inode', works');
    assert s1.Now().committed + [m] + [m'] == s1.Now().committed + [m, m'];
  }
}
