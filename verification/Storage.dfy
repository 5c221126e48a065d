/** Crash-atomic replacement of a file (storage.py), over a file-system model that tells what
    the running system sees from what a crash may leave.

    An inode's data is certain to survive a crash only once synced; until then a crash may
    leave any bytes. A directory entry may come back as any value it had since the directory
    was last synced. */
module Storage {
  import opened Basics

  type Name = string

  datatype Inode = Inode(content: Bytes, synced: bool)

  /** `links[n]` lists what entry `n` has pointed to since the last directory sync, oldest first;
      a name that is not there never existed. */
  datatype Fs = Fs(inodes: map<nat, Inode>, links: map<Name, seq<Option<nat>>>) {

    ghost predicate Valid() {
      forall n :: n in links ==> links[n] != [] && forall l :: l in links[n] && l.Some? ==> l.value in inodes
    }

    function Links(n: Name): (r: seq<Option<nat>>)
      ensures n !in links ==> r == [None]
    {
      if n in links then links[n] else [None]
    }

    function Current(n: Name): Option<nat>
      requires Valid()
    {
      Links(n)[|Links(n)| - 1]
    }

    /** What a running process reads at `n`. */
    function Visible(n: Name): Option<Bytes>
      requires Valid()
    {
      match Current(n)
      case None => None
      case Some(i) =>
        assert n in links && Some(i) in links[n];
        Some(inodes[i].content)
    }

    /** What may be read at `n` after a crash now. */
    ghost predicate AfterCrash(n: Name, r: Option<Bytes>)
      requires Valid()
    {
      exists l :: l in Links(n) && LinkSurvives(l, r)
    }

    ghost predicate LinkSurvives(l: Option<nat>, r: Option<Bytes>) {
      match l
      case None => r == None
      case Some(i) => i in inodes && r.Some? && (inodes[i].synced ==> r.value == inodes[i].content)
    }

    ghost predicate CurrentSynced(n: Name)
      requires Valid()
    {
      Current(n).Some? && Current(n).value in inodes && inodes[Current(n).value].synced
    }

    function Relink(n: Name, l: Option<nat>): (fs: Fs)
      requires Valid() && (l.Some? ==> l.value in inodes)
      ensures fs.Valid() && fs.inodes == inodes && fs.Current(n) == l && fs.Links(n) == Links(n) + [l]
      ensures forall m :: m != n ==> fs.Links(m) == Links(m)
    {
      Fs(inodes, links[n := Links(n) + [l]])
    }

    /** A new empty file under an unused name. */
    function CreateFile(n: Name, i: nat): (fs: Fs)
      requires Valid()
      ensures fs.Valid() && fs.inodes == inodes[i := Inode([], false)] && fs.Current(n) == Some(i)
      ensures forall m :: m != n ==> fs.Links(m) == Links(m)
    {
      WriteFile(i, []).Relink(n, Some(i))
    }

    function WriteFile(i: nat, data: Bytes): (fs: Fs)
      requires Valid()
      ensures fs.Valid() && fs.links == links && fs.inodes == inodes[i := Inode(data, false)]
    {
      Fs(inodes[i := Inode(data, false)], links)
    }

    function SyncFile(i: nat): (fs: Fs)
      requires Valid() && i in inodes
      ensures fs.Valid() && fs.links == links && fs.inodes == inodes[i := Inode(inodes[i].content, true)]
    {
      Fs(inodes[i := inodes[i].(synced := true)], links)
    }

    function Unlink(n: Name): (fs: Fs)
      requires Valid()
      ensures fs.Valid() && fs.inodes == inodes && fs.Current(n) == None && forall m :: m != n ==> fs.Links(m) == Links(m)
    {
      Relink(n, None)
    }

    /** `os.replace`: one atomic step for every observer. */
    function Rename(source: Name, target: Name): (fs: Fs)
      requires Valid() && source != target
      ensures fs.Valid() && fs.inodes == inodes
      ensures fs.Links(target) == Links(target) + [Current(source)] && fs.Links(source) == Links(source) + [None]
      ensures forall m :: m != source && m != target ==> fs.Links(m) == Links(m)
    {
      CurrentExists(source);
      Relink(target, Current(source)).Relink(source, None)
    }

    lemma CurrentExists(n: Name)
      requires Valid()
      ensures Current(n).Some? ==> Current(n).value in inodes && Current(n) in Links(n)
    {
      if n in links {
        assert Current(n) in links[n];
      }
    }

    /** A directory sync makes the current entries the only possible ones. */
    function SyncDirectory(): (fs: Fs)
      requires Valid()
      ensures fs.Valid() && fs.inodes == inodes
      ensures forall n :: fs.Links(n) == [Current(n)]
    {
      var fs := Fs(inodes, map n | n in links :: [Current(n)]);
      assert forall n :: n in links ==> Current(n) in links[n];
      fs
    }

    function Survivor(n: Name, keep: map<Name, nat>): (l: Option<nat>)
      requires Valid()
      ensures l in Links(n)
    {
      if n in keep && keep[n] < |Links(n)| then Links(n)[keep[n]] else Links(n)[|Links(n)| - 1]
    }

    /** The file system after a crash: of each name the link `keep` picks, and `garbage` as the
        data of inodes that were not synced. */
    function Crash(keep: map<Name, nat>, garbage: map<nat, Bytes>): (fs: Fs)
      requires Valid()
      ensures fs.Valid() && forall n :: fs.Links(n) == [Survivor(n, keep)]
    {
      var after := Fs(map i | i in inodes :: Inode(if !inodes[i].synced && i in garbage then garbage[i] else inodes[i].content, true),
                      map n | n in links :: [Survivor(n, keep)]);
      assert forall n :: n in links ==> Survivor(n, keep) in links[n];
      after
    }
  }

  /** `AfterCrash` says what crashes lead to: everything a crash leaves is such a value, and stays
      the only one until something is written. */
  lemma CrashLeavesAfterCrash(fs: Fs, keep: map<Name, nat>, garbage: map<nat, Bytes>, n: Name)
    requires fs.Valid()
    ensures var after := fs.Crash(keep, garbage);
            && fs.AfterCrash(n, after.Visible(n))
            && (forall r :: after.AfterCrash(n, r) <==> r == after.Visible(n))
            && (after.Current(n).Some? ==> after.inodes[after.Current(n).value].synced)
  {
    var after := fs.Crash(keep, garbage);
    var l := fs.Survivor(n, keep);
    assert after.Links(n) == [l];
    assert l.Some? ==> l.value in fs.inodes && l in fs.links[n];
    assert fs.LinkSurvives(l, after.Visible(n));
    assert after.LinkSurvives(l, after.Visible(n)) && l in after.Links(n);
  }

  /** And every such value is left by some crash. */
  lemma CrashReaches(fs: Fs, n: Name, r: Option<Bytes>) returns (keep: map<Name, nat>, garbage: map<nat, Bytes>)
    requires fs.Valid() && fs.AfterCrash(n, r)
    ensures fs.Crash(keep, garbage).Visible(n) == r
  {
    var l :| l in fs.Links(n) && fs.LinkSurvives(l, r);
    var k :| 0 <= k < |fs.Links(n)| && fs.Links(n)[k] == l;
    keep := map[n := k];
    garbage := if l.Some? then map[l.value := r.value] else map[];
    assert fs.Survivor(n, keep) == l;
    assert fs.Crash(keep, garbage).Links(n) == [l];
  }

  /** Where an exception interrupts `write_atomic`. */
  datatype Fault =
    | NoFault
    | AtCreate
    | AtMode
    | AtWrite(written: nat)
    | AtSync
    | AtReplace
    | AfterReplace

  /** The environment of one call: the fault, whether the directory sync works, whether the
      cleanup may unlink, and the unused name and inode that `mkstemp` finds. */
  datatype Weather = Weather(fault: Fault, directorySyncs: bool, cleanupWorks: bool, temp: Name, inode: nat) {
    predicate Replaces() {
      fault.NoFault? || fault.AfterReplace?
    }

    ghost predicate Unused(fs: Fs, path: Name)
      requires fs.Valid()
    {
      temp != path && fs.Current(temp) == None && inode !in fs.inodes
    }
  }

  /** No state between two file-system calls can lose the file at `path`: what a process reads and
      what a crash leaves is what it could be before, or the complete new data. */
  ghost predicate CrashSafe(before: Fs, now: Fs, path: Name, data: Bytes)
    requires before.Valid() && now.Valid()
  {
    && (now.Visible(path) == before.Visible(path) || now.Visible(path) == Some(data))
    && (forall r :: now.AfterCrash(path, r) ==> before.AfterCrash(path, r) || r == Some(data))
  }

  /** Changing other names and inodes does not touch what `path` holds or may hold. */
  lemma Untouched(fs: Fs, fs': Fs, path: Name)
    requires fs.Valid() && fs'.Valid() && fs'.Links(path) == fs.Links(path)
    requires forall i :: i in fs.inodes && Some(i) in fs.Links(path) ==> i in fs'.inodes && fs'.inodes[i] == fs.inodes[i]
    ensures fs'.Visible(path) == fs.Visible(path)
    ensures forall r :: fs'.AfterCrash(path, r) <==> fs.AfterCrash(path, r)
  {
    fs.CurrentExists(path);
    assert forall l :: l in fs.Links(path) && l.Some? ==> l.value in fs.inodes;
    forall r ensures fs'.AfterCrash(path, r) <==> fs.AfterCrash(path, r) {
      forall l | l in fs.Links(path) ensures fs'.LinkSurvives(l, r) <==> fs.LinkSurvives(l, r) {
      }
    }
  }

  lemma OthersVisible(before: Fs, fs: Fs, path: Name, temp: Name)
    requires before.Valid() && fs.Valid()
    requires forall n :: n != path && n != temp ==> fs.Current(n) == before.Current(n)
    requires forall i :: i in before.inodes ==> i in fs.inodes && fs.inodes[i] == before.inodes[i]
    ensures forall n :: n != path && n != temp ==> fs.Visible(n) == before.Visible(n)
    ensures fs.Current(temp) == None ==> fs.Visible(temp) == None
  {
    forall n | n != path && n != temp ensures fs.Visible(n) == before.Visible(n) {
      before.CurrentExists(n);
    }
  }

  /** The rename is safe because the data was synced before it. */
  lemma RenameSafe(fs: Fs, temp: Name, path: Name, inode: nat, data: Bytes)
    requires fs.Valid() && temp != path && fs.Current(temp) == Some(inode)
    requires inode in fs.inodes && fs.inodes[inode] == Inode(data, true)
    ensures var fs' := fs.Rename(temp, path);
            && fs'.Visible(path) == Some(data) && fs'.Visible(temp) == None
            && (forall r :: fs'.AfterCrash(path, r) ==> fs.AfterCrash(path, r) || r == Some(data))
  {
    var fs' := fs.Rename(temp, path);
    forall r | fs'.AfterCrash(path, r) ensures fs.AfterCrash(path, r) || r == Some(data) {
      var l :| l in fs'.Links(path) && fs'.LinkSurvives(l, r);
      if l in fs.Links(path) {
        assert fs.LinkSurvives(l, r);
      }
    }
  }

  /** Were the data not synced first, a crash after the rename could leave any bytes at `path`. */
  lemma RenameUnsyncedUnsafe(fs: Fs, temp: Name, path: Name, inode: nat, garbage: Bytes)
    requires fs.Valid() && temp != path && fs.Current(temp) == Some(inode)
    requires inode in fs.inodes && !fs.inodes[inode].synced
    ensures fs.Rename(temp, path).AfterCrash(path, Some(garbage))
  {
    var fs' := fs.Rename(temp, path);
    assert fs'.Links(path)[|fs.Links(path)|] == Some(inode);
    assert fs'.LinkSurvives(Some(inode), Some(garbage));
  }

  /** After a directory sync a crash leaves what a process reads, if its data was synced. */
  lemma SyncDirectoryPins(fs: Fs, n: Name, inode: nat)
    requires fs.Valid() && fs.Current(n) == Some(inode) && inode in fs.inodes && fs.inodes[inode].synced
    ensures forall r :: fs.SyncDirectory().AfterCrash(n, r) <==> r == fs.Visible(n)
  {
    var fs' := fs.SyncDirectory();
    assert fs'.Links(n) == [Some(inode)];
    forall r | r == fs.Visible(n) ensures fs'.AfterCrash(n, r) {
      assert fs'.LinkSurvives(Some(inode), r);
    }
  }

  /** A directory sync only removes possibilities. */
  lemma SyncDirectoryNarrows(fs: Fs, n: Name)
    requires fs.Valid()
    ensures fs.SyncDirectory().Visible(n) == fs.Visible(n)
    ensures forall r :: fs.SyncDirectory().AfterCrash(n, r) ==> fs.AfterCrash(n, r)
  {
    var fs' := fs.SyncDirectory();
    fs.CurrentExists(n);
    assert fs'.Links(n) == [fs.Current(n)];
    forall r | fs'.AfterCrash(n, r) ensures fs.AfterCrash(n, r) {
      assert fs.LinkSurvives(fs.Current(n), r);
    }
  }

  /** The rename, and the directory sync after it, are safe against the state before the call. */
  lemma ReplaceSafe(before: Fs, fs: Fs, temp: Name, path: Name, inode: nat, data: Bytes)
    requires before.Valid() && fs.Valid() && temp != path && fs.Current(temp) == Some(inode)
    requires inode in fs.inodes && fs.inodes[inode] == Inode(data, true)
    requires forall x :: fs.AfterCrash(path, x) <==> before.AfterCrash(path, x)
    ensures var renamed := fs.Rename(temp, path);
            && renamed.Visible(path) == Some(data) && renamed.Current(temp) == None
            && CrashSafe(before, renamed, path, data)
            && (forall n :: n != temp && n != path ==> renamed.Current(n) == fs.Current(n) == renamed.SyncDirectory().Current(n))
            && renamed.SyncDirectory().Visible(path) == Some(data) && renamed.SyncDirectory().Current(temp) == None
            && CrashSafe(before, renamed.SyncDirectory(), path, data)
            && (forall x :: renamed.SyncDirectory().AfterCrash(path, x) <==> x == Some(data))
  {
    RenameSafe(fs, temp, path, inode, data);
    SyncDirectoryNarrows(fs.Rename(temp, path), path);
    SyncDirectoryPins(fs.Rename(temp, path), path, inode);
  }

  /** What is done to the temporary file until the fault, if any. */
  function Fill(fs: Fs, data: Bytes, w: Weather): (r: Fs)
    requires fs.Valid()
    ensures r.Valid() && r.links == fs.links
  {
    if w.fault.AtMode? then fs
    else if w.fault.AtWrite? then fs.WriteFile(w.inode, data[..Least(w.fault.written, |data|)])
    else if w.fault.AtSync? then fs.WriteFile(w.inode, data)
    else fs.WriteFile(w.inode, data).SyncFile(w.inode)
  }

  function Least(a: nat, b: nat): nat {
    if a <= b then a else b
  }

  /** The states between the file-system calls: while the temporary file is filled, and of a whole call. */
  function FillStates(fs: Fs, data: Bytes, w: Weather): seq<Fs>
    requires fs.Valid()
  {
    if w.fault.AtMode? then []
    else if w.fault.AtWrite? || w.fault.AtSync? then [Fill(fs, data, w)]
    else [fs.WriteFile(w.inode, data), Fill(fs, data, w)]
  }

  function ReplaceStates(filled: Fs, path: Name, w: Weather): seq<Fs>
    requires filled.Valid() && w.temp != path
  {
    if !w.Replaces() then []
    else
      var renamed := filled.Rename(w.temp, path);
      [renamed] + if w.fault.NoFault? && w.directorySyncs then [renamed.SyncDirectory()] else []
  }

  function States(fs: Fs, path: Name, data: Bytes, w: Weather): seq<Fs>
    requires fs.Valid() && w.Unused(fs, path)
  {
    if w.fault.AtCreate? then []
    else
      var made := fs.CreateFile(w.temp, w.inode);
      var filled := Fill(made, data, w);
      [made] + FillStates(made, data, w) + ReplaceStates(filled, path, w)
      + if !w.Replaces() && w.cleanupWorks then [filled.Unlink(w.temp)] else []
  }

  lemma Regroup(a: seq<Fs>, b: seq<Fs>, c: seq<Fs>, d: seq<Fs>, e: seq<Fs>)
    ensures a + b + c + d + e == a + (b + c + d + e)
  {
  }

  /** Where a whole call leaves the file system. */
  function Attempt(fs: Fs, path: Name, data: Bytes, w: Weather): (r: Fs)
    requires fs.Valid() && w.Unused(fs, path)
    ensures r.Valid()
  {
    if w.fault.AtCreate? then fs
    else
      var filled := Fill(fs.CreateFile(w.temp, w.inode), data, w);
      if w.Replaces() then
        var renamed := filled.Rename(w.temp, path);
        if w.fault.NoFault? && w.directorySyncs then renamed.SyncDirectory() else renamed
      else if w.cleanupWorks then filled.Unlink(w.temp)
      else filled
  }

  /** A file with a history: a process reads the last of `files` at `path`, from a synced inode, and
      a crash leaves one of those from index `durable` on and nothing else. */
  ghost predicate Refines(fs: Fs, path: Name, files: seq<Bytes>, durable: nat)
    requires fs.Valid()
  {
    && durable < |files| && fs.Visible(path) == Some(files[|files| - 1]) && fs.CurrentSynced(path)
    && forall r :: fs.AfterCrash(path, r) ==> OneOf(r, files, durable)
  }

  ghost predicate OneOf(r: Option<Bytes>, files: seq<Bytes>, durable: nat) {
    exists k :: durable <= k < |files| && r == Some(files[k])
  }

  lemma RefinesUntouched(fs: Fs, fs': Fs, path: Name, files: seq<Bytes>, durable: nat)
    requires fs.Valid() && fs'.Valid() && fs'.Links(path) == fs.Links(path)
    requires forall i :: i in fs.inodes && Some(i) in fs.Links(path) ==> i in fs'.inodes && fs'.inodes[i] == fs.inodes[i]
    requires Refines(fs, path, files, durable)
    ensures Refines(fs', path, files, durable)
  {
    fs.CurrentExists(path);
    Untouched(fs, fs', path);
  }

  /** The rename of a synced file is the next content; until the directory is synced a crash may
      still undo it. */
  lemma RefinesRename(fs: Fs, temp: Name, path: Name, inode: nat, data: Bytes, files: seq<Bytes>, durable: nat)
    requires fs.Valid() && temp != path && fs.Current(temp) == Some(inode)
    requires inode in fs.inodes && fs.inodes[inode] == Inode(data, true)
    requires Refines(fs, path, files, durable)
    ensures Refines(fs.Rename(temp, path), path, files + [data], durable)
  {
    RenameSafe(fs, temp, path, inode, data);
    hide Fs.AfterCrash, Fs.Visible;
    var fs' := fs.Rename(temp, path);
    forall r | fs'.AfterCrash(path, r) ensures OneOf(r, files + [data], durable) {
      if r == Some(data) {
        assert (files + [data])[|files|] == data;
      } else {
        var k :| durable <= k < |files| && r == Some(files[k]);
        assert (files + [data])[k] == files[k];
      }
    }
  }

  /** A directory sync makes the present content the only possible one. */
  lemma RefinesSync(fs: Fs, path: Name, files: seq<Bytes>, durable: nat)
    requires fs.Valid() && Refines(fs, path, files, durable)
    ensures Refines(fs.SyncDirectory(), path, files, |files| - 1)
  {
    SyncDirectoryNarrows(fs, path);
    SyncDirectoryPins(fs, path, fs.Current(path).value);
    hide Fs.AfterCrash, Fs.Visible;
  }

  /** A crash leaves one of the contents since the last directory sync, and that one is durable. */
  lemma RefinesCrash(fs: Fs, path: Name, files: seq<Bytes>, durable: nat, keep: map<Name, nat>, garbage: map<nat, Bytes>)
    returns (k: nat)
    requires fs.Valid() && Refines(fs, path, files, durable)
    ensures durable <= k < |files| && fs.Crash(keep, garbage).Visible(path) == Some(files[k])
    ensures Refines(fs.Crash(keep, garbage), path, files[..k + 1], k)
  {
    CrashLeavesAfterCrash(fs, keep, garbage, path);
    var after := fs.Crash(keep, garbage);
    after.CurrentExists(path);
    assert after.Visible(path).Some? ==> after.CurrentSynced(path);
    hide Fs.AfterCrash, Fs.Visible, Fs.Crash;
    assert OneOf(after.Visible(path), files, durable);
    k :| durable <= k < |files| && after.Visible(path) == Some(files[k]);
    assert files[..k + 1][k] == files[k];
  }

  /** One call of `write_atomic`, with any fault: it adds at most its data to the history, exactly
      if the rename happened, and with a directory sync makes it durable. */
  lemma AttemptRefines(fs: Fs, path: Name, data: Bytes, w: Weather, files: seq<Bytes>, durable: nat)
    requires fs.Valid() && w.Unused(fs, path) && Refines(fs, path, files, durable)
    ensures var after := Attempt(fs, path, data, w);
            if !w.Replaces() then Refines(after, path, files, durable)
            else Refines(after, path, files + [data], if w.fault.NoFault? && w.directorySyncs then |files| else durable)
  {
    if !w.fault.AtCreate? {
      var made := fs.CreateFile(w.temp, w.inode);
      var filled := Fill(made, data, w);
      assert forall l :: l in fs.Links(path) && l.Some? ==> l.value in fs.inodes;
      RefinesUntouched(fs, filled, path, files, durable);
      if w.Replaces() {
        hide Refines;
        RefinesRename(filled, w.temp, path, w.inode, data, files, durable);
        RefinesSync(filled.Rename(w.temp, path), path, files + [data], durable);
      } else {
        RefinesUntouched(filled, filled.Unlink(w.temp), path, files, durable);
      }
    }
  }

  lemma AttemptVisible(fs: Fs, path: Name, data: Bytes, w: Weather)
    requires fs.Valid() && w.Unused(fs, path)
    ensures Attempt(fs, path, data, w).Visible(path) == if w.Replaces() then Some(data) else fs.Visible(path)
  {
    if !w.fault.AtCreate? {
      var filled := Fill(fs.CreateFile(w.temp, w.inode), data, w);
      assert forall l :: l in fs.Links(path) && l.Some? ==> l.value in fs.inodes;
      Untouched(fs, filled, path);
      if w.Replaces() {
        ReplaceSafe(filled, filled, w.temp, path, w.inode, data);
      } else {
        Untouched(filled, filled.Unlink(w.temp), path);
      }
    }
  }

  /** A call that succeeds, with a directory sync, starts a history: its data is all that is left. */
  lemma AttemptStarts(fs: Fs, path: Name, data: Bytes, w: Weather)
    requires fs.Valid() && w.Unused(fs, path) && w.fault.NoFault? && w.directorySyncs
    ensures Refines(Attempt(fs, path, data, w), path, [data], 0)
  {
    var filled := Fill(fs.CreateFile(w.temp, w.inode), data, w);
    ReplaceSafe(filled, filled, w.temp, path, w.inode, data);
    assert [data][0] == data;
  }

  /** The directory that holds the vault, with the history of its states. */
  class FileSystem {
    var fs: Fs
    ghost var trace: seq<Fs>

    ghost predicate Valid()
      reads this
    {
      fs.Valid() && forall t :: t in trace ==> t.Valid()
    }

    method Set(next: Fs)
      requires Valid() && next.Valid()
      modifies this
      ensures Valid() && fs == next && trace == old(trace) + [next]
    {
      fs := next;
      trace := trace + [next];
    }

    /** Sets the mode, writes the data and syncs it, all on the temporary file. */
    method FillTemporary(path: Name, data: Bytes, w: Weather, ghost before: Fs) returns (r: Result<()>)
      requires Valid() && before.Valid() && w.temp != path && !w.fault.AtCreate?
      requires w.inode in fs.inodes && w.inode !in before.inodes && fs.Links(path) == before.Links(path)
      requires forall i :: i in before.inodes ==> i in fs.inodes && fs.inodes[i] == before.inodes[i]
      modifies this
      ensures Valid() && trace == old(trace) + FillStates(old(fs), data, w)
      ensures r.Err? <==> w.fault.AtMode? || w.fault.AtWrite? || w.fault.AtSync?
      ensures fs == Fill(old(fs), data, w)
      ensures fs.links == old(fs).links && w.inode in fs.inodes && (r.Ok? ==> fs.inodes[w.inode] == Inode(data, true))
      ensures forall i :: i in before.inodes ==> i in fs.inodes && fs.inodes[i] == before.inodes[i]
      ensures CrashSafe(before, fs, path, data) && fs.Visible(path) == before.Visible(path)
      ensures forall x :: fs.AfterCrash(path, x) <==> before.AfterCrash(path, x)
      ensures forall k :: |old(trace)| <= k < |trace| ==> trace[k].Valid() && CrashSafe(before, trace[k], path, data)
    {
      Untouched(before, fs, path);
      if w.fault.AtMode? {
        return Err(OSError);
      }
      if w.fault.AtWrite? {
        Set(fs.WriteFile(w.inode, data[..Least(w.fault.written, |data|)]));
        Untouched(before, fs, path);
        return Err(OSError);
      }
      Set(fs.WriteFile(w.inode, data));
      Untouched(before, fs, path);
      if w.fault.AtSync? {
        return Err(OSError);
      }
      Set(fs.SyncFile(w.inode));
      Untouched(before, fs, path);
      return Ok(());
    }

    /** The `try` block: fill the temporary file, put it in place, sync the directory. */
    method FillAndReplace(path: Name, data: Bytes, w: Weather, ghost before: Fs) returns (r: Result<()>)
      requires Valid() && before.Valid() && w.temp != path && !w.fault.AtCreate?
      requires fs.Current(w.temp) == Some(w.inode) && w.inode in fs.inodes && w.inode !in before.inodes
      requires forall n :: n != w.temp ==> fs.Links(n) == before.Links(n)
      requires forall i :: i in before.inodes ==> i in fs.inodes && fs.inodes[i] == before.inodes[i]
      modifies this
      ensures Valid() && trace == old(trace) + FillStates(old(fs), data, w) + ReplaceStates(Fill(old(fs), data, w), path, w)
      ensures r.Ok? <==> w.fault.NoFault?
      ensures fs == var filled := Fill(old(fs), data, w);
                    if !w.Replaces() then filled
                    else if w.fault.NoFault? && w.directorySyncs then filled.Rename(w.temp, path).SyncDirectory()
                    else filled.Rename(w.temp, path)
      ensures fs.Visible(path) == if w.Replaces() then Some(data) else before.Visible(path)
      ensures !w.Replaces() ==> forall x :: fs.AfterCrash(path, x) <==> before.AfterCrash(path, x)
      ensures fs.Current(w.temp) == if w.Replaces() then None else Some(w.inode)
      ensures w.inode in fs.inodes && forall i :: i in before.inodes ==> i in fs.inodes && fs.inodes[i] == before.inodes[i]
      ensures forall n :: n != path && n != w.temp ==> fs.Current(n) == before.Current(n)
      ensures CrashSafe(before, fs, path, data)
      ensures forall k :: |old(trace)| <= k < |trace| ==> trace[k].Valid() && CrashSafe(before, trace[k], path, data)
      ensures r.Ok? && w.directorySyncs ==> forall x :: fs.AfterCrash(path, x) <==> x == Some(data)
    {
      hide CrashSafe, Fs.AfterCrash, Fs.Visible, Fs.Rename, Fs.SyncDirectory, FillStates, Fill;
      var _ :- FillTemporary(path, data, w, before);
      if w.fault.AtReplace? {
        return Err(OSError);
      }
      ReplaceSafe(before, fs, w.temp, path, w.inode, data);
      Set(fs.Rename(w.temp, path));
      if w.fault.AfterReplace? {
        return Err(OSError);
      }
      if w.directorySyncs {
        Set(fs.SyncDirectory());
      }
      return Ok(());
    }

    /** Best-effort removal of the temporary file; it leaves every other name alone. */
    method Cleanup(path: Name, w: Weather, data: Bytes, ghost before: Fs)
      requires Valid() && before.Valid() && w.temp != path && CrashSafe(before, fs, path, data)
      modifies this
      ensures Valid() && fs.inodes == old(fs).inodes
      ensures trace == old(trace) + if w.cleanupWorks && old(fs).Current(w.temp).Some? then [fs] else []
      ensures forall n :: n != w.temp ==> fs.Links(n) == old(fs).Links(n)
      ensures w.cleanupWorks ==> fs.Current(w.temp) == None
      ensures !w.cleanupWorks ==> fs == old(fs)
      ensures w.cleanupWorks && old(fs).Current(w.temp).Some? ==> fs == old(fs).Unlink(w.temp)
      ensures w.cleanupWorks && old(fs).Current(w.temp).None? ==> fs == old(fs)
      ensures forall x :: fs.AfterCrash(path, x) <==> old(fs).AfterCrash(path, x)
      ensures fs.Visible(path) == old(fs).Visible(path) && CrashSafe(before, fs, path, data)
      ensures forall k :: |old(trace)| <= k < |trace| ==> trace[k].Valid() && CrashSafe(before, trace[k], path, data)
    {
      if fs.Current(w.temp).Some? && w.cleanupWorks {
        Untouched(fs, fs.Unlink(w.temp), path);
        Set(fs.Unlink(w.temp));
      }
    }

    method WriteAtomic(path: Name, data: Bytes, w: Weather) returns (r: Result<()>)
      requires Valid() && w.Unused(fs, path)
      modifies this
      ensures Valid() && trace == old(trace) + States(old(fs), path, data, w)
      ensures r.Ok? <==> w.fault.NoFault?
      ensures fs == Attempt(old(fs), path, data, w)
      ensures fs.Visible(path) == if w.Replaces() then Some(data) else old(fs).Visible(path)
      ensures !w.Replaces() ==> forall x :: fs.AfterCrash(path, x) <==> old(fs).AfterCrash(path, x)
      ensures w.cleanupWorks || r.Ok? || w.fault.AtCreate? || w.fault.AfterReplace? ==> fs.Visible(w.temp) == None
      ensures forall n :: n != path && n != w.temp ==> fs.Visible(n) == old(fs).Visible(n)
      ensures CrashSafe(old(fs), fs, path, data)
      ensures forall k :: |old(trace)| <= k < |trace| ==> trace[k].Valid() && CrashSafe(old(fs), trace[k], path, data)
      ensures r.Ok? && w.directorySyncs ==> forall x :: fs.AfterCrash(path, x) <==> x == Some(data)
    {
      hide Fill, FillStates, ReplaceStates, Fs.Rename, Fs.SyncDirectory;
      ghost var before := fs;
      if w.fault.AtCreate? {
        return Err(OSError);
      }
      Set(fs.CreateFile(w.temp, w.inode));
      Untouched(before, fs, path);
      assert CrashSafe(before, fs, path, data);
      hide CrashSafe, Fs.AfterCrash, Fs.Visible, Fill, Fs.Rename, Fs.SyncDirectory, FillStates, ReplaceStates;
      r := FillAndReplace(path, data, w, before);
      ghost var filled := trace;
      if r.Err? {
        Cleanup(path, w, data, before);
      }
      Regroup(old(trace), [before.CreateFile(w.temp, w.inode)], FillStates(before.CreateFile(w.temp, w.inode), data, w),
              ReplaceStates(Fill(before.CreateFile(w.temp, w.inode), data, w), path, w), trace[|filled|..]);
      OthersVisible(before, fs, path, w.temp);
    }
  }
}
