/** The exclusive, non-blocking lock on the sidecar file (locking.py), over the kernel's
    lock table. */
module Locking {
  import opened Basics

  type Path = string

  /** The kernel's view: which open file description holds the lock on each path, and which
      descriptors are open. */
  class Kernel {
    var holders: map<Path, nat>
    var open: set<nat>
    var next: nat

    ghost predicate Valid()
      reads this
    {
      && (forall fd :: fd in open ==> fd < next)
      && (forall p :: p in holders ==> holders[p] in open)
      && (forall p, q :: p in holders && q in holders && holders[p] == holders[q] ==> p == q)
    }

    constructor ()
      ensures Valid() && holders == map[] && open == {}
    {
      holders, open, next := map[], {}, 0;
    }

    method OpenFile() returns (fd: nat)
      requires Valid()
      modifies this
      ensures Valid() && fd !in old(open) && open == old(open) + {fd} && holders == old(holders)
    {
      fd := next;
      open := open + {fd};
      next := next + 1;
    }

    /** `flock(fd, LOCK_EX | LOCK_NB)`: refused when another descriptor holds the lock. */
    method TryLock(fd: nat, path: Path) returns (ok: bool)
      requires Valid() && fd in open && (forall p :: p in holders ==> holders[p] != fd)
      modifies this
      ensures Valid() && open == old(open) && ok == (path !in old(holders))
      ensures holders == if ok then old(holders)[path := fd] else old(holders)
    {
      ok := path !in holders;
      if ok {
        holders := holders[path := fd];
      }
    }

    /** Closing a descriptor drops the lock it holds; so does the death of its process. */
    method CloseFile(fd: nat)
      requires Valid()
      modifies this
      ensures Valid() && open == old(open) - {fd}
      ensures holders == map p | p in old(holders) && old(holders)[p] != fd :: old(holders)[p]
    {
      open := open - {fd};
      holders := map p | p in holders && holders[p] != fd :: holders[p];
    }
  }

  class FileLock {
    const lockPath: Path
    var fd: Option<nat>

    /** The lock object and the kernel agree. */
    ghost predicate Valid(kernel: Kernel)
      reads this, kernel
    {
      fd.Some? ==> lockPath in kernel.holders && kernel.holders[lockPath] == fd.value
    }

    constructor (vaultPath: Path)
      ensures lockPath == vaultPath + ".lock" && fd == None
    {
      lockPath := vaultPath + ".lock";
      fd := None;
    }

    /** Takes the lock, or fails leaving locks and open descriptors as they were. */
    method Acquire(kernel: Kernel) returns (r: Result<()>)
      requires kernel.Valid() && Valid(kernel)
      modifies this, kernel
      ensures kernel.Valid() && Valid(kernel)
      ensures r == if lockPath in old(kernel.holders) then Err(LockedError) else Ok(())
      ensures r.Err? ==> fd == old(fd) && kernel.holders == old(kernel.holders) && kernel.open == old(kernel.open)
      ensures r.Ok? ==> fd.Some? && fd.value !in old(kernel.open)
                        && kernel.holders == old(kernel.holders)[lockPath := fd.value] && kernel.open == old(kernel.open) + {fd.value}
    {
      var f := kernel.OpenFile();
      var ok := kernel.TryLock(f, lockPath);
      if !ok {
        kernel.CloseFile(f);
        assert kernel.holders == old(kernel.holders);
        return Err(LockedError);
      }
      fd := Some(f);
      return Ok(());
    }

    /** Gives the lock back; doing it again changes nothing. */
    method Release(kernel: Kernel)
      requires kernel.Valid() && Valid(kernel)
      modifies this, kernel
      ensures kernel.Valid() && Valid(kernel) && fd == None
      ensures old(fd).None? ==> kernel.holders == old(kernel.holders) && kernel.open == old(kernel.open)
      ensures old(fd).Some? ==> kernel.holders == old(kernel.holders) - {lockPath} && kernel.open == old(kernel.open) - {old(fd).value}
    {
      if fd.None? {
        return;
      }
      kernel.CloseFile(fd.value);
      assert kernel.holders == old(kernel.holders) - {lockPath};
      fd := None;
    }
  }
}
