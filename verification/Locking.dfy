/** The workspace lock as its methods run: the object, and the lock file with the operating system's lock on it. */
module Locking {
  import opened Wrappers

  datatype LockError = AlreadyHeld | Conflict

  /** The lock file. Every `open` gives a new handle; `flock` binds the lock to a handle, and closing the handle
      gives the lock up. */
  class LockFile {
    var text: Option<string>
    var owner: Option<nat>
    var handles: set<nat>
    var next: nat

    ghost predicate Valid()
      reads this
    {
      && (forall h | h in handles :: h < next)
      && (owner.Some? ==> owner.value in handles)
      && (handles != {} ==> text.Some?)
    }

    constructor ()
      ensures Valid() && text == None && owner == None && handles == {}
    {
      text, owner, handles, next := None, None, {}, 0;
    }

    /** `open(path, "a+b")`: creates the file, never changes one that is there. */
    method Open() returns (handle: nat)
      requires Valid()
      modifies this
      ensures Valid()
      ensures handle !in old(handles) && handles == old(handles) + {handle} && owner == old(owner)
      ensures text == if old(text).None? then Some("") else old(text)
    {
      handle := next;
      next := next + 1;
      handles := handles + {handle};
      if text.None? { text := Some(""); }
    }

    /** `flock(LOCK_EX | LOCK_NB)`. */
    method TryLock(handle: nat) returns (ok: bool)
      requires Valid() && handle in handles && owner != Some(handle)
      modifies this`owner
      ensures Valid()
      ensures ok == old(owner).None?
      ensures owner == if ok then Some(handle) else old(owner)
    {
      ok := owner.None?;
      if ok { owner := Some(handle); }
    }

    method Truncate(handle: nat)
      requires Valid() && handle in handles
      modifies this`text
      ensures Valid() && text == Some("")
    {
      text := Some("");
    }

    /** In append mode a write goes to the end of the file. */
    method Write(handle: nat, more: string)
      requires Valid() && handle in handles
      modifies this`text
      ensures Valid() && text == Some(old(text).value + more)
    {
      text := Some(text.value + more);
    }

    /** `flock(LOCK_UN)`. */
    method Unlock(handle: nat)
      requires Valid() && handle in handles
      modifies this`owner
      ensures Valid()
      ensures owner == if old(owner) == Some(handle) then None else old(owner)
    {
      if owner == Some(handle) { owner := None; }
    }

    method Close(handle: nat)
      requires Valid() && handle in handles
      modifies this`owner, this`handles
      ensures Valid()
      ensures owner == if old(owner) == Some(handle) then None else old(owner)
      ensures handles == old(handles) - {handle}
    {
      if owner == Some(handle) { owner := None; }
      handles := handles - {handle};
    }
  }

  class WorkspaceLock {
    const os: LockFile
    var file: Option<nat>

    /** A lock that says it is held owns the operating system's lock. */
    ghost predicate Valid()
      reads this, os
    {
      os.Valid() && (file.Some? ==> os.owner == file)
    }

    predicate IsHeld()
      reads this
    {
      file.Some?
    }

    constructor (os: LockFile)
      requires os.Valid()
      ensures Valid() && this.os == os && !IsHeld()
    {
      this.os := os;
      file := None;
    }

    /** Takes the lock and writes the metadata, or fails without a trace: a refused acquire leaves the holder, its
        lock and its metadata as they were. */
    method Acquire(info: string) returns (r: Result<(), LockError>)
      requires Valid()
      modifies this, os
      ensures Valid()
      ensures r == (if old(file).Some? then Err(AlreadyHeld) else if old(os.owner).Some? then Err(Conflict) else Ok(()))
      ensures r.Ok? ==>
        && IsHeld() && os.text == Some(info) && file.value !in old(os.handles)
        && os.handles == old(os.handles) + {file.value}
      ensures r.Err? ==>
        && file == old(file) && os.owner == old(os.owner) && os.handles == old(os.handles) && os.text == old(os.text)
    {
      if file.Some? { return Err(AlreadyHeld); }
      var handle := os.Open();
      var locked := os.TryLock(handle);
      if !locked {
        os.Close(handle);
        return Err(Conflict);
      }
      os.Truncate(handle);
      os.Write(handle, info);
      assert "" + info == info;
      file := Some(handle);
      r := Ok(());
    }

    /** Frees the lock if this object holds it; the metadata stays in the file. */
    method Release()
      requires Valid()
      modifies this, os
      ensures Valid() && !IsHeld() && os.text == old(os.text)
      ensures old(file).None? ==> os.owner == old(os.owner) && os.handles == old(os.handles)
      ensures old(file).Some? ==> os.owner == None && os.handles == old(os.handles) - {old(file).value}
    {
      if file.None? { return; }
      var handle := file.value;
      file := None;
      os.Unlock(handle);
      os.Close(handle);
    }
  }
}
