/**
  `FileLocker` of src/storage.cc: a table of readers/writer locks, one entry per locked path.

  Each function is what one pass of the corresponding loop or call does under the mutex.  The class
  keeps the table as a field that its methods reassign.  `Represents` relates the table to the
  guards that are alive.
 */
module Locks {

  datatype LockState = LockState(readerCount: int, writeLocked: bool)

  type Table = map<string, LockState>

  predicate CanRead(t: Table, path: string)
  {
    path in t ==> !t[path].writeLocked
  }

  predicate CanWrite(t: Table, path: string)
  {
    path in t ==> t[path].readerCount == 0 && !t[path].writeLocked
  }

  function LockRead(t: Table, path: string): Table
  {
    if path !in t then t[path := LockState(1, false)]
    else t[path := t[path].(readerCount := t[path].readerCount + 1)]
  }

  function LockWrite(t: Table, path: string): Table
  {
    if path !in t then t[path := LockState(0, true)]
    else t[path := t[path].(writeLocked := true)]
  }

  function UnlockRead(t: Table, path: string): Table
  {
    if path !in t then t
    else if t[path].readerCount - 1 == 0 then t - {path}
    else t[path := t[path].(readerCount := t[path].readerCount - 1)]
  }

  function UnlockWrite(t: Table, path: string): Table
  {
    t - {path}
  }

  /* ---------- The guards behind the table ---------- */

  /** The table holds exactly the guards alive: `rs` with multiplicity, and `ws`. */
  ghost predicate Represents(t: Table, rs: multiset<string>, ws: multiset<string>)
  {
    forall p :: RepresentsAt(t, rs, ws, p)
  }

  ghost predicate RepresentsAt(t: Table, rs: multiset<string>, ws: multiset<string>, p: string)
  {
    && (p in t <==> rs[p] + ws[p] > 0)
    && (p in t ==> t[p].readerCount == rs[p] && (t[p].writeLocked <==> ws[p] == 1))
    && ws[p] <= 1
    && (ws[p] == 0 || rs[p] == 0)
  }

  /** Who may lock, in terms of guards; and a table entry never has both counts at zero, so the
      branch of `lock_write` that takes over an idle entry is never used. */
  lemma AdmissionIsExact(t: Table, rs: multiset<string>, ws: multiset<string>, p: string)
    requires Represents(t, rs, ws)
    ensures CanRead(t, p) <==> p !in ws
    ensures CanWrite(t, p) <==> p !in ws && p !in rs
    ensures CanWrite(t, p) <==> p !in t
  {
    assert RepresentsAt(t, rs, ws, p);
  }

  lemma ReadLocked(t: Table, rs: multiset<string>, ws: multiset<string>, p: string)
    requires Represents(t, rs, ws) && CanRead(t, p)
    ensures Represents(LockRead(t, p), rs + multiset{p}, ws)
  {
    forall q ensures RepresentsAt(LockRead(t, p), rs + multiset{p}, ws, q) {
      assert RepresentsAt(t, rs, ws, q);
    }
  }

  lemma WriteLocked(t: Table, rs: multiset<string>, ws: multiset<string>, p: string)
    requires Represents(t, rs, ws) && CanWrite(t, p)
    ensures Represents(LockWrite(t, p), rs, ws + multiset{p})
  {
    forall q ensures RepresentsAt(LockWrite(t, p), rs, ws + multiset{p}, q) {
      assert RepresentsAt(t, rs, ws, q);
    }
  }

  /** Dropping a guard that is alive finds its entry: no warning is logged. */
  lemma ReadUnlocked(t: Table, rs: multiset<string>, ws: multiset<string>, p: string)
    requires Represents(t, rs, ws) && p in rs
    ensures p in t
    ensures Represents(UnlockRead(t, p), rs - multiset{p}, ws)
  {
    forall q ensures RepresentsAt(UnlockRead(t, p), rs - multiset{p}, ws, q) {
      assert RepresentsAt(t, rs, ws, q);
    }
    assert RepresentsAt(t, rs, ws, p);
  }

  lemma WriteUnlocked(t: Table, rs: multiset<string>, ws: multiset<string>, p: string)
    requires Represents(t, rs, ws) && p in ws
    ensures p in t
    ensures Represents(UnlockWrite(t, p), rs, ws - multiset{p})
  {
    forall q ensures RepresentsAt(UnlockWrite(t, p), rs, ws - multiset{p}, q) {
      assert RepresentsAt(t, rs, ws, q);
    }
    assert RepresentsAt(t, rs, ws, p);
  }

  /** Dropping a lock that nobody holds changes nothing. */
  lemma NobodyHolds(t: Table, rs: multiset<string>, ws: multiset<string>, p: string)
    requires Represents(t, rs, ws) && p !in rs && p !in ws
    ensures p !in t && UnlockRead(t, p) == t && UnlockWrite(t, p) == t
    ensures rs - multiset{p} == rs && ws - multiset{p} == ws
  {
    assert RepresentsAt(t, rs, ws, p);
  }

  /** Locking never lets anyone else in: what was refused stays refused. */
  lemma LockingOnlyRefuses(t: Table, p: string, q: string)
    ensures CanRead(t, p) && !CanRead(t, q) ==> !CanRead(LockRead(t, p), q)
    ensures CanRead(t, p) && !CanWrite(t, q) && (q in t ==> t[q].readerCount >= 0) ==> !CanWrite(LockRead(t, p), q)
    ensures CanWrite(t, p) && !CanRead(t, q) ==> !CanRead(LockWrite(t, p), q)
    ensures CanWrite(t, p) && !CanWrite(t, q) ==> !CanWrite(LockWrite(t, p), q)
  {
  }

  /* ---------- The lock table in place ---------- */

  class FileLocker {
    var locks: Table
    ghost var readers: multiset<string>
    ghost var writers: multiset<string>

    /** The table holds exactly the guards alive. */
    ghost predicate Valid()
      reads this
    {
      Represents(locks, readers, writers)
    }

    constructor ()
      ensures Valid() && locks == map[] && readers == multiset{} && writers == multiset{}
    {
      locks, readers, writers := map[], multiset{}, multiset{};
    }

    /** One pass of the loop in `lock_read`; a false result means `cv_.wait`. */
    method TryLockRead(path: string) returns (acquired: bool)
      modifies this
      ensures writers == old(writers)
      ensures readers == if acquired then old(readers) + multiset{path} else old(readers)
      ensures old(Valid()) ==> Valid() && (acquired <==> path !in writers)
      ensures locks == if acquired then LockRead(old(locks), path) else old(locks)
    {
      ghost var t, rs := locks, readers;
      acquired := true;
      if path !in locks {
        locks, readers := locks[path := LockState(1, false)], readers + multiset{path};
      } else if !locks[path].writeLocked {
        locks := locks[path := locks[path].(readerCount := locks[path].readerCount + 1)];
        readers := readers + multiset{path};
      } else {
        acquired := false;
      }
      if Represents(t, rs, writers) {
        AdmissionIsExact(t, rs, writers, path);
        if acquired {
          ReadLocked(t, rs, writers, path);
        }
      }
    }

    /** One pass of the loop in `lock_write`; a false result means `cv_.wait`. */
    method TryLockWrite(path: string) returns (acquired: bool)
      modifies this
      ensures readers == old(readers)
      ensures writers == if acquired then old(writers) + multiset{path} else old(writers)
      ensures old(Valid()) ==> Valid() && (acquired <==> path !in readers && path !in old(writers))
      ensures locks == if acquired then LockWrite(old(locks), path) else old(locks)
    {
      ghost var t, ws := locks, writers;
      acquired := true;
      if path !in locks {
        locks, writers := locks[path := LockState(0, true)], writers + multiset{path};
      } else if locks[path].readerCount == 0 && !locks[path].writeLocked {
        locks := locks[path := locks[path].(writeLocked := true)];
        writers := writers + multiset{path};
      } else {
        acquired := false;
      }
      if Represents(t, readers, ws) {
        AdmissionIsExact(t, readers, ws, path);
        if acquired {
          WriteLocked(t, readers, ws, path);
        }
      }
    }

    /** `unlock_read` by the holder of a read guard, or by nobody; a false result means the
        "non-existent lock" warning and no notification. */
    method ReleaseRead(path: string) returns (notified: bool)
      modifies this
      ensures readers == old(readers) - multiset{path} && writers == old(writers)
      ensures old(Valid()) && path in old(readers) ==> Valid() && notified
      ensures old(Valid()) && path !in old(readers) && path !in writers ==> Valid() && !notified
      ensures locks == UnlockRead(old(locks), path)
    {
      ghost var t, rs := locks, readers;
      readers := readers - multiset{path};
      notified := path in locks;
      if notified {
        locks := locks[path := locks[path].(readerCount := locks[path].readerCount - 1)];
        if locks[path].readerCount == 0 {
          locks := locks - {path};
        }
      }
      assert locks == UnlockRead(t, path);
      if Represents(t, rs, writers) {
        if path in rs {
          ReadUnlocked(t, rs, writers, path);
        } else if path !in writers {
          NobodyHolds(t, rs, writers, path);
        }
      }
    }

    /** `unlock_write` by the holder of the write guard, or by nobody. */
    method ReleaseWrite(path: string) returns (notified: bool)
      modifies this
      ensures writers == old(writers) - multiset{path} && readers == old(readers)
      ensures old(Valid()) && path in old(writers) ==> Valid() && notified
      ensures old(Valid()) && path !in old(writers) && path !in readers ==> Valid() && !notified
      ensures locks == UnlockWrite(old(locks), path)
    {
      ghost var t, ws := locks, writers;
      writers := writers - multiset{path};
      notified := path in locks;
      locks := locks - {path};
      if Represents(t, readers, ws) {
        if path in ws {
          WriteUnlocked(t, readers, ws, path);
        } else if path !in readers {
          NobodyHolds(t, readers, ws, path);
        }
      }
    }
  }
}
