/**
  Runs of the engine that are built step by step: a trail keeps the states between the actions.
  The module ends with the applier carrying out one whole command beside readers that wait for no
  lock.
 */
module Trails {
  import opened Basics
  import opened Commands
  import opened DiskModel
  import opened Locks
  import opened Engine

  /** A run with the states it goes through. */
  datatype Trail = Trail(states: seq<State>, actions: seq<Action>)

  predicate Linked(s: State, a: Action, s': State)
  {
    Enabled(s, a) && Do(s, a) == s'
  }

  ghost predicate Leads(t: Trail, s0: State, s: State)
  {
    && |t.states| == |t.actions| + 1 && t.states[0] == s0 && t.states[|t.actions|] == s
    && forall i {:trigger t.actions[i]} :: 0 <= i < |t.actions| ==> Linked(t.states[i], t.actions[i], t.states[i + 1])
  }

  lemma Then(s0: State, t: Trail, s: State, a: Action, s': State) returns (u: Trail)
    requires Leads(t, s0, s) && Linked(s, a, s')
    ensures Leads(u, s0, s')
  {
    u := Trail(t.states + [s'], t.actions + [a]);
  }

  lemma {:induction false} TrailExecutes(t: Trail, s0: State, s: State)
    requires Leads(t, s0, s)
    ensures Execute(s0, t.actions) == Some(s)
    decreases |t.actions|
  {
    if t.actions != [] {
      var n := |t.actions| - 1;
      var before := Trail(t.states[..n + 1], t.actions[..n]);
      assert Linked(t.states[n], t.actions[n], t.states[n + 1]);
      forall i | 0 <= i < n ensures Linked(before.states[i], before.actions[i], before.states[i + 1]) {
        assert Linked(t.states[i], t.actions[i], t.states[i + 1]);
      }
      TrailExecutes(before, s0, t.states[n]);
    }
  }

  /* ---------- Locks of one command ---------- */

  /** The table with the keys write-locked, one after the other. */
  function Locked(table: Table, keys: seq<string>): Table
  {
    if keys == [] then table
    else Locked(table, keys[..|keys| - 1])[keys[|keys| - 1] := LockState(0, true)]
  }

  /** The keys are different from one another and nobody holds them. */
  ghost predicate Free(table: Table, keys: seq<string>)
  {
    && (forall i :: 0 <= i < |keys| ==> keys[i] !in table)
    && (forall i, j :: 0 <= i < j < |keys| ==> keys[i] != keys[j])
  }

  lemma {:induction false} LockedKeys(table: Table, keys: seq<string>, k: nat, p: string)
    requires k <= |keys|
    ensures p in Locked(table, keys[..k]) <==> p in table || exists i :: 0 <= i < k && keys[i] == p
  {
    if k > 0 {
      LockedKeys(table, keys, k - 1, p);
      assert keys[..k][..k - 1] == keys[..k - 1];
    }
  }

  /** The next key is free, and dropping it again gives the table back. */
  lemma NextKey(table: Table, keys: seq<string>, k: nat)
    requires k < |keys| && Free(table, keys)
    ensures keys[k] !in Locked(table, keys[..k])
    ensures LockWrite(Locked(table, keys[..k]), keys[k]) == Locked(table, keys[..k + 1])
    ensures UnlockWrite(Locked(table, keys[..k + 1]), keys[k]) == Locked(table, keys[..k])
  {
    LockedKeys(table, keys, k, keys[k]);
    assert keys[..k + 1][..k] == keys[..k];
  }

  lemma TakeStep(s: State, plan: seq<string>, held: nat, s': State)
    requires Busy(s) && s.pc == Taking(held, Awake) && plan == LockPlan(Current(s)) && held < |plan|
    requires plan[held] !in s.table && s'.table == LockWrite(s.table, plan[held])
    requires s' == s.(table := s'.table, pc := if held + 1 == |plan| then Calling else Taking(held + 1, Awake))
    ensures Linked(s, TryWrite, s')
  {
  }

  lemma {:induction false} TakesAll(s0: State, t: Trail, s: State, table: Table, held: nat) returns (u: Trail)
    requires Leads(t, s0, s) && Busy(s) && s.pc == Taking(held, Awake) && held < |LockPlan(Current(s))|
    requires Free(table, LockPlan(Current(s))) && s.table == Locked(table, LockPlan(Current(s))[..held])
    ensures Leads(u, s0, s.(table := Locked(table, LockPlan(Current(s))), pc := Calling))
    decreases |LockPlan(Current(s))| - held
  {
    var plan := LockPlan(Current(s));
    var last := held + 1 == |plan|;
    var s' := s.(table := Locked(table, plan[..held + 1]), pc := if last then Calling else Taking(held + 1, Awake));
    NextKey(table, plan, held);
    TakeStep(s, plan, held, s');
    u := Then(s0, t, s, TryWrite, s');
    if last {
      assert plan[..held + 1] == plan;
    } else {
      assert LockPlan(Current(s')) == plan;
      u := TakesAll(s0, u, s', table, held + 1);
    }
  }

  lemma DropStep(s: State, plan: seq<string>, held: nat, status: Status, s': State)
    requires Busy(s) && s.pc == Releasing(held + 1, status) && plan == LockPlan(Current(s)) && held < |plan|
    requires RousedReaders(s.readers) == s.readers && s'.table == UnlockWrite(s.table, plan[held])
    requires s' == s.(table := s'.table, pc := Releasing(held, status))
    ensures Linked(s, DropWrite, s')
  {
  }

  lemma CompleteStep(s: State, status: Status)
    requires Busy(s) && s.pc == Releasing(0, status)
    ensures Linked(s, Complete, s.(applied := s.applied + 1, statuses := s.statuses + [status], pc := Fetching))
  {
  }

  lemma {:induction false} DropsAll(s0: State, t: Trail, s: State, table: Table, held: nat, status: Status)
      returns (u: Trail)
    requires Leads(t, s0, s) && Busy(s) && s.pc == Releasing(held, status) && held <= |LockPlan(Current(s))|
    requires Free(table, LockPlan(Current(s))) && s.table == Locked(table, LockPlan(Current(s))[..held])
    requires RousedReaders(s.readers) == s.readers
    ensures Leads(u, s0, s.(table := table, applied := s.applied + 1, statuses := s.statuses + [status],
                            pc := Fetching))
    decreases held
  {
    var plan := LockPlan(Current(s));
    if held == 0 {
      CompleteStep(s, status);
      u := Then(s0, t, s, Complete, s.(applied := s.applied + 1, statuses := s.statuses + [status], pc := Fetching));
    } else {
      var s' := s.(table := Locked(table, plan[..held - 1]), pc := Releasing(held - 1, status));
      NextKey(table, plan, held - 1);
      DropStep(s, plan, held - 1, status, s');
      u := Then(s0, t, s, DropWrite, s');
      assert LockPlan(Current(s')) == plan;
      u := DropsAll(s0, u, s', table, held - 1, status);
    }
  }

  /* ---------- One command ---------- */

  /** The applier can take the next command's locks. */
  ghost predicate Ready(s: State)
  {
    && s.applied < |s.log| && s.pc.Fetching? && Accepts(Current(s))
    && Free(s.table, LockPlan(Current(s)))
  }

  lemma FetchStep(s: State, s': State)
    requires s.applied < |s.log| && s.pc.Fetching?
    requires s' == s.(pc := if LockPlan(Current(s)) == [] then Calling else Taking(0, Awake))
    ensures Linked(s, Fetch, s')
  {
  }

  lemma LocksTaken(s0: State, t: Trail, s: State) returns (u: Trail)
    requires Leads(t, s0, s) && Ready(s)
    ensures Leads(u, s0, s.(table := Locked(s.table, LockPlan(Current(s))), pc := Calling))
  {
    var plan := LockPlan(Current(s));
    var s' := s.(pc := if plan == [] then Calling else Taking(0, Awake));
    FetchStep(s, s');
    u := Then(s0, t, s, Fetch, s');
    assert plan[..0] == [];
    if plan != [] {
      assert LockPlan(Current(s')) == plan;
      u := TakesAll(s0, u, s', s.table, 0);
    }
  }

  lemma IssueStep(s: State, status: Status, s': State)
    requires Busy(s) && s.pc == Calling && Accepts(Current(s)) && !Writes(Current(s).kind)
    requires status == StatusOf(Current(s).kind, DiskErr(s.disk, Current(s)))
    requires s' == s.(disk := DiskCall(s.disk, Current(s)), pc := Releasing(|LockPlan(Current(s))|, status))
    ensures Linked(s, Issue, s')
  {
  }

  /** The state after a command that only makes its system call. */
  function AfterCall(s: State): State
    requires s.applied < |s.log|
  {
    var c := Current(s);
    s.(disk := DiskCall(s.disk, c), applied := s.applied + 1,
       statuses := s.statuses + [StatusOf(c.kind, DiskErr(s.disk, c))], pc := Fetching)
  }

  lemma CommandHappens(s0: State, t: Trail, s: State) returns (u: Trail)
    requires Leads(t, s0, s) && Ready(s) && !Writes(Current(s).kind) && RousedReaders(s.readers) == s.readers
    ensures Leads(u, s0, AfterCall(s))
  {
    var c := Current(s);
    var plan, status := LockPlan(c), StatusOf(c.kind, DiskErr(s.disk, c));
    var s1 := s.(table := Locked(s.table, plan), pc := Calling);
    var s2 := s1.(disk := DiskCall(s.disk, c), pc := Releasing(|plan|, status));
    u := LocksTaken(s0, t, s);
    IssueStep(s1, status, s2);
    u := Then(s0, u, s1, Issue, s2);
    assert plan[..|plan|] == plan;
    u := DropsAll(s0, u, s2, s.table, |plan|, status);
  }

  /** The disk after the system calls of a log. */
  function Calls(d: Disk, log: seq<Command>): Disk
  {
    if log == [] then d else DiskCall(Calls(d, log[..|log| - 1]), log[|log| - 1])
  }

  /** Commands up to position `m` happen one after the other. */
  lemma {:induction false} CommandsHappen(s0: State, t: Trail, s: State, m: nat) returns (u: Trail, s': State)
    requires Leads(t, s0, s) && s.pc.Fetching? && s.applied == 0 && m <= |s.log|
    requires RousedReaders(s.readers) == s.readers
    requires forall k :: 0 <= k < m ==> HappensBeside(s.table, s.log[k])
    ensures Leads(u, s0, s') && s' == s.(disk := Calls(s.disk, s.log[..m]), applied := m, statuses := s'.statuses)
    decreases m
  {
    if m == 0 {
      assert s.log[..0] == [];
      u, s' := t, s;
    } else {
      u, s' := CommandsHappen(s0, t, s, m - 1);
      assert s.log[..m][..m - 1] == s.log[..m - 1];
      assert HappensBeside(s.table, s.log[m - 1]);
      u := CommandHappens(s0, u, s');
      s' := AfterCall(s');
    }
  }

  /** A command without a write whose locks are free. */
  ghost predicate HappensBeside(table: Table, c: Command)
  {
    Accepts(c) && !Writes(c.kind) && Free(table, LockPlan(c))
  }
}
