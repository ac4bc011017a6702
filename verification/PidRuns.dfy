/** The pid allocator over runs of forks, exits and group changes. */
module PidRuns {
  import opened Lists
  import opened PidAlloc

  /** A child between get_pid and SET_LINKS: do_fork takes the pid long before the child appears in
      the task list, and may sleep in between. `parent` is the task that is inside do_fork. `epoch`
      records the round of the counter the pid was taken in; it is history, the kernel does not keep it. */
  datatype InFlight = InFlight(child: Task, parent: nat, epoch: nat)

  /** last_pid, next_safe, the task list, the children in flight, and how often the counter has
      started over at 300. Tasks are told apart by keys, which are never used again. */
  datatype Sys = Sys(last: int, safe: int, tasks: seq<Task>, keys: seq<nat>, flight: seq<InFlight>,
                     epoch: nat, next: nat)

  /** The boot thread, which is not on the task list. */
  const BOOT_KEY := 0

  const BOOT := Sys(0, PID_MAX, [], [], [], 0, 1)

  // ----- steps -----

  /** A task on the list or the boot thread, not inside do_fork already. */
  ghost predicate CanFork(s: Sys, parent: nat) {
    && (parent == BOOT_KEY || parent in s.keys)
    && forall i :: 0 <= i < |s.flight| ==> s.flight[i].parent != parent
  }

  /** The group and session are those of the parent. */
  ghost predicate Inherits(s: Sys, parent: nat, child: Task) {
    if parent == BOOT_KEY then child.pgrp == 0 && child.session == 0
    else exists i {:trigger s.keys[i]} :: 0 <= i < |s.keys| && i < |s.tasks| && s.keys[i] == parent &&
           child.pgrp == s.tasks[i].pgrp && child.session == s.tasks[i].session
  }

  ghost predicate Reserve(s: Sys, t: Sys, parent: nat, child: Task) {
    && CanFork(s, parent)
    && Got(s.tasks, s.last, s.safe, t.last, t.safe)
    && child.pid == t.last
    && Inherits(s, parent, child)
    && t.epoch == (if t.last <= s.last then s.epoch + 1 else s.epoch)
    && t == s.(last := t.last, safe := t.safe, epoch := t.epoch,
               flight := s.flight + [InFlight(child, parent, t.epoch)])
  }

  ghost predicate Link(s: Sys, t: Sys, i: nat) {
    && i < |s.flight|
    && t == s.(tasks := s.tasks + [s.flight[i].child], keys := s.keys + [s.next], next := s.next + 1,
               flight := Without(s.flight, i))
  }

  ghost predicate Abort(s: Sys, t: Sys, i: nat) {
    i < |s.flight| && t == s.(flight := Without(s.flight, i))
  }

  /** A task that is inside do_fork cannot exit. */
  ghost predicate Exit(s: Sys, t: Sys, i: nat) {
    && i < |s.tasks| == |s.keys|
    && (forall j :: 0 <= j < |s.flight| ==> s.flight[j].parent != s.keys[i])
    && t == s.(tasks := Without(s.tasks, i), keys := Without(s.keys, i))
  }

  /** setpgid and setsid: a task's new group and session are ids already in use (its own pid is). */
  ghost predicate Regroup(s: Sys, t: Sys, i: nat, task: Task) {
    && i < |s.tasks|
    && task.pid == s.tasks[i].pid
    && Used(s.tasks, task.pgrp) && Used(s.tasks, task.session)
    && t == s.(tasks := s.tasks[i := task])
  }

  /** Any step the kernel can take. */
  ghost predicate Step(s: Sys, t: Sys) {
    || (exists parent, child :: Reserve(s, t, parent, child))
    || (exists i :: Link(s, t, i))
    || (exists i :: Abort(s, t, i))
    || (exists i :: Exit(s, t, i))
    || (exists i, task :: Regroup(s, t, i, task))
  }

  /** None of the ids of the i-th child in flight lies inside the cached interval. */
  ghost predicate Outside(s: Sys, i: nat) {
    && i < |s.flight|
    && var c := s.flight[i].child;
       !(s.last < c.pid < s.safe) && !(s.last < c.pgrp < s.safe) && !(s.last < c.session < s.safe)
  }

  /** A step that links no child inside the cached interval. */
  ghost predicate GuardedStep(s: Sys, t: Sys) {
    Step(s, t) && forall i :: Link(s, t, i) ==> Outside(s, i)
  }

  /** Linked before the counter comes round again, and while its group and session still exist. */
  ghost predicate InTime(s: Sys, i: nat) {
    && i < |s.flight| && s.flight[i].epoch == s.epoch
    && var c := s.flight[i].child;
       (c.pgrp == 0 || Used(s.tasks, c.pgrp)) && (c.session == 0 || Used(s.tasks, c.session))
  }

  /** A step in which no child is linked late. */
  ghost predicate TimelyStep(s: Sys, t: Sys) {
    || (exists parent, child :: Reserve(s, t, parent, child))
    || (exists i :: Link(s, t, i) && InTime(s, i))
    || (exists i :: Abort(s, t, i))
    || (exists i :: Exit(s, t, i))
    || (exists i, task :: Regroup(s, t, i, task))
  }

  // ----- the invariant -----

  ghost predicate DistinctPids(ts: seq<Task>) {
    forall i, j :: 0 <= i < j < |ts| ==> ts[i].pid != ts[j].pid
  }

  /** A child of this round holds an id no task uses and no later child of this round was given. */
  ghost predicate FlightOk(s: Sys, i: nat)
    requires i < |s.flight|
  {
    var f := s.flight[i];
    && f.epoch <= s.epoch
    && (f.epoch == s.epoch ==>
          && 1 <= f.child.pid <= s.last
          && !Used(s.tasks, f.child.pid)
          && forall j :: i < j < |s.flight| && s.flight[j].epoch == s.epoch ==>
               f.child.pid != s.flight[j].child.pid)
  }

  ghost predicate Inv(s: Sys) {
    && Window(s.tasks, s.last, s.safe)
    && DistinctPids(s.tasks)
    && forall i :: 0 <= i < |s.flight| ==> FlightOk(s, i)
  }

  lemma UsedAfterAppend(ts: seq<Task>, t: Task, id: int)
    ensures Used(ts + [t], id) <==> Used(ts, id) || Uses(t, id)
  {
    var us := ts + [t];
    if Used(ts, id) {
      var i :| 0 <= i < |ts| && Uses(ts[i], id);
      assert us[i] == ts[i];
    }
    assert us[|ts|] == t;
  }

  lemma UsedAfterRemoval(ts: seq<Task>, i: nat, id: int)
    requires i < |ts| && Used(Without(ts, i), id)
    ensures Used(ts, id)
  {
    var us := Without(ts, i);
    var j :| 0 <= j < |us| && Uses(us[j], id);
    assert us[j] == ts[if j < i then j else j + 1];
  }

  lemma UsedAfterUpdate(ts: seq<Task>, i: nat, t: Task, id: int)
    requires i < |ts| && t.pid == ts[i].pid && Used(ts, t.pgrp) && Used(ts, t.session)
    requires Used(ts[i := t], id)
    ensures Used(ts, id)
  {
    var us := ts[i := t];
    var j :| 0 <= j < |us| && Uses(us[j], id);
    if j == i {
      assert Uses(ts[i], ts[i].pid);
    } else {
      assert us[j] == ts[j];
    }
  }

  /** Linking a child keeps the cached interval true exactly when none of its three ids lies
      strictly inside it. */
  lemma LinkKeepsWindowIff(ts: seq<Task>, last: int, safe: int, child: Task)
    requires Window(ts, last, safe)
    ensures Window(ts + [child], last, safe) <==>
            !(last < child.pid < safe) && !(last < child.pgrp < safe) && !(last < child.session < safe)
  {
    assert Uses(child, child.pid) && Uses(child, child.pgrp) && Uses(child, child.session);
    UsedAfterAppend(ts, child, child.pid);
    UsedAfterAppend(ts, child, child.pgrp);
    UsedAfterAppend(ts, child, child.session);
    forall id
      ensures Used(ts + [child], id) <==> Used(ts, id) || Uses(child, id)
    {
      UsedAfterAppend(ts, child, id);
    }
  }

  /** A result of get_pid in the same round lies beyond every earlier one. */
  lemma ReserveKeepsInv(s: Sys, t: Sys, parent: nat, child: Task)
    requires Inv(s) && Reserve(s, t, parent, child)
    ensures Inv(t)
  {
    GotIsFreeIff(s.tasks, s.last, s.safe, t.last, t.safe);
    TrueWindowIsEnough(s.tasks, s.last, s.safe, t.last, t.safe);
    forall i | 0 <= i < |t.flight|
      ensures FlightOk(t, i)
    {
      if i < |s.flight| {
        assert t.flight[i] == s.flight[i] && FlightOk(s, i);
        forall j | i < j < |t.flight| && t.flight[j].epoch == t.epoch && t.flight[i].epoch == t.epoch
          ensures t.flight[i].child.pid != t.flight[j].child.pid
        {
          if j < |s.flight| { assert t.flight[j] == s.flight[j]; }
        }
      }
    }
  }

  lemma LinkKeepsInv(s: Sys, t: Sys, i: nat)
    requires Inv(s) && Link(s, t, i) && InTime(s, i)
    ensures Inv(t)
  {
    var child := s.flight[i].child;
    assert FlightOk(s, i);
    LinkKeepsWindowIff(s.tasks, s.last, s.safe, child);
    forall j | 0 <= j < |s.tasks|
      ensures s.tasks[j].pid != child.pid
    {
      assert Uses(s.tasks[j], s.tasks[j].pid);
    }
    forall j | 0 <= j < |t.flight|
      ensures FlightOk(t, j)
    {
      FlightAfterRemoval(s, t, i, j);
      if t.flight[j].epoch == t.epoch {
        UsedAfterAppend(s.tasks, child, t.flight[j].child.pid);
        StillUnused(s, i, j);
      }
    }
  }

  /** The ids of a timely child other than its pid are in use already, so another child's pid is
      none of them. */
  lemma StillUnused(s: Sys, i: nat, j: nat)
    requires Inv(s) && InTime(s, i) && j < |Without(s.flight, i)|
    requires Without(s.flight, i)[j].epoch == s.epoch
    ensures !Uses(s.flight[i].child, Without(s.flight, i)[j].child.pid)
  {
    var o := if j < i then j else j + 1;
    assert Without(s.flight, i)[j] == s.flight[o];
    assert FlightOk(s, o) && FlightOk(s, i);
  }

  lemma FlightAfterRemoval(s: Sys, t: Sys, i: nat, j: nat)
    requires Inv(s) && i < |s.flight| && t.flight == Without(s.flight, i) && j < |t.flight|
    requires t.last == s.last && t.epoch == s.epoch
    ensures var f := t.flight[j];
            && f.epoch <= t.epoch
            && (f.epoch == t.epoch ==>
                  && 1 <= f.child.pid <= t.last
                  && !Used(s.tasks, f.child.pid)
                  && forall m :: j < m < |t.flight| && t.flight[m].epoch == t.epoch ==>
                       f.child.pid != t.flight[m].child.pid)
  {
    var o := if j < i then j else j + 1;
    assert t.flight[j] == s.flight[o] && FlightOk(s, o);
    forall m | j < m < |t.flight| && t.flight[m].epoch == t.epoch && t.flight[j].epoch == t.epoch
      ensures t.flight[j].child.pid != t.flight[m].child.pid
    {
      assert t.flight[m] == s.flight[if m < i then m else m + 1];
    }
  }

  lemma AbortKeepsInv(s: Sys, t: Sys, i: nat)
    requires Inv(s) && Abort(s, t, i)
    ensures Inv(t)
  {
    forall j | 0 <= j < |t.flight|
      ensures FlightOk(t, j)
    {
      FlightAfterRemoval(s, t, i, j);
    }
  }

  /** Tasks that use fewer ids cannot disturb anything. */
  lemma FewerIdsKeepInv(s: Sys, t: Sys)
    requires Inv(s) && t == s.(tasks := t.tasks, keys := t.keys) && DistinctPids(t.tasks)
    requires forall id :: Used(t.tasks, id) ==> Used(s.tasks, id)
    ensures Inv(t)
  {
    forall i | 0 <= i < |t.flight|
      ensures FlightOk(t, i)
    {
      assert FlightOk(s, i);
    }
  }

  lemma ExitKeepsInv(s: Sys, t: Sys, i: nat)
    requires Inv(s) && Exit(s, t, i)
    ensures Inv(t)
  {
    forall id | Used(t.tasks, id)
      ensures Used(s.tasks, id)
    {
      UsedAfterRemoval(s.tasks, i, id);
    }
    assert forall j :: 0 <= j < |t.tasks| ==> t.tasks[j] == s.tasks[if j < i then j else j + 1];
    FewerIdsKeepInv(s, t);
  }

  lemma RegroupKeepsInv(s: Sys, t: Sys, i: nat, task: Task)
    requires Inv(s) && Regroup(s, t, i, task)
    ensures Inv(t)
  {
    forall id | Used(t.tasks, id)
      ensures Used(s.tasks, id)
    {
      UsedAfterUpdate(s.tasks, i, task, id);
    }
    assert forall j :: 0 <= j < |t.tasks| ==> t.tasks[j].pid == s.tasks[j].pid;
    FewerIdsKeepInv(s, t);
  }

  lemma StepKeepsInv(s: Sys, t: Sys)
    requires Inv(s) && TimelyStep(s, t)
    ensures Inv(t)
  {
    if parent, child :| Reserve(s, t, parent, child) {
      ReserveKeepsInv(s, t, parent, child);
    } else if i :| Link(s, t, i) && InTime(s, i) {
      LinkKeepsInv(s, t, i);
    } else if i :| Abort(s, t, i) {
      AbortKeepsInv(s, t, i);
    } else if i :| Exit(s, t, i) {
      ExitKeepsInv(s, t, i);
    } else {
      var i, task :| Regroup(s, t, i, task);
      RegroupKeepsInv(s, t, i, task);
    }
  }

  // ----- whole runs -----

  ghost predicate IsRun(ss: seq<Sys>) {
    && ss != [] && ss[0] == BOOT
    && forall i :: 0 <= i < |ss| - 1 ==> Step(ss[i], ss[i + 1])
  }

  ghost predicate IsGuardedRun(ss: seq<Sys>) {
    && ss != [] && ss[0] == BOOT
    && forall i :: 0 <= i < |ss| - 1 ==> GuardedStep(ss[i], ss[i + 1])
  }

  ghost predicate IsTimelyRun(ss: seq<Sys>) {
    && ss != [] && ss[0] == BOOT
    && forall i :: 0 <= i < |ss| - 1 ==> TimelyStep(ss[i], ss[i + 1])
  }

  lemma StepKeepsRange(s: Sys, t: Sys)
    requires 0 <= s.last < PID_MAX && s.safe <= PID_MAX && Step(s, t)
    ensures 0 <= t.last < PID_MAX && t.safe <= PID_MAX
  {
    if parent, child :| Reserve(s, t, parent, child) {
      GotIsFreeIff(s.tasks, s.last, s.safe, t.last, t.safe);
    }
  }

  lemma {:induction false} LastStaysInRange(ss: seq<Sys>, n: nat)
    requires IsRun(ss) && n < |ss|
    ensures 0 <= ss[n].last < PID_MAX && ss[n].safe <= PID_MAX
    decreases n
  {
    if n > 0 {
      LastStaysInRange(ss, n - 1);
      assert Step(ss[n - 1], ss[n - 1 + 1]);
      StepKeepsRange(ss[n - 1], ss[n]);
    }
  }

  /** At every point of every run, whatever has been linked late: the id that a fork is given is
      unused if and only if get_pid did not take its fast path onto an id in use. */
  lemma NewIdIsUnusedIff(ss: seq<Sys>, n: nat, t: Sys, parent: nat, child: Task)
    requires IsRun(ss) && n < |ss| && Reserve(ss[n], t, parent, child)
    ensures var s := ss[n];
            !Used(s.tasks, child.pid) <==> !(Fast(s.last, s.safe) && Used(s.tasks, s.last + 1))
  {
    LastStaysInRange(ss, n);
    GotIsFreeIff(ss[n].tasks, ss[n].last, ss[n].safe, t.last, t.safe);
  }

  lemma FewerIdsKeepWindow(ts: seq<Task>, us: seq<Task>, last: int, safe: int)
    requires Window(ts, last, safe) && forall id :: Used(us, id) ==> Used(ts, id)
    ensures Window(us, last, safe)
  {
  }

  /** A step keeps the cached interval true unless it links a child inside it, and then it does not. */
  lemma StepKeepsWindowIff(s: Sys, t: Sys)
    requires Window(s.tasks, s.last, s.safe) && Step(s, t)
    ensures Window(t.tasks, t.last, t.safe) <==> GuardedStep(s, t)
  {
    if i: nat :| Link(s, t, i) {
      LinkKeepsWindowIff(s.tasks, s.last, s.safe, s.flight[i].child);
      forall j: nat | Link(s, t, j)
        ensures s.flight[j].child == s.flight[i].child
      {
        assert t.tasks[|s.tasks|] == s.flight[j].child;
      }
    } else if parent, child :| Reserve(s, t, parent, child) {
      TrueWindowIsEnough(s.tasks, s.last, s.safe, t.last, t.safe);
    } else if i: nat :| Exit(s, t, i) {
      forall id | Used(t.tasks, id)
        ensures Used(s.tasks, id)
      {
        UsedAfterRemoval(s.tasks, i, id);
      }
      FewerIdsKeepWindow(s.tasks, t.tasks, s.last, s.safe);
    } else if i: nat, task :| Regroup(s, t, i, task) {
      forall id | Used(t.tasks, id)
        ensures Used(s.tasks, id)
      {
        UsedAfterUpdate(s.tasks, i, task, id);
      }
      FewerIdsKeepWindow(s.tasks, t.tasks, s.last, s.safe);
    }
  }

  /** While no child is linked inside the cached interval, the interval is true at every point of
      every run, and every fork is given an id that no task uses. */
  lemma {:induction false} GuardedRunsAreSafe(ss: seq<Sys>, n: nat)
    requires IsGuardedRun(ss) && n < |ss|
    ensures Window(ss[n].tasks, ss[n].last, ss[n].safe)
    ensures forall t, parent, child :: Reserve(ss[n], t, parent, child) ==> !Used(ss[n].tasks, child.pid)
    decreases n
  {
    if n > 0 {
      GuardedRunsAreSafe(ss, n - 1);
      assert GuardedStep(ss[n - 1], ss[n - 1 + 1]);
      StepKeepsWindowIff(ss[n - 1], ss[n]);
    } else {
      assert forall id :: !Used([], id);
    }
    forall t, parent, child | Reserve(ss[n], t, parent, child)
      ensures !Used(ss[n].tasks, child.pid)
    {
      TrueWindowIsEnough(ss[n].tasks, ss[n].last, ss[n].safe, t.last, t.safe);
    }
  }

  /** While no child is linked late, at every point of every run: the cached interval holds no id
      in use, live tasks have distinct pids, and whatever get_pid returns next is used by no task
      and held by no child of the same round. */
  lemma {:induction false} TimelyRunsAreSafe(ss: seq<Sys>, n: nat)
    requires IsTimelyRun(ss) && n < |ss|
    ensures Inv(ss[n])
    ensures forall t, parent, child :: Reserve(ss[n], t, parent, child) ==>
              && !Used(ss[n].tasks, child.pid)
              && 1 <= child.pid < PID_MAX
              && forall i :: 0 <= i < |ss[n].flight| && ss[n].flight[i].epoch == t.epoch ==>
                   ss[n].flight[i].child.pid != child.pid
    decreases n
  {
    if n > 0 {
      TimelyRunsAreSafe(ss, n - 1);
      assert TimelyStep(ss[n - 1], ss[n - 1 + 1]);
      StepKeepsInv(ss[n - 1], ss[n]);
    } else {
      assert forall id :: !Used([], id);
    }
    forall t, parent, child | Reserve(ss[n], t, parent, child)
      ensures !Used(ss[n].tasks, child.pid) && 1 <= child.pid < PID_MAX
      ensures forall i :: 0 <= i < |ss[n].flight| && ss[n].flight[i].epoch == t.epoch ==>
                ss[n].flight[i].child.pid != child.pid
    {
      GotIsFreeIff(ss[n].tasks, ss[n].last, ss[n].safe, t.last, t.safe);
      TrueWindowIsEnough(ss[n].tasks, ss[n].last, ss[n].safe, t.last, t.safe);
      forall i | 0 <= i < |ss[n].flight| && ss[n].flight[i].epoch == t.epoch
        ensures ss[n].flight[i].child.pid != child.pid
      {
        assert FlightOk(ss[n], i);
      }
    }
  }

  // ----- distinct pids -----

  /** If the step links a child, no task has its pid. */
  ghost predicate LinksNewPid(s: Sys, t: Sys) {
    forall i: nat, j :: Link(s, t, i) && 0 <= j < |s.tasks| ==> s.tasks[j].pid != s.flight[i].child.pid
  }

  lemma OthersKeepPids(s: Sys, t: Sys)
    requires Step(s, t) && !exists i :: Link(s, t, i)
    requires DistinctPids(s.tasks)
    ensures DistinctPids(t.tasks)
  {
    if i: nat :| Exit(s, t, i) {
      assert forall j :: 0 <= j < |t.tasks| ==> t.tasks[j] == s.tasks[if j < i then j else j + 1];
    } else if i: nat, task :| Regroup(s, t, i, task) {
      assert forall j :: 0 <= j < |t.tasks| ==> t.tasks[j].pid == s.tasks[j].pid;
    }
  }

  /** A step keeps the pids of live tasks distinct unless it links a child whose pid a task has, and
      then it does not. */
  lemma StepKeepsPidsIff(s: Sys, t: Sys)
    requires DistinctPids(s.tasks) && Step(s, t)
    ensures DistinctPids(t.tasks) <==> LinksNewPid(s, t)
  {
    if i: nat :| Link(s, t, i) {
      var n := |s.tasks|;
      assert t.tasks[n] == s.flight[i].child && forall j :: 0 <= j < n ==> t.tasks[j] == s.tasks[j];
      forall k: nat | Link(s, t, k)
        ensures s.flight[k].child == s.flight[i].child
      {
        assert t.tasks[n] == s.flight[k].child;
      }
      if DistinctPids(t.tasks) {
        forall j | 0 <= j < n
          ensures s.tasks[j].pid != s.flight[i].child.pid
        {
          assert t.tasks[j].pid != t.tasks[n].pid;
        }
      }
    } else {
      OthersKeepPids(s, t);
    }
  }

  ghost predicate DistinctAt(ss: seq<Sys>, m: nat) {
    m < |ss| && DistinctPids(ss[m].tasks)
  }

  ghost predicate NewPidAt(ss: seq<Sys>, m: nat) {
    m + 1 < |ss| && LinksNewPid(ss[m], ss[m + 1])
  }

  lemma NextInRun(ss: seq<Sys>, m: nat)
    requires IsRun(ss) && m + 1 < |ss| && DistinctAt(ss, m)
    ensures DistinctAt(ss, m + 1) <==> NewPidAt(ss, m)
  {
    assert Step(ss[m], ss[m + 1]);
    StepKeepsPidsIff(ss[m], ss[m + 1]);
  }

  /** Up to every point of every run the pids of live tasks have been distinct if and only if no child
      has been linked while a task had its pid. */
  lemma {:induction false} PidsStayDistinctIff(ss: seq<Sys>, n: nat)
    requires IsRun(ss) && n < |ss|
    ensures (forall m :: 0 <= m <= n ==> DistinctAt(ss, m)) <==> (forall m :: 0 <= m < n ==> NewPidAt(ss, m))
    decreases n
  {
    if n == 0 {
      assert DistinctPids(ss[0].tasks);
    } else {
      PidsStayDistinctIff(ss, n - 1);
      if DistinctAt(ss, n - 1) { NextInRun(ss, n - 1); }
    }
  }

  // ----- forks that sleep through a whole round -----

  lemma Extend(ss: seq<Sys>, t: Sys)
    requires IsRun(ss) && Step(ss[|ss| - 1], t)
    ensures IsRun(ss + [t])
  {
    var us := ss + [t];
    forall i | 0 <= i < |us| - 1
      ensures Step(us[i], us[i + 1])
    {
      if i < |ss| - 1 { assert Step(ss[i], ss[i + 1]); }
    }
  }

  /** A fork on the fast path. */
  lemma FastFork(ss: seq<Sys>, parent: nat, child: Task) returns (us: seq<Sys>)
    requires IsRun(ss)
    requires var s := ss[|ss| - 1];
             Fast(s.last, s.safe) && child.pid == s.last + 1 && CanFork(s, parent) && Inherits(s, parent, child)
    ensures IsRun(us)
    ensures var s := ss[|ss| - 1];
            us[|us| - 1] == s.(last := s.last + 1, flight := s.flight + [InFlight(child, parent, s.epoch)])
    ensures Reserve(ss[|ss| - 1], us[|us| - 1], parent, child)
  {
    var s := ss[|ss| - 1];
    var t := s.(last := s.last + 1, flight := s.flight + [InFlight(child, parent, s.epoch)]);
    assert Reserve(s, t, parent, child);
    Extend(ss, t);
    us := ss + [t];
  }

  /** The last child in flight is given up. */
  lemma GiveUp(ss: seq<Sys>) returns (us: seq<Sys>)
    requires IsRun(ss) && ss[|ss| - 1].flight != []
    ensures IsRun(us)
    ensures var s := ss[|ss| - 1]; us[|us| - 1] == s.(flight := s.flight[..|s.flight| - 1])
  {
    var s := ss[|ss| - 1];
    var t := s.(flight := s.flight[..|s.flight| - 1]);
    assert Without(s.flight, |s.flight| - 1) == t.flight;
    assert Abort(s, t, |s.flight| - 1);
    Extend(ss, t);
    us := ss + [t];
  }

  /** Forks that fail move the counter on and leave nothing else behind. On the fast path they look
      at no task. */
  lemma {:induction false} FailingForks(ss: seq<Sys>, parent: nat, child: Task, n: nat) returns (us: seq<Sys>)
    requires IsRun(ss)
    requires var s := ss[|ss| - 1];
             s.last + n < s.safe <= PID_MAX && CanFork(s, parent) && Inherits(s, parent, child)
    ensures IsRun(us)
    ensures us[|us| - 1] == ss[|ss| - 1].(last := ss[|ss| - 1].last + n)
    decreases n
  {
    us := ss;
    if n > 0 {
      us := FailingForks(ss, parent, child, n - 1);
      var s := us[|us| - 1];
      us := FastFork(us, parent, child.(pid := s.last + 1));
      us := GiveUp(us);
      assert us[|us| - 1].flight == s.flight;
    }
  }

  /** Once an id in use lies inside the cached interval, it takes no more than forks that fail until
      get_pid returns it: with GuardedRunsAreSafe, the interval has to be true for every next id to be
      free. */
  lemma FalseWindowHandsOutUsedId(ss: seq<Sys>, parent: nat, child: Task, id: int)
      returns (us: seq<Sys>, t: Sys)
    requires IsRun(ss)
    requires var s := ss[|ss| - 1];
             s.last < id < s.safe <= PID_MAX && Used(s.tasks, id) && CanFork(s, parent) && Inherits(s, parent, child)
    ensures IsRun(us) && us[|us| - 1].tasks == ss[|ss| - 1].tasks
    ensures Reserve(us[|us| - 1], t, parent, child.(pid := id)) && Used(us[|us| - 1].tasks, id)
  {
    us := FailingForks(ss, parent, child, id - 1 - ss[|ss| - 1].last);
    var vs := FastFork(us, parent, child.(pid := id));
    t := vs[|vs| - 1];
  }

  /** The child that has been in flight longest is linked. */
  lemma LinkFirst(ss: seq<Sys>) returns (us: seq<Sys>)
    requires IsRun(ss) && ss[|ss| - 1].flight != []
    ensures IsRun(us)
    ensures var s := ss[|ss| - 1];
            us[|us| - 1] == s.(tasks := s.tasks + [s.flight[0].child], keys := s.keys + [s.next],
                               next := s.next + 1, flight := s.flight[1..])
  {
    var s := ss[|ss| - 1];
    var t := s.(tasks := s.tasks + [s.flight[0].child], keys := s.keys + [s.next],
                next := s.next + 1, flight := s.flight[1..]);
    assert Without(s.flight, 0) == s.flight[1..];
    assert Link(s, t, 0);
    Extend(ss, t);
    us := ss + [t];
  }

  function Child(pid: int): Task { Task(pid, 0, 0) }

  const TWO_TASKS := Sys(2, PID_MAX, [Child(1), Child(2)], [1, 2], [], 0, 3)

  /** The boot thread forks, and its child forks. */
  lemma TwoTasks() returns (us: seq<Sys>)
    ensures IsRun(us) && us[|us| - 1] == TWO_TASKS
  {
    us := FastFork([BOOT], BOOT_KEY, Child(1));
    us := LinkFirst(us);
    var s := us[|us| - 1];
    assert s == Sys(1, PID_MAX, [Child(1)], [1], [], 0, 2);
    assert s.keys[0] == 1;
    us := FastFork(us, 1, Child(2));
    us := LinkFirst(us);
  }

  /** The second task's fork gets `pid` and sleeps, while forks of the first one that fail use up the
      rest of the round; the first task's next fork gets 300 again. */
  lemma RoundTheCorner(pid: int) returns (us: seq<Sys>)
    requires 300 <= pid < PID_MAX
    ensures IsRun(us)
    ensures us[|us| - 1] == TWO_TASKS.(last := 300, epoch := 1,
                                       flight := [InFlight(Child(pid), 2, 0), InFlight(Child(300), 1, 1)])
  {
    us := TwoTasks();
    assert TWO_TASKS.keys[0] == 1 && TWO_TASKS.keys[1] == 2;
    us := FailingForks(us, 1, Child(0), pid - 1 - 2);
    us := FastFork(us, 2, Child(pid));
    us := FailingForks(us, 1, Child(0), PID_MAX - 1 - pid);
    var s := us[|us| - 1];
    var t := s.(last := 300, epoch := 1, flight := s.flight + [InFlight(Child(300), 1, 1)]);
    assert forall id :: Used(s.tasks, id) ==> id <= 2;
    assert FirstFree(s.tasks, Succ(s.last), 0, 300);
    assert Reserve(s, t, 1, Child(300));
    Extend(us, t);
    us := us + [t];
  }

  /** A fork that sleeps while the counter goes all the way round meets a second child with its own
      pid, and nothing stops both from being linked. */
  lemma LateChildSharesItsPid() returns (us: seq<Sys>)
    ensures IsRun(us)
    ensures us[|us| - 1].tasks == [Child(1), Child(2), Child(300), Child(300)]
    ensures !DistinctPids(us[|us| - 1].tasks)
  {
    us := RoundTheCorner(300);
    us := LinkFirst(us);
    us := LinkFirst(us);
    var tasks := us[|us| - 1].tasks;
    assert tasks[2].pid == tasks[3].pid;
  }

  /** And get_pid can return the id of a task on the list: the child that slept is linked inside the
      cached interval, and the next fork takes the fast path onto it. */
  lemma GetPidReturnsALivePid() returns (us: seq<Sys>, t: Sys)
    ensures IsRun(us)
    ensures us[|us| - 1].tasks == [Child(1), Child(2), Child(301)]
    ensures Reserve(us[|us| - 1], t, 1, Child(301)) && Used(us[|us| - 1].tasks, 301)
  {
    us := RoundTheCorner(301);
    us := GiveUp(us);
    us := LinkFirst(us);
    var s := us[|us| - 1];
    assert s.tasks[2] == Child(301) && s.keys[0] == 1;
    us, t := FalseWindowHandsOutUsedId(us, 1, Child(0), 301);
  }
}
