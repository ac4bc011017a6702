/** Reference counts of user structures over runs of the tasks that share them. */
module UidRuns {
  import opened Options
  import UidHash

  datatype User = User(uid: UidHash.Uid, count: int)

  // ----- hash operations -----

  function Inc(users: map<nat, User>, id: nat): map<nat, User>
    requires id in users
  {
    users[id := users[id].(count := users[id].count + 1)]
  }

  /** free_uid: the count falls by one, and at zero the structure is unhashed and freed. */
  function Dec(users: map<nat, User>, id: nat): map<nat, User>
    requires id in users
  {
    if users[id].count == 1 then users - {id} else users[id := users[id].(count := users[id].count - 1)]
  }

  function Release(users: map<nat, User>, user: Option<nat>): map<nat, User> {
    if user.Some? && user.value in users then Dec(users, user.value) else users
  }

  /** What a task is in the middle of; the copy made by do_fork carries a user pointer of its own.
      alloc_uid may sleep between its two halves and do_fork between copying the task and counting
      the copy, so both are split. */
  datatype Phase = Running | Allocating | Copied(copy: Option<nat>) | Counted(copy: Option<nat>)

  datatype Task = Task(uid: UidHash.Uid, user: Option<nat>, phase: Phase)

  /** The live structures, the tasks, and the next structure number. A structure is known by a number
      of its own: a freed one never comes back under the same number, so a stale pointer would show. */
  datatype Sys = Sys(users: map<nat, User>, tasks: map<nat, Task>, next: nat)

  /** uid_hash_find without its increment: the number of the uid's structure. */
  ghost predicate Finds(s: Sys, uid: UidHash.Uid, id: nat) {
    id in s.users && s.users[id].uid == uid
  }

  ghost predicate Absent(s: Sys, uid: UidHash.Uid) {
    forall id :: id in s.users ==> s.users[id].uid != uid
  }

  // ----- steps of task t -----

  datatype Action =
    | FreeUser
    | ChangeUid(uid: UidHash.Uid)
    | FindUser(id: nat)
    | MissUser
    | AllocFails
    | FindAgain(id: nat)
    | InsertUser
    | ForkCopy
    | ForkRefused
    | ForkCount
    | ForkFails
    | ForkDone(child: nat)
    | Exit

  /** When the step may be taken. A task gives up its user before it changes its uid or goes away;
      those callers are outside this file. */
  ghost predicate Enabled(s: Sys, t: nat, a: Action) {
    t in s.tasks
    && var p := s.tasks[t];
       match a
       case FreeUser => p.phase == Running
       case ChangeUid(_) => p.phase == Running && p.user == None
       case FindUser(id) => p.phase == Running && p.user == None && Finds(s, p.uid, id)
       case MissUser => p.phase == Running && p.user == None && Absent(s, p.uid)
       case AllocFails => p.phase == Allocating
       case FindAgain(id) => p.phase == Allocating && Finds(s, p.uid, id)
       case InsertUser => p.phase == Allocating && Absent(s, p.uid)
       case ForkCopy => p.phase == Running
       case ForkRefused => p.phase.Copied? && p.phase.copy.Some?
       case ForkCount => p.phase.Copied?
       case ForkFails => p.phase.Counted?
       case ForkDone(child) => p.phase.Counted? && child !in s.tasks
       case Exit => p.phase == Running && p.user == None
  }

  function Next(s: Sys, t: nat, a: Action): Sys
    requires t in s.tasks
  {
    var p := s.tasks[t];
    match a
    case FreeUser => s.(users := Release(s.users, p.user), tasks := s.tasks[t := p.(user := None)])
    case ChangeUid(uid) => s.(tasks := s.tasks[t := p.(uid := uid)])
    case FindUser(id) =>
      if id in s.users then s.(users := Inc(s.users, id), tasks := s.tasks[t := p.(user := Some(id))]) else s
    case MissUser => s.(tasks := s.tasks[t := p.(phase := Allocating)])
    case AllocFails => s.(tasks := s.tasks[t := p.(phase := Running)])
    case FindAgain(id) =>
      if id in s.users
      then s.(users := Inc(s.users, id), tasks := s.tasks[t := p.(user := Some(id), phase := Running)]) else s
    case InsertUser =>
      Sys(s.users[s.next := User(p.uid, 1)], s.tasks[t := p.(user := Some(s.next), phase := Running)], s.next + 1)
    case ForkCopy => s.(tasks := s.tasks[t := p.(phase := Copied(p.user))])
    case ForkRefused => s.(tasks := s.tasks[t := p.(phase := Running)])
    case ForkCount =>
      if p.phase.Copied? then
        var users := if p.phase.copy.Some? && p.phase.copy.value in s.users then Inc(s.users, p.phase.copy.value) else s.users;
        s.(users := users, tasks := s.tasks[t := p.(phase := Counted(p.phase.copy))])
      else s
    case ForkFails =>
      if p.phase.Counted? then
        s.(users := Release(s.users, p.phase.copy), tasks := s.tasks[t := p.(phase := Running)])
      else s
    case ForkDone(child) =>
      if p.phase.Counted? then
        s.(tasks := s.tasks[t := p.(phase := Running)][child := Task(p.uid, p.phase.copy, Running)])
      else s
    case Exit => s.(tasks := s.tasks - {t})
  }

  const START := Sys(map[], map[0 := Task(0, None, Running)], 0)

  ghost predicate IsRun(ss: seq<Sys>, ts: seq<nat>, acts: seq<Action>) {
    && |ss| == |acts| + 1 && |ts| == |acts| && ss[0] == START
    && forall i :: 0 <= i < |acts| ==> Enabled(ss[i], ts[i], acts[i]) && ss[i + 1] == Next(ss[i], ts[i], acts[i])
  }

  // ----- the invariant -----

  /** The tasks that refer to structure id, and those whose counted copy does. */
  ghost function Holders(s: Sys, id: nat): set<nat> {
    set t | t in s.tasks && s.tasks[t].user == Some(id)
  }

  ghost function Copiers(s: Sys, id: nat): set<nat> {
    set t | t in s.tasks && s.tasks[t].phase == Counted(Some(id))
  }

  ghost function References(s: Sys, id: nat): nat {
    |Holders(s, id)| + |Copiers(s, id)|
  }

  /** A task's pointer, and that of its copy, leads to the live structure of its uid. */
  ghost predicate TaskOk(s: Sys, t: nat)
    requires t in s.tasks
  {
    var p := s.tasks[t];
    && (p.user.Some? ==> Finds(s, p.uid, p.user.value))
    && (p.phase == Allocating ==> p.user == None)
    && (p.phase.Copied? || p.phase.Counted? ==> p.phase.copy == p.user)
  }

  ghost predicate UserOk(s: Sys, id: nat)
    requires id in s.users
  {
    id < s.next && s.users[id].count == References(s, id) >= 1
  }

  ghost predicate Inv(s: Sys) {
    && (forall i, j :: i in s.users && j in s.users && i != j ==> s.users[i].uid != s.users[j].uid)
    && (forall t {:trigger TaskOk(s, t)} :: t in s.tasks ==> TaskOk(s, t))
    && (forall id {:trigger UserOk(s, id)} :: id in s.users ==> UserOk(s, id))
  }

  /** How one task's step changes the references to id. */
  lemma ReferencesAfter(s: Sys, r: Sys, t: nat, id: nat)
    requires t in s.tasks && t in r.tasks && r.tasks == s.tasks[t := r.tasks[t]]
    ensures References(r, id) == References(s, id)
              - (if s.tasks[t].user == Some(id) then 1 else 0) + (if r.tasks[t].user == Some(id) then 1 else 0)
              - (if s.tasks[t].phase == Counted(Some(id)) then 1 else 0)
              + (if r.tasks[t].phase == Counted(Some(id)) then 1 else 0)
  {
    HoldersAfter(s, r, t, id);
    CopiersAfter(s, r, t, id);
  }

  lemma HoldersAfter(s: Sys, r: Sys, t: nat, id: nat)
    requires t in s.tasks && t in r.tasks && r.tasks == s.tasks[t := r.tasks[t]]
    ensures |Holders(r, id)| == |Holders(s, id)|
              - (if s.tasks[t].user == Some(id) then 1 else 0) + (if r.tasks[t].user == Some(id) then 1 else 0)
  {
    var rest := Holders(s, id) - {t};
    assert Holders(s, id) == if s.tasks[t].user == Some(id) then rest + {t} else rest;
    assert Holders(r, id) == if r.tasks[t].user == Some(id) then rest + {t} else rest;
  }

  lemma CopiersAfter(s: Sys, r: Sys, t: nat, id: nat)
    requires t in s.tasks && t in r.tasks && r.tasks == s.tasks[t := r.tasks[t]]
    ensures |Copiers(r, id)| == |Copiers(s, id)|
              - (if s.tasks[t].phase == Counted(Some(id)) then 1 else 0)
              + (if r.tasks[t].phase == Counted(Some(id)) then 1 else 0)
  {
    var rest := Copiers(s, id) - {t};
    assert Copiers(s, id) == if s.tasks[t].phase == Counted(Some(id)) then rest + {t} else rest;
    assert Copiers(r, id) == if r.tasks[t].phase == Counted(Some(id)) then rest + {t} else rest;
  }

  /** The references to id that are t's. */
  ghost function Own(s: Sys, t: nat, id: nat): nat
    requires t in s.tasks
  {
    (if s.tasks[t].user == Some(id) then 1 else 0) + (if s.tasks[t].phase == Counted(Some(id)) then 1 else 0)
  }

  lemma OwnAreReferences(s: Sys, t: nat, id: nat)
    requires t in s.tasks
    ensures References(s, id) >= Own(s, t, id)
  {
    var h, k := Holders(s, id), Copiers(s, id);
    if s.tasks[t].user == Some(id) { assert |h| == |h - {t}| + 1; }
    if s.tasks[t].phase == Counted(Some(id)) { assert |k| == |k - {t}| + 1; }
  }

  /** The tasks other than t keep what they have. */
  lemma OthersKeep(s: Sys, r: Sys, t: nat)
    requires Inv(s) && t in s.tasks && t in r.tasks && r.tasks == s.tasks[t := r.tasks[t]]
    requires forall id :: id in s.users && References(s, id) > Own(s, t, id) ==>
               id in r.users && r.users[id].uid == s.users[id].uid
    ensures forall q {:trigger TaskOk(r, q)} :: q in r.tasks && q != t ==> TaskOk(r, q)
  {
    forall q | q in r.tasks && q != t
      ensures TaskOk(r, q)
    {
      assert TaskOk(s, q) && TaskOk(s, t);
      if s.tasks[q].user.Some? { TwoReferences(s, t, q, s.tasks[q].user.value); }
    }
  }

  /** A structure that two tasks refer to is not let go of by one of them. */
  lemma TwoReferences(s: Sys, t: nat, q: nat, id: nat)
    requires t in s.tasks && q in s.tasks && t != q && s.tasks[q].user == Some(id)
    ensures References(s, id) > Own(s, t, id)
  {
    var h, k := Holders(s, id), Copiers(s, id);
    assert q in h;
    if s.tasks[t].user == Some(id) {
      assert {q, t} <= h;
      assert |h| == |h - {q, t}| + 2;
    } else {
      assert |h| == |h - {q}| + 1;
    }
    if s.tasks[t].phase == Counted(Some(id)) { assert |k| == |k - {t}| + 1; }
  }

  lemma CountsOk(s: Sys, r: Sys, t: nat)
    requires Inv(s) && t in s.tasks && t in r.tasks && r.tasks == s.tasks[t := r.tasks[t]] && s.next <= r.next
    requires forall id :: id in r.users ==>
               && id in s.users
               && r.users[id].count >= 1
               && r.users[id].count - s.users[id].count ==
                    (if r.tasks[t].user == Some(id) then 1 else 0) - (if s.tasks[t].user == Some(id) then 1 else 0)
                    + (if r.tasks[t].phase == Counted(Some(id)) then 1 else 0)
                    - (if s.tasks[t].phase == Counted(Some(id)) then 1 else 0)
    ensures forall id {:trigger UserOk(r, id)} :: id in r.users ==> UserOk(r, id)
  {
    forall id | id in r.users
      ensures UserOk(r, id)
    {
      assert UserOk(s, id);
      ReferencesAfter(s, r, t, id);
    }
  }

  lemma ReleaseOk(s: Sys, t: nat, a: Action)
    requires Inv(s) && Enabled(s, t, a) && (a.FreeUser? || a.ForkFails?)
    ensures Inv(Next(s, t, a))
  {
    var r, p := Next(s, t, a), s.tasks[t];
    assert TaskOk(s, t);
    if p.user.Some? {
      assert UserOk(s, p.user.value);
      OwnAreReferences(s, t, p.user.value);
    }
    forall id | id in s.users
      ensures UserOk(s, id)
    {
    }
    OthersKeep(s, r, t);
    CountsOk(s, r, t);
  }

  lemma TakeOk(s: Sys, t: nat, a: Action)
    requires Inv(s) && Enabled(s, t, a) && (a.FindUser? || a.FindAgain?)
    ensures Inv(Next(s, t, a))
  {
    var r := Next(s, t, a);
    assert TaskOk(s, t);
    forall id | id in s.users
      ensures UserOk(s, id)
    {
    }
    OthersKeep(s, r, t);
    CountsOk(s, r, t);
  }

  lemma CountCopyOk(s: Sys, t: nat)
    requires Inv(s) && Enabled(s, t, ForkCount)
    ensures Inv(Next(s, t, ForkCount))
  {
    var r := Next(s, t, ForkCount);
    assert TaskOk(s, t);
    forall id | id in s.users
      ensures UserOk(s, id)
    {
    }
    OthersKeep(s, r, t);
    CountsOk(s, r, t);
  }

  lemma QuietOk(s: Sys, t: nat, a: Action)
    requires Inv(s) && Enabled(s, t, a)
    requires a.ChangeUid? || a.MissUser? || a.AllocFails? || a.ForkCopy? || a.ForkRefused?
    ensures Inv(Next(s, t, a))
  {
    var r := Next(s, t, a);
    assert TaskOk(s, t);
    forall id | id in s.users
      ensures UserOk(s, id)
    {
    }
    OthersKeep(s, r, t);
    CountsOk(s, r, t);
  }

  lemma InsertOk(s: Sys, t: nat)
    requires Inv(s) && Enabled(s, t, InsertUser)
    ensures Inv(Next(s, t, InsertUser))
  {
    var r, n := Next(s, t, InsertUser), s.next;
    assert TaskOk(s, t);
    assert n in s.users ==> UserOk(s, n);
    OthersKeep(s, r, t);
    forall id | id in r.users
      ensures UserOk(r, id)
    {
      ReferencesAfter(s, r, t, id);
      if id == n {
        NobodyHolds(s, n);
      } else {
        assert UserOk(s, id);
      }
    }
  }

  /** Nobody refers to a number not given out yet. */
  lemma NobodyHolds(s: Sys, id: nat)
    requires Inv(s) && id !in s.users
    ensures References(s, id) == 0
  {
    forall t | t in s.tasks
      ensures s.tasks[t].user != Some(id) && s.tasks[t].phase != Counted(Some(id))
    {
      assert TaskOk(s, t);
    }
    assert Holders(s, id) == {} && Copiers(s, id) == {};
  }

  lemma ChildHolds(s: Sys, t: nat, child: nat, id: nat)
    requires t in s.tasks && child !in s.tasks && s.tasks[t].phase.Counted?
    ensures var gain := if s.tasks[t].phase.copy == Some(id) then 1 else 0;
            |Holders(Next(s, t, ForkDone(child)), id)| == |Holders(s, id)| + gain
  {
    var r := Next(s, t, ForkDone(child));
    assert child !in Holders(s, id);
    assert Holders(r, id) == Holders(s, id) + if s.tasks[t].phase.copy == Some(id) then {child} else {};
  }

  lemma CopyIsGone(s: Sys, t: nat, child: nat, id: nat)
    requires t in s.tasks && child !in s.tasks && s.tasks[t].phase.Counted?
    ensures var loss := if s.tasks[t].phase.copy == Some(id) then 1 else 0;
            |Copiers(Next(s, t, ForkDone(child)), id)| == |Copiers(s, id)| - loss
  {
    var r := Next(s, t, ForkDone(child));
    assert s.tasks[t].phase.copy == Some(id) ==> t in Copiers(s, id);
    assert Copiers(r, id) == Copiers(s, id) - if s.tasks[t].phase.copy == Some(id) then {t} else {};
  }

  /** The copy's reference passes from the fork to the child. */
  lemma CopyBecomesChild(s: Sys, t: nat, child: nat, id: nat)
    requires Enabled(s, t, ForkDone(child))
    ensures References(Next(s, t, ForkDone(child)), id) == References(s, id)
  {
    ChildHolds(s, t, child, id);
    CopyIsGone(s, t, child, id);
  }

  lemma ForkDoneOk(s: Sys, t: nat, child: nat)
    requires Inv(s) && Enabled(s, t, ForkDone(child))
    ensures Inv(Next(s, t, ForkDone(child)))
  {
    var r := Next(s, t, ForkDone(child));
    assert TaskOk(s, t);
    forall q | q in r.tasks
      ensures TaskOk(r, q)
    {
      if q != child { assert TaskOk(s, q); }
    }
    forall id | id in r.users
      ensures UserOk(r, id)
    {
      assert UserOk(s, id);
      CopyBecomesChild(s, t, child, id);
    }
  }

  lemma ExitOk(s: Sys, t: nat)
    requires Inv(s) && Enabled(s, t, Exit)
    ensures Inv(Next(s, t, Exit))
  {
    var r := Next(s, t, Exit);
    forall q | q in r.tasks
      ensures TaskOk(r, q)
    {
      assert TaskOk(s, q);
    }
    forall id | id in r.users
      ensures UserOk(r, id)
    {
      assert UserOk(s, id);
      assert Holders(r, id) == Holders(s, id) && Copiers(r, id) == Copiers(s, id);
    }
  }

  lemma StepOk(s: Sys, t: nat, a: Action)
    requires Inv(s) && Enabled(s, t, a)
    ensures Inv(Next(s, t, a))
  {
    match a
    case FreeUser => ReleaseOk(s, t, a);
    case ChangeUid(_) => QuietOk(s, t, a);
    case FindUser(_) => TakeOk(s, t, a);
    case MissUser => QuietOk(s, t, a);
    case AllocFails => QuietOk(s, t, a);
    case FindAgain(_) => TakeOk(s, t, a);
    case InsertUser => InsertOk(s, t);
    case ForkCopy => QuietOk(s, t, a);
    case ForkRefused => QuietOk(s, t, a);
    case ForkCount => CountCopyOk(s, t);
    case ForkFails => ReleaseOk(s, t, a);
    case ForkDone(child) => ForkDoneOk(s, t, child);
    case Exit => ExitOk(s, t);
  }

  /** At every point of every run: at most one structure a uid; its count is the number of tasks and
      counted copies that refer to it and is never zero; and no pointer is stale, not even that of a
      copy do_fork has not counted yet. */
  lemma {:induction false} CountsAreReferences(ss: seq<Sys>, ts: seq<nat>, acts: seq<Action>, n: nat)
    requires IsRun(ss, ts, acts) && n < |ss|
    ensures Inv(ss[n])
    ensures forall id :: id in ss[n].users ==> ss[n].users[id].count == References(ss[n], id) >= 1
    ensures forall i, j :: i in ss[n].users && j in ss[n].users && i != j ==> ss[n].users[i].uid != ss[n].users[j].uid
    ensures forall t :: t in ss[n].tasks ==>
              && (ss[n].tasks[t].user.Some? ==> Finds(ss[n], ss[n].tasks[t].uid, ss[n].tasks[t].user.value))
              && (ss[n].tasks[t].phase.Copied? && ss[n].tasks[t].phase.copy.Some? ==>
                    ss[n].tasks[t].phase.copy.value in ss[n].users)
    decreases n
  {
    if n > 0 {
      CountsAreReferences(ss, ts, acts, n - 1);
      assert Enabled(ss[n - 1], ts[n - 1], acts[n - 1]) && ss[n - 1 + 1] == Next(ss[n - 1], ts[n - 1], acts[n - 1]);
      StepOk(ss[n - 1], ts[n - 1], acts[n - 1]);
    }
    forall id | id in ss[n].users
      ensures ss[n].users[id].count == References(ss[n], id) >= 1
    {
      assert UserOk(ss[n], id);
    }
    forall t | t in ss[n].tasks
      ensures (ss[n].tasks[t].user.Some? ==> Finds(ss[n], ss[n].tasks[t].uid, ss[n].tasks[t].user.value))
      ensures (ss[n].tasks[t].phase.Copied? && ss[n].tasks[t].phase.copy.Some? ==> ss[n].tasks[t].phase.copy.value in ss[n].users)
    {
      assert TaskOk(ss[n], t);
    }
  }
}
