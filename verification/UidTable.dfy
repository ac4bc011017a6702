/** The steps of the runs are the operations of the table: what each of them does to the counts. */
module UidTable {
  import opened Options
  import opened UidHash
  import R = UidRuns

  ghost predicate OnePerUid(users: map<nat, R.User>) {
    forall i, j :: i in users && j in users && i != j ==> users[i].uid != users[j].uid
  }

  ghost predicate HasUser(users: map<nat, R.User>, uid: Uid) {
    exists id :: id in users && users[id].uid == uid
  }

  /** c is what a table that holds these structures counts. */
  ghost predicate Shows(c: map<Uid, int>, users: map<nat, R.User>) {
    && OnePerUid(users)
    && (forall uid :: uid in c ==> HasUser(users, uid))
    && (forall id :: id in users ==> users[id].uid in c && c[users[id].uid] == users[id].count)
  }

  /** The counts are determined by the structures. */
  lemma ShownOnce(c: map<Uid, int>, d: map<Uid, int>, users: map<nat, R.User>)
    requires Shows(c, users) && Shows(d, users)
    ensures c == d
  {
    forall uid
      ensures uid in c <==> uid in d
    {
      if uid in c || uid in d {
        assert HasUser(users, uid);
        var id :| id in users && users[id].uid == uid;
      }
    }
    forall uid | uid in c
      ensures c[uid] == d[uid]
    {
      assert HasUser(users, uid);
      var id :| id in users && users[id].uid == uid;
    }
  }

  lemma IncIsOneMore(c: map<Uid, int>, users: map<nat, R.User>, id: nat)
    requires Shows(c, users) && id in users
    ensures Shows(OneMore(c, users[id].uid), R.Inc(users, id))
  {
    var after := R.Inc(users, id);
    forall uid | uid in OneMore(c, users[id].uid)
      ensures HasUser(after, uid)
    {
      assert HasUser(users, uid);
      var i :| i in users && users[i].uid == uid;
      assert i in after && after[i].uid == uid;
    }
  }

  lemma DecIsOneLess(c: map<Uid, int>, users: map<nat, R.User>, id: nat)
    requires Shows(c, users) && id in users
    ensures Shows(OneLess(c, users[id].uid), R.Dec(users, id))
  {
    var after := R.Dec(users, id);
    forall uid | uid in OneLess(c, users[id].uid)
      ensures HasUser(after, uid)
    {
      assert HasUser(users, uid);
      var i :| i in users && users[i].uid == uid;
      assert i in after && after[i].uid == uid;
    }
  }

  lemma NewIsOneMore(c: map<Uid, int>, users: map<nat, R.User>, id: nat, uid: Uid)
    requires Shows(c, users) && id !in users && !HasUser(users, uid)
    ensures Shows(OneMore(c, uid), users[id := R.User(uid, 1)])
  {
    var after := users[id := R.User(uid, 1)];
    assert id in after && after[id].uid == uid;
    forall v | v in OneMore(c, uid) && v != uid
      ensures HasUser(after, v)
    {
      assert HasUser(users, v);
      var i :| i in users && users[i].uid == v;
      assert i in after && after[i].uid == v;
    }
  }

  /** What a step of a task with this state does to the counts. */
  ghost function TableOp(c: map<Uid, int>, p: R.Task, a: R.Action): map<Uid, int> {
    if a.FindUser? || a.FindAgain? || a.InsertUser? || (a.ForkCount? && p.user.Some?) then OneMore(c, p.uid)
    else if (a.FreeUser? || a.ForkFails?) && p.user.Some? && p.uid in c then OneLess(c, p.uid)
    else c
  }

  /** Each step is the operation of Table that its name says: Find and AddUnlessRaced count one
      reference more for the task's uid, FreeUid one less, and a look-up hits or misses as it does in the
      table. So a table that runs along counts the references at every point of every run. */
  lemma StepIsTableOp(s: R.Sys, t: nat, a: R.Action, c: map<Uid, int>)
    requires R.Inv(s) && R.Enabled(s, t, a) && Shows(c, s.users)
    ensures Shows(TableOp(c, s.tasks[t], a), R.Next(s, t, a).users)
    ensures a.FindUser? || a.FindAgain? ==> s.tasks[t].uid in c
    ensures a.MissUser? || a.InsertUser? ==> s.tasks[t].uid !in c
    ensures (a.FreeUser? || a.ForkFails?) && s.tasks[t].user.Some? ==> s.tasks[t].uid in c
  {
    var p := s.tasks[t];
    assert R.TaskOk(s, t);
    if a.FindUser? || a.FindAgain? {
      IncIsOneMore(c, s.users, a.id);
    } else if a.InsertUser? {
      assert forall id :: id in s.users ==> R.UserOk(s, id);
      NewIsOneMore(c, s.users, s.next, p.uid);
    } else if a.ForkCount? && p.user.Some? {
      IncIsOneMore(c, s.users, p.user.value);
    } else if (a.FreeUser? || a.ForkFails?) && p.user.Some? {
      DecIsOneLess(c, s.users, p.user.value);
    }
  }

  /** A table that starts empty and takes part in every step. */
  ghost function TableAfter(ss: seq<R.Sys>, ts: seq<nat>, acts: seq<R.Action>, n: nat): map<Uid, int>
    requires R.IsRun(ss, ts, acts) && n < |ss|
  {
    if n == 0 then map[]
    else
      var s, t := ss[n - 1], ts[n - 1];
      if t in s.tasks then TableOp(TableAfter(ss, ts, acts, n - 1), s.tasks[t], acts[n - 1]) else map[]
  }

  /** At every point of every run the table holds one count per uid in use, and it is the number of
      tasks and of forks in progress that refer to it. */
  lemma {:induction false} TableCountsReferences(ss: seq<R.Sys>, ts: seq<nat>, acts: seq<R.Action>, n: nat)
    requires R.IsRun(ss, ts, acts) && n < |ss|
    ensures var c := TableAfter(ss, ts, acts, n);
            && Shows(c, ss[n].users)
            && (forall id :: id in ss[n].users ==>
                  ss[n].users[id].uid in c && c[ss[n].users[id].uid] == R.References(ss[n], id))
  {
    R.CountsAreReferences(ss, ts, acts, n);
    if n > 0 {
      TableCountsReferences(ss, ts, acts, n - 1);
      R.CountsAreReferences(ss, ts, acts, n - 1);
      assert R.Enabled(ss[n - 1], ts[n - 1], acts[n - 1]) && ss[n - 1 + 1] == R.Next(ss[n - 1], ts[n - 1], acts[n - 1]);
      StepIsTableOp(ss[n - 1], ts[n - 1], acts[n - 1], TableAfter(ss, ts, acts, n - 1));
    }
  }
}
