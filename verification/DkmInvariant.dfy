/** Every step keeps the protocol's invariant.

    The steps come in three groups. Steps of a task that are about its own request (OneTaskStep) change
    one task and its fields; the other tasks are as before, and so is what is held for them. Tasks that
    come and go (AloneOk) are idle, so nothing is held for them. Steps of the daemon (DaemonStep) leave
    tasks and fields alone and only move what is held from one place to the next; two of them are
    different, because they hand a request out (ScanTakes) or answer one (AnswerOk).

    In each group the parts of the invariant are treated in the same order: what holds of every task,
    what holds of every hand-out that is held somewhere, the queued and the busy requests, the daemon's
    own state, the conservation of hand-outs, and last that no signalled request is forgotten. A wake-up
    can only be lost by a step that makes a request wait which did not wait before, or by one that ends
    the daemon's readiness to look: NoNewWaiting names the two conditions, and every step is checked
    against them. */
module DkmInvariant {
  import opened Options
  import opened Lists
  import opened DkmKernel
  import opened DkmProtocol

  /** Steps of a task that leave hand-outs, answers and places alone. */
  ghost predicate SamePlaces(s: Sys, t: Sys) {
    && t.queue == s.queue && t.busy == s.busy && t.pc == s.pc
    && t.handed == s.handed && t.answered == s.answered && t.asked == s.asked
    && s.next <= t.next && t.k.ikcdPid == s.k.ikcdPid
    && t.flag == s.flag && t.blocked == s.blocked
  }

  /** A task step changes one task and its fields only. */
  ghost predicate OnlyTask(s: Sys, t: Sys, p: nat) {
    && SamePlaces(s, t)
    && p in s.tasks && p in s.k.dkm && p in t.tasks && p in t.k.dkm
    && t.tasks == s.tasks[p := t.tasks[p]]
    && t.k.dkm == s.k.dkm[p := t.k.dkm[p]]
    && t.k.order == s.k.order
  }

  lemma OtherTasksOk(s: Sys, t: Sys, p: nat)
    requires Inv(s) && OnlyTask(s, t, p)
    ensures forall q {:trigger TaskOk(t, q)} :: q in t.tasks && q != p ==> TaskOk(t, q)
  {
    forall q | q in t.tasks && q != p
      ensures TaskOk(t, q)
    {
      assert TaskOk(s, q);
    }
  }

  lemma NoNewWaiting(s: Sys, t: Sys)
    requires NoneForgotten(s)
    requires forall p {:trigger Waiting(t, p)} :: Waiting(t, p) ==> Waiting(s, p)
    requires (exists p :: Waiting(s, p)) && (WillLook(s) || EarlySignal(s)) ==> WillLook(t) || EarlySignal(t)
    ensures NoneForgotten(t)
  {
  }

  /** Requests stay right while the node and file of the tasks they are held for do. */
  lemma RequestsStayOk(s: Sys, t: Sys)
    requires RequestsOk(s, t.queue, t.busy)
    requires forall h {:trigger Held(t)[h]} :: h in Held(t) && h.pid in s.k.dkm ==>
               && h.pid in t.k.dkm
               && t.k.dkm[h.pid].rNode == s.k.dkm[h.pid].rNode
               && t.k.dkm[h.pid].fileName == s.k.dkm[h.pid].fileName
    ensures RequestsOk(t, t.queue, t.busy)
  {
    forall i | 0 <= i < |t.queue|
      ensures RequestOk(t, t.queue[i])
    {
      assert RequestOk(s, t.queue[i]);
      assert Holds(t.queue)[i] in multiset(Holds(t.queue));
      assert t.queue[i].h in Held(t);
    }
    forall i | 0 <= i < |t.busy|
      ensures RequestOk(t, t.busy[i])
    {
      assert RequestOk(s, t.busy[i]);
      assert Holds(t.busy)[i] in multiset(Holds(t.busy));
      assert t.busy[i].h in Held(t);
    }
  }

  /** The places stay in order when the task that moved is not the one a request is held for, or
      keeps waiting for it. */
  lemma PlacesOk(s: Sys, t: Sys, p: nat)
    requires Inv(s) && OnlyTask(s, t, p)
    requires forall h {:trigger HoldOk(t, h)} :: h in Held(s) && h.pid == p ==> HoldOk(t, h)
    requires (t.k.dkm[p].fileName == s.k.dkm[p].fileName && t.k.dkm[p].rNode == s.k.dkm[p].rNode)
             || forall h {:trigger Held(s)[h]} :: h in Held(s) ==> h.pid != p
    ensures forall h {:trigger HoldOk(t, h)} :: h in Held(t) ==> HoldOk(t, h)
    ensures RequestsOk(t, t.queue, t.busy)
    ensures DaemonOk(t)
  {
    forall h | h in Held(t)
      ensures HoldOk(t, h)
    {
      assert HoldOk(s, h);
    }
    RequestsStayOk(s, t);
    DaemonHoldsHeld(s);
  }

  lemma DaemonHoldsHeld(s: Sys)
    ensures match s.pc
            case MapArgs(h) => h in Held(s)
            case MapAsk(h, _) => h in Held(s)
            case MapAnswer(h, _) => h in Held(s)
            case CreatArgs(h) => h in Held(s)
            case CreatQueue(r) => r.h in Held(s)
            case _ => true
  {
  }

  /** No request is held for a task that is not waiting. */
  lemma NothingHeldFor(s: Sys, p: nat)
    requires Inv(s) && p in s.tasks
    requires !Outstanding(s.tasks[p]) || s.tasks[p].pc == Over || s.k.dkm[p].pending == 0
    ensures forall h {:trigger Held(s)[h]} :: h in Held(s) ==> h.pid != p
  {
    forall h | h in Held(s)
      ensures h.pid != p
    {
      assert HoldOk(s, h);
    }
  }

  lemma OneTaskStep(s: Sys, t: Sys, p: nat)
    requires Inv(s) && OnlyTask(s, t, p) && TaskOk(t, p)
    requires t.k.sigPending == s.k.sigPending || t.k.sigPending
    requires forall h {:trigger HoldOk(t, h)} :: h in Held(s) && h.pid == p ==> HoldOk(t, h)
    requires (t.k.dkm[p].fileName == s.k.dkm[p].fileName && t.k.dkm[p].rNode == s.k.dkm[p].rNode)
             || forall h {:trigger Held(s)[h]} :: h in Held(s) ==> h.pid != p
    requires Waiting(t, p) ==> Waiting(s, p) || t.k.sigPending
    ensures Inv(t)
  {
    OtherTasksOk(s, t, p);
    PlacesOk(s, t, p);
    if exists q :: Waiting(t, q) {
      var q :| Waiting(t, q);
      if q != p { assert Waiting(s, q); }
    }
  }

  lemma BeginOk(s: Sys, p: nat, file: string, oNode: string, junk: string)
    requires Inv(s) && Enabled(s, Begin(p, file, oNode, junk))
    ensures Inv(Next(s, Begin(p, file, oNode, junk)))
  {
    assert TaskOk(s, p);
    NothingHeldFor(s, p);
    OneTaskStep(s, Next(s, Begin(p, file, oNode, junk)), p);
  }

  lemma PostOk(s: Sys, p: nat)
    requires Inv(s) && Enabled(s, PostRequest(p))
    ensures Inv(Next(s, PostRequest(p)))
  {
    assert TaskOk(s, p);
    NothingHeldFor(s, p);
    var t := Next(s, PostRequest(p));
    assert s.handed[CurrentHold(t, p)] <= 1;
    OneTaskStep(s, t, p);
  }

  lemma SignalOk(s: Sys, p: nat)
    requires Inv(s) && Enabled(s, Signal(p))
    ensures Inv(Next(s, Signal(p)))
  {
    assert TaskOk(s, p);
    var t := Next(s, Signal(p));
    assert t.k.dkm == s.k.dkm[p := t.k.dkm[p]];
    HeldStaysOk(s, t, p);
    OneTaskStep(s, t, p);
  }

  /** Moving on while keeping the request itself does not disturb its holder. */
  lemma HeldStaysOk(s: Sys, t: Sys, p: nat)
    requires Inv(s) && OnlyTask(s, t, p) && t.k.dkm[p] == s.k.dkm[p]
    requires t.tasks[p].serial == s.tasks[p].serial && t.tasks[p].second == s.tasks[p].second
    requires Outstanding(t.tasks[p]) && (t.tasks[p].pc == Over ==> s.k.dkm[p].pending == 0)
    ensures forall h {:trigger HoldOk(t, h)} :: h in Held(s) && h.pid == p ==> HoldOk(t, h)
  {
    forall h | h in Held(s) && h.pid == p
      ensures HoldOk(t, h)
    {
      assert HoldOk(s, h);
    }
  }

  lemma TestOk(s: Sys, p: nat)
    requires Inv(s) && Enabled(s, Test(p))
    ensures Inv(Next(s, Test(p)))
  {
    assert TaskOk(s, p);
    var t := Next(s, Test(p));
    assert t.k.dkm == s.k.dkm[p := t.k.dkm[p]];
    HeldStaysOk(s, t, p);
    OneTaskStep(s, t, p);
  }

  lemma WakeOk(s: Sys, p: nat)
    requires Inv(s) && Enabled(s, Wake(p))
    ensures Inv(Next(s, Wake(p)))
  {
    assert TaskOk(s, p);
    var t := Next(s, Wake(p));
    assert t.k.dkm == s.k.dkm[p := t.k.dkm[p]];
    HeldStaysOk(s, t, p);
    OneTaskStep(s, t, p);
  }

  /** The task that returns, with its next request or without one. */
  lemma ReturnedTaskOk(s: Sys, p: nat, d: Dkm, u: Task)
    requires AtTask(s, p, Over) && p in s.k.dkm && TaskOk(s, p)
    requires var e, v := s.k.dkm[p], s.tasks[p];
             var again := !v.second && e.rNode != e.oNode;
             && d == e.(req := if again then PROC_CREAT_REQ else DKM_NOP)
             && u == if again then v.(pc := Ready, second := true) else v.(pc := Idle)
    ensures var t := SetTask(s.(k := SetDkm(s.k, p, d)), p, u);
            t == Next(s, Return(p)) && OnlyTask(s, t, p) && TaskOk(t, p) && !Waiting(t, p)
  {
  }

  lemma ReturnOk(s: Sys, p: nat)
    requires Inv(s) && Enabled(s, Return(p))
    ensures Inv(Next(s, Return(p)))
  {
    assert TaskOk(s, p);
    NothingHeldFor(s, p);
    var t := Next(s, Return(p));
    ReturnedTaskOk(s, p, t.k.dkm[p], t.tasks[p]);
    OneTaskStep(s, t, p);
  }

  lemma NewTaskOk(s: Sys, p: nat)
    requires Inv(s) && Enabled(s, NewTask(p))
    ensures Inv(Next(s, NewTask(p)))
  {
    var t := Next(s, NewTask(p));
    NewTaskTasksOk(s, p);
    NewTaskIsAlone(s, p);
    AloneOk(s, t, p);
  }

  lemma NewTaskIsAlone(s: Sys, p: nat)
    requires s.tasks.Keys == s.k.dkm.Keys && Enabled(s, NewTask(p))
    ensures Alone(s, Next(s, NewTask(p)), p)
  {
  }

  lemma NewTaskTasksOk(s: Sys, p: nat)
    requires Inv(s) && Enabled(s, NewTask(p))
    ensures var t := Next(s, NewTask(p)); forall q {:trigger TaskOk(t, q)} :: q in t.tasks ==> TaskOk(t, q)
  {
    var t := Next(s, NewTask(p));
    forall q | q in t.tasks
      ensures TaskOk(t, q)
    {
      if q != p { assert TaskOk(s, q); }
    }
  }

  lemma ExitTaskOk(s: Sys, p: nat)
    requires Inv(s) && Enabled(s, ExitTask(p))
    ensures Inv(Next(s, ExitTask(p)))
  {
    var t := Next(s, ExitTask(p));
    assert TaskOk(s, p);
    forall q | q in t.tasks
      ensures TaskOk(t, q)
    {
      assert TaskOk(s, q);
    }
    AloneOk(s, t, p);
  }

  /** Tasks come and go without touching the others. */
  ghost predicate Alone(s: Sys, t: Sys, p: nat) {
    && SamePlaces(s, t) && t.next == s.next && t.k.sigPending == s.k.sigPending
    && t.tasks.Keys == t.k.dkm.Keys
    && (forall q :: q in t.tasks && q != p ==>
          q in s.tasks && q in s.k.dkm && q in t.k.dkm && t.tasks[q] == s.tasks[q] && t.k.dkm[q] == s.k.dkm[q])
    && (forall q :: q in s.tasks && q != p ==> q in t.tasks)
    && (p in s.tasks ==> s.tasks[p].pc == Idle)
    && (p in t.tasks ==> t.tasks[p].pc == Idle)
  }

  lemma AloneHoldsOk(s: Sys, t: Sys, p: nat)
    requires Inv(s) && Alone(s, t, p)
    ensures Held(t) == Held(s)
    ensures forall h {:trigger Held(s)[h]} :: h in Held(s) ==>
              h.pid != p && h.pid in t.k.dkm && h.pid in s.k.dkm && t.k.dkm[h.pid] == s.k.dkm[h.pid]
    ensures forall h {:trigger HoldOk(t, h)} :: h in Held(t) ==> HoldOk(t, h)
  {
    forall h | h in Held(s)
      ensures HoldOk(t, h) && h.pid != p && h.pid in s.k.dkm && t.k.dkm[h.pid] == s.k.dkm[h.pid]
    {
      assert HoldOk(s, h);
    }
  }

  lemma AloneDaemonOk(s: Sys, t: Sys, p: nat)
    requires DaemonOk(s) && SamePlaces(s, t) && Held(t) == Held(s)
    requires forall h {:trigger Held(s)[h]} :: h in Held(s) ==>
               h.pid != p && h.pid in t.k.dkm && h.pid in s.k.dkm && t.k.dkm[h.pid] == s.k.dkm[h.pid]
    requires RequestsOk(s, s.queue, s.busy)
    ensures DaemonOk(t) && RequestsOk(t, t.queue, t.busy)
  {
    RequestsStayOk(s, t);
    DaemonHoldsHeld(s);
  }

  lemma AloneWaiting(s: Sys, t: Sys, p: nat)
    requires NoneForgotten(s) && Alone(s, t, p)
    ensures NoneForgotten(t)
  {
    NoNewWaiting(s, t);
  }

  lemma AloneOk(s: Sys, t: Sys, p: nat)
    requires Inv(s) && Alone(s, t, p)
    requires forall q {:trigger TaskOk(t, q)} :: q in t.tasks ==> TaskOk(t, q)
    ensures Inv(t)
  {
    AloneHoldsOk(s, t, p);
    AloneDaemonOk(s, t, p);
    AloneWaiting(s, t, p);
  }

  // ----- the daemon -----

  /** Steps that change neither tasks nor their fields, nor what is held for them. */
  ghost predicate DaemonOnly(s: Sys, t: Sys) {
    && t.tasks == s.tasks && t.k.dkm == s.k.dkm && t.k.order == s.k.order && t.k.ikcdPid == s.k.ikcdPid
    && t.next == s.next && t.handed == s.handed && t.answered == s.answered
    && Held(t) == Held(s)
    && forall n {:trigger n in s.asked} :: n in s.asked ==> n in t.asked && t.asked[n] == s.asked[n]
  }

  lemma DaemonStep(s: Sys, t: Sys)
    requires Inv(s) && DaemonOnly(s, t) && DaemonOk(t)
    requires RequestsOk(t, t.queue, t.busy)
    requires (exists p :: Waiting(s, p)) && (WillLook(s) || EarlySignal(s)) ==> WillLook(t) || EarlySignal(t)
    requires Draining(t.pc) ==> t.blocked
    ensures Inv(t)
  {
    forall p | p in t.tasks
      ensures TaskOk(t, p)
    {
      assert TaskOk(s, p);
    }
    forall h | h in Held(t)
      ensures HoldOk(t, h)
    {
      assert HoldOk(s, h);
    }
    NoNewWaiting(s, t);
  }

  lemma SameRequestsOk(s: Sys, t: Sys)
    requires Inv(s) && t.queue == s.queue && t.busy == s.busy && t.k.dkm == s.k.dkm
    ensures RequestsOk(t, t.queue, t.busy)
  {
    assert forall r {:trigger RequestOk(t, r)} :: RequestOk(s, r) ==> RequestOk(t, r);
  }

  /** The signal loop outside the drain. */
  lemma LoopStepOk(s: Sys, a: Action)
    requires Inv(s) && Enabled(s, a)
    requires a.Suspend? || a.Deliver? || a.OtherSignal? || a.TestFlag? || a.Block?
    ensures Inv(Next(s, a))
  {
    var t := Next(s, a);
    SameRequestsOk(s, t);
    LoopStepLooks(s, a);
    DaemonStep(s, t);
  }

  lemma LoopStepLooks(s: Sys, a: Action)
    requires DaemonOk(s) && Enabled(s, a)
    requires a.Suspend? || a.Deliver? || a.OtherSignal? || a.TestFlag? || a.Block?
    requires Draining(s.pc) ==> s.blocked
    ensures var t := Next(s, a);
            && (WillLook(s) || EarlySignal(s) ==> WillLook(t) || EarlySignal(t))
            && (Draining(t.pc) ==> t.blocked)
  {
  }

  lemma NobodyWaits(s: Sys, p: nat)
    requires Inv(s) && FirstWanted(s.k, 0) == None
    ensures !Waiting(s, p)
  {
    FirstWantedFinds(s.k, 0);
    if p in s.tasks {
      assert TaskOk(s, p);
      var i :| 0 <= i < |s.k.order| && s.k.order[i] == p;
      assert !Wanted(s.k, s.k.order[i]);
    }
  }

  lemma ScanOk(s: Sys)
    requires Inv(s) && Enabled(s, Scan)
    ensures Inv(Next(s, Scan))
  {
    FirstWantedFinds(s.k, 0);
    if FirstWanted(s.k, 0) == None {
      forall p
        ensures !Waiting(s, p)
      {
        NobodyWaits(s, p);
      }
      SameRequestsOk(s, Next(s, Scan));
      DaemonStep(s, Next(s, Scan));
    } else {
      ScanTakes(s, FirstWanted(s.k, 0).value);
    }
  }

  /** The state after DKM_GET_REQ has handed out h. */
  ghost predicate Took(s: Sys, t: Sys, h: Hold) {
    && h.pid in s.tasks && h.pid in s.k.dkm && h.pid in t.k.dkm && h == CurrentHold(s, h.pid)
    && t.tasks == s.tasks && t.k.dkm == s.k.dkm[h.pid := t.k.dkm[h.pid]]
    && t.k.dkm[h.pid] == s.k.dkm[h.pid].(state := REQ_IN_GET_REQ)
    && t.k.order == s.k.order && t.k.ikcdPid == s.k.ikcdPid
    && t.queue == s.queue && t.busy == s.busy && t.next == s.next
    && t.answered == s.answered && t.asked == s.asked && t.blocked == s.blocked
    && t.handed == s.handed + multiset{h} && Held(t) == Held(s) + multiset{h}
  }

  lemma ScanTakes(s: Sys, p: nat)
    requires Inv(s) && Enabled(s, Scan) && FirstWanted(s.k, 0) == Some(p) && Wanted(s.k, p)
    ensures Inv(Next(s, Scan))
  {
    ScanIsTaking(s, p);
    TookOk(s, Next(s, Scan), CurrentHold(s, p));
  }

  lemma TookOk(s: Sys, t: Sys, h: Hold)
    requires Inv(s) && Took(s, t, h) && Outstanding(s.tasks[h.pid]) && s.tasks[h.pid].pc != Over
    requires s.k.dkm[h.pid].pending == 1 && s.k.dkm[h.pid].req == h.req
    requires h !in s.handed && h.serial < s.next && DaemonOk(t) && Draining(t.pc) && t.blocked
    ensures Inv(t)
  {
    TookTasksOk(s, t, h);
    TookHoldsOk(s, t, h);
    RequestsStayOk(s, t);
    TookConserves(s, t, h);
  }

  lemma ScanIsTaking(s: Sys, p: nat)
    requires Inv(s) && Enabled(s, Scan) && FirstWanted(s.k, 0) == Some(p) && Wanted(s.k, p)
    ensures p in s.tasks && Outstanding(s.tasks[p]) && s.tasks[p].pc != Over
    ensures var t, h := Next(s, Scan), CurrentHold(s, p);
            && Took(s, t, h) && h !in s.handed && h.serial < s.next && s.k.dkm[p].req == h.req
            && DaemonOk(t) && Draining(t.pc)
  {
    assert p in s.tasks;
    assert TaskOk(s, p);
  }

  lemma TookConserves(s: Sys, t: Sys, h: Hold)
    requires Conserved(s) && Took(s, t, h) && h !in s.handed && h.serial < s.next
    ensures Conserved(t)
  {
    forall g
      ensures t.handed[g] <= 1 && (g in t.handed ==> g.serial < t.next)
    {
      assert s.handed[g] <= 1;
    }
  }

  lemma TookTasksOk(s: Sys, t: Sys, h: Hold)
    requires Inv(s) && Took(s, t, h) && Outstanding(s.tasks[h.pid]) && s.k.dkm[h.pid].pending == 1
    ensures forall q {:trigger TaskOk(t, q)} :: q in t.tasks ==> TaskOk(t, q)
  {
    forall q | q in t.tasks
      ensures TaskOk(t, q)
    {
      assert TaskOk(s, q);
      assert Held(t)[CurrentHold(s, q)] >= Held(s)[CurrentHold(s, q)];
    }
  }

  lemma TookHoldsOk(s: Sys, t: Sys, h: Hold)
    requires Inv(s) && Took(s, t, h) && Outstanding(s.tasks[h.pid]) && s.tasks[h.pid].pc != Over
    requires s.k.dkm[h.pid].pending == 1 && s.k.dkm[h.pid].req == h.req
    ensures forall g {:trigger HoldOk(t, g)} :: g in Held(t) ==> HoldOk(t, g)
  {
    forall g | g in Held(t)
      ensures HoldOk(t, g)
    {
      if g != h {
        assert g in Held(s);
        assert HoldOk(s, g);
      }
    }
  }

  /** A step within the drain that only moves on with the same request. */
  lemma DrainStep(s: Sys, t: Sys)
    requires Inv(s) && t == s.(pc := t.pc) && Draining(s.pc) && Draining(t.pc)
    requires DaemonHolds(t.pc) == DaemonHolds(s.pc) && DaemonOk(t)
    ensures Inv(t)
  {
    SameRequestsOk(s, t);
    DaemonStep(s, t);
  }

  lemma FetchMapOk(s: Sys)
    requires Inv(s) && Enabled(s, FetchMapArgs)
    ensures GetArgs(s.k, s.pc.h.pid, s.pc.h.req).Some?
    ensures Inv(Next(s, FetchMapArgs))
  {
    var h := s.pc.h;
    DaemonHoldsHeld(s);
    assert HoldOk(s, h);
    var t := s.(pc := MapAsk(h, s.k.dkm[h.pid].fileName));
    assert t == Next(s, FetchMapArgs);
    DrainStep(s, t);
  }

  lemma FetchCreatOk(s: Sys)
    requires Inv(s) && Enabled(s, FetchCreatArgs)
    ensures GetArgs(s.k, s.pc.h.pid, s.pc.h.req).Some?
    ensures Inv(Next(s, FetchCreatArgs))
  {
    var h := s.pc.h;
    DaemonHoldsHeld(s);
    assert HoldOk(s, h);
    var r := Request(h, s.k.dkm[h.pid].rNode, s.k.dkm[h.pid].fileName);
    var t := s.(pc := CreatQueue(r));
    assert t == Next(s, FetchCreatArgs);
    assert RequestOk(t, r);
    DrainStep(s, t);
  }

  /** What the node server says is recorded for this request only. */
  lemma AskOk(s: Sys, node: string)
    requires Inv(s) && Enabled(s, AskNode(node))
    ensures Inv(Next(s, AskNode(node)))
  {
    var t := s.(pc := MapAnswer(s.pc.h, node), asked := s.asked[s.pc.h := (s.pc.app, node)]);
    assert t == Next(s, AskNode(node));
    DaemonHoldsHeld(s);
    assert HoldOk(s, s.pc.h);
    AskedOk(s, t);
  }

  lemma AskedOk(s: Sys, t: Sys)
    requires Inv(s) && s.pc.MapAsk? && HoldOk(s, s.pc.h) && s.pc.h.req == MAP_REQ
    requires t.pc.MapAnswer? && t.pc.h == s.pc.h
    requires t == s.(pc := t.pc, asked := s.asked[s.pc.h := (s.pc.app, t.pc.node)])
    ensures Inv(t)
  {
    SameRequestsOk(s, t);
    AskTasksOk(s, t, s.pc.h);
    AskHoldsOk(s, t);
    NoNewWaiting(s, t);
  }

  lemma AskHoldsOk(s: Sys, t: Sys)
    requires Inv(s) && t == s.(pc := t.pc, asked := t.asked) && Held(t) == Held(s)
    ensures forall g {:trigger HoldOk(t, g)} :: g in Held(t) ==> HoldOk(t, g)
  {
    forall g | g in Held(t)
      ensures HoldOk(t, g)
    {
      assert HoldOk(s, g);
    }
  }

  lemma AskTasksOk(s: Sys, t: Sys, h: Hold)
    requires Inv(s) && HoldOk(s, h) && h.req == MAP_REQ && h in t.asked
    requires t == s.(pc := t.pc, asked := s.asked[h := t.asked[h]]) && Held(t) == Held(s)
    ensures forall p {:trigger TaskOk(t, p)} :: p in t.tasks ==> TaskOk(t, p)
  {
    forall p | p in t.tasks
      ensures TaskOk(t, p)
    {
      assert TaskOk(s, p);
    }
  }

  // ----- queue and workers -----

  lemma HoldsOfConcat(a: seq<Request>, b: seq<Request>)
    ensures Holds(a + b) == Holds(a) + Holds(b)
  {
  }

  lemma HoldsWithoutAt(rs: seq<Request>, i: nat)
    requires i < |rs|
    ensures multiset(Holds(rs)) == multiset(Holds(Without(rs, i))) + multiset{rs[i].h}
  {
    assert rs == rs[..i] + [rs[i]] + rs[i + 1..];
    HoldsOfConcat(rs[..i] + [rs[i]], rs[i + 1..]);
    HoldsOfConcat(rs[..i], [rs[i]]);
    HoldsOfConcat(rs[..i], rs[i + 1..]);
    assert Holds([rs[i]]) == [rs[i].h];
  }

  lemma LastAdded(queue: seq<Request>, r: Request)
    ensures multiset(Holds(queue + [r])) == multiset(Holds(queue)) + multiset{r.h}
  {
    HoldsOfConcat(queue, [r]);
    assert Holds([r]) == [r.h];
  }

  lemma EnqueueHeld(s: Sys)
    requires Enabled(s, Enqueue)
    ensures Held(Next(s, Enqueue)) == Held(s)
  {
    var t, r := Next(s, Enqueue), s.pc.r;
    assert t.pc == Scanning && t.queue == s.queue + [r] && t.busy == s.busy;
    assert DaemonHolds(s.pc) == multiset{r.h} && DaemonHolds(t.pc) == multiset{};
    LastAdded(s.queue, r);
    SamePlacesSum(multiset{r.h}, multiset(Holds(s.queue)), multiset(Holds(s.busy)));
  }

  lemma SamePlacesSum<T>(h: multiset<T>, q: multiset<T>, b: multiset<T>)
    ensures multiset{} + (q + h) + b == h + q + b
  {
  }

  lemma EnqueuedRequestsOk(s: Sys)
    requires Enabled(s, Enqueue) && RequestsOk(s, s.queue, s.busy) && DaemonOk(s)
    ensures var t := Next(s, Enqueue); RequestsOk(t, t.queue, t.busy)
  {
    var t := Next(s, Enqueue);
    forall i | 0 <= i < |t.queue|
      ensures RequestOk(t, t.queue[i])
    {
      if i < |s.queue| { assert t.queue[i] == s.queue[i] && RequestOk(s, s.queue[i]); }
    }
    forall i | 0 <= i < |t.busy|
      ensures RequestOk(t, t.busy[i])
    {
      assert RequestOk(s, s.busy[i]);
    }
  }

  lemma EnqueueOk(s: Sys)
    requires Inv(s) && Enabled(s, Enqueue)
    ensures Inv(Next(s, Enqueue))
  {
    EnqueueHeld(s);
    EnqueuedRequestsOk(s);
    DaemonStep(s, Next(s, Enqueue));
  }

  lemma FirstMoves(queue: seq<Request>, busy: seq<Request>)
    requires queue != []
    ensures multiset(Holds(queue[1..])) + multiset(Holds(busy + [queue[0]])) ==
              multiset(Holds(queue)) + multiset(Holds(busy))
  {
    HoldsWithoutAt(queue, 0);
    assert Without(queue, 0) == queue[1..];
    HoldsOfConcat(busy, [queue[0]]);
    assert Holds([queue[0]]) == [queue[0].h];
  }

  lemma DequeueHeld(s: Sys)
    requires Enabled(s, Dequeue)
    ensures Held(Next(s, Dequeue)) == Held(s)
  {
    var t, queue, busy := Next(s, Dequeue), multiset(Holds(s.queue)), multiset(Holds(s.busy));
    assert t.queue == s.queue[1..] && t.busy == s.busy + [s.queue[0]] && t.pc == s.pc;
    FirstMoves(s.queue, s.busy);
    assert Held(t) == DaemonHolds(s.pc) + (queue + busy);
  }

  lemma DequeueOk(s: Sys)
    requires Inv(s) && Enabled(s, Dequeue)
    ensures Inv(Next(s, Dequeue))
  {
    var t := Next(s, Dequeue);
    DequeueHeld(s);
    forall i | 0 <= i < |t.queue|
      ensures RequestOk(t, t.queue[i])
    {
      assert t.queue[i] == s.queue[i + 1] && RequestOk(s, s.queue[i + 1]);
    }
    forall i | 0 <= i < |t.busy|
      ensures RequestOk(t, t.busy[i])
    {
      if i < |s.busy| {
        assert t.busy[i] == s.busy[i] && RequestOk(s, s.busy[i]);
      } else {
        assert t.busy[i] == s.queue[0] && RequestOk(s, s.queue[0]);
      }
    }
    DaemonStep(s, t);
  }

  // ----- answers -----

  /** An answer takes h out of its place and ends the request of its task. */
  ghost predicate Answers(s: Sys, t: Sys, h: Hold) {
    && h.pid in s.k.dkm && h.pid in t.k.dkm
    && t.tasks == WakeAll(s.tasks)
    && t.k.dkm == s.k.dkm[h.pid := t.k.dkm[h.pid]]
    && t.k.order == s.k.order && t.k.ikcdPid == s.k.ikcdPid && t.k.sigPending == s.k.sigPending
    && t.next == s.next && t.handed == s.handed && t.asked == s.asked
    && t.answered == s.answered + multiset{h}
    && Held(s) == Held(t) + multiset{h}
    && var d, e := s.k.dkm[h.pid], t.k.dkm[h.pid];
       && e.pending == 0 && e.req == d.req && e.fileName == d.fileName && e.oNode == d.oNode
       && (if h.req == MAP_REQ then h in s.asked && s.asked[h] == (d.fileName, e.rNode) else e.rNode == d.rNode)
  }

  lemma OnlyOnceHeld(s: Sys, h: Hold)
    requires Inv(s) && h in Held(s)
    ensures Held(s)[h] == 1 && h !in s.answered
  {
    assert s.handed[h] <= 1;
  }

  lemma AnswerTasksOk(s: Sys, t: Sys, h: Hold)
    requires Inv(s) && Answers(s, t, h)
    ensures forall p {:trigger TaskOk(t, p)} :: p in t.tasks ==> TaskOk(t, p)
  {
    assert h in Held(s);
    assert HoldOk(s, h);
    forall p | p in t.tasks
      ensures TaskOk(t, p)
    {
      assert TaskOk(s, p);
      if p != h.pid && Outstanding(s.tasks[p]) {
        assert CurrentHold(s, p) == CurrentHold(t, p) != h;
        assert Held(t)[CurrentHold(s, p)] == Held(s)[CurrentHold(s, p)];
      }
    }
  }

  lemma AnswerHoldsOk(s: Sys, t: Sys, h: Hold)
    requires Inv(s) && Answers(s, t, h)
    ensures forall g {:trigger HoldOk(t, g)} :: g in Held(t) ==> HoldOk(t, g)
    ensures forall g {:trigger Held(t)[g]} :: g in Held(t) ==> g in Held(s) && g.pid != h.pid
  {
    forall g | g in Held(t)
      ensures HoldOk(t, g) && g in Held(s) && g.pid != h.pid
    {
      OtherHoldOk(s, t, h, g);
    }
  }

  lemma OtherHoldOk(s: Sys, t: Sys, h: Hold, g: Hold)
    requires Inv(s) && Answers(s, t, h) && g in Held(t)
    ensures HoldOk(t, g) && g in Held(s) && g.pid != h.pid
  {
    OnlyOnceHeld(s, h);
    assert h in Held(s) && HoldOk(s, h);
    assert g in Held(s) && g != h && HoldOk(s, g);
  }

  lemma AnswerOk(s: Sys, t: Sys, h: Hold)
    requires Inv(s) && Answers(s, t, h) && RequestsOk(s, t.queue, t.busy)
    requires t.pc == s.pc || t.pc == Scanning
    requires t.flag == s.flag && t.blocked == s.blocked && (t.pc == Scanning ==> t.blocked)
    ensures Inv(t)
  {
    AnswerTasksOk(s, t, h);
    AnswerHoldsOk(s, t, h);
    AnsweredRequestsOk(s, t, h);
    AnswerDaemonOk(s, t, h);
    AnswerForgetsNone(s, t, h);
    AnswerConserves(s, t, h);
  }

  lemma AnsweredRequestsOk(s: Sys, t: Sys, h: Hold)
    requires Inv(s) && Answers(s, t, h) && RequestsOk(s, t.queue, t.busy)
    requires forall g {:trigger Held(t)[g]} :: g in Held(t) ==> g in Held(s) && g.pid != h.pid
    ensures RequestsOk(t, t.queue, t.busy)
  {
    RequestsStayOk(s, t);
  }

  lemma AnswerForgetsNone(s: Sys, t: Sys, h: Hold)
    requires Inv(s) && Answers(s, t, h) && (t.pc == s.pc || t.pc == Scanning)
    requires t.flag == s.flag && t.blocked == s.blocked
    ensures NoneForgotten(t)
  {
    NoNewWaiting(s, t);
  }

  lemma AnswerConserves(s: Sys, t: Sys, h: Hold)
    requires Inv(s) && Answers(s, t, h)
    ensures Conserved(t)
  {
  }

  lemma AnswerDaemonOk(s: Sys, t: Sys, h: Hold)
    requires Inv(s) && Answers(s, t, h) && (t.pc == s.pc || t.pc == Scanning)
    requires forall g {:trigger Held(t)[g]} :: g in Held(t) ==> g in Held(s) && g.pid != h.pid
    ensures DaemonOk(t)
  {
    DaemonHoldsHeld(t);
  }

  lemma AnswerMapOk(s: Sys)
    requires Inv(s) && Enabled(s, AnswerMap)
    ensures PutNode(s.k, s.pc.h.pid, s.pc.node).1 == 0
    ensures Inv(Next(s, AnswerMap))
  {
    var h := s.pc.h;
    DaemonHoldsHeld(s);
    assert HoldOk(s, h);
    var t := Next(s, AnswerMap);
    assert Answers(s, t, h);
    AnswerOk(s, t, h);
  }

  lemma RespondOk(s: Sys, i: nat, rPid: int)
    requires Inv(s) && Enabled(s, Respond(i, rPid))
    ensures PutPid(s.k, s.busy[i].h.pid, rPid).1 == 0
    ensures Inv(Next(s, Respond(i, rPid)))
  {
    var t := Next(s, Respond(i, rPid));
    RespondAnswers(s, i, rPid);
    forall j | 0 <= j < |t.busy|
      ensures RequestOk(s, t.busy[j])
    {
      assert t.busy[j] == s.busy[if j < i then j else j + 1];
    }
    AnswerOk(s, t, s.busy[i].h);
  }

  lemma RespondAnswers(s: Sys, i: nat, rPid: int)
    requires Inv(s) && Enabled(s, Respond(i, rPid))
    ensures PutPid(s.k, s.busy[i].h.pid, rPid).1 == 0
    ensures Answers(s, Next(s, Respond(i, rPid)), s.busy[i].h)
    ensures var t := Next(s, Respond(i, rPid));
            && t.pc == s.pc && t.flag == s.flag && t.blocked == s.blocked
            && t.queue == s.queue && t.busy == Without(s.busy, i)
  {
    var h := s.busy[i].h;
    assert Holds(s.busy)[i] in Held(s);
    assert HoldOk(s, h);
    assert RequestOk(s, s.busy[i]);
    HoldsWithoutAt(s.busy, i);
  }

  lemma StepOk(s: Sys, a: Action)
    requires Inv(s) && Enabled(s, a)
    ensures Inv(Next(s, a))
  {
    match a
    case Begin(p, file, oNode, junk) => BeginOk(s, p, file, oNode, junk);
    case PostRequest(p) => PostOk(s, p);
    case Signal(p) => SignalOk(s, p);
    case Test(p) => TestOk(s, p);
    case Wake(p) => WakeOk(s, p);
    case Return(p) => ReturnOk(s, p);
    case NewTask(p) => NewTaskOk(s, p);
    case ExitTask(p) => ExitTaskOk(s, p);
    case Suspend => LoopStepOk(s, a);
    case Deliver => LoopStepOk(s, a);
    case OtherSignal => LoopStepOk(s, a);
    case TestFlag => LoopStepOk(s, a);
    case Block => LoopStepOk(s, a);
    case Scan => ScanOk(s);
    case FetchMapArgs => FetchMapOk(s);
    case AskNode(node) => AskOk(s, node);
    case AnswerMap => AnswerMapOk(s);
    case FetchCreatArgs => FetchCreatOk(s);
    case Enqueue => EnqueueOk(s);
    case Dequeue => DequeueOk(s);
    case Respond(i, rPid) => RespondOk(s, i, rPid);
  }
}
