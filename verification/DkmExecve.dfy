/** dkm_execve over whole runs: what one call has done by the time it returns. */
module DkmExecve {
  import opened DkmKernel
  import opened DkmProtocol
  import opened DkmInvariant
  import opened DkmTheorems

  /** How often p posted a request from m up to n. */
  ghost function Posts(acts: seq<Action>, m: nat, n: nat, p: nat): nat
    requires n <= |acts|
    decreases n
  {
    if n <= m then 0 else Posts(acts, m, n - 1, p) + if acts[n - 1] == PostRequest(p) then 1 else 0
  }

  /** From m on p has been inside one call of dkm_execve. */
  ghost predicate Inside(ss: seq<Sys>, m: nat, n: nat, p: nat) {
    forall i :: m < i <= n && i < |ss| ==> p in ss[i].tasks && ss[i].tasks[p].pc != Idle
  }

  /** The call that began at m has posted so many requests, the first of them since then. */
  ghost predicate CallSoFar(ss: seq<Sys>, acts: seq<Action>, m: nat, n: nat, p: nat)
    requires m < n < |ss| && n <= |acts|
  {
    && acts[m].Begin? && acts[m].p == p && Inside(ss, m, n, p)
    && p in ss[n].tasks && p in ss[n].k.dkm
    && var d, t := ss[n].k.dkm[p], ss[n].tasks[p];
       && d.fileName == acts[m].file && d.oNode == acts[m].oNode
       && t.posts == Posts(acts, m, n, p)
       && (t.posts >= 1 ==> ss[m].next <= t.mapSerial)
       && ss[m].next <= ss[n].next
  }

  /** What a call is about, and how far it has come. */
  ghost predicate SameCall(s: Sys, t: Sys, p: nat) {
    && p in s.tasks && p in s.k.dkm && p in t.tasks && p in t.k.dkm
    && t.k.dkm[p].fileName == s.k.dkm[p].fileName && t.k.dkm[p].oNode == s.k.dkm[p].oNode
    && t.tasks[p].posts == s.tasks[p].posts && t.tasks[p].mapSerial == s.tasks[p].mapSerial
  }

  predicate TaskStep(a: Action) {
    a.Begin? || a.PostRequest? || a.Signal? || a.Test? || a.Wake? || a.Return? || a.NewTask? || a.ExitTask?
  }

  predicate ComesOrGoes(a: Action) {
    a.NewTask? || a.ExitTask?
  }

  /** p's own steps, and those of another task. */
  lemma OwnStepKeepsCall(s: Sys, a: Action, p: nat)
    requires a == Signal(p) || a == Test(p) || a == Wake(p) || a == Return(p)
    requires Enabled(s, a)
    ensures SameCall(s, Next(s, a), p)
  {
  }

  lemma OthersStepKeepsCall(s: Sys, a: Action, p: nat)
    requires TaskStep(a) && !ComesOrGoes(a) && a.p != p && Enabled(s, a) && p in s.tasks && p in s.k.dkm
    ensures SameCall(s, Next(s, a), p)
  {
  }

  lemma OthersComeAndGo(s: Sys, a: Action, p: nat)
    requires ComesOrGoes(a) && Enabled(s, a) && p in s.tasks && p in s.k.dkm && a != ExitTask(p)
    ensures SameCall(s, Next(s, a), p)
  {
  }

  lemma AnswerKeepsCall(s: Sys, h: Hold, result: (Kernel, int), p: nat)
    requires p in s.tasks && p in s.k.dkm
    requires (exists node :: result == PutNode(s.k, h.pid, node)) || (exists rPid :: result == PutPid(s.k, h.pid, rPid))
    ensures SameCall(s, Responded(s, h, result), p)
  {
  }

  lemma ScanKeepsCall(s: Sys, p: nat)
    requires p in s.tasks && p in s.k.dkm
    ensures SameCall(s, ScanNext(s), p)
  {
    FirstWantedFinds(s.k, 0);
  }

  lemma DaemonStepKeepsCall(s: Sys, a: Action, p: nat)
    requires !TaskStep(a) && Enabled(s, a) && p in s.tasks && p in s.k.dkm
    ensures SameCall(s, Next(s, a), p)
  {
    match a
    case Scan => ScanKeepsCall(s, p);
    case AnswerMap => AnswerKeepsCall(s, s.pc.h, PutNode(s.k, s.pc.h.pid, s.pc.node), p);
    case Respond(i, rPid) => AnswerKeepsCall(s, s.busy[i].h, PutPid(s.k, s.busy[i].h.pid, rPid), p);
    case _ =>
  }

  lemma PostStep(ss: seq<Sys>, acts: seq<Action>, m: nat, n: nat, p: nat)
    requires IsRun(ss, acts) && m < n < |acts| && CallSoFar(ss, acts, m, n, p) && acts[n] == PostRequest(p)
    requires TaskOk(ss[n], p)
    ensures CallSoFar(ss, acts, m, n + 1, p)
  {
    assert IsStep(ss, acts, n);
    assert Posts(acts, m, n + 1, p) == Posts(acts, m, n, p) + 1;
  }

  lemma CallStep(ss: seq<Sys>, acts: seq<Action>, m: nat, n: nat, p: nat)
    requires IsRun(ss, acts) && m < n < |acts| && CallSoFar(ss, acts, m, n, p)
    requires acts[n] != PostRequest(p) && SameCall(ss[n], ss[n + 1], p) && ss[n].next <= ss[n + 1].next
    requires ss[n + 1].tasks[p].pc != Idle
    ensures CallSoFar(ss, acts, m, n + 1, p)
  {
    assert Posts(acts, m, n + 1, p) == Posts(acts, m, n, p);
  }

  lemma CallGoesOn(ss: seq<Sys>, acts: seq<Action>, m: nat, n: nat, p: nat)
    requires IsRun(ss, acts) && m < n < |acts| && CallSoFar(ss, acts, m, n, p)
    requires !(acts[n].Begin? && acts[n].p == p)
    requires p in ss[n + 1].tasks && ss[n + 1].tasks[p].pc != Idle
    ensures CallSoFar(ss, acts, m, n + 1, p)
  {
    var s, a := ss[n], acts[n];
    assert IsStep(ss, acts, n);
    InvHoldsThroughout(ss, acts, n);
    assert TaskOk(s, p);
    if a == PostRequest(p) {
      PostStep(ss, acts, m, n, p);
    } else {
      StepGrows(s, a);
      if ComesOrGoes(a) {
        OthersComeAndGo(s, a, p);
      } else if TaskStep(a) {
        if a.p == p { OwnStepKeepsCall(s, a, p); } else { OthersStepKeepsCall(s, a, p); }
      } else {
        DaemonStepKeepsCall(s, a, p);
      }
      CallStep(ss, acts, m, n, p);
    }
  }

  /** A task that is not idle is inside a call that began at some point and has not ended since. */
  lemma {:induction false} CallHasBegun(ss: seq<Sys>, acts: seq<Action>, n: nat, p: nat) returns (m: nat)
    requires IsRun(ss, acts) && n < |ss| && p in ss[n].tasks && ss[n].tasks[p].pc != Idle
    ensures m < n && CallSoFar(ss, acts, m, n, p)
    decreases n
  {
    assert n > 0;
    var s, a := ss[n - 1], acts[n - 1];
    assert IsStep(ss, acts, n - 1);
    if a.Begin? && a.p == p {
      m := n - 1;
      assert Posts(acts, m, n - 1, p) == 0;
    } else {
      StillInside(s, a, p);
      m := CallHasBegun(ss, acts, n - 1, p);
      CallGoesOn(ss, acts, m, n - 1, p);
    }
  }

  /** Only Begin takes an idle task into dkm_execve. */
  lemma StillInside(s: Sys, a: Action, p: nat)
    requires Enabled(s, a) && !(a.Begin? && a.p == p)
    requires var t := Next(s, a); p in t.tasks && t.tasks[p].pc != Idle
    ensures p in s.tasks && s.tasks[p].pc != Idle
  {
    if a.AnswerMap? {
      AnswerWakesOnly(s, s.pc.h, PutNode(s.k, s.pc.h.pid, s.pc.node), p);
    } else if a.Respond? {
      AnswerWakesOnly(s, s.busy[a.i].h, PutPid(s.k, s.busy[a.i].h.pid, a.rPid), p);
    } else if TaskStep(a) {
      OwnStepWakesNobody(s, a, p);
    }
  }

  lemma OwnStepWakesNobody(s: Sys, a: Action, p: nat)
    requires TaskStep(a) && Enabled(s, a) && !(a.Begin? && a.p == p)
    requires var t := Next(s, a); p in t.tasks && t.tasks[p].pc != Idle
    ensures p in s.tasks && s.tasks[p].pc != Idle
  {
  }

  lemma AnswerWakesOnly(s: Sys, h: Hold, result: (Kernel, int), p: nat)
    requires var t := Responded(s, h, result); p in t.tasks && t.tasks[p].pc != Idle
    ensures p in s.tasks && s.tasks[p].pc != Idle
  {
  }

  /** What is recorded of the node server was asked and answered in some step of the run. */
  lemma {:induction false} WasAsked(ss: seq<Sys>, acts: seq<Action>, n: nat, h: Hold) returns (j: nat)
    requires IsRun(ss, acts) && n < |ss| && h in ss[n].asked
    ensures j < n && acts[j].AskNode? && ss[j].pc.MapAsk? && ss[j].pc.h == h
    ensures ss[n].asked[h] == (ss[j].pc.app, acts[j].node)
    decreases n
  {
    assert n > 0;
    var s, a := ss[n - 1], acts[n - 1];
    assert IsStep(ss, acts, n - 1);
    if a.AskNode? && s.pc.h == h {
      j := n - 1;
    } else {
      OldAnswersStay(s, a, h);
      j := WasAsked(ss, acts, n - 1, h);
    }
  }

  lemma OldAnswersStay(s: Sys, a: Action, h: Hold)
    requires Enabled(s, a) && h in Next(s, a).asked && !(a.AskNode? && s.pc.h == h)
    ensures h in s.asked && Next(s, a).asked[h] == s.asked[h]
  {
  }

  /** A request numbered since m was asked about after m. */
  lemma AskedSince(ss: seq<Sys>, acts: seq<Action>, m: nat, j: nat)
    requires IsRun(ss, acts) && m < |ss| && j < |ss|
    requires ss[j].pc.MapAsk? && ss[m].next <= ss[j].pc.h.serial
    ensures m < j
  {
    InvHoldsThroughout(ss, acts, j);
    DaemonHoldsHeld(ss[j]);
    assert ss[j].handed[ss[j].pc.h] >= Held(ss[j])[ss[j].pc.h];
    assert ss[j].pc.h in ss[j].handed;
    if j <= m { HistoryGrows(ss, acts, j, m); }
  }

  /** dkm_execve under every interleaving. When it returns, having begun at m: no request is pending
      and req is DKM_NOP; the file and the own node are those it was called with; r_node is what the
      node server answered at j, during this call and asked about this request and this file; and a
      second request was posted exactly when that node is not the own one. */
  lemma ExecveOutcome(ss: seq<Sys>, acts: seq<Action>, n: nat, p: nat) returns (m: nat, j: nat)
    requires IsRun(ss, acts) && n < |acts| && acts[n] == Return(p)
    requires p in ss[n + 1].tasks && ss[n + 1].tasks[p].pc == Idle
    ensures m < j < n && Inside(ss, m, n, p) && acts[m].Begin? && acts[m].p == p
    ensures acts[j].AskNode? && ss[j].pc.MapAsk? && ss[j].pc.h.pid == p && ss[j].pc.app == acts[m].file
    ensures p in ss[n + 1].k.dkm
    ensures var d := ss[n + 1].k.dkm[p];
            && d.pending == 0 && d.req == DKM_NOP
            && d.fileName == acts[m].file && d.oNode == acts[m].oNode && d.rNode == acts[j].node
            && Posts(acts, m, n, p) == if d.rNode == d.oNode then 1 else 2
  {
    InvHoldsThroughout(ss, acts, n);
    var s := ss[n];
    assert IsStep(ss, acts, n);
    assert TaskOk(s, p);
    m := CallHasBegun(ss, acts, n, p);
    var h := Hold(p, s.tasks[p].mapSerial, MAP_REQ);
    assert h in s.asked && s.asked[h] == (s.k.dkm[p].fileName, s.k.dkm[p].rNode);
    j := WasAsked(ss, acts, n, h);
    AskedSince(ss, acts, m, j);
  }

  // ----- the remote pid -----

  /** At l, after m, a worker answered this hold with this pid. */
  ghost predicate AnsweredAt(ss: seq<Sys>, acts: seq<Action>, m: nat, l: nat, n: nat, h: Hold, rPid: int)
    requires n < |ss| && n <= |acts|
  {
    && m < l < n && acts[l].Respond? && acts[l].i < |ss[l].busy|
    && ss[l].busy[acts[l].i].h == h && acts[l].rPid == rPid
  }

  /** Has the second request of the call been answered? */
  ghost predicate SecondAnswered(s: Sys, p: nat)
    requires p in s.tasks && p in s.k.dkm
  {
    Outstanding(s.tasks[p]) && s.tasks[p].second && s.k.dkm[p].pending == 0
  }

  /** What a step can do to r_pid: a worker's answer to p's own second request sets it, and nothing
      else touches it. */
  ghost predicate PidStep(s: Sys, a: Action, t: Sys, p: nat) {
    && p in s.tasks && p in s.k.dkm && p in t.tasks && p in t.k.dkm
    && if a.Respond? && a.i < |s.busy| && s.busy[a.i].h.pid == p then
         && SecondAnswered(t, p) && t.k.dkm[p].rPid == a.rPid && s.busy[a.i].h == CurrentHold(t, p)
       else
         && t.k.dkm[p].rPid == s.k.dkm[p].rPid && SecondAnswered(t, p) == SecondAnswered(s, p)
         && (SecondAnswered(s, p) ==> CurrentHold(t, p) == CurrentHold(s, p))
  }

  lemma OwnPidStep(s: Sys, a: Action, p: nat)
    requires a == PostRequest(p) || a == Signal(p) || a == Test(p) || a == Wake(p) || a == Return(p)
    requires Enabled(s, a) && TaskOk(s, p) && Post(s.k, p).1 == 0
    requires Next(s, a).tasks[p].pc != Idle
    ensures PidStep(s, a, Next(s, a), p)
  {
  }

  lemma OthersPidStep(s: Sys, a: Action, p: nat)
    requires TaskStep(a) && a.p != p && Enabled(s, a) && p in s.tasks && p in s.k.dkm
    ensures PidStep(s, a, Next(s, a), p)
  {
  }

  lemma MapAnswerPidStep(s: Sys, p: nat)
    requires Inv(s) && Enabled(s, AnswerMap) && p in s.tasks && p in s.k.dkm
    ensures PidStep(s, AnswerMap, Next(s, AnswerMap), p)
  {
    DaemonHoldsHeld(s);
    assert HoldOk(s, s.pc.h);
  }

  lemma RespondPidStep(s: Sys, i: nat, rPid: int, p: nat)
    requires Inv(s) && Enabled(s, Respond(i, rPid)) && p in s.tasks && p in s.k.dkm
    ensures PidStep(s, Respond(i, rPid), Next(s, Respond(i, rPid)), p)
  {
    var h := s.busy[i].h;
    assert Holds(s.busy)[i] in Held(s);
    assert HoldOk(s, h) && RequestOk(s, s.busy[i]);
    if h.pid == p {
      OwnPidAnswered(s, h, rPid);
    } else {
      OtherPidAnswered(s, h, rPid, p);
    }
  }

  lemma OwnPidAnswered(s: Sys, h: Hold, rPid: int)
    requires HoldOk(s, h) && h.req == PROC_CREAT_REQ
    ensures var t := Responded(s, h, PutPid(s.k, h.pid, rPid));
            && h.pid in t.tasks && h.pid in t.k.dkm && t.k.dkm[h.pid].rPid == rPid
            && SecondAnswered(t, h.pid) && h == CurrentHold(t, h.pid)
  {
  }

  lemma OtherPidAnswered(s: Sys, h: Hold, rPid: int, p: nat)
    requires h.pid != p && p in s.tasks && p in s.k.dkm
    ensures var t := Responded(s, h, PutPid(s.k, h.pid, rPid));
            && p in t.tasks && p in t.k.dkm && t.k.dkm[p] == s.k.dkm[p]
            && SecondAnswered(t, p) == SecondAnswered(s, p) && CurrentHold(t, p) == CurrentHold(s, p)
  {
  }

  lemma DaemonPidStep(s: Sys, a: Action, p: nat)
    requires Inv(s) && !TaskStep(a) && Enabled(s, a) && p in s.tasks && p in s.k.dkm
    ensures PidStep(s, a, Next(s, a), p)
  {
    match a
    case Scan => FirstWantedFinds(s.k, 0);
    case AnswerMap => MapAnswerPidStep(s, p);
    case Respond(i, rPid) => RespondPidStep(s, i, rPid, p);
    case _ =>
  }

  lemma InsidePidStep(s: Sys, a: Action, p: nat)
    requires Inv(s) && Enabled(s, a) && p in s.tasks && p in s.k.dkm && TaskOk(s, p) && s.tasks[p].pc != Idle
    requires !(a.Begin? && a.p == p) && (a == PostRequest(p) ==> Post(s.k, p).1 == 0)
    requires p in Next(s, a).tasks && Next(s, a).tasks[p].pc != Idle && p in Next(s, a).k.dkm
    ensures PidStep(s, a, Next(s, a), p)
  {
    if !TaskStep(a) {
      DaemonPidStep(s, a, p);
    } else if a.p != p {
      OthersPidStep(s, a, p);
    } else {
      OwnPidStep(s, a, p);
    }
  }

  lemma AnyPidStep(ss: seq<Sys>, acts: seq<Action>, n: nat, p: nat)
    requires IsRun(ss, acts) && n < |acts| && !(acts[n].Begin? && acts[n].p == p)
    requires p in ss[n].tasks && ss[n].tasks[p].pc != Idle && p in ss[n + 1].tasks && ss[n + 1].tasks[p].pc != Idle
    ensures p in ss[n].k.dkm && p in ss[n + 1].k.dkm && PidStep(ss[n], acts[n], ss[n + 1], p)
  {
    InvHoldsThroughout(ss, acts, n);
    InvHoldsThroughout(ss, acts, n + 1);
    assert IsStep(ss, acts, n) && TaskOk(ss[n], p);
    CommandsNeverFail(ss, acts, n);
    InsidePidStep(ss[n], acts[n], p);
  }

  /** Since the call began at m, r_pid is what it was then, or what a worker answered to the second
      request of this call. */
  lemma {:induction false} RemotePidSoFar(ss: seq<Sys>, acts: seq<Action>, m: nat, n: nat, p: nat) returns (l: nat)
    requires IsRun(ss, acts) && m < n < |ss| && acts[m].Begin? && acts[m].p == p && Inside(ss, m, n, p)
    requires forall i :: m < i < n ==> !(acts[i].Begin? && acts[i].p == p)
    ensures p in ss[m].k.dkm && p in ss[n].tasks && p in ss[n].k.dkm
    ensures if SecondAnswered(ss[n], p)
            then AnsweredAt(ss, acts, m, l, n, CurrentHold(ss[n], p), ss[n].k.dkm[p].rPid)
            else ss[n].k.dkm[p].rPid == ss[m].k.dkm[p].rPid
    decreases n
  {
    assert IsStep(ss, acts, m);
    l := m;
    if m + 1 < n {
      l := RemotePidSoFar(ss, acts, m, n - 1, p);
      AnyPidStep(ss, acts, n - 1, p);
      if acts[n - 1].Respond? && acts[n - 1].i < |ss[n - 1].busy| && ss[n - 1].busy[acts[n - 1].i].h.pid == p {
        l := n - 1;
      }
    }
  }

  /** A call is not begun again from inside. */
  lemma NoSecondBegin(ss: seq<Sys>, acts: seq<Action>, m: nat, n: nat, p: nat)
    requires IsRun(ss, acts) && m < n < |ss| && Inside(ss, m, n, p)
    ensures forall i :: m < i < n ==> !(acts[i].Begin? && acts[i].p == p)
  {
    forall i | m < i < n
      ensures !(acts[i].Begin? && acts[i].p == p)
    {
      assert IsStep(ss, acts, i);
    }
  }

  /** The pid of the remote process: when dkm_execve returns after two posts, r_pid is what a worker
      answered, during this call, to its second request; after one, r_pid is what it was before. */
  lemma RemotePidArrives(ss: seq<Sys>, acts: seq<Action>, n: nat, p: nat) returns (m: nat, l: nat)
    requires IsRun(ss, acts) && n < |acts| && acts[n] == Return(p)
    requires p in ss[n + 1].tasks && ss[n + 1].tasks[p].pc == Idle
    ensures m < n && Inside(ss, m, n, p) && acts[m].Begin? && acts[m].p == p
    ensures p in ss[m].k.dkm && p in ss[n].tasks && p in ss[n + 1].k.dkm
    ensures Posts(acts, m, n, p) == 1 || Posts(acts, m, n, p) == 2
    ensures if Posts(acts, m, n, p) == 2
            then AnsweredAt(ss, acts, m, l, n, Hold(p, ss[n].tasks[p].serial, PROC_CREAT_REQ), ss[n + 1].k.dkm[p].rPid)
            else ss[n + 1].k.dkm[p].rPid == ss[m].k.dkm[p].rPid
  {
    InvHoldsThroughout(ss, acts, n);
    assert IsStep(ss, acts, n) && TaskOk(ss[n], p);
    m := CallHasBegun(ss, acts, n, p);
    NoSecondBegin(ss, acts, m, n, p);
    l := RemotePidSoFar(ss, acts, m, n, p);
  }
}
