/** What the request protocol guarantees at every point of every run. */
module DkmTheorems {
  import opened Options
  import opened DkmKernel
  import opened DkmProtocol
  import opened DkmInvariant

  lemma {:induction false} InvHoldsThroughout(ss: seq<Sys>, acts: seq<Action>, n: nat)
    requires IsRun(ss, acts) && n < |ss|
    ensures Inv(ss[n])
    decreases n
  {
    if n > 0 {
      InvHoldsThroughout(ss, acts, n - 1);
      assert IsStep(ss, acts, n - 1);
      StepOk(ss[n - 1], acts[n - 1]);
    }
  }

  // ----- wake-ups -----

  /** Once SIGUSR2 has been blocked for the first time no request is forgotten: while one waits to
      be handed out, the signal is pending, the flag is about to be tested, or the drain has not yet
      made the scan that finds nothing. In particular the daemon never suspends without the signal
      pending. */
  lemma NoLostWakeup(ss: seq<Sys>, acts: seq<Action>, n: nat, p: nat)
    requires IsRun(ss, acts) && n < |ss| && ss[n].blocked && Waiting(ss[n], p)
    ensures WillLook(ss[n])
    ensures ss[n].pc == Suspended ==> ss[n].k.sigPending
  {
    InvHoldsThroughout(ss, acts, n);
    assert NoneForgotten(ss[n]);
  }

  /** Before that the promise fails in one way only: a signal delivered outside sigsuspend, be it
      before the first one or between a test of the flag that fails and the next one. The guard is one
      the daemon could test. */
  lemma ForgottenOnlyByEarlySignal(ss: seq<Sys>, acts: seq<Action>, n: nat, p: nat)
    requires IsRun(ss, acts) && n < |ss| && Waiting(ss[n], p)
    ensures WillLook(ss[n]) <==> !(EarlySignal(ss[n]) && !ss[n].k.sigPending)
  {
    InvHoldsThroughout(ss, acts, n);
    assert NoneForgotten(ss[n]);
  }

  lemma Extend(ss: seq<Sys>, acts: seq<Action>, a: Action)
    requires IsRun(ss, acts) && Enabled(ss[|ss| - 1], a)
    ensures IsRun(ss + [Next(ss[|ss| - 1], a)], acts + [a])
  {
    var us, bs := ss + [Next(ss[|ss| - 1], a)], acts + [a];
    forall i | 0 <= i < |bs|
      ensures IsStep(us, bs, i)
    {
      if i < |acts| { assert IsStep(ss, acts, i); }
    }
  }

  /** A first task has come, asked for a mapping and sent its signal; the daemon has not moved. */
  lemma FirstRequest(ikcd: int) returns (ss: seq<Sys>, acts: seq<Action>)
    requires ikcd > 1
    ensures IsRun(ss, acts)
    ensures var s := ss[|ss| - 1];
            && s.pc == Looping && !s.flag && !s.blocked && s.k.sigPending
            && Waiting(s, 1) && s.tasks[1].pc == Testing
  {
    ss, acts := [Sys(Kernel([], map[], ikcd, false), map[], Looping, false, false, [], [], 0,
                     multiset{}, multiset{}, map[])], [];
    var s := ss[0];
    Extend(ss, acts, NewTask(1));
    s := Next(s, NewTask(1));
    ss, acts := ss + [s], acts + [NewTask(1)];
    Extend(ss, acts, Begin(1, "a", "n", ""));
    s := Next(s, Begin(1, "a", "n", ""));
    ss, acts := ss + [s], acts + [Begin(1, "a", "n", "")];
    Extend(ss, acts, PostRequest(1));
    s := Next(s, PostRequest(1));
    ss, acts := ss + [s], acts + [PostRequest(1)];
    Extend(ss, acts, Signal(1));
    s := Next(s, Signal(1));
    ss, acts := ss + [s], acts + [Signal(1)];
  }

  /** And it does fail: the daemon sleeps, its flag set, while a request nobody announced sleeps. */
  lemma EarlySignalForgets(ikcd: int) returns (ss: seq<Sys>, acts: seq<Action>)
    requires ikcd > 1
    ensures IsRun(ss, acts)
    ensures var s := ss[|ss| - 1];
            s.pc == Suspended && !s.k.sigPending && Waiting(s, 1) && s.tasks[1].pc == Asleep && !WillLook(s)
  {
    ss, acts := FirstRequest(ikcd);
    var s := ss[|ss| - 1];
    Extend(ss, acts, Deliver);
    s := Next(s, Deliver);
    ss, acts := ss + [s], acts + [Deliver];
    Extend(ss, acts, Suspend);
    s := Next(s, Suspend);
    ss, acts := ss + [s], acts + [Suspend];
    Extend(ss, acts, Test(1));
    s := Next(s, Test(1));
    ss, acts := ss + [s], acts + [Test(1)];
  }

  /** A task sleeps only while its request is unanswered: the answer wakes every sleeper. */
  lemma SleepersAreUnanswered(ss: seq<Sys>, acts: seq<Action>, n: nat, p: nat)
    requires IsRun(ss, acts) && n < |ss| && p in ss[n].tasks && ss[n].tasks[p].pc == Asleep
    ensures p in ss[n].k.dkm && ss[n].k.dkm[p].pending == 1
    ensures CurrentHold(ss[n], p) !in ss[n].answered
  {
    InvHoldsThroughout(ss, acts, n);
    var s, h := ss[n], CurrentHold(ss[n], p);
    assert TaskOk(s, p);
    assert s.handed[h] <= 1;
  }

  lemma {:induction false} PendingIsFromASignal(ss: seq<Sys>, acts: seq<Action>, n: nat) returns (e: nat)
    requires IsRun(ss, acts) && n < |ss| && ss[n].k.sigPending
    ensures e < n && acts[e].Signal? && forall j :: e < j <= n ==> ss[j].k.sigPending
    decreases n
  {
    assert n > 0;
    assert IsStep(ss, acts, n - 1);
    if acts[n - 1].Signal? {
      e := n - 1;
    } else {
      OnlySignalsPend(ss[n - 1], acts[n - 1]);
      e := PendingIsFromASignal(ss, acts, n - 1);
    }
  }

  lemma OnlySignalsPend(s: Sys, a: Action)
    requires Enabled(s, a) && !a.Signal?
    ensures Next(s, a).k.sigPending ==> s.k.sigPending && !a.Deliver?
  {
    match a
    case Scan => FirstWantedFinds(s.k, 0);
    case AnswerMap => AnswerSendsNoSignal(s, s.pc.h, PutNode(s.k, s.pc.h.pid, s.pc.node));
    case Respond(i, rPid) => AnswerSendsNoSignal(s, s.busy[i].h, PutPid(s.k, s.busy[i].h.pid, rPid));
    case _ =>
  }

  lemma AnswerSendsNoSignal(s: Sys, h: Hold, result: (Kernel, int))
    requires result.0.sigPending == s.k.sigPending
    ensures Responded(s, h, result).k.sigPending == s.k.sigPending
  {
  }

  lemma {:induction false} FlagIsFromADelivery(ss: seq<Sys>, acts: seq<Action>, n: nat) returns (d: nat)
    requires IsRun(ss, acts) && n < |ss| && ss[n].flag
    ensures d < n && acts[d] == Deliver && forall j :: d < j <= n ==> ss[j].flag
    decreases n
  {
    assert n > 0;
    assert IsStep(ss, acts, n - 1);
    if acts[n - 1] == Deliver {
      d := n - 1;
    } else {
      OnlyDeliveriesFlag(ss[n - 1], acts[n - 1]);
      d := FlagIsFromADelivery(ss, acts, n - 1);
    }
  }

  lemma OnlyDeliveriesFlag(s: Sys, a: Action)
    requires Enabled(s, a) && Next(s, a).flag && a != Deliver
    ensures s.flag && !a.TestFlag?
  {
    if a.Scan? { FirstWantedFinds(s.k, 0); }
  }

  /** The daemon drains because of a signal, and once for it: before each test of the flag that
      succeeds a signal was delivered, and no other test has succeeded since; and before each delivery
      a task sent it, and none was delivered since. */
  lemma DrainHasItsSignal(ss: seq<Sys>, acts: seq<Action>, n: nat) returns (e: nat, d: nat)
    requires IsRun(ss, acts) && n < |acts| && acts[n] == TestFlag && ss[n].flag
    ensures e < d < n && acts[e].Signal? && acts[d] == Deliver
    ensures forall j :: d < j < n ==> !(acts[j] == TestFlag && ss[j].flag)
    ensures forall j :: e < j < d ==> acts[j] != Deliver
  {
    d := FlagIsFromADelivery(ss, acts, n);
    assert IsStep(ss, acts, d);
    e := PendingIsFromASignal(ss, acts, d);
    forall j | d < j < n
      ensures !(acts[j] == TestFlag && ss[j].flag)
    {
      assert IsStep(ss, acts, j) && ss[j + 1].flag;
    }
    forall j | e < j < d
      ensures acts[j] != Deliver
    {
      assert IsStep(ss, acts, j) && ss[j + 1].k.sigPending;
    }
  }

  // ----- requests -----

  /** Every request handed out is in exactly one place, the drain, the queue or a worker, or it has
      been answered exactly once; and no request is ever handed out twice. */
  lemma RequestsAreConserved(ss: seq<Sys>, acts: seq<Action>, n: nat, h: Hold)
    requires IsRun(ss, acts) && n < |ss|
    ensures var s := ss[n];
            && s.handed == s.answered + Held(s)
            && s.handed[h] <= 1
            && (h in s.handed ==> s.answered[h] + Held(s)[h] == 1)
            && (h !in s.handed ==> s.answered[h] == 0 && Held(s)[h] == 0)
  {
    InvHoldsThroughout(ss, acts, n);
    assert ss[n].handed[h] <= 1;
  }

  ghost predicate Grown(s: Sys, t: Sys) {
    s.handed <= t.handed && s.answered <= t.answered && s.next <= t.next
  }

  lemma StepGrows(s: Sys, a: Action)
    requires Enabled(s, a)
    ensures Grown(s, Next(s, a))
  {
    match a
    case Scan =>
    case AnswerMap => RespondedGrows(s, s.pc.h, PutNode(s.k, s.pc.h.pid, s.pc.node));
    case Respond(i, rPid) => RespondedGrows(s, s.busy[i].h, PutPid(s.k, s.busy[i].h.pid, rPid));
    case _ =>
  }

  lemma RespondedGrows(s: Sys, h: Hold, result: (Kernel, int))
    ensures Grown(s, Responded(s, h, result))
  {
  }

  /** Nothing handed out or answered is ever forgotten again. */
  lemma {:induction false} HistoryGrows(ss: seq<Sys>, acts: seq<Action>, m: nat, n: nat)
    requires IsRun(ss, acts) && m <= n < |ss|
    ensures Grown(ss[m], ss[n])
    decreases n - m
  {
    if m < n {
      HistoryGrows(ss, acts, m, n - 1);
      OneStepGrown(ss, acts, n - 1);
      GrownTransitive(ss[m], ss[n - 1], ss[n]);
    }
  }

  lemma OneStepGrown(ss: seq<Sys>, acts: seq<Action>, n: nat)
    requires IsRun(ss, acts) && n < |acts|
    ensures Grown(ss[n], ss[n + 1])
  {
    assert IsStep(ss, acts, n);
    StepGrows(ss[n], acts[n]);
  }

  lemma GrownTransitive(r: Sys, s: Sys, t: Sys)
    requires Grown(r, s) && Grown(s, t)
    ensures Grown(r, t)
  {
  }

  /** DKM_GET_REQ hands out only requests that were never handed out before, for a mapping or a
      process; the daemon's default case, which would end it, is never reached. */
  lemma HandsOutOnce(ss: seq<Sys>, acts: seq<Action>, n: nat)
    requires IsRun(ss, acts) && n < |acts| && acts[n] == Scan && GetReq(ss[n].k).1.Some?
    ensures var (p, req) := GetReq(ss[n].k).1.value;
            && (req == MAP_REQ || req == PROC_CREAT_REQ)
            && p in ss[n].tasks
            && CurrentHold(ss[n], p) == Hold(p, ss[n].tasks[p].serial, req)
            && CurrentHold(ss[n], p) !in ss[n].handed
            && ss[n + 1].handed == ss[n].handed + multiset{CurrentHold(ss[n], p)}
  {
    InvHoldsThroughout(ss, acts, n);
    var s := ss[n];
    assert IsStep(ss, acts, n);
    FirstWantedFinds(s.k, 0);
    var p := FirstWanted(s.k, 0).value;
    ScanIsTaking(s, p);
    assert TaskOk(s, p);
  }

  /** DKM_DO_REQ, DKM_GET_ARGS and DKM_PUT_RESP never fail, although the daemon would not notice if they did. */
  lemma CommandsNeverFail(ss: seq<Sys>, acts: seq<Action>, n: nat)
    requires IsRun(ss, acts) && n < |acts|
    ensures match acts[n]
            case PostRequest(p) => Post(ss[n].k, p).1 == 0
            case FetchMapArgs => ss[n].pc.MapArgs? && GetArgs(ss[n].k, ss[n].pc.h.pid, ss[n].pc.h.req).Some?
            case FetchCreatArgs => ss[n].pc.CreatArgs? && GetArgs(ss[n].k, ss[n].pc.h.pid, ss[n].pc.h.req).Some?
            case AnswerMap => ss[n].pc.MapAnswer? && PutNode(ss[n].k, ss[n].pc.h.pid, ss[n].pc.node).1 == 0
            case Respond(i, rPid) => i < |ss[n].busy| && PutPid(ss[n].k, ss[n].busy[i].h.pid, rPid).1 == 0
            case _ => true
  {
    InvHoldsThroughout(ss, acts, n);
    assert IsStep(ss, acts, n);
    match acts[n]
    case PostRequest(p) => assert TaskOk(ss[n], p);
    case FetchMapArgs => FetchMapOk(ss[n]);
    case FetchCreatArgs => FetchCreatOk(ss[n]);
    case AnswerMap => AnswerMapOk(ss[n]);
    case Respond(i, rPid) => RespondOk(ss[n], i, rPid);
    case _ =>
  }

  /** What a worker sends to the remote kernel names the node chosen for this task and its file. */
  lemma WorkersCarryTheRightRequest(ss: seq<Sys>, acts: seq<Action>, n: nat, i: nat)
    requires IsRun(ss, acts) && n < |ss| && i < |ss[n].busy|
    ensures var s, r := ss[n], ss[n].busy[i];
            && r.h.pid in s.tasks && r.h.pid in s.k.dkm
            && r.h == CurrentHold(s, r.h.pid) && r.h.req == PROC_CREAT_REQ
            && r.node == s.k.dkm[r.h.pid].rNode != s.k.dkm[r.h.pid].oNode
            && r.file == s.k.dkm[r.h.pid].fileName
  {
    InvHoldsThroughout(ss, acts, n);
    var s, r := ss[n], ss[n].busy[i];
    assert Holds(s.busy)[i] in Held(s);
    assert HoldOk(s, r.h);
    assert RequestOk(s, r);
    assert TaskOk(s, r.h.pid);
  }

  // ----- dkm_execve -----

  /** A task leaves its sleep loop only once its own request has been handed out and answered. */
  lemma LoopEndsAfterOwnAnswer(ss: seq<Sys>, acts: seq<Action>, n: nat, p: nat)
    requires IsRun(ss, acts) && n < |acts| && acts[n] == Test(p)
    requires p in ss[n + 1].tasks && ss[n + 1].tasks[p].pc == Over
    ensures p in ss[n].tasks
    ensures ss[n].answered[CurrentHold(ss[n], p)] == 1 && ss[n].handed[CurrentHold(ss[n], p)] == 1
  {
    InvHoldsThroughout(ss, acts, n);
    var s := ss[n];
    assert IsStep(ss, acts, n);
    assert TaskOk(s, p);
    assert s.handed[CurrentHold(s, p)] <= 1;
  }
}
