/** A run in which everything goes as it is meant to. */
module DkmServed {
  import opened Options
  import opened DkmKernel
  import opened DkmProtocol
  import opened DkmTheorems

  lemma Go(ss: seq<Sys>, acts: seq<Action>, a: Action) returns (us: seq<Sys>, bs: seq<Action>)
    requires IsRun(ss, acts) && Enabled(ss[|ss| - 1], a)
    ensures IsRun(us, bs) && bs == acts + [a] && us[|us| - 1] == Next(ss[|ss| - 1], a)
  {
    Extend(ss, acts, a);
    us, bs := ss + [Next(ss[|ss| - 1], a)], acts + [a];
  }

  /** The fields of task 1, which runs "a" on node "n", and the one request it may have made. */
  function One(state: int, req: int, pending: int, rNode: string, rPid: int): map<nat, Dkm> {
    map[1 := Dkm(pending, state, req, "a", "n", rNode, rPid)]
  }

  function Map(): Hold { Hold(1, 0, MAP_REQ) }

  function Creat(): Hold { Hold(1, 1, PROC_CREAT_REQ) }

  /** The task has come, asked for a mapping and sent its signal. */
  function Asked(ikcd: int): Sys {
    Sys(Kernel([1], One(REQ_IN_DO_REQ, MAP_REQ, 1, "", 0), ikcd, true), map[1 := Task(Testing, false, 0, 0, 1)],
        Looping, false, false, [], [], 1, multiset{}, multiset{}, map[])
  }

  /** The daemon has taken the request up to the question for the node. */
  function Asking(ikcd: int): Sys {
    Sys(Kernel([1], One(REQ_IN_GET_REQ, MAP_REQ, 1, "", 0), ikcd, false), map[1 := Task(Testing, false, 0, 0, 1)],
        MapAsk(Map(), "a"), false, true, [], [], 1, multiset{Map()}, multiset{}, map[])
  }

  /** The node "m" is known, and the task has posted its second request and sent its signal. */
  function AskedAgain(ikcd: int): Sys {
    Sys(Kernel([1], One(REQ_IN_DO_REQ, PROC_CREAT_REQ, 1, "m", 0), ikcd, true), map[1 := Task(Testing, true, 1, 0, 2)],
        Scanning, false, true, [], [], 2, multiset{Map()}, multiset{Map()}, map[Map() := ("a", "m")])
  }

  /** The second request is with a worker and the drain has ended. */
  function AtWorker(ikcd: int): Sys {
    Sys(Kernel([1], One(REQ_IN_GET_REQ, PROC_CREAT_REQ, 1, "m", 0), ikcd, true), map[1 := Task(Testing, true, 1, 0, 2)],
        Looping, false, true, [], [Request(Creat(), "m", "a")], 2,
        multiset{Map(), Creat()}, multiset{Map()}, map[Map() := ("a", "m")])
  }

  /** Everything is answered, and nothing is left over. */
  function Served(ikcd: int, rPid: int): Sys {
    Sys(Kernel([1], One(REQ_NOT_IN_PROGRESS, DKM_NOP, 0, "m", rPid), ikcd, false), map[1 := Task(Idle, true, 1, 0, 2)],
        Looping, false, true, [], [], 2,
        multiset{Map(), Creat()}, multiset{Map(), Creat()}, map[Map() := ("a", "m")])
  }

  lemma ToAsked(ikcd: int) returns (ss: seq<Sys>, acts: seq<Action>)
    requires ikcd > 1
    ensures IsRun(ss, acts) && ss[|ss| - 1] == Asked(ikcd)
  {
    ss, acts := [Sys(Kernel([], map[], ikcd, false), map[], Looping, false, false, [], [], 0,
                     multiset{}, multiset{}, map[])], [];
    ss, acts := Go(ss, acts, NewTask(1));
    ss, acts := Go(ss, acts, Begin(1, "a", "n", ""));
    ss, acts := Go(ss, acts, PostRequest(1));
    ss, acts := Go(ss, acts, Signal(1));
  }

  lemma ToAsking(ss: seq<Sys>, acts: seq<Action>, ikcd: int) returns (us: seq<Sys>, bs: seq<Action>)
    requires IsRun(ss, acts) && ss[|ss| - 1] == Asked(ikcd)
    ensures IsRun(us, bs) && us[|us| - 1] == Asking(ikcd)
  {
    us, bs := Go(ss, acts, Suspend);
    us, bs := Go(us, bs, Deliver);
    us, bs := Go(us, bs, TestFlag);
    us, bs := Go(us, bs, Block);
    us, bs := Go(us, bs, Scan);
    us, bs := Go(us, bs, FetchMapArgs);
  }

  lemma ToAskedAgain(ss: seq<Sys>, acts: seq<Action>, ikcd: int) returns (us: seq<Sys>, bs: seq<Action>)
    requires ikcd > 1 && IsRun(ss, acts) && ss[|ss| - 1] == Asking(ikcd)
    ensures IsRun(us, bs) && us[|us| - 1] == AskedAgain(ikcd)
  {
    us, bs := Go(ss, acts, AskNode("m"));
    us, bs := Go(us, bs, AnswerMap);
    us, bs := Go(us, bs, Test(1));
    us, bs := Go(us, bs, Return(1));
    us, bs := Go(us, bs, PostRequest(1));
    us, bs := Go(us, bs, Signal(1));
  }

  /** The second request is queued. */
  function Queued(ikcd: int): Sys {
    AtWorker(ikcd).(pc := Scanning, queue := [Request(Creat(), "m", "a")], busy := [])
  }

  lemma ToQueued(ss: seq<Sys>, acts: seq<Action>, ikcd: int) returns (us: seq<Sys>, bs: seq<Action>)
    requires IsRun(ss, acts) && ss[|ss| - 1] == AskedAgain(ikcd)
    ensures IsRun(us, bs) && us[|us| - 1] == Queued(ikcd)
  {
    us, bs := Go(ss, acts, Scan);
    assert us[|us| - 1] == Queued(ikcd).(pc := CreatArgs(Creat()), queue := []);
    us, bs := Go(us, bs, FetchCreatArgs);
    us, bs := Go(us, bs, Enqueue);
  }

  lemma ToAtWorker(ss: seq<Sys>, acts: seq<Action>, ikcd: int) returns (us: seq<Sys>, bs: seq<Action>)
    requires IsRun(ss, acts) && ss[|ss| - 1] == Queued(ikcd)
    ensures IsRun(us, bs) && us[|us| - 1] == AtWorker(ikcd)
  {
    assert FirstWanted(Queued(ikcd).k, 0) == None;
    us, bs := Go(ss, acts, Scan);
    us, bs := Go(us, bs, Dequeue);
  }

  lemma ToServed(ss: seq<Sys>, acts: seq<Action>, ikcd: int, rPid: int) returns (us: seq<Sys>, bs: seq<Action>)
    requires IsRun(ss, acts) && ss[|ss| - 1] == AtWorker(ikcd)
    ensures IsRun(us, bs) && us[|us| - 1] == Served(ikcd, rPid)
  {
    us, bs := Go(ss, acts, Respond(0, rPid));
    us, bs := Go(us, bs, Test(1));
    us, bs := Go(us, bs, Return(1));
    us, bs := Resting(us, bs, ikcd, rPid);
  }

  /** The signal of the second request is still to come; nothing is found for it. */
  lemma Resting(ss: seq<Sys>, acts: seq<Action>, ikcd: int, rPid: int) returns (us: seq<Sys>, bs: seq<Action>)
    requires IsRun(ss, acts)
    requires ss[|ss| - 1] == Served(ikcd, rPid).(k := Served(ikcd, rPid).k.(sigPending := true))
    ensures IsRun(us, bs) && us[|us| - 1] == Served(ikcd, rPid)
  {
    us, bs := Go(ss, acts, Suspend);
    us, bs := Go(us, bs, Deliver);
    us, bs := Go(us, bs, TestFlag);
    us, bs := Go(us, bs, Block);
    assert us[|us| - 1] == Served(ikcd, rPid).(pc := Scanning);
    assert FirstWanted(us[|us| - 1].k, 0) == None;
    us, bs := Go(us, bs, Scan);
  }

  /** One dkm_execve from beginning to end: a task asks, the node server names another node, a worker
      there creates the process, and its pid is what the task is left with; no request, no signal and
      no flag is left over. */
  lemma ExecveIsServed(ikcd: int, rPid: int) returns (ss: seq<Sys>, acts: seq<Action>)
    requires ikcd > 1
    ensures IsRun(ss, acts) && ss[|ss| - 1] == Served(ikcd, rPid)
  {
    ss, acts := ToAsked(ikcd);
    ss, acts := ToAsking(ss, acts, ikcd);
    ss, acts := ToAskedAgain(ss, acts, ikcd);
    ss, acts := ToQueued(ss, acts, ikcd);
    ss, acts := ToAtWorker(ss, acts, ikcd);
    ss, acts := ToServed(ss, acts, ikcd, rPid);
  }
}
