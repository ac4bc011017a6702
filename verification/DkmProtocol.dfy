/** The request protocol between the tasks of a kernel and its daemon ikcd, as interleaved atomic
    steps. A task runs dkm_execve; the daemon runs its signal loop and drains requests; workers
    answer the queued ones. Nothing is assumed about the order in which they are scheduled. */
module DkmProtocol {
  import opened Options
  import opened Lists
  import opened DkmKernel

  /** Where a task is: outside dkm_execve; about to call do_dkmctl(DKM_DO_REQ); request visible but
      signal not sent; at the test of its sleep loop; asleep; past the loop. */
  datatype TaskPc = Idle | Ready | Posted | Testing | Asleep | Over

  /** `second` tells the PROC_CREAT_REQ call of dkm_execve from the MAP_REQ call. The rest is history:
      numbers of the current and of the mapping request, and how many this dkm_execve posted. */
  datatype Task = Task(pc: TaskPc, second: bool, serial: nat, mapSerial: nat, posts: nat)

  /** A request as DKM_GET_REQ hands it out, with its history number. */
  datatype Hold = Hold(pid: nat, serial: nat, req: int)

  /** A queued struct ikc_request. */
  datatype Request = Request(h: Hold, node: string, file: string)

  /** Where the daemon's main thread is. Looping is the top of its signal loop, outside sigsuspend;
      from Scanning on it is inside its drain. */
  datatype DaemonPc =
    | Looping
    | Suspended
    | Woken
    | Cleared
    | Scanning
    | MapArgs(h: Hold)
    | MapAsk(h: Hold, app: string)
    | MapAnswer(h: Hold, node: string)
    | CreatArgs(h: Hold)
    | CreatQueue(r: Request)

  /** `flag` is sig_usr2_flag, `blocked` the signal mask outside sigsuspend, `busy` the requests the
      workers hold. History: the next request number, all hand-outs, all answers, and for each
      mapping request what the node server was asked and said. */
  datatype Sys = Sys(
    k: Kernel, tasks: map<nat, Task>,
    pc: DaemonPc, flag: bool, blocked: bool, queue: seq<Request>, busy: seq<Request>,
    next: nat, handed: multiset<Hold>, answered: multiset<Hold>, asked: map<Hold, (string, string)>)

  function Kind(second: bool): int {
    if second then PROC_CREAT_REQ else MAP_REQ
  }

  function Holds(rs: seq<Request>): (hs: seq<Hold>)
    ensures |hs| == |rs| && forall i :: 0 <= i < |rs| ==> hs[i] == rs[i].h
  {
    seq(|rs|, i requires 0 <= i < |rs| => rs[i].h)
  }

  function DaemonHolds(pc: DaemonPc): multiset<Hold> {
    match pc
    case MapArgs(h) => multiset{h}
    case MapAsk(h, _) => multiset{h}
    case MapAnswer(h, _) => multiset{h}
    case CreatArgs(h) => multiset{h}
    case CreatQueue(r) => multiset{r.h}
    case _ => multiset{}
  }

  /** Every place a handed-out request can be in: the drain, the queue, a worker. */
  function Held(s: Sys): multiset<Hold> {
    DaemonHolds(s.pc) + multiset(Holds(s.queue)) + multiset(Holds(s.busy))
  }

  // ----- steps -----

  datatype Action =
    | Begin(p: nat, file: string, oNode: string, junk: string)
    | PostRequest(p: nat)
    | Signal(p: nat)
    | Test(p: nat)
    | Wake(p: nat)
    | Return(p: nat)
    | NewTask(p: nat)
    | ExitTask(p: nat)
    | Suspend
    | Deliver
    | OtherSignal
    | TestFlag
    | Block
    | Scan
    | FetchMapArgs
    | AskNode(node: string)
    | AnswerMap
    | FetchCreatArgs
    | Enqueue
    | Dequeue
    | Respond(i: nat, rPid: int)

  predicate AtTask(s: Sys, p: nat, pc: TaskPc) {
    p in s.tasks && p in s.k.dkm && s.tasks[p].pc == pc
  }

  predicate Enabled(s: Sys, a: Action) {
    match a
    case Begin(p, _, _, _) => AtTask(s, p, Idle)
    case PostRequest(p) => AtTask(s, p, Ready)
    case Signal(p) => AtTask(s, p, Posted)
    case Test(p) => AtTask(s, p, Testing)
    case Wake(p) => AtTask(s, p, Asleep)
    case Return(p) => AtTask(s, p, Over)
    case NewTask(p) => p !in s.tasks && p !in s.k.dkm && p != s.k.ikcdPid
    case ExitTask(p) => AtTask(s, p, Idle)
    case Suspend => s.pc == Looping
    case Deliver => s.k.sigPending && (s.pc == Suspended || !s.blocked)
    case OtherSignal => s.pc == Suspended
    case TestFlag => s.pc == Woken
    case Block => s.pc == Cleared
    case Scan => s.pc == Scanning
    case FetchMapArgs => s.pc.MapArgs?
    case AskNode(_) => s.pc.MapAsk?
    case AnswerMap => s.pc.MapAnswer?
    case FetchCreatArgs => s.pc.CreatArgs?
    case Enqueue => s.pc.CreatQueue?
    case Dequeue => s.queue != []
    case Respond(i, _) => i < |s.busy|
  }

  function SetTask(s: Sys, p: nat, t: Task): Sys {
    s.(tasks := s.tasks[p := t])
  }

  function IdleDkm(): Dkm {
    Dkm(0, REQ_NOT_IN_PROGRESS, DKM_NOP, "", "", "", 0)
  }

  /** wake_up_interruptible on the one wait queue all requesters share. */
  function WakeAll(tasks: map<nat, Task>): map<nat, Task> {
    map p | p in tasks :: if tasks[p].pc == Asleep then tasks[p].(pc := Testing) else tasks[p]
  }

  /** A response: unless DKM_PUT_RESP fails, it is recorded and the sleepers wake up. */
  function Responded(s: Sys, h: Hold, result: (Kernel, int)): Sys {
    if result.1 != 0 then s
    else s.(k := result.0, tasks := WakeAll(s.tasks), answered := s.answered + multiset{h})
  }

  function Next(s: Sys, a: Action): Sys
    requires Enabled(s, a)
  {
    match a
    case Begin(p, file, oNode, junk) =>
      var d := s.k.dkm[p].(fileName := file, oNode := oNode, rNode := junk, req := MAP_REQ);
      SetTask(s.(k := SetDkm(s.k, p, d)), p, s.tasks[p].(pc := Ready, second := false, posts := 0))
    case PostRequest(p) =>
      var t := s.tasks[p];
      var t' := t.(pc := Posted, serial := s.next, posts := t.posts + 1,
                   mapSerial := if t.second then t.mapSerial else s.next);
      SetTask(s.(k := Post(s.k, p).0, next := s.next + 1), p, t')
    case Signal(p) => SetTask(s.(k := SendSignal(s.k)), p, s.tasks[p].(pc := Testing))
    case Test(p) => SetTask(s, p, s.tasks[p].(pc := if s.k.dkm[p].pending != 0 then Asleep else Over))
    case Wake(p) => SetTask(s, p, s.tasks[p].(pc := Testing))
    case Return(p) =>
      var d, t := s.k.dkm[p], s.tasks[p];
      if !t.second && d.rNode != d.oNode
      then SetTask(s.(k := SetDkm(s.k, p, d.(req := PROC_CREAT_REQ))), p, t.(pc := Ready, second := true))
      else SetTask(s.(k := SetDkm(s.k, p, d.(req := DKM_NOP))), p, t.(pc := Idle))
    case NewTask(p) =>
      SetTask(s.(k := s.k.(order := s.k.order + [p], dkm := s.k.dkm[p := IdleDkm()])), p, Task(Idle, false, 0, 0, 0))
    case ExitTask(p) => s.(tasks := s.tasks - {p}, k := s.k.(dkm := s.k.dkm - {p}))
    case Suspend => s.(pc := Suspended)
    case Deliver =>
      s.(k := s.k.(sigPending := false), flag := true, pc := if s.pc == Suspended then Woken else s.pc)
    case OtherSignal => s.(pc := Woken)
    case TestFlag => if s.flag then s.(pc := Cleared, flag := false) else s.(pc := Looping)
    case Block => s.(pc := Scanning, blocked := true)
    case Scan => ScanNext(s)
    case FetchMapArgs =>
      (match GetArgs(s.k, s.pc.h.pid, s.pc.h.req)
       case None => s.(pc := MapAsk(s.pc.h, ""))
       case Some(args) => s.(pc := MapAsk(s.pc.h, args.1)))
    case AskNode(node) =>
      s.(pc := MapAnswer(s.pc.h, node), asked := s.asked[s.pc.h := (s.pc.app, node)])
    case AnswerMap => Responded(s, s.pc.h, PutNode(s.k, s.pc.h.pid, s.pc.node)).(pc := Scanning)
    case FetchCreatArgs =>
      (match GetArgs(s.k, s.pc.h.pid, s.pc.h.req)
       case None => s.(pc := CreatQueue(Request(s.pc.h, "", "")))
       case Some(args) => s.(pc := CreatQueue(Request(s.pc.h, args.0, args.1))))
    case Enqueue => s.(pc := Scanning, queue := s.queue + [s.pc.r])
    case Dequeue => s.(queue := s.queue[1..], busy := s.busy + [s.queue[0]])
    case Respond(i, rPid) =>
      var h := s.busy[i].h;
      Responded(s, h, PutPid(s.k, h.pid, rPid)).(busy := Without(s.busy, i))
  }

  /** DKM_GET_REQ in the drain, and the switch on what it handed out. */
  function ScanNext(s: Sys): Sys {
    var (k, found) := GetReq(s.k);
    match found
    case None => s.(pc := Looping)
    case Some(f) =>
      var h := Hold(f.0, if f.0 in s.tasks then s.tasks[f.0].serial else 0, f.1);
      s.(k := k, handed := s.handed + multiset{h},
         pc := if f.1 == MAP_REQ then MapArgs(h) else CreatArgs(h))
  }

  // ----- runs -----

  /** Just registered, no task yet; tasks come and go by NewTask and ExitTask. */
  predicate Initial(s: Sys) {
    && s.k.ikcdPid > 0 && s.k.order == [] && s.k.dkm == map[] && !s.k.sigPending
    && s.tasks == map[] && s.pc == Looping && !s.flag && !s.blocked
    && s.queue == [] && s.busy == [] && s.next == 0
    && s.handed == multiset{} && s.answered == multiset{} && s.asked == map[]
  }

  ghost predicate IsStep(ss: seq<Sys>, acts: seq<Action>, i: nat)
    requires i < |acts| < |ss|
  {
    Enabled(ss[i], acts[i]) && ss[i + 1] == Next(ss[i], acts[i])
  }

  ghost predicate IsRun(ss: seq<Sys>, acts: seq<Action>) {
    && |ss| == |acts| + 1 && Initial(ss[0])
    && forall i :: 0 <= i < |acts| ==> IsStep(ss, acts, i)
  }

  // ----- the invariant -----

  function CurrentHold(s: Sys, p: nat): Hold
    requires p in s.tasks
  {
    Hold(p, s.tasks[p].serial, Kind(s.tasks[p].second))
  }

  predicate Outstanding(t: Task) {
    t.pc == Posted || t.pc == Testing || t.pc == Asleep || t.pc == Over
  }

  /** A posted request is waiting to be handed out, handed out and held in some place, or answered;
      an answered mapping carries what the node server said about this task's own file name. */
  ghost predicate RequestState(s: Sys, p: nat)
    requires p in s.tasks && p in s.k.dkm
  {
    var t, d, h := s.tasks[p], s.k.dkm[p], CurrentHold(s, p);
    if d.pending == 0 then
      h in s.answered && (!t.second ==> h in s.asked && s.asked[h] == (d.fileName, d.rNode))
    else
      && d.pending == 1
      && (d.state == REQ_IN_DO_REQ || d.state == REQ_IN_GET_REQ)
      && (d.state == REQ_IN_DO_REQ ==> h !in s.handed)
      && (d.state == REQ_IN_GET_REQ ==> h in Held(s))
  }

  ghost predicate TaskOk(s: Sys, p: nat)
    requires p in s.tasks
  {
    && p in s.k.dkm && p in s.k.order && p != s.k.ikcdPid
    && var t, d := s.tasks[p], s.k.dkm[p];
       && (t.pc == Idle ==> d.req == DKM_NOP && d.pending == 0)
       && (t.pc == Ready ==> d.req == Kind(t.second) && d.pending == 0 && t.posts == (if t.second then 1 else 0))
       && (Outstanding(t) ==>
             && d.req == Kind(t.second)
             && t.posts == (if t.second then 2 else 1)
             && t.serial < s.next
             && (!t.second ==> t.mapSerial == t.serial)
             && RequestState(s, p))
       && (t.pc == Over ==> d.pending == 0)
       && (t.pc == Asleep ==> d.pending == 1)
       && (t.pc != Idle && t.second ==>
             && d.rNode != d.oNode
             && Hold(p, t.mapSerial, MAP_REQ) in s.asked
             && s.asked[Hold(p, t.mapSerial, MAP_REQ)] == (d.fileName, d.rNode))
  }

  /** A held request belongs to a task that still waits for exactly this request. */
  ghost predicate HoldOk(s: Sys, h: Hold) {
    && h.pid in s.tasks && h.pid in s.k.dkm
    && h == CurrentHold(s, h.pid)
    && Outstanding(s.tasks[h.pid]) && s.tasks[h.pid].pc != Over
    && s.k.dkm[h.pid].pending == 1 && s.k.dkm[h.pid].state == REQ_IN_GET_REQ
    && s.k.dkm[h.pid].req == h.req
  }

  /** A request on its way to a remote kernel carries its own task's node and file. */
  ghost predicate RequestOk(s: Sys, r: Request) {
    && r.h.pid in s.k.dkm && r.h.req == PROC_CREAT_REQ
    && r.node == s.k.dkm[r.h.pid].rNode && r.file == s.k.dkm[r.h.pid].fileName
  }

  ghost predicate DaemonOk(s: Sys) {
    match s.pc
    case MapArgs(h) => h.req == MAP_REQ
    case MapAsk(h, app) => h.req == MAP_REQ && h.pid in s.k.dkm && app == s.k.dkm[h.pid].fileName
    case MapAnswer(h, node) =>
      h.req == MAP_REQ && h.pid in s.k.dkm && h in s.asked && s.asked[h] == (s.k.dkm[h.pid].fileName, node)
    case CreatArgs(h) => h.req == PROC_CREAT_REQ
    case CreatQueue(r) => RequestOk(s, r)
    case _ => true
  }

  /** The tasks whose request is visible, whose signal has been sent, and which nobody has taken. */
  ghost predicate Waiting(s: Sys, p: nat) {
    && p in s.tasks && p in s.k.dkm
    && (s.tasks[p].pc == Testing || s.tasks[p].pc == Asleep)
    && s.k.dkm[p].pending == 1 && s.k.dkm[p].state == REQ_IN_DO_REQ
  }

  predicate Draining(pc: DaemonPc) {
    pc != Looping && pc != Suspended && pc != Woken && pc != Cleared
  }

  /** The daemon is bound to look before it sleeps for good. */
  predicate WillLook(s: Sys) {
    s.k.sigPending || Draining(s.pc) || s.pc == Cleared || (s.flag && s.pc == Woken)
  }

  /** A signal that was delivered outside sigsuspend, before the mask was first set. */
  predicate EarlySignal(s: Sys) {
    s.flag && !s.blocked && (s.pc == Looping || s.pc == Suspended)
  }

  /** While a posted and signalled request is waiting, the daemon will look. */
  ghost predicate NoneForgotten(s: Sys) {
    (exists p :: Waiting(s, p)) ==> WillLook(s) || EarlySignal(s)
  }

  ghost predicate RequestsOk(s: Sys, queue: seq<Request>, busy: seq<Request>) {
    && (forall i :: 0 <= i < |queue| ==> RequestOk(s, queue[i]))
    && (forall i :: 0 <= i < |busy| ==> RequestOk(s, busy[i]))
  }

  ghost predicate Conserved(s: Sys) {
    && s.handed == s.answered + Held(s)
    && forall h {:trigger s.handed[h]} :: s.handed[h] <= 1 && (h in s.handed ==> h.serial < s.next)
  }

  ghost predicate Inv(s: Sys) {
    && s.k.ikcdPid > 0
    && s.tasks.Keys == s.k.dkm.Keys
    && (forall p {:trigger TaskOk(s, p)} :: p in s.tasks ==> TaskOk(s, p))
    && (forall h {:trigger HoldOk(s, h)} :: h in Held(s) ==> HoldOk(s, h))
    && RequestsOk(s, s.queue, s.busy)
    && DaemonOk(s)
    && Conserved(s)
    && NoneForgotten(s)
    && (Draining(s.pc) ==> s.blocked)
  }
}
