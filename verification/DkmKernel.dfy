/** The kernel side of the request protocol: what do_dkmctl does to the dkm fields of the tasks, as
    functions on kernel states, and as the imperative commands themselves. */
module DkmKernel {
  import opened Options

  // request types
  const DKM_NOP := 0
  const MAP_REQ := 1
  const PROC_CREAT_REQ := 10
  const DKM_MIN_REQ := 1
  const DKM_MAX_REQ := 10

  // request states
  const REQ_NOT_IN_PROGRESS := 0
  const REQ_IN_GET_REQ := 1
  const REQ_IN_DO_REQ := 4

  /** struct dkm_struct */
  datatype Dkm = Dkm(pending: int, state: int, req: int, fileName: string, oNode: string, rNode: string, rPid: int)

  /** The task list in for_each_task order, the dkm fields of the tasks that have them, the daemon's
      pid, and whether SIGUSR2 is pending for it. */
  datatype Kernel = Kernel(order: seq<nat>, dkm: map<nat, Dkm>, ikcdPid: int, sigPending: bool)

  predicate Wanted(k: Kernel, pid: nat) {
    pid in k.dkm
    && var d := k.dkm[pid];
       d.pending == 1 && d.state == REQ_IN_DO_REQ && DKM_MIN_REQ <= d.req <= DKM_MAX_REQ
  }

  /** The first task on the list with a request nobody has taken yet. */
  function FirstWanted(k: Kernel, from: nat): Option<nat>
    requires from <= |k.order|
    decreases |k.order| - from
  {
    if from == |k.order| then None
    else if Wanted(k, k.order[from]) then Some(k.order[from])
    else FirstWanted(k, from + 1)
  }

  lemma {:induction false} FirstWantedFinds(k: Kernel, from: nat)
    requires from <= |k.order|
    ensures var r := FirstWanted(k, from);
            if r == None then forall i :: from <= i < |k.order| ==> !Wanted(k, k.order[i])
            else Wanted(k, r.value) && r.value in k.order
    decreases |k.order| - from
  {
    if from < |k.order| && !Wanted(k, k.order[from]) { FirstWantedFinds(k, from + 1); }
  }

  function SetDkm(k: Kernel, pid: nat, d: Dkm): Kernel {
    k.(dkm := k.dkm[pid := d])
  }

  /** DKM_GET_REQ: hands out at most one request and marks it taken. */
  function GetReq(k: Kernel): (Kernel, Option<(nat, int)>) {
    FirstWantedFinds(k, 0);
    match FirstWanted(k, 0)
    case None => (k, None)
    case Some(pid) => (SetDkm(k, pid, k.dkm[pid].(state := REQ_IN_GET_REQ)), Some((pid, k.dkm[pid].req)))
  }

  /** The request handed out is that of the first task on the list that has one, it is the only thing
      that changes, and it is not found again. */
  lemma GetReqTakesFirst(k: Kernel)
    ensures match GetReq(k).1
            case None =>
              GetReq(k).0 == k && forall i :: 0 <= i < |k.order| ==> !Wanted(k, k.order[i])
            case Some(found) =>
              && (exists i :: 0 <= i < |k.order| && k.order[i] == found.0 && Wanted(k, k.order[i]) &&
                    forall j :: 0 <= j < i ==> !Wanted(k, k.order[j]))
              && found.1 == k.dkm[found.0].req
              && GetReq(k).0 == k.(dkm := k.dkm[found.0 := k.dkm[found.0].(state := REQ_IN_GET_REQ)])
              && !Wanted(GetReq(k).0, found.0)
  {
    FirstWantedFinds(k, 0);
    if FirstWanted(k, 0).Some? { var i := FirstWantedAt(k, 0); }
  }

  lemma {:induction false} FirstWantedAt(k: Kernel, from: nat) returns (i: nat)
    requires from <= |k.order| && FirstWanted(k, from).Some?
    ensures from <= i < |k.order| && k.order[i] == FirstWanted(k, from).value && Wanted(k, k.order[i])
    ensures forall j :: from <= j < i ==> !Wanted(k, k.order[j])
    decreases |k.order| - from
  {
    if Wanted(k, k.order[from]) {
      i := from;
    } else {
      i := FirstWantedAt(k, from + 1);
    }
  }

  /** DKM_GET_ARGS: the file name for a mapping, node and file name for a remote process. */
  function GetArgs(k: Kernel, pid: nat, req: int): Option<(string, string)> {
    if pid !in k.dkm || k.dkm[pid].req != req then None
    else Some((k.dkm[pid].rNode, k.dkm[pid].fileName))
  }

  function Answered(d: Dkm): Dkm {
    d.(pending := 0, state := REQ_NOT_IN_PROGRESS)
  }

  /** DKM_PUT_RESP for a mapping: the node is stored and the request is over; -1 if the task is gone
      or posted something else. */
  function PutNode(k: Kernel, pid: nat, node: string): (Kernel, int) {
    if pid !in k.dkm || k.dkm[pid].req != MAP_REQ then (k, -1)
    else (SetDkm(k, pid, Answered(k.dkm[pid].(rNode := node))), 0)
  }

  /** DKM_PUT_RESP for a remote process. */
  function PutPid(k: Kernel, pid: nat, rPid: int): (Kernel, int) {
    if pid !in k.dkm || k.dkm[pid].req != PROC_CREAT_REQ then (k, -1)
    else (SetDkm(k, pid, Answered(k.dkm[pid].(rPid := rPid))), 0)
  }

  /** The first half of DKM_DO_REQ: checks, and the request becomes visible to DKM_GET_REQ. */
  function Post(k: Kernel, pid: nat): (Kernel, int) {
    if pid !in k.dkm || pid == k.ikcdPid || !(DKM_MIN_REQ <= k.dkm[pid].req <= DKM_MAX_REQ) || k.ikcdPid <= 0 then (k, -1)
    else (SetDkm(k, pid, k.dkm[pid].(pending := 1, state := REQ_IN_DO_REQ)), 0)
  }

  /** send_sig_info(SIGUSR2): signals of one number do not queue up. */
  function SendSignal(k: Kernel): Kernel {
    k.(sigPending := true)
  }

  /** The same commands as they run. */
  class DkmState {
    var order: seq<nat>
    var dkm: map<nat, Dkm>
    var ikcdPid: int
    var sigPending: bool

    ghost function Value(): Kernel
      reads this
    {
      Kernel(order, dkm, ikcdPid, sigPending)
    }

    constructor ()
      ensures Value() == Kernel([], map[], -1, false)
    {
      order, dkm, ikcdPid, sigPending := [], map[], -1, false;
    }

    /** DKM_IKCD_REG: from now on everybody but the daemon can post requests. */
    method RegisterIkcd(pid: int)
      modifies this`ikcdPid
      ensures Value() == old(Value()).(ikcdPid := pid)
      ensures forall p :: p in dkm && DKM_MIN_REQ <= dkm[p].req <= DKM_MAX_REQ ==>
                (Post(Value(), p).1 == 0 <==> pid > 0 && p != pid)
    {
      ikcdPid := pid;
    }

    /** Has this task posted a request that nobody has taken? */
    ghost predicate Asks(pid: nat)
      reads this
    {
      && pid in dkm && dkm[pid].pending == 1 && dkm[pid].state == REQ_IN_DO_REQ
      && DKM_MIN_REQ <= dkm[pid].req <= DKM_MAX_REQ
    }

    /** DKM_GET_REQ: arg0 and arg1 of the first task that asks, or -1 twice and the result 1. */
    method DoGetReq() returns (pid: int, req: int, error: int)
      modifies this`dkm
      ensures error == 0 ==>
                && (exists i :: 0 <= i < |order| && order[i] == pid && old(Asks(order[i])) &&
                      forall j :: 0 <= j < i ==> !old(Asks(order[j])))
                && req == old(dkm)[pid].req
                && dkm == old(dkm)[pid := old(dkm)[pid].(state := REQ_IN_GET_REQ)]
      ensures error != 0 ==>
                && error == 1 && pid == -1 && req == -1 && dkm == old(dkm)
                && forall j :: 0 <= j < |order| ==> !old(Asks(order[j]))
      ensures match GetReq(old(Value())).1
              case None => pid == -1 && req == -1 && error == 1 && dkm == old(dkm)
              case Some(found) => pid == found.0 && req == found.1 && error == 0
      ensures Value() == GetReq(old(Value())).0
    {
      ghost var k := Value();
      var i := 0;
      while i < |order|
        invariant 0 <= i <= |order| && Value() == k
        invariant FirstWanted(k, i) == FirstWanted(k, 0)
        invariant forall j :: 0 <= j < i ==> !Asks(order[j])
      {
        var task := order[i];
        if task in dkm && dkm[task].pending == 1 && dkm[task].state == REQ_IN_DO_REQ
           && dkm[task].req >= DKM_MIN_REQ && dkm[task].req <= DKM_MAX_REQ {
          assert Asks(order[i]);
          pid, req, error := task, dkm[task].req, 0;
          dkm := dkm[task := dkm[task].(state := REQ_IN_GET_REQ)];
          return;
        }
        i := i + 1;
      }
      pid, req, error := -1, -1, 1;
    }

    /** DKM_GET_ARGS; copies nothing when the task is gone or posted something else. */
    method DoGetArgs(pid: nat, req: int) returns (error: int, node: string, file: string)
      ensures error == if pid in dkm && dkm[pid].req == req then 0 else -1
      ensures error == 0 && req == MAP_REQ ==> file == dkm[pid].fileName
      ensures error == 0 && req == PROC_CREAT_REQ ==> node == dkm[pid].rNode && file == dkm[pid].fileName
      ensures match GetArgs(Value(), pid, req)
              case None => error == -1
              case Some(args) => error == 0 && (req == MAP_REQ ==> file == args.1) &&
                                 (req == PROC_CREAT_REQ ==> (node, file) == args)
    {
      error, node, file := 0, "", "";
      if pid !in dkm || dkm[pid].req != req { return -1, "", ""; }
      if req == MAP_REQ {
        file := dkm[pid].fileName;
      } else if req == PROC_CREAT_REQ {
        node, file := dkm[pid].rNode, dkm[pid].fileName;
      }
    }

    /** DKM_PUT_RESP; arg0 is the node for a mapping and the remote pid for a process. */
    method DoPutResp(pid: nat, req: int, node: string, rPid: int) returns (error: int)
      modifies this`dkm
      ensures error == if pid in old(dkm) && old(dkm)[pid].req == req && (req == MAP_REQ || req == PROC_CREAT_REQ)
                       then 0 else -1
      ensures error != 0 ==> dkm == old(dkm)
      ensures error == 0 ==>
                && dkm.Keys == old(dkm).Keys
                && dkm[pid].pending == 0 && dkm[pid].state == REQ_NOT_IN_PROGRESS
                && dkm[pid].rNode == (if req == MAP_REQ then node else old(dkm)[pid].rNode)
                && dkm[pid].rPid == (if req == PROC_CREAT_REQ then rPid else old(dkm)[pid].rPid)
                && dkm[pid].req == req && dkm[pid].fileName == old(dkm)[pid].fileName
                && dkm[pid].oNode == old(dkm)[pid].oNode
                && forall p :: p in dkm && p != pid ==> dkm[p] == old(dkm)[p]
      ensures req == MAP_REQ ==> (Value(), error) == PutNode(old(Value()), pid, node)
      ensures req == PROC_CREAT_REQ ==> (Value(), error) == PutPid(old(Value()), pid, rPid)
      ensures req != MAP_REQ && req != PROC_CREAT_REQ ==> Value() == old(Value()) && error == -1
    {
      if pid !in dkm || dkm[pid].req != req { return -1; }
      if req == MAP_REQ {
        dkm := dkm[pid := dkm[pid].(rNode := node)];
      } else if req == PROC_CREAT_REQ {
        dkm := dkm[pid := dkm[pid].(rPid := rPid)];
      } else {
        return -1;
      }
      dkm := dkm[pid := dkm[pid].(pending := 0)];
      dkm := dkm[pid := dkm[pid].(state := REQ_NOT_IN_PROGRESS)];
      assert dkm == old(dkm)[pid := dkm[pid]];
      error := 0;
    }

    /** DKM_DO_REQ up to the first sleep. */
    method DoReqUntilSleep(current: nat) returns (error: int)
      requires current in dkm
      modifies this`dkm, this`sigPending
      ensures error == if current != ikcdPid && DKM_MIN_REQ <= old(dkm)[current].req <= DKM_MAX_REQ && ikcdPid > 0
                       then 0 else -1
      ensures error != 0 ==> dkm == old(dkm) && sigPending == old(sigPending)
      ensures error == 0 ==>
                sigPending && dkm == old(dkm)[current := old(dkm)[current].(pending := 1, state := REQ_IN_DO_REQ)]
      ensures error == Post(old(Value()), current).1
      ensures Value() == if error == 0 then SendSignal(Post(old(Value()), current).0) else old(Value())
    {
      if current == ikcdPid || dkm[current].req < DKM_MIN_REQ || dkm[current].req > DKM_MAX_REQ { return -1; }
      if ikcdPid > 0 {
        dkm := dkm[current := dkm[current].(pending := 1)];
        dkm := dkm[current := dkm[current].(state := REQ_IN_DO_REQ)];
        sigPending := true;
        error := 0;
      } else {
        error := -1;
      }
    }
  }
}
