/** The backlog of answered requests: a list that grows at its head, searched by request number. */
module IkcBacklog {
  import opened Options
  import opened Lists
  import opened IkcDedup
  import opened IkcNumbers

  class IncomingRequest {
    const requestNbr: bv32
    const hostId: bv16
    const threadId: bv8
    var cliaddr: nat
    var rPid: int

    constructor (requestNbr: bv32, hostId: bv16, threadId: bv8, cliaddr: nat)
      ensures this.requestNbr == requestNbr && this.hostId == hostId && this.threadId == threadId
      ensures this.cliaddr == cliaddr && rPid == 0
    {
      this.requestNbr, this.hostId, this.threadId, this.cliaddr, rPid := requestNbr, hostId, threadId, cliaddr, 0;
    }
  }

  class Element {
    const request: IncomingRequest
    var next: Element?
    var prev: Element?

    constructor (request: IncomingRequest)
      ensures this.request == request
    {
      this.request, next, prev := request, null, null;
    }
  }

  /** What goes back to a client. */
  datatype Response = Response(to: nat, requestId: bv16, rPid: int)

  function Nth(l: seq<Element>, i: int): Element? {
    if 0 <= i < |l| then l[i] else null
  }

  ghost predicate Linked(l: seq<Element>)
    reads l
  {
    && (forall i {:trigger l[i].next} :: 0 <= i < |l| ==> l[i].next == Nth(l, i + 1))
    && (forall i {:trigger l[i].prev} :: 0 <= i < |l| ==> l[i].prev == Nth(l, i - 1))
  }

  lemma LinkedWithout(l: seq<Element>, j: nat)
    requires j < |l|
    requires forall i {:trigger l[i].next} :: 0 <= i < |l| && i != j ==>
               l[i].next == (if i == j - 1 then Nth(l, j + 1) else Nth(l, i + 1))
    requires forall i {:trigger l[i].prev} :: 0 <= i < |l| && i != j ==>
               l[i].prev == (if i == j + 1 then Nth(l, j - 1) else Nth(l, i - 1))
    ensures Linked(Without(l, j))
  {
    var m := Without(l, j);
    forall i | 0 <= i < |m|
      ensures m[i].next == Nth(m, i + 1) && m[i].prev == Nth(m, i - 1)
    {
      assert m[i] == l[if i < j then i else i + 1];
    }
  }

  class Backlog {
    var list: Element?
    ghost var elems: seq<Element>
    ghost var log: seq<Entry<bv32>>

    ghost predicate Shaped()
      reads this, elems, set e | e in elems :: e.request
    {
      && Distinct(elems) && Linked(elems) && |log| == |elems|
      && forall i {:trigger elems[i].request} :: 0 <= i < |elems| ==>
           log[i] == Entry(elems[i].request.requestNbr, elems[i].request.rPid)
    }

    ghost predicate Valid()
      reads this, elems, set e | e in elems :: e.request
    {
      list == Nth(elems, 0) && Shaped()
    }

    ghost function Requests(): set<IncomingRequest>
      reads this
    {
      set e | e in elems :: e.request
    }

    /** ikcbl_init_bl */
    constructor ()
      ensures Valid() && log == []
    {
      list := null;
      elems, log := [], [];
    }

    /** ikcbl_add_request: the newest comes first. */
    method AddRequest(request: IncomingRequest)
      requires Valid()
      modifies this, elems`prev
      ensures Valid() && Requests() == old(Requests()) + {request}
      ensures fresh((set e | e in elems) - old(set e | e in elems))
      ensures log == [Entry(request.requestNbr, request.rPid)] + old(log)
    {
      var element := new Element(request);
      if list == null {
        list := element;
        element.next, element.prev := null, null;
      } else {
        element.next := list;
        element.next.prev := element;
        element.prev := null;
        list := element;
      }
      elems, log := [element] + elems, [Entry(request.requestNbr, request.rPid)] + log;
      assert Linked(elems) by {
        forall i | 0 <= i < |elems|
          ensures elems[i].next == Nth(elems, i + 1) && elems[i].prev == Nth(elems, i - 1)
        {
          if i > 0 { assert elems[i] == old(elems)[i - 1]; }
        }
      }
    }

    /** The search loop that ikcbl_remove_request and ikcbl_try_respond_from_backlog share. */
    method Find(requestNbr: bv32) returns (toFind: Element?)
      requires Valid()
      ensures toFind == Nth(elems, Place(log, requestNbr))
    {
      toFind := list;
      ghost var i := 0;
      while toFind != null && toFind.request.requestNbr != requestNbr
        invariant 0 <= i <= |elems| && toFind == Nth(elems, i)
        invariant forall j :: 0 <= j < i ==> log[j].nbr != requestNbr
        decreases |elems| - i
      {
        assert elems[i].request == toFind.request;
        toFind := toFind.next;
        i := i + 1;
      }
      assert i < |elems| ==> elems[i].request == toFind.request;
    }

    /** ikcbl_remove_request: the head pointer is not moved, so removing the first element leaves it
        at an element that is gone, and the list is sound afterwards exactly when it was not first. */
    method RemoveRequest(requestNbr: bv32) returns (r: int)
      requires Valid()
      modifies this`elems, this`log, elems`next, elems`prev
      ensures list == old(list) && Shaped()
      ensures var k := Place(old(log), requestNbr);
              if k == |old(log)| then r == -1 && elems == old(elems) && log == old(log)
              else r == 0 && elems == Without(old(elems), k) && log == Without(old(log), k)
      ensures Valid() <==> old(log) == [] || old(log)[0].nbr != requestNbr
    {
      var toFind := Find(requestNbr);
      if toFind == null { return -1; }
      ghost var k := Place(log, requestNbr);
      Bypass(toFind, k);
      ghost var elems0, log0 := elems, log;
      elems, log := Without(elems, k), Without(log, k);
      ShapedWithout(elems0, log0, k);
      r := 0;
    }

    lemma ShapedWithout(elems0: seq<Element>, log0: seq<Entry<bv32>>, k: nat)
      requires k < |elems0| == |log0| && elems == Without(elems0, k) && log == Without(log0, k)
      requires Distinct(elems0) && Linked(elems)
      requires forall i {:trigger elems0[i].request} :: 0 <= i < |elems0| ==>
                 log0[i] == Entry(elems0[i].request.requestNbr, elems0[i].request.rPid)
      ensures Shaped()
    {
      forall i | 0 <= i < |elems|
        ensures log[i] == Entry(elems[i].request.requestNbr, elems[i].request.rPid)
      {
        assert elems[i] == elems0[if i < k then i else i + 1];
      }
    }

    /** The pointer writes of ikcbl_remove_request. */
    method Bypass(toFind: Element, ghost k: nat)
      requires Distinct(elems) && Linked(elems) && k < |elems| && elems[k] == toFind
      modifies elems`next, elems`prev
      ensures Linked(Without(elems, k))
    {
      if toFind.next != null { toFind.next.prev := toFind.prev; }
      if toFind.prev != null { toFind.prev.next := toFind.next; }
      LinkedWithout(elems, k);
    }

    /** ikcbl_try_respond_from_backlog: an answer already given is given again, to where the request
        now came from. */
    method TryRespond(request: IncomingRequest) returns (r: int, sent: Option<Response>)
      requires Valid()
      modifies Requests()`cliaddr
      ensures Valid()
      ensures var k := Place(log, request.requestNbr);
              if k == |log| then r == -1 && sent == None
              else r == 0 && sent == Some(Response(old(request.cliaddr), UnpackReqId(log[k].nbr), log[k].rPid))
                   && elems[k].request.cliaddr == old(request.cliaddr)
      ensures forall e :: e in Requests() && e.requestNbr != request.requestNbr ==> e.cliaddr == old(e.cliaddr)
    {
      var toFind := Find(request.requestNbr);
      if toFind == null { return -1, None; }
      ghost var k := Place(log, request.requestNbr);
      assert elems[k].request == toFind.request;
      toFind.request.cliaddr := request.cliaddr;
      sent := Some(Response(toFind.request.cliaddr, UnpackReqId(toFind.request.requestNbr), toFind.request.rPid));
      r := 0;
    }

    /** Does some element come from the same host or the same thread? */
    ghost predicate Akin(request: IncomingRequest)
      reads this
    {
      exists i :: 0 <= i < |elems| && (elems[i].request.hostId == request.hostId ||
                                       elems[i].request.threadId == request.threadId)
    }

    /** ikcbl_remove_threads_last_request: looks for an element of the same host or the same thread,
        and then removes, not that element, but the one with the new request's own number. */
    method RemoveThreadsLastRequest(request: IncomingRequest) returns (r: int)
      requires Valid()
      modifies this`elems, this`log, elems`next, elems`prev
      ensures list == old(list) && Shaped()
      ensures r == if old(Akin(request)) then 0 else -1
      ensures var k := Place(old(log), request.requestNbr);
              if old(Akin(request)) && k < |old(log)|
              then log == Without(old(log), k) && elems == Without(old(elems), k)
              else log == old(log) && elems == old(elems)
      ensures Valid() <==> !(old(Akin(request)) && old(log) != [] && old(log)[0].nbr == request.requestNbr)
    {
      var toFind := list;
      ghost var i := 0;
      while toFind != null && toFind.request.hostId != request.hostId && toFind.request.threadId != request.threadId
        invariant 0 <= i <= |elems| && toFind == Nth(elems, i)
        invariant forall j :: 0 <= j < i ==>
                    elems[j].request.hostId != request.hostId && elems[j].request.threadId != request.threadId
        decreases |elems| - i
      {
        toFind := toFind.next;
        i := i + 1;
      }
      if toFind == null { return -1; }
      var _ := RemoveRequest(request.requestNbr);
      r := 0;
    }

    /** The body of the in worker's loop, for a request whose execution yields pid. */
    method Serve(request: IncomingRequest, pid: int) returns (sent: Response)
      requires Valid() && request !in Requests()
      modifies this, elems, Requests()`cliaddr, request`rPid
      ensures Valid()
      ensures fresh((set e | e in elems) - old(set e | e in elems)) && Requests() <= old(Requests()) + {request}
      ensures (log, sent.rPid) == Served(old(log), request.requestNbr, pid)
      ensures sent.to == old(request.cliaddr) && sent.requestId == UnpackReqId(request.requestNbr)
    {
      var r, again := TryRespond(request);
      if r < 0 {
        var _ := RemoveThreadsLastRequest(request);
        request.rPid := pid;
        sent := Response(request.cliaddr, UnpackReqId(request.requestNbr), request.rPid);
        AddRequest(request);
      } else {
        sent := again.value;
      }
    }
  }
}
