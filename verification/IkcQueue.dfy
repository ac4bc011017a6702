/** The daemon's request queue: a doubly linked list in which the first node's prev is the last node. */
module IkcQueue {
  import opened Options
  import opened Lists

  const E_IKC_NOMEM := 1
  const E_IKC_NOQUEUE := 2

  /** A request is known here by its address. */
  type Request = nat

  class Node {
    var req: Request
    var next: Node?
    var prev: Node?

    constructor (req: Request)
      ensures this.req == req
    {
      this.req, next, prev := req, null, null;
    }
  }

  function Nth(l: seq<Node>, i: int): Node? {
    if 0 <= i < |l| then l[i] else null
  }

  /** The node that prev of the i-th one names: the last one for the first. */
  function Before(l: seq<Node>, i: nat): Node?
  {
    if i == 0 then Nth(l, |l| - 1) else Nth(l, i - 1)
  }

  ghost predicate Linked(l: seq<Node>, reqs: seq<Request>)
    reads l
  {
    && |l| == |reqs|
    && (forall i {:trigger l[i].next} :: 0 <= i < |l| ==> l[i].next == Nth(l, i + 1))
    && (forall i {:trigger l[i].prev} :: 0 <= i < |l| ==> l[i].prev == Before(l, i))
    && (forall i {:trigger l[i].req} :: 0 <= i < |l| ==> l[i].req == reqs[i])
  }

  /** s without the first x in it. */
  function RemoveFirst(s: seq<Request>, x: Request): seq<Request> {
    if s == [] then []
    else if s[0] == x then s[1..]
    else [s[0]] + RemoveFirst(s[1..], x)
  }

  lemma {:induction false} RemoveFirstAt(s: seq<Request>, j: nat, x: Request)
    requires j < |s| && s[j] == x && x !in s[..j]
    ensures RemoveFirst(s, x) == Without(s, j)
  {
    if j > 0 {
      assert s[0] == s[..j][0];
      assert s[1..][..j - 1] == s[..j][1..];
      RemoveFirstAt(s[1..], j - 1, x);
      assert Without(s, j) == [s[0]] + Without(s[1..], j - 1);
    }
  }

  lemma LinkedWithout(l: seq<Node>, reqs: seq<Request>, j: nat)
    requires |l| == |reqs| && j < |l|
    requires forall i {:trigger l[i].next} :: 0 <= i < |l| && i != j ==>
               l[i].next == (if i == j - 1 then Nth(l, j + 1) else Nth(l, i + 1))
    requires forall i {:trigger l[i].prev} :: 0 <= i < |l| && i != j ==>
               l[i].prev == (if i == j + 1 then Before(l, j)
                             else if i == 0 && j == |l| - 1 then Before(l, j) else Before(l, i))
    requires |l| > 1 && j == 0 ==> l[1].prev == l[|l| - 1]
    requires forall i {:trigger l[i].req} :: 0 <= i < |l| ==> l[i].req == reqs[i]
    ensures Linked(Without(l, j), Without(reqs, j))
  {
    var m := Without(l, j);
    forall i | 0 <= i < |m|
      ensures m[i].next == Nth(m, i + 1) && m[i].prev == Before(m, i) && m[i].req == Without(reqs, j)[i]
    {
      assert m[i] == l[if i < j then i else i + 1];
    }
  }

  lemma LinkedWith(l: seq<Node>, reqs: seq<Request>, node: Node)
    requires |l| == |reqs| && node.next == null
    requires node.prev == if l == [] then node else l[|l| - 1]
    requires forall i {:trigger l[i].next} :: 0 <= i < |l| ==>
               l[i].next == (if i == |l| - 1 then node else l[i + 1])
    requires forall i {:trigger l[i].prev} :: 0 <= i < |l| ==> l[i].prev == (if i == 0 then node else l[i - 1])
    requires forall i {:trigger l[i].req} :: 0 <= i < |l| ==> l[i].req == reqs[i]
    ensures Linked(l + [node], reqs + [node.req])
  {
    var m := l + [node];
    forall i | 0 <= i < |m|
      ensures m[i].next == Nth(m, i + 1) && m[i].prev == Before(m, i) && m[i].req == (reqs + [node.req])[i]
    {
      if i < |l| { assert m[i] == l[i]; }
    }
  }

  class QueueHead {
    var queue: Node?
    ghost var nodes: seq<Node>
    ghost var contents: seq<Request>

    ghost predicate Valid()
      reads this, nodes
    {
      queue == Nth(nodes, 0) && Distinct(nodes) && Linked(nodes, contents)
    }

    constructor ()
      ensures Valid() && contents == []
    {
      queue := null;
      nodes, contents := [], [];
    }

    /** ikcq_queue_request; `memory` says whether malloc finds room for a node. */
    method Queue(req: Request, memory: bool) returns (r: int)
      requires Valid()
      modifies this, nodes`next, nodes`prev
      ensures Valid() && fresh((set n | n in nodes) - old(set n | n in nodes))
      ensures r == if memory then 0 else -E_IKC_NOMEM
      ensures contents == if memory then old(contents) + [req] else old(contents)
    {
      if !memory { return -E_IKC_NOMEM; }
      var newQ := new Node(req);
      if queue == null {
        queue := newQ;
        newQ.prev, newQ.next := newQ, null;
      } else {
        var tail := queue.prev;
        newQ.next := tail.next;
        newQ.prev := tail;
        tail.next := newQ;
        queue.prev := newQ;
      }
      LinkedWith(nodes, contents, newQ);
      nodes, contents := nodes + [newQ], contents + [req];
      r := 0;
    }

    /** The pointer writes that ikcq_dequeue_request and ikcq_remove_request share. */
    method Unlink(node: Node, ghost j: nat)
      requires Valid() && j < |nodes| && nodes[j] == node
      modifies this, nodes`next, nodes`prev
      ensures Valid() && nodes == Without(old(nodes), j) && contents == Without(old(contents), j)
    {
      if node.next != null { node.next.prev := node.prev; }
      if node != queue { node.prev.next := node.next; }
      if node == queue.prev { queue.prev := node.prev; }
      if node == queue { queue := node.next; }
      LinkedWithout(nodes, contents, j);
      nodes, contents := Without(nodes, j), Without(contents, j);
    }

    /** ikcq_dequeue_request */
    method Dequeue() returns (r: int, req: Option<Request>)
      requires Valid()
      modifies this, nodes`next, nodes`prev
      ensures Valid() && (set n | n in nodes) <= old(set n | n in nodes)
      ensures if old(contents) == [] then r == -E_IKC_NOQUEUE && req == None && contents == []
              else r == 0 && req == Some(old(contents)[0]) && contents == old(contents)[1..]
    {
      if queue == null { return -E_IKC_NOQUEUE, None; }
      req := Some(queue.req);
      Unlink(queue, 0);
      r := 0;
    }

    /** ikcq_remove_request; on a non-empty queue its scan runs off the end unless req is there. */
    method Remove(req: Request) returns (r: int)
      requires Valid() && (contents == [] || req in contents)
      modifies this, nodes`next, nodes`prev
      ensures Valid() && (set n | n in nodes) <= old(set n | n in nodes)
      ensures r == if old(contents) == [] then -E_IKC_NOQUEUE else 0
      ensures contents == RemoveFirst(old(contents), req)
    {
      if queue == null { return -E_IKC_NOQUEUE; }
      var node, i := queue, 0;
      while node.req != req
        invariant 0 <= i < |nodes| && node == nodes[i] && req !in contents[..i] && req in contents[i..]
        decreases |nodes| - i
      {
        assert contents[..i + 1] == contents[..i] + [contents[i]];
        assert contents[i..] == [contents[i]] + contents[i + 1..];
        node := node.next;
        i := i + 1;
      }
      RemoveFirstAt(contents, i, req);
      Unlink(node, i);
      r := 0;
    }
  }

  // Runs of the queue.

  datatype Op = Put(req: Request) | Take | Cancel(req: Request)

  /** A run so far. Every request put in gets a ticket, its place in `put`, so that the same request can
      be put in again; the queue, what was taken and what was cancelled are kept as tickets. */
  datatype Log = Log(queue: seq<nat>, put: seq<Request>, taken: seq<nat>, cancelled: set<nat>)

  ghost predicate Below(tickets: seq<nat>, n: nat) {
    forall i :: 0 <= i < |tickets| ==> tickets[i] < n
  }

  ghost predicate TicketsOk(s: Log) {
    Below(s.queue, |s.put|)
  }

  /** The requests in the queue, as QueueHead.contents has them. */
  function Waiting(queue: seq<nat>, put: seq<Request>): (r: seq<Request>)
    requires Below(queue, |put|)
    ensures |r| == |queue|
    ensures forall i :: 0 <= i < |queue| ==> r[i] == put[queue[i]]
  {
    if queue == [] then [] else [put[queue[0]]] + Waiting(queue[1..], put)
  }

  /** The ticket of the first request in the queue that is req. */
  function FirstTicket(queue: seq<nat>, put: seq<Request>, req: Request): Option<nat>
    requires Below(queue, |put|)
  {
    if queue == [] then None
    else if put[queue[0]] == req then Some(queue[0])
    else FirstTicket(queue[1..], put, req)
  }

  ghost predicate Allowed(s: Log, op: Op) {
    TicketsOk(s) && (op.Cancel? ==> s.queue == [] || op.req in Waiting(s.queue, s.put))
  }

  ghost function Step(s: Log, op: Op): Log
    requires TicketsOk(s)
  {
    match op
    case Put(req) => s.(queue := s.queue + [|s.put|], put := s.put + [req])
    case Take => if s.queue == [] then s else s.(queue := s.queue[1..], taken := s.taken + [s.queue[0]])
    case Cancel(req) =>
      (match FirstTicket(s.queue, s.put, req)
       case None => s
       case Some(t) => s.(queue := RemoveFirst(s.queue, t), cancelled := s.cancelled + {t}))
  }

  lemma {:induction false} RemoveKeepsBelow(s: seq<nat>, x: nat, n: nat)
    requires Below(s, n)
    ensures Below(RemoveFirst(s, x), n)
  {
    if s != [] && s[0] != x { RemoveKeepsBelow(s[1..], x, n); }
  }

  /** On the requests in the queue a step is what the methods of QueueHead do to its contents. */
  lemma StepIsQueueOp(s: Log, op: Op)
    requires Allowed(s, op)
    ensures TicketsOk(Step(s, op))
    ensures var before, after := Waiting(s.queue, s.put), Waiting(Step(s, op).queue, Step(s, op).put);
            match op
            case Put(req) => after == before + [req]
            case Take => after == if before == [] then [] else before[1..]
            case Cancel(req) => after == RemoveFirst(before, req)
  {
    match op
    case Put(req) =>
      WaitingOfMore(s.queue, s.put, req);
    case Take =>
    case Cancel(req) =>
      CancelTakesFirst(s.queue, s.put, req);
  }

  lemma WaitingOfMore(queue: seq<nat>, put: seq<Request>, req: Request)
    requires Below(queue, |put|)
    ensures Waiting(queue + [|put|], put + [req]) == Waiting(queue, put) + [req]
  {
  }

  lemma {:induction false} CancelTakesFirst(queue: seq<nat>, put: seq<Request>, req: Request)
    requires Below(queue, |put|)
    ensures match FirstTicket(queue, put, req)
            case None => req !in Waiting(queue, put) && RemoveFirst(Waiting(queue, put), req) == Waiting(queue, put)
            case Some(t) =>
              && t in queue
              && Below(RemoveFirst(queue, t), |put|)
              && Waiting(RemoveFirst(queue, t), put) == RemoveFirst(Waiting(queue, put), req)
  {
    if queue != [] && put[queue[0]] != req {
      CancelTakesFirst(queue[1..], put, req);
      var t := FirstTicket(queue, put, req);
      if t.Some? {
        FirstTicketIs(queue, put, req);
        RemoveKeepsBelow(queue, t.value, |put|);
        assert RemoveFirst(queue, t.value) == [queue[0]] + RemoveFirst(queue[1..], t.value);
      }
    } else if queue != [] {
      RemoveKeepsBelow(queue, queue[0], |put|);
    }
  }

  lemma {:induction false} FirstTicketIs(queue: seq<nat>, put: seq<Request>, req: Request)
    requires Below(queue, |put|)
    ensures var t := FirstTicket(queue, put, req); t.Some? ==> t.value in queue && put[t.value] == req
  {
    if queue != [] && put[queue[0]] != req { FirstTicketIs(queue[1..], put, req); }
  }

  ghost predicate AllowedRun(s: Log, ops: seq<Op>)
    decreases ops
  {
    ops == [] || (Allowed(s, ops[0]) && AllowedRun(Step(s, ops[0]), ops[1..]))
  }

  ghost function Run(s: Log, ops: seq<Op>): Log
    requires AllowedRun(s, ops)
    decreases ops
  {
    if ops == [] then s else Run(Step(s, ops[0]), ops[1..])
  }

  /** s without the members of `gone`, in order. */
  ghost function Except(s: seq<Request>, gone: set<Request>): (r: seq<Request>)
    ensures forall x :: x in r <==> x in s && x !in gone
  {
    if s == [] then []
    else
      var rest := Except(s[..|s| - 1], gone);
      var x := s[|s| - 1];
      assert s == s[..|s| - 1] + [x];
      if x in gone then rest else rest + [x]
  }

  /** The tickets given out so far. */
  function Tickets(n: nat): (r: seq<nat>)
    ensures |r| == n && forall i :: 0 <= i < n ==> r[i] == i
  {
    seq(n, i => i)
  }

  /** Requests leave in the order in which they came, whatever was cancelled in between. */
  ghost predicate InOrder(s: Log) {
    && (forall t :: t in s.cancelled ==> t < |s.put|)
    && s.taken + s.queue == Except(Tickets(|s.put|), s.cancelled)
  }

  lemma {:induction false} ExceptLonger(s: seq<Request>, x: Request, gone: set<Request>)
    requires x !in gone
    ensures Except(s + [x], gone) == Except(s, gone) + [x]
  {
    assert (s + [x])[..|s|] == s;
  }

  lemma {:induction false} ExceptIsDistinct(s: seq<Request>, gone: set<Request>)
    requires Distinct(s)
    ensures Distinct(Except(s, gone))
  {
    if s != [] { ExceptIsDistinct(s[..|s| - 1], gone); }
  }

  lemma {:induction false} ExceptOneMore(s: seq<Request>, gone: set<Request>, x: Request)
    requires Distinct(s) && x !in gone
    ensures Except(s, gone + {x}) == RemoveFirst(Except(s, gone), x)
  {
    if s != [] {
      var front, y := s[..|s| - 1], s[|s| - 1];
      ExceptOneMore(front, gone, x);
      var kept := Except(front, gone);
      if y == x {
        RemoveAbsent(kept, x);
        RemoveFromBack(kept, [x], x);
        assert kept + [] == kept;
      } else if y !in gone {
        if x in kept {
          RemoveFromFront(kept, [y], x);
        } else {
          RemoveAbsent(kept, x);
          RemoveAbsent(kept + [y], x);
        }
      }
    }
  }

  lemma {:induction false} RemoveAbsent(s: seq<Request>, x: Request)
    requires x !in s
    ensures RemoveFirst(s, x) == s
  {
    if s != [] { RemoveAbsent(s[1..], x); }
  }

  lemma {:induction false} RemoveFromFront(a: seq<Request>, b: seq<Request>, x: Request)
    requires x in a
    ensures RemoveFirst(a + b, x) == RemoveFirst(a, x) + b
  {
    assert (a + b)[0] == a[0] && (a + b)[1..] == a[1..] + b;
    if a[0] != x {
      RemoveFromFront(a[1..], b, x);
      assert ([a[0]] + RemoveFirst(a[1..], x)) + b == [a[0]] + (RemoveFirst(a[1..], x) + b);
    }
  }

  lemma {:induction false} RemoveFromBack(a: seq<Request>, b: seq<Request>, x: Request)
    requires x !in a
    ensures RemoveFirst(a + b, x) == a + RemoveFirst(b, x)
  {
    if a == [] {
      assert a + b == b;
    } else {
      assert (a + b)[0] == a[0] && (a + b)[1..] == a[1..] + b;
      RemoveFromBack(a[1..], b, x);
      assert [a[0]] + (a[1..] + RemoveFirst(b, x)) == a + RemoveFirst(b, x);
    }
  }

  lemma NotInBoth(a: seq<Request>, b: seq<Request>, x: Request)
    requires Distinct(a + b) && x in b
    ensures x !in a
  {
    var j :| 0 <= j < |b| && b[j] == x;
    assert (a + b)[|a| + j] == x;
    forall i | 0 <= i < |a| ensures a[i] != x {
      assert (a + b)[i] == a[i];
    }
  }

  lemma PutKeepsOrder(s: Log, req: Request)
    requires InOrder(s) && TicketsOk(s)
    ensures InOrder(Step(s, Put(req)))
  {
    var n := |s.put|;
    assert Tickets(n + 1) == Tickets(n) + [n];
    ExceptLonger(Tickets(n), n, s.cancelled);
    assert s.taken + (s.queue + [n]) == (s.taken + s.queue) + [n];
  }

  lemma CancelKeepsOrder(s: Log, req: Request)
    requires InOrder(s) && TicketsOk(s)
    ensures InOrder(Step(s, Cancel(req)))
  {
    FirstTicketIs(s.queue, s.put, req);
    match FirstTicket(s.queue, s.put, req)
    case None =>
    case Some(t) =>
      ExceptIsDistinct(Tickets(|s.put|), s.cancelled);
      NotInBoth(s.taken, s.queue, t);
      assert t in s.taken + s.queue;
      ExceptOneMore(Tickets(|s.put|), s.cancelled, t);
      RemoveFromBack(s.taken, s.queue, t);
  }

  lemma StepKeepsOrder(s: Log, op: Op)
    requires InOrder(s) && Allowed(s, op)
    ensures InOrder(Step(s, op))
  {
    match op
    case Put(req) => PutKeepsOrder(s, req);
    case Take =>
      if s.queue != [] { assert (s.taken + [s.queue[0]]) + s.queue[1..] == s.taken + s.queue; }
    case Cancel(req) => CancelKeepsOrder(s, req);
  }

  lemma {:induction false} RunKeepsOrder(s: Log, ops: seq<Op>)
    requires InOrder(s) && AllowedRun(s, ops)
    ensures InOrder(Run(s, ops))
    decreases ops
  {
    if ops != [] {
      StepKeepsOrder(s, ops[0]);
      RunKeepsOrder(Step(s, ops[0]), ops[1..]);
    }
  }

  ghost predicate Increasing(s: seq<nat>) {
    forall i, j :: 0 <= i < j < |s| ==> s[i] < s[j]
  }

  lemma {:induction false} ExceptIsIncreasing(s: seq<nat>, gone: set<nat>)
    requires Increasing(s)
    ensures Increasing(Except(s, gone))
  {
    if s != [] {
      var front, kept := s[..|s| - 1], Except(s[..|s| - 1], gone);
      ExceptIsIncreasing(front, gone);
      forall i | 0 <= i < |kept|
        ensures kept[i] < s[|s| - 1]
      {
        assert kept[i] in front;
      }
    }
  }

  const EMPTY_LOG := Log([], [], [], {})

  /** First in, first out over every run of a new queue: what has been taken, followed by what still
      waits, goes through the tickets in the order in which they were given out, and leaves out those
      that were cancelled and no others. */
  lemma FirstInFirstOut(ops: seq<Op>)
    requires AllowedRun(EMPTY_LOG, ops)
    ensures var t := Run(EMPTY_LOG, ops);
            && Increasing(t.taken + t.queue)
            && forall k: nat :: k in t.taken + t.queue <==> k < |t.put| && k !in t.cancelled
  {
    RunKeepsOrder(EMPTY_LOG, ops);
    var t := Run(EMPTY_LOG, ops);
    ExceptIsIncreasing(Tickets(|t.put|), t.cancelled);
    forall k: nat
      ensures k in Tickets(|t.put|) <==> k < |t.put|
    {
      if k < |t.put| { assert Tickets(|t.put|)[k] == k; }
    }
  }
}
