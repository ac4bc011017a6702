/** Runs of one in worker: what is executed, what is answered, and what the request numbers make of a
    thread's requests. */
module IkcDedup {

  /** What the backlog remembers of a request with a number of type N. */
  datatype Entry<N> = Entry(nbr: N, rPid: int)

  /** The place of the first entry with this number, or the length if there is none. */
  function Place<N(==)>(log: seq<Entry<N>>, nbr: N): (k: nat)
    ensures k <= |log|
    ensures forall i :: 0 <= i < k ==> log[i].nbr != nbr
    ensures k < |log| ==> log[k].nbr == nbr
  {
    if log == [] || log[0].nbr == nbr then 0 else 1 + Place(log[1..], nbr)
  }

  /** What serving one request does: the backlog after it, and the pid that is sent back. */
  function Served<N(==)>(log: seq<Entry<N>>, nbr: N, pid: int): (seq<Entry<N>>, int) {
    var k := Place(log, nbr);
    if k < |log| then (log, log[k].rPid) else ([Entry(nbr, pid)] + log, pid)
  }

  /** A request that arrives, and the pid that executing it would give. */
  datatype Arrival<N> = Arrival(nbr: N, pid: int)

  /** The backlog once all of these have been served. */
  function LogAfter<N(==)>(run: seq<Arrival<N>>): seq<Entry<N>> {
    if run == [] then []
    else
      var last := run[|run| - 1];
      Served(LogAfter(run[..|run| - 1]), last.nbr, last.pid).0
  }

  ghost predicate Executed<N>(run: seq<Arrival<N>>, k: nat)
    requires k < |run|
  {
    Place(LogAfter(run[..k]), run[k].nbr) == |LogAfter(run[..k])|
  }

  function Answer<N(==)>(run: seq<Arrival<N>>, k: nat): int
    requires k < |run|
  {
    Served(LogAfter(run[..k]), run[k].nbr, run[k].pid).1
  }

  /** The k-th arrival is the first with its number. */
  ghost predicate IsFirst<N>(run: seq<Arrival<N>>, k: nat)
    requires k < |run|
  {
    forall j :: 0 <= j < k ==> run[j].nbr != run[k].nbr
  }

  ghost predicate FromAFirst<N>(run: seq<Arrival<N>>, e: Entry<N>) {
    exists k :: 0 <= k < |run| && IsFirst(run, k) && e == Entry(run[k].nbr, run[k].pid)
  }

  /** Each entry comes from the first arrival of its number, and each number that arrived has one. */
  ghost predicate Faithful<N>(log: seq<Entry<N>>, run: seq<Arrival<N>>) {
    && (forall i :: 0 <= i < |log| ==> FromAFirst(run, log[i]))
    && (forall k :: 0 <= k < |run| ==> Place(log, run[k].nbr) < |log|)
    && (forall i, j :: 0 <= i < j < |log| ==> log[i].nbr != log[j].nbr)
  }

  lemma {:induction false} LogIsFaithful<N>(run: seq<Arrival<N>>)
    ensures Faithful(LogAfter(run), run)
  {
    if run != [] {
      var n := |run| - 1;
      LogIsFaithful(run[..n]);
      EntriesStayFirsts(LogAfter(run[..n]), run, n);
      NumbersStayKnown(LogAfter(run[..n]), run, n);
    }
  }

  lemma EntriesStayFirsts<N>(log: seq<Entry<N>>, run: seq<Arrival<N>>, n: nat)
    requires n + 1 == |run| && Faithful(log, run[..n])
    ensures forall e :: e in Served(log, run[n].nbr, run[n].pid).0 ==> FromAFirst(run, e)
  {
    var was := run[..n];
    forall i | 0 <= i < |log|
      ensures FromAFirst(run, log[i])
    {
      assert FromAFirst(was, log[i]);
      var k :| 0 <= k < n && IsFirst(was, k) && log[i] == Entry(was[k].nbr, was[k].pid);
      assert IsFirst(run, k);
    }
    if Place(log, run[n].nbr) == |log| {
      forall j | 0 <= j < n
        ensures run[j].nbr != run[n].nbr
      {
        assert Place(log, was[j].nbr) < |log|;
      }
      assert IsFirst(run, n);
    }
  }

  lemma NumbersStayKnown<N>(log: seq<Entry<N>>, run: seq<Arrival<N>>, n: nat)
    requires n + 1 == |run| && Faithful(log, run[..n])
    ensures var log' := Served(log, run[n].nbr, run[n].pid).0;
            && (forall k :: 0 <= k < |run| ==> Place(log', run[k].nbr) < |log'|)
            && (forall i, j :: 0 <= i < j < |log'| ==> log'[i].nbr != log'[j].nbr)
  {
    var was, log' := run[..n], Served(log, run[n].nbr, run[n].pid).0;
    assert log' == log || log'[1..] == log;
    forall k | 0 <= k < |run|
      ensures Place(log', run[k].nbr) < |log'|
    {
      if k < n { assert was[k] == run[k] && Place(log, was[k].nbr) < |log|; }
    }
  }

  /** A request is executed exactly when its number has not come before. */
  lemma ExecutedIffFirst<N>(run: seq<Arrival<N>>, k: nat)
    requires k < |run|
    ensures Executed(run, k) <==> IsFirst(run, k)
  {
    var was, log := run[..k], LogAfter(run[..k]);
    LogIsFaithful(was);
    var p := Place(log, run[k].nbr);
    if p < |log| {
      assert FromAFirst(was, log[p]);
      var j :| 0 <= j < k && IsFirst(was, j) && log[p] == Entry(was[j].nbr, was[j].pid);
      assert run[j].nbr == run[k].nbr;
    }
    if !IsFirst(run, k) {
      var j :| 0 <= j < k && run[j].nbr == run[k].nbr;
      assert Place(log, was[j].nbr) < |log|;
    }
  }

  /** Every answer carries the pid of the first execution of its number. */
  lemma AnswerIsTheFirstOnes<N>(run: seq<Arrival<N>>, f: nat, k: nat)
    requires f <= k < |run| && run[f].nbr == run[k].nbr && IsFirst(run, f)
    ensures Answer(run, k) == run[f].pid && Executed(run, f) && (Executed(run, k) <==> f == k)
  {
    ExecutedIffFirst(run, f);
    ExecutedIffFirst(run, k);
    if f < k {
      var was, log := run[..k], LogAfter(run[..k]);
      LogIsFaithful(was);
      var p := Place(log, run[k].nbr);
      assert was[f] == run[f] && p < |log| && FromAFirst(was, log[p]);
      var j :| 0 <= j < k && IsFirst(was, j) && log[p] == Entry(was[j].nbr, was[j].pid);
      assert j == f;
    }
  }

  ghost function Executions<N>(run: seq<Arrival<N>>): nat {
    if run == [] then 0
    else Executions(run[..|run| - 1]) + if Executed(run, |run| - 1) then 1 else 0
  }

  /** Nothing is ever evicted: the backlog is as long as the number of requests executed. */
  lemma {:induction false} BacklogOnlyGrows<N>(run: seq<Arrival<N>>)
    ensures |LogAfter(run)| == Executions(run)
  {
    if run != [] { BacklogOnlyGrows(run[..|run| - 1]); }
  }
}
