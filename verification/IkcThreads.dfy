/** The requests of all threads at one in worker: their numbers decide which of them are executed. */
module IkcThreads {
  import opened IkcNumbers
  import opened IkcDedup

  /** The index-th request of a thread, as it arrives with its number. */
  datatype Sent<T, N> = Sent(thread: T, index: nat, nbr: N, pid: int)

  function Arrivals<T, N>(sent: seq<Sent<T, N>>): (run: seq<Arrival<N>>)
    ensures |run| == |sent|
    ensures forall k :: 0 <= k < |sent| ==> run[k] == Arrival(sent[k].nbr, sent[k].pid)
  {
    seq(|sent|, i requires 0 <= i < |sent| => Arrival(sent[i].nbr, sent[i].pid))
  }

  ghost predicate SameNumbers<T, N>(s: Sent<T, N>, t: Sent<T, N>) {
    s.nbr == t.nbr <==> s.thread == t.thread && Collide(s.index, t.index)
  }

  /** Numbers meet only within a thread, and there as the counter makes them. */
  ghost predicate Numbered<T, N>(sent: seq<Sent<T, N>>) {
    forall j, k :: 0 <= j < |sent| && 0 <= k < |sent| ==> SameNumbers(sent[j], sent[k])
  }

  ghost predicate CameBefore<T, N>(sent: seq<Sent<T, N>>, k: nat, i: nat)
    requires k < |sent|
  {
    exists j :: 0 <= j < k && sent[j].thread == sent[k].thread && sent[j].index == i
  }

  /** No request of a thread is lost, or overtakes an earlier one. */
  ghost predicate InOrder<T, N>(sent: seq<Sent<T, N>>) {
    forall k, i :: 0 <= k < |sent| && 0 <= i < sent[k].index ==> CameBefore(sent, k, i)
  }

  /** However the traffic is mixed, repeated, delayed or lost: a request is executed if and only if no
      request of its thread that collides with it has arrived before. */
  lemma ExecutedIffNoneCollided<T, N>(sent: seq<Sent<T, N>>, k: nat)
    requires Numbered(sent) && k < |sent|
    ensures Executed(Arrivals(sent), k) <==>
              forall j :: 0 <= j < k && sent[j].thread == sent[k].thread ==> !Collide(sent[j].index, sent[k].index)
  {
    var run := Arrivals(sent);
    ExecutedIffFirst(run, k);
    forall j | 0 <= j < k
      ensures run[j].nbr == run[k].nbr <==> sent[j].thread == sent[k].thread && Collide(sent[j].index, sent[k].index)
    {
      assert SameNumbers(sent[j], sent[k]);
    }
  }

  /** If none is lost or overtaken, the index-th request of a thread is executed when it first arrives
      if index is below 1024, and otherwise never. */
  lemma ExecutedIffAmongTheFirst1024<T, N>(sent: seq<Sent<T, N>>, k: nat)
    requires Numbered(sent) && InOrder(sent) && k < |sent|
    ensures Executed(Arrivals(sent), k) <==> sent[k].index < 1024 && !CameBefore(sent, k, sent[k].index)
  {
    ExecutedIffNoneCollided(sent, k);
    RepeatsIff(sent[k].index);
    if sent[k].index >= 1024 {
      var i :| 0 <= i < sent[k].index && Collide(i, sent[k].index);
      assert CameBefore(sent, k, i);
    } else if !CameBefore(sent, k, sent[k].index) {
      forall j | 0 <= j < k && sent[j].thread == sent[k].thread
        ensures !Collide(sent[j].index, sent[k].index)
      {
        EarlierIsSmaller(sent, j, k);
      }
    }
  }

  lemma EarlierIsSmaller<T, N>(sent: seq<Sent<T, N>>, j: nat, k: nat)
    requires InOrder(sent) && j < k < |sent| && sent[j].thread == sent[k].thread
    requires !CameBefore(sent, k, sent[k].index)
    ensures sent[j].index < sent[k].index
  {
    assert sent[k].index < sent[j].index ==> CameBefore(sent, j, sent[k].index);
    assert CameBefore(sent, j, sent[k].index) ==> CameBefore(sent, k, sent[k].index);
  }

  /** A worker thread of the cluster: the low half of its host's address, and its id there. */
  datatype Thread = Thread(host: bv16, id: bv8)

  ghost predicate RealNumber(s: Sent<Thread, bv32>) {
    s.thread.id < 64 && s.nbr == Number(s.thread.host as bv32, s.thread.id, SeqOf(s.index))
  }

  lemma RealNumbersMeet(h: bv16, t: bv8, i: nat, h': bv16, t': bv8, j: nat)
    requires h == h' && t == t' && Collide(i, j)
    ensures Number(h as bv32, t, SeqOf(i)) == Number(h' as bv32, t', SeqOf(j))
  {
    SameIdIff(i, j);
    OnlyLowBitsCount(h as bv32, t, SeqOf(i));
    OnlyLowBitsCount(h as bv32, t, SeqOf(j));
  }

  lemma SameThreadFromNumber(h: bv16, t: bv8, s: bv16, h': bv16, t': bv8, s': bv16)
    requires t < 64 && t' < 64 && Number(h as bv32, t, s) == Number(h' as bv32, t', s')
    ensures h == h' && t == t'
  {
  }

  lemma SameSeqFromNumber(h: bv16, t: bv8, s: bv16, h': bv16, t': bv8, s': bv16)
    requires Number(h as bv32, t, s) == Number(h' as bv32, t', s')
    ensures s & 0x3ff == s' & 0x3ff
  {
  }

  lemma RealNumbersMeetOnly(h: bv16, t: bv8, i: nat, h': bv16, t': bv8, j: nat)
    requires t < 64 && t' < 64
    requires Number(h as bv32, t, SeqOf(i)) == Number(h' as bv32, t', SeqOf(j))
    ensures h == h' && t == t' && Collide(i, j)
  {
    SameThreadFromNumber(h, t, SeqOf(i), h', t', SeqOf(j));
    SameSeqFromNumber(h, t, SeqOf(i), h', t', SeqOf(j));
    SameIdIff(i, j);
  }

  lemma SameNumberOnlyIf(s: Sent<Thread, bv32>, t: Sent<Thread, bv32>)
    requires RealNumber(s) && RealNumber(t) && s.nbr == t.nbr
    ensures s.thread == t.thread && Collide(s.index, t.index)
  {
    RealNumbersMeetOnly(s.thread.host, s.thread.id, s.index, t.thread.host, t.thread.id, t.index);
  }

  lemma SameNumberIfCollide(s: Sent<Thread, bv32>, t: Sent<Thread, bv32>)
    requires RealNumber(s) && RealNumber(t) && s.thread == t.thread && Collide(s.index, t.index)
    ensures s.nbr == t.nbr
  {
    RealNumbersMeet(s.thread.host, s.thread.id, s.index, t.thread.host, t.thread.id, t.index);
  }

  /** The packed numbers are such numbers, so the bound of 1024 holds of the daemons' own traffic. */
  lemma RealNumbersAreNumbered(sent: seq<Sent<Thread, bv32>>)
    requires forall k :: 0 <= k < |sent| ==> RealNumber(sent[k])
    ensures Numbered(sent)
  {
    forall j, k | 0 <= j < |sent| && 0 <= k < |sent|
      ensures SameNumbers(sent[j], sent[k])
    {
      assert RealNumber(sent[j]) && RealNumber(sent[k]);
      if sent[j].nbr == sent[k].nbr { SameNumberOnlyIf(sent[j], sent[k]); }
      if sent[j].thread == sent[k].thread && Collide(sent[j].index, sent[k].index) {
        SameNumberIfCollide(sent[j], sent[k]);
      }
    }
  }
}
