/** get_pid: a counter with a cached interval of ids known to be free. */
module PidAlloc {

  const PID_MAX := 0x8000

  datatype Task = Task(pid: int, pgrp: int, session: int)

  predicate Uses(t: Task, id: int) {
    t.pid == id || t.pgrp == id || t.session == id
  }

  predicate Used(ts: seq<Task>, id: int) {
    exists i :: 0 <= i < |ts| && Uses(ts[i], id)
  }

  /** No id of any task lies strictly between the last pid and the next one not known to be safe. */
  ghost predicate Window(ts: seq<Task>, last: int, safe: int) {
    && 0 <= last < safe <= PID_MAX
    && last < PID_MAX
    && forall id :: last < id < safe ==> !Used(ts, id)
  }

  // ----- what the allocator is meant to find -----

  /** The id tried after `last`: numbers below 300 are not tried again after the first round. */
  function Succ(last: int): int {
    if last + 1 >= PID_MAX then 300 else last + 1
  }

  /** The k-th id tried. */
  function Candidate(first: int, k: nat): int {
    if k == 0 then first else Succ(Candidate(first, k - 1))
  }

  /** id is the k-th id tried and the first that no task uses as pid, group or session. */
  ghost predicate FirstFree(ts: seq<Task>, first: int, k: nat, id: int) {
    && id == Candidate(first, k)
    && !Used(ts, id)
    && forall j :: 0 <= j < k ==> Used(ts, Candidate(first, j))
  }

  /** m is the least id in use above `last`, or PID_MAX. */
  ghost predicate LeastAbove(ts: seq<Task>, last: int, m: int) {
    && last < m <= PID_MAX
    && (m < PID_MAX ==> Used(ts, m))
    && forall id :: last < id < m ==> !Used(ts, id)
  }

  /** Some id the loop would try is free. */
  ghost predicate SomeFree(ts: seq<Task>, first: int) {
    exists k: nat :: !Used(ts, Candidate(first, k))
  }

  lemma {:induction false} CandidateInRange(first: int, k: nat)
    requires 1 <= first < PID_MAX
    ensures 1 <= Candidate(first, k) < PID_MAX
  {
    if k > 0 { CandidateInRange(first, k - 1); }
  }

  lemma {:induction false} CandidateAhead(first: int, k: nat)
    requires 1 <= first && first + k < PID_MAX
    ensures Candidate(first, k) == first + k
  {
    if k > 0 { CandidateAhead(first, k - 1); }
  }

  lemma {:induction false} CandidateFrom(first: int, j: nat, k: nat)
    ensures Candidate(first, j + k) == Candidate(Candidate(first, j), k)
  {
    if k > 0 {
      CandidateFrom(first, j, k - 1);
      assert j + k - 1 == j + (k - 1);
    }
  }

  /** The ids the search reaches from `first`: everything from there up, and from 300 up. */
  lemma ReachesId(first: int, id: int) returns (k: nat)
    requires 1 <= first < PID_MAX && id < PID_MAX && (first <= id || 300 <= id)
    ensures Candidate(first, k) == id
  {
    if first <= id {
      k := id - first;
      CandidateAhead(first, k);
    } else {
      var up := PID_MAX - 1 - first;
      CandidateAhead(first, up);
      assert Candidate(first, up + 1) == 300;
      CandidateFrom(first, up + 1, id - 300);
      CandidateAhead(300, id - 300);
      k := up + 1 + (id - 300);
    }
  }

  lemma {:induction false} ReachesNoOther(first: int, k: nat)
    requires 1 <= first < PID_MAX
    ensures first <= Candidate(first, k) || 300 <= Candidate(first, k)
  {
    if k > 0 { ReachesNoOther(first, k - 1); }
  }

  /** The search ends exactly when an id from `first` up or from 300 up is free. */
  lemma SomeFreeIff(ts: seq<Task>, first: int)
    requires 1 <= first < PID_MAX
    ensures SomeFree(ts, first) <==>
            exists id :: (first <= id || 300 <= id) && 1 <= id < PID_MAX && !Used(ts, id)
  {
    if SomeFree(ts, first) {
      var k: nat :| !Used(ts, Candidate(first, k));
      ReachesNoOther(first, k);
      CandidateInRange(first, k);
    }
    if exists id :: (first <= id || 300 <= id) && 1 <= id < PID_MAX && !Used(ts, id) {
      var id :| (first <= id || 300 <= id) && 1 <= id < PID_MAX && !Used(ts, id);
      var k := ReachesId(first, id);
    }
  }

  lemma FirstFreeIsUnique(ts: seq<Task>, first: int, j: nat, id: int, k: nat, id': int)
    requires FirstFree(ts, first, j, id) && FirstFree(ts, first, k, id')
    ensures j == k && id == id'
  {
    assert !(j < k) && !(k < j);
  }

  // ----- the scan, turn by turn -----

  /** The task does not use last, nor anything between last and safe. */
  predicate Clear(t: Task, last: int, safe: int) {
    && !Uses(t, last)
    && !(last < t.pid < safe) && !(last < t.pgrp < safe) && !(last < t.session < safe)
  }

  /** last_pid, next_safe and the place in the task list. */
  datatype ScanState = ScanState(last: int, safe: int, i: nat)

  /** next_safe after a look at one task: the least of its ids above `last`, if it is below `safe`. */
  function Narrowed(t: Task, last: int, safe: int): int {
    var a := if t.pid > last && safe > t.pid then t.pid else safe;
    var b := if t.pgrp > last && a > t.pgrp then t.pgrp else a;
    if t.session > last && b > t.session then t.session else b
  }

  /** One turn of the loop over the tasks; `goto repeat` is i := 0. */
  function Turn(ts: seq<Task>, s: ScanState): ScanState
    requires s.i < |ts|
  {
    if Uses(ts[s.i], s.last) then
      var next := s.last + 1;
      if next < s.safe then ScanState(next, s.safe, 0)
      else ScanState(if next >= PID_MAX then 300 else next, PID_MAX, 0)
    else ScanState(s.last, Narrowed(ts[s.i], s.last, s.safe), s.i + 1)
  }

  /** The state after n turns, or where the loop has ended before. */
  function Turns(ts: seq<Task>, first: int, n: nat): ScanState {
    if n == 0 then ScanState(first, PID_MAX, 0)
    else
      var s := Turns(ts, first, n - 1);
      if s.i < |ts| then Turn(ts, s) else s
  }

  /** The scan stands at the k-th candidate; those before it are used, and the tasks passed so far
      use neither it nor anything between it and next_safe. */
  ghost predicate At(ts: seq<Task>, first: int, s: ScanState, k: nat) {
    && s.i <= |ts|
    && s.last == Candidate(first, k) && 1 <= s.last < s.safe <= PID_MAX
    && (forall j :: 0 <= j < k ==> Used(ts, Candidate(first, j)))
    && (s.safe < PID_MAX ==> Used(ts, s.safe))
    && (forall j :: 0 <= j < s.i ==> Clear(ts[j], s.last, s.safe))
  }

  lemma TurnStaysAt(ts: seq<Task>, first: int, s: ScanState, k: nat)
    requires 1 <= first < PID_MAX && At(ts, first, s, k) && s.i < |ts|
    ensures At(ts, first, Turn(ts, s), if Uses(ts[s.i], s.last) then k + 1 else k)
  {
    var p := ts[s.i];
    if Uses(p, s.last) {
      assert Used(ts, s.last);
    } else {
      assert Uses(p, p.pid) && Uses(p, p.pgrp) && Uses(p, p.session);
    }
  }

  /** When the scan ends, last_pid is the first free candidate and next_safe is exact. */
  lemma AtTheEnd(ts: seq<Task>, first: int, s: ScanState, k: nat)
    requires At(ts, first, s, k) && s.i == |ts|
    ensures FirstFree(ts, first, k, s.last) && LeastAbove(ts, s.last, s.safe)
  {
  }

  lemma {:induction false} TurnsAreAt(ts: seq<Task>, first: int, n: nat) returns (k: nat)
    requires 1 <= first < PID_MAX
    ensures At(ts, first, Turns(ts, first, n), k)
  {
    if n == 0 {
      k := 0;
    } else {
      k := TurnsAreAt(ts, first, n - 1);
      var s := Turns(ts, first, n - 1);
      if s.i < |ts| {
        TurnStaysAt(ts, first, s, k);
        if Uses(ts[s.i], s.last) { k := k + 1; }
      }
    }
  }

  /** From wherever it stands, the scan ends if a candidate from there on is free. */
  lemma {:induction false} TurnsReachTheEnd(ts: seq<Task>, first: int, n: nat, k: nat, free: nat) returns (m: nat)
    requires 1 <= first < PID_MAX && At(ts, first, Turns(ts, first, n), k)
    requires !Used(ts, Candidate(first, free)) && k <= free
    ensures Turns(ts, first, m).i == |ts|
    decreases free - k, |ts| - Turns(ts, first, n).i
  {
    var s := Turns(ts, first, n);
    if s.i == |ts| {
      m := n;
    } else {
      TurnStaysAt(ts, first, s, k);
      assert Turns(ts, first, n + 1) == Turn(ts, s);
      if Uses(ts[s.i], s.last) {
        assert Used(ts, s.last);
        m := TurnsReachTheEnd(ts, first, n + 1, k + 1, free);
      } else {
        m := TurnsReachTheEnd(ts, first, n + 1, k, free);
      }
    }
  }

  /** The loop of get_pid ends if and only if a candidate is free: otherwise it repeats for ever. */
  lemma ScanEndsIff(ts: seq<Task>, first: int)
    requires 1 <= first < PID_MAX
    ensures (exists n: nat :: Turns(ts, first, n).i == |ts|) <==> SomeFree(ts, first)
  {
    if exists n: nat :: Turns(ts, first, n).i == |ts| {
      var n: nat :| Turns(ts, first, n).i == |ts|;
      var k := TurnsAreAt(ts, first, n);
      AtTheEnd(ts, first, Turns(ts, first, n), k);
    }
    if SomeFree(ts, first) {
      var free: nat :| !Used(ts, Candidate(first, free));
      var m := TurnsReachTheEnd(ts, first, 0, 0, free);
    }
  }

  // ----- enough room -----

  function Ids(ts: seq<Task>): (s: set<int>)
    ensures forall i :: 0 <= i < |ts| ==> ts[i].pid in s && ts[i].pgrp in s && ts[i].session in s
    ensures |s| <= 3 * |ts|
  {
    if ts == [] then {}
    else
      var t := ts[|ts| - 1];
      Ids(ts[..|ts| - 1]) + {t.pid, t.pgrp, t.session}
  }

  function Range(lo: int, hi: int): (s: set<int>)
    requires lo <= hi
    ensures forall x :: x in s <==> lo <= x < hi
    ensures |s| == hi - lo
    decreases hi - lo
  {
    if lo == hi then {} else Range(lo, hi - 1) + {hi - 1}
  }

  lemma {:induction false} SubsetIsSmaller<T>(s: set<T>, t: set<T>)
    requires s <= t
    ensures |s| <= |t|
  {
    if s != {} {
      var x :| x in s;
      SubsetIsSmaller(s - {x}, t - {x});
    }
  }

  /** Three ids a task cannot fill the range: the search always ends. */
  lemma PigeonHole(ts: seq<Task>, first: int)
    requires 1 <= first < PID_MAX && 3 * |ts| < PID_MAX - 300
    ensures SomeFree(ts, first)
  {
    if forall id :: 300 <= id < PID_MAX ==> Used(ts, id) {
      forall id | id in Range(300, PID_MAX)
        ensures id in Ids(ts)
      {
        assert Used(ts, id);
      }
      SubsetIsSmaller(Range(300, PID_MAX), Ids(ts));
      assert false;
    }
    SomeFreeIff(ts, first);
  }

  // ----- the allocator -----

  /** The path that trusts the cached interval and looks at no task. */
  predicate Fast(last: int, safe: int) {
    last + 1 < PID_MAX && last + 1 < safe
  }

  /** What one call makes of last_pid and next_safe. */
  ghost predicate Got(ts: seq<Task>, last: int, safe: int, last': int, safe': int) {
    if Fast(last, safe) then last' == last + 1 && safe' == safe
    else (exists k: nat :: FirstFree(ts, Succ(last), k, last')) && LeastAbove(ts, last', safe')
  }

  /** The new id is unused if and only if the call was not a fast one onto an id in use. */
  lemma GotIsFreeIff(ts: seq<Task>, last: int, safe: int, last': int, safe': int)
    requires 0 <= last < PID_MAX && Got(ts, last, safe, last', safe')
    ensures 1 <= last' < PID_MAX
    ensures !Used(ts, last') <==> !(Fast(last, safe) && Used(ts, last + 1))
  {
    if !Fast(last, safe) {
      var k: nat :| FirstFree(ts, Succ(last), k, last');
      CandidateInRange(Succ(last), k);
    }
  }

  /** While the cached interval is true, every call finds the first free id, and leaves it true. */
  lemma TrueWindowIsEnough(ts: seq<Task>, last: int, safe: int, last': int, safe': int)
    requires Window(ts, last, safe) && Got(ts, last, safe, last', safe')
    ensures !Used(ts, last') && Window(ts, last', safe')
    ensures exists k: nat :: FirstFree(ts, Succ(last), k, last')
  {
    GotIsFreeIff(ts, last, safe, last', safe');
    if Fast(last, safe) { assert FirstFree(ts, Succ(last), 0, last'); }
  }

  class PidAllocator {
    var lastPid: int
    var nextSafe: int

    /** last_pid = 0 and next_safe = PID_MAX before the first call. */
    constructor ()
      ensures lastPid == 0 && nextSafe == PID_MAX
    {
      lastPid, nextSafe := 0, PID_MAX;
    }

    /** Whatever the cached interval says: the fast path takes the next number unseen, the other one
        finds the first free id and computes the interval anew. A call that scans has to have a free
        candidate, or it does not return. */
    method GetPid(tasks: seq<Task>, clonePid: bool, currentPid: int) returns (pid: int)
      requires 0 <= lastPid < PID_MAX
      requires !clonePid && !Fast(lastPid, nextSafe) ==> SomeFree(tasks, Succ(lastPid))
      modifies this
      ensures 0 <= lastPid < PID_MAX
      ensures clonePid ==> pid == currentPid && lastPid == old(lastPid) && nextSafe == old(nextSafe)
      ensures !clonePid ==> pid == lastPid && Got(tasks, old(lastPid), old(nextSafe), lastPid, nextSafe)
      ensures !clonePid ==>
                (!Used(tasks, pid) <==> !(Fast(old(lastPid), old(nextSafe)) && Used(tasks, old(lastPid) + 1)))
      ensures Window(tasks, old(lastPid), old(nextSafe)) ==> Window(tasks, lastPid, nextSafe)
      ensures !clonePid && Window(tasks, old(lastPid), old(nextSafe)) ==>
                exists k: nat :: FirstFree(tasks, Succ(old(lastPid)), k, pid)
    {
      if clonePid { return currentPid; }
      ghost var last, safe := lastPid, nextSafe;
      lastPid := lastPid + 1;
      if lastPid >= PID_MAX {
        lastPid := 300;
        Scan(tasks, Succ(last));
      } else if lastPid >= nextSafe {
        Scan(tasks, Succ(last));
      }
      pid := lastPid;
      GotIsFreeIff(tasks, last, safe, lastPid, nextSafe);
      if Window(tasks, last, safe) { TrueWindowIsEnough(tasks, last, safe, lastPid, nextSafe); }
    }

    /** From the label `inside` on: `goto repeat` is i := 0. */
    method Scan(tasks: seq<Task>, ghost first: int)
      requires lastPid == first && 1 <= first < PID_MAX && SomeFree(tasks, first)
      modifies this
      ensures exists k: nat :: FirstFree(tasks, first, k, lastPid)
      ensures LeastAbove(tasks, lastPid, nextSafe) && 1 <= lastPid
    {
      ghost var free: nat :| !Used(tasks, Candidate(first, free));
      ghost var k: nat, n: nat := 0, 0;
      nextSafe := PID_MAX;
      var i := 0;
      while i < |tasks|
        invariant 0 <= i <= |tasks| && k <= free
        invariant ScanState(lastPid, nextSafe, i) == Turns(tasks, first, n)
        invariant At(tasks, first, ScanState(lastPid, nextSafe, i), k)
        decreases free - k, |tasks| - i
      {
        var p := tasks[i];
        TurnStaysAt(tasks, first, ScanState(lastPid, nextSafe, i), k);
        if p.pid == lastPid || p.pgrp == lastPid || p.session == lastPid {
          assert Used(tasks, lastPid);
          lastPid := lastPid + 1;
          if lastPid >= nextSafe {
            if lastPid >= PID_MAX { lastPid := 300; }
            nextSafe := PID_MAX;
          }
          k := k + 1;
          i := 0;
        } else {
          NarrowFor(p);
          i := i + 1;
        }
        n := n + 1;
      }
      AtTheEnd(tasks, first, ScanState(lastPid, nextSafe, i), k);
    }

    /** next_safe moves down to the least id of the task that lies above last_pid. */
    method NarrowFor(p: Task)
      modifies this`nextSafe
      ensures nextSafe == Narrowed(p, lastPid, old(nextSafe))
    {
      if p.pid > lastPid && nextSafe > p.pid { nextSafe := p.pid; }
      if p.pgrp > lastPid && nextSafe > p.pgrp { nextSafe := p.pgrp; }
      if p.session > lastPid && nextSafe > p.session { nextSafe := p.session; }
    }
  }
}
