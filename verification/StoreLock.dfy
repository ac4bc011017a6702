/** The mutex of csdb over runs of calls: csdb_get_value_for_key keeps it when it finds no value. */
module StoreLock {
  import opened Options
  import opened KeyParser
  import opened Forests
  import opened DumpReload
  import opened StoreOps

  /** Does the call get as far as pthread_mutex_lock? */
  predicate TakesLock(op: Op)
    requires Callable(op)
  {
    match op
    case DoGet(key) => IsValidKey(key)
    case DoSet(key, _) => '.' in key
    case DoAppend(_, _, _) => true
    case DoDel(key) => key != "."
  }

  /** A call that answers `code` and returns with the mutex held. */
  predicate KeepsLock(op: Op, code: int)
    requires Callable(op)
  {
    op.DoGet? && TakesLock(op) && code != 0
  }

  /** The calls one after the other, as they run with the mutex: a call that needs it while it is held
      never returns, and neither do those after it. */
  function LockedRun(b: Build, s: Store, held: bool, ops: seq<Op>): (Store, seq<(int, Option<string>)>)
    requires forall i :: 0 <= i < |ops| ==> Callable(ops[i])
    decreases |ops|
  {
    if ops == [] || (held && TakesLock(ops[0])) then (s, [])
    else
      var (t, e, v) := Step(b, s, ops[0]);
      var (u, seen) := LockedRun(b, t, held || KeepsLock(ops[0], e), ops[1..]);
      (u, [(e, v)] + seen)
  }

  /** Which calls block while the mutex is held: those that get past the tests of their key. */
  lemma BlockedIff(b: Build, s: Store, op: Op)
    requires Callable(op)
    ensures LockedRun(b, s, true, [op]).1 == [] <==>
            match op
            case DoGet(key) => NamesEntry(key)
            case DoSet(key, _) => '.' in key
            case DoAppend(_, _, _) => true
            case DoDel(key) => key != "."
  {
    if op.DoGet? { ValidKeyIff(op.key); }
  }

  /** Which call keeps the mutex from the next one: only a get, of a key that names an entry and under
      which there is no value. */
  lemma SecondCallBlocksIff(b: Build, s: Store, first: Op, second: Op)
    requires Callable(first) && Callable(second)
    ensures |LockedRun(b, s, false, [first, second]).1| == 1 <==>
              && first.DoGet? && NamesEntry(first.key)
              && (Lookup(s, Parts(first.key)) == None || Lookup(s, Parts(first.key)) == Some(None))
              && LockedRun(b, s, true, [second]).1 == []
  {
    if first.DoGet? { ValidKeyIff(first.key); }
    var (t, e, v) := Step(b, s, first);
    var held := KeepsLock(first, e);
    assert [first, second][1..] == [second] && [second][1..] == [];
    assert LockedRun(b, t, held, [second]).1 == [] <==> held && TakesLock(second);
  }

  /** No call that needs the mutex comes after one that keeps it. */
  ghost predicate NeverBlocks(b: Build, s: Store, held: bool, ops: seq<Op>)
    requires forall i :: 0 <= i < |ops| ==> Callable(ops[i])
  {
    && (held ==> forall j :: 0 <= j < |ops| ==> !TakesLock(ops[j]))
    && forall i, j :: 0 <= i < j < |ops| && KeepsLock(ops[i], Run(b, s, ops).1[i].0) ==> !TakesLock(ops[j])
  }

  lemma NeverBlocksStep(b: Build, s: Store, held: bool, ops: seq<Op>)
    requires ops != [] && forall i :: 0 <= i < |ops| ==> Callable(ops[i])
    requires !(held && TakesLock(ops[0]))
    ensures var (t, e, _) := Step(b, s, ops[0]);
            NeverBlocks(b, s, held, ops) <==> NeverBlocks(b, t, held || KeepsLock(ops[0], e), ops[1..])
  {
    var (t, e, v) := Step(b, s, ops[0]);
    var rest, seen := ops[1..], Run(b, t, ops[1..]).1;
    assert Run(b, s, ops).1 == [(e, v)] + seen;
    if NeverBlocks(b, s, held, ops) {
      forall j | 0 <= j < |rest| && (held || KeepsLock(ops[0], e))
        ensures !TakesLock(rest[j])
      {
        assert rest[j] == ops[j + 1];
      }
      forall i, j | 0 <= i < j < |rest| && KeepsLock(rest[i], seen[i].0)
        ensures !TakesLock(rest[j])
      {
        assert KeepsLock(ops[i + 1], Run(b, s, ops).1[i + 1].0);
      }
    }
    if NeverBlocks(b, t, held || KeepsLock(ops[0], e), rest) {
      forall j | 0 <= j < |ops| && held
        ensures !TakesLock(ops[j])
      {
        if j > 0 { assert ops[j] == rest[j - 1]; }
      }
      forall i, j | 0 <= i < j < |ops| && KeepsLock(ops[i], Run(b, s, ops).1[i].0)
        ensures !TakesLock(ops[j])
      {
        assert ops[j] == rest[j - 1];
        if i > 0 { assert KeepsLock(rest[i - 1], seen[i - 1].0); }
      }
    }
  }

  /** What returns has answered as if there were no mutex, and everything returns if and only if no
      call that needs the mutex comes after a get that was answered with an error. */
  lemma {:induction false} AllReturnIff(b: Build, s: Store, held: bool, ops: seq<Op>)
    requires forall i :: 0 <= i < |ops| ==> Callable(ops[i])
    ensures LockedRun(b, s, held, ops).1 <= Run(b, s, ops).1
    ensures |LockedRun(b, s, held, ops).1| == |ops| <==> NeverBlocks(b, s, held, ops)
    decreases |ops|
  {
    if ops != [] && !(held && TakesLock(ops[0])) {
      NeverBlocksStep(b, s, held, ops);
      var (t, e, v) := Step(b, s, ops[0]);
      AllReturnIff(b, t, held || KeepsLock(ops[0], e), ops[1..]);
    }
  }

  /** The shortest run that does not finish: looking up a missing key twice. The first call answers,
      the second one never does. */
  lemma SecondMissBlocks(b: Build)
    ensures LockedRun(b, EMPTY, false, [DoGet(".a"), DoGet(".a")]).1 == [(-ECS_INVALIDKEY, None)]
    ensures Run(b, EMPTY, [DoGet(".a"), DoGet(".a")]).1 == [(-ECS_INVALIDKEY, None), (-ECS_INVALIDKEY, None)]
  {
    var op := DoGet(".a");
    assert [op, op][1..] == [op] && [op][1..] == [];
    assert Step(b, EMPTY, op) == (EMPTY, -ECS_INVALIDKEY, None);
  }
}
