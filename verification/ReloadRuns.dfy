/** The dump and reload of a database that was built by csdb calls, and exactly when a reload keeps
    every leaf. */
module ReloadRuns {
  import opened Options
  import opened KeyParser
  import opened Forests
  import opened ForestMap
  import opened DumpReload
  import opened RoundTrip
  import opened Reload
  import opened ReloadExact
  import Ops = StoreOps

  // ----- databases built by calls -----

  ghost predicate OneLine(v: Option<string>) {
    v.Some? ==> '\n' !in v.value
  }

  /** Keys that csdb_is_valid_key accepts and that hold no '=' or newline; values on one line. */
  ghost predicate CleanOp(op: Ops.Op) {
    && Ops.Callable(op)
    && match op
       case DoGet(_) => true
       case DoSet(key, v) => key != "" && IsValidKey(key) && '=' !in key && '\n' !in key && '\n' !in v
       case DoAppend(_, more, btwn) => OneLine(more) && OneLine(btwn)
       case DoDel(_) => true
  }

  lemma SetPathDumpable(b: Build, s: Store, key: string, v: string)
    requires Dumpable(s.top) && CleanOp(Ops.DoSet(key, v))
    ensures Dumpable(SetPath(b, s, Parts(key), v).top)
  {
    var p := Parts(key);
    if p != [] {
      var t := SetPath(b, s, p, v);
      PrintOfParse(key);
      PartsHaveCharsOfKey(key, '=');
      PartsHaveCharsOfKey(key, '\n');
      assert CleanPath(p);
      forall q | LeafAt(t.top, q).Some?
        ensures Carried(q, LeafAt(t.top, q).value)
      {
        SetLookup(b, s.top, p, v, q);
        if q != p { assert LeafAt(s.top, q) == LeafAt(t.top, q); }
      }
    }
  }

  /** A value on one line may be put in place of a leaf's. */
  lemma PutDumpable(f: Forest, p: seq<string>, v: string)
    requires Dumpable(f) && LeafAt(f, p).Some? && '\n' !in v
    ensures Dumpable(Put(f, p, v))
  {
    var g := Put(f, p, v);
    assert Carried(p, LeafAt(f, p).value);
    forall q | LeafAt(g, q).Some?
      ensures Carried(q, LeafAt(g, q).value)
    {
      PutLookup(f, p, v, q);
      if q != p { assert LeafAt(f, q) == LeafAt(g, q); }
    }
  }

  lemma RemoveDumpable(b: Build, f: Forest, p: seq<string>)
    requires WellFormed(b, f) && Dumpable(f) && p != [] && Exists(f, p)
    ensures Dumpable(Remove(f, p))
  {
    var g := Remove(f, p);
    forall q | LeafAt(g, q).Some?
      ensures Carried(q, LeafAt(g, q).value)
    {
      RemoveLookup(b, f, p, q);
      assert LeafAt(f, q) == LeafAt(g, q);
    }
  }

  lemma StepKeepsDumpable(b: Build, s: Store, op: Ops.Op)
    requires WellFormed(b, s.top) && Dumpable(s.top) && CleanOp(op)
    ensures Dumpable(Ops.Step(b, s, op).0.top)
  {
    match op
    case DoGet(_) =>
    case DoSet(key, v) => SetPathDumpable(b, s, key, v);
    case DoAppend(key, more, btwn) =>
      var p := Parts(key);
      if p != [] && LeafAt(s.top, p).Some? && more.Some? {
        assert Carried(p, LeafAt(s.top, p).value);
        PutDumpable(s.top, p, LeafAt(s.top, p).value + (if btwn.Some? then btwn.value else "") + more.value);
      }
    case DoDel(key) =>
      if key != "." && Exists(s.top, Parts(key)) {
        Ops.PathIsRootOnlyForDot(key);
        RemoveDumpable(b, s.top, Parts(key));
      }
  }

  /** Whatever clean calls built, in either build, stays well formed and dumpable. */
  lemma {:induction false} RunKeepsDumpable(b: Build, s: Store, m: Ops.PathMap, ops: seq<Ops.Op>)
    requires Dumpable(s.top) && Ops.Agree(b, s, m)
    requires forall i :: 0 <= i < |ops| ==> Ops.Callable(ops[i]) && CleanOp(ops[i])
    ensures var t := Ops.Run(b, s, ops).0; Dumpable(t.top) && WellFormed(b, t.top)
    decreases |ops|
  {
    if ops != [] {
      StepKeepsDumpable(b, s, ops[0]);
      Ops.StepAgrees(b, s, m, ops[0]);
      RunKeepsDumpable(b, Ops.Step(b, s, ops[0]).0, Ops.MapStep(m, ops[0]).0, ops[1..]);
    }
  }

  lemma EmptyIsDumpable()
    ensures Dumpable(EMPTY.top)
  {
    forall p
      ensures LeafAt(Nil, p) == None
    {
      NilHasNoLeaf(p);
    }
  }

  /** For every database that calls can build, whatever their keys and values: the reload keeps the
      leaves if and only if a line carries each of them. */
  lemma ReloadAfterAnyRunIff(b: Build, ops: seq<Ops.Op>)
    requires forall i :: 0 <= i < |ops| ==> Ops.Callable(ops[i])
    ensures var f := Ops.Run(b, EMPTY, ops).0.top;
            KeepsLeaves(b, f) <==> Dumpable(f)
  {
    Ops.RunsAgree(b, EMPTY, map[[] := None], ops);
    KeepsLeavesIff(b, Ops.Run(b, EMPTY, ops).0.top);
  }

  /** The promise of the dump file: for every database clean calls can build, dumping "." and
      loading the dump into an empty database gives back every leaf below the root and no other;
      the next dump is the same in the sorted build, and the one after it in the linear build. */
  lemma ReloadAfterAnyRun(b: Build, ops: seq<Ops.Op>)
    requires forall i :: 0 <= i < |ops| ==> Ops.Callable(ops[i]) && CleanOp(ops[i])
    ensures var f := Ops.Run(b, EMPTY, ops).0.top;
            && Loadable(Dump(f, []))
            && var g := Load(b, EMPTY, Dump(f, [])).top;
               && (forall p :: LeafAt(g, p) == LeafAt(f, p))
               && (b.Sorted? ==> Dump(g, []) == Dump(f, []))
               && Loadable(Dump(g, []))
               && Dump(Load(b, EMPTY, Dump(g, [])).top, []) == Dump(f, [])
  {
    EmptyIsDumpable();
    RunKeepsDumpable(b, EMPTY, map[[] := None], ops);
    var f := Ops.Run(b, EMPTY, ops).0.top;
    ReloadOfDump(b, f);
    if b.Linear? {
      LinearRedump(f);
    } else {
      SortedRedump(f);
      PruneWellFormed(b, f);
      ReloadOfDump(b, f);
      SortedRedump(Prune(f));
      PruneKeepsDump(f, []);
    }
  }
}
