/** The operations of csdb on a whole database, with their return codes, and the plain map they
    implement in either build. */
module StoreOps {
  import opened Options
  import opened KeyParser
  import opened Forests
  import opened ForestMap
  import opened DumpReload

  const ECS_NOENTRY := 1
  const ECS_NOLEAF := 4
  const ECS_INVALIDKEY := 5

  /** csdb_get_entry: is there an entry at p, and which value does it carry? */
  function Lookup(s: Store, p: seq<string>): Option<Option<string>> {
    if p == [] then Some(s.rootVal)
    else if Exists(s.top, p) then Some(Value(s.top, p)) else None
  }

  /** csdb_get_value_for_key. A key the parser would not end on is rejected before it is parsed. */
  function GetOp(s: Store, key: string): (int, Option<string>)
    requires key != ""
  {
    if !IsValidKey(key) then (-ECS_INVALIDKEY, None)
    else match Lookup(s, Parts(key))
      case None => (-ECS_INVALIDKEY, None)
      case Some(None) => (-ECS_NOLEAF, None)
      case Some(Some(v)) => (0, Some(v))
  }

  /** csdb_set_value_for_key */
  function SetOp(b: Build, s: Store, key: string, v: string): (Store, int)
    requires Scannable(key)
  {
    (SetKey(b, s, key, v), if '.' in key then 0 else -1)
  }

  /** csdb_append_value_for_key; a NULL btwn appends nothing in between. */
  function AppendOp(s: Store, key: string, v: Option<string>, btwn: Option<string>): (Store, int)
    requires key != "" && key[0] == '.'
  {
    var p := Parts(key);
    match Lookup(s, p)
    case Some(Some(u)) =>
      if v.None? then (s, -1)
      else
        var w := u + (if btwn.Some? then btwn.value else "") + v.value;
        (if p == [] then s.(rootVal := Some(w)) else s.(top := Put(s.top, p, w)), 0)
    case _ => (s, -1)
  }

  /** csdb_remove_from_key: the root stays. */
  function RemoveOp(s: Store, key: string): (Store, int)
    requires key != "" && key[0] == '.'
  {
    if key == "." then (s, -1)
    else
      PathIsRootOnlyForDot(key);
      var p := Parts(key);
      if Exists(s.top, p) then (s.(top := Remove(s.top, p)), 0) else (s, -ECS_NOENTRY)
  }

  lemma PathIsRootOnlyForDot(key: string)
    requires key != "" && key[0] == '.'
    ensures Parts(key) == [] <==> key == "."
  {
  }

  // ----- the reference: one map from paths to values -----

  type PathMap = map<seq<string>, Option<string>>

  function MapGet(m: PathMap, p: seq<string>): Option<Option<string>> {
    if p in m then Some(m[p]) else None
  }

  function Prefixes(p: seq<string>): (r: set<seq<string>>)
    ensures forall q :: q in r <==> q <= p
  {
    assert forall q :: q <= p ==> q == p[..|q|];
    set i | 0 <= i <= |p| :: p[..i]
  }

  ghost function MapSet(m: PathMap, p: seq<string>, v: string): PathMap {
    map q | q in m.Keys + Prefixes(p) :: if q == p then Some(v) else if q in m then m[q] else None
  }

  ghost function MapRemove(m: PathMap, p: seq<string>): PathMap {
    map q | q in m && !(p <= q) :: m[q]
  }

  datatype Op =
    | DoGet(key: string)
    | DoSet(key: string, v: string)
    | DoAppend(key: string, more: Option<string>, btwn: Option<string>)
    | DoDel(key: string)

  /** The calls the C code returns from: csdb_get_value_for_key checks its key first, the others
      scan it. */
  ghost predicate Callable(op: Op) {
    match op
    case DoGet(key) => key != ""
    case DoSet(key, _) => Scannable(key)
    case DoAppend(key, _, _) => key != "" && key[0] == '.'
    case DoDel(key) => key != "" && key[0] == '.'
  }

  /** New database, return code, value handed out. */
  function Step(b: Build, s: Store, op: Op): (Store, int, Option<string>)
    requires Callable(op)
  {
    match op
    case DoGet(key) => var (e, v) := GetOp(s, key); (s, e, v)
    case DoSet(key, v) => var (t, e) := SetOp(b, s, key, v); (t, e, None)
    case DoAppend(key, v, btwn) => var (t, e) := AppendOp(s, key, v, btwn); (t, e, None)
    case DoDel(key) => var (t, e) := RemoveOp(s, key); (t, e, None)
  }

  ghost function MapStep(m: PathMap, op: Op): (PathMap, int, Option<string>)
    requires Callable(op)
  {
    match op
    case DoGet(key) =>
      if !NamesEntry(key) || Parts(key) !in m then (m, -ECS_INVALIDKEY, None)
      else if m[Parts(key)].None? then (m, -ECS_NOLEAF, None)
      else (m, 0, m[Parts(key)])
    case DoSet(key, v) => if '.' !in key then (m, -1, None) else (MapSet(m, Parts(key), v), 0, None)
    case DoAppend(key, v, btwn) =>
      var p := Parts(key);
      if p in m && m[p].Some? && v.Some?
      then (m[p := Some(m[p].value + (if btwn.Some? then btwn.value else "") + v.value)], 0, None)
      else (m, -1, None)
    case DoDel(key) =>
      if key == "." then (m, -1, None)
      else if Parts(key) in m then (MapRemove(m, Parts(key)), 0, None)
      else (m, -ECS_NOENTRY, None)
  }

  ghost predicate Agree(b: Build, s: Store, m: PathMap) {
    WellFormed(b, s.top) && forall p :: Lookup(s, p) == MapGet(m, p)
  }

  lemma SetPathAgrees(b: Build, s: Store, m: PathMap, p: seq<string>, v: string)
    requires Agree(b, s, m)
    ensures Agree(b, SetPath(b, s, p, v), MapSet(m, p, v))
  {
    var t, n := SetPath(b, s, p, v), MapSet(m, p, v);
    assert Lookup(s, []).Some?;
    if p != [] { SetKeepsWellFormed(b, s.top, p, v); }
    forall q
      ensures Lookup(t, q) == MapGet(n, q)
    {
      assert Lookup(s, q) == MapGet(m, q);
      if p != [] && q != [] { SetLookup(b, s.top, p, v, q); }
    }
  }

  lemma AppendAgrees(b: Build, s: Store, m: PathMap, p: seq<string>, v: string)
    requires Agree(b, s, m) && p != [] && Exists(s.top, p)
    ensures Agree(b, s.(top := Put(s.top, p, v)), m[p := Some(v)])
  {
    var t, n := s.(top := Put(s.top, p, v)), m[p := Some(v)];
    PutWellFormed(b, s.top, p, v);
    forall q
      ensures Lookup(t, q) == MapGet(n, q)
    {
      assert Lookup(s, q) == MapGet(m, q);
      if q != [] { PutLookup(s.top, p, v, q); }
    }
  }

  lemma RemoveAgrees(b: Build, s: Store, m: PathMap, p: seq<string>)
    requires Agree(b, s, m) && p != [] && Exists(s.top, p)
    ensures Agree(b, s.(top := Remove(s.top, p)), MapRemove(m, p))
  {
    var t, n := s.(top := Remove(s.top, p)), MapRemove(m, p);
    RemoveKeepsWellFormed(b, s.top, p);
    forall q
      ensures Lookup(t, q) == MapGet(n, q)
    {
      assert Lookup(s, q) == MapGet(m, q);
      if q != [] { RemoveLookup(b, s.top, p, q); }
    }
  }

  lemma GetAgrees(b: Build, s: Store, m: PathMap, key: string)
    requires Agree(b, s, m) && key != ""
    ensures MapStep(m, DoGet(key)) == (m, GetOp(s, key).0, GetOp(s, key).1)
  {
    ValidKeyIff(key);
    if IsValidKey(key) { assert Lookup(s, Parts(key)) == MapGet(m, Parts(key)); }
  }

  lemma AppendOpAgrees(b: Build, s: Store, m: PathMap, key: string, v: Option<string>, btwn: Option<string>)
    requires Agree(b, s, m) && key != "" && key[0] == '.'
    ensures var (t, e) := AppendOp(s, key, v, btwn);
            var (n, e', _) := MapStep(m, DoAppend(key, v, btwn));
            Agree(b, t, n) && e == e'
  {
    var p := Parts(key);
    assert Lookup(s, p) == MapGet(m, p);
    if p in m && m[p].Some? && v.Some? {
      var w := m[p].value + (if btwn.Some? then btwn.value else "") + v.value;
      if p == [] {
        assert forall q :: Lookup(s.(rootVal := Some(w)), q) == (if q == [] then Some(Some(w)) else Lookup(s, q));
      } else {
        AppendAgrees(b, s, m, p, w);
      }
    }
  }

  /** One call: same code, same value handed out, and the database still implements the map. */
  lemma StepAgrees(b: Build, s: Store, m: PathMap, op: Op)
    requires Agree(b, s, m) && Callable(op)
    ensures var (t, e, v) := Step(b, s, op);
            var (n, e', v') := MapStep(m, op);
            Agree(b, t, n) && e == e' && v == v'
  {
    match op
    case DoGet(key) => GetAgrees(b, s, m, key);
    case DoSet(key, v) =>
      if '.' in key { SetPathAgrees(b, s, m, Parts(key), v); }
    case DoAppend(key, v, btwn) => AppendOpAgrees(b, s, m, key, v, btwn);
    case DoDel(key) =>
      if key != "." {
        PathIsRootOnlyForDot(key);
        assert Lookup(s, Parts(key)) == MapGet(m, Parts(key));
        if Exists(s.top, Parts(key)) { RemoveAgrees(b, s, m, Parts(key)); }
      }
  }

  /** Everything the callers see over a run: one (code, value) pair a call. */
  function Run(b: Build, s: Store, ops: seq<Op>): (r: (Store, seq<(int, Option<string>)>))
    requires forall i :: 0 <= i < |ops| ==> Callable(ops[i])
    ensures |r.1| == |ops|
    decreases |ops|
  {
    if ops == [] then (s, [])
    else
      var (t, e, v) := Step(b, s, ops[0]);
      var (u, seen) := Run(b, t, ops[1..]);
      (u, [(e, v)] + seen)
  }

  ghost function MapRun(m: PathMap, ops: seq<Op>): (PathMap, seq<(int, Option<string>)>)
    requires forall i :: 0 <= i < |ops| ==> Callable(ops[i])
    decreases |ops|
  {
    if ops == [] then (m, [])
    else
      var (n, e, v) := MapStep(m, ops[0]);
      var (u, seen) := MapRun(n, ops[1..]);
      (u, [(e, v)] + seen)
  }

  /** Over every run, in either build, the database is indistinguishable from the map. */
  lemma {:induction false} RunsAgree(b: Build, s: Store, m: PathMap, ops: seq<Op>)
    requires Agree(b, s, m)
    requires forall i :: 0 <= i < |ops| ==> Callable(ops[i])
    ensures Agree(b, Run(b, s, ops).0, MapRun(m, ops).0)
    ensures Run(b, s, ops).1 == MapRun(m, ops).1
    decreases |ops|
  {
    if ops != [] {
      StepAgrees(b, s, m, ops[0]);
      RunsAgree(b, Step(b, s, ops[0]).0, MapStep(m, ops[0]).0, ops[1..]);
    }
  }

  /** From the empty database the two builds answer every sequence of calls alike. */
  lemma BuildsAnswerAlike(ops: seq<Op>)
    requires forall i :: 0 <= i < |ops| ==> Callable(ops[i])
    ensures Run(Linear, EMPTY, ops).1 == Run(Sorted, EMPTY, ops).1
  {
    RunsAgree(Linear, EMPTY, map[[] := None], ops);
    RunsAgree(Sorted, EMPTY, map[[] := None], ops);
  }

  // ----- names hold no dot -----

  ghost predicate DotFreePaths(m: PathMap) {
    forall p :: p in m ==> DotFree(p)
  }

  lemma MapStepDotFree(m: PathMap, op: Op)
    requires DotFreePaths(m) && Callable(op)
    ensures DotFreePaths(MapStep(m, op).0)
  {
    if op.DoSet? && '.' in op.key {
      var p := Parts(op.key);
      PrintOfParse(op.key);
      forall q | q in MapSet(m, p, op.v)
        ensures DotFree(q)
      {
        if q !in m { assert q <= p && forall i :: 0 <= i < |q| ==> q[i] == p[i]; }
      }
    }
  }

  lemma {:induction false} MapRunDotFree(m: PathMap, ops: seq<Op>)
    requires DotFreePaths(m) && forall i :: 0 <= i < |ops| ==> Callable(ops[i])
    ensures DotFreePaths(MapRun(m, ops).0)
    decreases |ops|
  {
    if ops != [] {
      MapStepDotFree(m, ops[0]);
      MapRunDotFree(MapStep(m, ops[0]).0, ops[1..]);
    }
  }

  /** Whatever calls built, no name holds a dot. */
  lemma PathsAreDotFree(b: Build, ops: seq<Op>, p: seq<string>)
    requires forall i :: 0 <= i < |ops| ==> Callable(ops[i])
    requires Exists(Run(b, EMPTY, ops).0.top, p)
    ensures DotFree(p)
  {
    var m: PathMap := map[[] := None];
    RunsAgree(b, EMPTY, m, ops);
    MapRunDotFree(m, ops);
    var s := Run(b, EMPTY, ops).0;
    assert Lookup(s, p) == MapGet(MapRun(m, ops).0, p);
  }
}
