/** Which leaves survive a dump and a reload, and what a second dump looks like. */
module Reload {
  import opened Options
  import opened KeyParser
  import opened Forests
  import opened DumpReload
  import opened RoundTrip

  // ----- mirroring and pruning -----

  lemma {:induction false} MirrorOfAppend(f: Forest, g: Forest)
    ensures Mirror(Append(f, g)) == Append(Mirror(g), Mirror(f))
  {
    AppendFacts(Mirror(g), Nil, Nil);
    if f.Cons? {
      MirrorOfAppend(f.rest, g);
      AppendFacts(Mirror(g), Mirror(f.rest), Cons(f.name, f.val, Mirror(f.kids), Nil));
    }
  }

  lemma {:induction false} MirrorTwice(f: Forest)
    ensures Mirror(Mirror(f)) == f
  {
    if f.Cons? {
      MirrorTwice(f.kids);
      MirrorTwice(f.rest);
      MirrorOfAppend(Mirror(f.rest), Cons(f.name, f.val, Mirror(f.kids), Nil));
    }
  }

  lemma {:induction false} PruneOfAppend(f: Forest, g: Forest)
    ensures Prune(Append(f, g)) == Append(Prune(f), Prune(g))
  {
    if f.Cons? { PruneOfAppend(f.rest, g); }
  }

  lemma {:induction false} PruneTwice(f: Forest)
    ensures Prune(Prune(f)) == Prune(f)
  {
    if f.Cons? {
      PruneTwice(f.kids);
      PruneTwice(f.rest);
    }
  }

  lemma {:induction false} PruneOfMirror(f: Forest)
    ensures Prune(Mirror(f)) == Mirror(Prune(f))
  {
    if f.Cons? {
      var last := Cons(f.name, f.val, Mirror(f.kids), Nil);
      PruneOfMirror(f.kids);
      PruneOfMirror(f.rest);
      PruneOfAppend(Mirror(f.rest), last);
      AppendFacts(Mirror(Prune(f.rest)), Nil, Nil);
      MirrorNil(Prune(f.kids));
    }
  }

  lemma MirrorNil(f: Forest)
    ensures Mirror(f).Nil? <==> f.Nil?
  {
  }

  lemma {:induction false} PruneKeepsLeaves(f: Forest)
    ensures Leaves(Prune(f)) == Leaves(f)
  {
    if f.Cons? {
      PruneKeepsLeaves(f.kids);
      PruneKeepsLeaves(f.rest);
    }
  }

  lemma PruneKeepsDump(f: Forest, above: seq<string>)
    ensures Dump(Prune(f), above) == Dump(f, above)
  {
    PruneKeepsLeaves(f);
    DumpIsLines(f, above);
    DumpIsLines(Prune(f), above);
  }

  // ----- one sibling list after pruning or mirroring -----

  lemma {:induction false} PruneList(b: Build, f: Forest, n: string)
    requires WellFormed(b, f)
    ensures Has(Prune(f), n) <==> Has(f, n) && (ValOf(f, n).Some? || Prune(KidsOf(f, n)).Cons?)
    ensures Has(Prune(f), n) ==>
              ValOf(Prune(f), n) == ValOf(f, n) && KidsOf(Prune(f), n) == Prune(KidsOf(f, n))
  {
    if f.Cons? { PruneList(b, f.rest, n); }
  }

  lemma {:induction false} AppendList(f: Forest, g: Forest, n: string)
    ensures Has(Append(f, g), n) <==> Has(f, n) || Has(g, n)
    ensures Has(f, n) ==> ValOf(Append(f, g), n) == ValOf(f, n) && KidsOf(Append(f, g), n) == KidsOf(f, n)
    ensures !Has(f, n) && Has(g, n) ==>
              ValOf(Append(f, g), n) == ValOf(g, n) && KidsOf(Append(f, g), n) == KidsOf(g, n)
  {
    if f.Cons? { AppendList(f.rest, g, n); }
  }

  lemma {:induction false} MirrorList(b: Build, f: Forest, n: string)
    requires WellFormed(b, f)
    ensures Has(Mirror(f), n) <==> Has(f, n)
    ensures Has(f, n) ==> ValOf(Mirror(f), n) == ValOf(f, n) && KidsOf(Mirror(f), n) == Mirror(KidsOf(f, n))
  {
    if f.Cons? {
      MirrorList(b, f.rest, n);
      AppendList(Mirror(f.rest), Cons(f.name, f.val, Mirror(f.kids), Nil), n);
    }
  }

  lemma {:induction false} PruneWellFormed(b: Build, f: Forest)
    requires WellFormed(b, f)
    ensures WellFormed(b, Prune(f))
  {
    if f.Cons? {
      PruneWellFormed(b, f.kids);
      PruneWellFormed(b, f.rest);
      forall m | Has(Prune(f.rest), m)
        ensures Has(f.rest, m)
      {
        PruneList(b, f.rest, m);
      }
    }
  }

  // ----- leaves by path -----

  /** The value of the leaf at p, if there is one. */
  function LeafAt(f: Forest, p: seq<string>): Option<string> {
    if p != [] && Exists(f, p) then Value(f, p) else None
  }

  lemma {:induction false} NilHasNoLeaf(p: seq<string>)
    ensures LeafAt(Nil, p) == None
  {
  }

  lemma LeafAtStep(f: Forest, p: seq<string>)
    requires p != []
    ensures LeafAt(f, p) == if !Has(f, p[0]) then None
                            else if |p| == 1 then ValOf(f, p[0])
                            else LeafAt(KidsOf(f, p[0]), p[1..])
  {
    assert Exists(f, p) <==> Has(f, p[0]) && Exists(KidsOf(f, p[0]), p[1..]);
  }

  lemma {:induction false} PruneLeafAt(b: Build, f: Forest, p: seq<string>)
    requires WellFormed(b, f)
    ensures LeafAt(Prune(f), p) == LeafAt(f, p)
    decreases |p|
  {
    if p != [] {
      PruneList(b, f, p[0]);
      LeafAtStep(f, p);
      LeafAtStep(Prune(f), p);
      if |p| > 1 && Has(f, p[0]) {
        KidsWellFormed(b, f, p[0]);
        PruneLeafAt(b, KidsOf(f, p[0]), p[1..]);
        NilHasNoLeaf(p[1..]);
      }
    }
  }

  lemma {:induction false} MirrorLeafAt(b: Build, f: Forest, p: seq<string>)
    requires WellFormed(b, f)
    ensures LeafAt(Mirror(f), p) == LeafAt(f, p)
    decreases |p|
  {
    if p != [] {
      MirrorList(b, f, p[0]);
      LeafAtStep(f, p);
      LeafAtStep(Mirror(f), p);
      if |p| > 1 && Has(f, p[0]) {
        KidsWellFormed(b, f, p[0]);
        MirrorLeafAt(b, KidsOf(f, p[0]), p[1..]);
      }
    }
  }

  lemma RebuiltLeafAt(b: Build, f: Forest, p: seq<string>)
    requires WellFormed(b, f)
    ensures LeafAt(Rebuilt(b, f), p) == LeafAt(f, p)
  {
    PruneWellFormed(b, f);
    PruneLeafAt(b, f, p);
    MirrorLeafAt(b, Prune(f), p);
  }

  // ----- the dump lists exactly the leaves -----

  lemma {:induction false} InUnder(n: string, ls: seq<Leaf>, l: Leaf)
    ensures l in Under(n, ls) <==> l.path != [] && l.path[0] == n && Leaf(l.path[1..], l.val) in ls
  {
    if ls != [] {
      InUnder(n, ls[1..], l);
      assert ls == [ls[0]] + ls[1..];
      assert ([n] + ls[0].path)[1..] == ls[0].path;
      assert l.path != [] ==> l.path == [l.path[0]] + l.path[1..];
    }
  }

  lemma {:induction false} LeavesAreLeafAt(b: Build, f: Forest, p: seq<string>, v: string)
    requires WellFormed(b, f)
    ensures Leaf(p, v) in Leaves(f) <==> LeafAt(f, p) == Some(v)
    decreases f
  {
    if f.Cons? {
      LeavesAreLeafAt(b, f.rest, p, v);
      InUnder(f.name, Leaves(f.kids), Leaf(p, v));
      if p != [] {
        LeafAtStep(f, p);
        LeafAtStep(f.rest, p);
        LeavesAreLeafAt(b, f.kids, p[1..], v);
        assert |p| == 1 && p[0] == f.name ==> p == [f.name];
      }
    }
  }

  // ----- which forests a dump can carry -----

  /** No dot, '=' or newline in any name, no newline in the value, and a last name that is not empty. */
  ghost predicate Carried(p: seq<string>, v: string) {
    p != [] && CleanPath(p) && p[|p| - 1] != "" && '\n' !in v
  }

  /** Every leaf is one that a line of the dump carries. */
  ghost predicate Dumpable(f: Forest) {
    forall p :: LeafAt(f, p).Some? ==> Carried(p, LeafAt(f, p).value)
  }

  ghost predicate CarriedLeaves(ls: seq<Leaf>) {
    forall i {:trigger ls[i]} :: 0 <= i < |ls| ==> Carried(ls[i].path, ls[i].val)
  }

  lemma DumpableHasCarriedLeaves(b: Build, f: Forest)
    requires WellFormed(b, f) && Dumpable(f)
    ensures CarriedLeaves(Leaves(f)) && CleanLeaves(Leaves(f))
  {
    var ls := Leaves(f);
    forall i | 0 <= i < |ls|
      ensures Carried(ls[i].path, ls[i].val)
    {
      assert ls[i] == Leaf(ls[i].path, ls[i].val) && ls[i] in ls;
      LeavesAreLeafAt(b, f, ls[i].path, ls[i].val);
    }
  }

  lemma {:induction false} LoadLeavesIsSetAll(b: Build, s: Store, ls: seq<Leaf>)
    requires CarriedLeaves(ls)
    ensures HasPaths(ls) && LoadLeaves(b, s, ls) == Store(s.rootVal, SetAll(b, s.top, ls))
    decreases |ls|
  {
    if ls != [] {
      var p, v := ls[0].path, ls[0].val;
      assert Carried(p, v);
      assert DotFree(p) by { assert forall i :: 0 <= i < |p| ==> Clean(p[i]); }
      ParseOfPrint(p);
      assert forall i :: 0 <= i < |ls| - 1 ==> ls[1..][i] == ls[i + 1];
      LoadLeavesIsSetAll(b, SetPath(b, s, p, v), ls[1..]);
    }
  }

  /** Loading the dump of "." into an empty database: exactly this forest comes back, and it has
      exactly the leaves of the dumped one. */
  lemma ReloadOfDump(b: Build, f: Forest)
    requires WellFormed(b, f) && Dumpable(f)
    ensures Loadable(Dump(f, []))
    ensures Load(b, EMPTY, Dump(f, [])) == Store(None, Rebuilt(b, f))
    ensures forall p :: LeafAt(Rebuilt(b, f), p) == LeafAt(f, p)
  {
    var ls := Leaves(f);
    DumpableHasCarriedLeaves(b, f);
    DumpIsLines(f, []);
    LoadOfLines(b, EMPTY, ls);
    LoadLeavesIsSetAll(b, EMPTY, ls);
    Rebuild(b, Nil, f);
    AppendFacts(Rebuilt(b, f), Nil, Nil);
    forall p
      ensures LeafAt(Rebuilt(b, f), p) == LeafAt(f, p)
    {
      RebuiltLeafAt(b, f, p);
    }
  }

  /** In the sorted build the second dump is the first, byte for byte. */
  lemma SortedRedump(f: Forest)
    requires WellFormed(Sorted, f) && Dumpable(f)
    ensures Loadable(Dump(f, []))
    ensures Dump(Load(Sorted, EMPTY, Dump(f, [])).top, []) == Dump(f, [])
  {
    ReloadOfDump(Sorted, f);
    PruneKeepsDump(f, []);
  }

  lemma {:induction false} MirrorWellFormed(f: Forest)
    requires WellFormed(Linear, f)
    ensures WellFormed(Linear, Mirror(f))
  {
    if f.Cons? {
      MirrorWellFormed(f.kids);
      MirrorWellFormed(f.rest);
      MirrorList(Linear, f.rest, f.name);
      AppendOneWellFormed(Mirror(f.rest), f.name, f.val, Mirror(f.kids));
    }
  }

  lemma {:induction false} AppendOneWellFormed(f: Forest, n: string, v: Option<string>, k: Forest)
    requires WellFormed(Linear, f) && WellFormed(Linear, k) && !Has(f, n)
    ensures WellFormed(Linear, Append(f, Cons(n, v, k, Nil)))
  {
    if f.Cons? {
      AppendOneWellFormed(f.rest, n, v, k);
      AppendList(f.rest, Cons(n, v, k, Nil), f.name);
    }
  }

  /** In the linear build one reload turns every sibling list round, and two reloads are needed for
      the dump to come back byte for byte. */
  lemma LinearRedump(f: Forest)
    requires WellFormed(Linear, f) && Dumpable(f)
    ensures Loadable(Dump(f, []))
    ensures var once := Load(Linear, EMPTY, Dump(f, [])).top;
            && once == Mirror(Prune(f))
            && Loadable(Dump(once, []))
            && var twice := Load(Linear, EMPTY, Dump(once, [])).top;
               && twice == Prune(f)
               && Dump(twice, []) == Dump(f, [])
  {
    var once := Mirror(Prune(f));
    ReloadOfDump(Linear, f);
    PruneWellFormed(Linear, f);
    MirrorWellFormed(Prune(f));
    ReloadOfDump(Linear, once);
    PruneOfMirror(Prune(f));
    PruneTwice(f);
    MirrorTwice(Prune(f));
    PruneKeepsDump(f, []);
  }
}
