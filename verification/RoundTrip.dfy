/** Dumping a database and loading the dump into an empty one. */
module RoundTrip {
  import opened Options
  import opened CString
  import opened Forests
  import opened ForestMap
  import opened DumpReload

  ghost predicate HasPaths(ls: seq<Leaf>) {
    forall i :: 0 <= i < |ls| ==> ls[i].path != []
  }

  /** Setting a list of leaves one after the other. */
  function SetAll(b: Build, f: Forest, ls: seq<Leaf>): Forest
    requires HasPaths(ls)
    decreases |ls|
  {
    if ls == [] then f else SetAll(b, Set(b, f, ls[0].path, ls[0].val), ls[1..])
  }

  /** What survives of a forest in its dump: entries with a leaf at or below them. */
  function Prune(f: Forest): Forest {
    match f
    case Nil => Nil
    case Cons(n, v, k, r) =>
      if v.None? && Prune(k).Nil? then Prune(r) else Cons(n, v, Prune(k), Prune(r))
  }

  /** Every sibling list, at every level, back to front. */
  function Mirror(f: Forest): Forest {
    match f
    case Nil => Nil
    case Cons(n, v, k, r) => Append(Mirror(r), Cons(n, v, Mirror(k), Nil))
  }

  /** What loading a dump of f into an empty database builds: the linear build puts each new entry
      in front of its siblings, the sorted build has nothing to reorder. */
  function Rebuilt(b: Build, f: Forest): Forest {
    if b.Linear? then Mirror(Prune(f)) else Prune(f)
  }

  lemma {:induction false} LeavesHavePaths(f: Forest)
    ensures HasPaths(Leaves(f))
  {
    if f.Cons? {
      LeavesHavePaths(f.kids);
      LeavesHavePaths(f.rest);
      UnderHasPaths(f.name, Leaves(f.kids));
    }
  }

  lemma {:induction false} UnderHasPaths(n: string, ls: seq<Leaf>)
    ensures HasPaths(Under(n, ls)) && |Under(n, ls)| == |ls|
    ensures forall i :: 0 <= i < |ls| ==> Under(n, ls)[i] == Leaf([n] + ls[i].path, ls[i].val)
  {
    if ls != [] { UnderHasPaths(n, ls[1..]); }
  }

  lemma {:induction false} SetAllConcat(b: Build, f: Forest, k: seq<Leaf>, l: seq<Leaf>)
    requires HasPaths(k) && HasPaths(l)
    ensures HasPaths(k + l) && SetAll(b, f, k + l) == SetAll(b, SetAll(b, f, k), l)
    decreases |k|
  {
    if k == [] {
      assert k + l == l;
    } else {
      assert (k + l)[1..] == k[1..] + l;
      SetAllConcat(b, Set(b, f, k[0].path, k[0].val), k[1..], l);
    }
  }

  lemma SetUnder(b: Build, f: Forest, n: string, q: seq<string>, v: string)
    requires Has(f, n) && q != []
    ensures Set(b, f, [n] + q, v) == SetKids(f, n, Set(b, KidsOf(f, n), q, v))
  {
    var p, k := [n] + q, KidsOf(f, n);
    assert p[1..] == q;
    TouchExists(b, f, p);
    TouchExists(b, k, q);
    var t := Touch(b, k, q);
    SetKidsFinds(f, n, t);
    SetKidsTwice(f, n, t, Put(t, q, v));
  }

  /** A run of sets below one existing entry only rebuilds that entry's children. */
  lemma {:induction false} SetAllUnder(b: Build, f: Forest, n: string, ls: seq<Leaf>)
    requires Has(f, n) && HasPaths(ls)
    ensures HasPaths(Under(n, ls))
    ensures SetAll(b, f, Under(n, ls)) == SetKids(f, n, SetAll(b, KidsOf(f, n), ls))
    decreases |ls|
  {
    UnderHasPaths(n, ls);
    if ls == [] {
      SetKidsTwice(f, n, Nil, Nil);
    } else {
      var k := Set(b, KidsOf(f, n), ls[0].path, ls[0].val);
      SetUnder(b, f, n, ls[0].path, ls[0].val);
      SetKidsFinds(f, n, k);
      SetAllUnder(b, SetKids(f, n, k), n, ls[1..]);
      SetKidsTwice(f, n, k, SetAll(b, k, ls[1..]));
      assert Under(n, ls)[1..] == Under(n, ls[1..]);
    }
  }

  /** Setting below a missing entry is setting below the entry just inserted. */
  lemma SetUnderMissing(b: Build, f: Forest, n: string, q: seq<string>, v: string)
    requires !Has(f, n)
    ensures Set(b, f, [n] + q, v) == Set(b, Insert(b, f, n), [n] + q, v)
  {
    InsertFinds(b, f, n);
    InsertFinds(b, Insert(b, f, n), n);
    TouchExists(b, f, [n] + q);
  }

  function OwnLeaf(n: string, v: Option<string>): seq<Leaf> {
    if v.Some? then [Leaf([n], v.value)] else []
  }

  function WithVal(f: Forest, n: string, v: Option<string>): Forest {
    if v.Some? then SetVal(f, n, v.value) else f
  }

  /** The lines of one entry and everything below it, read into a list that lacks the entry. */
  lemma SetAllOneEntry(b: Build, f: Forest, n: string, v: Option<string>, ls: seq<Leaf>)
    requires !Has(f, n) && HasPaths(ls) && (v.Some? || ls != [])
    ensures HasPaths(OwnLeaf(n, v) + Under(n, ls))
    ensures SetAll(b, f, OwnLeaf(n, v) + Under(n, ls)) ==
            SetKids(WithVal(Insert(b, f, n), n, v), n, SetAll(b, Nil, ls))
  {
    var own, g := OwnLeaf(n, v), Insert(b, f, n);
    UnderHasPaths(n, ls);
    InsertFinds(b, f, n);
    SetAllConcat(b, f, own, Under(n, ls));
    if v.Some? {
      SetUnderMissing(b, f, n, [], v.value);
      SetKidsTwice(g, n, Nil, Nil);
      assert [n] + [] == [n] && [n][1..] == [];
      assert Touch(b, g, [n]) == g;
      assert Set(b, f, [n], v.value) == SetVal(g, n, v.value);
      SetAllOneLeaf(b, f, Leaf([n], v.value));
      SetValFinds(g, n, v.value);
      SetAllUnder(b, SetVal(g, n, v.value), n, ls);
    } else {
      SetUnderMissing(b, f, n, ls[0].path, ls[0].val);
      assert own + Under(n, ls) == Under(n, ls);
      assert SetAll(b, f, Under(n, ls)) == SetAll(b, g, Under(n, ls));
      SetAllUnder(b, g, n, ls);
    }
  }

  lemma SetAllOneLeaf(b: Build, f: Forest, l: Leaf)
    requires l.path != []
    ensures HasPaths([l]) && SetAll(b, f, [l]) == Set(b, f, l.path, l.val)
  {
    assert [l][1..] == [];
  }

  // ----- where the new entry stands -----

  lemma {:induction false} AppendFacts(f: Forest, g: Forest, h: Forest)
    ensures Append(Append(f, g), h) == Append(f, Append(g, h))
    ensures Append(f, Nil) == f
    ensures forall n :: Has(Append(f, g), n) <==> (Has(f, n) || Has(g, n))
  {
    if f.Cons? { AppendFacts(f.rest, g, h); }
  }

  ghost predicate AllLess(f: Forest, n: string) {
    forall m :: Has(f, m) ==> Less(m, n)
  }

  lemma {:induction false} FillAtEnd(f: Forest, n: string, v: Option<string>, k: Forest)
    requires AllLess(f, n)
    ensures SetKids(WithVal(Insert(Sorted, f, n), n, v), n, k) == Append(f, Cons(n, v, k, Nil))
  {
    if f.Cons? {
      assert Has(f, f.name);
      LessTotal(f.name, n);
      FillAtEnd(f.rest, n, v, k);
    }
  }

  /** Where the forest read so far and the part still to be read end up. */
  function Joined(b: Build, done: Forest, f: Forest): Forest {
    if b.Linear? then Append(Rebuilt(b, f), done) else Append(done, Rebuilt(b, f))
  }

  lemma {:induction false} NoLeavesMeansPruned(f: Forest)
    ensures Leaves(f) == [] <==> Prune(f) == Nil
  {
    if f.Cons? {
      NoLeavesMeansPruned(f.kids);
      NoLeavesMeansPruned(f.rest);
      UnderHasPaths(f.name, Leaves(f.kids));
    }
  }

  /** What has been read once the first entry of f has been replayed. */
  function Placed(b: Build, done: Forest, f: Forest): Forest
    requires f.Cons?
  {
    var k := Rebuilt(b, f.kids);
    if b.Linear? then Cons(f.name, f.val, k, done) else Append(done, Cons(f.name, f.val, k, Nil))
  }

  lemma AfterPlacing(b: Build, done: Forest, f: Forest)
    requires f.Cons? && WellFormed(b, f) && !(f.val.None? && Prune(f.kids).Nil?)
    requires forall n :: Has(f, n) ==> !Has(done, n) && (b.Sorted? ==> AllLess(done, n))
    ensures SetKids(WithVal(Insert(b, done, f.name), f.name, f.val), f.name, Rebuilt(b, f.kids)) ==
            Placed(b, done, f)
    ensures Joined(b, Placed(b, done, f), f.rest) == Joined(b, done, f)
    ensures forall n :: Has(f.rest, n) ==>
              !Has(Placed(b, done, f), n) && (b.Sorted? ==> AllLess(Placed(b, done, f), n))
  {
    var n, v, k := f.name, f.val, Rebuilt(b, f.kids);
    assert Has(f, n);
    assert forall m :: Has(f.rest, m) ==> Has(f, m);
    if b.Linear? {
      AppendFacts(Rebuilt(b, f.rest), Cons(n, v, k, Nil), done);
    } else {
      FillAtEnd(done, n, v, k);
      AppendFacts(done, Cons(n, v, k, Nil), Rebuilt(b, f.rest));
    }
  }

  /** Replaying the leaves of f behind what has been read already. */
  lemma {:induction false} Rebuild(b: Build, done: Forest, f: Forest)
    requires WellFormed(b, f)
    requires forall n :: Has(f, n) ==> !Has(done, n) && (b.Sorted? ==> AllLess(done, n))
    ensures HasPaths(Leaves(f)) && SetAll(b, done, Leaves(f)) == Joined(b, done, f)
    decreases f
  {
    LeavesHavePaths(f);
    if f.Cons? {
      var n, v, k, r := f.name, f.val, f.kids, f.rest;
      LeavesHavePaths(k);
      LeavesHavePaths(r);
      UnderHasPaths(n, Leaves(k));
      NoLeavesMeansPruned(k);
      assert Has(f, n);
      var group := OwnLeaf(n, v) + Under(n, Leaves(k));
      assert Leaves(f) == group + Leaves(r);
      SetAllConcat(b, done, group, Leaves(r));
      if v.None? && Prune(k) == Nil {
        assert group == [];
        assert forall m :: Has(r, m) ==> Has(f, m);
        Rebuild(b, done, r);
      } else {
        Rebuild(b, Nil, k);
        AppendFacts(Rebuilt(b, k), Nil, Nil);
        SetAllOneEntry(b, done, n, v, Leaves(k));
        var placed := Placed(b, done, f);
        AfterPlacing(b, done, f);
        Rebuild(b, placed, r);
      }
    } else {
      AppendFacts(done, Nil, Nil);
    }
  }
}
