/** What the three pointer edits of csdb do to the forest a shape stands for: linking a new entry,
    setting a value, unlinking an entry. */
module GraphEdits {
  import opened Options
  import opened CString
  import opened Forests
  import opened ForestMap
  import opened EntryGraph

  /** A set of entries that g and h record alike, closed under children. */
  ghost predicate Alike(g: Graph, h: Graph, s: set<Entry>) {
    forall x {:trigger x in s} :: x in s ==>
      && x in g.cells
      && x in h.cells
      && g.cells[x] == h.cells[x]
      && forall i :: 0 <= i < |g.cells[x].kids| ==> g.cells[x].kids[i] in s
  }

  lemma {:induction false} AlikeTrees(b: Build, g: Graph, h: Graph, s: set<Entry>, ks: seq<Entry>, d: nat)
    requires WF(b, g) && WF(b, h) && At(g, ks, d) && Alike(g, h, s)
    requires forall i :: 0 <= i < |ks| ==> ks[i] in s
    ensures At(h, ks, d) && Trees(b, g, ks, d) == Trees(b, h, ks, d)
    decreases g.bound + 1 - d, |ks|
  {
    assert At(h, ks, d) by {
      forall i | 0 <= i < |ks|
        ensures ks[i] in h.cells && |h.cells[ks[i]].path| == d
      {
        assert ks[i] in s;
      }
    }
    if ks != [] {
      assert ks[0] in s;
      assert NodeOk(b, g, ks[0]) && NodeOk(b, h, ks[0]);
      AlikeTrees(b, g, h, s, g.cells[ks[0]].kids, d + 1);
      AlikeTrees(b, g, h, s, ks[1..], d);
    }
  }

  lemma TreesOfCons(b: Build, g: Graph, k: Entry, ks: seq<Entry>, d: nat)
    requires WF(b, g) && k in g.cells && |g.cells[k].path| == d && At(g, ks, d)
    ensures At(g, [k] + ks, d)
    ensures Trees(b, g, [k] + ks, d) ==
            Cons(g.cells[k].name, g.cells[k].val, TreeKids(b, g, k), Trees(b, g, ks, d))
  {
    assert NodeOk(b, g, k);
    assert ([k] + ks)[1..] == ks;
  }

  lemma KidsAlike(b: Build, g: Graph, h: Graph, s: set<Entry>, k: Entry)
    requires WF(b, g) && WF(b, h) && Alike(g, h, s) && k in s
    ensures TreeKids(b, g, k) == TreeKids(b, h, k)
  {
    assert NodeOk(b, g, k) && NodeOk(b, h, k);
    AlikeTrees(b, g, h, s, g.cells[k].kids, |g.cells[k].path| + 1);
  }

  /** The entries neither above nor below p, nor at p. */
  ghost function Beside(g: Graph, p: seq<string>): set<Entry> {
    set x | x in g.cells && !(g.cells[x].path <= p) && !(p <= g.cells[x].path)
  }

  lemma BesideIsClosed(b: Build, g: Graph, p: seq<string>, x: Entry, i: nat)
    requires WF(b, g) && x in Beside(g, p) && i < |g.cells[x].kids|
    ensures g.cells[x].kids[i] in Beside(g, p)
  {
    assert NodeOk(b, g, x);
    var k := g.cells[x].kids[i];
    assert KidOk(g, x, k);
  }

  /** Outside what is at or below p, g and h record the same entries. */
  ghost predicate SameOutside(g: Graph, h: Graph, p: seq<string>) {
    forall x {:trigger x in g.cells} :: x in g.cells && !(p <= g.cells[x].path) ==>
      x in h.cells && g.cells[x] == h.cells[x]
  }

  lemma BesideAlike(b: Build, g: Graph, h: Graph, p: seq<string>)
    requires WF(b, g) && SameOutside(g, h, p)
    ensures Alike(g, h, Beside(g, p))
  {
    forall x | x in Beside(g, p)
      ensures x in g.cells && x in h.cells && g.cells[x] == h.cells[x]
      ensures forall i :: 0 <= i < |g.cells[x].kids| ==> g.cells[x].kids[i] in Beside(g, p)
    {
      forall i | 0 <= i < |g.cells[x].kids|
        ensures g.cells[x].kids[i] in Beside(g, p)
      {
        BesideIsClosed(b, g, p, x, i);
      }
    }
  }

  /** e keeps its name, value, parent and path; only what hangs below it may differ. */
  ghost predicate SameEntry(g: Graph, h: Graph, e: Entry) {
    && e in g.cells
    && e in h.cells
    && h.cells[e] == g.cells[e].(kids := h.cells[e].kids)
  }

  lemma SiblingsStayAt(g: Graph, h: Graph, p: seq<string>, ks: seq<Entry>, d: nat, j: nat)
    requires At(g, ks, d) && SameOutside(g, h, p) && j < |ks| && SameEntry(g, h, ks[j])
    requires forall i :: 0 <= i < |ks| && i != j ==> ks[i] in Beside(g, p)
    ensures At(h, ks, d)
  {
    forall i | 0 <= i < |ks|
      ensures ks[i] in h.cells && |h.cells[ks[i]].path| == d
    {
      if i != j { assert ks[i] in Beside(g, p); }
    }
  }

  /** What holds of a sibling list holds of its tail. */
  lemma OtherSiblings(b: Build, g: Graph, p: seq<string>, ks: seq<Entry>, d: nat, j: nat)
    requires At(g, ks, d) && NamesOk(b, g, ks) && j < |ks|
    requires forall i :: 0 <= i < |ks| && i != j ==> ks[i] in Beside(g, p)
    ensures At(g, ks[1..], d) && NamesOk(b, g, ks[1..])
    ensures forall i :: 0 <= i < |ks[1..]| && i != j - 1 ==> ks[1..][i] in Beside(g, p)
  {
    var rest := ks[1..];
    assert forall i :: 0 <= i < |rest| ==> rest[i] == ks[i + 1];
    forall i, l | 0 <= i < l < |rest|
      ensures var m, n := g.cells[rest[i]].name, g.cells[rest[l]].name;
              if b.Sorted? then Less(m, n) else m != n
    {
      assert rest[i] == ks[i + 1] && rest[l] == ks[l + 1];
    }
  }

  /** The sibling list that holds c, when nothing changed outside c. */
  lemma {:induction false} OneChildChanged(b: Build, g: Graph, h: Graph, p: seq<string>, ks: seq<Entry>, d: nat, j: nat)
    requires WF(b, g) && WF(b, h) && At(g, ks, d) && NamesOk(b, g, ks) && SameOutside(g, h, p)
    requires j < |ks| && g.cells[ks[j]].path <= p && SameEntry(g, h, ks[j])
    requires forall i :: 0 <= i < |ks| && i != j ==> ks[i] in Beside(g, p)
    ensures At(h, ks, d)
    ensures Trees(b, h, ks, d) == SetKids(Trees(b, g, ks, d), g.cells[ks[j]].name, TreeKids(b, h, ks[j]))
    decreases |ks|
  {
    BesideAlike(b, g, h, p);
    var rest := ks[1..];
    assert ks == [ks[0]] + rest;
    OtherSiblings(b, g, p, ks, d, j);
    SiblingsStayAt(g, h, p, ks, d, j);
    TreesOfCons(b, g, ks[0], rest, d);
    if j == 0 {
      AlikeTrees(b, g, h, Beside(g, p), rest, d);
    } else {
      LessTotal(g.cells[ks[0]].name, g.cells[ks[j]].name);
      assert ks[0] in Beside(g, p);
      KidsAlike(b, g, h, Beside(g, p), ks[0]);
      assert rest[j - 1] == ks[j];
      OneChildChanged(b, g, h, p, rest, d, j - 1);
    }
    TreesOfCons(b, h, ks[0], rest, d);
  }

  /** Seen from any entry x on the way down to e: the forest below x differs from before in the
      sibling list below e only. */
  lemma {:induction false} ChangeSeenFrom(b: Build, g: Graph, h: Graph, e: Entry, x: Entry)
    requires WF(b, g) && WF(b, h) && g.root == h.root && SameEntry(g, h, e)
    requires SameOutside(g, h, g.cells[e].path)
    requires x in g.cells && |g.cells[x].path| <= |g.cells[e].path|
    requires x == Ancestor(b, g, e, |g.cells[x].path|)
    ensures x in h.cells && Exists(TreeKids(b, g, x), g.cells[e].path[|g.cells[x].path|..])
    ensures TreeKids(b, h, x) ==
            ReplaceBelow(TreeKids(b, g, x), g.cells[e].path[|g.cells[x].path|..], TreeKids(b, h, e))
    decreases |g.cells[e].path| - |g.cells[x].path|
  {
    var p, n := g.cells[e].path, |g.cells[x].path|;
    if n == |p| {
      assert p[n..] == [];
    } else {
      var c := Ancestor(b, g, e, n + 1);
      assert NodeOk(b, g, x) && NodeOk(b, g, c);
      var ks := g.cells[x].kids;
      var j :| 0 <= j < |ks| && ks[j] == c;
      assert KidOk(g, x, ks[j]);
      ChangeSeenFrom(b, g, h, e, c);
      SiblingsBeside(b, g, e, x, j);
      SameAncestor(b, g, h, e, x);
      SameAncestor(b, g, h, e, c);
      OneChildChanged(b, g, h, p, ks, n + 1, j);
      TreesAt(b, g, ks, n + 1, j);
      assert p[n] == g.cells[c].name && p[n..][1..] == p[n + 1..];
    }
  }

  /** The entry above e, or e itself, whose path has n parts. */
  ghost function Ancestor(b: Build, g: Graph, e: Entry, n: nat): (x: Entry)
    requires WF(b, g) && e in g.cells && n <= |g.cells[e].path|
    ensures x in g.cells && g.cells[x].path == g.cells[e].path[..n]
    ensures n < |g.cells[e].path| ==>
              Ancestor(b, g, e, n + 1) in g.cells[x].kids && g.cells[Ancestor(b, g, e, n + 1)].parent == x
    decreases |g.cells[e].path| - n
  {
    if n == |g.cells[e].path| then e
    else
      var c := Ancestor(b, g, e, n + 1);
      assert NodeOk(b, g, c);
      var x := g.cells[c].parent;
      assert NodeOk(b, g, x);
      var i :| 0 <= i < |g.cells[x].kids| && g.cells[x].kids[i] == c;
      assert KidOk(g, x, g.cells[x].kids[i]);
      x
  }

  lemma SameAncestor(b: Build, g: Graph, h: Graph, e: Entry, x: Entry)
    requires WF(b, g) && SameEntry(g, h, e) && SameOutside(g, h, g.cells[e].path)
    requires x in g.cells && |g.cells[x].path| <= |g.cells[e].path|
    requires x == Ancestor(b, g, e, |g.cells[x].path|)
    ensures SameEntry(g, h, x)
  {
    if |g.cells[x].path| == |g.cells[e].path| { assert x == e; }
  }

  lemma SiblingsBeside(b: Build, g: Graph, e: Entry, x: Entry, j: nat)
    requires WF(b, g) && e in g.cells && x in g.cells && j < |g.cells[x].kids|
    requires var c := g.cells[x].kids[j]; c in g.cells && g.cells[c].path <= g.cells[e].path
    ensures forall i :: 0 <= i < |g.cells[x].kids| && i != j ==> g.cells[x].kids[i] in Beside(g, g.cells[e].path)
  {
    assert NodeOk(b, g, x);
    var ks, p := g.cells[x].kids, g.cells[e].path;
    forall i | 0 <= i < |ks| && i != j
      ensures ks[i] in Beside(g, p)
    {
      assert KidOk(g, x, ks[i]) && KidOk(g, x, ks[j]);
      var n := |g.cells[x].path|;
      LessTotal(g.cells[ks[i]].name, g.cells[ks[j]].name);
      assert g.cells[ks[i]].path[n] == g.cells[ks[i]].name;
      assert g.cells[ks[j]].path[n] == g.cells[ks[j]].name == p[n];
    }
  }

  /** The whole forest after a change below e. */
  lemma ChangeBelow(b: Build, g: Graph, h: Graph, e: Entry)
    requires WF(b, g) && WF(b, h) && g.root == h.root && SameEntry(g, h, e)
    requires SameOutside(g, h, g.cells[e].path)
    ensures Exists(Top(b, g), g.cells[e].path)
    ensures Top(b, h) == ReplaceBelow(Top(b, g), g.cells[e].path, TreeKids(b, h, e))
  {
    EntryInForest(b, g, e);
    assert NodeOk(b, g, g.root);
    RootIsAncestor(b, g, e, 0);
    ChangeSeenFrom(b, g, h, e, g.root);
    assert g.cells[e].path[0..] == g.cells[e].path;
  }

  lemma RootIsAncestor(b: Build, g: Graph, e: Entry, n: nat)
    requires WF(b, g) && e in g.cells && n == 0
    ensures Ancestor(b, g, e, n) == g.root
  {
    assert NodeOk(b, g, Ancestor(b, g, e, 0));
  }

  // ----- linking a new entry -----

  ghost function Link(g: Graph, e: Entry, c: Entry, n: string, pos: nat): Graph
    requires e in g.cells && pos <= |g.cells[e].kids|
  {
    var u := g.cells[e];
    var d := |u.path| + 1;
    Graph(g.cells[e := u.(kids := u.kids[..pos] + [c] + u.kids[pos..])][c := Cell(n, None, e, [], u.path + [n])],
          g.root, if d > g.bound then d else g.bound)
  }

  /** The place where the build puts a new name: in front, or between the smaller and the greater. */
  ghost predicate PlaceFor(b: Build, g: Graph, ks: seq<Entry>, n: string, pos: nat)
    requires forall i :: 0 <= i < |ks| ==> ks[i] in g.cells
  {
    && pos <= |ks|
    && (b.Linear? ==> pos == 0)
    && (b.Sorted? ==> forall i :: 0 <= i < pos ==> Less(g.cells[ks[i]].name, n))
    && (b.Sorted? ==> forall i :: pos <= i < |ks| ==> Less(n, g.cells[ks[i]].name))
    && forall i :: 0 <= i < |ks| ==> g.cells[ks[i]].name != n
  }

  ghost predicate CanLink(b: Build, g: Graph, e: Entry, c: Entry, n: string, pos: nat) {
    && WF(b, g)
    && e in g.cells
    && c !in g.cells
    && (forall i :: 0 <= i < |g.cells[e].kids| ==> g.cells[e].kids[i] in g.cells)
    && PlaceFor(b, g, g.cells[e].kids, n, pos)
  }

  lemma LinkKeepsWF(b: Build, g: Graph, e: Entry, c: Entry, n: string, pos: nat)
    requires CanLink(b, g, e, c, n, pos)
    ensures WF(b, Link(g, e, c, n, pos))
  {
    var h := Link(g, e, c, n, pos);
    forall x | x in h.cells
      ensures NodeOk(b, h, x)
    {
      if x == c {
        assert c in h.cells[e].kids by { assert h.cells[e].kids[pos] == c; }
        RootIsNot(b, g, c);
      } else if x == e {
        LinkedParentOk(b, g, e, c, n, pos);
      } else {
        LinkedOtherOk(b, g, e, c, n, pos, x);
      }
    }
  }

  lemma RootIsNot(b: Build, g: Graph, c: Entry)
    requires WF(b, g) && c !in g.cells
    ensures c != g.root
  {
  }

  lemma LinkedParentOk(b: Build, g: Graph, e: Entry, c: Entry, n: string, pos: nat)
    requires CanLink(b, g, e, c, n, pos)
    ensures NodeOk(b, Link(g, e, c, n, pos), e)
  {
    var h := Link(g, e, c, n, pos);
    var ks, ls := g.cells[e].kids, h.cells[e].kids;
    assert NodeOk(b, g, e);
    forall i | 0 <= i < |ls|
      ensures KidOk(h, e, ls[i])
    {
      if i < pos {
        assert ls[i] == ks[i] && KidOk(g, e, ks[i]);
      } else if i > pos {
        assert ls[i] == ks[i - 1] && KidOk(g, e, ks[i - 1]);
      }
    }
    if e != g.root { ParentStays(b, g, e, c, n, pos, e); }
    LinkedNamesOk(b, g, e, c, n, pos);
  }

  /** Which child stands where after the insertion. */
  lemma LinkedKid(b: Build, g: Graph, e: Entry, c: Entry, n: string, pos: nat, i: nat)
    requires CanLink(b, g, e, c, n, pos) && i <= |g.cells[e].kids|
    ensures var h, ks := Link(g, e, c, n, pos), g.cells[e].kids;
            && h.cells[e].kids[i] == (if i < pos then ks[i] else if i == pos then c else ks[i - 1])
            && h.cells[e].kids[i] in h.cells
            && h.cells[h.cells[e].kids[i]].name ==
               (if i < pos then g.cells[ks[i]].name else if i == pos then n else g.cells[ks[i - 1]].name)
  {
  }

  lemma LinkedNamesOk(b: Build, g: Graph, e: Entry, c: Entry, n: string, pos: nat)
    requires CanLink(b, g, e, c, n, pos)
    ensures var h := Link(g, e, c, n, pos);
            && (forall i :: 0 <= i < |h.cells[e].kids| ==> h.cells[e].kids[i] in h.cells)
            && NamesOk(b, h, h.cells[e].kids)
  {
    var h := Link(g, e, c, n, pos);
    var ls := h.cells[e].kids;
    assert NodeOk(b, g, e);
    forall i | 0 <= i < |ls|
      ensures ls[i] in h.cells
    {
      LinkedKid(b, g, e, c, n, pos, i);
    }
    forall i, j | 0 <= i < j < |ls|
      ensures var m, o := h.cells[ls[i]].name, h.cells[ls[j]].name; if b.Sorted? then Less(m, o) else m != o
    {
      LinkedKid(b, g, e, c, n, pos, i);
      LinkedKid(b, g, e, c, n, pos, j);
    }
  }

  lemma LinkedOtherOk(b: Build, g: Graph, e: Entry, c: Entry, n: string, pos: nat, x: Entry)
    requires CanLink(b, g, e, c, n, pos) && x in g.cells && x != e
    ensures NodeOk(b, Link(g, e, c, n, pos), x)
  {
    var h := Link(g, e, c, n, pos);
    assert NodeOk(b, g, x);
    var ks := g.cells[x].kids;
    forall i | 0 <= i < |ks|
      ensures KidOk(h, x, ks[i])
    {
      assert KidOk(g, x, ks[i]);
    }
    if x != g.root { ParentStays(b, g, e, c, n, pos, x); }
  }

  lemma ParentStays(b: Build, g: Graph, e: Entry, c: Entry, n: string, pos: nat, x: Entry)
    requires CanLink(b, g, e, c, n, pos) && x in g.cells && x != g.root
    ensures var h, u := Link(g, e, c, n, pos), g.cells[x].parent; u in h.cells && x in h.cells[u].kids
  {
    assert NodeOk(b, g, x);
    var h, u := Link(g, e, c, n, pos), g.cells[x].parent;
    var i :| 0 <= i < |g.cells[u].kids| && g.cells[u].kids[i] == x;
    if u == e {
      assert h.cells[u].kids[if i < pos then i else i + 1] == x;
    }
  }

  /** Which lists an insertion leaves alone. */
  lemma LinkIsInsert(b: Build, g: Graph, e: Entry, c: Entry, n: string, pos: nat)
    requires CanLink(b, g, e, c, n, pos) && WF(b, Link(g, e, c, n, pos))
    ensures TreeKids(b, Link(g, e, c, n, pos), e) == Insert(b, TreeKids(b, g, e), n)
  {
    var h := Link(g, e, c, n, pos);
    assert NodeOk(b, g, e);
    assert NodeOk(b, h, e);
    var s := set x | x in g.cells && !(g.cells[x].path <= g.cells[e].path);
    LinkAlike(b, g, e, c, n, pos, s);
    forall i | 0 <= i < |g.cells[e].kids|
      ensures g.cells[e].kids[i] in s
    {
      assert KidOk(g, e, g.cells[e].kids[i]);
    }
    InsertTrees(b, g, h, s, g.cells[e].kids, |g.cells[e].path| + 1, c, n, pos);
  }

  lemma LinkAlike(b: Build, g: Graph, e: Entry, c: Entry, n: string, pos: nat, s: set<Entry>)
    requires CanLink(b, g, e, c, n, pos)
    requires s == set x | x in g.cells && !(g.cells[x].path <= g.cells[e].path)
    ensures Alike(g, Link(g, e, c, n, pos), s)
  {
    forall x | x in s
      ensures forall i :: 0 <= i < |g.cells[x].kids| ==> g.cells[x].kids[i] in s
    {
      assert NodeOk(b, g, x);
      forall i | 0 <= i < |g.cells[x].kids|
        ensures g.cells[x].kids[i] in s
      {
        KidStaysOff(b, g, x, i, g.cells[e].path);
      }
    }
  }

  /** A child is not above p when its parent is not. */
  lemma KidStaysOff(b: Build, g: Graph, x: Entry, i: nat, p: seq<string>)
    requires WF(b, g) && x in g.cells && i < |g.cells[x].kids| && !(g.cells[x].path <= p)
    ensures g.cells[x].kids[i] in g.cells && !(g.cells[g.cells[x].kids[i]].path <= p)
  {
    assert NodeOk(b, g, x);
    assert KidOk(g, x, g.cells[x].kids[i]);
  }

  lemma {:induction false} InsertTrees(b: Build, g: Graph, h: Graph, s: set<Entry>, ks: seq<Entry>, d: nat,
                                       c: Entry, n: string, pos: nat)
    requires WF(b, g) && WF(b, h) && At(g, ks, d) && Alike(g, h, s)
    requires forall i :: 0 <= i < |ks| ==> ks[i] in s
    requires PlaceFor(b, g, ks, n, pos)
    requires c in h.cells && h.cells[c].name == n && h.cells[c].val == None && h.cells[c].kids == [] && |h.cells[c].path| == d
    ensures At(h, ks[..pos] + [c] + ks[pos..], d)
    ensures Trees(b, h, ks[..pos] + [c] + ks[pos..], d) == Insert(b, Trees(b, g, ks, d), n)
    decreases |ks|
  {
    AlikeTrees(b, g, h, s, ks, d);
    if pos == 0 {
      assert ks[..0] + [c] + ks[0..] == [c] + ks;
      TreesOfCons(b, h, c, ks, d);
    } else {
      var rest := ks[1..];
      var ls := rest[..pos - 1] + [c] + rest[pos - 1..];
      assert ks == [ks[0]] + rest;
      assert ks[..pos] + [c] + ks[pos..] == [ks[0]] + ls;
      assert ks[0] in s;
      assert forall i :: 0 <= i < |rest| ==> rest[i] == ks[i + 1];
      InsertTrees(b, g, h, s, rest, d, c, n, pos - 1);
      TreesOfCons(b, h, ks[0], ls, d);
      TreesOfCons(b, h, ks[0], rest, d);
      LessTotal(g.cells[ks[0]].name, n);
      AlikeTrees(b, g, h, s, rest, d);
    }
  }

  /** Linking a new entry adds it at its path and changes nothing else. */
  lemma LinkAdds(b: Build, g: Graph, e: Entry, c: Entry, n: string, pos: nat)
    requires CanLink(b, g, e, c, n, pos)
    ensures WF(b, Link(g, e, c, n, pos))
    ensures Exists(Top(b, g), g.cells[e].path)
    ensures Top(b, Link(g, e, c, n, pos)) == AddKid(b, Top(b, g), g.cells[e].path, n)
  {
    var h := Link(g, e, c, n, pos);
    LinkKeepsWF(b, g, e, c, n, pos);
    ChangeBelow(b, g, h, e);
    LinkIsInsert(b, g, e, c, n, pos);
    EntryInForest(b, g, e);
    EditsAreLocal(b, Top(b, g), g.cells[e].path, n, "");
  }

  // ----- setting a value -----

  ghost function Assign(g: Graph, x: Entry, v: string): Graph
    requires x in g.cells
  {
    g.(cells := g.cells[x := g.cells[x].(val := Some(v))])
  }

  lemma AssignKeepsWF(b: Build, g: Graph, x: Entry, v: string)
    requires WF(b, g) && x in g.cells
    ensures WF(b, Assign(g, x, v))
  {
    var h := Assign(g, x, v);
    forall y | y in h.cells
      ensures NodeOk(b, h, y)
    {
      assert NodeOk(b, g, y);
      forall i | 0 <= i < |h.cells[y].kids|
        ensures KidOk(h, y, h.cells[y].kids[i])
      {
        assert KidOk(g, y, g.cells[y].kids[i]);
      }
    }
  }

  lemma AssignAlike(b: Build, g: Graph, x: Entry, v: string, s: set<Entry>)
    requires WF(b, g) && x in g.cells
    requires s == set y | y in g.cells && !(g.cells[y].path <= g.cells[x].path)
    ensures Alike(g, Assign(g, x, v), s)
  {
    forall y | y in s
      ensures forall i :: 0 <= i < |g.cells[y].kids| ==> g.cells[y].kids[i] in s
    {
      forall i | 0 <= i < |g.cells[y].kids|
        ensures g.cells[y].kids[i] in s
      {
        KidStaysOff(b, g, y, i, g.cells[x].path);
      }
    }
  }

  lemma {:induction false} AssignTrees(b: Build, g: Graph, x: Entry, v: string, s: set<Entry>,
                                       ks: seq<Entry>, d: nat, j: nat)
    requires WF(b, g) && x in g.cells && WF(b, Assign(g, x, v)) && Alike(g, Assign(g, x, v), s)
    requires At(g, ks, d) && At(Assign(g, x, v), ks, d) && NamesOk(b, g, ks)
    requires j < |ks| && ks[j] == x && forall i :: 0 <= i < |ks| && i != j ==> ks[i] in s
    ensures Trees(b, Assign(g, x, v), ks, d) == SetVal(Trees(b, g, ks, d), g.cells[x].name, v)
    decreases |ks|
  {
    var h, rest := Assign(g, x, v), ks[1..];
    assert ks == [ks[0]] + rest;
    assert forall i :: 0 <= i < |rest| ==> rest[i] == ks[i + 1];
    TreesOfCons(b, g, ks[0], rest, d);
    TreesOfCons(b, h, ks[0], rest, d);
    if j == 0 {
      AssignKeepsKids(b, g, x, v);
      AlikeTrees(b, g, h, s, rest, d);
    } else {
      LessTotal(g.cells[ks[0]].name, g.cells[x].name);
      assert ks[0] in s;
      KidsAlike(b, g, h, s, ks[0]);
      AssignTrees(b, g, x, v, s, rest, d, j - 1);
    }
  }

  lemma AssignKeepsKids(b: Build, g: Graph, x: Entry, v: string)
    requires WF(b, g) && x in g.cells && WF(b, Assign(g, x, v))
    ensures TreeKids(b, Assign(g, x, v), x) == TreeKids(b, g, x)
  {
    var h := Assign(g, x, v);
    var s := set y | y in g.cells && !(g.cells[y].path <= g.cells[x].path);
    AssignAlike(b, g, x, v, s);
    assert NodeOk(b, g, x) && NodeOk(b, h, x);
    forall i | 0 <= i < |g.cells[x].kids|
      ensures g.cells[x].kids[i] in s
    {
      assert KidOk(g, x, g.cells[x].kids[i]);
    }
    AlikeTrees(b, g, h, s, g.cells[x].kids, |g.cells[x].path| + 1);
  }

  /** Setting the value of an entry sets it at the entry's path; the root's own value is not part
      of the forest. */
  lemma AssignPuts(b: Build, g: Graph, x: Entry, v: string)
    requires WF(b, g) && x in g.cells
    ensures WF(b, Assign(g, x, v))
    ensures Exists(Top(b, g), g.cells[x].path)
    ensures x == g.root ==> Top(b, Assign(g, x, v)) == Top(b, g)
    ensures x != g.root ==> g.cells[x].path != []
    ensures x != g.root ==> Top(b, Assign(g, x, v)) == Put(Top(b, g), g.cells[x].path, v)
  {
    var h := Assign(g, x, v);
    AssignKeepsWF(b, g, x, v);
    EntryInForest(b, g, x);
    assert NodeOk(b, g, x) && NodeOk(b, h, x);
    if x == g.root {
      AssignKeepsKids(b, g, x, v);
    } else {
      var e := g.cells[x].parent;
      assert NodeOk(b, g, e) && NodeOk(b, h, e);
      var j :| 0 <= j < |g.cells[e].kids| && g.cells[e].kids[j] == x;
      assert KidOk(g, e, g.cells[e].kids[j]);
      AssignChangesKids(b, g, e, v, j);
      ChangeBelow(b, g, h, e);
      EntryInForest(b, g, e);
      EditsAreLocal(b, Top(b, g), g.cells[e].path, g.cells[x].name, v);
    }
  }

  lemma AssignChangesKids(b: Build, g: Graph, e: Entry, v: string, j: nat)
    requires WF(b, g) && e in g.cells && j < |g.cells[e].kids| && g.cells[e].kids[j] in g.cells
    requires WF(b, Assign(g, g.cells[e].kids[j], v)) && e != g.cells[e].kids[j]
    ensures var x := g.cells[e].kids[j];
            TreeKids(b, Assign(g, x, v), e) == SetVal(TreeKids(b, g, e), g.cells[x].name, v)
  {
    var x := g.cells[e].kids[j];
    var h := Assign(g, x, v);
    var s := set y | y in g.cells && !(g.cells[y].path <= g.cells[x].path);
    assert NodeOk(b, g, e) && NodeOk(b, h, e);
    AssignSiblings(b, g, e, j);
    AssignAlike(b, g, x, v, s);
    AssignTrees(b, g, x, v, s, g.cells[e].kids, |g.cells[e].path| + 1, j);
  }

  lemma AssignSiblings(b: Build, g: Graph, e: Entry, j: nat)
    requires WF(b, g) && e in g.cells && j < |g.cells[e].kids|
    ensures var ks := g.cells[e].kids;
            forall i :: 0 <= i < |ks| && i != j ==>
              ks[i] in g.cells && ks[j] in g.cells && !(g.cells[ks[i]].path <= g.cells[ks[j]].path)
  {
    assert NodeOk(b, g, e);
    var ks := g.cells[e].kids;
    forall i | 0 <= i < |ks| && i != j
      ensures ks[i] in g.cells && ks[j] in g.cells && !(g.cells[ks[i]].path <= g.cells[ks[j]].path)
    {
      assert KidOk(g, e, ks[i]) && KidOk(g, e, ks[j]);
      LessTotal(g.cells[ks[i]].name, g.cells[ks[j]].name);
      var n := |g.cells[e].path|;
      assert g.cells[ks[i]].path[n] == g.cells[ks[i]].name;
      assert g.cells[ks[j]].path[n] == g.cells[ks[j]].name;
    }
  }
}
