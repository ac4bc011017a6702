/** Unlinking an entry with everything below it. */
module GraphUnlink {
  import opened CString
  import opened Forests
  import opened ForestMap
  import opened EntryGraph
  import opened GraphEdits

  /** Two entries with the same path are the same entry. */
  lemma {:induction false} PathIsUnique(b: Build, g: Graph, x: Entry, y: Entry)
    requires WF(b, g) && x in g.cells && y in g.cells && g.cells[x].path == g.cells[y].path
    ensures x == y
    decreases |g.cells[x].path|
  {
    assert NodeOk(b, g, x) && NodeOk(b, g, y);
    if x != g.root {
      var u, v := g.cells[x].parent, g.cells[y].parent;
      assert NodeOk(b, g, u) && NodeOk(b, g, v);
      var i :| 0 <= i < |g.cells[u].kids| && g.cells[u].kids[i] == x;
      var j :| 0 <= j < |g.cells[v].kids| && g.cells[v].kids[j] == y;
      assert KidOk(g, u, g.cells[u].kids[i]) && KidOk(g, v, g.cells[v].kids[j]);
      LastOfExtended(g.cells[u].path, g.cells[x].name, g.cells[v].path, g.cells[y].name);
      PathIsUnique(b, g, u, v);
      LessTotal(g.cells[x].name, g.cells[y].name);
    }
  }

  lemma LastOfExtended(p: seq<string>, m: string, q: seq<string>, n: string)
    requires p + [m] == q + [n]
    ensures p == q && m == n
  {
    assert |p + [m]| == |q + [n]|;
    assert p == (p + [m])[..|p|] && q == (q + [n])[..|q|];
    assert m == (p + [m])[|p|] && n == (q + [n])[|q|];
  }

  lemma ExtendedPrefix(p: seq<string>, q: seq<string>, n: string)
    requires p <= q + [n]
    ensures p <= q || p == q + [n]
  {
    var r := q + [n];
    if |p| <= |q| { assert p == r[..|p|] == q[..|p|]; }
  }

  ghost function Unlink(g: Graph, x: Entry, j: nat): Graph
    requires x in g.cells && g.cells[x].parent in g.cells && j < |g.cells[g.cells[x].parent].kids|
  {
    var p, e := g.cells[x].path, g.cells[x].parent;
    var ks := g.cells[e].kids;
    g.(cells := map y | y in g.cells && !(p <= g.cells[y].path) ::
                  if y == e then g.cells[e].(kids := ks[..j] + ks[j + 1..]) else g.cells[y])
  }

  /** x is the j-th child of its parent. */
  ghost predicate CanUnlink(b: Build, g: Graph, x: Entry, j: nat) {
    && WF(b, g)
    && x in g.cells
    && x != g.root
    && g.cells[x].parent in g.cells
    && j < |g.cells[g.cells[x].parent].kids|
    && g.cells[g.cells[x].parent].kids[j] == x
  }

  lemma UnlinkBasics(b: Build, g: Graph, x: Entry, j: nat)
    requires CanUnlink(b, g, x, j)
    ensures var e, p := g.cells[x].parent, g.cells[x].path;
            && p == g.cells[e].path + [g.cells[x].name]
            && e in Unlink(g, x, j).cells && e != x
            && g.root in Unlink(g, x, j).cells
  {
    var e := g.cells[x].parent;
    assert NodeOk(b, g, e);
    assert KidOk(g, e, g.cells[e].kids[j]);
    assert NodeOk(b, g, g.root);
  }

  /** A child is removed only together with its parent, except for x itself. */
  lemma KidSurvives(b: Build, g: Graph, x: Entry, j: nat, y: Entry, i: nat)
    requires CanUnlink(b, g, x, j) && y in Unlink(g, x, j).cells && i < |g.cells[y].kids|
    requires g.cells[y].kids[i] != x
    ensures g.cells[y].kids[i] in Unlink(g, x, j).cells
  {
    assert NodeOk(b, g, y);
    var k := g.cells[y].kids[i];
    assert KidOk(g, y, k);
    if g.cells[x].path <= g.cells[k].path {
      ExtendedPrefix(g.cells[x].path, g.cells[y].path, g.cells[k].name);
      PathIsUnique(b, g, x, k);
    }
  }

  lemma OnlyParentHasX(b: Build, g: Graph, x: Entry, j: nat, y: Entry, i: nat)
    requires CanUnlink(b, g, x, j) && y in g.cells && i < |g.cells[y].kids|
    requires !(y == g.cells[x].parent && i == j)
    ensures g.cells[y].kids[i] != x
  {
    assert NodeOk(b, g, y);
    assert KidOk(g, y, g.cells[y].kids[i]);
    LessTotal(g.cells[g.cells[y].kids[i]].name, g.cells[x].name);
  }

  lemma UnlinkedParentOk(b: Build, g: Graph, x: Entry, j: nat)
    requires CanUnlink(b, g, x, j)
    ensures g.cells[x].parent in Unlink(g, x, j).cells
    ensures NodeOk(b, Unlink(g, x, j), g.cells[x].parent)
  {
    var h, e := Unlink(g, x, j), g.cells[x].parent;
    UnlinkBasics(b, g, x, j);
    assert NodeOk(b, g, e);
    var ks, ls := g.cells[e].kids, h.cells[e].kids;
    forall i | 0 <= i < |ls|
      ensures KidOk(h, e, ls[i]) && ls[i] == ks[if i < j then i else i + 1]
    {
      var o := if i < j then i else i + 1;
      assert ls[i] == ks[o];
      assert KidOk(g, e, ks[o]);
      OnlyParentHasX(b, g, x, j, e, o);
      KidSurvives(b, g, x, j, e, o);
    }
    if e != g.root { ParentSurvives(b, g, x, j, e); }
  }

  lemma ParentSurvives(b: Build, g: Graph, x: Entry, j: nat, y: Entry)
    requires CanUnlink(b, g, x, j) && y in Unlink(g, x, j).cells && y != g.root
    ensures var h, u := Unlink(g, x, j), g.cells[y].parent; u in h.cells && y in h.cells[u].kids
  {
    var h, u := Unlink(g, x, j), g.cells[y].parent;
    assert NodeOk(b, g, y);
    assert NodeOk(b, g, u);
    var i :| 0 <= i < |g.cells[u].kids| && g.cells[u].kids[i] == y;
    assert KidOk(g, u, g.cells[u].kids[i]);
    assert g.cells[u].path <= g.cells[y].path;
    if u == g.cells[x].parent {
      assert i != j;
      assert h.cells[u].kids[if i < j then i else i - 1] == y;
    }
  }

  lemma UnlinkKeepsWF(b: Build, g: Graph, x: Entry, j: nat)
    requires CanUnlink(b, g, x, j)
    ensures WF(b, Unlink(g, x, j))
  {
    var h := Unlink(g, x, j);
    UnlinkBasics(b, g, x, j);
    forall y | y in h.cells
      ensures NodeOk(b, h, y)
    {
      if y == g.cells[x].parent {
        UnlinkedParentOk(b, g, x, j);
      } else {
        assert NodeOk(b, g, y);
        forall i | 0 <= i < |g.cells[y].kids|
          ensures KidOk(h, y, g.cells[y].kids[i])
        {
          assert KidOk(g, y, g.cells[y].kids[i]);
          OnlyParentHasX(b, g, x, j, y, i);
          KidSurvives(b, g, x, j, y, i);
        }
        if y != g.root { ParentSurvives(b, g, x, j, y); }
      }
    }
  }

  /** Entries that are neither removed nor above x. */
  ghost function Untouched(g: Graph, x: Entry, j: nat): set<Entry>
    requires x in g.cells && g.cells[x].parent in g.cells && j < |g.cells[g.cells[x].parent].kids|
  {
    set y | y in Unlink(g, x, j).cells && !(g.cells[y].path <= g.cells[g.cells[x].parent].path)
  }

  lemma UnlinkAlike(b: Build, g: Graph, x: Entry, j: nat)
    requires CanUnlink(b, g, x, j)
    ensures Alike(g, Unlink(g, x, j), Untouched(g, x, j))
  {
    forall y | y in Untouched(g, x, j)
      ensures forall i :: 0 <= i < |g.cells[y].kids| ==> g.cells[y].kids[i] in Untouched(g, x, j)
    {
      forall i | 0 <= i < |g.cells[y].kids|
        ensures g.cells[y].kids[i] in Untouched(g, x, j)
      {
        KidStaysOff(b, g, y, i, g.cells[g.cells[x].parent].path);
        assert y != g.cells[x].parent;
        OnlyParentHasX(b, g, x, j, y, i);
        KidSurvives(b, g, x, j, y, i);
      }
    }
  }

  lemma {:induction false} DropTrees(b: Build, g: Graph, h: Graph, s: set<Entry>, ks: seq<Entry>, d: nat, j: nat)
    requires WF(b, g) && WF(b, h) && At(g, ks, d) && NamesOk(b, g, ks) && Alike(g, h, s)
    requires j < |ks| && forall i :: 0 <= i < |ks| && i != j ==> ks[i] in s
    ensures At(h, ks[..j] + ks[j + 1..], d)
    ensures Trees(b, h, ks[..j] + ks[j + 1..], d) == Drop(Trees(b, g, ks, d), g.cells[ks[j]].name)
    decreases |ks|
  {
    var rest := ks[1..];
    assert ks == [ks[0]] + rest;
    assert forall i :: 0 <= i < |rest| ==> rest[i] == ks[i + 1];
    TreesOfCons(b, g, ks[0], rest, d);
    if j == 0 {
      assert ks[..0] + ks[1..] == rest;
      AlikeTrees(b, g, h, s, rest, d);
    } else {
      assert ks[0] in s;
      LessTotal(g.cells[ks[0]].name, g.cells[ks[j]].name);
      KidsAlike(b, g, h, s, ks[0]);
      DropTrees(b, g, h, s, rest, d, j - 1);
      TreesOfCons(b, h, ks[0], rest[..j - 1] + rest[j..], d);
      WithoutLater(ks, j);
    }
  }

  lemma WithoutLater(ks: seq<Entry>, j: nat)
    requires 0 < j < |ks|
    ensures ks[..j] + ks[j + 1..] == [ks[0]] + (ks[1..][..j - 1] + ks[1..][j..])
  {
  }

  /** Unlinking x removes exactly what is at or below its path. */
  lemma UnlinkRemoves(b: Build, g: Graph, x: Entry, j: nat)
    requires CanUnlink(b, g, x, j)
    ensures WF(b, Unlink(g, x, j))
    ensures g.cells[x].path != [] && Exists(Top(b, g), g.cells[x].path)
    ensures Top(b, Unlink(g, x, j)) == Remove(Top(b, g), g.cells[x].path)
  {
    var h, e := Unlink(g, x, j), g.cells[x].parent;
    UnlinkBasics(b, g, x, j);
    UnlinkKeepsWF(b, g, x, j);
    EntryInForest(b, g, x);
    EntryInForest(b, g, e);
    UnlinkDropsKid(b, g, x, j);
    ChangeBelow(b, g, h, e);
    EditsAreLocal(b, Top(b, g), g.cells[e].path, g.cells[x].name, "");
  }

  lemma UnlinkDropsKid(b: Build, g: Graph, x: Entry, j: nat)
    requires CanUnlink(b, g, x, j) && WF(b, Unlink(g, x, j))
    ensures var h, e := Unlink(g, x, j), g.cells[x].parent;
            e in g.cells && e in h.cells && TreeKids(b, h, e) == Drop(TreeKids(b, g, e), g.cells[x].name)
  {
    var h, e := Unlink(g, x, j), g.cells[x].parent;
    UnlinkBasics(b, g, x, j);
    UnlinkAlike(b, g, x, j);
    assert NodeOk(b, g, e) && NodeOk(b, h, e);
    SiblingsUntouched(b, g, x, j);
    DropTrees(b, g, h, Untouched(g, x, j), g.cells[e].kids, |g.cells[e].path| + 1, j);
  }

  lemma SiblingsUntouched(b: Build, g: Graph, x: Entry, j: nat)
    requires CanUnlink(b, g, x, j)
    ensures var ks := g.cells[g.cells[x].parent].kids;
            forall i :: 0 <= i < |ks| && i != j ==> ks[i] in Untouched(g, x, j)
  {
    var e := g.cells[x].parent;
    var ks := g.cells[e].kids;
    UnlinkBasics(b, g, x, j);
    assert NodeOk(b, g, e);
    forall i | 0 <= i < |ks| && i != j
      ensures ks[i] in Untouched(g, x, j)
    {
      assert KidOk(g, e, ks[i]);
      OnlyParentHasX(b, g, x, j, e, i);
      KidSurvives(b, g, x, j, e, i);
    }
  }
}
