/** The entries of csdb as objects, and the shape they form: a tree of sibling lists. The shape is
    held in a ghost value, so that what a tree of entries means can be reasoned about without the
    heap. */
module EntryGraph {
  import opened Options
  import opened CString
  import opened Forests
  import opened ForestMap

  /** struct csdbe */
  class Entry {
    var name: string
    var value: Option<string>
    var childs: Entry?
    var parent: Entry?
    var next: Entry?
    var prev: Entry?
    var isLeaf: bool
    var nbrEntries: nat

    /** csdb_create_entry with a NULL value */
    constructor (n: string)
      ensures name == n && value == None && !isLeaf && nbrEntries == 0
      ensures childs == null && parent == null && next == null && prev == null
    {
      name, value, isLeaf, nbrEntries := n, None, false, 0;
      childs, parent, next, prev := null, null, null, null;
    }
  }

  /** What the ghost shape records of an entry; the path is the part names from the root down. */
  datatype Cell = Cell(name: string, val: Option<string>, parent: Entry, kids: seq<Entry>, path: seq<string>)

  datatype Graph = Graph(cells: map<Entry, Cell>, root: Entry, bound: nat)

  ghost predicate NamesOk(b: Build, g: Graph, ks: seq<Entry>)
    requires forall i :: 0 <= i < |ks| ==> ks[i] in g.cells
  {
    forall i, j :: 0 <= i < j < |ks| ==>
      var m, n := g.cells[ks[i]].name, g.cells[ks[j]].name;
      if b.Sorted? then Less(m, n) else m != n
  }

  ghost predicate KidOk(g: Graph, e: Entry, k: Entry)
    requires e in g.cells
  {
    && k in g.cells
    && k != g.root
    && g.cells[k].parent == e
    && g.cells[k].path == g.cells[e].path + [g.cells[k].name]
  }

  ghost predicate NodeOk(b: Build, g: Graph, e: Entry)
    requires e in g.cells
  {
    var c := g.cells[e];
    && |c.path| <= g.bound
    && (forall i :: 0 <= i < |c.kids| ==> KidOk(g, e, c.kids[i]))
    && NamesOk(b, g, c.kids)
    && (if e == g.root then c.path == [] && c.parent == e
        else c.parent in g.cells && e in g.cells[c.parent].kids && c.path != [])
  }

  /** A tree: every entry but the root is one child of its parent, whose path it extends. */
  ghost predicate WF(b: Build, g: Graph) {
    g.root in g.cells && forall e {:trigger NodeOk(b, g, e)} :: e in g.cells ==> NodeOk(b, g, e)
  }

  ghost predicate At(g: Graph, ks: seq<Entry>, d: nat) {
    forall i :: 0 <= i < |ks| ==> ks[i] in g.cells && |g.cells[ks[i]].path| == d
  }

  lemma ParentPath(b: Build, g: Graph, e: Entry)
    requires WF(b, g) && e in g.cells && e != g.root
    ensures var u := g.cells[e].parent; u in g.cells && g.cells[e].path == g.cells[u].path + [g.cells[e].name]
  {
    assert NodeOk(b, g, e);
    var u := g.cells[e].parent;
    assert NodeOk(b, g, u);
    var i :| 0 <= i < |g.cells[u].kids| && g.cells[u].kids[i] == e;
    assert KidOk(g, u, g.cells[u].kids[i]);
  }

  /** The forest a list of entries at depth d stands for. */
  ghost function Trees(b: Build, g: Graph, ks: seq<Entry>, d: nat): Forest
    requires WF(b, g) && At(g, ks, d)
    decreases g.bound + 1 - d, |ks|
  {
    if ks == [] then Nil
    else
      var c := g.cells[ks[0]];
      assert NodeOk(b, g, ks[0]);
      Cons(c.name, c.val, Trees(b, g, c.kids, d + 1), Trees(b, g, ks[1..], d))
  }

  ghost function TreeKids(b: Build, g: Graph, e: Entry): Forest
    requires WF(b, g) && e in g.cells
  {
    assert NodeOk(b, g, e);
    Trees(b, g, g.cells[e].kids, |g.cells[e].path| + 1)
  }

  ghost function Top(b: Build, g: Graph): Forest
    requires WF(b, g)
  {
    TreeKids(b, g, g.root)
  }

  // ----- one sibling list -----

  lemma {:induction false} TreesHas(b: Build, g: Graph, ks: seq<Entry>, d: nat, n: string)
    requires WF(b, g) && At(g, ks, d)
    ensures Has(Trees(b, g, ks, d), n) <==> exists i :: 0 <= i < |ks| && g.cells[ks[i]].name == n
    decreases |ks|
  {
    if ks != [] {
      TreesHas(b, g, ks[1..], d, n);
      assert forall i :: 1 <= i < |ks| ==> ks[i] == ks[1..][i - 1];
    }
  }

  lemma {:induction false} TreesAt(b: Build, g: Graph, ks: seq<Entry>, d: nat, i: nat)
    requires WF(b, g) && At(g, ks, d) && NamesOk(b, g, ks) && i < |ks|
    ensures var f, c := Trees(b, g, ks, d), g.cells[ks[i]];
            Has(f, c.name) && ValOf(f, c.name) == c.val && KidsOf(f, c.name) == TreeKids(b, g, ks[i])
    decreases |ks|
  {
    if i > 0 {
      LessTotal(g.cells[ks[0]].name, g.cells[ks[i]].name);
      assert ks[i] == ks[1..][i - 1];
      TreesAt(b, g, ks[1..], d, i - 1);
    }
  }

  lemma {:induction false} TreesWellFormed(b: Build, g: Graph, ks: seq<Entry>, d: nat)
    requires WF(b, g) && At(g, ks, d) && NamesOk(b, g, ks)
    ensures WellFormed(b, Trees(b, g, ks, d))
    decreases g.bound + 1 - d, |ks|
  {
    if ks != [] {
      var c := g.cells[ks[0]];
      assert NodeOk(b, g, ks[0]);
      TreesWellFormed(b, g, c.kids, d + 1);
      TreesWellFormed(b, g, ks[1..], d);
      forall m | Has(Trees(b, g, ks[1..], d), m)
        ensures m != c.name && (b.Sorted? ==> Less(c.name, m))
      {
        TreesHas(b, g, ks[1..], d, m);
        var i :| 0 <= i < |ks| - 1 && g.cells[ks[1..][i]].name == m;
        assert ks[1..][i] == ks[i + 1];
        LessTotal(c.name, m);
      }
    }
  }

  // ----- an entry and its path -----

  /** An entry stands in the forest where its path says, with its own value and children. */
  lemma {:induction false} EntryInForest(b: Build, g: Graph, e: Entry)
    requires WF(b, g) && e in g.cells
    ensures var f, p := Top(b, g), g.cells[e].path;
            && Exists(f, p)
            && Below(f, p) == TreeKids(b, g, e)
            && (p != [] ==> Value(f, p) == g.cells[e].val)
    decreases |g.cells[e].path|
  {
    assert NodeOk(b, g, e);
    if e != g.root {
      var c := g.cells[e];
      var u := c.parent;
      assert NodeOk(b, g, u);
      var i :| 0 <= i < |g.cells[u].kids| && g.cells[u].kids[i] == e;
      assert KidOk(g, u, g.cells[u].kids[i]);
      EntryInForest(b, g, u);
      TreesAt(b, g, g.cells[u].kids, |g.cells[u].path| + 1, i);
      BelowStep(Top(b, g), g.cells[u].path, c.name);
    }
  }

  /** Looking for a child by name among the entries or in the forest is the same. */
  lemma ChildInForest(b: Build, g: Graph, e: Entry, n: string)
    requires WF(b, g) && e in g.cells
    ensures Exists(Top(b, g), g.cells[e].path)
    ensures Exists(Top(b, g), g.cells[e].path + [n]) <==>
            exists i :: 0 <= i < |g.cells[e].kids| && (assert NodeOk(b, g, e); g.cells[g.cells[e].kids[i]].name == n)
  {
    assert NodeOk(b, g, e);
    EntryInForest(b, g, e);
    BelowStep(Top(b, g), g.cells[e].path, n);
    TreesHas(b, g, g.cells[e].kids, |g.cells[e].path| + 1, n);
  }

  lemma TopWellFormed(b: Build, g: Graph)
    requires WF(b, g)
    ensures WellFormed(b, Top(b, g))
  {
    assert NodeOk(b, g, g.root);
    TreesWellFormed(b, g, g.cells[g.root].kids, 1);
  }
}
