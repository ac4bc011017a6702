/** The capability and system information database: the tree of entries and the operations on it. */
module Csdb {
  import opened Options
  import opened Lists
  import opened CString
  import opened KeyParser
  import opened Forests
  import opened ForestMap
  import opened DumpReload
  import opened StoreOps
  import opened EntryGraph
  import opened GraphEdits
  import opened GraphUnlink

  ghost function Nth(ks: seq<Entry>, i: int): Entry? {
    if 0 <= i < |ks| then ks[i] else null
  }

  /** A doubly linked, NULL-terminated list with inverse links. */
  ghost predicate Chain(ks: seq<Entry>)
    reads ks
  {
    && (forall i {:trigger ks[i].next} :: 0 <= i < |ks| ==> ks[i].next == Nth(ks, i + 1))
    && (forall i {:trigger ks[i].prev} :: 0 <= i < |ks| ==> ks[i].prev == Nth(ks, i - 1))
  }

  /** The fields of an entry other than its place among its siblings. */
  ghost predicate Own(b: Build, e: Entry, c: Cell)
    reads e
  {
    && e.name == c.name
    && e.value == c.val
    && e.isLeaf == c.val.Some?
    && e.parent == c.parent
    && e.childs == Nth(c.kids, 0)
    && (b.Sorted? ==> e.nbrEntries == |c.kids|)
  }

  ghost predicate Linked(b: Build, g: Graph, e: Entry)
    requires WF(b, g) && e in g.cells
    reads g.cells.Keys
  {
    assert NodeOk(b, g, e);
    assert forall i :: 0 <= i < |g.cells[e].kids| ==> KidOk(g, e, g.cells[e].kids[i]);
    Own(b, e, g.cells[e]) && Chain(g.cells[e].kids)
  }

  /** r is the child of e named n, or NULL because there is none. */
  ghost predicate IsChild(b: Build, g: Graph, e: Entry, n: string, r: Entry?)
    requires WF(b, g) && e in g.cells
  {
    assert NodeOk(b, g, e);
    var ks := g.cells[e].kids;
    if r == null then forall i :: 0 <= i < |ks| ==> ks[i] in g.cells && g.cells[ks[i]].name != n
    else exists i :: 0 <= i < |ks| && ks[i] == r && ks[i] in g.cells && g.cells[ks[i]].name == n
  }

  ghost predicate AllLinked(b: Build, g: Graph)
    requires WF(b, g)
    reads g.cells.Keys
  {
    forall e {:trigger Linked(b, g, e)} :: e in g.cells ==> Linked(b, g, e)
  }

  /** What the pointer writes of csdb_append_child amount to: c stands at pos among e's children,
      and everywhere else g still describes the fields. */
  ghost predicate Spliced(b: Build, g: Graph, e: Entry, c: Entry, n: string, pos: nat)
    requires WF(b, g) && e in g.cells && pos <= |g.cells[e].kids|
    reads g.cells.Keys, c
  {
    var ks := g.cells[e].kids;
    assert NodeOk(b, g, e);
    assert forall i :: 0 <= i < |ks| ==> KidOk(g, e, ks[i]);
    && Own(b, c, Cell(n, None, e, [], g.cells[e].path + [n]))
    && Own(b, e, g.cells[e].(kids := ks[..pos] + [c] + ks[pos..]))
    && Chain(ks[..pos] + [c] + ks[pos..])
    && forall x {:trigger Linked(b, g, x)} :: x in g.cells && x != e ==> Linked(b, g, x)
  }

  lemma ItIsSpliced(b: Build, g: Graph, e: Entry, c: Entry, n: string, pos: nat, ls: seq<Entry>)
    requires WF(b, g) && e in g.cells && pos <= |g.cells[e].kids|
    requires ls == g.cells[e].kids[..pos] + [c] + g.cells[e].kids[pos..]
    requires Own(b, c, Cell(n, None, e, [], g.cells[e].path + [n]))
    requires Own(b, e, g.cells[e].(kids := ls)) && Chain(ls)
    requires forall x {:trigger Linked(b, g, x)} :: x in g.cells && x != e ==> Linked(b, g, x)
    ensures Spliced(b, g, e, c, n, pos)
  {
  }

  lemma LinkedAfterSplice(b: Build, g: Graph, e: Entry, c: Entry, n: string, pos: nat)
    requires CanLink(b, g, e, c, n, pos) && Spliced(b, g, e, c, n, pos)
    ensures WF(b, Link(g, e, c, n, pos)) && AllLinked(b, Link(g, e, c, n, pos))
  {
    var h := Link(g, e, c, n, pos);
    LinkKeepsWF(b, g, e, c, n, pos);
    forall x | x in h.cells
      ensures Linked(b, h, x)
    {
      if x != c && x != e { assert Linked(b, g, x); }
    }
  }

  lemma KidsDistinct(b: Build, g: Graph, e: Entry)
    requires WF(b, g) && e in g.cells
    ensures Distinct(g.cells[e].kids)
    ensures forall i :: 0 <= i < |g.cells[e].kids| ==> KidOk(g, e, g.cells[e].kids[i])
    ensures forall x {:trigger x in g.cells} :: x in g.cells && g.cells[x].parent != e ==> x !in g.cells[e].kids
  {
    assert NodeOk(b, g, e);
    var ks := g.cells[e].kids;
    forall x {:trigger x in g.cells} | x in g.cells && x in ks
      ensures g.cells[x].parent == e
    {
      var i :| 0 <= i < |ks| && ks[i] == x;
      assert KidOk(g, e, ks[i]);
    }
    forall i, j | 0 <= i < j < |ks|
      ensures ks[i] != ks[j]
    {
      assert KidOk(g, e, ks[i]) && KidOk(g, e, ks[j]);
      LessTotal(g.cells[ks[i]].name, g.cells[ks[j]].name);
    }
  }

  /** A chain whose links around pos were redirected to c has c at pos. */
  lemma ChainAfterSplice(ks: seq<Entry>, c: Entry, pos: nat)
    requires pos <= |ks| && c.next == Nth(ks, pos) && c.prev == Nth(ks, pos - 1)
    requires forall i {:trigger ks[i].next} :: 0 <= i < |ks| ==> ks[i].next == (if i == pos - 1 then c else Nth(ks, i + 1))
    requires forall i {:trigger ks[i].prev} :: 0 <= i < |ks| ==> ks[i].prev == (if i == pos then c else Nth(ks, i - 1))
    ensures Chain(ks[..pos] + [c] + ks[pos..])
  {
    var ls := ks[..pos] + [c] + ks[pos..];
    forall i | 0 <= i < |ls|
      ensures ls[i].next == Nth(ls, i + 1) && ls[i].prev == Nth(ls, i - 1)
    {
      assert ls[i] == if i < pos then ks[i] else if i == pos then c else ks[i - 1];
    }
  }

  lemma LinkedAfterAssign(b: Build, g: Graph, x: Entry, v: string)
    requires WF(b, g) && x in g.cells
    requires forall y {:trigger Linked(b, g, y)} :: y in g.cells && y != x ==> Linked(b, g, y)
    requires Own(b, x, g.cells[x].(val := Some(v))) && Chain(g.cells[x].kids)
    ensures WF(b, Assign(g, x, v)) && AllLinked(b, Assign(g, x, v))
  {
    var h := Assign(g, x, v);
    AssignKeepsWF(b, g, x, v);
    forall y | y in h.cells
      ensures Linked(b, h, y)
    {
      if y != x { assert Linked(b, g, y); }
    }
  }

  lemma ChainAfterBypass(ks: seq<Entry>, j: nat)
    requires j < |ks|
    requires forall i {:trigger ks[i].next} :: 0 <= i < |ks| && i != j ==>
               ks[i].next == (if i == j - 1 then Nth(ks, j + 1) else Nth(ks, i + 1))
    requires forall i {:trigger ks[i].prev} :: 0 <= i < |ks| && i != j ==>
               ks[i].prev == (if i == j + 1 then Nth(ks, j - 1) else Nth(ks, i - 1))
    ensures Chain(ks[..j] + ks[j + 1..])
  {
    var ls := ks[..j] + ks[j + 1..];
    forall i | 0 <= i < |ls|
      ensures ls[i].next == Nth(ls, i + 1) && ls[i].prev == Nth(ls, i - 1)
    {
      assert ls[i] == ks[if i < j then i else i + 1];
    }
  }

  /** What the pointer writes of csdb_remove_from_key amount to. */
  ghost predicate Unlinked(b: Build, g: Graph, x: Entry, j: nat)
    requires CanUnlink(b, g, x, j)
    reads g.cells.Keys
  {
    var e := g.cells[x].parent;
    var ks := g.cells[e].kids;
    assert NodeOk(b, g, e);
    assert forall i :: 0 <= i < |ks| ==> KidOk(g, e, ks[i]);
    && Own(b, e, g.cells[e].(kids := ks[..j] + ks[j + 1..]))
    && Chain(ks[..j] + ks[j + 1..])
    && forall y {:trigger Linked(b, g, y)} :: y in g.cells && y != e ==> Linked(b, g, y)
  }

  lemma ItIsUnlinked(b: Build, g: Graph, x: Entry, j: nat, ls: seq<Entry>)
    requires CanUnlink(b, g, x, j)
    requires var e := g.cells[x].parent;
             && ls == g.cells[e].kids[..j] + g.cells[e].kids[j + 1..]
             && Own(b, e, g.cells[e].(kids := ls))
             && Chain(ls)
             && forall y {:trigger Linked(b, g, y)} :: y in g.cells && y != e ==> Linked(b, g, y)
    ensures Unlinked(b, g, x, j)
  {
  }

  lemma LinkedAfterUnlink(b: Build, g: Graph, x: Entry, j: nat)
    requires CanUnlink(b, g, x, j) && Unlinked(b, g, x, j)
    ensures WF(b, Unlink(g, x, j)) && AllLinked(b, Unlink(g, x, j))
  {
    var h := Unlink(g, x, j);
    UnlinkKeepsWF(b, g, x, j);
    forall y | y in h.cells
      ensures Linked(b, h, y)
    {
      if y != g.cells[x].parent { assert Linked(b, g, y); }
    }
  }

  class Database {
    const build: Build
    var root: Entry  // csdb_root
    ghost var g: Graph

    ghost predicate Valid()
      reads this, g.cells.Keys
    {
      WF(build, g) && g.root == root && AllLinked(build, g)
    }

    /** What the database holds. */
    ghost function Contents(): Store
      requires Valid()
      reads this, g.cells.Keys
    {
      Store(g.cells[g.root].val, Top(build, g))
    }

    /** csdb_init */
    constructor (b: Build)
      ensures Valid() && build == b && Contents() == EMPTY
      ensures fresh(g.cells.Keys)
    {
      var r := new Entry(".");
      build, root := b, r;
      g := Graph(map[r := Cell(".", None, r, [], [])], r, 0);
      new;
      r.parent := r;
      assert NodeOk(build, g, r);
      assert Linked(build, g, r);
    }

    /** csdb_seek: the hops-th entry of the list, the first for 0 hops, the last for too many. */
    method Seek(first: Entry?, hops: nat, ghost ks: seq<Entry>) returns (r: Entry?)
      requires Chain(ks) && first == Nth(ks, 0)
      ensures ks == [] ==> r == null
      ensures ks != [] ==> r == ks[if hops <= 1 then 0 else if hops <= |ks| then hops - 1 else |ks| - 1]
    {
      r := first;
      var hop := 1;
      while hop < hops && r != null && r.next != null
        invariant 1 <= hop && (hop <= hops || hop == 1)
        invariant ks == [] ==> r == null
        invariant ks != [] ==> hop <= |ks| && r == ks[hop - 1]
        decreases |ks| - hop
      {
        r := r.next;
        hop := hop + 1;
      }
    }

    method FindLinear(e: Entry, n: string) returns (r: Entry?)
      requires Valid() && e in g.cells
      ensures IsChild(build, g, e, n, r)
    {
      ghost var ks, i := g.cells[e].kids, 0;
      assert NodeOk(build, g, e) && Linked(build, g, e);
      r := e.childs;
      while r != null
        invariant 0 <= i <= |ks| && r == Nth(ks, i)
        invariant forall j :: 0 <= j < i ==> ks[j] in g.cells && g.cells[ks[j]].name != n
        decreases |ks| - i
      {
        assert KidOk(g, e, ks[i]) && Linked(build, g, ks[i]);
        if r.name == n { return; }
        r := r.next;
        i := i + 1;
      }
    }

    /** The bisection shared by csdb_find_child and csdb_append_child: the child named n, or the
        position l - 1 that n belongs at. The loop variables are unsigned in C; u = i - 1 is taken
        with i at least 1 only. */
    method Bisect(e: Entry, n: string) returns (found: Entry?, l: nat)
      requires Valid() && e in g.cells && build.Sorted? && e.childs != null
      ensures found != null ==> IsChild(build, g, e, n, found)
      ensures found == null ==> IsChild(build, g, e, n, null)
      ensures found == null ==> 1 <= l && PlaceFor(build, g, g.cells[e].kids, n, l - 1)
    {
      ghost var ks := g.cells[e].kids;
      assert NodeOk(build, g, e) && Linked(build, g, e);
      forall j | 0 <= j < |ks|
        ensures ks[j] in g.cells && ks[j].name == g.cells[ks[j]].name
      {
        assert KidOk(g, e, ks[j]) && Linked(build, g, ks[j]);
      }
      l := 1;
      var u := e.nbrEntries;
      while true
        invariant 1 <= l <= u + 1 && u <= |ks|
        invariant forall j :: 0 <= j < l - 1 ==> Less(g.cells[ks[j]].name, n)
        invariant forall j :: u <= j < |ks| ==> Less(n, g.cells[ks[j]].name)
        decreases u + 1 - l
      {
        var i := (l + u) / 2;
        var toFind := Seek(e.childs, i, ks);
        if u < l {
          BisectMissed(ks, n, l);
          return null, l;
        }
        assert toFind == ks[i - 1];
        var cmp := Strcmp(n, toFind.name);
        StrcmpAntisymmetric(n, toFind.name);
        StrcmpZeroIsEqual(n, toFind.name);
        if cmp < 0 {
          BisectAbove(ks, n, i - 1);
          u := i - 1;
        } else if cmp > 0 {
          BisectBelow(ks, n, i - 1);
          l := i + 1;
        } else {
          return toFind, l;
        }
      }
    }

    lemma BisectAbove(ks: seq<Entry>, n: string, i: nat)
      requires i < |ks| && (forall j :: 0 <= j < |ks| ==> ks[j] in g.cells) && build.Sorted? && NamesOk(build, g, ks)
      requires Less(n, g.cells[ks[i]].name)
      ensures forall j :: i <= j < |ks| ==> Less(n, g.cells[ks[j]].name)
    {
      forall j | i <= j < |ks|
        ensures Less(n, g.cells[ks[j]].name)
      {
        if i < j { LessTransitive(n, g.cells[ks[i]].name, g.cells[ks[j]].name); }
      }
    }

    lemma BisectBelow(ks: seq<Entry>, n: string, i: nat)
      requires i < |ks| && (forall j :: 0 <= j < |ks| ==> ks[j] in g.cells) && build.Sorted? && NamesOk(build, g, ks)
      requires Less(g.cells[ks[i]].name, n)
      ensures forall j :: 0 <= j <= i ==> Less(g.cells[ks[j]].name, n)
    {
      forall j | 0 <= j <= i
        ensures Less(g.cells[ks[j]].name, n)
      {
        if j < i { LessTransitive(g.cells[ks[j]].name, g.cells[ks[i]].name, n); }
      }
    }

    lemma BisectMissed(ks: seq<Entry>, n: string, l: nat)
      requires 1 <= l <= |ks| + 1 && forall j :: 0 <= j < |ks| ==> ks[j] in g.cells
      requires forall j :: 0 <= j < l - 1 ==> Less(g.cells[ks[j]].name, n)
      requires forall j :: l - 1 <= j < |ks| ==> Less(n, g.cells[ks[j]].name)
      ensures forall j :: 0 <= j < |ks| ==> g.cells[ks[j]].name != n
    {
      forall j | 0 <= j < |ks|
        ensures g.cells[ks[j]].name != n
      {
        LessTotal(g.cells[ks[j]].name, n);
        LessTotal(n, g.cells[ks[j]].name);
      }
    }

    /** csdb_find_child, in both builds. "." stands for the root wherever it is asked for. */
    method FindChild(e: Entry, n: string) returns (r: Entry?)
      requires Valid() && e in g.cells
      ensures n == "." ==> r == root
      ensures n != "." ==> IsChild(build, g, e, n, r)
    {
      if n == "." { return root; }
      if build.Linear? {
        r := FindLinear(e, n);
      } else {
        assert Linked(build, g, e);
        if e.childs == null { return null; }
        var l;
        r, l := Bisect(e, n);
      }
    }
  
    // ----- changing the tree -----

    /** An entry fresh from csdb_create_entry(n, NULL). */
    ghost predicate Blank(c: Entry, n: string)
      reads c
    {
      c.name == n && c.value == None && !c.isLeaf && c.childs == null && c.nbrEntries == 0
    }

    /** csdb_append_child; its callers have looked for the name before and not found it. */
    method AppendChild(e: Entry, c: Entry, n: string) returns (ghost pos: nat)
      requires Valid() && e in g.cells && c !in g.cells && Blank(c, n)
      requires IsChild(build, g, e, n, null)
      modifies this`g, g.cells.Keys, c
      ensures Valid() && root == old(root)
      ensures CanLink(build, old(g), e, c, n, pos) && g == Link(old(g), e, c, n, pos)
    {
      if build.Linear? {
        LinkInFront(e, c, n);
        pos := 0;
      } else {
        pos := LinkInOrder(e, c, n);
      }
      LinkedAfterSplice(build, g, e, c, n, pos);
      g := Link(g, e, c, n, pos);
    }

    method LinkInFront(e: Entry, c: Entry, n: string)
      requires Valid() && e in g.cells && c !in g.cells && Blank(c, n)
      requires IsChild(build, g, e, n, null) && build.Linear?
      modifies g.cells.Keys, c
      ensures CanLink(build, g, e, c, n, 0) && Spliced(build, g, e, c, n, 0)
    {
      assert NodeOk(build, g, e) && Linked(build, g, e);
      KidsDistinct(build, g, e);
      PushFront(e, c, g.cells[e].kids);
      OthersStay(e, c);
    }

    /** The pointer writes of the linear build. */
    method PushFront(e: Entry, c: Entry, ghost ks: seq<Entry>)
      requires Chain(ks) && Distinct(ks) && c !in ks && e.childs == Nth(ks, 0)
      modifies e`childs, c`next, c`prev, c`parent, (set k | k in ks)`prev
      ensures Chain(ks[..0] + [c] + ks[0..]) && c.parent == e && e.childs == c
    {
      c.next := e.childs;
      c.prev := null;
      c.parent := e;
      if c.next != null { c.next.prev := c; }
      e.childs := c;
      ChainAfterSplice(ks, c, 0);
    }

    method LinkInOrder(e: Entry, c: Entry, n: string) returns (ghost pos: nat)
      requires Valid() && e in g.cells && c !in g.cells && Blank(c, n)
      requires IsChild(build, g, e, n, null) && build.Sorted?
      modifies g.cells.Keys, c
      ensures CanLink(build, g, e, c, n, pos) && Spliced(build, g, e, c, n, pos)
    {
      if e.childs == null {
        LinkOnly(e, c, n);
        pos := 0;
      } else {
        pos := LinkWhereSought(e, c, n);
      }
    }

    method LinkWhereSought(e: Entry, c: Entry, n: string) returns (ghost pos: nat)
      requires Valid() && e in g.cells && c !in g.cells && Blank(c, n)
      requires IsChild(build, g, e, n, null) && build.Sorted? && e.childs != null
      modifies g.cells.Keys, c
      ensures CanLink(build, g, e, c, n, pos) && Spliced(build, g, e, c, n, pos)
    {
      var found, l := Bisect(e, n);
      PlaceIsKnown(e, c, n, found, l);
      pos := l - 1;
      LinkAt(e, c, n, l);
      ghost var ks := g.cells[e].kids;
      assert Chain(ks[..pos] + [c] + ks[pos..]);
    }

    /** When there is no such child the search has ended at a place for it. */
    lemma PlaceIsKnown(e: Entry, c: Entry, n: string, found: Entry?, l: nat)
      requires Valid() && e in g.cells && c !in g.cells && IsChild(build, g, e, n, null)
      requires IsChild(build, g, e, n, found)
      requires found == null ==> 1 <= l && PlaceFor(build, g, g.cells[e].kids, n, l - 1)
      ensures l >= 1 && CanLink(build, g, e, c, n, l - 1)
    {
      assert NodeOk(build, g, e);
      assert forall i :: 0 <= i < |g.cells[e].kids| ==> KidOk(g, e, g.cells[e].kids[i]);
    }

    method LinkOnly(e: Entry, c: Entry, n: string)
      requires Valid() && e in g.cells && c !in g.cells && Blank(c, n)
      requires build.Sorted? && e.childs == null
      modifies g.cells.Keys, c
      ensures CanLink(build, g, e, c, n, 0) && Spliced(build, g, e, c, n, 0)
    {
      assert NodeOk(build, g, e) && Linked(build, g, e);
      assert g.cells[e].kids == [];
      LinkFirst(e, c);
      OthersStay(e, c);
      assert [][..0] + [c] + [][0..] == [c];
      ItIsSpliced(build, g, e, c, n, 0, [c]);
    }

    /** The pointer writes of the sorted build for a parent without children. */
    method LinkFirst(e: Entry, c: Entry)
      requires e != c && e.childs == null
      modifies e`childs, e`nbrEntries, c`next, c`prev, c`parent
      ensures e.childs == c && e.nbrEntries == old(e.nbrEntries) + 1
      ensures Chain([c]) && c.parent == e
    {
      e.childs := c;
      c.prev, c.next, c.parent := null, null, e;
      e.nbrEntries := e.nbrEntries + 1;
    }

    method LinkAt(e: Entry, c: Entry, n: string, l: nat)
      requires Valid() && l >= 1 && CanLink(build, g, e, c, n, l - 1) && Blank(c, n)
      requires build.Sorted? && e.childs != null
      modifies g.cells.Keys, c
      ensures Spliced(build, g, e, c, n, l - 1)
    {
      ghost var ks := g.cells[e].kids;
      assert NodeOk(build, g, e) && Linked(build, g, e);
      KidsDistinct(build, g, e);
      ghost var ls := ks[..l - 1] + [c] + ks[l - 1..];
      InsertAt(e, c, l, ks, ls);
      OthersStay(e, c);
      ItIsSpliced(build, g, e, c, n, l - 1, ls);
    }

    /** The pointer writes of the sorted build, once the search has ended at l. */
    method InsertAt(e: Entry, c: Entry, l: nat, ghost ks: seq<Entry>, ghost ls: seq<Entry>)
      requires Chain(ks) && Distinct(ks) && c !in ks && e.childs == Nth(ks, 0)
      requires ks != [] && 1 <= l <= |ks| + 1 && e.nbrEntries == |ks|
      requires ls == ks[..l - 1] + [c] + ks[l - 1..]
      modifies e`childs, e`nbrEntries, c`next, c`prev, c`parent, (set k | k in ks)`prev, (set k | k in ks)`next
      ensures Chain(ls) && c.parent == e
      ensures e.childs == Nth(ls, 0) && e.nbrEntries == |ks| + 1
    {
      assert ls[0] == if l == 1 then c else ks[0];
      var toFind := Seek(e.childs, l, ks);
      if l > e.nbrEntries {
        InsertAfterLast(c, toFind, ks, ls);
      } else {
        InsertBefore(c, toFind, ks, l - 1, ls);
      }
      AdoptChild(e, c, l <= e.nbrEntries && e.childs == toFind, ls);
    }

    /** The writes to the parent's side; the sibling links stay as they are. */
    method AdoptChild(e: Entry, c: Entry, first: bool, ghost ls: seq<Entry>)
      requires Chain(ls)
      modifies e`childs, e`nbrEntries, c`parent
      ensures Chain(ls) && c.parent == e && e.nbrEntries == old(e.nbrEntries) + 1
      ensures e.childs == if first then c else old(e.childs)
    {
      if first { e.childs := c; }
      c.parent := e;
      e.nbrEntries := e.nbrEntries + 1;
    }

    method InsertAfterLast(c: Entry, toFind: Entry, ghost ks: seq<Entry>, ghost ls: seq<Entry>)
      requires Chain(ks) && Distinct(ks) && c !in ks && ks != [] && toFind == ks[|ks| - 1]
      requires ls == ks[..|ks|] + [c] + ks[|ks|..]
      modifies c`next, c`prev, toFind`next
      ensures Chain(ls)
    {
      c.next := toFind.next;
      c.prev := toFind;
      toFind.next := c;
      ChainAfterSplice(ks, c, |ks|);
    }

    method InsertBefore(c: Entry, toFind: Entry, ghost ks: seq<Entry>, ghost pos: nat, ghost ls: seq<Entry>)
      requires Chain(ks) && Distinct(ks) && c !in ks && pos < |ks| && toFind == ks[pos]
      requires ls == ks[..pos] + [c] + ks[pos..]
      modifies c`next, c`prev, (set k | k in ks)`prev, (set k | k in ks)`next
      ensures Chain(ls)
    {
      c.next := toFind;
      c.prev := toFind.prev;
      if toFind.prev != null { toFind.prev.next := c; }
      toFind.prev := c;
      ChainAfterSplice(ks, c, pos);
    }

    /** Writes to c, to the links of e's children and to e itself do not touch other lists. */
    twostate lemma OthersStay(e: Entry, new c: Entry)
      requires old(Valid()) && e in g.cells && g == old(g)
      requires forall x {:trigger x in g.cells} :: x in g.cells && x != e ==>
                 x.name == old(x.name) && x.value == old(x.value) && x.isLeaf == old(x.isLeaf) &&
                 x.parent == old(x.parent) && x.childs == old(x.childs) && x.nbrEntries == old(x.nbrEntries)
      requires forall x {:trigger x in g.cells} :: x in g.cells && g.cells[x].parent != e ==>
                 x.next == old(x.next) && x.prev == old(x.prev)
      ensures forall x {:trigger Linked(build, g, x)} :: x in g.cells && x != e ==> Linked(build, g, x)
    {
      forall x | x in g.cells && x != e
        ensures Linked(build, g, x)
      {
        assert NodeOk(build, g, x) && old(Linked(build, g, x));
        assert forall i :: 0 <= i < |g.cells[x].kids| ==> KidOk(g, x, g.cells[x].kids[i]);
      }
    }
  
    /** csdb_set_value with a value that is not NULL. */
    method AssignValue(x: Entry, v: string)
      requires Valid() && x in g.cells
      modifies this`g, x`value, x`isLeaf
      ensures Valid() && root == old(root) && g == Assign(old(g), x, v)
    {
      assert Linked(build, g, x) && NodeOk(build, g, x);
      x.value := Some(v);
      x.isLeaf := true;
      ValueLeavesRest(x);
      LinkedAfterAssign(build, g, x, v);
      g := Assign(g, x, v);
    }

    twostate lemma ValueLeavesRest(e: Entry)
      requires old(Valid()) && e in g.cells && g == old(g)
      requires forall x {:trigger x in g.cells} :: x in g.cells ==>
                 x.name == old(x.name) && (x != e ==> x.value == old(x.value) && x.isLeaf == old(x.isLeaf)) &&
                 x.parent == old(x.parent) && x.childs == old(x.childs) && x.nbrEntries == old(x.nbrEntries) &&
                 x.next == old(x.next) && x.prev == old(x.prev)
      ensures forall x {:trigger Linked(build, g, x)} :: x in g.cells && x != e ==> Linked(build, g, x)
      ensures Chain(g.cells[e].kids)
    {
      forall x | x in g.cells
        ensures if x == e then Chain(g.cells[x].kids) else Linked(build, g, x)
      {
        assert NodeOk(build, g, x) && old(Linked(build, g, x));
        assert forall i :: 0 <= i < |g.cells[x].kids| ==> KidOk(g, x, g.cells[x].kids[i]);
      }
    }

    // ----- reading -----

    lemma ChildPath(e: Entry, n: string, r: Entry)
      requires WF(build, g) && e in g.cells && IsChild(build, g, e, n, r)
      ensures r in g.cells && r != g.root && g.cells[r].path == g.cells[e].path + [n]
    {
      assert NodeOk(build, g, e);
      var i :| 0 <= i < |g.cells[e].kids| && g.cells[e].kids[i] == r && g.cells[r].name == n;
      assert KidOk(g, e, g.cells[e].kids[i]);
    }

    lemma NoChildNoPath(e: Entry, n: string)
      requires WF(build, g) && e in g.cells && IsChild(build, g, e, n, null)
      ensures !Exists(Top(build, g), g.cells[e].path + [n])
    {
      assert NodeOk(build, g, e);
      ChildInForest(build, g, e, n);
    }

    /** csdb_get_entry: the entry at the key's path, in whatever build. */
    method GetEntry(key: string) returns (r: Entry?)
      requires Valid() && key != "" && key[0] == '.'
      ensures r == null <==> Lookup(Contents(), Parts(key)) == None
      ensures r != null ==> r in g.cells && g.cells[r].path == Parts(key)
      ensures r != null ==> Lookup(Contents(), Parts(key)) == Some(g.cells[r].val)
    {
      var keys := ParseKey(key);
      if key == "." {
        r := FindChild(root, ".");
      } else {
        PrintOfParse(key);
        r := Walk(keys.value);
      }
      if r != null { EntryInForest(build, g, r); }
      assert NodeOk(build, g, g.root);
    }

    method Walk(parts: seq<string>) returns (entry: Entry?)
      requires Valid() && DotFree(parts)
      ensures entry == null ==> parts != [] && !Exists(Top(build, g), parts)
      ensures entry != null ==> entry in g.cells && g.cells[entry].path == parts
    {
      entry := root;
      var i := 0;
      assert NodeOk(build, g, g.root);
      while entry != null && i < |parts|
        invariant 0 <= i <= |parts|
        invariant entry == null ==> parts != [] && !Exists(Top(build, g), parts)
        invariant entry != null ==> entry in g.cells && g.cells[entry].path == parts[..i]
      {
        var child := FindChild(entry, parts[i]);
        assert parts[..i + 1] == parts[..i] + [parts[i]];
        if child == null {
          NoChildNoPath(entry, parts[i]);
          MissingPrefix(Top(build, g), parts[..i + 1], parts);
        } else {
          ChildPath(entry, parts[i], child);
        }
        entry := child;
        i := i + 1;
      }
    }

    lemma {:induction false} MissingPrefix(f: Forest, p: seq<string>, q: seq<string>)
      requires p <= q && !Exists(f, p)
      ensures !Exists(f, q)
      decreases |p|
    {
      if Has(f, p[0]) { MissingPrefix(KidsOf(f, p[0]), p[1..], q[1..]); }
    }
  
    // ----- the operations -----

    /** One round of the loop in csdb_set_value_for_key: the child named n, created if missing. */
    method Descend(e: Entry, n: string) returns (r: Entry)
      requires Valid() && e in g.cells && n != "."
      modifies this`g, g.cells.Keys
      ensures Valid() && root == old(root) && fresh(g.cells.Keys - old(g.cells.Keys))
      ensures r in g.cells && g.cells[r].path == old(g).cells[e].path + [n]
      ensures g.cells[root].val == old(g).cells[root].val
      ensures Exists(Top(build, old(g)), old(g).cells[e].path)
      ensures var f, p := Top(build, old(g)), old(g).cells[e].path;
              Top(build, g) == if Exists(f, p + [n]) then f else AddKid(build, f, p, n)
    {
      var found := FindChild(e, n);
      EntryInForest(build, g, e);
      if found == null {
        NoChildNoPath(e, n);
        r := new Entry(n);
        ghost var pos := AppendChild(e, r, n);
        LinkAdds(build, old(g), e, r, n, pos);
      } else {
        r := found;
        ChildPath(e, n, r);
        EntryInForest(build, g, r);
      }
    }

    /** csdb_set_value_for_key */
    method SetValueForKey(key: string, v: string) returns (err: int)
      requires Valid() && Scannable(key)
      modifies this`g, g.cells.Keys
      ensures Valid() && root == old(root) && fresh(g.cells.Keys - old(g.cells.Keys))
      ensures (Contents(), err) == SetOp(build, old(Contents()), key, v)
    {
      var keys := ParseKey(key);
      if keys == None { return -1; }
      assert NodeOk(build, g, g.root);
      if key == "." {
        var entry := FindChild(root, keys.value[0]);
        AssignPuts(build, g, entry, v);
        AssignValue(entry, v);
      } else {
        PrintOfParse(key);
        PathIsRootOnlyForDot(key);
        SetPathValue(keys.value, v);
      }
      err := 0;
    }

    method SetPathValue(parts: seq<string>, v: string)
      requires Valid() && DotFree(parts) && parts != []
      modifies this`g, g.cells.Keys
      ensures Valid() && root == old(root) && fresh(g.cells.Keys - old(g.cells.Keys))
      ensures Contents() == SetPath(build, old(Contents()), parts, v)
    {
      ghost var f := Top(build, g);
      var entry := root;
      assert NodeOk(build, g, g.root);
      for i := 0 to |parts|
        invariant Valid() && root == old(root) && fresh(g.cells.Keys - old(g.cells.Keys))
        invariant entry in g.cells && g.cells[entry].path == parts[..i]
        invariant g.cells[root].val == old(g).cells[root].val
        invariant Top(build, g) == Touch(build, f, parts[..i])
      {
        assert parts[..i + 1] == parts[..i] + [parts[i]];
        TouchStep(build, f, parts[..i], parts[i]);
        entry := Descend(entry, parts[i]);
      }
      assert parts[..|parts|] == parts;
      AssignPuts(build, g, entry, v);
      assert NodeOk(build, g, g.root);
      AssignValue(entry, v);
    }

    /** csdb_get_value_for_key */
    method GetValueForKey(key: string) returns (err: int, v: Option<string>)
      requires Valid() && key != ""
      ensures (err, v) == GetOp(Contents(), key)
    {
      if !IsValidKey(key) { return -ECS_INVALIDKEY, None; }
      var entry := GetEntry(key);
      if entry == null { return -ECS_INVALIDKEY, None; }
      assert Linked(build, g, entry);
      if !entry.isLeaf { return -ECS_NOLEAF, None; }
      return 0, entry.value;
    }

    /** csdb_append_value_for_key */
    method AppendValueForKey(key: string, v: Option<string>, btwn: Option<string>) returns (err: int)
      requires Valid() && key != "" && key[0] == '.'
      modifies this`g, g.cells.Keys
      ensures Valid() && root == old(root) && g.cells.Keys == old(g.cells.Keys)
      ensures (Contents(), err) == AppendOp(old(Contents()), key, v, btwn)
    {
      var entry := GetEntry(key);
      if entry == null || v == None { return -1; }
      assert Linked(build, g, entry);
      if !entry.isLeaf { return -1; }
      var w := entry.value.value;
      if btwn.Some? { w := w + btwn.value; }
      w := w + v.value;
      assert entry.value.value + "" + v.value == entry.value.value + v.value;
      AssignPuts(build, g, entry, w);
      assert NodeOk(build, g, g.root) && NodeOk(build, g, entry);
      AssignValue(entry, w);
      err := 0;
    }
  
    /** csdb_remove_from_key. Freeing what hung below the entry is not part of this model. */
    method RemoveFromKey(key: string) returns (err: int)
      requires Valid() && key != "" && key[0] == '.'
      modifies this`g, g.cells.Keys
      ensures Valid() && root == old(root) && g.cells.Keys <= old(g.cells.Keys)
      ensures (Contents(), err) == RemoveOp(old(Contents()), key)
    {
      if key == "." { return -1; }
      PathIsRootOnlyForDot(key);
      var x := GetEntry(key);
      if x == null { return -ECS_NOENTRY; }
      assert NodeOk(build, g, g.root) && NodeOk(build, g, x);
      assert x != g.root;
      var j := UnlinkEntry(x);
      UnlinkRemoves(build, g, x, j);
      UnlinkBasics(build, g, x, j);
      LinkedAfterUnlink(build, g, x, j);
      g := Unlink(g, x, j);
      err := 0;
    }

    method UnlinkEntry(x: Entry) returns (ghost j: nat)
      requires Valid() && x in g.cells && x != g.root
      modifies g.cells.Keys
      ensures CanUnlink(build, g, x, j) && Unlinked(build, g, x, j)
    {
      assert NodeOk(build, g, x) && Linked(build, g, x);
      ghost var e := g.cells[x].parent;
      j :| 0 <= j < |g.cells[e].kids| && g.cells[e].kids[j] == x;
      UnlinkAt(x, e, j);
    }

    method UnlinkAt(x: Entry, ghost e: Entry, ghost j: nat)
      requires Valid() && CanUnlink(build, g, x, j) && e == g.cells[x].parent && x.parent == e
      modifies g.cells.Keys
      ensures Unlinked(build, g, x, j)
    {
      ghost var ks := g.cells[e].kids;
      assert NodeOk(build, g, e) && Linked(build, g, e);
      KidsDistinct(build, g, e);
      ghost var ls := ks[..j] + ks[j + 1..];
      BypassLinks(x, e, ks, j, ls);
      UnlinkLeavesRest(e);
      ItIsUnlinked(build, g, x, j, ls);
    }

    /** The pointer writes of csdb_remove_from_key. */
    method BypassLinks(x: Entry, ghost e: Entry, ghost ks: seq<Entry>, ghost j: nat, ghost ls: seq<Entry>)
      requires Chain(ks) && Distinct(ks) && j < |ks| && ks[j] == x && ls == ks[..j] + ks[j + 1..]
      requires x.parent == e && e.childs == Nth(ks, 0) && (build.Sorted? ==> e.nbrEntries == |ks|)
      modifies (set k | k in ks)`next, (set k | k in ks)`prev, e`childs, e`nbrEntries
      ensures Chain(ls) && e.childs == Nth(ls, 0) && (build.Sorted? ==> e.nbrEntries == |ls|)
    {
      assert Nth(ls, 0) == if j == 0 then Nth(ks, 1) else ks[0];
      BypassSiblings(x, ks, j, ls);
      LeaveParent(x, e, ls);
    }

    /** The neighbours are linked to each other ... */
    method BypassSiblings(x: Entry, ghost ks: seq<Entry>, ghost j: nat, ghost ls: seq<Entry>)
      requires Chain(ks) && Distinct(ks) && j < |ks| && ks[j] == x && ls == ks[..j] + ks[j + 1..]
      modifies (set k | k in ks)`next, (set k | k in ks)`prev
      ensures Chain(ls) && x.next == Nth(ks, j + 1) && x.prev == Nth(ks, j - 1)
    {
      if x.prev != null { x.prev.next := x.next; }
      if x.next != null { x.next.prev := x.prev; }
      ChainAfterBypass(ks, j);
    }

    /** ... and the parent starts its list one further and counts one less. */
    method LeaveParent(x: Entry, ghost e: Entry, ghost ls: seq<Entry>)
      requires Chain(ls) && x.parent == e && (build.Sorted? ==> e.nbrEntries >= 1)
      modifies e`childs, e`nbrEntries
      ensures Chain(ls)
      ensures e.childs == if x.prev == null then x.next else old(e.childs)
      ensures build.Sorted? ==> e.nbrEntries == old(e.nbrEntries) - 1
    {
      if x.prev == null { x.parent.childs := x.next; }
      if build.Sorted? { x.parent.nbrEntries := x.parent.nbrEntries - 1; }
    }

    twostate lemma UnlinkLeavesRest(e: Entry)
      requires old(Valid()) && e in g.cells && g == old(g)
      requires forall x {:trigger x in g.cells} :: x in g.cells ==>
                 x.name == old(x.name) && x.value == old(x.value) && x.isLeaf == old(x.isLeaf) && x.parent == old(x.parent)
      requires forall x {:trigger x in g.cells} :: x in g.cells && x != e ==>
                 x.childs == old(x.childs) && x.nbrEntries == old(x.nbrEntries)
      requires forall x {:trigger x in g.cells} :: x in g.cells && g.cells[x].parent != e ==>
                 x.next == old(x.next) && x.prev == old(x.prev)
      ensures forall x {:trigger Linked(build, g, x)} :: x in g.cells && x != e ==> Linked(build, g, x)
    {
      forall x | x in g.cells && x != e
        ensures Linked(build, g, x)
      {
        assert NodeOk(build, g, x) && old(Linked(build, g, x));
        assert forall i :: 0 <= i < |g.cells[x].kids| ==> KidOk(g, x, g.cells[x].kids[i]);
      }
    }
  
    // ----- dumping and loading -----

    /** csdb_list_parents_names */
    method ListParentsNames(from: Entry) returns (out: string)
      requires Valid() && from in g.cells
      ensures out == KeyString(g.cells[from].path)
      decreases |g.cells[from].path|
    {
      out := "";
      assert NodeOk(build, g, from) && Linked(build, g, from);
      if from != root {
        ghost var u := g.cells[from].parent;
        ParentPath(build, g, from);
        out := ListParentsNames(from.parent);
        out := out + "." + from.name;
        KeyStringOfLonger(g.cells[u].path, from.name);
      }
    }

    lemma {:induction false} KeyStringOfLonger(p: seq<string>, n: string)
      ensures KeyString(p + [n]) == KeyString(p) + "." + n
    {
      if p == [] {
        assert KeyString([n]) == "." + n + KeyString([n][1..]);
      } else {
        assert (p + [n])[1..] == p[1..] + [n];
        KeyStringOfLonger(p[1..], n);
        assert "." + p[0] + (KeyString(p[1..]) + "." + n) == ("." + p[0] + KeyString(p[1..])) + "." + n;
      }
    }

    /** What csdb_list_parents_names prints for an entry is a key, and csdb_get_entry finds the entry
        under it, if its name is not empty, and its parent otherwise. */
    lemma PrintedKeyNames(ops: seq<Op>, e: Entry, r: Entry)
      requires Valid() && e in g.cells && e != root && r in g.cells
      requires forall i :: 0 <= i < |ops| ==> Callable(ops[i])
      requires Contents() == Run(build, EMPTY, ops).0
      ensures var key := KeyString(g.cells[e].path);
              && key != "" && key[0] == '.'
              && Lookup(Contents(), Parts(key)) != None
              && (g.cells[r].path == Parts(key) <==> r == if e.name != "" then e else e.parent)
    {
      var p := g.cells[e].path;
      assert NodeOk(build, g, e) && Linked(build, g, e);
      EntryInForest(build, g, e);
      PathsAreDotFree(build, ops, p);
      var u := if e.name != "" then e else e.parent;
      NamedByParts(e);
      EntryInForest(build, g, u);
      if g.cells[r].path == g.cells[u].path { PathIsUnique(build, g, r, u); }
    }

    lemma NamedByParts(e: Entry)
      requires Valid() && e in g.cells && e != root && DotFree(g.cells[e].path)
      ensures var u := if e.name != "" then e else e.parent;
              u in g.cells && g.cells[u].path == Parts(KeyString(g.cells[e].path))
    {
      var p := g.cells[e].path;
      assert NodeOk(build, g, e) && Linked(build, g, e);
      ParentPath(build, g, e);
      if e.name != "" {
        ParseOfPrint(p);
      } else {
        EmptyNameIsDropped(p);
        assert p[..|p| - 1] + [""] == p;
      }
    }

    /** The children of one entry, or the last few of them. */
    ghost predicate Siblings(ks: seq<Entry>, above: seq<string>)
      requires WF(build, g)
      reads this
    {
      && |above| <= g.bound
      && At(g, ks, |above| + 1)
      && forall i :: 0 <= i < |ks| ==> g.cells[ks[i]].path == above + [g.cells[ks[i]].name]
    }

    lemma KidsAreSiblings(e: Entry)
      requires Valid() && e in g.cells
      ensures var c := g.cells[e];
              && Siblings(c.kids, c.path) && Chain(c.kids) && e.childs == Nth(c.kids, 0)
              && TreeKids(build, g, e) == Trees(build, g, c.kids, |c.path| + 1)
    {
      assert NodeOk(build, g, e) && Linked(build, g, e);
      forall i | 0 <= i < |g.cells[e].kids|
        ensures KidOk(g, e, g.cells[e].kids[i])
      {
      }
    }

    lemma DumpOfCons(e: Entry, rest: seq<Entry>, above: seq<string>, out: string, text: string)
      requires WF(build, g) && e in g.cells && g.cells[e].path == above + [g.cells[e].name]
      requires At(g, rest, |above| + 1)
      requires var c := g.cells[e];
               text == (if c.val.Some? then Line(c.path, c.val.value) else "") + Dump(TreeKids(build, g, e), c.path)
      ensures At(g, [e] + rest, |above| + 1)
      ensures out + Dump(Trees(build, g, [e] + rest, |above| + 1), above) ==
              (out + text) + Dump(Trees(build, g, rest, |above| + 1), above)
    {
      TreesOfCons(build, g, e, rest, |above| + 1);
      var below := Dump(Trees(build, g, rest, |above| + 1), above);
      assert out + (text + below) == (out + text) + below;
    }

    /** csdb_dump_from_entry, with what it writes to the descriptor as the result. */
    method DumpFromEntry(first: Entry?, ghost ks: seq<Entry>, ghost above: seq<string>) returns (out: string)
      requires Valid() && Siblings(ks, above) && first == Nth(ks, 0)
      requires Chain(ks)
      ensures out == Dump(Trees(build, g, ks, |above| + 1), above)
      decreases g.bound + 1 - |above|
    {
      out := "";
      var entry := first;
      ghost var i := 0;
      assert ks[0..] == ks;
      while entry != null
        invariant 0 <= i <= |ks| && entry == Nth(ks, i)
        invariant At(g, ks[i..], |above| + 1)
        invariant out + Dump(Trees(build, g, ks[i..], |above| + 1), above) == Dump(Trees(build, g, ks, |above| + 1), above)
        decreases |ks| - i
      {
        var text := DumpOne(entry, above);
        assert ks[i..] == [entry] + ks[i + 1..];
        DumpOfCons(entry, ks[i + 1..], above, out, text);
        out := out + text;
        entry := entry.next;
        i := i + 1;
      }
      assert ks[i..] == [];
      assert out + "" == out;
    }

    /** The lines of one entry: its own if it is a leaf, then those below it. */
    method DumpOne(entry: Entry, ghost above: seq<string>) returns (out: string)
      requires Valid() && entry in g.cells && |above| <= g.bound
      requires g.cells[entry].path == above + [g.cells[entry].name]
      ensures var c := g.cells[entry];
              out == (if c.val.Some? then Line(c.path, c.val.value) else "") + Dump(TreeKids(build, g, entry), c.path)
      decreases g.bound + 1 - |above|, 0
    {
      assert Linked(build, g, entry);
      KidsAreSiblings(entry);
      ghost var c := g.cells[entry];
      out := "";
      if entry.isLeaf {
        out := ListParentsNames(entry);
        out := out + "=" + entry.value.value + "\n";
      }
      if entry.childs != null {
        var below := DumpFromEntry(entry.childs, c.kids, c.path);
        out := out + below;
      } else {
        assert c.kids == [];
        assert out + "" == out;
      }
    }

    /** csdb_dump_from_key: everything below the entry, nothing for a missing one. */
    method DumpFromKey(key: string) returns (out: string)
      requires Valid() && key != "" && key[0] == '.'
      ensures var f, p := Contents().top, Parts(key);
              out == if Exists(f, p) then Dump(Below(f, p), p) else ""
    {
      out := "";
      var entry := GetEntry(key);
      if entry != null {
        EntryInForest(build, g, entry);
        KidsAreSiblings(entry);
        out := DumpFromEntry(entry.childs, g.cells[entry].kids, g.cells[entry].path);
      }
    }

    /** csc_read_db_from_file on the text of the file. */
    method ReadDb(text: string)
      requires Valid() && Loadable(text)
      modifies this`g, g.cells.Keys
      ensures Valid() && root == old(root) && fresh(g.cells.Keys - old(g.cells.Keys))
      ensures Contents() == Load(build, old(Contents()), text)
    {
      var pos := 0;
      assert text[0..] == text;
      while pos < |text|
        invariant 0 <= pos <= |text|
        invariant Valid() && root == old(root) && fresh(g.cells.Keys - old(g.cells.Keys))
        invariant Loadable(text[pos..])
        invariant Load(build, Contents(), text[pos..]) == Load(build, old(Contents()), text)
      {
        pos := ReadNext(text, pos);
      }
      assert text[pos..] == "";
    }

    /** One newline skipped, or the line up to the next newline set. */
    method ReadNext(text: string, pos: nat) returns (next: nat)
      requires Valid() && pos < |text| && Loadable(text[pos..])
      modifies this`g, g.cells.Keys
      ensures Valid() && root == old(root) && fresh(g.cells.Keys - old(g.cells.Keys))
      ensures pos < next <= |text| && Loadable(text[next..])
      ensures Load(build, Contents(), text[next..]) == Load(build, old(Contents()), text[pos..])
    {
      LoadStep(build, Contents(), text, pos);
      if text[pos] == '\n' {
        next := pos + 1;
      } else {
        var len := Index(text[pos..], '\n');
        ReadLine(text[pos..][..len]);
        next := pos + len;
      }
    }

    method ReadLine(line: string)
      requires Valid() && LineLoadable(line)
      modifies this`g, g.cells.Keys
      ensures Valid() && root == old(root) && fresh(g.cells.Keys - old(g.cells.Keys))
      ensures Contents() == LoadLine(build, old(Contents()), line)
    {
      var i := Index(line, '=');
      if i < |line| {
        var err := SetValueForKey(line[..i], line[i + 1..]);
      }
    }
  }
}
