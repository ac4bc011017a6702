/** What a csdb tree means, independent of its pointers: the entries hanging below one parent,
    in sibling order. A forest follows the C fields one for one, `kids` for `childs` and `rest`
    for `next`, and says nothing about prev and parent, which the pointer layer keeps. */
module Forests {
  import opened Options
  import opened CString

  /** The two builds of csdb: unordered sibling lists searched linearly, and sibling lists kept in
      strcmp order and searched by bisection. */
  datatype Build = Linear | Sorted

  /** `val` is Some(v) for a leaf with value v and None for an entry that is not a leaf. */
  datatype Forest =
    | Nil
    | Cons(name: string, val: Option<string>, kids: Forest, rest: Forest)

  // ----- one sibling list -----

  predicate Has(f: Forest, n: string) {
    f.Cons? && (f.name == n || Has(f.rest, n))
  }

  function ValOf(f: Forest, n: string): Option<string>
    requires Has(f, n)
  {
    if f.name == n then f.val else ValOf(f.rest, n)
  }

  function KidsOf(f: Forest, n: string): Forest
    requires Has(f, n)
  {
    if f.name == n then f.kids else KidsOf(f.rest, n)
  }

  function SetVal(f: Forest, n: string, v: string): Forest {
    match f
    case Nil => Nil
    case Cons(m, w, k, r) => if m == n then Cons(m, Some(v), k, r) else Cons(m, w, k, SetVal(r, n, v))
  }

  function SetKids(f: Forest, n: string, kids: Forest): Forest {
    match f
    case Nil => Nil
    case Cons(m, w, k, r) => if m == n then Cons(m, w, kids, r) else Cons(m, w, k, SetKids(r, n, kids))
  }

  /** A new entry without value or children: in front of the list in the linear build, before the
      first greater name in the sorted one. */
  function Insert(b: Build, f: Forest, n: string): Forest {
    if b.Linear? || f.Nil? || Less(n, f.name) then Cons(n, None, Nil, f)
    else Cons(f.name, f.val, f.kids, Insert(b, f.rest, n))
  }

  function Drop(f: Forest, n: string): Forest {
    match f
    case Nil => Nil
    case Cons(m, w, k, r) => if m == n then r else Cons(m, w, k, Drop(r, n))
  }

  function Append(f: Forest, g: Forest): Forest {
    match f
    case Nil => g
    case Cons(n, v, k, r) => Cons(n, v, k, Append(r, g))
  }

  /** Sibling names are distinct, and increasing in the sorted build, at every level. */
  ghost predicate WellFormed(b: Build, f: Forest) {
    match f
    case Nil => true
    case Cons(n, v, k, r) =>
      && WellFormed(b, k)
      && WellFormed(b, r)
      && !Has(r, n)
      && (b.Sorted? ==> forall m :: Has(r, m) ==> Less(n, m))
  }

  // ----- paths -----

  /** Is there an entry whose part names are p? The empty path is the root. */
  predicate Exists(f: Forest, p: seq<string>)
    decreases |p|
  {
    p == [] || (Has(f, p[0]) && Exists(KidsOf(f, p[0]), p[1..]))
  }

  /** The value of the entry at p. */
  function Value(f: Forest, p: seq<string>): Option<string>
    requires p != [] && Exists(f, p)
    decreases |p|
  {
    if |p| == 1 then ValOf(f, p[0]) else Value(KidsOf(f, p[0]), p[1..])
  }

  /** The sibling list below the entry at p. */
  function Below(f: Forest, p: seq<string>): Forest
    requires Exists(f, p)
    decreases |p|
  {
    if p == [] then f else Below(KidsOf(f, p[0]), p[1..])
  }

  /** Creates whatever is missing along p, as entries that are not leaves. */
  function Touch(b: Build, f: Forest, p: seq<string>): Forest
    decreases |p|
  {
    if p == [] then f
    else
      var g := if Has(f, p[0]) then f else Insert(b, f, p[0]);
      InsertFinds(b, f, p[0]);
      SetKids(g, p[0], Touch(b, KidsOf(g, p[0]), p[1..]))
  }

  /** Makes the entry at p a leaf with value v. */
  function Put(f: Forest, p: seq<string>, v: string): Forest
    requires p != [] && Exists(f, p)
    decreases |p|
  {
    if |p| == 1 then SetVal(f, p[0], v)
    else SetKids(f, p[0], Put(KidsOf(f, p[0]), p[1..], v))
  }

  /** Adds an empty entry n below the entry at p. */
  function AddKid(b: Build, f: Forest, p: seq<string>, n: string): Forest
    requires Exists(f, p)
    decreases |p|
  {
    if p == [] then Insert(b, f, n)
    else SetKids(f, p[0], AddKid(b, KidsOf(f, p[0]), p[1..], n))
  }

  /** Unlinks the entry at p with everything below it. */
  function Remove(f: Forest, p: seq<string>): Forest
    requires p != [] && Exists(f, p)
    decreases |p|
  {
    if |p| == 1 then Drop(f, p[0])
    else SetKids(f, p[0], Remove(KidsOf(f, p[0]), p[1..]))
  }

  /** csdb_set_value_for_key below the root: create the missing entries, then set the last one. */
  function Set(b: Build, f: Forest, p: seq<string>, v: string): Forest
    requires p != []
  {
    TouchExists(b, f, p);
    Put(Touch(b, f, p), p, v)
  }

  // ----- one sibling list: what each operation leaves behind -----

  lemma {:induction false} InsertFinds(b: Build, f: Forest, n: string)
    ensures forall m :: Has(Insert(b, f, n), m) <==> (m == n || Has(f, m))
    ensures !Has(f, n) ==> ValOf(Insert(b, f, n), n) == None && KidsOf(Insert(b, f, n), n) == Nil
    ensures forall m :: m != n && Has(f, m) ==>
              ValOf(Insert(b, f, n), m) == ValOf(f, m) && KidsOf(Insert(b, f, n), m) == KidsOf(f, m)
  {
    if b.Linear? || f.Nil? || Less(n, f.name) {
    } else {
      InsertFinds(b, f.rest, n);
    }
  }

  lemma {:induction false} SetValFinds(f: Forest, n: string, v: string)
    ensures forall m :: Has(SetVal(f, n, v), m) <==> Has(f, m)
    ensures forall m :: Has(f, m) ==>
              && ValOf(SetVal(f, n, v), m) == (if m == n then Some(v) else ValOf(f, m))
              && KidsOf(SetVal(f, n, v), m) == KidsOf(f, m)
  {
    if f.Cons? { SetValFinds(f.rest, n, v); }
  }

  lemma {:induction false} SetKidsFinds(f: Forest, n: string, k: Forest)
    ensures forall m :: Has(SetKids(f, n, k), m) <==> Has(f, m)
    ensures forall m :: Has(f, m) ==>
              && ValOf(SetKids(f, n, k), m) == ValOf(f, m)
              && KidsOf(SetKids(f, n, k), m) == (if m == n then k else KidsOf(f, m))
  {
    if f.Cons? { SetKidsFinds(f.rest, n, k); }
  }

  lemma {:induction false} DropFinds(b: Build, f: Forest, n: string)
    requires WellFormed(b, f)
    ensures forall m :: Has(Drop(f, n), m) <==> (m != n && Has(f, m))
    ensures forall m :: m != n && Has(f, m) ==>
              ValOf(Drop(f, n), m) == ValOf(f, m) && KidsOf(Drop(f, n), m) == KidsOf(f, m)
    ensures WellFormed(b, Drop(f, n))
  {
    if f.Cons? { DropFinds(b, f.rest, n); }
  }

  lemma {:induction false} InsertWellFormed(b: Build, f: Forest, n: string)
    requires WellFormed(b, f) && !Has(f, n)
    ensures WellFormed(b, Insert(b, f, n))
  {
    if b.Linear? || f.Nil? {
    } else if Less(n, f.name) {
      forall m | Has(f, m)
        ensures Less(n, m)
      {
        if m != f.name { LessTransitive(n, f.name, m); }
      }
    } else {
      InsertWellFormed(b, f.rest, n);
      InsertFinds(b, f.rest, n);
      LessTotal(n, f.name);
    }
  }

  lemma {:induction false} SetWellFormed(b: Build, f: Forest, n: string, v: string, k: Forest)
    requires WellFormed(b, f) && WellFormed(b, k)
    ensures WellFormed(b, SetVal(f, n, v)) && WellFormed(b, SetKids(f, n, k))
  {
    if f.Cons? {
      SetWellFormed(b, f.rest, n, v, k);
      SetValFinds(f.rest, n, v);
      SetKidsFinds(f.rest, n, k);
    }
  }

  lemma {:induction false} KidsWellFormed(b: Build, f: Forest, n: string)
    requires WellFormed(b, f) && Has(f, n)
    ensures WellFormed(b, KidsOf(f, n))
  {
    if f.name != n { KidsWellFormed(b, f.rest, n); }
  }

  lemma {:induction false} TouchExists(b: Build, f: Forest, p: seq<string>)
    ensures Exists(Touch(b, f, p), p)
    decreases |p|
  {
    if p != [] {
      var g := if Has(f, p[0]) then f else Insert(b, f, p[0]);
      InsertFinds(b, f, p[0]);
      SetKidsFinds(g, p[0], Touch(b, KidsOf(g, p[0]), p[1..]));
      TouchExists(b, KidsOf(g, p[0]), p[1..]);
    }
  }
}
