/** A forest is a finite map from paths (part-name sequences) to values. Each csdb operation
    changes exactly the paths it should. */
module ForestMap {
  import opened Options
  import opened Forests

  lemma {:induction false} SetKidsTwice(f: Forest, n: string, k: Forest, l: Forest)
    ensures SetKids(SetKids(f, n, k), n, l) == SetKids(f, n, l)
    ensures Has(f, n) ==> SetKids(f, n, KidsOf(f, n)) == f
  {
    if f.Cons? { SetKidsTwice(f.rest, n, k, l); }
  }

  /** One more part: the walk of csdb_set_value_for_key either finds it or adds it. */
  lemma {:induction false} TouchStep(b: Build, f: Forest, p: seq<string>, n: string)
    ensures Exists(Touch(b, f, p), p)
    ensures Touch(b, f, p + [n]) ==
            if Exists(Touch(b, f, p), p + [n]) then Touch(b, f, p) else AddKid(b, Touch(b, f, p), p, n)
    decreases |p|
  {
    TouchExists(b, f, p);
    var q := p + [n];
    var g := if Has(f, q[0]) then f else Insert(b, f, q[0]);
    InsertFinds(b, f, q[0]);
    if p == [] {
      assert q[1..] == [];
      SetKidsTwice(g, n, Nil, Nil);
    } else {
      var k := KidsOf(g, p[0]);
      var t := Touch(b, k, p[1..]);
      assert q[1..] == p[1..] + [n];
      TouchStep(b, k, p[1..], n);
      SetKidsFinds(g, p[0], t);
      SetKidsTwice(g, p[0], t, Touch(b, k, q[1..]));
    }
  }

  lemma {:induction false} TouchLookup(b: Build, f: Forest, p: seq<string>, q: seq<string>)
    requires q != []
    ensures Exists(Touch(b, f, p), q) <==> (Exists(f, q) || q <= p)
    ensures Exists(Touch(b, f, p), q) ==>
              Value(Touch(b, f, p), q) == if Exists(f, q) then Value(f, q) else None
    decreases |p|
  {
    if p != [] {
      var g := if Has(f, p[0]) then f else Insert(b, f, p[0]);
      InsertFinds(b, f, p[0]);
      var k := KidsOf(g, p[0]);
      SetKidsFinds(g, p[0], Touch(b, k, p[1..]));
      if q[0] == p[0] {
        assert q <= p <==> q[1..] <= p[1..] by {
          assert q == [q[0]] + q[1..] && p == [p[0]] + p[1..];
        }
        if |q| > 1 { TouchLookup(b, k, p[1..], q[1..]); }
      }
    }
  }

  lemma {:induction false} PutLookup(f: Forest, p: seq<string>, v: string, q: seq<string>)
    requires p != [] && Exists(f, p) && q != []
    ensures Exists(Put(f, p, v), q) <==> Exists(f, q)
    ensures Exists(f, q) ==> Value(Put(f, p, v), q) == if q == p then Some(v) else Value(f, q)
    decreases |p|
  {
    if |p| == 1 {
      SetValFinds(f, p[0], v);
      if q[0] == p[0] && |q| == 1 { assert q == p; }
    } else {
      var k := KidsOf(f, p[0]);
      SetKidsFinds(f, p[0], Put(k, p[1..], v));
      if q[0] == p[0] {
        assert q == p <==> q[1..] == p[1..] by {
          assert q == [q[0]] + q[1..] && p == [p[0]] + p[1..];
        }
        if |q| > 1 { PutLookup(k, p[1..], v, q[1..]); }
      }
    }
  }

  /** Setting p gives p its new value, creates exactly the missing proper prefixes of p, none of
      them a leaf, and changes no other entry. */
  lemma SetLookup(b: Build, f: Forest, p: seq<string>, v: string, q: seq<string>)
    requires p != [] && q != []
    ensures Exists(Set(b, f, p, v), q) <==> (Exists(f, q) || q <= p)
    ensures Exists(Set(b, f, p, v), q) ==>
              Value(Set(b, f, p, v), q) ==
              if q == p then Some(v) else if Exists(f, q) then Value(f, q) else None
  {
    TouchExists(b, f, p);
    TouchLookup(b, f, p, q);
    PutLookup(Touch(b, f, p), p, v, q);
  }

  /** Removing p removes exactly the paths that p is a part-wise prefix of. */
  lemma {:induction false} RemoveLookup(b: Build, f: Forest, p: seq<string>, q: seq<string>)
    requires WellFormed(b, f) && p != [] && Exists(f, p) && q != []
    ensures Exists(Remove(f, p), q) <==> (Exists(f, q) && !(p <= q))
    ensures Exists(Remove(f, p), q) ==> Value(Remove(f, p), q) == Value(f, q)
    decreases |p|
  {
    if |p| == 1 {
      DropFinds(b, f, p[0]);
      assert p <= q <==> q[0] == p[0];
    } else {
      var k := KidsOf(f, p[0]);
      KidsWellFormed(b, f, p[0]);
      SetKidsFinds(f, p[0], Remove(k, p[1..]));
      if q[0] == p[0] {
        assert p <= q <==> p[1..] <= q[1..] by {
          assert q == [q[0]] + q[1..] && p == [p[0]] + p[1..];
        }
        if |q| > 1 { RemoveLookup(b, k, p[1..], q[1..]); }
      }
    }
  }

  lemma {:induction false} TouchWellFormed(b: Build, f: Forest, p: seq<string>)
    requires WellFormed(b, f)
    ensures WellFormed(b, Touch(b, f, p))
    decreases |p|
  {
    if p != [] {
      var g := if Has(f, p[0]) then f else Insert(b, f, p[0]);
      InsertFinds(b, f, p[0]);
      if !Has(f, p[0]) { InsertWellFormed(b, f, p[0]); }
      KidsWellFormed(b, g, p[0]);
      TouchWellFormed(b, KidsOf(g, p[0]), p[1..]);
      SetWellFormed(b, g, p[0], "", Touch(b, KidsOf(g, p[0]), p[1..]));
    }
  }

  lemma {:induction false} PutWellFormed(b: Build, f: Forest, p: seq<string>, v: string)
    requires WellFormed(b, f) && p != [] && Exists(f, p)
    ensures WellFormed(b, Put(f, p, v))
    decreases |p|
  {
    KidsWellFormed(b, f, p[0]);
    var k := KidsOf(f, p[0]);
    if |p| == 1 {
      SetWellFormed(b, f, p[0], v, k);
    } else {
      PutWellFormed(b, k, p[1..], v);
      SetWellFormed(b, f, p[0], v, Put(k, p[1..], v));
    }
  }

  lemma SetKeepsWellFormed(b: Build, f: Forest, p: seq<string>, v: string)
    requires WellFormed(b, f) && p != []
    ensures WellFormed(b, Set(b, f, p, v))
  {
    TouchExists(b, f, p);
    TouchWellFormed(b, f, p);
    PutWellFormed(b, Touch(b, f, p), p, v);
  }

  lemma {:induction false} RemoveKeepsWellFormed(b: Build, f: Forest, p: seq<string>)
    requires WellFormed(b, f) && p != [] && Exists(f, p)
    ensures WellFormed(b, Remove(f, p))
    decreases |p|
  {
    if |p| == 1 {
      DropFinds(b, f, p[0]);
    } else {
      var k := KidsOf(f, p[0]);
      KidsWellFormed(b, f, p[0]);
      RemoveKeepsWellFormed(b, k, p[1..]);
      SetWellFormed(b, f, p[0], "", Remove(k, p[1..]));
    }
  }

  // ----- one sibling list somewhere below -----

  /** The part p + [n] seen from the sibling list below p. */
  lemma {:induction false} BelowStep(f: Forest, p: seq<string>, n: string)
    requires Exists(f, p)
    ensures Exists(f, p + [n]) <==> Has(Below(f, p), n)
    ensures Exists(f, p + [n]) ==>
              && Value(f, p + [n]) == ValOf(Below(f, p), n)
              && Below(f, p + [n]) == KidsOf(Below(f, p), n)
    decreases |p|
  {
    var q := p + [n];
    if p == [] {
      assert q[1..] == [];
    } else {
      assert q[1..] == p[1..] + [n];
      BelowStep(KidsOf(f, p[0]), p[1..], n);
    }
  }

  /** f with another sibling list below p. */
  function ReplaceBelow(f: Forest, p: seq<string>, k: Forest): Forest
    requires Exists(f, p)
    decreases |p|
  {
    if p == [] then k else SetKids(f, p[0], ReplaceBelow(KidsOf(f, p[0]), p[1..], k))
  }

  /** Adding, setting and removing all change one sibling list only. */
  lemma {:induction false} EditsAreLocal(b: Build, f: Forest, p: seq<string>, n: string, v: string)
    requires Exists(f, p)
    ensures AddKid(b, f, p, n) == ReplaceBelow(f, p, Insert(b, Below(f, p), n))
    ensures Exists(f, p + [n]) ==> Put(f, p + [n], v) == ReplaceBelow(f, p, SetVal(Below(f, p), n, v))
    ensures Exists(f, p + [n]) ==> Remove(f, p + [n]) == ReplaceBelow(f, p, Drop(Below(f, p), n))
    decreases |p|
  {
    var q := p + [n];
    if p == [] {
      assert q[1..] == [];
    } else {
      assert q[1..] == p[1..] + [n];
      EditsAreLocal(b, KidsOf(f, p[0]), p[1..], n, v);
    }
  }
}
