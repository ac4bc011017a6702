/** Exactly which databases survive a dump and a reload. What comes back has gone through a line of
    text and through csdb_parse_key, so a leaf is lost if its names or its value do not fit a line, or
    if its own name is empty: then its line is read as one of its parent. */
module ReloadExact {
  import opened Options
  import opened KeyParser
  import opened Forests
  import opened ForestMap
  import opened DumpReload
  import opened RoundTrip
  import opened Reload

  /** The dump can be loaded, and what is loaded has the same leaves. */
  ghost predicate KeepsLeaves(b: Build, f: Forest) {
    && Loadable(Dump(f, []))
    && forall p :: LeafAt(Load(b, EMPTY, Dump(f, [])).top, p) == LeafAt(f, p)
  }

  // ----- what can come out of a file -----

  /** The names hold no dot, '=' or newline, and the value is on one line; names may be empty. */
  ghost predicate CleanStore(s: Store) {
    forall p :: LeafAt(s.top, p).Some? ==> CleanPath(p) && '\n' !in LeafAt(s.top, p).value
  }

  lemma SetPathClean(b: Build, s: Store, p: seq<string>, v: string)
    requires CleanStore(s) && CleanPath(p) && '\n' !in v
    ensures CleanStore(SetPath(b, s, p, v))
  {
    if p != [] {
      var t := SetPath(b, s, p, v);
      forall q | LeafAt(t.top, q).Some?
        ensures CleanPath(q) && '\n' !in LeafAt(t.top, q).value
      {
        SetLookup(b, s.top, p, v, q);
        if q != p { assert LeafAt(s.top, q) == LeafAt(t.top, q); }
      }
    }
  }

  lemma SetKeyClean(b: Build, s: Store, key: string, v: string)
    requires CleanStore(s) && Scannable(key) && '=' !in key && '\n' !in key && '\n' !in v
    ensures CleanStore(SetKey(b, s, key, v))
  {
    if '.' in key {
      PrintOfParse(key);
      PartsHaveCharsOfKey(key, '=');
      PartsHaveCharsOfKey(key, '\n');
      assert CleanPath(Parts(key));
      SetPathClean(b, s, Parts(key), v);
    }
  }

  lemma LoadLineClean(b: Build, s: Store, line: string)
    requires CleanStore(s) && LineLoadable(line) && '\n' !in line
    ensures CleanStore(LoadLine(b, s, line))
  {
    var i := Index(line, '=');
    if i < |line| {
      assert forall c :: c in line[..i] || c in line[i + 1..] ==> c in line;
      SetKeyClean(b, s, line[..i], line[i + 1..]);
    }
  }

  /** Whatever the text, loading it brings in clean leaves only. */
  lemma {:induction false} LoadClean(b: Build, s: Store, text: string)
    requires CleanStore(s) && Loadable(text)
    ensures CleanStore(Load(b, s, text))
    decreases |text|
  {
    if text == "" {
    } else if text[0] == '\n' {
      LoadClean(b, s, text[1..]);
    } else {
      var e := Index(text, '\n');
      LoadLineClean(b, s, text[..e]);
      LoadClean(b, LoadLine(b, s, text[..e]), text[e..]);
    }
  }

  lemma KeptLeavesAreClean(b: Build, f: Forest)
    requires WellFormed(b, f) && KeepsLeaves(b, f)
    ensures CleanLeaves(Leaves(f))
  {
    assert CleanStore(EMPTY) by {
      forall p
        ensures LeafAt(Nil, p) == None
      {
        NilHasNoLeaf(p);
      }
    }
    LoadClean(b, EMPTY, Dump(f, []));
    var ls := Leaves(f);
    LeavesHavePaths(f);
    forall i | 0 <= i < |ls|
      ensures CleanPath(ls[i].path) && '\n' !in ls[i].val
    {
      assert ls[i] == Leaf(ls[i].path, ls[i].val) && ls[i] in ls;
      LeavesAreLeafAt(b, f, ls[i].path, ls[i].val);
    }
  }

  // ----- where lines land -----

  lemma ReloadPathIs(p: seq<string>)
    requires p != [] && CleanPath(p)
    ensures p[|p| - 1] != "" ==> ReloadPath(p) == p
    ensures p[|p| - 1] == "" ==> ReloadPath(p) + [""] == p
  {
    assert DotFree(p) by { assert forall i :: 0 <= i < |p| ==> Clean(p[i]); }
    if p[|p| - 1] != "" {
      ParseOfPrint(p);
    } else {
      EmptyNameIsDropped(p);
    }
  }

  /** Every leaf present after loading was there before or is where some line landed. */
  lemma {:induction false} LoadedLeafHasLine(b: Build, s: Store, ls: seq<Leaf>, q: seq<string>)
    requires HasPaths(ls) && LeafAt(LoadLeaves(b, s, ls).top, q).Some?
    ensures LeafAt(s.top, q).Some? || exists i :: 0 <= i < |ls| && ReloadPath(ls[i].path) == q
    decreases |ls|
  {
    if ls != [] {
      var p, v := ReloadPath(ls[0].path), ls[0].val;
      LoadedLeafHasLine(b, SetPath(b, s, p, v), ls[1..], q);
      if LeafAt(SetPath(b, s, p, v).top, q).Some? {
        if p != [] { SetLookup(b, s.top, p, v, q); }
      } else {
        var i :| 0 <= i < |ls| - 1 && ReloadPath(ls[1..][i].path) == q;
        assert ls[1..][i] == ls[i + 1];
      }
    }
  }

  function MaxLength(ls: seq<Leaf>): (m: nat)
    ensures forall l :: l in ls ==> |l.path| <= m
  {
    if ls == [] then 0
    else
      assert ls == [ls[0]] + ls[1..];
      var m := MaxLength(ls[1..]);
      if |ls[0].path| > m then |ls[0].path| else m
  }

  /** A leaf with an empty name, kept by a reload, needs another one below it for its own line to
      have landed there; so there would be no end of them. */
  lemma {:induction false} EmptyNamesNeverEnd(b: Build, f: Forest, p: seq<string>)
    requires WellFormed(b, f) && KeepsLeaves(b, f) && CleanLeaves(Leaves(f))
    requires LeafAt(f, p).Some?
    ensures p[|p| - 1] != ""
    decreases MaxLength(Leaves(f)) + 1 - |p|
  {
    var ls := Leaves(f);
    if p[|p| - 1] == "" {
      DumpIsLines(f, []);
      LoadOfLines(b, EMPTY, ls);
      LoadedLeafHasLine(b, EMPTY, ls, p);
      NilHasNoLeaf(p);
      var i :| 0 <= i < |ls| && ReloadPath(ls[i].path) == p;
      var q := ls[i].path;
      ReloadPathIs(q);
      assert ls[i] == Leaf(q, ls[i].val) && ls[i] in ls;
      LeavesAreLeafAt(b, f, q, ls[i].val);
      LeavesAreLeafAt(b, f, p, LeafAt(f, p).value);
      EmptyNamesNeverEnd(b, f, q);
    }
  }

  /** A dump and a reload keep every leaf, and add none, exactly when every leaf has names without dot,
      '=' and newline, the last of them not empty, and a value on one line. */
  lemma KeepsLeavesIff(b: Build, f: Forest)
    requires WellFormed(b, f)
    ensures KeepsLeaves(b, f) <==> Dumpable(f)
  {
    if KeepsLeaves(b, f) {
      KeptLeavesAreClean(b, f);
      forall p | LeafAt(f, p).Some?
        ensures Carried(p, LeafAt(f, p).value)
      {
        EmptyNamesNeverEnd(b, f, p);
        LeavesAreLeafAt(b, f, p, LeafAt(f, p).value);
        var i :| 0 <= i < |Leaves(f)| && Leaves(f)[i] == Leaf(p, LeafAt(f, p).value);
      }
    }
    if Dumpable(f) { ReloadOfDump(b, f); }
  }

  // ----- two keys whose leaves are lost -----

  lemma SetOfOne(b: Build, n: string, v: string)
    ensures var f := Set(b, Nil, [n], v);
            f == Cons(n, Some(v), Nil, Nil) && WellFormed(b, f) && LeafAt(f, [n]) == Some(v)
  {
    assert [n][1..] == [];
    assert Touch(b, Nil, [n]) == Cons(n, None, Nil, Nil);
    LeafAtStep(Set(b, Nil, [n], v), [n]);
  }

  /** The key ".." makes a leaf with an empty name, whatever its value. csdb_is_valid_key does not
      accept this key; a set through the file or by the daemon itself does not ask it. */
  lemma EmptyNameIsLost(b: Build, v: string)
    ensures Parts("..") == [""]
    ensures var f := Set(b, Nil, [""], v);
            LeafAt(f, [""]) == Some(v) && WellFormed(b, f) && !KeepsLeaves(b, f)
  {
    assert Parts("..") == [""] by {
      assert ".."[1..] == ".";
      assert "."[..0] == "" && ".."[1..1] == "";
      assert Parts(".") == [];
    }
    SetOfOne(b, "", v);
    KeepsLeavesIff(b, Set(b, Nil, [""], v));
    assert LeafAt(Set(b, Nil, [""], v), [""]).Some?;
  }

  lemma OnePart(n: string)
    requires '.' !in n && n != ""
    ensures Parts("." + n) == [n] && KeyString([n]) == "." + n
  {
    PartsOfNameAndTail(n, "");
    assert "." + n + "" == "." + n && Parts("") == [] && [n] + [] == [n];
    assert [n][1..] == [] && KeyString([]) == "";
  }

  /** One text, two leaves: the dump does not tell a '=' in the name from the one behind it. */
  lemma SameLine(n: string, m: string, v: string)
    ensures Line([n + "=" + m], v) == Line([n], m + "=" + v)
  {
    var l, r := Line([n + "=" + m], v), Line([n], m + "=" + v);
    assert [n][1..] == [] && [n + "=" + m][1..] == [] && KeyString([]) == "";
    assert l == "." + (n + "=" + m) + "" + "=" + v + "\n";
    assert r == "." + n + "" + "=" + (m + "=" + v) + "\n";
    assert l == "." + n + "=" + m + "=" + v + "\n";
    assert r == "." + n + "=" + m + "=" + v + "\n";
  }

  lemma DumpOfOne(b: Build, n: string, v: string)
    ensures Dump(Set(b, Nil, [n], v), []) == Line([n], v)
  {
    SetOfOne(b, n, v);
    assert [] + [n] == [n];
    assert Line([n], v) + "" + "" == Line([n], v);
  }

  /** What is read back of a name with a '=' in it: a leaf of another name, and another value. */
  lemma EqualsSignComesBack(b: Build, n: string, m: string, v: string)
    requires Clean(n) && n != "" && '\n' !in m && '\n' !in v
    ensures var text := Dump(Set(b, Nil, [n + "=" + m], v), []);
            Loadable(text) && Load(b, EMPTY, text) == Store(None, Set(b, Nil, [n], m + "=" + v))
  {
    var w := m + "=" + v;
    DumpOfOne(b, n + "=" + m, v);
    SameLine(n, m, v);
    assert Line([n], w) + "" == Line([n], w);
    assert CleanPath([n]);
    LoadOneLine(b, EMPTY, [n], w, "");
    OnePart(n);
  }

  /** The key ".a=b", which csdb_is_valid_key accepts, comes back as ".a" with the rest of the name in
      front of the value. */
  lemma EqualsSignIsLost(b: Build, v: string)
    requires '\n' !in v
    ensures IsValidKey(".a=b") && Parts(".a=b") == ["a=b"]
    ensures var f := Set(b, Nil, ["a=b"], v);
            && LeafAt(f, ["a=b"]) == Some(v) && WellFormed(b, f) && !KeepsLeaves(b, f)
            && Loadable(Dump(f, []))
            && Load(b, EMPTY, Dump(f, [])) == Store(None, Set(b, Nil, ["a"], "b=" + v))
  {
    var n := "a=b";
    assert "." + n == ".a=b" && "a" + "=" + "b" == n && "b" + "=" + v == "b=" + v;
    OnePart(n);
    SetOfOne(b, n, v);
    KeepsLeavesIff(b, Set(b, Nil, [n], v));
    assert LeafAt(Set(b, Nil, [n], v), [n]).Some? && '=' in [n][0];
    EqualsSignComesBack(b, "a", "b", v);
  }
}
