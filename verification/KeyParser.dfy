/** Keys such as ".node.defiant.uptime": the hand-written scanner of csdb_parse_key, what it
    computes, and its inverse csdb_list_parents_names. */
module KeyParser {
  import opened Options

  /** Where c first occurs in s, or |s|: what strchr and the scanners look for. */
  function Index(s: string, c: char): (i: nat)
    ensures i <= |s|
    ensures i < |s| ==> s[i] == c
    ensures forall j :: 0 <= j < i ==> s[j] != c
  {
    if s == "" || s[0] == c then 0 else 1 + Index(s[1..], c)
  }

  lemma IndexIs(s: string, c: char, i: nat)
    requires i <= |s| && (i < |s| ==> s[i] == c)
    requires forall j :: 0 <= j < i ==> s[j] != c
    ensures Index(s, c) == i
  {
  }

  /** Number of dots, as csdb_check_key counts them. */
  function Dots(s: string): nat {
    if s == "" then 0 else (if s[0] == '.' then 1 else 0) + Dots(s[1..])
  }

  lemma {:induction false} DotsZero(s: string)
    ensures Dots(s) == 0 <==> '.' !in s
  {
    if s != "" {
      DotsZero(s[1..]);
      assert s == [s[0]] + s[1..];
    }
  }

  lemma {:induction false} DotsIsCount(s: string)
    ensures Dots(s) == multiset(s)['.']
  {
    if s != "" {
      DotsIsCount(s[1..]);
      assert s == [s[0]] + s[1..];
    }
  }

  /** The texts between dots: the path a key denotes. A dot that ends the key opens no further part, so
      "." is the root. */
  function Parts(s: string): (p: seq<string>)
    requires s == "" || s[0] == '.'
    decreases |s|
  {
    if |s| <= 1 then []
    else
      var i := Index(s[1..], '.');
      [s[1..1 + i]] + Parts(s[1 + i..])
  }

  /** Parts by position: what is left of key when a part-opening dot stands at i, or nothing is
      left when i is the end. The scanner is proved against this form. */
  function PartsFrom(key: string, i: nat): seq<string>
    requires i <= |key|
    decreases |key| - i
  {
    if i + 1 >= |key| then []
    else [key[i + 1..NextDot(key, i + 1)]] + PartsFrom(key, NextDot(key, i + 1))
  }

  function NextDot(key: string, i: nat): (e: nat)
    requires i <= |key|
    ensures i <= e <= |key|
    decreases |key| - i
  {
    if i == |key| || key[i] == '.' then i else NextDot(key, i + 1)
  }

  lemma {:induction false} NextDotFinds(key: string, i: nat)
    requires i <= |key|
    ensures var e := NextDot(key, i);
            (e < |key| ==> key[e] == '.') && forall j :: i <= j < e ==> key[j] != '.'
    decreases |key| - i
  {
    if i < |key| && key[i] != '.' { NextDotFinds(key, i + 1); }
  }

  lemma {:induction false} NextDotIs(key: string, i: nat, e: nat)
    requires i <= e <= |key| && (e == |key| || key[e] == '.')
    requires forall j :: i <= j < e ==> key[j] != '.'
    ensures NextDot(key, i) == e
    decreases e - i
  {
    if i < e { NextDotIs(key, i + 1, e); }
  }

  lemma PartsOfNameAndTail(n: string, t: string)
    requires '.' !in n && (t == "" || t[0] == '.') && !(n == "" && t == "")
    ensures Parts("." + n + t) == [n] + Parts(t)
  {
    var s := "." + n + t;
    assert s[1..] == n + t;
    IndexIs(n + t, '.', |n|);
    assert s[1..1 + |n|] == n;
    assert s[1 + |n|..] == t;
  }

  lemma SplitAt(key: string, i: nat, e: nat)
    requires i < e <= |key| && key[i] == '.'
    ensures key[i..] == "." + key[i + 1..e] + key[e..]
  {
  }

  lemma PartsAtDot(key: string, i: nat)
    requires i + 1 < |key| && key[i] == '.'
    ensures var e := NextDot(key, i + 1);
            (e < |key| ==> key[e] == '.') && Parts(key[i..]) == [key[i + 1..e]] + Parts(key[e..])
  {
    var e := NextDot(key, i + 1);
    NextDotFinds(key, i + 1);
    SplitAt(key, i, e);
    PartsOfNameAndTail(key[i + 1..e], key[e..]);
  }

  lemma {:induction false} PartsFromIsParts(key: string, i: nat)
    requires i <= |key| && (i == |key| || key[i] == '.')
    ensures PartsFrom(key, i) == Parts(key[i..])
    decreases |key| - i
  {
    if i + 1 < |key| {
      PartsAtDot(key, i);
      PartsFromIsParts(key, NextDot(key, i + 1));
    }
  }

  /** csdb_is_valid_key; the C code reads key[strlen(key)-1], so the key is not empty. */
  predicate IsValidKey(key: string)
    requires key != ""
  {
    key[0] == '.' && (key[|key| - 1] != '.' || |key| == 1)
  }

  // ----- the scanner -----

  /** The variables of the scanning loop; the parts found so far are kept apart. */
  datatype Scan = Scan(c: nat, begin: nat, inToken: bool)

  /** The keys the scanning loop comes to an end on, as the lemma below shows. */
  predicate Scannable(key: string) {
    key == "" || key[0] == '.' || '.' !in key
  }

  /** One round of the while loop, without the token it may store. */
  function Round(key: string, s: Scan): Scan
    requires s.c < |key|
  {
    if !s.inToken then
      if key[s.c] == '.' then Scan(s.c + 1, s.begin + 1, true) else s
    else
      var c := if key[s.c] != '.' then s.c + 1 else s.c;
      if c == |key| || key[c] == '.' then Scan(c, c, false) else Scan(c, s.begin, true)
  }

  /** The loop state after n rounds, or earlier if the loop has ended. */
  function Rounds(key: string, n: nat): (s: Scan) {
    if n == 0 then Scan(0, 0, false)
    else
      var s := Rounds(key, n - 1);
      if s.c < |key| then Round(key, s) else s
  }

  /** The loop runs for ever on a key whose first character is not a dot ... */
  lemma {:induction false} StuckOffADot(key: string, n: nat)
    requires key != "" && key[0] != '.'
    ensures Rounds(key, n) == Scan(0, 0, false)
  {
    if n > 0 { StuckOffADot(key, n - 1); }
  }

  /** ... and ends within two rounds a character on every key that starts with one. */
  lemma {:induction false} ProgressOnADot(key: string, n: nat)
    requires key != "" && key[0] == '.'
    ensures var s := Rounds(key, n);
            && s.c <= |key|
            && (s.c < |key| && !s.inToken ==> key[s.c] == '.')
            && (s.c == |key| || 2 * s.c + (if s.inToken then 0 else 1) > n)
  {
    if n > 0 { ProgressOnADot(key, n - 1); }
  }

  lemma ScanEndsIffDotFirst(key: string)
    requires key != ""
    ensures (exists n: nat :: Rounds(key, n).c >= |key|) <==> key[0] == '.'
  {
    if key[0] == '.' {
      ProgressOnADot(key, 2 * |key|);
      assert Rounds(key, 2 * |key|).c >= |key|;
    } else {
      forall n: nat
        ensures Rounds(key, n).c < |key|
      {
        StuckOffADot(key, n);
      }
    }
  }

  /** csdb_check_key's count. */
  method CountDots(key: string) returns (n: nat)
    ensures n == Dots(key) == multiset(key)['.']
  {
    DotsIsCount(key);
    n := 0;
    var c := 0;
    while c < |key|
      invariant 0 <= c <= |key|
      invariant n + Dots(key[c..]) == Dots(key)
    {
      if key[c] == '.' { n := n + 1; }
      c := c + 1;
    }
  }

  /** csdb_parse_key. None is the NULL it returns for a key without dots. The result slots are an
      array of nof_delims + 1 pointers, so every store below is checked against that bound, and at
      least one NULL remains behind the last part. */
  method ParseKey(key: string) returns (keys: Option<seq<string>>)
    requires Scannable(key)
    ensures '.' !in key <==> keys.None?
    ensures key == "." ==> keys == Some(["."])
    ensures '.' in key && key != "." ==> keys == Some(Parts(key)) && |Parts(key)| <= Dots(key)
  {
    var nofDelims := CountDots(key);
    DotsZero(key);
    if nofDelims == 0 { return None; }
    PartsAtMostDots(key);
    PartsFromIsParts(key, 0);
    assert key[0..] == key;
    var slots := new Option<string>[nofDelims + 1](_ => None);
    if nofDelims == 1 && |key| == 1 {
      slots[0] := Some(key);
      assert key == ".";
      return Some([key]);
    }
    assert key[0] == '.';
    var next := ScanLoop(key, slots);
    var found := Collect(slots, next, Parts(key));
    keys := Some(found);
  }

  /** The state machine itself: stores the parts into the slots through a moving pointer. */
  method ScanLoop(key: string, slots: array<Option<string>>) returns (next: nat)
    requires key != "" && key[0] == '.' && |PartsFrom(key, 0)| < slots.Length
    modifies slots
    ensures next == |PartsFrom(key, 0)|
    ensures forall j :: 0 <= j < next ==> slots[j] == Some(PartsFrom(key, 0)[j])
    ensures forall j :: next <= j < slots.Length ==> slots[j] == old(slots[j])
  {
    var c: nat, begin: nat, inToken := 0, 0, false;
    next := 0;
    ghost var rounds, all, s := 0, PartsFrom(key, 0), Scan(0, 0, false);
    while c < |key|
      invariant s == Rounds(key, rounds) && s == Scan(c, begin, inToken)
      invariant ScanState(key, s) && Filled(slots, next, key, s, all)
      invariant forall j :: next <= j < slots.Length ==> slots[j] == old(slots[j])
      decreases ToGo(key, s)
    {
      RoundKeepsState(key, s);
      if !inToken {
        if key[c] == '.' {
          c := c + 1;
          begin := begin + 1;
          inToken := true;
        }
      } else {
        next, c, begin, inToken := InToken(key, slots, next, c, begin, all);
      }
      rounds, s := rounds + 1, Round(key, s);
    }
  }

  /** The slots hold the parts that lie before what is still to be stored. */
  ghost predicate Filled(slots: array<Option<string>>, next: nat, key: string, s: Scan, all: seq<string>)
    requires ScanState(key, s)
    reads slots
  {
    && next <= |all| < slots.Length && all[next..] == PartsFrom(key, Todo(s))
    && forall j :: 0 <= j < next ==> slots[j] == Some(all[j])
  }

  /** The second case of the switch: one character further, and at the end of the token its name is
      stored. */
  method InToken(key: string, slots: array<Option<string>>, next: nat, c: nat, begin: nat, ghost all: seq<string>)
      returns (next': nat, c': nat, begin': nat, inToken: bool)
    requires ScanState(key, Scan(c, begin, true)) && c < |key| && Filled(slots, next, key, Scan(c, begin, true), all)
    modifies slots
    ensures Scan(c', begin', inToken) == Round(key, Scan(c, begin, true))
    ensures ScanState(key, Scan(c', begin', inToken)) && Filled(slots, next', key, Scan(c', begin', inToken), all)
    ensures next <= next' && forall j :: next' <= j < slots.Length ==> slots[j] == old(slots[j])
  {
    next', c', begin', inToken := next, c, begin, true;
    RoundKeepsState(key, Scan(c, begin, true));
    if key[c'] != '.' { c' := c' + 1; }
    if c' == |key| || key[c'] == '.' {
      Store(slots, next, key[begin..c'], key, Scan(c, begin, true), all);
      next' := next + 1;
      begin' := c';
      inToken := false;
    }
  }

  /** *next_key = name_new, in a round that ends a token. */
  method Store(slots: array<Option<string>>, next: nat, name: string,
               ghost key: string, ghost s: Scan, ghost all: seq<string>)
    requires ScanState(key, s) && s.c < |key| && s.inToken && !Round(key, s).inToken
    requires name == key[s.begin..Round(key, s).c]
    requires next <= |all| < slots.Length && all[next..] == PartsFrom(key, Todo(s))
    requires forall j :: 0 <= j < next ==> slots[j] == Some(all[j])
    modifies slots
    ensures next < |all| && all[next + 1..] == PartsFrom(key, Todo(Round(key, s)))
    ensures forall j :: 0 <= j <= next ==> slots[j] == Some(all[j])
    ensures forall j :: next < j < slots.Length ==> slots[j] == old(slots[j])
  {
    RoundFindsPart(key, s);
    assert all[next] == all[next..][0];
    assert all[next + 1..] == all[next..][1..];
    slots[next] := Some(name);
  }

  /** What a caller reads out of the slots. */
  method Collect(slots: array<Option<string>>, n: nat, ghost parts: seq<string>) returns (found: seq<string>)
    requires n == |parts| <= slots.Length
    requires forall j :: 0 <= j < n ==> slots[j] == Some(parts[j])
    ensures found == parts
  {
    found := [];
    for i := 0 to n
      invariant found == parts[..i]
    {
      found := found + [slots[i].value];
    }
  }

  ghost predicate ScanState(key: string, s: Scan) {
    && s.begin <= s.c <= |key|
    && (!s.inToken ==> s.begin == s.c && (s.c == |key| || key[s.c] == '.'))
    && (s.inToken ==> 1 <= s.begin && key[s.begin - 1] == '.')
    && (s.inToken && s.begin < s.c ==> s.c < |key| && key[s.c] != '.')
    && (forall j :: s.begin <= j < s.c ==> key[j] != '.')
  }

  /** How many rounds may still come: two for a character, one inside a token. */
  ghost function ToGo(key: string, s: Scan): int {
    2 * (|key| - s.c) + if s.inToken then 1 else 0
  }

  /** Where the part of the key begins whose parts are still to be stored. */
  ghost function Todo(s: Scan): int {
    if s.inToken then s.begin - 1 else s.c
  }

  /** A round keeps the state well formed; unless it ends a token, it changes nothing to do. */
  lemma RoundKeepsState(key: string, s: Scan)
    requires ScanState(key, s) && s.c < |key|
    ensures ScanState(key, Round(key, s))
    ensures !(s.inToken && !Round(key, s).inToken) ==> Todo(s) == Todo(Round(key, s))
    ensures 0 <= ToGo(key, Round(key, s)) < ToGo(key, s)
  {
  }

  /** A round that ends a token has found the next part. */
  lemma RoundFindsPart(key: string, s: Scan)
    requires ScanState(key, s) && s.c < |key| && s.inToken && !Round(key, s).inToken
    ensures PartsFrom(key, s.begin - 1) == [key[s.begin..Round(key, s).c]] + PartsFrom(key, Round(key, s).c)
  {
    NextDotIs(key, s.begin, Round(key, s).c);
  }

  lemma {:induction false} DotsOfConcat(s: string, t: string)
    ensures Dots(s + t) == Dots(s) + Dots(t)
  {
    if s == "" {
      assert s + t == t;
    } else {
      assert (s + t)[1..] == s[1..] + t;
      DotsOfConcat(s[1..], t);
    }
  }

  /** There are never more parts than dots, so nof_delims + 1 slots always hold them and a NULL. */
  lemma {:induction false} PartsAtMostDots(key: string)
    requires key == "" || key[0] == '.'
    ensures |Parts(key)| <= Dots(key)
    decreases |key|
  {
    if |key| > 1 {
      var i := Index(key[1..], '.');
      PartsAtMostDots(key[1 + i..]);
      DotsOfConcat(key[..1 + i], key[1 + i..]);
      assert key == key[..1 + i] + key[1 + i..];
    }
  }

  // ----- printing a path, and back -----

  /** What csdb_list_parents_names writes for an entry: a dot and a name for each entry from below
      the root down. */
  function KeyString(p: seq<string>): (s: string)
    ensures s == "" || s[0] == '.'
    ensures s == "" <==> p == []
  {
    if p == [] then "" else "." + p[0] + KeyString(p[1..])
  }

  ghost predicate DotFree(p: seq<string>) {
    forall i :: 0 <= i < |p| ==> '.' !in p[i]
  }

  lemma {:induction false} PartsOfPrint(p: seq<string>)
    requires p != [] && DotFree(p) && p[|p| - 1] != ""
    ensures Parts(KeyString(p)) == p
  {
    var t := KeyString(p[1..]);
    PartsOfNameAndTail(p[0], t);
    assert p == [p[0]] + p[1..];
    if |p| > 1 { PartsOfPrint(p[1..]); }
  }

  lemma {:induction false} PrintEndsInName(p: seq<string>)
    requires p != [] && DotFree(p) && p[|p| - 1] != ""
    ensures var k := KeyString(p); |k| > 1 && k[0] == '.' && k[|k| - 1] != '.'
  {
    if |p| == 1 {
      LastOfConcat(".", p[0]);
      assert p[1..] == [] && KeyString(p) == "." + p[0];
      assert p[0][|p[0]| - 1] in p[0];
    } else {
      PrintEndsInName(p[1..]);
      LastOfConcat("." + p[0], KeyString(p[1..]));
    }
  }

  /** Parsing inverts printing for every path whose last name is not empty. */
  lemma ParseOfPrint(p: seq<string>)
    requires p != [] && DotFree(p) && p[|p| - 1] != ""
    ensures Parts(KeyString(p)) == p
    ensures IsValidKey(KeyString(p)) && KeyString(p) != "."
  {
    PartsOfPrint(p);
    PrintEndsInName(p);
  }

  /** An empty last name is lost: its key is taken for that of the entry above. */
  lemma {:induction false} EmptyNameIsDropped(p: seq<string>)
    requires p != [] && DotFree(p) && p[|p| - 1] == ""
    ensures Parts(KeyString(p)) + [""] == p
  {
    var t := KeyString(p[1..]);
    assert p == [p[0]] + p[1..];
    if |p| > 1 {
      EmptyNameIsDropped(p[1..]);
      PartsOfNameAndTail(p[0], t);
      assert Parts(KeyString(p)) == [p[0]] + Parts(t);
      assert [p[0]] + Parts(t) + [""] == [p[0]] + (Parts(t) + [""]);
    } else {
      assert p == [""] && t == "";
      assert KeyString(p) == "." && Parts(".") == [];
    }
  }

  lemma LastOfConcat(s: string, t: string)
    requires t != ""
    ensures (s + t)[|s + t| - 1] == t[|t| - 1]
  {
  }

  /** Printing the parts of this key gives it back, but for a dot at its end. */
  ghost predicate PrintsBack(key: string)
    requires key != "" && key[0] == '.'
  {
    var p := Parts(key);
    && DotFree(p)
    && (KeyString(p) == key <==> key[|key| - 1] != '.')
    && (key[|key| - 1] == '.' ==> KeyString(p) + "." == key)
    && (key[|key| - 1] != '.' ==> p != [] && p[|p| - 1] != "")
  }

  lemma LastPartPrintsBack(n: string)
    requires n != "" && '.' !in n
    ensures PrintsBack("." + n)
  {
    var key := "." + n;
    assert key == "." + n + "";
    PartsOfNameAndTail(n, "");
    assert Parts("") == [] && [n] + [] == [n];
    PrintOfCons(n, []);
    LastOfConcat(".", n);
  }

  lemma MorePartsPrintBack(n: string, t: string)
    requires '.' !in n && t != "" && t[0] == '.' && PrintsBack(t)
    ensures PrintsBack("." + n + t)
  {
    var key, p := "." + n + t, Parts(t);
    PartsOfNameAndTail(n, t);
    PrintOfCons(n, p);
    PrintStep(key, n, t, KeyString(p));
    assert p != [] ==> ([n] + p)[|p|] == p[|p| - 1];
  }

  lemma {:induction false} PartsHaveCharsOfKey(key: string, c: char)
    requires (key == "" || key[0] == '.') && c !in key
    ensures forall i :: 0 <= i < |Parts(key)| ==> c !in Parts(key)[i]
    decreases |key|
  {
    if |key| > 1 {
      var i := Index(key[1..], '.');
      assert forall d :: d in key[1..1 + i] ==> d in key;
      assert forall d :: d in key[1 + i..] ==> d in key;
      assert key[1 + i..] != "" ==> key[1 + i..][0] == key[1..][i];
      PartsHaveCharsOfKey(key[1 + i..], c);
    }
  }

  /** Printing inverts parsing exactly on the keys that do not end in a dot. */
  lemma {:induction false} PrintOfParse(key: string)
    requires key != "" && key[0] == '.'
    ensures DotFree(Parts(key))
    ensures KeyString(Parts(key)) == key <==> key[|key| - 1] != '.'
    ensures key[|key| - 1] == '.' ==> KeyString(Parts(key)) + "." == key
    ensures key[|key| - 1] != '.' ==> Parts(key) != [] && Parts(key)[|Parts(key)| - 1] != ""
    decreases |key|
  {
    if |key| > 1 {
      var n, t := FirstPart(key);
      if t == "" {
        assert key == "." + n;
        LastPartPrintsBack(n);
      } else {
        PrintOfParse(t);
        MorePartsPrintBack(n, t);
      }
      assert PrintsBack(key);
    }
  }

  /** The root, or the printed form of a path whose last name is not empty. */
  ghost predicate NamesEntry(key: string) {
    key == "." || exists p :: p != [] && DotFree(p) && p[|p| - 1] != "" && key == KeyString(p)
  }

  /** csdb_is_valid_key accepts exactly the keys that name an entry. */
  lemma ValidKeyIff(key: string)
    requires key != ""
    ensures IsValidKey(key) <==> NamesEntry(key)
  {
    if IsValidKey(key) && key != "." { PrintOfParse(key); }
    if NamesEntry(key) && key != "." {
      var p :| p != [] && DotFree(p) && p[|p| - 1] != "" && key == KeyString(p);
      PrintEndsInName(p);
    }
  }

  lemma PrintStep(key: string, n: string, t: string, u: string)
    requires key == "." + n + t && t != ""
    ensures key[|key| - 1] == t[|t| - 1]
    ensures u == t <==> "." + n + u == key
    ensures u + "." == t ==> "." + n + u + "." == key
  {
    LastOfConcat("." + n, t);
    assert ("." + n + u)[1 + |n|..] == u;
    assert key[1 + |n|..] == t;
    assert "." + n + (u + ".") == ("." + n + u) + ".";
  }

  lemma PrintOfCons(n: string, p: seq<string>)
    ensures KeyString([n] + p) == "." + n + KeyString(p)
  {
    assert ([n] + p)[1..] == p;
  }

  lemma FirstPart(key: string) returns (n: string, t: string)
    requires |key| > 1 && key[0] == '.'
    ensures key == "." + n + t && '.' !in n && (t == "" || t[0] == '.') && !(n == "" && t == "")
  {
    var i := Index(key[1..], '.');
    n, t := key[1..][..i], key[1..][i..];
    assert forall j :: 0 <= j < |n| ==> n[j] == key[1..][j];
    assert key[1..] == n + t;
    assert key == "." + key[1..];
    if t != "" { assert t[0] == key[1..][i]; }
  }
}
