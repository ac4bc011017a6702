/** The textual dump of a database and what loading it back builds. */
module DumpReload {
  import opened Options
  import opened KeyParser
  import opened Forests

  /** A whole database: the value csdb_root may carry and everything below it. */
  datatype Store = Store(rootVal: Option<string>, top: Forest)

  const EMPTY := Store(None, Nil)

  // ----- printing -----

  function Line(path: seq<string>, v: string): string {
    KeyString(path) + "=" + v + "\n"
  }

  /** csdb_dump_from_entry on a sibling list whose parent has the path `above`. */
  function Dump(f: Forest, above: seq<string>): string {
    match f
    case Nil => ""
    case Cons(n, v, k, r) =>
      (if v.Some? then Line(above + [n], v.value) else "") + Dump(k, above + [n]) + Dump(r, above)
  }

  // ----- loading -----

  /** csdb_set_value_for_key on keys the parser ends on: nothing happens without a dot, and "." is
      the root. */
  function SetKey(b: Build, s: Store, key: string, v: string): Store
    requires Scannable(key)
  {
    if '.' !in key then s else SetPath(b, s, Parts(key), v)
  }

  function SetPath(b: Build, s: Store, p: seq<string>, v: string): Store {
    if p == [] then s.(rootVal := Some(v)) else s.(top := Set(b, s.top, p, v))
  }

  predicate LineLoadable(line: string) {
    var i := Index(line, '=');
    i < |line| ==> Scannable(line[..i])
  }

  /** A line without '=' is skipped; the key ends at the first '='. */
  function LoadLine(b: Build, s: Store, line: string): Store
    requires LineLoadable(line)
  {
    var i := Index(line, '=');
    if i == |line| then s else SetKey(b, s, line[..i], line[i + 1..])
  }

  /** Every key in the text is one csdb_parse_key comes to an end on. */
  predicate Loadable(text: string)
    decreases |text|
  {
    if text == "" then true
    else if text[0] == '\n' then Loadable(text[1..])
    else LineLoadable(text[..Index(text, '\n')]) && Loadable(text[Index(text, '\n')..])
  }

  /** csc_read_db_from_file: strtok cuts the text at newlines and never returns an empty line. */
  function Load(b: Build, s: Store, text: string): Store
    requires Loadable(text)
    decreases |text|
  {
    if text == "" then s
    else if text[0] == '\n' then Load(b, s, text[1..])
    else
      var e := Index(text, '\n');
      Load(b, LoadLine(b, s, text[..e]), text[e..])
  }

  /** One turn of the loop: a newline is skipped, a line is loaded up to the next newline. */
  lemma LoadStep(b: Build, s: Store, text: string, pos: nat)
    requires pos < |text| && Loadable(text[pos..])
    ensures text[pos] == '\n' ==>
              Loadable(text[pos + 1..]) && Load(b, s, text[pos..]) == Load(b, s, text[pos + 1..])
    ensures text[pos] != '\n' ==>
              var e := Index(text[pos..], '\n');
              && e > 0 && LineLoadable(text[pos..][..e]) && Loadable(text[pos + e..])
              && Load(b, s, text[pos..]) == Load(b, LoadLine(b, s, text[pos..][..e]), text[pos + e..])
  {
    var rest := text[pos..];
    if text[pos] == '\n' {
      assert rest[1..] == text[pos + 1..];
    } else {
      var e := Index(rest, '\n');
      assert rest[e..] == text[pos + e..];
    }
  }

  // ----- the leaves of a forest, in dump order -----

  datatype Leaf = Leaf(path: seq<string>, val: string)

  function Under(n: string, ls: seq<Leaf>): seq<Leaf> {
    if ls == [] then [] else [Leaf([n] + ls[0].path, ls[0].val)] + Under(n, ls[1..])
  }

  function Leaves(f: Forest): seq<Leaf> {
    match f
    case Nil => []
    case Cons(n, v, k, r) =>
      (if v.Some? then [Leaf([n], v.value)] else []) + Under(n, Leaves(k)) + Leaves(r)
  }

  function Lines(above: seq<string>, ls: seq<Leaf>): string {
    if ls == [] then "" else Line(above + ls[0].path, ls[0].val) + Lines(above, ls[1..])
  }

  lemma {:induction false} LinesConcat(above: seq<string>, k: seq<Leaf>, l: seq<Leaf>)
    ensures Lines(above, k + l) == Lines(above, k) + Lines(above, l)
  {
    if k == [] {
      assert k + l == l;
    } else {
      assert (k + l)[1..] == k[1..] + l;
      LinesConcat(above, k[1..], l);
      var first := Line(above + k[0].path, k[0].val);
      assert first + (Lines(above, k[1..]) + Lines(above, l)) == (first + Lines(above, k[1..])) + Lines(above, l);
    }
  }

  lemma {:induction false} LinesUnder(above: seq<string>, n: string, ls: seq<Leaf>)
    ensures Lines(above, Under(n, ls)) == Lines(above + [n], ls)
  {
    if ls != [] {
      LinesUnder(above, n, ls[1..]);
      assert above + ([n] + ls[0].path) == above + [n] + ls[0].path;
      assert Under(n, ls)[1..] == Under(n, ls[1..]);
    }
  }

  lemma {:induction false} DumpIsLines(f: Forest, above: seq<string>)
    ensures Dump(f, above) == Lines(above, Leaves(f))
  {
    if f.Cons? {
      DumpIsLines(f.kids, above + [f.name]);
      DumpIsLines(f.rest, above);
      LinesUnder(above, f.name, Leaves(f.kids));
      var own := if f.val.Some? then [Leaf([f.name], f.val.value)] else [];
      if f.val.Some? { assert own[1..] == []; }
      LinesConcat(above, own, Under(f.name, Leaves(f.kids)));
      LinesConcat(above, own + Under(f.name, Leaves(f.kids)), Leaves(f.rest));
    }
  }

  // ----- reading the lines back -----

  ghost predicate Clean(s: string) {
    '.' !in s && '=' !in s && '\n' !in s
  }

  ghost predicate CleanPath(p: seq<string>) {
    forall i :: 0 <= i < |p| ==> Clean(p[i])
  }

  /** What the file format can carry: no dot, '=' or newline in a name, no newline in a value. */
  ghost predicate CleanLeaves(ls: seq<Leaf>) {
    forall i :: 0 <= i < |ls| ==> ls[i].path != [] && CleanPath(ls[i].path) && '\n' !in ls[i].val
  }

  /** Where a dumped leaf lands when its line is read back. */
  function ReloadPath(p: seq<string>): seq<string>
    requires p != []
  {
    Parts(KeyString(p))
  }

  function LoadLeaves(b: Build, s: Store, ls: seq<Leaf>): Store
    requires forall i :: 0 <= i < |ls| ==> ls[i].path != []
    decreases |ls|
  {
    if ls == [] then s
    else LoadLeaves(b, SetPath(b, s, ReloadPath(ls[0].path), ls[0].val), ls[1..])
  }

  lemma {:induction false} KeyStringOfCleanPath(p: seq<string>)
    requires CleanPath(p)
    ensures '=' !in KeyString(p) && '\n' !in KeyString(p)
  {
    if p != [] {
      assert Clean(p[0]);
      assert forall i :: 0 <= i < |p| - 1 ==> p[1..][i] == p[i + 1];
      KeyStringOfCleanPath(p[1..]);
    }
  }

  lemma IndexPastPrefix(s: string, c: char, t: string)
    requires c !in s
    ensures Index(s + [c] + t, c) == |s|
  {
    var u := s + [c] + t;
    assert forall j :: 0 <= j < |s| ==> u[j] == s[j];
    IndexIs(u, c, |s|);
  }

  /** A text that goes on after the end of a line. */
  predicate AtLineEnd(rest: string) {
    rest == "" || rest[0] == '\n'
  }

  lemma LineUpTo(line: string, rest: string)
    requires line != "" && '\n' !in line && AtLineEnd(rest)
    ensures var text := line + rest;
            && text[0] != '\n' && Index(text, '\n') == |line|
            && text[..Index(text, '\n')] == line && text[Index(text, '\n')..] == rest
  {
    var text := line + rest;
    assert forall j :: 0 <= j < |line| ==> text[j] == line[j];
    IndexIs(text, '\n', |line|);
  }

  /** A line without '=' changes nothing. */
  lemma LineWithoutEquals(b: Build, s: Store, line: string, rest: string)
    requires line != "" && '=' !in line && '\n' !in line && AtLineEnd(rest)
    ensures Loadable(line + rest) <==> Loadable(rest)
    ensures Loadable(rest) ==> Load(b, s, line + rest) == Load(b, s, rest)
  {
    LineUpTo(line, rest);
    IndexIs(line, '=', |line|);
  }

  /** A line with one sets what stands in front of the first '=' to what stands behind it. */
  lemma LineWithEquals(b: Build, s: Store, key: string, v: string, rest: string)
    requires '=' !in key && '\n' !in key && '\n' !in v && Scannable(key) && AtLineEnd(rest)
    ensures Loadable(key + "=" + v + rest) <==> Loadable(rest)
    ensures Loadable(rest) ==> Load(b, s, key + "=" + v + rest) == Load(b, SetKey(b, s, key, v), rest)
  {
    var line := key + ['='] + v;
    LineUpTo(line, rest);
    assert key + "=" + v + rest == line + rest;
    IndexPastPrefix(key, '=', v);
    assert line[..|key|] == key && line[|key| + 1..] == v;
  }

  /** One dumped line, at the head of a text, is read back as one set. */
  lemma LoadOneLine(b: Build, s: Store, p: seq<string>, v: string, rest: string)
    requires p != [] && CleanPath(p) && '\n' !in v
    ensures Loadable(Line(p, v) + rest) <==> Loadable(rest)
    ensures Loadable(rest) ==>
              Load(b, s, Line(p, v) + rest) == Load(b, SetPath(b, s, ReloadPath(p), v), rest)
  {
    var key := KeyString(p);
    KeyStringOfCleanPath(p);
    assert Line(p, v) + rest == key + "=" + v + (['\n'] + rest);
    assert key[0] == '.';
    LineWithEquals(b, s, key, v, ['\n'] + rest);
    LoadSkipsNewline(b, SetPath(b, s, ReloadPath(p), v), rest);
  }

  lemma LoadSkipsNewline(b: Build, s: Store, rest: string)
    ensures Loadable(['\n'] + rest) <==> Loadable(rest)
    ensures Loadable(rest) ==> Load(b, s, ['\n'] + rest) == Load(b, s, rest)
  {
    assert (['\n'] + rest)[1..] == rest;
  }

  lemma {:induction false} LoadOfLines(b: Build, s: Store, ls: seq<Leaf>)
    requires CleanLeaves(ls)
    ensures Loadable(Lines([], ls))
    ensures Load(b, s, Lines([], ls)) == LoadLeaves(b, s, ls)
    decreases |ls|
  {
    if ls != [] {
      var p, v := ls[0].path, ls[0].val;
      LoadOfLines(b, SetPath(b, s, ReloadPath(p), v), ls[1..]);
      LoadOneLine(b, s, p, v, Lines([], ls[1..]));
      assert [] + p == p;
    }
  }
}
