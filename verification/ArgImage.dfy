/** The argument image that do_execve builds: strings copied downward into pages that are allocated
    as they are reached, and the first one taken off again by remove_arg_zero. */
module ArgImage {
  import opened Bytes

  const PAGE_SIZE := 4096
  const MAX_ARG_PAGES := 32
  const LIMIT := 131072  // PAGE_SIZE * MAX_ARG_PAGES
  const E2BIG := 7
  const EFAULT := 14

  /** A string argument in user memory: a NULL pointer, an address that faults, or the bytes before
      the terminating NUL. */
  datatype UserStr = NullPtr | Faults | Str(s: seq<Byte>)

  ghost predicate CStrings(a: seq<UserStr>) {
    forall i :: 0 <= i < |a| ==> a[i].Str? ==> NulFree(a[i].s)
  }

  ghost predicate AllReadable(a: seq<UserStr>) {
    forall i :: 0 <= i < |a| ==> a[i].Str?
  }

  /** The bytes of the strings one after the other, each with its NUL. */
  ghost function Text(a: seq<UserStr>): seq<Byte> {
    if a == [] then []
    else Written(a[0]) + Text(a[1..])
  }

  ghost function Written(u: UserStr): seq<Byte> {
    match u case Str(s) => s + [0] case _ => []
  }

  lemma ConcatIsAssociative(a: seq<Byte>, b: seq<Byte>, c: seq<Byte>)
    ensures (a + b) + c == a + (b + c)
  {
  }

  /** The same bytes with others following. */
  ghost function TextOver(a: seq<UserStr>, above: seq<Byte>): seq<Byte> {
    if a == [] then above else Written(a[0]) + TextOver(a[1..], above)
  }

  lemma {:induction false} TextOverIsConcat(a: seq<UserStr>, above: seq<Byte>)
    ensures TextOver(a, above) == Text(a) + above
  {
    if a == [] {
      assert [] + above == above;
    } else {
      TextOverIsConcat(a[1..], above);
      ConcatIsAssociative(Written(a[0]), Text(a[1..]), above);
    }
  }

  lemma TextOverLonger(a: seq<UserStr>, n: nat, above: seq<Byte>)
    requires n < |a|
    ensures TextOver(a[n..], above) == Written(a[n]) + TextOver(a[n + 1..], above)
  {
    assert a[n..][1..] == a[n + 1..];
  }

  lemma TextOverOne(s: seq<Byte>)
    ensures TextOver([Str(s)], []) == s + [0]
  {
    assert [Str(s)][1..] == [];
    assert (s + [0]) + [] == s + [0];
  }

  lemma TextOverGrows(a: seq<UserStr>, above: seq<Byte>)
    ensures |TextOver(a, above)| == |Text(a)| + |above|
  {
    TextOverIsConcat(a, above);
  }

  lemma NothingWritten(a: seq<UserStr>, above: seq<Byte>)
    requires |TextOver(a, above)| <= |above|
    ensures TextOver(a, above) == above
  {
    TextOverIsConcat(a, above);
    assert [] + above == above;
  }

  lemma {:induction false} TextOfConcat(a: seq<UserStr>, b: seq<UserStr>)
    ensures Text(a + b) == Text(a) + Text(b)
  {
    if a == [] {
      assert a + b == b;
    } else {
      assert (a + b)[1..] == a[1..] + b;
      TextOfConcat(a[1..], b);
      ConcatIsAssociative(Written(a[0]), Text(a[1..]), Text(b));
    }
  }

  lemma TextOfOne(s: seq<Byte>)
    ensures Text([Str(s)]) == s + [0]
  {
    assert [Str(s)][1..] == [];
    assert (s + [0]) + [] == s + [0];
  }

  /** strnlen_user: the length with the NUL, 0 on a fault, something above the limit if there is no
      NUL within it. */
  function StrnlenUser(u: UserStr, limit: int): int {
    match u
    case Str(s) => if |s| + 1 <= limit then |s| + 1 else limit + 1
    case _ => 0
  }

  /** What copy_strings returns while pages last: it works from the last string to the first, and an
      error code or zero handed in comes straight back. */
  function CopyResult(a: seq<UserStr>, p: int): int {
    if p <= 0 then p else CopyFrom(a, |a|, p)
  }

  /** The same with n strings still to copy. */
  function CopyFrom(a: seq<UserStr>, n: nat, p: int): int
    requires n <= |a|
  {
    if n == 0 then p
    else
      var q := RoomFor(a[n - 1], p);
      if q < 0 then q else CopyFrom(a, n - 1, q)
  }

  /** Where one string goes below p, or why it cannot. */
  function RoomFor(u: UserStr, p: int): int {
    var len := StrnlenUser(u, p);
    if u.NullPtr? || len == 0 then -EFAULT else if len > p then -E2BIG else p - len
  }

  /** Copying succeeds exactly when every string can be read and all of them fit. */
  lemma {:induction false} CopyFromSucceedsIff(a: seq<UserStr>, n: nat, p: int)
    requires n <= |a| && p >= 0
    ensures CopyFrom(a, n, p) >= 0 <==> AllReadable(a[..n]) && |Text(a[..n])| <= p
    ensures CopyFrom(a, n, p) >= 0 ==> CopyFrom(a, n, p) == p - |Text(a[..n])|
  {
    if n != 0 {
      TextOfPrefix(a, n);
      if a[n - 1].Str? && |a[n - 1].s| + 1 <= p {
        CopyFromSucceedsIff(a, n - 1, p - (|a[n - 1].s| + 1));
      }
    }
  }

  lemma TextOfPrefix(a: seq<UserStr>, n: nat)
    requires 0 < n <= |a|
    ensures |Text(a[..n])| == |Text(a[..n - 1])| + |Written(a[n - 1])|
    ensures AllReadable(a[..n]) <==> AllReadable(a[..n - 1]) && a[n - 1].Str?
  {
    assert a[..n] == a[..n - 1] + [a[n - 1]];
    TextWithLast(a[..n - 1], a[n - 1]);
  }

  lemma TextWithLast(rest: seq<UserStr>, u: UserStr)
    ensures |Text(rest + [u])| == |Text(rest)| + |Written(u)|
    ensures AllReadable(rest + [u]) <==> AllReadable(rest) && u.Str?
  {
    TextOfConcat(rest, [u]);
    assert Text([u]) == Written(u) + Text([u][1..]);
    assert (rest + [u])[|rest|] == u && forall i :: 0 <= i < |rest| ==> (rest + [u])[i] == rest[i];
  }

  /** Which error it is: the last string that stops the copying cannot be read, or is too long for what
      those behind it leave. */
  lemma {:induction false} CopyFailsAt(a: seq<UserStr>, n: nat, p: int) returns (k: nat)
    requires n <= |a| && p >= 0 && CopyFrom(a, n, p) < 0
    ensures k < n && AllReadable(a[k + 1..n]) && |Text(a[k + 1..n])| <= p
    ensures if a[k].Str? then CopyFrom(a, n, p) == -E2BIG && |Text(a[k + 1..n])| + |a[k].s| + 1 > p
            else CopyFrom(a, n, p) == -EFAULT
  {
    var u, q := a[n - 1], RoomFor(a[n - 1], p);
    if q < 0 {
      k := n - 1;
      assert a[n..n] == [];
    } else {
      k := CopyFailsAt(a, n - 1, q);
      assert a[k + 1..n] == a[k + 1..n - 1] + [u];
      TextWithLast(a[k + 1..n - 1], u);
    }
  }

  lemma CopyResultPositiveIff(a: seq<UserStr>, p: int)
    ensures p > 0 ==> (CopyResult(a, p) >= 0 <==> AllReadable(a) && |Text(a)| <= p)
    ensures p > 0 && CopyResult(a, p) >= 0 ==> CopyResult(a, p) == p - |Text(a)|
  {
    assert a[..|a|] == a;
    if p > 0 { CopyFromSucceedsIff(a, |a|, p); }
  }

  /** The strings from the lowest address up: argv, then envp, then the file name. */
  ghost function Image(filename: seq<Byte>, envp: seq<UserStr>, argv: seq<UserStr>): seq<Byte> {
    TextOver(argv, TextOver(envp, filename + [0]))
  }

  /** Where the three copy_strings calls of do_execve leave p while pages last. */
  ghost function BuildResult(filename: seq<Byte>, envp: seq<UserStr>, argv: seq<UserStr>): int {
    CopyResult(argv, CopyResult(envp, CopyResult([Str(filename)], LIMIT - 4)))
  }

  /** p ends above zero exactly when everything can be read and is shorter than the space; an exact
      fit is told apart from it, because copy_strings hands a p of zero straight back. */
  lemma ImageFitsIff(filename: seq<Byte>, envp: seq<UserStr>, argv: seq<UserStr>)
    ensures BuildResult(filename, envp, argv) > 0 <==>
              AllReadable(envp) && AllReadable(argv) && |Image(filename, envp, argv)| < LIMIT - 4
    ensures BuildResult(filename, envp, argv) == 0 <==>
              || |filename| + 1 == LIMIT - 4
              || (&& |filename| + 1 < LIMIT - 4 && AllReadable(envp)
                  && (|| |Text(envp)| + |filename| + 1 == LIMIT - 4
                      || (&& |Text(envp)| + |filename| + 1 < LIMIT - 4 && AllReadable(argv)
                          && |Image(filename, envp, argv)| == LIMIT - 4)))
  {
    TextOfOne(filename);
    TextOverGrows(argv, TextOver(envp, filename + [0]));
    TextOverGrows(envp, filename + [0]);
    CopyResultPositiveIff([Str(filename)], LIMIT - 4);
    var p1 := CopyResult([Str(filename)], LIMIT - 4);
    CopyResultPositiveIff(envp, p1);
    CopyResultPositiveIff(argv, CopyResult(envp, p1));
  }

  /** do_execve tests only for a negative p, so an environment that fills the space to the last byte
      makes it drop every argument and go on: here for the program "/a". */
  lemma ArgumentsCanBeDropped()
    ensures exists envp, argv :: AllReadable(envp) && AllReadable(argv) &&
              BuildResult([47, 97], envp, argv) == 0 && |Image([47, 97], envp, argv)| > LIMIT - 4
  {
    var name: seq<Byte> := [47, 97];
    var envp, argv := [Str(seq(LIMIT - 8, _ => 65))], [Str([66])];
    TextOfOne(envp[0].s);
    TextOfOne(argv[0].s);
    TextOverGrows(argv, TextOver(envp, name + [0]));
    TextOverGrows(envp, name + [0]);
    ImageFitsIff(name, envp, argv);
    assert AllReadable(envp) && AllReadable(argv);
  }

  lemma {:induction false} WithinOnePage(pos: nat, k: nat)
    requires pos % PAGE_SIZE + k < PAGE_SIZE
    ensures (pos + k) / PAGE_SIZE == pos / PAGE_SIZE && (pos + k) % PAGE_SIZE == pos % PAGE_SIZE + k
  {
    assert pos + k == pos / PAGE_SIZE * PAGE_SIZE + (pos % PAGE_SIZE + k);
  }

  lemma NextAddress(i: nat)
    ensures var last := i % PAGE_SIZE + 1 == PAGE_SIZE;
            && (i + 1) % PAGE_SIZE == (if last then 0 else i % PAGE_SIZE + 1)
            && (i + 1) / PAGE_SIZE == (if last then i / PAGE_SIZE + 1 else i / PAGE_SIZE)
  {
  }

  lemma OutsideTheChunk(pos: nat, n: nat, i: int)
    requires i / PAGE_SIZE == pos / PAGE_SIZE && !(pos <= i < pos + n)
    ensures !(pos % PAGE_SIZE <= i % PAGE_SIZE < pos % PAGE_SIZE + n)
  {
  }

  // ----- pages -----

  /** The pages of the image that have not been allocated, and how many the system can still give. */
  datatype Stock = Stock(absent: set<int>, free: nat)

  predicate IsBetween(i: int, j: int, end: int) {
    i <= j < end
  }

  function PageRange(i: int, end: int): (r: set<int>)
    ensures forall j :: j in r <==> i <= j < end
  {
    set j | i <= j < end && IsBetween(i, j, end)
  }

  lemma {:induction false} PageRangeSize(i: int, end: int)
    requires i <= end
    ensures |PageRange(i, end)| == end - i
    decreases end - i
  {
    if i < end {
      PageRangeSize(i + 1, end);
      assert PageRange(i, end) == {i} + PageRange(i + 1, end);
    } else {
      assert PageRange(i, end) == {};
    }
  }

  /** One past the page of the last byte below hi. */
  function EndPage(hi: int): int {
    (hi - 1) / PAGE_SIZE + 1
  }

  /** The pages with an address from lo up to hi. */
  function PagesOf(lo: int, hi: int): set<int> {
    if lo < hi then PageRange(lo / PAGE_SIZE, EndPage(hi)) else {}
  }

  /** The pages from i up to end one after the other: an absent one is taken from the free ones, and
      when there is none left it ends there. */
  function TakePages(st: Stock, i: int, end: int): (Stock, bool)
    decreases end - i
  {
    if i >= end then (st, true)
    else if i !in st.absent then TakePages(st, i + 1, end)
    else if st.free == 0 then (st, false)
    else TakePages(Stock(st.absent - {i}, st.free - 1), i + 1, end)
  }

  function TakeBytes(st: Stock, lo: int, hi: int): (Stock, bool) {
    if lo < hi then TakePages(st, lo / PAGE_SIZE, EndPage(hi)) else (st, true)
  }

  /** No page is lost: each free one that goes is an absent one less. */
  ghost predicate SameTotal(s: Stock, t: Stock) {
    t.absent <= s.absent && |s.absent| - s.free == |t.absent| - t.free
  }

  /** What has become of the stock: it is enough if and only if no more of the pages are absent than
      free; then exactly these have been taken, and otherwise none is left. */
  ghost predicate Taken(st: Stock, pages: set<int>, r: (Stock, bool)) {
    && (r.1 <==> |st.absent * pages| <= st.free)
    && (r.1 ==> r.0.absent == st.absent - pages && r.0.free == st.free - |st.absent * pages|)
    && (!r.1 ==> r.0.free == 0)
    && SameTotal(st, r.0)
  }

  lemma FirstPage(absent: set<int>, i: int, rest: set<int>)
    requires i !in rest
    ensures i !in absent ==> absent * ({i} + rest) == absent * rest && absent - ({i} + rest) == absent - rest
    ensures i in absent ==>
              && |absent * ({i} + rest)| == 1 + |(absent - {i}) * rest|
              && absent - ({i} + rest) == absent - {i} - rest
              && |absent| == 1 + |absent - {i}|
  {
    if i in absent {
      assert absent * ({i} + rest) == {i} + (absent - {i}) * rest;
      assert absent == {i} + (absent - {i});
    }
  }

  lemma {:induction false} TakePagesIs(st: Stock, i: int, end: int)
    ensures Taken(st, PageRange(i, end), TakePages(st, i, end))
    decreases end - i
  {
    if i < end {
      var rest := PageRange(i + 1, end);
      assert PageRange(i, end) == {i} + rest;
      FirstPage(st.absent, i, rest);
      if i !in st.absent {
        TakePagesIs(st, i + 1, end);
      } else if st.free > 0 {
        TakePagesIs(Stock(st.absent - {i}, st.free - 1), i + 1, end);
      }
    } else {
      assert PageRange(i, end) == {} && st.absent * {} == {};
    }
  }

  lemma TakeBytesIs(st: Stock, lo: int, hi: int)
    ensures Taken(st, PagesOf(lo, hi), TakeBytes(st, lo, hi))
  {
    if lo < hi {
      TakePagesIs(st, lo / PAGE_SIZE, EndPage(hi));
    } else {
      assert st.absent * {} == {};
    }
  }

  lemma {:induction false} TakePagesSplit(st: Stock, i: int, mid: int, end: int)
    requires i <= mid <= end
    ensures var (s, ok) := TakePages(st, i, mid);
            TakePages(st, i, end) == if ok then TakePages(s, mid, end) else (s, false)
    decreases mid - i
  {
    if i < mid {
      if i !in st.absent {
        TakePagesSplit(st, i + 1, mid, end);
      } else if st.free > 0 {
        TakePagesSplit(Stock(st.absent - {i}, st.free - 1), i + 1, mid, end);
      }
    }
  }

  /** Bytes may be copied in two goes, even if a page is in both. */
  lemma TakeBytesSplit(st: Stock, lo: int, mid: int, hi: int)
    requires lo <= mid <= hi
    ensures var (s, ok) := TakeBytes(st, lo, mid);
            TakeBytes(st, lo, hi) == if ok then TakeBytes(s, mid, hi) else (s, false)
  {
    if lo < mid < hi {
      var first := EndPage(mid);
      TakePagesSplit(st, lo / PAGE_SIZE, first, EndPage(hi));
      var (s, ok) := TakeBytes(st, lo, mid);
      TakePagesIs(st, lo / PAGE_SIZE, first);
      if ok && mid / PAGE_SIZE < first {
        assert mid / PAGE_SIZE == first - 1;
        assert mid / PAGE_SIZE in PageRange(lo / PAGE_SIZE, first);
        assert mid / PAGE_SIZE !in s.absent;
      }
    }
  }

  lemma WithinOnePageEnds(lo: nat, n: nat)
    requires n > 0 && lo % PAGE_SIZE + n <= PAGE_SIZE
    ensures EndPage(lo + n) == lo / PAGE_SIZE + 1
  {
    WithinOnePage(lo, n - 1);
  }

  /** CopyFrom with the pages that the bytes need. */
  function CopyIn(a: seq<UserStr>, n: nat, p: int, st: Stock): (int, Stock)
    requires n <= |a|
  {
    if n == 0 then (p, st)
    else
      var q := RoomFor(a[n - 1], p);
      if q < 0 then (q, st)
      else
        var (s, ok) := TakeBytes(st, q, p);
        if ok then CopyIn(a, n - 1, q, s) else (-EFAULT, s)
  }

  function CopyStringsIn(a: seq<UserStr>, p: int, st: Stock): (int, Stock) {
    if p <= 0 then (p, st) else CopyIn(a, |a|, p, st)
  }

  /** Some of the strings, from the last one down, can be read and fit below p, but lie on more absent
      pages than are free. */
  ghost predicate OutOfPages(a: seq<UserStr>, p: int, st: Stock) {
    exists n :: 0 <= n < |a| && ShortAt(a, n, p, st)
  }

  ghost predicate ShortAt(a: seq<UserStr>, n: nat, p: int, st: Stock)
    requires n <= |a|
  {
    ShortText(a[n..], p, st)
  }

  ghost predicate ShortText(a: seq<UserStr>, p: int, st: Stock) {
    AllReadable(a) && ShortBy(p - |Text(a)|, p, st)
  }

  ghost predicate ShortBy(q: int, p: int, st: Stock) {
    q >= 0 && Shortage(q, p, st) > 0
  }

  /** By how many pages the stock falls short of what the bytes from q up to p need. */
  ghost function Shortage(q: int, p: int, st: Stock): int {
    |st.absent * PagesOf(q, p)| - st.free
  }

  /** Pages taken for the bytes above, then for those below: as many are short as for both together. */
  lemma SameShortage(absent: set<int>, lower: set<int>, upper: set<int>)
    ensures |absent * (lower + upper)| == |absent * upper| + |(absent - upper) * lower|
    ensures absent - (lower + upper) == absent - upper - lower
  {
    assert absent * (lower + upper) == absent * upper + (absent - upper) * lower;
  }

  lemma PagesJoin(lo: int, mid: int, hi: int)
    requires 0 <= lo <= mid <= hi
    ensures PagesOf(lo, hi) == PagesOf(lo, mid) + PagesOf(mid, hi)
  {
    if lo < mid < hi { NextAddress(mid - 1); }
  }

  lemma SuffixWithLast(a: seq<UserStr>, n: nat, k: nat)
    requires k < n <= |a|
    ensures a[..n][k..] == a[..n - 1][k..] + [a[n - 1]]
  {
  }

  lemma ShortBelow(st: Stock, s: Stock, r: int, q: int, p: int)
    requires r <= q <= p
    requires s.absent == st.absent - PagesOf(q, p) && s.free == st.free - |st.absent * PagesOf(q, p)|
    ensures ShortBy(r, p, st) == ShortBy(r, q, s)
  {
    if r >= 0 {
      PagesJoin(r, q, p);
      SameShortage(st.absent, PagesOf(r, q), PagesOf(q, p));
    }
  }

  lemma RoomIsWritten(u: UserStr, p: int)
    requires p >= 0 && RoomFor(u, p) >= 0
    ensures u.Str? && RoomFor(u, p) + |Written(u)| == p
  {
  }

  lemma ShortTextFrom(a: seq<UserStr>, r: int, p: int, st: Stock)
    requires r == p - |Text(a)|
    ensures ShortText(a, p, st) == (AllReadable(a) && ShortBy(r, p, st))
  {
  }

  /** Whether pages run out, one string at a time. */
  lemma ShortWithLast(rest: seq<UserStr>, u: UserStr, p: int, st: Stock, q: int, s: Stock)
    requires p >= 0 && q == RoomFor(u, p) >= 0
    requires s.absent == st.absent - PagesOf(q, p) && s.free == st.free - |st.absent * PagesOf(q, p)|
    ensures ShortText(rest + [u], p, st) == ShortText(rest, q, s)
  {
    var r := q - |Text(rest)|;
    RoomIsWritten(u, p);
    TextWithLast(rest, u);
    ShortTextFrom(rest + [u], r, p, st);
    ShortTextFrom(rest, r, q, s);
    ShortBelow(st, s, r, q, p);
  }

  lemma ShortStep(a: seq<UserStr>, n: nat, k: nat, p: int, st: Stock, q: int, s: Stock)
    requires k < n <= |a| && p >= 0 && q == RoomFor(a[n - 1], p) >= 0
    requires s.absent == st.absent - PagesOf(q, p) && s.free == st.free - |st.absent * PagesOf(q, p)|
    ensures ShortAt(a[..n], k, p, st) == ShortAt(a[..n - 1], k, q, s)
  {
    SuffixWithLast(a, n, k);
    ShortWithLast(a[..n - 1][k..], a[n - 1], p, st, q, s);
  }

  lemma NoneReadable(a: seq<UserStr>, n: nat, p: int, st: Stock)
    requires 0 < n <= |a| && p >= 0 && RoomFor(a[n - 1], p) < 0
    ensures !OutOfPages(a[..n], p, st)
  {
    forall k | 0 <= k < n
      ensures !ShortAt(a[..n], k, p, st)
    {
      SuffixWithLast(a, n, k);
      TextWithLast(a[..n - 1][k..], a[n - 1]);
    }
  }

  lemma LaterOnesShort(a: seq<UserStr>, n: nat, p: int, st: Stock, s: Stock)
    requires 0 < n <= |a| && p >= 0 && RoomFor(a[n - 1], p) >= 0
    requires TakeBytes(st, RoomFor(a[n - 1], p), p) == (s, true)
    ensures OutOfPages(a[..n], p, st) <==> OutOfPages(a[..n - 1], RoomFor(a[n - 1], p), s)
  {
    var q := RoomFor(a[n - 1], p);
    TakeBytesIs(st, q, p);
    LastAlone(a, n, p, st);
    if OutOfPages(a[..n], p, st) {
      var k: nat :| k < n && ShortAt(a[..n], k, p, st);
      assert k != n - 1;
      ShortStep(a, n, k, p, st, q, s);
      assert ShortAt(a[..n - 1], k, q, s);
    }
    if OutOfPages(a[..n - 1], q, s) {
      var k: nat :| k < n - 1 && ShortAt(a[..n - 1], k, q, s);
      ShortStep(a, n, k, p, st, q, s);
      assert ShortAt(a[..n], k, p, st);
    }
  }

  lemma OutOfPagesStep(a: seq<UserStr>, n: nat, p: int, st: Stock)
    requires 0 < n <= |a| && p >= 0
    ensures var q := RoomFor(a[n - 1], p);
            OutOfPages(a[..n], p, st) ==
              (q >= 0 && var (s, ok) := TakeBytes(st, q, p); !ok || OutOfPages(a[..n - 1], q, s))
  {
    var q := RoomFor(a[n - 1], p);
    if q < 0 {
      NoneReadable(a, n, p, st);
    } else {
      var (s, ok) := TakeBytes(st, q, p);
      if ok {
        LaterOnesShort(a, n, p, st, s);
      } else {
        TakeBytesIs(st, q, p);
        LastAlone(a, n, p, st);
      }
    }
  }

  lemma LastAlone(a: seq<UserStr>, n: nat, p: int, st: Stock)
    requires 0 < n <= |a| && RoomFor(a[n - 1], p) >= 0
    ensures ShortAt(a[..n], n - 1, p, st) <==> |st.absent * PagesOf(RoomFor(a[n - 1], p), p)| > st.free
  {
    SuffixWithLast(a, n, n - 1);
    TextWithLast(a[..n - 1][n - 1..], a[n - 1]);
    assert a[..n - 1][n - 1..] == [];
  }

  /** The same as the copying finds it out. */
  ghost predicate RunsOut(a: seq<UserStr>, n: nat, p: int, st: Stock)
    requires n <= |a|
  {
    && n > 0
    && var q := RoomFor(a[n - 1], p);
       q >= 0 && var (s, ok) := TakeBytes(st, q, p); !ok || RunsOut(a, n - 1, q, s)
  }

  lemma {:induction false} RunsOutIff(a: seq<UserStr>, n: nat, p: int, st: Stock)
    requires n <= |a| && p >= 0
    ensures RunsOut(a, n, p, st) == OutOfPages(a[..n], p, st)
  {
    if n > 0 {
      OutOfPagesStep(a, n, p, st);
      var q := RoomFor(a[n - 1], p);
      if q >= 0 {
        var (s, ok) := TakeBytes(st, q, p);
        if ok { RunsOutIff(a, n - 1, q, s); }
      }
    }
  }

  /** Pages are the only thing that stands between what copy_strings returns and CopyFrom, they are the
      reason exactly when they run out, and none is lost. */
  lemma {:induction false} CopyInIs(a: seq<UserStr>, n: nat, p: int, st: Stock)
    requires n <= |a| && p >= 0
    ensures CopyIn(a, n, p, st).0 == if RunsOut(a, n, p, st) then -EFAULT else CopyFrom(a, n, p)
    ensures SameTotal(st, CopyIn(a, n, p, st).1)
    ensures RunsOut(a, n, p, st) ==> CopyIn(a, n, p, st).1.free == 0
    ensures var (q, s) := CopyIn(a, n, p, st);
            q >= 0 ==> q <= p && s.absent == st.absent - PagesOf(q, p) && s.free == st.free - |st.absent * PagesOf(q, p)|
  {
    if n == 0 {
      assert st.absent * {} == {};
    } else {
      var q := RoomFor(a[n - 1], p);
      if q >= 0 {
        var (s, ok) := TakeBytes(st, q, p);
        TakeBytesIs(st, q, p);
        if ok {
          CopyInIs(a, n - 1, q, s);
          var r := CopyIn(a, n - 1, q, s).0;
          if r >= 0 {
            PagesJoin(r, q, p);
            SameShortage(st.absent, PagesOf(r, q), PagesOf(q, p));
          }
        }
      }
    }
  }

  lemma CopyOneIs(u: UserStr, p: int, st: Stock)
    requires p >= 0
    ensures CopyIn([u], 1, p, st).0 == if OutOfPages([u], p, st) then -EFAULT else RoomFor(u, p)
  {
    assert [u][..1] == [u] && CopyFrom([u], 1, p) == RoomFor(u, p);
    CopyInIs([u], 1, p, st);
    RunsOutIff([u], 1, p, st);
  }

  lemma CopyStringsInIs(a: seq<UserStr>, p: int, st: Stock)
    ensures var (q, s) := CopyStringsIn(a, p, st);
            && q == (if OutOfPages(a, p, st) then -EFAULT else CopyResult(a, p))
            && SameTotal(st, s) && (OutOfPages(a, p, st) ==> s.free == 0)
            && (q >= 0 && p >= 0 ==> q <= p && s.absent == st.absent - PagesOf(q, p) && s.free == st.free - |st.absent * PagesOf(q, p)|)
  {
    assert a[..|a|] == a;
    if p > 0 {
      CopyInIs(a, |a|, p, st);
      RunsOutIff(a, |a|, p, st);
    } else {
      NoneFits(a, p, st);
    }
  }

  /** copy_strings hands a p of zero straight back, and no string would fit. */
  lemma NoneFits(a: seq<UserStr>, p: int, st: Stock)
    requires p <= 0
    ensures !OutOfPages(a, p, st)
  {
    assert st.absent * {} == {};
    forall n | 0 <= n < |a|
      ensures !ShortAt(a, n, p, st)
    {
      if AllReadable(a[n..]) { assert |Written(a[n..][0])| > 0; }
    }
  }

  /** The three calls of do_execve with the pages that they need. */
  ghost function BuildIn(filename: seq<Byte>, envp: seq<UserStr>, argv: seq<UserStr>, st: Stock): (int, Stock) {
    var (p1, s1) := CopyStringsIn([Str(filename)], LIMIT - 4, st);
    var (p2, s2) := CopyStringsIn(envp, p1, s1);
    CopyStringsIn(argv, p2, s2)
  }

  /** One list after the other is the two as one. */
  lemma {:induction false} SamePrefixRunsOut(a: seq<UserStr>, c: seq<UserStr>, n: nat, p: int, st: Stock)
    requires n <= |a| && n <= |c| && forall i :: 0 <= i < n ==> c[i] == a[i]
    ensures RunsOut(c, n, p, st) == RunsOut(a, n, p, st)
  {
    if n > 0 {
      var q := RoomFor(a[n - 1], p);
      SamePrefixRunsOut(a, c, n - 1, q, TakeBytes(st, q, p).0);
    }
  }

  /** Pages run out in the last n strings of b, or else in those of a, which lie below. */
  lemma {:induction false} RunsOutBefore(a: seq<UserStr>, b: seq<UserStr>, n: nat, p: int, st: Stock)
    requires n <= |b| && p >= 0
    ensures RunsOut(a + b, |a| + n, p, st) ==
            (RunsOut(b, n, p, st) || var (q, s) := CopyIn(b, n, p, st); q >= 0 && RunsOut(a, |a|, q, s))
  {
    if n == 0 {
      SamePrefixRunsOut(a, a + b, |a|, p, st);
    } else {
      assert (a + b)[|a| + n - 1] == b[n - 1];
      var q := RoomFor(b[n - 1], p);
      if q >= 0 {
        var (s, ok) := TakeBytes(st, q, p);
        if ok { RunsOutBefore(a, b, n - 1, q, s); }
      }
    }
  }

  lemma OutOfPagesConcat(a: seq<UserStr>, b: seq<UserStr>, p: int, st: Stock)
    requires p > 0
    ensures OutOfPages(a + b, p, st) ==
            (OutOfPages(b, p, st) || var (q, s) := CopyStringsIn(b, p, st); q > 0 && OutOfPages(a, q, s))
  {
    assert a[..|a|] == a && b[..|b|] == b && (a + b)[..|a| + |b|] == a + b;
    RunsOutBefore(a, b, |b|, p, st);
    RunsOutIff(a + b, |a| + |b|, p, st);
    RunsOutIff(b, |b|, p, st);
    var (q, s) := CopyStringsIn(b, p, st);
    if q >= 0 { RunsOutIff(a, |a|, q, s); }
    if q == 0 { NoneFits(a, q, s); }
  }

  lemma BuildInIs(filename: seq<Byte>, envp: seq<UserStr>, argv: seq<UserStr>, st: Stock)
    ensures BuildIn(filename, envp, argv, st).0 ==
            if OutOfPages(argv + envp + [Str(filename)], LIMIT - 4, st) then -EFAULT
            else BuildResult(filename, envp, argv)
    ensures SameTotal(st, BuildIn(filename, envp, argv, st).1)
  {
    var (p1, s1) := CopyStringsIn([Str(filename)], LIMIT - 4, st);
    var (p2, s2) := CopyStringsIn(envp, p1, s1);
    CopyStringsInIs([Str(filename)], LIMIT - 4, st);
    CopyStringsInIs(envp, p1, s1);
    CopyStringsInIs(argv, p2, s2);
    OutOfPagesConcat(argv + envp, [Str(filename)], LIMIT - 4, st);
    if p1 > 0 { OutOfPagesConcat(argv, envp, p1, s1); } else { NoneFits(envp, p1, s1); }
    if p2 <= 0 { NoneFits(argv, p2, s2); }
  }

  lemma FewerIsSmaller(s: set<int>, t: set<int>)
    requires s <= t
    ensures |s| <= |t|
  {
    assert t == s + (t - s);
  }

  /** Thirty-two free pages are always enough. */
  lemma EnoughPages(a: seq<UserStr>, p: int, st: Stock)
    requires st.absent <= PageRange(0, MAX_ARG_PAGES) && st.free >= MAX_ARG_PAGES
    ensures !OutOfPages(a, p, st)
  {
    PageRangeSize(0, MAX_ARG_PAGES);
    forall n | 0 <= n < |a|
      ensures !ShortAt(a, n, p, st)
    {
      FewerIsSmaller(st.absent * PagesOf(p - |Text(a[n..])|, p), PageRange(0, MAX_ARG_PAGES));
    }
  }

  class Binprm {
    var page: array<array?<Byte>>
    var p: int
    var argc: nat
    var freePages: nat
    ghost var absent: set<int>  // the pages that have not been allocated

    ghost predicate Valid()
      reads this`page, this`absent, page
    {
      && page.Length == MAX_ARG_PAGES
      && (forall i {:trigger i in absent} :: i in absent <==> 0 <= i < page.Length && page[i] == null)
      && (forall i :: 0 <= i < page.Length && page[i] != null ==> page[i].Length == PAGE_SIZE)
      && (forall i, j :: 0 <= i < j < page.Length && page[i] != null ==> page[i] != page[j])
    }

    ghost function Supply(): Stock
      reads this`absent, this`freePages
    {
      Stock(absent, freePages)
    }

    ghost function Frames(): set<array<Byte>>
      reads this`page, page
    {
      set i | 0 <= i < page.Length && page[i] != null :: page[i]
    }

    /** Address i of the image holds b. */
    ghost predicate ByteIs(i: int, b: Byte)
      requires Valid()
      reads this`page, this`absent, page, Frames()
    {
      0 <= i < LIMIT && page[i / PAGE_SIZE] != null && page[i / PAGE_SIZE][i % PAGE_SIZE] == b
    }

    /** The bytes from address `at` upward. */
    ghost predicate Holds(at: int, bytes: seq<Byte>)
      requires Valid()
      reads this`page, this`absent, page, Frames()
    {
      forall k :: 0 <= k < |bytes| ==> ByteIs(at + k, bytes[k])
    }

    lemma HoldsJoins(at: int, low: seq<Byte>, high: seq<Byte>)
      requires Valid() && Holds(at, low) && Holds(at + |low|, high)
      ensures Holds(at, low + high)
    {
      forall k | 0 <= k < |low| + |high| ensures ByteIs(at + k, (low + high)[k]) {
        if k >= |low| { assert ByteIs(at + |low| + (k - |low|), high[k - |low|]); }
      }
    }

    lemma HoldsSplits(at: int, low: seq<Byte>, high: seq<Byte>)
      requires Valid() && Holds(at, low + high)
      ensures Holds(at, low) && Holds(at + |low|, high)
    {
      forall k | 0 <= k < |low| ensures ByteIs(at + k, low[k]) {
        assert ByteIs(at + k, (low + high)[k]);
      }
      forall k | 0 <= k < |high| ensures ByteIs(at + |low| + k, high[k]) {
        assert ByteIs(at + (|low| + k), (low + high)[|low| + k]);
      }
    }

    /** bprm.p starts one pointer below the top, with no page allocated. */
    constructor (argc: nat, freePages: nat)
      ensures Valid() && Frames() == {} && fresh(page)
      ensures p == LIMIT - 4 && this.argc == argc && this.freePages == freePages
      ensures absent == PageRange(0, MAX_ARG_PAGES)
    {
      page := new array?<Byte>[MAX_ARG_PAGES](_ => null);
      p := LIMIT - 4;
      this.argc, this.freePages := argc, freePages;
      absent := PageRange(0, MAX_ARG_PAGES);
      new;
      assert forall i :: 0 <= i < page.Length ==> page[i] == null;
    }

    /** copy_from_user into one page. */
    method CopyIntoPage(pag: array<Byte>, offset: nat, bytes: seq<Byte>)
      requires offset + |bytes| <= pag.Length
      modifies pag
      ensures forall i :: 0 <= i < pag.Length ==>
                pag[i] == if offset <= i < offset + |bytes| then bytes[i - offset] else old(pag[i])
    {
      var i := 0;
      while i < |bytes|
        invariant 0 <= i <= |bytes|
        invariant forall j :: 0 <= j < pag.Length ==>
                    pag[j] == if offset <= j < offset + i then bytes[j - offset] else old(pag[j])
      {
        pag[offset + i] := bytes[i];
        i := i + 1;
      }
    }

    /** The page that holds pos, allocated if this is the first byte in it. */
    method PageFor(pos: nat) returns (pag: array?<Byte>)
      requires Valid() && pos < LIMIT
      modifies this`freePages, this`absent, page
      ensures Valid() && fresh(Frames() - old(Frames()))
      ensures pag == null <==> old(page[pos / PAGE_SIZE]) == null && old(freePages) == 0
      ensures freePages == old(freePages) - if old(page[pos / PAGE_SIZE]) == null && pag != null then 1 else 0
      ensures (Supply(), pag != null) == TakePages(old(Supply()), pos / PAGE_SIZE, pos / PAGE_SIZE + 1)
      ensures pag != null ==> pag == page[pos / PAGE_SIZE]
      ensures forall i :: 0 <= i < page.Length && old(page[i]) != null ==> page[i] == old(page[i])
      ensures forall i :: 0 <= i < page.Length && i != pos / PAGE_SIZE ==> page[i] == old(page[i])
      ensures old(page[pos / PAGE_SIZE]) == null && pag != null ==> fresh(pag)
    {
      pag := page[pos / PAGE_SIZE];
      if pag == null {
        if freePages == 0 { return null; }
        pag := new Byte[PAGE_SIZE](_ => 0);
        freePages := freePages - 1;
        page[pos / PAGE_SIZE] := pag;
        absent := absent - {pos / PAGE_SIZE};
      }
    }

    /** One turn of the inner loop: the part of a string that lies in a single page. */
    method CopyChunk(pos: nat, chunk: seq<Byte>) returns (ok: bool)
      requires Valid() && pos < LIMIT && pos % PAGE_SIZE + |chunk| <= PAGE_SIZE && chunk != []
      modifies this`freePages, this`absent, page, Frames()
      ensures Valid() && fresh(Frames() - old(Frames()))
      ensures (Supply(), ok) == TakeBytes(old(Supply()), pos, pos + |chunk|)
      ensures ok ==> Holds(pos, chunk)
      ensures forall i: int, b: Byte :: old(ByteIs(i, b)) && !(pos <= i < pos + |chunk|) ==> ByteIs(i, b)
    {
      WithinOnePageEnds(pos, |chunk|);
      var pag := PageFor(pos);
      if pag == null { return false; }
      CopyIntoPage(pag, pos % PAGE_SIZE, chunk);
      ok := true;
      forall k | 0 <= k < |chunk| ensures ByteIs(pos + k, chunk[k]) {
        WithinOnePage(pos, k);
      }
      forall i: int, b: Byte | old(ByteIs(i, b)) && !(pos <= i < pos + |chunk|) ensures ByteIs(i, b) {
        if i / PAGE_SIZE == pos / PAGE_SIZE {
          OutsideTheChunk(pos, |chunk|, i);
        }
      }
    }

    /** One chunk copied right above what is held from `at` on. */
    method CopyAbove(ghost at: nat, ghost held: seq<Byte>, pos: nat, chunk: seq<Byte>) returns (ok: bool)
      requires Valid() && pos < LIMIT && pos % PAGE_SIZE + |chunk| <= PAGE_SIZE && chunk != []
      requires pos == at + |held| && Holds(at, held)
      modifies this`freePages, this`absent, page, Frames()
      ensures Valid() && fresh(Frames() - old(Frames()))
      ensures (Supply(), ok) == TakeBytes(old(Supply()), pos, pos + |chunk|)
      ensures ok ==> Holds(at, held + chunk)
      ensures forall i: int, b: Byte :: old(ByteIs(i, b)) && !(pos <= i < pos + |chunk|) ==> ByteIs(i, b)
    {
      ok := CopyChunk(pos, chunk);
      assert forall k :: 0 <= k < |held| ==> old(ByteIs(at + k, held[k]));
      if ok { HoldsJoins(at, held, chunk); }
    }

    /** One turn of the inner loop: as much of the string as goes into the page that pos lies in. */
    method CopyPart(ghost at: nat, str: seq<Byte>, done: nat, pos: nat, len: nat) returns (ok: bool, bytesToCopy: nat)
      requires Valid() && at + |str| <= LIMIT && done < |str| && len == |str| - done && pos == at + done
      requires Holds(at, str[..done])
      modifies this`freePages, this`absent, page, Frames()
      ensures Valid() && fresh(Frames() - old(Frames())) && 0 < bytesToCopy <= len
      ensures (Supply(), ok) == TakeBytes(old(Supply()), pos, pos + bytesToCopy)
      ensures ok ==> Holds(at, str[..done + bytesToCopy])
      ensures forall i: int, b: Byte :: old(ByteIs(i, b)) && !(pos <= i < pos + bytesToCopy) ==> ByteIs(i, b)
    {
      var offset := pos % PAGE_SIZE;
      bytesToCopy := PAGE_SIZE - offset;
      if bytesToCopy > len { bytesToCopy := len; }
      ok := CopyAbove(at, str[..done], pos, str[done..done + bytesToCopy]);
      assert str[..done + bytesToCopy] == str[..done] + str[done..done + bytesToCopy];
    }

    /** The inner loop of copy_strings: the bytes of one string, page by page. */
    method CopyBytes(at: nat, str: seq<Byte>) returns (ok: bool)
      requires Valid() && at + |str| <= LIMIT
      modifies this`freePages, this`absent, page, Frames()
      ensures Valid() && fresh(Frames() - old(Frames()))
      ensures (Supply(), ok) == TakeBytes(old(Supply()), at, at + |str|)
      ensures ok ==> Holds(at, str)
      ensures forall i: int, b: Byte :: old(ByteIs(i, b)) && !(at <= i < at + |str|) ==> ByteIs(i, b)
    {
      ghost var st := Supply();
      var done, pos, len := 0, at, |str|;
      while len > 0
        invariant Valid() && fresh(Frames() - old(Frames()))
        invariant 0 <= done <= |str| && len == |str| - done && pos == at + done
        invariant TakeBytes(st, at, pos) == (Supply(), true)
        invariant Holds(at, str[..done])
        invariant forall i: int, b: Byte :: old(ByteIs(i, b)) && !(at <= i < at + done) ==> ByteIs(i, b)
      {
        var bytesToCopy;
        ok, bytesToCopy := CopyPart(at, str, done, pos, len);
        TakeBytesSplit(st, at, pos, pos + bytesToCopy);
        if !ok {
          TakeBytesSplit(st, at, pos + bytesToCopy, at + |str|);
          return;
        }
        done, pos, len := done + bytesToCopy, pos + bytesToCopy, len - bytesToCopy;
      }
      assert str[..done] == str;
      ok := true;
    }

    /** One turn of the outer loop: a string copied right below what is held at q0. */
    method CopyString(str: UserStr, q0: int, ghost held: seq<Byte>) returns (q: int)
      requires Valid() && 0 <= q0 <= LIMIT && Holds(q0, held)
      modifies this`freePages, this`absent, page, Frames()
      ensures Valid() && fresh(Frames() - old(Frames()))
      ensures (q, Supply()) == CopyIn([str], 1, q0, old(Supply()))
      ensures q == if OutOfPages([str], q0, old(Supply())) then -EFAULT else RoomFor(str, q0)
      ensures q >= 0 ==> q + |Written(str)| == q0 && Holds(q, Written(str) + held)
      ensures forall i: int, b: Byte :: old(ByteIs(i, b)) && q0 <= i ==> ByteIs(i, b)
    {
      CopyOneIs(str, q0, Supply());
      if str.NullPtr? { return -EFAULT; }
      var len := StrnlenUser(str, q0);
      if len == 0 || len > q0 { return if len != 0 then -E2BIG else -EFAULT; }
      q := q0 - len;
      var ok := CopyBytes(q, str.s + [0]);
      if !ok { return -EFAULT; }
      assert forall k :: 0 <= k < |held| ==> old(ByteIs(q0 + k, held[k]));
      HoldsJoins(q, str.s + [0], held);
    }

    /** copy_strings: below q0, from the last string down to the first. What lies at q0 and above is
        not touched, so the strings end up right below it. Pages are the reason for a failure exactly
        when the strings that fit lie on more absent pages than were free; none gets lost. */
    method CopyStrings(argv: seq<UserStr>, q0: int, ghost above: seq<Byte>) returns (q: int)
      requires Valid() && q0 <= LIMIT && (q0 >= 0 ==> Holds(q0, above))
      modifies this`freePages, this`absent, page, Frames()
      ensures Valid() && fresh(Frames() - old(Frames()))
      ensures q == if OutOfPages(argv, q0, old(Supply())) then -EFAULT else CopyResult(argv, q0)
      ensures (q, Supply()) == CopyStringsIn(argv, q0, old(Supply())) && SameTotal(old(Supply()), Supply())
      ensures 0 < q0 && 0 <= q ==> q + |TextOver(argv, above)| == q0 + |above| && Holds(q, TextOver(argv, above))
      ensures q0 <= 0 ==> q == q0 && (q0 == 0 ==> Holds(q, above))
      ensures forall i: int, b: Byte :: old(ByteIs(i, b)) && q0 <= i ==> ByteIs(i, b)
    {
      ghost var st := Supply();
      CopyStringsInIs(argv, q0, st);
      q := q0;
      if q <= 0 { return; }
      var n := |argv|;
      assert argv[n..] == [];
      while n > 0
        invariant Valid() && fresh(Frames() - old(Frames()))
        invariant 0 <= n <= |argv| && 0 <= q <= q0
        invariant CopyStringsIn(argv, q0, st) == CopyIn(argv, n, q, Supply())
        invariant q + |TextOver(argv[n..], above)| == q0 + |above| && Holds(q, TextOver(argv[n..], above))
        invariant forall i: int, b: Byte :: old(ByteIs(i, b)) && q0 <= i ==> ByteIs(i, b)
      {
        n := n - 1;
        TextOverLonger(argv, n, above);
        q := CopyString(argv[n], q, TextOver(argv[n + 1..], above));
        if q < 0 { return; }
      }
      assert argv[0..] == argv;
    }

    method CopyAll(filename: seq<Byte>, envp: seq<UserStr>, argv: seq<UserStr>)
      requires Valid() && p == LIMIT - 4
      modifies this`p, this`freePages, this`absent, page, Frames()
      ensures Valid()
      ensures (p, Supply()) == BuildIn(filename, envp, argv, old(Supply()))
      ensures p > 0 ==> p + |Image(filename, envp, argv)| == LIMIT - 4
      ensures p >= 0 && |Image(filename, envp, argv)| <= LIMIT - 4 ==> Holds(p, Image(filename, envp, argv))
    {
      ghost var name := filename + [0];
      TextOverOne(filename);
      p := CopyStrings([Str(filename)], p, []);
      p := CopyStrings(envp, p, name);
      ghost var above := if |name| == LIMIT - 4 then name else TextOver(envp, name);
      p := CopyStrings(argv, p, above);
      if |Image(filename, envp, argv)| <= LIMIT - 4 {
        TextOverGrows(argv, TextOver(envp, name));
        TextOverGrows(envp, name);
        if |name| == LIMIT - 4 { NothingWritten(envp, name); }
        if |TextOver(envp, name)| == LIMIT - 4 { NothingWritten(argv, TextOver(envp, name)); }
      }
    }

    /** The three calls of do_execve, and its test. */
    method BuildImage(filename: seq<Byte>, envp: seq<UserStr>, argv: seq<UserStr>) returns (retval: int)
      requires Valid() && p == LIMIT - 4
      modifies this`p, this`freePages, this`absent, page, Frames()
      ensures Valid()
      ensures p == if OutOfPages(argv + envp + [Str(filename)], LIMIT - 4, old(Supply())) then -EFAULT
                   else BuildResult(filename, envp, argv)
      ensures SameTotal(old(Supply()), Supply())
      ensures old(freePages) >= MAX_ARG_PAGES ==> p == BuildResult(filename, envp, argv)
      ensures retval == if p < 0 then p else 0
      ensures p > 0 ==> p + |Image(filename, envp, argv)| == LIMIT - 4
      ensures p >= 0 && |Image(filename, envp, argv)| <= LIMIT - 4 ==> Holds(p, Image(filename, envp, argv))
    {
      BuildInIs(filename, envp, argv, Supply());
      if freePages >= MAX_ARG_PAGES { EnoughPages(argv + envp + [Str(filename)], LIMIT - 4, Supply()); }
      CopyAll(filename, envp, argv);
      retval := if p < 0 then p else 0;
    }

    /** The scan of remove_arg_zero: past one NUL, into the next page wherever a page ends first. */
    method SkipString(ghost s: seq<Byte>, ghost after: seq<Byte>)
      requires Valid() && NulFree(s) && Holds(p, (s + [0]) + after)
      modifies this`p
      ensures p == old(p) + |s + [0]| && Holds(p, after)
    {
      HoldsSplits(p, s + [0], after);
      ghost var at, k := p, 0;
      assert ByteIs(at + 0, (s + [0])[0]);
      var offset := p % PAGE_SIZE;
      var pag := page[p / PAGE_SIZE];
      while true
        invariant 0 <= k <= |s| && p == at + k && ByteIs(p, (s + [0])[k])
        invariant offset == p % PAGE_SIZE && pag == page[p / PAGE_SIZE]
        decreases |s| - k
      {
        var c := pag[offset];
        p := p + 1;
        offset := offset + 1;
        if c == 0 { break; }
        NextAddress(at + k);
        k := k + 1;
        assert ByteIs(at + k, (s + [0])[k]);
        if offset == PAGE_SIZE {
          offset := 0;
          pag := page[p / PAGE_SIZE];
        }
      }
    }

    /** remove_arg_zero: p moves past the first string and its NUL, wherever the pages break, and
        what lies above is the image of the remaining strings. */
    method RemoveArgZero(ghost argv: seq<UserStr>, ghost above: seq<Byte>)
      requires Valid() && argc == |argv|
      requires AllReadable(argv) && CStrings(argv) && Holds(p, TextOver(argv, above))
      modifies this`p, this`argc
      ensures argv == [] ==> p == old(p) && argc == 0
      ensures argv != [] ==> argc == |argv[1..]| && p == old(p) + |argv[0].s| + 1
      ensures argv != [] ==> Holds(p, TextOver(argv[1..], above))
    {
      if argc > 0 {
        SkipString(argv[0].s, TextOver(argv[1..], above));
        argc := argc - 1;
      }
    }
  }
}
