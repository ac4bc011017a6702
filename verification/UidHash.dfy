/** The hash of user structures: buckets of intrusive lists whose back link `pprev` is the address of
    the pointer that points at the entry, be it a bucket or the `next` field of the one before. */
module UidHash {
  import opened Lists

  // PIDHASH_SZ >> 2 with the NR_TASKS of Linux 2.2
  const UIDHASH_SZ := 32

  type Uid = u: nat | u < 0x1_0000

  /** The exclusive or of the low n bits. */
  function Xor(a: nat, b: nat, n: nat): (x: nat)
    ensures x < Power(n)
  {
    if n == 0 then 0 else (a + b) % 2 + 2 * Xor(a / 2, b / 2, n - 1)
  }

  function Power(n: nat): (p: nat)
    ensures p >= 1
  {
    if n == 0 then 1 else 2 * Power(n - 1)
  }

  /** uidhashfn: the low five bits of the uid and of its high byte. */
  function HashOf(uid: Uid): (b: nat)
    ensures b < UIDHASH_SZ
  {
    assert Power(5) == UIDHASH_SZ;
    Xor(uid / 256, uid, 5)
  }

  /** The low n bits. */
  function Low(b: nat, n: nat): nat {
    if n == 0 then 0 else b % 2 + 2 * Low(b / 2, n - 1)
  }

  lemma LowFive(b: nat)
    ensures Low(b, 5) == b % 32
  {
    var b1 := b / 2;
    var b2 := b1 / 2;
    var b3 := b2 / 2;
    var b4 := b3 / 2;
    FiveBits(b, b1, b2, b3, b4, b4 / 2);
  }

  lemma FiveBits(b: nat, b1: nat, b2: nat, b3: nat, b4: nat, b5: nat)
    requires b1 == b / 2 && b2 == b1 / 2 && b3 == b2 / 2 && b4 == b3 / 2 && b5 == b4 / 2
    ensures Low(b, 5) == b % 32
  {
    assert Low(b4, 1) == b4 - 2 * b5;
    assert Low(b3, 2) == b3 - 4 * b5;
    assert Low(b2, 3) == b2 - 8 * b5;
    assert Low(b1, 4) == b1 - 16 * b5;
    assert Low(b, 5) == b - 32 * b5;
  }

  /** Taken twice it cancels out. */
  lemma {:induction false} XorTwice(a: nat, b: nat, n: nat)
    ensures Xor(a, Xor(a, b, n), n) == Low(b, n)
  {
    if n > 0 {
      XorTwice(a / 2, b / 2, n - 1);
      LowBit(a, b, Xor(a / 2, b / 2, n - 1));
    }
  }

  lemma LowBit(a: nat, b: nat, x: nat)
    ensures ((a + b) % 2 + 2 * x) / 2 == x && (a + ((a + b) % 2 + 2 * x)) % 2 == b % 2
  {
  }

  lemma SameBit(b: nat, c: nat, x: nat, y: nat)
    requires b % 2 + 2 * x == c % 2 + 2 * y
    ensures b % 2 == c % 2 && x == y
  {
  }

  lemma {:induction false} SameLowBits(a: nat, b: nat, c: nat, n: nat)
    requires Low(b, n) == Low(c, n)
    ensures Xor(a, b, n) == Xor(a, c, n)
  {
    if n > 0 {
      SameBit(b, c, Low(b / 2, n - 1), Low(c / 2, n - 1));
      SameLowBits(a / 2, b / 2, c / 2, n - 1);
      SameParity(a, b, c);
    }
  }

  lemma SameParity(a: nat, b: nat, c: nat)
    requires b % 2 == c % 2
    ensures (a + b) % 2 == (a + c) % 2
  {
  }

  /** Uids with the same high byte share a bucket exactly when they agree modulo 32. */
  lemma SameBucketIff(uid: Uid, uid': Uid)
    requires uid / 256 == uid' / 256
    ensures HashOf(uid) == HashOf(uid') <==> uid % 32 == uid' % 32
  {
    LowFive(uid);
    LowFive(uid');
    XorTwice(uid / 256, uid, 5);
    XorTwice(uid / 256, uid', 5);
    if uid % 32 == uid' % 32 { SameLowBits(uid / 256, uid, uid', 5); }
  }

  lemma {:induction false} XorWithZero(b: nat, n: nat)
    ensures Xor(0, b, n) == Low(b, n)
  {
    if n > 0 { XorWithZero(b / 2, n - 1); }
  }

  /** Below 256 the bucket is the uid modulo 32. */
  lemma SmallUids(uid: Uid)
    requires uid < 256
    ensures HashOf(uid) == uid % 32
  {
    assert uid / 256 == 0;
    XorWithZero(uid, 5);
    LowFive(uid);
  }

  /** A uid with two equal bytes is in the first bucket. */
  lemma EqualBytes(uid: Uid)
    requires uid < 256
    ensures HashOf(257 * uid) == 0
  {
    var twice := 257 * uid;
    assert twice / 256 == uid && twice % 32 == uid % 32;
    LowFive(twice);
    LowFive(uid);
    SameLowBits(uid, twice, uid, 5);
    XorWithItself(uid, 5);
  }

  lemma {:induction false} XorWithItself(a: nat, n: nat)
    ensures Xor(a, a, n) == 0
  {
    if n > 0 { XorWithItself(a / 2, n - 1); }
  }

  // ----- what the operations do to the counts -----

  /** One more reference to a uid, known before or not. */
  function OneMore(c: map<Uid, int>, uid: Uid): map<Uid, int> {
    c[uid := if uid in c then c[uid] + 1 else 1]
  }

  /** One reference less; a uid without references has no structure. */
  function OneLess(c: map<Uid, int>, uid: Uid): map<Uid, int>
    requires uid in c
  {
    if c[uid] == 1 then c - {uid} else c[uid := c[uid] - 1]
  }

  /** The value of a `struct user_struct **`. */
  datatype Slot = Bucket(b: nat) | NextOf(before: UserStruct)

  class UserStruct {
    var count: int
    var next: UserStruct?
    var pprev: Slot
    var uid: Uid

    /** kmem_cache_alloc, then uid and count are set; the links are set on insertion. */
    constructor (u: Uid)
      ensures uid == u && count == 1
    {
      uid, count, next, pprev := u, 1, null, Bucket(0);
    }
  }

  ghost function Nth(l: seq<UserStruct>, i: int): UserStruct? {
    if 0 <= i < |l| then l[i] else null
  }

  ghost function Back(b: nat, l: seq<UserStruct>, i: nat): Slot
    requires i < |l|
  {
    if i == 0 then Bucket(b) else NextOf(l[i - 1])
  }

  /** One bucket: forward links, back links, and every entry hashed here. */
  ghost predicate Chain(b: nat, l: seq<UserStruct>)
    reads l
  {
    && (forall i {:trigger l[i].next} :: 0 <= i < |l| ==> l[i].next == Nth(l, i + 1))
    && (forall i {:trigger l[i].pprev} :: 0 <= i < |l| ==> l[i].pprev == Back(b, l, i))
    && (forall i {:trigger l[i].uid} :: 0 <= i < |l| ==> HashOf(l[i].uid) == b)
  }

  lemma ChainAfterPush(b: nat, l: seq<UserStruct>, up: UserStruct)
    requires HashOf(up.uid) == b && up.next == Nth(l, 0) && up.pprev == Bucket(b)
    requires forall i {:trigger l[i].next} :: 0 <= i < |l| ==> l[i].next == Nth(l, i + 1)
    requires forall i {:trigger l[i].pprev} :: 0 <= i < |l| ==> l[i].pprev == if i == 0 then NextOf(up) else Back(b, l, i)
    requires forall i {:trigger l[i].uid} :: 0 <= i < |l| ==> HashOf(l[i].uid) == b
    ensures Chain(b, [up] + l)
  {
    var m := [up] + l;
    forall i | 0 <= i < |m|
      ensures m[i].next == Nth(m, i + 1) && m[i].pprev == Back(b, m, i) && HashOf(m[i].uid) == b
    {
      if i > 0 { assert m[i] == l[i - 1]; }
    }
  }

  lemma ChainAfterUnlink(b: nat, l: seq<UserStruct>, j: nat)
    requires j < |l|
    requires forall i {:trigger l[i].next} :: 0 <= i < |l| && i != j ==>
               l[i].next == (if i == j - 1 then Nth(l, j + 1) else Nth(l, i + 1))
    requires forall i {:trigger l[i].pprev} :: 0 <= i < |l| && i != j ==>
               l[i].pprev == (if i == j + 1 then Back(b, l, j) else Back(b, l, i))
    requires forall i {:trigger l[i].uid} :: 0 <= i < |l| ==> HashOf(l[i].uid) == b
    ensures Chain(b, Without(l, j))
  {
    var m := Without(l, j);
    forall i | 0 <= i < |m|
      ensures m[i].next == Nth(m, i + 1) && m[i].pprev == Back(b, m, i) && HashOf(m[i].uid) == b
    {
      assert m[i] == l[if i < j then i else i + 1];
    }
  }

  /** One bucket and the list that hangs off it. */
  ghost predicate BucketOk(first: UserStruct?, b: nat, l: seq<UserStruct>, repr: set<UserStruct>)
    reads l
  {
    first == Nth(l, 0) && Chain(b, l) && Distinct(l) && forall u {:trigger u in repr} :: u in l ==> u in repr
  }

  ghost predicate EntryOk(users: map<Uid, UserStruct>, repr: set<UserStruct>, u: UserStruct)
    reads u
  {
    u in repr && u.uid in users && users[u.uid] == u
  }

  ghost predicate UserOk(lists: seq<seq<UserStruct>>, repr: set<UserStruct>, uid: Uid, u: UserStruct)
    reads u
  {
    u in repr && u.uid == uid && u.count >= 1 && HashOf(uid) < |lists| && u in lists[HashOf(uid)]
  }

  ghost predicate Indexed(lists: seq<seq<UserStruct>>, users: map<Uid, UserStruct>, repr: set<UserStruct>)
    reads repr
  {
    && (forall b, i {:trigger EntryOk(users, repr, lists[b][i])} :: 0 <= b < |lists| && 0 <= i < |lists[b]| ==>
          lists[b][i] in repr && EntryOk(users, repr, lists[b][i]))
    && (forall uid {:trigger UserOk(lists, repr, uid, users[uid])} :: uid in users ==>
          users[uid] in repr && UserOk(lists, repr, uid, users[uid]))
  }

  class Table {
    var buckets: array<UserStruct?>
    ghost var lists: seq<seq<UserStruct>>
    ghost var users: map<Uid, UserStruct>
    ghost var repr: set<UserStruct>

    /** Every entry of every bucket is the one structure of its uid, and conversely. */
    ghost predicate Valid()
      reads this, buckets, repr
    {
      && buckets.Length == |lists| == UIDHASH_SZ
      && Indexed(lists, users, repr)
      && (forall b {:trigger buckets[b]} :: 0 <= b < |lists| ==>
            (forall u :: u in lists[b] ==> u in repr) && BucketOk(buckets[b], b, lists[b], repr))
    }

    /** How many references each user structure counts. */
    ghost function Counts(): (m: map<Uid, int>)
      requires Valid()
      reads this, buckets, repr
      ensures m.Keys == users.Keys
      ensures forall uid {:trigger users[uid]} :: uid in users ==> users[uid] in repr
      ensures forall uid :: uid in users ==> m[uid] == users[uid].count
    {
      UsersInRepr();
      map uid | uid in users :: users[uid].count
    }

    lemma UsersInRepr()
      requires Valid()
      ensures forall uid {:trigger users[uid]} :: uid in users ==> users[uid] in repr && users[uid].count >= 1
    {
      forall uid | uid in users
        ensures users[uid] in repr && users[uid].count >= 1
      {
        assert UserOk(lists, repr, uid, users[uid]);
      }
    }

    /** uidcache_init */
    constructor ()
      ensures Valid() && Counts() == map[] && fresh(buckets)
    {
      buckets := new UserStruct?[UIDHASH_SZ](_ => null);
      lists := seq(UIDHASH_SZ, _ => []);
      users, repr := map[], {};
    }

    /** uid_hash_find: the structure of the uid with one more reference, or NULL. */
    method Find(uid: Uid, hashent: nat) returns (up: UserStruct?)
      requires Valid() && hashent == HashOf(uid)
      modifies repr`count
      ensures Valid() && users == old(users) && lists == old(lists) && repr == old(repr)
      ensures up == if uid in users then users[uid] else null
      ensures Counts() == if uid in users then OneMore(old(Counts()), uid) else old(Counts())
    {
      up := Search(uid, hashent);
      if up != null {
        assert UserOk(lists, repr, uid, users[uid]);
        CountUp(up);
      }
    }

    method Search(uid: Uid, hashent: nat) returns (up: UserStruct?)
      requires Valid() && hashent == HashOf(uid)
      ensures up == if uid in users then users[uid] else null
    {
      ghost var l, i := lists[hashent], 0;
      up := buckets[hashent];
      while up != null && up.uid != uid
        invariant 0 <= i <= |l| && up == Nth(l, i)
        invariant forall j :: 0 <= j < i ==> l[j].uid != uid
        decreases |l| - i
      {
        up := up.next;
        i := i + 1;
      }
      if up != null {
        assert EntryOk(users, repr, lists[hashent][i]);
      } else {
        NotThere(uid);
      }
    }

    lemma NotThere(uid: Uid)
      requires Valid()
      requires forall j :: 0 <= j < |lists[HashOf(uid)]| ==> lists[HashOf(uid)][j].uid != uid
      ensures uid !in users
    {
      assert uid in users ==> UserOk(lists, repr, uid, users[uid]);
    }

    /** atomic_inc */
    method CountUp(up: UserStruct)
      requires Valid() && up.uid in users && users[up.uid] == up
      modifies up`count
      ensures Valid() && up.count == old(up.count) + 1
      ensures Counts() == OneMore(old(Counts()), up.uid)
    {
      UsersInRepr();
      up.count := up.count + 1;
      OneCountChanged(up);
    }

    /** Chains say nothing about counts. */
    twostate lemma CountsDoNotMatter()
      requires old(Valid()) && lists == old(lists) && users == old(users) && repr == old(repr) && buckets == old(buckets)
      requires buckets[..] == old(buckets[..])
      requires forall u {:trigger u in repr} :: u in repr ==>
                 u.next == old(u.next) && u.pprev == old(u.pprev) && u.uid == old(u.uid)
      ensures forall b {:trigger buckets[b]} :: 0 <= b < |lists| ==>
                (forall u :: u in lists[b] ==> u in repr) && BucketOk(buckets[b], b, lists[b], repr)
    {
      forall b | 0 <= b < |lists|
        ensures (forall u :: u in lists[b] ==> u in repr) && BucketOk(buckets[b], b, lists[b], repr)
      {
        assert old(BucketOk(buckets[b], b, lists[b], repr));
        assert forall i :: 0 <= i < |lists[b]| ==> lists[b][i] in repr;
        assert buckets[..][b] == buckets[b];
      }
    }

    /** A count of one or more may be written: nothing else of the table depends on it. */
    twostate lemma OneCountChanged(up: UserStruct)
      requires old(Valid()) && lists == old(lists) && users == old(users) && repr == old(repr) && buckets == old(buckets)
      requires buckets[..] == old(buckets[..])
      requires up.uid in users && users[up.uid] == up && up.count >= 1
      requires forall u {:trigger u in repr} :: u in repr ==>
                 && u.next == old(u.next) && u.pprev == old(u.pprev) && u.uid == old(u.uid)
                 && (u != up ==> u.count == old(u.count))
      ensures Valid() && Counts() == old(Counts())[up.uid := up.count]
    {
      CountsDoNotMatter();
      forall uid | uid in users
        ensures users[uid] in repr && UserOk(lists, repr, uid, users[uid])
        ensures users[uid].count == if uid == up.uid then up.count else old(users[uid].count)
      {
        assert old(UserOk(lists, repr, uid, users[uid]));
      }
      forall b, i | 0 <= b < |lists| && 0 <= i < |lists[b]|
        ensures lists[b][i] in repr && EntryOk(users, repr, lists[b][i])
      {
        assert old(EntryOk(users, repr, lists[b][i]));
      }
      assert Indexed(lists, users, repr);
    }

    /** Writes to one bucket and the links of its entries leave the other buckets alone. */
    twostate lemma OtherBucketsStay(b: nat)
      requires old(Valid()) && b < |lists|
      requires lists == old(lists) && users == old(users) && repr == old(repr) && buckets == old(buckets)
      requires forall c {:trigger buckets[c]} :: 0 <= c < buckets.Length && c != b ==> buckets[c] == old(buckets[c])
      requires forall u {:trigger u in repr} :: u in repr ==>
                 u.uid == old(u.uid) && (HashOf(u.uid) != b ==> u.next == old(u.next) && u.pprev == old(u.pprev))
      ensures forall c {:trigger buckets[c]} :: 0 <= c < |lists| && c != b ==> BucketOk(buckets[c], c, lists[c], repr)
    {
      forall c | 0 <= c < |lists| && c != b
        ensures BucketOk(buckets[c], c, lists[c], repr)
      {
        assert old(BucketOk(buckets[c], c, lists[c], repr));
        forall i | 0 <= i < |lists[c]|
          ensures lists[c][i] in repr && HashOf(lists[c][i].uid) == c
        {
          assert old(HashOf(lists[c][i].uid)) == c;
        }
        assert buckets[c] == old(buckets[c]);
      }
    }

    lemma BucketHoldsItsOwn(b: nat)
      requires Valid() && b < |lists|
      ensures BucketOk(buckets[b], b, lists[b], repr)
      ensures forall u :: u in lists[b] ==> u in repr && HashOf(u.uid) == b && u.uid in users && users[u.uid] == u
    {
      assert BucketOk(buckets[b], b, lists[b], repr);
      forall u | u in lists[b]
        ensures u in repr && HashOf(u.uid) == b && u.uid in users && users[u.uid] == u
      {
        var i :| 0 <= i < |lists[b]| && lists[b][i] == u;
        assert EntryOk(users, repr, lists[b][i]);
        assert HashOf(lists[b][i].uid) == b;
      }
    }

    /** The pointer writes of uid_hash_insert. */
    method Push(b: nat, up: UserStruct, ghost l: seq<UserStruct>)
      requires b < buckets.Length && buckets[b] == Nth(l, 0) && Chain(b, l) && Distinct(l)
      requires up !in l && HashOf(up.uid) == b
      modifies buckets, up`next, up`pprev, (set u | u in l)`pprev
      ensures buckets[b] == up && Chain(b, [up] + l)
      ensures forall c :: 0 <= c < buckets.Length && c != b ==> buckets[c] == old(buckets[c])
    {
      up.next := buckets[b];
      if up.next != null { buckets[b].pprev := NextOf(up); }
      up.pprev := Bucket(b);
      buckets[b] := up;
      ChainAfterPush(b, l, up);
    }

    /** The writes of uid_hash_insert, seen from the whole table. */
    method PushUser(up: UserStruct, b: nat)
      requires Valid() && b == HashOf(up.uid) && up !in repr
      modifies buckets, up`next, up`pprev, repr`pprev
      ensures Indexed(lists, users, repr)
      ensures Distinct(lists[b]) && forall u :: u in lists[b] ==> u in repr
      ensures buckets[b] == up && Chain(b, [up] + lists[b])
      ensures forall c {:trigger buckets[c]} :: 0 <= c < |lists| && c != b ==> BucketOk(buckets[c], c, lists[c], repr)
    {
      BucketHoldsItsOwn(b);
      Push(b, up, lists[b]);
      OtherBucketsStay(b);
      IndexStays();
    }

    /** uid_hash_insert */
    method Insert(up: UserStruct, hashent: nat)
      requires Valid() && hashent == HashOf(up.uid) && up !in repr && up.uid !in users && up.count == 1
      modifies this`lists, this`users, this`repr, buckets, up, repr`pprev
      ensures Valid() && buckets == old(buckets) && users == old(users)[up.uid := up] && repr == old(repr) + {up}
      ensures up.uid == old(up.uid) && Counts() == OneMore(old(Counts()), up.uid)
    {
      ghost var lists0, users0, repr0 := lists, users, repr;
      UsersInRepr();
      PushUser(up, hashent);
      lists := lists[hashent := [up] + lists[hashent]];
      users := users[up.uid := up];
      repr := repr + {up};
      InsertedValid(lists0, users0, repr0, hashent, up);
    }

    lemma InsertedValid(lists0: seq<seq<UserStruct>>, users0: map<Uid, UserStruct>, repr0: set<UserStruct>,
                        b: nat, up: UserStruct)
      requires buckets.Length == |lists0| == UIDHASH_SZ && Indexed(lists0, users0, repr0)
      requires up !in repr0 && up.uid !in users0 && up.count == 1 && b == HashOf(up.uid)
      requires lists == lists0[b := [up] + lists0[b]] && users == users0[up.uid := up] && repr == repr0 + {up}
      requires Distinct(lists0[b]) && forall u :: u in lists0[b] ==> u in repr0
      requires buckets[b] == up && Chain(b, [up] + lists0[b])
      requires forall c {:trigger buckets[c]} :: 0 <= c < |lists0| && c != b ==> BucketOk(buckets[c], c, lists0[c], repr0)
      ensures Valid()
    {
      IndexAfterInsert(lists0, users0, repr0, b, up);
      assert Distinct([up] + lists0[b]);
      forall c | 0 <= c < |lists|
        ensures BucketOk(buckets[c], c, lists[c], repr)
      {
        if c != b { assert BucketOk(buckets[c], c, lists0[c], repr0); }
      }
    }

    /** The pointer writes of uid_hash_remove; *up->pprev is a bucket or the next field of the entry
        before. */
    method Bypass(up: UserStruct, ghost b: nat, ghost l: seq<UserStruct>, ghost j: nat)
      requires b < buckets.Length && buckets[b] == Nth(l, 0) && Chain(b, l) && Distinct(l)
      requires j < |l| && l[j] == up
      modifies buckets, (set u | u in l)`next, (set u | u in l)`pprev
      ensures buckets[b] == Nth(Without(l, j), 0) && Chain(b, Without(l, j))
      ensures forall c :: 0 <= c < buckets.Length && c != b ==> buckets[c] == old(buckets[c])
    {
      assert up.pprev == Back(b, l, j) && up.next == Nth(l, j + 1);
      if up.next != null { up.next.pprev := up.pprev; }
      match up.pprev {
        case Bucket(i) => buckets[i] := up.next;
        case NextOf(before) => before.next := up.next;
      }
      ChainAfterUnlink(b, l, j);
      assert Nth(Without(l, j), 0) == if j == 0 then Nth(l, 1) else l[0];
    }

    /** The writes of uid_hash_remove, seen from the whole table. */
    method BypassUser(up: UserStruct, ghost b: nat, ghost j: nat)
      requires Valid() && b < |lists| && j < |lists[b]| && lists[b][j] == up
      modifies buckets, repr`next, repr`pprev
      ensures Indexed(lists, users, repr)
      ensures Distinct(lists[b]) && forall u :: u in lists[b] ==> u in repr
      ensures buckets[b] == Nth(Without(lists[b], j), 0) && Chain(b, Without(lists[b], j))
      ensures forall c {:trigger buckets[c]} :: 0 <= c < |lists| && c != b ==> BucketOk(buckets[c], c, lists[c], repr)
    {
      BucketHoldsItsOwn(b);
      Bypass(up, b, lists[b], j);
      OtherBucketsStay(b);
      IndexStays();
    }

    /** uid_hash_remove */
    method Remove(up: UserStruct)
      requires Valid() && up in repr && up.uid in users && users[up.uid] == up
      modifies this`lists, this`users, this`repr, buckets, repr`next, repr`pprev
      ensures Valid() && buckets == old(buckets) && users == old(users) - {up.uid} && repr == old(repr) - {up}
    {
      ghost var b, lists0, users0, repr0 := HashOf(up.uid), lists, users, repr;
      assert UserOk(lists, repr, up.uid, users[up.uid]);
      ghost var j :| 0 <= j < |lists[b]| && lists[b][j] == up;
      BypassUser(up, b, j);
      lists := lists[b := Without(lists[b], j)];
      users := users - {up.uid};
      repr := repr - {up};
      RemovedValid(lists0, users0, repr0, b, j);
    }

    lemma RemovedValid(lists0: seq<seq<UserStruct>>, users0: map<Uid, UserStruct>, repr0: set<UserStruct>, b: nat, j: nat)
      requires buckets.Length == |lists0| == UIDHASH_SZ && Indexed(lists0, users0, repr0)
      requires b < |lists0| && j < |lists0[b]| && Distinct(lists0[b])
      requires var up := lists0[b][j];
               && up.uid in users0 && HashOf(up.uid) == b
               && lists == lists0[b := Without(lists0[b], j)] && users == users0 - {up.uid} && repr == repr0 - {up}
      requires forall u :: u in lists0[b] ==> u in repr0
      requires buckets[b] == Nth(Without(lists0[b], j), 0) && Chain(b, Without(lists0[b], j))
      requires forall c {:trigger buckets[c]} :: 0 <= c < |lists0| && c != b ==> BucketOk(buckets[c], c, lists0[c], repr0)
      ensures Valid()
    {
      var up := lists0[b][j];
      forall c | 0 <= c < |lists0| && c != b
        ensures up !in lists0[c]
      {
        assert BucketOk(buckets[c], c, lists0[c], repr0);
        ElsewhereLacks(up, c, lists0[c]);
      }
      IndexAfterRemove(lists0, users0, repr0, b, j);
      WithoutIsDistinct(lists0[b], j);
      forall c | 0 <= c < |lists|
        ensures BucketOk(buckets[c], c, lists[c], repr)
      {
        if c != b { assert BucketOk(buckets[c], c, lists0[c], repr0); }
      }
    }

    /** free_uid on a task's user structure; the uniprocessor form frees at zero without a second look. */
    method FreeUid(up: UserStruct)
      requires Valid() && up.uid in users && users[up.uid] == up
      modifies this`lists, this`users, this`repr, buckets, repr
      ensures Valid() && buckets == old(buckets) && repr <= old(repr)
      ensures Counts() == OneLess(old(Counts()), old(up.uid))
    {
      UsersInRepr();
      if up.count == 1 {
        ghost var before := Counts();
        Remove(up);
        UsersInRepr();
        assert Counts() == before - {up.uid};
        up.count := 0;
      } else {
        CountDown(up);
      }
    }

    /** atomic_dec that does not reach zero */
    method CountDown(up: UserStruct)
      requires Valid() && up.uid in users && users[up.uid] == up && up.count > 1
      modifies up`count
      ensures Valid() && up.count == old(up.count) - 1
      ensures Counts() == old(Counts())[up.uid := old(Counts())[up.uid] - 1]
    {
      up.count := up.count - 1;
      OneCountChanged(up);
    }

    /** The second half of alloc_uid, after the allocation that may have slept: somebody may have
        added the uid meanwhile. */
    method AddUnlessRaced(uid: Uid, fresh_: UserStruct) returns (up: UserStruct)
      requires Valid() && fresh_ !in repr && fresh_.uid == uid && fresh_.count == 1
      modifies this`lists, this`users, this`repr, buckets, repr, fresh_
      ensures Valid() && buckets == old(buckets) && uid in users && up == users[uid]
      ensures up == fresh_ <==> uid !in old(users)
      ensures Counts() == OneMore(old(Counts()), uid)
    {
      var found := Find(uid, HashOf(uid));
      if found != null {
        UsersInRepr();
        up := found;
      } else {
        Insert(fresh_, HashOf(uid));
        up := fresh_;
      }
    }

    /** The index reads uids and counts only. */
    twostate lemma IndexStays()
      requires old(Valid()) && lists == old(lists) && users == old(users) && repr == old(repr)
      requires forall u {:trigger u in repr} :: u in repr ==> u.uid == old(u.uid) && u.count == old(u.count)
      ensures Indexed(lists, users, repr)
    {
      forall uid | uid in users
        ensures users[uid] in repr && UserOk(lists, repr, uid, users[uid])
      {
        assert old(UserOk(lists, repr, uid, users[uid]));
      }
      forall b, i | 0 <= b < |lists| && 0 <= i < |lists[b]|
        ensures lists[b][i] in repr && EntryOk(users, repr, lists[b][i])
      {
        assert old(EntryOk(users, repr, lists[b][i]));
      }
    }
  }

  lemma IndexAfterInsert(lists: seq<seq<UserStruct>>, users: map<Uid, UserStruct>, repr: set<UserStruct>,
                         b: nat, up: UserStruct)
    requires Indexed(lists, users, repr) && b < |lists| && b == HashOf(up.uid)
    requires up !in repr && up.uid !in users && up.count >= 1
    ensures Indexed(lists[b := [up] + lists[b]], users[up.uid := up], repr + {up})
  {
    var ls, us, r := lists[b := [up] + lists[b]], users[up.uid := up], repr + {up};
    forall c, i | 0 <= c < |ls| && 0 <= i < |ls[c]|
      ensures ls[c][i] in r && EntryOk(us, r, ls[c][i])
    {
      if c == b && i > 0 {
        assert ls[c][i] == lists[b][i - 1];
        assert EntryOk(users, repr, lists[b][i - 1]);
      } else if c != b {
        assert EntryOk(users, repr, lists[c][i]);
      }
    }
    forall uid | uid in us
      ensures us[uid] in r && UserOk(ls, r, uid, us[uid])
    {
      if uid == up.uid {
        assert ls[b][0] == up;
      } else {
        assert UserOk(lists, repr, uid, users[uid]);
      }
    }
  }

  lemma WithoutIsDistinct(l: seq<UserStruct>, j: nat)
    requires j < |l| && Distinct(l)
    ensures Distinct(Without(l, j)) && l[j] !in Without(l, j)
    ensures forall u :: u in Without(l, j) ==> u in l
  {
    var m := Without(l, j);
    assert forall i :: 0 <= i < |m| ==> m[i] == l[if i < j then i else i + 1];
  }

  lemma ElsewhereLacks(up: UserStruct, c: nat, l: seq<UserStruct>)
    requires Chain(c, l) && HashOf(up.uid) != c
    ensures up !in l
  {
    forall i | 0 <= i < |l|
      ensures l[i] != up
    {
      assert HashOf(l[i].uid) == c;
    }
  }

  lemma IndexAfterRemove(lists: seq<seq<UserStruct>>, users: map<Uid, UserStruct>, repr: set<UserStruct>,
                         b: nat, j: nat)
    requires Indexed(lists, users, repr) && b < |lists| && j < |lists[b]| && Distinct(lists[b])
    requires lists[b][j].uid in users && HashOf(lists[b][j].uid) == b
    requires forall c :: 0 <= c < |lists| && c != b ==> lists[b][j] !in lists[c]
    ensures var up := lists[b][j];
            Indexed(lists[b := Without(lists[b], j)], users - {up.uid}, repr - {up})
  {
    var up := lists[b][j];
    var ls, us, r := lists[b := Without(lists[b], j)], users - {up.uid}, repr - {up};
    WithoutIsDistinct(lists[b], j);
    assert EntryOk(users, repr, lists[b][j]);
    forall c, i | 0 <= c < |ls| && 0 <= i < |ls[c]|
      ensures ls[c][i] in r && EntryOk(us, r, ls[c][i])
    {
      assert ls[c][i] in ls[c];
      var o := if c == b && i >= j then i + 1 else i;
      assert ls[c][i] == lists[c][o];
      assert EntryOk(users, repr, lists[c][o]);
    }
    forall uid | uid in us
      ensures us[uid] in r && UserOk(ls, r, uid, us[uid])
    {
      assert UserOk(lists, repr, uid, users[uid]);
      if HashOf(uid) == b {
        var i :| 0 <= i < |lists[b]| && lists[b][i] == users[uid];
        assert ls[b][if i < j then i else i - 1] == users[uid];
      }
    }
  }
}
