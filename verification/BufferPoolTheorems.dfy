/**
  The cache is transparent: for every run of reads, edits, write-backs, releases and syncs a read
  returns what an uncached device would hold, and a sync makes the device equal to that.
*/
module BufferPoolTheorems {
  import opened Sequences
  import opened BufferPool
  import opened BufferPoolLaws

  function Refs(s: Pool, b: nat): int { if b < |s.bufs| then s.bufs[b].refs else 0 }

  // ---------- bread ----------

  /** No buffer is free or idle and no more may be made. */
  ghost predicate Exhausted(s: Pool) {
    |s.bufs| == 4096 && forall b: nat :: b < |s.bufs| ==> s.bufs[b].refs > 0
  }

  /** Growing first and missing then is one miss. */
  lemma GrowThenMiss(s: Pool, k: Key)
    requires Inv(s) && s.free == [] && |s.bufs| < MAX_BUF_COUNT && forall b: nat :: !Caches(s, b, k)
    ensures Inv(Alloc(s)) && SameView(s, Alloc(s)) && Alloc(s).free != [] && Bread(s, k) == Bread(Alloc(s), k)
    ensures Search(Alloc(s).bufs, s.chains[Hash(k)], k) == |s.chains[Hash(k)]|
    ensures forall b: nat :: Refs(Alloc(s), b) == Refs(s, b)
  {
    var t := Alloc(s);
    AllocKeeps(s);
    UsedAlike(s, t);
    assert forall b: nat :: Caches(t, b, k) ==> Caches(s, b, k);
    NoHit(s, k);
    NoHit(t, k);
    SameMiss(s, k);
  }

  lemma NoHit(s: Pool, k: Key)
    requires Hashed(s.bufs, s.free, s.chains) && forall b: nat :: !Caches(s, b, k)
    ensures Search(s.bufs, s.chains[Hash(k)], k) == |s.chains[Hash(k)]|
  {
    SearchFinds(s, k);
  }

  lemma SameMiss(s: Pool, k: Key)
    requires Chained(s) && s.free == [] && |s.bufs| < MAX_BUF_COUNT && Alloc(s).free != []
    requires Search(s.bufs, s.chains[Hash(k)], k) == |s.chains[Hash(k)]|
    requires Search(Alloc(s).bufs, s.chains[Hash(k)], k) == |s.chains[Hash(k)]|
    ensures Bread(s, k) == Bread(Alloc(s), k)
  {
    assert TakeBuffer(s) == TakeBuffer(Alloc(s));
  }

  /** One reference to b was added and no other changed. */
  ghost predicate RefAdded(s: Pool, t: Pool, b: nat) {
    forall c: nat :: Refs(t, c) == Refs(s, c) + (if c == b then 1 else 0)
  }

  lemma MissRefs(s: Pool, k: Key)
    requires Inv(s) && Search(s.bufs, s.chains[Hash(k)], k) == |s.chains[Hash(k)]|
    requires s.free != [] || |s.bufs| == MAX_BUF_COUNT
    requires Bread(s, k).1.Taken? && (Bread(s, k).1.b in s.free || Bread(s, k).1.b in s.idle)
    requires Refs(Bread(s, k).0, Bread(s, k).1.b) == 1
    ensures RefAdded(s, Bread(s, k).0, Bread(s, k).1.b)
  {
  }

  /** The read handed out a buffer with what the device would hold. */
  ghost predicate ReadsView(s: Pool, k: Key, t: Pool, r: Taken) {
    && Inv(t) && SameView(s, t) && r.Taken? && Caches(t, r.b, k)
    && t.bufs[r.b].data == View(s, k) && RefAdded(s, t, r.b)
  }

  lemma HitReads(s: Pool, k: Key, b: nat)
    requires Inv(s) && Caches(s, b, k)
    ensures ReadsView(s, k, Bread(s, k).0, Bread(s, k).1)
  {
    HitKeeps(s, k, b);
    HitResult(s, k, b);
    ViewCached(Bread(s, k).0, b, k);
  }

  lemma FreeReads(s: Pool, k: Key)
    requires Inv(s) && s.free != [] && forall b: nat :: !Caches(s, b, k)
    ensures ReadsView(s, k, Bread(s, k).0, Bread(s, k).1)
  {
    NoHit(s, k);
    MissFromFree(s, k);
    MissRefs(s, k);
    ViewCached(Bread(s, k).0, Bread(s, k).1.b, k);
  }

  lemma GrowReads(s: Pool, k: Key)
    requires Inv(s) && s.free == [] && |s.bufs| < MAX_BUF_COUNT && forall b: nat :: !Caches(s, b, k)
    ensures ReadsView(s, k, Bread(s, k).0, Bread(s, k).1)
  {
    GrowThenMiss(s, k);
    FreeReads(Alloc(s), k);
  }

  lemma IdleReads(s: Pool, k: Key)
    requires Inv(s) && s.free == [] && |s.bufs| == MAX_BUF_COUNT && s.idle != [] && forall b: nat :: !Caches(s, b, k)
    ensures ReadsView(s, k, Bread(s, k).0, Bread(s, k).1)
  {
    NoHit(s, k);
    MissFromIdle(s, k);
    MissRefs(s, k);
    ViewCached(Bread(s, k).0, Bread(s, k).1.b, k);
  }

  lemma NotExhausted(s: Pool)
    requires Partition(s.bufs, s.free, s.idle) && |s.bufs| <= MAX_BUF_COUNT
    ensures Exhausted(s) <==> s.free == [] && |s.bufs| == MAX_BUF_COUNT && s.idle == []
  {
    if s.free != [] {
      assert s.free[0] in s.free;
    } else if s.idle != [] {
      assert s.idle[0] in s.idle;
    }
  }

  lemma WaitIs(s: Pool, k: Key)
    requires Inv(s) && s.free == [] && |s.bufs| == MAX_BUF_COUNT && s.idle == [] && forall b: nat :: !Caches(s, b, k)
    ensures Bread(s, k) == (s, Nothing)
  {
    NoHit(s, k);
  }

  /**
    `bread` returns a buffer with what the device would hold, unless every buffer is held; it
    changes no block's contents and adds one reference.
  */
  lemma BreadReads(s: Pool, k: Key)
    requires Inv(s)
    ensures var (t, r) := Bread(s, k);
      && Inv(t) && SameView(s, t)
      && (r.Nothing? <==> Exhausted(s) && forall b: nat :: !Caches(s, b, k))
      && (r.Nothing? ==> t == s)
      && (r.Taken? ==> Caches(t, r.b, k) && t.bufs[r.b].data == View(s, k) && RefAdded(s, t, r.b))
  {
    NotExhausted(s);
    if b: nat :| Caches(s, b, k) {
      HitReads(s, k, b);
    } else if s.free != [] {
      FreeReads(s, k);
    } else if |s.bufs| < MAX_BUF_COUNT {
      GrowReads(s, k);
    } else if s.idle != [] {
      IdleReads(s, k);
    } else {
      WaitIs(s, k);
    }
  }

  // ---------- edit, bwrite and brelse ----------

  lemma EditKeeps(s: Pool, b: nat, data: Data)
    requires Inv(s) && b < |s.bufs| && s.bufs[b].refs > 0
    ensures var t := Edit(s, b, data);
      && Inv(t) && (forall k :: View(t, k) == if k == s.bufs[b].key then data else View(s, k))
      && (forall c: nat :: Refs(t, c) == Refs(s, c))
  {
    var t := Edit(s, b, data);
    ChainsKept(s.bufs, s.free, t.bufs, t.free, s.chains);
    assert forall c: nat :: Used(t.bufs, t.free, c) <==> Used(s.bufs, s.free, c);
    forall k
      ensures View(t, k) == if k == s.bufs[b].key then data else View(s, k)
    {
      if c: nat :| Caches(s, c, k) {
        assert c == b <==> Caches(s, b, k);
        ViewCached(s, c, k);
        ViewCached(t, c, k);
      } else {
        assert !Caches(s, b, k);
        assert forall c: nat :: Caches(t, c, k) ==> Caches(s, c, k);
        ViewUncached(s, k);
        ViewUncached(t, k);
      }
    }
  }

  /** The last reference is dropped: the clean buffer goes to the front of the idle list. */
  lemma LastReferenceKeeps(s: Pool, b: nat, t: Pool)
    requires Inv(s) && Used(s.bufs, s.free, b) && b !in s.idle && !s.bufs[b].dirty
    requires t == s.(idle := [b] + s.idle, clock := s.clock + 1,
                     bufs := s.bufs[b := s.bufs[b].(refs := 0, released := s.clock)])
    ensures Inv(t) && SameView(s, t)
  {
    ChainsKept(s.bufs, s.free, t.bufs, t.free, s.chains);
    assert forall c: nat :: Used(t.bufs, t.free, c) <==> Used(s.bufs, s.free, c);
    AgedPush(s.bufs, t.bufs, s.idle, s.clock, b);
    UsedAlike(s, t);
  }

  /** Another reference remains. */
  lemma FewerReferencesKeep(s: Pool, b: nat, t: Pool)
    requires Inv(s) && Used(s.bufs, s.free, b) && b !in s.idle && s.bufs[b].refs > 1
    requires t == s.(bufs := s.bufs[b := s.bufs[b].(refs := s.bufs[b].refs - 1)])
    ensures Inv(t) && SameView(s, t)
  {
    ChainsKept(s.bufs, s.free, t.bufs, t.free, s.chains);
    assert forall c: nat :: Used(t.bufs, t.free, c) <==> Used(s.bufs, s.free, c);
    AgedPush(s.bufs, t.bufs, s.idle, s.clock, b);
    UsedAlike(s, t);
  }

  /** Releasing writes back, drops one reference and, with the last one, lists the buffer as idle. */
  lemma BrelseKeeps(s: Pool, b: nat)
    requires Inv(s) && b < |s.bufs| && s.bufs[b].refs > 0
    ensures var t := Brelse(s, b);
      && Inv(t) && SameView(s, t) && !t.bufs[b].dirty
      && (forall c: nat :: Refs(t, c) == Refs(s, c) - (if c == b then 1 else 0))
      && t.idle == if s.bufs[b].refs == 1 then [b] + s.idle else s.idle
  {
    var s1, t := Bwrite(s, b), Brelse(s, b);
    BwriteKeeps(s, b);
    if s.bufs[b].refs == 1 {
      LastReferenceKeeps(s1, b, t);
    } else {
      FewerReferencesKeep(s1, b, t);
    }
  }

  lemma AgedPush(bufs: seq<Buf>, bufs1: seq<Buf>, idle: seq<nat>, clock: nat, b: nat)
    requires Aged(bufs, idle, clock) && b < |bufs| == |bufs1| && b !in idle
    requires forall c: nat :: c < |bufs| && c != b ==> bufs1[c] == bufs[c]
    ensures Aged(bufs1, idle, clock)
    ensures bufs1[b].released == clock ==> Aged(bufs1, [b] + idle, clock + 1)
  {
    assert forall i :: 0 <= i < |idle| ==> idle[i] in idle;
  }

  // ---------- sync ----------

  /** Only dirty flags, valid flags and the disk may differ. */
  ghost predicate SameBuffers(s: Pool, t: Pool) {
    && |t.bufs| == |s.bufs| && t.free == s.free && t.idle == s.idle && t.chains == s.chains && t.clock == s.clock
    && (forall b: nat :: b < |s.bufs| ==> t.bufs[b].key == s.bufs[b].key && t.bufs[b].refs == s.bufs[b].refs)
    && (forall b: nat :: b < |s.bufs| && t.bufs[b].dirty ==> s.bufs[b].dirty)
  }

  lemma {:induction false} SyncChainCleans(s: Pool, q: seq<nat>)
    requires Inv(s) && forall i :: 0 <= i < |q| ==> Used(s.bufs, s.free, q[i])
    ensures var t := SyncChain(s, q);
      Inv(t) && SameView(s, t) && SameBuffers(s, t) && forall b :: b in q ==> !t.bufs[b].dirty
    decreases |q|
  {
    if q != [] {
      var s1 := Bwrite(s, q[0]);
      BwriteKeeps(s, q[0]);
      assert forall i :: 0 <= i < |q| - 1 ==> q[1..][i] == q[i + 1];
      SyncChainCleans(s1, q[1..]);
      assert q == [q[0]] + q[1..];
    }
  }

  lemma HashedInRange(s: Pool)
    requires Hashed(s.bufs, s.free, s.chains)
    ensures InRange(s)
    ensures forall j, i :: 0 <= j < HASH_COUNT && 0 <= i < |s.chains[j]| ==> Used(s.bufs, s.free, s.chains[j][i])
  {
    forall j, i | 0 <= j < |s.chains| && 0 <= i < |s.chains[j]|
      ensures s.chains[j][i] < |s.bufs| && Used(s.bufs, s.free, s.chains[j][i])
    {
      assert ChainOk(s.bufs, s.free, s.chains[j], j);
      assert s.chains[j][i] in s.chains[j];
    }
  }

  /** `sync` from chain j on: the pool is as before but for flags and disk, and those chains are clean. */
  ghost predicate CleanFrom(s: Pool, t: Pool, j: nat) {
    && Inv(t) && SameView(s, t) && SameBuffers(s, t)
    && forall b: nat :: Used(s.bufs, s.free, b) && Hash(s.bufs[b].key) >= j ==> !t.bufs[b].dirty
  }

  lemma CleanStep(s: Pool, s1: Pool, t: Pool, j: nat)
    requires Hashed(s.bufs, s.free, s.chains) && j < HASH_COUNT
    requires SameView(s, s1) && SameBuffers(s, s1) && CleanFrom(s1, t, j + 1)
    requires forall b :: b in s.chains[j] && b < |s1.bufs| ==> !s1.bufs[b].dirty
    ensures CleanFrom(s, t, j)
  {
    assert ChainOk(s.bufs, s.free, s.chains[j], j);
    forall b: nat | Used(s.bufs, s.free, b) && Hash(s.bufs[b].key) >= j
      ensures !t.bufs[b].dirty
    {
      assert Used(s1.bufs, s1.free, b);
      assert Hash(s.bufs[b].key) == j ==> b in s.chains[j];
    }
  }

  lemma {:induction false} SyncFromCleans(s: Pool, j: nat)
    requires Inv(s) && InRange(s) && j <= HASH_COUNT
    ensures CleanFrom(s, SyncFrom(s, j), j)
    decreases HASH_COUNT - j
  {
    if j < HASH_COUNT {
      HashedInRange(s);
      var s1 := SyncChain(s, s.chains[j]);
      SyncChainCleans(s, s.chains[j]);
      HashedInRange(s1);
      SyncFromCleans(s1, j + 1);
      CleanStep(s, s1, SyncFrom(s1, j + 1), j);
    }
  }

  /** After `sync` the device holds exactly what the cache showed, block by block. */
  lemma SyncWritesEverything(s: Pool)
    requires Inv(s)
    ensures InRange(s)
    ensures var t := SyncFrom(s, 0);
      Inv(t) && SameView(s, t) && SameBuffers(s, t) && forall k :: OnDisk(t.disk, k) == View(s, k)
  {
    HashedInRange(s);
    SyncFromCleans(s, 0);
    var t := SyncFrom(s, 0);
    forall k
      ensures OnDisk(t.disk, k) == View(s, k)
    {
      assert View(t, k) == View(s, k);
      if b: nat :| Caches(t, b, k) {
        ViewCached(t, b, k);
        assert Used(s.bufs, s.free, b);
      } else {
        ViewUncached(t, k);
      }
    }
  }

  // ---------- runs ----------

  datatype Op =
    | Read(k: Key)
    | Write(b: nat, data: Data)
    | WriteBack(b: nat)
    | Release(b: nat)
    | Sync

  /** Only a buffer that is held may be edited, written back or released. */
  predicate Legal(s: Pool, op: Op) {
    (op.Write? || op.WriteBack? || op.Release?) ==> op.b < |s.bufs| && s.bufs[op.b].refs > 0
  }

  function Apply(s: Pool, op: Op): Pool
    requires Legal(s, op) && Chained(s) && InRange(s)
  {
    match op
    case Read(k) => Bread(s, k).0
    case Write(b, data) => Edit(s, b, data)
    case WriteBack(b) => Bwrite(s, b)
    case Release(b) => Brelse(s, b)
    case Sync => SyncFrom(s, 0)
  }

  /** What the operation does to an uncached device: only an edit changes a block. */
  function Plain(s: Pool, op: Op, k: Key, content: Data): Data
    requires Legal(s, op)
  {
    if op.Write? && s.bufs[op.b].key == k then op.data else content
  }

  /** References the operation adds to buffer b. */
  function RefsAdded(s: Pool, op: Op, b: nat): int
    requires Chained(s)
  {
    if op.Read? && Bread(s, op.k).1 == Taken(b) then 1
    else if op.Release? && op.b == b then -1
    else 0
  }

  /** One operation: the invariant, the view of an uncached device, and the references. */
  ghost predicate Kept(s: Pool, op: Op, t: Pool)
    requires Legal(s, op) && Chained(s)
  {
    && Inv(t)
    && (forall k :: View(t, k) == Plain(s, op, k, View(s, k)))
    && (forall b: nat :: Refs(t, b) == Refs(s, b) + RefsAdded(s, op, b))
  }

  lemma ReadKept(s: Pool, k: Key)
    requires Inv(s)
    ensures Kept(s, Read(k), Bread(s, k).0)
  {
    BreadReads(s, k);
    ReferenceKept(s, k, Bread(s, k).0, Bread(s, k).1);
  }

  lemma ReferenceKept(s: Pool, k: Key, t: Pool, r: Taken)
    requires Chained(s) && r == Bread(s, k).1 && Inv(t) && SameView(s, t)
    requires if r.Nothing? then t == s else RefAdded(s, t, r.b)
    ensures Kept(s, Read(k), t)
  {
  }

  lemma WriteKept(s: Pool, b: nat, data: Data)
    requires Inv(s) && Legal(s, Write(b, data))
    ensures Kept(s, Write(b, data), Edit(s, b, data))
  {
    EditKeeps(s, b, data);
  }

  lemma WriteBackKept(s: Pool, b: nat)
    requires Inv(s) && Legal(s, WriteBack(b))
    ensures Kept(s, WriteBack(b), Bwrite(s, b))
  {
    BwriteKeeps(s, b);
  }

  lemma ReleaseKept(s: Pool, b: nat)
    requires Inv(s) && Legal(s, Release(b))
    ensures Kept(s, Release(b), Brelse(s, b))
  {
    BrelseKeeps(s, b);
  }

  lemma SyncKept(s: Pool)
    requires Inv(s) && InRange(s)
    ensures Kept(s, Sync, SyncFrom(s, 0))
  {
    SyncWritesEverything(s);
  }

  lemma ApplyKeeps(s: Pool, op: Op)
    requires Inv(s) && InRange(s) && Legal(s, op)
    ensures Kept(s, op, Apply(s, op)) && InRange(Apply(s, op))
  {
    match op {
      case Read(k) => ReadKept(s, k);
      case Write(b, data) => WriteKept(s, b, data);
      case WriteBack(b) => WriteBackKept(s, b);
      case Release(b) => ReleaseKept(s, b);
      case Sync => SyncKept(s);
    }
    HashedInRange(Apply(s, op));
  }

  ghost predicate LegalRun(s: Pool, ops: seq<Op>)
    decreases ops
  {
    Chained(s) && InRange(s) && (ops != [] ==> Legal(s, ops[0]) && LegalRun(Apply(s, ops[0]), ops[1..]))
  }

  function Run(s: Pool, ops: seq<Op>): (t: Pool)
    requires LegalRun(s, ops)
    ensures Chained(t)
    decreases ops
  {
    if ops == [] then s else Run(Apply(s, ops[0]), ops[1..])
  }

  /** Block k of an uncached device after the same operations. */
  function PlainRun(s: Pool, ops: seq<Op>, k: Key, content: Data): Data
    requires LegalRun(s, ops)
    decreases ops
  {
    if ops == [] then content
    else PlainRun(Apply(s, ops[0]), ops[1..], k, Plain(s, ops[0], k, content))
  }

  /** Reads of buffer b minus releases of it. */
  function Outstanding(s: Pool, ops: seq<Op>, b: nat): int
    requires LegalRun(s, ops)
    decreases ops
  {
    if ops == [] then 0 else RefsAdded(s, ops[0], b) + Outstanding(Apply(s, ops[0]), ops[1..], b)
  }

  /**
    After every run the cache shows what an uncached device would hold, in every block, and each
    buffer's reference count is its outstanding reads.
  */
  lemma {:induction false} RunIsTransparent(s: Pool, ops: seq<Op>, k: Key, b: nat)
    requires Inv(s) && LegalRun(s, ops)
    ensures var t := Run(s, ops);
      && Inv(t) && View(t, k) == PlainRun(s, ops, k, View(s, k))
      && Refs(t, b) == Refs(s, b) + Outstanding(s, ops, b)
    decreases ops
  {
    if ops != [] {
      ApplyKeeps(s, ops[0]);
      RunIsTransparent(Apply(s, ops[0]), ops[1..], k, b);
    }
  }

  /** A read after any run returns what the uncached device would hold. */
  lemma ReadAfterRun(s: Pool, ops: seq<Op>, k: Key)
    requires Inv(s) && LegalRun(s, ops)
    ensures var (t, r) := Bread(Run(s, ops), k);
      r.Taken? ==> r.b < |t.bufs| && t.bufs[r.b].data == PlainRun(s, ops, k, View(s, k))
  {
    RunIsTransparent(s, ops, k, 0);
    BreadReads(Run(s, ops), k);
  }

  /** A pool as `buffer_init` leaves it. */
  lemma EmptyPool(s: Pool)
    requires s.size == 512 || s.size == 1024 || s.size == 2048 || s.size == 4096
    requires s.bufs == [] && s.free == [] && s.idle == [] && s.chains == seq(HASH_COUNT, _ => [])
    ensures Inv(s) && forall k :: View(s, k) == OnDisk(s.disk, k)
  {
    assert forall j :: 0 <= j < HASH_COUNT ==> ChainOk(s.bufs, s.free, s.chains[j], j);
  }
}
