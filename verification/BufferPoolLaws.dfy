/** What each operation of the buffer cache keeps. */
module BufferPoolLaws {
  import opened BitMath
  import opened Sequences
  import opened BufferPool

  // ---------- the view ----------

  lemma ViewCached(s: Pool, b: nat, k: Key)
    requires OnePerBlock(s.bufs, s.free) && Caches(s, b, k)
    ensures View(s, k) == s.bufs[b].data
  {
  }

  lemma ViewUncached(s: Pool, k: Key)
    requires forall b: nat :: !Caches(s, b, k)
    ensures View(s, k) == OnDisk(s.disk, k)
  {
  }

  ghost predicate SameView(s: Pool, t: Pool) {
    forall k :: View(t, k) == View(s, k)
  }

  /** The chain search finds the buffer with the block if there is one. */
  lemma SearchFinds(s: Pool, k: Key)
    requires Hashed(s.bufs, s.free, s.chains)
    ensures var q := s.chains[Hash(k)];
      var i := Search(s.bufs, q, k);
      if i < |q| then Caches(s, q[i], k) else forall b: nat :: !Caches(s, b, k)
  {
    var q := s.chains[Hash(k)];
    var i := Search(s.bufs, q, k);
    assert ChainOk(s.bufs, s.free, q, Hash(k));
    if i < |q| {
      assert q[i] in q;
    } else {
      forall b: nat
        ensures !Caches(s, b, k)
      {
        assert Caches(s, b, k) ==> b in q;
      }
    }
  }

  // ---------- lists ----------

  lemma IdleRemoved(bufs: seq<Buf>, idle: seq<nat>, clock: nat, b: nat)
    requires Distinct(idle) && Aged(bufs, idle, clock)
    ensures Aged(bufs, Remove(idle, b), clock) && Distinct(Remove(idle, b))
    ensures forall c: nat :: c in Remove(idle, b) <==> c in idle && c != b
  {
    if b in idle {
      var i :| 0 <= i < |idle| && idle[i] == b;
      RemoveAt(idle, b, i);
      AgedWithout(bufs, idle, clock, i, Remove(idle, b));
      RemoveHas(idle, b);
    } else {
      RemoveAbsent(idle, b);
    }
  }

  lemma AgedWithout(bufs: seq<Buf>, idle: seq<nat>, clock: nat, i: nat, rest: seq<nat>)
    requires Aged(bufs, idle, clock) && i < |idle| && rest == idle[..i] + idle[i + 1..]
    ensures Aged(bufs, rest, clock)
  {
    assert forall m :: 0 <= m < |rest| ==> rest[m] == idle[if m < i then m else m + 1];
  }

  lemma LastOff(q: seq<nat>)
    requires Distinct(q) && q != []
    ensures Distinct(q[..|q| - 1]) && q[|q| - 1] !in q[..|q| - 1]
    ensures forall c: nat :: c in q <==> c in q[..|q| - 1] || c == q[|q| - 1]
  {
    assert q == q[..|q| - 1] + [q[|q| - 1]];
  }

  lemma {:induction false} PushNewHas(q: seq<nat>, n: nat, m: nat)
    requires n <= m && Distinct(q) && forall c: nat :: c in q ==> c < n
    ensures Distinct(PushNew(q, n, m))
    ensures forall c: nat :: c in PushNew(q, n, m) <==> c in q || n <= c < m
    decreases m - n
  {
    if n < m {
      assert forall i :: 0 <= i < |q| ==> q[i] in q;
      PushNewHas([n] + q, n + 1, m);
    }
  }

  /** Chains depend only on which buffers are used and for which blocks. */
  lemma ChainsKept(bufs: seq<Buf>, free: seq<nat>, bufs1: seq<Buf>, free1: seq<nat>, chains: seq<seq<nat>>)
    requires Hashed(bufs, free, chains)
    requires forall b: nat :: Used(bufs1, free1, b) <==> Used(bufs, free, b)
    requires forall b: nat :: Used(bufs, free, b) && b < |bufs1| ==> bufs1[b].key == bufs[b].key
    ensures Hashed(bufs1, free1, chains)
  {
    forall j | 0 <= j < HASH_COUNT
      ensures ChainOk(bufs1, free1, chains[j], j)
    {
      assert ChainOk(bufs, free, chains[j], j);
      forall b: nat
        ensures b in chains[j] <==> b < |bufs1| && b !in free1 && Hash(bufs1[b].key) == j
      {
        assert Used(bufs1, free1, b) <==> Used(bufs, free, b);
      }
    }
  }

  // ---------- growing ----------

  lemma BatchDivides(size: nat, n: nat)
    requires size == 512 || size == 1024 || size == 2048 || size == 4096
    requires n < MAX_BUF_COUNT && n % Batch(size) == 0
    ensures 0 < Batch(size) && n + Batch(size) <= MAX_BUF_COUNT && (n + Batch(size)) % Batch(size) == 0
  {
    if size == 512 {
      assert Batch(size) == 32;
    } else if size == 1024 {
      assert Batch(size) == 16;
    } else if size == 2048 {
      assert Batch(size) == 8;
    } else {
      assert Batch(size) == 4;
    }
  }

  lemma BatchBytes(size: nat)
    requires size == 512 || size == 1024 || size == 2048 || size == 4096
    ensures Batch(size) * size == 16384
  {
  }

  /** Growing the pool adds 16 KB of buffers, all of them free, and stays within the maximum. */
  lemma AllocKeeps(s: Pool)
    requires Inv(s) && s.free == [] && |s.bufs| < MAX_BUF_COUNT
    ensures Inv(Alloc(s)) && Alloc(s).free != [] && (|Alloc(s).bufs| - |s.bufs|) * s.size == 16384
    ensures forall b: nat :: Used(Alloc(s).bufs, Alloc(s).free, b) <==> Used(s.bufs, s.free, b)
    ensures forall b: nat :: Used(s.bufs, s.free, b) ==> Alloc(s).bufs[b] == s.bufs[b]
  {
    BatchDivides(s.size, |s.bufs|);
    BatchBytes(s.size);
    var t := Alloc(s);
    PushNewHas([], |s.bufs|, |t.bufs|);
    assert |s.bufs| in t.free;
    ChainsKept(s.bufs, s.free, t.bufs, t.free, s.chains);
  }

  /** States with the same used buffers and disk have the same view. */
  lemma UsedAlike(s: Pool, t: Pool)
    requires OnePerBlock(s.bufs, s.free) && OnePerBlock(t.bufs, t.free) && s.disk == t.disk
    requires forall b: nat :: Used(t.bufs, t.free, b) <==> Used(s.bufs, s.free, b)
    requires forall b: nat :: Used(s.bufs, s.free, b) ==> t.bufs[b].key == s.bufs[b].key && t.bufs[b].data == s.bufs[b].data
    ensures SameView(s, t)
  {
    forall k
      ensures View(t, k) == View(s, k)
    {
      if b: nat :| Caches(s, b, k) {
        ViewCached(s, b, k);
        ViewCached(t, b, k);
      } else {
        forall b: nat
          ensures !Caches(t, b, k)
        {
          assert !Caches(s, b, k);
        }
        ViewUncached(s, k);
        ViewUncached(t, k);
      }
    }
  }

  // ---------- a hit ----------

  /** One more reference to a used buffer, taken off the idle list if it was there. */
  lemma HeldAgain(s: Pool, b: nat)
    requires Partition(s.bufs, s.free, s.idle) && Aged(s.bufs, s.idle, s.clock) && Used(s.bufs, s.free, b)
    ensures var bufs := s.bufs[b := s.bufs[b].(refs := s.bufs[b].refs + 1)];
      Partition(bufs, s.free, Remove(s.idle, b)) && Aged(bufs, Remove(s.idle, b), s.clock)
  {
    IdleRemoved(s.bufs, s.idle, s.clock, b);
  }

  /** The result of a hit on b. */
  lemma HitResult(s: Pool, k: Key, b: nat)
    requires Inv(s) && Caches(s, b, k)
    ensures Bread(s, k) ==
      (s.(idle := Remove(s.idle, b), bufs := s.bufs[b := s.bufs[b].(refs := s.bufs[b].refs + 1)]), Taken(b))
  {
    SearchFinds(s, k);
    var q := s.chains[Hash(k)];
    assert Caches(s, q[Search(s.bufs, q, k)], k);
  }

  lemma HitKeeps(s: Pool, k: Key, b: nat)
    requires Inv(s) && Caches(s, b, k)
    ensures var (t, r) := Bread(s, k);
      Inv(t) && SameView(s, t) && r == Taken(b) && Caches(t, b, k) && t.bufs[b].refs == s.bufs[b].refs + 1
  {
    var t := Bread(s, k).0;
    HitResult(s, k, b);
    HeldAgain(s, b);
    ChainsKept(s.bufs, s.free, t.bufs, t.free, s.chains);
    assert forall c: nat :: Used(t.bufs, t.free, c) <==> Used(s.bufs, s.free, c);
    UsedAlike(s, t);
  }

  // ---------- a miss ----------

  /** Buffer b, off every list, is about to hold block k; the rest of the pool is in order. */
  ghost predicate Loose(bufs: seq<Buf>, free: seq<nat>, idle: seq<nat>, b: nat, k: Key) {
    && b < |bufs| && b !in free && b !in idle
    && Distinct(free) && Distinct(idle)
    && (forall c: nat :: c in free ==> c < |bufs| && c !in idle)
    && (forall c: nat :: c in idle ==> c < |bufs|)
    && (forall c: nat :: c < |bufs| && c != b ==> bufs[c].refs >= 0 && (bufs[c].refs == 0 <==> c in free || c in idle))
    && (forall c: nat :: Used(bufs, free, c) && c != b ==> bufs[c].key != k)
  }

  /** OnePerBlock and Coherent for all used buffers but b. */
  ghost predicate OthersOk(bufs: seq<Buf>, free: seq<nat>, disk: map<Key, Data>, b: nat) {
    && (forall c: nat, d: nat :: Used(bufs, free, c) && Used(bufs, free, d) && c != b && d != b && bufs[c].key == bufs[d].key
          ==> c == d)
    && (forall c: nat :: Used(bufs, free, c) && c != b ==>
          && bufs[c].valid && (bufs[c].dirty ==> bufs[c].refs > 0)
          && (bufs[c].dirty || bufs[c].data == OnDisk(disk, bufs[c].key)))
  }

  /** The buffer as bread leaves it. */
  function Loaded(x: Buf, disk: map<Key, Data>, k: Key): Buf {
    x.(key := k, refs := 1, data := OnDisk(disk, k), valid := true, dirty := false)
  }

  lemma LooseLoaded(bufs: seq<Buf>, free: seq<nat>, idle: seq<nat>, disk: map<Key, Data>, clock: nat, b: nat, k: Key)
    requires Loose(bufs, free, idle, b, k) && OthersOk(bufs, free, disk, b) && Aged(bufs, idle, clock)
    ensures var bufs1 := bufs[b := Loaded(bufs[b], disk, k)];
      Partition(bufs1, free, idle) && OnePerBlock(bufs1, free) && Coherent(bufs1, free, disk) && Aged(bufs1, idle, clock)
  {
  }

  /** Chain j once the free buffer b holds x. */
  lemma ChainFromFree(bufs: seq<Buf>, free: seq<nat>, b: nat, x: Buf, free1: seq<nat>, q: seq<nat>, j: nat)
    requires ChainOk(bufs, free, q, j) && b in free && b < |bufs| && b !in free1
    requires forall c: nat :: c in free <==> c in free1 || c == b
    ensures b !in q && ChainOk(bufs[b := x], free1, if j == Hash(x.key) then [b] + q else q, j)
  {
  }

  /** Moving a buffer that was free onto the chain of k. */
  lemma ChainsFromFree(bufs: seq<Buf>, free: seq<nat>, b: nat, x: Buf, chains: seq<seq<nat>>)
    requires Hashed(bufs, free, chains) && free != [] && Distinct(free) && b == free[|free| - 1] < |bufs|
    ensures var c1 := chains[Hash(bufs[b].key) := Remove(chains[Hash(bufs[b].key)], b)];
      Hashed(bufs[b := x], free[..|free| - 1], c1[Hash(x.key) := [b] + c1[Hash(x.key)]])
  {
    var free1, bufs1, h := free[..|free| - 1], bufs[b := x], Hash(bufs[b].key);
    LastOff(free);
    ChainFromFree(bufs, free, b, x, free1, chains[h], h);
    RemoveAbsent(chains[h], b);
    forall j | 0 <= j < HASH_COUNT
      ensures ChainOk(bufs1, free1, if j == Hash(x.key) then [b] + chains[j] else chains[j], j)
    {
      ChainFromFree(bufs, free, b, x, free1, chains[j], j);
    }
  }

  /** Moving a used buffer from its chain onto the chain of its new block. */
  lemma ChainsFromUsed(bufs: seq<Buf>, free: seq<nat>, b: nat, x: Buf, chains: seq<seq<nat>>)
    requires Hashed(bufs, free, chains) && Used(bufs, free, b)
    ensures var c1 := chains[Hash(bufs[b].key) := Remove(chains[Hash(bufs[b].key)], b)];
      Hashed(bufs[b := x], free, c1[Hash(x.key) := [b] + c1[Hash(x.key)]])
  {
    var h := Hash(bufs[b].key);
    assert ChainOk(bufs, free, chains[h], h);
    RemoveHas(chains[h], b);
    var c1 := chains[h := Remove(chains[h], b)];
    var c2 := c1[Hash(x.key) := [b] + c1[Hash(x.key)]];
    forall j | 0 <= j < HASH_COUNT
      ensures ChainOk(bufs[b := x], free, c2[j], j)
    {
      assert ChainOk(bufs, free, chains[j], j);
      assert b !in c1[j];
    }
  }

  /** The result of a miss that took b, leaving free and idle. */
  lemma MissResult(s: Pool, b: nat, k: Key, free: seq<nat>, idle: seq<nat>)
    requires Hashed(s.bufs, s.free, s.chains) && Search(s.bufs, s.chains[Hash(k)], k) == |s.chains[Hash(k)]|
    requires TakeBuffer(s) == (s.(free := free, idle := idle), Taken(b)) && b < |s.bufs|
    ensures var (t, r) := Bread(s, k);
      && r == Taken(b) && t.bufs == s.bufs[b := Loaded(s.bufs[b], s.disk, k)] && t.free == free && t.idle == idle
      && t.disk == s.disk && t.clock == s.clock && t.size == s.size
      && var c1 := s.chains[Hash(s.bufs[b].key) := Remove(s.chains[Hash(s.bufs[b].key)], b)];
         t.chains == c1[Hash(k) := [b] + c1[Hash(k)]]
  {
  }

  /** What a miss on block k leaves: b holds the disk's block, and nothing else has changed hands. */
  ghost predicate Missed(s: Pool, t: Pool, b: nat, k: Key) {
    Inv(t) && SameView(s, t) && Caches(t, b, k) && t.bufs[b].refs == 1
  }

  lemma OthersStayOk(bufs: seq<Buf>, free: seq<nat>, free1: seq<nat>, disk: map<Key, Data>, b: nat)
    requires OnePerBlock(bufs, free) && Coherent(bufs, free, disk)
    requires forall c: nat :: c != b ==> (Used(bufs, free1, c) <==> Used(bufs, free, c))
    ensures OthersOk(bufs, free1, disk, b)
  {
  }

  lemma FreeIsLoose(s: Pool, k: Key, free: seq<nat>)
    requires Inv(s) && s.free != [] && free == s.free[..|s.free| - 1] && forall b: nat :: !Caches(s, b, k)
    ensures var b := s.free[|s.free| - 1];
      && b in s.free && Loose(s.bufs, free, s.idle, b, k) && OthersOk(s.bufs, free, s.disk, b)
      && forall c: nat :: c != b ==> (Used(s.bufs, free, c) <==> Used(s.bufs, s.free, c))
  {
    var b := s.free[|s.free| - 1];
    LastOff(s.free);
    assert forall c: nat :: c != b ==> (Used(s.bufs, free, c) <==> Used(s.bufs, s.free, c));
    OthersStayOk(s.bufs, s.free, free, s.disk, b);
    forall c: nat | Used(s.bufs, free, c) && c != b
      ensures s.bufs[c].key != k
    {
      assert !Caches(s, c, k);
    }
  }

  lemma IdleIsLoose(s: Pool, k: Key, idle: seq<nat>)
    requires Inv(s) && s.idle != [] && idle == s.idle[..|s.idle| - 1] && forall b: nat :: !Caches(s, b, k)
    ensures var b := s.idle[|s.idle| - 1];
      && b in s.idle && Loose(s.bufs, s.free, idle, b, k) && OthersOk(s.bufs, s.free, s.disk, b)
      && Aged(s.bufs, idle, s.clock)
      && forall c :: c in s.idle && c != b ==> s.bufs[b].released < s.bufs[c].released
  {
    LastOff(s.idle);
    assert forall c: nat :: Used(s.bufs, s.free, c) ==> !Caches(s, c, k);
  }

  /** A miss that took b, leaving free and idle, where the rest of the pool is in order. */
  lemma MissKeeps(s: Pool, t: Pool, b: nat, k: Key, free: seq<nat>, idle: seq<nat>)
    requires Inv(s) && (forall c: nat :: !Caches(s, c, k)) && b < |s.bufs|
    requires Loose(s.bufs, free, idle, b, k) && OthersOk(s.bufs, free, s.disk, b) && Aged(s.bufs, idle, s.clock)
    requires forall c: nat :: c in free ==> c in s.free
    requires forall c: nat :: c != b ==> (Used(s.bufs, free, c) <==> Used(s.bufs, s.free, c))
    requires t == Pool(s.size, s.bufs[b := Loaded(s.bufs[b], s.disk, k)], free, idle, t.chains, s.disk, s.clock)
    requires Hashed(t.bufs, t.free, t.chains)
    requires Used(s.bufs, s.free, b) ==> s.bufs[b].data == OnDisk(s.disk, s.bufs[b].key)
    ensures Missed(s, t, b, k)
  {
    LooseLoaded(s.bufs, free, idle, s.disk, s.clock, b, k);
    MissView(s, t, b, k);
  }

  lemma MissFromFree(s: Pool, k: Key)
    requires Inv(s) && s.free != [] && Search(s.bufs, s.chains[Hash(k)], k) == |s.chains[Hash(k)]|
    ensures var (t, r) := Bread(s, k); r.Taken? && r.b in s.free && Missed(s, t, r.b, k)
  {
    var b, free, t := s.free[|s.free| - 1], s.free[..|s.free| - 1], Bread(s, k).0;
    SearchFinds(s, k);
    LastOff(s.free);
    FreeIsLoose(s, k, free);
    MissResult(s, b, k, free, s.idle);
    ChainsFromFree(s.bufs, s.free, b, Loaded(s.bufs[b], s.disk, k), s.chains);
    MissKeeps(s, t, b, k, free, s.idle);
  }

  /** The view is the same: the block was on disk only, and so is the evicted one. */
  lemma MissView(s: Pool, t: Pool, b: nat, k: Key)
    requires OnePerBlock(s.bufs, s.free) && OnePerBlock(t.bufs, t.free) && s.disk == t.disk
    requires forall c: nat :: !Caches(s, c, k)
    requires Used(t.bufs, t.free, b) && t.bufs[b].key == k && t.bufs[b].data == OnDisk(t.disk, k)
    requires forall c: nat :: c != b ==> (Used(t.bufs, t.free, c) <==> Used(s.bufs, s.free, c))
    requires forall c: nat :: c != b && Used(s.bufs, s.free, c) ==> t.bufs[c] == s.bufs[c]
    requires Used(s.bufs, s.free, b) ==> s.bufs[b].data == OnDisk(s.disk, s.bufs[b].key)
    ensures SameView(s, t)
  {
    forall m
      ensures View(t, m) == View(s, m)
    {
      if m == k {
        ViewCached(t, b, k);
        ViewUncached(s, k);
      } else if c: nat :| Caches(s, c, m) && c != b {
        ViewCached(s, c, m);
        ViewCached(t, c, m);
      } else {
        assert forall c: nat :: !Caches(t, c, m) by {
          forall c: nat
            ensures !Caches(t, c, m)
          {
            assert c != b ==> !Caches(s, c, m);
          }
        }
        ViewUncached(t, m);
        if Caches(s, b, m) {
          ViewCached(s, b, m);
        } else {
          assert forall c: nat :: !Caches(s, c, m);
          ViewUncached(s, m);
        }
      }
    }
  }

  /** Eviction: the buffer idle longest is taken; being clean, it loses no write. */
  lemma MissFromIdle(s: Pool, k: Key)
    requires Inv(s) && s.free == [] && |s.bufs| == MAX_BUF_COUNT && s.idle != []
    requires Search(s.bufs, s.chains[Hash(k)], k) == |s.chains[Hash(k)]|
    ensures var (t, r) := Bread(s, k);
      && r.Taken? && r.b in s.idle && Missed(s, t, r.b, k)
      && forall c :: c in s.idle && c != r.b ==> s.bufs[r.b].released < s.bufs[c].released
  {
    var b, idle, t := s.idle[|s.idle| - 1], s.idle[..|s.idle| - 1], Bread(s, k).0;
    SearchFinds(s, k);
    IdleIsLoose(s, k, idle);
    MissResult(s, b, k, s.free, idle);
    ChainsFromUsed(s.bufs, s.free, b, Loaded(s.bufs[b], s.disk, k), s.chains);
    MissKeeps(s, t, b, k, s.free, idle);
  }

  /** A buffer that is taken is neither referenced nor dirty, and on no chain once it is unhashed. */
  lemma TakenIsClean(s: Pool)
    requires Inv(s)
    ensures var (t, r) := TakeBuffer(s);
      r.Taken? ==>
        && Chained(t) && r.b < |t.bufs| && t.bufs[r.b].refs == 0 && !t.bufs[r.b].dirty
        && forall j :: 0 <= j < HASH_COUNT ==> r.b !in Unhash(t, r.b).chains[j]
  {
    var t := TakeBuffer(s).0;
    if |s.bufs| < MAX_BUF_COUNT && s.free == [] {
      AllocKeeps(s);
      OffTheChains(Alloc(s), Alloc(s).free[|Alloc(s).free| - 1], t);
    } else if s.free != [] {
      OffTheChains(s, s.free[|s.free| - 1], t);
    } else if s.idle != [] {
      OffTheChains(s, s.idle[|s.idle| - 1], t);
    }
  }

  lemma OffTheChains(s: Pool, b: nat, t: Pool)
    requires Inv(s) && (b in s.free || b in s.idle) && t.bufs == s.bufs && t.chains == s.chains
    ensures b < |s.bufs| && s.bufs[b].refs == 0 && !s.bufs[b].dirty
    ensures forall j :: 0 <= j < HASH_COUNT ==> b !in Unhash(t, b).chains[j]
  {
    assert b in s.idle ==> Used(s.bufs, s.free, b);
    forall j | 0 <= j < HASH_COUNT
      ensures b !in Unhash(t, b).chains[j]
    {
      assert ChainOk(s.bufs, s.free, s.chains[j], j);
      if b in s.chains[j] {
        RemoveHas(s.chains[j], b);
      } else {
        RemoveAbsent(s.chains[j], b);
      }
    }
  }

  // ---------- writing back ----------

  lemma BwriteKeeps(s: Pool, b: nat)
    requires Inv(s) && Used(s.bufs, s.free, b)
    ensures var t := Bwrite(s, b);
      && Inv(t) && SameView(s, t) && !t.bufs[b].dirty && |t.bufs| == |s.bufs|
      && t.free == s.free && t.idle == s.idle && t.chains == s.chains && t.clock == s.clock && t.size == s.size
      && (forall c: nat :: c < |s.bufs| ==> t.bufs[c] == s.bufs[c].(dirty := t.bufs[c].dirty, valid := t.bufs[c].valid))
      && (forall c: nat :: c < |s.bufs| && t.bufs[c].dirty ==> s.bufs[c].dirty)
  {
    var t := Bwrite(s, b);
    ChainsKept(s.bufs, s.free, t.bufs, t.free, s.chains);
    WriteBackView(s, t, b);
  }

  lemma WriteBackView(s: Pool, t: Pool, b: nat)
    requires OnePerBlock(s.bufs, s.free) && OnePerBlock(t.bufs, t.free) && Used(s.bufs, s.free, b)
    requires t == Bwrite(s, b)
    ensures SameView(s, t)
  {
    forall k
      ensures View(t, k) == View(s, k)
    {
      if c: nat :| Caches(s, c, k) {
        assert Caches(t, c, k);
        ViewCached(s, c, k);
        ViewCached(t, c, k);
      } else {
        assert !Caches(s, b, k);
        assert forall c: nat :: !Caches(t, c, k) by {
          forall c: nat
            ensures !Caches(t, c, k)
          {
            assert !Caches(s, c, k);
          }
        }
        ViewUncached(s, k);
        ViewUncached(t, k);
      }
    }
  }
}
