/** The buffer cache of one block size, working in place on its buffers, lists and hash chains. */
module BufferCache {
  import opened BitMath
  import opened Sequences
  import opened BufferPool
  import opened BufferPoolLaws
  import opened BufferPoolTheorems

  /** Pushing one more new buffer. */
  lemma {:induction false} PushNewStep(q: seq<nat>, n: nat, m: nat)
    requires n <= m
    ensures PushNew(q, n, m + 1) == [m] + PushNew(q, n, m)
    decreases m - n
  {
    if n < m {
      PushNewStep([n] + q, n + 1, m);
    }
  }

  /** One assert that fails. */
  function Fault(b: bool): nat { if b then 1 else 0 }

  /** Buffer b, taken and unhashed, stands for block k but does not hold it yet. */
  function Named(t: Pool, b: nat, k: Key): (u: Pool)
    requires Chained(t) && b < |t.bufs|
    ensures b < |u.bufs| && u.bufs[b].key == k && !u.bufs[b].valid
  {
    var t1 := Unhash(t, b).(bufs := t.bufs[b := t.bufs[b].(valid := false)]);
    Rehash(t1, b, k).(bufs := t1.bufs[b := t1.bufs[b].(refs := 1, key := k)])
  }

  lemma NamedThenFilled(t: Pool, b: nat, k: Key)
    requires Chained(t) && b < |t.bufs|
    ensures Fill(Named(t, b, k), b, Named(t, b, k).bufs[b]) ==
      Fill(Rehash(Unhash(t, b), b, k), b, t.bufs[b].(key := k, refs := 1))
  {
  }

  lemma HitIs(s: Pool, k: Key, b: nat, u: Pool)
    requires Chained(s) && Search(s.bufs, s.chains[Hash(k)], k) < |s.chains[Hash(k)]|
    requires b == s.chains[Hash(k)][Search(s.bufs, s.chains[Hash(k)], k)]
    requires u == s.(idle := Remove(s.idle, b), bufs := s.bufs[b := s.bufs[b].(refs := s.bufs[b].refs + 1)])
    ensures u.bufs[b].key == k
    ensures Bread(s, k) == (if u.bufs[b].valid then u else Fill(u, b, u.bufs[b]), Taken(b))
  {
  }

  lemma MissIs(s: Pool, k: Key, t: Pool, r: Taken)
    requires Chained(s) && Search(s.bufs, s.chains[Hash(k)], k) == |s.chains[Hash(k)]|
    requires (t, r) == TakeBuffer(s) && (r.Taken? ==> Chained(t) && r.b < |t.bufs|)
    ensures Bread(s, k) == if r.Nothing? then (t, r)
      else (Fill(Rehash(Unhash(t, r.b), r.b, k), r.b, t.bufs[r.b].(key := k, refs := 1)), r)
  {
  }

  /** A miss is taking a clean buffer, naming it and reading into it. */
  lemma MissByTaking(s: Pool, k: Key, t: Pool, r: Taken)
    requires Inv(s) && Search(s.bufs, s.chains[Hash(k)], k) == |s.chains[Hash(k)]| && (t, r) == TakeBuffer(s)
    ensures r.Nothing? ==> Bread(s, k) == (t, r)
    ensures r.Taken? ==>
      && Chained(t) && r.b < |t.bufs| && t.bufs[r.b].refs == 0 && !t.bufs[r.b].dirty
      && r.b !in Unhash(t, r.b).chains[Hash(k)]
      && Bread(s, k) == (Fill(Named(t, r.b, k), r.b, Named(t, r.b, k).bufs[r.b]), r)
  {
    TakenIsClean(s);
    MissIs(s, k, t, r);
    if r.Taken? {
      NamedThenFilled(t, r.b, k);
    }
  }

  class BufferDesc {
    const size: nat
    var count: nat               // desc->count
    var bufs: seq<Buf>
    var free: seq<nat>           // free_list
    var idle: seq<nat>           // idle_list
    var chains: seq<seq<nat>>    // hash_table
    var disk: map<Key, Data>
    var clock: nat
    var faults: nat              // asserts that failed

    ghost function Abs(): Pool
      reads this`bufs, this`free, this`idle, this`chains, this`disk, this`clock
    {
      Pool(size, bufs, free, idle, chains, disk, clock)
    }

    ghost predicate Valid()
      reads this`bufs, this`free, this`idle, this`chains, this`disk, this`clock, this`count
    {
      Inv(Abs()) && count == |bufs|
    }

    /** `buffer_init` for one size. */
    constructor (sz: nat, device: map<Key, Data>)
      requires sz == 512 || sz == 1024 || sz == 2048 || sz == 4096
      ensures Valid() && size == sz && count == 0 && faults == 0 && disk == device && forall k :: View(Abs(), k) == OnDisk(device, k)
    {
      size, count, bufs, free, idle, clock, faults := sz, 0, [], [], [], 0, 0;
      chains := seq(HASH_COUNT, _ => []);
      disk := device;
      new;
      EmptyPool(Abs());
    }

    /** `get_from_hash_table`: the position in the chain, and off the idle list on a hit. */
    method GetFromHashTable(k: Key) returns (b: Taken)
      requires Valid()
      modifies this`idle
      ensures var q := chains[Hash(k)]; var i := Search(bufs, q, k);
        if i < |q| then b == Taken(q[i]) && idle == Remove(old(idle), q[i]) else b == Nothing && idle == old(idle)
    {
      var q := chains[Hash(k)];
      b := Nothing;
      HashedInRange(Abs());
      var i := 0;
      while i < |q| && bufs[q[i]].key != k
        invariant 0 <= i <= |q| && Search(bufs, q, k) == i + Search(bufs, q[i..], k)
      {
        assert q[i..][1..] == q[i + 1..];
        i := i + 1;
      }
      if i < |q| {
        b := Taken(q[i]);
        var found;
        found, idle := SearchAndDelete(idle, q[i]);
      }
    }

    /** `buffer_alloc`: one more batch of free buffers. */
    method BufferAlloc()
      requires Sized(Abs()) && count == |bufs|
      modifies this`bufs, this`free, this`count
      ensures Abs() == Alloc(old(Abs())) && count == |bufs|
    {
      var n := |bufs|;
      var left := Batch(size);
      while left > 0
        invariant 0 <= left <= Batch(size) && count == |bufs| == n + Batch(size) - left
        invariant bufs == old(bufs) + seq(Batch(size) - left, i => FreshBuf)
        invariant free == PushNew(old(free), n, |bufs|)
      {
        PushNewStep(old(free), n, |bufs|);
        free := [|bufs|] + free;
        bufs := bufs + [FreshBuf];
        count := count + 1;
        left := left - 1;
      }
    }

    /** `get_free_buffer`; Nothing where the original would sleep. */
    method GetFreeBuffer() returns (b: Taken)
      requires Valid()
      modifies this`bufs, this`free, this`idle, this`count, this`chains, this`faults
      ensures count == |bufs| && faults == old(faults)
      ensures var (t, r) := TakeBuffer(old(Abs()));
        && b == r && (r.Nothing? ==> Abs() == t)
        && (r.Taken? ==> r.b < |t.bufs| && Chained(t))
        && (r.Taken? ==> Abs() == Unhash(t, r.b).(bufs := t.bufs[r.b := t.bufs[r.b].(valid := false)]))
    {
      if count < MAX_BUF_COUNT && free == [] {
        AllocKeeps(Abs());
        BufferAlloc();
      }
      assert Inv(Abs());
      if free != [] {
        var x := free[|free| - 1];
        assert x in free;
        free := free[..|free| - 1];
        Recycle(x);
        return Taken(x);
      }
      if idle == [] {
        return Nothing;
      }
      faults := faults + Fault(idle == []);
      var x := idle[|idle| - 1];
      assert x in idle;
      idle := idle[..|idle| - 1];
      Recycle(x);
      b := Taken(x);
    }

    /** Take buffer x off its chain; it no longer holds anything. */
    method Recycle(x: nat)
      requires x < |bufs| && Chained(Abs())
      modifies this`bufs, this`chains
      ensures Abs() == Unhash(old(Abs()), x).(bufs := old(bufs)[x := old(bufs)[x].(valid := false)])
    {
      HashRemove(x);
      bufs := bufs[x := bufs[x].(valid := false)];
    }

    /** `hash_remove`. */
    method HashRemove(x: nat)
      requires x < |bufs| && Chained(Abs())
      modifies this`chains
      ensures Abs() == Unhash(old(Abs()), x)
    {
      var j := Hash(bufs[x].key);
      var found, q := SearchAndDelete(chains[j], x);
      chains := chains[j := q];
    }

    /** `getblk`. */
    method Getblk(k: Key) returns (b: Taken)
      requires Valid()
      modifies this`bufs, this`free, this`idle, this`count, this`chains, this`faults
      ensures count == |bufs| && faults == old(faults)
      ensures b == Bread(old(Abs()), k).1
      ensures b.Nothing? ==> Abs() == Bread(old(Abs()), k).0
      ensures b.Taken? ==> b.b < |bufs| && bufs[b.b].key == k
      ensures b.Taken? ==> Bread(old(Abs()), k).0 == if bufs[b.b].valid then Abs() else Fill(Abs(), b.b, bufs[b.b])
    {
      ghost var s := Abs();
      SearchFinds(s, k);
      b := GetFromHashTable(k);
      if b.Taken? {
        bufs := bufs[b.b := bufs[b.b].(refs := bufs[b.b].refs + 1)];
        HitIs(s, k, b.b, Abs());
        return;
      }
      b := Acquire(k);
    }

    /** The rest of `getblk` when the block is on no chain. */
    method Acquire(k: Key) returns (b: Taken)
      requires Valid() && Search(bufs, chains[Hash(k)], k) == |chains[Hash(k)]|
      modifies this`bufs, this`free, this`idle, this`count, this`chains, this`faults
      ensures count == |bufs| && faults == old(faults)
      ensures b.Nothing? ==> (Abs(), b) == Bread(old(Abs()), k)
      ensures b.Taken? ==> b.b < |bufs| && bufs[b.b].key == k && !bufs[b.b].valid
      ensures b.Taken? ==> (Fill(Abs(), b.b, bufs[b.b]), b) == Bread(old(Abs()), k)
    {
      ghost var (t, r) := TakeBuffer(Abs());
      MissByTaking(Abs(), k, t, r);
      b := GetFreeBuffer();
      if b.Taken? {
        faults := faults + Fault(bufs[b.b].refs != 0) + Fault(bufs[b.b].dirty);
        Assign(b.b, k);
        assert Abs() == Named(t, b.b, k);
      }
    }

    /** The end of `getblk`, with `hash_locate`: buffer b now stands for block k. */
    method Assign(b: nat, k: Key)
      requires b < |bufs| && Chained(Abs()) && b !in chains[Hash(k)]
      modifies this`bufs, this`chains, this`faults
      ensures faults == old(faults)
      ensures Abs() == Rehash(old(Abs()), b, k).(bufs := old(bufs)[b := old(bufs)[b].(refs := 1, key := k)])
    {
      bufs := bufs[b := bufs[b].(refs := 1, key := k)];
      faults := faults + Fault(b in chains[Hash(k)]);
      chains := chains[Hash(k) := [b] + chains[Hash(k)]];
    }

    /** `bread`: the buffer with block k, or Nothing where the original would sleep. */
    method ReadBlock(k: Key) returns (b: Taken)
      requires Valid()
      modifies this`bufs, this`free, this`idle, this`count, this`chains, this`faults
      ensures Valid() && faults == old(faults) && (Abs(), b) == Bread(old(Abs()), k)
      ensures b.Taken? ==> b.b < |bufs| && bufs[b.b].data == View(old(Abs()), k)
      ensures forall m :: View(Abs(), m) == View(old(Abs()), m)
    {
      BreadReads(Abs(), k);
      b := Getblk(k);
      if b.Taken? && !bufs[b.b].valid {
        bufs := bufs[b.b := bufs[b.b].(data := OnDisk(disk, k), valid := true, dirty := false)];
      }
    }

    /** `bwrite`. */
    method WriteBlock(b: nat)
      requires Valid() && Used(bufs, free, b)
      modifies this`bufs, this`disk
      ensures Valid() && Abs() == Bwrite(old(Abs()), b)
    {
      BwriteKeeps(Abs(), b);
      WriteBack(b);
    }

    method WriteBack(b: nat)
      requires b < |bufs|
      modifies this`bufs, this`disk
      ensures Abs() == Bwrite(old(Abs()), b) && |bufs| == |old(bufs)|
    {
      if bufs[b].dirty {
        disk := disk[bufs[b].key := bufs[b].data];
        bufs := bufs[b := bufs[b].(dirty := false, valid := true)];
      }
    }

    /** `brelse` of a buffer that is held. */
    method ReleaseBlock(b: nat)
      requires Valid() && b < |bufs| && bufs[b].refs > 0
      modifies this`bufs, this`disk, this`idle, this`clock, this`faults
      ensures Valid() && faults == old(faults) && Abs() == Brelse(old(Abs()), b)
    {
      BrelseKeeps(Abs(), b);
      assert b !in free;
      WriteBack(b);
      DropReference(b);
    }

    /** The second half of `brelse`. */
    method DropReference(b: nat)
      requires b < |bufs| && b !in free
      modifies this`bufs, this`idle, this`clock, this`faults
      ensures Abs() == Drop(old(Abs()), b) && |bufs| == |old(bufs)| && faults == old(faults)
    {
      var x := bufs[b];
      bufs := bufs[b := x.(refs := x.refs - 1)];
      if x.refs - 1 != 0 {
        return;
      }
      faults := faults + Fault(b in free);
      idle := [b] + idle;
      bufs := bufs[b := bufs[b].(released := clock)];
      clock := clock + 1;
    }

    /** `sync`: afterwards the device holds exactly what the cache showed. */
    method Flush()
      requires Valid()
      modifies this`bufs, this`disk
      ensures Valid() && forall k :: View(Abs(), k) == View(old(Abs()), k)
      ensures forall k :: OnDisk(disk, k) == View(old(Abs()), k)
    {
      SyncWritesEverything(Abs());
      FlushChains();
    }

    /** The loops of `sync`. */
    method FlushChains()
      requires Valid() && InRange(Abs())
      modifies this`bufs, this`disk
      ensures Valid() && Abs() == SyncFrom(old(Abs()), 0)
    {
      if count == 0 {
        NothingToSync(Abs(), 0);
        return;
      }
      ghost var goal := SyncFrom(Abs(), 0);
      var j := 0;
      while j < HASH_COUNT
        invariant 0 <= j <= HASH_COUNT && Valid() && InRange(Abs())
        invariant SyncFrom(Abs(), j) == goal
      {
        FlushChain(j, goal);
        j := j + 1;
      }
    }

    /** The inner loop of `sync`: write back the buffers of chain j. */
    method FlushChain(j: nat, ghost rest: Pool)
      requires Valid() && j < HASH_COUNT && InRange(Abs()) && SyncFrom(Abs(), j) == rest
      modifies this`bufs, this`disk
      ensures Valid() && InRange(Abs()) && SyncFrom(Abs(), j + 1) == rest
    {
      ghost var goal := SyncChain(Abs(), chains[j]);
      var q := chains[j];
      var i := 0;
      while i < |q|
        invariant 0 <= i <= |q| && Valid() && chains == old(chains)
        invariant forall m :: 0 <= m < |q| ==> q[m] < |bufs|
        invariant SyncChain(Abs(), q[i..]) == goal
      {
        assert q[i] in chains[j] && ChainOk(bufs, free, chains[j], j);
        assert q[i..][1..] == q[i + 1..];
        WriteBlock(q[i]);
        i := i + 1;
      }
      HashedInRange(Abs());
    }
  }

  lemma FirstIn(q: seq<nat>)
    ensures q == [] || exists b :: b in q
  {
    if q != [] {
      assert q[0] in q;
    }
  }

  /** A pool without buffers has nothing to write back. */
  lemma {:induction false} NothingToSync(s: Pool, j: nat)
    requires Inv(s) && InRange(s) && s.bufs == [] && j <= HASH_COUNT
    ensures SyncFrom(s, j) == s
    decreases HASH_COUNT - j
  {
    if j < HASH_COUNT {
      FirstIn(s.chains[j]);
      assert ChainOk(s.bufs, s.free, s.chains[j], j);
      NothingToSync(s, j + 1);
    }
  }
}
