/**
  The buffer cache for one block size: buffers are free (never used since they were made), idle
  (released, still hashed) or held. Its operations are given as functions on the pool and the disk.
*/
module BufferPool {
  import opened BitMath
  import opened Sequences

  const HASH_COUNT: nat := 63
  const MAX_BUF_COUNT: nat := 4096
  const BATCH_BYTES: nat := 16384

  type Data = seq<bv8>
  datatype Key = Key(dev: nat, block: nat)

  /** One `buffer_t`; `released` is when it was last put on the idle list. */
  datatype Buf = Buf(key: Key, refs: int, dirty: bool, valid: bool, data: Data, released: nat)

  /** One `bdesc_t`, with the device it speeds up and a clock that counts releases. */
  datatype Pool = Pool(
    size: nat, bufs: seq<Buf>, free: seq<nat>, idle: seq<nat>, chains: seq<seq<nat>>,
    disk: map<Key, Data>, clock: nat)

  /** What the device holds in a block. */
  function OnDisk(disk: map<Key, Data>, k: Key): Data { if k in disk then disk[k] else [] }

  function Hash(k: Key): (j: nat)
    ensures j < HASH_COUNT
  {
    BitXor(k.dev, k.block) % HASH_COUNT
  }

  predicate Chained(s: Pool) { |s.chains| == HASH_COUNT }

  /** The first buffer of the chain for the block, or the length of the chain. */
  function Search(bufs: seq<Buf>, q: seq<nat>, k: Key): (i: nat)
    ensures i <= |q|
    ensures i < |q| ==> q[i] < |bufs| && bufs[q[i]].key == k
    ensures forall j :: 0 <= j < i ==> q[j] < |bufs| ==> bufs[q[j]].key != k
  {
    if q == [] || (q[0] < |bufs| && bufs[q[0]].key == k) then 0
    else
      var i := Search(bufs, q[1..], k);
      assert forall j :: 1 <= j < i + 1 ==> q[j] == q[1..][j - 1];
      i + 1
  }

  /** Buffers n, n+1, ... up to m, each put in front of q. */
  function PushNew(q: seq<nat>, n: nat, m: nat): seq<nat>
    requires n <= m
    decreases m - n
  {
    if n == m then q else PushNew([n] + q, n + 1, m)
  }

  const FreshBuf: Buf := Buf(Key(0, 0), 0, false, false, [], 0)

  function Batch(size: nat): nat { if size == 0 then 0 else BATCH_BYTES / size }

  /** `buffer_alloc`. */
  function Alloc(s: Pool): Pool {
    var n := Batch(s.size);
    s.(bufs := s.bufs + seq(n, i => FreshBuf), free := PushNew(s.free, |s.bufs|, |s.bufs| + n))
  }

  datatype Taken = Nothing | Taken(b: nat)

  /** `get_free_buffer`, up to unhashing: a free buffer, else the one idle longest, else none. */
  function TakeBuffer(s: Pool): (Pool, Taken) {
    var s1 := if |s.bufs| < MAX_BUF_COUNT && s.free == [] then Alloc(s) else s;
    if s1.free != [] then
      (s1.(free := s1.free[..|s1.free| - 1]), Taken(s1.free[|s1.free| - 1]))
    else if s1.idle == [] then (s1, Nothing)
    else (s1.(idle := s1.idle[..|s1.idle| - 1]), Taken(s1.idle[|s1.idle| - 1]))
  }

  function Unhash(s: Pool, b: nat): Pool
    requires Chained(s) && b < |s.bufs|
  {
    var j := Hash(s.bufs[b].key);
    s.(chains := s.chains[j := Remove(s.chains[j], b)])
  }

  function Rehash(s: Pool, b: nat, k: Key): Pool
    requires Chained(s)
  {
    s.(chains := s.chains[Hash(k) := [b] + s.chains[Hash(k)]])
  }

  /** `bread`: the buffer with the block, or Nothing while every buffer is held. */
  function Bread(s: Pool, k: Key): (r: (Pool, Taken))
    requires Chained(s)
    ensures Chained(r.0)
  {
    var q := s.chains[Hash(k)];
    var i := Search(s.bufs, q, k);
    if i < |q| then
      var b := q[i];
      var s1 := s.(idle := Remove(s.idle, b), bufs := s.bufs[b := s.bufs[b].(refs := s.bufs[b].refs + 1)]);
      (if s1.bufs[b].valid then s1 else Fill(s1, b, s1.bufs[b]), Taken(b))
    else
      var (s1, r) := TakeBuffer(s);
      if r.Nothing? || r.b >= |s1.bufs| then (s1, Nothing)
      else
        var was := s1.bufs[r.b];
        var s2 := Rehash(Unhash(s1, r.b), r.b, k);
        (Fill(s2, r.b, was.(key := k, refs := 1)), r)
  }

  /** Read the block from the device into buffer b. */
  function Fill(s: Pool, b: nat, buf: Buf): Pool
    requires b < |s.bufs|
  {
    s.(bufs := s.bufs[b := buf.(data := OnDisk(s.disk, buf.key), valid := true, dirty := false)])
  }

  /** An edit of the data in place, marked dirty. */
  function Edit(s: Pool, b: nat, data: Data): Pool
    requires b < |s.bufs|
  {
    s.(bufs := s.bufs[b := s.bufs[b].(data := data, dirty := true)])
  }

  /** `bwrite`. */
  function Bwrite(s: Pool, b: nat): Pool
    requires b < |s.bufs|
  {
    var x := s.bufs[b];
    if !x.dirty then s
    else s.(disk := s.disk[x.key := x.data], bufs := s.bufs[b := x.(dirty := false, valid := true)])
  }

  /** Give up one reference; with the last one the buffer goes to the front of the idle list. */
  function Drop(s: Pool, b: nat): Pool
    requires b < |s.bufs|
  {
    var x := s.bufs[b];
    if x.refs != 1 then s.(bufs := s.bufs[b := x.(refs := x.refs - 1)])
    else s.(idle := [b] + s.idle, clock := s.clock + 1, bufs := s.bufs[b := x.(refs := 0, released := s.clock)])
  }

  /** `brelse`. */
  function Brelse(s: Pool, b: nat): Pool
    requires b < |s.bufs|
  {
    Drop(Bwrite(s, b), b)
  }

  function SyncChain(s: Pool, q: seq<nat>): (t: Pool)
    requires forall i :: 0 <= i < |q| ==> q[i] < |s.bufs|
    ensures |t.bufs| == |s.bufs| && t.chains == s.chains
    decreases |q|
  {
    if q == [] then s else SyncChain(Bwrite(s, q[0]), q[1..])
  }

  predicate InRange(s: Pool) {
    forall j, i :: 0 <= j < |s.chains| && 0 <= i < |s.chains[j]| ==> s.chains[j][i] < |s.bufs|
  }

  /** `sync` over the chains from j on. */
  function SyncFrom(s: Pool, j: nat): (t: Pool)
    requires InRange(s) && j <= |s.chains|
    ensures |t.bufs| == |s.bufs| && t.chains == s.chains
    decreases |s.chains| - j
  {
    if j == |s.chains| then s else SyncFrom(SyncChain(s, s.chains[j]), j + 1)
  }

  // ---------- invariant ----------

  /** Every buffer is on exactly one of the free and idle lists, or held. */
  ghost predicate Partition(bufs: seq<Buf>, free: seq<nat>, idle: seq<nat>) {
    && Distinct(free) && Distinct(idle)
    && (forall b: nat :: b in free ==> b < |bufs| && b !in idle)
    && (forall b: nat :: b in idle ==> b < |bufs|)
    && (forall b: nat :: 0 <= b < |bufs| ==> bufs[b].refs >= 0 && (bufs[b].refs == 0 <==> b in free || b in idle))
  }

  /** Chain j holds exactly the used buffers whose block hashes to j, each once. */
  ghost predicate ChainOk(bufs: seq<Buf>, free: seq<nat>, q: seq<nat>, j: nat) {
    Distinct(q) && forall b: nat :: b in q <==> b < |bufs| && b !in free && Hash(bufs[b].key) == j
  }

  ghost predicate Hashed(bufs: seq<Buf>, free: seq<nat>, chains: seq<seq<nat>>) {
    |chains| == HASH_COUNT && forall j :: 0 <= j < HASH_COUNT ==> ChainOk(bufs, free, chains[j], j)
  }

  ghost predicate Used(bufs: seq<Buf>, free: seq<nat>, b: nat) { b < |bufs| && b !in free }

  /** At most one used buffer per block. */
  ghost predicate OnePerBlock(bufs: seq<Buf>, free: seq<nat>) {
    forall b: nat, c: nat :: Used(bufs, free, b) && Used(bufs, free, c) && bufs[b].key == bufs[c].key ==> b == c
  }

  /** Used buffers are valid; a clean one equals the disk and only a held one is dirty. */
  ghost predicate Coherent(bufs: seq<Buf>, free: seq<nat>, disk: map<Key, Data>) {
    forall b: nat :: Used(bufs, free, b) ==>
      && bufs[b].valid && (bufs[b].dirty ==> bufs[b].refs > 0)
      && (bufs[b].dirty || bufs[b].data == OnDisk(disk, bufs[b].key))
  }

  /** The idle list is in order of release, latest first. */
  ghost predicate Aged(bufs: seq<Buf>, idle: seq<nat>, clock: nat) {
    && (forall i :: 0 <= i < |idle| ==> idle[i] < |bufs| && bufs[idle[i]].released < clock)
    && (forall i, j :: 0 <= i < j < |idle| ==> bufs[idle[i]].released > bufs[idle[j]].released)
  }

  /** The pool grows in whole batches and never beyond the maximum. */
  ghost predicate Sized(s: Pool) {
    && (s.size == 512 || s.size == 1024 || s.size == 2048 || s.size == 4096)
    && |s.bufs| <= MAX_BUF_COUNT && |s.bufs| % Batch(s.size) == 0
  }

  /** A free buffer has never been written to. */
  ghost predicate Pristine(bufs: seq<Buf>, free: seq<nat>) {
    forall b: nat :: b in free && b < |bufs| ==> !bufs[b].dirty
  }

  ghost predicate Inv(s: Pool) {
    && Partition(s.bufs, s.free, s.idle) && Pristine(s.bufs, s.free)
    && Hashed(s.bufs, s.free, s.chains) && OnePerBlock(s.bufs, s.free)
    && Coherent(s.bufs, s.free, s.disk) && Aged(s.bufs, s.idle, s.clock) && Sized(s)
  }

  ghost predicate Caches(s: Pool, b: nat, k: Key) { Used(s.bufs, s.free, b) && s.bufs[b].key == k }

  /** What the cache and the disk together hold in a block. */
  ghost function View(s: Pool, k: Key): Data {
    if exists b: nat :: Caches(s, b, k) then var b: nat :| Caches(s, b, k); s.bufs[b].data else OnDisk(s.disk, k)
  }
}
