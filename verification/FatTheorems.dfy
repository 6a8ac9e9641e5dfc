/** Writing and reading files: chains stay disjoint and ended, and what was written is read back. */
module FatTheorems {
  import opened Sequences
  import opened Fat
  import opened FatLaws

  // ---------- the write loop ----------

  /** What the clusters hold before the write: nothing if they are blank. */
  function Base(d: Disk, t: seq<nat>, blank: bool): Bytes {
    if blank then Zeros(d.bpc) else Flat(d, t)
  }

  /** Outside the chain t and the clusters taken, nothing changed; those taken were free. */
  ghost predicate Untouched(d: Disk, e: Disk, t: seq<nat>, news: seq<nat>) {
    && (forall c: nat :: c in news ==> Entry(d, c) == 0)
    && (forall c: nat :: c !in t && c !in news ==> Entry(e, c) == Entry(d, c) && Cluster(e, c) == Cluster(d, c))
  }

  /** Clusters `news` were added to the chain t; the table is in order. */
  ghost predicate Chained(d: Disk, t: seq<nat>, e: Disk, news: seq<nat>) {
    && TableOk(e) && e.bpc == d.bpc && |d.fats| > 0 && |e.fats[0]| == |d.fats[0]|
    && Linked(e, t + news) && Untouched(d, e, t, news)
  }

  /** `now` is `was`, extended by z, with buf laid over it at an offset. */
  ghost predicate Held(was: Bytes, z: Bytes, offset: nat, buf: Bytes, now: Bytes) {
    offset + |buf| <= |was + z| && now == Overwrite(was + z, offset, buf)
  }

  /** The write at an offset of chain t stored buf, on clusters `news` added to the chain. */
  ghost predicate Stored(d: Disk, t: seq<nat>, offset: nat, buf: Bytes, blank: bool, e: Disk, news: seq<nat>) {
    Chained(d, t, e, news) && Held(Base(d, t, blank), Room(d.bpc, |news|), offset, buf, Flat(e, t + news))
  }

  lemma PutKeeps(d: Disk, c: nat, offset: nat, buf: Bytes, blank: bool)
    requires TableOk(d) && offset < d.bpc
    ensures var e := PutCluster(d, c, offset, buf, blank);
      && TableOk(e) && (forall k: nat :: Entry(e, k) == Entry(d, k))
      && (forall k: nat :: k != c ==> Cluster(e, k) == Cluster(d, k))
      && Cluster(e, c) == Overwrite(if blank then Zeros(d.bpc) else Cluster(d, c), offset, buf[..Min(|buf|, d.bpc - offset)])
  {
  }

  /** The whole of buf fits into the first cluster. */
  lemma StoreHere(d: Disk, t: seq<nat>, offset: nat, buf: Bytes, blank: bool)
    requires TableOk(d) && Linked(d, t) && offset + |buf| <= d.bpc && offset < d.bpc && (blank ==> |t| == 1)
    ensures Stored(d, t, offset, buf, blank, PutCluster(d, t[0], offset, buf, blank), [])
  {
    var e := PutCluster(d, t[0], offset, buf, blank);
    PutKeeps(d, t[0], offset, buf, blank);
    LinkedSame(d, e, t);
    assert t + [] == t;
    assert buf[..|buf|] == buf;
    TailHas(t);
    HereHeld(d, t, offset, buf, blank, e, if blank then Zeros(d.bpc) else Cluster(d, t[0]));
  }

  lemma HereHeld(d: Disk, t: seq<nat>, offset: nat, buf: Bytes, blank: bool, e: Disk, was: Bytes)
    requires t != [] && t[0] !in t[1..] && offset + |buf| <= |was| && (blank ==> |t| == 1)
    requires was == (if blank then Zeros(d.bpc) else Cluster(d, t[0])) && Cluster(e, t[0]) == Overwrite(was, offset, buf)
    requires forall k: nat :: k != t[0] ==> Cluster(e, k) == Cluster(d, k)
    ensures Held(Base(d, t, blank), Room(d.bpc, 0), offset, buf, Flat(e, t))
  {
    FlatSame(d, e, t[1..]);
    FlatCons(d, t, t[1..]);
    FlatCons(e, t, t[1..]);
    OverwriteLeft(was, Flat(d, t[1..]), offset, buf);
    assert Base(d, t, blank) + Room(d.bpc, 0) == was + Flat(d, t[1..]);
  }

  /** The bytes of a chain whose first cluster was filled and whose rest was written. */
  lemma OnBytes(was: Bytes, rest: Bytes, all: Bytes, z: Bytes, offset: nat, buf: Bytes,
      first: Bytes, now: Bytes, allNow: Bytes)
    requires offset < |was| && |buf| > |was| - offset && all == was + rest && allNow == first + now
    requires first == Overwrite(was, offset, buf[..|was| - offset]) && Held(rest, z, 0, buf[|was| - offset..], now)
    ensures Held(all, z, offset, buf, allNow)
  {
    var n := |was| - offset;
    assert buf == buf[..n] + buf[n..];
    OverwriteSplit(was, rest + z, offset, buf[..n], buf[n..]);
    assert (was + rest) + z == was + (rest + z);
  }

  lemma OnChain(d: Disk, t: seq<nat>, d1: Disk, e: Disk, news: seq<nat>)
    requires Linked(d, t) && |t| > 1 && Chained(d1, t[1..], e, news)
    requires d1.bpc == d.bpc && |d.fats| > 0 && |d1.fats[0]| == |d.fats[0]|
    requires forall k: nat :: Entry(d1, k) == Entry(d, k)
    requires forall k: nat :: k != t[0] ==> Cluster(d1, k) == Cluster(d, k)
    ensures Chained(d, t, e, news) && Cluster(e, t[0]) == Cluster(d1, t[0])
  {
    LinkedTail(d, t);
    LinkedTaken(d, t);
    assert t[0] in t && t[0] !in news;
    assert t + news == [t[0]] + (t[1..] + news);
    LinkedJoin(e, [t[0]], t[1..] + news);
    assert t == [t[0]] + t[1..];
  }

  /** The first cluster is filled and the write goes on in the next one of the chain. */
  lemma StoreOn(d: Disk, t: seq<nat>, offset: nat, buf: Bytes, d1: Disk, e: Disk, news: seq<nat>)
    requires TableOk(d) && Linked(d, t) && |t| > 1 && offset < d.bpc && |buf| > d.bpc - offset
    requires d1 == PutCluster(d, t[0], offset, buf, false)
    requires Stored(d1, t[1..], 0, buf[d.bpc - offset..], false, e, news)
    ensures Stored(d, t, offset, buf, false, e, news)
  {
    PutKeeps(d, t[0], offset, buf, false);
    OnChain(d, t, d1, e, news);
    LinkedTail(d, t);
    FlatSame(d, d1, t[1..]);
    OnHeld(d, t, offset, buf, e, news, Room(d.bpc, |news|));
  }

  lemma OnHeld(d: Disk, t: seq<nat>, offset: nat, buf: Bytes, e: Disk, news: seq<nat>, z: Bytes)
    requires t != [] && offset < d.bpc && |buf| > d.bpc - offset
    requires Cluster(e, t[0]) == Overwrite(Cluster(d, t[0]), offset, buf[..d.bpc - offset])
    requires Held(Flat(d, t[1..]), z, 0, buf[d.bpc - offset..], Flat(e, t[1..] + news))
    ensures Held(Flat(d, t), z, offset, buf, Flat(e, t + news))
  {
    FlatCons(d, t, t[1..]);
    ConsAppend(t, news);
    FlatCons(e, t + news, t[1..] + news);
    OnBytes(Cluster(d, t[0]), Flat(d, t[1..]), Flat(d, t), z, offset, buf,
      Cluster(e, t[0]), Flat(e, t[1..] + news), Flat(e, t + news));
  }

  lemma ConsAppend(t: seq<nat>, news: seq<nat>)
    requires t != []
    ensures (t + news)[0] == t[0] && (t + news)[1..] == t[1..] + news
  {
  }

  lemma FlatCons(d: Disk, t: seq<nat>, rest: seq<nat>)
    requires t != [] && t[1..] == rest
    ensures Flat(d, t) == Cluster(d, t[0]) + Flat(d, rest)
  {
  }

  /** The first cluster is the last one: a free one is linked behind it and the write goes on there. */
  lemma StoreMore(d: Disk, c: nat, offset: nat, buf: Bytes, blank: bool, n: nat, d2: Disk, e: Disk, news: seq<nat>)
    requires TableOk(d) && Linked(d, [c]) && offset < d.bpc && |buf| > d.bpc - offset
    requires n != c && Entry(d, n) == 0 && 2 <= n < |d.fats[0]|
    requires d2 == SetEntry(SetEntry(PutCluster(d, c, offset, buf, blank), c, n), n, EOC)
    requires Stored(d2, [n], 0, buf[d.bpc - offset..], true, e, news)
    ensures Stored(d, [c], offset, buf, blank, e, [n] + news)
  {
    Grown(d, c, offset, buf, blank, n, d2);
    assert [c][0] == c;
    assert c !in news && c !in [n] + news;
    LinkedJoin(e, [c], [n] + news);
    assert forall k: nat :: k in [n] + news ==> Entry(d, k) == 0;
    assert Untouched(d, e, [c], [n] + news);
    StoredBytes(d, c, offset, buf, blank, n, e, news);
  }

  lemma StoredBytes(d: Disk, c: nat, offset: nat, buf: Bytes, blank: bool, n: nat, e: Disk, news: seq<nat>)
    requires offset < d.bpc && |buf| > d.bpc - offset
    requires Cluster(e, c) == Overwrite(if blank then Zeros(d.bpc) else Cluster(d, c), offset, buf[..d.bpc - offset])
    requires Held(Zeros(d.bpc), Room(d.bpc, |news|), 0, buf[d.bpc - offset..], Flat(e, [n] + news))
    ensures Held(Base(d, [c], blank), Room(d.bpc, |[n] + news|), offset, buf, Flat(e, [c] + ([n] + news)))
  {
    var was := if blank then Zeros(d.bpc) else Cluster(d, c);
    assert ([c] + ([n] + news))[1..] == [n] + news;
    FlatOne(d, c);
    OneMoreCluster(was, d.bpc, |news|, offset, buf);
  }

  /** The table with n linked behind c. */
  lemma Grown(d: Disk, c: nat, offset: nat, buf: Bytes, blank: bool, n: nat, d2: Disk)
    requires TableOk(d) && Linked(d, [c]) && offset < d.bpc
    requires n != c && Entry(d, n) == 0 && 2 <= n < |d.fats[0]|
    requires d2 == SetEntry(SetEntry(PutCluster(d, c, offset, buf, blank), c, n), n, EOC)
    ensures TableOk(d2) && d2.bpc == d.bpc && |d2.fats[0]| == |d.fats[0]| && Linked(d2, [n])
    ensures forall k: nat :: Entry(d2, k) == if k == n then EOC else if k == c then n else Entry(d, k)
    ensures forall k: nat :: k != c ==> Cluster(d2, k) == Cluster(d, k)
    ensures Cluster(d2, c) ==
      Overwrite(if blank then Zeros(d.bpc) else Cluster(d, c), offset, buf[..Min(|buf|, d.bpc - offset)])
    ensures FreeCount(d, |d.fats[0]|) == FreeCount(d2, |d.fats[0]|) + 1
  {
    var d1 := PutCluster(d, c, offset, buf, blank);
    PutKeeps(d, c, offset, buf, blank);
    assert [c][0] == c;
    LinkBehind(d1, c, n);
    FreeCountTaken(d, d2, n, |d.fats[0]|);
  }

  /** One turn of the loop of `FAT32_write`, as an equation. */
  lemma WriteTurn(d: Disk, c: nat, offset: nat, buf: Bytes, blank: bool)
    requires TableOk(d) && offset < d.bpc && 2 <= c < |d.fats[0]| && |buf| > d.bpc - offset
    ensures var d1 := PutCluster(d, c, offset, buf, blank); var rest := buf[d.bpc - offset..];
      && (Entry(d, c) < EOC && Entry(d, c) < |d.fats[0]| ==>
          WriteLoop(d, c, offset, buf, blank) == WriteLoop(d1, Entry(d, c), 0, rest, blank))
      && (Entry(d, c) >= EOC && FindFree(d1, 0) < |d.fats[0]| ==>
          var n := FindFree(d1, 0);
          WriteLoop(d, c, offset, buf, blank) == WriteLoop(SetEntry(SetEntry(d1, c, n), n, EOC), n, 0, rest, true))
  {
    PutKeeps(d, c, offset, buf, blank);
  }

  /** The write goes on in the next cluster of the chain. */
  lemma GoOn(d: Disk, t: seq<nat>, offset: nat, buf: Bytes) returns (d1: Disk)
    requires TableOk(d) && Linked(d, t) && |t| > 1 && offset < d.bpc && |buf| > d.bpc - offset
    requires Need(d.bpc, |t|, offset, |buf|) <= FreeCount(d, |d.fats[0]|)
    ensures d1 == PutCluster(d, t[0], offset, buf, false) && TableOk(d1) && Linked(d1, t[1..])
    ensures Need(d1.bpc, |t[1..]|, 0, |buf[d.bpc - offset..]|) == Need(d.bpc, |t|, offset, |buf|) <= FreeCount(d1, |d1.fats[0]|)
    ensures WriteLoop(d, t[0], offset, buf, false) == WriteLoop(d1, t[1..][0], 0, buf[d.bpc - offset..], false)
  {
    d1 := PutCluster(d, t[0], offset, buf, false);
    PutKeeps(d, t[0], offset, buf, false);
    FreeCountSame(d, d1, |d.fats[0]|);
    WriteTurn(d, t[0], offset, buf, false);
    LinkedTail(d, t);
    LinkedSame(d, d1, t[1..]);
    LinkedTaken(d, t);
  }

  /** The write goes on in a free cluster linked behind the last one. */
  lemma TakeOne(d: Disk, c: nat, offset: nat, buf: Bytes, blank: bool) returns (n: nat, d2: Disk)
    requires TableOk(d) && Linked(d, [c]) && offset < d.bpc && |buf| > d.bpc - offset
    requires Need(d.bpc, 1, offset, |buf|) <= FreeCount(d, |d.fats[0]|)
    ensures n != c && Entry(d, n) == 0 && 2 <= n < |d.fats[0]|
    ensures d2 == SetEntry(SetEntry(PutCluster(d, c, offset, buf, blank), c, n), n, EOC)
    ensures TableOk(d2) && Linked(d2, [n])
    ensures Need(d2.bpc, 1, 0, |buf[d.bpc - offset..]|) == Need(d.bpc, 1, offset, |buf|) - 1 <= FreeCount(d2, |d2.fats[0]|)
    ensures WriteLoop(d, c, offset, buf, blank) == WriteLoop(d2, n, 0, buf[d.bpc - offset..], true)
  {
    var d1 := PutCluster(d, c, offset, buf, blank);
    PutKeeps(d, c, offset, buf, blank);
    FreeCountSame(d, d1, |d.fats[0]|);
    WriteTurn(d, c, offset, buf, blank);
    assert [c][0] == c;
    FindsFree(d1);
    n := FindFree(d1, 0);
    d2 := SetEntry(SetEntry(d1, c, n), n, EOC);
    Grown(d, c, offset, buf, blank, n, d2);
  }

  lemma {:induction false} WriteStores(d: Disk, t: seq<nat>, offset: nat, buf: Bytes, blank: bool)
    returns (news: seq<nat>)
    requires TableOk(d) && Linked(d, t) && offset < d.bpc && (blank ==> |t| == 1)
    requires Need(d.bpc, |t|, offset, |buf|) <= FreeCount(d, |d.fats[0]|)
    ensures var (e, ok) := WriteLoop(d, t[0], offset, buf, blank); ok && Stored(d, t, offset, buf, blank, e, news)
    ensures |news| == Need(d.bpc, |t|, offset, |buf|)
    decreases |buf|
  {
    if |buf| <= d.bpc - offset {
      news := [];
      StoreHere(d, t, offset, buf, blank);
    } else if |t| > 1 {
      var d1 := GoOn(d, t, offset, buf);
      news := WriteStores(d1, t[1..], 0, buf[d.bpc - offset..], false);
      StoreOn(d, t, offset, buf, d1, WriteLoop(d, t[0], offset, buf, false).0, news);
    } else {
      assert t == [t[0]];
      var n, d2 := TakeOne(d, t[0], offset, buf, blank);
      var more := WriteStores(d2, [n], 0, buf[d.bpc - offset..], true);
      StoreMore(d, t[0], offset, buf, blank, n, d2, WriteLoop(d, t[0], offset, buf, blank).0, more);
      news := [n] + more;
    }
  }

  // ---------- the read loop ----------

  lemma {:induction false} ReadSlice(d: Disk, t: seq<nat>, offset: nat, n: nat)
    requires Linked(d, t) && offset < d.bpc && offset + n <= |Flat(d, t)|
    ensures ReadLoop(d, t[0], offset, n) == Flat(d, t)[offset..offset + n]
    decreases n
  {
    var len := Min(n, d.bpc - offset);
    var first, rest := Cluster(d, t[0]), Flat(d, t[1..]);
    if n > len {
      assert t[1..] != [];
      LinkedTail(d, t);
      LinkedTaken(d, t);
      ReadSlice(d, t[1..], 0, n - len);
      SliceAcross(first, rest, offset, n);
    } else {
      SliceLeft(first, rest, offset, n);
    }
  }

  lemma SliceLeft(a: Bytes, b: Bytes, o: nat, n: nat)
    requires o + n <= |a|
    ensures (a + b)[o..o + n] == a[o..o + n]
  {
  }

  lemma SliceAcross(a: Bytes, b: Bytes, o: nat, n: nat)
    requires o < |a| <= o + n <= |a| + |b|
    ensures (a + b)[o..o + n] == a[o..|a|] + b[0..n - (|a| - o)]
  {
  }

  lemma SliceRight(a: Bytes, b: Bytes, o: nat, n: nat)
    requires o + n <= |b|
    ensures (a + b)[|a| + o..|a| + o + n] == b[o..o + n]
  {
  }

  // ---------- files ----------

  /** The clusters before position p hold the bytes before its cluster. */
  lemma Divide(d: Disk, q: seq<nat>, p: nat)
    requires d.bpc > 0 && p < |Flat(d, q)|
    ensures ClusterAt(p, d.bpc) < |q| && |Flat(d, q[..ClusterAt(p, d.bpc)])| + OffsetAt(p, d.bpc) == p
  {
    FlatLength(d, q);
    BelowProduct(p, |q|, d.bpc);
    FlatLength(d, q[..ClusterAt(p, d.bpc)]);
  }

  /** The position p lies in cluster p / b of the chain. */
  lemma Locate(d: Disk, q: seq<nat>, p: nat)
    requires d.bpc > 0 && Linked(d, q) && p < |Flat(d, q)|
    ensures var k := ClusterAt(p, d.bpc);
      && k < |q| && Walk(d, q[0], k) == q[k] && Linked(d, q[k..]) && q[k..][0] == q[k]
      && Flat(d, q) == Flat(d, q[..k]) + Flat(d, q[k..]) && |Flat(d, q[..k])| + OffsetAt(p, d.bpc) == p
  {
    Divide(d, q, p);
    ChainAt(d, q, ClusterAt(p, d.bpc));
  }

  lemma ChainAt(d: Disk, q: seq<nat>, k: nat)
    requires Linked(d, q) && k < |q|
    ensures Walk(d, q[0], k) == q[k] && Linked(d, q[k..]) && q[k..][0] == q[k]
    ensures Flat(d, q) == Flat(d, q[..k]) + Flat(d, q[k..])
  {
    WalkChain(d, q, k);
    LinkedFrom(d, q, k);
    assert q == q[..k] + q[k..];
    FlatAppend(d, q[..k], q[k..]);
  }

  lemma BelowProduct(p: nat, n: nat, b: nat)
    requires b > 0 && p < n * b
    ensures ClusterAt(p, b) < n && ClusterAt(p, b) * b + OffsetAt(p, b) == p
  {
    if ClusterAt(p, b) >= n {
      Monotone(n, ClusterAt(p, b), b);
    }
  }

  lemma Monotone(m: nat, n: nat, b: nat)
    requires m <= n
    ensures m * b <= n * b
  {
  }

  /** Room for the write: inside an allocated cluster, or in the first cluster of an empty file. */
  ghost predicate Fits(v: Volume, chains: Chains, f: nat, position: nat, len: nat)
    requires TableOk(v.disk) && f in v.files && f in chains
  {
    var d, q := v.disk, chains[f];
    var free := FreeBytes(d, |d.fats[0]|);
    if v.files[f].first == 0 then position < d.bpc && position + len <= free && free > 0
    else position < |Flat(d, q)| && position + len <= |Flat(d, q)| + free
  }

  /** A write that fits finds its clusters. */
  lemma FitsNeeds(d: Disk, q: seq<nat>, p: nat, len: nat)
    requires d.bpc > 0 && |d.fats| > 0 && p < |Flat(d, q)| && p + len <= |Flat(d, q)| + FreeBytes(d, |d.fats[0]|)
    ensures ClusterAt(p, d.bpc) < |q|
    ensures Need(d.bpc, |q| - ClusterAt(p, d.bpc), OffsetAt(p, d.bpc), len) <= FreeCount(d, |d.fats[0]|)
  {
    FlatLength(d, q);
    FreeBytesCount(d, |d.fats[0]|);
    Distribute(|q|, FreeCount(d, |d.fats[0]|), d.bpc);
    BelowProduct(p, |q|, d.bpc);
    NeedFrom(d.bpc, |q|, ClusterAt(p, d.bpc), OffsetAt(p, d.bpc), p, len, FreeCount(d, |d.fats[0]|));
  }

  lemma Distribute(a: nat, b: nat, c: nat)
    ensures (a + b) * c == a * c + b * c
  {
  }

  /** Need of a write from offset o of cluster k of a chain of n clusters. */
  lemma NeedFrom(bpc: nat, n: nat, k: nat, o: nat, p: nat, len: nat, free: nat)
    requires o < bpc && k < n && k * bpc + o == p && p + len <= (n + free) * bpc
    ensures Need(bpc, n - k, o, len) <= free
  {
    NeedMeans(bpc, n - k, o, len, free);
    Distribute(n - k + free, k, bpc);
  }

  /** File f now has the chain q, made of its old clusters and formerly free ones. */
  ghost predicate FileChained(v: Volume, chains: Chains, f: nat, size: nat, w: Volume, q: seq<nat>)
    requires |v.disk.fats| > 0 && f in v.files && f in chains
  {
    var d, e, x := v.disk, w.disk, v.files[f];
    && TableOk(e) && e.bpc == d.bpc && |e.fats[0]| == |d.fats[0]| && Linked(e, q)
    && w.files == v.files[f := File(q[0], Max(x.size, size))]
    && (forall c :: c in q && c !in chains[f] ==> Entry(d, c) == 0)
    && (forall c: nat :: c !in q ==> Entry(e, c) == Entry(d, c) && Cluster(e, c) == Cluster(d, c))
  }

  /** What file f's clusters hold before the write. */
  function Before(v: Volume, chains: Chains, f: nat): Bytes
    requires f in v.files && f in chains
  {
    if v.files[f].first == 0 then Zeros(v.disk.bpc) else Flat(v.disk, chains[f])
  }

  /** The volume with the write at position p of file f stored: q is its chain, extended by `more` clusters. */
  ghost predicate FileStored(v: Volume, chains: Chains, f: nat, p: nat, buf: Bytes, w: Volume, q: seq<nat>, more: nat)
    requires |v.disk.fats| > 0 && f in v.files && f in chains
  {
    && FileChained(v, chains, f, p + |buf|, w, q)
    && Held(Before(v, chains, f), Room(v.disk.bpc, more), p, buf, Flat(w.disk, q))
  }

  lemma WriteIs(v: Volume, f: nat, p: nat, k: nat, o: nat, buf: Bytes, c: nat, e: Disk)
    requires WholeSectors(v.disk) && v.disk.bpc > 0 && f in v.files && v.files[f].first != 0
    requires k == ClusterAt(p, v.disk.bpc) && o == OffsetAt(p, v.disk.bpc) < v.disk.bpc
    requires c == Walk(v.disk, v.files[f].first, k) < |v.disk.fats[0]| && WriteLoop(v.disk, c, o, buf, false) == (e, true)
    ensures Write(v, f, p, buf) ==
      Written(Volume(e, v.files[f := File(v.files[f].first, Max(v.files[f].size, p + |buf|))]), p + |buf|, true)
  {
  }

  /** A write into a file that has clusters, at offset o of cluster k. */
  lemma WriteGrown(v: Volume, chains: Chains, f: nat, p: nat, k: nat, o: nat, buf: Bytes)
    returns (q: seq<nat>, more: nat)
    requires TableOk(v.disk) && f in v.files && f in chains && v.files[f].first != 0
    requires FileOk(v.disk, v.files[f], chains[f]) && k < |chains[f]| && o < v.disk.bpc
    requires k == ClusterAt(p, v.disk.bpc) && o == OffsetAt(p, v.disk.bpc) && |Flat(v.disk, chains[f][..k])| + o == p
    requires Need(v.disk.bpc, |chains[f]| - k, o, |buf|) <= FreeCount(v.disk, |v.disk.fats[0]|)
    ensures var w := Write(v, f, p, buf);
      w.ok && w.position == p + |buf| && FileStored(v, chains, f, p, buf, w.volume, q, more)
    ensures chains[f] <= q && |q| == |chains[f]| + more && more == Need(v.disk.bpc, |chains[f]| - k, o, |buf|)
  {
    var e, news := StoreFrom(v.disk, chains[f], k, o, p, buf);
    q, more := chains[f] + news, |news|;
    GrownChained(v, chains, f, p + |buf|, k, e, news);
    WriteIs(v, f, p, k, o, buf, chains[f][k], e);
  }

  lemma GrownFewest(d: Disk, chain: seq<nat>, k: nat, o: nat, p: nat, len: nat, q: seq<nat>)
    requires k < |chain| && o < d.bpc && p == |Flat(d, chain[..k])| + o
    requires chain <= q && |q| == |chain| + Need(d.bpc, |chain| - k, o, len)
    ensures TakesFewest(chain, q, d.bpc, p + len)
  {
    FlatLength(d, chain[..k]);
    if |q| > |chain| {
      NeedIsFewest(d.bpc, |chain|, k, o, p, len, |q| - |chain|);
    }
  }

  /** The chain goes on as it was, and is longer only if the write would not have fitted into one cluster less. */
  predicate TakesFewest(old0: seq<nat>, q: seq<nat>, bpc: nat, end: nat) {
    |q| >= 1 && old0 <= q && (|q| > |old0| && |q| > 1 ==> (|q| - 1) * bpc < end)
  }

  lemma NeedIsFewest(bpc: nat, n: nat, k: nat, o: nat, p: nat, len: nat, m: nat)
    requires o < bpc && k < n && k * bpc + o == p && m == Need(bpc, n - k, o, len) && m > 0
    ensures (n + m - 1) * bpc < p + len
  {
    NeedMeans(bpc, n - k, o, len, m - 1);
    Distribute(n - k + (m - 1), k, bpc);
  }

  /** The write loop from offset o of cluster k of a chain. */
  lemma StoreFrom(d: Disk, q0: seq<nat>, k: nat, o: nat, p: nat, buf: Bytes) returns (e: Disk, news: seq<nat>)
    requires TableOk(d) && Linked(d, q0) && k < |q0| && o < d.bpc && p == |Flat(d, q0[..k])| + o
    requires Need(d.bpc, |q0| - k, o, |buf|) <= FreeCount(d, |d.fats[0]|)
    ensures Walk(d, q0[0], k) == q0[k] < |d.fats[0]|
    ensures WriteLoop(d, q0[k], o, buf, false) == (e, true) && Chained(d, q0[k..], e, news)
    ensures Held(Flat(d, q0), Room(d.bpc, |news|), p, buf, Flat(e, q0 + news))
    ensures |news| == Need(d.bpc, |q0| - k, o, |buf|)
  {
    ChainAt(d, q0, k);
    news := WriteStores(d, q0[k..], o, buf, false);
    e := WriteLoop(d, q0[k], o, buf, false).0;
    GrownBytes(d, q0, k, o, p, buf, e, news, Room(d.bpc, |news|));
  }

  lemma GrownChained(v: Volume, chains: Chains, f: nat, size: nat, k: nat, e: Disk, news: seq<nat>)
    requires f in v.files && f in chains && v.files[f].first != 0 && |v.disk.fats| > 0
    requires FileOk(v.disk, v.files[f], chains[f]) && k < |chains[f]|
    requires Chained(v.disk, chains[f][k..], e, news)
    ensures FileChained(v, chains, f, size,
      Volume(e, v.files[f := File(v.files[f].first, Max(v.files[f].size, size))]), chains[f] + news)
  {
    PrefixLinked(v.disk, chains[f], k, e, news);
    assert (chains[f] + news)[0] == chains[f][0];
  }

  /** The bytes of the whole chain after a write from cluster k on. */
  lemma GrownBytes(d: Disk, q0: seq<nat>, k: nat, o: nat, p: nat, buf: Bytes, e: Disk, news: seq<nat>, z: Bytes)
    requires Linked(d, q0) && k < |q0| && Untouched(d, e, q0[k..], news) && p == |Flat(d, q0[..k])| + o
    requires Held(Flat(d, q0[k..]), z, o, buf, Flat(e, q0[k..] + news))
    ensures Held(Flat(d, q0), z, p, buf, Flat(e, q0 + news))
  {
    GrownFlat(d, q0, k, e, news);
    JoinBytes(Flat(d, q0[..k]), Flat(d, q0[k..]), z, o, buf, Flat(e, q0[k..] + news),
      Flat(d, q0), p, Flat(e, q0 + news));
  }

  /** The clusters before the write still lead to it. */
  lemma PrefixLinked(d: Disk, q0: seq<nat>, k: nat, e: Disk, news: seq<nat>)
    requires Linked(d, q0) && k < |q0| && Chained(d, q0[k..], e, news)
    ensures Linked(e, q0 + news)
    ensures forall c :: c in q0 + news && c !in q0 ==> Entry(d, c) == 0
    ensures forall c: nat :: c !in q0 + news ==> Entry(e, c) == Entry(d, c) && Cluster(e, c) == Cluster(d, c)
  {
    var a, t := q0[..k], q0[k..];
    assert q0 == a + t;
    PrefixApart(d, q0, k, news);
    assert t[0] == q0[k];
    LinkedJoin(e, a, t + news);
    assert a + (t + news) == q0 + news;
  }

  lemma JoinBytes(a: Bytes, t: Bytes, z: Bytes, o: nat, buf: Bytes, now: Bytes, all: Bytes, p: nat, allNow: Bytes)
    requires Held(t, z, o, buf, now) && all == a + t && p == |a| + o && allNow == a + now
    ensures Held(all, z, p, buf, allNow)
  {
    assert a + (t + z) == (a + t) + z;
    OverwriteRight(a, t + z, o, buf);
  }

  /** The clusters before the write hold what they held. */
  lemma GrownFlat(d: Disk, q0: seq<nat>, k: nat, e: Disk, news: seq<nat>)
    requires Linked(d, q0) && k < |q0| && Untouched(d, e, q0[k..], news)
    ensures Flat(d, q0) == Flat(d, q0[..k]) + Flat(d, q0[k..])
    ensures Flat(e, q0 + news) == Flat(d, q0[..k]) + Flat(e, q0[k..] + news)
  {
    PrefixKept(d, q0, k, e, news);
    Parts(q0, k, news);
    PrefixSame(d, q0[..k], q0[k..], q0, e, q0[k..] + news, q0 + news);
  }

  lemma Parts(q: seq<nat>, k: nat, news: seq<nat>)
    requires k < |q|
    ensures q == q[..k] + q[k..] && q + news == q[..k] + (q[k..] + news)
  {
  }

  lemma PrefixKept(d: Disk, q0: seq<nat>, k: nat, e: Disk, news: seq<nat>)
    requires Linked(d, q0) && k < |q0| && Untouched(d, e, q0[k..], news)
    ensures forall c: nat :: c in q0[..k] ==> Cluster(e, c) == Cluster(d, c)
  {
    PrefixApart(d, q0, k, news);
  }

  lemma PrefixSame(d: Disk, a: seq<nat>, t: seq<nat>, q0: seq<nat>, e: Disk, t1: seq<nat>, q1: seq<nat>)
    requires q0 == a + t && q1 == a + t1 && forall c: nat :: c in a ==> Cluster(e, c) == Cluster(d, c)
    ensures Flat(d, q0) == Flat(d, a) + Flat(d, t) && Flat(e, q1) == Flat(d, a) + Flat(e, t1)
  {
    FlatSame(d, e, a);
    FlatAppend(e, a, t1);
    FlatAppend(d, a, t);
  }

  lemma PrefixApart(d: Disk, q0: seq<nat>, k: nat, news: seq<nat>)
    requires Linked(d, q0) && k < |q0| && forall c :: c in news ==> Entry(d, c) == 0
    ensures Distinct(q0[..k])
    ensures forall i :: 0 <= i < k ==> q0[..k][i] == q0[i] && q0[i] !in q0[k..] && q0[i] !in news
    ensures forall i :: 0 <= i < k ==> Entry(d, q0[i]) == q0[i + 1]
  {
    LinkedTaken(d, q0);
    forall i | 0 <= i < k
      ensures q0[i] !in q0[k..]
    {
      assert forall j :: 0 <= j < |q0| - k ==> q0[k..][j] == q0[k + j];
    }
  }

  /** The first free cluster becomes a chain of its own. */
  lemma FirstCluster(d: Disk) returns (c: nat, d1: Disk)
    requires TableOk(d) && FreeCount(d, |d.fats[0]|) > 0
    ensures c == FindFree(d, 0) && 2 <= c < |d.fats[0]| && d1 == SetEntry(d, c, EOC) && Entry(d, c) == 0
    ensures TableOk(d1) && Linked(d1, [c]) && d1.data == d.data && d1.bpc == d.bpc && |d1.fats[0]| == |d.fats[0]|
    ensures forall k: nat :: k != c ==> Entry(d1, k) == Entry(d, k)
    ensures FreeCount(d, |d.fats[0]|) == FreeCount(d1, |d.fats[0]|) + 1
  {
    FindsFree(d);
    c := FindFree(d, 0);
    d1 := SetEntry(d, c, EOC);
    EntrySet(d, c, EOC);
    TableKept(d, c, EOC);
    assert EOC % LOW28 == EOC;
    FreeCountTaken(d, d1, c, |d.fats[0]|);
  }

  lemma WriteFirstIs(v: Volume, f: nat, p: nat, buf: Bytes, c: nat, e: Disk)
    requires WholeSectors(v.disk) && p < v.disk.bpc && f in v.files && v.files[f].first == 0
    requires c == FindFree(v.disk, 0) < |v.disk.fats[0]| && WriteLoop(SetEntry(v.disk, c, EOC), c, p, buf, true) == (e, true)
    ensures Write(v, f, p, buf) ==
      Written(Volume(e, v.files[f := File(c, Max(v.files[f].size, p + |buf|))]), p + |buf|, true)
  {
    SmallMod(p, v.disk.bpc);
  }

  lemma FirstChained(v: Volume, chains: Chains, f: nat, size: nat, c: nat, d1: Disk, e: Disk, news: seq<nat>)
    requires f in v.files && f in chains && |v.disk.fats| > 0 && Entry(v.disk, c) == 0
    requires d1.data == v.disk.data && d1.bpc == v.disk.bpc && |d1.fats| > 0 && |d1.fats[0]| == |v.disk.fats[0]|
    requires forall k: nat :: k != c ==> Entry(d1, k) == Entry(v.disk, k)
    requires Entry(d1, c) != 0 && Chained(d1, [c], e, news)
    ensures FileChained(v, chains, f, size, Volume(e, v.files[f := File(c, Max(v.files[f].size, size))]), [c] + news)
  {
    assert forall k: nat :: Cluster(d1, k) == Cluster(v.disk, k);
    assert forall k: nat :: k in [c] + news ==> Entry(v.disk, k) == 0;
  }

  /** The first write into an empty file. */
  lemma WriteFirst(v: Volume, chains: Chains, f: nat, p: nat, buf: Bytes) returns (q: seq<nat>, more: nat)
    requires TableOk(v.disk) && f in v.files && f in chains && v.files[f].first == 0 && p < v.disk.bpc
    requires FreeCount(v.disk, |v.disk.fats[0]|) > 0
    requires Need(v.disk.bpc, 1, p, |buf|) < FreeCount(v.disk, |v.disk.fats[0]|)
    ensures var w := Write(v, f, p, buf);
      w.ok && w.position == p + |buf| && FileStored(v, chains, f, p, buf, w.volume, q, more)
    ensures |q| == 1 + more && more == Need(v.disk.bpc, 1, p, |buf|)
  {
    var c, d1 := FirstCluster(v.disk);
    var news := WriteStores(d1, [c], p, buf, true);
    var e := WriteLoop(d1, c, p, buf, true).0;
    q, more := [c] + news, |news|;
    WriteFirstIs(v, f, p, buf, c, e);
    assert [c][0] == c;
    FirstChained(v, chains, f, p + |buf|, c, d1, e, news);
  }

  lemma FirstFewest(bpc: nat, p: nat, len: nat, q: seq<nat>)
    requires p < bpc && |q| == 1 + Need(bpc, 1, p, len)
    ensures TakesFewest([], q, bpc, p + len)
  {
    if |q| > 1 {
      NeedIsFewest(bpc, 1, 0, p, p, len, |q| - 1);
    }
  }

  lemma SmallMod(p: nat, b: nat)
    requires p < b
    ensures p % b == p
  {
  }

  /** Files other than f keep their chain and every byte. */
  ghost predicate OthersKept(v: Volume, chains: Chains, f: nat, w: Volume, chains1: Chains) {
    forall g :: g in v.files && g != f ==>
      && g in w.files && w.files[g] == v.files[g] && g in chains && g in chains1 && chains1[g] == chains[g]
      && Flat(w.disk, chains[g]) == Flat(v.disk, chains[g])
  }

  /** A chain that shares no cluster with those written is still there, byte by byte. */
  lemma ChainUnaffected(v: Volume, chains: Chains, f: nat, g: nat, e: Disk, q: seq<nat>)
    requires VolumeOk(v, chains) && f in v.files && g in v.files && g != f
    requires |e.fats| > 0 && |e.fats[0]| == |v.disk.fats[0]| && e.bpc == v.disk.bpc
    requires forall c :: c in q && c !in chains[f] ==> Entry(v.disk, c) == 0
    requires forall c: nat :: c !in q ==> Entry(e, c) == Entry(v.disk, c) && Cluster(e, c) == Cluster(v.disk, c)
    ensures Unaffected(v.disk, e, v.files[g], chains[g], q)
  {
    var r := chains[g];
    assert FileOk(v.disk, v.files[g], r);
    if r != [] {
      ApartFrom(v, chains, f, g, q);
      LinkedUnder(v.disk, e, r, q);
    }
    FlatSame(v.disk, e, r);
  }

  /** The clusters written were free or file f's own. */
  lemma ApartFrom(v: Volume, chains: Chains, f: nat, g: nat, q: seq<nat>)
    requires NoSharing(chains) && f in chains && g in chains && g != f && Linked(v.disk, chains[g])
    requires forall c :: c in q && c !in chains[f] ==> Entry(v.disk, c) == 0
    ensures forall c :: c in chains[g] ==> c !in q
  {
    LinkedTaken(v.disk, chains[g]);
    forall c | c in chains[g]
      ensures c !in q
    {
      assert c !in chains[f];
    }
  }

  lemma LinkedUnder(d: Disk, e: Disk, r: seq<nat>, q: seq<nat>)
    requires Linked(d, r) && |e.fats| > 0 && |e.fats[0]| == |d.fats[0]| && forall c :: c in r ==> c !in q
    requires forall c: nat :: c !in q ==> Entry(e, c) == Entry(d, c)
    ensures Linked(e, r)
  {
    forall i | 0 <= i < |r|
      ensures Entry(e, r[i]) == Entry(d, r[i])
    {
      assert r[i] in r;
    }
  }

  lemma StoredKeepsVolume(v: Volume, chains: Chains, f: nat, p: nat, buf: Bytes, w: Volume, q: seq<nat>, more: nat)
    requires VolumeOk(v, chains) && f in v.files && FileStored(v, chains, f, p, buf, w, q, more)
    ensures VolumeOk(w, chains[f := q]) && OthersKept(v, chains, f, w, chains[f := q])
  {
    assert FileOk(v.disk, v.files[f], chains[f]);
    OthersStay(v, chains, f, p + |buf|, w, q);
    SizeStays(v, chains, f, p, buf, w, q, more);
    StillApart(chains, f, q);
    Assembled(v, chains, f, w, q);
  }

  /** The chain is untouched by a write to the clusters q. */
  ghost predicate Unaffected(d: Disk, e: Disk, x: File, chain: seq<nat>, q: seq<nat>) {
    FileOk(e, x, chain) && Flat(e, chain) == Flat(d, chain) && forall c :: c in chain ==> c !in q
  }

  lemma OthersStay(v: Volume, chains: Chains, f: nat, size: nat, w: Volume, q: seq<nat>)
    requires VolumeOk(v, chains) && f in v.files && FileChained(v, chains, f, size, w, q)
    ensures forall g :: g in v.files && g != f ==>
      w.files[g] == v.files[g] && Unaffected(v.disk, w.disk, v.files[g], chains[g], q)
  {
    forall g | g in v.files && g != f
      ensures Unaffected(v.disk, w.disk, v.files[g], chains[g], q)
    {
      ChainUnaffected(v, chains, f, g, w.disk, q);
    }
  }

  lemma Assembled(v: Volume, chains: Chains, f: nat, w: Volume, q: seq<nat>)
    requires TableOk(w.disk) && f in v.files && chains.Keys == v.files.Keys && w.files.Keys == v.files.Keys
    requires NoSharing(chains[f := q]) && FileOk(w.disk, w.files[f], q)
    requires forall g :: g in v.files && g != f ==> FileOk(w.disk, w.files[g], chains[g])
    ensures VolumeOk(w, chains[f := q])
  {
    assert chains[f := q].Keys == w.files.Keys;
    forall g | g in w.files
      ensures FileOk(w.disk, w.files[g], chains[f := q][g])
    {
    }
  }

  lemma StillApart(chains: Chains, f: nat, q: seq<nat>)
    requires NoSharing(chains) && f in chains
    requires forall g :: g in chains && g != f ==> forall c :: c in chains[g] ==> c !in q
    ensures NoSharing(chains[f := q])
  {
  }

  lemma SizeStays(v: Volume, chains: Chains, f: nat, p: nat, buf: Bytes, w: Volume, q: seq<nat>, more: nat)
    requires f in v.files && f in chains && |v.disk.fats| > 0 && FileOk(v.disk, v.files[f], chains[f])
    requires FileStored(v, chains, f, p, buf, w, q, more)
    ensures w.files[f].size <= |Flat(w.disk, q)| && w.files[f].first == q[0] != 0
  {
    assert 2 <= q[0];
  }

  /** The file now holds the buffer from p on and its old bytes elsewhere. */
  ghost predicate LaidOver(was: Bytes, size: nat, now: Bytes, p: nat, buf: Bytes) {
    && p + |buf| <= |now| && now[p..p + |buf|] == buf && size <= |was| && size <= |now|
    && forall i :: 0 <= i < size && !(p <= i < p + |buf|) ==> now[i] == was[i]
  }

  lemma HeldIsLaidOver(was: Bytes, size: nat, z: Bytes, p: nat, buf: Bytes, now: Bytes)
    requires size <= |was| && Held(was, z, p, buf, now)
    ensures LaidOver(was, size, now, p, buf)
  {
  }

  lemma StoredLaysOver(v: Volume, chains: Chains, f: nat, p: nat, buf: Bytes, w: Volume, q: seq<nat>, more: nat)
    requires f in v.files && f in chains && |v.disk.fats| > 0 && FileOk(v.disk, v.files[f], chains[f])
    requires FileStored(v, chains, f, p, buf, w, q, more)
    ensures LaidOver(Before(v, chains, f), v.files[f].size, Flat(w.disk, q), p, buf)
    ensures v.files[f].size > 0 ==> Before(v, chains, f) == Flat(v.disk, chains[f])
  {
    HeldIsLaidOver(Before(v, chains, f), v.files[f].size, Room(v.disk.bpc, more), p, buf, Flat(w.disk, q));
  }

  /** The write and the chain it leaves. */
  lemma WriteResult(v: Volume, chains: Chains, f: nat, p: nat, buf: Bytes) returns (q: seq<nat>, more: nat)
    requires VolumeOk(v, chains) && f in v.files && Fits(v, chains, f, p, |buf|)
    ensures var w := Write(v, f, p, buf);
      w.ok && w.position == p + |buf| && FileStored(v, chains, f, p, buf, w.volume, q, more)
    ensures TakesFewest(chains[f], q, v.disk.bpc, p + |buf|)
  {
    assert FileOk(v.disk, v.files[f], chains[f]);
    if v.files[f].first == 0 {
      q, more := EmptyResult(v, chains, f, p, buf);
    } else {
      q, more := GrownResult(v, chains, f, p, buf, ClusterAt(p, v.disk.bpc), OffsetAt(p, v.disk.bpc));
    }
  }

  lemma EmptyResult(v: Volume, chains: Chains, f: nat, p: nat, buf: Bytes) returns (q: seq<nat>, more: nat)
    requires TableOk(v.disk) && f in v.files && f in chains && v.files[f].first == 0 && Fits(v, chains, f, p, |buf|)
    ensures var w := Write(v, f, p, buf);
      w.ok && w.position == p + |buf| && FileStored(v, chains, f, p, buf, w.volume, q, more)
    ensures TakesFewest([], q, v.disk.bpc, p + |buf|)
  {
    FreeBytesCount(v.disk, |v.disk.fats[0]|);
    NeedMeans(v.disk.bpc, 1, p, |buf|, FreeCount(v.disk, |v.disk.fats[0]|) - 1);
    q, more := WriteFirst(v, chains, f, p, buf);
    FirstFewest(v.disk.bpc, p, |buf|, q);
  }

  lemma GrownResult(v: Volume, chains: Chains, f: nat, p: nat, buf: Bytes, k: nat, o: nat) returns (q: seq<nat>, more: nat)
    requires TableOk(v.disk) && f in v.files && f in chains && v.files[f].first != 0 && Fits(v, chains, f, p, |buf|)
    requires FileOk(v.disk, v.files[f], chains[f])
    requires k == ClusterAt(p, v.disk.bpc) && o == OffsetAt(p, v.disk.bpc) < v.disk.bpc
    ensures var w := Write(v, f, p, buf);
      w.ok && w.position == p + |buf| && FileStored(v, chains, f, p, buf, w.volume, q, more)
    ensures TakesFewest(chains[f], q, v.disk.bpc, p + |buf|)
  {
    FitsNeeds(v.disk, chains[f], p, |buf|);
    Divide(v.disk, chains[f], p);
    q, more := WriteGrown(v, chains, f, p, k, o, buf);
    GrownFewest(v.disk, chains[f], k, o, p, |buf|, q);
  }

  /**
    `FAT32_write` with the position inside an allocated cluster, or in the first cluster of an empty
    file, and with enough free clusters: all chains stay disjoint, acyclic and ended, all copies of
    the table stay equal, every other file keeps every byte, and the file's bytes are the old ones
    with the buffer laid over them.
  */
  lemma WriteKeepsVolume(v: Volume, chains: Chains, f: nat, p: nat, buf: Bytes) returns (chains1: Chains)
    requires VolumeOk(v, chains) && f in v.files && Fits(v, chains, f, p, |buf|)
    ensures var w := Write(v, f, p, buf);
      && w.ok && w.position == p + |buf| && VolumeOk(w.volume, chains1)
      && OthersKept(v, chains, f, w.volume, chains1)
      && w.volume.files[f].size == Max(v.files[f].size, p + |buf|) && w.volume.files[f].first != 0
      && LaidOver(Before(v, chains, f), v.files[f].size, Flat(w.volume.disk, chains1[f]), p, buf)
  {
    var q, more := WriteResult(v, chains, f, p, buf);
    chains1 := chains[f := q];
    assert FileOk(v.disk, v.files[f], chains[f]);
    var w := Write(v, f, p, buf).volume;
    StoredKeepsVolume(v, chains, f, p, buf, w, q, more);
    StoredLaysOver(v, chains, f, p, buf, w, q, more);
  }

  /** It goes on where the file ended, takes free clusters only, and none that the write can do without. */
  lemma WriteTakesFewest(v: Volume, chains: Chains, f: nat, p: nat, buf: Bytes) returns (chains1: Chains)
    requires VolumeOk(v, chains) && f in v.files && Fits(v, chains, f, p, |buf|)
    ensures VolumeOk(Write(v, f, p, buf).volume, chains1) && chains1 == chains[f := chains1[f]]
    ensures TakesFewest(chains[f], chains1[f], v.disk.bpc, p + |buf|)
    ensures forall c :: c in chains1[f] && c !in chains[f] ==> Entry(v.disk, c) == 0
  {
    var q, more := WriteResult(v, chains, f, p, buf);
    chains1 := chains[f := q];
    assert FileOk(v.disk, v.files[f], chains[f]);
    StoredKeepsVolume(v, chains, f, p, buf, Write(v, f, p, buf).volume, q, more);
  }

  lemma ReadIs(v: Volume, f: nat, p: nat, count: nat, k: nat, o: nat)
    requires v.disk.bpc > 0 && f in v.files && v.files[f].first != 0 && p < v.files[f].size
    requires k == ClusterAt(p, v.disk.bpc) && o == OffsetAt(p, v.disk.bpc) < v.disk.bpc
    ensures Read(v, f, p, count) ==
      ReadLoop(v.disk, Walk(v.disk, v.files[f].first, k), o, Min(p + count, v.files[f].size) - p)
  {
  }

  lemma ReadAt(v: Volume, chains: Chains, f: nat, p: nat, count: nat, k: nat, o: nat)
    requires f in v.files && f in chains && v.files[f].first != 0 && p < v.files[f].size && o < v.disk.bpc
    requires FileOk(v.disk, v.files[f], chains[f]) && k < |chains[f]| && |Flat(v.disk, chains[f][..k])| + o == p
    ensures ReadLoop(v.disk, Walk(v.disk, v.files[f].first, k), o, Min(p + count, v.files[f].size) - p) ==
      Contents(v, chains, f)[p..Min(p + count, v.files[f].size)]
  {
    ChainAt(v.disk, chains[f], k);
    ReadFrom(v.disk, chains[f], k, o, Min(p + count, v.files[f].size) - p);
    SliceOfPrefix(Flat(v.disk, chains[f]), v.files[f].size, p, Min(p + count, v.files[f].size));
  }

  lemma SliceOfPrefix(a: Bytes, size: nat, lo: nat, hi: nat)
    requires lo <= hi <= size <= |a|
    ensures a[..size][lo..hi] == a[lo..hi]
  {
  }

  /** `FAT32_read` within the file returns the file's bytes. */
  lemma ReadGives(v: Volume, chains: Chains, f: nat, p: nat, count: nat)
    requires v.disk.bpc > 0 && f in v.files && f in chains && FileOk(v.disk, v.files[f], chains[f])
    requires v.files[f].first != 0 && p < v.files[f].size
    ensures v.files[f].size <= |Flat(v.disk, chains[f])|
    ensures Read(v, f, p, count) == Contents(v, chains, f)[p..Min(p + count, v.files[f].size)]
  {
    Divide(v.disk, chains[f], p);
    ReadIs(v, f, p, count, ClusterAt(p, v.disk.bpc), OffsetAt(p, v.disk.bpc));
    ReadAt(v, chains, f, p, count, ClusterAt(p, v.disk.bpc), OffsetAt(p, v.disk.bpc));
  }

  lemma ReadFrom(d: Disk, q: seq<nat>, k: nat, o: nat, n: nat)
    requires k < |q| && Linked(d, q[k..]) && o < d.bpc && Flat(d, q) == Flat(d, q[..k]) + Flat(d, q[k..])
    requires |Flat(d, q[..k])| + o + n <= |Flat(d, q)|
    ensures ReadLoop(d, q[k], o, n) == Flat(d, q)[|Flat(d, q[..k])| + o..|Flat(d, q[..k])| + o + n]
  {
    var before, from := Flat(d, q[..k]), Flat(d, q[k..]);
    ReadSlice(d, q[k..], o, n);
    assert q[k..][0] == q[k];
    SliceRight(before, from, o, n);
  }

  /** A buffer laid over a file is read back. */
  lemma LaidOverReads(w: Volume, chains: Chains, f: nat, p: nat, buf: Bytes)
    requires w.disk.bpc > 0 && f in w.files && f in chains && FileOk(w.disk, w.files[f], chains[f])
    requires w.files[f].first != 0 && buf != [] && p + |buf| <= w.files[f].size
    requires p + |buf| <= |Flat(w.disk, chains[f])| && Flat(w.disk, chains[f])[p..p + |buf|] == buf
    ensures Read(w, f, p, |buf|) == buf
  {
    ReadGives(w, chains, f, p, |buf|);
    SliceOfPrefix(Flat(w.disk, chains[f]), w.files[f].size, p, p + |buf|);
  }

  /** What was written is read back. */
  lemma WriteThenRead(v: Volume, chains: Chains, f: nat, p: nat, buf: Bytes)
    requires VolumeOk(v, chains) && f in v.files && Fits(v, chains, f, p, |buf|) && buf != []
    ensures Read(Write(v, f, p, buf).volume, f, p, |buf|) == buf
  {
    var chains1 := WriteKeepsVolume(v, chains, f, p, buf);
    var w := Write(v, f, p, buf).volume;
    assert f in w.files && FileOk(w.disk, w.files[f], chains1[f]);
    LaidOverReads(w, chains1, f, p, buf);
  }

  // ---------- runs ----------

  lemma {:induction false} ChainUnique(d: Disk, q: seq<nat>, r: seq<nat>)
    requires Linked(d, q) && Linked(d, r) && q[0] == r[0] && |d.fats[0]| <= EOC
    ensures q == r
    decreases |q|
  {
    if |q| == 1 || |r| == 1 {
      OneClusterChain(d, q, r);
    } else {
      LinkedTail(d, q);
      LinkedTail(d, r);
      ChainUnique(d, q[1..], r[1..]);
      assert q == [q[0]] + q[1..] && r == [r[0]] + r[1..];
    }
  }

  lemma OneClusterChain(d: Disk, q: seq<nat>, r: seq<nat>)
    requires Linked(d, q) && Linked(d, r) && q[0] == r[0] && |d.fats[0]| <= EOC
    ensures |q| == 1 <==> |r| == 1
    ensures |q| == 1 ==> q == r
  {
    assert |q| > 1 ==> Entry(d, q[0]) == q[1] < EOC;
    assert |r| > 1 ==> Entry(d, r[0]) == r[1] < EOC;
  }

  /** The table determines the chain of every file. */
  lemma ChainsUnique(v: Volume, a: Chains, b: Chains)
    requires VolumeOk(v, a) && VolumeOk(v, b)
    ensures a == b
  {
    forall f | f in v.files
      ensures a[f] == b[f]
    {
      assert FileOk(v.disk, v.files[f], a[f]) && FileOk(v.disk, v.files[f], b[f]);
      if v.files[f].first != 0 {
        ChainUnique(v.disk, a[f], b[f]);
      }
    }
  }

  datatype Op = Put(f: nat, position: nat, buf: Bytes)

  /** The file exists and the write fits. */
  ghost predicate Legal(v: Volume, op: Op) {
    op.f in v.files && exists q: Chains :: VolumeOk(v, q) && Fits(v, q, op.f, op.position, |op.buf|)
  }

  function After(v: Volume, op: Op): Volume
    requires WholeSectors(v.disk) && v.disk.bpc > 0 && op.f in v.files
  {
    Write(v, op.f, op.position, op.buf).volume
  }

  ghost predicate LegalRun(v: Volume, ops: seq<Op>)
    decreases ops
  {
    ops != [] ==> Legal(v, ops[0]) && TableOk(v.disk) && LegalRun(After(v, ops[0]), ops[1..])
  }

  ghost function Run(v: Volume, ops: seq<Op>): Volume
    requires LegalRun(v, ops)
    decreases ops
  {
    if ops == [] then v else Run(After(v, ops[0]), ops[1..])
  }

  datatype Byte = Unknown | Known(value: bv8)

  /** Byte i of file f in a plain map from file to bytes, after one write. */
  function PlainByte(op: Op, f: nat, i: nat, c: Byte): Byte {
    if op.f == f && op.position <= i < op.position + |op.buf| then Known(op.buf[i - op.position]) else c
  }

  /** ...and after all of them. */
  function PlainRun(ops: seq<Op>, f: nat, i: nat, c: Byte): Byte
    decreases ops
  {
    if ops == [] then c else PlainRun(ops[1..], f, i, PlainByte(ops[0], f, i, c))
  }

  function PlainSize(ops: seq<Op>, f: nat, size: nat): nat
    decreases ops
  {
    if ops == [] then size
    else PlainSize(ops[1..], f, if ops[0].f == f then Max(size, ops[0].position + |ops[0].buf|) else size)
  }

  /** Byte i of file f is c, if c is known. */
  ghost predicate Agrees(v: Volume, chains: Chains, f: nat, i: nat, c: Byte)
    requires f in v.files && f in chains
  {
    var all := Flat(v.disk, chains[f]);
    c.Known? ==> i < v.files[f].size && i < |all| && all[i] == c.value
  }

  lemma WriteAgrees(v: Volume, chains: Chains, op: Op, f: nat, i: nat, c: Byte) returns (chains1: Chains)
    requires VolumeOk(v, chains) && f in v.files && Legal(v, op) && Agrees(v, chains, f, i, c)
    ensures var w := After(v, op);
      && VolumeOk(w, chains1) && f in w.files
      && w.files[f].size == (if op.f == f then Max(v.files[f].size, op.position + |op.buf|) else v.files[f].size)
      && Agrees(w, chains1, f, i, PlainByte(op, f, i, c))
  {
    LegalFits(v, chains, op);
    chains1 := WriteKeepsVolume(v, chains, op.f, op.position, op.buf);
    if op.f == f {
      OwnAgrees(v, chains, op, After(v, op), chains1, i, c);
    } else {
      OtherAgrees(v, chains, op, After(v, op), chains1, f, i, c);
    }
  }

  lemma LegalFits(v: Volume, chains: Chains, op: Op)
    requires VolumeOk(v, chains) && Legal(v, op)
    ensures Fits(v, chains, op.f, op.position, |op.buf|) && (v.files[op.f].first == 0 ==> v.files[op.f].size == 0)
  {
    var q: Chains :| VolumeOk(v, q) && Fits(v, q, op.f, op.position, |op.buf|);
    ChainsUnique(v, q, chains);
    assert FileOk(v.disk, v.files[op.f], chains[op.f]);
  }

  lemma OwnAgrees(v: Volume, chains: Chains, op: Op, w: Volume, chains1: Chains, i: nat, c: Byte)
    requires op.f in v.files && op.f in chains && op.f in w.files && op.f in chains1 && Agrees(v, chains, op.f, i, c)
    requires v.files[op.f].first == 0 ==> v.files[op.f].size == 0
    requires w.files[op.f].size == Max(v.files[op.f].size, op.position + |op.buf|)
    requires LaidOver(Before(v, chains, op.f), v.files[op.f].size, Flat(w.disk, chains1[op.f]), op.position, op.buf)
    ensures Agrees(w, chains1, op.f, i, PlainByte(op, op.f, i, c))
  {
    LaidOverAgrees(Before(v, chains, op.f), v.files[op.f].size, Flat(w.disk, chains1[op.f]), op, op.f, i, c);
  }

  lemma OtherAgrees(v: Volume, chains: Chains, op: Op, w: Volume, chains1: Chains, f: nat, i: nat, c: Byte)
    requires f in v.files && f in chains && Agrees(v, chains, f, i, c)
    requires OthersKept(v, chains, op.f, w, chains1) && f != op.f
    ensures f in w.files && f in chains1 && w.files[f].size == v.files[f].size
    ensures Agrees(w, chains1, f, i, PlainByte(op, f, i, c))
  {
  }

  lemma LaidOverAgrees(was: Bytes, size: nat, now: Bytes, op: Op, f: nat, i: nat, c: Byte)
    requires LaidOver(was, size, now, op.position, op.buf) && op.f == f
    requires c.Known? ==> i < size && was[i] == c.value
    ensures PlainByte(op, f, i, c).Known? ==>
      && i < Max(size, op.position + |op.buf|) && i < |now| && now[i] == PlainByte(op, f, i, c).value
  {
    if op.position <= i < op.position + |op.buf| {
      assert now[op.position..op.position + |op.buf|][i - op.position] == now[i];
    }
  }

  /**
    After any sequence of fitting writes to any files, every file has the size, and every byte that
    was there before or has been written the value, that a plain map from file to bytes would give
    it. A byte in a hole, behind the end of the file and before the write, is whatever its cluster held.
  */
  lemma {:induction false} RunReadsLikePlainFiles(v: Volume, chains: Chains, ops: seq<Op>, f: nat, i: nat, c: Byte)
    returns (chains1: Chains)
    requires VolumeOk(v, chains) && f in v.files && LegalRun(v, ops) && Agrees(v, chains, f, i, c)
    ensures var w := Run(v, ops);
      && VolumeOk(w, chains1) && f in w.files && w.files[f].size == PlainSize(ops, f, v.files[f].size)
      && Agrees(w, chains1, f, i, PlainRun(ops, f, i, c))
    decreases ops
  {
    chains1 := chains;
    if ops != [] {
      var chains0 := WriteAgrees(v, chains, ops[0], f, i, c);
      chains1 := RunReadsLikePlainFiles(After(v, ops[0]), chains0, ops[1..], f, i, PlainByte(ops[0], f, i, c));
    }
  }

  /** So a read of one byte after any run of writes returns what the plain map holds there. */
  lemma ReadAfterRun(v: Volume, chains: Chains, ops: seq<Op>, f: nat, i: nat, c: Byte)
    requires VolumeOk(v, chains) && f in v.files && LegalRun(v, ops) && Agrees(v, chains, f, i, c)
    requires PlainRun(ops, f, i, c).Known?
    ensures var w := Run(v, ops);
      w.disk.bpc > 0 && f in w.files && Read(w, f, i, 1) == [PlainRun(ops, f, i, c).value]
  {
    var chains1 := RunReadsLikePlainFiles(v, chains, ops, f, i, c);
    ReadOne(Run(v, ops), chains1, f, i, PlainRun(ops, f, i, c));
  }

  lemma ReadOne(w: Volume, chains: Chains, f: nat, i: nat, c: Byte)
    requires VolumeOk(w, chains) && f in w.files && Agrees(w, chains, f, i, c) && c.Known?
    ensures w.disk.bpc > 0 && Read(w, f, i, 1) == [c.value]
  {
    assert FileOk(w.disk, w.files[f], chains[f]);
    ReadGives(w, chains, f, i, 1);
  }
}
