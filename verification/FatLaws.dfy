/** Table entries, free clusters and chains of clusters. */
module FatLaws {
  import opened Sequences
  import opened Fat

  // ---------- table entries ----------

  /** Of the words of the table only word c changes, and of that only the low 28 bits. */
  lemma SectorWord(fat: seq<nat>, c: nat, value: nat, k: nat)
    requires |fat| % PER_SECTOR == 0 && c < |fat| && k < |fat|
    ensures var s := c / PER_SECTOR * PER_SECTOR;
      && s + PER_SECTOR <= |fat|
      && |PutSector(fat, s, Sector(fat, c, value))| == |fat|
      && var x := PutSector(fat, s, Sector(fat, c, value))[k];
         if k == c then x % LOW28 == value % LOW28 && x / LOW28 == fat[c] / LOW28 else x == fat[k]
  {
    var s := c / PER_SECTOR * PER_SECTOR;
    var q := Sector(fat, c, value);
    var r := PutSector(fat, s, q);
    if s <= k < s + PER_SECTOR {
      assert r[k] == q[k - s];
      if k != c {
        assert q[k - s] == fat[s..s + PER_SECTOR][k - s] == fat[k];
      }
    }
  }

  /** Of entry c the low 28 bits are replaced, no other word changes, and all copies are alike. */
  lemma EntrySet(d: Disk, c: nat, value: nat)
    requires TableOk(d) && c < |d.fats[0]|
    ensures var e := SetEntry(d, c, value);
      && (forall k: nat :: Entry(e, k) == if k == c then value % 0x1000_0000 else Entry(d, k))
      && e.fats[0][c] / 0x1000_0000 == d.fats[0][c] / 0x1000_0000
      && (forall k: nat :: k < |d.fats[0]| && k != c ==> e.fats[0][k] == d.fats[0][k])
      && (forall k :: 0 <= k < |e.fats| ==> e.fats[k] == e.fats[0])
  {
    var e := SetEntry(d, c, value);
    SectorWord(d.fats[0], c, value, c);
    forall k: nat
      ensures Entry(e, k) == if k == c then value % LOW28 else Entry(d, k)
      ensures k < |d.fats[0]| && k != c ==> e.fats[0][k] == d.fats[0][k]
    {
      if k < |d.fats[0]| {
        SectorWord(d.fats[0], c, value, k);
      }
    }
  }

  lemma TableKept(d: Disk, c: nat, value: nat)
    requires TableOk(d) && 2 <= c < |d.fats[0]|
    ensures TableOk(SetEntry(d, c, value))
  {
    EntrySet(d, c, value);
  }

  /** Free entry n is linked behind c and ends the chain. */
  lemma LinkBehind(d: Disk, c: nat, n: nat)
    requires TableOk(d) && 2 <= c < |d.fats[0]| && 2 <= n < |d.fats[0]| && n != c
    ensures var e := SetEntry(SetEntry(d, c, n), n, EOC);
      && TableOk(e) && e.bpc == d.bpc && e.data == d.data && |e.fats[0]| == |d.fats[0]|
      && forall k: nat :: Entry(e, k) == if k == n then EOC else if k == c then n else Entry(d, k)
  {
    var d1 := SetEntry(d, c, n);
    EntrySet(d, c, n);
    TableKept(d, c, n);
    EntrySet(d1, n, EOC);
    TableKept(d1, n, EOC);
    assert EOC % LOW28 == EOC && n % LOW28 == n;
  }

  // ---------- free clusters ----------

  lemma {:induction false} FreeCountSame(d: Disk, e: Disk, n: nat)
    requires forall k: nat :: k < n ==> (Entry(d, k) == 0 <==> Entry(e, k) == 0)
    ensures FreeCount(d, n) == FreeCount(e, n)
  {
    if n > 0 {
      FreeCountSame(d, e, n - 1);
    }
  }

  lemma {:induction false} FreeCountTaken(d: Disk, e: Disk, c: nat, n: nat)
    requires c < n && Entry(d, c) == 0 && Entry(e, c) != 0
    requires forall k: nat :: k < n && k != c ==> (Entry(d, k) == 0 <==> Entry(e, k) == 0)
    ensures FreeCount(d, n) == FreeCount(e, n) + 1
  {
    if c == n - 1 {
      FreeCountSame(d, e, n - 1);
    } else {
      FreeCountTaken(d, e, c, n - 1);
    }
  }

  lemma {:induction false} FreeBytesCount(d: Disk, n: nat)
    ensures FreeBytes(d, n) == FreeCount(d, n) * d.bpc
  {
    if n > 0 {
      FreeBytesCount(d, n - 1);
      OneMore(FreeCount(d, n - 1), d.bpc);
    }
  }

  lemma {:induction false} SomeFree(d: Disk, n: nat)
    requires FreeCount(d, n) > 0
    ensures exists k: nat :: k < n && Entry(d, k) == 0
  {
    if Entry(d, n - 1) != 0 {
      SomeFree(d, n - 1);
    }
  }

  /** If there is a free entry, the search finds one that is not reserved. */
  lemma FindsFree(d: Disk)
    requires TableOk(d) && FreeCount(d, |d.fats[0]|) > 0
    ensures 2 <= FindFree(d, 0) < |d.fats[0]|
  {
    SomeFree(d, |d.fats[0]|);
    var k: nat :| k < |d.fats[0]| && Entry(d, k) == 0;
    assert FindFree(d, 0) <= k;
  }

  // ---------- chains ----------

  lemma LinkedTail(d: Disk, q: seq<nat>)
    requires Linked(d, q) && |q| > 1
    ensures Linked(d, q[1..]) && q[0] !in q[1..] && Entry(d, q[0]) == q[1]
  {
    TailHas(q);
    forall i | 0 <= i < |q| - 1
      ensures q[1..][i] == q[i + 1]
    {
    }
  }

  /** Chains depend only on the entries. */
  lemma LinkedSame(d: Disk, e: Disk, q: seq<nat>)
    requires Linked(d, q) && |e.fats| > 0 && |e.fats[0]| == |d.fats[0]|
    requires forall k: nat :: Entry(e, k) == Entry(d, k)
    ensures Linked(e, q)
  {
  }

  /** No cluster of a chain is free. */
  lemma LinkedTaken(d: Disk, q: seq<nat>)
    requires Linked(d, q)
    ensures forall c :: c in q ==> Entry(d, c) != 0 && 2 <= c < |d.fats[0]|
  {
    forall c | c in q
      ensures Entry(d, c) != 0 && 2 <= c < |d.fats[0]|
    {
      var i :| 0 <= i < |q| && q[i] == c;
      assert i < |q| - 1 ==> Entry(d, q[i]) == q[i + 1];
    }
  }

  /** The last k-th part of a chain is a chain. */
  lemma LinkedFrom(d: Disk, q: seq<nat>, k: nat)
    requires Linked(d, q) && k < |q|
    ensures Linked(d, q[k..]) && q[k..][0] == q[k]
  {
    forall i | 0 <= i < |q| - k
      ensures q[k..][i] == q[k + i]
    {
    }
  }

  lemma {:induction false} WalkChain(d: Disk, q: seq<nat>, k: nat)
    requires Linked(d, q) && k < |q|
    ensures Walk(d, q[0], k) == q[k]
    decreases k
  {
    if k > 0 {
      LinkedTail(d, q);
      WalkChain(d, q[1..], k - 1);
    }
  }

  /** A chain in front of another one whose first cluster it links to. */
  lemma LinkedJoin(d: Disk, p: seq<nat>, q: seq<nat>)
    requires Linked(d, q) && Distinct(p) && forall i :: 0 <= i < |p| ==> 2 <= p[i] < |d.fats[0]| && p[i] !in q
    requires forall i :: 0 <= i < |p| - 1 ==> Entry(d, p[i]) == p[i + 1]
    requires p != [] ==> Entry(d, p[|p| - 1]) == q[0]
    ensures Linked(d, p + q)
  {
    var r := p + q;
    forall i, j | 0 <= i < j < |r|
      ensures r[i] != r[j]
    {
      if i < |p| <= j {
        assert r[j] == q[j - |p|] && q[j - |p|] in q;
      }
    }
    forall i | 0 <= i < |r| - 1
      ensures Entry(d, r[i]) == r[i + 1]
    {
      if i >= |p| {
        var j := i - |p|;
        assert r[i] == q[j] && r[i + 1] == q[j + 1] && Entry(d, q[j]) == q[j + 1];
      } else {
        assert r[i] == p[i] && r[i + 1] == if i + 1 < |p| then p[i + 1] else q[0];
      }
    }
    assert r[|r| - 1] == q[|q| - 1];
  }

  // ---------- contents ----------

  lemma {:induction false} FlatSame(d: Disk, e: Disk, q: seq<nat>)
    requires forall c: nat :: c in q ==> Cluster(d, c) == Cluster(e, c)
    ensures Flat(d, q) == Flat(e, q)
  {
    if q != [] {
      assert forall c: nat :: c in q[1..] ==> c in q;
      FlatSame(d, e, q[1..]);
    }
  }

  lemma {:induction false} FlatAppend(d: Disk, p: seq<nat>, q: seq<nat>)
    ensures Flat(d, p + q) == Flat(d, p) + Flat(d, q)
  {
    if p == [] {
      assert p + q == q;
    } else {
      assert (p + q)[1..] == p[1..] + q;
      FlatAppend(d, p[1..], q);
    }
  }

  lemma FlatOne(d: Disk, c: nat)
    ensures Flat(d, [c]) == Cluster(d, c)
  {
    assert [c][1..] == [];
    assert Cluster(d, c) + [] == Cluster(d, c);
  }

  lemma {:induction false} FlatLength(d: Disk, q: seq<nat>)
    ensures |Flat(d, q)| == |q| * d.bpc
  {
    if q != [] {
      FlatLength(d, q[1..]);
      OneMore(|q| - 1, d.bpc);
    }
  }

  lemma OneMore(n: nat, b: nat)
    ensures (n + 1) * b == n * b + b
  {
  }

  /** Overwriting across a boundary is overwriting on both sides of it. */
  lemma OverwriteSplit(a: Bytes, b: Bytes, o: nat, x: Bytes, y: Bytes)
    requires o + |x| == |a| && |y| <= |b|
    ensures Overwrite(a + b, o, x + y) == Overwrite(a, o, x) + Overwrite(b, 0, y)
  {
  }

  lemma OverwriteLeft(a: Bytes, b: Bytes, o: nat, x: Bytes)
    requires o + |x| <= |a|
    ensures Overwrite(a + b, o, x) == Overwrite(a, o, x) + b
  {
  }

  lemma OverwriteRight(a: Bytes, b: Bytes, o: nat, x: Bytes)
    requires o + |x| <= |b|
    ensures Overwrite(a + b, |a| + o, x) == a + Overwrite(b, o, x)
  {
  }

  /** n cleared clusters. */
  function Room(bpc: nat, n: nat): Bytes {
    if n == 0 then [] else Zeros(bpc) + Room(bpc, n - 1)
  }

  lemma OneMoreCluster(was: Bytes, bpc: nat, m: nat, offset: nat, buf: Bytes)
    requires |was| == bpc && offset < bpc && |buf| > bpc - offset
    requires |buf| - (bpc - offset) <= |Zeros(bpc) + Room(bpc, m)|
    ensures offset + |buf| <= |was + Room(bpc, m + 1)|
    ensures Overwrite(was, offset, buf[..bpc - offset]) + Overwrite(Zeros(bpc) + Room(bpc, m), 0, buf[bpc - offset..]) ==
         Overwrite(was + Room(bpc, m + 1), offset, buf)
  {
    var len := bpc - offset;
    assert buf == buf[..len] + buf[len..];
    OverwriteSplit(was, Zeros(bpc) + Room(bpc, m), offset, buf[..len], buf[len..]);
  }

  /** A write needs at most f new clusters exactly when it fits into k + f. */
  lemma {:induction false} NeedMeans(bpc: nat, k: nat, offset: nat, len: nat, f: nat)
    requires offset < bpc && k > 0
    ensures Need(bpc, k, offset, len) <= f <==> offset + len <= (k + f) * bpc
    decreases len
  {
    OneMore(k + f - 1, bpc);
    if len > bpc - offset {
      if k > 1 {
        NeedMeans(bpc, k - 1, 0, len - (bpc - offset), f);
      } else if f > 0 {
        NeedMeans(bpc, 1, 0, len - (bpc - offset), f - 1);
      }
    } else {
      AtLeastOne(k + f, bpc);
    }
  }

  lemma AtLeastOne(n: nat, b: nat)
    requires n > 0
    ensures n * b >= b
  {
    OneMore(n - 1, b);
  }
}
