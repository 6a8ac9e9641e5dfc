/** The allocator of one kernel or hardware area, working in place on the page descriptors. */
module PageAllocator {
  import opened BitMath
  import opened Sequences
  import opened PageArea
  import opened PageAreaLaws
  import opened PageAreaTheorems
  import opened PageTags
  import opened PageMount

  const MF_UINDX_MAX: nat := 0xff_ffff
  const U64_MAX: nat := 0xffff_ffff_ffff_ffff

  /** One message of system_error, or of a red printk, when the consistency check b fails. */
  function Fault(b: bool): nat { if b then 1 else 0 }

  /** What `mm_find_cmsa2blk` returns: failure, no neighbour, or merged. */
  const FAILED: nat := 0
  const ALONE: nat := 1
  const MERGED: nat := 2

  function MergeCode(cleared: bool): nat { if cleared then MERGED else FAILED }

  /** `mm_cmsa1blk_isok`: the tags of ms..me describe a free block of pool k. */
  predicate BlockOk(d: seq<Desc>, k: nat, ms: nat, me: nat)
    requires ms < |d| && me < |d|
  {
    && ms <= me
    && (ms < me ==> d[ms].olkty == Oder && d[ms].odlink == ToPage(me) && Idle(d[ms]))
    && d[me].olkty == Bafh && d[me].odlink == ToPool(k) && Idle(d[me])
    && d[me].padrs - d[ms].padrs == me - ms
  }

  /** `chek_cl2molkflg`: the tags left by a merge are those of one block of pool k. */
  predicate MergedOk(d: seq<Desc>, k: nat, a: nat, ae: nat, b: nat, be: nat)
    requires a < |d| && ae < |d| && b < |d| && be < |d|
  {
    && a != b && ae != be && be - a + 1 == Pow2(k)
    && d[a].olkty == Oder && d[a].odlink == ToPage(be)
    && d[be].olkty == Bafh && d[be].odlink == ToPool(k)
    && ((a == ae && b == be)
        || (d[ae].olkty == Init && d[ae].odlink == Null && d[b].olkty == Init && d[b].odlink == Null))
  }

  /** The tags of a page and of the one it links to are those of a live block of pgs pages. */
  predicate TagsLookLive(d: seq<Desc>, page: nat, pgs: nat, kind: nat)
    requires page < |d|
  {
    && d[page].olkty == Oder && d[page].odlink.ToPage? && d[page].marty == kind
    && d[page].odlink.page < |d| && d[page].odlink.page - page + 1 == pgs
    && d[d[page].odlink.page].marty == kind && d[page].refcnt >= 1 && d[page].alloc
    && d[d[page].odlink.page].refcnt >= 1 && d[d[page].odlink.page].alloc
  }

  /** The size check turns down no size of a live block that could be given back. */
  lemma RefusedSize(s: Area, page: nat, pgs: nat)
    ensures Releasable(s, page, pgs) ==>
      pgs >= 1 && pgs == ShiftOne(DivOrder(pgs)) == Pow2(DivOrder(pgs)) && DivOrder(pgs) == s.blocks[page].order
  {
    if Releasable(s, page, pgs) {
      DivOrderOfPow2(pgs, s.blocks[page].order);
    }
  }

  lemma LiveLooksLive(d: seq<Desc>, n: nat, s: Area, kind: nat, page: nat, k: nat, pgs: nat)
    requires Rep(d, n, s.padrs, s.blocks, kind) && Fits(s.padrs, s.blocks)
    requires page in s.blocks && s.blocks[page].refs > 0 && s.blocks[page].order == k && pgs == Pow2(k)
    ensures page + pgs <= n && LiveTags(d, page, k, s.blocks[page].refs) && TagsLookLive(d, page, pgs, kind)
  {
    LiveBlockTags(d, n, s.padrs, s.blocks, kind, page);
  }

  lemma LooksLiveIsHead(d: seq<Desc>, n: nat, s: Area, kind: nat, page: nat, pgs: nat)
    requires Rep(d, n, s.padrs, s.blocks, kind) && Fits(s.padrs, s.blocks) && page < n && TagsLookLive(d, page, pgs, kind)
    ensures page in s.blocks && s.blocks[page].refs > 0 && s.blocks[page].order < LMAX && pgs == Pow2(s.blocks[page].order)
  {
    OnlyHeadsLookLive(d, n, s.padrs, s.blocks, kind, page);
    LiveBlockTags(d, n, s.padrs, s.blocks, kind, page);
  }

  /** Only the head of a live block of pgs pages passes for one. */
  lemma LiveLooksAre(d: seq<Desc>, n: nat, s: Area, kind: nat, page: nat, pgs: nat)
    requires Rep(d, n, s.padrs, s.blocks, kind) && Fits(s.padrs, s.blocks) && page < n && pgs >= 1
    requires pgs == ShiftOne(DivOrder(pgs))
    ensures Releasable(s, page, pgs) <==>
      TagsLookLive(d, page, pgs, kind) && DivOrder(pgs) < LMAX && pgs == Pow2(DivOrder(pgs))
    ensures Releasable(s, page, pgs) ==> s.blocks[page].order == DivOrder(pgs) && page + pgs <= n
    ensures Releasable(s, page, pgs) ==> LiveTags(d, page, DivOrder(pgs), s.blocks[page].refs)
  {
    RefusedSize(s, page, pgs);
    if Releasable(s, page, pgs) {
      LiveLooksLive(d, n, s, kind, page, s.blocks[page].order, pgs);
    } else if TagsLookLive(d, page, pgs, kind) {
      LooksLiveIsHead(d, n, s, kind, page, pgs);
      DivOrderOfPow2(pgs, s.blocks[page].order);
    }
  }

  /** af_fobjnr and af_mobjnr of every pool are the length of its free list. */
  ghost predicate ListsCounted(frelst: seq<seq<nat>>, fobjnr: seq<nat>, mobjnr: seq<nat>) {
    && |frelst| == |fobjnr| == |mobjnr| == LMAX
    && forall k :: 0 <= k < LMAX ==> fobjnr[k] == |frelst[k]| && mobjnr[k] == |frelst[k]|
  }

  class MemArea {
    const kind: nat           // ma_type
    const desc: array<Desc>   // the descriptor table
    const msanr: nat          // descriptors in use
    ghost const padrs: seq<nat>
    var frelst: seq<seq<nat>> // af_frelst of each pool
    var fobjnr: seq<nat>      // af_fobjnr
    var mobjnr: seq<nat>      // af_mobjnr
    var freePages: int
    var allocPages: int
    var maxPages: int
    var faults: nat           // messages printed by system_error and its red printk siblings
    ghost var blocks: map<nat, Block>

    ghost function Abs(): Area
      reads this`frelst, this`blocks, this`freePages, this`allocPages, this`maxPages
    {
      Area(padrs, frelst, blocks, freePages, allocPages, maxPages)
    }

    ghost predicate Valid()
      reads this, desc
    {
      && Rep(desc[..], msanr, padrs, blocks, kind)
      && Inv(Abs()) && ListsCounted(frelst, fobjnr, mobjnr)
      && maxPages <= msanr < 0x10_0000_0000_0000
    }

    // ---------- mounting ----------

    /** `memarea_t_init` with empty pools over the first n descriptors of the table. */
    constructor (table: array<Desc>, n: nat, ty: nat)
      requires n <= table.Length
      ensures desc == table && msanr == n && kind == ty && padrs == PageNumbers(table[..], n)
      ensures ListsCounted(frelst, fobjnr, mobjnr) && forall k :: 0 <= k < LMAX ==> frelst[k] == []
      ensures freePages == allocPages == maxPages == 0 && faults == 0 && blocks == map[]
    {
      kind, desc, msanr, padrs := ty, table, n, PageNumbers(table[..], n);
      frelst, fobjnr, mobjnr := seq(LMAX, _ => []), seq(LMAX, _ => 0), seq(LMAX, _ => 0);
      freePages, allocPages, maxPages, faults := 0, 0, 0, 0;
      blocks := map[];
    }

    /** `scan_len_msadsc`: how many pages after start continue its run. */
    method ScanLen(start: nat, mnr: nat) returns (ok: bool, len: nat)
      requires start < msanr < desc.Length && mnr == msanr
      requires Eligible(desc[start], kind) && !Eligible(desc[msanr], kind)
      ensures ok && start + len < msanr
      ensures forall i :: start <= i < start + len ==> Continues(desc[i], desc[i + 1], kind)
      ensures forall i :: start <= i <= start + len ==> Eligible(desc[i], kind)
      ensures !Continues(desc[start + len], desc[start + len + 1], kind)
    {
      len := 0;
      for tm := 0 to mnr - 1
        invariant len == tm && start + tm < msanr
        invariant forall i :: start <= i <= start + tm ==> Eligible(desc[i], kind)
        invariant forall i :: start <= i < start + tm ==> Continues(desc[i], desc[i + 1], kind)
      {
        if !Continues(desc[start + tm], desc[start + tm + 1], kind) {
          return true, len;
        }
        len := len + 1;
      }
      ok := true;
    }

    /** `merlove_scan_continumsadsc`: the next maximal run at or after from. */
    method FindRun(from: nat) returns (found: bool, start: nat, len: nat)
      requires from <= msanr < desc.Length && !Eligible(desc[msanr], kind)
      modifies this`faults
      ensures faults == old(faults) && from <= start <= msanr
      ensures forall i :: from <= i < start ==> !Eligible(desc[..][i], kind)
      ensures if found then len > 0 && start + len <= msanr else len == 0 && start == msanr
      ensures IsRun(desc[..], start, len, kind)
      ensures found ==> !Continues(desc[..][start + len - 1], desc[..][start + len], kind)
    {
      start, found, len := from, false, 0;
      while start < msanr
        invariant from <= start <= msanr && faults == old(faults)
        invariant forall i :: from <= i < start ==> !Eligible(desc[i], kind)
      {
        if Eligible(desc[start], kind) {
          var ok, more := ScanLen(start, msanr);
          faults := faults + Fault(!ok);
          return true, start, more + 1;
        }
        start := start + 1;
      }
    }

    /** `check_continumsadsc`: every page of start..end may be mounted and follows the one before. */
    method CheckRun(start: nat, end: nat, fmnr: nat) returns (ok: nat)
      requires start <= end < desc.Length
      ensures ok > 0 <==> end - start + 1 == fmnr && IsRun(desc[..], start, fmnr, kind)
    {
      ok := 0;
      if start == end {
        return if Eligible(desc[start], kind) && fmnr == 1 then 1 else 0;
      }
      var ms := start;
      while ms < end
        invariant start <= ms <= end && ok == ms - start
        invariant ok > 0 ==> forall i :: start <= i <= ms ==> Eligible(desc[i], kind)
        invariant forall i :: start <= i < ms ==> Continues(desc[i], desc[i + 1], kind)
      {
        if !Continues(desc[ms], desc[ms + 1], kind) {
          return 0;
        }
        ok := ok + 1;
        ms := ms + 1;
      }
      assert Continues(desc[start], desc[start + 1], kind);
      return if ok + 1 != fmnr then 0 else ok;
    }

    /** `find_continumsa_inbafhlst`: the largest order that fits; refused from the last order on. */
    method FindOrder(n: nat) returns (ok: bool, k: nat)
      requires n > 0
      ensures ok <==> n < RUN_LIMIT
      ensures ok ==> k == HighBit(n)
    {
      var count := 0;
      k := 0;
      for li := 0 to LMAX
        invariant count == Min(li, HighBit(n) + 1)
        invariant li > 0 ==> k == count - 1
      {
        if li <= HighBit(n) {
          Pow2Monotone(li, HighBit(n));
        } else {
          Pow2Monotone(HighBit(n) + 1, li);
        }
        if Pow2(li) <= n {
          k := li;
          count := count + 1;
        }
      }
      LastOrder();
      if HighBit(n) < LMAX - 1 {
        Pow2Monotone(HighBit(n) + 1, LMAX - 1);
      } else {
        Pow2Monotone(LMAX - 1, HighBit(n));
      }
      ok := count < LMAX;
    }

    /**
      `continumsadsc_add_bafhlst`: hang the fmnr fresh pages start..end on pool k. The message that
      its caller's caller prints on a refusal is counted here.
    */
    method AddFresh(k: nat, start: nat, end: nat, fmnr: nat) returns (ok: bool)
      requires ListsCounted(frelst, fobjnr, mobjnr) && k < LMAX && start <= end < desc.Length && fmnr > 0
      modifies this, desc
      ensures ok <==> fmnr == Pow2(k) && start + fmnr - 1 == end
      ensures ok ==> desc[..] == AddWrites(old(desc[..]), start, k)
      ensures ok ==> Abs() == Add(old(Abs()), start, k)
      ensures ListsCounted(frelst, fobjnr, mobjnr) && faults == old(faults) + Fault(!ok)
    {
      ok := Pow2(k) == fmnr && start + fmnr - 1 == end;
      faults := faults + Fault(!ok);
      if !ok {
        return;
      }
      desc[start] := desc[start].(olkty := Oder, odlink := ToPage(end));
      desc[end] := desc[end].(olkty := Bafh, odlink := ToPool(k));
      frelst := frelst[k := [start] + frelst[k]];
      fobjnr := fobjnr[k := fobjnr[k] + 1];
      mobjnr := mobjnr[k := mobjnr[k] + 1];
      maxPages := maxPages + fmnr;
      freePages := freePages + fmnr;
      blocks := blocks[start := Block(k, 0)];
    }

    /** Everything below p is mounted; the table was d0 when mounting began. */
    ghost predicate MountedTo(d0: seq<Desc>, p: nat)
      reads this`frelst, this`fobjnr, this`mobjnr, this`blocks
      reads this`freePages, this`allocPages, this`maxPages, desc
    {
      ListsCounted(frelst, fobjnr, mobjnr) && Mounted(desc[..], d0, msanr, Abs(), kind, p)
    }

    /** `continumsadsc_mareabafh_core`: hang the largest block that fits at p; n pages of the run are left. */
    method CarveStep(p: nat, n: nat) returns (q: nat, left: nat)
      requires ListsCounted(frelst, fobjnr, mobjnr) && 0 < n < RUN_LIMIT && p + n <= desc.Length
      modifies this, desc
      ensures left < n && q + left == p + n && faults == old(faults) && ListsCounted(frelst, fobjnr, mobjnr)
      ensures AddRun(Abs(), q, left) == AddRun(old(Abs()), p, n)
      ensures CarveDescs(desc[..], q, left) == CarveDescs(old(desc[..]), p, n)
    {
      var ok, k := FindOrder(n);
      faults := faults + Fault(!ok);
      q := p + Pow2(k);
      left := n - Pow2(k);
      AddRunStep(Abs(), p, n, k, q, left);
      CarveDescsStep(desc[..], p, n, k, q, left);
      ok := AddFresh(k, p, q - 1, Pow2(k));
    }

    /** `merlove_continumsadsc_mareabafh`: carve the run of n pages at a into blocks. */
    method CarveRun(a: nat, n: nat)
      requires ListsCounted(frelst, fobjnr, mobjnr) && n < RUN_LIMIT && a + n <= desc.Length
      modifies this, desc
      ensures faults == old(faults) && ListsCounted(frelst, fobjnr, mobjnr)
      ensures Abs() == AddRun(old(Abs()), a, n) && desc[..] == CarveDescs(old(desc[..]), a, n)
    {
      var p: nat, left: nat := a, n;
      ghost var t, e := AddRun(Abs(), a, n), CarveDescs(desc[..], a, n);
      while left > 0
        invariant left <= n && p + left == a + n && faults == old(faults) && ListsCounted(frelst, fobjnr, mobjnr)
        invariant AddRun(Abs(), p, left) == t && CarveDescs(desc[..], p, left) == e
      {
        p, left := CarveStep(p, left);
      }
    }

    /**
      `merlove_mem_onmemarea`: mount every free page of the area. The result is a valid area whose
      blocks cover exactly the pages that could be mounted.
    */
    method Mount()
      requires ListsCounted(frelst, fobjnr, mobjnr) && forall k :: 0 <= k < LMAX ==> frelst[k] == []
      requires freePages == allocPages == maxPages == 0 && blocks == map[] && msanr < RUN_LIMIT
      requires Fresh(desc[..], msanr, kind) && padrs == PageNumbers(desc[..], msanr)
      modifies this, desc
      ensures Valid() && faults == old(faults) && allocPages == 0
      ensures forall i :: 0 <= i < msanr ==>
        (Covers(blocks, i) <==>
          var x := old(desc[..])[i]; x.marty == kind && x.free && !x.alloc && x.refcnt == 0)
    {
      ghost var d0 := desc[..];
      EmptyMounted(d0, msanr, Abs(), kind);
      var next := 0;
      while next < msanr
        invariant MountedTo(d0, next) && faults == old(faults)
        invariant 0 < next ==> !Continues(d0[next - 1], d0[next], kind)
      {
        next := MountNext(next, d0);
      }
      NothingLive(blocks, msanr);
    }

    /** One turn of `merlove_mem_onmemarea`: find a run, check it and carve it. */
    method MountNext(from: nat, ghost d0: seq<Desc>) returns (next: nat)
      requires MountedTo(d0, from) && from < msanr < RUN_LIMIT
      requires 0 < from ==> !Continues(d0[from - 1], d0[from], kind)
      modifies this, desc
      ensures MountedTo(d0, next) && from < next && faults == old(faults)
      ensures !Continues(d0[next - 1], d0[next], kind)
    {
      ghost var d := desc[..];
      var found, start, len := FindRun(from);
      next := start + len;
      RunFound(d, d0, msanr, Abs(), kind, from, start, len, next);
      if found {
        MountRun(start, len, d0, next);
      }
    }

    /** ...with the run found. */
    method MountRun(start: nat, len: nat, ghost d0: seq<Desc>, ghost end: nat)
      requires ListsCounted(frelst, fobjnr, mobjnr) && 0 < len < RUN_LIMIT && end == start + len
      requires CarvedTo(desc[..], d0, msanr, Abs(), kind, start, start, end)
      requires end <= desc.Length && IsRun(desc[..], start, len, kind)
      modifies this, desc
      ensures MountedTo(d0, end) && faults == old(faults)
    {
      ConfirmRun(start, len);
      CarveAll(desc[..], d0, msanr, Abs(), kind, start, start, end, len,
        CarveDescs(desc[..], start, len), AddRun(Abs(), start, len));
      CarveRun(start, len);
    }

    /** The check of `merlove_mem_onmemarea` on the run its scan has found. */
    method ConfirmRun(start: nat, len: nat)
      requires 0 < len && start + len <= desc.Length && IsRun(desc[..], start, len, kind)
      modifies this`faults
      ensures faults == old(faults)
    {
      var ok := CheckRun(start, start + len - 1, len);
      faults := faults + Fault(ok == 0);
    }

    // ---------- allocation ----------

    /** `onmpgs_retn_bafhlst`: the pool asked for and the pool to split. */
    method FindPools(pages: nat) returns (ok: bool, rel: nat, div: nat)
      requires ListsCounted(frelst, fobjnr, mobjnr)
      ensures ok <==> pages >= 1 && DivOrder(pages) < LMAX && FindPool(frelst, DivOrder(pages)) < LMAX
      ensures ok ==> rel == DivOrder(pages) && div == FindPool(frelst, rel)
    {
      ok, rel, div := false, 0, 0;
      if pages < 1 {
        return;
      }
      var dividx := DivOrder(pages);
      if dividx >= LMAX || pages > Pow2(dividx) {
        return;
      }
      var idx := dividx;
      while idx < LMAX
        invariant dividx <= idx <= LMAX
        invariant FindPool(frelst, dividx) == FindPool(frelst, idx)
      {
        Pow2Monotone(dividx, idx);
        if Pow2(idx) >= pages && 0 < fobjnr[idx] {
          return true, dividx, idx;
        }
        idx := idx + 1;
      }
    }

    /** `mm_retnmsaob_onbafhlst`: unlink the front block of pool k. */
    method Unlink(k: nat) returns (start: nat, end: nat)
      requires ListsCounted(frelst, fobjnr, mobjnr) && k < LMAX && frelst[k] != []
      requires frelst[k][0] + Pow2(k) <= desc.Length && FreeTags(desc[..], frelst[k][0], k)
      modifies this`frelst, this`fobjnr, this`mobjnr
      ensures frelst == old(frelst)[k := old(frelst)[k][1..]]
      ensures ListsCounted(frelst, fobjnr, mobjnr)
      ensures start == old(frelst)[k][0] && end == start + Pow2(k) - 1
    {
      start := frelst[k][0];
      end := if desc[start].olkty == Bafh then start else desc[start].odlink.page;
      frelst := frelst[k := frelst[k][1..]];
      fobjnr := fobjnr[k := fobjnr[k] - 1];
      mobjnr := mobjnr[k := mobjnr[k] - 1];
    }

    /** `mrdmb_add_msa_bafh`: hang pages start..end, split off a larger block, on pool k. */
    method AddSplit(k: nat, start: nat, end: nat) returns (ok: bool)
      requires ListsCounted(frelst, fobjnr, mobjnr) && k < LMAX && start <= end < desc.Length
      modifies this`frelst, this`fobjnr, this`mobjnr, desc
      ensures ok <==> end - start + 1 == Pow2(k) && old(Idle(desc[start]) && Idle(desc[end]))
      ensures ok ==>
        var d1 := old(desc[..])[start := old(desc[start]).(olkty := Oder, odlink := ToPage(end))];
        desc[..] == d1[end := d1[end].(olkty := Bafh, odlink := ToPool(k))]
      ensures ok ==> frelst == old(frelst)[k := [start] + old(frelst)[k]]
      ensures ListsCounted(frelst, fobjnr, mobjnr)
    {
      ok := false;
      if end - start + 1 != Pow2(k) {
        return;
      }
      if 0 < desc[start].refcnt || 0 < desc[end].refcnt {
        return;
      }
      if desc[start].alloc || desc[end].alloc {
        return;
      }
      desc[start] := desc[start].(olkty := Oder, odlink := ToPage(end));
      desc[end] := desc[end].(olkty := Bafh, odlink := ToPool(k));
      frelst := frelst[k := [start] + frelst[k]];
      mobjnr := mobjnr[k := mobjnr[k] + 1];
      fobjnr := fobjnr[k := fobjnr[k] + 1];
      ok := true;
    }

    /** The descriptor and list updates of one turn of the split loop. */
    method SplitHalf(start: nat, k: nat)
      requires ListsCounted(frelst, fobjnr, mobjnr) && k < LMAX
      requires start + Pow2(k + 1) <= desc.Length && LooseTags(desc[..], start, k + 1)
      modifies this`frelst, this`fobjnr, this`mobjnr, this`faults, desc
      ensures Pow2(k + 1) == 2 * Pow2(k)
      ensures desc[..] == SplitWrites(old(desc[..]), start, k) && LooseTags(desc[..], start, k)
      ensures frelst == old(frelst)[k := [start + Pow2(k)] + old(frelst)[k]]
      ensures ListsCounted(frelst, fobjnr, mobjnr) && faults == old(faults)
    {
      ghost var d := desc[..];
      HalvesTags(d, start, k);
      var half := Pow2(k);
      var ok := AddSplit(k, start + half, desc[start].odlink.page);
      faults := faults + Fault(!ok);
      desc[start] := desc[start].(odlink := ToPage(start + half - 1));
      assert desc[..] == SplitWrites(d, start, k);
    }

    /** One turn of the split loop, from order k + 1 to k, with the area `goal` and the table e ahead. */
    method SplitStep(start: nat, k: nat, ghost from: nat, ghost rel: nat, ghost t: Area, ghost goal: Area, ghost e: seq<Desc>)
      returns (half: nat, ghost u: Area)
      requires ListsCounted(frelst, fobjnr, mobjnr) && t.pools == frelst && rel < from == k + 1 <= LMAX
      requires start + Pow2(from) <= desc.Length && LooseTags(desc[..], start, from)
      requires SplitDown(t, start, from, rel) == goal && SplitDescs(desc[..], start, from, rel) == e
      modifies this`frelst, this`fobjnr, this`mobjnr, this`faults, desc
      ensures faults == old(faults) && ListsCounted(frelst, fobjnr, mobjnr) && u.pools == frelst
      ensures half == Pow2(k) && Pow2(from) == 2 * half && LooseTags(desc[..], start, k)
      ensures SplitDown(u, start, k, rel) == goal && SplitDescs(desc[..], start, k, rel) == e
    {
      half := Pow2(k);
      ghost var d := desc[..];
      SplitDownStep(t, start, from, rel);
      u := SplitOnce(t, start, from);
      SplitHalf(start, k);
      SplitDescsStep(d, start, from, rel, k, desc[..]);
    }

    /** The split loop of `mm_reldpgsdivmsa_bafhl`: hand upper halves down until order rel is left. */
    method SplitTo(start: nat, div: nat, rel: nat, ghost s: Area) returns (divnr: nat)
      requires ListsCounted(frelst, fobjnr, mobjnr) && rel <= div < LMAX && s.pools == frelst
      requires start + Pow2(div) <= desc.Length && LooseTags(desc[..], start, div)
      modifies this`frelst, this`fobjnr, this`mobjnr, this`faults, desc
      ensures faults == old(faults) && divnr == Pow2(rel) && ListsCounted(frelst, fobjnr, mobjnr)
      ensures start + divnr <= desc.Length && LooseTags(desc[..], start, rel)
      ensures desc[..] == SplitDescs(old(desc[..]), start, div, rel) && frelst == SplitDown(s, start, div, rel).pools
    {
      divnr := Pow2(div);
      var k := div;
      ghost var t, goal, e := s, SplitDown(s, start, div, rel), SplitDescs(desc[..], start, div, rel);
      while k > rel
        invariant rel <= k <= div && divnr == Pow2(k) && faults == old(faults)
        invariant start + divnr <= desc.Length && LooseTags(desc[..], start, k)
        invariant t.pools == frelst && ListsCounted(frelst, fobjnr, mobjnr)
        invariant SplitDown(t, start, k, rel) == goal && SplitDescs(desc[..], start, k, rel) == e
      {
        ghost var from := k;
        var half;
        k := k - 1;
        half, t := SplitStep(start, k, from, rel, t, goal, e);
        divnr := divnr - half;
      }
    }

    /** `mm_divpages_opmsadsc`: mark the block of mnr pages at start allocated. */
    method MarkAllocated(start: nat, mnr: nat, ghost k: nat)
      requires mnr == Pow2(k) && start + mnr <= desc.Length
      requires FreeTags(desc[..], start, k) || LooseTags(desc[..], start, k)
      modifies this`faults, desc
      ensures faults == old(faults)
      ensures AgreeOutside(old(desc[..]), desc[..], start, start + mnr)
      ensures LiveTags(desc[..], start, k, 1)
    {
      AllocBlockTags(desc[..], start, k);
      ghost var d := desc[..];
      faults := faults + Fault(desc[start].olkty == Init || desc[start].odlink == Null || desc[start].alloc);
      var end := if desc[start].olkty == Bafh then start else desc[start].odlink.page;
      faults := faults + Fault(end < start);
      faults := faults + Fault(end - start + 1 != mnr);
      faults := faults + Fault(desc[start].refcnt > MF_UINDX_MAX - 1 || desc[end].refcnt > MF_UINDX_MAX - 1
                               || desc[start].refcnt != desc[end].refcnt);
      if end == start {
        desc[start] := desc[start].(refcnt := desc[start].refcnt + 1, alloc := true, olkty := Oder, odlink := ToPage(end));
        return;
      }
      desc[start] := desc[start].(refcnt := desc[start].refcnt + 1, alloc := true);
      desc[end] := desc[end].(refcnt := desc[end].refcnt + 1, alloc := true);
      desc[start] := desc[start].(olkty := Oder, odlink := ToPage(end));
      assert desc[..] == AllocWrites(d, start, end);
    }

    /** `mm_reldivpages_onmarea` and the counters of `mm_divpages_core`. */
    method Divide(pages: nat) returns (g: Grant)
      requires Valid()
      modifies this, desc
      ensures Valid() && faults == old(faults)
      ensures (Abs(), g) == Alloc(old(Abs()), pages)
    {
      g := NoPages;
      if pages >= 1 && freePages >= pages && maxPages >= pages {
        var ok, rel, div := FindPools(pages);
        if ok {
          ghost var s := Abs();
          g := DivideCounted(div, rel);
          assert (Abs(), g) == Alloc(s, pages);
          AllocKeepsInv(s, pages);
        }
      }
    }

    /** `mm_reldpgsdivmsa_bafhl`: take the front block of pool div, cut it to order rel, mark it. */
    method DivideFrom(div: nat, rel: nat, ghost s: Area) returns (start: nat, count: nat, ghost t: Area)
      requires ListsCounted(frelst, fobjnr, mobjnr) && rel <= div < LMAX && frelst[div] != []
      requires s.pools == frelst && s.padrs == padrs
      requires TransitRep(desc[..], msanr, Take(s, div), frelst[div][0], div, kind)
      requires FreeTags(desc[..], frelst[div][0], div) && (0 < div ==> LooseTags(desc[..], frelst[div][0], div))
      modifies this`frelst, this`fobjnr, this`mobjnr, this`faults, desc
      ensures start == old(frelst)[div][0] && count == Pow2(rel) && faults == old(faults)
      ensures t == SplitDown(Take(s, div), start, div, rel)
      ensures t.pools == frelst && t.padrs == padrs && ListsCounted(frelst, fobjnr, mobjnr)
      ensures Rep(desc[..], msanr, padrs, t.blocks, kind)
    {
      var end;
      start, end := Unlink(div);
      count := Pow2(rel);
      t := SplitDown(Take(s, div), start, div, rel);
      if rel < div {
        SplitAllRep(desc[..], msanr, Take(s, div), start, div, rel, kind, SplitDescs(desc[..], start, div, rel), t);
        count := SplitTo(start, div, rel, Take(s, div));
      }
      ghost var d := desc[..];
      MarkAllocated(start, count, rel);
      MarkRep(d, desc[..], msanr, t, start, rel, kind);
    }

    /** ...from an area in order. */
    method DivideBlock(div: nat, rel: nat, ghost s: Area) returns (start: nat, count: nat, ghost t: Area)
      requires Rep(desc[..], msanr, s.padrs, s.blocks, kind) && Structure(s) && ListsCounted(frelst, fobjnr, mobjnr)
      requires rel <= div < LMAX && frelst[div] != [] && s.pools == frelst && s.padrs == padrs
      modifies this`frelst, this`fobjnr, this`mobjnr, this`faults, desc
      ensures start == s.pools[div][0] && count == Pow2(rel) && faults == old(faults)
      ensures t == SplitDown(Take(s, div), start, div, rel)
      ensures t.pools == frelst && ListsCounted(frelst, fobjnr, mobjnr)
      ensures Rep(desc[..], msanr, padrs, t.blocks, kind)
    {
      FrontReady(desc[..], msanr, s, div, kind, frelst[div][0]);
      start, count, t := DivideFrom(div, rel, s);
    }

    /** `mm_divpages_core` once the pools are known: cut, mark, count. */
    method DivideCounted(div: nat, rel: nat) returns (g: Grant)
      requires Rep(desc[..], msanr, padrs, blocks, kind) && Structure(Abs()) && ListsCounted(frelst, fobjnr, mobjnr)
      requires rel <= div < LMAX && frelst[div] != []
      modifies this, desc
      ensures g == Pages(old(frelst)[div][0], Pow2(rel))
      ensures var t := SplitDown(Take(old(Abs()), div), g.head, div, rel);
        frelst == t.pools && blocks == t.blocks
      ensures freePages == old(freePages) - g.count && allocPages == old(allocPages) + g.count
      ensures maxPages == old(maxPages)
      ensures Rep(desc[..], msanr, padrs, blocks, kind) && ListsCounted(frelst, fobjnr, mobjnr)
      ensures faults == old(faults)
    {
      ghost var s := Abs();
      var start, count;
      ghost var t;
      start, count, t := DivideBlock(div, rel, s);
      freePages := freePages - count;
      allocPages := allocPages + count;
      blocks := t.blocks;
      g := Pages(start, count);
    }

    /** `mm_maxdivpages_onmarea`: hand out the front block of the largest non-empty pool. */
    method DivideMax() returns (g: Grant)
      requires Valid()
      modifies this, desc
      ensures Valid() && faults == old(faults)
      ensures (Abs(), g) == AllocMax(old(Abs()))
    {
      var li := LMAX;
      while li > 0 && fobjnr[li - 1] == 0
        invariant 0 <= li <= LMAX
        invariant FindLargest(frelst, LMAX) == FindLargest(frelst, li)
      {
        li := li - 1;
      }
      g := NoPages;
      if li > 0 {
        ghost var s := Abs();
        g := DivideCounted(li - 1, li - 1);
        assert (Abs(), g) == AllocMax(s);
        AllocMaxKeepsInv(s);
      }
    }

    // ---------- release ----------

    /** The checks of `mm_merpages_opmsadsc`, and the last page of the block. */
    method CheckedEnd(start: nat, pgs: nat, k: nat, ghost refs: nat) returns (end: nat)
      requires pgs == Pow2(k) && start + pgs <= desc.Length && refs > 0
      requires LiveTags(desc[..], start, k, refs)
      modifies this`faults
      ensures faults == old(faults) && end == start + pgs - 1
    {
      faults := faults + Fault(desc[start].olkty != Oder || desc[start].odlink == Null);
      end := desc[start].odlink.page;
      faults := faults + Fault(end < start || end - start + 1 != pgs || Pow2(k) != pgs);
      faults := faults + Fault(!desc[start].alloc || desc[start].refcnt < 1);
      faults := faults + Fault(!desc[end].alloc || desc[end].refcnt < 1);
      faults := faults + Fault(desc[start].refcnt != desc[end].refcnt);
    }

    /** `mm_merpages_opmsadsc`: drop one reference; true when it was the last. */
    method DropReference(start: nat, pgs: nat, k: nat, ghost refs: nat) returns (last: bool)
      requires pgs == Pow2(k) && start + pgs <= desc.Length && refs > 0
      requires LiveTags(desc[..], start, k, refs)
      modifies this`faults, desc
      ensures faults == old(faults) && last == (refs == 1)
      ensures AgreeOutside(old(desc[..]), desc[..], start, start + pgs)
      ensures if last then FreeTags(desc[..], start, k) else LiveTags(desc[..], start, k, refs - 1)
    {
      FreeBlockTags(desc[..], start, k, refs);
      ghost var d := desc[..];
      var end := CheckedEnd(start, pgs, k, refs);
      desc[start] := desc[start].(refcnt := desc[start].refcnt - 1);
      if start != end {
        desc[end] := desc[end].(refcnt := desc[end].refcnt - 1);
      }
      last := desc[start].refcnt == 0;
      if last {
        desc[start] := desc[start].(alloc := false, olkty := Oder, odlink := ToPage(end));
        desc[end] := desc[end].(alloc := false, olkty := Bafh, odlink := ToPool(k));
      }
      assert desc[..] == FreeWrites(d, start, end, k);
    }

    /** `mm_clear_2msaolflg` and `chek_cl2molkflg`: make one block of the halves at a and b. */
    method Fuse(k: nat, a: nat, b: nat) returns (cleared: bool)
      requires a + Pow2(k) == b && b + Pow2(k) <= desc.Length
      requires FreeTags(desc[..], a, k) && FreeTags(desc[..], b, k)
      modifies this`faults, desc
      ensures cleared && faults == old(faults)
      ensures a + Pow2(k + 1) <= desc.Length && FreeTags(desc[..], a, k + 1)
      ensures AgreeOutside(old(desc[..]), desc[..], a, b + Pow2(k))
    {
      MergedBlockTags(desc[..], a, b, k);
      ghost var d := desc[..];
      var end := b + Pow2(k) - 1;
      cleared := a != b && b - 1 != end;
      if cleared {
        desc[b - 1] := desc[b - 1].(olkty := Init, odlink := Null);
        desc[b] := desc[b].(olkty := Init, odlink := Null);
        desc[a] := desc[a].(olkty := Oder, odlink := ToPage(end));
        desc[end] := desc[end].(olkty := Bafh, odlink := ToPool(k + 1));
        assert desc[..] == MergeWrites(d, a, b, k);
        faults := faults + Fault(!MergedOk(desc[..], k + 1, a, b - 1, b, end));
      }
    }

    /** The list walk of `mm_find_cmsa2blk`: the first block of pool k next to ms..me. */
    method FindBeside(k: nat, ms: nat) returns (at: nat)
      requires k < |frelst| && CandidateBlock(desc[..], ms, k) && Candidates(desc[..], frelst[k], ms, k)
      requires |padrs| <= desc.Length && (forall i :: 0 <= i < |padrs| ==> desc[i].padrs == padrs[i])
      requires ms + Pow2(k) <= |padrs|
      requires forall i :: 0 <= i < |frelst[k]| ==> frelst[k][i] + Pow2(k) <= |padrs|
      modifies this`faults
      ensures faults == old(faults)
      ensures at == FindNeighbour(padrs, frelst[k], ms, k)
    {
      at := 0;
      var me := ms + Pow2(k) - 1;
      while at < |frelst[k]|
        invariant 0 <= at <= |frelst[k]| && faults == old(faults)
        invariant forall j :: 0 <= j < at ==> !Adjacent(padrs, ms, frelst[k][j], k)
      {
        var g := frelst[k][at];
        var ge := g + Pow2(k) - 1;
        assert CandidateBlock(desc[..], g, k);
        faults := faults + Fault(!BlockOk(desc[..], k, ms, me)) + Fault(!BlockOk(desc[..], k, g, ge));
        if ms < g && me + 1 == g && desc[me].padrs + 1 == desc[g].padrs {
          return;
        }
        if ms > g && ge + 1 == ms && desc[ge].padrs + 1 == desc[ms].padrs {
          return;
        }
        at := at + 1;
      }
    }

    /** The block at ms, of order j, is being merged; everything else represents t. */
    ghost predicate Merging(t: Area, ms: nat, j: nat)
      reads this`frelst, this`fobjnr, this`mobjnr, desc
    {
      && TransitRep(desc[..], msanr, t, ms, j, kind) && FreeTags(desc[..], ms, j)
      && t.padrs == padrs && t.pools == frelst && ListsCounted(frelst, fobjnr, mobjnr)
    }

    /** Unlink the block found beside the one at ms and fuse the two. */
    method Absorb(j: nat, ms: nat, at: nat) returns (cleared: bool, ns: nat)
      requires ListsCounted(frelst, fobjnr, mobjnr) && j < LMAX && at < |frelst[j]|
      requires Adjacent(padrs, ms, frelst[j][at], j)
      requires CandidateBlock(desc[..], ms, j) && CandidateBlock(desc[..], frelst[j][at], j)
      modifies this`frelst, this`fobjnr, this`mobjnr, this`faults, desc
      ensures cleared && faults == old(faults) && ListsCounted(frelst, fobjnr, mobjnr)
      ensures frelst == old(frelst)[j := Without(old(frelst)[j], at)]
      ensures var g := old(frelst)[j][at];
        var nx := if ms < g then g else ms;
        ns == Min(ms, g) && AgreeOutside(old(desc[..]), desc[..], ns, nx + Pow2(j))
      ensures ns + Pow2(j + 1) <= desc.Length && FreeTags(desc[..], ns, j + 1)
    {
      var g := frelst[j][at];
      frelst := frelst[j := Without(frelst[j], at)];
      fobjnr := fobjnr[j := fobjnr[j] - 1];
      mobjnr := mobjnr[j := mobjnr[j] - 1];
      ns := Min(ms, g);
      cleared := Fuse(j, ns, if ms < g then g else ms);
    }

    /** `mm_find_cmsa2blk`: merge the block with a neighbour of its pool, if there is one. */
    method MergeStep(j: nat, ms: nat, ghost t: Area, ghost goal: Area) returns (rets: nat, ns: nat, ghost u: Area)
      requires Merging(t, ms, j) && j < LMAX - 1 && MergeUp(t, ms, j) == goal
      modifies this`frelst, this`fobjnr, this`mobjnr, this`faults, desc
      ensures faults == old(faults) && (rets == ALONE || rets == MERGED)
      ensures Merging(u, ns, if rets == MERGED then j + 1 else j)
      ensures rets == MERGED ==> MergeUp(u, ns, j + 1) == goal
      ensures rets == ALONE ==> Insert(u, ns, j) == goal
    {
      rets, ns, u := ALONE, ms, t;
      ghost var d := desc[..];
      PoolCandidates(d, msanr, t, ms, j);
      var at := FindBeside(j, ms);
      if at < |frelst[j]| {
        ghost var g := frelst[j][at];
        assert CandidateBlock(d, g, j);
        var cleared;
        cleared, ns := Absorb(j, ms, at);
        MergeStepRep(d, desc[..], msanr, t, ms, j, kind, at, ns, if ms < g then g else ms);
        MergeUpStep(t, ms, j, at);
        u := Coalesce(t, ms, j, at);
        rets := MergeCode(cleared);
      }
    }

    /** `mpobf_add_msadsc`: put the merged block on the front of pool j. */
    method AddToPool(j: nat, ms: nat, ghost t: Area) returns (ok: bool)
      requires Merging(t, ms, j) && msanr < 0x10_0000_0000_0000
      modifies this`frelst, this`fobjnr, this`mobjnr, this`faults, desc
      ensures ok && faults == old(faults)
      ensures frelst == Insert(t, ms, j).pools && ListsCounted(frelst, fobjnr, mobjnr)
      ensures Rep(desc[..], msanr, padrs, Insert(t, ms, j).blocks, kind)
    {
      ghost var d := desc[..];
      InsertRep(d, msanr, t, ms, j, kind);
      PoolBound(t, j);
      var me := ms + Pow2(j) - 1;
      ok := fobjnr[j] < U64_MAX && mobjnr[j] < U64_MAX;
      faults := faults + Fault(!ok);
      if ok {
        TagFree(j, ms, me);
        frelst := frelst[j := [ms] + frelst[j]];
        fobjnr := fobjnr[j := fobjnr[j] + 1];
        mobjnr := mobjnr[j := mobjnr[j] + 1];
      }
    }

    /** The tags `mpobf_add_msadsc` writes are those a merged block has already. */
    method TagFree(j: nat, ms: nat, me: nat)
      requires me == ms + Pow2(j) - 1 && ms + Pow2(j) <= desc.Length && FreeTags(desc[..], ms, j)
      modifies desc
      ensures desc[..] == old(desc[..])
    {
      ghost var d := desc[..];
      desc[ms] := desc[ms].(olkty := Oder, odlink := ToPage(me));
      desc[me] := desc[me].(olkty := Bafh, odlink := ToPool(j));
      assert desc[..] == d;
    }

    /** `mm_merpages_onbafhlst`: merge upwards while a neighbour is found, then add. */
    method MergeOnto(start: nat, k: nat, ghost s: Area) returns (ok: bool)
      requires Merging(s, start, k) && msanr < 0x10_0000_0000_0000
      modifies this`frelst, this`fobjnr, this`mobjnr, this`faults, desc
      ensures ok && faults == old(faults)
      ensures frelst == MergeUp(s, start, k).pools && ListsCounted(frelst, fobjnr, mobjnr)
      ensures Rep(desc[..], msanr, padrs, MergeUp(s, start, k).blocks, kind)
    {
      var ms, j;
      ghost var t;
      ms, j, t := MergeLoop(start, k, s);
      ok := AddToPool(j, ms, t);
    }

    /** The loop of `mm_merpages_onbafhlst`. */
    method MergeLoop(start: nat, k: nat, ghost s: Area) returns (ms: nat, j: nat, ghost t: Area)
      requires Merging(s, start, k)
      modifies this`frelst, this`fobjnr, this`mobjnr, this`faults, desc
      ensures faults == old(faults) && Merging(t, ms, j) && j < LMAX && Insert(t, ms, j) == MergeUp(s, start, k)
    {
      var rets := MERGED;
      ms, j, t := start, k, s;
      ghost var goal := MergeUp(s, start, k);
      while j < LMAX - 1 && rets != ALONE
        invariant k <= j < LMAX && Merging(t, ms, j) && faults == old(faults) && (rets == ALONE || rets == MERGED)
        invariant rets == MERGED ==> MergeUp(t, ms, j) == goal
        invariant rets == ALONE ==> Insert(t, ms, j) == goal
        decreases LMAX - j, rets
      {
        rets, ms, t := MergeStep(j, ms, t, goal);
        faults := faults + Fault(rets == FAILED);
        j := if rets == ALONE then j else j + 1;
      }
    }

    /**
      The checks of `mm_merge_pages`, `onfrmsa_retn_marea`, `scan_freemsa_isok` and
      `onfpgs_retn_bafhlst`. They accept exactly the heads of live blocks with their own size; the
      only message is the one about the size.
    */
    method Accepts(page: nat, pgs: nat) returns (ok: bool)
      requires Rep(desc[..], msanr, padrs, blocks, kind) && Structure(Abs()) && page < msanr
      requires ListsCounted(frelst, fobjnr, mobjnr) && msanr < 0x10_0000_0000_0000
      modifies this`faults
      ensures ok <==> Releasable(Abs(), page, pgs)
      ensures ok ==> blocks[page].order == DivOrder(pgs) && page + pgs <= msanr
      ensures ok ==> LiveTags(desc[..], page, DivOrder(pgs), blocks[page].refs)
      ensures faults == old(faults) + Fault(SizeRefused(pgs))
    {
      if pgs < 1 {
        return false;
      }
      var dividx := DivOrder(pgs);
      faults := faults + Fault(pgs != ShiftOne(dividx));
      RefusedSize(Abs(), page, pgs);
      if pgs != ShiftOne(dividx) {
        return false;
      }
      LiveLooksAre(desc[..], msanr, Abs(), kind, page, pgs);
      ok := LooksLive(page, pgs);
      if ok {
        if dividx >= LMAX {
          return false;
        }
        PoolBound(Abs(), dividx);
        faults := faults + Fault(U64_MAX <= mobjnr[dividx]);
        ok := pgs == Pow2(dividx);
      }
    }

    /** `onfrmsa_retn_marea` and `scan_freemsa_isok`: the tags are those of a live block of pgs pages. */
    method LooksLive(page: nat, pgs: nat) returns (ok: bool)
      requires Rep(desc[..], msanr, padrs, blocks, kind) && Fits(padrs, blocks) && page < msanr
      ensures ok <==> TagsLookLive(desc[..], page, pgs, kind)
    {
      if desc[page].olkty != Oder || desc[page].odlink == Null {
        return false;
      }
      OderLinksInTable(desc[..], msanr, padrs, blocks, kind, page);
      var end := desc[page].odlink.page;
      if end - page + 1 != pgs || desc[page].marty != desc[end].marty || desc[page].marty != kind {
        return false;
      }
      ok := desc[page].refcnt >= 1 && desc[page].alloc && desc[end].alloc && desc[end].refcnt >= 1;
    }

    /** `mm_merpages_onmarea` after the last reference: merge the freed block, count its pages. */
    method MergeCounted(page: nat, pgs: nat, k: nat, ghost s: Area, ghost d: seq<Desc>)
      requires s == Abs() && Structure(s) && LiveAt(s, page, k) && pgs == Pow2(k)
      requires Rep(d, msanr, s.padrs, s.blocks, kind) && ListsCounted(frelst, fobjnr, mobjnr)
      requires page + pgs <= desc.Length && AgreeOutside(d, desc[..], page, page + pgs)
      requires FreeTags(desc[..], page, k) && msanr < 0x10_0000_0000_0000
      modifies this, desc
      ensures faults == old(faults) && Abs() == Release(s, page)
      ensures Rep(desc[..], msanr, padrs, blocks, kind) && ListsCounted(frelst, fobjnr, mobjnr)
    {
      DropLastRep(d, desc[..], msanr, s, page, k, kind);
      var ok := MergeOnto(page, k, s);
      if ok {
        freePages := freePages + pgs;
        allocPages := allocPages - pgs;
      }
      blocks := MergeUp(s, page, k).blocks;
      assert Abs() == Release(s, page);
    }

    /** `mm_merpages_onmarea` while others still hold the block. */
    ghost method KeepShared(page: nat, k: nat, s: Area, d: seq<Desc>)
      requires s == Abs() && Separate(s.blocks) && page in s.blocks && s.blocks[page].order == k && s.blocks[page].refs > 1
      requires Rep(d, msanr, s.padrs, s.blocks, kind) && page + Pow2(k) <= desc.Length
      requires AgreeOutside(d, desc[..], page, page + Pow2(k))
      requires LiveTags(desc[..], page, k, s.blocks[page].refs - 1)
      modifies this`blocks
      ensures Abs() == s.(blocks := s.blocks[page := Block(k, s.blocks[page].refs - 1)])
      ensures Rep(desc[..], msanr, padrs, blocks, kind)
    {
      DropOneRep(d, desc[..], msanr, padrs, s.blocks, page, kind);
      blocks := s.blocks[page := Block(k, s.blocks[page].refs - 1)];
    }

    /** `mm_merpages_onmarea` on an accepted block: drop a reference, merge after the last one. */
    method ReleaseBlock(page: nat, pgs: nat, k: nat, ghost s: Area)
      requires s == Abs() && Structure(s) && page in s.blocks && s.blocks[page].order == k && pgs == Pow2(k)
      requires Rep(desc[..], msanr, s.padrs, s.blocks, kind) && ListsCounted(frelst, fobjnr, mobjnr)
      requires page + pgs <= desc.Length && s.blocks[page].refs > 0
      requires LiveTags(desc[..], page, k, s.blocks[page].refs) && msanr < 0x10_0000_0000_0000
      modifies this, desc
      ensures faults == old(faults)
      ensures s.blocks[page].refs == 1 ==> Abs() == Release(s, page)
      ensures s.blocks[page].refs > 1 ==>
        Abs() == s.(blocks := s.blocks[page := Block(k, s.blocks[page].refs - 1)])
      ensures Rep(desc[..], msanr, padrs, blocks, kind) && ListsCounted(frelst, fobjnr, mobjnr)
    {
      ghost var d := desc[..];
      var last := DropReference(page, pgs, k, s.blocks[page].refs);
      if last {
        MergeCounted(page, pgs, k, s, d);
      } else {
        KeepShared(page, k, s, d);
      }
    }

    /** `mm_merge_pages`: give back pgs pages starting at page. */
    method Merge(page: nat, pgs: nat) returns (ok: bool)
      requires Valid() && page < msanr
      modifies this, desc
      ensures Valid() && faults == old(faults) + Fault(SizeRefused(pgs))
      ensures (Abs(), ok) == Free(old(Abs()), page, pgs)
    {
      ok := Accepts(page, pgs);
      if ok {
        ghost var s := Abs();
        ReleaseBlock(page, pgs, DivOrder(pgs), s);
        FreeAccepted(s, page, pgs);
        FreeKeepsInv(s, page, pgs);
      }
    }
  }
}
