/** A mounted volume: table copies, clusters and files, read and written in place. */
module FatVolume {
  import opened Sequences
  import opened Fat
  import opened FatLaws
  import opened FatTheorems

  /** The last turn of the read loop, as an equation. */
  lemma ReadLast(d: Disk, c: nat, offset: nat, n: nat)
    requires offset < d.bpc && n <= d.bpc - offset
    ensures ReadLoop(d, c, offset, n) == Cluster(d, c)[offset..offset + n]
  {
  }

  lemma Regroup(before: Bytes, chunk: Bytes, rest: Bytes, after: Bytes)
    requires after == chunk + rest
    ensures before + after == (before + chunk) + rest
  {
  }

  lemma FlatHeadTail(d: Disk, t: seq<nat>)
    requires t != []
    ensures |Flat(d, t)| == d.bpc + |Flat(d, t[1..])|
    ensures |t| == 1 ==> |Flat(d, t)| == d.bpc
  {
  }

  /** Any other turn of the read loop, as an equation. */
  lemma ReadMore(d: Disk, t: seq<nat>, offset: nat, n: nat)
    requires Linked(d, t) && offset < d.bpc && d.bpc - offset < n && offset + n <= |Flat(d, t)|
    ensures |t| > 1 && Linked(d, t[1..]) && Entry(d, t[0]) == t[1] && n - (d.bpc - offset) <= |Flat(d, t[1..])|
    ensures ReadLoop(d, t[0], offset, n) == Cluster(d, t[0])[offset..d.bpc] + ReadLoop(d, t[1], 0, n - (d.bpc - offset))
  {
    FlatHeadTail(d, t);
    LinkedTail(d, t);
    LinkedTaken(d, t);
    assert t[1] in t;
  }

  /** What the read loop is given for a read within the file. */
  lemma ReadReady(v: Volume, chains: Chains, f: nat, p: nat, k: nat, o: nat, count: nat, left: nat)
    requires f in v.files && f in chains && v.files[f].first != 0 && p < v.files[f].size && o < v.disk.bpc
    requires FileOk(v.disk, v.files[f], chains[f]) && k < |chains[f]| && |Flat(v.disk, chains[f][..k])| + o == p
    requires left == Min(p + count, v.files[f].size) - p
    ensures var t := chains[f][k..];
      Linked(v.disk, t) && t[0] == Walk(v.disk, chains[f][0], k) && o + left <= |Flat(v.disk, t)|
  {
    ChainAt(v.disk, chains[f], k);
  }

  /** Everything a write that fits promises, and where it starts. */
  lemma PrepareWrite(v: Volume, chains: Chains, f: nat, p: nat, buf: Bytes) returns (chains1: Chains)
    requires VolumeOk(v, chains) && f in v.files && Fits(v, chains, f, p, |buf|)
    ensures WholeSectors(v.disk) && v.disk.bpc > 0 && f in chains && FileOk(v.disk, v.files[f], chains[f])
    ensures v.files[f].first != 0 ==> ClusterAt(p, v.disk.bpc) < |chains[f]|
    ensures var w := Write(v, f, p, buf);
      && w.ok && VolumeOk(w.volume, chains1) && OthersKept(v, chains, f, w.volume, chains1)
      && (buf != [] ==> Read(w.volume, f, p, |buf|) == buf)
  {
    chains1 := WriteKeepsVolume(v, chains, f, p, buf);
    if buf != [] {
      WriteThenRead(v, chains, f, p, buf);
    }
    if v.files[f].first != 0 {
      Divide(v.disk, chains[f], p);
    }
  }

  /** The cluster after c, a free one linked behind c if the chain ends there, and whether the next is blank. */
  function LinkNext(d: Disk, c: nat, blank: bool): (r: (Disk, nat, bool))
    requires WholeSectors(d) && c < |d.fats[0]| && (Entry(d, c) >= EOC ==> FindFree(d, 0) < |d.fats[0]|)
    ensures WholeSectors(r.0) && |r.0.fats[0]| == |d.fats[0]| && r.0.bpc == d.bpc
  {
    if Entry(d, c) >= EOC then
      var n := FindFree(d, 0);
      (SetEntry(SetEntry(d, c, n), n, EOC), n, true)
    else (d, Entry(d, c), blank)
  }

  predicate CanTurn(d: Disk, c: nat, offset: nat, buf: Bytes, blank: bool) {
    && WholeSectors(d) && offset < d.bpc && c < |d.fats[0]|
    && var d1 := PutCluster(d, c, offset, buf, blank);
       |buf| > d.bpc - offset && Entry(d1, c) >= EOC ==> FindFree(d1, 0) < |d.fats[0]|
  }

  /** One turn of the write loop: the disk, the bytes left, the next cluster and whether it is blank. */
  function Turn(d: Disk, c: nat, offset: nat, buf: Bytes, blank: bool): (Disk, Bytes, nat, bool)
    requires CanTurn(d, c, offset, buf, blank)
  {
    var d1 := PutCluster(d, c, offset, buf, blank);
    if |buf| <= d.bpc - offset then (d1, [], c, blank)
    else
      var (d2, n, taken) := LinkNext(d1, c, blank);
      (d2, buf[d.bpc - offset..], n, taken)
  }

  /** A write loop that succeeds, after one turn. */
  lemma LoopTurn(d: Disk, c: nat, offset: nat, buf: Bytes, blank: bool)
    requires WholeSectors(d) && offset < d.bpc && c < |d.fats[0]| && WriteLoop(d, c, offset, buf, blank).1
    ensures CanTurn(d, c, offset, buf, blank)
    ensures var (e, rest, n, taken) := Turn(d, c, offset, buf, blank);
      && WholeSectors(e) && |e.fats[0]| == |d.fats[0]| && e.bpc == d.bpc
      && if rest == [] then WriteLoop(d, c, offset, buf, blank) == (e, true)
         else |rest| < |buf| && n < |d.fats[0]| && WriteLoop(d, c, offset, buf, blank) == WriteLoop(e, n, 0, rest, taken)
  {
  }

  /** A write that succeeds, taken apart: the first cluster, the loop, the new file size. */
  lemma WriteParts(v: Volume, f: nat, p: nat, buf: Bytes, k: nat, o: nat)
    requires WholeSectors(v.disk) && v.disk.bpc > 0 && f in v.files && Write(v, f, p, buf).ok
    requires k == ClusterAt(p, v.disk.bpc) && o == OffsetAt(p, v.disk.bpc) < v.disk.bpc
    ensures var d, x := v.disk, v.files[f];
      var c := if x.first == 0 then FindFree(d, 0) else Walk(d, x.first, k);
      c < |d.fats[0]|
      && var d1 := if x.first == 0 then SetEntry(d, c, EOC) else d;
         WriteLoop(d1, c, o, buf, x.first == 0).1
         && Write(v, f, p, buf).volume ==
            Volume(WriteLoop(d1, c, o, buf, x.first == 0).0,
                   v.files[f := File(if x.first == 0 then c else x.first, Max(x.size, p + |buf|))])
  {
  }

  class MountedVolume {
    const bpc: nat              // bytes_per_cluster
    var fats: seq<seq<nat>>     // the copies of the table
    var data: map<nat, Bytes>   // the clusters
    var files: map<nat, File>
    ghost var chains: Chains

    function Medium(): Disk
      reads this`fats, this`data
    {
      Disk(bpc, fats, data)
    }

    ghost function Abs(): Volume
      reads this`fats, this`data, this`files
    {
      Volume(Medium(), files)
    }

    ghost predicate Valid()
      reads this
    {
      VolumeOk(Abs(), chains)
    }

    /** A volume whose every file already has its chain. */
    constructor (d: Disk, f: map<nat, File>, ghost q: Chains)
      requires VolumeOk(Volume(d, f), q)
      ensures Valid() && Abs() == Volume(d, f)
    {
      bpc, fats, data, files, chains := d.bpc, d.fats, d.data, f, q;
    }

    /** `DISK1_FAT32_read_FAT_Entry`. */
    method ReadEntry(c: nat) returns (e: nat)
      requires WholeSectors(Medium()) && c < |fats[0]|
      ensures e == Entry(Medium(), c)
    {
      var s := c / PER_SECTOR * PER_SECTOR;
      var buf := fats[0][s..s + PER_SECTOR];
      e := buf[c % PER_SECTOR] % LOW28;
    }

    /** `DISK1_FAT32_write_FAT_Entry`: change the sector of the first copy and write it to every copy. */
    method WriteEntry(c: nat, value: nat)
      requires WholeSectors(Medium()) && c < |fats[0]|
      modifies this`fats
      ensures WholeSectors(Medium()) && Medium() == SetEntry(old(Medium()), c, value)
    {
      var s := c / PER_SECTOR * PER_SECTOR;
      var buf := Sector(fats[0], c, value);
      var i := 0;
      while i < |fats|
        invariant 0 <= i <= |fats| == |old(fats)|
        invariant forall k :: 0 <= k < |fats| ==> fats[k] == if k < i then PutSector(old(fats)[k], s, buf) else old(fats)[k]
      {
        fats := fats[i := PutSector(fats[i], s, buf)];
        i := i + 1;
      }
      assert fats == SetEntry(old(Medium()), c, value).fats;
    }

    /** `FAT32_find_available_cluster`: sector by sector, entry by entry; the table's length if it is full. */
    method FindAvailable() returns (n: nat)
      requires WholeSectors(Medium())
      ensures n == FindFree(Medium(), 0)
    {
      n := 0;
      while n < |fats[0]|
        invariant 0 <= n <= |fats[0]| && n % PER_SECTOR == 0
        invariant FindFree(Medium(), 0) == FindFree(Medium(), n)
      {
        var buf := fats[0][n..n + PER_SECTOR];
        var j := 0;
        while j < PER_SECTOR
          invariant 0 <= j <= PER_SECTOR && n + PER_SECTOR <= |fats[0]|
          invariant FindFree(Medium(), 0) == FindFree(Medium(), n + j)
        {
          if buf[j] % LOW28 == 0 {
            return n + j;
          }
          j := j + 1;
        }
        n := n + PER_SECTOR;
      }
    }

    /** Follow the chain for n steps. */
    method Follow(c: nat, n: nat, ghost q: seq<nat>) returns (e: nat)
      requires WholeSectors(Medium()) && Linked(Medium(), q) && q[0] == c && n < |q|
      ensures e == Walk(Medium(), c, n) == q[n]
    {
      e := c;
      var i := 0;
      while i < n
        invariant 0 <= i <= n && e == q[i]
        invariant Walk(Medium(), e, n - i) == Walk(Medium(), c, n)
      {
        e := ReadEntry(e);
        i := i + 1;
      }
    }

    /** `FAT32_read` of a position within the file; returns the bytes read. */
    method ReadFile(f: nat, position: nat, count: nat) returns (buf: Bytes)
      requires Valid() && f in files && files[f].first != 0 && position < files[f].size
      ensures files[f].size <= |Flat(Medium(), chains[f])|
      ensures buf == Contents(Abs(), chains, f)[position..Min(position + count, files[f].size)]
    {
      assert FileOk(Medium(), files[f], chains[f]);
      Divide(Medium(), chains[f], position);
      buf := ReadFrom(f, position, count, ClusterAt(position, bpc), OffsetAt(position, bpc));
      ReadAt(Abs(), chains, f, position, count, ClusterAt(position, bpc), OffsetAt(position, bpc));
    }

    /** The steps of `FAT32_read` from offset o of cluster k. */
    method ReadFrom(f: nat, p: nat, count: nat, k: nat, o: nat) returns (buf: Bytes)
      requires WholeSectors(Medium()) && f in files && f in chains && files[f].first != 0 && p < files[f].size && o < bpc
      requires FileOk(Medium(), files[f], chains[f]) && k < |chains[f]| && |Flat(Medium(), chains[f][..k])| + o == p
      ensures buf == ReadLoop(Medium(), Walk(Medium(), files[f].first, k), o, Min(p + count, files[f].size) - p)
    {
      var c := Follow(files[f].first, k, chains[f]);
      var left: nat := if p + count > files[f].size then files[f].size - p else count;
      ReadReady(Abs(), chains, f, p, k, o, count, left);
      buf := ReadClusters(c, o, left, chains[f][k..]);
    }

    /** One turn of the loop of `FAT32_read`: the bytes of cluster c, the number left and the next cluster. */
    method ReadTurn(c: nat, offset: nat, count: nat, ghost t: seq<nat>)
      returns (chunk: Bytes, left: nat, next: nat, ghost t1: seq<nat>, ghost todo: Bytes)
      requires WholeSectors(Medium()) && offset < bpc && Linked(Medium(), t) && t[0] == c
      requires offset + count <= |Flat(Medium(), t)|
      ensures count > 0 ==> left < count
      ensures ReadLoop(Medium(), c, offset, count) == chunk + todo
      ensures if left == 0 then todo == []
        else Linked(Medium(), t1) && t1[0] == next && left <= |Flat(Medium(), t1)| && todo == ReadLoop(Medium(), next, 0, left)
    {
      next, t1, todo := c, t[1..], [];
      if count > bpc - offset {
        ReadMore(Medium(), t, offset, count);
        chunk, left := Cluster(Medium(), c)[offset..bpc], count - (bpc - offset);
        next := ReadEntry(c);
        todo := ReadLoop(Medium(), next, 0, left);
      } else {
        ReadLast(Medium(), c, offset, count);
        chunk, left := Cluster(Medium(), c)[offset..offset + count], 0;
      }
    }

    /** The loop of `FAT32_read`. */
    method ReadClusters(first: nat, start: nat, count: nat, ghost t: seq<nat>) returns (buf: Bytes)
      requires WholeSectors(Medium()) && start < bpc && Linked(Medium(), t) && t[0] == first
      requires start + count <= |Flat(Medium(), t)|
      ensures buf == ReadLoop(Medium(), first, start, count)
    {
      ghost var goal := ReadLoop(Medium(), first, start, count);
      var chunk, left: nat, c: nat, rest, todo := ReadTurn(first, start, count, t);
      buf := chunk;
      while left > 0
        invariant buf + todo == goal && 0 < bpc
        invariant if left == 0 then todo == []
          else Linked(Medium(), rest) && rest[0] == c && left <= |Flat(Medium(), rest)| && todo == ReadLoop(Medium(), c, 0, left)
      {
        ghost var before := todo;
        chunk, left, c, rest, todo := ReadTurn(c, 0, left, rest);
        Regroup(buf, chunk, todo, before);
        buf := buf + chunk;
      }
    }

    /** Write as much of buf as fits into cluster c. */
    method WriteCluster(c: nat, offset: nat, buf: Bytes, blank: bool)
      requires offset < bpc
      modifies this`data
      ensures Medium() == PutCluster(old(Medium()), c, offset, buf, blank)
    {
      var was := Zeros(bpc);
      if !blank && c in data && |data[c]| == bpc {
        was := data[c];
      }
      data := data[c := Overwrite(was, offset, buf[..Min(|buf|, bpc - offset)])];
    }

    /** The cluster after c, which is a free one linked behind c if the chain ends there. */
    method NextCluster(c: nat, blank: bool) returns (next: nat, taken: bool)
      requires WholeSectors(Medium()) && c < |fats[0]|
      requires Entry(Medium(), c) >= EOC ==> FindFree(Medium(), 0) < |fats[0]|
      modifies this`fats
      ensures (Medium(), next, taken) == LinkNext(old(Medium()), c, blank)
    {
      taken := blank;
      next := ReadEntry(c);
      if next >= EOC {
        next := FindAvailable();
        WriteEntry(c, next);
        WriteEntry(next, EOC);
        taken := true;
      }
    }

    /** One turn of the loop of `FAT32_write`: fill cluster c, then find or take the next one. */
    method WriteTurn(c: nat, offset: nat, buf: Bytes, blank: bool) returns (rest: Bytes, next: nat, taken: bool)
      requires CanTurn(Medium(), c, offset, buf, blank)
      modifies this`fats, this`data
      ensures (Medium(), rest, next, taken) == Turn(old(Medium()), c, offset, buf, blank)
    {
      WriteCluster(c, offset, buf, blank);
      rest, next, taken := buf[Min(|buf|, bpc - offset)..], c, blank;
      if rest != [] {
        next, taken := NextCluster(c, blank);
      }
    }

    /** The loop of `FAT32_write`, with room for all of buf. */
    method WriteClusters(first: nat, start: nat, buf: Bytes, isBlank: bool)
      requires WholeSectors(Medium()) && start < bpc && first < |fats[0]| && WriteLoop(Medium(), first, start, buf, isBlank).1
      modifies this`fats, this`data
      ensures Medium() == WriteLoop(old(Medium()), first, start, buf, isBlank).0
    {
      ghost var goal := WriteLoop(Medium(), first, start, buf, isBlank);
      LoopTurn(Medium(), first, start, buf, isBlank);
      var rest, c: nat, blank := WriteTurn(first, start, buf, isBlank);
      while rest != []
        invariant WholeSectors(Medium()) && 0 < bpc && (rest != [] ==> c < |fats[0]|)
        invariant if rest == [] then Medium() == goal.0 else WriteLoop(Medium(), c, 0, rest, blank) == goal
        decreases |rest|
      {
        LoopTurn(Medium(), c, 0, rest, blank);
        rest, c, blank := WriteTurn(c, 0, rest, blank);
      }
    }

    /** `FAT32_write` where the position lies in an allocated cluster, or in an empty file's first. */
    method WriteFile(f: nat, position: nat, buf: Bytes) returns (after: nat)
      requires Valid() && f in files && Fits(Abs(), chains, f, position, |buf|)
      modifies this
      ensures Valid() && after == position + |buf|
      ensures Abs() == Write(old(Abs()), f, position, buf).volume
      ensures OthersKept(old(Abs()), old(chains), f, Abs(), chains)
      ensures buf != [] ==> Read(Abs(), f, position, |buf|) == buf
    {
      ghost var q1 := PrepareWrite(Abs(), chains, f, position, buf);
      WriteFrom(f, position, buf, ClusterAt(position, bpc), OffsetAt(position, bpc));
      after := position + |buf|;
      chains := q1;
    }

    /** The steps of `FAT32_write` from offset o of cluster k. */
    method WriteFrom(f: nat, p: nat, buf: Bytes, k: nat, o: nat)
      requires WholeSectors(Medium()) && f in files && f in chains && FileOk(Medium(), files[f], chains[f])
      requires bpc > 0 && k == ClusterAt(p, bpc) && o == OffsetAt(p, bpc) < bpc && Write(Abs(), f, p, buf).ok
      requires files[f].first != 0 ==> k < |chains[f]|
      modifies this`fats, this`data, this`files
      ensures Abs() == Write(old(Abs()), f, p, buf).volume
    {
      WriteParts(Abs(), f, p, buf, k, o);
      var c := files[f].first;
      var blank := c == 0;
      if blank {
        c := FindAvailable();
        WriteEntry(c, EOC);
      } else {
        c := Follow(c, k, chains[f]);
      }
      WriteClusters(c, o, buf, blank);
      files := files[f := File(if blank then c else files[f].first, Max(files[f].size, p + |buf|))];
    }
  }
}
