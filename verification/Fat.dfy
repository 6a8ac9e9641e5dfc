/**
  Cluster chains in a file allocation table, kept in several copies, and the files stored in them.
  File contents are read and written cluster by cluster along the chain; a write that runs past the
  last cluster extends the chain with the first free one.
*/
module Fat {
  import opened Sequences

  const EOC: nat := 0x0fff_fff8
  const LOW28: nat := 0x1000_0000
  const PER_SECTOR: nat := 128    // table entries in a sector

  type Bytes = seq<bv8>

  /** The tables, one 32-bit entry per cluster and copy, and the contents of clusters of bpc bytes. */
  datatype Disk = Disk(bpc: nat, fats: seq<seq<nat>>, data: map<nat, Bytes>)

  /** `first_cluster` (0 while the file has none) and `file_size`. */
  datatype File = File(first: nat, size: nat)

  datatype Volume = Volume(disk: Disk, files: map<nat, File>)

  // ---------- the table ----------

  /** `DISK1_FAT32_read_FAT_Entry`: 28 bits of the entry in the first copy. */
  function Entry(d: Disk, c: nat): (e: nat)
    ensures e < LOW28
  {
    if |d.fats| > 0 && c < |d.fats[0]| then d.fats[0][c] % LOW28 else 0
  }

  /** The sector of the first copy that holds entry c, with the entry's low 28 bits replaced. */
  function Sector(fat: seq<nat>, c: nat, value: nat): (q: seq<nat>)
    requires c / PER_SECTOR * PER_SECTOR + PER_SECTOR <= |fat|
    ensures |q| == PER_SECTOR
  {
    var s := c / PER_SECTOR * PER_SECTOR;
    var e: nat := fat[c] / LOW28 * LOW28 + value % LOW28;
    fat[s..s + PER_SECTOR][c % PER_SECTOR := e]
  }

  predicate WholeSectors(d: Disk) {
    |d.fats| > 0 && |d.fats[0]| % PER_SECTOR == 0 && forall k :: 0 <= k < |d.fats| ==> |d.fats[k]| == |d.fats[0]|
  }

  function PutSector(fat: seq<nat>, s: nat, q: seq<nat>): seq<nat>
    requires s + |q| <= |fat|
  {
    fat[..s] + q + fat[s + |q|..]
  }

  /** `DISK1_FAT32_write_FAT_Entry`: the sector is written to every copy. */
  function SetEntry(d: Disk, c: nat, value: nat): (r: Disk)
    requires WholeSectors(d) && c < |d.fats[0]|
    ensures WholeSectors(r) && |r.fats[0]| == |d.fats[0]| && r.bpc == d.bpc && r.data == d.data
  {
    var q := Sector(d.fats[0], c, value);
    var s := c / PER_SECTOR * PER_SECTOR;
    d.(fats := seq(|d.fats|, k requires 0 <= k < |d.fats| => PutSector(d.fats[k], s, q)))
  }

  /** `FAT32_find_available_cluster`: the first free entry from c on, or the number of entries. */
  function FindFree(d: Disk, c: nat): (n: nat)
    requires |d.fats| > 0 && c <= |d.fats[0]|
    ensures c <= n <= |d.fats[0]|
    ensures n < |d.fats[0]| ==> Entry(d, n) == 0
    ensures forall k :: c <= k < n ==> Entry(d, k) != 0
    decreases |d.fats[0]| - c
  {
    if c == |d.fats[0]| || Entry(d, c) == 0 then c else FindFree(d, c + 1)
  }

  // ---------- file data ----------

  function Zeros(n: nat): (b: Bytes)
    ensures |b| == n && forall i :: 0 <= i < n ==> b[i] == 0
  {
    seq(n, i => 0)
  }

  function Cluster(d: Disk, c: nat): (b: Bytes)
    ensures |b| == d.bpc
  {
    if c in d.data && |d.data[c]| == d.bpc then d.data[c] else Zeros(d.bpc)
  }

  /** Bytes x with those from o on replaced by b. */
  function Overwrite(x: Bytes, o: nat, b: Bytes): (r: Bytes)
    requires o + |b| <= |x|
    ensures |r| == |x|
  {
    x[..o] + b + x[o + |b|..]
  }

  function Min(a: nat, b: nat): nat { if a <= b then a else b }

  /** Write as much of buf as fits into one cluster; a blank one is cleared first. */
  function PutCluster(d: Disk, c: nat, offset: nat, buf: Bytes, blank: bool): (r: Disk)
    requires offset < d.bpc
    ensures r.fats == d.fats && r.bpc == d.bpc
  {
    var was := if blank then Zeros(d.bpc) else Cluster(d, c);
    d.(data := d.data[c := Overwrite(was, offset, buf[..Min(|buf|, d.bpc - offset)])])
  }

  /**
    The loop of `FAT32_write` from cluster c on; false when the table is full, where the original's
    behaviour is not modelled.
  */
  function WriteLoop(d: Disk, c: nat, offset: nat, buf: Bytes, blank: bool): (r: (Disk, bool))
    requires WholeSectors(d) && offset < d.bpc && c < |d.fats[0]|
    ensures WholeSectors(r.0) && |r.0.fats[0]| == |d.fats[0]| && r.0.bpc == d.bpc
    decreases |buf|
  {
    var d1 := PutCluster(d, c, offset, buf, blank);
    var rest := buf[Min(|buf|, d.bpc - offset)..];
    if rest == [] then (d1, true)
    else
      var next := Entry(d1, c);
      if next >= EOC then
        var n := FindFree(d1, 0);
        if n == |d1.fats[0]| then (d1, false)
        else WriteLoop(SetEntry(SetEntry(d1, c, n), n, EOC), n, 0, rest, true)
      else if next >= |d1.fats[0]| then (d1, false)
      else WriteLoop(d1, next, 0, rest, blank)
  }

  /** The loop of `FAT32_read` from cluster c on. */
  function ReadLoop(d: Disk, c: nat, offset: nat, n: nat): Bytes
    requires offset < d.bpc
    decreases n
  {
    var len := Min(n, d.bpc - offset);
    var chunk := Cluster(d, c)[offset..offset + len];
    if n == len || Entry(d, c) == 0 then chunk else chunk + ReadLoop(d, Entry(d, c), 0, n - len)
  }

  /** The cluster reached from c by n steps along the chain. */
  function Walk(d: Disk, c: nat, n: nat): nat
    decreases n
  {
    if n == 0 then c else Walk(d, Entry(d, c), n - 1)
  }

  // ---------- files ----------

  /** Which cluster of a chain a position lies in, and where in it. */
  function ClusterAt(position: nat, bpc: nat): nat
    requires bpc > 0
  {
    position / bpc
  }

  function OffsetAt(position: nat, bpc: nat): (o: nat)
    requires bpc > 0
    ensures o < bpc
  {
    position % bpc
  }

  function Max(a: nat, b: nat): nat { if a >= b then a else b }

  datatype Written = Written(volume: Volume, position: nat, ok: bool)

  /** `FAT32_write` of buf at a position of file f; a file without clusters gets its first one. */
  function Write(v: Volume, f: nat, position: nat, buf: Bytes): (r: Written)
    requires WholeSectors(v.disk) && v.disk.bpc > 0 && f in v.files
    ensures r.volume.disk.bpc == v.disk.bpc && r.volume.files.Keys == v.files.Keys
  {
    var d := v.disk;
    var x := v.files[f];
    var offset := OffsetAt(position, d.bpc);
    var blank := x.first == 0;
    var c := if blank then FindFree(d, 0) else Walk(d, x.first, ClusterAt(position, d.bpc));
    if c >= |d.fats[0]| then Written(v, position, false)
    else
      var d1 := if blank then SetEntry(d, c, EOC) else d;
      var (d2, ok) := WriteLoop(d1, c, offset, buf, blank);
      if !ok then Written(v, position, false)
      else
        var first := if blank then c else x.first;
        Written(Volume(d2, v.files[f := File(first, Max(x.size, position + |buf|))]), position + |buf|, true)
  }

  /** `FAT32_read` of up to count bytes at a position within the file. */
  function Read(v: Volume, f: nat, position: nat, count: nat): Bytes
    requires v.disk.bpc > 0 && f in v.files
  {
    var x := v.files[f];
    if x.first == 0 || position > x.size then []
    else
      var n := if position + count > x.size then x.size - position else count;
      ReadLoop(v.disk, Walk(v.disk, x.first, ClusterAt(position, v.disk.bpc)), OffsetAt(position, v.disk.bpc), n)
  }

  // ---------- invariant ----------

  /** Every cluster of q links to the next and the last one ends the chain. */
  ghost predicate Linked(d: Disk, q: seq<nat>) {
    && |d.fats| > 0 && q != [] && Distinct(q)
    && (forall i :: 0 <= i < |q| ==> 2 <= q[i] < |d.fats[0]|)
    && (forall i :: 0 <= i < |q| - 1 ==> Entry(d, q[i]) == q[i + 1])
    && Entry(d, q[|q| - 1]) >= EOC
  }

  /** The clusters' contents, one after another. */
  function Flat(d: Disk, q: seq<nat>): Bytes {
    if q == [] then [] else Cluster(d, q[0]) + Flat(d, q[1..])
  }

  /** All copies of the table are equal, its two reserved entries are taken, and clusters fit 28 bits. */
  ghost predicate TableOk(d: Disk) {
    && WholeSectors(d) && d.bpc > 0 && 2 <= |d.fats[0]| <= EOC
    && (forall k :: 0 <= k < |d.fats| ==> d.fats[k] == d.fats[0])
    && Entry(d, 0) != 0 && Entry(d, 1) != 0
  }

  type Chains = map<nat, seq<nat>>

  ghost predicate FileOk(d: Disk, x: File, q: seq<nat>) {
    if x.first == 0 then q == [] && x.size == 0 else Linked(d, q) && q[0] == x.first && x.size <= |Flat(d, q)|
  }

  /** No cluster belongs to two files. */
  ghost predicate NoSharing(chains: Chains) {
    forall f, g, c :: f in chains && g in chains && c in chains[f] && c in chains[g] ==> f == g
  }

  /** Every file has its own chain of clusters, acyclic and properly ended. */
  ghost predicate VolumeOk(v: Volume, chains: Chains) {
    && TableOk(v.disk) && chains.Keys == v.files.Keys && NoSharing(chains)
    && forall f :: f in v.files ==> FileOk(v.disk, v.files[f], chains[f])
  }

  /** The bytes of file f. */
  function Contents(v: Volume, chains: Chains, f: nat): Bytes
    requires f in v.files && f in chains && v.files[f].size <= |Flat(v.disk, chains[f])|
  {
    Flat(v.disk, chains[f])[..v.files[f].size]
  }

  /** Free entries below n. */
  function FreeCount(d: Disk, n: nat): nat {
    if n == 0 then 0 else FreeCount(d, n - 1) + if Entry(d, n - 1) == 0 then 1 else 0
  }

  /** Bytes in the free clusters below n. */
  function FreeBytes(d: Disk, n: nat): nat {
    if n == 0 then 0 else FreeBytes(d, n - 1) + if Entry(d, n - 1) == 0 then d.bpc else 0
  }

  /** New clusters a write of len bytes at an offset of the first of k clusters takes. */
  function Need(bpc: nat, k: nat, offset: nat, len: nat): nat
    requires offset < bpc && k > 0
    decreases len
  {
    if len <= bpc - offset then 0
    else if k > 1 then Need(bpc, k - 1, 0, len - (bpc - offset))
    else 1 + Need(bpc, 1, 0, len - (bpc - offset))
  }
}
