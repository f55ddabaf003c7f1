/** Where the table and the clusters lie on the disk, sector by sector. */
module FatDisk {
  import opened Bytes
  import opened FatChains
  import opened FatDirectory

  type Sector = s: seq<byte> | |s| == 512 witness Zeros(512)

  /** The mounted geometry: clusters counts the data clusters, so the table has clusters + 2 entries. */
  datatype Geometry = Geometry(spc: nat, numFats: nat, fatStart: nat, fatSize: nat, clusters: nat, root: nat) {
    function Entries(): nat { clusters + 2 }
    function DataStart(): nat { fatStart + numFats * fatSize }
    function Slots(): nat { 16 * spc }

    predicate Valid() {
      && 1 <= spc <= 128 && 1 <= numFats < 256
      && 4 * Entries() <= 512 * fatSize
      && Entries() <= MAX_ENTRIES
      && 2 <= root < Entries()
      && DataStart() + clusters * spc <= 0x1000_0000
    }
  }

  predicate DiskOk(g: Geometry, disk: seq<Sector>) { g.Valid() && g.DataStart() + g.clusters * g.spc <= |disk| }

  // ---- addresses ----

  function FatLba(g: Geometry, f: nat, c: nat): nat { g.fatStart + f * g.fatSize + 4 * c / 512 }

  function ClusterLba(g: Geometry, c: nat): nat
    requires c >= 2
  {
    g.DataStart() + (c - 2) * g.spc
  }

  lemma {:induction false} MulStep(a: nat, b: nat, m: nat)
    requires a < b
    ensures a * m + m <= b * m
  {
    assert b * m == a * m + m + (b - a - 1) * m;
  }

  /** Table sectors lie before the data area; sectors of different copies differ. */
  lemma {:induction false} FatLbaBounds(g: Geometry, f: nat, c: nat)
    requires g.Valid() && f < g.numFats && c < g.Entries()
    ensures FatLba(g, f, c) < g.DataStart()
  {
    MulStep(f, g.numFats, g.fatSize);
  }

  lemma {:induction false} FatLbaInDisk(g: Geometry, disk: seq<Sector>, f: nat, c: nat)
    requires DiskOk(g, disk) && f < g.numFats && c < g.Entries()
    ensures FatLba(g, f, c) < |disk|
  {
    hide FatLba;
    FatLbaBounds(g, f, c);
  }

  lemma {:induction false} FatLbaInjective(g: Geometry, f: nat, c: nat, f': nat, c': nat)
    requires g.Valid() && f < g.numFats && f' < g.numFats && c < g.Entries() && c' < g.Entries()
    ensures FatLba(g, f, c) == FatLba(g, f', c') ==> f == f' && 4 * c / 512 == 4 * c' / 512
  {
    if f < f' { MulStep(f, f', g.fatSize); }
    if f' < f { MulStep(f', f, g.fatSize); }
  }

  /** Every sector of a data cluster lies in the data area, and belongs to that cluster only. */
  lemma {:induction false} ClusterLbaBounds(g: Geometry, c: nat)
    requires g.Valid() && 2 <= c < g.Entries()
    ensures g.DataStart() <= ClusterLba(g, c) && ClusterLba(g, c) + g.spc <= g.DataStart() + g.clusters * g.spc
  {
    hide Geometry.Valid;
    MulStep(c - 2, g.clusters, g.spc);
  }

  lemma {:induction false} ClustersApart(g: Geometry, c: nat, c': nat)
    requires g.Valid() && 2 <= c < c' < g.Entries()
    ensures ClusterLba(g, c) + g.spc <= ClusterLba(g, c')
  {
    MulStep(c - 2, c' - 2, g.spc);
  }

  // ---- the table ----

  /** The place of entry c in its sector. */
  function EntryOff(c: nat): (o: nat)
    ensures o + 4 <= 512 && o % 4 == 0
  {
    4 * (c % 128)
  }

  lemma {:induction false} EntriesApart(c: nat, c': nat)
    requires c != c' && 4 * c / 512 == 4 * c' / 512
    ensures EntryOff(c) != EntryOff(c')
  {
    assert 4 * c / 512 == c / 128 && 4 * c' / 512 == c' / 128;
  }

  /** The raw 32-bit word of entry c in copy f; the low 28 bits are the link. */
  function Raw(g: Geometry, disk: seq<Sector>, f: nat, c: nat): (w: nat)
    requires DiskOk(g, disk) && f < g.numFats && c < g.Entries()
    ensures w < 0x1_0000_0000
  {
    FatLbaInDisk(g, disk, f, c);
    Word(disk[FatLba(g, f, c)], EntryOff(c))
  }

  /** The table as the links of the first copy. */
  function FatOf(g: Geometry, disk: seq<Sector>): (fat: seq<nat>)
    requires DiskOk(g, disk)
    ensures FatOk(fat) && |fat| == g.Entries()
  {
    seq(g.Entries(), c requires 0 <= c < g.Entries() => Raw(g, disk, 0, c) % LINK_RANGE)
  }

  /** A table word with a new link: the reserved top four bits are kept. */
  function Relink(raw: nat, value: nat): (w: nat)
    requires raw < 0x1_0000_0000
    ensures w < 0x1_0000_0000 && w % LINK_RANGE == value % LINK_RANGE && w / LINK_RANGE == raw / LINK_RANGE
  {
    raw / LINK_RANGE * LINK_RANGE + value % LINK_RANGE
  }

  function RelinkSector(sec: Sector, o: nat, value: nat): (r: Sector)
    requires o + 4 <= 512
    ensures Word(r, o) == Relink(Word(sec, o), value)
    ensures forall i :: 0 <= i < 512 && !(o <= i < o + 4) ==> r[i] == sec[i]
  {
    PutWord(sec, o, Relink(Word(sec, o), value))
  }

  /** The disk with entry c of copy f set to value, its reserved top four bits kept. */
  function PutLink(g: Geometry, disk: seq<Sector>, f: nat, c: nat, value: nat): (d: seq<Sector>)
    requires DiskOk(g, disk) && f < g.numFats && c < g.Entries()
    ensures DiskOk(g, d) && |d| == |disk|
  {
    FatLbaInDisk(g, disk, f, c);
    disk[FatLba(g, f, c) := RelinkSector(disk[FatLba(g, f, c)], EntryOff(c), value)]
  }

  lemma {:induction false} PutLinkRaw(g: Geometry, disk: seq<Sector>, f: nat, c: nat, value: nat, f': nat, c': nat)
    requires DiskOk(g, disk) && f < g.numFats && c < g.Entries() && f' < g.numFats && c' < g.Entries()
    ensures Raw(g, PutLink(g, disk, f, c, value), f', c') ==
            if f' == f && c' == c then Relink(Raw(g, disk, f, c), value) else Raw(g, disk, f', c')
  {
    hide Relink, RelinkSector, FatLba, Word, EntryOff, Geometry.Valid;
    FatLbaBounds(g, f, c);
    FatLbaBounds(g, f', c');
    FatLbaInjective(g, f, c, f', c');
    if FatLba(g, f', c') == FatLba(g, f, c) && c' != c {
      EntriesApart(c, c');
      WordApart(disk[FatLba(g, f, c)], EntryOff(c), value, EntryOff(c'));
    }
  }

  lemma {:induction false} WordApart(sec: Sector, o: nat, value: nat, o': nat)
    requires o % 4 == 0 && o' % 4 == 0 && o != o' && o + 4 <= 512 && o' + 4 <= 512
    ensures Word(RelinkSector(sec, o, value), o') == Word(sec, o')
  {
    var r := RelinkSector(sec, o, value);
    assert r[o'] == sec[o'] && r[o' + 1] == sec[o' + 1] && r[o' + 2] == sec[o' + 2] && r[o' + 3] == sec[o' + 3];
  }

  // ---- the clusters ----

  /** count sectors from lba, as one run of bytes. */
  function ReadRun(disk: seq<Sector>, lba: nat, count: nat): (b: seq<byte>)
    requires lba + count <= |disk|
    ensures |b| == 512 * count
  {
    seq(512 * count, i requires 0 <= i < 512 * count => disk[lba + i / 512][i % 512])
  }

  /** The disk with a run of sectors from lba replaced. */
  function WriteRun(disk: seq<Sector>, lba: nat, count: nat, b: seq<byte>): (d: seq<Sector>)
    requires lba + count <= |disk| && |b| == 512 * count
    ensures |d| == |disk|
    ensures forall i :: 0 <= i < |disk| && !(lba <= i < lba + count) ==> d[i] == disk[i]
    ensures forall k :: 0 <= k < count ==> d[lba + k] == b[512 * k..512 * k + 512]
  {
    seq(|disk|, i requires 0 <= i < |disk| =>
      if lba <= i < lba + count then b[512 * (i - lba)..512 * (i - lba) + 512] else disk[i])
  }

  lemma {:induction false} ReadWritten(disk: seq<Sector>, lba: nat, count: nat, b: seq<byte>)
    requires lba + count <= |disk| && |b| == 512 * count
    ensures ReadRun(WriteRun(disk, lba, count, b), lba, count) == b
  {
    var d := WriteRun(disk, lba, count, b);
    forall i | 0 <= i < |b| ensures ReadRun(d, lba, count)[i] == b[i] {
      assert d[lba + i / 512] == b[512 * (i / 512)..512 * (i / 512) + 512];
    }
  }

  function ClusterOf(g: Geometry, disk: seq<Sector>, c: nat): (b: seq<byte>)
    requires DiskOk(g, disk) && 2 <= c < g.Entries()
    ensures |b| == 32 * g.Slots()
  {
    ClusterLbaBounds(g, c);
    ReadRun(disk, ClusterLba(g, c), g.spc)
  }

  function DataOf(g: Geometry, disk: seq<Sector>): (data: seq<seq<byte>>)
    requires DiskOk(g, disk)
    ensures |data| == g.Entries() && forall c :: 2 <= c < |data| ==> |data[c]| == 32 * g.Slots()
  {
    seq(g.Entries(), c requires 0 <= c < g.Entries() => if c < 2 then [] else ClusterOf(g, disk, c))
  }

  /** A change below the data area leaves every cluster as it was. */
  lemma {:induction false} TableWriteKeepsData(g: Geometry, disk: seq<Sector>, d: seq<Sector>)
    requires DiskOk(g, disk) && |d| == |disk| && forall i :: g.DataStart() <= i < |disk| ==> d[i] == disk[i]
    ensures DataOf(g, d) == DataOf(g, disk)
  {
    forall c | 2 <= c < g.Entries() ensures ClusterOf(g, d, c) == ClusterOf(g, disk, c) {
      ClusterLbaBounds(g, c);
    }
  }

  /** Every entry of every copy is the same. */
  ghost predicate SameTable(g: Geometry, disk: seq<Sector>, d: seq<Sector>) {
    && DiskOk(g, disk) && DiskOk(g, d)
    && forall f, c :: 0 <= f < g.numFats && 0 <= c < g.Entries() ==> Raw(g, d, f, c) == Raw(g, disk, f, c)
  }

  /** Data writes never hit a table sector, in any copy. */
  lemma {:induction false} DataWriteKeepsTable(g: Geometry, disk: seq<Sector>, d: seq<Sector>)
    requires DiskOk(g, disk) && |d| == |disk| && forall i :: 0 <= i < g.DataStart() ==> d[i] == disk[i]
    ensures SameTable(g, disk, d) && FatOf(g, d) == FatOf(g, disk)
  {
    forall f, c | 0 <= f < g.numFats && 0 <= c < g.Entries() ensures Raw(g, d, f, c) == Raw(g, disk, f, c) {
      FatLbaBounds(g, f, c);
    }
  }

  /** A change inside the sectors of cluster c changes that cluster only. */
  lemma {:induction false} ClusterWriteIsLocal(g: Geometry, disk: seq<Sector>, d: seq<Sector>, c: nat)
    requires DiskOk(g, disk) && |d| == |disk| && 2 <= c < g.Entries()
    requires forall i :: 0 <= i < |disk| && !(ClusterLba(g, c) <= i < ClusterLba(g, c) + g.spc) ==> d[i] == disk[i]
    ensures DataOf(g, d) == DataOf(g, disk)[c := ClusterOf(g, d, c)]
  {
    forall c' | 2 <= c' < g.Entries() && c' != c ensures ClusterOf(g, d, c') == ClusterOf(g, disk, c') {
      ClusterLbaBounds(g, c');
      if c < c' { ClustersApart(g, c, c'); } else { ClustersApart(g, c', c); }
    }
  }

  /** Slot t of sector s of a cluster is slot 16 s + t of the cluster. */
  lemma {:induction false} SectorSlot(g: Geometry, disk: seq<Sector>, c: nat, s: nat, t: nat)
    requires DiskOk(g, disk) && 2 <= c < g.Entries() && s < g.spc && t < 16
    ensures ClusterLba(g, c) + s < |disk|
    ensures SlotAt(ClusterOf(g, disk, c), 16 * s + t) == disk[ClusterLba(g, c) + s][32 * t..32 * t + 32]
  {
    ClusterLbaBounds(g, c);
    var sec := disk[ClusterLba(g, c) + s];
    var b := ClusterOf(g, disk, c);
    var got, want := SlotAt(b, 16 * s + t), sec[32 * t..32 * t + 32];
    forall k | 0 <= k < 32 ensures got[k] == want[k] {
      var i := 32 * (16 * s + t) + k;
      assert i == 512 * s + (32 * t + k);
      assert i / 512 == s && i % 512 == 32 * t + k;
      assert b[i] == disk[ClusterLba(g, c) + i / 512][i % 512];
    }
  }

  /** Rewriting slot t of sector s rewrites slot 16 s + t of the cluster. */
  lemma {:induction false} SectorPutSlot(g: Geometry, disk: seq<Sector>, c: nat, s: nat, t: nat, e: Slot)
    requires DiskOk(g, disk) && 2 <= c < g.Entries() && s < g.spc && t < 16 && ClusterLba(g, c) + s < |disk|
    ensures var lba := ClusterLba(g, c) + s; var d := disk[lba := PutSlot(disk[lba], t, e)];
            && ClusterOf(g, d, c) == PutSlot(ClusterOf(g, disk, c), 16 * s + t, e)
            && DataOf(g, d) == DataOf(g, disk)[c := PutSlot(ClusterOf(g, disk, c), 16 * s + t, e)]
            && FatOf(g, d) == FatOf(g, disk)
            && forall f, k :: 0 <= f < g.numFats && 0 <= k < g.Entries() ==> Raw(g, d, f, k) == Raw(g, disk, f, k)
  {
    var lba := ClusterLba(g, c) + s;
    var d := disk[lba := PutSlot(disk[lba], t, e)];
    ClusterLbaBounds(g, c);
    var b, b' := ClusterOf(g, disk, c), PutSlot(ClusterOf(g, disk, c), 16 * s + t, e);
    forall i | 0 <= i < 512 * g.spc ensures ClusterOf(g, d, c)[i] == b'[i] {
      assert b[i] == disk[ClusterLba(g, c) + i / 512][i % 512];
      assert ClusterOf(g, d, c)[i] == d[ClusterLba(g, c) + i / 512][i % 512];
    }
    ClusterWriteIsLocal(g, disk, d, c);
    DataWriteKeepsTable(g, disk, d);
  }

  /** Writing a whole cluster changes that cluster only. */
  lemma {:induction false} WriteWholeCluster(g: Geometry, disk: seq<Sector>, c: nat, b: seq<byte>)
    requires DiskOk(g, disk) && 2 <= c < g.Entries() && |b| == 512 * g.spc && ClusterLba(g, c) + g.spc <= |disk|
    ensures var d := WriteRun(disk, ClusterLba(g, c), g.spc, b);
            && DataOf(g, d) == DataOf(g, disk)[c := b] && FatOf(g, d) == FatOf(g, disk)
            && forall f, k :: 0 <= f < g.numFats && 0 <= k < g.Entries() ==> Raw(g, d, f, k) == Raw(g, disk, f, k)
  {
    var d := WriteRun(disk, ClusterLba(g, c), g.spc, b);
    ClusterLbaBounds(g, c);
    ReadWritten(disk, ClusterLba(g, c), g.spc, b);
    ClusterWriteIsLocal(g, disk, d, c);
    DataWriteKeepsTable(g, disk, d);
  }
}
