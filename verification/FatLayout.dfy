/** The format on disk, byte by byte: where the tables and the clusters lie, and what the bytes of a slot mean. */
module FatLayout {
  import opened Bytes
  import opened FatChains
  import opened FatTree
  import opened FatDirectory
  import opened FatDisk
  import opened FatVolume

  // ---- the disk as one run of bytes ----

  function DiskByte(disk: seq<Sector>, a: nat): byte { if a / 512 < |disk| then disk[a / 512][a % 512] else 0 }

  /** The little-endian word at byte address a. */
  function DiskWord(disk: seq<Sector>, a: nat): nat {
    DiskByte(disk, a) as int + 0x100 * (DiskByte(disk, a + 1) as int) + 0x1_0000 * (DiskByte(disk, a + 2) as int)
    + 0x100_0000 * (DiskByte(disk, a + 3) as int)
  }

  lemma {:induction false} SectorAndOffset(lba: nat, o: nat)
    requires o < 512
    ensures (512 * lba + o) / 512 == lba && (512 * lba + o) % 512 == o
  {
  }

  lemma {:induction false} EntryPlace(c: nat)
    ensures 4 * c / 512 == c / 128 && 512 * (c / 128) + 4 * (c % 128) == 4 * c
  {
  }

  lemma {:induction false} WordInSector(disk: seq<Sector>, lba: nat, o: nat)
    requires lba < |disk| && o + 4 <= 512
    ensures DiskWord(disk, 512 * lba + o) == Word(disk[lba], o)
  {
    SectorAndOffset(lba, o);
    SectorAndOffset(lba, o + 1);
    SectorAndOffset(lba, o + 2);
    SectorAndOffset(lba, o + 3);
  }

  /** The byte address of entry c of copy f of the table. */
  function EntryByte(g: Geometry, f: nat, c: nat): nat { 512 * (g.fatStart + f * g.fatSize) + 4 * c }

  lemma {:induction false} EntryAddress(g: Geometry, f: nat, c: nat)
    ensures EntryByte(g, f, c) == 512 * FatLba(g, f, c) + EntryOff(c)
  {
    EntryPlace(c);
  }

  /** Entry c of copy f is the word 4 c bytes into that copy, and the copies lie one after the other. */
  lemma {:induction false} TableOnDisk(g: Geometry, disk: seq<Sector>, f: nat, c: nat)
    requires DiskOk(g, disk) && f < g.numFats && c < g.Entries()
    ensures Raw(g, disk, f, c) == DiskWord(disk, EntryByte(g, f, c))
    ensures FatOf(g, disk)[c] == DiskWord(disk, 512 * g.fatStart + 4 * c) % 0x1000_0000
  {
    hide Geometry.Valid, DiskWord, Word, FatLba, EntryOff, EntryByte;
    FatLbaBounds(g, f, c);
    EntryAddress(g, f, c);
    WordInSector(disk, FatLba(g, f, c), EntryOff(c));
    FirstCopy(g, disk, c);
  }

  lemma {:induction false} FirstCopy(g: Geometry, disk: seq<Sector>, c: nat)
    requires DiskOk(g, disk) && c < g.Entries()
    ensures FatOf(g, disk)[c] == DiskWord(disk, 512 * g.fatStart + 4 * c) % 0x1000_0000
  {
    hide DiskWord, Word, FatLba, EntryOff;
    FatLbaBounds(g, 0, c);
    EntryAddress(g, 0, c);
    WordInSector(disk, FatLba(g, 0, c), EntryOff(c));
  }

  /** Behind the tables lie the clusters, numbered from 2. */
  lemma {:induction false} ClusterOnDisk(g: Geometry, disk: seq<Sector>, c: nat, b: nat)
    requires DiskOk(g, disk) && 2 <= c < g.Entries() && b < 512 * g.spc
    ensures |DataOf(g, disk)[c]| == 512 * g.spc
    ensures DataOf(g, disk)[c][b] ==
            DiskByte(disk, 512 * (g.fatStart + g.numFats * g.fatSize + (c - 2) * g.spc) + b)
  {
    hide Geometry.Valid;
    ClusterLbaBounds(g, c);
    var lba := g.fatStart + g.numFats * g.fatSize + (c - 2) * g.spc;
    assert 512 * lba + b == 512 * (lba + b / 512) + b % 512;
    SectorAndOffset(lba + b / 512, b % 512);
    assert ClusterOf(g, disk, c)[b] == disk[lba + b / 512][b % 512];
  }

  /** A link ends a chain from 0x0FFFFFF8 on, whatever its top four bits; a cluster is free at 0. */
  lemma {:induction false} LinksMean(fat: seq<nat>, c: nat, x: nat)
    requires x < 0x1_0000_0000
    ensures Eoc(x) <==> x % 0x1000_0000 >= 0x0FFF_FFF8
    ensures END_OF_CHAIN == 0x0FFF_FFFF && (c in FreeSet(fat) <==> 2 <= c < |fat| && fat[c] == 0)
  {
  }

  // ---- one slot ----

  /** What a slot says: 11 bytes of name, the attributes, the first cluster in two halves, the size. */
  lemma {:induction false} SlotMeans(e: Slot)
    ensures var d := Decode(e);
            && d.name == e[0..11]
            && d.start == e[26] as int + 0x100 * (e[27] as int) + 0x1_0000 * (e[20] as int)
               + 0x100_0000 * (e[21] as int)
            && d.size == e[28] as int + 0x100 * (e[29] as int) + 0x1_0000 * (e[30] as int) + 0x100_0000 * (e[31] as int)
            && (d.isDir <==> e[11] % 0x20 >= 0x10)
            && (d.kind.End? <==> e[0] == 0) && (d.kind.Erased? <==> e[0] == 0xE5)
            && (d.Live() <==> e[0] != 0 && e[0] != 0xE5 && e[11] != 0x0F && e[11] % 0x10 < 8)
            && (d.kind.Dotted? <==> d.Live() && e[0] == 0x2E)
  {
    Bits(e[11]);
  }

  lemma {:induction false} Bits(b: byte)
    ensures b / 16 % 2 == 1 <==> b % 0x20 >= 0x10
    ensures b / 8 % 2 == 1 <==> b % 0x10 >= 8
  {
  }

  /** Replacing the extent of a slot rewrites eight of its bytes. */
  lemma {:induction false} ExtentBytes(e: Slot, start: nat, size: nat)
    requires start < 0x1_0000_0000 && size < 0x1_0000_0000
    ensures var r := WithExtent(e, start, size);
            && r[26] == start % 0x100 && r[27] == start / 0x100 % 0x100
            && r[20] == start / 0x1_0000 % 0x100 && r[21] == start / 0x100_0000
            && r[28] == size % 0x100 && r[29] == size / 0x100 % 0x100
            && r[30] == size / 0x1_0000 % 0x100 && r[31] == size / 0x100_0000
            && forall k :: 0 <= k < 26 && k != 20 && k != 21 ==> r[k] == e[k]
  {
    LowHalf(start);
  }

  lemma {:induction false} LowHalf(x: nat)
    requires x < 0x1_0000_0000
    ensures x % 0x1_0000 % 0x100 == x % 0x100 && x % 0x1_0000 / 0x100 == x / 0x100 % 0x100
    ensures x / 0x1_0000 / 0x100 == x / 0x100_0000
  {
  }

  /** A new file is its name, the archive attribute and zeros; a new directory has attribute 0x10 and its cluster. */
  lemma {:induction false} NewSlotBytes(name: seq<byte>, start: nat)
    requires |name| == 11 && start < 0x1_0000_0000
    ensures NewSlot(name, ATTR_ARCHIVE, 0, 0) == name + [0x20] + seq(20, _ => 0)
    ensures var d := NewSlot(name, ATTR_DIRECTORY, start, 0);
            && d[..11] == name && d[11] == 0x10
            && forall k :: 12 <= k < 32 && k != 20 && k != 21 && k != 26 && k != 27 ==> d[k] == 0
  {
    var f, d := NewSlot(name, ATTR_ARCHIVE, 0, 0), NewSlot(name, ATTR_DIRECTORY, start, 0);
    ExtentBytes(name + [ATTR_ARCHIVE] + Zeros(20), 0, 0);
    ExtentBytes(name + [ATTR_DIRECTORY] + Zeros(20), start, 0);
    forall k | 0 <= k < 32 ensures f[k] == (name + [0x20] + seq(20, _ => 0))[k] { }
    assert forall k :: 0 <= k < 11 ==> d[..11][k] == d[k] == name[k];
  }

  /** Deleting a slot sets its first byte to 0xE5 and keeps the others. */
  lemma {:induction false} DeletedBytes(e: Slot)
    ensures Deleted(e) == [0xE5] + e[1..]
  {
  }

  /** A cluster written from offset o of the bytes on holds them in order, and zeros behind the last. */
  lemma {:induction false} ChunkBytes(bytes: seq<byte>, o: nat, cs: nat, k: nat)
    requires o <= |bytes| && k < cs
    ensures Chunk(bytes, o, cs)[k] == if o + k < |bytes| then bytes[o + k] else 0
  {
    var part := bytes[o..o + Min(|bytes| - o, cs)];
    if k < |part| { assert Chunk(bytes, o, cs)[..|part|][k] == part[k]; }
  }

  // ---- the first free slot ----

  /** The slot taken for something new: the first whose first byte is 0 or 0xE5, and there is one if any slot is so. */
  lemma {:induction false} FreePosLaw(v: Volume, x: nat, y: nat)
    requires Shape(v) && Spot(TreeOf(v), Cwd(v), x, y)
    ensures Inside(v.fat, Cwd(v)[x])
    ensures var p, b := FreePos(v), SlotOf(v, Cwd(v)[x], y)[0];
            && (p == At(x, y) ==> b == 0 || b == 0xE5)
            && (b == 0 || b == 0xE5 ==> p.At? && !Before(x, y, p.i, p.j))
  {
    CwdInside(v, x, y);
    hide Cwd;
    SlotMeans(SlotOf(v, Cwd(v)[x], y));
    var p := FreePos(v);
    if TreeOf(v).ents(Cwd(v)[x], y).Free() {
      if p.Nowhere? {
        ScanMissesNothing(TreeOf(v), Cwd(v), 0, 0, IsFree(), Never(), x, y);
      } else if Before(x, y, p.i, p.j) {
        ScanFindsFirst(TreeOf(v), Cwd(v), 0, 0, IsFree(), Never(), x, y);
      }
    }
  }
}
