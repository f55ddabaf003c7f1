/** Directory slots as 32 bytes on disk, and file contents along a chain of clusters. */
module FatDirectory {
  import opened Bytes
  import opened FatChains
  import opened FatTree

  // ---- one 32-byte slot ----

  type Slot = e: seq<byte> | |e| == 32 witness Zeros(32)

  const DELETED: byte := 0xE5
  const ATTR_DIRECTORY: byte := 0x10
  const ATTR_ARCHIVE: byte := 0x20
  const ATTR_LFN: byte := 0x0F

  function NameOf(e: Slot): seq<byte> { e[..11] }
  function StartOf(e: Slot): nat { Half(e, 20) * 0x1_0000 + Half(e, 26) }
  function SizeOf(e: Slot): nat { Word(e, 28) }
  predicate IsDir(e: Slot) { e[11] / 16 % 2 == 1 }
  predicate IsVolumeId(e: Slot) { e[11] / 8 % 2 == 1 }

  /** What the lookups make of a slot, in the order they test it. */
  function Decode(e: Slot): Entry {
    Entry(if e[0] == 0 then End
          else if e[0] == DELETED then Erased
          else if e[11] == ATTR_LFN || IsVolumeId(e) then Skipped
          else if e[0] == PERIOD then Dotted
          else Named,
          NameOf(e), IsDir(e), StartOf(e), SizeOf(e))
  }

  /** e with its first cluster and size replaced. */
  function WithExtent(e: Slot, start: nat, size: nat): (r: Slot)
    requires start < 0x1_0000_0000 && size < 0x1_0000_0000
    ensures StartOf(r) == start && SizeOf(r) == size
    ensures r[..20] == e[..20] && r[22..26] == e[22..26]
  {
    e[..20] + HalfBytes(start / 0x1_0000) + e[22..26] + HalfBytes(start % 0x1_0000) + WordBytes(size)
  }

  /** A fresh slot: everything but name, attributes and extent is zero. */
  function NewSlot(name: seq<byte>, attr: byte, start: nat, size: nat): (r: Slot)
    requires |name| == 11 && start < 0x1_0000_0000 && size < 0x1_0000_0000
    ensures NameOf(r) == name && r[11] == attr && StartOf(r) == start && SizeOf(r) == size
  {
    WithExtent(name + [attr] + Zeros(20), start, size)
  }

  /** e marked as deleted. */
  function Deleted(e: Slot): (r: Slot)
    ensures Decode(r).kind.Erased?
  {
    e[0 := DELETED]
  }

  // ---- the slots of one cluster ----

  function SlotAt(b: seq<byte>, j: nat): Slot
    requires 32 * j + 32 <= |b|
  {
    b[32 * j..32 * j + 32]
  }

  function PutSlot(b: seq<byte>, j: nat, e: Slot): (r: seq<byte>)
    requires 32 * j + 32 <= |b|
    ensures |r| == |b|
    ensures SlotAt(r, j) == e
  {
    b[..32 * j] + e + b[32 * j + 32..]
  }

  lemma {:induction false} PutSlotFrame(b: seq<byte>, j: nat, e: Slot, k: nat)
    requires 32 * j + 32 <= |b| && 32 * k + 32 <= |b| && k != j
    ensures SlotAt(PutSlot(b, j, e), k) == SlotAt(b, k)
  {
    var r := PutSlot(b, j, e);
    forall x | 0 <= x < 32 ensures SlotAt(r, k)[x] == SlotAt(b, k)[x] {
      assert r[32 * k + x] == b[32 * k + x];
    }
  }

  /** The contents of a directory cluster just made: its two dot slots, then end marks. */
  function DotBlock(slots: nat, self: nat, parent: nat): (b: seq<byte>)
    requires slots >= 2 && self < 0x1_0000_0000 && parent < 0x1_0000_0000
    ensures |b| == 32 * slots
    ensures SlotAt(b, 0) == NewSlot(DOT, ATTR_DIRECTORY, self, 0)
    ensures SlotAt(b, 1) == NewSlot(DOTDOT, ATTR_DIRECTORY, parent, 0)
    ensures forall j :: 2 <= j < slots ==> Decode(SlotAt(b, j)).kind.End?
  {
    NewSlot(DOT, ATTR_DIRECTORY, self, 0) + NewSlot(DOTDOT, ATTR_DIRECTORY, parent, 0) + Zeros(32 * slots - 64)
  }

  // ---- file contents ----

  /** The clusters of ch, one after the other. */
  function Content(data: seq<seq<byte>>, ch: seq<nat>): seq<byte>
    requires forall i :: 0 <= i < |ch| ==> ch[i] < |data|
  {
    if ch == [] then [] else Content(data, ch[..|ch| - 1]) + data[ch[|ch| - 1]]
  }

  lemma {:induction false} OneMore(n: nat, cs: nat)
    ensures (n + 1) * cs == n * cs + cs && n * cs == (n - 1) * cs + cs
  {
  }

  /** A file occupies its size divided by the cluster size, rounded up. */
  lemma {:induction false} ClustersForIsCeiling(size: nat, cs: nat)
    requires cs > 0
    ensures size <= ClustersFor(size, cs) * cs
    ensures size > 0 ==> (ClustersFor(size, cs) - 1) * cs < size
  {
    if size > cs {
      ClustersForIsCeiling(size - cs, cs);
      var n := ClustersFor(size - cs, cs);
      OneMore(n, cs);
      assert ClustersFor(size, cs) == n + 1;
    } else if size > 0 {
      assert ClustersFor(0, cs) == 0;
    }
  }

  /** The cluster image that holds the bytes from offset o, padded with zeros. */
  function Chunk(bytes: seq<byte>, o: nat, cs: nat): (r: seq<byte>)
    requires o <= |bytes|
    ensures |r| == cs
  {
    Pad(bytes[o..o + Min(|bytes| - o, cs)], cs, 0)
  }

  /** The clusters after the leading chunks of bytes have been written along ch. */
  function WriteChunks(data: seq<seq<byte>>, ch: seq<nat>, bytes: seq<byte>, cs: nat): (r: seq<seq<byte>>)
    requires forall i :: 0 <= i < |ch| ==> ch[i] < |data|
    ensures |r| == |data|
  {
    if ch == [] then data
    else
      var n := |ch| - 1;
      var o := Min(n * cs, |bytes|);
      WriteChunks(data, ch[..n], bytes, cs)[ch[n] := Chunk(bytes, o, cs)]
  }

  lemma {:induction false} WriteChunksFrame(data: seq<seq<byte>>, ch: seq<nat>, bytes: seq<byte>, cs: nat, c: nat)
    requires forall i :: 0 <= i < |ch| ==> ch[i] < |data|
    requires c < |data|
    ensures c !in ch ==> WriteChunks(data, ch, bytes, cs)[c] == data[c]
    ensures |data[c]| == cs ==> |WriteChunks(data, ch, bytes, cs)[c]| == cs
  {
    if ch != [] { WriteChunksFrame(data, ch[..|ch| - 1], bytes, cs, c); }
  }

  lemma {:induction false} ContentFrame(data: seq<seq<byte>>, data': seq<seq<byte>>, ch: seq<nat>)
    requires |data| == |data'|
    requires forall i :: 0 <= i < |ch| ==> ch[i] < |data| && data[ch[i]] == data'[ch[i]]
    ensures Content(data, ch) == Content(data', ch)
  {
    if ch != [] { ContentFrame(data, data', ch[..|ch| - 1]); }
  }

  /** Appending a cluster to the chain appends its bytes. */
  lemma {:induction false} ContentSnoc(data: seq<seq<byte>>, ch: seq<nat>, i: nat)
    requires i < |ch| && forall k :: 0 <= k < |ch| ==> ch[k] < |data|
    ensures Content(data, ch[..i + 1]) == Content(data, ch[..i]) + data[ch[i]]
  {
    assert ch[..i + 1][..i] == ch[..i];
  }

  lemma {:induction false} ContentPrefix(data: seq<seq<byte>>, ch: seq<nat>, i: nat)
    requires i <= |ch| && forall k :: 0 <= k < |ch| ==> ch[k] < |data|
    ensures Content(data, ch[..i]) <= Content(data, ch)
    decreases |ch| - i
  {
    if i < |ch| {
      ContentSnoc(data, ch, i);
      ContentPrefix(data, ch, i + 1);
    } else {
      assert ch[..i] == ch;
    }
  }

  /** Replacing an extent twice is replacing it once. */
  lemma {:induction false} WithExtentTwice(e: Slot, start: nat, size: nat)
    requires start < 0x1_0000_0000 && size < 0x1_0000_0000
    ensures WithExtent(WithExtent(e, 0, 0), start, size) == WithExtent(e, start, size)
  {
  }

  lemma {:induction false} ChunkByte(bytes: seq<byte>, o: nat, cs: nat, x: nat)
    requires o <= x < |bytes| && x < o + cs
    ensures Chunk(bytes, o, cs)[x - o] == bytes[x]
  {
    var b := bytes[o..o + Min(|bytes| - o, cs)];
    assert Chunk(bytes, o, cs)[..|b|] == b;
    assert b[x - o] == bytes[x];
  }

  lemma {:induction false} WrittenContent(data: seq<seq<byte>>, ch: seq<nat>, bytes: seq<byte>, cs: nat)
    requires cs > 0 && Distinct(ch) && forall i :: 0 <= i < |ch| ==> ch[i] < |data|
    ensures var t := Content(WriteChunks(data, ch, bytes, cs), ch);
            && |t| == |ch| * cs
            && t[..Min(|t|, |bytes|)] == bytes[..Min(|t|, |bytes|)]
  {
    hide Chunk;
    if ch != [] {
      var n := |ch| - 1;
      var r := WriteChunks(data, ch[..n], bytes, cs);
      var r' := WriteChunks(data, ch, bytes, cs);
      WrittenContent(data, ch[..n], bytes, cs);
      ContentFrame(r, r', ch[..n]);
      var t0 := Content(r, ch[..n]);
      var t := Content(r', ch);
      assert |t0| == n * cs;
      assert (n + 1) * cs == n * cs + cs;
      var o := Min(n * cs, |bytes|);
      assert t == t0 + Chunk(bytes, o, cs);
      forall x | 0 <= x < Min(|t|, |bytes|) ensures t[x] == bytes[x] {
        if x < |t0| {
          assert t0[..Min(|t0|, |bytes|)][x] == bytes[..Min(|t0|, |bytes|)][x];
        } else {
          assert o == n * cs;
          ChunkByte(bytes, o, cs, x);
        }
      }
    }
  }

  /** Reading back as many bytes as were written along enough clusters gives the bytes. */
  lemma {:induction false} ReadBack(data: seq<seq<byte>>, ch: seq<nat>, bytes: seq<byte>, cs: nat)
    requires cs > 0 && Distinct(ch) && |ch| == ClustersFor(|bytes|, cs)
    requires forall i :: 0 <= i < |ch| ==> ch[i] < |data|
    ensures |bytes| <= |Content(WriteChunks(data, ch, bytes, cs), ch)|
    ensures Content(WriteChunks(data, ch, bytes, cs), ch)[..|bytes|] == bytes
  {
    WrittenContent(data, ch, bytes, cs);
    ClustersForIsCeiling(|bytes|, cs);
    assert bytes[..|bytes|] == bytes;
  }
}
