/** A freshly formatted volume, and concrete runs in which the driver loses track of clusters. */
module FatExamples {
  import opened Bytes
  import opened FatChains
  import opened FatTree
  import opened FatDirectory
  import opened FatNames
  import opened FatVolume
  import opened FatSafety
  import opened FatRuns
  import opened FatTheorems
  import opened FatRoundTrip

  /** n data clusters of 16 slots, all free but the first, which is the empty root directory. */
  function Formatted(n: nat): Volume
    requires 1 <= n && n + 2 <= MAX_ENTRIES
  {
    Volume(16, 2, [0x0FFF_FFF8, END_OF_CHAIN, END_OF_CHAIN] + seq(n - 1, _ => 0), seq(n + 2, _ => Zeros(512)), 2, 2)
  }

  const FRESH: Own := Own(map[2 := [2]], map[2 := Place(2, 0)], map[2 := 0], map[])

  lemma {:induction false} FormattedEntry(n: nat, c: nat, j: nat)
    requires 1 <= n && n + 2 <= MAX_ENTRIES && c < n + 2 && j < 16
    ensures TreeOf(Formatted(n)).ents(c, j).kind.End?
  {
  }

  /** Formatting gives a sound volume. */
  lemma {:induction false} FormattedIsSound(n: nat)
    requires 1 <= n && n + 2 <= MAX_ENTRIES
    ensures WfVolume(Formatted(n), FRESH) && Cwd(Formatted(n)) == [2]
  {
    var v := Formatted(n);
    var t := TreeOf(v);
    assert IsChain(v.fat, [2]);
    ChainIsUnique(v.fat, [2]);
    forall j: nat | j < 16 ensures t.ents(2, j).kind.End? { FormattedEntry(n, 2, j); }
    assert Owns(v.fat, FRESH.owner, 2, [2]);
    assert IsPlace(FRESH, 2, FRESH.owner[2]);
    assert ChainsOk(v.fat, FRESH) && KeysOk(t, FRESH);
    assert EntriesOk(t, FRESH) && DotsOk(t, FRESH) && HomesOk(t, FRESH);
  }

  /** In the empty root nothing is found and the first slot is free. */
  lemma {:induction false} FormattedScans(n: nat, target: seq<byte>)
    requires 1 <= n && n + 2 <= MAX_ENTRIES
    ensures Lookup(Formatted(n), target).Nowhere? && FreePos(Formatted(n)) == At(0, 0)
  {
    FormattedIsSound(n);
    var v := Formatted(n);
    FormattedEntry(n, 2, 0);
    hide Wf, Formatted;
    ScanUnfold(TreeOf(v), Cwd(v), 0, 0, IsCalled(target), AtEnd());
    ScanUnfold(TreeOf(v), Cwd(v), 0, 0, IsFree(), Never());
  }

  const LETTER: seq<byte> := [0x41]

  lemma {:induction false} OneFree()
    ensures FreeSet(Formatted(2).fat) == {3} && ClustersFor(1, 512) == 1 && ClustersFor(513, 512) == 2
  {
    var fat := Formatted(2).fat;
    assert |fat| == 4 && fat[2] != 0 && fat[3] == 0;
    assert ClustersFor(0, 512) == 0 && ClustersFor(1, 512) == 1;
  }

  /** The empty root of a volume with one free cluster, which is cluster 3. */
  ghost predicate Small(v: Volume, g: Own) {
    && WfVolume(v, g) && |v.fat| == 4 && v.slots == 16 && Cwd(v) == [2] && v.cwd == 2 && FreeSet(v.fat) == {3}
    && FreePos(v) == At(0, 0) && Lookup(v, ToShort(LETTER)).Nowhere?
  }

  lemma {:induction false} FormattedIsSmall()
    ensures Small(Formatted(2), FRESH)
  {
    hide Wf, FatVolume.Lookup, FatVolume.FreePos, ToShort;
    FormattedIsSound(2);
    FormattedScans(2, ToShort(LETTER));
    OneFree();
  }

  /** A one-byte file fits there. */
  lemma {:induction false} FirstWrite(v: Volume, g: Own, bytes: seq<byte>)
    requires Small(v, g) && |bytes| == 1
    ensures WriteFile(v, LETTER, bytes).ok && Sound(WriteFile(v, LETTER, bytes).v)
  {
    hide Wf, WriteFile, FatVolume.Lookup, ToShort, FatVolume.FreePos, Cwd;
    OneFree();
    WriteSucceedsIff(v, g, LETTER, bytes);
    SoundIffSafe(v, OpWrite(LETTER, bytes));
  }

  lemma {:induction false} SecondWrite(v0: Volume, g: Own, bytes: seq<byte>, more: seq<byte>)
    requires Small(v0, g) && |bytes| == 1 && |more| == 513
    ensures var v := WriteFile(v0, LETTER, bytes).v;
            Sound(v) && !WriteFile(v, LETTER, more).ok && !Sound(WriteFile(v, LETTER, more).v)
  {
    hide Wf, WriteFile, FatVolume.Lookup, ToShort, FatVolume.FreePos, ReadFile, Cwd;
    FirstWrite(v0, g, bytes);
    var v := WriteFile(v0, LETTER, bytes).v;
    WriteWrites(v0, g, LETTER, bytes);
    LookupFindsWritten(v0, g, LETTER, bytes);
    assert Kept(v0, v);
    var g1 :| WfVolume(v, g1);
    NoRoomFor(v, g1, more);
    WriteSucceedsIff(v, g1, LETTER, more);
    SoundIffSafe(v, OpWrite(LETTER, more));
  }

  /**
   A one-byte file is overwritten with two clusters' worth of bytes, for which there is no room: the write fails, and
   leaves a slot that names a free cluster.
   */
  lemma {:induction false} OverwriteLosesFile(bytes: seq<byte>, more: seq<byte>)
    requires |bytes| == 1 && |more| == 513
    ensures var v := WriteFile(Formatted(2), LETTER, bytes).v;
            Sound(v) && !WriteFile(v, LETTER, more).ok && !Sound(WriteFile(v, LETTER, more).v)
  {
    hide Wf, WriteFile, Small, Formatted;
    FormattedIsSmall();
    SecondWrite(Formatted(2), FRESH, bytes, more);
  }

  /** On a volume of two clusters, one of them the root, no file grows beyond one. */
  lemma {:induction false} NoRoomFor(v: Volume, g: Own, more: seq<byte>)
    requires WfVolume(v, g) && |v.fat| == 4 && v.slots == 16 && Cwd(v) == [2] && |more| == 513
    requires var p := Lookup(v, ToShort(LETTER));
             p == At(0, 0) && !IsDir(SlotAtPos(v, p)) && SizeOf(SlotAtPos(v, p)) == 1
    ensures OldExtent(v, LETTER) != {} && !HasRoom(v, LETTER, |more|)
  {
    hide Wf, FatVolume.Lookup, ToShort, Follow, FreeFrom;
    var e := SlotOf(v, 2, 0);
    OneFree();
    OldExtentIs(v, g, LETTER);
    FoundIsNamed(v, g, LETTER);
    NamedIsOwned(TreeOf(v), g, v.cwd, 2, 0);
    CwdSurvivesRelease(v, g, StartOf(e));
    var f := FreeSet(Release(v, StartOf(e)).fat);
    assert f <= {3} by { FreeOnly(Release(v, StartOf(e)).fat); }
    SubsetCard(f, {3});
  }

  lemma {:induction false} FreeOnly(fat: seq<nat>)
    requires |fat| == 4 && fat[2] != 0
    ensures FreeSet(fat) <= {3}
  {
  }

  /** A directory whose name starts with byte 0xE5 is lost as soon as it is made. */
  lemma {:induction false} ErasedNameLosesCluster()
    ensures Sound(Formatted(2)) && Mkdir(Formatted(2), [DELETED]).ok && !Sound(Mkdir(Formatted(2), [DELETED]).v)
  {
    var v := Formatted(2);
    FormattedIsSound(2);
    FormattedScans(2, ToShort([DELETED]));
    OneFree();
    AllocFailsOnlyWhenFull(v.fat, v.hint);
    hide Wf, FatVolume.Lookup, ToShort, FatVolume.FreePos, Formatted, FirstFree;
    ErasedDir(v, FRESH, [DELETED], v.cwd);
    assert Mkdir(v, [DELETED]).v.(cwd := v.cwd) == Mkdir(v, [DELETED]).v;
  }

  // ---- a file that is not found ----

  /** "A B", whose dotted name is cut at the space. */
  const SPACED: seq<byte> := [0x41, SPACE, 0x42]

  lemma {:induction false} ShortOf(name: seq<byte>)
    requires name == SPACED || name == LETTER
    ensures CString(name) && !Erasing(name) && Base(name) == name && Ext(name) == []
    ensures ToShort(name)[..8] == Pad(name, 8, SPACE) && ToShort(name)[8..] == Pad([], 3, SPACE)
  {
    UntilIs(name, PERIOD, |name|);
    assert name[..|name|] == name;
    assert UpperAll(name) == name;
  }

  lemma {:induction false} SpacedNames()
    ensures CString(SPACED) && !Erasing(SPACED) && Canonical83(LETTER) && !Erasing(LETTER)
    ensures ToShort(SPACED) != ToShort(LETTER) && SameName(Format(ToShort(SPACED)), LETTER)
  {
    ShortOf(SPACED);
    ShortOf(LETTER);
    UntilIs(LETTER, PERIOD, 1);
    var raw := ToShort(SPACED);
    assert raw[..8][2] == 0x42 && ToShort(LETTER)[..8][2] == SPACE;
    assert RawBase(raw) == LETTER && RawExt(raw) == [] by {
      assert raw[..8][0] == 0x41 && raw[..8][1] == SPACE && raw[8..][0] == SPACE;
      UntilIs(raw[..8], SPACE, 1);
      UntilIs(raw[8..], SPACE, 0);
      assert raw[..8][..1] == LETTER;
    }
    assert DottedName(raw) == LETTER;
  }

  /** After create of "A B" in an empty root: its slot is the first, and nothing is called "A". */
  lemma {:induction false} AfterSpaced(v: Volume, g: Own)
    requires Small(v, g) && Lookup(v, ToShort(SPACED)).Nowhere? && TreeOf(v).ents(2, 1).kind.End?
    ensures var v1 := Create(v, SPACED).v;
            && WfVolume(v1, g) && Cwd(v1) == [2] && v1.fat == v.fat && v1.slots == 16 && v1.cwd == 2
            && Lookup(v1, ToShort(LETTER)).Nowhere? && FreePos(v1) == At(0, 1)
            && TreeOf(v1).ents(2, 0).Live() && TreeOf(v1).ents(2, 0).name == ToShort(SPACED)
  {
    hide Wf, FatVolume.Lookup, FatVolume.FreePos, ToShort, Decode, NewSlot;
    SpacedNames();
    ShortFirst(SPACED);
    var e := NewSlot(ToShort(SPACED), ATTR_ARCHIVE, 0, 0);
    NewSlotKind(ToShort(SPACED), ATTR_ARCHIVE, 0, 0);
    NewSlotName(ToShort(SPACED));
    CreateKeepsSound(v, g, SPACED);
    var v1 := Create(v, SPACED).v;
    assert v1 == PutAt(v, 2, 0, e);
    PutAtEntry(v, 2, 0, e, 2, 0);
    PutAtEntry(v, 2, 0, e, 2, 1);
    TwoSlots(v1, ToShort(LETTER));
  }

  lemma {:induction false} NewSlotName(name: seq<byte>)
    requires |name| == 11 && name[0] != 0 && name[0] != PERIOD && name[0] != DELETED
    ensures var e := Decode(NewSlot(name, ATTR_ARCHIVE, 0, 0)); e.Live() && e.name == name
  {
    NewSlotKind(name, ATTR_ARCHIVE, 0, 0);
    assert NewSlot(name, ATTR_ARCHIVE, 0, 0)[..11] == name;
  }

  /** In a directory of one live slot, a name that is not its own is not found, and the second slot is free. */
  lemma {:induction false} TwoSlots(v: Volume, target: seq<byte>)
    requires v.slots == 16 && Cwd(v) == [2] && TreeOf(v).ents(2, 0).Live() && TreeOf(v).ents(2, 0).name != target
    requires TreeOf(v).ents(2, 1).kind.End? && !TreeOf(v).ents(2, 0).kind.End? && !TreeOf(v).ents(2, 0).kind.Erased?
    ensures Lookup(v, target).Nowhere? && FreePos(v) == At(0, 1)
  {
    hide EntryAt, Scan;
    ScanUnfold(TreeOf(v), Cwd(v), 0, 0, IsCalled(target), AtEnd());
    ScanUnfold(TreeOf(v), Cwd(v), 0, 1, IsCalled(target), AtEnd());
    ScanUnfold(TreeOf(v), Cwd(v), 0, 0, IsFree(), Never());
    ScanUnfold(TreeOf(v), Cwd(v), 0, 1, IsFree(), Never());
  }

  /** From a freshly formatted volume: create "A B", then write "A", which succeeds but is not found in its slot. */
  lemma {:induction false} SpacedNameHidesFile(bytes: seq<byte>)
    requires |bytes| == 1
    ensures var v := Create(Formatted(2), SPACED).v;
            var r := WriteFile(v, LETTER, bytes);
            r.ok && Sound(r.v) && Lookup(r.v, ToShort(LETTER)) == At(0, 1) && Find(r.v, LETTER) != At(0, 1)
  {
    hide Wf, FatVolume.Lookup, FatVolume.FreePos, FatVolume.Find, ToShort, Format, Create, WriteFile, Wrote, SameName;
    FormattedIsSmall();
    FormattedScans(2, ToShort(SPACED));
    FormattedEntry(2, 2, 1);
    AfterSpaced(Formatted(2), FRESH);
    OneFree();
    hide Formatted;
    var v := Create(Formatted(2), SPACED).v;
    WriteSucceedsIff(v, FRESH, LETTER, bytes);
    SoundIffSafe(v, OpWrite(LETTER, bytes));
    SpacedNames();
    RoundTripIff(v, FRESH, LETTER, bytes);
    LookupFindsWritten(v, FRESH, LETTER, bytes);
    assert Matches(LETTER)(TreeOf(v).ents(2, 0));
    assert Spot(TreeOf(v), Cwd(v), 0, 0) && Before(0, 0, 0, 1);
  }
}
