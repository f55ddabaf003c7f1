/** The exact condition under which an operation keeps the volume sound, and the invariant over every run. */
module FatTheorems {
  import opened Bytes
  import opened FatChains
  import opened FatTree
  import opened FatDirectory
  import opened FatNames
  import opened FatVolume
  import opened FatSafety
  import opened FatRuns

  // ---- an overwrite that runs out of clusters ----

  /** Releasing a file leaves the chain of the current directory in place. */
  lemma {:induction false} CwdSurvivesRelease(v: Volume, g: Own, s: nat)
    requires WfVolume(v, g) && s in g.chains && s != v.cwd
    ensures Release(v, s).fat[s] == 0 && ChainOf(Release(v, s).fat, v.cwd) == Cwd(v)
    ensures forall i :: 0 <= i < |Cwd(v)| ==> Inside(v.fat, Cwd(v)[i]) && Release(v, s).fat[Cwd(v)[i]] != 0
  {
    CwdOwned(v, g);
    ReleaseClears(v, g, s);
    OthersSurvive(v.fat, Release(v, s).fat, g, s, v.cwd);
  }

  lemma {:induction false} ObjectInUse(t: Tree, g: Own, s: nat)
    requires Wf(t, g) && s in g.chains
    ensures Inside(t.fat, s) && t.fat[s] != 0
  {
    hide HomesOk, EntriesOk, DotsOk, EndsOk;
    assert Owns(t.fat, g.owner, s, g.chains[s]);
    LinkedNonzero(t.fat, g.chains[s], 0);
  }

  /** What a failed overwrite leaves: the old chain cleared, every directory in place, the slot as it was. */
  lemma {:induction false} FailedOverwriteLeaves(v: Volume, g: Own, name: seq<byte>, bytes: seq<byte>)
    requires WfVolume(v, g) && CString(name) && |bytes| < 0x1_0000_0000
    requires OldExtent(v, name) != {} && !WriteFile(v, name, bytes).ok
    ensures var p, w := Lookup(v, ToShort(name)), WriteFile(v, name, bytes).v;
            && Shape(w) && p.At? && DirsKept(TreeOf(v), g, TreeOf(w)) && InDir(TreeOf(v), g, v.cwd, Cwd(v)[p.i], p.j)
            && var e := TreeOf(v).ents(Cwd(v)[p.i], p.j);
               e.kind.Named? && !e.EmptyFile() && Inside(w.fat, e.start) && w.fat[e.start] == 0
  {
    hide Wf;
    FoundIsNamed(v, g, name);
    var p := Lookup(v, ToShort(name));
    var c := Cwd(v)[p.i];
    var e := SlotOf(v, c, p.j);
    CwdOwned(v, g);
    NamedIsOwned(TreeOf(v), g, v.cwd, c, p.j);
    var s, w := StartOf(e), WriteFile(v, name, bytes).v;
    ObjectInUse(TreeOf(v), g, s);
    CwdSurvivesRelease(v, g, s);
    StoreFailsQuietly(Release(v, s), c, p.j, e, bytes);
    FileIsNoDir(TreeOf(v), g, v.cwd, s, TreeOf(v).ents(c, p.j));
    ReleaseKeepsDirs(v, g, s, w);
  }

  lemma {:induction false} FileIsNoDir(t: Tree, g: Own, d: nat, s: nat, e: Entry)
    requires Describes(t, g, d, s, e) && !e.isDir
    ensures s !in g.dirs
  {
  }

  lemma {:induction false} ReleaseKeepsDirs(v: Volume, g: Own, s: nat, w: Volume)
    requires WfVolume(v, g) && s in g.chains && s !in g.dirs
    requires Shape(w) && w.fat == Release(v, s).fat && w.slots == v.slots && w.root == v.root
    requires forall x :: 0 <= x < |v.data| && x !in FreeSet(w.fat) ==> w.data[x] == v.data[x]
    ensures DirsKept(TreeOf(v), g, TreeOf(w))
  {
    hide HomesOk, EntriesOk, DotsOk, EndsOk, KeysOk, Release, Cleared, EntryAt, Owns, IsPlace;
    ReleaseClears(v, g, s);
    ClearedApart(v.fat, w.fat, g, s);
    forall x | x in g.owner && g.owner[x].s in g.dirs
      ensures Inside(v.fat, x) && w.fat[x] == v.fat[x]
      ensures forall y: nat :: y < v.slots ==> TreeOf(w).ents(x, y) == TreeOf(v).ents(x, y)
    {
      UsedIsNotFree(w.fat, x);
      forall y: nat | y < v.slots ensures TreeOf(w).ents(x, y) == TreeOf(v).ents(x, y) { SameData(v, w, x, y); }
    }
  }

  lemma {:induction false} UsedIsNotFree(fat: seq<nat>, x: nat)
    requires Inside(fat, x) && fat[x] != 0
    ensures x !in FreeSet(fat)
  {
  }

  /**
   * Such an overwrite leaves a slot whose cluster is free: no ownership accounts for it, wherever the current directory
   * is put.
   */
  lemma {:induction false} FailedOverwriteBreaks(v: Volume, g: Own, name: seq<byte>, bytes: seq<byte>, at: nat)
    requires WfVolume(v, g) && CString(name) && |bytes| < 0x1_0000_0000
    requires OldExtent(v, name) != {} && !WriteFile(v, name, bytes).ok
    ensures !Sound(WriteFile(v, name, bytes).v.(cwd := at))
  {
    hide Wf;
    FailedOverwriteLeaves(v, g, name, bytes);
    var p := Lookup(v, ToShort(name));
    var c := Cwd(v)[p.i];
    var v' := WriteFile(v, name, bytes).v.(cwd := at);
    forall g' | WfVolume(v', g') ensures false { DanglingSlot(TreeOf(v), g, TreeOf(v'), g', v.cwd, c, p.j); }
  }

  /** A kept slot that names a freed cluster contradicts any ownership. */
  lemma {:induction false} DanglingSlot(t: Tree, g: Own, t': Tree, g': Own, d: nat, c: nat, j: nat)
    requires Wf(t, g) && Wf(t', g') && DirsKept(t, g, t') && InDir(t, g, d, c, j)
    requires t.ents(c, j).kind.Named? && !t.ents(c, j).EmptyFile()
    ensures var s := t.ents(c, j).start; Inside(t'.fat, s) && t'.fat[s] != 0
  {
    DirsStay(t, g, t', g', d);
    SlotStays(t, g, t', g', d, c, j);
    NamedIsOwned(t', g', d, c, j);
    ObjectInUse(t', g', t.ents(c, j).start);
  }

  /** A chain whose slot reads as erased is named by nothing, so it breaks the volume unless it is empty. */
  lemma {:induction false} ErasedEntryBreaks(v: Volume, g: Own, w: Volume, c: nat, j: nat, e: Slot, ch: seq<nat>,
                                             at: nat)
    requires WfVolume(v, g) && Shape(w) && Extended(v.fat, w.fat, ch) && w.slots == v.slots && w.root == v.root
    requires forall x :: 2 <= x < |v.fat| && x !in ch ==> w.data[x] == v.data[x]
    requires Inside(v.fat, c) && j < v.slots && Decode(e).kind.Erased?
    ensures ch != [] ==> !Sound(PutAt(w, c, j, e).(cwd := at))
  {
    hide Wf, Unnamed, IsChain, FatOk, Decode, EntryAt, PutSlot;
    var v' := PutAt(w, c, j, e).(cwd := at);
    ErasedIsUnnamed(v, g, w, c, j, e, ch, at);
    forall g' | WfVolume(v', g') ensures ch == [] { NothingUnnamed(TreeOf(v), g, TreeOf(v'), g', ch); }
  }

  lemma {:induction false} ErasedIsUnnamed(v: Volume, g: Own, w: Volume, c: nat, j: nat, e: Slot, ch: seq<nat>, at: nat)
    requires WfVolume(v, g) && Shape(w) && Extended(v.fat, w.fat, ch) && w.slots == v.slots && w.root == v.root
    requires forall x :: 2 <= x < |v.fat| && x !in ch ==> w.data[x] == v.data[x]
    requires Inside(v.fat, c) && j < v.slots && Decode(e).kind.Erased?
    ensures Unnamed(TreeOf(v), g, TreeOf(PutAt(w, c, j, e).(cwd := at)), ch)
  {
    hide HomesOk, EntriesOk, DotsOk, EndsOk, KeysOk, Decode, EntryAt, Owns, IsPlace, IsChain, PutSlot;
    var v' := PutAt(w, c, j, e).(cwd := at);
    var t, t' := TreeOf(v), TreeOf(v');
    ExtendedApart(v.fat, w.fat, g, ch);
    forall x, y: nat | x in g.owner && y < t.slots && t'.ents(x, y).kind.Named? ensures t'.ents(x, y) == t.ents(x, y) {
      PutAtEntry(w, c, j, e, x, y);
      SameData(v, w, x, y);
      SameData(PutAt(w, c, j, e), v', x, y);
    }
  }

  lemma {:induction false} ErasingNeverFound(v: Volume, g: Own, name: seq<byte>)
    requires WfVolume(v, g) && CString(name) && Erasing(name)
    ensures Lookup(v, ToShort(name)).Nowhere?
  {
    hide Wf;
    if Lookup(v, ToShort(name)).At? { FoundIsNamed(v, g, name); }
  }

  /** A new file under such a name is lost as soon as it has contents; an empty one leaves no trace. */
  lemma {:induction false} ErasedFile(v: Volume, g: Own, name: seq<byte>, bytes: seq<byte>, at: nat)
    requires WfVolume(v, g) && CString(name) && |bytes| < 0x1_0000_0000 && at in g.dirs
    requires Lookup(v, ToShort(name)).Nowhere? && WriteFile(v, name, bytes).ok && Erasing(name)
    ensures Sound(WriteFile(v, name, bytes).v.(cwd := at)) <==> bytes == []
  {
    hide Wf;
    var p := FreePos(v);
    CwdOwned(v, g);
    ShortFirst(name);
    var e := NewSlot(ToShort(name), ATTR_ARCHIVE, 0, 0);
    NewSlotKind(ToShort(name), ATTR_ARCHIVE, 0, 0);
    var ch := Reserve(v, |bytes|);
    ReserveExtends(v, bytes);
    var start := if ch == [] then 0 else ch[0];
    ExtentKind(e, start, |bytes|);
    if bytes == [] {
      EraseFreeSlot(v, g, Cwd(v)[p.i], p.j, WithExtent(e, 0, 0));
      MoveKeepsWf(WriteFile(v, name, bytes).v, g, at);
    } else {
      FilledFrame(v, ch, bytes);
      ErasedEntryBreaks(v, g, Filled(v, ch, bytes), Cwd(v)[p.i], p.j, WithExtent(e, start, |bytes|), ch, at);
    }
  }

  lemma {:induction false} FilledFrame(v: Volume, ch: seq<nat>, bytes: seq<byte>)
    requires Shape(v) && InRange(v.fat, ch)
    ensures forall x :: 0 <= x < |v.fat| && x !in ch ==> Filled(v, ch, bytes).data[x] == v.data[x]
  {
    forall x | 0 <= x < |v.fat| && x !in ch ensures Filled(v, ch, bytes).data[x] == v.data[x] {
      WriteChunksFrame(v.data, ch, bytes, ClusterSize(v), x);
    }
  }

  /** A new directory under such a name is always lost. */
  lemma {:induction false} ErasedDir(v: Volume, g: Own, name: seq<byte>, at: nat)
    requires WfVolume(v, g) && CString(name) && v.cwd < 0x1_0000_0000 && Mkdir(v, name).ok && Erasing(name)
    ensures !Sound(Mkdir(v, name).v.(cwd := at))
  {
    hide Wf, Sound, FirstFree, Scan, DotBlock, NewSlot, ToShort, PutSlot, Follow, Decode;
    var p := FreePos(v);
    CwdOwned(v, g);
    ShortFirst(name);
    AllocFailsOnlyWhenFull(v.fat, v.hint);
    var c := FirstFree(v.fat, v.hint, 0);
    NewSlotKind(ToShort(name), ATTR_DIRECTORY, c, 0);
    NewDirGrown(v, c);
    ErasedEntryBreaks(v, g, WithNewDir(v, c), Cwd(v)[p.i], p.j, NewSlot(ToShort(name), ATTR_DIRECTORY, c, 0), [c], at);
  }

  // ---- when a write has room ----

  lemma {:induction false} ReleaseGivesBack(v: Volume, g: Own, s: nat)
    requires WfVolume(v, g) && s in g.chains
    ensures FreeSet(Release(v, s).fat) == FreeSet(v.fat) + Elems(g.chains[s])
    ensures |FreeSet(Release(v, s).fat)| == |FreeSet(v.fat)| + |g.chains[s]|
  {
    hide HomesOk, EntriesOk, DotsOk, EndsOk;
    ReleaseClears(v, g, s);
    assert Owns(v.fat, g.owner, s, g.chains[s]);
    ClearGivesBack(v.fat, g.chains[s]);
  }

  /** A write has a slot for the file, and clusters for it once the old ones are counted. */
  predicate HasSlot(v: Volume, name: seq<byte>)
    requires Shape(v)
  {
    match Lookup(v, ToShort(name))
    case Nowhere => FreePos(v).At?
    case At(i, j) => !IsDir(SlotAtPos(v, At(i, j)))
  }

  predicate HasRoom(v: Volume, name: seq<byte>, size: nat)
    requires Shape(v)
  {
    ClustersFor(size, ClusterSize(v)) <= |FreeSet(v.fat)| + |OldExtent(v, name)|
  }

  /** A write succeeds exactly when there is a slot for the name and room for the bytes. */
  lemma {:induction false} WriteSucceedsIff(v: Volume, g: Own, name: seq<byte>, bytes: seq<byte>)
    requires WfVolume(v, g) && CString(name) && |bytes| < 0x1_0000_0000
    ensures WriteFile(v, name, bytes).ok <==> HasSlot(v, name) && HasRoom(v, name, |bytes|)
  {
    hide Wf;
    var p := Lookup(v, ToShort(name));
    if p.At? {
      FoundIsNamed(v, g, name);
      var e := SlotOf(v, Cwd(v)[p.i], p.j);
      if !IsDir(e) {
        ReserveExtends(Release(v, StartOf(e)), bytes);
        OldExtentIs(v, g, name);
      }
    } else {
      ReserveExtends(v, bytes);
    }
  }

  /** What an overwrite gives back is the chain of the file it finds. */
  lemma {:induction false} OldExtentIs(v: Volume, g: Own, name: seq<byte>)
    requires WfVolume(v, g) && CString(name) && Lookup(v, ToShort(name)).At?
    requires !IsDir(SlotAtPos(v, Lookup(v, ToShort(name))))
    ensures var e := SlotAtPos(v, Lookup(v, ToShort(name)));
            && |FreeSet(Release(v, StartOf(e)).fat)| == |FreeSet(v.fat)| + |OldExtent(v, name)|
            && (OldExtent(v, name) == {} <==> Decode(e).EmptyFile())
  {
    hide Wf;
    FoundIsNamed(v, g, name);
    var p := Lookup(v, ToShort(name));
    var e := SlotOf(v, Cwd(v)[p.i], p.j);
    if !Decode(e).EmptyFile() {
      NamedIsOwned(TreeOf(v), g, v.cwd, Cwd(v)[p.i], p.j);
      ReleaseGivesBack(v, g, StartOf(e));
      ChainKnown(v, g, StartOf(e));
    }
  }

  lemma {:induction false} ChainKnown(v: Volume, g: Own, s: nat)
    requires WfVolume(v, g) && s in g.chains
    ensures ChainOf(v.fat, s) == g.chains[s] && |g.chains[s]| > 0 && g.chains[s][0] == s && s >= 2
    ensures |Elems(g.chains[s])| == |g.chains[s]|
  {
    hide HomesOk, EntriesOk, DotsOk, EndsOk;
    assert Owns(v.fat, g.owner, s, g.chains[s]);
    ChainIsUnique(v.fat, g.chains[s]);
    ChainIsAcyclic(v.fat, g.chains[s]);
    DistinctCard(g.chains[s]);
  }

  // ---- every operation, every run ----

  datatype Op =
    | OpCreate(name: seq<byte>)
    | OpRemove(name: seq<byte>)
    | OpWrite(name: seq<byte>, bytes: seq<byte>)
    | OpMkdir(name: seq<byte>)
    | OpRmdir(name: seq<byte>)
    | OpChdir(name: seq<byte>)

  /** The driver's argument types: names are C strings, sizes 32-bit. */
  predicate Typed(op: Op) { CString(op.name) && (op.OpWrite? ==> |op.bytes| < 0x1_0000_0000) }

  function Apply(v: Volume, op: Op): (w: Volume)
    requires Shape(v) && v.cwd < 0x1_0000_0000 && Typed(op)
    ensures Kept(v, w)
  {
    match op
    case OpCreate(name) => Create(v, name).v
    case OpRemove(name) => Remove(v, name).v
    case OpWrite(name, bytes) => WriteFile(v, name, bytes).v
    case OpMkdir(name) => Mkdir(v, name).v
    case OpRmdir(name) => Rmdir(v, name).v
    case OpChdir(name) => Chdir(v, name).v
  }

  /**
   What a caller can check beforehand: an overwrite of a file that has contents must have room, and
   a name whose first byte is 0xE5 must not get clusters.
   */
  predicate Safe(v: Volume, op: Op)
    requires Shape(v) && Typed(op)
  {
    match op
    case OpWrite(name, bytes) =>
      && (OldExtent(v, name) != {} ==> HasRoom(v, name, |bytes|))
      && (Erasing(name) && bytes != [] ==> !HasSlot(v, name) || !HasRoom(v, name, |bytes|))
    case OpMkdir(name) => Erasing(name) ==> FreePos(v).Nowhere? || FreeSet(v.fat) == {}
    case _ => true
  }

  /** A write, with the current directory then put at any directory there was. */
  lemma {:induction false} WriteSafeIff(v: Volume, g: Own, name: seq<byte>, bytes: seq<byte>, at: nat)
    requires WfVolume(v, g) && CString(name) && |bytes| < 0x1_0000_0000 && at in g.dirs
    ensures Sound(WriteFile(v, name, bytes).v.(cwd := at)) <==> Safe(v, OpWrite(name, bytes))
  {
    hide Wf, Sound;
    WriteSucceedsIff(v, g, name, bytes);
    var p := Lookup(v, ToShort(name));
    if p.At? {
      OverwriteSafeIff(v, g, name, bytes, at);
    } else if !WriteFile(v, name, bytes).ok {
      FailedWriteKeepsSound(v, g, name, bytes);
      MovedIsSound(WriteFile(v, name, bytes).v, g, at);
    } else if Erasing(name) {
      ErasedFile(v, g, name, bytes, at);
    } else {
      var g' := NewFileKeepsSound(v, g, name, bytes);
      MovedIsSound(WriteFile(v, name, bytes).v, g', at);
    }
  }

  lemma {:induction false} OverwriteSafeIff(v: Volume, g: Own, name: seq<byte>, bytes: seq<byte>, at: nat)
    requires WfVolume(v, g) && CString(name) && |bytes| < 0x1_0000_0000 && at in g.dirs && Lookup(v, ToShort(name)).At?
    ensures Sound(WriteFile(v, name, bytes).v.(cwd := at)) <==> (OldExtent(v, name) != {} ==> HasRoom(v, name, |bytes|))
    ensures !Erasing(name)
  {
    hide Wf, Sound;
    WriteSucceedsIff(v, g, name, bytes);
    FoundIsNamed(v, g, name);
    var r := WriteFile(v, name, bytes);
    if r.ok {
      var g1, g' := OverwriteKeepsSound(v, g, name, bytes);
      MovedIsSound(r.v, g', at);
    } else if IsDir(SlotAtPos(v, Lookup(v, ToShort(name)))) {
      assert r.v == v;
      MovedIsSound(v, g, at);
    } else if OldExtent(v, name) != {} {
      FailedOverwriteBreaks(v, g, name, bytes, at);
    } else {
      FailedWriteKeepsSound(v, g, name, bytes);
      MovedIsSound(r.v, g, at);
    }
  }

  /** The current directory may be put at any directory there is. */
  lemma {:induction false} MovedIsSound(v: Volume, g: Own, d: nat)
    requires WfVolume(v, g) && d in g.dirs
    ensures Sound(v.(cwd := d))
  {
    hide Wf;
    MoveKeepsWf(v, g, d);
  }

  /** A write that fails before anything was freed leaves the table and every object as they were. */
  lemma {:induction false} FailedWriteKeepsSound(v: Volume, g: Own, name: seq<byte>, bytes: seq<byte>)
    requires WfVolume(v, g) && CString(name) && |bytes| < 0x1_0000_0000
    requires !WriteFile(v, name, bytes).ok && OldExtent(v, name) == {}
    ensures WfVolume(WriteFile(v, name, bytes).v, g)
    ensures WriteFile(v, name, bytes).v.fat == v.fat
  {
    hide Wf;
    var p := Lookup(v, ToShort(name));
    if p.At? {
      FoundIsNamed(v, g, name);
      var e := SlotAtPos(v, p);
      if !IsDir(e) {
        OldExtentIs(v, g, name);
        StoreFailsQuietly(v, Cwd(v)[p.i], p.j, e, bytes);
        OwnedData(v, g, WriteFile(v, name, bytes).v);
      }
    } else if FreePos(v).At? {
      var q := FreePos(v);
      CwdInside(v, q.i, q.j);
      StoreFailsQuietly(v, Cwd(v)[q.i], q.j, NewSlot(ToShort(name), ATTR_ARCHIVE, 0, 0), bytes);
      OwnedData(v, g, WriteFile(v, name, bytes).v);
    }
  }

  lemma {:induction false} OwnedData(v: Volume, g: Own, w: Volume)
    requires WfVolume(v, g) && Shape(w) && w.fat == v.fat && w.slots == v.slots && w.root == v.root && w.cwd == v.cwd
    requires forall x :: 0 <= x < |v.data| && x !in FreeSet(v.fat) ==> w.data[x] == v.data[x]
    ensures WfVolume(w, g)
  {
    hide HomesOk, EntriesOk, DotsOk, EndsOk;
    UnownedDataIsQuiet(v, g, w);
  }

  lemma {:induction false} CreateReturns(v: Volume, g: Own, name: seq<byte>, at: nat)
    requires WfVolume(v, g) && CString(name) && at in g.dirs
    ensures Sound(Create(v, name).v.(cwd := at))
  {
    hide Wf, Sound, Create;
    CreateKeepsSound(v, g, name);
    MovedIsSound(Create(v, name).v, g, at);
  }

  lemma {:induction false} RemoveReturns(v: Volume, g: Own, name: seq<byte>, at: nat)
    requires WfVolume(v, g) && CString(name) && at in g.dirs
    ensures Sound(Remove(v, name).v.(cwd := at))
  {
    hide Wf, Sound, Remove;
    var g' := RemoveKeepsSound(v, g, name);
    MovedIsSound(Remove(v, name).v, g', at);
  }

  lemma {:induction false} MkdirSafeIff(v: Volume, g: Own, name: seq<byte>, at: nat)
    requires WfVolume(v, g) && CString(name) && v.cwd < 0x1_0000_0000 && at in g.dirs
    ensures Sound(Mkdir(v, name).v.(cwd := at)) <==> Safe(v, OpMkdir(name))
  {
    hide Wf, Sound;
    AllocFailsOnlyWhenFull(v.fat, v.hint);
    if Erasing(name) {
      ErasingNeverFound(v, g, name);
      if Mkdir(v, name).ok {
        ErasedDir(v, g, name, at);
      } else {
        MovedIsSound(v, g, at);
      }
    } else {
      var g' := MkdirKeepsSound(v, g, name);
      MovedIsSound(Mkdir(v, name).v, g', at);
    }
  }

  lemma {:induction false} RmdirLeavesSound(v: Volume, g: Own, name: seq<byte>)
    requires WfVolume(v, g) && CString(name)
    ensures Sound(Rmdir(v, name).v)
  {
    hide Wf, Rmdir;
    var g' := RmdirKeepsSound(v, g, name);
  }

  lemma {:induction false} ChdirLeavesSound(v: Volume, g: Own, name: seq<byte>)
    requires WfVolume(v, g) && CString(name)
    ensures Sound(Chdir(v, name).v)
  {
    hide Wf, Chdir;
    ChdirKeepsSound(v, g, name);
  }

  /** The operations that enter or take out a file, or make a directory, leave the current directory where it is. */
  lemma {:induction false} OpStays(v: Volume, op: Op)
    requires Shape(v) && v.cwd < 0x1_0000_0000 && Typed(op)
    requires (op.OpCreate? || op.OpRemove? || op.OpWrite? || op.OpMkdir?)
    ensures Apply(v, op).(cwd := v.cwd) == Apply(v, op)
  {
    hide Shape, FreePos, Lookup, ToShort;
  }

  /** Each of these keeps the volume sound exactly when it is safe, with the current directory put at any directory. */
  lemma {:induction false} SoundAtIffSafe(v: Volume, g: Own, op: Op, at: nat)
    requires WfVolume(v, g) && Typed(op) && v.cwd < 0x1_0000_0000 && at in g.dirs
    requires op.OpCreate? || op.OpRemove? || op.OpWrite? || op.OpMkdir?
    ensures Sound(Apply(v, op).(cwd := at)) <==> Safe(v, op)
  {
    hide Wf, Sound, Shape, Create, Remove, WriteFile, Mkdir, HasSlot, HasRoom, OldExtent, FreePos;
    match op
    case OpCreate(name) => CreateReturns(v, g, name, at);
    case OpRemove(name) => RemoveReturns(v, g, name, at);
    case OpWrite(name, bytes) => WriteSafeIff(v, g, name, bytes, at);
    case OpMkdir(name) => MkdirSafeIff(v, g, name, at);
  }

  /** An operation keeps a sound volume sound exactly when it is safe. */
  lemma {:induction false} SoundIffSafe(v: Volume, op: Op)
    requires Sound(v) && Typed(op)
    ensures v.cwd < 0x1_0000_0000
    ensures Sound(Apply(v, op)) <==> Safe(v, op)
  {
    var g :| WfVolume(v, g);
    SoundOpIff(v, g, op);
  }

  lemma {:induction false} SoundOpIff(v: Volume, g: Own, op: Op)
    requires WfVolume(v, g) && Typed(op)
    ensures v.cwd < 0x1_0000_0000
    ensures Sound(Apply(v, op)) <==> Safe(v, op)
  {
    hide Wf, Sound, Shape, Create, Remove, WriteFile, Mkdir, Rmdir, Chdir, HasSlot, HasRoom, OldExtent, FreePos;
    CwdSmall(v, g);
    RootIsDir(TreeOf(v), g);
    match op
    case OpRmdir(name) => RmdirLeavesSound(v, g, name);
    case OpChdir(name) => ChdirLeavesSound(v, g, name);
    case _ =>
      SoundAtIffSafe(v, g, op, v.cwd);
      OpStays(v, op);
  }

  /** The volumes after each operation of a run. */
  ghost predicate IsRun(vs: seq<Volume>, ops: seq<Op>) {
    && |vs| == |ops| + 1
    && forall k :: 0 <= k < |ops| ==>
         Typed(ops[k]) && Shape(vs[k]) && vs[k].cwd < 0x1_0000_0000 && vs[k + 1] == Apply(vs[k], ops[k])
  }

  /** A run from a sound volume passes through sound volumes only, exactly when each operation is safe in its turn. */
  lemma {:induction false} RunIsSoundIffSafe(vs: seq<Volume>, ops: seq<Op>)
    requires IsRun(vs, ops) && Sound(vs[0])
    ensures (forall k :: 0 <= k < |vs| ==> Sound(vs[k])) <==> (forall k :: 0 <= k < |ops| ==> Safe(vs[k], ops[k]))
  {
    hide Sound, Safe, Apply;
    if forall k :: 0 <= k < |ops| ==> Safe(vs[k], ops[k]) {
      SafeRunIsSound(vs, ops, |ops|);
    } else {
      var k :| 0 <= k < |ops| && !Safe(vs[k], ops[k]);
      if Sound(vs[k]) {
        SoundIffSafe(vs[k], ops[k]);
        assert !Sound(vs[k + 1]);
      }
    }
  }

  lemma {:induction false} SafeRunIsSound(vs: seq<Volume>, ops: seq<Op>, n: nat)
    requires IsRun(vs, ops) && Sound(vs[0]) && n <= |ops| && forall k :: 0 <= k < |ops| ==> Safe(vs[k], ops[k])
    ensures forall k :: 0 <= k <= n ==> Sound(vs[k])
  {
    hide Sound, Safe, Apply;
    if n > 0 {
      SafeRunIsSound(vs, ops, n - 1);
      SoundIffSafe(vs[n - 1], ops[n - 1]);
    }
  }
}
