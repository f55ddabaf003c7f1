/** The driver operations one by one, and every run of them. */
module FatRuns {
  import opened Bytes
  import opened FatChains
  import opened FatTree
  import opened FatDirectory
  import opened FatNames
  import opened FatVolume
  import opened FatSafety

  /** Writing a slot that reads as erased over a free one changes no object. */
  lemma {:induction false} EraseFreeSlot(v: Volume, g: Own, c: nat, j: nat, e: Slot)
    requires WfVolume(v, g) && Inside(v.fat, c) && j < v.slots
    requires TreeOf(v).ents(c, j).Free() && Decode(e).kind.Erased?
    ensures WfVolume(PutAt(v, c, j, e), g)
  {
    hide HomesOk, EntriesOk, DotsOk, EndsOk, Owns, IsPlace, Decode, PutSlot, EntryAt;
    var t, t' := TreeOf(v), TreeOf(PutAt(v, c, j, e));
    forall x, y: nat | x in g.owner && y < t.slots
      ensures t'.ents(x, y) == t.ents(x, y) || (t.ents(x, y).Free() && t'.ents(x, y).kind.Erased?)
    {
      PutAtEntry(v, c, j, e, x, y);
    }
    QuietKeepsWf(t, g, t');
  }

  predicate Erasing(name: seq<byte>) { name != [] && name[0] == DELETED }

  lemma {:induction false} SelfGrown(v: Volume, e: Slot)
    requires Shape(v) && Decode(e).kind.Named? && !IsDir(e) && StartOf(e) == 0 && SizeOf(e) == 0
    ensures Grown(v, v, e, [])
  {
  }

  /** Creating a file keeps the volume sound, whatever the name. */
  lemma {:induction false} CreateKeepsSound(v: Volume, g: Own, name: seq<byte>)
    requires WfVolume(v, g) && CString(name)
    ensures WfVolume(Create(v, name).v, g)
  {
    var target := ToShort(name);
    if Create(v, name).ok {
      var p := FreePos(v);
      var e := NewSlot(target, ATTR_ARCHIVE, 0, 0);
      ShortFirst(name);
      NewSlotKind(target, ATTR_ARCHIVE, 0, 0);
      CwdOwned(v, g);
      FreePosIsOpen(v);
      if Erasing(name) {
        EraseFreeSlot(v, g, Cwd(v)[p.i], p.j, e);
      } else {
        SelfGrown(v, e);
        var g' := EnterKeepsWf(v, g, v, p.i, p.j, e, []);
      }
    }
  }

  lemma {:induction false} LiveIsNamed(e: Slot)
    requires Decode(e).Live() && Decode(e).name[0] != PERIOD
    ensures Decode(e).kind.Named? && Decode(e).name[0] != DELETED
  {
    assert e[..11][0] == e[0];
  }

  /** What the slot found by a lookup for the slot form of a name holds: a named entry of the current directory. */
  lemma {:induction false} FoundIsNamed(v: Volume, g: Own, name: seq<byte>)
    requires WfVolume(v, g) && CString(name) && Lookup(v, ToShort(name)).At?
    ensures var p := Lookup(v, ToShort(name));
            && Spot(TreeOf(v), Cwd(v), p.i, p.j) && Inside(v.fat, Cwd(v)[p.i])
            && InDir(TreeOf(v), g, v.cwd, Cwd(v)[p.i], p.j)
            && NamedAt(v, Cwd(v)[p.i], p.j, ToShort(name)) && !Erasing(name)
  {
    CwdOwned(v, g);
    ShortFirst(name);
    var p := Lookup(v, ToShort(name));
    LiveIsNamed(SlotOf(v, Cwd(v)[p.i], p.j));
  }

  /** Slot (c, j) holds a named entry with this name. */
  predicate NamedAt(v: Volume, c: nat, j: nat, target: seq<byte>)
    requires Shape(v) && Inside(v.fat, c) && j < v.slots
  {
    && TreeOf(v).ents(c, j) == Decode(SlotOf(v, c, j))
    && TreeOf(v).ents(c, j).kind.Named? && TreeOf(v).ents(c, j).name == target
  }

  /** Removing a file keeps the volume sound. */
  lemma {:induction false} RemoveKeepsSound(v: Volume, g: Own, name: seq<byte>) returns (g': Own)
    requires WfVolume(v, g) && CString(name)
    ensures WfVolume(Remove(v, name).v, g')
    ensures g.dirs.Keys <= g'.dirs.Keys
  {
    hide Wf, FirstFree, Scan, DotBlock, ToShort, IsFree, NewSlot, PutSlot, Follow, OpenSlot;
    g' := g;
    if Remove(v, name).ok {
      FoundIsNamed(v, g, name);
      var p := Lookup(v, ToShort(name));
      g' := TakeOutKeepsWf(v, g, p.i, p.j);
      FileIsNoDir(TreeOf(v), g, v.cwd, Cwd(v)[p.i], p.j);
    }
  }

  /** A file is not one of the directories. */
  lemma {:induction false} FileIsNoDir(t: Tree, g: Own, d: nat, c: nat, j: nat)
    requires Wf(t, g) && InDir(t, g, d, c, j) && t.ents(c, j).kind.Named? && !t.ents(c, j).isDir
    ensures t.ents(c, j).start !in g.dirs
  {
    if t.ents(c, j).EmptyFile() {
      hide ChainsOk, HomesOk, EntriesOk, DotsOk, EndsOk;
    } else {
      NamedIsOwned(t, g, d, c, j);
    }
  }

  // ---- writing ----

  /** Writing over a slot twice is writing it once. */
  lemma {:induction false} PutSlotTwice(b: seq<byte>, j: nat, e: Slot, e': Slot)
    requires 32 * j + 32 <= |b|
    ensures PutSlot(PutSlot(b, j, e), j, e') == PutSlot(b, j, e')
  {
  }

  lemma {:induction false} WriteChunksAround(data: seq<seq<byte>>, ch: seq<nat>, bytes: seq<byte>, cs: nat, c: nat,
                                             b: seq<byte>)
    requires (forall i :: 0 <= i < |ch| ==> ch[i] < |data|) && c < |data| && c !in ch
    ensures WriteChunks(data[c := b], ch, bytes, cs) == WriteChunks(data, ch, bytes, cs)[c := b]
  {
    if ch != [] {
      var n := |ch| - 1;
      WriteChunksAround(data, ch[..n], bytes, cs, c, b);
      assert ch[n] in ch;
    }
  }

  lemma {:induction false} PutAtTwice(v: Volume, c: nat, j: nat, e: Slot, e': Slot)
    requires Shape(v) && Inside(v.fat, c) && j < v.slots
    ensures PutAt(PutAt(v, c, j, e), c, j, e') == PutAt(v, c, j, e')
  {
    PutSlotTwice(v.data[c], j, e, e');
  }

  lemma {:induction false} FilledAround(w: Volume, c: nat, j: nat, x: Slot, ch: seq<nat>, bytes: seq<byte>)
    requires Shape(w) && Inside(w.fat, c) && j < w.slots && InRange(w.fat, ch) && c !in ch
    requires Shape(Filled(w, ch, bytes))
    ensures Filled(PutAt(w, c, j, x), ch, bytes) == PutAt(Filled(w, ch, bytes), c, j, x)
  {
    hide Link;
    WriteChunksAround(w.data, ch, bytes, ClusterSize(w), c, PutSlot(w.data[c], j, x));
    WriteChunksFrame(w.data, ch, bytes, ClusterSize(w), c);
  }

  /** Storing over a slot gives the same volume whether or not the slot was erased first. */
  lemma {:induction false} StoreAfterErase(w: Volume, c: nat, j: nat, x: Slot, e: Slot, bytes: seq<byte>)
    requires Shape(w) && Inside(w.fat, c) && j < w.slots && |bytes| < 0x1_0000_0000 && w.fat[c] != 0
    requires |Reserve(w, |bytes|)| == ClustersFor(|bytes|, ClusterSize(w))
    ensures Store(PutAt(w, c, j, x), c, j, e, bytes) == Store(w, c, j, e, bytes)
  {
    var ch := Reserve(w, |bytes|);
    assert Reserve(PutAt(w, c, j, x), |bytes|) == ch;
    PicksAreFree(w.fat, w.hint, ClustersFor(|bytes|, ClusterSize(w)));
    assert c in Elems(ch) <==> c in ch;
    ReserveExtends(w, bytes);
    hide Picks, Link, WriteChunks, Shape, Reserve;
    FilledAround(w, c, j, x, ch, bytes);
    PutAtTwice(Filled(w, ch, bytes), c, j, x, WithExtent(e, if ch == [] then 0 else ch[0], |bytes|));
  }

  /** The clusters an overwrite gives back before it allocates. */
  function OldExtent(v: Volume, name: seq<byte>): set<nat>
    requires Shape(v)
  {
    match Lookup(v, ToShort(name))
    case Nowhere => {}
    case At(i, j) =>
      CwdInside(v, i, j);
      var e := SlotOf(v, Cwd(v)[i], j);
      if IsDir(e) || StartOf(e) < 2 then {} else Elems(ChainOf(v.fat, StartOf(e)))
  }

  /** The first half of an overwrite: the old file is taken out, which leaves its slot open. */
  lemma {:induction false} OverwriteFirstHalf(v: Volume, g: Own, i: nat, j: nat) returns (g1: Own)
    requires WfVolume(v, g) && Spot(TreeOf(v), Cwd(v), i, j) && Inside(v.fat, Cwd(v)[i])
    requires TreeOf(v).ents(Cwd(v)[i], j).kind.Named? && !IsDir(SlotOf(v, Cwd(v)[i], j))
    ensures var e := SlotOf(v, Cwd(v)[i], j);
            var w := Release(v, StartOf(e)); var w1 := PutAt(w, Cwd(v)[i], j, Deleted(e));
            && WfVolume(w1, g1) && Cwd(w1) == Cwd(v) && OpenSlot(TreeOf(w1), Cwd(w1), i, j) && w.fat[Cwd(v)[i]] != 0
            && (if Decode(e).EmptyFile() then g1 == g else g1 == OwnWithout(g, StartOf(e)))
  {
    hide Wf, OpenSlot, OwnWithout;
    g1 := TakeOutKeepsWf(v, g, i, j);
    EraseOpens(v, g, g1, i, j);
    var e := SlotOf(v, Cwd(v)[i], j);
    OwnedNonzero(PutAt(Release(v, StartOf(e)), Cwd(v)[i], j, Deleted(e)), g1, i, j);
  }

  /** An existing file is overwritten in place: taken out, then stored in the slot that has become open. */
  lemma {:induction false} OverwriteKeepsSound(v: Volume, g: Own, name: seq<byte>, bytes: seq<byte>)
    returns (g1: Own, g': Own)
    requires WfVolume(v, g) && CString(name) && |bytes| < 0x1_0000_0000
    requires Lookup(v, ToShort(name)).At? && WriteFile(v, name, bytes).ok
    ensures WfVolume(WriteFile(v, name, bytes).v, g')
    ensures g.dirs.Keys <= g'.dirs.Keys
  {
    hide Wf;
    FoundIsNamed(v, g, name);
    var p := Lookup(v, ToShort(name));
    g1 := OverwriteFirstHalf(v, g, p.i, p.j);
    var e := SlotOf(v, Cwd(v)[p.i], p.j);
    FileIsNoDir(TreeOf(v), g, v.cwd, Cwd(v)[p.i], p.j);
    g' := OverwriteSecondHalf(Release(v, StartOf(e)), g1, p.i, Cwd(v)[p.i], p.j, Deleted(e), e, bytes);
  }

  lemma {:induction false} OverwriteSecondHalf(w: Volume, g1: Own, i: nat, c: nat, j: nat, x: Slot, e: Slot,
                                               bytes: seq<byte>)
    returns (g': Own)
    requires Shape(w) && Inside(w.fat, c) && j < w.slots && w.fat[c] != 0 && |bytes| < 0x1_0000_0000
    requires WfVolume(PutAt(w, c, j, x), g1) && OpenSlot(TreeOf(PutAt(w, c, j, x)), Cwd(PutAt(w, c, j, x)), i, j)
    requires Cwd(PutAt(w, c, j, x))[i] == c
    requires Decode(e).kind.Named? && !IsDir(e) && Store(w, c, j, e, bytes).ok
    ensures WfVolume(Store(w, c, j, e, bytes).v, g')
    ensures w.cwd in g1.dirs && Distinct(Reserve(w, |bytes|))
    ensures g' == OwnWith(g1, w.cwd, Loc(c, j), false, Reserve(w, |bytes|))
  {
    StoreAfterErase(w, c, j, x, e, bytes);
    g' := StoreKeepsWf(PutAt(w, c, j, x), g1, i, j, e, bytes);
  }

  lemma {:induction false} OwnedNonzero(v: Volume, g: Own, i: nat, j: nat)
    requires WfVolume(v, g) && Spot(TreeOf(v), Cwd(v), i, j)
    ensures Inside(v.fat, Cwd(v)[i]) && v.fat[Cwd(v)[i]] != 0
  {
    CwdOwned(v, g);
    assert InDir(TreeOf(v), g, v.cwd, Cwd(v)[i], j);
  }

  /** Taking out what a live slot names leaves the slot open, in the same current directory. */
  lemma {:induction false} EraseOpens(v: Volume, g: Own, g1: Own, i: nat, j: nat)
    requires WfVolume(v, g) && Spot(TreeOf(v), Cwd(v), i, j) && TreeOf(v).ents(Cwd(v)[i], j).kind.Named?
    requires Inside(v.fat, Cwd(v)[i])
    requires var s := SlotOf(v, Cwd(v)[i], j);
             && WfVolume(PutAt(Release(v, StartOf(s)), Cwd(v)[i], j, Deleted(s)), g1)
             && (if Decode(s).EmptyFile() then g1 == g else g1 == OwnWithout(g, StartOf(s)))
    ensures var s := SlotOf(v, Cwd(v)[i], j); var w1 := PutAt(Release(v, StartOf(s)), Cwd(v)[i], j, Deleted(s));
            Cwd(w1) == Cwd(v) && OpenSlot(TreeOf(w1), Cwd(w1), i, j)
  {
    hide Wf, Deleted;
    var s := SlotOf(v, Cwd(v)[i], j);
    var w := Release(v, StartOf(s));
    var w1 := PutAt(w, Cwd(v)[i], j, Deleted(s));
    CwdOwned(v, g);
    CwdOwned(w1, g1);
    var t, t1 := TreeOf(v), TreeOf(w1);
    PutAtEntry(w, Cwd(v)[i], j, Deleted(s), Cwd(v)[i], j);
    forall x: nat, y: nat | Spot(t1, Cwd(v), x, y) && Before(x, y, i, j) ensures !t1.ents(Cwd(v)[x], y).kind.End? {
      assert Spot(t, Cwd(v), x, y);
      PutAtEntry(w, Cwd(v)[i], j, Deleted(s), Cwd(v)[x], y);
      SameData(v, w, Cwd(v)[x], y);
    }
  }

  /** A new file is stored in the first free slot. */
  lemma {:induction false} NewFileKeepsSound(v: Volume, g: Own, name: seq<byte>, bytes: seq<byte>) returns (g': Own)
    requires WfVolume(v, g) && CString(name) && |bytes| < 0x1_0000_0000
    requires Lookup(v, ToShort(name)).Nowhere? && WriteFile(v, name, bytes).ok && !Erasing(name)
    ensures WfVolume(WriteFile(v, name, bytes).v, g')
    ensures g.dirs.Keys <= g'.dirs.Keys
  {
    var p := FreePos(v);
    ShortFirst(name);
    NewSlotKind(ToShort(name), ATTR_ARCHIVE, 0, 0);
    FreePosIsOpen(v);
    g' := StoreKeepsWf(v, g, p.i, p.j, NewSlot(ToShort(name), ATTR_ARCHIVE, 0, 0), bytes);
  }

  // ---- directories ----

  /** The volume between allocating a directory's cluster and entering it. */
  function WithNewDir(v: Volume, c: nat): Volume
    requires Shape(v) && Inside(v.fat, c) && v.cwd < 0x1_0000_0000
  {
    v.(fat := v.fat[c := END_OF_CHAIN], hint := c + 1,
       data := v.data[c := DotBlock(v.slots, c, ParentLink(v.root, v.cwd))])
  }

  lemma {:induction false} NewDirGrown(v: Volume, c: nat)
    requires Shape(v) && Inside(v.fat, c) && v.fat[c] == 0 && v.cwd < 0x1_0000_0000
    ensures Shape(WithNewDir(v, c)) && Extended(v.fat, WithNewDir(v, c).fat, [c])
    ensures forall e: Slot :: Decode(e).kind.Named? && IsDir(e) && StartOf(e) == c ==>
              Grown(v, WithNewDir(v, c), e, [c])
  {
  }

  lemma {:induction false} CwdSmall(v: Volume, g: Own)
    requires WfVolume(v, g)
    ensures v.cwd < 0x1_0000_0000
  {
    assert Owns(v.fat, g.owner, v.cwd, g.chains[v.cwd]);
  }

  /** Making a directory keeps the volume sound, unless its name reads as an erased slot. */
  lemma {:induction false} MkdirKeepsSound(v: Volume, g: Own, name: seq<byte>) returns (g': Own)
    requires WfVolume(v, g) && CString(name) && v.cwd < 0x1_0000_0000
    requires Mkdir(v, name).ok ==> !Erasing(name)
    ensures WfVolume(Mkdir(v, name).v, g')
    ensures g.dirs.Keys <= g'.dirs.Keys
  {
    hide Wf;
    g' := g;
    if Mkdir(v, name).ok {
      var p := FreePos(v);
      var c := FirstFree(v.fat, v.hint, 0);
      AllocFailsOnlyWhenFull(v.fat, v.hint);
      FreePosIsOpen(v);
      ShortFirst(name);
      g' := EnterDir(v, g, p.i, p.j, c, ToShort(name));
    }
  }

  lemma {:induction false} EnterDir(v: Volume, g: Own, i: nat, j: nat, c: nat, target: seq<byte>) returns (g': Own)
    requires WfVolume(v, g) && v.cwd < 0x1_0000_0000 && OpenSlot(TreeOf(v), Cwd(v), i, j)
    requires Inside(v.fat, c) && v.fat[c] == 0
    requires |target| == 11 && target[0] != 0 && target[0] != PERIOD && target[0] != DELETED
    ensures Inside(v.fat, Cwd(v)[i]) && Shape(WithNewDir(v, c))
    ensures WfVolume(PutAt(WithNewDir(v, c), Cwd(v)[i], j, NewSlot(target, ATTR_DIRECTORY, c, 0)), g')
    ensures g.dirs.Keys <= g'.dirs.Keys
  {
    NewSlotKind(target, ATTR_DIRECTORY, c, 0);
    NewDirGrown(v, c);
    g' := EnterKeepsWf(v, g, WithNewDir(v, c), i, j, NewSlot(target, ATTR_DIRECTORY, c, 0), [c]);
  }

  lemma {:induction false} NamedIsContent(e: Slot)
    requires Decode(e).kind.Named?
    ensures IsContent()(Decode(e))
  {
    assert e[..11][0] == e[0];
  }

  /** The emptiness check is right: it passes exactly the directories that name nothing. */
  lemma {:induction false} EmptyCheckIsExact(v: Volume, g: Own, d: nat)
    requires WfVolume(v, g) && d in g.dirs
    ensures IsEmptyDir(v, d) <==> EmptyDir(TreeOf(v), g, d)
  {
    var t, ch := TreeOf(v), g.chains[d];
    assert Owns(v.fat, g.owner, d, ch);
    ChainIsUnique(v.fat, ch);
    if IsEmptyDir(v, d) {
      forall c: nat, j: nat | InDir(t, g, d, c, j) ensures !t.ents(c, j).kind.Named? {
        assert IsPlace(g, c, g.owner[c]);
        var k := g.owner[c].k;
        if t.ents(c, j).kind.Named? {
          NamedIsContent(SlotAt(v.data[c], j));
          LookupIsComplete(t, ch, IsContent(), k, j);
        }
      }
    } else {
      var p := Scan(t, ch, 0, 0, IsContent(), AtEnd());
      assert InDir(t, g, d, ch[p.i], p.j);
      ContentIsNamed(t, g, d, ch[p.i], p.j);
    }
  }

  lemma {:induction false} ContentIsNamed(t: Tree, g: Own, d: nat, c: nat, j: nat)
    requires Wf(t, g) && InDir(t, g, d, c, j) && IsContent()(t.ents(c, j))
    ensures t.ents(c, j).kind.Named?
  {
    hide Wf;
    if t.ents(c, j).kind.Dotted? { DottedIsDot(t, g, d, c, j); }
  }

  /** Removing a directory keeps the volume sound, and only a directory that names nothing goes. */
  lemma {:induction false} RmdirKeepsSound(v: Volume, g: Own, name: seq<byte>) returns (g': Own)
    requires WfVolume(v, g) && CString(name)
    ensures WfVolume(Rmdir(v, name).v, g')
    ensures Rmdir(v, name).ok ==>
              exists d :: d in g.dirs && EmptyDir(TreeOf(v), g, d) && Parent(g, d) == v.cwd && g' == OwnWithout(g, d)
  {
    g' := g;
    if Rmdir(v, name).ok {
      FoundIsNamed(v, g, name);
      var p := Lookup(v, ToShort(name));
      var c := Cwd(v)[p.i];
      NamedIsOwned(TreeOf(v), g, v.cwd, c, p.j);
      var d := StartOf(SlotOf(v, c, p.j));
      EmptyCheckIsExact(v, g, d);
      g' := TakeOutKeepsWf(v, g, p.i, p.j);
    }
  }

  lemma {:induction false} MoveKeepsWf(v: Volume, g: Own, d: nat)
    requires WfVolume(v, g) && d in g.dirs
    ensures WfVolume(v.(cwd := d), g)
  {
    UnownedDataIsQuiet(v, g, v.(cwd := d));
  }

  predicate Component(name: seq<byte>) { name != [SLASH] && !DotName(name) }

  /** Entering a subdirectory goes exactly one level down the tree, to a directory the current one names. */
  lemma {:induction false} ChdirDown(v: Volume, g: Own, name: seq<byte>)
    requires WfVolume(v, g) && CString(name) && Component(name) && Chdir(v, name).ok
    ensures var d := Chdir(v, name).v.cwd;
            d in g.dirs && d in g.home && d != v.root && Parent(g, d) == v.cwd && Chdir(v, name).v == v.(cwd := d)
  {
    FoundIsNamed(v, g, name);
    var p := Lookup(v, ToShort(name));
    NamedIsOwned(TreeOf(v), g, v.cwd, Cwd(v)[p.i], p.j);
  }

  /** ".." goes exactly one level up, and stays at the root. */
  lemma {:induction false} ChdirUp(v: Volume, g: Own)
    requires WfVolume(v, g)
    ensures Chdir(v, [PERIOD, PERIOD]).ok
    ensures Chdir(v, [PERIOD, PERIOD]).v == v.(cwd := if v.cwd == v.root then v.root else Parent(g, v.cwd))
    ensures Chdir(v, [PERIOD, PERIOD]).v.cwd in g.dirs
  {
    hide Wf;
    CwdOwned(v, g);
    if v.cwd != v.root {
      CwdHasHome(TreeOf(v), g);
      DotDotFound(v, g);
      ParentIsDir(TreeOf(v), g, v.cwd);
    }
  }

  lemma {:induction false} CwdHasHome(t: Tree, g: Own)
    requires Wf(t, g) && t.cwd != t.root
    ensures t.cwd in g.home && t.ents(t.cwd, 1).Live() && t.ents(t.cwd, 1).name == DOTDOT
  {
    hide ChainsOk, HomesOk, EntriesOk, EndsOk;
  }

  /** The slot found for ".." records the parent. */
  lemma {:induction false} DotDotFound(v: Volume, g: Own)
    requires WfVolume(v, g) && v.cwd != v.root
    ensures v.cwd in g.home && Lookup(v, DOTDOT).At?
    ensures var p := Lookup(v, DOTDOT);
            p.i < |Cwd(v)| && TreeOf(v).ents(Cwd(v)[p.i], p.j).start == ParentLink(v.root, Parent(g, v.cwd))
  {
    hide Wf;
    CwdOwned(v, g);
    CwdHasHome(TreeOf(v), g);
    CwdStarts(v, g);
    LookupFinds(v, g, DOTDOT, 0, 1);
    var p := Lookup(v, DOTDOT);
    DotNameIsDotted(SlotAt(v.data[Cwd(v)[p.i]], p.j));
    DottedIsDot(TreeOf(v), g, v.cwd, Cwd(v)[p.i], p.j);
    assert DOT[1] != DOTDOT[1];
  }

  lemma {:induction false} CwdStarts(v: Volume, g: Own)
    requires WfVolume(v, g)
    ensures |Cwd(v)| > 0 && Cwd(v)[0] == v.cwd
  {
    CwdOwned(v, g);
    assert Owns(v.fat, g.owner, v.cwd, g.chains[v.cwd]);
  }

  lemma {:induction false} DotNameIsDotted(e: Slot)
    requires Decode(e).Live() && Decode(e).name == DOTDOT
    ensures Decode(e).kind.Dotted?
  {
    assert e[..11][0] == e[0];
  }

  /** Going into a subdirectory and back up returns to where one was. */
  lemma {:induction false} DownThenUp(v: Volume, g: Own, name: seq<byte>)
    requires WfVolume(v, g) && CString(name) && Component(name) && Chdir(v, name).ok
    ensures var w := Chdir(v, name).v; Shape(w) && Chdir(w, [PERIOD, PERIOD]) == Outcome(true, v)
  {
    ChdirDown(v, g, name);
    MoveKeepsWf(v, g, Chdir(v, name).v.cwd);
    ChdirUp(Chdir(v, name).v, g);
  }

  lemma {:induction false} RootIsDir(t: Tree, g: Own)
    requires Wf(t, g)
    ensures t.root in g.dirs && t.cwd in g.dirs
  {
    hide ChainsOk, HomesOk, EntriesOk, DotsOk, EndsOk;
  }

  /** Changing directory keeps the volume sound. */
  lemma {:induction false} ChdirKeepsSound(v: Volume, g: Own, name: seq<byte>)
    requires WfVolume(v, g) && CString(name)
    ensures WfVolume(Chdir(v, name).v, g)
  {
    hide Wf;
    if Chdir(v, name).ok {
      RootIsDir(TreeOf(v), g);
      if Component(name) {
        ChdirDown(v, g, name);
      } else if name == [PERIOD, PERIOD] {
        ChdirUp(v, g);
      }
      MoveKeepsWf(v, g, Chdir(v, name).v.cwd);
    }
  }
}
