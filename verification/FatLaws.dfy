/**
 * What each operation does for its caller: when it succeeds, what it leaves in the directory, what it takes and frees.
 */
module FatLaws {
  import opened Bytes
  import opened FatChains
  import opened FatTree
  import opened FatDirectory
  import opened FatNames
  import opened FatVolume
  import opened FatSafety
  import opened FatRuns
  import opened FatTheorems
  import opened FatContents
  import opened FatRoundTrip

  /** w has the current directory of v, slot by slot, but for the slot at p. */
  ghost predicate OnlyAt(v: Volume, w: Volume, p: Pos) {
    && p.At? && p.i < |Cwd(v)| && w.cwd == v.cwd && Cwd(w) == Cwd(v)
    && forall x: nat, y: nat :: Spot(TreeOf(v), Cwd(v), x, y) && (x != p.i || y != p.j) ==>
         TreeOf(w).ents(Cwd(v)[x], y) == TreeOf(v).ents(Cwd(v)[x], y)
  }

  /** No slot of the current directory but the one at p is live under this slot name. */
  ghost predicate Alone(v: Volume, target: seq<byte>, p: Pos) {
    forall x: nat, y: nat :: Spot(TreeOf(v), Cwd(v), x, y) && IsCalled(target)(TreeOf(v).ents(Cwd(v)[x], y)) ==>
      p == At(x, y)
  }

  /** The clusters a slot leads to. */
  function Clusters(v: Volume, start: nat): seq<nat> { if start < 2 then [] else ChainOf(v.fat, start) }

  lemma {:induction false} ChangedOnlyAt(v: Volume, g: Own, op: Op)
    requires WfVolume(v, g) && Typed(op) && v.cwd < 0x1_0000_0000 && !op.OpChdir? && !SameDisk(v, Apply(v, op))
    requires Gone(v, op) != v.cwd && Apply(v, op).cwd == v.cwd
    ensures OnlyAt(v, Apply(v, op), Target(v, op))
  {
    hide Wf, Cwd, ToShort, Target, Gone, Local;
    if op.OpCreate? {
      CreateIsLocal(v, g, op);
    } else if op.OpMkdir? {
      MkdirIsLocal(v, g, op);
    } else {
      ChangeIsLocal(v, g, op);
    }
    OpKept(v, op);
    NoDirZero(TreeOf(v), g);
    CwdOwned(v, g);
    hide Apply;
    CwdAfter(v, g, Apply(v, op), Target(v, op), if op.OpCreate? || op.OpMkdir? then 0 else Gone(v, op));
  }

  lemma {:induction false} OpKept(v: Volume, op: Op)
    requires Shape(v) && Typed(op) && v.cwd < 0x1_0000_0000 && !op.OpChdir?
    ensures Kept(v, Apply(v, op))
  {
    hide Shape, FatVolume.Create, FatVolume.Remove, FatVolume.WriteFile, FatVolume.Mkdir, FatVolume.Rmdir;
  }

  lemma {:induction false} DecodeFields(e: Slot)
    ensures var d := Decode(e);
            d.isDir == IsDir(e) && d.start == StartOf(e) && d.size == SizeOf(e) && d.name == NameOf(e)
  {
  }

  // ---- removing a file ----

  /** A slot that is erased is found by no lookup. */
  lemma {:induction false} ErasedIsNotFound(w: Volume, p: Pos, target: seq<byte>, name: seq<byte>)
    requires p.At? && p.i < |Cwd(w)| && TreeOf(w).ents(Cwd(w)[p.i], p.j).kind.Erased?
    ensures Lookup(w, target) != p && Find(w, name) != p
  {
    hide Cwd, EntryAt, Format;
  }

  /** Once its slot is gone, a name is not found exactly if no other slot carries it. */
  lemma {:induction false} NotFoundIff(v: Volume, w: Volume, h: Own, p: Pos, target: seq<byte>)
    requires WfVolume(w, h) && OnlyAt(v, w, p) && w.slots == v.slots && TreeOf(w).ents(Cwd(w)[p.i], p.j).kind.Erased?
    ensures Lookup(w, target).Nowhere? <==> Alone(v, target, p)
  {
    hide Wf, Cwd, EntryAt;
    if Lookup(w, target).At? {
      var q := Lookup(w, target);
      assert Spot(TreeOf(v), Cwd(v), q.i, q.j);
    } else if !Alone(v, target, p) {
      var x: nat, y: nat :| Spot(TreeOf(v), Cwd(v), x, y) && IsCalled(target)(TreeOf(v).ents(Cwd(v)[x], y))
                            && p != At(x, y);
      assert Spot(TreeOf(w), Cwd(w), x, y);
      LookupFinds(w, h, target, x, y);
    }
  }

  /** Removing a file: succeeds exactly on a file, erases its slot alone, and frees its clusters. */
  lemma {:induction false} RemoveLaw(v: Volume, g: Own, name: seq<byte>)
    requires WfVolume(v, g) && CString(name)
    ensures var r, p := Remove(v, name), Lookup(v, ToShort(name));
            && (r.ok <==> p.At? && !TreeOf(v).ents(Cwd(v)[p.i], p.j).isDir)
            && (!r.ok ==> r.v == v)
            && (r.ok ==>
                  && OnlyAt(v, r.v, p) && TreeOf(r.v).ents(Cwd(v)[p.i], p.j).kind.Erased?
                  && FreeSet(r.v.fat) ==
                     FreeSet(v.fat) + Elems(Clusters(v, TreeOf(v).ents(Cwd(v)[p.i], p.j).start))
                  && Lookup(r.v, ToShort(name)) != p && Find(r.v, name) != p
                  && (Lookup(r.v, ToShort(name)).Nowhere? <==> Alone(v, ToShort(name), p)))
  {
    hide Wf, Cwd, ToShort, PutAt, Release, Deleted, Decode;
    var r, p := Remove(v, name), Lookup(v, ToShort(name));
    if p.At? {
      FoundIsNamed(v, g, name);
      DecodeFields(SlotOf(v, Cwd(v)[p.i], p.j));
      if r.ok {
        CwdSmall(v, g);
        TakenOut(v, g, p, OpRemove(name));
        var h := RemoveKeepsSound(v, g, name);
        ErasedIsNotFound(r.v, p, ToShort(name), name);
        NotFoundIff(v, r.v, h, p, ToShort(name));
      }
    }
  }

  /** What taking out a slot does: the slot is erased, the clusters it leads to are free, nothing else is touched. */
  lemma {:induction false} TakenOut(v: Volume, g: Own, p: Pos, op: Op)
    requires WfVolume(v, g) && Typed(op) && p == Lookup(v, ToShort(op.name)) && p.At? && v.cwd < 0x1_0000_0000
    requires op.OpRemove? || op.OpRmdir?
    requires p.i < |Cwd(v)| && Inside(v.fat, Cwd(v)[p.i]) && p.j < v.slots
    requires var s := SlotOf(v, Cwd(v)[p.i], p.j);
             Apply(v, op) == PutAt(Release(v, StartOf(s)), Cwd(v)[p.i], p.j, Deleted(s))
    requires op.OpRemove? ==> !TreeOf(v).ents(Cwd(v)[p.i], p.j).isDir
    ensures var w := Apply(v, op);
            && OnlyAt(v, w, p) && TreeOf(w).ents(Cwd(v)[p.i], p.j).kind.Erased?
            && FreeSet(w.fat) == FreeSet(v.fat) + Elems(Clusters(v, TreeOf(v).ents(Cwd(v)[p.i], p.j).start))
  {
    hide Wf, Cwd, ToShort, Release, Deleted, Decode, PutAt, Apply, FatVolume.Lookup, EntryAt;
    FoundIsNamed(v, g, op.name);
    var c := Cwd(v)[p.i];
    var s := SlotOf(v, c, p.j);
    DecodeFields(s);
    ReleaseKeepsData(v, StartOf(s));
    PutAtEntry(Release(v, StartOf(s)), c, p.j, Deleted(s), c, p.j);
    assert Apply(v, op).cwd == v.cwd by { PutAtStays(Release(v, StartOf(s)), c, p.j, Deleted(s)); }
    DeletedDiffers(v, Apply(v, op), c, p.j);
    Freed(v, g, c, p.j, s);
    NotTheCwd(v, g, op, c, p.j);
    ChangedOnlyAt(v, g, op);
  }

  lemma {:induction false} Freed(v: Volume, g: Own, c: nat, j: nat, s: Slot)
    requires WfVolume(v, g) && InDir(TreeOf(v), g, v.cwd, c, j) && Inside(v.fat, c) && j < v.slots
    requires s == SlotOf(v, c, j)
    requires TreeOf(v).ents(c, j) == Decode(s) && Decode(s).kind.Named?
    ensures FreeSet(PutAt(Release(v, StartOf(s)), c, j, Deleted(s)).fat) ==
            FreeSet(v.fat) + Elems(Clusters(v, StartOf(s)))
  {
    hide Wf, Release, Deleted, Decode;
    DecodeFields(s);
    if Decode(s).EmptyFile() {
      NothingReleased(v);
    } else {
      NamedIsOwned(TreeOf(v), g, v.cwd, c, j);
      ReleaseGivesBack(v, g, StartOf(s));
      ChainKnown(v, g, StartOf(s));
    }
  }

  lemma {:induction false} NothingReleased(v: Volume)
    requires Shape(v)
    ensures Release(v, 0) == v && FreeSet(v.fat) == FreeSet(v.fat) + Elems(Clusters(v, 0))
  {
  }

  lemma {:induction false} NotTheCwd(v: Volume, g: Own, op: Op, c: nat, j: nat)
    requires WfVolume(v, g) && Typed(op) && Lookup(v, ToShort(op.name)).At?
    ensures Gone(v, op) != v.cwd && Target(v, op) == Lookup(v, ToShort(op.name))
  {
    hide Wf, Cwd, ToShort, Decode;
    FoundIsNamed(v, g, op.name);
    NoDirZero(TreeOf(v), g);
    CwdOwned(v, g);
    var p := Lookup(v, ToShort(op.name));
    DecodeFields(SlotOf(v, Cwd(v)[p.i], p.j));
    if !TreeOf(v).ents(Cwd(v)[p.i], p.j).EmptyFile() { NamedIsOwned(TreeOf(v), g, v.cwd, Cwd(v)[p.i], p.j); }
  }

  lemma {:induction false} PutAtStays(v: Volume, c: nat, j: nat, e: Slot)
    requires Shape(v) && Inside(v.fat, c) && j < v.slots
    ensures PutAt(v, c, j, e).cwd == v.cwd && PutAt(v, c, j, e).fat == v.fat
  {
  }

  lemma {:induction false} DeletedDiffers(v: Volume, w: Volume, c: nat, j: nat)
    requires TreeOf(v).ents(c, j).kind.Named? && TreeOf(w).ents(c, j).kind.Erased?
    ensures !SameDisk(v, w)
  {
  }

  /** Removing a directory: succeeds exactly on an empty one that is named, and leaves what removing a file leaves. */
  lemma {:induction false} RmdirLaw(v: Volume, g: Own, name: seq<byte>)
    requires WfVolume(v, g) && CString(name)
    ensures var r, p := Rmdir(v, name), Lookup(v, ToShort(name));
            && (r.ok <==> !DotName(name) && p.At? && NamesEmptyDir(v, g, p))
            && (!r.ok ==> r.v == v)
            && (r.ok ==>
                  && OnlyAt(v, r.v, p) && TreeOf(r.v).ents(Cwd(v)[p.i], p.j).kind.Erased?
                  && FreeSet(r.v.fat) == FreeSet(v.fat) + Elems(ChainOf(v.fat, TreeOf(v).ents(Cwd(v)[p.i], p.j).start))
                  && Lookup(r.v, ToShort(name)) != p && Find(r.v, name) != p
                  && (Lookup(r.v, ToShort(name)).Nowhere? <==> Alone(v, ToShort(name), p)))
  {
    hide Wf, Cwd, ToShort, PutAt, Release, Deleted, Decode, EmptyDir;
    var r, p := Rmdir(v, name), Lookup(v, ToShort(name));
    if p.At? {
      FoundIsNamed(v, g, name);
      DecodeFields(SlotOf(v, Cwd(v)[p.i], p.j));
      if TreeOf(v).ents(Cwd(v)[p.i], p.j).isDir { DirOfSlot(v, g, Cwd(v)[p.i], p.j); }
      if r.ok {
        CwdSmall(v, g);
        TakenOut(v, g, p, OpRmdir(name));
        var h := RmdirKeepsSound(v, g, name);
        ErasedIsNotFound(r.v, p, ToShort(name), name);
        NotFoundIff(v, r.v, h, p, ToShort(name));
      }
    }
  }

  /** The slot at p names a directory in which nothing is named. */
  ghost predicate NamesEmptyDir(v: Volume, g: Own, p: Pos)
    requires p.At? && p.i < |Cwd(v)|
  {
    var e := TreeOf(v).ents(Cwd(v)[p.i], p.j);
    e.isDir && EmptyDir(TreeOf(v), g, e.start)
  }

  lemma {:induction false} DirOfSlot(v: Volume, g: Own, c: nat, j: nat)
    requires WfVolume(v, g) && InDir(TreeOf(v), g, v.cwd, c, j)
    requires TreeOf(v).ents(c, j).kind.Named? && TreeOf(v).ents(c, j).isDir
    ensures var d := TreeOf(v).ents(c, j).start;
            d in g.dirs && d >= 2 && (IsEmptyDir(v, d) <==> EmptyDir(TreeOf(v), g, d))
  {
    hide Wf, IsEmptyDir, EmptyDir, EntryAt;
    NamedIsOwned(TreeOf(v), g, v.cwd, c, j);
    var d := TreeOf(v).ents(c, j).start;
    ChainKnown(v, g, d);
    EmptyCheckIsExact(v, g, d);
  }

  // ---- creating ----

  /** After a slot has been filled with a live entry under a name that was not found, the name is found there. */
  lemma {:induction false} FoundAfter(v: Volume, g: Own, w: Volume, op: Op)
    requires WfVolume(v, g) && CString(op.name) && Shape(w) && w.slots == v.slots && OnlyAt(v, w, Target(v, op))
    requires var p := Target(v, op); IsCalled(ToShort(op.name))(TreeOf(w).ents(Cwd(v)[p.i], p.j))
    ensures Lookup(w, ToShort(op.name)) == Target(v, op)
  {
    hide Wf, Cwd, ToShort, EntryAt;
    var t, t', p := TreeOf(v), TreeOf(w), Target(v, op);
    forall x: nat, y: nat | Spot(t', Cwd(w), x, y) && Before(x, y, p.i, p.j)
      ensures !IsCalled(ToShort(op.name))(t'.ents(Cwd(w)[x], y)) && !AtEnd()(t'.ents(Cwd(w)[x], y))
    {
      assert Spot(t, Cwd(v), x, y);
      NothingAhead(v, g, op, x, y);
    }
    assert Spot(t', Cwd(w), p.i, p.j);
    ScanIs(t', Cwd(w), 0, 0, IsCalled(ToShort(op.name)), AtEnd(), p.i, p.j);
  }

  /** What a new slot holds: an empty file, or a directory that starts at start; erased if the name begins with 0xE5. */
  lemma {:induction false} NewEntry(name: seq<byte>, attr: byte, start: nat)
    requires CString(name) && start < 0x1_0000_0000 && (attr == ATTR_ARCHIVE || attr == ATTR_DIRECTORY)
    ensures Decode(NewSlot(ToShort(name), attr, start, 0)) ==
            Entry(if Erasing(name) then Erased else Named, ToShort(name), attr == ATTR_DIRECTORY, start, 0)
  {
    hide ToShort, NewSlot;
    ShortFirst(name);
    NewSlotKind(ToShort(name), attr, start, 0);
  }

  /** Creating: succeeds exactly if the name is not taken and a slot is free, and makes an empty file of that name. */
  lemma {:induction false} CreateLaw(v: Volume, g: Own, name: seq<byte>)
    requires WfVolume(v, g) && CString(name)
    ensures var r, p := Create(v, name), FreePos(v);
            && (r.ok <==> Lookup(v, ToShort(name)).Nowhere? && p.At?)
            && (!r.ok ==> r.v == v)
            && (r.ok ==>
                  && OnlyAt(v, r.v, p) && r.v.fat == v.fat
                  && TreeOf(r.v).ents(Cwd(v)[p.i], p.j) ==
                     Entry(if Erasing(name) then Erased else Named, ToShort(name), false, 0, 0)
                  && (!Erasing(name) ==> Lookup(r.v, ToShort(name)) == p))
  {
    hide Wf, Cwd, ToShort, PutSlot, Decode, NewSlot;
    var r, p, op := Create(v, name), FreePos(v), OpCreate(name);
    if r.ok {
      CwdSmall(v, g);
      FreePosIsLocal(v, g);
      var c, e := Cwd(v)[p.i], NewSlot(ToShort(name), ATTR_ARCHIVE, 0, 0);
      PutAtEntry(v, c, p.j, e, c, p.j);
      NewEntry(name, ATTR_ARCHIVE, 0);
      PutOnlyAt(v, g, c, p, e);
      if !Erasing(name) { FoundAfter(v, g, r.v, op); }
    }
  }

  lemma {:induction false} PutOnlyAt(v: Volume, g: Own, c: nat, p: Pos, e: Slot)
    requires WfVolume(v, g) && p.At? && p.i < |Cwd(v)| && c == Cwd(v)[p.i] && Inside(v.fat, c) && p.j < v.slots
    ensures OnlyAt(v, PutAt(v, c, p.j, e), p)
  {
    hide Wf, PutSlot, EntryAt;
    CwdOwned(v, g);
    CwdDistinct(v, g);
    forall x: nat, y: nat | Spot(TreeOf(v), Cwd(v), x, y) && (x != p.i || y != p.j)
      ensures TreeOf(PutAt(v, c, p.j, e)).ents(Cwd(v)[x], y) == TreeOf(v).ents(Cwd(v)[x], y)
    {
      PutAtEntry(v, c, p.j, e, Cwd(v)[x], y);
    }
  }

  // ---- making a directory ----

  /** Cluster c holds a directory as it is made: itself, its parent (0 for the root), and nothing else. */
  predicate NewDirectory(w: Volume, c: nat, parent: nat) {
    && TreeOf(w).ents(c, 0) == Entry(Dotted, [0x2E] + seq(10, _ => 0x20), true, c, 0)
    && TreeOf(w).ents(c, 1) == Entry(Dotted, [0x2E, 0x2E] + seq(9, _ => 0x20), true, parent, 0)
    && forall y: nat :: 2 <= y < w.slots ==> TreeOf(w).ents(c, y).kind.End?
  }

  lemma {:induction false} DotNames()
    ensures DOT == [0x2E] + seq(10, _ => 0x20) && DOTDOT == [0x2E, 0x2E] + seq(9, _ => 0x20)
  {
  }

  lemma {:induction false} DotEntry(name: seq<byte>, start: nat)
    requires |name| == 11 && name[0] == PERIOD && start < 0x1_0000_0000
    ensures Decode(NewSlot(name, ATTR_DIRECTORY, start, 0)) == Entry(Dotted, name, true, start, 0)
  {
    assert NewSlot(name, ATTR_DIRECTORY, start, 0)[..11][0] == PERIOD;
  }

  /** The cluster a new directory is given, in the volume mkdir leaves. */
  lemma {:induction false} NewDirIsFresh(v: Volume, c: nat, k: nat, j: nat, e: Slot)
    requires Shape(v) && Inside(v.fat, c) && v.fat[c] == 0 && v.cwd < 0x1_0000_0000
    requires Inside(v.fat, k) && k != c && j < v.slots && Shape(WithNewDir(v, c))
    ensures NewDirectory(PutAt(WithNewDir(v, c), k, j, e), c, if v.cwd == v.root then 0 else v.cwd)
  {
    hide DotBlock, PutSlot, Decode, NewSlot;
    var w := WithNewDir(v, c);
    var b := w.data[c];
    DotNames();
    DotEntry(DOT, c);
    DotEntry(DOTDOT, ParentLink(v.root, v.cwd));
    forall y: nat | y < v.slots ensures TreeOf(PutAt(w, k, j, e)).ents(c, y) == Decode(SlotAt(b, y)) {
      PutAtEntry(w, k, j, e, c, y);
    }
  }

  /** What mkdir leaves when it succeeds, as the slot at p and the cluster c. */
  lemma {:induction false} MkdirLeaves(v: Volume, g: Own, name: seq<byte>) returns (c: nat)
    requires WfVolume(v, g) && CString(name) && v.cwd < 0x1_0000_0000
    ensures Mkdir(v, name).ok <==> Lookup(v, ToShort(name)).Nowhere? && FreePos(v).At? && FreeSet(v.fat) != {}
    ensures !Mkdir(v, name).ok ==> Mkdir(v, name).v == v
    ensures var r, p := Mkdir(v, name), FreePos(v);
            r.ok ==>
              && p.i < |Cwd(v)| && c in FreeSet(v.fat) && r.v.fat == v.fat[c := END_OF_CHAIN] && r.v.cwd == v.cwd
              && TreeOf(r.v).ents(Cwd(v)[p.i], p.j) ==
                 Entry(if Erasing(name) then Erased else Named, ToShort(name), true, c, 0)
              && NewDirectory(r.v, c, if v.cwd == v.root then 0 else v.cwd)
  {
    hide Wf, Cwd, ToShort, PutSlot, Decode, NewSlot, FirstFree, DotBlock, NewDirectory;
    var r, p := Mkdir(v, name), FreePos(v);
    AllocFailsOnlyWhenFull(v.fat, v.hint);
    c := FirstFree(v.fat, v.hint, 0);
    if r.ok {
      FreePosIsLocal(v, g);
      var k := Cwd(v)[p.i];
      NewDirGrown(v, c);
      var w, e := WithNewDir(v, c), NewSlot(ToShort(name), ATTR_DIRECTORY, c, 0);
      assert r.v == PutAt(w, k, p.j, e);
      PutAtEntry(w, k, p.j, e, k, p.j);
      NewEntry(name, ATTR_DIRECTORY, c);
      NewDirIsFresh(v, c, k, p.j, e);
    }
  }

  lemma {:induction false} TakenFromFree(fat: seq<nat>, c: nat)
    requires c in FreeSet(fat)
    ensures FreeSet(fat[c := END_OF_CHAIN]) == FreeSet(fat) - {c}
  {
  }

  /** In a fresh directory, ".." is the second slot. */
  lemma {:induction false} UpFromFresh(w: Volume, c: nat, parent: nat)
    requires Shape(w) && NewDirectory(w, c, parent) && w.fat[c := END_OF_CHAIN] == w.fat && Inside(w.fat, c)
    requires c != w.root
    ensures Cwd(w.(cwd := c)) == [c]
    ensures Chdir(w.(cwd := c), [PERIOD, PERIOD]) == Outcome(true, w.(cwd := if parent == 0 then w.root else parent))
    ensures IsEmptyDir(w, c)
  {
    var d := w.(cwd := c);
    assert IsChain(w.fat, [c]);
    ChainIsUnique(w.fat, [c]);
    hide Decode, ChainOf, FatOk;
    DotNames();
    assert DOT[1] == 0x20 && DOTDOT[1] == 0x2E;
    var t := TreeOf(d);
    forall y: nat | y < w.slots ensures t.ents(c, y) == TreeOf(w).ents(c, y) { }
    ScanUnfold(t, [c], 0, 0, IsCalled(DOTDOT), AtEnd());
    ScanUnfold(t, [c], 0, 1, IsCalled(DOTDOT), AtEnd());
    DecodeFields(SlotOf(d, c, 1));
    ScanUnfold(TreeOf(w), [c], 0, 0, IsContent(), AtEnd());
    ScanUnfold(TreeOf(w), [c], 0, 1, IsContent(), AtEnd());
    ScanUnfold(TreeOf(w), [c], 0, 2, IsContent(), AtEnd());
  }

  /**
   * Making a directory: succeeds exactly if the name is not taken, a slot is free and a cluster is free. It takes one
   * cluster, which is then a directory that names nothing; entering the name leads there, and ".." leads back.
   */
  lemma {:induction false} MkdirLaw(v: Volume, g: Own, name: seq<byte>)
    requires WfVolume(v, g) && CString(name) && v.cwd < 0x1_0000_0000
    ensures var r, p := Mkdir(v, name), FreePos(v);
            && (r.ok <==> Lookup(v, ToShort(name)).Nowhere? && p.At? && FreeSet(v.fat) != {})
            && (!r.ok ==> r.v == v)
            && (r.ok ==>
                  && OnlyAt(v, r.v, p)
                  && var e := TreeOf(r.v).ents(Cwd(v)[p.i], p.j);
                     && e == Entry(if Erasing(name) then Erased else Named, ToShort(name), true, e.start, 0)
                     && e.start in FreeSet(v.fat) && FreeSet(r.v.fat) == FreeSet(v.fat) - {e.start}
                     && NewDirectory(r.v, e.start, if v.cwd == v.root then 0 else v.cwd) && IsEmptyDir(r.v, e.start)
                     && (!Erasing(name) ==> Lookup(r.v, ToShort(name)) == p)
                     && (!Erasing(name) && Component(name) ==>
                           && Chdir(r.v, name) == Outcome(true, r.v.(cwd := e.start))
                           && Chdir(r.v.(cwd := e.start), [PERIOD, PERIOD]) == Outcome(true, r.v)))
  {
    hide Wf, Cwd, ToShort, NewDirectory, IsEmptyDir, FatVolume.Mkdir, FatVolume.Chdir, EntryAt, FatVolume.Lookup;
    hide FatVolume.FreePos;
    var r, p, op := Mkdir(v, name), FreePos(v), OpMkdir(name);
    var c := MkdirLeaves(v, g, name);
    if r.ok {
      TakenFromFree(v.fat, c);
      NewDirOnlyAt(v, g, name, c);
      RootInUse(v, g);
      UpFromFresh(r.v, c, if v.cwd == v.root then 0 else v.cwd);
      if !Erasing(name) {
        FoundAfter(v, g, r.v, op);
        if Component(name) { EnterFound(r.v, name, p, c); }
      }
    }
  }

  lemma {:induction false} NewDirOnlyAt(v: Volume, g: Own, name: seq<byte>, c: nat)
    requires WfVolume(v, g) && CString(name) && v.cwd < 0x1_0000_0000 && Mkdir(v, name).ok
    requires c in FreeSet(v.fat) && Mkdir(v, name).v.fat == v.fat[c := END_OF_CHAIN] && Mkdir(v, name).v.cwd == v.cwd
    requires Lookup(v, ToShort(name)).Nowhere?
    ensures OnlyAt(v, Mkdir(v, name).v, FreePos(v)) && Target(v, OpMkdir(name)) == FreePos(v)
  {
    hide Wf, Cwd, ToShort, FatVolume.Mkdir, EntryAt, FatVolume.Lookup, FatVolume.FreePos;
    NoDirZero(TreeOf(v), g);
    CwdOwned(v, g);
    ChangedOnlyAt(v, g, OpMkdir(name));
  }

  lemma {:induction false} RootInUse(v: Volume, g: Own)
    requires WfVolume(v, g)
    ensures v.root !in FreeSet(v.fat) && v.cwd != 0
  {
    hide HomesOk, EntriesOk, DotsOk, EndsOk;
    RootIsDir(TreeOf(v), g);
    assert Owns(v.fat, g.owner, v.root, g.chains[v.root]);
    assert Owns(v.fat, g.owner, v.cwd, g.chains[v.cwd]);
  }

  /** Entering a component that is found in a slot that names a directory. */
  lemma {:induction false} EnterFound(w: Volume, name: seq<byte>, p: Pos, c: nat)
    requires Shape(w) && Component(name) && Lookup(w, ToShort(name)) == p && p.At? && p.i < |Cwd(w)|
    requires TreeOf(w).ents(Cwd(w)[p.i], p.j).isDir && TreeOf(w).ents(Cwd(w)[p.i], p.j).start == c != 0
    ensures Chdir(w, name) == Outcome(true, w.(cwd := c))
  {
    hide Cwd, ToShort, Decode;
    CwdInside(w, p.i, p.j);
    DecodeFields(SlotOf(w, Cwd(w)[p.i], p.j));
  }

  // ---- changing directory ----

  /** Entering: "/" leads to the root, "." nowhere, any other name to the directory its slot names, if it names one. */
  lemma {:induction false} ChdirLaw(v: Volume, g: Own, name: seq<byte>)
    requires WfVolume(v, g) && CString(name)
    ensures Chdir(v, [0x2F]) == Outcome(true, v.(cwd := v.root)) && Chdir(v, [0x2E]) == Outcome(true, v)
    ensures Component(name) ==>
              var p := Lookup(v, ToShort(name));
              if p.At? && TreeOf(v).ents(Cwd(v)[p.i], p.j).isDir then
                Chdir(v, name) == Outcome(true, v.(cwd := TreeOf(v).ents(Cwd(v)[p.i], p.j).start))
              else Chdir(v, name) == Outcome(false, v)
  {
    hide Wf, Cwd, ToShort, Decode;
    var p := Lookup(v, ToShort(name));
    if Component(name) && p.At? {
      FoundIsNamed(v, g, name);
      DecodeFields(SlotOf(v, Cwd(v)[p.i], p.j));
      if TreeOf(v).ents(Cwd(v)[p.i], p.j).isDir { NamedIsOwned(TreeOf(v), g, v.cwd, Cwd(v)[p.i], p.j); }
    }
  }

  // ---- writing a file ----

  /** Linking free clusters into a chain takes exactly them. */
  lemma {:induction false} ExtendedTakes(fat: seq<nat>, fat': seq<nat>, ch: seq<nat>)
    requires Extended(fat, fat', ch)
    ensures |FreeSet(fat')| == |FreeSet(fat)| - |ch|
  {
    DistinctCard(ch);
    assert Elems(ch) <= FreeSet(fat);
    forall c | c in ch ensures fat'[c] != 0 { ChainNonzero(fat', ch, c); }
    assert FreeSet(fat') == FreeSet(fat) - Elems(ch);
  }

  lemma {:induction false} ChainNonzero(fat: seq<nat>, ch: seq<nat>, c: nat)
    requires IsChain(fat, ch) && c in ch
    ensures fat[c] != 0
  {
    var k :| 0 <= k < |ch| && ch[k] == c;
  }

  /** The clusters that the file of this name has before it is written. */
  function Held(v: Volume, name: seq<byte>): seq<nat> {
    match Lookup(v, ToShort(name))
    case Nowhere => []
    case At(i, j) => if i < |Cwd(v)| then Clusters(v, TreeOf(v).ents(Cwd(v)[i], j).start) else []
  }

  /** The free clusters once the old contents are released. */
  lemma {:induction false} StoreTakes(w: Volume, c: nat, j: nat, e: Slot, bytes: seq<byte>)
    requires Shape(w) && Inside(w.fat, c) && j < w.slots && |bytes| < 0x1_0000_0000
    ensures var r, n := Store(w, c, j, e, bytes), ClustersFor(|bytes|, 32 * w.slots);
            && (r.ok <==> n <= |FreeSet(w.fat)|)
            && (r.ok ==> |FreeSet(r.v.fat)| == |FreeSet(w.fat)| - n)
            && (!r.ok ==> r.v.fat == w.fat)
  {
    hide PutSlot, WithExtent, FatOk;
    ReserveExtends(w, bytes);
    var ch := Reserve(w, |bytes|);
    if |ch| == ClustersFor(|bytes|, ClusterSize(w)) { ExtendedTakes(w.fat, Filled(w, ch, bytes).fat, ch); }
  }

  /** The slot is there for a write: it names a file, or no slot carries the name and one is free. */
  predicate Writable(v: Volume, name: seq<byte>)
    requires Shape(v)
  {
    var p := Target(v, OpWrite(name, []));
    p.At? && (Lookup(v, ToShort(name)).At? ==> p.i < |Cwd(v)| && !TreeOf(v).ents(Cwd(v)[p.i], p.j).isDir)
  }

  /** A write stores into its slot, what the slot led to having been released. */
  lemma {:induction false} WriteIsStore(v: Volume, g: Own, name: seq<byte>, bytes: seq<byte>)
    returns (w: Volume, e: Slot)
    requires WfVolume(v, g) && CString(name) && |bytes| < 0x1_0000_0000 && Writable(v, name)
    ensures var p := Target(v, OpWrite(name, bytes));
            && p.At? && p.i < |Cwd(v)| && Kept(v, w) && w.data == v.data && w.cwd == v.cwd
            && Inside(w.fat, Cwd(v)[p.i]) && p.j < w.slots && w.fat[Cwd(v)[p.i]] != 0
            && WriteFile(v, name, bytes) == Store(w, Cwd(v)[p.i], p.j, e, bytes)
            && |FreeSet(w.fat)| == |FreeSet(v.fat)| + |Held(v, name)|
    ensures !IsDir(e) && NameOf(e) == ToShort(name) && Decode(e).kind == if Erasing(name) then Erased else Named
  {
    hide Wf, Cwd, ToShort, Decode, Release, NewSlot, FatVolume.Store;
    var p := Lookup(v, ToShort(name));
    if p.At? {
      FoundIsNamed(v, g, name);
      TakeOutIsLocal(v, g, OpWrite(name, bytes));
      e := SlotAtPos(v, p);
      w := Release(v, StartOf(e));
      DecodeFields(e);
      ReleaseKeepsData(v, StartOf(e));
      HeldIs(v, g, Cwd(v)[p.i], p.j, e);
    } else {
      FreePosIsLocal(v, g);
      w, e := v, NewSlot(ToShort(name), ATTR_ARCHIVE, 0, 0);
      NewEntry(name, ATTR_ARCHIVE, 0);
      DecodeFields(e);
    }
  }

  lemma {:induction false} HeldIs(v: Volume, g: Own, c: nat, j: nat, e: Slot)
    requires WfVolume(v, g) && InDir(TreeOf(v), g, v.cwd, c, j) && TreeOf(v).ents(c, j) == Decode(e)
    requires Decode(e).kind.Named?
    ensures |FreeSet(Release(v, StartOf(e)).fat)| == |FreeSet(v.fat)| + |Clusters(v, StartOf(e))|
  {
    hide Wf, Release, Decode;
    DecodeFields(e);
    if Decode(e).EmptyFile() {
      NothingReleased(v);
    } else {
      NamedIsOwned(TreeOf(v), g, v.cwd, c, j);
      ReleaseGivesBack(v, g, StartOf(e));
      ChainKnown(v, g, StartOf(e));
    }
  }

  /** What a store leaves in its slot: the name and the size if it succeeds, what was there if it fails. */
  lemma {:induction false} StoredEntry(w: Volume, c: nat, j: nat, e: Slot, bytes: seq<byte>)
    requires Shape(w) && Inside(w.fat, c) && j < w.slots && |bytes| < 0x1_0000_0000 && w.fat[c] != 0
    ensures var r := Store(w, c, j, e, bytes);
            var x := TreeOf(r.v).ents(c, j);
            && (r.ok ==> x.kind == Decode(e).kind && x.name == NameOf(e) && x.isDir == IsDir(e) && x.size == |bytes|)
            && (!r.ok ==> x == TreeOf(w).ents(c, j))
  {
    hide PutSlot, WithExtent, FatOk, Decode;
    var ch, r := Reserve(w, |bytes|), Store(w, c, j, e, bytes);
    ReserveExtends(w, bytes);
    if r.ok {
      var start := if ch == [] then 0 else ch[0];
      ExtentKind(e, start, |bytes|);
      ExtentFields(e, start, |bytes|);
      PutAtEntry(Filled(w, ch, bytes), c, j, WithExtent(e, start, |bytes|), c, j);
    } else {
      StoreFailsQuietly(w, c, j, e, bytes);
      UsedIsNotFree(w.fat, c);
      SameData(w, r.v, c, j);
    }
  }

  lemma {:induction false} ExtentFields(e: Slot, start: nat, size: nat)
    requires start < 0x1_0000_0000 && size < 0x1_0000_0000
    ensures var d := Decode(WithExtent(e, start, size));
            d.name == NameOf(e) && d.isDir == IsDir(e) && d.start == start && d.size == size
  {
    var r := WithExtent(e, start, size);
    assert r[..20][..11] == e[..20][..11] && r[..20][11] == e[..20][11];
  }

  /**
   * Writing: succeeds exactly if there is a slot for the name that names no directory and the free clusters, with those
   * of the old contents, suffice. It then leaves that many fewer free, and a file of that name and size; other slots
   * stay.
   */
  lemma {:induction false} WriteLaw(v: Volume, g: Own, name: seq<byte>, bytes: seq<byte>)
    requires WfVolume(v, g) && CString(name) && |bytes| < 0x1_0000_0000
    ensures var r, p := WriteFile(v, name, bytes), Target(v, OpWrite(name, bytes));
            var n, room := ClustersFor(|bytes|, 32 * v.slots), |FreeSet(v.fat)| + |Held(v, name)|;
            && (r.ok <==> Writable(v, name) && n <= room)
            && (!Writable(v, name) ==> r.v == v)
            && (Writable(v, name) ==> OnlyAt(v, r.v, p) && |FreeSet(r.v.fat)| == if r.ok then room - n else room)
            && (Writable(v, name) && !r.ok ==>
                  TreeOf(r.v).ents(Cwd(v)[p.i], p.j) == TreeOf(v).ents(Cwd(v)[p.i], p.j))
            && (r.ok ==>
                  var e := TreeOf(r.v).ents(Cwd(v)[p.i], p.j);
                  e == Entry(if Erasing(name) then Erased else Named, ToShort(name), false, e.start, |bytes|))
  {
    hide Wf, Cwd, ToShort, FatVolume.Store, Decode, Held, Target, Writable;
    if Writable(v, name) {
      var w, e := WriteIsStore(v, g, name, bytes);
      var p := Target(v, OpWrite(name, bytes));
      StoreTakes(w, Cwd(v)[p.i], p.j, e, bytes);
      StoredEntry(w, Cwd(v)[p.i], p.j, e, bytes);
      SameData(v, w, Cwd(v)[p.i], p.j);
      CwdSmall(v, g);
      WriteOnlyAt(v, g, name, bytes);
    } else {
      NotWritable(v, g, name, bytes);
    }
  }

  lemma {:induction false} NotWritable(v: Volume, g: Own, name: seq<byte>, bytes: seq<byte>)
    requires WfVolume(v, g) && CString(name) && |bytes| < 0x1_0000_0000 && !Writable(v, name)
    ensures WriteFile(v, name, bytes) == Outcome(false, v)
  {
    hide Wf, Cwd, ToShort, FatVolume.Store, Decode;
    var p := Lookup(v, ToShort(name));
    if p.At? {
      FoundIsNamed(v, g, name);
      DecodeFields(SlotOf(v, Cwd(v)[p.i], p.j));
    }
  }

  lemma {:induction false} WriteOnlyAt(v: Volume, g: Own, name: seq<byte>, bytes: seq<byte>)
    requires WfVolume(v, g) && CString(name) && |bytes| < 0x1_0000_0000 && Writable(v, name) && v.cwd < 0x1_0000_0000
    ensures OnlyAt(v, WriteFile(v, name, bytes).v, Target(v, OpWrite(name, bytes)))
  {
    hide Wf, Cwd, ToShort, FatVolume.WriteFile, Decode, Local, EntryAt;
    WritableHasSlot(v, g, name);
    WriteIsLocal(v, g, name, bytes);
    CwdOwned(v, g);
    CwdAfter(v, g, WriteFile(v, name, bytes).v, Target(v, OpWrite(name, bytes)), Gone(v, OpWrite(name, bytes)));
  }

  lemma {:induction false} WritableHasSlot(v: Volume, g: Own, name: seq<byte>)
    requires WfVolume(v, g) && CString(name) && Writable(v, name)
    ensures HasSlot(v, name)
  {
    hide Wf, Cwd, ToShort, Decode;
    var p := Lookup(v, ToShort(name));
    if p.At? {
      FoundIsNamed(v, g, name);
      DecodeFields(SlotOf(v, Cwd(v)[p.i], p.j));
    }
  }

  // ---- case ----

  /** Names that are the same letter by letter are found in the same slot, by both lookups. */
  lemma {:induction false} CaseBlindFind(v: Volume, a: seq<byte>, b: seq<byte>)
    requires SameLetters(a, b)
    ensures Lookup(v, ToShort(a)) == Lookup(v, ToShort(b)) && Find(v, a) == Find(v, b)
  {
    hide ToShort, Cwd, SameName, SameLetter, Format;
    CaseBlindShort(a, b);
    CutSame(a, b);
    forall e: Entry ensures Matches(a)(e) == Matches(b)(e) {
      if |e.name| == 11 { SameNameTrans(Format(e.name), CutNul(a), CutNul(b)); }
    }
    ScanAgrees(TreeOf(v), Cwd(v), 0, 0, Matches(a), Matches(b), AtEnd());
  }

  lemma {:induction false} CutSame(a: seq<byte>, b: seq<byte>)
    requires SameLetters(a, b)
    ensures SameName(CutNul(a), CutNul(b))
  {
    hide SameLetter, SameName;
    forall i | 0 <= i < |a| ensures a[i] == 0 <==> b[i] == 0 { PeriodIsNoLetter(a[i], b[i]); }
    UntilIs(b, 0, Until(a, 0));
    SameNameIff(CutNul(a), CutNul(b));
  }

  lemma {:induction false} SameNameTrans(a: seq<byte>, b: seq<byte>, c: seq<byte>)
    requires SameName(b, c)
    ensures SameName(a, b) <==> SameName(a, c)
  {
  }
}
