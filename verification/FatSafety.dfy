/** Every driver operation keeps the volume well formed, or breaks it under an exact condition. */
module FatSafety {
  import opened Bytes
  import opened FatChains
  import opened FatTree
  import opened FatDirectory
  import opened FatNames
  import opened FatVolume

  // ---- the current directory ----

  /** In a well-formed volume the current directory is one of its directories, with its own chain. */
  lemma {:induction false} CwdOwned(v: Volume, g: Own)
    requires WfVolume(v, g)
    ensures v.cwd in g.dirs && v.cwd in g.chains && Cwd(v) == g.chains[v.cwd]
    ensures EndOk(TreeOf(v), Cwd(v))
    ensures forall i: nat, j: nat :: Spot(TreeOf(v), Cwd(v), i, j) ==>
              Inside(v.fat, Cwd(v)[i]) && InDir(TreeOf(v), g, v.cwd, Cwd(v)[i], j)
  {
    hide HomesOk, EntriesOk, DotsOk, EndOk, IsPlace, IsChain, FatOk, EntryAt;
    var ch := g.chains[v.cwd];
    assert Owns(v.fat, g.owner, v.cwd, ch);
    OwnedChain(v.fat, g.owner, v.cwd, ch);
    ChainIsUnique(v.fat, ch);
  }

  /** A lookup that comes back empty has overlooked no live slot. */
  lemma {:induction false} LookupFinds(v: Volume, g: Own, target: seq<byte>, i: nat, j: nat)
    requires WfVolume(v, g) && Spot(TreeOf(v), Cwd(v), i, j) && IsCalled(target)(TreeOf(v).ents(Cwd(v)[i], j))
    ensures Lookup(v, target).At?
  {
    CwdOwned(v, g);
    LookupIsComplete(TreeOf(v), Cwd(v), IsCalled(target), i, j);
  }

  /** The slot picked for a new entry is open. */
  lemma {:induction false} FreePosIsOpen(v: Volume)
    requires FreePos(v).At?
    ensures OpenSlot(TreeOf(v), Cwd(v), FreePos(v).i, FreePos(v).j)
  {
    var p := FreePos(v);
    var t := TreeOf(v);
    forall x: nat, y: nat | Spot(t, Cwd(v), x, y) && Before(x, y, p.i, p.j) ensures !t.ents(Cwd(v)[x], y).kind.End? {
      ScanFindsFirst(t, Cwd(v), 0, 0, IsFree(), Never(), x, y);
    }
  }

  // ---- entering ----

  /** w is v grown by the chain ch, and e is a slot that fits ch. */
  ghost predicate Grown(v: Volume, w: Volume, e: Slot, ch: seq<nat>) {
    && Shape(v) && Shape(w) && Extended(v.fat, w.fat, ch)
    && w.slots == v.slots && w.root == v.root && w.cwd == v.cwd
    && (forall c :: 2 <= c < |v.fat| && c !in ch ==> w.data[c] == v.data[c])
    && Decode(e).kind.Named?
    && if IsDir(e) then
         |ch| == 1 && StartOf(e) == ch[0] && v.cwd < 0x1_0000_0000
         && w.data[ch[0]] == DotBlock(v.slots, ch[0], ParentLink(v.root, v.cwd))
       else
         |ch| == ClustersFor(SizeOf(e), ClusterSize(v)) && StartOf(e) == if ch == [] then 0 else ch[0]
  }

  lemma {:induction false} FreshFromDots(w: Volume, c: nat, parent: nat)
    requires Shape(w) && Inside(w.fat, c) && parent < 0x1_0000_0000 && w.data[c] == DotBlock(w.slots, c, parent)
    ensures FreshDir(TreeOf(w), c, parent)
  {
    var t := TreeOf(w);
    assert NewSlot(DOT, ATTR_DIRECTORY, c, 0)[..11][0] == DOT[0];
    assert NewSlot(DOTDOT, ATTR_DIRECTORY, parent, 0)[..11][0] == DOTDOT[0];
    assert t.ents(c, 0) == Decode(NewSlot(DOT, ATTR_DIRECTORY, c, 0));
    assert t.ents(c, 1) == Decode(NewSlot(DOTDOT, ATTR_DIRECTORY, parent, 0));
    forall j: nat | 2 <= j < t.slots ensures t.ents(c, j).kind.End? {
      assert t.ents(c, j) == Decode(SlotAt(w.data[c], j));
    }
  }

  lemma {:induction false} EnterTree(v: Volume, w: Volume, c: nat, j: nat, e: Slot, ch: seq<nat>)
    requires Grown(v, w, e, ch) && Inside(v.fat, c) && c !in ch && j < v.slots
    ensures var t' := TreeOf(PutAt(w, c, j, e));
            Entered(TreeOf(v), t', c, j, ch) && t'.ents(c, j) == Decode(e) && Fits(t', v.cwd, Decode(e), ch)
  {
    var v' := PutAt(w, c, j, e);
    var t, t' := TreeOf(v), TreeOf(v');
    forall x: nat, y: nat | Inside(t.fat, x) && y < t.slots && x !in ch && (x != c || y != j)
      ensures t'.ents(x, y) == t.ents(x, y)
    {
      PutAtEntry(w, c, j, e, x, y);
      SameData(v, w, x, y);
    }
    PutAtEntry(w, c, j, e, c, j);
    if IsDir(e) {
      assert v'.data[ch[0]] == w.data[ch[0]];
      FreshFromDots(v', ch[0], ParentLink(v.root, v.cwd));
    }
  }

  /** Filling an open slot of the current directory with a slot that fits the chain just grown. */
  lemma {:induction false} EnterKeepsWf(v: Volume, g: Own, w: Volume, i: nat, j: nat, e: Slot, ch: seq<nat>)
    returns (g': Own)
    requires WfVolume(v, g) && Grown(v, w, e, ch) && OpenSlot(TreeOf(v), Cwd(v), i, j)
    ensures Inside(w.fat, Cwd(v)[i]) && WfVolume(PutAt(w, Cwd(v)[i], j, e), g')
    ensures v.cwd in g.dirs && Distinct(ch) && g' == OwnWith(g, v.cwd, Loc(Cwd(v)[i], j), IsDir(e), ch)
  {
    CwdOwned(v, g);
    ExtendedApart(v.fat, w.fat, g, ch);
    assert InDir(TreeOf(v), g, v.cwd, Cwd(v)[i], j);
    EnterTree(v, w, Cwd(v)[i], j, e, ch);
    g' := AddKeepsWf(TreeOf(v), g, TreeOf(PutAt(w, Cwd(v)[i], j, e)), v.cwd, i, j, ch);
  }

  // ---- taking out ----

  lemma {:induction false} TakeOutEntries(v: Volume, c: nat, j: nat, x: Slot, start: nat)
    requires Shape(v) && Inside(v.fat, c) && j < v.slots
    ensures var w := Release(v, start); var t, t' := TreeOf(v), TreeOf(PutAt(w, c, j, x));
            forall a: nat, b: nat :: Inside(t.fat, a) && b < t.slots ==>
              t'.ents(a, b) == if a == c && b == j then Decode(x) else t.ents(a, b)
  {
    var w := Release(v, start);
    var t, t' := TreeOf(v), TreeOf(PutAt(w, c, j, x));
    forall a: nat, b: nat | Inside(t.fat, a) && b < t.slots
      ensures t'.ents(a, b) == if a == c && b == j then Decode(x) else t.ents(a, b)
    {
      PutAtEntry(w, c, j, x, a, b);
      SameData(v, w, a, b);
    }
  }

  lemma {:induction false} TakeOutKeepsWf(v: Volume, g: Own, i: nat, j: nat) returns (g': Own)
    requires WfVolume(v, g) && Spot(TreeOf(v), Cwd(v), i, j) && TreeOf(v).ents(Cwd(v)[i], j).kind.Named?
    requires var e := TreeOf(v).ents(Cwd(v)[i], j); e.isDir ==> EmptyDir(TreeOf(v), g, e.start)
    ensures Inside(v.fat, Cwd(v)[i])
    ensures var s := SlotOf(v, Cwd(v)[i], j);
            && WfVolume(PutAt(Release(v, StartOf(s)), Cwd(v)[i], j, Deleted(s)), g')
            && (if Decode(s).EmptyFile() then g' == g else StartOf(s) in g.chains && g' == OwnWithout(g, StartOf(s)))
  {
    hide Deleted, OwnWithout, EmptyDir, DotsOk, EndsOk, HomesOk, SlotAt, PutSlot, KeysOk, EntriesOk, ChainsOk, FatOk;
    hide Follow, Clear;
    CwdOwned(v, g);
    var c := Cwd(v)[i];
    var s := SlotOf(v, c, j);
    var w := Release(v, StartOf(s));
    var v' := PutAt(w, c, j, Deleted(s));
    var t, t' := TreeOf(v), TreeOf(v');
    assert t.ents(c, j) == Decode(s);
    TakeOutEntries(v, c, j, Deleted(s), StartOf(s));
    if !Decode(s).EmptyFile() {
      NamedIsOwned(t, g, v.cwd, c, j);
      ReleaseClears(v, g, StartOf(s));
    }
    g' := RemoveKeepsWf(t, g, t', v.cwd, c, j);
  }

  /** A named slot of directory d that is not an empty file names an object of its own, other than d. */
  lemma {:induction false} NamedIsOwned(t: Tree, g: Own, d: nat, c: nat, j: nat)
    requires Wf(t, g) && InDir(t, g, d, c, j)
    requires t.ents(c, j).kind.Named? && !t.ents(c, j).EmptyFile()
    ensures var e := t.ents(c, j);
            && e.start in g.home && g.home[e.start] == Loc(c, j) && e.start in g.chains && e.start != d && e.start != 0
            && Describes(t, g, d, e.start, e)
  {
    assert AtHome(g, t.ents(c, j), c, j);
  }

  /** Releasing an object clears exactly its chain. */
  lemma {:induction false} ReleaseClears(v: Volume, g: Own, s: nat)
    requires Shape(v) && ChainsOk(v.fat, g) && s in g.chains
    ensures s >= 2 && Release(v, s).fat == Clear(v.fat, g.chains[s]) && Cleared(v.fat, Release(v, s).fat, g.chains[s])
  {
    assert Owns(v.fat, g.owner, s, g.chains[s]);
    FreeChainClears(v.fat, g.chains[s]);
  }

  // ---- storing bytes ----

  /** The slot form of a C string starts with neither an end mark nor a period. */
  lemma {:induction false} ShortFirst(name: seq<byte>)
    requires CString(name)
    ensures ToShort(name)[0] != 0 && ToShort(name)[0] != PERIOD
    ensures ToShort(name)[0] == DELETED <==> name != [] && name[0] == DELETED
  {
    ShortIsNotDot(name);
    var n := Until(name, PERIOD);
    if n == 0 {
      assert ToShort(name)[..8][0] == SPACE;
    } else {
      assert Base(name)[0] == Upper(name[0]);
      assert ToShort(name)[..8][0] == Base(name)[0];
    }
  }

  lemma {:induction false} NewSlotKind(name: seq<byte>, attr: byte, start: nat, size: nat)
    requires |name| == 11 && start < 0x1_0000_0000 && size < 0x1_0000_0000
    requires (attr == ATTR_ARCHIVE || attr == ATTR_DIRECTORY)
    requires name[0] != 0 && name[0] != PERIOD
    ensures var e := NewSlot(name, attr, start, size);
            && Decode(e).kind == (if name[0] == DELETED then Erased else Named)
            && (IsDir(e) <==> attr == ATTR_DIRECTORY)
  {
    var e := NewSlot(name, attr, start, size);
    assert e[..11][0] == name[0];
  }

  /** Giving a slot a new extent changes nothing a lookup tests. */
  lemma {:induction false} ExtentKind(e: Slot, start: nat, size: nat)
    requires start < 0x1_0000_0000 && size < 0x1_0000_0000
    ensures var r := WithExtent(e, start, size);
            Decode(r).kind == Decode(e).kind && IsDir(r) == IsDir(e) && NameOf(r) == NameOf(e)
  {
    var r := WithExtent(e, start, size);
    assert r[0] == r[..20][0] && r[11] == r[..20][11] && r[..11] == r[..20][..11] && e[..11] == e[..20][..11];
  }

  /** The clusters reserved for bytes extend the table, if there were enough of them. */
  lemma {:induction false} ReserveExtends(v: Volume, bytes: seq<byte>)
    requires Shape(v)
    ensures var ch := Reserve(v, |bytes|);
            && Extended(v.fat, Link(v.fat, ch), ch) && Shape(Filled(v, ch, bytes))
            && (|ch| == ClustersFor(|bytes|, ClusterSize(v)) <==>
                  ClustersFor(|bytes|, ClusterSize(v)) <= |FreeSet(v.fat)|)
  {
    var n := ClustersFor(|bytes|, ClusterSize(v));
    var ch := Reserve(v, |bytes|);
    PicksAreFree(v.fat, v.hint, n);
    PicksSucceedIff(v.fat, v.hint, n);
    LinkIsChain(v.fat, ch);
    FilledShape(v, ch, bytes);
    forall i | 0 <= i < |ch| ensures v.fat[ch[i]] == 0 { assert ch[i] in Elems(ch); }
  }

  lemma {:induction false} FilledGrown(v: Volume, e: Slot, bytes: seq<byte>)
    requires Shape(v) && |bytes| < 0x1_0000_0000 && Decode(e).kind.Named? && !IsDir(e)
    requires |Reserve(v, |bytes|)| == ClustersFor(|bytes|, ClusterSize(v))
    ensures var ch := Reserve(v, |bytes|); var start := if ch == [] then 0 else ch[0];
            start < 0x1_0000_0000 && Grown(v, Filled(v, ch, bytes), WithExtent(e, start, |bytes|), ch)
  {
    var ch := Reserve(v, |bytes|);
    var w := Filled(v, ch, bytes);
    ReserveExtends(v, bytes);
    ExtentKind(e, if ch == [] then 0 else ch[0], |bytes|);
    forall c | 2 <= c < |v.fat| && c !in ch ensures w.data[c] == v.data[c] {
      WriteChunksFrame(v.data, ch, bytes, ClusterSize(v), c);
    }
  }

  /** A store that succeeds in an open slot leaves a well-formed volume with one more object. */
  lemma {:induction false} StoreKeepsWf(v: Volume, g: Own, i: nat, j: nat, e: Slot, bytes: seq<byte>) returns (g': Own)
    requires WfVolume(v, g) && OpenSlot(TreeOf(v), Cwd(v), i, j) && |bytes| < 0x1_0000_0000
    requires Decode(e).kind.Named? && !IsDir(e)
    ensures Inside(v.fat, Cwd(v)[i])
    requires |Reserve(v, |bytes|)| == ClustersFor(|bytes|, ClusterSize(v))
    ensures Store(v, Cwd(v)[i], j, e, bytes).ok && WfVolume(Store(v, Cwd(v)[i], j, e, bytes).v, g')
    ensures v.cwd in g.dirs && Distinct(Reserve(v, |bytes|))
    ensures g' == OwnWith(g, v.cwd, Loc(Cwd(v)[i], j), false, Reserve(v, |bytes|))
  {
    hide Wf, OpenSlot, Decode, Follow, WithExtent, OwnWith, PutSlot, Grown, Picks;
    CwdOwned(v, g);
    OpenIsFree(TreeOf(v), Cwd(v), i, j);
    var ch := Reserve(v, |bytes|);
    PicksAreFree(v.fat, v.hint, ClustersFor(|bytes|, ClusterSize(v)));
    FilledGrown(v, e, bytes);
    var e' := WithExtent(e, if ch == [] then 0 else ch[0], |bytes|);
    ExtentKind(e, if ch == [] then 0 else ch[0], |bytes|);
    g' := EnterKeepsWf(v, g, Filled(v, ch, bytes), i, j, e', ch);
  }

  /** Contents of unowned clusters do not matter, nor which directory is the current one. */
  lemma {:induction false} UnownedDataIsQuiet(v: Volume, g: Own, w: Volume)
    requires WfVolume(v, g) && Shape(w) && w.fat == v.fat && w.slots == v.slots && w.root == v.root && w.cwd in g.dirs
    requires forall x :: x in g.owner && x < |v.data| ==> w.data[x] == v.data[x]
    ensures WfVolume(w, g)
  {
    var t, t' := TreeOf(v), TreeOf(w);
    forall x, y: nat | x in g.owner && y < t.slots ensures t'.ents(x, y) == t.ents(x, y) {
      SameData(v, w, x, y);
    }
    QuietKeepsWf(t, g, t');
  }

  /** A store that fails has only scribbled on free clusters. */
  lemma {:induction false} StoreFailsQuietly(v: Volume, c: nat, j: nat, e: Slot, bytes: seq<byte>)
    requires Shape(v) && Inside(v.fat, c) && j < v.slots && |bytes| < 0x1_0000_0000
    requires !Store(v, c, j, e, bytes).ok
    ensures var w := Store(v, c, j, e, bytes).v;
            && Shape(w) && w.fat == v.fat && w.slots == v.slots && w.root == v.root && w.cwd == v.cwd
            && forall x :: 0 <= x < |v.data| && x !in FreeSet(v.fat) ==> w.data[x] == v.data[x]
  {
    var ch := Reserve(v, |bytes|);
    PicksAreFree(v.fat, v.hint, ClustersFor(|bytes|, ClusterSize(v)));
    ReserveExtends(v, bytes);
    var w := Store(v, c, j, e, bytes).v;
    forall x | 0 <= x < |v.data| && x !in FreeSet(v.fat) ensures w.data[x] == v.data[x] {
      assert x in Elems(ch) <==> x in ch;
      WriteChunksFrame(v.data, ch, bytes, ClusterSize(v), x);
    }
  }
}
