/** What files read: the round trip through a write, and that no operation disturbs any other file. */
module FatContents {
  import opened Bytes
  import opened FatChains
  import opened FatTree
  import opened FatDirectory
  import opened FatNames
  import opened FatVolume
  import opened FatSafety
  import opened FatRuns
  import opened FatTheorems

  // ---- the two lookups ----

  lemma {:induction false} ScanAgrees(t: Tree, ch: seq<nat>, i: nat, j: nat, hit: Entry -> bool, hit': Entry -> bool,
                                      stop: Entry -> bool)
    requires i <= |ch| && j <= t.slots
    requires forall x: nat, y: nat :: Spot(t, ch, x, y) ==> hit(t.ents(ch[x], y)) == hit'(t.ents(ch[x], y))
    ensures Scan(t, ch, i, j, hit, stop) == Scan(t, ch, i, j, hit', stop)
    decreases |ch| - i, t.slots - j
  {
    if i == |ch| {
    } else if j == t.slots {
      ScanAgrees(t, ch, i + 1, 0, hit, hit', stop);
    } else {
      assert Spot(t, ch, i, j);
      ScanAgrees(t, ch, i, j + 1, hit, hit', stop);
    }
  }

  /** Every live slot of the current directory is "." or ".." or has a canonical upper-case name. */
  ghost predicate CanonicalDir(v: Volume) {
    forall i: nat, j: nat :: Spot(TreeOf(v), Cwd(v), i, j) && TreeOf(v).ents(Cwd(v)[i], j).Live() ==>
      CanonicalEntry(TreeOf(v).ents(Cwd(v)[i], j))
  }

  predicate CanonicalEntry(e: Entry) {
    |e.name| == 11 && (e.name == DOT || e.name == DOTDOT || Canonical(e.name))
  }

  lemma {:induction false} EntryLookupsAgree(e: Entry, name: seq<byte>)
    requires e.Live() ==> CanonicalEntry(e)
    requires Canonical83(name)
    ensures IsCalled(ToShort(name))(e) == Matches(name)(e)
  {
    if e.Live() {
      if e.name == DOT || e.name == DOTDOT {
        ShortIsNotDot(name);
        DotNeverMatches(e.name, name);
      } else {
        NamesAgree(e.name, name);
      }
    }
  }

  lemma {:induction false} DotNeverMatches(raw: seq<byte>, name: seq<byte>)
    requires |raw| == 11 && raw[0] == PERIOD && Canonical83(name)
    ensures !SameName(Format(raw), name)
  {
    assert raw[..8][0] == PERIOD;
    assert RawBase(raw)[0] == PERIOD;
    assert DottedName(raw)[0] == PERIOD;
    assert Format(raw)[0] == PERIOD;
    assert UpperAll(Format(raw))[0] == PERIOD;
    assert UpperAll(name)[0] == Upper(name[0]);
  }

  /** In a directory with canonical names, the two lookups select the same slot for every 8.3 name. */
  lemma {:induction false} LookupsAgree(v: Volume, name: seq<byte>)
    requires CanonicalDir(v) && Canonical83(name)
    ensures Find(v, name) == Lookup(v, ToShort(name))
  {
    var t := TreeOf(v);
    forall x: nat, y: nat | Spot(t, Cwd(v), x, y)
      ensures IsCalled(ToShort(name))(t.ents(Cwd(v)[x], y)) == Matches(name)(t.ents(Cwd(v)[x], y))
    {
      EntryLookupsAgree(t.ents(Cwd(v)[x], y), name);
    }
    ScanAgrees(t, Cwd(v), 0, 0, IsCalled(ToShort(name)), Matches(name), AtEnd());
  }

  // ---- frames ----

  /** v' differs from v only in slot (c, j), in free clusters, and in the clusters of the object gone. */
  ghost predicate Local(v: Volume, g: Own, v': Volume, c: nat, j: nat, gone: nat) {
    && Shape(v) && Shape(v') && v'.slots == v.slots && |v'.fat| == |v.fat| && Inside(v.fat, c) && j < v.slots
    && (forall x :: x in g.owner && g.owner[x].s != gone && Inside(v.fat, x) ==>
          v'.fat[x] == v.fat[x] && (x != c ==> v'.data[x] == v.data[x]))
    && (forall y: nat :: y < v.slots && y != j ==> SlotAt(v'.data[c], y) == SlotAt(v.data[c], y))
  }

  lemma {:induction false} ChainInRange(fat: seq<nat>, ch: seq<nat>)
    requires IsChain(fat, ch)
    ensures |ch| > 0 && forall k :: 0 <= k < |ch| ==> Inside(fat, ch[k])
  {
  }

  /** An object other than the one gone keeps its chain. */
  lemma {:induction false} ChainKept(v: Volume, g: Own, v': Volume, c: nat, j: nat, gone: nat, s: nat)
    requires WfVolume(v, g) && Local(v, g, v', c, j, gone) && s in g.chains && s != gone
    ensures ChainOf(v'.fat, s) == ChainOf(v.fat, s) == g.chains[s]
    ensures forall k :: 0 <= k < |g.chains[s]| ==>
              Inside(v.fat, g.chains[s][k]) && g.chains[s][k] in g.owner && g.owner[g.chains[s][k]].s == s
  {
    hide HomesOk, EntriesOk, DotsOk, EndsOk, IsPlace, SlotAt, Follow, IsChain;
    var ch := g.chains[s];
    assert Owns(v.fat, g.owner, s, ch);
    ChainInRange(v.fat, ch);
    ChainIsUnique(v.fat, ch);
    ChainFrame(v.fat, v'.fat, ch);
    ChainIsUnique(v'.fat, ch);
  }

  /** A file named in another slot keeps its slot and reads as before, however much is asked for. */
  lemma {:induction false} FileKept(v: Volume, g: Own, v': Volume, c: nat, j: nat, gone: nat, d: nat, x: nat, y: nat,
                                    max: nat)
    requires WfVolume(v, g) && Local(v, g, v', c, j, gone) && InDir(TreeOf(v), g, v.cwd, c, j)
    requires gone == 0 || (gone in g.home && g.home[gone] == Loc(c, j))
    requires InDir(TreeOf(v), g, d, x, y) && (x != c || y != j) && TreeOf(v).ents(x, y).kind.Named?
    requires !TreeOf(v).ents(x, y).isDir
    requires gone in g.dirs ==> d != gone
    ensures Inside(v.fat, x) && SlotOf(v', x, y) == SlotOf(v, x, y)
    ensures var e := SlotOf(v, x, y);
            ReadFile(v', StartOf(e), SizeOf(e), max) == ReadFile(v, StartOf(e), SizeOf(e), max)
  {
    hide Wf;
    OwnerInside(v, g, d, x, y, gone);
    var e := SlotOf(v, x, y);
    if Decode(e).EmptyFile() {
      EmptyRead(v, SizeOf(e), max);
      EmptyRead(v', SizeOf(e), max);
    } else {
      NamedIsOwned(TreeOf(v), g, d, x, y);
      ChainKept(v, g, v', c, j, gone, StartOf(e));
      var ch := g.chains[StartOf(e)];
      forall k | 0 <= k < |ch| ensures v'.data[ch[k]] == v.data[ch[k]] {
        assert ch[k] != c;
      }
      ContentFrame(v.data, v'.data, ch);
    }
  }

  lemma {:induction false} EmptyRead(v: Volume, size: nat, max: nat)
    requires Shape(v)
    ensures ReadFile(v, 0, size, max) == []
  {
  }

  lemma {:induction false} OwnerInside(v: Volume, g: Own, d: nat, x: nat, y: nat, gone: nat)
    requires WfVolume(v, g) && InDir(TreeOf(v), g, d, x, y) && (gone in g.dirs ==> d != gone)
    ensures Inside(v.fat, x) && TreeOf(v).ents(x, y) == Decode(SlotOf(v, x, y)) && g.owner[x].s != gone
  {
    hide HomesOk, EntriesOk, DotsOk, EndsOk;
  }

  // ---- each operation is local ----

  /** The slot an operation reads or rewrites: the one it finds, or else the first free one. */
  function Target(v: Volume, op: Op): Pos {
    if Lookup(v, ToShort(op.name)).At? then Lookup(v, ToShort(op.name)) else FreePos(v)
  }

  lemma {:induction false} PutIsLocal(v: Volume, g: Own, w: Volume, c: nat, j: nat, e: Slot, gone: nat)
    requires Local(v, g, w, c, j, gone)
    ensures Local(v, g, PutAt(w, c, j, e), c, j, gone)
  {
    var v' := PutAt(w, c, j, e);
    forall y: nat | y < v.slots && y != j ensures SlotAt(v'.data[c], y) == SlotAt(v.data[c], y) {
      PutSlotFrame(w.data[c], j, e, y);
    }
  }

  lemma {:induction false} ReleaseKeepsData(v: Volume, s: nat)
    requires Shape(v)
    ensures Kept(v, Release(v, s)) && Release(v, s).data == v.data && Release(v, s).cwd == v.cwd
  {
    if s >= 2 { FreeFromOk(v.fat, s); }
  }

  lemma {:induction false} ReleaseIsLocal(v: Volume, g: Own, c: nat, j: nat, s: nat)
    requires WfVolume(v, g) && s in g.chains && Inside(v.fat, c) && j < v.slots
    ensures Local(v, g, Release(v, s), c, j, s)
    ensures forall x :: x in g.owner && g.owner[x].s != s ==> Inside(v.fat, x) && Release(v, s).fat[x] != 0
  {
    hide HomesOk, EntriesOk, DotsOk, EndsOk, KeysOk, SlotAt, Cleared, Clear;
    ReleaseClears(v, g, s);
    ClearedApart(v.fat, Release(v, s).fat, g, s);
    OwnerInUse(v.fat, g);
    hide ChainsOk, FatOk;
  }

  lemma {:induction false} OwnerInUse(fat: seq<nat>, g: Own)
    requires ChainsOk(fat, g)
    ensures forall x :: x in g.owner ==> Inside(fat, x) && fat[x] != 0
  {
    hide Owns, IsPlace;
  }

  /** Storing after a local change is local: it only takes clusters that are free by then. */
  lemma {:induction false} StoreIsLocal(v: Volume, g: Own, w: Volume, c: nat, j: nat, gone: nat, e: Slot,
                                        bytes: seq<byte>)
    requires Local(v, g, w, c, j, gone) && |bytes| < 0x1_0000_0000 && w.fat[c] != 0
    requires forall x :: x in g.owner && g.owner[x].s != gone ==> Inside(v.fat, x) && w.fat[x] != 0
    ensures Local(v, g, Store(w, c, j, e, bytes).v, c, j, gone)
  {
    var ch := Reserve(w, |bytes|);
    ReserveExtends(w, bytes);
    FilledFrame(w, ch, bytes);
    var f := Filled(w, ch, bytes);
    var r := if Store(w, c, j, e, bytes).ok then f else f.(fat := w.fat);
    FilledIsLocal(v, g, w, r, ch, c, j, gone);
    if Store(w, c, j, e, bytes).ok {
      PutIsLocal(v, g, r, c, j, WithExtent(e, if ch == [] then 0 else ch[0], |bytes|), gone);
    }
  }

  lemma {:induction false} FilledIsLocal(v: Volume, g: Own, w: Volume, r: Volume, ch: seq<nat>, c: nat, j: nat,
                                         gone: nat)
    requires Local(v, g, w, c, j, gone) && Shape(r) && r.slots == w.slots && |r.fat| == |w.fat| && w.fat[c] != 0
    requires forall x :: x in g.owner && g.owner[x].s != gone ==> Inside(v.fat, x) && w.fat[x] != 0
    requires InRange(w.fat, ch) && forall i :: 0 <= i < |ch| ==> w.fat[ch[i]] == 0
    requires forall x :: 0 <= x < |w.fat| && x !in ch ==> r.fat[x] == w.fat[x] && r.data[x] == w.data[x]
    ensures Local(v, g, r, c, j, gone)
  {
  }

  lemma {:induction false} NoneGone(v: Volume, g: Own, c: nat, j: nat)
    requires WfVolume(v, g) && InDir(TreeOf(v), g, v.cwd, c, j)
    ensures forall x :: x in g.owner ==> Inside(v.fat, x) && v.fat[x] != 0
    ensures Local(v, g, v, c, j, 0)
  {
    hide HomesOk, EntriesOk, DotsOk, EndsOk;
  }

  /** The object an operation takes out of the slot it has found, or 0. */
  function Gone(v: Volume, op: Op): nat
    requires Shape(v)
  {
    var p := Lookup(v, ToShort(op.name));
    if p.At? && !op.OpCreate? && !op.OpMkdir? && !Decode(SlotAtPos(v, p)).EmptyFile() then StartOf(SlotAtPos(v, p))
    else 0
  }

  /** Two volumes with the same table and the same clusters. */
  predicate SameDisk(v: Volume, v': Volume) { v'.fat == v.fat && v'.data == v.data && v'.slots == v.slots }

  lemma {:induction false} TakeOutIsLocal(v: Volume, g: Own, op: Op)
    requires WfVolume(v, g) && Typed(op) && Lookup(v, ToShort(op.name)).At? && !op.OpCreate? && !op.OpMkdir?
    ensures var p := Lookup(v, ToShort(op.name)); var e := SlotAtPos(v, p); var c := Cwd(v)[p.i];
            && Inside(v.fat, c) && Local(v, g, Release(v, StartOf(e)), c, p.j, Gone(v, op))
            && Release(v, StartOf(e)).fat[c] != 0
            && (forall x :: x in g.owner && g.owner[x].s != Gone(v, op) ==>
                  Inside(v.fat, x) && Release(v, StartOf(e)).fat[x] != 0)
            && InDir(TreeOf(v), g, v.cwd, c, p.j)
            && (Gone(v, op) == 0 || (Gone(v, op) in g.home && g.home[Gone(v, op)] == Loc(c, p.j)))
  {
    hide Wf;
    FoundIsNamed(v, g, op.name);
    var p := Lookup(v, ToShort(op.name));
    var c := Cwd(v)[p.i];
    var e := SlotAtPos(v, p);
    NoneGone(v, g, c, p.j);
    if !Decode(e).EmptyFile() {
      NamedIsOwned(TreeOf(v), g, v.cwd, c, p.j);
      ReleaseIsLocal(v, g, c, p.j, StartOf(e));
      assert g.owner[c].s == v.cwd;
    }
  }

  lemma {:induction false} FreePosIsLocal(v: Volume, g: Own)
    requires WfVolume(v, g) && FreePos(v).At?
    ensures FreePos(v).i < |Cwd(v)|
    ensures var p := FreePos(v); var c := Cwd(v)[p.i];
            && Inside(v.fat, c) && InDir(TreeOf(v), g, v.cwd, c, p.j) && Local(v, g, v, c, p.j, 0) && v.fat[c] != 0
            && (forall x :: x in g.owner ==> Inside(v.fat, x) && v.fat[x] != 0)
  {
    hide Wf;
    CwdOwned(v, g);
    var p := FreePos(v);
    NoneGone(v, g, Cwd(v)[p.i], p.j);
  }

  lemma {:induction false} CreateIsLocal(v: Volume, g: Own, op: Op)
    requires WfVolume(v, g) && Typed(op) && v.cwd < 0x1_0000_0000 && op.OpCreate? && !SameDisk(v, Apply(v, op))
    ensures Target(v, op).At? && LocalAt(v, g, Apply(v, op), Target(v, op), 0)
  {
    hide Wf;
    FreePosIsLocal(v, g);
    var p := FreePos(v);
    PutIsLocal(v, g, v, Cwd(v)[p.i], p.j, NewSlot(ToShort(op.name), ATTR_ARCHIVE, 0, 0), 0);
  }

  lemma {:induction false} MkdirIsLocal(v: Volume, g: Own, op: Op)
    requires WfVolume(v, g) && Typed(op) && v.cwd < 0x1_0000_0000 && op.OpMkdir? && !SameDisk(v, Apply(v, op))
    ensures Target(v, op).At? && LocalAt(v, g, Apply(v, op), Target(v, op), 0)
  {
    hide Wf, FatVolume.FreePos, Cwd, FirstFree, DotBlock, Lookup, SlotAt;
    FreePosIsLocal(v, g);
    var p := FreePos(v);
    AllocFailsOnlyWhenFull(v.fat, v.hint);
    var c := FirstFree(v.fat, v.hint, 0);
    NewDirIsLocal(v, g, c, Cwd(v)[p.i], p.j, NewSlot(ToShort(op.name), ATTR_DIRECTORY, c, 0));
  }

  lemma {:induction false} NewDirIsLocal(v: Volume, g: Own, c: nat, k: nat, j: nat, e: Slot)
    requires Local(v, g, v, k, j, 0) && v.fat[k] != 0 && v.cwd < 0x1_0000_0000 && Inside(v.fat, c) && v.fat[c] == 0
    requires forall x :: x in g.owner ==> Inside(v.fat, x) && v.fat[x] != 0
    ensures Shape(WithNewDir(v, c)) && Inside(WithNewDir(v, c).fat, k)
    ensures Local(v, g, PutAt(WithNewDir(v, c), k, j, e), k, j, 0)
  {
    hide DotBlock, SlotAt;
    NewDirGrown(v, c);
    FilledIsLocal(v, g, v, WithNewDir(v, c), [c], k, j, 0);
    PutIsLocal(v, g, WithNewDir(v, c), k, j, e, 0);
  }

  /** The change is local to the slot at position p of the current directory. */
  ghost predicate LocalAt(v: Volume, g: Own, v': Volume, p: Pos, gone: nat) {
    && p.At? && p.i < |Cwd(v)| && Local(v, g, v', Cwd(v)[p.i], p.j, gone)
    && InDir(TreeOf(v), g, v.cwd, Cwd(v)[p.i], p.j)
    && (gone == 0 || (gone in g.home && g.home[gone] == Loc(Cwd(v)[p.i], p.j)))
  }

  lemma {:induction false} ChangeIsLocal(v: Volume, g: Own, op: Op)
    requires WfVolume(v, g) && Typed(op) && v.cwd < 0x1_0000_0000 && !op.OpCreate? && !op.OpMkdir?
    requires !SameDisk(v, Apply(v, op))
    ensures Target(v, op).At? && LocalAt(v, g, Apply(v, op), Target(v, op), Gone(v, op))
  {
    hide Wf, Cwd, FatVolume.FreePos, ToShort, SlotAt;
    var p := Lookup(v, ToShort(op.name));
    if p.At? {
      TakeOutIsLocal(v, g, op);
      var e, c := SlotAtPos(v, p), Cwd(v)[p.i];
      if op.OpWrite? {
        StoreIsLocal(v, g, Release(v, StartOf(e)), c, p.j, Gone(v, op), e, op.bytes);
      } else {
        PutIsLocal(v, g, Release(v, StartOf(e)), c, p.j, Deleted(e), Gone(v, op));
      }
    } else {
      FreePosIsLocal(v, g);
      var q := FreePos(v);
      StoreIsLocal(v, g, v, Cwd(v)[q.i], q.j, 0, NewSlot(ToShort(op.name), ATTR_ARCHIVE, 0, 0), op.bytes);
    }
  }

  lemma {:induction false} NoDirZero(t: Tree, g: Own)
    requires Wf(t, g)
    ensures 0 !in g.dirs
  {
    hide ChainsOk, HomesOk, EntriesOk, DotsOk, EndsOk;
  }

  /** A directory that is removed holds no file. */
  lemma {:induction false} GoneDirIsEmpty(v: Volume, g: Own, op: Op, x: nat, y: nat)
    requires WfVolume(v, g) && Typed(op) && v.cwd < 0x1_0000_0000 && !SameDisk(v, Apply(v, op)) && Gone(v, op) in g.dirs
    requires Gone(v, op) != 0
    ensures InDir(TreeOf(v), g, Gone(v, op), x, y) ==> !TreeOf(v).ents(x, y).kind.Named?
  {
    hide Wf, Cwd, PutAt, ToShort;
    FoundIsNamed(v, g, op.name);
    var p := Lookup(v, ToShort(op.name));
    NamedIsOwned(TreeOf(v), g, v.cwd, Cwd(v)[p.i], p.j);
    EmptyCheckIsExact(v, g, Gone(v, op));
  }

  /**
   * No operation, failing or not, safe or not, changes any file but the one in its own slot: name, extent and contents.
   */
  lemma {:induction false} OtherFilesUntouched(v: Volume, g: Own, op: Op, d: nat, x: nat, y: nat, max: nat)
    requires WfVolume(v, g) && Typed(op) && v.cwd < 0x1_0000_0000
    requires InDir(TreeOf(v), g, d, x, y) && TreeOf(v).ents(x, y).kind.Named? && !TreeOf(v).ents(x, y).isDir
    requires var p := Target(v, op); p.At? ==> p.i < |Cwd(v)| && (x != Cwd(v)[p.i] || y != p.j)
    ensures Inside(v.fat, x) && SlotOf(Apply(v, op), x, y) == SlotOf(v, x, y)
    ensures var e := SlotOf(v, x, y);
            ReadFile(Apply(v, op), StartOf(e), SizeOf(e), max) == ReadFile(v, StartOf(e), SizeOf(e), max)
  {
    var v' := Apply(v, op);
    hide Wf;
    OwnerInside(v, g, d, x, y, 0);
    if SameDisk(v, v') {
      SameDiskReads(v, v', StartOf(SlotOf(v, x, y)), SizeOf(SlotOf(v, x, y)), max);
    } else {
      var p := Target(v, op);
      if op.OpCreate? || op.OpMkdir? {
        if op.OpCreate? { CreateIsLocal(v, g, op); } else { MkdirIsLocal(v, g, op); }
        hide Apply, Target;
        FileKept(v, g, v', Cwd(v)[p.i], p.j, 0, d, x, y, max);
      } else {
        ChangeIsLocal(v, g, op);
        if Gone(v, op) in g.dirs && Gone(v, op) != 0 { GoneDirIsEmpty(v, g, op, x, y); }
        NoDirZero(TreeOf(v), g);
        hide Apply, Target, Gone;
        FileKept(v, g, v', Cwd(v)[p.i], p.j, Gone(v, op), d, x, y, max);
      }
    }
  }

  lemma {:induction false} SameDiskReads(v: Volume, v': Volume, start: nat, size: nat, max: nat)
    requires Shape(v) && Shape(v') && SameDisk(v, v')
    ensures ReadFile(v', start, size, max) == ReadFile(v, start, size, max)
  {
  }
}
