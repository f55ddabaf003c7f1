/** Runs of the shell: when the path displayed goes on leading to where the shell is. */
module ShellRuns {
  import opened Bytes
  import opened FatChains
  import opened FatTree
  import opened FatDirectory
  import opened FatNames
  import opened FatVolume
  import opened FatSafety
  import opened FatRuns
  import opened FatTheorems
  import opened FatContents
  import opened FatRoundTrip
  import opened ShellPaths
  import opened DisplayedPath

  // ---- what an operation leaves in the slot it rewrites ----

  /** The slot is as before, or it is not an end mark and live only under the name given. */
  predicate SlotHarmless(e: Entry, e': Entry, name: seq<byte>) {
    e' == e || (!e'.kind.End? && (e'.Live() ==> e'.name == name))
  }

  lemma {:induction false} PutHarmless(w: Volume, c: nat, j: nat, e: Slot, was: Entry, name: seq<byte>)
    requires Shape(w) && Inside(w.fat, c) && j < w.slots
    requires !Decode(e).kind.End? && (Decode(e).Live() ==> Decode(e).name == name)
    ensures SlotHarmless(was, TreeOf(PutAt(w, c, j, e)).ents(c, j), name)
  {
    hide Decode, PutSlot;
    PutAtEntry(w, c, j, e, c, j);
  }

  lemma {:induction false} NewHarmless(name: seq<byte>, attr: byte, start: nat, size: nat)
    requires CString(name) && start < 0x1_0000_0000 && size < 0x1_0000_0000
    requires (attr == ATTR_ARCHIVE || attr == ATTR_DIRECTORY)
    ensures var e := Decode(NewSlot(ToShort(name), attr, start, size));
            !e.kind.End? && (e.Live() ==> e.name == ToShort(name))
  {
    hide ToShort;
    ShortFirst(name);
    NewSlotKind(ToShort(name), attr, start, size);
  }

  lemma {:induction false} StoreHarmless(w: Volume, c: nat, j: nat, e: Slot, bytes: seq<byte>, name: seq<byte>)
    requires Shape(w) && Inside(w.fat, c) && j < w.slots && |bytes| < 0x1_0000_0000 && w.fat[c] != 0
    requires !Decode(e).kind.End? && (Decode(e).Live() ==> Decode(e).name == name)
    ensures SlotHarmless(TreeOf(w).ents(c, j), TreeOf(Store(w, c, j, e, bytes).v).ents(c, j), name)
  {
    hide Decode, PutSlot, WithExtent, SlotHarmless;
    var ch := Reserve(w, |bytes|);
    ReserveExtends(w, bytes);
    if Store(w, c, j, e, bytes).ok {
      var start := if ch == [] then 0 else ch[0];
      ExtentKind(e, start, |bytes|);
      ExtentLive(e, start, |bytes|, name);
      PutHarmless(Filled(w, ch, bytes), c, j, WithExtent(e, start, |bytes|), TreeOf(w).ents(c, j), name);
    } else {
      StoreFailsQuietly(w, c, j, e, bytes);
      UsedIsNotFree(w.fat, c);
      SameData(w, Store(w, c, j, e, bytes).v, c, j);
      SameIsHarmless(TreeOf(w).ents(c, j), name);
    }
  }

  lemma {:induction false} SameIsHarmless(e: Entry, name: seq<byte>)
    ensures SlotHarmless(e, e, name)
  {
  }

  lemma {:induction false} ExtentLive(e: Slot, start: nat, size: nat, name: seq<byte>)
    requires start < 0x1_0000_0000 && size < 0x1_0000_0000
    requires !Decode(e).kind.End? && (Decode(e).Live() ==> Decode(e).name == name)
    ensures var r := Decode(WithExtent(e, start, size)); !r.kind.End? && (r.Live() ==> r.name == name)
  {
    hide WithExtent;
    ExtentKind(e, start, size);
  }

  lemma {:induction false} DeletedErased(e: Slot)
    ensures Decode(Deleted(e)).kind.Erased?
  {
  }

  /** The operations of the file commands that change something. */
  predicate Changes(op: Op) { !op.OpChdir? }

  /** What the slot an operation has rewritten holds then. */
  lemma {:induction false} SlotAfter(v: Volume, g: Own, op: Op)
    requires WfVolume(v, g) && Typed(op) && v.cwd < 0x1_0000_0000 && Changes(op) && !SameDisk(v, Apply(v, op))
    ensures var p := Target(v, op);
            && p.At? && p.i < |Cwd(v)|
            && var c := Cwd(v)[p.i];
               SlotHarmless(TreeOf(v).ents(c, p.j), TreeOf(Apply(v, op)).ents(c, p.j), ToShort(op.name))
  {
    hide Wf, ToShort, Cwd, SlotHarmless, Decode, Deleted, NewSlot, EntryAt, DotBlock, FirstFree, Follow;
    var p := Lookup(v, ToShort(op.name));
    if p.At? {
      SlotAfterFound(v, g, op);
    } else {
      FreePosIsLocal(v, g);
      SlotAfterNew(v, g, op);
    }
  }

  lemma {:induction false} SlotAfterFound(v: Volume, g: Own, op: Op)
    requires WfVolume(v, g) && Typed(op) && v.cwd < 0x1_0000_0000 && Changes(op) && !SameDisk(v, Apply(v, op))
    requires Lookup(v, ToShort(op.name)).At?
    ensures var p := Lookup(v, ToShort(op.name));
            && p.i < |Cwd(v)|
            && var c := Cwd(v)[p.i];
               SlotHarmless(TreeOf(v).ents(c, p.j), TreeOf(Apply(v, op)).ents(c, p.j), ToShort(op.name))
  {
    hide Wf, ToShort, Cwd, SlotHarmless, Decode, Deleted, Follow, PutAt, Store, Release;
    var p := Lookup(v, ToShort(op.name));
    TakeOutIsLocal(v, g, op);
    var e, c := SlotAtPos(v, p), Cwd(v)[p.i];
    FoundIsNamed(v, g, op.name);
    FoundName(v, op.name);
    var w := Release(v, StartOf(e));
    if op.OpWrite? {
      StoreHarmless(w, c, p.j, e, op.bytes, ToShort(op.name));
      ReleaseKeepsData(v, StartOf(e));
      SameData(v, w, c, p.j);
    } else {
      DeletedErased(e);
      PutHarmless(w, c, p.j, Deleted(e), TreeOf(v).ents(c, p.j), ToShort(op.name));
    }
  }

  lemma {:induction false} FoundName(v: Volume, name: seq<byte>)
    requires Shape(v) && Lookup(v, ToShort(name)).At?
    ensures var e := Decode(SlotAtPos(v, Lookup(v, ToShort(name)))); e.Live() && e.name == ToShort(name)
  {
    hide ToShort;
  }

  lemma {:induction false} SlotAfterNew(v: Volume, g: Own, op: Op)
    requires WfVolume(v, g) && Typed(op) && v.cwd < 0x1_0000_0000 && Changes(op) && !SameDisk(v, Apply(v, op))
    requires Lookup(v, ToShort(op.name)).Nowhere? && FreePos(v).At?
    ensures var p := FreePos(v);
            && p.i < |Cwd(v)|
            && var c := Cwd(v)[p.i];
               SlotHarmless(TreeOf(v).ents(c, p.j), TreeOf(Apply(v, op)).ents(c, p.j), ToShort(op.name))
  {
    hide Wf, ToShort, Cwd, SlotHarmless, Decode, NewSlot, DotBlock, FirstFree, Follow, PutAt, Store;
    var p := FreePos(v);
    FreePosIsLocal(v, g);
    var c := Cwd(v)[p.i];
    match op
    case OpCreate(name) =>
      NewHarmless(name, ATTR_ARCHIVE, 0, 0);
      PutHarmless(v, c, p.j, NewSlot(ToShort(name), ATTR_ARCHIVE, 0, 0), TreeOf(v).ents(c, p.j), ToShort(name));
    case OpWrite(name, bytes) =>
      NewHarmless(name, ATTR_ARCHIVE, 0, 0);
      StoreHarmless(v, c, p.j, NewSlot(ToShort(name), ATTR_ARCHIVE, 0, 0), bytes, ToShort(name));
    case OpMkdir(name) =>
      AllocFailsOnlyWhenFull(v.fat, v.hint);
      var k := FirstFree(v.fat, v.hint, 0);
      NewDirGrown(v, k);
      NewHarmless(name, ATTR_DIRECTORY, k, 0);
      PutHarmless(WithNewDir(v, k), c, p.j, NewSlot(ToShort(name), ATTR_DIRECTORY, k, 0), TreeOf(v).ents(c, p.j),
                  ToShort(name));
  }

  /** If the slot rewritten named a directory, that directory has been removed. */
  lemma {:induction false} DirSlotIsRemoved(v: Volume, g: Own, op: Op)
    requires WfVolume(v, g) && Typed(op) && v.cwd < 0x1_0000_0000 && Changes(op) && !SameDisk(v, Apply(v, op))
    ensures var p := Target(v, op);
            && p.At? && p.i < |Cwd(v)|
            && var e := TreeOf(v).ents(Cwd(v)[p.i], p.j);
               e.Live() && e.isDir ==> op.OpRmdir? && Gone(v, op) == e.start && Lookup(v, ToShort(op.name)) == p
  {
    hide Wf, ToShort, Cwd, Store, PutAt, Release, DotBlock, FirstFree, Follow;
    var p := Lookup(v, ToShort(op.name));
    if p.At? { FoundIsNamed(v, g, op.name); } else { FreePosIsLocal(v, g); }
  }

  // ---- looking up along the path ----

  /** A scan still finds its slot if that slot is kept and those before it are kept or harmless. */
  lemma {:induction false} ScanStays(t: Tree, t': Tree, ch: seq<nat>, hit: Entry -> bool, stop: Entry -> bool, i: nat,
                                     j: nat)
    requires Scan(t, ch, 0, 0, hit, stop) == At(i, j) && t'.slots == t.slots
    requires Spot(t, ch, i, j) && t'.ents(ch[i], j) == t.ents(ch[i], j)
    requires forall x: nat, y: nat :: Spot(t, ch, x, y) && Before(x, y, i, j) ==>
               t'.ents(ch[x], y) == t.ents(ch[x], y) || (!hit(t'.ents(ch[x], y)) && !stop(t'.ents(ch[x], y)))
    ensures Scan(t', ch, 0, 0, hit, stop) == At(i, j)
  {
    forall x: nat, y: nat | Spot(t', ch, x, y) && Before(x, y, i, j)
      ensures !hit(t'.ents(ch[x], y)) && !stop(t'.ents(ch[x], y))
    {
      assert Spot(t, ch, x, y);
      ScanFindsFirst(t, ch, 0, 0, hit, stop, x, y);
    }
    ScanIs(t', ch, 0, 0, hit, stop, i, j);
  }

  /** w differs from v in one slot of the current directory, harmless to other names, and in what has gone. */
  ghost predicate Nearly(v: Volume, g: Own, w: Volume, c: nat, j: nat, gone: nat, name: seq<byte>) {
    && Shape(v) && Shape(w) && w.root == v.root && w.slots == v.slots && |w.fat| == |v.fat|
    && Local(v, g, w, c, j, gone) && InDir(TreeOf(v), g, v.cwd, c, j)
    && SlotHarmless(TreeOf(v).ents(c, j), TreeOf(w).ents(c, j), name)
  }

  lemma {:induction false} EntryStays(v: Volume, g: Own, w: Volume, c: nat, j: nat, gone: nat, name: seq<byte>, d: nat,
                                      x: nat, y: nat)
    requires WfVolume(v, g) && Nearly(v, g, w, c, j, gone, name) && InDir(TreeOf(v), g, d, x, y) && d != gone
    requires (x != c || y != j)
    ensures TreeOf(w).ents(x, y) == TreeOf(v).ents(x, y)
  {
    hide HomesOk, EntriesOk, DotsOk, EndsOk, KeysOk, Decode, Owns, IsPlace;
    if x != c { SameData(v, w, x, y); }
  }

  /** The chain of a directory that stays, seen from it. */
  lemma {:induction false} CwdStays(v: Volume, g: Own, w: Volume, c: nat, j: nat, gone: nat, name: seq<byte>, d: nat)
    requires WfVolume(v, g) && Nearly(v, g, w, c, j, gone, name) && d in g.dirs && d != gone
    ensures d in g.chains && Cwd(w.(cwd := d)) == Cwd(v.(cwd := d)) == g.chains[d]
    ensures forall x: nat, y: nat :: Spot(TreeOf(v), g.chains[d], x, y) ==> InDir(TreeOf(v), g, d, g.chains[d][x], y)
  {
    hide Wf, SlotHarmless, Local;
    MoveKeepsWf(v, g, d);
    CwdOwned(v.(cwd := d), g);
    ChainKept(v, g, w, c, j, gone, d);
  }

  lemma {:induction false} MovedEntry(v: Volume, d: nat, x: nat, y: nat)
    ensures TreeOf(v.(cwd := d)).ents(x, y) == TreeOf(v).ents(x, y)
  {
  }

  /** Looking target up in directory d finds slot y of cluster x. */
  predicate Names(v: Volume, d: nat, target: seq<byte>, x: nat, y: nat) {
    var u := v.(cwd := d);
    var p := Lookup(u, target);
    p.At? && p.i < |Cwd(u)| && Cwd(u)[p.i] == x && p.j == y
  }

  /** A name other than the one operated on is found where it was, in every directory that stays. */
  lemma {:induction false} LookupStays(v: Volume, g: Own, w: Volume, c: nat, j: nat, gone: nat, name: seq<byte>,
                                       d: nat, target: seq<byte>, a: nat, b: nat)
    requires WfVolume(v, g) && Nearly(v, g, w, c, j, gone, name) && d in g.dirs && d != gone
    requires Names(v, d, target, a, b) && (a != c || b != j) && (d == v.cwd ==> target != name)
    ensures Names(w, d, target, a, b) && TreeOf(w).ents(a, b) == TreeOf(v).ents(a, b)
  {
    hide Wf, Local, EntryAt, Cwd;
    CwdStays(v, g, w, c, j, gone, name, d);
    var t, t', ch := TreeOf(v.(cwd := d)), TreeOf(w.(cwd := d)), g.chains[d];
    var p := Lookup(v.(cwd := d), target);
    forall x: nat, y: nat | Spot(t, ch, x, y)
      ensures t.ents(ch[x], y) == TreeOf(v).ents(ch[x], y) && t'.ents(ch[x], y) == TreeOf(w).ents(ch[x], y)
    {
      MovedEntry(v, d, ch[x], y);
      MovedEntry(w, d, ch[x], y);
    }
    forall x: nat, y: nat | Spot(t, ch, x, y) && (ch[x] != c || y != j) ensures t'.ents(ch[x], y) == t.ents(ch[x], y) {
      assert Spot(TreeOf(v), ch, x, y);
      EntryStays(v, g, w, c, j, gone, name, d, ch[x], y);
    }
    forall x: nat, y: nat | Spot(t, ch, x, y) && Before(x, y, p.i, p.j)
      ensures t'.ents(ch[x], y) == t.ents(ch[x], y)
              || (!IsCalled(target)(t'.ents(ch[x], y)) && !AtEnd()(t'.ents(ch[x], y)))
    {
      if ch[x] == c && y == j {
        assert Spot(TreeOf(v), ch, x, y);
        assert d == v.cwd;
      }
    }
    ScanStays(t, t', ch, IsCalled(target), AtEnd(), p.i, p.j);
  }

  // ---- one component ----

  /** From directory d, the component leads to directory to. */
  predicate Enters(v: Volume, d: nat, tok: seq<byte>, to: nat) {
    Shape(v) && Chdir(v.(cwd := d), tok) == Outcome(true, v.(cwd := to))
  }

  lemma {:induction false} EntersByLookup(v: Volume, g: Own, d: nat, tok: seq<byte>, to: nat) returns (x: nat, y: nat)
    requires WfVolume(v, g) && d in g.dirs && CString(tok) && Component(tok) && Enters(v, d, tok, to)
    ensures Names(v, d, ToShort(tok), x, y) && InDir(TreeOf(v), g, d, x, y)
    ensures var e := TreeOf(v).ents(x, y); e.Live() && e.kind.Named? && e.isDir && e.start == to != 0
  {
    hide Wf, ToShort;
    var u := v.(cwd := d);
    MoveKeepsWf(v, g, d);
    FoundIsNamed(u, g, tok);
    var p := Lookup(u, ToShort(tok));
    x, y := Cwd(u)[p.i], p.j;
    MovedEntry(v, d, x, y);
    NamedIsOwned(TreeOf(u), g, d, x, y);
    NoDirZero(TreeOf(u), g);
  }

  lemma {:induction false} LookupEnters(v: Volume, d: nat, tok: seq<byte>, x: nat, y: nat)
    requires Shape(v) && Component(tok) && Names(v, d, ToShort(tok), x, y)
    requires TreeOf(v).ents(x, y).isDir && TreeOf(v).ents(x, y).start != 0
    ensures Enters(v, d, tok, TreeOf(v).ents(x, y).start)
  {
    hide ToShort;
    MovedEntry(v, d, x, y);
  }

  /** After an operation in the current directory, a component still leads where it led, unless that is gone. */
  lemma {:induction false} EntersStays(v: Volume, g: Own, w: Volume, c: nat, j: nat, gone: nat, name: seq<byte>,
                                       d: nat, tok: seq<byte>, to: nat)
    requires WfVolume(v, g) && Nearly(v, g, w, c, j, gone, name) && d in g.dirs && d != gone
    requires CString(tok) && Component(tok) && Enters(v, d, tok, to) && to != gone
    requires var e := TreeOf(v).ents(c, j); e.Live() && e.isDir ==> e.start == gone
    requires Names(v, v.cwd, name, c, j) || Lookup(v, name).Nowhere?
    ensures Enters(w, d, tok, to)
  {
    hide Wf, ToShort, Local, SlotHarmless, EntryAt, FatVolume.Chdir;
    var a, b := EntersByLookup(v, g, d, tok, to);
    if d == v.cwd { assert v.(cwd := d) == v; }
    LookupStays(v, g, w, c, j, gone, name, d, ToShort(tok), a, b);
    LookupEnters(w, d, tok, a, b);
  }

  /** The same, on a disk that has not changed. */
  lemma {:induction false} SameDiskEnters(v: Volume, g: Own, w: Volume, d: nat, tok: seq<byte>, to: nat)
    requires WfVolume(v, g) && d in g.dirs && CString(tok) && Component(tok) && Enters(v, d, tok, to)
    requires Shape(w) && SameDisk(v, w) && w.root == v.root
    ensures Enters(w, d, tok, to)
  {
    hide Wf, ToShort, Decode, FatVolume.Chdir;
    var a, b := EntersByLookup(v, g, d, tok, to);
    var t, t', ch := TreeOf(v.(cwd := d)), TreeOf(w.(cwd := d)), Cwd(v.(cwd := d));
    var p := Lookup(v.(cwd := d), ToShort(tok));
    assert forall x: nat, y: nat :: Spot(t, ch, x, y) ==> t'.ents(ch[x], y) == t.ents(ch[x], y);
    ScanStays(t, t', ch, IsCalled(ToShort(tok)), AtEnd(), p.i, p.j);
    LookupEnters(w, d, tok, a, b);
  }

  // ---- a whole path ----

  /** Every component leads where it led, from every directory but the one gone and to every directory but it. */
  ghost predicate Keeps(v: Volume, g: Own, w: Volume, gone: nat) {
    forall d: nat, tok, to: nat ::
      d in g.dirs && d != gone && to != gone && CString(tok) && Component(tok) && Enters(v, d, tok, to) ==>
        Enters(w, d, tok, to)
  }

  /** The directory, if it is one, names nothing. */
  ghost predicate NamesNone(v: Volume, g: Own, d: nat) {
    d in g.dirs ==> forall x: nat, y: nat :: InDir(TreeOf(v), g, d, x, y) ==> !TreeOf(v).ents(x, y).kind.Named?
  }

  /** From directory d, the components lead to directory to. */
  predicate WalksTo(v: Volume, d: nat, ts: seq<seq<byte>>, to: nat) {
    Shape(v) && ChdirAll(v.(cwd := d), ts) == Outcome(true, v.(cwd := to))
  }

  lemma {:induction false} WalksToStep(v: Volume, g: Own, d: nat, ts: seq<seq<byte>>, to: nat) returns (next: nat)
    requires WfVolume(v, g) && d in g.dirs && Parts(ts) && ts != [] && WalksTo(v, d, ts, to)
    ensures next in g.dirs && Component(ts[0]) && CString(ts[0]) && Enters(v, d, ts[0], next)
    ensures WalksTo(v, next, ts[1..], to)
  {
    hide Wf, Shape, FatVolume.Chdir;
    var u := v.(cwd := d);
    MoveKeepsWf(v, g, d);
    ChdirAllUnfold(u, ts);
    StepDown(u, g, ts[0]);
    next := FatVolume.Chdir(u, ts[0]).v.cwd;
    assert v.(cwd := next) == u.(cwd := next);
  }

  lemma {:induction false} StepWalksTo(v: Volume, d: nat, ts: seq<seq<byte>>, next: nat, to: nat)
    requires ts != [] && Enters(v, d, ts[0], next) && WalksTo(v, next, ts[1..], to)
    ensures WalksTo(v, d, ts, to)
  {
    hide FatVolume.Chdir;
  }

  lemma {:induction false} WalksToNowhere(v: Volume, d: nat, to: nat)
    requires Shape(v)
    ensures WalksTo(v, d, [], to) <==> d == to
  {
    assert v.(cwd := d).cwd == d && v.(cwd := to).cwd == to;
  }

  /** A path keeps leading to a directory that stays: those it passes through are not empty, so they stay too. */
  lemma {:induction false} WalkStays(v: Volume, g: Own, w: Volume, gone: nat, d: nat, ts: seq<seq<byte>>, to: nat)
    requires WfVolume(v, g) && Shape(w) && Keeps(v, g, w, gone) && NamesNone(v, g, gone)
    requires Parts(ts) && d in g.dirs && d != gone && to != gone && WalksTo(v, d, ts, to)
    ensures WalksTo(w, d, ts, to)
    decreases |ts|
  {
    hide Wf, Shape, Enters, WalksTo, NamesNone, Part;
    WalksToNowhere(v, d, to);
    WalksToNowhere(w, d, to);
    if ts != [] {
      var next := WalksToStep(v, g, d, ts, to);
      if next == gone { PassedThrough(v, g, gone, ts[1..], to); }
      WalkStays(v, g, w, gone, next, ts[1..], to);
      StepWalksTo(w, d, ts, next, to);
    }
  }

  lemma {:induction false} PassedThrough(v: Volume, g: Own, d: nat, ts: seq<seq<byte>>, to: nat)
    requires WfVolume(v, g) && d in g.dirs && Parts(ts) && WalksTo(v, d, ts, to) && d != to
    ensures !NamesNone(v, g, d)
  {
    hide Wf, Shape, Enters, WalksTo, Part;
    WalksToNowhere(v, d, to);
    var next := WalksToStep(v, g, d, ts, to);
    var x, y := EntersByLookup(v, g, d, ts[0], next);
  }

  // ---- one operation ----

  /** A directory that goes is the empty one rmdir has been told to remove. */
  lemma {:induction false} GoneIsRemoved(v: Volume, g: Own, op: Op)
    requires WfVolume(v, g) && Typed(op) && v.cwd < 0x1_0000_0000 && Changes(op) && !SameDisk(v, Apply(v, op))
    ensures Gone(v, op) in g.dirs ==> op.OpRmdir? && RemovesDir(v, op.name, Gone(v, op))
    ensures NamesNone(v, g, Gone(v, op)) && Gone(v, op) != v.root
  {
    hide Wf, Cwd, PutAt, ToShort, Store, Release;
    NoDirZero(TreeOf(v), g);
    RootIsDir(TreeOf(v), g);
    if Gone(v, op) in g.dirs {
      FoundIsNamed(v, g, op.name);
      var p := Lookup(v, ToShort(op.name));
      NamedIsOwned(TreeOf(v), g, v.cwd, Cwd(v)[p.i], p.j);
      forall x: nat, y: nat | InDir(TreeOf(v), g, Gone(v, op), x, y) ensures !TreeOf(v).ents(x, y).kind.Named? {
        GoneDirIsEmpty(v, g, op, x, y);
      }
      RootHasNoHome(v, g);
    }
  }

  lemma {:induction false} RootHasNoHome(v: Volume, g: Own)
    requires WfVolume(v, g)
    ensures v.root !in g.home
  {
    hide ChainsOk, HomesOk, EntriesOk, DotsOk, EndsOk;
  }

  lemma {:induction false} OpKeeps(v: Volume, g: Own, op: Op)
    requires WfVolume(v, g) && Typed(op) && v.cwd < 0x1_0000_0000 && Changes(op) && !SameDisk(v, Apply(v, op))
    ensures Keeps(v, g, Apply(v, op), Gone(v, op))
  {
    hide Wf, Shape, Local, SlotHarmless, Enters, Apply, Gone, Target, Cwd, ToShort, EntryAt, InDir;
    var w, p, gone := Apply(v, op), Target(v, op), Gone(v, op);
    OpIsLocal(v, g, op);
    SlotAfter(v, g, op);
    DirSlotIsRemoved(v, g, op);
    TargetIsNamed(v, g, op);
    forall d: nat, tok, to: nat
      | d in g.dirs && d != gone && to != gone && CString(tok) && Component(tok) && Enters(v, d, tok, to)
      ensures Enters(w, d, tok, to)
    {
      EntersStays(v, g, w, Cwd(v)[p.i], p.j, gone, ToShort(op.name), d, tok, to);
    }
  }

  lemma {:induction false} OpIsLocal(v: Volume, g: Own, op: Op)
    requires WfVolume(v, g) && Typed(op) && v.cwd < 0x1_0000_0000 && Changes(op) && !SameDisk(v, Apply(v, op))
    ensures LocalAt(v, g, Apply(v, op), Target(v, op), Gone(v, op)) && Kept(v, Apply(v, op))
  {
    hide Wf, Local, Target, Cwd, ToShort, EntryAt, InDir;
    if op.OpCreate? {
      CreateIsLocal(v, g, op);
    } else if op.OpMkdir? {
      MkdirIsLocal(v, g, op);
    } else {
      ChangeIsLocal(v, g, op);
    }
  }

  /** The slot rewritten is the one the name is found in, if it is found. */
  lemma {:induction false} TargetIsNamed(v: Volume, g: Own, op: Op)
    requires WfVolume(v, g) && Typed(op) && Target(v, op).At? && Target(v, op).i < |Cwd(v)|
    ensures var p := Target(v, op);
            Names(v, v.cwd, ToShort(op.name), Cwd(v)[p.i], p.j) || Lookup(v, ToShort(op.name)).Nowhere?
  {
    hide Wf, ToShort;
    assert v.(cwd := v.cwd) == v;
  }

  // ---- one command ----

  /** What the types of the kernel give a command: 32-bit cluster numbers and sizes. */
  predicate Ready(v: Volume, cmd: Command, path: seq<byte>) {
    && Shape(v) && v.cwd < 0x1_0000_0000 && Descend(v, path).v.cwd < 0x1_0000_0000
    && (cmd.Write? ==> |cmd.bytes| < 0x1_0000_0000)
  }

  /** After the command, the path displayed leads to where the shell is. */
  predicate StillRight(v: Volume, cmd: Command, path: seq<byte>, shown: seq<byte>) {
    Ready(v, cmd, path) && Right(Perform(v, cmd, path).v, shown)
  }

  lemma {:induction false} RightIsWalk(v: Volume, ts: seq<seq<byte>>)
    requires Shape(v) && Parts(ts)
    ensures Right(v, Shown(ts)) <==> WalksTo(v, v.root, ts, v.cwd)
  {
    hide ChdirPath, ChdirAll, Shape, Shown, Part;
    WalkShown(v, ts);
    assert v.(cwd := v.cwd) == v;
  }

  /** Where the current directory is put plays no part in a walk. */
  lemma {:induction false} WalkMoved(v: Volume, at: nat, d: nat, ts: seq<seq<byte>>, to: nat)
    ensures WalksTo(v.(cwd := at), d, ts, to) <==> WalksTo(v, d, ts, to)
  {
    hide ChdirAll;
    assert v.(cwd := at).(cwd := d) == v.(cwd := d) && v.(cwd := at).(cwd := to) == v.(cwd := to);
  }

  /** An operation that does not remove the directory a path leads to leaves the path leading to it. */
  lemma {:induction false} OpKeepsWalk(v: Volume, g: Own, op: Op, ts: seq<seq<byte>>, to: nat)
    requires WfVolume(v, g) && Typed(op) && v.cwd < 0x1_0000_0000 && Changes(op) && Parts(ts) && to in g.dirs
    requires WalksTo(v, v.root, ts, to) && !(op.OpRmdir? && RemovesDir(v, op.name, to))
    ensures WalksTo(Apply(v, op), v.root, ts, to)
  {
    hide Wf, Shape, WalksTo, Enters, Apply, Gone, RemovesDir, Part;
    var w := Apply(v, op);
    RootIsDir(TreeOf(v), g);
    OpShape(v, op);
    if SameDisk(v, w) {
      forall d: nat, tok, to: nat | d in g.dirs && CString(tok) && Component(tok) && Enters(v, d, tok, to)
        ensures Enters(w, d, tok, to)
      {
        SameDiskEnters(v, g, w, d, tok, to);
      }
      NoDirZero(TreeOf(v), g);
      WalkStays(v, g, w, 0, v.root, ts, to);
    } else {
      GoneIsRemoved(v, g, op);
      OpKeeps(v, g, op);
      WalkStays(v, g, w, Gone(v, op), v.root, ts, to);
    }
  }

  lemma {:induction false} OpShape(v: Volume, op: Op)
    requires Shape(v) && Typed(op) && v.cwd < 0x1_0000_0000
    ensures Shape(Apply(v, op)) && Apply(v, op).root == v.root
  {
    hide Shape, FatVolume.Create, FatVolume.Remove, FatVolume.WriteFile, FatVolume.Mkdir, FatVolume.Rmdir;
    hide FatVolume.Chdir;
  }

  /** A command that has removed the directory one is in has made the display wrong. */
  lemma {:induction false} RemovedIsWrong(v: Volume, cmd: Command, path: seq<byte>, ts: seq<seq<byte>>)
    requires Sound(v) && CString(path) && Parts(ts) && RemovesCwd(v, cmd, path)
    ensures !StillRight(v, cmd, path, Shown(ts))
  {
    hide Wf, Shape, WalksTo, Descend, RemovesDir, Part, Shown, Right, FatVolume.Rmdir, ChdirAll;
    DescentSmall(v, path);
    CommandsSoundIff(v, cmd, path);
    var d := Descend(v, path);
    var g :| WfVolume(d.v, g);
    var g' := RmdirKeepsSound(d.v, g, d.base);
    var r := FatVolume.Rmdir(d.v, d.base).v;
    var w := r.(cwd := v.cwd);
    assert w == Perform(v, cmd, path).v;
    MoveShape(r, v.cwd);
    RightIsWalk(w, ts);
    WalkMoved(r, v.cwd, r.root, ts, v.cwd);
    if WalksTo(r, r.root, ts, v.cwd) { WalkIsSound(r, g', ts, v.cwd); }
  }

  lemma {:induction false} WalkIsSound(v: Volume, g: Own, ts: seq<seq<byte>>, to: nat)
    requires WfVolume(v, g) && Parts(ts) && WalksTo(v, v.root, ts, to)
    ensures Sound(v.(cwd := to)) && to in g.dirs
  {
    hide Wf, Shape, ChdirAll, Part;
    RootWf(v, g);
    WalkGoesDown(AtRoot(v), g, ts);
  }

  lemma {:induction false} BaseIsTyped(v: Volume, cmd: Command, path: seq<byte>)
    requires Sound(v) && CString(path) && (cmd.Write? ==> |cmd.bytes| < 0x1_0000_0000) && !cmd.Cat?
    ensures Typed(OpOf(cmd, Descend(v, path).base)) && Changes(OpOf(cmd, Descend(v, path).base))
  {
    hide Sound, Shape, Descend;
    DescentSmall(v, path);
  }

  lemma {:induction false} MoveShape(v: Volume, d: nat)
    requires Shape(v)
    ensures Shape(v.(cwd := d))
  {
  }

  lemma {:induction false} RightKept(v: Volume, g: Own, cmd: Command, path: seq<byte>, ts: seq<seq<byte>>)
    requires WfVolume(v, g) && CString(path) && (cmd.Write? ==> |cmd.bytes| < 0x1_0000_0000)
    requires Parts(ts) && Right(v, Shown(ts)) && !RemovesCwd(v, cmd, path)
    requires Ready(v, cmd, path) && 2 <= v.cwd
    ensures StillRight(v, cmd, path, Shown(ts))
  {
    hide Shape, Wf, Descend, RemovesDir, Shown, Right, Act, Apply, WalksTo, Part, Typed;
    DescendKeepsWf(v, g, path);
    WfIsSound(v, g);
    var d := Descend(v, path);
    if !d.ok || d.base == [] || cmd.Cat? {
      IdleCommand(v, cmd, path);
    } else {
      var op := OpOf(cmd, d.base);
      BaseIsTyped(v, cmd, path);
      ActIsApply(d.v, cmd, d.base);
      OpShape(d.v, op);
      RightIsWalk(v, ts);
      RootIsDir(TreeOf(v), g);
      WalkMoved(v, d.v.cwd, v.root, ts, v.cwd);
      OpKeepsWalk(d.v, g, op, ts, v.cwd);
      var r := Apply(d.v, op);
      WalkMoved(r, v.cwd, v.root, ts, v.cwd);
      MoveShape(r, v.cwd);
      RightIsWalk(r.(cwd := v.cwd), ts);
    }
  }

  /**
   * After any file command, failing or not, the display is right exactly if it has not removed the directory one is in.
   */
  lemma {:induction false} RightStaysIff(v: Volume, cmd: Command, path: seq<byte>, shown: seq<byte>)
    requires Sound(v) && CString(path) && (cmd.Write? ==> |cmd.bytes| < 0x1_0000_0000) && Wellshown(shown)
    requires Right(v, shown)
    ensures Ready(v, cmd, path)
    ensures StillRight(v, cmd, path, shown) <==> !RemovesCwd(v, cmd, path)
  {
    hide Shape, Wf, Descend, RemovesDir, Shown, Right, Act, Apply;
    DescentSmall(v, path);
    var ts :| Parts(ts) && shown == Shown(ts);
    if RemovesCwd(v, cmd, path) {
      RemovedIsWrong(v, cmd, path, ts);
    } else {
      var g :| WfVolume(v, g);
      RightKept(v, g, cmd, path, ts);
    }
  }

  // ---- runs ----

  /** The shell between two steps: the volume with its current directory, and the path displayed. */
  datatype Prompt = Prompt(v: Volume, shown: seq<byte>)

  /** A file command; the start of an absolute cd; one component a cd enters. A cd that fails leaves nothing behind. */
  datatype Step = Do(cmd: Command, path: seq<byte>) | Home | Enter(tok: seq<byte>)

  predicate Takes(x: Prompt, step: Step, y: Prompt)
    requires Shape(x.v)
  {
    match step
    case Do(cmd, path) =>
      CString(path) && Ready(x.v, cmd, path) && y == Prompt(Perform(x.v, cmd, path).v, x.shown)
    case Home => y == Prompt(AtRoot(x.v), ROOT_PATH)
    case Enter(tok) => Token(tok) && Chdir(x.v, tok).ok && y == Prompt(Chdir(x.v, tok).v, Show(x.shown, tok))
  }

  /** What can be asked before the step. */
  predicate Harmless(x: Prompt, step: Step)
    requires Shape(x.v)
  {
    match step
    case Do(cmd, path) => SafeCommand(x.v, cmd, path) && !RemovesCwd(x.v, cmd, path)
    case Home => true
    case Enter(tok) => DisplayedPath.Fits(x.shown, tok)
  }

  /** The volume is sound and the path displayed leads to where the shell is. */
  ghost predicate Trusty(x: Prompt) { Sound(x.v) && Wellshown(x.shown) && Right(x.v, x.shown) }

  lemma {:induction false} StepIsTrustyIff(x: Prompt, step: Step, y: Prompt)
    requires Trusty(x) && Takes(x, step, y)
    ensures Trusty(y) <==> Harmless(x, step)
  {
    hide Shape, Wf, Wellshown, Right, RemovesCwd, SafeCommand, DisplayedPath.Fits, Perform, FatVolume.Chdir, Show;
    hide Descend;
    match step
    case Do(cmd, path) =>
      CommandsSoundIff(x.v, cmd, path);
      RightStaysIff(x.v, cmd, path, x.shown);
    case Home =>
      var g :| WfVolume(x.v, g);
      RootWf(x.v, g);
      WfIsSound(AtRoot(x.v), g);
      RootIsRight(x.v);
    case Enter(tok) =>
      var g :| WfVolume(x.v, g);
      RightIffFits(x.v, g, x.shown, tok);
      WfIsSound(FatVolume.Chdir(x.v, tok).v, g);
      ShowKeepsWellshown(x.shown, tok);
  }

  ghost predicate IsShellRun(xs: seq<Prompt>, steps: seq<Step>) {
    && |xs| == |steps| + 1
    && forall k :: 0 <= k < |steps| ==> Shape(xs[k].v) && Takes(xs[k], steps[k], xs[k + 1])
  }

  lemma {:induction false} TrustyWhileHarmless(xs: seq<Prompt>, steps: seq<Step>, n: nat)
    requires IsShellRun(xs, steps) && Trusty(xs[0]) && n <= |steps|
    requires forall k :: 0 <= k < n ==> Harmless(xs[k], steps[k])
    ensures forall k :: 0 <= k <= n ==> Trusty(xs[k])
  {
    hide Shape, Takes, Trusty, Harmless;
    if n > 0 {
      TrustyWhileHarmless(xs, steps, n - 1);
      StepIsTrustyIff(xs[n - 1], steps[n - 1], xs[n]);
    }
  }

  /** A session stays sound and its display right exactly when every step of it is harmless in its turn. */
  lemma {:induction false} SessionIsTrustyIff(xs: seq<Prompt>, steps: seq<Step>)
    requires IsShellRun(xs, steps) && Trusty(xs[0])
    ensures (forall k :: 0 <= k < |xs| ==> Trusty(xs[k])) <==>
              (forall k :: 0 <= k < |steps| ==> Harmless(xs[k], steps[k]))
  {
    hide Shape, Takes, Trusty, Harmless;
    if forall k :: 0 <= k < |xs| ==> Trusty(xs[k]) {
      forall k | 0 <= k < |steps| ensures Harmless(xs[k], steps[k]) {
        assert Trusty(xs[k]) && Trusty(xs[k + 1]);
        StepIsTrustyIff(xs[k], steps[k], xs[k + 1]);
      }
    } else if forall k :: 0 <= k < |steps| ==> Harmless(xs[k], steps[k]) {
      TrustyWhileHarmless(xs, steps, |steps|);
    }
  }

  predicate Absolute(path: seq<byte>) { path != [] && path[0] == SLASH }

  /** The steps of a cd that succeeds, and what they pass through. */
  function CdSteps(path: seq<byte>): seq<Step> {
    var ts := Tokens(path);
    (if Absolute(path) then [Home] else []) + seq(|ts|, k requires 0 <= k < |ts| => Enter(ts[k]))
  }

  function CdStates(v: Volume, shown: seq<byte>, path: seq<byte>): seq<Prompt>
    requires Shape(v)
  {
    var o, start, ts := Origin(v, path), if Absolute(path) then ROOT_PATH else shown, Tokens(path);
    (if Absolute(path) then [Prompt(v, shown)] else [])
    + seq(|ts| + 1, k requires 0 <= k <= |ts| => Prompt(After(o, ts, k), ShownAfter(start, ts, k)))
  }

  /** A cd that succeeds is a run of these steps. */
  lemma {:induction false} CdIsRun(v: Volume, shown: seq<byte>, path: seq<byte>)
    requires Shape(v) && CString(path) && ChdirPath(v, path).ok
    ensures var xs := CdStates(v, shown, path);
            && IsShellRun(xs, CdSteps(path)) && xs[0] == Prompt(v, shown)
            && xs[|xs| - 1] == Prompt(ChdirPath(v, path).v,
                                      ShowAll(if Absolute(path) then ROOT_PATH else shown, Tokens(path)))
  {
    hide Shape, FatVolume.Chdir, ChdirAll, ShowAll, Show, Tokens, After, ShownAfter, Token;
    var o, start, ts := Origin(v, path), if Absolute(path) then ROOT_PATH else shown, Tokens(path);
    MoveShape(v, v.root);
    TokensAreTokens(path);
    BeforeWalk(o, start, ts);
    WholeWalk(o, start, ts);
    var xs, steps, m := CdStates(v, shown, path), CdSteps(path), if Absolute(path) then 1 else 0;
    forall k | 0 <= k < |steps| ensures Shape(xs[k].v) && Takes(xs[k], steps[k], xs[k + 1]) {
      if k >= m { AfterStep(o, start, ts, k - m); }
    }
  }

  lemma {:induction false} WholeWalk(v: Volume, path: seq<byte>, ts: seq<seq<byte>>)
    requires Shape(v)
    ensures After(v, ts, |ts|) == ChdirAll(v, ts).v && ShownAfter(path, ts, |ts|) == ShowAll(path, ts)
  {
    assert ts[..|ts|] == ts;
  }
}
