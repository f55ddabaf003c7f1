/** The driver itself: sectors, a one-sector table cache, and the operations as the kernel runs them. */
module FatDriver {
  import opened Bytes
  import opened FatChains
  import opened FatTree
  import opened FatDirectory
  import opened FatNames
  import opened FatVolume
  import opened FatDisk
  import opened FatSafety
  import opened FatRuns
  import opened FatTheorems

  const NOT_CACHED: nat := 0xFFFF_FFFF

  /** The volume a disk holds under a geometry. */
  function VolumeOf(g: Geometry, disk: seq<Sector>, hint: nat, cwd: nat): (v: Volume)
    requires DiskOk(g, disk) && 2 <= hint <= g.Entries()
    ensures Shape(v)
  {
    Volume(g.Slots(), g.root, FatOf(g, disk), DataOf(g, disk), hint, cwd)
  }

  /** The reserved bits of every table word are those given; if mirrored, all copies hold the same links. */
  ghost predicate TableOk(g: Geometry, disk: seq<Sector>, reserved: (nat, nat) -> nat, mirrored: bool)
    requires DiskOk(g, disk)
  {
    && (forall f: nat, c: nat :: f < g.numFats && c < g.Entries() ==> Raw(g, disk, f, c) / LINK_RANGE == reserved(f, c))
    && (mirrored ==> forall f: nat, c: nat :: f < g.numFats && c < g.Entries() ==>
          Raw(g, disk, f, c) % LINK_RANGE == Raw(g, disk, 0, c) % LINK_RANGE)
  }

  /** In the middle of updating entry c: the first n copies are done. */
  ghost predicate Updating(g: Geometry, disk0: seq<Sector>, disk: seq<Sector>, n: nat, c: nat, value: nat)
    requires DiskOk(g, disk0) && c < g.Entries()
  {
    && DiskOk(g, disk) && |disk| == |disk0|
    && (forall i :: g.DataStart() <= i < |disk0| ==> disk[i] == disk0[i])
    && forall f: nat, k: nat :: f < g.numFats && k < g.Entries() ==>
         Raw(g, disk, f, k) == if f < n && k == c then Relink(Raw(g, disk0, f, k), value) else Raw(g, disk0, f, k)
  }

  lemma {:induction false} UpdateOne(g: Geometry, disk0: seq<Sector>, disk: seq<Sector>, n: nat, c: nat, value: nat)
    requires DiskOk(g, disk0) && c < g.Entries() && n < g.numFats && Updating(g, disk0, disk, n, c, value)
    ensures Updating(g, disk0, PutLink(g, disk, n, c, value), n + 1, c, value)
  {
    hide Relink;
    var d := PutLink(g, disk, n, c, value);
    FatLbaBounds(g, n, c);
    forall f: nat, k: nat | f < g.numFats && k < g.Entries()
      ensures Raw(g, d, f, k) == if f < n + 1 && k == c then Relink(Raw(g, disk0, f, k), value) else Raw(g, disk0, f, k)
    {
      PutLinkRaw(g, disk, n, c, value, f, k);
    }
  }

  lemma {:induction false} UpdateAll(g: Geometry, disk0: seq<Sector>, disk: seq<Sector>, c: nat, value: nat,
                                     reserved: (nat, nat) -> nat, mirrored: bool)
    requires DiskOk(g, disk0) && c < g.Entries() && Updating(g, disk0, disk, g.numFats, c, value)
    requires TableOk(g, disk0, reserved, mirrored)
    ensures TableOk(g, disk, reserved, mirrored)
    ensures FatOf(g, disk) == FatOf(g, disk0)[c := value % LINK_RANGE] && DataOf(g, disk) == DataOf(g, disk0)
  {
    TableWriteKeepsData(g, disk0, disk);
    forall k | 0 <= k < g.Entries() ensures FatOf(g, disk)[k] == FatOf(g, disk0)[c := value % LINK_RANGE][k] {
      assert Raw(g, disk, 0, k) == if k == c then Relink(Raw(g, disk0, 0, k), value) else Raw(g, disk0, 0, k);
    }
    forall f: nat, k: nat | f < g.numFats && k < g.Entries()
      ensures Raw(g, disk, f, k) / LINK_RANGE == reserved(f, k)
      ensures mirrored ==> Raw(g, disk, f, k) % LINK_RANGE == Raw(g, disk, 0, k) % LINK_RANGE
    {
      assert Raw(g, disk, f, k) == if k == c then Relink(Raw(g, disk0, f, k), value) else Raw(g, disk0, f, k);
      assert Raw(g, disk, 0, k) == if k == c then Relink(Raw(g, disk0, 0, k), value) else Raw(g, disk0, 0, k);
    }
  }

  lemma {:induction false} DataWriteKeepsTableOk(g: Geometry, disk0: seq<Sector>, disk: seq<Sector>,
                                                 reserved: (nat, nat) -> nat, mirrored: bool)
    requires DiskOk(g, disk0) && DiskOk(g, disk) && TableOk(g, disk0, reserved, mirrored)
    requires forall f, c :: 0 <= f < g.numFats && 0 <= c < g.Entries() ==> Raw(g, disk, f, c) == Raw(g, disk0, f, c)
    ensures TableOk(g, disk, reserved, mirrored)
  {
  }

  /** A link of the volume is read from the first copy of the table. */
  lemma {:induction false} LinkOnDisk(g: Geometry, disk: seq<Sector>, c: nat)
    requires DiskOk(g, disk) && c < g.Entries()
    ensures g.fatStart + 4 * c / 512 < g.DataStart() <= |disk|
    ensures FatOf(g, disk)[c] == Word(disk[g.fatStart + 4 * c / 512], EntryOff(c)) % LINK_RANGE
    ensures g.fatStart + 4 * c / 512 != NOT_CACHED
  {
    FatLbaBounds(g, 0, c);
    assert g.fatStart + 4 * c / 512 == FatLba(g, 0, c);
  }

  /** Where a directory position lies on disk. */
  predicate OnDisk(g: Geometry, c: nat, j: nat, lba: nat, off: nat) {
    2 <= c && lba == ClusterLba(g, c) + j / 16 && off == 32 * (j % 16)
  }

  /** start begins a chain of the volume. */
  ghost predicate StartsChain(v: Volume, start: nat) {
    IsChain(v.fat, ChainOf(v.fat, start)) && ChainOf(v.fat, start)[0] == start
  }

  /** The slot read from sector s is the volume's slot 16 s + t. */
  lemma {:induction false} SlotOnDisk(g: Geometry, disk: seq<Sector>, hint: nat, cwd: nat, c: nat, s: nat, t: nat)
    requires DiskOk(g, disk) && 2 <= hint <= g.Entries() && 2 <= c < g.Entries() && s < g.spc && t < 16
    ensures ClusterLba(g, c) + s < |disk|
    ensures var v := VolumeOf(g, disk, hint, cwd); var e := disk[ClusterLba(g, c) + s][32 * t..32 * t + 32];
            && 16 * s + t < v.slots && SlotOf(v, c, 16 * s + t) == e && TreeOf(v).ents(c, 16 * s + t) == Decode(e)
            && OnDisk(g, c, 16 * s + t, ClusterLba(g, c) + s, 32 * t)
  {
    hide Decode, SlotAt, FatOf, DataOf, FatOk, ClusterLba, ClusterOf, EntryAt, ReadRun;
    SectorSlot(g, disk, c, s, t);
    ClusterIs(g, disk, c);
    SlotPlace(s, t);
    var v := VolumeOf(g, disk, hint, cwd);
    EntryHere(v, c, 16 * s + t);
  }

  lemma {:induction false} SlotPlace(s: nat, t: nat)
    requires t < 16
    ensures (16 * s + t) / 16 == s && (16 * s + t) % 16 == t
  {
  }

  /** The walk along a chain: the next link is the next cluster, or an end mark after the last. */
  lemma {:induction false} ChainNext(fat: seq<nat>, ch: seq<nat>, i: nat)
    requires FatOk(fat) && IsChain(fat, ch) && i < |ch|
    ensures Inside(fat, ch[i]) && !Eoc(ch[i])
    ensures if i + 1 < |ch| then fat[ch[i]] == ch[i + 1] else Eoc(fat[ch[i]])
  {
  }

  /** What the operations use of soundness: the current directory has a chain, and freeing stays in range. */
  lemma {:induction false} SoundCwd(v: Volume)
    requires Sound(v)
    ensures StartsChain(v, v.cwd) && v.cwd < 0x1_0000_0000 && Closed(v.fat)
  {
    var g :| WfVolume(v, g);
    CwdSmall(v, g);
    CwdStarts(v, g);
    CwdOwned(v, g);
    SoundClosed(v, g);
    hide HomesOk, EntriesOk, DotsOk, EndsOk;
    assert Owns(v.fat, g.owner, v.cwd, g.chains[v.cwd]);
  }

  lemma {:induction false} SoundClosed(v: Volume, g: Own)
    requires WfVolume(v, g)
    ensures Closed(v.fat)
  {
    hide HomesOk, EntriesOk, DotsOk, EndsOk, IsChain;
    forall c | 2 <= c < |v.fat| ensures v.fat[c] < |v.fat| || Eoc(v.fat[c]) {
      if v.fat[c] != 0 {
        var p := g.owner[c];
        assert IsPlace(g, c, p) && Owns(v.fat, g.owner, p.s, g.chains[p.s]);
        LinkStays(v.fat, g.chains[p.s], p.k);
      }
    }
  }

  lemma {:induction false} LinkStays(fat: seq<nat>, ch: seq<nat>, k: nat)
    requires IsChain(fat, ch) && k < |ch|
    ensures Inside(fat, ch[k]) && (fat[ch[k]] < |fat| || Eoc(fat[ch[k]]))
  {
    assert k + 1 < |ch| ==> Inside(fat, ch[k + 1]);
  }

  /** The first cluster of an entry found by name is 0 or a cluster of the volume, where its chain starts. */
  lemma {:induction false} FoundStart(v: Volume, name: seq<byte>)
    requires Sound(v) && CString(name) && Lookup(v, ToShort(name)).At?
    ensures var s := StartOf(SlotAtPos(v, Lookup(v, ToShort(name))));
            s == 0 || (Inside(v.fat, s) && StartsChain(v, s))
  {
    var g :| WfVolume(v, g);
    hide Wf;
    FoundIsNamed(v, g, name);
    var p := Lookup(v, ToShort(name));
    if !Decode(SlotAtPos(v, p)).EmptyFile() {
      NamedIsOwned(TreeOf(v), g, v.cwd, Cwd(v)[p.i], p.j);
      ChainKnown(v, g, StartOf(SlotAtPos(v, p)));
      ObjectInUse(TreeOf(v), g, StartOf(SlotAtPos(v, p)));
      ObjectChain(TreeOf(v), g, StartOf(SlotAtPos(v, p)));
    }
  }

  lemma {:induction false} ObjectChain(t: Tree, g: Own, s: nat)
    requires Wf(t, g) && s in g.chains
    ensures IsChain(t.fat, g.chains[s])
  {
    hide HomesOk, EntriesOk, DotsOk, EndsOk;
    assert Owns(t.fat, g.owner, s, g.chains[s]);
  }

  /** Setting the first byte of a slot in a sector is putting back the slot marked as deleted. */
  lemma {:induction false} DeleteByte(sec: Sector, t: nat)
    requires t < 16
    ensures sec[32 * t := DELETED] == PutSlot(sec, t, Deleted(SlotAt(sec, t)))
  {
    var e := SlotAt(sec, t);
    assert sec == sec[..32 * t] + e + sec[32 * t + 32..];
  }

  lemma {:induction false} ClusterIs(g: Geometry, disk: seq<Sector>, c: nat)
    requires DiskOk(g, disk) && 2 <= c < g.Entries()
    ensures DataOf(g, disk)[c] == ClusterOf(g, disk, c)
    ensures ClusterLba(g, c) + g.spc <= |disk| && ReadRun(disk, ClusterLba(g, c), g.spc) == DataOf(g, disk)[c]
  {
    ClusterLbaBounds(g, c);
  }

  lemma {:induction false} SlotIs(sec: Sector, t: nat)
    requires t < 16
    ensures SlotAt(sec, t) == sec[32 * t..32 * t + 32]
  {
  }

  lemma {:induction false} ChunkIs(bytes: seq<byte>, o: nat, size: nat, b: seq<byte>)
    requires o <= |bytes| && |b| == size
    requires forall k :: 0 <= k < Min(|bytes| - o, size) ==> b[k] == bytes[o + k]
    requires forall k :: Min(|bytes| - o, size) <= k < size ==> b[k] == 0
    ensures b == Chunk(bytes, o, size)
  {
    var n := Min(|bytes| - o, size);
    var r := Chunk(bytes, o, size);
    forall k | 0 <= k < size ensures b[k] == r[k] {
      if k < n { assert r[..n][k] == bytes[o..o + n][k]; }
    }
  }

  /** In the middle of a store: ch has been picked and filled, written bytes of it are used. */
  ghost predicate Progress(w: Volume, ch: seq<nat>, bytes: seq<byte>, written: nat) {
    && Shape(w) && InRange(w.fat, ch) && ch == Picks(w.fat, w.hint, |ch|)
    && written == Min(|ch| * ClusterSize(w), |bytes|)
    && |ch| + ClustersFor(|bytes| - written, ClusterSize(w)) == ClustersFor(|bytes|, ClusterSize(w))
  }

  lemma {:induction false} ProgressStart(w: Volume, bytes: seq<byte>)
    requires Shape(w)
    ensures Progress(w, [], bytes, 0) && Filled(w, [], bytes) == w
  {
  }

  /** When allocation comes back empty, the store fails with what has been picked so far. */
  lemma {:induction false} StoreStuck(w: Volume, ch: seq<nat>, bytes: seq<byte>, written: nat, c: nat, j: nat, e: Slot)
    requires Progress(w, ch, bytes, written) && written < |bytes|
    requires FirstFree(Filled(w, ch, bytes).fat, Filled(w, ch, bytes).hint, 0) == 0
    requires Inside(w.fat, c) && j < w.slots && |bytes| < 0x1_0000_0000
    ensures Store(w, c, j, e, bytes) == Outcome(false, Filled(w, ch, bytes).(fat := w.fat))
  {
    PicksStuck(w.fat, w.hint, |ch|, ClustersFor(|bytes|, ClusterSize(w)));
  }

  lemma {:induction false} FreeUndoesFill(w: Volume, ch: seq<nat>, bytes: seq<byte>, written: nat)
    requires Progress(w, ch, bytes, written) && ch != [] && Closed(w.fat)
    ensures Inside(w.fat, ch[0])
    ensures FreeFrom(Filled(w, ch, bytes).fat, ch[0]) == w.fat && Closed(Filled(w, ch, bytes).fat)
  {
    PicksAreFree(w.fat, w.hint, |ch|);
    FreeUndoesLink(w.fat, ch);
    LinkIsChain(w.fat, ch);
    var fat := Link(w.fat, ch);
    forall c | 2 <= c < |fat| ensures fat[c] < |fat| || Eoc(fat[c]) {
      if c in ch {
        var k :| 0 <= k < |ch| && ch[k] == c;
        LinkStays(fat, ch, k);
      }
    }
  }

  lemma {:induction false} FilledFields(w: Volume, ch: seq<nat>, bytes: seq<byte>)
    requires Shape(w) && InRange(w.fat, ch)
    ensures var f := Filled(w, ch, bytes);
            |f.fat| == |w.fat| && f.slots == w.slots && f.root == w.root && f.cwd == w.cwd && |f.data| == |w.data|
            && (ch == [] ==> f.fat == w.fat) && forall i :: 0 <= i < |ch| ==> ch[i] >= 2
  {
  }

  /** The volume with cluster k allocated, linked behind prev unless that is 0, and filled with b. */
  function Appended(v: Volume, prev: nat, k: nat, b: seq<byte>): Volume
    requires k < |v.fat| == |v.data| && prev < |v.fat|
  {
    var fat := v.fat[k := END_OF_CHAIN];
    v.(fat := if prev == 0 then fat else fat[prev := k], hint := k + 1, data := v.data[k := b])
  }

  lemma {:induction false} SmallLink(v: Volume, k: nat)
    requires Shape(v) && k < |v.fat|
    ensures k % LINK_RANGE == k
  {
  }

  /** One turn of the store loop. */
  lemma {:induction false} StoreMore(w: Volume, ch: seq<nat>, bytes: seq<byte>, written: nat, k: nat)
    requires Progress(w, ch, bytes, written) && written < |bytes|
    requires var f := Filled(w, ch, bytes); k != 0 && k == FirstFree(f.fat, f.hint, 0) && Inside(w.fat, k)
    ensures Progress(w, ch + [k], bytes, written + Min(|bytes| - written, ClusterSize(w)))
    ensures var last := if ch == [] then 0 else ch[|ch| - 1];
            Appended(Filled(w, ch, bytes), last, k, Chunk(bytes, written, ClusterSize(w)))
            == Filled(w, ch + [k], bytes)
  {
    hide FirstFree, Chunk;
    var ch' := ch + [k];
    assert ch'[..|ch|] == ch;
    var cs := ClusterSize(w);
    assert (|ch| + 1) * cs == |ch| * cs + cs;
  }

  lemma {:induction false} StoreFinished(w: Volume, ch: seq<nat>, bytes: seq<byte>, c: nat, j: nat, e: Slot)
    requires Progress(w, ch, bytes, |bytes|) && Inside(w.fat, c) && j < w.slots && |bytes| < 0x1_0000_0000
    ensures var start := if ch == [] then 0 else ch[0];
            && start < 0x1_0000_0000 && Shape(Filled(w, ch, bytes))
            && Store(w, c, j, e, bytes)
               == Outcome(true, PutAt(Filled(w, ch, bytes), c, j, WithExtent(e, start, |bytes|)))
  {
    assert ch == Reserve(w, |bytes|);
    ReserveExtends(w, bytes);
  }

  /** Freeing only clears entries, so links still stay in range. */
  lemma {:induction false} FreeClosed(fat: seq<nat>, c: nat)
    requires Closed(fat)
    ensures Closed(FreeFrom(fat, c))
    decreases |Used(fat)|, Inside(fat, c)
  {
    if Inside(fat, c) {
      UsedShrinks(fat, c);
      FreeClosed(fat[c := 0], fat[c]);
    }
  }

  /** What making a directory comes to, case by case. */
  lemma {:induction false} MkdirIs(v: Volume, name: seq<byte>)
    requires Shape(v) && v.cwd < 0x1_0000_0000
    ensures var p, c := FreePos(v), FirstFree(v.fat, v.hint, 0);
            && (Lookup(v, ToShort(name)).At? || p.Nowhere? || c == 0 ==> FatVolume.Mkdir(v, name) == Outcome(false, v))
            && (Lookup(v, ToShort(name)).Nowhere? && p.At? && c != 0 ==>
                  && Inside(v.fat, c) && Inside(v.fat, Cwd(v)[p.i]) && Shape(WithNewDir(v, c))
                  && FatVolume.Mkdir(v, name)
                     == Outcome(true, PutAt(WithNewDir(v, c), Cwd(v)[p.i], p.j,
                                            NewSlot(ToShort(name), ATTR_DIRECTORY, c, 0))))
  {
    hide FirstFree, DotBlock, NewSlot, ToShort;
    AllocFailsOnlyWhenFull(v.fat, v.hint);
    if FreePos(v).At? { CwdInside(v, FreePos(v).i, FreePos(v).j); }
  }

  function Upto(s: seq<byte>, n: nat): seq<byte> { s[..Min(n, |s|)] }

  /** The walk from c: its clusters, each link the next, and where it stops short it has left the volume. */
  lemma {:induction false} FollowSteps(fat: seq<nat>, c: nat, n: nat, i: nat)
    requires i <= |Follow(fat, c, n)|
    ensures |Follow(fat, c, n)| <= n
    ensures i < |Follow(fat, c, n)| ==> Inside(fat, Follow(fat, c, n)[i])
    ensures i == 0 && |Follow(fat, c, n)| > 0 ==> Follow(fat, c, n)[0] == c
    ensures i > 0 ==> Inside(fat, Follow(fat, c, n)[i - 1])
    ensures 0 < i < |Follow(fat, c, n)| ==> Follow(fat, c, n)[i] == fat[Follow(fat, c, n)[i - 1]]
    ensures i == |Follow(fat, c, n)| < n ==> !Inside(fat, if i == 0 then c else fat[Follow(fat, c, n)[i - 1]])
    decreases n
  {
    if n > 0 && Inside(fat, c) {
      FollowSteps(fat, fat[c], n - 1, if i == 0 then 0 else i - 1);
    }
  }

  /** Where the walk stands: at its i-th cluster, or off the volume, or after as many clusters as bytes are wanted. */
  predicate WalkAt(fat: seq<nat>, ch: seq<nat>, n: nat, i: nat, cluster: nat) {
    && i <= |ch| <= n && (cluster < |fat| || Eoc(cluster))
    && (i < |ch| ==> cluster == ch[i] && Inside(fat, cluster)) && (i == |ch| < n ==> !Inside(fat, cluster))
  }

  lemma {:induction false} WalkBegins(fat: seq<nat>, c: nat, n: nat)
    requires c < |fat| || Eoc(c)
    ensures WalkAt(fat, Follow(fat, c, n), n, 0, c)
  {
    FollowSteps(fat, c, n, 0);
  }

  lemma {:induction false} WalkGoesOn(fat: seq<nat>, c: nat, n: nat, i: nat)
    requires Closed(fat) && i < |Follow(fat, c, n)|
    ensures Inside(fat, Follow(fat, c, n)[i]) && WalkAt(fat, Follow(fat, c, n), n, i + 1, fat[Follow(fat, c, n)[i]])
  {
    hide Follow;
    FollowSteps(fat, c, n, i);
    FollowSteps(fat, c, n, i + 1);
  }

  /** On an end-marked chain the general reading is the chain's contents. */
  lemma {:induction false} ReadWalkIsReadFile(v: Volume, start: nat, size: nat, max: nat)
    requires Shape(v) && (start < 2 || StartsChain(v, start))
    ensures ReadWalk(v, start, size, max) == FatVolume.ReadFile(v, start, size, max)
  {
    var n, ch := Min(size, max), ChainOf(v.fat, start);
    ChainInData(v, start);
    if start < 2 {
      assert Follow(v.fat, start, n) == [];
    } else {
      FollowPrefix(v.fat, ch, n);
      hide Follow, IsChain, Content, FatOk;
      var k := Min(n, |ch|);
      ContentPrefix(v.data, ch, k);
      if k < |ch| {
        ChainInside(v.fat, ch);
        ContentIsLong(v, ch[..k]);
      } else {
        assert ch[..k] == ch;
      }
    }
  }

  lemma {:induction false} ChainInside(fat: seq<nat>, ch: seq<nat>)
    requires IsChain(fat, ch)
    ensures InRange(fat, ch)
  {
  }

  lemma {:induction false} FollowPrefix(fat: seq<nat>, ch: seq<nat>, n: nat)
    requires FatOk(fat) && IsChain(fat, ch)
    ensures Follow(fat, ch[0], n) == ch[..Min(n, |ch|)]
    decreases |ch|
  {
    if n > 0 && |ch| > 1 {
      FollowPrefix(fat, ch[1..], n - 1);
    }
  }

  lemma {:induction false} ContentIsLong(v: Volume, ch: seq<nat>)
    requires Shape(v) && InRange(v.fat, ch)
    ensures |Content(v.data, ch)| >= |ch|
    decreases |ch|
  {
    if ch != [] { ContentIsLong(v, ch[..|ch| - 1]); }
  }

  lemma {:induction false} ReadStart(data: seq<seq<byte>>, size: nat)
    ensures Upto(Content(data, []), size) == []
  {
  }

  /** Copying the next cluster, or what is still wanted of it. */
  lemma {:induction false} ReadMore(so: seq<byte>, b: seq<byte>, size: nat, buf: seq<byte>)
    requires buf == Upto(so, size) && |buf| < size
    ensures buf + b[..Min(size - |buf|, |b|)] == Upto(so + b, size)
  {
    assert buf == so;
  }

  lemma {:induction false} ReadDone(v: Volume, ch: seq<nat>, i: nat, cluster: nat, n: nat, buf: seq<byte>)
    requires Shape(v) && InRange(v.fat, ch) && WalkAt(v.fat, ch, n, i, cluster)
    requires buf == Upto(Content(v.data, ch[..i]), n)
    requires !Inside(v.fat, cluster) || |buf| >= n
    ensures buf == Upto(Content(v.data, ch), n)
  {
    hide Content, FatOk;
    ContentPrefix(v.data, ch, i);
    if i == |ch| { assert ch[..i] == ch; }
  }

  lemma {:induction false} UptoIs(s: seq<byte>, n: nat)
    ensures Upto(s, n) == s[..Min(n, |s|)]
  {
  }

  lemma {:induction false} WalkInside(v: Volume, s: nat, n: nat)
    requires Shape(v)
    ensures InRange(v.fat, Follow(v.fat, s, n))
    ensures forall i :: 0 <= i < |Follow(v.fat, s, n)| ==> Follow(v.fat, s, n)[i] < |v.data|
  {
    forall i | 0 <= i < |Follow(v.fat, s, n)|
      ensures Inside(v.fat, Follow(v.fat, s, n)[i])
    {
      FollowInside(v.fat, s, n, i);
    }
  }

  lemma {:induction false} AtCluster(fat: seq<nat>, ch: seq<nat>, n: nat, i: nat, cluster: nat)
    requires WalkAt(fat, ch, n, i, cluster) && !Eoc(cluster) && cluster >= 2 && i < n
    ensures i < |ch| && ch[i] == cluster && Inside(fat, cluster)
  {
  }

  lemma {:induction false} OffVolume(fat: seq<nat>, c: nat)
    requires FatOk(fat) && (Eoc(c) || c < 2)
    ensures !Inside(fat, c)
  {
  }

  lemma {:induction false} ClusterLong(v: Volume, c: nat)
    requires Shape(v) && Inside(v.fat, c)
    ensures |v.data[c]| >= 512
  {
  }

  // ---- listing ----

  /** The live slots of a directory from position (i, j) on, up to the end mark. */
  ghost function Visited(v: Volume, ch: seq<nat>, i: nat, j: nat): seq<Slot>
    requires Shape(v) && InRange(v.fat, ch) && i <= |ch| && j <= v.slots
    decreases |ch| - i, v.slots - j
  {
    if i == |ch| then []
    else if j == v.slots then Visited(v, ch, i + 1, 0)
    else
      var e := SlotOf(v, ch[i], j);
      if Decode(e).kind.End? then []
      else (if Decode(e).Live() then [e] else []) + Visited(v, ch, i, j + 1)
  }

  lemma {:induction false} VisitedUnfold(v: Volume, ch: seq<nat>, i: nat, j: nat)
    requires Shape(v) && InRange(v.fat, ch) && i < |ch| && j < v.slots
    ensures Inside(v.fat, ch[i]) && |v.data[ch[i]]| == 32 * v.slots
    ensures var e := SlotAt(v.data[ch[i]], j);
            Visited(v, ch, i, j) == if Decode(e).kind.End? then []
                                    else if Decode(e).Live() then [e] + Visited(v, ch, i, j + 1)
                                    else Visited(v, ch, i, j + 1)
  {
  }

  lemma {:induction false} VisitedRow(v: Volume, ch: seq<nat>, i: nat)
    requires Shape(v) && InRange(v.fat, ch) && i < |ch|
    ensures Visited(v, ch, i, v.slots) == Visited(v, ch, i + 1, 0)
  {
  }

  lemma {:induction false} VisitedDone(v: Volume, ch: seq<nat>)
    requires Shape(v) && InRange(v.fat, ch)
    ensures Visited(v, ch, |ch|, 0) == []
  {
  }

  predicate Hits(e: Slot, name: seq<byte>) { SameName(Format(NameOf(e)), CutNul(name)) }

  /** The index of the first slot whose dotted name matches; the length if there is none. */
  function FirstMatch(es: seq<Slot>, name: seq<byte>): (n: nat)
    ensures n <= |es|
  {
    if es == [] || Hits(es[0], name) then 0 else 1 + FirstMatch(es[1..], name)
  }

  lemma {:induction false} FirstMatchStep(es: seq<Slot>, name: seq<byte>, i: nat)
    requires i < |es|
    ensures FirstMatch(es, name) == i ==> Hits(es[i], name)
    ensures Hits(es[i], name) ==> FirstMatch(es, name) <= i
    decreases i
  {
    hide Hits;
    if i > 0 {
      assert es[1..][i - 1] == es[i];
      FirstMatchStep(es[1..], name, i - 1);
    }
  }

  /** The first match among the slots es is the slot at p, or there is none and p is nowhere. */
  ghost predicate FindsSame(v: Volume, ch: seq<nat>, es: seq<Slot>, p: Pos, name: seq<byte>)
    requires Shape(v) && InRange(v.fat, ch)
  {
    && (FirstMatch(es, name) < |es| <==> p.At?)
    && (p.At? ==> p.i < |ch| && p.j < v.slots && es[FirstMatch(es, name)] == SlotOf(v, ch[p.i], p.j))
  }

  lemma {:induction false} FindStep(v: Volume, ch: seq<nat>, i: nat, j: nat, es: seq<Slot>, p: Pos, name: seq<byte>)
    requires Shape(v) && InRange(v.fat, ch) && i < |ch| && j < v.slots && FindsSame(v, ch, es, p, name)
    ensures var e := SlotOf(v, ch[i], j);
            FindsSame(v, ch,
                      if Decode(e).kind.End? then [] else if Decode(e).Live() then [e] + es else es,
                      if Decode(e).kind.End? then Nowhere else if Matches(name)(Decode(e)) then At(i, j) else p, name)
  {
    hide SlotAt, Hits, Decode, Matches, FindsSame, Shape;
    var e := SlotOf(v, ch[i], j);
    MatchIs(e, name);
    FindsNone(v, ch, name);
    if Hits(e, name) { FindsHit(v, ch, i, j, es, name); } else { FindsMiss(v, ch, e, es, p, name); }
  }

  lemma {:induction false} FindsNone(v: Volume, ch: seq<nat>, name: seq<byte>)
    requires Shape(v) && InRange(v.fat, ch)
    ensures FindsSame(v, ch, [], Nowhere, name)
  {
  }

  lemma {:induction false} FindsHit(v: Volume, ch: seq<nat>, i: nat, j: nat, es: seq<Slot>, name: seq<byte>)
    requires Shape(v) && InRange(v.fat, ch) && i < |ch| && j < v.slots && Hits(SlotOf(v, ch[i], j), name)
    ensures FindsSame(v, ch, [SlotOf(v, ch[i], j)] + es, At(i, j), name)
  {
    hide Hits, SlotAt, FatOk, FirstMatch;
    FirstMatchCons(SlotOf(v, ch[i], j), es, name);
  }

  lemma {:induction false} FindsMiss(v: Volume, ch: seq<nat>, e: Slot, es: seq<Slot>, p: Pos, name: seq<byte>)
    requires Shape(v) && InRange(v.fat, ch) && !Hits(e, name) && FindsSame(v, ch, es, p, name)
    ensures FindsSame(v, ch, [e] + es, p, name)
  {
    hide Hits, SlotAt, FatOk, FirstMatch;
    FirstMatchCons(e, es, name);
  }

  /** Visiting every live slot and keeping the first match finds what the scan finds. */
  lemma {:induction false} VisitedFinds(v: Volume, ch: seq<nat>, i: nat, j: nat, name: seq<byte>)
    requires Shape(v) && InRange(v.fat, ch) && i <= |ch| && j <= v.slots
    ensures FindsSame(v, ch, Visited(v, ch, i, j), Scan(TreeOf(v), ch, i, j, Matches(name), AtEnd()), name)
    decreases |ch| - i, v.slots - j
  {
    hide Visited, Scan, SlotAt, Decode, Matches, FindsSame, EntryAt, FirstMatch;
    if i == |ch| {
      FindOver(v, ch, j, name);
    } else if j == v.slots {
      VisitedFinds(v, ch, i + 1, 0, name);
      VisitedRow(v, ch, i);
      ScanRow(TreeOf(v), ch, i, Matches(name), AtEnd());
    } else {
      VisitedFinds(v, ch, i, j + 1, name);
      VisitedUnfold(v, ch, i, j);
      ScanUnfold(TreeOf(v), ch, i, j, Matches(name), AtEnd());
      EntryHere(v, ch[i], j);
      FindStep(v, ch, i, j, Visited(v, ch, i, j + 1), Scan(TreeOf(v), ch, i, j + 1, Matches(name), AtEnd()), name);
    }
  }

  lemma {:induction false} FindOver(v: Volume, ch: seq<nat>, j: nat, name: seq<byte>)
    requires Shape(v) && InRange(v.fat, ch) && j <= v.slots
    ensures FindsSame(v, ch, Visited(v, ch, |ch|, j), Scan(TreeOf(v), ch, |ch|, j, Matches(name), AtEnd()), name)
  {
  }

  lemma {:induction false} EntryHere(v: Volume, c: nat, j: nat)
    requires Shape(v) && Inside(v.fat, c) && j < v.slots
    ensures TreeOf(v).ents(c, j) == Decode(SlotOf(v, c, j))
  {
  }

  lemma {:induction false} MatchIs(e: Slot, name: seq<byte>)
    ensures Matches(name)(Decode(e)) <==> Decode(e).Live() && Hits(e, name)
  {
  }

  lemma {:induction false} FirstMatchCons(e: Slot, es: seq<Slot>, name: seq<byte>)
    ensures FirstMatch([e] + es, name) == if Hits(e, name) then 0 else 1 + FirstMatch(es, name)
  {
    assert ([e] + es)[1..] == es;
  }

  class Fat32 {
    const geo: Geometry
    var disk: seq<Sector>
    var cwd: nat
    var hint: nat
    var cachedLba: nat
    var cache: Sector
    /** The reserved bits of the table and whether its copies agreed, as found when mounting. */
    ghost const reserved: (nat, nat) -> nat
    ghost const mirrored: bool

    ghost predicate Valid()
      reads this
    {
      && DiskOk(geo, disk) && 2 <= hint <= geo.Entries()
      && TableOk(geo, disk, reserved, mirrored)
      && (cachedLba != NOT_CACHED ==> cachedLba < geo.DataStart() && cache == disk[cachedLba])
    }

    ghost function State(): (v: Volume)
      reads this
      requires Valid()
      ensures Shape(v)
    {
      VolumeOf(geo, disk, hint, cwd)
    }

    /** Mounting: current directory at the root, hint at the first cluster, nothing cached. */
    constructor (g: Geometry, d: seq<Sector>, ghost r: (nat, nat) -> nat, ghost m: bool)
      requires DiskOk(g, d) && TableOk(g, d, r, m)
      ensures Valid() && geo == g && disk == d && reserved == r && mirrored == m
      ensures State() == VolumeOf(g, d, 2, g.root)
    {
      geo, disk, cwd, hint, cachedLba, cache := g, d, g.root, 2, NOT_CACHED, Zeros(512);
      reserved, mirrored := r, m;
    }

    // ---- the table ----

    /** The link of cluster c, from the cached sector if it is the right one. */
    method NextCluster(c: nat) returns (n: nat)
      requires Valid() && c < geo.Entries()
      modifies `cachedLba, `cache
      ensures Valid() && State() == old(State()) && n == State().fat[c]
    {
      hide TableOk, DataOf, FatOf, Geometry.Valid, Word;
      LinkOnDisk(geo, disk, c);
      var lba := geo.fatStart + 4 * c / 512;
      if lba != cachedLba {
        cache := disk[lba];
        cachedLba := lba;
      }
      n := Word(cache, EntryOff(c)) % LINK_RANGE;
    }

    /** Set a link in every copy of the table, keep the reserved bits, and drop the cached sector. */
    method SetFatEntry(c: nat, value: nat)
      requires Valid() && c < geo.Entries()
      modifies `disk, `cachedLba
      ensures Valid() && State() == old(State()).(fat := old(State()).fat[c := value % LINK_RANGE])
    {
      hide FatOf, DataOf, TableOk, Raw, Relink, RelinkSector, Geometry.Valid, EntryOff, FatLba;
      ghost var disk0 := disk;
      var f := 0;
      while f < geo.numFats
        invariant f <= geo.numFats && Updating(geo, disk0, disk, f, c, value)
        invariant cachedLba == old(cachedLba)
      {
        UpdateOne(geo, disk0, disk, f, c, value);
        FatLbaBounds(geo, f, c);
        var lba := FatLba(geo, f, c);
        var sec := disk[lba];
        sec := RelinkSector(sec, EntryOff(c), value);
        disk := disk[lba := sec];
        f := f + 1;
      }
      cachedLba := NOT_CACHED;
      UpdateAll(geo, disk0, disk, c, value, reserved, mirrored);
    }

    /** Take the first free cluster from the hint on, mark it as a chain of its own, or return 0. */
    method AllocCluster() returns (c: nat)
      requires Valid()
      modifies `disk, `hint, `cachedLba, `cache
      ensures Valid() && c == FirstFree(old(State()).fat, old(State()).hint, 0)
      ensures c == 0 ==> State() == old(State())
      ensures c != 0 ==> Inside(old(State()).fat, c)
                         && State() == old(State()).(fat := old(State()).fat[c := END_OF_CHAIN], hint := c + 1)
    {
      hide FatOf, DataOf, TableOk, FatOk;
      ghost var v := State();
      var total := geo.clusters + 2;
      var i := 0;
      while i < geo.clusters
        invariant i <= geo.clusters && Valid() && State() == v
        invariant FirstFree(v.fat, v.hint, 0) == FirstFree(v.fat, v.hint, i)
      {
        c := hint + i;
        if c >= total { c := 2 + (c - total); }
        var n := NextCluster(c);
        if n == 0 {
          SetFatEntry(c, END_OF_CHAIN);
          hint := c + 1;
          return;
        }
        i := i + 1;
      }
      return 0;
    }

    /** Free every cluster reachable from start, on any table whose links stay in range or end. */
    method FreeChain(start: nat)
      requires Valid() && Closed(State().fat) && (start < geo.Entries() || Eoc(start))
      modifies `disk, `cachedLba, `cache
      ensures Valid() && State() == old(State()).(fat := FreeFrom(old(State()).fat, start))
    {
      hide FatOf, DataOf, TableOk, Geometry.Valid, FreeFrom, Used, Eoc, Closed;
      ghost var v := State();
      var c: nat := start;
      while c >= 2 && !Eoc(c)
        invariant Valid() && Closed(State().fat) && (c < geo.Entries() || Eoc(c))
        invariant State() == v.(fat := State().fat) && FreeFrom(State().fat, c) == FreeFrom(v.fat, start)
        decreases |Used(State().fat)|, Inside(State().fat, c)
      {
        FreeStep(State().fat, c);
        var n := NextCluster(c);
        SetFatEntry(c, 0);
        c := n;
      }
      FreeStops(State().fat, c);
    }

    // ---- directories ----

    /** One cluster of a directory: its sectors, and the sixteen slots of each. */
    method ScanCluster(cluster: nat, hit: Entry -> bool, stop: Entry -> bool, ghost ch: seq<nat>, ghost i: nat)
      returns (done: bool, found: bool, entry: Slot, lba: nat, off: nat, ghost j: nat)
      requires Valid() && i < |ch| && ch[i] == cluster && 2 <= cluster < geo.Entries()
      ensures var here := Scan(TreeOf(State()), ch, i, 0, hit, stop);
              var next := Scan(TreeOf(State()), ch, i + 1, 0, hit, stop);
              if !done then here == next && !found
              else if !found then here == Nowhere
              else
                && here == At(i, j) && j < State().slots && OnDisk(geo, cluster, j, lba, off)
                && entry == SlotOf(State(), cluster, j)
    {
      hide FatOf, DataOf, TableOk, Scan, Decode, ClusterLba, FatOk;
      ghost var t := TreeOf(State());
      done, found, entry, off, j := false, false, Zeros(32), 0, 0;
      lba := ClusterLba(geo, cluster);
      var s := 0;
      while s < geo.spc
        invariant s <= geo.spc && lba == ClusterLba(geo, cluster) && !done && !found
        invariant Scan(t, ch, i, 0, hit, stop) == Scan(t, ch, i, 16 * s, hit, stop)
      {
        SlotOnDisk(geo, disk, hint, cwd, cluster, s, 0);
        var sec := disk[lba + s];
        var k := 0;
        while k < 16
          invariant k <= 16 && Scan(t, ch, i, 0, hit, stop) == Scan(t, ch, i, 16 * s + k, hit, stop)
        {
          SlotOnDisk(geo, disk, hint, cwd, cluster, s, k);
          ScanUnfold(t, ch, i, 16 * s + k, hit, stop);
          entry := sec[32 * k..32 * k + 32];
          if stop(Decode(entry)) {
            done := true;
            return;
          }
          if hit(Decode(entry)) {
            done, found, lba, off, j := true, true, lba + s, 32 * k, 16 * s + k;
            return;
          }
          k := k + 1;
        }
        s := s + 1;
      }
      ScanRow(t, ch, i, hit, stop);
    }

    /**
     The loop nest the directory searches share: clusters along the chain, sectors of a cluster,
     slots of a sector, up to the first slot that satisfies hit or stop.
     */
    method ScanDir(start: nat, hit: Entry -> bool, stop: Entry -> bool)
      returns (found: bool, entry: Slot, lba: nat, off: nat, ghost p: Pos)
      requires Valid() && StartsChain(State(), start)
      modifies `cachedLba, `cache
      ensures Valid() && State() == old(State())
      ensures p == Scan(TreeOf(State()), ChainOf(State().fat, start), 0, 0, hit, stop)
      ensures found <==> p.At?
      ensures found ==> var c := ChainOf(State().fat, start)[p.i];
                        OnDisk(geo, c, p.j, lba, off) && Inside(State().fat, c) && entry == SlotOf(State(), c, p.j)
    {
      ghost var v, t := State(), TreeOf(State());
      ghost var ch := ChainOf(v.fat, start);
      assert |ch| > 0 && ch[0] == start && IsChain(v.fat, ch);
      hide FatOf, DataOf, TableOk, IsChain, Eoc, Scan, Decode, Follow, ClusterLba, FatOk, SlotAt;
      ghost var i := 0;
      p := Scan(t, ch, 0, 0, hit, stop);
      found, entry, lba, off := false, Zeros(32), 0, 0;
      var cluster: nat := start;
      while !Eoc(cluster) && cluster >= 2
        invariant Valid() && State() == v && i <= |ch|
        invariant if i < |ch| then cluster == ch[i] else Eoc(cluster)
        invariant p == Scan(t, ch, i, 0, hit, stop) && !found
        decreases |ch| - i
      {
        ChainNext(v.fat, ch, i);
        var done;
        ghost var j;
        done, found, entry, lba, off, j := ScanCluster(cluster, hit, stop, ch, i);
        if done { return; }
        cluster := NextCluster(cluster);
        i := i + 1;
      }
      if i < |ch| { ChainNext(v.fat, ch, i); }
      ScanDone(t, ch, hit, stop);
    }

    /** Search a directory for a slot name. */
    method SearchDir(start: nat, target: seq<byte>) returns (found: bool, entry: Slot, lba: nat, off: nat, ghost p: Pos)
      requires Valid() && StartsChain(State(), start)
      modifies `cachedLba, `cache
      ensures Valid() && State() == old(State())
      ensures p == Scan(TreeOf(State()), ChainOf(State().fat, start), 0, 0, IsCalled(target), AtEnd())
      ensures found <==> p.At?
      ensures found ==> var c := ChainOf(State().fat, start)[p.i];
                        OnDisk(geo, c, p.j, lba, off) && Inside(State().fat, c) && entry == SlotOf(State(), c, p.j)
    {
      found, entry, lba, off, p := ScanDir(start, IsCalled(target), AtEnd());
    }

    /** Find a free slot; the chain is not extended. */
    method FindFreeDirent(start: nat) returns (found: bool, lba: nat, off: nat, ghost p: Pos)
      requires Valid() && StartsChain(State(), start)
      modifies `cachedLba, `cache
      ensures Valid() && State() == old(State())
      ensures p == Scan(TreeOf(State()), ChainOf(State().fat, start), 0, 0, IsFree(), Never())
      ensures found <==> p.At?
      ensures found ==>
                var c := ChainOf(State().fat, start)[p.i]; OnDisk(geo, c, p.j, lba, off) && Inside(State().fat, c)
    {
      var entry;
      found, entry, lba, off, p := ScanDir(start, IsFree(), Never());
    }

    method DirIsEmpty(start: nat) returns (empty: bool)
      requires Valid() && StartsChain(State(), start)
      modifies `cachedLba, `cache
      ensures Valid() && State() == old(State()) && empty == IsEmptyDir(State(), start)
    {
      var found, entry, lba, off;
      ghost var p;
      found, entry, lba, off, p := ScanDir(start, IsContent(), AtEnd());
      empty := !found;
    }

    /** Rewrite one slot on disk. */
    method WriteDirent(lba: nat, off: nat, e: Slot, ghost c: nat, ghost j: nat)
      requires Valid() && Inside(State().fat, c) && j < State().slots && OnDisk(geo, c, j, lba, off)
      modifies `disk
      ensures Valid() && State() == PutAt(old(State()), c, j, e)
    {
      hide FatOf, DataOf, TableOk, Raw, Geometry.Valid, PutSlot;
      ghost var disk0 := disk;
      ClusterLbaBounds(geo, c);
      SectorPutSlot(geo, disk, c, j / 16, j % 16, e);
      var sec: Sector := disk[lba];
      sec := PutSlot(sec, off / 32, e);
      disk := disk[lba := sec];
      DataWriteKeepsTableOk(geo, disk0, disk, reserved, mirrored);
      ClusterIs(geo, disk0, c);
    }

    /** Mark one slot on disk as deleted. */
    method MarkDeleted(lba: nat, off: nat, ghost c: nat, ghost j: nat)
      requires Valid() && Inside(State().fat, c) && j < State().slots && OnDisk(geo, c, j, lba, off)
      modifies `disk
      ensures Valid() && State() == PutAt(old(State()), c, j, Deleted(SlotOf(old(State()), c, j)))
    {
      hide FatOf, DataOf, TableOk, Raw, Geometry.Valid, PutSlot, SlotAt, Deleted;
      ghost var disk0 := disk;
      ClusterLbaBounds(geo, c);
      SectorSlot(geo, disk, c, j / 16, j % 16);
      SectorPutSlot(geo, disk, c, j / 16, j % 16, Deleted(SlotOf(State(), c, j)));
      ClusterIs(geo, disk0, c);
      var sec: Sector := disk[lba];
      DeleteByte(sec, j % 16);
      SlotIs(sec, j % 16);
      sec := sec[off := DELETED];
      disk := disk[lba := sec];
      DataWriteKeepsTableOk(geo, disk0, disk, reserved, mirrored);
    }

    /** Write a whole cluster. */
    method WriteCluster(c: nat, b: seq<byte>)
      requires Valid() && Inside(State().fat, c) && |b| == 512 * geo.spc
      modifies `disk
      ensures Valid() && State() == old(State()).(data := old(State()).data[c := b])
    {
      hide FatOf, DataOf, TableOk, Raw, Geometry.Valid;
      ghost var disk0 := disk;
      ClusterLbaBounds(geo, c);
      WriteWholeCluster(geo, disk, c, b);
      disk := WriteRun(disk, ClusterLba(geo, c), geo.spc, b);
      DataWriteKeepsTableOk(geo, disk0, disk, reserved, mirrored);
    }

    // ---- files ----

    /** One cluster's worth of the bytes from offset o, zero-filled: the buffer the writer sends out. */
    method FillCluster(bytes: seq<byte>, o: nat) returns (b: seq<byte>)
      requires Valid() && o <= |bytes|
      ensures b == Chunk(bytes, o, 512 * geo.spc)
    {
      hide TableOk;
      var size := 512 * geo.spc;
      var buf := new byte[size];
      var remain := |bytes| - o;
      var copy := if remain < size then remain else size;
      var i := 0;
      while i < copy
        invariant i <= copy && forall k :: 0 <= k < i ==> buf[k] == bytes[o + k]
      {
        buf[i] := bytes[o + i];
        i := i + 1;
      }
      while i < size
        invariant copy <= i <= size
        invariant forall k :: 0 <= k < copy ==> buf[k] == bytes[o + k]
        invariant forall k :: copy <= k < i ==> buf[k] == 0
      {
        buf[i] := 0;
        i := i + 1;
      }
      b := buf[..];
      ChunkIs(bytes, o, size, b);
    }

    /** One more cluster for the file being written: allocated, linked behind prev, and filled; 0 if there is none. */
    method AppendCluster(prev: nat, bytes: seq<byte>, o: nat) returns (k: nat)
      requires Valid() && o <= |bytes| && prev < geo.Entries()
      modifies `disk, `hint, `cachedLba, `cache
      ensures Valid() && k == FirstFree(old(State()).fat, old(State()).hint, 0)
      ensures k == 0 ==> State() == old(State())
      ensures k != 0 ==>
                Inside(old(State()).fat, k)
                && State() == Appended(old(State()), prev, k, Chunk(bytes, o, 512 * geo.spc))
    {
      hide FatOf, DataOf, TableOk, Geometry.Valid, FatOk, FirstFree, Chunk;
      k := AllocCluster();
      if k != 0 {
        if prev != 0 { SetFatEntry(prev, k); }
        var buf := FillCluster(bytes, o);
        SmallLink(State(), k);
        WriteCluster(k, buf);
      }
    }

    /** Allocate clusters one by one, link and fill them, then record the slot; on a full volume give back. */
    method StoreBytes(lba: nat, off: nat, entry: Slot, bytes: seq<byte>, ghost c: nat, ghost j: nat, ghost e: Slot)
      returns (ok: bool)
      requires Valid() && Inside(State().fat, c) && j < State().slots && OnDisk(geo, c, j, lba, off)
      requires |bytes| < 0x1_0000_0000 && Closed(State().fat)
      requires forall start: nat :: start < 0x1_0000_0000 ==>
                 WithExtent(entry, start, |bytes|) == WithExtent(e, start, |bytes|)
      modifies `disk, `hint, `cachedLba, `cache
      ensures Valid() && ok == Store(old(State()), c, j, e, bytes).ok
      ensures State() == Store(old(State()), c, j, e, bytes).v
    {
      hide FatOf, DataOf, TableOk, Geometry.Valid, FatOk, Closed, FreeFrom, Filled, Progress, Store, Chunk, FirstFree;
      hide PutAt, WithExtent, Appended;
      ghost var w := State();
      ghost var ch: seq<nat> := [];
      var first, prev, written: nat := 0, 0, 0;
      ProgressStart(w, bytes);
      while written < |bytes|
        invariant Valid() && Progress(w, ch, bytes, written) && InRange(w.fat, ch) && written <= |bytes|
        invariant State() == Filled(w, ch, bytes)
        invariant if ch == [] then first == 0 && prev == 0 else first == ch[0] && prev == ch[|ch| - 1]
        decreases |bytes| - written
      {
        var k := AppendCluster(prev, bytes, written);
        if k == 0 {
          StoreStuck(w, ch, bytes, written, c, j, e);
          FilledFields(w, ch, bytes);
          if first != 0 {
            FreeUndoesFill(w, ch, bytes, written);
            FreeChain(first);
          }
          return false;
        }
        if first == 0 { first := k; }
        prev := k;
        StoreMore(w, ch, bytes, written, k);
        var remain := |bytes| - written;
        written := written + if remain < 512 * geo.spc then remain else 512 * geo.spc;
        ch := ch + [k];
      }
      StoreFinished(w, ch, bytes, c, j, e);
      WriteDirent(lba, off, WithExtent(entry, first, |bytes|), c, j);
      ok := true;
    }

    // ---- the public operations ----

    method Create(name: seq<byte>) returns (ok: bool)
      requires Valid() && Sound(State()) && CString(name)
      modifies `disk, `cachedLba, `cache
      ensures Valid() && Outcome(ok, State()) == FatVolume.Create(old(State()), name)
    {
      hide FatOf, DataOf, TableOk, Sound, Scan, StartsChain, PutAt;
      SoundCwd(State());
      var target := ToShortName(name);
      var found, entry, lba, off;
      ghost var p;
      found, entry, lba, off, p := SearchDir(cwd, target);
      if found { return false; }
      found, lba, off, p := FindFreeDirent(cwd);
      if !found { return false; }
      WriteDirent(lba, off, NewSlot(target, ATTR_ARCHIVE, 0, 0), Cwd(State())[p.i], p.j);
      ok := true;
    }

    method Remove(name: seq<byte>) returns (ok: bool)
      requires Valid() && Sound(State()) && CString(name)
      modifies `disk, `cachedLba, `cache
      ensures Valid() && Outcome(ok, State()) == FatVolume.Remove(old(State()), name)
    {
      hide FatOf, DataOf, TableOk, Sound, Scan, StartsChain, PutAt, FreeFrom, Closed, Deleted;
      SoundCwd(State());
      var target := ToShortName(name);
      var found, entry, lba, off;
      ghost var p;
      found, entry, lba, off, p := SearchDir(cwd, target);
      if !found || IsDir(entry) { return false; }
      FoundStart(State(), name);
      if StartOf(entry) >= 2 { FreeChain(StartOf(entry)); }
      MarkDeleted(lba, off, ChainOf(old(State()).fat, cwd)[p.i], p.j);
      ok := true;
    }

    method WriteFile(name: seq<byte>, bytes: seq<byte>) returns (ok: bool)
      requires Valid() && Sound(State()) && CString(name) && |bytes| < 0x1_0000_0000
      modifies `disk, `hint, `cachedLba, `cache
      ensures Valid() && Outcome(ok, State()) == FatVolume.WriteFile(old(State()), name, bytes)
    {
      hide FatOf, DataOf, TableOk, Sound, Scan, StartsChain, Store, FreeFrom, Closed, WithExtent;
      SoundCwd(State());
      var target := ToShortName(name);
      var found, entry, lba, off;
      ghost var p;
      found, entry, lba, off, p := SearchDir(cwd, target);
      if found && IsDir(entry) { return false; }
      ghost var e: Slot := entry;
      if !found {
        found, lba, off, p := FindFreeDirent(cwd);
        if !found { return false; }
        entry := NewSlot(target, ATTR_ARCHIVE, 0, 0);
        e := entry;
      } else {
        FoundStart(State(), name);
        if StartOf(entry) >= 2 {
          FreeClosed(State().fat, StartOf(entry));
          FreeChain(StartOf(entry));
        }
        entry := WithExtent(entry, 0, 0);
        forall start: nat | start < 0x1_0000_0000
          ensures WithExtent(entry, start, |bytes|) == WithExtent(e, start, |bytes|)
        {
          WithExtentTwice(e, start, |bytes|);
        }
      }
      ok := StoreBytes(lba, off, entry, bytes, ChainOf(old(State()).fat, cwd)[p.i], p.j, e);
    }

    method Mkdir(name: seq<byte>) returns (ok: bool)
      requires Valid() && Sound(State()) && CString(name)
      modifies `disk, `hint, `cachedLba, `cache
      ensures Valid() && old(State()).cwd < 0x1_0000_0000 && Outcome(ok, State()) == FatVolume.Mkdir(old(State()), name)
    {
      hide FatOf, DataOf, TableOk, Sound, Scan, StartsChain, PutAt, FirstFree, DotBlock, FatVolume.Mkdir;
      SoundCwd(State());
      MkdirIs(State(), name);
      var target := ToShortName(name);
      var found, entry, lba, off;
      ghost var p;
      found, entry, lba, off, p := SearchDir(cwd, target);
      if found { return false; }
      found, lba, off, p := FindFreeDirent(cwd);
      if !found { return false; }
      var c := AllocCluster();
      if c == 0 { return false; }
      WriteCluster(c, DotBlock(geo.Slots(), c, ParentLink(geo.root, cwd)));
      WriteDirent(lba, off, NewSlot(target, ATTR_DIRECTORY, c, 0), ChainOf(old(State()).fat, cwd)[p.i], p.j);
      ok := true;
    }

    method Rmdir(name: seq<byte>) returns (ok: bool)
      requires Valid() && Sound(State()) && CString(name)
      modifies `disk, `cachedLba, `cache
      ensures Valid() && Outcome(ok, State()) == FatVolume.Rmdir(old(State()), name)
    {
      hide FatOf, DataOf, TableOk, Sound, Scan, StartsChain, PutAt, FreeFrom, Closed, Deleted;
      SoundCwd(State());
      if DotName(name) { return false; }
      var target := ToShortName(name);
      var found, entry, lba, off;
      ghost var p;
      found, entry, lba, off, p := SearchDir(cwd, target);
      if !found || !IsDir(entry) || StartOf(entry) < 2 { return false; }
      FoundStart(State(), name);
      var empty := DirIsEmpty(StartOf(entry));
      if !empty { return false; }
      FreeChain(StartOf(entry));
      MarkDeleted(lba, off, ChainOf(old(State()).fat, cwd)[p.i], p.j);
      ok := true;
    }

    method Chdir(name: seq<byte>) returns (ok: bool)
      requires Valid() && Sound(State()) && CString(name)
      modifies `cwd, `cachedLba, `cache
      ensures Valid() && Outcome(ok, State()) == FatVolume.Chdir(old(State()), name)
    {
      hide FatOf, DataOf, TableOk, Sound, Scan, StartsChain;
      SoundCwd(State());
      ok := true;
      if name == [SLASH] {
        cwd := geo.root;
      } else if name == [PERIOD] || (name == [PERIOD, PERIOD] && cwd == geo.root) {
      } else if name == [PERIOD, PERIOD] {
        var found, entry, lba, off;
        ghost var p;
        found, entry, lba, off, p := SearchDir(cwd, DOTDOT);
        if !found { return false; }
        cwd := if StartOf(entry) == 0 then geo.root else StartOf(entry);
      } else {
        var target := ToShortName(name);
        var found, entry, lba, off;
        ghost var p;
        found, entry, lba, off, p := SearchDir(cwd, target);
        if !found || !IsDir(entry) { return false; }
        cwd := if StartOf(entry) == 0 then geo.root else StartOf(entry);
      }
    }

    /** Make the root the current directory. */
    method SetRoot()
      requires Valid()
      modifies `cwd
      ensures Valid() && State() == old(State()).(cwd := old(State()).root)
    {
      cwd := geo.root;
    }

    /** Put back a saved current directory; 0 and 1 stand for the root. */
    method SetCwdCluster(c: nat)
      requires Valid()
      modifies `cwd
      ensures Valid() && State() == old(State()).(cwd := if c < 2 then old(State()).root else c)
    {
      cwd := if c < 2 then geo.root else c;
    }

    /** Read a file's clusters in order, up to its size and up to max bytes. */
    method ReadFile(e: Slot, max: nat) returns (buf: seq<byte>)
      requires Valid() && Closed(State().fat) && (StartOf(e) < |State().fat| || Eoc(StartOf(e)))
      modifies `cachedLba, `cache
      ensures Valid() && State() == old(State()) && buf == ReadWalk(State(), StartOf(e), SizeOf(e), max)
      ensures StartOf(e) < 2 || StartsChain(State(), StartOf(e)) ==>
                buf == FatVolume.ReadFile(State(), StartOf(e), SizeOf(e), max)
    {
      hide FatOf, DataOf, TableOk, StartsChain, Follow, Content, FatOk, Closed, Eoc, Geometry.Valid, Upto, ReadRun;
      hide ClusterLba, ClusterOf, WalkAt, FatVolume.ReadFile;
      ghost var v := State();
      var size := if SizeOf(e) > max then max else SizeOf(e);
      ghost var ch := Follow(v.fat, StartOf(e), size);
      WalkInside(v, StartOf(e), size);
      if StartOf(e) < 2 || StartsChain(v, StartOf(e)) { ReadWalkIsReadFile(v, StartOf(e), SizeOf(e), max); }
      var cluster: nat := StartOf(e);
      ghost var i := 0;
      buf := [];
      assert ch[..0] == [];
      ReadStart(v.data, size);
      WalkBegins(v.fat, cluster, size);
      while !Eoc(cluster) && cluster >= 2 && |buf| < size
        invariant Valid() && State() == v && WalkAt(v.fat, ch, size, i, cluster) && i <= |ch|
        invariant buf == Upto(Content(v.data, ch[..i]), size) && |buf| >= Min(i, size)
        decreases size - |buf|
      {
        AtCluster(v.fat, ch, size, i, cluster);
        ContentSnoc(v.data, ch, i);
        ClusterIs(geo, disk, cluster);
        var b := ReadRun(disk, ClusterLba(geo, cluster), geo.spc);
        ClusterLong(v, cluster);
        var n := if size - |buf| < |b| then size - |buf| else |b|;
        ReadMore(Content(v.data, ch[..i]), b, size, buf);
        WalkGoesOn(v.fat, StartOf(e), size, i);
        buf := buf + b[..n];
        cluster := NextCluster(cluster);
        i := i + 1;
      }
      if |buf| < size { OffVolume(v.fat, cluster); }
      ReadDone(v, ch, i, cluster, size, buf);
      UptoIs(Content(v.data, ch), size);
    }

    /** The live slots of one cluster, up to an end mark. */
    method ListCluster(cluster: nat, so: seq<Slot>, ghost ch: seq<nat>, ghost i: nat)
      returns (done: bool, es: seq<Slot>)
      requires Valid() && i < |ch| && ch[i] == cluster && InRange(State().fat, ch)
      ensures so + Visited(State(), ch, i, 0) == if done then es else es + Visited(State(), ch, i + 1, 0)
    {
      hide FatOf, DataOf, TableOk, FatOk, Visited, SlotAt, Decode;
      ghost var v := State();
      assert Inside(v.fat, ch[i]);
      ClusterLbaBounds(geo, cluster);
      ClusterIs(geo, disk, cluster);
      var buf := ReadRun(disk, ClusterLba(geo, cluster), geo.spc);
      es := so;
      var k := 0;
      while k < geo.Slots()
        invariant k <= geo.Slots() && so + Visited(v, ch, i, 0) == es + Visited(v, ch, i, k)
      {
        VisitedUnfold(v, ch, i, k);
        var e: Slot := SlotAt(buf, k);
        if Decode(e).kind.End? { return true, es; }
        if Decode(e).Live() { es := es + [e]; }
        k := k + 1;
      }
      VisitedRow(v, ch, i);
      done := false;
    }

    /** Hand every live slot of a directory, in order, to the visitor: here, collect them. */
    method ListDir(start: nat) returns (es: seq<Slot>)
      requires Valid() && StartsChain(State(), start)
      modifies `cachedLba, `cache
      ensures Valid() && State() == old(State()) && InRange(State().fat, ChainOf(State().fat, start))
      ensures es == Visited(State(), ChainOf(State().fat, start), 0, 0)
    {
      ghost var v := State();
      ghost var ch := ChainOf(v.fat, start);
      assert |ch| > 0 && ch[0] == start && IsChain(v.fat, ch) && InRange(v.fat, ch);
      hide FatOf, DataOf, TableOk, StartsChain, Follow, FatOk, IsChain, Eoc, Geometry.Valid, Visited;
      var cluster: nat := start;
      ghost var i := 0;
      es := [];
      while !Eoc(cluster) && cluster >= 2
        invariant Valid() && State() == v && i <= |ch|
        invariant if i < |ch| then cluster == ch[i] else Eoc(cluster)
        invariant es + Visited(v, ch, i, 0) == Visited(v, ch, 0, 0)
        decreases |ch| - i
      {
        ChainNext(v.fat, ch, i);
        var done;
        done, es := ListCluster(cluster, es, ch, i);
        if done { return; }
        cluster := NextCluster(cluster);
        i := i + 1;
      }
      if i < |ch| { ChainNext(v.fat, ch, i); }
      VisitedDone(v, ch);
    }

    /** Look a name up in the current directory by its dotted form, ignoring case. */
    method Find(name: seq<byte>) returns (found: bool, entry: Slot)
      requires Valid() && Sound(State())
      modifies `cachedLba, `cache
      ensures Valid() && State() == old(State())
      ensures found <==> FatVolume.Find(State(), name).At?
      ensures found ==> entry == SlotAtPos(State(), FatVolume.Find(State(), name))
    {
      hide FatOf, DataOf, TableOk, Sound, Scan, StartsChain, Visited, Format, Decode;
      SoundCwd(State());
      var es := ListDir(cwd);
      ghost var v, ch := State(), ChainOf(State().fat, cwd);
      VisitedFinds(v, ch, 0, 0, name);
      found, entry := false, Zeros(32);
      var i := 0;
      while i < |es|
        invariant i <= |es| && Valid() && State() == v
        invariant found ==> FirstMatch(es, name) < i && entry == es[FirstMatch(es, name)]
        invariant !found ==> i <= FirstMatch(es, name)
      {
        FirstMatchStep(es, name, i);
        if !found {
          var dotted := FormatShortName(NameOf(es[i]));
          CutClosed(name);
          var same := StrEqCi(dotted, name + [0]);
          if same { found, entry := true, es[i]; }
        }
        i := i + 1;
      }
    }
  }
}
