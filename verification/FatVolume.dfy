/** The mounted volume as a value, its tree view, and what each driver operation does to it. */
module FatVolume {
  import opened Bytes
  import opened FatChains
  import opened FatTree
  import opened FatDirectory
  import opened FatNames

  /** slots is the number of directory slots per cluster, so a cluster holds 32 * slots bytes. */
  datatype Volume = Volume(slots: nat, root: nat, fat: seq<nat>, data: seq<seq<byte>>, hint: nat, cwd: nat)

  predicate Shape(v: Volume) {
    && FatOk(v.fat) && |v.data| == |v.fat|
    && 16 <= v.slots
    && (forall c :: 2 <= c < |v.fat| ==> |v.data[c]| == 32 * v.slots)
    && 2 <= v.hint <= |v.fat|
  }

  function ClusterSize(v: Volume): nat { 32 * v.slots }

  function EntryAt(v: Volume, c: nat, j: nat): Entry {
    if c < |v.data| && 32 * j + 32 <= |v.data[c]| then Decode(SlotAt(v.data[c], j)) else Entry(End, [], false, 0, 0)
  }

  function TreeOf(v: Volume): Tree { Tree(v.fat, v.slots, v.root, v.cwd, (c: nat, j: nat) => EntryAt(v, c, j)) }

  ghost predicate WfVolume(v: Volume, g: Own) { Shape(v) && Wf(TreeOf(v), g) }

  /** The volume is well formed: some ownership accounts for every cluster and every slot. */
  ghost predicate Sound(v: Volume) { exists g :: WfVolume(v, g) }

  // ---- one slot rewritten ----

  function PutAt(v: Volume, c: nat, j: nat, e: Slot): (v': Volume)
    requires Shape(v) && Inside(v.fat, c) && j < v.slots
    ensures Shape(v')
  {
    v.(data := v.data[c := PutSlot(v.data[c], j, e)])
  }

  lemma {:induction false} PutAtEntry(v: Volume, c: nat, j: nat, e: Slot, x: nat, y: nat)
    requires Shape(v) && Inside(v.fat, c) && j < v.slots && Inside(v.fat, x) && y < v.slots
    ensures TreeOf(PutAt(v, c, j, e)).ents(x, y) == if x == c && y == j then Decode(e) else TreeOf(v).ents(x, y)
  {
    if x == c && y != j { PutSlotFrame(v.data[c], j, e, y); }
  }

  /** Slots in clusters with equal contents hold equal entries. */
  lemma {:induction false} SameData(v: Volume, w: Volume, x: nat, y: nat)
    requires Shape(v) && Shape(w) && w.slots == v.slots && |w.fat| == |v.fat|
    requires Inside(v.fat, x) && y < v.slots && w.data[x] == v.data[x]
    ensures TreeOf(w).ents(x, y) == TreeOf(v).ents(x, y)
  {
  }

  // ---- the operations ----

  /** The chain of the current directory. */
  function Cwd(v: Volume): seq<nat> { ChainOf(v.fat, v.cwd) }

  /** Where the current directory names target in a live slot. */
  function Lookup(v: Volume, target: seq<byte>): Pos { Scan(TreeOf(v), Cwd(v), 0, 0, IsCalled(target), AtEnd()) }

  function FreePos(v: Volume): Pos { Scan(TreeOf(v), Cwd(v), 0, 0, IsFree(), Never()) }

  /** All positions of the current directory are slots of the volume. */
  lemma {:induction false} CwdInside(v: Volume, i: nat, j: nat)
    requires Shape(v) && Spot(TreeOf(v), Cwd(v), i, j)
    ensures Inside(v.fat, Cwd(v)[i]) && j < v.slots
  {
    FollowInside(v.fat, v.cwd, |v.fat|, i);
  }

  lemma {:induction false} FollowInside(fat: seq<nat>, c: nat, fuel: nat, i: nat)
    requires i < |Follow(fat, c, fuel)|
    ensures Inside(fat, Follow(fat, c, fuel)[i])
    decreases fuel
  {
    if i > 0 { FollowInside(fat, fat[c], fuel - 1, i - 1); }
  }

  function SlotOf(v: Volume, c: nat, j: nat): Slot
    requires Shape(v) && Inside(v.fat, c) && j < v.slots
  {
    SlotAt(v.data[c], j)
  }

  /** The slot a successful lookup has found. */
  function SlotAtPos(v: Volume, p: Pos): Slot
    requires Shape(v) && p.At? && Spot(TreeOf(v), Cwd(v), p.i, p.j)
  {
    CwdInside(v, p.i, p.j);
    SlotOf(v, Cwd(v)[p.i], p.j)
  }

  /** Every operation leaves the geometry of the volume alone. */
  predicate Kept(v: Volume, w: Volume) { Shape(w) && w.slots == v.slots && w.root == v.root && |w.fat| == |v.fat| }

  datatype Outcome = Outcome(ok: bool, v: Volume)

  /** Free the chain from start, if there is one. */
  function Release(v: Volume, start: nat): (v': Volume)
    requires Shape(v)
    ensures Shape(v')
  {
    if start < 2 then v else FreeFromOk(v.fat, start); v.(fat := FreeFrom(v.fat, start))
  }

  lemma {:induction false} FreeFromOk(fat: seq<nat>, c: nat)
    requires FatOk(fat)
    ensures FatOk(FreeFrom(fat, c))
    decreases |Used(fat)|, Inside(fat, c)
  {
    if Inside(fat, c) {
      UsedShrinks(fat, c);
      FreeFromOk(fat[c := 0], fat[c]);
    }
  }

  /** Create an empty file. */
  function Create(v: Volume, name: seq<byte>): (r: Outcome)
    requires Shape(v)
    ensures Kept(v, r.v)
  {
    var target := ToShort(name);
    if Lookup(v, target).At? then Outcome(false, v)
    else match FreePos(v)
      case Nowhere => Outcome(false, v)
      case At(i, j) =>
        CwdInside(v, i, j);
        Outcome(true, PutAt(v, Cwd(v)[i], j, NewSlot(target, ATTR_ARCHIVE, 0, 0)))
  }

  /** Remove a file. */
  function Remove(v: Volume, name: seq<byte>): (r: Outcome)
    requires Shape(v)
    ensures Kept(v, r.v)
  {
    match Lookup(v, ToShort(name))
    case Nowhere => Outcome(false, v)
    case At(i, j) =>
      CwdInside(v, i, j);
      var e := SlotOf(v, Cwd(v)[i], j);
      if IsDir(e) then Outcome(false, v)
      else Outcome(true, PutAt(Release(v, StartOf(e)), Cwd(v)[i], j, Deleted(e)))
  }

  /** The clusters that hold size bytes, as allocation picks them; fewer if the volume is too full. */
  function Reserve(v: Volume, size: nat): (ch: seq<nat>)
    requires Shape(v)
    ensures |ch| <= ClustersFor(size, ClusterSize(v)) && InRange(v.fat, ch)
  {
    Picks(v.fat, v.hint, ClustersFor(size, ClusterSize(v)))
  }

  /** ch linked into a chain and filled with bytes, the hint moved past the last pick. */
  function Filled(v: Volume, ch: seq<nat>, bytes: seq<byte>): Volume
    requires Shape(v) && InRange(v.fat, ch)
  {
    v.(fat := Link(v.fat, ch), data := WriteChunks(v.data, ch, bytes, ClusterSize(v)), hint := HintAfter(v.hint, ch))
  }

  lemma {:induction false} FilledShape(v: Volume, ch: seq<nat>, bytes: seq<byte>)
    requires Shape(v) && InRange(v.fat, ch) && Distinct(ch)
    ensures Shape(Filled(v, ch, bytes))
  {
    LinkIsChain(v.fat, ch);
    var w := Filled(v, ch, bytes);
    forall c | 2 <= c < |w.fat| ensures |w.data[c]| == 32 * w.slots {
      WriteChunksFrame(v.data, ch, bytes, ClusterSize(v), c);
    }
  }

  /** Store bytes under the slot e at (c, j): allocate, fill, and record; on a full volume give back. */
  function Store(v: Volume, c: nat, j: nat, e: Slot, bytes: seq<byte>): (r: Outcome)
    requires Shape(v) && Inside(v.fat, c) && j < v.slots && |bytes| < 0x1_0000_0000
    ensures Kept(v, r.v)
  {
    var ch := Reserve(v, |bytes|);
    var w := Filled(v, ch, bytes);
    PicksAreFree(v.fat, v.hint, ClustersFor(|bytes|, ClusterSize(v)));
    FilledShape(v, ch, bytes);
    if |ch| < ClustersFor(|bytes|, ClusterSize(v)) then
      Outcome(false, w.(fat := v.fat))
    else
      Outcome(true, PutAt(w, c, j, WithExtent(e, if ch == [] then 0 else ch[0], |bytes|)))
  }

  /** Write a file, creating it if need be; an existing file is emptied first. */
  function WriteFile(v: Volume, name: seq<byte>, bytes: seq<byte>): (r: Outcome)
    requires Shape(v) && |bytes| < 0x1_0000_0000
    ensures Kept(v, r.v)
  {
    var target := ToShort(name);
    match Lookup(v, target)
    case Nowhere =>
      (match FreePos(v)
       case Nowhere => Outcome(false, v)
       case At(i, j) =>
         CwdInside(v, i, j);
         Store(v, Cwd(v)[i], j, NewSlot(target, ATTR_ARCHIVE, 0, 0), bytes))
    case At(i, j) =>
      CwdInside(v, i, j);
      var e := SlotOf(v, Cwd(v)[i], j);
      if IsDir(e) then Outcome(false, v)
      else Store(Release(v, StartOf(e)), Cwd(v)[i], j, e, bytes)
  }

  /** Make an empty directory. */
  function Mkdir(v: Volume, name: seq<byte>): (r: Outcome)
    requires Shape(v) && v.cwd < 0x1_0000_0000
    ensures Kept(v, r.v)
  {
    var target := ToShort(name);
    if Lookup(v, target).At? then Outcome(false, v)
    else match FreePos(v)
      case Nowhere => Outcome(false, v)
      case At(i, j) =>
        CwdInside(v, i, j);
        AllocFailsOnlyWhenFull(v.fat, v.hint);
        var c := FirstFree(v.fat, v.hint, 0);
        if c == 0 then Outcome(false, v)
        else
          var w := v.(fat := v.fat[c := END_OF_CHAIN], hint := c + 1,
                      data := v.data[c := DotBlock(v.slots, c, ParentLink(v.root, v.cwd))]);
          Outcome(true, PutAt(w, Cwd(v)[i], j, NewSlot(target, ATTR_DIRECTORY, c, 0)))
  }

  /** What counts as a content of a directory when it is checked for emptiness. */
  function IsContent(): Entry -> bool {
    (e: Entry) => e.Live() && |e.name| == 11
                  && !(e.name[0] == PERIOD && (e.name[1] == SPACE || e.name[1] == PERIOD))
  }

  function IsEmptyDir(v: Volume, d: nat): bool {
    Scan(TreeOf(v), ChainOf(v.fat, d), 0, 0, IsContent(), AtEnd()).Nowhere?
  }

  predicate DotName(name: seq<byte>) { name == [PERIOD] || name == [PERIOD, PERIOD] }

  /** Remove an empty directory. */
  function Rmdir(v: Volume, name: seq<byte>): (r: Outcome)
    requires Shape(v)
    ensures Kept(v, r.v)
  {
    if DotName(name) then Outcome(false, v)
    else match Lookup(v, ToShort(name))
      case Nowhere => Outcome(false, v)
      case At(i, j) =>
        CwdInside(v, i, j);
        var e := SlotOf(v, Cwd(v)[i], j);
        if !IsDir(e) || StartOf(e) < 2 || !IsEmptyDir(v, StartOf(e)) then Outcome(false, v)
        else Outcome(true, PutAt(Release(v, StartOf(e)), Cwd(v)[i], j, Deleted(e)))
  }

  const SLASH: byte := 0x2F

  /** Change the current directory by one component. */
  function Chdir(v: Volume, name: seq<byte>): (r: Outcome)
    requires Shape(v)
    ensures Kept(v, r.v)
  {
    if name == [SLASH] then Outcome(true, v.(cwd := v.root))
    else if name == [PERIOD] || (name == [PERIOD, PERIOD] && v.cwd == v.root) then Outcome(true, v)
    else
      var up := name == [PERIOD, PERIOD];
      match Lookup(v, if up then DOTDOT else ToShort(name))
      case Nowhere => Outcome(false, v)
      case At(i, j) =>
        CwdInside(v, i, j);
        var e := SlotOf(v, Cwd(v)[i], j);
        if !up && !IsDir(e) then Outcome(false, v)
        else Outcome(true, v.(cwd := if StartOf(e) == 0 then v.root else StartOf(e)))
  }

  /** The bytes a slot's chain holds, up to the recorded size and up to max. */
  function ReadFile(v: Volume, start: nat, size: nat, max: nat): seq<byte>
    requires Shape(v)
  {
    ChainInData(v, start);
    var all := Content(v.data, ChainOf(v.fat, start));
    all[..Min(Min(size, max), |all|)]
  }

  /**
   The bytes read by following links from start, on any table: clusters are taken until a link ends the walk
   or enough bytes have been read, so that a chain that runs in a circle is read round and round.
   */
  function ReadWalk(v: Volume, start: nat, size: nat, max: nat): seq<byte>
    requires Shape(v)
  {
    var n := Min(size, max);
    WalkInData(v, start, n);
    var all := Content(v.data, Follow(v.fat, start, n));
    all[..Min(n, |all|)]
  }

  lemma {:induction false} WalkInData(v: Volume, s: nat, n: nat)
    requires Shape(v)
    ensures forall i :: 0 <= i < |Follow(v.fat, s, n)| ==> Follow(v.fat, s, n)[i] < |v.data|
  {
    forall i | 0 <= i < |Follow(v.fat, s, n)|
      ensures Follow(v.fat, s, n)[i] < |v.data|
    {
      FollowInside(v.fat, s, n, i);
    }
  }

  lemma {:induction false} ChainInData(v: Volume, s: nat)
    requires Shape(v)
    ensures forall i :: 0 <= i < |ChainOf(v.fat, s)| ==> ChainOf(v.fat, s)[i] < |v.data|
  {
    forall i | 0 <= i < |ChainOf(v.fat, s)| ensures ChainOf(v.fat, s)[i] < |v.data| {
      FollowInside(v.fat, s, |v.fat|, i);
    }
  }

  /** A live slot whose dotted name is the one asked for, up to case. */
  function Matches(name: seq<byte>): Entry -> bool {
    (e: Entry) => e.Live() && |e.name| == 11 && SameName(Format(e.name), CutNul(name))
  }

  /** Where the user-level lookup finds name in the current directory. */
  function Find(v: Volume, name: seq<byte>): Pos { Scan(TreeOf(v), Cwd(v), 0, 0, Matches(name), AtEnd()) }
}
