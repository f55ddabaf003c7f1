/** What is written under a name is what is found and read back under it. */
module FatRoundTrip {
  import opened Bytes
  import opened FatChains
  import opened FatTree
  import opened FatDirectory
  import opened FatNames
  import opened FatVolume
  import opened FatSafety
  import opened FatRuns
  import opened FatTheorems
  import opened FatContents

  lemma {:induction false} ScanIs(t: Tree, ch: seq<nat>, x: nat, y: nat, hit: Entry -> bool, stop: Entry -> bool,
                                  i: nat, j: nat)
    requires x <= |ch| && y <= t.slots && Spot(t, ch, i, j) && !Before(i, j, x, y)
    requires hit(t.ents(ch[i], j)) && !stop(t.ents(ch[i], j))
    requires forall a: nat, b: nat :: Spot(t, ch, a, b) && Before(a, b, i, j) ==>
               !hit(t.ents(ch[a], b)) && !stop(t.ents(ch[a], b))
    ensures Scan(t, ch, x, y, hit, stop) == At(i, j)
    decreases |ch| - x, t.slots - y
  {
    if y == t.slots {
      ScanIs(t, ch, x + 1, 0, hit, stop, i, j);
    } else if x != i || y != j {
      assert Spot(t, ch, x, y);
      ScanIs(t, ch, x, y + 1, hit, stop, i, j);
    }
  }

  /** Before the write, no slot ahead of the target is an end mark or carries the name. */
  lemma {:induction false} NothingAhead(v: Volume, g: Own, op: Op, x: nat, y: nat)
    requires WfVolume(v, g) && CString(op.name) && Target(v, op).At?
    requires Spot(TreeOf(v), Cwd(v), x, y) && Before(x, y, Target(v, op).i, Target(v, op).j)
    ensures !IsCalled(ToShort(op.name))(TreeOf(v).ents(Cwd(v)[x], y)) && !AtEnd()(TreeOf(v).ents(Cwd(v)[x], y))
  {
    hide Wf;
    var t, target := TreeOf(v), ToShort(op.name);
    if Lookup(v, target).At? {
      ScanFindsFirst(t, Cwd(v), 0, 0, IsCalled(target), AtEnd(), x, y);
    } else {
      ScanFindsFirst(t, Cwd(v), 0, 0, IsFree(), Never(), x, y);
      if IsCalled(target)(t.ents(Cwd(v)[x], y)) { LookupFinds(v, g, target, x, y); }
    }
  }

  /** After a local change, the current directory has the same slots but the one rewritten. */
  lemma {:induction false} CwdAfter(v: Volume, g: Own, v': Volume, p: Pos, gone: nat)
    requires WfVolume(v, g) && Kept(v, v') && LocalAt(v, g, v', p, gone) && v'.cwd == v.cwd && gone != v.cwd
    ensures Cwd(v') == Cwd(v)
    ensures forall x: nat, y: nat :: Spot(TreeOf(v), Cwd(v), x, y) && (x != p.i || y != p.j) ==>
              TreeOf(v').ents(Cwd(v)[x], y) == TreeOf(v).ents(Cwd(v)[x], y)
  {
    hide Wf;
    CwdOwned(v, g);
    var c := Cwd(v)[p.i];
    ChainKept(v, g, v', c, p.j, gone, v.cwd);
    CwdDistinct(v, g);
    forall x: nat, y: nat | Spot(TreeOf(v), Cwd(v), x, y) && (x != p.i || y != p.j)
      ensures TreeOf(v').ents(Cwd(v)[x], y) == TreeOf(v).ents(Cwd(v)[x], y)
    {
      if x != p.i {
        assert v'.data[Cwd(v)[x]] == v.data[Cwd(v)[x]];
      } else {
        assert SlotAt(v'.data[c], y) == SlotAt(v.data[c], y);
      }
    }
  }

  lemma {:induction false} CwdDistinct(v: Volume, g: Own)
    requires WfVolume(v, g)
    ensures Distinct(Cwd(v))
  {
    hide HomesOk, EntriesOk, DotsOk, EndsOk;
    CwdOwned(v, g);
    assert Owns(v.fat, g.owner, v.cwd, Cwd(v));
    ChainIsAcyclic(v.fat, Cwd(v));
  }

  /** The slot a successful write leaves behind, and the chain behind it. */
  ghost predicate Wrote(v': Volume, c: nat, j: nat, target: seq<byte>, bytes: seq<byte>) {
    && Shape(v') && Inside(v'.fat, c) && j < v'.slots
    && var e := SlotOf(v', c, j);
       && NamedAt(v', c, j, target) && !IsDir(e) && SizeOf(e) == |bytes|
       && forall max: nat :: ReadFile(v', StartOf(e), SizeOf(e), max) == bytes[..Min(|bytes|, max)]
  }

  lemma {:induction false} StoreWrites(w: Volume, c: nat, j: nat, e: Slot, target: seq<byte>, bytes: seq<byte>)
    requires Shape(w) && Inside(w.fat, c) && j < w.slots && |bytes| < 0x1_0000_0000 && w.fat[c] != 0
    requires Decode(e).kind.Named? && !IsDir(e) && NameOf(e) == target && Store(w, c, j, e, bytes).ok
    ensures Wrote(Store(w, c, j, e, bytes).v, c, j, target, bytes)
  {
    var ch := Reserve(w, |bytes|);
    var f := Filled(w, ch, bytes);
    var start := if ch == [] then 0 else ch[0];
    var e' := WithExtent(e, start, |bytes|);
    ExtentKind(e, start, |bytes|);
    ReserveExtends(w, bytes);
    var v' := Store(w, c, j, e, bytes).v;
    assert v' == PutAt(f, c, j, e');
    PutAtEntry(f, c, j, e', c, j);
    assert SlotOf(v', c, j) == e';
    forall max: nat ensures ReadFile(v', start, |bytes|, max) == bytes[..Min(|bytes|, max)] {
      StoredReads(w, v', c, ch, bytes, max);
    }
  }

  lemma {:induction false} StoredReads(w: Volume, v': Volume, c: nat, ch: seq<nat>, bytes: seq<byte>, max: nat)
    requires Shape(w) && Shape(v') && Extended(w.fat, v'.fat, ch) && |ch| == ClustersFor(|bytes|, ClusterSize(w))
    requires Inside(w.fat, c) && w.fat[c] != 0
    requires forall x :: 0 <= x < |w.data| && x != c ==> v'.data[x] == WriteChunks(w.data, ch, bytes, ClusterSize(w))[x]
    ensures ReadFile(v', if ch == [] then 0 else ch[0], |bytes|, max) == bytes[..Min(|bytes|, max)]
  {
    var start := if ch == [] then 0 else ch[0];
    if ch == [] {
      assert bytes == [];
      EmptyRead(v', 0, max);
    } else {
      ChainIsUnique(v'.fat, ch);
      var filled := WriteChunks(w.data, ch, bytes, ClusterSize(w));
      forall k | 0 <= k < |ch| ensures v'.data[ch[k]] == filled[ch[k]] { assert ch[k] != c; }
      ContentFrame(filled, v'.data, ch);
      ReadBack(w.data, ch, bytes, ClusterSize(w));
      var all := Content(v'.data, ch);
      assert all[..Min(Min(|bytes|, max), |all|)] == all[..|bytes|][..Min(|bytes|, max)];
    }
  }

  /** A successful write leaves a slot in the current directory whose chain reads back the bytes. */
  lemma {:induction false} WriteWrites(v: Volume, g: Own, name: seq<byte>, bytes: seq<byte>)
    requires WfVolume(v, g) && CString(name) && |bytes| < 0x1_0000_0000 && !Erasing(name)
    requires WriteFile(v, name, bytes).ok
    ensures var p := Target(v, OpWrite(name, bytes));
            p.At? && p.i < |Cwd(v)| && Wrote(WriteFile(v, name, bytes).v, Cwd(v)[p.i], p.j, ToShort(name), bytes)
  {
    hide Wf;
    var op := OpWrite(name, bytes);
    var p := Lookup(v, ToShort(name));
    if p.At? {
      TakeOutIsLocal(v, g, op);
      FoundIsNamed(v, g, name);
      var e := SlotAtPos(v, p);
      StoreWrites(Release(v, StartOf(e)), Cwd(v)[p.i], p.j, e, ToShort(name), bytes);
    } else {
      FreePosIsLocal(v, g);
      var q := FreePos(v);
      ShortFirst(name);
      NewSlotKind(ToShort(name), ATTR_ARCHIVE, 0, 0);
      StoreWrites(v, Cwd(v)[q.i], q.j, NewSlot(ToShort(name), ATTR_ARCHIVE, 0, 0), ToShort(name), bytes);
    }
  }

  /** After a successful write, the lookup by slot name finds the slot written. */
  lemma {:induction false} LookupFindsWritten(v: Volume, g: Own, name: seq<byte>, bytes: seq<byte>)
    requires WfVolume(v, g) && CString(name) && |bytes| < 0x1_0000_0000 && v.cwd < 0x1_0000_0000
    requires !Erasing(name) && WriteFile(v, name, bytes).ok
    ensures var v', p := WriteFile(v, name, bytes).v, Target(v, OpWrite(name, bytes));
            && Cwd(v') == Cwd(v) && Lookup(v', ToShort(name)) == p
            && forall x: nat, y: nat :: Spot(TreeOf(v), Cwd(v), x, y) && (x != p.i || y != p.j) ==>
                 TreeOf(v').ents(Cwd(v)[x], y) == TreeOf(v).ents(Cwd(v)[x], y)
  {
    hide Wf;
    var op := OpWrite(name, bytes);
    var v', p := WriteFile(v, name, bytes).v, Target(v, op);
    WriteWrites(v, g, name, bytes);
    WriteIsLocal(v, g, name, bytes);
    CwdAfter(v, g, v', p, Gone(v, op));
    var t, t' := TreeOf(v), TreeOf(v');
    forall x: nat, y: nat | Spot(t', Cwd(v), x, y) && Before(x, y, p.i, p.j)
      ensures !IsCalled(ToShort(name))(t'.ents(Cwd(v)[x], y)) && !AtEnd()(t'.ents(Cwd(v)[x], y))
    {
      assert Spot(t, Cwd(v), x, y);
      NothingAhead(v, g, op, x, y);
    }
    ScanIs(t', Cwd(v'), 0, 0, IsCalled(ToShort(name)), AtEnd(), p.i, p.j);
  }

  lemma {:induction false} WriteIsLocal(v: Volume, g: Own, name: seq<byte>, bytes: seq<byte>)
    requires WfVolume(v, g) && CString(name) && |bytes| < 0x1_0000_0000 && v.cwd < 0x1_0000_0000
    requires WriteFile(v, name, bytes).ok || HasSlot(v, name)
    ensures var op := OpWrite(name, bytes);
            Target(v, op).At? && LocalAt(v, g, WriteFile(v, name, bytes).v, Target(v, op), Gone(v, op))
            && Gone(v, op) !in g.dirs
            && WriteFile(v, name, bytes).v.cwd == v.cwd
  {
    hide Wf;
    var op := OpWrite(name, bytes);
    var p := Lookup(v, ToShort(name));
    NoDirZero(TreeOf(v), g);
    if p.At? {
      TakeOutIsLocal(v, g, op);
      FoundIsNamed(v, g, name);
      var e, c := SlotAtPos(v, p), Cwd(v)[p.i];
      if !Decode(e).EmptyFile() { NamedIsOwned(TreeOf(v), g, v.cwd, c, p.j); }
      StoreIsLocal(v, g, Release(v, StartOf(e)), c, p.j, Gone(v, op), e, bytes);
    } else {
      FreePosIsLocal(v, g);
      var q := FreePos(v);
      StoreIsLocal(v, g, v, Cwd(v)[q.i], q.j, 0, NewSlot(ToShort(name), ATTR_ARCHIVE, 0, 0), bytes);
    }
  }

  /** No live slot of the current directory before position (i, j) has a dotted name that matches. */
  ghost predicate NoEarlierMatch(v: Volume, name: seq<byte>, i: nat, j: nat) {
    forall x: nat, y: nat :: Spot(TreeOf(v), Cwd(v), x, y) && Before(x, y, i, j) ==>
      !Matches(name)(TreeOf(v).ents(Cwd(v)[x], y))
  }

  /** Finding the name gives the slot written exactly if that slot's own name matches and none before it does. */
  lemma {:induction false} FindsWrittenIff(v: Volume, g: Own, name: seq<byte>, bytes: seq<byte>)
    requires WfVolume(v, g) && CString(name) && |bytes| < 0x1_0000_0000 && v.cwd < 0x1_0000_0000
    requires !Erasing(name) && WriteFile(v, name, bytes).ok
    ensures var v', p := WriteFile(v, name, bytes).v, Target(v, OpWrite(name, bytes));
            p.At?
            && (Find(v', name) == p <==> SameName(Format(ToShort(name)), name) && NoEarlierMatch(v, name, p.i, p.j))
  {
    hide Wf, WriteFile, ToShort, Format, Cwd, EntryAt, Erasing, SameName;
    WriteWrites(v, g, name, bytes);
    LookupFindsWritten(v, g, name, bytes);
    var v', p := WriteFile(v, name, bytes).v, Target(v, OpWrite(name, bytes));
    WrittenEntry(v', Cwd(v)[p.i], p.j, ToShort(name), bytes);
    FindInstead(v', ToShort(name), name, p);
    var t, t' := TreeOf(v), TreeOf(v');
    forall x: nat, y: nat | Spot(t, Cwd(v), x, y) && Before(x, y, p.i, p.j)
      ensures t'.ents(Cwd(v')[x], y) == t.ents(Cwd(v)[x], y)
    {
    }
    MatchesIs(t'.ents(Cwd(v')[p.i], p.j), ToShort(name), name);
    hide Matches, Target;
  }

  lemma {:induction false} WrittenEntry(v: Volume, c: nat, j: nat, target: seq<byte>, bytes: seq<byte>)
    requires Wrote(v, c, j, target, bytes) && |target| == 11
    ensures TreeOf(v).ents(c, j).Live() && TreeOf(v).ents(c, j).name == target
  {
  }

  lemma {:induction false} MatchesIs(e: Entry, target: seq<byte>, name: seq<byte>)
    requires e.Live() && e.name == target && |target| == 11 && CString(name)
    ensures Matches(name)(e) <==> SameName(Format(target), name)
  {
  }

  /** Where one lookup finds its slot at p, another finds p too exactly if p is its first hit. */
  lemma {:induction false} FindInstead(v: Volume, target: seq<byte>, name: seq<byte>, p: Pos)
    requires p.At? && Lookup(v, target) == p
    ensures p.i < |Cwd(v)| && p.j < v.slots
    ensures Find(v, name) == p <==>
            Matches(name)(TreeOf(v).ents(Cwd(v)[p.i], p.j)) && NoEarlierMatch(v, name, p.i, p.j)
  {
    hide Matches, Cwd, EntryAt;
    var t := TreeOf(v);
    forall x: nat, y: nat | Spot(t, Cwd(v), x, y) && Before(x, y, p.i, p.j) ensures !AtEnd()(t.ents(Cwd(v)[x], y)) {
      ScanFindsFirst(t, Cwd(v), 0, 0, IsCalled(target), AtEnd(), x, y);
    }
    if Find(v, name) == p {
      forall x: nat, y: nat | Spot(t, Cwd(v), x, y) && Before(x, y, p.i, p.j)
        ensures !Matches(name)(t.ents(Cwd(v)[x], y))
      {
        ScanFindsFirst(t, Cwd(v), 0, 0, Matches(name), AtEnd(), x, y);
      }
    } else if Matches(name)(t.ents(Cwd(v)[p.i], p.j)) && NoEarlierMatch(v, name, p.i, p.j) {
      ScanIs(t, Cwd(v), 0, 0, Matches(name), AtEnd(), p.i, p.j);
    }
  }

  /**
   The round trip, exactly: after a successful write of an 8.3 name, finding the name leads to the slot written, whose
   chain reads back the bytes, if and only if no live slot before it had a matching name.
   */
  lemma {:induction false} RoundTripIff(v: Volume, g: Own, name: seq<byte>, bytes: seq<byte>)
    requires WfVolume(v, g) && v.cwd < 0x1_0000_0000 && Canonical83(name) && !Erasing(name) && |bytes| < 0x1_0000_0000
    requires WriteFile(v, name, bytes).ok
    ensures var v', p := WriteFile(v, name, bytes).v, Target(v, OpWrite(name, bytes));
            && p.At? && p.i < |Cwd(v)| && Wrote(v', Cwd(v)[p.i], p.j, ToShort(name), bytes)
            && (Find(v', name) == p <==> NoEarlierMatch(v, name, p.i, p.j))
  {
    hide Wf, WriteFile, ToShort, Format, Cwd, SameName, Matches, Erasing, Wrote, Target, FatVolume.Find;
    ShortIsCanonical(name);
    NamesAgree(ToShort(name), name);
    WriteWrites(v, g, name, bytes);
    FindsWrittenIff(v, g, name, bytes);
  }

  /** The round trip: after a successful write, finding the name and reading gives exactly the bytes. */
  lemma {:induction false} RoundTrip(v: Volume, g: Own, name: seq<byte>, bytes: seq<byte>)
    requires WfVolume(v, g) && CanonicalDir(v) && v.cwd < 0x1_0000_0000
    requires CString(name) && Canonical83(name) && !Erasing(name) && |bytes| < 0x1_0000_0000
    requires WriteFile(v, name, bytes).ok
    ensures var v' := WriteFile(v, name, bytes).v;
            && Find(v', name).At? && Find(v', name) == Lookup(v', ToShort(name)) && CanonicalDir(v')
            && var e := SlotAtPos(v', Find(v', name));
               && NameOf(e) == ToShort(name) && SizeOf(e) == |bytes|
               && forall max: nat :: ReadFile(v', StartOf(e), SizeOf(e), max) == bytes[..Min(|bytes|, max)]
  {
    hide Wf;
    var v', p := WriteFile(v, name, bytes).v, Target(v, OpWrite(name, bytes));
    WriteWrites(v, g, name, bytes);
    LookupFindsWritten(v, g, name, bytes);
    ShortIsCanonical(name);
    forall i: nat, j: nat | Spot(TreeOf(v'), Cwd(v'), i, j) && TreeOf(v').ents(Cwd(v')[i], j).Live()
      ensures CanonicalEntry(TreeOf(v').ents(Cwd(v')[i], j))
    {
      assert Spot(TreeOf(v), Cwd(v), i, j);
    }
    LookupsAgree(v', name);
  }
}
