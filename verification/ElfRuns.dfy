/** Whole loads and unloads: the image a program finds, and that nothing is lost. */
module ElfRuns {
  import opened Bytes
  import opened PhysicalPages
  import opened PageTables
  import opened ElfImage

  // ---- taking pages out ----

  ghost function UnloadPage(s: Space, vp: nat): Space {
    var pa := GetPhys(s, vp * PAGE);
    var s1 := Unmap(s, vp * PAGE);
    if pa != SENTINEL then s1.(free := Given(s1.free, pa / PAGE * PAGE)) else s1
  }

  /** s' is s without the virtual pages qs, their frames free again. */
  ghost predicate Shrunk(s: Space, s': Space, qs: set<nat>) {
    && Good(s') && Translate(s') == Translate(s) - qs && Tables(s') == Tables(s)
    && s'.free == s.free + FramesOf(s, qs)
    && |s'.mem| == |s.mem| == TOTAL && forall p :: 0 <= p < TOTAL && p !in Tables(s) ==> s'.mem[p] == s.mem[p]
  }

  lemma {:induction false} UnmapKeepsPrivate(s: Space, vp: nat)
    requires Good(s) && ENTRIES <= vp < VPAGES
    ensures var s1 := Unmap(s, vp * PAGE);
            && Good(s1) && Translate(s1) == Translate(s) - {vp} && Tables(s1) == Tables(s) && s1.free == s.free
            && |s1.mem| == |s.mem| == TOTAL && forall p :: 0 <= p < TOTAL && p !in Tables(s) ==> s1.mem[p] == s.mem[p]
  {
    assert vp * PAGE / PAGE == vp;
    UnmapRefines(s, vp * PAGE);
    var s1 := Unmap(s, vp * PAGE);
    if Readable(s, vp) {
      StoreTables(s, vp);
    }
    hide Unmap, Wf, Entry, Frame, Present, Tables, Direct, Translate, Mapped;
    EntriesLeft(s, s1, vp);
    StillDirect(s, s1);
  }

  lemma {:induction false} EntriesLeft(s: Space, s1: Space, vp: nat)
    requires Translate(s1) == Translate(s) - {vp}
    ensures forall q: nat :: q < VPAGES && Mapped(s1, q) ==> Mapped(s, q) && Entry(s1, q) == Entry(s, q)
    ensures forall q: nat :: q < VPAGES && q != vp && Mapped(s, q) ==> Mapped(s1, q) && Entry(s1, q) == Entry(s, q)
  {
    hide Entry, Present;
    forall q: nat | q < VPAGES
      ensures Mapped(s1, q) ==> Mapped(s, q) && Entry(s1, q) == Entry(s, q)
      ensures q != vp && Mapped(s, q) ==> Mapped(s1, q) && Entry(s1, q) == Entry(s, q)
    {
      if Mapped(s1, q) { assert q in Translate(s1) && q in Translate(s); }
      if q != vp && Mapped(s, q) { assert q in Translate(s) && q in Translate(s1); }
    }
  }

  lemma {:induction false} StoreTables(s: Space, vp: nat)
    requires Wf(s) && Readable(s, vp)
    ensures var s1 := Store(s, vp, 0);
            && Tables(s1) == Tables(s) && |s1.mem| == TOTAL
            && forall p :: 0 <= p < TOTAL && p !in Tables(s) ==> s1.mem[p] == s.mem[p]
  {
    var s1 := Store(s, vp, 0);
    assert TableOf(s, Dir(vp)) in Tables(s);
    assert forall d: nat :: (HasTable(s1, d) <==> HasTable(s, d)) && TableOf(s1, d) == TableOf(s, d);
  }

  /** Giving back a frame that nothing maps any more. */
  lemma {:induction false} GiveBack(s: Space, f: nat)
    requires Good(s) && 1 <= f < TOTAL && f !in Spare(s)
    requires forall q: nat :: ENTRIES <= q < VPAGES && Mapped(s, q) ==> Frame(Entry(s, q)) != f
    ensures var s' := s.(free := s.free + {f}); Good(s') && Translate(s') == Translate(s) && Tables(s') == Tables(s)
  {
    var s' := s.(free := s.free + {f});
    SameEntries(s, s');
    assert forall d: nat :: (HasTable(s', d) <==> HasTable(s, d)) && TableOf(s', d) == TableOf(s, d);
    forall p ensures p != f && Plain(s, p) ==> Plain(s', p) {
      TableMember(s, p);
      TableMember(s', p);
    }
    TableMember(s, f);
    hide Entry, HasTable, TableOf, Frame, Present, Direct;
    StillDirect(s, s');
  }

  /** One page less: exactly that page leaves the map, and exactly its frame becomes free. */
  lemma {:induction false} UnloadPageShrinks(s: Space, vp: nat)
    requires Good(s) && ENTRIES <= vp < VPAGES
    ensures Shrunk(s, UnloadPage(s, vp), {vp})
  {
    hide Unmap, Wf, Private, Direct, Translate, Tables, FramesOf, GetPhys, Spare, Given;
    var s1 := Unmap(s, vp * PAGE);
    assert vp * PAGE / PAGE == vp && vp * PAGE % PAGE == 0;
    UnmapKeepsPrivate(s, vp);
    GetPhysAgrees(s, vp * PAGE);
    if vp in Translate(s) {
      var f := Frame(Translate(s)[vp]);
      MappedFrame(s, vp);
      NotMappedTwice(s, s1, vp);
      FramesOne(s, vp);
      assert (f * PAGE) / PAGE * PAGE == f * PAGE && f * PAGE != SENTINEL;
      assert UnloadPage(s, vp) == s1.(free := s1.free + {f}) by { GivenFrame(s1.free, f); }
      assert f !in Spare(s1) by { SameSpare(s, s1); }
      GiveBack(s1, f);
    } else {
      NoFrames(s, vp);
    }
  }

  lemma {:induction false} SameSpare(s: Space, s1: Space)
    requires Tables(s1) == Tables(s) && s1.free == s.free
    ensures Spare(s1) == Spare(s)
  {
  }

  lemma {:induction false} NoFrames(s: Space, vp: nat)
    requires vp !in Translate(s)
    ensures FramesOf(s, {vp}) == {}
  {
  }

  lemma {:induction false} GivenFrame(free: set<nat>, f: nat)
    requires f < TOTAL
    ensures Given(free, f * PAGE) == free + {f}
  {
  }

  lemma {:induction false} MappedFrame(s: Space, vp: nat)
    requires Good(s) && ENTRIES <= vp && vp in Translate(s)
    ensures 1 <= Frame(Translate(s)[vp]) < TOTAL && Frame(Translate(s)[vp]) !in Spare(s)
  {
    assert Mapped(s, vp) && Plain(s, Frame(Entry(s, vp)));
    TableMember(s, Frame(Entry(s, vp)));
  }

  lemma {:induction false} NotMappedTwice(s: Space, s1: Space, vp: nat)
    requires Good(s) && ENTRIES <= vp && vp in Translate(s) && Translate(s1) == Translate(s) - {vp}
    ensures forall q: nat :: ENTRIES <= q < VPAGES && Mapped(s1, q) ==> Frame(Entry(s1, q)) != Frame(Translate(s)[vp])
  {
    hide Entry, Frame, Present;
    forall q: nat | ENTRIES <= q < VPAGES && Mapped(s1, q) ensures Frame(Entry(s1, q)) != Frame(Translate(s)[vp]) {
      assert q in Translate(s1) && q in Translate(s) && q != vp;
      assert Mapped(s, q) && Mapped(s, vp);
    }
  }

  lemma {:induction false} FramesDrop(a: Space, b: Space, ps: set<nat>, qs: set<nat>)
    requires Translate(b) == Translate(a) - ps
    ensures FramesOf(a, ps + qs) == FramesOf(a, ps) + FramesOf(b, qs)
  {
    hide Translate, Frame;
    FramesSplit(a, ps, qs);
    assert forall q :: q in qs && q !in ps && q in Translate(a) ==>
             q in Translate(b) && Translate(b)[q] == Translate(a)[q];
    assert forall q :: q in Translate(b) ==> q in Translate(a) && Translate(b)[q] == Translate(a)[q];
  }

  lemma {:induction false} ShrunkTrans(a: Space, b: Space, c: Space, ps: set<nat>, qs: set<nat>)
    requires Shrunk(a, b, ps) && Shrunk(b, c, qs)
    ensures Shrunk(a, c, ps + qs)
  {
    FramesDrop(a, b, ps, qs);
    MinusMinus(Translate(a), ps, qs);
    PlusPlus(a.free, FramesOf(a, ps), FramesOf(b, qs));
    hide Translate, Tables, FramesOf, Good;
  }

  lemma {:induction false} PlusPlus(a: set<nat>, b: set<nat>, c: set<nat>)
    ensures a + b + c == a + (b + c)
  {
  }

  lemma {:induction false} MinusMinus(m: map<nat, nat>, ps: set<nat>, qs: set<nat>)
    ensures m - ps - qs == m - (ps + qs)
  {
  }

  lemma {:induction false} ShrunkGood(s: Space, s': Space, qs: set<nat>)
    requires Shrunk(s, s', qs)
    ensures Good(s')
  {
  }

  lemma {:induction false} NothingShrunk(s: Space)
    requires Good(s)
    ensures Shrunk(s, s, {})
  {
    assert FramesOf(s, {}) == {};
    assert Translate(s) - {} == Translate(s);
  }

  lemma {:induction false} NoPages(vp: nat)
    ensures Pages(vp, 0) == {}
  {
  }

  ghost function UnloadPages(s: Space, vp: nat, n: nat): Space
    decreases n
  {
    if n == 0 then s else UnloadPages(UnloadPage(s, vp), vp + 1, n - 1)
  }

  lemma {:induction false} UnloadPagesShrinks(s: Space, vp: nat, n: nat)
    requires Good(s) && ENTRIES <= vp && vp + n <= VPAGES
    ensures Shrunk(s, UnloadPages(s, vp, n), Pages(vp, n))
    decreases n
  {
    hide UnloadPage, Pages, Shrunk, Good;
    if n == 0 {
      NothingShrunk(s);
      NoPages(vp);
    } else {
      UnloadPageShrinks(s, vp);
      var s1 := UnloadPage(s, vp);
      ShrunkGood(s, s1, {vp});
      UnloadPagesShrinks(s1, vp + 1, n - 1);
      PagesSplit(vp, n);
      ShrunkTrans(s, s1, UnloadPages(s1, vp + 1, n - 1), {vp}, Pages(vp + 1, n - 1));
    }
  }

  /** All the pages of an image. */
  function AllPages(segs: seq<Seg>): set<nat>
    decreases |segs|
  {
    if segs == [] then {} else Pages(segs[0].vp, segs[0].pages) + AllPages(segs[1..])
  }

  predicate SegsOk(segs: seq<Seg>) {
    forall i :: 0 <= i < |segs| ==> ENTRIES <= segs[i].vp && segs[i].vp + segs[i].pages <= VPAGES
  }

  ghost function Unload(s: Space, segs: seq<Seg>): Space
    decreases |segs|
  {
    if segs == [] then s else Unload(UnloadPages(s, segs[0].vp, segs[0].pages), segs[1..])
  }

  /** Unloading an image takes exactly its pages out of the map, and frees exactly their frames. */
  lemma {:induction false} UnloadShrinks(s: Space, segs: seq<Seg>)
    requires Good(s) && SegsOk(segs)
    ensures Shrunk(s, Unload(s, segs), AllPages(segs))
    decreases |segs|
  {
    hide Pages, Shrunk, Good, UnloadPages;
    if segs == [] {
      NothingShrunk(s);
    } else {
      var s1 := UnloadPages(s, segs[0].vp, segs[0].pages);
      UnloadPagesShrinks(s, segs[0].vp, segs[0].pages);
      ShrunkGood(s, s1, Pages(segs[0].vp, segs[0].pages));
      UnloadShrinks(s1, segs[1..]);
      ShrunkTrans(s, s1, Unload(s1, segs[1..]), Pages(segs[0].vp, segs[0].pages), AllPages(segs[1..]));
    }
  }

  // ---- nothing is lost ----

  /** The map and the pages held by allocator and tables together are as before. */
  ghost predicate Regained(s: Space, s': Space) {
    Good(s') && Translate(s') == Translate(s) && Spare(s') == Spare(s) && Tables(s) <= Tables(s')
  }

  /** Besides, every page in use has kept its contents. */
  ghost predicate Restored(s: Space, s': Space) { Regained(s, s') && Undisturbed(s, s') }

  lemma {:induction false} ShrunkUndoesAdded(s: Space, s1: Space, s2: Space, qs: set<nat>)
    requires Added(s, s1, qs) && Shrunk(s1, s2, qs)
    ensures Regained(s, s2) && (Undisturbed(s, s1) ==> Restored(s, s2))
  {
    hide Translate, Good, FramesOf, Tables;
    assert Translate(s2) == Translate(s);
    assert Spare(s2) == s1.free + FramesOf(s1, qs) + Tables(s1);
    assert Spare(s2) == Spare(s);
  }

  // ---- whole programs ----

  /** The first virtual page of a segment, and how many it takes; the sums are cut to 32 bits. */
  function FirstPage(ph: Phdr): nat { ph.vaddr / PAGE }

  function PageCount(ph: Phdr): nat {
    var end := (ph.vaddr + ph.memsz + PAGE - 1) % WORD / PAGE;
    if end <= FirstPage(ph) then 0 else end - FirstPage(ph)
  }

  predicate Wanted(ph: Phdr) { ph.kind == PT_LOAD && ph.memsz != 0 }

  function SegPages(ph: Phdr): set<nat> { Pages(FirstPage(ph), PageCount(ph)) }

  /** The segments lie above 4 MB, where nothing is mapped, and do not overlap by pages. */
  ghost predicate Clean(s: Space, phs: seq<Phdr>) {
    && (forall i :: 0 <= i < |phs| && Wanted(phs[i]) ==>
          ENTRIES <= FirstPage(phs[i]) && phs[i].vaddr < WORD && SegPages(phs[i]) !! Translate(s).Keys)
    && (forall i, j :: 0 <= i < j < |phs| && Wanted(phs[i]) && Wanted(phs[j]) ==> SegPages(phs[i]) !! SegPages(phs[j]))
  }

  /** A load returns a code, or halts in a page fault, or installs a table it has not zeroed and is lost sight of. */
  datatype Ending = Returned(code: int) | Halted | Lost

  /** clean: no page of this load has been filled in the place of another. */
  datatype Outcome = Outcome(segs: seq<Seg>, end: Ending, clean: bool)

  /** Load the segments in order; k are loaded already. */
  ghost function LoadAll(s: Space, file: seq<byte>, phs: seq<Phdr>, k: nat): (Space, Outcome)
    decreases |phs|
  {
    if phs == [] then (s, Outcome([], Returned(0), true))
    else
      var ph := phs[0];
      if !Wanted(ph) then LoadAll(s, file, phs[1..], k)
      else if (ph.offset + ph.filesz) % WORD > |file| then (s, Outcome([], Returned(-4), true))
      else if k >= MAX_SEGMENTS || PageCount(ph) == 0 then (s, Outcome([], Returned(-5), true))
      else
        var r := LoadPages(s, file, ph, FirstPage(ph), PageCount(ph));
        var seg := Seg(FirstPage(ph), r.n);
        if r.status == Done then
          var rest := LoadAll(r.s, file, phs[1..], k + 1);
          (rest.0, Outcome([seg] + rest.1.segs, rest.1.end, rest.1.clean && r.clean))
        else (r.s, Outcome([seg], EndOf(r.status), r.clean))
  }

  /** How a load ends whose page loop stops with a status other than Done. */
  function EndOf(status: Status): Ending {
    if status == Faulted then Halted else if status == Wild then Lost else Returned(-5)
  }

  lemma {:induction false} SpanFits(ph: Phdr)
    requires ph.vaddr < WORD
    ensures FirstPage(ph) + PageCount(ph) <= VPAGES
  {
  }

  lemma {:induction false} CleanTail(s: Space, phs: seq<Phdr>)
    requires phs != [] && Clean(s, phs)
    ensures Clean(s, phs[1..])
  {
    hide SegPages, Translate;
  }

  lemma {:induction false} CleanGrown(s: Space, s1: Space, phs: seq<Phdr>)
    requires phs != [] && Clean(s, phs) && Wanted(phs[0]) && Added(s, s1, SegPages(phs[0]))
    ensures Clean(s1, phs[1..])
  {
    AddedKeys(s, s1, SegPages(phs[0]));
    hide SegPages, Translate, Added;
  }

  lemma {:induction false} OneSegment(vp: nat, n: nat)
    ensures AllPages([Seg(vp, n)]) == Pages(vp, n)
  {
    assert AllPages([Seg(vp, n)][1..]) == {};
  }

  lemma {:induction false} MoreSegments(vp: nat, n: nat, segs: seq<Seg>)
    ensures AllPages([Seg(vp, n)] + segs) == Pages(vp, n) + AllPages(segs)
  {
    assert ([Seg(vp, n)] + segs)[1..] == segs;
  }

  /** However far the load gets, what is recorded is exactly what has been added. */
  lemma {:induction false} LoadAllGrows(s: Space, file: seq<byte>, phs: seq<Phdr>, k: nat)
    requires Good(s) && Clean(s, phs)
    ensures var r := LoadAll(s, file, phs, k);
            && (r.1.end.Returned? ==> Added(s, r.0, AllPages(r.1.segs)) && SegsOk(r.1.segs))
            && (r.1.end.Returned? && r.1.clean ==> Grown(s, r.0, AllPages(r.1.segs)))
    decreases |phs|
  {
    hide Good, Grown, Added, LoadPages, Pages, Translate, PageCount, FirstPage, Clean;
    if phs == [] {
      NothingGrown(s, 0);
    } else {
      var ph := phs[0];
      var n, vp := PageCount(ph), FirstPage(ph);
      if !Wanted(ph) {
        CleanTail(s, phs);
        LoadAllGrows(s, file, phs[1..], k);
      } else if (ph.offset + ph.filesz) % WORD > |file| || k >= MAX_SEGMENTS || n == 0 {
        NothingGrown(s, 0);
      } else {
        CleanHead(s, phs);
        SpanFits(ph);
        LoadPagesGrows(s, file, ph, vp, n);
        var r := LoadPages(s, file, ph, vp, n);
        OneSegment(vp, r.n);
        if r.status == Done {
          CleanGrown(s, r.s, phs);
          AddedKeys(s, r.s, SegPages(ph));
          var rest := LoadAll(r.s, file, phs[1..], k + 1);
          LoadAllGrows(r.s, file, phs[1..], k + 1);
          if rest.1.end.Returned? {
            AddedTrans(s, r.s, rest.0, Pages(vp, n), AllPages(rest.1.segs));
            MoreSegments(vp, n, rest.1.segs);
            if rest.1.clean && r.clean { GrownTrans(s, r.s, rest.0, Pages(vp, n), AllPages(rest.1.segs)); }
          }
        }
      }
    }
  }

  lemma {:induction false} CleanHead(s: Space, phs: seq<Phdr>)
    requires phs != [] && Clean(s, phs) && Wanted(phs[0])
    ensures ENTRIES <= FirstPage(phs[0]) && phs[0].vaddr < WORD
    ensures Pages(FirstPage(phs[0]), PageCount(phs[0])) !! Translate(s).Keys
  {
  }

  /**
   * Conservation: unloading what a load recorded, whether the load succeeded or failed part way, restores the map, and
   * every page unless a write went astray; only page tables made on demand stay, and they come out of the allocator.
   */
  lemma {:induction false} LoadThenUnload(s: Space, file: seq<byte>, phs: seq<Phdr>)
    requires Good(s) && Clean(s, phs)
    ensures var r := LoadAll(s, file, phs, 0);
            && (r.1.end.Returned? ==> Regained(s, Unload(r.0, r.1.segs)))
            && (r.1.end.Returned? && r.1.clean ==> Restored(s, Unload(r.0, r.1.segs)))
  {
    var r := LoadAll(s, file, phs, 0);
    LoadAllGrows(s, file, phs, 0);
    if r.1.end.Returned? {
      AddedKeys(s, r.0, AllPages(r.1.segs));
      UnloadShrinks(r.0, r.1.segs);
      ShrunkUndoesAdded(s, r.0, Unload(r.0, r.1.segs), AllPages(r.1.segs));
    }
  }

  // ---- the image ----

  lemma {:induction false} HoldsAllStays(s: Space, s': Space, qs: set<nat>, file: seq<byte>, ph: Phdr, vp: nat, n: nat)
    requires Good(s) && ENTRIES <= vp && ElfImage.Holds(s, file, ph, vp, n) && Grown(s, s', qs)
    ensures ElfImage.Holds(s', file, ph, vp, n)
  {
    hide Good, Grown, HoldsPage;
    forall q: nat | InRange(vp, n, q) ensures HoldsPage(s', file, ph, q) {
      assert HoldsPage(s, file, ph, q);
      HoldsStays(s, s', qs, file, ph, q);
    }
  }

  /** After a load that succeeds, every segment is in place. */
  lemma {:induction false} LoadedSegmentsHold(s: Space, file: seq<byte>, phs: seq<Phdr>, k: nat, i: nat)
    requires Good(s) && Clean(s, phs) && i < |phs| && Wanted(phs[i])
    requires var r := LoadAll(s, file, phs, k); r.1.end == Returned(0) && r.1.clean
    ensures ElfImage.Holds(LoadAll(s, file, phs, k).0, file, phs[i], FirstPage(phs[i]), PageCount(phs[i]))
    ensures (phs[i].offset + phs[i].filesz) % WORD <= |file|
    decreases |phs|
  {
    hide Good, Grown, Added, LoadPages, Pages, Translate, PageCount, FirstPage, Clean, ElfImage.Holds;
    var ph := phs[0];
    if !Wanted(ph) {
      CleanTail(s, phs);
      LoadedSegmentsHold(s, file, phs[1..], k, i - 1);
    } else {
      var vp, n := FirstPage(ph), PageCount(ph);
      CleanHead(s, phs);
      SpanFits(ph);
      LoadPagesGrows(s, file, ph, vp, n);
      var r := LoadPages(s, file, ph, vp, n);
      CleanGrown(s, r.s, phs);
      AddedKeys(s, r.s, SegPages(ph));
      var rest := LoadAll(r.s, file, phs[1..], k + 1);
      if i == 0 {
        LoadAllGrows(r.s, file, phs[1..], k + 1);
        HoldsAllStays(r.s, rest.0, AllPages(rest.1.segs), file, ph, vp, n);
      } else {
        LoadedSegmentsHold(r.s, file, phs[1..], k + 1, i - 1);
      }
    }
  }

  datatype Option<T> = None | Some(value: T)

  /** What the processor reads at a virtual address: through the tables to physical memory. */
  function ReadByte(s: Space, v: nat): Option<byte> {
    var f := Frame(Entry(s, v / PAGE));
    if Mapped(s, v / PAGE) && f < |s.mem| && v % PAGE < |s.mem[f]| then Some(s.mem[f][v % PAGE]) else None
  }

  lemma {:induction false} ReadIs(s: Space, v: nat)
    requires Wf(s) && v < WORD && v / PAGE in Translate(s) && Frame(Translate(s)[v / PAGE]) < TOTAL
    ensures |s.mem| == TOTAL && |s.mem[Frame(Translate(s)[v / PAGE])]| == PAGE
    ensures ReadByte(s, v) == Some(s.mem[Frame(Translate(s)[v / PAGE])][v % PAGE])
  {
    hide Entry, Frame, Present, TablesOk, NoAlias;
  }

  /**
   * The image: at every address of the page-rounded range of every segment, wherever in a page it starts and however
   * many pages it takes, the program reads the byte of the file that belongs there, and 0 past the file's part.
   */
  lemma {:induction false} ImageIsRight(s: Space, file: seq<byte>, phs: seq<Phdr>, i: nat, v: nat)
    requires Good(s) && Clean(s, phs) && i < |phs| && Wanted(phs[i])
    requires var r := LoadAll(s, file, phs, 0); r.1.end == Returned(0) && r.1.clean
    requires v < WORD && InRange(FirstPage(phs[i]), PageCount(phs[i]), v / PAGE)
    requires phs[i].vaddr + phs[i].filesz < WORD && phs[i].offset + phs[i].filesz < WORD
    ensures phs[i].offset + phs[i].filesz <= |file|
    ensures ReadByte(LoadAll(s, file, phs, 0).0, v) ==
            Some(if phs[i].vaddr <= v < phs[i].vaddr + phs[i].filesz then file[phs[i].offset + v - phs[i].vaddr] else 0)
  {
    hide LoadAll, Grown, Added, Clean, Translate, FirstPage, PageCount, PageImage, Private, Direct;
    hide ReadByte, ByteAt, Frame, Wf, AllPages;
    var ph, r := phs[i], LoadAll(s, file, phs, 0);
    LoadedSegmentsHold(s, file, phs, 0, i);
    LoadAllGrows(s, file, phs, 0);
    GrownKeys(s, r.0, AllPages(r.1.segs));
    assert HoldsPage(r.0, file, ph, v / PAGE);
    ReadIs(r.0, v);
    PageByte(file, ph, v);
    ByteMeaning(file, ph, v);
  }

  lemma {:induction false} PageByte(file: seq<byte>, ph: Phdr, v: nat)
    ensures PageImage(file, ph, v / PAGE)[v % PAGE] == ByteAt(file, ph, v)
  {
    hide ByteAt;
    assert v / PAGE * PAGE + v % PAGE == v;
  }

  lemma {:induction false} ByteMeaning(file: seq<byte>, ph: Phdr, v: nat)
    requires ph.vaddr + ph.filesz < WORD && ph.offset + ph.filesz < WORD && (ph.offset + ph.filesz) % WORD <= |file|
    ensures ph.offset + ph.filesz <= |file|
    ensures ByteAt(file, ph, v) == if ph.vaddr <= v < ph.vaddr + ph.filesz then file[ph.offset + v - ph.vaddr] else 0
  {
  }

  /** What was mapped before still reads the same, and nothing else has appeared. */
  lemma {:induction false} LoadDisturbsNothing(s: Space, file: seq<byte>, phs: seq<Phdr>, v: nat)
    requires Good(s) && Clean(s, phs) && ENTRIES * PAGE <= v < WORD
    ensures var r := LoadAll(s, file, phs, 0);
            r.1.end.Returned? && r.1.clean ==>
              && (v / PAGE in Translate(s) ==> ReadByte(r.0, v) == ReadByte(s, v))
              && (v / PAGE !in Translate(s) && v / PAGE !in AllPages(r.1.segs) ==> ReadByte(r.0, v) == None)
  {
    var r := LoadAll(s, file, phs, 0);
    LoadAllGrows(s, file, phs, 0);
    if r.1.end.Returned? && r.1.clean { GrownReads(s, r.0, AllPages(r.1.segs), v); }
  }

  lemma {:induction false} GrownReads(s: Space, s': Space, qs: set<nat>, v: nat)
    requires Good(s) && Grown(s, s', qs) && ENTRIES * PAGE <= v < WORD
    ensures v / PAGE in Translate(s) ==> ReadByte(s', v) == ReadByte(s, v)
    ensures v / PAGE !in Translate(s) && v / PAGE !in qs ==> ReadByte(s', v) == None
  {
    GrownKeys(s, s', qs);
    hide Private, Direct, ReadByte;
    if v / PAGE in Translate(s) {
      MappedFrame(s, v / PAGE);
      ReadIs(s, v);
      ReadIs(s', v);
    } else if v / PAGE !in qs {
      ReadNone(s', v);
    }
  }

  lemma {:induction false} ReadNone(s: Space, v: nat)
    requires Wf(s) && v < WORD && v / PAGE !in Translate(s)
    ensures ReadByte(s, v) == None
  {
    hide Entry, Frame;
    assert v / PAGE in Translate(s) <==> Mapped(s, v / PAGE);
  }
}
