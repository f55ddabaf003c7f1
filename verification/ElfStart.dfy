/**
 * The first load after start-up: how many pages there are for it, and programs on which the code goes right or wrong.
 */
module ElfStart {
  import opened Bytes
  import opened PhysicalPages
  import opened PageTables
  import opened ElfImage
  import opened ElfRuns
  import opened ElfRoom
  import ElfOverlap

  /** The state pmm_init and paging_init leave on a machine with memory map map_. */
  ghost predicate AsStarted(s: Space, map_: seq<Region>) {
    && Wf(s) && s.free == InitialPages(map_) && (forall d: nat :: HasTable(s, d) <==> d == 0) && s.dir[0] % 8 == 7
    && Translate(s) == map vp: nat | vp < 1024 :: vp * 0x1000 + 7
  }

  lemma {:induction false} StartIsGood(s: Space, map_: seq<Region>)
    requires AsStarted(s, map_)
    ensures Good(s) && forall q: nat :: q < VPAGES ==> (q in Translate(s) <==> q < ENTRIES)
  {
    hide Wf, Entry, Frame, Present, InitialPages, HasTable;
    forall q: nat | q < VPAGES
      ensures (Mapped(s, q) <==> q < ENTRIES) && (q < ENTRIES ==> Entry(s, q) == q * PAGE + TABLE_FLAGS)
    {
      KeysAreMapped(s, q);
      if q < ENTRIES { assert Translate(s)[q] == q * PAGE + TABLE_FLAGS; }
    }
    forall p: nat | p < FRAMES ensures Leads(s, p, p) { FrameOfEntry(p); }
  }

  lemma {:induction false} FrameOfEntry(p: nat)
    ensures Frame(p * PAGE + TABLE_FLAGS) == p
  {
    PteParts(p, TABLE_FLAGS);
  }

  // ---- how many pages there are ----

  /** A usable region of the map that holds the memory from 1 MB up to page n. */
  predicate Holds(map_: seq<Region>, e: Region, n: nat) {
    e in map_ && Small(e) && e.kind == USABLE && e.base <= LOW_MEMORY && n * PAGE <= e.base + e.length
  }

  lemma {:induction false} StartsAbove(map_: seq<Region>, p: nat)
    ensures p in InitialPages(map_) ==> LOW_MEMORY / PAGE <= p
  {
  }

  lemma {:induction false} PageAtStart(map_: seq<Region>, e: Region, n: nat, p: nat)
    requires Holds(map_, e, n) && LOW_MEMORY / PAGE <= p < n <= TOTAL
    ensures p in InitialPages(map_)
  {
    assert Inside(e, p);
    WholePagesAreFreed(e, p);
    var i :| 0 <= i < |map_| && map_[i] == e;
    assert Frees(map_[i], p);
  }

  /** With the memory from 1 MB to 4 MB usable, 768 free pages lie below 4 MB at start-up. */
  lemma {:induction false} RoomAtStart(map_: seq<Region>, e: Region, s: Space)
    requires Holds(map_, e, FRAMES) && s.free == InitialPages(map_)
    ensures |Low(s)| == 768
  {
    forall p: nat ensures p in Low(s) <==> p in Span(LOW_MEMORY / PAGE, FRAMES) {
      if LOW_MEMORY / PAGE <= p < FRAMES { PageAtStart(map_, e, FRAMES, p); }
      StartsAbove(map_, p);
    }
    SameSets(Low(s), Span(LOW_MEMORY / PAGE, FRAMES));
    SpanCard(LOW_MEMORY / PAGE, FRAMES);
  }

  lemma {:induction false} SpanCard(lo: nat, hi: nat)
    requires lo <= hi <= TOTAL
    ensures |Span(lo, hi)| == hi - lo
    decreases hi - lo
  {
    hide Span;
    if lo < hi {
      SpanCard(lo, hi - 1);
      SpanNext(lo, hi - 1);
      SpanBelow(lo, hi - 1);
    } else {
      SpanEmpty(lo, hi);
    }
  }

  lemma {:induction false} SpanBelow(lo: nat, hi: nat)
    ensures hi !in Span(lo, hi)
  {
  }

  /**
   The first load after start-up returns 0 with every page in its place exactly if its headers are in order and it
   needs at most 768 pages, tables included, or it is short of pages only for the last ones, all their tables are paid
   for, and these happen to be the lowest free pages above 4 MB, in order.
   */
  lemma {:induction false} FirstLoadIsRightIff(map_: seq<Region>, e: Region, s: Space, file: seq<byte>, phs: seq<Phdr>)
    requires Holds(map_, e, FRAMES) && AsStarted(s, map_) && Clean(s, phs)
    ensures Good(s)
    ensures var r, qs := LoadAll(s, file, phs, 0).1, Demand(file, phs, 0);
            var m := |NewTables(s, ToSet(qs))|;
            r.end == Returned(0) && r.clean <==>
            && Verdict(file, phs, 0) == 0
            && (|ToSet(qs)| + m <= 768 || (Spills(s, qs) && 768 - m == Below(s, qs) && InOrder(High(s), qs[768 - m..])))
  {
    StartIsGood(s, map_);
    hide AsStarted, Good, Clean, LoadAll, Verdict, Demand, NewTables, InitialPages, Translate, Low, High;
    StartFree(s, map_);
    RoomAtStart(map_, e, s);
    LoadIsRightIff(s, file, phs);
  }

  lemma {:induction false} StartFree(s: Space, map_: seq<Region>)
    requires AsStarted(s, map_)
    ensures s.free == InitialPages(map_)
  {
  }

  // ---- programs in the second 4 MB ----

  /** Pages in the second 4 MB need one table, which is not there at start-up. */
  lemma {:induction false} OneTable(s: Space, map_: seq<Region>, qs: seq<nat>)
    requires AsStarted(s, map_) && qs != [] && forall q :: q in qs ==> ENTRIES <= q < 2 * ENTRIES
    ensures NewTables(s, ToSet(qs)) == {1} && |NewTables(s, ToSet(qs))| == 1
  {
    hide Wf, InitialPages, HasTable, Translate;
    forall d ensures d in DirsOf(ToSet(qs)) <==> d == 1 {
      if d in DirsOf(ToSet(qs)) {
        var q :| q in ToSet(qs) && Dir(q) == d;
        assert q in qs;
        SecondDir(q);
      }
      if d == 1 {
        assert qs[0] in qs && qs[0] in ToSet(qs);
        SecondDir(qs[0]);
      }
    }
    assert NewTables(s, ToSet(qs)) == {1};
  }

  lemma {:induction false} SecondDir(q: nat)
    requires ENTRIES <= q < 2 * ENTRIES
    ensures Dir(q) == 1
  {
  }

  /** The pages from h up to h + n are in a. */
  predicate Run(h: nat, n: nat, a: set<nat>) { forall p: nat :: h <= p < h + n ==> p in a }

  /** The lowest free pages above 4 MB at start-up. */
  lemma {:induction false} LowestAbove(s: Space, map_: seq<Region>, e: Region, n: nat)
    requires Holds(map_, e, FRAMES + n) && FRAMES + n <= TOTAL && s.free == InitialPages(map_)
    ensures Run(FRAMES, n, High(s)) && forall p :: p in High(s) ==> p >= FRAMES
  {
    hide InitialPages;
    forall p: nat | FRAMES <= p < FRAMES + n ensures p in High(s) { PageAtStart(map_, e, FRAMES + n, p); }
  }

  /** A header that asks for n zeroed pages from page vp on. */
  function ZeroSegment(vp: nat, n: nat): Phdr { Phdr(PT_LOAD, 0, vp * PAGE, 0, n * PAGE) }

  lemma {:induction false} ZeroSegmentPages(vp: nat, n: nat)
    requires 0 < n && vp + n < VPAGES
    ensures var ph := ZeroSegment(vp, n);
            Wanted(ph) && FirstPage(ph) == vp && PageCount(ph) == n && ph.vaddr < WORD
            && forall file :: !Overruns(file, ph)
  {
    var end := vp * PAGE + n * PAGE + PAGE - 1;
    assert vp * PAGE / PAGE == vp;
    assert end == (vp + n) * PAGE + (PAGE - 1);
    PteParts(vp + n, PAGE - 1);
    assert end < WORD;
  }

  lemma {:induction false} DemandOne(ph: Phdr, k: nat)
    requires Wanted(ph) && !Overruns([], ph) && PageCount(ph) > 0 && k < MAX_SEGMENTS
    ensures Demand([], [ph], k) == PageList(FirstPage(ph), PageCount(ph)) && Verdict([], [ph], k) == 0
  {
    hide PageList, PageCount, FirstPage;
    assert [ph][1..] == [];
    assert PageList(FirstPage(ph), PageCount(ph)) + [] == PageList(FirstPage(ph), PageCount(ph));
  }

  lemma {:induction false} DemandTwo(a: Phdr, b: Phdr)
    requires Wanted(a) && !Overruns([], a) && PageCount(a) > 0 && Wanted(b) && !Overruns([], b) && PageCount(b) > 0
    ensures Demand([], [a, b], 0) == PageList(FirstPage(a), PageCount(a)) + PageList(FirstPage(b), PageCount(b))
    ensures Verdict([], [a, b], 0) == 0
  {
    hide PageList, PageCount, FirstPage, Overruns, Wanted;
    assert [a, b][0] == a && [a, b][1..] == [b];
    DemandOne(b, 1);
  }

  lemma {:induction false} PagesAbove(s: Space, map_: seq<Region>, vp: nat, n: nat)
    requires AsStarted(s, map_) && ENTRIES <= vp
    ensures Pages(vp, n) !! Translate(s).Keys
  {
  }

  /**
   769 pages and tables on a machine with 768 below 4 MB: 767 pages from 0x406000 on and one at 0x400000, which gets
   page 1024 and is filled through the address 0x400000. The load returns 0 with every page in its place.
   */
  lemma {:induction false} OnePageMoreFits(map_: seq<Region>, e: Region, s: Space)
    requires Holds(map_, e, FRAMES + 1) && AsStarted(s, map_)
    ensures var r := LoadAll(s, [], [ZeroSegment(1030, 767), ZeroSegment(FRAMES, 1)], 0).1;
            r.end == Returned(0) && r.clean
  {
    var a, b := ZeroSegment(1030, 767), ZeroSegment(FRAMES, 1);
    var qs := PageList(1030, 767) + PageList(FRAMES, 1);
    hide AsStarted, Good, Clean, LoadAll, InitialPages, Translate, Low, High, ZeroSegment, Placed, PageList, PageCount;
    hide Pages;
    StartIsGood(s, map_);
    ZeroSegmentPages(1030, 767);
    ZeroSegmentPages(FRAMES, 1);
    PagesAbove(s, map_, 1030, 767);
    PagesAbove(s, map_, FRAMES, 1);
    PagesApart(1030, 767, FRAMES, 1);
    CleanTwo(s, a, b);
    StartFree(s, map_);
    RoomAtStart(map_, e, s);
    LowestAbove(s, map_, e, 1);
    TwoRuns(s, map_, qs);
    DemandTwo(a, b);
    LoadIsRightIff(s, [], [a, b]);
  }

  lemma {:induction false} PagesApart(vp: nat, n: nat, wp: nat, m: nat)
    requires wp + m <= vp
    ensures Pages(vp, n) !! Pages(wp, m)
  {
  }

  lemma {:induction false} CleanTwo(s: Space, a: Phdr, b: Phdr)
    requires ENTRIES <= FirstPage(a) && a.vaddr < WORD && SegPages(a) !! Translate(s).Keys
    requires ENTRIES <= FirstPage(b) && b.vaddr < WORD && SegPages(b) !! Translate(s).Keys
    requires SegPages(a) !! SegPages(b)
    ensures Clean(s, [a, b])
  {
    hide SegPages, Translate, FirstPage, Wanted;
  }

  lemma {:induction false} TwoRuns(s: Space, map_: seq<Region>, qs: seq<nat>)
    requires AsStarted(s, map_) && qs == PageList(1030, 767) + PageList(FRAMES, 1) && |Low(s)| == 768
    requires Run(FRAMES, 1, High(s)) && forall p :: p in High(s) ==> p >= FRAMES
    ensures Placed(s, qs)
  {
    hide AsStarted, PageList, Low, High, NewTables, Cost;
    PageListAt(1030, 767, 0);
    PageListAt(FRAMES, 1, 0);
    assert qs[767..] == [FRAMES] && qs[..767] == PageList(1030, 767);
    RunWithin(1030, 767);
    RunWithin(FRAMES, 1);
    OneTable(s, map_, qs);
    OneTable(s, map_, qs[..767]);
    assert FRAMES in High(s);
    LowestIs(FRAMES, High(s));
    assert InOrder(High(s), [FRAMES]);
  }

  lemma {:induction false} RunWithin(vp: nat, n: nat)
    requires ENTRIES <= vp && vp + n <= 2 * ENTRIES
    ensures forall q :: q in PageList(vp, n) ==> ENTRIES <= q < 2 * ENTRIES
  {
    hide PageList;
    forall q | q in PageList(vp, n) ensures ENTRIES <= q < 2 * ENTRIES { PageListIs(vp, n, q); }
  }

  /** Consecutive pages above, whose addresses are all mapped, are reached. */
  lemma {:induction false} ReachedRun(mapped: set<nat>, high: set<nat>, h: nat, ts: seq<nat>)
    requires (forall p :: p in high ==> p >= h) && Run(h, |ts|, high) && Run(h, |ts|, mapped)
    ensures Reached(mapped, high, ts)
    decreases |ts|
  {
    if ts != [] {
      assert h in high && h in mapped;
      LowestIs(h, high);
      ReachedRun(mapped + {ts[0]}, high - {h}, h + 1, ts[1..]);
    }
  }

  /** A program of 1000 pages linked at 4 MB: the load returns 0, having overwritten its own first pages. */
  lemma {:induction false} LongProgramOverwritesItself(map_: seq<Region>, e: Region, s: Space)
    requires Holds(map_, e, FRAMES + 233) && AsStarted(s, map_)
    ensures var r := LoadAll(s, [], [ZeroSegment(FRAMES, 1000)], 0).1; r.end == Returned(0) && !r.clean
  {
    hide AsStarted, Good, Clean, LoadAll, InitialPages, Translate, Low, High, ZeroSegment, Carried, Placed, PageList;
    hide PageCount, Pages;
    var ph := ZeroSegment(FRAMES, 1000);
    StartIsGood(s, map_);
    ZeroSegmentPages(FRAMES, 1000);
    PagesAbove(s, map_, FRAMES, 1000);
    CleanOne(s, ph);
    StartFree(s, map_);
    assert Holds(map_, e, FRAMES);
    RoomAtStart(map_, e, s);
    LowestAbove(s, map_, e, 233);
    LongRun(s, map_, PageList(FRAMES, 1000));
    DemandOne(ph, 0);
    LoadSucceedsIff(s, [], [ph]);
    LoadIsRightIff(s, [], [ph]);
  }

  lemma {:induction false} CleanOne(s: Space, a: Phdr)
    requires ENTRIES <= FirstPage(a) && a.vaddr < WORD && SegPages(a) !! Translate(s).Keys
    ensures Clean(s, [a])
  {
    hide SegPages, Translate, FirstPage, Wanted;
  }

  lemma {:induction false} LongRun(s: Space, map_: seq<Region>, qs: seq<nat>)
    requires AsStarted(s, map_) && qs == PageList(FRAMES, 1000) && |Low(s)| == 768
    requires Run(FRAMES, 233, High(s)) && forall p :: p in High(s) ==> p >= FRAMES
    ensures Carried(s, qs) && !Placed(s, qs)
  {
    hide AsStarted, PageList, Low, High, NewTables, Translate;
    forall i: nat | i < 1000 ensures |qs| == 1000 && qs[i] == FRAMES + i { PageListAt(FRAMES, 1000, i); }
    assert |qs| == 1000 by { PageListAt(FRAMES, 1000, 0); }
    RunWithin(FRAMES, 1000);
    OneTable(s, map_, qs);
    OneTable(s, map_, qs[..767]);
    var mapped := Translate(s).Keys + ToSet(qs[..767]);
    forall p: nat | FRAMES <= p < FRAMES + 233 ensures p in mapped { assert qs[..767][p - FRAMES] == p; }
    ReachedRun(mapped, High(s), FRAMES, qs[767..]);
    assert FRAMES in High(s);
    LowestIs(FRAMES, High(s));
    assert qs[767..][0] == FRAMES + 767;
    forall q: nat ensures q in ToSet(qs) <==> q in Pages(FRAMES, 1000) { PageListIs(FRAMES, 1000, q); }
    SameSets(ToSet(qs), Pages(FRAMES, 1000));
    PagesCard(FRAMES, 1000);
  }

  /** The map of a machine whose only usable memory is two pages just above 4 MB. */
  function TwoPages(): seq<Region> { [Region(FRAMES * PAGE, 2 * PAGE, USABLE)] }

  lemma {:induction false} TwoPagesFree()
    ensures InitialPages(TwoPages()) == {FRAMES, FRAMES + 1}
  {
    var e := Region(FRAMES * PAGE, 2 * PAGE, USABLE);
    NoTruncation(e);
    forall p: nat | p < TOTAL ensures FreedBySome(TwoPages(), p) <==> p == FRAMES || p == FRAMES + 1 {
      assert FreedBySome(TwoPages(), p) <==> Frees(TwoPages()[0], p);
    }
  }

  /**
   * There, a program of one byte at 4 MB halts the kernel: its table is to lie in a page whose address is not mapped.
   */
  lemma {:induction false} OneByteHalts(s: Space)
    requires AsStarted(s, TwoPages())
    ensures LoadAll(s, [], [Phdr(PT_LOAD, 0, FRAMES * PAGE, 0, 1)], 0).1.end == Halted
  {
    var ph := Phdr(PT_LOAD, 0, FRAMES * PAGE, 0, 1);
    hide AsStarted, Good, Translate, Low, High, InitialPages, HasTable, Mapped, LoadPage, PageCount, FirstPage;
    hide TwoPages, Wanted, Dir, LoadAll, Overruns;
    StartIsGood(s, TwoPages());
    StartFree(s, TwoPages());
    StartTables(s, TwoPages());
    TwoPagesFree();
    TwoHigh(s);
    OneBytePage(ph);
    SecondDir(FRAMES);
    KeysAreMapped(s, FRAMES + 1);
    LoadPageTable(s, [], ph, FRAMES);
    FirstPageHalts(s, ph, FRAMES);
  }

  lemma {:induction false} FirstPageHalts(s: Space, ph: Phdr, vp: nat)
    requires Wanted(ph) && !Overruns([], ph) && PageCount(ph) == 1 && FirstPage(ph) == vp
    requires LoadPage(s, [], ph, vp).1 == Faulted
    ensures LoadAll(s, [], [ph], 0).1.end == Halted
  {
    hide LoadPage, PageCount, FirstPage, Wanted, Overruns;
    OverrunIs([], ph);
    assert LoadPages(s, [], ph, vp, 1).status == Faulted;
  }

  lemma {:induction false} StartTables(s: Space, map_: seq<Region>)
    requires AsStarted(s, map_)
    ensures !HasTable(s, 1)
  {
  }

  lemma {:induction false} TwoHigh(s: Space)
    requires s.free == {FRAMES, FRAMES + 1}
    ensures Low(s) == {} && |s.free| == 2 && Lowest(s.free) == FRAMES
    ensures High(s) - {FRAMES} == {FRAMES + 1} && Lowest({FRAMES + 1}) == FRAMES + 1
  {
    assert Low(s) == {} && High(s) == {FRAMES, FRAMES + 1};
    LowestIs(FRAMES, s.free);
    LowestIs(FRAMES + 1, {FRAMES + 1});
  }

  lemma {:induction false} OneBytePage(ph: Phdr)
    requires ph == Phdr(PT_LOAD, 0, FRAMES * PAGE, 0, 1)
    ensures FirstPage(ph) == FRAMES && PageCount(ph) == 1 && Wanted(ph) && !Overruns([], ph)
  {
    assert (ph.vaddr + ph.memsz + PAGE - 1) % WORD / PAGE == FRAMES + 1;
  }

  // ---- a page asked for twice ----

  /** A page that is mapped already is mapped again, to the next free page, if that lies below 4 MB. */
  lemma {:induction false} LoadPageAgain(s: Space, file: seq<byte>, ph: Phdr, vp: nat)
    requires Good(s) && ENTRIES <= vp < VPAGES && HasTable(s, Dir(vp)) && Low(s) != {}
    ensures LoadPage(s, file, ph, vp).1 == Done
  {
    hide Good, MapPage, PageImage, Translate, Entry, Undisturbed, Tables, Spare, LoadPage, HasTable;
    LowestIsLow(s);
    var t := Lowest(s.free);
    var s1 := s.(free := s.free - {t});
    TakeOne(s);
    LoadPageIs(s, file, ph, vp);
    WfOfGood(s1);
    SameTables(s, s1, vp);
    FreeNowhere(s, s1, t);
    MapOne(s1, vp, t);
    PageTaken(s, t, vp);
    var s2 := MapPage(s1, vp * PAGE, t * PAGE, USER_FLAGS).0;
    WhereItLeads(s2, t, vp);
    SizeOfGood(s2);
  }

  lemma {:induction false} SizeOfGood(s: Space)
    requires Good(s)
    ensures |s.mem| == TOTAL
  {
  }

  lemma {:induction false} SameTables(s: Space, s1: Space, vp: nat)
    requires s1.dir == s.dir && s1.mem == s.mem
    ensures HasTable(s1, Dir(vp)) <==> HasTable(s, Dir(vp))
  {
  }

  lemma {:induction false} FreeNowhere(s: Space, s1: Space, t: nat)
    requires t !in Spare(s1)
    ensures Plain(s1, t)
  {
    TableMember(s1, t);
  }

  lemma {:induction false} OnePage(s: Space, file: seq<byte>, ph: Phdr, vp: nat)
    requires LoadPage(s, file, ph, vp).1 == Done
    ensures LoadPages(s, file, ph, vp, 1) == Loaded(LoadPage(s, file, ph, vp).0, 1, Done, true)
  {
    hide LoadPage;
    var s1 := LoadPage(s, file, ph, vp).0;
    assert LoadPages(s1, file, ph, vp + 1, 0) == Loaded(s1, 0, Done, true);
  }

  lemma {:induction false} LoadTwo(s: Space, a: Phdr, vp: nat)
    requires Wanted(a) && !Overruns([], a) && PageCount(a) == 1 && FirstPage(a) == vp
    requires LoadPage(s, [], a, vp).1 == Done && LoadPage(LoadPage(s, [], a, vp).0, [], a, vp).1 == Done
    ensures LoadAll(s, [], [a, a], 0).1.end == Returned(0)
  {
    hide LoadPage, LoadPages, PageCount, FirstPage, Wanted, Overruns;
    var s1 := LoadPage(s, [], a, vp).0;
    OverrunIs([], a);
    OnePage(s, [], a, vp);
    OnePage(s1, [], a, vp);
    var s2 := LoadPage(s1, [], a, vp).0;
    assert [a, a][0] == a && [a, a][1..] == [a] && [a][1..] == [];
    assert LoadAll(s2, [], [], 2).1.end == Returned(0);
    assert LoadAll(s1, [], [a], 1).1.end == Returned(0);
  }

  lemma {:induction false} TwiceIsNotClean(s: Space, a: Phdr)
    requires Wanted(a) && SegPages(a) != {} && ENTRIES <= FirstPage(a) && a.vaddr < WORD
    requires SegPages(a) !! Translate(s).Keys
    ensures ElfOverlap.Apart(s, [a, a]) && !Clean(s, [a, a])
  {
    hide SegPages, Translate, FirstPage, Wanted;
    var phs := [a, a];
    assert phs[0] == a && phs[1] == a;
  }

  /** Two segments of one page at 4 MB: the load returns 0, and unloading does not give back all pages. */
  lemma {:induction false} SharedPageIsLost(map_: seq<Region>, e: Region, s: Space)
    requires Holds(map_, e, FRAMES) && AsStarted(s, map_)
    ensures var r := LoadAll(s, [], [ZeroSegment(FRAMES, 1), ZeroSegment(FRAMES, 1)], 0);
            r.1.end == Returned(0) && !Regained(s, Unload(r.0, r.1.segs))
  {
    hide AsStarted, Good, LoadAll, InitialPages, Translate, Low, High, ZeroSegment, LoadPage, PageCount, FirstPage;
    hide Regained, Unload, Holds, Wanted, Overruns, Added, Grown;
    var a := ZeroSegment(FRAMES, 1);
    StartIsGood(s, map_);
    StartFree(s, map_);
    RoomAtStart(map_, e, s);
    ZeroSegmentPages(FRAMES, 1);
    PagesAbove(s, map_, FRAMES, 1);
    CostOne(s, FRAMES);
    LoadPageFate(s, [], a, FRAMES);
    LoadPageGrows(s, [], a, FRAMES);
    var s1 := LoadPage(s, [], a, FRAMES).0;
    GrownKeys(s, s1, {FRAMES});
    assert Low(s1) != {} by { CardZero(Low(s1)); }
    LoadPageAgain(s1, [], a, FRAMES);
    LoadTwo(s, a, FRAMES);
    FirstIn(FRAMES, 1);
    TwiceIsNotClean(s, a);
    ElfOverlap.ConservesIffClean(s, [], [a, a]);
  }
}
