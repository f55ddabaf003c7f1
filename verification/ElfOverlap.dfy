/** Segments that share pages: what a load of them loses. */
module ElfOverlap {
  import opened Bytes
  import opened PhysicalPages
  import opened PageTables
  import opened ElfImage
  import opened ElfRuns

  /**
   * s is s0 with the virtual pages qs added, whichever frames they were given last. Of the pages that were spare, some
   * are still spare, some are mapped at qs, and the rest are lost: neither the allocator nor any map knows them.
   */
  ghost predicate Over(s0: Space, s: Space, qs: set<nat>, lost: set<nat>) {
    && Good(s) && Tables(s0) <= Tables(s)
    && Translate(s).Keys == Translate(s0).Keys + qs && qs !! Translate(s0).Keys
    && (forall q :: q in Translate(s0) ==> Translate(s)[q] == Translate(s0)[q])
    && Spare(s0) == Spare(s) + FramesOf(s, qs) + lost
    && FramesOf(s, qs) !! Spare(s) && lost !! Spare(s) && lost !! FramesOf(s, qs)
  }

  lemma {:induction false} OverNothing(s: Space)
    requires Good(s)
    ensures Over(s, s, {}, {}) && Undisturbed(s, s)
  {
    hide Translate, Frame, Tables;
    assert FramesOf(s, {}) == {};
  }

  // ---- one page ----

  /** Two pages above 4 MB have different frames. */
  lemma {:induction false} FramesApart(s: Space, qs: set<nat>, vp: nat)
    requires Good(s) && ENTRIES <= vp && vp !in qs && forall q :: q in qs ==> ENTRIES <= q
    ensures FramesOf(s, qs) !! FramesOf(s, {vp})
  {
    hide Entry, Frame, Present;
    assert forall q :: q in Translate(s) ==> q < VPAGES && Mapped(s, q) && Translate(s)[q] == Entry(s, q);
  }

  lemma {:induction false} NewFrames(s: Space, s2: Space, qs: set<nat>, vp: nat, t: nat)
    requires Good(s) && Translate(s2) == Translate(s)[vp := t * PAGE + 7] && 1 <= t < TOTAL
    ensures FramesOf(s2, qs + {vp}) == FramesOf(s, qs - {vp}) + {t}
  {
    hide Good, Translate;
    PteFields(t, 7);
    assert Frame(t * PAGE + 7) == t;
    hide Frame;
    FramesOne(s2, vp);
    FramesSplit(s2, qs - {vp}, {vp});
    assert FramesOf(s2, qs - {vp}) == FramesOf(s, qs - {vp});
    assert qs - {vp} + {vp} == qs + {vp};
  }

  /** A page mapped at vp in the place of another: the frame that was there is lost. */
  lemma {:induction false} OverMapped(s0: Space, s: Space, qs: set<nat>, lost: set<nat>, vp: nat, t: nat, s2: Space)
    requires Over(s0, s, qs, lost) && ENTRIES <= vp < VPAGES && vp !in Translate(s0)
    requires forall q :: q in qs ==> ENTRIES <= q
    requires Good(s2) && t in s.free && 1 <= t < TOTAL && Tables(s) <= Tables(s2)
    requires Spare(s) == Spare(s2) + {t} && t !in Spare(s2) && Translate(s2) == Translate(s)[vp := t * PAGE + 7]
    ensures Over(s0, s2, qs + {vp}, lost + FramesOf(s, {vp}))
  {
    hide Good, Tables, Translate, FramesOf, Spare;
    FramesApart(s, qs - {vp}, vp);
    NewFrames(s, s2, qs, vp, t);
    OldFrames(s0, s, qs, vp);
    assert Translate(s2).Keys == Translate(s0).Keys + (qs + {vp});
  }

  lemma {:induction false} OldFrames(s0: Space, s: Space, qs: set<nat>, vp: nat)
    requires Translate(s).Keys == Translate(s0).Keys + qs && vp !in Translate(s0)
    ensures FramesOf(s, qs) == FramesOf(s, qs - {vp}) + FramesOf(s, {vp})
    ensures vp !in qs ==> FramesOf(s, {vp}) == {}
  {
    hide Translate, Frame;
    FramesSplit(s, qs - {vp}, {vp});
    if vp in qs { assert qs - {vp} + {vp} == qs; } else { assert qs - {vp} == qs; }
  }

  lemma {:induction false} OneMoreLost(s0: Space, s: Space, qs: set<nat>, lost: set<nat>, vp: nat)
    requires Over(s0, s, qs, lost) && vp !in Translate(s0)
    ensures |lost + FramesOf(s, {vp})| + |qs + {vp}| == |lost| + |qs| + 1
  {
    hide Good, Tables, Translate, Frame;
    OldFrames(s0, s, qs, vp);
    if vp in qs {
      FramesOne(s, vp);
      assert qs + {vp} == qs;
    } else {
      assert lost + {} == lost;
    }
  }

  /** Writing to a page that is no table loses nothing. */
  lemma {:induction false} WriteKeepsOver(s0: Space, s: Space, qs: set<nat>, lost: set<nat>, f: nat, page: seq<byte>)
    requires Over(s0, s, qs, lost) && f < TOTAL && f !in Tables(s) && |page| == PAGE && |s.mem| == TOTAL
    ensures var s' := s.(mem := s.mem[f := page]);
            && Over(s0, s', qs, lost) && (Undisturbed(s0, s) && f in Spare(s0) ==> Undisturbed(s0, s'))
  {
    hide Good, Tables, Translate, Frame;
    var s' := s.(mem := s.mem[f := page]);
    PlainWrite(s, f, page);
    assert Spare(s') == Spare(s);
    assert FramesOf(s', qs) == FramesOf(s, qs);
  }

  ghost predicate Above(qs: set<nat>) { forall q :: q in qs ==> ENTRIES <= q }

  /** One page more, at a virtual page that may be taken already by this load. */
  lemma {:induction false} OverLoaded(s0: Space, s: Space, qs: set<nat>, lost: set<nat>, file: seq<byte>, ph: Phdr,
                                      vp: nat)
    requires Over(s0, s, qs, lost) && Above(qs) && ENTRIES <= vp < VPAGES && vp !in Translate(s0)
    ensures var r := LoadPage(s, file, ph, vp);
            && (r.1 == Refused ==> r.0 == s)
            && (GoesOn(r.1) ==> Over(s0, r.0, qs + {vp}, lost + FramesOf(s, {vp})))
            && (r.1 == Done && Undisturbed(s0, s) ==> Undisturbed(s0, r.0))
  {
    hide MapPage, PageImage, Good, LoadPage, Over, Undisturbed, Translate, FramesOf, FillAt;
    var r := LoadPage(s, file, ph, vp);
    OverGood(s0, s, qs, lost);
    if s.free == {} {
      NoPageLeft(s, file, ph, vp);
    } else if GoesOn(r.1) {
      LoadPageIs(s, file, ph, vp);
      OverFilled(s0, s, qs, lost, Lowest(s.free), vp, PageImage(file, ph, vp));
    } else if r.1 == Refused {
      RefusedIsQuiet(s, file, ph, vp);
    }
  }

  lemma {:induction false} OverGood(s0: Space, s: Space, qs: set<nat>, lost: set<nat>)
    requires Over(s0, s, qs, lost)
    ensures Good(s) && |s.mem| == TOTAL && Spare(s) <= Spare(s0)
  {
  }

  lemma {:induction false} OverFilled(s0: Space, s: Space, qs: set<nat>, lost: set<nat>, t: nat, vp: nat,
                                      page: seq<byte>)
    requires Over(s0, s, qs, lost) && Above(qs) && Good(s) && ENTRIES <= vp < VPAGES && vp !in Translate(s0)
    requires |page| == PAGE
    requires s.free != {} && t == Lowest(s.free) && vp * PAGE < WORD && t * PAGE < WORD
    requires MapPage(s.(free := s.free - {t}), vp * PAGE, t * PAGE, USER_FLAGS).1 == Done
    ensures var r := FillAt(MapPage(s.(free := s.free - {t}), vp * PAGE, t * PAGE, USER_FLAGS).0, t, page);
            && (GoesOn(r.1) ==> Over(s0, r.0, qs + {vp}, lost + FramesOf(s, {vp})))
            && (r.1 == Done && Undisturbed(s0, s) ==> Undisturbed(s0, r.0))
  {
    hide MapPage, Good, Over, Undisturbed, Translate, FramesOf, Tables, Spare;
    PageTaken(s, t, vp);
    var s2 := MapPage(s.(free := s.free - {t}), vp * PAGE, t * PAGE, USER_FLAGS).0;
    OverMapped(s0, s, qs, lost, vp, t, s2);
    OverGood(s0, s, qs, lost);
    OverGood(s0, s2, qs + {vp}, lost + FramesOf(s, {vp}));
    WhereItLeads(s2, t, vp);
    if Undisturbed(s0, s) { UndisturbedTrans(s0, s, s2); }
    if Mapped(s2, t) {
      var f := Frame(Entry(s2, t));
      NotSpare(s2, f);
      if f == t { assert f in Spare(s) by { FreeIsSpare(s, t); } }
      WriteKeepsOver(s0, s2, qs + {vp}, lost + FramesOf(s, {vp}), f, page);
    }
  }

  lemma {:induction false} FreeIsSpare(s: Space, t: nat)
    ensures t in s.free ==> t in Spare(s)
  {
  }

  lemma {:induction false} NotSpare(s: Space, f: nat)
    ensures f !in Spare(s) ==> f !in Tables(s)
  {
  }

  // ---- whole loads ----

  lemma {:induction false} LoadPagesOver(s0: Space, s: Space, qs: set<nat>, lost: set<nat>, file: seq<byte>, ph: Phdr,
                                         vp: nat, n: nat)
    returns (lost': set<nat>)
    requires Over(s0, s, qs, lost) && Above(qs) && ENTRIES <= vp && vp + n <= VPAGES
    requires Pages(vp, n) !! Translate(s0).Keys
    ensures var r := LoadPages(s, file, ph, vp, n);
            && r.n <= n && (r.status == Done ==> r.n == n) && r.status != Astray
            && (Returns(r.status) ==>
                  && Over(s0, r.s, qs + Pages(vp, r.n), lost') && |lost'| + |qs + Pages(vp, r.n)| == |lost| + |qs| + r.n
                  && (r.clean && Undisturbed(s0, s) ==> Undisturbed(s0, r.s)))
    decreases n
  {
    hide Over, Undisturbed, LoadPage, Translate, PageImage, Pages, Good, FramesOf;
    lost' := lost;
    NoPages(vp);
    assert qs + {} == qs;
    if n > 0 {
      FirstIn(vp, n);
      PagesSplit(vp, n);
      OverLoaded(s0, s, qs, lost, file, ph, vp);
      var r := LoadPage(s, file, ph, vp);
      if GoesOn(r.1) {
        OneMoreLost(s0, s, qs, lost, vp);
        lost' := LoadPagesOver(s0, r.0, qs + {vp}, lost + FramesOf(s, {vp}), file, ph, vp + 1, n - 1);
        var m := LoadPages(r.0, file, ph, vp + 1, n - 1).n;
        PagesSplit(vp, m + 1);
        assert qs + {vp} + Pages(vp + 1, m) == qs + Pages(vp, m + 1);
      }
    }
  }

  /** The segments lie above 4 MB, where nothing is mapped; they may share pages. */
  ghost predicate Apart(s: Space, phs: seq<Phdr>) {
    forall i :: 0 <= i < |phs| && Wanted(phs[i]) ==>
      ENTRIES <= FirstPage(phs[i]) && phs[i].vaddr < WORD && SegPages(phs[i]) !! Translate(s).Keys
  }

  lemma {:induction false} ApartSplit(s: Space, phs: seq<Phdr>)
    requires phs != [] && Apart(s, phs)
    ensures Apart(s, phs[1..])
    ensures Wanted(phs[0]) ==>
              && ENTRIES <= FirstPage(phs[0]) && phs[0].vaddr < WORD
              && Pages(FirstPage(phs[0]), PageCount(phs[0])) !! Translate(s).Keys
  {
    hide Pages, Translate, FirstPage, PageCount;
  }

  /** The number of pages loaded, a page loaded twice counted twice. */
  function Total(segs: seq<Seg>): nat
    decreases |segs|
  {
    if segs == [] then 0 else segs[0].pages + Total(segs[1..])
  }

  lemma {:induction false} MoreTotal(seg: Seg, segs: seq<Seg>)
    requires ENTRIES <= seg.vp && seg.vp + seg.pages <= VPAGES && SegsOk(segs)
    ensures Total([seg] + segs) == seg.pages + Total(segs) && Total([seg]) == seg.pages
    ensures AllPages([seg] + segs) == Pages(seg.vp, seg.pages) + AllPages(segs)
    ensures AllPages([seg]) == Pages(seg.vp, seg.pages)
    ensures SegsOk([seg] + segs) && SegsOk([seg])
  {
    MoreSegments(seg.vp, seg.pages, segs);
    OneSegment(seg.vp, seg.pages);
    assert ([seg] + segs)[1..] == segs;
    assert Total([seg][1..]) == 0;
  }

  lemma {:induction false} NoSegments()
    ensures AllPages([]) == {} && Total([]) == 0 && SegsOk([])
  {
  }

  lemma {:induction false} PagesAbove(qs: set<nat>, vp: nat, n: nat)
    requires Above(qs) && ENTRIES <= vp
    ensures Above(qs + Pages(vp, n))
  {
  }

  lemma {:induction false} LoadAllOver(s0: Space, s: Space, qs: set<nat>, lost: set<nat>, file: seq<byte>,
                                       phs: seq<Phdr>, k: nat)
    returns (lost': set<nat>)
    requires Over(s0, s, qs, lost) && Above(qs) && Apart(s0, phs)
    ensures var r := LoadAll(s, file, phs, k);
            r.1.end.Returned? ==>
              && Over(s0, r.0, qs + AllPages(r.1.segs), lost') && SegsOk(r.1.segs)
              && |lost'| + |qs + AllPages(r.1.segs)| == |lost| + |qs| + Total(r.1.segs)
              && (r.1.clean && Undisturbed(s0, s) ==> Undisturbed(s0, r.0))
    decreases |phs|
  {
    hide Over, Undisturbed, Above, Apart, LoadPages, Pages, Translate, PageCount, FirstPage, AllPages, Total, SegsOk;
    lost' := lost;
    NoSegments();
    assert qs + {} == qs;
    if phs != [] {
      var ph := phs[0];
      var n, vp := PageCount(ph), FirstPage(ph);
      ApartSplit(s0, phs);
      if !Wanted(ph) {
        lost' := LoadAllOver(s0, s, qs, lost, file, phs[1..], k);
      } else if (ph.offset + ph.filesz) % WORD <= |file| && k < MAX_SEGMENTS && n != 0 {
        SpanFits(ph);
        lost' := LoadPagesOver(s0, s, qs, lost, file, ph, vp, n);
        var r := LoadPages(s, file, ph, vp, n);
        MoreTotal(Seg(vp, r.n), []);
        if r.status == Done {
          PagesAbove(qs, vp, n);
          lost' := LoadAllOver(s0, r.s, qs + Pages(vp, n), lost', file, phs[1..], k + 1);
          var segs := LoadAll(r.s, file, phs[1..], k + 1).1.segs;
          if SegsOk(segs) { MoreTotal(Seg(vp, n), segs); }
          assert qs + Pages(vp, n) + AllPages(segs) == qs + (Pages(vp, n) + AllPages(segs));
        }
      }
    }
  }

  // ---- what is lost ----

  lemma {:induction false} ShrunkOver(s: Space, s1: Space, s2: Space, qs: set<nat>, lost: set<nat>)
    requires Over(s, s1, qs, lost) && Shrunk(s1, s2, qs)
    ensures Good(s2) && Translate(s2) == Translate(s) && Tables(s) <= Tables(s2)
    ensures Spare(s) == Spare(s2) + lost && lost !! Spare(s2)
    ensures Undisturbed(s, s1) ==> Undisturbed(s, s2)
  {
    hide Translate, Good, FramesOf, Tables;
    assert Translate(s2) == Translate(s);
    assert Spare(s2) == Spare(s1) + FramesOf(s1, qs);
  }

  /**
   * Whatever pages the segments share, unloading what a load recorded restores the map. Of the pages that were spare,
   * as many are lost as pages were loaded in the place of another.
   */
  lemma {:induction false} LoadThenUnloadLoses(s: Space, file: seq<byte>, phs: seq<Phdr>) returns (lost: set<nat>)
    requires Good(s) && Apart(s, phs)
    ensures var r := LoadAll(s, file, phs, 0);
            var s' := Unload(r.0, r.1.segs);
            r.1.end.Returned? ==>
              && Good(s') && Translate(s') == Translate(s) && Tables(s) <= Tables(s')
              && Spare(s) == Spare(s') + lost && lost !! Spare(s') && |lost| == Total(r.1.segs) - |AllPages(r.1.segs)|
              && (r.1.clean ==> Undisturbed(s, s'))
  {
    hide Translate, Good, Tables, Spare, Undisturbed, Over, Shrunk, Apart;
    OverNothing(s);
    lost := LoadAllOver(s, s, {}, {}, file, phs, 0);
    var r := LoadAll(s, file, phs, 0);
    var qs := AllPages(r.1.segs);
    assert {} + qs == qs;
    if r.1.end.Returned? {
      OverGood(s, r.0, qs, lost);
      UnloadShrinks(r.0, r.1.segs);
      ShrunkOver(s, r.0, Unload(r.0, r.1.segs), qs, lost);
    }
  }

  /** No two of the segments share a page. */
  predicate SegsDisjoint(segs: seq<Seg>) {
    forall i, j :: 0 <= i < j < |segs| ==> Pages(segs[i].vp, segs[i].pages) !! Pages(segs[j].vp, segs[j].pages)
  }

  lemma {:induction false} PagesCount(vp: nat, n: nat)
    ensures |Pages(vp, n)| == n
    decreases n
  {
    hide Pages;
    if n == 0 {
      NoPages(vp);
    } else {
      PagesSplit(vp, n);
      NotIn(vp, n);
      PagesCount(vp + 1, n - 1);
    }
  }

  lemma {:induction false} UnionCount(a: set<nat>, b: set<nat>)
    ensures |a + b| <= |a| + |b| && (|a + b| == |a| + |b| <==> a !! b)
  {
    assert a + b == a + (b - a) && a !! b - a;
    if a !! b { assert b - a == b; } else { assert b - a < b; SmallerSet(b - a, b); }
  }

  lemma {:induction false} SmallerSet(a: set<nat>, b: set<nat>)
    requires a < b
    ensures |a| < |b|
  {
    assert b == a + (b - a) && b - a != {};
  }

  /** The page set meets none of the ranges. */
  predicate Clears(p: set<nat>, segs: seq<Seg>) {
    forall i :: 0 <= i < |segs| ==> p !! Pages(segs[i].vp, segs[i].pages)
  }

  lemma {:induction false} ClearsUnfold(p: set<nat>, segs: seq<Seg>)
    requires segs != []
    ensures Clears(p, segs) <==> p !! Pages(segs[0].vp, segs[0].pages) && Clears(p, segs[1..])
  {
    hide Pages;
    assert forall i :: 1 <= i < |segs| ==> segs[i] == segs[1..][i - 1];
  }

  lemma {:induction false} MeetsAll(p: set<nat>, segs: seq<Seg>)
    ensures p !! AllPages(segs) <==> Clears(p, segs)
    decreases |segs|
  {
    hide Pages;
    if segs != [] {
      MeetsAll(p, segs[1..]);
      ClearsUnfold(p, segs);
    }
  }

  /** The pages of all segments are as many as their sizes add up to exactly if no two share one. */
  lemma {:induction false} TotalIff(segs: seq<Seg>)
    ensures |AllPages(segs)| <= Total(segs) && (|AllPages(segs)| == Total(segs) <==> SegsDisjoint(segs))
    decreases |segs|
  {
    hide Pages;
    if segs != [] {
      var p := Pages(segs[0].vp, segs[0].pages);
      TotalIff(segs[1..]);
      PagesCount(segs[0].vp, segs[0].pages);
      UnionCount(p, AllPages(segs[1..]));
      MeetsAll(p, segs[1..]);
      DisjointUnfold(segs);
    }
  }

  lemma {:induction false} DisjointUnfold(segs: seq<Seg>)
    requires segs != []
    ensures SegsDisjoint(segs) <==> SegsDisjoint(segs[1..]) && Clears(Pages(segs[0].vp, segs[0].pages), segs[1..])
  {
    hide Pages;
    var t := segs[1..];
    if SegsDisjoint(t) && Clears(Pages(segs[0].vp, segs[0].pages), t) {
      forall i, j | 0 <= i < j < |segs| ensures Pages(segs[i].vp, segs[i].pages) !! Pages(segs[j].vp, segs[j].pages) {
        assert segs[j] == t[j - 1];
        if i > 0 { assert segs[i] == t[i - 1]; }
      }
    }
  }

  /** Load and unload conserve exactly if the segments loaded share no page. */
  lemma {:induction false} LoadThenUnloadIff(s: Space, file: seq<byte>, phs: seq<Phdr>)
    requires Good(s) && Apart(s, phs)
    ensures var r := LoadAll(s, file, phs, 0);
            && (r.1.end.Returned? ==> (Regained(s, Unload(r.0, r.1.segs)) <==> SegsDisjoint(r.1.segs)))
            && (r.1.end.Returned? && r.1.clean ==> (Restored(s, Unload(r.0, r.1.segs)) <==> SegsDisjoint(r.1.segs)))
  {
    hide Translate, Good, Tables, Spare, Undisturbed, Apart, SegsDisjoint, LoadAll, Unload;
    var lost := LoadThenUnloadLoses(s, file, phs);
    TotalIff(LoadAll(s, file, phs, 0).1.segs);
  }

  /** The ranges a load that succeeds records: those of the segments it wants. */
  function Wants(phs: seq<Phdr>): seq<Seg>
    decreases |phs|
  {
    if phs == [] then []
    else (if Wanted(phs[0]) then [Seg(FirstPage(phs[0]), PageCount(phs[0]))] else []) + Wants(phs[1..])
  }

  lemma {:induction false} RecordedIs(s0: Space, s: Space, qs: set<nat>, lost: set<nat>, file: seq<byte>,
                                      phs: seq<Phdr>, k: nat)
    requires Over(s0, s, qs, lost) && Above(qs) && Apart(s0, phs) && LoadAll(s, file, phs, k).1.end == Returned(0)
    ensures LoadAll(s, file, phs, k).1.segs == Wants(phs)
    decreases |phs|
  {
    hide Over, Above, Apart, LoadPages, Pages, Translate, PageCount, FirstPage;
    if phs != [] {
      var ph := phs[0];
      var n, vp := PageCount(ph), FirstPage(ph);
      ApartSplit(s0, phs);
      if !Wanted(ph) {
        RecordedIs(s0, s, qs, lost, file, phs[1..], k);
      } else {
        SpanFits(ph);
        var lost' := LoadPagesOver(s0, s, qs, lost, file, ph, vp, n);
        PagesAbove(qs, vp, n);
        RecordedIs(s0, LoadPages(s, file, ph, vp, n).s, qs + Pages(vp, n), lost', file, phs[1..], k + 1);
      }
    }
  }

  predicate ClearsWanted(p: set<nat>, phs: seq<Phdr>) {
    forall i :: 0 <= i < |phs| && Wanted(phs[i]) ==> p !! SegPages(phs[i])
  }

  lemma {:induction false} ClearsWantedUnfold(p: set<nat>, phs: seq<Phdr>)
    requires phs != []
    ensures ClearsWanted(p, phs) <==> (Wanted(phs[0]) ==> p !! SegPages(phs[0])) && ClearsWanted(p, phs[1..])
  {
    hide SegPages;
    assert forall i :: 1 <= i < |phs| ==> phs[i] == phs[1..][i - 1];
  }

  lemma {:induction false} ClearsAgree(p: set<nat>, phs: seq<Phdr>)
    ensures ClearsWanted(p, phs) <==> Clears(p, Wants(phs))
    decreases |phs|
  {
    hide Pages, FirstPage, PageCount;
    if phs != [] {
      hide Clears, ClearsWanted;
      ClearsAgree(p, phs[1..]);
      ClearsWantedUnfold(p, phs);
      if Wanted(phs[0]) {
        ClearsUnfold(p, Wants(phs));
        assert Wants(phs)[1..] == Wants(phs[1..]);
      } else {
        assert Wants(phs) == Wants(phs[1..]);
      }
    }
  }

  lemma {:induction false} CleanIsDisjoint(s: Space, phs: seq<Phdr>)
    requires Apart(s, phs)
    ensures Clean(s, phs) <==> SegsDisjoint(Wants(phs))
    decreases |phs|
  {
    hide Pages, FirstPage, PageCount, Translate;
    if phs != [] {
      hide Clean, SegsDisjoint, Clears, ClearsWanted, Apart;
      ApartSplit(s, phs);
      CleanIsDisjoint(s, phs[1..]);
      CleanUnfold(s, phs);
      if Wanted(phs[0]) {
        ClearsAgree(SegPages(phs[0]), phs[1..]);
        assert Wants(phs)[1..] == Wants(phs[1..]);
        DisjointUnfold(Wants(phs));
      } else {
        assert Wants(phs) == Wants(phs[1..]);
      }
    }
  }

  lemma {:induction false} CleanUnfold(s: Space, phs: seq<Phdr>)
    requires Apart(s, phs) && phs != []
    ensures Clean(s, phs) <==> Clean(s, phs[1..]) && (Wanted(phs[0]) ==> ClearsWanted(SegPages(phs[0]), phs[1..]))
  {
    hide SegPages, Translate;
    var t := phs[1..];
    if Clean(s, t) && (Wanted(phs[0]) ==> ClearsWanted(SegPages(phs[0]), t)) {
      forall i, j | 0 <= i < j < |phs| && Wanted(phs[i]) && Wanted(phs[j])
        ensures SegPages(phs[i]) !! SegPages(phs[j])
      {
        assert phs[j] == t[j - 1];
        if i > 0 { assert phs[i] == t[i - 1]; }
      }
    }
  }

  /** For a load that succeeds the condition is one on its headers. */
  lemma {:induction false} ConservesIffClean(s: Space, file: seq<byte>, phs: seq<Phdr>)
    requires Good(s) && Apart(s, phs)
    ensures var r := LoadAll(s, file, phs, 0);
            r.1.end == Returned(0) ==> (Regained(s, Unload(r.0, r.1.segs)) <==> Clean(s, phs))
  {
    hide Translate, Good, Regained, Apart, SegsDisjoint, LoadAll, Unload, Clean, Over;
    if LoadAll(s, file, phs, 0).1.end == Returned(0) {
      LoadThenUnloadIff(s, file, phs);
      OverNothing(s);
      RecordedIs(s, s, {}, {}, file, phs, 0);
      CleanIsDisjoint(s, phs);
    }
  }
}
