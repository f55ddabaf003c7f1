/**
 * Several programs in memory at once: loads and unloads in any order, what each program reads, and what is left at the
 * end.
 */
module ImageRuns {
  import opened Bytes
  import opened PhysicalPages
  import opened PageTables
  import opened ElfImage
  import opened ElfRuns

  /** A program in memory: the file and headers it was loaded from, and the record kept of it. */
  datatype Image = Image(file: seq<byte>, phs: seq<Phdr>, segs: seq<Seg>)

  /** clean: no write of any load so far has gone astray. */
  datatype System = System(s: Space, live: seq<Image>, clean: bool)

  datatype Action = LoadImage(file: seq<byte>, phs: seq<Phdr>) | DropImage(i: nat)

  function Without(live: seq<Image>, i: nat): seq<Image>
    requires i < |live|
  {
    live[..i] + live[i + 1..]
  }

  /** A load finds its pages unmapped and returns; an unload names a live image. */
  ghost predicate Allowed(y: System, a: Action) {
    match a
    case LoadImage(file, phs) => Clean(y.s, phs) && LoadAll(y.s, file, phs, 0).1.end.Returned?
    case DropImage(i) => i < |y.live|
  }

  /** A load that fails takes back what it has loaded. */
  ghost function Act(y: System, a: Action): System
    requires Allowed(y, a)
  {
    match a
    case LoadImage(file, phs) =>
      var r := LoadAll(y.s, file, phs, 0);
      var clean := y.clean && r.1.clean;
      if r.1.end == Returned(0) then System(r.0, y.live + [Image(file, phs, r.1.segs)], clean)
      else System(Unload(r.0, r.1.segs), y.live, clean)
    case DropImage(i) => System(Unload(y.s, y.live[i].segs), Without(y.live, i), y.clean)
  }

  ghost predicate IsRun(ys: seq<System>, acts: seq<Action>) {
    |ys| == |acts| + 1 && forall k :: 0 <= k < |acts| ==> Allowed(ys[k], acts[k]) && ys[k + 1] == Act(ys[k], acts[k])
  }

  // ---- the invariant ----

  /** All the virtual pages in use by live images. */
  function Used(live: seq<Image>): set<nat> {
    if live == [] then {} else AllPages(live[0].segs) + Used(live[1..])
  }

  predicate ImagesApart(live: seq<Image>) {
    forall i, j :: 0 <= i < j < |live| ==> AllPages(live[i].segs) !! AllPages(live[j].segs)
  }

  /** Segment j of the image is recorded, lies above 4 MB and is in place. */
  ghost predicate InPlace(s: Space, im: Image, j: nat)
    requires j < |im.phs|
  {
    var ph := im.phs[j];
    && ENTRIES <= FirstPage(ph) && SegPages(ph) <= AllPages(im.segs) && (ph.offset + ph.filesz) % WORD <= |im.file|
    && ElfImage.Holds(s, im.file, ph, FirstPage(ph), PageCount(ph))
  }

  ghost predicate ImageOk(s: Space, im: Image) {
    SegsOk(im.segs) && forall j :: 0 <= j < |im.phs| && Wanted(im.phs[j]) ==> InPlace(s, im, j)
  }

  ghost predicate AllOk(s: Space, live: seq<Image>) { forall i :: 0 <= i < |live| ==> ImageOk(s, live[i]) }

  predicate AllSegsOk(live: seq<Image>) { forall i :: 0 <= i < |live| ==> SegsOk(live[i].segs) }

  /**
   * Since base, exactly the pages of the live images have been added; if nothing went astray, each image is in place.
   */
  ghost predicate Inv(base: Space, y: System) {
    && Good(base) && Added(base, y.s, Used(y.live)) && ImagesApart(y.live) && AllSegsOk(y.live)
    && (y.clean ==> Undisturbed(base, y.s) && AllOk(y.s, y.live))
  }

  // ---- lists of images ----

  lemma {:induction false} UsedConcat(a: seq<Image>, b: seq<Image>)
    ensures Used(a + b) == Used(a) + Used(b)
    decreases |a|
  {
    hide AllPages;
    if a == [] {
      assert a + b == b;
    } else {
      UsedConcat(a[1..], b);
      assert (a + b)[1..] == a[1..] + b;
    }
  }

  lemma {:induction false} UsedOne(im: Image)
    ensures Used([im]) == AllPages(im.segs)
  {
    assert Used([im][1..]) == {};
  }

  lemma {:induction false} UsedHas(live: seq<Image>, i: nat)
    requires i < |live|
    ensures AllPages(live[i].segs) <= Used(live)
  {
    hide AllPages;
    if i > 0 { UsedHas(live[1..], i - 1); }
  }

  lemma {:induction false} UsedFrom(live: seq<Image>, q: nat) returns (i: nat)
    requires q in Used(live)
    ensures i < |live| && q in AllPages(live[i].segs)
  {
    hide AllPages;
    if q in AllPages(live[0].segs) {
      i := 0;
    } else {
      i := UsedFrom(live[1..], q);
      i := i + 1;
    }
  }

  /** Taking one image out of the list takes exactly its pages out of those in use. */
  lemma {:induction false} UsedWithout(live: seq<Image>, i: nat)
    requires i < |live| && ImagesApart(live)
    ensures Used(live) == Used(Without(live, i)) + AllPages(live[i].segs)
    ensures Used(Without(live, i)) !! AllPages(live[i].segs)
    ensures ImagesApart(Without(live, i))
  {
    hide AllPages, Used;
    var rest := Without(live, i);
    assert live == live[..i] + ([live[i]] + live[i + 1..]);
    UsedConcat(live[..i], [live[i]] + live[i + 1..]);
    UsedConcat([live[i]], live[i + 1..]);
    UsedConcat(live[..i], live[i + 1..]);
    UsedOne(live[i]);
    forall q | q in Used(rest) ensures q !in AllPages(live[i].segs) {
      var k := UsedFrom(rest, q);
      assert rest[k] == if k < i then live[k] else live[k + 1];
    }
  }

  lemma {:induction false} ApartMore(live: seq<Image>, im: Image)
    requires ImagesApart(live) && Used(live) !! AllPages(im.segs)
    ensures ImagesApart(live + [im])
  {
    hide AllPages, Used;
    forall i, j | 0 <= i < j < |live + [im]|
      ensures AllPages((live + [im])[i].segs) !! AllPages((live + [im])[j].segs)
    {
      if j == |live| { UsedHas(live, i); }
    }
  }

  // ---- loading one more ----

  /** A load that succeeds records every page of every segment. */
  lemma {:induction false} SegmentsRecorded(s: Space, file: seq<byte>, phs: seq<Phdr>, k: nat, j: nat)
    requires LoadAll(s, file, phs, k).1.end == Returned(0) && j < |phs| && Wanted(phs[j]) && Good(s) && Clean(s, phs)
    ensures SegPages(phs[j]) <= AllPages(LoadAll(s, file, phs, k).1.segs)
    decreases |phs|
  {
    hide Good, Clean, LoadPages, Pages, FirstPage, PageCount, AllPages, Translate, Grown;
    var ph := phs[0];
    if !Wanted(ph) {
      CleanTail(s, phs);
      SegmentsRecorded(s, file, phs[1..], k, j - 1);
    } else {
      var vp, n := FirstPage(ph), PageCount(ph);
      CleanHead(s, phs);
      SpanFits(ph);
      LoadPagesGrows(s, file, ph, vp, n);
      var r := LoadPages(s, file, ph, vp, n);
      CleanGrown(s, r.s, phs);
      AddedKeys(s, r.s, SegPages(ph));
      MoreSegments(vp, n, LoadAll(r.s, file, phs[1..], k + 1).1.segs);
      if j > 0 { SegmentsRecorded(r.s, file, phs[1..], k + 1, j - 1); }
    }
  }

  lemma {:induction false} LoadedIsOk(s: Space, file: seq<byte>, phs: seq<Phdr>)
    requires Good(s) && Clean(s, phs) && LoadAll(s, file, phs, 0).1.end == Returned(0)
    requires LoadAll(s, file, phs, 0).1.clean
    ensures var r := LoadAll(s, file, phs, 0); ImageOk(r.0, Image(file, phs, r.1.segs))
  {
    hide Good, LoadAll, AllPages, SegPages, FirstPage, PageCount, ElfImage.Holds, Grown, Translate;
    var r := LoadAll(s, file, phs, 0);
    var im := Image(file, phs, r.1.segs);
    LoadAllGrows(s, file, phs, 0);
    forall j | 0 <= j < |phs| && Wanted(phs[j]) ensures InPlace(r.0, im, j) {
      LoadedSegmentsHold(s, file, phs, 0, j);
      SegmentsRecorded(s, file, phs, 0, j);
    }
  }

  /** What is in place stays in place while pages are added. */
  lemma {:induction false} OkStays(s: Space, s': Space, qs: set<nat>, im: Image)
    requires Good(s) && ImageOk(s, im) && Grown(s, s', qs)
    ensures ImageOk(s', im)
  {
    hide Good, Grown, ElfImage.Holds, FirstPage, PageCount, SegPages, AllPages, Wanted;
    forall j | 0 <= j < |im.phs| && Wanted(im.phs[j]) ensures InPlace(s', im, j) {
      var ph := im.phs[j];
      assert InPlace(s, im, j);
      HoldsAllStays(s, s', qs, im.file, ph, FirstPage(ph), PageCount(ph));
    }
  }

  lemma {:induction false} LoadKeepsInv(base: Space, y: System, file: seq<byte>, phs: seq<Phdr>)
    requires Inv(base, y) && Allowed(y, LoadImage(file, phs)) && LoadAll(y.s, file, phs, 0).1.end == Returned(0)
    ensures Inv(base, Act(y, LoadImage(file, phs)))
  {
    hide Good, Added, Undisturbed, Clean, LoadAll, ImageOk, AllPages, Used, Translate, SegsOk;
    var r := LoadAll(y.s, file, phs, 0);
    var im := Image(file, phs, r.1.segs);
    var now := y.live + [im];
    AddedKeys(base, y.s, Used(y.live));
    LoadAllGrows(y.s, file, phs, 0);
    AddedKeys(y.s, r.0, AllPages(r.1.segs));
    AddedTrans(base, y.s, r.0, Used(y.live), AllPages(r.1.segs));
    UsedConcat(y.live, [im]);
    UsedOne(im);
    ApartMore(y.live, im);
    if y.clean && r.1.clean {
      GrownTrans(base, y.s, r.0, Used(y.live), AllPages(r.1.segs));
      LoadedIsOk(y.s, file, phs);
      forall i | 0 <= i < |now| ensures ImageOk(r.0, now[i]) {
        if i < |y.live| { OkStays(y.s, r.0, AllPages(r.1.segs), y.live[i]); }
      }
    }
  }

  /** The map is as before exactly if nothing has been added. */
  lemma {:induction false} RegainedIsAdded(s: Space, s': Space)
    ensures Regained(s, s') <==> Added(s, s', {})
  {
    hide Good, Tables, Spare, Translate;
    assert FramesOf(s', {}) == {};
    assert Translate(s).Keys + {} == Translate(s).Keys;
    if Added(s, s', {}) { assert Translate(s') == Translate(s); }
  }

  lemma {:induction false} FailKeepsInv(base: Space, y: System, file: seq<byte>, phs: seq<Phdr>)
    requires Inv(base, y) && Allowed(y, LoadImage(file, phs)) && LoadAll(y.s, file, phs, 0).1.end != Returned(0)
    ensures Inv(base, Act(y, LoadImage(file, phs)))
  {
    hide Good, Added, Undisturbed, Clean, LoadAll, ImageOk, AllPages, Used, Translate, Regained, Unload;
    var r := LoadAll(y.s, file, phs, 0);
    var s' := Unload(r.0, r.1.segs);
    AddedKeys(base, y.s, Used(y.live));
    LoadThenUnload(y.s, file, phs);
    RegainedIsAdded(y.s, s');
    AddedTrans(base, y.s, s', Used(y.live), {});
    assert Used(y.live) + {} == Used(y.live);
    if y.clean && r.1.clean {
      GrownTrans(base, y.s, s', Used(y.live), {});
      forall i | 0 <= i < |y.live| ensures ImageOk(s', y.live[i]) { OkStays(y.s, s', {}, y.live[i]); }
    }
  }

  // ---- unloading one ----

  lemma {:induction false} FramesApart(s: Space, ps: set<nat>, qs: set<nat>)
    requires Good(s) && ps !! qs && (forall q :: q in ps ==> q >= ENTRIES) && (forall q :: q in qs ==> q >= ENTRIES)
    ensures FramesOf(s, ps) !! FramesOf(s, qs)
  {
    hide Good, Translate, Frame;
    forall f | f in FramesOf(s, ps) ensures f !in FramesOf(s, qs) {
      var p :| p in ps && p in Translate(s) && Frame(Translate(s)[p]) == f;
      if f in FramesOf(s, qs) {
        var q :| q in qs && q in Translate(s) && Frame(Translate(s)[q]) == f;
        OwnFrames(s, p, q);
      }
    }
  }

  lemma {:induction false} OwnFrames(s: Space, p: nat, q: nat)
    requires Good(s) && p in Translate(s) && q in Translate(s) && ENTRIES <= p && ENTRIES <= q
    ensures Frame(Translate(s)[p]) == Frame(Translate(s)[q]) ==> p == q
  {
    hide Wf, Entry, Frame, Present;
    assert Mapped(s, p) && Mapped(s, q);
  }

  lemma {:induction false} AllPagesHigh(segs: seq<Seg>)
    requires SegsOk(segs)
    ensures forall q :: q in AllPages(segs) ==> q >= ENTRIES
    decreases |segs|
  {
    if segs != [] { AllPagesHigh(segs[1..]); }
  }

  lemma {:induction false} UsedHigh(live: seq<Image>)
    requires AllSegsOk(live)
    ensures forall q :: q in Used(live) ==> q >= ENTRIES
  {
    hide Used, AllPages, SegsOk;
    forall q | q in Used(live) ensures q >= ENTRIES {
      var i := UsedFrom(live, q);
      AllPagesHigh(live[i].segs);
    }
  }

  /** Taking out some of the pages that were added leaves the others added. */
  lemma {:induction false} ShrunkWithinAdded(base: Space, s: Space, s': Space, ps: set<nat>, qs: set<nat>)
    requires Added(base, s, qs + ps) && Shrunk(s, s', ps) && ps !! qs
    requires (forall q :: q in ps ==> q >= ENTRIES) && (forall q :: q in qs ==> q >= ENTRIES)
    ensures Added(base, s', qs) && (Undisturbed(base, s) ==> Undisturbed(base, s'))
  {
    hide Good, Tables, Translate, FramesOf;
    FramesApart(s, ps, qs);
    FramesSplit(s, qs, ps);
    FramesLeft(s, s', ps, qs);
    assert Translate(s').Keys == Translate(base).Keys + qs;
  }

  lemma {:induction false} FramesLeft(s: Space, s': Space, ps: set<nat>, qs: set<nat>)
    requires Translate(s') == Translate(s) - ps && ps !! qs
    ensures FramesOf(s', qs) == FramesOf(s, qs)
  {
    hide Translate, Frame;
    assert forall q :: q in qs ==> (q in Translate(s') <==> q in Translate(s));
  }

  lemma {:induction false} HoldsLeft(s: Space, s': Space, ps: set<nat>, file: seq<byte>, ph: Phdr, q: nat)
    requires Good(s) && Shrunk(s, s', ps) && HoldsPage(s, file, ph, q) && q >= ENTRIES && q !in ps
    ensures HoldsPage(s', file, ph, q)
  {
    hide Good, Tables, Translate, FramesOf, PageImage, Frame;
    MappedFrame(s, q);
    InUseIsNoTable(s, Frame(Translate(s)[q]));
  }

  lemma {:induction false} InUseIsNoTable(s: Space, f: nat)
    requires f !in Spare(s)
    ensures f !in Tables(s)
  {
  }

  /** What is in place stays in place while the pages of others are taken out. */
  lemma {:induction false} OkLeft(s: Space, s': Space, ps: set<nat>, im: Image)
    requires Good(s) && ImageOk(s, im) && Shrunk(s, s', ps) && ps !! AllPages(im.segs)
    ensures ImageOk(s', im)
  {
    hide Good, Shrunk, FirstPage, PageCount, AllPages, Wanted, HoldsPage;
    forall j | 0 <= j < |im.phs| && Wanted(im.phs[j]) ensures InPlace(s', im, j) {
      var ph := im.phs[j];
      assert InPlace(s, im, j);
      forall q: nat | InRange(FirstPage(ph), PageCount(ph), q) ensures HoldsPage(s', im.file, ph, q) {
        assert q in SegPages(ph);
        assert HoldsPage(s, im.file, ph, q);
        HoldsLeft(s, s', ps, im.file, ph, q);
      }
    }
  }

  lemma {:induction false} DropKeepsInv(base: Space, y: System, i: nat)
    requires Inv(base, y) && i < |y.live|
    ensures Inv(base, Act(y, DropImage(i)))
  {
    hide Good, Added, Undisturbed, Shrunk, ImageOk, AllPages, Used, Unload, SegsOk;
    var im, rest := y.live[i], Without(y.live, i);
    var s' := Unload(y.s, im.segs);
    AddedKeys(base, y.s, Used(y.live));
    UnloadShrinks(y.s, im.segs);
    UsedWithout(y.live, i);
    UsedHigh(y.live);
    ShrunkWithinAdded(base, y.s, s', AllPages(im.segs), Used(rest));
    if y.clean {
      forall k | 0 <= k < |rest| ensures ImageOk(s', rest[k]) {
        assert rest[k] == if k < i then y.live[k] else y.live[k + 1];
        UsedHas(rest, k);
        OkLeft(y.s, s', AllPages(im.segs), rest[k]);
      }
    }
  }

  // ---- every run ----

  lemma {:induction false} StartHolds(base: Space)
    requires Good(base)
    ensures Inv(base, System(base, [], true))
  {
    hide Good;
    NothingGrown(base, 0);
  }

  lemma {:induction false} ActKeepsInv(base: Space, y: System, a: Action)
    requires Inv(base, y) && Allowed(y, a)
    ensures Inv(base, Act(y, a))
  {
    hide Inv, LoadAll, Act, Clean;
    match a
    case LoadImage(file, phs) =>
      if LoadAll(y.s, file, phs, 0).1.end == Returned(0) {
        LoadKeepsInv(base, y, file, phs);
      } else {
        FailKeepsInv(base, y, file, phs);
      }
    case DropImage(i) => DropKeepsInv(base, y, i);
  }

  lemma {:induction false} RunKeepsInv(base: Space, ys: seq<System>, acts: seq<Action>, k: nat)
    requires Good(base) && IsRun(ys, acts) && ys[0] == System(base, [], true) && k <= |acts|
    ensures Inv(base, ys[k])
    decreases k
  {
    hide Good, Inv, Allowed, Act;
    if k == 0 {
      StartHolds(base);
    } else {
      RunKeepsInv(base, ys, acts, k - 1);
      ActKeepsInv(base, ys[k - 1], acts[k - 1]);
    }
  }

  /**
   * Whatever has been loaded and unloaded, none of it astray, every live program reads its own bytes at its addresses.
   */
  lemma {:induction false} EveryImageReadsRight(base: Space, ys: seq<System>, acts: seq<Action>, k: nat, i: nat, j: nat,
                                                v: nat)
    requires Good(base) && IsRun(ys, acts) && ys[0] == System(base, [], true) && k <= |acts|
    requires ys[k].clean && i < |ys[k].live|
    requires j < |ys[k].live[i].phs| && Wanted(ys[k].live[i].phs[j]) && v < WORD
    requires var ph := ys[k].live[i].phs[j];
             && InRange(FirstPage(ph), PageCount(ph), v / PAGE)
             && ph.vaddr + ph.filesz < WORD && ph.offset + ph.filesz < WORD
    ensures var im, ph := ys[k].live[i], ys[k].live[i].phs[j];
            && ph.offset + ph.filesz <= |im.file|
            && ReadByte(ys[k].s, v) ==
               Some(if ph.vaddr <= v < ph.vaddr + ph.filesz then im.file[ph.offset + v - ph.vaddr] else 0)
  {
    hide Good, Allowed, Act, Added, Undisturbed, FirstPage, PageCount, ReadByte, HoldsPage, Used, ImagesApart, AllPages;
    hide ByteAt;
    RunKeepsInv(base, ys, acts, k);
    var im, ph := ys[k].live[i], ys[k].live[i].phs[j];
    assert ImageOk(ys[k].s, im) && InPlace(ys[k].s, im, j);
    AddedKeys(base, ys[k].s, Used(ys[k].live));
    assert HoldsPage(ys[k].s, im.file, ph, v / PAGE);
    PageReads(ys[k].s, im.file, ph, v);
    ByteMeaning(im.file, ph, v);
  }

  lemma {:induction false} PageReads(s: Space, file: seq<byte>, ph: Phdr, v: nat)
    requires Good(s) && HoldsPage(s, file, ph, v / PAGE) && v < WORD
    ensures ReadByte(s, v) == Some(ByteAt(file, ph, v))
  {
    hide Translate, Frame, PageImage, Private, Direct, ReadByte, ByteAt, TablesOk, NoAlias;
    ReadIs(s, v);
    PageByte(file, ph, v);
  }

  /**
   * Once no image is live, the map and the pages held by allocator and tables, and unless a write went astray every
   * page in use, are as at the start.
   */
  lemma {:induction false} AllUnloadedRestores(base: Space, ys: seq<System>, acts: seq<Action>, k: nat)
    requires Good(base) && IsRun(ys, acts) && ys[0] == System(base, [], true) && k <= |acts| && ys[k].live == []
    ensures Regained(base, ys[k].s) && (ys[k].clean ==> Restored(base, ys[k].s))
  {
    hide Good, Allowed, Act, Added, Regained, ImagesApart, ImageOk;
    RunKeepsInv(base, ys, acts, k);
    RegainedIsAdded(base, ys[k].s);
  }
}
