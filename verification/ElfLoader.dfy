/** The program loader itself, over the page tables, physical memory and the kernel heap. */
module ElfLoader {
  import opened Bytes
  import opened PhysicalPages
  import opened PageTables
  import opened ElfImage
  import opened ElfRuns
  import opened ElfRoom
  import opened AddressSpace
  import HeapBlocks
  import KernelHeap

  const EHDR_SIZE: nat := 52
  const PHDR_SIZE: nat := 32
  const IMAGE_SIZE: nat := 72

  // ---- the file's headers ----

  function ProgramOffset(file: seq<byte>): nat
    requires |file| >= EHDR_SIZE
  {
    Word(file, 28)
  }

  function ProgramCount(file: seq<byte>): nat
    requires |file| >= EHDR_SIZE
  {
    Half(file, 44)
  }

  /** A 32-bit little-endian 386 executable whose program headers pass the size check, made in 32 bits. */
  predicate HeaderOk(file: seq<byte>) {
    && |file| >= EHDR_SIZE
    && file[0] == 0x7F && file[1] == 0x45 && file[2] == 0x4C && file[3] == 0x46
    && file[4] == 1 && file[5] == 1
    && Half(file, 18) == 3 && Half(file, 16) == 2 && Half(file, 42) == PHDR_SIZE
    && (ProgramOffset(file) + ProgramCount(file) * PHDR_SIZE) % WORD <= |file|
  }

  /** The sum in the size check does not wrap. */
  predicate TableFits(file: seq<byte>) {
    |file| >= EHDR_SIZE ==> ProgramOffset(file) + ProgramCount(file) * PHDR_SIZE < WORD
  }

  /** An accepted file holds all its program headers exactly if the sum in the check did not wrap. */
  lemma {:induction false} AcceptedTableIsInFile(file: seq<byte>)
    requires HeaderOk(file) && |file| < WORD
    ensures |file| >= EHDR_SIZE
    ensures ProgramOffset(file) + ProgramCount(file) * PHDR_SIZE <= |file| <==> TableFits(file)
  {
  }

  /** A header whose one program header is said to start 32 bytes below 2^32 passes the check. */
  lemma {:induction false} WrappedHeaderIsAccepted(h: seq<byte>)
    requires h == [0x7F, 0x45, 0x4C, 0x46, 1, 1, 1, 0] + Zeros(8) + [2, 0, 3, 0, 1, 0, 0, 0] + Zeros(4)
             + [0xE0, 0xFF, 0xFF, 0xFF]
                  + Zeros(8) + [52, 0, 32, 0, 1, 0] + Zeros(6)
    ensures HeaderOk(h) && !TableFits(h)
  {
    assert h[0] == 0x7F && h[1] == 0x45 && h[2] == 0x4C && h[3] == 0x46 && h[4] == 1 && h[5] == 1;
    assert h[16] == 2 && h[17] == 0 && h[18] == 3 && h[19] == 0 && h[42] == 32 && h[43] == 0 && h[44] == 1
           && h[45] == 0;
    assert h[28] == 0xE0 && h[29] == 0xFF && h[30] == 0xFF && h[31] == 0xFF;
    assert Word(h, 28) == 0xFFFF_FFE0;
  }

  function PhdrAt(file: seq<byte>, i: nat): Phdr
    requires |file| >= EHDR_SIZE && ProgramOffset(file) + (i + 1) * PHDR_SIZE <= |file|
  {
    var o := ProgramOffset(file) + i * PHDR_SIZE;
    Phdr(Word(file, o), Word(file, o + 4), Word(file, o + 8), Word(file, o + 16), Word(file, o + 20))
  }

  function Phdrs(file: seq<byte>): (phs: seq<Phdr>)
    ensures |file| >= EHDR_SIZE && ProgramOffset(file) + ProgramCount(file) * PHDR_SIZE <= |file| ==>
              |phs| == ProgramCount(file) && forall i :: 0 <= i < |phs| ==> phs[i] == PhdrAt(file, i)
  {
    if |file| >= EHDR_SIZE && ProgramOffset(file) + ProgramCount(file) * PHDR_SIZE <= |file| then
      seq(ProgramCount(file), i requires 0 <= i < ProgramCount(file) => PhdrAt(file, i))
    else []
  }

  predicate Bounded(ph: Phdr) {
    ph.vaddr < WORD && ph.filesz < WORD && ph.memsz < WORD && ph.offset + ph.filesz < WORD
  }

  /** Where the copied part of a page lies. */
  lemma {:induction false} CopyBounds(ph: Phdr, v: nat, lo: nat, hi: nat)
    requires Bounded(ph) && lo == (if v > ph.vaddr then v else ph.vaddr)
    requires hi == (if v + PAGE < FileEnd(ph) then v + PAGE else FileEnd(ph))
    ensures lo < hi ==> FileEnd(ph) == ph.vaddr + ph.filesz && v <= lo && hi <= v + PAGE && hi <= ph.vaddr + ph.filesz
  {
  }

  /** A zeroed page with that part copied in is the page of the image. */
  lemma {:induction false} CopiedPage(file: seq<byte>, ph: Phdr, vp: nat, lo: nat, hi: nat, page: seq<byte>)
    requires Bounded(ph) && ph.offset + ph.filesz <= |file| && |page| == PAGE
    requires lo == (if vp * PAGE > ph.vaddr then vp * PAGE else ph.vaddr)
    requires hi == (if vp * PAGE + PAGE < FileEnd(ph) then vp * PAGE + PAGE else FileEnd(ph))
    requires forall k :: 0 <= k < PAGE ==>
               var a := vp * PAGE + k;
               var at := ph.offset + a - ph.vaddr;
               page[k] == if lo <= a < hi && at < |file| then file[at] else 0
    ensures page == PageImage(file, ph, vp)
  {
    hide PageImage;
    forall k | 0 <= k < PAGE ensures page[k] == PageImage(file, ph, vp)[k] {
      assert PageImage(file, ph, vp)[k] == ByteAt(file, ph, vp * PAGE + k);
    }
  }

  lemma {:induction false} BlockAddress(bs: seq<HeapBlocks.Block>, i: nat)
    requires HeapBlocks.Wf(bs) && i < |bs|
    ensures HeapBlocks.Off(bs, i) % 4 == 0 && HeapBlocks.Off(bs, i) / 4 + 5 <= KernelHeap.WORDS
  {
    HeapBlocks.OffAligned(bs, i);
    HeapBlocks.OffMonotonic(bs, i, |bs|);
  }

  /** The record of an image; its own memory is the heap block at addr. */
  class UserImage {
    const addr: nat
    const segs: array<Seg>
    var segCount: nat
    var entry: nat

    ghost predicate Valid()
      reads this, segs
    {
      segs.Length == MAX_SEGMENTS && segCount <= MAX_SEGMENTS
    }

    ghost function Segs(): seq<Seg>
      requires Valid()
      reads this, segs
    {
      segs[..segCount]
    }

    constructor (addr: nat, entry: nat)
      ensures Valid() && Segs() == [] && this.addr == addr && this.entry == entry && fresh(segs)
    {
      this.addr, this.entry, segCount := addr, entry, 0;
      segs := new Seg[MAX_SEGMENTS](_ => Seg(0, 0));
    }
  }

  /** The page tables are in order, and above 4 MB each page has a frame of its own. */
  ghost predicate Sound(space: PageDirectory)
    reads space.dir, space.mem, space.pmm, space.pmm.bitmap
  {
    space.Valid() && Good(space.View())
  }

  ghost predicate Apart(img: UserImage, space: PageDirectory) {
    && (img.segs as object) != space.dir && (img.segs as object) != space.mem
    && (img.segs as object) != space.pmm.bitmap
    && (img as object) != space.dir && (img as object) != space.mem && (img as object) != space.pmm
    && (img as object) != space.pmm.bitmap
    && (img.segs as object) != space.pmm
  }

  method ZeroPage(space: PageDirectory, t: nat)
    requires t < space.mem.Length && |space.mem[t]| == PAGE
    modifies space.mem
    ensures space.mem[..] == old(space.mem[..])[t := Zeros(PAGE)]
  {
    var mem := space.mem;
    ghost var was := mem[..];
    for i := 0 to PAGE
      invariant |mem[t]| == PAGE && mem[..] == was[t := mem[t]]
      invariant forall k :: 0 <= k < i ==> mem[t][k] == 0
    {
      mem[t] := mem[t][i := 0];
    }
    assert mem[t] == Zeros(PAGE);
  }

  method CopyIn(space: PageDirectory, t: nat, pageOff: nat, file: seq<byte>, fileOff: nat, len: nat)
    requires t < space.mem.Length && |space.mem[t]| == PAGE && pageOff + len <= PAGE && fileOff + len <= |file|
    modifies space.mem
    ensures |space.mem[t]| == PAGE && space.mem[..] == old(space.mem[..])[t := space.mem[t]]
    ensures forall k :: 0 <= k < PAGE ==>
              space.mem[t][k] == if pageOff <= k < pageOff + len then file[fileOff + k - pageOff]
                                 else old(space.mem[t])[k]
  {
    var mem := space.mem;
    ghost var was := mem[..];
    for i := 0 to len
      invariant |mem[t]| == PAGE && mem[..] == was[t := mem[t]]
      invariant forall k :: 0 <= k < PAGE ==>
                  mem[t][k] == if pageOff <= k < pageOff + i then file[fileOff + k - pageOff] else was[t][k]
    {
      mem[t] := mem[t][pageOff + i := file[fileOff + i]];
    }
  }

  /** Zero the page and copy in the part of the file that falls on it. */
  method FillPage(space: PageDirectory, t: nat, file: seq<byte>, ph: Phdr, vp: nat)
    requires t < space.mem.Length && |space.mem[t]| == PAGE
    requires Bounded(ph) && ph.offset + ph.filesz <= |file|
    modifies space.mem
    ensures space.mem[..] == old(space.mem[..])[t := PageImage(file, ph, vp)]
  {
    hide PageImage, FileEnd;
    ZeroPage(space, t);
    var v := vp * PAGE;
    var lo := if v > ph.vaddr then v else ph.vaddr;
    var hi := if v + PAGE < FileEnd(ph) then v + PAGE else FileEnd(ph);
    CopyBounds(ph, v, lo, hi);
    if lo < hi {
      CopyIn(space, t, lo - v, file, ph.offset + (lo - ph.vaddr), hi - lo);
    }
    CopiedPage(file, ph, vp, lo, hi, space.mem[t]);
  }

  /** One page from the allocator; 0 if there is none. */
  method TakePage(space: PageDirectory) returns (phy: nat)
    requires Sound(space)
    modifies space.pmm.bitmap, space.pmm`freeCount
    ensures Sound(space) && (phy == 0 <==> old(space.View()).free == {})
    ensures phy == 0 ==> space.View() == old(space.View())
    ensures var s := old(space.View());
            phy != 0 ==> phy == Lowest(s.free) * PAGE && space.View() == s.(free := s.free - {Lowest(s.free)})
  {
    hide Good, Wf, FreeSet;
    ghost var s := space.View();
    GoodSizes(s);
    phy := space.pmm.Alloc();
    assert space.dir[..] == s.dir && space.mem[..] == s.mem;
    NullMeansNone(s.free);
    if phy != 0 {
      TakeOne(s);
      GoodSizes(space.View());
    }
  }

  /** Put back the page just taken. */
  method ReturnPage(space: PageDirectory, phy: nat, ghost s: Space)
    requires space.Valid() && Good(s) && phy < WORD && phy % PAGE == 0 && phy / PAGE in s.free
    requires space.View() == s.(free := s.free - {phy / PAGE})
    modifies space.pmm.bitmap, space.pmm`freeCount
    ensures Sound(space) && space.View() == s
  {
    hide Good, Wf, FreeSet;
    GoodSizes(s);
    space.pmm.Release(phy);
    assert space.dir[..] == s.dir && space.mem[..] == s.mem;
    PutBack(s.free, phy / PAGE);
  }

  /** Allocate, map and fill one page through its physical address; a page that cannot be mapped goes back. */
  method LoadOne(space: PageDirectory, file: seq<byte>, ph: Phdr, vp: nat) returns (status: Status)
    requires Sound(space) && ENTRIES <= vp < VPAGES
    requires Bounded(ph) && ph.offset + ph.filesz <= |file|
    modifies space.dir, space.mem, space.pmm.bitmap, space.pmm`freeCount
    ensures space.Valid() && (space.View(), status) == LoadPage(old(space.View()), file, ph, vp)
    ensures Followed(status) ==> Sound(space)
  {
    hide Good, Wf, MapPage, LoadPage, PageImage, Translate, Grown, Spare, Plain, FreeSet, Entry, Present;
    ghost var s := space.View();
    LoadPageGood(s, file, ph, vp);
    var phy := TakePage(space);
    if phy == 0 { return Refused; }
    ghost var t := Lowest(s.free);
    ghost var s1 := s.(free := s.free - {t});
    LoadCases(s, file, ph, vp);
    status := space.VmmMap(vp * PAGE, phy, USER_FLAGS);
    if status == Refused {
      ReturnPage(space, phy, s);
      return;
    }
    if status != Done { return; }
    ghost var m := space.View();
    var mapped, f := space.Lead(phy / PAGE);
    if !mapped { return Faulted; }
    WfSizes(m);
    FrameBound(m, phy / PAGE);
    FillPage(space, f, file, ph, vp);
    assert space.dir[..] == m.dir && space.pmm.Free() == m.free;
    status := if f == phy / PAGE then Done else Astray;
    assert space.Valid() by { GoodSizes(space.View()); }
  }

  /** The code is followed past this page. */
  predicate Followed(status: Status) { GoesOn(status) || status == Refused }

  lemma {:induction false} FrameBound(s: Space, p: nat)
    ensures Frame(Entry(s, p)) < TOTAL
  {
    EntryBound(s, p);
  }

  method LoadSegment(space: PageDirectory, file: seq<byte>, ph: Phdr, img: UserImage)
    returns (status: Status, ghost clean: bool)
    requires Sound(space) && img.Valid() && Apart(img, space)
    requires ENTRIES <= FirstPage(ph)
    requires Bounded(ph) && ph.offset + ph.filesz <= |file|
    modifies space.dir, space.mem, space.pmm.bitmap, space.pmm`freeCount, img`segCount, img.segs
    ensures space.Valid() && img.Valid() && (Returns(status) ==> Sound(space))
    ensures old(img.segCount) >= MAX_SEGMENTS || PageCount(ph) == 0 ==>
              status == Refused && clean && space.View() == old(space.View()) && img.Segs() == old(img.Segs())
    ensures old(img.segCount) < MAX_SEGMENTS && PageCount(ph) > 0 ==>
              var r := LoadPages(old(space.View()), file, ph, FirstPage(ph), PageCount(ph));
              && space.View() == r.s && status == r.status && clean == r.clean
              && (Returns(status) ==> img.Segs() == old(img.Segs()) + [Seg(FirstPage(ph), r.n)])
  {
    SoundIs(space);
    if img.segCount >= MAX_SEGMENTS { return Refused, true; }
    var vp := FirstPage(ph);
    var pages := PageCount(ph);
    if pages == 0 { return Refused, true; }
    SpanFits(ph);
    hide Sound, LoadPages, FirstPage, PageCount, Pages, Translate;
    ghost var segs0 := img.Segs();
    var k := img.segCount;
    img.segCount := k + 1;
    img.segs[k] := Seg(vp, 0);
    var i;
    i, status, clean := LoadRange(space, file, ph, vp, pages, img, k);
    if Returns(status) { assert img.Segs() == segs0 + [Seg(vp, i)]; }
  }

  /** Load pages until one fails or all are there, counting them in segment k of the image. */
  method LoadRange(space: PageDirectory, file: seq<byte>, ph: Phdr, vp: nat, pages: nat, img: UserImage, k: nat)
    returns (i: nat, status: Status, ghost clean: bool)
    requires Sound(space) && img.Valid() && Apart(img, space) && k < img.segs.Length && img.segs[k] == Seg(vp, 0)
    requires ENTRIES <= vp && vp + pages <= VPAGES
    requires Bounded(ph) && ph.offset + ph.filesz <= |file|
    modifies space.dir, space.mem, space.pmm.bitmap, space.pmm`freeCount, img.segs
    ensures space.Valid() && i <= pages && status != Astray
    ensures Loaded(space.View(), i, status, clean) == LoadPages(old(space.View()), file, ph, vp, pages)
    ensures img.segs[..] == old(img.segs[..])[k := Seg(vp, i)]
    ensures Returns(status) ==> Sound(space)
  {
    hide Sound, LoadPages, LoadPage, Pages, Translate;
    ghost var s0, segs0 := space.View(), img.segs[..];
    i, clean := 0, true;
    while i < pages
      invariant i <= pages && Sound(space) && img.segs[..] == segs0[k := Seg(vp, i)]
      invariant var rest := LoadPages(space.View(), file, ph, vp + i, pages - i);
                LoadPages(s0, file, ph, vp, pages) == Loaded(rest.s, rest.n + i, rest.status, rest.clean && clean)
    {
      ghost var s := space.View();
      SoundIs(space);
      RangeStep(s, file, ph, vp + i, pages - i);
      status := LoadOne(space, file, ph, vp + i);
      if !GoesOn(status) { return; }
      clean := clean && status == Done;
      img.segs[k] := Seg(vp, i + 1);
      i := i + 1;
    }
    RangeDone(space.View(), file, ph, vp + i);
    SoundIs(space);
    status := Done;
  }

  // ---- unloading ----

  method UnloadOne(space: PageDirectory, vp: nat)
    requires Sound(space) && ENTRIES <= vp < VPAGES
    modifies space.dir, space.mem, space.pmm.bitmap, space.pmm`freeCount
    ensures Sound(space) && space.View() == UnloadPage(old(space.View()), vp)
  {
    hide Good, Wf, Unmap, GetPhys, FreeSet, Given;
    ghost var s := space.View();
    SoundIs(space);
    assert vp * PAGE < WORD;
    UnloadPageGood(s, vp);
    PhysBound(s, vp * PAGE);
    var pa := space.VmmGetPhys(vp * PAGE);
    space.VmmUnmap(vp * PAGE);
    ghost var s1 := space.View();
    if pa != SENTINEL {
      space.pmm.Release(pa / PAGE * PAGE);
      assert space.dir[..] == s1.dir && space.mem[..] == s1.mem;
    }
    GoodSizes(space.View());
  }

  method UnloadRange(space: PageDirectory, vp: nat, pages: nat)
    requires Sound(space) && ENTRIES <= vp && vp + pages <= VPAGES
    modifies space.dir, space.mem, space.pmm.bitmap, space.pmm`freeCount
    ensures Sound(space) && space.View() == UnloadPages(old(space.View()), vp, pages)
  {
    hide Sound, UnloadPage;
    ghost var s0 := space.View();
    var p := 0;
    while p < pages
      invariant p <= pages && Sound(space)
      invariant UnloadPages(space.View(), vp + p, pages - p) == UnloadPages(s0, vp, pages)
    {
      UnloadOne(space, vp + p);
      p := p + 1;
    }
  }

  /** Unmap every page of an image, free its frames, and free the record. */
  method ElfUnload(space: PageDirectory, heap: KernelHeap.Heap, img: UserImage?, ghost b: nat)
    requires Sound(space) && heap.Valid() && HeapApart(heap, space)
    requires img != null ==> img.Valid() && Apart(img, space) && HeldBy(heap, img, b) && SegsOk(img.Segs())
    modifies space.dir, space.mem, space.pmm.bitmap, space.pmm`freeCount, heap, heap.storage
    ensures Sound(space) && heap.Valid()
    ensures img == null ==> space.View() == old(space.View()) && heap.blocks == old(heap.blocks)
    ensures img != null ==>
              space.View() == Unload(old(space.View()), old(img.Segs()))
              && heap.blocks == HeapBlocks.Free(old(heap.blocks), b)
  {
    if img == null { return; }
    hide Sound, UnloadPages, KernelHeap.Heap.Valid, HeapBlocks.Free;
    ghost var s0, segs := space.View(), img.Segs();
    ghost var blocks := heap.blocks;
    var i := 0;
    while i < img.segCount
      invariant i <= img.segCount && Sound(space) && heap.Valid() && img.Valid() && img.Segs() == segs
      invariant heap.blocks == blocks
      invariant Unload(space.View(), segs[i..]) == Unload(s0, segs)
    {
      assert segs[i..][0] == img.segs[i] && segs[i..][1..] == segs[i + 1..];
      UnloadRange(space, img.segs[i].vp, img.segs[i].pages);
      i := i + 1;
    }
    FreeRecord(heap, img.addr, b);
  }

  // ---- loading a program ----

  /** The place in the file of no segment to be loaded wraps around. */
  ghost predicate AllBounded(phs: seq<Phdr>) {
    forall i :: 0 <= i < |phs| && Wanted(phs[i]) ==> Bounded(phs[i])
  }

  /** The segments to be loaded lie at or above 4 MB. */
  ghost predicate Upper(phs: seq<Phdr>) {
    forall i :: 0 <= i < |phs| && Wanted(phs[i]) ==> ENTRIES <= FirstPage(phs[i]) && phs[i].vaddr < WORD
  }

  /** What a load does: the header is refused, there is no room for the record, or the segments are loaded. */
  ghost function Attempt(s: Space, file: seq<byte>, blocks: seq<HeapBlocks.Block>): (Space, Outcome)
  {
    if !HeaderOk(file) then (s, Outcome([], Returned(-2), true))
    else if HeapBlocks.Malloc(blocks, IMAGE_SIZE).Refused? then (s, Outcome([], Returned(-3), true))
    else LoadAll(s, file, Phdrs(file), 0)
  }

  /** No segment of an accepted file is to lie where something is mapped or on a page of another. */
  ghost predicate Tidy(s: Space, file: seq<byte>) { HeaderOk(file) ==> Clean(s, Phdrs(file)) }

  /** What loading comes to when it fails: nothing, but for pages in use if a write has gone astray. */
  ghost predicate Undone(s0: Space, s: Space, clean: bool) { Regained(s0, s) && (clean ==> Restored(s0, s)) }

  /**
   Load a program, or give everything back. If its segments are apart: when it returns 0, when it does so with every
   page in its place (clean), when it does not return or is lost sight of, and that a failure leaves nothing behind.
   */
  method ElfLoad(space: PageDirectory, heap: KernelHeap.Heap, file: seq<byte>)
    returns (end: Ending, img: UserImage?, ghost b: nat, ghost clean: bool)
    requires Sound(space) && heap.Valid() && HeapApart(heap, space) && |file| < WORD && TableFits(file)
    requires HeaderOk(file) ==> Upper(Phdrs(file)) && AllBounded(Phdrs(file))
    modifies space.dir, space.mem, space.pmm.bitmap, space.pmm`freeCount, heap, heap.storage
    ensures space.Valid() && heap.Valid() && (end.Returned? ==> Sound(space))
    ensures var r := Attempt(old(space.View()), file, old(heap.blocks)).1; end == r.end && clean == r.clean
    ensures end == Returned(-2) <==> !HeaderOk(file)
    ensures end == Returned(-3) <==> HeaderOk(file) && HeapBlocks.Malloc(old(heap.blocks), IMAGE_SIZE).Refused?
    ensures end.Returned? && end.code != 0 ==>
              var r := Attempt(old(space.View()), file, old(heap.blocks));
              img == null && heap.blocks == old(heap.blocks) && space.View() == Unload(r.0, r.1.segs)
    ensures end == Returned(0) ==>
              var r := Attempt(old(space.View()), file, old(heap.blocks));
              && img != null && img.Valid() && fresh(img) && fresh(img.segs) && HeldBy(heap, img, b)
              && space.View() == r.0 && img.Segs() == r.1.segs && SegsOk(img.Segs()) && img.entry == Word(file, 24)
              && HeapBlocks.Malloc(old(heap.blocks), IMAGE_SIZE) == HeapBlocks.Granted(heap.blocks, b)
              && heap.blocks[b].size >= 4 + 4 + 8 * (4 + 4)
    ensures Tidy(old(space.View()), file) ==>
              (end == Returned(0) <==>
                 && HeaderOk(file) && HeapBlocks.Malloc(old(heap.blocks), IMAGE_SIZE).Granted?
                 && Verdict(file, Phdrs(file), 0) == 0 && Carried(old(space.View()), Demand(file, Phdrs(file), 0)))
    ensures Tidy(old(space.View()), file) && end == Returned(0) ==>
              (clean <==> Placed(old(space.View()), Demand(file, Phdrs(file), 0)))
    ensures Tidy(old(space.View()), file) && !end.Returned? ==>
              var s, qs := old(space.View()), Demand(file, Phdrs(file), 0); !Carried(s, qs) && !Short(s, qs)
    ensures Tidy(old(space.View()), file) && end.Returned? && end.code != 0 ==>
              Undone(old(space.View()), space.View(), clean)
  {
    hide Sound, HeaderOk, Clean, LoadAll, KernelHeap.Heap.Valid, KernelHeap.PayloadsKept, Phdrs, Undone, Unload, Upper;
    hide HeapBlocks.Malloc, HeapBlocks.Wf, HeapBlocks.Off, Tidy, SegsOk;
    hide Word, Half, AllBounded, Good, Wf, Carried, Placed, Short, Verdict, Demand;
    ghost var s0, blocks := space.View(), heap.blocks;
    SoundIs(space);
    if Tidy(s0, file) { AttemptEnds(s0, file, blocks); }
    LoadCodes(s0, file, Phdrs(file), 0);
    UnloadNone(s0);
    if !HeaderOk(file) { return Returned(-2), null, 0, true; }
    AcceptedTableIsInFile(file);
    HeapWf(heap);
    var ptr := heap.Kmalloc(IMAGE_SIZE);
    ghost var grant := HeapBlocks.Malloc(blocks, IMAGE_SIZE);
    PayloadNonzero(heap, grant, ptr);
    if ptr == 0 { return Returned(-3), null, 0, true; }
    b := grant.i;
    GrantIsUsed(blocks, grant);
    img := new UserImage(ptr, Word(file, 24));
    end, clean := LoadInto(space, heap, file, img, blocks, b);
    if end != Returned(0) { img := null; }
  }

  /** The codes of a load itself. */
  lemma {:induction false} LoadCodes(s: Space, file: seq<byte>, phs: seq<Phdr>, k: nat)
    ensures var end := LoadAll(s, file, phs, k).1.end; end.Returned? ==> end.code in {0, -4, -5}
    decreases |phs|
  {
    hide LoadPages, PageCount, FirstPage, Wanted;
    if phs != [] {
      LoadCodes(s, file, phs[1..], k);
      LoadCodes(LoadPages(s, file, phs[0], FirstPage(phs[0]), PageCount(phs[0])).s, file, phs[1..], k + 1);
    }
  }

  lemma {:induction false} UnloadNone(s: Space)
    ensures Unload(s, []) == s
  {
  }

  lemma {:induction false} AttemptEnds(s: Space, file: seq<byte>, blocks: seq<HeapBlocks.Block>)
    requires Good(s) && Tidy(s, file)
    ensures var r, qs := Attempt(s, file, blocks), Demand(file, Phdrs(file), 0);
            && (r.1.end == Returned(0) <==>
                  && HeaderOk(file) && HeapBlocks.Malloc(blocks, IMAGE_SIZE).Granted?
                  && Verdict(file, Phdrs(file), 0) == 0 && Carried(s, qs))
            && (r.1.end == Returned(0) ==> (r.1.clean <==> Placed(s, qs)))
            && (!r.1.end.Returned? ==> !Carried(s, qs) && !Short(s, qs))
            && (r.1.end.Returned? ==> Undone(s, Unload(r.0, r.1.segs), r.1.clean))
  {
    hide Good, Clean, LoadAll, Carried, Placed, Short, Demand, HeaderOk, Phdrs, HeapBlocks.Malloc, Restored, Regained;
    RestoredSame(s);
    UnloadNone(s);
    if HeaderOk(file) {
      LoadFate(s, file, Phdrs(file), 0);
      LoadThenUnload(s, file, Phdrs(file));
    }
  }

  /** Load into a fresh record, or give everything back, the record included. */
  method LoadInto(space: PageDirectory, heap: KernelHeap.Heap, file: seq<byte>, im: UserImage,
                  ghost blocks: seq<HeapBlocks.Block>, ghost b: nat)
    returns (end: Ending, ghost clean: bool)
    requires Sound(space) && heap.Valid() && HeapApart(heap, space)
    requires im.Valid() && Apart(im, space) && HeldBy(heap, im, b) && im.Segs() == []
    requires |file| >= EHDR_SIZE && ProgramOffset(file) + ProgramCount(file) * PHDR_SIZE <= |file| < WORD
    requires Upper(Phdrs(file)) && AllBounded(Phdrs(file))
    requires HeapBlocks.Wf(blocks) && HeapBlocks.Malloc(blocks, IMAGE_SIZE) == HeapBlocks.Granted(heap.blocks, b)
    modifies space.dir, space.mem, space.pmm.bitmap, space.pmm`freeCount, heap, heap.storage, im`segCount, im.segs
    ensures space.Valid() && heap.Valid() && (end.Returned? ==> Sound(space))
    ensures var r := LoadAll(old(space.View()), file, Phdrs(file), 0).1; end == r.end && clean == r.clean
    ensures end.Returned? && end.code != 0 ==>
              var r := LoadAll(old(space.View()), file, Phdrs(file), 0);
              space.View() == Unload(r.0, r.1.segs) && heap.blocks == blocks
    ensures end == Returned(0) ==>
              var r := LoadAll(old(space.View()), file, Phdrs(file), 0);
              && im.Valid() && HeldBy(heap, im, b) && space.View() == r.0 && im.Segs() == r.1.segs
              && SegsOk(im.Segs()) && heap.blocks == old(heap.blocks)
  {
    hide Sound, Upper, LoadAll, KernelHeap.Heap.Valid, HeapBlocks.Malloc, HeapBlocks.Free, HeapBlocks.Wf;
    hide Phdrs, Unload, Word, Half, Good, Wf, SegsOk;
    ghost var s0 := space.View();
    SoundIs(space);
    LoadAllGood(s0, file, Phdrs(file), 0);
    HeapBlocks.FreeUndoesMalloc(blocks, IMAGE_SIZE);
    end, clean := LoadHeaders(space, heap, file, im, s0, b);
    if end.Returned? && end.code != 0 {
      ElfUnload(space, heap, im, b);
      SoundIs(space);
    }
  }

  /** The loop over the program headers. */
  method LoadHeaders(space: PageDirectory, heap: KernelHeap.Heap, file: seq<byte>, im: UserImage, ghost s0: Space,
                     ghost b: nat)
    returns (end: Ending, ghost clean: bool)
    requires Sound(space) && heap.Valid() && HeapApart(heap, space)
    requires im.Valid() && Apart(im, space) && HeldBy(heap, im, b) && im.Segs() == []
    requires |file| >= EHDR_SIZE && ProgramOffset(file) + ProgramCount(file) * PHDR_SIZE <= |file| < WORD
    requires space.View() == s0 && Upper(Phdrs(file)) && AllBounded(Phdrs(file))
    modifies space.dir, space.mem, space.pmm.bitmap, space.pmm`freeCount, im`segCount, im.segs
    ensures space.Valid() && heap.Valid() && im.Valid() && (end.Returned? ==> Sound(space))
    ensures var r := LoadAll(s0, file, Phdrs(file), 0);
            r.0 == space.View() && r.1.end == end && r.1.clean == clean && (end.Returned? ==> r.1.segs == im.Segs())
  {
    hide Sound, Upper, LoadAll, LoadPages, KernelHeap.Heap.Valid, Phdrs, PhdrAt, PageCount, FirstPage, Wanted;
    hide Word, Half, Bounded, SegPages, Good, Wf;
    ghost var phs := Phdrs(file);
    var i := 0;
    clean := true;
    var n := ProgramCount(file);
    assert phs[0..] == phs;
    AheadNone(LoadAll(s0, file, phs, 0));
    while i < n
      invariant i <= n == |phs| && Sound(space) && heap.Valid() && im.Valid() && Upper(phs[i..])
      invariant LoadAll(s0, file, phs, 0) == Ahead(im.Segs(), clean, LoadAll(space.View(), file, phs[i..], im.segCount))
    {
      ghost var s, k, segs := space.View(), im.segCount, im.Segs();
      assert segs + [] == segs;
      TableBound(file, i);
      var ph := PhdrAt(file, i);
      assert phs[i..][0] == ph && phs[i..][1..] == phs[i + 1..];
      SoundIs(space);
      HeadersStep(s, file, phs[i..], k);
      i := i + 1;
      if !Wanted(ph) { continue; }
      if (ph.offset + ph.filesz) % WORD > |file| { return Returned(-4), clean; }
      assert ph.offset + ph.filesz <= |file| by { NoWrap(ph, |file|); }
      var status;
      ghost var whole;
      status, whole := LoadSegment(space, file, ph, im);
      if status != Done { return EndOf(status), clean && whole; }
      AheadMore(segs, clean, Seg(FirstPage(ph), PageCount(ph)), whole, LoadAll(space.View(), file, phs[i..], k + 1));
      clean := clean && whole;
    }
    assert phs[i..] == [];
    HeadersDone(space.View(), file, im.segCount);
    assert im.Segs() + [] == im.Segs();
    SoundIs(space);
    return Returned(0), clean;
  }

  /** A result with earlier segments put in front. */
  ghost function Ahead(segs: seq<Seg>, clean: bool, r: (Space, Outcome)): (Space, Outcome) {
    (r.0, Outcome(segs + r.1.segs, r.1.end, r.1.clean && clean))
  }

  lemma {:induction false} AheadNone(r: (Space, Outcome))
    ensures Ahead([], true, r) == r
  {
    assert [] + r.1.segs == r.1.segs;
  }

  lemma {:induction false} AheadMore(segs: seq<Seg>, clean: bool, seg: Seg, whole: bool, r: (Space, Outcome))
    ensures Ahead(segs + [seg], clean && whole, r) ==
            Ahead(segs, clean, (r.0, Outcome([seg] + r.1.segs, r.1.end, r.1.clean && whole)))
  {
    assert segs + [seg] + r.1.segs == segs + ([seg] + r.1.segs);
  }

  lemma {:induction false} TableBound(file: seq<byte>, i: nat)
    requires |file| >= EHDR_SIZE && ProgramOffset(file) + ProgramCount(file) * PHDR_SIZE <= |file|
    requires i < ProgramCount(file)
    ensures ProgramOffset(file) + (i + 1) * PHDR_SIZE <= |file|
    ensures i < |Phdrs(file)| == ProgramCount(file) && Phdrs(file)[i] == PhdrAt(file, i)
  {
    hide Word, Half, PhdrAt;
  }

  lemma {:induction false} NoWrap(ph: Phdr, size: nat)
    requires Bounded(ph) && (ph.offset + ph.filesz) % WORD <= size
    ensures ph.offset + ph.filesz <= size
  {
  }

  lemma {:induction false} HeadersDone(s: Space, file: seq<byte>, k: nat)
    ensures LoadAll(s, file, [], k) == (s, Outcome([], Returned(0), true))
  {
  }

  /** One round of the loop over the headers. */
  lemma {:induction false} HeadersStep(s: Space, file: seq<byte>, phs: seq<Phdr>, k: nat)
    requires Good(s) && phs != [] && Upper(phs)
    ensures Upper(phs[1..])
    ensures var ph := phs[0];
            var all := LoadAll(s, file, phs, k);
            var n := PageCount(ph);
            if !Wanted(ph) then all == LoadAll(s, file, phs[1..], k)
            else
              && ENTRIES <= FirstPage(ph) && ph.vaddr < WORD
              && if (ph.offset + ph.filesz) % WORD > |file| then all == (s, Outcome([], Returned(-4), true))
                 else if k >= MAX_SEGMENTS || n == 0 then all == (s, Outcome([], Returned(-5), true))
                 else
                   var r := LoadPages(s, file, ph, FirstPage(ph), n);
                   var seg := Seg(FirstPage(ph), r.n);
                   && SegsOk([seg])
                   && (r.status != Done ==> all == (r.s, Outcome([seg], EndOf(r.status), r.clean)))
                   && (EndOf(r.status).Returned? ==> Returns(r.status) && Good(r.s))
                   && (r.status == Done ==>
                         var rest := LoadAll(r.s, file, phs[1..], k + 1);
                         && r.n == n
                         && all == (rest.0, Outcome([seg] + rest.1.segs, rest.1.end, rest.1.clean && r.clean)))
  {
    hide Good, LoadPages, FirstPage, PageCount;
    var ph := phs[0];
    if Wanted(ph) {
      SpanFits(ph);
      LoadPagesGood(s, file, ph, FirstPage(ph), PageCount(ph));
    }
  }

  /** A load that returns leaves the tables in order, and has recorded pages at or above 4 MB. */
  lemma {:induction false} LoadAllGood(s: Space, file: seq<byte>, phs: seq<Phdr>, k: nat)
    requires Good(s) && Upper(phs)
    ensures var r := LoadAll(s, file, phs, k); r.1.end.Returned? ==> Good(r.0) && SegsOk(r.1.segs)
    decreases |phs|
  {
    hide Good, LoadPages, FirstPage, PageCount, Wanted, Upper, LoadAll;
    if phs == [] {
      HeadersDone(s, file, k);
    } else {
      var ph := phs[0];
      HeadersStep(s, file, phs, k);
      var r := LoadPages(s, file, ph, FirstPage(ph), PageCount(ph));
      if !Wanted(ph) {
        LoadAllGood(s, file, phs[1..], k);
      } else if (ph.offset + ph.filesz) % WORD <= |file| && k < MAX_SEGMENTS && PageCount(ph) != 0 && r.status == Done {
        LoadAllGood(r.s, file, phs[1..], k + 1);
      }
    }
  }

  lemma {:induction false} RestoredSame(s: Space)
    requires Good(s)
    ensures Restored(s, s)
  {
    assert |s.mem| == TOTAL by { GoodSizes(s); }
  }

  lemma {:induction false} HeapWf(heap: KernelHeap.Heap)
    requires heap.Valid()
    ensures HeapBlocks.Wf(heap.blocks)
  {
  }

  lemma {:induction false} GrantIsUsed(bs: seq<HeapBlocks.Block>, grant: HeapBlocks.Grant)
    requires HeapBlocks.Wf(bs) && grant == HeapBlocks.Malloc(bs, IMAGE_SIZE) && grant.Granted?
    ensures grant.i < |grant.blocks| && grant.blocks[grant.i].used && grant.blocks[grant.i].size >= 72
  {
    HeapBlocks.GrantHoldsRequest(bs, IMAGE_SIZE);
  }

  lemma {:induction false} PayloadNonzero(heap: KernelHeap.Heap, grant: HeapBlocks.Grant, ptr: nat)
    requires match grant
             case Refused => ptr == 0
             case Granted(cs, i) => i < |cs| && ptr == heap.base + HeapBlocks.Payload(cs, i)
    ensures ptr == 0 <==> grant.Refused?
  {
  }

  /** Freeing the block at an address frees that block. */
  method FreeRecord(heap: KernelHeap.Heap, addr: nat, ghost b: nat)
    requires heap.Valid() && b < |heap.blocks| && heap.blocks[b].used
    requires addr == heap.base + HeapBlocks.Payload(heap.blocks, b)
    modifies heap, heap.storage
    ensures heap.Valid() && heap.blocks == HeapBlocks.Free(old(heap.blocks), b)
  {
    hide HeapBlocks.Free, HeapBlocks.Off, HeapBlocks.Wf, KernelHeap.Holds;
    BlockAddress(heap.blocks, b);
    KernelHeap.OnlyBlockHere(heap.blocks, b);
    var panicked, i := heap.Kfree(addr);
  }

  ghost predicate HeapApart(heap: KernelHeap.Heap, space: PageDirectory) {
    && (heap.storage as object) != space.dir && (heap.storage as object) != space.mem
    && (heap.storage as object) != space.pmm && (heap.storage as object) != space.pmm.bitmap
    && (heap as object) != space.dir && (heap as object) != space.mem && (heap as object) != space.pmm
    && (heap as object) != space.pmm.bitmap
  }

  /** The record of the image is the used block b of the heap. */
  ghost predicate HeldBy(heap: KernelHeap.Heap, img: UserImage, b: nat)
    reads heap
  {
    && b < |heap.blocks| && heap.blocks[b].used && img.addr == heap.base + HeapBlocks.Payload(heap.blocks, b)
    && (img.segs as object) != heap.storage && (img as object) != heap && (img as object) != heap.storage
    && (img.segs as object) != heap
  }

  lemma {:induction false} UnloadPageGood(s: Space, vp: nat)
    requires Good(s) && ENTRIES <= vp < VPAGES
    ensures Good(UnloadPage(s, vp))
  {
    UnloadPageShrinks(s, vp);
    ShrunkGood(s, UnloadPage(s, vp), {vp});
  }

  lemma {:induction false} PhysBound(s: Space, v: nat)
    requires Good(s) && v < WORD
    ensures GetPhys(s, v) / PAGE * PAGE < WORD
  {
    EntryBound(s, v / PAGE);
  }

  lemma {:induction false} EntryBound(s: Space, vp: nat)
    ensures Entry(s, vp) < WORD
  {
  }

  lemma {:induction false} SoundIs(space: PageDirectory)
    requires Sound(space)
    ensures space.Valid() && Good(space.View())
  {
  }

  lemma {:induction false} RangeDone(s: Space, file: seq<byte>, ph: Phdr, vp: nat)
    ensures LoadPages(s, file, ph, vp, 0) == Loaded(s, 0, Done, true)
  {
  }

  /** One round of the loop. */
  lemma {:induction false} RangeStep(s: Space, file: seq<byte>, ph: Phdr, vp: nat, n: nat)
    requires n > 0
    ensures var r := LoadPage(s, file, ph, vp);
            if GoesOn(r.1) then
              var rest := LoadPages(r.0, file, ph, vp + 1, n - 1);
              LoadPages(s, file, ph, vp, n) ==
              Loaded(rest.s, rest.n + 1, rest.status, rest.clean && r.1 == Done)
            else LoadPages(s, file, ph, vp, n) == Loaded(r.0, 0, r.1, true)
  {
    hide LoadPage;
  }

  lemma {:induction false} GoodSizes(s: Space)
    requires Good(s)
    ensures Wf(s) && |s.mem| == TOTAL && (forall p :: 0 <= p < TOTAL ==> |s.mem[p]| == PAGE)
    ensures forall p :: p in s.free ==> 1 <= p < TOTAL
  {
  }

  /** Loading a page keeps the tables in order, whatever was mapped there before. */
  lemma {:induction false} LoadPageGood(s: Space, file: seq<byte>, ph: Phdr, vp: nat)
    requires Good(s) && ENTRIES <= vp < VPAGES
    ensures Followed(LoadPage(s, file, ph, vp).1) ==> Good(LoadPage(s, file, ph, vp).0)
    ensures s.free == {} ==> LoadPage(s, file, ph, vp) == (s, Refused)
  {
    hide Good, Translate, MapPage, PageImage, LoadPage, FillAt;
    if s.free == {} {
      NoPageLeft(s, file, ph, vp);
    } else {
      LoadPageIs(s, file, ph, vp);
      var t := Lowest(s.free);
      if MapPage(s.(free := s.free - {t}), vp * PAGE, t * PAGE, USER_FLAGS).1 == Done {
        FillKeepsGood(s, t, vp, PageImage(file, ph, vp));
      }
    }
  }

  lemma {:induction false} FillKeepsGood(s: Space, t: nat, vp: nat, page: seq<byte>)
    requires Good(s) && ENTRIES <= vp < VPAGES && |page| == PAGE
    requires s.free != {} && t == Lowest(s.free) && vp * PAGE < WORD && t * PAGE < WORD
    requires MapPage(s.(free := s.free - {t}), vp * PAGE, t * PAGE, USER_FLAGS).1 == Done
    ensures Good(FillAt(MapPage(s.(free := s.free - {t}), vp * PAGE, t * PAGE, USER_FLAGS).0, t, page).0)
  {
    hide MapPage, Good, Translate, Tables;
    PageTaken(s, t, vp);
    var s2 := MapPage(s.(free := s.free - {t}), vp * PAGE, t * PAGE, USER_FLAGS).0;
    WhereItLeads(s2, t, vp);
    if Mapped(s2, t) { PlainWrite(s2, Frame(Entry(s2, t)), page); }
  }

  lemma {:induction false} LoadPagesGood(s: Space, file: seq<byte>, ph: Phdr, vp: nat, n: nat)
    requires Good(s) && ENTRIES <= vp && vp + n <= VPAGES
    ensures var r := LoadPages(s, file, ph, vp, n);
            r.n <= n && (r.n == n <==> r.status == Done) && r.status != Astray && (Returns(r.status) ==> Good(r.s))
    decreases n
  {
    hide Good, LoadPage;
    if n > 0 {
      LoadPageGood(s, file, ph, vp);
      var r := LoadPage(s, file, ph, vp);
      if GoesOn(r.1) { LoadPagesGood(r.0, file, ph, vp + 1, n - 1); }
    }
  }

  /** The ways loading a page can go once a page has been taken. */
  lemma {:induction false} LoadCases(s: Space, file: seq<byte>, ph: Phdr, vp: nat)
    requires Good(s) && ENTRIES <= vp < VPAGES && s.free != {}
    ensures var t := Lowest(s.free);
            var s1 := s.(free := s.free - {t});
            && t in s.free && t < TOTAL && t * PAGE < WORD && t * PAGE / PAGE == t && t * PAGE % PAGE == 0
            && vp * PAGE < WORD && Plain(s1, t)
            && var m := MapPage(s1, vp * PAGE, t * PAGE, USER_FLAGS);
               && Wf(m.0) && m.1 != Astray && (m.1 == Refused ==> m.0 == s1)
               && LoadPage(s, file, ph, vp) ==
                  if m.1 == Refused then (s, Refused)
                  else if m.1 == Done then FillAt(m.0, t, PageImage(file, ph, vp))
                  else m
  {
    hide Good, Wf, Translate, MapPage, PageImage, Plain, HasTable, Low, LoadPage, FillAt, Mapped;
    LoadPageIs(s, file, ph, vp);
    TakeOne(s);
    var t := Lowest(s.free);
    var s1 := s.(free := s.free - {t});
    TableMember(s1, t);
    WfOfGood(s1);
    PageAddress(t);
    PageAddress(vp);
    MapOne(s1, vp, t);
  }

  lemma {:induction false} WfSizes(s: Space)
    requires Wf(s)
    ensures |s.mem| == TOTAL && forall p :: 0 <= p < TOTAL ==> |s.mem[p]| == PAGE
  {
  }

  lemma {:induction false} PutBack(free: set<nat>, t: nat)
    requires t in free && t < TOTAL
    ensures Given(free - {t}, t * PAGE) == free
  {
  }
}
