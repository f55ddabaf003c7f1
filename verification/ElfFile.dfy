/**
 * Programs as the bytes of a file: what an accepted header is, which segments are loaded, and what the program reads.
 */
module ElfFile {
  import opened Bytes
  import opened PhysicalPages
  import opened PageTables
  import opened ElfImage
  import opened ElfRuns
  import opened ElfRoom
  import opened ElfLoader
  import opened Processor
  import ElfStart
  import HeapBlocks

  // ---- the file header ----

  /** What is accepted, byte by byte: ELF, 32 bits, little endian, executable, for the 386, headers of 32 bytes. */
  lemma {:induction false} AcceptedIff(file: seq<byte>)
    ensures HeaderOk(file) <==>
              && |file| >= 52 && file[..6] == [0x7F, 0x45, 0x4C, 0x46, 1, 1]
              && file[16] == 2 && file[17] == 0 && file[18] == 3 && file[19] == 0 && file[42] == 32 && file[43] == 0
              && (file[28] as int + 0x100 * (file[29] as int) + 0x1_0000 * (file[30] as int)
                  + 0x100_0000 * (file[31] as int)
                  + 32 * (file[44] as int + 0x100 * (file[45] as int))) % 0x1_0000_0000 <= |file|
  {
    if |file| >= 52 {
      var h := file[..6];
      assert h[0] == file[0] && h[1] == file[1] && h[2] == file[2] && h[3] == file[3] && h[4] == file[4]
             && h[5] == file[5];
    }
  }

  // ---- the program headers, where they lie in the file ----

  /** The file holds its program headers. */
  predicate InFile(file: seq<byte>) { |file| >= 52 && Word(file, 28) + 32 * Half(file, 44) <= |file| < 0x1_0000_0000 }

  /** Word k of program header i. */
  function Field(file: seq<byte>, i: nat, k: nat): nat
    requires InFile(file) && i < Half(file, 44) && k + 4 <= 32
  {
    Word(file, Word(file, 28) + 32 * i + k)
  }

  /** Header i asks for a segment to be loaded. */
  predicate Loads(file: seq<byte>, i: nat) {
    InFile(file) && i < Half(file, 44) && Field(file, i, 0) == 1 && Field(file, i, 20) > 0
  }

  /** Page q is one of those that hold the segment of header i. */
  predicate Occupies(file: seq<byte>, i: nat, q: nat) {
    && Loads(file, i)
    && Field(file, i, 8) / 0x1000 <= q < (Field(file, i, 8) + Field(file, i, 20) + 0xFFF) % 0x1_0000_0000 / 0x1000
  }

  /**
   * The segments lie at or above 4 MB and neither they nor their places in the file wrap around; the processor finds
   * none of their pages mapped; no two share a page.
   */
  ghost predicate Neat(s: Space, file: seq<byte>) {
    && InFile(file)
    && (forall i: nat :: Loads(file, i) ==>
          && Field(file, i, 8) >= 0x40_0000 && Field(file, i, 8) + Field(file, i, 16) < 0x1_0000_0000
          && Field(file, i, 4) + Field(file, i, 16) < 0x1_0000_0000)
    && (forall i: nat, q: nat :: Occupies(file, i, q) ==> Walk(s.dir, s.mem, q * 0x1000, false).Fault?)
    && (forall i: nat, j: nat, q: nat :: Occupies(file, i, q) && Occupies(file, j, q) ==> i == j)
  }

  /** The header the loader works with is the one in the file. */
  lemma {:induction false} HeaderIs(file: seq<byte>, i: nat)
    requires InFile(file) && i < Half(file, 44)
    ensures |Phdrs(file)| == Half(file, 44)
    ensures Phdrs(file)[i] ==
            Phdr(Field(file, i, 0), Field(file, i, 4), Field(file, i, 8), Field(file, i, 16), Field(file, i, 20))
    ensures Wanted(Phdrs(file)[i]) <==> Loads(file, i)
    ensures forall q :: q in SegPages(Phdrs(file)[i]) && Loads(file, i) <==> q >= 0 && Occupies(file, i, q)
  {
    hide Word, Half;
    TableBound(file, i);
  }

  lemma {:induction false} NeatIsClean(s: Space, file: seq<byte>)
    requires Wf(s) && Neat(s, file)
    ensures Clean(s, Phdrs(file)) && AllBounded(Phdrs(file)) && Upper(Phdrs(file))
  {
    hide Word, Half, Field, SegPages, Occupies, Loads, Walk, Phdrs, Translate, Wf, InFile;
    var phs := Phdrs(file);
    forall i | 0 <= i < |phs| && Wanted(phs[i])
      ensures ENTRIES <= FirstPage(phs[i]) && phs[i].vaddr < WORD && SegPages(phs[i]) !! Translate(s).Keys
      ensures Bounded(phs[i])
    {
      HeaderCount(file);
      HeaderIs(file, i);
      FieldBound(file, i, 20);
      FieldBound(file, i, 16);
      FieldBound(file, i, 8);
      forall q | q in SegPages(phs[i]) ensures q !in Translate(s) {
        assert Occupies(file, i, q);
        UnmappedPage(s, file, i, q);
      }
    }
    forall i, j | 0 <= i < j < |phs| && Wanted(phs[i]) && Wanted(phs[j]) ensures SegPages(phs[i]) !! SegPages(phs[j]) {
      HeaderCount(file);
      HeaderIs(file, i);
      HeaderIs(file, j);
    }
  }

  lemma {:induction false} HeaderCount(file: seq<byte>)
    requires InFile(file)
    ensures |Phdrs(file)| == Half(file, 44)
  {
    hide Word, Half;
  }

  lemma {:induction false} FieldBound(file: seq<byte>, i: nat, k: nat)
    requires InFile(file) && i < Half(file, 44) && k + 4 <= 32
    ensures Field(file, i, k) < 0x1_0000_0000
  {
  }

  lemma {:induction false} UnmappedPage(s: Space, file: seq<byte>, i: nat, q: nat)
    requires Wf(s) && Occupies(file, i, q) && Walk(s.dir, s.mem, q * 0x1000, false).Fault?
    ensures q !in Translate(s)
  {
    hide Walk, Word, Half, Translate;
    assert q * 0x1000 < 0x1_0000_0000 && q * 0x1000 / PAGE == q;
    GetPhysIsWalk(s, q * 0x1000);
  }

  // ---- programs keep their access ----

  lemma {:induction false} LoadPageStaysOpen(s: Space, file: seq<byte>, ph: Phdr, vp: nat)
    requires Good(s) && Open(s) && ENTRIES <= vp < VPAGES
    ensures Followed(LoadPage(s, file, ph, vp).1) ==> Open(LoadPage(s, file, ph, vp).0)
  {
    hide Good, Wf, Translate, MapPage, PageImage, LoadPage, Open, FillAt, Plain;
    if s.free == {} {
      NoPageLeft(s, file, ph, vp);
    } else {
      LoadPageIs(s, file, ph, vp);
      LoadCases(s, file, ph, vp);
      var t := Lowest(s.free);
      var s1 := s.(free := s.free - {t});
      TakeOne(s);
      WfOfGood(s1);
      FewerStayOpen(s, s1);
      MapStaysOpen(s1, vp, t);
      if MapPage(s1, vp * PAGE, t * PAGE, USER_FLAGS).1 == Done { FillStaysOpen(s, t, vp, PageImage(file, ph, vp)); }
    }
  }

  lemma {:induction false} FewerStayOpen(s: Space, s1: Space)
    requires Open(s) && s1.dir == s.dir && s1.mem == s.mem
    ensures Open(s1)
  {
    SameEntries(s, s1);
    hide Entry;
  }

  lemma {:induction false} FillStaysOpen(s: Space, t: nat, vp: nat, page: seq<byte>)
    requires Good(s) && ENTRIES <= vp < VPAGES && |page| == PAGE
    requires s.free != {} && t == Lowest(s.free) && vp * PAGE < WORD && t * PAGE < WORD
    requires MapPage(s.(free := s.free - {t}), vp * PAGE, t * PAGE, USER_FLAGS).1 == Done
    requires Open(MapPage(s.(free := s.free - {t}), vp * PAGE, t * PAGE, USER_FLAGS).0)
    ensures Open(FillAt(MapPage(s.(free := s.free - {t}), vp * PAGE, t * PAGE, USER_FLAGS).0, t, page).0)
  {
    hide MapPage, Good, Translate, Tables;
    PageTaken(s, t, vp);
    var s2 := MapPage(s.(free := s.free - {t}), vp * PAGE, t * PAGE, USER_FLAGS).0;
    WhereItLeads(s2, t, vp);
    if Mapped(s2, t) { WriteStaysOpen(s2, Frame(Entry(s2, t)), page); }
  }

  lemma {:induction false} WriteStaysOpen(s: Space, p: nat, page: seq<byte>)
    requires Good(s) && Open(s) && p < TOTAL && p !in Tables(s) && |page| == PAGE && |s.mem| == TOTAL
    ensures Open(s.(mem := s.mem[p := page]))
  {
    hide Tables, Private, Direct, NoAlias;
    var s' := s.(mem := s.mem[p := page]);
    hide Entry;
    forall q: nat ensures Entry(s', q) == Entry(s, q) { PlainWriteEntry(s, p, page, q); }
  }

  lemma {:induction false} LoadPagesStaysOpen(s: Space, file: seq<byte>, ph: Phdr, vp: nat, n: nat)
    requires Good(s) && Open(s) && ENTRIES <= vp && vp + n <= VPAGES
    ensures var r := LoadPages(s, file, ph, vp, n); Returns(r.status) ==> Open(r.s)
    decreases n
  {
    hide Good, Open, LoadPage;
    if n > 0 {
      LoadPageGood(s, file, ph, vp);
      LoadPageStaysOpen(s, file, ph, vp);
      var r := LoadPage(s, file, ph, vp);
      if GoesOn(r.1) { LoadPagesStaysOpen(r.0, file, ph, vp + 1, n - 1); }
    }
  }

  /** Whatever is loaded, programs may reach every page that is mapped. */
  lemma {:induction false} LoadStaysOpen(s: Space, file: seq<byte>, phs: seq<Phdr>, k: nat)
    requires Good(s) && Open(s) && Upper(phs)
    ensures var r := LoadAll(s, file, phs, k); r.1.end.Returned? ==> Open(r.0)
    decreases |phs|
  {
    hide Good, Open, LoadPages, FirstPage, PageCount, Wanted, Upper, LoadAll;
    if phs == [] {
      HeadersDone(s, file, k);
    } else {
      var ph := phs[0];
      HeadersStep(s, file, phs, k);
      var r := LoadPages(s, file, ph, FirstPage(ph), PageCount(ph));
      if !Wanted(ph) {
        LoadStaysOpen(s, file, phs[1..], k);
      } else if (ph.offset + ph.filesz) % WORD <= |file| && k < MAX_SEGMENTS && PageCount(ph) != 0 {
        SpanFits(ph);
        LoadPagesStaysOpen(s, file, ph, FirstPage(ph), PageCount(ph));
        if r.status == Done { LoadStaysOpen(r.s, file, phs[1..], k + 1); }
      }
    }
  }

  lemma {:induction false} UnloadPagesStaysOpen(s: Space, vp: nat, n: nat)
    requires Good(s) && Open(s) && ENTRIES <= vp && vp + n <= VPAGES
    ensures Open(UnloadPages(s, vp, n)) && Good(UnloadPages(s, vp, n))
    decreases n
  {
    hide Good, Open, UnloadPage;
    if n > 0 {
      UnloadPageGood(s, vp);
      UnloadPageStaysOpen(s, vp);
      UnloadPagesStaysOpen(UnloadPage(s, vp), vp + 1, n - 1);
    }
  }

  lemma {:induction false} UnloadPageStaysOpen(s: Space, vp: nat)
    requires Good(s) && Open(s) && ENTRIES <= vp < VPAGES
    ensures Open(UnloadPage(s, vp))
  {
    hide Wf, Private, Direct, Open, Unmap, GetPhys;
    PageAddress(vp);
    UnmapStaysOpen(s, vp);
    FewerStayOpen(Unmap(s, vp * PAGE), UnloadPage(s, vp));
  }

  /** Unloading leaves the access of the programs that stay as it was. */
  lemma {:induction false} UnloadStaysOpen(s: Space, segs: seq<Seg>)
    requires Good(s) && Open(s) && SegsOk(segs)
    ensures Open(Unload(s, segs))
    decreases |segs|
  {
    hide Good, Open, UnloadPages;
    if segs != [] {
      UnloadPagesStaysOpen(s, segs[0].vp, segs[0].pages);
      UnloadStaysOpen(UnloadPages(s, segs[0].vp, segs[0].pages), segs[1..]);
    }
  }

  /** After start-up programs may reach what is mapped. */
  lemma {:induction false} StartIsOpen(s: Space, map_: seq<Region>)
    requires ElfStart.AsStarted(s, map_)
    ensures Open(s)
  {
    hide Entry, Wf, InitialPages;
    forall q: nat | q < VPAGES && Mapped(s, q) ensures Entry(s, q) % 8 == 7 {
      assert q in Translate(s) && Translate(s)[q] == Entry(s, q);
      SevenAbove(q);
    }
  }

  // ---- the image ----

  /**
   * The image, over the bytes of the file: after a load that returns 0 with every page in its own place, the program
   * reads at every address of every page of a segment the byte of the file that belongs there, and 0 past its part.
   */
  lemma {:induction false} ProgramReadsFile(s: Space, file: seq<byte>, blocks: seq<HeapBlocks.Block>, i: nat, v: nat)
    requires Good(s) && Open(s) && HeaderOk(file) && Neat(s, file) && Loads(file, i)
    requires var r := Attempt(s, file, blocks).1; r.end == Returned(0) && r.clean
    requires v < 0x1_0000_0000 && Occupies(file, i, v / 0x1000)
    ensures Field(file, i, 4) + Field(file, i, 16) <= |file|
    ensures Reads(Attempt(s, file, blocks).0, v, true) ==
            Some(if Field(file, i, 8) <= v < Field(file, i, 8) + Field(file, i, 16)
                 then file[Field(file, i, 4) + v - Field(file, i, 8)]
                 else 0)
  {
    hide Word, Half, Field, Phdrs, Wf, Private, Direct, LoadAll, HeaderOk, Clean, Reads, Neat, Open, HeapBlocks.Malloc;
    hide Upper, AllBounded, ReadByte, Loads, Occupies, SegPages;
    var phs := Phdrs(file);
    NeatIsClean(s, file);
    NeatFields(s, file, i);
    HeaderCountOf(file, i);
    HeaderIs(file, i);
    LoadAllGrows(s, file, phs, 0);
    LoadStaysOpen(s, file, phs, 0);
    GrownIsWf(s, LoadAll(s, file, phs, 0).0, AllPages(LoadAll(s, file, phs, 0).1.segs));
    InSegment(phs[i], v / 0x1000);
    ImageIsRight(s, file, phs, i, v);
    UserReads(LoadAll(s, file, phs, 0).0, v);
  }

  lemma {:induction false} NeatFields(s: Space, file: seq<byte>, i: nat)
    requires Neat(s, file) && Loads(file, i)
    ensures Field(file, i, 8) + Field(file, i, 16) < 0x1_0000_0000
    ensures Field(file, i, 4) + Field(file, i, 16) < 0x1_0000_0000
  {
    hide Field;
  }

  lemma {:induction false} HeaderCountOf(file: seq<byte>, i: nat)
    requires Loads(file, i)
    ensures InFile(file) && i < Half(file, 44)
  {
  }

  lemma {:induction false} GrownIsWf(s: Space, s': Space, qs: set<nat>)
    requires Grown(s, s', qs)
    ensures Wf(s')
  {
  }

  lemma {:induction false} InSegment(ph: Phdr, q: nat)
    ensures q in SegPages(ph) <==> InRange(FirstPage(ph), PageCount(ph), q)
  {
  }

  // ---- the result code ----

  /** How many of the first i headers ask for a segment to be loaded. */
  function LoadsBefore(file: seq<byte>, i: nat): nat {
    if i == 0 then 0 else LoadsBefore(file, i - 1) + if Loads(file, i - 1) then 1 else 0
  }

  /** The part of the file that header i asks for, its end cut to 32 bits, ends behind the file. */
  predicate TooLong(file: seq<byte>, i: nat) {
    Loads(file, i) && (Field(file, i, 4) + Field(file, i, 16)) % 0x1_0000_0000 > |file|
  }

  /** Header i cannot be loaded, whatever memory there is: too long, the ninth to be loaded, or no page at all. */
  predicate Hopeless(file: seq<byte>, i: nat) {
    && Loads(file, i)
    && (TooLong(file, i) || LoadsBefore(file, i) >= 8
        || (Field(file, i, 8) + Field(file, i, 20) + 0xFFF) % 0x1_0000_0000 / 0x1000 <= Field(file, i, 8) / 0x1000)
  }

  /** The first header from i on that cannot be loaded is j. */
  ghost predicate FirstHopeless(file: seq<byte>, i: nat, j: nat) {
    i <= j && Hopeless(file, j) && forall m: nat :: i <= m < j ==> !Hopeless(file, m)
  }

  /**
   * What the headers decide: 0 if all of them can be loaded, else -4 or -5 as the first that cannot is too long or not.
   */
  lemma {:induction false} CodeFromHeaders(file: seq<byte>, i: nat)
    requires InFile(file) && i <= Half(file, 44) == |Phdrs(file)|
    ensures var code := Verdict(file, Phdrs(file)[i..], LoadsBefore(file, i));
            && (code == 0 <==> forall j: nat :: j >= i ==> !Hopeless(file, j))
            && (code != 0 ==> exists j: nat :: FirstHopeless(file, i, j) && code == if TooLong(file, j) then -4 else -5)
    decreases Half(file, 44) - i
  {
    hide Word, Half, Field, Phdrs, InFile;
    var phs, code := Phdrs(file), Verdict(file, Phdrs(file)[i..], LoadsBefore(file, i));
    if i == |phs| {
      NoMoreHeaders(file);
    } else {
      HeaderIs(file, i);
      assert phs[i..][0] == phs[i] && phs[i..][1..] == phs[i + 1..];
      if Hopeless(file, i) {
        assert FirstHopeless(file, i, i);
      } else {
        CodeFromHeaders(file, i + 1);
        assert code == Verdict(file, phs[i + 1..], LoadsBefore(file, i + 1));
        if code != 0 {
          var j: nat :| FirstHopeless(file, i + 1, j) && code == if TooLong(file, j) then -4 else -5;
          assert FirstHopeless(file, i, j);
        }
      }
    }
  }

  lemma {:induction false} NoMoreHeaders(file: seq<byte>)
    requires InFile(file)
    ensures forall j: nat :: j >= Half(file, 44) ==> !Hopeless(file, j)
  {
  }
}
