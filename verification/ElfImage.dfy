/** Loading segments into fresh pages: what every page added brings, and what stays as it was. */
module ElfImage {
  import opened Bytes
  import opened PhysicalPages
  import opened PageTables

  const MAX_SEGMENTS: nat := 8
  const USER_FLAGS: nat := 6
  const PT_LOAD: nat := 1

  /** The fields of a program header that are used. */
  datatype Phdr = Phdr(kind: nat, offset: nat, vaddr: nat, filesz: nat, memsz: nat)

  /** A loaded range, by its first virtual page. */
  datatype Seg = Seg(vp: nat, pages: nat)

  // ---- the space seen by its owner ----

  ghost function Tables(s: Space): set<nat> {
    set d: nat | d < |s.dir| && HasTable(s, d) :: TableOf(s, d)
  }

  /** Pages the allocator or the page tables hold. */
  ghost function Spare(s: Space): set<nat> { s.free + Tables(s) }

  lemma {:induction false} TableMember(s: Space, p: nat)
    ensures p in Tables(s) <==> IsTable(s, p)
    ensures p !in Spare(s) <==> Plain(s, p)
  {
    if IsTable(s, p) {
      var d: nat :| HasTable(s, d) && TableOf(s, d) == p;
      assert d < |s.dir|;
    }
  }

  /** Beyond the first 4 MB, pages are mapped to memory and no page twice. */
  ghost predicate Private(s: Space) {
    && (forall q: nat :: ENTRIES <= q < VPAGES && Mapped(s, q) ==> 1 <= Frame(Entry(s, q)) < TOTAL)
    && (forall q: nat, r: nat ::
          ENTRIES <= q < VPAGES && ENTRIES <= r < VPAGES && Mapped(s, q) && Mapped(s, r) && q != r ==>
            Frame(Entry(s, q)) != Frame(Entry(s, r)))
  }

  /** Virtual page p leads to physical page f. */
  predicate Leads(s: Space, p: nat, f: nat) { Mapped(s, p) && Frame(Entry(s, p)) == f }

  /** The first 4 MB are mapped to themselves. */
  ghost predicate Direct(s: Space) { forall p: nat :: p < FRAMES ==> Leads(s, p, p) }

  ghost predicate Good(s: Space) { Wf(s) && Private(s) && Direct(s) }

  predicate InRange(vp: nat, n: nat, q: nat) { vp <= q < vp + n }

  function Pages(vp: nat, n: nat): set<nat> {
    set q: nat | q < vp + n && InRange(vp, n, q)
  }

  ghost function FramesOf(s: Space, qs: set<nat>): set<nat> {
    set q | q in qs && q in Translate(s) :: Frame(Translate(s)[q])
  }

  /** Pages that are neither spare in s keep their contents in s'. */
  ghost predicate Undisturbed(s: Space, s': Space) {
    |s'.mem| == |s.mem| == TOTAL && forall p :: 0 <= p < TOTAL && p !in Spare(s) ==> s'.mem[p] == s.mem[p]
  }

  /** s' is s with the virtual pages qs added, on frames that were free; nothing is said of the contents of pages. */
  ghost predicate Added(s: Space, s': Space, qs: set<nat>) {
    && Good(s') && Tables(s) <= Tables(s')
    && Translate(s').Keys == Translate(s).Keys + qs && qs !! Translate(s).Keys
    && (forall q :: q in Translate(s) ==> Translate(s')[q] == Translate(s)[q])
    && FramesOf(s', qs) <= s.free && FramesOf(s', qs) !! Spare(s')
    && Spare(s) == Spare(s') + FramesOf(s', qs)
  }

  /** Besides, every page in use before has kept its contents. */
  ghost predicate Grown(s: Space, s': Space, qs: set<nat>) { Added(s, s', qs) && Undisturbed(s, s') }

  // ---- writing to a page ----

  lemma {:induction false} PlainWriteEntry(s: Space, p: nat, page: seq<byte>, q: nat)
    requires Shape(s) && TablesOk(s) && p < TOTAL && p !in Tables(s) && |page| == PAGE
    ensures Entry(s.(mem := s.mem[p := page]), q) == Entry(s, q)
  {
    var s' := s.(mem := s.mem[p := page]);
    hide Word, Frame, Present, Dir, Tbl;
    assert HasTable(s', Dir(q)) == HasTable(s, Dir(q)) && TableOf(s', Dir(q)) == TableOf(s, Dir(q));
    if HasTable(s, Dir(q)) {
      TableMember(s, TableOf(s, Dir(q)));
      assert TableOf(s, Dir(q)) in Tables(s);
    }
  }

  /** Writing to a page that is no table changes no mapping. */
  lemma {:induction false} PlainWrite(s: Space, p: nat, page: seq<byte>)
    requires Good(s) && p < TOTAL && p !in Tables(s) && |page| == PAGE
    ensures var s' := s.(mem := s.mem[p := page]); Good(s') && Translate(s') == Translate(s) && Tables(s') == Tables(s)
  {
    var s' := s.(mem := s.mem[p := page]);
    assert forall d: nat :: (HasTable(s', d) <==> HasTable(s, d)) && TableOf(s', d) == TableOf(s, d);
    forall q ensures Plain(s', q) <==> Plain(s, q) {
      TableMember(s, q);
      TableMember(s', q);
    }
    hide Entry, Frame, Present, HasTable, TableOf, Plain, Tables, Direct;
    forall q: nat ensures Entry(s', q) == Entry(s, q) { PlainWriteEntry(s, p, page, q); }
    StillDirect(s, s');
  }

  lemma {:induction false} StillDirect(s: Space, s': Space)
    requires Direct(s)
    requires forall q: nat :: q < FRAMES && Mapped(s, q) ==> Mapped(s', q) && Entry(s', q) == Entry(s, q)
    ensures Direct(s')
  {
    hide Mapped, Entry, Frame;
    forall p: nat | p < FRAMES ensures Leads(s', p, p) { assert Leads(s, p, p); }
  }

  // ---- what mapping does to the owner's view ----

  lemma {:induction false} FreshSpare(s: Space, d: nat)
    requires Wf(s) && d < ENTRIES && Fresh(s, d)
    ensures Spare(WithTable(s, d)) == Spare(s) && Tables(s) <= Tables(WithTable(s, d))
    ensures Undisturbed(s, WithTable(s, d))
  {
    FreshSlot(s, d);
    FreshKeepsTables(s, d);
    var s' := WithTable(s, d);
    var t := Lowest(s.free);
    assert t in s.free;
    hide WithTable, Wf, Fresh, Tables, IsTable, HasTable, TableOf, Plain;
    forall p: nat ensures p in Tables(s') <==> p in Tables(s) || p == t {
      TableMember(s, p);
      TableMember(s', p);
    }
    assert Tables(s) <= Tables(s') by { TablesAreNats(s); }
    assert Spare(s') == Spare(s) by { TablesAreNats(s); TablesAreNats(s'); }
  }

  lemma {:induction false} TablesAreNats(s: Space)
    ensures forall p :: p in Tables(s) ==> p >= 0
  {
  }

  lemma {:induction false} StoreSpare(s: Space, vp: nat, e: nat)
    requires Wf(s) && Readable(s, vp) && e < WORD
    ensures Tables(Store(s, vp, e)) == Tables(s) && Spare(Store(s, vp, e)) == Spare(s)
    ensures Undisturbed(s, Store(s, vp, e))
  {
    var s' := Store(s, vp, e);
    var t := TableOf(s, Dir(vp));
    assert t in Tables(s);
    assert forall d: nat :: (HasTable(s', d) <==> HasTable(s, d)) && TableOf(s', d) == TableOf(s, d);
  }

  lemma {:induction false} UndisturbedTrans(a: Space, b: Space, c: Space)
    requires Undisturbed(a, b) && Undisturbed(b, c) && Spare(b) <= Spare(a)
    ensures Undisturbed(a, c)
  {
  }

  lemma {:induction false} MapSpare(s: Space, virt: nat, phys: nat, flags: nat)
    requires Wf(s) && virt < WORD && phys < WORD && MapPage(s, virt, phys, flags).1 == Done
    ensures var s' := MapPage(s, virt, phys, flags).0;
            Spare(s') == Spare(s) && Tables(s) <= Tables(s') && Undisturbed(s, s')
  {
    var d := Dir(virt / PAGE);
    Indices(virt / PAGE);
    var s1 := WithTable(s, d);
    TableRefines(s, d);
    if Fresh(s, d) { FreshSpare(s, d); } else { assert s1 == s; }
    StoreSpare(s1, virt / PAGE, Pte(phys, flags));
    hide WithTable, Wf, Spare, Tables;
    UndisturbedTrans(s, s1, MapPage(s, virt, phys, flags).0);
  }

  // ---- one page of a segment ----

  /** Where the part that comes from the file ends. */
  function FileEnd(ph: Phdr): nat { (ph.vaddr + ph.filesz) % WORD }

  /** What a segment puts at address a of its pages. */
  function ByteAt(file: seq<byte>, ph: Phdr, a: nat): byte {
    if ph.vaddr <= a < FileEnd(ph) && ph.offset + a - ph.vaddr < |file| then file[ph.offset + a - ph.vaddr] else 0
  }

  function PageImage(file: seq<byte>, ph: Phdr, vp: nat): (page: seq<byte>)
    ensures |page| == PAGE && forall k :: 0 <= k < PAGE ==> page[k] == ByteAt(file, ph, vp * PAGE + k)
  {
    seq<byte>(PAGE, k requires 0 <= k < PAGE => ByteAt(file, ph, vp * PAGE + k))
  }

  /** Fill a page through the address of page t: what is filled is the page that address leads to. */
  function FillAt(s: Space, t: nat, page: seq<byte>): (Space, Status) {
    var f := Frame(Entry(s, t));
    if Mapped(s, t) && f < |s.mem| then (s.(mem := s.mem[f := page]), if f == t then Done else Astray) else (s, Faulted)
  }

  /** Take a page, map it, fill it through its physical address. A page that cannot be mapped goes back. */
  ghost function LoadPage(s: Space, file: seq<byte>, ph: Phdr, vp: nat): (Space, Status) {
    if s.free == {} then (s, Refused)
    else
      var t := Lowest(s.free);
      var r := MapPage(s.(free := s.free - {t}), vp * PAGE, t * PAGE % WORD, USER_FLAGS);
      if r.1 == Refused then (s, Refused) else if r.1 == Done then FillAt(r.0, t, PageImage(file, ph, vp)) else r
  }

  /** Taking a page from the allocator. */
  lemma {:induction false} TakeOne(s: Space)
    requires Good(s) && s.free != {}
    ensures var t := Lowest(s.free);
            var s1 := s.(free := s.free - {t});
            && t in s.free && 1 <= t < TOTAL && Good(s1) && Translate(s1) == Translate(s) && Tables(s1) == Tables(s)
            && Spare(s) == Spare(s1) + {t} && t !in Spare(s1)
  {
    var t := Lowest(s.free);
    var s1 := s.(free := s.free - {t});
    assert t in s.free;
    assert forall d: nat :: (HasTable(s1, d) <==> HasTable(s, d)) && TableOf(s1, d) == TableOf(s, d);
    forall p ensures Plain(s, p) ==> Plain(s1, p) {
      TableMember(s, p);
      TableMember(s1, p);
    }
    TableMember(s, t);
    SameEntries(s, s1);
    hide Entry, HasTable, TableOf, Frame, Present, Direct;
    StillDirect(s, s1);
  }

  /** Mapping page vp to the frame t, as a fact about the map. */
  lemma {:induction false} MapOne(s: Space, vp: nat, t: nat)
    requires Wf(s) && ENTRIES <= vp < VPAGES && t < TOTAL && Plain(s, t)
    ensures vp * PAGE < WORD && t * PAGE < WORD
    ensures var r := MapPage(s, vp * PAGE, t * PAGE, USER_FLAGS);
            && Wf(r.0) && (r.1 == Done ==> Translate(r.0) == Translate(s)[vp := t * PAGE + 7])
            && (r.1 == Refused ==> r.0 == s)
            && (r.1 == Done <==> HasTable(s, Dir(vp)) || Low(s) != {})
            && (r.1 == Wild || r.1 == Faulted <==> !HasTable(s, Dir(vp)) && Low(s) == {} && s.free != {})
            && (r.1 == Wild ==> s.free != {} && Mapped(s, Lowest(s.free)))
            && (r.1 == Faulted ==> s.free != {} && !Mapped(s, Lowest(s.free))) && r.1 != Astray
  {
    hide MapPage, Wf, Plain, Translate, Pte, Low, HasTable, Mapped;
    PageAddress(vp);
    PageAddress(t);
    MapRefines(s, vp * PAGE, t * PAGE, USER_FLAGS);
    UserPte(t);
  }

  lemma {:induction false} PageAddress(p: nat)
    requires p < TOTAL
    ensures p * PAGE < WORD && p * PAGE / PAGE == p && p * PAGE % PAGE == 0
  {
  }

  lemma {:induction false} UserPte(t: nat)
    requires t < TOTAL
    ensures t * PAGE < WORD && Pte(t * PAGE, USER_FLAGS) == t * PAGE + 7
  {
    PageAddress(t);
  }

  lemma {:induction false} MapKeepsPrivate(s: Space, vp: nat, t: nat)
    requires Good(s) && ENTRIES <= vp < VPAGES && 1 <= t < TOTAL && t !in Spare(s)
    requires forall q: nat :: ENTRIES <= q < VPAGES && Mapped(s, q) ==> Frame(Entry(s, q)) != t
    ensures vp * PAGE < WORD && t * PAGE < WORD
    ensures var r := MapPage(s, vp * PAGE, t * PAGE, USER_FLAGS);
            && (r.1 == Done ==> Good(r.0) && Translate(r.0) == Translate(s)[vp := t * PAGE + 7] && Leads(r.0, vp, t))
            && (r.1 == Refused ==> r.0 == s)
  {
    TableMember(s, t);
    hide MapPage, Wf, Entry, Frame, Present, Translate;
    MapOne(s, vp, t);
    var r := MapPage(s, vp * PAGE, t * PAGE, USER_FLAGS);
    if r.1 == Done { OneMorePrivate(s, r.0, vp, t); }
  }

  lemma {:induction false} OneMorePrivate(s: Space, s': Space, vp: nat, t: nat)
    requires Private(s) && Direct(s) && ENTRIES <= vp < VPAGES && 1 <= t < TOTAL
    requires Translate(s') == Translate(s)[vp := t * PAGE + 7]
    requires forall q: nat :: ENTRIES <= q < VPAGES && Mapped(s, q) ==> Frame(Entry(s, q)) != t
    ensures Private(s') && Direct(s') && Leads(s', vp, t)
  {
    hide Entry, Present, Direct, Translate;
    EntriesFollow(s, s', vp, t * PAGE + 7);
    PteFields(t, 7);
    assert Frame(t * PAGE + 7) == t;
    hide Frame;
    StillDirect(s, s');
  }

  /** Two spaces whose maps differ in one page agree on every other entry. */
  lemma {:induction false} EntriesFollow(s: Space, s': Space, vp: nat, e: nat)
    requires Translate(s') == Translate(s)[vp := e]
    ensures forall q: nat :: q < VPAGES && q != vp ==>
              (Mapped(s', q) <==> Mapped(s, q)) && (Mapped(s, q) ==> Entry(s', q) == Entry(s, q))
    ensures vp < VPAGES ==> Mapped(s', vp) && Entry(s', vp) == e
  {
    forall q: nat | q < VPAGES && q != vp
      ensures (Mapped(s', q) <==> Mapped(s, q)) && (Mapped(s, q) ==> Entry(s', q) == Entry(s, q))
    {
      assert q in Translate(s') <==> q in Translate(s);
      if Mapped(s, q) { assert q in Translate(s); }
      if Mapped(s', q) { assert q in Translate(s'); }
    }
    if vp < VPAGES { assert vp in Translate(s'); }
  }

  // ---- growing ----

  lemma {:induction false} FramesOne(s: Space, vp: nat)
    requires vp in Translate(s)
    ensures FramesOf(s, {vp}) == {Frame(Translate(s)[vp])}
  {
    var one := {vp};
    assert vp in one && forall q :: q in one ==> q == vp;
  }

  lemma {:induction false} FreeFramesUnmapped(s: Space, t: nat)
    requires Good(s) && t in s.free
    ensures forall q: nat :: ENTRIES <= q < VPAGES && Mapped(s, q) ==> Frame(Entry(s, q)) != t
  {
    forall q: nat | ENTRIES <= q < VPAGES && Mapped(s, q) ensures Frame(Entry(s, q)) != t {
      assert Plain(s, Frame(Entry(s, q)));
    }
  }

  /** One more page: mapped where none was, on a free frame that then holds the segment's bytes; or nothing at all. */
  lemma {:induction false} LoadPageGrows(s: Space, file: seq<byte>, ph: Phdr, vp: nat)
    requires Good(s) && ENTRIES <= vp < VPAGES && vp !in Translate(s)
    ensures var r := LoadPage(s, file, ph, vp);
            && (r.1 == Refused ==> r.0 == s)
            && (r.1 == Astray ==> Added(s, r.0, {vp}))
            && (r.1 == Done ==>
                  && Grown(s, r.0, {vp}) && vp in Translate(r.0) && 1 <= Frame(Translate(r.0)[vp]) < TOTAL
                  && r.0.mem[Frame(Translate(r.0)[vp])] == PageImage(file, ph, vp))
  {
    hide MapPage, PageImage, Good, LoadPage, Added, Undisturbed, Translate, Frame, FillAt;
    var r := LoadPage(s, file, ph, vp);
    if s.free == {} {
      NoPageLeft(s, file, ph, vp);
    } else if r.1 == Done || r.1 == Astray {
      LoadPageIs(s, file, ph, vp);
      PageFilled(s, Lowest(s.free), vp, PageImage(file, ph, vp));
    } else if r.1 == Refused {
      RefusedIsQuiet(s, file, ph, vp);
    }
  }

  lemma {:induction false} NoPageLeft(s: Space, file: seq<byte>, ph: Phdr, vp: nat)
    requires s.free == {}
    ensures LoadPage(s, file, ph, vp) == (s, Refused)
  {
  }

  lemma {:induction false} RefusedIsQuiet(s: Space, file: seq<byte>, ph: Phdr, vp: nat)
    requires LoadPage(s, file, ph, vp).1 == Refused
    ensures LoadPage(s, file, ph, vp).0 == s
  {
    hide MapPage, PageImage;
  }

  /** A free page t mapped at vp, whether or not vp was mapped before: vp leads to t, and t alone is no longer spare. */
  lemma {:induction false} PageTaken(s: Space, t: nat, vp: nat)
    requires Good(s) && ENTRIES <= vp < VPAGES && s.free != {} && t == Lowest(s.free) && vp * PAGE < WORD
    requires t * PAGE < WORD
    requires MapPage(s.(free := s.free - {t}), vp * PAGE, t * PAGE, USER_FLAGS).1 == Done
    ensures var s2 := MapPage(s.(free := s.free - {t}), vp * PAGE, t * PAGE, USER_FLAGS).0;
            && Good(s2) && Leads(s2, vp, t) && Translate(s2) == Translate(s)[vp := t * PAGE + 7]
            && t in s.free && 1 <= t < TOTAL && Tables(s) <= Tables(s2) && Undisturbed(s, s2)
            && Spare(s) == Spare(s2) + {t} && t !in Spare(s2) && t !in Tables(s2)
  {
    hide MapPage, Good, Tables, Entry, Translate, Mapped;
    var s1 := s.(free := s.free - {t});
    TakeOne(s);
    FreeFramesUnmapped(s, t);
    SameEntries(s, s1);
    MapKeepsPrivate(s1, vp, t);
    WfOfGood(s1);
    MapSpare(s1, vp * PAGE, t * PAGE, USER_FLAGS);
  }

  /** If vp was not mapped, the map has grown. */
  lemma {:induction false} PageMapped(s: Space, t: nat, vp: nat)
    requires Good(s) && ENTRIES <= vp < VPAGES && vp !in Translate(s)
    requires s.free != {} && t == Lowest(s.free) && vp * PAGE < WORD && t * PAGE < WORD
    requires MapPage(s.(free := s.free - {t}), vp * PAGE, t * PAGE, USER_FLAGS).1 == Done
    ensures var s2 := MapPage(s.(free := s.free - {t}), vp * PAGE, t * PAGE, USER_FLAGS).0;
            && Grown(s, s2, {vp}) && Leads(s2, vp, t) && vp in Translate(s2) && Frame(Translate(s2)[vp]) == t
            && t in s.free && 1 <= t < TOTAL && t !in Tables(s2)
  {
    hide MapPage, Good, Undisturbed, Tables, Spare, Entry, Translate, Mapped;
    PageTaken(s, t, vp);
    var s2 := MapPage(s.(free := s.free - {t}), vp * PAGE, t * PAGE, USER_FLAGS).0;
    PteFields(t, 7);
    FramesOne(s2, vp);
    PageGrown(s, s2, t, vp);
  }

  /**
   * After that mapping, the address of page t leads to t if t lies below 4 MB or is vp, else to another page or
   * nowhere.
   */
  lemma {:induction false} WhereItLeads(s: Space, t: nat, vp: nat)
    requires Good(s) && ENTRIES <= vp < VPAGES && 1 <= t < TOTAL && Leads(s, vp, t)
    ensures Leads(s, t, t) <==> t < FRAMES || t == vp
    ensures t >= FRAMES && Mapped(s, t) ==> 1 <= Frame(Entry(s, t)) < TOTAL && Frame(Entry(s, t)) !in Spare(s)
  {
    hide Entry, Present;
    if t >= FRAMES && Mapped(s, t) {
      assert Plain(s, Frame(Entry(s, t)));
      TableMember(s, Frame(Entry(s, t)));
    }
  }

  /** The page mapped is filled: the frame itself, or one that another virtual page leads to. */
  lemma {:induction false} PageFilled(s: Space, t: nat, vp: nat, page: seq<byte>)
    requires Good(s) && ENTRIES <= vp < VPAGES && vp !in Translate(s) && |page| == PAGE
    requires s.free != {} && t == Lowest(s.free) && vp * PAGE < WORD && t * PAGE < WORD
    requires MapPage(s.(free := s.free - {t}), vp * PAGE, t * PAGE, USER_FLAGS).1 == Done
    ensures var r := FillAt(MapPage(s.(free := s.free - {t}), vp * PAGE, t * PAGE, USER_FLAGS).0, t, page);
            && (r.1 == Done <==> t < FRAMES || t == vp)
            && (r.1 == Astray || r.1 == Done ==> Added(s, r.0, {vp}))
            && (r.1 == Done ==>
                  && Grown(s, r.0, {vp}) && vp in Translate(r.0)
                  && 1 <= t < TOTAL && Frame(Translate(r.0)[vp]) == t && r.0.mem[t] == page)
  {
    PageMapped(s, t, vp);
    hide MapPage, Good, Added, Undisturbed, Translate, Spare, Tables;
    var s2 := MapPage(s.(free := s.free - {t}), vp * PAGE, t * PAGE, USER_FLAGS).0;
    AddedKeys(s, s2, {vp});
    WhereItLeads(s2, t, vp);
    if Mapped(s2, t) {
      var f := Frame(Entry(s2, t));
      WriteKeepsAdded(s, s2, {vp}, f, page);
    }
  }

  /** Writing to a page that is no table keeps what was added; if the page was spare, every page in use too. */
  lemma {:induction false} WriteKeepsAdded(s: Space, s2: Space, qs: set<nat>, f: nat, page: seq<byte>)
    requires Added(s, s2, qs) && f < TOTAL && f !in Tables(s2) && |page| == PAGE && |s2.mem| == TOTAL
    ensures var s3 := s2.(mem := s2.mem[f := page]);
            && Added(s, s3, qs) && Translate(s3) == Translate(s2)
            && (Undisturbed(s, s2) && f in Spare(s) ==> Undisturbed(s, s3))
  {
    hide Good, Tables, Translate, Frame;
    var s3 := s2.(mem := s2.mem[f := page]);
    PlainWrite(s2, f, page);
    assert Spare(s3) == Spare(s2);
    assert FramesOf(s3, qs) == FramesOf(s2, qs);
  }

  lemma {:induction false} WfOfGood(s: Space)
    requires Good(s)
    ensures Wf(s)
  {
  }

  lemma {:induction false} LoadPageIs(s: Space, file: seq<byte>, ph: Phdr, vp: nat)
    requires Good(s) && vp < VPAGES && s.free != {}
    ensures vp * PAGE < WORD && Lowest(s.free) * PAGE < WORD
    ensures var t := Lowest(s.free);
            var m := MapPage(s.(free := s.free - {t}), vp * PAGE, t * PAGE, USER_FLAGS);
            && m.1 != Astray
            && LoadPage(s, file, ph, vp) ==
               if m.1 == Refused then (s, Refused)
               else if m.1 == Done then FillAt(m.0, t, PageImage(file, ph, vp))
               else m
  {
    hide MapPage, PageImage, Good, Translate, FillAt;
    TakeOne(s);
    PageAddress(Lowest(s.free));
    PageAddress(vp);
    MapIsNotAstray(s.(free := s.free - {Lowest(s.free)}), vp * PAGE, Lowest(s.free) * PAGE, USER_FLAGS);
  }

  lemma {:induction false} MapIsNotAstray(s: Space, virt: nat, phys: nat, flags: nat)
    requires phys < WORD
    ensures MapPage(s, virt, phys, flags).1 != Astray
  {
  }

  lemma {:induction false} SameEntries(s: Space, s1: Space)
    requires s1.dir == s.dir && s1.mem == s.mem
    ensures forall q: nat :: Entry(s1, q) == Entry(s, q) && (Mapped(s1, q) <==> Mapped(s, q))
  {
  }

  lemma {:induction false} PageGrown(s: Space, s2: Space, t: nat, vp: nat)
    requires Good(s2) && t in s.free && Spare(s) == Spare(s2) + {t} && t !in Spare(s2)
    requires Tables(s) <= Tables(s2) && Undisturbed(s, s2)
    requires Translate(s2) == Translate(s)[vp := t * PAGE + 7] && vp !in Translate(s) && FramesOf(s2, {vp}) == {t}
    ensures Grown(s, s2, {vp})
  {
    hide Good, Tables, Translate, FramesOf;
  }

  lemma {:induction false} FramesSplit(s: Space, a: set<nat>, b: set<nat>)
    ensures FramesOf(s, a + b) == FramesOf(s, a) + FramesOf(s, b)
  {
    hide Translate, Frame;
  }

  lemma {:induction false} FramesSame(s: Space, s': Space, qs: set<nat>)
    requires qs <= Translate(s).Keys
    requires forall q :: q in Translate(s) ==> q in Translate(s') && Translate(s')[q] == Translate(s)[q]
    ensures FramesOf(s', qs) == FramesOf(s, qs)
  {
    hide Translate, Frame;
    assert forall q :: q in qs ==> q in Translate(s) && q in Translate(s');
  }

  lemma {:induction false} AddedTrans(a: Space, b: Space, c: Space, ps: set<nat>, qs: set<nat>)
    requires Added(a, b, ps) && Added(b, c, qs)
    ensures Added(a, c, ps + qs)
  {
    hide Translate, Frame, Good, FramesOf, Tables;
    FramesSplit(c, ps, qs);
    FramesSame(b, c, ps);
    assert Translate(c).Keys == Translate(a).Keys + (ps + qs);
    FramesFree(a, b, c, ps, qs);
  }

  lemma {:induction false} GrownTrans(a: Space, b: Space, c: Space, ps: set<nat>, qs: set<nat>)
    requires Grown(a, b, ps) && Grown(b, c, qs)
    ensures Grown(a, c, ps + qs)
  {
    assert Spare(b) <= Spare(a);
    hide Added, Spare;
    AddedTrans(a, b, c, ps, qs);
    UndisturbedTrans(a, b, c);
  }

  /** The frames of both steps were free to begin with, and are apart from what is spare now. */
  lemma {:induction false} FramesFree(a: Space, b: Space, c: Space, ps: set<nat>, qs: set<nat>)
    requires Added(a, b, ps) && Added(b, c, qs) && FramesOf(c, ps) == FramesOf(b, ps)
    ensures FramesOf(c, qs) <= a.free && FramesOf(c, ps) !! Spare(c)
  {
    hide Translate, Frame, Good, FramesOf;
    assert b.free <= a.free by { FreeShrinks(a, b, ps); }
  }

  lemma {:induction false} FreeShrinks(a: Space, b: Space, ps: set<nat>)
    requires Added(a, b, ps)
    ensures b.free <= a.free
  {
    hide Translate, Frame, FramesOf, Private, Direct, NoAlias, Shape, HasTable, TableOf;
    forall p | p in b.free ensures p in a.free {
      assert p in Spare(b) && p in Spare(a);
      FreeIsNoTable(b, p);
    }
  }

  lemma {:induction false} FreeIsNoTable(s: Space, p: nat)
    requires Wf(s) && p in s.free
    ensures p !in Tables(s)
  {
  }

  // ---- a segment ----

  /** The loop over the pages goes on, or comes to an end and returns. */
  predicate GoesOn(status: Status) { status == Done || status == Astray }

  predicate Returns(status: Status) { status == Done || status == Refused }

  /**
   Pages loaded one after the other: the space reached, how many are mapped, how the last attempt ended, and whether
   all of them were filled in their own place.
   */
  datatype Loaded = Loaded(s: Space, n: nat, status: Status, clean: bool)

  ghost function LoadPages(s: Space, file: seq<byte>, ph: Phdr, vp: nat, n: nat): Loaded
    decreases n
  {
    if n == 0 then Loaded(s, 0, Done, true)
    else
      var r := LoadPage(s, file, ph, vp);
      if !GoesOn(r.1) then Loaded(r.0, 0, r.1, true)
      else
        var rest := LoadPages(r.0, file, ph, vp + 1, n - 1);
        Loaded(rest.s, rest.n + 1, rest.status, rest.clean && r.1 == Done)
  }

  /** Each of the pages holds the bytes of the segment. */
  ghost predicate Holds(s: Space, file: seq<byte>, ph: Phdr, vp: nat, n: nat) {
    forall q: nat :: InRange(vp, n, q) ==> HoldsPage(s, file, ph, q)
  }

  ghost predicate HoldsPage(s: Space, file: seq<byte>, ph: Phdr, q: nat) {
    && q in Translate(s) && 1 <= Frame(Translate(s)[q]) < |s.mem|
    && s.mem[Frame(Translate(s)[q])] == PageImage(file, ph, q)
  }

  lemma {:induction false} PagesSplit(vp: nat, n: nat)
    requires n > 0
    ensures Pages(vp, n) == {vp} + Pages(vp + 1, n - 1)
  {
    forall q: nat ensures InRange(vp, n, q) <==> q == vp || InRange(vp + 1, n - 1, q) { }
  }

  /** A page once loaded is not disturbed by what is loaded after it. */
  lemma {:induction false} HoldsStays(s: Space, s': Space, qs: set<nat>, file: seq<byte>, ph: Phdr, q: nat)
    requires Good(s) && HoldsPage(s, file, ph, q) && q >= ENTRIES && Grown(s, s', qs)
    ensures HoldsPage(s', file, ph, q)
  {
    var f := Frame(Translate(s)[q]);
    assert q < VPAGES && Mapped(s, q) && Plain(s, Frame(Entry(s, q)));
    TableMember(s, f);
    hide Translate, PageImage, Good;
  }

  /** As many pages as could be had are added, each with the segment's bytes if none went astray. */
  lemma {:induction false} LoadPagesGrows(s: Space, file: seq<byte>, ph: Phdr, vp: nat, n: nat)
    requires Good(s) && ENTRIES <= vp && vp + n <= VPAGES && Pages(vp, n) !! Translate(s).Keys
    ensures var r := LoadPages(s, file, ph, vp, n);
            && r.n <= n && (r.n == n <==> r.status == Done) && r.status != Astray
            && (Returns(r.status) ==> Added(s, r.s, Pages(vp, r.n)))
            && (Returns(r.status) && r.clean ==> Grown(s, r.s, Pages(vp, r.n)) && Holds(r.s, file, ph, vp, r.n))
    decreases n
  {
    hide Good, Grown, Added, LoadPage, HoldsPage, Translate, PageImage, Pages;
    var r := LoadPages(s, file, ph, vp, n);
    if vp < VPAGES && n > 0 { FirstIn(vp, n); }
    if n == 0 || !GoesOn(LoadPage(s, file, ph, vp).1) {
      NothingGrown(s, vp);
      if n > 0 { LoadPageGrows(s, file, ph, vp); }
    } else {
      MorePagesGrow(s, file, ph, vp, n);
    }
  }

  lemma {:induction false} MorePagesGrow(s: Space, file: seq<byte>, ph: Phdr, vp: nat, n: nat)
    requires Good(s) && ENTRIES <= vp && n > 0 && vp + n <= VPAGES && Pages(vp, n) !! Translate(s).Keys
    requires GoesOn(LoadPage(s, file, ph, vp).1)
    ensures var r := LoadPages(s, file, ph, vp, n);
            && r.n <= n && (r.n == n <==> r.status == Done) && r.status != Astray
            && (Returns(r.status) ==> Added(s, r.s, Pages(vp, r.n)))
            && (Returns(r.status) && r.clean ==> Grown(s, r.s, Pages(vp, r.n)) && Holds(r.s, file, ph, vp, r.n))
    decreases n, 0
  {
    hide Good, Grown, Added, LoadPage, HoldsPage, Translate, PageImage, Pages;
    var r := LoadPages(s, file, ph, vp, n);
    FirstIn(vp, n);
    PagesSplit(vp, n);
    LoadPageGrows(s, file, ph, vp);
    var s1 := LoadPage(s, file, ph, vp).0;
    if LoadPage(s, file, ph, vp).1 == Done { GrownKeys(s, s1, {vp}); }
    AddedKeys(s, s1, {vp});
    var r1 := LoadPages(s1, file, ph, vp + 1, n - 1);
    NotIn(vp, n);
    LoadPagesGrows(s1, file, ph, vp + 1, n - 1);
    if Returns(r.status) {
      PagesSplit(vp, r.n);
      AddedTrans(s, s1, r.s, {vp}, Pages(vp + 1, r1.n));
      if r.clean {
        OneHolds(s1, file, ph, vp);
        GrownTrans(s, s1, r.s, {vp}, Pages(vp + 1, r1.n));
        HoldsStays(s1, r.s, Pages(vp + 1, r1.n), file, ph, vp);
      }
    }
  }

  lemma {:induction false} AddedKeys(s: Space, s': Space, qs: set<nat>)
    requires Added(s, s', qs)
    ensures Good(s') && |s'.mem| == TOTAL && Translate(s').Keys == Translate(s).Keys + qs && qs !! Translate(s).Keys
  {
  }

  lemma {:induction false} GrownKeys(s: Space, s': Space, qs: set<nat>)
    requires Grown(s, s', qs)
    ensures Added(s, s', qs)
    ensures Good(s') && |s'.mem| == TOTAL && Translate(s').Keys == Translate(s).Keys + qs && qs !! Translate(s).Keys
  {
  }

  lemma {:induction false} OneHolds(s: Space, file: seq<byte>, ph: Phdr, vp: nat)
    requires |s.mem| == TOTAL && vp in Translate(s) && 1 <= Frame(Translate(s)[vp]) < TOTAL
    requires s.mem[Frame(Translate(s)[vp])] == PageImage(file, ph, vp)
    ensures HoldsPage(s, file, ph, vp)
  {
  }

  lemma {:induction false} FirstIn(vp: nat, n: nat)
    requires n > 0
    ensures vp in Pages(vp, n)
  {
    assert InRange(vp, n, vp);
  }

  lemma {:induction false} NotIn(vp: nat, n: nat)
    requires n > 0
    ensures vp !in Pages(vp + 1, n - 1)
  {
  }

  lemma {:induction false} NothingGrown(s: Space, vp: nat)
    requires Good(s)
    ensures Pages(vp, 0) == {} && Added(s, s, {}) && Grown(s, s, {}) && Added(s, s, Pages(vp, 0))
    ensures Grown(s, s, Pages(vp, 0))
  {
    assert Pages(vp, 0) == {};
    assert FramesOf(s, {}) == {};
  }
}
