/** Two-level page tables, kept in the pages they map, as a partial map from virtual pages to table entries. */
module PageTables {
  import opened Bytes
  import opened PhysicalPages

  /** The pages of the first 4 MB, which are mapped to themselves. */
  const FRAMES: nat := 1024
  const ENTRIES: nat := 1024
  const VPAGES: nat := 0x10_0000
  const SENTINEL: nat := 0xFFFF_FFFF
  const TABLE_FLAGS: nat := 7

  /** The directory, physical memory by pages, and the free pages of the allocator. */
  datatype Space = Space(dir: seq<nat>, mem: seq<seq<byte>>, free: set<nat>)

  function Dir(vp: nat): nat { vp / ENTRIES }

  function Tbl(vp: nat): nat { vp % ENTRIES }

  function Present(e: nat): bool { e % 2 == 1 }

  /** The page number in an entry. */
  function Frame(e: nat): nat { e / PAGE }

  predicate HasTable(s: Space, d: nat) {
    d < |s.dir| && Present(s.dir[d])
  }

  function TableOf(s: Space, d: nat): nat {
    if d < |s.dir| then Frame(s.dir[d]) else 0
  }

  predicate Readable(s: Space, vp: nat) {
    HasTable(s, Dir(vp)) && TableOf(s, Dir(vp)) < |s.mem| && 4 * Tbl(vp) + 4 <= |s.mem[TableOf(s, Dir(vp))]|
  }

  /** The table entry of a virtual page; 0 where there is no table. */
  function Entry(s: Space, vp: nat): nat {
    if Readable(s, vp) then Word(s.mem[TableOf(s, Dir(vp))], 4 * Tbl(vp)) else 0
  }

  predicate Mapped(s: Space, vp: nat) { Present(Entry(s, vp)) }

  /** The map the tables stand for. */
  ghost function Translate(s: Space): map<nat, nat> {
    map vp: nat | vp < VPAGES && Mapped(s, vp) :: Entry(s, vp)
  }

  // ---- the invariant ----

  ghost predicate Shape(s: Space) {
    && |s.dir| == ENTRIES && |s.mem| == TOTAL
    && (forall p :: 0 <= p < TOTAL ==> |s.mem[p]| == PAGE)
    && (forall d :: 0 <= d < ENTRIES ==> s.dir[d] < WORD)
    && (forall p :: p in s.free ==> 1 <= p < TOTAL)
  }

  ghost predicate IsTable(s: Space, p: nat) {
    exists d: nat :: HasTable(s, d) && TableOf(s, d) == p
  }

  /** Tables are pages of memory that are not free, and no page is used for two. */
  ghost predicate TablesOk(s: Space) {
    && (forall d: nat :: HasTable(s, d) ==> 1 <= TableOf(s, d) < FRAMES && TableOf(s, d) !in s.free)
    && (forall d: nat, e: nat :: HasTable(s, d) && HasTable(s, e) && d != e ==> TableOf(s, d) != TableOf(s, e))
  }

  /** A frame is neither free nor a table. */
  ghost predicate Plain(s: Space, p: nat) {
    p !in s.free && !IsTable(s, p)
  }

  /** Beyond the first 4 MB no table and no free page is mapped. */
  ghost predicate NoAlias(s: Space) {
    forall vp: nat :: ENTRIES <= vp < VPAGES && Mapped(s, vp) ==> Plain(s, Frame(Entry(s, vp)))
  }

  ghost predicate Wf(s: Space) {
    Shape(s) && TablesOk(s) && NoAlias(s)
  }

  // ---- storing an entry ----

  function Store(s: Space, vp: nat, e: nat): Space
    requires Readable(s, vp) && e < WORD
  {
    var t := TableOf(s, Dir(vp));
    s.(mem := s.mem[t := PutWord(s.mem[t], 4 * Tbl(vp), e)])
  }

  lemma {:induction false} Indices(vp: nat)
    requires vp < VPAGES
    ensures Dir(vp) < ENTRIES && Tbl(vp) < ENTRIES && vp == ENTRIES * Dir(vp) + Tbl(vp)
  {
  }

  lemma {:induction false} TableIsReadable(s: Space, vp: nat)
    requires Shape(s) && TablesOk(s) && vp < VPAGES && HasTable(s, Dir(vp))
    ensures Readable(s, vp)
  {
    Indices(vp);
  }

  /** A store changes the entry of that page and no other. */
  lemma {:induction false} StoreEntry(s: Space, vp: nat, e: nat, q: nat)
    requires Shape(s) && TablesOk(s) && vp < VPAGES && q < VPAGES && Readable(s, vp) && e < WORD
    ensures Entry(Store(s, vp, e), q) == if q == vp then e else Entry(s, q)
  {
    Indices(vp);
    Indices(q);
    hide Dir, Tbl, Frame, Present, Word, PutWord;
    var s' := Store(s, vp, e);
    assert HasTable(s', Dir(q)) == HasTable(s, Dir(q)) && TableOf(s', Dir(q)) == TableOf(s, Dir(q));
    if Dir(q) == Dir(vp) && q != vp {
      WordElsewhere(s.mem[TableOf(s, Dir(vp))], 4 * Tbl(vp), e, 4 * Tbl(q));
    }
  }

  lemma {:induction false} WordElsewhere(page: seq<byte>, o: nat, w: nat, p: nat)
    requires o + 4 <= |page| && p + 4 <= |page| && w < WORD && (p + 4 <= o || o + 4 <= p)
    ensures Word(PutWord(page, o, w), p) == Word(page, p)
  {
    hide PutWord;
  }

  lemma {:induction false} StoreKeepsTables(s: Space, vp: nat, e: nat)
    requires Shape(s) && TablesOk(s) && Readable(s, vp) && e < WORD
    ensures Shape(Store(s, vp, e)) && TablesOk(Store(s, vp, e))
    ensures forall p :: IsTable(Store(s, vp, e), p) <==> IsTable(s, p)
  {
    hide Dir, Tbl, Frame, Present, Word, PutWord;
    var s' := Store(s, vp, e);
    assert forall d: nat :: (HasTable(s', d) <==> HasTable(s, d)) && TableOf(s', d) == TableOf(s, d);
  }

  /** On the map: one page set, or one page removed. */
  lemma {:induction false} StoreRefines(s: Space, vp: nat, e: nat)
    requires Shape(s) && TablesOk(s) && vp < VPAGES && Readable(s, vp) && e < WORD
    ensures Translate(Store(s, vp, e)) == if Present(e) then Translate(s)[vp := e] else Translate(s) - {vp}
  {
    hide Store, Entry, Present, Readable;
    forall q: nat | q < VPAGES ensures Entry(Store(s, vp, e), q) == if q == vp then e else Entry(s, q) {
      StoreEntry(s, vp, e, q);
    }
  }

  lemma {:induction false} StoreKeepsWf(s: Space, vp: nat, e: nat)
    requires Wf(s) && vp < VPAGES && Readable(s, vp) && e < WORD
    requires vp >= ENTRIES && Present(e) ==> Plain(s, Frame(e))
    ensures Wf(Store(s, vp, e))
  {
    StoreKeepsTables(s, vp, e);
    var s' := Store(s, vp, e);
    assert s'.free == s.free;
    hide Store, Entry, Present, Readable, IsTable, Shape, TablesOk, Frame;
    forall q: nat | ENTRIES <= q < VPAGES && Mapped(s', q) ensures Plain(s', Frame(Entry(s', q))) {
      StoreEntry(s, vp, e, q);
      if q != vp { assert Mapped(s, q); }
    }
  }

  // ---- a table on demand ----

  /** The free pages the kernel can write to: those below 4 MB, which are mapped to themselves. */
  ghost function Low(s: Space): set<nat> { set p | p in s.free && p < FRAMES }

  /** Pages are handed out lowest first, so one from below 4 MB is handed out as long as there is one. */
  lemma {:induction false} LowestIsLow(s: Space)
    ensures Low(s) != {} <==> s.free != {} && Lowest(s.free) < FRAMES
    ensures Low(s) != {} ==> Lowest(s.free) in Low(s)
  {
    if s.free != {} {
      var t := Lowest(s.free);
      assert t in s.free && (t < FRAMES ==> t in Low(s));
    }
    if Low(s) != {} {
      var p :| p in Low(s);
      assert p in s.free && Lowest(s.free) <= p;
    }
  }

  /** A table is needed, and the page handed out for it lies above 4 MB, where its address does not lead to it. */
  ghost predicate Beyond(s: Space, d: nat) { !HasTable(s, d) && s.free != {} && Lowest(s.free) >= FRAMES }

  /** Directory slot d with a table: the one it has, or a fresh zeroed page if one can be had. */
  ghost function WithTable(s: Space, d: nat): Space
    requires d < |s.dir|
  {
    if HasTable(s, d) || s.free == {} then s
    else
      var t := Lowest(s.free);
      if t >= FRAMES || t >= |s.mem| then s.(free := s.free - {t})
      else Space(s.dir[d := t * PAGE + TABLE_FLAGS], s.mem[t := Zeros(PAGE)], s.free - {t})
  }

  ghost predicate Fresh(s: Space, d: nat) { !HasTable(s, d) && s.free != {} && Lowest(s.free) < FRAMES }

  /** Taking a page away from the allocator changes nothing else. */
  lemma {:induction false} FewerFree(s: Space, s': Space)
    requires Wf(s) && s' == s.(free := s'.free) && s'.free <= s.free
    ensures Wf(s') && Translate(s') == Translate(s) && (forall p :: Plain(s, p) ==> Plain(s', p))
  {
    SameTables(s, s');
    hide HasTable, TableOf, Entry, Frame, Present;
    assert forall p :: IsTable(s', p) <==> IsTable(s, p);
  }

  lemma {:induction false} SameTables(s: Space, s': Space)
    requires s'.dir == s.dir && s'.mem == s.mem
    ensures forall d: nat :: (HasTable(s', d) <==> HasTable(s, d)) && TableOf(s', d) == TableOf(s, d)
    ensures forall q: nat :: Entry(s', q) == Entry(s, q)
  {
  }

  lemma {:induction false} FreshSlot(s: Space, d: nat)
    requires Shape(s) && d < ENTRIES && Fresh(s, d)
    ensures var s' := WithTable(s, d);
            var t := Lowest(s.free);
            && 1 <= t < FRAMES && HasTable(s', d) && TableOf(s', d) == t && s'.free == s.free - {t}
            && s' == Space(s.dir[d := t * PAGE + TABLE_FLAGS], s.mem[t := Zeros(PAGE)], s.free - {t})
            && forall e: nat :: e != d ==> (HasTable(s', e) <==> HasTable(s, e)) && TableOf(s', e) == TableOf(s, e)
  {
    var t := Lowest(s.free);
    assert t in s.free;
    PteFields(t, TABLE_FLAGS);
    hide Lowest;
    assert Frame(t * PAGE + TABLE_FLAGS) == t && Present(t * PAGE + TABLE_FLAGS);
    hide Frame, Present;
  }

  lemma {:induction false} FreshKeepsTables(s: Space, d: nat)
    requires Shape(s) && TablesOk(s) && d < ENTRIES && Fresh(s, d)
    ensures Shape(WithTable(s, d)) && TablesOk(WithTable(s, d))
    ensures forall p :: IsTable(WithTable(s, d), p) <==> IsTable(s, p) || p == Lowest(s.free)
  {
    FreshSlot(s, d);
    hide HasTable, TableOf, WithTable, Present, Frame, Fresh;
    var s' := WithTable(s, d);
    var t := Lowest(s.free);
    assert t in s.free;
    forall p ensures IsTable(s', p) <==> IsTable(s, p) || p == t {
      if IsTable(s, p) {
        var e: nat :| HasTable(s, e) && TableOf(s, e) == p;
        assert HasTable(s', e) && TableOf(s', e) == p;
      }
      if p == t { assert HasTable(s', d) && TableOf(s', d) == p; }
    }
  }

  /** The new table is empty, and the pages of the others are not touched. */
  lemma {:induction false} FreshEntry(s: Space, d: nat, q: nat)
    requires Shape(s) && TablesOk(s) && d < ENTRIES && Fresh(s, d) && q < VPAGES
    ensures Entry(WithTable(s, d), q) == Entry(s, q)
  {
    FreshSlot(s, d);
    Indices(q);
    hide HasTable, TableOf, WithTable, Present, Frame, Dir, Tbl;
    var s' := WithTable(s, d);
    var t := Lowest(s.free);
    assert t in s.free;
    if Dir(q) == d {
      ZeroWord(4 * Tbl(q));
    } else if HasTable(s, Dir(q)) {
      assert TableOf(s, Dir(q)) != t;
    }
  }

  lemma {:induction false} ZeroWord(o: nat)
    requires o + 4 <= PAGE
    ensures Word(Zeros(PAGE), o) == 0
  {
  }

  /** Making a table leaves the map as it is. */
  lemma {:induction false} TableRefines(s: Space, d: nat)
    requires Wf(s) && d < ENTRIES
    ensures var s' := WithTable(s, d);
            && Wf(s') && Translate(s') == Translate(s) && (HasTable(s', d) <==> HasTable(s, d) || Low(s) != {})
            && (forall p :: Plain(s, p) ==> Plain(s', p)) && s'.free <= s.free
  {
    var s' := WithTable(s, d);
    LowestIsLow(s);
    if Beyond(s, d) {
      FewerFree(s, s');
    } else if Fresh(s, d) {
      FreshSlot(s, d);
      FreshKeepsTables(s, d);
      var t := Lowest(s.free);
      assert t in s.free;
      hide WithTable, Entry, Present, Shape, TablesOk, IsTable, Frame, Fresh, HasTable, TableOf;
      forall q: nat | q < VPAGES ensures Entry(s', q) == Entry(s, q) { FreshEntry(s, d, q); }
      forall q: nat | ENTRIES <= q < VPAGES && Mapped(s', q) ensures Plain(s', Frame(Entry(s', q))) {
        assert Mapped(s, q);
      }
    }
  }

  // ---- map, unmap, look up ----

  /** The entry written for a mapping. */
  function Pte(phys: nat, flags: nat): (e: nat)
    requires phys < WORD
    ensures e < WORD
  {
    var f := flags % PAGE;
    phys / PAGE * PAGE + (if f % 2 == 0 then f + 1 else f)
  }

  /** The entry holds the frame, the present bit, and the other eleven low bits of the flags. */
  lemma {:induction false} PteIs(phys: nat, flags: nat)
    requires phys < WORD
    ensures Present(Pte(phys, flags)) && Frame(Pte(phys, flags)) == phys / PAGE
    ensures Pte(phys, flags) % PAGE / 2 == flags % PAGE / 2
  {
    var f := flags % PAGE;
    PteFields(phys / PAGE, if f % 2 == 0 then f + 1 else f);
  }

  lemma {:induction false} PteFields(p: nat, f: nat)
    requires f < PAGE && f % 2 == 1
    ensures (p * PAGE + f) / PAGE == p && (p * PAGE + f) % PAGE == f && (p * PAGE + f) % 2 == 1
  {
    PteParts(p, f);
    PteOdd(p, f / 2);
  }

  lemma {:induction false} PteParts(p: nat, f: nat)
    requires f < PAGE
    ensures (p * PAGE + f) / PAGE == p && (p * PAGE + f) % PAGE == f
  {
  }

  lemma {:induction false} PteOdd(p: nat, h: nat)
    ensures (p * PAGE + (2 * h + 1)) % 2 == 1
  {
    var x := 2048 * p + h;
    assert p * PAGE + (2 * h + 1) == 2 * x + 1;
    Odd(x);
  }

  lemma {:induction false} Odd(x: nat)
    ensures (2 * x + 1) % 2 == 1
  {
  }

  /**
   How an operation that takes pages ends. A page is written through its physical address used as a virtual one, so a
   write to a page above 4 MB goes where the tables lead: to a page of some program (Astray), or nowhere, which halts
   the kernel in its page fault handler (Faulted). A table above 4 MB whose address leads elsewhere is installed without
   having been zeroed (Wild); what the processor reads in it from then on is not what the kernel writes.
   */
  datatype Status = Done | Astray | Refused | Faulted | Wild

  ghost function MapPage(s: Space, virt: nat, phys: nat, flags: nat): (Space, Status)
    requires phys < WORD
  {
    if virt % PAGE != 0 || phys % PAGE != 0 || Dir(virt / PAGE) >= |s.dir| then (s, Refused)
    else
      var s1 := WithTable(s, Dir(virt / PAGE));
      if Beyond(s, Dir(virt / PAGE)) then (s1, if Mapped(s, Lowest(s.free)) then Wild else Faulted)
      else if Readable(s1, virt / PAGE) then (Store(s1, virt / PAGE, Pte(phys, flags)), Done)
      else (s1, Refused)
  }

  ghost function Unmap(s: Space, virt: nat): Space {
    if Readable(s, virt / PAGE) then Store(s, virt / PAGE, 0) else s
  }

  function GetPhys(s: Space, virt: nat): nat {
    var e := Entry(s, virt / PAGE);
    if Present(e) then Frame(e) * PAGE + virt % PAGE else SENTINEL
  }

  /** Mapping sets exactly one page of the map; it needs alignment and, for a new table, a free page below 4 MB. */
  lemma {:induction false} MapRefines(s: Space, virt: nat, phys: nat, flags: nat)
    requires Wf(s) && virt < WORD && phys < WORD && (virt >= ENTRIES * PAGE ==> Plain(s, phys / PAGE))
    ensures var r := MapPage(s, virt, phys, flags);
            && Wf(r.0) && r.0.free <= s.free
            && (r.1 == Done <==>
                  virt % PAGE == 0 && phys % PAGE == 0 && (HasTable(s, Dir(virt / PAGE)) || Low(s) != {}))
            && (r.1 == Wild || r.1 == Faulted <==>
                  virt % PAGE == 0 && phys % PAGE == 0 && !HasTable(s, Dir(virt / PAGE)) && Low(s) == {}
                  && s.free != {})
            && (r.1 == Wild ==> s.free != {} && Mapped(s, Lowest(s.free)))
            && (r.1 == Faulted ==> s.free != {} && !Mapped(s, Lowest(s.free)))
            && (r.1 == Done ==> Translate(r.0) == Translate(s)[virt / PAGE := Pte(phys, flags)])
            && (r.1 != Done ==> Translate(r.0) == Translate(s))
            && (r.1 == Refused ==> r.0 == s) && r.1 != Astray
  {
    var vp := virt / PAGE;
    Indices(vp);
    LowestIsLow(s);
    if virt % PAGE == 0 && phys % PAGE == 0 {
      TableRefines(s, Dir(vp));
      PteIs(phys, flags);
      var s1 := WithTable(s, Dir(vp));
      if HasTable(s1, Dir(vp)) {
        TableIsReadable(s1, vp);
        StoreRefines(s1, vp, Pte(phys, flags));
        StoreKeepsWf(s1, vp, Pte(phys, flags));
      }
    }
  }

  /** Unmapping removes exactly one page of the map, and gives nothing back to the allocator. */
  lemma {:induction false} UnmapRefines(s: Space, virt: nat)
    requires Wf(s) && virt < WORD
    ensures Wf(Unmap(s, virt)) && Translate(Unmap(s, virt)) == Translate(s) - {virt / PAGE}
    ensures Unmap(s, virt).free == s.free
    ensures forall p :: Plain(Unmap(s, virt), p) <==> Plain(s, p)
  {
    var vp := virt / PAGE;
    if Readable(s, vp) {
      StoreRefines(s, vp, 0);
      StoreKeepsWf(s, vp, 0);
      StoreKeepsTables(s, vp, 0);
    } else {
      assert Entry(s, vp) == 0;
    }
  }

  /** The lookup agrees with the map at every offset; its answer for no mapping is ambiguous for exactly one address. */
  lemma {:induction false} GetPhysAgrees(s: Space, virt: nat)
    requires Wf(s) && virt < WORD
    ensures virt / PAGE in Translate(s) ==> GetPhys(s, virt) == Frame(Translate(s)[virt / PAGE]) * PAGE + virt % PAGE
    ensures virt / PAGE !in Translate(s) ==> GetPhys(s, virt) == SENTINEL
    ensures (GetPhys(s, virt) == SENTINEL <==> virt / PAGE !in Translate(s)) <==>
            !(virt / PAGE in Translate(s) && Frame(Translate(s)[virt / PAGE]) == SENTINEL / PAGE
              && virt % PAGE == PAGE - 1)
  {
  }

  /** A page mapped to the last physical page is reported as unmapped at its last byte. */
  lemma {:induction false} LastByteLooksUnmapped(s: Space, virt: nat)
    requires Wf(s) && virt % PAGE == 0 && virt + PAGE <= WORD && (virt >= ENTRIES * PAGE ==> Plain(s, SENTINEL / PAGE))
    requires MapPage(s, virt, WORD - PAGE, 0).1 == Done
    ensures var s' := MapPage(s, virt, WORD - PAGE, 0).0;
            virt / PAGE in Translate(s') && GetPhys(s', virt + PAGE - 1) == SENTINEL
  {
    MapRefines(s, virt, WORD - PAGE, 0);
    PteIs(WORD - PAGE, 0);
    hide MapPage, Wf, Plain, GetPhys, Pte, Translate;
    assert (virt + PAGE - 1) / PAGE == virt / PAGE && (virt + PAGE - 1) % PAGE == PAGE - 1;
    GetPhysAgrees(MapPage(s, virt, WORD - PAGE, 0).0, virt + PAGE - 1);
  }

  /** A mapping costs a page exactly if it has to make a table, and then one below 4 MB. */
  lemma {:induction false} MapTakes(s: Space, virt: nat, phys: nat, flags: nat)
    requires Wf(s) && virt < WORD && phys < WORD && MapPage(s, virt, phys, flags).1 == Done
    ensures HasTable(s, Dir(virt / PAGE)) || (s.free != {} && Lowest(s.free) in Low(s))
    ensures MapPage(s, virt, phys, flags).0.free == if HasTable(s, Dir(virt / PAGE)) then s.free
                                                    else s.free - {Lowest(s.free)}
    ensures forall d: nat :: HasTable(MapPage(s, virt, phys, flags).0, d) <==> HasTable(s, d) || d == Dir(virt / PAGE)
  {
    var vp := virt / PAGE;
    Indices(vp);
    LowestIsLow(s);
    if Fresh(s, Dir(vp)) { FreshSlot(s, Dir(vp)); }
    StoreSlots(WithTable(s, Dir(vp)), vp, Pte(phys, flags));
  }

  lemma {:induction false} StoreSlots(s: Space, vp: nat, e: nat)
    requires Readable(s, vp) && e < WORD
    ensures forall d: nat :: HasTable(Store(s, vp, e), d) <==> HasTable(s, d)
  {
  }

  /** Undoing a mapping restores the map, and leaves at most a table behind. */
  lemma {:induction false} UnmapUndoesMap(s: Space, virt: nat, phys: nat, flags: nat)
    requires Wf(s) && virt < WORD && phys < WORD && (virt >= ENTRIES * PAGE ==> Plain(s, phys / PAGE))
    requires virt / PAGE !in Translate(s) && MapPage(s, virt, phys, flags).1 == Done
    ensures var s' := Unmap(MapPage(s, virt, phys, flags).0, virt);
            && (HasTable(s, Dir(virt / PAGE)) || s.free != {})
            && Translate(s') == Translate(s)
            && s'.free == if HasTable(s, Dir(virt / PAGE)) then s.free else s.free - {Lowest(s.free)}
  {
    hide MapPage, Unmap, Shape, TablesOk, NoAlias, Plain, HasTable, Pte, Translate, Low, Dir;
    MapRefines(s, virt, phys, flags);
    MapTakes(s, virt, phys, flags);
    UnmapRefines(MapPage(s, virt, phys, flags).0, virt);
  }
}
