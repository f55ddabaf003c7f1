/**
 * How much memory a load needs: which free pages let it succeed, and which let it succeed with every page in its place.
 */
module ElfRoom {
  import opened Bytes
  import opened PhysicalPages
  import opened PageTables
  import opened ElfImage
  import opened ElfRuns

  /** The free pages above 4 MB, which their own addresses do not lead to. */
  ghost function High(s: Space): set<nat> { s.free - Low(s) }

  function ToSet(qs: seq<nat>): set<nat> { set q | q in qs }

  function DirsOf(qs: set<nat>): set<nat> { set q | q in qs :: Dir(q) }

  /** The directory slots of the virtual pages qs that have no table yet. */
  ghost function NewTables(s: Space, qs: set<nat>): set<nat> { set d | d in DirsOf(qs) && !HasTable(s, d) }

  /** What mapping the virtual pages qs costs: a page for each, and one for each table that is missing. */
  ghost function Cost(s: Space, qs: set<nat>): nat { |qs| + |NewTables(s, qs)| }

  /** Every table for qs can be paid from below 4 MB, but only the first Below(s, qs) of the pages. */
  ghost function Below(s: Space, qs: seq<nat>): int { |Low(s)| - |NewTables(s, ToSet(qs))| }

  ghost predicate Spills(s: Space, qs: seq<nat>) {
    var k := Below(s, qs);
    0 <= k < |qs| && NewTables(s, ToSet(qs[..k])) == NewTables(s, ToSet(qs))
  }

  /** ts are the lowest pages of high, in order. */
  ghost predicate InOrder(high: set<nat>, ts: seq<nat>)
    decreases |ts|
  {
    ts == [] || (high != {} && Lowest(high) == ts[0] && InOrder(high - {ts[0]}, ts[1..]))
  }

  /** Taking the pages of high lowest first for ts, the address of each is that of a page mapped by then. */
  ghost predicate Reached(mapped: set<nat>, high: set<nat>, ts: seq<nat>)
    decreases |ts|
  {
    ts == []
    || (high != {} && Lowest(high) in mapped + {ts[0]} && Reached(mapped + {ts[0]}, high - {Lowest(high)}, ts[1..]))
  }

  /** The pages qs can be loaded: all from below, or the rest through addresses that are mapped. */
  ghost predicate Carried(s: Space, qs: seq<nat>) {
    || Cost(s, ToSet(qs)) <= |Low(s)|
    || (Spills(s, qs) && Reached(Translate(s).Keys + ToSet(qs[..Below(s, qs)]), High(s), qs[Below(s, qs)..]))
  }

  /** The pages qs can be loaded each in its place: all from below, or the rest happen to be the lowest pages above. */
  ghost predicate Placed(s: Space, qs: seq<nat>) {
    Cost(s, ToSet(qs)) <= |Low(s)| || (Spills(s, qs) && InOrder(High(s), qs[Below(s, qs)..]))
  }

  /** Free memory runs out while loading qs. */
  ghost predicate Short(s: Space, qs: seq<nat>) {
    exists j :: 0 <= j < |qs| && ShortAt(s, qs, j)
  }

  ghost predicate ShortAt(s: Space, qs: seq<nat>, j: nat)
    requires j < |qs|
  {
    Carried(s, qs[..j]) && Cost(s, ToSet(qs[..j + 1])) > |s.free|
  }

  // ---- sets ----

  lemma {:induction false} DisjointUnion(a: set<nat>, b: set<nat>)
    requires a !! b
    ensures |a + b| == |a| + |b|
  {
  }

  lemma {:induction false} DirsSplit(ps: set<nat>, qs: set<nat>)
    ensures DirsOf(ps + qs) == DirsOf(ps) + DirsOf(qs)
  {
    hide Dir;
  }

  lemma {:induction false} ToSetCons(q: nat, qs: seq<nat>)
    ensures ToSet([q] + qs) == {q} + ToSet(qs)
  {
  }

  lemma {:induction false} CardOne(a: set<nat>, x: nat)
    requires x in a
    ensures |a - {x}| == |a| - 1
  {
  }

  lemma {:induction false} CardZero(a: set<nat>)
    ensures |a| == 0 <==> a == {}
  {
  }

  lemma {:induction false} FreeSplits(s: Space)
    ensures s.free == Low(s) + High(s) && Low(s) !! High(s) && |s.free| == |Low(s)| + |High(s)|
  {
    assert s.free == Low(s) + High(s);
    DisjointUnion(Low(s), High(s));
  }

  /** s' has the tables of s, and one for page vp. */
  ghost predicate TableFor(s: Space, s': Space, vp: nat) {
    forall d: nat :: HasTable(s', d) <==> HasTable(s, d) || d == Dir(vp)
  }

  /** A table made for the first page need not be made again for the others. */
  lemma {:induction false} TablesSplit(s: Space, s': Space, vp: nat, qs: set<nat>)
    requires TableFor(s, s', vp)
    ensures NewTables(s, {vp} + qs) == NewTables(s, {vp}) + NewTables(s', qs)
    ensures NewTables(s, {vp}) !! NewTables(s', qs)
    ensures |NewTables(s, {vp} + qs)| == |NewTables(s, {vp})| + |NewTables(s', qs)|
  {
    hide HasTable, DirsOf;
    DirsSplit({vp}, qs);
    OneDir(vp);
    assert NewTables(s, {vp} + qs) == NewTables(s, {vp}) + NewTables(s', qs);
    DisjointUnion(NewTables(s, {vp}), NewTables(s', qs));
  }

  lemma {:induction false} OneDir(vp: nat)
    ensures DirsOf({vp}) == {Dir(vp)}
  {
    hide Dir;
    var one := {vp};
    assert vp in one;
    assert DirsOf(one) == {Dir(vp)};
  }

  lemma {:induction false} CostOne(s: Space, vp: nat)
    ensures NewTables(s, {vp}) == if HasTable(s, Dir(vp)) then {} else {Dir(vp)}
    ensures Cost(s, {vp}) == if HasTable(s, Dir(vp)) then 1 else 2
  {
    hide HasTable, DirsOf;
    OneDir(vp);
    assert NewTables(s, {vp}) == if HasTable(s, Dir(vp)) then {} else {Dir(vp)};
  }

  lemma {:induction false} CostStep(s: Space, s': Space, vp: nat, qs: set<nat>)
    requires TableFor(s, s', vp) && vp !in qs
    ensures Cost(s, {vp} + qs) == Cost(s, {vp}) + Cost(s', qs)
  {
    hide HasTable, NewTables;
    TablesSplit(s, s', vp, qs);
    DisjointUnion({vp}, qs);
  }

  lemma {:induction false} NoCost(s: Space)
    ensures NewTables(s, {}) == {} && Cost(s, {}) == 0 && ToSet([]) == {} && Carried(s, []) && Placed(s, [])
  {
    hide Low, High, HasTable;
    assert DirsOf({}) == {};
    assert NewTables(s, {}) == {};
    assert ToSet([]) == {};
  }

  // ---- one page ----

  lemma {:induction false} SameFree(s: Space, s': Space)
    requires s'.free == s.free
    ensures Low(s') == Low(s) && High(s') == High(s)
  {
    assert Low(s') == Low(s);
  }

  lemma {:induction false} LowTaken(s: Space, t: nat)
    requires t in Low(s)
    ensures var s' := s.(free := s.free - {t});
            Low(s') == Low(s) - {t} && High(s') == High(s) && |Low(s')| == |Low(s)| - 1 && t < FRAMES
  {
    var s' := s.(free := s.free - {t});
    assert Low(s') == Low(s) - {t};
    assert High(s') == High(s);
    CardOne(Low(s), t);
  }

  lemma {:induction false} HighTaken(s: Space, t: nat)
    requires t in s.free && Low(s) == {}
    ensures var s' := s.(free := s.free - {t}); Low(s') == {} && High(s') == High(s) - {t} && High(s) == s.free
  {
    var s' := s.(free := s.free - {t});
    assert Low(s') <= Low(s);
    assert High(s') == High(s) - {t};
  }

  /** The lowest free page is the lowest below 4 MB, or the lowest above if none is free below. */
  lemma {:induction false} LowestHigh(s: Space)
    requires s.free != {} && Low(s) == {}
    ensures High(s) == s.free && Lowest(High(s)) == Lowest(s.free) >= FRAMES
  {
    LowestIsLow(s);
    assert High(s) == s.free;
  }

  /** What a mapping takes from the low pages. */
  lemma {:induction false} MapPays(s: Space, vp: nat, t: nat)
    requires Wf(s) && vp < VPAGES && vp * PAGE < WORD && t * PAGE < WORD
    requires MapPage(s, vp * PAGE, t * PAGE, USER_FLAGS).1 == Done
    ensures var s' := MapPage(s, vp * PAGE, t * PAGE, USER_FLAGS).0;
            && |Low(s')| == |Low(s)| - (if HasTable(s, Dir(vp)) then 0 else 1) && High(s') == High(s)
            && TableFor(s, s', vp)
  {
    hide MapPage, Wf, Low, High, HasTable;
    PageAddress(vp);
    MapTakes(s, vp * PAGE, t * PAGE, USER_FLAGS);
    var s' := MapPage(s, vp * PAGE, t * PAGE, USER_FLAGS).0;
    if HasTable(s, Dir(vp)) {
      SameFree(s, s');
    } else {
      LowTaken(s, Lowest(s.free));
      SameFree(s.(free := s.free - {Lowest(s.free)}), s');
    }
  }

  /** s' is s after a page has been loaded at vp. */
  ghost predicate Spent(s: Space, s': Space, vp: nat) {
    && TableFor(s, s', vp) && Translate(s').Keys == Translate(s).Keys + {vp} && |s'.free| == |s.free| - Cost(s, {vp})
    && (Cost(s, {vp}) <= |Low(s)| ==> |Low(s')| == |Low(s)| - Cost(s, {vp}) && High(s') == High(s))
    && (Cost(s, {vp}) > |Low(s)| ==>
          Low(s) == Low(s') == {} && High(s) != {} && High(s') == High(s) - {Lowest(High(s))} && HasTable(s, Dir(vp)))
  }

  lemma {:induction false} FillKeepsFree(s: Space, t: nat, page: seq<byte>)
    ensures var r := FillAt(s, t, page); r.0.free == s.free && forall d: nat :: HasTable(r.0, d) <==> HasTable(s, d)
  {
  }

  /** Taking the lowest page t and mapping it. */
  lemma {:induction false} MapFate(s: Space, vp: nat)
    requires Good(s) && ENTRIES <= vp < VPAGES && s.free != {}
    ensures vp * PAGE < WORD && Lowest(s.free) * PAGE < WORD
    ensures var t := Lowest(s.free);
            var s1 := s.(free := s.free - {t});
            var m := MapPage(s1, vp * PAGE, t * PAGE, USER_FLAGS);
            && t in s.free && 1 <= t < TOTAL && Good(s1) && Wf(s1)
            && (m.1 == Done <==> HasTable(s, Dir(vp)) || Low(s1) != {})
            && (m.1 == Refused <==> !HasTable(s, Dir(vp)) && s1.free == {})
            && (m.1 == Wild ==> s1.free != {} && Mapped(s, Lowest(s1.free)))
            && (m.1 == Faulted ==> s1.free != {} && !Mapped(s, Lowest(s1.free)))
  {
    hide MapPage, Good, Wf, Low, HasTable, Dir, Plain, Spare, Entry, Present;
    TakeOne(s);
    var t := Lowest(s.free);
    var s1 := s.(free := s.free - {t});
    WfOfGood(s1);
    TableMember(s1, t);
    PageAddress(t);
    MapOne(s1, vp, t);
    SameSlots(s, s1);
    SameEntries(s, s1);
    NoneIsLow(s1);
  }

  lemma {:induction false} NoneIsLow(s: Space)
    ensures s.free == {} ==> Low(s) == {}
  {
  }

  lemma {:induction false} SameSlots(s: Space, s1: Space)
    requires s1.dir == s.dir
    ensures forall d: nat :: HasTable(s1, d) <==> HasTable(s, d)
  {
  }

  /** What filling the page just mapped comes to, in terms of the space before. */
  lemma {:induction false} FillFate(s: Space, vp: nat, page: seq<byte>)
    requires Good(s) && ENTRIES <= vp < VPAGES && vp !in Translate(s) && s.free != {} && |page| == PAGE
    requires vp * PAGE < WORD && Lowest(s.free) * PAGE < WORD
    requires MapPage(s.(free := s.free - {Lowest(s.free)}), vp * PAGE, Lowest(s.free) * PAGE, USER_FLAGS).1 == Done
    ensures var t := Lowest(s.free);
            var m := MapPage(s.(free := s.free - {t}), vp * PAGE, t * PAGE, USER_FLAGS).0;
            FillAt(m, t, page).1 == if t < FRAMES || t == vp then Done else if Mapped(s, t) then Astray else Faulted
  {
    hide MapPage, Good, Added, Undisturbed, Tables, Spare, Entry, Translate;
    var t := Lowest(s.free);
    var m := MapPage(s.(free := s.free - {t}), vp * PAGE, t * PAGE, USER_FLAGS).0;
    PageMapped(s, t, vp);
    GrownKeys(s, m, {vp});
    WhereItLeads(m, t, vp);
    if t != vp && t >= FRAMES {
      KeysAreMapped(s, t);
      KeysAreMapped(m, t);
    }
  }

  lemma {:induction false} KeysAreMapped(s: Space, q: nat)
    requires q < VPAGES
    ensures q in Translate(s) <==> Mapped(s, q)
  {
  }

  /** A page is refused exactly if fewer pages are free than it takes. */
  lemma {:induction false} LoadPageRefused(s: Space, file: seq<byte>, ph: Phdr, vp: nat)
    requires Good(s) && ENTRIES <= vp < VPAGES && vp !in Translate(s)
    ensures LoadPage(s, file, ph, vp).1 == Refused <==> |s.free| < Cost(s, {vp})
  {
    hide MapPage, LoadPage, Good, Wf, PageImage, Low, HasTable, Dir, Cost, FillAt, Translate, Mapped;
    CostOne(s, vp);
    CardZero(s.free);
    if s.free == {} {
      NoPageLeft(s, file, ph, vp);
    } else {
      MapFate(s, vp);
      LoadPageIs(s, file, ph, vp);
      var t := Lowest(s.free);
      CardOne(s.free, t);
      CardZero(s.free - {t});
      var m := MapPage(s.(free := s.free - {t}), vp * PAGE, t * PAGE, USER_FLAGS);
      if m.1 == Done { FillFate(s, vp, PageImage(file, ph, vp)); }
    }
  }

  /** With enough pages below 4 MB for the page and its table, it is loaded in its place. */
  lemma {:induction false} LoadPageLow(s: Space, file: seq<byte>, ph: Phdr, vp: nat)
    requires Good(s) && ENTRIES <= vp < VPAGES && vp !in Translate(s) && Cost(s, {vp}) <= |Low(s)|
    ensures LoadPage(s, file, ph, vp).1 == Done && Spent(s, LoadPage(s, file, ph, vp).0, vp)
  {
    hide MapPage, LoadPage, Good, Wf, PageImage, Low, High, HasTable, Dir, Cost, FillAt, Translate, Mapped, Added;
    CostOne(s, vp);
    CardZero(Low(s));
    LowestIsLow(s);
    MapFate(s, vp);
    LoadPageIs(s, file, ph, vp);
    LoadPageGrows(s, file, ph, vp);
    var t := Lowest(s.free);
    var s1 := s.(free := s.free - {t});
    LowTaken(s, t);
    CardZero(Low(s1));
    SameSlots(s, s1);
    var m := MapPage(s1, vp * PAGE, t * PAGE, USER_FLAGS);
    MapPays(s1, vp, t);
    FillFate(s, vp, PageImage(file, ph, vp));
    FillKeepsFree(m.0, t, PageImage(file, ph, vp));
    var s' := LoadPage(s, file, ph, vp).0;
    SameFree(m.0, s');
    GrownKeys(s, s', {vp});
    FreeSplits(s);
    FreeSplits(s');
  }

  /** With a table but no page below 4 MB, it takes the lowest page above and goes where that page's address leads. */
  lemma {:induction false} LoadPageHigh(s: Space, file: seq<byte>, ph: Phdr, vp: nat)
    requires Good(s) && ENTRIES <= vp < VPAGES && vp !in Translate(s)
    requires HasTable(s, Dir(vp)) && Low(s) == {} && High(s) != {}
    ensures var r, h := LoadPage(s, file, ph, vp), Lowest(High(s));
            && r.1 == (if h == vp then Done else if Mapped(s, h) then Astray else Faulted)
            && (GoesOn(r.1) ==> Spent(s, r.0, vp))
  {
    hide MapPage, LoadPage, Good, Wf, PageImage, Low, High, HasTable, Dir, Cost, FillAt, Translate, Mapped, Added;
    CostOne(s, vp);
    CardZero(Low(s));
    FreeSplits(s);
    LowestHigh(s);
    MapFate(s, vp);
    LoadPageIs(s, file, ph, vp);
    LoadPageGrows(s, file, ph, vp);
    var t := Lowest(s.free);
    var s1 := s.(free := s.free - {t});
    HighTaken(s, t);
    SameSlots(s, s1);
    var m := MapPage(s1, vp * PAGE, t * PAGE, USER_FLAGS);
    MapPays(s1, vp, t);
    CardZero(Low(m.0));
    CardZero(Low(s1));
    FillFate(s, vp, PageImage(file, ph, vp));
    FillKeepsFree(m.0, t, PageImage(file, ph, vp));
    var r := LoadPage(s, file, ph, vp);
    SameFree(m.0, r.0);
    CardOne(High(s), t);
    FreeSplits(r.0);
    if r.1 == Done { GrownKeys(s, r.0, {vp}); }
    if r.1 == Astray { AddedKeys(s, r.0, {vp}); }
  }

  /** Without a table, and with pages left but none below for it, making the table faults or goes wild. */
  lemma {:induction false} LoadPageTable(s: Space, file: seq<byte>, ph: Phdr, vp: nat)
    requires Good(s) && ENTRIES <= vp < VPAGES && vp !in Translate(s)
    requires !HasTable(s, Dir(vp)) && |Low(s)| < 2 <= |s.free|
    ensures var hs := if Low(s) == {} then High(s) - {Lowest(s.free)} else High(s);
            && hs != {}
            && LoadPage(s, file, ph, vp).1 == if Mapped(s, Lowest(hs)) then Wild else Faulted
  {
    hide MapPage, LoadPage, Good, Wf, PageImage, Low, High, HasTable, Dir, Cost, FillAt, Translate, Mapped;
    CardZero(Low(s));
    CardZero(s.free);
    LowestIsLow(s);
    MapFate(s, vp);
    LoadPageIs(s, file, ph, vp);
    var t := Lowest(s.free);
    var s1 := s.(free := s.free - {t});
    CardOne(s.free, t);
    CardZero(s1.free);
    if Low(s) == {} {
      HighTaken(s, t);
    } else {
      LowTaken(s, t);
      CardZero(Low(s1));
    }
    LowestHigh(s1);
  }

  /** All the ways loading one page can go. */
  lemma {:induction false} LoadPageFate(s: Space, file: seq<byte>, ph: Phdr, vp: nat)
    requires Good(s) && ENTRIES <= vp < VPAGES && vp !in Translate(s)
    ensures var r, need := LoadPage(s, file, ph, vp), Cost(s, {vp});
            && (r.1 == Refused <==> |s.free| < need)
            && (need <= |Low(s)| ==> r.1 == Done)
            && (|Low(s)| < need <= |s.free| && HasTable(s, Dir(vp)) ==>
                  && Low(s) == {} && High(s) != {}
                  && var h := Lowest(High(s));
                     r.1 == if h == vp then Done else if Mapped(s, h) then Astray else Faulted)
            && (|Low(s)| < need <= |s.free| && !HasTable(s, Dir(vp)) ==> r.1 == Wild || r.1 == Faulted)
            && (GoesOn(r.1) ==> Spent(s, r.0, vp))
  {
    hide LoadPage, Good, Low, High, HasTable, Dir, Cost, Translate, Mapped, Spent;
    CostOne(s, vp);
    CardZero(Low(s));
    CardZero(High(s));
    FreeSplits(s);
    LoadPageRefused(s, file, ph, vp);
    if Cost(s, {vp}) <= |Low(s)| {
      LoadPageLow(s, file, ph, vp);
    } else if Cost(s, {vp}) <= |s.free| {
      if HasTable(s, Dir(vp)) { LoadPageHigh(s, file, ph, vp); } else { LoadPageTable(s, file, ph, vp); }
    }
  }

  // ---- one page more at the front ----

  lemma {:induction false} SpillsStep(s: Space, s': Space, vp: nat, qs: seq<nat>)
    requires TableFor(s, s', vp) && |Low(s')| == |Low(s)| - Cost(s, {vp}) && vp !in qs
    ensures Below(s, [vp] + qs) == Below(s', qs) + 1
    ensures Spills(s, [vp] + qs) <==> Spills(s', qs)
  {
    hide HasTable, Low, NewTables, Dir, ToSet, TableFor;
    var all, k := [vp] + qs, Below(s', qs);
    ToSetCons(vp, qs);
    TablesSplit(s, s', vp, ToSet(qs));
    DisjointUnion({vp}, {});
    assert |{vp}| == 1;
    if k == -1 {
      assert all[..0] == [];
      NoCost(s);
      CardZero(NewTables(s, ToSet(all)));
    } else if 0 <= k <= |qs| {
      assert all[..k + 1] == [vp] + qs[..k];
      ToSetCons(vp, qs[..k]);
      TablesSplit(s, s', vp, ToSet(qs[..k]));
    }
  }

  /** Loading the first page from below changes nothing for the rest. */
  lemma {:induction false} CarriedLow(s: Space, s': Space, vp: nat, qs: seq<nat>)
    requires Spent(s, s', vp) && Cost(s, {vp}) <= |Low(s)| && vp !in qs
    ensures Carried(s, [vp] + qs) <==> Carried(s', qs)
    ensures Placed(s, [vp] + qs) <==> Placed(s', qs)
  {
    hide HasTable, Low, High, Cost, NewTables, Below, Dir, Translate, Spills;
    ToSetCons(vp, qs);
    CostStep(s, s', vp, ToSet(qs));
    SpillsStep(s, s', vp, qs);
    var all, k := [vp] + qs, Below(s', qs);
    if Spills(s', qs) {
      SpillsWithin(s', qs);
      assert all[k + 1..] == qs[k..];
      assert all[..k + 1] == [vp] + qs[..k];
      ToSetCons(vp, qs[..k]);
      assert Translate(s).Keys + ToSet(all[..k + 1]) == Translate(s').Keys + ToSet(qs[..k]);
    }
  }

  lemma {:induction false} SpillsWithin(s: Space, qs: seq<nat>)
    requires Spills(s, qs)
    ensures 0 <= Below(s, qs) < |qs|
  {
  }

  /** With no page below, what spills is everything, and no table may be missing. */
  lemma {:induction false} SpillsAll(s: Space, qs: seq<nat>)
    requires Low(s) == {} && qs != []
    ensures Spills(s, qs) <==> NewTables(s, ToSet(qs)) == {}
    ensures Spills(s, qs) ==> Below(s, qs) == 0
    ensures Cost(s, ToSet(qs)) > |Low(s)|
  {
    hide HasTable, NewTables, Low;
    NoCost(s);
    CardZero(NewTables(s, ToSet(qs)));
    CardZero(ToSet(qs));
    assert qs[0] in ToSet(qs);
    assert qs[..0] == [];
  }

  lemma {:induction false} CarriedAbove(s: Space, qs: seq<nat>)
    requires Low(s) == {} && qs != []
    ensures Carried(s, qs) <==> NewTables(s, ToSet(qs)) == {} && Reached(Translate(s).Keys, High(s), qs)
    ensures Placed(s, qs) <==> NewTables(s, ToSet(qs)) == {} && InOrder(High(s), qs)
  {
    hide HasTable, Low, High, Cost, NewTables, Below, Translate, Spills, Reached, InOrder;
    SpillsAll(s, qs);
    NoCost(s);
    if Spills(s, qs) {
      assert qs[Below(s, qs)..] == qs && qs[..Below(s, qs)] == [];
      assert Translate(s).Keys + {} == Translate(s).Keys;
    }
  }

  /** Loading the first page from above: the rest is as before, if the page could be loaded. */
  lemma {:induction false} CarriedHigh(s: Space, s': Space, vp: nat, qs: seq<nat>)
    requires Spent(s, s', vp) && Cost(s, {vp}) > |Low(s)| && vp !in qs
    ensures Carried(s, [vp] + qs) <==> Lowest(High(s)) in Translate(s).Keys + {vp} && Carried(s', qs)
    ensures Placed(s, [vp] + qs) <==> Lowest(High(s)) == vp && Placed(s', qs)
  {
    hide HasTable, Low, High, Cost, NewTables, Dir, Translate, Carried, Placed;
    var all := [vp] + qs;
    ToSetCons(vp, qs);
    CostOne(s, vp);
    TablesSplit(s, s', vp, ToSet(qs));
    CarriedAbove(s, all);
    assert all[1..] == qs;
    NoCost(s');
    if qs != [] { CarriedAbove(s', qs); }
  }

  lemma {:induction false} NeverCarried(s: Space, vp: nat, qs: seq<nat>)
    requires Cost(s, {vp}) > |Low(s)| && !HasTable(s, Dir(vp))
    ensures !Carried(s, [vp] + qs) && !Placed(s, [vp] + qs)
  {
    hide HasTable, Low, High, Translate, DirsOf, Dir;
    var all := [vp] + qs;
    ToSetCons(vp, qs);
    CostOne(s, vp);
    CostGrows(s, {vp}, ToSet(qs));
    DirsSplit({vp}, ToSet(qs));
    OneDir(vp);
    assert Dir(vp) in NewTables(s, ToSet(all));
    assert |NewTables(s, ToSet(all))| >= 1 by { CardZero(NewTables(s, ToSet(all))); }
    assert all[..0] == [];
    NoCost(s);
  }

  lemma {:induction false} CostGrows(s: Space, ps: set<nat>, qs: set<nat>)
    ensures Cost(s, ps) <= Cost(s, ps + qs)
  {
    hide HasTable, DirsOf;
    DirsSplit(ps, qs);
    SubsetCard(NewTables(s, ps), NewTables(s, ps + qs));
    SubsetCard(ps, ps + qs);
  }

  lemma {:induction false} SubsetCard(a: set<nat>, b: set<nat>)
    requires a <= b
    ensures |a| <= |b|
  {
    assert b == a + (b - a);
    DisjointUnion(a, b - a);
  }

  /** A page the load gets past. */
  lemma {:induction false} CarriedStep(s: Space, file: seq<byte>, ph: Phdr, vp: nat, qs: seq<nat>)
    requires Good(s) && ENTRIES <= vp < VPAGES && vp !in Translate(s) && vp !in qs
    requires GoesOn(LoadPage(s, file, ph, vp).1)
    ensures var r := LoadPage(s, file, ph, vp);
            && Spent(s, r.0, vp) && (Carried(s, [vp] + qs) <==> Carried(r.0, qs))
            && (Placed(s, [vp] + qs) <==> r.1 == Done && Placed(r.0, qs))
  {
    hide LoadPage, Good, Carried, Placed, Low, High, Cost, HasTable, Dir, Translate, Mapped, Entry;
    LoadPageFate(s, file, ph, vp);
    var r := LoadPage(s, file, ph, vp);
    if Cost(s, {vp}) <= |Low(s)| {
      CarriedLow(s, r.0, vp, qs);
    } else {
      CarriedHigh(s, r.0, vp, qs);
      HighBound(s);
      KeysAreMapped(s, Lowest(High(s)));
    }
  }

  lemma {:induction false} HighBound(s: Space)
    requires Good(s) && High(s) != {}
    ensures FRAMES <= Lowest(High(s)) < TOTAL
  {
    assert Lowest(High(s)) in High(s);
  }

  /** A page the load does not get past. */
  lemma {:induction false} CarriedStop(s: Space, file: seq<byte>, ph: Phdr, vp: nat, qs: seq<nat>)
    requires Good(s) && ENTRIES <= vp < VPAGES && vp !in Translate(s)
    requires !GoesOn(LoadPage(s, file, ph, vp).1)
    ensures !Carried(s, [vp] + qs) && !Placed(s, [vp] + qs)
  {
    hide LoadPage, Good, Low, High, Cost, HasTable, Dir, Translate, Mapped, Entry, Carried, Placed, NewTables;
    LoadPageFate(s, file, ph, vp);
    CostOne(s, vp);
    if !HasTable(s, Dir(vp)) {
      NeverCarried(s, vp, qs);
    } else {
      CardZero(Low(s));
      CardZero(High(s));
      FreeSplits(s);
      CarriedAbove(s, [vp] + qs);
      if High(s) != {} {
        HighBound(s);
        KeysAreMapped(s, Lowest(High(s)));
      }
    }
  }

  // ---- running short ----

  lemma {:induction false} ShortStep(s: Space, file: seq<byte>, ph: Phdr, vp: nat, qs: seq<nat>)
    requires Good(s) && ENTRIES <= vp < VPAGES && vp !in Translate(s) && vp !in qs
    requires GoesOn(LoadPage(s, file, ph, vp).1)
    ensures Short(s, [vp] + qs) <==> Short(LoadPage(s, file, ph, vp).0, qs)
  {
    hide LoadPage, Good, ShortAt, Translate, Mapped, Entry;
    var s1, all := LoadPage(s, file, ph, vp).0, [vp] + qs;
    ShortFirst(s, file, ph, vp, qs);
    forall j | 0 <= j < |qs|
      ensures ShortAt(s, all, j + 1) <==> ShortAt(s1, qs, j)
    {
      ShortLater(s, file, ph, vp, qs, j);
    }
    if j :| 0 <= j < |all| && ShortAt(s, all, j) { assert ShortAt(s1, qs, j - 1); }
    if j :| 0 <= j < |qs| && ShortAt(s1, qs, j) { assert ShortAt(s, all, j + 1); }
  }

  /** Whether the first page finds too little memory is decided by its cost. */
  lemma {:induction false} ShortFirst(s: Space, file: seq<byte>, ph: Phdr, vp: nat, qs: seq<nat>)
    requires Good(s) && ENTRIES <= vp < VPAGES && vp !in Translate(s)
    ensures ShortAt(s, [vp] + qs, 0) <==> LoadPage(s, file, ph, vp).1 == Refused
  {
    hide LoadPage, Good, Carried, Cost, Translate;
    LoadPageRefused(s, file, ph, vp);
    var all := [vp] + qs;
    assert all[..0] == [] && all[..1] == [vp] && ToSet([vp]) == {vp};
    NoCost(s);
  }

  lemma {:induction false} ShortLater(s: Space, file: seq<byte>, ph: Phdr, vp: nat, qs: seq<nat>, j: nat)
    requires Good(s) && ENTRIES <= vp < VPAGES && vp !in Translate(s) && vp !in qs && j < |qs|
    requires GoesOn(LoadPage(s, file, ph, vp).1)
    ensures ShortAt(s, [vp] + qs, j + 1) <==> ShortAt(LoadPage(s, file, ph, vp).0, qs, j)
  {
    hide LoadPage, Good, Carried, Placed, Cost, Translate, Mapped, Entry, Low, High, HasTable;
    var s1, all := LoadPage(s, file, ph, vp).0, [vp] + qs;
    assert all[..j + 1] == [vp] + qs[..j] && all[..j + 2] == [vp] + qs[..j + 1];
    CarriedStep(s, file, ph, vp, qs[..j]);
    ToSetCons(vp, qs[..j + 1]);
    CostStep(s, s1, vp, ToSet(qs[..j + 1]));
  }

  lemma {:induction false} ShortStop(s: Space, file: seq<byte>, ph: Phdr, vp: nat, qs: seq<nat>)
    requires Good(s) && ENTRIES <= vp < VPAGES && vp !in Translate(s)
    requires !GoesOn(LoadPage(s, file, ph, vp).1)
    ensures Short(s, [vp] + qs) <==> LoadPage(s, file, ph, vp).1 == Refused
  {
    hide LoadPage, Good, Carried, Placed, Cost, Translate, Mapped, Entry;
    var all := [vp] + qs;
    ShortFirst(s, file, ph, vp, qs);
    forall j | 0 < j < |all| ensures !ShortAt(s, all, j) {
      assert all[..j] == [vp] + qs[..j - 1];
      CarriedStop(s, file, ph, vp, qs[..j - 1]);
    }
    if LoadPage(s, file, ph, vp).1 == Refused { assert ShortAt(s, all, 0); }
  }

  // ---- a segment ----

  function PageList(vp: nat, n: nat): seq<nat>
    decreases n
  {
    if n == 0 then [] else [vp] + PageList(vp + 1, n - 1)
  }

  lemma {:induction false} PageListIs(vp: nat, n: nat, q: nat)
    ensures q in PageList(vp, n) <==> q in Pages(vp, n)
    decreases n
  {
    hide Pages;
    if n == 0 {
      NoPages(vp);
    } else {
      PageListIs(vp + 1, n - 1, q);
      PagesSplit(vp, n);
    }
  }

  lemma {:induction false} PageListAt(vp: nat, n: nat, i: nat)
    requires i < n
    ensures |PageList(vp, n)| == n && PageList(vp, n)[i] == vp + i
    decreases n
  {
    if n > 1 { PageListAt(vp + 1, n - 1, if i > 0 then i - 1 else 0); }
  }

  /**
   A range of pages, with more to come: it is loaded exactly as far as the whole can be carried; every page is in its
   place exactly if the whole can be placed; and it is refused exactly if memory runs short.
   */
  lemma {:induction false} LoadPagesFate(s: Space, file: seq<byte>, ph: Phdr, vp: nat, n: nat, more: seq<nat>)
    requires Good(s) && ENTRIES <= vp && vp + n <= VPAGES && Pages(vp, n) !! Translate(s).Keys
    requires forall q :: q in Pages(vp, n) ==> q !in more
    ensures var r, qs := LoadPages(s, file, ph, vp, n), PageList(vp, n) + more;
            && (r.status == Done ==>
                  && (Carried(s, qs) <==> Carried(r.s, more)) && (Placed(s, qs) <==> r.clean && Placed(r.s, more))
                  && (Short(s, qs) <==> Short(r.s, more)))
            && (r.status != Done ==> !Carried(s, qs) && !Placed(s, qs) && (Short(s, qs) <==> r.status == Refused))
    decreases n
  {
    hide Good, LoadPage, Translate, Pages, Added, Grown, Carried, Placed, Short, Spent;
    if n == 0 {
      assert PageList(vp, 0) + more == more;
    } else {
      FirstIn(vp, n);
      PagesSplit(vp, n);
      NotIn(vp, n);
      LoadPageGrows(s, file, ph, vp);
      var s1, rest := LoadPage(s, file, ph, vp).0, PageList(vp + 1, n - 1) + more;
      PageListIs(vp + 1, n - 1, vp);
      assert PageList(vp, n) + more == [vp] + rest;
      if GoesOn(LoadPage(s, file, ph, vp).1) {
        if LoadPage(s, file, ph, vp).1 == Done { GrownKeys(s, s1, {vp}); }
        AddedKeys(s, s1, {vp});
        CarriedStep(s, file, ph, vp, rest);
        ShortStep(s, file, ph, vp, rest);
        LoadPagesFate(s1, file, ph, vp + 1, n - 1, more);
      } else {
        CarriedStop(s, file, ph, vp, rest);
        ShortStop(s, file, ph, vp, rest);
      }
    }
  }

  /** n pages that need m new tables and find n + m free pages below 4 MB are all loaded, each in its place. */
  lemma {:induction false} LoadPagesCount(s: Space, file: seq<byte>, ph: Phdr, vp: nat, n: nat)
    requires Good(s) && ENTRIES <= vp && vp + n <= VPAGES && Pages(vp, n) !! Translate(s).Keys
    requires n + |NewTables(s, Pages(vp, n))| <= |Low(s)|
    ensures var r := LoadPages(s, file, ph, vp, n); r.status == Done && r.clean && r.n == n
  {
    hide Good, LoadPages, Translate, Low, NewTables, Grown, Added;
    forall q: nat ensures q in ToSet(PageList(vp, n)) <==> q in Pages(vp, n) { PageListIs(vp, n, q); }
    SameSets(ToSet(PageList(vp, n)), Pages(vp, n));
    PagesCard(vp, n);
    assert PageList(vp, n) + [] == PageList(vp, n);
    LoadPagesFate(s, file, ph, vp, n, []);
    LoadPagesGrows(s, file, ph, vp, n);
  }

  lemma {:induction false} PagesCard(vp: nat, n: nat)
    ensures |Pages(vp, n)| == n
    decreases n
  {
    hide Pages;
    if n == 0 {
      NoPages(vp);
    } else {
      PagesCard(vp + 1, n - 1);
      PagesSplit(vp, n);
      NotIn(vp, n);
    }
  }

  lemma {:induction false} SameSets(a: set<nat>, b: set<nat>)
    requires forall p: nat :: p in a <==> p in b
    ensures a == b
  {
  }

  // ---- whole programs ----

  predicate Overruns(file: seq<byte>, ph: Phdr) { (ph.offset + ph.filesz) % WORD > |file| }

  /**
   * What the headers alone decide: 0, or the code of the first header that cannot be loaded whatever memory there is.
   */
  function Verdict(file: seq<byte>, phs: seq<Phdr>, k: nat): int
    decreases |phs|
  {
    if phs == [] then 0
    else if !Wanted(phs[0]) then Verdict(file, phs[1..], k)
    else if Overruns(file, phs[0]) then -4
    else if k >= MAX_SEGMENTS || PageCount(phs[0]) == 0 then -5
    else Verdict(file, phs[1..], k + 1)
  }

  /** The virtual pages asked for before that header, in the order in which they are mapped. */
  function Demand(file: seq<byte>, phs: seq<Phdr>, k: nat): seq<nat>
    decreases |phs|
  {
    if phs == [] then []
    else if !Wanted(phs[0]) then Demand(file, phs[1..], k)
    else if Overruns(file, phs[0]) || k >= MAX_SEGMENTS || PageCount(phs[0]) == 0 then []
    else PageList(FirstPage(phs[0]), PageCount(phs[0])) + Demand(file, phs[1..], k + 1)
  }

  lemma {:induction false} DemandIsWanted(file: seq<byte>, phs: seq<Phdr>, k: nat, q: nat)
    requires q in Demand(file, phs, k)
    ensures exists i :: 0 <= i < |phs| && Wanted(phs[i]) && q in SegPages(phs[i])
    decreases |phs|
  {
    hide Pages, Overruns, PageCount, FirstPage, PageList;
    PageListIs(FirstPage(phs[0]), PageCount(phs[0]), q);
    if !(Wanted(phs[0]) && q in SegPages(phs[0])) {
      var k' := if Wanted(phs[0]) then k + 1 else k;
      DemandIsWanted(file, phs[1..], k', q);
      var i :| 0 <= i < |phs[1..]| && Wanted(phs[1..][i]) && q in SegPages(phs[1..][i]);
      assert phs[1..][i] == phs[i + 1];
    }
  }

  lemma {:induction false} DemandApart(s: Space, file: seq<byte>, phs: seq<Phdr>, k: nat)
    requires phs != [] && Clean(s, phs) && Wanted(phs[0])
    ensures forall q :: q in SegPages(phs[0]) ==> q !in Demand(file, phs[1..], k)
  {
    hide SegPages, Demand, Translate;
    forall q | q in Demand(file, phs[1..], k) ensures q !in SegPages(phs[0]) {
      DemandIsWanted(file, phs[1..], k, q);
      var i :| 0 <= i < |phs[1..]| && Wanted(phs[1..][i]) && q in SegPages(phs[1..][i]);
      assert phs[1..][i] == phs[i + 1];
    }
  }

  lemma {:induction false} OverrunIs(file: seq<byte>, ph: Phdr)
    ensures Overruns(file, ph) <==> (ph.offset + ph.filesz) % WORD > |file|
  {
  }

  /** How a load ends is decided by its headers, the pages they ask for, and the free pages. */
  lemma {:induction false} LoadFate(s: Space, file: seq<byte>, phs: seq<Phdr>, k: nat)
    requires Good(s) && Clean(s, phs)
    ensures var r, qs := LoadAll(s, file, phs, k).1, Demand(file, phs, k);
            && (Carried(s, qs) ==> r.end == Returned(Verdict(file, phs, k)))
            && (!Carried(s, qs) && Short(s, qs) ==> r.end == Returned(-5))
            && (!Carried(s, qs) && !Short(s, qs) ==> r.end == Halted || r.end == Lost)
            && (Carried(s, qs) ==> (r.clean <==> Placed(s, qs)))
    decreases |phs|
  {
    hide Good, Clean, LoadPages, Added, Grown, Translate, Pages, PageCount, FirstPage, Overruns, Carried, Placed;
    hide PageList;
    NoCost(s);
    if phs != [] {
      OverrunIs(file, phs[0]);
      if !Wanted(phs[0]) {
        CleanTail(s, phs);
        LoadFate(s, file, phs[1..], k);
      } else if !(Overruns(file, phs[0]) || k >= MAX_SEGMENTS || PageCount(phs[0]) == 0) {
        SegmentFate(s, file, phs, k);
      }
    }
  }

  lemma {:induction false} SegmentFate(s: Space, file: seq<byte>, phs: seq<Phdr>, k: nat)
    requires Good(s) && Clean(s, phs) && phs != [] && Wanted(phs[0])
    requires !Overruns(file, phs[0]) && k < MAX_SEGMENTS && PageCount(phs[0]) > 0
    ensures var r, qs := LoadAll(s, file, phs, k).1, Demand(file, phs, k);
            && (Carried(s, qs) ==> r.end == Returned(Verdict(file, phs, k)))
            && (!Carried(s, qs) && Short(s, qs) ==> r.end == Returned(-5))
            && (!Carried(s, qs) && !Short(s, qs) ==> r.end == Halted || r.end == Lost)
            && (Carried(s, qs) ==> (r.clean <==> Placed(s, qs)))
    decreases |phs|, 0
  {
    hide Good, Clean, LoadPages, Added, Grown, Translate, Pages, PageCount, FirstPage, Carried, Placed, PageList, Short;
    var ph, rest := phs[0], phs[1..];
    var vp, n := FirstPage(ph), PageCount(ph);
    CleanHead(s, phs);
    SpanFits(ph);
    DemandApart(s, file, phs, k + 1);
    LoadPagesFate(s, file, ph, vp, n, Demand(file, rest, k + 1));
    LoadPagesGrows(s, file, ph, vp, n);
    var r := LoadPages(s, file, ph, vp, n);
    if r.status == Done {
      CleanGrown(s, r.s, phs);
      AddedKeys(s, r.s, SegPages(ph));
      LoadFate(r.s, file, rest, k + 1);
    }
  }

  /** A load returns 0 exactly if its headers are in order and its pages can be carried. */
  lemma {:induction false} LoadSucceedsIff(s: Space, file: seq<byte>, phs: seq<Phdr>)
    requires Good(s) && Clean(s, phs)
    ensures LoadAll(s, file, phs, 0).1.end == Returned(0) <==>
              Verdict(file, phs, 0) == 0 && Carried(s, Demand(file, phs, 0))
  {
    hide Good, Clean, LoadAll, Carried, Placed, Short, Demand;
    LoadFate(s, file, phs, 0);
  }

  /** It returns 0 with every page in its place exactly if its headers are in order and its pages can be placed. */
  lemma {:induction false} LoadIsRightIff(s: Space, file: seq<byte>, phs: seq<Phdr>)
    requires Good(s) && Clean(s, phs)
    ensures var r := LoadAll(s, file, phs, 0).1;
            r.end == Returned(0) && r.clean <==> Verdict(file, phs, 0) == 0 && Placed(s, Demand(file, phs, 0))
  {
    hide Good, Clean, LoadAll, Carried, Placed, Short, Demand;
    LoadFate(s, file, phs, 0);
    PlacedIsCarried(s, Demand(file, phs, 0));
  }

  /** It returns, with whatever code, exactly if its pages can be carried or memory runs short first. */
  lemma {:induction false} LoadReturnsIff(s: Space, file: seq<byte>, phs: seq<Phdr>)
    requires Good(s) && Clean(s, phs)
    ensures LoadAll(s, file, phs, 0).1.end.Returned? <==>
              Carried(s, Demand(file, phs, 0)) || Short(s, Demand(file, phs, 0))
  {
    hide Good, Clean, LoadAll, Carried, Placed, Short, Demand;
    LoadFate(s, file, phs, 0);
  }

  lemma {:induction false} OrderIsReached(mapped: set<nat>, high: set<nat>, ts: seq<nat>)
    requires InOrder(high, ts)
    ensures Reached(mapped, high, ts)
    decreases |ts|
  {
    if ts != [] { OrderIsReached(mapped + {ts[0]}, high - {ts[0]}, ts[1..]); }
  }

  lemma {:induction false} PlacedIsCarried(s: Space, qs: seq<nat>)
    ensures Placed(s, qs) ==> Carried(s, qs)
  {
    hide InOrder, Reached, Low, High, Cost, NewTables, Translate;
    if Spills(s, qs) && InOrder(High(s), qs[Below(s, qs)..]) {
      OrderIsReached(Translate(s).Keys + ToSet(qs[..Below(s, qs)]), High(s), qs[Below(s, qs)..]);
    }
  }

  // ---- when no page above is used ----

  /** If no page above 4 MB is free, pages that cannot be placed run short of memory. */
  lemma {:induction false} NoneAbove(s: Space, qs: seq<nat>)
    requires High(s) == {} && !Placed(s, qs)
    ensures !Carried(s, qs) && Cost(s, ToSet(qs)) > |s.free|
  {
    hide Cost, NewTables, Translate, Low;
    FreeSplits(s);
    if Spills(s, qs) { assert qs[Below(s, qs)..] != []; }
  }

  lemma {:induction false} NoneAboveShort(s: Space, qs: seq<nat>, n: nat)
    requires High(s) == {} && n <= |qs| && !Placed(s, qs[..n])
    ensures Short(s, qs)
    decreases n
  {
    hide Placed, Carried, Cost, High;
    if n == 0 {
      assert qs[..0] == [];
      NoCost(s);
    } else if Placed(s, qs[..n - 1]) {
      NoneAbove(s, qs[..n]);
      PlacedIsCarried(s, qs[..n - 1]);
      assert ShortAt(s, qs, n - 1);
    } else {
      NoneAboveShort(s, qs, n - 1);
    }
  }

  /** With the count met, or no page free above 4 MB, a load returns, and unloading restores the map and every page. */
  lemma {:induction false} ConservedUnderCount(s: Space, file: seq<byte>, phs: seq<Phdr>)
    requires Good(s) && Clean(s, phs) && (Placed(s, Demand(file, phs, 0)) || High(s) == {})
    ensures var r := LoadAll(s, file, phs, 0); r.1.end.Returned? && r.1.clean && Restored(s, Unload(r.0, r.1.segs))
  {
    hide Good, Clean, LoadAll, Placed, Carried, Short, Restored, High, Unload, Demand;
    var qs := Demand(file, phs, 0);
    LoadFate(s, file, phs, 0);
    LoadThenUnload(s, file, phs);
    PlacedIsCarried(s, qs);
    if !Placed(s, qs) {
      NoneAbove(s, qs);
      assert qs[..|qs|] == qs;
      NoneAboveShort(s, qs, |qs|);
    }
    if High(s) == {} { NoneAboveClean(s, file, phs, 0); }
  }

  /** Without pages above, no write goes astray. */
  lemma {:induction false} NoneAboveClean(s: Space, file: seq<byte>, phs: seq<Phdr>, k: nat)
    requires Good(s) && Clean(s, phs) && High(s) == {}
    ensures LoadAll(s, file, phs, k).1.clean
    decreases |phs|
  {
    hide Good, Clean, LoadPages, Added, Grown, Translate, Pages, PageCount, FirstPage, High;
    if phs != [] {
      if !Wanted(phs[0]) {
        CleanTail(s, phs);
        NoneAboveClean(s, file, phs[1..], k);
      } else {
        var ph := phs[0];
        var vp, n := FirstPage(ph), PageCount(ph);
        CleanHead(s, phs);
        SpanFits(ph);
        LoadPagesGrows(s, file, ph, vp, n);
        NoneAbovePages(s, file, ph, vp, n);
        var r := LoadPages(s, file, ph, vp, n);
        if r.status == Done {
          CleanGrown(s, r.s, phs);
          AddedKeys(s, r.s, SegPages(ph));
          NoneAboveClean(r.s, file, phs[1..], k + 1);
        }
      }
    }
  }

  lemma {:induction false} NoneAbovePages(s: Space, file: seq<byte>, ph: Phdr, vp: nat, n: nat)
    requires Good(s) && High(s) == {} && ENTRIES <= vp && vp + n <= VPAGES && Pages(vp, n) !! Translate(s).Keys
    ensures var r := LoadPages(s, file, ph, vp, n); r.clean && (r.status == Done ==> High(r.s) == {})
    decreases n
  {
    hide Good, LoadPage, Translate, Pages, Added, Grown, Low, High, Cost, HasTable, Mapped;
    if n > 0 {
      FirstIn(vp, n);
      PagesSplit(vp, n);
      NotIn(vp, n);
      LoadPageGrows(s, file, ph, vp);
      LoadPageFate(s, file, ph, vp);
      var r := LoadPage(s, file, ph, vp);
      if GoesOn(r.1) {
        if r.1 == Done { GrownKeys(s, r.0, {vp}); }
        AddedKeys(s, r.0, {vp});
        NoneAbovePages(r.0, file, ph, vp + 1, n - 1);
      }
    }
  }

  /** The image of a load whose pages can be placed: every byte of every segment is there. */
  lemma {:induction false} ImageUnderCount(s: Space, file: seq<byte>, phs: seq<Phdr>, i: nat, v: nat)
    requires Good(s) && Clean(s, phs) && Verdict(file, phs, 0) == 0 && Placed(s, Demand(file, phs, 0)) && i < |phs|
    requires Wanted(phs[i])
    requires v < WORD && InRange(FirstPage(phs[i]), PageCount(phs[i]), v / PAGE)
    requires phs[i].vaddr + phs[i].filesz < WORD && phs[i].offset + phs[i].filesz < WORD
    ensures phs[i].offset + phs[i].filesz <= |file|
    ensures ReadByte(LoadAll(s, file, phs, 0).0, v) ==
            Some(if phs[i].vaddr <= v < phs[i].vaddr + phs[i].filesz then file[phs[i].offset + v - phs[i].vaddr] else 0)
  {
    hide Good, Clean, LoadAll, Placed, FirstPage, PageCount, ReadByte, Demand;
    LoadIsRightIff(s, file, phs);
    ImageIsRight(s, file, phs, i, v);
  }
}
