/** The page-table code itself, over the arrays it writes. */
module AddressSpace {
  import opened Bytes
  import opened PhysicalPages
  import opened PageTables

  class PageDirectory {
    const pmm: PageAllocator
    const dir: array<nat>
    const mem: array<seq<byte>>
    /** The page of the table for the first 4 MB. */
    const first: nat

    ghost function View(): Space
      reads dir, mem, pmm.bitmap
    {
      Space(dir[..], mem[..], pmm.Free())
    }

    /** Three different arrays. */
    ghost predicate Separate() {
      (pmm.bitmap as object) != mem && (pmm.bitmap as object) != dir && (mem as object) != dir
    }

    ghost predicate Valid()
      reads dir, mem, pmm, pmm.bitmap
    {
      Separate() && pmm.Valid() && Wf(View())
    }

    constructor (pmm: PageAllocator, dir: array<nat>, mem: array<seq<byte>>, first: nat)
      ensures this.pmm == pmm && this.dir == dir && this.mem == mem && this.first == first
    {
      this.pmm, this.dir, this.mem, this.first := pmm, dir, mem, first;
    }

    /** Where the processor finds a virtual page. */
    method Lead(page: nat) returns (mapped: bool, frame: nat)
      requires Valid() && page < VPAGES
      ensures mapped == Mapped(View(), page) && frame == Frame(Entry(View(), page))
    {
      hide Wf, Shape, TablesOk, FreeSet;
      Indices(page);
      Sizes(View());
      SlotIs(View(), Dir(page));
      ReadableIs(View(), page);
      var pde := dir[Dir(page)];
      if !Present(pde) { return false, 0; }
      var pte := Word(mem[Frame(pde)], 4 * Tbl(page));
      return Present(pte), Frame(pte);
    }

    /**
     The table of a virtual page, made if it is missing and that is asked for; 0 stands for none. If the page for a
     new table lies above 4 MB, zeroing it faults or zeroes another page, and the code is not followed further.
     */
    method GetPt(vp: nat, create: bool) returns (t: nat, status: Status)
      requires Valid() && vp < VPAGES
      modifies dir, mem, pmm.bitmap, pmm`freeCount
      ensures Valid() && View() == if create then WithTable(old(View()), Dir(vp)) else old(View())
      ensures status == if !create || !Beyond(old(View()), Dir(vp)) then Done
                        else if Mapped(old(View()), Lowest(old(View()).free)) then Wild else Faulted
      ensures t == if HasTable(View(), Dir(vp)) then TableOf(View(), Dir(vp)) * PAGE else 0
    {
      hide Wf, Shape, TablesOk, WithTable, FreeSet;
      Indices(vp);
      Sizes(View());
      TableRefines(View(), Dir(vp));
      ghost var s := View();
      var pde := dir[Dir(vp)];
      SlotIs(s, Dir(vp));
      if Present(pde) {
        HasOne(s, Dir(vp));
        return Frame(pde) * PAGE, Done;
      }
      if !create { return 0, Done; }
      NoneFree(s, Dir(vp));
      var pt := pmm.Alloc();
      if pt == 0 { return 0, Done; }
      assert pt / PAGE == Lowest(s.free);
      if pt / PAGE >= FRAMES {
        BeyondIs(s, Dir(vp));
        assert View() == WithTable(s, Dir(vp));
        var mapped, frame := Lead(pt / PAGE);
        SameTables(s, View());
        return 0, if mapped then Wild else Faulted;
      }
      FreshSlot(s, Dir(vp));
      ClearTable(pt / PAGE);
      dir[Dir(vp)] := pt + TABLE_FLAGS;
      assert View() == WithTable(s, Dir(vp));
      return pt, Done;
    }

    /** Zero a page, an entry at a time. */
    method ClearTable(t: nat)
      requires t < mem.Length && |mem[t]| == PAGE
      modifies mem
      ensures mem[..] == old(mem[..])[t := Zeros(PAGE)]
    {
      ghost var was := mem[..];
      for i := 0 to ENTRIES
        invariant |mem[t]| == PAGE && mem[..] == was[t := mem[t]]
        invariant forall k :: 0 <= k < 4 * i ==> mem[t][k] == 0
      {
        mem[t] := PutWord(mem[t], 4 * i, 0);
        ZeroBytes(mem[t], 4 * i);
      }
      assert mem[t] == Zeros(PAGE);
    }

    method VmmMap(virt: nat, phys: nat, flags: nat) returns (status: Status)
      requires Valid() && virt < WORD && phys < WORD && (virt >= ENTRIES * PAGE ==> Plain(View(), phys / PAGE))
      modifies dir, mem, pmm.bitmap, pmm`freeCount
      ensures Valid() && (View(), status) == MapPage(old(View()), virt, phys, flags)
    {
      hide Wf, WithTable, FreeSet, Plain, Pte;
      MapRefines(View(), virt, phys, flags);
      Sizes(View());
      var vp := virt / PAGE;
      Indices(vp);
      if virt % PAGE != 0 || phys % PAGE != 0 { return Refused; }
      TableRefines(View(), Dir(vp));
      var pt;
      pt, status := GetPt(vp, true);
      if status != Done { return; }
      TableNonzero(View(), Dir(vp));
      if pt == 0 { return Refused; }
      ghost var s := View();
      ReadableIs(s, vp);
      Put(pt / PAGE, Tbl(vp), Pte(phys, flags));
      assert View() == Store(s, vp, Pte(phys, flags));
      return Done;
    }

    /** Write entry i of the table in page t. */
    method Put(t: nat, i: nat, e: nat)
      requires t < mem.Length && 4 * i + 4 <= |mem[t]| && e < WORD
      modifies mem
      ensures mem[..] == old(mem[..])[t := PutWord(old(mem[..])[t], 4 * i, e)]
    {
      mem[t] := PutWord(mem[t], 4 * i, e);
    }

    method VmmUnmap(virt: nat)
      requires Valid() && virt < WORD
      modifies dir, mem, pmm.bitmap, pmm`freeCount
      ensures Valid() && View() == Unmap(old(View()), virt)
    {
      hide Wf, Shape, TablesOk, WithTable, FreeSet;
      UnmapRefines(View(), virt);
      var vp := virt / PAGE;
      Indices(vp);
      var pt, status := GetPt(vp, false);
      TableNonzero(View(), Dir(vp));
      if pt == 0 { return; }
      ghost var s := View();
      ReadableIs(s, vp);
      hide PutWord;
      Put(pt / PAGE, Tbl(vp), 0);
      assert View() == Store(s, vp, 0);
    }

    method VmmGetPhys(virt: nat) returns (phys: nat)
      requires Valid() && virt < WORD
      modifies dir, mem, pmm.bitmap, pmm`freeCount
      ensures Valid() && View() == old(View()) && phys == GetPhys(View(), virt)
    {
      hide Wf, Shape, TablesOk, WithTable, FreeSet;
      var vp := virt / PAGE;
      Indices(vp);
      var pt, status := GetPt(vp, false);
      TableNonzero(View(), Dir(vp));
      if pt == 0 { return SENTINEL; }
      ReadableIs(View(), vp);
      var pte := Word(mem[pt / PAGE], 4 * Tbl(vp));
      if !Present(pte) { return SENTINEL; }
      return Frame(pte) * PAGE + virt % PAGE;
    }

    /** The tables at start-up: the first 4 MB mapped to themselves, and nothing else. */
    method PagingInit()
      requires Separate() && pmm.Valid() && dir.Length == ENTRIES && mem.Length == TOTAL && 1 <= first < FRAMES
      requires first !in pmm.Free()
      requires forall p :: 0 <= p < TOTAL ==> |mem[p]| == PAGE
      requires 0 !in pmm.Free()
      modifies dir, mem
      ensures Valid() && pmm.Free() == old(pmm.Free()) && forall d: nat :: HasTable(View(), d) <==> d == 0
      ensures Translate(View()) == (map vp: nat | vp < 1024 :: vp * 0x1000 + 7) && View().dir[0] % 8 == 7
    {
      for i := 0 to ENTRIES
        invariant mem[..] == old(mem[..]) && forall k :: 0 <= k < i ==> dir[k] == 0
      {
        dir[i] := 0;
      }
      ghost var was := mem[..];
      assert was == old(mem[..]) && |was[first]| == PAGE;
      for i := 0 to ENTRIES
        invariant |mem[first]| == PAGE && mem[..] == was[first := mem[first]]
        invariant forall k :: 0 <= k < ENTRIES ==> dir[k] == 0
        invariant forall k :: 0 <= k < i ==> Word(mem[first], 4 * k) == k * PAGE + TABLE_FLAGS
      {
        ghost var page := mem[first];
        mem[first] := PutWord(mem[first], 4 * i, i * PAGE + TABLE_FLAGS);
        forall k | 0 <= k < i ensures Word(mem[first], 4 * k) == k * PAGE + TABLE_FLAGS {
          WordElsewhere(page, 4 * i, i * PAGE + TABLE_FLAGS, 4 * k);
        }
      }
      dir[0] := first * PAGE + TABLE_FLAGS;
      assert first * PAGE == 8 * (first * 512);
      FreeInTotal(pmm);
      InitialTables(View(), first);
    }

    /** Start-up: the allocator from the memory map, then the tables. The first table lies in the kernel, below 1 MB. */
    method Start(map_: seq<Region>)
      requires Separate() && pmm.bitmap.Length == PhysicalPages.WORDS && dir.Length == ENTRIES && mem.Length == TOTAL
      requires 1 <= first < LOW_MEMORY / PAGE && forall p :: 0 <= p < TOTAL ==> |mem[p]| == PAGE
      modifies pmm, pmm.bitmap, dir, mem
      ensures Valid() && View().free == InitialPages(map_) && forall d: nat :: HasTable(View(), d) <==> d == 0
      ensures Translate(View()) == (map vp: nat | vp < 1024 :: vp * 0x1000 + 7) && View().dir[0] % 8 == 7
    {
      hide Wf, FreeSet, InitialPages;
      InitialIsHigh(map_);
      ghost var was := mem[..];
      pmm.Init(map_);
      assert mem[..] == was;
      PagingInit();
    }
  }

  lemma {:induction false} ZeroBytes(page: seq<byte>, o: nat)
    requires o + 4 <= |page| && Word(page, o) == 0
    ensures page[o] == 0 && page[o + 1] == 0 && page[o + 2] == 0 && page[o + 3] == 0
  {
  }

  lemma {:induction false} Sizes(s: Space)
    requires Wf(s)
    ensures Shape(s) && TablesOk(s)
    ensures |s.dir| == ENTRIES && |s.mem| == TOTAL && (forall p :: 0 <= p < TOTAL ==> |s.mem[p]| == PAGE)
    ensures forall p :: p in s.free ==> 1 <= p < TOTAL
  {
  }

  lemma {:induction false} FreeInTotal(pmm: PageAllocator)
    requires pmm.Valid()
    ensures forall p :: p in pmm.Free() ==> p < TOTAL
  {
  }

  lemma {:induction false} InitialIsHigh(map_: seq<Region>)
    ensures forall p :: p in InitialPages(map_) ==> LOW_MEMORY / PAGE <= p < TOTAL
  {
  }

  lemma {:induction false} BeyondIs(s: Space, d: nat)
    requires Wf(s) && d < ENTRIES && !HasTable(s, d) && s.free != {} && Lowest(s.free) >= FRAMES
    ensures Beyond(s, d) && WithTable(s, d) == s.(free := s.free - {Lowest(s.free)}) && !HasTable(WithTable(s, d), d)
  {
  }

  lemma {:induction false} SlotIs(s: Space, d: nat)
    requires Wf(s) && d < ENTRIES
    ensures d < |s.dir| && (HasTable(s, d) <==> Present(s.dir[d])) && TableOf(s, d) == Frame(s.dir[d])
  {
  }

  lemma {:induction false} HasOne(s: Space, d: nat)
    requires d < |s.dir| && HasTable(s, d)
    ensures WithTable(s, d) == s
  {
  }

  lemma {:induction false} NoneFree(s: Space, d: nat)
    requires Wf(s) && d < ENTRIES
    ensures s.free == {} ==> WithTable(s, d) == s
    ensures s.free != {} ==> Lowest(s.free) * PAGE != 0
  {
    if s.free != {} { assert Lowest(s.free) in s.free; }
  }

  /** A table is never page 0, so a null pointer means that there is none. */
  lemma {:induction false} TableNonzero(s: Space, d: nat)
    requires Wf(s)
    ensures HasTable(s, d) ==> TableOf(s, d) * PAGE != 0
  {
  }

  lemma {:induction false} ReadableIs(s: Space, vp: nat)
    requires Wf(s) && vp < VPAGES
    ensures Readable(s, vp) <==> HasTable(s, Dir(vp))
    ensures HasTable(s, Dir(vp)) ==>
              var t := TableOf(s, Dir(vp));
              t * PAGE / PAGE == t && t < |s.mem| && |s.mem[t]| == PAGE && 4 * Tbl(vp) + 4 <= PAGE
  {
    Indices(vp);
  }

  lemma {:induction false} OnlyFirst(s: Space, first: nat)
    requires |s.dir| == ENTRIES && 1 <= first < FRAMES && s.dir[0] == first * PAGE + TABLE_FLAGS
    requires forall d :: 1 <= d < ENTRIES ==> s.dir[d] == 0
    ensures forall d: nat :: HasTable(s, d) <==> d == 0
    ensures TableOf(s, 0) == first
  {
    PteFields(first, TABLE_FLAGS);
  }

  lemma {:induction false} InitialEntry(s: Space, first: nat, vp: nat)
    requires |s.dir| == ENTRIES && |s.mem| == TOTAL && 1 <= first < FRAMES && |s.mem[first]| == PAGE && vp < VPAGES
    requires (forall d: nat :: HasTable(s, d) <==> d == 0) && TableOf(s, 0) == first
    requires forall k :: 0 <= k < ENTRIES ==> Word(s.mem[first], 4 * k) == k * PAGE + TABLE_FLAGS
    ensures Entry(s, vp) == if vp < ENTRIES then vp * PAGE + TABLE_FLAGS else 0
    ensures Mapped(s, vp) <==> vp < ENTRIES
  {
    Indices(vp);
    if vp < ENTRIES {
      assert Dir(vp) == 0 && Tbl(vp) == vp;
      PteFields(vp, TABLE_FLAGS);
    } else {
      assert Dir(vp) != 0;
    }
  }

  lemma {:induction false} InitialTables(s: Space, first: nat)
    requires |s.dir| == ENTRIES && |s.mem| == TOTAL && 1 <= first < FRAMES && first !in s.free
    requires s.dir[0] == first * PAGE + TABLE_FLAGS && forall d :: 1 <= d < ENTRIES ==> s.dir[d] == 0
    requires forall p :: 0 <= p < TOTAL ==> |s.mem[p]| == PAGE
    requires forall p :: p in s.free ==> 1 <= p < TOTAL
    requires forall k :: 0 <= k < ENTRIES ==> Word(s.mem[first], 4 * k) == k * PAGE + TABLE_FLAGS
    ensures forall d: nat :: HasTable(s, d) <==> d == 0
    ensures Wf(s) && Translate(s) == map vp: nat | vp < ENTRIES :: vp * PAGE + TABLE_FLAGS
  {
    OnlyFirst(s, first);
    hide HasTable, TableOf, Entry, Mapped;
    forall vp: nat | vp < VPAGES
      ensures Entry(s, vp) == if vp < ENTRIES then vp * PAGE + TABLE_FLAGS else 0
      ensures Mapped(s, vp) <==> vp < ENTRIES
    {
      InitialEntry(s, first, vp);
    }
  }
}
