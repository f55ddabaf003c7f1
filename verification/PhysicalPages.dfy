/**
 * The physical page allocator: one bit for each 4 KB page, a count of the clear bits, and the firmware's memory map.
 */
module PhysicalPages {
  const PAGE: nat := 4096
  const TOTAL: nat := 0x10_0000
  const WORDS: nat := 0x8000
  const USABLE: nat := 1
  const LOW_MEMORY: nat := 0x10_0000
  const WORD: nat := 0x1_0000_0000
  const LONG: nat := 0x1_0000_0000_0000_0000

  // ---- bits of a word ----

  type u32 = w: int | 0 <= w < 0x1_0000_0000

  function Pow2(n: nat): (r: nat)
    ensures r >= 1
  {
    if n == 0 then 1 else 2 * Pow2(n - 1)
  }

  predicate BitIsSet(w: nat, b: nat) {
    if b == 0 then w % 2 == 1 else BitIsSet(w / 2, b - 1)
  }

  /** w with bit b set, whether or not it was. */
  function SetBit(w: nat, b: nat): nat {
    if b == 0 then w / 2 * 2 + 1 else 2 * SetBit(w / 2, b - 1) + w % 2
  }

  /** w with bit b clear, whether or not it was. */
  function ClearBit(w: nat, b: nat): (r: nat)
    ensures r <= w
  {
    if b == 0 then w / 2 * 2 else 2 * ClearBit(w / 2, b - 1) + w % 2
  }

  lemma {:induction false} SetBitOps(w: nat, b: nat, c: nat)
    ensures BitIsSet(SetBit(w, b), c) <==> c == b || BitIsSet(w, c)
    decreases b
  {
    if b > 0 && c > 0 {
      var x := SetBit(w / 2, b - 1);
      assert (2 * x + w % 2) / 2 == x;
      SetBitOps(w / 2, b - 1, c - 1);
    }
  }

  lemma {:induction false} ClearBitOps(w: nat, b: nat, c: nat)
    ensures BitIsSet(ClearBit(w, b), c) <==> c != b && BitIsSet(w, c)
    decreases b
  {
    if b > 0 && c > 0 {
      var x := ClearBit(w / 2, b - 1);
      assert (2 * x + w % 2) / 2 == x;
      ClearBitOps(w / 2, b - 1, c - 1);
    }
  }

  lemma {:induction false} SetBitFits(w: nat, b: nat, n: nat)
    requires w < Pow2(n) && b < n
    ensures SetBit(w, b) < Pow2(n)
    decreases b
  {
    hide SetBit;
    var p := Pow2(n - 1);
    Halved(w, p);
    SetBitUnfold(w, b);
    if b > 0 {
      SetBitFits(w / 2, b - 1, n - 1);
      Doubled(SetBit(w / 2, b - 1), w % 2, p);
    } else {
      Doubled(w / 2, 1, p);
    }
  }

  lemma {:induction false} SetBitUnfold(w: nat, b: nat)
    ensures SetBit(w, b) == if b == 0 then 2 * (w / 2) + 1 else 2 * SetBit(w / 2, b - 1) + w % 2
  {
  }

  lemma {:induction false} Halved(w: nat, p: nat)
    requires w < 2 * p
    ensures w / 2 < p && w % 2 < 2
  {
  }

  lemma {:induction false} Doubled(x: nat, r: nat, p: nat)
    requires x < p && r < 2
    ensures 2 * x + r < 2 * p
  {
  }

  lemma {:induction false} OnesAreSet(n: nat, b: nat)
    requires b < n
    ensures BitIsSet(Pow2(n) - 1, b)
    decreases b
  {
    if b > 0 {
      OnesAreSet(n - 1, b - 1);
      assert (Pow2(n) - 1) / 2 == Pow2(n - 1) - 1;
    }
  }

  lemma {:induction false} WordSize()
    ensures Pow2(32) == 0x1_0000_0000
  {
    assert Pow2(4) == 0x10 && Pow2(6) == 0x40 && Pow2(8) == 0x100 && Pow2(10) == 0x400 && Pow2(12) == 0x1000;
    assert Pow2(14) == 0x4000 && Pow2(16) == 0x1_0000 && Pow2(18) == 0x4_0000 && Pow2(20) == 0x10_0000
           && Pow2(22) == 0x40_0000;
    assert Pow2(24) == 0x100_0000 && Pow2(26) == 0x400_0000 && Pow2(28) == 0x1000_0000 && Pow2(30) == 0x4000_0000;
  }

  lemma {:induction false} FullBits(w: nat, b: nat)
    requires b < 32 && w == 0xFFFF_FFFF
    ensures BitIsSet(w, b)
  {
    WordSize();
    OnesAreSet(32, b);
  }

  // ---- the bitmap as a set of free pages ----

  predicate IsFree(words: seq<u32>, p: nat)
    requires p < 32 * |words|
  {
    !BitIsSet(words[p / 32], p % 32)
  }

  /** The pages whose bit is clear. */
  ghost function FreeSet(words: seq<u32>): set<nat> {
    set p: nat | p < 32 * |words| && IsFree(words, p)
  }

  function WithUsed(words: seq<u32>, p: nat): seq<u32>
    requires p < 32 * |words|
  {
    WordSize();
    SetBitFits(words[p / 32], p % 32, 32);
    words[p / 32 := SetBit(words[p / 32], p % 32)]
  }

  function WithFree(words: seq<u32>, p: nat): seq<u32>
    requires p < 32 * |words|
  {
    words[p / 32 := ClearBit(words[p / 32], p % 32)]
  }

  lemma {:induction false} BitUpdate(words: seq<u32>, p: nat, q: nat)
    requires p < 32 * |words| && q < 32 * |words|
    ensures IsFree(WithUsed(words, p), q) <==> q != p && IsFree(words, q)
    ensures IsFree(WithFree(words, p), q) <==> q == p || IsFree(words, q)
  {
    hide BitIsSet, SetBit, ClearBit;
    SetBitOps(words[p / 32], p % 32, q % 32);
    ClearBitOps(words[p / 32], p % 32, q % 32);
  }

  /** Setting a bit takes exactly that page out of the free set, clearing it puts exactly that page in. */
  lemma {:induction false} BitIsMembership(words: seq<u32>, p: nat)
    requires p < 32 * |words|
    ensures FreeSet(WithUsed(words, p)) == FreeSet(words) - {p}
    ensures FreeSet(WithFree(words, p)) == FreeSet(words) + {p}
  {
    hide IsFree, WithUsed, WithFree;
    assert |WithUsed(words, p)| == |words| && |WithFree(words, p)| == |words| by { Lengths(words, p); }
    forall q: nat | q < 32 * |words|
      ensures IsFree(WithUsed(words, p), q) <==> q != p && IsFree(words, q)
      ensures IsFree(WithFree(words, p), q) <==> q == p || IsFree(words, q)
    {
      BitUpdate(words, p, q);
    }
  }

  lemma {:induction false} Lengths(words: seq<u32>, p: nat)
    requires p < 32 * |words|
    ensures |WithUsed(words, p)| == |words| && |WithFree(words, p)| == |words|
  {
  }

  // ---- allocation ----

  ghost predicate IsLowest(p: nat, free: set<nat>) {
    p in free && forall q :: q in free ==> p <= q
  }

  lemma {:induction false} LowestExists(free: set<nat>)
    requires free != {}
    ensures exists p :: IsLowest(p, free)
    decreases free
  {
    var q :| q in free;
    if !IsLowest(q, free) {
      var rest := free - {q};
      var r :| r in free && r < q;
      assert r in rest;
      LowestExists(rest);
      var p :| IsLowest(p, rest);
      assert p <= r;
      forall x | x in free ensures p <= x { assert x in rest || x == q; }
      assert IsLowest(p, free);
    }
  }

  /** The lowest free page: what a scan from page 0 up would find. */
  ghost function Lowest(free: set<nat>): (p: nat)
    requires free != {}
    ensures IsLowest(p, free)
  {
    LowestExists(free);
    var p :| IsLowest(p, free);
    p
  }

  lemma {:induction false} LowestIs(p: nat, free: set<nat>)
    requires IsLowest(p, free)
    ensures free != {} && p == Lowest(free)
  {
  }

  /** The address an allocation gives, and the pages it leaves. */
  ghost function Taken(free: set<nat>): (nat, set<nat>) {
    if free == {} then (0, free) else (Lowest(free) * PAGE, free - {Lowest(free)})
  }

  ghost function Given(free: set<nat>, addr: nat): set<nat> {
    if addr / PAGE < TOTAL then free + {addr / PAGE} else free
  }

  /** Freeing what was just allocated restores the free pages. */
  lemma {:induction false} GivenUndoesTaken(free: set<nat>)
    requires free != {} && forall p :: p in free ==> p < TOTAL
    ensures Given(Taken(free).1, Taken(free).0) == free
  {
    var p := Lowest(free);
    assert p * PAGE / PAGE == p;
  }

  /** A null answer means that memory has run out exactly as long as page 0 is not free. */
  lemma {:induction false} NullMeansNone(free: set<nat>)
    ensures (Taken(free).0 == 0 <==> free == {}) <==> 0 !in free
  {
    if free != {} {
      assert 0 in free ==> Lowest(free) == 0;
      assert Lowest(free) in free;
    }
  }

  /** With only page 0 free, an allocation takes it and answers null. */
  lemma {:induction false} PageZeroIsLost()
    ensures Taken({0}) == (0, {})
  {
    assert Lowest({0}) in {0};
    assert {0} - {0} == {};
  }

  // ---- the memory map ----

  /** One entry of the firmware's map: 64-bit base and length, 32-bit type. */
  datatype Region = Region(base: nat, length: nat, kind: nat)

  // The page numbers are computed in 64 bits and then cut to 32.
  function First(e: Region): nat { e.base / PAGE % WORD }

  function LastDown(e: Region): nat { (e.base + e.length) % LONG / PAGE % WORD }

  function LastUp(e: Region): nat { (e.base + e.length + PAGE - 1) % LONG / PAGE % WORD }

  function Clipped(n: nat): nat { if n > TOTAL then TOTAL else n }

  predicate Within(lo: nat, hi: nat, p: nat) {
    lo <= p < Clipped(hi)
  }

  /** The pages from lo up to hi, as far as there are any. */
  ghost function Span(lo: nat, hi: nat): set<nat> {
    set p: nat | p < TOTAL && Within(lo, hi, p)
  }

  lemma {:induction false} SpanEmpty(lo: nat, hi: nat)
    requires lo >= Clipped(hi)
    ensures Span(lo, hi) == {}
  {
  }

  lemma {:induction false} SpanNext(lo: nat, p: nat)
    requires lo <= p < TOTAL
    ensures Span(lo, p + 1) == Span(lo, p) + {p}
  {
    forall q: nat | q < TOTAL ensures Within(lo, p + 1, q) <==> Within(lo, p, q) || q == p { }
  }

  lemma {:induction false} SpanClipped(lo: nat, hi: nat)
    ensures Span(lo, Clipped(hi)) == Span(lo, hi)
  {
    forall q: nat | q < TOTAL ensures Within(lo, Clipped(hi), q) <==> Within(lo, hi, q) { }
  }

  predicate Frees(e: Region, p: nat) {
    e.kind == USABLE && Within(First(e), LastDown(e), p)
  }

  ghost predicate FreedBySome(map_: seq<Region>, p: nat) {
    exists i :: 0 <= i < |map_| && Frees(map_[i], p)
  }

  /** The pages some usable region frees. */
  ghost function UsablePages(map_: seq<Region>): set<nat> {
    set p: nat | p < TOTAL && FreedBySome(map_, p)
  }

  /** The pages free after start-up: the usable ones, without the first megabyte. */
  ghost function InitialPages(map_: seq<Region>): set<nat> {
    UsablePages(map_) - Span(0, LOW_MEMORY / PAGE)
  }

  /** What is free after start-up: the pages above 1 MB of regions of type 1, as far as their sums fit in 44 bits. */
  lemma {:induction false} InitialPagesIff(map_: seq<Region>, p: nat)
    requires forall e :: e in map_ ==> e.base + e.length < 0x1000_0000_0000
    ensures p in InitialPages(map_) <==>
              && 0x100 <= p < 0x10_0000
              && exists e :: e in map_ && e.kind == 1 && e.base / 0x1000 <= p < (e.base + e.length) / 0x1000
  {
    forall e | e in map_
      ensures First(e) == e.base / 0x1000 && LastDown(e) == (e.base + e.length) / 0x1000
    {
      FitsIn(e);
    }
    if p in InitialPages(map_) {
      var i :| 0 <= i < |map_| && Frees(map_[i], p);
      assert map_[i] in map_;
    }
    if e :| e in map_ && e.kind == 1 && e.base / 0x1000 <= p < (e.base + e.length) / 0x1000 {
      var i :| 0 <= i < |map_| && map_[i] == e;
      assert p < TOTAL ==> Frees(map_[i], p);
    }
  }

  lemma {:induction false} FitsIn(e: Region)
    requires e.base + e.length < 0x1000_0000_0000
    ensures First(e) == e.base / 0x1000 && LastDown(e) == (e.base + e.length) / 0x1000
  {
  }

  /** Neither the order nor the repetition of the entries matters. */
  lemma {:induction false} OrderDoesNotMatter(a: seq<Region>, b: seq<Region>)
    requires forall e :: e in a <==> e in b
    ensures UsablePages(a) == UsablePages(b) && InitialPages(a) == InitialPages(b)
  {
    forall p: nat | p < TOTAL ensures p in UsablePages(a) <==> p in UsablePages(b) {
      if p in UsablePages(a) {
        var i :| 0 <= i < |a| && Frees(a[i], p);
        assert a[i] in b;
      }
      if p in UsablePages(b) {
        var i :| 0 <= i < |b| && Frees(b[i], p);
        assert b[i] in a;
      }
    }
  }

  lemma {:induction false} NextRegion(map_: seq<Region>, n: nat)
    requires n < |map_|
    ensures UsablePages(map_[..n + 1]) ==
            if map_[n].kind == USABLE then UsablePages(map_[..n]) + Span(First(map_[n]), LastDown(map_[n]))
            else UsablePages(map_[..n])
  {
    hide First, LastDown;
    forall p: nat | p < TOTAL
      ensures FreedBySome(map_[..n + 1], p) <==> FreedBySome(map_[..n], p) || Frees(map_[n], p)
    {
      if FreedBySome(map_[..n + 1], p) {
        var i :| 0 <= i < n + 1 && Frees(map_[..n + 1][i], p);
        if i < n { assert map_[..n][i] == map_[i]; }
      }
      if FreedBySome(map_[..n], p) {
        var i :| 0 <= i < n && Frees(map_[..n][i], p);
        assert map_[..n + 1][i] == map_[i];
      }
      if Frees(map_[n], p) { assert map_[..n + 1][n] == map_[n]; }
    }
  }

  /** A byte belongs to the region. */
  predicate Contains(e: Region, a: nat) {
    e.base <= a < e.base + e.length
  }

  ghost predicate Inside(e: Region, p: nat) {
    forall a: nat :: p * PAGE <= a < (p + 1) * PAGE ==> Contains(e, a)
  }

  predicate Small(e: Region) {
    e.base + e.length + PAGE < 0x1000_0000_0000
  }

  /** Every page that lies wholly in a usable region is freed. */
  lemma {:induction false} WholePagesAreFreed(e: Region, p: nat)
    requires Small(e) && e.kind == USABLE && p < TOTAL && Inside(e, p)
    ensures Frees(e, p)
  {
    assert Contains(e, p * PAGE) && Contains(e, (p + 1) * PAGE - 1);
    NoTruncation(e);
  }

  lemma {:induction false} NoTruncation(e: Region)
    requires Small(e)
    ensures First(e) == e.base / PAGE && LastDown(e) == (e.base + e.length) / PAGE
    ensures LastUp(e) == (e.base + e.length + PAGE - 1) / PAGE
  {
  }

  /**
   * The start of a region is rounded down, so only whole pages of the region are freed exactly if the region starts
   * on a page boundary or frees nothing.
   */
  lemma {:induction false} FreedPagesAreWhole(e: Region)
    requires Small(e) && e.kind == USABLE
    ensures (forall p: nat :: Frees(e, p) ==> Inside(e, p)) <==> e.base % PAGE == 0 || First(e) >= Clipped(LastDown(e))
  {
    NoTruncation(e);
    var f := First(e);
    if e.base % PAGE == 0 {
      forall p: nat, a: nat | Frees(e, p) && p * PAGE <= a < (p + 1) * PAGE ensures Contains(e, a) { }
    } else if f < Clipped(LastDown(e)) {
      assert Frees(e, f) && !Contains(e, f * PAGE);
    }
  }

  /** A usable region that starts in the middle of the first page above 1 MB leaves the whole of that page free. */
  lemma {:induction false} PartialPageFreed()
    ensures var e := Region(0x10_0800, 0x2000, USABLE); 0x100 in InitialPages([e]) && !Inside(e, 0x100)
  {
    var e := Region(0x10_0800, 0x2000, USABLE);
    assert !Contains(e, 0x100 * PAGE);
    assert Frees([e][0], 0x100);
  }

  /** Reserving rounds outwards: every page that shares a byte with the region, and no other, is taken. */
  lemma {:induction false} ReservedPagesTouch(e: Region, p: nat)
    requires Small(e) && e.length > 0 && p < TOTAL
    ensures p in Span(First(e), LastUp(e)) <==> exists a: nat :: p * PAGE <= a < (p + 1) * PAGE && Contains(e, a)
  {
    NoTruncation(e);
    var end := e.base + e.length;
    assert (end + PAGE - 1) / PAGE * PAGE <= end + PAGE - 1 < ((end + PAGE - 1) / PAGE + 1) * PAGE;
    if Within(First(e), LastUp(e), p) {
      var a := if e.base > p * PAGE then e.base else p * PAGE;
      assert Contains(e, a);
    }
  }

  // ---- the allocator ----

  class PageAllocator {
    const bitmap: array<u32>
    var freeCount: nat
    var totalCount: nat

    ghost function Free(): set<nat>
      reads bitmap
    {
      FreeSet(bitmap[..])
    }

    /** The count is the number of clear bits. */
    ghost predicate Valid()
      reads this, bitmap
    {
      bitmap.Length == WORDS && freeCount == |Free()|
    }

    constructor ()
      ensures Valid() && Free() == {} && freeCount == 0 && totalCount == 0 && fresh(bitmap)
    {
      bitmap := new u32[WORDS](_ => 0xFFFF_FFFF);
      freeCount, totalCount := 0, 0;
      new;
      AllUsed(bitmap[..]);
    }

    method PageIsFree(p: nat) returns (r: bool)
      requires Valid() && p < TOTAL
      ensures r <==> p in Free()
    {
      hide BitIsSet;
      r := !BitIsSet(bitmap[p / 32], p % 32);
      assert r <==> IsFree(bitmap[..], p);
    }

    method PageSetUsed(p: nat)
      requires Valid() && p in Free()
      modifies bitmap, this`freeCount
      ensures Valid() && Free() == old(Free()) - {p} && freeCount == old(freeCount) - 1
    {
      hide IsFree, SetBit, ClearBit, FreeSet;
      FreeBelow(bitmap[..]);
      BitIsMembership(bitmap[..], p);
      ghost var words := bitmap[..];
      WordSize();
      SetBitFits(bitmap[p / 32], p % 32, 32);
      bitmap[p / 32] := SetBit(bitmap[p / 32], p % 32);
      assert bitmap[..] == WithUsed(words, p);
      freeCount := freeCount - 1;
    }

    method PageSetFree(p: nat)
      requires Valid() && p < TOTAL && p !in Free()
      modifies bitmap, this`freeCount
      ensures Valid() && Free() == old(Free()) + {p} && freeCount == old(freeCount) + 1
    {
      hide IsFree, SetBit, ClearBit, FreeSet;
      FreeBelow(bitmap[..]);
      BitIsMembership(bitmap[..], p);
      ghost var words := bitmap[..];
      bitmap[p / 32] := ClearBit(bitmap[p / 32], p % 32);
      assert bitmap[..] == WithFree(words, p);
      freeCount := freeCount + 1;
    }

    method RegionFree(e: Region)
      requires Valid()
      modifies bitmap, this
      ensures Valid() && Free() == old(Free()) + Span(First(e), LastDown(e))
      ensures totalCount - old(totalCount) == freeCount - old(freeCount)
    {
      hide First, LastDown, FreeSet, Span;
      ghost var start := Free();
      var first := First(e);
      var last := Clipped(LastDown(e));
      var p := first;
      SpanEmpty(first, first);
      while p < last
        invariant Valid() && first <= p && (p == first || p <= last)
        invariant Free() == start + Span(first, p)
        invariant totalCount - old(totalCount) == freeCount - old(freeCount)
      {
        SpanNext(first, p);
        var free := PageIsFree(p);
        if !free {
          PageSetFree(p);
          totalCount := totalCount + 1;
        }
        p := p + 1;
      }
      SpanClipped(first, LastDown(e));
      if first >= last { SpanEmpty(first, LastDown(e)); }
    }

    method RegionReserve(e: Region)
      requires Valid()
      modifies bitmap, this`freeCount
      ensures Valid() && Free() == old(Free()) - Span(First(e), LastUp(e))
    {
      hide First, LastUp, FreeSet, Span;
      var first := First(e);
      var last := Clipped(LastUp(e));
      var p := first;
      SpanEmpty(first, first);
      while p < last
        invariant Valid() && first <= p && (p == first || p <= last)
        invariant Free() == old(Free()) - Span(first, p)
      {
        SpanNext(first, p);
        var free := PageIsFree(p);
        if free { PageSetUsed(p); }
        p := p + 1;
      }
      SpanClipped(first, LastUp(e));
      if first >= last { SpanEmpty(first, LastUp(e)); }
    }

    /** Start-up from the firmware's map. */
    method Init(map_: seq<Region>)
      requires bitmap.Length == WORDS
      modifies bitmap, this
      ensures Valid() && Free() == InitialPages(map_) && totalCount == |UsablePages(map_)|
    {
      freeCount, totalCount := 0, 0;
      for i := 0 to WORDS
        invariant freeCount == totalCount == 0 && forall k :: 0 <= k < i ==> bitmap[k] == 0xFFFF_FFFF
      {
        bitmap[i] := 0xFFFF_FFFF;
      }
      AllUsed(bitmap[..]);
      NoRegions(map_);
      assert Valid() && Free() == UsablePages(map_[..0]) && totalCount == |Free()|;
      hide FreeSet, First, LastDown, LastUp, UsablePages;
      for i := 0 to |map_|
        invariant Valid() && Free() == UsablePages(map_[..i]) && totalCount == freeCount
      {
        NextRegion(map_, i);
        if map_[i].kind == USABLE { RegionFree(map_[i]); }
      }
      assert map_[..|map_|] == map_;
      LowMegabyte();
      RegionReserve(Region(0, LOW_MEMORY, USABLE));
    }

    /** Skip full words, then take the first clear bit: the page a naive scan finds. */
    method Alloc() returns (addr: nat)
      requires Valid()
      modifies bitmap, this`freeCount
      ensures Valid() && (addr, Free()) == Taken(old(Free()))
    {
      hide IsFree;
      var w := 0;
      while w < WORDS
        invariant w <= WORDS && Valid() && Free() == old(Free())
        invariant forall p :: p in Free() ==> 32 * w <= p
      {
        if bitmap[w] == 0xFFFF_FFFF {
          FullWord(bitmap[..], w);
          w := w + 1;
          continue;
        }
        var b := 0;
        while b < 32
          invariant b <= 32 && Valid() && Free() == old(Free())
          invariant forall p :: p in Free() ==> 32 * w + b <= p
        {
          var p := w * 32 + b;
          var free := PageIsFree(p);
          if free {
            LowestIs(p, Free());
            PageSetUsed(p);
            return p * PAGE;
          }
          b := b + 1;
        }
        w := w + 1;
      }
      NoneLeft(bitmap[..]);
      return 0;
    }

    method Release(addr: nat)
      requires Valid() && addr < WORD
      modifies bitmap, this`freeCount
      ensures Valid() && Free() == Given(old(Free()), addr)
    {
      var p := addr / PAGE;
      if p >= TOTAL { return; }
      var free := PageIsFree(p);
      if free { return; }
      PageSetFree(p);
    }
  }

  lemma {:induction false} FreeBelow(words: seq<u32>)
    ensures forall p :: p in FreeSet(words) ==> 0 <= p < 32 * |words|
  {
  }

  lemma {:induction false} AllUsed(words: seq<u32>)
    requires forall k :: 0 <= k < |words| ==> words[k] == 0xFFFF_FFFF
    ensures FreeSet(words) == {}
  {
    hide BitIsSet;
    forall p: nat | p < 32 * |words| ensures !IsFree(words, p) { FullBits(words[p / 32], p % 32); }
  }

  lemma {:induction false} FullWord(words: seq<u32>, w: nat)
    requires w < |words| && words[w] == 0xFFFF_FFFF && forall p :: p in FreeSet(words) ==> 32 * w <= p
    ensures forall p :: p in FreeSet(words) ==> 32 * (w + 1) <= p
  {
    hide BitIsSet;
    forall p | p in FreeSet(words) ensures 32 * (w + 1) <= p {
      if p < 32 * (w + 1) { FullBits(words[w], p % 32); }
    }
  }

  lemma {:induction false} NoneLeft(words: seq<u32>)
    requires |words| == WORDS && forall p :: p in FreeSet(words) ==> 32 * WORDS <= p
    ensures FreeSet(words) == {}
  {
    assert forall p :: p in FreeSet(words) ==> p < 32 * |words|;
  }

  lemma {:induction false} NoRegions(map_: seq<Region>)
    ensures UsablePages(map_[..0]) == {}
  {
  }

  lemma {:induction false} LowMegabyte()
    ensures First(Region(0, LOW_MEMORY, USABLE)) == 0 && LastUp(Region(0, LOW_MEMORY, USABLE)) == LOW_MEMORY / PAGE
  {
  }
}
