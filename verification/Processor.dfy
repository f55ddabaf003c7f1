/** The processor's own view: the two-level walk of 32-bit paging over the words of the directory and of memory. */
module Processor {
  import opened Bytes
  import opened PhysicalPages
  import opened PageTables
  import opened ElfImage
  import opened ElfRuns

  // ---- the walk, as the processor makes it ----

  function MemByte(mem: seq<seq<byte>>, a: nat): byte {
    if a / 0x1000 < |mem| && a % 0x1000 < |mem[a / 0x1000]| then mem[a / 0x1000][a % 0x1000] else 0
  }

  function MemWord(mem: seq<seq<byte>>, a: nat): nat {
    MemByte(mem, a) as int + 0x100 * (MemByte(mem, a + 1) as int) + 0x1_0000 * (MemByte(mem, a + 2) as int)
    + 0x100_0000 * (MemByte(mem, a + 3) as int)
  }

  datatype Access = Fault | Reach(phys: nat)

  /** An entry lets the kernel through if bit 0 is set, a program if the bits for writing and for users are set too. */
  predicate Lets(entry: nat, user: bool) { if user then entry % 8 == 7 else entry % 2 == 1 }

  function Walk(dir: seq<nat>, mem: seq<seq<byte>>, v: nat, user: bool): Access {
    if v / 0x40_0000 >= |dir| || !Lets(dir[v / 0x40_0000], user) then Fault
    else
      var pte := MemWord(mem, dir[v / 0x40_0000] / 0x1000 * 0x1000 + 4 * (v / 0x1000 % 0x400));
      if !Lets(pte, user) then Fault else Reach(pte / 0x1000 * 0x1000 + v % 0x1000)
  }

  /** What a read at a virtual address gives. */
  function Reads(s: Space, v: nat, user: bool): Option<byte> {
    match Walk(s.dir, s.mem, v, user)
    case Fault => None
    case Reach(a) => if a / 0x1000 < |s.mem| then Some(MemByte(s.mem, a)) else None
  }

  // ---- it is the map ----

  lemma {:induction false} PageAndOffset(p: nat, o: nat)
    requires o < 0x1000
    ensures (p * 0x1000 + o) / 0x1000 == p && (p * 0x1000 + o) % 0x1000 == o
  {
  }

  lemma {:induction false} WordInPage(mem: seq<seq<byte>>, p: nat, o: nat)
    requires p < |mem| && |mem[p]| == 0x1000 && o + 4 <= 0x1000
    ensures MemWord(mem, p * 0x1000 + o) == Word(mem[p], o)
  {
    PageAndOffset(p, o);
    PageAndOffset(p, o + 1);
    PageAndOffset(p, o + 2);
    PageAndOffset(p, o + 3);
  }

  lemma {:induction false} IndicesOf(v: nat)
    requires v < 0x1_0000_0000
    ensures v / 0x40_0000 == Dir(v / PAGE) < 0x400 && v / 0x1000 % 0x400 == Tbl(v / PAGE)
  {
  }

  /** The entry the processor finds for an address is the one the map is made of. */
  lemma {:induction false} WalkIs(s: Space, v: nat, user: bool)
    requires Shape(s) && TablesOk(s) && v < 0x1_0000_0000
    ensures var d := s.dir[v / 0x40_0000];
            Walk(s.dir, s.mem, v, user) ==
            if Lets(d, user) && Lets(Entry(s, v / PAGE), user) then Reach(Frame(Entry(s, v / PAGE)) * PAGE + v % PAGE)
            else Fault
  {
    hide MemWord, Word;
    IndicesOf(v);
    var vp := v / PAGE;
    Indices(vp);
    hide Dir, Tbl;
    if Lets(s.dir[Dir(vp)], user) {
      OddOf(s.dir[Dir(vp)]);
      assert HasTable(s, Dir(vp));
      WordInPage(s.mem, TableOf(s, Dir(vp)), 4 * Tbl(vp));
    }
  }

  lemma {:induction false} OddOf(x: nat)
    ensures x % 8 == 7 ==> x % 2 == 1
  {
  }

  /** Looking up a physical address gives what the processor would reach, and all ones where it would fault. */
  lemma {:induction false} GetPhysIsWalk(s: Space, v: nat)
    requires Wf(s) && v < 0x1_0000_0000
    ensures match Walk(s.dir, s.mem, v, false)
            case Fault => GetPhys(s, v) == 0xFFFF_FFFF && v / PAGE !in Translate(s)
            case Reach(a) => GetPhys(s, v) == a && v / PAGE in Translate(s)
  {
    hide Walk, Frame;
    WalkIs(s, v, false);
    IndicesOf(v);
    if s.dir[v / 0x40_0000] % 2 == 0 { EntryIsNone(s, v / PAGE); }
  }

  lemma {:induction false} EntryIsNone(s: Space, vp: nat)
    requires Shape(s) && vp < VPAGES && Dir(vp) < |s.dir| && s.dir[Dir(vp)] % 2 == 0
    ensures Entry(s, vp) == 0
  {
  }

  lemma {:induction false} ReadsIs(s: Space, v: nat)
    requires Wf(s) && v < 0x1_0000_0000
    ensures Reads(s, v, false) == ReadByte(s, v)
  {
    hide Walk, MemByte;
    WalkIs(s, v, false);
    IndicesOf(v);
    if s.dir[v / 0x40_0000] % 2 == 0 { EntryIsNone(s, v / PAGE); }
    var f := Frame(Entry(s, v / PAGE));
    PageAndOffset(f, v % PAGE);
    if f < |s.mem| { ByteInPage(s.mem, f, v % PAGE); }
  }

  lemma {:induction false} ByteInPage(mem: seq<seq<byte>>, p: nat, o: nat)
    requires p < |mem| && |mem[p]| == 0x1000 && o < 0x1000
    ensures MemByte(mem, p * 0x1000 + o) == mem[p][o]
  {
    PageAndOffset(p, o);
  }

  // ---- what programs may reach ----

  /** Every table and every page lets programs through. */
  ghost predicate Open(s: Space) {
    && (forall d: nat :: HasTable(s, d) ==> s.dir[d] % 8 == 7)
    && (forall q: nat :: q < VPAGES && Mapped(s, q) ==> Entry(s, q) % 8 == 7)
  }

  /** A program then reads whatever is mapped, as the kernel does. */
  lemma {:induction false} UserReads(s: Space, v: nat)
    requires Wf(s) && Open(s) && v < 0x1_0000_0000
    ensures Reads(s, v, true) == Reads(s, v, false) == ReadByte(s, v)
  {
    hide Walk, Entry, MemByte;
    WalkIs(s, v, true);
    WalkIs(s, v, false);
    IndicesOf(v);
    ReadsIs(s, v);
    OddOf(s.dir[v / 0x40_0000]);
    OddOf(Entry(s, v / PAGE));
    assert HasTable(s, Dir(v / PAGE)) <==> s.dir[v / 0x40_0000] % 2 == 1;
  }

  lemma {:induction false} SevenAbove(p: nat)
    ensures (p * PAGE + 7) % 8 == 7
  {
    assert p * PAGE == 8 * (p * 512);
  }

  /** Making a table on demand leaves programs through. */
  lemma {:induction false} TableStaysOpen(s: Space, d: nat)
    requires Wf(s) && Open(s) && d < ENTRIES
    ensures Open(WithTable(s, d))
  {
    hide Entry, Present, Frame;
    TableRefines(s, d);
    if Fresh(s, d) { SevenAbove(Lowest(s.free)); }
    var s' := WithTable(s, d);
    forall q: nat | q < VPAGES && Mapped(s', q) ensures Entry(s', q) % 8 == 7 {
      assert q in Translate(s') && Translate(s')[q] == Entry(s', q) && q in Translate(s);
    }
  }

  /** So does mapping a page for a program. */
  lemma {:induction false} MapStaysOpen(s: Space, vp: nat, t: nat)
    requires Wf(s) && Open(s) && ENTRIES <= vp < VPAGES && t < TOTAL && Plain(s, t)
    ensures vp * PAGE < WORD && t * PAGE < WORD
    ensures Open(MapPage(s, vp * PAGE, t * PAGE, USER_FLAGS).0)
  {
    PageAddress(vp);
    PageAddress(t);
    MapOne(s, vp, t);
    var r := MapPage(s, vp * PAGE, t * PAGE, USER_FLAGS);
    Indices(vp);
    TableStaysOpen(s, Dir(vp));
    TableRefines(s, Dir(vp));
    var s1 := WithTable(s, Dir(vp));
    if r.1 == Done {
      assert r.0 == Store(s1, vp, Pte(t * PAGE, USER_FLAGS));
      UserPte(t);
      SevenAbove(t);
      StoreStaysOpen(s1, vp, t * PAGE + 7);
    }
  }

  lemma {:induction false} StoreStaysOpen(s: Space, vp: nat, e: nat)
    requires Wf(s) && Open(s) && vp < VPAGES && Readable(s, vp) && e < WORD && (e % 2 == 1 ==> e % 8 == 7)
    ensures Open(Store(s, vp, e))
  {
    hide Entry, Frame;
    var s' := Store(s, vp, e);
    forall q: nat | q < VPAGES ensures Entry(s', q) == if q == vp then e else Entry(s, q) { StoreEntry(s, vp, e, q); }
  }

  lemma {:induction false} UnmapStaysOpen(s: Space, vp: nat)
    requires Wf(s) && Open(s) && vp < VPAGES && vp * PAGE < WORD
    ensures Open(Unmap(s, vp * PAGE))
  {
    hide Entry, Frame;
    assert vp * PAGE / PAGE == vp;
    if Readable(s, vp) { StoreStaysOpen(s, vp, 0); }
  }
}
