/** The heap as it lies in memory: block headers inside the slab, linked both ways by addresses. */
module KernelHeap {
  import opened HeapBlocks
  import opened HeapTheorems

  const MAGIC: nat := 0xC0FF_EE42
  const WORDS: nat := ARENA / 4

  /** The blocks tile the slab, in words. */
  ghost predicate Tiled(bs: seq<Block>) {
    |bs| > 0 && Off(bs, |bs|) == ARENA && forall i :: 0 <= i < |bs| ==> bs[i].size % 4 == 0
  }

  predicate Placed(mem: seq<nat>, base: nat) { |mem| == WORDS && base > 0 && base % 8 == 0 && base + ARENA <= WORD }

  /** The word of the slab where the header of block i starts. */
  function At(bs: seq<Block>, i: nat): nat
    requires i < |bs|
  {
    Off(bs, i) / 4
  }

  /** The address of block i, or 0 (the null pointer) when there is none. */
  function Addr(base: nat, bs: seq<Block>, i: int): nat {
    if 0 <= i < |bs| then base + 4 * At(bs, i) else 0
  }

  /** The five words of a header: magic, size, used, and the addresses of the neighbours. */
  predicate HeaderIs(mem: seq<nat>, w: nat, size: nat, used: bool, prev: nat, next: nat) {
    && w + 5 <= |mem|
    && mem[w] == MAGIC && mem[w + 1] == size && mem[w + 2] == (if used then 1 else 0)
    && mem[w + 3] == prev && mem[w + 4] == next
  }

  /** The header of block i says what the block list says, and links to its neighbours. */
  ghost predicate HeaderOk(mem: seq<nat>, base: nat, bs: seq<Block>, i: nat)
    requires i < |bs|
  {
    HeaderIs(mem, At(bs, i), bs[i].size, bs[i].used, Addr(base, bs, i - 1), Addr(base, bs, i + 1))
  }

  /** The memory holds exactly the block list. */
  ghost predicate Holds(mem: seq<nat>, base: nat, bs: seq<Block>) {
    Placed(mem, base) && Tiled(bs) && forall i :: 0 <= i < |bs| ==> HeaderOk(mem, base, bs, i)
  }

  lemma {:induction false} AtBounds(bs: seq<Block>, i: nat)
    requires Tiled(bs) && i < |bs|
    ensures Off(bs, i) == 4 * At(bs, i) && 4 * At(bs, i) + HEADER + bs[i].size <= ARENA && At(bs, i) + 5 <= WORDS
    ensures i + 1 < |bs| ==> 4 * At(bs, i + 1) == 4 * At(bs, i) + HEADER + bs[i].size
  {
    OffAligned(bs, i);
    OffMonotonic(bs, i, |bs|);
  }

  /** Headers of different blocks share no word. */
  lemma {:induction false} AtApart(bs: seq<Block>, i: nat, j: nat)
    requires Tiled(bs) && i < j < |bs|
    ensures At(bs, i) + 5 <= At(bs, j) && 4 * At(bs, i) + HEADER + bs[i].size <= 4 * At(bs, j)
  {
    AtBounds(bs, i);
    AtBounds(bs, j);
    OffMonotonic(bs, i, j);
  }

  lemma {:induction false} GetHeader(mem: seq<nat>, base: nat, bs: seq<Block>, i: nat)
    requires Holds(mem, base, bs) && i < |bs|
    ensures HeaderOk(mem, base, bs, i) && |mem| == WORDS && Tiled(bs) && base > 0
  {
    hide At, Tiled, HeaderOk;
  }

  // ---- marking ----

  lemma {:induction false} MarkHolds(mem: seq<nat>, base: nat, bs: seq<Block>, i: nat, used: bool)
    requires Holds(mem, base, bs) && i < |bs| && At(bs, i) + 5 <= |mem|
    ensures Holds(mem[At(bs, i) + 2 := if used then 1 else 0], base, bs[i := Block(bs[i].size, used)])
  {
    var cs, mem' := bs[i := Block(bs[i].size, used)], mem[At(bs, i) + 2 := if used then 1 else 0];
    forall k | 0 <= k <= |bs| ensures Off(cs, k) == Off(bs, k) { OffMark(bs, i, used, k); }
    hide Off;
    forall k | 0 <= k < |cs| ensures HeaderOk(mem', base, cs, k) {
      assert HeaderOk(mem, base, bs, k);
      if k < i { AtApart(bs, k, i); }
      if i < k { AtApart(bs, i, k); }
    }
  }

  // ---- swallowing the next block ----

  function Absorbed(bs: seq<Block>, i: nat): seq<Block>
    requires i + 1 < |bs|
  {
    Splice(bs, i, 2, [Block(bs[i].size + HEADER + bs[i + 1].size, bs[i].used)])
  }

  function Kth(i: nat, k: nat): nat { if k <= i then k else k + 1 }

  lemma {:induction false} AbsorbedAt(bs: seq<Block>, i: nat, k: nat)
    requires i + 1 < |bs| && k < |bs| - 1
    ensures var cs := Absorbed(bs, i);
            && |cs| == |bs| - 1 && At(cs, k) == At(bs, Kth(i, k))
            && cs[k] == if k == i then Block(bs[i].size + HEADER + bs[i + 1].size, bs[i].used) else bs[Kth(i, k)]
  {
    AbsorbedOff(bs, i, k);
  }

  lemma {:induction false} AbsorbedOff(bs: seq<Block>, i: nat, k: nat)
    requires i + 1 < |bs| && k < |bs|
    ensures Off(Absorbed(bs, i), k) == Off(bs, Kth(i, k))
  {
    var mid := [Block(bs[i].size + HEADER + bs[i + 1].size, bs[i].used)];
    assert Off(mid, 1) == Off(mid, 0) + HEADER + mid[0].size;
    assert Off(bs, i + 2) == Off(bs, i + 1) + HEADER + bs[i + 1].size;
    SpliceOff(bs, i, 2, mid);
    if k > i { assert Off(Absorbed(bs, i), (k + 1) - 2 + 1) == Off(bs, k + 1); }
  }

  lemma {:induction false} SumAligned(m: nat, n: nat)
    requires m % 4 == 0 && n % 4 == 0
    ensures (m + HEADER + n) % 4 == 0
  {
  }

  lemma {:induction false} AbsorbedTiled(bs: seq<Block>, i: nat)
    requires Tiled(bs) && i + 1 < |bs|
    ensures Tiled(Absorbed(bs, i))
  {
    hide Absorbed, Off, At;
    AbsorbedOff(bs, i, |bs| - 1);
    AbsorbedAt(bs, i, 0);
    var cs := Absorbed(bs, i);
    forall k | 0 <= k < |cs| ensures cs[k].size % 4 == 0 {
      AbsorbedAt(bs, i, k);
      SumAligned(bs[i].size, bs[i + 1].size);
    }
  }

  /**
   * Block at word a swallows the one at word b: size and next rewritten, the block after (at word c, if any) linked
   * back, the swallowed header voided.
   */
  function MergeMem(mem: seq<nat>, base: nat, a: nat, b: nat, next: nat): seq<nat>
    requires a + 5 <= |mem| && b + 5 <= |mem| && (next != 0 ==> base <= next && (next - base) / 4 + 5 <= |mem|)
  {
    var mem1 := mem[a + 1 := mem[a + 1] + HEADER + mem[b + 1]][a + 4 := next];
    var mem2 := if next != 0 then mem1[(next - base) / 4 + 3 := base + 4 * a] else mem1;
    mem2[b := 0]
  }

  lemma {:induction false} MergedHeader(mem: seq<nat>, base: nat, bs: seq<Block>, i: nat, k: nat)
    requires Holds(mem, base, bs) && i + 1 < |bs| && k < |bs| - 1 && |Absorbed(bs, i)| == |bs| - 1
    requires At(bs, i) + 5 <= |mem| && At(bs, i + 1) + 5 <= |mem|
    requires var next := Addr(base, bs, i + 2); next != 0 ==> base <= next && (next - base) / 4 + 5 <= |mem|
    ensures HeaderOk(MergeMem(mem, base, At(bs, i), At(bs, i + 1), Addr(base, bs, i + 2)), base, Absorbed(bs, i), k)
  {
    hide Holds, Absorbed, At, Tiled, Placed;
    AbsorbedAt(bs, i, k);
    if k > 0 { AbsorbedAt(bs, i, k - 1); }
    if k + 1 < |bs| - 1 { AbsorbedAt(bs, i, k + 1); }
    var j := Kth(i, k);
    GetHeader(mem, base, bs, j);
    GetHeader(mem, base, bs, i + 1);
    AtApart(bs, i, i + 1);
    if i + 2 < |bs| { AtApart(bs, i + 1, i + 2); }
    if j < i { AtApart(bs, j, i); }
    if i + 2 < j { AtApart(bs, i + 2, j); }
  }

  lemma {:induction false} MergeHolds(mem: seq<nat>, base: nat, bs: seq<Block>, i: nat)
    requires Holds(mem, base, bs) && i + 1 < |bs|
    ensures At(bs, i) + 5 <= |mem| && At(bs, i + 1) + 5 <= |mem|
    ensures var next := Addr(base, bs, i + 2); next != 0 ==> base <= next && (next - base) / 4 + 5 <= |mem|
    ensures Holds(MergeMem(mem, base, At(bs, i), At(bs, i + 1), Addr(base, bs, i + 2)), base, Absorbed(bs, i))
  {
    AtBounds(bs, i);
    AtBounds(bs, i + 1);
    if i + 2 < |bs| { AtBounds(bs, i + 2); }
    AbsorbedTiled(bs, i);
    var cs := Absorbed(bs, i);
    var mem' := MergeMem(mem, base, At(bs, i), At(bs, i + 1), Addr(base, bs, i + 2));
    forall k | 0 <= k < |cs| ensures HeaderOk(mem', base, cs, k) {
      MergedHeader(mem, base, bs, i, k);
    }
  }

  // ---- splitting ----

  function Cut(bs: seq<Block>, i: nat, n: nat): seq<Block>
    requires i < |bs| && bs[i].size >= n + HEADER
  {
    Splice(bs, i, 1, [Block(n, bs[i].used), Block(bs[i].size - n - HEADER, false)])
  }

  lemma {:induction false} CutOff(bs: seq<Block>, i: nat, n: nat, k: nat)
    requires i < |bs| && bs[i].size >= n + HEADER && k <= |bs| + 1
    ensures |Cut(bs, i, n)| == |bs| + 1
    ensures Off(Cut(bs, i, n), k) == if k <= i then Off(bs, k)
                                     else if k == i + 1 then Off(bs, i) + HEADER + n
                                     else Off(bs, k - 1)
  {
    var mid := [Block(n, bs[i].used), Block(bs[i].size - n - HEADER, false)];
    assert Off(mid, 1) == Off(mid, 0) + HEADER + n;
    assert Off(mid, 2) == Off(mid, 1) + HEADER + mid[1].size;
    SpliceOff(bs, i, 1, mid);
    var cs := Cut(bs, i, n);
    if k == i + 1 { assert Off(cs, i + 1) == Off(bs, i) + Off(mid, 1); }
    if k > i + 1 { assert Off(cs, (k - 1) - 1 + 2) == Off(bs, k - 1); }
  }

  lemma {:induction false} CutAt(bs: seq<Block>, i: nat, n: nat, k: nat)
    requires Tiled(bs) && i < |bs| && bs[i].size >= n + HEADER && n % 4 == 0 && k <= |bs|
    ensures var cs := Cut(bs, i, n);
            && |cs| == |bs| + 1
            && 4 * At(cs, k) == (if k <= i then 4 * At(bs, k)
                                 else if k == i + 1 then 4 * At(bs, i) + HEADER + n
                                 else 4 * At(bs, k - 1))
            && cs[k] == if k < i then bs[k] else if k == i then Block(n, bs[i].used)
                        else if k == i + 1 then Block(bs[i].size - n - HEADER, false) else bs[k - 1]
  {
    CutOff(bs, i, n, k);
    if k < |bs| { AtBounds(bs, k); }
    AtBounds(bs, i);
    if k > 0 { AtBounds(bs, k - 1); }
  }

  lemma {:induction false} CutTiled(bs: seq<Block>, i: nat, n: nat)
    requires Tiled(bs) && i < |bs| && bs[i].size >= n + HEADER && n % 4 == 0
    ensures Tiled(Cut(bs, i, n))
  {
    hide Off, At, Cut;
    CutOff(bs, i, n, |bs| + 1);
    CutAt(bs, i, n, 0);
    var cs := Cut(bs, i, n);
    forall k | 0 <= k < |cs| ensures cs[k].size % 4 == 0 {
      CutAt(bs, i, n, k);
      DifferenceAligned(bs[i].size, n);
    }
  }

  lemma {:induction false} DifferenceAligned(m: nat, n: nat)
    requires m % 4 == 0 && n % 4 == 0 && m >= n + HEADER
    ensures (m - n - HEADER) % 4 == 0
  {
  }

  /** The block at word a is cut to n bytes, and a free block at word c made of the rest and linked in. */
  function SplitMem(mem: seq<nat>, base: nat, a: nat, c: nat, n: nat): seq<nat>
    requires a + 5 <= |mem| && c + 5 <= |mem| && mem[a + 1] >= n + HEADER
    requires mem[a + 4] != 0 ==> base <= mem[a + 4] && (mem[a + 4] - base) / 4 + 5 <= |mem|
  {
    var next := mem[a + 4];
    var mem1 := mem[c := MAGIC][c + 1 := mem[a + 1] - n - HEADER][c + 2 := 0][c + 3 := base + 4 * a][c + 4 := next];
    var mem2 := if next != 0 then mem1[(next - base) / 4 + 3 := base + 4 * c] else mem1;
    mem2[a + 4 := base + 4 * c][a + 1 := n]
  }

  /** c is the word where the split-off header goes, and the words involved lie inside the slab. */
  ghost predicate CanSplit(mem: seq<nat>, base: nat, bs: seq<Block>, i: nat, n: nat, c: nat) {
    && i < |bs| && bs[i].size >= n + HEADER && 4 * c == 4 * At(bs, i) + HEADER + n
    && At(bs, i) + 5 <= |mem| && c + 5 <= |mem| && mem[At(bs, i) + 1] >= n + HEADER
    && mem[At(bs, i) + 4] == Addr(base, bs, i + 1)
    && (mem[At(bs, i) + 4] != 0 ==> base <= mem[At(bs, i) + 4] && (mem[At(bs, i) + 4] - base) / 4 + 5 <= |mem|)
  }

  lemma {:induction false} SplitReady(mem: seq<nat>, base: nat, bs: seq<Block>, i: nat, n: nat)
    requires Holds(mem, base, bs) && i < |bs| && bs[i].size >= n + HEADER && n % 4 == 0
    ensures CanSplit(mem, base, bs, i, n, At(bs, i) + 5 + n / 4)
  {
    AtBounds(bs, i);
    assert HeaderOk(mem, base, bs, i);
    if i + 1 < |bs| { AtBounds(bs, i + 1); }
  }

  /** Headers before the block split, and after its successor, are untouched. */
  lemma {:induction false} SplitFar(mem: seq<nat>, base: nat, bs: seq<Block>, i: nat, n: nat, c: nat, j: nat)
    requires Tiled(bs) && CanSplit(mem, base, bs, i, n, c) && j < |bs| && j != i && j != i + 1
    requires HeaderOk(mem, base, bs, j)
    ensures HeaderIs(SplitMem(mem, base, At(bs, i), c, n), At(bs, j), bs[j].size, bs[j].used, Addr(base, bs, j - 1),
                     Addr(base, bs, j + 1))
  {
    if j < i { AtApart(bs, j, i); } else { AtApart(bs, i + 1, j); AtBounds(bs, i); }
    hide At, Tiled;
  }

  /** The header of the successor is untouched but for its link back. */
  lemma {:induction false} SplitNext(mem: seq<nat>, base: nat, bs: seq<Block>, i: nat, n: nat, c: nat)
    requires Tiled(bs) && CanSplit(mem, base, bs, i, n, c) && i + 1 < |bs| && base > 0
    requires HeaderIs(mem, At(bs, i + 1), bs[i + 1].size, bs[i + 1].used, Addr(base, bs, i), Addr(base, bs, i + 2))
    ensures HeaderIs(SplitMem(mem, base, At(bs, i), c, n), At(bs, i + 1), bs[i + 1].size, bs[i + 1].used, base + 4 * c,
                     Addr(base, bs, i + 2))
  {
    AtBounds(bs, i);
    hide At, Tiled;
  }

  /** The header of the block split, and the one split off. */
  lemma {:induction false} SplitHere(mem: seq<nat>, base: nat, bs: seq<Block>, i: nat, n: nat, c: nat)
    requires Tiled(bs) && CanSplit(mem, base, bs, i, n, c) && HeaderOk(mem, base, bs, i) && base > 0
    ensures HeaderIs(SplitMem(mem, base, At(bs, i), c, n), At(bs, i), n, bs[i].used, Addr(base, bs, i - 1),
                     base + 4 * c)
    ensures HeaderIs(SplitMem(mem, base, At(bs, i), c, n), c, bs[i].size - n - HEADER, false, base + 4 * At(bs, i),
                     Addr(base, bs, i + 1))
  {
    if i + 1 < |bs| { AtBounds(bs, i); }
    hide At, Tiled;
  }

  lemma {:induction false} SplitHeader(mem: seq<nat>, base: nat, bs: seq<Block>, i: nat, n: nat, c: nat, k: nat)
    requires Holds(mem, base, bs) && CanSplit(mem, base, bs, i, n, c) && n % 4 == 0 && k <= |bs|
    requires |Cut(bs, i, n)| == |bs| + 1
    ensures HeaderOk(SplitMem(mem, base, At(bs, i), c, n), base, Cut(bs, i, n), k)
  {
    hide Holds, Cut, At, Tiled, Placed, SplitMem, HeaderIs;
    GetHeader(mem, base, bs, i);
    CutAt(bs, i, n, k);
    if k > 0 { CutAt(bs, i, n, k - 1); }
    if k < |bs| { CutAt(bs, i, n, k + 1); }
    if k == i || k == i + 1 {
      SplitHere(mem, base, bs, i, n, c);
    } else {
      var j := if k < i then k else k - 1;
      GetHeader(mem, base, bs, j);
      if j == i + 1 {
        SplitNext(mem, base, bs, i, n, c);
      } else {
        SplitFar(mem, base, bs, i, n, c, j);
      }
    }
  }

  lemma {:induction false} SplitHolds(mem: seq<nat>, base: nat, bs: seq<Block>, i: nat, n: nat, c: nat)
    requires Holds(mem, base, bs) && CanSplit(mem, base, bs, i, n, c) && n % 4 == 0
    ensures Holds(SplitMem(mem, base, At(bs, i), c, n), base, Cut(bs, i, n))
  {
    CutTiled(bs, i, n);
    CutOff(bs, i, n, 0);
    forall k | 0 <= k < |Cut(bs, i, n)| ensures HeaderOk(SplitMem(mem, base, At(bs, i), c, n), base, Cut(bs, i, n), k) {
      SplitHeader(mem, base, bs, i, n, c, k);
    }
  }

  // ---- payloads ----

  /** Word x lies in the payload of block i. */
  predicate InPayload(bs: seq<Block>, i: nat, x: nat) {
    i < |bs| && At(bs, i) + 5 <= x && 4 * x < 4 * At(bs, i) + HEADER + bs[i].size
  }

  /** mem' agrees with mem on every payload in use, but for block j. */
  ghost predicate PayloadsKept(mem: seq<nat>, mem': seq<nat>, bs: seq<Block>, j: nat) {
    && |mem'| == |mem|
    && forall i, x ::
         0 <= i < |bs| && i != j && 0 <= x < |mem| && bs[i].used && InPayload(bs, i, x) ==> mem'[x] == mem[x]
  }

  lemma {:induction false} NotInHeader(bs: seq<Block>, i: nat, x: nat, j: nat)
    requires Tiled(bs) && InPayload(bs, i, x) && j < |bs|
    ensures x < At(bs, j) || x >= At(bs, j) + 5
  {
    if i < j { AtApart(bs, i, j); }
    if j < i { AtApart(bs, j, i); }
  }

  lemma {:induction false} MergeKeepsPayloads(mem: seq<nat>, base: nat, bs: seq<Block>, i: nat)
    requires Holds(mem, base, bs) && i + 1 < |bs| && At(bs, i) + 5 <= |mem| && At(bs, i + 1) + 5 <= |mem|
    requires var next := Addr(base, bs, i + 2); next != 0 ==> base <= next && (next - base) / 4 + 5 <= |mem|
    ensures PayloadsKept(mem, MergeMem(mem, base, At(bs, i), At(bs, i + 1), Addr(base, bs, i + 2)), bs, |bs|)
  {
    hide At, Tiled;
    var mem' := MergeMem(mem, base, At(bs, i), At(bs, i + 1), Addr(base, bs, i + 2));
    forall k, x | 0 <= k < |bs| && k != |bs| && 0 <= x < |mem| && bs[k].used && InPayload(bs, k, x)
      ensures mem'[x] == mem[x]
    {
      NotInHeader(bs, k, x, i);
      NotInHeader(bs, k, x, i + 1);
      if i + 2 < |bs| { NotInHeader(bs, k, x, i + 2); }
    }
  }

  lemma {:induction false} SplitKeepsPayloads(mem: seq<nat>, base: nat, bs: seq<Block>, i: nat, n: nat, c: nat)
    requires Holds(mem, base, bs) && CanSplit(mem, base, bs, i, n, c) && !bs[i].used
    ensures PayloadsKept(mem, SplitMem(mem, base, At(bs, i), c, n), bs, |bs|)
  {
    AtBounds(bs, i);
    hide At, Tiled;
    var mem' := SplitMem(mem, base, At(bs, i), c, n);
    forall k, x | 0 <= k < |bs| && k != |bs| && 0 <= x < |mem| && bs[k].used && InPayload(bs, k, x)
      ensures mem'[x] == mem[x]
    {
      NotInHeader(bs, k, x, i);
      if i + 1 < |bs| { NotInHeader(bs, k, x, i + 1); }
      if k < i { AtApart(bs, k, i); }
      if i < k { AtApart(bs, i, k); }
    }
  }

  // ---- the heap ----

  /** Splitting and marking used is what carving does. */
  lemma {:induction false} CutIsCarve(bs: seq<Block>, i: nat, n: nat)
    requires i < |bs| && Fits(bs[i], n)
    ensures bs[i].size - n >= HEADER + ALIGN ==>
              |Cut(bs, i, n)| > i && Cut(bs, i, n)[i].size == n && Cut(bs, i, n)[i := Block(n, true)] == Carve(bs, i, n)
    ensures bs[i].size - n < HEADER + ALIGN ==> bs[i := Block(bs[i].size, true)] == Carve(bs, i, n)
  {
  }

  /** The words of a header, spelled out. */
  lemma {:induction false} HeaderWords(mem: seq<nat>, base: nat, bs: seq<Block>, i: nat)
    requires Holds(mem, base, bs) && i < |bs|
    ensures var w := At(bs, i);
            && w + 5 <= |mem| == WORDS && mem[w] == MAGIC && mem[w + 1] == bs[i].size
            && mem[w + 2] == (if bs[i].used then 1 else 0)
            && mem[w + 3] == Addr(base, bs, i - 1) && mem[w + 4] == Addr(base, bs, i + 1)
            && base > 0 && 4 * w == Off(bs, i)
  {
    GetHeader(mem, base, bs, i);
    AtBounds(bs, i);
  }

  lemma {:induction false} HeadIs(mem: seq<nat>, base: nat, bs: seq<Block>)
    requires Holds(mem, base, bs)
    ensures |bs| > 0 && Addr(base, bs, 0) == base && base > 0 && |mem| == WORDS
  {
  }

  lemma {:induction false} PayloadsSame(mem: seq<nat>, bs: seq<Block>)
    ensures PayloadsKept(mem, mem, bs, |bs|)
  {
  }

  lemma {:induction false} MarkKeepsPayloads(mem: seq<nat>, mem1: seq<nat>, bs: seq<Block>, i: nat, v: nat)
    requires Tiled(bs) && i < |bs| && PayloadsKept(mem, mem1, bs, |bs|) && At(bs, i) + 5 <= |mem|
    ensures PayloadsKept(mem, mem1[At(bs, i) + 2 := v], bs, |bs|)
  {
    hide At, Tiled;
    var mem' := mem1[At(bs, i) + 2 := v];
    forall k, x | 0 <= k < |bs| && k != |bs| && 0 <= x < |mem| && bs[k].used && InPayload(bs, k, x)
      ensures mem'[x] == mem[x]
    {
      NotInHeader(bs, k, x, i);
    }
  }

  /** What the split needs of the words involved. */
  lemma {:induction false} SplitFacts(mem: seq<nat>, base: nat, bs: seq<Block>, i: nat, n: nat, c: nat)
    requires Holds(mem, base, bs) && CanSplit(mem, base, bs, i, n, c) && bs[i].size >= n + HEADER + ALIGN
    ensures At(bs, i) + 5 <= c && c + 5 <= WORDS && mem[At(bs, i) + 1] >= n + HEADER
    ensures mem[At(bs, i) + 4] != 0 ==> base <= mem[At(bs, i) + 4] && c + 5 <= (mem[At(bs, i) + 4] - base) / 4
                                        && (mem[At(bs, i) + 4] - base) / 4 + 5 <= WORDS
    ensures |Cut(bs, i, n)| > i && At(Cut(bs, i, n), i) == At(bs, i) && Cut(bs, i, n)[i].size == n
  {
    AtBounds(bs, i);
    CutOff(bs, i, n, i);
  }

  /** The block carved out starts where the free block did. */
  lemma {:induction false} CarvePayload(bs: seq<Block>, i: nat, n: nat)
    requires i < |bs| && Fits(bs[i], n)
    ensures i < |Carve(bs, i, n)| && Off(Carve(bs, i, n), i) == Off(bs, i)
  {
    PiecesOff(bs[i], n);
    SpliceOff(bs, i, 1, Pieces(bs[i], n));
  }

  // ---- what freeing relies on ----

  /** Where a block starts, its magic word stands. */
  lemma {:induction false} NoBlockHere(mem: seq<nat>, base: nat, bs: seq<Block>, ptr: nat)
    requires Holds(mem, base, bs) && base + HEADER <= ptr && (ptr - HEADER - base) / 4 < |mem|
    requires mem[(ptr - HEADER - base) / 4] != MAGIC
    ensures forall k :: 0 <= k < |bs| ==> ptr != base + Payload(bs, k)
  {
    forall k | 0 <= k < |bs| ensures ptr != base + Payload(bs, k) { HeaderWords(mem, base, bs, k); }
  }

  lemma {:induction false} OnlyBlockHere(bs: seq<Block>, i: nat)
    requires i < |bs|
    ensures forall k :: 0 <= k < |bs| && Payload(bs, k) == Payload(bs, i) ==> k == i
  {
    forall k | 0 <= k < |bs| && Payload(bs, k) == Payload(bs, i) ensures k == i {
      if k < i { OffMonotonic(bs, k, i); }
      if i < k { OffMonotonic(bs, i, k); }
    }
  }

  lemma {:induction false} MarkedAt(bs: seq<Block>, i: nat, k: nat)
    requires i < |bs| && k < |bs|
    ensures At(bs[i := Block(bs[i].size, false)], k) == At(bs, k)
  {
    OffMark(bs, i, false, k);
  }

  /** The link to the next block, and the flag found there. */
  lemma {:induction false} NextWords(mem: seq<nat>, base: nat, bs: seq<Block>, i: nat)
    requires Holds(mem, base, bs) && i < |bs|
    ensures At(bs, i) + 5 <= |mem| && base > 0
    ensures var nx := mem[At(bs, i) + 4];
            && (nx != 0 <==> i + 1 < |bs|)
            && (i + 1 < |bs| ==> nx >= base && (nx - base) / 4 == At(bs, i + 1) && At(bs, i + 1) + 5 <= |mem|
                                 && (mem[At(bs, i + 1) + 2] == 0 <==> !bs[i + 1].used))
  {
    HeaderWords(mem, base, bs, i);
    if i + 1 < |bs| { HeaderWords(mem, base, bs, i + 1); }
  }

  lemma {:induction false} PrevWords(mem: seq<nat>, base: nat, bs: seq<Block>, i: nat)
    requires Holds(mem, base, bs) && i < |bs|
    ensures At(bs, i) + 5 <= |mem| && base > 0
    ensures var pv := mem[At(bs, i) + 3];
            && (pv != 0 <==> i > 0)
            && (i > 0 ==> pv >= base && (pv - base) / 4 == At(bs, i - 1) && At(bs, i - 1) + 5 <= |mem|
                          && (mem[At(bs, i - 1) + 2] == 0 <==> !bs[i - 1].used))
  {
    HeaderWords(mem, base, bs, i);
    if i > 0 { HeaderWords(mem, base, bs, i - 1); }
  }

  /** Freeing, in the steps the code takes. */
  lemma {:induction false} FreeIs(bs: seq<Block>, i: nat)
    requires i < |bs|
    ensures var a := bs[i := Block(bs[i].size, false)];
            var b := if i + 1 < |a| && !a[i + 1].used then Absorbed(a, i) else a;
            i < |b| && Free(bs, i) == if i > 0 && !b[i - 1].used then Absorbed(b, i - 1) else b
  {
    var a := bs[i := Block(bs[i].size, false)];
    if i + 1 < |a| && !a[i + 1].used { assert Absorbed(a, i) == Merge(a, i); }
    var b := if i + 1 < |a| && !a[i + 1].used then Absorbed(a, i) else a;
    if i > 0 && !b[i - 1].used { assert Absorbed(b, i - 1) == Merge(b, i - 1); }
  }

  /** Every used block of bs but i is, in the same place, a used block of cs. */
  ghost predicate Carried(bs: seq<Block>, i: nat, cs: seq<Block>) {
    forall k :: 0 <= k < |bs| && k != i && bs[k].used ==> Same(bs, k, cs)
  }

  ghost predicate Same(bs: seq<Block>, k: nat, cs: seq<Block>)
    requires k < |bs|
  {
    exists m :: 0 <= m < |cs| && At(cs, m) == At(bs, k) && cs[m] == bs[k]
  }

  lemma {:induction false} CarriedMark(bs: seq<Block>, i: nat)
    requires i < |bs|
    ensures Carried(bs, i, bs[i := Block(bs[i].size, false)])
  {
    var a := bs[i := Block(bs[i].size, false)];
    forall k | 0 <= k < |bs| && k != i && bs[k].used ensures Same(bs, k, a) {
      MarkedAt(bs, i, k);
      assert At(a, k) == At(bs, k) && a[k] == bs[k];
    }
  }

  lemma {:induction false} CarriedAbsorb(bs: seq<Block>, i: nat)
    requires i < |bs|
    ensures var a := bs[i := Block(bs[i].size, false)]; i + 1 < |a| && !a[i + 1].used ==> Carried(bs, i, Absorbed(a, i))
  {
    var a := bs[i := Block(bs[i].size, false)];
    if i + 1 < |a| && !a[i + 1].used {
      var b := Absorbed(a, i);
      AbsorbedAt(a, i, i);
      hide Absorbed, At;
      forall k | 0 <= k < |bs| && k != i && bs[k].used ensures Same(bs, k, b) {
        MarkedAt(bs, i, k);
        var m := if k < i then k else k - 1;
        AbsorbedAt(a, i, m);
        assert At(b, m) == At(bs, k) && b[m] == bs[k];
      }
    }
  }

  /** Keeping the payloads of cs keeps those of bs, but for block i. */
  lemma {:induction false} KeptThrough(mem: seq<nat>, mem1: seq<nat>, mem2: seq<nat>, bs: seq<Block>, cs: seq<Block>,
                                       i: nat)
    requires PayloadsKept(mem, mem1, bs, i) && PayloadsKept(mem1, mem2, cs, |cs|) && Carried(bs, i, cs)
    ensures PayloadsKept(mem, mem2, bs, i)
  {
    hide At;
    forall k, x | 0 <= k < |bs| && k != i && 0 <= x < |mem| && bs[k].used && InPayload(bs, k, x)
      ensures mem2[x] == mem[x]
    {
      assert Same(bs, k, cs);
      var m :| 0 <= m < |cs| && At(cs, m) == At(bs, k) && cs[m] == bs[k];
      assert InPayload(cs, m, x);
    }
  }

  lemma {:induction false} MarkKeepsOthers(mem: seq<nat>, bs: seq<Block>, i: nat, v: nat)
    requires Tiled(bs) && i < |bs| && At(bs, i) + 5 <= |mem|
    ensures PayloadsKept(mem, mem[At(bs, i) + 2 := v], bs, i)
  {
    PayloadsSame(mem, bs);
    MarkKeepsPayloads(mem, mem, bs, i, v);
  }

  /** The words a merge touches are distinct. */
  lemma {:induction false} MergeApart(mem: seq<nat>, base: nat, bs: seq<Block>, i: nat)
    requires Holds(mem, base, bs) && i + 1 < |bs|
    ensures At(bs, i) + 5 <= At(bs, i + 1) && At(bs, i + 1) + 5 <= |mem|
    ensures var next := Addr(base, bs, i + 2);
            next != 0 ==> base <= next && At(bs, i + 1) + 5 <= (next - base) / 4 && (next - base) / 4 + 5 <= |mem|
  {
    AtApart(bs, i, i + 1);
    AtBounds(bs, i + 1);
    if i + 2 < |bs| {
      AtApart(bs, i + 1, i + 2);
      AtBounds(bs, i + 2);
    }
  }

  class Heap {
    const base: nat
    const storage: array<nat>
    var head: nat
    ghost var blocks: seq<Block>

    ghost predicate Valid()
      reads this, storage
    {
      storage.Length == WORDS && head == base && Holds(storage[..], base, blocks) && Wf(blocks)
    }

    /** One free block over the whole slab. */
    constructor (b: nat)
      requires b > 0 && b % 8 == 0 && b + ARENA <= WORD
      ensures Valid() && blocks == INITIAL && base == b && fresh(storage)
    {
      base := b;
      head := b;
      blocks := INITIAL;
      storage := new nat[WORDS];
      new;
      storage[0], storage[1], storage[2], storage[3], storage[4] := MAGIC, ARENA - HEADER, 0, 0, 0;
      InitialWf();
      assert At(INITIAL, 0) == 0;
      assert HeaderOk(storage[..], base, blocks, 0);
    }

    /** Write the header of a new free block at word c and link it in behind the block at word a. */
    method Split(a: nat, c: nat, n: nat)
      requires storage.Length == WORDS && a + 5 <= c && c + 5 <= WORDS && storage[a + 1] >= n + HEADER
      requires storage[a + 4] != 0 ==>
                 base <= storage[a + 4] && c + 5 <= (storage[a + 4] - base) / 4
                 && (storage[a + 4] - base) / 4 + 5 <= WORDS
      modifies storage
      ensures storage[..] == SplitMem(old(storage[..]), base, a, c, n)
    {
      var leftover := storage[a + 1] - n;
      storage[c] := MAGIC;
      storage[c + 1] := leftover - HEADER;
      storage[c + 2] := 0;
      storage[c + 3] := base + 4 * a;
      storage[c + 4] := storage[a + 4];
      if storage[a + 4] != 0 { storage[(storage[a + 4] - base) / 4 + 3] := base + 4 * c; }
      storage[a + 4] := base + 4 * c;
      storage[a + 1] := n;
    }

    /** Give out the free block at word w: split it if what is left is worth a block, and mark it used. */
    method Take(w: nat, need: nat, ghost i: nat)
      requires Valid() && i < |blocks| && w == At(blocks, i) && Fits(blocks[i], need) && need % 8 == 0
      modifies this, storage
      ensures Valid() && blocks == Carve(old(blocks), i, need)
      ensures PayloadsKept(old(storage[..]), storage[..], old(blocks), |old(blocks)|)
    {
      hide Holds, At, Tiled, Wf, Carve, Cut, Off, SplitMem, CanSplit, PayloadsKept, HeaderIs;
      ghost var bs, mem := blocks, storage[..];
      GetHeader(mem, base, bs, i);
      HeaderWords(mem, base, bs, i);
      CutIsCarve(bs, i, need);
      CarveKeepsWf(bs, i, need);
      PayloadsSame(mem, bs);
      var leftover := storage[w + 1] - need;
      if leftover >= HEADER + ALIGN {
        var c := w + 5 + need / 4;
        SplitReady(mem, base, bs, i, need);
        SplitFacts(mem, base, bs, i, need, c);
        SplitHolds(mem, base, bs, i, need, c);
        SplitKeepsPayloads(mem, base, bs, i, need, c);
        Split(w, c, need);
        blocks := Cut(bs, i, need);
      }
      MarkHolds(storage[..], base, blocks, i, true);
      MarkKeepsPayloads(mem, storage[..], bs, i, 1);
      ghost var mem1 := storage[..];
      storage[w + 2] := 1;
      assert storage[..] == mem1[w + 2 := 1];
      blocks := Carve(bs, i, need);
    }

    /** First fit: walk the list from its head to the first free block that is large enough. */
    method Kmalloc(size: nat) returns (ptr: nat)
      requires Valid() && size < WORD
      modifies this, storage
      ensures Valid()
      ensures match Malloc(old(blocks), size)
              case Refused => ptr == 0 && blocks == old(blocks)
              case Granted(bs, i) => blocks == bs && i < |bs| && ptr == base + Payload(bs, i)
      ensures PayloadsKept(old(storage[..]), storage[..], old(blocks), |old(blocks)|)
    {
      hide Holds, At, Tiled, Wf, Carve, Off, PayloadsKept, HeaderIs, AlignUp;
      PayloadsSame(storage[..], blocks);
      if size == 0 { return 0; }
      var need := AlignUp(size);
      var b := head;
      ghost var i, bs := 0, blocks;
      HeadIs(storage[..], base, bs);
      while b != 0
        invariant i <= |bs| && b == Addr(base, bs, i) && FirstFit(bs, need, 0) == FirstFit(bs, need, i)
        invariant Valid() && blocks == bs && storage[..] == old(storage[..])
        decreases |bs| - i
      {
        GetHeader(storage[..], base, bs, i);
        HeaderWords(storage[..], base, bs, i);
        var w := (b - base) / 4;
        assert storage[w] == MAGIC;  // the corruption check never fires
        if storage[w + 2] == 0 && storage[w + 1] >= need {
          CarvePayload(bs, i, need);
          Take(w, need, i);
          return b + HEADER;
        }
        b := storage[w + 4];
        i := i + 1;
      }
      return 0;
    }

    /** The block at word a swallows the one at word b, which is its successor. */
    method Absorb(a: nat, b: nat, ghost i: nat)
      requires storage.Length == WORDS && Holds(storage[..], base, blocks)
      requires i + 1 < |blocks| && a == At(blocks, i) && b == At(blocks, i + 1)
      modifies this`blocks, storage
      ensures Holds(storage[..], base, blocks) && blocks == Absorbed(old(blocks), i)
      ensures PayloadsKept(old(storage[..]), storage[..], old(blocks), |old(blocks)|)
    {
      hide Holds, At, Tiled, Absorbed, Off, PayloadsKept;
      ghost var mem := storage[..];
      HeaderWords(mem, base, blocks, i + 1);
      MergeHolds(mem, base, blocks, i);
      MergeKeepsPayloads(mem, base, blocks, i);
      MergeApart(mem, base, blocks, i);
      storage[a + 1] := storage[a + 1] + HEADER + storage[b + 1];
      storage[a + 4] := storage[b + 4];
      if storage[b + 4] != 0 { storage[(storage[b + 4] - base) / 4 + 3] := base + 4 * a; }
      storage[b] := 0;
      assert storage[..] == MergeMem(mem, base, a, b, Addr(base, blocks, i + 2));
      blocks := Absorbed(blocks, i);
    }

    /** Free a block and merge it with free neighbours; a pointer to no block or to a free one panics. */
    method Kfree(ptr: nat) returns (panicked: bool, ghost i: nat)
      requires Valid()
      requires ptr == 0
               || (base + HEADER <= ptr && (ptr - HEADER - base) % 4 == 0 && (ptr - HEADER - base) / 4 + 5 <= WORDS)
      requires ptr != 0 && storage[(ptr - HEADER - base) / 4] == MAGIC ==>
                 exists k :: 0 <= k < |blocks| && ptr == base + Payload(blocks, k)
      modifies this, storage
      ensures Valid()
      ensures ptr == 0 ==> !panicked && blocks == old(blocks)
      ensures panicked <==>
                && ptr != 0
                && !exists k :: 0 <= k < |old(blocks)| && ptr == base + Payload(old(blocks), k) && old(blocks)[k].used
      ensures panicked ==> blocks == old(blocks) && storage[..] == old(storage[..])
      ensures ptr != 0 && !panicked ==>
                i < |old(blocks)| && old(blocks)[i].used && ptr == base + Payload(old(blocks), i)
                && blocks == Free(old(blocks), i)
      ensures PayloadsKept(old(storage[..]), storage[..], old(blocks),
                           if ptr != 0 && !panicked then i else |old(blocks)|)
    {
      hide Holds, At, Tiled, Absorbed, Off, PayloadsKept, Wf, Free, HeaderIs, Carried;
      PayloadsSame(storage[..], blocks);
      i := 0;
      if ptr == 0 { return false, 0; }
      var w := (ptr - HEADER - base) / 4;
      ghost var bs, mem := blocks, storage[..];
      if storage[w] != MAGIC {
        NoBlockHere(mem, base, bs, ptr);
        return true, 0;
      }
      i :| 0 <= i < |blocks| && ptr == base + Payload(blocks, i);
      GetHeader(mem, base, bs, i);
      HeaderWords(mem, base, bs, i);
      OnlyBlockHere(bs, i);
      if storage[w + 2] == 0 { return true, i; }
      MarkHolds(mem, base, bs, i, false);
      MarkedAt(bs, i, i);
      MarkKeepsOthers(mem, bs, i, 0);
      storage[w + 2] := 0;
      assert storage[..] == mem[w + 2 := 0];
      blocks := bs[i := Block(bs[i].size, false)];
      FreeIs(bs, i);
      FreeKeepsWf(bs, i);
      MergeBoth(w, bs, mem, i);
      return false, i;
    }

    /** The block at word w has just been marked free: merge it with a free successor, then with a free predecessor. */
    method MergeBoth(w: nat, ghost bs: seq<Block>, ghost mem: seq<nat>, ghost i: nat)
      requires storage.Length == WORDS && Holds(storage[..], base, blocks) && i < |bs| && bs[i].used
      requires blocks == bs[i := Block(bs[i].size, false)] && w == At(blocks, i)
      requires PayloadsKept(mem, storage[..], bs, i)
      modifies this`blocks, storage
      ensures Holds(storage[..], base, blocks) && blocks == Free(bs, i) && PayloadsKept(mem, storage[..], bs, i)
    {
      hide Holds, At, Tiled, Absorbed, Off, PayloadsKept, Wf, Free, HeaderIs, Carried;
      FreeIs(bs, i);
      CarriedMark(bs, i);
      CarriedAbsorb(bs, i);
      ghost var a, mem1 := blocks, storage[..];
      NextWords(mem1, base, a, i);
      if storage[w + 4] != 0 && storage[(storage[w + 4] - base) / 4 + 2] == 0 {
        AbsorbedAt(a, i, i);
        Absorb(w, (storage[w + 4] - base) / 4, i);
        KeptThrough(mem, mem1, storage[..], bs, a, i);
      }
      ghost var b, mem2 := blocks, storage[..];
      PrevWords(mem2, base, b, i);
      if storage[w + 3] != 0 && storage[(storage[w + 3] - base) / 4 + 2] == 0 {
        Absorb((storage[w + 3] - base) / 4, w, i - 1);
        KeptThrough(mem, mem2, storage[..], bs, b, i);
      }
    }

    /** Walk the list and add up. */
    method GetStats() returns (s: Stats)
      requires Valid()
      ensures s == StatsOf(blocks, |blocks|)
    {
      hide Holds, At, Tiled, Wf, Off, HeaderIs;
      s := Stats(ARENA, 0, 0, 0, 0, 0, 0);
      var b := head;
      ghost var i := 0;
      HeadIs(storage[..], base, blocks);
      while b != 0
        invariant i <= |blocks| && b == Addr(base, blocks, i) && s == StatsOf(blocks, i)
        decreases |blocks| - i
      {
        HeaderWords(storage[..], base, blocks, i);
        var w := (b - base) / 4;
        var size := storage[w + 1];
        s := s.(blocks := s.blocks + 1);
        if storage[w + 2] != 0 {
          s := s.(usedBytes := s.usedBytes + size, usedBlocks := s.usedBlocks + 1);
        } else {
          s := s.(freeBytes := s.freeBytes + size, freeBlocks := s.freeBlocks + 1);
          if size > s.largestFree { s := s.(largestFree := size); }
        }
        b := storage[w + 4];
        i := i + 1;
      }
    }

    /** A caller writing inside a payload it holds disturbs neither the block list nor any other payload. */
    method WritePayload(x: nat, v: nat, ghost i: nat)
      requires Valid() && i < |blocks| && InPayload(blocks, i, x) && x < WORDS
      modifies storage
      ensures Valid() && blocks == old(blocks) && storage[x] == v
      ensures PayloadsKept(old(storage[..]), storage[..], blocks, i)
    {
      hide Holds, Wf, Off;
      PayloadWrite(storage[..], base, blocks, i, x, v);
      ghost var mem := storage[..];
      storage[x] := v;
      assert storage[..] == mem[x := v];
    }
  }

  lemma {:induction false} PayloadWrite(mem: seq<nat>, base: nat, bs: seq<Block>, i: nat, x: nat, v: nat)
    requires Holds(mem, base, bs) && InPayload(bs, i, x) && x < |mem|
    ensures Holds(mem[x := v], base, bs) && PayloadsKept(mem, mem[x := v], bs, i)
  {
    hide At, Tiled;
    var mem' := mem[x := v];
    forall k | 0 <= k < |bs| ensures HeaderOk(mem', base, bs, k) {
      NotInHeader(bs, i, x, k);
      assert HeaderOk(mem, base, bs, k);
    }
    forall k, y | 0 <= k < |bs| && k != i && 0 <= y < |mem| && bs[k].used && InPayload(bs, k, y)
      ensures mem'[y] == mem[y]
    {
      if k < i { AtApart(bs, k, i); } else { AtApart(bs, i, k); }
    }
  }
}
