/** The kernel heap as the list of blocks that tile its slab, in address order. */
module HeapBlocks {
  const HEADER: nat := 20
  const ARENA: nat := 0x4_0000
  const ALIGN: nat := 8
  const WORD: nat := 0x1_0000_0000

  /** size is the payload size in bytes, without the header. */
  datatype Block = Block(size: nat, used: bool)

  /** The offset in the slab of the header of block i, and at the end of the list of the slab's end. */
  function Off(bs: seq<Block>, i: nat): (o: nat)
    requires i <= |bs|
    ensures o >= HEADER * i
  {
    if i == 0 then 0 else Off(bs, i - 1) + HEADER + bs[i - 1].size
  }

  function Payload(bs: seq<Block>, i: nat): nat
    requires i < |bs|
  {
    Off(bs, i) + HEADER
  }

  /** Block i and the block after it are not both free. */
  predicate Apart(bs: seq<Block>, i: nat)
    requires i + 1 < |bs|
  {
    bs[i].used || bs[i + 1].used
  }

  /** The blocks tile the slab exactly, in words, and no two neighbours are both free. */
  ghost predicate Wf(bs: seq<Block>) {
    && |bs| > 0 && Off(bs, |bs|) == ARENA
    && (forall i :: 0 <= i < |bs| ==> bs[i].size % 4 == 0)
    && (forall i :: 0 <= i < |bs| - 1 ==> Apart(bs, i))
  }

  const INITIAL: seq<Block> := [Block(ARENA - HEADER, false)]

  lemma {:induction false} InitialWf()
    ensures Wf(INITIAL)
  {
    assert Off(INITIAL, 1) == Off(INITIAL, 0) + HEADER + INITIAL[0].size;
  }

  lemma {:induction false} OffMonotonic(bs: seq<Block>, i: nat, j: nat)
    requires i < j <= |bs|
    ensures Off(bs, i) + HEADER + bs[i].size <= Off(bs, j)
    decreases j
  {
    if i + 1 < j { OffMonotonic(bs, i, j - 1); }
  }

  lemma {:induction false} OffAligned(bs: seq<Block>, i: nat)
    requires i <= |bs| && forall k :: 0 <= k < |bs| ==> bs[k].size % 4 == 0
    ensures Off(bs, i) % 4 == 0
  {
    if i > 0 { OffAligned(bs, i - 1); }
  }

  /** Offsets depend only on the blocks before. */
  lemma {:induction false} OffPrefix(bs: seq<Block>, cs: seq<Block>, i: nat)
    requires i <= |bs| && i <= |cs| && bs[..i] == cs[..i]
    ensures Off(bs, i) == Off(cs, i)
    decreases i
  {
    if i > 0 {
      assert bs[..i - 1] == bs[..i][..i - 1] == cs[..i][..i - 1] == cs[..i - 1];
      assert bs[i - 1] == bs[..i][i - 1] == cs[..i][i - 1] == cs[i - 1];
      OffPrefix(bs, cs, i - 1);
    }
  }

  /** Two lists that agree from some point on keep the same distance there. */
  lemma {:induction false} OffSuffix(bs: seq<Block>, cs: seq<Block>, i: nat, k: nat, n: nat)
    requires i + n <= |bs| && k + n <= |cs| && bs[i..i + n] == cs[k..k + n]
    ensures Off(bs, i + n) - Off(bs, i) == Off(cs, k + n) - Off(cs, k)
    decreases n
  {
    if n > 0 {
      assert bs[i..i + n - 1] == bs[i..i + n][..n - 1] && cs[k..k + n - 1] == cs[k..k + n][..n - 1];
      assert bs[i + n - 1] == bs[i..i + n][n - 1] == cs[k..k + n][n - 1] == cs[k + n - 1];
      OffSuffix(bs, cs, i, k, n - 1);
    }
  }

  // ---- replacing blocks by others of the same extent ----

  /** Blocks i..i+m of bs replaced by mid. */
  function Splice(bs: seq<Block>, i: nat, m: nat, mid: seq<Block>): seq<Block>
    requires i + m <= |bs|
  {
    bs[..i] + mid + bs[i + m..]
  }

  /** A replacement that covers the same bytes moves nothing else. */
  lemma {:induction false} SpliceOff(bs: seq<Block>, i: nat, m: nat, mid: seq<Block>)
    requires i + m <= |bs| && Off(mid, |mid|) == Off(bs, i + m) - Off(bs, i)
    ensures var cs := Splice(bs, i, m, mid);
            && (forall k :: 0 <= k <= i ==> Off(cs, k) == Off(bs, k))
            && (forall k :: 0 <= k <= |mid| ==> Off(cs, i + k) == Off(bs, i) + Off(mid, k))
            && (forall k :: i + m <= k <= |bs| ==> Off(cs, k - m + |mid|) == Off(bs, k))
  {
    hide Off;
    var cs := Splice(bs, i, m, mid);
    forall k | 0 <= k <= i ensures Off(cs, k) == Off(bs, k) { SpliceBefore(bs, i, m, mid, k); }
    forall k | 0 <= k <= |mid| ensures Off(cs, i + k) == Off(bs, i) + Off(mid, k) { SpliceWithin(bs, i, m, mid, k); }
    forall k | i + m <= k <= |bs| ensures Off(cs, k - m + |mid|) == Off(bs, k) { SpliceBehind(bs, i, m, mid, k); }
  }

  lemma {:induction false} SpliceBefore(bs: seq<Block>, i: nat, m: nat, mid: seq<Block>, k: nat)
    requires i + m <= |bs| && k <= i
    ensures Off(Splice(bs, i, m, mid), k) == Off(bs, k)
  {
    hide Off;
    var cs := Splice(bs, i, m, mid);
    assert cs[..k] == bs[..k];
    OffPrefix(bs, cs, k);
  }

  lemma {:induction false} SpliceWithin(bs: seq<Block>, i: nat, m: nat, mid: seq<Block>, k: nat)
    requires i + m <= |bs| && k <= |mid|
    ensures Off(Splice(bs, i, m, mid), i + k) == Off(bs, i) + Off(mid, k)
  {
    hide Off;
    var cs := Splice(bs, i, m, mid);
    SpliceBefore(bs, i, m, mid, i);
    assert cs[i..i + k] == mid[..k] == mid[0..0 + k];
    OffSuffix(cs, mid, i, 0, k);
    OffNone(mid);
  }

  lemma {:induction false} OffNone(bs: seq<Block>)
    ensures Off(bs, 0) == 0
  {
  }

  lemma {:induction false} SpliceBehind(bs: seq<Block>, i: nat, m: nat, mid: seq<Block>, k: nat)
    requires i + m <= k <= |bs| && Off(mid, |mid|) == Off(bs, i + m) - Off(bs, i)
    ensures Off(Splice(bs, i, m, mid), k - m + |mid|) == Off(bs, k)
  {
    hide Off;
    var cs, n := Splice(bs, i, m, mid), k - (i + m);
    SpliceWithin(bs, i, m, mid, |mid|);
    assert cs[i + |mid|..] == bs[i + m..];
    assert cs[i + |mid|..][..n] == cs[i + |mid|..i + |mid| + n] && bs[i + m..][..n] == bs[i + m..i + m + n];
    assert cs[i + |mid|..i + |mid| + n] == bs[i + m..i + m + n];
    OffSuffix(cs, bs, i + |mid|, i + m, n);
  }

  // ---- allocating ----

  /** Round up to a multiple of 8 in 32-bit arithmetic. */
  function AlignUp(n: nat): (r: nat)
    ensures r % ALIGN == 0
  {
    (n + ALIGN - 1) % WORD / ALIGN * ALIGN
  }

  predicate Fits(b: Block, n: nat) { !b.used && b.size >= n }

  /** The first free block from i on that holds n bytes; the length of the list if there is none. */
  function FirstFit(bs: seq<Block>, n: nat, i: nat): (k: nat)
    requires i <= |bs|
    ensures i <= k <= |bs| && (k < |bs| ==> Fits(bs[k], n)) && forall j :: i <= j < k ==> !Fits(bs[j], n)
    decreases |bs| - i
  {
    if i == |bs| || Fits(bs[i], n) then i else FirstFit(bs, n, i + 1)
  }

  /** What becomes of the block chosen: split if what is left holds a header and 8 bytes, else taken whole. */
  function Pieces(b: Block, n: nat): seq<Block>
    requires b.size >= n
  {
    if b.size - n >= HEADER + ALIGN then [Block(n, true), Block(b.size - n - HEADER, false)] else [Block(b.size, true)]
  }

  function Carve(bs: seq<Block>, i: nat, n: nat): seq<Block>
    requires i < |bs| && Fits(bs[i], n)
  {
    Splice(bs, i, 1, Pieces(bs[i], n))
  }

  lemma {:induction false} PiecesOff(b: Block, n: nat)
    requires b.size >= n
    ensures Off(Pieces(b, n), |Pieces(b, n)|) == HEADER + b.size
  {
    var p := Pieces(b, n);
    assert Off(p, 1) == Off(p, 0) + HEADER + p[0].size;
    if |p| == 2 { assert Off(p, 2) == Off(p, 1) + HEADER + p[1].size; }
  }

  datatype Grant = Refused | Granted(blocks: seq<Block>, i: nat)

  /** The block list after a request, and the index of the block granted. */
  function Malloc(bs: seq<Block>, size: nat): Grant {
    if size == 0 then Refused
    else
      var i := FirstFit(bs, AlignUp(size), 0);
      if i == |bs| then Refused else Granted(Carve(bs, i, AlignUp(size)), i)
  }

  lemma {:induction false} CarveKeepsWf(bs: seq<Block>, i: nat, n: nat)
    requires Wf(bs) && i < |bs| && Fits(bs[i], n) && n % 4 == 0
    ensures Wf(Carve(bs, i, n))
  {
    PiecesOff(bs[i], n);
    SpliceOff(bs, i, 1, Pieces(bs[i], n));
    var p, cs := Pieces(bs[i], n), Carve(bs, i, n);
    assert |cs| == |bs| - 1 + |p| && Off(cs, |bs| - 1 + |p|) == Off(bs, |bs|);
    hide Off;
    PieceSizes(bs[i], n);
    forall k | 0 <= k < |cs| ensures cs[k].size % 4 == 0 {
      assert cs[k] == if k < i then bs[k] else if k < i + |p| then p[k - i] else bs[k + 1 - |p|];
    }
    forall k | 0 <= k < |cs| - 1 ensures Apart(cs, k) { CarveApart(bs, i, n, k); }
  }

  lemma {:induction false} PieceSizes(b: Block, n: nat)
    requires b.size >= n && b.size % 4 == 0 && n % 4 == 0
    ensures forall k :: 0 <= k < |Pieces(b, n)| ==> Pieces(b, n)[k].size % 4 == 0
  {
  }

  lemma {:induction false} CarveApart(bs: seq<Block>, i: nat, n: nat, k: nat)
    requires i < |bs| && Fits(bs[i], n) && (forall j :: 0 <= j < |bs| - 1 ==> Apart(bs, j)) && k < |Carve(bs, i, n)| - 1
    ensures Apart(Carve(bs, i, n), k)
  {
    var p := Pieces(bs[i], n);
    if k + 1 < i {
      assert Apart(bs, k);
    } else if k >= i + |p| {
      assert Apart(bs, k + 1 - |p|);
    } else if k == i + |p| - 1 && |p| == 2 {
      assert Apart(bs, i);
    }
  }

  /** A request succeeds exactly when some free block is large enough, and takes the lowest such block. */
  lemma {:induction false} MallocIsFirstFit(bs: seq<Block>, size: nat)
    ensures Malloc(bs, size).Granted? <==> size > 0 && exists k :: 0 <= k < |bs| && Fits(bs[k], AlignUp(size))
    ensures Malloc(bs, size).Granted? ==>
              var i := Malloc(bs, size).i;
              i < |bs| && Fits(bs[i], AlignUp(size)) && forall k :: 0 <= k < i ==> !Fits(bs[k], AlignUp(size))
  {
  }

  /** The block granted holds the bytes asked for exactly when rounding up did not wrap. */
  lemma {:induction false} GrantHoldsRequest(bs: seq<Block>, size: nat)
    requires Wf(bs) && size < WORD && Malloc(bs, size).Granted?
    ensures var r := Malloc(bs, size);
            r.i < |r.blocks| && r.blocks[r.i].used && (r.blocks[r.i].size >= size <==> size <= 0xFFFF_FFF8)
  {
    var i := Malloc(bs, size).i;
    OffMonotonic(bs, i, |bs|);
    var n := AlignUp(size);
    if size > 0xFFFF_FFF8 { assert n == 0; } else { assert n >= size; }
  }

  // ---- freeing ----

  /** Block i swallows the block after it. */
  function Merge(bs: seq<Block>, i: nat): seq<Block>
    requires i + 1 < |bs|
  {
    Splice(bs, i, 2, [Block(bs[i].size + HEADER + bs[i + 1].size, false)])
  }

  /** Block i is marked free, then merged with a free successor, then with a free predecessor. */
  function Free(bs: seq<Block>, i: nat): seq<Block>
    requires i < |bs|
  {
    var a := bs[i := Block(bs[i].size, false)];
    var b := if i + 1 < |a| && !a[i + 1].used then Merge(a, i) else a;
    if i > 0 && !b[i - 1].used then Merge(b, i - 1) else b
  }

  lemma {:induction false} MergeOff(bs: seq<Block>, i: nat)
    requires i + 1 < |bs|
    ensures var cs := Merge(bs, i);
            && (forall k :: 0 <= k <= i ==> Off(cs, k) == Off(bs, k))
            && (forall k :: i + 2 <= k <= |bs| ==> Off(cs, k - 1) == Off(bs, k))
  {
    var mid := [Block(bs[i].size + HEADER + bs[i + 1].size, false)];
    assert Off(mid, 1) == Off(mid, 0) + HEADER + mid[0].size;
    assert Off(bs, i + 2) == Off(bs, i + 1) + HEADER + bs[i + 1].size;
    SpliceOff(bs, i, 2, mid);
  }

  /** Same sizes, same offsets. */
  lemma {:induction false} OffMark(bs: seq<Block>, i: nat, used: bool, k: nat)
    requires i < |bs| && k <= |bs|
    ensures Off(bs[i := Block(bs[i].size, used)], k) == Off(bs, k)
    decreases k
  {
    if k > 0 { OffMark(bs, i, used, k - 1); }
  }

  /** The tiling without the neighbour condition at block i. */
  ghost predicate AlmostWf(bs: seq<Block>, i: nat) {
    && i < |bs| && !bs[i].used && Off(bs, |bs|) == ARENA
    && (forall k :: 0 <= k < |bs| ==> bs[k].size % 4 == 0)
    && (forall k :: 0 <= k < |bs| - 1 && k != i && k + 1 != i ==> Apart(bs, k))
  }

  lemma {:induction false} MarkAlmost(bs: seq<Block>, i: nat)
    requires Wf(bs) && i < |bs|
    ensures AlmostWf(bs[i := Block(bs[i].size, false)], i)
  {
    OffMark(bs, i, false, |bs|);
    var a := bs[i := Block(bs[i].size, false)];
    forall k | 0 <= k < |a| - 1 && k != i && k + 1 != i ensures Apart(a, k) {
      assert Apart(bs, k);
    }
  }

  lemma {:induction false} SumOfFours(a: nat, b: nat)
    requires a % 4 == 0 && b % 4 == 0
    ensures (a + HEADER + b) % 4 == 0
  {
  }

  lemma {:induction false} MergeAlmost(bs: seq<Block>, i: nat, j: nat)
    requires AlmostWf(bs, i) && j + 1 < |bs| && (j == i || j + 1 == i)
    requires !bs[j].used && !bs[j + 1].used
    ensures AlmostWf(Merge(bs, j), j)
    ensures j > 0 ==> Merge(bs, j)[j - 1] == bs[j - 1]
    ensures j + 2 < |bs| ==> Merge(bs, j)[j + 1] == bs[j + 2]
  {
    MergeOff(bs, j);
    var cs := Merge(bs, j);
    assert Off(cs, |bs| - 1) == Off(bs, |bs|);
    hide Off;
    SumOfFours(bs[j].size, bs[j + 1].size);
    forall k | 0 <= k < |cs| ensures cs[k].size % 4 == 0 {
      assert cs[k] == if k < j then bs[k]
                      else if k == j then Block(bs[j].size + HEADER + bs[j + 1].size, false)
                      else bs[k + 1];
    }
    forall k | 0 <= k < |cs| - 1 && k != j && k + 1 != j ensures Apart(cs, k) {
      if k + 1 < j {
        assert Apart(bs, k);
      } else {
        assert Apart(bs, k + 1);
      }
    }
  }

  lemma {:induction false} AlmostIsWf(bs: seq<Block>, i: nat)
    requires AlmostWf(bs, i) && (i > 0 ==> bs[i - 1].used) && (i + 1 < |bs| ==> bs[i + 1].used)
    ensures Wf(bs)
  {
    forall k | 0 <= k < |bs| - 1 ensures Apart(bs, k) {
    }
  }

  lemma {:induction false} FreeKeepsWf(bs: seq<Block>, i: nat)
    requires Wf(bs) && i < |bs| && bs[i].used
    ensures Wf(Free(bs, i))
  {
    var a := bs[i := Block(bs[i].size, false)];
    MarkAlmost(bs, i);
    NeighboursUsed(bs, i);
    var b := if i + 1 < |a| && !a[i + 1].used then Merge(a, i) else a;
    if i + 1 < |a| && !a[i + 1].used { MergeAlmost(a, i, i); }
    if i > 0 && !b[i - 1].used {
      MergeAlmost(b, i, i - 1);
      AlmostIsWf(Merge(b, i - 1), i - 1);
    } else {
      AlmostIsWf(b, i);
    }
  }

  /** Beyond a free neighbour of a used block, the next block is used. */
  lemma {:induction false} NeighboursUsed(bs: seq<Block>, i: nat)
    requires Wf(bs) && i < |bs|
    ensures i + 2 < |bs| && !bs[i + 1].used ==> bs[i + 2].used
    ensures i >= 2 && !bs[i - 1].used ==> bs[i - 2].used
  {
    if i + 2 < |bs| { assert Apart(bs, i + 1); }
    if i >= 2 { assert Apart(bs, i - 2); }
  }

  /** Freeing what was just granted restores the exact block list, whether or not the block had been split. */
  lemma {:induction false} FreeUndoesMalloc(bs: seq<Block>, size: nat)
    requires Wf(bs) && Malloc(bs, size).Granted?
    ensures var r := Malloc(bs, size); r.i < |r.blocks| && Free(r.blocks, r.i) == bs
  {
    var i, n := Malloc(bs, size).i, AlignUp(size);
    var p, cs := Pieces(bs[i], n), Carve(bs, i, n);
    if i > 0 { assert Apart(bs, i - 1); }
    if i + 1 < |bs| { assert Apart(bs, i); }
    var a := cs[i := Block(cs[i].size, false)];
    if |p| == 2 {
      assert Merge(a, i) == bs;
    } else {
      assert a == bs;
    }
  }
}
