/** What holds of the heap over every run of requests and releases. */
module HeapTheorems {
  import opened HeapBlocks

  // ---- live payloads ----

  function Extent(bs: seq<Block>): nat { Off(bs, |bs|) }

  /** The payloads in use, as (offset, size), of blocks laid out from offset o on. */
  function LiveFrom(bs: seq<Block>, o: nat): set<(nat, nat)>
    decreases |bs|
  {
    if bs == [] then {}
    else
      var n := |bs| - 1;
      LiveFrom(bs[..n], o) + if bs[n].used then {(o + Payload(bs, n), bs[n].size)} else {}
  }

  function Live(bs: seq<Block>): set<(nat, nat)> { LiveFrom(bs, 0) }

  lemma {:induction false} OffTake(bs: seq<Block>, n: nat, k: nat)
    requires k <= n <= |bs|
    ensures Off(bs[..n], k) == Off(bs, k)
  {
    assert bs[..n][..k] == bs[..k];
    OffPrefix(bs[..n], bs, k);
  }

  /** Block i is used, and its payload, counted from o, is s bytes at p. */
  predicate HoldsAt(bs: seq<Block>, o: nat, i: nat, p: nat, s: nat) {
    i < |bs| && bs[i].used && p == o + Payload(bs, i) && s == bs[i].size
  }

  /** A live payload is the payload of a used block. */
  lemma {:induction false} LiveIsUsed(bs: seq<Block>, o: nat, p: nat, s: nat)
    ensures (p, s) in LiveFrom(bs, o) <==> exists i: nat :: HoldsAt(bs, o, i, p, s)
    decreases |bs|
  {
    if bs != [] {
      var n := |bs| - 1;
      LiveIsUsed(bs[..n], o, p, s);
      forall i: nat | i < n ensures HoldsAt(bs[..n], o, i, p, s) <==> HoldsAt(bs, o, i, p, s) { OffTake(bs, n, i); }
      LiveLast(bs, o, p, s);
      hide LiveFrom, HoldsAt;
      if (p, s) in LiveFrom(bs[..n], o) {
        var i: nat :| HoldsAt(bs[..n], o, i, p, s);
        HoldsWithin(bs[..n], o, i, p, s);
        assert HoldsAt(bs, o, i, p, s);
      }
      if i: nat :| HoldsAt(bs, o, i, p, s) {
        HoldsWithin(bs, o, i, p, s);
        if i < n { assert HoldsAt(bs[..n], o, i, p, s); }
      }
    }
  }

  lemma {:induction false} HoldsWithin(bs: seq<Block>, o: nat, i: nat, p: nat, s: nat)
    requires HoldsAt(bs, o, i, p, s)
    ensures i < |bs|
  {
  }

  lemma {:induction false} LiveLast(bs: seq<Block>, o: nat, p: nat, s: nat)
    requires bs != []
    ensures (p, s) in LiveFrom(bs, o) <==> (p, s) in LiveFrom(bs[..|bs| - 1], o) || HoldsAt(bs, o, |bs| - 1, p, s)
  {
    hide Off;
  }

  lemma {:induction false} LiveConcat(a: seq<Block>, b: seq<Block>, o: nat)
    ensures LiveFrom(a + b, o) == LiveFrom(a, o) + LiveFrom(b, o + Extent(a))
    decreases |b|
  {
    if b == [] {
      assert a + b == a;
    } else {
      var n := |b| - 1;
      LiveConcat(a, b[..n], o);
      assert (a + b)[..|a| + n] == a + b[..n];
      assert (a + b)[..|a|] == a;
      OffTake(a + b, |a|, |a|);
      assert (a + b)[|a|..|a| + n] == b[0..n];
      OffSuffix(a + b, b, |a|, 0, n);
    }
  }

  lemma {:induction false} LiveBounds(bs: seq<Block>, o: nat, p: nat, s: nat)
    requires (p, s) in LiveFrom(bs, o)
    ensures o + HEADER <= p && p + s <= o + Extent(bs)
  {
    LiveIsUsed(bs, o, p, s);
    var i: nat :| HoldsAt(bs, o, i, p, s);
    OffMonotonic(bs, i, |bs|);
  }

  /** Two live payloads never overlap: a header separates them. */
  lemma {:induction false} LivePayloadsDisjoint(bs: seq<Block>, p: nat, s: nat, q: nat, t: nat)
    requires (p, s) in Live(bs) && (q, t) in Live(bs)
    ensures (p, s) == (q, t) || p + s + HEADER <= q || q + t + HEADER <= p
  {
    LiveIsUsed(bs, 0, p, s);
    LiveIsUsed(bs, 0, q, t);
    hide LiveFrom, Extent;
    var i: nat :| HoldsAt(bs, 0, i, p, s);
    var j: nat :| HoldsAt(bs, 0, j, q, t);
    if i < j { OffMonotonic(bs, i, j); }
    if j < i { OffMonotonic(bs, j, i); }
  }

  /** Every live payload lies inside the slab, on a word boundary. */
  lemma {:induction false} LivePayloadsInside(bs: seq<Block>, p: nat, s: nat)
    requires Wf(bs) && (p, s) in Live(bs)
    ensures HEADER <= p && p + s <= ARENA && p % 4 == 0 && s % 4 == 0
  {
    LiveBounds(bs, 0, p, s);
    LiveIsUsed(bs, 0, p, s);
    hide LiveFrom;
    var i: nat :| HoldsAt(bs, 0, i, p, s);
    OffAligned(bs, i);
  }

  /** Replacing blocks by others with the same extent and the same live payloads changes no live payload. */
  lemma {:induction false} SpliceLive(bs: seq<Block>, i: nat, m: nat, mid: seq<Block>)
    requires i + m <= |bs| && Extent(mid) == Extent(bs[i..i + m])
    ensures Live(Splice(bs, i, m, mid)) == LiveFrom(bs[..i], 0) + LiveFrom(mid, Off(bs, i))
            + LiveFrom(bs[i + m..], Off(bs, i + m))
    ensures Live(bs) == LiveFrom(bs[..i], 0) + LiveFrom(bs[i..i + m], Off(bs, i))
            + LiveFrom(bs[i + m..], Off(bs, i + m))
    ensures Extent(bs[i..i + m]) == Off(bs, i + m) - Off(bs, i)
  {
    hide LiveFrom, Off, Extent;
    var l, x, r := bs[..i], bs[i..i + m], bs[i + m..];
    PieceExtents(bs, i, m);
    LiveThree(l, x, r);
    LiveThree(l, mid, r);
    assert bs == l + x + r;
  }

  lemma {:induction false} PieceExtents(bs: seq<Block>, i: nat, m: nat)
    requires i + m <= |bs|
    ensures Extent(bs[..i]) == Off(bs, i) && Extent(bs[i..i + m]) == Off(bs, i + m) - Off(bs, i)
  {
    var x := bs[i..i + m];
    assert Off(x, 0) == 0;
    hide Off;
    OffTake(bs, i, i);
    assert bs[i..i + m] == x[0..m];
    OffSuffix(bs, x, i, 0, m);
  }

  lemma {:induction false} LiveThree(l: seq<Block>, x: seq<Block>, r: seq<Block>)
    ensures Live(l + x + r) == LiveFrom(l, 0) + LiveFrom(x, Extent(l)) + LiveFrom(r, Extent(l) + Extent(x))
  {
    hide LiveFrom, Extent;
    ExtentConcat(l, x);
    LiveConcat(l + x, r, 0);
    LiveConcat(l, x, 0);
  }

  lemma {:induction false} ExtentConcat(a: seq<Block>, b: seq<Block>)
    ensures Extent(a + b) == Extent(a) + Extent(b)
  {
    assert (a + b)[..|a|] == a;
    OffTake(a + b, |a|, |a|);
    assert (a + b)[|a|..|a| + |b|] == b[0..|b|];
    OffSuffix(a + b, b, |a|, 0, |b|);
  }

  lemma {:induction false} LiveOne(b: Block, o: nat)
    ensures LiveFrom([b], o) == if b.used then {(o + HEADER, b.size)} else {}
    ensures Extent([b]) == HEADER + b.size
  {
    assert [b][..0] == [];
    assert Off([b], 1) == Off([b], 0) + HEADER + b.size;
  }

  lemma {:induction false} LiveTwo(a: Block, b: Block, o: nat)
    ensures LiveFrom([a, b], o) == LiveFrom([a], o) + LiveFrom([b], o + HEADER + a.size)
    ensures Extent([a, b]) == 2 * HEADER + a.size + b.size
  {
    assert [a, b] == [a] + [b];
    LiveOne(a, o);
    LiveOne(b, o);
    LiveConcat([a], [b], o);
    ExtentConcat([a], [b]);
  }

  /** A grant adds exactly one live payload and moves none. */
  lemma {:induction false} MallocAddsOne(bs: seq<Block>, size: nat)
    requires Malloc(bs, size).Granted?
    ensures var r := Malloc(bs, size);
            && r.i < |bs| && r.i < |r.blocks| && Payload(r.blocks, r.i) == Payload(bs, r.i) && r.blocks[r.i].used
            && Live(r.blocks) == Live(bs) + {(Payload(bs, r.i), r.blocks[r.i].size)}
  {
    hide LiveFrom, AlignUp, FirstFit, Pieces, Carve;
    CarveAddsOne(bs, Malloc(bs, size).i, AlignUp(size));
  }

  lemma {:induction false} CarveAddsOne(bs: seq<Block>, i: nat, n: nat)
    requires i < |bs| && Fits(bs[i], n)
    ensures var cs := Carve(bs, i, n);
            && i < |cs| && Payload(cs, i) == Payload(bs, i) && cs[i].used
            && Live(cs) == Live(bs) + {(Payload(bs, i), cs[i].size)}
  {
    var p := Pieces(bs[i], n);
    PiecesLive(bs[i], n, Off(bs, i));
    assert bs[i..i + 1] == [bs[i]];
    LiveOne(bs[i], Off(bs, i));
    OffNext(bs, i);
    hide LiveFrom, Pieces, Off;
    SpliceLive(bs, i, 1, p);
    SpliceOff(bs, i, 1, p);
    assert Off(Carve(bs, i, n), i) == Off(bs, i);
  }

  lemma {:induction false} OffNext(bs: seq<Block>, i: nat)
    requires i < |bs|
    ensures Off(bs, i + 1) == Off(bs, i) + HEADER + bs[i].size && Extent([bs[i]]) == HEADER + bs[i].size
  {
    assert Off([bs[i]], 1) == Off([bs[i]], 0) + HEADER + bs[i].size;
  }

  lemma {:induction false} PiecesLive(b: Block, n: nat, o: nat)
    requires b.size >= n
    ensures var p := Pieces(b, n);
            |p| > 0 && p[0].used && LiveFrom(p, o) == {(o + HEADER, p[0].size)} && Extent(p) == HEADER + b.size
  {
    var p := Pieces(b, n);
    LiveOne(p[0], o);
    if |p| == 2 {
      LiveTwo(p[0], p[1], o);
      LiveOne(p[1], o + HEADER + p[0].size);
    } else {
      assert p == [p[0]];
    }
  }

  lemma {:induction false} MergeLive(bs: seq<Block>, i: nat)
    requires i + 1 < |bs| && !bs[i].used && !bs[i + 1].used
    ensures Live(Merge(bs, i)) == Live(bs)
  {
    var m := Block(bs[i].size + HEADER + bs[i + 1].size, false);
    assert bs[i..i + 2] == [bs[i], bs[i + 1]];
    LiveTwo(bs[i], bs[i + 1], Off(bs, i));
    LiveOne(bs[i], Off(bs, i));
    LiveOne(bs[i + 1], Off(bs, i) + HEADER + bs[i].size);
    LiveOne(m, Off(bs, i));
    SpliceLive(bs, i, 2, [m]);
  }

  lemma {:induction false} MarkLive(bs: seq<Block>, i: nat)
    requires i < |bs| && bs[i].used
    ensures Live(bs[i := Block(bs[i].size, false)]) == Live(bs) - {(Payload(bs, i), bs[i].size)}
  {
    var m := Block(bs[i].size, false);
    assert bs[i..i + 1] == [bs[i]];
    LiveOne(bs[i], Off(bs, i));
    LiveOne(m, Off(bs, i));
    SpliceLive(bs, i, 1, [m]);
    assert bs[i := m] == Splice(bs, i, 1, [m]);
    var x := (Payload(bs, i), bs[i].size);
    OffTake(bs, i, i);
    if x in LiveFrom(bs[..i], 0) { LiveBounds(bs[..i], 0, x.0, x.1); }
    if x in LiveFrom(bs[i + 1..], Off(bs, i + 1)) { LiveBounds(bs[i + 1..], Off(bs, i + 1), x.0, x.1); }
  }

  /** A release removes exactly the payload released and moves none. */
  lemma {:induction false} FreeRemovesOne(bs: seq<Block>, i: nat)
    requires Wf(bs) && i < |bs| && bs[i].used
    ensures Live(Free(bs, i)) == Live(bs) - {(Payload(bs, i), bs[i].size)}
  {
    var a := bs[i := Block(bs[i].size, false)];
    MarkLive(bs, i);
    var b := if i + 1 < |a| && !a[i + 1].used then Merge(a, i) else a;
    if i + 1 < |a| && !a[i + 1].used { MergeLive(a, i); }
    if i > 0 && !b[i - 1].used { MergeLive(b, i - 1); }
  }

  // ---- the empty heap ----

  /** With nothing in use, the heap is the one block it started as. */
  lemma {:induction false} NothingLiveIsInitial(bs: seq<Block>)
    requires Wf(bs) && Live(bs) == {}
    ensures bs == INITIAL
  {
    forall i | 0 <= i < |bs| ensures !bs[i].used {
      LiveIsUsed(bs, 0, Payload(bs, i), bs[i].size);
      assert HoldsAt(bs, 0, i, Payload(bs, i), bs[i].size) <==> bs[i].used;
    }
    assert |bs| > 1 ==> Apart(bs, 0);
    assert Off(bs, 1) == Off(bs, 0) + HEADER + bs[0].size;
  }

  /** The used block with payload offset p, or the length of the list. */
  function Find(bs: seq<Block>, p: nat, i: nat): (k: nat)
    requires i <= |bs|
    ensures i <= k <= |bs| && (k < |bs| ==> bs[k].used && Payload(bs, k) == p)
    ensures k == |bs| ==> forall j :: i <= j < |bs| ==> !bs[j].used || Payload(bs, j) != p
    decreases |bs| - i
  {
    if i == |bs| || (bs[i].used && Payload(bs, i) == p) then i else Find(bs, p, i + 1)
  }

  /** Release the payload at offset p, if there is one in use there. */
  function Release(bs: seq<Block>, p: nat): seq<Block> {
    var i := Find(bs, p, 0);
    if i == |bs| then bs else Free(bs, i)
  }

  function Offsets(bs: seq<Block>): set<nat> { set x | x in Live(bs) :: x.0 }

  lemma {:induction false} LiveHasOffset(bs: seq<Block>)
    ensures Live(bs) != {} ==> Offsets(bs) != {}
  {
    if Live(bs) != {} {
      var x :| x in Live(bs);
      assert x.0 in Offsets(bs);
    }
  }

  lemma {:induction false} ReleaseKeepsWf(bs: seq<Block>, p: nat)
    requires Wf(bs)
    ensures Wf(Release(bs, p)) && Offsets(Release(bs, p)) == Offsets(bs) - {p}
    ensures Live(Release(bs, p)) == set x | x in Live(bs) && x.0 != p
  {
    hide LiveFrom, Free, Wf, Off;
    var i := Find(bs, p, 0);
    if i < |bs| {
      FreeKeepsWf(bs, i);
      FreeRemovesOne(bs, i);
      LiveIsUsed(bs, 0, p, bs[i].size);
      assert HoldsAt(bs, 0, i, p, bs[i].size);
      forall x | x in Live(bs) && x.0 == p ensures x == (p, bs[i].size) {
        LivePayloadsDisjoint(bs, x.0, x.1, p, bs[i].size);
      }
    } else {
      forall x | x in Live(bs) ensures x.0 != p {
        LiveIsUsed(bs, 0, x.0, x.1);
        var j: nat :| HoldsAt(bs, 0, j, x.0, x.1);
      }
    }
  }

  function ReleaseAll(bs: seq<Block>, ps: seq<nat>): seq<Block>
    decreases |ps|
  {
    if ps == [] then bs else ReleaseAll(Release(bs, ps[0]), ps[1..])
  }

  /** Releasing every payload in use, in any order, brings back the initial heap. */
  lemma {:induction false} AnyOrderEmpties(bs: seq<Block>, ps: seq<nat>)
    requires Wf(bs) && forall p :: p in Offsets(bs) ==> p in ps
    ensures ReleaseAll(bs, ps) == INITIAL
    decreases |ps|
  {
    if ps == [] {
      LiveHasOffset(bs);
      NothingLiveIsInitial(bs);
    } else {
      ReleaseKeepsWf(bs, ps[0]);
      AnyOrderEmpties(Release(bs, ps[0]), ps[1..]);
    }
  }

  // ---- statistics ----

  datatype Stats = Stats(total: nat, usedBytes: nat, freeBytes: nat, blocks: nat, usedBlocks: nat, freeBlocks: nat,
                         largestFree: nat)

  /** The statistics of the first n blocks. */
  function StatsOf(bs: seq<Block>, n: nat): Stats
    requires n <= |bs|
  {
    if n == 0 then Stats(ARENA, 0, 0, 0, 0, 0, 0)
    else
      var s, b := StatsOf(bs, n - 1), bs[n - 1];
      if b.used then s.(blocks := s.blocks + 1, usedBytes := s.usedBytes + b.size, usedBlocks := s.usedBlocks + 1)
      else s.(blocks := s.blocks + 1, freeBytes := s.freeBytes + b.size, freeBlocks := s.freeBlocks + 1,
              largestFree := if b.size > s.largestFree then b.size else s.largestFree)
  }

  /** Used bytes, free bytes and headers add up to the offset reached. */
  lemma {:induction false} StatsAddUp(bs: seq<Block>, n: nat)
    requires n <= |bs|
    ensures var s := StatsOf(bs, n);
            && s.usedBytes + s.freeBytes + HEADER * s.blocks == Off(bs, n)
            && s.blocks == n && s.usedBlocks + s.freeBlocks == n && s.total == ARENA
            && (forall k :: 0 <= k < n && !bs[k].used ==> bs[k].size <= s.largestFree)
            && (s.freeBlocks > 0 ==> exists k :: 0 <= k < n && !bs[k].used && bs[k].size == s.largestFree)
            && (s.freeBlocks == 0 ==> s.largestFree == 0)
  {
    if n > 0 {
      StatsAddUp(bs, n - 1);
      var s := StatsOf(bs, n - 1);
      if !bs[n - 1].used && bs[n - 1].size > s.largestFree {
        assert bs[n - 1].size == StatsOf(bs, n).largestFree;
      } else if !bs[n - 1].used && s.freeBlocks == 0 {
        assert bs[n - 1].size == StatsOf(bs, n).largestFree;
      }
    }
  }

  /**
   * The reported totals account for every byte of the slab, and the largest free block decides which requests succeed.
   */
  lemma {:induction false} StatsAreExact(bs: seq<Block>, size: nat)
    requires Wf(bs) && size > 0
    ensures var s := StatsOf(bs, |bs|);
            && s.usedBytes + s.freeBytes + HEADER * s.blocks == s.total
            && (Malloc(bs, size).Granted? <==> s.freeBlocks > 0 && AlignUp(size) <= s.largestFree)
  {
    StatsAddUp(bs, |bs|);
    MallocIsFirstFit(bs, size);
    var s := StatsOf(bs, |bs|);
    if s.freeBlocks == 0 {
      NoneFree(bs, |bs|);
    }
  }

  lemma {:induction false} NoneFree(bs: seq<Block>, n: nat)
    requires n <= |bs| && StatsOf(bs, n).freeBlocks == 0
    ensures forall k :: 0 <= k < n ==> bs[k].used
  {
    if n > 0 { NoneFree(bs, n - 1); }
  }

  // ---- alignment ----

  /** Payload addresses are multiples of 4; of 8 exactly when the header chosen sits 4 past a multiple of 8. */
  lemma {:induction false} PayloadAlignment(bs: seq<Block>, base: nat, size: nat)
    requires Wf(bs) && base % 8 == 0 && Malloc(bs, size).Granted?
    ensures var r := Malloc(bs, size);
            && r.i == FirstFit(bs, AlignUp(size), 0) < |bs| && r.i < |r.blocks|
            && (base + Payload(r.blocks, r.i)) % 4 == 0
            && ((base + Payload(r.blocks, r.i)) % 8 == 0 <==> Off(bs, FirstFit(bs, AlignUp(size), 0)) % 8 == 4)
  {
    assert Malloc(bs, size).i == FirstFit(bs, AlignUp(size), 0);
    hide Malloc, LiveFrom, Apart, Wf, Off, FirstFit, AlignUp;
    MallocAddsOne(bs, size);
    var o := Off(bs, Malloc(bs, size).i);
    WfOffAligned(bs, Malloc(bs, size).i);
    HeaderShift(base, o);
  }

  lemma {:induction false} WfOffAligned(bs: seq<Block>, i: nat)
    requires Wf(bs) && i <= |bs|
    ensures Off(bs, i) % 4 == 0
  {
    OffAligned(bs, i);
  }

  lemma {:induction false} HeaderShift(base: nat, o: nat)
    requires base % 8 == 0 && o % 4 == 0
    ensures (base + (o + HEADER)) % 4 == 0 && ((base + (o + HEADER)) % 8 == 0 <==> o % 8 == 4)
  {
    var m, k := base / 8, o / 4;
    assert base == 8 * m && o == 4 * k;
    FourTimes(2 * m + k + 5);
    FourTimes(k);
    Parity(m, k);
    assert base + (o + HEADER) == 4 * (2 * m + k + 5);
  }

  lemma {:induction false} FourTimes(j: nat)
    ensures (4 * j) % 4 == 0 && (4 * j) % 8 == 4 * (j % 2)
  {
    assert j == 2 * (j / 2) + j % 2;
    Fours(j);
    if j % 2 == 0 { Eights(j / 2); } else { EightsAndFour(j / 2); }
  }

  lemma {:induction false} Fours(q: nat)
    ensures (4 * q) % 4 == 0
  {
  }

  lemma {:induction false} Eights(q: nat)
    ensures (8 * q) % 8 == 0
  {
  }

  lemma {:induction false} EightsAndFour(q: nat)
    ensures (8 * q + 4) % 8 == 4
  {
  }

  lemma {:induction false} Parity(m: nat, k: nat)
    ensures (2 * m + k + 5) % 2 == 0 <==> k % 2 == 1
  {
  }

  /** The very first request is answered with an address that is not a multiple of 8. */
  lemma {:induction false} FirstGrantMisaligned(base: nat, size: nat)
    requires base % 8 == 0 && Malloc(INITIAL, size).Granted?
    ensures var r := Malloc(INITIAL, size); r.i < |r.blocks| && (base + Payload(r.blocks, r.i)) % 8 == 4
  {
    InitialWf();
    OneBlockMisaligned(INITIAL, base, size);
  }

  lemma {:induction false} OneBlockMisaligned(bs: seq<Block>, base: nat, size: nat)
    requires Wf(bs) && |bs| == 1 && base % 8 == 0 && Malloc(bs, size).Granted?
    ensures var r := Malloc(bs, size); r.i < |r.blocks| && (base + Payload(r.blocks, r.i)) % 8 == 4
  {
    OffNone(bs);
    hide Malloc, Wf, Off, FirstFit, AlignUp;
    PayloadAlignment(bs, base, size);
    var r := Malloc(bs, size);
    FourOrNone(base + Payload(r.blocks, r.i));
  }

  lemma {:induction false} FourOrNone(x: nat)
    requires x % 4 == 0 && x % 8 != 0
    ensures x % 8 == 4
  {
    FourTimes(x / 4);
    assert x == 4 * (x / 4);
  }

  /** A request for 2^32 - 1 bytes is rounded to none and granted. */
  lemma {:induction false} WrappedGrant()
    ensures var r := Malloc(INITIAL, WORD - 1); r.Granted? && r.i < |r.blocks| && r.blocks[r.i].size < WORD - 1
  {
    assert AlignUp(WORD - 1) == 0;
    assert FirstFit(INITIAL, 0, 0) == 0;
    InitialWf();
    GrantHoldsRequest(INITIAL, WORD - 1);
  }

  // ---- runs ----

  datatype Request = Ask(size: nat) | GiveBack(p: nat)

  function Serve(bs: seq<Block>, q: Request): seq<Block> {
    match q
    case Ask(size) => if Malloc(bs, size).Granted? then Malloc(bs, size).blocks else bs
    case GiveBack(p) => Release(bs, p)
  }

  function ServeAll(bs: seq<Block>, qs: seq<Request>): seq<Block>
    decreases |qs|
  {
    if qs == [] then bs else Serve(ServeAll(bs, qs[..|qs| - 1]), qs[|qs| - 1])
  }

  /** After any run from the initial heap the blocks tile the slab with no two free neighbours. */
  lemma {:induction false} EveryRunIsWf(qs: seq<Request>)
    ensures Wf(ServeAll(INITIAL, qs))
    decreases |qs|
  {
    if qs == [] {
      InitialWf();
    } else {
      EveryRunIsWf(qs[..|qs| - 1]);
      ServeKeepsWf(ServeAll(INITIAL, qs[..|qs| - 1]), qs[|qs| - 1]);
    }
  }

  lemma {:induction false} MallocKeepsWf(bs: seq<Block>, size: nat)
    requires Wf(bs) && Malloc(bs, size).Granted?
    ensures Wf(Malloc(bs, size).blocks)
  {
    hide Wf, Carve, Fits, AlignUp;
    AlignedUp(size);
    CarveKeepsWf(bs, Malloc(bs, size).i, AlignUp(size));
  }

  lemma {:induction false} AlignedUp(size: nat)
    ensures AlignUp(size) % 4 == 0
  {
  }

  lemma {:induction false} ServeKeepsWf(bs: seq<Block>, q: Request)
    requires Wf(bs)
    ensures Wf(Serve(bs, q))
  {
    hide Wf, Malloc, Release;
    match q
    case Ask(size) => if Malloc(bs, size).Granted? { MallocKeepsWf(bs, size); }
    case GiveBack(p) => ReleaseKeepsWf(bs, p);
  }
}
