/** What the statistics mean: they count the live payloads, and follow every request and release. */
module HeapStats {
  import opened HeapBlocks
  import opened HeapTheorems

  // ---- the sizes of a set of payloads ----

  ghost function Total(live: set<(nat, nat)>): nat {
    if live == {} then 0 else var p :| p in live; p.1 + Total(live - {p})
  }

  lemma {:induction false} TotalWithout(live: set<(nat, nat)>, p: (nat, nat))
    requires p in live
    ensures Total(live) == Total(live - {p}) + p.1
    decreases |live|
  {
    var q :| q in live && Total(live) == q.1 + Total(live - {q});
    if q != p {
      TotalWithout(live - {q}, p);
      TotalWithout(live - {p}, q);
      assert live - {q} - {p} == live - {p} - {q};
    }
  }

  lemma {:induction false} TotalWith(live: set<(nat, nat)>, p: (nat, nat))
    requires p !in live
    ensures Total(live + {p}) == Total(live) + p.1 && |live + {p}| == |live| + 1
  {
    assert (live + {p}) - {p} == live;
    TotalWithout(live + {p}, p);
  }

  // ---- the statistics ----

  /** Used bytes and used blocks are those of the payloads in use. */
  lemma {:induction false} StatsCountLive(bs: seq<Block>, n: nat)
    requires n <= |bs|
    ensures var s, live := StatsOf(bs, n), LiveFrom(bs[..n], 0); s.usedBytes == Total(live) && s.usedBlocks == |live|
    decreases n
  {
    hide Total, LiveFrom, Off;
    if n == 0 {
      NoneLive(bs);
    } else {
      StatsCountLive(bs, n - 1);
      var cs := bs[..n];
      assert cs[..n - 1] == bs[..n - 1] && cs[n - 1] == bs[n - 1];
      OneMoreLive(cs);
      if bs[n - 1].used {
        BehindAll(cs, n - 1);
        TotalWith(LiveFrom(cs[..n - 1], 0), (Payload(cs, n - 1), cs[n - 1].size));
      }
    }
  }

  lemma {:induction false} NoneLive(bs: seq<Block>)
    ensures LiveFrom(bs[..0], 0) == {} && Total({}) == 0
  {
  }

  lemma {:induction false} OneMoreLive(bs: seq<Block>)
    requires bs != []
    ensures var n := |bs| - 1;
            LiveFrom(bs, 0) == LiveFrom(bs[..n], 0) + if bs[n].used then {(Payload(bs, n), bs[n].size)} else {}
  {
  }

  /** The payload of a block is none of those of the blocks before it. */
  lemma {:induction false} BehindAll(bs: seq<Block>, n: nat)
    requires n < |bs|
    ensures (Payload(bs, n), bs[n].size) !in LiveFrom(bs[..n], 0)
  {
    var p, s := Payload(bs, n), bs[n].size;
    LiveIsUsed(bs[..n], 0, p, s);
    if i: nat :| HoldsAt(bs[..n], 0, i, p, s) {
      OffTake(bs, n, i);
      OffMonotonic(bs, i, n);
      PayloadsApart(bs, i, n);
    }
  }

  lemma {:induction false} PayloadsApart(bs: seq<Block>, i: nat, k: nat)
    requires i < k < |bs|
    ensures Payload(bs, i) < Payload(bs, k)
    decreases k
  {
    if i < k - 1 { PayloadsApart(bs, i, k - 1); }
  }

  /** A payload that is not in use is not counted. */
  lemma {:induction false} FreeIsNotLive(bs: seq<Block>, i: nat, s: nat)
    requires i < |bs| && !bs[i].used
    ensures (Payload(bs, i), s) !in Live(bs)
  {
    LiveIsUsed(bs, 0, Payload(bs, i), s);
    if k: nat :| HoldsAt(bs, 0, k, Payload(bs, i), s) {
      if k < i { PayloadsApart(bs, k, i); } else if i < k { PayloadsApart(bs, i, k); }
    }
  }

  lemma {:induction false} WholeList(bs: seq<Block>)
    ensures var s := StatsOf(bs, |bs|); s.usedBytes == Total(Live(bs)) && s.usedBlocks == |Live(bs)|
  {
    assert bs[..|bs|] == bs;
    StatsCountLive(bs, |bs|);
  }

  /** The size of the block a request is granted. */
  lemma {:induction false} GrantSize(bs: seq<Block>, size: nat)
    requires Malloc(bs, size).Granted? && size <= 0xFFFF_FFF8
    ensures var r := Malloc(bs, size);
            var want := (size + 7) / 8 * 8;
            && r.i < |bs| && r.i < |r.blocks| && bs[r.i].size >= want
            && r.blocks[r.i].size == (if bs[r.i].size >= want + 28 then want else bs[r.i].size)
            && size <= r.blocks[r.i].size <= size + 34
  {
    Rounded(size);
  }

  lemma {:induction false} Rounded(size: nat)
    requires size <= 0xFFFF_FFF8
    ensures AlignUp(size) == (size + 7) / 8 * 8 && size <= AlignUp(size) <= size + 7
  {
  }

  /** The statistics of a fresh heap: nothing used, one free block of all but its header. */
  lemma {:induction false} FreshStats()
    ensures StatsOf(INITIAL, |INITIAL|) == Stats(262144, 0, 262124, 1, 0, 1, 262124)
  {
    assert StatsOf(INITIAL, 0) == Stats(262144, 0, 0, 0, 0, 0, 0);
  }

  /** A request that is granted raises the used bytes by the size granted, and the used blocks by one. */
  lemma {:induction false} MallocCounts(bs: seq<Block>, size: nat)
    requires Malloc(bs, size).Granted?
    ensures var r := Malloc(bs, size);
            var s, s' := StatsOf(bs, |bs|), StatsOf(r.blocks, |r.blocks|);
            && r.i < |r.blocks| && s'.usedBytes == s.usedBytes + r.blocks[r.i].size && s'.usedBlocks == s.usedBlocks + 1
  {
    hide LiveFrom, FirstFit, Carve, StatsOf, Total;
    var r := Malloc(bs, size);
    MallocAddsOne(bs, size);
    MallocIsFirstFit(bs, size);
    WholeList(bs);
    WholeList(r.blocks);
    FreeIsNotLive(bs, r.i, r.blocks[r.i].size);
    TotalWith(Live(bs), (Payload(bs, r.i), r.blocks[r.i].size));
  }

  /** A release lowers the used bytes by the size released, and the used blocks by one. */
  lemma {:induction false} FreeCounts(bs: seq<Block>, i: nat)
    requires Wf(bs) && i < |bs| && bs[i].used
    ensures var s, s' := StatsOf(bs, |bs|), StatsOf(Free(bs, i), |Free(bs, i)|);
            s'.usedBytes == s.usedBytes - bs[i].size && s'.usedBlocks == s.usedBlocks - 1
  {
    hide LiveFrom, Free, StatsOf, Total, Wf;
    var p := (Payload(bs, i), bs[i].size);
    FreeRemovesOne(bs, i);
    WholeList(bs);
    WholeList(Free(bs, i));
    LiveIsUsed(bs, 0, p.0, p.1);
    assert HoldsAt(bs, 0, i, p.0, p.1);
    TotalWithout(Live(bs), p);
    assert |Live(bs) - {p}| == |Live(bs)| - 1;
  }
}
