/** The file allocation table as a sequence of 28-bit links: allocation, linking and freeing. */
module FatChains {
  const END_OF_CHAIN: nat := 0x0FFF_FFFF
  const LINK_RANGE: nat := 0x1000_0000
  /** Cluster numbers stay below the reserved and end-of-chain values. */
  const MAX_ENTRIES: nat := 0x0FFF_FFF0

  predicate Eoc(x: nat) { x % LINK_RANGE >= 0x0FFF_FFF8 }

  predicate FatOk(fat: seq<nat>) {
    && 2 <= |fat| <= MAX_ENTRIES
    && forall c :: 0 <= c < |fat| ==> fat[c] < LINK_RANGE
  }

  /** c is the number of a data cluster. */
  predicate Inside(fat: seq<nat>, c: nat) { 2 <= c < |fat| }

  /** Every link stays in range, stops below 2, or ends a chain. */
  predicate Closed(fat: seq<nat>) {
    forall c :: 2 <= c < |fat| ==> fat[c] < |fat| || Eoc(fat[c])
  }

  predicate Distinct(ch: seq<nat>) { forall i, j :: 0 <= i < j < |ch| ==> ch[i] != ch[j] }

  predicate InRange(fat: seq<nat>, ch: seq<nat>) { forall i :: 0 <= i < |ch| ==> Inside(fat, ch[i]) }

  /** ch follows the links from ch[0] to an end-of-chain mark. */
  predicate IsChain(fat: seq<nat>, ch: seq<nat>) {
    && |ch| > 0
    && InRange(fat, ch)
    && (forall i {:trigger fat[ch[i]]} :: 0 <= i < |ch| - 1 ==> fat[ch[i]] == ch[i + 1])
    && Eoc(fat[ch[|ch| - 1]])
  }

  // ---- chains are acyclic ----

  lemma {:induction false} ChainStep(fat: seq<nat>, ch: seq<nat>, i: nat, j: nat)
    requires FatOk(fat) && IsChain(fat, ch) && i < j < |ch|
    ensures ch[i] != ch[j]
    decreases |ch| - j
  {
    if j + 1 < |ch| {
      ChainStep(fat, ch, i + 1, j + 1);
      assert fat[ch[i]] != fat[ch[j]];
    } else {
      assert Inside(fat, ch[i + 1]);
    }
  }

  /** A chain that reaches end-of-chain never visits a cluster twice. */
  lemma {:induction false} ChainIsAcyclic(fat: seq<nat>, ch: seq<nat>)
    requires FatOk(fat) && IsChain(fat, ch)
    ensures Distinct(ch)
  {
    forall i, j | 0 <= i < j < |ch| ensures ch[i] != ch[j] {
      ChainStep(fat, ch, i, j);
    }
  }

  /** The elements of a sequence, as a set. */
  function Elems(ch: seq<nat>): set<nat> { set x | x in ch }

  lemma {:induction false} DistinctCard(ch: seq<nat>)
    requires Distinct(ch)
    ensures |Elems(ch)| == |ch|
  {
    if ch != [] {
      var n := |ch| - 1;
      DistinctCard(ch[..n]);
      assert Elems(ch) == Elems(ch[..n]) + {ch[n]};
    }
  }

  function Below(n: nat): (s: set<nat>)
    ensures |s| == n
    ensures forall x :: x in s <==> 0 <= x < n
  {
    if n == 0 then {} else Below(n - 1) + {n - 1}
  }

  lemma {:induction false} DistinctLength(ch: seq<nat>, n: nat)
    requires Distinct(ch) && forall i :: 0 <= i < |ch| ==> ch[i] < n
    ensures |ch| <= n
  {
    DistinctCard(ch);
    SubsetCard(Elems(ch), Below(n));
  }

  lemma {:induction false} SubsetCard<T>(a: set<T>, b: set<T>)
    requires a <= b
    ensures |a| <= |b|
    ensures |a| == |b| ==> a == b
  {
    assert b == a + (b - a);
    assert |b| == |a| + |b - a|;
  }

  /** The clusters met from c, at most fuel of them. */
  function Follow(fat: seq<nat>, c: nat, fuel: nat): seq<nat>
    decreases fuel
  {
    if fuel == 0 || !Inside(fat, c) then [] else [c] + Follow(fat, fat[c], fuel - 1)
  }

  /** The chain that starts at s. */
  function ChainOf(fat: seq<nat>, s: nat): seq<nat> { Follow(fat, s, |fat|) }

  lemma {:induction false} FollowChain(fat: seq<nat>, ch: seq<nat>, fuel: nat)
    requires FatOk(fat) && IsChain(fat, ch) && |ch| <= fuel
    ensures Follow(fat, ch[0], fuel) == ch
  {
    if |ch| > 1 {
      FollowChain(fat, ch[1..], fuel - 1);
    } else {
      assert Follow(fat, fat[ch[0]], fuel - 1) == [];
    }
  }

  /** A chain is determined by its first cluster. */
  lemma {:induction false} ChainIsUnique(fat: seq<nat>, ch: seq<nat>)
    requires FatOk(fat) && IsChain(fat, ch)
    ensures ChainOf(fat, ch[0]) == ch
  {
    ChainIsAcyclic(fat, ch);
    DistinctLength(ch, |fat|);
    FollowChain(fat, ch, |fat|);
  }

  // ---- freeing ----

  /** The k-th cluster met from s; 0 once the walk has left the table. */
  function Walk(fat: seq<nat>, s: nat, k: nat): nat {
    if k == 0 then s
    else var p := Walk(fat, s, k - 1); if Inside(fat, p) then fat[p] else 0
  }

  ghost predicate Reached(fat: seq<nat>, s: nat, c: nat) { exists k: nat :: Walk(fat, s, k) == c }

  function Used(fat: seq<nat>): set<nat> { set c | 2 <= c < |fat| && fat[c] != 0 }

  lemma UsedShrinks(fat: seq<nat>, c: nat)
    requires Inside(fat, c)
    ensures Used(fat[c := 0]) == Used(fat) - {c}
    ensures fat[c] != 0 ==> |Used(fat[c := 0])| < |Used(fat)|
    ensures fat[c] == 0 ==> fat[c := 0] == fat
  {
  }

  /** The table after freeing from c: each entry is cleared once its link has been read. */
  function FreeFrom(fat: seq<nat>, c: nat): (r: seq<nat>)
    ensures |r| == |fat|
    decreases |Used(fat)|, Inside(fat, c)
  {
    if !Inside(fat, c) then fat
    else
      UsedShrinks(fat, c);
      FreeFrom(fat[c := 0], fat[c])
  }

  /** One step of freeing: clear the entry, go on with the link it held; the rest gets shorter. */
  lemma {:induction false} FreeStep(fat: seq<nat>, c: nat)
    requires FatOk(fat) && Closed(fat) && c >= 2 && !Eoc(c) && (c < |fat| || Eoc(c))
    ensures Inside(fat, c) && FreeFrom(fat[c := 0], fat[c]) == FreeFrom(fat, c)
    ensures Closed(fat[c := 0]) && (fat[c] < |fat| || Eoc(fat[c]))
    ensures |Used(fat[c := 0])| < |Used(fat)| || (|Used(fat[c := 0])| == |Used(fat)| && !Inside(fat[c := 0], fat[c]))
  {
    UsedShrinks(fat, c);
  }

  lemma {:induction false} FreeStops(fat: seq<nat>, c: nat)
    requires FatOk(fat) && (c < 2 || Eoc(c))
    ensures FreeFrom(fat, c) == fat
  {
  }

  lemma {:induction false} WalkOut(fat: seq<nat>, s: nat, k: nat, c: nat) returns (m: nat)
    requires Inside(fat, s) && Inside(fat, c) && c != s && Walk(fat, s, k) == c
    ensures Walk(fat[s := 0], fat[s], m) == c
    decreases k
  {
    var p := Walk(fat, s, k - 1);
    if p == s {
      m := 0;
    } else {
      m := WalkOut(fat, s, k - 1, p);
      m := m + 1;
    }
  }

  lemma {:induction false} WalkIn(fat: seq<nat>, s: nat, m: nat, c: nat) returns (k: nat)
    requires Inside(fat, s) && Inside(fat, c) && Walk(fat[s := 0], fat[s], m) == c
    ensures Walk(fat, s, k) == c
    decreases m
  {
    if m == 0 {
      assert Walk(fat, s, 0) == s;
      k := 1;
    } else {
      var p := Walk(fat[s := 0], fat[s], m - 1);
      k := WalkIn(fat, s, m - 1, p);
      k := k + 1;
    }
  }

  lemma {:induction false} ReachedStep(fat: seq<nat>, s: nat, c: nat)
    requires Inside(fat, s) && Inside(fat, c)
    ensures Reached(fat, s, c) <==> c == s || Reached(fat[s := 0], fat[s], c)
  {
    if c == s { assert Walk(fat, s, 0) == s; }
    else if Reached(fat, s, c) {
      var k: nat :| Walk(fat, s, k) == c;
      var m := WalkOut(fat, s, k, c);
    }
    if Reached(fat[s := 0], fat[s], c) {
      var m: nat :| Walk(fat[s := 0], fat[s], m) == c;
      var k := WalkIn(fat, s, m, c);
    }
  }

  lemma {:induction false} WalkStays(fat: seq<nat>, s: nat, k: nat)
    requires !Inside(fat, s)
    ensures k > 0 ==> Walk(fat, s, k) == 0
  {
    if k > 0 { WalkStays(fat, s, k - 1); }
  }

  /** Freeing clears exactly the clusters reachable from s, on any table, cyclic ones included. */
  lemma {:induction false} FreeClearsReachable(fat: seq<nat>, s: nat, c: nat)
    requires Inside(fat, c)
    ensures FreeFrom(fat, s)[c] == if Reached(fat, s, c) then 0 else fat[c]
    decreases |Used(fat)|, Inside(fat, s)
  {
    if Inside(fat, s) {
      UsedShrinks(fat, s);
      FreeClearsReachable(fat[s := 0], fat[s], c);
      ReachedStep(fat, s, c);
    } else if Reached(fat, s, c) {
      var k: nat :| Walk(fat, s, k) == c;
      WalkStays(fat, s, k);
      assert false;
    }
  }

  function Clear(fat: seq<nat>, ch: seq<nat>): (r: seq<nat>)
    ensures |r| == |fat|
  {
    seq(|fat|, c requires 0 <= c < |fat| => if c in ch then 0 else fat[c])
  }

  /** On a proper chain, freeing clears exactly the chain. */
  lemma {:induction false} FreeChainClears(fat: seq<nat>, ch: seq<nat>)
    requires FatOk(fat) && IsChain(fat, ch)
    ensures FreeFrom(fat, ch[0]) == Clear(fat, ch)
    decreases |ch|
  {
    ChainIsAcyclic(fat, ch);
    var fat' := fat[ch[0] := 0];
    if |ch| == 1 {
      assert FreeFrom(fat', fat[ch[0]]) == fat';
    } else {
      FreeChainClears(fat', ch[1..]);
      assert Clear(fat', ch[1..]) == Clear(fat, ch);
    }
  }

  // ---- allocating ----

  /** The i-th cluster probed from hint, wrapping past the end of the table to cluster 2. */
  function Probe(n: nat, hint: nat, i: nat): (c: nat)
    requires 2 <= hint <= n && i < n - 2
    ensures 2 <= c < n
  {
    if hint + i < n then hint + i else 2 + (hint + i - n)
  }

  /** The first free cluster at or after probe i, or 0. */
  function FirstFree(fat: seq<nat>, hint: nat, i: nat): nat
    requires 2 <= hint <= |fat| && i <= |fat| - 2
    decreases |fat| - i
  {
    if i == |fat| - 2 then 0
    else if fat[Probe(|fat|, hint, i)] == 0 then Probe(|fat|, hint, i)
    else FirstFree(fat, hint, i + 1)
  }

  /** Allocation picks the first free cluster in probe order. */
  lemma {:induction false} FirstFreeIsFirst(fat: seq<nat>, hint: nat, i: nat) returns (k: nat)
    requires 2 <= hint <= |fat| && i <= |fat| - 2
    ensures i <= k <= |fat| - 2
    ensures forall j :: i <= j < k ==> fat[Probe(|fat|, hint, j)] != 0
    ensures FirstFree(fat, hint, i) == 0 ==> k == |fat| - 2
    ensures FirstFree(fat, hint, i) != 0 ==>
              k < |fat| - 2 && FirstFree(fat, hint, i) == Probe(|fat|, hint, k) && fat[Probe(|fat|, hint, k)] == 0
    decreases |fat| - i
  {
    if i == |fat| - 2 || fat[Probe(|fat|, hint, i)] == 0 {
      k := i;
    } else {
      k := FirstFreeIsFirst(fat, hint, i + 1);
    }
  }

  /** The probe sequence visits every cluster exactly once. */
  lemma {:induction false} ProbeVisitsOnce(n: nat, hint: nat, c: nat) returns (i: nat)
    requires 2 <= hint <= n && 2 <= c < n
    ensures i < n - 2 && Probe(n, hint, i) == c
    ensures forall j :: 0 <= j < n - 2 && Probe(n, hint, j) == c ==> j == i
  {
    i := if c >= hint then c - hint else c - 2 + (n - hint);
  }

  function FreeSet(fat: seq<nat>): set<nat> { set c | 2 <= c < |fat| && fat[c] == 0 }

  /** Allocation fails only on a full table, whatever the hint. */
  lemma {:induction false} AllocFailsOnlyWhenFull(fat: seq<nat>, hint: nat)
    requires 2 <= hint <= |fat|
    ensures FirstFree(fat, hint, 0) == 0 <==> FreeSet(fat) == {}
    ensures FirstFree(fat, hint, 0) != 0 ==> FirstFree(fat, hint, 0) in FreeSet(fat)
  {
    var k := FirstFreeIsFirst(fat, hint, 0);
    forall c | c in FreeSet(fat) ensures FirstFree(fat, hint, 0) != 0 {
      var i := ProbeVisitsOnce(|fat|, hint, c);
    }
    if FirstFree(fat, hint, 0) != 0 {
      assert FirstFree(fat, hint, 0) in FreeSet(fat);
    }
  }

  /** The table with ch written as a chain, one cluster appended at a time. */
  function Link(fat: seq<nat>, ch: seq<nat>): (r: seq<nat>)
    requires InRange(fat, ch)
    ensures |r| == |fat|
    decreases |ch|
  {
    if ch == [] then fat
    else
      var n := |ch| - 1;
      assert Inside(fat, ch[n]);
      var r := Link(fat, ch[..n])[ch[n] := END_OF_CHAIN];
      if n == 0 then r else r[ch[n - 1] := ch[n]]
  }

  lemma {:induction false} LinkIsChain(fat: seq<nat>, ch: seq<nat>)
    requires FatOk(fat) && Distinct(ch) && InRange(fat, ch)
    ensures FatOk(Link(fat, ch))
    ensures ch != [] ==> IsChain(Link(fat, ch), ch)
    ensures forall c :: 0 <= c < |fat| && c !in ch ==> Link(fat, ch)[c] == fat[c]
    decreases |ch|
  {
    if ch != [] {
      var n := |ch| - 1;
      LinkIsChain(fat, ch[..n]);
      var r := Link(fat, ch);
      forall i | 0 <= i < n ensures r[ch[i]] == ch[i + 1] {
        if i < n - 1 {
          assert ch[..n][i] == ch[i] && ch[..n][i + 1] == ch[i + 1];
        }
      }
    }
  }

  function HintAfter(hint: nat, ch: seq<nat>): nat { if ch == [] then hint else ch[|ch| - 1] + 1 }

  /** The clusters that up to n allocations in a row take, each marked before the next. */
  function Picks(fat: seq<nat>, hint: nat, n: nat): (ch: seq<nat>)
    requires 2 <= hint <= |fat|
    ensures |ch| <= n
    ensures InRange(fat, ch)
  {
    if n == 0 then []
    else
      var ch := Picks(fat, hint, n - 1);
      if |ch| < n - 1 then ch
      else
        var c := FirstFree(Link(fat, ch), HintAfter(hint, ch), 0);
        AllocFailsOnlyWhenFull(Link(fat, ch), HintAfter(hint, ch));
        if c == 0 then ch else ch + [c]
  }

  lemma {:induction false} LinkedAreUsed(fat: seq<nat>, ch: seq<nat>)
    requires FatOk(fat) && Distinct(ch) && InRange(fat, ch)
    ensures forall c :: c in ch ==> Link(fat, ch)[c] != 0
    ensures FreeSet(Link(fat, ch)) == FreeSet(fat) - Elems(ch)
  {
    LinkIsChain(fat, ch);
    forall c | c in ch ensures Link(fat, ch)[c] != 0 {
      var i :| 0 <= i < |ch| && ch[i] == c;
      if i < |ch| - 1 { assert Inside(fat, ch[i + 1]); }
    }
  }

  /** Once allocation comes back empty, asking for more clusters yields no more. */
  lemma {:induction false} PicksStuck(fat: seq<nat>, hint: nat, k: nat, n: nat)
    requires 2 <= hint <= |fat| && k < n && |Picks(fat, hint, k)| == k
    requires FirstFree(Link(fat, Picks(fat, hint, k)), HintAfter(hint, Picks(fat, hint, k)), 0) == 0
    ensures Picks(fat, hint, n) == Picks(fat, hint, k)
    decreases n
  {
    hide FirstFree, Link, HintAfter;
    if k + 1 < n { PicksStuck(fat, hint, k, n - 1); }
  }

  lemma {:induction false} PickOneMore(fat: seq<nat>, ch: seq<nat>, c: nat)
    requires Distinct(ch) && Elems(ch) <= FreeSet(fat) && c in FreeSet(fat) - Elems(ch)
    ensures Distinct(ch + [c]) && Elems(ch + [c]) <= FreeSet(fat)
  {
    assert Elems(ch + [c]) == Elems(ch) + {c};
    assert forall i :: 0 <= i < |ch| ==> ch[i] in Elems(ch);
  }

  /** Allocations in a row take distinct free clusters, and fall short only by taking all of them. */
  lemma {:induction false} PicksAreFree(fat: seq<nat>, hint: nat, n: nat)
    requires FatOk(fat) && 2 <= hint <= |fat|
    ensures var ch := Picks(fat, hint, n);
            Distinct(ch) && Elems(ch) <= FreeSet(fat) && (|ch| < n ==> Elems(ch) == FreeSet(fat))
  {
    if n > 0 {
      PicksAreFree(fat, hint, n - 1);
      var ch := Picks(fat, hint, n - 1);
      if |ch| == n - 1 {
        LinkedAreUsed(fat, ch);
        AllocFailsOnlyWhenFull(Link(fat, ch), HintAfter(hint, ch));
        var c := FirstFree(Link(fat, ch), HintAfter(hint, ch), 0);
        if c != 0 {
          PickOneMore(fat, ch, c);
        } else {
          assert FreeSet(fat) <= Elems(ch) + FreeSet(Link(fat, ch));
        }
      }
    }
  }

  /** n allocations in a row succeed exactly when n clusters are free. */
  lemma {:induction false} PicksSucceedIff(fat: seq<nat>, hint: nat, n: nat)
    requires FatOk(fat) && 2 <= hint <= |fat|
    ensures |Picks(fat, hint, n)| == n <==> n <= |FreeSet(fat)|
  {
    PicksAreFree(fat, hint, n);
    var ch := Picks(fat, hint, n);
    DistinctCard(ch);
    var s := Elems(ch);
    SubsetCard(s, FreeSet(fat));
    if |ch| < n { assert s == FreeSet(fat); }
  }

  /** Taking back a freshly linked chain restores the table it was linked into. */
  lemma {:induction false} FreeUndoesLink(fat: seq<nat>, ch: seq<nat>)
    requires FatOk(fat) && Distinct(ch) && ch != []
    requires Elems(ch) <= FreeSet(fat)
    ensures InRange(fat, ch) && FreeFrom(Link(fat, ch), ch[0]) == fat
  {
    assert forall i :: 0 <= i < |ch| ==> ch[i] in Elems(ch);
    LinkIsChain(fat, ch);
    FreeChainClears(Link(fat, ch), ch);
    forall c | 0 <= c < |fat| ensures Clear(Link(fat, ch), ch)[c] == fat[c] {
      if c in ch { assert c in Elems(ch); }
    }
  }

  lemma {:induction false} LinkedNonzero(fat: seq<nat>, ch: seq<nat>, k: nat)
    requires IsChain(fat, ch) && k < |ch|
    ensures fat[ch[k]] != 0
  {
    assert k + 1 < |ch| ==> Inside(fat, ch[k + 1]);
  }

  /** Clearing a chain frees exactly its clusters. */
  lemma {:induction false} ClearGivesBack(fat: seq<nat>, ch: seq<nat>)
    requires FatOk(fat) && IsChain(fat, ch)
    ensures FreeSet(Clear(fat, ch)) == FreeSet(fat) + Elems(ch)
    ensures |FreeSet(Clear(fat, ch))| == |FreeSet(fat)| + |ch|
  {
    ChainIsAcyclic(fat, ch);
    DistinctCard(ch);
    forall c | c in Elems(ch) ensures Inside(fat, c) && fat[c] != 0 {
      var k :| 0 <= k < |ch| && ch[k] == c;
      LinkedNonzero(fat, ch, k);
    }
    assert FreeSet(Clear(fat, ch)) == FreeSet(fat) + Elems(ch);
    assert FreeSet(fat) !! Elems(ch);
  }
}
