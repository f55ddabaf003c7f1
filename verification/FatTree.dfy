/**
 * A volume as a tree of objects: who owns which clusters, which slot names what, and entering or taking out one object.
 */
module FatTree {
  import opened Bytes
  import opened FatChains

  /** What a lookup makes of a slot. */
  datatype Kind = End | Erased | Skipped | Dotted | Named

  datatype Entry = Entry(kind: Kind, name: seq<byte>, isDir: bool, start: nat, size: nat) {
    predicate Live() { kind.Dotted? || kind.Named? }
    predicate Free() { kind.End? || kind.Erased? }
    predicate EmptyFile() { !isDir && start == 0 && size == 0 }
    predicate Dot(n: seq<byte>, s: nat) { kind.Dotted? && isDir && name == n && start == s }
  }

  const DOT: seq<byte> := [0x2E, 0x20, 0x20, 0x20, 0x20, 0x20, 0x20, 0x20, 0x20, 0x20, 0x20]
  const DOTDOT: seq<byte> := [0x2E, 0x2E, 0x20, 0x20, 0x20, 0x20, 0x20, 0x20, 0x20, 0x20, 0x20]

  /** slots is the number of slots per cluster; ents gives the entry in slot j of cluster c. */
  datatype Tree = Tree(fat: seq<nat>, slots: nat, root: nat, cwd: nat, ents: (nat, nat) -> Entry)

  datatype Loc = Loc(c: nat, j: nat)

  /** A place in a chain: the object and the position in its chain. */
  datatype Place = Place(s: nat, k: nat)

  /**
   Who owns what. Objects are named by their first cluster: chains gives the clusters of each,
   owner the one place each cluster in use has in them, dirs the depth of each directory below the
   root, and home the slot that names each object but the root.
   */
  datatype Own = Own(chains: map<nat, seq<nat>>, owner: map<nat, Place>, dirs: map<nat, nat>, home: map<nat, Loc>)

  function Min(a: nat, b: nat): nat { if a < b then a else b }

  /** How many clusters of size cs hold size bytes. */
  function ClustersFor(size: nat, cs: nat): (n: nat)
    requires cs > 0
    ensures n == 0 <==> size == 0
  {
    if size == 0 then 0 else 1 + ClustersFor(size - Min(size, cs), cs)
  }

  // ---- chains ----

  /** s owns the clusters of ch, and ch is its chain. */
  ghost predicate Owns(fat: seq<nat>, owner: map<nat, Place>, s: nat, ch: seq<nat>) {
    && IsChain(fat, ch) && ch[0] == s
    && forall k :: 0 <= k < |ch| ==> ch[k] in owner && owner[ch[k]] == Place(s, k)
  }

  ghost predicate IsPlace(g: Own, c: nat, p: Place) {
    p.s in g.chains && p.k < |g.chains[p.s]| && g.chains[p.s][p.k] == c
  }

  /** Every object has its own end-marked chain, and the clusters in use are exactly the owned ones. */
  ghost predicate ChainsOk(fat: seq<nat>, g: Own) {
    && (forall s :: s in g.chains ==> Owns(fat, g.owner, s, g.chains[s]))
    && (forall c :: c in g.owner ==> Inside(fat, c) && fat[c] != 0 && IsPlace(g, c, g.owner[c]))
    && (forall c :: 2 <= c < |fat| && fat[c] != 0 ==> c in g.owner)
  }

  /** Every cluster in use lies in exactly one chain, at exactly one place. */
  lemma {:induction false} InUseExactlyOnce(fat: seq<nat>, g: Own, c: nat) returns (s: nat, k: nat)
    requires FatOk(fat) && ChainsOk(fat, g) && Inside(fat, c) && fat[c] != 0
    ensures s in g.chains && k < |g.chains[s]| && g.chains[s][k] == c
    ensures forall s', k' :: s' in g.chains && 0 <= k' < |g.chains[s']| && g.chains[s'][k'] == c ==> s' == s && k' == k
  {
    s, k := g.owner[c].s, g.owner[c].k;
    assert IsPlace(g, c, g.owner[c]);
    forall s', k' | s' in g.chains && 0 <= k' < |g.chains[s']| && g.chains[s'][k'] == c ensures s' == s && k' == k {
      assert Owns(fat, g.owner, s', g.chains[s']);
    }
  }

  /** fat' is fat with the free clusters of ch linked into a chain. */
  predicate Extended(fat: seq<nat>, fat': seq<nat>, ch: seq<nat>) {
    && FatOk(fat) && FatOk(fat') && |fat'| == |fat|
    && InRange(fat, ch) && Distinct(ch) && (forall i :: 0 <= i < |ch| ==> fat[ch[i]] == 0)
    && (ch != [] ==> IsChain(fat', ch))
    && (forall c :: 0 <= c < |fat| && c !in ch ==> fat'[c] == fat[c])
  }

  lemma {:induction false} ChainFrame(fat: seq<nat>, fat': seq<nat>, ch: seq<nat>)
    requires IsChain(fat, ch) && |fat'| == |fat| && forall k :: 0 <= k < |ch| ==> fat'[ch[k]] == fat[ch[k]]
    ensures IsChain(fat', ch)
  {
  }

  function Places(ch: seq<nat>): (m: map<nat, Place>)
    requires Distinct(ch)
    ensures forall c :: c in m <==> c in ch
    ensures forall k :: 0 <= k < |ch| ==> m[ch[k]] == Place(ch[0], k)
  {
    if ch == [] then map[] else var n := |ch| - 1; Places(ch[..n])[ch[n] := Place(ch[0], n)]
  }

  /** The ownership after the slot (c, j) of directory d has been made the home of ch. */
  function OwnWith(g: Own, d: nat, l: Loc, isDir: bool, ch: seq<nat>): Own
    requires d in g.dirs && Distinct(ch)
  {
    if ch == [] then g
    else Own(g.chains[ch[0] := ch],
             g.owner + Places(ch),
             if isDir then g.dirs[ch[0] := g.dirs[d] + 1] else g.dirs,
             g.home[ch[0] := l])
  }

  lemma {:induction false} ExtendedApart(fat: seq<nat>, fat': seq<nat>, g: Own, ch: seq<nat>)
    requires ChainsOk(fat, g) && Extended(fat, fat', ch)
    ensures forall c :: c in g.owner ==> c !in ch && fat'[c] == fat[c]
    ensures ch != [] ==> ch[0] !in g.chains
  {
    if ch != [] {
      var s := ch[0];
      assert s in g.chains ==> Owns(fat, g.owner, s, g.chains[s]);
    }
  }

  lemma {:induction false} OwnsFrame(fat: seq<nat>, fat': seq<nat>, owner: map<nat, Place>, owner': map<nat, Place>,
                                     s: nat, ch: seq<nat>)
    requires Owns(fat, owner, s, ch) && |fat'| == |fat|
    requires forall k :: 0 <= k < |ch| ==> fat'[ch[k]] == fat[ch[k]] && ch[k] in owner' && owner'[ch[k]] == owner[ch[k]]
    ensures Owns(fat', owner', s, ch)
  {
    ChainFrame(fat, fat', ch);
  }

  lemma {:induction false} AddedOwns(fat: seq<nat>, fat': seq<nat>, g: Own, d: nat, l: Loc, isDir: bool, ch: seq<nat>,
                                     s: nat)
    requires ChainsOk(fat, g) && Extended(fat, fat', ch) && d in g.dirs
    requires var g' := OwnWith(g, d, l, isDir, ch); s in g'.chains
    ensures var g' := OwnWith(g, d, l, isDir, ch); Owns(fat', g'.owner, s, g'.chains[s])
  {
    var g' := OwnWith(g, d, l, isDir, ch);
    ExtendedApart(fat, fat', g, ch);
    if s in g.chains { OwnsFrame(fat, fat', g.owner, g'.owner, s, g.chains[s]); }
  }

  lemma {:induction false} AddedPlace(fat: seq<nat>, fat': seq<nat>, g: Own, d: nat, l: Loc, isDir: bool, ch: seq<nat>,
                                      c: nat)
    requires ChainsOk(fat, g) && Extended(fat, fat', ch) && d in g.dirs
    requires c in OwnWith(g, d, l, isDir, ch).owner
    ensures var g' := OwnWith(g, d, l, isDir, ch); Inside(fat', c) && fat'[c] != 0 && IsPlace(g', c, g'.owner[c])
  {
    hide Owns, IsChain, FatOk;
    ExtendedApart(fat, fat', g, ch);
    if c in g.owner {
      assert IsPlace(g, c, g.owner[c]);
    } else {
      var k :| 0 <= k < |ch| && ch[k] == c;
      LinkedNonzero(fat', ch, k);
    }
  }

  lemma {:induction false} AddedUse(fat: seq<nat>, fat': seq<nat>, g: Own, d: nat, l: Loc, isDir: bool, ch: seq<nat>,
                                    c: nat)
    requires ChainsOk(fat, g) && Extended(fat, fat', ch) && d in g.dirs && 2 <= c < |fat'| && fat'[c] != 0
    ensures c in OwnWith(g, d, l, isDir, ch).owner
  {
    hide Owns, IsChain, FatOk, IsPlace;
    assert c in ch || c in g.owner;
  }

  lemma {:induction false} AddChains(fat: seq<nat>, fat': seq<nat>, g: Own, d: nat, l: Loc, isDir: bool, ch: seq<nat>)
    requires ChainsOk(fat, g) && Extended(fat, fat', ch) && d in g.dirs
    ensures ChainsOk(fat', OwnWith(g, d, l, isDir, ch))
  {
    hide Owns, IsChain, FatOk, IsPlace, OwnWith;
    assert Distinct(ch);
    var g' := OwnWith(g, d, l, isDir, ch);
    forall s | s in g'.chains
      ensures Owns(fat', g'.owner, s, g'.chains[s])
    {
      AddedOwns(fat, fat', g, d, l, isDir, ch, s);
    }
    forall c | c in g'.owner ensures Inside(fat', c) && fat'[c] != 0 && IsPlace(g', c, g'.owner[c]) {
      AddedPlace(fat, fat', g, d, l, isDir, ch, c);
    }
    forall c | 2 <= c < |fat'| && fat'[c] != 0 ensures c in g'.owner { AddedUse(fat, fat', g, d, l, isDir, ch, c); }
  }

  predicate Cleared(fat: seq<nat>, fat': seq<nat>, ch: seq<nat>) {
    |fat'| == |fat| && forall c :: 0 <= c < |fat| ==> fat'[c] == if c in ch then 0 else fat[c]
  }

  /** The ownership after object s is gone. */
  function OwnWithout(g: Own, s: nat): Own {
    Own(g.chains - {s}, map c | c in g.owner && g.owner[c].s != s :: g.owner[c], g.dirs - {s}, g.home - {s})
  }

  lemma {:induction false} RemoveChains(fat: seq<nat>, fat': seq<nat>, g: Own, s: nat)
    requires FatOk(fat) && ChainsOk(fat, g) && s in g.chains && Cleared(fat, fat', g.chains[s])
    ensures FatOk(fat') && ChainsOk(fat', OwnWithout(g, s))
  {
    var g' := OwnWithout(g, s);
    ClearedApart(fat, fat', g, s);
    forall t | t in g'.chains ensures Owns(fat', g'.owner, t, g'.chains[t]) {
      OwnsFrame(fat, fat', g.owner, g'.owner, t, g.chains[t]);
    }
    forall c | c in g'.owner ensures Inside(fat', c) && fat'[c] != 0 && IsPlace(g', c, g'.owner[c]) {
      assert IsPlace(g, c, g.owner[c]);
    }
  }

  lemma {:induction false} ClearedApart(fat: seq<nat>, fat': seq<nat>, g: Own, s: nat)
    requires ChainsOk(fat, g) && s in g.chains && Cleared(fat, fat', g.chains[s])
    ensures forall c :: c in g.owner ==> fat'[c] == if g.owner[c].s == s then 0 else fat[c]
    ensures forall c :: 2 <= c < |fat| && fat'[c] != 0 ==> fat[c] != 0
  {
    assert Owns(fat, g.owner, s, g.chains[s]);
    forall c | c in g.owner ensures fat'[c] == if g.owner[c].s == s then 0 else fat[c] {
      assert IsPlace(g, c, g.owner[c]);
    }
  }

  /** Clearing one object's chain leaves every other object's chain where it was. */
  lemma {:induction false} OthersSurvive(fat: seq<nat>, fat': seq<nat>, g: Own, s: nat, d: nat)
    requires FatOk(fat) && ChainsOk(fat, g) && s in g.chains && d in g.chains && d != s
    requires Cleared(fat, fat', g.chains[s]) && FatOk(fat')
    ensures Inside(fat, s) && fat'[s] == 0 && ChainOf(fat', d) == g.chains[d]
    ensures forall i :: 0 <= i < |g.chains[d]| ==> Inside(fat, g.chains[d][i]) && fat'[g.chains[d][i]] != 0
  {
    ClearedApart(fat, fat', g, s);
    assert Owns(fat, g.owner, s, g.chains[s]) && Owns(fat, g.owner, d, g.chains[d]);
    var ch := g.chains[d];
    forall i | 0 <= i < |ch| ensures fat'[ch[i]] == fat[ch[i]] != 0 { LinkedNonzero(fat, ch, i); }
    assert ch[0] == d && g.chains[s][0] == s;
    hide ChainsOk, Owns, Cleared;
    ChainFrame(fat, fat', ch);
    ChainIsUnique(fat', ch);
  }

  // ---- the tree ----

  ghost predicate KeysOk(t: Tree, g: Own) {
    && t.root in g.dirs && g.dirs[t.root] == 0
    && 0 !in g.chains && (forall d :: d in g.dirs ==> d in g.chains)
    && (forall s :: s in g.chains ==> s in g.owner && g.owner[s].s == s)
    && (forall c :: c in g.owner ==> g.owner[c].s in g.chains)
    && (forall s :: s in g.home <==> s in g.chains && s != t.root)
    && t.cwd in g.dirs
  }

  /** (c, j) is a slot of directory d. */
  ghost predicate InDir(t: Tree, g: Own, d: nat, c: nat, j: nat) {
    d in g.dirs && c in g.owner && g.owner[c].s == d && j < t.slots
  }

  /** e describes object s: a directory one level below its own, or a file of the right length. */
  ghost predicate Describes(t: Tree, g: Own, dir: nat, s: nat, e: Entry) {
    && e.kind.Named? && e.start == s && (e.isDir <==> s in g.dirs) && dir in g.dirs
    && (s in g.dirs ==> g.dirs[s] == g.dirs[dir] + 1)
    && (s !in g.dirs ==> s in g.chains && t.slots > 0 && |g.chains[s]| == ClustersFor(e.size, 32 * t.slots))
  }

  /** The directory that holds the slot naming s. */
  function Parent(g: Own, s: nat): nat { if s in g.home && g.home[s].c in g.owner then g.owner[g.home[s].c].s else 0 }

  ghost predicate HomesOk(t: Tree, g: Own) {
    forall s :: s in g.home ==>
      && InDir(t, g, Parent(g, s), g.home[s].c, g.home[s].j)
      && Describes(t, g, Parent(g, s), s, t.ents(g.home[s].c, g.home[s].j))
  }

  /** A named entry is an empty file or sits in the home slot of the object it names. */
  ghost predicate AtHome(g: Own, e: Entry, c: nat, j: nat) {
    e.EmptyFile() || (e.start in g.home && g.home[e.start] == Loc(c, j))
  }

  ghost predicate EntriesOk(t: Tree, g: Own) {
    forall d, c, j: nat :: InDir(t, g, d, c, j) && t.ents(c, j).kind.Named? ==> AtHome(g, t.ents(c, j), c, j)
  }

  /** What ".." of a directory below p records: p, or 0 when p is the root. */
  function ParentLink(root: nat, p: nat): nat { if p == root then 0 else p }

  /** Below the root, "." and ".." are the first two slots and point right; there are no others. */
  ghost predicate DotsOk(t: Tree, g: Own) {
    && (forall d :: d in g.dirs && d in g.home ==>
          t.ents(d, 0).Dot(DOT, d) && t.ents(d, 1).Dot(DOTDOT, ParentLink(t.root, Parent(g, d))))
    && (forall d, c, j: nat :: InDir(t, g, d, c, j) && t.ents(c, j).kind.Dotted? ==> d != t.root && c == d && j < 2)
  }

  predicate Before(i: nat, j: nat, i': nat, j': nat) { i < i' || (i == i' && j < j') }

  predicate Spot(t: Tree, ch: seq<nat>, i: nat, j: nat) { i < |ch| && j < t.slots }

  /** No live slot comes after an end mark. */
  ghost predicate EndOk(t: Tree, ch: seq<nat>) {
    forall i: nat, j: nat, i': nat, j': nat :: Spot(t, ch, i, j) && Spot(t, ch, i', j') && Before(i, j, i', j') ==>
      t.ents(ch[i], j).kind.End? ==> !t.ents(ch[i'], j').Live()
  }

  ghost predicate EndsOk(t: Tree, g: Own) {
    forall d :: d in g.dirs && d in g.chains ==> EndOk(t, g.chains[d])
  }

  ghost predicate Wf(t: Tree, g: Own) {
    && FatOk(t.fat) && 2 <= t.slots
    && ChainsOk(t.fat, g) && KeysOk(t, g) && HomesOk(t, g) && EntriesOk(t, g) && DotsOk(t, g) && EndsOk(t, g)
  }

  // ---- entering an object ----

  /** The slot (ch[i], j) is free, and no end mark comes before it. */
  ghost predicate OpenSlot(t: Tree, ch: seq<nat>, i: nat, j: nat) {
    && Spot(t, ch, i, j) && t.ents(ch[i], j).Free()
    && forall x: nat, y: nat :: Spot(t, ch, x, y) && Before(x, y, i, j) ==> !t.ents(ch[x], y).kind.End?
  }

  /** A cluster holds an empty directory: its two dot entries, then end marks. */
  ghost predicate FreshDir(t: Tree, c: nat, parent: nat) {
    && t.ents(c, 0).Dot(DOT, c) && t.ents(c, 1).Dot(DOTDOT, parent)
    && forall j: nat :: 2 <= j < t.slots ==> t.ents(c, j).kind.End?
  }

  /** e fits the new chain ch: an empty file, a file of the right length, or a fresh directory. */
  ghost predicate Fits(t: Tree, d: nat, e: Entry, ch: seq<nat>) {
    && e.kind.Named? && t.slots > 0
    && if e.isDir then |ch| == 1 && e.start == ch[0] && FreshDir(t, ch[0], ParentLink(t.root, d))
       else |ch| == ClustersFor(e.size, 32 * t.slots) && e.start == if ch == [] then 0 else ch[0]
  }

  /** t' is t with ch linked and slot (c, j) rewritten; besides, only slots in ch may differ. */
  ghost predicate Entered(t: Tree, t': Tree, c: nat, j: nat, ch: seq<nat>) {
    && Extended(t.fat, t'.fat, ch)
    && t'.slots == t.slots && t'.root == t.root && t'.cwd == t.cwd
    && forall x: nat, y: nat :: Inside(t.fat, x) && y < t.slots && x !in ch && (x != c || y != j) ==>
         t'.ents(x, y) == t.ents(x, y)
  }

  ghost predicate CanAdd(t: Tree, g: Own, t': Tree, d: nat, i: nat, j: nat, ch: seq<nat>) {
    && Wf(t, g) && d in g.dirs && OpenSlot(t, g.chains[d], i, j)
    && Entered(t, t', g.chains[d][i], j, ch)
    && Fits(t', d, t'.ents(g.chains[d][i], j), ch)
  }

  /** What the parts of the proof share: old slots are unchanged but (c, j), and the ownership grows by ch. */
  ghost predicate Step(t: Tree, g: Own, t': Tree, g': Own, d: nat, c: nat, j: nat, ch: seq<nat>) {
    && Distinct(ch) && KeysOk(t', g') && t'.slots == t.slots && t'.root == t.root
    && d in g.dirs && g' == OwnWith(g, d, Loc(c, j), t'.ents(c, j).isDir, ch)
    && InDir(t, g, d, c, j) && t.ents(c, j).Free()
    && (ch != [] ==> ch[0] !in g.chains && ch[0] in ch)
    && (forall x :: x in g.owner ==> x !in ch)
    && (forall x, y: nat :: x in g.owner && y < t.slots && (x != c || y != j) ==> t'.ents(x, y) == t.ents(x, y))
    && Fits(t', d, t'.ents(c, j), ch)
  }

  lemma {:induction false} AddKeys(t: Tree, g: Own, t': Tree, d: nat, l: Loc, isDir: bool, ch: seq<nat>)
    requires KeysOk(t, g) && d in g.dirs && Distinct(ch) && t'.root == t.root && t'.cwd == t.cwd
    requires (forall x :: x in g.owner ==> x !in ch) && (ch != [] ==> ch[0] !in g.chains && ch[0] != 0)
    ensures KeysOk(t', OwnWith(g, d, l, isDir, ch))
  {
  }

  lemma {:induction false} AddStep(t: Tree, g: Own, t': Tree, d: nat, i: nat, j: nat, ch: seq<nat>) returns (g': Own)
    requires CanAdd(t, g, t', d, i, j, ch)
    ensures g' == OwnWith(g, d, Loc(g.chains[d][i], j), t'.ents(g.chains[d][i], j).isDir, ch)
    ensures ChainsOk(t'.fat, g') && Step(t, g, t', g', d, g.chains[d][i], j, ch)
  {
    hide HomesOk, EntriesOk, DotsOk, EndsOk, KeysOk, ChainsOk, OwnWith, Fits, Owns, IsChain, FatOk, Entered, Extended;
    hide OpenSlot;
    DirHasChain(t, g, d);
    OpenIsFree(t, g.chains[d], i, j);
    var c := g.chains[d][i];
    EnteredFrame(t, g, t', c, j, ch);
    g' := OwnWith(g, d, Loc(c, j), t'.ents(c, j).isDir, ch);
    AddChains(t.fat, t'.fat, g, d, Loc(c, j), t'.ents(c, j).isDir, ch);
    ExtendedApart(t.fat, t'.fat, g, ch);
    OwnedChain(t.fat, g.owner, d, g.chains[d]);
    AddKeys(t, g, t', d, Loc(c, j), t'.ents(c, j).isDir, ch);
    assert InDir(t, g, d, c, j);
  }

  lemma {:induction false} OpenIsFree(t: Tree, ch: seq<nat>, i: nat, j: nat)
    requires OpenSlot(t, ch, i, j)
    ensures i < |ch| && j < t.slots && t.ents(ch[i], j).Free()
  {
  }

  lemma {:induction false} EnteredFrame(t: Tree, g: Own, t': Tree, c: nat, j: nat, ch: seq<nat>)
    requires ChainsOk(t.fat, g) && Entered(t, t', c, j, ch)
    ensures Extended(t.fat, t'.fat, ch) && Distinct(ch) && t'.slots == t.slots && t'.root == t.root && t'.cwd == t.cwd
    ensures ch != [] ==> ch[0] != 0
    ensures forall x, y: nat :: x in g.owner && y < t.slots && (x != c || y != j) ==> t'.ents(x, y) == t.ents(x, y)
  {
    hide Owns, IsPlace, IsChain, FatOk;
    ExtendedApart(t.fat, t'.fat, g, ch);
  }

  lemma {:induction false} DirHasChain(t: Tree, g: Own, d: nat)
    requires KeysOk(t, g) && ChainsOk(t.fat, g) && d in g.dirs
    ensures d in g.chains && Owns(t.fat, g.owner, d, g.chains[d])
  {
  }

  lemma {:induction false} AddHomes(t: Tree, g: Own, t': Tree, g': Own, d: nat, c: nat, j: nat, ch: seq<nat>)
    requires KeysOk(t, g) && HomesOk(t, g) && Step(t, g, t', g', d, c, j, ch)
    ensures HomesOk(t', g')
  {
    forall s | s in g'.home
      ensures InDir(t', g', Parent(g', s), g'.home[s].c, g'.home[s].j)
      ensures Describes(t', g', Parent(g', s), s, t'.ents(g'.home[s].c, g'.home[s].j))
    {
      if ch == [] || s != ch[0] {
        assert InDir(t, g, Parent(g, s), g.home[s].c, g.home[s].j);
      }
    }
  }

  lemma {:induction false} AddEntries(t: Tree, g: Own, t': Tree, g': Own, d: nat, c: nat, j: nat, ch: seq<nat>)
    requires KeysOk(t, g) && EntriesOk(t, g) && Step(t, g, t', g', d, c, j, ch)
    ensures EntriesOk(t', g')
  {
    hide KeysOk, Step, AtHome, InDir;
    forall d', x, y: nat | InDir(t', g', d', x, y) && t'.ents(x, y).kind.Named?
      ensures AtHome(g', t'.ents(x, y), x, y)
    {
      AddEntry(t, g, t', g', d, c, j, ch, d', x, y);
    }
  }

  lemma {:induction false} AddEntry(t: Tree, g: Own, t': Tree, g': Own, d: nat, c: nat, j: nat, ch: seq<nat>, d': nat,
                                    x: nat, y: nat)
    requires KeysOk(t, g) && EntriesOk(t, g) && Step(t, g, t', g', d, c, j, ch)
    requires InDir(t', g', d', x, y) && t'.ents(x, y).kind.Named?
    ensures AtHome(g', t'.ents(x, y), x, y)
  {
    if x in g.owner {
      assert InDir(t, g, d', x, y);
      if x != c || y != j { assert AtHome(g, t.ents(x, y), x, y); }
    }
  }

  lemma {:induction false} AddDots(t: Tree, g: Own, t': Tree, g': Own, d: nat, c: nat, j: nat, ch: seq<nat>)
    requires 2 <= t.slots && KeysOk(t, g) && DotsOk(t, g) && HomesOk(t, g)
    requires Step(t, g, t', g', d, c, j, ch)
    ensures DotsOk(t', g')
  {
    hide KeysOk, HomesOk, Step, InDir, Parent;
    forall d' | d' in g'.dirs && d' in g'.home
      ensures t'.ents(d', 0).Dot(DOT, d') && t'.ents(d', 1).Dot(DOTDOT, ParentLink(t'.root, Parent(g', d')))
    {
      AddDotPair(t, g, t', g', d, c, j, ch, d');
    }
    forall d', x, y: nat | InDir(t', g', d', x, y) && t'.ents(x, y).kind.Dotted?
      ensures d' != t'.root && x == d' && y < 2
    {
      AddDotSlot(t, g, t', g', d, c, j, ch, d', x, y);
    }
  }

  lemma {:induction false} AddDotPair(t: Tree, g: Own, t': Tree, g': Own, d: nat, c: nat, j: nat, ch: seq<nat>, d': nat)
    requires 2 <= t.slots && KeysOk(t, g) && DotsOk(t, g) && HomesOk(t, g) && Step(t, g, t', g', d, c, j, ch)
    requires d' in g'.dirs && d' in g'.home
    ensures t'.ents(d', 0).Dot(DOT, d') && t'.ents(d', 1).Dot(DOTDOT, ParentLink(t'.root, Parent(g', d')))
  {
    if ch == [] || d' != ch[0] {
      assert InDir(t, g, Parent(g, d'), g.home[d'].c, g.home[d'].j);
      assert d' in g.owner;
    }
  }

  lemma {:induction false} AddDotSlot(t: Tree, g: Own, t': Tree, g': Own, d: nat, c: nat, j: nat, ch: seq<nat>, d': nat,
                                      x: nat, y: nat)
    requires 2 <= t.slots && KeysOk(t, g) && DotsOk(t, g) && Step(t, g, t', g', d, c, j, ch)
    requires InDir(t', g', d', x, y) && t'.ents(x, y).kind.Dotted?
    ensures d' != t'.root && x == d' && y < 2
  {
    if x in g.owner {
      assert InDir(t, g, d', x, y);
    } else {
      assert x in ch && d' == ch[0];
      assert |ch| == 1 && x == ch[0];
      assert y < 2 || t'.ents(x, y).kind.End?;
    }
  }

  /** Positions in the chains and places in the ownership are the same thing. */
  ghost predicate Placed(g: Own, s: nat, ch: seq<nat>) {
    forall k :: 0 <= k < |ch| ==> ch[k] in g.owner && g.owner[ch[k]] == Place(s, k)
  }

  lemma {:induction false} AddEnds(t: Tree, g: Own, t': Tree, g': Own, d: nat, i: nat, j: nat, ch: seq<nat>)
    requires (forall s :: s in g.chains ==> Placed(g, s, g.chains[s])) && KeysOk(t, g) && EndsOk(t, g) && d in g.dirs
    requires OpenSlot(t, g.chains[d], i, j) && Step(t, g, t', g', d, g.chains[d][i], j, ch)
    ensures EndsOk(t', g')
  {
    forall d' | d' in g'.dirs && d' in g'.chains ensures EndOk(t', g'.chains[d']) {
      if d' == d {
        AddEndHere(t, g, t', g', d, i, j, ch);
      } else if d' in g.dirs {
        AddEndThere(t, g, t', g', d, g.chains[d][i], j, ch, d');
      } else {
        FreshEnd(t', ch[0], ParentLink(t'.root, d));
        assert g'.chains[d'] == [ch[0]];
      }
    }
  }

  lemma {:induction false} AddEndHere(t: Tree, g: Own, t': Tree, g': Own, d: nat, i: nat, j: nat, ch: seq<nat>)
    requires d in g.chains && Placed(g, d, g.chains[d]) && EndOk(t, g.chains[d])
    requires OpenSlot(t, g.chains[d], i, j) && Step(t, g, t', g', d, g.chains[d][i], j, ch)
    ensures EndOk(t', g.chains[d])
  {
    var cs := g.chains[d];
    forall x: nat, y: nat | Spot(t, cs, x, y) && (x != i || y != j) ensures t'.ents(cs[x], y) == t.ents(cs[x], y) {
      assert g.owner[cs[x]] == Place(d, x) && g.owner[cs[i]] == Place(d, i);
    }
    EndAfterPut(t, t', cs, i, j);
  }

  lemma {:induction false} AddEndThere(t: Tree, g: Own, t': Tree, g': Own, d: nat, c: nat, j: nat, ch: seq<nat>,
                                       d': nat)
    requires d' in g.chains && d' != d && Placed(g, d', g.chains[d']) && EndOk(t, g.chains[d'])
    requires Step(t, g, t', g', d, c, j, ch)
    ensures EndOk(t', g.chains[d'])
  {
    var cs := g.chains[d'];
    forall x: nat, y: nat | Spot(t, cs, x, y) ensures t'.ents(cs[x], y) == t.ents(cs[x], y) {
      assert g.owner[cs[x]] == Place(d', x);
    }
    EndFrame(t, t', cs);
  }

  lemma {:induction false} FreshEnd(t: Tree, c: nat, parent: nat)
    requires FreshDir(t, c, parent)
    ensures EndOk(t, [c])
  {
    forall i: nat, j: nat, i': nat, j': nat | Spot(t, [c], i, j) && Spot(t, [c], i', j') && Before(i, j, i', j')
      ensures t.ents([c][i], j).kind.End? ==> !t.ents([c][i'], j').Live()
    {
      assert [c][i] == c && [c][i'] == c;
    }
  }

  lemma {:induction false} EndFrame(t: Tree, t': Tree, ch: seq<nat>)
    requires EndOk(t, ch) && t'.slots == t.slots
    requires forall x: nat, y: nat :: Spot(t, ch, x, y) ==> t'.ents(ch[x], y) == t.ents(ch[x], y)
    ensures EndOk(t', ch)
  {
    forall i: nat, j: nat, i': nat, j': nat | Spot(t', ch, i, j) && Spot(t', ch, i', j') && Before(i, j, i', j')
      ensures t'.ents(ch[i], j).kind.End? ==> !t'.ents(ch[i'], j').Live()
    {
      assert Spot(t, ch, i, j) && Spot(t, ch, i', j');
    }
  }

  /** Filling an open slot puts no live slot behind an end mark. */
  lemma {:induction false} EndAfterPut(t: Tree, t': Tree, ch: seq<nat>, i: nat, j: nat)
    requires EndOk(t, ch) && t'.slots == t.slots && OpenSlot(t, ch, i, j)
    requires forall x: nat, y: nat :: Spot(t, ch, x, y) && (x != i || y != j) ==> t'.ents(ch[x], y) == t.ents(ch[x], y)
    requires t'.ents(ch[i], j).Live()
    ensures EndOk(t', ch)
  {
    forall x: nat, y: nat, x': nat, y': nat | Spot(t', ch, x, y) && Spot(t', ch, x', y') && Before(x, y, x', y')
      ensures t'.ents(ch[x], y).kind.End? ==> !t'.ents(ch[x'], y').Live()
    {
      assert Spot(t, ch, x, y) && Spot(t, ch, x', y');
      assert x == i && y == j ==> !t'.ents(ch[x], y).kind.End?;
    }
  }

  /** Entering a fitting object in an open slot of a directory keeps the tree well formed. */
  lemma {:induction false} AddKeepsWf(t: Tree, g: Own, t': Tree, d: nat, i: nat, j: nat, ch: seq<nat>) returns (g': Own)
    requires CanAdd(t, g, t', d, i, j, ch)
    ensures g' == OwnWith(g, d, Loc(g.chains[d][i], j), t'.ents(g.chains[d][i], j).isDir, ch)
    ensures Wf(t', g')
  {
    g' := AddStep(t, g, t', d, i, j, ch);
    var c := g.chains[d][i];
    AddHomes(t, g, t', g', d, c, j, ch);
    AddEntries(t, g, t', g', d, c, j, ch);
    AddDots(t, g, t', g', d, c, j, ch);
    forall s | s in g.chains ensures Placed(g, s, g.chains[s]) { assert Owns(t.fat, g.owner, s, g.chains[s]); }
    AddEnds(t, g, t', g', d, i, j, ch);
  }

  // ---- taking an object out ----

  /** t' is t with slot (c, j) erased; every other slot is as before. */
  ghost predicate Erasure(t: Tree, t': Tree, c: nat, j: nat) {
    && t'.slots == t.slots && t'.root == t.root && t'.cwd == t.cwd
    && t'.ents(c, j).kind.Erased?
    && forall x: nat, y: nat :: Inside(t.fat, x) && y < t.slots && (x != c || y != j) ==> t'.ents(x, y) == t.ents(x, y)
  }

  /** No slot of directory d names anything. */
  ghost predicate EmptyDir(t: Tree, g: Own, d: nat) {
    forall c, j: nat :: InDir(t, g, d, c, j) ==> !t.ents(c, j).kind.Named?
  }

  /** The object named in slot (c, j) can go: a file, or an empty directory other than the current one. */
  ghost predicate CanRemove(t: Tree, g: Own, t': Tree, d: nat, c: nat, j: nat) {
    && Wf(t, g) && InDir(t, g, d, c, j) && t.ents(c, j).kind.Named? && Erasure(t, t', c, j)
    && var e := t.ents(c, j);
       if e.EmptyFile() then t'.fat == t.fat
       else
         && e.start in g.chains && Cleared(t.fat, t'.fat, g.chains[e.start])
         && (e.isDir ==> EmptyDir(t, g, e.start) && t.cwd != e.start)
  }

  /** What the parts of the proof share: slots still owned are unchanged but (c, j), and s is gone. */
  ghost predicate Unstep(t: Tree, g: Own, t': Tree, g': Own, d: nat, c: nat, j: nat) {
    && t'.slots == t.slots && t'.root == t.root && t'.cwd == t.cwd
    && InDir(t, g, d, c, j) && t.ents(c, j).kind.Named? && t'.ents(c, j).kind.Erased?
    && (forall x, y: nat :: x in g.owner && y < t.slots && (x != c || y != j) ==> t'.ents(x, y) == t.ents(x, y))
    && var e := t.ents(c, j);
       if e.EmptyFile() then g' == g
       else
         && g' == OwnWithout(g, e.start) && e.start in g.home && g.home[e.start] == Loc(c, j) && e.start != t.root
         && (e.start in g.dirs ==> EmptyDir(t, g, e.start) && t.cwd != e.start)
  }

  lemma {:induction false} RemoveStep(t: Tree, g: Own, t': Tree, d: nat, c: nat, j: nat) returns (g': Own)
    requires CanRemove(t, g, t', d, c, j)
    ensures g' == if t.ents(c, j).EmptyFile() then g else OwnWithout(g, t.ents(c, j).start)
    ensures FatOk(t'.fat) && ChainsOk(t'.fat, g') && Unstep(t, g, t', g', d, c, j)
  {
    var e := t.ents(c, j);
    assert AtHome(g, e, c, j);
    if e.EmptyFile() {
      g' := g;
    } else {
      g' := OwnWithout(g, e.start);
      RemoveChains(t.fat, t'.fat, g, e.start);
      assert Describes(t, g, Parent(g, e.start), e.start, e);
    }
  }

  lemma {:induction false} RemoveKeys(t: Tree, g: Own, t': Tree, g': Own, d: nat, c: nat, j: nat)
    requires KeysOk(t, g) && Unstep(t, g, t', g', d, c, j)
    ensures KeysOk(t', g')
  {
  }

  lemma {:induction false} RemoveHomes(t: Tree, g: Own, t': Tree, g': Own, d: nat, c: nat, j: nat)
    requires KeysOk(t, g) && HomesOk(t, g) && Unstep(t, g, t', g', d, c, j)
    ensures HomesOk(t', g')
  {
    hide KeysOk, Unstep, InDir, Parent, Describes;
    forall s | s in g'.home
      ensures InDir(t', g', Parent(g', s), g'.home[s].c, g'.home[s].j)
      ensures Describes(t', g', Parent(g', s), s, t'.ents(g'.home[s].c, g'.home[s].j))
    {
      RemoveHome(t, g, t', g', d, c, j, s);
    }
  }

  lemma {:induction false} RemoveHome(t: Tree, g: Own, t': Tree, g': Own, d: nat, c: nat, j: nat, s: nat)
    requires KeysOk(t, g) && HomesOk(t, g) && Unstep(t, g, t', g', d, c, j) && s in g'.home
    ensures InDir(t', g', Parent(g', s), g'.home[s].c, g'.home[s].j)
    ensures Describes(t', g', Parent(g', s), s, t'.ents(g'.home[s].c, g'.home[s].j))
  {
    var h := g.home[s];
    assert InDir(t, g, Parent(g, s), h.c, h.j) && Describes(t, g, Parent(g, s), s, t.ents(h.c, h.j));
  }

  lemma {:induction false} RemoveEntries(t: Tree, g: Own, t': Tree, g': Own, d: nat, c: nat, j: nat)
    requires EntriesOk(t, g) && Unstep(t, g, t', g', d, c, j)
    ensures EntriesOk(t', g')
  {
    forall d', x, y: nat | InDir(t', g', d', x, y) && t'.ents(x, y).kind.Named?
      ensures AtHome(g', t'.ents(x, y), x, y)
    {
      assert InDir(t, g, d', x, y);
    }
  }

  lemma {:induction false} RemoveDots(t: Tree, g: Own, t': Tree, g': Own, d: nat, c: nat, j: nat)
    requires 2 <= t.slots && KeysOk(t, g) && DotsOk(t, g) && HomesOk(t, g) && Unstep(t, g, t', g', d, c, j)
    ensures DotsOk(t', g')
  {
    hide KeysOk, HomesOk, Unstep, InDir, Parent;
    forall d' | d' in g'.dirs && d' in g'.home
      ensures t'.ents(d', 0).Dot(DOT, d') && t'.ents(d', 1).Dot(DOTDOT, ParentLink(t'.root, Parent(g', d')))
    {
      RemoveDotPair(t, g, t', g', d, c, j, d');
    }
    forall d', x, y: nat | InDir(t', g', d', x, y) && t'.ents(x, y).kind.Dotted?
      ensures d' != t'.root && x == d' && y < 2
    {
      RemoveDotSlot(t, g, t', g', d, c, j, d', x, y);
    }
  }

  lemma {:induction false} RemoveDotPair(t: Tree, g: Own, t': Tree, g': Own, d: nat, c: nat, j: nat, d': nat)
    requires 2 <= t.slots && KeysOk(t, g) && DotsOk(t, g) && HomesOk(t, g) && Unstep(t, g, t', g', d, c, j)
    requires d' in g'.dirs && d' in g'.home
    ensures t'.ents(d', 0).Dot(DOT, d') && t'.ents(d', 1).Dot(DOTDOT, ParentLink(t'.root, Parent(g', d')))
  {
    var h := g.home[d'];
    assert InDir(t, g, Parent(g, d'), h.c, h.j) && Describes(t, g, Parent(g, d'), d', t.ents(h.c, h.j));
    assert d' in g.owner;
  }

  lemma {:induction false} RemoveDotSlot(t: Tree, g: Own, t': Tree, g': Own, d: nat, c: nat, j: nat, d': nat, x: nat,
                                         y: nat)
    requires DotsOk(t, g) && Unstep(t, g, t', g', d, c, j) && InDir(t', g', d', x, y) && t'.ents(x, y).kind.Dotted?
    ensures d' != t'.root && x == d' && y < 2
  {
    assert InDir(t, g, d', x, y);
  }

  lemma {:induction false} RemoveEnds(t: Tree, g: Own, t': Tree, g': Own, d: nat, c: nat, j: nat)
    requires (forall s :: s in g.chains ==> Placed(g, s, g.chains[s])) && EndsOk(t, g) && Unstep(t, g, t', g', d, c, j)
    ensures EndsOk(t', g')
  {
    forall d' | d' in g'.dirs && d' in g'.chains ensures EndOk(t', g'.chains[d']) {
      RemoveEnd(t, g, t', g', d, c, j, g.chains[d'], d');
    }
  }

  lemma {:induction false} RemoveEnd(t: Tree, g: Own, t': Tree, g': Own, d: nat, c: nat, j: nat, ch: seq<nat>, d': nat)
    requires Placed(g, d', ch) && EndOk(t, ch) && Unstep(t, g, t', g', d, c, j)
    ensures EndOk(t', ch)
  {
    forall x: nat, y: nat, x': nat, y': nat | Spot(t', ch, x, y) && Spot(t', ch, x', y') && Before(x, y, x', y')
      ensures t'.ents(ch[x], y).kind.End? ==> !t'.ents(ch[x'], y').Live()
    {
      assert Spot(t, ch, x, y) && Spot(t, ch, x', y');
      assert ch[x] in g.owner && ch[x'] in g.owner;
    }
  }

  /** Taking out a file or an empty directory keeps the tree well formed. */
  lemma {:induction false} RemoveKeepsWf(t: Tree, g: Own, t': Tree, d: nat, c: nat, j: nat) returns (g': Own)
    requires CanRemove(t, g, t', d, c, j)
    ensures g' == if t.ents(c, j).EmptyFile() then g else OwnWithout(g, t.ents(c, j).start)
    ensures Wf(t', g')
  {
    g' := RemoveStep(t, g, t', d, c, j);
    RemoveKeys(t, g, t', g', d, c, j);
    RemoveHomes(t, g, t', g', d, c, j);
    RemoveEntries(t, g, t', g', d, c, j);
    RemoveDots(t, g, t', g', d, c, j);
    forall s | s in g.chains ensures Placed(g, s, g.chains[s]) { assert Owns(t.fat, g.owner, s, g.chains[s]); }
    RemoveEnds(t, g, t', g', d, c, j);
  }

  // ---- dot slots ----

  /** A dotted slot of a directory is its "." or its "..", pointing at itself or at its parent. */
  lemma {:induction false} DottedIsDot(t: Tree, g: Own, d: nat, c: nat, j: nat)
    requires Wf(t, g) && InDir(t, g, d, c, j) && t.ents(c, j).kind.Dotted?
    ensures d in g.home && c == d && j < 2
    ensures t.ents(c, j).Dot(if j == 0 then DOT else DOTDOT, if j == 0 then d else ParentLink(t.root, Parent(g, d)))
  {
    hide ChainsOk, HomesOk, EntriesOk, EndsOk;
  }

  lemma {:induction false} ParentIsDir(t: Tree, g: Own, s: nat)
    requires Wf(t, g) && s in g.home
    ensures Parent(g, s) in g.dirs && Parent(g, s) != 0 && (s in g.dirs ==> g.dirs[s] == g.dirs[Parent(g, s)] + 1)
  {
    hide ChainsOk, EntriesOk, DotsOk, EndsOk;
  }

  // ---- changes that leave every object alone ----

  /** t' is t except for the current directory, unowned clusters, and free slots now marked erased. */
  ghost predicate Quiet(t: Tree, g: Own, t': Tree) {
    && t'.fat == t.fat && t'.slots == t.slots && t'.root == t.root && t'.cwd in g.dirs
    && forall x, y: nat :: x in g.owner && y < t.slots ==>
         t'.ents(x, y) == t.ents(x, y) || (t.ents(x, y).Free() && t'.ents(x, y).kind.Erased?)
  }

  lemma {:induction false} QuietHomes(t: Tree, g: Own, t': Tree)
    requires KeysOk(t, g) && HomesOk(t, g) && EntriesOk(t, g) && Quiet(t, g, t')
    ensures KeysOk(t', g) && HomesOk(t', g) && EntriesOk(t', g)
  {
    forall s | s in g.home
      ensures InDir(t', g, Parent(g, s), g.home[s].c, g.home[s].j)
      ensures Describes(t', g, Parent(g, s), s, t'.ents(g.home[s].c, g.home[s].j))
    {
      assert InDir(t, g, Parent(g, s), g.home[s].c, g.home[s].j);
    }
    forall d, x, y: nat | InDir(t', g, d, x, y) && t'.ents(x, y).kind.Named? ensures AtHome(g, t'.ents(x, y), x, y) {
      assert InDir(t, g, d, x, y);
    }
  }

  lemma {:induction false} QuietDots(t: Tree, g: Own, t': Tree)
    requires 2 <= t.slots && KeysOk(t, g) && DotsOk(t, g) && Quiet(t, g, t')
    ensures DotsOk(t', g)
  {
    forall d, x, y: nat | InDir(t', g, d, x, y) && t'.ents(x, y).kind.Dotted? ensures d != t'.root && x == d && y < 2 {
      assert InDir(t, g, d, x, y);
    }
  }

  lemma {:induction false} QuietEnd(t: Tree, g: Own, t': Tree, d: nat, ch: seq<nat>)
    requires Placed(g, d, ch) && EndOk(t, ch) && Quiet(t, g, t')
    ensures EndOk(t', ch)
  {
    forall x: nat, y: nat, x': nat, y': nat | Spot(t', ch, x, y) && Spot(t', ch, x', y') && Before(x, y, x', y')
      ensures t'.ents(ch[x], y).kind.End? ==> !t'.ents(ch[x'], y').Live()
    {
      assert Spot(t, ch, x, y) && Spot(t, ch, x', y');
      assert ch[x] in g.owner && ch[x'] in g.owner;
    }
  }

  lemma {:induction false} QuietKeepsWf(t: Tree, g: Own, t': Tree)
    requires Wf(t, g) && Quiet(t, g, t')
    ensures Wf(t', g)
  {
    QuietHomes(t, g, t');
    QuietDots(t, g, t');
    forall d | d in g.dirs && d in g.chains ensures EndOk(t', g.chains[d]) {
      assert Owns(t.fat, g.owner, d, g.chains[d]);
      QuietEnd(t, g, t', d, g.chains[d]);
    }
  }

  // ---- the ownership is determined by the volume ----

  /** t' has the chain ch more than t, but names nothing that t does not name. */
  ghost predicate Unnamed(t: Tree, g: Own, t': Tree, ch: seq<nat>) {
    && Extended(t.fat, t'.fat, ch) && t'.root == t.root && t'.slots == t.slots
    && forall x, y: nat :: x in g.owner && y < t.slots && t'.ents(x, y).kind.Named? ==> t'.ents(x, y) == t.ents(x, y)
  }

  /** An object both ownerships know has the same chain in both. */
  lemma {:induction false} SameChain(t: Tree, g: Own, t': Tree, g': Own, ch: seq<nat>, s: nat)
    requires FatOk(t.fat) && ChainsOk(t.fat, g) && FatOk(t'.fat) && ChainsOk(t'.fat, g') && Unnamed(t, g, t', ch)
    requires s in g.chains && s in g'.chains
    ensures g'.chains[s] == g.chains[s]
  {
    ExtendedApart(t.fat, t'.fat, g, ch);
    assert Owns(t.fat, g.owner, s, g.chains[s]) && Owns(t'.fat, g'.owner, s, g'.chains[s]);
    ChainFrame(t.fat, t'.fat, g.chains[s]);
    ChainIsUnique(t'.fat, g.chains[s]);
    ChainIsUnique(t'.fat, g'.chains[s]);
  }

  /** A slot of t' in a directory both know is a slot of that directory in t. */
  lemma {:induction false} SameSlot(t: Tree, g: Own, t': Tree, g': Own, ch: seq<nat>, d: nat, c: nat, j: nat)
    requires FatOk(t.fat) && ChainsOk(t.fat, g) && KeysOk(t, g)
    requires FatOk(t'.fat) && ChainsOk(t'.fat, g') && KeysOk(t', g') && Unnamed(t, g, t', ch)
    requires d in g.dirs && InDir(t', g', d, c, j)
    ensures InDir(t, g, d, c, j)
  {
    hide Unnamed, FatOk, IsChain, Extended;
    SameChain(t, g, t', g', ch, d);
    assert IsPlace(g', c, g'.owner[c]);
    assert Owns(t.fat, g.owner, d, g.chains[d]);
    SameWidth(t, g, t', ch);
  }

  lemma {:induction false} SameWidth(t: Tree, g: Own, t': Tree, ch: seq<nat>)
    requires Unnamed(t, g, t', ch)
    ensures t'.slots == t.slots && t'.root == t.root
  {
  }

  lemma {:induction false} DirsAgree(t: Tree, g: Own, t': Tree, g': Own, ch: seq<nat>, d: nat)
    requires Wf(t, g) && Wf(t', g') && Unnamed(t, g, t', ch) && d in g'.dirs
    ensures d in g.dirs
    decreases g'.dirs[d]
  {
    if d != t.root {
      NamedBefore(t, g, t', g', ch, d);
    }
  }

  /** What t' names in its tree, t names too. */
  lemma {:induction false} NamedBefore(t: Tree, g: Own, t': Tree, g': Own, ch: seq<nat>, s: nat)
    requires Wf(t, g) && Wf(t', g') && Unnamed(t, g, t', ch) && s in g'.home
    ensures s in g.home && (s in g'.dirs ==> s in g.dirs)
    decreases if s in g'.dirs then g'.dirs[s] else 1 + g'.dirs[Parent(g', s)], 0
  {
    var p := Parent(g', s);
    var h := g'.home[s];
    assert InDir(t', g', p, h.c, h.j) && Describes(t', g', p, s, t'.ents(h.c, h.j));
    DirsAgree(t, g, t', g', ch, p);
    SameSlot(t, g, t', g', ch, p, h.c, h.j);
    assert s in g'.chains && s != 0;
    assert AtHome(g, t.ents(h.c, h.j), h.c, h.j);
    assert Describes(t, g, Parent(g, s), s, t.ents(g.home[s].c, g.home[s].j));
  }

  /** A chain that no slot names leaves no well-formed volume, unless it is empty. */
  lemma {:induction false} NothingUnnamed(t: Tree, g: Own, t': Tree, g': Own, ch: seq<nat>)
    requires Wf(t, g) && Wf(t', g') && Unnamed(t, g, t', ch)
    ensures ch == []
  {
    if ch != [] {
      ExtendedApart(t.fat, t'.fat, g, ch);
      LinkedNonzero(t'.fat, ch, 0);
      var s := g'.owner[ch[0]].s;
      assert IsPlace(g', ch[0], g'.owner[ch[0]]);
      if s != t.root { NamedBefore(t, g, t', g', ch, s); }
      SameChain(t, g, t', g', ch, s);
    }
  }

  /** t' keeps the clusters of every directory of t and what their slots hold. */
  ghost predicate DirsKept(t: Tree, g: Own, t': Tree) {
    && t'.root == t.root && t'.slots == t.slots && |t'.fat| == |t.fat|
    && forall x :: x in g.owner && g.owner[x].s in g.dirs ==>
         Inside(t.fat, x) && t'.fat[x] == t.fat[x] && forall y: nat :: y < t.slots ==> t'.ents(x, y) == t.ents(x, y)
  }

  /** A directory whose clusters and slots are kept is the same directory whatever ownership accounts for t'. */
  lemma {:induction false} DirsStay(t: Tree, g: Own, t': Tree, g': Own, d: nat)
    requires Wf(t, g) && Wf(t', g') && DirsKept(t, g, t') && d in g.dirs
    ensures d in g'.dirs && d in g.chains && d in g'.chains && g'.chains[d] == g.chains[d]
    decreases g.dirs[d]
  {
    hide Owns, InDir, Describes, AtHome, IsPlace, DotsOk, EndsOk, FatOk, HomesOk, EntriesOk, ChainsOk, DirsKept, Parent;
    if d != t.root {
      DirHasHome(t, g, d);
      var p, h := Parent(g, d), g.home[d];
      DirsStay(t, g, t', g', p);
      SlotStays(t, g, t', g', p, h.c, h.j);
      NamesDir(t', g', p, h.c, h.j);
    } else {
      RootStays(t, g, t', g');
    }
    ChainStays(t, g, t', g', d);
  }

  lemma {:induction false} RootStays(t: Tree, g: Own, t': Tree, g': Own)
    requires KeysOk(t', g') && DirsKept(t, g, t')
    ensures t.root in g'.dirs
  {
  }

  lemma {:induction false} DirHasHome(t: Tree, g: Own, d: nat)
    requires KeysOk(t, g) && HomesOk(t, g) && d in g.dirs && d != t.root
    ensures d in g.home && Parent(g, d) in g.dirs && g.dirs[d] == g.dirs[Parent(g, d)] + 1
    ensures var h := g.home[d];
            && InDir(t, g, Parent(g, d), h.c, h.j)
            && var e := t.ents(h.c, h.j); e.kind.Named? && e.isDir && e.start == d
  {
  }

  lemma {:induction false} NamesDir(t: Tree, g: Own, d: nat, c: nat, j: nat)
    requires HomesOk(t, g) && EntriesOk(t, g) && InDir(t, g, d, c, j) && t.ents(c, j).kind.Named? && t.ents(c, j).isDir
    ensures t.ents(c, j).start in g.dirs
  {
    assert AtHome(g, t.ents(c, j), c, j);
    var s := t.ents(c, j).start;
    assert Describes(t, g, Parent(g, s), s, t.ents(g.home[s].c, g.home[s].j));
  }

  lemma {:induction false} ChainStays(t: Tree, g: Own, t': Tree, g': Own, d: nat)
    requires FatOk(t.fat) && FatOk(t'.fat) && ChainsOk(t.fat, g) && KeysOk(t, g) && ChainsOk(t'.fat, g')
    requires KeysOk(t', g')
    requires DirsKept(t, g, t') && d in g.dirs && d in g'.dirs
    ensures d in g.chains && d in g'.chains && g'.chains[d] == g.chains[d]
  {
    hide FatOk, Owns, IsPlace, IsChain, ChainOf;
    var ch, ch' := g.chains[d], g'.chains[d];
    OwnedChain(t.fat, g.owner, d, ch);
    OwnedChain(t'.fat, g'.owner, d, ch');
    ChainFrame(t.fat, t'.fat, ch);
    ChainIsUnique(t'.fat, ch);
    ChainIsUnique(t'.fat, ch');
  }

  lemma {:induction false} OwnedChain(fat: seq<nat>, owner: map<nat, Place>, s: nat, ch: seq<nat>)
    requires Owns(fat, owner, s, ch)
    ensures IsChain(fat, ch) && |ch| > 0 && ch[0] == s
    ensures forall k :: 0 <= k < |ch| ==> ch[k] in owner && owner[ch[k]].s == s && Inside(fat, ch[k])
  {
  }

  lemma {:induction false} SlotStays(t: Tree, g: Own, t': Tree, g': Own, d: nat, c: nat, j: nat)
    requires ChainsOk(t.fat, g) && ChainsOk(t'.fat, g') && DirsKept(t, g, t') && InDir(t, g, d, c, j)
    requires d in g'.dirs && d in g'.chains && g'.chains[d] == g.chains[d]
    ensures InDir(t', g', d, c, j) && t'.ents(c, j) == t.ents(c, j)
  {
    assert IsPlace(g, c, g.owner[c]);
    assert Owns(t'.fat, g'.owner, d, g'.chains[d]);
  }

  // ---- scanning a directory ----

  datatype Pos = Nowhere | At(i: nat, j: nat)

  /** The first slot from position (i, j) on that satisfies hit, unless a stop slot comes first. */
  function Scan(t: Tree, ch: seq<nat>, i: nat, j: nat, hit: Entry -> bool, stop: Entry -> bool): (p: Pos)
    requires i <= |ch| && j <= t.slots
    ensures p.At? ==> Spot(t, ch, p.i, p.j) && hit(t.ents(ch[p.i], p.j)) && !stop(t.ents(ch[p.i], p.j))
    ensures p.At? ==> !Before(p.i, p.j, i, j)
    decreases |ch| - i, t.slots - j
  {
    if i == |ch| then Nowhere
    else if j == t.slots then Scan(t, ch, i + 1, 0, hit, stop)
    else if stop(t.ents(ch[i], j)) then Nowhere
    else if hit(t.ents(ch[i], j)) then At(i, j)
    else Scan(t, ch, i, j + 1, hit, stop)
  }

  /** A scan, one slot at a time. */
  lemma {:induction false} ScanUnfold(t: Tree, ch: seq<nat>, i: nat, j: nat, hit: Entry -> bool, stop: Entry -> bool)
    requires i < |ch| && j < t.slots
    ensures var e := t.ents(ch[i], j);
            Scan(t, ch, i, j, hit, stop) ==
            if stop(e) then Nowhere else if hit(e) then At(i, j) else Scan(t, ch, i, j + 1, hit, stop)
  {
  }

  lemma {:induction false} ScanRow(t: Tree, ch: seq<nat>, i: nat, hit: Entry -> bool, stop: Entry -> bool)
    requires i < |ch|
    ensures Scan(t, ch, i, t.slots, hit, stop) == Scan(t, ch, i + 1, 0, hit, stop)
  {
  }

  lemma {:induction false} ScanDone(t: Tree, ch: seq<nat>, hit: Entry -> bool, stop: Entry -> bool)
    ensures Scan(t, ch, |ch|, 0, hit, stop) == Nowhere
  {
  }

  /** What a scan finds is the first hit, and no stop slot precedes it. */
  lemma {:induction false} ScanFindsFirst(t: Tree, ch: seq<nat>, i: nat, j: nat, hit: Entry -> bool,
                                          stop: Entry -> bool, x: nat, y: nat)
    requires i <= |ch| && j <= t.slots && Scan(t, ch, i, j, hit, stop).At?
    requires Spot(t, ch, x, y) && !Before(x, y, i, j)
    requires var p := Scan(t, ch, i, j, hit, stop); Before(x, y, p.i, p.j)
    ensures !hit(t.ents(ch[x], y)) && !stop(t.ents(ch[x], y))
    decreases |ch| - i, t.slots - j
  {
    if j == t.slots {
      ScanFindsFirst(t, ch, i + 1, 0, hit, stop, x, y);
    } else if x != i || y != j {
      ScanFindsFirst(t, ch, i, j + 1, hit, stop, x, y);
    }
  }

  /** A scan that finds nothing has met a stop slot at or before every hit. */
  lemma {:induction false} ScanMissesNothing(t: Tree, ch: seq<nat>, i: nat, j: nat, hit: Entry -> bool,
                                             stop: Entry -> bool, x: nat, y: nat)
    requires i <= |ch| && j <= t.slots && Scan(t, ch, i, j, hit, stop).Nowhere?
    requires Spot(t, ch, x, y) && !Before(x, y, i, j) && hit(t.ents(ch[x], y))
    ensures exists x': nat, y': nat :: Spot(t, ch, x', y') && !Before(x, y, x', y') && stop(t.ents(ch[x'], y'))
    decreases |ch| - i, t.slots - j
  {
    if j == t.slots {
      ScanMissesNothing(t, ch, i + 1, 0, hit, stop, x, y);
    } else if stop(t.ents(ch[i], j)) {
      assert Spot(t, ch, i, j);
    } else {
      ScanMissesNothing(t, ch, i, j + 1, hit, stop, x, y);
    }
  }

  function AtEnd(): Entry -> bool { (e: Entry) => e.kind.End? }
  function Never(): Entry -> bool { (e: Entry) => false }
  function IsFree(): Entry -> bool { (e: Entry) => e.Free() }
  function IsCalled(name: seq<byte>): Entry -> bool { (e: Entry) => e.Live() && e.name == name }

  /** An end mark hides nothing: a lookup that stops there finds every live slot that satisfies hit. */
  lemma {:induction false} LookupIsComplete(t: Tree, ch: seq<nat>, hit: Entry -> bool, x: nat, y: nat)
    requires EndOk(t, ch) && Spot(t, ch, x, y) && hit(t.ents(ch[x], y)) && t.ents(ch[x], y).Live()
    ensures Scan(t, ch, 0, 0, hit, AtEnd()).At?
  {
    if Scan(t, ch, 0, 0, hit, AtEnd()).Nowhere? {
      ScanMissesNothing(t, ch, 0, 0, hit, AtEnd(), x, y);
    }
  }
}
