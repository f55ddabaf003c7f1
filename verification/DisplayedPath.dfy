/** The path the shell displays and the directory it is in: when walking the one from the root leads to the other. */
module DisplayedPath {
  import opened Bytes
  import opened FatChains
  import opened FatTree
  import opened FatDirectory
  import opened FatNames
  import opened FatVolume
  import opened FatSafety
  import opened FatRuns
  import opened FatTheorems
  import opened ShellPaths

  // ---- the displayed path as components ----

  /** A component as displayed: not a dot name, short enough to be one token. */
  predicate Part(t: seq<byte>) { 1 <= |t| <= 12 && SLASH !in t && CString(t) && !DotName(t) }

  predicate Parts(ts: seq<seq<byte>>) { forall k :: 0 <= k < |ts| ==> Part(ts[k]) }

  function Render(ts: seq<seq<byte>>): seq<byte> { if ts == [] then [] else [SLASH] + ts[0] + Render(ts[1..]) }

  function Shown(ts: seq<seq<byte>>): seq<byte> { if ts == [] then ROOT_PATH else Render(ts) }

  lemma {:induction false} RenderSnoc(ts: seq<seq<byte>>, t: seq<byte>)
    ensures Render(ts + [t]) == Render(ts) + [SLASH] + t
    decreases |ts|
  {
    if ts == [] {
      assert [t][1..] == [] && Render([t]) == [SLASH] + t;
      assert ts + [t] == [t];
    } else {
      RenderSnoc(ts[1..], t);
      assert (ts + [t])[1..] == ts[1..] + [t];
    }
  }

  lemma {:induction false} TokensNone()
    ensures Tokens([]) == []
  {
  }

  lemma {:induction false} TokensSlash(path: seq<byte>)
    requires path != [] && path[0] == SLASH
    ensures Tokens(path) == Tokens(path[1..])
  {
    hide Tokens, Pending;
    LeadingSlash(path);
    PendingStart(path[1..]);
  }

  lemma {:induction false} TokensOne(t: seq<byte>, rest: seq<byte>)
    requires Part(t) && (rest == [] || rest[0] == SLASH)
    ensures Tokens(t + rest) == [t] + if rest == [] then [] else Tokens(rest[1..])
  {
    var s := t + rest;
    UntilIs(s, SLASH, |t|);
    assert s[..|t|] == t && Take(t, TOKEN_MAX) == t;
    if rest != [] { assert s[|t| + 1..] == rest[1..]; }
  }

  /** Taking a displayed path apart gives the components it was put together from. */
  lemma {:induction false} TokensRender(ts: seq<seq<byte>>)
    requires Parts(ts)
    ensures Tokens(Render(ts)) == ts
    decreases |ts|
  {
    hide Tokens, Part;
    if ts == [] {
      TokensNone();
    } else {
      var rest := Render(ts[1..]);
      TokensRender(ts[1..]);
      TokensSlash(Render(ts));
      assert Render(ts)[1..] == ts[0] + rest;
      TokensOne(ts[0], rest);
      if rest == [] { TokensNone(); } else { TokensSlash(rest); }
    }
  }

  lemma {:induction false} TokensShown(ts: seq<seq<byte>>)
    requires Parts(ts)
    ensures Tokens(Shown(ts)) == ts && Shown(ts)[0] == SLASH
  {
    TokensRender(ts);
    if ts == [] { TokensSlash(ROOT_PATH); }
  }

  /** There is room for one more component behind the displayed path. */
  predicate Room(path: seq<byte>, name: seq<byte>) { |path| + 1 + |Display(name)| + 1 < PATH_MAX }

  lemma {:induction false} PushParts(ts: seq<seq<byte>>, name: seq<byte>)
    requires Parts(ts)
    ensures Push(Shown(ts), name) == if Room(Shown(ts), name) then Shown(ts + [Display(name)]) else Shown(ts)
  {
    RenderSnoc(ts, Display(name));
  }

  lemma {:induction false} PopParts(ts: seq<seq<byte>>)
    requires Parts(ts)
    ensures Pop(Shown(ts)) == Shown(if ts == [] then [] else ts[..|ts| - 1])
  {
    if ts != [] {
      var us, t := ts[..|ts| - 1], ts[|ts| - 1];
      assert ts == us + [t];
      RenderSnoc(us, t);
      var q, k := Shown(ts), |Render(us)| + 1;
      assert forall i :: k <= i < |q| ==> q[i] == t[i - k];
      LastSlashIs(q, |q|, k);
      assert q[..|Render(us)|] == Render(us);
    }
  }

  lemma {:induction false} DisplayIsPart(tok: seq<byte>)
    requires Token(tok) && !DotName(tok)
    ensures Part(Display(tok))
  {
    var up := Display(tok);
    assert forall i :: 0 <= i < |up| ==> up[i] == Upper(tok[i]);
    if |up| <= 2 { assert |up| == |tok|; }
  }

  /** A path the shell can be displaying. */
  ghost predicate Wellshown(path: seq<byte>) { exists ts :: Parts(ts) && path == Shown(ts) }

  predicate Token(tok: seq<byte>) { 1 <= |tok| <= TOKEN_MAX && SLASH !in tok && CString(tok) }

  lemma {:induction false} ShowKeepsWellshown(path: seq<byte>, tok: seq<byte>)
    requires Wellshown(path) && Token(tok)
    ensures Wellshown(Show(path, tok))
  {
    hide Shown, Push, Pop, Part, Display;
    var ts :| Parts(ts) && path == Shown(ts);
    if tok == [PERIOD, PERIOD] {
      PopParts(ts);
    } else if tok != [PERIOD] {
      PushParts(ts, tok);
      DisplayIsPart(tok);
    }
  }

  // ---- walking the displayed path ----

  /** The displayed path is right: walking it, from the root, leads to the current directory. */
  predicate Right(v: Volume, path: seq<byte>)
    requires Shape(v)
  {
    ChdirPath(v, path) == Outcome(true, v)
  }

  function AtRoot(v: Volume): Volume { v.(cwd := v.root) }

  lemma {:induction false} WalkShown(v: Volume, ts: seq<seq<byte>>)
    requires Shape(v) && Parts(ts)
    ensures ChdirPath(v, Shown(ts)) == ChdirAll(AtRoot(v), ts)
  {
    TokensShown(ts);
  }

  /** A walk down k components ends k levels below where it began. */
  lemma {:induction false} WalkGoesDown(v: Volume, g: Own, ts: seq<seq<byte>>)
    requires WfVolume(v, g) && Parts(ts) && ChdirAll(v, ts).ok
    ensures var w := ChdirAll(v, ts).v;
            WfVolume(w, g) && v.cwd in g.dirs && w.cwd in g.dirs && g.dirs[w.cwd] == g.dirs[v.cwd] + |ts|
    decreases |ts|
  {
    hide Wf, FatVolume.Chdir, Shape;
    RootIsDir(TreeOf(v), g);
    if ts != [] {
      StepDown(v, g, ts[0]);
      ChdirAllUnfold(v, ts);
      WalkGoesDown(FatVolume.Chdir(v, ts[0]).v, g, ts[1..]);
    }
  }

  lemma {:induction false} ChdirAllUnfold(v: Volume, ts: seq<seq<byte>>)
    requires Shape(v) && ts != [] && ChdirAll(v, ts).ok
    ensures FatVolume.Chdir(v, ts[0]).ok && ChdirAll(v, ts) == ChdirAll(FatVolume.Chdir(v, ts[0]).v, ts[1..])
  {
    hide FatVolume.Chdir;
  }

  lemma {:induction false} StepDown(v: Volume, g: Own, name: seq<byte>)
    requires WfVolume(v, g) && CString(name) && SLASH !in name && !DotName(name)
    ensures var r := FatVolume.Chdir(v, name);
            r.ok ==> WfVolume(r.v, g) && v.cwd in g.dirs && r.v.cwd in g.dirs && g.dirs[r.v.cwd] == g.dirs[v.cwd] + 1
                     && Parent(g, r.v.cwd) == v.cwd && r.v.cwd != v.root && r.v == v.(cwd := r.v.cwd)
  {
    hide HomesOk, EntriesOk, DotsOk, EndsOk, ChainsOk, FatVolume.Chdir, Parent;
    if FatVolume.Chdir(v, name).ok {
      ChdirDown(v, g, name);
      ChdirKeepsSound(v, g, name);
      DirHasHome(TreeOf(v), g, FatVolume.Chdir(v, name).v.cwd);
    }
  }

  /** The slot form of the component survives its display, which is cut to 12 bytes. */
  predicate Uncut(tok: seq<byte>) { ToShort(Display(tok)) == ToShort(tok) }

  /** A component of at most 12 bytes, or with at most 8 before its period, survives. */
  lemma {:induction false} ShortIsUncut(tok: seq<byte>)
    requires |tok| <= 12 || Until(tok, PERIOD) <= 8
    ensures Uncut(tok)
  {
    hide Base, Ext, Take, Padded;
    var cut := Take(tok, 12);
    UpperKeepsParts(cut);
    CutKeepsParts(tok);
  }

  lemma {:induction false} UpperKeepsParts(s: seq<byte>)
    ensures Base(UpperAll(s)) == Base(s) && Ext(UpperAll(s)) == Ext(s)
  {
    var up, n := UpperAll(s), Until(s, PERIOD);
    UntilIs(up, PERIOD, n);
    UpperTake(s[..n], 8);
    assert up[..n] == UpperAll(s[..n]);
    if n < |s| {
      UpperTake(s[n + 1..], 3);
      assert up[n + 1..] == UpperAll(s[n + 1..]);
    }
  }

  lemma {:induction false} UpperTake(s: seq<byte>, n: nat)
    ensures UpperAll(Take(UpperAll(s), n)) == UpperAll(Take(s, n))
  {
  }

  lemma {:induction false} CutKeepsParts(tok: seq<byte>)
    requires |tok| <= 12 || Until(tok, PERIOD) <= 8
    ensures Base(Take(tok, 12)) == Base(tok) && Ext(Take(tok, 12)) == Ext(tok)
  {
    if |tok| > 12 {
      var cut, n := tok[..12], Until(tok, PERIOD);
      UntilIs(cut, PERIOD, n);
      assert cut[..n] == tok[..n];
      assert Take(cut[n + 1..], 3) == Take(tok[n + 1..], 3);
    }
  }

  /** In a directory, two names that lead to the same subdirectory have the same slot form. */
  lemma {:induction false} OneNameEach(v: Volume, g: Own, a: seq<byte>, b: seq<byte>)
    requires WfVolume(v, g) && CString(a) && CString(b) && Component(a) && Component(b)
    requires FatVolume.Chdir(v, a).ok
    ensures FatVolume.Chdir(v, b) == FatVolume.Chdir(v, a) <==> ToShort(b) == ToShort(a)
  {
    hide Wf, ToShort, Scan;
    if FatVolume.Chdir(v, b) == FatVolume.Chdir(v, a) {
      SlotOfChild(v, g, a);
      SlotOfChild(v, g, b);
    }
  }

  /** The slot form is read back from the slot that names the directory entered. */
  lemma {:induction false} SlotOfChild(v: Volume, g: Own, name: seq<byte>)
    requires WfVolume(v, g) && CString(name) && Component(name) && FatVolume.Chdir(v, name).ok
    ensures var d := FatVolume.Chdir(v, name).v.cwd;
            d in g.home && TreeOf(v).ents(g.home[d].c, g.home[d].j).name == ToShort(name)
  {
    hide Wf, ToShort;
    FoundIsNamed(v, g, name);
    var p := Lookup(v, ToShort(name));
    NamedIsOwned(TreeOf(v), g, v.cwd, Cwd(v)[p.i], p.j);
  }

  /**
   * What the display of one component needs: nothing for a dot name, else room and a slot form that survives the cut.
   */
  predicate Fits(path: seq<byte>, tok: seq<byte>) { DotName(tok) || (Room(path, tok) && Uncut(tok)) }

  /** One component entered: a right display stays right exactly when the component fits. */
  lemma {:induction false} RightIffFits(v: Volume, g: Own, path: seq<byte>, tok: seq<byte>)
    requires WfVolume(v, g) && Wellshown(path) && Right(v, path) && Token(tok) && FatVolume.Chdir(v, tok).ok
    ensures WfVolume(FatVolume.Chdir(v, tok).v, g)
    ensures Right(FatVolume.Chdir(v, tok).v, Show(path, tok)) <==> Fits(path, tok)
  {
    hide Wf, Shape, FatVolume.Chdir, ChdirPath, Shown, Push, Pop, Room, Uncut, Part, Display;
    var ts :| Parts(ts) && path == Shown(ts);
    ChdirKeepsSound(v, g, tok);
    if tok == [PERIOD] {
      StayPut(v);
    } else if tok == [PERIOD, PERIOD] {
      RightAfterUp(v, g, ts);
    } else {
      RightAfterDown(v, g, ts, tok);
    }
  }

  lemma {:induction false} StayPut(v: Volume)
    requires Shape(v)
    ensures FatVolume.Chdir(v, [PERIOD]) == Outcome(true, v)
  {
  }

  lemma {:induction false} RootWf(v: Volume, g: Own)
    requires WfVolume(v, g)
    ensures WfVolume(AtRoot(v), g) && v.root in g.dirs && g.dirs[v.root] == 0
  {
    hide HomesOk, EntriesOk, DotsOk, EndsOk, ChainsOk;
    MoveKeepsWf(v, g, v.root);
  }

  lemma {:induction false} RightAfterUp(v: Volume, g: Own, ts: seq<seq<byte>>)
    requires WfVolume(v, g) && Parts(ts) && Right(v, Shown(ts)) && FatVolume.Chdir(v, [PERIOD, PERIOD]).ok
    ensures WfVolume(FatVolume.Chdir(v, [PERIOD, PERIOD]).v, g)
    ensures Right(FatVolume.Chdir(v, [PERIOD, PERIOD]).v, Pop(Shown(ts)))
  {
    hide Wf, Shape, FatVolume.Chdir, ChdirPath, Shown, Pop, ChdirAll, Part;
    var w := FatVolume.Chdir(v, [PERIOD, PERIOD]).v;
    ChdirKeepsSound(v, g, [PERIOD, PERIOD]);
    ChdirUp(v, g);
    PopParts(ts);
    WalkShown(v, ts);
    RootWf(v, g);
    WalkGoesDown(AtRoot(v), g, ts);
    if ts == [] {
      ChdirNone(AtRoot(v));
      assert w == v;
    } else {
      var us, t := ts[..|ts| - 1], ts[|ts| - 1];
      assert us + [t] == ts && Part(t);
      ChdirAllSnoc(AtRoot(v), us, t);
      WalkShown(w, us);
      PartIsName(t);
      WalkGoesDown(AtRoot(v), g, us);
      StepDown(ChdirAll(AtRoot(v), us).v, g, t);
    }
  }

  lemma {:induction false} PartIsName(t: seq<byte>)
    requires Part(t)
    ensures CString(t) && SLASH !in t && !DotName(t) && Component(t)
  {
  }

  lemma {:induction false} RightAfterDown(v: Volume, g: Own, ts: seq<seq<byte>>, tok: seq<byte>)
    requires WfVolume(v, g) && Parts(ts) && Right(v, Shown(ts)) && Token(tok) && !DotName(tok)
    requires FatVolume.Chdir(v, tok).ok
    ensures WfVolume(FatVolume.Chdir(v, tok).v, g)
    ensures Right(FatVolume.Chdir(v, tok).v, Push(Shown(ts), tok)) <==> Room(Shown(ts), tok) && Uncut(tok)
  {
    hide Wf, FatOk, FatVolume.Chdir, ChdirPath, Shown, Push, Room, Part, Display, ChdirAll, ToShort, Parent;
    var w, up := FatVolume.Chdir(v, tok).v, Display(tok);
    StepDown(v, g, tok);
    assert AtRoot(w) == AtRoot(v);
    PushParts(ts, tok);
    WalkShown(v, ts);
    DisplayIsPart(tok);
    PartIsName(up);
    if Room(Shown(ts), tok) {
      WalkShown(w, ts + [up]);
      ChdirAllSnoc(AtRoot(v), ts, up);
      OneNameEach(v, g, tok, up);
    } else {
      WalkShown(w, ts);
    }
  }

  // ---- a whole walk ----

  /** The k-th directory of a walk, and what is displayed there. */
  function After(v: Volume, ts: seq<seq<byte>>, k: nat): (w: Volume)
    requires Shape(v) && k <= |ts|
    ensures Shape(w)
  {
    ChdirAll(v, ts[..k]).v
  }

  function ShownAfter(path: seq<byte>, ts: seq<seq<byte>>, k: nat): seq<byte>
    requires k <= |ts|
  {
    ShowAll(path, ts[..k])
  }

  predicate AllTokens(ts: seq<seq<byte>>) { forall k :: 0 <= k < |ts| ==> Token(ts[k]) }

  lemma {:induction false} AfterStep(v: Volume, path: seq<byte>, ts: seq<seq<byte>>, k: nat)
    requires Shape(v) && ChdirAll(v, ts).ok && k < |ts|
    ensures FatVolume.Chdir(After(v, ts, k), ts[k]) == Outcome(true, After(v, ts, k + 1))
    ensures ShownAfter(path, ts, k + 1) == Show(ShownAfter(path, ts, k), ts[k])
  {
    hide FatVolume.Chdir, Shape, ChdirAll, ShowAll, Show;
    var a, b := ts[..k], ts[..k + 1];
    assert b == a + [ts[k]] && ts == b + ts[k + 1..];
    if !ChdirAll(v, b).ok { ChdirAllStops(v, b, ts[k + 1..]); }
    ChdirAllSnoc(v, a, ts[k]);
    ShowMore(path, a, ts[k]);
  }

  /** Along a walk the volume stays well formed and the display well shown. */
  lemma {:induction false} AlongWalk(v: Volume, g: Own, path: seq<byte>, ts: seq<seq<byte>>, k: nat)
    requires WfVolume(v, g) && Wellshown(path) && AllTokens(ts) && ChdirAll(v, ts).ok && k <= |ts|
    ensures WfVolume(After(v, ts, k), g) && Wellshown(ShownAfter(path, ts, k))
    decreases k
  {
    hide Wf, Shape, FatVolume.Chdir, ChdirAll, ShowAll, Show, Wellshown, After, ShownAfter;
    if k == 0 {
      BeforeWalk(v, path, ts);
    } else {
      AlongWalk(v, g, path, ts, k - 1);
      AfterStep(v, path, ts, k - 1);
      ChdirKeepsSound(After(v, ts, k - 1), g, ts[k - 1]);
      ShowKeepsWellshown(ShownAfter(path, ts, k - 1), ts[k - 1]);
    }
  }

  lemma {:induction false} BeforeWalk(v: Volume, path: seq<byte>, ts: seq<seq<byte>>)
    requires Shape(v)
    ensures After(v, ts, 0) == v && ShownAfter(path, ts, 0) == path
  {
    assert ts[..0] == [];
  }

  lemma {:induction false} RightStep(v: Volume, g: Own, path: seq<byte>, ts: seq<seq<byte>>, k: nat)
    requires WfVolume(v, g) && Wellshown(path) && AllTokens(ts) && ChdirAll(v, ts).ok && k < |ts|
    requires Right(After(v, ts, k), ShownAfter(path, ts, k))
    ensures Right(After(v, ts, k + 1), ShownAfter(path, ts, k + 1)) <==> Fits(ShownAfter(path, ts, k), ts[k])
  {
    hide Wf, Shape, FatVolume.Chdir, ChdirAll, ShowAll, Show, Wellshown, After, ShownAfter, Right, Fits;
    AlongWalk(v, g, path, ts, k);
    AfterStep(v, path, ts, k);
    RightIffFits(After(v, ts, k), g, ShownAfter(path, ts, k), ts[k]);
  }

  lemma {:induction false} RightWhileFits(v: Volume, g: Own, path: seq<byte>, ts: seq<seq<byte>>, n: nat)
    requires WfVolume(v, g) && Wellshown(path) && Right(v, path) && AllTokens(ts) && ChdirAll(v, ts).ok && n <= |ts|
    requires forall k :: 0 <= k < |ts| ==> Fits(ShownAfter(path, ts, k), ts[k])
    ensures Right(After(v, ts, n), ShownAfter(path, ts, n))
    decreases n
  {
    hide Wf, Shape, ChdirAll, ShowAll, Wellshown, After, ShownAfter, Right, Fits;
    if n == 0 {
      BeforeWalk(v, path, ts);
    } else {
      RightWhileFits(v, g, path, ts, n - 1);
      RightStep(v, g, path, ts, n - 1);
    }
  }

  /** Along a whole walk the display is right after every component, exactly when every component fits in its turn. */
  lemma {:induction false} WalkIsRightIff(v: Volume, g: Own, path: seq<byte>, ts: seq<seq<byte>>)
    requires WfVolume(v, g) && Wellshown(path) && Right(v, path) && AllTokens(ts) && ChdirAll(v, ts).ok
    ensures (forall k :: 0 <= k <= |ts| ==> Right(After(v, ts, k), ShownAfter(path, ts, k)))
            <==> (forall k :: 0 <= k < |ts| ==> Fits(ShownAfter(path, ts, k), ts[k]))
  {
    hide Wf, Shape, ChdirAll, ShowAll, Wellshown, After, ShownAfter, Right, Fits;
    if forall k :: 0 <= k < |ts| ==> Fits(ShownAfter(path, ts, k), ts[k]) {
      forall n | 0 <= n <= |ts|
        ensures Right(After(v, ts, n), ShownAfter(path, ts, n))
      {
        RightWhileFits(v, g, path, ts, n);
      }
    } else {
      var k :| 0 <= k < |ts| && !Fits(ShownAfter(path, ts, k), ts[k]);
      if Right(After(v, ts, k), ShownAfter(path, ts, k)) {
        RightStep(v, g, path, ts, k);
        assert !Right(After(v, ts, k + 1), ShownAfter(path, ts, k + 1));
      }
    }
  }

  lemma {:induction false} TokensAreTokens(path: seq<byte>)
    requires CString(path)
    ensures AllTokens(Tokens(path))
    decreases |path|
  {
    var n := Until(path, SLASH);
    if n < |path| { TokensAreTokens(path[n + 1..]); }
  }

  /** cd: if what is displayed is right and every component of the path fits, what cd displays is right. */
  lemma {:induction false} CdShowsWhereItIs(v: Volume, g: Own, shown: seq<byte>, path: seq<byte>)
    requires WfVolume(v, g) && Wellshown(shown) && Right(v, shown) && CString(path) && ChdirPath(v, path).ok
    requires var start := if path != [] && path[0] == SLASH then ROOT_PATH else shown;
             forall k :: 0 <= k < |Tokens(path)| ==> Fits(ShownAfter(start, Tokens(path), k), Tokens(path)[k])
    ensures var start := if path != [] && path[0] == SLASH then ROOT_PATH else shown;
            Right(ChdirPath(v, path).v, ShowAll(start, Tokens(path)))
  {
    hide Wf, Shape, ChdirAll, ShowAll, Tokens, Fits;
    var o, ts := Origin(v, path), Tokens(path);
    var start := if path != [] && path[0] == SLASH then ROOT_PATH else shown;
    TokensAreTokens(path);
    if path != [] && path[0] == SLASH {
      RootWf(v, g);
      RootIsRight(v);
    }
    RightWhileFits(o, g, start, ts, |ts|);
    assert ts[..|ts|] == ts;
  }

  lemma {:induction false} RootIsRight(v: Volume)
    requires Shape(v)
    ensures Wellshown(ROOT_PATH) && Right(AtRoot(v), ROOT_PATH)
  {
    hide FatOk;
    assert Parts([]) && Shown([]) == ROOT_PATH;
    WalkShown(AtRoot(v), []);
    ChdirNone(AtRoot(v));
  }

  lemma {:induction false} ExtIs(name: seq<byte>, n: nat)
    requires n < |name| && name[n] == PERIOD && forall i :: 0 <= i < n ==> name[i] != PERIOD
    ensures Ext(name) == UpperAll(Take(name[n + 1..], 3))
  {
    UntilIs(name, PERIOD, n);
  }

  /** With the period just before the cut, what follows it is not displayed. */
  lemma {:induction false} CutLosesExt(tok: seq<byte>)
    requires |tok| > 12 && tok[11] == PERIOD && (forall i :: 0 <= i < 11 ==> tok[i] != PERIOD) && tok[12] != SPACE
    ensures !Uncut(tok)
  {
    var up := Display(tok);
    assert forall i :: 0 <= i < 12 ==> up[i] == Upper(tok[i]);
    ExtIs(up, 11);
    ExtIs(tok, 11);
    assert Ext(tok)[0] == Upper(tok[12]);
    assert ToShort(up)[8..][0] == SPACE && ToShort(tok)[8..][0] == Ext(tok)[0];
  }
}
