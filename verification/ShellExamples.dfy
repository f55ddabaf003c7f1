/** Concrete runs of the shell that leave it somewhere it should not be. */
module ShellExamples {
  import opened Bytes
  import opened FatChains
  import opened FatTree
  import opened FatDirectory
  import opened FatNames
  import opened FatVolume
  import opened FatSafety
  import opened FatRuns
  import opened FatTheorems
  import opened FatExamples
  import opened ShellPaths
  import opened DisplayedPath

  const ABSOLUTE: seq<byte> := [SLASH, 0x41]

  /** The root holds, in its first slot, the empty directory name in cluster 3. */
  ghost predicate OneDir(v: Volume, name: seq<byte>) {
    && Shape(v) && |v.fat| == 4 && v.slots == 16 && v.root == 2 && v.cwd == 2
    && Cwd(v) == [2] && ChainOf(v.fat, 3) == [3] && FreshDir(TreeOf(v), 3, 0)
    && Lookup(v, ToShort(name)) == At(0, 0) && IsDir(SlotOf(v, 2, 0)) && StartOf(SlotOf(v, 2, 0)) == 3
  }

  lemma {:induction false} NewChains(v: Volume)
    requires Shape(v) && |v.fat| == 4 && v.fat[2] == END_OF_CHAIN && v.fat[3] == END_OF_CHAIN
    ensures ChainOf(v.fat, 2) == [2] && ChainOf(v.fat, 3) == [3]
  {
    assert IsChain(v.fat, [2]) && IsChain(v.fat, [3]);
    ChainIsUnique(v.fat, [2]);
    ChainIsUnique(v.fat, [3]);
  }

  /** Making the directory. */
  lemma {:induction false} FirstMkdir(v: Volume, g: Own, name: seq<byte>)
    requires Small(v, g) && v.root == 2 && v.fat[2] == END_OF_CHAIN && Lookup(v, ToShort(name)).Nowhere?
    requires CString(name) && !Erasing(name)
    ensures Mkdir(v, name).ok && OneDir(Mkdir(v, name).v, name) && Sound(Mkdir(v, name).v)
  {
    hide Wf, FatVolume.Lookup, FatVolume.FreePos, ToShort, FirstFree, DotBlock, NewSlot;
    AllocFailsOnlyWhenFull(v.fat, v.hint);
    var c := FirstFree(v.fat, v.hint, 0);
    assert c in FreeSet(v.fat);
    var e := NewSlot(ToShort(name), ATTR_DIRECTORY, 3, 0);
    var w := WithNewDir(v, 3);
    var v' := PutAt(w, 2, 0, e);
    assert Mkdir(v, name) == Outcome(true, v');
    var g' := MkdirKeepsSound(v, g, name);
    NewChains(v');
    FreshFromDots(v', 3, 0);
    NewDirFound(w, e, name);
  }

  lemma {:induction false} NewDirFound(w: Volume, e: Slot, name: seq<byte>)
    requires Shape(w) && |w.fat| == 4 && w.slots == 16 && w.cwd == 2 && ChainOf(w.fat, 2) == [2]
    requires CString(name) && !Erasing(name) && e == NewSlot(ToShort(name), ATTR_DIRECTORY, 3, 0)
    ensures var v := PutAt(w, 2, 0, e);
            Lookup(v, ToShort(name)) == At(0, 0) && SlotOf(v, 2, 0) == e && IsDir(e) && StartOf(e) == 3
  {
    hide ToShort, Follow;
    var v := PutAt(w, 2, 0, e);
    ShortFirst(name);
    NewSlotKind(ToShort(name), ATTR_DIRECTORY, 3, 0);
    PutAtEntry(w, 2, 0, e, 2, 0);
    ScanUnfold(TreeOf(v), Cwd(v), 0, 0, IsCalled(ToShort(name)), AtEnd());
  }

  /** The new directory passes the emptiness check. */
  lemma {:induction false} NewDirIsEmpty(v: Volume)
    requires OneDir(v, LETTER)
    ensures IsEmptyDir(v, 3)
  {
    hide FatVolume.Lookup, ToShort, Cwd;
    var t := TreeOf(v);
    ScanUnfold(t, [3], 0, 0, IsContent(), AtEnd());
    ScanUnfold(t, [3], 0, 1, IsContent(), AtEnd());
    ScanUnfold(t, [3], 0, 2, IsContent(), AtEnd());
  }

  lemma {:induction false} OneToken(v: Volume)
    requires Shape(v)
    ensures Tokens(ABSOLUTE) == [LETTER] && Descend(v, ABSOLUTE) == Descent(true, v.(cwd := v.root), LETTER)
  {
    assert Until(ABSOLUTE, SLASH) == 0 && ABSOLUTE[1..] == LETTER;
    assert Until(LETTER, SLASH) == 1 && LETTER[..1] == LETTER;
    assert Tokens(LETTER) == [LETTER];
    assert Tokens(ABSOLUTE) == [LETTER];
  }

  /** Inside the directory, removing it by its absolute path succeeds and leaves the shell in a freed cluster. */
  lemma {:induction false} RemovedUnderfoot(v: Volume)
    requires OneDir(v, LETTER) && Sound(v)
    ensures var v1 := Chdir(v, LETTER).v;
            && Chdir(v, LETTER).ok && Sound(v1) && RemovesCwd(v1, RmDir, ABSOLUTE)
            && Descend(v1, ABSOLUTE) == Descent(true, v, LETTER)
            && !Sound(Rmdir(v, LETTER).v.(cwd := v1.cwd))
  {
    hide Sound, Wf, FatVolume.Lookup, ToShort, Tokens, FreshDir, Cwd, Release, PutAt, ChainOf;
    NewDirIsEmpty(v);
    assert SlotAtPos(v, At(0, 0)) == SlotOf(v, 2, 0);
    var v1 := Chdir(v, LETTER).v;
    assert v1 == v.(cwd := 3);
    SoundIffSafe(v, OpChdir(LETTER));
    OneToken(v1);
    RmdirReturns(v1, ABSOLUTE);
  }

  lemma {:induction false} SmallHasNo(v: Volume, g: Own)
    requires Small(v, g)
    ensures Shape(v) && v.cwd < 0x1_0000_0000 && Lookup(v, ToShort(LETTER)).Nowhere?
  {
  }

  /** From a freshly formatted volume: mkdir A, cd A, rmdir /A. */
  lemma {:induction false} RmdirStrandsShell()
    ensures var v := Mkdir(Formatted(2), LETTER).v;
            var v1 := Chdir(v, LETTER).v;
            && Sound(v1) && RemovesCwd(v1, RmDir, ABSOLUTE)
            && !Sound(Rmdir(v, LETTER).v.(cwd := v1.cwd))
  {
    hide Sound, OneDir, Small, Mkdir, Chdir, Rmdir, RemovesCwd;
    FormattedIsSmall();
    SmallHasNo(Formatted(2), FRESH);
    FirstMkdir(Formatted(2), FRESH, LETTER);
    RemovedUnderfoot(Mkdir(Formatted(2), LETTER).v);
  }

  // ---- the displayed path ----

  const TWELVE: seq<byte> := seq(12, _ => 0x41)
  const EIGHT: seq<byte> := seq(8, _ => 0x41)

  lemma {:induction false} RenderLength(t: seq<byte>, n: nat)
    ensures |Render(seq(n, _ => t))| == n * (1 + |t|)
    decreases n
  {
    if n > 0 {
      RenderLength(t, n - 1);
      assert seq(n, _ => t)[1..] == seq(n - 1, _ => t);
      assert n * (1 + |t|) == (n - 1) * (1 + |t|) + (1 + |t|);
    }
  }

  /** Nine directories with names of 12 bytes and one of 8: a path of 126 bytes. */
  function Deep(): seq<seq<byte>> { seq(9, _ => TWELVE) + [EIGHT] }

  lemma {:induction false} DeepLength()
    ensures Parts(Deep()) && |Shown(Deep())| == 126
  {
    RenderLength(TWELVE, 9);
    RenderSnoc(seq(9, _ => TWELVE), EIGHT);
    assert Part(TWELVE) && Part(EIGHT);
  }

  /** That path shows no further component, so going back up loses the one before. */
  lemma {:induction false} DeepPathLosesComponent()
    ensures var path := Shown(Deep());
            Wellshown(path) && |path| == 126 && Push(path, LETTER) == path && Pop(path) == Shown(Deep()[..9]) != path
  {
    hide Part;
    DeepLength();
    PopParts(Deep());
    assert |Deep()| == 10 && Deep()[..9] == seq(9, _ => TWELVE);
    RenderLength(TWELVE, 9);
  }

  /** ABCDEFGHIJK.T, whose extension is not displayed. */
  const LONG_NAME: seq<byte> := [0x41, 0x42, 0x43, 0x44, 0x45, 0x46, 0x47, 0x48, 0x49, 0x4A, 0x4B, PERIOD, 0x54]

  lemma {:induction false} LongNameIsToken()
    ensures Token(LONG_NAME) && !DotName(LONG_NAME) && !Erasing(LONG_NAME) && Component(LONG_NAME) && !Uncut(LONG_NAME)
  {
    hide Uncut;
    CutLosesExt(LONG_NAME);
  }

  /** In the root, entering the directory just made: the path displayed then does not lead there. */
  lemma {:induction false} DisplayGoesWrong(v: Volume, name: seq<byte>)
    requires OneDir(v, name) && Sound(v) && Token(name) && Component(name) && !Uncut(name)
    ensures Chdir(v, name) == Outcome(true, v.(cwd := 3))
    ensures Right(v, ROOT_PATH) && !Right(Chdir(v, name).v, Show(ROOT_PATH, name))
  {
    hide Wf, FatVolume.Lookup, ToShort, FreshDir, Cwd, ChainOf, Right, Show, Wellshown, Token, Uncut;
    assert SlotAtPos(v, At(0, 0)) == SlotOf(v, 2, 0);
    assert AtRoot(v) == v;
    RootIsRight(v);
    var g :| WfVolume(v, g);
    RightIffFits(v, g, ROOT_PATH, name);
  }

  /** From a freshly formatted volume: mkdir and cd of that name. */
  lemma {:induction false} LongNameIsCut()
    ensures Mkdir(Formatted(2), LONG_NAME).ok
    ensures var v := Mkdir(Formatted(2), LONG_NAME).v;
            Right(v, ROOT_PATH) && Chdir(v, LONG_NAME).ok && !Right(Chdir(v, LONG_NAME).v, Show(ROOT_PATH, LONG_NAME))
  {
    hide Sound, OneDir, Small, Mkdir, Chdir, Right, Show, Token, Component, Uncut, Erasing, FatVolume.Lookup, ToShort;
    LongNameIsToken();
    TokenIsC(LONG_NAME);
    FormattedIsSmall();
    SmallHasNo(Formatted(2), FRESH);
    FormattedScans(2, ToShort(LONG_NAME));
    FirstMkdir(Formatted(2), FRESH, LONG_NAME);
    DisplayGoesWrong(Mkdir(Formatted(2), LONG_NAME).v, LONG_NAME);
  }

  lemma {:induction false} TokenIsC(tok: seq<byte>)
    requires Token(tok)
    ensures CString(tok)
  {
  }
}
