/** Paths: the driver's walker, the shell's walker, and the file commands built on it. */
module ShellPaths {
  import opened Bytes
  import opened FatChains
  import opened FatTree
  import opened FatDirectory
  import opened FatNames
  import opened FatVolume
  import opened FatSafety
  import opened FatRuns
  import opened FatTheorems
  import opened FatDriver

  const TOKEN_MAX: nat := 15

  // ---- tokens ----

  /** The components of a path: the non-empty pieces between slashes, cut to 15 bytes. */
  function Tokens(path: seq<byte>): (ts: seq<seq<byte>>)
    decreases |path|
  {
    var n := Until(path, SLASH);
    (if n == 0 then [] else [Take(path[..n], TOKEN_MAX)]) + (if n == |path| then [] else Tokens(path[n + 1..]))
  }

  /** The components still to come when cur has been collected and rest is unread. */
  function Pending(cur: seq<byte>, rest: seq<byte>): seq<seq<byte>> {
    var n := Until(rest, SLASH);
    (if cur + rest[..n] == [] then [] else [Take(cur + rest[..n], TOKEN_MAX)])
    + (if n == |rest| then [] else Tokens(rest[n + 1..]))
  }

  lemma {:induction false} PendingStart(path: seq<byte>)
    ensures Pending([], path) == Tokens(path)
  {
    var n := Until(path, SLASH);
    assert [] + path[..n] == path[..n];
  }

  /** At a slash or at the end, the component collected is emitted. */
  lemma {:induction false} PendingBreak(cur: seq<byte>, rest: seq<byte>)
    requires |cur| <= TOKEN_MAX && (rest == [] || rest[0] == SLASH)
    ensures Pending(cur, rest) == (if cur == [] then [] else [cur])
            + (if rest == [] then [] else Pending([], rest[1..]))
  {
    hide Tokens;
    assert Until(rest, SLASH) == 0;
    assert cur + rest[..0] == cur && Take(cur, TOKEN_MAX) == cur;
    if rest != [] { PendingStart(rest[1..]); }
  }

  /** Any other byte is appended, or dropped once 15 have been collected. */
  lemma {:induction false} PendingByte(cur: seq<byte>, rest: seq<byte>)
    requires |cur| <= TOKEN_MAX && rest != [] && rest[0] != SLASH
    ensures Pending(cur, rest) == Pending(if |cur| < TOKEN_MAX then cur + [rest[0]] else cur, rest[1..])
  {
    var n := Until(rest, SLASH);
    var m := Until(rest[1..], SLASH);
    assert n == 1 + m;
    var cur' := if |cur| < TOKEN_MAX then cur + [rest[0]] else cur;
    assert Take(cur + rest[..n], TOKEN_MAX) == Take(cur' + rest[1..][..m], TOKEN_MAX);
    assert rest[1..][m..] == rest[n..];
    assert n < |rest| ==> rest[1..][m + 1..] == rest[n + 1..];
  }

  lemma {:induction false} TokensAreC(path: seq<byte>)
    requires CString(path)
    ensures forall k :: 0 <= k < |Tokens(path)| ==> CString(Tokens(path)[k]) && Tokens(path)[k] != []
    decreases |path|
  {
    var n := Until(path, SLASH);
    if n < |path| { TokensAreC(path[n + 1..]); }
  }

  // ---- walking ----

  /** Change directory component by component; a failure leaves the walk where it stopped. */
  function ChdirAll(v: Volume, ts: seq<seq<byte>>): (r: Outcome)
    requires Shape(v)
    ensures Kept(v, r.v)
    decreases |ts|
  {
    if ts == [] then Outcome(true, v)
    else
      var r := FatVolume.Chdir(v, ts[0]);
      if r.ok then ChdirAll(r.v, ts[1..]) else r
  }

  /** An absolute path starts at the root. */
  function Origin(v: Volume, path: seq<byte>): Volume {
    if path != [] && path[0] == SLASH then v.(cwd := v.root) else v
  }

  function ChdirPath(v: Volume, path: seq<byte>): Outcome
    requires Shape(v)
  {
    ChdirAll(Origin(v, path), Tokens(path))
  }

  datatype Descent = Descent(ok: bool, v: Volume, base: seq<byte>)

  /** All components but the last are entered; the last is handed back. */
  function Descend(v: Volume, path: seq<byte>): Descent
    requires Shape(v)
  {
    var ts := Tokens(path);
    if ts == [] then Descent(true, Origin(v, path), [])
    else
      var r := ChdirAll(Origin(v, path), ts[..|ts| - 1]);
      Descent(r.ok, r.v, ts[|ts| - 1])
  }

  lemma {:induction false} ChdirAllSnoc(v: Volume, ts: seq<seq<byte>>, t: seq<byte>)
    requires Shape(v)
    ensures var r := ChdirAll(v, ts); ChdirAll(v, ts + [t]) == if r.ok then FatVolume.Chdir(r.v, t) else r
    decreases |ts|
  {
    if ts == [] {
      assert ChdirAll(v, [t]) == FatVolume.Chdir(v, t) by {
        var r := FatVolume.Chdir(v, t);
        assert [t][1..] == [];
      }
      assert ts + [t] == [t];
    } else {
      var r := FatVolume.Chdir(v, ts[0]);
      assert (ts + [t])[1..] == ts[1..] + [t];
      if r.ok { ChdirAllSnoc(r.v, ts[1..], t); }
    }
  }

  /** The two walkers agree on every path with a last component: result, and where they end up. */
  lemma {:induction false} WalkersAgree(v: Volume, path: seq<byte>)
    requires Shape(v)
    ensures Descend(v, path).base == [] <==> Tokens(path) == []
    ensures var d := Descend(v, path);
            && (d.base != [] && d.ok ==> ChdirPath(v, path) == FatVolume.Chdir(d.v, d.base))
            && (d.base != [] && !d.ok ==> ChdirPath(v, path) == Outcome(false, d.v))
            && (d.base == [] ==> d.ok && ChdirPath(v, path) == Outcome(true, d.v))
  {
    var ts := Tokens(path);
    TokensNonEmpty(path);
    if ts != [] {
      assert ts == ts[..|ts| - 1] + [ts[|ts| - 1]];
      ChdirAllSnoc(Origin(v, path), ts[..|ts| - 1], ts[|ts| - 1]);
    }
  }

  lemma {:induction false} TokensNonEmpty(path: seq<byte>)
    ensures forall k :: 0 <= k < |Tokens(path)| ==> Tokens(path)[k] != []
    decreases |path|
  {
    var n := Until(path, SLASH);
    if n < |path| { TokensNonEmpty(path[n + 1..]); }
  }

  ghost predicate AllC(ts: seq<seq<byte>>) { forall k :: 0 <= k < |ts| ==> CString(ts[k]) }

  /** A walk moves the current directory within the tree and changes nothing else. */
  lemma {:induction false} WalkKeepsWf(v: Volume, g: Own, ts: seq<seq<byte>>)
    requires WfVolume(v, g) && AllC(ts)
    ensures WfVolume(ChdirAll(v, ts).v, g) && ChdirAll(v, ts).v == v.(cwd := ChdirAll(v, ts).v.cwd)
    decreases |ts|
  {
    hide Wf;
    if ts != [] {
      ChdirKeepsSound(v, g, ts[0]);
      if FatVolume.Chdir(v, ts[0]).ok { WalkKeepsWf(FatVolume.Chdir(v, ts[0]).v, g, ts[1..]); }
    }
  }

  lemma {:induction false} DescendKeepsWf(v: Volume, g: Own, path: seq<byte>)
    requires WfVolume(v, g) && CString(path)
    ensures WfVolume(Descend(v, path).v, g) && Descend(v, path).v == v.(cwd := Descend(v, path).v.cwd)
    ensures CString(Descend(v, path).base)
  {
    hide Wf;
    RootIsDir(TreeOf(v), g);
    MoveKeepsWf(v, g, v.root);
    TokensAreC(path);
    var ts := Tokens(path);
    if ts != [] { WalkKeepsWf(Origin(v, path), g, ts[..|ts| - 1]); }
  }

  // ---- the file commands ----

  /** touch, write, rm, mkdir, rmdir and cat: descend to the parent, act on the last component, come back. */
  datatype Command = Touch | Write(bytes: seq<byte>) | Rm | MkDir | RmDir | Cat

  /** The operation a command performs on the last component; cat only reads. */
  function Act(v: Volume, cmd: Command, base: seq<byte>): (r: Outcome)
    requires Shape(v) && v.cwd < 0x1_0000_0000 && (cmd.Write? ==> |cmd.bytes| < 0x1_0000_0000)
    ensures Kept(v, r.v)
  {
    match cmd
    case Touch => FatVolume.Create(v, base)
    case Write(bytes) => FatVolume.WriteFile(v, base, bytes)
    case Rm => FatVolume.Remove(v, base)
    case MkDir => FatVolume.Mkdir(v, base)
    case RmDir => FatVolume.Rmdir(v, base)
    case Cat => Outcome(FatVolume.Find(v, base).At?, v)
  }

  /** A saved current directory is put back; 0 and 1 mean the root. */
  function SetCwd(v: Volume, c: nat): Volume { v.(cwd := if c < 2 then v.root else c) }

  function Perform(v: Volume, cmd: Command, path: seq<byte>): (r: Outcome)
    requires Shape(v) && v.cwd < 0x1_0000_0000 && Descend(v, path).v.cwd < 0x1_0000_0000
    requires cmd.Write? ==> |cmd.bytes| < 0x1_0000_0000
    ensures Kept(v, r.v)
  {
    var d := Descend(v, path);
    if !d.ok || d.base == [] then Outcome(false, SetCwd(d.v, v.cwd))
    else var r := Act(d.v, cmd, d.base); Outcome(r.ok, SetCwd(r.v, v.cwd))
  }

  lemma {:induction false} DescentSmall(v: Volume, path: seq<byte>)
    requires Sound(v) && CString(path)
    ensures 2 <= v.cwd < 0x1_0000_0000 && Descend(v, path).v.cwd < 0x1_0000_0000
    ensures Sound(Descend(v, path).v) && CString(Descend(v, path).base)
  {
    var g :| WfVolume(v, g);
    DescendKeepsWf(v, g, path);
    hide Wf;
    CwdSmall(v, g);
    CwdSmall(Descend(v, path).v, g);
    RootIsDir(TreeOf(v), g);
    CwdIsCluster(v, g);
  }

  lemma {:induction false} CwdIsCluster(v: Volume, g: Own)
    requires WfVolume(v, g)
    ensures v.cwd >= 2
  {
    hide Wf;
    CwdOwned(v, g);
    ObjectInUse(TreeOf(v), g, v.cwd);
  }

  /** No file command moves the current directory, whether it succeeds or fails. */
  lemma {:induction false} CommandsStayPut(v: Volume, cmd: Command, path: seq<byte>)
    requires Sound(v) && CString(path) && (cmd.Write? ==> |cmd.bytes| < 0x1_0000_0000)
    ensures v.cwd < 0x1_0000_0000 && Descend(v, path).v.cwd < 0x1_0000_0000
    ensures Perform(v, cmd, path).v.cwd == v.cwd
  {
    DescentSmall(v, path);
  }

  function OpOf(cmd: Command, base: seq<byte>): Op
    requires !cmd.Cat?
  {
    match cmd
    case Touch => OpCreate(base)
    case Write(bytes) => OpWrite(base, bytes)
    case Rm => OpRemove(base)
    case MkDir => OpMkdir(base)
    case RmDir => OpRmdir(base)
  }

  /** The guards rmdir passes when name is in the current directory and denotes c. */
  predicate RemovesDir(v: Volume, name: seq<byte>, c: nat)
    requires Shape(v)
  {
    && !DotName(name)
    && match Lookup(v, ToShort(name))
       case Nowhere => false
       case At(i, j) =>
         var e := SlotAtPos(v, At(i, j));
         IsDir(e) && StartOf(e) == c && c >= 2 && IsEmptyDir(v, c)
  }

  /** rmdir would remove the directory one is in: the path leads to its slot, and it is empty. */
  predicate RemovesCwd(v: Volume, cmd: Command, path: seq<byte>)
    requires Shape(v)
  {
    var d := Descend(v, path);
    cmd.RmDir? && d.ok && d.base != [] && RemovesDir(d.v, d.base, v.cwd)
  }

  /** A directory can be gone back to only if its first cluster is in use. */
  lemma {:induction false} CwdInUse(w: Volume, c: nat)
    requires Shape(w) && Sound(w.(cwd := c))
    ensures Inside(w.fat, c) && w.fat[c] != 0
  {
    hide Wf;
    var h :| WfVolume(w.(cwd := c), h);
    CwdOwned(w.(cwd := c), h);
    ObjectInUse(TreeOf(w.(cwd := c)), h, c);
  }

  /** After rmdir the command comes back to a live directory exactly when it is not the one removed. */
  lemma {:induction false} RmdirReturns(v: Volume, path: seq<byte>)
    requires Sound(v) && CString(path) && Descend(v, path).ok && Descend(v, path).base != []
    ensures Sound(FatVolume.Rmdir(Descend(v, path).v, Descend(v, path).base).v.(cwd := v.cwd)) <==>
              !RemovesCwd(v, RmDir, path)
  {
    var g :| WfVolume(v, g);
    DescendKeepsWf(v, g, path);
    hide Wf, Descend, Sound;
    RootIsDir(TreeOf(v), g);
    RmdirReturnsTo(Descend(v, path).v, g, Descend(v, path).base, v.cwd);
  }

  lemma {:induction false} RmdirReturnsTo(v: Volume, g: Own, name: seq<byte>, c: nat)
    requires WfVolume(v, g) && CString(name) && c in g.dirs
    ensures Sound(FatVolume.Rmdir(v, name).v.(cwd := c)) <==> !RemovesDir(v, name, c)
  {
    hide Wf, Sound;
    var r := FatVolume.Rmdir(v, name);
    if r.ok {
      RmdirTarget(v, g, name);
      if Sound(r.v.(cwd := c)) { CwdInUse(r.v, c); }
    } else {
      assert r.v == v;
      MovedIsSound(v, g, c);
    }
  }

  /** What rmdir removes, and what it leaves of the ownership and of the table. */
  lemma {:induction false} RmdirTarget(v: Volume, g: Own, name: seq<byte>)
    requires WfVolume(v, g) && CString(name) && FatVolume.Rmdir(v, name).ok
    ensures var t := StartOf(SlotAtPos(v, Lookup(v, ToShort(name))));
            && t in g.dirs && Inside(v.fat, t) && FatVolume.Rmdir(v, name).v.fat[t] == 0
            && forall c :: c in g.dirs && c != t ==> Sound(FatVolume.Rmdir(v, name).v.(cwd := c))
  {
    hide Wf;
    FoundIsNamed(v, g, name);
    var p := Lookup(v, ToShort(name));
    var c := Cwd(v)[p.i];
    NamedIsOwned(TreeOf(v), g, v.cwd, c, p.j);
    var t := StartOf(SlotAtPos(v, p));
    EmptyCheckIsExact(v, g, t);
    var g' := TakeOutKeepsWf(v, g, p.i, p.j);
    CwdSurvivesRelease(v, g, t);
    ObjectInUse(TreeOf(v), g, t);
    forall x | x in g.dirs && x != t ensures Sound(FatVolume.Rmdir(v, name).v.(cwd := x)) {
      MovedIsSound(FatVolume.Rmdir(v, name).v, g', x);
    }
  }

  /** The operation a command performs, if the descent succeeds, is safe where it is performed. */
  predicate SafeCommand(v: Volume, cmd: Command, path: seq<byte>)
    requires Shape(v)
  {
    var d := Descend(v, path);
    d.ok && d.base != [] && !cmd.Cat? ==> Typed(OpOf(cmd, d.base)) && Safe(d.v, OpOf(cmd, d.base))
  }

  lemma {:induction false} ActIsApply(v: Volume, cmd: Command, base: seq<byte>)
    requires Shape(v) && v.cwd < 0x1_0000_0000 && !cmd.Cat? && Typed(OpOf(cmd, base))
    ensures Act(v, cmd, base).v == Apply(v, OpOf(cmd, base))
  {
    hide Shape, FatVolume.Create, FatVolume.Remove, FatVolume.WriteFile, FatVolume.Mkdir, FatVolume.Rmdir;
  }

  /**
   * A file command keeps the volume sound exactly when its operation is safe and it does not remove the current
   * directory.
   */
  lemma {:induction false} CommandsSoundIff(v: Volume, cmd: Command, path: seq<byte>)
    requires Sound(v) && CString(path) && (cmd.Write? ==> |cmd.bytes| < 0x1_0000_0000)
    ensures v.cwd < 0x1_0000_0000 && Descend(v, path).v.cwd < 0x1_0000_0000
    ensures Sound(Perform(v, cmd, path).v) <==> SafeCommand(v, cmd, path) && !RemovesCwd(v, cmd, path)
  {
    DescentSmall(v, path);
    var g :| WfVolume(v, g);
    CommandIff(v, g, cmd, path);
  }

  lemma {:induction false} CommandIff(v: Volume, g: Own, cmd: Command, path: seq<byte>)
    requires WfVolume(v, g) && CString(path) && (cmd.Write? ==> |cmd.bytes| < 0x1_0000_0000)
    requires 2 <= v.cwd < 0x1_0000_0000 && Descend(v, path).v.cwd < 0x1_0000_0000
    ensures Sound(Perform(v, cmd, path).v) <==> SafeCommand(v, cmd, path) && !RemovesCwd(v, cmd, path)
  {
    hide Wf, Sound, Descend, Act, Apply, Safe, RemovesDir, Shape;
    DescendKeepsWf(v, g, path);
    WfIsSound(v, g);
    var d := Descend(v, path);
    RootIsDir(TreeOf(v), g);
    if !d.ok || d.base == [] || cmd.Cat? {
      IdleCommand(v, cmd, path);
    } else if cmd.RmDir? {
      RmdirReturns(v, path);
      RmdirIsSafe(d.v, d.base);
      ActIsApply(d.v, cmd, d.base);
    } else {
      ActIsApply(d.v, cmd, d.base);
      SoundAtIffSafe(d.v, g, OpOf(cmd, d.base), v.cwd);
    }
  }

  lemma {:induction false} WfIsSound(v: Volume, g: Own)
    requires WfVolume(v, g)
    ensures Sound(v) && Shape(v)
  {
  }

  lemma {:induction false} RmdirIsSafe(v: Volume, name: seq<byte>)
    requires Shape(v) && v.cwd < 0x1_0000_0000 && CString(name)
    ensures Safe(v, OpRmdir(name)) && Apply(v, OpRmdir(name)) == FatVolume.Rmdir(v, name).v
  {
    hide Shape, FatVolume.Rmdir;
  }

  /** A command whose descent fails, or cat, leaves the volume as it was; it is no removal of the current directory. */
  lemma {:induction false} IdleCommand(v: Volume, cmd: Command, path: seq<byte>)
    requires Sound(v) && CString(path) && (cmd.Write? ==> |cmd.bytes| < 0x1_0000_0000)
    requires 2 <= v.cwd < 0x1_0000_0000 && Descend(v, path).v.cwd < 0x1_0000_0000
    requires Descend(v, path).v == v.(cwd := Descend(v, path).v.cwd)
    requires !Descend(v, path).ok || Descend(v, path).base == [] || cmd.Cat?
    ensures Perform(v, cmd, path).v == v && !RemovesCwd(v, cmd, path)
  {
    hide Wf, Descend, RemovesDir;
  }

  // ---- the displayed path ----

  const PATH_MAX: nat := 128
  const ROOT_PATH: seq<byte> := [0x2F]

  /** The displayed form of a component: upper case, at most 12 bytes. */
  function Display(name: seq<byte>): seq<byte> { UpperAll(Take(name, 12)) }

  /** Append a component to the displayed path, unless it would not fit. */
  function Push(path: seq<byte>, name: seq<byte>): seq<byte> {
    if |path| + 1 + |Display(name)| + 1 >= PATH_MAX then path
    else (if path == ROOT_PATH then path else path + [SLASH]) + Display(name)
  }

  /** The number of bytes up to and including the last slash, at least 1. */
  function LastSlash(path: seq<byte>, n: nat): (k: nat)
    requires n <= |path|
    ensures n >= 1 ==> 1 <= k <= n && forall i :: k <= i < n ==> path[i] != SLASH
    ensures n >= 1 ==> k == 1 || path[k - 1] == SLASH
  {
    if n > 1 && path[n - 1] != SLASH then LastSlash(path, n - 1) else n
  }

  /** Drop the last component. */
  function Pop(path: seq<byte>): seq<byte> {
    if |path| <= 1 then ROOT_PATH
    else
      var k := LastSlash(path, |path|);
      if k > 1 then path[..k - 1] else path[..1]
  }

  /** An absolute path without a double or a trailing slash, or the root. */
  predicate Displayed(path: seq<byte>) {
    && 1 <= |path| < PATH_MAX && path[0] == SLASH && (path == ROOT_PATH || path[|path| - 1] != SLASH)
    && forall i :: 0 < i < |path| && path[i] == SLASH ==> path[i - 1] != SLASH
  }

  /** What is displayed of a component: its first 12 bytes, letter by letter the same, with no small letter. */
  lemma {:induction false} DisplayBytes(name: seq<byte>)
    ensures |Display(name)| == if |name| < 12 then |name| else 12
    ensures forall k :: 0 <= k < |Display(name)| ==>
              SameLetter(name[k], Display(name)[k]) && !SmallLetter(Display(name)[k])
    ensures SLASH !in name ==> SLASH !in Display(name)
  {
    hide Upper, SameLetter;
    forall k | 0 <= k < |Display(name)|
      ensures SameLetter(name[k], Display(name)[k]) && !SmallLetter(Display(name)[k])
      ensures name[k] != SLASH ==> Display(name)[k] != SLASH
    {
      UpperIs(name[k], 0);
      SlashIsNoLetter(name[k], Upper(name[k]));
    }
  }

  lemma {:induction false} SlashIsNoLetter(a: byte, b: byte)
    requires SameLetter(a, b)
    ensures a == SLASH <==> b == SLASH
  {
  }

  lemma {:induction false} PushKeepsDisplayed(path: seq<byte>, name: seq<byte>)
    requires Displayed(path) && name != [] && SLASH !in name
    ensures Displayed(Push(path, name))
  {
    hide Display, SameLetter;
    DisplayBytes(name);
    var up, r := Display(name), Push(path, name);
    if r != path {
      var m := |r| - |up|;
      assert r[..m] == if path == ROOT_PATH then path else path + [SLASH];
      assert forall k :: m <= k < |r| ==> r[k] == up[k - m];
      forall i | 0 < i < |r| && r[i] == SLASH ensures r[i - 1] != SLASH {
        assert i < m;
        if i == m - 1 && path != ROOT_PATH {
          assert r[i - 1] == path[|path| - 1];
        } else if i < |path| {
          assert r[i] == path[i] && r[i - 1] == path[i - 1];
        }
      }
      assert r[|r| - 1] == up[|up| - 1];
    }
  }

  lemma {:induction false} PopKeepsDisplayed(path: seq<byte>)
    requires Displayed(path)
    ensures Displayed(Pop(path))
  {
    if |path| > 1 {
      var k := LastSlash(path, |path|);
      if k > 1 { assert path[k - 1] == SLASH && path[k - 2] != SLASH; }
    }
  }

  lemma {:induction false} LastSlashIs(path: seq<byte>, n: nat, k: nat)
    requires 1 <= k <= n <= |path| && (k == 1 || path[k - 1] == SLASH) && forall i :: k <= i < n ==> path[i] != SLASH
    ensures LastSlash(path, n) == k
    decreases n
  {
    if n > k { LastSlashIs(path, n - 1, k); }
  }

  /** Going down and up again shows the same path exactly when the component fitted. */
  lemma {:induction false} PopUndoesPush(path: seq<byte>, name: seq<byte>)
    requires Displayed(path) && name != [] && SLASH !in name
    ensures Pop(Push(path, name)) == path <==> |path| + 1 + |Display(name)| + 1 < PATH_MAX
  {
    var up := Display(name);
    var q := Push(path, name);
    if |path| + 1 + |up| + 1 < PATH_MAX {
      var k := if path == ROOT_PATH then 1 else |path| + 1;
      assert forall i :: 0 <= i < |up| ==> up[i] == Upper(name[i]);
      LastSlashIs(q, |q|, k);
      assert q[..|path|] == path;
    } else {
      assert |Pop(path)| < |path|;
    }
  }

  // ---- the walkers as loops ----

  lemma {:induction false} ChdirAllStops(v: Volume, ts: seq<seq<byte>>, more: seq<seq<byte>>)
    requires Shape(v) && !ChdirAll(v, ts).ok
    ensures ChdirAll(v, ts + more) == ChdirAll(v, ts)
    decreases |ts|
  {
    var r := FatVolume.Chdir(v, ts[0]);
    assert (ts + more)[0] == ts[0] && (ts + more)[1..] == ts[1..] + more;
    if r.ok { ChdirAllStops(r.v, ts[1..], more); }
  }

  lemma {:induction false} ChdirSound(v: Volume, name: seq<byte>)
    requires Sound(v) && CString(name)
    ensures Sound(FatVolume.Chdir(v, name).v)
  {
    var g :| WfVolume(v, g);
    ChdirKeepsSound(v, g, name);
  }

  lemma {:induction false} RootSound(v: Volume)
    requires Sound(v)
    ensures Sound(v.(cwd := v.root))
  {
    hide Wf, Scan;
    ChdirSound(v, [SLASH]);
  }

  /** A leading slash changes where the walk starts, not its components. */
  lemma {:induction false} LeadingSlash(path: seq<byte>)
    requires path != [] && path[0] == SLASH
    ensures Tokens(path) == Pending([], path[1..])
  {
    PendingStart(path[1..]);
    assert Until(path, SLASH) == 0;
  }

  lemma {:induction false} SoundShape(v: Volume)
    requires Sound(v)
    ensures Shape(v)
  {
  }

  lemma {:induction false} ChdirNone(v: Volume)
    requires Shape(v)
    ensures ChdirAll(v, []) == Outcome(true, v)
  {
  }

  /** The state of a walk: done has been entered from v, tok collected, rest is unread. */
  ghost predicate Walking(v: Volume, now: Volume, path: seq<byte>, done: seq<seq<byte>>, tok: seq<byte>,
                          rest: seq<byte>)
  {
    && Shape(v) && |tok| <= TOKEN_MAX && CString(tok) && CString(rest) && Sound(now)
    && done + Pending(tok, rest) == Tokens(path) && ChdirAll(v, done) == Outcome(true, now)
  }

  lemma {:induction false} WalkStart(v: Volume, path: seq<byte>)
    requires Sound(v) && CString(path)
    ensures Walking(Origin(v, path), Origin(v, path), path, [], [],
                    if path != [] && path[0] == SLASH then path[1..] else path)
  {
    hide Sound, Tokens, Pending, ChdirAll;
    SoundShape(v);
    ChdirNone(Origin(v, path));
    if path != [] && path[0] == SLASH {
      RootSound(v);
      LeadingSlash(path);
    } else {
      PendingStart(path);
    }
    assert [] + Tokens(path) == Tokens(path);
  }

  lemma {:induction false} WalkByte(v: Volume, now: Volume, path: seq<byte>, done: seq<seq<byte>>, tok: seq<byte>,
                                    rest: seq<byte>)
    requires Walking(v, now, path, done, tok, rest) && rest != [] && rest[0] != SLASH
    ensures Walking(v, now, path, done, if |tok| < TOKEN_MAX then tok + [rest[0]] else tok, rest[1..])
  {
    hide Wf, Tokens, Pending, FatVolume.Chdir, ChdirAll;
    PendingByte(tok, rest);
  }

  lemma {:induction false} WalkSkip(v: Volume, now: Volume, path: seq<byte>, done: seq<seq<byte>>, rest: seq<byte>)
    requires Walking(v, now, path, done, [], rest) && (rest == [] || rest[0] == SLASH)
    ensures rest != [] ==> Walking(v, now, path, done, [], rest[1..])
    ensures rest == [] ==> ChdirAll(v, Tokens(path)) == Outcome(true, now) && done == Tokens(path)
  {
    hide Wf, Tokens, Pending, FatVolume.Chdir, ChdirAll;
    PendingBreak([], rest);
    assert done + [] == done;
  }

  /** A component is complete: it is entered, or the whole walk fails there. */
  lemma {:induction false} WalkEnter(v: Volume, now: Volume, path: seq<byte>, done: seq<seq<byte>>, tok: seq<byte>,
                                     rest: seq<byte>)
    requires Walking(v, now, path, done, tok, rest) && (rest == [] || rest[0] == SLASH) && tok != []
    ensures var r := FatVolume.Chdir(now, tok);
            if r.ok then Walking(v, r.v, path, done + [tok], [], rest) else ChdirAll(v, Tokens(path)) == r
  {
    hide Wf, Tokens, Pending, FatVolume.Chdir, ChdirAll;
    PendingBreak(tok, rest);
    PendingBreak([], rest);
    ChdirAllSnoc(v, done, tok);
    ChdirSound(now, tok);
    var r := FatVolume.Chdir(now, tok);
    assert done + Pending(tok, rest) == (done + [tok]) + Pending([], rest);
    if !r.ok { ChdirAllStops(v, done + [tok], Pending([], rest)); }
  }

  /** The driver's walker: enter each component as soon as it is complete. */
  method WalkPath(fs: Fat32, path: seq<byte>) returns (ok: bool)
    requires fs.Valid() && Sound(fs.State()) && CString(path)
    modifies fs
    ensures fs.Valid() && Outcome(ok, fs.State()) == ChdirPath(old(fs.State()), path)
  {
    hide Sound, Walking, Fat32.Valid, Tokens, Pending, ChdirAll, FatVolume.Chdir, VolumeOf, CString;
    ghost var v := Origin(fs.State(), path);
    WalkStart(fs.State(), path);
    var p := 0;
    if |path| > 0 && path[0] == SLASH {
      fs.SetRoot();
      p := 1;
    }
    assert path[0..] == path;
    var tok: seq<byte> := [];
    ghost var done: seq<seq<byte>> := [];
    while true
      invariant p <= |path| && fs.Valid() && Walking(v, fs.State(), path, done, tok, path[p..])
      decreases |path| - p
    {
      WalkingFacts(v, fs.State(), path, done, tok, path[p..]);
      if p == |path| || path[p] == SLASH {
        if |tok| > 0 {
          WalkEnter(v, fs.State(), path, done, tok, path[p..]);
          ok := fs.Chdir(tok);
          if !ok { return; }
          done := done + [tok];
          tok := [];
        }
        WalkSkip(v, fs.State(), path, done, path[p..]);
        if p == |path| { return true; }
      } else {
        WalkByte(v, fs.State(), path, done, tok, path[p..]);
        if |tok| < TOKEN_MAX { tok := tok + [path[p]]; }
      }
      assert path[p..][1..] == path[p + 1..];
      p := p + 1;
    }
  }

  lemma {:induction false} WalkingFacts(v: Volume, now: Volume, path: seq<byte>, done: seq<seq<byte>>, tok: seq<byte>,
                                        rest: seq<byte>)
    requires Walking(v, now, path, done, tok, rest)
    ensures Shape(v) && Sound(now) && CString(tok) && |tok| <= TOKEN_MAX
  {
  }

  /**
   The state of the shell's walk: done has been entered; the component before the one being
   collected is held back in prev, if there is one.
   */
  ghost predicate Descending(v: Volume, now: Volume, path: seq<byte>, done: seq<seq<byte>>, held: seq<seq<byte>>,
                             cur: seq<byte>, rest: seq<byte>)
  {
    && Shape(v) && |held| <= 1 && (done != [] ==> held != []) && (held != [] ==> held[0] != [] && CString(held[0]))
    && |cur| <= TOKEN_MAX && CString(cur) && CString(rest) && Sound(now)
    && done + held + Pending(cur, rest) == Tokens(path) && ChdirAll(v, done) == Outcome(true, now)
  }

  lemma {:induction false} DescendStart(v: Volume, path: seq<byte>)
    requires Sound(v) && CString(path)
    ensures Descending(Origin(v, path), Origin(v, path), path, [], [], [],
                    if path != [] && path[0] == SLASH then path[1..] else path)
  {
    hide Sound, Tokens, Pending, FatVolume.Chdir, ChdirAll;
    SoundShape(v);
    var rest := if path != [] && path[0] == SLASH then path[1..] else path;
    WalkStart(v, path);
    assert [] + [] + Pending([], rest) == [] + Pending([], rest);
  }

  lemma {:induction false} DescendByte(v: Volume, now: Volume, path: seq<byte>, done: seq<seq<byte>>,
                                       held: seq<seq<byte>>, cur: seq<byte>, rest: seq<byte>)
    requires Descending(v, now, path, done, held, cur, rest) && rest != [] && rest[0] != SLASH
    ensures Descending(v, now, path, done, held, if |cur| < TOKEN_MAX then cur + [rest[0]] else cur, rest[1..])
  {
    hide Wf, Tokens, Pending, FatVolume.Chdir, ChdirAll;
    PendingByte(cur, rest);
  }

  lemma {:induction false} DescendSkip(v: Volume, now: Volume, path: seq<byte>, done: seq<seq<byte>>,
                                       held: seq<seq<byte>>, rest: seq<byte>)
    requires Descending(v, now, path, done, held, [], rest) && (rest == [] || rest[0] == SLASH)
    ensures rest != [] ==> Descending(v, now, path, done, held, [], rest[1..])
    ensures rest == [] ==> Tokens(path) == done + held && (held == [] ==> done == [] && now == v)
                           && (held != [] ==> ChdirAll(v, Tokens(path)[..|Tokens(path)| - 1]) == Outcome(true, now))
  {
    hide Wf, Tokens, Pending, FatVolume.Chdir, ChdirAll;
    PendingBreak([], rest);
    ChdirNone(v);
    assert done + held + [] == done + held;
    if rest == [] && held != [] { assert (done + held)[..|done|] == done; }
  }

  /** A component is complete: the one held back is entered and this one held in its place, or the descent fails. */
  lemma {:induction false} DescendEnter(v: Volume, now: Volume, path: seq<byte>, done: seq<seq<byte>>,
                                        held: seq<seq<byte>>, cur: seq<byte>, rest: seq<byte>)
    requires Descending(v, now, path, done, held, cur, rest) && (rest == [] || rest[0] == SLASH) && cur != []
    ensures held == [] ==> Descending(v, now, path, done, [cur], [], rest)
    ensures held != [] ==>
              var r := FatVolume.Chdir(now, held[0]);
              if r.ok then Descending(v, r.v, path, done + held, [cur], [], rest)
              else Tokens(path) != [] && ChdirAll(v, Tokens(path)[..|Tokens(path)| - 1]) == r
  {
    hide Wf, Tokens, Pending, FatVolume.Chdir, ChdirAll;
    PendingBreak(cur, rest);
    PendingBreak([], rest);
    assert done + held + Pending(cur, rest) == done + held + [cur] + Pending([], rest);
    if held != [] {
      assert held == [held[0]];
      ChdirAllSnoc(v, done, held[0]);
      ChdirSound(now, held[0]);
      var ts, n := Tokens(path), |done| + 1;
      if !FatVolume.Chdir(now, held[0]).ok {
        assert ts[..|ts| - 1] == (done + held) + ts[n..|ts| - 1];
        ChdirAllStops(v, done + held, ts[n..|ts| - 1]);
      }
    }
  }

  lemma {:induction false} DescendingFacts(v: Volume, now: Volume, path: seq<byte>, done: seq<seq<byte>>,
                                           held: seq<seq<byte>>, cur: seq<byte>, rest: seq<byte>)
    requires Descending(v, now, path, done, held, cur, rest)
    ensures Sound(now) && |cur| <= TOKEN_MAX && |held| <= 1 && (held != [] ==> CString(held[0]))
  {
  }

  /** The shell's walker: enter a component once the next one has been seen, and hand back the last. */
  method DescendPath(fs: Fat32, path: seq<byte>) returns (ok: bool, base: seq<byte>)
    requires fs.Valid() && Sound(fs.State()) && CString(path)
    modifies fs
    ensures fs.Valid()
    ensures var d := Descend(old(fs.State()), path); ok == d.ok && fs.State() == d.v && (ok ==> base == d.base)
  {
    hide Sound, Descending, Fat32.Valid, Tokens, Pending, ChdirAll, FatVolume.Chdir, VolumeOf, CString;
    ghost var v := Origin(fs.State(), path);
    DescendStart(fs.State(), path);
    var p := 0;
    if |path| > 0 && path[0] == SLASH {
      fs.SetRoot();
      p := 1;
    }
    assert path[0..] == path;
    var prevSet, prev, cur: seq<byte> := false, [], [];
    ghost var done: seq<seq<byte>>, held: seq<seq<byte>> := [], [];
    base := [];
    while true
      invariant p <= |path| && fs.Valid() && Descending(v, fs.State(), path, done, held, cur, path[p..])
      invariant held == if prevSet then [prev] else []
      decreases |path| - p
    {
      DescendingFacts(v, fs.State(), path, done, held, cur, path[p..]);
      if p == |path| || path[p] == SLASH {
        if |cur| > 0 {
          DescendEnter(v, fs.State(), path, done, held, cur, path[p..]);
          if prevSet {
            ok := fs.Chdir(prev);
            if !ok { return; }
            done := done + held;
          }
          prev, prevSet, held := cur, true, [cur];
          cur := [];
        }
        DescendSkip(v, fs.State(), path, done, held, path[p..]);
        if p == |path| { break; }
      } else {
        DescendByte(v, fs.State(), path, done, held, cur, path[p..]);
        if |cur| < TOKEN_MAX { cur := cur + [path[p]]; }
      }
      assert path[p..][1..] == path[p + 1..];
      p := p + 1;
    }
    ok := true;
    if prevSet { base := prev; }
  }

  // ---- the shell ----

  /** What cd does to the displayed path for one component. */
  function Show(path: seq<byte>, tok: seq<byte>): seq<byte> {
    if tok == [PERIOD] then path else if tok == [PERIOD, PERIOD] then Pop(path) else Push(path, tok)
  }

  function ShowAll(path: seq<byte>, ts: seq<seq<byte>>): seq<byte>
    decreases |ts|
  {
    if ts == [] then path else Show(ShowAll(path, ts[..|ts| - 1]), ts[|ts| - 1])
  }

  lemma {:induction false} ShowMore(path: seq<byte>, ts: seq<seq<byte>>, t: seq<byte>)
    ensures ShowAll(path, ts + [t]) == Show(ShowAll(path, ts), t)
  {
    assert (ts + [t])[..|ts|] == ts;
  }

  class Shell {
    const fs: Fat32
    var cwdPath: seq<byte>

    constructor (f: Fat32)
      ensures fs == f && cwdPath == ROOT_PATH
    {
      fs, cwdPath := f, ROOT_PATH;
    }

    /** Move to the parent of a path and hand back its last component; on failure stay where we were. */
    method ToParentAndBase(path: seq<byte>) returns (ok: bool, saved: nat, base: seq<byte>)
      requires fs.Valid() && Sound(fs.State()) && CString(path)
      modifies fs
      ensures fs.Valid() && saved == old(fs.State()).cwd
      ensures var d := Descend(old(fs.State()), path);
              && ok == (d.ok && d.base != [])
              && (if ok then base == d.base && fs.State() == d.v else fs.State() == SetCwd(d.v, saved))
    {
      hide Sound, Descend, Fat32.Valid, VolumeOf;
      saved := fs.cwd;
      SavedIs(fs);
      ok, base := DescendPath(fs, path);
      if !ok || base == [] {
        fs.SetCwdCluster(saved);
        ok := false;
      }
    }

    /** touch, write, rm, mkdir, rmdir and cat. */
    method Run(cmd: Command, path: seq<byte>) returns (ok: bool)
      requires fs.Valid() && Sound(fs.State()) && CString(path) && (cmd.Write? ==> |cmd.bytes| < 0x1_0000_0000)
      modifies fs
      ensures fs.Valid() && old(fs.State()).cwd < 0x1_0000_0000 && Descend(old(fs.State()), path).v.cwd < 0x1_0000_0000
      ensures Outcome(ok, fs.State()) == Perform(old(fs.State()), cmd, path)
    {
      hide Sound, Descend, Fat32.Valid, VolumeOf, CString;
      DescentSmall(fs.State(), path);
      var saved, base;
      ok, saved, base := ToParentAndBase(path);
      if !ok { return; }
      hide FatVolume.Create, FatVolume.WriteFile, FatVolume.Remove, FatVolume.Mkdir, FatVolume.Rmdir, FatVolume.Find;
      match cmd {
        case Touch => ok := fs.Create(base);
        case Write(bytes) => ok := fs.WriteFile(base, bytes);
        case Rm => ok := fs.Remove(base);
        case MkDir => ok := fs.Mkdir(base);
        case RmDir => ok := fs.Rmdir(base);
        case Cat =>
          var entry;
          ok, entry := fs.Find(base);
      }
      fs.SetCwdCluster(saved);
    }

    /** ls: list the directory a path leads to, or the current one, and come back. */
    method Ls(hasPath: bool, path: seq<byte>) returns (ok: bool, es: seq<Slot>)
      requires fs.Valid() && Sound(fs.State()) && CString(path)
      modifies fs
      ensures fs.Valid() && fs.State() == old(fs.State())
      ensures ok == (!hasPath || ChdirPath(fs.State(), path).ok)
      ensures var d := if hasPath then ChdirPath(fs.State(), path).v else fs.State();
              InRange(d.fat, Cwd(d)) && es == if ok then Visited(d, Cwd(d), 0, 0) else []
    {
      hide Sound, ChdirPath, Fat32.Valid, VolumeOf, CString, Visited, IsChain;
      ghost var v := fs.State();
      SavedIs(fs);
      CwdWasLive(v);
      ChdirPathMoves(v, path);
      var saved := fs.cwd;
      ok, es := true, [];
      if hasPath { ok := WalkPath(fs, path); }
      SoundCwd(fs.State());
      SavedIs(fs);
      ChainInRange(fs.State());
      if ok { es := fs.ListDir(fs.cwd); }
      fs.SetCwdCluster(saved);
    }

    /** Append the upper-case form of a component to the displayed path, if there is room. */
    method PathPush(name: seq<byte>)
      modifies this`cwdPath
      ensures cwdPath == Push(old(cwdPath), name)
    {
      var up: seq<byte> := [];
      while |up| < |name| && |up| < 12
        invariant |up| <= |name| && |up| <= 12 && up == UpperAll(name[..|up|])
      {
        up := up + [Upper(name[|up|])];
      }
      assert name[..|up|] == Take(name, 12);
      if |cwdPath| + 1 + |up| + 1 >= PATH_MAX { return; }
      if !(|cwdPath| == 1 && cwdPath[0] == SLASH) { cwdPath := cwdPath + [SLASH]; }
      cwdPath := cwdPath + up;
    }

    /** Cut the displayed path back to before its last slash. */
    method PathPop()
      modifies this`cwdPath
      ensures cwdPath == Pop(old(cwdPath))
    {
      var len := |cwdPath|;
      if len <= 1 {
        cwdPath := ROOT_PATH;
        return;
      }
      while len > 1 && cwdPath[len - 1] != SLASH
        invariant 1 <= len <= |cwdPath| && LastSlash(cwdPath, len) == LastSlash(cwdPath, |cwdPath|)
      {
        len := len - 1;
      }
      if len > 1 { len := len - 1; }
      cwdPath := cwdPath[..len];
    }

    /** cd: enter each component and update the displayed path with it; on failure put both back. */
    method Cd(path: seq<byte>) returns (ok: bool)
      requires fs.Valid() && Sound(fs.State()) && CString(path)
      modifies this, fs
      ensures fs.Valid() && ok == ChdirPath(old(fs.State()), path).ok
      ensures ok ==> fs.State() == ChdirPath(old(fs.State()), path).v
      ensures ok ==>
                cwdPath == ShowAll(if path != [] && path[0] == SLASH then ROOT_PATH else old(cwdPath), Tokens(path))
      ensures !ok ==> fs.State() == old(fs.State()) && cwdPath == old(cwdPath)
    {
      hide Sound, Walking, Fat32.Valid, Tokens, Pending, ChdirAll, FatVolume.Chdir, VolumeOf, CString, Show, ShowAll;
      hide Push, Pop;
      ghost var v0, v := fs.State(), Origin(fs.State(), path);
      WalkStart(v0, path);
      SavedIs(fs);
      CwdWasLive(v0);
      var savedCluster, savedPath := fs.cwd, cwdPath;
      var p := 0;
      if |path| > 0 && path[0] == SLASH {
        fs.SetRoot();
        cwdPath := ROOT_PATH;
        p := 1;
      }
      ghost var start := cwdPath;
      assert path[0..] == path;
      var tok: seq<byte> := [];
      ghost var done: seq<seq<byte>> := [];
      ShowNone(start);
      while true
        invariant p <= |path| && fs.Valid() && Walking(v, fs.State(), path, done, tok, path[p..])
        invariant cwdPath == ShowAll(start, done) && SameButCwd(v0, fs.State())
        decreases |path| - p
      {
        WalkingFacts(v, fs.State(), path, done, tok, path[p..]);
        if p == |path| || path[p] == SLASH {
          if |tok| > 0 {
            WalkEnter(v, fs.State(), path, done, tok, path[p..]);
            ChdirMoves(fs.State(), tok);
            ok := fs.Chdir(tok);
            if !ok {
              fs.SetCwdCluster(savedCluster);
              cwdPath := savedPath;
              return;
            }
            ShowMore(start, done, tok);
            ShowIs(cwdPath, tok);
            if tok == [PERIOD] {
            } else if tok == [PERIOD, PERIOD] {
              PathPop();
            } else {
              PathPush(tok);
            }
            done := done + [tok];
            tok := [];
          }
          WalkSkip(v, fs.State(), path, done, path[p..]);
          if p == |path| { return true; }
        } else {
          WalkByte(v, fs.State(), path, done, tok, path[p..]);
          if |tok| < TOKEN_MAX { tok := tok + [path[p]]; }
        }
        assert path[p..][1..] == path[p + 1..];
        p := p + 1;
      }
    }
  }

  /** A walk, finished or not, stays sound and changes nothing but the current directory. */
  lemma {:induction false} ChdirPathMoves(v: Volume, path: seq<byte>)
    requires Sound(v) && CString(path)
    ensures SameButCwd(v, ChdirPath(v, path).v) && Sound(ChdirPath(v, path).v)
  {
    RootSound(v);
    TokensAreC(path);
    hide Wf, Tokens;
    var o := Origin(v, path);
    var g :| WfVolume(o, g);
    WalkKeepsWf(o, g, Tokens(path));
  }

  lemma {:induction false} ChainInRange(v: Volume)
    requires StartsChain(v, v.cwd)
    ensures InRange(v.fat, Cwd(v))
  {
  }

  lemma {:induction false} ShowIs(path: seq<byte>, tok: seq<byte>)
    ensures Show(path, tok) == if tok == [PERIOD] then path
                               else if tok == [PERIOD, PERIOD] then Pop(path)
                               else Push(path, tok)
  {
  }

  predicate SameButCwd(v: Volume, w: Volume) { w == v.(cwd := w.cwd) }

  lemma {:induction false} ShowNone(path: seq<byte>)
    ensures ShowAll(path, []) == path
  {
  }

  lemma {:induction false} SavedIs(fs: Fat32)
    requires fs.Valid()
    ensures fs.State().cwd == fs.cwd
  {
  }

  lemma {:induction false} CwdWasLive(v: Volume)
    requires Sound(v)
    ensures v.cwd >= 2
  {
    var g :| WfVolume(v, g);
    CwdIsCluster(v, g);
  }

  /** Changing directory changes nothing but the current directory. */
  lemma {:induction false} ChdirMoves(v: Volume, name: seq<byte>)
    requires Shape(v)
    ensures SameButCwd(v, FatVolume.Chdir(v, name).v)
  {
  }
}
