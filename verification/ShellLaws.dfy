/** What each file command does in the directory its path leads to. */
module ShellLaws {
  import opened Bytes
  import opened FatChains
  import opened FatTree
  import opened FatDirectory
  import opened FatNames
  import opened FatVolume
  import opened FatSafety
  import opened FatRuns
  import opened FatTheorems
  import opened FatContents
  import opened FatRoundTrip
  import opened FatLaws
  import opened ShellPaths

  /** The slot of the current directory that name is found in holds this entry. */
  predicate Shows(v: Volume, name: seq<byte>, e: FatTree.Entry) {
    var p := Lookup(v, ToShort(name));
    p.At? && p.i < |Cwd(v)| && TreeOf(v).ents(Cwd(v)[p.i], p.j) == e
  }

  /** The name is found, in a slot of a file, and that file holds the bytes. */
  ghost predicate Contains(v: Volume, name: seq<byte>, bytes: seq<byte>) {
    && Shape(v)
    && var p := Lookup(v, ToShort(name));
       && p.At? && p.i < |Cwd(v)|
       && var e := TreeOf(v).ents(Cwd(v)[p.i], p.j);
          && !e.isDir && e.size == |bytes|
          && forall max: nat :: ReadFile(v, e.start, e.size, max) == bytes[..Min(|bytes|, max)]
  }

  /** The name is found, in a slot of this kind. */
  predicate Has(v: Volume, name: seq<byte>, dir: bool) {
    var p := Lookup(v, ToShort(name));
    p.At? && p.i < |Cwd(v)| && TreeOf(v).ents(Cwd(v)[p.i], p.j).isDir == dir
  }

  /** Once removed, the name is found again only if another slot carries it. */
  ghost predicate Removed(u: Volume, w: Volume, name: seq<byte>) {
    Lookup(w, ToShort(name)).Nowhere? <==> Alone(u, ToShort(name), Lookup(u, ToShort(name)))
  }

  /** What a command that succeeds in the current directory of u leaves in w. */
  ghost predicate Did(u: Volume, w: Volume, cmd: Command, base: seq<byte>) {
    && Shape(w) && w.cwd == u.cwd
    && match cmd
       case Touch =>
         && Lookup(u, ToShort(base)).Nowhere?
         && (!Erasing(base) ==> Shows(w, base, FatTree.Entry(Named, ToShort(base), false, 0, 0)))
       case Write(bytes) => !Erasing(base) ==> Contains(w, base, bytes)
       case Rm => Has(u, base, false) && Removed(u, w, base)
       case MkDir =>
         && Lookup(u, ToShort(base)).Nowhere?
         && (!Erasing(base) && Component(base) ==>
               Chdir(w, base).ok && Chdir(Chdir(w, base).v, [PERIOD, PERIOD]) == Outcome(true, w))
       case RmDir => Has(u, base, true) && Removed(u, w, base)
       case Cat => w == u && Find(u, base).At?
  }

  lemma {:induction false} TouchDid(u: Volume, g: Own, base: seq<byte>)
    requires WfVolume(u, g) && CString(base)
    ensures var r := Create(u, base); if r.ok then Did(u, r.v, Touch, base) else r.v == u
  {
    hide Wf, Cwd, ToShort, EntryAt, FatVolume.Lookup, FatVolume.FreePos, FatVolume.Create;
    CreateLaw(u, g, base);
  }

  lemma {:induction false} MkDirDid(u: Volume, g: Own, base: seq<byte>)
    requires WfVolume(u, g) && CString(base) && u.cwd < 0x1_0000_0000
    ensures var r := Mkdir(u, base); if r.ok then Did(u, r.v, MkDir, base) else r.v == u
  {
    hide Wf, Cwd, ToShort, EntryAt, FatVolume.Lookup, FatVolume.FreePos, FatVolume.Mkdir, FatVolume.Chdir, NewDirectory;
    MkdirLaw(u, g, base);
  }

  lemma {:induction false} RmDid(u: Volume, g: Own, base: seq<byte>)
    requires WfVolume(u, g) && CString(base)
    ensures var r := Remove(u, base); if r.ok then Did(u, r.v, Rm, base) else r.v == u
  {
    hide Wf, Cwd, ToShort, EntryAt, FatVolume.Find, FatVolume.Remove, Alone;
    RemoveLaw(u, g, base);
  }

  lemma {:induction false} RmDirDid(u: Volume, g: Own, base: seq<byte>)
    requires WfVolume(u, g) && CString(base)
    ensures var r := Rmdir(u, base); if r.ok then Did(u, r.v, RmDir, base) else r.v == u
  {
    hide Wf, Cwd, ToShort, EntryAt, FatVolume.Find, FatVolume.Rmdir, Alone, EmptyDir;
    RmdirLaw(u, g, base);
  }

  lemma {:induction false} WriteDid(u: Volume, g: Own, base: seq<byte>, bytes: seq<byte>)
    requires WfVolume(u, g) && CString(base) && |bytes| < 0x1_0000_0000
    ensures var r := WriteFile(u, base, bytes); r.ok ==> Did(u, r.v, Write(bytes), base)
    ensures WriteFile(u, base, bytes).v.cwd == u.cwd
  {
    hide Wf, Cwd, ToShort, FatVolume.WriteFile, Held, Writable, Target;
    CwdSmall(u, g);
    WriteLaw(u, g, base, bytes);
    var r := WriteFile(u, base, bytes);
    if r.ok && !Erasing(base) {
      WriteWrites(u, g, base, bytes);
      LookupFindsWritten(u, g, base, bytes);
      var p := Target(u, OpWrite(base, bytes));
      DecodeFields(SlotOf(r.v, Cwd(u)[p.i], p.j));
    }
  }

  lemma {:induction false} ActLaw(u: Volume, g: Own, cmd: Command, base: seq<byte>)
    requires WfVolume(u, g) && CString(base) && u.cwd < 0x1_0000_0000 && (cmd.Write? ==> |cmd.bytes| < 0x1_0000_0000)
    ensures var r := Act(u, cmd, base); r.v.cwd == u.cwd && (r.ok ==> Did(u, r.v, cmd, base))
    ensures !cmd.Write? && !Act(u, cmd, base).ok ==> Act(u, cmd, base).v == u
  {
    hide Wf, FatVolume.Create, FatVolume.WriteFile, FatVolume.Remove, FatVolume.Mkdir, FatVolume.Rmdir, FatVolume.Find;
    hide Shows, Has, Removed, Contains, FatVolume.Lookup, ToShort, FatVolume.Chdir;
    match cmd
    case Touch => TouchDid(u, g, base);
    case Write(bytes) => WriteDid(u, g, base, bytes);
    case Rm => RmDid(u, g, base);
    case MkDir => MkDirDid(u, g, base);
    case RmDir => RmDirDid(u, g, base);
    case Cat =>
  }

  /**
   * A file command, from the prompt: it does what its name says in the directory its path leads to, comes back to where
   * it was, and, but for a write, changes nothing if it fails.
   */
  lemma {:induction false} CommandLaw(v: Volume, cmd: Command, path: seq<byte>)
    requires Sound(v) && CString(path) && (cmd.Write? ==> |cmd.bytes| < 0x1_0000_0000)
    ensures v.cwd < 0x1_0000_0000 && Descend(v, path).v.cwd < 0x1_0000_0000
    ensures var r, d := Perform(v, cmd, path), Descend(v, path);
            && r.v.cwd == v.cwd
            && (r.ok ==> d.ok && d.base != [] && Did(d.v, r.v.(cwd := d.v.cwd), cmd, d.base))
            && (!r.ok && !cmd.Write? ==> r.v == v)
            && (!d.ok || d.base == [] ==> r == Outcome(false, v))
  {
    hide Wf, Descend, Act, Did;
    DescentSmall(v, path);
    var g :| WfVolume(v, g);
    DescendKeepsWf(v, g, path);
    var d := Descend(v, path);
    if d.ok && d.base != [] {
      ActLaw(d.v, g, cmd, d.base);
      var w := Act(d.v, cmd, d.base).v;
      assert w.(cwd := v.cwd).(cwd := d.v.cwd) == w;
    }
  }

  // ---- paths ----

  /** Parts joined with slashes. */
  function Joined(parts: seq<seq<byte>>): seq<byte> {
    if parts == [] then [] else if |parts| == 1 then parts[0] else parts[0] + [0x2F] + Joined(parts[1..])
  }

  /** The first 15 bytes of each part that has any. */
  function Cut(parts: seq<seq<byte>>): seq<seq<byte>> {
    if parts == [] then []
    else
      (if parts[0] == [] then [] else [if |parts[0]| <= 15 then parts[0] else parts[0][..15]]) + Cut(parts[1..])
  }

  /** The components of a path are the parts between its slashes, cut to 15 bytes, empty ones left out. */
  lemma {:induction false} ComponentsLaw(parts: seq<seq<byte>>)
    requires forall k :: 0 <= k < |parts| ==> 0x2F !in parts[k]
    ensures Tokens(Joined(parts)) == Cut(parts)
    decreases |parts|
  {
    if parts != [] {
      var p, path := parts[0], Joined(parts);
      assert path[..|p|] == p;
      UntilIs(path, SLASH, |p|);
      if |parts| > 1 {
        assert path[|p| + 1..] == Joined(parts[1..]);
        ComponentsLaw(parts[1..]);
      } else {
        assert Cut(parts[1..]) == [];
      }
    }
  }

  /** Where a path starts from: the root if its first byte is a slash, else the current directory. */
  lemma {:induction false} StartLaw(v: Volume, path: seq<byte>)
    ensures path != [] && path[0] == 0x2F ==> Origin(v, path) == v.(cwd := v.root)
    ensures path == [] || path[0] != 0x2F ==> Origin(v, path) == v
  {
  }

  /**
   * The display is extended by a component, with a slash before it but behind the root, exactly if that leaves room for
   * it in 128 bytes, a slash and an end mark counted; else it is left as it is.
   */
  lemma {:induction false} PushLaw(path: seq<byte>, name: seq<byte>)
    ensures var d := Display(name);
            && (|path| + |d| + 2 < 128 ==> Push(path, name) == if path == [0x2F] then path + d else path + [0x2F] + d)
            && (|path| + |d| + 2 >= 128 ==> Push(path, name) == path)
  {
  }
}
