/** Names: the 11-byte padded form in a slot and the dotted form the user types. */
module FatNames {
  import opened Bytes

  function Upper(b: byte): byte { if 0x61 <= b <= 0x7A then b - 0x20 else b }

  function UpperAll(s: seq<byte>): (r: seq<byte>)
    ensures |r| == |s| && forall i :: 0 <= i < |s| ==> r[i] == Upper(s[i])
  {
    seq(|s|, i requires 0 <= i < |s| => Upper(s[i]))
  }

  /** The number of bytes before the first b. */
  function Until(s: seq<byte>, b: byte): (n: nat)
    ensures n <= |s| && (n < |s| ==> s[n] == b) && forall i :: 0 <= i < n ==> s[i] != b
  {
    if s == [] || s[0] == b then 0 else 1 + Until(s[1..], b)
  }

  lemma {:induction false} UntilIs(s: seq<byte>, b: byte, n: nat)
    requires n <= |s| && (n < |s| ==> s[n] == b) && forall i :: 0 <= i < n ==> s[i] != b
    ensures Until(s, b) == n
  {
  }

  /** A string as the caller passes it: no NUL inside. */
  predicate CString(s: seq<byte>) { 0 !in s }

  /** The string a buffer holds: what precedes its first NUL. */
  function CutNul(s: seq<byte>): (r: seq<byte>)
    ensures CString(r) && r <= s && (CString(s) ==> r == s)
  {
    s[..Until(s, 0)]
  }

  function Take(s: seq<byte>, n: nat): (r: seq<byte>)
    ensures |r| <= n && r <= s
  {
    if |s| <= n then s else s[..n]
  }

  function Base(name: seq<byte>): (r: seq<byte>)
    ensures |r| <= 8
  {
    UpperAll(Take(name[..Until(name, PERIOD)], 8))
  }

  function Ext(name: seq<byte>): (r: seq<byte>)
    ensures |r| <= 3
  {
    var n := Until(name, PERIOD);
    if n == |name| then [] else UpperAll(Take(name[n + 1..], 3))
  }

  /** A slot name from its two parts, padded with spaces. */
  function Padded(base: seq<byte>, ext: seq<byte>): (r: seq<byte>)
    requires |base| <= 8 && |ext| <= 3
    ensures |r| == 11 && r[..8] == Pad(base, 8, SPACE) && r[8..] == Pad(ext, 3, SPACE)
  {
    Pad(base, 8, SPACE) + Pad(ext, 3, SPACE)
  }

  /** The slot form of a name: what precedes the first period, up to 8, and what follows it, up to 3. */
  function ToShort(name: seq<byte>): (r: seq<byte>)
    ensures |r| == 11
  {
    Padded(Base(name), Ext(name))
  }

  function RawBase(raw: seq<byte>): (r: seq<byte>)
    requires |raw| == 11
    ensures |r| <= 8
  {
    raw[..8][..Until(raw[..8], SPACE)]
  }

  function RawExt(raw: seq<byte>): (r: seq<byte>)
    requires |raw| == 11
    ensures |r| <= 3
  {
    raw[8..][..Until(raw[8..], SPACE)]
  }

  function Join(base: seq<byte>, ext: seq<byte>): seq<byte> { if ext == [] then base else base + [PERIOD] + ext }

  /** The characters of a dotted name: both parts of the slot name up to their first space. */
  function DottedName(raw: seq<byte>): (r: seq<byte>)
    requires |raw| == 11
  {
    Join(RawBase(raw), RawExt(raw))
  }

  /** The dotted name as a string, so cut at a NUL inside the slot name. */
  function Format(raw: seq<byte>): (r: seq<byte>)
    requires |raw| == 11
    ensures CString(r)
  {
    CutNul(DottedName(raw))
  }

  /** Equal up to the case of letters. */
  predicate SameName(a: seq<byte>, b: seq<byte>) { UpperAll(a) == UpperAll(b) }

  predicate SpaceFree(s: seq<byte>) { SPACE !in s }

  lemma {:induction false} PadUntil(s: seq<byte>, n: nat)
    requires |s| <= n && SpaceFree(s)
    ensures Until(Pad(s, n, SPACE), SPACE) == |s|
  {
    UntilIs(Pad(s, n, SPACE), SPACE, |s|);
  }

  lemma {:induction false} PaddedParts(base: seq<byte>, ext: seq<byte>)
    requires |base| <= 8 && |ext| <= 3 && SpaceFree(base) && SpaceFree(ext)
    ensures RawBase(Padded(base, ext)) == base && RawExt(Padded(base, ext)) == ext
  {
    PadUntil(base, 8);
    PadUntil(ext, 3);
  }

  lemma {:induction false} UpperParts(s: seq<byte>)
    ensures SpaceFree(s) ==> SpaceFree(UpperAll(s))
    ensures PERIOD !in s ==> PERIOD !in UpperAll(s)
    ensures UpperAll(UpperAll(s)) == UpperAll(s)
  {
  }

  /** A part as lookups leave it: upper case. */
  lemma {:induction false} ShortParts(name: seq<byte>)
    ensures UpperAll(Base(name)) == Base(name) && UpperAll(Ext(name)) == Ext(name) && PERIOD !in Base(name)
    ensures SpaceFree(name) ==> SpaceFree(Base(name)) && SpaceFree(Ext(name))
  {
    var n := Until(name, PERIOD);
    UpperParts(Take(name[..n], 8));
    if n < |name| { UpperParts(Take(name[n + 1..], 3)); }
  }

  lemma {:induction false} JoinParts(base: seq<byte>, ext: seq<byte>)
    requires |base| <= 8 && |ext| <= 3 && PERIOD !in base && UpperAll(base) == base && UpperAll(ext) == ext
    ensures Base(Join(base, ext)) == base && Ext(Join(base, ext)) == ext
  {
    var name := Join(base, ext);
    UntilIs(name, PERIOD, |base|);
    assert name[..|base|] == base;
    assert ext != [] ==> name[|base| + 1..] == ext;
  }

  lemma {:induction false} ShortIsCString(name: seq<byte>)
    requires CString(name)
    ensures CString(Base(name)) && CString(Ext(name)) && CString(ToShort(name))
  {
    var n := Until(name, PERIOD);
    assert CString(Take(name[..n], 8)) && (n < |name| ==> CString(Take(name[n + 1..], 3)));
    assert ToShort(name) == Pad(Base(name), 8, SPACE) + Pad(Ext(name), 3, SPACE);
  }

  lemma {:induction false} PlainFormat(raw: seq<byte>)
    requires |raw| == 11 && CString(raw)
    ensures Format(raw) == DottedName(raw)
  {
    assert forall i :: 0 <= i < |RawBase(raw)| ==> RawBase(raw)[i] == raw[i];
    assert forall i :: 0 <= i < |RawExt(raw)| ==> RawExt(raw)[i] == raw[8 + i];
  }

  /** Formatting the slot form of a space-free name and shortening it again changes nothing. */
  lemma {:induction false} ShortFormatShort(name: seq<byte>)
    requires CString(name) && SpaceFree(name)
    ensures ToShort(Format(ToShort(name))) == ToShort(name)
  {
    ShortIsCString(name);
    PlainFormat(ToShort(name));
    ShortParts(name);
    PaddedParts(Base(name), Ext(name));
    JoinParts(Base(name), Ext(name));
  }

  // ---- the two lookups ----

  predicate Plain(s: seq<byte>) { SpaceFree(s) && PERIOD !in s }

  /** A slot name in canonical form: upper case, no NUL, no period, padding only at the end of each part. */
  predicate Canonical(raw: seq<byte>) {
    && |raw| == 11 && CString(raw) && Plain(RawBase(raw)) && Plain(RawExt(raw))
    && UpperAll(RawBase(raw)) == RawBase(raw) && UpperAll(RawExt(raw)) == RawExt(raw)
    && raw == Padded(RawBase(raw), RawExt(raw))
  }

  /** A name in 8.3 form: 1 to 8 characters, then optionally a period and 1 to 3 more. */
  predicate Canonical83(name: seq<byte>) {
    && CString(name) && SpaceFree(name)
    && var n := Until(name, PERIOD);
       && 1 <= n <= 8
       && (n < |name| ==> 1 <= |name| - n - 1 <= 3 && PERIOD !in name[n + 1..])
  }

  lemma {:induction false} UpperJoin(base: seq<byte>, ext: seq<byte>)
    ensures UpperAll(Join(base, ext)) == Join(UpperAll(base), UpperAll(ext))
  {
  }

  lemma {:induction false} Canonical83Parts(name: seq<byte>)
    requires Canonical83(name)
    ensures UpperAll(name) == Join(Base(name), Ext(name))
  {
    var n := Until(name, PERIOD);
    assert Take(name[..n], 8) == name[..n];
    if n < |name| {
      assert Take(name[n + 1..], 3) == name[n + 1..];
      assert name == Join(name[..n], name[n + 1..]);
      UpperJoin(name[..n], name[n + 1..]);
    } else {
      assert name[..n] == name;
    }
  }

  /** On canonical slot names, the case-blind dotted comparison and the exact slot comparison agree. */
  lemma {:induction false} NamesAgree(raw: seq<byte>, name: seq<byte>)
    requires Canonical(raw) && Canonical83(name)
    ensures SameName(Format(raw), name) <==> raw == ToShort(name)
  {
    PlainFormat(raw);
    Canonical83Parts(name);
    ShortParts(name);
    PaddedParts(Base(name), Ext(name));
    UpperJoin(RawBase(raw), RawExt(raw));
    JoinParts(RawBase(raw), RawExt(raw));
    JoinParts(Base(name), Ext(name));
  }

  /** The slot form of an 8.3 name is canonical. */
  lemma {:induction false} ShortIsCanonical(name: seq<byte>)
    requires Canonical83(name)
    ensures Canonical(ToShort(name))
  {
    ShortIsCString(name);
    ShortParts(name);
    PaddedParts(Base(name), Ext(name));
    var n := Until(name, PERIOD);
    if n < |name| { UpperParts(Take(name[n + 1..], 3)); }
  }

  /** The slot form of a name never begins with a period, so it never denotes "." or "..". */
  lemma {:induction false} ShortIsNotDot(name: seq<byte>)
    ensures ToShort(name)[0] != PERIOD
  {
    ShortParts(name);
    if Base(name) == [] {
      assert ToShort(name)[..8][0] == SPACE;
    } else {
      assert ToShort(name)[..8][0] == Base(name)[0];
    }
  }

  // ---- the slot form, byte by byte ----

  lemma {:induction false} BaseIs(name: seq<byte>, o: nat)
    requires var n := Until(name, PERIOD); o <= n && o <= 8 && (o < 8 ==> o == n)
    ensures |Base(name)| == o && forall k :: 0 <= k < o ==> Base(name)[k] == Upper(name[k])
  {
  }

  lemma {:induction false} ExtIs(name: seq<byte>)
    ensures var n := Until(name, PERIOD);
            && |Ext(name)| == (if n == |name| then 0 else if |name| - n - 1 < 3 then |name| - n - 1 else 3)
            && forall k :: 0 <= k < |Ext(name)| ==> Ext(name)[k] == Upper(name[k + n + 1])
  {
    var n := Until(name, PERIOD);
  }

  /** Byte k of the slot form of a name whose first period is at n. */
  function ShortByte(name: seq<byte>, n: nat, k: nat): byte {
    if k < 8 then (if k < n && k < |name| then Upper(name[k]) else SPACE)
    else if n + k - 7 < |name| then Upper(name[n + k - 7])
    else SPACE
  }

  lemma {:induction false} ShortIndex(name: seq<byte>)
    ensures forall k :: 0 <= k < 11 ==> ToShort(name)[k] == ShortByte(name, Until(name, PERIOD), k)
  {
    hide Base, Ext, Upper, Until;
    var n := Until(name, PERIOD);
    BaseIs(name, if n < 8 then n else 8);
    ExtIs(name);
    var b, e, s := Base(name), Ext(name), ToShort(name);
    forall k | 0 <= k < 11 ensures s[k] == ShortByte(name, n, k) {
      if k < 8 {
        assert s[k] == s[..8][k] == Pad(b, 8, SPACE)[k];
        if k < |b| { assert Pad(b, 8, SPACE)[..|b|][k] == b[k]; }
      } else {
        assert s[k] == s[8..][k - 8] == Pad(e, 3, SPACE)[k - 8];
        if k - 8 < |e| { assert Pad(e, 3, SPACE)[..|e|][k - 8] == e[k - 8]; }
      }
    }
  }

  // ---- case ----

  /** The same letter, or a letter and its capital. */
  predicate SameLetter(a: byte, b: byte) {
    a == b || (0x41 <= a <= 0x5A && b == a + 0x20) || (0x41 <= b <= 0x5A && a == b + 0x20)
  }

  predicate SameLetters(a: seq<byte>, b: seq<byte>) {
    |a| == |b| && forall i :: 0 <= i < |a| ==> SameLetter(a[i], b[i])
  }

  predicate SmallLetter(b: byte) { 0x61 <= b <= 0x7A }

  lemma {:induction false} UpperIs(b: byte, c: byte)
    ensures SameLetter(b, Upper(b)) && !SmallLetter(Upper(b)) && (Upper(b) == Upper(c) <==> SameLetter(b, c))
  {
  }

  /** The case-blind comparison accepts two names exactly if they are the same letter by letter. */
  lemma {:induction false} SameNameIff(a: seq<byte>, b: seq<byte>)
    ensures SameName(a, b) <==> SameLetters(a, b)
  {
    hide Upper, SameLetter;
    if |a| == |b| {
      forall i | 0 <= i < |a| ensures UpperAll(a)[i] == UpperAll(b)[i] <==> SameLetter(a[i], b[i]) {
        UpperIs(a[i], b[i]);
      }
    }
    if SameName(a, b) { assert forall i :: 0 <= i < |a| ==> UpperAll(a)[i] == UpperAll(b)[i]; }
    if SameLetters(a, b) { assert forall i :: 0 <= i < |a| ==> UpperAll(a)[i] == UpperAll(b)[i]; }
  }

  /**
   * The slot form of a name, byte by byte: up to eight of what precedes the first period, at m, and up to three of what
   * follows it, each part padded with spaces; letter by letter the same, but no small letter.
   */
  lemma {:induction false} ShortBytes(name: seq<byte>, m: nat)
    requires m <= |name| && (forall i :: 0 <= i < m ==> name[i] != 0x2E) && (m < |name| ==> name[m] == 0x2E)
    ensures var r := ToShort(name);
            && (forall k :: 0 <= k < 8 ==> if k < m then SameLetter(name[k], r[k]) else r[k] == 0x20)
            && (forall k :: 8 <= k < 11 ==>
                  if m + k - 7 < |name| then SameLetter(name[m + k - 7], r[k]) else r[k] == 0x20)
            && (forall k :: 0 <= k < 11 ==> !SmallLetter(r[k]))
  {
    hide Base, Ext, Upper, SameLetter, Until, ToShort;
    UntilIs(name, PERIOD, m);
    ShortIndex(name);
    forall k | 0 <= k < 11
      ensures !SmallLetter(ToShort(name)[k])
      ensures k < 8 ==> if k < m then SameLetter(name[k], ToShort(name)[k]) else ToShort(name)[k] == 0x20
      ensures k >= 8 ==>
                if m + k - 7 < |name| then SameLetter(name[m + k - 7], ToShort(name)[k]) else ToShort(name)[k] == 0x20
    {
      if k < 8 && k < m { UpperIs(name[k], 0); }
      if k >= 8 && m + k - 7 < |name| { UpperIs(name[m + k - 7], 0); }
    }
  }

  /** Names that are the same letter by letter have the same slot form. */
  lemma {:induction false} CaseBlindShort(a: seq<byte>, b: seq<byte>)
    requires SameLetters(a, b)
    ensures ToShort(a) == ToShort(b)
  {
    hide SameLetter, Upper, ToShort, Until;
    var m := Until(a, PERIOD);
    forall i | 0 <= i < |a| ensures Upper(a[i]) == Upper(b[i]) && (a[i] == PERIOD <==> b[i] == PERIOD) {
      UpperIs(a[i], b[i]);
      PeriodIsNoLetter(a[i], b[i]);
    }
    UntilAgrees(a, b, PERIOD);
    ShortIndex(a);
    ShortIndex(b);
    forall k | 0 <= k < 11 ensures ToShort(a)[k] == ToShort(b)[k] { }
  }

  lemma {:induction false} UntilAgrees(a: seq<byte>, b: seq<byte>, x: byte)
    requires |a| == |b| && forall i :: 0 <= i < |a| ==> (a[i] == x <==> b[i] == x)
    ensures Until(a, x) == Until(b, x)
  {
    UntilIs(b, x, Until(a, x));
  }

  lemma {:induction false} PeriodIsNoLetter(a: byte, b: byte)
    requires SameLetter(a, b)
    ensures (a == PERIOD <==> b == PERIOD) && (a == 0 <==> b == 0)
  {
  }

  // ---- the loops that compute the two forms ----

  /** Fill an 11-byte buffer with the slot form of a name. */
  method ToShortName(name: seq<byte>) returns (r: seq<byte>)
    ensures r == ToShort(name)
  {
    hide ToShort, Upper, Until;
    var out := new byte[11](_ => SPACE);
    var i, o := 0, 0;
    ghost var n := Until(name, PERIOD);
    while i < |name| && name[i] != PERIOD && o < 8
      invariant i == o <= n && o <= 8
      invariant forall k :: 0 <= k < 11 ==> out[k] == if k < o then Upper(name[k]) else SPACE
    {
      out[o] := Upper(name[i]);
      o := o + 1;
      i := i + 1;
    }
    while i < |name| && name[i] != PERIOD
      invariant o <= i <= n && (o < 8 ==> o == n)
    {
      i := i + 1;
    }
    assert i == n;
    if i < |name| {
      i := i + 1;
      var e := 8;
      while i < |name| && e < 11
        invariant n + 1 <= i <= |name| && e == 8 + (i - n - 1) && 8 <= e <= 11
        invariant forall k :: 0 <= k < 8 ==> out[k] == ShortByte(name, n, k)
        invariant forall k :: 8 <= k < e ==> out[k] == Upper(name[n + k - 7])
        invariant forall k :: e <= k < 11 ==> out[k] == SPACE
      {
        out[e] := Upper(name[i]);
        e := e + 1;
        i := i + 1;
      }
    }
    r := out[..];
    ShortIndex(name);
  }

  /** Write the dotted form of a slot name and the closing NUL; read as a string it is the formatted name. */
  method FormatShortName(raw: seq<byte>) returns (r: seq<byte>)
    requires |raw| == 11
    ensures r == DottedName(raw) + [0] && |r| <= 13 && CutNul(r) == Format(raw)
  {
    r := [];
    var i := 0;
    while i < 8 && raw[i] != SPACE
      invariant i <= 8 && i <= Until(raw[..8], SPACE) && r == raw[..8][..i]
    {
      assert raw[i] == raw[..8][i];
      r := r + [raw[i]];
      i := i + 1;
    }
    assert i < 8 ==> raw[..8][i] == SPACE;
    assert r == RawBase(raw);
    ghost var base := r;
    assert raw[8] == raw[8..][0];
    if raw[8] != SPACE {
      r := r + [PERIOD];
      i := 8;
      while i < 11 && raw[i] != SPACE
        invariant 8 <= i <= 11 && i - 8 <= Until(raw[8..], SPACE) && r == base + [PERIOD] + raw[8..][..i - 8]
      {
        assert raw[i] == raw[8..][i - 8];
        r := r + [raw[i]];
        i := i + 1;
      }
      assert i < 11 ==> raw[8..][i - 8] == SPACE;
    }
    assert r == DottedName(raw);
    CutClosed(r);
    r := r + [0];
  }

  lemma {:induction false} CutClosed(s: seq<byte>)
    ensures CutNul(s + [0]) == CutNul(s)
  {
    UntilIs(s + [0], 0, Until(s, 0));
  }

  /** Compare two NUL-terminated buffers character by character, ignoring case, up to the first NUL of either. */
  method StrEqCi(a: seq<byte>, b: seq<byte>) returns (same: bool)
    requires 0 in a && 0 in b
    ensures same <==> SameName(CutNul(a), CutNul(b))
  {
    ghost var s, t := CutNul(a), CutNul(b);
    var i := 0;
    while a[i] != 0 && b[i] != 0
      invariant i <= |s| && i <= |t| && |s| < |a| && |t| < |b| && a[|s|] == 0 && b[|t|] == 0
      invariant forall k :: 0 <= k < i ==> Upper(s[k]) == Upper(t[k])
      decreases |a| - i
    {
      if Upper(a[i]) != Upper(b[i]) {
        assert UpperAll(s)[i] != UpperAll(t)[i];
        return false;
      }
      i := i + 1;
    }
    same := a[i] == 0 && b[i] == 0;
    assert |UpperAll(s)| == |s| && |UpperAll(t)| == |t|;
  }
}
