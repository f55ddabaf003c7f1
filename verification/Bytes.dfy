/** Bytes and the little-endian words the on-disk and in-memory structures are made of. */
module Bytes {
  type byte = b: int | 0 <= b < 256

  const SPACE: byte := 0x20
  const PERIOD: byte := 0x2E

  /** The 32-bit little-endian word at offset o. */
  function Word(s: seq<byte>, o: nat): (w: nat)
    requires o + 4 <= |s|
    ensures w < 0x1_0000_0000
  {
    s[o] as int + 0x100 * (s[o + 1] as int) + 0x1_0000 * (s[o + 2] as int) + 0x100_0000 * (s[o + 3] as int)
  }

  /** The four bytes of a 32-bit word, least significant first. */
  function WordBytes(w: nat): (b: seq<byte>)
    requires w < 0x1_0000_0000
    ensures |b| == 4 && Word(b, 0) == w
  {
    Base256(w);
    [w % 0x100, w / 0x100 % 0x100, w / 0x1_0000 % 0x100, w / 0x100_0000]
  }

  lemma {:induction false} Base256(w: nat)
    requires w < 0x1_0000_0000
    ensures w / 0x100_0000 < 0x100
    ensures w == w % 0x100 + 0x100 * (w / 0x100 % 0x100) + 0x1_0000 * (w / 0x1_0000 % 0x100)
            + 0x100_0000 * (w / 0x100_0000)
  {
    var a, b := w / 0x100, w / 0x1_0000;
    assert b == a / 0x100 && w / 0x100_0000 == b / 0x100;
  }

  /** s with the word at offset o replaced. */
  function PutWord(s: seq<byte>, o: nat, w: nat): (t: seq<byte>)
    requires o + 4 <= |s| && w < 0x1_0000_0000
    ensures |t| == |s| && Word(t, o) == w
    ensures forall i :: 0 <= i < |s| && !(o <= i < o + 4) ==> t[i] == s[i]
  {
    s[..o] + WordBytes(w) + s[o + 4..]
  }

  /** The 16-bit little-endian word at offset o. */
  function Half(s: seq<byte>, o: nat): (h: nat)
    requires o + 2 <= |s|
    ensures h < 0x1_0000
  {
    s[o] as int + 0x100 * (s[o + 1] as int)
  }

  function HalfBytes(h: nat): (b: seq<byte>)
    requires h < 0x1_0000
    ensures |b| == 2 && Half(b, 0) == h
  {
    [h % 0x100, h / 0x100]
  }

  function Zeros(n: nat): (z: seq<byte>)
    ensures |z| == n && forall i :: 0 <= i < n ==> z[i] == 0
  {
    seq(n, _ => 0)
  }

  /** s filled up with copies of b to length n. */
  function Pad(s: seq<byte>, n: nat, b: byte): (t: seq<byte>)
    requires |s| <= n
    ensures |t| == n && t[..|s|] == s && forall i :: |s| <= i < n ==> t[i] == b
  {
    s + seq(n - |s|, _ => b)
  }
}
