/**
 Bytes, and the little-endian integers that the source copies in and out of page and log buffers
 with `memcpy`.
 */
module Bytes {

  type byte = x: int | 0 <= x < 256

  /** The number of values of a `w`-byte unsigned integer. */
  function Range(w: nat): (r: nat)
    ensures r > 0
  {
    if w == 0 then 1 else 256 * Range(w - 1)
  }

  lemma Widths()
    ensures Range(1) == 256 && Range(2) == 0x1_0000 && Range(4) == 0x1_0000_0000 && Range(8) == 0x1_0000_0000_0000_0000
  {
    assert Range(1) == 256 && Range(2) == 0x1_0000 && Range(3) == 0x100_0000 && Range(4) == 0x1_0000_0000;
    assert Range(5) == 0x100_0000_0000 && Range(6) == 0x1_0000_0000_0000 && Range(7) == 0x100_0000_0000_0000;
  }

  /** The low `w` bytes of `n`, least significant first. */
  function Enc(n: nat, w: nat): (s: seq<byte>)
    ensures |s| == w
  {
    if w == 0 then [] else [n % 256] + Enc(n / 256, w - 1)
  }

  function Dec(s: seq<byte>): (n: nat)
    ensures n < Range(|s|)
  {
    if s == [] then 0 else s[0] + 256 * Dec(s[1..])
  }

  lemma {:induction false} DecEnc(n: nat, w: nat)
    requires n < Range(w)
    ensures Dec(Enc(n, w)) == n
  {
    if w > 0 {
      DecEnc(n / 256, w - 1);
      assert Enc(n, w)[1..] == Enc(n / 256, w - 1);
    }
  }

  lemma LowByte(a: byte, n: nat)
    ensures (a + 256 * n) % 256 == a && (a + 256 * n) / 256 == n
  {
  }

  lemma {:induction false} EncDec(s: seq<byte>)
    ensures Enc(Dec(s), |s|) == s
  {
    if s != [] {
      EncDec(s[1..]);
      LowByte(s[0], Dec(s[1..]));
      assert s == [s[0]] + s[1..];
    }
  }

  lemma Assoc<T>(a: seq<T>, b: seq<T>, c: seq<T>)
    ensures a + (b + c) == a + b + c
  {
  }

  lemma TakeCat<T>(a: seq<T>, b: seq<T>, n: nat)
    requires |a| <= n <= |a| + |b|
    ensures (a + b)[..n] == a + b[..n - |a|]
  {
  }

  lemma DropSlice(s: seq<byte>, off: nat, lo: nat, hi: nat)
    requires lo <= hi && off + hi <= |s|
    ensures s[off..][lo..hi] == s[off + lo..off + hi]
  {
  }

  /** `b` with `s` written over it at `off`. */
  function Splice(b: seq<byte>, off: nat, s: seq<byte>): (r: seq<byte>)
    requires off + |s| <= |b|
    ensures |r| == |b|
    ensures forall i {:trigger r[i]} :: 0 <= i < |b| ==> r[i] == if off <= i < off + |s| then s[i - off] else b[i]
  {
    seq(|b|, i requires 0 <= i < |b| => if off <= i < off + |s| then s[i - off] else b[i])
  }

  /** The bytes `s` stand at `off`. */
  ghost predicate At(b: seq<byte>, off: nat, s: seq<byte>) {
    off + |s| <= |b| && forall j {:trigger s[j]} :: 0 <= j < |s| ==> b[off + j] == s[j]
  }

  lemma {:induction false} AtKept(b: seq<byte>, off: nat, s: seq<byte>, at: nat, w: seq<byte>)
    requires At(b, off, s) && at + |w| <= |b| && (at + |w| <= off || off + |s| <= at)
    ensures At(Splice(b, at, w), off, s)
  {
  }

  lemma {:induction false} Cut(b: seq<byte>, off: nat, r: seq<byte>, lo: nat, hi: nat)
    requires At(b, off, r) && lo <= hi <= |r|
    ensures b[off + lo..off + hi] == r[lo..hi]
  {
    forall j | 0 <= j < hi - lo ensures b[off + lo..off + hi][j] == r[lo..hi][j] {
      assert r[lo + j] == b[off + (lo + j)];
    }
  }

  /** The two-byte integer at `off`. */
  function U16(b: seq<byte>, off: nat): nat
    requires off + 2 <= |b|
  {
    b[off] as int + 256 * (b[off + 1] as int)
  }

  lemma Enc16(n: nat)
    requires n < 0x1_0000
    ensures |Enc(n, 2)| == 2 && U16(Enc(n, 2), 0) == n
  {
    assert Enc(n / 256, 1) == [n / 256 % 256] + Enc(n / 256 / 256, 0);
  }

  /** memcpy into a buffer. */
  method Memcpy(dst: array<byte>, off: nat, src: seq<byte>)
    requires off + |src| <= dst.Length
    modifies dst
    ensures dst[..] == Splice(old(dst[..]), off, src)
    ensures dst[..off + |src|] == old(dst[..off]) + src
  {
    for k := 0 to |src|
      invariant forall i :: 0 <= i < dst.Length ==> dst[i] == if off <= i < off + k then src[i - off] else old(dst[i])
    {
      dst[off + k] := src[k];
    }
  }
}
