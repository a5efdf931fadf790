/** Bytes, the C string routines the engine relies on, and unsigned 32-bit wrap-around. */
module Bytes {
  type byte = b: int | 0 <= b < 256

  const NUL: byte := 0
  const LF: byte := 10

  /** Number of values of an unsigned 32-bit integer. */
  const UINT32_RANGE: int := 0x1_0000_0000
  const INT_MAX: int := 0x7FFF_FFFF

  function Wrap32(x: int): int {
    x % UINT32_RANGE
  }

  /** An unsigned 32-bit value converted to a signed 32-bit integer, two's complement. */
  function ToInt32(x: int): int {
    if x <= INT_MAX then x else x - UINT32_RANGE
  }

  lemma Wrap32Value(x: int)
    requires -UINT32_RANGE <= x < 2 * UINT32_RANGE
    ensures Wrap32(x) == if x < 0 then x + UINT32_RANGE else if x < UINT32_RANGE then x else x - UINT32_RANGE
  {
  }

  lemma SmallRemainder(x: nat, m: nat)
    requires x < m
    ensures x % m == x
  {
  }

  function Zeros(n: nat): (z: seq<byte>)
    ensures |z| == n
  {
    seq(n, _ => NUL)
  }

  /** strlen within a buffer: the index of the first NUL, or the buffer length when there is none. */
  function CLen(buf: seq<byte>): (n: nat)
    ensures n <= |buf|
    ensures NUL !in buf[..n]
    ensures n < |buf| ==> buf[n] == NUL
  {
    if buf == [] || buf[0] == NUL then 0 else 1 + CLen(buf[1..])
  }

  lemma {:induction false} CLenUnique(buf: seq<byte>, n: nat)
    requires n <= |buf| && NUL !in buf[..n]
    requires n < |buf| ==> buf[n] == NUL
    ensures CLen(buf) == n
  {
    var m := CLen(buf);
    assert forall i | 0 <= i < n :: buf[..n][i] == buf[i] != NUL;
    assert forall i | 0 <= i < m :: buf[..m][i] == buf[i] != NUL;
  }

  /**
   * strncat(dest, src, |src|): the bytes of src before its first NUL overwrite dest from dest's own
   * terminator on, and one terminating NUL follows them.
   */
  function StrCat(dest: seq<byte>, src: seq<byte>): (r: seq<byte>)
    requires CLen(dest) + CLen(src) < |dest|
    ensures |r| == |dest|
  {
    var end := CLen(dest) + CLen(src);
    dest[..CLen(dest)] + src[..CLen(src)] + [NUL] + dest[end + 1..]
  }

  /** The result byte by byte. */
  lemma StrCatAt(dest: seq<byte>, src: seq<byte>, i: nat)
    requires CLen(dest) + CLen(src) < |dest| && i < |dest|
    ensures StrCat(dest, src)[i] ==
            if i < CLen(dest) then dest[i]
            else if i < CLen(dest) + CLen(src) then src[i - CLen(dest)]
            else if i == CLen(dest) + CLen(src) then NUL
            else dest[i]
  {
  }

  /** Every byte from position n on is NUL. */
  ghost predicate ZeroFrom(buf: seq<byte>, n: nat) {
    forall i :: n <= i < |buf| ==> buf[i] == NUL
  }

  lemma CLenAtMost(buf: seq<byte>, n: nat)
    requires n < |buf| && buf[n] == NUL
    ensures CLen(buf) <= n
  {
    assert forall i | 0 <= i < CLen(buf) :: buf[..CLen(buf)][i] == buf[i] != NUL;
  }

  /** Appending keeps a zero tail, whatever NULs the two strings contain. */
  lemma StrCatTail(dest: seq<byte>, n: nat, src: seq<byte>)
    requires n + |src| < |dest| && ZeroFrom(dest, n)
    ensures CLen(dest) <= n
    ensures ZeroFrom(StrCat(dest, src), n + |src|)
  {
    CLenAtMost(dest, n);
    forall i | n + |src| <= i < |dest| ensures StrCat(dest, src)[i] == NUL {
      StrCatAt(dest, src, i);
    }
  }

  /** Without NULs, appending is concatenation followed by zeros, terminated exactly at the new length. */
  lemma StrCatExact(dest: seq<byte>, n: nat, src: seq<byte>)
    requires n + |src| < |dest| && ZeroFrom(dest, n)
    requires NUL !in dest[..n] && NUL !in src
    ensures CLen(dest) == n && CLen(src) == |src|
    ensures StrCat(dest, src)[..n + |src|] == dest[..n] + src
  {
    CLenUnique(dest, n);
    assert src[..|src|] == src;
    CLenUnique(src, |src|);
  }

  /** strncmp(a, b, |b|) == 0, comparing C strings held in a (NUL-terminated by its end) and in b. */
  predicate StrNCmpEqual(a: seq<byte>, b: seq<byte>) {
    b == [] ||
    (var x := if a == [] then NUL else a[0];
     x == b[0] && (x == NUL || a == [] || StrNCmpEqual(a[1..], b[1..])))
  }

  /** For a NUL-free needle the comparison is exactly the prefix test. */
  lemma {:induction false} StrNCmpIsPrefix(a: seq<byte>, b: seq<byte>)
    requires NUL !in b
    ensures StrNCmpEqual(a, b) <==> b <= a
  {
    if b != [] && a != [] {
      StrNCmpIsPrefix(a[1..], b[1..]);
      if a[0] == b[0] {
        assert b <= a <==> b[1..] <= a[1..] by {
          assert a == [a[0]] + a[1..] && b == [b[0]] + b[1..];
        }
      }
    }
  }

  /** The last min(n, |s|) elements of s. */
  function LastN<T>(s: seq<T>, n: nat): (r: seq<T>)
    ensures |r| == if |s| <= n then |s| else n
  {
    if |s| <= n then s else s[|s| - n..]
  }

  ghost predicate IsSuffix<T>(p: seq<T>, s: seq<T>) {
    |p| <= |s| && s[|s| - |p|..] == p
  }
}
