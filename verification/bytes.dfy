/** Bytes and the two sequence operations every bounded copy is built from:
    how many bytes a copy moves, and what a buffer looks like after a chunk
    has been written into it. */
module Bytes {

  /** An unsigned 8-bit value, `uint8_t` in the C source. */
  newtype byte = x: int | 0 <= x < 256

  /** The smaller of two counts. */
  function Min(a: nat, b: nat): (m: nat)
  {
    if a <= b then a else b
  }

  /** The number of bytes a bounded copy moves when it is asked for `length`
      bytes starting at `offset` of a region of `total` bytes: it stops at
      whichever comes first, the request or the end of the region. */
  function Clamp(offset: nat, length: nat, total: nat): (n: nat)
    ensures n <= length
    ensures offset >= total ==> n == 0
    ensures offset < total ==> offset + n <= total
    ensures n == length || offset + n >= total
  {
    if offset >= total then 0 else Min(length, total - offset)
  }

  /** `s` with the bytes of `chunk` written over it from index `at` on. */
  function Patch(s: seq<byte>, at: nat, chunk: seq<byte>): (r: seq<byte>)
    requires at + |chunk| <= |s|
  {
    s[..at] + chunk + s[at + |chunk|..]
  }

  /** Patching keeps the length, puts `chunk` at `at` and leaves every other
      index alone; so a prefix that already matched `p` up to `at` now matches
      `p + chunk`. */
  lemma PatchShape(s: seq<byte>, at: nat, chunk: seq<byte>)
    requires at + |chunk| <= |s|
    ensures |Patch(s, at, chunk)| == |s|
    ensures Patch(s, at, chunk)[..at] == s[..at]
    ensures Patch(s, at, chunk)[at..at + |chunk|] == chunk
    ensures Patch(s, at, chunk)[..at + |chunk|] == s[..at] + chunk
    ensures Patch(s, at, chunk)[at + |chunk|..] == s[at + |chunk|..]
  {
    var r := Patch(s, at, chunk);
    assert r == (s[..at] + chunk) + s[at + |chunk|..];
  }

  /** Two sequences that agree on a window agree on every sub-window. */
  lemma SliceShift(a: seq<byte>, b: seq<byte>, n: nat, o: nat, lo: nat, hi: nat)
    requires n <= |a| && o + n <= |b| && a[..n] == b[o..o + n]
    requires lo <= hi <= n
    ensures a[lo..hi] == b[o + lo..o + hi]
  {
    forall i | 0 <= i < hi - lo
      ensures a[lo..hi][i] == b[o + lo..o + hi][i]
    {
      assert a[lo + i] == a[..n][lo + i];
      assert b[o + lo + i] == b[o..o + n][lo + i];
    }
  }

  /** A prefix followed by the next window is the longer prefix. */
  lemma PrefixJoin(s: seq<byte>, i: nat, j: nat)
    requires i <= j <= |s|
    ensures s[..i] + s[i..j] == s[..j]
  {
  }
}
