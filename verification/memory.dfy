/**
 * swap_bytes (memory.c:54-62): copies the first `num_bytes` bytes of
 * `source` into `dest` in reverse order and returns `dest`. The two buffers
 * are arrays of unsigned char; they may be the same array.
 */
module Memory {
  newtype byte = x: int | 0 <= x < 256

  /** `s` back to front. */
  function Reversed(s: seq<byte>): (r: seq<byte>)
    ensures |r| == |s|
  {
    if s == [] then [] else [s[|s| - 1]] + Reversed(s[..|s| - 1])
  }

  /** Position i of the reversal holds position |s| - 1 - i of the original. */
  lemma {:induction false} ReversedAt(s: seq<byte>)
    ensures forall i :: 0 <= i < |s| ==> Reversed(s)[i] == s[|s| - 1 - i]
  {
    if s != [] {
      ReversedAt(s[..|s| - 1]);
    }
  }

  /** Reversing twice gives the bytes back. */
  lemma ReversedTwice(s: seq<byte>)
    ensures Reversed(Reversed(s)) == s
  {
    ReversedAt(s);
    ReversedAt(Reversed(s));
  }

  /** What `dest` holds after a call on two distinct buffers. */
  function SwapInto(src: seq<byte>, dst: seq<byte>, n: nat): seq<byte>
    requires n <= |src| && n <= |dst|
  {
    Reversed(src[..n]) + dst[n..]
  }

  /**
   * What the buffer holds after a call with `source == dest`: the loop reads
   * bytes it has already overwritten once it passes the middle, so the second
   * half is mirrored onto the first and the second half keeps its bytes.
   */
  function SwapInPlace(s: seq<byte>, n: nat): seq<byte>
    requires n <= |s|
  {
    seq(|s|, i requires 0 <= i < |s| => if 2 * i < n then s[n - 1 - i] else s[i])
  }

  /** On distinct buffers: byte i of dest is byte n - 1 - i of source, and bytes from n on are dest's own. */
  lemma SwapIntoAt(src: seq<byte>, dst: seq<byte>, n: nat)
    requires n <= |src| && n <= |dst|
    ensures |SwapInto(src, dst, n)| == |dst|
    ensures forall i :: 0 <= i < n ==> SwapInto(src, dst, n)[i] == src[n - 1 - i]
    ensures forall i :: n <= i < |dst| ==> SwapInto(src, dst, n)[i] == dst[i]
  {
    ReversedAt(src[..n]);
  }

  /** Swapping source into tmp and tmp into dest reproduces the first n bytes of source. */
  lemma SwapTwiceRestores(src: seq<byte>, tmp: seq<byte>, dst: seq<byte>, n: nat)
    requires n <= |src| && n <= |tmp| && n <= |dst|
    ensures SwapInto(SwapInto(src, tmp, n), dst, n)[..n] == src[..n]
  {
    var t := SwapInto(src, tmp, n);
    assert t[..n] == Reversed(src[..n]);
    ReversedTwice(src[..n]);
  }

  /** With n == 0 nothing is written. */
  lemma SwapNothing(src: seq<byte>, dst: seq<byte>)
    ensures SwapInto(src, dst, 0) == dst
    ensures SwapInPlace(dst, 0) == dst
  {
    assert dst[0..] == dst;
  }

  /**
   * On one buffer the first n bytes come out as a palindrome, and a buffer
   * whose first n bytes already are one is left as it is.
   */
  lemma SwapInPlacePalindrome(s: seq<byte>, n: nat)
    requires n <= |s|
    ensures Reversed(SwapInPlace(s, n)[..n]) == SwapInPlace(s, n)[..n]
    ensures Reversed(s[..n]) == s[..n] ==> SwapInPlace(s, n) == s
  {
    var r := SwapInPlace(s, n);
    ReversedAt(r[..n]);
    ReversedAt(s[..n]);
    if Reversed(s[..n]) == s[..n] {
      forall i | 0 <= i < n
        ensures s[i] == s[n - 1 - i]
      {
        assert Reversed(s[..n])[i] == s[n - 1 - i];
      }
    }
  }

  /** swap_bytes: the index loop writing dest[i] from source[num_bytes - i - 1]. */
  method SwapBytes(source: array<byte>, dest: array<byte>, numBytes: nat) returns (r: array<byte>)
    requires numBytes <= source.Length && numBytes <= dest.Length
    modifies dest
    ensures r == dest
    ensures source != dest ==> dest[..] == SwapInto(old(source[..]), old(dest[..]), numBytes)
    ensures source != dest ==> source[..] == old(source[..])
    ensures source == dest ==> dest[..] == SwapInPlace(old(dest[..]), numBytes)
  {
    for i := 0 to numBytes
      invariant source != dest ==> source[..] == old(source[..])
      invariant source != dest ==> forall k :: 0 <= k < i ==> dest[k] == old(source[numBytes - 1 - k])
      invariant source == dest ==>
        forall k :: 0 <= k < i ==> dest[k] == old(dest[if 2 * k < numBytes then numBytes - 1 - k else k])
      invariant forall k :: i <= k < dest.Length ==> dest[k] == old(dest[k])
    {
      dest[i] := source[numBytes - i - 1];
    }
    if source != dest {
      SwapIntoAt(old(source[..]), old(dest[..]), numBytes);
    }
    r := dest;
  }

  /** A client of swap_bytes: through a scratch buffer and back, dest ends up with source's bytes. */
  method SwapTwice(source: array<byte>, dest: array<byte>, numBytes: nat)
    requires numBytes <= source.Length && numBytes <= dest.Length
    modifies dest
    ensures dest[..numBytes] == old(source[..numBytes])
    ensures dest[numBytes..] == old(dest[numBytes..])
  {
    ghost var src, dst := source[..], dest[..];
    var tmp := new byte[numBytes];
    var t := SwapBytes(source, tmp, numBytes);
    ghost var mid := tmp[..];
    var d := SwapBytes(tmp, dest, numBytes);
    assert mid == SwapInto(src, mid, numBytes) by {
      SwapIntoAt(src, mid, numBytes);
    }
    SwapTwiceRestores(src, mid, dst, numBytes);
    SwapIntoAt(mid, dst, numBytes);
  }
}
