/** The byte-buffer helpers of both stacks (xorbuf, xorbufout, memcpy) on
    regions of arrays. A null array stands for a NULL pointer and is the empty
    region. */
module Buffers {
  import opened Sponge

  ghost predicate Region(a: array?<byte>, off: nat, n: nat) {
    if a == null then n == 0 else off + n <= a.Length
  }

  ghost function Read(a: array?<byte>, off: nat, n: nat): (r: seq<byte>)
    requires Region(a, off, n)
    reads a
    ensures |r| == n
  {
    if a == null then [] else a[off..off + n]
  }

  /** out may be the input buffer itself, no further ahead than the input is
      read; otherwise the two regions share no byte. */
  ghost predicate Compatible(out: array<byte>, outOff: nat, a: array?<byte>, off: nat, n: nat) {
    a == out ==> outOff <= off || off + n <= outOff
  }

  /** From index i on, the region at off still holds d. */
  ghost predicate Unread(a: array?<byte>, off: nat, d: seq<byte>, i: nat)
    reads a
  {
    forall k | i <= k < |d| :: a != null && off + k < a.Length && a[off + k] == d[k]
  }

  lemma UnreadStarts(a: array?<byte>, off: nat, n: nat)
    requires Region(a, off, n)
    ensures Unread(a, off, Read(a, off, n), 0)
  {
  }

  lemma UnreadRead(a: array?<byte>, off: nat, d: seq<byte>, i: nat, n: nat)
    requires Unread(a, off, d, i) && i + n <= |d| && Region(a, off + i, n)
    ensures Read(a, off + i, n) == d[i..i + n]
  {
  }

  lemma ReadOfPrefix(a: array<byte>, d: seq<byte>, i: nat, n: nat)
    requires i + n <= |d| <= a.Length && a[..|d|] == d
    ensures Read(a, i, n) == d[i..i + n]
  {
    forall k | 0 <= k < n
      ensures Read(a, i, n)[k] == d[i..i + n][k]
    {
      assert a[..|d|][i + k] == d[i + k];
    }
  }

  /** buf[off..] ^= a[aOff..], n bytes. */
  method XorBuf(buf: array<byte>, off: nat, a: array?<byte>, aOff: nat, n: nat)
    requires Region(a, aOff, n) && a != buf && off + n <= buf.Length
    modifies buf
    ensures buf[..] == XorAt(old(buf[..]), off, Read(a, aOff, n))
  {
    hide XorByte;
    var i := 0;
    while i < n
      invariant 0 <= i <= n
      invariant forall k :: 0 <= k < buf.Length ==>
                  buf[k] == if off <= k < off + i then XorByte(old(buf[k]), Read(a, aOff, n)[k - off]) else old(buf[k])
    {
      buf[off + i] := XorByte(buf[off + i], a[aOff + i]);
      i := i + 1;
    }
  }

  /** The same with the bytes of a word or key held in a field. */
  method XorBytes(buf: array<byte>, off: nat, d: seq<byte>)
    requires off + |d| <= buf.Length
    modifies buf
    ensures buf[..] == XorAt(old(buf[..]), off, d)
  {
    hide XorByte;
    forall i | 0 <= i < |d| { buf[off + i] := XorByte(buf[off + i], d[i]); }
  }

  /** memcpy into buf. */
  method PutBytes(buf: array<byte>, off: nat, d: seq<byte>)
    requires off + |d| <= buf.Length
    modifies buf
    ensures buf[..] == PutAt(old(buf[..]), off, d)
  {
    forall i | 0 <= i < |d| { buf[off + i] := d[i]; }
  }

  /** Runs a permutation on the whole buffer. */
  method Permute(buf: array<byte>, p: Perm)
    requires buf.Length == STATE_SZ
    modifies buf
    ensures buf[..] == p(old(buf[..]))
  {
    var t := p(buf[..]);
    forall i | 0 <= i < STATE_SZ { buf[i] := t[i]; }
    assert buf[..] == t;
  }

  /** memcpy between arrays. */
  method CopyBuf(dst: array<byte>, dstOff: nat, src: array<byte>, srcOff: nat, n: nat)
    requires dst != src && dstOff + n <= dst.Length && srcOff + n <= src.Length
    modifies dst
    ensures dst[..] == PutAt(old(dst[..]), dstOff, src[srcOff..srcOff + n])
  {
    PutBytes(dst, dstOff, src[srcOff..srcOff + n]);
  }

  /** xorbufout: out = buf ^ mask, n bytes. */
  method XorBufOut(out: array<byte>, outOff: nat, buf: array<byte>, off: nat, mask: array<byte>, n: nat)
    requires out != buf && out != mask
    requires outOff + n <= out.Length && off + n <= buf.Length && n <= mask.Length
    modifies out
    ensures out[..] == PutAt(old(out[..]), outOff, XorAt(buf[..], off, mask[..n])[off..off + n])
  {
    hide XorByte;
    forall i | 0 <= i < n { out[outOff + i] := XorByte(buf[off + i], mask[i]); }
  }
}
