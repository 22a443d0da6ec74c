/** ASCON_HASH256_CTX: the single-loop hash core of ascon_local.h. */
module OsslHash {
  import opened Sponge
  import opened OneShot
  import opened Buffers
  import opened HashSpec

  class AsconHash256Core {
    const perm: Perm
    const s: array<byte>
    var lastBlkSz: nat

    ghost predicate Valid()
      reads this, s
    {
      s.Length == STATE_SZ && lastBlkSz < HASH_RATE
    }

    ghost function Ctx(): Cursor
      requires Valid()
      reads this, s
    {
      Cursor(s[..], lastBlkSz)
    }

    constructor (perm: Perm)
      ensures Valid() && fresh(s) && this.perm == perm && Ctx() == Fresh(perm)
    {
      this.perm := perm;
      s := new byte[STATE_SZ](i => 0);
      lastBlkSz := 0;
      new;
      Init();
    }

    method Init()
      requires s.Length == STATE_SZ
      modifies this, s
      ensures Valid() && Ctx() == Fresh(perm)
    {
      forall i | 0 <= i < STATE_SZ { s[i] := 0; }
      lastBlkSz := 0;
      PutBytes(s, 0, HASH_IV);
      assert s[..] == HASH_IV + seq(32, i => 0);
      Permute(s, perm);
    }

    method Update(data: array<byte>, dataSz: nat)
      requires Valid() && data != s && dataSz <= data.Length
      modifies this, s
      ensures Valid() && Ctx() == Absorb(perm, old(Ctx()), data[..dataSz])
    {
      hide Absorb, Feed, XorByte, XorAt;
      ghost var c, d := Ctx(), data[..dataSz];
      AbsorbNothing(perm, c);
      assert d[..0] == [];
      var i := 0;
      while dataSz - i > 0
        invariant 0 <= i <= dataSz && Valid()
        invariant data[..dataSz] == d && Ctx() == Absorb(perm, c, d[..i])
      {
        var n := HASH_RATE - lastBlkSz;
        if n > dataSz - i {
          n := dataSz - i;
        }
        AbsorbPiece(perm, c, d, i, n);
        ReadOfPrefix(data, d, i, n);
        XorBuf(s, lastBlkSz, data, i, n);
        lastBlkSz := lastBlkSz + n;
        i := i + n;
        if lastBlkSz == HASH_RATE {
          Permute(s, perm);
          lastBlkSz := 0;
        }
      }
      assert d[..dataSz] == d;
    }

    /** The digest; the state stays as the squeezing left it. */
    method Final(out: array<byte>)
      requires Valid() && out != s && out.Length == 32
      modifies s, out
      ensures Valid() && out[..] == Digest(perm, old(Ctx()))
      ensures s[..] == Permuted(perm, Padded(old(Ctx())), 4)
    {
      hide XorByte, XorAt;
      XorBytes(s, lastBlkSz, PAD);
      ghost var p: State := s[..];
      var i := 0;
      while i < 4
        invariant 0 <= i <= 4
        invariant s[..] == Permuted(perm, p, i)
        invariant out[..8 * i] == Squeeze(perm, p, i)
      {
        ghost var before := out[..8 * i];
        Permute(s, perm);
        CopyBuf(out, 8 * i, s, 0, HASH_RATE);
        i := i + 1;
        assert out[..8 * i] == before + s[..HASH_RATE];
      }
      assert out[..] == out[..8 * 4];
    }
  }
}
