/** wc_AsconAEAD128: the context updated in place by the calls of ascon.c. */
module WolfAead {
  import opened Wrappers
  import opened Sponge
  import opened OneShot
  import opened Buffers
  import opened WolfCalls

  class AsconAEAD128 {
    const perms: Perms
    const state: array<byte>
    var key: Block
    var iv: Block
    var lastBlkSz: nat
    var op: Op
    var keySet: bool
    var nonceSet: bool
    var adSet: bool

    ghost predicate Valid()
      reads this, state
    {
      state.Length == STATE_SZ && Inv(Ctx())
    }

    ghost function Ctx(): Ctx
      requires state.Length == STATE_SZ
      reads this, state
    {
      WolfCalls.Ctx(state[..], key, iv, lastBlkSz, op, keySet, nonceSet, adSet)
    }

    /** New: memory with an arbitrary iv, then Init. */
    constructor (perms: Perms, iv: Block)
      ensures Valid() && fresh(state) && this.perms == perms
      ensures Ctx() == WolfCalls.Init(Ctx()) && this.iv == iv
    {
      this.perms := perms;
      this.iv := iv;
      state := new byte[STATE_SZ](i => 0);
      key, lastBlkSz, op := ZERO_BLOCK, 0, NotSet;
      keySet, nonceSet, adSet := false, false, false;
      new;
      Init();
    }

    /** Everything is reset except iv. */
    method Init()
      requires state.Length == STATE_SZ
      modifies this, state
      ensures Valid() && Ctx() == WolfCalls.Init(old(Ctx()))
    {
      forall i | 0 <= i < STATE_SZ { state[i] := 0; }
      key, lastBlkSz, op := ZERO_BLOCK, 0, NotSet;
      keySet, nonceSet, adSet := false, false, false;
      PutBytes(state, 0, AEAD_IV);
      assert state[..] == AEAD_IV + seq(32, i => 0);
    }

    method SetKey(k: array?<byte>) returns (ret: Ret)
      requires Valid() && k != state && (k != null ==> k.Length == 16)
      modifies this, state
      ensures Valid()
      ensures var r := WolfCalls.SetKey(old(Ctx()), if k == null then None else Some(k[..]));
              ret == r.ret && Ctx() == r.ctx
    {
      if k == null { return BadFuncArg; }
      if keySet { return BadState; }
      key := k[..];
      PutBytes(state, 8, key);
      keySet := true;
      return Success;
    }

    method SetNonce(n: array?<byte>) returns (ret: Ret)
      requires Valid() && n != state && (n != null ==> n.Length == 16)
      modifies this, state
      ensures Valid()
      ensures var r := WolfCalls.SetNonce(old(Ctx()), if n == null then None else Some(n[..]));
              ret == r.ret && Ctx() == r.ctx
    {
      if n == null { return BadFuncArg; }
      if nonceSet { return BadState; }
      CopyBuf(state, 24, n, 0, 16);
      nonceSet := true;
      return Success;
    }

    /** The optional argument a region stands for: NULL with a size is none. */
    static ghost function Arg(a: array?<byte>, off: nat, n: nat): Option<seq<byte>>
      requires a != null ==> off + n <= a.Length
      reads a
    {
      if a == null && n > 0 then None else Some(Read(a, off, n))
    }

    method SetAD(ad: array?<byte>, adSz: nat) returns (ret: Ret)
      requires Valid() && ad != state && (ad != null ==> adSz <= ad.Length)
      modifies this, state
      ensures Valid()
      ensures var r := WolfCalls.SetAD(perms, old(Ctx()), Arg(ad, 0, adSz));
              ret == r.ret && Ctx() == r.ctx
    {
      hide XorByte, Blocks, XorAt;
      if ad == null && adSz > 0 { return BadFuncArg; }
      if !keySet || !nonceSet { return BadState; }
      Permute(state, perms.pa);
      XorBytes(state, 24, key);
      if adSz > 0 {
        AbsorbAd(ad, adSz);
      }
      XorBytes(state, 39, DOMAIN_SEPARATOR);
      adSet := true;
      return Success;
    }

    /** The block loop of SetAD, with the padded last block. */
    method AbsorbAd(ad: array<byte>, adSz: nat)
      requires state.Length == STATE_SZ && ad != state && adSz <= ad.Length
      modifies state
      ensures state[..] == perms.pb(Blocks(perms.pb, AEAD_RATE, old(state[..]), ad[..adSz]).s)
    {
      hide XorByte, XorAt, Blocks;
      ghost var data := ad[..adSz];
      assert data[0..] == data;
      var i := 0;
      while adSz - i >= AEAD_RATE
        invariant 0 <= i <= adSz
        invariant Blocks(perms.pb, AEAD_RATE, old(state[..]), data).s
               == Blocks(perms.pb, AEAD_RATE, state[..], data[i..]).s
      {
        ghost var d := data[i..];
        assert Read(ad, i, AEAD_RATE) == d[..AEAD_RATE];
        BlocksOfLong(perms.pb, AEAD_RATE, state[..], d);
        XorBuf(state, 0, ad, i, AEAD_RATE);
        Permute(state, perms.pb);
        i := i + AEAD_RATE;
        assert d[AEAD_RATE..] == data[i..];
      }
      assert Read(ad, i, adSz - i) == data[i..];
      BlocksOfShort(perms.pb, AEAD_RATE, state[..], data[i..]);
      XorBuf(state, 0, ad, i, adSz - i);
      XorBytes(state, adSz - i, PAD);
      Permute(state, perms.pb);
    }

    /** The xorbuf and XMEMCPY pair of EncryptUpdate. */
    method EncryptBytes(out: array<byte>, outOff: nat, inp: array?<byte>, inOff: nat, pos: nat, n: nat)
      requires state.Length == STATE_SZ && state != inp && state != out && pos + n <= AEAD_RATE
      requires Region(inp, inOff, n) && outOff + n <= out.Length
      modifies state, out
      ensures state[..] == Written(Enc, old(state[..]), pos, old(Read(inp, inOff, n)))
      ensures out[..] == PutAt(old(out[..]), outOff,
                           XorAt(old(state[..]), pos, old(Read(inp, inOff, n)))[pos..pos + n])
    {
      XorBuf(state, pos, inp, inOff, n);
      CopyBuf(out, outOff, state, pos, n);
    }

    /** One piece of EncryptUpdate, with the permutation when it fills the block. */
    method EncryptPiece(out: array<byte>, outOff: nat, inp: array?<byte>, inOff: nat, i: nat, n: nat,
                        ghost c: Cursor, ghost data: seq<byte>, ghost o: seq<byte>)
      requires state.Length == STATE_SZ && state != inp && state != out && lastBlkSz + n <= AEAD_RATE
      requires i + n <= |data| && Unread(inp, inOff, data, i) && Region(inp, inOff, |data|)
      requires outOff + |data| <= out.Length && Compatible(out, outOff, inp, inOff, |data|)
      requires Progress(perms.pb, AEAD_RATE, Enc, c, data, i, Cursor(state[..], lastBlkSz), o, outOff, out[..])
      modifies this`lastBlkSz, state, out
      ensures Progress(perms.pb, AEAD_RATE, Enc, c, data, i + n, Cursor(state[..], lastBlkSz), o, outOff, out[..])
      ensures lastBlkSz == if old(lastBlkSz) + n == AEAD_RATE then 0 else old(lastBlkSz) + n
      ensures Unread(inp, inOff, data, i + n)
    {
      hide XorByte, XorAt, Written, Progress;
      UnreadRead(inp, inOff, data, i, n);
      ProgressPiece(perms.pb, AEAD_RATE, Enc, c, data, i, n, Cursor(state[..], lastBlkSz), o, outOff, out[..]);
      EncryptBytes(out, outOff + i, inp, inOff + i, lastBlkSz, n);
      assert Unread(inp, inOff, data, i + n) by {
        assert forall k | 0 <= k < out.Length :: out[..][k] == out[k];
      }
      lastBlkSz := lastBlkSz + n;
      if lastBlkSz == AEAD_RATE {
        Permute(state, perms.pb);
        lastBlkSz := 0;
      }
    }

    /** EncryptUpdate past its checks: the buffered block, whole blocks, the rest. */
    method EncryptRun(out: array<byte>, outOff: nat, inp: array?<byte>, inOff: nat, inSz: nat)
      requires state.Length == STATE_SZ && lastBlkSz < AEAD_RATE && state != inp && state != out
      requires Region(inp, inOff, inSz) && outOff + inSz <= out.Length
      requires Compatible(out, outOff, inp, inOff, inSz)
      modifies this`lastBlkSz, state, out
      ensures var f := Feed(perms.pb, AEAD_RATE, Enc, Cursor(old(state[..]), old(lastBlkSz)),
                            old(Read(inp, inOff, inSz)));
              && Cursor(state[..], lastBlkSz) == f.c
              && out[..] == PutAt(old(out[..]), outOff, f.out)
    {
      hide Feed, Progress, Unread;
      ghost var data, o := Read(inp, inOff, inSz), out[..];
      ghost var c := Cursor(state[..], lastBlkSz);
      ProgressStarts(perms.pb, AEAD_RATE, Enc, c, data, outOff, o);
      assert Unread(inp, inOff, data, 0) by { UnreadStarts(inp, inOff, inSz); }
      var i := 0;
      if lastBlkSz != 0 {
        i := if AEAD_RATE - lastBlkSz < inSz then AEAD_RATE - lastBlkSz else inSz;
        EncryptPiece(out, outOff, inp, inOff, 0, i, c, data, o);
        if lastBlkSz != 0 {
          ProgressEnds(perms.pb, AEAD_RATE, Enc, c, data, Cursor(state[..], lastBlkSz), o, outOff, out[..]);
          return;
        }
      }
      while inSz - i >= AEAD_RATE
        invariant 0 <= i <= inSz && lastBlkSz == 0
        invariant Unread(inp, inOff, data, i)
        invariant Progress(perms.pb, AEAD_RATE, Enc, c, data, i, Cursor(state[..], lastBlkSz), o, outOff, out[..])
      {
        EncryptPiece(out, outOff, inp, inOff, i, AEAD_RATE, c, data, o);
        i := i + AEAD_RATE;
      }
      EncryptPiece(out, outOff, inp, inOff, i, inSz - i, c, data, o);
      ProgressEnds(perms.pb, AEAD_RATE, Enc, c, data, Cursor(state[..], lastBlkSz), o, outOff, out[..]);
    }

    method EncryptUpdate(out: array<byte>, outOff: nat, inp: array?<byte>, inOff: nat, inSz: nat)
      returns (ret: Ret)
      requires Valid() && state != inp && state != out
      requires inp != null ==> inOff + inSz <= inp.Length
      requires outOff + inSz <= out.Length && Compatible(out, outOff, inp, inOff, inSz)
      modifies this, state, out
      ensures Valid()
      ensures var r := WolfCalls.Update(perms, Enc, old(Ctx()), old(Arg(inp, inOff, inSz)));
              ret == r.ret && Ctx() == r.ctx && out[..] == PutAt(old(out[..]), outOff, r.out)
    {
      hide XorByte, XorAt, Feed, Step, Written;
      assert PutAt(out[..], outOff, []) == out[..];
      if inp == null && inSz > 0 { return BadFuncArg; }
      if !keySet || !nonceSet || !adSet { return BadState; }
      if op == NotSet {
        op := Encrypt;
      } else if op != Encrypt {
        return BadState;
      }
      EncryptRun(out, outOff, inp, inOff, inSz);
      return Success;
    }

    /** The three copies of DecryptUpdate: the ciphertext is saved first, so
        that out may be the buffer it is read from. */
    method DecryptBytes(out: array<byte>, outOff: nat, inp: array?<byte>, inOff: nat, pos: nat, n: nat)
      requires state.Length == STATE_SZ && state != inp && state != out && pos + n <= AEAD_RATE
      requires Region(inp, inOff, n) && outOff + n <= out.Length
      modifies state, out
      ensures state[..] == Written(Dec, old(state[..]), pos, old(Read(inp, inOff, n)))
      ensures out[..] == PutAt(old(out[..]), outOff,
                           XorAt(old(state[..]), pos, old(Read(inp, inOff, n)))[pos..pos + n])
    {
      hide XorByte;
      var ct := new byte[AEAD_RATE](i => 0);
      if inp != null {
        CopyBuf(ct, 0, inp, inOff, n);
      }
      assert ct[..n] == Read(inp, inOff, n);
      XorBufOut(out, outOff, state, pos, ct, n);
      CopyBuf(state, pos, ct, 0, n);
    }

    /** One piece of DecryptUpdate, with the permutation when it fills the block. */
    method DecryptPiece(out: array<byte>, outOff: nat, inp: array?<byte>, inOff: nat, i: nat, n: nat,
                        ghost c: Cursor, ghost data: seq<byte>, ghost o: seq<byte>)
      requires state.Length == STATE_SZ && state != inp && state != out && lastBlkSz + n <= AEAD_RATE
      requires i + n <= |data| && Unread(inp, inOff, data, i) && Region(inp, inOff, |data|)
      requires outOff + |data| <= out.Length && Compatible(out, outOff, inp, inOff, |data|)
      requires Progress(perms.pb, AEAD_RATE, Dec, c, data, i, Cursor(state[..], lastBlkSz), o, outOff, out[..])
      modifies this`lastBlkSz, state, out
      ensures Progress(perms.pb, AEAD_RATE, Dec, c, data, i + n, Cursor(state[..], lastBlkSz), o, outOff, out[..])
      ensures lastBlkSz == if old(lastBlkSz) + n == AEAD_RATE then 0 else old(lastBlkSz) + n
      ensures Unread(inp, inOff, data, i + n)
    {
      hide XorByte, XorAt, Written, Progress;
      UnreadRead(inp, inOff, data, i, n);
      ProgressPiece(perms.pb, AEAD_RATE, Dec, c, data, i, n, Cursor(state[..], lastBlkSz), o, outOff, out[..]);
      DecryptBytes(out, outOff + i, inp, inOff + i, lastBlkSz, n);
      assert Unread(inp, inOff, data, i + n) by {
        assert forall k | 0 <= k < out.Length :: out[..][k] == out[k];
      }
      lastBlkSz := lastBlkSz + n;
      if lastBlkSz == AEAD_RATE {
        Permute(state, perms.pb);
        lastBlkSz := 0;
      }
    }

    /** DecryptUpdate past its checks: the buffered block, whole blocks, the rest. */
    method DecryptRun(out: array<byte>, outOff: nat, inp: array?<byte>, inOff: nat, inSz: nat)
      requires state.Length == STATE_SZ && lastBlkSz < AEAD_RATE && state != inp && state != out
      requires Region(inp, inOff, inSz) && outOff + inSz <= out.Length
      requires Compatible(out, outOff, inp, inOff, inSz)
      modifies this`lastBlkSz, state, out
      ensures var f := Feed(perms.pb, AEAD_RATE, Dec, Cursor(old(state[..]), old(lastBlkSz)),
                            old(Read(inp, inOff, inSz)));
              && Cursor(state[..], lastBlkSz) == f.c
              && out[..] == PutAt(old(out[..]), outOff, f.out)
    {
      hide Feed, Progress, Unread;
      ghost var data, o := Read(inp, inOff, inSz), out[..];
      ghost var c := Cursor(state[..], lastBlkSz);
      ProgressStarts(perms.pb, AEAD_RATE, Dec, c, data, outOff, o);
      assert Unread(inp, inOff, data, 0) by { UnreadStarts(inp, inOff, inSz); }
      var i := 0;
      if lastBlkSz != 0 {
        i := if AEAD_RATE - lastBlkSz < inSz then AEAD_RATE - lastBlkSz else inSz;
        DecryptPiece(out, outOff, inp, inOff, 0, i, c, data, o);
        if lastBlkSz != 0 {
          ProgressEnds(perms.pb, AEAD_RATE, Dec, c, data, Cursor(state[..], lastBlkSz), o, outOff, out[..]);
          return;
        }
      }
      while inSz - i >= AEAD_RATE
        invariant 0 <= i <= inSz && lastBlkSz == 0
        invariant Unread(inp, inOff, data, i)
        invariant Progress(perms.pb, AEAD_RATE, Dec, c, data, i, Cursor(state[..], lastBlkSz), o, outOff, out[..])
      {
        DecryptPiece(out, outOff, inp, inOff, i, AEAD_RATE, c, data, o);
        i := i + AEAD_RATE;
      }
      DecryptPiece(out, outOff, inp, inOff, i, inSz - i, c, data, o);
      ProgressEnds(perms.pb, AEAD_RATE, Dec, c, data, Cursor(state[..], lastBlkSz), o, outOff, out[..]);
    }

    method DecryptUpdate(out: array<byte>, outOff: nat, inp: array?<byte>, inOff: nat, inSz: nat)
      returns (ret: Ret)
      requires Valid() && state != inp && state != out
      requires inp != null ==> inOff + inSz <= inp.Length
      requires outOff + inSz <= out.Length && Compatible(out, outOff, inp, inOff, inSz)
      modifies this, state, out
      ensures Valid()
      ensures var r := WolfCalls.Update(perms, Dec, old(Ctx()), old(Arg(inp, inOff, inSz)));
              ret == r.ret && Ctx() == r.ctx && out[..] == PutAt(old(out[..]), outOff, r.out)
    {
      hide XorByte, XorAt, Feed, Step, Written;
      assert PutAt(out[..], outOff, []) == out[..];
      if inp == null && inSz > 0 { return BadFuncArg; }
      if !keySet || !nonceSet || !adSet { return BadState; }
      if op == NotSet {
        op := Decrypt;
      } else if op != Decrypt {
        return BadState;
      }
      DecryptRun(out, outOff, inp, inOff, inSz);
      return Success;
    }

    /** Both finals up to the tag: pad, add the key, permute, add the key. */
    method Finalize()
      requires state.Length == STATE_SZ && lastBlkSz < AEAD_RATE
      modifies state
      ensures state[..] == Finalized(perms, key, Padded(Cursor(old(state[..]), lastBlkSz)))
    {
      hide XorByte, XorAt;
      XorBytes(state, lastBlkSz, PAD);
      XorBytes(state, 16, key);
      Permute(state, perms.pa);
      XorBytes(state, 24, key);
    }

    method EncryptFinal(tag: array?<byte>) returns (ret: Ret)
      requires Valid() && tag != state && (tag != null ==> tag.Length == 16)
      modifies state, tag
      ensures Valid()
      ensures var r := WolfCalls.EncryptFinal(perms, old(Ctx()), tag == null);
              && ret == r.ret && Ctx() == r.ctx
              && (tag != null ==> tag[..] == if ret == Success then r.out else old(tag[..]))
    {
      hide XorByte, XorAt;
      if tag == null { return BadFuncArg; }
      if !keySet || !nonceSet || !adSet { return BadState; }
      if op != Encrypt { return BadState; }
      Finalize();
      CopyBuf(tag, 0, state, 24, 16);
      assert tag[..] == state[24..40];
      return Success;
    }

    method DecryptFinal(tag: array?<byte>) returns (ret: Ret)
      requires Valid() && tag != state && (tag != null ==> tag.Length == 16)
      modifies state
      ensures Valid()
      ensures var r := WolfCalls.DecryptFinal(perms, old(Ctx()), if tag == null then None else Some(tag[..]));
              ret == r.ret && Ctx() == r.ctx
    {
      hide XorByte, XorAt;
      if tag == null { return BadFuncArg; }
      if !keySet || !nonceSet || !adSet { return BadState; }
      if op != Decrypt { return BadState; }
      Finalize();
      return if tag[..] == state[24..40] then Success else AuthError;
    }
  }
}
