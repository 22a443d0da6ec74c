/** ASCON_AEAD128_CTX: the streaming core of ascon_local.h, in place. */
module OsslAead {
  import opened Sponge
  import opened OneShot
  import opened Buffers
  import OsslCalls

  class AsconAead128 {
    const perms: Perms
    const s: array<byte>
    const adPart: array<byte>
    const ct: array<byte>
    var key: Block
    var tag: Block
    var lastBlkSz: nat
    var adPartSz: nat
    var enc: bool
    var adStarted: bool
    var adDone: bool

    ghost predicate Shape()
      reads this
    {
      s.Length == STATE_SZ && adPart.Length == ct.Length == AEAD_RATE && s != adPart && s != ct && adPart != ct
    }

    ghost predicate Valid()
      reads this, s, adPart
    {
      Shape() && OsslCalls.Inv(Ctx())
    }

    ghost function Ctx(): OsslCalls.Ctx
      requires Shape()
      reads this, s, adPart
    {
      OsslCalls.Ctx(s[..], key, adPart[..], adPartSz, tag, lastBlkSz, enc, adStarted, adDone)
    }

    /** A caller's buffers are not inside the context. */
    ghost predicate Outside(inp: array?<byte>, out: array<byte>)
      reads this
    {
      inp != s && inp != adPart && inp != ct && out != s && out != adPart && out != ct
    }

    /** zalloc. */
    constructor (perms: Perms)
      ensures Valid() && fresh(s) && fresh(adPart) && fresh(ct) && this.perms == perms
      ensures Ctx() == OsslCalls.Ctx(seq(STATE_SZ, i => 0), ZERO_BLOCK, ZERO_BLOCK, 0, ZERO_BLOCK, 0, false, false, false)
    {
      this.perms := perms;
      s := new byte[STATE_SZ](i => 0);
      adPart := new byte[AEAD_RATE](i => 0);
      ct := new byte[AEAD_RATE](i => 0);
      key, tag := ZERO_BLOCK, ZERO_BLOCK;
      lastBlkSz, adPartSz := 0, 0;
      enc, adStarted, adDone := false, false, false;
    }

    method Reset(k: Block, nonce: Block)
      requires Shape()
      modifies this, s, adPart, ct
      ensures Valid() && Ctx() == OsslCalls.Reset(old(Ctx()), k, nonce)
    {
      PutBytes(s, 0, AEAD_IV);
      key := k;
      PutBytes(s, 8, k);
      PutBytes(s, 24, nonce);
      lastBlkSz, adPartSz := 0, 0;
      adStarted, adDone := false, false;
      forall i | 0 <= i < AEAD_RATE { adPart[i] := 0; }
      forall i | 0 <= i < AEAD_RATE { ct[i] := 0; }
      assert s[..] == Loaded(k, nonce);
      assert adPart[..] == ZERO_BLOCK;
    }

    method AbsorbAad(ad: array<byte>, adSz: nat)
      requires Valid() && ad != s && ad != adPart && adSz <= ad.Length
      modifies this`adPartSz, this`adStarted, s, adPart
      ensures Valid() && Ctx() == OsslCalls.AbsorbAad(perms, old(Ctx()), ad[..adSz])
    {
      hide XorByte, XorAt;
      if !adStarted {
        Permute(s, perms.pa);
        XorBytes(s, 24, key);
        adStarted := true;
      }
      assert Ctx() == OsslCalls.StartAd(perms, old(Ctx()));
      AbsorbRun(ad, adSz);
    }

    /** The loop that tops up adPart: how much of the input it took. */
    method FillPart(ad: array<byte>, adSz: nat) returns (i: nat)
      requires Valid() && ad != s && ad != adPart && adSz <= ad.Length && adPartSz > 0
      modifies this`adPartSz, s, adPart
      ensures Valid() && i <= adSz
      ensures var b, d := old(OsslCalls.Buf(Ctx())), ad[..adSz];
              if OsslCalls.Flushes(b, d) then
                var block := OsslCalls.FlushedBlock(b, d);
                i == AEAD_RATE - b.sz
                && OsslCalls.Buf(Ctx()) == OsslCalls.AdBuf(perms.pb(XorAt(b.s, 0, block)), block, 0)
              else
                i == adSz && OsslCalls.Buf(Ctx()) == OsslCalls.AdBuf(b.s, PutAt(b.part, b.sz, d), b.sz + |d|)
    {
      hide XorByte, XorAt, PutAt;
      ghost var d, b := ad[..adSz], OsslCalls.Buf(Ctx());
      i := 0;
      NothingPut(b.part, b.sz);
      while adPartSz > 0 && adSz - i > 0
        invariant 0 <= i <= adSz && Valid()
        invariant i == 0 ==> OsslCalls.Buf(Ctx()) == b
        invariant i > 0 && OsslCalls.Flushes(b, d) ==>
                    var block := OsslCalls.FlushedBlock(b, d);
                    i == AEAD_RATE - b.sz
                    && OsslCalls.Buf(Ctx()) == OsslCalls.AdBuf(perms.pb(XorAt(b.s, 0, block)), block, 0)
        invariant i > 0 && !OsslCalls.Flushes(b, d) ==>
                    i == adSz && OsslCalls.Buf(Ctx()) == OsslCalls.AdBuf(b.s, PutAt(b.part, b.sz, d), b.sz + |d|)
        decreases adSz - i
      {
        assert i == 0;
        var n := if AEAD_RATE - adPartSz < adSz - i then AEAD_RATE - adPartSz else adSz - i;
        assert ad[i..i + n] == d[..n];
        CopyBuf(adPart, adPartSz, ad, i, n);
        adPartSz := adPartSz + n;
        i := i + n;
        if adPartSz == AEAD_RATE {
          assert Read(adPart, 0, AEAD_RATE) == adPart[..];
          XorBuf(s, 0, adPart, 0, AEAD_RATE);
          Permute(s, perms.pb);
          adPartSz := 0;
        } else {
          assert d[..n] == d;
        }
      }
    }

    /** Whole blocks from index i on, then the rest into adPart. */
    method AbsorbRest(ad: array<byte>, from: nat, adSz: nat)
      requires Valid() && ad != s && ad != adPart && from <= adSz <= ad.Length && adPartSz == 0
      modifies this`adPartSz, s, adPart
      ensures Valid()
      ensures OsslCalls.Buf(Ctx()) == OsslCalls.AbsorbBlocks(perms.pb, old(OsslCalls.Buf(Ctx())), ad[from..adSz])
    {
      hide XorByte, XorAt, PutAt, OsslCalls.AbsorbBlocks;
      ghost var d, b := ad[from..adSz], OsslCalls.Buf(Ctx());
      assert d[0..] == d;
      var i := from;
      while adSz - i >= AEAD_RATE
        invariant from <= i <= adSz && Valid() && adPartSz == 0
        invariant OsslCalls.AbsorbBlocks(perms.pb, b, d)
               == OsslCalls.AbsorbBlocks(perms.pb, OsslCalls.Buf(Ctx()), d[i - from..])
      {
        ghost var rest := d[i - from..];
        assert Read(ad, i, AEAD_RATE) == rest[..AEAD_RATE];
        OsslCalls.AbsorbBlocksStep(perms.pb, OsslCalls.Buf(Ctx()), rest);
        XorBuf(s, 0, ad, i, AEAD_RATE);
        Permute(s, perms.pb);
        i := i + AEAD_RATE;
        assert rest[AEAD_RATE..] == d[i - from..];
      }
      OsslCalls.AbsorbBlocksStep(perms.pb, OsslCalls.Buf(Ctx()), d[i - from..]);
      if adSz - i > 0 {
        assert ad[i..i + (adSz - i)] == d[i - from..];
        CopyBuf(adPart, 0, ad, i, adSz - i);
        adPartSz := adSz - i;
      }
    }

    method AbsorbRun(ad: array<byte>, adSz: nat)
      requires Valid() && ad != s && ad != adPart && adSz <= ad.Length
      modifies this`adPartSz, s, adPart
      ensures Valid()
      ensures OsslCalls.Buf(Ctx()) == OsslCalls.Absorb(perms.pb, old(OsslCalls.Buf(Ctx())), ad[..adSz])
    {
      hide XorByte, XorAt, PutAt, OsslCalls.AbsorbBlocks;
      var i := 0;
      if adPartSz > 0 {
        i := FillPart(ad, adSz);
        if adPartSz > 0 { return; }
      }
      assert ad[i..adSz] == ad[..adSz][i..];
      AbsorbRest(ad, i, adSz);
    }

    method AadFinalize()
      requires Valid()
      modifies this`adPartSz, this`adDone, s, adPart
      ensures Valid() && Ctx() == OsslCalls.AadFinalize(perms, old(Ctx()))
    {
      hide XorByte, XorAt;
      if adDone { return; }
      if !adStarted {
        Permute(s, perms.pa);
        XorBytes(s, 24, key);
      }
      if adPartSz > 0 {
        XorBytes(adPart, adPartSz, PAD);
        assert Read(adPart, 0, AEAD_RATE) == adPart[..];
        XorBuf(s, 0, adPart, 0, AEAD_RATE);
        Permute(s, perms.pb);
        adPartSz := 0;
      }
      XorBytes(s, 39, DOMAIN_SEPARATOR);
      adDone := true;
    }

    /** The XOR-and-store loops of ascon_aead128_encrypt_update. */
    method EncryptBytes(out: array<byte>, outOff: nat, inp: array?<byte>, inOff: nat, pos: nat, n: nat)
      requires Shape() && Outside(inp, out) && pos + n <= AEAD_RATE
      requires Region(inp, inOff, n) && outOff + n <= out.Length && Compatible(out, outOff, inp, inOff, n)
      modifies s, ct, out
      ensures s[..] == Written(Enc, old(s[..]), pos, old(Read(inp, inOff, n)))
      ensures out[..] == PutAt(old(out[..]), outOff,
                           XorAt(old(s[..]), pos, old(Read(inp, inOff, n)))[pos..pos + n])
    {
      hide XorByte;
      ghost var d, s0, o := Read(inp, inOff, n), s[..], out[..];
      var k := 0;
      while k < n
        invariant 0 <= k <= n
        invariant forall j | 0 <= j < STATE_SZ :: s[j] == if pos <= j < pos + k then XorByte(s0[j], d[j - pos]) else s0[j]
        invariant forall j | 0 <= j < out.Length ::
                    out[j] == if outOff <= j < outOff + k then XorByte(s0[pos + j - outOff], d[j - outOff]) else o[j]
        invariant forall j | k <= j < n :: inp[inOff + j] == d[j]
      {
        s[pos + k] := XorByte(s[pos + k], inp[inOff + k]);
        out[outOff + k] := s[pos + k];
        k := k + 1;
      }
      assert s[..] == XorAt(s0, pos, d);
      OutputIs(s0, pos, d, o, outOff, out[..]);
    }

    static lemma OutputIs(s0: State, pos: nat, d: seq<byte>, o: seq<byte>, off: nat, out: seq<byte>)
      requires pos + |d| <= STATE_SZ && off + |d| <= |o| == |out|
      requires forall j | 0 <= j < |out| ::
                 out[j] == if off <= j < off + |d| then XorByte(s0[pos + j - off], d[j - off]) else o[j]
      ensures out == PutAt(o, off, XorAt(s0, pos, d)[pos..pos + |d|])
    {
      hide XorByte;
    }

    /** One piece of encrypt_update, with the permutation when it fills the block. */
    method EncryptPiece(out: array<byte>, outOff: nat, inp: array?<byte>, inOff: nat, i: nat, n: nat,
                        ghost c: Cursor, ghost data: seq<byte>, ghost o: seq<byte>)
      requires Shape() && Outside(inp, out) && lastBlkSz + n <= AEAD_RATE
      requires i + n <= |data| && Unread(inp, inOff, data, i) && Region(inp, inOff, |data|)
      requires outOff + |data| <= out.Length && Compatible(out, outOff, inp, inOff, |data|)
      requires Progress(perms.pb, AEAD_RATE, Enc, c, data, i, Cursor(s[..], lastBlkSz), o, outOff, out[..])
      modifies this`lastBlkSz, s, ct, out
      ensures Progress(perms.pb, AEAD_RATE, Enc, c, data, i + n, Cursor(s[..], lastBlkSz), o, outOff, out[..])
      ensures lastBlkSz == if old(lastBlkSz) + n == AEAD_RATE then 0 else old(lastBlkSz) + n
      ensures Unread(inp, inOff, data, i + n)
    {
      hide XorByte, XorAt, Written, Progress;
      UnreadRead(inp, inOff, data, i, n);
      ProgressPiece(perms.pb, AEAD_RATE, Enc, c, data, i, n, Cursor(s[..], lastBlkSz), o, outOff, out[..]);
      EncryptBytes(out, outOff + i, inp, inOff + i, lastBlkSz, n);
      assert Unread(inp, inOff, data, i + n) by {
        assert forall k | 0 <= k < out.Length :: out[..][k] == out[k];
      }
      lastBlkSz := lastBlkSz + n;
      if lastBlkSz == AEAD_RATE {
        Permute(s, perms.pb);
        lastBlkSz := 0;
      }
    }

    method EncryptUpdate(out: array<byte>, outOff: nat, inp: array?<byte>, inOff: nat, inSz: nat)
      requires Valid() && Outside(inp, out)
      requires Region(inp, inOff, inSz) && outOff + inSz <= out.Length && Compatible(out, outOff, inp, inOff, inSz)
      modifies this, s, adPart, ct, out
      ensures Valid()
      ensures var r := OsslCalls.Crypt(perms, Enc, old(Ctx()), old(Read(inp, inOff, inSz)));
              Ctx() == r.ctx && out[..] == PutAt(old(out[..]), outOff, r.out)
    {
      hide Feed, Progress, Unread, OsslCalls.AadFinalize;
      AadFinalize();
      ghost var data, o := Read(inp, inOff, inSz), out[..];
      ghost var c := Cursor(s[..], lastBlkSz);
      ProgressStarts(perms.pb, AEAD_RATE, Enc, c, data, outOff, o);
      assert Unread(inp, inOff, data, 0) by { UnreadStarts(inp, inOff, inSz); }
      var i := 0;
      if lastBlkSz > 0 {
        i := if AEAD_RATE - lastBlkSz < inSz then AEAD_RATE - lastBlkSz else inSz;
        EncryptPiece(out, outOff, inp, inOff, 0, i, c, data, o);
      }
      while inSz - i >= AEAD_RATE
        invariant 0 <= i <= inSz && Valid() && (lastBlkSz == 0 || i == inSz)
        invariant Unread(inp, inOff, data, i)
        invariant Progress(perms.pb, AEAD_RATE, Enc, c, data, i, Cursor(s[..], lastBlkSz), o, outOff, out[..])
        modifies this`lastBlkSz, s, ct, out
      {
        EncryptPiece(out, outOff, inp, inOff, i, AEAD_RATE, c, data, o);
        i := i + AEAD_RATE;
      }
      if inSz - i > 0 {
        EncryptPiece(out, outOff, inp, inOff, i, inSz - i, c, data, o);
        i := inSz;
      }
      ProgressEnds(perms.pb, AEAD_RATE, Enc, c, data, Cursor(s[..], lastBlkSz), o, outOff, out[..]);
    }

    /** The copy to ct, then the loops of ascon_aead128_decrypt_update. */
    method DecryptBytes(out: array<byte>, outOff: nat, inp: array?<byte>, inOff: nat, pos: nat, n: nat)
      requires Shape() && Outside(inp, out) && pos + n <= AEAD_RATE
      requires Region(inp, inOff, n) && outOff + n <= out.Length
      modifies s, ct, out
      ensures s[..] == Written(Dec, old(s[..]), pos, old(Read(inp, inOff, n)))
      ensures out[..] == PutAt(old(out[..]), outOff,
                           XorAt(old(s[..]), pos, old(Read(inp, inOff, n)))[pos..pos + n])
    {
      hide XorByte, XorAt;
      if inp != null {
        CopyBuf(ct, 0, inp, inOff, n);
      }
      assert ct[..n] == Read(inp, inOff, n);
      SwapIn(s, pos, ct, n, out, outOff);
    }

    /** out = s ^ ct and s = ct, byte by byte. */
    static method SwapIn(s: array<byte>, pos: nat, ct: array<byte>, n: nat, out: array<byte>, outOff: nat)
      requires s.Length == STATE_SZ && s != ct && s != out && ct != out
      requires pos + n <= STATE_SZ && n <= ct.Length && outOff + n <= out.Length
      modifies s, out
      ensures s[..] == PutAt(old(s[..]), pos, ct[..n])
      ensures out[..] == PutAt(old(out[..]), outOff, XorAt(old(s[..]), pos, ct[..n])[pos..pos + n])
    {
      hide XorByte;
      ghost var d, s0, o := ct[..n], s[..], out[..];
      var k := 0;
      while k < n
        invariant 0 <= k <= n
        invariant forall j | 0 <= j < STATE_SZ :: s[j] == if pos <= j < pos + k then d[j - pos] else s0[j]
        invariant forall j | 0 <= j < out.Length ::
                    out[j] == if outOff <= j < outOff + k then XorByte(s0[pos + j - outOff], d[j - outOff]) else o[j]
      {
        out[outOff + k] := XorByte(s[pos + k], ct[k]);
        s[pos + k] := ct[k];
        k := k + 1;
      }
      assert s[..] == PutAt(s0, pos, d);
      assert out[..] == PutAt(o, outOff, XorAt(s0, pos, d)[pos..pos + n]);
    }

    /** One piece of decrypt_update, with the permutation when it fills the block. */
    method DecryptPiece(out: array<byte>, outOff: nat, inp: array?<byte>, inOff: nat, i: nat, n: nat,
                        ghost c: Cursor, ghost data: seq<byte>, ghost o: seq<byte>)
      requires Shape() && Outside(inp, out) && lastBlkSz + n <= AEAD_RATE
      requires i + n <= |data| && Unread(inp, inOff, data, i) && Region(inp, inOff, |data|)
      requires outOff + |data| <= out.Length && Compatible(out, outOff, inp, inOff, |data|)
      requires Progress(perms.pb, AEAD_RATE, Dec, c, data, i, Cursor(s[..], lastBlkSz), o, outOff, out[..])
      modifies this`lastBlkSz, s, ct, out
      ensures Progress(perms.pb, AEAD_RATE, Dec, c, data, i + n, Cursor(s[..], lastBlkSz), o, outOff, out[..])
      ensures lastBlkSz == if old(lastBlkSz) + n == AEAD_RATE then 0 else old(lastBlkSz) + n
      ensures Unread(inp, inOff, data, i + n)
    {
      hide XorByte, XorAt, Written, Progress;
      UnreadRead(inp, inOff, data, i, n);
      ProgressPiece(perms.pb, AEAD_RATE, Dec, c, data, i, n, Cursor(s[..], lastBlkSz), o, outOff, out[..]);
      DecryptBytes(out, outOff + i, inp, inOff + i, lastBlkSz, n);
      assert Unread(inp, inOff, data, i + n) by {
        assert forall k | 0 <= k < out.Length :: out[..][k] == out[k];
      }
      lastBlkSz := lastBlkSz + n;
      if lastBlkSz == AEAD_RATE {
        Permute(s, perms.pb);
        lastBlkSz := 0;
      }
    }

    method DecryptUpdate(out: array<byte>, outOff: nat, inp: array?<byte>, inOff: nat, inSz: nat)
      requires Valid() && Outside(inp, out)
      requires Region(inp, inOff, inSz) && outOff + inSz <= out.Length && Compatible(out, outOff, inp, inOff, inSz)
      modifies this, s, adPart, ct, out
      ensures Valid()
      ensures var r := OsslCalls.Crypt(perms, Dec, old(Ctx()), old(Read(inp, inOff, inSz)));
              Ctx() == r.ctx && out[..] == PutAt(old(out[..]), outOff, r.out)
    {
      hide Feed, Progress, Unread, OsslCalls.AadFinalize;
      AadFinalize();
      ghost var data, o := Read(inp, inOff, inSz), out[..];
      ghost var c := Cursor(s[..], lastBlkSz);
      ProgressStarts(perms.pb, AEAD_RATE, Dec, c, data, outOff, o);
      assert Unread(inp, inOff, data, 0) by { UnreadStarts(inp, inOff, inSz); }
      var i := 0;
      if lastBlkSz > 0 {
        i := if AEAD_RATE - lastBlkSz < inSz then AEAD_RATE - lastBlkSz else inSz;
        DecryptPiece(out, outOff, inp, inOff, 0, i, c, data, o);
      }
      while inSz - i >= AEAD_RATE
        invariant 0 <= i <= inSz && Valid() && (lastBlkSz == 0 || i == inSz)
        invariant Unread(inp, inOff, data, i)
        invariant Progress(perms.pb, AEAD_RATE, Dec, c, data, i, Cursor(s[..], lastBlkSz), o, outOff, out[..])
        modifies this`lastBlkSz, s, ct, out
      {
        DecryptPiece(out, outOff, inp, inOff, i, AEAD_RATE, c, data, o);
        i := i + AEAD_RATE;
      }
      if inSz - i > 0 {
        DecryptPiece(out, outOff, inp, inOff, i, inSz - i, c, data, o);
        i := inSz;
      }
      ProgressEnds(perms.pb, AEAD_RATE, Dec, c, data, Cursor(s[..], lastBlkSz), o, outOff, out[..]);
    }

    /** Tag out when encrypting; the accumulated difference when decrypting. */
    method Final() returns (ok: bool)
      requires Valid()
      modifies this, s, adPart
      ensures Valid()
      ensures var r := OsslCalls.Final(perms, old(Ctx())); Ctx() == r.ctx && ok == r.ok
    {
      hide XorByte, XorAt, OsslCalls.AadFinalize;
      AadFinalize();
      XorBytes(s, lastBlkSz, PAD);
      XorBytes(s, 16, key);
      Permute(s, perms.pa);
      XorBytes(s, 24, key);
      var computed: Block := s[24..40];
      if enc {
        tag := computed;
        return true;
      }
      ok := SameTag(computed, tag);
    }

    /** The comparison loop that accumulates every difference. */
    static method SameTag(computed: Block, expected: Block) returns (same: bool)
      ensures same <==> computed == expected
    {
      hide XorByte;
      var diff: byte := 0;
      var i := 0;
      while i < 16
        invariant 0 <= i <= 16
        invariant diff == 0 <==> computed[..i] == expected[..i]
      {
        DiffByte(diff, computed[i], expected[i]);
        assert computed[..i + 1] == computed[..i] + [computed[i]];
        assert expected[..i + 1] == expected[..i] + [expected[i]];
        diff := diff | XorByte(computed[i], expected[i]);
        i := i + 1;
      }
      assert computed[..16] == computed && expected[..16] == expected;
      return diff == 0;
    }

    static lemma DiffByte(diff: byte, x: byte, y: byte)
      ensures diff | XorByte(x, y) == 0 <==> diff == 0 && x == y
    {
    }
  }
}
