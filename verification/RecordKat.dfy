/** Record nonces and the protect/unprotect round trip of ascon_record_kat.c. */
module RecordKat {
  import opened Wrappers
  import opened Words
  import opened Sponge
  import opened OneShot
  import opened Buffers
  import opened AsconMode
  import WC = WolfCalls
  import W = WolfRuns
  import opened WolfAead

  /** The sequence number most significant byte first. */
  function BigEndian(n: Word): (r: seq<byte>)
    ensures |r| == 8
  {
    seq(8, i requires 0 <= i < 8 => ByteOf(n[8 * (7 - i)..8 * (7 - i) + 8]))
  }

  /** Section 5.3 of RFC 8446: the padded sequence number XORed into the IV. */
  function Nonce(iv: Block, n: Word): Block {
    XorAt(iv, 8, BigEndian(n))
  }

  method BuildNonce(iv: array<byte>, n: Word, nonce: array<byte>)
    requires iv.Length == nonce.Length == 16 && iv != nonce
    modifies nonce
    ensures nonce[..] == Nonce(iv[..], n)
  {
    hide XorByte, ByteOf;
    CopyBuf(nonce, 0, iv, 0, 16);
    assert nonce[..] == iv[..];
    var i := 0;
    while i < 8
      invariant 0 <= i <= 8
      invariant forall k | 0 <= k < 16 ::
                  nonce[k] == if 8 <= k < 8 + i then XorByte(iv[k], BigEndian(n)[k - 8]) else iv[k]
    {
      assert ByteOf(Shr(n, 8 * (7 - i))[..8]) == BigEndian(n)[i] by {
        assert Shr(n, 8 * (7 - i))[..8] == n[8 * (7 - i)..8 * (7 - i) + 8];
      }
      hide BigEndian, Shr;
      nonce[8 + i] := XorByte(nonce[8 + i], ByteOf(Shr(n, 8 * (7 - i))[..8]));
      i := i + 1;
    }
  }

  /** The first byte counts most. */
  lemma BigEndianValue(n: Word)
    ensures var b := BigEndian(n);
            ToNat(n) == (b[7] as nat) + 256 * ((b[6] as nat) + 256 * ((b[5] as nat) + 256 * ((b[4] as nat)
                        + 256 * ((b[3] as nat) + 256 * ((b[2] as nat) + 256 * ((b[1] as nat) + 256 * (b[0] as nat)))))))
  {
    hide ToNat, BitsOf, ByteOf;
    var d := BytesOf(n);
    BitsBytes(n);
    NumberInBytes(d);
  }

  /** The iv's first half stays; each later byte is XORed with the number's. */
  lemma NonceInBytes(iv: Block, n: Word, i: nat)
    requires i < 16
    ensures Nonce(iv, n)[i] == if i < 8 then iv[i] else iv[i] ^ BigEndian(n)[i - 8]
  {
    hide BigEndian;
  }

  lemma BigEndianInjective(m: Word, n: Word)
    requires BigEndian(m) == BigEndian(n)
    ensures m == n
  {
    hide ByteOf, ByteBits;
    forall j | 0 <= j < 64
      ensures m[j] == n[j]
    {
      var k := j / 8;
      var a, b := m[8 * k..8 * k + 8], n[8 * k..8 * k + 8];
      assert BigEndian(m)[7 - k] == ByteOf(a) && BigEndian(n)[7 - k] == ByteOf(b);
      AsconMode.BitsRoundTrip(a);
      AsconMode.BitsRoundTrip(b);
      assert a[j % 8] == m[j] && b[j % 8] == n[j];
    }
  }

  /** Under one IV no two sequence numbers share a nonce. */
  lemma NonceInjective(iv: Block, m: Word, n: Word)
    requires Nonce(iv, m) == Nonce(iv, n)
    ensures m == n
  {
    hide XorByte, BigEndian;
    var a, b := BigEndian(m), BigEndian(n);
    forall k | 0 <= k < 8
      ensures a[k] == b[k]
    {
      assert Nonce(iv, m)[8 + k] == Nonce(iv, n)[8 + k];
      XorByteLaws(iv[8 + k], a[k]);
      XorByteLaws(iv[8 + k], b[k]);
    }
    BigEndianInjective(m, n);
  }

  /** Init, SetKey, SetNonce, SetAD. */
  method Open(a: AsconAEAD128, key: array<byte>, nonce: array<byte>, aad: array<byte>)
    requires a.Valid() && a.state != key && a.state != nonce && a.state != aad
    requires key.Length == nonce.Length == 16
    modifies a, a.state
    ensures a.Valid() && a.Ctx() == W.Ready(a.perms, a.iv, key[..], nonce[..], aad[..])
  {
    ghost var c := a.Ctx();
    W.SetupSteps(a.perms, c, key[..], nonce[..], aad[..]);
    hide WC.Init, WC.SetKey, WC.SetNonce, WC.SetAD, W.Ready, WC.Inv;
    a.Init();
    var ret := a.SetKey(key);
    ret := a.SetNonce(nonce);
    assert Read(aad, 0, aad.Length) == aad[..];
    ret := a.SetAD(aad, aad.Length);
  }

  /** The first half of run_case. */
  method Protect(a: AsconAEAD128, key: array<byte>, nonce: array<byte>, aad: array<byte>, pt: array<byte>)
    returns (ret: WC.Ret, ct: array<byte>, tag: array<byte>)
    requires a.Valid() && key.Length == nonce.Length == 16
    requires a.state != key && a.state != nonce && a.state != aad && a.state != pt
    modifies a, a.state
    ensures a.Valid() && fresh(ct) && fresh(tag) && tag.Length == 16 && ret == WC.Success
    ensures Sealed(ct[..], tag[..]) == Seal(a.perms, key[..], nonce[..], aad[..], pt[..])
  {
    hide Feed, Seal, W.Ready, WC.Update, WC.EncryptFinal;
    ct, tag := new byte[pt.Length](i => 0), new byte[16](i => 0);
    Open(a, key, nonce, aad);
    OneUpdateSeals(a.perms, a.iv, key[..], nonce[..], aad[..], pt[..]);
    assert Read(pt, 0, pt.Length) == pt[..];
    ret := a.EncryptUpdate(ct, 0, pt, 0, pt.Length);
    ret := a.EncryptFinal(tag);
  }

  lemma OneUpdateSeals(P: Perms, iv: Block, key: Block, nonce: Block, ad: seq<byte>, pt: seq<byte>)
    ensures var c := W.Ready(P, iv, key, nonce, ad);
            var u := WC.Update(P, Enc, c, Some(pt));
            var f := WC.EncryptFinal(P, u.ctx, false);
            && WC.Inv(c) && WC.Inv(u.ctx) && f.ret == WC.Success && |u.out| == |pt| && |f.out| == 16
            && Sealed(u.out, f.out) == Seal(P, key, nonce, ad, pt)
  {
    hide Feed, Blocks, Started;
    FeedIsBlocks(P.pb, AEAD_RATE, Started(P, key, nonce, ad), pt);
  }

  /** The second half: the verdict says whether the pair is an encryption. */
  method Unprotect(a: AsconAEAD128, key: array<byte>, nonce: array<byte>, aad: array<byte>,
                   ct: array<byte>, tag: array<byte>)
    returns (ret: WC.Ret, dec: array<byte>)
    requires a.Valid() && key.Length == nonce.Length == tag.Length == 16
    requires a.state != key && a.state != nonce && a.state != aad && a.state != ct && a.state != tag
    modifies a, a.state
    ensures a.Valid() && fresh(dec)
    ensures Seal(a.perms, key[..], nonce[..], aad[..], dec[..]).ct == ct[..]
    ensures ret == WC.Success || ret == WC.AuthError
    ensures ret == WC.Success <==> Seal(a.perms, key[..], nonce[..], aad[..], dec[..]) == Sealed(ct[..], tag[..])
  {
    hide Feed, Seal, W.Ready, WC.Update, WC.DecryptFinal;
    dec := new byte[ct.Length](i => 0);
    Open(a, key, nonce, aad);
    OneUpdateOpens(a.perms, a.iv, key[..], nonce[..], aad[..], ct[..], tag[..]);
    assert Read(ct, 0, ct.Length) == ct[..];
    ghost var u := WC.Update(a.perms, Dec, a.Ctx(), Some(ct[..]));
    ret := a.DecryptUpdate(dec, 0, ct, 0, ct.Length);
    assert dec[..] == u.out;
    ret := a.DecryptFinal(tag);
  }

  lemma OneUpdateOpens(P: Perms, iv: Block, key: Block, nonce: Block, ad: seq<byte>, ct: seq<byte>, tag: Block)
    ensures var c := W.Ready(P, iv, key, nonce, ad);
            var u := WC.Update(P, Dec, c, Some(ct));
            var f := WC.DecryptFinal(P, u.ctx, Some(tag));
            && WC.Inv(c) && WC.Inv(u.ctx) && |u.out| == |ct| && (f.ret == WC.Success || f.ret == WC.AuthError)
            && Seal(P, key, nonce, ad, u.out).ct == ct
            && (f.ret == WC.Success <==> Seal(P, key, nonce, ad, u.out) == Sealed(ct, tag))
  {
    hide Feed, Blocks, Started;
    var s := Started(P, key, nonce, ad);
    FeedRoundTrip(P.pb, AEAD_RATE, Dec, Cursor(s, 0), ct);
    FeedIsBlocks(P.pb, AEAD_RATE, s, Feed(P.pb, AEAD_RATE, Dec, Cursor(s, 0), ct).out);
  }

  /** run_case: protect a record, unprotect it on the same context. */
  method RunCase(a: AsconAEAD128, key: array<byte>, iv: array<byte>, n: Word, aad: array<byte>, pt: array<byte>)
    returns (ret: WC.Ret, dec: array<byte>)
    requires a.Valid() && key.Length == iv.Length == 16
    requires a.state != key && a.state != iv && a.state != aad && a.state != pt
    modifies a, a.state
    ensures ret == WC.Success && dec[..] == pt[..]
  {
    hide Seal, Nonce;
    var nonce := new byte[16](i => 0);
    BuildNonce(iv, n, nonce);
    var ct, tag;
    ret, ct, tag := Protect(a, key, nonce, aad, pt);
    ret, dec := Unprotect(a, key, nonce, aad, ct, tag);
    W.SealInjective(a.perms, key[..], nonce[..], aad[..], pt[..], dec[..]);
  }
}
