/** The one-shot drivers of verify_ascon_32bit.c, with the permutation as a
    parameter, against the block-wise definition. */
module VerifyTool {
  import opened Sponge
  import opened OneShot
  import opened Buffers

  /** XORs n bytes of the input into the state and copies them out again. */
  method EncryptLoop(s: array<byte>, pt: array<byte>, ct: array<byte>, off: nat, n: nat)
    requires s.Length == STATE_SZ && n <= AEAD_RATE && off + n <= pt.Length && off + n <= ct.Length
    requires s != pt && s != ct
    modifies s, ct
    ensures s[..] == XorAt(old(s[..]), 0, old(pt[off..off + n]))
    ensures ct[..] == PutAt(old(ct[..]), off, s[..n])
  {
    hide XorByte;
    var i := 0;
    while i < n
      invariant 0 <= i <= n
      invariant forall k :: off + i <= k < pt.Length && k < off + n ==> pt[k] == old(pt[k])
      invariant forall k :: 0 <= k < STATE_SZ ==>
                  s[k] == if k < i then XorByte(old(s[k]), old(pt[off + k])) else old(s[k])
      invariant forall k :: 0 <= k < ct.Length ==>
                  ct[k] == if off <= k < off + i then s[k - off] else old(ct[k])
    {
      s[i] := XorByte(s[i], pt[off + i]);
      ct[off + i] := s[i];
      i := i + 1;
    }
  }

  /** The absorbing loops of ascon_hash and of the associated data: whole
      blocks, then the padded rest without its permutation. */
  method AbsorbLoop(perm: Perm, rate: nat, s: array<byte>, msg: array<byte>)
    requires s.Length == STATE_SZ && s != msg && 0 < rate < STATE_SZ
    modifies s
    ensures s[..] == Blocks(perm, rate, old(s[..]), msg[..]).s
  {
    hide XorByte, XorAt;
    ghost var m := msg[..];
    var off := 0;
    while off + rate <= msg.Length
      invariant 0 <= off <= msg.Length
      invariant Blocks(perm, rate, s[..], m[off..]).s == Blocks(perm, rate, old(s[..]), m).s
    {
      ghost var d := m[off..];
      assert Read(msg, off, rate) == d[..rate];
      XorBuf(s, 0, msg, off, rate);
      Permute(s, perm);
      off := off + rate;
      assert d[rate..] == m[off..];
    }
    ghost var t: State := s[..];
    var rem := msg.Length - off;
    assert Read(msg, off, rem) == m[off..];
    XorBuf(s, 0, msg, off, rem);
    XorBytes(s, rem, PAD);
    PadAfter(t, m[off..]);
  }

  method SqueezeLoop(perm: Perm, s: array<byte>, out: array<byte>)
    requires s.Length == STATE_SZ && s != out && out.Length == 32
    modifies s, out
    ensures out[..] == Squeeze(perm, old(s[..]), 4)
  {
    var i := 0;
    while i < 4
      invariant 0 <= i <= 4
      invariant s[..] == Permuted(perm, old(s[..]), i)
      invariant out[..8 * i] == Squeeze(perm, old(s[..]), i)
    {
      ghost var before := out[..8 * i];
      Permute(s, perm);
      CopyBuf(out, 8 * i, s, 0, HASH_RATE);
      i := i + 1;
      assert out[..8 * i] == before + s[..HASH_RATE];
    }
    assert out[..] == out[..8 * 4];
  }

  method AsconHash(perm: Perm, msg: array<byte>, out: array<byte>)
    requires out.Length == 32 && msg != out
    modifies out
    ensures out[..] == Hash(perm, old(msg[..]))
  {
    hide Blocks, Squeeze;
    var s := new byte[STATE_SZ](i => 0);
    PutBytes(s, 0, HASH_IV);
    assert s[..] == HASH_IV + seq(32, i => 0);
    Permute(s, perm);
    AbsorbLoop(perm, HASH_RATE, s, msg);
    SqueezeLoop(perm, s, out);
  }

  /** The plaintext loop: whole blocks, then the rest with its padding. */
  method EncryptBlocks(perm: Perm, s: array<byte>, pt: array<byte>, ct: array<byte>)
    requires s.Length == STATE_SZ && s != pt && s != ct && ct.Length == pt.Length
    modifies s, ct
    ensures var b := Blocks(perm, AEAD_RATE, old(s[..]), old(pt[..]));
            s[..] == b.s && ct[..] == b.out
  {
    hide XorByte, XorAt, Blocks, Toward;
    ghost var m, b := pt[..], Blocks(perm, AEAD_RATE, s[..], pt[..]);
    assert Toward(perm, AEAD_RATE, s[..], m, [], b) by { TowardStart(perm, AEAD_RATE, s[..], m); }
    assert m[0..] == m && ct[..0] == [];
    var off := 0;
    while off + AEAD_RATE <= pt.Length
      invariant 0 <= off <= pt.Length
      invariant pt[off..] == m[off..]
      invariant Toward(perm, AEAD_RATE, s[..], m[off..], ct[..off], b)
    {
      TowardBlock(perm, AEAD_RATE, s[..], m[off..], ct[..off], b);
      EncryptBlock(s, pt, ct, off, AEAD_RATE, m);
      Permute(s, perm);
      off := off + AEAD_RATE;
    }
    var rem := pt.Length - off;
    TowardEnd(perm, AEAD_RATE, s[..], m[off..], ct[..off], b);
    EncryptBlock(s, pt, ct, off, rem, m);
    XorBytes(s, rem, PAD);
    assert ct[..] == ct[..off + rem];
  }

  /** EncryptLoop, told in terms of the whole plaintext m. */
  method EncryptBlock(s: array<byte>, pt: array<byte>, ct: array<byte>, off: nat, n: nat, ghost m: seq<byte>)
    requires s.Length == STATE_SZ && n <= AEAD_RATE && off + n <= pt.Length == ct.Length == |m|
    requires s != pt && s != ct && pt[off..] == m[off..]
    modifies s, ct
    ensures s[..] == XorAt(old(s[..]), 0, m[off..][..n])
    ensures ct[..off + n] == old(ct[..off]) + s[..n]
    ensures m[off..][n..] == m[off + n..] == pt[off + n..]
  {
    hide XorByte, XorAt;
    assert pt[off..off + n] == pt[off..][..n] == m[off..][..n];
    EncryptLoop(s, pt, ct, off, n);
    assert forall k :: off + n <= k < ct.Length ==> ct[..][k] == old(ct[..])[k];
    assert ct[..off + n] == old(ct[..off]) + s[..n] by {
      assert forall k :: 0 <= k < off ==> ct[..][k] == old(ct[..])[k];
      assert ct[off..off + n] == s[..n];
    }
    assert pt[off + n..] == m[off + n..] by {
      assert forall k :: 0 <= k < |m| - off ==> old(pt[off..])[k] == m[off..][k];
    }
  }

  method AsconAeadEncrypt(perms: Perms, key: Block, nonce: Block, ad: array<byte>,
                          pt: array<byte>, ct: array<byte>, tag: array<byte>)
    requires ct.Length == pt.Length && tag.Length == 16
    requires tag != ct && ad != ct && ad != tag && pt != tag
    modifies ct, tag
    ensures Sealed(ct[..], tag[..]) == Seal(perms, key, nonce, ad[..], old(pt[..]))
  {
    hide XorByte, XorAt, Blocks;
    var s := new byte[STATE_SZ](i => 0);
    PutBytes(s, 0, AEAD_IV);
    PutBytes(s, 8, key);
    PutBytes(s, 24, nonce);
    assert s[..] == Loaded(key, nonce);
    Permute(s, perms.pa);
    XorBytes(s, 24, key);
    if ad.Length > 0 {
      AbsorbLoop(perms.pb, AEAD_RATE, s, ad);
      Permute(s, perms.pb);
    }
    XorBytes(s, 39, DOMAIN_SEPARATOR);
    assert s[..] == Started(perms, key, nonce, ad[..]);
    EncryptBlocks(perms.pb, s, pt, ct);
    XorBytes(s, 16, key);
    Permute(s, perms.pa);
    XorBytes(s, 24, key);
    CopyBuf(tag, 0, s, 24, 16);
    assert tag[..] == s[24..40];
  }
}
