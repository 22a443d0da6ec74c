/** The record-number mask of mask_prf.c: P(domsep || key || x) cut to sixteen
    bytes, and the separation of its permutation inputs. */
module MaskPrf {
  import opened Words
  import opened Sponge
  import opened OneShot
  import opened Buffers
  import opened AsconMode
  import opened WolfCalls
  import WolfAead

  /** mask_prf_domsep_table: DTLS, QUIC, ESP, OSCORE. */
  const DOMSEP: seq<nat> :=
    [0x524E44494D534B5F, 0x5155504E4D534B5F, 0x455350534E575F5F, 0x4F53434F52455F5F]

  function MaskInput(domsep: Word, key: Block, x: Block): State {
    BytesOf(domsep) + key + x
  }

  function MaskState(domsep: Word, key: Block, x: Block): State {
    Permutation(MaskInput(domsep, key, x), PA)
  }

  function Mask(domsep: Word, key: Block, x: Block): Block {
    MaskState(domsep, key, x)[..16]
  }

  method MaskPrfDerive(key: array?<byte>, x: array?<byte>, out: array?<byte>, domsep: Word) returns (ret: Ret)
    requires key != null ==> key.Length == 16
    requires x != null ==> x.Length == 16
    requires out != null ==> out.Length == 16
    modifies out
    ensures ret == if key == null || x == null || out == null then BadFuncArg else Success
    ensures ret == Success ==> out[..] == Mask(domsep, old(key[..]), old(x[..]))
    ensures ret == BadFuncArg && out != null ==> out[..] == old(out[..])
  {
    hide Permutation, BytesOf;
    if key == null || x == null || out == null { return BadFuncArg; }
    var s := new byte[STATE_SZ](i => 0);
    PutBytes(s, 0, BytesOf(domsep));
    CopyBuf(s, 8, key, 0, 16);
    CopyBuf(s, 24, x, 0, 16);
    assert key[0..16] == key[..] && x[0..16] == x[..];
    assert s[..] == MaskInput(domsep, key[..], x[..]);
    Permute(s, t => Permutation(t, PA));
    CopyBuf(out, 0, s, 0, 8);
    CopyBuf(out, 8, s, 8, 8);
    assert out[..] == s[..16];
    return Success;
  }

  /** wc_AsconAEAD128_Mask: the key of the context, the DTLS entry. */
  method ContextMask(a: WolfAead.AsconAEAD128, ciphertext: array?<byte>, mask: array?<byte>) returns (ret: Ret)
    requires a.Valid() && mask != a.state
    requires ciphertext != null ==> ciphertext.Length == 16
    requires mask != null ==> mask.Length == 16
    modifies mask
    ensures a.Valid() && a.Ctx() == old(a.Ctx())
    ensures ret == if ciphertext == null || mask == null then BadFuncArg else if !a.keySet then BadState else Success
    ensures ret == Success ==> mask[..] == Mask(FromNat(DOMSEP[0], 64), a.key, old(ciphertext[..]))
    ensures ret != Success && mask != null ==> mask[..] == old(mask[..])
  {
    hide Mask, FromNat, Inv;
    if ciphertext == null || mask == null { return BadFuncArg; }
    if !a.keySet { return BadState; }
    var key := new byte[16](i => 0);
    PutBytes(key, 0, a.key);
    assert key[..] == a.key;
    ret := MaskPrfDerive(key, ciphertext, mask, FromNat(DOMSEP[0], 64));
  }

  // ------------------------------------------------------------- separation

  /** Domain, key and input are determined by the permuted state. */
  lemma MaskStateInjective(d: Word, k: Block, x: Block, d': Word, k': Block, x': Block)
    requires MaskState(d, k, x) == MaskState(d', k', x')
    ensures d == d' && k == k' && x == x'
  {
    hide Permutation, PermutationInverse, BytesOf, BitsOf;
    var a, b := MaskInput(d, k, x), MaskInput(d', k', x');
    PermutationInverts(a, PA);
    PermutationInverts(b, PA);
    assert a[..8] == BytesOf(d) && a[8..24] == k && a[24..] == x;
    assert b[..8] == BytesOf(d') && b[8..24] == k' && b[24..] == x';
    BitsBytes(d);
    BitsBytes(d');
  }

  lemma Pow2Of64()
    ensures Pow2(64) == 0x1_0000_0000_0000_0000
  {
    Pow2Of8();
    hide Pow2;
    Pow2Adds(8, 8);
    Pow2Adds(16, 16);
    Pow2Adds(32, 32);
  }

  lemma Pow2Of8()
    ensures Pow2(8) == 0x100
  {
  }

  lemma {:induction false} Pow2Adds(m: nat, n: nat)
    ensures Pow2(m + n) == Pow2(m) * Pow2(n)
  {
    if m > 0 {
      Pow2Adds(m - 1, n);
      assert 2 * (Pow2(m - 1) * Pow2(n)) == Pow2(m) * Pow2(n);
    }
  }

  /** The table entries as the words the code passes. */
  lemma TableEntry(i: nat)
    requires i < 4
    ensures ToNat(FromNat(DOMSEP[i], 64)) == DOMSEP[i]
  {
    hide FromNat, ToNat, Pow2;
    Pow2Of64();
    NatRoundTrip(DOMSEP[i], 64);
  }

  /** The entries in memory are the names of the protocols' masks, last letter
      first: RNDIMSK_, QUPNMSK_, ESPSNW__ and OSCORE__. */
  lemma TableInAscii(i: nat)
    requires i < 4
    ensures BytesOf(FromNat(DOMSEP[i], 64))
         == if i == 0 then [0x5F, 0x4B, 0x53, 0x4D, 0x49, 0x44, 0x4E, 0x52]
            else if i == 1 then [0x5F, 0x4B, 0x53, 0x4D, 0x4E, 0x50, 0x55, 0x51]
            else if i == 2 then [0x5F, 0x5F, 0x57, 0x4E, 0x53, 0x50, 0x53, 0x45]
            else [0x5F, 0x5F, 0x45, 0x52, 0x4F, 0x43, 0x53, 0x4F]
  {
    hide BytesOf, FromNat, BitsOf, ToNat;
    if i == 0 {
      NumberInBytes([0x5F, 0x4B, 0x53, 0x4D, 0x49, 0x44, 0x4E, 0x52]);
    } else if i == 1 {
      NumberInBytes([0x5F, 0x4B, 0x53, 0x4D, 0x4E, 0x50, 0x55, 0x51]);
    } else if i == 2 {
      NumberInBytes([0x5F, 0x5F, 0x57, 0x4E, 0x53, 0x50, 0x53, 0x45]);
    } else {
      NumberInBytes([0x5F, 0x5F, 0x45, 0x52, 0x4F, 0x43, 0x53, 0x4F]);
    }
  }

  /** The mask without the helpers: a state whose first eight bytes are the DTLS
      number, whose next sixteen are the key and whose last sixteen the input,
      permuted twelve rounds and cut. */
  lemma MaskInBytes(key: Block, x: Block, u: State)
    requires NumberOf(u[..8]) == 0x524E44494D534B5F
    requires forall j :: 0 <= j < 16 ==> u[8 + j] == key[j] && u[24 + j] == x[j]
    ensures Mask(FromNat(0x524E44494D534B5F, 64), key, x) == Permutation(u, 12)[..16]
    ensures DOMSEP[0] == 0x524E44494D534B5F
  {
    hide Permutation, BytesOf, FromNat, BitsOf, ToNat, NumberOf;
    NumberInBytes(u[..8]);
    assert u == MaskInput(FromNat(0x524E44494D534B5F, 64), key, x);
  }

  predicate IsDomsep(d: Word) {
    ToNat(d) in DOMSEP
  }

  function PermutedAeadStart(key: Block, nonce: Block): State {
    Permutation(Loaded(key, nonce), PA)
  }

  function PermutedHashStart(): State {
    Permutation(HASH_IV + seq(32, i => 0), PA)
  }

  /** No table entry has the memory image of an initial value. */
  lemma DomsepIsNoIv(d: Word)
    requires IsDomsep(d)
    ensures BytesOf(d) != AEAD_IV && BytesOf(d) != HASH_IV
  {
    assert ToNat(d) != 0x00001000808C0001 && ToNat(d) != 0x0000080100CC0002 by {
      hide ToNat, BytesOf, BitsOf;
    }
    hide BytesOf, BitsOf, ToNat, IsDomsep;
    BitsBytes(d);
    ConstantsAsWords();
  }

  /** The permuted state behind a mask is never a permuted initial state of the
      AEAD, under any keys and nonces, nor the hash's. */
  lemma MaskNeverMeetsAeadOrHash(d: Word, k: Block, x: Block, key: Block, nonce: Block)
    requires IsDomsep(d)
    ensures MaskState(d, k, x) != PermutedAeadStart(key, nonce)
    ensures MaskState(d, k, x) != PermutedHashStart()
  {
    hide Permutation, PermutationInverse, BytesOf, IsDomsep;
    DomsepIsNoIv(d);
    var a, b, c: State := MaskInput(d, k, x), Loaded(key, nonce), HASH_IV + seq(32, i => 0);
    PermutationInverts(a, PA);
    PermutationInverts(b, PA);
    PermutationInverts(c, PA);
    assert a[..8] == BytesOf(d) && b[..8] == AEAD_IV && c[..8] == HASH_IV;
  }
}
