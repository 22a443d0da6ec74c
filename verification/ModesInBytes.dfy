/** The modes byte by byte, for any permutations: which bytes of the state the
    key, the nonce, the data and the constants enter, and which come out. States
    are given by their bytes, not by the functions of OneShot. */
module ModesInBytes {
  import opened Sponge
  import opened OneShot

  /** Section 4.1 of SP 800-232: IV, key and nonce in this order, permuted, and
      the key added to the last sixteen bytes. */
  lemma StartInBytes(P: Perms, key: Block, nonce: Block, u: State)
    requires u[..8] == [0x01, 0x00, 0x8C, 0x80, 0x00, 0x10, 0x00, 0x00]
    requires forall j :: 0 <= j < 16 ==> u[8 + j] == key[j]
    requires forall j :: 0 <= j < 16 ==> u[24 + j] == nonce[j]
    ensures var s := Initialized(P, key, nonce);
            forall j :: 0 <= j < STATE_SZ ==> s[j] == if j < 24 then P.pa(u)[j] else XorByte(P.pa(u)[j], key[j - 24])
  {
    hide XorByte;
    assert u == Loaded(key, nonce) by {
      assert u[8..24] == key && u[24..] == nonce;
      assert u == u[..8] + u[8..24] + u[24..];
    }
  }

  /** No AD: only the domain separator. */
  lemma NoAdInBytes(P: Perms, s: State)
    ensures WithAd(P, s, [])[..39] == s[..39] && WithAd(P, s, [])[39] == XorByte(s[39], 0x80)
  {
    hide XorByte;
  }

  /** AD shorter than a block: padded, permuted, then the separator. */
  lemma ShortAdInBytes(P: Perms, s: State, ad: seq<byte>, u: State)
    requires 0 < |ad| < 16
    requires forall j :: 0 <= j < STATE_SZ ==>
               u[j] == if j < |ad| then XorByte(s[j], ad[j]) else if j == |ad| then XorByte(s[j], 0x01) else s[j]
    ensures WithAd(P, s, ad)[..39] == P.pb(u)[..39] && WithAd(P, s, ad)[39] == XorByte(P.pb(u)[39], 0x80)
  {
    hide XorByte;
    assert u == XorAt(s, 0, ad + PAD);
  }

  /** A whole block of AD with more to come is added and permuted. */
  lemma LongAdInBytes(P: Perms, s: State, ad: seq<byte>, u: State)
    requires |ad| > 16
    requires forall j :: 0 <= j < STATE_SZ ==> u[j] == if j < 16 then XorByte(s[j], ad[j]) else s[j]
    ensures WithAd(P, s, ad) == WithAd(P, P.pb(u), ad[16..])
  {
    hide XorByte;
    assert u == XorAt(s, 0, ad[..16]);
  }

  /** After a last whole block comes a block of padding alone. */
  lemma WholeAdInBytes(P: Perms, s: State, ad: seq<byte>, u: State, v: State)
    requires |ad| == 16
    requires forall j :: 0 <= j < STATE_SZ ==> u[j] == if j < 16 then XorByte(s[j], ad[j]) else s[j]
    requires forall j :: 0 <= j < STATE_SZ ==> v[j] == if j == 0 then XorByte(P.pb(u)[0], 0x01) else P.pb(u)[j]
    ensures WithAd(P, s, ad)[..39] == P.pb(v)[..39] && WithAd(P, s, ad)[39] == XorByte(P.pb(v)[39], 0x80)
  {
    hide XorByte;
    assert ad[..16] == ad && ad[16..] == [] && [] + PAD == PAD;
    assert u == XorAt(s, 0, ad[..16]);
    assert v == XorAt(P.pb(u), 0, PAD);
    assert Blocks(P.pb, 16, P.pb(u), []).s == v;
    assert Blocks(P.pb, 16, s, ad).s == v;
  }

  /** Data shorter than a block: ciphertext out of the first bytes, which stay in
      the state, and the padding behind them. */
  lemma ShortDataInBytes(p: Perm, rate: nat, s: State, d: seq<byte>, u: State)
    requires |d| < rate < STATE_SZ
    requires forall j :: 0 <= j < STATE_SZ ==>
               u[j] == if j < |d| then XorByte(s[j], d[j]) else if j == |d| then XorByte(s[j], 0x01) else s[j]
    ensures var b := Blocks(p, rate, s, d);
            b.s == u && forall j :: 0 <= j < |d| ==> b.out[j] == XorByte(s[j], d[j])
  {
    hide XorByte;
    assert u == XorAt(s, 0, d + PAD);
  }

  /** A whole block comes out added to the state and is permuted. */
  lemma LongDataInBytes(p: Perm, rate: nat, s: State, d: seq<byte>, u: State)
    requires 0 < rate <= |d| && rate < STATE_SZ
    requires forall j :: 0 <= j < STATE_SZ ==> u[j] == if j < rate then XorByte(s[j], d[j]) else s[j]
    ensures Blocks(p, rate, s, d).s == Blocks(p, rate, p(u), d[rate..]).s
    ensures Blocks(p, rate, s, d).out == u[..rate] + Blocks(p, rate, p(u), d[rate..]).out
  {
    hide XorByte;
    assert u == XorAt(s, 0, d[..rate]);
  }

  /** Finalization: the key goes into bytes 16 to 31, and again into the tag. */
  lemma TagInBytes(P: Perms, key: Block, s: State, u: State)
    requires forall j :: 0 <= j < STATE_SZ ==> u[j] == if 16 <= j < 32 then XorByte(s[j], key[j - 16]) else s[j]
    ensures forall j :: 0 <= j < 16 ==> Tag(Finalized(P, key, s))[j] == XorByte(P.pa(u)[24 + j], key[j])
  {
    hide XorByte;
    assert u == XorAt(s, 16, key);
  }

  /** Sealing in these terms: rate sixteen, the second permutation between
      blocks, from the state after the AD to the tag. */
  lemma SealInStages(P: Perms, key: Block, nonce: Block, ad: seq<byte>, pt: seq<byte>)
    ensures var s := WithAd(P, Initialized(P, key, nonce), ad);
            var b := Blocks(P.pb, 16, s, pt);
            Seal(P, key, nonce, ad, pt) == Sealed(b.out, Tag(Finalized(P, key, b.s)))
  {
  }

  /** Section 5.1 of SP 800-232 for a message within one block: the permuted
      initial value, the padded message added, and four times eight bytes, each
      after a permutation. */
  lemma ShortHashInBytes(pa: Perm, msg: seq<byte>, h: State, u: State)
    requires |msg| < 8
    requires h[..8] == [0x02, 0x00, 0xCC, 0x00, 0x01, 0x08, 0x00, 0x00] && forall j :: 8 <= j < STATE_SZ ==> h[j] == 0
    requires forall j :: 0 <= j < STATE_SZ ==>
               u[j] == if j < |msg| then XorByte(pa(h)[j], msg[j])
                       else if j == |msg| then XorByte(pa(h)[j], 0x01) else pa(h)[j]
    ensures Hash(pa, msg) == pa(u)[..8] + pa(pa(u))[..8] + pa(pa(pa(u)))[..8] + pa(pa(pa(pa(u))))[..8]
  {
    hide XorByte;
    assert h == HASH_IV + seq(32, i => 0);
    ShortDataInBytes(pa, 8, pa(h), msg, u);
    FourWords(pa, u);
  }

  lemma FourWords(pa: Perm, u: State)
    ensures Squeeze(pa, u, 4) == pa(u)[..8] + pa(pa(u))[..8] + pa(pa(pa(u)))[..8] + pa(pa(pa(pa(u))))[..8]
  {
    assert Permuted(pa, u, 0) == u;
    assert Permuted(pa, u, 1) == pa(u);
    assert Permuted(pa, u, 2) == pa(pa(u));
    assert Permuted(pa, u, 3) == pa(pa(pa(u)));
    hide Permuted;
    var a, b, c := pa(u)[..8], pa(pa(u))[..8], pa(pa(pa(u)))[..8];
    assert Squeeze(pa, u, 0) == [];
    assert [] + a == a;
    assert Squeeze(pa, u, 1) == a;
    assert Squeeze(pa, u, 2) == a + b;
    assert Squeeze(pa, u, 3) == a + b + c;
  }

  /** Whole blocks of the message come before: rate eight, one permutation
      after each. */
  lemma LongHashInBytes(pa: Perm, msg: seq<byte>, h: State)
    requires h[..8] == [0x02, 0x00, 0xCC, 0x00, 0x01, 0x08, 0x00, 0x00] && forall j :: 8 <= j < STATE_SZ ==> h[j] == 0
    ensures Hash(pa, msg) == Squeeze(pa, Blocks(pa, 8, pa(h), msg).s, 4)
  {
    assert h == HASH_IV + seq(32, i => 0);
  }
}
