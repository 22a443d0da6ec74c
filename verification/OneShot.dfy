/** Ascon-AEAD128 and Ascon-Hash256 block by block, as sections 4.1 and 5.1 of
    NIST SP 800-232 define them, and the one-shot drivers of
    verify_ascon_32bit.c proved against that definition. */
module OneShot {
  import opened Sponge

  const AEAD_RATE: nat := 16
  const HASH_RATE: nat := 8

  /** The two permutations of the mode: 12 rounds and 8 rounds. */
  datatype Perms = Perms(pa: Perm, pb: Perm)

  type Block = b: seq<byte> | |b| == 16 witness seq(16, i => 0)

  const ZERO_BLOCK: Block := [0, 0, 0, 0, 0, 0, 0, 0, 0, 0, 0, 0, 0, 0, 0, 0]

  /** The initial values, as the eight bytes s64[0] has in memory. */
  const AEAD_IV: seq<byte> := [0x01, 0x00, 0x8C, 0x80, 0x00, 0x10, 0x00, 0x00]
  const HASH_IV: seq<byte> := [0x02, 0x00, 0xCC, 0x00, 0x01, 0x08, 0x00, 0x00]

  const PAD: seq<byte> := [0x01]

  /** 1 << 63 in s64[4] is the top bit of the last byte of the state. */
  const DOMAIN_SEPARATOR: seq<byte> := [0x80]

  datatype Blocked = Blocked(s: State, out: seq<byte>)

  /** Whole blocks with a permutation after each, then the padded rest. */
  function Blocks(p: Perm, rate: nat, s: State, d: seq<byte>): (r: Blocked)
    requires 0 < rate < STATE_SZ
    ensures |r.out| == |d|
    decreases |d|
  {
    if |d| < rate then
      Blocked(XorAt(s, 0, d + PAD), XorAt(s, 0, d)[..|d|])
    else
      var t: State := XorAt(s, 0, d[..rate]);
      var r := Blocks(p, rate, p(t), d[rate..]);
      Blocked(r.s, t[..rate] + r.out)
  }

  lemma BlocksOfLong(p: Perm, rate: nat, s: State, d: seq<byte>)
    requires 0 < rate < STATE_SZ && rate <= |d|
    ensures Blocks(p, rate, s, d).s == Blocks(p, rate, p(XorAt(s, 0, d[..rate])), d[rate..]).s
  {
    hide XorByte, XorAt;
  }

  lemma BlocksOfShort(p: Perm, rate: nat, s: State, d: seq<byte>)
    requires |d| < rate < STATE_SZ
    ensures Blocks(p, rate, s, d).s == XorAt(XorAt(s, 0, d), |d|, PAD)
  {
    hide XorByte, XorAt;
    PadAfter(s, d);
  }

  /** Part way through: s and the rest d still lead to b, given the output so far. */
  ghost predicate Toward(p: Perm, rate: nat, s: State, d: seq<byte>, done: seq<byte>, b: Blocked)
    requires 0 < rate < STATE_SZ
  {
    Blocks(p, rate, s, d).s == b.s && done + Blocks(p, rate, s, d).out == b.out
  }

  lemma TowardStart(p: Perm, rate: nat, s: State, d: seq<byte>)
    requires 0 < rate < STATE_SZ
    ensures Toward(p, rate, s, d, [], Blocks(p, rate, s, d))
  {
  }

  lemma TowardBlock(p: Perm, rate: nat, s: State, d: seq<byte>, done: seq<byte>, b: Blocked)
    requires 0 < rate < STATE_SZ && rate <= |d| && Toward(p, rate, s, d, done, b)
    ensures var t := XorAt(s, 0, d[..rate]);
            Toward(p, rate, p(t), d[rate..], done + t[..rate], b)
  {
    hide XorByte, XorAt;
    var t := XorAt(s, 0, d[..rate]);
    var r := Blocks(p, rate, p(t), d[rate..]).out;
    assert done + (t[..rate] + r) == (done + t[..rate]) + r;
  }

  lemma TowardEnd(p: Perm, rate: nat, s: State, d: seq<byte>, done: seq<byte>, b: Blocked)
    requires 0 < rate < STATE_SZ && |d| < rate && Toward(p, rate, s, d, done, b)
    ensures var t := XorAt(s, 0, d);
            b == Blocked(XorAt(t, |d|, PAD), done + t[..|d|])
  {
    hide XorByte;
    PadAfter(s, d);
  }

  function Loaded(key: Block, nonce: Block): State {
    AEAD_IV + key + nonce
  }

  /** Key added to the last two words. */
  function WithKey(s: State, key: Block): State {
    XorAt(s, 24, key)
  }

  function Initialized(P: Perms, key: Block, nonce: Block): State {
    WithKey(P.pa(Loaded(key, nonce)), key)
  }

  /** Associated data: padded blocks unless there is none, then the separator. */
  function WithAd(P: Perms, s: State, ad: seq<byte>): State {
    XorAt(if ad == [] then s else P.pb(Blocks(P.pb, AEAD_RATE, s, ad).s), 39, DOMAIN_SEPARATOR)
  }

  function Started(P: Perms, key: Block, nonce: Block, ad: seq<byte>): State {
    WithAd(P, Initialized(P, key, nonce), ad)
  }

  /** Finalization, from the state with the last block absorbed and padded. */
  function Finalized(P: Perms, key: Block, s: State): State {
    WithKey(P.pa(XorAt(s, 16, key)), key)
  }

  function Tag(s: State): Block {
    s[24..40]
  }

  datatype Sealed = Sealed(ct: seq<byte>, tag: Block)

  function Seal(P: Perms, key: Block, nonce: Block, ad: seq<byte>, pt: seq<byte>): (r: Sealed)
    ensures |r.ct| == |pt|
  {
    var b := Blocks(P.pb, AEAD_RATE, Started(P, key, nonce, ad), pt);
    Sealed(b.out, Tag(Finalized(P, key, b.s)))
  }

  function HashStart(pa: Perm): State {
    pa(HASH_IV + seq(32, i => 0))
  }

  function Squeeze(pa: Perm, s: State, n: nat): (r: seq<byte>)
    ensures |r| == n * HASH_RATE
  {
    if n == 0 then [] else Squeeze(pa, s, n - 1) + Permuted(pa, s, n)[..HASH_RATE]
  }

  function Permuted(pa: Perm, s: State, n: nat): State {
    if n == 0 then s else pa(Permuted(pa, s, n - 1))
  }

  function Hash(pa: Perm, msg: seq<byte>): (r: seq<byte>)
    ensures |r| == 32
  {
    Squeeze(pa, Blocks(pa, HASH_RATE, HashStart(pa), msg).s, 4)
  }

  // ----------------------------------------- the byte-wise sponge agrees

  function Padded(c: Cursor): State
    requires c.pos < STATE_SZ
  {
    XorAt(c.s, c.pos, PAD)
  }

  lemma PadAfter(s: State, d: seq<byte>)
    requires |d| < STATE_SZ
    ensures XorAt(XorAt(s, 0, d), |d|, PAD) == XorAt(s, 0, d + PAD)
  {
    hide XorByte;
  }

  /** Feeding byte by byte from a block boundary, then padding, is the
      block-wise definition. */
  lemma {:induction false} FeedIsBlocks(p: Perm, rate: nat, s: State, d: seq<byte>)
    requires 0 < rate < STATE_SZ
    ensures var f := Feed(p, rate, Enc, Cursor(s, 0), d);
            Blocked(Padded(f.c), f.out) == Blocks(p, rate, s, d)
    decreases |d|
  {
    hide XorByte, Step, XorAt, Feed;
    if |d| < rate {
      FeedWithinBlock(p, rate, Enc, Cursor(s, 0), d);
      PadAfter(s, d);
    } else {
      FeedWithinBlock(p, rate, Enc, Cursor(s, 0), d[..rate]);
      var t: State := XorAt(s, 0, d[..rate]);
      FeedIsBlocks(p, rate, p(t), d[rate..]);
      FeedAppend(p, rate, Enc, Cursor(s, 0), d[..rate], d[rate..]);
      assert d[..rate] + d[rate..] == d;
    }
  }
}
