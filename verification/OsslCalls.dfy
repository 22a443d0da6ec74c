/** The operations of ascon_local.h and cipher_ascon128.c as transitions of a
    context value. */
module OsslCalls {
  import opened Sponge
  import opened OneShot
  import opened Buffers

  /** ASCON_AEAD128_CTX without its scratch field ct; pos is lastBlkSz. */
  datatype Ctx = Ctx(s: State, key: Block, adPart: Block, adPartSz: nat, tag: Block, pos: nat,
                     enc: bool, adStarted: bool, adDone: bool)

  predicate Inv(c: Ctx) {
    c.pos < AEAD_RATE && c.adPartSz < AEAD_RATE
  }

  function Reset(c: Ctx, key: Block, nonce: Block): Ctx {
    Ctx(Loaded(key, nonce), key, ZERO_BLOCK, 0, c.tag, 0, c.enc, false, false)
  }

  // --------------------------------------------------------- associated data

  /** The part of the context the AD loops work on. */
  datatype AdBuf = AdBuf(s: State, part: Block, sz: nat)

  /** Whole blocks straight from the input, then the rest into adPart, whose
      other bytes keep what they held. */
  function AbsorbBlocks(pb: Perm, b: AdBuf, d: seq<byte>): (r: AdBuf)
    requires b.sz < AEAD_RATE
    ensures r.sz < AEAD_RATE
    decreases |d|
  {
    if |d| >= AEAD_RATE then
      AbsorbBlocks(pb, AdBuf(pb(XorAt(b.s, 0, d[..AEAD_RATE])), b.part, b.sz), d[AEAD_RATE..])
    else if d == [] then b
    else AdBuf(b.s, PutAt(b.part, 0, d), |d|)
  }

  /** AbsorbBlocks by one block, or its last bytes. */
  lemma AbsorbBlocksStep(pb: Perm, b: AdBuf, d: seq<byte>)
    requires b.sz < AEAD_RATE
    ensures |d| >= AEAD_RATE ==>
              AbsorbBlocks(pb, b, d)
              == AbsorbBlocks(pb, b.(s := pb(XorAt(b.s, 0, d[..AEAD_RATE]))), d[AEAD_RATE..])
    ensures 0 < |d| < AEAD_RATE ==> AbsorbBlocks(pb, b, d) == AdBuf(b.s, PutAt(b.part, 0, d), |d|)
    ensures d == [] ==> AbsorbBlocks(pb, b, d) == b
  {
    hide XorByte, XorAt, PutAt;
  }

  /** Does this call complete the block waiting in adPart? */
  predicate Flushes(b: AdBuf, d: seq<byte>) {
    0 < b.sz < AEAD_RATE && b.sz + |d| >= AEAD_RATE
  }

  function FlushedBlock(b: AdBuf, d: seq<byte>): Block
    requires Flushes(b, d)
  {
    PutAt(b.part, b.sz, d[..AEAD_RATE - b.sz])
  }

  function Absorb(pb: Perm, b: AdBuf, d: seq<byte>): (r: AdBuf)
    requires b.sz < AEAD_RATE
    ensures r.sz < AEAD_RATE
  {
    if b.sz == 0 then AbsorbBlocks(pb, b, d)
    else if Flushes(b, d) then
      var block := FlushedBlock(b, d);
      AbsorbBlocks(pb, AdBuf(pb(XorAt(b.s, 0, block)), block, 0), d[AEAD_RATE - b.sz..])
    else AdBuf(b.s, PutAt(b.part, b.sz, d), b.sz + |d|)
  }

  function Buf(c: Ctx): AdBuf {
    AdBuf(c.s, c.adPart, c.adPartSz)
  }

  function StartAd(P: Perms, c: Ctx): Ctx {
    if c.adStarted then c else c.(s := WithKey(P.pa(c.s), c.key), adStarted := true)
  }

  function AbsorbAad(P: Perms, c: Ctx, ad: seq<byte>): (r: Ctx)
    requires Inv(c)
    ensures Inv(r)
  {
    var c1 := StartAd(P, c);
    var b := Absorb(P.pb, Buf(c1), ad);
    c1.(s := b.s, adPart := b.part, adPartSz := b.sz)
  }

  /** All sixteen bytes of adPart go in, stale ones included; an empty adPart
      adds no block at all. */
  function ClosedAd(P: Perms, b: AdBuf): State
    requires b.sz < AEAD_RATE
  {
    XorAt(if b.sz == 0 then b.s else P.pb(XorAt(b.s, 0, XorAt(b.part, b.sz, PAD))), 39, DOMAIN_SEPARATOR)
  }

  function AadFinalize(P: Perms, c: Ctx): (r: Ctx)
    requires Inv(c)
    ensures Inv(r) && r.adDone && r.adPartSz <= c.adPartSz
    ensures r.key == c.key && r.tag == c.tag && r.pos == c.pos && r.enc == c.enc
  {
    if c.adDone then c
    else
      var s := if c.adStarted then c.s else WithKey(P.pa(c.s), c.key);
      var part := if c.adPartSz == 0 then c.adPart else XorAt(c.adPart, c.adPartSz, PAD);
      c.(s := ClosedAd(P, AdBuf(s, c.adPart, c.adPartSz)), adPart := part, adPartSz := 0, adDone := true)
  }

  // -------------------------------------------------------- data and finals

  datatype Updated = Updated(ctx: Ctx, out: seq<byte>)

  function Crypt(P: Perms, dir: Dir, c: Ctx, d: seq<byte>): (r: Updated)
    requires Inv(c)
    ensures Inv(r.ctx) && |r.out| == |d|
  {
    var c1 := AadFinalize(P, c);
    var f := Feed(P.pb, AEAD_RATE, dir, Cursor(c1.s, c1.pos), d);
    Updated(c1.(s := f.c.s, pos := f.c.pos), f.out)
  }

  datatype Verdict = Verdict(ctx: Ctx, ok: bool)

  function Final(P: Perms, c: Ctx): (r: Verdict)
    requires Inv(c)
    ensures Inv(r.ctx)
  {
    var c1 := AadFinalize(P, c);
    var s := Finalized(P, c.key, Padded(Cursor(c1.s, c1.pos)));
    if c.enc then Verdict(c1.(s := s, tag := Tag(s)), true)
    else Verdict(c1.(s := s), Tag(s) == c.tag)
  }
}
