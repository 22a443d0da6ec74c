/** When the AD of the OpenSSL port comes out as section 4.1 of NIST SP 800-232
    and wolfSSL have it: the exact condition, and what keeps it true. */
module OsslAad {
  import opened Wrappers
  import opened Sponge
  import opened OneShot
  import opened OsslCalls

  /** b has absorbed ad, starting from s0: what still waits in adPart would
      bring the sponge where byte-wise feeding is. */
  ghost predicate Absorbed(pb: Perm, s0: State, ad: seq<byte>, b: AdBuf) {
    b.sz < AEAD_RATE
    && Feed(pb, AEAD_RATE, Enc, Cursor(s0, 0), ad).c == Cursor(XorAt(b.s, 0, b.part[..b.sz]), b.sz)
  }

  /** The bytes of adPart beyond the waiting ones are zero. */
  predicate TailZero(b: AdBuf) {
    forall i :: b.sz <= i < AEAD_RATE ==> b.part[i] == 0
  }

  ghost predicate Injective(p: Perm) {
    forall a: State, b: State :: p(a) == p(b) ==> a == b
  }

  lemma AbsorbedStarts(pb: Perm, s0: State, part: Block)
    ensures Absorbed(pb, s0, [], AdBuf(s0, part, 0))
  {
    assert XorAt(s0, 0, []) == s0;
  }

  lemma {:induction false} AbsorbBlocksAbsorbs(pb: Perm, s0: State, ad: seq<byte>, b: AdBuf, d: seq<byte>)
    requires b.sz == 0 && Absorbed(pb, s0, ad, b)
    ensures Absorbed(pb, s0, ad + d, AbsorbBlocks(pb, b, d))
    decreases |d|
  {
    hide Feed, Step, XorByte, XorAt, PutAt;
    NothingXored(b.s);
    assert b.part[..0] == [];
    if |d| >= AEAD_RATE {
      var x := d[..AEAD_RATE];
      FeedAppend(pb, AEAD_RATE, Enc, Cursor(s0, 0), ad, x);
      FeedWithinBlock(pb, AEAD_RATE, Enc, Cursor(b.s, 0), x);
      var b1 := AdBuf(pb(XorAt(b.s, 0, x)), b.part, 0);
      NothingXored(b1.s);
      AbsorbBlocksAbsorbs(pb, s0, ad + x, b1, d[AEAD_RATE..]);
      assert ad + d == (ad + x) + d[AEAD_RATE..];
    } else if d == [] {
      assert ad + d == ad;
    } else {
      FeedAppend(pb, AEAD_RATE, Enc, Cursor(s0, 0), ad, d);
      FeedWithinBlock(pb, AEAD_RATE, Enc, Cursor(b.s, 0), d);
      assert PutAt(b.part, 0, d)[..|d|] == d;
    }
  }

  lemma NothingXored(s: State)
    ensures XorAt(s, 0, []) == s
  {
  }

  lemma XorTwice(s: State, a: seq<byte>, b: seq<byte>)
    requires |a| + |b| <= STATE_SZ
    ensures XorAt(XorAt(s, 0, a), |a|, b) == XorAt(s, 0, a + b)
  {
    hide XorByte;
  }

  /** One absorb_aad call absorbs exactly its bytes, whatever adPart held. */
  lemma AbsorbAbsorbs(pb: Perm, s0: State, ad: seq<byte>, b: AdBuf, d: seq<byte>)
    requires Absorbed(pb, s0, ad, b)
    ensures Absorbed(pb, s0, ad + d, Absorb(pb, b, d))
  {
    hide Feed, Step, XorByte, XorAt, PutAt, AbsorbBlocks;
    if b.sz == 0 {
      AbsorbBlocksAbsorbs(pb, s0, ad, b, d);
    } else {
      var n := if Flushes(b, d) then AEAD_RATE - b.sz else |d|;
      var x := d[..n];
      XorTwice(b.s, b.part[..b.sz], x);
      FeedAppend(pb, AEAD_RATE, Enc, Cursor(s0, 0), ad, x);
      FeedWithinBlock(pb, AEAD_RATE, Enc, Cursor(XorAt(b.s, 0, b.part[..b.sz]), b.sz), x);
      assert PutAt(b.part, b.sz, x)[..b.sz + n] == b.part[..b.sz] + x;
      if Flushes(b, d) {
        var block := FlushedBlock(b, d);
        assert block[..AEAD_RATE] == block;
        var b1 := AdBuf(pb(XorAt(b.s, 0, block)), block, 0);
        NothingXored(b1.s);
        AbsorbBlocksAbsorbs(pb, s0, ad + x, b1, d[n..]);
        assert ad + d == (ad + x) + d[n..];
      } else {
        assert x == d;
      }
    }
  }

  // -------------------------------------------------- agreement at the close

  /** XORing two buffers into a state gives the same state only for the same
      buffer. */
  lemma XorAtCancels(s: State, a: seq<byte>, b: seq<byte>)
    requires |a| == |b| <= STATE_SZ
    ensures XorAt(s, 0, a) == XorAt(s, 0, b) ==> a == b
  {
    hide XorByte;
    if XorAt(s, 0, a) == XorAt(s, 0, b) {
      forall i | 0 <= i < |a|
        ensures a[i] == b[i]
      {
        assert XorAt(s, 0, a)[i] == XorAt(s, 0, b)[i];
        XorByteLaws(s[i], a[i]);
        XorByteLaws(s[i], b[i]);
      }
    }
  }

  lemma XorZeroByte(x: byte)
    ensures XorByte(x, 0) == x
    ensures XorByte(x, 0x01) == 0x01 <==> x == 0
  {
  }

  /** The padded adPart is the padded tail of the AD, filled up with zeros,
      exactly when the stale bytes are zero. */
  lemma PaddedPart(b: AdBuf)
    requires 0 < b.sz < AEAD_RATE
    ensures XorAt(b.part, b.sz, PAD) == b.part[..b.sz] + PAD + seq(15 - b.sz, i => 0) <==> TailZero(b)
  {
    hide XorByte;
    var p, q := XorAt(b.part, b.sz, PAD), b.part[..b.sz] + PAD + seq(15 - b.sz, i => 0);
    XorZeroByte(b.part[b.sz]);
    if p == q {
      forall i | b.sz <= i < AEAD_RATE
        ensures b.part[i] == 0
      {
        assert p[i] == q[i];
      }
    }
  }

  lemma ZerosXored(s: State, d: seq<byte>, n: nat)
    requires |d| + n <= STATE_SZ
    ensures XorAt(s, 0, d + seq(n, i => 0)) == XorAt(s, 0, d)
  {
    hide XorByte;
    forall i | 0 <= i < STATE_SZ
      ensures XorAt(s, 0, d + seq(n, i => 0))[i] == XorAt(s, 0, d)[i]
    {
      XorZeroByte(s[i]);
    }
  }

  /** The state that holds the last whole block of the AD, before its
      permutation. */
  function LastBlockIn(pb: Perm, s0: State, ad: seq<byte>): State
    requires |ad| >= AEAD_RATE
  {
    var m := |ad| - AEAD_RATE;
    XorAt(Feed(pb, AEAD_RATE, Enc, Cursor(s0, 0), ad[..m]).c.s, 0, ad[m..])
  }

  lemma LastBlockPermuted(pb: Perm, s0: State, ad: seq<byte>, b: AdBuf)
    requires Absorbed(pb, s0, ad, b) && ad != [] && |ad| % AEAD_RATE == 0
    ensures b.sz == 0 && b.s == pb(LastBlockIn(pb, s0, ad))
  {
    hide Feed, XorAt, Step;
    var m := |ad| - AEAD_RATE;
    var f := Feed(pb, AEAD_RATE, Enc, Cursor(s0, 0), ad[..m]);
    assert ad[..m] + ad[m..] == ad;
    PositionIsLength(pb, s0, ad[..m]);
    PositionIsLength(pb, s0, ad);
    FeedAppend(pb, AEAD_RATE, Enc, Cursor(s0, 0), ad[..m], ad[m..]);
    FeedWithinBlock(pb, AEAD_RATE, Enc, f.c, ad[m..]);
    NothingXored(b.s);
    assert b.part[..0] == [];
  }

  lemma PadTwice(s: State)
    ensures XorAt(XorAt(s, 0, PAD), 0, PAD) == s
  {
    hide XorByte;
    XorByteLaws(s[0], 0x01);
  }

  /** A padding block more or less, by injectivity. */
  lemma PaddingAfter(pb: Perm, t: State)
    requires Injective(pb)
    ensures pb(XorAt(pb(t), 0, PAD)) == pb(t) <==> pb(t) == XorAt(t, 0, PAD)
  {
    hide XorAt;
    PadTwice(t);
    PadTwice(pb(t));
  }

  /** The state aad_finalize leaves equals the standard's exactly when there is
      no AD; or its last block is partial and the stale bytes of adPart are
      zero; or, the port adding no padding block after a whole last block, when
      the permutation does no more to that block than the padding would. */
  lemma ClosedAdExactly(P: Perms, s0: State, ad: seq<byte>, b: AdBuf)
    requires Absorbed(P.pb, s0, ad, b) && Injective(P.pb)
    ensures ClosedAd(P, b) == WithAd(P, s0, ad)
            <==> (ad == []
                  || (|ad| % AEAD_RATE != 0 && TailZero(b))
                  || (|ad| % AEAD_RATE == 0 && var t := LastBlockIn(P.pb, s0, ad); P.pb(t) == XorAt(t, 0, PAD)))
  {
    hide Feed, XorAt, Blocks, TailZero, LastBlockIn;
    PositionIsLength(P.pb, s0, ad);
    DomainCancels(if b.sz == 0 then b.s else P.pb(XorAt(b.s, 0, XorAt(b.part, b.sz, PAD))),
                  if ad == [] then s0 else P.pb(Blocks(P.pb, AEAD_RATE, s0, ad).s));
    FeedIsBlocks(P.pb, AEAD_RATE, s0, ad);
    var tail := b.part[..b.sz];
    XorTwice(b.s, tail, PAD);
    if ad == [] {
      FeedNothing(P.pb, AEAD_RATE, Enc, Cursor(s0, 0));
      NothingXored(b.s);
    } else if b.sz == 0 {
      assert tail + PAD == PAD;
      LastBlockPermuted(P.pb, s0, ad, b);
      PaddingAfter(P.pb, LastBlockIn(P.pb, s0, ad));
    } else {
      var p, q := XorAt(b.part, b.sz, PAD), tail + PAD + seq(15 - b.sz, i => 0);
      ZerosXored(b.s, tail + PAD, 15 - b.sz);
      XorAtCancels(b.s, p, q);
      PaddedPart(b);
    }
  }

  lemma DomainCancels(s: State, t: State)
    ensures XorAt(s, 39, DOMAIN_SEPARATOR) == XorAt(t, 39, DOMAIN_SEPARATOR) <==> s == t
  {
    hide XorByte;
    var a, b := XorAt(s, 39, DOMAIN_SEPARATOR), XorAt(t, 39, DOMAIN_SEPARATOR);
    XorByteLaws(s[39], 0x80);
    XorByteLaws(t[39], 0x80);
    if a == b {
      forall i | 0 <= i < STATE_SZ
        ensures s[i] == t[i]
      {
        assert a[i] == b[i];
      }
    }
  }

  lemma {:induction false} PositionIsLength(p: Perm, s0: State, d: seq<byte>)
    ensures Feed(p, AEAD_RATE, Enc, Cursor(s0, 0), d).c.pos == |d| % AEAD_RATE
  {
    hide XorByte, Step;
    if d != [] {
      var init := d[..|d| - 1];
      PositionIsLength(p, s0, init);
      StepMoves(p, Feed(p, AEAD_RATE, Enc, Cursor(s0, 0), init).c, d[|d| - 1]);
    }
  }

  lemma StepMoves(p: Perm, c: Cursor, b: byte)
    requires c.pos < AEAD_RATE
    ensures Step(p, AEAD_RATE, Enc, c, b).pos == (c.pos + 1) % AEAD_RATE
  {
    hide XorByte;
  }

  // ------------------------------------------------- what keeps the tail zero

  lemma {:induction false} AbsorbBlocksLeaves(pb: Perm, b: AdBuf, d: seq<byte>)
    requires b.sz == 0
    ensures var r := AbsorbBlocks(pb, b, d);
            var n := |d| % AEAD_RATE;
            r.sz == n && r.part == PutAt(b.part, 0, d[|d| - n..])
    decreases |d|
  {
    hide XorByte, XorAt, PutAt, AbsorbBlocks;
    AbsorbBlocksStep(pb, b, d);
    var n := |d| % AEAD_RATE;
    if |d| >= AEAD_RATE {
      var b1, rest := b.(s := pb(XorAt(b.s, 0, d[..AEAD_RATE]))), d[AEAD_RATE..];
      AbsorbBlocksLeaves(pb, b1, rest);
      assert |rest| % AEAD_RATE == n;
      assert rest[|rest| - n..] == d[|d| - n..];
    } else {
      assert n == |d| && d[0..] == d;
      NothingPut(b.part, 0);
    }
  }

  /** After any call the stale bytes are those of the block it flushed, from
      the new tail's length on; or, flushing none, those that were there. */
  lemma TailZeroExactly(pb: Perm, b: AdBuf, d: seq<byte>)
    requires b.sz < AEAD_RATE
    ensures var n := (b.sz + |d|) % AEAD_RATE;
            var left := if Flushes(b, d) then FlushedBlock(b, d) else b.part;
            TailZero(Absorb(pb, b, d)) <==> forall i :: n <= i < AEAD_RATE ==> left[i] == 0
  {
    hide XorByte, XorAt, AbsorbBlocks, PutAt;
    var r, n := Absorb(pb, b, d), (b.sz + |d|) % AEAD_RATE;
    var left := if Flushes(b, d) then FlushedBlock(b, d) else b.part;
    if b.sz == 0 {
      AbsorbBlocksLeaves(pb, b, d);
    } else if Flushes(b, d) {
      var rest := d[AEAD_RATE - b.sz..];
      AbsorbBlocksLeaves(pb, AdBuf(pb(XorAt(b.s, 0, left)), left, 0), rest);
      assert |rest| % AEAD_RATE == n;
    }
    hide Absorb, Flushes, FlushedBlock;
    assert r.sz == n;
    assert forall i :: n <= i < AEAD_RATE ==> r.part[i] == left[i];
  }

  /** The buffer after the AD ad: the AD's last bytes wait, the rest is stale. */
  predicate Buffered(ad: seq<byte>, stale: Block, b: AdBuf) {
    b.sz == |ad| % AEAD_RATE && b.part[..b.sz] == ad[|ad| - b.sz..] && b.part[b.sz..] == stale[b.sz..]
  }

  /** The block that the next call d completes from bytes left waiting by ad. */
  function Completed(ad: seq<byte>, d: seq<byte>): Option<Block> {
    var sz := |ad| % AEAD_RATE;
    if 0 < sz && sz + |d| >= AEAD_RATE then Some((ad + d)[|ad| - sz..|ad| - sz + AEAD_RATE]) else None
  }

  /** The last block so completed by any of the calls that follow ad. */
  function LastFlushed(ad: seq<byte>, calls: seq<seq<byte>>): Option<Block>
    decreases |calls|
  {
    if calls == [] then None
    else
      var later := LastFlushed(ad + calls[0], calls[1..]);
      if later.Some? then later else Completed(ad, calls[0])
  }

  lemma TailAfterBlocks(ad: seq<byte>, d: seq<byte>)
    requires |ad| % AEAD_RATE == 0
    ensures var n := |d| % AEAD_RATE;
            |ad + d| % AEAD_RATE == n && (ad + d)[|ad + d| - n..] == d[|d| - n..]
  {
  }

  lemma PutSplits(part: Block, at: nat, d: seq<byte>)
    requires at + |d| <= AEAD_RATE
    ensures var p := PutAt(part, at, d);
            p[..at + |d|] == part[..at] + d && p[at + |d|..] == part[at + |d|..]
  {
  }

  lemma AbsorbBlocksBuffers(pb: Perm, ad: seq<byte>, b: AdBuf, d: seq<byte>)
    requires b.sz == 0 && |ad| % AEAD_RATE == 0
    ensures Buffered(ad + d, b.part, AbsorbBlocks(pb, b, d))
  {
    hide XorAt, PutAt, AbsorbBlocks;
    AbsorbBlocksLeaves(pb, b, d);
    TailAfterBlocks(ad, d);
    PutSplits(b.part, 0, d[|d| - |d| % AEAD_RATE..]);
    assert b.part[..0] == [];
  }

  lemma AbsorbBuffers(pb: Perm, ad: seq<byte>, stale: Block, b: AdBuf, d: seq<byte>)
    requires Buffered(ad, stale, b)
    ensures Buffered(ad + d, OrElse(Completed(ad, d), stale), Absorb(pb, b, d))
  {
    hide XorAt, PutAt, AbsorbBlocks;
    if b.sz == 0 {
      assert b.part == stale by {
        assert b.part[0..] == b.part && stale[0..] == stale;
      }
      AbsorbBlocksBuffers(pb, ad, b, d);
    } else if Flushes(b, d) {
      FlushBuffers(pb, ad, stale, b, d);
    } else {
      WaitBuffers(pb, ad, stale, b, d);
    }
  }

  lemma FlushBuffers(pb: Perm, ad: seq<byte>, stale: Block, b: AdBuf, d: seq<byte>)
    requires Buffered(ad, stale, b) && Flushes(b, d)
    ensures Completed(ad, d) == Some(FlushedBlock(b, d))
    ensures Buffered(ad + d, FlushedBlock(b, d), Absorb(pb, b, d))
  {
    hide XorAt, PutAt, AbsorbBlocks;
    var n := AEAD_RATE - b.sz;
    var block, rest, whole := FlushedBlock(b, d), d[n..], ad + d[..n];
    assert block == b.part[..b.sz] + d[..n];
    assert (ad + d)[|ad| - b.sz..|ad| - b.sz + AEAD_RATE] == ad[|ad| - b.sz..] + d[..n];
    assert |whole| % AEAD_RATE == 0;
    AbsorbBlocksBuffers(pb, whole, AdBuf(pb(XorAt(b.s, 0, block)), block, 0), rest);
    assert whole + rest == ad + d;
  }

  lemma WaitBuffers(pb: Perm, ad: seq<byte>, stale: Block, b: AdBuf, d: seq<byte>)
    requires Buffered(ad, stale, b) && b.sz > 0 && !Flushes(b, d)
    ensures Completed(ad, d) == None && Buffered(ad + d, stale, Absorb(pb, b, d))
  {
    hide XorAt, PutAt, AbsorbBlocks;
    var n := b.sz + |d|;
    assert |ad + d| % AEAD_RATE == n;
    PutSplits(b.part, b.sz, d);
    assert (ad + d)[|ad + d| - n..] == ad[|ad| - b.sz..] + d;
    assert b.part[n..] == b.part[b.sz..][|d|..] && stale[n..] == stale[b.sz..][|d|..];
  }

  function AbsorbCalls(pb: Perm, b: AdBuf, calls: seq<seq<byte>>): (r: AdBuf)
    requires b.sz < AEAD_RATE
    ensures r.sz < AEAD_RATE
    decreases |calls|
  {
    if calls == [] then b else AbsorbCalls(pb, Absorb(pb, b, calls[0]), calls[1..])
  }

  /** No call of the list completes a block already waiting, given that sz
      bytes wait before the first: a condition on lengths alone. */
  predicate NeverFlushes(sz: nat, calls: seq<seq<byte>>)
    decreases |calls|
  {
    calls == [] || (!(0 < sz && sz + |calls[0]| >= AEAD_RATE)
                    && NeverFlushes((sz + |calls[0]|) % AEAD_RATE, calls[1..]))
  }

  /** Which is to say that LastFlushed finds no block. */
  lemma {:induction false} NeverFlushesExactly(ad: seq<byte>, calls: seq<seq<byte>>)
    ensures NeverFlushes(|ad| % AEAD_RATE, calls) <==> LastFlushed(ad, calls).None?
    decreases |calls|
  {
    if calls != [] {
      NeverFlushesExactly(ad + calls[0], calls[1..]);
      assert |ad + calls[0]| % AEAD_RATE == (|ad| % AEAD_RATE + |calls[0]|) % AEAD_RATE;
    }
  }

  lemma {:induction false} CallsAbsorb(pb: Perm, s0: State, ad: seq<byte>, stale: Block, b: AdBuf, calls: seq<seq<byte>>)
    requires Absorbed(pb, s0, ad, b) && Buffered(ad, stale, b)
    ensures var r := AbsorbCalls(pb, b, calls);
            && Absorbed(pb, s0, ad + Flatten(calls), r)
            && Buffered(ad + Flatten(calls), OrElse(LastFlushed(ad, calls), stale), r)
    decreases |calls|
  {
    hide Absorb, Feed, Completed, Buffered;
    if calls == [] {
      assert ad + Flatten(calls) == ad;
    } else {
      AbsorbAbsorbs(pb, s0, ad, b, calls[0]);
      AbsorbBuffers(pb, ad, stale, b, calls[0]);
      CallsAbsorb(pb, s0, ad + calls[0], OrElse(Completed(ad, calls[0]), stale), Absorb(pb, b, calls[0]), calls[1..]);
      assert ad + Flatten(calls) == (ad + calls[0]) + Flatten(calls[1..]);
    }
  }

  /** No byte of the last flushed block is left over where zeros should be: a
      condition on the AD and how it is cut, in advance of any call. */
  predicate StaleZero(calls: seq<seq<byte>>) {
    var last := LastFlushed([], calls);
    last.Some? ==> forall i :: |Flatten(calls)| % AEAD_RATE <= i < AEAD_RATE ==> last.value[i] == 0
  }

  /** From a reset adPart, over any calls. */
  lemma StaleZeroExactly(pb: Perm, s0: State, calls: seq<seq<byte>>)
    ensures var b := AbsorbCalls(pb, AdBuf(s0, ZERO_BLOCK, 0), calls);
            Absorbed(pb, s0, Flatten(calls), b) && (TailZero(b) <==> StaleZero(calls))
  {
    hide Absorbed, AbsorbCalls, LastFlushed, Flatten, TailZero;
    var b0 := AdBuf(s0, ZERO_BLOCK, 0);
    AbsorbedStarts(pb, s0, ZERO_BLOCK);
    CallsAbsorb(pb, s0, [], ZERO_BLOCK, b0, calls);
    assert [] + Flatten(calls) == Flatten(calls);
    TailIsStale(Flatten(calls), OrElse(LastFlushed([], calls), ZERO_BLOCK), AbsorbCalls(pb, b0, calls));
  }

  lemma TailIsStale(ad: seq<byte>, stale: Block, b: AdBuf)
    requires Buffered(ad, stale, b)
    ensures TailZero(b) <==> forall i :: |ad| % AEAD_RATE <= i < AEAD_RATE ==> stale[i] == 0
  {
    forall i | b.sz <= i < AEAD_RATE
      ensures b.part[i] == stale[i]
    {
      assert b.part[b.sz..][i - b.sz] == stale[b.sz..][i - b.sz];
    }
  }

  /** For every AD, however it is cut into calls: the state the port goes on
      with is the standard's exactly when there is no AD; or a part of a block
      is left and either no call flushed or the last flushed block ends in
      zeros from that length on; or none is left and the permutation acts on
      the last block like the padding. */
  lemma AadInCallsExactly(P: Perms, s0: State, calls: seq<seq<byte>>)
    requires Injective(P.pb)
    ensures var ad := Flatten(calls);
            ClosedAd(P, AbsorbCalls(P.pb, AdBuf(s0, ZERO_BLOCK, 0), calls)) == WithAd(P, s0, ad)
            <==> (ad == []
                  || (|ad| % AEAD_RATE != 0 && StaleZero(calls))
                  || (|ad| % AEAD_RATE == 0 && var t := LastBlockIn(P.pb, s0, ad); P.pb(t) == XorAt(t, 0, PAD)))
  {
    hide Absorbed, AbsorbCalls, ClosedAd, WithAd, Flatten, StaleZero, TailZero, LastBlockIn, XorAt;
    StaleZeroExactly(P.pb, s0, calls);
    ClosedAdExactly(P, s0, Flatten(calls), AbsorbCalls(P.pb, AdBuf(s0, ZERO_BLOCK, 0), calls));
  }

  /** The AD conditions under which the port follows the standard, whatever
      the permutation. */
  predicate GoodAad(calls: seq<seq<byte>>) {
    Flatten(calls) == [] || (|Flatten(calls)| % AEAD_RATE != 0 && StaleZero(calls))
  }

  lemma AadInCalls(P: Perms, s0: State, calls: seq<seq<byte>>)
    requires GoodAad(calls)
    ensures ClosedAd(P, AbsorbCalls(P.pb, AdBuf(s0, ZERO_BLOCK, 0), calls)) == WithAd(P, s0, Flatten(calls))
  {
    hide Absorbed, AbsorbCalls, ClosedAd, WithAd, Flatten, StaleZero, TailZero;
    StaleZeroExactly(P.pb, s0, calls);
    ClosedAdAgrees(P, s0, Flatten(calls), AbsorbCalls(P.pb, AdBuf(s0, ZERO_BLOCK, 0), calls));
  }

  /** Calls of which none flushes meet them, by their lengths alone. */
  lemma NeverFlushingIsGood(calls: seq<seq<byte>>)
    requires NeverFlushes(0, calls) && (Flatten(calls) == [] || |Flatten(calls)| % AEAD_RATE != 0)
    ensures GoodAad(calls)
  {
    NeverFlushesExactly([], calls);
  }

  /** The direction of ClosedAdExactly that needs no injectivity. */
  lemma ClosedAdAgrees(P: Perms, s0: State, ad: seq<byte>, b: AdBuf)
    requires Absorbed(P.pb, s0, ad, b)
    requires ad == [] || (|ad| % AEAD_RATE != 0 && TailZero(b))
    ensures ClosedAd(P, b) == WithAd(P, s0, ad)
  {
    hide Feed, XorAt, Blocks;
    PositionIsLength(P.pb, s0, ad);
    FeedIsBlocks(P.pb, AEAD_RATE, s0, ad);
    var tail := b.part[..b.sz];
    XorTwice(b.s, tail, PAD);
    if ad == [] {
      FeedNothing(P.pb, AEAD_RATE, Enc, Cursor(s0, 0));
      NothingXored(b.s);
    } else {
      PaddedPart(b);
      ZerosXored(b.s, tail + PAD, 15 - b.sz);
    }
  }

  /** A single call never flushes: the AAD use the provider is written for. */
  lemma AadInOneCall(P: Perms, s0: State, ad: seq<byte>)
    requires ad == [] || |ad| % AEAD_RATE != 0
    ensures ClosedAd(P, Absorb(P.pb, AdBuf(s0, ZERO_BLOCK, 0), ad)) == WithAd(P, s0, ad)
  {
    hide Absorb, ClosedAd, WithAd;
    assert [ad][1..] == [] && ad + [] == ad && Flatten([]) == [];
    assert Flatten([ad]) == ad;
    NeverFlushingIsGood([ad]);
    AadInCalls(P, s0, [ad]);
    assert AbsorbCalls(P.pb, AdBuf(s0, ZERO_BLOCK, 0), [ad])
        == AbsorbCalls(P.pb, Absorb(P.pb, AdBuf(s0, ZERO_BLOCK, 0), ad), []);
  }

  /** Eight and then nine bytes 0xFF: the second call flushes, one byte waits
      and fifteen stale ones go in with it. For every state and every injective
      permutation the result is wrong. */
  lemma FlushedAadDiffers(P: Perms, s0: State)
    requires Injective(P.pb)
    ensures var calls := [seq(8, i => 0xFF as byte), seq(9, i => 0xFF as byte)];
            ClosedAd(P, AbsorbCalls(P.pb, AdBuf(s0, ZERO_BLOCK, 0), calls)) != WithAd(P, s0, Flatten(calls))
  {
    hide AbsorbCalls, WithAd, ClosedAd, LastBlockIn, XorAt, Flatten, LastFlushed;
    var x, y: seq<byte> := seq(8, i => 0xFF), seq(9, i => 0xFF);
    AadInCallsExactly(P, s0, [x, y]);
    TwoCallsFlush(x, y);
    assert (x + y[..8])[15] == 0xFF;
  }

  lemma TwoCallsFlush(x: seq<byte>, y: seq<byte>)
    requires |x| == 8 && |y| == 9
    ensures Flatten([x, y]) == x + y && LastFlushed([], [x, y]) == Some(x + y[..8])
  {
    assert [x, y][1..] == [y] && [y][1..] == [];
    assert Flatten([y]) == y + Flatten([]) == y;
    assert [] + x == x && Completed(x, y) == Some((x + y)[..16]);
    assert LastFlushed(x + y, []) == None && LastFlushed(x, [y]) == Completed(x, y);
    assert (x + y)[..16] == x + y[..8];
  }

  /** A later call may flush a block that ends in zeros, after which the port
      is right again: the same calls, then sixteen zero bytes. */
  lemma LaterFlushHeals(P: Perms, s0: State)
    ensures var calls := [seq(8, i => 0xFF as byte), seq(9, i => 0xFF as byte), seq(16, i => 0 as byte)];
            && !NeverFlushes(0, calls)
            && ClosedAd(P, AbsorbCalls(P.pb, AdBuf(s0, ZERO_BLOCK, 0), calls)) == WithAd(P, s0, Flatten(calls))
  {
    hide AbsorbCalls, WithAd, ClosedAd;
    var x, y, z: seq<byte> := seq(8, i => 0xFF), seq(9, i => 0xFF), seq(16, i => 0);
    ThreeCallsFlush(x, y, z);
    NeverFlushesExactly([], [x, y, z]);
    AadInCalls(P, s0, [x, y, z]);
  }

  lemma ThreeCallsFlush(x: seq<byte>, y: seq<byte>, z: seq<byte>)
    requires |x| == 8 && |y| == 9 && |z| == 16
    ensures Flatten([x, y, z]) == x + y + z && LastFlushed([], [x, y, z]) == Some(y[8..] + z[..15])
  {
    assert [x, y, z][1..] == [y, z] && [y, z][1..] == [z] && [z][1..] == [];
    assert Flatten([z]) == z + Flatten([]) == z;
    assert Flatten([y, z]) == y + z && x + (y + z) == x + y + z;
    assert [] + x == x && Completed(x + y, z) == Some((x + y + z)[16..32]);
    assert LastFlushed(x + y + z, []) == None && LastFlushed(x + y, [z]) == Completed(x + y, z);
    assert (x + y + z)[16..32] == y[8..] + z[..15];
  }
}
