/** Inputs on which the OpenSSL port departs from the standard, for Ascon
    itself: a zero key, a zero nonce, and the rounds computed. */
module AsconWitness {
  import opened Wrappers
  import opened Sponge
  import opened OneShot
  import opened OsslCalls
  import opened OsslAad
  import opened OsslRuns
  import opened AsconMode
  import opened AsconResults
  import opened AsconVector
  import opened Vectors
  import opened Computed
  import CrossStack

  lemma ZeroPair()
    ensures Pair(0, 0) == ZERO_BLOCK
  {
  }

  lemma ZeroStart()
    ensures Start(0, 0, 0, 0) == ZERO_OUT
  {
    ZeroInitRounds();
    hide Rounds12;
  }

  /** The state after initialization with a zero key and nonce. */
  lemma InitializedIs()
    ensures Initialized(Ascon(), ZERO_BLOCK, ZERO_BLOCK) == Bytes40(ZERO_OUT)
  {
    hide Bytes40, Pair, Start, Initialized, Ascon, ZERO_OUT;
    ZeroPair();
    ZeroStart();
    StartIs(0, 0, 0, 0);
  }

  lemma ZeroBlockXored(s: State, off: nat)
    requires off + 16 <= STATE_SZ
    ensures XorAt(s, off, ZERO_BLOCK) == s
  {
    hide XorByte;
    forall i | 0 <= i < STATE_SZ
      ensures XorAt(s, off, ZERO_BLOCK)[i] == s[i]
    {
      XorZeroByte(s[i]);
    }
  }

  // ------------------------------------------- a whole block of zero bytes

  /** Sixteen zero bytes of AD in one call: the port and the standard go on from
      different states. */
  lemma AsconWholeBlockAadDiffers()
    ensures var P, ad := Ascon(), seq(16, i => 0 as byte);
            var s0 := Initialized(P, ZERO_BLOCK, ZERO_BLOCK);
            ClosedAd(P, Absorb(P.pb, AdBuf(s0, ZERO_BLOCK, 0), ad)) != WithAd(P, s0, ad)
  {
    hide Bytes40, XorAt, Permutation, Initialized, ClosedAd, WithAd, Absorb, ZERO_OUT, ZERO_NEXT, Absorbed, LastBlockIn,
         Rounds8;
    var P, ad := Ascon(), seq(16, i => 0 as byte);
    var s0 := Initialized(P, ZERO_BLOCK, ZERO_BLOCK);
    var b := AdBuf(s0, ZERO_BLOCK, 0);
    InitializedIs();
    AbsorbedStarts(P.pb, s0, ZERO_BLOCK);
    AbsorbAbsorbs(P.pb, s0, [], b, ad);
    assert [] + ad == ad;
    AsconClosedAdExactly(s0, ad, Absorb(P.pb, b, ad));
    OnlyBlock(P.pb, s0, ad);
    PermutedBytes(ZERO_OUT);
    ZeroNextRounds();
    PaddingIsNotTheRounds();
  }

  lemma OnlyBlock(pb: Perm, s0: State, ad: seq<byte>)
    requires ad == ZERO_BLOCK
    ensures LastBlockIn(pb, s0, ad) == s0
  {
    hide XorAt;
    assert ad[..0] == [] && ad[0..] == ad;
    FeedNothing(pb, AEAD_RATE, Enc, Cursor(s0, 0));
    ZeroBlockXored(s0, 0);
  }

  /** The last words differ, and padding leaves the last word alone. */
  lemma PaddingIsNotTheRounds()
    ensures Bytes40(ZERO_NEXT) != XorAt(Bytes40(ZERO_OUT), 0, PAD)
  {
    LastWordsDiffer();
    hide Bytes8, XorByte, ZERO_OUT, ZERO_NEXT;
    assert Bytes40(ZERO_NEXT)[32] == Bytes8(ZERO_NEXT.x4)[0];
    assert XorAt(Bytes40(ZERO_OUT), 0, PAD)[32] == Bytes8(ZERO_OUT.x4)[0];
  }

  lemma LastWordsDiffer()
    ensures Bytes8(ZERO_OUT.x4)[0] != Bytes8(ZERO_NEXT.x4)[0]
  {
  }

  // ------------------------------------------------------ a leftover tag

  lemma ZeroEnd()
    ensures XorInto(XorInto(ZERO_OUT, 4, SEPARATOR), 0, 1) == ZERO_CLOSED
    ensures End(ZERO_CLOSED, 0, 0) == ZERO_TAG
    ensures Pair(ZERO_TAG.x3, ZERO_TAG.x4)[0] != 0
  {
    ZeroTagRounds();
    hide Rounds12;
  }

  /** The tag of no data under a zero key and nonce is not zero. */
  lemma TagIsNotZero()
    ensures Seal(Ascon(), ZERO_BLOCK, ZERO_BLOCK, [], []).tag != ZERO_BLOCK
  {
    hide Seal, Ascon, Pair, XorInto, Start, End, ZERO_OUT, ZERO_CLOSED, ZERO_TAG;
    ZeroPair();
    ZeroStart();
    ZeroEnd();
    SealNothingIs(0, 0, 0, 0);
  }

  /** For Ascon itself: a context that has encrypted the empty message accepts
      it without being given a tag; a fresh context does not. */
  lemma AsconStaleTagAccepts(c: Ctx)
    requires OsslCalls.Inv(c) && c.key == ZERO_BLOCK
    ensures var P := Ascon();
            var e, d := Record(true, None, ZERO_BLOCK, None, []), Record(false, None, ZERO_BLOCK, None, []);
            && RunRecords(P, c, [e, d])[1][1].ok
            && !Run(P, Fresh(ZERO_BLOCK), Calls(d)).seen[1].ok
  {
    hide Seal, Run, RunRecords, Ascon;
    var P := Ascon();
    var e, d := Record(true, None, ZERO_BLOCK, None, []), Record(false, None, ZERO_BLOCK, None, []);
    assert Flatten([]) == [] && RecordTag(d).None?;
    assert CrossStack.Feeds(e, [], []) && CrossStack.Feeds(d, [], []);
    assert CrossStack.Shown(Run(P, c, Calls(e)).seen[1..1]) == [];
    hide Calls, CrossStack.Feeds, RecordTag, CrossStack.Shown, Flatten;
    CrossStack.OsslEncryptsOneShot(P, c, e, [], []);
    CrossStack.StaleTagAccepts(P, c, e, d, [], [], []);
    TagIsNotZero();
  }
}
