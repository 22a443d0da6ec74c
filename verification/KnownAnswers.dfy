/** Known answers of the modes at Ascon-p. The sealing vector with data has a key
    and a nonce that differ; the empty ones are those that ascon_kat.c and
    ascon_hash_kat.c expect; the mask has the first inputs of ascon_mask_kat.c. */
module KnownAnswers {
  import opened Words
  import opened Sponge
  import opened OneShot
  import opened AsconMode
  import opened AsconVector
  import opened Vectors
  import opened Computed
  import opened Wrappers
  import MaskPrf
  import WC = WolfCalls
  import W = WolfRuns
  import OC = OsslCalls
  import OA = OsslAad
  import R = OsslRuns
  import CrossStack

  // --------------------------------------------------------------- sealing

  const KEY: Block := [0x00, 0x01, 0x02, 0x03, 0x04, 0x05, 0x06, 0x07, 0x08, 0x09, 0x0A, 0x0B, 0x0C, 0x0D, 0x0E, 0x0F]
  const NONCE: Block := [0x10, 0x11, 0x12, 0x13, 0x14, 0x15, 0x16, 0x17, 0x18, 0x19, 0x1A, 0x1B, 0x1C, 0x1D, 0x1E, 0x1F]
  const AD: seq<byte> :=
    [0x20, 0x21, 0x22, 0x23, 0x24, 0x25, 0x26, 0x27, 0x28, 0x29, 0x2A, 0x2B, 0x2C, 0x2D, 0x2E, 0x2F,
     0x30, 0x31, 0x32, 0x33, 0x34, 0x35, 0x36, 0x37]
  const PLAIN: seq<byte> :=
    [0x40, 0x41, 0x42, 0x43, 0x44, 0x45, 0x46, 0x47, 0x48, 0x49, 0x4A, 0x4B, 0x4C, 0x4D, 0x4E, 0x4F,
     0x50, 0x51, 0x52, 0x53, 0x54, 0x55, 0x56, 0x57, 0x58, 0x59, 0x5A, 0x5B, 0x5C, 0x5D, 0x5E, 0x5F,
     0x60, 0x61, 0x62, 0x63, 0x64, 0x65, 0x66, 0x67]

  lemma KeyWords()
    ensures Pair(0x0706050403020100, 0x0F0E0D0C0B0A0908) == KEY
    ensures Pair(0x1716151413121110, 0x1F1E1D1C1B1A1918) == NONCE
  {
  }

  lemma AdWords()
    ensures Pair(0x2726252423222120, 0x2F2E2D2C2B2A2928) + Bytes8(0x3736353433323130) == AD
  {
  }

  lemma PlainWords()
    ensures Pair(0x4746454443424140, 0x4F4E4D4C4B4A4948) + (Pair(0x5756555453525150, 0x5F5E5D5C5B5A5958) + Bytes8(0x6766656463626160))
         == PLAIN
  {
  }

  const STARTED :=
    Vec(0xCDE34900CDFCE2C8, 0x948CBA141A58C1CB, 0x1FEC9B5DAE69B43A,
        0x65039CF8DA2ADAAC, 0x323C9DA505D9B927)

  const BOUND :=
    Vec(0x97FFAC3BCABD7CFE, 0x229045954833EFA2, 0xAF5E2E9EE6364632,
        0xD50A2D231D9F39EF, 0xFE6FB89FA3FBA1E0)

  const THIRD :=
    Vec(0xB250B00632E9E1A9, 0xDF91A58ADC9D620A, 0x9F8178FD0DCF5DE6,
        0x7F03FE0C9C3A856A, 0x40571A2D513715C0)

  const ENDED :=
    Vec(0x810AEA5B550688B9, 0xEE9EC9CC19EA2B11, 0x213B0BB0425BFB0A,
        0xE2D89DF4D07EEA99, 0xC30C06997CE79834)

  lemma StartComputed()
    ensures Start(0x0706050403020100, 0x0F0E0D0C0B0A0908, 0x1716151413121110, 0x1F1E1D1C1B1A1918) == STARTED
  {
    InitRounds();
    hide Rounds12;
  }

  lemma AdComputed()
    ensures AfterAd(STARTED, 0x2726252423222120, 0x2F2E2D2C2B2A2928, 0x3736353433323130) == BOUND
  {
    FirstAdRounds();
    SecondAdRounds();
    hide Rounds8;
  }

  lemma DataComputed()
    ensures XorPair(BOUND, 0, 0x4746454443424140, 0x4F4E4D4C4B4A4948) == DATA1_IN
    ensures XorPair(Rounds8(DATA1_IN), 0, 0x5756555453525150, 0x5F5E5D5C5B5A5958) == DATA2_IN
    ensures XorInto(Rounds8(DATA2_IN), 0, 0x6766656463626160) == THIRD
  {
    FirstDataRounds();
    SecondDataRounds();
    hide Rounds8;
  }

  lemma EndComputed()
    ensures End(XorInto(THIRD, 1, 1), 0x0706050403020100, 0x0F0E0D0C0B0A0908) == ENDED
  {
    TagRounds();
    hide Rounds12;
  }

  const CIPHER: seq<byte> :=
    [0xBE, 0x3D, 0xFF, 0x89, 0x7F, 0xE9, 0xB9, 0xD0, 0xEA, 0xA6, 0x79, 0x03, 0xD9, 0x08, 0xDE, 0x6D,
     0x9A, 0x1B, 0x7F, 0xCB, 0x99, 0xB2, 0xA3, 0x32, 0x19, 0xC1, 0x82, 0x97, 0x30, 0x9A, 0xD1, 0x96,
     0xA9, 0xE1, 0xE9, 0x32, 0x06, 0xB0, 0x50, 0xB2]
  const TAG: Block := [0x99, 0xEA, 0x7E, 0xD0, 0xF4, 0x9D, 0xD8, 0xE2, 0x34, 0x98, 0xE7, 0x7C, 0x99, 0x06, 0x0C, 0xC3]

  lemma CipherWords()
    ensures Pair(DATA1_IN.x0, DATA1_IN.x1) + (Pair(DATA2_IN.x0, DATA2_IN.x1) + Bytes8(THIRD.x0)) == CIPHER
  {
  }

  lemma TagWords()
    ensures Pair(ENDED.x3, ENDED.x4) == TAG
  {
  }

  /** Two and a half blocks under a key and a nonce that differ, with one and a
      half blocks of AD. */
  lemma SealVector()
    ensures Seal(Ascon(), KEY, NONCE, AD, PLAIN) == Sealed(CIPHER, TAG)
  {
    hide Seal, Ascon, Pair, Bytes8, Rounds8, XorPair, XorInto, Start, AfterAd, End, KEY, NONCE, AD, PLAIN, CIPHER, TAG,
         STARTED, BOUND, DATA1_IN, DATA2_IN, THIRD, ENDED;
    KeyWords();
    AdWords();
    PlainWords();
    StartComputed();
    AdComputed();
    DataComputed();
    EndComputed();
    CipherWords();
    TagWords();
    SealIs(0x0706050403020100, 0x0F0E0D0C0B0A0908, 0x1716151413121110, 0x1F1E1D1C1B1A1918,
           0x2726252423222120, 0x2F2E2D2C2B2A2928, 0x3736353433323130, 0x4746454443424140, 0x4F4E4D4C4B4A4948,
           0x5756555453525150, 0x5F5E5D5C5B5A5958, 0x6766656463626160);
  }

  const EMPTY_TAG: Block := [0x44, 0x27, 0xD6, 0x4B, 0x8E, 0x1E, 0x14, 0x51, 0xFC, 0x44, 0x59, 0x60, 0xF0, 0x83, 0x9B, 0xB0]

  const KK_STARTED :=
    Vec(0xE94CA1D68AD071E7, 0xEC7A5FC285AED974, 0xAFE01D6BF4BCB26C,
        0x9216FD8172857E38, 0x786A1691B9B11607)

  const KK_CLOSED :=
    Vec(0xE94CA1D68AD071E6, 0xEC7A5FC285AED974, 0xAFE01D6BF4BCB26C,
        0x9216FD8172857E38, 0xF86A1691B9B11607)

  const KK_ENDED :=
    Vec(0xDF2AFF296C2A4013, 0x3E8E253584338202, 0x89E17B1C4BC2D9B1,
        0x51141E8E4BD62744, 0xB09B83F0605944FC)

  lemma EmptyStartComputed()
    ensures Start(0x0706050403020100, 0x0F0E0D0C0B0A0908, 0x0706050403020100, 0x0F0E0D0C0B0A0908) == KK_STARTED
  {
    RepeatedInitRounds();
    hide Rounds12;
  }

  lemma EmptyEndComputed()
    ensures XorInto(XorInto(KK_STARTED, 4, SEPARATOR), 0, 1) == KK_CLOSED
    ensures End(KK_CLOSED, 0x0706050403020100, 0x0F0E0D0C0B0A0908) == KK_ENDED
  {
    RepeatedTagRounds();
    hide Rounds12;
  }

  lemma EmptyTagWords()
    ensures Pair(KK_ENDED.x3, KK_ENDED.x4) == EMPTY_TAG
  {
  }

  /** The first vector of ascon_kat.c. */
  lemma EmptySealVector()
    ensures Seal(Ascon(), KEY, KEY, [], []) == Sealed([], EMPTY_TAG)
  {
    hide Seal, Ascon, Pair, XorInto, Start, End, KEY, NONCE, EMPTY_TAG, KK_STARTED, KK_CLOSED, KK_ENDED;
    KeyWords();
    EmptyStartComputed();
    EmptyEndComputed();
    EmptyTagWords();
    SealNothingIs(0x0706050403020100, 0x0F0E0D0C0B0A0908, 0x0706050403020100, 0x0F0E0D0C0B0A0908);
  }

  // ------------------------------------------------------------------ hash

  const EMPTY_DIGEST: seq<byte> :=
    [0x0B, 0x3B, 0xE5, 0x85, 0x0F, 0x2F, 0x6B, 0x98, 0xCA, 0xF2, 0x9F, 0x8F, 0xDE, 0xA8, 0x9B, 0x64,
     0xA1, 0xFA, 0x70, 0xAA, 0x24, 0x9B, 0x8F, 0x83, 0x9B, 0xD5, 0x3B, 0xAA, 0x30, 0x4D, 0x92, 0xB2]

  lemma EmptyDigestWords()
    ensures Bytes8(EMPTY1.x0) + Bytes8(EMPTY2.x0) + Bytes8(EMPTY3.x0) + Bytes8(EMPTY4.x0) == EMPTY_DIGEST
  {
  }

  lemma EmptyHashInput()
    ensures XorInto(HASH_OUT, 0, 1) == EMPTY0
    ensures Bytes8(1) == [] + PAD + seq(7, i => 0)
  {
  }

  lemma HashStartComputed()
    ensures HashStart(Ascon().pa) == Bytes40(HASH_OUT)
  {
    HashInitRounds();
    hide HashStart, Ascon, Bytes40, Rounds12, HASH_OUT;
    HashInitIs(HASH_IN);
  }

  /** The first vector of ascon_hash_kat.c. */
  lemma EmptyHashVector()
    ensures Hash(Ascon().pa, []) == EMPTY_DIGEST
  {
    hide Ascon, Bytes40, Bytes8, EMPTY_DIGEST, EMPTY0, EMPTY1, EMPTY2, EMPTY3, EMPTY4, Blocks, Squeeze, Rounds12, XorInto,
         HASH_OUT, HashStart;
    EmptyHashInput();
    EmptyDigestWords();
    HashStartComputed();
    HashEndIs(HASH_OUT, 1, []);
    EmptyRounds1();
    EmptyRounds2();
    EmptyRounds3();
    EmptyRounds4();
    SqueezeIs(EMPTY0, EMPTY1, EMPTY2, EMPTY3, EMPTY4);
  }

  const MESSAGE: seq<byte> := [0x00, 0x01, 0x02, 0x03, 0x04, 0x05, 0x06, 0x07, 0x08, 0x09]

  const MESSAGE_DIGEST: seq<byte> :=
    [0x89, 0x4F, 0x5C, 0x5B, 0xC7, 0x8A, 0x0A, 0x97, 0xAB, 0xC0, 0xD6, 0x31, 0x23, 0xD0, 0x9A, 0x33,
     0x5F, 0xB0, 0xD9, 0x24, 0x30, 0xAD, 0xF9, 0xD1, 0x1F, 0xD2, 0x64, 0x38, 0x54, 0x17, 0x99, 0x68]

  lemma MessageDigestWords()
    ensures Bytes8(MSG1.x0) + Bytes8(MSG2.x0) + Bytes8(MSG3.x0) + Bytes8(MSG4.x0) == MESSAGE_DIGEST
  {
  }

  lemma MessageInput()
    ensures XorInto(HASH_OUT, 0, 0x0706050403020100) == MSG_IN && XorInto(MSG_OUT, 0, 0x0000000000010908) == MSG0
    ensures Bytes8(0x0000000000010908) == MESSAGE[8..] + PAD + seq(7 - |MESSAGE[8..]|, i => 0)
    ensures Bytes8(0x0706050403020100) + MESSAGE[8..] == MESSAGE && |MESSAGE[8..]| == 2
  {
  }

  /** One whole block and two bytes. */
  lemma HashVector()
    ensures Hash(Ascon().pa, MESSAGE) == MESSAGE_DIGEST
  {
    hide Ascon, Bytes40, Bytes8, MESSAGE, MESSAGE_DIGEST, MSG_IN, MSG_OUT, MSG0, MSG1, MSG2, MSG3, MSG4, Blocks, Squeeze,
         XorInto, Rounds12, HASH_OUT, HashStart;
    MessageInput();
    MessageDigestWords();
    HashStartComputed();
    MessageRounds();
    HashBlockIs(HASH_OUT, 0x0706050403020100, MESSAGE[8..]);
    HashEndIs(MSG_OUT, 0x0000000000010908, MESSAGE[8..]);
    MessageSqueeze1();
    MessageSqueeze2();
    MessageSqueeze3();
    MessageSqueeze4();
    SqueezeIs(MSG0, MSG1, MSG2, MSG3, MSG4);
  }

  // ------------------------------------------------------------------ mask

  const MASK: Block := [0x55, 0xA4, 0x47, 0x51, 0x0F, 0xD0, 0xD4, 0x03, 0x5B, 0x4B, 0xC3, 0xCE, 0x48, 0x4A, 0x58, 0x75]

  lemma MaskWords()
    ensures Pair(MASK_OUT.x0, MASK_OUT.x1) == MASK
  {
  }

  lemma MaskInput()
    ensures Bytes40(MASK_IN) == Bytes8(0x524E44494D534B5F) + KEY + NONCE
  {
    KeyWords();
    hide Bytes8;
  }

  lemma FirstTwoWords(v: Vec)
    ensures Bytes40(v)[..16] == Pair(v.x0, v.x1)
  {
    hide Bytes8;
  }

  /** The DTLS entry, key 00 to 0F, input 10 to 1F. */
  lemma MaskVector()
    ensures MaskPrf.Mask(FromNat(MaskPrf.DOMSEP[0], 64), KEY, NONCE) == MASK
  {
    MaskWords();
    MaskInput();
    DomsepWord();
    hide Bytes40, Bytes8, Permutation, Rounds12, KEY, NONCE, MASK, MASK_IN, MASK_OUT, FromNat, BytesOf, Pair;
    MaskRounds();
    PermutedBytes(MASK_IN);
    FirstTwoWords(MASK_OUT);
  }

  lemma DomsepWord()
    ensures BytesOf(FromNat(MaskPrf.DOMSEP[0], 64)) == Bytes8(0x524E44494D534B5F)
  {
    hide BytesOf, FromNat;
    MaskPrf.TableInAscii(0);
  }

  // ------------------------------------------------------------ the stacks

  /** wolfSSL, on any context and however the plaintext is cut. */
  lemma WolfSealVector(c: WC.Ctx, chunks: seq<seq<byte>>)
    requires WC.Inv(c) && Flatten(chunks) == PLAIN
    ensures var t := W.Run(Ascon(), c, W.EncryptCalls(KEY, NONCE, AD, chunks));
            W.Outputs(t.results[4..4 + |chunks|]) == CIPHER && t.results[4 + |chunks|].out == TAG
  {
    hide KEY, NONCE, AD, PLAIN, CIPHER, TAG, Seal, Ascon, W.Run, W.EncryptCalls;
    assert chunks != [] by { PlainIsSome(); }
    SealVector();
    W.StreamingEncryptsOneShot(Ascon(), c, KEY, NONCE, AD, chunks);
  }

  lemma PlainIsSome()
    ensures PLAIN != Flatten([])
  {
  }

  /** OpenSSL, on any context: a record that brings the key. */
  lemma OsslSealVector(c: OC.Ctx, r: R.Record, chunks: seq<seq<byte>>)
    requires OC.Inv(c) && CrossStack.Feeds(r, [AD], chunks) && Flatten(chunks) == PLAIN
    requires r.enc && r.key == Some(KEY) && r.iv == NONCE
    ensures var seen := R.Run(Ascon(), c, R.Calls(r)).seen;
            CrossStack.Shown(seen[1..1 + |r.inner|]) == CIPHER && seen[2 + |r.inner|].out == TAG
  {
    assert OA.GoodAad([AD]) && Flatten([AD]) == AD by { AdIsGood(); }
    hide KEY, NONCE, AD, PLAIN, CIPHER, TAG, Seal, Ascon, R.Run, R.Calls, CrossStack.Feeds, OA.GoodAad, Flatten;
    SealVector();
    CrossStack.OsslEncryptsOneShot(Ascon(), c, r, [AD], chunks);
  }

  lemma AdIsGood()
    ensures OA.GoodAad([AD]) && Flatten([AD]) == AD
  {
    assert [AD][1..] == [] && Flatten([]) == [] && AD + [] == AD;
    assert Flatten([AD]) == AD + Flatten([AD][1..]);
    OA.NeverFlushingIsGood([AD]);
  }
}
