/** Whole runs of wc_AsconAEAD128 calls: what every sequence of calls keeps,
    and what an encryption or decryption session computes however its data is
    cut into updates. */
module WolfRuns {
  import opened Wrappers
  import opened Sponge
  import opened OneShot
  import opened Buffers
  import opened WolfCalls

  datatype Call =
    | CallInit
    | CallSetKey(key: Option<Block>)
    | CallSetNonce(nonce: Option<Block>)
    | CallSetAD(ad: Option<seq<byte>>)
    | CallUpdate(dir: Dir, data: Option<seq<byte>>)
    | CallEncryptFinal(nullTag: bool)
    | CallDecryptFinal(tag: Option<Block>)

  function Apply(P: Perms, c: Ctx, call: Call): (r: Result)
    requires Inv(c)
    ensures Inv(r.ctx)
  {
    match call
    case CallInit => Result(Success, Init(c), [])
    case CallSetKey(key) => SetKey(c, key)
    case CallSetNonce(nonce) => SetNonce(c, nonce)
    case CallSetAD(ad) => SetAD(P, c, ad)
    case CallUpdate(dir, d) => Update(P, dir, c, d)
    case CallEncryptFinal(nullTag) => EncryptFinal(P, c, nullTag)
    case CallDecryptFinal(tag) => DecryptFinal(P, c, tag)
  }

  /** The context after the calls and the result of each. */
  datatype Trace = Trace(ctx: Ctx, results: seq<Result>)

  function Run(P: Perms, c: Ctx, calls: seq<Call>): (t: Trace)
    requires Inv(c)
    ensures Inv(t.ctx) && |t.results| == |calls|
    decreases |calls|
  {
    if calls == [] then Trace(c, [])
    else
      var r := Apply(P, c, calls[0]);
      var t := Run(P, r.ctx, calls[1..]);
      Trace(t.ctx, [r] + t.results)
  }

  lemma RunCons(P: Perms, c: Ctx, call: Call, rest: seq<Call>)
    requires Inv(c)
    ensures var r := Apply(P, c, call);
            var t := Run(P, r.ctx, rest);
            Run(P, c, [call] + rest) == Trace(t.ctx, [r] + t.results)
  {
    hide Apply;
    assert ([call] + rest)[1..] == rest;
  }

  lemma {:induction false} RunAppend(P: Perms, c: Ctx, a: seq<Call>, b: seq<Call>)
    requires Inv(c)
    ensures var t := Run(P, c, a);
            var u := Run(P, t.ctx, b);
            Run(P, c, a + b) == Trace(u.ctx, t.results + u.results)
    decreases |a|
  {
    hide Apply;
    if a == [] {
      assert a + b == b;
    } else {
      RunAppend(P, Apply(P, c, a[0]).ctx, a[1..], b);
      assert (a + b)[1..] == a[1..] + b;
    }
  }

  // ----------------------------------------------------- API state machine

  /** A rejected call changes and writes nothing; iv survives every call. */
  lemma RejectedCallsChangeNothing(P: Perms, c: Ctx, call: Call)
    requires Inv(c)
    ensures var r := Apply(P, c, call);
            && (r.ret == BadFuncArg || r.ret == BadState ==> r.ctx == c && r.out == [])
            && r.ctx.iv == c.iv
  {
  }

  /** Every call's return value, in the order of the checks: a NULL argument,
      then the state. */
  lemma ReturnValues(P: Perms, c: Ctx, call: Call)
    requires Inv(c)
    ensures var ret := Apply(P, c, call).ret;
            match call
            case CallInit => ret == Success
            case CallSetKey(key) => ret == if key.None? then BadFuncArg else if c.keySet then BadState else Success
            case CallSetNonce(nonce) => ret == if nonce.None? then BadFuncArg else if c.nonceSet then BadState else Success
            case CallSetAD(ad) =>
              ret == if ad.None? then BadFuncArg else if c.keySet && c.nonceSet then Success else BadState
            case CallUpdate(dir, d) =>
              ret == if d.None? then BadFuncArg
                     else if c.adSet && c.op != (if dir.Enc? then Decrypt else Encrypt) then Success else BadState
            case CallEncryptFinal(nullTag) =>
              ret == if nullTag then BadFuncArg else if c.op == Encrypt then Success else BadState
            case CallDecryptFinal(tag) =>
              && (tag.None? ==> ret == BadFuncArg)
              && (tag.Some? ==> (ret == BadState <==> c.op != Decrypt))
              && (tag.Some? && c.op == Decrypt ==> ret == Success || ret == AuthError)
  {
    hide Feed, XorAt, WithAd, Finalized;
  }

  /** Until the next Init, over any calls whatever: the direction, the key and
      the flags once set stay as they are. */
  lemma {:induction false} SetOnceUntilInit(P: Perms, c: Ctx, calls: seq<Call>)
    requires Inv(c) && CallInit !in calls
    ensures var e := Run(P, c, calls).ctx;
            && (c.op != NotSet ==> e.op == c.op)
            && (c.keySet ==> e.keySet && e.key == c.key)
            && (c.nonceSet ==> e.nonceSet)
            && (c.adSet ==> e.adSet)
            && e.iv == c.iv
    decreases |calls|
  {
    hide Feed, XorAt, PutAt, WithAd, Finalized;
    if calls != [] {
      var r := Apply(P, c, calls[0]);
      SetOnceUntilInit(P, r.ctx, calls[1..]);
    }
  }

  /** Whatever ran before, Init leaves a context that depends on iv alone. */
  lemma InitForgets(P: Perms, c: Ctx, d: Ctx, calls: seq<Call>, more: seq<Call>)
    requires Inv(c) && Inv(d) && c.iv == d.iv
    ensures Run(P, Run(P, c, calls).ctx, [CallInit] + more) == Run(P, d, [CallInit] + more)
  {
    IvSurvives(P, c, calls);
    assert ([CallInit] + more)[1..] == more;
  }

  lemma {:induction false} IvSurvives(P: Perms, c: Ctx, calls: seq<Call>)
    requires Inv(c)
    ensures Run(P, c, calls).ctx.iv == c.iv
    decreases |calls|
  {
    if calls != [] {
      RejectedCallsChangeNothing(P, c, calls[0]);
      hide Apply;
      IvSurvives(P, Apply(P, c, calls[0]).ctx, calls[1..]);
    }
  }

  // -------------------------------------------------------------- sessions

  function Setup(key: Block, nonce: Block, ad: seq<byte>): seq<Call> {
    [CallInit, CallSetKey(Some(key)), CallSetNonce(Some(nonce)), CallSetAD(Some(ad))]
  }

  function Ready(P: Perms, iv: Block, key: Block, nonce: Block, ad: seq<byte>): Ctx {
    Ctx(Started(P, key, nonce, ad), key, iv, 0, NotSet, true, true, true)
  }

  predicate AllSucceed(results: seq<Result>) {
    forall i :: 0 <= i < |results| ==> results[i].ret == Success
  }

  lemma SetupIsReady(P: Perms, c: Ctx, key: Block, nonce: Block, ad: seq<byte>)
    requires Inv(c)
    ensures var t := Run(P, c, Setup(key, nonce, ad));
            t.ctx == Ready(P, c.iv, key, nonce, ad) && AllSucceed(t.results)
  {
    SetupSteps(P, c, key, nonce, ad);
    hide Init, SetKey, SetNonce, SetAD, Ready;
    var r1, r2, r3, r4 := SetupResults(P, c, key, nonce, ad);
    RunOfFour(P, c, CallInit, CallSetKey(Some(key)), CallSetNonce(Some(nonce)), CallSetAD(Some(ad)));
    FourSucceed(r1, r2, r3, r4);
    hide Apply, Run, AllSucceed;
  }

  lemma FourSucceed(r1: Result, r2: Result, r3: Result, r4: Result)
    ensures AllSucceed([r1, r2, r3, r4])
            <==> r1.ret == Success && r2.ret == Success && r3.ret == Success && r4.ret == Success
  {
    var rs := [r1, r2, r3, r4];
    assert rs[0] == r1 && rs[1] == r2 && rs[2] == r3 && rs[3] == r4;
  }

  lemma RunOfFour(P: Perms, c: Ctx, c1: Call, c2: Call, c3: Call, c4: Call)
    requires Inv(c)
    ensures var r1 := Apply(P, c, c1);
            var r2 := Apply(P, r1.ctx, c2);
            var r3 := Apply(P, r2.ctx, c3);
            var r4 := Apply(P, r3.ctx, c4);
            Run(P, c, [c1, c2, c3, c4]) == Trace(r4.ctx, [r1, r2, r3, r4])
  {
    hide Apply, Run;
    var r1 := Apply(P, c, c1);
    var r2 := Apply(P, r1.ctx, c2);
    var r3 := Apply(P, r2.ctx, c3);
    RunOne(P, r3.ctx, c4);
    RunCons(P, r2.ctx, c3, [c4]);
    RunCons(P, r1.ctx, c2, [c3] + [c4]);
    RunCons(P, c, c1, [c2] + ([c3] + [c4]));
    assert [c1] + ([c2] + ([c3] + [c4])) == [c1, c2, c3, c4];
  }

  lemma SetupResults(P: Perms, c: Ctx, key: Block, nonce: Block, ad: seq<byte>)
    returns (r1: Result, r2: Result, r3: Result, r4: Result)
    requires Inv(c)
    ensures Inv(r1.ctx) && Inv(r2.ctx) && Inv(r3.ctx)
    ensures r1 == Apply(P, c, CallInit) == Result(Success, Init(c), [])
    ensures r2 == Apply(P, r1.ctx, CallSetKey(Some(key))) == SetKey(r1.ctx, Some(key))
    ensures r3 == Apply(P, r2.ctx, CallSetNonce(Some(nonce))) == SetNonce(r2.ctx, Some(nonce))
    ensures r4 == Apply(P, r3.ctx, CallSetAD(Some(ad))) == SetAD(P, r3.ctx, Some(ad))
  {
    hide Init, SetKey, SetNonce, SetAD;
    r1 := Apply(P, c, CallInit);
    r2 := Apply(P, r1.ctx, CallSetKey(Some(key)));
    r3 := Apply(P, r2.ctx, CallSetNonce(Some(nonce)));
    r4 := Apply(P, r3.ctx, CallSetAD(Some(ad)));
  }

  lemma RunOne(P: Perms, c: Ctx, call: Call)
    requires Inv(c)
    ensures var r := Apply(P, c, call); Run(P, c, [call]) == Trace(r.ctx, [r])
  {
    hide Apply;
    assert [call][1..] == [];
  }

  /** The four setup calls one by one. */
  lemma SetupSteps(P: Perms, c: Ctx, key: Block, nonce: Block, ad: seq<byte>)
    requires Inv(c)
    ensures var c1 := Init(c);
            var r2 := SetKey(c1, Some(key));
            var r3 := SetNonce(r2.ctx, Some(nonce));
            var r4 := SetAD(P, r3.ctx, Some(ad));
            && r2.ret == r3.ret == r4.ret == Success && r4.ctx == Ready(P, c.iv, key, nonce, ad)
  {
    hide XorAt, WithAd, WithKey;
    var s: State := AEAD_IV + seq(32, i => 0);
    assert PutAt(PutAt(s, 8, key), 24, nonce) == Loaded(key, nonce);
  }

  function Updates(dir: Dir, chunks: seq<seq<byte>>): (r: seq<Call>)
    ensures |r| == |chunks|
  {
    if chunks == [] then [] else [CallUpdate(dir, Some(chunks[0]))] + Updates(dir, chunks[1..])
  }

  function Outputs(results: seq<Result>): seq<byte> {
    if results == [] then [] else results[0].out + Outputs(results[1..])
  }

  /** Updates feed the sponge with the concatenation of their chunks. */
  lemma {:induction false} UpdatesFeed(P: Perms, dir: Dir, c: Ctx, chunks: seq<seq<byte>>)
    requires Inv(c) && c.adSet && (c.op == NotSet || c.op == OpOf(dir))
    ensures var t := Run(P, c, Updates(dir, chunks));
            var f := Feed(P.pb, AEAD_RATE, dir, Cursor(c.s, c.pos), Flatten(chunks));
            && AllSucceed(t.results) && Outputs(t.results) == f.out
            && t.ctx == c.(s := f.c.s, pos := f.c.pos, op := if chunks == [] then c.op else OpOf(dir))
    decreases |chunks|
  {
    if chunks == [] {
      FeedNothing(P.pb, AEAD_RATE, dir, Cursor(c.s, c.pos));
    } else {
      var call, rest := CallUpdate(dir, Some(chunks[0])), Updates(dir, chunks[1..]);
      var r := Update(P, dir, c, Some(chunks[0]));
      assert Apply(P, c, call) == r;
      hide Feed, Apply, Run;
      UpdatesFeed(P, dir, r.ctx, chunks[1..]);
      FeedAppend(P.pb, AEAD_RATE, dir, Cursor(c.s, c.pos), chunks[0], Flatten(chunks[1..]));
      RunCons(P, c, call, rest);
      var t := Run(P, r.ctx, rest);
      assert ([r] + t.results)[1..] == t.results;
    }
  }

  // ------------------------------------------- streaming refines one-shot

  function EncryptCalls(key: Block, nonce: Block, ad: seq<byte>, chunks: seq<seq<byte>>): seq<Call> {
    Setup(key, nonce, ad) + Updates(Enc, chunks) + [CallEncryptFinal(false)]
  }

  function DecryptCalls(key: Block, nonce: Block, ad: seq<byte>, chunks: seq<seq<byte>>, tag: Block): seq<Call> {
    Setup(key, nonce, ad) + Updates(Dec, chunks) + [CallDecryptFinal(Some(tag))]
  }

  /** The results of a session: four of the setup, the updates', the final's. */
  lemma SessionSplits(P: Perms, c: Ctx, key: Block, nonce: Block, ad: seq<byte>, dir: Dir,
                      chunks: seq<seq<byte>>, last: Call)
    requires Inv(c)
    ensures var t := Run(P, c, Setup(key, nonce, ad) + Updates(dir, chunks) + [last]);
            var f := Feed(P.pb, AEAD_RATE, dir, Cursor(Started(P, key, nonce, ad), 0), Flatten(chunks));
            var e := Ready(P, c.iv, key, nonce, ad).(s := f.c.s, pos := f.c.pos,
                                                     op := if chunks == [] then NotSet else OpOf(dir));
            var n := 4 + |chunks|;
            && |t.results| == n + 1 && AllSucceed(t.results[..n])
            && Outputs(t.results[4..n]) == f.out
            && Inv(e) && t.results[n] == Apply(P, e, last) && t.ctx == t.results[n].ctx
  {
    hide Feed, Apply, Run, Started;
    SetupIsReady(P, c, key, nonce, ad);
    var c4 := Ready(P, c.iv, key, nonce, ad);
    UpdatesFeed(P, dir, c4, chunks);
    var t4 := Run(P, c, Setup(key, nonce, ad));
    var tn := Run(P, c4, Updates(dir, chunks));
    RunAppend(P, c, Setup(key, nonce, ad), Updates(dir, chunks));
    RunAppend(P, c, Setup(key, nonce, ad) + Updates(dir, chunks), [last]);
    RunOne(P, tn.ctx, last);
    var t := Run(P, c, Setup(key, nonce, ad) + Updates(dir, chunks) + [last]);
    assert t.results == t4.results + tn.results + [Apply(P, tn.ctx, last)];
    assert t.results[4..4 + |chunks|] == tn.results;
    assert t.results[..4 + |chunks|] == t4.results + tn.results;
  }

  /** Any split of the plaintext into updates gives the ciphertext and tag of
      the one-shot definition, with one exception: with no update call at all
      the direction is still unset and EncryptFinal refuses. */
  lemma StreamingEncryptsOneShot(P: Perms, c: Ctx, key: Block, nonce: Block, ad: seq<byte>, chunks: seq<seq<byte>>)
    requires Inv(c)
    ensures var t := Run(P, c, EncryptCalls(key, nonce, ad, chunks));
            var sealed := Seal(P, key, nonce, ad, Flatten(chunks));
            var n := 4 + |chunks|;
            && |t.results| == n + 1 && AllSucceed(t.results[..n])
            && Outputs(t.results[4..n]) == sealed.ct
            && (t.results[n].ret == Success <==> chunks != [])
            && (chunks != [] ==> t.results[n].out == sealed.tag)
            && (chunks == [] ==> t.results[n].ret == BadState && t.results[n].out == [])
  {
    hide Feed, Blocks, Run, Started;
    SessionSplits(P, c, key, nonce, ad, Enc, chunks, CallEncryptFinal(false));
    FeedIsBlocks(P.pb, AEAD_RATE, Started(P, key, nonce, ad), Flatten(chunks));
  }

  /** Decryption under any split: the plaintext released re-encrypts to the
      ciphertext, and the verdict is exactly whether the pair (ciphertext, tag)
      is its encryption. */
  lemma StreamingDecryptionIsExact(P: Perms, c: Ctx, key: Block, nonce: Block, ad: seq<byte>,
                                   chunks: seq<seq<byte>>, tag: Block)
    requires Inv(c)
    ensures var t := Run(P, c, DecryptCalls(key, nonce, ad, chunks, tag));
            var n := 4 + |chunks|;
            var pt := Outputs(t.results[4..n]);
            && |t.results| == n + 1 && AllSucceed(t.results[..n])
            && Seal(P, key, nonce, ad, pt).ct == Flatten(chunks)
            && (chunks == [] ==> t.results[n].ret == BadState)
            && (chunks != [] ==> t.results[n].ret == Success || t.results[n].ret == AuthError)
            && (t.results[n].ret == Success <==>
                chunks != [] && Seal(P, key, nonce, ad, pt) == Sealed(Flatten(chunks), tag))
  {
    hide Feed, Blocks, Run, Started;
    var s := Started(P, key, nonce, ad);
    SessionSplits(P, c, key, nonce, ad, Dec, chunks, CallDecryptFinal(Some(tag)));
    FeedRoundTrip(P.pb, AEAD_RATE, Dec, Cursor(s, 0), Flatten(chunks));
    FeedIsBlocks(P.pb, AEAD_RATE, s, Feed(P.pb, AEAD_RATE, Dec, Cursor(s, 0), Flatten(chunks)).out);
  }

  /** Seal is injective in the plaintext. */
  lemma SealInjective(P: Perms, key: Block, nonce: Block, ad: seq<byte>, a: seq<byte>, b: seq<byte>)
    requires Seal(P, key, nonce, ad, a).ct == Seal(P, key, nonce, ad, b).ct
    ensures a == b
  {
    hide Feed, Blocks, Started;
    var s := Started(P, key, nonce, ad);
    FeedIsBlocks(P.pb, AEAD_RATE, s, a);
    FeedIsBlocks(P.pb, AEAD_RATE, s, b);
    FeedRoundTrip(P.pb, AEAD_RATE, Enc, Cursor(s, 0), a);
    FeedRoundTrip(P.pb, AEAD_RATE, Enc, Cursor(s, 0), b);
  }

  /** A tag is accepted exactly when the pair is in the image of encryption. */
  lemma AcceptanceIsTheImageOfSealing(P: Perms, c: Ctx, key: Block, nonce: Block, ad: seq<byte>,
                                      chunks: seq<seq<byte>>, tag: Block)
    requires Inv(c) && chunks != []
    ensures Run(P, c, DecryptCalls(key, nonce, ad, chunks, tag)).results[4 + |chunks|].ret == Success
            <==> exists m :: Seal(P, key, nonce, ad, m) == Sealed(Flatten(chunks), tag)
  {
    hide Run, Seal;
    StreamingDecryptionIsExact(P, c, key, nonce, ad, chunks, tag);
    var pt := Outputs(Run(P, c, DecryptCalls(key, nonce, ad, chunks, tag)).results[4..4 + |chunks|]);
    forall m | Seal(P, key, nonce, ad, m) == Sealed(Flatten(chunks), tag)
      ensures m == pt
    {
      SealInjective(P, key, nonce, ad, m, pt);
    }
  }

  /** Encrypt under one split, decrypt under any other split of the result:
      the plaintext comes back, the tag is accepted and both contexts end with
      the same sponge state. */
  lemma RoundTripUnderAnySplits(P: Perms, c: Ctx, d: Ctx, key: Block, nonce: Block, ad: seq<byte>,
                                plain: seq<seq<byte>>, cipher: seq<seq<byte>>)
    requires Inv(c) && Inv(d) && plain != [] && cipher != []
    requires Flatten(cipher) == Outputs(Run(P, c, EncryptCalls(key, nonce, ad, plain)).results[4..4 + |plain|])
    ensures var e := Run(P, c, EncryptCalls(key, nonce, ad, plain));
            var tag := Seal(P, key, nonce, ad, Flatten(plain)).tag;
            var t := Run(P, d, DecryptCalls(key, nonce, ad, cipher, tag));
            && e.results[4 + |plain|].out == tag
            && Outputs(t.results[4..4 + |cipher|]) == Flatten(plain)
            && t.results[4 + |cipher|].ret == Success
            && t.ctx.s == e.ctx.s
  {
    var tag := Seal(P, key, nonce, ad, Flatten(plain)).tag;
    StreamingEncryptsOneShot(P, c, key, nonce, ad, plain);
    StreamingDecryptionIsExact(P, d, key, nonce, ad, cipher, tag);
    var t := Run(P, d, DecryptCalls(key, nonce, ad, cipher, tag));
    hide Run, Seal;
    SealInjective(P, key, nonce, ad, Flatten(plain), Outputs(t.results[4..4 + |cipher|]));
    FinalStates(P, c, key, nonce, ad, plain);
    FinalStatesDec(P, d, key, nonce, ad, cipher, tag);
  }

  /** The state an encryption session ends in depends on the plaintext only. */
  lemma FinalStates(P: Perms, c: Ctx, key: Block, nonce: Block, ad: seq<byte>, chunks: seq<seq<byte>>)
    requires Inv(c) && chunks != []
    ensures Run(P, c, EncryptCalls(key, nonce, ad, chunks)).ctx.s
         == Finalized(P, key, Blocks(P.pb, AEAD_RATE, Started(P, key, nonce, ad), Flatten(chunks)).s)
  {
    hide Feed, Blocks, Run, Started;
    SessionSplits(P, c, key, nonce, ad, Enc, chunks, CallEncryptFinal(false));
    FeedIsBlocks(P.pb, AEAD_RATE, Started(P, key, nonce, ad), Flatten(chunks));
  }

  lemma FinalStatesDec(P: Perms, c: Ctx, key: Block, nonce: Block, ad: seq<byte>,
                       chunks: seq<seq<byte>>, tag: Block)
    requires Inv(c) && chunks != []
    ensures var t := Run(P, c, DecryptCalls(key, nonce, ad, chunks, tag));
            t.ctx.s == Finalized(P, key, Blocks(P.pb, AEAD_RATE, Started(P, key, nonce, ad),
                                                Outputs(t.results[4..4 + |chunks|])).s)
  {
    hide Feed, Blocks, Run, Started;
    var s := Started(P, key, nonce, ad);
    SessionSplits(P, c, key, nonce, ad, Dec, chunks, CallDecryptFinal(Some(tag)));
    FeedRoundTrip(P.pb, AEAD_RATE, Dec, Cursor(s, 0), Flatten(chunks));
    FeedIsBlocks(P.pb, AEAD_RATE, s, Feed(P.pb, AEAD_RATE, Dec, Cursor(s, 0), Flatten(chunks)).out);
  }
}
