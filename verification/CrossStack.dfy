/** What an OpenSSL record computes, and that both stacks agree and accept each
    other's output. */
module CrossStack {
  import opened Wrappers
  import opened Sponge
  import opened OneShot
  import opened Buffers
  import opened OsslCalls
  import opened OsslAad
  import opened OsslProvider
  import opened OsslRuns
  import W = WolfRuns
  import WC = WolfCalls

  function AadUpdates(aads: seq<seq<byte>>): (r: seq<Call>)
    ensures |r| == |aads| && forall u :: u in r ==> u.CallUpdate?
  {
    if aads == [] then [] else [CallUpdate(true, aads[0], 0)] + AadUpdates(aads[1..])
  }

  function DataUpdates(chunks: seq<seq<byte>>): (r: seq<Call>)
    ensures |r| == |chunks| && forall u :: u in r ==> u.CallUpdate?
  {
    if chunks == [] then [] else [CallUpdate(false, chunks[0], |chunks[0]|)] + DataUpdates(chunks[1..])
  }

  /** All output together. */
  function Shown(seen: seq<Seen>): seq<byte> {
    if seen == [] then [] else seen[0].out + Shown(seen[1..])
  }

  predicate AllOk(seen: seq<Seen>) {
    forall i :: 0 <= i < |seen| ==> seen[i].ok
  }

  // ------------------------------------------------------------- one record

  lemma AbsorbNothing(pb: Perm, b: AdBuf)
    requires b.sz < AEAD_RATE
    ensures Absorb(pb, b, []) == b
  {
    assert PutAt(b.part, b.sz, []) == b.part;
  }

  lemma {:induction false} AadUpdatesAbsorb(P: Perms, c: Ctx, aads: seq<seq<byte>>)
    requires Inv(c) && !c.adDone
    ensures var t := Run(P, c, AadUpdates(aads));
            && AllOk(t.seen) && Shown(t.seen) == [] && !t.ctx.adDone
            && Buf(StartAd(P, t.ctx)) == AbsorbCalls(P.pb, Buf(StartAd(P, c)), aads)
            && t.ctx.key == c.key && t.ctx.pos == c.pos && t.ctx.enc == c.enc && t.ctx.tag == c.tag
    decreases |aads|
  {
    hide Absorb;
    if aads != [] {
      AbsorbNothing(P.pb, Buf(StartAd(P, c)));
      var call, rest := CallUpdate(true, aads[0], 0), AadUpdates(aads[1..]);
      var r := UpdateCall(P, c, true, aads[0], 0);
      assert Apply(P, c, call) == r;
      hide Run, Apply, UpdateCall;
      RunCons(P, c, call, rest);
      AadUpdatesAbsorb(P, r.ctx, aads[1..]);
      var t := Run(P, r.ctx, rest);
      assert ([Seen(r.ok, r.out)] + t.seen)[1..] == t.seen;
    }
  }

  lemma DataUpdateFeeds(P: Perms, c: Ctx, x: seq<byte>)
    requires Inv(c)
    ensures var r := Apply(P, c, CallUpdate(false, x, |x|));
            var c1 := AadFinalize(P, c);
            var f := Feed(P.pb, AEAD_RATE, if c.enc then Enc else Dec, Cursor(c1.s, c1.pos), x);
            && r.ok && r.out == f.out && r.ctx.enc == c.enc
            && AadFinalize(P, r.ctx) == c1.(s := f.c.s, pos := f.c.pos)
  {
    hide Feed, AadFinalize, AbsorbAad, Final, InitCall;
    var c1 := AadFinalize(P, c);
    FeedNothing(P.pb, AEAD_RATE, if c.enc then Enc else Dec, Cursor(c1.s, c1.pos));
    FinalizedStays(P, Apply(P, c, CallUpdate(false, x, |x|)).ctx);
  }

  lemma {:induction false} DataUpdatesFeed(P: Perms, c: Ctx, chunks: seq<seq<byte>>)
    requires Inv(c)
    ensures var t := Run(P, c, DataUpdates(chunks));
            var c1 := AadFinalize(P, c);
            var f := Feed(P.pb, AEAD_RATE, if c.enc then Enc else Dec, Cursor(c1.s, c1.pos), Flatten(chunks));
            && AllOk(t.seen) && Shown(t.seen) == f.out
            && AadFinalize(P, t.ctx) == c1.(s := f.c.s, pos := f.c.pos)
    decreases |chunks|
  {
    hide Feed, Apply, AadFinalize;
    var dir := if c.enc then Enc else Dec;
    var c1 := AadFinalize(P, c);
    if chunks == [] {
      FeedNothing(P.pb, AEAD_RATE, dir, Cursor(c1.s, c1.pos));
    } else {
      hide Run;
      var x, call, rest := chunks[0], CallUpdate(false, chunks[0], |chunks[0]|), DataUpdates(chunks[1..]);
      var r := Apply(P, c, call);
      DataUpdateFeeds(P, c, x);
      FeedAppend(P.pb, AEAD_RATE, dir, Cursor(c1.s, c1.pos), x, Flatten(chunks[1..]));
      RunCons(P, c, call, rest);
      DataUpdatesFeed(P, r.ctx, chunks[1..]);
      var t := Run(P, r.ctx, rest);
      assert ([Seen(r.ok, r.out)] + t.seen)[1..] == t.seen;
    }
  }

  lemma FinalizedStays(P: Perms, c: Ctx)
    requires Inv(c)
    ensures c.adDone ==> AadFinalize(P, c) == c
  {
  }

  // ------------------------------------------- tags set among the updates

  function WithoutTags(calls: seq<Call>): seq<Call> {
    if calls == [] then []
    else (if calls[0].CallSetTag? then [] else [calls[0]]) + WithoutTags(calls[1..])
  }

  /** A set tag of another length than sixteen is the one call that fails. */
  predicate Fits(u: Call) {
    u.CallSetTag? ==> |u.newTag| == 16
  }

  lemma WithoutTagsGiveNone(calls: seq<Call>)
    ensures LastGiven(WithoutTags(calls)).None?
    ensures (forall u :: u in calls ==> u.CallUpdate? || u.CallSetTag?) ==>
              forall u :: u in WithoutTags(calls) ==> u.CallUpdate?
  {
    if calls != [] {
      var first := if calls[0].CallSetTag? then [] else [calls[0]];
      var rest := WithoutTags(calls[1..]);
      assert first != [] ==> (first + rest)[1..] == rest;
      assert first == [] ==> first + rest == rest;
    }
  }

  /** Wherever the tag is set between init and final: the updates do what they
      do without it. */
  lemma {:induction false} TagsMoveOut(P: Perms, c: Ctx, calls: seq<Call>)
    requires Inv(c) && forall u :: u in calls ==> u.CallUpdate? || u.CallSetTag?
    requires AllOk(Run(P, c, WithoutTags(calls)).seen)
    ensures var t, u := Run(P, c, calls), Run(P, c, WithoutTags(calls));
            && t.ctx == u.ctx.(tag := OrElse(LastGiven(calls), c.tag)) && Shown(t.seen) == Shown(u.seen)
            && forall i :: 0 <= i < |calls| ==> (t.seen[i].ok <==> Fits(calls[i]))
    decreases |calls|
  {
    if calls != [] {
      var u, rest := calls[0], calls[1..];
      var r := Apply(P, c, u);
      assert calls == [u] + rest;
      WithoutTagsGiveNone(rest);
      if u.CallSetTag? {
        SetTagOnly(P, c, u);
        hide Apply, Run, WithoutTags, Given, Fits;
        assert WithoutTags(calls) == WithoutTags(rest) by { WithoutFirst(u, rest); }
        InnerCallsIgnoreTag(P, c, r.ctx.tag, WithoutTags(rest));
        TagsMoveOut(P, r.ctx, rest);
        RunCons(P, c, u, rest);
        var t := Run(P, r.ctx, rest);
        ShownCons(Seen(r.ok, r.out), t.seen);
      } else {
        hide Apply, Run, WithoutTags, Given;
        WithoutFirst(u, rest);
        RunCons(P, c, u, rest);
        RunCons(P, c, u, WithoutTags(rest));
        InnerCallIgnoresTag(P, c, c.tag, u);
        var t, v := Run(P, r.ctx, rest), Run(P, r.ctx, WithoutTags(rest));
        ShownCons(Seen(r.ok, r.out), v.seen);
        ShownCons(Seen(r.ok, r.out), t.seen);
        TagsMoveOut(P, r.ctx, rest);
      }
    }
  }

  lemma WithoutFirst(u: Call, rest: seq<Call>)
    ensures WithoutTags([u] + rest) == (if u.CallSetTag? then [] else [u]) + WithoutTags(rest)
    ensures u.CallSetTag? ==> WithoutTags([u] + rest) == WithoutTags(rest)
    ensures LastGiven([u] + rest) == if LastGiven(rest).Some? then LastGiven(rest) else Given(u)
  {
    assert ([u] + rest)[1..] == rest;
  }

  lemma ShownCons(a: Seen, b: seq<Seen>)
    ensures Shown([a] + b) == a.out + Shown(b)
    ensures AllOk([a] + b) <==> a.ok && AllOk(b)
  {
    assert ([a] + b)[1..] == b;
    assert forall i :: 0 <= i < |b| ==> ([a] + b)[i + 1] == b[i];
  }

  lemma SetTagOnly(P: Perms, c: Ctx, u: Call)
    requires Inv(c) && u.CallSetTag?
    ensures var r := Apply(P, c, u);
            r.ctx == c.(tag := r.ctx.tag) && r.out == [] && (r.ok <==> Fits(u)) && r.ctx.tag == OrElse(Given(u), c.tag)
  {
  }

  // ------------------------------------------------------------ one record

  /** A record that passes the AD in the pieces aads and then the data in
      chunks, with tags set anywhere between init and final. */
  predicate Feeds(r: Record, aads: seq<seq<byte>>, chunks: seq<seq<byte>>) {
    IsRecord(r) && WithoutTags(r.inner) == AadUpdates(aads) + DataUpdates(chunks)
  }

  /** Where the port's data loop starts. */
  function PortStart(P: Perms, key: Block, iv: Block, aads: seq<seq<byte>>): State {
    ClosedAd(P, AbsorbCalls(P.pb, AdBuf(WithKey(P.pa(Loaded(key, iv)), key), ZERO_BLOCK, 0), aads))
  }

  /** It is the standard's starting state under the conditions on the AD. */
  lemma GoodStart(P: Perms, key: Block, iv: Block, aads: seq<seq<byte>>)
    requires GoodAad(aads)
    ensures PortStart(P, key, iv, aads) == Started(P, key, iv, Flatten(aads))
  {
    hide ClosedAd, AbsorbCalls, WithAd, WithKey, GoodAad;
    AadInCalls(P, WithKey(P.pa(Loaded(key, iv)), key), aads);
    StartedIs(P, key, iv, Flatten(aads));
  }

  lemma StartedIs(P: Perms, key: Block, iv: Block, ad: seq<byte>)
    ensures Started(P, key, iv, ad) == WithAd(P, WithKey(P.pa(Loaded(key, iv)), key), ad)
  {
  }

  lemma DataStarts(P: Perms, c: Ctx, aads: seq<seq<byte>>)
    requires Inv(c) && !c.adStarted && !c.adDone && c.pos == 0
    requires c.adPart == ZERO_BLOCK && c.adPartSz == 0
    ensures var c1 := AadFinalize(P, Run(P, c, AadUpdates(aads)).ctx);
            c1.s == ClosedAd(P, AbsorbCalls(P.pb, AdBuf(WithKey(P.pa(c.s), c.key), ZERO_BLOCK, 0), aads)) && c1.pos == 0
  {
    hide Run, Absorb, ClosedAd, WithKey, Shown;
    AadUpdatesAbsorb(P, c, aads);
  }

  lemma {:induction false} ShownAppend(a: seq<Seen>, b: seq<Seen>)
    ensures Shown(a + b) == Shown(a) + Shown(b)
    ensures AllOk(a) && AllOk(b) ==> AllOk(a + b)
  {
    if a == [] {
      assert a + b == b;
    } else {
      ShownAppend(a[1..], b);
      assert (a + b)[1..] == a[1..] + b;
    }
  }

  /** The calls between init and final on a fresh context. */
  lemma InnerComputes(P: Perms, key: Block, r: Record, aads: seq<seq<byte>>, chunks: seq<seq<byte>>)
    requires Feeds(r, aads, chunks)
    ensures var f := Feed(P.pb, AEAD_RATE, if r.enc then Enc else Dec, Cursor(PortStart(P, KeyOf(r, key), r.iv, aads), 0),
                          Flatten(chunks));
            && Shown(Inner(P, key, r).seen) == f.out
            && (forall i :: 0 <= i < |r.inner| ==> (Inner(P, key, r).seen[i].ok <==> Fits(r.inner[i])))
            && MadeBy(P, key, r) == Tag(Finalized(P, KeyOf(r, key), Padded(f.c)))
  {
    hide Run, Apply, Feed, AadFinalize, Finalized, WithKey, Padded, Shown, AadUpdates, DataUpdates, AbsorbCalls, Tag,
         Loaded, Fits, LastGiven, KeyOf, ClosedAd, WithoutTags, AllOk, Flatten;
    InitIs(P, Fresh(key), r);
    var e := Apply(P, Fresh(key), InitOf(r)).ctx;
    DataStarts(P, e, aads);
    AadUpdatesAbsorb(P, e, aads);
    var ta := Run(P, e, AadUpdates(aads));
    DataUpdatesFeed(P, ta.ctx, chunks);
    var td := Run(P, ta.ctx, DataUpdates(chunks));
    RunAppend(P, e, AadUpdates(aads), DataUpdates(chunks));
    ShownAppend(ta.seen, td.seen);
    TagsMoveOut(P, e, r.inner);
    MadeIgnoresTag(P, td.ctx, Inner(P, key, r).ctx.tag);
    MadeAfterFeeding(P, ta.ctx, td.ctx, Flatten(chunks));
  }

  lemma MadeIgnoresTag(P: Perms, c: Ctx, tag: Block)
    requires Inv(c)
    ensures Made(P, c.(tag := tag)) == Made(P, c)
  {
    hide ClosedAd, Finalized, Padded;
  }

  /** The tag made by a context that stands where feeding left it. */
  lemma MadeAfterFeeding(P: Perms, c: Ctx, e: Ctx, d: seq<byte>)
    requires Inv(c) && Inv(e)
    requires var c1 := AadFinalize(P, c);
             var f := Feed(P.pb, AEAD_RATE, if c.enc then Enc else Dec, Cursor(c1.s, c1.pos), d);
             AadFinalize(P, e) == c1.(s := f.c.s, pos := f.c.pos)
    ensures var c1 := AadFinalize(P, c);
            var f := Feed(P.pb, AEAD_RATE, if c.enc then Enc else Dec, Cursor(c1.s, c1.pos), d);
            Made(P, e) == Tag(Finalized(P, c.key, Padded(f.c)))
  {
    hide Feed, AadFinalize, Finalized;
  }

  /** A whole record, both directions, on any context: the output is the
      sponge's, fed with the concatenated chunks from where the AD leaves it, and
      the tag that final compares is the last one set, or init's, or the one an
      earlier record left behind. */
  lemma RecordComputes(P: Perms, c: Ctx, r: Record, aads: seq<seq<byte>>, chunks: seq<seq<byte>>)
    requires Inv(c) && Feeds(r, aads, chunks)
    ensures var t := Run(P, c, Calls(r));
            var f := Feed(P.pb, AEAD_RATE, if r.enc then Enc else Dec, Cursor(PortStart(P, KeyOf(r, c.key), r.iv, aads), 0),
                          Flatten(chunks));
            var made, tag := Tag(Finalized(P, KeyOf(r, c.key), Padded(f.c))), OrElse(RecordTag(r), c.tag);
            var n := 1 + |r.inner|;
            && |t.seen| == n + 2 && t.seen[0].ok
            && (forall i :: 0 <= i < |r.inner| ==> (t.seen[1..n][i].ok <==> Fits(r.inner[i])))
            && Shown(t.seen[1..n]) == f.out
            && t.seen[n].ok == (r.enc || tag == made)
            && t.seen[n + 1].out == if r.enc then made else tag
  {
    hide Run, Feed, Finalized, Padded, Shown, Tag, Fits, PortStart, Feeds, Calls, MadeBy, Inner, RecordTag, KeyOf;
    assert IsRecord(r) by { FeedsIsRecord(r, aads, chunks); }
    RecordShows(P, c, r);
    InnerComputes(P, c.key, r, aads, chunks);
    var s := Inner(P, c.key, r).seen;
    InnerSize(P, c.key, r);
    assert Run(P, c, Calls(r)).seen[1..1 + |r.inner|] == s;
  }

  lemma FeedsIsRecord(r: Record, aads: seq<seq<byte>>, chunks: seq<seq<byte>>)
    requires Feeds(r, aads, chunks)
    ensures IsRecord(r)
  {
  }

  lemma InnerSize(P: Perms, key: Block, r: Record)
    ensures |Inner(P, key, r).seen| == |r.inner|
  {
  }

  // ------------------------------------------------------------ the theorems

  /** An OpenSSL record encrypts as the one-shot definition does. */
  lemma OsslEncryptsOneShot(P: Perms, c: Ctx, r: Record, aads: seq<seq<byte>>, chunks: seq<seq<byte>>)
    requires Inv(c) && Feeds(r, aads, chunks) && r.enc && GoodAad(aads)
    ensures var t, n := Run(P, c, Calls(r)), 1 + |r.inner|;
            var sealed := Seal(P, KeyOf(r, c.key), r.iv, Flatten(aads), Flatten(chunks));
            && |t.seen| == n + 2 && t.seen[0].ok
            && (forall i :: 0 <= i < |r.inner| ==> (t.seen[1..n][i].ok <==> Fits(r.inner[i])))
            && Shown(t.seen[1..n]) == sealed.ct
            && t.seen[n].ok && t.seen[n + 1].out == sealed.tag
  {
    hide Run, Calls, Feed, Blocks, Started, Finalized, Feeds, GoodAad, PortStart, Shown, Fits, KeyOf;
    RecordComputes(P, c, r, aads, chunks);
    GoodStart(P, KeyOf(r, c.key), r.iv, aads);
    FeedIsBlocks(P.pb, AEAD_RATE, Started(P, KeyOf(r, c.key), r.iv, Flatten(aads)), Flatten(chunks));
  }

  /** An OpenSSL record decrypts to the plaintext whose encryption the
      ciphertext is, and its verdict is exactly whether the tag in force is that
      encryption's. */
  lemma OsslDecryptionIsExact(P: Perms, c: Ctx, r: Record, aads: seq<seq<byte>>, chunks: seq<seq<byte>>)
    requires Inv(c) && Feeds(r, aads, chunks) && !r.enc && GoodAad(aads)
    ensures var t, n := Run(P, c, Calls(r)), 1 + |r.inner|;
            var tag := OrElse(RecordTag(r), c.tag);
            && |t.seen| == n + 2 && t.seen[0].ok
            && (forall i :: 0 <= i < |r.inner| ==> (t.seen[1..n][i].ok <==> Fits(r.inner[i])))
            && var pt := Shown(t.seen[1..n]);
            && Seal(P, KeyOf(r, c.key), r.iv, Flatten(aads), pt).ct == Flatten(chunks)
            && (t.seen[n].ok <==> Seal(P, KeyOf(r, c.key), r.iv, Flatten(aads), pt) == Sealed(Flatten(chunks), tag))
  {
    hide Run, Calls, Feed, Blocks, Started, Finalized, Feeds, GoodAad, PortStart, Shown, Fits, KeyOf, RecordTag;
    var s := Started(P, KeyOf(r, c.key), r.iv, Flatten(aads));
    RecordComputes(P, c, r, aads, chunks);
    GoodStart(P, KeyOf(r, c.key), r.iv, aads);
    FeedRoundTrip(P.pb, AEAD_RATE, Dec, Cursor(s, 0), Flatten(chunks));
    FeedIsBlocks(P.pb, AEAD_RATE, s, Feed(P.pb, AEAD_RATE, Dec, Cursor(s, 0), Flatten(chunks)).out);
  }

  /** wolfSSL encrypts, OpenSSL decrypts, each with chunks of its own. */
  lemma OsslOpensWolf(P: Perms, w: WC.Ctx, c: Ctx, r: Record, aads: seq<seq<byte>>,
                      plain: seq<seq<byte>>, cipher: seq<seq<byte>>)
    requires WC.Inv(w) && Inv(c) && Feeds(r, aads, cipher) && !r.enc && GoodAad(aads) && plain != []
    requires var e := W.Run(P, w, W.EncryptCalls(KeyOf(r, c.key), r.iv, Flatten(aads), plain));
             && Flatten(cipher) == W.Outputs(e.results[4..4 + |plain|])
             && RecordTag(r).Some? && RecordTag(r).value == e.results[4 + |plain|].out
    ensures var t, n := Run(P, c, Calls(r)), 1 + |r.inner|;
            t.seen[n].ok && Shown(t.seen[1..n]) == Flatten(plain)
  {
    hide Run, W.Run, Calls, Seal, GoodAad, Feeds, Shown, Fits, KeyOf, RecordTag;
    W.StreamingEncryptsOneShot(P, w, KeyOf(r, c.key), r.iv, Flatten(aads), plain);
    OsslDecryptionIsExact(P, c, r, aads, cipher);
    W.SealInjective(P, KeyOf(r, c.key), r.iv, Flatten(aads), Flatten(plain), Shown(Run(P, c, Calls(r)).seen[1..1 + |r.inner|]));
  }

  /** OpenSSL encrypts, wolfSSL decrypts. */
  lemma WolfOpensOssl(P: Perms, w: WC.Ctx, c: Ctx, r: Record, aads: seq<seq<byte>>,
                      plain: seq<seq<byte>>, cipher: seq<seq<byte>>)
    requires WC.Inv(w) && Inv(c) && Feeds(r, aads, plain) && r.enc && GoodAad(aads) && cipher != []
    requires Flatten(cipher) == Shown(Run(P, c, Calls(r)).seen[1..1 + |r.inner|])
    ensures var tag := Run(P, c, Calls(r)).seen[1 + |r.inner| + 1].out;
            && |tag| == 16
            && var d := W.Run(P, w, W.DecryptCalls(KeyOf(r, c.key), r.iv, Flatten(aads), cipher, tag));
            && d.results[4 + |cipher|].ret == WC.Success
            && W.Outputs(d.results[4..4 + |cipher|]) == Flatten(plain)
  {
    hide Run, W.Run, Calls, Seal, GoodAad, Feeds, Shown, Fits, KeyOf;
    OsslEncryptsOneShot(P, c, r, aads, plain);
    var sealed := Seal(P, KeyOf(r, c.key), r.iv, Flatten(aads), Flatten(plain));
    W.StreamingDecryptionIsExact(P, w, KeyOf(r, c.key), r.iv, Flatten(aads), cipher, sealed.tag);
    var d := W.Run(P, w, W.DecryptCalls(KeyOf(r, c.key), r.iv, Flatten(aads), cipher, sealed.tag));
    W.SealInjective(P, KeyOf(r, c.key), r.iv, Flatten(aads), Flatten(plain), W.Outputs(d.results[4..4 + |cipher|]));
  }

  // ------------------------------------------------- a tag left by a record

  /** A context that has encrypted a record then accepts that record's own
      ciphertext without being given a tag, whatever the AD and the splits; a
      fresh context accepts it only if the tag happens to be zero. */
  lemma StaleTagAccepts(P: Perms, c: Ctx, e: Record, d: Record, aads: seq<seq<byte>>,
                        plain: seq<seq<byte>>, cipher: seq<seq<byte>>)
    requires Inv(c) && Feeds(e, aads, plain) && Feeds(d, aads, cipher)
    requires e.enc && !d.enc && RecordTag(d).None? && e.iv == d.iv && KeyOf(d, KeyOf(e, c.key)) == KeyOf(e, c.key)
    requires Flatten(cipher) == Shown(Run(P, c, Calls(e)).seen[1..1 + |e.inner|])
    ensures var seen, n := RunRecords(P, c, [e, d])[1], 1 + |d.inner|;
            && |seen| == n + 2 && seen[n].ok && Shown(seen[1..n]) == Flatten(plain)
    ensures Run(P, Fresh(KeyOf(e, c.key)), Calls(d)).seen[1 + |d.inner|].ok
            <==> Run(P, c, Calls(e)).seen[2 + |e.inner|].out == ZERO_BLOCK
  {
    hide Run, Calls, Feed, Finalized, Feeds, PortStart, Shown, Fits, RecordTag, Padded, Tag, KeyOf;
    var start := Cursor(PortStart(P, KeyOf(e, c.key), e.iv, aads), 0);
    RecordComputes(P, c, e, aads, plain);
    var c2 := Run(P, c, Calls(e)).ctx;
    FeedsIsRecord(e, aads, plain);
    RecordLeavesTag(P, c, e);
    RecordComputes(P, c2, d, aads, cipher);
    RecordComputes(P, Fresh(KeyOf(e, c.key)), d, aads, cipher);
    FeedRoundTrip(P.pb, AEAD_RATE, Enc, start, Flatten(plain));
    TwoRecords(P, c, e, d);
  }

  /** The tag and the key a record leaves in the context. */
  lemma RecordLeavesTag(P: Perms, c: Ctx, r: Record)
    requires Inv(c) && IsRecord(r)
    ensures var t := Run(P, c, Calls(r));
            t.ctx.key == KeyOf(r, c.key) && t.seen[2 + |r.inner|].out == t.ctx.tag
  {
    RecordShows(P, c, r);
    hide Apply, Run, Final, Calls;
    RecordSplits(P, c, r);
  }

  lemma TwoRecords(P: Perms, c: Ctx, e: Record, d: Record)
    requires Inv(c)
    ensures RunRecords(P, c, [e, d])[1] == Run(P, Run(P, c, Calls(e)).ctx, Calls(d)).seen
  {
    hide Run, Calls;
    assert [e, d][1..] == [d];
  }
}
