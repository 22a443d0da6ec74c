/** Runs of provider calls: records on one reused context, and what each record
    computes. */
module OsslRuns {
  import opened Wrappers
  import opened Sponge
  import opened OneShot
  import opened Buffers
  import opened OsslCalls
  import opened OsslAad
  import opened OsslProvider

  datatype Call =
    | CallInit(tag: Option<seq<byte>>, key: Option<seq<byte>>, iv: Option<seq<byte>>, enc: bool)
    | CallSetTag(newTag: seq<byte>)
    | CallUpdate(aad: bool, data: seq<byte>, outSize: nat)
    | CallFinal
    | CallGetTag

  function Apply(P: Perms, c: Ctx, call: Call): (r: Result)
    requires Inv(c)
    ensures Inv(r.ctx)
  {
    match call
    case CallInit(tag, key, iv, enc) => InitCall(c, tag, key, iv, enc)
    case CallSetTag(tag) => SetTag(c, Some(tag))
    case CallUpdate(aad, d, n) => UpdateCall(P, c, aad, d, n)
    case CallFinal => var v := Final(P, c); Result(v.ok, v.ctx, [])
    case CallGetTag => Result(true, c, c.tag)
  }

  /** What the caller sees of one call. */
  datatype Seen = Seen(ok: bool, out: seq<byte>)

  datatype Trace = Trace(ctx: Ctx, seen: seq<Seen>)

  function Run(P: Perms, c: Ctx, calls: seq<Call>): (t: Trace)
    requires Inv(c)
    ensures Inv(t.ctx) && |t.seen| == |calls|
    decreases |calls|
  {
    if calls == [] then Trace(c, [])
    else
      var r := Apply(P, c, calls[0]);
      var t := Run(P, r.ctx, calls[1..]);
      Trace(t.ctx, [Seen(r.ok, r.out)] + t.seen)
  }

  lemma RunCons(P: Perms, c: Ctx, call: Call, rest: seq<Call>)
    requires Inv(c)
    ensures var r := Apply(P, c, call);
            var t := Run(P, r.ctx, rest);
            Run(P, c, [call] + rest) == Trace(t.ctx, [Seen(r.ok, r.out)] + t.seen)
  {
    hide Apply;
    assert ([call] + rest)[1..] == rest;
  }

  lemma {:induction false} RunAppend(P: Perms, c: Ctx, a: seq<Call>, b: seq<Call>)
    requires Inv(c)
    ensures var t := Run(P, c, a);
            var u := Run(P, t.ctx, b);
            Run(P, c, a + b) == Trace(u.ctx, t.seen + u.seen)
    decreases |a|
  {
    hide Apply;
    if a == [] {
      assert a + b == b;
    } else {
      RunAppend(P, Apply(P, c, a[0]).ctx, a[1..], b);
      assert (a + b)[1..] == a[1..] + b;
    }
  }

  // ------------------------------------------------------------ one record

  /** One record: init with its iv and perhaps a key and its tag, then updates
      and tag settings in any order, final, get the tag. */
  datatype Record = Record(enc: bool, key: Option<Block>, iv: Block, tag: Option<Block>, inner: seq<Call>)

  predicate IsRecord(r: Record) {
    forall u :: u in r.inner ==> u.CallUpdate? || u.CallSetTag?
  }

  function InitOf(r: Record): Call {
    CallInit(if r.tag.None? then None else Some(r.tag.value), if r.key.None? then None else Some(r.key.value),
             Some(r.iv), r.enc)
  }

  function Calls(r: Record): seq<Call> {
    [InitOf(r)] + r.inner + [CallFinal, CallGetTag]
  }

  /** The tag that a call sets. */
  function Given(u: Call): Option<Block> {
    if u.CallSetTag? && |u.newTag| == 16 then Some(u.newTag) else None
  }

  /** The last tag that any of the calls sets. */
  function LastGiven(calls: seq<Call>): Option<Block> {
    if calls == [] then None
    else
      var later := LastGiven(calls[1..]);
      if later.Some? then later else Given(calls[0])
  }

  /** The tag a record brings along: the last one set, or init's. */
  function RecordTag(r: Record): Option<Block> {
    var later := LastGiven(r.inner);
    if later.Some? then later else r.tag
  }

  /** The key a record runs under, on a context with the given one. */
  function KeyOf(r: Record, key: Block): Block {
    OrElse(r.key, key)
  }

  /** The tag that final computes. */
  function Made(P: Perms, c: Ctx): Block
    requires Inv(c)
  {
    var c1 := AadFinalize(P, c);
    Tag(Finalized(P, c.key, Padded(Cursor(c1.s, c1.pos))))
  }

  lemma InnerCallIgnoresTag(P: Perms, c: Ctx, tag: Block, u: Call)
    requires Inv(c) && (u.CallUpdate? || u.CallSetTag?)
    ensures var r := Apply(P, c, u);
            var s := Apply(P, c.(tag := tag), u);
            && s.ok == r.ok && s.out == r.out && s.ctx == r.ctx.(tag := OrElse(Given(u), tag))
            && r.ctx.tag == OrElse(Given(u), c.tag) && r.ctx.key == c.key && r.ctx.enc == c.enc
  {
    hide Feed, Absorb, ClosedAd;
  }

  /** Between init and final no call reads the tag: from contexts that differ in
      it only, all calls show the same, and the last tag set wins. */
  lemma {:induction false} InnerCallsIgnoreTag(P: Perms, c: Ctx, tag: Block, calls: seq<Call>)
    requires Inv(c) && forall u :: u in calls ==> u.CallUpdate? || u.CallSetTag?
    ensures var t := Run(P, c, calls);
            var u := Run(P, c.(tag := tag), calls);
            && u.seen == t.seen && u.ctx == t.ctx.(tag := OrElse(LastGiven(calls), tag))
            && t.ctx.tag == OrElse(LastGiven(calls), c.tag) && t.ctx.key == c.key && t.ctx.enc == c.enc
    decreases |calls|
  {
    if calls != [] {
      InnerCallIgnoresTag(P, c, tag, calls[0]);
      hide Apply, Given;
      InnerCallsIgnoreTag(P, Apply(P, c, calls[0]).ctx, OrElse(Given(calls[0]), tag), calls[1..]);
    }
  }

  lemma RecordSplits(P: Perms, c: Ctx, r: Record)
    requires Inv(c)
    ensures var c1 := Apply(P, c, InitOf(r));
            var t := Run(P, c1.ctx, r.inner);
            var v := Final(P, t.ctx);
            Run(P, c, Calls(r)) == Trace(v.ctx, [Seen(c1.ok, c1.out)] + (t.seen + [Seen(v.ok, []), Seen(true, v.ctx.tag)]))
  {
    hide Apply, Run, Final;
    var c1 := Apply(P, c, InitOf(r)).ctx;
    EndOfRecord(P, Run(P, c1, r.inner).ctx);
    RunAppend(P, c1, r.inner, [CallFinal, CallGetTag]);
    RunCons(P, c, InitOf(r), r.inner + [CallFinal, CallGetTag]);
    assert Calls(r) == [InitOf(r)] + (r.inner + [CallFinal, CallGetTag]);
  }

  lemma EndOfRecord(P: Perms, c: Ctx)
    requires Inv(c)
    ensures var v := Final(P, c);
            Run(P, c, [CallFinal, CallGetTag]) == Trace(v.ctx, [Seen(v.ok, []), Seen(true, v.ctx.tag)])
            && v.ctx.key == c.key
  {
    hide AadFinalize, Finalized;
    assert [CallFinal, CallGetTag][1..] == [CallGetTag] && [CallGetTag][1..] == [];
    var v := Final(P, c);
    assert Run(P, v.ctx, [CallGetTag]) == Trace(v.ctx, [Seen(true, v.ctx.tag)]);
  }

  lemma FinalIs(P: Perms, c: Ctx, tag: Block)
    requires Inv(c)
    ensures var v := Final(P, c.(tag := tag));
            && v.ok == (c.enc || tag == Made(P, c)) && v.ctx.key == c.key
            && v.ctx.tag == if c.enc then Made(P, c) else tag
  {
    hide ClosedAd, Finalized, Padded;
  }

  /** A context straight from allocation with only the key set. */
  function Fresh(key: Block): Ctx {
    Ctx(seq(STATE_SZ, i => 0), key, ZERO_BLOCK, 0, ZERO_BLOCK, 0, false, false, false)
  }

  lemma InitIs(P: Perms, c: Ctx, r: Record)
    requires Inv(c)
    ensures var c1 := Apply(P, c, InitOf(r));
            && c1.ok && c1.out == []
            && c1.ctx == Ctx(Loaded(KeyOf(r, c.key), r.iv), KeyOf(r, c.key), ZERO_BLOCK, 0, OrElse(r.tag, c.tag), 0, r.enc,
                          false, false)
  {
  }

  /** The record up to final on a fresh context, and the tag it then has. */
  function Inner(P: Perms, key: Block, r: Record): Trace {
    Run(P, Apply(P, Fresh(key), InitOf(r)).ctx, r.inner)
  }

  function MadeBy(P: Perms, key: Block, r: Record): Block {
    Made(P, Inner(P, key, r).ctx)
  }

  /** All that a record shows, on any context: what it would show on a fresh one
      before final; and final's verdict and tag, which depend on the context
      through the tag it is left with when the record brings none. */
  lemma RecordShows(P: Perms, c: Ctx, r: Record)
    requires Inv(c) && IsRecord(r)
    ensures var t, made, tag := Inner(P, c.key, r), MadeBy(P, c.key, r), OrElse(RecordTag(r), c.tag);
            && Run(P, c, Calls(r)).seen
               == [Seen(true, [])] + (t.seen + [Seen(r.enc || tag == made, []), Seen(true, if r.enc then made else tag)])
            && Run(P, c, Calls(r)).ctx.key == KeyOf(r, c.key)
  {
    hide Apply, Run, Final, Made, Calls, LastGiven, KeyOf;
    InitIs(P, c, r);
    InitIs(P, Fresh(c.key), r);
    var e := Apply(P, Fresh(c.key), InitOf(r)).ctx;
    var tag := OrElse(r.tag, c.tag);
    InnerCallsIgnoreTag(P, e, tag, r.inner);
    FinalIs(P, Run(P, e, r.inner).ctx, OrElse(LastGiven(r.inner), tag));
    RecordSplits(P, c, r);
  }

  // -------------------------------------------------- record independence

  /** What a record shows depends on the key and the record only, whatever the
      context went through before, if it encrypts or brings its tag; and on the
      record alone if it brings the key too. */
  lemma RecordForgetsContext(P: Perms, c: Ctx, d: Ctx, r: Record)
    requires Inv(c) && Inv(d) && IsRecord(r) && KeyOf(r, c.key) == KeyOf(r, d.key)
    requires r.enc || RecordTag(r).Some?
    ensures Run(P, c, Calls(r)).seen == Run(P, d, Calls(r)).seen
  {
    hide Run, MadeBy, Inner, Calls, RecordTag, KeyOf;
    RecordShows(P, c, r);
    RecordShows(P, d, r);
    InnerUnderKey(P, c.key, d.key, r);
  }

  lemma InnerUnderKey(P: Perms, a: Block, b: Block, r: Record)
    requires IsRecord(r) && KeyOf(r, a) == KeyOf(r, b)
    ensures Inner(P, a, r) == Inner(P, b, r) && MadeBy(P, a, r) == MadeBy(P, b, r)
  {
    hide Run, Apply, KeyOf, Made;
    InitIs(P, Fresh(a), r);
    InitIs(P, Fresh(b), r);
  }

  /** And only then: reset leaves the tag alone and final reads it. Decryption
      without a tag accepts on a context that was left with the tag it computes,
      and on no other. */
  lemma LeftoverTagDecides(P: Perms, c: Ctx, r: Record)
    requires Inv(c) && IsRecord(r) && !r.enc && RecordTag(r).None?
    ensures Run(P, c, Calls(r)).seen[1 + |r.inner|].ok <==> c.tag == MadeBy(P, c.key, r)
  {
    hide Run, MadeBy, Calls, RecordTag;
    RecordShows(P, c, r);
  }

  lemma RecordForgetsContextExactly(P: Perms, key: Block, r: Record)
    requires IsRecord(r)
    ensures (forall c, d :: Inv(c) && Inv(d) && KeyOf(r, c.key) == KeyOf(r, key) == KeyOf(r, d.key) ==>
               Run(P, c, Calls(r)).seen == Run(P, d, Calls(r)).seen)
            <==> r.enc || RecordTag(r).Some?
  {
    if r.enc || RecordTag(r).Some? {
      forall c, d | Inv(c) && Inv(d) && KeyOf(r, c.key) == KeyOf(r, key) == KeyOf(r, d.key)
        ensures Run(P, c, Calls(r)).seen == Run(P, d, Calls(r)).seen
      {
        RecordForgetsContext(P, c, d, r);
      }
    } else {
      var made := MadeBy(P, key, r);
      var other: Block := made[0 := if made[0] == 0 then 1 else 0];
      var c, d := Fresh(key).(tag := made), Fresh(key).(tag := other);
      assert other[0] != made[0];
      hide Run, MadeBy, Calls, RecordTag;
      LeftoverTagDecides(P, c, r);
      LeftoverTagDecides(P, d, r);
      assert Run(P, c, Calls(r)).seen != Run(P, d, Calls(r)).seen;
    }
  }

  /** The key of the context when the record with index i begins. */
  function KeyBefore(key: Block, rs: seq<Record>, i: nat): Block
    requires i <= |rs|
    decreases i
  {
    if i == 0 then key else KeyBefore(KeyOf(rs[0], key), rs[1..], i - 1)
  }

  function RunRecords(P: Perms, c: Ctx, rs: seq<Record>): (seen: seq<seq<Seen>>)
    requires Inv(c)
    ensures |seen| == |rs| && forall i :: 0 <= i < |rs| ==> |seen[i]| == |rs[i].inner| + 3
    decreases |rs|
  {
    if rs == [] then []
    else
      var t := Run(P, c, Calls(rs[0]));
      [t.seen] + RunRecords(P, t.ctx, rs[1..])
  }

  /** Any number of records on one context, with keys of their own or not: each
      that encrypts or brings its tag shows what it would have shown on a
      context of its own. */
  lemma {:induction false} RecordsAreIndependent(P: Perms, c: Ctx, rs: seq<Record>, i: nat)
    requires Inv(c) && i < |rs| && forall r :: r in rs ==> IsRecord(r)
    requires rs[i].enc || RecordTag(rs[i]).Some?
    ensures RunRecords(P, c, rs)[i] == Run(P, Fresh(KeyBefore(c.key, rs, i)), Calls(rs[i])).seen
    decreases |rs|
  {
    hide Run, Calls, IsRecord, MadeBy, Inner, RecordTag, KeyOf;
    if i == 0 {
      RecordForgetsContext(P, c, Fresh(c.key), rs[0]);
    } else {
      RecordShows(P, c, rs[0]);
      RecordsAreIndependent(P, Run(P, c, Calls(rs[0])).ctx, rs[1..], i - 1);
    }
  }
}
