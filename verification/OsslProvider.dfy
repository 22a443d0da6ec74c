/** The provider entry points of cipher_ascon128.c: as transitions of the
    context value, and as methods over the context in place. */
module OsslProvider {
  import opened Wrappers
  import opened Sponge
  import opened OneShot
  import opened Buffers
  import opened OsslCalls
  import OsslAead

  datatype Result = Result(ok: bool, ctx: Ctx, out: seq<byte>)

  /** The tag parameter of set_ctx_params. */
  function SetTag(c: Ctx, tag: Option<seq<byte>>): (r: Result)
    requires Inv(c)
    ensures Inv(r.ctx) && r.out == []
    ensures r.ok <==> tag.None? || |tag.value| == 16
    ensures r.ok && tag.Some? ==> r.ctx.tag == tag.value && r.ctx.(tag := c.tag) == c
    ensures !r.ok || tag.None? ==> r.ctx == c
  {
    if tag.None? then Result(true, c, [])
    else if |tag.value| != 16 then Result(false, c, [])
    else Result(true, c.(tag := tag.value), [])
  }

  /** ascon128_init: parameters, direction, key, iv, in this order; what was set
      before a bad length stays set. */
  function InitCall(c: Ctx, tag: Option<seq<byte>>, key: Option<seq<byte>>, iv: Option<seq<byte>>, enc: bool): (r: Result)
    requires Inv(c)
    ensures Inv(r.ctx)
  {
    var t := SetTag(c, tag);
    if !t.ok then t
    else
      var c1 := t.ctx.(enc := enc);
      if key.Some? && |key.value| != 16 then Result(false, c1, [])
      else
        var c2 := if key.Some? then c1.(key := key.value) else c1;
        if iv.None? then Result(true, c2, [])
        else if |iv.value| != 16 then Result(false, c2, [])
        else Result(true, Reset(c2, c2.key, iv.value), [])
  }

  /** ascon128_update; aad stands for a NULL output. */
  function UpdateCall(P: Perms, c: Ctx, aad: bool, d: seq<byte>, outSize: nat): (r: Result)
    requires Inv(c)
    ensures Inv(r.ctx)
  {
    if d == [] then Result(true, c, [])
    else if aad then Result(true, AbsorbAad(P, c, d), [])
    else if outSize < |d| then Result(false, c, [])
    else var u := Crypt(P, if c.enc then Enc else Dec, c, d); Result(true, u.ctx, u.out)
  }

  /** What init sets and what it leaves, for every argument. A bad length stops
      it there: direction and tag are set before the key, the key before the
      iv. With an iv the context is ready for a record under the key given, or
      the one it has. */
  lemma InitSets(c: Ctx, tag: Option<seq<byte>>, key: Option<seq<byte>>, iv: Option<seq<byte>>, enc: bool)
    requires Inv(c)
    ensures var r := InitCall(c, tag, key, iv, enc);
            var badTag, badKey := tag.Some? && |tag.value| != 16, key.Some? && |key.value| != 16;
            var badIv := iv.Some? && |iv.value| != 16;
            && r.out == [] && (r.ok <==> !badTag && !badKey && !badIv)
            && (badTag ==> r.ctx == c)
            && (!badTag ==> r.ctx.enc == enc && r.ctx.tag == OrElse(tag, c.tag))
            && (!badTag && badKey ==> r.ctx.(enc := c.enc, tag := c.tag) == c)
            && (!badTag && !badKey ==> r.ctx.key == OrElse(key, c.key))
            && (!badTag && !badKey && (badIv || iv.None?) ==> r.ctx.(enc := c.enc, tag := c.tag, key := c.key) == c)
            && (r.ok && iv.Some? ==>
                  && r.ctx.s[..8] == [0x01, 0x00, 0x8C, 0x80, 0x00, 0x10, 0x00, 0x00]
                  && r.ctx.s[8..24] == r.ctx.key && r.ctx.s[24..] == iv.value
                  && (forall j :: 0 <= j < 16 ==> r.ctx.adPart[j] == 0)
                  && r.ctx.adPartSz == 0 && r.ctx.pos == 0 && !r.ctx.adStarted && !r.ctx.adDone)
  {
    var r := InitCall(c, tag, key, iv, enc);
    if r.ok && iv.Some? {
      LoadedSlices(r.ctx.key, iv.value);
    }
  }

  lemma LoadedSlices(key: Block, nonce: Block)
    ensures var s := Loaded(key, nonce);
            s[..8] == AEAD_IV && s[8..24] == key && s[24..] == nonce
  {
  }

  /** Update fails exactly for data that the output cannot hold, and then
      nothing changes; nor does it for no data. */
  lemma UpdateSets(P: Perms, c: Ctx, aad: bool, d: seq<byte>, outSize: nat)
    requires Inv(c)
    ensures var r := UpdateCall(P, c, aad, d, outSize);
            && (!r.ok <==> |d| > outSize && !aad)
            && (!r.ok || d == [] ==> r.ctx == c)
            && |r.out| == (if r.ok && !aad then |d| else 0)
            && r.ctx.key == c.key && r.ctx.tag == c.tag && r.ctx.enc == c.enc
  {
    hide Feed, Absorb, ClosedAd;
  }

  /** ascon128_set_ctx_params with a tag, or with none. */
  method Ascon128SetTag(ctx: OsslAead.AsconAead128, tag: Option<seq<byte>>) returns (ok: bool)
    requires ctx.Valid()
    modifies ctx`tag
    ensures ctx.Valid()
    ensures var r := SetTag(old(ctx.Ctx()), tag); ok == r.ok && ctx.Ctx() == r.ctx
  {
    if tag.Some? {
      if |tag.value| != 16 { return false; }
      ctx.tag := tag.value;
    }
    return true;
  }

  method Ascon128Init(ctx: OsslAead.AsconAead128, tag: Option<seq<byte>>, key: Option<seq<byte>>,
                      iv: Option<seq<byte>>, enc: bool) returns (ok: bool)
    requires ctx.Valid()
    modifies ctx, ctx.s, ctx.adPart, ctx.ct
    ensures ctx.Valid()
    ensures var r := InitCall(old(ctx.Ctx()), tag, key, iv, enc); ok == r.ok && ctx.Ctx() == r.ctx
  {
    ok := Ascon128SetTag(ctx, tag);
    if !ok { return false; }
    ctx.enc := enc;
    if key.Some? {
      if |key.value| != 16 { return false; }
      ctx.key := key.value;
    }
    if iv.Some? {
      if |iv.value| != 16 { return false; }
      ctx.Reset(ctx.key, iv.value);
    }
    return true;
  }

  method Ascon128Update(ctx: OsslAead.AsconAead128, out: array?<byte>, outSize: nat, inp: array<byte>, inl: nat)
    returns (ok: bool)
    requires ctx.Valid() && inl <= inp.Length && (out != null ==> outSize <= out.Length)
    requires inp != ctx.s && inp != ctx.adPart && inp != ctx.ct
    requires out != ctx.s && out != ctx.adPart && out != ctx.ct
    modifies ctx, ctx.s, ctx.adPart, ctx.ct, out
    ensures ctx.Valid()
    ensures var r := UpdateCall(ctx.perms, old(ctx.Ctx()), out == null, old(inp[..inl]), outSize);
            ok == r.ok && ctx.Ctx() == r.ctx
            && (out != null ==> out[..] == PutAt(old(out[..]), 0, r.out))
  {
    hide AbsorbAad, Crypt;
    assert Read(inp, 0, inl) == inp[..inl];
    assert out != null ==> PutAt(out[..], 0, []) == out[..];
    if inl == 0 { return true; }
    if out == null {
      ctx.AbsorbAad(inp, inl);
      return true;
    }
    if outSize < inl { return false; }
    if ctx.enc {
      ctx.EncryptUpdate(out, 0, inp, 0, inl);
    } else {
      ctx.DecryptUpdate(out, 0, inp, 0, inl);
    }
    return true;
  }
}
