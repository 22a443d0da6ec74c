/** The wc_AsconAEAD128 calls as transitions of a context value: what each one
    returns, writes and leaves behind. */
module WolfCalls {
  import opened Wrappers
  import opened Sponge
  import opened OneShot
  import opened Buffers

  datatype Op = NotSet | Encrypt | Decrypt

  datatype Ret = Success | BadFuncArg | BadState | AuthError

  /** wc_AsconAEAD128; pos is lastBlkSz. */
  datatype Ctx = Ctx(s: State, key: Block, iv: Block, pos: nat, op: Op,
                     keySet: bool, nonceSet: bool, adSet: bool)

  datatype Result = Result(ret: Ret, ctx: Ctx, out: seq<byte>)

  predicate Inv(c: Ctx) {
    && c.pos < AEAD_RATE
    && (c.adSet ==> c.keySet && c.nonceSet)
    && (c.op != NotSet ==> c.adSet)
    && (c.op == NotSet ==> c.pos == 0)
  }

  function Init(c: Ctx): Ctx {
    Ctx(AEAD_IV + seq(32, i => 0), ZERO_BLOCK, c.iv, 0, NotSet, false, false, false)
  }

  /** None stands for a NULL argument throughout. */
  function SetKey(c: Ctx, key: Option<Block>): Result {
    if key.None? then Result(BadFuncArg, c, [])
    else if c.keySet then Result(BadState, c, [])
    else Result(Success, c.(s := PutAt(c.s, 8, key.value), key := key.value, keySet := true), [])
  }

  function SetNonce(c: Ctx, nonce: Option<Block>): Result {
    if nonce.None? then Result(BadFuncArg, c, [])
    else if c.nonceSet then Result(BadState, c, [])
    else Result(Success, c.(s := PutAt(c.s, 24, nonce.value), nonceSet := true), [])
  }

  function SetAD(P: Perms, c: Ctx, ad: Option<seq<byte>>): Result {
    if ad.None? then Result(BadFuncArg, c, [])
    else if !c.keySet || !c.nonceSet then Result(BadState, c, [])
    else Result(Success, c.(s := WithAd(P, WithKey(P.pa(c.s), c.key), ad.value), adSet := true), [])
  }

  function OpOf(dir: Dir): Op {
    if dir.Enc? then Encrypt else Decrypt
  }

  function Update(P: Perms, dir: Dir, c: Ctx, d: Option<seq<byte>>): Result
    requires c.pos < AEAD_RATE
  {
    if d.None? then Result(BadFuncArg, c, [])
    else if !c.keySet || !c.nonceSet || !c.adSet then Result(BadState, c, [])
    else if c.op != NotSet && c.op != OpOf(dir) then Result(BadState, c, [])
    else
      var f := Feed(P.pb, AEAD_RATE, dir, Cursor(c.s, c.pos), d.value);
      Result(Success, c.(s := f.c.s, pos := f.c.pos, op := OpOf(dir)), f.out)
  }

  function EncryptFinal(P: Perms, c: Ctx, nullTag: bool): Result
    requires c.pos < AEAD_RATE
  {
    if nullTag then Result(BadFuncArg, c, [])
    else if !c.keySet || !c.nonceSet || !c.adSet then Result(BadState, c, [])
    else if c.op != Encrypt then Result(BadState, c, [])
    else
      var s := Finalized(P, c.key, Padded(Cursor(c.s, c.pos)));
      Result(Success, c.(s := s), Tag(s))
  }

  function DecryptFinal(P: Perms, c: Ctx, tag: Option<Block>): Result
    requires c.pos < AEAD_RATE
  {
    if tag.None? then Result(BadFuncArg, c, [])
    else if !c.keySet || !c.nonceSet || !c.adSet then Result(BadState, c, [])
    else if c.op != Decrypt then Result(BadState, c, [])
    else
      var s := Finalized(P, c.key, Padded(Cursor(c.s, c.pos)));
      Result(if tag.value == Tag(s) then Success else AuthError, c.(s := s), [])
  }
}
