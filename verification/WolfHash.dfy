/** wc_AsconHash256 and the HMAC chain of hmac_oracle.c over it. */
module WolfHash {
  import opened Sponge
  import opened OneShot
  import opened Buffers
  import opened HashSpec

  datatype Ret = Success | BadFuncArg

  class AsconHash256 {
    const perm: Perm
    const state: array<byte>
    var lastBlkSz: nat

    ghost predicate Valid()
      reads this, state
    {
      state.Length == STATE_SZ && lastBlkSz < HASH_RATE
    }

    ghost function Ctx(): Cursor
      requires Valid()
      reads this, state
    {
      Cursor(state[..], lastBlkSz)
    }

    constructor (perm: Perm)
      ensures Valid() && fresh(state) && this.perm == perm
      ensures Ctx() == Fresh(perm)
    {
      this.perm := perm;
      state := new byte[STATE_SZ](i => 0);
      lastBlkSz := 0;
      new;
      Init();
    }

    method Init()
      requires state.Length == STATE_SZ
      modifies this, state
      ensures Valid() && Ctx() == Fresh(perm)
    {
      forall i | 0 <= i < STATE_SZ { state[i] := 0; }
      lastBlkSz := 0;
      PutBytes(state, 0, HASH_IV);
      assert state[..] == HASH_IV + seq(32, i => 0);
      Permute(state, perm);
    }

    method Update(data: array?<byte>, dataSz: nat) returns (ret: Ret)
      requires Valid() && data != state && (data != null ==> dataSz <= data.Length)
      modifies this, state
      ensures Valid()
      ensures ret == if data == null && dataSz > 0 then BadFuncArg else Success
      ensures Ctx() == if ret == BadFuncArg then old(Ctx()) else Absorb(perm, old(Ctx()), Read(data, 0, dataSz))
    {
      hide Absorb;
      if data == null && dataSz != 0 { return BadFuncArg; }
      AbsorbNothing(perm, Ctx());
      if dataSz == 0 { return Success; }
      ghost var c, d := Ctx(), data[..dataSz];
      assert Read(data, 0, dataSz) == d && d[..0] == [];
      var i := 0;
      if lastBlkSz != 0 {
        i := if HASH_RATE - lastBlkSz < dataSz then HASH_RATE - lastBlkSz else dataSz;
        XorPiece(data, 0, i, c, d);
        if lastBlkSz != 0 {
          assert d[..i] == d;
          return Success;
        }
      }
      while dataSz - i >= HASH_RATE
        invariant 0 <= i <= dataSz && Valid() && lastBlkSz == 0
        invariant Ctx() == Absorb(perm, c, d[..i])
      {
        XorPiece(data, i, HASH_RATE, c, d);
        i := i + HASH_RATE;
      }
      XorPiece(data, i, dataSz - i, c, d);
      assert d[..dataSz] == d;
      return Success;
    }

    /** xorbuf of one piece, with the permutation when it fills the block. */
    method XorPiece(data: array<byte>, i: nat, n: nat, ghost c: Cursor, ghost d: seq<byte>)
      requires Valid() && data != state && lastBlkSz + n <= HASH_RATE
      requires |d| <= data.Length && d == data[..|d|] && i + n <= |d|
      requires c.pos < HASH_RATE && Ctx() == Absorb(perm, c, d[..i])
      modifies this`lastBlkSz, state
      ensures Valid() && Ctx() == Absorb(perm, c, d[..i + n])
      ensures lastBlkSz == if old(lastBlkSz) + n == HASH_RATE then 0 else old(lastBlkSz) + n
    {
      hide Absorb, XorByte, XorAt;
      AbsorbPiece(perm, c, d, i, n);
      assert Read(data, i, n) == d[i..i + n];
      XorBuf(state, lastBlkSz, data, i, n);
      lastBlkSz := lastBlkSz + n;
      if lastBlkSz == HASH_RATE {
        Permute(state, perm);
        lastBlkSz := 0;
      }
    }

    /** The digest, and a context as good as a new one. */
    method Final(hash: array?<byte>) returns (ret: Ret)
      requires Valid() && hash != state && (hash != null ==> hash.Length == 32)
      modifies this, state, hash
      ensures Valid()
      ensures ret == if hash == null then BadFuncArg else Success
      ensures hash != null ==> hash[..] == Digest(perm, old(Ctx()))
      ensures Ctx() == if hash == null then old(Ctx()) else Fresh(perm)
    {
      hide XorByte, XorAt;
      if hash == null { return BadFuncArg; }
      XorBytes(state, lastBlkSz, PAD);
      ghost var s: State := state[..];
      var i := 0;
      while i < 4
        invariant 0 <= i <= 4 && lastBlkSz < HASH_RATE
        invariant state[..] == Permuted(perm, s, i)
        invariant hash[..8 * i] == Squeeze(perm, s, i)
      {
        ghost var before := hash[..8 * i];
        Permute(state, perm);
        CopyBuf(hash, 8 * i, state, 0, HASH_RATE);
        i := i + 1;
        assert hash[..8 * i] == before + state[..HASH_RATE];
      }
      assert hash[..] == hash[..8 * 4];
      Init();
      return Success;
    }
  }

  // ------------------------------------------------------------------ HMAC

  const IPAD: byte := 0x36
  const OPAD: byte := 0x5c

  function KeyPad(key: seq<byte>, pad: byte): (r: seq<byte>)
    ensures |r| == |key|
  {
    seq(|key|, i requires 0 <= i < |key| => XorByte(key[i], pad))
  }

  /** Section 2 of RFC 2104 with the block size of Ascon-Hash256, eight bytes:
      of the hashed key only the first eight bytes enter. */
  function Hmac(pa: Perm, key: seq<byte>, msg: seq<byte>): seq<byte> {
    var k := Hash(pa, key)[..HASH_RATE];
    Hash(pa, KeyPad(k, OPAD) + Hash(pa, KeyPad(k, IPAD) + msg))
  }

  /** In bytes: the first eight bytes of the hashed key with 0x36 before the
      message, with 0x5C before that digest. */
  lemma HmacInBytes(pa: Perm, key: seq<byte>, msg: seq<byte>, inner: seq<byte>, outer: seq<byte>)
    requires |inner| == |outer| == 8
    requires forall i :: 0 <= i < 8 ==> inner[i] == Hash(pa, key)[i] ^ 0x36 && outer[i] == Hash(pa, key)[i] ^ 0x5C
    ensures Hmac(pa, key, msg) == Hash(pa, outer + Hash(pa, inner + msg))
  {
    hide Hash;
    var k := Hash(pa, key)[..HASH_RATE];
    assert inner == KeyPad(k, IPAD) && outer == KeyPad(k, OPAD);
  }

  method MakePads(hkey: array<byte>) returns (ipad: array<byte>, opad: array<byte>)
    requires hkey.Length == 32
    ensures fresh(ipad) && fresh(opad) && ipad != opad && ipad.Length == opad.Length == HASH_RATE
    ensures ipad[..] == KeyPad(hkey[..HASH_RATE], IPAD) && opad[..] == KeyPad(hkey[..HASH_RATE], OPAD)
  {
    hide XorByte;
    ipad, opad := new byte[HASH_RATE](i => 0), new byte[HASH_RATE](i => 0);
    var i := 0;
    while i < HASH_RATE
      invariant 0 <= i <= HASH_RATE
      invariant forall k :: 0 <= k < i ==> ipad[k] == XorByte(hkey[k], IPAD) && opad[k] == XorByte(hkey[k], OPAD)
    {
      ipad[i] := XorByte(hkey[i], IPAD);
      opad[i] := XorByte(hkey[i], OPAD);
      i := i + 1;
    }
  }

  /** Two updates and a final. */
  method DigestPair(h: AsconHash256, a: array<byte>, b: array<byte>, out: array<byte>)
    requires h.Valid() && h.state != a && h.state != b && h.state != out && out.Length == 32
    requires a != out && b != out && h.Ctx() == Fresh(h.perm)
    modifies h, h.state, out
    ensures h.Valid() && h.Ctx() == Fresh(h.perm)
    ensures out[..] == Hash(h.perm, a[..] + b[..])
  {
    hide Absorb, Digest, Hash, Fresh;
    var ret := h.Update(a, a.Length);
    ret := h.Update(b, b.Length);
    ret := h.Final(out);
    assert Read(a, 0, a.Length) == a[..] && Read(b, 0, b.Length) == b[..];
    DigestOfTwo(h.perm, a[..], b[..]);
  }

  /** The whole chain on one context, each stage relying on Final's reset. */
  method HmacOneContext(h: AsconHash256, key: array<byte>, msg: array<byte>) returns (mac: array<byte>)
    requires h.Valid() && h.state != key && h.state != msg
    modifies h, h.state
    ensures h.Valid() && fresh(mac) && mac[..] == Hmac(h.perm, key[..], msg[..])
    ensures h.Ctx() == Fresh(h.perm)
  {
    hide Absorb, Digest, Hash, KeyPad, Fresh;
    var hkey, inner := new byte[32], new byte[32];
    mac := new byte[32];
    h.Init();
    var ret := h.Update(key, key.Length);
    ret := h.Final(hkey);
    assert Read(key, 0, key.Length) == key[..];
    DigestOfOne(h.perm, key[..]);
    var ipad, opad := MakePads(hkey);
    DigestPair(h, ipad, msg, inner);
    DigestPair(h, opad, inner, mac);
  }

  /** ascon_hash of hmac_oracle.c: a context of its own for every digest. */
  method HashOnce(perm: Perm, a: array<byte>, b: array<byte>) returns (out: array<byte>)
    ensures fresh(out) && out.Length == 32 && out[..] == Hash(perm, a[..] + b[..])
  {
    var h := new AsconHash256(perm);
    out := new byte[32];
    DigestPair(h, a, b, out);
  }

  /** The reference chain: three fresh contexts give the same code. */
  method HmacFreshContexts(perm: Perm, key: array<byte>, msg: array<byte>) returns (mac: array<byte>)
    ensures fresh(mac) && mac[..] == Hmac(perm, key[..], msg[..])
  {
    hide Hash, KeyPad;
    var nothing := new byte[0];
    var hkey := HashOnce(perm, key, nothing);
    assert key[..] + nothing[..] == key[..];
    var ipad, opad := MakePads(hkey);
    var inner := HashOnce(perm, ipad, msg);
    mac := HashOnce(perm, opad, inner);
  }
}
