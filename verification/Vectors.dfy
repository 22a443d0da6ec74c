/** The modes on words: what Seal and Hash compute on data of whole words, in
    terms of the rounds on vectors. */
module Vectors {
  import opened Sponge
  import opened OneShot
  import opened AsconMode
  import opened AsconVector

  const IV: bv64 := 0x00001000808C0001
  const SEPARATOR: bv64 := 0x8000_0000_0000_0000

  function Pair(a: bv64, b: bv64): Block {
    Bytes8(a) + Bytes8(b)
  }

  function XorPair(v: Vec, i: nat, a: bv64, b: bv64): Vec
    requires i < 4
  {
    XorInto(XorInto(v, i, a), i + 1, b)
  }

  lemma XorJoins(s: State, off: nat, a: seq<byte>, b: seq<byte>)
    requires off + |a| + |b| <= STATE_SZ
    ensures XorAt(s, off, a + b) == XorAt(XorAt(s, off, a), off + |a|, b)
  {
    hide XorByte;
  }

  lemma PairXored(v: Vec, i: nat, a: bv64, b: bv64)
    requires i < 4
    ensures XorAt(Bytes40(v), 8 * i, Pair(a, b)) == Bytes40(XorPair(v, i, a, b))
  {
    hide XorAt, Bytes40, Bytes8, XorInto;
    XorJoins(Bytes40(v), 8 * i, Bytes8(a), Bytes8(b));
    WordXored(v, i, a);
    WordXored(XorInto(v, i, a), i + 1, b);
  }

  lemma ZeroXored(x: byte)
    ensures XorByte(x, 0) == x
  {
  }

  /** XOR of one byte, as XOR of the word that holds it. */
  lemma PadXored(v: Vec, i: nat)
    requires i < 5
    ensures XorAt(Bytes40(v), 8 * i, PAD) == Bytes40(XorInto(v, i, 1))
  {
    OneInBytes();
    hide XorByte, Bytes40, Bytes8, XorInto;
    WordXored(v, i, 1);
    var s := Bytes40(v);
    forall j | 0 <= j < STATE_SZ
      ensures XorAt(s, 8 * i, PAD)[j] == XorAt(s, 8 * i, Bytes8(1))[j]
    {
      ZeroXored(s[j]);
    }
  }

  lemma SeparatorXored(v: Vec)
    ensures XorAt(Bytes40(v), 39, DOMAIN_SEPARATOR) == Bytes40(XorInto(v, 4, SEPARATOR))
  {
    SeparatorInBytes();
    hide XorByte, Bytes40, Bytes8, XorInto;
    WordXored(v, 4, SEPARATOR);
    var s := Bytes40(v);
    forall j | 0 <= j < STATE_SZ
      ensures XorAt(s, 39, DOMAIN_SEPARATOR)[j] == XorAt(s, 32, Bytes8(SEPARATOR))[j]
    {
      ZeroXored(s[j]);
    }
  }

  lemma OneInBytes()
    ensures Bytes8(1) == [1, 0, 0, 0, 0, 0, 0, 0]
  {
  }

  lemma SeparatorInBytes()
    ensures Bytes8(SEPARATOR) == [0, 0, 0, 0, 0, 0, 0, 0x80]
  {
  }

  lemma IvInBytes()
    ensures Bytes8(IV) == AEAD_IV
  {
  }

  // ---------------------------------------------------------------- stages

  function Start(k0: bv64, k1: bv64, n0: bv64, n1: bv64): Vec {
    XorPair(Rounds12(Vec(IV, k0, k1, n0, n1)), 3, k0, k1)
  }

  lemma LoadedIs(k0: bv64, k1: bv64, n0: bv64, n1: bv64)
    ensures Loaded(Pair(k0, k1), Pair(n0, n1)) == Bytes40(Vec(IV, k0, k1, n0, n1))
  {
    IvInBytes();
    hide Bytes8;
  }

  lemma StartIs(k0: bv64, k1: bv64, n0: bv64, n1: bv64)
    ensures Initialized(Ascon(), Pair(k0, k1), Pair(n0, n1)) == Bytes40(Start(k0, k1, n0, n1))
  {
    var v := Vec(IV, k0, k1, n0, n1);
    LoadedIs(k0, k1, n0, n1);
    hide Bytes40, Pair, Permutation, Rounds12, Loaded, XorPair, XorAt;
    PermutedBytes(v);
    PairXored(Rounds12(v), 3, k0, k1);
  }

  function End(v: Vec, k0: bv64, k1: bv64): Vec {
    XorPair(Rounds12(XorPair(v, 2, k0, k1)), 3, k0, k1)
  }

  lemma TagIs(v: Vec)
    ensures Tag(Bytes40(v)) == Pair(v.x3, v.x4)
  {
    hide Bytes8;
  }

  lemma EndIs(v: Vec, k0: bv64, k1: bv64)
    ensures Finalized(Ascon(), Pair(k0, k1), Bytes40(v)) == Bytes40(End(v, k0, k1))
    ensures Tag(Bytes40(v)) == Pair(v.x3, v.x4)
  {
    TagIs(v);
    hide Bytes40, Pair, Permutation, Rounds12, XorPair, XorAt, Tag;
    PairXored(v, 2, k0, k1);
    var t := XorPair(v, 2, k0, k1);
    PermutedBytes(t);
    PairXored(Rounds12(t), 3, k0, k1);
  }

  lemma BlockIs(v: Vec, a: bv64, b: bv64, rest: seq<byte>)
    ensures var t := XorPair(v, 0, a, b);
            var r := Blocks(Ascon().pb, AEAD_RATE, Bytes40(Rounds8(t)), rest);
            Blocks(Ascon().pb, AEAD_RATE, Bytes40(v), Pair(a, b) + rest) == Blocked(r.s, Pair(t.x0, t.x1) + r.out)
  {
    var d, t := Pair(a, b) + rest, XorPair(v, 0, a, b);
    assert d[..16] == Pair(a, b) && d[16..] == rest by { hide Bytes8; }
    assert Bytes40(t)[..16] == Pair(t.x0, t.x1) by { hide Bytes8, XorPair; }
    hide Bytes40, Pair, Permutation, Rounds8, XorPair, XorAt;
    PairXored(v, 0, a, b);
    PermutedBytes(t);
  }

  lemma HalfBlockIs(v: Vec, a: bv64)
    ensures var t := XorInto(v, 0, a);
            Blocks(Ascon().pb, AEAD_RATE, Bytes40(v), Bytes8(a)) == Blocked(Bytes40(XorInto(t, 1, 1)), Bytes8(t.x0))
  {
    var t := XorInto(v, 0, a);
    assert Bytes40(t)[..8] == Bytes8(t.x0) by { hide Bytes8, XorInto; }
    hide Bytes40, Bytes8, XorInto, XorAt;
    WordXored(v, 0, a);
    PadXored(t, 1);
    PadAfter(Bytes40(v), Bytes8(a));
  }

  lemma NoBlockIs(v: Vec)
    ensures Blocks(Ascon().pb, AEAD_RATE, Bytes40(v), []) == Blocked(Bytes40(XorInto(v, 0, 1)), [])
  {
    hide Bytes40, XorInto, XorAt;
    PadXored(v, 0);
    assert [] + PAD == PAD;
  }

  // ------------------------------------------------------------ whole modes

  function AfterAd(v: Vec, a0: bv64, a1: bv64, a2: bv64): Vec {
    var t := XorInto(XorInto(Rounds8(XorPair(v, 0, a0, a1)), 0, a2), 1, 1);
    XorInto(Rounds8(t), 4, SEPARATOR)
  }

  lemma AfterAdIs(v: Vec, a0: bv64, a1: bv64, a2: bv64)
    ensures WithAd(Ascon(), Bytes40(v), Pair(a0, a1) + Bytes8(a2)) == Bytes40(AfterAd(v, a0, a1, a2))
  {
    var ad := Pair(a0, a1) + Bytes8(a2);
    assert ad != [] by { hide Bytes8; }
    hide Bytes40, Bytes8, Pair, Permutation, Rounds8, XorPair, XorInto, XorAt, Blocks;
    BlockIs(v, a0, a1, Bytes8(a2));
    var u := Rounds8(XorPair(v, 0, a0, a1));
    HalfBlockIs(u, a2);
    var t := XorInto(XorInto(u, 0, a2), 1, 1);
    PermutedBytes(t);
    SeparatorXored(Rounds8(t));
  }

  /** Sealing two and a half blocks under one and a half blocks of AD, on
      words. */
  lemma SealIs(k0: bv64, k1: bv64, n0: bv64, n1: bv64, a0: bv64, a1: bv64, a2: bv64,
               p0: bv64, p1: bv64, p2: bv64, p3: bv64, p4: bv64)
    ensures var s := AfterAd(Start(k0, k1, n0, n1), a0, a1, a2);
            var t := XorPair(s, 0, p0, p1);
            var u := XorPair(Rounds8(t), 0, p2, p3);
            var v := XorInto(Rounds8(u), 0, p4);
            var e := End(XorInto(v, 1, 1), k0, k1);
            Seal(Ascon(), Pair(k0, k1), Pair(n0, n1), Pair(a0, a1) + Bytes8(a2),
                 Pair(p0, p1) + (Pair(p2, p3) + Bytes8(p4)))
            == Sealed(Pair(t.x0, t.x1) + (Pair(u.x0, u.x1) + Bytes8(v.x0)), Pair(e.x3, e.x4))
  {
    hide Bytes40, Bytes8, Pair, Rounds8, XorPair, XorInto, Blocks, Ascon, Start, AfterAd, End, Initialized, WithAd,
         Finalized, Tag;
    StartIs(k0, k1, n0, n1);
    AfterAdIs(Start(k0, k1, n0, n1), a0, a1, a2);
    var s := AfterAd(Start(k0, k1, n0, n1), a0, a1, a2);
    var t := XorPair(s, 0, p0, p1);
    var u := XorPair(Rounds8(t), 0, p2, p3);
    var v := XorInto(Rounds8(u), 0, p4);
    BlockIs(s, p0, p1, Pair(p2, p3) + Bytes8(p4));
    BlockIs(Rounds8(t), p2, p3, Bytes8(p4));
    HalfBlockIs(Rounds8(u), p4);
    EndIs(XorInto(v, 1, 1), k0, k1);
    EndIs(End(XorInto(v, 1, 1), k0, k1), k0, k1);
  }

  /** Sealing nothing, on words. */
  lemma SealNothingIs(k0: bv64, k1: bv64, n0: bv64, n1: bv64)
    ensures var s := XorInto(Start(k0, k1, n0, n1), 4, SEPARATOR);
            var e := End(XorInto(s, 0, 1), k0, k1);
            Seal(Ascon(), Pair(k0, k1), Pair(n0, n1), [], []) == Sealed([], Pair(e.x3, e.x4))
  {
    hide Bytes40, Pair, XorInto, Blocks, Ascon, Start, End, Initialized, Finalized, Tag, XorAt;
    StartIs(k0, k1, n0, n1);
    SeparatorXored(Start(k0, k1, n0, n1));
    var s := XorInto(Start(k0, k1, n0, n1), 4, SEPARATOR);
    NoBlockIs(s);
    EndIs(XorInto(s, 0, 1), k0, k1);
    EndIs(End(XorInto(s, 0, 1), k0, k1), k0, k1);
  }

  // ------------------------------------------------------------------ hash

  const HASH_WORD: bv64 := 0x0000080100CC0002

  lemma HashWordInBytes()
    ensures Bytes8(HASH_WORD) == HASH_IV && Bytes8(0) == [0, 0, 0, 0, 0, 0, 0, 0]
  {
  }

  lemma HashInitIs(v: Vec)
    requires v == Vec(HASH_WORD, 0, 0, 0, 0)
    ensures HashStart(Ascon().pa) == Bytes40(Rounds12(v))
  {
    HashWordInBytes();
    assert HASH_IV + seq(32, i => 0) == Bytes40(v) by { hide Bytes8; }
    hide Bytes40, Permutation, Rounds12;
    PermutedBytes(v);
  }

  lemma HashBlockIs(v: Vec, w: bv64, rest: seq<byte>)
    ensures Blocks(Ascon().pa, HASH_RATE, Bytes40(v), Bytes8(w) + rest).s
         == Blocks(Ascon().pa, HASH_RATE, Bytes40(Rounds12(XorInto(v, 0, w))), rest).s
  {
    var d := Bytes8(w) + rest;
    hide Bytes40, Bytes8, Permutation, Rounds12, XorInto, XorAt, Blocks;
    assert d[..8] == Bytes8(w) && d[8..] == rest;
    BlocksOfLong(Ascon().pa, HASH_RATE, Bytes40(v), d);
    WordXored(v, 0, w);
    PermutedBytes(XorInto(v, 0, w));
  }

  /** The last bytes, their padding and zeros making up the word w. */
  lemma HashEndIs(v: Vec, w: bv64, d: seq<byte>)
    requires |d| < 8 && Bytes8(w) == d + PAD + seq(7 - |d|, i => 0)
    ensures Blocks(Ascon().pa, HASH_RATE, Bytes40(v), d).s == Bytes40(XorInto(v, 0, w))
  {
    hide Bytes40, Bytes8, Permutation, XorInto, XorByte;
    WordXored(v, 0, w);
    var s := Bytes40(v);
    forall j | 0 <= j < STATE_SZ
      ensures XorAt(s, 0, d + PAD)[j] == XorAt(s, 0, Bytes8(w))[j]
    {
      ZeroXored(s[j]);
    }
  }

  function Twelves(v: Vec, n: nat): Vec {
    if n == 0 then v else Rounds12(Twelves(v, n - 1))
  }

  lemma {:induction false} SqueezedWord(v: Vec, n: nat)
    ensures Permuted(Ascon().pa, Bytes40(v), n) == Bytes40(Twelves(v, n))
    ensures n > 0 ==> Squeeze(Ascon().pa, Bytes40(v), n)
                      == Squeeze(Ascon().pa, Bytes40(v), n - 1) + Bytes8(Twelves(v, n).x0)
  {
    hide Bytes40, Bytes8, Permutation, Rounds12;
    if n > 0 {
      SqueezedWord(v, n - 1);
      PermutedBytes(Twelves(v, n - 1));
      FirstWord(Twelves(v, n));
    }
  }

  lemma SqueezeIs(v: Vec, v1: Vec, v2: Vec, v3: Vec, v4: Vec)
    requires Rounds12(v) == v1 && Rounds12(v1) == v2 && Rounds12(v2) == v3 && Rounds12(v3) == v4
    ensures Squeeze(Ascon().pa, Bytes40(v), 4) == Bytes8(v1.x0) + Bytes8(v2.x0) + Bytes8(v3.x0) + Bytes8(v4.x0)
  {
    assert Twelves(v, 0) == v && Twelves(v, 1) == v1 && Twelves(v, 2) == v2 && Twelves(v, 3) == v3
        && Twelves(v, 4) == v4 by {
      hide Rounds12;
    }
    hide Bytes40, Bytes8, Ascon, Twelves, Rounds12;
    SqueezedWord(v, 1);
    SqueezedWord(v, 2);
    SqueezedWord(v, 3);
    SqueezedWord(v, 4);
    var a := Bytes8(v1.x0);
    assert Squeeze(Ascon().pa, Bytes40(v), 0) == [];
    assert [] + a == a;
  }

  lemma FirstWord(v: Vec)
    ensures Bytes40(v)[..8] == Bytes8(v.x0)
  {
    hide Bytes8;
  }
}
