/** The codings of Ascon-p found in the repository, each proved against the
    one specification: the 64-bit loop (ascon.c, mask_prf.c, ascon_local.h and
    the reference half of verify_ascon_32bit.c), the unrolled p8/p12, and the
    permutation over ten 32-bit halves. */
module AsconCodings {
  import opened Words
  import opened AsconP

  /** The permutation with 12 or 8 rounds; the codings disagree on any other
      number (see StartIndexesAgree). */
  ghost function Permuted(s: State, rounds: nat): State
    requires rounds == 8 || rounds == 12
  {
    RoundsFrom(s, 12 - rounds)
  }

  // ------------------------------------------------------- start indexes

  /** ascon.c: anything but 8 and 12 runs no round at all. */
  function StartIndexWolf(rounds: nat): nat {
    if rounds == 8 then 4 else if rounds == 12 then 0 else MAX_ROUNDS
  }

  /** mask_prf.c and ascon_local.h: anything but 8 runs all rounds. */
  function StartIndexMask(rounds: nat): nat {
    if rounds == 8 then 4 else 0
  }

  /** verify_ascon_32bit.c, and both 32-bit paths: anything but 12 runs 8. */
  function StartIndexVerify(rounds: nat): nat {
    if rounds == 12 then 0 else 4
  }

  /** The three conventions name the same rounds exactly for 8 and 12. */
  lemma StartIndexesAgree(rounds: nat)
    ensures (StartIndexWolf(rounds) == StartIndexMask(rounds) == StartIndexVerify(rounds)) <==> rounds in {8, 12}
    ensures rounds in {8, 12} ==> StartIndexWolf(rounds) == 12 - rounds
    ensures rounds !in {8, 12} ==>
              StartIndexWolf(rounds) == 12 && StartIndexMask(rounds) == 0 && StartIndexVerify(rounds) == 4
  {
  }

  // --------------------------------------------------------- 64-bit loop

  ghost function StateOf(s: array<Word>): State
    requires s.Length == 5
    reads s
  {
    State(s[0], s[1], s[2], s[3], s[4])
  }

  /** One round on the five words, in place. */
  method AsconRound(s: array<Word>, c: Word)
    requires s.Length == 5
    modifies s
    ensures StateOf(s) == Round(old(StateOf(s)), c)
  {
    hide Xor, And, Not, Rotr;
    s[2] := Xor(s[2], c);
    s[0] := Xor(s[0], s[4]);
    s[4] := Xor(s[4], s[3]);
    s[2] := Xor(s[2], s[1]);
    var t0: Word := Xor(s[0], And(Not(s[1]), s[2]));
    var t2: Word := Xor(s[2], And(Not(s[3]), s[4]));
    var t4: Word := Xor(s[4], And(Not(s[0]), s[1]));
    var t1: Word := Xor(s[1], And(Not(s[2]), s[3]));
    var t3: Word := Xor(s[3], And(Not(s[4]), s[0]));
    t1 := Xor(t1, t0);
    t3 := Xor(t3, t2);
    t0 := Xor(t0, t4);
    t2 := Not(t2);
    s[4] := Xor(Xor(t4, Rotr(t4, 7)), Rotr(t4, 41));
    s[1] := Xor(Xor(t1, Rotr(t1, 61)), Rotr(t1, 39));
    s[3] := Xor(Xor(t3, Rotr(t3, 10)), Rotr(t3, 17));
    s[0] := Xor(Xor(t0, Rotr(t0, 19)), Rotr(t0, 28));
    s[2] := Xor(Xor(t2, Rotr(t2, 1)), Rotr(t2, 6));
  }

  /** The loop of all four 64-bit copies, from the start index each computes. */
  method PermutationLoop(s: array<Word>, start: nat)
    requires s.Length == 5 && start <= MAX_ROUNDS
    modifies s
    ensures StateOf(s) == RoundsFrom(old(StateOf(s)), start)
  {
    hide Round, FromNat;
    var i := start;
    while i < MAX_ROUNDS
      invariant start <= i <= MAX_ROUNDS
      invariant RoundsFrom(StateOf(s), i) == RoundsFrom(old(StateOf(s)), start)
    {
      AsconRound(s, FromNat(ROUND_CONSTANTS[i], 64));
      i := i + 1;
    }
  }

  method PermutationWolf(s: array<Word>, rounds: nat)
    requires s.Length == 5
    modifies s
    ensures StateOf(s) == RoundsFrom(old(StateOf(s)), StartIndexWolf(rounds))
    ensures rounds in {8, 12} ==> StateOf(s) == Permuted(old(StateOf(s)), rounds)
  {
    PermutationLoop(s, StartIndexWolf(rounds));
  }

  method PermutationMask(s: array<Word>, rounds: nat)
    requires s.Length == 5
    modifies s
    ensures StateOf(s) == RoundsFrom(old(StateOf(s)), StartIndexMask(rounds))
    ensures rounds in {8, 12} ==> StateOf(s) == Permuted(old(StateOf(s)), rounds)
  {
    PermutationLoop(s, StartIndexMask(rounds));
  }

  // ------------------------------------------------------------ unrolled

  method P8(s: array<Word>)
    requires s.Length == 5
    modifies s
    ensures StateOf(s) == Permuted(old(StateOf(s)), 8)
  {
    hide Round, FromNat;
    AsconRound(s, FromNat(ROUND_CONSTANTS[4], 64));
    AsconRound(s, FromNat(ROUND_CONSTANTS[5], 64));
    AsconRound(s, FromNat(ROUND_CONSTANTS[6], 64));
    AsconRound(s, FromNat(ROUND_CONSTANTS[7], 64));
    AsconRound(s, FromNat(ROUND_CONSTANTS[8], 64));
    AsconRound(s, FromNat(ROUND_CONSTANTS[9], 64));
    AsconRound(s, FromNat(ROUND_CONSTANTS[10], 64));
    AsconRound(s, FromNat(ROUND_CONSTANTS[11], 64));
  }

  method P12(s: array<Word>)
    requires s.Length == 5
    modifies s
    ensures StateOf(s) == Permuted(old(StateOf(s)), 12)
  {
    hide Round, FromNat;
    AsconRound(s, FromNat(ROUND_CONSTANTS[0], 64));
    AsconRound(s, FromNat(ROUND_CONSTANTS[1], 64));
    AsconRound(s, FromNat(ROUND_CONSTANTS[2], 64));
    AsconRound(s, FromNat(ROUND_CONSTANTS[3], 64));
    P8(s);
  }

  // -------------------------------------------------------- 32-bit halves

  /** Ten 32-bit lanes, low half before high half. */
  datatype Lanes = Lanes(x0l: Half, x0h: Half, x1l: Half, x1h: Half, x2l: Half, x2h: Half,
                         x3l: Half, x3h: Half, x4l: Half, x4h: Half)

  function Join(l: Half, h: Half): Word {
    l + h
  }

  function Joined(a: Lanes): State {
    State(Join(a.x0l, a.x0h), Join(a.x1l, a.x1h), Join(a.x2l, a.x2h), Join(a.x3l, a.x3h), Join(a.x4l, a.x4h))
  }

  lemma JoinBitwise(l: Half, h: Half, l': Half, h': Half)
    ensures Xor(Join(l, h), Join(l', h')) == Join(Xor(l, l'), Xor(h, h'))
    ensures And(Join(l, h), Join(l', h')) == Join(And(l, l'), And(h, h'))
    ensures Not(Join(l, h)) == Join(Not(l), Not(h))
  {
  }

  /** A 64-bit rotation as two pairs of 32-bit shifts. */
  lemma RotrSplits(l: Half, h: Half, r: nat)
    requires r < 64
    ensures r < 32 ==>
      Rotr(Join(l, h), r) == Join(Xor(Shr(l, r), Shl(h, 32 - r)), Xor(Shr(h, r), Shl(l, 32 - r)))
    ensures 32 <= r ==>
      Rotr(Join(l, h), r) == Join(Xor(Shr(h, r - 32), Shl(l, 64 - r)), Xor(Shr(l, r - 32), Shl(h, 64 - r)))
  {
  }

  lemma ChiSplits(al: Half, ah: Half, bl: Half, bh: Half, cl: Half, ch: Half)
    ensures ChiAt(Join(al, ah), Join(bl, bh), Join(cl, ch))
         == Join(Xor(al, And(Not(bl), cl)), Xor(ah, And(Not(bh), ch)))
  {
    hide Xor, And, Not, Join;
    JoinBitwise(bl, bh, bl, bh);
    JoinBitwise(Not(bl), Not(bh), cl, ch);
    JoinBitwise(al, ah, And(Not(bl), cl), And(Not(bh), ch));
  }

  function Xor5(a: Half, b: Half, c: Half, d: Half, e: Half): Half {
    Xor(Xor(Xor(Xor(a, b), c), d), e)
  }

  lemma SigmaSplits(l: Half, h: Half, a: nat, b: nat, la: Half, ha: Half, lb: Half, hb: Half)
    requires a < 64 && b < 64
    requires Rotr(Join(l, h), a) == Join(la, ha) && Rotr(Join(l, h), b) == Join(lb, hb)
    ensures Sigma(Join(l, h), a, b) == Join(Xor(Xor(l, la), lb), Xor(Xor(h, ha), hb))
  {
    hide Xor, Join, Rotr;
    JoinBitwise(l, h, la, ha);
    JoinBitwise(Xor(l, la), Xor(h, ha), lb, hb);
  }

  lemma Regroup(x: Half, p: Half, q: Half, r: Half, s: Half)
    ensures Xor(Xor(x, Xor(p, q)), Xor(r, s)) == Xor5(x, p, q, r, s) == Xor5(x, p, r, q, s)
  {
  }

  /** A diffusion lane with both amounts below 32. */
  lemma SigmaShortShort(l: Half, h: Half, a: nat, b: nat)
    requires a < 32 && b < 32
    ensures Sigma(Join(l, h), a, b)
         == Join(Xor5(l, Shr(l, a), Shr(l, b), Shl(h, 32 - a), Shl(h, 32 - b)),
                 Xor5(h, Shr(h, a), Shr(h, b), Shl(l, 32 - a), Shl(l, 32 - b)))
  {
    hide Xor, Join, Rotr, Shr, Shl, Sigma, Xor5;
    RotrSplits(l, h, a);
    RotrSplits(l, h, b);
    SigmaSplits(l, h, a, b, Xor(Shr(l, a), Shl(h, 32 - a)), Xor(Shr(h, a), Shl(l, 32 - a)),
                Xor(Shr(l, b), Shl(h, 32 - b)), Xor(Shr(h, b), Shl(l, 32 - b)));
    Regroup(l, Shr(l, a), Shl(h, 32 - a), Shr(l, b), Shl(h, 32 - b));
    Regroup(h, Shr(h, a), Shl(l, 32 - a), Shr(h, b), Shl(l, 32 - b));
  }

  /** The first amount below 32, the second not. */
  lemma SigmaShortLong(l: Half, h: Half, a: nat, b: nat)
    requires a < 32 <= b < 64
    ensures Sigma(Join(l, h), a, b)
         == Join(Xor5(l, Shr(l, a), Shl(h, 32 - a), Shr(h, b - 32), Shl(l, 64 - b)),
                 Xor5(h, Shr(h, a), Shl(l, 32 - a), Shr(l, b - 32), Shl(h, 64 - b)))
  {
    hide Xor, Join, Rotr, Shr, Shl, Sigma, Xor5;
    RotrSplits(l, h, a);
    RotrSplits(l, h, b);
    SigmaSplits(l, h, a, b, Xor(Shr(l, a), Shl(h, 32 - a)), Xor(Shr(h, a), Shl(l, 32 - a)),
                Xor(Shr(h, b - 32), Shl(l, 64 - b)), Xor(Shr(l, b - 32), Shl(h, 64 - b)));
    Regroup(l, Shr(l, a), Shl(h, 32 - a), Shr(h, b - 32), Shl(l, 64 - b));
    Regroup(h, Shr(h, a), Shl(l, 32 - a), Shr(l, b - 32), Shl(h, 64 - b));
  }

  /** Neither amount below 32. */
  lemma SigmaLongLong(l: Half, h: Half, a: nat, b: nat)
    requires 32 <= a < 64 && 32 <= b < 64
    ensures Sigma(Join(l, h), a, b)
         == Join(Xor5(l, Shr(h, a - 32), Shl(l, 64 - a), Shr(h, b - 32), Shl(l, 64 - b)),
                 Xor5(h, Shr(l, a - 32), Shl(h, 64 - a), Shr(l, b - 32), Shl(h, 64 - b)))
  {
    hide Xor, Join, Rotr, Shr, Shl, Sigma, Xor5;
    RotrSplits(l, h, a);
    RotrSplits(l, h, b);
    SigmaSplits(l, h, a, b, Xor(Shr(h, a - 32), Shl(l, 64 - a)), Xor(Shr(l, a - 32), Shl(h, 64 - a)),
                Xor(Shr(h, b - 32), Shl(l, 64 - b)), Xor(Shr(l, b - 32), Shl(h, 64 - b)));
    Regroup(l, Shr(h, a - 32), Shl(l, 64 - a), Shr(h, b - 32), Shl(l, 64 - b));
    Regroup(h, Shr(l, a - 32), Shl(h, 64 - a), Shr(l, b - 32), Shl(h, 64 - b));
  }

  /** The diffusion half of P32_ROUND. */
  method P32Diffuse(t: Lanes) returns (r: Lanes)
    ensures Joined(r) == Diffuse(Joined(t))
  {
    hide Xor, Shr, Shl, Join, Sigma, Xor5;
    var Lanes(t0l, t0h, t1l, t1h, t2l, t2h, t3l, t3h, t4l, t4h) := t;
    var x4l := Xor5(t4l, Shr(t4l, 7), Shl(t4h, 25), Shr(t4h, 9), Shl(t4l, 23));
    var x4h := Xor5(t4h, Shr(t4h, 7), Shl(t4l, 25), Shr(t4l, 9), Shl(t4h, 23));
    SigmaShortLong(t4l, t4h, 7, 41);
    var x1l := Xor5(t1l, Shr(t1h, 29), Shl(t1l, 3), Shr(t1h, 7), Shl(t1l, 25));
    var x1h := Xor5(t1h, Shr(t1l, 29), Shl(t1h, 3), Shr(t1l, 7), Shl(t1h, 25));
    SigmaLongLong(t1l, t1h, 61, 39);
    var x3l := Xor5(t3l, Shr(t3l, 10), Shr(t3l, 17), Shl(t3h, 22), Shl(t3h, 15));
    var x3h := Xor5(t3h, Shr(t3h, 10), Shr(t3h, 17), Shl(t3l, 22), Shl(t3l, 15));
    SigmaShortShort(t3l, t3h, 10, 17);
    var x0l := Xor5(t0l, Shr(t0l, 19), Shr(t0l, 28), Shl(t0h, 13), Shl(t0h, 4));
    var x0h := Xor5(t0h, Shr(t0h, 19), Shr(t0h, 28), Shl(t0l, 13), Shl(t0l, 4));
    SigmaShortShort(t0l, t0h, 19, 28);
    var x2l := Xor5(t2l, Shr(t2l, 1), Shr(t2l, 6), Shl(t2h, 31), Shl(t2h, 26));
    var x2h := Xor5(t2h, Shr(t2h, 1), Shr(t2h, 6), Shl(t2l, 31), Shl(t2l, 26));
    SigmaShortShort(t2l, t2h, 1, 6);
    r := Lanes(x0l, x0h, x1l, x1h, x2l, x2h, x3l, x3h, x4l, x4h);
  }

  /** The constant and substitution half of P32_ROUND. */
  method P32Substitute(a: Lanes, c: Half) returns (r: Lanes)
    ensures Joined(r) == Substitute(AddConstant(Joined(a), Join(c, Zeros(32))))
  {
    hide Xor, And, Not, Join, ChiAt, Zeros;
    var Lanes(x0l, x0h, x1l, x1h, x2l, x2h, x3l, x3h, x4l, x4h) := a;
    JoinBitwise(x2l, x2h, c, Zeros(32));
    XorZeros(x2h);
    x2l := Xor(x2l, c);
    JoinBitwise(x0l, x0h, x4l, x4h);
    x0l := Xor(x0l, x4l); x0h := Xor(x0h, x4h);
    JoinBitwise(x4l, x4h, x3l, x3h);
    x4l := Xor(x4l, x3l); x4h := Xor(x4h, x3h);
    JoinBitwise(x2l, x2h, x1l, x1h);
    x2l := Xor(x2l, x1l); x2h := Xor(x2h, x1h);
    ghost var mixed := Lanes(x0l, x0h, x1l, x1h, x2l, x2h, x3l, x3h, x4l, x4h);
    assert Joined(mixed) == MixBefore(AddConstant(Joined(a), Join(c, Zeros(32))));
    var t0l: Half := Xor(x0l, And(Not(x1l), x2l)); var t0h: Half := Xor(x0h, And(Not(x1h), x2h));
    var t2l: Half := Xor(x2l, And(Not(x3l), x4l)); var t2h: Half := Xor(x2h, And(Not(x3h), x4h));
    var t4l: Half := Xor(x4l, And(Not(x0l), x1l)); var t4h: Half := Xor(x4h, And(Not(x0h), x1h));
    var t1l: Half := Xor(x1l, And(Not(x2l), x3l)); var t1h: Half := Xor(x1h, And(Not(x2h), x3h));
    var t3l: Half := Xor(x3l, And(Not(x4l), x0l)); var t3h: Half := Xor(x3h, And(Not(x4h), x0h));
    ChiSplits(x0l, x0h, x1l, x1h, x2l, x2h);
    ChiSplits(x2l, x2h, x3l, x3h, x4l, x4h);
    ChiSplits(x4l, x4h, x0l, x0h, x1l, x1h);
    ChiSplits(x1l, x1h, x2l, x2h, x3l, x3h);
    ChiSplits(x3l, x3h, x4l, x4h, x0l, x0h);
    assert Joined(Lanes(t0l, t0h, t1l, t1h, t2l, t2h, t3l, t3h, t4l, t4h)) == Chi(Joined(mixed));
    JoinBitwise(t1l, t1h, t0l, t0h);
    t1l := Xor(t1l, t0l); t1h := Xor(t1h, t0h);
    JoinBitwise(t3l, t3h, t2l, t2h);
    t3l := Xor(t3l, t2l); t3h := Xor(t3h, t2h);
    JoinBitwise(t0l, t0h, t4l, t4h);
    t0l := Xor(t0l, t4l); t0h := Xor(t0h, t4h);
    JoinBitwise(t2l, t2h, t2l, t2h);
    t2l := Not(t2l); t2h := Not(t2h);
    r := Lanes(t0l, t0h, t1l, t1h, t2l, t2h, t3l, t3h, t4l, t4h);
  }

  lemma XorZeros(x: Half)
    ensures Xor(x, Zeros(32)) == x
  {
  }

  /** P32_ROUND: the constant is XORed into the low half of x2 only. */
  method P32Round(a: Lanes, c: nat) returns (r: Lanes)
    requires c < 256
    ensures Joined(r) == Round(Joined(a), FromNat(c, 64))
  {
    hide FromNat, Substitute, Diffuse, Join, Zeros;
    ByteWidens(c);
    var t := P32Substitute(a, FromNat(c, 32));
    r := P32Diffuse(t);
  }

  lemma ByteWidens(c: nat)
    requires c < 256
    ensures FromNat(c, 64) == Join(FromNat(c, 32), Zeros(32))
  {
    hide FromNat;
    assert Pow2(8) == 256;
    Pow2Grows(8, 32);
    FromNatWidens(c, 32, 32);
  }

  lemma {:induction false} Pow2Grows(m: nat, n: nat)
    requires m <= n
    ensures Pow2(m) <= Pow2(n)
  {
    if m < n { Pow2Grows(m, n - 1); }
  }

  ghost function LanesOf(s: array<Half>): Lanes
    requires s.Length == 10
    reads s
  {
    Lanes(s[0], s[1], s[2], s[3], s[4], s[5], s[6], s[7], s[8], s[9])
  }

  method P32x8(a: Lanes) returns (r: Lanes)
    ensures Joined(r) == Permuted(Joined(a), 8)
  {
    hide Round, FromNat, Joined;
    r := P32Round(a, ROUND_CONSTANTS[4]);
    r := P32Round(r, ROUND_CONSTANTS[5]);
    r := P32Round(r, ROUND_CONSTANTS[6]);
    r := P32Round(r, ROUND_CONSTANTS[7]);
    r := P32Round(r, ROUND_CONSTANTS[8]);
    r := P32Round(r, ROUND_CONSTANTS[9]);
    r := P32Round(r, ROUND_CONSTANTS[10]);
    r := P32Round(r, ROUND_CONSTANTS[11]);
  }

  method P32x12(a: Lanes) returns (r: Lanes)
    ensures Joined(r) == Permuted(Joined(a), 12)
  {
    hide Round, FromNat, Joined;
    r := P32Round(a, ROUND_CONSTANTS[0]);
    r := P32Round(r, ROUND_CONSTANTS[1]);
    r := P32Round(r, ROUND_CONSTANTS[2]);
    r := P32Round(r, ROUND_CONSTANTS[3]);
    r := P32x8(r);
  }

  /** The permutation over s32: load ten lanes, run P32_12 or P32_8, store. */
  method Permutation32(s: array<Half>, rounds: nat)
    requires s.Length == 10
    modifies s
    ensures Joined(LanesOf(s)) == RoundsFrom(old(Joined(LanesOf(s))), StartIndexVerify(rounds))
    ensures rounds in {8, 12} ==> Joined(LanesOf(s)) == Permuted(old(Joined(LanesOf(s))), rounds)
  {
    hide RoundsFrom, Joined;
    var r := Lanes(s[0], s[1], s[2], s[3], s[4], s[5], s[6], s[7], s[8], s[9]);
    if rounds == 12 {
      r := P32x12(r);
    } else {
      r := P32x8(r);
    }
    s[0] := r.x0l; s[1] := r.x0h;
    s[2] := r.x1l; s[3] := r.x1h;
    s[4] := r.x2l; s[5] := r.x2h;
    s[6] := r.x3l; s[7] := r.x3h;
    s[8] := r.x4l; s[9] := r.x4h;
  }
}
