/** Ascon-p is a bijection on 320-bit states: an explicit inverse for every
    layer, and for any number of trailing rounds. */
module AsconInverse {
  import opened Words
  import opened AsconP

  // ---------------------------------------------------------------- S-box

  function ChiInverseAt(a: Word, b: Word, c: Word, d: Word, e: Word): Word {
    Xor(a, And(Not(b), Xor(c, And(Not(d), e))))
  }

  function ChiInverse(t: State): State {
    State(ChiInverseAt(t.x0, t.x1, t.x2, t.x3, t.x4), ChiInverseAt(t.x1, t.x2, t.x3, t.x4, t.x0),
          ChiInverseAt(t.x2, t.x3, t.x4, t.x0, t.x1), ChiInverseAt(t.x3, t.x4, t.x0, t.x1, t.x2),
          ChiInverseAt(t.x4, t.x0, t.x1, t.x2, t.x3))
  }

  function UnmixBefore(s: State): State {
    State(Xor(s.x0, Xor(s.x4, s.x3)), s.x1, Xor(s.x2, s.x1), s.x3, Xor(s.x4, s.x3))
  }

  function UnmixAfter(t: State): State {
    State(Xor(t.x0, t.x4), Xor(t.x1, Xor(t.x0, t.x4)), Not(t.x2), Xor(t.x3, Not(t.x2)), t.x4)
  }

  function SubstituteInverse(t: State): State {
    UnmixBefore(ChiInverse(UnmixAfter(t)))
  }

  lemma ChiInvertsAt(a: Word, b: Word, c: Word, d: Word, e: Word)
    ensures ChiInverseAt(ChiAt(a, b, c), ChiAt(b, c, d), ChiAt(c, d, e), ChiAt(d, e, a), ChiAt(e, a, b)) == a
    ensures ChiAt(ChiInverseAt(a, b, c, d, e), ChiInverseAt(b, c, d, e, a), ChiInverseAt(c, d, e, a, b)) == a
  {
  }

  lemma ChiInverts(s: State)
    ensures ChiInverse(Chi(s)) == s && Chi(ChiInverse(s)) == s
  {
    hide ChiAt, ChiInverseAt;
    ChiInvertsAt(s.x0, s.x1, s.x2, s.x3, s.x4);
    ChiInvertsAt(s.x1, s.x2, s.x3, s.x4, s.x0);
    ChiInvertsAt(s.x2, s.x3, s.x4, s.x0, s.x1);
    ChiInvertsAt(s.x3, s.x4, s.x0, s.x1, s.x2);
    ChiInvertsAt(s.x4, s.x0, s.x1, s.x2, s.x3);
  }

  lemma MixesInvert(s: State)
    ensures UnmixBefore(MixBefore(s)) == s && MixBefore(UnmixBefore(s)) == s
    ensures UnmixAfter(MixAfter(s)) == s && MixAfter(UnmixAfter(s)) == s
  {
  }

  lemma SubstituteInverts(s: State)
    ensures SubstituteInverse(Substitute(s)) == s && Substitute(SubstituteInverse(s)) == s
  {
    hide Chi, ChiInverse, MixBefore, UnmixBefore, MixAfter, UnmixAfter;
    MixesInvert(s);
    MixesInvert(Chi(MixBefore(s)));
    ChiInverts(MixBefore(s));
    MixesInvert(ChiInverse(UnmixAfter(s)));
    ChiInverts(UnmixAfter(s));
  }

  // ------------------------------------------------------ linear diffusion

  /** Sigma(_, a, b) applied n times. */
  function Iterate(x: Word, a: nat, b: nat, n: nat): Word
    requires a <= 64 && b <= 64
  {
    if n == 0 then x else Sigma(Iterate(x, a, b, n - 1), a, b)
  }

  lemma {:induction false} IterateAdds(x: Word, a: nat, b: nat, m: nat, n: nat)
    requires a <= 64 && b <= 64
    ensures Iterate(Iterate(x, a, b, m), a, b, n) == Iterate(x, a, b, m + n)
  {
    hide Sigma;
    if n > 0 { IterateAdds(x, a, b, m, n - 1); }
  }

  lemma RotrAt(x: Word, n: nat, i: nat)
    requires n <= 64 && i < 64
    ensures Rotr(x, n)[i] == x[(i + n) % 64]
  {
    hide Rotr;
  }

  lemma SigmaAt(x: Word, a: nat, b: nat, i: nat)
    requires a <= 64 && b <= 64 && i < 64
    ensures Sigma(x, a, b)[i] == ((x[i] != x[(i + a) % 64]) != x[(i + b) % 64])
  {
    hide Rotr;
    RotrAt(x, a, i);
    RotrAt(x, b, i);
  }

  lemma RotationsAdd(i: nat, a: nat, b: nat)
    ensures ((i + a) % 64 + b) % 64 == (i + (a + b) % 64) % 64
  {
  }

  /** Squaring doubles both rotation amounts: the cross terms cancel. */
  lemma SigmaSquared(x: Word, a: nat, b: nat)
    requires a < 64 && b < 64
    ensures Sigma(Sigma(x, a, b), a, b) == Sigma(x, 2 * a % 64, 2 * b % 64)
  {
    hide Sigma;
    var y := Sigma(x, a, b);
    forall i | 0 <= i < 64
      ensures Sigma(y, a, b)[i] == Sigma(x, 2 * a % 64, 2 * b % 64)[i]
    {
      SigmaAt(y, a, b, i);
      SigmaAt(x, a, b, i);
      SigmaAt(x, a, b, (i + a) % 64);
      SigmaAt(x, a, b, (i + b) % 64);
      SigmaAt(x, 2 * a % 64, 2 * b % 64, i);
      RotationsAdd(i, a, a);
      RotationsAdd(i, a, b);
      RotationsAdd(i, b, a);
      RotationsAdd(i, b, b);
    }
  }

  function Doubled(n: nat): nat {
    2 * n % 64
  }

  lemma {:induction false} IterateDoubles(x: Word, a: nat, b: nat, n: nat)
    requires a < 64 && b < 64
    ensures Iterate(x, a, b, 2 * n) == Iterate(x, Doubled(a), Doubled(b), n)
  {
    hide Sigma;
    if n > 0 {
      IterateDoubles(x, a, b, n - 1);
      var y := Iterate(x, a, b, 2 * (n - 1));
      assert Iterate(x, a, b, 2 * n) == Sigma(Sigma(y, a, b), a, b);
      SigmaSquared(y, a, b);
    }
  }

  lemma DoubledMod(x: nat)
    ensures Doubled(x % 64) == 2 * x % 64
  {
    var q, r := x / 64, x % 64;
    assert 2 * x == 64 * (2 * q) + 2 * r;
    MultiplesDrop(2 * q, 2 * r);
  }

  lemma MultiplesDrop(k: nat, r: nat)
    ensures (64 * k + r) % 64 == r % 64
  {
  }

  lemma DoubledSixTimes(n: nat)
    requires n < 64
    ensures Doubled(Doubled(Doubled(Doubled(Doubled(Doubled(n)))))) == 0
  {
    hide Doubled;
    assert n == n % 64;
    DoubledMod(n);
    DoubledMod(2 * n);
    DoubledMod(4 * n);
    DoubledMod(8 * n);
    DoubledMod(16 * n);
    DoubledMod(32 * n);
  }

  /** Every diffusion map is the identity when applied 64 times. */
  lemma Iterate64(x: Word, a: nat, b: nat)
    requires a < 64 && b < 64
    ensures Iterate(x, a, b, 64) == x
  {
    hide Sigma, Iterate;
    var a1, b1 := Doubled(a), Doubled(b);
    var a2, b2 := Doubled(a1), Doubled(b1);
    var a3, b3 := Doubled(a2), Doubled(b2);
    var a4, b4 := Doubled(a3), Doubled(b3);
    var a5, b5 := Doubled(a4), Doubled(b4);
    IterateDoubles(x, a, b, 32);
    IterateDoubles(x, a1, b1, 16);
    IterateDoubles(x, a2, b2, 8);
    IterateDoubles(x, a3, b3, 4);
    IterateDoubles(x, a4, b4, 2);
    IterateDoubles(x, a5, b5, 1);
    DoubledSixTimes(a);
    DoubledSixTimes(b);
    IterateOnce(x);
  }

  lemma IterateOnce(x: Word)
    ensures Iterate(x, 0, 0, 1) == x
  {
    assert Iterate(x, 0, 0, 1) == Sigma(Iterate(x, 0, 0, 0), 0, 0);
  }

  function SigmaInverse(x: Word, a: nat, b: nat): Word
    requires a < 64 && b < 64
  {
    Iterate(x, a, b, 63)
  }

  lemma SigmaInverts(x: Word, a: nat, b: nat)
    requires a < 64 && b < 64
    ensures SigmaInverse(Sigma(x, a, b), a, b) == x && Sigma(SigmaInverse(x, a, b), a, b) == x
  {
    hide Sigma;
    assert Iterate(x, a, b, 1) == Sigma(Iterate(x, a, b, 0), a, b);
    IterateAdds(x, a, b, 1, 63);
    Iterate64(x, a, b);
  }

  function DiffuseInverse(t: State): State {
    State(SigmaInverse(t.x0, 19, 28), SigmaInverse(t.x1, 61, 39), SigmaInverse(t.x2, 1, 6),
          SigmaInverse(t.x3, 10, 17), SigmaInverse(t.x4, 7, 41))
  }

  lemma DiffuseInverts(t: State)
    ensures DiffuseInverse(Diffuse(t)) == t && Diffuse(DiffuseInverse(t)) == t
  {
    hide Sigma, SigmaInverse;
    SigmaInverts(t.x0, 19, 28);
    SigmaInverts(t.x1, 61, 39);
    SigmaInverts(t.x2, 1, 6);
    SigmaInverts(t.x3, 10, 17);
    SigmaInverts(t.x4, 7, 41);
  }

  // --------------------------------------------------------------- rounds

  function RoundInverse(s: State, c: Word): State {
    AddConstant(SubstituteInverse(DiffuseInverse(s)), c)
  }

  lemma RoundInverts(s: State, c: Word)
    ensures RoundInverse(Round(s, c), c) == s && Round(RoundInverse(s, c), c) == s
  {
    hide Diffuse, DiffuseInverse, Substitute, SubstituteInverse;
    DiffuseInverts(Substitute(AddConstant(s, c)));
    SubstituteInverts(AddConstant(s, c));
    SubstituteInverts(DiffuseInverse(s));
    DiffuseInverts(s);
    ConstantCancels(s, c);
    ConstantCancels(SubstituteInverse(DiffuseInverse(s)), c);
  }

  lemma ConstantCancels(s: State, c: Word)
    ensures AddConstant(AddConstant(s, c), c) == s
  {
  }

  /** Undoes the rounds from index i on, last round first. */
  function RoundsBack(s: State, i: nat): State
    requires i <= MAX_ROUNDS
    decreases MAX_ROUNDS - i
  {
    if i == MAX_ROUNDS then s
    else RoundInverse(RoundsBack(s, i + 1), FromNat(ROUND_CONSTANTS[i], 64))
  }

  lemma {:induction false} RoundsInvert(s: State, i: nat)
    requires i <= MAX_ROUNDS
    ensures RoundsBack(RoundsFrom(s, i), i) == s
    ensures RoundsFrom(RoundsBack(s, i), i) == s
    decreases MAX_ROUNDS - i
  {
    hide Round, RoundInverse;
    if i < MAX_ROUNDS {
      var c := FromNat(ROUND_CONSTANTS[i], 64);
      RoundInverts(s, c);
      RoundsInvert(Round(s, c), i + 1);
      RoundInverts(RoundsBack(s, i + 1), c);
      RoundsInvert(s, i + 1);
    }
  }
}
