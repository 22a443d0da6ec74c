/** The round on plain 64-bit vectors, whose constants the verifier computes. */
module AsconVector {
  import opened AsconMachine
  import opened Sponge
  import M = AsconMode
  import A = AsconP

  datatype Vec = Vec(x0: bv64, x1: bv64, x2: bv64, x3: bv64, x4: bv64)

  function Lift(s: Vec): Machine {
    Machine(W(s.x0), W(s.x1), W(s.x2), W(s.x3), W(s.x4))
  }

  function X(a: bv64, b: bv64): bv64 {
    a ^ b
  }

  function N(a: bv64): bv64 {
    !a
  }

  function Chi(a: bv64, b: bv64, c: bv64): bv64 {
    a ^ (!b & c)
  }

  function Sum(x: bv64, a: bv64, b: bv64): bv64 {
    X(X(x, a), b)
  }

  function R19(x: bv64): bv64 {
    x.RotateRight(19)
  }

  function R28(x: bv64): bv64 {
    x.RotateRight(28)
  }

  function R61(x: bv64): bv64 {
    x.RotateRight(61)
  }

  function R39(x: bv64): bv64 {
    x.RotateRight(39)
  }

  function R1(x: bv64): bv64 {
    x.RotateRight(1)
  }

  function R6(x: bv64): bv64 {
    x.RotateRight(6)
  }

  function R10(x: bv64): bv64 {
    x.RotateRight(10)
  }

  function R17(x: bv64): bv64 {
    x.RotateRight(17)
  }

  function R7(x: bv64): bv64 {
    x.RotateRight(7)
  }

  function R41(x: bv64): bv64 {
    x.RotateRight(41)
  }

  function Step(s: Vec, c: bv64): Vec {
    var x0, x2, x4 := X(s.x0, s.x4), X(X(s.x2, c), s.x1), X(s.x4, s.x3);
    var t0, t1, t2 := Chi(x0, s.x1, x2), Chi(s.x1, x2, s.x3), Chi(x2, s.x3, x4);
    var t3, t4 := Chi(s.x3, x4, x0), Chi(x4, x0, s.x1);
    Linear(Vec(X(t0, t4), X(t1, t0), N(t2), X(t3, t2), t4))
  }

  function Linear(t: Vec): Vec {
    Vec(Sum(t.x0, R19(t.x0), R28(t.x0)), Sum(t.x1, R61(t.x1), R39(t.x1)), Sum(t.x2, R1(t.x2), R6(t.x2)),
        Sum(t.x3, R10(t.x3), R17(t.x3)), Sum(t.x4, R7(t.x4), R41(t.x4)))
  }

  lemma XIs(a: bv64, b: bv64)
    ensures W(X(a, b)) == WXor(W(a), W(b))
  {
  }

  lemma NIs(a: bv64)
    ensures W(N(a)) == WXor(W(a), ONES)
  {
  }

  lemma ChiIsMachine(a: bv64, b: bv64, c: bv64)
    ensures W(Chi(a, b, c)) == ChiAt(W(a), W(b), W(c))
  {
  }

  lemma SumIs(x: bv64, a: bv64, b: bv64)
    ensures W(Sum(x, a, b)) == Sum3(W(x), W(a), W(b))
  {
    hide X, WXor;
    XIs(x, a);
    XIs(X(x, a), b);
  }

  lemma Is19(x: bv64)
    ensures W(R19(x)) == Turn1(Turn2(Turn16(W(x))))
  {
  }

  lemma Is28(x: bv64)
    ensures W(R28(x)) == Turn4(Turn8(Turn16(W(x))))
  {
  }

  lemma Is61(x: bv64)
    ensures W(R61(x)) == Turn1(Turn4(Turn8(Turn16(Turn32(W(x))))))
  {
  }

  lemma Is39(x: bv64)
    ensures W(R39(x)) == Turn1(Turn2(Turn4(Turn32(W(x)))))
  {
  }

  lemma Is1(x: bv64)
    ensures W(R1(x)) == Turn1(W(x))
  {
  }

  lemma Is6(x: bv64)
    ensures W(R6(x)) == Turn2(Turn4(W(x)))
  {
  }

  lemma Is10(x: bv64)
    ensures W(R10(x)) == Turn2(Turn8(W(x)))
  {
  }

  lemma Is17(x: bv64)
    ensures W(R17(x)) == Turn1(Turn16(W(x)))
  {
  }

  lemma Is7(x: bv64)
    ensures W(R7(x)) == Turn1(Turn2(Turn4(W(x))))
  {
  }

  lemma Is41(x: bv64)
    ensures W(R41(x)) == Turn1(Turn8(Turn32(W(x))))
  {
  }

  lemma LinearIs(t: Vec)
    ensures Lift(Linear(t)) == Diffused(Lift(t))
  {
    hide Sum, Sum3, R19, R28, R61, R39, R1, R6, R10, R17, R7, R41, Turn1, Turn2, Turn4, Turn8, Turn16, Turn32;
    Is19(t.x0);
    Is28(t.x0);
    SumIs(t.x0, R19(t.x0), R28(t.x0));
    Is61(t.x1);
    Is39(t.x1);
    SumIs(t.x1, R61(t.x1), R39(t.x1));
    Is1(t.x2);
    Is6(t.x2);
    SumIs(t.x2, R1(t.x2), R6(t.x2));
    Is10(t.x3);
    Is17(t.x3);
    SumIs(t.x3, R10(t.x3), R17(t.x3));
    Is7(t.x4);
    Is41(t.x4);
    SumIs(t.x4, R7(t.x4), R41(t.x4));
  }

  lemma StepIs(s: Vec, c: bv64)
    ensures Lift(Step(s, c)) == Round(Lift(s), W(c))
  {
    hide X, N, Chi, WXor, ONES, ChiAt, Linear, Diffused;
    XIs(s.x0, s.x4);
    XIs(s.x2, c);
    XIs(X(s.x2, c), s.x1);
    XIs(s.x4, s.x3);
    var x0, x2, x4 := X(s.x0, s.x4), X(X(s.x2, c), s.x1), X(s.x4, s.x3);
    ChiIsMachine(x0, s.x1, x2);
    ChiIsMachine(s.x1, x2, s.x3);
    ChiIsMachine(x2, s.x3, x4);
    ChiIsMachine(s.x3, x4, x0);
    ChiIsMachine(x4, x0, s.x1);
    var t0, t1, t2 := Chi(x0, s.x1, x2), Chi(s.x1, x2, s.x3), Chi(x2, s.x3, x4);
    var t3, t4 := Chi(s.x3, x4, x0), Chi(x4, x0, s.x1);
    XIs(t0, t4);
    XIs(t1, t0);
    NIs(t2);
    XIs(t3, t2);
    LinearIs(Vec(X(t0, t4), X(t1, t0), N(t2), X(t3, t2), t4));
  }

  // ------------------------------------------------------------ the rounds

  function First4(s: Vec): Vec {
    Step(Step(Step(Step(s, 0xF0), 0xE1), 0xD2), 0xC3)
  }

  function Next4(s: Vec): Vec {
    Step(Step(Step(Step(s, 0xB4), 0xA5), 0x96), 0x87)
  }

  function Last4(s: Vec): Vec {
    Step(Step(Step(Step(s, 0x78), 0x69), 0x5A), 0x4B)
  }

  function Rounds8(s: Vec): Vec {
    var s2 := Step(Step(s, 0xB4), 0xA5);
    var s4 := Step(Step(s2, 0x96), 0x87);
    var s6 := Step(Step(s4, 0x78), 0x69);
    Step(Step(s6, 0x5A), 0x4B)
  }

  function Rounds12(s: Vec): Vec {
    var s3 := Step(Step(Step(s, 0xF0), 0xE1), 0xD2);
    var s6 := Step(Step(Step(s3, 0xC3), 0xB4), 0xA5);
    var s9 := Step(Step(Step(s6, 0x96), 0x87), 0x78);
    Step(Step(Step(s9, 0x69), 0x5A), 0x4B)
  }

  lemma RoundsSplit(s: Vec)
    ensures Rounds8(s) == Last4(Next4(s)) && Rounds12(s) == Rounds8(First4(s))
  {
    hide Step;
  }

  lemma RunStep(s: Vec, i: nat, c: byte)
    requires i < 12 && CONSTANTS[i] == c
    ensures RunFrom(Lift(s), i) == RunFrom(Lift(Step(s, c as bv64)), i + 1)
  {
    hide Round, Step, Lift;
    StepIs(s, c as bv64);
  }

  lemma First4Is(s: Vec)
    ensures RunFrom(Lift(s), 0) == RunFrom(Lift(First4(s)), 4)
  {
    hide Step, RunFrom, Lift;
    var s1 := Step(s, 0xF0);
    var s2 := Step(s1, 0xE1);
    RunStep(s, 0, 0xF0);
    RunStep(s1, 1, 0xE1);
    RunStep(s2, 2, 0xD2);
    RunStep(Step(s2, 0xD2), 3, 0xC3);
  }

  lemma Next4Is(s: Vec)
    ensures RunFrom(Lift(s), 4) == RunFrom(Lift(Next4(s)), 8)
  {
    hide Step, RunFrom, Lift;
    var s1 := Step(s, 0xB4);
    var s2 := Step(s1, 0xA5);
    RunStep(s, 4, 0xB4);
    RunStep(s1, 5, 0xA5);
    RunStep(s2, 6, 0x96);
    RunStep(Step(s2, 0x96), 7, 0x87);
  }

  lemma Last4Is(s: Vec)
    ensures RunFrom(Lift(s), 8) == RunFrom(Lift(Last4(s)), 12)
  {
    hide Step, RunFrom, Lift;
    var s1 := Step(s, 0x78);
    var s2 := Step(s1, 0x69);
    RunStep(s, 8, 0x78);
    RunStep(s1, 9, 0x69);
    RunStep(s2, 10, 0x5A);
    RunStep(Step(s2, 0x5A), 11, 0x4B);
  }

  lemma Rounds8Is(s: Vec)
    ensures A.RoundsFrom(StateOf(Lift(s)), 4) == StateOf(Lift(Rounds8(s)))
  {
    Rounds8Runs(s);
    hide RunFrom, Lift, Rounds8, StateOf, A.RoundsFrom;
    RunFromIs(Lift(s), 4);
  }

  lemma Rounds8Runs(s: Vec)
    ensures RunFrom(Lift(s), 4) == Lift(Rounds8(s))
  {
    assert RunFrom(Lift(Rounds8(s)), 12) == Lift(Rounds8(s)) by { hide Lift, Rounds8; }
    RoundsSplit(s);
    hide First4, Next4, Last4, RunFrom, Lift, Rounds8, Rounds12;
    Next4Is(s);
    Last4Is(Next4(s));
  }

  lemma Rounds12Runs(s: Vec)
    ensures RunFrom(Lift(s), 0) == Lift(Rounds12(s))
  {
    RoundsSplit(s);
    hide First4, RunFrom, Lift, Rounds8, Rounds12;
    First4Is(s);
    Rounds8Runs(First4(s));
  }

  lemma Rounds12Is(s: Vec)
    ensures A.RoundsFrom(StateOf(Lift(s)), 0) == StateOf(Lift(Rounds12(s)))
  {
    Rounds12Runs(s);
    hide RunFrom, Lift, Rounds12, StateOf, A.RoundsFrom;
    RunFromIs(Lift(s), 0);
  }

  // --------------------------------------------------------------- in bytes

  function ByteAt0(w: bv64): byte {
    (w & 0xFF) as byte
  }

  /** The eight bytes of a word in memory. */
  function Bytes8(w: bv64): (r: seq<byte>)
    ensures |r| == 8
  {
    [ByteAt0(w), ByteAt0(w.RotateRight(8)), ByteAt0(w.RotateRight(16)), ByteAt0(w.RotateRight(24)),
     ByteAt0(w.RotateRight(32)), ByteAt0(w.RotateRight(40)), ByteAt0(w.RotateRight(48)), ByteAt0(w.RotateRight(56))]
  }

  function Bytes40(v: Vec): State {
    Bytes8(v.x0) + Bytes8(v.x1) + Bytes8(v.x2) + Bytes8(v.x3) + Bytes8(v.x4)
  }

  lemma ByteAt0Has(w: bv64)
    ensures HasByte(W(w), ByteAt0(w))
  {
  }

  lemma Is8(w: bv64)
    ensures Turn8(W(w)) == W(w.RotateRight(8))
  {
  }

  lemma Is16(w: bv64)
    ensures Turn16(W(w)) == W(w.RotateRight(16))
  {
  }

  lemma Is24(w: bv64)
    ensures Turn8(Turn16(W(w))) == W(w.RotateRight(24))
  {
  }

  lemma Is32(w: bv64)
    ensures Turn32(W(w)) == W(w.RotateRight(32))
  {
  }

  lemma Is40(w: bv64)
    ensures Turn8(Turn32(W(w))) == W(w.RotateRight(40))
  {
  }

  lemma Is48(w: bv64)
    ensures Turn16(Turn32(W(w))) == W(w.RotateRight(48))
  {
  }

  lemma Is56(w: bv64)
    ensures Turn8(Turn16(Turn32(W(w)))) == W(w.RotateRight(56))
  {
  }

  lemma Bytes8Is(w: bv64)
    ensures WordBits(W(w)) == M.BitsOf(Bytes8(w))
  {
    hide HasByte, Turn8, Turn16, Turn32, WordBits, M.BitsOf, ByteAt0;
    Is8(w);
    Is16(w);
    Is24(w);
    Is32(w);
    Is40(w);
    Is48(w);
    Is56(w);
    ByteAt0Has(w);
    ByteAt0Has(w.RotateRight(8));
    ByteAt0Has(w.RotateRight(16));
    ByteAt0Has(w.RotateRight(24));
    ByteAt0Has(w.RotateRight(32));
    ByteAt0Has(w.RotateRight(40));
    ByteAt0Has(w.RotateRight(48));
    ByteAt0Has(w.RotateRight(56));
    BytesOf8(W(w), Bytes8(w));
  }

  lemma FiveSlices(a: seq<byte>, b: seq<byte>, c: seq<byte>, d: seq<byte>, e: seq<byte>)
    requires |a| == |b| == |c| == |d| == |e| == 8
    ensures var s := a + b + c + d + e;
            s[0..8] == a && s[8..16] == b && s[16..24] == c && s[24..32] == d && s[32..40] == e
  {
  }

  lemma Bytes40Is(v: Vec)
    ensures Bytes40(v) == M.ToBytes(StateOf(Lift(v)))
  {
    hide Bytes8, WordBits, M.BitsOf, M.ToBytes, M.ToWords;
    var s := Bytes40(v);
    FiveSlices(Bytes8(v.x0), Bytes8(v.x1), Bytes8(v.x2), Bytes8(v.x3), Bytes8(v.x4));
    hide Bytes40;
    Bytes8Is(v.x0);
    Bytes8Is(v.x1);
    Bytes8Is(v.x2);
    Bytes8Is(v.x3);
    Bytes8Is(v.x4);
    M.WordAt(s, 0);
    M.WordAt(s, 1);
    M.WordAt(s, 2);
    M.WordAt(s, 3);
    M.WordAt(s, 4);
    M.UnionRoundTrip(s, StateOf(Lift(v)));
  }

  /** Ascon-p on bytes is the rounds on vectors. */
  lemma PermutedBytes(v: Vec)
    ensures M.Permutation(Bytes40(v), 12) == Bytes40(Rounds12(v))
    ensures M.Permutation(Bytes40(v), 8) == Bytes40(Rounds8(v))
  {
    hide Bytes40, Lift, StateOf, Rounds8, Rounds12, M.ToBytes, M.ToWords, A.RoundsFrom;
    Bytes40Is(v);
    Bytes40Is(Rounds12(v));
    Bytes40Is(Rounds8(v));
    M.UnionRoundTrip(Bytes40(v), StateOf(Lift(v)));
    Rounds12Is(v);
    Rounds8Is(v);
  }

  // ------------------------------------------------- XOR of words in memory

  function XorInto(v: Vec, i: nat, w: bv64): Vec
    requires i < 5
  {
    if i == 0 then v.(x0 := X(v.x0, w))
    else if i == 1 then v.(x1 := X(v.x1, w))
    else if i == 2 then v.(x2 := X(v.x2, w))
    else if i == 3 then v.(x3 := X(v.x3, w))
    else v.(x4 := X(v.x4, w))
  }

  function At(m: Machine, i: nat): word
    requires i < 5
  {
    if i == 0 then m.x0 else if i == 1 then m.x1 else if i == 2 then m.x2 else if i == 3 then m.x3 else m.x4
  }

  lemma WordsOfBytes(v: Vec, j: nat)
    requires j < 5
    ensures M.WordOf(M.ToWords(Bytes40(v)), j) == WordBits(At(Lift(v), j))
  {
    hide Bytes40, WordBits, M.ToBytes, M.ToWords, Lift;
    Bytes40Is(v);
    M.UnionRoundTrip(Bytes40(v), StateOf(Lift(v)));
  }

  function Changed(m: Machine, i: nat, w: word): Machine
    requires i < 5
  {
    if i == 0 then m.(x0 := w) else if i == 1 then m.(x1 := w) else if i == 2 then m.(x2 := w)
    else if i == 3 then m.(x3 := w) else m.(x4 := w)
  }

  lemma LiftXorInto(v: Vec, i: nat, w: bv64)
    requires i < 5
    ensures Lift(XorInto(v, i, w)) == Changed(Lift(v), i, WXor(At(Lift(v), i), W(w)))
  {
    hide X, WXor;
    if i == 0 {
      XIs(v.x0, w);
    } else if i == 1 {
      XIs(v.x1, w);
    } else if i == 2 {
      XIs(v.x2, w);
    } else if i == 3 {
      XIs(v.x3, w);
    } else {
      XIs(v.x4, w);
    }
  }

  lemma SameBytes(s: State, v: Vec)
    requires forall j :: 0 <= j < 5 ==> M.WordOf(M.ToWords(s), j) == WordBits(At(Lift(v), j))
    ensures s == Bytes40(v)
  {
    hide Bytes40, WordBits, M.ToBytes, M.ToWords;
    Bytes40Is(v);
    var m := StateOf(Lift(v));
    var w := M.ToWords(s);
    assert M.WordOf(w, 0) == m.x0 && M.WordOf(w, 1) == m.x1 && M.WordOf(w, 2) == m.x2;
    assert M.WordOf(w, 3) == m.x3 && M.WordOf(w, 4) == m.x4;
    M.UnionRoundTrip(s, m);
  }

  /** XOR of a word's bytes into memory is XOR into that word. */
  lemma WordXored(v: Vec, i: nat, w: bv64)
    requires i < 5
    ensures XorAt(Bytes40(v), 8 * i, Bytes8(w)) == Bytes40(XorInto(v, i, w))
  {
    hide Bytes40, Bytes8, WordBits, M.ToWords, M.WordOf, M.BitsOf, WXor, XorInto, XorAt, Lift;
    var s := Bytes40(v);
    var t := XorAt(s, 8 * i, Bytes8(w));
    LiftXorInto(v, i, w);
    forall j | 0 <= j < 5
      ensures M.WordOf(M.ToWords(t), j) == WordBits(At(Lift(XorInto(v, i, w)), j))
    {
      M.WordXor(s, i, Bytes8(w), j);
      WordsOfBytes(v, j);
      Bytes8Is(w);
      XorIs(At(Lift(v), i), W(w));
    }
    SameBytes(t, XorInto(v, i, w));
  }
}
