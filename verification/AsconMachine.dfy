/** The round on machine words, and the bit strings they stand for: a word's
    bit i is the low bit of the word rotated right by i. */
module AsconMachine {
  import opened Words
  import opened AsconInverse
  import A = AsconP
  import M = AsconMode
  import opened Sponge

  datatype word = W(v: bv64)

  function WXor(a: word, b: word): word {
    W(a.v ^ b.v)
  }

  function WAnd(a: word, b: word): word {
    W(a.v & b.v)
  }

  const ONES := W(0xFFFF_FFFF_FFFF_FFFF)

  function Turn1(w: word): word {
    W(w.v.RotateRight(1))
  }

  function Turn2(w: word): word {
    W(w.v.RotateRight(2))
  }

  function Turn4(w: word): word {
    W(w.v.RotateRight(4))
  }

  function Turn8(w: word): word {
    W(w.v.RotateRight(8))
  }

  function Turn16(w: word): word {
    W(w.v.RotateRight(16))
  }

  function Turn32(w: word): word {
    W(w.v.RotateRight(32))
  }

  /** w rotated right by i. */
  function Turn(w: word, i: nat): word
    decreases i
  {
    if i == 0 then w else Turn(Turn1(w), i - 1)
  }

  function Low(w: word): bool {
    w.v & 1 == 1
  }

  function WordBits(w: word): Word {
    seq(64, i requires 0 <= i < 64 => Low(Turn(w, i)))
  }

  // ------------------------------------------------------ bitwise operators

  lemma Turn1Xor(a: word, b: word)
    ensures Turn1(WXor(a, b)) == WXor(Turn1(a), Turn1(b))
  {
  }

  lemma Turn1And(a: word, b: word)
    ensures Turn1(WAnd(a, b)) == WAnd(Turn1(a), Turn1(b))
  {
  }

  lemma Turn1Ones()
    ensures Turn1(ONES) == ONES
  {
  }

  lemma {:induction false} TurnXor(a: word, b: word, i: nat)
    ensures Turn(WXor(a, b), i) == WXor(Turn(a, i), Turn(b, i))
    decreases i
  {
    hide Turn1, WXor;
    if i > 0 {
      Turn1Xor(a, b);
      TurnXor(Turn1(a), Turn1(b), i - 1);
    }
  }

  lemma {:induction false} TurnAnd(a: word, b: word, i: nat)
    ensures Turn(WAnd(a, b), i) == WAnd(Turn(a, i), Turn(b, i))
    decreases i
  {
    hide Turn1, WAnd;
    if i > 0 {
      Turn1And(a, b);
      TurnAnd(Turn1(a), Turn1(b), i - 1);
    }
  }

  lemma {:induction false} TurnOnes(i: nat)
    ensures Turn(ONES, i) == ONES
  {
    hide Turn1, ONES;
    if i > 0 {
      Turn1Ones();
      TurnOnes(i - 1);
    }
  }

  lemma LowXor(a: word, b: word)
    ensures Low(WXor(a, b)) == (Low(a) != Low(b))
  {
  }

  lemma LowAnd(a: word, b: word)
    ensures Low(WAnd(a, b)) == (Low(a) && Low(b))
  {
  }

  lemma LowOnes()
    ensures Low(ONES)
  {
  }

  lemma XorIs(a: word, b: word)
    ensures WordBits(WXor(a, b)) == Xor(WordBits(a), WordBits(b))
  {
    hide Turn, Low, WXor;
    forall i | 0 <= i < 64
      ensures WordBits(WXor(a, b))[i] == Xor(WordBits(a), WordBits(b))[i]
    {
      TurnXor(a, b, i);
      LowXor(Turn(a, i), Turn(b, i));
    }
  }

  lemma AndIs(a: word, b: word)
    ensures WordBits(WAnd(a, b)) == And(WordBits(a), WordBits(b))
  {
    hide Turn, Low, WAnd;
    forall i | 0 <= i < 64
      ensures WordBits(WAnd(a, b))[i] == And(WordBits(a), WordBits(b))[i]
    {
      TurnAnd(a, b, i);
      LowAnd(Turn(a, i), Turn(b, i));
    }
  }

  /** Complement is XOR with ones. */
  lemma NotIs(a: word)
    ensures WordBits(WXor(a, ONES)) == Not(WordBits(a))
  {
    hide Turn, Low, WXor, ONES;
    XorIs(a, ONES);
    forall i | 0 <= i < 64
      ensures WordBits(ONES)[i]
    {
      TurnOnes(i);
      LowOnes();
    }
  }

  // -------------------------------------------------------------- rotations

  lemma {:induction false} TurnAdds(w: word, m: nat, n: nat)
    ensures Turn(w, m + n) == Turn(Turn(w, m), n)
    decreases m
  {
    hide Turn1;
    if m > 0 {
      TurnAdds(Turn1(w), m - 1, n);
    }
  }

  lemma Doubled1(w: word)
    ensures Turn1(Turn1(w)) == Turn2(w)
  {
  }

  lemma Doubled2(w: word)
    ensures Turn2(Turn2(w)) == Turn4(w)
  {
  }

  lemma Doubled4(w: word)
    ensures Turn4(Turn4(w)) == Turn8(w)
  {
  }

  lemma Doubled8(w: word)
    ensures Turn8(Turn8(w)) == Turn16(w)
  {
  }

  lemma Doubled16(w: word)
    ensures Turn16(Turn16(w)) == Turn32(w)
  {
  }

  lemma Doubled32(w: word)
    ensures Turn32(Turn32(w)) == w
  {
  }

  lemma TurnOnce(w: word)
    ensures Turn(w, 1) == Turn1(w)
  {
    hide Turn1;
    assert Turn(w, 1) == Turn(Turn1(w), 0);
  }

  lemma TurnsTo4(w: word)
    ensures Turn(w, 2) == Turn2(w) && Turn(w, 4) == Turn4(w)
  {
    hide Turn, Turn1, Turn2, Turn4;
    TurnOnce(w);
    TurnOnce(Turn1(w));
    TurnAdds(w, 1, 1);
    Doubled1(w);
    TurnOnce(Turn2(w));
    TurnOnce(Turn1(Turn2(w)));
    TurnAdds(Turn2(w), 1, 1);
    Doubled1(Turn2(w));
    TurnAdds(w, 2, 2);
    Doubled2(w);
  }

  lemma TurnsTo16(w: word)
    ensures Turn(w, 8) == Turn8(w) && Turn(w, 16) == Turn16(w)
  {
    hide Turn, Turn4, Turn8, Turn16;
    TurnsTo4(w);
    TurnsTo4(Turn4(w));
    TurnAdds(w, 4, 4);
    Doubled4(w);
    TurnsTo4(Turn8(w));
    TurnsTo4(Turn4(Turn8(w)));
    TurnAdds(Turn8(w), 4, 4);
    Doubled4(Turn8(w));
    TurnAdds(w, 8, 8);
    Doubled8(w);
  }

  lemma TurnsTo64(w: word)
    ensures Turn(w, 32) == Turn32(w) && Turn(w, 64) == w
  {
    hide Turn, Turn16, Turn32;
    TurnsTo16(w);
    TurnsTo16(Turn16(w));
    TurnAdds(w, 16, 16);
    Doubled16(w);
    TurnsTo16(Turn32(w));
    TurnsTo16(Turn16(Turn32(w)));
    TurnAdds(Turn32(w), 16, 16);
    Doubled16(Turn32(w));
    TurnAdds(w, 32, 32);
    Doubled32(w);
  }

  lemma Turns(w: word)
    ensures Turn(w, 1) == Turn1(w) && Turn(w, 2) == Turn2(w) && Turn(w, 4) == Turn4(w)
    ensures Turn(w, 8) == Turn8(w) && Turn(w, 16) == Turn16(w) && Turn(w, 32) == Turn32(w)
  {
    hide Turn, Turn1, Turn2, Turn4, Turn8, Turn16, Turn32;
    TurnOnce(w);
    TurnsTo4(w);
    TurnsTo16(w);
    TurnsTo64(w);
  }

  lemma TurnMod(w: word, k: nat)
    requires k < 128
    ensures Turn(w, k) == Turn(w, k % 64)
  {
    hide Turn;
    if k >= 64 {
      TurnsTo64(w);
      TurnAdds(w, 64, k - 64);
    }
  }

  lemma TurnIs(w: word, n: nat)
    requires n < 64
    ensures WordBits(Turn(w, n)) == Rotr(WordBits(w), n)
  {
    hide Turn, Low, Rotr;
    forall i | 0 <= i < 64
      ensures WordBits(Turn(w, n))[i] == Rotr(WordBits(w), n)[i]
    {
      RotrAt(WordBits(w), n, i);
      TurnAdds(w, n, i);
      TurnMod(w, n + i);
    }
  }

  // ------------------------------------------------------------- the round

  datatype Machine = Machine(x0: word, x1: word, x2: word, x3: word, x4: word)

  function StateOf(s: Machine): A.State {
    A.State(WordBits(s.x0), WordBits(s.x1), WordBits(s.x2), WordBits(s.x3), WordBits(s.x4))
  }

  function ChiAt(a: word, b: word, c: word): word {
    WXor(a, WAnd(WXor(b, ONES), c))
  }

  function Mixed(s: Machine, c: word): Machine {
    Machine(WXor(s.x0, s.x4), s.x1, WXor(WXor(s.x2, c), s.x1), s.x3, WXor(s.x4, s.x3))
  }

  function Substituted(s: Machine): Machine {
    var t0, t1, t2 := ChiAt(s.x0, s.x1, s.x2), ChiAt(s.x1, s.x2, s.x3), ChiAt(s.x2, s.x3, s.x4);
    var t3, t4 := ChiAt(s.x3, s.x4, s.x0), ChiAt(s.x4, s.x0, s.x1);
    Machine(WXor(t0, t4), WXor(t1, t0), WXor(t2, ONES), WXor(t3, t2), t4)
  }

  function Sum3(a: word, b: word, c: word): word {
    WXor(WXor(a, b), c)
  }

  function Diffused(s: Machine): Machine {
    Machine(Sum3(s.x0, Turn1(Turn2(Turn16(s.x0))), Turn4(Turn8(Turn16(s.x0)))),
          Sum3(s.x1, Turn1(Turn4(Turn8(Turn16(Turn32(s.x1))))), Turn1(Turn2(Turn4(Turn32(s.x1))))),
          Sum3(s.x2, Turn1(s.x2), Turn2(Turn4(s.x2))),
          Sum3(s.x3, Turn2(Turn8(s.x3)), Turn1(Turn16(s.x3))),
          Sum3(s.x4, Turn1(Turn2(Turn4(s.x4))), Turn1(Turn8(Turn32(s.x4)))))
  }

  function Round(s: Machine, c: word): Machine {
    Diffused(Substituted(Mixed(s, c)))
  }

  lemma ChiIs(a: word, b: word, c: word)
    ensures WordBits(ChiAt(a, b, c)) == A.ChiAt(WordBits(a), WordBits(b), WordBits(c))
  {
    hide WordBits, WXor, WAnd, ONES;
    NotIs(b);
    AndIs(WXor(b, ONES), c);
    XorIs(a, WAnd(WXor(b, ONES), c));
  }

  lemma MixedIs(s: Machine, c: word)
    ensures StateOf(Mixed(s, c)) == A.MixBefore(A.AddConstant(StateOf(s), WordBits(c)))
  {
    hide WordBits, WXor;
    XorIs(s.x0, s.x4);
    XorIs(s.x2, c);
    XorIs(WXor(s.x2, c), s.x1);
    XorIs(s.x4, s.x3);
  }

  lemma SubstitutedIs(s: Machine)
    ensures StateOf(Substituted(s)) == A.MixAfter(A.Chi(StateOf(s)))
  {
    hide WordBits, WXor, ONES, ChiAt, A.ChiAt;
    ChiIs(s.x0, s.x1, s.x2);
    ChiIs(s.x1, s.x2, s.x3);
    ChiIs(s.x2, s.x3, s.x4);
    ChiIs(s.x3, s.x4, s.x0);
    ChiIs(s.x4, s.x0, s.x1);
    var t0, t2 := ChiAt(s.x0, s.x1, s.x2), ChiAt(s.x2, s.x3, s.x4);
    XorIs(t0, ChiAt(s.x4, s.x0, s.x1));
    XorIs(ChiAt(s.x1, s.x2, s.x3), t0);
    NotIs(t2);
    XorIs(ChiAt(s.x3, s.x4, s.x0), t2);
  }

  lemma SigmaIs(w: word, a: nat, b: nat)
    requires a < 64 && b < 64
    ensures WordBits(Sum3(w, Turn(w, a), Turn(w, b))) == A.Sigma(WordBits(w), a, b)
  {
    hide WordBits, WXor, Turn;
    TurnIs(w, a);
    TurnIs(w, b);
    XorIs(w, Turn(w, a));
    XorIs(WXor(w, Turn(w, a)), Turn(w, b));
  }

  lemma Turned19And28(w: word)
    ensures Turn(w, 19) == Turn1(Turn2(Turn16(w))) && Turn(w, 28) == Turn4(Turn8(Turn16(w)))
  {
    hide Turn, Turn1, Turn2, Turn4, Turn8, Turn16, Turn32;
    Turns(w);
    TurnAdds(w, 16, 2);
    Turns(Turn16(w));
    TurnAdds(w, 18, 1);
    Turns(Turn2(Turn16(w)));
    TurnAdds(w, 16, 8);
    TurnAdds(w, 24, 4);
    Turns(Turn8(Turn16(w)));
  }

  lemma Turned61And39(w: word)
    ensures Turn(w, 61) == Turn1(Turn4(Turn8(Turn16(Turn32(w))))) && Turn(w, 39) == Turn1(Turn2(Turn4(Turn32(w))))
  {
    hide Turn, Turn1, Turn2, Turn4, Turn8, Turn16, Turn32;
    Turns(w);
    TurnAdds(w, 32, 16);
    Turns(Turn32(w));
    TurnAdds(w, 48, 8);
    Turns(Turn16(Turn32(w)));
    TurnAdds(w, 56, 4);
    Turns(Turn8(Turn16(Turn32(w))));
    TurnAdds(w, 60, 1);
    Turns(Turn4(Turn8(Turn16(Turn32(w)))));
    TurnAdds(w, 32, 4);
    TurnAdds(w, 36, 2);
    Turns(Turn4(Turn32(w)));
    TurnAdds(w, 38, 1);
    Turns(Turn2(Turn4(Turn32(w))));
  }

  lemma Turned6And7(w: word)
    ensures Turn(w, 6) == Turn2(Turn4(w)) && Turn(w, 7) == Turn1(Turn2(Turn4(w)))
  {
    hide Turn, Turn1, Turn2, Turn4, Turn8, Turn16, Turn32;
    Turns(w);
    TurnAdds(w, 4, 2);
    Turns(Turn4(w));
    TurnAdds(w, 6, 1);
    Turns(Turn2(Turn4(w)));
  }

  lemma Turned10And17And41(w: word)
    ensures Turn(w, 10) == Turn2(Turn8(w)) && Turn(w, 17) == Turn1(Turn16(w))
    ensures Turn(w, 41) == Turn1(Turn8(Turn32(w)))
  {
    hide Turn, Turn1, Turn2, Turn4, Turn8, Turn16, Turn32;
    Turns(w);
    TurnAdds(w, 8, 2);
    Turns(Turn8(w));
    TurnAdds(w, 16, 1);
    Turns(Turn16(w));
    TurnAdds(w, 32, 8);
    Turns(Turn32(w));
    TurnAdds(w, 40, 1);
    Turns(Turn8(Turn32(w)));
  }

  lemma DiffusedIs(s: Machine)
    ensures StateOf(Diffused(s)) == A.Diffuse(StateOf(s))
  {
    hide WordBits, Turn, Turn1, Turn2, Turn4, Turn8, Turn16, Turn32, Sum3, A.Sigma;
    Turned19And28(s.x0);
    SigmaIs(s.x0, 19, 28);
    Turned61And39(s.x1);
    SigmaIs(s.x1, 61, 39);
    TurnOnce(s.x2);
    Turned6And7(s.x2);
    SigmaIs(s.x2, 1, 6);
    Turned10And17And41(s.x3);
    SigmaIs(s.x3, 10, 17);
    Turned6And7(s.x4);
    Turned10And17And41(s.x4);
    SigmaIs(s.x4, 7, 41);
  }

  /** The machine round is the round on the bit strings. */
  lemma RoundIs(s: Machine, c: word)
    ensures StateOf(Round(s, c)) == A.Round(StateOf(s), WordBits(c))
  {
    hide StateOf, Mixed, Substituted, Diffused, A.Diffuse, A.MixBefore, A.AddConstant, A.MixAfter, A.Chi;
    MixedIs(s, c);
    SubstitutedIs(Mixed(s, c));
    DiffusedIs(Substituted(Mixed(s, c)));
  }

  // ------------------------------------------------- bytes and constants

  predicate HasByte(w: word, b: byte) {
    w.v & 0xFF == b as bv64
  }

  /** The low byte of a word and its bits. */
  lemma LowByte(w: word, b: byte)
    requires HasByte(w, b)
    ensures Low(w) == M.BitAt(b, 0x01) && Low(Turn1(w)) == M.BitAt(b, 0x02)
    ensures Low(Turn2(w)) == M.BitAt(b, 0x04) && Low(Turn1(Turn2(w))) == M.BitAt(b, 0x08)
    ensures Low(Turn4(w)) == M.BitAt(b, 0x10) && Low(Turn1(Turn4(w))) == M.BitAt(b, 0x20)
    ensures Low(Turn2(Turn4(w))) == M.BitAt(b, 0x40) && Low(Turn1(Turn2(Turn4(w)))) == M.BitAt(b, 0x80)
  {
  }

  lemma TurnedTo7(w: word)
    ensures Turn(w, 3) == Turn1(Turn2(w)) && Turn(w, 5) == Turn1(Turn4(w))
  {
    hide Turn, Turn1, Turn2, Turn4, Turn8, Turn16, Turn32;
    Turns(w);
    TurnAdds(w, 2, 1);
    Turns(Turn2(w));
    TurnAdds(w, 4, 1);
    Turns(Turn4(w));
  }

  lemma MaskedBits(b: byte)
    ensures var x := M.ByteBits(b);
            && x[0] == M.BitAt(b, 0x01) && x[1] == M.BitAt(b, 0x02) && x[2] == M.BitAt(b, 0x04)
            && x[3] == M.BitAt(b, 0x08) && x[4] == M.BitAt(b, 0x10) && x[5] == M.BitAt(b, 0x20)
            && x[6] == M.BitAt(b, 0x40) && x[7] == M.BitAt(b, 0x80)
  {
    hide M.BitAt;
  }

  lemma LowByteAt(w: word, b: byte, j: nat)
    requires HasByte(w, b) && j < 8
    ensures Low(Turn(w, j)) == M.ByteBits(b)[j]
  {
    hide HasByte, Turn, Turn1, Turn2, Turn4, Turn8, Turn16, Turn32, Low, M.BitAt, M.ByteBits;
    MaskedBits(b);
    LowByte(w, b);
    Turns(w);
    TurnedTo7(w);
    Turned6And7(w);
    TurnNone(w);
    assert j == 0 || j == 1 || j == 2 || j == 3 || j == 4 || j == 5 || j == 6 || j == 7;
  }

  lemma TurnNone(w: word)
    ensures Turn(w, 0) == w
  {
  }

  /** A word stands for its eight bytes, low byte first. */
  lemma BytesAre(w: word, d: seq<byte>)
    requires |d| == 8 && forall k :: 0 <= k < 8 ==> HasByte(Turn(w, 8 * k), d[k])
    ensures WordBits(w) == M.BitsOf(d)
  {
    hide HasByte, Turn, Low, M.ByteBits;
    forall i | 0 <= i < 64
      ensures WordBits(w)[i] == M.BitsOf(d)[i]
    {
      var k, j := i / 8, i % 8;
      LowByteAt(Turn(w, 8 * k), d[k], j);
      TurnAdds(w, 8 * k, j);
    }
  }

  lemma BytesOf8(w: word, d: seq<byte>)
    requires |d| == 8 && HasByte(w, d[0]) && HasByte(Turn8(w), d[1])
    requires HasByte(Turn16(w), d[2]) && HasByte(Turn8(Turn16(w)), d[3])
    requires HasByte(Turn32(w), d[4]) && HasByte(Turn8(Turn32(w)), d[5])
    requires HasByte(Turn16(Turn32(w)), d[6]) && HasByte(Turn8(Turn16(Turn32(w))), d[7])
    ensures WordBits(w) == M.BitsOf(d)
  {
    hide HasByte, Turn, Turn8, Turn16, Turn32, WordBits, M.BitsOf;
    TurnNone(w);
    TurnsTo16(w);
    TurnsTo16(Turn16(w));
    TurnAdds(w, 16, 8);
    TurnsTo64(w);
    TurnsTo16(Turn32(w));
    TurnAdds(w, 32, 8);
    TurnAdds(w, 32, 16);
    TurnAdds(w, 48, 8);
    TurnsTo16(Turn16(Turn32(w)));
    assert forall k :: 0 <= k < 8 ==> HasByte(Turn(w, 8 * k), d[k]);
    BytesAre(w, d);
  }

  lemma ByteAlone(b: byte)
    ensures WordBits(W(b as bv64)) == M.BitsOf([b, 0, 0, 0, 0, 0, 0, 0])
  {
    hide WordBits, M.BitsOf;
    ByteAloneHas(b);
    hide HasByte, Turn8, Turn16, Turn32;
    BytesOf8(W(b as bv64), [b, 0, 0, 0, 0, 0, 0, 0]);
  }

  lemma ByteAloneHas(b: byte)
    ensures var w := W(b as bv64);
            && HasByte(w, b) && HasByte(Turn8(w), 0) && HasByte(Turn16(w), 0) && HasByte(Turn8(Turn16(w)), 0)
            && HasByte(Turn32(w), 0) && HasByte(Turn8(Turn32(w)), 0) && HasByte(Turn16(Turn32(w)), 0)
            && HasByte(Turn8(Turn16(Turn32(w))), 0)
  {
  }

  lemma ByteAloneIs(b: byte, n: nat)
    requires ToNat(M.ByteBits(b)) == n
    ensures WordBits(W(b as bv64)) == FromNat(n, 64)
  {
    hide ToNat, M.ByteBits, M.BitsOf, WordBits, FromNat;
    var d: seq<byte> := [b, 0, 0, 0, 0, 0, 0, 0];
    ByteAlone(b);
    M.WordValue(d);
    M.ByteConstants();
    assert ToNat(M.BitsOf(d)) == n;
    Words.BitsRoundTrip(M.BitsOf(d));
  }

  const CONSTANTS: seq<byte> :=
    [0xf0, 0xe1, 0xd2, 0xc3, 0xb4, 0xa5, 0x96, 0x87, 0x78, 0x69, 0x5a, 0x4b]

  lemma ConstantValues(i: nat)
    requires i < 12
    ensures ToNat(M.ByteBits(CONSTANTS[i])) == A.ROUND_CONSTANTS[i]
  {
    hide ToNat;
    M.ToNatOfByte(M.ByteBits(CONSTANTS[i]));
  }

  /** The rounds from index i on. */
  function RunFrom(s: Machine, i: nat): Machine
    requires i <= A.MAX_ROUNDS
    decreases A.MAX_ROUNDS - i
  {
    if i == A.MAX_ROUNDS then s else RunFrom(Round(s, W(CONSTANTS[i] as bv64)), i + 1)
  }

  lemma {:induction false} RunFromIs(s: Machine, i: nat)
    requires i <= A.MAX_ROUNDS
    ensures StateOf(RunFrom(s, i)) == A.RoundsFrom(StateOf(s), i)
    decreases A.MAX_ROUNDS - i
  {
    hide StateOf, Round, A.Round, FromNat;
    if i < A.MAX_ROUNDS {
      var c := W(CONSTANTS[i] as bv64);
      ConstantValues(i);
      ByteAloneIs(CONSTANTS[i], A.ROUND_CONSTANTS[i]);
      RoundIs(s, c);
      RunFromIs(Round(s, c), i + 1);
    }
  }
}
