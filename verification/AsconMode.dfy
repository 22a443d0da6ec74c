/** The union AsconState: forty bytes that are five little-endian words. Here
    the modes get the real permutation, and the word-level statements of the
    sources are shown to be the byte-level ones of the sponge. */
module AsconMode {
  import opened Words
  import opened Sponge
  import opened OneShot
  import A = AsconP
  import I = AsconInverse

  // --------------------------------------------------------- bytes and bits

  const MASKS: seq<byte> := [0x01, 0x02, 0x04, 0x08, 0x10, 0x20, 0x40, 0x80]

  function BitAt(b: byte, mask: byte): bool {
    b & mask == mask
  }

  function ByteBits(b: byte): (r: Bits)
    ensures |r| == 8
  {
    seq(8, k requires 0 <= k < 8 => BitAt(b, MASKS[k]))
  }

  function ByteOf(x: Bits): byte
    requires |x| == 8
  {
    (if x[0] then 0x01 else 0) | (if x[1] then 0x02 else 0) | (if x[2] then 0x04 else 0) | (if x[3] then 0x08 else 0)
    | (if x[4] then 0x10 else 0) | (if x[5] then 0x20 else 0) | (if x[6] then 0x40 else 0) | (if x[7] then 0x80 else 0)
  }

  lemma ByteRoundTrip(b: byte)
    ensures ByteOf(ByteBits(b)) == b
  {
  }

  lemma BitsRoundTrip(x: Bits)
    requires |x| == 8
    ensures ByteBits(ByteOf(x)) == x
  {
  }

  lemma ByteBitsXor(a: byte, b: byte)
    ensures ByteBits(XorByte(a, b)) == Xor(ByteBits(a), ByteBits(b))
  {
    hide XorByte, BitAt;
    forall k | 0 <= k < 8
      ensures ByteBits(XorByte(a, b))[k] == Xor(ByteBits(a), ByteBits(b))[k]
    {
      BitAtXor(a, b, MASKS[k]);
    }
  }

  lemma BitAtXor(a: byte, b: byte, mask: byte)
    requires mask == 0x01 || mask == 0x02 || mask == 0x04 || mask == 0x08
          || mask == 0x10 || mask == 0x20 || mask == 0x40 || mask == 0x80
    ensures BitAt(XorByte(a, b), mask) == (BitAt(a, mask) != BitAt(b, mask))
  {
  }

  /** Little-endian: the low bits are those of the first byte. */
  function BitsOf(d: seq<byte>): (r: Bits)
    ensures |r| == 8 * |d|
  {
    seq(8 * |d|, i requires 0 <= i < 8 * |d| => ByteBits(d[i / 8])[i % 8])
  }

  function BytesOf(x: Bits): (r: seq<byte>)
    requires |x| % 8 == 0
    ensures 8 * |r| == |x|
  {
    seq(|x| / 8, k requires 0 <= k < |x| / 8 => ByteOf(x[8 * k..8 * k + 8]))
  }

  lemma BytesBits(d: seq<byte>)
    ensures BytesOf(BitsOf(d)) == d
  {
    hide ByteBits, ByteOf;
    forall k | 0 <= k < |d|
      ensures BytesOf(BitsOf(d))[k] == d[k]
    {
      assert BitsOf(d)[8 * k..8 * k + 8] == ByteBits(d[k]);
      ByteRoundTrip(d[k]);
    }
  }

  lemma BitsBytes(x: Bits)
    requires |x| % 8 == 0
    ensures BitsOf(BytesOf(x)) == x
  {
    hide ByteBits, ByteOf;
    forall i | 0 <= i < |x|
      ensures BitsOf(BytesOf(x))[i] == x[i]
    {
      var k := i / 8;
      BitsRoundTrip(x[8 * k..8 * k + 8]);
      assert x[8 * k..8 * k + 8][i % 8] == x[i];
    }
  }

  // --------------------------------------------------------------- the union

  function ToWords(s: State): A.State {
    var x := BitsOf(s);
    A.State(x[..64], x[64..128], x[128..192], x[192..256], x[256..])
  }

  function ToBytes(w: A.State): State {
    BytesOf(w.x0 + w.x1 + w.x2 + w.x3 + w.x4)
  }

  lemma UnionRoundTrip(s: State, w: A.State)
    ensures ToBytes(ToWords(s)) == s
    ensures ToWords(ToBytes(w)) == w
  {
    hide BytesOf, BitsOf;
    BytesBits(s);
    var x := BitsOf(s);
    assert x[..64] + x[64..128] + x[128..192] + x[192..256] + x[256..] == x;
    var y := w.x0 + w.x1 + w.x2 + w.x3 + w.x4;
    BitsBytes(y);
    assert y[..64] == w.x0 && y[64..128] == w.x1 && y[128..192] == w.x2 && y[192..256] == w.x3 && y[256..] == w.x4;
  }

  function WordOf(w: A.State, i: nat): Words.Word
    requires i < 5
  {
    if i == 0 then w.x0 else if i == 1 then w.x1 else if i == 2 then w.x2 else if i == 3 then w.x3 else w.x4
  }

  lemma BitsOfSlice(d: seq<byte>, a: nat, b: nat)
    requires a <= b <= |d|
    ensures BitsOf(d)[8 * a..8 * b] == BitsOf(d[a..b])
  {
    hide ByteBits;
    forall k | 0 <= k < 8 * (b - a)
      ensures BitsOf(d)[8 * a + k] == BitsOf(d[a..b])[k]
    {
      assert (8 * a + k) / 8 == a + k / 8 && (8 * a + k) % 8 == k % 8;
    }
  }

  lemma WordAt(s: State, i: nat)
    requires i < 5
    ensures WordOf(ToWords(s), i) == BitsOf(s[8 * i..8 * i + 8])
  {
    hide BitsOf;
    BitsOfSlice(s, 8 * i, 8 * i + 8);
    assert i == 4 ==> BitsOf(s)[256..] == BitsOf(s)[256..320];
  }

  /** s64[i] ^= d in memory is the byte-wise XOR at offset 8 * i, and touches
      no other word. */
  lemma WordXor(s: State, i: nat, d: seq<byte>, j: nat)
    requires i < 5 && j < 5 && |d| == 8
    ensures WordOf(ToWords(XorAt(s, 8 * i, d)), j)
         == if j == i then Xor(WordOf(ToWords(s), j), BitsOf(d)) else WordOf(ToWords(s), j)
  {
    hide ByteBits, XorByte, BitsOf, ToWords, WordOf;
    var t := XorAt(s, 8 * i, d);
    WordAt(s, j);
    WordAt(t, j);
    if j == i {
      assert t[8 * i..8 * i + 8] == XorAt(s[8 * i..8 * i + 8], 0, d);
      BitsOfXor(s[8 * i..8 * i + 8], d);
    } else {
      assert t[8 * j..8 * j + 8] == s[8 * j..8 * j + 8];
    }
  }

  lemma BitsOfXor(a: seq<byte>, d: seq<byte>)
    requires |a| == |d|
    ensures BitsOf(XorAt(a, 0, d)) == Xor(BitsOf(a), BitsOf(d))
  {
    hide ByteBits, XorByte;
    forall i | 0 <= i < 8 * |a|
      ensures BitsOf(XorAt(a, 0, d))[i] == Xor(BitsOf(a), BitsOf(d))[i]
    {
      ByteBitsXor(a[i / 8], d[i / 8]);
    }
  }

  /** The value of the bits from place k on. */
  function TailValue(x: Bits, k: nat): nat
    requires k <= |x|
  {
    ToNat(x[k..])
  }

  lemma TailValueStep(x: Bits, k: nat)
    requires k < |x|
    ensures TailValue(x, k) == A.Bit(x[k]) + 2 * TailValue(x, k + 1)
  {
    assert x[k..][1..] == x[k + 1..];
  }

  lemma TailValueEnds(x: Bits)
    ensures TailValue(x, 0) == ToNat(x) && TailValue(x, |x|) == 0
  {
    assert x[0..] == x;
  }

  lemma ToNatOfByte(x: Bits)
    requires |x| == 8
    ensures ToNat(x) == A.Bit(x[0]) + 2 * A.Bit(x[1]) + 4 * A.Bit(x[2]) + 8 * A.Bit(x[3])
                        + 16 * A.Bit(x[4]) + 32 * A.Bit(x[5]) + 64 * A.Bit(x[6]) + 128 * A.Bit(x[7])
  {
    hide ToNat, A.Bit, TailValue;
    TailValueEnds(x);
    TailValueStep(x, 0);
    TailValueStep(x, 1);
    TailValueStep(x, 2);
    TailValueStep(x, 3);
    TailValueStep(x, 4);
    TailValueStep(x, 5);
    TailValueStep(x, 6);
    TailValueStep(x, 7);
  }

  lemma ByteValue(b: byte)
    ensures ToNat(ByteBits(b)) == b as nat
  {
    hide ToNat;
    ToNatOfByte(ByteBits(b));
  }

  lemma ByteConstants()
    ensures ToNat(ByteBits(0x00)) == 0x00 && ToNat(ByteBits(0x01)) == 0x01
    ensures ToNat(ByteBits(0x02)) == 0x02 && ToNat(ByteBits(0x08)) == 0x08
    ensures ToNat(ByteBits(0x10)) == 0x10 && ToNat(ByteBits(0x80)) == 0x80
    ensures ToNat(ByteBits(0x8C)) == 0x8C && ToNat(ByteBits(0xCC)) == 0xCC
  {
    hide ToNat;
    ToNatOfByte(ByteBits(0x00));
    ToNatOfByte(ByteBits(0x01));
    ToNatOfByte(ByteBits(0x02));
    ToNatOfByte(ByteBits(0x08));
    ToNatOfByte(ByteBits(0x10));
    ToNatOfByte(ByteBits(0x80));
    ToNatOfByte(ByteBits(0x8C));
    ToNatOfByte(ByteBits(0xCC));
  }

  lemma BitsOfCons(d: seq<byte>)
    requires d != []
    ensures BitsOf(d) == ByteBits(d[0]) + BitsOf(d[1..])
  {
    hide ByteBits;
    forall i | 8 <= i < 8 * |d|
      ensures BitsOf(d)[i] == BitsOf(d[1..])[i - 8]
    {
      assert (i - 8) / 8 == i / 8 - 1 && (i - 8) % 8 == i % 8;
    }
  }

  lemma ToNatCons(d: seq<byte>)
    requires d != []
    ensures ToNat(BitsOf(d)) == ToNat(ByteBits(d[0])) + 256 * ToNat(BitsOf(d[1..]))
  {
    hide ByteBits, BitsOf, ToNat;
    BitsOfCons(d);
    ToNatConcat(ByteBits(d[0]), BitsOf(d[1..]));
    assert Pow2(8) == 256;
  }

  lemma WordValue(d: seq<byte>)
    requires |d| == 8
    ensures ToNat(BitsOf(d)) == ToNat(ByteBits(d[0])) + 256 * (ToNat(ByteBits(d[1])) + 256 * (ToNat(ByteBits(d[2]))
            + 256 * (ToNat(ByteBits(d[3])) + 256 * (ToNat(ByteBits(d[4])) + 256 * (ToNat(ByteBits(d[5]))
            + 256 * (ToNat(ByteBits(d[6])) + 256 * ToNat(ByteBits(d[7]))))))))
  {
    hide ByteBits, BitsOf, ToNat;
    ToNatCons(d);
    ToNatCons(d[1..]);
    ToNatCons(d[2..]);
    ToNatCons(d[3..]);
    ToNatCons(d[4..]);
    ToNatCons(d[5..]);
    ToNatCons(d[6..]);
    ToNatCons(d[7..]);
    ToNatOfNothing(d[8..]);
    assert d[1..][1..] == d[2..] && d[2..][1..] == d[3..] && d[3..][1..] == d[4..];
    assert d[4..][1..] == d[5..] && d[5..][1..] == d[6..] && d[6..][1..] == d[7..] && d[7..][1..] == d[8..];
  }

  /** The number that eight bytes in memory are, low byte first. */
  function NumberOf(d: seq<byte>): nat
    requires |d| == 8
  {
    (d[0] as nat) + 256 * ((d[1] as nat) + 256 * ((d[2] as nat) + 256 * ((d[3] as nat) + 256 * ((d[4] as nat)
    + 256 * ((d[5] as nat) + 256 * ((d[6] as nat) + 256 * (d[7] as nat)))))))
  }

  lemma NumberInBytes(d: seq<byte>)
    requires |d| == 8
    ensures ToNat(BitsOf(d)) == NumberOf(d)
    ensures FromNat(NumberOf(d), 64) == BitsOf(d) && BytesOf(FromNat(NumberOf(d), 64)) == d
  {
    hide ByteBits, BitsOf, ToNat, FromNat, BytesOf;
    WordValue(d);
    ByteValue(d[0]);
    ByteValue(d[1]);
    ByteValue(d[2]);
    ByteValue(d[3]);
    ByteValue(d[4]);
    ByteValue(d[5]);
    ByteValue(d[6]);
    ByteValue(d[7]);
    Words.BitsRoundTrip(BitsOf(d));
    BytesBits(d);
  }

  lemma ToNatOfNothing(d: seq<byte>)
    requires d == []
    ensures ToNat(BitsOf(d)) == 0
  {
  }

  /** The constants of the byte view are the word constants of the sources. */
  lemma ConstantsAsWords()
    ensures ToNat(BitsOf(AEAD_IV)) == 0x00001000808C0001
    ensures ToNat(BitsOf(HASH_IV)) == 0x0000080100CC0002
    ensures ToNat(BitsOf(seq(7, i => 0) + DOMAIN_SEPARATOR)) == 0x8000000000000000
  {
    hide ByteBits, ToNat, BitsOf;
    ByteConstants();
    WordValue(AEAD_IV);
    WordValue(HASH_IV);
    WordValue(seq(7, i => 0) + DOMAIN_SEPARATOR);
  }

  // ------------------------------------------------------- the permutation

  /** ASCON_AEAD128_ROUNDS_PA and _PB. */
  const PA: nat := 12
  const PB: nat := 8

  /** permutation(a, rounds) on the union. */
  function Permutation(s: State, rounds: nat): State
    requires rounds == 8 || rounds == 12
  {
    ToBytes(A.RoundsFrom(ToWords(s), 12 - rounds))
  }

  function PermutationInverse(s: State, rounds: nat): State
    requires rounds == 8 || rounds == 12
  {
    ToBytes(I.RoundsBack(ToWords(s), 12 - rounds))
  }

  /** Ascon-p[8] and Ascon-p[12] are bijections of the 320-bit states. */
  lemma PermutationInverts(s: State, rounds: nat)
    requires rounds == 8 || rounds == 12
    ensures PermutationInverse(Permutation(s, rounds), rounds) == s
    ensures Permutation(PermutationInverse(s, rounds), rounds) == s
  {
    hide ToBytes, ToWords, A.RoundsFrom, I.RoundsBack;
    UnionRoundTrip(s, A.RoundsFrom(ToWords(s), 12 - rounds));
    UnionRoundTrip(s, I.RoundsBack(ToWords(s), 12 - rounds));
    I.RoundsInvert(ToWords(s), 12 - rounds);
  }

  function Ascon(): Perms {
    Perms(s => Permutation(s, PA), s => Permutation(s, PB))
  }
}
