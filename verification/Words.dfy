/** Machine words as bit strings, least significant bit first, with the C
    operators the Ascon sources apply to word64 and word32. */
module Words {

  type Bits = seq<bool>

  type Word = w: Bits | |w| == 64 witness Zeros(64)

  type Half = w: Bits | |w| == 32 witness Zeros(32)

  function Zeros(n: nat): (r: Bits)
    ensures |r| == n && forall i :: 0 <= i < n ==> !r[i]
  {
    seq(n, i => false)
  }

  function Xor(x: Bits, y: Bits): (r: Bits)
    requires |x| == |y|
    ensures |r| == |x| && forall i :: 0 <= i < |x| ==> r[i] == (x[i] != y[i])
  {
    seq(|x|, i requires 0 <= i < |x| => x[i] != y[i])
  }

  function And(x: Bits, y: Bits): (r: Bits)
    requires |x| == |y|
    ensures |r| == |x| && forall i :: 0 <= i < |x| ==> r[i] == (x[i] && y[i])
  {
    seq(|x|, i requires 0 <= i < |x| => x[i] && y[i])
  }

  function Or(x: Bits, y: Bits): (r: Bits)
    requires |x| == |y|
    ensures |r| == |x| && forall i :: 0 <= i < |x| ==> r[i] == (x[i] || y[i])
  {
    seq(|x|, i requires 0 <= i < |x| => x[i] || y[i])
  }

  function Not(x: Bits): (r: Bits)
    ensures |r| == |x| && forall i :: 0 <= i < |x| ==> r[i] == !x[i]
  {
    seq(|x|, i requires 0 <= i < |x| => !x[i])
  }

  function Shr(x: Bits, n: nat): (r: Bits)
    requires n <= |x|
    ensures |r| == |x|
  {
    x[n..] + Zeros(n)
  }

  function Shl(x: Bits, n: nat): (r: Bits)
    requires n <= |x|
    ensures |r| == |x|
  {
    Zeros(n) + x[..|x| - n]
  }

  /** rotrFixed64 and ascon_rotr64: two shifts joined by OR. */
  function Rotr(x: Word, n: nat): (r: Word)
    requires n <= 64
    ensures r == x[n..] + x[..n]
  {
    Or(Shr(x, n), Shl(x, 64 - n))
  }

  /** The low `width` bits of n. */
  function FromNat(n: nat, width: nat): (r: Bits)
    ensures |r| == width
  {
    if width == 0 then [] else [n % 2 == 1] + FromNat(n / 2, width - 1)
  }

  function Pow2(n: nat): (r: nat)
    ensures r > 0
  {
    if n == 0 then 1 else 2 * Pow2(n - 1)
  }

  function ToNat(x: Bits): nat {
    if x == [] then 0 else (if x[0] then 1 else 0) + 2 * ToNat(x[1..])
  }

  lemma {:induction false} NatRoundTrip(n: nat, width: nat)
    requires n < Pow2(width)
    ensures ToNat(FromNat(n, width)) == n
  {
    if width > 0 {
      NatRoundTrip(n / 2, width - 1);
      assert FromNat(n, width)[1..] == FromNat(n / 2, width - 1);
    }
  }

  lemma {:induction false} BitsRoundTrip(x: Bits)
    ensures FromNat(ToNat(x), |x|) == x
  {
    if x != [] {
      BitsRoundTrip(x[1..]);
      assert x == [x[0]] + x[1..];
    }
  }

  lemma {:induction false} ToNatConcat(x: Bits, y: Bits)
    ensures ToNat(x + y) == ToNat(x) + Pow2(|x|) * ToNat(y)
  {
    if x == [] {
      assert x + y == y;
    } else {
      ToNatConcat(x[1..], y);
      assert (x + y)[1..] == x[1..] + y;
      assert 2 * (Pow2(|x| - 1) * ToNat(y)) == Pow2(|x|) * ToNat(y);
    }
  }

  lemma {:induction false} FromZero(width: nat)
    ensures FromNat(0, width) == Zeros(width)
  {
    if width > 0 { FromZero(width - 1); }
  }

  /** Widening an unsigned value pads it with zero bits. */
  lemma {:induction false} FromNatWidens(n: nat, width: nat, extra: nat)
    requires n < Pow2(width)
    ensures FromNat(n, width + extra) == FromNat(n, width) + Zeros(extra)
  {
    if width == 0 {
      FromZero(extra);
      assert FromNat(n, 0) + Zeros(extra) == Zeros(extra);
    } else {
      FromNatWidens(n / 2, width - 1, extra);
    }
  }
}
