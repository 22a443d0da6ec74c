/** Bytes as numbers, for the tools that do arithmetic on them. */
module Octets {
  type octet = n: nat | n < 256

  /** x -bxor 1. */
  function FlipLowBit(x: octet): octet {
    if x % 2 == 0 then x + 1 else x - 1
  }

  /** On eight bits it is XOR with one. */
  lemma FlipLowBitIsXor(b: bv8)
    ensures FlipLowBit(b as nat) == (b ^ 1) as nat
  {
  }

  /** The last binary digit is inverted, the others stay. */
  lemma FlipLowBitDigits(x: octet)
    ensures FlipLowBit(x) == 2 * (x / 2) + (1 - x % 2)
  {
  }

  function Big16(n: nat): (r: seq<octet>)
    requires n < 0x1_0000
    ensures |r| == 2
  {
    [n / 256, n % 256]
  }

  function FromBig16(b: seq<octet>): nat
    requires |b| == 2
  {
    256 * (b[0] as int) + b[1] as int
  }

  function Little32(n: nat): (r: seq<octet>)
    requires n < 0x1_0000_0000
    ensures |r| == 4
  {
    [n % 256, n / 256 % 256, n / 0x1_0000 % 256, n / 0x100_0000]
  }

  function FromLittle32(b: seq<octet>): nat
    requires |b| == 4
  {
    b[0] as int + 256 * (b[1] as int) + 0x1_0000 * (b[2] as int) + 0x100_0000 * (b[3] as int)
  }

  lemma Big16Inverts(n: nat)
    requires n < 0x1_0000
    ensures FromBig16(Big16(n)) == n
  {
  }

  lemma Little32Inverts(n: nat)
    requires n < 0x1_0000_0000
    ensures FromLittle32(Little32(n)) == n
  {
    var a := n / 256;
    var b := a / 256;
    assert n / 0x1_0000 == b && n / 0x100_0000 == b / 256;
    assert n == 256 * a + n % 256 && a == 256 * b + a % 256 && b == 256 * (b / 256) + b % 256;
  }
}
