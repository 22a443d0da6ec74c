/** Ascon-p on five 64-bit words: constant addition, substitution and linear
    diffusion (sections 3.2 to 3.4 of NIST SP 800-232). */
module AsconP {
  import opened Words

  const MAX_ROUNDS: nat := 12

  const ROUND_CONSTANTS: seq<nat> :=
    [0xf0, 0xe1, 0xd2, 0xc3, 0xb4, 0xa5, 0x96, 0x87, 0x78, 0x69, 0x5a, 0x4b]

  datatype State = State(x0: Word, x1: Word, x2: Word, x3: Word, x4: Word)

  function Sigma(x: Word, a: nat, b: nat): Word
    requires a <= 64 && b <= 64
  {
    Xor(Xor(x, Rotr(x, a)), Rotr(x, b))
  }

  function AddConstant(s: State, c: Word): State {
    s.(x2 := Xor(s.x2, c))
  }

  function ChiAt(a: Word, b: Word, c: Word): Word {
    Xor(a, And(Not(b), c))
  }

  function Chi(s: State): State {
    State(ChiAt(s.x0, s.x1, s.x2), ChiAt(s.x1, s.x2, s.x3), ChiAt(s.x2, s.x3, s.x4),
          ChiAt(s.x3, s.x4, s.x0), ChiAt(s.x4, s.x0, s.x1))
  }

  function MixBefore(s: State): State {
    State(Xor(s.x0, s.x4), s.x1, Xor(s.x2, s.x1), s.x3, Xor(s.x4, s.x3))
  }

  function MixAfter(t: State): State {
    State(Xor(t.x0, t.x4), Xor(t.x1, t.x0), Not(t.x2), Xor(t.x3, t.x2), t.x4)
  }

  function Substitute(s: State): State {
    MixAfter(Chi(MixBefore(s)))
  }

  function Diffuse(t: State): State {
    State(Sigma(t.x0, 19, 28), Sigma(t.x1, 61, 39), Sigma(t.x2, 1, 6),
          Sigma(t.x3, 10, 17), Sigma(t.x4, 7, 41))
  }

  function Round(s: State, c: Word): State {
    Diffuse(Substitute(AddConstant(s, c)))
  }

  /** The rounds from index i to the last one. */
  function RoundsFrom(s: State, i: nat): State
    requires i <= MAX_ROUNDS
    decreases MAX_ROUNDS - i
  {
    if i == MAX_ROUNDS then s else RoundsFrom(Round(s, FromNat(ROUND_CONSTANTS[i], 64)), i + 1)
  }

  // ------------------------------------------- the S-box of the standard

  const SBOX: seq<nat> :=
    [0x04, 0x0b, 0x1f, 0x14, 0x1a, 0x15, 0x09, 0x02, 0x1b, 0x05, 0x08, 0x12, 0x1d, 0x03, 0x06, 0x1c,
     0x1e, 0x13, 0x07, 0x0e, 0x00, 0x0d, 0x11, 0x18, 0x10, 0x0c, 0x01, 0x19, 0x16, 0x0a, 0x0f, 0x17]

  function Bit(b: bool): nat {
    if b then 1 else 0
  }

  /** The five bits at position i, the bit of x0 most significant. */
  function Column(s: State, i: nat): (r: nat)
    requires i < 64
    ensures r < 32
  {
    16 * Bit(s.x0[i]) + 8 * Bit(s.x1[i]) + 4 * Bit(s.x2[i]) + 2 * Bit(s.x3[i]) + Bit(s.x4[i])
  }

  /** The bit-sliced substitution applies the S-box table to all 64 columns. */
  lemma SubstituteIsTheSbox(s: State, i: nat)
    requires i < 64
    ensures Column(Substitute(s), i) == SBOX[Column(s, i)]
  {
  }
}
