/** The 64-bit and the 32-bit coding run on the same forty bytes compute the
    same permutation: the claim of verify_ascon_32bit.c, for every state. */
module AsconUnion {
  import opened Words
  import opened Sponge
  import opened AsconMode
  import A = AsconP
  import C = AsconCodings

  /** permutation over s64. */
  method Permute64(buf: array<byte>, rounds: nat)
    requires buf.Length == STATE_SZ && rounds in {8, 12}
    modifies buf
    ensures buf[..] == Permutation(old(buf[..]), rounds)
  {
    hide ToWords, ToBytes, A.RoundsFrom;
    var w := ToWords(buf[..]);
    var s := new Words.Word[5](i requires 0 <= i < 5 => WordOf(w, i));
    C.PermutationWolf(s, rounds);
    Store(buf, A.State(s[0], s[1], s[2], s[3], s[4]));
  }

  /** permutation over s32: word i is the halves 2 * i and 2 * i + 1. */
  method Permute32(buf: array<byte>, rounds: nat)
    requires buf.Length == STATE_SZ && rounds in {8, 12}
    modifies buf
    ensures buf[..] == Permutation(old(buf[..]), rounds)
  {
    hide ToWords, ToBytes, A.RoundsFrom;
    var w := ToWords(buf[..]);
    var s := new Half[10](i requires 0 <= i < 10 => HalfAt(w, i));
    assert C.Joined(C.LanesOf(s)) == w;
    C.Permutation32(s, rounds);
    Store(buf, A.State(C.Join(s[0], s[1]), C.Join(s[2], s[3]), C.Join(s[4], s[5]), C.Join(s[6], s[7]), C.Join(s[8], s[9])));
  }

  function HalfAt(w: A.State, i: nat): Half
    requires i < 10
  {
    if i % 2 == 0 then WordOf(w, i / 2)[..32] else WordOf(w, i / 2)[32..]
  }

  method Store(buf: array<byte>, w: A.State)
    requires buf.Length == STATE_SZ
    modifies buf
    ensures buf[..] == ToBytes(w)
  {
    hide ToBytes;
    var t := ToBytes(w);
    forall i | 0 <= i < STATE_SZ { buf[i] := t[i]; }
    assert buf[..] == t;
  }
}
