/** Ascon-Hash256 as a stream: the context is a cursor of the byte-wise sponge. */
module HashSpec {
  import opened Sponge
  import opened OneShot

  function Absorb(pa: Perm, c: Cursor, d: seq<byte>): (r: Cursor)
    requires c.pos < HASH_RATE
    ensures r.pos < HASH_RATE
  {
    Feed(pa, HASH_RATE, Enc, c, d).c
  }

  function Digest(pa: Perm, c: Cursor): (r: seq<byte>)
    requires c.pos < HASH_RATE
    ensures |r| == 32
  {
    Squeeze(pa, Padded(c), 4)
  }

  function Fresh(pa: Perm): Cursor {
    Cursor(HashStart(pa), 0)
  }

  function AbsorbAll(pa: Perm, c: Cursor, chunks: seq<seq<byte>>): (r: Cursor)
    requires c.pos < HASH_RATE
    ensures r.pos < HASH_RATE
    decreases |chunks|
  {
    if chunks == [] then c else AbsorbAll(pa, Absorb(pa, c, chunks[0]), chunks[1..])
  }

  lemma AbsorbNothing(pa: Perm, c: Cursor)
    requires c.pos < HASH_RATE
    ensures Absorb(pa, c, []) == c
  {
  }

  lemma AbsorbAppend(pa: Perm, c: Cursor, a: seq<byte>, b: seq<byte>)
    requires c.pos < HASH_RATE
    ensures Absorb(pa, Absorb(pa, c, a), b) == Absorb(pa, c, a + b)
  {
    hide Feed;
    FeedAppend(pa, HASH_RATE, Enc, c, a, b);
  }

  /** One more piece, up to the end of the current block. */
  lemma AbsorbPiece(pa: Perm, c: Cursor, d: seq<byte>, i: nat, n: nat)
    requires c.pos < HASH_RATE && i + n <= |d|
    requires Absorb(pa, c, d[..i]).pos + n <= HASH_RATE
    ensures var f := Absorb(pa, c, d[..i]);
            var s := XorAt(f.s, f.pos, d[i..i + n]);
            Absorb(pa, c, d[..i + n])
            == if f.pos + n == HASH_RATE then Cursor(pa(s), 0) else Cursor(s, f.pos + n)
  {
    hide Feed, XorAt;
    FeedPiece(pa, HASH_RATE, Enc, c, d, i, n);
  }

  lemma {:induction false} AbsorbAllFlattens(pa: Perm, c: Cursor, chunks: seq<seq<byte>>)
    requires c.pos < HASH_RATE
    ensures AbsorbAll(pa, c, chunks) == Absorb(pa, c, Flatten(chunks))
    decreases |chunks|
  {
    if chunks == [] {
      FeedNothing(pa, HASH_RATE, Enc, c);
    } else {
      hide Absorb;
      AbsorbAllFlattens(pa, Absorb(pa, c, chunks[0]), chunks[1..]);
      AbsorbAppend(pa, c, chunks[0], Flatten(chunks[1..]));
    }
  }

  /** The digest does not depend on how the message was cut. */
  lemma StreamedDigestIsHash(pa: Perm, chunks: seq<seq<byte>>)
    ensures Digest(pa, AbsorbAll(pa, Fresh(pa), chunks)) == Hash(pa, Flatten(chunks))
  {
    hide Feed, Blocks, Squeeze, AbsorbAll;
    AbsorbAllFlattens(pa, Fresh(pa), chunks);
    FeedIsBlocks(pa, HASH_RATE, HashStart(pa), Flatten(chunks));
  }

  lemma DigestOfOne(pa: Perm, a: seq<byte>)
    ensures Digest(pa, Absorb(pa, Fresh(pa), a)) == Hash(pa, a)
  {
    hide Absorb, Digest, Hash;
    StreamedDigestIsHash(pa, [a]);
    AbsorbAllFlattens(pa, Fresh(pa), [a]);
    assert [a][1..] == [] && Flatten([]) == [] && a + [] == a;
  }

  lemma DigestOfTwo(pa: Perm, a: seq<byte>, b: seq<byte>)
    ensures Digest(pa, Absorb(pa, Absorb(pa, Fresh(pa), a), b)) == Hash(pa, a + b)
  {
    hide Absorb, Digest, Hash;
    AbsorbAppend(pa, Fresh(pa), a, b);
    DigestOfOne(pa, a + b);
  }
}
