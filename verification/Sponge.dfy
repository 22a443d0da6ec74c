/** The duplex sponge byte by byte: a position in the rate part of the state,
    stepped once per byte. It knows nothing of blocks, so it is indifferent to
    how its input was cut into pieces. */
module Sponge {

  type byte = bv8

  const STATE_SZ: nat := 40

  type State = s: seq<byte> | |s| == STATE_SZ witness seq(STATE_SZ, i => 0)

  /** A permutation of the state; every result below holds for any map. */
  type Perm = State -> State

  function XorByte(x: byte, y: byte): byte {
    x ^ y
  }

  lemma XorByteLaws(x: byte, y: byte)
    ensures XorByte(XorByte(x, y), y) == x
    ensures XorByte(x, XorByte(x, y)) == y
  {
  }

  function XorAt(s: seq<byte>, off: nat, d: seq<byte>): (r: seq<byte>)
    requires off + |d| <= |s|
    ensures |r| == |s|
    ensures forall i :: 0 <= i < |s| ==>
              r[i] == if off <= i < off + |d| then XorByte(s[i], d[i - off]) else s[i]
  {
    seq(|s|, i requires 0 <= i < |s| => if off <= i < off + |d| then XorByte(s[i], d[i - off]) else s[i])
  }

  function PutAt(s: seq<byte>, off: nat, d: seq<byte>): (r: seq<byte>)
    requires off + |d| <= |s|
    ensures |r| == |s|
    ensures forall i :: 0 <= i < |s| ==> r[i] == if off <= i < off + |d| then d[i - off] else s[i]
  {
    seq(|s|, i requires 0 <= i < |s| => if off <= i < off + |d| then d[i - off] else s[i])
  }

  lemma NothingPut(s: seq<byte>, at: nat)
    requires at <= |s|
    ensures PutAt(s, at, []) == s
  {
  }

  /** Which byte stays in the state: the one produced or the one consumed. */
  datatype Dir = Enc | Dec

  datatype Cursor = Cursor(s: State, pos: nat)

  datatype Fed = Fed(c: Cursor, out: seq<byte>)

  function Step(p: Perm, rate: nat, dir: Dir, c: Cursor, b: byte): (r: Cursor)
    requires c.pos < rate <= STATE_SZ
    ensures r.pos < rate
  {
    var s := c.s[c.pos := if dir.Enc? then XorByte(c.s[c.pos], b) else b];
    if c.pos + 1 == rate then Cursor(p(s), 0) else Cursor(s, c.pos + 1)
  }

  function Feed(p: Perm, rate: nat, dir: Dir, c: Cursor, d: seq<byte>): (r: Fed)
    requires c.pos < rate <= STATE_SZ
    ensures r.c.pos < rate && |r.out| == |d|
  {
    if d == [] then Fed(c, [])
    else
      var n := |d| - 1;
      var f := Feed(p, rate, dir, c, d[..n]);
      Fed(Step(p, rate, dir, f.c, d[n]), f.out + [XorByte(f.c.s[f.c.pos], d[n])])
  }

  /** Feeding in two pieces is feeding at once. */
  lemma {:induction false} FeedAppend(p: Perm, rate: nat, dir: Dir, c: Cursor, a: seq<byte>, b: seq<byte>)
    requires c.pos < rate <= STATE_SZ
    ensures var f := Feed(p, rate, dir, c, a);
            var g := Feed(p, rate, dir, f.c, b);
            Feed(p, rate, dir, c, a + b) == Fed(g.c, f.out + g.out)
  {
    hide Step, XorByte;
    if b == [] {
      assert a + b == a;
    } else {
      var n := |b| - 1;
      FeedAppend(p, rate, dir, c, a, b[..n]);
      InitOfAppend(a, b);
      var f := Feed(p, rate, dir, c, a);
      var g := Feed(p, rate, dir, f.c, b[..n]);
      AppendAssociates(f.out, g.out, [XorByte(g.c.s[g.c.pos], b[n])]);
    }
  }

  lemma InitOfAppend(a: seq<byte>, b: seq<byte>)
    requires b != []
    ensures var n := |a + b| - 1;
            (a + b)[..n] == a + b[..|b| - 1] && (a + b)[n] == b[|b| - 1]
  {
  }

  lemma AppendAssociates(a: seq<byte>, b: seq<byte>, c: seq<byte>)
    ensures (a + b) + c == a + (b + c)
  {
  }

  /** What feeding does to the state up to the end of the current block. */
  function Written(dir: Dir, s: State, pos: nat, d: seq<byte>): State
    requires pos + |d| <= STATE_SZ
  {
    if dir.Enc? then XorAt(s, pos, d) else PutAt(s, pos, d)
  }

  lemma WrittenSnoc(dir: Dir, s: State, pos: nat, d: seq<byte>)
    requires d != [] && pos + |d| <= STATE_SZ
    ensures var n := |d| - 1;
            var t := Written(dir, s, pos, d[..n]);
            && t[pos + n] == s[pos + n]
            && t[pos + n := if dir.Enc? then XorByte(s[pos + n], d[n]) else d[n]] == Written(dir, s, pos, d)
  {
    hide XorByte;
  }

  lemma XorAtSnoc(s: State, pos: nat, d: seq<byte>)
    requires d != [] && pos + |d| <= STATE_SZ
    ensures var n := |d| - 1;
            XorAt(s, pos, d)[pos..pos + |d|]
            == XorAt(s, pos, d[..n])[pos..pos + n] + [XorByte(s[pos + n], d[n])]
  {
    hide XorByte;
  }

  lemma {:induction false} FeedWithinBlock(p: Perm, rate: nat, dir: Dir, c: Cursor, d: seq<byte>)
    requires c.pos < rate <= STATE_SZ && c.pos + |d| <= rate
    ensures var f := Feed(p, rate, dir, c, d);
            var s := Written(dir, c.s, c.pos, d);
            && f.out == XorAt(c.s, c.pos, d)[c.pos..c.pos + |d|]
            && f.c == if c.pos + |d| == rate then Cursor(p(s), 0) else Cursor(s, c.pos + |d|)
  {
    if d == [] {
      assert Written(dir, c.s, c.pos, d) == c.s;
    } else {
      hide XorByte, Written;
      FeedWithinBlock(p, rate, dir, c, d[..|d| - 1]);
      WrittenSnoc(dir, c.s, c.pos, d);
      XorAtSnoc(c.s, c.pos, d);
    }
  }

  /** One more piece, up to the end of the current block. */
  lemma FeedPiece(p: Perm, rate: nat, dir: Dir, c: Cursor, d: seq<byte>, i: nat, n: nat)
    requires c.pos < rate <= STATE_SZ && i + n <= |d|
    requires Feed(p, rate, dir, c, d[..i]).c.pos + n <= rate
    ensures var f := Feed(p, rate, dir, c, d[..i]);
            var s := Written(dir, f.c.s, f.c.pos, d[i..i + n]);
            Feed(p, rate, dir, c, d[..i + n])
            == Fed(if f.c.pos + n == rate then Cursor(p(s), 0) else Cursor(s, f.c.pos + n),
                   f.out + XorAt(f.c.s, f.c.pos, d[i..i + n])[f.c.pos..f.c.pos + n])
  {
    hide XorByte, Step, Feed, Written;
    FeedWithinBlock(p, rate, dir, Feed(p, rate, dir, c, d[..i]).c, d[i..i + n]);
    FeedAppend(p, rate, dir, c, d[..i], d[i..i + n]);
    assert d[..i] + d[i..i + n] == d[..i + n];
  }

  lemma PutAppend(o: seq<byte>, off: nat, a: seq<byte>, b: seq<byte>)
    requires off + |a| + |b| <= |o|
    ensures PutAt(PutAt(o, off, a), off + |a|, b) == PutAt(o, off, a + b)
  {
  }

  /** The sponge stands after i bytes of d, whose output is in o at off. */
  ghost predicate Progress(p: Perm, rate: nat, dir: Dir, start: Cursor, d: seq<byte>, i: nat,
                           now: Cursor, before: seq<byte>, off: nat, out: seq<byte>)
  {
    && start.pos < rate <= STATE_SZ && i <= |d| && off + |d| <= |before|
    && Feed(p, rate, dir, start, d[..i]).c == now
    && out == PutAt(before, off, Feed(p, rate, dir, start, d[..i]).out)
  }

  lemma ProgressStarts(p: Perm, rate: nat, dir: Dir, start: Cursor, d: seq<byte>, off: nat, out: seq<byte>)
    requires start.pos < rate <= STATE_SZ && off + |d| <= |out|
    ensures Progress(p, rate, dir, start, d, 0, start, out, off, out)
  {
    assert d[..0] == [];
    assert PutAt(out, off, []) == out;
  }

  /** A piece within the block moves it on by n bytes. */
  lemma ProgressPiece(p: Perm, rate: nat, dir: Dir, start: Cursor, d: seq<byte>, i: nat, n: nat,
                      now: Cursor, before: seq<byte>, off: nat, out: seq<byte>)
    requires Progress(p, rate, dir, start, d, i, now, before, off, out)
    requires i + n <= |d| && now.pos + n <= rate
    ensures var s := Written(dir, now.s, now.pos, d[i..i + n]);
            Progress(p, rate, dir, start, d, i + n,
                     if now.pos + n == rate then Cursor(p(s), 0) else Cursor(s, now.pos + n), before, off,
                     PutAt(out, off + i, XorAt(now.s, now.pos, d[i..i + n])[now.pos..now.pos + n]))
  {
    hide XorByte, XorAt, PutAt, Written, Feed;
    FeedPiece(p, rate, dir, start, d, i, n);
    PutAppend(before, off, Feed(p, rate, dir, start, d[..i]).out,
              XorAt(now.s, now.pos, d[i..i + n])[now.pos..now.pos + n]);
  }

  lemma ProgressEnds(p: Perm, rate: nat, dir: Dir, start: Cursor, d: seq<byte>,
                     now: Cursor, before: seq<byte>, off: nat, out: seq<byte>)
    requires Progress(p, rate, dir, start, d, |d|, now, before, off, out)
    ensures Feed(p, rate, dir, start, d).c == now
    ensures out == PutAt(before, off, Feed(p, rate, dir, start, d).out)
  {
    assert d[..|d|] == d;
  }

  /** Decrypting what was encrypted from the same position, and the converse:
      both directions leave the sponge in the same place. */
  lemma {:induction false} FeedRoundTrip(p: Perm, rate: nat, dir: Dir, c: Cursor, d: seq<byte>)
    requires c.pos < rate <= STATE_SZ
    ensures var f := Feed(p, rate, dir, c, d);
            Feed(p, rate, Back(dir), c, f.out) == Fed(f.c, d)
  {
    if d == [] {
      FeedNothing(p, rate, dir, c);
      FeedNothing(p, rate, Back(dir), c);
    } else {
      hide XorByte, Step, Feed, Back;
      var n := |d| - 1;
      var init, last := d[..n], d[n];
      assert d == init + [last];
      FeedRoundTrip(p, rate, dir, c, init);
      var f := Feed(p, rate, dir, c, init);
      FeedSnoc(p, rate, dir, c, init, last);
      FeedSnoc(p, rate, Back(dir), c, f.out, XorByte(f.c.s[f.c.pos], last));
      StepBack(p, rate, dir, f.c, last);
    }
  }

  function Back(dir: Dir): Dir {
    if dir.Enc? then Dec else Enc
  }

  lemma StepBack(p: Perm, rate: nat, dir: Dir, c: Cursor, b: byte)
    requires c.pos < rate <= STATE_SZ
    ensures var x := XorByte(c.s[c.pos], b);
            Step(p, rate, Back(dir), c, x) == Step(p, rate, dir, c, b) && XorByte(c.s[c.pos], x) == b
  {
    hide XorByte;
    XorByteLaws(c.s[c.pos], b);
  }

  lemma FeedNothing(p: Perm, rate: nat, dir: Dir, c: Cursor)
    requires c.pos < rate <= STATE_SZ
    ensures Feed(p, rate, dir, c, []) == Fed(c, [])
  {
  }

  lemma FeedSnoc(p: Perm, rate: nat, dir: Dir, c: Cursor, d: seq<byte>, b: byte)
    requires c.pos < rate <= STATE_SZ
    ensures var f := Feed(p, rate, dir, c, d);
            Feed(p, rate, dir, c, d + [b])
            == Fed(Step(p, rate, dir, f.c, b), f.out + [XorByte(f.c.s[f.c.pos], b)])
  {
    hide XorByte, Step;
    assert (d + [b])[..|d + [b]| - 1] == d;
  }

  function Flatten(chunks: seq<seq<byte>>): seq<byte> {
    if chunks == [] then [] else chunks[0] + Flatten(chunks[1..])
  }
}
