/** Corrupt-Tags of dtls_negative_proxy.ps1: walks the records of a datagram
    in place and flips one bit in the last byte of each. */
module CorruptTags {
  import opened Octets

  function Length(s: seq<octet>, off: nat): nat
    requires off + 5 <= |s|
  {
    256 * (s[off + 3] as int) + s[off + 4] as int
  }

  /** The last bytes of the complete records of at least sixteen bytes of
      payload, in the chain of records that starts at off. */
  function TagEnds(s: seq<octet>, off: nat): set<nat>
    decreases |s| - off
  {
    if off + 5 > |s| || off + 5 + Length(s, off) > |s| then {}
    else
      var end := off + 5 + Length(s, off);
      (if Length(s, off) >= 16 then {end - 1} else {}) + TagEnds(s, end)
  }

  function Flipped(s: seq<octet>, at: set<nat>): (r: seq<octet>)
    ensures |r| == |s|
  {
    seq(|s|, i requires 0 <= i < |s| => if i in at then FlipLowBit(s[i]) else s[i])
  }

  function Corrupted(s: seq<octet>): seq<octet> {
    Flipped(s, TagEnds(s, 0))
  }

  method Corrupt(arr: array<octet>)
    modifies arr
    ensures arr[..] == Corrupted(old(arr[..]))
  {
    hide TagEnds, FlipLowBit, Length;
    ghost var s, ends := arr[..], TagEnds(arr[..], 0);
    var off := 0;
    while off + 5 <= arr.Length
      invariant 0 <= off <= arr.Length
      invariant forall i :: off <= i < arr.Length ==> arr[i] == s[i]
      invariant forall i :: 0 <= i < off ==> arr[i] == if i in ends then FlipLowBit(s[i]) else s[i]
      invariant forall i :: off <= i < arr.Length ==> (i in ends <==> i in TagEnds(s, off))
      decreases arr.Length - off
    {
      TagEndsHere(s, off);
      LengthIs(s, off);
      var len := 256 * (arr[off + 3] as int) + arr[off + 4] as int;
      var recEnd := off + 5 + len;
      if recEnd > arr.Length { break; }
      if len >= 16 { arr[recEnd - 1] := FlipLowBit(arr[recEnd - 1]); }
      off := recEnd;
    }
    TagEndsShort(s, off);
    assert arr[..] == Corrupted(s);
  }

  lemma LengthIs(s: seq<octet>, off: nat)
    requires off + 5 <= |s|
    ensures Length(s, off) == 256 * (s[off + 3] as int) + s[off + 4] as int
  {
  }

  /** One record of the chain. */
  lemma TagEndsHere(s: seq<octet>, off: nat)
    requires off + 5 <= |s|
    ensures var end := off + 5 + Length(s, off);
            if end > |s| then TagEnds(s, off) == {}
            else TagEnds(s, off) == (if Length(s, off) >= 16 then {end - 1} else {}) + TagEnds(s, end)
                 && forall i :: i in TagEnds(s, end) ==> end + 20 <= i < |s|
  {
    var end := off + 5 + Length(s, off);
    if end <= |s| { TagEndsBeyond(s, end); }
  }

  lemma TagEndsShort(s: seq<octet>, off: nat)
    ensures off + 5 > |s| ==> TagEnds(s, off) == {}
  {
  }

  /** Every flipped byte lies in the payload of a record from off on. */
  lemma {:induction false} TagEndsBeyond(s: seq<octet>, off: nat)
    ensures forall i :: i in TagEnds(s, off) ==> off + 20 <= i < |s|
    decreases |s| - off
  {
    if off + 5 <= |s| && off + 5 + Length(s, off) <= |s| {
      TagEndsBeyond(s, off + 5 + Length(s, off));
    }
  }

  /** A datagram that differs only in such bytes has the same records. */
  lemma {:induction false} SameChain(s: seq<octet>, t: seq<octet>, off: nat)
    requires |s| == |t| && forall i :: off <= i < |s| && i !in TagEnds(s, off) ==> t[i] == s[i]
    ensures TagEnds(t, off) == TagEnds(s, off)
    decreases |s| - off
  {
    if off + 5 <= |s| {
      TagEndsBeyond(s, off);
      assert Length(t, off) == Length(s, off);
      if off + 5 + Length(s, off) <= |s| {
        TagEndsHere(s, off);
        SameChain(s, t, off + 5 + Length(s, off));
      }
    }
  }

  /** Corrupting twice restores the datagram. */
  lemma CorruptedTwice(s: seq<octet>)
    ensures Corrupted(Corrupted(s)) == s
  {
    hide TagEnds, FlipLowBit;
    var t := Corrupted(s);
    SameChain(s, t, 0);
    forall i | 0 <= i < |s|
      ensures Corrupted(t)[i] == s[i]
    {
      FlipTwice(s[i]);
    }
  }

  lemma FlipTwice(x: octet)
    ensures FlipLowBit(FlipLowBit(x)) == x
  {
  }

  /** Every complete record of sixteen or more bytes is hit, in one byte. */
  lemma CorruptedDiffers(s: seq<octet>, i: nat)
    requires i < |s|
    ensures Corrupted(s)[i] != s[i] <==> i in TagEnds(s, 0)
  {
    hide TagEnds;
  }

  // ------------------------------------------------------------ by records

  /** A record: three bytes of type and version, and a payload. */
  datatype Parts = Parts(kind: seq<octet>, body: seq<octet>)

  type Record = r: Parts | |r.kind| == 3 && |r.body| < 0x1_0000 witness Parts([0, 0, 0], [])

  /** Its bytes: the length follows in two bytes, high byte first. */
  function Wire(r: Record): seq<octet>
  {
    r.kind + [|r.body| / 256, |r.body| % 256] + r.body
  }

  function WireAll(rs: seq<Record>): seq<octet>
  {
    if rs == [] then [] else Wire(rs[0]) + WireAll(rs[1..])
  }

  /** The record with the last bit of its payload inverted, if it can hold a
      tag of sixteen bytes. */
  function Damaged(r: Record): (d: Record)
    ensures |d.body| == |r.body| && d.kind == r.kind
  {
    var n := |r.body|;
    if n < 16 then r
    else
      var last := r.body[n - 1];
      r.(body := r.body[n - 1 := 2 * (last / 2) + (1 - last % 2)])
  }

  function DamagedAll(rs: seq<Record>): (ds: seq<Record>)
    ensures |ds| == |rs|
  {
    if rs == [] then [] else [Damaged(rs[0])] + DamagedAll(rs[1..])
  }

  /** No complete record begins here. */
  predicate Incomplete(tail: seq<octet>) {
    |tail| < 5 || |tail| < 5 + 256 * (tail[3] as nat) + tail[4] as nat
  }

  lemma {:induction false} EndsShift(a: seq<octet>, s: seq<octet>, off: nat)
    ensures TagEnds(a + s, |a| + off) == set i | i in TagEnds(s, off) :: |a| + i
    decreases |s| - off
  {
    var t := a + s;
    if off + 5 <= |s| {
      assert t[|a| + off + 3] == s[off + 3] && t[|a| + off + 4] == s[off + 4];
      var end := off + 5 + Length(s, off);
      if end <= |s| {
        EndsShift(a, s, end);
      }
    }
  }

  lemma EndsOfRecord(r: Record, rest: seq<octet>)
    ensures TagEnds(Wire(r) + rest, 0)
         == (if |r.body| >= 16 then {4 + |r.body|} else {}) + set i | i in TagEnds(rest, 0) :: |Wire(r)| + i
  {
    var w, s, n := Wire(r), Wire(r) + rest, |r.body|;
    assert s[3] == n / 256 && s[4] == n % 256;
    assert Length(s, 0) == n;
    EndsShift(w, rest, 0);
    TagEndsHere(s, 0);
  }

  lemma DamagedWire(r: Record)
    ensures Wire(Damaged(r)) == Flipped(Wire(r), if |r.body| >= 16 then {4 + |r.body|} else {})
  {
    if |r.body| >= 16 {
      FlipLowBitDigits(r.body[|r.body| - 1]);
    }
    hide FlipLowBit;
  }

  lemma ShiftedHas(n: nat, x: set<nat>, y: set<nat>, i: nat)
    requires forall j :: j in x ==> j < n
    ensures i in x + (set j | j in y :: n + j) <==> if i < n then i in x else i - n in y
  {
    if i >= n && i - n in y {
      assert i == n + (i - n);
    }
  }

  lemma FlippedAppend(a: seq<octet>, b: seq<octet>, x: set<nat>, y: set<nat>, z: set<nat>)
    requires forall i: nat :: i in z <==> if i < |a| then i in x else i - |a| in y
    ensures Flipped(a + b, z) == Flipped(a, x) + Flipped(b, y)
  {
    hide FlipLowBit;
  }

  lemma FlippedShift(a: seq<octet>, b: seq<octet>, x: set<nat>, y: set<nat>)
    requires forall i :: i in x ==> i < |a|
    ensures Flipped(a + b, x + set i | i in y :: |a| + i) == Flipped(a, x) + Flipped(b, y)
  {
    hide Flipped;
    var z := x + set i | i in y :: |a| + i;
    forall i: nat
      ensures i in z <==> if i < |a| then i in x else i - |a| in y
    {
      ShiftedHas(|a|, x, y, i);
    }
    FlippedAppend(a, b, x, y, z);
  }

  lemma CorruptedRecord(r: Record, rest: seq<octet>)
    ensures Corrupted(Wire(r) + rest) == Wire(Damaged(r)) + Corrupted(rest)
  {
    assert |Wire(r)| == |r.body| + 5;
    hide TagEnds, Flipped, Wire, Damaged;
    EndsOfRecord(r, rest);
    DamagedWire(r);
    FlippedShift(Wire(r), rest, if |r.body| >= 16 then {4 + |r.body|} else {}, TagEnds(rest, 0));
  }

  /** What the corruption does to a datagram of any records, with any bytes of
      an incomplete one behind them. */
  lemma {:induction false} CorruptedRecords(rs: seq<Record>, tail: seq<octet>)
    requires Incomplete(tail)
    ensures Corrupted(WireAll(rs) + tail) == WireAll(DamagedAll(rs)) + tail
  {
    if rs == [] {
      assert WireAll(rs) + tail == tail;
      assert TagEnds(tail, 0) == {};
    } else {
      var r, rest := rs[0], WireAll(rs[1..]);
      var ds := DamagedAll(rs);
      assert WireAll(rs) == Wire(r) + rest;
      assert ds[1..] == DamagedAll(rs[1..]) && WireAll(ds) == Wire(ds[0]) + WireAll(ds[1..]);
      hide Corrupted, WireAll, Wire, Damaged;
      Regroup(Wire(r), rest, tail);
      CorruptedRecord(r, rest + tail);
      CorruptedRecords(rs[1..], tail);
      Regroup(Wire(ds[0]), WireAll(ds[1..]), tail);
    }
  }

  lemma Regroup(a: seq<octet>, b: seq<octet>, c: seq<octet>)
    ensures (a + b) + c == a + (b + c)
  {
  }

  /** Every datagram is of this form. */
  lemma {:induction false} Decomposed(s: seq<octet>) returns (rs: seq<Record>, tail: seq<octet>)
    ensures Incomplete(tail)
    ensures s == WireAll(rs) + tail
    decreases |s|
  {
    if Incomplete(s) {
      rs, tail := [], s;
    } else {
      var n := 256 * (s[3] as nat) + s[4] as nat;
      var r: Record := Parts(s[..3], s[5..5 + n]);
      assert n / 256 == s[3] && n % 256 == s[4];
      assert s[..5 + n] == Wire(r);
      var more;
      more, tail := Decomposed(s[5 + n..]);
      rs := [r] + more;
      assert rs[1..] == more;
      assert s == s[..5 + n] + s[5 + n..];
    }
  }
}
