/** The capture written by udp_relay_pcap.py, as read back by
    rfc9147_wire_check.py. */
module Pcap {
  import opened Wrappers
  import opened Octets

  const GLOBAL_HEADER: seq<octet> :=
    [0xd4, 0xc3, 0xb2, 0xa1, 2, 0, 4, 0, 0, 0, 0, 0, 0, 0, 0, 0, 0xff, 0xff, 0, 0, 101, 0, 0, 0]

  const MAGIC: nat := 0xa1b2c3d4

  const LOCALHOST: seq<octet> := [127, 0, 0, 1]

  datatype Side = Client | Server

  const LISTEN_PORT: nat := 11112
  const SERVER_PORT: nat := 11111

  /** One call of record(): the clock enters as seconds and microseconds since
      the first call. */
  datatype Datagram = Datagram(sec: nat, usec: nat, side: Side, data: seq<octet>)

  /** struct.pack refuses a total length beyond sixteen bits. */
  predicate Packable(d: Datagram) {
    28 + |d.data| < 0x1_0000 && d.sec < 0x1_0000_0000 && d.usec < 0x1_0000_0000
  }

  /** The fake IPv4 and UDP headers. */
  function IpUdp(d: Datagram): (r: seq<octet>)
    requires Packable(d)
    ensures |r| == 28
  {
    var udpLen := 8 + |d.data|;
    var sport := if d.side.Client? then LISTEN_PORT else SERVER_PORT;
    var dport := if d.side.Client? then SERVER_PORT else LISTEN_PORT;
    var ip := [0x45, 0] + Big16(20 + udpLen) + Big16(0) + Big16(0) + [64, 17] + Big16(0) + LOCALHOST + LOCALHOST;
    var udp := Big16(sport) + Big16(dport) + Big16(udpLen) + Big16(0);
    ip + udp
  }

  function Packet(d: Datagram): (r: seq<octet>)
    requires Packable(d)
    ensures |r| == 28 + |d.data|
  {
    IpUdp(d) + d.data
  }

  function PacketHeader(d: Datagram): (r: seq<octet>)
    requires Packable(d)
    ensures |r| == 16
  {
    var n := 28 + |d.data|;
    Little32(d.sec) + Little32(d.usec) + Little32(n) + Little32(n)
  }

  /** What the reader yields from the bytes after the global header. */
  function Packets(rest: seq<octet>): seq<seq<octet>>
    decreases |rest|
  {
    if |rest| < 16 then []
    else
      var caplen := FromLittle32(rest[8..12]);
      if |rest| < 16 + caplen then []
      else [rest[16..16 + caplen]] + Packets(rest[16 + caplen..])
  }

  /** The relay's output file. */
  class Capture {
    var out: seq<octet>

    constructor ()
      ensures out == GLOBAL_HEADER
    {
      out := GLOBAL_HEADER;
    }

    /** False stands for the exception of struct.pack, raised before the first
        write. */
    method Record(d: Datagram) returns (ok: bool)
      modifies this
      ensures ok == Packable(d)
      ensures out == if ok then old(out) + PacketHeader(d) + Packet(d) else old(out)
    {
      if 28 + |d.data| >= 0x1_0000 || d.sec >= 0x1_0000_0000 || d.usec >= 0x1_0000_0000 { return false; }
      out := out + PacketHeader(d);
      out := out + Packet(d);
      return true;
    }
  }

  /** How reading ends: struct.error on a file without four bytes, the failed
      assertion, or the packets. */
  datatype Reading = TooShort | BadMagic | Yielded(pkts: seq<seq<octet>>)

  /** read_pcap, with all that the generator yields. */
  method ReadPcap(file: seq<octet>) returns (r: Reading)
    ensures r == if |file| < 4 then TooShort
                 else if FromLittle32(file[..4]) != MAGIC then BadMagic
                 else if |file| < 24 then Yielded([]) else Yielded(Packets(file[24..]))
  {
    hide Packets, FromLittle32;
    var pos := if |file| < 24 then |file| else 24;
    if |file| < 4 { return TooShort; }
    if FromLittle32(file[..4]) != MAGIC { return BadMagic; }
    var pkts: seq<seq<octet>> := [];
    ghost var all := Packets(file[pos..]);
    PacketsStep([]);
    while true
      invariant pos <= |file|
      invariant pkts + Packets(file[pos..]) == all
      decreases |file| - pos
    {
      ghost var rest := file[pos..];
      PacketsStep(rest);
      if |file| - pos < 16 {
        assert pkts + [] == pkts;
        return Yielded(pkts);
      }
      var ph := file[pos..pos + 16];
      assert ph == rest[..16] && ph[8..12] == rest[8..12];
      pos := pos + 16;
      var caplen := FromLittle32(ph[8..12]);
      if |file| - pos < caplen {
        pos := |file|;
        assert file[pos..] == [];
      } else {
        var data := file[pos..pos + caplen];
        assert data == rest[16..16 + caplen] && file[pos + caplen..] == rest[16 + caplen..];
        assert pkts + ([data] + Packets(file[pos + caplen..])) == pkts + [data] + Packets(file[pos + caplen..]);
        pkts := pkts + [data];
        pos := pos + caplen;
      }
    }
  }

  lemma PacketsStep(rest: seq<octet>)
    ensures |rest| < 16 ==> Packets(rest) == []
    ensures |rest| >= 16 ==>
              var n := FromLittle32(rest[8..12]);
              Packets(rest) == if |rest| < 16 + n then [] else [rest[16..16 + n]] + Packets(rest[16 + n..])
  {
  }

  /** Python's s[lo:hi], which clips at the end and may be empty. */
  function Slice(s: seq<octet>, lo: nat, hi: nat): seq<octet> {
    var h := if hi < |s| then hi else |s|;
    if lo < h then s[lo..h] else []
  }

  function ParseUdp(payload: seq<octet>): Option<seq<octet>> {
    if |payload| < 28 || payload[0] / 16 != 4 then None
    else
      var ihl := payload[0] % 16 * 4;
      if payload[9] != 17 then None
      else
        var udp := Slice(payload, ihl, |payload|);
        if |udp| < 8 then None else Some(Slice(udp, 8, FromBig16(udp[4..6])))
  }

  // ------------------------------------------------------------- the formats

  lemma PackableExactly(d: Datagram)
    ensures Packable(d) <==> |d.data| <= 65507 && d.sec <= 0xFFFF_FFFF && d.usec <= 0xFFFF_FFFF
  {
  }

  /** The file header: little-endian magic, version 2.4, no zone and accuracy,
      packets up to 65535 bytes, raw IP. */
  lemma GlobalHeaderFields()
    ensures var h := GLOBAL_HEADER;
            && |h| == 24 && FromLittle32(h[..4]) == 0xa1b2c3d4
            && h[4..8] == [2, 0, 4, 0] && h[8..16] == [0, 0, 0, 0, 0, 0, 0, 0]
            && FromLittle32(h[16..20]) == 65535 && FromLittle32(h[20..]) == 101
  {
    var h := GLOBAL_HEADER;
    assert h[..4] == [0xd4, 0xc3, 0xb2, 0xa1] && h[16..20] == [0xff, 0xff, 0, 0] && h[20..] == [101, 0, 0, 0];
  }

  /** The packet header: time, and the packet's length twice. */
  lemma PacketHeaderFields(d: Datagram)
    requires Packable(d)
    ensures var h := PacketHeader(d);
            && FromLittle32(h[..4]) == d.sec && FromLittle32(h[4..8]) == d.usec
            && FromLittle32(h[8..12]) == FromLittle32(h[12..]) == |Packet(d)|
  {
    hide Little32, FromLittle32;
    Little32Inverts(d.sec);
    Little32Inverts(d.usec);
    Little32Inverts(28 + |d.data|);
    var h, n := PacketHeader(d), 28 + |d.data|;
    assert h[..4] == Little32(d.sec) && h[4..8] == Little32(d.usec) && h[8..12] == Little32(n) && h[12..] == Little32(n);
  }

  /** The fake headers, big-endian: IPv4 without options, its total length, a
      life of 64, UDP, both addresses local; then the ports, from the relay to
      the server for the client's datagrams and back for the others, and the
      UDP length. */
  lemma PacketFields(d: Datagram)
    requires Packable(d)
    ensures var p := Packet(d);
            && p[0] == 0x45 && p[1] == 0 && FromBig16(p[2..4]) == |p| && p[8] == 64 && p[9] == 17
            && p[12..16] == [127, 0, 0, 1] == p[16..20]
            && FromBig16(p[20..22]) == (if d.side.Client? then 11112 else 11111)
            && FromBig16(p[22..24]) == (if d.side.Client? then 11111 else 11112)
            && FromBig16(p[24..26]) == 8 + |d.data| && p[28..] == d.data
            && (forall i :: i in {4, 5, 6, 7, 10, 11, 26, 27} ==> p[i] == 0)
  {
  }

  /** parse_udp on any bytes: what it takes for a UDP packet, and which bytes
      it returns, cut short at the end. */
  lemma ParseUdpExactly(p: seq<octet>)
    ensures ParseUdp(p).Some?
            <==> |p| >= 28 && p[0] / 16 == 4 && p[9] == 17 && |p| - p[0] % 16 * 4 >= 8
    ensures ParseUdp(p).Some? ==>
              var h := p[0] % 16 * 4;
              var n := 256 * (p[h + 4] as nat) + p[h + 5] as nat;
              ParseUdp(p).value == if n <= 8 || |p| - h == 8 then []
                                   else if h + n <= |p| then p[h + 8..h + n] else p[h + 8..]
  {
    if |p| >= 28 && p[0] / 16 == 4 && p[9] == 17 && |p| - p[0] % 16 * 4 >= 8 {
      var h := p[0] % 16 * 4;
      var udp := Slice(p, h, |p|);
      assert udp == p[h..];
      assert udp[4..6] == p[h + 4..h + 6];
      var n := FromBig16(udp[4..6]);
      if 8 < n {
        assert n <= |udp| ==> udp[8..n] == p[h + 8..h + n];
        assert udp[8..] == p[h + 8..];
      }
    }
  }

  /** A capture cut within its last packet reads as the packets before. */
  lemma {:induction false} CutCapture(ds: seq<Datagram>, d: Datagram, k: nat)
    requires Packable(d) && forall e :: e in ds ==> Packable(e)
    requires k < 16 + |Packet(d)|
    ensures Packets(Recorded(ds) + (PacketHeader(d) + Packet(d))[..k]) == Packets(Recorded(ds))
  {
    hide Packet, PacketHeader, FromLittle32;
    var tail := (PacketHeader(d) + Packet(d))[..k];
    if ds == [] {
      assert Recorded(ds) + tail == tail;
      PacketsStep(tail);
      PacketsStep([]);
      if k >= 16 {
        assert tail[8..12] == PacketHeader(d)[8..12];
        PacketHeaderFields(d);
      }
    } else {
      var rest := Recorded(ds[1..]);
      CutCapture(ds[1..], d, k);
      FirstPacket(ds[0], rest + tail);
      FirstPacket(ds[0], rest);
      assert PacketHeader(ds[0]) + Packet(ds[0]) + (rest + tail) == PacketHeader(ds[0]) + Packet(ds[0]) + rest + tail;
    }
  }

  // -------------------------------------------------------------- round trip

  lemma HeaderFields(d: Datagram)
    requires Packable(d)
    ensures var h := IpUdp(d);
            h[0] == 0x45 && h[9] == 17 && h[24..26] == Big16(8 + |d.data|)
  {
    hide Big16;
  }

  lemma PacketParses(d: Datagram)
    requires Packable(d)
    ensures ParseUdp(Packet(d)) == Some(d.data)
  {
    hide FromBig16, Big16, IpUdp;
    var p := Packet(d);
    var n := 8 + |d.data|;
    HeaderFields(d);
    var udp := p[20..];
    assert Slice(p, 20, |p|) == udp;
    assert udp[4..6] == p[24..26] == IpUdp(d)[24..26];
    LengthCodecs(n);
    assert Slice(udp, 8, n) == udp[8..] == d.data;
  }

  lemma LengthCodecs(n: nat)
    requires n < 0x1_0000
    ensures FromBig16(Big16(n)) == n && FromLittle32(Little32(n)) == n
  {
    hide Big16, Little32, FromBig16, FromLittle32;
    Big16Inverts(n);
    Little32Inverts(n);
  }

  function Recorded(ds: seq<Datagram>): seq<octet>
    requires forall d :: d in ds ==> Packable(d)
  {
    if ds == [] then [] else PacketHeader(ds[0]) + Packet(ds[0]) + Recorded(ds[1..])
  }

  function Payloads(ds: seq<Datagram>): seq<Option<seq<octet>>> {
    if ds == [] then [] else [Some(ds[0].data)] + Payloads(ds[1..])
  }

  function ParseAll(pkts: seq<seq<octet>>): seq<Option<seq<octet>>> {
    if pkts == [] then [] else [ParseUdp(pkts[0])] + ParseAll(pkts[1..])
  }

  /** Any number of recorded datagrams reads back as exactly their payloads. */
  lemma {:induction false} CaptureRoundTrip(ds: seq<Datagram>)
    requires forall d :: d in ds ==> Packable(d)
    ensures ParseAll(Packets(Recorded(ds))) == Payloads(ds)
  {
    if ds != [] {
      var d, rest := ds[0], Recorded(ds[1..]);
      PacketParses(d);
      FirstPacket(d, rest);
      CaptureRoundTrip(ds[1..]);
      hide Packets, ParseUdp, Packet, PacketHeader;
      var pkts := Packets(rest);
      assert Packets(Recorded(ds)) == [Packet(d)] + pkts;
      assert ([Packet(d)] + pkts)[1..] == pkts;
    }
  }

  lemma FirstPacket(d: Datagram, rest: seq<octet>)
    requires Packable(d)
    ensures Packets(PacketHeader(d) + Packet(d) + rest) == [Packet(d)] + Packets(rest)
  {
    hide Packet, Little32, FromLittle32;
    var n := 28 + |d.data|;
    var all := PacketHeader(d) + Packet(d) + rest;
    assert all[8..12] == Little32(n);
    LengthCodecs(n);
    assert all[16..16 + n] == Packet(d) && all[16 + n..] == rest;
  }

  method RecordAll(ds: seq<Datagram>) returns (c: Capture)
    requires forall d :: d in ds ==> Packable(d)
    ensures c.out == GLOBAL_HEADER + Recorded(ds)
  {
    hide Packet, PacketHeader, Recorded, Packable, GLOBAL_HEADER;
    c := new Capture();
    ghost var w := [];
    RecordedNothing(ds[..0]);
    var i := 0;
    while i < |ds|
      invariant 0 <= i <= |ds| && w == Recorded(ds[..i]) && c.out == GLOBAL_HEADER + w
    {
      var ok := c.Record(ds[i]);
      ghost var h, p := PacketHeader(ds[i]), Packet(ds[i]);
      RecordedSnoc(ds, i);
      Regroup(GLOBAL_HEADER, w, h, p);
      w := w + (h + p);
      i := i + 1;
    }
    assert ds[..|ds|] == ds;
  }

  lemma Regroup(a: seq<octet>, b: seq<octet>, c: seq<octet>, d: seq<octet>)
    ensures a + b + c + d == a + (b + (c + d))
  {
  }

  lemma RecordedNothing(ds: seq<Datagram>)
    requires ds == []
    ensures Recorded(ds) == []
  {
  }

  lemma RecordedSnoc(ds: seq<Datagram>, i: nat)
    requires i < |ds| && forall d :: d in ds ==> Packable(d)
    ensures Recorded(ds[..i + 1]) == Recorded(ds[..i]) + (PacketHeader(ds[i]) + Packet(ds[i]))
  {
    hide Packet, PacketHeader;
    assert ds[..i + 1] == ds[..i] + [ds[i]];
    RecordedAppend(ds[..i], [ds[i]]);
    assert [ds[i]][1..] == [];
    assert Recorded([]) == [];
  }

  /** Record every datagram, read the file, parse: the list comes back. */
  method RecordAndRead(ds: seq<Datagram>) returns (pkts: seq<seq<octet>>)
    requires forall d :: d in ds ==> Packable(d)
    ensures ParseAll(pkts) == Payloads(ds)
  {
    hide Packets, Recorded, ParseUdp, FromLittle32;
    var c := RecordAll(ds);
    assert c.out[24..] == Recorded(ds) && c.out[..4] == GLOBAL_HEADER[..4];
    MagicReads();
    var r := ReadPcap(c.out);
    pkts := r.pkts;
    CaptureRoundTrip(ds);
  }

  lemma MagicReads()
    ensures FromLittle32(GLOBAL_HEADER[..4]) == MAGIC
  {
  }

  lemma {:induction false} RecordedAppend(a: seq<Datagram>, b: seq<Datagram>)
    requires forall d :: d in a + b ==> Packable(d)
    requires forall d :: d in a ==> Packable(d)
    requires forall d :: d in b ==> Packable(d)
    ensures Recorded(a + b) == Recorded(a) + Recorded(b)
  {
    hide Packet, PacketHeader;
    if a == [] {
      assert a + b == b;
    } else {
      RecordedAppend(a[1..], b);
      assert (a + b)[1..] == a[1..] + b;
    }
  }
}
