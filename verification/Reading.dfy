/**
 What a receiver reads of a frame, by the offsets of its fields alone: link header, IP header, and the sum over the
 pseudo-header that it puts together from the IP header it got.
 */
module Reading {
  import opened Bytes
  import opened Addresses
  import opened Checksum
  import opened Frames

  /** Where the IP header ends. */
  function Behind(f: Family): nat { if f.V4? then 34 else 54 }

  /** An Ethernet header of type IPv4 or IPv6. */
  ghost predicate LinkReads(frame: seq<byte>, f: Family, dstMac: seq<byte>, srcMac: seq<byte>) {
    |frame| >= 14 && frame[0..6] == dstMac && frame[6..12] == srcMac &&
    frame[12..14] == if f.V4? then [0x08, 0x00] else [0x86, 0xDD]
  }

  /**
   An IP header without options for length bytes of the given protocol. For IPv4: not to be fragmented, a time to live
   of 64, and a header sum of zero (section 3.1 of RFC 791); for IPv6: a hop limit of 64 (section 3 of RFC 8200).
   */
  ghost predicate IpReads(frame: seq<byte>, f: Family, src: IP, dst: IP, proto: byte, length: nat) {
    |frame| >= Behind(f) &&
    if f.V4? then
      frame[14..16] == [0x45, 0] && Num(frame[16..18]) == 20 + length && frame[18..24] == [0, 0, 0x40, 0, 0x40, proto] &&
      frame[26..30] == src && frame[30..34] == dst && Sum16(frame[14..34]) == 0
    else
      frame[14..18] == [0x60, 0, 0, 0] && Num(frame[18..20]) == length && frame[20..22] == [proto, 0x40] &&
      frame[22..38] == src && frame[38..54] == dst
  }

  /**
   What a receiver sums up for a segment of the given length: the addresses as they stand in the frame, the protocol and
   the length, and the segment (section 3.1 of RFC 9293, section 8.1 of RFC 8200).
   */
  function Summed(frame: seq<byte>, f: Family, length: nat): seq<byte>
    requires |frame| == Behind(f) + length
  {
    if f.V4? then
      frame[26..34] + [0, frame[23], length / 256 % 256, length % 256] + frame[34..]
    else
      frame[22..54] + [0, 0, length / 256 % 256, length % 256, 0, 0, 0, frame[20]] + frame[54..]
  }

  // ---------------------------------------------------------------- headers

  lemma Inside(a: seq<byte>, m: seq<byte>, b: seq<byte>, lo: nat, hi: nat)
    requires lo <= hi <= |m|
    ensures (a + m + b)[|a| + lo..|a| + hi] == m[lo..hi]
  {
  }

  lemma LinkIsRead(f: Family, dstMac: seq<byte>, srcMac: seq<byte>, rest: seq<byte>)
    requires |dstMac| == |srcMac| == 6
    ensures LinkReads(EthernetHeader(f, dstMac, srcMac) + rest, f, dstMac, srcMac)
  {
    var e := EthernetHeader(f, dstMac, srcMac);
    var frame := e + rest;
    assert frame[0..6] == e[0..6] == dstMac;
    assert frame[6..12] == e[6..12] == srcMac;
    assert frame[12..14] == e[12..14] == U16(EtherType(f));
  }

  /** The headers of every frame the scanner sends, probes and echo requests alike. */
  lemma HeadersAreRead(f: Family, dstMac: seq<byte>, srcMac: seq<byte>, src: IP, dst: IP, proto: byte, length: nat,
                       rest: seq<byte>)
    requires |dstMac| == |srcMac| == 6 && |src| == |dst| == AddressBytes(f) && length < 0xFF00
    ensures var frame := EthernetHeader(f, dstMac, srcMac) + IpHeader(f, IpTemplate(f, src, proto, length), dst) + rest;
            LinkReads(frame, f, dstMac, srcMac) && IpReads(frame, f, src, dst, proto, length) &&
            |frame| == Behind(f) + |rest| && frame[Behind(f)..] == rest
  {
    hide IpHeader, IpTemplate, Sum16, U16, LinkReads, Num;
    var e, ip := EthernetHeader(f, dstMac, srcMac), IpHeader(f, IpTemplate(f, src, proto, length), dst);
    var frame := e + ip + rest;
    LinkIsRead(f, dstMac, srcMac, ip + rest);
    assert frame == e + (ip + rest);
    IpHeaderFields(f, src, dst, proto, length);
    if f.V4? {
      U16IsNumber(20 + length);
      Ipv4HeaderVerifies(src, dst, proto, length);
      Inside(e, ip, rest, 0, 2);
      Inside(e, ip, rest, 2, 4);
      Inside(e, ip, rest, 4, 10);
      Inside(e, ip, rest, 12, 16);
      Inside(e, ip, rest, 16, 20);
      Inside(e, ip, rest, 0, 20);
      TakeAll(ip);
    } else {
      U16IsNumber(length);
      Inside(e, ip, rest, 0, 4);
      Inside(e, ip, rest, 4, 6);
      Inside(e, ip, rest, 6, 8);
      Inside(e, ip, rest, 8, 24);
      Inside(e, ip, rest, 24, 40);
    }
  }

  /** The pseudo-header a receiver puts together is the one the sender summed. */
  lemma SummedIsSent(frame: seq<byte>, f: Family, src: IP, dst: IP, proto: byte, length: nat)
    requires |src| == |dst| == AddressBytes(f) && length < 0xFF00
    requires IpReads(frame, f, src, dst, proto, length) && |frame| == Behind(f) + length
    ensures Summed(frame, f, length) == PseudoHeader(f, src, dst, proto, length) + frame[Behind(f)..]
  {
    hide Sum16, Num;
    if f.V4? {
      assert frame[23] == frame[18..24][5] == proto;
      assert frame[26..34] == frame[26..30] + frame[30..34];
    } else {
      assert frame[20] == frame[20..22][0] == proto;
      assert frame[22..54] == frame[22..38] + frame[38..54];
      assert length / 0x10000 / 256 % 256 == 0 && length / 0x10000 % 256 == 0;
    }
  }

  // ---------------------------------------------------------------- transport probes

  /** Ports, checksum and payload of a segment; everything else as in the probe's template. */
  ghost predicate SegmentReads(segment: seq<byte>, p: Probe, port: nat)
    requires ValidProbe(p)
  {
    var at, n := p.checksumAt, |p.header|;
    |segment| == n + |p.payload| && segment[0..2] == p.header[0..2] && Num(segment[2..4]) == port % 0x10000 &&
    segment[4..at] == p.header[4..at] && segment[at + 2..n] == p.header[at + 2..n] && segment[n..] == p.payload
  }

  lemma SegmentIsRead(f: Family, p: Probe, src: IP, dst: IP, port: nat)
    requires ValidProbe(p)
    ensures SegmentReads(TransportHeader(f, p, src, dst, port) + p.payload, p, port)
  {
    hide TransportSum, U16, Num;
    var t, u := TransportHeader(f, p, src, dst, port), Unsummed(p, port);
    var at, n := p.checksumAt, |p.header|;
    var segment := t + p.payload;
    U16IsNumber(port);
    DestinationPort(f, p, src, dst, port);
    UnsummedKeeps(p, port, 0, 2);
    UnsummedKeeps(p, port, 4, at);
    UnsummedKeeps(p, port, at + 2, n);
    SummedKeeps(f, p, src, dst, port, 0, 2);
    SummedKeeps(f, p, src, dst, port, 4, at);
    SummedKeeps(f, p, src, dst, port, at + 2, n);
    hide TransportHeader, Unsummed;
    assert segment[0..2] == t[0..2] && segment[2..4] == t[2..4] && segment[4..at] == t[4..at];
    assert segment[at + 2..n] == t[at + 2..n] && segment[n..] == p.payload;
  }

  lemma UnsummedKeeps(p: Probe, port: nat, lo: nat, hi: nat)
    requires ValidProbe(p) && lo <= hi <= |p.header| && (hi <= 2 || 4 <= lo)
    ensures Unsummed(p, port)[lo..hi] == p.header[lo..hi]
  {
    hide Splice, U16;
    SpliceKeeps(p.header, 2, U16(port), lo, hi);
  }

  lemma SummedKeeps(f: Family, p: Probe, src: IP, dst: IP, port: nat, lo: nat, hi: nat)
    requires ValidProbe(p) && lo <= hi <= |p.header| && (hi <= p.checksumAt || p.checksumAt + 2 <= lo)
    ensures TransportHeader(f, p, src, dst, port)[lo..hi] == Unsummed(p, port)[lo..hi]
  {
    hide Splice, U16, Unsummed, TransportSum;
    SpliceKeeps(Unsummed(p, port), p.checksumAt, U16(TransportSum(f, p, src, dst, port)), lo, hi);
  }

  /** All a receiver reads of a transport probe. */
  ghost predicate ProbeReads(frame: seq<byte>, f: Family, dstMac: seq<byte>, srcMac: seq<byte>, src: IP, dst: IP, p: Probe,
                             port: nat)
    requires ValidProbe(p)
  {
    var length := |p.header| + |p.payload|;
    |frame| == Behind(f) + length && LinkReads(frame, f, dstMac, srcMac) && IpReads(frame, f, src, dst, p.proto, length) &&
    Sum16(Summed(frame, f, length)) == 0 && SegmentReads(frame[Behind(f)..], p, port)
  }

  lemma ProbeIsRead(f: Family, dstMac: seq<byte>, srcMac: seq<byte>, src: IP, dst: IP, p: Probe, port: nat)
    requires |dstMac| == |srcMac| == 6 && |src| == |dst| == AddressBytes(f) && ValidProbe(p)
    ensures ProbeReads(EthernetHeader(f, dstMac, srcMac) + Packet(f, p, src, dst, port), f, dstMac, srcMac, src, dst, p, port)
  {
    hide IpHeader, IpTemplate, TransportHeader, EthernetHeader, Sum16, PseudoHeader, LinkReads, IpReads, SegmentReads, Summed;
    var length := |p.header| + |p.payload|;
    var e, ip := EthernetHeader(f, dstMac, srcMac), IpHeader(f, IpTemplate(f, src, p.proto, length), dst);
    var t := TransportHeader(f, p, src, dst, port);
    var frame := e + Packet(f, p, src, dst, port);
    assert frame == e + ip + (t + p.payload);
    HeadersAreRead(f, dstMac, srcMac, src, dst, p.proto, length, t + p.payload);
    SummedIsSent(frame, f, src, dst, p.proto, length);
    SegmentVerifies(f, p, src, dst, port);
    var s := PseudoHeader(f, src, dst, p.proto, length);
    assert s + (t + p.payload) == s + t + p.payload;
    SegmentIsRead(f, p, src, dst, port);
  }

  /**
   The templates: source port, where the checksum goes, and the lengths and flags a receiver goes by (section 3.1 of
   RFC 9293, RFC 768).
   */
  ghost predicate TemplateReads(p: Probe, sourcePort: nat) {
    |p.header| >= 14 && Num(p.header[0..2]) == sourcePort &&
    if p.proto == 6 then
      p.header[12] as int / 16 * 4 == |p.header| && p.header[13] in {0x02, 0x22} && p.checksumAt == 16
    else
      p.proto == 17 && Num(p.header[4..6]) == |p.header| + |p.payload| && p.checksumAt == 6
  }

  /** A TCP probe with SYN only for the first technique, SYN and URG for the second, a UDP probe for the third. */
  lemma ProbesAreRead(syn: bool, vav: bool, udp: bool, sourcePort: nat, acorn: seq<byte>)
    requires sourcePort < 0x10000
    ensures var ps := Probes(syn, vav, udp, sourcePort, acorn);
            (forall k :: 0 <= k < |ps| ==> TemplateReads(ps[k], sourcePort)) &&
            |ps| == (if syn then 1 else 0) + (if vav then 1 else 0) + (if udp then 1 else 0) &&
            (syn ==> ps[0].proto == 6 && ps[0].header[13] == 0x02 && ps[0].payload == []) &&
            (vav ==> var k := if syn then 1 else 0; ps[k].proto == 6 && ps[k].header[13] == 0x22 && ps[k].payload == acorn) &&
            (udp ==> ps[|ps| - 1].proto == 17)
  {
    hide PutPort, TemplateReads;
    SynReads(sourcePort);
    VavReads(sourcePort, acorn);
    UdpReads(sourcePort);
  }

  lemma PortIsPut(header: seq<byte>, port: nat, lo: nat, hi: nat)
    requires |header| >= 2 && port < 0x10000 && 2 <= lo <= hi <= |header|
    ensures |PutPort(header, 0, port)| == |header| && Num(PutPort(header, 0, port)[0..2]) == port
    ensures PutPort(header, 0, port)[lo..hi] == header[lo..hi]
  {
    hide Splice, U16, Num;
    U16IsNumber(port);
    SpliceKeeps(header, 0, U16(port), lo, hi);
  }

  lemma SynReads(sourcePort: nat)
    requires sourcePort < 0x10000
    ensures var p := Probe(TCP, PutPort(SYN_HEADER, 0, sourcePort), 16, []);
            TemplateReads(p, sourcePort) && p.header[13] == 0x02
  {
    hide PutPort, Num;
    PortIsPut(SYN_HEADER, sourcePort, 12, 14);
    var h := PutPort(SYN_HEADER, 0, sourcePort);
    assert h[12] == h[12..14][0] == 0x50 && h[13] == h[12..14][1] == 0x02;
  }

  lemma VavReads(sourcePort: nat, acorn: seq<byte>)
    requires sourcePort < 0x10000
    ensures var p := Probe(TCP, PutPort(VAV_HEADER, 0, sourcePort), 16, acorn);
            TemplateReads(p, sourcePort) && p.header[13] == 0x22
  {
    hide PutPort, Num;
    PortIsPut(VAV_HEADER, sourcePort, 12, 14);
    var h := PutPort(VAV_HEADER, 0, sourcePort);
    assert h[12] == h[12..14][0] == 0x60 && h[13] == h[12..14][1] == 0x22;
  }

  lemma UdpReads(sourcePort: nat)
    requires sourcePort < 0x10000
    ensures TemplateReads(Probe(UDP, PutPort(UDP_HEADER, 0, sourcePort), 6, []), sourcePort)
  {
    hide PutPort, Num;
    PortIsPut(UDP_HEADER, sourcePort, 4, 6);
    assert PutPort(UDP_HEADER, 0, sourcePort)[4..6] == U16(15);
    U16IsNumber(15);
  }
}
