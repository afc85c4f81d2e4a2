/**
 The frames the scanner means to send: Ethernet header, IP header, transport header and payload, for
 both address families and the three probe kinds. This is the reference the packet builder is held to.
 */
module Frames {
  import opened Bytes
  import opened Addresses
  import opened Checksum

  datatype Family = V4 | V6

  function AddressBytes(f: Family): nat { if f.V4? then 4 else 16 }

  function IpHeaderBytes(f: Family): nat { if f.V4? then 20 else 40 }

  /** Offset of the destination address in the IP header. */
  function DestinationAt(f: Family): nat { if f.V4? then 16 else 24 }

  function EtherType(f: Family): nat { if f.V4? then 0x0800 else 0x86DD }

  // ---------------------------------------------------------------- probes

  /** A transport probe: protocol number, header with the ports left blank, checksum offset, payload. */
  datatype Probe = Probe(proto: byte, header: seq<byte>, checksumAt: nat, payload: seq<byte>)

  ghost predicate ValidProbe(p: Probe) {
    4 <= p.checksumAt && EmptyField(p.header, p.checksumAt) &&
    (p.payload != [] ==> |p.header| % 2 == 0) && |p.header| + |p.payload| <= 1024
  }

  const TCP: byte := 6
  const UDP: byte := 17

  /** TCP SYN with window 14600 and sequence number 0x22EF. */
  const SYN_HEADER: seq<byte> := [
    0, 0, 0, 0, 0x00, 0x00, 0x22, 0xEF, 0, 0, 0, 0, 0x50, 0x02, 0x39, 0x08, 0, 0, 0, 0]

  /** SYN+URG with the urgent pointer set and an MSS option of 1460. */
  const VAV_HEADER: seq<byte> := [
    0, 0, 0, 0, 0x00, 0x00, 0x22, 0xEF, 0, 0, 0, 0, 0x60, 0x22, 0x39, 0x08, 0, 0, 0, 1, 0x02, 0x04, 0x05, 0xB4]

  /** UDP header of length 15 with its seven payload bytes. */
  const UDP_HEADER: seq<byte> := [
    0, 0, 0, 0, 0x00, 0x0F, 0, 0, 0x76, 0x61, 0x76, 0x65, 0x72, 0x6B, 0x61]

  const ACORN_BYTES: nat := 147

  function PutPort(header: seq<byte>, at: nat, port: nat): seq<byte>
    requires at + 2 <= |header|
  {
    Splice(header, at, U16(port))
  }

  /** The probes of the enabled techniques, in sending order, with the source port filled in. */
  function Probes(syn: bool, vav: bool, udp: bool, sourcePort: nat, acorn: seq<byte>): seq<Probe> {
    (if syn then [Probe(TCP, PutPort(SYN_HEADER, 0, sourcePort), 16, [])] else []) +
    (if vav then [Probe(TCP, PutPort(VAV_HEADER, 0, sourcePort), 16, acorn)] else []) +
    (if udp then [Probe(UDP, PutPort(UDP_HEADER, 0, sourcePort), 6, [])] else [])
  }

  ghost predicate AllValid(ps: seq<Probe>) {
    forall k :: 0 <= k < |ps| ==> ValidProbe(ps[k])
  }

  lemma ProbesValid(syn: bool, vav: bool, udp: bool, sourcePort: nat, acorn: seq<byte>)
    requires |acorn| == ACORN_BYTES
    ensures AllValid(Probes(syn, vav, udp, sourcePort, acorn))
  {
    hide ValidProbe, PutPort;
    TemplatesValid(acorn);
    PortedProbe(TCP, SYN_HEADER, sourcePort, 16, []);
    PortedProbe(TCP, VAV_HEADER, sourcePort, 16, acorn);
    PortedProbe(UDP, UDP_HEADER, sourcePort, 6, []);
    var a := Probe(TCP, PutPort(SYN_HEADER, 0, sourcePort), 16, []);
    var b := Probe(TCP, PutPort(VAV_HEADER, 0, sourcePort), 16, acorn);
    var c := Probe(UDP, PutPort(UDP_HEADER, 0, sourcePort), 6, []);
    Chosen(syn, a, vav, b, udp, c);
  }

  lemma TemplatesValid(acorn: seq<byte>)
    requires |acorn| == ACORN_BYTES
    ensures ValidProbe(Probe(TCP, SYN_HEADER, 16, [])) && ValidProbe(Probe(TCP, VAV_HEADER, 16, acorn))
    ensures ValidProbe(Probe(UDP, UDP_HEADER, 6, []))
  {
  }

  lemma Chosen(x: bool, a: Probe, y: bool, b: Probe, z: bool, c: Probe)
    requires ValidProbe(a) && ValidProbe(b) && ValidProbe(c)
    ensures AllValid((if x then [a] else []) + (if y then [b] else []) + (if z then [c] else []))
  {
    hide ValidProbe;
  }

  lemma PortedProbe(proto: byte, header: seq<byte>, sourcePort: nat, at: nat, payload: seq<byte>)
    requires ValidProbe(Probe(proto, header, at, payload))
    ensures ValidProbe(Probe(proto, PutPort(header, 0, sourcePort), at, payload))
  {
    hide U16;
    var h := PutPort(header, 0, sourcePort);
    assert h[2..][at - 2] == header[2..][at - 2] && h[2..][at - 1] == header[2..][at - 1];
  }

  // ---------------------------------------------------------------- reference frames

  /** Pseudo-header of sections 3.1 of RFC 9293 (IPv4) and 8.1 of RFC 8200 (IPv6). */
  function PseudoHeader(f: Family, src: IP, dst: IP, proto: byte, length: nat): (r: seq<byte>) {
    if f.V4? then src + dst + [0, proto] + U16(length)
    else src + dst + U16(length / 0x10000) + U16(length) + [0, 0, 0, proto]
  }

  /** Transport header for one port before its checksum is written. */
  function Unsummed(p: Probe, port: nat): (r: seq<byte>)
    requires ValidProbe(p)
    ensures |r| == |p.header| && EmptyField(r, p.checksumAt)
  {
    PutPort(p.header, 2, port)
  }

  function TransportSum(f: Family, p: Probe, src: IP, dst: IP, port: nat): nat
    requires ValidProbe(p)
  {
    Sum16(PseudoHeader(f, src, dst, p.proto, |p.header| + |p.payload|) + Unsummed(p, port) + p.payload)
  }

  function TransportHeader(f: Family, p: Probe, src: IP, dst: IP, port: nat): (r: seq<byte>)
    requires ValidProbe(p)
    ensures |r| == |p.header|
  {
    Splice(Unsummed(p, port), p.checksumAt, U16(TransportSum(f, p, src, dst, port)))
  }

  /** The IP header without destination and checksum. */
  function IpTemplate(f: Family, src: IP, proto: byte, length: nat): (r: seq<byte>)
    requires |src| == AddressBytes(f)
    ensures |r| == IpHeaderBytes(f)
  {
    if f.V4? then
      [0x45, 0x00] + U16(20 + length) + [0, 0, 0x40, 0x00, 0x40, proto, 0, 0] + src + [0xFF, 0, 0, 0]
    else
      [0x60, 0x00, 0x00, 0x00] + U16(length) + [proto, 0x40] + src + seq(16, _ => 0)
  }

  /** The IP header for one destination; IPv4 headers carry a checksum. */
  function IpHeader(f: Family, template: seq<byte>, dst: IP): (r: seq<byte>)
    requires |template| == IpHeaderBytes(f) && |dst| == AddressBytes(f)
    ensures |r| == IpHeaderBytes(f)
  {
    var h := Splice(template, DestinationAt(f), dst);
    if f.V4? then Splice(h, 10, U16(Sum16(h))) else h
  }

  function EthernetHeader(f: Family, dstMac: seq<byte>, srcMac: seq<byte>): (r: seq<byte>) {
    dstMac + srcMac + U16(EtherType(f))
  }

  /** Everything behind the Ethernet header. */
  function Packet(f: Family, p: Probe, src: IP, dst: IP, port: nat): (r: seq<byte>)
    requires ValidProbe(p) && |src| == |dst| == AddressBytes(f)
  {
    IpHeader(f, IpTemplate(f, src, p.proto, |p.header| + |p.payload|), dst) +
    TransportHeader(f, p, src, dst, port) + p.payload
  }

  // ---------------------------------------------------------------- what a receiver checks

  lemma SpliceInside(a: seq<byte>, s: seq<byte>, b: seq<byte>, off: nat, t: seq<byte>)
    requires off + |t| <= |s|
    ensures Splice(a + s + b, |a| + off, t) == a + Splice(s, off, t) + b
  {
    var x := a + s + b;
    assert x[..|a| + off] == a + s[..off];
    assert x[|a| + off + |t|..] == s[off + |t|..] + b;
  }

  /** A checksum over a + h + b, written into h, makes the whole verify. */
  lemma FieldInMiddle(a: seq<byte>, h: seq<byte>, b: seq<byte>, off: nat)
    requires |a| % 2 == 0 && EmptyField(h, off)
    ensures Sum16(a + Splice(h, off, U16(Sum16(a + h + b))) + b) == 0
  {
    var data := a + h + b;
    assert data[|a| + off] == h[off] && data[|a| + off + 1] == h[off + 1];
    ChecksumVerifies(data, |a| + off);
    SpliceInside(a, h, b, off, U16(Sum16(data)));
  }

  lemma PseudoHeaderEven(f: Family, src: IP, dst: IP, proto: byte, length: nat)
    requires |src| == |dst| == AddressBytes(f)
    ensures |PseudoHeader(f, src, dst, proto, length)| == if f.V4? then 12 else 40
  {
  }

  /** Pseudo-header, transport header and payload sum to zero, odd-length payloads included. */
  lemma SegmentVerifies(f: Family, p: Probe, src: IP, dst: IP, port: nat)
    requires ValidProbe(p) && |src| == |dst| == AddressBytes(f)
    ensures Sum16(PseudoHeader(f, src, dst, p.proto, |p.header| + |p.payload|) +
                  TransportHeader(f, p, src, dst, port) + p.payload) == 0
  {
    hide Sum16, Splice, PseudoHeader;
    PseudoHeaderEven(f, src, dst, p.proto, |p.header| + |p.payload|);
    FieldInMiddle(PseudoHeader(f, src, dst, p.proto, |p.header| + |p.payload|), Unsummed(p, port), p.payload, p.checksumAt);
  }

  /** An IPv4 header sums to zero (section 3.1 of RFC 791). */
  lemma Ipv4HeaderVerifies(src: IP, dst: IP, proto: byte, length: nat)
    requires |src| == |dst| == 4
    ensures Sum16(IpHeader(V4, IpTemplate(V4, src, proto, length), dst)) == 0
  {
    var h := Splice(IpTemplate(V4, src, proto, length), 16, dst);
    assert EmptyField(h, 10);
    ChecksumVerifies(h, 10);
  }

  /** Writing elsewhere leaves a part alone. */
  lemma SpliceKeeps(s: seq<byte>, off: nat, t: seq<byte>, lo: nat, hi: nat)
    requires off + |t| <= |s| && lo <= hi <= |s| && (hi <= off || off + |t| <= lo)
    ensures Splice(s, off, t)[lo..hi] == s[lo..hi]
  {
    var r := Splice(s, off, t);
    var n := off + |t|;
    if hi <= off {
      assert r[lo..hi] == r[..off][lo..hi] == s[..off][lo..hi] == s[lo..hi];
    } else {
      assert r[lo..hi] == r[n..][lo - n..hi - n] == s[n..][lo - n..hi - n] == s[lo..hi];
    }
  }

  lemma MiddlePart(a: seq<byte>, m: seq<byte>, b: seq<byte>)
    ensures (a + m + b)[|a|..|a| + |m|] == m
  {
  }

  lemma TemplateV4(src: IP, proto: byte, length: nat)
    requires |src| == 4
    ensures var t := IpTemplate(V4, src, proto, length);
            t[0..2] == [0x45, 0] && t[2..4] == U16(20 + length) && t[4..10] == [0, 0, 0x40, 0, 0x40, proto] && t[12..16] == src
  {
    hide U16;
    var head: seq<byte> := [0, 0, 0x40, 0x00, 0x40, proto, 0, 0];
    var t := IpTemplate(V4, src, proto, length);
    MiddlePart([0x45, 0x00] + U16(20 + length) + head, src, [0xFF, 0, 0, 0]);
    assert t == [0x45, 0x00] + U16(20 + length) + (head + src + [0xFF, 0, 0, 0]);
    MiddlePart([0x45, 0x00], U16(20 + length), head + src + [0xFF, 0, 0, 0]);
  }

  lemma TemplateV6(src: IP, proto: byte, length: nat)
    requires |src| == 16
    ensures var t := IpTemplate(V6, src, proto, length);
            t[0..4] == [0x60, 0, 0, 0] && t[4..6] == U16(length) && t[6..8] == [proto, 0x40] && t[8..24] == src
  {
    hide U16;
    var zeros: seq<byte> := seq(16, _ => 0);
    var t := IpTemplate(V6, src, proto, length);
    MiddlePart([0x60, 0x00, 0x00, 0x00] + U16(length) + [proto, 0x40], src, zeros);
    assert t == [0x60, 0x00, 0x00, 0x00] + U16(length) + ([proto, 0x40] + src + zeros);
    MiddlePart([0x60, 0x00, 0x00, 0x00], U16(length), [proto, 0x40] + src + zeros);
  }

  /** The fields a receiver reads back from the IP header. */
  lemma IpHeaderFields(f: Family, src: IP, dst: IP, proto: byte, length: nat)
    requires |src| == |dst| == AddressBytes(f)
    ensures var h := IpHeader(f, IpTemplate(f, src, proto, length), dst);
            var at := DestinationAt(f);
            h[at..at + |dst|] == dst && h[at - |src|..at] == src &&
            (if f.V4? then h[0..2] == [0x45, 0] && h[2..4] == U16(20 + length) && h[4..10] == [0, 0, 0x40, 0, 0x40, proto]
             else h[0..4] == [0x60, 0, 0, 0] && h[4..6] == U16(length) && h[6..8] == [proto, 0x40])
  {
    hide IpTemplate, Splice, Sum16, U16;
    var t := IpTemplate(f, src, proto, length);
    if f.V4? {
      TemplateV4(src, proto, length);
      KeptV4(t, dst, 12, 16);
      KeptV4(t, dst, 0, 2);
      KeptV4(t, dst, 2, 4);
      KeptV4(t, dst, 4, 10);
      var h := Splice(t, 16, dst);
      SpliceKeeps(h, 10, U16(Sum16(h)), 16, 20);
    } else {
      TemplateV6(src, proto, length);
      SpliceKeeps(t, 24, dst, 8, 24);
      SpliceKeeps(t, 24, dst, 0, 4);
      SpliceKeeps(t, 24, dst, 4, 6);
      SpliceKeeps(t, 24, dst, 6, 8);
    }
  }

  lemma KeptV4(t: seq<byte>, dst: IP, lo: nat, hi: nat)
    requires |t| == 20 && |dst| == 4 && lo <= hi <= 16 && (hi <= 10 || 12 <= lo)
    ensures IpHeader(V4, t, dst)[lo..hi] == t[lo..hi]
  {
    hide Splice, Sum16, U16;
    var h := Splice(t, 16, dst);
    SpliceKeeps(t, 16, dst, lo, hi);
    SpliceKeeps(h, 10, U16(Sum16(h)), lo, hi);
  }

  /** A frame tells its destination address and port apart: different targets, different packets. */
  lemma PacketInjective(f: Family, p: Probe, src: IP, dst: IP, port: nat, dst': IP, port': nat)
    requires ValidProbe(p) && |src| == |dst| == |dst'| == AddressBytes(f)
    requires port < 0x10000 && port' < 0x10000
    requires Packet(f, p, src, dst, port) == Packet(f, p, src, dst', port')
    ensures dst == dst' && port == port'
  {
    hide *;
    var h, g := PacketSplit(f, p, src, dst, port);
    var h', g' := PacketSplit(f, p, src, dst', port');
    ThreeParts(h, g, p.payload, h', g');
    IpHeaderInjective(f, src, dst, dst', p.proto, |p.header| + |p.payload|);
    SamePort(f, p, src, dst, port, dst', port');
  }

  lemma PacketSplit(f: Family, p: Probe, src: IP, dst: IP, port: nat) returns (h: seq<byte>, g: seq<byte>)
    requires ValidProbe(p) && |src| == |dst| == AddressBytes(f)
    ensures Packet(f, p, src, dst, port) == h + g + p.payload
    ensures |h| == IpHeaderBytes(f) && h == IpHeader(f, IpTemplate(f, src, p.proto, |p.header| + |p.payload|), dst)
    ensures |g| == |p.header| && g == TransportHeader(f, p, src, dst, port)
  {
    hide TransportHeader, IpHeader, IpTemplate;
    h := IpHeader(f, IpTemplate(f, src, p.proto, |p.header| + |p.payload|), dst);
    g := TransportHeader(f, p, src, dst, port);
  }

  lemma SamePort(f: Family, p: Probe, src: IP, dst: IP, port: nat, dst': IP, port': nat)
    requires ValidProbe(p) && port < 0x10000 && port' < 0x10000
    requires TransportHeader(f, p, src, dst, port) == TransportHeader(f, p, src, dst', port')
    ensures port == port'
  {
    hide TransportHeader, U16;
    DestinationPort(f, p, src, dst, port);
    DestinationPort(f, p, src, dst', port');
    U16Injective(port, port');
  }

  lemma U16Injective(x: nat, y: nat)
    requires x < 0x10000 && y < 0x10000 && U16(x) == U16(y)
    ensures x == y
  {
    assert U16(x)[0] == U16(y)[0] && U16(x)[1] == U16(y)[1];
  }

  lemma IpHeaderInjective(f: Family, src: IP, dst: IP, dst': IP, proto: byte, length: nat)
    requires |src| == |dst| == |dst'| == AddressBytes(f)
    requires IpHeader(f, IpTemplate(f, src, proto, length), dst) == IpHeader(f, IpTemplate(f, src, proto, length), dst')
    ensures dst == dst'
  {
    hide IpHeader, IpTemplate, U16;
    IpHeaderFields(f, src, dst, proto, length);
    IpHeaderFields(f, src, dst', proto, length);
  }

  lemma ThreeParts(a: seq<byte>, b: seq<byte>, c: seq<byte>, a': seq<byte>, b': seq<byte>)
    requires |a| == |a'| && |b| == |b'| && a + b + c == a' + b' + c
    ensures a == a' && b == b'
  {
    var x, y := a + b + c, a' + b' + c;
    assert a == x[..|a|] == y[..|a|] == a';
    assert b == x[|a|..|a| + |b|] == y[|a|..|a| + |b|] == b';
  }

  lemma DestinationPort(f: Family, p: Probe, src: IP, dst: IP, port: nat)
    requires ValidProbe(p)
    ensures TransportHeader(f, p, src, dst, port)[2..4] == U16(port)
  {
    var h, u := TransportHeader(f, p, src, dst, port), Unsummed(p, port);
    assert h[2..4] == h[..p.checksumAt][2..4] == u[..p.checksumAt][2..4] == u[2..4];
  }
}
