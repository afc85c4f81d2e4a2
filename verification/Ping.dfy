/**
 Host discovery by echo requests behind a gateway: one batch per chunk of addresses. The IP headers of a
 chunk, and for IPv6 the ICMP messages, share one buffer each.
 */
module Ping {
  import opened Bytes
  import opened Addresses
  import opened Checksum
  import opened Enumerator
  import opened Frames
  import opened Reading
  import opened Batch
  import opened Batching
  import opened PortScan
  import opened HostScan

  const ICMP4: byte := 1
  const ICMP6: byte := 58
  const ECHO_BYTES: nat := 12

  /** Echo request with its checksum filled in beforehand. */
  const ECHO4: seq<byte> := [0x08, 0x00, 0x47, 0x3A, 0x12, 0x34, 0x00, 0x01, 0x50, 0x49, 0x4E, 0x47]

  /** Echo request whose checksum depends on the addresses. */
  const ECHO6: seq<byte> := [0x80, 0x00, 0x00, 0x00, 0x12, 0x34, 0x00, 0x01, 0x50, 0x49, 0x4E, 0x47]

  /** Zeros up to the minimal frame size of 64. */
  const PADDING: seq<byte> := [0, 0, 0, 0, 0, 0, 0, 0, 0, 0, 0, 0, 0, 0, 0, 0, 0, 0]

  datatype PingConfig = PingConfig(f: Family, src: IP, srcMac: seq<byte>, mac: seq<byte>)

  ghost predicate ValidPing(c: PingConfig) {
    |c.src| == AddressBytes(c.f) && |c.srcMac| == 6 == |c.mac|
  }

  // ---------------------------------------------------------------- reference frames

  function EchoTemplate(c: PingConfig): (r: seq<byte>)
    requires ValidPing(c)
    ensures |r| == IpHeaderBytes(c.f)
  {
    IpTemplate(c.f, c.src, if c.f.V4? then ICMP4 else ICMP6, ECHO_BYTES)
  }

  /** The ICMPv6 message for one destination: a zero checksum is sent as 65535. */
  function Echo6(src: IP, dst: IP): (r: seq<byte>)
    ensures |r| == ECHO_BYTES
  {
    var sum := Sum16(PseudoHeader(V6, src, dst, ICMP6, ECHO_BYTES) + ECHO6 + []);
    Splice(ECHO6, 2, U16(if sum == 0 then 0xFFFF else sum))
  }

  function PingFrame(c: PingConfig, dst: IP): Frame
    requires ValidPing(c) && |dst| == AddressBytes(c.f)
  {
    EthernetHeader(c.f, c.mac, c.srcMac) + IpHeader(c.f, EchoTemplate(c), dst) +
    if c.f.V4? then ECHO4 + PADDING else Echo6(c.src, dst)
  }

  ghost predicate ValidPingChunk(c: PingConfig, chunk: seq<IP>) {
    ValidPing(c) && |chunk| <= SLOTS && forall k :: 0 <= k < |chunk| ==> |chunk[k]| == AddressBytes(c.f)
  }

  function PingBatch(c: PingConfig, chunk: seq<IP>): (r: seq<Frame>)
    requires ValidPingChunk(c, chunk)
    ensures |r| == |chunk|
  {
    seq(|chunk|, k requires 0 <= k < |chunk| => PingFrame(c, chunk[k]))
  }

  /** The IPv4 echo request carries a correct checksum although it is never computed. */
  lemma Echo4Verifies()
    ensures Sum16(ECHO4) == 0
  {
    assert WordSum(ECHO4[..0]) == 0;
    PairStep(ECHO4, 0);
    PairStep(ECHO4, 2);
    PairStep(ECHO4, 4);
    PairStep(ECHO4, 6);
    PairStep(ECHO4, 8);
    PairStep(ECHO4, 10);
    TakeAll(ECHO4);
  }

  /** The ICMPv6 message verifies against its pseudo-header, in the substituted case as well (RFC 8200, section 8.1). */
  lemma Echo6Verifies(src: IP, dst: IP)
    requires |src| == |dst| == 16
    ensures Sum16(PseudoHeader(V6, src, dst, ICMP6, ECHO_BYTES) + Echo6(src, dst) + []) == 0
    ensures Echo6(src, dst)[2..4] != [0, 0]
  {
    var a := PseudoHeader(V6, src, dst, ICMP6, ECHO_BYTES);
    var data := a + ECHO6 + [];
    PseudoHeaderEven(V6, src, dst, ICMP6, ECHO_BYTES);
    assert data[|a| + 2] == ECHO6[2] && data[|a| + 3] == ECHO6[3];
    ChecksumVerifies(data, |a| + 2);
    var v := if Sum16(data) == 0 then 0xFFFF else Sum16(data);
    SpliceInside(a, ECHO6, [], 2, U16(v));
    assert U16(v)[0] != 0 || U16(v)[1] != 0;
  }

  // ---------------------------------------------------------------- what a receiver reads

  /** An echo request from c.src to dst, as a receiver reads it: ICMP (RFC 792) in IPv4, ICMPv6 (RFC 4443) in IPv6. */
  ghost predicate PingReads(frame: seq<byte>, c: PingConfig, dst: IP) {
    LinkReads(frame, c.f, c.mac, c.srcMac) && IpReads(frame, c.f, c.src, dst, if c.f.V4? then 1 else 58, 12) &&
    if c.f.V4? then
      |frame| == 64 && frame[34..36] == [8, 0] && frame[38..46] == [0x12, 0x34, 0, 1, 0x50, 0x49, 0x4E, 0x47] &&
      Sum16(frame[34..46]) == 0 && forall k :: 46 <= k < 64 ==> frame[k] == 0
    else
      |frame| == 66 && frame[54..56] == [128, 0] && frame[58..66] == [0x12, 0x34, 0, 1, 0x50, 0x49, 0x4E, 0x47] &&
      Sum16(Summed(frame, V6, 12)) == 0 && frame[56..58] != [0, 0]
  }

  /** A batch asks for the addresses of its chunk, one by one. */
  ghost predicate BatchReads(batch: seq<Frame>, c: PingConfig, chunk: seq<IP>) {
    |batch| == |chunk| && forall i :: 0 <= i < |chunk| ==> PingReads(batch[i], c, chunk[i])
  }

  lemma PingIsRead(c: PingConfig, dst: IP)
    requires ValidPing(c) && |dst| == AddressBytes(c.f)
    ensures PingReads(PingFrame(c, dst), c, dst)
  {
    hide LinkReads, IpReads, Sum16, PingFrame, Echo6, PseudoHeader;
    var frame := PingFrame(c, dst);
    PingHeaders(c, dst);
    if c.f.V4? {
      EchoIsRead4(frame);
      Echo4Verifies();
    } else {
      EchoIsRead6(frame, c.src, dst);
      EchoSums6(frame, c.src, dst);
    }
  }

  lemma PingHeaders(c: PingConfig, dst: IP)
    requires ValidPing(c) && |dst| == AddressBytes(c.f)
    ensures var frame := PingFrame(c, dst);
            LinkReads(frame, c.f, c.mac, c.srcMac) && IpReads(frame, c.f, c.src, dst, if c.f.V4? then 1 else 58, 12) &&
            |frame| == (if c.f.V4? then 64 else 66) &&
            frame[Behind(c.f)..] == if c.f.V4? then ECHO4 + PADDING else Echo6(c.src, dst)
  {
    hide IpHeader, IpTemplate, EthernetHeader, LinkReads, IpReads, Echo6;
    var rest := if c.f.V4? then ECHO4 + PADDING else Echo6(c.src, dst);
    HeadersAreRead(c.f, c.mac, c.srcMac, c.src, dst, if c.f.V4? then ICMP4 else ICMP6, ECHO_BYTES, rest);
  }

  lemma EchoSums6(frame: seq<byte>, src: IP, dst: IP)
    requires |src| == |dst| == 16 && IpReads(frame, V6, src, dst, 58, 12) && |frame| == 66 && frame[54..] == Echo6(src, dst)
    ensures Sum16(Summed(frame, V6, 12)) == 0 && Echo6(src, dst)[2..4] != [0, 0]
  {
    hide IpReads, Sum16, PseudoHeader, Echo6, Summed;
    SummedIsSent(frame, V6, src, dst, ICMP6, ECHO_BYTES);
    Echo6Verifies(src, dst);
    var s := PseudoHeader(V6, src, dst, ICMP6, ECHO_BYTES) + Echo6(src, dst);
    assert s + [] == s;
  }

  lemma EchoIsRead4(frame: seq<byte>)
    requires |frame| == 64 && frame[34..] == ECHO4 + PADDING
    ensures frame[34..46] == ECHO4 && frame[34..36] == [8, 0] && frame[38..46] == [0x12, 0x34, 0, 1, 0x50, 0x49, 0x4E, 0x47]
    ensures forall k :: 46 <= k < 64 ==> frame[k] == 0
  {
    var r := frame[34..];
    assert frame[34..46] == r[0..12] == ECHO4;
    assert frame[34..36] == r[0..2] == ECHO4[0..2];
    assert frame[38..46] == r[4..12] == ECHO4[4..12];
    forall k | 46 <= k < 64 ensures frame[k] == 0 {
      assert frame[k] == r[k - 34] == PADDING[k - 46];
    }
  }

  lemma EchoIsRead6(frame: seq<byte>, src: IP, dst: IP)
    requires |frame| == 66 && frame[54..] == Echo6(src, dst)
    ensures frame[54..56] == [128, 0] && frame[58..66] == [0x12, 0x34, 0, 1, 0x50, 0x49, 0x4E, 0x47]
    ensures frame[56..58] == Echo6(src, dst)[2..4]
  {
    hide Sum16, PseudoHeader, U16;
    var r := frame[54..];
    assert frame[54..56] == r[0..2] == r[..2][0..2] == ECHO6[..2][0..2] == ECHO6[0..2];
    assert frame[58..66] == r[4..12] == r[4..] == ECHO6[4..] == ECHO6[4..12];
    assert frame[56..58] == r[2..4];
  }

  /** Different targets get different requests. */
  lemma PingsDiffer(c: PingConfig, dst: IP, dst': IP)
    requires ValidPing(c) && |dst| == |dst'| == AddressBytes(c.f) && dst != dst'
    ensures PingFrame(c, dst) != PingFrame(c, dst')
  {
    hide PingFrame, LinkReads, Sum16;
    PingIsRead(c, dst);
    PingIsRead(c, dst');
  }

  // ---------------------------------------------------------------- sending

  /** Buffers of one chunk and constants shared by all. */
  datatype PingMemory = PingMemory(ip: array<byte>, echo: array<byte>, eth: array<byte>, padding: array<byte>,
                                   scratch: array<byte>)

  ghost predicate ValidPingMemory(c: PingConfig, m: PingMemory, n: nat)
    requires ValidPing(c)
    reads m.eth, m.padding, m.echo
  {
    m.ip.Length == IpHeaderBytes(c.f) * n && m.eth[..] == EthernetHeader(c.f, c.mac, c.srcMac) && m.padding[..] == PADDING &&
    (if c.f.V4? then m.echo[..] == ECHO4 else m.echo.Length == ECHO_BYTES * n) && m.scratch.Length == 40 + ECHO_BYTES &&
    m.ip != m.echo && m.ip != m.eth && m.ip != m.padding && m.ip != m.scratch &&
    m.echo != m.eth && m.echo != m.padding && m.echo != m.scratch && m.scratch != m.eth && m.scratch != m.padding
  }

  /** Queued messages look at the parts of the chunk buffers belonging to the first k addresses. */
  ghost predicate PingBehind(s: Sender, c: PingConfig, m: PingMemory, k: nat)
    reads s
  {
    forall v :: v in s.regions ==> LooksBehind(v, c, m, k)
  }

  predicate LooksBehind(v: Iovec, c: PingConfig, m: PingMemory, k: nat) {
    v.base != m.scratch && (v.base == m.ip ==> v.off + v.len <= k * IpHeaderBytes(c.f)) &&
    (c.f.V6? && v.base == m.echo ==> v.off + v.len <= k * ECHO_BYTES)
  }

  /** The IPv4 header of address k, summed without a carry loop. */
  method BuildPingIp(sender: Sender, c: PingConfig, dst: IP, k: nat, m: PingMemory, n: nat)
    requires ValidPing(c) && |dst| == AddressBytes(c.f) && k < n && ValidPingMemory(c, m, n)
    requires sender.Valid() && PingBehind(sender, c, m, k)
    modifies m.ip
    ensures sender.Valid()
    ensures var h := IpHeaderBytes(c.f);
            k * h + h <= m.ip.Length && m.ip[k * h..k * h + h] == IpHeader(c.f, EchoTemplate(c), dst)
  {
    hide IpTemplate, Sum16, EthernetHeader;
    var h := IpHeaderBytes(c.f);
    var off := k * h;
    PartFits(k, n, h);
    var at := DestinationAt(c.f);
    var template := EchoTemplate(c);
    ghost var before := m.ip[..];
    sender.Store(m.ip, off, template);
    sender.Store(m.ip, off + at, dst);
    SpliceTwice(before, off, template, at, dst);
    if c.f.V4? {
      ghost var header := Splice(template, at, dst);
      assert m.ip[off..off + 20] == Splice(before, off, header)[off..off + 20] == header;
      var checksum := HeaderChecksum(m.ip[off..off + 20]);
      sender.Store(m.ip, off + 10, U16(checksum));
      SpliceTwice(before, off, header, 10, U16(checksum));
    }
    assert m.ip[off..off + h] == Splice(before, off, IpHeader(c.f, template, dst))[off..off + h];
  }

  lemma PartFits(k: nat, n: nat, h: nat)
    requires k < n
    ensures k * h + h <= h * n && (k + 1) * h == k * h + h
  {
    assert h * n == h * (k + 1) + h * (n - k - 1);
  }

  /** The ICMPv6 message of address k, summed behind its pseudo-header in the scratch buffer. */
  method BuildEcho(sender: Sender, c: PingConfig, dst: IP, k: nat, m: PingMemory, n: nat)
    requires ValidPing(c) && c.f.V6? && |dst| == 16 && k < n && ValidPingMemory(c, m, n)
    requires sender.Valid() && PingBehind(sender, c, m, k)
    modifies m.echo, m.scratch
    ensures sender.Valid()
    ensures k * ECHO_BYTES + ECHO_BYTES <= m.echo.Length
    ensures m.echo[k * ECHO_BYTES..k * ECHO_BYTES + ECHO_BYTES] == Echo6(c.src, dst)
  {
    hide Sum16, PseudoHeader, EthernetHeader;
    var off := k * ECHO_BYTES;
    PartFits(k, n, ECHO_BYTES);
    PseudoHeaderEven(V6, c.src, dst, ICMP6, ECHO_BYTES);
    ghost var before := m.echo[..];
    sender.Store(m.echo, off, ECHO6);
    var pseudo := PseudoHeader(V6, c.src, dst, ICMP6, ECHO_BYTES);
    var sum := SumSegment(sender, m.scratch, pseudo, ECHO6, []);
    if sum == 0 {
      sum := 0xFFFF;
    }
    sender.Store(m.echo, off + 2, U16(sum));
    SpliceTwice(before, off, ECHO6, 2, U16(sum));
    assert m.echo[off..off + ECHO_BYTES] == Splice(before, off, Echo6(c.src, dst))[off..off + ECHO_BYTES];
  }

  lemma EthernetBytes(c: PingConfig)
    requires ValidPing(c)
    ensures |EthernetHeader(c.f, c.mac, c.srcMac)| == 14
  {
  }

  lemma FlattenFour<T>(a: seq<T>, b: seq<T>, c: seq<T>, d: seq<T>)
    ensures Flatten([a, b, c]) == a + b + c
    ensures Flatten([a, b, c, d]) == a + b + (c + d)
  {
    FlattenTwo(a, b);
    FlattenTwo(c, d);
    FlattenOne(c);
    assert [a, b, c] == [a, b] + [c];
    FlattenConcat([a, b], [c]);
    assert [a, b, c, d] == [a, b] + [c, d];
    FlattenConcat([a, b], [c, d]);
  }

  /** Builds and queues the echo request for address k of the chunk. */
  method QueuePing(sender: Sender, c: PingConfig, dst: IP, k: nat, m: PingMemory, n: nat)
    requires ValidPing(c) && |dst| == AddressBytes(c.f) && k < n && ValidPingMemory(c, m, n)
    requires sender.Valid() && sender.currentIndex < SLOTS && PingBehind(sender, c, m, k)
    modifies sender, sender.ioVectors, sender.messageHeaders, m.ip, m.scratch, if c.f.V6? then {m.echo} else {}
    ensures sender.Valid() && sender.currentIndex == old(sender.currentIndex) + 1
    ensures ValidPingMemory(c, m, n) && PingBehind(sender, c, m, k + 1)
    ensures sender.State() == Output(old(sender.State()).wire, old(sender.State()).queued + [PingFrame(c, dst)])
  {
    hide IpHeader, IpTemplate, EthernetHeader, Echo6, PingFrame;
    if c.f.V6? {
      BuildEcho(sender, c, dst, k, m, n);
    }
    BuildPingIp(sender, c, dst, k, m, n);
    QueueBuilt(sender, c, dst, k, m, n);
  }

  /** Queues the message whose parts have been built. */
  method QueueBuilt(sender: Sender, c: PingConfig, dst: IP, k: nat, m: PingMemory, n: nat)
    requires ValidPing(c) && |dst| == AddressBytes(c.f) && k < n && ValidPingMemory(c, m, n)
    requires var h := IpHeaderBytes(c.f);
             k * h + h <= m.ip.Length && m.ip[k * h..k * h + h] == IpHeader(c.f, EchoTemplate(c), dst)
    requires c.f.V6? ==> k * ECHO_BYTES + ECHO_BYTES <= m.echo.Length &&
                         m.echo[k * ECHO_BYTES..k * ECHO_BYTES + ECHO_BYTES] == Echo6(c.src, dst)
    requires sender.Valid() && sender.currentIndex < SLOTS && PingBehind(sender, c, m, k)
    modifies sender, sender.ioVectors, sender.messageHeaders
    ensures sender.Valid() && sender.currentIndex == old(sender.currentIndex) + 1
    ensures PingBehind(sender, c, m, k + 1)
    ensures sender.State() == Output(old(sender.State()).wire, old(sender.State()).queued + [PingFrame(c, dst)])
  {
    hide IpHeader, IpTemplate, EthernetHeader, Echo6, EchoTemplate, PingBehind, PingFrame;
    var h := IpHeaderBytes(c.f);
    PartFits(k, n, h);
    PartFits(k, n, ECHO_BYTES);
    EthernetBytes(c);
    PartsArePing(c, dst);
    ghost var before := sender.regions;
    var iovs := [Iovec(m.eth, 0, 14), Iovec(m.ip, k * h, h)] +
      if c.f.V4? then [Iovec(m.echo, 0, ECHO_BYTES), Iovec(m.padding, 0, |PADDING|)]
      else [Iovec(m.echo, k * ECHO_BYTES, ECHO_BYTES)];
    ghost var parts := PingParts(c, dst);
    assert forall j :: 0 <= j < |iovs| ==> Reads(iovs[j], parts[j]);
    StillBehind(sender, c, m, k, n, iovs);
    sender.Queue(iovs, parts);
    NowBehind(sender, before, c, m, k, iovs);
  }

  /** The parts of an echo request, each in memory of its own. */
  function PingParts(c: PingConfig, dst: IP): seq<seq<byte>>
    requires ValidPing(c) && |dst| == AddressBytes(c.f)
  {
    [EthernetHeader(c.f, c.mac, c.srcMac), IpHeader(c.f, EchoTemplate(c), dst)] +
    if c.f.V4? then [ECHO4, PADDING] else [Echo6(c.src, dst)]
  }

  lemma PartsArePing(c: PingConfig, dst: IP)
    requires ValidPing(c) && |dst| == AddressBytes(c.f)
    ensures Flatten(PingParts(c, dst)) == PingFrame(c, dst)
  {
    hide IpHeader, IpTemplate, EthernetHeader, Echo6, EchoTemplate, Flatten;
    var eth, ip := EthernetHeader(c.f, c.mac, c.srcMac), IpHeader(c.f, EchoTemplate(c), dst);
    if c.f.V4? {
      FlattenFour(eth, ip, ECHO4, PADDING);
      assert PingParts(c, dst) == [eth, ip, ECHO4, PADDING];
    } else {
      FlattenFour(eth, ip, Echo6(c.src, dst), []);
      assert PingParts(c, dst) == [eth, ip, Echo6(c.src, dst)];
    }
  }

  lemma StillBehind(s: Sender, c: PingConfig, m: PingMemory, k: nat, n: nat, iovs: seq<Iovec>)
    requires ValidPing(c) && ValidPingMemory(c, m, n) && PingBehind(s, c, m, k)
    requires var h := IpHeaderBytes(c.f);
             iovs == [Iovec(m.eth, 0, 14), Iovec(m.ip, k * h, h)] +
               if c.f.V4? then [Iovec(m.echo, 0, ECHO_BYTES), Iovec(m.padding, 0, |PADDING|)]
               else [Iovec(m.echo, k * ECHO_BYTES, ECHO_BYTES)]
    ensures forall v :: v in s.regions || v in iovs ==> LooksBehind(v, c, m, k + 1)
  {
    var h := IpHeaderBytes(c.f);
    Distribute(k, 1, h);
  }

  lemma NowBehind(s: Sender, before: set<Iovec>, c: PingConfig, m: PingMemory, k: nat, iovs: seq<Iovec>)
    requires s.regions == before + set v | v in iovs
    requires forall v :: v in before || v in iovs ==> LooksBehind(v, c, m, k + 1)
    ensures PingBehind(s, c, m, k + 1)
  {
    hide LooksBehind;
  }

  function PingBatches(c: PingConfig, chunks: seq<seq<IP>>): (r: seq<seq<Frame>>)
    requires forall k :: 0 <= k < |chunks| ==> ValidPingChunk(c, chunks[k])
    ensures |r| == |chunks|
  {
    seq(|chunks|, k requires 0 <= k < |chunks| => PingBatch(c, chunks[k]))
  }

  /** Memory that lives through all chunks; only the scratch buffer is rewritten. */
  ghost predicate ValidShared(c: PingConfig, m: PingMemory)
    requires ValidPing(c)
    reads m.eth, m.padding, m.echo
  {
    m.eth[..] == EthernetHeader(c.f, c.mac, c.srcMac) && m.padding[..] == PADDING && m.echo[..] == ECHO4 &&
    m.scratch.Length == 40 + ECHO_BYTES && m.scratch != m.eth && m.scratch != m.padding && m.scratch != m.echo &&
    m.echo != m.eth && m.echo != m.padding
  }

  /** One chunk: fresh header buffers, one message per address, one submission. */
  method PingChunk(sender: Sender, c: PingConfig, chunk: seq<IP>, shared: PingMemory)
    requires ValidPingChunk(c, chunk) && ValidShared(c, shared)
    requires sender.Valid() && sender.currentIndex == 0
    modifies sender, sender.ioVectors, sender.messageHeaders, shared.scratch
    ensures sender.Valid() && sender.currentIndex == 0 && ValidShared(c, shared)
    ensures sender.State() == Output(old(sender.State()).wire + [PingBatch(c, chunk)], [])
  {
    hide PingFrame, EthernetHeader;
    var ip := new byte[IpHeaderBytes(c.f) * |chunk|](_ => 0);
    var m := shared.(ip := ip);
    if c.f.V6? {
      var echo := new byte[ECHO_BYTES * |chunk|](_ => 0);
      m := m.(echo := echo);
    }
    ghost var wire := sender.wire;
    ghost var batch := PingBatch(c, chunk);
    for k := 0 to |chunk|
      invariant sender.Valid() && sender.currentIndex == k && ValidPingMemory(c, m, |chunk|) && PingBehind(sender, c, m, k)
      invariant ValidShared(c, shared)
      invariant sender.State() == Output(wire, batch[..k])
    {
      TakeNext(batch, k);
      QueuePing(sender, c, chunk[k], k, m, |chunk|);
    }
    TakeAll(batch);
    sender.Flush();
  }

  method AllocateShared(c: PingConfig) returns (m: PingMemory)
    requires ValidPing(c)
    ensures ValidShared(c, m) && fresh(m.scratch)
  {
    EthernetBytes(c);
    var header := EthernetHeader(c.f, c.mac, c.srcMac);
    var eth := new byte[|header|](i requires 0 <= i < |header| => header[i]);
    var padding := new byte[|PADDING|](i requires 0 <= i < |PADDING| => PADDING[i]);
    var echo := new byte[ECHO_BYTES](i requires 0 <= i < ECHO_BYTES => ECHO4[i]);
    var scratch := new byte[40 + ECHO_BYTES](_ => 0);
    assert eth[..] == header && padding[..] == PADDING && echo[..] == ECHO4;
    m := PingMemory(echo, echo, eth, padding, scratch);
  }

  /** One echo request per address, one batch per chunk. */
  method ScanPing(c: PingConfig, chunks: seq<seq<IP>>) returns (sender: Sender)
    requires ValidPing(c) && forall k :: 0 <= k < |chunks| ==> ValidPingChunk(c, chunks[k])
    ensures fresh(sender) && sender.State() == Output(PingBatches(c, chunks), [])
    ensures forall k :: 0 <= k < |chunks| ==> BatchReads(sender.State().wire[k], c, chunks[k])
  {
    hide PingBatch, EthernetHeader, BatchReads;
    BatchesAreRead(c, chunks);
    var shared := AllocateShared(c);
    sender := new Sender();
    ghost var batches := PingBatches(c, chunks);
    for k := 0 to |chunks|
      invariant fresh(sender) && fresh(sender.ioVectors) && fresh(sender.messageHeaders)
      invariant sender.Valid() && sender.currentIndex == 0 && ValidShared(c, shared)
      invariant sender.State() == Output(batches[..k], [])
    {
      TakeNext(batches, k);
      PingChunk(sender, c, chunks[k], shared);
    }
    TakeAll(batches);
    assert sender.State().wire == batches;
  }

  lemma BatchIsRead(c: PingConfig, chunk: seq<IP>)
    requires ValidPingChunk(c, chunk)
    ensures BatchReads(PingBatch(c, chunk), c, chunk)
  {
    hide PingFrame, PingReads;
    forall i | 0 <= i < |chunk| ensures PingReads(PingBatch(c, chunk)[i], c, chunk[i]) { PingIsRead(c, chunk[i]); }
  }

  lemma BatchesAreRead(c: PingConfig, chunks: seq<seq<IP>>)
    requires ValidPing(c) && forall k :: 0 <= k < |chunks| ==> ValidPingChunk(c, chunks[k])
    ensures forall k :: 0 <= k < |chunks| ==> BatchReads(PingBatches(c, chunks)[k], c, chunks[k])
  {
    hide PingBatch, BatchReads;
    forall k | 0 <= k < |chunks| ensures BatchReads(PingBatches(c, chunks)[k], c, chunks[k]) { BatchIsRead(c, chunks[k]); }
  }

  /** Without shuffling, the chunks of an enumerated range hold every address once, so each is pinged once, in order. */
  lemma {:induction false} PingedOnce(c: PingConfig, chunks: seq<seq<IP>>)
    requires ValidPing(c) && forall k :: 0 <= k < |chunks| ==> ValidPingChunk(c, chunks[k])
    ensures forall i :: 0 <= i < |Flatten(chunks)| ==> |Flatten(chunks)[i]| == AddressBytes(c.f)
    ensures Flatten(PingBatches(c, chunks)) ==
            seq(|Flatten(chunks)|, i requires 0 <= i < |Flatten(chunks)| && |Flatten(chunks)[i]| == AddressBytes(c.f) =>
              PingFrame(c, Flatten(chunks)[i]))
    ensures forall i :: 0 <= i < |Flatten(chunks)| ==> PingReads(Flatten(PingBatches(c, chunks))[i], c, Flatten(chunks)[i])
  {
    hide PingFrame, PingReads;
    forall i | 0 <= i < |Flatten(chunks)| && |Flatten(chunks)[i]| == AddressBytes(c.f)
      ensures PingReads(PingFrame(c, Flatten(chunks)[i]), c, Flatten(chunks)[i])
    {
      PingIsRead(c, Flatten(chunks)[i]);
    }
    if chunks != [] {
      PingedOnce(c, chunks[1..]);
      assert PingBatches(c, chunks)[1..] == PingBatches(c, chunks[1..]);
    }
  }
}
