/**
 The port-scan senders: they build headers in buffers that are rewritten for every host, queue references
 to them, and flush. Each is held to the frames of module Frames and the batches of module Batching.
 */
module PortScan {
  import opened Bytes
  import opened Addresses
  import opened Checksum
  import opened Enumerator
  import opened Frames
  import opened Batch
  import opened Batching

  // ---------------------------------------------------------------- reference output

  /** The frames for one host and one probe, port by port, behind the given leading headers. */
  function PortFrames(f: Family, p: Probe, src: IP, dst: IP, ports: seq<nat>, lead: seq<byte>): (r: seq<Frame>)
    requires ValidProbe(p)
    ensures |r| == |ports|
  {
    seq(|ports|, i requires 0 <= i < |ports| => lead + TransportHeader(f, p, src, dst, ports[i]) + p.payload)
  }

  // ---------------------------------------------------------------- header building

  lemma SpliceTwice(s: seq<byte>, off: nat, t: seq<byte>, at: nat, u: seq<byte>)
    requires off + |t| <= |s| && at + |u| <= |t|
    ensures Splice(Splice(s, off, t), off + at, u) == Splice(s, off, Splice(t, at, u))
  {
    var x := Splice(s, off, t);
    assert x[..off + at] == s[..off] + t[..at];
    assert x[off + at + |u|..] == t[at + |u|..] + s[off + |t|..];
  }

  lemma SpliceAll(s: seq<byte>, t: seq<byte>)
    requires |s| == |t|
    ensures Splice(s, 0, t) == t
  {
  }

  /** Writes the IP header for one destination at offset off of b. */
  method BuildIp(sender: Sender, b: array<byte>, off: nat, f: Family, template: seq<byte>, dst: IP)
    requires sender.Valid() && off + IpHeaderBytes(f) <= b.Length && sender.Unseen(b, off, off + IpHeaderBytes(f))
    requires |template| == IpHeaderBytes(f) && |dst| == AddressBytes(f)
    modifies b
    ensures sender.Valid()
    ensures b[..] == Splice(old(b[..]), off, IpHeader(f, template, dst))
  {
    var at := DestinationAt(f);
    sender.Store(b, off, template);
    sender.Store(b, off + at, dst);
    ghost var s0 := old(b[..]);
    ghost var h := Splice(template, at, dst);
    SpliceTwice(s0, off, template, at, dst);
    if f.V4? {
      assert b[off..off + 20] == Splice(s0, off, h)[off..off + 20] == h;
      var checksum := ComputeChecksum(b[off..off + 20]);
      sender.Store(b, off + 10, U16(checksum));
      SpliceTwice(s0, off, h, 10, U16(checksum));
    }
  }

  /** Concatenates pseudo-header, header and payload in a scratch buffer and sums them. */
  method SumSegment(sender: Sender, scratch: array<byte>, pseudo: seq<byte>, header: seq<byte>, payload: seq<byte>)
    returns (checksum: nat)
    requires sender.Valid() && sender.Unseen(scratch, 0, scratch.Length)
    requires scratch.Length == |pseudo| + |header| + |payload| <= 131074
    modifies scratch
    ensures sender.Valid()
    ensures checksum == Sum16(pseudo + header + payload)
  {
    sender.Store(scratch, 0, pseudo);
    sender.Store(scratch, |pseudo|, header);
    sender.Store(scratch, |pseudo| + |header|, payload);
    ScratchFilled(old(scratch[..]), pseudo, header, payload);
    checksum := ComputeChecksum(scratch[..]);
  }

  /** Writes one transport header from its template, port and checksum. */
  method BuildTransport(sender: Sender, hdr: array<byte>, scratch: array<byte>, f: Family, p: Probe,
                        src: IP, dst: IP, pseudo: seq<byte>, port: nat)
    requires ValidProbe(p) && |src| == |dst| == AddressBytes(f)
    requires pseudo == PseudoHeader(f, src, dst, p.proto, |p.header| + |p.payload|)
    requires sender.Valid() && hdr != scratch && hdr.Length == |p.header|
    requires scratch.Length == |pseudo| + |p.header| + |p.payload|
    requires sender.Unseen(hdr, 0, hdr.Length) && sender.Unseen(scratch, 0, scratch.Length)
    modifies hdr, scratch
    ensures sender.Valid()
    ensures hdr[..] == TransportHeader(f, p, src, dst, port)
  {
    hide Sum16, PseudoHeader, TransportHeader, TransportSum, Splice, U16;
    SegmentFits(f, p, src, dst);
    ghost var before := hdr[..];
    sender.Store(hdr, 0, p.header);
    SpliceAll(before, p.header);
    sender.Store(hdr, 2, U16(port));
    var header := hdr[..];
    assert header == Unsummed(p, port);
    var checksum := SumSegment(sender, scratch, pseudo, header, p.payload);
    sender.Store(hdr, p.checksumAt, U16(checksum));
    SummedHeader(f, p, src, dst, port, pseudo, checksum);
  }

  lemma SegmentFits(f: Family, p: Probe, src: IP, dst: IP)
    requires ValidProbe(p) && |src| == |dst| == AddressBytes(f)
    ensures |PseudoHeader(f, src, dst, p.proto, |p.header| + |p.payload|)| + |p.header| + |p.payload| <= 131074
  {
    PseudoHeaderEven(f, src, dst, p.proto, |p.header| + |p.payload|);
  }

  lemma SummedHeader(f: Family, p: Probe, src: IP, dst: IP, port: nat, pseudo: seq<byte>, c: nat)
    requires ValidProbe(p) && pseudo == PseudoHeader(f, src, dst, p.proto, |p.header| + |p.payload|)
    requires c == Sum16(pseudo + Unsummed(p, port) + p.payload)
    ensures TransportHeader(f, p, src, dst, port) == Splice(Unsummed(p, port), p.checksumAt, U16(c))
  {
    hide Sum16, PseudoHeader, Unsummed;
  }

  lemma ScratchFilled(s: seq<byte>, a: seq<byte>, b: seq<byte>, c: seq<byte>)
    requires |s| == |a| + |b| + |c|
    ensures Splice(Splice(Splice(s, 0, a), |a|, b), |a| + |b|, c) == a + b + c
  {
    var x := Splice(s, 0, a);
    var y := Splice(x, |a|, b);
    assert x[..|a|] == a;
    assert y[..|a| + |b|] == a + b by {
      assert y == x[..|a|] + b + x[|a| + |b|..];
    }
  }

  // ---------------------------------------------------------------- one probe, all ports

  /** Memory one probe works in: a header per port, a scratch buffer for sums, the payload. */
  datatype Buffers = Buffers(headers: seq<array<byte>>, scratch: array<byte>, payload: array<byte>)

  ghost predicate ValidBuffers(b: Buffers, f: Family, p: Probe, n: nat)
    reads b.payload
  {
    |b.headers| == n && b.payload[..] == p.payload && b.payload != b.scratch &&
    b.scratch.Length == (if f.V4? then 12 else 40) + |p.header| + |p.payload| &&
    (forall i :: 0 <= i < n ==> b.headers[i].Length == |p.header| && b.headers[i] != b.scratch && b.headers[i] != b.payload) &&
    forall i, j :: 0 <= i < j < n ==> b.headers[i] != b.headers[j]
  }

  /** The leading headers are in place, away from the memory of the probe. */
  ghost predicate ValidLead(lead: seq<Iovec>, bytes: seq<seq<byte>>, b: Buffers)
    reads set v | v in lead :: v.base
  {
    1 <= |lead| == |bytes| <= 2 &&
    (forall j :: 0 <= j < |lead| ==> Reads(lead[j], bytes[j]) && lead[j].base != b.scratch) &&
    forall j, i :: 0 <= j < |lead| && 0 <= i < |b.headers| ==> lead[j].base != b.headers[i]
  }

  /** No queued message looks at the scratch buffer, nor at the headers from port i on. */
  ghost predicate HeadersFree(s: Sender, b: Buffers, i: nat)
    reads s
  {
    s.Unseen(b.scratch, 0, b.scratch.Length) &&
    forall k :: i <= k < |b.headers| ==> s.Unseen(b.headers[k], 0, b.headers[k].Length)
  }

  /** Where a region queued by QueuePorts comes from. */
  predicate Known(v: Iovec, before: set<Iovec>, lead: seq<Iovec>, b: Buffers) {
    v in before || v in lead || v.base == b.payload || exists i :: 0 <= i < |b.headers| && v.base == b.headers[i]
  }

  /** The output after queueing, with or without a flush whenever the 64 slots are full. */
  function Queued(o: Output, fs: seq<Frame>, flushWhenFull: bool): Output {
    if flushWhenFull then Run(o, fs) else Extend(o, fs)
  }

  lemma QueuedStep(o: Output, fs: seq<Frame>, i: nat, flushWhenFull: bool)
    requires i < |fs|
    ensures Queued(o, fs[..i + 1], flushWhenFull) ==
            if flushWhenFull then Push(Queued(o, fs[..i], true), fs[i])
            else Output(o.wire, Queued(o, fs[..i], false).queued + [fs[i]])
  {
    RunStep(o, fs, i);
    TakeNext(fs, i);
    assert o.queued + (fs[..i] + [fs[i]]) == o.queued + fs[..i] + [fs[i]];
  }

  lemma FrameOfParts(lead: seq<seq<byte>>, header: seq<byte>, payload: seq<byte>)
    ensures Flatten(lead + [header, payload]) == Flatten(lead) + header + payload
    ensures payload == [] ==> Flatten(lead + [header]) == Flatten(lead) + header + payload
  {
    FlattenConcat(lead, [header, payload]);
    FlattenConcat(lead, [header]);
    FlattenOne(header);
    assert [header, payload] == [header] + [payload];
    FlattenConcat([header], [payload]);
    FlattenOne(payload);
    assert Flatten(lead) + (header + payload) == Flatten(lead) + header + payload;
  }

  /** Builds and queues the message for one port. */
  method QueuePort(sender: Sender, f: Family, p: Probe, src: IP, dst: IP, pseudo: seq<byte>, port: nat,
                   lead: seq<Iovec>, ghost leadBytes: seq<seq<byte>>, b: Buffers, i: nat)
    requires ValidProbe(p) && |src| == |dst| == AddressBytes(f) && i < |b.headers|
    requires pseudo == PseudoHeader(f, src, dst, p.proto, |p.header| + |p.payload|)
    requires ValidBuffers(b, f, p, |b.headers|) && ValidLead(lead, leadBytes, b)
    requires sender.Valid() && sender.currentIndex < SLOTS && HeadersFree(sender, b, i)
    modifies sender, sender.ioVectors, sender.messageHeaders, b.headers[i], b.scratch
    ensures sender.Valid() && sender.currentIndex == old(sender.currentIndex) + 1
    ensures HeadersFree(sender, b, i + 1)
    ensures sender.State() == Output(old(sender.State()).wire, old(sender.State()).queued +
              [Flatten(leadBytes) + TransportHeader(f, p, src, dst, port) + p.payload])
    ensures forall v :: v in sender.regions ==> Known(v, old(sender.regions), lead, b)
  {
    hide PseudoHeader, TransportHeader;
    PseudoHeaderEven(f, src, dst, p.proto, |p.header| + |p.payload|);
    BuildTransport(sender, b.headers[i], b.scratch, f, p, src, dst, pseudo, port);
    QueueBuilt(sender, p, lead, leadBytes, b, i, TransportHeader(f, p, src, dst, port));
  }

  /** Queues leading headers, the built transport header and, if there is one, the payload. */
  method QueueBuilt(sender: Sender, p: Probe, lead: seq<Iovec>, ghost leadBytes: seq<seq<byte>>, b: Buffers, i: nat,
                    ghost header: seq<byte>)
    requires i < |b.headers| && b.headers[i][..] == header && |header| == |p.header| && b.payload[..] == p.payload
    requires ValidLead(lead, leadBytes, b)
    requires sender.Valid() && sender.currentIndex < SLOTS
    modifies sender, sender.ioVectors, sender.messageHeaders
    ensures sender.Valid() && sender.currentIndex == old(sender.currentIndex) + 1
    ensures sender.State() == Output(old(sender.State()).wire, old(sender.State()).queued +
              [Flatten(leadBytes) + header + p.payload])
    ensures forall v :: v in sender.regions ==>
              v in old(sender.regions) || v in lead || v.base == b.payload || v.base == b.headers[i]
  {
    var segment := Iovec(b.headers[i], 0, |p.header|);
    FrameOfParts(leadBytes, header, p.payload);
    if p.payload == [] {
      sender.Queue(lead + [segment], leadBytes + [header]);
    } else {
      sender.Queue(lead + [segment, Iovec(b.payload, 0, |p.payload|)], leadBytes + [header, p.payload]);
    }
  }

  /** The loop over the ports of one probe. */
  method QueuePorts(sender: Sender, f: Family, p: Probe, src: IP, dst: IP, ports: seq<nat>,
                    lead: seq<Iovec>, ghost leadBytes: seq<seq<byte>>, b: Buffers, flushWhenFull: bool)
    requires ValidProbe(p) && |src| == |dst| == AddressBytes(f)
    requires ValidBuffers(b, f, p, |ports|) && ValidLead(lead, leadBytes, b)
    requires sender.Valid() && HeadersFree(sender, b, 0)
    requires if flushWhenFull then sender.currentIndex < SLOTS else sender.currentIndex + |ports| <= SLOTS
    modifies sender, sender.ioVectors, sender.messageHeaders, b.headers, b.scratch
    ensures sender.Valid()
    ensures sender.State() ==
            Queued(old(sender.State()), PortFrames(f, p, src, dst, ports, Flatten(leadBytes)), flushWhenFull)
    ensures if flushWhenFull then sender.currentIndex < SLOTS
            else sender.currentIndex == old(sender.currentIndex) + |ports|
    ensures forall v :: v in sender.regions ==> Known(v, old(sender.regions), lead, b)
  {
    hide PseudoHeader, TransportHeader;
    ghost var start := sender.State();
    ghost var before := sender.regions;
    ghost var frames := PortFrames(f, p, src, dst, ports, Flatten(leadBytes));
    var pseudo := PseudoHeader(f, src, dst, p.proto, |p.header| + |p.payload|);
    assert start == Queued(start, frames[..0], flushWhenFull) by { assert start.queued + [] == start.queued; }
    for i := 0 to |ports|
      invariant sender.Valid() && HeadersFree(sender, b, i)
      invariant ValidBuffers(b, f, p, |ports|) && ValidLead(lead, leadBytes, b)
      invariant sender.State() == Queued(start, frames[..i], flushWhenFull)
      invariant if flushWhenFull then sender.currentIndex < SLOTS
                else sender.currentIndex == old(sender.currentIndex) + i
      invariant forall v :: v in sender.regions ==> Known(v, before, lead, b)
    {
      QueuedStep(start, frames, i, flushWhenFull);
      QueuePort(sender, f, p, src, dst, pseudo, ports[i], lead, leadBytes, b, i);
      if flushWhenFull && sender.currentIndex == SLOTS {
        sender.Flush();
      }
    }
    TakeAll(frames);
  }
}
