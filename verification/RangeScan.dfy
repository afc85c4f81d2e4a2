/**
 Scanning a range without host discovery: one batch array runs across addresses and chunks. The IP headers
 of a chunk share one buffer per probe, each address filling its own part while messages for earlier
 addresses may still be queued; transport headers are allocated anew for every address.
 */
module RangeScan {
  import opened Bytes
  import opened Addresses
  import opened Enumerator
  import opened Frames
  import opened Batch
  import opened Batching
  import opened PortScan
  import opened HostScan
  import opened ScanLaws

  /** A discovered host is not needed behind a gateway; only the address counts. */
  function At(ip: IP): Target {
    Target([0, 0, 0, 0, 0, 0], ip)
  }

  ghost predicate ValidRange(c: Config, ips: seq<IP>) {
    ValidConfig(c) && c.link.Gateway? && forall k :: 0 <= k < |ips| ==> |ips[k]| == AddressBytes(c.f)
  }

  /** All frames of a list of addresses. */
  function RangeFrames(c: Config, ips: seq<IP>): seq<Frame>
    requires ValidRange(c, ips)
  {
    if ips == [] then []
    else RangeFrames(c, ips[..|ips| - 1]) + HostFrames(c, At(ips[|ips| - 1]), |c.probes|)
  }

  lemma {:induction false} RangeFramesConcat(c: Config, a: seq<IP>, b: seq<IP>)
    requires ValidRange(c, a) && ValidRange(c, b)
    ensures ValidRange(c, a + b) && RangeFrames(c, a + b) == RangeFrames(c, a) + RangeFrames(c, b)
  {
    if b == [] {
      assert a + b == a;
    } else {
      var init := b[..|b| - 1];
      assert (a + b)[..|a + b| - 1] == a + init;
      RangeFramesConcat(c, a, init);
    }
  }

  // ---------------------------------------------------------------- memory

  /** One chunk's IP header buffer per probe, and the scratch and payload memory that lives throughout. */
  ghost predicate Separate(ipBufs: seq<array<byte>>, work: seq<Buffers>, eth: array<byte>) {
    |ipBufs| == |work| &&
    (forall t, u :: 0 <= t < u < |ipBufs| ==> ipBufs[t] != ipBufs[u]) &&
    forall t, u :: 0 <= t < |ipBufs| && 0 <= u < |ipBufs| ==>
      ipBufs[t] != work[u].scratch && ipBufs[t] != work[u].payload && ipBufs[t] != eth
  }

  /** Scratch buffers are the senders' own; payloads and the Ethernet header are only read. */
  ghost predicate ValidWork(c: Config, work: seq<Buffers>, eth: array<byte>)
    requires ValidConfig(c)
    reads set b | b in work :: b.payload, eth
  {
    |work| == |c.probes| && eth[..] == LinkHeader(c, At([])) &&
    (forall t :: 0 <= t < |work| ==> ValidBuffers(work[t].(headers := []), c.f, c.probes[t], 0)) &&
    forall t, u :: 0 <= t < |work| && 0 <= u < |work| ==> work[t].scratch != work[u].payload && work[t].scratch != eth
  }

  /** Queued messages look at no scratch buffer and at no more than the first n headers of the chunk buffers. */
  ghost predicate Behind(s: Sender, ipBufs: seq<array<byte>>, work: seq<Buffers>, limit: nat)
    reads s
  {
    forall v, t :: v in s.regions && 0 <= t < |work| ==>
      v.base != work[t].scratch && (t < |ipBufs| && v.base == ipBufs[t] ==> v.off + v.len <= limit)
  }

  // ---------------------------------------------------------------- one address

  /** The IP headers of all probes for address number k of the chunk. */
  method FillHeaders(sender: Sender, c: Config, ip: IP, k: nat, ipBufs: seq<array<byte>>, work: seq<Buffers>, eth: array<byte>)
    requires ValidConfig(c) && |ip| == AddressBytes(c.f) && ValidWork(c, work, eth) && Separate(ipBufs, work, eth)
    requires forall t :: 0 <= t < |ipBufs| ==> (k + 1) * IpHeaderBytes(c.f) <= ipBufs[t].Length
    requires sender.Valid() && Behind(sender, ipBufs, work, k * IpHeaderBytes(c.f))
    modifies ipBufs
    ensures sender.Valid()
    ensures var n := IpHeaderBytes(c.f);
            forall t :: 0 <= t < |ipBufs| ==> ipBufs[t][k * n..k * n + n] == IpHeader(c.f, Template(c, t), ip)
  {
    hide IpHeader, Template;
    var n := IpHeaderBytes(c.f);
    assert (k + 1) * n == k * n + n;
    for t := 0 to |ipBufs|
      invariant sender.Valid()
      invariant forall u :: 0 <= u < t ==> ipBufs[u][k * n..k * n + n] == IpHeader(c.f, Template(c, u), ip)
    {
      BuildIp(sender, ipBufs[t], k * n, c.f, Template(c, t), ip);
    }
  }

  /** Fresh transport headers for one probe and address, queued behind the address's IP header. */
  method QueueProbe(sender: Sender, c: Config, ip: IP, k: nat, t: nat, ipBufs: seq<array<byte>>, work: seq<Buffers>,
                    eth: array<byte>)
    requires ValidConfig(c) && c.link.Gateway? && |ip| == AddressBytes(c.f) && t < |c.probes|
    requires ValidWork(c, work, eth) && Separate(ipBufs, work, eth)
    requires k * IpHeaderBytes(c.f) + IpHeaderBytes(c.f) <= ipBufs[t].Length
    requires var n := IpHeaderBytes(c.f); ipBufs[t][k * n..k * n + n] == IpHeader(c.f, Template(c, t), ip)
    requires sender.Valid() && sender.currentIndex < SLOTS
    requires Behind(sender, ipBufs, work, (k + 1) * IpHeaderBytes(c.f))
    modifies sender, sender.ioVectors, sender.messageHeaders, work[t].scratch
    ensures sender.Valid() && sender.currentIndex < SLOTS && ValidWork(c, work, eth)
    ensures Behind(sender, ipBufs, work, (k + 1) * IpHeaderBytes(c.f))
    ensures sender.State() == Run(old(sender.State()), ProbeFrames(c, At(ip), t))
  {
    hide IpHeader, PortFrames, IpTemplate, Template, Run;
    var n := IpHeaderBytes(c.f);
    assert (k + 1) * n == k * n + n;
    var headers := AllocateHeaders(|c.probes[t].header|, |c.ports|);
    var b := Buffers(headers, work[t].scratch, work[t].payload);
    var lead := [Iovec(eth, 0, 14), Iovec(ipBufs[t], k * n, n)];
    ghost var ipHeader := IpHeader(c.f, Template(c, t), ip);
    FlattenTwo(LinkHeader(c, At(ip)), ipHeader);
    QueuePorts(sender, c.f, c.probes[t], c.src, ip, c.ports, lead, [LinkHeader(c, At(ip)), ipHeader], b, true);
  }

  function Scratches(work: seq<Buffers>): set<array<byte>> {
    set b | b in work :: b.scratch
  }

  /** All probes for one address. */
  method QueueAddress(sender: Sender, c: Config, ip: IP, k: nat, ipBufs: seq<array<byte>>, work: seq<Buffers>,
                      eth: array<byte>)
    requires ValidConfig(c) && c.link.Gateway? && |ip| == AddressBytes(c.f)
    requires ValidWork(c, work, eth) && Separate(ipBufs, work, eth)
    requires forall t :: 0 <= t < |ipBufs| ==> (k + 1) * IpHeaderBytes(c.f) <= ipBufs[t].Length
    requires sender.Valid() && sender.currentIndex < SLOTS && Behind(sender, ipBufs, work, k * IpHeaderBytes(c.f))
    modifies sender, sender.ioVectors, sender.messageHeaders, Scratches(work), ipBufs
    ensures sender.Valid() && sender.currentIndex < SLOTS && ValidWork(c, work, eth)
    ensures Behind(sender, ipBufs, work, (k + 1) * IpHeaderBytes(c.f))
    ensures sender.State() == Run(old(sender.State()), HostFrames(c, At(ip), |c.probes|))
  {
    hide ProbeFrames, IpHeader, Template, Run, ValidBuffers;
    ghost var start := sender.State();
    ghost var n := IpHeaderBytes(c.f);
    FillHeaders(sender, c, ip, k, ipBufs, work, eth);
    MoveOn(sender, ipBufs, work, k, n);
    RunNothing(start);
    for t := 0 to |c.probes|
      invariant sender.Valid() && sender.currentIndex < SLOTS && ValidWork(c, work, eth)
      invariant Behind(sender, ipBufs, work, (k + 1) * n)
      invariant forall u :: 0 <= u < |ipBufs| ==> ipBufs[u][k * n..k * n + n] == IpHeader(c.f, Template(c, u), ip)
      invariant sender.State() == Run(start, HostFrames(c, At(ip), t))
    {
      QueueProbe(sender, c, ip, k, t, ipBufs, work, eth);
      RunConcat(start, HostFrames(c, At(ip), t), ProbeFrames(c, At(ip), t));
    }
  }

  lemma RunNothing(o: Output)
    ensures Run(o, []) == o
  {
  }

  lemma MoveOn(s: Sender, ipBufs: seq<array<byte>>, work: seq<Buffers>, k: nat, n: nat)
    requires Behind(s, ipBufs, work, k * n)
    ensures (k + 1) * n == k * n + n && Behind(s, ipBufs, work, (k + 1) * n)
  {
  }

  /** One chunk: fresh IP header buffers, then address by address. */
  method ScanChunk(sender: Sender, c: Config, chunk: seq<IP>, work: seq<Buffers>, eth: array<byte>)
    requires ValidRange(c, chunk) && ValidWork(c, work, eth)
    requires sender.Valid() && sender.currentIndex < SLOTS && Behind(sender, [], work, 0)
    modifies sender, sender.ioVectors, sender.messageHeaders, Scratches(work)
    ensures sender.Valid() && sender.currentIndex < SLOTS && ValidWork(c, work, eth)
    ensures Behind(sender, [], work, 0)
    ensures sender.State() == Run(old(sender.State()), RangeFrames(c, chunk))
  {
    hide HostFrames, Run, ValidBuffers;
    ghost var n := IpHeaderBytes(c.f);
    var ipBufs := AllocateHeaders(IpHeaderBytes(c.f) * |chunk|, |c.probes|);
    ghost var start := sender.State();
    RunNothing(start);
    for k := 0 to |chunk|
      invariant sender.Valid() && sender.currentIndex < SLOTS && ValidWork(c, work, eth)
      invariant Behind(sender, ipBufs, work, k * n)
      invariant sender.State() == Run(start, RangeFrames(c, chunk[..k]))
    {
      TakeNext(chunk, k);
      FitsChunk(k, |chunk|, n);
      QueueAddress(sender, c, chunk[k], k, ipBufs, work, eth);
      RunConcat(start, RangeFrames(c, chunk[..k]), HostFrames(c, At(chunk[k]), |c.probes|));
    }
    TakeAll(chunk);
  }

  lemma FitsChunk(k: nat, m: nat, n: nat)
    requires k < m
    ensures (k + 1) * n <= n * m
  {
    assert n * m == n * (k + 1) + n * (m - k - 1);
  }

  // ---------------------------------------------------------------- the scan

  method AllocateWork(c: Config, eth: array<byte>) returns (work: seq<Buffers>)
    requires ValidConfig(c) && eth.Length == 14 && eth[..] == LinkHeader(c, At([]))
    ensures ValidWork(c, work, eth) && forall b :: b in Scratches(work) ==> fresh(b)
  {
    hide LinkHeader, ValidBuffers;
    work := [];
    for t := 0 to |c.probes|
      invariant |work| == t && eth[..] == LinkHeader(c, At([]))
      invariant forall u :: 0 <= u < t ==> ValidBuffers(work[u].(headers := []), c.f, c.probes[u], 0)
      invariant forall u, r :: 0 <= u < t && 0 <= r < t ==> work[u].scratch != work[r].payload && work[u].scratch != eth
      invariant forall u :: 0 <= u < t ==> fresh(work[u].scratch)
    {
      var b := AllocateBuffers(c.f, c.probes[t], 0);
      assert b == b.(headers := []) by { EmptyHeaders(b, c.f, c.probes[t]); }
      work := work + [b];
    }
  }

  lemma EmptyHeaders(b: Buffers, f: Family, p: Probe)
    requires ValidBuffers(b, f, p, 0)
    ensures b == b.(headers := [])
  {
  }

  ghost predicate ValidChunks(c: Config, chunks: seq<seq<IP>>) {
    forall k :: 0 <= k < |chunks| ==> ValidRange(c, chunks[k])
  }

  lemma {:induction false} FlatRange(c: Config, chunks: seq<seq<IP>>)
    requires ValidConfig(c) && c.link.Gateway? && ValidChunks(c, chunks)
    ensures ValidRange(c, Flatten(chunks))
  {
    if chunks != [] { FlatRange(c, chunks[1..]); }
  }

  /** Every batch but the last has 64 messages, whatever the chunks and the number of ports. */
  method ScanWithoutDiscovery(c: Config, chunks: seq<seq<IP>>) returns (sender: Sender)
    requires ValidConfig(c) && c.link.Gateway? && ValidChunks(c, chunks)
    ensures fresh(sender) && ValidRange(c, Flatten(chunks))
    ensures sender.State() == Output(Chunks(RangeFrames(c, Flatten(chunks))), [])
  {
    hide Run, Chunks, RangeFrames;
    var header := EthernetHeader(c.f, c.link.mac, c.srcMac);
    var eth := new byte[14](i requires 0 <= i < 14 => header[i]);
    assert eth[..] == header;
    var work := AllocateWork(c, eth);
    sender := new Sender();
    ghost var none := Output([], []);
    FlatRange(c, chunks);
    StartRange(c);
    for k := 0 to |chunks|
      invariant fresh(sender) && fresh(sender.ioVectors) && fresh(sender.messageHeaders)
      invariant sender.Valid() && sender.currentIndex < SLOTS && ValidWork(c, work, eth) && Behind(sender, [], work, 0)
      invariant ValidRange(c, Flatten(chunks[..k]))
      invariant sender.State() == Run(none, RangeFrames(c, Flatten(chunks[..k])))
    {
      ScanChunk(sender, c, chunks[k], work, eth);
      FlattenStep(chunks, k);
      RangeFramesConcat(c, Flatten(chunks[..k]), chunks[k]);
      RunConcat(none, RangeFrames(c, Flatten(chunks[..k])), RangeFrames(c, chunks[k]));
    }
    TakeAll(chunks);
    FinishRun(none, RangeFrames(c, Flatten(chunks)));
    if sender.currentIndex > 0 {
      sender.Flush();
    }
    NoneBefore(RangeFrames(c, Flatten(chunks)));
  }

  lemma StartRange(c: Config)
    requires ValidConfig(c) && c.link.Gateway?
    ensures ValidRange(c, []) && RangeFrames(c, []) == [] && Run(Output([], []), []) == Output([], [])
  {
  }

  lemma NoneBefore(fs: seq<Frame>)
    ensures [] + fs == fs && [] + Chunks(fs) == Chunks(fs)
  {
  }

  lemma FlattenStep<T>(ss: seq<seq<T>>, k: nat)
    requires k < |ss|
    ensures Flatten(ss[..k + 1]) == Flatten(ss[..k]) + ss[k]
  {
    TakeNext(ss, k);
    FlattenConcat(ss[..k], [ss[k]]);
    FlattenOne(ss[k]);
  }

  /** Everything submitted, in order, is the frames of all addresses; batches are full up to the last. */
  lemma SubmittedOnce(c: Config, ips: seq<IP>)
    requires ValidRange(c, ips)
    ensures Flatten(Chunks(RangeFrames(c, ips))) == RangeFrames(c, ips)
    ensures forall k :: 0 <= k < |Chunks(RangeFrames(c, ips))| - 1 ==> |Chunks(RangeFrames(c, ips))[k]| == SLOTS
    ensures |RangeFrames(c, ips)| == |ips| * (|c.probes| * |c.ports|)
  {
    ChunksKeepEverything(RangeFrames(c, ips));
    RangeFramesLength(c, ips);
  }

  lemma {:induction false} RangeFramesLength(c: Config, ips: seq<IP>)
    requires ValidRange(c, ips)
    ensures |RangeFrames(c, ips)| == |ips| * (|c.probes| * |c.ports|)
  {
    hide HostFrames;
    if ips != [] {
      RangeFramesLength(c, ips[..|ips| - 1]);
      Distribute(|ips| - 1, 1, |c.probes| * |c.ports|);
    }
  }

  /** Position ((a * probes) + t) * ports + i holds the frame of address a, probe t and port i. */
  lemma {:induction false} RangeFrameAt(c: Config, ips: seq<IP>, a: nat, t: nat, i: nat)
    requires ValidRange(c, ips) && a < |ips| && t < |c.probes| && i < |c.ports|
    ensures 0 <= a * (|c.probes| * |c.ports|) + (t * |c.ports| + i) < |RangeFrames(c, ips)|
    ensures RangeFrames(c, ips)[a * (|c.probes| * |c.ports|) + (t * |c.ports| + i)] == FrameFor(c, At(ips[a]), t, i)
  {
    hide HostFrames, FrameFor;
    var init := ips[..|ips| - 1];
    RangeFramesLength(c, init);
    FrameAt(c, At(ips[a]), |c.probes|, t, i);
    if a < |init| {
      RangeFrameAt(c, init, a, t, i);
    }
  }
}
