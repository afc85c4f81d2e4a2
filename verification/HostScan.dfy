/**
 Scanning the ports of discovered hosts, behind a gateway or on the link: the Ethernet and IP buffers and
 the transport headers of every probe are allocated once and rewritten for each host.
 */
module HostScan {
  import opened Bytes
  import opened Addresses
  import opened Enumerator
  import opened Frames
  import opened Batch
  import opened Batching
  import opened PortScan

  /** Frames go to a gateway's hardware address, or to the host's own. */
  datatype Link = Gateway(mac: seq<byte>) | Direct

  datatype Config = Config(f: Family, src: IP, srcMac: seq<byte>, link: Link, probes: seq<Probe>, ports: seq<nat>)

  ghost predicate ValidConfig(c: Config) {
    |c.src| == AddressBytes(c.f) && |c.srcMac| == 6 && (c.link.Gateway? ==> |c.link.mac| == 6) &&
    forall t :: 0 <= t < |c.probes| ==> ValidProbe(c.probes[t])
  }

  ghost predicate ValidTarget(c: Config, h: Target) {
    |h.eth| == 6 && |h.ip| == AddressBytes(c.f)
  }

  // ---------------------------------------------------------------- reference output

  function Template(c: Config, t: nat): (r: seq<byte>)
    requires t < |c.probes| && |c.src| == AddressBytes(c.f)
    ensures |r| == IpHeaderBytes(c.f)
  {
    IpTemplate(c.f, c.src, c.probes[t].proto, |c.probes[t].header| + |c.probes[t].payload|)
  }

  function LinkHeader(c: Config, h: Target): seq<byte> {
    EthernetHeader(c.f, if c.link.Gateway? then c.link.mac else h.eth, c.srcMac)
  }

  /** All frames of one host for one probe. */
  function ProbeFrames(c: Config, h: Target, t: nat): (r: seq<Frame>)
    requires ValidConfig(c) && ValidTarget(c, h) && t < |c.probes|
    ensures |r| == |c.ports|
  {
    PortFrames(c.f, c.probes[t], c.src, h.ip, c.ports, LinkHeader(c, h) + IpHeader(c.f, Template(c, t), h.ip))
  }

  /** All frames of one host for the first n probes. */
  function HostFrames(c: Config, h: Target, n: nat): (r: seq<Frame>)
    requires ValidConfig(c) && ValidTarget(c, h) && n <= |c.probes|
    ensures |r| == n * |c.ports|
  {
    if n == 0 then [] else HostFrames(c, h, n - 1) + ProbeFrames(c, h, n - 1)
  }

  /** Fewer frames a host than slots: one batch a host, whatever its size. */
  predicate OneBatchPerHost(c: Config) {
    |c.ports| * |c.probes| < SLOTS
  }

  /** The batches of one host. */
  function BatchesOf(c: Config, h: Target): seq<seq<Frame>>
    requires ValidConfig(c) && ValidTarget(c, h)
  {
    var fs := HostFrames(c, h, |c.probes|);
    if OneBatchPerHost(c) then [fs] else Chunks(fs)
  }

  function HostBatches(c: Config, hosts: seq<Target>): seq<seq<Frame>>
    requires ValidConfig(c) && forall k :: 0 <= k < |hosts| ==> ValidTarget(c, hosts[k])
  {
    if hosts == [] then [] else HostBatches(c, hosts[..|hosts| - 1]) + BatchesOf(c, hosts[|hosts| - 1])
  }

  /** What the general branch would submit for the same hosts. */
  function GeneralBatches(c: Config, hosts: seq<Target>): seq<seq<Frame>>
    requires ValidConfig(c) && forall k :: 0 <= k < |hosts| ==> ValidTarget(c, hosts[k])
  {
    if hosts == [] then []
    else GeneralBatches(c, hosts[..|hosts| - 1]) + Chunks(HostFrames(c, hosts[|hosts| - 1], |c.probes|))
  }

  // ---------------------------------------------------------------- memory

  /** The memory of one probe; the network buffer holds the IP header, behind the Ethernet header on a direct link. */
  datatype Memory = Memory(network: array<byte>, b: Buffers)

  function NetworkOffset(c: Config): nat { if c.link.Gateway? then 0 else 14 }

  function Owned(m: Memory): set<array?<byte>> {
    {m.network, m.b.scratch} + set h | h in m.b.headers
  }

  /** Memory for the first |mem| probes, none of it shared but the read-only payloads and the Ethernet header. */
  ghost predicate PartialMemory(c: Config, mem: seq<Memory>, eth: array<byte>)
    requires ValidConfig(c)
    reads set m | m in mem :: m.b.payload
  {
    |mem| <= |c.probes| && eth.Length == 14 &&
    (forall t :: 0 <= t < |mem| ==> ValidBuffers(mem[t].b, c.f, c.probes[t], |c.ports|)) &&
    (forall t :: 0 <= t < |mem| ==>
       mem[t].network.Length == NetworkOffset(c) + IpHeaderBytes(c.f) && mem[t].network != mem[t].b.scratch &&
       mem[t].network !in mem[t].b.headers && eth !in Owned(mem[t])) &&
    (forall t, u :: 0 <= t < |mem| && 0 <= u < |mem| ==> mem[u].b.payload !in Owned(mem[t])) &&
    forall t, u :: 0 <= t < u < |mem| ==> Owned(mem[t]) !! Owned(mem[u])
  }

  ghost predicate ValidMemory(c: Config, mem: seq<Memory>, eth: array<byte>)
    requires ValidConfig(c)
    reads set m | m in mem :: m.b.payload
  {
    |mem| == |c.probes| && PartialMemory(c, mem, eth)
  }

  /** Memory that messages of the first n probes may be looking at. */
  ghost predicate InUse(base: array?<byte>, mem: seq<Memory>, eth: array<byte>, n: nat) {
    base == eth || (exists t :: 0 <= t < |mem| && base == mem[t].b.payload) ||
    exists t :: 0 <= t < |mem| && t < n && base in Owned(mem[t])
  }

  // ---------------------------------------------------------------- one host

  /** Rewrites the network buffer of one probe for one host and refers to the leading headers. */
  method BuildLead(sender: Sender, c: Config, h: Target, t: nat, m: Memory, eth: array<byte>)
    returns (lead: seq<Iovec>, ghost leadBytes: seq<seq<byte>>)
    requires ValidConfig(c) && ValidTarget(c, h) && t < |c.probes|
    requires m.network.Length == NetworkOffset(c) + IpHeaderBytes(c.f) && eth != m.network && eth.Length == 14
    requires c.link.Gateway? ==> eth[..] == LinkHeader(c, h)
    requires sender.Valid() && sender.Unseen(m.network, 0, m.network.Length)
    modifies m.network
    ensures sender.Valid()
    ensures 1 <= |lead| == |leadBytes| <= 2 && Flatten(leadBytes) == LinkHeader(c, h) + IpHeader(c.f, Template(c, t), h.ip)
    ensures forall j :: 0 <= j < |lead| ==> Reads(lead[j], leadBytes[j]) && (lead[j].base == eth || lead[j].base == m.network)
  {
    hide IpHeader, IpTemplate;
    var header := EthernetHeader(c.f, h.eth, c.srcMac);
    ghost var before := m.network[..];
    if c.link.Direct? {
      sender.Store(m.network, 0, header[0..6]);
      sender.Store(m.network, 6, header[6..14]);
    }
    BuildIp(sender, m.network, NetworkOffset(c), c.f, Template(c, t), h.ip);
    ghost var ip := IpHeader(c.f, Template(c, t), h.ip);
    if c.link.Gateway? {
      SpliceAll(before, ip);
      lead := [Iovec(eth, 0, 14), Iovec(m.network, 0, IpHeaderBytes(c.f))];
      leadBytes := [LinkHeader(c, h), ip];
      FlattenTwo(LinkHeader(c, h), ip);
    } else {
      ScratchFilled(before, header[0..6], header[6..14], ip);
      assert header == header[0..6] + header[6..14];
      lead := [Iovec(m.network, 0, 14 + IpHeaderBytes(c.f))];
      leadBytes := [LinkHeader(c, h) + ip];
      FlattenOne(LinkHeader(c, h) + ip);
    }
  }

  ghost predicate AllInUse(s: Sender, mem: seq<Memory>, eth: array<byte>, n: nat)
    reads s
  {
    forall v :: v in s.regions ==> InUse(v.base, mem, eth, n)
  }

  /** What messages of earlier probes look at is not the memory of this one. */
  lemma NotSeen(s: Sender, c: Config, mem: seq<Memory>, eth: array<byte>, t: nat)
    requires ValidConfig(c) && ValidMemory(c, mem, eth) && t < |mem| && AllInUse(s, mem, eth, t)
    ensures s.Unseen(mem[t].network, 0, mem[t].network.Length) && HeadersFree(s, mem[t].b, 0)
  {
    hide ValidBuffers, ValidConfig;
    forall v | v in s.regions ensures v.base !in Owned(mem[t]) {
      assert InUse(v.base, mem, eth, t);
    }
  }

  lemma LeadFits(c: Config, mem: seq<Memory>, eth: array<byte>, t: nat, lead: seq<Iovec>, bytes: seq<seq<byte>>)
    requires ValidConfig(c) && ValidMemory(c, mem, eth) && t < |mem| && 1 <= |lead| == |bytes| <= 2
    requires forall j :: 0 <= j < |lead| ==> Reads(lead[j], bytes[j]) && (lead[j].base == eth || lead[j].base == mem[t].network)
    ensures ValidLead(lead, bytes, mem[t].b) && ValidBuffers(mem[t].b, c.f, c.probes[t], |c.ports|)
  {
    hide ValidBuffers, ValidConfig, Reads;
    forall i | 0 <= i < |mem[t].b.headers|
      ensures mem[t].b.headers[i] in Owned(mem[t]) && mem[t].b.headers[i] != mem[t].network
    {
      assert mem[t].b.headers[i] in mem[t].b.headers;
    }
  }

  lemma NowInUse(s: Sender, before: set<Iovec>, mem: seq<Memory>, eth: array<byte>, t: nat, lead: seq<Iovec>)
    requires t < |mem| && (forall v :: v in before ==> InUse(v.base, mem, eth, t))
    requires forall j :: 0 <= j < |lead| ==> lead[j].base == eth || lead[j].base == mem[t].network
    requires forall v :: v in s.regions ==> Known(v, before, lead, mem[t].b)
    ensures AllInUse(s, mem, eth, t + 1)
  {
    forall v | v in s.regions ensures InUse(v.base, mem, eth, t + 1) {
      assert Known(v, before, lead, mem[t].b);
    }
  }

  /** Builds the leading headers for one probe and host and queues all ports. */
  method QueueProbe(sender: Sender, c: Config, h: Target, t: nat, mem: seq<Memory>, eth: array<byte>, flushWhenFull: bool)
    requires ValidConfig(c) && ValidTarget(c, h) && t < |c.probes| && ValidMemory(c, mem, eth)
    requires c.link.Gateway? ==> eth[..] == LinkHeader(c, h)
    requires sender.Valid() && AllInUse(sender, mem, eth, t)
    requires if flushWhenFull then sender.currentIndex < SLOTS else sender.currentIndex + |c.ports| <= SLOTS
    modifies sender, sender.ioVectors, sender.messageHeaders, Owned(mem[t])
    ensures sender.Valid() && AllInUse(sender, mem, eth, t + 1)
    ensures ValidMemory(c, mem, eth) && eth[..] == old(eth[..])
    ensures sender.State() == Queued(old(sender.State()), ProbeFrames(c, h, t), flushWhenFull)
    ensures if flushWhenFull then sender.currentIndex < SLOTS
            else sender.currentIndex == old(sender.currentIndex) + |c.ports|
  {
    hide IpHeader, PortFrames, IpTemplate, LinkHeader, Template, Queued, ValidBuffers, HeadersFree, InUse, Known, ValidLead;
    ghost var before := sender.regions;
    NotSeen(sender, c, mem, eth, t);
    var lead, leadBytes := BuildLead(sender, c, h, t, mem[t], eth);
    LeadFits(c, mem, eth, t, lead, leadBytes);
    QueuePorts(sender, c.f, c.probes[t], c.src, h.ip, c.ports, lead, leadBytes, mem[t].b, flushWhenFull);
    NowInUse(sender, before, mem, eth, t, lead);
  }

  lemma FlattenTwo<T>(a: seq<T>, b: seq<T>)
    ensures Flatten([a, b]) == a + b
  {
    assert [a, b] == [a] + [b];
    FlattenConcat([a], [b]);
    FlattenOne(a);
    FlattenOne(b);
  }

  /** All memory that queueing may rewrite. */
  function AllOwned(mem: seq<Memory>): set<array?<byte>> {
    set t, o | 0 <= t < |mem| && o in Owned(mem[t]) :: o
  }

  /** All enabled probes for one host. */
  method QueueHost(sender: Sender, c: Config, h: Target, mem: seq<Memory>, eth: array<byte>, flushWhenFull: bool)
    requires ValidConfig(c) && ValidTarget(c, h) && ValidMemory(c, mem, eth)
    requires c.link.Gateway? ==> eth[..] == LinkHeader(c, h)
    requires sender.Valid() && sender.State().queued == [] && sender.regions == {}
    requires !flushWhenFull ==> OneBatchPerHost(c)
    modifies sender, sender.ioVectors, sender.messageHeaders, AllOwned(mem)
    ensures sender.Valid() && ValidMemory(c, mem, eth)
    ensures c.link.Gateway? ==> eth[..] == old(eth[..])
    ensures sender.State() == Queued(old(sender.State()), HostFrames(c, h, |c.probes|), flushWhenFull)
  {
    hide ProbeFrames, LinkHeader, Queued, ValidBuffers, Owned, ValidProbe;
    ghost var start := sender.State();
    QueuedNothing(start, flushWhenFull);
    for t := 0 to |c.probes|
      invariant sender.Valid() && AllInUse(sender, mem, eth, t)
      invariant ValidMemory(c, mem, eth) && eth[..] == old(eth[..])
      invariant sender.State() == Queued(start, HostFrames(c, h, t), flushWhenFull)
      invariant if flushWhenFull then sender.currentIndex < SLOTS else sender.currentIndex == t * |c.ports|
    {
      if !flushWhenFull { RoomForProbe(t, |c.probes|, |c.ports|); }
      OwnedPart(mem, t);
      QueueProbe(sender, c, h, t, mem, eth, flushWhenFull);
      QueuedConcat(start, HostFrames(c, h, t), ProbeFrames(c, h, t), flushWhenFull);
    }
  }

  lemma OwnedPart(mem: seq<Memory>, t: nat)
    requires t < |mem|
    ensures Owned(mem[t]) <= AllOwned(mem)
  {
  }

  lemma QueuedNothing(o: Output, flushWhenFull: bool)
    ensures Queued(o, [], flushWhenFull) == o
  {
    assert o.queued + [] == o.queued;
  }

  lemma RoomForProbe(t: nat, n: nat, k: nat)
    requires t < n && k * n < SLOTS
    ensures t * k + k <= SLOTS && (t + 1) * k == t * k + k
  {
    MulAtLeast(k + 1, n - t);
    assert k * n == k * t + k * (n - t);
    if k > 0 { MulAtLeast(k, n - t); }
  }

  lemma QueuedConcat(o: Output, a: seq<Frame>, b: seq<Frame>, flushWhenFull: bool)
    ensures Queued(o, a + b, flushWhenFull) == Queued(Queued(o, a, flushWhenFull), b, flushWhenFull)
  {
    RunConcat(o, a, b);
    assert o.queued + (a + b) == o.queued + a + b;
  }

  // ---------------------------------------------------------------- the scan

  /** A transport header array per port, each in memory of its own. */
  method AllocateHeaders(size: nat, n: nat) returns (headers: seq<array<byte>>)
    ensures |headers| == n
    ensures forall i :: 0 <= i < n ==> fresh(headers[i]) && headers[i].Length == size
    ensures forall i, j :: 0 <= i < j < n ==> headers[i] != headers[j]
  {
    headers := [];
    for i := 0 to n
      invariant |headers| == i
      invariant forall k :: 0 <= k < i ==> fresh(headers[k]) && headers[k].Length == size
      invariant forall k, j :: 0 <= k < j < i ==> headers[k] != headers[j]
    {
      var header := new byte[size](_ => 0);
      headers := headers + [header];
    }
  }

  method AllocateBuffers(f: Family, p: Probe, n: nat) returns (b: Buffers)
    ensures ValidBuffers(b, f, p, n)
    ensures fresh(b.scratch) && fresh(b.payload) && forall h :: h in b.headers ==> fresh(h)
  {
    var headers := AllocateHeaders(|p.header|, n);
    var scratch := new byte[(if f.V4? then 12 else 40) + |p.header| + |p.payload|](_ => 0);
    var payload := new byte[|p.payload|](i requires 0 <= i < |p.payload| => p.payload[i]);
    assert payload[..] == p.payload;
    b := Buffers(headers, scratch, payload);
  }

  method AllocateProbe(c: Config, t: nat) returns (m: Memory)
    requires ValidConfig(c) && t < |c.probes|
    ensures ValidBuffers(m.b, c.f, c.probes[t], |c.ports|)
    ensures m.network.Length == NetworkOffset(c) + IpHeaderBytes(c.f)
    ensures m.network != m.b.scratch && m.network !in m.b.headers && m.b.payload !in Owned(m)
    ensures fresh(m.b.payload) && forall o :: o in Owned(m) ==> fresh(o)
  {
    var b := AllocateBuffers(c.f, c.probes[t], |c.ports|);
    var network := new byte[NetworkOffset(c) + IpHeaderBytes(c.f)](_ => 0);
    m := Memory(network, b);
  }

  lemma MemoryGrows(c: Config, mem: seq<Memory>, eth: array<byte>, m: Memory)
    requires ValidConfig(c) && PartialMemory(c, mem, eth) && |mem| < |c.probes|
    requires ValidBuffers(m.b, c.f, c.probes[|mem|], |c.ports|)
    requires m.network.Length == NetworkOffset(c) + IpHeaderBytes(c.f)
    requires m.network != m.b.scratch && m.network !in m.b.headers && m.b.payload !in Owned(m) && eth !in Owned(m)
    requires forall t :: 0 <= t < |mem| ==> Owned(mem[t]) !! Owned(m)
    requires forall t :: 0 <= t < |mem| ==> mem[t].b.payload !in Owned(m) && m.b.payload !in Owned(mem[t])
    ensures PartialMemory(c, mem + [m], eth)
  {
    hide Owned, ValidBuffers;
  }

  /** Memory for one more probe. */
  method AllocateNext(c: Config, mem: seq<Memory>, eth: array<byte>) returns (m: Memory)
    requires ValidConfig(c) && PartialMemory(c, mem, eth) && |mem| < |c.probes|
    ensures PartialMemory(c, mem + [m], eth)
    ensures forall o :: o in Owned(m) ==> fresh(o)
  {
    hide ValidBuffers, PartialMemory;
    m := AllocateProbe(c, |mem|);
    forall u | 0 <= u < |mem| ensures Owned(mem[u]) !! Owned(m) { OwnedPart(mem, u); }
    forall u | 0 <= u < |mem| ensures m.b.payload !in Owned(mem[u]) { OwnedPart(mem, u); }
    MemoryGrows(c, mem, eth, m);
  }

  method Allocate(c: Config, eth: array<byte>) returns (mem: seq<Memory>)
    requires ValidConfig(c) && eth.Length == 14
    ensures ValidMemory(c, mem, eth)
    ensures forall o :: o in AllOwned(mem) ==> fresh(o)
  {
    hide ValidBuffers;
    mem := [];
    for t := 0 to |c.probes|
      invariant |mem| == t && PartialMemory(c, mem, eth)
      invariant forall o :: o in AllOwned(mem) ==> fresh(o)
    {
      var m := AllocateNext(c, mem, eth);
      OwnedGrows(mem, m);
      mem := mem + [m];
    }
  }

  lemma OwnedGrows(mem: seq<Memory>, m: Memory)
    ensures AllOwned(mem + [m]) == AllOwned(mem) + Owned(m)
  {
    hide Owned;
    var all := mem + [m];
    assert all[|mem|] == m;
    forall o | o in AllOwned(mem) ensures o in AllOwned(all) {
      var t :| 0 <= t < |mem| && o in Owned(mem[t]);
      assert all[t] == mem[t];
    }
    forall o | o in AllOwned(all) ensures o in AllOwned(mem) || o in Owned(m) {
      var t :| 0 <= t < |all| && o in Owned(all[t]);
      if t < |mem| { assert all[t] == mem[t]; }
    }
  }

  /** One host: a single batch, or batches of 64 and a shorter last one. */
  method ScanHost(sender: Sender, c: Config, h: Target, mem: seq<Memory>, eth: array<byte>)
    requires ValidConfig(c) && ValidTarget(c, h) && ValidMemory(c, mem, eth)
    requires c.link.Gateway? ==> eth[..] == LinkHeader(c, h)
    requires sender.Valid() && sender.State().queued == []
    modifies sender, sender.ioVectors, sender.messageHeaders, AllOwned(mem)
    ensures sender.Valid() && ValidMemory(c, mem, eth)
    ensures c.link.Gateway? ==> eth[..] == old(eth[..])
    ensures sender.State() == Output(old(sender.State()).wire + BatchesOf(c, h), [])
  {
    hide LinkHeader, HostFrames, Run, Chunks;
    ghost var start := sender.State();
    ghost var fs := HostFrames(c, h, |c.probes|);
    if OneBatchPerHost(c) {
      QueueHost(sender, c, h, mem, eth, false);
      assert sender.State().queued == start.queued + fs == fs;
      sender.Flush();
    } else {
      QueueHost(sender, c, h, mem, eth, true);
      FinishRun(start, fs);
      assert start.queued + fs == fs;
      if sender.currentIndex > 0 {
        sender.Flush();
      }
    }
  }

  /** Scans every host in turn; the branch is chosen once, by the number of frames per host. */
  method ScanPorts(c: Config, hosts: seq<Target>) returns (sender: Sender)
    requires ValidConfig(c) && forall k :: 0 <= k < |hosts| ==> ValidTarget(c, hosts[k])
    ensures fresh(sender) && sender.State() == Output(HostBatches(c, hosts), [])
  {
    hide BatchesOf;
    var mac := if c.link.Gateway? then c.link.mac else [0, 0, 0, 0, 0, 0];
    var header := EthernetHeader(c.f, mac, c.srcMac);
    var eth := new byte[14](i requires 0 <= i < 14 => header[i]);
    assert eth[..] == header;
    var mem := Allocate(c, eth);
    sender := new Sender();
    for k := 0 to |hosts|
      invariant fresh(sender) && fresh(sender.ioVectors) && fresh(sender.messageHeaders)
      invariant sender.Valid() && ValidMemory(c, mem, eth) && (c.link.Gateway? ==> eth[..] == header)
      invariant sender.State() == Output(HostBatches(c, hosts[..k]), [])
    {
      TakeNext(hosts, k);
      ScanHost(sender, c, hosts[k], mem, eth);
    }
    TakeAll(hosts);
  }
}
