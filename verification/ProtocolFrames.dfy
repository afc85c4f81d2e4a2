/**
 The goroutine protocol with what its steps put on the wire: a probe step submits the next batch of a range's
 prober, a scan step all batches of one host, a sweep step the frames of one chunk.
 */
module ProtocolFrames {
  import opened Bytes
  import opened Addresses
  import opened Enumerator
  import opened Frames
  import opened Reading
  import opened Batch
  import opened Batching
  import opened HostScan
  import opened Protocol
  import opened ProtocolSafety
  import opened ProtocolRuns
  import R = RangeScan
  import P = Ping
  import A = Arp
  import L = ScanLaws

  /** Echo requests, ARP requests, or one multicast request that a library builds. */
  datatype Probing = Echo(ping: P.PingConfig) | WhoHas(arp: A.ArpConfig) | Multicast(request: Frame)

  /** How one range probes and scans, and the chunks of addresses its enumerator sends. */
  datatype Wiring = Wiring(probing: Probing, ports: Config, chunks: seq<seq<IP>>)

  ghost predicate ValidProbing(p: Probing, f: Family) {
    match p
    case Echo(ping) => P.ValidPing(ping) && ping.f == f
    case WhoHas(arp) => A.ValidArp(arp) && f.V4?
    case Multicast(_) => false
  }

  /** The chunks are those of the range, possibly shuffled, and hosts reply with addresses of its family. */
  ghost predicate Wired(c: Range, x: Wiring) {
    var w := AddressBytes(x.ports.f);
    ValidConfig(x.ports) && Enumerator.ValidRange(c.start, c.end, w) &&
    Shuffled(x.chunks, Slices(Lower(c.start, c.end), Upper(c.start, c.end), w)) &&
    (forall k :: 0 <= k < |c.hostPackets| && c.hostPackets[k].Some? ==> ValidTarget(x.ports, c.hostPackets[k].value)) &&
    match c.kind
    case Ping => ValidProbing(x.probing, x.ports.f) && c.chunks == |x.chunks|
    case Neighbours => x.probing.Multicast? && c.chunks == 1
    case Direct => x.ports.link.Gateway? && c.chunks == |x.chunks|
  }

  // ---------------------------------------------------------------- chunks

  lemma SameMembers(s: seq<IP>, t: seq<IP>)
    requires multiset(s) == multiset(t)
    ensures |s| == |t| && forall ip :: ip in s <==> ip in t
  {
    assert |multiset(s)| == |s| && |multiset(t)| == |t|;
    assert forall ip :: ip in s <==> ip in multiset(s);
    assert forall ip :: ip in t <==> ip in multiset(t);
  }

  /** Every chunk has at most 64 addresses of the family's width, and none but the last has fewer. */
  lemma ChunksValid(c: Range, x: Wiring)
    requires Wired(c, x)
    ensures forall k :: 0 <= k < |x.chunks| ==> 0 < |x.chunks[k]| <= SLOTS && (k < |x.chunks| - 1 ==> |x.chunks[k]| == SLOTS)
    ensures forall k, j :: 0 <= k < |x.chunks| && 0 <= j < |x.chunks[k]| ==> |x.chunks[k][j]| == AddressBytes(x.ports.f)
  {
    hide Slices, Lower, Upper, ToBytes;
    var w := AddressBytes(x.ports.f);
    var slices := Slices(Lower(c.start, c.end), Upper(c.start, c.end), w);
    SliceSizes(Lower(c.start, c.end), Upper(c.start, c.end), w);
    SliceAddresses(Lower(c.start, c.end), Upper(c.start, c.end), w);
    forall k | 0 <= k < |x.chunks|
      ensures |x.chunks[k]| == |slices[k]| && forall j :: 0 <= j < |x.chunks[k]| ==> |x.chunks[k][j]| == w
    {
      SameMembers(x.chunks[k], slices[k]);
      forall j | 0 <= j < |x.chunks[k]| ensures |x.chunks[k][j]| == w {
        assert x.chunks[k][j] in x.chunks[k];
      }
    }
  }

  /** The same, in the terms of the senders. */
  lemma ChunksFit(c: Range, x: Wiring)
    requires Wired(c, x)
    ensures c.kind.Ping? && x.probing.Echo? ==> forall k :: 0 <= k < |x.chunks| ==> P.ValidPingChunk(x.probing.ping, x.chunks[k])
    ensures c.kind.Ping? && x.probing.WhoHas? ==> A.Enumerated(x.chunks)
    ensures c.kind.Direct? ==> R.ValidChunks(x.ports, x.chunks) && R.ValidRange(x.ports, Flatten(x.chunks))
  {
    ChunksValid(c, x);
    hide Shuffled, Slices;
    if c.kind.Direct? { R.FlatRange(x.ports, x.chunks); }
  }

  // ---------------------------------------------------------------- what is to be sent

  /** All batches of a range's prober. */
  ghost function ProbeBatches(c: Range, x: Wiring): seq<seq<Frame>>
    requires Wired(c, x)
  {
    ChunksFit(c, x);
    match c.kind
    case Ping => if x.probing.Echo? then P.PingBatches(x.probing.ping, x.chunks) else A.Wire(x.probing.arp, x.chunks)
    case Neighbours => [[x.probing.request]]
    case Direct => []
  }

  lemma {:induction false} WireLength(c: A.ArpConfig, chunks: seq<seq<IP>>)
    requires A.ValidArp(c) && A.ValidChunks(chunks)
    ensures |A.Wire(c, chunks)| == |chunks|
  {
    hide A.Submitted, A.SlotsAfter;
    if chunks != [] { WireLength(c, chunks[..|chunks| - 1]); }
  }

  lemma ProbeCount(c: Range, x: Wiring)
    requires Wired(c, x)
    ensures |ProbeBatches(c, x)| == if c.kind.Direct? then 0 else c.chunks
  {
    ChunksFit(c, x);
    if c.kind.Ping? && x.probing.WhoHas? { WireLength(x.probing.arp, x.chunks); }
  }

  lemma ReportedIsValid(c: Range, x: Wiring, l: Local)
    requires Wired(c, x) && Inv(c, l)
    ensures L.ValidTargets(x.ports, l.d.reported)
  {
    hide ValidTarget, JointInv, PacketInv, ProberInv, PortInv;
    forall k | 0 <= k < |l.d.reported| ensures ValidTarget(x.ports, l.d.reported[k]) {
      ReportedInRange(c, l.d, k);
    }
  }

  /** Hosts scanned, and the host being scanned, replied with a valid address. */
  lemma ScannedIsValid(c: Range, x: Wiring, l: Local)
    requires Wired(c, x) && Inv(c, l)
    ensures L.ValidTargets(x.ports, l.q.scanned) && (l.q.s.Scanning? ==> ValidTarget(x.ports, l.q.s.host))
  {
    hide ValidTarget, PacketInv, ProberInv, PortInv, Wired;
    ReportedIsValid(c, x, l);
    var flow := l.q.scanned + InScan(l.q) + l.queue + InForward(l.d);
    assert l.d.reported == flow;
    forall k | 0 <= k < |l.q.scanned| ensures ValidTarget(x.ports, l.q.scanned[k]) { assert l.q.scanned[k] == flow[k]; }
    if l.q.s.Scanning? { assert l.q.s.host == flow[|l.q.scanned|]; }
  }

  // ---------------------------------------------------------------- what a step sends

  ghost function ProbeSent(c: Range, x: Wiring, l: Local, sh: Shared, wire: seq<seq<Frame>>, a: DiscoveryStep): seq<seq<Frame>>
    requires Wired(c, x) && Inv(c, l) && CanDiscover(c, l, sh, a)
  {
    ProbeCount(c, x);
    if a.Probe? then wire + [ProbeBatches(c, x)[l.d.probes]] else wire
  }

  ghost function PortSent(c: Range, x: Wiring, l: Local, sh: Shared, o: Output, b: PortStep): Output
    requires Wired(c, x) && Inv(c, l) && CanScan(c, l, sh, b)
  {
    ScannedIsValid(c, x, l);
    ChunksFit(c, x);
    match b
    case Scan => Output(o.wire + BatchesOf(x.ports, l.q.s.host), o.queued)
    case Sweep => Run(o, R.RangeFrames(x.ports, x.chunks[l.q.swept]))
    case EndSweep => Finish(o)
    case _ => o
  }

  // ---------------------------------------------------------------- what has been sent

  /** The probes sent so far are the first batches, in order. */
  ghost predicate Probed(c: Range, x: Wiring, l: Local, wire: seq<seq<Frame>>)
    requires Wired(c, x)
  {
    l.d.probes <= |ProbeBatches(c, x)| && wire == ProbeBatches(c, x)[..l.d.probes]
  }

  /** The port frames sent so far are those of the hosts scanned, in order, or of the chunks swept. */
  ghost predicate PortsSent(c: Range, x: Wiring, l: Local, o: Output)
    requires Wired(c, x) && Inv(c, l)
  {
    ScannedIsValid(c, x, l);
    ChunksFit(c, x);
    if !c.kind.Direct? then o == Output(HostBatches(x.ports, l.q.scanned), [])
    else if l.q.s.SSignal? || l.q.s.SReturn? then o == Output(Chunks(R.RangeFrames(x.ports, Flatten(x.chunks))), [])
    else l.q.swept <= |x.chunks| && R.ValidRange(x.ports, Flatten(x.chunks[..l.q.swept])) &&
         o == Run(Output([], []), R.RangeFrames(x.ports, Flatten(x.chunks[..l.q.swept])))
  }

  lemma ProbeKeeps(c: Range, x: Wiring, l: Local, sh: Shared, wire: seq<seq<Frame>>, a: DiscoveryStep)
    requires Wired(c, x) && Inv(c, l) && CanDiscover(c, l, sh, a) && Probed(c, x, l, wire)
    ensures Probed(c, x, Discover(c, l, sh, a), ProbeSent(c, x, l, sh, wire, a))
  {
    hide Wired, ProbeBatches, ReportInv, JointInv, PortInv, ProberChannels;
    ProbeCount(c, x);
    if a.Probe? { TakeNext(ProbeBatches(c, x), l.d.probes); }
  }

  lemma HostSent(c: Range, x: Wiring, l: Local, sh: Shared, o: Output)
    requires Wired(c, x) && Inv(c, l) && CanScan(c, l, sh, Scan) && PortsSent(c, x, l, o) && !c.kind.Direct?
    requires Inv(c, ScanStep(c, l, sh, Scan))
    ensures PortsSent(c, x, ScanStep(c, l, sh, Scan), PortSent(c, x, l, sh, o, Scan))
  {
    hide Wired, Inv, BatchesOf, ValidTarget;
    ScannedIsValid(c, x, l);
    ScannedIsValid(c, x, ScanStep(c, l, sh, Scan));
    var hosts := l.q.scanned + [l.q.s.host];
    assert hosts[..|hosts| - 1] == l.q.scanned;
  }

  lemma ChunkSwept(c: Range, x: Wiring, l: Local, sh: Shared, o: Output)
    requires Wired(c, x) && Inv(c, l) && CanScan(c, l, sh, Sweep) && PortsSent(c, x, l, o) && c.kind.Direct?
    requires Inv(c, ScanStep(c, l, sh, Sweep))
    ensures PortsSent(c, x, ScanStep(c, l, sh, Sweep), PortSent(c, x, l, sh, o, Sweep))
  {
    hide ValidConfig, DiscoveryInv, JointInv, ScannerInv, ScannerChannels, R.RangeFrames, Run, Shuffled;
    var k := l.q.swept;
    ChunksFit(c, x);
    R.FlattenStep(x.chunks, k);
    R.RangeFramesConcat(x.ports, Flatten(x.chunks[..k]), x.chunks[k]);
    RunConcat(Output([], []), R.RangeFrames(x.ports, Flatten(x.chunks[..k])), R.RangeFrames(x.ports, x.chunks[k]));
  }

  lemma SweepEnded(c: Range, x: Wiring, l: Local, sh: Shared, o: Output)
    requires Wired(c, x) && Inv(c, l) && CanScan(c, l, sh, EndSweep) && PortsSent(c, x, l, o) && c.kind.Direct?
    requires Inv(c, ScanStep(c, l, sh, EndSweep))
    ensures PortsSent(c, x, ScanStep(c, l, sh, EndSweep), PortSent(c, x, l, sh, o, EndSweep))
  {
    hide ValidConfig, DiscoveryInv, JointInv, ScannerInv, ScannerChannels, R.RangeFrames, Run, Chunks, Shuffled;
    ChunksFit(c, x);
    TakeAll(x.chunks);
    var fs := R.RangeFrames(x.ports, Flatten(x.chunks));
    FinishRun(Output([], []), fs);
    R.NoneBefore(fs);
  }

  lemma NothingSent(c: Range, x: Wiring)
    requires Wired(c, x) && Inv(c, Start(c))
    ensures Probed(c, x, Start(c), []) && PortsSent(c, x, Start(c), Output([], []))
  {
    hide Inv, ProbeBatches, Shuffled;
    if c.kind.Direct? { R.StartRange(x.ports); }
  }

  lemma PortsKeep(c: Range, x: Wiring, l: Local, sh: Shared, o: Output, b: PortStep)
    requires Wired(c, x) && Inv(c, l) && CanScan(c, l, sh, b) && PortsSent(c, x, l, o)
    requires Inv(c, ScanStep(c, l, sh, b))
    ensures PortsSent(c, x, ScanStep(c, l, sh, b), PortSent(c, x, l, sh, o, b))
  {
    if b.Scan? {
      ScanIsNotDirect(c, l, sh, b);
      HostSent(c, x, l, sh, o);
    } else if b.Sweep? {
      ScanIsNotDirect(c, l, sh, b);
      ChunkSwept(c, x, l, sh, o);
    } else if b.EndSweep? {
      ScanIsNotDirect(c, l, sh, b);
      SweepEnded(c, x, l, sh, o);
    } else {
      NothingMore(c, l, sh, b);
    }
  }

  lemma ScanIsNotDirect(c: Range, l: Local, sh: Shared, b: PortStep)
    requires Inv(c, l) && CanScan(c, l, sh, b)
    ensures (b.Scan? ==> !c.kind.Direct?) && (b.Sweep? || b.EndSweep? ==> c.kind.Direct?)
  {
  }

  lemma NothingMore(c: Range, l: Local, sh: Shared, b: PortStep)
    requires Inv(c, l) && CanScan(c, l, sh, b) && !b.Scan? && !b.Sweep? && !b.EndSweep?
    ensures var y := Scanned(c, l, sh, b);
            y.scanned == l.q.scanned && y.swept == l.q.swept &&
            (c.kind.Direct? ==> ((y.s.SSignal? || y.s.SReturn?) <==> (l.q.s.SSignal? || l.q.s.SReturn?)))
  {
  }

  // ---------------------------------------------------------------- runs

  /** What is out after one more step of a run. */
  ghost function ProbeNext(cs: seq<Range>, x: Wiring, sts: seq<State>, acts: seq<Action>, i: nat, k: nat,
                           wire: seq<seq<Frame>>): seq<seq<Frame>>
    requires IsRun(cs, sts, acts) && i < |cs| && Wired(cs[i], x) && k < |acts|
  {
    StepOfRun(cs, sts, acts, k, i);
    if acts[k].Hosts? && acts[k].i == i then ProbeSent(cs[i], x, sts[k].ranges[i], sts[k].shared, wire, acts[k].a)
    else wire
  }

  ghost function PortNext(cs: seq<Range>, x: Wiring, sts: seq<State>, acts: seq<Action>, i: nat, k: nat, o: Output): Output
    requires IsRun(cs, sts, acts) && i < |cs| && Wired(cs[i], x) && k < |acts|
  {
    StepOfRun(cs, sts, acts, k, i);
    if acts[k].Ports? && acts[k].i == i then PortSent(cs[i], x, sts[k].ranges[i], sts[k].shared, o, acts[k].b)
    else o
  }

  /** The batches a range's prober has submitted after k steps of a run. */
  ghost function ProbeWire(cs: seq<Range>, x: Wiring, sts: seq<State>, acts: seq<Action>, i: nat, k: nat): seq<seq<Frame>>
    requires IsRun(cs, sts, acts) && i < |cs| && Wired(cs[i], x) && k <= |acts|
  {
    if k == 0 then [] else ProbeNext(cs, x, sts, acts, i, k - 1, ProbeWire(cs, x, sts, acts, i, k - 1))
  }

  /** What a range's port scanner has submitted and queued after k steps of a run. */
  ghost function PortWire(cs: seq<Range>, x: Wiring, sts: seq<State>, acts: seq<Action>, i: nat, k: nat): Output
    requires IsRun(cs, sts, acts) && i < |cs| && Wired(cs[i], x) && k <= |acts|
  {
    if k == 0 then Output([], []) else PortNext(cs, x, sts, acts, i, k - 1, PortWire(cs, x, sts, acts, i, k - 1))
  }

  /** What one step of a run is for one range. */
  lemma StepOfRun(cs: seq<Range>, sts: seq<State>, acts: seq<Action>, k: nat, i: nat)
    requires IsRun(cs, sts, acts) && k < |acts| && i < |cs|
    ensures |sts| == |acts| + 1 && |sts[k].ranges| == |cs| == |sts[k + 1].ranges|
    ensures var act, l, l', sh := acts[k], sts[k].ranges[i], sts[k + 1].ranges[i], sts[k].shared;
            Inv(cs[i], l) && Inv(cs[i], l') &&
            if act.Hosts? && act.i == i then
              CanDiscover(cs[i], l, sh, act.a) && l' == Discover(cs[i], l, sh, act.a) && l'.q == l.q
            else if act.Ports? && act.i == i then
              CanScan(cs[i], l, sh, act.b) && l' == ScanStep(cs[i], l, sh, act.b) && l'.d == l.d
            else l'.d == l.d && l'.q == l.q
  {
    hide Inv, AnswerInv, CanDiscover, CanScan, Discovered, Scanned, DiscoverySends, PortSends, SharedInv, HostsOf, PortsOf;
    RunInv(cs, sts, acts, k);
    RunInv(cs, sts, acts, k + 1);
    assert Takes(cs, sts[k], acts[k], sts[k + 1]);
  }

  lemma AtStart(cs: seq<Range>, x: Wiring, sts: seq<State>, acts: seq<Action>, i: nat)
    requires IsRun(cs, sts, acts) && i < |cs| && Wired(cs[i], x)
    ensures |sts[0].ranges| == |cs| && sts[0].ranges[i] == Start(cs[i]) && Inv(cs[i], Start(cs[i]))
    ensures Probed(cs[i], x, Start(cs[i]), []) && PortsSent(cs[i], x, Start(cs[i]), Output([], []))
  {
    hide Wired, Inv, Probed, PortsSent, Takes, Start;
    StartInv(cs[i]);
    NothingSent(cs[i], x);
  }

  /** At any time the wire of a range holds exactly what its record says: first batches, scanned hosts, swept chunks. */
  lemma {:induction false} WireIsRecord(cs: seq<Range>, x: Wiring, sts: seq<State>, acts: seq<Action>, i: nat, k: nat)
    requires IsRun(cs, sts, acts) && i < |cs| && Wired(cs[i], x) && k <= |acts|
    ensures |sts[k].ranges| == |cs| && Inv(cs[i], sts[k].ranges[i])
    ensures Probed(cs[i], x, sts[k].ranges[i], ProbeWire(cs, x, sts, acts, i, k))
    ensures PortsSent(cs[i], x, sts[k].ranges[i], PortWire(cs, x, sts, acts, i, k))
  {
    hide Wired, Inv, Probed, PortsSent, CanDiscover, CanScan, Discover, ScanStep, ProbeSent, PortSent, Takes, Init;
    if k == 0 {
      AtStart(cs, x, sts, acts, i);
    } else {
      WireIsRecord(cs, x, sts, acts, i, k - 1);
      StepOfRun(cs, sts, acts, k - 1, i);
      var act, l, sh := acts[k - 1], sts[k - 1].ranges[i], sts[k - 1].shared;
      var wire, o := ProbeWire(cs, x, sts, acts, i, k - 1), PortWire(cs, x, sts, acts, i, k - 1);
      if act.Hosts? && act.i == i {
        ProbeKeeps(cs[i], x, l, sh, wire, act.a);
        PortsUntouched(cs[i], x, l, Discover(cs[i], l, sh, act.a), o);
      } else if act.Ports? && act.i == i {
        PortsKeep(cs[i], x, l, sh, o, act.b);
        ProbesUntouched(cs[i], x, l, ScanStep(cs[i], l, sh, act.b), wire);
      } else {
        PortsUntouched(cs[i], x, l, sts[k].ranges[i], o);
        ProbesUntouched(cs[i], x, l, sts[k].ranges[i], wire);
      }
    }
  }

  lemma PortsUntouched(c: Range, x: Wiring, l: Local, l': Local, o: Output)
    requires Wired(c, x) && Inv(c, l) && Inv(c, l') && l'.q == l.q && PortsSent(c, x, l, o)
    ensures PortsSent(c, x, l', o)
  {
  }

  lemma ProbesUntouched(c: Range, x: Wiring, l: Local, l': Local, wire: seq<seq<Frame>>)
    requires Wired(c, x) && l'.d == l.d && Probed(c, x, l, wire)
    ensures Probed(c, x, l', wire)
  {
  }

  // ---------------------------------------------------------------- complete runs

  /** The hosts of a range among all findings delivered. */
  ghost function Delivered(sts: seq<State>, i: nat): seq<Target>
    requires sts != []
  {
    HostsOf(sts[|sts| - 1].shared.delivered, i)
  }

  /**
   A complete run: every probe batch is out; behind a discovery, the port frames are those of exactly the hosts
   delivered, in order; without one, those of every address of the range. Nothing stays queued.
   */
  lemma CompleteRunSends(cs: seq<Range>, x: Wiring, sts: seq<State>, acts: seq<Action>, i: nat)
    requires IsRun(cs, sts, acts) && Complete(cs, sts[|acts|]) && i < |cs| && Wired(cs[i], x)
    ensures L.ValidTargets(x.ports, Delivered(sts, i))
    ensures cs[i].kind.Direct? ==> R.ValidRange(x.ports, Flatten(x.chunks))
    ensures ProbeWire(cs, x, sts, acts, i, |acts|) == ProbeBatches(cs[i], x)
    ensures PortWire(cs, x, sts, acts, i, |acts|) ==
            Output(if cs[i].kind.Direct? then Chunks(R.RangeFrames(x.ports, Flatten(x.chunks)))
                   else HostBatches(x.ports, Delivered(sts, i)), [])
  {
    hide Wired, ProbeBatches, ProbeWire, PortWire, HostsOf, Takes, Init, Complete, Inv;
    var c, st := cs[i], sts[|acts|];
    RunInv(cs, sts, acts, |acts|);
    WireIsRecord(cs, x, sts, acts, i, |acts|);
    AtTheEnd(cs, st, i);
    ScannedIsValid(c, x, st.ranges[i]);
    ProbeCount(c, x);
    ChunksFit(c, x);
    TakeAll(ProbeBatches(c, x));
  }

  lemma AtTheEnd(cs: seq<Range>, st: State, i: nat)
    requires GlobalInv(cs, st) && Complete(cs, st) && i < |cs|
    ensures st.ranges[i].q.s.SReturn? && Inv(cs[i], st.ranges[i]) && st.ranges[i].d.h.HGone?
    ensures st.ranges[i].q.scanned == HostsOf(st.shared.delivered, i) == st.ranges[i].d.reported
    ensures cs[i].kind.Direct? ==> st.ranges[i].d.reported == []
    ensures st.ranges[i].d.probes == if cs[i].kind.Direct? then 0 else cs[i].chunks
  {
    hide HostsOf, PacketInv, JointInv, PortInv, ProberChannels, ProberInv;
  }

  /** The hosts delivered are the senders of the replies accepted so far, once for each reply, in order. */
  lemma DeliveredReplied(cs: seq<Range>, sts: seq<State>, acts: seq<Action>, i: nat) returns (n: nat)
    requires IsRun(cs, sts, acts) && Complete(cs, sts[|acts|]) && i < |cs|
    ensures cs[i].kind.Direct? ==> Delivered(sts, i) == []
    ensures n <= |cs[i].hostPackets| && Delivered(sts, i) == Accepted(cs[i], cs[i].hostPackets[..n])
  {
    hide Accepted, Takes, Init, HostsOf, Complete;
    var st := sts[|acts|];
    RunInv(cs, sts, acts, |acts|);
    AtTheEnd(cs, st, i);
    var x := st.ranges[i].d;
    n := |cs[i].hostPackets| - |x.packets|;
    assert x.reported + [] == x.reported;
  }

  /** What the receive filter accepts was emitted by the range's enumerator. */
  lemma AcceptedIsEmitted(start: Option<IP>, end: Option<IP>, w: nat, ip: IP)
    requires Enumerator.ValidRange(start, end, w) && w > 0 && |ip| == w && IsIPInRange(start, end, ip)
    ensures ip in Emitted(start, end, w)
  {
    hide Emitted, IsIPInRange, ToBytes;
    InRangeNumeric(start, end, w, ip);
    EmittedExactlyOnce(start, end, w, ip);
  }

  lemma EmittedInChunks(c: Range, x: Wiring, ip: IP)
    requires Wired(c, x) && ip in Emitted(c.start, c.end, AddressBytes(x.ports.f))
    ensures ip in Flatten(x.chunks)
  {
    hide Slices, Flatten, Lower, Upper;
    var slices := Slices(Lower(c.start, c.end), Upper(c.start, c.end), AddressBytes(x.ports.f));
    ShuffledFlatten(x.chunks, slices);
    SameMembers(Flatten(x.chunks), Flatten(slices));
  }

  /** What a receiver reads of a frame that asks for one address; the multicast request asks every neighbour. */
  ghost predicate Asks(p: Probing, frame: Frame, ip: IP) {
    match p
    case Echo(ping) => P.PingReads(frame, ping, ip)
    case WhoHas(arp) => A.ArpReads(frame, arp.srcMac, arp.src, ip)
    case Multicast(request) => frame == request
  }

  ghost predicate Asked(p: Probing, frames: seq<Frame>, ip: IP) {
    exists k :: 0 <= k < |frames| && Asks(p, frames[k], ip)
  }

  lemma RequestIsSent(c: Range, x: Wiring, ip: IP)
    requires Wired(c, x) && c.kind.Ping? && ip in Flatten(x.chunks)
    ensures Asked(x.probing, Flatten(ProbeBatches(c, x)), ip)
  {
    hide Flatten, P.PingFrame, A.ArpFrame, P.PingBatch, A.Wire, A.Extra, P.PingReads, A.ArpReads;
    ChunksFit(c, x);
    var ips, frames := Flatten(x.chunks), Flatten(ProbeBatches(c, x));
    var k :| 0 <= k < |ips| && ips[k] == ip;
    if x.probing.Echo? {
      P.PingedOnce(x.probing.ping, x.chunks);
    } else {
      A.ArpSubmits(x.probing.arp, x.chunks);
    }
    assert Asks(x.probing, frames[k], ip);
  }

  /** A host that replied from inside the range was asked. */
  lemma ReplyIsProbed(c: Range, x: Wiring, h: Target)
    requires Wired(c, x) && Some(h) in c.hostPackets && IsIPInRange(c.start, c.end, h.ip)
    ensures ValidTarget(x.ports, h) && h.ip in Emitted(c.start, c.end, AddressBytes(x.ports.f))
    ensures c.kind.Ping? || c.kind.Neighbours? ==> Asked(x.probing, Flatten(ProbeBatches(c, x)), h.ip)
  {
    hide Emitted, Shuffled, IsIPInRange, Slices, ValidConfig, Enumerator.ValidRange;
    var k :| 0 <= k < |c.hostPackets| && c.hostPackets[k] == Some(h);
    assert ValidTarget(x.ports, h);
    AcceptedIsEmitted(c.start, c.end, AddressBytes(x.ports.f), h.ip);
    EmittedInChunks(c, x, h.ip);
    if c.kind.Ping? {
      RequestIsSent(c, x, h.ip);
    } else if c.kind.Neighbours? {
      FlattenOne([x.probing.request]);
      assert Asks(x.probing, Flatten(ProbeBatches(c, x))[0], h.ip);
    }
  }

  /** A delivered host replied from inside the range, which has a discovery. */
  lemma DeliveredHost(cs: seq<Range>, sts: seq<State>, acts: seq<Action>, i: nat, h: Target)
    requires IsRun(cs, sts, acts) && Complete(cs, sts[|acts|]) && i < |cs| && h in Delivered(sts, i)
    ensures Some(h) in cs[i].hostPackets && IsIPInRange(cs[i].start, cs[i].end, h.ip) && !cs[i].kind.Direct?
  {
    hide Takes, Init, Complete, Delivered, Accepted, IsIPInRange;
    var c := cs[i];
    var n := DeliveredReplied(cs, sts, acts, i);
    var k :| 0 <= k < |Delivered(sts, i)| && Delivered(sts, i)[k] == h;
    AcceptedInRange(c, c.hostPackets[..n], k);
  }

  /**
   In every complete run each scanned host replied, is an address the range's enumerator emitted, and was asked: a
   receiver of what is on the prober's wire reads an echo or ARP request for that very address, or the multicast request.
   */
  lemma ScannedWasProbed(cs: seq<Range>, x: Wiring, sts: seq<State>, acts: seq<Action>, i: nat, h: Target)
    requires IsRun(cs, sts, acts) && Complete(cs, sts[|acts|]) && i < |cs| && Wired(cs[i], x) && h in Delivered(sts, i)
    ensures Some(h) in cs[i].hostPackets && ValidTarget(x.ports, h)
    ensures h.ip in Emitted(cs[i].start, cs[i].end, AddressBytes(x.ports.f))
    ensures cs[i].kind.Ping? || cs[i].kind.Neighbours?
    ensures Asked(x.probing, Flatten(ProbeWire(cs, x, sts, acts, i, |acts|)), h.ip)
  {
    hide ProbeBatches, ProbeWire, PortWire, Takes, Init, Flatten, Complete, Wired, Asked, Delivered, Emitted, IsIPInRange;
    CompleteRunSends(cs, x, sts, acts, i);
    DeliveredHost(cs, sts, acts, i, h);
    ReplyIsProbed(cs[i], x, h);
  }

  /**
   In every complete run a receiver reads, for every delivered host, technique and port, a probe of that host's port at
   its place on the wire of the port scanner.
   */
  lemma DeliveredIsScanned(cs: seq<Range>, x: Wiring, sts: seq<State>, acts: seq<Action>, i: nat, k: nat, t: nat, j: nat)
    requires IsRun(cs, sts, acts) && Complete(cs, sts[|acts|]) && i < |cs| && Wired(cs[i], x) && !cs[i].kind.Direct?
    requires k < |Delivered(sts, i)| && t < |x.ports.probes| && j < |x.ports.ports|
    ensures var c, h, fs := x.ports, Delivered(sts, i)[k], Flatten(PortWire(cs, x, sts, acts, i, |acts|).wire);
            var at := k * (|c.probes| * |c.ports|) + (t * |c.ports| + j);
            0 <= at < |fs| && ProbeReads(fs[at], c.f, if c.link.Gateway? then c.link.mac else h.eth, c.srcMac, c.src, h.ip,
                                         c.probes[t], c.ports[j])
  {
    hide PortWire, Takes, Init, Complete, Delivered, ProbeReads, HostBatches, ProbeBatches, ProbeWire, L.AllFrames, Flatten,
         Shuffled, Slices;
    CompleteRunSends(cs, x, sts, acts, i);
    L.AllSent(x.ports, Delivered(sts, i));
    L.AllAreRead(x.ports, Delivered(sts, i), k, t, j);
  }

  /** Without discovery, the same of every address the enumerator sent. */
  lemma AddressIsScanned(cs: seq<Range>, x: Wiring, sts: seq<State>, acts: seq<Action>, i: nat, k: nat, t: nat, j: nat)
    requires IsRun(cs, sts, acts) && Complete(cs, sts[|acts|]) && i < |cs| && Wired(cs[i], x) && cs[i].kind.Direct?
    requires k < |Flatten(x.chunks)| && t < |x.ports.probes| && j < |x.ports.ports|
    ensures var c, ip, fs := x.ports, Flatten(x.chunks)[k], Flatten(PortWire(cs, x, sts, acts, i, |acts|).wire);
            var at := k * (|c.probes| * |c.ports|) + (t * |c.ports| + j);
            0 <= at < |fs| && ProbeReads(fs[at], c.f, c.link.mac, c.srcMac, c.src, ip, c.probes[t], c.ports[j])
  {
    hide PortWire, Takes, Init, Complete, Delivered, ProbeReads, R.RangeFrames, ProbeBatches, ProbeWire, L.FrameFor, Shuffled;
    CompleteRunSends(cs, x, sts, acts, i);
    ChunksKeepEverything(R.RangeFrames(x.ports, Flatten(x.chunks)));
    R.RangeFrameAt(x.ports, Flatten(x.chunks), k, t, j);
    L.FrameIsValid(x.ports, R.At(Flatten(x.chunks)[k]), t, j);
  }
}
