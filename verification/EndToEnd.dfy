/**
 From a network and a routing table to frames on the wire: the IPv6 splitter, the enumerator over each of
 its ranges, and the scan without host discovery over each enumeration.
 */
module EndToEnd {
  import opened Bytes
  import opened Addresses
  import opened Enumerator
  import opened Intervals
  import opened Routes
  import opened RouteEdges
  import opened RouteLosses
  import opened Router
  import opened Openings
  import opened Plan
  import opened Frames
  import opened Reading
  import opened Batch
  import opened Batching
  import opened HostScan
  import opened ScanLaws
  import R = RangeScan
  import P = Ping
  import A = Arp

  // ---------------------------------------------------------------- addresses

  /** The ends an enumerator is given for an interval stand for exactly its addresses. */
  lemma MarkedBounds(start: Option<IP>, end: Option<IP>, lo: nat, hi: int, w: nat)
    requires lo <= hi < Space(w)
    requires start == Some(ToBytes(lo, w)) && end == if lo == hi then None else Some(ToBytes(hi, w))
    ensures Enumerator.ValidRange(start, end, w) && Lower(start, end) == lo && Upper(start, end) == hi
  {
    hide ToBytes, Num, Space;
    NumToBytes(lo, w);
    NumToBytes(hi, w);
  }

  method EnumerateRange(r: IpRangeRouteContext, ghost iv: Iv<Route>) returns (chunks: seq<seq<IP>>)
    requires MarkedTo(r, iv, 16)
    ensures Flatten(chunks) == Span(iv.lo, iv.hi, 16)
    ensures forall k :: 0 <= k < |chunks| ==> 0 < |chunks[k]| <= CHUNK
    ensures forall k, i :: 0 <= k < |chunks| && 0 <= i < |chunks[k]| ==> |chunks[k][i]| == 16
  {
    MarkedBounds(r.start, r.end, iv.lo, iv.hi, 16);
    chunks := IPv6RangeBytesChunks(r.start, r.end, false);
    FlattenSlices(iv.lo, iv.hi, 16);
    SliceSizes(iv.lo, iv.hi, 16);
    SliceAddresses(iv.lo, iv.hi, 16);
  }

  lemma MarkedIsBounded(rs: seq<IpRangeRouteContext>, ivs: seq<Iv<Route>>)
    requires Marked(rs, ivs, 16)
    ensures Bounded(ivs, 16)
  {
    forall k | 0 <= k < |ivs| ensures 0 <= ivs[k].lo && ivs[k].hi < Space(16) {
      assert MarkedTo(rs[k], ivs[k], 16);
    }
  }

  // ---------------------------------------------------------------- frames

  /**
   How each range is scanned: gateway address, source address, source port and techniques, by the number of
   the range and its route. Techniques and ports are the same in number everywhere.
   */
  type Choice = (nat, Route) -> Config

  ghost predicate ValidChoice(cfg: Choice, f: Family, probes: nat, ports: nat) {
    forall k: nat, r: Route ::
      ValidConfig(cfg(k, r)) && cfg(k, r).link.Gateway? && cfg(k, r).f == f &&
      |cfg(k, r).probes| == probes && |cfg(k, r).ports| == ports
  }

  ghost predicate ValidPlan(plan: seq<Planned>, w: nat) {
    forall p :: 0 <= p < |plan| ==> |plan[p].ip| == w
  }

  /** One frame for every planned address, probe and port, in that order, under the address's route. */
  ghost predicate SendsPlan(fs: seq<Frame>, plan: seq<Planned>, cfg: Choice, f: Family, probes: nat, ports: nat) {
    ValidChoice(cfg, f, probes, ports) && ValidPlan(plan, AddressBytes(f)) && |fs| == |plan| * (probes * ports) &&
    forall p: nat, t: nat, i: nat :: p < |plan| && t < probes && i < ports ==>
      SendsAt(fs, plan[p], cfg, f, probes, ports, p, t, i)
  }

  ghost predicate SendsAt(fs: seq<Frame>, planned: Planned, cfg: Choice, f: Family, probes: nat, ports: nat,
                          p: nat, t: nat, i: nat)
    requires ValidChoice(cfg, f, probes, ports) && |planned.ip| == AddressBytes(f) && t < probes && i < ports
  {
    var at := p * (probes * ports) + (t * ports + i);
    at < |fs| && exists k: nat :: fs[at] == FrameFor(cfg(k, planned.route), R.At(planned.ip), t, i)
  }

  lemma SpanValid(c: Config, lo: nat, hi: int)
    requires ValidConfig(c) && c.link.Gateway?
    ensures R.ValidRange(c, Span(lo, hi, AddressBytes(c.f)))
  {
    var w := AddressBytes(c.f);
    var ips := Span(lo, hi, w);
    forall k | 0 <= k < |ips| ensures |ips[k]| == w {
      assert ips[k] == ToBytes(lo + k, w);
    }
  }

  /** The frames of one range: every address, every probe, every port. */
  ghost function RangeSends(c: Config, iv: Iv<Route>): seq<Frame>
    requires ValidConfig(c) && c.link.Gateway? && 0 <= iv.lo
  {
    SpanValid(c, iv.lo, iv.hi);
    R.RangeFrames(c, Span(iv.lo, iv.hi, AddressBytes(c.f)))
  }

  /** The frames of all ranges, range after range. */
  ghost function RunSends(ivs: seq<Iv<Route>>, cfg: Choice, f: Family, probes: nat, ports: nat): seq<Frame>
    requires ValidChoice(cfg, f, probes, ports) && forall k :: 0 <= k < |ivs| ==> 0 <= ivs[k].lo
  {
    if ivs == [] then []
    else
      var k := |ivs| - 1;
      RunSends(ivs[..k], cfg, f, probes, ports) + RangeSends(cfg(k, ivs[k].route), ivs[k])
  }

  lemma RangeSendsAt(c: Config, iv: Iv<Route>, p: nat, t: nat, i: nat)
    requires ValidConfig(c) && c.link.Gateway? && 0 <= iv.lo
    requires p < |Tagged(iv, AddressBytes(c.f))| && t < |c.probes| && i < |c.ports|
    ensures var planned := Tagged(iv, AddressBytes(c.f))[p];
            var at := p * (|c.probes| * |c.ports|) + (t * |c.ports| + i);
            |planned.ip| == AddressBytes(c.f) && planned.route == iv.route && 0 <= at < |RangeSends(c, iv)| &&
            RangeSends(c, iv)[at] == FrameFor(c, R.At(planned.ip), t, i)
  {
    hide R.RangeFrames, FrameFor, ToBytes;
    SpanValid(c, iv.lo, iv.hi);
    var ips := Span(iv.lo, iv.hi, AddressBytes(c.f));
    R.RangeFramesLength(c, ips);
    R.RangeFrameAt(c, ips, p, t, i);
  }

  lemma RangeSendsLength(c: Config, iv: Iv<Route>)
    requires ValidConfig(c) && c.link.Gateway? && 0 <= iv.lo
    ensures |RangeSends(c, iv)| == |Tagged(iv, AddressBytes(c.f))| * (|c.probes| * |c.ports|)
    ensures ValidPlan(Tagged(iv, AddressBytes(c.f)), AddressBytes(c.f))
  {
    hide R.RangeFrames, ToBytes;
    SpanValid(c, iv.lo, iv.hi);
    R.RangeFramesLength(c, Span(iv.lo, iv.hi, AddressBytes(c.f)));
  }

  lemma {:induction false} RunSendsLength(ivs: seq<Iv<Route>>, cfg: Choice, f: Family, probes: nat, ports: nat)
    requires ValidChoice(cfg, f, probes, ports) && forall k :: 0 <= k < |ivs| ==> 0 <= ivs[k].lo
    ensures ValidPlan(PlanOf(ivs, AddressBytes(f)), AddressBytes(f))
    ensures |RunSends(ivs, cfg, f, probes, ports)| == |PlanOf(ivs, AddressBytes(f))| * (probes * ports)
  {
    hide RangeSends, Tagged;
    if ivs != [] {
      var k := |ivs| - 1;
      RunSendsLength(ivs[..k], cfg, f, probes, ports);
      RangeSendsLength(cfg(k, ivs[k].route), ivs[k]);
      Distribute(|PlanOf(ivs[..k], AddressBytes(f))|, |Tagged(ivs[k], AddressBytes(f))|, probes * ports);
    }
  }

  /** Where the frame for a planned address, probe and port is found in the whole run, and the number of its range. */
  lemma {:induction false} RunSendsAt(ivs: seq<Iv<Route>>, cfg: Choice, f: Family, probes: nat, ports: nat,
                                      p: nat, t: nat, i: nat) returns (k: nat)
    requires ValidChoice(cfg, f, probes, ports) && forall k :: 0 <= k < |ivs| ==> 0 <= ivs[k].lo
    requires p < |PlanOf(ivs, AddressBytes(f))| && t < probes && i < ports
    ensures var planned := PlanOf(ivs, AddressBytes(f))[p];
            var at := p * (probes * ports) + (t * ports + i);
            k < |ivs| && planned.route == ivs[k].route && |planned.ip| == AddressBytes(f) &&
            0 <= at < |RunSends(ivs, cfg, f, probes, ports)| &&
            RunSends(ivs, cfg, f, probes, ports)[at] == FrameFor(cfg(k, planned.route), R.At(planned.ip), t, i)
  {
    hide RangeSends, FrameFor, Tagged;
    var m := |ivs| - 1;
    var init, l := ivs[..m], ivs[m];
    var before := |PlanOf(init, AddressBytes(f))|;
    if p < before {
      k := RunSendsAt(init, cfg, f, probes, ports, p, t, i);
    } else {
      k := m;
      RunSendsLength(init, cfg, f, probes, ports);
      RangeSendsAt(cfg(m, l.route), l, p - before, t, i);
      Distribute(before, p - before, probes * ports);
    }
  }

  /** Ranges scanned one by one send exactly what enumerating them plans. */
  lemma RunSendsPlan(ivs: seq<Iv<Route>>, cfg: Choice, f: Family, probes: nat, ports: nat)
    requires ValidChoice(cfg, f, probes, ports) && forall k :: 0 <= k < |ivs| ==> 0 <= ivs[k].lo
    ensures SendsPlan(RunSends(ivs, cfg, f, probes, ports), PlanOf(ivs, AddressBytes(f)), cfg, f, probes, ports)
  {
    hide RunSends, PlanOf, FrameFor;
    var plan := PlanOf(ivs, AddressBytes(f));
    RunSendsLength(ivs, cfg, f, probes, ports);
    forall p: nat, t: nat, i: nat | p < |plan| && t < probes && i < ports
      ensures SendsAt(RunSends(ivs, cfg, f, probes, ports), plan[p], cfg, f, probes, ports, p, t, i)
    {
      var k := RunSendsAt(ivs, cfg, f, probes, ports, p, t, i);
    }
  }

  /** A sent lookup plan: the frame for address number x, probe and port is at its place, built for the route of x. */
  lemma LookupIsSent(fs: seq<Frame>, plan: seq<Planned>, cfg: Choice, f: Family, probes: nat, ports: nat,
                     h: Host, routes: seq<Route>, n: IPNet, x: nat, t: nat, i: nat) returns (k: nat)
    requires SendsPlan(fs, plan, cfg, f, probes, ports) && IsLookupPlan(plan, h, routes, n, AddressBytes(f))
    requires Num(n.ip) <= x <= Num(Last(n)) && t < probes && i < ports
    ensures Lookup(h, routes, n, x).Some?
    ensures var at := (x - Num(n.ip)) * (probes * ports) + (t * ports + i);
            0 <= at < |fs| &&
            fs[at] == FrameFor(cfg(k, Lookup(h, routes, n, x).value), R.At(ToBytes(x, AddressBytes(f))), t, i)
  {
    hide Lookup, Num, Last, FrameFor, ToBytes;
    var p := x - Num(n.ip);
    assert Lookup(h, routes, n, Num(n.ip) + p) == Some(plan[p].route);
    assert SendsAt(fs, plan[p], cfg, f, probes, ports, p, t, i);
    k :| fs[p * (probes * ports) + (t * ports + i)] == FrameFor(cfg(k, plan[p].route), R.At(plan[p].ip), t, i);
  }

  /** The same as a receiver reads it: to the address itself, from the route's source address, at the port. */
  lemma LookupIsRead(fs: seq<Frame>, plan: seq<Planned>, cfg: Choice, f: Family, probes: nat, ports: nat,
                     h: Host, routes: seq<Route>, n: IPNet, x: nat, t: nat, i: nat) returns (c: Config)
    requires SendsPlan(fs, plan, cfg, f, probes, ports) && IsLookupPlan(plan, h, routes, n, AddressBytes(f))
    requires Num(n.ip) <= x <= Num(Last(n)) && t < probes && i < ports
    ensures Lookup(h, routes, n, x).Some? && exists k: nat :: c == cfg(k, Lookup(h, routes, n, x).value)
    ensures var at := (x - Num(n.ip)) * (probes * ports) + (t * ports + i);
            0 <= at < |fs| && ValidConfig(c) && c.link.Gateway? && |c.probes| == probes && |c.ports| == ports &&
            ProbeReads(fs[at], f, c.link.mac, c.srcMac, c.src, ToBytes(x, AddressBytes(f)), c.probes[t], c.ports[i])
  {
    hide Lookup, Num, Last, FrameFor, ToBytes, ProbeReads, SendsPlan, IsLookupPlan;
    var k := LookupIsSent(fs, plan, cfg, f, probes, ports, h, routes, n, x, t, i);
    PlanIsValid(fs, plan, cfg, f, probes, ports);
    c := cfg(k, Lookup(h, routes, n, x).value);
    FrameIsValid(c, R.At(ToBytes(x, AddressBytes(f))), t, i);
  }

  lemma PlanIsValid(fs: seq<Frame>, plan: seq<Planned>, cfg: Choice, f: Family, probes: nat, ports: nat)
    requires SendsPlan(fs, plan, cfg, f, probes, ports)
    ensures ValidChoice(cfg, f, probes, ports)
  {
  }

  // ---------------------------------------------------------------- the whole run

  /** Everything submitted by the ranges' senders, range after range. */
  ghost function Sent(senders: seq<Sender>): seq<Frame>
    reads senders
  {
    if senders == [] then [] else Sent(senders[..|senders| - 1]) + Flatten(senders[|senders| - 1].State().wire)
  }

  lemma NothingSent(ivs: seq<Iv<Route>>, cfg: Choice, f: Family, probes: nat, ports: nat)
    requires ValidChoice(cfg, f, probes, ports)
    ensures Sent([]) == [] == RunSends(ivs[..0], cfg, f, probes, ports)
  {
  }

  lemma RunSendsNext(ivs: seq<Iv<Route>>, cfg: Choice, f: Family, probes: nat, ports: nat, k: nat)
    requires ValidChoice(cfg, f, probes, ports) && (forall k :: 0 <= k < |ivs| ==> 0 <= ivs[k].lo) && k < |ivs|
    ensures RunSends(ivs[..k + 1], cfg, f, probes, ports) ==
            RunSends(ivs[..k], cfg, f, probes, ports) + RangeSends(cfg(k, ivs[k].route), ivs[k])
  {
    assert ivs[..k + 1][..k] == ivs[..k];
  }

  lemma SentNext(senders: seq<Sender>, sender: Sender)
    ensures Sent(senders + [sender]) == Sent(senders) + Flatten(sender.State().wire)
  {
    assert (senders + [sender])[..|senders|] == senders;
  }

  /** Chunks of an interval's addresses, scanned without host discovery. */
  method ScanRange(c: Config, chunks: seq<seq<IP>>, ghost iv: Iv<Route>) returns (sender: Sender)
    requires ValidConfig(c) && c.link.Gateway? && 0 <= iv.lo
    requires forall k, i :: 0 <= k < |chunks| && 0 <= i < |chunks[k]| ==> |chunks[k][i]| == AddressBytes(c.f)
    requires Flatten(chunks) == Span(iv.lo, iv.hi, AddressBytes(c.f))
    ensures fresh(sender) && sender.State().queued == []
    ensures Flatten(sender.State().wire) == RangeSends(c, iv)
  {
    hide Span;
    sender := R.ScanWithoutDiscovery(c, chunks);
    ChunksKeepEverything(R.RangeFrames(c, Flatten(chunks)));
  }

  /**
   Splits the network and scans every range, each with a sender of its own. What is sent is the plan, and the
   plan is the lookup of every address exactly when nothing is lost.
   */
  method ScanV6(h: Host, routes: seq<Route>, n: IPNet, cfg: Choice, ghost probes: nat, ghost ports: nat)
    returns (res: Result<seq<Sender>, RouteError>, ghost def: Route, ghost order: seq<Route>, ghost plan: seq<Planned>)
    requires ValidHost(h) && ValidRoutes(routes, 16) && ValidNet(n, 16) && ValidChoice(cfg, V6, probes, ports)
    ensures res.Failure? ==> FailsAs(h, routes, n, def, order, res.error)
    ensures res.Success? ==> Prepared(h, routes, n, def, order) && Opens(h, n, def, order)
    ensures res.Success? ==> forall k :: 0 <= k < |res.value| ==> fresh(res.value[k]) && res.value[k].State().queued == []
    ensures res.Success? ==> SendsPlan(Sent(res.value), plan, cfg, V6, probes, ports)
    ensures res.Success? && AlignedRoutes(routes, 16) && !Clash(h, routes, n) ==>
              (IsLookupPlan(plan, h, routes, n, 16) <==> NothingLost(h, routes, n, def))
    ensures res.Success? && AlignedRoutes(routes, 16) && !Clash(h, routes, n) && Aligned(n) ==>
              (IsLookupPlan(plan, h, routes, n, 16) <==> !AnyHarmful(h, routes, n))
  {
    hide Painted, Lookup, Lost, NothingLost, AnyHarmful, Clash, IsLookupPlan, Prepared, AlignedRoutes;
    hide RangeSends, Num, Last, ToBytes, RunSends, Sent, SendsPlan;
    var split;
    plan := [];
    split, def, order := SmartV6Route(h, routes, n);
    if split.Failure? {
      return Failure(split.error), def, order, plan;
    }
    ghost var ivs := Painted(n, def, order);
    MarkedIsBounded(split.value, ivs);
    var senders: seq<Sender> := [];
    NothingSent(ivs, cfg, V6, probes, ports);
    for k := 0 to |split.value|
      invariant Marked(split.value, ivs, 16) && |senders| == k
      invariant forall j :: 0 <= j < k ==> fresh(senders[j]) && senders[j].State().queued == []
      invariant Sent(senders) == RunSends(ivs[..k], cfg, V6, probes, ports)
    {
      var r := split.value[k];
      var chunks := EnumerateRange(r, ivs[k]);
      var sender := ScanRange(cfg(k, r.route), chunks, ivs[k]);
      RunSendsNext(ivs, cfg, V6, probes, ports, k);
      SentNext(senders, sender);
      senders := senders + [sender];
    }
    TakeAll(ivs);
    plan := PlanOf(ivs, 16);
    RunSendsPlan(ivs, cfg, V6, probes, ports);
    if AlignedRoutes(routes, 16) && !Clash(h, routes, n) {
      PlanIsLookupExactlyWhenNothingLost(h, routes, n, def, order, 16);
      if Aligned(n) { NothingLostExactlyWhenHarmless(h, routes, n, def, order, 16); }
    }
    return Success(senders), def, order, plan;
  }

  // ---------------------------------------------------------------- discovery

  /** The echo requests for a list of addresses. */
  ghost function Echoes(c: P.PingConfig, ips: seq<IP>): (r: seq<Frame>)
    requires P.ValidPing(c) && forall i :: 0 <= i < |ips| ==> |ips[i]| == AddressBytes(c.f)
    ensures |r| == |ips|
  {
    seq(|ips|, i requires 0 <= i < |ips| => P.PingFrame(c, ips[i]))
  }

  /** Pinging one range sends one echo request for each of its addresses, ascending. */
  method PingRange(c: P.PingConfig, r: IpRangeRouteContext, ghost iv: Iv<Route>) returns (sender: Sender)
    requires MarkedTo(r, iv, 16) && P.ValidPing(c) && c.f == V6
    ensures fresh(sender) && sender.State().queued == []
    ensures forall i :: 0 <= i < |Span(iv.lo, iv.hi, 16)| ==> |Span(iv.lo, iv.hi, 16)[i]| == 16
    ensures Flatten(sender.State().wire) == Echoes(c, Span(iv.lo, iv.hi, 16))
    ensures forall i :: 0 <= i < |Span(iv.lo, iv.hi, 16)| ==>
              P.PingReads(Flatten(sender.State().wire)[i], c, Span(iv.lo, iv.hi, 16)[i])
  {
    hide P.PingFrame, P.PingReads, Span;
    var chunks := EnumerateRange(r, iv);
    sender := P.ScanPing(c, chunks);
    P.PingedOnce(c, chunks);
  }

  /** Requesting one range by ARP: every address once, then what the last chunk leaves over. */
  method RequestRange(c: A.ArpConfig, start: Option<IP>, end: Option<IP>) returns (sender: A.ArpSender)
    requires A.ValidArp(c) && Enumerator.ValidRange(start, end, 4)
    ensures fresh(sender) && A.ValidIPs(Emitted(start, end, 4)) && A.Enumerated(Slices(Lower(start, end), Upper(start, end), 4))
    ensures Flatten(sender.wire) ==
            A.ArpFrames(c, Emitted(start, end, 4)) + A.Extra(c, Slices(Lower(start, end), Upper(start, end), 4))
    ensures forall k :: 0 <= k < |Emitted(start, end, 4)| ==>
              A.ArpReads(Flatten(sender.wire)[k], c.srcMac, c.src, Emitted(start, end, 4)[k])
  {
    hide A.ArpReads, A.ArpFrames, A.Extra, A.Wire;
    var chunks := IPv4RangeBytesChunks(start, end, false);
    SliceSizes(Lower(start, end), Upper(start, end), 4);
    SliceAddresses(Lower(start, end), Upper(start, end), 4);
    sender := A.ScanArp(c, chunks);
    A.ArpSubmits(c, chunks);
  }
}
