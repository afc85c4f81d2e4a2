/** The IPv4 counterpart of the end-to-end scan, behind the trimming of network and broadcast addresses. */
module EndToEndV4 {
  import opened Bytes
  import opened Addresses
  import opened Enumerator
  import opened Intervals
  import opened Routes
  import opened RouteLosses
  import opened Router
  import opened Openings
  import opened Plan
  import opened PlanV4
  import opened Frames
  import opened Batch
  import opened HostScan
  import opened EndToEnd

  /** Scans every trimmed range, each with a sender of its own. */
  method ScanTrimmed(rs: seq<IpRangeRouteContext>, ghost ivs: seq<Iv<Route>>, routes: seq<Route>, cfg: Choice,
                     ghost probes: nat, ghost ports: nat) returns (senders: seq<Sender>)
    requires AllTrimmed(rs, ivs, routes) && ValidChoice(cfg, V4, probes, ports)
    ensures forall k :: 0 <= k < |senders| ==> fresh(senders[k]) && senders[k].State().queued == []
    ensures AllSurvive(ivs, routes) && Sent(senders) == RunSends(KeptAll(ivs, routes), cfg, V4, probes, ports)
  {
    hide Kept, Span, RunSends, Sent, RangeSends;
    senders := [];
    NothingSent([], cfg, V4, probes, ports);
    for k := 0 to |rs|
      invariant |senders| == k && forall j :: 0 <= j < k ==> fresh(senders[j]) && senders[j].State().queued == []
      invariant AllSurvive(ivs[..k], routes) && Sent(senders) == RunSends(KeptAll(ivs[..k], routes), cfg, V4, probes, ports)
    {
      var chunks := EnumerateTrimmed(rs[k], ivs[k], routes);
      var sender := ScanRange(cfg(k, rs[k].route), chunks, Kept(ivs[k], routes));
      KeptNext(ivs, routes, k);
      LastSends(KeptAll(ivs[..k], routes), Kept(ivs[k], routes), cfg, probes, ports);
      SentNext(senders, sender);
      senders := senders + [sender];
    }
    TakeAll(ivs);
  }

  lemma LastSends(ivs: seq<Iv<Route>>, iv: Iv<Route>, cfg: Choice, probes: nat, ports: nat)
    requires ValidChoice(cfg, V4, probes, ports) && (forall k :: 0 <= k < |ivs| ==> 0 <= ivs[k].lo) && 0 <= iv.lo
    ensures RunSends(ivs + [iv], cfg, V4, probes, ports) ==
            RunSends(ivs, cfg, V4, probes, ports) + RangeSends(cfg(|ivs|, iv.route), iv)
  {
    assert (ivs + [iv])[..|ivs|] == ivs;
  }

  /**
   Splits the network, trims the ranges and scans them. What is sent is the plan; if nothing is lost, the plan is
   the lookup of every address but network and broadcast addresses exactly when no address inverts its range.
   */
  method ScanV4(h: Host, routes: seq<Route>, n: IPNet, cfg: Choice, ghost probes: nat, ghost ports: nat)
    returns (res: Result<seq<Sender>, RouteError>, crashed: bool, ghost def: Route, ghost order: seq<Route>,
             ghost plan: seq<Planned>)
    requires ValidHost(h) && ValidRoutes(routes, 4) && ValidNet(n, 4) && ValidChoice(cfg, V4, probes, ports)
    ensures res.Failure? ==> FailsAs(h, routes, n, def, order, res.error) && !crashed
    ensures res.Success? ==> Prepared(h, routes, n, def, order) && Opens(h, n, def, order)
    ensures res.Success? ==> (!crashed <==> forall iv :: iv in Painted(n, def, order) ==> !Crashes(iv))
    ensures res.Success? && !crashed ==> SendsPlan(Sent(res.value), plan, cfg, V4, probes, ports)
    ensures res.Success? && AlignedRoutes(routes, 4) && !Clash(h, routes, n) && NothingLost(h, routes, n, def) ==>
              (crashed <==> exists x :: CrashesAt(h, routes, n, x)) &&
              (!crashed ==> (CoversLookup(plan, h, routes, n) <==> forall x: nat :: !InvertsAt(h, routes, n, x)))
  {
    hide Painted, Lookup, Lost, NothingLost, Clash, CoversLookup, CrashesAt, InvertsAt, Prepared, AlignedRoutes, Num, Last;
    hide RunSends, Sent, SendsPlan, Crashes, Kept, Survives;
    var split;
    plan := [];
    split, crashed, def, order := SmartV4Route(h, routes, n);
    if split.Failure? {
      return Failure(split.error), crashed, def, order, plan;
    }
    ghost var ivs := Painted(n, def, order);
    if AlignedRoutes(routes, 4) && !Clash(h, routes, n) && NothingLost(h, routes, n, def) {
      CrashesExactly(h, routes, n, def, order);
    }
    if crashed {
      return Success([]), crashed, def, order, plan;
    }
    var senders := ScanTrimmed(split.value, ivs, routes, cfg, probes, ports);
    plan := PlanOf(KeptAll(ivs, routes), 4);
    RunSendsPlan(KeptAll(ivs, routes), cfg, V4, probes, ports);
    if AlignedRoutes(routes, 4) && !Clash(h, routes, n) && NothingLost(h, routes, n, def) {
      CoversExactly(h, routes, n, def, order);
    }
    return Success(senders), crashed, def, order, plan;
  }
}
