/** Runs of the goroutine protocol: what every step of every run guarantees, that runs end, and how they end. */
module ProtocolRuns {
  import opened Bytes
  import opened Addresses
  import opened Enumerator
  import opened Protocol
  import opened ProtocolSafety

  /** States of a run from the start, each reached from the one before by a possible action. */
  ghost predicate IsRun(cs: seq<Range>, sts: seq<State>, acts: seq<Action>) {
    |sts| == |acts| + 1 && sts[0] == Init(cs) &&
    forall k :: 0 <= k < |acts| ==> Takes(cs, sts[k], acts[k], sts[k + 1])
  }

  ghost predicate Takes(cs: seq<Range>, st: State, act: Action, st': State) {
    |st.ranges| == |cs| && Possible(cs, st, act) && st' == After(cs, st, act)
  }

  lemma {:induction false} RunInv(cs: seq<Range>, sts: seq<State>, acts: seq<Action>, k: nat)
    requires IsRun(cs, sts, acts) && k < |sts|
    ensures GlobalInv(cs, sts[k])
  {
    hide GlobalInv, Possible, After;
    if k == 0 {
      InitInv(cs);
    } else {
      RunInv(cs, sts, acts, k - 1);
      assert Takes(cs, sts[k - 1], acts[k - 1], sts[k]);
      NextKeeps(cs, sts[k - 1], acts[k - 1]);
    }
  }

  // ---------------------------------------------------------------- safety

  /** What holds when an action is taken in a state. */
  ghost predicate SafeAction(cs: seq<Range>, st: State, act: Action)
    requires |st.ranges| == |cs| && Possible(cs, st, act)
  {
    match act
    case Hosts(i, Probe) => Hears(st.ranges[i].d.h)
    case Hosts(i, HostsDone) => st.ranges[i].d.probes == cs[i].chunks
    case Ports(i, Scan) =>
      var host := st.ranges[i].q.s.host;
      Listens(st.ranges[i].q.t) && IsIPInRange(cs[i].start, cs[i].end, host.ip) &&
      host in HostsOf(st.shared.sent, i) && st.ranges[i].q.scanned + [host] <= HostsOf(st.shared.sent, i)
    case Ports(i, Sweep) => Listens(st.ranges[i].q.t)
    case Ports(i, PortsDone) =>
      if cs[i].kind.Direct? then st.ranges[i].q.swept == cs[i].chunks
      else st.ranges[i].q.scanned == HostsOf(st.shared.sent, i) && (st.ranges[i].d.h.HLeaving? || st.ranges[i].d.h.HGone?)
    case CloseFindings => forall i :: 0 <= i < |cs| ==> Silent(cs[i], st.ranges[i])
    case _ => true
  }

  /** No goroutine of the range can send a finding any more. */
  predicate Silent(c: Range, l: Local) {
    (l.d.h.HGone? && (l.q.t.TGone? || (c.kind.Direct? && l.q.t.TLeaving?))) && l.q.s.SReturn?
  }

  lemma ReturnedIsSilent(c: Range, l: Local)
    requires Inv(c, l) && l.returned
    ensures Silent(c, l)
  {
    if !c.kind.Direct? { GroupEmpty(c, l); }
  }

  lemma DrainedIsScanned(c: Range, l: Local)
    requires Inv(c, l) && !c.kind.Direct? && l.q.s.SSignal?
    ensures l.q.scanned == l.d.reported && (l.d.h.HLeaving? || l.d.h.HGone?)
  {
    hide PacketInv;
    assert l.q.scanned + [] + [] == l.q.scanned;
    assert l.d.forwarded + [] == l.d.forwarded;
  }

  lemma ScanningIsReported(c: Range, l: Local)
    requires Inv(c, l) && l.q.s.Scanning?
    ensures l.q.scanned + [l.q.s.host] <= l.d.reported && IsIPInRange(c.start, c.end, l.q.s.host.ip)
  {
    hide IsIPInRange, PacketInv;
    var x := l.q.scanned + [l.q.s.host];
    assert l.d.reported == x + (l.queue + InForward(l.d));
    assert l.d.reported[|l.q.scanned|] == l.q.s.host;
    ReportedInRange(c, l.d, |l.q.scanned|);
  }

  /** An action possible under the invariant is safe. */
  lemma PossibleIsSafe(cs: seq<Range>, st: State, act: Action)
    requires GlobalInv(cs, st) && Possible(cs, st, act)
    ensures SafeAction(cs, st, act)
  {
    hide IsIPInRange, HostsOf, JointInv, ProberChannels, ScannerChannels, ReportInv, AnswerInv;
    match act
    case Ports(i, Scan) =>
      ScanningIsReported(cs[i], st.ranges[i]);
      assert (st.ranges[i].q.scanned + [st.ranges[i].q.s.host])[|st.ranges[i].q.scanned|] == st.ranges[i].q.s.host;
    case Ports(i, PortsDone) => if !cs[i].kind.Direct? { DrainedIsScanned(cs[i], st.ranges[i]); }
    case CloseFindings =>
      forall i | 0 <= i < |cs| ensures Silent(cs[i], st.ranges[i]) { ReturnedIsSilent(cs[i], st.ranges[i]); }
    case _ =>
  }

  /**
   Safety of every interleaving: probes leave only while their interceptor listens; a scanned host lies in the
   range and was reported first; the ports of a range are done only when every reported host has been scanned;
   findings are closed only when nobody is left to send; and no step panics.
   */
  lemma EveryStepIsSafe(cs: seq<Range>, sts: seq<State>, acts: seq<Action>, k: nat)
    requires IsRun(cs, sts, acts) && k < |acts|
    ensures Takes(cs, sts[k], acts[k], sts[k + 1]) && SafeAction(cs, sts[k], acts[k])
    ensures !sts[k + 1].shared.panic
  {
    hide SafeAction, Possible, Inv, AnswerInv;
    RunInv(cs, sts, acts, k);
    RunInv(cs, sts, acts, k + 1);
    assert Takes(cs, sts[k], acts[k], sts[k + 1]);
    PossibleIsSafe(cs, sts[k], acts[k]);
  }

  // ---------------------------------------------------------------- progress

  predicate Finished(l: Local) {
    l.d.p == PReturn(Nothing) && l.d.h.HGone? && l.q.s == SReturn(Nothing) && l.q.t.TGone? && l.returned
  }

  ghost predicate Final(cs: seq<Range>, st: State) {
    |st.ranges| == |cs| && st.closer.Closed? && st.shared.buf == [] &&
    forall i :: 0 <= i < |cs| ==> Finished(st.ranges[i])
  }

  /** Waiting for a packet is no progress. */
  predicate Arrival(act: Action) {
    (act.Hosts? && act.a.Packet?) || (act.Ports? && act.b.PacketT?)
  }

  /** The port half can move, unless it waits for hosts or has ended. */
  lemma PortProgress(c: Range, l: Local, sh: Shared) returns (b: PortStep)
    requires Inv(c, l) && sh.buf == []
    requires !(l.q.s == SReturn(Nothing) && l.q.t.TGone?)
    requires l.q.s.Receiving? ==> l.queue != [] || l.d.upClosed
    ensures CanScan(c, l, sh, b) && !b.PacketT?
  {
    hide ReportInv, ProberInv, ProberChannels, ProbeInv, SweepInv, IsIPInRange, Suffix, Pending;
    var y := l.q;
    b := match y.s
    case SStart => LaunchT
    case SAwait => if y.t.TOpening? then OpenT else if y.readyClosed then ReadyTClosed else ReadyT
    case Receiving => if l.queue != [] then Take else EndHosts
    case Scanning(_) => Scan
    case Sweeping(left) => if left > 0 then Sweep else EndSweep
    case SSignal => if y.t.TListening? then PortsDone else ReportT
    case SReturn(todo) => if y.t.TLeaving? then LeaveT else DeferS;
  }

  lemma DiscoveryProgress(c: Range, l: Local, sh: Shared) returns (a: DiscoveryStep)
    requires Inv(c, l) && sh.buf == [] && |l.queue| < UP_HOSTS
    requires !(l.d.p == PReturn(Nothing) && l.d.h.HGone?)
    ensures CanDiscover(c, l, sh, a) && !a.Packet?
  {
    hide ReportInv, ScannerInv, ScannerChannels, ProbeInv, SweepInv, IsIPInRange, Suffix, Pending;
    var x := l.d;
    a := match x.h
    case HOpening => Open
    case HReporting(_) => Report
    case HForwarding(_) => Forward
    case HLeaving => Leave
    case HOff => Launch
    case HOffering => if x.readyClosed then ReadyClosed else Ready
    case HGone => Defer
    case HListening =>
      if x.p.PSignal? then HostsDone else if x.p.left > 0 then Probe else EndProbes;
  }

  lemma CanReturnAtEnd(c: Range, l: Local)
    requires Inv(c, l) && !l.returned && l.d.p == PReturn(Nothing) && l.d.h.HGone? && l.q.s == SReturn(Nothing) && l.q.t.TGone?
    ensures CanReturn(c, l)
  {
  }

  lemma HostsClosedAtEnd(c: Range, l: Local)
    requires Inv(c, l) && l.d.p == PReturn(Nothing) && l.q.s.Receiving?
    ensures l.d.upClosed
  {
  }

  /** With a reader of the findings, something other than a packet's arrival can always happen until all is over. */
  lemma Progress(cs: seq<Range>, st: State) returns (act: Action)
    requires GlobalInv(cs, st) && !Final(cs, st)
    ensures Possible(cs, st, act) && !Arrival(act)
  {
    hide Inv, AnswerInv, CanDiscover, CanScan, CanReturn, HostsOf;
    if st.shared.buf != [] {
      return Consume;
    } else if i :| 0 <= i < |cs| && !Finished(st.ranges[i]) {
      act := RangeProgress(cs, st, i);
    } else if st.closer.Waiting? {
      return CloseFindings;
    } else {
      return CloseErrors;
    }
  }

  lemma RangeProgress(cs: seq<Range>, st: State, i: nat) returns (act: Action)
    requires GlobalInv(cs, st) && st.shared.buf == [] && i < |cs| && !Finished(st.ranges[i])
    ensures Possible(cs, st, act) && !Arrival(act)
  {
    hide Inv, AnswerInv, CanDiscover, CanScan, CanReturn, HostsOf;
    var c, l := cs[i], st.ranges[i];
    if !(l.d.p == PReturn(Nothing) && l.d.h.HGone?) && |l.queue| < UP_HOSTS {
      var a := DiscoveryProgress(c, l, st.shared);
      return Hosts(i, a);
    }
    if !(l.q.s == SReturn(Nothing) && l.q.t.TGone?) {
      if l.q.s.Receiving? && l.queue == [] { HostsClosedAtEnd(c, l); }
      var b := PortProgress(c, l, st.shared);
      return Ports(i, b);
    }
    EndedIsDrained(c, l);
    CanReturnAtEnd(c, l);
    return Return(i);
  }

  lemma EndedIsDrained(c: Range, l: Local)
    requires Inv(c, l) && l.q.s == SReturn(Nothing)
    ensures |l.queue| < UP_HOSTS
  {
  }

  // ---------------------------------------------------------------- termination

  function Length(d: Deferred): nat {
    if d.Nothing? then 0 else 1 + Length(d.rest)
  }

  /** Steps the discovery half can still cause, a host on its way counting until it is scanned and reported. */
  function DiscoveryMeasure(c: Range, x: Discovery): nat {
    6 * |x.packets| +
    (match x.p
     case PStart => c.chunks + 13
     case PAwait => c.chunks + 8
     case Probing(left) => left + 6
     case PSignal => 5
     case PReturn(todo) => Length(todo)) +
    (match x.h
     case HOff => 0
     case HOpening => 4
     case HOffering => 3
     case HListening => 2
     case HReporting(_) => 7
     case HForwarding(_) => 5
     case HLeaving => 1
     case HGone => 0)
  }

  function PortMeasure(c: Range, y: PortScan): nat {
    3 * |y.packets| +
    (match y.s
     case SStart => c.chunks + 13
     case SAwait => c.chunks + 8
     case Receiving => 6
     case Scanning(_) => 7
     case Sweeping(left) => left + 6
     case SSignal => 5
     case SReturn(todo) => Length(todo)) +
    (match y.t
     case TOff => 0
     case TOpening => 4
     case TOffering => 3
     case TListening => 2
     case TReporting(_) => 4
     case TLeaving => 1
     case TGone => 0)
  }

  function LocalMeasure(c: Range, l: Local): nat {
    DiscoveryMeasure(c, l.d) + PortMeasure(c, l.q) + 2 * |l.queue| + One(!l.returned)
  }

  function SumMeasure(cs: seq<Range>, ls: seq<Local>): nat
    requires |cs| == |ls|
  {
    if ls == [] then 0
    else SumMeasure(cs[..|ls| - 1], ls[..|ls| - 1]) + LocalMeasure(cs[|ls| - 1], ls[|ls| - 1])
  }

  function Measure(cs: seq<Range>, st: State): nat
    requires |cs| == |st.ranges|
  {
    SumMeasure(cs, st.ranges) + |st.shared.buf| + if st.closer.Waiting? then 2 else if st.closer.ClosingErrors? then 1 else 0
  }

  lemma {:induction false} SumUpdate(cs: seq<Range>, ls: seq<Local>, i: nat, l: Local)
    requires |cs| == |ls| && i < |ls|
    ensures SumMeasure(cs, ls[i := l]) == SumMeasure(cs, ls) - LocalMeasure(cs[i], ls[i]) + LocalMeasure(cs[i], l)
  {
    hide LocalMeasure;
    var n := |ls| - 1;
    if i < n {
      SumUpdate(cs[..n], ls[..n], i, l);
      assert ls[i := l][..n] == ls[..n][i := l];
    } else {
      assert ls[i := l][..n] == ls[..n];
    }
  }

  lemma DefersAreShort(k: Kind)
    ensures Length(ProberDefers(k)) <= 3 && Length(ScannerDefers(k)) <= 2
  {
    assert Length(Then(CloseReady, Nothing)) == 1;
    assert Length(Then(CloseUp, Then(CloseReady, Nothing))) == 2;
  }

  lemma DiscoveryDecreases(c: Range, i: nat, l: Local, sh: Shared, a: DiscoveryStep)
    requires Inv(c, l) && CanDiscover(c, l, sh, a) && SharedInv(DiscoverySends(c, i, l, sh, a)) && SharedInv(sh)
    ensures LocalMeasure(c, Discover(c, l, sh, a)) + |DiscoverySends(c, i, l, sh, a).buf| < LocalMeasure(c, l) + |sh.buf|
  {
    hide ReportInv, Suffix, Pending, ProberDefers, IsIPInRange;
    DefersAreShort(c.kind);
  }

  lemma PortDecreases(c: Range, i: nat, l: Local, sh: Shared, a: PortStep)
    requires Inv(c, l) && CanScan(c, l, sh, a) && SharedInv(PortSends(c, i, l, sh, a)) && SharedInv(sh)
    ensures LocalMeasure(c, ScanStep(c, l, sh, a)) + |PortSends(c, i, l, sh, a).buf| < LocalMeasure(c, l) + |sh.buf|
  {
    hide ReportInv, Suffix, Pending, ScannerDefers, IsIPInRange;
    DefersAreShort(c.kind);
  }

  /** Every action uses up part of what is left to do. */
  lemma EveryActionDecreases(cs: seq<Range>, st: State, act: Action)
    requires GlobalInv(cs, st) && Possible(cs, st, act)
    ensures Measure(cs, After(cs, st, act)) < Measure(cs, st)
  {
    hide Inv, AnswerInv, CanDiscover, CanScan, Discovered, Scanned, DiscoverySends, PortSends, HostsOf;
    hide SumMeasure, DiscoveryMeasure, PortMeasure;
    NextKeeps(cs, st, act);
    match act
    case Hosts(i, a) =>
      DiscoveryDecreases(cs[i], i, st.ranges[i], st.shared, a);
      SumUpdate(cs, st.ranges, i, Discover(cs[i], st.ranges[i], st.shared, a));
    case Ports(i, b) =>
      PortDecreases(cs[i], i, st.ranges[i], st.shared, b);
      SumUpdate(cs, st.ranges, i, ScanStep(cs[i], st.ranges[i], st.shared, b));
    case Return(i) => SumUpdate(cs, st.ranges, i, st.ranges[i].(returned := true));
    case Consume =>
    case CloseFindings =>
    case CloseErrors =>
  }

  /** How many steps a scan can take, whatever the interleaving. */
  function Budget(cs: seq<Range>): nat {
    if cs == [] then 2
    else
      var c := cs[|cs| - 1];
      Budget(cs[..|cs| - 1]) + 6 * |c.hostPackets| + 3 * |c.portPackets| + 2 * c.chunks + 27
  }

  lemma {:induction false} BudgetCoversStart(cs: seq<Range>)
    ensures Measure(cs, Init(cs)) <= Budget(cs)
  {
    if cs != [] {
      var n := |cs| - 1;
      BudgetCoversStart(cs[..n]);
      assert Init(cs).ranges[..n] == Init(cs[..n]).ranges;
    }
  }

  lemma {:induction false} RunIsShort(cs: seq<Range>, sts: seq<State>, acts: seq<Action>, k: nat)
    requires IsRun(cs, sts, acts) && k < |sts|
    ensures GlobalInv(cs, sts[k]) && k + Measure(cs, sts[k]) <= Budget(cs)
  {
    hide Inv, AnswerInv, Possible, After, Measure;
    RunInv(cs, sts, acts, k);
    if k == 0 {
      BudgetCoversStart(cs);
    } else {
      RunIsShort(cs, sts, acts, k - 1);
      assert Takes(cs, sts[k - 1], acts[k - 1], sts[k]);
      EveryActionDecreases(cs, sts[k - 1], acts[k - 1]);
    }
  }

  // ---------------------------------------------------------------- how runs end

  /**
   The findings of range i are what its packets, as far as they were taken, tell: its hosts the senders of replies in
   the range, its ports the open ones, each once for each packet and in the order of arrival.
   */
  ghost predicate Told(c: Range, l: Local, fs: seq<Finding>, i: nat) {
    |l.d.packets| <= |c.hostPackets| && |l.q.packets| <= |c.portPackets| &&
    HostsOf(fs, i) == Accepted(c, c.hostPackets[..|c.hostPackets| - |l.d.packets|]) &&
    PortsOf(fs, i) == Answers(c.portPackets[..|c.portPackets| - |l.q.packets|])
  }

  /** Everything was sent, every reported host scanned, and the reader has every finding in order. */
  ghost predicate Complete(cs: seq<Range>, st: State) {
    Final(cs, st) && st.shared.delivered == st.shared.sent && st.shared.closed && !st.shared.panic &&
    forall i :: 0 <= i < |cs| ==>
      st.ranges[i].q.scanned == HostsOf(st.shared.delivered, i) && Told(cs[i], st.ranges[i], st.shared.delivered, i) &&
      (if cs[i].kind.Direct? then st.ranges[i].q.swept == cs[i].chunks else st.ranges[i].d.probes == cs[i].chunks)
  }

  /** At any time: the findings sent for a range, and the one about to be sent, are what the packets taken tell. */
  lemma FindingsAreTold(cs: seq<Range>, sts: seq<State>, acts: seq<Action>, k: nat, i: nat)
    requires IsRun(cs, sts, acts) && k < |sts| && i < |cs|
    ensures i < |sts[k].ranges|
    ensures var l, fs := sts[k].ranges[i], sts[k].shared.sent;
            |l.d.packets| <= |cs[i].hostPackets| && |l.q.packets| <= |cs[i].portPackets| &&
            HostsOf(fs, i) + InReport(l.d) == Accepted(cs[i], cs[i].hostPackets[..|cs[i].hostPackets| - |l.d.packets|]) &&
            PortsOf(fs, i) + InPortReport(l.q) == Answers(cs[i].portPackets[..|cs[i].portPackets| - |l.q.packets|])
  {
    hide Takes, Init, HostsOf, PortsOf, Accepted, Answers, InReport, InPortReport, JointInv, ProberInv, ScannerInv;
    RunInv(cs, sts, acts, k);
  }

  lemma FinishedIsScanned(c: Range, l: Local)
    requires Inv(c, l) && AnswerInv(c, l.q) && Finished(l)
    ensures l.q.scanned == l.d.reported
    ensures if c.kind.Direct? then l.q.swept == c.chunks else l.d.probes == c.chunks
    ensures |l.d.packets| <= |c.hostPackets| && |l.q.packets| <= |c.portPackets|
    ensures l.d.reported == Accepted(c, c.hostPackets[..|c.hostPackets| - |l.d.packets|])
    ensures l.q.found == Answers(c.portPackets[..|c.portPackets| - |l.q.packets|])
  {
    hide Accepted, Answers;
    assert l.d.reported + [] == l.d.reported && l.q.found + [] == l.q.found;
    assert l.q.scanned + [] + [] == l.q.scanned;
    assert l.d.forwarded + [] == l.d.forwarded;
  }

  lemma FinalIsComplete(cs: seq<Range>, st: State)
    requires GlobalInv(cs, st) && Final(cs, st)
    ensures Complete(cs, st)
  {
    hide Inv, HostsOf, PortsOf, Accepted, Answers, Finished;
    assert st.shared.delivered + [] == st.shared.delivered;
    forall i | 0 <= i < |cs|
      ensures st.ranges[i].q.scanned == HostsOf(st.shared.delivered, i) && Told(cs[i], st.ranges[i], st.shared.delivered, i)
      ensures if cs[i].kind.Direct? then st.ranges[i].q.swept == cs[i].chunks else st.ranges[i].d.probes == cs[i].chunks
    {
      FinishedIsScanned(cs[i], st.ranges[i]);
    }
  }

  /**
   Every run has a bounded number of steps, and one that cannot be continued except by a packet's arrival is over:
   all goroutines have returned, all wait groups have drained, nothing is left unscanned or unread, and what was
   delivered is what the packets taken tell.
   */
  lemma EveryRunEnds(cs: seq<Range>, sts: seq<State>, acts: seq<Action>)
    requires IsRun(cs, sts, acts)
    ensures |acts| <= Budget(cs)
    ensures |sts[|acts|].ranges| == |cs|
    ensures (forall act :: Possible(cs, sts[|acts|], act) ==> Arrival(act)) ==> Complete(cs, sts[|acts|])
  {
    hide Inv, AnswerInv, Possible, Final, HostsOf, Complete;
    var st := sts[|acts|];
    RunIsShort(cs, sts, acts, |acts|);
    if forall act :: Possible(cs, st, act) ==> Arrival(act) {
      if !Final(cs, st) {
        var act := Progress(cs, st);
      }
      FinalIsComplete(cs, st);
    }
  }
}
