/** The invariant of the goroutine protocol, kept by every step, and what it says of every run. */
module ProtocolSafety {
  import opened Bytes
  import opened Addresses
  import opened Enumerator
  import opened Protocol

  // ---------------------------------------------------------------- deferred calls

  predicate Pending(op: Op, d: Deferred) {
    d.Then? && (d.op == op || Pending(op, d.rest))
  }

  predicate Suffix(d: Deferred, of: Deferred) {
    d == of || (of.Then? && Suffix(d, of.rest))
  }

  lemma SuffixOfThen(d: Deferred, op: Op, rest: Deferred)
    ensures Suffix(d, Then(op, rest)) <==> d == Then(op, rest) || Suffix(d, rest)
    ensures Suffix(d, Nothing) <==> d == Nothing
  {
  }

  lemma SuffixesOfDefers(d: Deferred)
    ensures Suffix(d, Nothing) <==> d == Nothing
    ensures Suffix(d, ProberDefers(Neighbours)) <==> d in {ProberDefers(Neighbours), Then(WgDone, Nothing), Nothing}
    ensures Suffix(d, ScannerDefers(Ping)) <==> d in {ScannerDefers(Ping), Then(WgDone, Nothing), Nothing}
    ensures Suffix(d, ProberDefers(Ping)) <==>
            d in {ProberDefers(Ping), Then(CloseUp, Then(CloseReady, Nothing)), Then(CloseReady, Nothing), Nothing}
  {
    SuffixOfThen(d, CloseReady, Nothing);
    SuffixOfThen(d, WgDone, Nothing);
    SuffixOfThen(d, CloseUp, Then(WgDone, Nothing));
    SuffixOfThen(d, CloseReady, Then(WgDone, Nothing));
    SuffixOfThen(d, CloseUp, Then(CloseReady, Nothing));
    SuffixOfThen(d, WgDone, Then(CloseUp, Then(CloseReady, Nothing)));
  }

  /** A pending call of the prober has not been made yet, and is made once. */
  lemma ProberTodo(todo: Deferred, k: Kind)
    requires Suffix(todo, ProberDefers(k)) && todo.Then?
    ensures Suffix(todo.rest, ProberDefers(k)) && !Pending(todo.op, todo.rest) && !k.Direct?
    ensures todo.op == CloseReady ==> k.Ping?
  {
    SuffixesOfDefers(todo);
    SuffixesOfDefers(todo.rest);
  }

  lemma ScannerTodo(todo: Deferred, k: Kind)
    requires Suffix(todo, ScannerDefers(k)) && todo.Then?
    ensures Suffix(todo.rest, ScannerDefers(k)) && !Pending(todo.op, todo.rest) && !k.Direct? && !todo.op.CloseUp?
  {
    SuffixesOfDefers(todo);
    SuffixesOfDefers(todo.rest);
  }

  /** Nothing is done before its turn. */
  lemma DefersComplete(k: Kind)
    ensures Suffix(ProberDefers(k), ProberDefers(k)) && Suffix(ScannerDefers(k), ScannerDefers(k))
    ensures !k.Direct? ==> Pending(WgDone, ProberDefers(k)) && Pending(CloseUp, ProberDefers(k))
    ensures !k.Direct? ==> Pending(WgDone, ScannerDefers(k)) && Pending(CloseReady, ScannerDefers(k))
    ensures k.Ping? ==> Pending(CloseReady, ProberDefers(k))
    ensures forall op :: !Pending(op, Nothing)
  {
    assert Pending(CloseReady, Then(CloseReady, Nothing));
    assert Pending(CloseReady, Then(CloseUp, Then(CloseReady, Nothing)));
  }

  // ---------------------------------------------------------------- the invariant of one range

  function One(b: bool): nat { if b then 1 else 0 }

  /** Whether a deferred call of the prober, or of the scanner, has been made. */
  predicate ProberDid(x: Discovery, op: Op) {
    x.p.PReturn? && !Pending(op, x.p.todo)
  }

  predicate ScannerDid(y: PortScan, op: Op) {
    y.s.SReturn? && !Pending(op, y.s.todo)
  }

  predicate Hears(h: HostInterceptor) { h.HListening? || h.HReporting? || h.HForwarding? }

  predicate Listens(t: PortInterceptor) { t.TListening? || t.TReporting? }

  /** The host interceptor listens while probes leave, and is stopped before the prober returns. */
  predicate ProberInv(k: Kind, x: Discovery) {
    match x.p
    case PStart => x.h.HOff? && !k.Direct?
    case PAwait => (x.h.HOpening? || x.h.HOffering?) && !k.Direct?
    case Probing(_) => Hears(x.h) && !k.Direct?
    case PSignal => Hears(x.h) && !k.Direct?
    case PReturn(todo) => (x.h.HGone? || (x.h.HLeaving? && !k.Direct?)) && Suffix(todo, ProberDefers(k))
  }

  predicate ScannerInv(k: Kind, y: PortScan) {
    match y.s
    case SStart => y.t.TOff?
    case SAwait => y.t.TOpening? || y.t.TOffering?
    case Receiving => Listens(y.t) && !k.Direct?
    case Scanning(_) => Listens(y.t) && !k.Direct?
    case Sweeping(_) => Listens(y.t) && k.Direct?
    case SSignal => Listens(y.t)
    case SReturn(todo) => (y.t.TLeaving? || y.t.TGone?) && Suffix(todo, ScannerDefers(k))
  }

  /** The prober's channels are closed by the deferred calls made so far. */
  predicate ProberChannels(k: Kind, x: Discovery) {
    (x.upClosed <==> !k.Direct? && ProberDid(x, CloseUp)) && (x.readyClosed <==> k.Ping? && ProberDid(x, CloseReady))
  }

  predicate ScannerChannels(k: Kind, y: PortScan) {
    y.readyClosed <==> !k.Direct? && ScannerDid(y, CloseReady)
  }

  /** Goroutines of each half that the wait group counts. */
  function ProberCount(k: Kind, x: Discovery): nat {
    One(!k.Direct? && !ProberDid(x, WgDone)) + One(!x.h.HOff? && !x.h.HGone?)
  }

  function ScannerCount(k: Kind, y: PortScan): nat {
    One(!k.Direct? && !ScannerDid(y, WgDone)) + One(!y.t.TOff? && !y.t.TGone?)
  }

  /** Hosts on the way from the interceptor to the channel, and from the channel to the record. */
  function InForward(x: Discovery): seq<Target> { if x.h.HForwarding? then [x.h.host] else [] }

  function InScan(y: PortScan): seq<Target> { if y.s.Scanning? then [y.s.host] else [] }

  /** Chunks sent and to be sent. */
  predicate ProbeInv(c: Range, x: Discovery) {
    match x.p
    case PStart => x.probes == 0
    case PAwait => x.probes == 0
    case Probing(left) => x.probes + left == c.chunks
    case PSignal => x.probes == c.chunks
    case PReturn(_) => x.probes == if c.kind.Direct? then 0 else c.chunks
  }

  predicate SweepInv(c: Range, y: PortScan) {
    match y.s
    case Sweeping(left) => y.swept + left == c.chunks
    case SSignal => y.swept == if c.kind.Direct? then c.chunks else 0
    case SReturn(_) => y.swept == if c.kind.Direct? then c.chunks else 0
    case _ => y.swept == 0
  }

  /** The senders, in the range, of replies among the packets. */
  function Accepted(c: Range, ps: seq<Option<Target>>): seq<Target> {
    if ps == [] then []
    else
      var p := ps[|ps| - 1];
      Accepted(c, ps[..|ps| - 1]) + if p.Some? && IsIPInRange(c.start, c.end, p.value.ip) then [p.value] else []
  }

  function InReport(x: Discovery): seq<Target> { if x.h.HReporting? then [x.h.host] else [] }

  /** Packets arrive in order, and every sender of a reply in the range is reported, once for each of its replies. */
  ghost predicate PacketInv(c: Range, x: Discovery) {
    |x.packets| <= |c.hostPackets| &&
    x.packets == c.hostPackets[|c.hostPackets| - |x.packets|..] &&
    Accepted(c, c.hostPackets[..|c.hostPackets| - |x.packets|]) == x.reported + InReport(x)
  }

  /** Reported hosts are handed on in order; without discovery there are none. */
  ghost predicate ReportInv(c: Range, x: Discovery) {
    x.reported == x.forwarded + InForward(x) && PacketInv(c, x) && (c.kind.Direct? ==> x.reported == [])
  }

  lemma {:induction false} AcceptedInRange(c: Range, ps: seq<Option<Target>>, k: nat)
    requires k < |Accepted(c, ps)|
    ensures Some(Accepted(c, ps)[k]) in ps && IsIPInRange(c.start, c.end, Accepted(c, ps)[k].ip)
  {
    hide IsIPInRange;
    var init := ps[..|ps| - 1];
    if k < |Accepted(c, init)| { AcceptedInRange(c, init, k); }
  }

  /** Reported hosts have replied and lie in the range. */
  lemma ReportedInRange(c: Range, x: Discovery, k: nat)
    requires PacketInv(c, x) && k < |x.reported|
    ensures Some(x.reported[k]) in c.hostPackets && IsIPInRange(c.start, c.end, x.reported[k].ip)
  {
    var n := |c.hostPackets| - |x.packets|;
    AcceptedInRange(c, c.hostPackets[..n], k);
  }

  ghost predicate DiscoveryInv(c: Range, x: Discovery) {
    ProberInv(c.kind, x) && ProberChannels(c.kind, x) && ProbeInv(c, x) && ReportInv(c, x)
  }

  /** A UDP segment, or a TCP segment with SYN and ACK but not RST, tells an open port. */
  predicate TellsOpen(p: Reply) {
    p.Udp? || (p.Tcp? && p.syn && p.ack && !p.rst)
  }

  /** The open ports told by packets, in order, once for each packet. */
  function Answers(ps: seq<Reply>): seq<OpenPort> {
    if ps == [] then []
    else
      var p := ps[|ps| - 1];
      Answers(ps[..|ps| - 1]) + if TellsOpen(p) then [OpenPort(p.ip, p.port, p.Tcp?)] else []
  }

  function InPortReport(y: PortScan): seq<OpenPort> { if y.t.TReporting? then [y.t.open] else [] }

  /** Packets arrive in order, and every open port they tell is reported, once for each packet. */
  ghost predicate AnswerInv(c: Range, y: PortScan) {
    |y.packets| <= |c.portPackets| &&
    y.packets == c.portPackets[|c.portPackets| - |y.packets|..] &&
    Answers(c.portPackets[..|c.portPackets| - |y.packets|]) == y.found + InPortReport(y)
  }

  ghost predicate PortInv(c: Range, y: PortScan) {
    ScannerInv(c.kind, y) && ScannerChannels(c.kind, y) && SweepInv(c, y)
  }

  /** The two halves together: hosts handed on are scanned in order, and the scanner ends when they are all done. */
  ghost predicate JointInv(c: Range, l: Local) {
    l.d.forwarded == l.q.scanned + InScan(l.q) + l.queue && |l.queue| <= UP_HOSTS &&
    (c.kind.Direct? ==> l.queue == []) &&
    (!c.kind.Direct? && (l.q.s.SSignal? || l.q.s.SReturn?) ==> l.d.upClosed && l.queue == []) &&
    l.wg == ProberCount(c.kind, l.d) + ScannerCount(c.kind, l.q) &&
    (l.returned ==> if c.kind.Direct? then l.q.s == SReturn(Nothing) else l.wg == 0)
  }

  ghost predicate Inv(c: Range, l: Local) {
    DiscoveryInv(c, l.d) && PortInv(c, l.q) && JointInv(c, l)
  }

  lemma StartInv(c: Range)
    ensures Inv(c, Start(c))
  {
    SuffixesOfDefers(Nothing);
  }

  // ---------------------------------------------------------------- steps of one range

  lemma DiscoveryKeepsPhases(c: Range, l: Local, sh: Shared, a: DiscoveryStep)
    requires DiscoveryInv(c, l.d) && CanDiscover(c, l, sh, a)
    ensures var x := Discovered(c, l, sh, a);
            ProberInv(c.kind, x) && ProberChannels(c.kind, x) && ProbeInv(c, x) &&
            DiscoveryJoins(c, l, sh, a) == ProberCount(c.kind, x) - ProberCount(c.kind, l.d)
  {
    hide ReportInv, Suffix, ProberDefers, IsIPInRange, Pending;
    DefersComplete(c.kind);
    if a.Defer? { DeferredOnce(l.d.p.todo, c.kind); }
  }

  lemma DeferredOnce(todo: Deferred, k: Kind)
    requires Suffix(todo, ProberDefers(k)) && todo.Then?
    ensures Suffix(todo.rest, ProberDefers(k)) && !k.Direct? && (todo.op == CloseReady ==> k.Ping?)
    ensures forall op :: Pending(op, todo) <==> op == todo.op || Pending(op, todo.rest)
    ensures !Pending(todo.op, todo.rest)
  {
    ProberTodo(todo, k);
  }

  lemma DiscoveryKeepsReports(c: Range, l: Local, sh: Shared, a: DiscoveryStep)
    requires DiscoveryInv(c, l.d) && CanDiscover(c, l, sh, a)
    ensures ReportInv(c, Discovered(c, l, sh, a))
  {
    hide Suffix, ProberDefers, Pending, IsIPInRange, PacketInv;
    assert l.d.forwarded + [] == l.d.forwarded;
    PacketKept(c, l, sh, a);
    if a.Forward? {
      assert l.d.reported + [] == l.d.reported;
    }
  }

  /** Only an arriving packet changes what has been reported or is about to be. */
  lemma ReportsUntouched(c: Range, l: Local, sh: Shared, a: DiscoveryStep)
    requires ProberInv(c.kind, l.d) && CanDiscover(c, l, sh, a) && !a.Packet?
    ensures var x := Discovered(c, l, sh, a);
            x.packets == l.d.packets && x.reported + InReport(x) == l.d.reported + InReport(l.d)
  {
    hide Suffix, ProberDefers, IsIPInRange;
    if a.Report? {
      assert l.d.reported + [l.d.h.host] + [] == l.d.reported + [l.d.h.host];
    }
  }

  lemma AcceptedNext(c: Range, n: nat)
    requires n < |c.hostPackets|
    ensures var p := c.hostPackets[n];
            Accepted(c, c.hostPackets[..n + 1]) ==
            Accepted(c, c.hostPackets[..n]) + if p.Some? && IsIPInRange(c.start, c.end, p.value.ip) then [p.value] else []
  {
    hide IsIPInRange;
    TakeNext(c.hostPackets, n);
  }

  lemma PacketTaken(c: Range, l: Local, sh: Shared)
    requires PacketInv(c, l.d) && CanDiscover(c, l, sh, Packet)
    ensures PacketInv(c, Discovered(c, l, sh, Packet))
  {
    hide IsIPInRange, Accepted;
    var n := |c.hostPackets| - |l.d.packets|;
    AcceptedNext(c, n);
    assert c.hostPackets[n] == l.d.packets[0] && c.hostPackets[n + 1..] == l.d.packets[1..];
    assert l.d.reported + [] == l.d.reported;
  }

  lemma PacketKept(c: Range, l: Local, sh: Shared, a: DiscoveryStep)
    requires DiscoveryInv(c, l.d) && CanDiscover(c, l, sh, a)
    ensures PacketInv(c, Discovered(c, l, sh, a))
  {
    if a.Packet? {
      hide CanDiscover, Discovered, PacketInv;
      PacketTaken(c, l, sh);
    } else {
      hide CanDiscover, Discovered, Accepted, InReport, ProberInv;
      ReportsUntouched(c, l, sh, a);
    }
  }

  /** A discovery step neither sends on nor closes a closed channel, nor leaves the wait group too often. */
  lemma DiscoveryIsSafe(c: Range, i: nat, l: Local, sh: Shared, a: DiscoveryStep)
    requires Inv(c, l) && CanDiscover(c, l, sh, a) && (sh.closed ==> l.returned) && !sh.panic
    ensures !DiscoverySends(c, i, l, sh, a).panic
  {
    hide ReportInv, Suffix, ProberDefers, ScannerDefers, IsIPInRange;
    if a.Defer? { DeferredOnce(l.d.p.todo, c.kind); }
  }

  lemma PortKeepsPhases(c: Range, l: Local, sh: Shared, a: PortStep)
    requires PortInv(c, l.q) && CanScan(c, l, sh, a)
    ensures PortInv(c, Scanned(c, l, sh, a))
    ensures PortJoins(c, l, sh, a) == ScannerCount(c.kind, Scanned(c, l, sh, a)) - ScannerCount(c.kind, l.q)
  {
    hide Suffix, ScannerDefers, Pending;
    DefersComplete(c.kind);
    if a.DeferS? { ScannedOnce(l.q.s.todo, c.kind); }
  }

  lemma ScannedOnce(todo: Deferred, k: Kind)
    requires Suffix(todo, ScannerDefers(k)) && todo.Then?
    ensures Suffix(todo.rest, ScannerDefers(k)) && !k.Direct? && !todo.op.CloseUp?
    ensures forall op :: Pending(op, todo) <==> op == todo.op || Pending(op, todo.rest)
    ensures !Pending(todo.op, todo.rest)
  {
    ScannerTodo(todo, k);
  }

  /** Only an arriving packet changes what has been found or is about to be reported. */
  lemma AnswersUntouched(c: Range, l: Local, sh: Shared, a: PortStep)
    requires ScannerInv(c.kind, l.q) && CanScan(c, l, sh, a) && !a.PacketT?
    ensures var y := Scanned(c, l, sh, a);
            y.packets == l.q.packets && y.found + InPortReport(y) == l.q.found + InPortReport(l.q)
  {
    hide Suffix, ScannerDefers;
    if a.ReportT? {
      assert l.q.found + [l.q.t.open] + [] == l.q.found + [l.q.t.open];
    }
  }

  lemma AnswersNext(c: Range, n: nat)
    requires n < |c.portPackets|
    ensures var p := c.portPackets[n];
            Answers(c.portPackets[..n + 1]) ==
            Answers(c.portPackets[..n]) + if TellsOpen(p) then [OpenPort(p.ip, p.port, p.Tcp?)] else []
  {
    TakeNext(c.portPackets, n);
  }

  lemma AnswerTaken(c: Range, l: Local, sh: Shared)
    requires AnswerInv(c, l.q) && CanScan(c, l, sh, PacketT)
    ensures AnswerInv(c, Scanned(c, l, sh, PacketT))
  {
    hide Answers;
    var n := |c.portPackets| - |l.q.packets|;
    AnswersNext(c, n);
    assert c.portPackets[n] == l.q.packets[0] && c.portPackets[n + 1..] == l.q.packets[1..];
    assert l.q.found + [] == l.q.found;
  }

  lemma AnswersKept(c: Range, l: Local, sh: Shared, a: PortStep)
    requires ScannerInv(c.kind, l.q) && AnswerInv(c, l.q) && CanScan(c, l, sh, a)
    ensures AnswerInv(c, Scanned(c, l, sh, a))
  {
    if a.PacketT? {
      hide CanScan, Scanned, AnswerInv;
      AnswerTaken(c, l, sh);
    } else {
      hide CanScan, Scanned, Answers, InPortReport, ScannerInv;
      AnswersUntouched(c, l, sh, a);
    }
  }

  lemma PortIsSafe(c: Range, i: nat, l: Local, sh: Shared, a: PortStep)
    requires Inv(c, l) && CanScan(c, l, sh, a) && (sh.closed ==> l.returned) && !sh.panic
    ensures !PortSends(c, i, l, sh, a).panic
  {
    hide ReportInv, Suffix, ProberDefers, ScannerDefers, IsIPInRange;
    if a.DeferS? { ScannedOnce(l.q.s.todo, c.kind); }
  }

  /** Handing a host on, and everything else discovery does, leaves the flow of hosts intact. */
  lemma DiscoveryKeepsJoint(c: Range, l: Local, sh: Shared, a: DiscoveryStep)
    requires Inv(c, l) && CanDiscover(c, l, sh, a)
    ensures JointInv(c, Discover(c, l, sh, a))
  {
    hide ReportInv, Suffix, ProberDefers, ScannerDefers, IsIPInRange, Pending, ProberCount, ScannerCount;
    DiscoveryKeepsPhases(c, l, sh, a);
    if !c.kind.Direct? && l.wg == 0 { GroupStaysEmpty(c, l, sh, a); }
    if a.Forward? {
      assert l.q.scanned + InScan(l.q) + (l.queue + [l.d.h.host]) == l.q.scanned + InScan(l.q) + l.queue + [l.d.h.host];
    }
  }

  /** Nobody joins or leaves an empty wait group. */
  lemma GroupEmpty(c: Range, l: Local)
    requires Inv(c, l) && !c.kind.Direct? && l.wg == 0
    ensures l.d.p.PReturn? && l.d.h.HGone? && l.q.s.SReturn? && l.q.t.TGone?
    ensures ProberDid(l.d, WgDone) && ScannerDid(l.q, WgDone)
  {
    hide ReportInv;
  }

  lemma GroupStaysEmpty(c: Range, l: Local, sh: Shared, a: DiscoveryStep)
    requires Inv(c, l) && !c.kind.Direct? && l.wg == 0 && CanDiscover(c, l, sh, a)
    ensures DiscoveryJoins(c, l, sh, a) == 0
  {
    GroupEmpty(c, l);
  }

  lemma PortKeepsJoint(c: Range, l: Local, sh: Shared, a: PortStep)
    requires Inv(c, l) && CanScan(c, l, sh, a)
    ensures JointInv(c, ScanStep(c, l, sh, a))
  {
    hide ReportInv, Suffix, ProberDefers, ScannerDefers, IsIPInRange, Pending, ProberCount, ScannerCount;
    PortKeepsPhases(c, l, sh, a);
    if !c.kind.Direct? && l.wg == 0 { GroupEmpty(c, l); }
    if a.Take? {
      assert l.q.scanned + [] + l.queue == l.q.scanned + [l.queue[0]] + l.queue[1..];
    } else if a.Scan? {
      assert l.q.scanned + [l.q.s.host] + l.queue == (l.q.scanned + [l.q.s.host]) + [] + l.queue;
    }
  }

  lemma DiscoveryKeeps(c: Range, l: Local, sh: Shared, a: DiscoveryStep)
    requires Inv(c, l) && CanDiscover(c, l, sh, a)
    ensures Inv(c, Discover(c, l, sh, a)) && Discover(c, l, sh, a).returned == l.returned
  {
    hide ProberInv, ProberChannels, ProbeInv, ReportInv, JointInv, CanDiscover, Discovered;
    DiscoveryKeepsPhases(c, l, sh, a);
    DiscoveryKeepsReports(c, l, sh, a);
    DiscoveryKeepsJoint(c, l, sh, a);
  }

  lemma PortKeeps(c: Range, l: Local, sh: Shared, a: PortStep)
    requires Inv(c, l) && CanScan(c, l, sh, a)
    ensures Inv(c, ScanStep(c, l, sh, a)) && ScanStep(c, l, sh, a).returned == l.returned
  {
    hide ScannerInv, ScannerChannels, SweepInv, JointInv, CanScan, Scanned;
    PortKeepsPhases(c, l, sh, a);
    PortKeepsJoint(c, l, sh, a);
  }

  lemma ReturnKeeps(c: Range, l: Local)
    requires Inv(c, l) && CanReturn(c, l)
    ensures Inv(c, l.(returned := true))
  {
    hide ProberInv, ProberChannels, ReportInv, ScannerInv, ScannerChannels;
  }

  // ---------------------------------------------------------------- the invariant of the whole scan

  /** The hosts of one range among the findings. */
  function HostsOf(fs: seq<Finding>, i: nat): seq<Target> {
    if fs == [] then []
    else
      var f := fs[|fs| - 1];
      HostsOf(fs[..|fs| - 1], i) + if f.Host? && f.range == i then [f.host] else []
  }

  lemma FindingsNext(fs: seq<Finding>, f: Finding, i: nat)
    ensures HostsOf(fs + [f], i) == HostsOf(fs, i) + if f.Host? && f.range == i then [f.host] else []
    ensures PortsOf(fs + [f], i) == PortsOf(fs, i) + if f.Port? && f.range == i then [f.open] else []
  {
    assert (fs + [f])[..|fs|] == fs;
  }

  /** The ports of one range among the findings. */
  function PortsOf(fs: seq<Finding>, i: nat): seq<OpenPort> {
    if fs == [] then []
    else
      var f := fs[|fs| - 1];
      PortsOf(fs[..|fs| - 1], i) + if f.Port? && f.range == i then [f.open] else []
  }

  ghost predicate SharedInv(sh: Shared) {
    !sh.panic && sh.sent == sh.delivered + sh.buf && |sh.buf| <= FINDINGS
  }

  ghost predicate GlobalInv(cs: seq<Range>, st: State) {
    |st.ranges| == |cs| && SharedInv(st.shared) && (st.shared.closed <==> !st.closer.Waiting?) &&
    (forall i :: 0 <= i < |cs| ==> Inv(cs[i], st.ranges[i]) && AnswerInv(cs[i], st.ranges[i].q)) &&
    (forall i :: 0 <= i < |cs| ==> HostsOf(st.shared.sent, i) == st.ranges[i].d.reported) &&
    (forall i :: 0 <= i < |cs| ==> PortsOf(st.shared.sent, i) == st.ranges[i].q.found) &&
    (!st.closer.Waiting? ==> forall i :: 0 <= i < |cs| ==> st.ranges[i].returned)
  }

  lemma InitInv(cs: seq<Range>)
    ensures GlobalInv(cs, Init(cs))
  {
    hide Inv;
    forall i | 0 <= i < |cs| ensures Inv(cs[i], Init(cs).ranges[i]) { StartInv(cs[i]); }
  }

  lemma SendKeeps(sh: Shared, f: Finding, i: nat)
    requires SharedInv(sh) && |sh.buf| < FINDINGS && !sh.closed
    ensures SharedInv(Send(sh, f)) && !Send(sh, f).closed
    ensures HostsOf(Send(sh, f).sent, i) == HostsOf(sh.sent, i) + if f.Host? && f.range == i then [f.host] else []
    ensures PortsOf(Send(sh, f).sent, i) == PortsOf(sh.sent, i) + if f.Port? && f.range == i then [f.open] else []
  {
    FindingsNext(sh.sent, f, i);
  }

  /** What a discovery step does to the shared state and to the record of its own and of other ranges. */
  lemma DiscoveryShares(c: Range, i: nat, l: Local, sh: Shared, a: DiscoveryStep, j: nat)
    requires Inv(c, l) && CanDiscover(c, l, sh, a) && (sh.closed ==> l.returned) && SharedInv(sh)
    requires i == j ==> HostsOf(sh.sent, j) == l.d.reported
    ensures var sh' := DiscoverySends(c, i, l, sh, a);
            SharedInv(sh') && sh'.closed == sh.closed &&
            HostsOf(sh'.sent, j) == (if i == j then Discovered(c, l, sh, a).reported else HostsOf(sh.sent, j)) &&
            PortsOf(sh'.sent, j) == PortsOf(sh.sent, j)
  {
    hide ReportInv, HostsOf, PortsOf, Inv;
    DiscoveryIsSafe(c, i, l, sh, a);
    if a.Report? {
      SendKeeps(sh, Host(i, l.d.h.host), j);
    }
  }

  lemma PortShares(c: Range, i: nat, l: Local, sh: Shared, a: PortStep, j: nat)
    requires Inv(c, l) && CanScan(c, l, sh, a) && (sh.closed ==> l.returned) && SharedInv(sh)
    requires i == j ==> PortsOf(sh.sent, j) == l.q.found
    ensures var sh' := PortSends(c, i, l, sh, a);
            SharedInv(sh') && sh'.closed == sh.closed && HostsOf(sh'.sent, j) == HostsOf(sh.sent, j) &&
            PortsOf(sh'.sent, j) == if i == j then Scanned(c, l, sh, a).found else PortsOf(sh.sent, j)
  {
    hide ReportInv, HostsOf, PortsOf, Inv;
    PortIsSafe(c, i, l, sh, a);
    if a.ReportT? {
      SendKeeps(sh, Port(i, l.q.t.open), j);
    }
  }

  lemma AnswersFollow(c: Range, l: Local, sh: Shared, a: PortStep)
    requires Inv(c, l) && AnswerInv(c, l.q) && CanScan(c, l, sh, a)
    ensures AnswerInv(c, ScanStep(c, l, sh, a).q)
  {
    hide AnswerInv, CanScan, Scanned, ScannerInv;
    AnswersKept(c, l, sh, a);
  }

  /** Every step of the scan keeps the invariant; in particular none panics. */
  lemma NextKeeps(cs: seq<Range>, st: State, act: Action)
    requires GlobalInv(cs, st) && Possible(cs, st, act)
    ensures GlobalInv(cs, After(cs, st, act))
  {
    hide Inv, AnswerInv, CanDiscover, CanScan, Discovered, Scanned, DiscoverySends, PortSends, HostsOf, PortsOf, CanReturn;
    match act
    case Hosts(i, a) =>
      DiscoveryKeeps(cs[i], st.ranges[i], st.shared, a);
      forall j | 0 <= j < |cs| { DiscoveryShares(cs[i], i, st.ranges[i], st.shared, a, j); }
      DiscoveryShares(cs[i], i, st.ranges[i], st.shared, a, i);
    case Ports(i, b) =>
      PortKeeps(cs[i], st.ranges[i], st.shared, b);
      AnswersFollow(cs[i], st.ranges[i], st.shared, b);
      forall j | 0 <= j < |cs| { PortShares(cs[i], i, st.ranges[i], st.shared, b, j); }
      PortShares(cs[i], i, st.ranges[i], st.shared, b, i);
    case Return(i) => ReturnKeeps(cs[i], st.ranges[i]);
    case Consume => assert st.shared.delivered + st.shared.buf == st.shared.delivered + [st.shared.buf[0]] + st.shared.buf[1..];
    case CloseFindings =>
    case CloseErrors =>
  }
}
