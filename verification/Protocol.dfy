/**
 The goroutines of an error-free scan as a step relation. Every range has a prober and a host interceptor,
 a port scanner and a port interceptor, and the function that waits for them; without host discovery only
 the last two, the scanner being the waiting function itself. The goroutines meet on unbuffered channels,
 pass hosts through a bounded one and report findings through another, which a closer closes at the end.
 Sending on a closed channel, closing one twice and a negative wait group are steps too: they panic.
 */
module Protocol {
  import opened Bytes
  import opened Addresses
  import opened Enumerator

  const FINDINGS: nat := 16
  const UP_HOSTS: nat := 1024

  /** Discovery by echo or ARP requests, by multicast to the link's neighbours, or none. */
  datatype Kind = Ping | Neighbours | Direct

  /** A packet the port interceptor captures: a TCP or UDP segment with its sender, or anything else. */
  datatype Reply = Unrelated | Tcp(ip: IP, port: nat, syn: bool, ack: bool, rst: bool) | Udp(ip: IP, port: nat)

  datatype OpenPort = OpenPort(ip: IP, port: nat, tcp: bool)

  datatype Finding = Host(range: nat, host: Target) | Port(range: nat, open: OpenPort)

  /** A range, the number of chunks its sender goes through, and the packets that will arrive for it. */
  datatype Range = Range(kind: Kind, start: Option<IP>, end: Option<IP>, chunks: nat,
                         hostPackets: seq<Option<Target>>, portPackets: seq<Reply>)

  /** What a returning goroutine still has to do, in the order its deferred calls run. */
  datatype Op = WgDone | CloseUp | CloseReady
  datatype Deferred = Nothing | Then(op: Op, rest: Deferred)

  datatype Prober = PStart | PAwait | Probing(left: nat) | PSignal | PReturn(todo: Deferred)
  datatype HostInterceptor =
    HOff | HOpening | HOffering | HListening | HReporting(host: Target) | HForwarding(host: Target) | HLeaving | HGone
  datatype Scanner =
    SStart | SAwait | Receiving | Scanning(host: Target) | Sweeping(left: nat) | SSignal | SReturn(todo: Deferred)
  datatype PortInterceptor = TOff | TOpening | TOffering | TListening | TReporting(open: OpenPort) | TLeaving | TGone

  /** Host discovery of one range; for the record, the probes sent and the hosts reported and handed on. */
  datatype Discovery = Discovery(p: Prober, h: HostInterceptor, packets: seq<Option<Target>>,
                                 upClosed: bool, readyClosed: bool,
                                 probes: nat, reported: seq<Target>, forwarded: seq<Target>)

  /** Port scanning of one range; for the record, the hosts scanned or the chunks swept, and the ports found. */
  datatype PortScan = PortScan(s: Scanner, t: PortInterceptor, packets: seq<Reply>,
                               readyClosed: bool, scanned: seq<Target>, swept: nat, found: seq<OpenPort>)

  /** One range: both halves, the channel of discovered hosts between them, the wait group and the function on it. */
  datatype Local = Local(d: Discovery, q: PortScan, queue: seq<Target>, wg: int, returned: bool)

  /** The findings channel, and for the record all that was ever sent on it and all that was received. */
  datatype Shared = Shared(buf: seq<Finding>, closed: bool, sent: seq<Finding>, delivered: seq<Finding>, panic: bool)

  datatype Closer = Waiting | ClosingErrors | Closed

  datatype State = State(ranges: seq<Local>, shared: Shared, closer: Closer)

  // ---------------------------------------------------------------- start

  function ProberDefers(k: Kind): Deferred {
    match k
    case Ping => Then(WgDone, Then(CloseUp, Then(CloseReady, Nothing)))
    case Neighbours => Then(CloseUp, Then(WgDone, Nothing))
    case Direct => Nothing
  }

  function ScannerDefers(k: Kind): Deferred {
    if k.Direct? then Nothing else Then(CloseReady, Then(WgDone, Nothing))
  }

  /** Prober and scanner have been added to the wait group; without discovery there is neither prober nor group. */
  function Start(c: Range): Local {
    Local(Discovery(if c.kind.Direct? then PReturn(Nothing) else PStart, if c.kind.Direct? then HGone else HOff,
                    c.hostPackets, false, false, 0, [], []),
          PortScan(SStart, TOff, c.portPackets, false, [], 0, []),
          [], if c.kind.Direct? then 0 else 2, false)
  }

  function Init(cs: seq<Range>): State {
    State(seq(|cs|, i requires 0 <= i < |cs| => Start(cs[i])), Shared([], false, [], [], false), Waiting)
  }

  // ---------------------------------------------------------------- channels

  predicate Room(sh: Shared) {
    sh.closed || |sh.buf| < FINDINGS
  }

  /** Sending on the findings channel. */
  function Send(sh: Shared, f: Finding): Shared {
    if sh.closed then sh.(panic := true) else sh.(buf := sh.buf + [f], sent := sh.sent + [f])
  }

  function PanicIf(sh: Shared, b: bool): Shared {
    sh.(panic := sh.panic || b)
  }

  // ---------------------------------------------------------------- host discovery

  /** ReadyClosed and OfferClosed are the two sides of a ready channel that has been closed. */
  datatype DiscoveryStep =
    | Launch | Open | Ready | ReadyClosed | OfferClosed | Probe | EndProbes | HostsDone
    | Packet | Report | Forward | Leave | Defer

  predicate CanDiscover(c: Range, l: Local, sh: Shared, a: DiscoveryStep) {
    var x := l.d;
    match a
    case Launch => x.p.PStart?
    case Open => x.h.HOpening?
    case Ready => x.p.PAwait? && x.h.HOffering? && !x.readyClosed
    case ReadyClosed => x.p.PAwait? && x.readyClosed
    case OfferClosed => x.h.HOffering? && x.readyClosed
    case Probe => x.p.Probing? && x.p.left > 0
    case EndProbes => x.p.Probing? && x.p.left == 0
    case HostsDone => x.p.PSignal? && x.h.HListening?
    case Packet => x.h.HListening? && x.packets != []
    case Report => x.h.HReporting? && Room(sh)
    case Forward => x.h.HForwarding? && (x.upClosed || |l.queue| < UP_HOSTS)
    case Leave => x.h.HLeaving?
    case Defer => x.p.PReturn? && x.p.todo.Then?
  }

  function AfterHostPacket(c: Range, packet: Option<Target>): HostInterceptor {
    if packet.Some? && IsIPInRange(c.start, c.end, packet.value.ip) then HReporting(packet.value) else HListening
  }

  /** The discovery half after a step. */
  function Discovered(c: Range, l: Local, sh: Shared, a: DiscoveryStep): Discovery
    requires CanDiscover(c, l, sh, a)
  {
    var x := l.d;
    match a
    case Launch => x.(p := PAwait, h := HOpening)
    case Open => x.(h := HOffering)
    case Ready => x.(p := Probing(c.chunks), h := HListening)
    case ReadyClosed => x.(p := Probing(c.chunks))
    case OfferClosed => x
    case Probe => x.(p := Probing(x.p.left - 1), probes := x.probes + 1)
    case EndProbes => x.(p := PSignal)
    case HostsDone => x.(p := PReturn(ProberDefers(c.kind)), h := HLeaving)
    case Packet => x.(h := AfterHostPacket(c, x.packets[0]), packets := x.packets[1..])
    case Report => x.(h := HForwarding(x.h.host), reported := x.reported + [x.h.host])
    case Forward => if x.upClosed then x else x.(h := HListening, forwarded := x.forwarded + [x.h.host])
    case Leave => x.(h := HGone)
    case Defer =>
      x.(p := PReturn(x.p.todo.rest), upClosed := x.upClosed || x.p.todo.op.CloseUp?,
         readyClosed := x.readyClosed || x.p.todo.op.CloseReady?)
  }

  /** What a discovery step adds to the wait group. */
  function DiscoveryJoins(c: Range, l: Local, sh: Shared, a: DiscoveryStep): int
    requires CanDiscover(c, l, sh, a)
  {
    if a.Launch? then 1 else if a.Leave? || (a.Defer? && l.d.p.todo.op.WgDone?) then -1 else 0
  }

  function DiscoverySends(c: Range, i: nat, l: Local, sh: Shared, a: DiscoveryStep): Shared
    requires CanDiscover(c, l, sh, a)
  {
    match a
    case Report => Send(sh, Host(i, l.d.h.host))
    case OfferClosed => PanicIf(sh, true)
    case Forward => PanicIf(sh, l.d.upClosed)
    case Leave => PanicIf(sh, l.wg <= 0)
    case Defer =>
      PanicIf(sh, match l.d.p.todo.op
                  case WgDone => l.wg <= 0
                  case CloseUp => l.d.upClosed
                  case CloseReady => l.d.readyClosed)
    case _ => sh
  }

  function Discover(c: Range, l: Local, sh: Shared, a: DiscoveryStep): Local
    requires CanDiscover(c, l, sh, a)
  {
    l.(d := Discovered(c, l, sh, a), wg := l.wg + DiscoveryJoins(c, l, sh, a),
       queue := if a.Forward? && !l.d.upClosed then l.queue + [l.d.h.host] else l.queue)
  }

  // ---------------------------------------------------------------- port scanning

  datatype PortStep =
    | LaunchT | OpenT | ReadyT | ReadyTClosed | OfferTClosed | Take | Scan | EndHosts | Sweep | EndSweep | PortsDone
    | PacketT | ReportT | LeaveT | DeferS

  predicate CanScan(c: Range, l: Local, sh: Shared, a: PortStep) {
    var y := l.q;
    match a
    case LaunchT => y.s.SStart?
    case OpenT => y.t.TOpening?
    case ReadyT => y.s.SAwait? && y.t.TOffering? && !y.readyClosed
    case ReadyTClosed => y.s.SAwait? && y.readyClosed
    case OfferTClosed => y.t.TOffering? && y.readyClosed
    case Take => y.s.Receiving? && l.queue != []
    case Scan => y.s.Scanning?
    case EndHosts => y.s.Receiving? && l.queue == [] && l.d.upClosed
    case Sweep => y.s.Sweeping? && y.s.left > 0
    case EndSweep => y.s.Sweeping? && y.s.left == 0
    case PortsDone => y.s.SSignal? && y.t.TListening?
    case PacketT => y.t.TListening? && y.packets != []
    case ReportT => y.t.TReporting? && Room(sh)
    case LeaveT => y.t.TLeaving?
    case DeferS => y.s.SReturn? && y.s.todo.Then?
  }

  function AfterPortPacket(packet: Reply): PortInterceptor {
    match packet
    case Unrelated => TListening
    case Tcp(ip, port, syn, ack, rst) =>
      if rst then TListening else if syn && ack then TReporting(OpenPort(ip, port, true)) else TListening
    case Udp(ip, port) => TReporting(OpenPort(ip, port, false))
  }

  function AfterReady(c: Range): Scanner {
    if c.kind.Direct? then Sweeping(c.chunks) else Receiving
  }

  /** The port-scan half after a step. */
  function Scanned(c: Range, l: Local, sh: Shared, a: PortStep): PortScan
    requires CanScan(c, l, sh, a)
  {
    var y := l.q;
    match a
    case LaunchT => y.(s := SAwait, t := TOpening)
    case OpenT => y.(t := TOffering)
    case ReadyT => y.(s := AfterReady(c), t := TListening)
    case ReadyTClosed => y.(s := AfterReady(c))
    case OfferTClosed => y
    case Take => y.(s := Scanning(l.queue[0]))
    case Scan => y.(s := Receiving, scanned := y.scanned + [y.s.host])
    case EndHosts => y.(s := SSignal)
    case Sweep => y.(s := Sweeping(y.s.left - 1), swept := y.swept + 1)
    case EndSweep => y.(s := SSignal)
    case PortsDone => y.(s := SReturn(ScannerDefers(c.kind)), t := TLeaving)
    case PacketT => y.(t := AfterPortPacket(y.packets[0]), packets := y.packets[1..])
    case ReportT => y.(t := TListening, found := y.found + [y.t.open])
    case LeaveT => y.(t := TGone)
    case DeferS => y.(s := SReturn(y.s.todo.rest), readyClosed := y.readyClosed || y.s.todo.op.CloseReady?)
  }

  function PortJoins(c: Range, l: Local, sh: Shared, a: PortStep): int
    requires CanScan(c, l, sh, a)
  {
    if a.LaunchT? then 1 else if a.LeaveT? || (a.DeferS? && l.q.s.todo.op.WgDone?) then -1 else 0
  }

  function PortSends(c: Range, i: nat, l: Local, sh: Shared, a: PortStep): Shared
    requires CanScan(c, l, sh, a)
  {
    match a
    case ReportT => Send(sh, Port(i, l.q.t.open))
    case OfferTClosed => PanicIf(sh, true)
    case LeaveT => PanicIf(sh, l.wg <= 0)
    case DeferS => PanicIf(sh, if l.q.s.todo.op.WgDone? then l.wg <= 0 else l.q.readyClosed)
    case _ => sh
  }

  function ScanStep(c: Range, l: Local, sh: Shared, a: PortStep): Local
    requires CanScan(c, l, sh, a)
  {
    l.(q := Scanned(c, l, sh, a), wg := l.wg + PortJoins(c, l, sh, a), queue := if a.Take? then l.queue[1..] else l.queue)
  }

  // ---------------------------------------------------------------- steps of the whole scan

  datatype Action =
    | Hosts(i: nat, a: DiscoveryStep)
    | Ports(i: nat, b: PortStep)
    | Return(i: nat)
    | Consume
    | CloseFindings
    | CloseErrors

  /** The function that waits for a range's goroutines, or for its own sweep. */
  predicate CanReturn(c: Range, l: Local) {
    !l.returned && if c.kind.Direct? then l.q.s == SReturn(Nothing) else l.wg == 0
  }

  ghost predicate Possible(cs: seq<Range>, st: State, act: Action)
    requires |st.ranges| == |cs|
  {
    match act
    case Hosts(i, a) => i < |cs| && CanDiscover(cs[i], st.ranges[i], st.shared, a)
    case Ports(i, b) => i < |cs| && CanScan(cs[i], st.ranges[i], st.shared, b)
    case Return(i) => i < |cs| && CanReturn(cs[i], st.ranges[i])
    case Consume => st.shared.buf != []
    case CloseFindings => st.closer.Waiting? && forall i :: 0 <= i < |cs| ==> st.ranges[i].returned
    case CloseErrors => st.closer.ClosingErrors?
  }

  ghost function After(cs: seq<Range>, st: State, act: Action): (r: State)
    requires |st.ranges| == |cs| && Possible(cs, st, act)
    ensures |r.ranges| == |cs|
  {
    match act
    case Hosts(i, a) =>
      st.(ranges := st.ranges[i := Discover(cs[i], st.ranges[i], st.shared, a)],
          shared := DiscoverySends(cs[i], i, st.ranges[i], st.shared, a))
    case Ports(i, b) =>
      st.(ranges := st.ranges[i := ScanStep(cs[i], st.ranges[i], st.shared, b)],
          shared := PortSends(cs[i], i, st.ranges[i], st.shared, b))
    case Return(i) => st.(ranges := st.ranges[i := st.ranges[i].(returned := true)])
    case Consume =>
      st.(shared := st.shared.(buf := st.shared.buf[1..], delivered := st.shared.delivered + [st.shared.buf[0]]))
    case CloseFindings => st.(shared := PanicIf(st.shared, st.shared.closed).(closed := true), closer := ClosingErrors)
    case CloseErrors => st.(closer := Closed)
  }
}
