/**
 IPv4 post-processing of one range: single hosts are marked, network and broadcast addresses are trimmed
 off the ends. The range arrives with both ends set and the start not behind the end.
 */
module Trim {
  import opened Bytes
  import opened Addresses
  import opened Enumerator
  import opened Routes

  /** An IPv4 address in its sixteen-byte form, as parsing a single address yields it. */
  function Mapped(ip: IP): IP {
    [0, 0, 0, 0, 0, 0, 0, 0, 0, 0, 0xFF, 0xFF] + ip
  }

  /** Equality of addresses whatever their form. */
  predicate SameIP(a: IP, b: IP) {
    a == b || (|b| == 4 && a == Mapped(b)) || (|a| == 4 && b == Mapped(a))
  }

  /** Both ends of a range in four bytes, or a single address whose start has sixteen. */
  predicate ValidForm(start: IP, end: IP) {
    |end| == 4 && (|start| == 4 || start == Mapped(end))
  }

  predicate NetworkAddress(ip: IP, routes: seq<Route>)
    requires |ip| >= 4
  {
    exists i :: 0 <= i < |routes| && ((routes[i].dst.Some? && SameIP(routes[i].dst.value.ip, ip)) || ip[3] == 0)
  }

  predicate BroadcastAddress(ip: IP, routes: seq<Route>) {
    exists i :: 0 <= i < |routes| && routes[i].dst.Some? && routes[i].dst.value.ones < 31 &&
                Last(routes[i].dst.value) == ip
  }

  predicate SingleHostMask(n: IPNet) {
    MaskByte(n.ones, 0) == 255 && MaskByte(n.ones, 1) == 255 && MaskByte(n.ones, 2) == 255 && MaskByte(n.ones, 3) == 255
  }

  lemma SingleHostMaskIs32(n: IPNet)
    ensures SingleHostMask(n) <==> n.ones >= 32
  {
    forall i: nat | 8 * i < n.ones < 8 * (i + 1) ensures Pow2(8 * (i + 1) - n.ones) >= 2 {
      Pow2Mono(1, 8 * (i + 1) - n.ones);
      assert Pow2(1) == 2;
    }
  }

  // ---------------------------------------------------------------- both tests in numbers

  /** Some route has x as its base address, or x ends in a zero byte and there is any route. */
  ghost predicate NetworkNumber(x: int, routes: seq<Route>) {
    routes != [] &&
    (x % 256 == 0 || exists i :: 0 <= i < |routes| && routes[i].dst.Some? && Num(routes[i].dst.value.ip) == x)
  }

  /** Some route with at least two host bits ends its block at x. */
  ghost predicate BroadcastNumber(x: int, routes: seq<Route>) {
    exists i :: 0 <= i < |routes| && EndsAt(routes[i], x)
  }

  ghost predicate EndsAt(r: Route, x: int) {
    r.dst.Some? && ValidNet(r.dst.value, 4) && HostBits(r.dst.value) >= 2 && BlockEnd(r.dst.value) == x
  }

  lemma LastByteIsRest(ip: IP)
    requires |ip| == 4
    ensures ip[3] == Num(ip) % 256
  {
    NumLast(ip);
  }

  lemma NetworkIsNumeric(ip: IP, routes: seq<Route>)
    requires |ip| == 4 && ValidRoutes(routes, 4)
    ensures NetworkAddress(ip, routes) <==> NetworkNumber(Num(ip), routes)
  {
    hide Num;
    LastByteIsRest(ip);
    forall i | 0 <= i < |routes| && routes[i].dst.Some?
      ensures SameIP(routes[i].dst.value.ip, ip) <==> Num(routes[i].dst.value.ip) == Num(ip)
    {
      if Num(routes[i].dst.value.ip) == Num(ip) { NumInjective(routes[i].dst.value.ip, ip); }
    }
    if routes != [] { var first := routes[0]; }
  }

  lemma BroadcastIsNumeric(ip: IP, routes: seq<Route>)
    requires |ip| == 4 && ValidRoutes(routes, 4)
    ensures BroadcastAddress(ip, routes) <==> BroadcastNumber(Num(ip), routes)
  {
    hide Num, Last, BlockEnd;
    forall i | 0 <= i < |routes| && routes[i].dst.Some?
      ensures routes[i].dst.value.ones < 31 && Last(routes[i].dst.value) == ip <==> EndsAt(routes[i], Num(ip))
    {
      LastIsBlockEnd(routes[i].dst.value);
      if Num(Last(routes[i].dst.value)) == Num(ip) { NumInjective(Last(routes[i].dst.value), ip); }
    }
    if i :| 0 <= i < |routes| && EndsAt(routes[i], Num(ip)) {
      assert routes[i].dst.Some?;
    }
  }

  method IsV4NetworkAddress(ip: IP, routes: seq<Route>) returns (b: bool)
    requires |ip| >= 4
    ensures b == NetworkAddress(ip, routes)
    ensures |ip| == 4 && ValidRoutes(routes, 4) ==> b == NetworkNumber(Num(ip), routes)
  {
    if |ip| == 4 && ValidRoutes(routes, 4) { NetworkIsNumeric(ip, routes); }
    for i := 0 to |routes|
      invariant forall k :: 0 <= k < i ==>
                  !(routes[k].dst.Some? && SameIP(routes[k].dst.value.ip, ip)) && ip[3] != 0
    {
      var route := routes[i];
      if route.dst.Some? && SameIP(route.dst.value.ip, ip) { return true; }
      if ip[3] == 0 { return true; }
    }
    return false;
  }

  method IsV4BroadcastAddress(ip: IP, routes: seq<Route>) returns (b: bool)
    ensures b == BroadcastAddress(ip, routes)
    ensures |ip| == 4 && ValidRoutes(routes, 4) ==> b == BroadcastNumber(Num(ip), routes)
  {
    if |ip| == 4 && ValidRoutes(routes, 4) { BroadcastIsNumeric(ip, routes); }
    for i := 0 to |routes|
      invariant forall k :: 0 <= k < i ==>
                  !(routes[k].dst.Some? && routes[k].dst.value.ones < 31 && Last(routes[k].dst.value) == ip)
    {
      var route := routes[i];
      if route.dst.Some? {
        if route.dst.value.ones < 31 {
          var lastIP := LastIP(route.dst.value);
          if lastIP == ip { return true; }
        }
      }
    }
    return false;
  }

  /** The ends after post-processing; a bare default route on a single address is dereferenced and crashes. */
  datatype Trimmed = Crash | Ends(start: Option<IP>, end: Option<IP>)

  predicate TrimsEnd(end: IP, routes: seq<Route>)
    requires |end| == 4
  {
    BroadcastAddress(end, routes) && end[3] < 255
  }

  predicate TrimsStart(start: IP, routes: seq<Route>)
    requires |start| >= 4
  {
    NetworkAddress(start, routes) && start[3] < 255
  }

  /** Post-processing of one range, step by step. */
  function Trimming(start: IP, end: IP, dst: Option<IPNet>, routes: seq<Route>): Trimmed
    requires ValidForm(start, end)
  {
    if SameIP(start, end) && dst.None? then Crash
    else if SameIP(start, end) && SingleHostMask(dst.value) then Ends(Some(start), None)
    else if SameIP(start, end) && NetworkAddress(start, routes) then Ends(None, None)
    else
      var end' := if TrimsEnd(end, routes) then Previous(end) else end;
      if TrimsEnd(end, routes) && SameIP(start, end') then Ends(Some(start), None)
      else if TrimsStart(start, routes) then
        var start' := Next(start);
        Ends(Some(start'), if SameIP(start', end') then None else Some(end'))
      else Ends(Some(start), Some(end'))
  }

  /**
   A single address in sixteen bytes: its fourth byte is always zero, so whatever the routes it counts as a network
   address, and nothing is left of it unless its route is a single host's.
   */
  lemma MappedSingle(ip: IP, dst: Option<IPNet>, routes: seq<Route>)
    requires |ip| == 4 && routes != []
    ensures Trimming(Mapped(ip), ip, dst, routes) ==
            if dst.None? then Crash else if dst.value.ones >= 32 then Ends(Some(Mapped(ip)), None) else Ends(None, None)
    ensures forall x :: !Denotes(None, None, x)
  {
    var first := routes[0];
    assert Mapped(ip)[3] == 0;
    if dst.Some? { SingleHostMaskIs32(dst.value); }
  }

  /** A single address off a /32 route that is a broadcast but not a network address. */
  predicate Inverts(start: IP, end: IP, dst: Option<IPNet>, routes: seq<Route>)
    requires |start| == |end| == 4
  {
    start == end && dst.Some? && dst.value.ones < 32 && !NetworkAddress(start, routes) && TrimsEnd(end, routes)
  }

  /** A broadcast address as the last of a range, and a network address as the first, is left out unless it ends in 255. */
  ghost predicate DropsEnd(x: int, routes: seq<Route>) {
    BroadcastNumber(x, routes) && x % 256 < 255
  }

  ghost predicate DropsStart(x: int, routes: seq<Route>) {
    NetworkNumber(x, routes) && x % 256 < 255
  }

  /** All tests of the post-processing on one address, in numbers. */
  lemma TrimsNumerically(ip: IP, dst: Option<IPNet>, routes: seq<Route>)
    requires |ip| == 4 && ValidRoutes(routes, 4)
    ensures NetworkAddress(ip, routes) <==> NetworkNumber(Num(ip), routes)
    ensures TrimsStart(ip, routes) <==> DropsStart(Num(ip), routes)
    ensures TrimsEnd(ip, routes) <==> DropsEnd(Num(ip), routes)
    ensures Inverts(ip, ip, dst, routes) <==>
            dst.Some? && dst.value.ones < 32 && !NetworkNumber(Num(ip), routes) && DropsEnd(Num(ip), routes)
  {
    hide Num, NetworkAddress, BroadcastAddress, NetworkNumber, BroadcastNumber;
    LastByteIsRest(ip);
    NetworkIsNumeric(ip, routes);
    BroadcastIsNumeric(ip, routes);
  }

  /** The addresses an optional pair of ends stands for. */
  predicate Denotes(start: Option<IP>, end: Option<IP>, x: int) {
    Lower(start, end) <= x <= Upper(start, end)
  }

  lemma Neighbours(a: IP, b: IP)
    requires |a| == |b| == 4 && Num(a) < Num(b)
    ensures Num(Next(a)) == Num(a) + 1 && Num(Previous(b)) == Num(b) - 1
  {
    NumBound(a);
    NumBound(b);
    NextIsSuccessor(a);
    PreviousIsPredecessor(b);
  }

  /** Exactly which addresses are left of a range of two or more. */
  lemma TrimmedRange(start: IP, end: IP, dst: Option<IPNet>, routes: seq<Route>)
    requires |start| == |end| == 4 && Num(start) < Num(end)
    ensures var t := Trimming(start, end, dst, routes);
            var hi := Num(end) - (if TrimsEnd(end, routes) then 1 else 0);
            var lo := Num(start) + (if TrimsStart(start, routes) && (!TrimsEnd(end, routes) || Num(start) < hi) then 1 else 0);
            t.Ends? && !Inverted(t.start, t.end) && ValidRange(t.start, t.end, 4) &&
            Lower(t.start, t.end) == lo <= hi == Upper(t.start, t.end)
  {
    hide Num, Next, Previous, Compare, NetworkAddress, BroadcastAddress, TrimsEnd, TrimsStart;
    Neighbours(start, end);
    var end' := if TrimsEnd(end, routes) then Previous(end) else end;
    if Num(start) == Num(end') { NumInjective(start, end'); }
    if Num(Next(start)) == Num(end') { NumInjective(Next(start), end'); }
    CompareIsNumeric(start, end');
    CompareIsNumeric(Next(start), end');
  }

  /** Exactly what is left of a single address, the inverted pair of ends included. */
  lemma TrimmedSingle(start: IP, dst: Option<IPNet>, routes: seq<Route>)
    requires |start| == 4
    ensures var t := Trimming(start, start, dst, routes);
            (t.Crash? <==> dst.None?) &&
            (t.Ends? && !Inverts(start, start, dst, routes) ==>
               ValidRange(t.start, t.end, 4) && !Inverted(t.start, t.end) &&
               forall x :: Denotes(t.start, t.end, x) <==>
                 x == Num(start) && (dst.value.ones >= 32 || !NetworkAddress(start, routes))) &&
            (Inverts(start, start, dst, routes) ==>
               t == Ends(Some(start), Some(Previous(start))) &&
               (Num(start) > 0 ==> Denotes(t.start, t.end, Num(start) - 1)))
  {
    hide Num, Next, Previous, Compare, NetworkAddress, BroadcastAddress, SingleHostMask;
    if dst.Some? { SingleHostMaskIs32(dst.value); }
    if TrimsEnd(start, routes) && Previous(start) == start { NextPreviousInverse(start); NextMoves(start); }
    CompareIsNumeric(start, start);
    PreviousIsPredecessor(start);
    if TrimsStart(start, routes) { assert NetworkAddress(start, routes); }
  }

  lemma NextMoves(s: IP)
    requires |s| == 4
    ensures Next(s) != s
  {
    NextIsSuccessor(s);
    SpaceBig(4);
  }

  /** A broadcast address of a network wider than /31 is not address zero. */
  lemma BroadcastIsPositive(ip: IP, routes: seq<Route>)
    requires ValidRoutes(routes, 4) && BroadcastAddress(ip, routes)
    ensures Num(ip) > 0
  {
    var i :| 0 <= i < |routes| && routes[i].dst.Some? && routes[i].dst.value.ones < 31 && Last(routes[i].dst.value) == ip;
    var n := routes[i].dst.value;
    LastIsBlockEnd(n);
    BlockBounds(Num(n.ip), HostBits(n));
    Pow2Mono(2, HostBits(n));
    assert Pow2(2) == 4;
  }

  /**
   Post-processing only ever shrinks a range exactly when it is not the inverting case; then it takes off at
   most the two end addresses, each of them a network or a broadcast address.
   */
  lemma TrimmingShrinks(start: IP, end: IP, dst: Option<IPNet>, routes: seq<Route>)
    requires |start| == |end| == 4 && Num(start) <= Num(end) && ValidRoutes(routes, 4)
    requires Trimming(start, end, dst, routes).Ends?
    ensures var t := Trimming(start, end, dst, routes);
            !Inverts(start, end, dst, routes) <==>
            forall x :: Denotes(t.start, t.end, x) ==> Num(start) <= x <= Num(end)
    ensures var t := Trimming(start, end, dst, routes);
            !Inverts(start, end, dst, routes) ==>
            !Inverted(t.start, t.end) && ValidRange(t.start, t.end, 4) &&
            forall x :: Num(start) <= x <= Num(end) && !Denotes(t.start, t.end, x) ==>
              (x == Num(start) && NetworkNumber(x, routes)) || (x == Num(end) && BroadcastNumber(x, routes))
  {
    hide Num, NetworkNumber, BroadcastNumber, NetworkAddress, BroadcastAddress, Trimming, Next, Previous;
    NetworkIsNumeric(start, routes);
    BroadcastIsNumeric(end, routes);
    if Num(start) < Num(end) {
      TrimmedRange(start, end, dst, routes);
    } else {
      NumInjective(start, end);
      TrimmedSingle(start, dst, routes);
      if Inverts(start, end, dst, routes) {
        BroadcastIsPositive(start, routes);
        assert Denotes(Trimming(start, end, dst, routes).start, Trimming(start, end, dst, routes).end, Num(start) - 1);
      }
    }
  }
}
