/** Concrete inputs on which the splitter departs from the lookup, inverts a range, or crashes. */
module Counterexamples {
  import opened Bytes
  import opened Addresses
  import opened Intervals
  import opened Skipping
  import opened Routes
  import opened RouteEdges
  import opened RouteLosses
  import opened RouteOrders
  import opened RouteTies
  import opened Trim
  import opened Router
  import opened Plan
  import opened PlanV4

  /** A host on which every route is usable as it is. */
  ghost function Willing(): Host {
    Host(r => Some(r), _ => true)
  }

  // ---------------------------------------------------------------- small networks

  lemma {:induction false} LastByte(ip: IP, b: byte)
    requires ip == [0, 0, 0, b]
    ensures Num(ip) == b
  {
    assert ip[..3] == [0, 0, 0] && ip[..3][..2] == [0, 0] && ip[..3][..2][..1] == [0] && ip[..3][..2][..1][..0] == [];
    assert Num(ip[..3][..2][..1]) == 0;
    assert Num(ip[..3][..2]) == 0;
    assert Num(ip[..3]) == 0;
  }

  /** The networks 0.0.0.8/29 to 0.0.0.8/32. */
  lemma {:induction false} SmallNet(n: IPNet, bits: nat)
    requires n.ip == [0, 0, 0, 8] && bits <= 3 && n.ones == 32 - bits
    ensures ValidNet(n, 4) && Num(n.ip) == 8
    ensures Pow2(bits) == (if bits == 3 then 8 else if bits == 2 then 4 else if bits == 1 then 2 else 1)
    ensures BlockStart(n) == 8 && BlockEnd(n) == 8 + Pow2(bits) - 1 == Num(Last(n))
  {
    hide Num;
    LastByte(n.ip, 8);
    LastIsBlockEnd(n);
    BlockBounds(8, bits);
    if bits > 1 { assert Pow2(1) == 2; }
    if bits > 2 { assert Pow2(2) == 4; }
  }

  /** The single address 0.0.0.15. */
  lemma HostNet(n: IPNet)
    requires n.ip == [0, 0, 0, 15] && n.ones == 32
    ensures ValidNet(n, 4) && Num(n.ip) == 15 == Num(Last(n)) && BlockStart(n) == 15 == BlockEnd(n)
  {
    hide Num;
    LastByte(n.ip, 15);
    LastIsBlockEnd(n);
    BlockBounds(15, 0);
  }

  // ---------------------------------------------------------------- clashes

  /** 0.0.0.8/30 and 0.0.0.8/31 inside 0.0.0.8/29, next to a bare default: a clash, and nothing else wrong. */
  lemma ATieExists() returns (n: IPNet, bare: Route, wide: Route, narrow: Route)
    ensures var t := [bare, wide, narrow];
            Table(Willing(), t, n, bare, 4) && Aligned(n) && Clash(Willing(), t, n) && !AlwaysMatches(Willing(), t, n, bare)
  {
    hide AlwaysMatches, Clash, AnyHarmful;
    var ip: IP := [0, 0, 0, 8];
    n, bare := IPNet(ip, 29), Route(None, None, None, 0);
    wide, narrow := Route(Some(IPNet(ip, 30)), None, None, 1), Route(Some(IPNet(ip, 31)), None, None, 2);
    TieInstance(Willing(), n, bare, wide, narrow, ip);
    ExactlyWithoutHarmOrClash(Willing(), [bare, wide, narrow], n, bare, 4);
  }

  lemma TieInstance(h: Host, n: IPNet, bare: Route, wide: Route, narrow: Route, ip: IP)
    requires ip == [0, 0, 0, 8] && n == IPNet(ip, 29) && bare.dst.None? && ValidHost(h)
    requires h.pick(wide) == Some(wide) && h.pick(narrow) == Some(narrow) && h.pick(bare) == Some(bare)
    requires wide.dst == Some(IPNet(ip, 30)) && narrow.dst == Some(IPNet(ip, 31))
    ensures var t := [bare, wide, narrow]; Table(h, t, n, bare, 4) && Aligned(n) && Clash(h, t, n)
  {
    hide Num, Last, Contains, BlockStart, BlockEnd, Space, Pow2, ContainsSubnet;
    SmallNet(n, 3);
    SmallNet(wide.dst.value, 2);
    SmallNet(narrow.dst.value, 1);
    SpaceBig(4);
    ContainsIsBlock(n, ip);
    CoversNumeric(wide, n, 4);
    CoversNumeric(narrow, n, 4);
    NumBound(Last(n));
    var t := [bare, wide, narrow];
    assert t[0] == bare && t[1] == wide && t[2] == narrow;
    assert Longest(t, (r: Route) => Covers(r, n)).None?;
    assert SystemDefault(t[0]);
    FarFromTop(n);
    assert Clashing(h, t[1], t[2], n);
  }

  lemma FarFromTop(n: IPNet)
    requires n.ip == [0, 0, 0, 8]
    ensures Space(|n.ip|) > 16
  {
    assert Pow2(5) == 32;
    Pow2Mono(5, 32);
  }

  /**
   Scanning 0.0.0.8/30 with the routes 0.0.0.8/29 and 0.0.0.8/30: the supernet is painted over all of the network,
   although the lookup finds the network's own route everywhere, and no other order is possible.
   */
  lemma ASupernetWins() returns (n: IPNet, wide: Route, own: Route)
    ensures ValidNet(n, 4) && Aligned(n) && wide != own && Prepared(Willing(), [wide, own], n, own, [wide])
    ensures forall order :: Prepared(Willing(), [wide, own], n, own, order) ==> order == [wide]
    ensures forall x :: Num(n.ip) <= x <= Num(Last(n)) ==>
              Hits(Painted(n, own, [wide]), x) == [wide] && Lookup(Willing(), [wide, own], n, x) == Some(own)
  {
    hide Lookup, Prepared, Painted, Hits, Num, Last, DefaultFound;
    var ip: IP := [0, 0, 0, 8];
    n := IPNet(ip, 30);
    wide, own := Route(Some(IPNet(ip, 29)), None, None, 1), Route(Some(n), None, None, 2);
    SupernetInstance(Willing(), n, wide, own, ip);
    var t := [wide, own];
    var some := SomeOrder(Willing(), t, n, own, 4);
    LastIsBlockEnd(n);
    SupernetWins(Willing(), n, wide, own, 4, some, Num(n.ip));
    forall order | Prepared(Willing(), t, n, own, order) ensures order == [wide] {
      SupernetWins(Willing(), n, wide, own, 4, order, Num(n.ip));
    }
    forall x | Num(n.ip) <= x <= Num(Last(n))
      ensures Hits(Painted(n, own, [wide]), x) == [wide] && Lookup(Willing(), t, n, x) == Some(own)
    {
      SupernetWins(Willing(), n, wide, own, 4, [wide], x);
    }
  }

  lemma SupernetInstance(h: Host, n: IPNet, wide: Route, own: Route, ip: IP)
    requires ip == [0, 0, 0, 8] && n == IPNet(ip, 30) && wide.dst == Some(IPNet(ip, 29)) && own.dst == Some(n)
    requires h.pick(wide) == Some(wide) && h.pick(own) == Some(own)
    ensures ValidNet(n, 4) && Aligned(n) && Specific(wide, n) && Covers(wide, n) && DefaultFound(h, [wide, own], n, own)
    ensures ValidNet(wide.dst.value, 4) && Aligned(wide.dst.value) && NonWrapping(Claim(wide), Space(4))
  {
    hide Num, Last, Contains, BlockStart, BlockEnd, Space, Pow2, ContainsSubnet;
    SmallNet(n, 2);
    SmallNet(wide.dst.value, 3);
    ContainsIsBlock(n, ip);
    CoversNumeric(wide, n, 4);
    CoversNumeric(own, n, 4);
    FarFromTop(n);
    var t := [wide, own];
    assert t[0] == wide && t[1] == own && Covers(t[0], n) && Covers(t[1], n);
    var b := Longest(t, (r: Route) => Covers(r, n));
    assert Ones(t[1]) <= Ones(t[b.value]);
  }

  // ---------------------------------------------------------------- the ends of the address space

  /** Splitting 0.0.0.0/0 with a bare default and a route to 128.0.0.0/1: the highest address gets the wrong route. */
  lemma AHarmfulRoute() returns (n: IPNet, bare: Route, route: Route)
    ensures Setting(Willing(), [bare, route], n, bare, [route], 4) && Harmful(Willing(), route, n)
    ensures !MatchesLookup(Willing(), [bare, route], n, Painted(n, bare, [route]))
  {
    hide Harmful, Num, Pow2, Space, MatchesLookup, Setting, Splitting;
    var zero: IP, half: IP := [0, 0, 0, 0], [128, 0, 0, 0];
    assert zero[0] != half[0];
    n := IPNet(zero, 0);
    bare, route := Route(None, None, None, 0), Route(Some(IPNet(half, 1)), None, None, 1);
    Halves(zero, half);
    UpperHalf(Willing(), n, route);
    UpperHalfTable(Willing(), n, bare, route);
    SettingSplits(Willing(), [bare, route], n, bare, [route], 4);
    assert [bare, route][1] == route;
    HarmBreaks(Willing(), [bare, route], n, bare, [route], 4);
  }

  lemma SettingSplits(h: Host, routes: seq<Route>, n: IPNet, def: Route, order: seq<Route>, w: nat)
    requires Setting(h, routes, n, def, order, w)
    ensures Splitting(h, routes, n, def, order, w)
  {
  }

  lemma {:induction false} Halves(zero: IP, half: IP)
    requires zero == [0, 0, 0, 0] && half == [128, 0, 0, 0]
    ensures Num(zero) == 0 && Num(half) == Pow2(31) && Space(4) == 2 * Pow2(31)
  {
    LastByte(zero, 0);
    assert half[..3] == [128, 0, 0] && half[..3][..2] == [128, 0];
    assert half[..3][..2][..1] == [128] && half[..3][..2][..1][..0] == [];
    assert Num(half[..3][..2][..1]) == 128;
    assert Num(half[..3][..2]) == 0x8000;
    assert Num(half[..3]) == 0x800000;
    assert Pow2(6) == 0x40;
    assert Pow2(12) == 0x1000;
    assert Pow2(18) == 0x40000;
    assert Pow2(24) == 0x1000000;
    assert Pow2(31) == 0x80000000;
  }

  lemma UpperHalf(h: Host, n: IPNet, route: Route)
    requires |n.ip| == 4 && n.ones == 0 && Num(n.ip) == 0
    requires route.dst.Some? && route.dst.value.ones == 1 && |route.dst.value.ip| == 4 && route.dst.value != n
    requires Num(route.dst.value.ip) == Pow2(31) && Space(4) == 2 * Pow2(31) && h.pick(route).Some?
    ensures Harmful(h, route, n) && Aligned(n) && Aligned(route.dst.value)
  {
    hide Num, Last, Pow2, Contains, ContainsSubnet, Floor, Ceiling;
    BlockBounds(0, 32);
    BlockBounds(Num(route.dst.value.ip), 31);
    LastIsBlockEnd(n);
    AlignedClaim(route, 4);
    ContainsIsBlock(n, route.dst.value.ip);
    CoversNumeric(route, n, 4);
  }

  lemma UpperHalfTable(h: Host, n: IPNet, bare: Route, route: Route)
    requires ValidHost(h) && h.pick(bare) == Some(bare) && h.pick(route) == Some(route) && bare.dst.None?
    requires ValidNet(n, 4) && route.dst.Some? && ValidNet(route.dst.value, 4) && Aligned(route.dst.value)
    requires Harmful(h, route, n)
    requires route.dst.value != n
    ensures Setting(h, [bare, route], n, bare, [route], 4)
  {
    hide Num, Last, Pow2, Contains, ContainsSubnet, Space;
    var t := [bare, route];
    assert t[0] == bare && t[1] == route && t[..1] == [bare] && t[..1][..0] == [];
    assert SpecificRoutes(h, t[..1][..0], n) == [];
    assert SpecificRoutes(h, t[..1], n) == [];
    assert SpecificRoutes(h, t, n) == [route];
    assert Longest(t, (r: Route) => Covers(r, n)).None?;
    assert SystemDefault(t[0]);
    forall i, j | 0 <= i < 2 && 0 <= j < 2 ensures !Clashing(h, t[i], t[j], n) {}
  }

  // ---------------------------------------------------------------- post-processing

  /** 0.0.0.15/32 under the route 0.0.0.8/29 is a single broadcast address: its range is inverted and names 14 as well. */
  lemma AnInversion() returns (n: IPNet, route: Route)
    ensures Prepared(Willing(), [route], n, route, []) && Painted(n, route, []) == [Iv(15, 15, route)]
    ensures ValidRoutes([route], 4) && InvertsAt(Willing(), [route], n, 15)
    ensures AllSurvive(Painted(n, route, []), [route])
    ensures RoutesOf(PlanOf(KeptAll(Painted(n, route, []), [route]), 4), 14) == [route]
  {
    hide Prepared, Painted, InvertsAt, AllSurvive, PlanOf, RoutesOf;
    n, route := IPNet([0, 0, 0, 15], 32), Route(Some(IPNet([0, 0, 0, 8], 29)), None, None, 0);
    InversionTable(Willing(), n, route);
    InversionInstance(Willing(), n, route);
    InversionPlan(Iv(15, 15, route), route);
  }

  lemma InversionTable(h: Host, n: IPNet, route: Route)
    requires n.ip == [0, 0, 0, 15] && n.ones == 32 && route.dst == Some(IPNet([0, 0, 0, 8], 29)) && h.pick(route) == Some(route)
    ensures Prepared(h, [route], n, route, []) && Painted(n, route, []) == [Iv(15, 15, route)]
    ensures ValidRoutes([route], 4) && Lookup(h, [route], n, 15) == Some(route)
  {
    hide Num, Last, Contains, BlockStart, BlockEnd, Space, Pow2, ContainsSubnet;
    HostNet(n);
    SmallNet(route.dst.value, 3);
    ContainsIsBlock(n, route.dst.value.ip);
    CoversNumeric(route, n, 4);
    var t := [route];
    assert t[0] == route && t[..0] == [] && SpecificRoutes(h, t[..0], n) == [];
    assert SpecificRoutes(h, t, n) == [];
    assert Covers(t[0], n) && Eligible(h, t[0], n, 15);
  }

  lemma InversionInstance(h: Host, n: IPNet, route: Route)
    requires n.ip == [0, 0, 0, 15] && n.ones == 32 && route.dst == Some(IPNet([0, 0, 0, 8], 29))
    requires Lookup(h, [route], n, 15) == Some(route)
    ensures InvertsAt(h, [route], n, 15) && Inverts(ToBytes(15, 4), ToBytes(15, 4), route.dst, [route])
  {
    hide Num, Last, BlockStart, BlockEnd, Pow2, Lookup, ToBytes;
    HostNet(n);
    SmallNet(route.dst.value, 3);
    ToBytesNum(n.ip);
    NumInjective(Last(route.dst.value), n.ip);
    assert [route][0] == route;
  }

  lemma InversionPlan(iv: Iv<Route>, route: Route)
    requires iv == Iv(15, 15, route) && route.dst == Some(IPNet([0, 0, 0, 8], 29)) && ValidRoutes([route], 4)
    requires Inverts(ToBytes(15, 4), ToBytes(15, 4), route.dst, [route])
    ensures AllSurvive([iv], [route]) && RoutesOf(PlanOf(KeptAll([iv], [route]), 4), 14) == [route]
  {
    hide Num, Last, Space, ToBytes, Inverts, PlanOf, RoutesOf, Kept;
    TrimmedSingle(ToBytes(15, 4), route.dst, [route]);
    FarFromTop(route.dst.value);
    var kept := KeptAll([iv], [route]);
    InvertedKeeps(iv, [route]);
    assert kept == [Iv(14, 15, route)];
    PlanIsHits(kept, 4, 14);
    HitsOne(Iv(14, 15, route), 14);
  }

  /** 0.0.0.15/32 under nothing but a bare default: post-processing dereferences the missing destination. */
  lemma ACrash() returns (n: IPNet, bare: Route)
    ensures Prepared(Willing(), [bare], n, bare, []) && Painted(n, bare, []) == [Iv(15, 15, bare)]
    ensures CrashesAt(Willing(), [bare], n, 15) && Crashes(Painted(n, bare, [])[0])
  {
    hide Prepared, Painted, CrashesAt;
    n, bare := IPNet([0, 0, 0, 15], 32), Route(None, None, None, 0);
    CrashInstance(Willing(), n, bare);
  }

  lemma CrashInstance(h: Host, n: IPNet, bare: Route)
    requires n.ip == [0, 0, 0, 15] && n.ones == 32 && bare.dst.None? && h.pick(bare) == Some(bare)
    ensures Prepared(h, [bare], n, bare, []) && Painted(n, bare, []) == [Iv(15, 15, bare)]
    ensures CrashesAt(h, [bare], n, 15)
  {
    hide Num, Last, Contains, BlockStart, BlockEnd, Space, Pow2, ContainsSubnet;
    HostNet(n);
    var t := [bare];
    assert t[0] == bare && t[..0] == [] && SpecificRoutes(h, t[..0], n) == [];
    assert SpecificRoutes(h, t, n) == [];
    assert Longest(t, (r: Route) => Covers(r, n)).None? && Longest(t, (r: Route) => Eligible(h, r, n, 15)).None?;
    assert SystemDefault(t[0]);
  }
}
