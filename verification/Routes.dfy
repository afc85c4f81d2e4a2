/**
 Routes, the reference longest-prefix-match lookup, and the theorem that repainting intervals by
 specific routes in start order computes that lookup for every address.
 */
module Routes {
  import opened Bytes
  import opened Addresses
  import opened Intervals
  import opened Skipping

  /** Destination (absent for a bare default route), gateway, source address, outgoing interface. */
  datatype Route = Route(dst: Option<IPNet>, gw: Option<IP>, src: Option<IP>, link: int)

  /**
   What the splitter asks of the host: pick fills in the source address of a route, or fails when the
   outgoing interface has none to offer; bind tells whether the interface of a route can be opened.
   */
  datatype Host = Host(pick: Route -> Option<Route>, bind: Route -> bool)

  /** Choosing a source address changes nothing else in a route. */
  ghost predicate ValidHost(h: Host) {
    forall r :: h.pick(r).Some? ==> h.pick(r).value == r.(src := h.pick(r).value.src)
  }

  ghost predicate ValidRoutes(routes: seq<Route>, w: nat) {
    forall i :: 0 <= i < |routes| && routes[i].dst.Some? ==> ValidNet(routes[i].dst.value, w)
  }

  /** Destinations as a kernel reports them: no host bit set. */
  ghost predicate AlignedRoutes(routes: seq<Route>, w: nat) {
    ValidRoutes(routes, w) &&
    forall i :: 0 <= i < |routes| && routes[i].dst.Some? ==> Aligned(routes[i].dst.value)
  }

  predicate Aligned(n: IPNet)
    requires n.ones <= 8 * |n.ip|
  {
    BlockStart(n) == Num(n.ip)
  }

  // ---------------------------------------------------------------- the choices of the splitter

  function Ones(r: Route): nat {
    if r.dst.Some? then r.dst.value.ones else 0
  }

  /** Index of the first route with the longest prefix among those accepted by ok. */
  function Longest(routes: seq<Route>, ok: Route -> bool): (r: Option<nat>)
    ensures r.None? ==> forall i :: 0 <= i < |routes| ==> !ok(routes[i])
    ensures r.Some? ==> r.value < |routes| && ok(routes[r.value])
    ensures r.Some? ==> forall i :: 0 <= i < |routes| && ok(routes[i]) ==> Ones(routes[i]) <= Ones(routes[r.value])
    ensures r.Some? ==> forall i :: 0 <= i < r.value && ok(routes[i]) ==> Ones(routes[i]) < Ones(routes[r.value])
  {
    if routes == [] then None
    else
      var n := |routes| - 1;
      var p := Longest(routes[..n], ok);
      if ok(routes[n]) && (p.None? || Ones(routes[n]) > Ones(routes[p.value])) then Some(n) else p
  }

  /** Index of the first route accepted by ok. */
  function First(routes: seq<Route>, ok: Route -> bool): (r: Option<nat>)
    ensures r.None? ==> forall i :: 0 <= i < |routes| ==> !ok(routes[i])
    ensures r.Some? ==> r.value < |routes| && ok(routes[r.value]) && forall i :: 0 <= i < r.value ==> !ok(routes[i])
  {
    if routes == [] then None
    else
      var n := |routes| - 1;
      var p := First(routes[..n], ok);
      if p.None? && ok(routes[n]) then Some(n) else p
  }

  predicate Covers(r: Route, n: IPNet) {
    r.dst.Some? && ContainsSubnet(r.dst.value, n)
  }

  predicate Unspecified(ip: IP) {
    forall i :: 0 <= i < |ip| ==> ip[i] == 0
  }

  predicate SystemDefault(r: Route) {
    r.dst.None? || (Unspecified(r.dst.value.ip) && r.dst.value.ones == 0)
  }

  /** The route for what no specific route claims: the longest covering one, else the system default. */
  function DefaultIndex(routes: seq<Route>, n: IPNet): (r: Option<nat>)
    ensures r.Some? ==> r.value < |routes|
  {
    var best := Longest(routes, (r: Route) => Covers(r, n));
    if best.Some? then best else First(routes, (r: Route) => SystemDefault(r))
  }

  /** The test by which the splitter collects specific routes; it looks at the base address only. */
  predicate Specific(r: Route, n: IPNet) {
    r.dst.Some? && r.dst.value != n && Contains(n, r.dst.value.ip)
  }

  function SpecificRoutes(h: Host, routes: seq<Route>, n: IPNet): seq<Route> {
    if routes == [] then []
    else
      var l := |routes| - 1;
      SpecificRoutes(h, routes[..l], n) +
      if Specific(routes[l], n) && h.pick(routes[l]).Some? then [h.pick(routes[l]).value] else []
  }

  /** The interval a route claims, as numbers. */
  function Claim(r: Route): Iv<Route> {
    if r.dst.None? then Iv(0, -1, r) else Iv(Num(r.dst.value.ip), Num(Last(r.dst.value)), r)
  }

  function Claims(rs: seq<Route>): (s: seq<Iv<Route>>)
    ensures |s| == |rs| && forall k :: 0 <= k < |s| ==> s[k] == Claim(rs[k])
  {
    seq(|rs|, k requires 0 <= k < |rs| => Claim(rs[k]))
  }

  /** Sorted by destination address; routes with equal addresses come in any order. */
  ghost predicate SortedByStart(rs: seq<Route>) {
    (forall k :: 0 <= k < |rs| ==> rs[k].dst.Some?) &&
    forall i, j :: 0 <= i < j < |rs| ==> Compare(rs[i].dst.value.ip, rs[j].dst.value.ip) <= 0
  }

  /** What the splitter works on: the default route chosen for n and the specific routes in painting order. */
  ghost predicate Prepared(h: Host, routes: seq<Route>, n: IPNet, def: Route, order: seq<Route>) {
    DefaultIndex(routes, n).Some? && h.pick(routes[DefaultIndex(routes, n).value]) == Some(def) &&
    SortedByStart(order) && multiset(order) == multiset(SpecificRoutes(h, routes, n))
  }

  /** The painted intervals over n.ip .. end of n. */
  function Painted(n: IPNet, def: Route, order: seq<Route>): seq<Iv<Route>> {
    PaintAll([Iv(Num(n.ip), Num(Last(n)), def)], Claims(order), Space(|n.ip|))
  }

  // ---------------------------------------------------------------- reference lookup

  /** A route takes part in the lookup if it covers n, or is usable. */
  predicate Eligible(h: Host, r: Route, n: IPNet, x: int) {
    r.dst.Some? && In(x, Claim(r)) && (Covers(r, n) || h.pick(r).Some?)
  }

  /** Longest-prefix match for address number x, falling back to the default of n. */
  function Lookup(h: Host, routes: seq<Route>, n: IPNet, x: int): Option<Route> {
    var best := Longest(routes, (r: Route) => Eligible(h, r, n, x));
    var i := if best.Some? then best else DefaultIndex(routes, n);
    if i.Some? then h.pick(routes[i.value]) else None
  }

  // ---------------------------------------------------------------- ties

  /** A route the splitter paints: specific, usable, and not skipped at an end of the address space. */
  predicate Paints(h: Host, r: Route, n: IPNet) {
    Specific(r, n) && h.pick(r).Some? && !Skipped(Claim(r), Num(Last(n)), Space(|n.ip|))
  }

  /**
   Two routes with the same destination address between which sorting by that address cannot decide rightly:
   a is painted, and b is painted too and not the same, or b is n's own route, which a covers without being it.
   */
  predicate Clashing(h: Host, a: Route, b: Route, n: IPNet) {
    Paints(h, a, n) && b.dst.Some? && b.dst.value.ip == a.dst.value.ip &&
    ((Paints(h, b, n) && h.pick(a) != h.pick(b)) || (b.dst.value == n && Covers(a, n)))
  }

  ghost predicate Clash(h: Host, routes: seq<Route>, n: IPNet) {
    exists i, j :: 0 <= i < |routes| && 0 <= j < |routes| && Clashing(h, routes[i], routes[j], n)
  }

  /** The splitter at work on aligned destinations. */
  ghost predicate Splitting(h: Host, routes: seq<Route>, n: IPNet, def: Route, order: seq<Route>, w: nat) {
    ValidHost(h) && AlignedRoutes(routes, w) && ValidNet(n, w) && Prepared(h, routes, n, def, order)
  }

  /** The same with no clash in the table. */
  ghost predicate Setting(h: Host, routes: seq<Route>, n: IPNet, def: Route, order: seq<Route>, w: nat) {
    Splitting(h, routes, n, def, order, w) && !Clash(h, routes, n)
  }

  /** Address x belongs, by longest match, to a route other than the default that touches an end of the address space. */
  predicate Lost(h: Host, routes: seq<Route>, n: IPNet, def: Route, x: int) {
    var r := Lookup(h, routes, n, x);
    r.Some? && r.value != def && Skipped(Claim(r.value), Num(Last(n)), Space(|n.ip|))
  }

  // ---------------------------------------------------------------- blocks

  lemma AlignedClaim(r: Route, w: nat)
    requires r.dst.Some? && ValidNet(r.dst.value, w) && Aligned(r.dst.value)
    ensures Claim(r).lo == BlockStart(r.dst.value) && Claim(r).hi == BlockEnd(r.dst.value)
    ensures ValidSpec(Claim(r), Space(w))
  {
    LastIsBlockEnd(r.dst.value);
    NumBound(Last(r.dst.value));
  }

  /** Two aligned routes sharing an address: the one with the longer prefix lies inside the other. */
  lemma ClaimsNest(a: Route, b: Route, w: nat, x: int)
    requires a.dst.Some? && ValidNet(a.dst.value, w) && Aligned(a.dst.value)
    requires b.dst.Some? && ValidNet(b.dst.value, w) && Aligned(b.dst.value)
    requires In(x, Claim(a)) && In(x, Claim(b)) && Ones(a) <= Ones(b)
    ensures Claim(a).lo <= Claim(b).lo && Claim(b).hi <= Claim(a).hi
    ensures Ones(a) == Ones(b) ==> a.dst == b.dst
  {
    AlignedClaim(a, w);
    AlignedClaim(b, w);
    BlocksNest(a.dst.value, b.dst.value, x, Claim(b).lo);
    BlocksNest(a.dst.value, b.dst.value, x, Claim(b).hi);
    if Ones(a) == Ones(b) {
      BlocksNest(b.dst.value, a.dst.value, x, Claim(a).lo);
      NumInjective(a.dst.value.ip, b.dst.value.ip);
    }
  }

  lemma CoversNumeric(r: Route, n: IPNet, w: nat)
    requires r.dst.Some? && ValidNet(r.dst.value, w) && Aligned(r.dst.value) && ValidNet(n, w)
    ensures Covers(r, n) <==> Claim(r).lo <= Num(n.ip) && Num(Last(n)) <= Claim(r).hi
  {
    AlignedClaim(r, w);
    LastIsBlockEnd(n);
    ContainsSubnetIsInclusion(r.dst.value, n);
  }

  /** A specific route starts inside n's block; unless it covers n, it also ends there. */
  lemma SpecificNumeric(r: Route, n: IPNet, w: nat)
    requires r.dst.Some? && ValidNet(r.dst.value, w) && Aligned(r.dst.value) && ValidNet(n, w)
    ensures Contains(n, r.dst.value.ip) <==> InBlock(n, Claim(r).lo)
    ensures InBlock(n, Claim(r).lo) && !Covers(r, n) ==> Claim(r).hi <= Num(Last(n)) && Ones(r) > n.ones
  {
    AlignedClaim(r, w);
    LastIsBlockEnd(n);
    ContainsIsBlock(n, r.dst.value.ip);
    CoversNumeric(r, n, w);
    var z := Claim(r).lo;
    if InBlock(n, z) {
      if r.dst.value.ones <= n.ones {
        BlocksNest(r.dst.value, n, z, Num(n.ip));
        BlocksNest(r.dst.value, n, z, BlockEnd(n));
      } else {
        BlocksNest(n, r.dst.value, z, Claim(r).hi);
      }
    }
  }

  // ---------------------------------------------------------------- painting order

  lemma {:induction false} SpecificMember(h: Host, routes: seq<Route>, n: IPNet, i: nat)
    requires i < |routes| && Specific(routes[i], n) && h.pick(routes[i]).Some?
    ensures h.pick(routes[i]).value in SpecificRoutes(h, routes, n)
  {
    if i < |routes| - 1 { SpecificMember(h, routes[..|routes| - 1], n, i); }
  }

  /** Where a collected route comes from. */
  lemma {:induction false} SpecificSource(h: Host, routes: seq<Route>, n: IPNet, k: nat) returns (i: nat)
    requires k < |SpecificRoutes(h, routes, n)|
    ensures i < |routes| && Specific(routes[i], n) && h.pick(routes[i]) == Some(SpecificRoutes(h, routes, n)[k])
  {
    var l := |routes| - 1;
    if k < |SpecificRoutes(h, routes[..l], n)| {
      i := SpecificSource(h, routes[..l], n, k);
    } else {
      i := l;
    }
  }

  /** An entry of the painting order, traced back to its route. */
  lemma OrderSource(h: Host, routes: seq<Route>, n: IPNet, def: Route, order: seq<Route>, k: nat) returns (i: nat)
    requires Prepared(h, routes, n, def, order) && k < |order|
    ensures i < |routes| && Specific(routes[i], n) && h.pick(routes[i]) == Some(order[k])
  {
    assert order[k] in multiset(SpecificRoutes(h, routes, n));
    var p :| 0 <= p < |SpecificRoutes(h, routes, n)| && SpecificRoutes(h, routes, n)[p] == order[k];
    i := SpecificSource(h, routes, n, p);
  }

  /** Every usable specific route is in the painting order. */
  lemma SpecificInOrder(h: Host, routes: seq<Route>, n: IPNet, def: Route, order: seq<Route>, i: nat) returns (k: nat)
    requires Prepared(h, routes, n, def, order)
    requires i < |routes| && Specific(routes[i], n) && h.pick(routes[i]).Some?
    ensures k < |order| && Some(order[k]) == h.pick(routes[i])
  {
    SpecificMember(h, routes, n, i);
    assert h.pick(routes[i]).value in multiset(order);
    k :| 0 <= k < |order| && order[k] == h.pick(routes[i]).value;
  }

  lemma SameClaim(h: Host, r: Route, p: Route)
    requires ValidHost(h) && h.pick(r) == Some(p)
    ensures p.dst == r.dst && Claim(p).lo == Claim(r).lo && Claim(p).hi == Claim(r).hi
  {
    assert p.dst == r.dst;
  }

  /** What is known of the k-th route in painting order. */
  lemma OrderClaims(h: Host, routes: seq<Route>, n: IPNet, def: Route, order: seq<Route>, w: nat, k: nat) returns (i: nat)
    requires Splitting(h, routes, n, def, order, w) && k < |order|
    ensures i < |routes| && Specific(routes[i], n) && h.pick(routes[i]) == Some(order[k])
    ensures order[k].dst == routes[i].dst && Claims(order)[k] == Iv(Claim(routes[i]).lo, Claim(routes[i]).hi, order[k])
    ensures ValidSpec(Claims(order)[k], Space(w))
  {
    hide Specific, Last, Space, Num;
    i := OrderSource(h, routes, n, def, order, k);
    SameClaim(h, routes[i], order[k]);
    SpecificHasDst(routes[i], n);
    AlignedClaim(routes[i], w);
  }

  lemma SpecificHasDst(r: Route, n: IPNet)
    requires Specific(r, n)
    ensures r.dst.Some?
  {
  }

  /** The painting order ascends by start. */
  lemma OrderAscends(h: Host, routes: seq<Route>, n: IPNet, def: Route, order: seq<Route>, w: nat, j: nat, k: nat)
    requires Splitting(h, routes, n, def, order, w) && j <= k < |order|
    ensures Claims(order)[j].lo <= Claims(order)[k].lo
  {
    hide Specific, Last, Space, Num;
    if j < k {
      var a := OrderClaims(h, routes, n, def, order, w, j);
      var b := OrderClaims(h, routes, n, def, order, w, k);
      CompareIsNumeric(order[j].dst.value.ip, order[k].dst.value.ip);
    }
  }

  /** Without a clash, painted routes that start together are the same. */
  lemma OrderTies(h: Host, routes: seq<Route>, n: IPNet, def: Route, order: seq<Route>, w: nat, j: nat, k: nat)
    requires Setting(h, routes, n, def, order, w) && j < |order| && k < |order|
    requires Claims(order)[j].lo == Claims(order)[k].lo
    requires !Skipped(Claims(order)[j], Num(Last(n)), Space(w)) && !Skipped(Claims(order)[k], Num(Last(n)), Space(w))
    ensures order[j] == order[k]
  {
    hide Specific, Last, Space, Num, Covers;
    var a := OrderClaims(h, routes, n, def, order, w, j);
    var b := OrderClaims(h, routes, n, def, order, w, k);
    SpecificHasDst(routes[a], n);
    SpecificHasDst(routes[b], n);
    NumInjective(routes[a].dst.value.ip, routes[b].dst.value.ip);
    assert !Clashing(h, routes[a], routes[b], n);
  }

  // ---------------------------------------------------------------- last painted against longest match

  /** A route containing an address of n's range either starts inside n's block and differs from n, or covers it. */
  lemma SpecificOrCovers(r: Route, n: IPNet, w: nat, x: int)
    requires r.dst.Some? && ValidNet(r.dst.value, w) && Aligned(r.dst.value) && ValidNet(n, w)
    requires Num(n.ip) <= x <= Num(Last(n)) && In(x, Claim(r))
    ensures !Specific(r, n) ==> Covers(r, n) && Claim(r).lo <= BlockStart(n)
  {
    AlignedClaim(r, w);
    LastIsBlockEnd(n);
    CoversNumeric(r, n, w);
    SpecificNumeric(r, n, w);
    if r.dst.value != n && !InBlock(n, Claim(r).lo) {
      if r.dst.value.ones <= n.ones {
        BlocksNest(r.dst.value, n, x, Num(n.ip));
        BlocksNest(r.dst.value, n, x, BlockEnd(n));
      } else {
        BlocksNest(n, r.dst.value, x, Claim(r).lo);
      }
    }
  }

  /** The covering route chosen as default is the longest eligible one, when that one covers n. */
  lemma CoveringLongestIsDefault(h: Host, routes: seq<Route>, n: IPNet, w: nat, x: int, l: nat)
    requires AlignedRoutes(routes, w) && ValidNet(n, w) && Num(n.ip) <= x <= Num(Last(n))
    requires Longest(routes, (r: Route) => Eligible(h, r, n, x)) == Some(l) && Covers(routes[l], n)
    ensures DefaultIndex(routes, n) == Some(l)
  {
    hide Num, Last, Space;
    var b := Longest(routes, (r: Route) => Covers(r, n));
    assert Covers(routes[l], n) && Ones(routes[l]) <= Ones(routes[b.value]);
    CoversNumeric(routes[b.value], n, w);
    assert Eligible(h, routes[b.value], n, x);
  }

  /** The painted route an address gets starts last among all painted routes containing the address. */
  lemma PaintedStartsLast(h: Host, routes: seq<Route>, n: IPNet, def: Route, order: seq<Route>, w: nat, x: int, k: nat, i: nat)
    requires Splitting(h, routes, n, def, order, w) && k < |order|
    requires forall j :: k < j < |order| && In(x, Claims(order)[j]) ==> Skipped(Claims(order)[j], Num(Last(n)), Space(w))
    requires i < |routes| && Paints(h, routes[i], n) && In(x, Claim(routes[i]))
    ensures Claim(routes[i]).lo <= Claims(order)[k].lo
  {
    hide Specific, Last, Space, Num, Prepared;
    var kk := SpecificInOrder(h, routes, n, def, order, i);
    SameClaim(h, routes[i], order[kk]);
    OrderAscends(h, routes, n, def, order, w, if kk < k then kk else k, k);
  }

  /** The longest match of an address that some painted route contains is the painted route the address gets. */
  lemma {:induction false} PaintedIsLongest(h: Host, routes: seq<Route>, n: IPNet, def: Route, order: seq<Route>, w: nat,
                                            x: int, k: nat, i: nat, l: nat)
    requires Setting(h, routes, n, def, order, w) && Num(n.ip) <= x <= Num(Last(n)) && k < |order|
    requires forall j :: k < j < |order| && In(x, Claims(order)[j]) ==> Skipped(Claims(order)[j], Num(Last(n)), Space(w))
    requires i < |routes| && Paints(h, routes[i], n) && In(x, Claim(routes[i]))
    requires h.pick(routes[i]) == Some(order[k]) && Claims(order)[k].lo == Claim(routes[i]).lo
    requires Longest(routes, (r: Route) => Eligible(h, r, n, x)) == Some(l) && Ones(routes[i]) <= Ones(routes[l])
    ensures h.pick(routes[l]) == Some(order[k])
  {
    hide Last, Space, Num, Prepared, Specific, Covers, DefaultIndex;
    SpecificHasDst(routes[i], n);
    ClaimsNest(routes[i], routes[l], w, x);
    AlignedClaim(routes[i], w);
    AlignedClaim(routes[l], w);
    assert !Clashing(h, routes[i], routes[l], n);
    if Covers(routes[l], n) {
      CoveringLongestIsDefault(h, routes, n, w, x, l);
      DefaultUsable(h, routes, n, def, order, l);
    }
    InsideIsSpecific(h, routes[i], routes[l], n, w, x);
    InsideIsPainted(h, routes[i], routes[l], n);
    PaintedStartsLast(h, routes, n, def, order, w, x, k, l);
    NumInjective(routes[l].dst.value.ip, routes[i].dst.value.ip);
  }

  lemma InsideIsSpecific(h: Host, a: Route, b: Route, n: IPNet, w: nat, x: int)
    requires Paints(h, a, n) && ValidNet(a.dst.value, w) && Aligned(a.dst.value) && ValidNet(n, w)
    requires b.dst.Some? && ValidNet(b.dst.value, w) && Aligned(b.dst.value) && !Clashing(h, a, b, n)
    requires Claim(a).lo <= Claim(b).lo && Claim(b).hi <= Claim(a).hi
    requires Num(n.ip) <= x <= Num(Last(n)) && In(x, Claim(b))
    ensures Specific(b, n)
  {
    hide Clashing;
    if !Specific(b, n) { OwnRouteClashes(h, a, b, n, w, x); }
  }

  lemma DefaultUsable(h: Host, routes: seq<Route>, n: IPNet, def: Route, order: seq<Route>, l: nat)
    requires Prepared(h, routes, n, def, order) && DefaultIndex(routes, n) == Some(l)
    ensures h.pick(routes[l]) == Some(def)
  {
  }

  lemma DefaultIsFound(h: Host, routes: seq<Route>, n: IPNet, def: Route, order: seq<Route>)
    requires Prepared(h, routes, n, def, order)
    ensures DefaultIndex(routes, n).Some? && h.pick(routes[DefaultIndex(routes, n).value]) == Some(def)
  {
  }

  lemma InsideIsPainted(h: Host, a: Route, b: Route, n: IPNet)
    requires Paints(h, a, n) && Specific(b, n) && h.pick(b).Some?
    requires 0 <= Claim(a).lo <= Claim(b).lo && Claim(b).hi <= Claim(a).hi < Space(|n.ip|)
    ensures Paints(h, b, n)
  {
    hide Specific, Claim, Num, Last, Space;
  }

  /** n's own route inside a painted route that covers it. */
  lemma OwnRouteClashes(h: Host, a: Route, b: Route, n: IPNet, w: nat, x: int)
    requires Paints(h, a, n) && ValidNet(a.dst.value, w) && Aligned(a.dst.value) && ValidNet(n, w)
    requires b.dst.Some? && ValidNet(b.dst.value, w) && Aligned(b.dst.value) && !Specific(b, n)
    requires Claim(a).lo <= Claim(b).lo && Claim(b).hi <= Claim(a).hi
    requires Num(n.ip) <= x <= Num(Last(n)) && In(x, Claim(b))
    ensures Clashing(h, a, b, n)
  {
    hide Last, Space, Num, Skipped;
    SpecificOrCovers(b, n, w, x);
    AlignedClaim(a, w);
    AlignedClaim(b, w);
    LastIsBlockEnd(n);
    SpecificNumeric(a, n, w);
    SpecificNumeric(b, n, w);
    CoversNumeric(a, n, w);
    CoversNumeric(b, n, w);
    NumInjective(a.dst.value.ip, b.dst.value.ip);
  }

  /**
   Without a clash: what last-writer-wins paints on an address is what a lookup of it finds, except where the
   address is lost.
   */
  lemma PaintedOrLost(h: Host, routes: seq<Route>, n: IPNet, def: Route, order: seq<Route>, w: nat, x: int)
    requires Setting(h, routes, n, def, order, w) && Num(n.ip) <= x <= Num(Last(n))
    ensures Lookup(h, routes, n, x).Some?
    ensures Lost(h, routes, n, def, x) <==>
            LastPainted(Claims(order), x, def, Num(Last(n)), Space(w)) != Lookup(h, routes, n, x).value
  {
    hide Last, Num, Space, Prepared, Longest, DefaultIndex, Clash, Specific;
    var k := LastPaintedSource(Claims(order), x, def, Num(Last(n)), Space(w));
    var best := Longest(routes, (r: Route) => Eligible(h, r, n, x));
    if k >= 0 {
      var i := OrderClaims(h, routes, n, def, order, w, k);
      SpecificHasDst(routes[i], n);
      assert Eligible(h, routes[i], n, x);
      PaintedIsLongest(h, routes, n, def, order, w, x, k, i, best.value);
      SameClaim(h, routes[best.value], order[k]);
    } else if best.None? {
      DefaultIsFound(h, routes, n, def, order);
    } else {
      UnpaintedLongest(h, routes, n, def, order, w, x, best.value);
    }
  }

  /** If nothing is painted on an address, its longest match is the default or a skipped route. */
  lemma UnpaintedLongest(h: Host, routes: seq<Route>, n: IPNet, def: Route, order: seq<Route>, w: nat, x: int, l: nat)
    requires Splitting(h, routes, n, def, order, w) && Num(n.ip) <= x <= Num(Last(n))
    requires Longest(routes, (r: Route) => Eligible(h, r, n, x)) == Some(l)
    requires forall j :: 0 <= j < |order| && In(x, Claims(order)[j]) ==> Skipped(Claims(order)[j], Num(Last(n)), Space(w))
    ensures h.pick(routes[l]).Some?
    ensures h.pick(routes[l]) == Some(def) || Skipped(Claim(h.pick(routes[l]).value), Num(Last(n)), Space(w))
  {
    hide Last, Num, Space, Prepared, DefaultIndex, Specific;
    assert Eligible(h, routes[l], n, x);
    SpecificOrCovers(routes[l], n, w, x);
    if Covers(routes[l], n) {
      CoveringLongestIsDefault(h, routes, n, w, x, l);
      DefaultUsable(h, routes, n, def, order, l);
    } else {
      assert h.pick(routes[l]).Some?;
      var k := SpecificInOrder(h, routes, n, def, order, l);
      SameClaim(h, routes[l], order[k]);
      assert Claims(order)[k].lo == Claim(order[k]).lo && Claims(order)[k].hi == Claim(order[k]).hi;
    }
  }

  /** Away from the ends of the address space the last route painted over an address is the one a lookup finds. */
  lemma LookupIsLastWriter(h: Host, routes: seq<Route>, n: IPNet, def: Route, order: seq<Route>, w: nat, x: int)
    requires Setting(h, routes, n, def, order, w) && Num(n.ip) <= x <= Num(Last(n))
    requires forall k :: 0 <= k < |order| ==> NonWrapping(Claims(order)[k], Space(w))
    ensures Lookup(h, routes, n, x) == Some(LastWriter(Claims(order), x, def))
  {
    hide Last, Num, Space, Prepared, Longest, DefaultIndex, Clash, Lookup;
    PaintedOrLost(h, routes, n, def, order, w, x);
    NoneSkipped(Claims(order), x, def, Num(Last(n)), Space(w));
    if Lost(h, routes, n, def, x) { LostIsPainted(h, routes, n, def, order, w, x); }
  }

  lemma {:induction false} NoneSkipped<R>(specs: seq<Iv<R>>, x: int, d: R, top: int, m: int)
    requires forall k :: 0 <= k < |specs| ==> NonWrapping(specs[k], m)
    ensures LastPainted(specs, x, d, top, m) == LastWriter(specs, x, d)
  {
    if specs != [] { NoneSkipped(specs[..|specs| - 1], x, d, top, m); }
  }

  /** A lost address belongs to a usable specific route inside n. */
  lemma LostSource(h: Host, routes: seq<Route>, n: IPNet, def: Route, order: seq<Route>, w: nat, x: int) returns (i: nat)
    requires Splitting(h, routes, n, def, order, w) && Num(n.ip) <= x <= Num(Last(n)) && Lost(h, routes, n, def, x)
    ensures i < |routes| && Specific(routes[i], n) && h.pick(routes[i]).Some? && h.pick(routes[i]) == Lookup(h, routes, n, x)
    ensures !Covers(routes[i], n) && Skipped(Claim(routes[i]), Num(Last(n)), Space(w))
  {
    hide Last, Num, Space, Prepared, DefaultIndex, Specific;
    var best := Longest(routes, (r: Route) => Eligible(h, r, n, x));
    if best.None? { DefaultIsFound(h, routes, n, def, order); }
    i := best.value;
    assert Eligible(h, routes[i], n, x);
    SameClaim(h, routes[i], Lookup(h, routes, n, x).value);
    SpecificOrCovers(routes[i], n, w, x);
    if Covers(routes[i], n) {
      CoveringLongestIsDefault(h, routes, n, w, x, i);
      DefaultUsable(h, routes, n, def, order, i);
    }
  }

  lemma LostIsPainted(h: Host, routes: seq<Route>, n: IPNet, def: Route, order: seq<Route>, w: nat, x: int)
    requires Splitting(h, routes, n, def, order, w) && Num(n.ip) <= x <= Num(Last(n)) && Lost(h, routes, n, def, x)
    ensures exists k :: 0 <= k < |order| && Skipped(Claims(order)[k], Num(Last(n)), Space(w))
  {
    hide Last, Num, Space, Prepared, Lookup, Specific;
    var i := LostSource(h, routes, n, def, order, w, x);
    var k := SpecificInOrder(h, routes, n, def, order, i);
    SameClaim(h, routes[i], order[k]);
    assert Skipped(Claims(order)[k], Num(Last(n)), Space(w));
  }

  // ---------------------------------------------------------------- the main theorem

  /** What the splitter promises: one range per address of n.ip .. end of n, carrying the looked-up route. */
  ghost predicate MatchesLookup(h: Host, routes: seq<Route>, n: IPNet, rs: seq<Iv<Route>>) {
    forall x :: Num(n.ip) <= x <= Num(Last(n)) ==>
      Lookup(h, routes, n, x).Some? && Hits(rs, x) == [Lookup(h, routes, n, x).value]
  }

  lemma SpansN(n: IPNet, def: Route, w: nat) returns (seed: Iv<Route>)
    requires ValidNet(n, w)
    ensures seed == Iv(Num(n.ip), Num(Last(n)), def) && 0 <= seed.lo <= seed.hi < Space(w)
  {
    seed := Iv(Num(n.ip), Num(Last(n)), def);
    LastIsBlockEnd(n);
    NumBound(Last(n));
  }

  lemma LookupEverywhere(h: Host, routes: seq<Route>, n: IPNet, def: Route, order: seq<Route>, w: nat, rs: seq<Iv<Route>>)
    requires Setting(h, routes, n, def, order, w)
    requires forall k :: 0 <= k < |order| ==> NonWrapping(Claims(order)[k], Space(w))
    requires forall x :: Num(n.ip) <= x <= Num(Last(n)) ==> Hits(rs, x) == [LastWriter(Claims(order), x, def)]
    ensures MatchesLookup(h, routes, n, rs)
  {
    forall x | Num(n.ip) <= x <= Num(Last(n))
      ensures Lookup(h, routes, n, x).Some? && Hits(rs, x) == [Lookup(h, routes, n, x).value]
    {
      LookupIsLastWriter(h, routes, n, def, order, w, x);
    }
  }

  /** For every network, masked or not: with no specific route at either end of the address space. */
  lemma RepaintingIsLongestPrefixMatch(h: Host, routes: seq<Route>, n: IPNet, def: Route, order: seq<Route>, w: nat)
    requires Setting(h, routes, n, def, order, w)
    requires forall i :: 0 <= i < |routes| && Specific(routes[i], n) && h.pick(routes[i]).Some? ==>
               NonWrapping(Claim(routes[i]), Space(w))
    ensures MatchesLookup(h, routes, n, Painted(n, def, order))
    ensures Tiles(Painted(n, def, order), Num(n.ip), Num(Last(n)))
    ensures |Painted(n, def, order)| <= 2 * |SpecificRoutes(h, routes, n)| + 1
  {
    var seed := SpansN(n, def, w);
    forall k | 0 <= k < |order| ensures NonWrapping(Claims(order)[k], Space(w)) {
      var i := OrderSource(h, routes, n, def, order, k);
    }
    LastWriterWins(seed, Claims(order), Space(w));
    assert |multiset(order)| == |multiset(SpecificRoutes(h, routes, n))|;
    LookupEverywhere(h, routes, n, def, order, w, Painted(n, def, order));
  }
}
