/**
 Routes at the two ends of the address space. The successor of the highest address and the predecessor of
 the lowest wrap around, and the overlap test of the splitter goes wrong there; for a masked network this
 module says exactly when.
 */
module RouteEdges {
  import opened Bytes
  import opened Addresses
  import opened Intervals
  import opened Skipping
  import opened Routes

  /** A usable route strictly inside n that starts at the lowest address or ends at the highest. */
  predicate Harmful(h: Host, r: Route, n: IPNet) {
    Specific(r, n) && h.pick(r).Some? && !Covers(r, n) &&
    ((Claim(r).lo == 0 && Num(Last(n)) < Space(|n.ip|) - 1) || Claim(r).hi == Space(|n.ip|) - 1)
  }

  ghost predicate AnyHarmful(h: Host, routes: seq<Route>, n: IPNet) {
    exists i :: 0 <= i < |routes| && Harmful(h, routes[i], n)
  }

  lemma {:induction false} Pow2Strict(a: nat, b: nat)
    requires a < b
    ensures Pow2(a) < Pow2(b)
  {
    Pow2Mono(a + 1, b);
  }

  /** A route covering the aligned network n has no longer prefix than n. */
  lemma CoverIsShorter(r: Route, n: IPNet, w: nat)
    requires r.dst.Some? && ValidNet(r.dst.value, w) && Aligned(r.dst.value) && ValidNet(n, w) && Aligned(n)
    requires Covers(r, n)
    ensures Ones(r) <= n.ones
  {
    AlignedClaim(r, w);
    LastIsBlockEnd(n);
    CoversNumeric(r, n, w);
    BlockBounds(Num(r.dst.value.ip), HostBits(r.dst.value));
    BlockBounds(Num(n.ip), HostBits(n));
    if n.ones < Ones(r) { Pow2Strict(HostBits(r.dst.value), HostBits(n)); }
  }

  lemma DefaultIsShort(h: Host, routes: seq<Route>, n: IPNet, def: Route, order: seq<Route>, w: nat)
    requires Splitting(h, routes, n, def, order, w) && Aligned(n)
    ensures Ones(def) <= n.ones
  {
    var d := DefaultIndex(routes, n).value;
    if Covers(routes[d], n) { CoverIsShorter(routes[d], n, w); }
  }

  /** Where a specific route inside n reaches, the lookup does not find the default. */
  lemma LookupIsNotDefault(h: Host, routes: seq<Route>, n: IPNet, def: Route, order: seq<Route>, w: nat, i: nat, x: int)
    requires Splitting(h, routes, n, def, order, w) && Aligned(n)
    requires i < |routes| && Specific(routes[i], n) && h.pick(routes[i]).Some? && !Covers(routes[i], n)
    requires In(x, Claim(routes[i]))
    ensures Lookup(h, routes, n, x) != Some(def)
  {
    DefaultIsShort(h, routes, n, def, order, w);
    SpecificNumeric(routes[i], n, w);
    assert Eligible(h, routes[i], n, x);
    var l := Longest(routes, (r: Route) => Eligible(h, r, n, x)).value;
    assert Ones(routes[i]) <= Ones(routes[l]);
    if h.pick(routes[l]).Some? {
      assert h.pick(routes[l]).value.dst == routes[l].dst;
    }
  }

  /** Without a clash, a painted route covering n starts at n and is the default route itself. */
  lemma CoveringSpecificIsDefault(h: Host, routes: seq<Route>, n: IPNet, def: Route, order: seq<Route>, w: nat, i: nat)
    requires Setting(h, routes, n, def, order, w) && Aligned(n)
    requires i < |routes| && Paints(h, routes[i], n) && Covers(routes[i], n)
    ensures h.pick(routes[i]) == Some(def) && Claim(routes[i]).lo == Num(n.ip)
  {
    hide Last, Num, Space, Prepared;
    var b := Longest(routes, (r: Route) => Covers(r, n)).value;
    LastIsBlockEnd(n);
    AlignedClaim(routes[i], w);
    AlignedClaim(routes[b], w);
    CoversNumeric(routes[i], n, w);
    CoversNumeric(routes[b], n, w);
    SpecificNumeric(routes[i], n, w);
    ClaimsNest(routes[i], routes[b], w, Num(n.ip));
    DefaultUsable(h, routes, n, def, order, b);
    assert !Clashing(h, routes[i], routes[b], n);
    InsideIsSpecific(h, routes[i], routes[b], n, w, Num(n.ip));
    InsideIsPainted(h, routes[i], routes[b], n);
    NumInjective(routes[i].dst.value.ip, routes[b].dst.value.ip);
  }

  lemma HarmfulInside(h: Host, routes: seq<Route>, n: IPNet, w: nat, i: nat)
    requires AlignedRoutes(routes, w) && ValidNet(n, w) && Aligned(n)
    requires i < |routes| && Harmful(h, routes[i], n)
    ensures Num(n.ip) <= Claim(routes[i]).lo <= Claim(routes[i]).hi <= Num(Last(n)) < Space(w)
  {
    AlignedClaim(routes[i], w);
    LastIsBlockEnd(n);
    NumBound(Last(n));
    SpecificNumeric(routes[i], n, w);
  }

  /** Of a masked network's specific routes, one that does not cover the network stays inside it. */
  lemma OrderInside(h: Host, routes: seq<Route>, n: IPNet, def: Route, order: seq<Route>, w: nat, k: nat) returns (i: nat)
    requires Splitting(h, routes, n, def, order, w) && Aligned(n) && k < |order|
    ensures i < |routes| && Specific(routes[i], n) && h.pick(routes[i]) == Some(order[k])
    ensures Claims(order)[k] == Iv(Claim(routes[i]).lo, Claim(routes[i]).hi, order[k])
    ensures ValidSpec(Claims(order)[k], Space(w)) && Claims(order)[k].lo >= Num(n.ip)
    ensures if Covers(routes[i], n) then Claims(order)[k].lo == Num(n.ip) else Claims(order)[k].hi <= Num(Last(n))
  {
    hide Num, Space, Last;
    i := OrderClaims(h, routes, n, def, order, w, k);
    AlignedClaim(routes[i], w);
    LastIsBlockEnd(n);
    SpecificNumeric(routes[i], n, w);
    CoversNumeric(routes[i], n, w);
  }

  /** A route up to the highest address is never painted there, or address zero falls into two ranges, in any order. */
  lemma TopBreaks(h: Host, routes: seq<Route>, n: IPNet, def: Route, order: seq<Route>, w: nat, i: nat)
    requires Splitting(h, routes, n, def, order, w) && Aligned(n) && w > 0
    requires i < |routes| && Harmful(h, routes[i], n) && Claim(routes[i]).hi == Space(w) - 1
    ensures !MatchesLookup(h, routes, n, Painted(n, def, order))
  {
    hide Num, Last, Lookup, Prepared, Pow2, Claims, Hits, PaintAll, MatchesLookup, AlignedRoutes;
    var m := Space(w);
    HarmfulInside(h, routes, n, w, i);
    LookupIsNotDefault(h, routes, n, def, order, w, i, m - 1);
    var seed := SpansN(n, def, w);
    SpaceBig(w);
    forall k | 0 <= k < |order| ensures ValidSpec(Claims(order)[k], m) {
      var j := OrderClaims(h, routes, n, def, order, w, k);
    }
    TopNeverPainted(seed, Claims(order), m);
    TopMissed(h, routes, n, def, Painted(n, def, order), m);
  }

  lemma TopMissed(h: Host, routes: seq<Route>, n: IPNet, def: Route, rs: seq<Iv<Route>>, m: int)
    requires 0 <= Num(n.ip) <= Num(Last(n)) == m - 1
    requires Hits(rs, m - 1) == [def] || (Num(n.ip) == 0 && |Hits(rs, 0)| >= 2)
    requires Lookup(h, routes, n, m - 1) != Some(def)
    ensures !MatchesLookup(h, routes, n, rs)
  {
    hide Lookup, Num, Last, Hits;
  }

  /** A route from address zero on is never painted on address zero, unless n reaches the highest address. */
  lemma ZeroBreaks(h: Host, routes: seq<Route>, n: IPNet, def: Route, order: seq<Route>, w: nat, i: nat)
    requires Splitting(h, routes, n, def, order, w) && Aligned(n) && w > 0
    requires i < |routes| && Harmful(h, routes[i], n) && Claim(routes[i]).lo == 0
    requires Num(Last(n)) < Space(w) - 1
    ensures !MatchesLookup(h, routes, n, Painted(n, def, order))
  {
    hide Num, Last, Lookup, Prepared, Pow2, Claims, Space;
    var m := Space(w);
    var seed := SpansN(n, def, w);
    HarmfulInside(h, routes, n, w, i);
    forall k | 0 <= k < |order| ensures Claims(order)[k].lo == 0 || NonWrapping(Claims(order)[k], m) {
      var j := OrderInside(h, routes, n, def, order, w, k);
    }
    ZeroNeverPainted(seed, Claims(order), m);
    LookupIsNotDefault(h, routes, n, def, order, w, i, 0);
  }

  /** A harmful route defeats the lookup in every painting order, clash or no clash. */
  lemma HarmBreaks(h: Host, routes: seq<Route>, n: IPNet, def: Route, order: seq<Route>, w: nat)
    requires Splitting(h, routes, n, def, order, w) && Aligned(n) && w > 0 && AnyHarmful(h, routes, n)
    ensures !MatchesLookup(h, routes, n, Painted(n, def, order))
  {
    hide Num, Last, Lookup, Prepared, Space, MatchesLookup;
    var i :| 0 <= i < |routes| && Harmful(h, routes[i], n);
    if Claim(routes[i]).hi == Space(w) - 1 {
      TopBreaks(h, routes, n, def, order, w, i);
    } else {
      ZeroBreaks(h, routes, n, def, order, w, i);
    }
  }
}
