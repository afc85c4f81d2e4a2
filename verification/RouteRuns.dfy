/**
 Neighbouring ranges of the splitter never carry the same route: where the split computes the lookup, its ranges
 are exactly the longest runs of addresses with the same lookup, so a caller can tell them from the lookup alone.
 */
module RouteRuns {
  import opened Bytes
  import opened Addresses
  import opened Intervals
  import opened Skipping
  import opened Routes
  import opened RouteEdges
  import opened RouteLosses

  /** The default route is a bare one or covers n. */
  lemma DefaultCovers(h: Host, routes: seq<Route>, n: IPNet, def: Route, order: seq<Route>, w: nat)
    requires Splitting(h, routes, n, def, order, w)
    ensures def.dst.Some? ==> Claim(def).lo <= Num(n.ip) && Num(Last(n)) <= Claim(def).hi
  {
    hide Num, Last, Space;
    DefaultIsFound(h, routes, n, def, order);
    var d := DefaultIndex(routes, n).value;
    SameClaim(h, routes[d], def);
    if routes[d].dst.Some? {
      if SystemDefault(routes[d]) { ZeroNetCovers(routes[d], n, w); }
      CoversNumeric(routes[d], n, w);
    }
  }

  lemma ZeroNetCovers(r: Route, n: IPNet, w: nat)
    requires r.dst.Some? && ValidNet(r.dst.value, w) && Aligned(r.dst.value) && ValidNet(n, w) && SystemDefault(r)
    ensures Covers(r, n)
  {
    hide Num, Last, Pow2, Covers;
    AlignedClaim(r, w);
    BlockBounds(Num(r.dst.value.ip), HostBits(r.dst.value));
    NumBound(r.dst.value.ip);
    NumBound(n.ip);
    NumBound(Last(n));
    CoversNumeric(r, n, w);
  }

  /** The default is not a painted route that misses part of n. */
  lemma NotDefault(h: Host, routes: seq<Route>, n: IPNet, def: Route, order: seq<Route>, w: nat, k: nat, x: int)
    requires Splitting(h, routes, n, def, order, w) && k < |order|
    requires Num(n.ip) <= x <= Num(Last(n)) && !In(x, Claims(order)[k])
    ensures order[k] != def
  {
    hide Num, Last, Space, Prepared, Specific;
    DefaultCovers(h, routes, n, def, order, w);
    var i := OrderClaims(h, routes, n, def, order, w, k);
    SpecificHasDst(routes[i], n);
  }

  /** At the first address of a painted spec, what is painted starts there. */
  lemma StartSeparates(h: Host, routes: seq<Route>, n: IPNet, def: Route, order: seq<Route>, w: nat, b: int, j: nat)
    requires Setting(h, routes, n, def, order, w) && Num(n.ip) < b <= Num(Last(n))
    requires j < |order| && !Skipped(Claims(order)[j], Num(Last(n)), Space(w)) && b == Claims(order)[j].lo
    ensures var top, m := Num(Last(n)), Space(w);
            LastPainted(Claims(order), b - 1, def, top, m) != LastPainted(Claims(order), b, def, top, m)
  {
    hide Num, Last, Space, Prepared, Specific, Clash, LastPainted;
    var top, m := Num(Last(n)), Space(w);
    var i := OrderClaims(h, routes, n, def, order, w, j);
    var kb := LastPaintedSource(Claims(order), b, def, top, m);
    OrderAscends(h, routes, n, def, order, w, j, kb);
    var ka := LastPaintedSource(Claims(order), b - 1, def, top, m);
    if ka < 0 { NotDefault(h, routes, n, def, order, w, kb, b - 1); }
  }

  /** At the last address of a painted spec, what is painted ends there. */
  lemma EndSeparates(h: Host, routes: seq<Route>, n: IPNet, def: Route, order: seq<Route>, w: nat, b: int, j: nat)
    requires Setting(h, routes, n, def, order, w) && Num(n.ip) < b <= Num(Last(n))
    requires j < |order| && !Skipped(Claims(order)[j], Num(Last(n)), Space(w)) && b == Claims(order)[j].hi + 1
    ensures var top, m := Num(Last(n)), Space(w);
            LastPainted(Claims(order), b - 1, def, top, m) != LastPainted(Claims(order), b, def, top, m)
  {
    hide Num, Last, Space, Prepared, Specific, Clash, LastPainted;
    var top, m := Num(Last(n)), Space(w);
    var i := OrderClaims(h, routes, n, def, order, w, j);
    var ka := LastPaintedSource(Claims(order), b - 1, def, top, m);
    OrderAscends(h, routes, n, def, order, w, j, ka);
    InnerEnds(h, routes, n, def, order, w, b - 1, j, ka);
    var kb := LastPaintedSource(Claims(order), b, def, top, m);
    if kb < 0 { NotDefault(h, routes, n, def, order, w, ka, b); }
  }

  /** A painted spec starting later and sharing an address ends no later. */
  lemma InnerEnds(h: Host, routes: seq<Route>, n: IPNet, def: Route, order: seq<Route>, w: nat, x: int, j: nat, k: nat)
    requires Setting(h, routes, n, def, order, w) && j < |order| && k < |order|
    requires In(x, Claims(order)[j]) && In(x, Claims(order)[k]) && Claims(order)[j].lo <= Claims(order)[k].lo
    requires !Skipped(Claims(order)[j], Num(Last(n)), Space(w)) && !Skipped(Claims(order)[k], Num(Last(n)), Space(w))
    ensures Claims(order)[k].hi <= Claims(order)[j].hi
  {
    hide Num, Last, Space, Prepared, Specific, Clash, Skipped;
    var a := OrderClaims(h, routes, n, def, order, w, j);
    var b := OrderClaims(h, routes, n, def, order, w, k);
    SpecificHasDst(routes[a], n);
    SpecificHasDst(routes[b], n);
    if Ones(routes[a]) <= Ones(routes[b]) {
      ClaimsNest(routes[a], routes[b], w, x);
    } else {
      ClaimsNest(routes[b], routes[a], w, x);
      OrderTies(h, routes, n, def, order, w, j, k);
    }
  }

  /** Neighbouring ranges carry different routes. */
  lemma NeighboursDiffer(h: Host, routes: seq<Route>, n: IPNet, def: Route, order: seq<Route>, w: nat, k: nat)
    requires Setting(h, routes, n, def, order, w) && NothingLost(h, routes, n, def) && w > 0
    requires k + 1 < |Painted(n, def, order)|
    ensures Painted(n, def, order)[k].route != Painted(n, def, order)[k + 1].route
  {
    hide Num, Last, Space, Prepared, Clash, LastPainted, Lost, Hits, Tiles, AllPlain, NothingLost, PaintAll, MatchesLookup;
    var ivs, top, m := Painted(n, def, order), Num(Last(n)), Space(w);
    var seed := SpansN(n, def, w);
    ExactlyWhenNothingLost(h, routes, n, def, order, w);
    LastPaintedWins(seed, Claims(order), m);
    RangesBeginAtEdges(seed, Claims(order), m, k + 1);
    TilesWithin(ivs, seed.lo, seed.hi);
    TilesNext(ivs, seed.lo, seed.hi, k + 1);
    var b := ivs[k + 1].lo;
    TileHit(ivs, seed.lo, seed.hi, b - 1, k);
    TileHit(ivs, seed.lo, seed.hi, b, k + 1);
    var j :| 0 <= j < |order| && !Skipped(Claims(order)[j], top, m) && (b == Claims(order)[j].lo || b == Claims(order)[j].hi + 1);
    if b == Claims(order)[j].lo {
      StartSeparates(h, routes, n, def, order, w, b, j);
    } else {
      EndSeparates(h, routes, n, def, order, w, b, j);
    }
  }

  /** Address x is looked up to another route than either neighbour in n. */
  predicate Alone(h: Host, routes: seq<Route>, n: IPNet, x: int) {
    Num(n.ip) <= x <= Num(Last(n)) &&
    (x > Num(n.ip) ==> Lookup(h, routes, n, x - 1) != Lookup(h, routes, n, x)) &&
    (x < Num(Last(n)) ==> Lookup(h, routes, n, x + 1) != Lookup(h, routes, n, x))
  }

  /** Every address of a painted range is looked up to the range's route. */
  lemma RangeIsLookup(h: Host, routes: seq<Route>, n: IPNet, ivs: seq<Iv<Route>>, k: nat, x: int)
    requires Tiles(ivs, Num(n.ip), Num(Last(n))) && MatchesLookup(h, routes, n, ivs) && k < |ivs| && In(x, ivs[k])
    ensures Num(n.ip) <= x <= Num(Last(n)) && Lookup(h, routes, n, x) == Some(ivs[k].route)
  {
    hide Num, Last, Lookup, Hits, Tiles;
    TilesWithin(ivs, Num(n.ip), Num(Last(n)));
    TileHit(ivs, Num(n.ip), Num(Last(n)), x, k);
  }

  /** A range of one address is an address alone in its lookup, and the other way round. */
  lemma SinglesAreAlone(h: Host, routes: seq<Route>, n: IPNet, def: Route, order: seq<Route>, w: nat, x: int)
    requires Setting(h, routes, n, def, order, w) && NothingLost(h, routes, n, def) && w > 0
    ensures Alone(h, routes, n, x) <==>
            exists k :: 0 <= k < |Painted(n, def, order)| && Painted(n, def, order)[k].lo == x == Painted(n, def, order)[k].hi
  {
    hide Num, Last, Prepared, Clash, Lost, Hits, Tiles, AllPlain, NothingLost, Painted, MatchesLookup, Lookup;
    var ivs := Painted(n, def, order);
    ExactlyWhenNothingLost(h, routes, n, def, order, w);
    if k :| 0 <= k < |ivs| && ivs[k].lo == x == ivs[k].hi {
      SingleIsAlone(h, routes, n, def, order, w, ivs, k);
    } else if Alone(h, routes, n, x) {
      var k := TileOf(ivs, Num(n.ip), Num(Last(n)), x);
      RangeIsLookup(h, routes, n, ivs, k, x);
      if ivs[k].lo < x { RangeIsLookup(h, routes, n, ivs, k, x - 1); }
      if x < ivs[k].hi { RangeIsLookup(h, routes, n, ivs, k, x + 1); }
    }
  }

  lemma SingleIsAlone(h: Host, routes: seq<Route>, n: IPNet, def: Route, order: seq<Route>, w: nat, ivs: seq<Iv<Route>>, k: nat)
    requires Setting(h, routes, n, def, order, w) && NothingLost(h, routes, n, def) && w > 0
    requires ivs == Painted(n, def, order) && k < |ivs| && ivs[k].lo == ivs[k].hi
    requires Tiles(ivs, Num(n.ip), Num(Last(n))) && MatchesLookup(h, routes, n, ivs)
    ensures Alone(h, routes, n, ivs[k].lo)
  {
    hide Num, Last, Prepared, Clash, Lost, Hits, Tiles, NothingLost, Painted, MatchesLookup, Lookup, Setting;
    var x := ivs[k].lo;
    RangeIsLookup(h, routes, n, ivs, k, x);
    TilesWithin(ivs, Num(n.ip), Num(Last(n)));
    TilesNext(ivs, Num(n.ip), Num(Last(n)), k);
    if k > 0 {
      NeighboursDiffer(h, routes, n, def, order, w, k - 1);
      RangeIsLookup(h, routes, n, ivs, k - 1, x - 1);
    }
    if k + 1 < |ivs| {
      TilesNext(ivs, Num(n.ip), Num(Last(n)), k + 1);
      NeighboursDiffer(h, routes, n, def, order, w, k);
      RangeIsLookup(h, routes, n, ivs, k + 1, x + 1);
    }
  }
}
