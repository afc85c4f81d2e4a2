/** What the ranges of a split network make the enumerators send: addresses, each with the route of its range. */
module Plan {
  import opened Bytes
  import opened Addresses
  import opened Enumerator
  import opened Intervals
  import opened Routes
  import opened RouteLosses
  import opened Trim
  import opened Router

  /** An address to probe and the route its packets take. */
  datatype Planned = Planned(ip: IP, route: Route)

  function Tag(ips: seq<IP>, route: Route): (r: seq<Planned>)
    ensures |r| == |ips|
  {
    seq(|ips|, i requires 0 <= i < |ips| => Planned(ips[i], route))
  }

  /** The addresses of one interval, ascending; an empty interval has none. */
  function Tagged(iv: Iv<Route>, w: nat): seq<Planned>
    requires 0 <= iv.lo
  {
    Tag(Span(iv.lo, iv.hi, w), iv.route)
  }

  ghost predicate Bounded(ivs: seq<Iv<Route>>, w: nat) {
    forall k :: 0 <= k < |ivs| ==> 0 <= ivs[k].lo && ivs[k].hi < Space(w)
  }

  function PlanOf(ivs: seq<Iv<Route>>, w: nat): seq<Planned>
    requires forall k :: 0 <= k < |ivs| ==> 0 <= ivs[k].lo
  {
    if ivs == [] then [] else PlanOf(ivs[..|ivs| - 1], w) + Tagged(ivs[|ivs| - 1], w)
  }

  /** The routes under which a plan has address number x. */
  function RoutesOf(plan: seq<Planned>, x: int): seq<Route> {
    if plan == [] then []
    else RoutesOf(plan[..|plan| - 1], x) +
         if Num(plan[|plan| - 1].ip) == x then [plan[|plan| - 1].route] else []
  }

  lemma {:induction false} RoutesOfConcat(a: seq<Planned>, b: seq<Planned>, x: int)
    ensures RoutesOf(a + b, x) == RoutesOf(a, x) + RoutesOf(b, x)
  {
    if b == [] {
      assert a + b == a;
    } else {
      assert (a + b)[..|a + b| - 1] == a + b[..|b| - 1];
      RoutesOfConcat(a, b[..|b| - 1], x);
    }
  }

  lemma {:induction false} RoutesOfTagged(iv: Iv<Route>, w: nat, x: int)
    requires 0 <= iv.lo && iv.hi < Space(w)
    ensures RoutesOf(Tagged(iv, w), x) == if In(x, iv) then [iv.route] else []
    decreases iv.hi - iv.lo
  {
    if iv.lo <= iv.hi {
      var init := iv.(hi := iv.hi - 1);
      RoutesOfTagged(init, w, x);
      var last := Planned(ToBytes(iv.hi, w), iv.route);
      NumToBytes(iv.hi, w);
      assert Tagged(iv, w)[..|Tagged(iv, w)| - 1] == Tagged(init, w);
      assert Tagged(iv, w)[|Tagged(iv, w)| - 1] == last;
    }
  }

  /** A plan has an address once for every interval containing it. */
  lemma {:induction false} PlanIsHits(ivs: seq<Iv<Route>>, w: nat, x: int)
    requires Bounded(ivs, w)
    ensures RoutesOf(PlanOf(ivs, w), x) == Hits(ivs, x)
  {
    if ivs != [] {
      PlanIsHits(ivs[..|ivs| - 1], w, x);
      RoutesOfTagged(ivs[|ivs| - 1], w, x);
      RoutesOfConcat(PlanOf(ivs[..|ivs| - 1], w), Tagged(ivs[|ivs| - 1], w), x);
    }
  }

  lemma TaggedAscends(iv: Iv<Route>, w: nat)
    requires 0 <= iv.lo <= iv.hi
    ensures |Tagged(iv, w)| == iv.hi - iv.lo + 1
    ensures forall i :: 0 <= i < |Tagged(iv, w)| ==> Tagged(iv, w)[i].ip == ToBytes(iv.lo + i, w)
  {
  }

  /** Tiling intervals plan every address between their ends, ascending, without a gap. */
  lemma {:induction false} TilesPlan(ivs: seq<Iv<Route>>, lo: nat, hi: int, w: nat)
    requires Tiles(ivs, lo, hi) && hi < Space(w)
    ensures Bounded(ivs, w) && |PlanOf(ivs, w)| == hi - lo + 1
    ensures forall i :: 0 <= i < |PlanOf(ivs, w)| ==> PlanOf(ivs, w)[i].ip == ToBytes(lo + i, w)
  {
    hide ToBytes, Space, Span, Tagged;
    TilesWithin(ivs, lo, hi);
    var init, l := ivs[..|ivs| - 1], ivs[|ivs| - 1];
    TaggedAscends(l, w);
    if |ivs| == 1 {
      assert PlanOf(init, w) == [];
    } else {
      TilesPlan(init, lo, l.lo - 1, w);
    }
  }

  // ---------------------------------------------------------------- the plan a lookup asks for

  /** Every address of n.ip .. end of n, ascending, once, with the route a lookup of it finds. */
  ghost predicate IsLookupPlan(plan: seq<Planned>, h: Host, routes: seq<Route>, n: IPNet, w: nat) {
    |plan| == Num(Last(n)) - Num(n.ip) + 1 &&
    forall i :: 0 <= i < |plan| ==>
      plan[i].ip == ToBytes(Num(n.ip) + i, w) && Lookup(h, routes, n, Num(n.ip) + i) == Some(plan[i].route)
  }

  /** In an ascending plan the route at position i is the only one of its address. */
  lemma {:induction false} RoutesOfAscending(plan: seq<Planned>, lo: nat, x: int)
    requires forall i :: 0 <= i < |plan| ==> Num(plan[i].ip) == lo + i
    ensures RoutesOf(plan, x) == if lo <= x < lo + |plan| then [plan[x - lo].route] else []
  {
    hide Num;
    if plan != [] {
      var init := plan[..|plan| - 1];
      RoutesOfAscending(init, lo, x);
      if lo <= x < lo + |init| { assert init[x - lo] == plan[x - lo]; }
    }
  }

  lemma PlanNumbers(plan: seq<Planned>, lo: nat, w: nat)
    requires lo + |plan| <= Space(w) && forall i :: 0 <= i < |plan| ==> plan[i].ip == ToBytes(lo + i, w)
    ensures forall i :: 0 <= i < |plan| ==> Num(plan[i].ip) == lo + i
  {
    forall i | 0 <= i < |plan| ensures Num(plan[i].ip) == lo + i { NumToBytes(lo + i, w); }
  }

  lemma MatchingTilesPlan(h: Host, routes: seq<Route>, n: IPNet, ivs: seq<Iv<Route>>, w: nat)
    requires ValidNet(n, w) && Tiles(ivs, Num(n.ip), Num(Last(n))) && MatchesLookup(h, routes, n, ivs)
    ensures Bounded(ivs, w) && IsLookupPlan(PlanOf(ivs, w), h, routes, n, w)
  {
    hide Lookup, Hits, PlanOf, RoutesOf, ToBytes, Num, Space, Last, Tiles;
    var lo := Num(n.ip);
    NumBound(Last(n));
    TilesPlan(ivs, lo, Num(Last(n)), w);
    var plan := PlanOf(ivs, w);
    PlanNumbers(plan, lo, w);
    forall i | 0 <= i < |plan| ensures Lookup(h, routes, n, lo + i) == Some(plan[i].route) {
      PlanIsHits(ivs, w, lo + i);
      RoutesOfAscending(plan, lo, lo + i);
    }
  }

  lemma LookupPlanMatches(h: Host, routes: seq<Route>, n: IPNet, ivs: seq<Iv<Route>>, w: nat)
    requires ValidNet(n, w) && Bounded(ivs, w) && IsLookupPlan(PlanOf(ivs, w), h, routes, n, w)
    ensures MatchesLookup(h, routes, n, ivs)
  {
    hide Lookup, Hits, PlanOf, RoutesOf, ToBytes, Num, Space, Last, Tiles;
    var lo, plan := Num(n.ip), PlanOf(ivs, w);
    NumBound(Last(n));
    LastIsBlockEnd(n);
    PlanNumbers(plan, lo, w);
    forall x | lo <= x <= Num(Last(n))
      ensures Lookup(h, routes, n, x).Some? && Hits(ivs, x) == [Lookup(h, routes, n, x).value]
    {
      PlanIsHits(ivs, w, x);
      RoutesOfAscending(plan, lo, x);
      assert Lookup(h, routes, n, lo + (x - lo)) == Some(plan[x - lo].route);
    }
  }

  lemma PaintedBounded(h: Host, routes: seq<Route>, n: IPNet, def: Route, order: seq<Route>, w: nat)
    requires Setting(h, routes, n, def, order, w)
    ensures Bounded(Painted(n, def, order), w)
  {
    var seed := SpansN(n, def, w);
    forall k | 0 <= k < |order| ensures ValidSpec(Claims(order)[k], Space(w)) {
      var i := OrderClaims(h, routes, n, def, order, w, k);
    }
    PaintAllWithin(seed, Claims(order), Space(w));
  }

  /**
   For any network and distinct destinations, enumerating the split ranges in order plans every address once,
   ascending, under its longest-prefix-match route exactly when no address is lost.
   */
  lemma PlanIsLookupExactlyWhenNothingLost(h: Host, routes: seq<Route>, n: IPNet, def: Route, order: seq<Route>, w: nat)
    requires Setting(h, routes, n, def, order, w) && w > 0
    ensures Bounded(Painted(n, def, order), w)
    ensures IsLookupPlan(PlanOf(Painted(n, def, order), w), h, routes, n, w) <==>
            NothingLost(h, routes, n, def)
  {
    hide Lookup, Lost, Painted;
    PaintedBounded(h, routes, n, def, order, w);
    ExactlyWhenNothingLost(h, routes, n, def, order, w);
    if NothingLost(h, routes, n, def) {
      MatchingTilesPlan(h, routes, n, Painted(n, def, order), w);
    } else if IsLookupPlan(PlanOf(Painted(n, def, order), w), h, routes, n, w) {
      LookupPlanMatches(h, routes, n, Painted(n, def, order), w);
    }
  }
}
