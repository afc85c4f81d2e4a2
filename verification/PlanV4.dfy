/** The addresses an IPv4 split plans after network and broadcast addresses are trimmed off its ranges. */
module PlanV4 {
  import opened Bytes
  import opened Addresses
  import opened Enumerator
  import opened Intervals
  import opened Routes
  import opened RouteLosses
  import opened RouteRuns
  import opened Trim
  import opened Router
  import opened Plan

  /** A range that post-processing does not crash on. */
  ghost predicate Survives(iv: Iv<Route>, routes: seq<Route>) {
    0 <= iv.lo && 0 <= iv.hi && TrimmedEnds(iv, routes).Ends?
  }

  ghost predicate AllSurvive(ivs: seq<Iv<Route>>, routes: seq<Route>) {
    forall k :: 0 <= k < |ivs| ==> Survives(ivs[k], routes)
  }

  /** A range that post-processing does not invert either. */
  ghost predicate Trimmable(iv: Iv<Route>, routes: seq<Route>) {
    Survives(iv, routes) && iv.lo <= iv.hi < Space(4) &&
    !Inverts(ToBytes(iv.lo, 4), ToBytes(iv.hi, 4), iv.route.dst, routes)
  }

  ghost predicate AllTrimmable(ivs: seq<Iv<Route>>, routes: seq<Route>) {
    forall k :: 0 <= k < |ivs| ==> Trimmable(ivs[k], routes)
  }

  /** What is left of a range, empty if nothing is. */
  ghost function Kept(iv: Iv<Route>, routes: seq<Route>): (r: Iv<Route>)
    requires Survives(iv, routes)
    ensures 0 <= r.lo
  {
    var t := TrimmedEnds(iv, routes);
    Iv(Lower(t.start, t.end), Upper(t.start, t.end), iv.route)
  }

  ghost function KeptAll(ivs: seq<Iv<Route>>, routes: seq<Route>): (r: seq<Iv<Route>>)
    requires AllSurvive(ivs, routes)
    ensures |r| == |ivs| && forall k :: 0 <= k < |r| ==> 0 <= r[k].lo && r[k] == Kept(ivs[k], routes)
  {
    seq(|ivs|, k requires 0 <= k < |ivs| => Kept(ivs[k], routes))
  }

  // ---------------------------------------------------------------- what trimming leaves out

  /** A network or broadcast address. */
  ghost predicate AtEdge(x: nat, routes: seq<Route>) {
    NetworkNumber(x, routes) || BroadcastNumber(x, routes)
  }

  /**
   Exactly which addresses post-processing takes out of a range, told from numbers: a network address standing alone off
   a /32 route; else a broadcast address at the end, and a network address at the start unless that would empty a range
   of two; addresses ending in 255 are kept.
   */
  ghost predicate Cuts(iv: Iv<Route>, routes: seq<Route>, x: int) {
    if iv.lo == iv.hi then x == iv.lo && iv.route.dst.Some? && iv.route.dst.value.ones < 32 && NetworkNumber(x, routes)
    else
      (x == iv.hi && DropsEnd(x, routes)) ||
      (x == iv.lo && DropsStart(x, routes) && !(iv.lo + 1 == iv.hi && DropsEnd(iv.hi, routes)))
  }

  lemma KeptOfMany(iv: Iv<Route>, routes: seq<Route>)
    requires Trimmable(iv, routes) && ValidRoutes(routes, 4) && iv.lo < iv.hi
    ensures var hi := iv.hi - if DropsEnd(iv.hi, routes) then 1 else 0;
            Kept(iv, routes).hi == hi &&
            Kept(iv, routes).lo ==
            iv.lo + if DropsStart(iv.lo, routes) && (!DropsEnd(iv.hi, routes) || iv.lo < hi) then 1 else 0
  {
    hide ToBytes, Trimming, Inverts, Space, Num, TrimsEnd, TrimsStart, DropsEnd, DropsStart, Lower, Upper, NetworkNumber;
    NumToBytes(iv.lo, 4);
    NumToBytes(iv.hi, 4);
    TrimsNumerically(ToBytes(iv.lo, 4), iv.route.dst, routes);
    TrimsNumerically(ToBytes(iv.hi, 4), iv.route.dst, routes);
    TrimmedRange(ToBytes(iv.lo, 4), ToBytes(iv.hi, 4), iv.route.dst, routes);
  }

  lemma KeptOfOne(iv: Iv<Route>, routes: seq<Route>)
    requires Trimmable(iv, routes) && ValidRoutes(routes, 4) && iv.lo == iv.hi
    ensures iv.route.dst.Some?
    ensures forall x :: In(x, Kept(iv, routes)) <==>
              x == iv.lo && (iv.route.dst.value.ones >= 32 || !NetworkNumber(x, routes))
  {
    hide ToBytes, Trimming, Inverts, Space, Num, TrimsEnd, TrimsStart, DropsEnd, DropsStart, Lower, Upper, NetworkNumber,
         NetworkAddress;
    NumToBytes(iv.lo, 4);
    TrimsNumerically(ToBytes(iv.lo, 4), iv.route.dst, routes);
    TrimmedSingle(ToBytes(iv.lo, 4), iv.route.dst, routes);
    var t := TrimmedEnds(iv, routes);
    assert forall x :: In(x, Kept(iv, routes)) <==> Denotes(t.start, t.end, x);
  }

  /** What is left of a range that is not inverted: exactly its addresses but those cut. */
  lemma KeptInside(iv: Iv<Route>, routes: seq<Route>)
    requires Trimmable(iv, routes) && ValidRoutes(routes, 4)
    ensures Kept(iv, routes).hi < Space(4) && Kept(iv, routes).route == iv.route
    ensures forall x :: In(x, Kept(iv, routes)) <==> In(x, iv) && !Cuts(iv, routes, x)
    ensures forall x: nat :: Cuts(iv, routes, x) ==> AtEdge(x, routes)
  {
    hide Kept, Survives, Inverts, Space, NetworkNumber, BroadcastNumber;
    KeptBounded(iv, routes);
    if iv.lo == iv.hi { KeptOfOne(iv, routes); } else { KeptOfMany(iv, routes); }
  }

  lemma LastKept(ivs: seq<Iv<Route>>, routes: seq<Route>, x: int)
    requires AllTrimmable(ivs, routes) && ValidRoutes(routes, 4) && ivs != []
    ensures var init, l := ivs[..|ivs| - 1], ivs[|ivs| - 1];
            AllTrimmable(init, routes) && AllSurvive(init, routes) && AllSurvive(ivs, routes) && Trimmable(l, routes) &&
            Hits(KeptAll(ivs, routes), x) ==
            Hits(KeptAll(init, routes), x) + if In(x, l) && !Cuts(l, routes, x) then [l.route] else []
  {
    hide Kept, Cuts, Space, Survives, Inverts, In;
    var init, l := ivs[..|ivs| - 1], ivs[|ivs| - 1];
    KeptInside(l, routes);
    var kept := KeptAll(ivs, routes);
    assert kept[..|kept| - 1] == KeptAll(init, routes) && kept[|kept| - 1] == Kept(l, routes);
  }

  lemma {:induction false} KeptOutside(ivs: seq<Iv<Route>>, routes: seq<Route>, x: int)
    requires AllTrimmable(ivs, routes) && ValidRoutes(routes, 4) && forall k :: 0 <= k < |ivs| ==> !In(x, ivs[k])
    ensures AllSurvive(ivs, routes) && Hits(KeptAll(ivs, routes), x) == []
  {
    hide AllTrimmable, AllSurvive, Cuts;
    if ivs == [] {
      NothingKept(ivs, routes, x);
    } else {
      LastKept(ivs, routes, x);
      KeptOutside(ivs[..|ivs| - 1], routes, x);
    }
  }

  lemma NothingKept(ivs: seq<Iv<Route>>, routes: seq<Route>, x: int)
    requires ivs == []
    ensures AllSurvive(ivs, routes) && Hits(KeptAll(ivs, routes), x) == []
  {
  }

  /** Of tiling ranges, trimming leaves every address in its range, or takes it out exactly if it is cut there. */
  lemma {:induction false} KeptHits(ivs: seq<Iv<Route>>, routes: seq<Route>, lo: nat, hi: int, x: int, k: nat)
    requires Tiles(ivs, lo, hi) && AllTrimmable(ivs, routes) && ValidRoutes(routes, 4) && k < |ivs| && In(x, ivs[k])
    ensures AllSurvive(ivs, routes) && Hits(KeptAll(ivs, routes), x) == if Cuts(ivs[k], routes, x) then [] else [ivs[k].route]
  {
    hide AllTrimmable, AllSurvive, Cuts, KeptAll, Hits, Tiles, In;
    var n := |ivs| - 1;
    var init, l := ivs[..n], ivs[n];
    LastKept(ivs, routes, x);
    BeforeLast(ivs, lo, hi, x, k);
    if k < n {
      KeptHits(init, routes, lo, l.lo - 1, x, k);
    } else {
      KeptOutside(init, routes, x);
    }
  }

  lemma BeforeLast(ivs: seq<Iv<Route>>, lo: int, hi: int, x: int, k: nat)
    requires Tiles(ivs, lo, hi) && k < |ivs| && In(x, ivs[k])
    ensures var n := |ivs| - 1;
            if k < n then Tiles(ivs[..n], lo, ivs[n].lo - 1) && !In(x, ivs[n]) && ivs[..n][k] == ivs[k]
            else forall j :: 0 <= j < n ==> !In(x, ivs[..n][j])
  {
    var n := |ivs| - 1;
    if n > 0 { TilesWithin(ivs[..n], lo, ivs[n].lo - 1); }
  }

  lemma AllKeptBounded(ivs: seq<Iv<Route>>, routes: seq<Route>)
    requires AllTrimmable(ivs, routes) && ValidRoutes(routes, 4)
    ensures Bounded(KeptAll(ivs, routes), 4)
  {
    hide Kept, Cuts, Space, Survives, Inverts;
    forall k | 0 <= k < |ivs| ensures Kept(ivs[k], routes).hi < Space(4) { KeptInside(ivs[k], routes); }
  }

  /** Addresses strictly ascend and stay between lo and hi. */
  ghost predicate Ascends(plan: seq<Planned>, lo: int, hi: int) {
    (forall i :: 0 <= i < |plan| ==> lo <= Num(plan[i].ip) <= hi) &&
    forall i, j :: 0 <= i < j < |plan| ==> Num(plan[i].ip) < Num(plan[j].ip)
  }

  lemma AscendsConcat(a: seq<Planned>, b: seq<Planned>, lo: int, mid: int, hi: int)
    requires Ascends(a, lo, mid) && Ascends(b, mid + 1, hi) && lo <= mid + 1 && mid <= hi
    ensures Ascends(a + b, lo, hi)
  {
    hide Num;
  }

  lemma TaggedWithin(iv: Iv<Route>, lo: int, hi: int, w: nat)
    requires 0 <= iv.lo && iv.hi < Space(w) && forall x :: In(x, iv) ==> lo <= x <= hi
    ensures Ascends(Tagged(iv, w), lo, hi)
  {
    hide Space, ToBytes, Num;
    var plan := Tagged(iv, w);
    forall i | 0 <= i < |plan| ensures Num(plan[i].ip) == iv.lo + i && In(iv.lo + i, iv) {
      assert plan[i].ip == ToBytes(iv.lo + i, w);
      NumToBytes(iv.lo + i, w);
    }
  }

  lemma {:induction false} KeptAscends(ivs: seq<Iv<Route>>, routes: seq<Route>, lo: nat, hi: int)
    requires Tiles(ivs, lo, hi) && AllTrimmable(ivs, routes) && ValidRoutes(routes, 4)
    ensures Ascends(PlanOf(KeptAll(ivs, routes), 4), lo, hi)
  {
    hide Kept, Survives, Inverts, Ascends, AtEdge, Tagged, Cuts;
    var init, l := ivs[..|ivs| - 1], ivs[|ivs| - 1];
    assert AllTrimmable(init, routes);
    var kept := KeptAll(ivs, routes);
    KeptInside(l, routes);
    TaggedWithin(Kept(l, routes), l.lo, l.hi, 4);
    assert kept[..|kept| - 1] == KeptAll(init, routes) && kept[|kept| - 1] == Kept(l, routes);
    if |ivs| == 1 {
      assert PlanOf(KeptAll(init, routes), 4) == [];
      assert PlanOf(kept, 4) == Tagged(Kept(l, routes), 4);
    } else {
      TilesWithin(ivs, lo, hi);
      TilesWithin(init, lo, l.lo - 1);
      KeptAscends(init, routes, lo, l.lo - 1);
      AscendsConcat(PlanOf(KeptAll(init, routes), 4), Tagged(Kept(l, routes), 4), lo, l.lo - 1, hi);
    }
  }

  // ---------------------------------------------------------------- the plan, told from the lookup

  /** Nothing before x in n, or nothing behind x in n, is looked up to x's route. */
  predicate FirstHere(h: Host, routes: seq<Route>, n: IPNet, x: int) {
    x == Num(n.ip) || Lookup(h, routes, n, x - 1) != Lookup(h, routes, n, x)
  }

  predicate LastHere(h: Host, routes: seq<Route>, n: IPNet, x: int) {
    x == Num(Last(n)) || Lookup(h, routes, n, x + 1) != Lookup(h, routes, n, x)
  }

  /** Exactly which addresses of n are not planned: what post-processing cuts, told from the lookup of x and its neighbours. */
  ghost predicate Omitted(h: Host, routes: seq<Route>, n: IPNet, x: int)
    requires Lookup(h, routes, n, x).Some?
  {
    var r := Lookup(h, routes, n, x).value;
    if FirstHere(h, routes, n, x) && LastHere(h, routes, n, x) then
      r.dst.Some? && r.dst.value.ones < 32 && NetworkNumber(x, routes)
    else
      (LastHere(h, routes, n, x) && DropsEnd(x, routes)) ||
      (FirstHere(h, routes, n, x) && DropsStart(x, routes) && !(LastHere(h, routes, n, x + 1) && DropsEnd(x + 1, routes)))
  }

  /** The plan ascends, and names every address of n under its lookup, once, but for exactly the omitted ones. */
  ghost predicate CoversLookup(plan: seq<Planned>, h: Host, routes: seq<Route>, n: IPNet) {
    Ascends(plan, Num(n.ip), Num(Last(n))) &&
    forall x: nat :: Num(n.ip) <= x <= Num(Last(n)) ==>
      Lookup(h, routes, n, x).Some? &&
      RoutesOf(plan, x) == if Omitted(h, routes, n, x) then [] else [Lookup(h, routes, n, x).value]
  }

  /** Only network and broadcast addresses are omitted. */
  lemma OmittedAtEdge(h: Host, routes: seq<Route>, n: IPNet, x: nat)
    requires Lookup(h, routes, n, x).Some? && Omitted(h, routes, n, x)
    ensures AtEdge(x, routes)
  {
    hide Lookup, NetworkNumber, BroadcastNumber, FirstHere, LastHere;
  }

  ghost predicate AllDiffer(ivs: seq<Iv<Route>>) {
    forall j :: 0 <= j < |ivs| - 1 ==> Differ(ivs, j)
  }

  predicate Differ(ivs: seq<Iv<Route>>, j: nat)
    requires j < |ivs| - 1
  {
    ivs[j].route != ivs[j + 1].route
  }

  /** Where neighbouring ranges carry different routes, the ends of a range are told from the lookup. */
  lemma EndsAreTold(h: Host, routes: seq<Route>, n: IPNet, ivs: seq<Iv<Route>>, k: nat, x: int)
    requires Tiles(ivs, Num(n.ip), Num(Last(n))) && MatchesLookup(h, routes, n, ivs) && k < |ivs| && In(x, ivs[k])
    requires AllDiffer(ivs)
    ensures FirstHere(h, routes, n, x) <==> x == ivs[k].lo
    ensures LastHere(h, routes, n, x) <==> x == ivs[k].hi
  {
    hide Num, Last, Lookup, Tiles, MatchesLookup;
    var lo, hi := Num(n.ip), Num(Last(n));
    TilesWithin(ivs, lo, hi);
    TilesNext(ivs, lo, hi, k);
    RangeIsLookup(h, routes, n, ivs, k, x);
    if x > ivs[k].lo {
      RangeIsLookup(h, routes, n, ivs, k, x - 1);
    } else if k > 0 {
      RangeIsLookup(h, routes, n, ivs, k - 1, x - 1);
      assert Differ(ivs, k - 1);
    }
    if x < ivs[k].hi {
      RangeIsLookup(h, routes, n, ivs, k, x + 1);
    } else if k + 1 < |ivs| {
      TilesNext(ivs, lo, hi, k + 1);
      RangeIsLookup(h, routes, n, ivs, k + 1, x + 1);
      assert Differ(ivs, k);
    }
  }

  /** What is cut out of the range of x is what the lookup tells. */
  lemma CutsAreOmitted(h: Host, routes: seq<Route>, n: IPNet, ivs: seq<Iv<Route>>, k: nat, x: int)
    requires Tiles(ivs, Num(n.ip), Num(Last(n))) && MatchesLookup(h, routes, n, ivs) && k < |ivs| && In(x, ivs[k])
    requires AllDiffer(ivs)
    ensures Lookup(h, routes, n, x) == Some(ivs[k].route)
    ensures Omitted(h, routes, n, x) <==> Cuts(ivs[k], routes, x)
  {
    hide Num, Last, Lookup, Tiles, MatchesLookup, FirstHere, LastHere, NetworkNumber, BroadcastNumber;
    RangeIsLookup(h, routes, n, ivs, k, x);
    EndsAreTold(h, routes, n, ivs, k, x);
    if x < ivs[k].hi { EndsAreTold(h, routes, n, ivs, k, x + 1); }
  }

  /** The IPv4 plan of a network where nothing is lost and no range is inverted. */
  lemma TrimmedPlanCovers(h: Host, routes: seq<Route>, n: IPNet, def: Route, order: seq<Route>)
    requires Setting(h, routes, n, def, order, 4)
    requires NothingLost(h, routes, n, def)
    requires AllTrimmable(Painted(n, def, order), routes)
    ensures CoversLookup(PlanOf(KeptAll(Painted(n, def, order), routes), 4), h, routes, n)
  {
    hide Lookup, Lost, NothingLost, Painted, Survives, Inverts, Ascends, Hits, Tiles, Cuts, Omitted, CoversLookup, Num, Last,
         Prepared, Clash, MatchesLookup, KeptAll, PlanOf;
    var ivs := Painted(n, def, order);
    ExactlyWhenNothingLost(h, routes, n, def, order, 4);
    KeptAscends(ivs, routes, Num(n.ip), Num(Last(n)));
    forall j | 0 <= j < |ivs| - 1 ensures Differ(ivs, j) { NeighboursDiffer(h, routes, n, def, order, 4, j); }
    KeptCovers(h, routes, n, ivs);
  }

  lemma KeptCovers(h: Host, routes: seq<Route>, n: IPNet, ivs: seq<Iv<Route>>)
    requires AllTrimmable(ivs, routes) && ValidRoutes(routes, 4) && MatchesLookup(h, routes, n, ivs)
    requires Tiles(ivs, Num(n.ip), Num(Last(n))) && AllDiffer(ivs)
    requires Ascends(PlanOf(KeptAll(ivs, routes), 4), Num(n.ip), Num(Last(n)))
    ensures CoversLookup(PlanOf(KeptAll(ivs, routes), 4), h, routes, n)
  {
    assert AllSurvive(ivs, routes);
    hide Lookup, AllTrimmable, Ascends, Omitted, Num, Last, MatchesLookup, Tiles, PlanOf, KeptAll, RoutesOf;
    forall x: nat | Num(n.ip) <= x <= Num(Last(n))
      ensures Lookup(h, routes, n, x).Some?
      ensures RoutesOf(PlanOf(KeptAll(ivs, routes), 4), x) ==
              if Omitted(h, routes, n, x) then [] else [Lookup(h, routes, n, x).value]
    {
      KeptCoversAt(h, routes, n, ivs, x);
    }
  }

  lemma KeptCoversAt(h: Host, routes: seq<Route>, n: IPNet, ivs: seq<Iv<Route>>, x: nat)
    requires AllTrimmable(ivs, routes) && ValidRoutes(routes, 4) && MatchesLookup(h, routes, n, ivs)
    requires Tiles(ivs, Num(n.ip), Num(Last(n))) && AllDiffer(ivs)
    requires Num(n.ip) <= x <= Num(Last(n))
    ensures Lookup(h, routes, n, x).Some?
    ensures AllSurvive(ivs, routes) && RoutesOf(PlanOf(KeptAll(ivs, routes), 4), x) ==
            if Omitted(h, routes, n, x) then [] else [Lookup(h, routes, n, x).value]
  {
    hide Lookup, Survives, Inverts, Cuts, Omitted, Num, Last, MatchesLookup, Tiles, PlanOf, Kept, KeptAll, RoutesOf, Hits;
    AllKeptBounded(ivs, routes);
    var k := TileOf(ivs, Num(n.ip), Num(Last(n)), x);
    KeptHits(ivs, routes, Num(n.ip), Num(Last(n)), x, k);
    CutsAreOmitted(h, routes, n, ivs, k, x);
    PlanIsHits(KeptAll(ivs, routes), 4, x);
  }

  // ---------------------------------------------------------------- the run

  lemma TrimmedValid(start: IP, end: IP, dst: Option<IPNet>, routes: seq<Route>)
    requires |start| == |end| == 4 && Trimming(start, end, dst, routes).Ends?
    ensures var t := Trimming(start, end, dst, routes); Enumerator.ValidRange(t.start, t.end, 4)
  {
    hide NetworkAddress, BroadcastAddress;
  }

  /** What the enumerator makes of one range after post-processing. */
  method EnumerateTrimmed(r: IpRangeRouteContext, ghost iv: Iv<Route>, routes: seq<Route>) returns (chunks: seq<seq<IP>>)
    requires TrimmedTo(r, iv, routes)
    ensures Survives(iv, routes) && Flatten(chunks) == Span(Kept(iv, routes).lo, Kept(iv, routes).hi, 4)
    ensures forall k, i :: 0 <= k < |chunks| && 0 <= i < |chunks[k]| ==> |chunks[k][i]| == 4
  {
    hide Trimming, ToBytes;
    TrimmedValid(ToBytes(iv.lo, 4), ToBytes(iv.hi, 4), iv.route.dst, routes);
    chunks := IPv4RangeBytesChunks(r.start, r.end, false);
    FlattenSlices(Lower(r.start, r.end), Upper(r.start, r.end), 4);
    SliceAddresses(Lower(r.start, r.end), Upper(r.start, r.end), 4);
  }

  lemma KeptNext(ivs: seq<Iv<Route>>, routes: seq<Route>, k: nat)
    requires k < |ivs| && AllSurvive(ivs[..k], routes) && Survives(ivs[k], routes)
    ensures AllSurvive(ivs[..k + 1], routes)
    ensures KeptAll(ivs[..k + 1], routes) == KeptAll(ivs[..k], routes) + [Kept(ivs[k], routes)]
    ensures PlanOf(KeptAll(ivs[..k + 1], routes), 4) == PlanOf(KeptAll(ivs[..k], routes), 4) + Tagged(Kept(ivs[k], routes), 4)
    ensures Kept(ivs[k], routes).route == ivs[k].route
  {
    hide Survives, Tagged;
    var kept := KeptAll(ivs[..k + 1], routes);
    assert kept[..k] == KeptAll(ivs[..k], routes);
  }

  /** Post-processing inverts no range. */
  ghost predicate NoneInverts(ivs: seq<Iv<Route>>, routes: seq<Route>) {
    forall k :: 0 <= k < |ivs| ==>
      0 <= ivs[k].lo && 0 <= ivs[k].hi &&
      !Inverts(ToBytes(ivs[k].lo, 4), ToBytes(ivs[k].hi, 4), ivs[k].route.dst, routes)
  }

  lemma PaintedTrimmable(h: Host, routes: seq<Route>, n: IPNet, def: Route, order: seq<Route>)
    requires Setting(h, routes, n, def, order, 4)
    requires NothingLost(h, routes, n, def)
    requires AllSurvive(Painted(n, def, order), routes) && NoneInverts(Painted(n, def, order), routes)
    ensures AllTrimmable(Painted(n, def, order), routes)
  {
    hide Lookup, Lost, NothingLost, Painted, Inverts, Survives, ToBytes, Prepared;
    var ivs := Painted(n, def, order);
    ExactlyWhenNothingLost(h, routes, n, def, order, 4);
    TilesWithin(ivs, Num(n.ip), Num(Last(n)));
    NumBound(Last(n));
  }

  // ---------------------------------------------------------------- inversion and crash, told from the lookup

  /** Post-processing dereferences the missing destination of x's route: x is alone in its lookup, a bare default. */
  predicate CrashesAt(h: Host, routes: seq<Route>, n: IPNet, x: int) {
    Alone(h, routes, n, x) && Lookup(h, routes, n, x).Some? && Lookup(h, routes, n, x).value.dst.None?
  }

  /** An address off a /32 route that is a broadcast address not ending in 255 and no network address. */
  ghost predicate InvertsNumber(x: int, dst: Option<IPNet>, routes: seq<Route>) {
    dst.Some? && dst.value.ones < 32 && !NetworkNumber(x, routes) && DropsEnd(x, routes)
  }

  /** Post-processing inverts the range of x: x is alone in its lookup and such an address. */
  ghost predicate InvertsAt(h: Host, routes: seq<Route>, n: IPNet, x: nat) {
    Alone(h, routes, n, x) && Lookup(h, routes, n, x).Some? && InvertsNumber(x, Lookup(h, routes, n, x).value.dst, routes)
  }

  lemma InvertsNumerically(x: nat, dst: Option<IPNet>, routes: seq<Route>)
    requires x < Space(4) && ValidRoutes(routes, 4)
    ensures Inverts(ToBytes(x, 4), ToBytes(x, 4), dst, routes) <==> InvertsNumber(x, dst, routes)
  {
    hide Num, ToBytes, Space, Inverts, NetworkNumber, DropsEnd, NetworkAddress;
    NumToBytes(x, 4);
    TrimsNumerically(ToBytes(x, 4), dst, routes);
  }

  /** The splitter crashes if and only if some address crashes it. */
  lemma CrashesExactly(h: Host, routes: seq<Route>, n: IPNet, def: Route, order: seq<Route>)
    requires Setting(h, routes, n, def, order, 4) && NothingLost(h, routes, n, def)
    ensures (exists iv :: iv in Painted(n, def, order) && Crashes(iv)) <==> exists x :: CrashesAt(h, routes, n, x)
  {
    hide Lookup, Lost, NothingLost, Painted, Prepared, Num, Last, Tiles, MatchesLookup, Alone, Clash;
    var ivs := Painted(n, def, order);
    ExactlyWhenNothingLost(h, routes, n, def, order, 4);
    if iv :| iv in ivs && Crashes(iv) {
      var k :| 0 <= k < |ivs| && ivs[k] == iv;
      SinglesAreAlone(h, routes, n, def, order, 4, iv.lo);
      RangeIsLookup(h, routes, n, ivs, k, iv.lo);
      assert CrashesAt(h, routes, n, iv.lo);
    }
    if x :| CrashesAt(h, routes, n, x) {
      SinglesAreAlone(h, routes, n, def, order, 4, x);
      var k :| 0 <= k < |ivs| && ivs[k].lo == x == ivs[k].hi;
      RangeIsLookup(h, routes, n, ivs, k, x);
      assert ivs[k] in ivs && Crashes(ivs[k]);
    }
  }

  lemma InvertsIsSingle(iv: Iv<Route>, routes: seq<Route>)
    requires 0 <= iv.lo <= iv.hi < Space(4) && Inverts(ToBytes(iv.lo, 4), ToBytes(iv.hi, 4), iv.route.dst, routes)
    ensures iv.lo == iv.hi
  {
    NumToBytes(iv.lo, 4);
    NumToBytes(iv.hi, 4);
  }

  lemma NoneInvertsExactly(h: Host, routes: seq<Route>, n: IPNet, def: Route, order: seq<Route>)
    requires Setting(h, routes, n, def, order, 4) && NothingLost(h, routes, n, def)
    ensures NoneInverts(Painted(n, def, order), routes) <==> forall x: nat :: !InvertsAt(h, routes, n, x)
  {
    hide Lookup, Lost, NothingLost, Painted, Prepared, Num, Last, Tiles, MatchesLookup, Alone, Clash, Inverts, Space, ToBytes,
         InvertsNumber;
    var ivs := Painted(n, def, order);
    ExactlyWhenNothingLost(h, routes, n, def, order, 4);
    PaintedBounded(h, routes, n, def, order, 4);
    TilesWithin(ivs, Num(n.ip), Num(Last(n)));
    if k :| 0 <= k < |ivs| && Inverts(ToBytes(ivs[k].lo, 4), ToBytes(ivs[k].hi, 4), ivs[k].route.dst, routes) {
      InvertsIsSingle(ivs[k], routes);
      SinglesAreAlone(h, routes, n, def, order, 4, ivs[k].lo);
      RangeIsLookup(h, routes, n, ivs, k, ivs[k].lo);
      InvertsNumerically(ivs[k].lo, ivs[k].route.dst, routes);
      assert InvertsAt(h, routes, n, ivs[k].lo);
    }
    if x: nat :| InvertsAt(h, routes, n, x) {
      SinglesAreAlone(h, routes, n, def, order, 4, x);
      var k :| 0 <= k < |ivs| && ivs[k].lo == x == ivs[k].hi;
      RangeIsLookup(h, routes, n, ivs, k, x);
      InvertsNumerically(x, ivs[k].route.dst, routes);
    }
  }

  // ---------------------------------------------------------------- what an inverted range does to the plan

  lemma KeptBounded(iv: Iv<Route>, routes: seq<Route>)
    requires Survives(iv, routes)
    ensures Kept(iv, routes).hi < Space(4) && Kept(iv, routes).route == iv.route
  {
    hide Trimming, ToBytes, Num, Space;
    TrimmedValid(ToBytes(iv.lo, 4), ToBytes(iv.hi, 4), iv.route.dst, routes);
    var t := TrimmedEnds(iv, routes);
    if t.start.Some? || t.end.Some? { NormalisedBounds(t.start, t.end, 4); } else { SpaceBig(4); }
  }

  /** An inverted range names the address before its own as well. */
  lemma InvertedKeeps(iv: Iv<Route>, routes: seq<Route>)
    requires Survives(iv, routes) && ValidRoutes(routes, 4) && iv.lo == iv.hi < Space(4)
    requires Inverts(ToBytes(iv.lo, 4), ToBytes(iv.hi, 4), iv.route.dst, routes)
    ensures Kept(iv, routes) == Iv(iv.lo - 1, iv.lo, iv.route)
  {
    hide Trimming, ToBytes, Num, Space, NetworkAddress, BroadcastAddress;
    var ip := ToBytes(iv.lo, 4);
    NumToBytes(iv.lo, 4);
    TrimmedSingle(ip, iv.route.dst, routes);
    BroadcastIsPositive(ip, routes);
    PreviousIsPredecessor(ip);
  }

  lemma {:induction false} HitsHas(rs: seq<Iv<Route>>, x: int, k: nat)
    requires k < |rs| && In(x, rs[k])
    ensures rs[k].route in Hits(rs, x)
  {
    if k < |rs| - 1 { HitsHas(rs[..|rs| - 1], x, k); }
  }

  lemma {:induction false} RoutesOfSource(plan: seq<Planned>, x: int) returns (i: nat)
    requires RoutesOf(plan, x) != []
    ensures i < |plan| && Num(plan[i].ip) == x
  {
    var n := |plan| - 1;
    if Num(plan[n].ip) == x { i := n; } else { i := RoutesOfSource(plan[..n], x); }
  }

  lemma InvertedSpoils(h: Host, routes: seq<Route>, n: IPNet, ivs: seq<Iv<Route>>, k: nat)
    requires ValidRoutes(routes, 4) && AllSurvive(ivs, routes) && k < |ivs| && ivs[k].lo == ivs[k].hi < Space(4)
    requires Inverts(ToBytes(ivs[k].lo, 4), ToBytes(ivs[k].hi, 4), ivs[k].route.dst, routes)
    requires Alone(h, routes, n, ivs[k].lo) && Lookup(h, routes, n, ivs[k].lo) == Some(ivs[k].route)
    ensures !CoversLookup(PlanOf(KeptAll(ivs, routes), 4), h, routes, n)
  {
    hide Lookup, Survives, Inverts, ToBytes, Num, Last, Space, AtEdge, Kept, Hits, PlanOf, RoutesOf, CoversLookup, Alone;
    var x := ivs[k].lo;
    var kept := KeptAll(ivs, routes);
    forall j | 0 <= j < |kept| ensures kept[j].hi < Space(4) { KeptBounded(ivs[j], routes); }
    InvertedKeeps(ivs[k], routes);
    HitsHas(kept, x - 1, k);
    PlanIsHits(kept, 4, x - 1);
    StrayRoute(h, routes, n, PlanOf(kept, 4), x, ivs[k].route);
  }

  /** A plan naming the address before x under x's route is not the lookup. */
  lemma StrayRoute(h: Host, routes: seq<Route>, n: IPNet, plan: seq<Planned>, x: int, r: Route)
    requires r in RoutesOf(plan, x - 1) && Alone(h, routes, n, x) && Lookup(h, routes, n, x) == Some(r)
    ensures !CoversLookup(plan, h, routes, n)
  {
    hide Lookup, Num, Last, AtEdge, RoutesOf;
    if x - 1 < Num(n.ip) {
      var i := RoutesOfSource(plan, x - 1);
    }
  }

  lemma SurvivesUnlessCrashes(iv: Iv<Route>, routes: seq<Route>)
    requires 0 <= iv.lo <= iv.hi < Space(4)
    ensures Survives(iv, routes) <==> !Crashes(iv)
  {
    hide Num, ToBytes, Space, NetworkAddress, BroadcastAddress, Next, Previous, SingleHostMask;
    NumToBytes(iv.lo, 4);
    NumToBytes(iv.hi, 4);
  }

  lemma AllSurviveUnlessCrash(h: Host, routes: seq<Route>, n: IPNet, def: Route, order: seq<Route>)
    requires Setting(h, routes, n, def, order, 4) && NothingLost(h, routes, n, def)
    ensures AllSurvive(Painted(n, def, order), routes) <==> forall x :: !CrashesAt(h, routes, n, x)
  {
    hide Lost, NothingLost, Painted, Prepared, Num, Last, Tiles, MatchesLookup, CrashesAt, Crashes, Clash, Survives, Space;
    var ivs := Painted(n, def, order);
    CrashesExactly(h, routes, n, def, order);
    ExactlyWhenNothingLost(h, routes, n, def, order, 4);
    PaintedBounded(h, routes, n, def, order, 4);
    TilesWithin(ivs, Num(n.ip), Num(Last(n)));
    forall k | 0 <= k < |ivs| ensures Survives(ivs[k], routes) <==> !Crashes(ivs[k]) {
      SurvivesUnlessCrashes(ivs[k], routes);
    }
    if iv :| iv in ivs && Crashes(iv) {
      var k :| 0 <= k < |ivs| && ivs[k] == iv;
    }
  }

  /**
   The IPv4 plan of a network where nothing is lost and no address crashes the splitter: it names every address but
   network and broadcast addresses, ascending, under its longest-prefix match, if and only if no address inverts its
   range.
   */
  lemma CoversExactly(h: Host, routes: seq<Route>, n: IPNet, def: Route, order: seq<Route>)
    requires Setting(h, routes, n, def, order, 4) && NothingLost(h, routes, n, def)
    requires forall x :: !CrashesAt(h, routes, n, x)
    ensures AllSurvive(Painted(n, def, order), routes)
    ensures CoversLookup(PlanOf(KeptAll(Painted(n, def, order), routes), 4), h, routes, n) <==>
            forall x: nat :: !InvertsAt(h, routes, n, x)
  {
    hide Lookup, Lost, NothingLost, Painted, Prepared, Num, Last, Tiles, MatchesLookup, Alone, Clash, Inverts, Space, ToBytes,
         CoversLookup, Survives, PlanOf, KeptAll, CrashesAt, InvertsNumber;
    var ivs := Painted(n, def, order);
    AllSurviveUnlessCrash(h, routes, n, def, order);
    NoneInvertsExactly(h, routes, n, def, order);
    if NoneInverts(ivs, routes) {
      PaintedTrimmable(h, routes, n, def, order);
      TrimmedPlanCovers(h, routes, n, def, order);
    } else {
      var x: nat :| InvertsAt(h, routes, n, x);
      ExactlyWhenNothingLost(h, routes, n, def, order, 4);
      PaintedBounded(h, routes, n, def, order, 4);
      SinglesAreAlone(h, routes, n, def, order, 4, x);
      var k :| 0 <= k < |ivs| && ivs[k].lo == x == ivs[k].hi;
      RangeIsLookup(h, routes, n, ivs, k, x);
      InvertsNumerically(x, ivs[k].route.dst, routes);
      InvertedSpoils(h, routes, n, ivs, k);
    }
  }
}
