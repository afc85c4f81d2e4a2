/**
 The exact conditions for one painting order: with no clash in the table, the splitter goes wrong on an address
 exactly when the longest match there, other than the default, is a route touching an end of the address space.
 */
module RouteLosses {
  import opened Bytes
  import opened Addresses
  import opened Intervals
  import opened Skipping
  import opened Routes
  import opened RouteEdges

  ghost predicate NothingLost(h: Host, routes: seq<Route>, n: IPNet, def: Route) {
    forall x :: Num(n.ip) <= x <= Num(Last(n)) ==> !Lost(h, routes, n, def, x)
  }

  // ---------------------------------------------------------------- which orders are plain

  /** All of the address space. */
  predicate Whole(n: IPNet) {
    Num(n.ip) == 0 && Num(Last(n)) == Space(|n.ip|) - 1
  }

  predicate StartsAtZero(h: Host, r: Route, n: IPNet) {
    Paints(h, r, n) && Claim(r).lo == 0
  }

  /** Painted routes from address zero on are all the same. */
  ghost predicate ZeroUniform(h: Host, routes: seq<Route>, n: IPNet) {
    forall i, j :: 0 <= i < |routes| && 0 <= j < |routes| && StartsAtZero(h, routes[i], n) && StartsAtZero(h, routes[j], n) ==>
      h.pick(routes[i]) == h.pick(routes[j])
  }

  lemma NoClashIsUniform(h: Host, routes: seq<Route>, n: IPNet, w: nat)
    requires AlignedRoutes(routes, w) && !Clash(h, routes, n)
    ensures ZeroUniform(h, routes, n)
  {
    hide Num, Last, Space, Specific, Skipped;
    forall i, j | 0 <= i < |routes| && 0 <= j < |routes| && StartsAtZero(h, routes[i], n) && StartsAtZero(h, routes[j], n)
      ensures h.pick(routes[i]) == h.pick(routes[j])
    {
      SpecificHasDst(routes[i], n);
      SpecificHasDst(routes[j], n);
      NumInjective(routes[i].dst.value.ip, routes[j].dst.value.ip);
      assert !Clashing(h, routes[i], routes[j], n);
    }
  }

  /** Unless n is the whole address space, no painted route starts at zero. */
  lemma NotWholeIsUniform(h: Host, routes: seq<Route>, n: IPNet, w: nat)
    requires AlignedRoutes(routes, w) && ValidNet(n, w) && n.ones > 0
    ensures ZeroUniform(h, routes, n)
  {
    forall i | 0 <= i < |routes| && Paints(h, routes[i], n) ensures Claim(routes[i]).lo > 0 {
      ZeroIsSkipped(h, routes[i], n, w);
    }
  }

  lemma ZeroIsSkipped(h: Host, r: Route, n: IPNet, w: nat)
    requires r.dst.Some? && ValidNet(r.dst.value, w) && Aligned(r.dst.value) && ValidNet(n, w) && n.ones > 0
    requires Paints(h, r, n)
    ensures Claim(r).lo > 0
  {
    hide Num, Last;
    if Claim(r).lo == 0 {
      SpecificNumeric(r, n, w);
      AlignedClaim(r, w);
      LastIsBlockEnd(n);
      BlockBounds(Num(n.ip), HostBits(n));
      Pow2Strict(HostBits(n), 8 * w);
    }
  }

  /** Nothing but n itself covers all of the address space. */
  lemma WholeIsN(r: Route, n: IPNet, w: nat)
    requires r.dst.Some? && ValidNet(r.dst.value, w) && ValidNet(n, w) && Num(n.ip) == 0 && Num(Last(n)) == Space(w) - 1
    requires Num(r.dst.value.ip) == 0 && Num(Last(r.dst.value)) == Space(w) - 1
    ensures r.dst.value == n
  {
    var a := r.dst.value;
    NumInjective(a.ip, n.ip);
    LastIsBlockEnd(a);
    LastIsBlockEnd(n);
    BlockBounds(0, HostBits(a));
    BlockBounds(0, HostBits(n));
    if HostBits(a) < HostBits(n) { Pow2Strict(HostBits(a), HostBits(n)); }
    if HostBits(n) < HostBits(a) { Pow2Strict(HostBits(n), HostBits(a)); }
  }

  lemma NotOwn(r: Route, n: IPNet)
    requires Specific(r, n)
    ensures r.dst.Some? && r.dst.value != n
  {
  }

  /** In a network from zero on, a harmless usable route up to the top also starts at zero, and the network ends earlier. */
  lemma TopIsIgnored(h: Host, r: Route, n: IPNet, w: nat)
    requires r.dst.Some? && ValidNet(r.dst.value, w) && Aligned(r.dst.value) && ValidNet(n, w)
    requires Specific(r, n) && h.pick(r).Some? && Num(n.ip) == 0 && Claim(r).hi == Space(w) - 1
    requires Num(Last(n)) == Space(w) - 1 ==> !Harmful(h, r, n)
    ensures Claim(r).lo == 0 && Num(Last(n)) < Space(w) - 1
  {
    hide Num, Last, Space, Specific;
    AlignedClaim(r, w);
    LastIsBlockEnd(n);
    NumBound(Last(n));
    NotOwn(r, n);
    SpecificNumeric(r, n, w);
    CoversNumeric(r, n, w);
    ContainsIsBlock(n, r.dst.value.ip);
    InsideNumeric(r, n);
    if Claim(r).lo == 0 && Num(Last(n)) == Space(w) - 1 { WholeIsN(r, n, w); }
  }

  lemma InsideNumeric(r: Route, n: IPNet)
    requires Specific(r, n)
    ensures Contains(n, r.dst.value.ip)
  {
  }

  lemma HarmlessRoute(h: Host, routes: seq<Route>, n: IPNet, i: nat)
    requires !AnyHarmful(h, routes, n) && i < |routes|
    ensures !Harmful(h, routes[i], n)
  {
  }

  /** Every order is plain, except for harmful routes in the whole address space and several painted ones from zero on. */
  lemma OrderIsPlain(h: Host, routes: seq<Route>, n: IPNet, def: Route, order: seq<Route>, w: nat, k: nat)
    requires Splitting(h, routes, n, def, order, w) && ZeroUniform(h, routes, n) && k < |order|
    requires Whole(n) ==> !AnyHarmful(h, routes, n)
    ensures Plain(Iv(Num(n.ip), Num(Last(n)), def), Claims(order), k, Space(w))
  {
    hide Num, Last, Space, Specific, Prepared, ZeroUniform, Harmful, AnyHarmful;
    var top, m := Num(Last(n)), Space(w);
    var seed := Iv(Num(n.ip), top, def);
    var i := OrderClaims(h, routes, n, def, order, w, k);
    var s := Claims(order)[k];
    SpecificHasDst(routes[i], n);
    NumBound(Last(n));
    if s.hi == m - 1 && Num(n.ip) == 0 {
      if Whole(n) { HarmlessRoute(h, routes, n, i); }
      TopIsIgnored(h, routes[i], n, w);
    } else if s.lo == 0 && top == m - 1 && s.hi < m - 1 {
      forall j | 0 <= j < k ensures Claims(order)[j] == s || Ignored(seed, Claims(order)[j], m) {
        SameAtZero(h, routes, n, def, order, w, j, k);
      }
    }
  }

  lemma SameAtZero(h: Host, routes: seq<Route>, n: IPNet, def: Route, order: seq<Route>, w: nat, j: nat, k: nat)
    requires Splitting(h, routes, n, def, order, w) && ZeroUniform(h, routes, n) && j < k < |order|
    requires Whole(n) ==> !AnyHarmful(h, routes, n)
    requires Num(Last(n)) == Space(w) - 1 && Claims(order)[k].lo == 0 && Claims(order)[k].hi < Space(w) - 1
    ensures Claims(order)[j] == Claims(order)[k] ||
            Ignored(Iv(Num(n.ip), Num(Last(n)), def), Claims(order)[j], Space(w))
  {
    hide Num, Last, Space, Specific, Prepared, Harmful, AnyHarmful;
    var a := OrderClaims(h, routes, n, def, order, w, j);
    var b := OrderClaims(h, routes, n, def, order, w, k);
    OrderAscends(h, routes, n, def, order, w, j, k);
    SpecificHasDst(routes[a], n);
    if Claims(order)[j].hi == Space(w) - 1 {
      if Num(n.ip) == 0 {
        if Whole(n) { HarmlessRoute(h, routes, n, a); }
        TopIsIgnored(h, routes[a], n, w);
      }
    } else {
      assert StartsAtZero(h, routes[a], n) && StartsAtZero(h, routes[b], n);
    }
  }

  // ---------------------------------------------------------------- the exact law

  lemma PlainMatches(h: Host, routes: seq<Route>, n: IPNet, def: Route, order: seq<Route>, w: nat)
    requires Setting(h, routes, n, def, order, w)
    requires AllPlain(Iv(Num(n.ip), Num(Last(n)), def), Claims(order), Space(w))
    ensures MatchesLookup(h, routes, n, Painted(n, def, order)) <==> NothingLost(h, routes, n, def)
    ensures Tiles(Painted(n, def, order), Num(n.ip), Num(Last(n)))
  {
    hide Lookup, Prepared, LastPainted, Hits, Tiles, Lost, Num, Last, Space, Clash, AllPlain;
    var seed := SpansN(n, def, w);
    LastPaintedWins(seed, Claims(order), Space(w));
    forall x | Num(n.ip) <= x <= Num(Last(n))
      ensures Lookup(h, routes, n, x).Some?
      ensures Hits(Painted(n, def, order), x) == [Lookup(h, routes, n, x).value] <==> !Lost(h, routes, n, def, x)
    {
      PaintedOrLost(h, routes, n, def, order, w, x);
    }
  }

  /** An address not looked up to the default lies in the claim of the route it is looked up to. */
  lemma LookupContains(h: Host, routes: seq<Route>, n: IPNet, def: Route, order: seq<Route>, w: nat, x: int)
    requires Splitting(h, routes, n, def, order, w) && Lookup(h, routes, n, x).Some? && Lookup(h, routes, n, x) != Some(def)
    ensures In(x, Claim(Lookup(h, routes, n, x).value)) && ValidSpec(Claim(Lookup(h, routes, n, x).value), Space(w))
  {
    hide Last, Num, Space, Prepared;
    var best := Longest(routes, (r: Route) => Eligible(h, r, n, x));
    if best.None? { DefaultIsFound(h, routes, n, def, order); }
    assert Eligible(h, routes[best.value], n, x);
    SameClaim(h, routes[best.value], Lookup(h, routes, n, x).value);
    AlignedClaim(routes[best.value], w);
  }

  /** The longest match where a usable route reaches is a usable route or the default. */
  lemma LookupFinds(h: Host, routes: seq<Route>, n: IPNet, def: Route, order: seq<Route>, w: nat, x: int)
    requires Splitting(h, routes, n, def, order, w) && Num(n.ip) <= x <= Num(Last(n))
    ensures Lookup(h, routes, n, x).Some?
  {
    hide Last, Num, Space, Prepared;
    var best := Longest(routes, (r: Route) => Eligible(h, r, n, x));
    DefaultIsFound(h, routes, n, def, order);
    if best.Some? {
      assert Eligible(h, routes[best.value], n, x);
      if Covers(routes[best.value], n) { CoveringLongestIsDefault(h, routes, n, w, x, best.value); }
    }
  }

  lemma HarmfulLoses(h: Host, routes: seq<Route>, n: IPNet, def: Route, order: seq<Route>, w: nat, i: nat) returns (x: int)
    requires Splitting(h, routes, n, def, order, w) && Aligned(n)
    requires i < |routes| && Harmful(h, routes[i], n)
    ensures Num(n.ip) <= x <= Num(Last(n)) && Lost(h, routes, n, def, x)
  {
    hide Lookup, Prepared, Num, Last, Space;
    HarmfulInside(h, routes, n, w, i);
    x := if Claim(routes[i]).hi == Space(w) - 1 then Claim(routes[i]).hi else 0;
    LookupFinds(h, routes, n, def, order, w, x);
    LookupIsNotDefault(h, routes, n, def, order, w, i, x);
    LookupContains(h, routes, n, def, order, w, x);
  }

  /** For a masked network the table alone tells: nothing is lost if and only if no route is harmful. */
  lemma NothingLostExactlyWhenHarmless(h: Host, routes: seq<Route>, n: IPNet, def: Route, order: seq<Route>, w: nat)
    requires Splitting(h, routes, n, def, order, w) && Aligned(n)
    ensures NothingLost(h, routes, n, def) <==> !AnyHarmful(h, routes, n)
  {
    hide Lost, Harmful, Prepared, Num, Last;
    if x :| Num(n.ip) <= x <= Num(Last(n)) && Lost(h, routes, n, def, x) {
      var i := LostSource(h, routes, n, def, order, w, x);
      SkippedIsHarmful(h, routes[i], n);
    } else if i :| 0 <= i < |routes| && Harmful(h, routes[i], n) {
      var x := HarmfulLoses(h, routes, n, def, order, w, i);
    }
  }

  lemma SkippedIsHarmful(h: Host, r: Route, n: IPNet)
    requires Specific(r, n) && h.pick(r).Some? && !Covers(r, n) && Skipped(Claim(r), Num(Last(n)), Space(|n.ip|))
    ensures Harmful(h, r, n)
  {
  }

  lemma ZeroIsAligned(n: IPNet, w: nat)
    requires ValidNet(n, w) && Num(n.ip) == 0
    ensures Aligned(n)
  {
    BlockBounds(0, HostBits(n));
  }

  /**
   For every network, masked or not, and every table of aligned routes without a clash, in every order the sort
   may leave: the splitter computes longest-prefix match for every address if and only if no address is lost.
   */
  lemma ExactlyWhenNothingLost(h: Host, routes: seq<Route>, n: IPNet, def: Route, order: seq<Route>, w: nat)
    requires Setting(h, routes, n, def, order, w) && w > 0
    ensures MatchesLookup(h, routes, n, Painted(n, def, order)) <==> NothingLost(h, routes, n, def)
    ensures NothingLost(h, routes, n, def) ==>
            Tiles(Painted(n, def, order), Num(n.ip), Num(Last(n))) &&
            AllPlain(Iv(Num(n.ip), Num(Last(n)), def), Claims(order), Space(w))
  {
    hide Lost, NothingLost, AnyHarmful, MatchesLookup, Tiles, Painted, Prepared, Clash, Plain, Num, Last, Space;
    NoClashIsUniform(h, routes, n, w);
    if Whole(n) && AnyHarmful(h, routes, n) {
      ZeroIsAligned(n, w);
      HarmBreaks(h, routes, n, def, order, w);
      NothingLostExactlyWhenHarmless(h, routes, n, def, order, w);
    } else {
      forall k | 0 <= k < |order| ensures Plain(Iv(Num(n.ip), Num(Last(n)), def), Claims(order), k, Space(w)) {
        OrderIsPlain(h, routes, n, def, order, w, k);
      }
      PlainMatches(h, routes, n, def, order, w);
    }
  }

  /** For a masked network and a table without a clash: longest-prefix match if and only if no route is harmful. */
  lemma ExactlyWhenHarmless(h: Host, routes: seq<Route>, n: IPNet, def: Route, order: seq<Route>, w: nat)
    requires Setting(h, routes, n, def, order, w) && Aligned(n) && w > 0
    ensures MatchesLookup(h, routes, n, Painted(n, def, order)) <==> !AnyHarmful(h, routes, n)
  {
    hide Lost, NothingLost, AnyHarmful, MatchesLookup, Painted, Prepared;
    UnfoldSetting(h, routes, n, def, order, w);
    ExactlyWhenNothingLost(h, routes, n, def, order, w);
    NothingLostExactlyWhenHarmless(h, routes, n, def, order, w);
  }

  lemma UnfoldSetting(h: Host, routes: seq<Route>, n: IPNet, def: Route, order: seq<Route>, w: nat)
    requires Setting(h, routes, n, def, order, w)
    ensures Splitting(h, routes, n, def, order, w)
  {
  }
}
