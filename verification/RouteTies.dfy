/**
 Sorting by destination address alone leaves the order of routes with equal addresses open. This module says
 for which tables the splitter is right in every order the sort may leave.
 */
module RouteTies {
  import opened Bytes
  import opened Addresses
  import opened Intervals
  import opened Skipping
  import opened Routes
  import opened RouteEdges
  import opened RouteLosses
  import opened RouteOrders

  ghost predicate Table(h: Host, routes: seq<Route>, n: IPNet, def: Route, w: nat) {
    ValidHost(h) && AlignedRoutes(routes, w) && ValidNet(n, w) && DefaultFound(h, routes, n, def)
  }

  /** Every order the sort may leave gives every address its longest-prefix match. */
  ghost predicate AlwaysMatches(h: Host, routes: seq<Route>, n: IPNet, def: Route) {
    forall order :: Prepared(h, routes, n, def, order) ==> MatchesLookup(h, routes, n, Painted(n, def, order))
  }

  // ---------------------------------------------------------------- one address

  /** Among the painted routes containing x, route i starts last. */
  ghost predicate Topmost(h: Host, routes: seq<Route>, n: IPNet, i: nat, x: int) {
    i < |routes| && Paints(h, routes[i], n) && In(x, Claim(routes[i])) &&
    forall j :: 0 <= j < |routes| && Paints(h, routes[j], n) && In(x, Claim(routes[j])) ==>
      Claim(routes[j]).lo <= Claim(routes[i]).lo
  }

  /** Every topmost route of x is what a lookup of x finds; if there is none, the lookup finds the default. */
  ghost predicate Agrees(h: Host, routes: seq<Route>, n: IPNet, def: Route, x: int) {
    (forall i :: 0 <= i < |routes| && Topmost(h, routes, n, i, x) ==> h.pick(routes[i]) == Lookup(h, routes, n, x)) &&
    ((forall i :: 0 <= i < |routes| ==> !Topmost(h, routes, n, i, x)) ==> Lookup(h, routes, n, x) == Some(def))
  }

  /** What is painted on x, in any order, is a topmost route of x, or the default if there is none. */
  lemma PaintedIsTopmost(h: Host, routes: seq<Route>, n: IPNet, def: Route, order: seq<Route>, w: nat, x: int)
    requires Splitting(h, routes, n, def, order, w)
    ensures var p := LastPainted(Claims(order), x, def, Num(Last(n)), Space(w));
            (exists i :: 0 <= i < |routes| && Topmost(h, routes, n, i, x) && h.pick(routes[i]) == Some(p)) ||
            (p == def && forall i :: 0 <= i < |routes| ==> !Topmost(h, routes, n, i, x))
  {
    hide Num, Last, Space, Specific, Prepared, LastPainted;
    var k := LastPaintedSource(Claims(order), x, def, Num(Last(n)), Space(w));
    if k >= 0 {
      var i := OrderClaims(h, routes, n, def, order, w, k);
      forall j | 0 <= j < |routes| && Paints(h, routes[j], n) && In(x, Claim(routes[j]))
        ensures Claim(routes[j]).lo <= Claim(routes[i]).lo
      {
        PaintedStartsLast(h, routes, n, def, order, w, x, k, j);
      }
      assert Topmost(h, routes, n, i, x);
    } else {
      forall i | 0 <= i < |routes| ensures !Topmost(h, routes, n, i, x) {
        if Topmost(h, routes, n, i, x) {
          var kk := SpecificInOrder(h, routes, n, def, order, i);
          SameClaim(h, routes[i], order[kk]);
          assert In(x, Claims(order)[kk]) && !Skipped(Claims(order)[kk], Num(Last(n)), Space(w));
        }
      }
    }
  }

  /** Each topmost route of x is painted on it in some order. */
  lemma TopmostIsPainted(h: Host, routes: seq<Route>, n: IPNet, def: Route, w: nat, x: int, i: nat)
    returns (order: seq<Route>)
    requires Table(h, routes, n, def, w) && Topmost(h, routes, n, i, x)
    ensures Prepared(h, routes, n, def, order)
    ensures Some(LastPainted(Claims(order), x, def, Num(Last(n)), Space(w))) == h.pick(routes[i])
  {
    hide Num, Last, Space, Specific, Prepared, DefaultFound;
    var k;
    order, k := OrderWith(h, routes, n, def, w, i, true);
    SameClaim(h, routes[i], order[k]);
    forall j | k < j < |order| && In(x, Claims(order)[j]) ensures Skipped(Claims(order)[j], Num(Last(n)), Space(w)) {
      var b := OrderClaims(h, routes, n, def, order, w, j);
    }
    LastPaintedIs(Claims(order), x, def, Num(Last(n)), Space(w), k);
  }

  lemma {:induction false} LastPaintedIs<R>(specs: seq<Iv<R>>, x: int, d: R, top: int, m: int, k: nat)
    requires k < |specs| && In(x, specs[k]) && !Skipped(specs[k], top, m)
    requires forall j :: k < j < |specs| && In(x, specs[j]) ==> Skipped(specs[j], top, m)
    ensures LastPainted(specs, x, d, top, m) == specs[k].route
  {
    if k < |specs| - 1 { LastPaintedIs(specs[..|specs| - 1], x, d, top, m, k); }
  }

  // ---------------------------------------------------------------- tables whose orders are plain

  /** Painting follows the order: no harmful route in the whole address space, no two different painted routes from zero on. */
  ghost predicate Orderly(h: Host, routes: seq<Route>, n: IPNet) {
    ZeroUniform(h, routes, n) && (Whole(n) ==> !AnyHarmful(h, routes, n))
  }

  /** Unless n is the whole address space, every table is. */
  lemma NotWholeIsOrderly(h: Host, routes: seq<Route>, n: IPNet, w: nat)
    requires AlignedRoutes(routes, w) && ValidNet(n, w) && n.ones > 0
    ensures Orderly(h, routes, n)
  {
    hide Num, Last;
    NotWholeIsUniform(h, routes, n, w);
    LastIsBlockEnd(n);
    BlockBounds(Num(n.ip), HostBits(n));
    Pow2Strict(HostBits(n), 8 * w);
  }

  lemma OrderlyHits(h: Host, routes: seq<Route>, n: IPNet, def: Route, order: seq<Route>, w: nat, x: int)
    requires Splitting(h, routes, n, def, order, w) && Orderly(h, routes, n) && Num(n.ip) <= x <= Num(Last(n))
    ensures Hits(Painted(n, def, order), x) == [LastPainted(Claims(order), x, def, Num(Last(n)), Space(w))]
  {
    hide Num, Last, Space, Prepared, ZeroUniform, AnyHarmful, Whole, Hits, LastPainted, Plain, Claims;
    var seed := SpansN(n, def, w);
    forall k | 0 <= k < |order| ensures Plain(seed, Claims(order), k, Space(w)) {
      OrderIsPlain(h, routes, n, def, order, w, k);
    }
    LastPaintedWins(seed, Claims(order), Space(w));
  }

  /**
   For any network and any table whose orders are plain, as all are unless n is the whole address space: the
   splitter is right in every order if and only if every address agrees with the topmost routes containing it.
   */
  lemma EveryOrderMatches(h: Host, routes: seq<Route>, n: IPNet, def: Route, w: nat)
    requires Table(h, routes, n, def, w) && Orderly(h, routes, n)
    ensures AlwaysMatches(h, routes, n, def) <==>
            forall x :: Num(n.ip) <= x <= Num(Last(n)) ==> Agrees(h, routes, n, def, x)
  {
    hide Num, Last, Prepared, Painted, Hits, Lookup, Topmost, Orderly, Agrees;
    if forall x :: Num(n.ip) <= x <= Num(Last(n)) ==> Agrees(h, routes, n, def, x) {
      forall order | Prepared(h, routes, n, def, order) ensures MatchesLookup(h, routes, n, Painted(n, def, order)) {
        forall x | Num(n.ip) <= x <= Num(Last(n))
          ensures Lookup(h, routes, n, x).Some? && Hits(Painted(n, def, order), x) == [Lookup(h, routes, n, x).value]
        {
          AgreesMatches(h, routes, n, def, order, w, x);
        }
      }
    } else {
      var x :| Num(n.ip) <= x <= Num(Last(n)) && !Agrees(h, routes, n, def, x);
      var order := DisagreesMisses(h, routes, n, def, w, x);
    }
  }

  lemma AgreesMatches(h: Host, routes: seq<Route>, n: IPNet, def: Route, order: seq<Route>, w: nat, x: int)
    requires Splitting(h, routes, n, def, order, w) && Orderly(h, routes, n) && Num(n.ip) <= x <= Num(Last(n))
    requires Agrees(h, routes, n, def, x)
    ensures Lookup(h, routes, n, x).Some? && Hits(Painted(n, def, order), x) == [Lookup(h, routes, n, x).value]
  {
    hide Num, Last, Space, Prepared, Lookup, Painted, Hits, LastPainted, Topmost, Orderly;
    OrderlyHits(h, routes, n, def, order, w, x);
    PaintedIsTopmost(h, routes, n, def, order, w, x);
  }

  lemma DisagreesMisses(h: Host, routes: seq<Route>, n: IPNet, def: Route, w: nat, x: int) returns (order: seq<Route>)
    requires Table(h, routes, n, def, w) && Orderly(h, routes, n) && Num(n.ip) <= x <= Num(Last(n))
    requires !Agrees(h, routes, n, def, x)
    ensures Prepared(h, routes, n, def, order) && !MatchesLookup(h, routes, n, Painted(n, def, order))
  {
    hide Num, Last, Space, Prepared, Lookup, Painted, Hits, LastPainted, Topmost, Orderly;
    if i :| 0 <= i < |routes| && Topmost(h, routes, n, i, x) && h.pick(routes[i]) != Lookup(h, routes, n, x) {
      order := TopmostIsPainted(h, routes, n, def, w, x, i);
      OrderlyHits(h, routes, n, def, order, w, x);
      Mismatch(h, routes, n, Painted(n, def, order), x, h.pick(routes[i]));
    } else {
      order := SomeOrder(h, routes, n, def, w);
      OrderlyHits(h, routes, n, def, order, w, x);
      PaintedIsTopmost(h, routes, n, def, order, w, x);
      Mismatch(h, routes, n, Painted(n, def, order), x, Some(def));
    }
  }

  lemma Mismatch(h: Host, routes: seq<Route>, n: IPNet, rs: seq<Iv<Route>>, x: int, p: Option<Route>)
    requires Num(n.ip) <= x <= Num(Last(n)) && p.Some? && Hits(rs, x) == [p.value] && p != Lookup(h, routes, n, x)
    ensures !MatchesLookup(h, routes, n, rs)
  {
    hide Num, Last, Hits, Lookup;
  }

  // ---------------------------------------------------------------- clashes

  /** At the address a clash is about, some painted route starting there is not what a lookup finds. */
  lemma ClashDisagrees(h: Host, routes: seq<Route>, n: IPNet, def: Route, w: nat, i: nat, j: nat) returns (t: nat)
    requires Table(h, routes, n, def, w) && Aligned(n)
    requires i < |routes| && j < |routes| && Clashing(h, routes[i], routes[j], n)
    ensures t < |routes| && Paints(h, routes[t], n) && Claim(routes[t]).lo == Claim(routes[i]).lo
    ensures h.pick(routes[t]) != Lookup(h, routes, n, Claim(routes[t]).lo)
  {
    hide Num, Last, Space, Lookup, DefaultFound, Specific, Skipped, Covers;
    var a := Claim(routes[i]).lo;
    SpecificHasDst(routes[i], n);
    if Paints(h, routes[j], n) && h.pick(routes[i]) != h.pick(routes[j]) {
      SpecificHasDst(routes[j], n);
      t := if h.pick(routes[i]) != Lookup(h, routes, n, a) then i else j;
    } else {
      t := i;
      OwnRouteWins(h, routes, n, w, i, j);
    }
  }

  /** n's own route is a longer match than a supernet with its address. */
  lemma OwnRouteWins(h: Host, routes: seq<Route>, n: IPNet, w: nat, i: nat, j: nat)
    requires ValidHost(h) && AlignedRoutes(routes, w) && ValidNet(n, w) && Aligned(n)
    requires i < |routes| && j < |routes| && Paints(h, routes[i], n) && Covers(routes[i], n)
    requires routes[j].dst == Some(n) && routes[i].dst.value.ip == n.ip
    ensures h.pick(routes[i]) != Lookup(h, routes, n, Claim(routes[i]).lo)
  {
    hide Num, Last, Space, Skipped;
    var x := Claim(routes[i]).lo;
    NotOwn(routes[i], n);
    CoverIsShorter(routes[i], n, w);
    AlignedClaim(routes[j], w);
    LastIsBlockEnd(n);
    CoversNumeric(routes[j], n, w);
    assert Eligible(h, routes[j], n, x);
    var l := Longest(routes, (r: Route) => Eligible(h, r, n, x)).value;
    assert Ones(routes[j]) <= Ones(routes[l]);
    if h.pick(routes[l]).Some? { SameClaim(h, routes[l], h.pick(routes[l]).value); }
    SameClaim(h, routes[i], h.pick(routes[i]).value);
  }

  lemma StartIsTopmost(h: Host, routes: seq<Route>, n: IPNet, w: nat, t: nat)
    requires AlignedRoutes(routes, w) && t < |routes| && Paints(h, routes[t], n)
    ensures Topmost(h, routes, n, t, Claim(routes[t]).lo)
  {
    hide Num, Last, Space, Specific;
    SpecificHasDst(routes[t], n);
    AlignedClaim(routes[t], w);
  }

  lemma StartIsInside(h: Host, r: Route, n: IPNet, w: nat)
    requires Paints(h, r, n) && ValidNet(n, w) && Aligned(n)
    requires r.dst.Some? && ValidNet(r.dst.value, w) && Aligned(r.dst.value)
    ensures Num(n.ip) <= Claim(r).lo <= Num(Last(n))
  {
    SpecificNumeric(r, n, w);
    LastIsBlockEnd(n);
  }

  /** In the whole address space, the first of several painted routes from zero on keeps address zero. */
  lemma ZeroClash(h: Host, routes: seq<Route>, n: IPNet, def: Route, w: nat, i: nat, j: nat) returns (order: seq<Route>)
    requires Table(h, routes, n, def, w) && Whole(n) && !AnyHarmful(h, routes, n) && w > 0
    requires i < |routes| && j < |routes| && StartsAtZero(h, routes[i], n) && StartsAtZero(h, routes[j], n)
    requires h.pick(routes[i]) != h.pick(routes[j])
    ensures Prepared(h, routes, n, def, order) && !MatchesLookup(h, routes, n, Painted(n, def, order))
  {
    hide Num, Last, Space, Lookup, DefaultFound, Specific, Prepared, AnyHarmful, Hits;
    var t := if h.pick(routes[i]) != Lookup(h, routes, n, 0) then i else j;
    var k;
    order, k := OrderWith(h, routes, n, def, w, t, false);
    SameClaim(h, routes[t], order[k]);
    var m := Space(w);
    SpaceBig(w);
    forall q | 0 <= q < |order| ensures ValidSpec(Claims(order)[q], m) && Claims(order)[q].hi < m - 1 {
      var b := OrderClaims(h, routes, n, def, order, w, q);
      HarmlessRoute(h, routes, n, b);
      SpecificHasDst(routes[b], n);
      if Claim(routes[b]).hi == m - 1 { TopIsIgnored(h, routes[b], n, w); }
    }
    if k > 0 { var b := OrderClaims(h, routes, n, def, order, w, 0); }
    var seed := SpansN(n, def, w);
    FirstAtZero(seed, Claims(order), m);
    Mismatch(h, routes, n, Painted(n, def, order), 0, h.pick(routes[t]));
  }

  /** A clash defeats the lookup in some order, unless a harmful route defeats it in all. */
  lemma ClashBreaks(h: Host, routes: seq<Route>, n: IPNet, def: Route, w: nat) returns (order: seq<Route>)
    requires Table(h, routes, n, def, w) && Aligned(n) && w > 0 && !AnyHarmful(h, routes, n) && Clash(h, routes, n)
    ensures Prepared(h, routes, n, def, order) && !MatchesLookup(h, routes, n, Painted(n, def, order))
  {
    hide Num, Last, Lookup, DefaultFound, Specific, Prepared, Painted, AnyHarmful, Clashing, Topmost, MatchesLookup,
         Skipped, StartsAtZero;
    var i, j :| 0 <= i < |routes| && 0 <= j < |routes| && Clashing(h, routes[i], routes[j], n);
    if ZeroUniform(h, routes, n) {
      var t := ClashDisagrees(h, routes, n, def, w, i, j);
      SpecificHasDst(routes[t], n);
      StartIsTopmost(h, routes, n, w, t);
      StartIsInside(h, routes[t], n, w);
      order := DisagreesMisses(h, routes, n, def, w, Claim(routes[t]).lo);
    } else {
      var a, b :| 0 <= a < |routes| && 0 <= b < |routes| && StartsAtZero(h, routes[a], n) && StartsAtZero(h, routes[b], n) &&
                  h.pick(routes[a]) != h.pick(routes[b]);
      ZeroMeansWhole(h, routes, n, w, a);
      order := ZeroClash(h, routes, n, def, w, a, b);
    }
  }

  lemma ZeroMeansWhole(h: Host, routes: seq<Route>, n: IPNet, w: nat, a: nat)
    requires AlignedRoutes(routes, w) && ValidNet(n, w) && Aligned(n) && a < |routes| && StartsAtZero(h, routes[a], n)
    ensures Whole(n)
  {
    hide Num, Last;
    SpecificHasDst(routes[a], n);
    if n.ones > 0 { ZeroIsSkipped(h, routes[a], n, w); }
    LastIsBlockEnd(n);
    BlockBounds(Num(n.ip), HostBits(n));
    NumBound(n.ip);
    NumBound(Last(n));
  }

  /**
   For a masked network and any table of aligned routes with a usable default: the splitter is right in every
   order the sort may leave if and only if the table holds no harmful route and no clash.
   */
  lemma ExactlyWithoutHarmOrClash(h: Host, routes: seq<Route>, n: IPNet, def: Route, w: nat)
    requires Table(h, routes, n, def, w) && Aligned(n) && w > 0
    ensures AlwaysMatches(h, routes, n, def) <==> !AnyHarmful(h, routes, n) && !Clash(h, routes, n)
  {
    hide Num, Last, Prepared, Painted, AnyHarmful, Clash, MatchesLookup, DefaultFound;
    if AnyHarmful(h, routes, n) {
      var order := SomeOrder(h, routes, n, def, w);
      HarmBreaks(h, routes, n, def, order, w);
    } else if Clash(h, routes, n) {
      var order := ClashBreaks(h, routes, n, def, w);
    } else {
      forall order | Prepared(h, routes, n, def, order) ensures MatchesLookup(h, routes, n, Painted(n, def, order)) {
        ExactlyWhenHarmless(h, routes, n, def, order, w);
      }
    }
  }

  /** Two different painted routes with the same address: either may be what the address gets. */
  lemma TiesAreUndecided(h: Host, routes: seq<Route>, n: IPNet, def: Route, w: nat, i: nat, j: nat)
    returns (one: seq<Route>, other: seq<Route>)
    requires Table(h, routes, n, def, w) && Aligned(n) && Orderly(h, routes, n) && i < |routes| && j < |routes|
    requires Paints(h, routes[i], n) && Paints(h, routes[j], n) && Claim(routes[i]).lo == Claim(routes[j]).lo
    requires h.pick(routes[i]) != h.pick(routes[j])
    ensures Prepared(h, routes, n, def, one) && Prepared(h, routes, n, def, other)
    ensures var x := Claim(routes[i]).lo;
            Hits(Painted(n, def, one), x) == [h.pick(routes[i]).value] &&
            Hits(Painted(n, def, other), x) == [h.pick(routes[j]).value]
  {
    hide Num, Last, Space, Lookup, DefaultFound, Specific, Prepared, Painted, Topmost, Orderly, LastPainted, Hits, Skipped;
    var x := Claim(routes[i]).lo;
    SpecificHasDst(routes[i], n);
    StartIsInside(h, routes[i], n, w);
    StartIsTopmost(h, routes, n, w, i);
    StartIsTopmost(h, routes, n, w, j);
    one := TopmostIsPainted(h, routes, n, def, w, x, i);
    other := TopmostIsPainted(h, routes, n, def, w, x, j);
    OrderlyHits(h, routes, n, def, one, w, x);
    OrderlyHits(h, routes, n, def, other, w, x);
  }

  /** A table of n's own route and a supernet with its address: every address gets the supernet, and there is no other order. */
  lemma SupernetWins(h: Host, n: IPNet, wide: Route, own: Route, w: nat, order: seq<Route>, x: int)
    requires ValidHost(h) && ValidNet(n, w) && own.dst == Some(n) && h.pick(own) == Some(own) && h.pick(wide) == Some(wide)
    requires Specific(wide, n) && Covers(wide, n) && ValidNet(wide.dst.value, w) && Aligned(n) && Aligned(wide.dst.value)
    requires NonWrapping(Claim(wide), Space(w)) && Num(n.ip) <= x <= Num(Last(n))
    requires Prepared(h, [wide, own], n, own, order)
    ensures order == [wide]
    ensures Hits(Painted(n, own, order), x) == [wide] && Lookup(h, [wide, own], n, x) == Some(own)
  {
    hide Num, Last, Space;
    hide Lookup, DefaultIndex, Specific, Covers, SpecificRoutes;
    SpecificOne(h, n, wide, own);
    OnlyOrder(order, wide);
    SpecificHasDst(wide, n);
    var seed := SpansN(n, own, w);
    CoversNumeric(wide, n, w);
    AlignedClaim(wide, w);
    LastWriterWins(seed, Claims(order), Space(w));
    assert Claims(order)[..0] == [];
    OwnIsLongest(h, n, wide, own, w, x);
  }

  lemma OnlyOrder(order: seq<Route>, r: Route)
    requires multiset(order) == multiset([r])
    ensures order == [r]
  {
    assert |multiset(order)| == |multiset([r])|;
    assert order[0] in multiset([r]);
  }

  lemma SpecificOne(h: Host, n: IPNet, wide: Route, own: Route)
    requires own.dst == Some(n) && Specific(wide, n) && h.pick(wide) == Some(wide)
    ensures SpecificRoutes(h, [wide, own], n) == [wide]
  {
    var t := [wide, own];
    assert t[..1] == [wide] && t[..1][..0] == [];
    assert SpecificRoutes(h, t[..1][..0], n) == [];
    assert SpecificRoutes(h, t[..1], n) == [wide];
  }

  lemma OwnIsLongest(h: Host, n: IPNet, wide: Route, own: Route, w: nat, x: int)
    requires ValidNet(n, w) && Aligned(n) && own.dst == Some(n) && h.pick(own) == Some(own)
    requires Specific(wide, n) && Covers(wide, n) && ValidNet(wide.dst.value, w) && Aligned(wide.dst.value)
    requires Num(n.ip) <= x <= Num(Last(n))
    ensures Lookup(h, [wide, own], n, x) == Some(own)
  {
    hide Num, Last, Space;
    var t := [wide, own];
    NotOwn(wide, n);
    CoverIsShorter(wide, n, w);
    AlignedClaim(wide, w);
    AlignedClaim(own, w);
    LastIsBlockEnd(n);
    CoversNumeric(wide, n, w);
    SpecificNumeric(wide, n, w);
    NumInjective(wide.dst.value.ip, n.ip);
    assert t[1] == own && t[0] == wide && Eligible(h, t[1], n, x);
    var l := Longest(t, (r: Route) => Eligible(h, r, n, x)).value;
    assert Ones(t[1]) <= Ones(t[l]);
  }
}
