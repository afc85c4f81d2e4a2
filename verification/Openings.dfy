/**
 When the splitter fails because an interface cannot be opened: an interface is opened for every part that a
 route is to take, so a route whose claim meets no range left for it does no harm.
 */
module Openings {
  import opened Bytes
  import opened Addresses
  import opened Intervals
  import opened Skipping
  import opened Routes
  import opened RouteEdges
  import opened RouteLosses

  /** Spec s takes a part of range r. */
  predicate Shares<R>(r: Iv<R>, s: Iv<R>, m: int) {
    !Apart(r, s, m) && Overlap(r, s) != []
  }

  predicate AnyShares<R>(rs: seq<Iv<R>>, s: Iv<R>, m: int) {
    exists k :: 0 <= k < |rs| && Shares(rs[k], s, m)
  }

  /** Every interface asked for on the way can be opened. */
  ghost predicate Opens(h: Host, n: IPNet, def: Route, order: seq<Route>) {
    h.bind(def) && forall k :: 0 <= k < |order| ==> OpensNext(h, n, def, order, k)
  }

  ghost predicate OpensNext(h: Host, n: IPNet, def: Route, order: seq<Route>, k: nat)
    requires k < |order|
  {
    h.bind(order[k]) || !AnyShares(Painted(n, def, order[..k]), Claim(order[k]), Space(|n.ip|))
  }

  // ---------------------------------------------------------------- which specs take a part

  lemma IgnoredTakesNothing<R>(rs: seq<Iv<R>>, seed: Iv<R>, s: Iv<R>, m: int)
    requires Within(rs, seed.lo, seed.hi) && 0 <= seed.lo && seed.hi < m && Ignored(seed, s, m)
    ensures !AnyShares(rs, s, m)
  {
  }

  lemma PlainPrefix<R>(seed: Iv<R>, specs: seq<Iv<R>>, m: int, k: nat)
    requires AllPlain(seed, specs, m) && k <= |specs|
    ensures AllPlain(seed, specs[..k], m)
  {
    forall j | 0 <= j < k ensures Plain(seed, specs[..k], j, m) {
      assert Plain(seed, specs, j, m);
    }
  }

  /** A spec that is not skipped and begins in the seed takes a part when it is first painted. */
  lemma {:induction false} TakesPart<R>(seed: Iv<R>, specs: seq<Iv<R>>, m: int, k: nat) returns (j: nat)
    requires 0 <= seed.lo <= seed.hi < m && AllPlain(seed, specs, m) && k < |specs|
    requires In(specs[k].lo, seed) && !Skipped(specs[k], seed.hi, m) && ValidSpec(specs[k], m)
    ensures j < |specs| && specs[j] == specs[k] && AnyShares(PaintAll([seed], specs[..j], m), specs[j], m)
  {
    var s := specs[k];
    assert Plain(seed, specs, k, m);
    if NonWrapping(s, m) {
      j := k;
      InnerTakesPart(seed, specs, m, k);
    } else if i :| 0 <= i < k && specs[i] == s {
      j := TakesPart(seed, specs, m, i);
    } else {
      j := k;
      ZeroTakesPart(seed, specs[..k], s, m);
    }
  }

  lemma InnerTakesPart<R>(seed: Iv<R>, specs: seq<Iv<R>>, m: int, k: nat)
    requires 0 <= seed.lo <= seed.hi < m && AllPlain(seed, specs, m) && k < |specs|
    requires In(specs[k].lo, seed) && NonWrapping(specs[k], m)
    ensures AnyShares(PaintAll([seed], specs[..k], m), specs[k], m)
  {
    hide AllPlain, Tiles, Hits;
    PlainPrefix(seed, specs, m, k);
    LastPaintedWins(seed, specs[..k], m);
    var rs := PaintAll([seed], specs[..k], m);
    var t := TileOf(rs, seed.lo, seed.hi, specs[k].lo);
    assert Shares(rs[t], specs[k], m);
  }

  lemma ZeroTakesPart<R>(seed: Iv<R>, before: seq<Iv<R>>, s: Iv<R>, m: int)
    requires seed.lo == 0 <= seed.hi == m - 1 && s.lo == 0 <= s.hi < m - 1 && s !in before
    requires forall j :: 0 <= j < |before| ==> before[j] == s || Ignored(seed, before[j], m)
    ensures AnyShares(PaintAll([seed], before, m), s, m)
  {
    hide Ignored;
    ZeroOnce(seed, before, s, m);
    assert Shares([seed][0], s, m);
  }

  // ---------------------------------------------------------------- for a table

  /** The default and every painted route can be opened. */
  ghost predicate AllOpen(h: Host, routes: seq<Route>, n: IPNet, def: Route) {
    h.bind(def) && forall i :: 0 <= i < |routes| && Paints(h, routes[i], n) ==> h.bind(h.pick(routes[i]).value)
  }

  lemma ClaimsPrefix(order: seq<Route>, k: nat)
    requires k <= |order|
    ensures Claims(order[..k]) == Claims(order)[..k]
  {
  }

  lemma SkippedOpens(h: Host, n: IPNet, def: Route, order: seq<Route>, k: nat)
    requires |n.ip| > 0 && 0 <= Num(n.ip) <= Num(Last(n)) < Space(|n.ip|) && k < |order|
    requires AllPlain(Iv(Num(n.ip), Num(Last(n)), def), Claims(order), Space(|n.ip|))
    requires Skipped(Claims(order)[k], Num(Last(n)), Space(|n.ip|))
    ensures OpensNext(h, n, def, order, k)
  {
    hide Num, Last, Space, Claim, PaintAll;
    var m := Space(|n.ip|);
    var seed := Iv(Num(n.ip), Num(Last(n)), def);
    assert Plain(seed, Claims(order), k, m);
    PlainPrefix(seed, Claims(order), m, k);
    ClaimsPrefix(order, k);
    LastPaintedWins(seed, Claims(order)[..k], m);
    TilesWithin(PaintAll([seed], Claims(order)[..k], m), seed.lo, seed.hi);
    IgnoredTakesNothing(PaintAll([seed], Claims(order)[..k], m), seed, Claims(order)[k], m);
  }

  /**
   For a masked network and a table without a clash: every interface asked for can be opened, in whatever order the
   sort leaves the routes, if and only if that of the default and those of all painted routes can.
   */
  lemma OpensExactly(h: Host, routes: seq<Route>, n: IPNet, def: Route, order: seq<Route>, w: nat)
    requires Setting(h, routes, n, def, order, w) && Aligned(n) && w > 0 && (Whole(n) ==> !AnyHarmful(h, routes, n))
    ensures Opens(h, n, def, order) <==> AllOpen(h, routes, n, def)
  {
    hide Num, Last, Space, Claim, Prepared, Clash, Whole, AnyHarmful, Plain, OpensNext, Painted, AlignedRoutes, Specific;
    var seed := SpansN(n, def, w);
    NoClashIsUniform(h, routes, n, w);
    forall k | 0 <= k < |order| ensures Plain(seed, Claims(order), k, Space(w)) {
      OrderIsPlain(h, routes, n, def, order, w, k);
    }
    if AllOpen(h, routes, n, def) {
      forall k | 0 <= k < |order| ensures OpensNext(h, n, def, order, k) {
        var i := OrderClaims(h, routes, n, def, order, w, k);
        if Skipped(Claims(order)[k], Num(Last(n)), Space(w)) {
          SkippedOpens(h, n, def, order, k);
        } else {
          OpenIsBound(h, routes, n, def, order, i, k);
        }
      }
    } else if h.bind(def) {
      var i :| 0 <= i < |routes| && Paints(h, routes[i], n) && !h.bind(h.pick(routes[i]).value);
      UnboundFails(h, routes, n, def, order, w, i);
    }
  }

  lemma OpenIsBound(h: Host, routes: seq<Route>, n: IPNet, def: Route, order: seq<Route>, i: nat, k: nat)
    requires AllOpen(h, routes, n, def) && |n.ip| > 0
    requires k < |order| && i < |routes| && Specific(routes[i], n) && h.pick(routes[i]) == Some(order[k])
    requires Claims(order)[k] == Iv(Claim(routes[i]).lo, Claim(routes[i]).hi, order[k])
    requires !Skipped(Claims(order)[k], Num(Last(n)), Space(|n.ip|))
    ensures OpensNext(h, n, def, order, k)
  {
    hide Num, Last, Space, Claim, Specific;
    assert Paints(h, routes[i], n);
  }

  lemma UnboundFails(h: Host, routes: seq<Route>, n: IPNet, def: Route, order: seq<Route>, w: nat, i: nat)
    requires Splitting(h, routes, n, def, order, w) && Aligned(n) && w > 0
    requires AllPlain(Iv(Num(n.ip), Num(Last(n)), def), Claims(order), Space(w))
    requires i < |routes| && Paints(h, routes[i], n) && !h.bind(h.pick(routes[i]).value)
    ensures !Opens(h, n, def, order)
  {
    hide Num, Last, Space, Claim, Prepared, AllPlain, PaintAll, Specific;
    var m := Space(w);
    var seed := SpansN(n, def, w);
    var k := SpecificInOrder(h, routes, n, def, order, i);
    var s := Claims(order)[k];
    SameClaim(h, routes[i], order[k]);
    SpecificHasDst(routes[i], n);
    PaintedInside(h, routes[i], n, w);
    var j := TakesPart(seed, Claims(order), m, k);
    ClaimsPrefix(order, j);
    ClaimRoute(order[j]);
    ClaimRoute(order[k]);
    assert order[j] == order[k];
    assert !OpensNext(h, n, def, order, j);
  }

  lemma ClaimRoute(r: Route)
    ensures Claim(r).route == r
  {
  }

  lemma PaintedInside(h: Host, r: Route, n: IPNet, w: nat)
    requires r.dst.Some? && ValidNet(r.dst.value, w) && Aligned(r.dst.value) && ValidNet(n, w) && Aligned(n)
    requires Paints(h, r, n)
    ensures Num(n.ip) <= Claim(r).lo <= Num(Last(n)) && ValidSpec(Claim(r), Space(w))
  {
    hide Num, Last, Space, Skipped;
    SpecificNumeric(r, n, w);
    AlignedClaim(r, w);
    LastIsBlockEnd(n);
  }
}
