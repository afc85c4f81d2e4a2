/**
 The route splitter over byte addresses: choice of the default route, collection and sorting of specific
 routes, and interval refinement over range objects that the post-processing then edits in place.
 */
module Router {
  import opened Bytes
  import opened Addresses
  import opened Enumerator
  import opened Intervals
  import opened Routes
  import opened RouteOrders
  import opened Openings
  import opened Trim

  datatype RouteError = NoRoute | NoSource | NoInterface

  /** A sub-range and the route its packets take; an absent end marks a single address. */
  class IpRangeRouteContext {
    var start: Option<IP>
    var end: Option<IP>
    const route: Route

    constructor (start: IP, end: IP, route: Route)
      ensures this.start == Some(start) && this.end == Some(end) && this.route == route
    {
      this.start, this.end, this.route := Some(start), Some(end), route;
    }

    /** This object holds both ends of the numeric interval iv. */
    ghost predicate Matches(iv: Iv<Route>, w: nat)
      reads this
    {
      start.Some? && end.Some? && |start.value| == w == |end.value| &&
      Num(start.value) == iv.lo <= iv.hi == Num(end.value) && route == iv.route
    }
  }

  /** The objects of a list, in order, hold the intervals ivs and are pairwise different. */
  ghost predicate Represents(rs: seq<IpRangeRouteContext>, ivs: seq<Iv<Route>>, w: nat)
    reads rs
  {
    |rs| == |ivs| &&
    (forall i :: 0 <= i < |rs| ==> rs[i].Matches(ivs[i], w)) &&
    forall i, j :: 0 <= i < j < |rs| ==> rs[i] != rs[j]
  }

  predicate AllBound(h: Host, rs: seq<IpRangeRouteContext>) {
    forall i :: 0 <= i < |rs| ==> h.bind(rs[i].route)
  }

  lemma RepresentsConcat(a: seq<IpRangeRouteContext>, ia: seq<Iv<Route>>,
                         b: seq<IpRangeRouteContext>, ib: seq<Iv<Route>>, w: nat)
    requires Represents(a, ia, w) && Represents(b, ib, w)
    requires forall r :: r in a ==> r !in b
    ensures Represents(a + b, ia + ib, w)
  {
    var c, ic := a + b, ia + ib;
    forall i | 0 <= i < |c| ensures c[i].Matches(ic[i], w) {
      if i >= |a| { assert c[i] == b[i - |a|]; }
    }
    forall i, j | 0 <= i < j < |c| ensures c[i] != c[j] {
      if i < |a| <= j { assert c[i] in a && c[j] in b; }
    }
  }

  /** Fails exactly when the interface of the route cannot be opened. */
  method MakeIpRangeRoute(h: Host, start: IP, end: IP, route: Route) returns (r: IpRangeRouteContext?)
    ensures r != null <==> h.bind(route)
    ensures r != null ==> fresh(r) && r.start == Some(start) && r.end == Some(end) && r.route == route
  {
    if h.bind(route) {
      r := new IpRangeRouteContext(start, end, route);
    } else {
      r := null;
    }
  }

  // ---------------------------------------------------------------- refinement

  /** One part of a cut, when it is not empty; that is the only case in which the interface is opened. */
  method MakePart(h: Host, start: IP, end: IP, route: Route, w: nat) returns (part: seq<IpRangeRouteContext>, ok: bool)
    requires |start| == w == |end|
    ensures ok ==> Represents(part, Part(Num(start), Num(end), route), w) && AllBound(h, part)
    ensures ok <==> h.bind(route) || Num(start) > Num(end)
    ensures fresh(part)
  {
    hide Num;
    part, ok := [], true;
    CompareIsNumeric(start, end);
    if Compare(start, end) <= 0 {
      var r := MakeIpRangeRoute(h, start, end, route);
      if r == null {
        ok := false;
      } else {
        part := [r];
      }
    }
  }

  /** The body of the refinement loop: range r against one specific route. */
  method CutRange(h: Host, r: IpRangeRouteContext, ghost iv: Iv<Route>, spec: Route, w: nat)
    returns (parts: seq<IpRangeRouteContext>, ok: bool)
    requires w > 0 && spec.dst.Some? && ValidNet(spec.dst.value, w) && r.Matches(iv, w)
    requires h.bind(iv.route)
    ensures ok ==> Represents(parts, Cut(iv, Claim(spec), Space(w)), w) && AllBound(h, parts)
    ensures ok <==> h.bind(spec) || !Shares(iv, Claim(spec), Space(w))
    ensures parts == [r] || fresh(parts)
  {
    hide Num, Space, Represents;
    var specStart := spec.dst.value.ip;
    var specEnd := LastIP(spec.dst.value);
    var start, end := r.start.value, r.end.value;
    var beforeEnd := PreviousIP(specStart);
    var afterStart := NextIP(specEnd);
    PreviousIsPredecessor(specStart);
    NextIsSuccessor(specEnd);
    CompareIsNumeric(end, beforeEnd);
    CompareIsNumeric(start, afterStart);
    if Compare(end, beforeEnd) < 0 || Compare(start, afterStart) > 0 {
      OneRepresents(r, iv, w);
      return [r], true;
    }
    parts, ok := SplitInThree(h, start, end, r.route, specStart, specEnd, spec, beforeEnd, afterStart, iv, w);
  }

  lemma OneRepresents(r: IpRangeRouteContext, iv: Iv<Route>, w: nat)
    requires r.Matches(iv, w)
    ensures Represents([r], [iv], w)
  {
  }

  /** What lies before the specific route. */
  method MakeBefore(h: Host, start: IP, route: Route, specStart: IP, beforeEnd: IP, ghost iv: Iv<Route>,
                    ghost claim: Iv<Route>, w: nat)
    returns (part: seq<IpRangeRouteContext>, ok: bool)
    requires |start| == |specStart| == |beforeEnd| == w && h.bind(route)
    requires iv.lo == Num(start) && iv.route == route && claim.lo == Num(specStart)
    requires Num(beforeEnd) == PreviousNum(Num(specStart), Space(w))
    ensures ok && Represents(part, Before(iv, claim, Space(w)), w) && AllBound(h, part) && fresh(part)
  {
    hide Num, Space;
    part, ok := [], true;
    CompareIsNumeric(start, specStart);
    if Compare(start, specStart) < 0 {
      part, ok := MakePart(h, start, beforeEnd, route, w);
    }
  }

  /** What the specific route takes. */
  method MakeOverlap(h: Host, start: IP, end: IP, specStart: IP, specEnd: IP, spec: Route, ghost iv: Iv<Route>,
                     ghost claim: Iv<Route>, w: nat)
    returns (part: seq<IpRangeRouteContext>, ok: bool)
    requires |start| == |end| == |specStart| == |specEnd| == w
    requires iv.lo == Num(start) && iv.hi == Num(end) && claim == Iv(Num(specStart), Num(specEnd), spec)
    ensures ok ==> Represents(part, Overlap(iv, claim), w) && AllBound(h, part)
    ensures ok <==> h.bind(spec) || Overlap(iv, claim) == []
    ensures fresh(part)
  {
    hide Num, Represents;
    MinMaxNumeric(start, specStart);
    MinMaxNumeric(end, specEnd);
    var overlapStart := MaxIP(Some(start), Some(specStart)).value;
    var overlapEnd := MinIP(Some(end), Some(specEnd)).value;
    part, ok := MakePart(h, overlapStart, overlapEnd, spec, w);
  }

  /** Before, overlap and after, each kept if it is not empty. */
  method SplitInThree(h: Host, start: IP, end: IP, route: Route, specStart: IP, specEnd: IP, spec: Route,
                      beforeEnd: IP, afterStart: IP, ghost iv: Iv<Route>, w: nat)
    returns (parts: seq<IpRangeRouteContext>, ok: bool)
    requires |start| == |end| == |specStart| == |specEnd| == |beforeEnd| == |afterStart| == w
    requires iv == Iv(Num(start), Num(end), route) && Claim(spec) == Iv(Num(specStart), Num(specEnd), spec)
    requires Num(beforeEnd) == PreviousNum(Num(specStart), Space(w))
    requires Num(afterStart) == NextNum(Num(specEnd), Space(w))
    requires h.bind(route)
    ensures ok ==> Represents(parts, Before(iv, Claim(spec), Space(w)) + Overlap(iv, Claim(spec)) +
                                     After(iv, Claim(spec), Space(w)), w) && AllBound(h, parts)
    ensures ok <==> h.bind(spec) || Overlap(iv, Claim(spec)) == []
    ensures fresh(parts)
  {
    hide Num, Space, Represents, Claim, Before, Overlap;
    ghost var claim, m := Claim(spec), Space(w);
    parts, ok := MakeBefore(h, start, route, specStart, beforeEnd, iv, claim, w);
    var overlap;
    overlap, ok := MakeOverlap(h, start, end, specStart, specEnd, spec, iv, claim, w);
    if !ok { return; }
    RepresentsConcat(parts, Before(iv, claim, m), overlap, Overlap(iv, claim), w);
    parts := parts + overlap;
    var after;
    after, ok := MakePart(h, afterStart, end, route, w);
    RepresentsConcat(parts, Before(iv, claim, m) + Overlap(iv, claim), after, After(iv, claim, m), w);
    parts := parts + after;
  }

  /** Repaints every range by one specific route. */
  method Refine(h: Host, ranges: seq<IpRangeRouteContext>, ghost ivs: seq<Iv<Route>>, spec: Route, w: nat)
    returns (newRanges: seq<IpRangeRouteContext>, ok: bool)
    requires w > 0 && spec.dst.Some? && ValidNet(spec.dst.value, w) && Represents(ranges, ivs, w)
    requires AllBound(h, ranges)
    ensures ok ==> Represents(newRanges, Paint(ivs, Claim(spec), Space(w)), w) && AllBound(h, newRanges)
    ensures ok <==> h.bind(spec) || !AnyShares(ivs, Claim(spec), Space(w))
    ensures forall r :: r in newRanges ==> r in ranges || fresh(r)
  {
    hide Num, Space, Cut, Claim, Shares;
    newRanges, ok := [], true;
    ghost var painted: seq<Iv<Route>> := [];
    for i := 0 to |ranges|
      invariant Represents(newRanges, painted, w) && AllBound(h, newRanges) && ok
      invariant painted == Paint(ivs[..i], Claim(spec), Space(w))
      invariant h.bind(spec) || forall k :: 0 <= k < i ==> !Shares(ivs[k], Claim(spec), Space(w))
      invariant forall r :: r in newRanges ==> r in ranges[..i] || fresh(r)
    {
      var parts;
      parts, ok := CutRange(h, ranges[i], ivs[i], spec, w);
      if !ok {
        return;
      }
      TakeNext(ivs, i);
      RepresentsConcat(newRanges, painted, parts, Cut(ivs[i], Claim(spec), Space(w)), w);
      newRanges := newRanges + parts;
      painted := painted + Cut(ivs[i], Claim(spec), Space(w));
    }
    TakeAll(ivs);
  }

  // ---------------------------------------------------------------- choosing and sorting routes

  method FindCovering(routes: seq<Route>, n: IPNet) returns (best: Option<nat>)
    ensures best == Longest(routes, (r: Route) => Covers(r, n))
  {
    ghost var ok := (r: Route) => Covers(r, n);
    best := None;
    for i := 0 to |routes|
      invariant best == Longest(routes[..i], ok)
    {
      TakeNext(routes, i);
      var r := routes[i];
      if r.dst.Some? && ContainsSubnet(r.dst.value, n) {
        if best.None? {
          best := Some(i);
        } else if r.dst.value.ones > routes[best.value].dst.value.ones {
          best := Some(i);
        }
      }
    }
    TakeAll(routes);
  }

  method FindSystemDefault(routes: seq<Route>) returns (found: Option<nat>)
    ensures found == First(routes, (r: Route) => SystemDefault(r))
  {
    for i := 0 to |routes|
      invariant forall k :: 0 <= k < i ==> !SystemDefault(routes[k])
    {
      var r := routes[i];
      if r.dst.None? {
        return Some(i);
      }
      if Unspecified(r.dst.value.ip) {
        if r.dst.value.ones == 0 {
          return Some(i);
        }
      }
    }
    return None;
  }

  method CollectSpecific(h: Host, routes: seq<Route>, n: IPNet) returns (specs: seq<Route>)
    ensures specs == SpecificRoutes(h, routes, n)
  {
    specs := [];
    for i := 0 to |routes|
      invariant specs == SpecificRoutes(h, routes[..i], n)
    {
      TakeNext(routes, i);
      var r := routes[i];
      if r.dst.None? { continue; }
      if r.dst.value != n && Contains(n, r.dst.value.ip) {
        var usable := h.pick(r);
        if usable.None? { continue; }
        specs := specs + [usable.value];
      }
    }
    TakeAll(routes);
  }

  /** Where x goes: after the last route that does not start behind it. */
  method FindSlot(rs: seq<Route>, x: Route, w: nat) returns (j: nat)
    requires StartsAscend(rs, w) && x.dst.Some? && |x.dst.value.ip| == w
    ensures j <= |rs|
    ensures j > 0 ==> Claim(rs[j - 1]).lo <= Claim(x).lo
    ensures j < |rs| ==> Claim(x).lo <= Claim(rs[j]).lo
  {
    hide Num, Last, Compare;
    j := |rs|;
    while j > 0
      invariant 0 <= j <= |rs|
      invariant j < |rs| ==> Claim(x).lo <= Claim(rs[j]).lo
    {
      CompareIsNumeric(x.dst.value.ip, rs[j - 1].dst.value.ip);
      if Compare(x.dst.value.ip, rs[j - 1].dst.value.ip) >= 0 { break; }
      j := j - 1;
    }
  }

  /** Sorts by destination address only; the order of routes with equal addresses is left open. */
  method SortByStart(specs: seq<Route>, w: nat) returns (sorted: seq<Route>)
    requires forall k :: 0 <= k < |specs| ==> specs[k].dst.Some? && |specs[k].dst.value.ip| == w
    ensures SortedByStart(sorted) && multiset(sorted) == multiset(specs)
  {
    hide Claim, Compare, SortedByStart;
    sorted := [];
    for i := 0 to |specs|
      invariant StartsAscend(sorted, w)
      invariant multiset(sorted) == multiset(specs[..i])
    {
      var j := FindSlot(sorted, specs[i], w);
      InsertAscends(sorted, specs[i], j, w);
      InsertKeeps(sorted, specs[i], j);
      TakeNext(specs, i);
      sorted := sorted[..j] + [specs[i]] + sorted[j..];
    }
    TakeAll(specs);
    AscendIsSorted(sorted, w);
  }

  // ---------------------------------------------------------------- the splitter

  type SplitResult = Result<seq<IpRangeRouteContext>, RouteError>

  /**
   Exactly why the splitter gives up: there is no route at all, or no source address for the one chosen, or else
   an interface asked for on the way cannot be opened.
   */
  ghost predicate FailsAs(h: Host, routes: seq<Route>, n: IPNet, def: Route, order: seq<Route>, e: RouteError) {
    var d := DefaultIndex(routes, n);
    match e
    case NoRoute => d.None?
    case NoSource => d.Some? && h.pick(routes[d.value]).None?
    case NoInterface => Prepared(h, routes, n, def, order) && !Opens(h, n, def, order)
  }

  lemma {:induction false} SpecificValid(h: Host, routes: seq<Route>, n: IPNet, w: nat)
    requires ValidHost(h) && ValidRoutes(routes, w)
    ensures ValidRoutes(SpecificRoutes(h, routes, n), w)
    ensures forall k :: 0 <= k < |SpecificRoutes(h, routes, n)| ==> SpecificRoutes(h, routes, n)[k].dst.Some?
  {
    if routes != [] {
      SpecificValid(h, routes[..|routes| - 1], n, w);
    }
  }

  lemma NothingPainted(n: IPNet, def: Route, order: seq<Route>)
    requires n.ones <= 8 * |n.ip|
    ensures Painted(n, def, order[..0]) == [Iv(Num(n.ip), Num(Last(n)), def)]
  {
  }

  lemma PaintedNext(n: IPNet, def: Route, order: seq<Route>, k: nat)
    requires n.ones <= 8 * |n.ip| && k < |order|
    ensures Painted(n, def, order[..k + 1]) == Paint(Painted(n, def, order[..k]), Claim(order[k]), Space(|n.ip|))
  {
    hide Num, Last, Space, Claim, Paint;
    assert Claims(order[..k + 1])[..k] == Claims(order[..k]);
  }

  /** The refinement loop over the sorted specific routes. */
  method RefineAll(h: Host, seed: IpRangeRouteContext, n: IPNet, ghost def: Route, sorted: seq<Route>, w: nat)
    returns (ranges: seq<IpRangeRouteContext>, ok: bool)
    requires w > 0 && ValidRoutes(sorted, w) && (forall k :: 0 <= k < |sorted| ==> sorted[k].dst.Some?)
    requires |n.ip| == w && n.ones <= 8 * w && seed.Matches(Iv(Num(n.ip), Num(Last(n)), def), w) && h.bind(def)
    ensures ok ==> Represents(ranges, Painted(n, def, sorted), w)
    ensures ok <==> Opens(h, n, def, sorted)
    ensures forall r :: r in ranges ==> r == seed || fresh(r)
  {
    hide Num, Last, Space, Claim, Represents, AnyShares, Paint, PaintAll, Painted;
    ranges, ok := [seed], true;
    ghost var ivs := [Iv(Num(n.ip), Num(Last(n)), def)];
    OneRepresents(seed, ivs[0], w);
    NothingPainted(n, def, sorted);
    for i := 0 to |sorted|
      invariant ivs == Painted(n, def, sorted[..i])
      invariant Represents(ranges, ivs, w) && AllBound(h, ranges) && ok
      invariant forall k :: 0 <= k < i ==> OpensNext(h, n, def, sorted, k)
      invariant forall r :: r in ranges ==> r == seed || fresh(r)
    {
      ranges, ok := Refine(h, ranges, ivs, sorted[i], w);
      assert ok <==> OpensNext(h, n, def, sorted, i);
      if !ok { return; }
      PaintedNext(n, def, sorted, i);
      ivs := Paint(ivs, Claim(sorted[i]), Space(w));
    }
    TakeAll(sorted);
  }

  lemma SortedValid(specs: seq<Route>, sorted: seq<Route>, w: nat)
    requires ValidRoutes(specs, w) && forall k :: 0 <= k < |specs| ==> specs[k].dst.Some?
    requires multiset(sorted) == multiset(specs)
    ensures ValidRoutes(sorted, w) && forall k :: 0 <= k < |sorted| ==> sorted[k].dst.Some?
    ensures forall r :: r in sorted ==> r in specs
  {
    forall r | r in sorted ensures r in specs {
      assert r in multiset(sorted);
    }
    forall k | 0 <= k < |sorted| ensures sorted[k] in specs {}
  }

  /** Steps 1 to 7, common to both address families. */
  method Split(h: Host, routes: seq<Route>, n: IPNet, w: nat)
    returns (res: SplitResult, ghost def: Route, ghost order: seq<Route>)
    requires w > 0 && ValidHost(h) && ValidRoutes(routes, w) && ValidNet(n, w)
    ensures res.Failure? ==> FailsAs(h, routes, n, def, order, res.error)
    ensures res.Success? ==> Prepared(h, routes, n, def, order) && Opens(h, n, def, order)
    ensures res.Success? ==> Represents(res.value, Painted(n, def, order), w)
    ensures res.Success? ==> forall k :: 0 <= k < |res.value| ==> fresh(res.value[k])
  {
    hide Num, Last, Space, Painted, OpensNext, Represents, SpecificRoutes, Claim, ContainsSubnet, Unspecified, SortedByStart;
    def, order := Route(None, None, None, 0), [];
    var best := FindCovering(routes, n);
    if best.None? {
      best := FindSystemDefault(routes);
      if best.None? { return Failure(NoRoute), def, order; }
    }
    var defaultRoute := h.pick(routes[best.value]);
    if defaultRoute.None? { return Failure(NoSource), def, order; }
    def := defaultRoute.value;
    var specs := CollectSpecific(h, routes, n);
    SpecificValid(h, routes, n, w);
    var sorted := SortByStart(specs, w);
    SortedValid(specs, sorted, w);
    order := sorted;
    var networkEnd := LastIP(n);
    LastIsBlockEnd(n);
    var firstRange := MakeIpRangeRoute(h, n.ip, networkEnd, defaultRoute.value);
    if firstRange == null { return Failure(NoInterface), def, order; }
    var ranges, ok := RefineAll(h, firstRange, n, def, sorted, w);
    if !ok { return Failure(NoInterface), def, order; }
    forall k | 0 <= k < |ranges| ensures fresh(ranges[k]) {
      assert ranges[k] in ranges;
    }
    res := Success(ranges);
  }

  // ---------------------------------------------------------------- IPv6 post-processing

  /** The object holds iv, a single address being marked by an absent end. */
  ghost predicate MarkedTo(r: IpRangeRouteContext, iv: Iv<Route>, w: nat)
    reads r
  {
    0 <= iv.lo <= iv.hi < Space(w) && r.route == iv.route && r.start == Some(ToBytes(iv.lo, w)) &&
    r.end == if iv.lo == iv.hi then None else Some(ToBytes(iv.hi, w))
  }

  ghost predicate Marked(rs: seq<IpRangeRouteContext>, ivs: seq<Iv<Route>>, w: nat)
    reads rs
  {
    |rs| == |ivs| && forall i :: 0 <= i < |rs| ==> MarkedTo(rs[i], ivs[i], w)
  }

  lemma SameNum(a: IP, b: IP)
    requires |a| == |b|
    ensures Num(a) == Num(b) <==> a == b
  {
    if Num(a) == Num(b) { NumInjective(a, b); }
  }

  method MarkOne(r: IpRangeRouteContext, ghost iv: Iv<Route>, w: nat)
    requires r.Matches(iv, w)
    modifies r
    ensures MarkedTo(r, iv, w)
  {
    hide Num, ToBytes, Space;
    ToBytesNum(r.start.value);
    ToBytesNum(r.end.value);
    NumBound(r.end.value);
    SameNum(r.start.value, r.end.value);
    if r.start == r.end {
      r.end := None;
    }
  }

  method MarkSingletons(rs: seq<IpRangeRouteContext>, ghost ivs: seq<Iv<Route>>, w: nat)
    requires Represents(rs, ivs, w)
    modifies rs
    ensures Marked(rs, ivs, w)
  {
    hide Num, ToBytes, Space;
    for i := 0 to |rs|
      invariant forall k :: 0 <= k < i ==> MarkedTo(rs[k], ivs[k], w)
      invariant forall k :: i <= k < |rs| ==> rs[k].Matches(ivs[k], w)
    {
      MarkOne(rs[i], ivs[i], w);
    }
  }

  method SmartV6Route(h: Host, routes: seq<Route>, n: IPNet)
    returns (res: SplitResult, ghost def: Route, ghost order: seq<Route>)
    requires ValidHost(h) && ValidRoutes(routes, 16) && ValidNet(n, 16)
    ensures res.Failure? ==> FailsAs(h, routes, n, def, order, res.error)
    ensures res.Success? ==> Prepared(h, routes, n, def, order) && Opens(h, n, def, order)
    ensures res.Success? ==> Marked(res.value, Painted(n, def, order), 16)
  {
    res, def, order := Split(h, routes, n, 16);
    if res.Success? {
      MarkSingletons(res.value, Painted(n, def, order), 16);
    }
  }

  // ---------------------------------------------------------------- IPv4 post-processing

  function TrimmedEnds(iv: Iv<Route>, routes: seq<Route>): Trimmed
    requires 0 <= iv.lo && 0 <= iv.hi
  {
    Trimming(ToBytes(iv.lo, 4), ToBytes(iv.hi, 4), iv.route.dst, routes)
  }

  ghost predicate TrimmedTo(r: IpRangeRouteContext, iv: Iv<Route>, routes: seq<Route>)
    reads r
  {
    0 <= iv.lo && 0 <= iv.hi && TrimmedEnds(iv, routes) == Ends(r.start, r.end) && r.route == iv.route
  }

  ghost predicate AllTrimmed(rs: seq<IpRangeRouteContext>, ivs: seq<Iv<Route>>, routes: seq<Route>)
    reads rs
  {
    |rs| == |ivs| && forall i :: 0 <= i < |rs| ==> TrimmedTo(rs[i], ivs[i], routes)
  }

  /** A single address with a bare default route. */
  predicate Crashes(iv: Iv<Route>) {
    iv.lo == iv.hi && iv.route.dst.None?
  }

  /** One range, edited in place; false where the source dereferences the destination of a bare default route. */
  method TrimOne(r: IpRangeRouteContext, routes: seq<Route>) returns (ok: bool)
    requires r.start.Some? && r.end.Some? && ValidForm(r.start.value, r.end.value)
    modifies r
    ensures var t := Trimming(old(r.start.value), old(r.end.value), r.route.dst, routes);
            ok == t.Ends? && (ok ==> t == Ends(r.start, r.end))
  {
    hide NetworkAddress, BroadcastAddress, Next, Previous, SingleHostMask;
    ok := true;
    if SameIP(r.start.value, r.end.value) {
      if r.route.dst.None? {
        ok := false;
        return;
      }
      if SingleHostMask(r.route.dst.value) {
        r.end := None;
        return;
      }
      var network := IsV4NetworkAddress(r.start.value, routes);
      if network {
        r.start := None;
        r.end := None;
        return;
      }
    }
    var broadcast := IsV4BroadcastAddress(r.end.value, routes);
    if broadcast && r.end.value[3] < 255 {
      var e := PreviousIP(r.end.value);
      r.end := Some(e);
      if SameIP(r.start.value, e) {
        r.end := None;
        return;
      }
    }
    var network := IsV4NetworkAddress(r.start.value, routes);
    if network && r.start.value[3] < 255 {
      var s := NextIP(r.start.value);
      r.start := Some(s);
      if SameIP(s, r.end.value) {
        r.end := None;
      }
    }
  }

  /** The ends of an object holding iv, as post-processing finds them. */
  lemma HeldEnds(r: IpRangeRouteContext, iv: Iv<Route>, routes: seq<Route>)
    requires r.Matches(iv, 4)
    ensures 0 <= iv.lo && 0 <= iv.hi && ValidForm(r.start.value, r.end.value)
    ensures TrimmedEnds(iv, routes) == Trimming(r.start.value, r.end.value, r.route.dst, routes)
    ensures TrimmedEnds(iv, routes).Crash? <==> Crashes(iv)
  {
    hide Num, ToBytes, NetworkAddress, BroadcastAddress, Next, Previous, SingleHostMask;
    ToBytesNum(r.start.value);
    ToBytesNum(r.end.value);
    SameNum(r.start.value, r.end.value);
  }

  method TrimAll(rs: seq<IpRangeRouteContext>, ghost ivs: seq<Iv<Route>>, routes: seq<Route>) returns (ok: bool)
    requires Represents(rs, ivs, 4)
    modifies rs
    ensures ok <==> forall k :: 0 <= k < |ivs| ==> !Crashes(ivs[k])
    ensures ok ==> AllTrimmed(rs, ivs, routes)
  {
    hide Num, Trimming, Crashes, TrimmedEnds;
    ok := true;
    for i := 0 to |rs|
      invariant ok && forall k :: 0 <= k < i ==> TrimmedTo(rs[k], ivs[k], routes) && !Crashes(ivs[k])
      invariant forall k :: i <= k < |rs| ==> rs[k].Matches(ivs[k], 4)
    {
      HeldEnds(rs[i], ivs[i], routes);
      ok := TrimOne(rs[i], routes);
      if !ok { return; }
    }
  }

  /** crashed: a single-address range carries a bare default route, whose destination is dereferenced. */
  method SmartV4Route(h: Host, routes: seq<Route>, n: IPNet)
    returns (res: SplitResult, crashed: bool, ghost def: Route, ghost order: seq<Route>)
    requires ValidHost(h) && ValidRoutes(routes, 4) && ValidNet(n, 4)
    ensures res.Failure? ==> FailsAs(h, routes, n, def, order, res.error) && !crashed
    ensures res.Success? ==> Prepared(h, routes, n, def, order) && Opens(h, n, def, order)
    ensures res.Success? ==> (!crashed <==> forall iv :: iv in Painted(n, def, order) ==> !Crashes(iv))
    ensures res.Success? && !crashed ==> AllTrimmed(res.value, Painted(n, def, order), routes)
  {
    crashed := false;
    res, def, order := Split(h, routes, n, 4);
    if res.Success? {
      ghost var ivs := Painted(n, def, order);
      var ok := TrimAll(res.value, ivs, routes);
      crashed := !ok;
    }
  }
}
