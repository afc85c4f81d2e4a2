/** The orders a sort by destination address may leave, the routes of equal addresses coming in any order. */
module RouteOrders {
  import opened Bytes
  import opened Addresses
  import opened Intervals
  import opened Routes

  ghost predicate StartsAscend(rs: seq<Route>, w: nat) {
    (forall k :: 0 <= k < |rs| ==> rs[k].dst.Some? && |rs[k].dst.value.ip| == w) &&
    forall i, j :: 0 <= i < j < |rs| ==> Claim(rs[i]).lo <= Claim(rs[j]).lo
  }

  lemma InsertAscends(rs: seq<Route>, x: Route, j: nat, w: nat)
    requires StartsAscend(rs, w) && x.dst.Some? && |x.dst.value.ip| == w && j <= |rs|
    requires j > 0 ==> Claim(rs[j - 1]).lo <= Claim(x).lo
    requires j < |rs| ==> Claim(x).lo <= Claim(rs[j]).lo
    ensures StartsAscend(rs[..j] + [x] + rs[j..], w)
  {
    hide Claim;
    var a, b := rs[..j], rs[j..];
    AscendConcat([x], b, w);
    AscendConcat(a, [x] + b, w);
    assert a + [x] + b == a + ([x] + b);
  }

  lemma InsertKeeps(rs: seq<Route>, x: Route, j: nat)
    requires j <= |rs|
    ensures multiset(rs[..j] + [x] + rs[j..]) == multiset(rs) + multiset{x}
  {
    assert rs == rs[..j] + rs[j..];
  }

  lemma AscendConcat(a: seq<Route>, b: seq<Route>, w: nat)
    requires StartsAscend(a, w) && StartsAscend(b, w)
    requires a != [] && b != [] ==> Claim(a[|a| - 1]).lo <= Claim(b[0]).lo
    ensures StartsAscend(a + b, w)
  {
    hide Claim;
    var s := a + b;
    forall i, j | 0 <= i < j < |s| ensures Claim(s[i]).lo <= Claim(s[j]).lo {
      if i < |a| <= j {
        assert Claim(a[i]).lo <= Claim(a[|a| - 1]).lo;
        assert Claim(b[0]).lo <= Claim(b[j - |a|]).lo;
      }
    }
  }

  lemma AscendIsSorted(rs: seq<Route>, w: nat)
    requires StartsAscend(rs, w)
    ensures SortedByStart(rs)
  {
    forall i, j | 0 <= i < j < |rs| ensures Compare(rs[i].dst.value.ip, rs[j].dst.value.ip) <= 0 {
      CompareIsNumeric(rs[i].dst.value.ip, rs[j].dst.value.ip);
    }
  }

  // ---------------------------------------------------------------- building an order

  /** Where x may go: behind the routes starting before it, and behind or before those starting with it. */
  function Slot(rs: seq<Route>, x: Route, last: bool): (j: nat)
    ensures j <= |rs|
  {
    if rs == [] then 0
    else
      var r := rs[|rs| - 1];
      if Claim(r).lo < Claim(x).lo || (last && Claim(r).lo == Claim(x).lo) then |rs| else Slot(rs[..|rs| - 1], x, last)
  }

  function Placed(rs: seq<Route>, x: Route, last: bool): seq<Route> {
    var j := Slot(rs, x, last);
    rs[..j] + [x] + rs[j..]
  }

  function Sorted(rs: seq<Route>): seq<Route> {
    if rs == [] then [] else Placed(Sorted(rs[..|rs| - 1]), rs[|rs| - 1], true)
  }

  lemma {:induction false} SlotSeparates(rs: seq<Route>, x: Route, last: bool, w: nat)
    requires StartsAscend(rs, w)
    ensures var j := Slot(rs, x, last);
            (forall i :: 0 <= i < j ==> Claim(rs[i]).lo < Claim(x).lo || (last && Claim(rs[i]).lo == Claim(x).lo)) &&
            forall i :: j <= i < |rs| ==> Claim(rs[i]).lo > Claim(x).lo || (!last && Claim(rs[i]).lo == Claim(x).lo)
  {
    hide Claim;
    if rs != [] {
      var n := |rs| - 1;
      var r := rs[n];
      if Claim(r).lo < Claim(x).lo || (last && Claim(r).lo == Claim(x).lo) {
        assert forall i :: 0 <= i < n ==> Claim(rs[i]).lo <= Claim(r).lo;
      } else {
        SlotSeparates(rs[..n], x, last, w);
        assert forall i :: 0 <= i < n ==> rs[..n][i] == rs[i];
      }
    }
  }

  lemma PlacedAscends(rs: seq<Route>, x: Route, last: bool, w: nat)
    requires StartsAscend(rs, w) && x.dst.Some? && |x.dst.value.ip| == w
    ensures StartsAscend(Placed(rs, x, last), w) && multiset(Placed(rs, x, last)) == multiset(rs) + multiset{x}
    ensures var j := Slot(rs, x, last);
            |Placed(rs, x, last)| == |rs| + 1 && Placed(rs, x, last)[j] == x &&
            (last ==> forall i :: j < i <= |rs| ==> Claim(Placed(rs, x, last)[i]).lo > Claim(x).lo) &&
            (!last ==> forall i :: 0 <= i < j ==> Claim(Placed(rs, x, last)[i]).lo < Claim(x).lo)
  {
    hide Claim, Slot, StartsAscend;
    var j := Slot(rs, x, last);
    SlotSeparates(rs, x, last, w);
    InsertAscends(rs, x, j, w);
    InsertKeeps(rs, x, j);
    forall i | j < i <= |rs| ensures Placed(rs, x, last)[i] == rs[i - 1] {}
  }

  lemma {:induction false} SortedAscends(rs: seq<Route>, w: nat)
    requires forall k :: 0 <= k < |rs| ==> rs[k].dst.Some? && |rs[k].dst.value.ip| == w
    ensures StartsAscend(Sorted(rs), w) && multiset(Sorted(rs)) == multiset(rs)
  {
    hide Placed;
    if rs != [] {
      var n := |rs| - 1;
      SortedAscends(rs[..n], w);
      PlacedAscends(Sorted(rs[..n]), rs[n], true, w);
      assert rs == rs[..n] + [rs[n]];
    }
  }

  lemma SpecificLengths(h: Host, routes: seq<Route>, n: IPNet, w: nat)
    requires ValidHost(h) && AlignedRoutes(routes, w)
    ensures forall k :: 0 <= k < |SpecificRoutes(h, routes, n)| ==>
              SpecificRoutes(h, routes, n)[k].dst.Some? && |SpecificRoutes(h, routes, n)[k].dst.value.ip| == w
  {
    hide Specific;
    forall k | 0 <= k < |SpecificRoutes(h, routes, n)|
      ensures SpecificRoutes(h, routes, n)[k].dst.Some? && |SpecificRoutes(h, routes, n)[k].dst.value.ip| == w
    {
      var i := SpecificSource(h, routes, n, k);
      SameClaim(h, routes[i], SpecificRoutes(h, routes, n)[k]);
      SpecificHasDst(routes[i], n);
    }
  }

  ghost predicate DefaultFound(h: Host, routes: seq<Route>, n: IPNet, def: Route) {
    DefaultIndex(routes, n).Some? && h.pick(routes[DefaultIndex(routes, n).value]) == Some(def)
  }

  /** There is always an order. */
  lemma SomeOrder(h: Host, routes: seq<Route>, n: IPNet, def: Route, w: nat) returns (order: seq<Route>)
    requires ValidHost(h) && AlignedRoutes(routes, w) && DefaultFound(h, routes, n, def)
    ensures Prepared(h, routes, n, def, order)
  {
    hide DefaultIndex;
    order := Sorted(SpecificRoutes(h, routes, n));
    SpecificLengths(h, routes, n, w);
    SortedAscends(SpecificRoutes(h, routes, n), w);
    AscendIsSorted(order, w);
  }

  /** Any usable specific route may come last, or first, among those that start with it. */
  lemma OrderWith(h: Host, routes: seq<Route>, n: IPNet, def: Route, w: nat, i: nat, last: bool)
    returns (order: seq<Route>, k: nat)
    requires ValidHost(h) && AlignedRoutes(routes, w) && DefaultFound(h, routes, n, def)
    requires i < |routes| && Specific(routes[i], n) && h.pick(routes[i]).Some?
    ensures Prepared(h, routes, n, def, order) && k < |order| && Some(order[k]) == h.pick(routes[i])
    ensures last ==> forall j :: k < j < |order| ==> Claim(order[j]).lo > Claim(order[k]).lo
    ensures !last ==> forall j :: 0 <= j < k ==> Claim(order[j]).lo < Claim(order[k]).lo
  {
    hide DefaultIndex, Specific, Claim, Placed;
    var specs, p := SpecificRoutes(h, routes, n), h.pick(routes[i]).value;
    SpecificMember(h, routes, n, i);
    var q :| 0 <= q < |specs| && specs[q] == p;
    SpecificLengths(h, routes, n, w);
    var rest := specs[..q] + specs[q + 1..];
    assert specs == specs[..q] + [specs[q]] + specs[q + 1..];
    SortedAscends(rest, w);
    order := Placed(Sorted(rest), p, last);
    k := Slot(Sorted(rest), p, last);
    PlacedAscends(Sorted(rest), p, last, w);
    AscendIsSorted(order, w);
  }
}
