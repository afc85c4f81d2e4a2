/**
 The interval repainting at the heart of the route splitter, on numeric bounds below m. One interval
 is painted over by specific routes in turn; every comparison goes through the wrapping successor and
 predecessor, as in the source.
 */
module Intervals {
  import opened Addresses

  datatype Iv<R> = Iv(lo: int, hi: int, route: R)

  predicate In<R>(x: int, r: Iv<R>) {
    r.lo <= x <= r.hi
  }

  /** The range lo..hi, or nothing when it is empty. */
  function Part<R>(lo: int, hi: int, route: R): seq<Iv<R>> {
    if lo <= hi then [Iv(lo, hi, route)] else []
  }

  predicate Apart<R>(r: Iv<R>, s: Iv<R>, m: int) {
    r.hi < PreviousNum(s.lo, m) || r.lo > NextNum(s.hi, m)
  }

  function Before<R>(r: Iv<R>, s: Iv<R>, m: int): seq<Iv<R>> {
    if r.lo < s.lo then Part(r.lo, PreviousNum(s.lo, m), r.route) else []
  }

  function Overlap<R>(r: Iv<R>, s: Iv<R>): seq<Iv<R>> {
    Part(if r.lo > s.lo then r.lo else s.lo, if r.hi < s.hi then r.hi else s.hi, s.route)
  }

  function After<R>(r: Iv<R>, s: Iv<R>, m: int): seq<Iv<R>> {
    Part(NextNum(s.hi, m), r.hi, r.route)
  }

  /** Splits r by spec s: kept as it is when they do not touch, else before, overlap and after. */
  function Cut<R>(r: Iv<R>, s: Iv<R>, m: int): seq<Iv<R>> {
    if Apart(r, s, m) then [r] else Before(r, s, m) + Overlap(r, s) + After(r, s, m)
  }

  function Paint<R>(rs: seq<Iv<R>>, s: Iv<R>, m: int): seq<Iv<R>> {
    if rs == [] then [] else Paint(rs[..|rs| - 1], s, m) + Cut(rs[|rs| - 1], s, m)
  }

  function PaintAll<R>(rs: seq<Iv<R>>, specs: seq<Iv<R>>, m: int): seq<Iv<R>> {
    if specs == [] then rs else Paint(PaintAll(rs, specs[..|specs| - 1], m), specs[|specs| - 1], m)
  }

  // ---------------------------------------------------------------- what a list of ranges says of an address

  /** The routes of all ranges containing x, in list order. */
  function Hits<R>(rs: seq<Iv<R>>, x: int): seq<R> {
    if rs == [] then []
    else Hits(rs[..|rs| - 1], x) + (if In(x, rs[|rs| - 1]) then [rs[|rs| - 1].route] else [])
  }

  /** Ascending, non-empty, gap-free and disjoint ranges from lo to hi. */
  predicate Tiles<R>(rs: seq<Iv<R>>, lo: int, hi: int) {
    rs != [] &&
    var l := rs[|rs| - 1];
    l.lo <= l.hi == hi && if |rs| == 1 then l.lo == lo else Tiles(rs[..|rs| - 1], lo, l.lo - 1)
  }

  /** The route of the last spec containing x, d if there is none. */
  function LastWriter<R>(specs: seq<Iv<R>>, x: int, d: R): R {
    if specs == [] then d
    else if In(x, specs[|specs| - 1]) then specs[|specs| - 1].route
    else LastWriter(specs[..|specs| - 1], x, d)
  }

  predicate Within<R>(rs: seq<Iv<R>>, lo: int, hi: int) {
    forall k :: 0 <= k < |rs| ==> lo <= rs[k].lo <= rs[k].hi <= hi
  }

  predicate ValidSpec<R>(s: Iv<R>, m: int) {
    0 <= s.lo <= s.hi < m
  }

  /** A spec clear of both ends of the address space. */
  predicate NonWrapping<R>(s: Iv<R>, m: int) {
    0 < s.lo <= s.hi < m - 1
  }

  /** A spec every range of rs is cut by correctly: at most its lower end touches zero, and harmlessly. */
  predicate Guarded<R>(rs: seq<Iv<R>>, s: Iv<R>, m: int) {
    ValidSpec(s, m) && s.hi < m - 1 &&
    (s.lo == 0 ==> forall k :: 0 <= k < |rs| ==> rs[k].hi == m - 1)
  }

  // ---------------------------------------------------------------- lists

  lemma {:induction false} HitsConcat<R>(a: seq<Iv<R>>, b: seq<Iv<R>>, x: int)
    ensures Hits(a + b, x) == Hits(a, x) + Hits(b, x)
  {
    if b == [] {
      assert a + b == a;
    } else {
      assert (a + b)[..|a + b| - 1] == a + b[..|b| - 1];
      HitsConcat(a, b[..|b| - 1], x);
    }
  }

  lemma HitsOne<R>(r: Iv<R>, x: int)
    ensures Hits([r], x) == if In(x, r) then [r.route] else []
  {
    assert Hits([r][..0], x) == [];
  }

  lemma {:induction false} TilesConcat<R>(a: seq<Iv<R>>, b: seq<Iv<R>>, lo: int, mid: int, hi: int)
    requires Tiles(a, lo, mid) && Tiles(b, mid + 1, hi)
    ensures Tiles(a + b, lo, hi)
  {
    assert (a + b)[..|a + b| - 1] == a + b[..|b| - 1];
    if |b| == 1 {
      assert a + b[..0] == a;
    } else {
      TilesConcat(a, b[..|b| - 1], lo, mid, b[|b| - 1].lo - 1);
    }
  }

  lemma {:induction false} TilesWithin<R>(rs: seq<Iv<R>>, lo: int, hi: int)
    requires Tiles(rs, lo, hi)
    ensures Within(rs, lo, hi) && lo <= hi
  {
    if |rs| > 1 { TilesWithin(rs[..|rs| - 1], lo, rs[|rs| - 1].lo - 1); }
  }

  /** Consecutive tiles touch. */
  lemma {:induction false} TilesNext<R>(rs: seq<Iv<R>>, lo: int, hi: int, k: nat)
    requires Tiles(rs, lo, hi) && k < |rs|
    ensures if k == 0 then rs[k].lo == lo else rs[k - 1].hi + 1 == rs[k].lo
    ensures k == |rs| - 1 ==> rs[k].hi == hi
  {
    var n := |rs| - 1;
    if k < n { TilesNext(rs[..n], lo, rs[n].lo - 1, k); } else if n > 0 { TilesNext(rs[..n], lo, rs[n].lo - 1, n - 1); }
  }

  lemma {:induction false} HitsOutside<R>(rs: seq<Iv<R>>, lo: int, hi: int, x: int)
    requires Within(rs, lo, hi) && !(lo <= x <= hi)
    ensures Hits(rs, x) == []
  {
    if rs != [] { HitsOutside(rs[..|rs| - 1], lo, hi, x); }
  }

  /** The tile containing x is the only one hit. */
  lemma {:induction false} TileHit<R>(rs: seq<Iv<R>>, lo: int, hi: int, x: int, k: nat)
    requires Tiles(rs, lo, hi) && k < |rs| && In(x, rs[k])
    ensures Hits(rs, x) == [rs[k].route]
  {
    var n := |rs| - 1;
    var init, l := rs[..n], rs[n];
    TilesWithin(rs, lo, hi);
    if n > 0 { TilesWithin(init, lo, l.lo - 1); }
    if k < n {
      TileHit(init, lo, l.lo - 1, x, k);
    } else if n > 0 {
      HitsOutside(init, lo, l.lo - 1, x);
    }
  }

  /** Some tile contains x. */
  lemma {:induction false} TileOf<R>(rs: seq<Iv<R>>, lo: int, hi: int, x: int) returns (k: nat)
    requires Tiles(rs, lo, hi) && lo <= x <= hi
    ensures k < |rs| && In(x, rs[k])
  {
    var n := |rs| - 1;
    if x >= rs[n].lo || n == 0 { k := n; } else { k := TileOf(rs[..n], lo, rs[n].lo - 1, x); }
  }

  // ---------------------------------------------------------------- one range, one spec

  /** Hits of the up to three parts of a cut. */
  lemma CutHits<R>(r: Iv<R>, s: Iv<R>, m: int, x: int)
    ensures Hits(Cut(r, s, m), x) ==
            if Apart(r, s, m) then (if In(x, r) then [r.route] else [])
            else (if r.lo < s.lo && r.lo <= x <= PreviousNum(s.lo, m) then [r.route] else []) +
                 (if In(x, r) && In(x, s) then [s.route] else []) +
                 (if NextNum(s.hi, m) <= x <= r.hi then [r.route] else [])
  {
    hide Hits, Part, Apart, PreviousNum, NextNum;
    HitsOne(r, x);
    HitsNone<R>(x);
    HitsConcat(Before(r, s, m) + Overlap(r, s), After(r, s, m), x);
    HitsConcat(Before(r, s, m), Overlap(r, s), x);
    PartHits(r.lo, PreviousNum(s.lo, m), r.route, x);
    PartHits(if r.lo > s.lo then r.lo else s.lo, if r.hi < s.hi then r.hi else s.hi, s.route, x);
    PartHits(NextNum(s.hi, m), r.hi, r.route, x);
  }

  lemma HitsNone<R>(x: int)
    ensures Hits<R>([], x) == []
  {
  }

  lemma PartHits<R>(lo: int, hi: int, route: R, x: int)
    ensures Hits(Part(lo, hi, route), x) == if lo <= x <= hi then [route] else []
  {
    HitsOne(Iv(lo, hi, route), x);
  }

  /** The parts of a cut stay inside the range that was cut, wrapping or not. */
  lemma CutWithin<R>(r: Iv<R>, s: Iv<R>, m: int)
    requires 0 <= r.lo <= r.hi < m && ValidSpec(s, m)
    ensures Within(Cut(r, s, m), r.lo, r.hi)
  {
  }

  lemma CutTiles<R>(r: Iv<R>, s: Iv<R>, m: int)
    requires 0 <= r.lo <= r.hi < m && Guarded([r], s, m)
    ensures Tiles(Cut(r, s, m), r.lo, r.hi)
    ensures |Cut(r, s, m)| <= 1 + (if r.lo < s.lo <= r.hi then 1 else 0) + (if r.lo <= s.hi < r.hi then 1 else 0)
  {
    var c := Cut(r, s, m);
    assert [r][0] == r;
    if |c| == 3 {
      assert c[..2][..1] == [c[0]] && c[..2][1] == c[1];
      assert Tiles(c[..1], r.lo, c[1].lo - 1);
      assert Tiles(c[..2], r.lo, c[2].lo - 1);
    } else if |c| == 2 {
      assert Tiles(c[..1], r.lo, c[1].lo - 1);
    }
  }

  // ---------------------------------------------------------------- one spec over the whole list

  lemma {:induction false} PaintWithin<R>(rs: seq<Iv<R>>, s: Iv<R>, m: int, lo: int, hi: int)
    requires Within(rs, lo, hi) && 0 <= lo && hi < m && ValidSpec(s, m)
    ensures Within(Paint(rs, s, m), lo, hi)
  {
    if rs != [] {
      PaintWithin(rs[..|rs| - 1], s, m, lo, hi);
      CutWithin(rs[|rs| - 1], s, m);
    }
  }

  /** Repainting keeps the tiling; each end of the spec splits at most one range. */
  lemma {:induction false} PaintTiles<R>(rs: seq<Iv<R>>, s: Iv<R>, m: int, lo: int, hi: int)
    requires Tiles(rs, lo, hi) && 0 <= lo && hi < m && Guarded(rs, s, m)
    ensures Tiles(Paint(rs, s, m), lo, hi)
    ensures |Paint(rs, s, m)| <= |rs| + (if lo < s.lo <= hi then 1 else 0) + (if lo <= s.hi < hi then 1 else 0)
  {
    hide Cut;
    var n := |rs| - 1;
    var init, l := rs[..n], rs[n];
    TilesWithin(rs, lo, hi);
    CutTiles(l, s, m);
    if n == 0 {
      assert Paint(rs, s, m) == Paint(init, s, m) + Cut(l, s, m) == Cut(l, s, m);
    } else {
      assert Tiles(init, lo, l.lo - 1);
      TilesWithin(init, lo, l.lo - 1);
      PaintTiles(init, s, m, lo, l.lo - 1);
      TilesConcat(Paint(init, s, m), Cut(l, s, m), lo, l.lo - 1, hi);
      assert Paint(rs, s, m) == Paint(init, s, m) + Cut(l, s, m);
    }
  }

  /** The spec's route on the spec's addresses, the old routes elsewhere. */
  function Recolour<R>(h: seq<R>, x: int, s: Iv<R>): seq<R> {
    if In(x, s) then seq(|h|, _ => s.route) else h
  }

  /** A cut that does not wrap only changes the route inside the spec. */
  lemma CutRecolours<R>(r: Iv<R>, s: Iv<R>, m: int, x: int)
    requires 0 <= r.lo <= r.hi < m && Guarded([r], s, m)
    ensures Hits(Cut(r, s, m), x) == Recolour(if In(x, r) then [r.route] else [], x, s)
  {
    hide Cut, Hits;
    assert [r][0] == r;
    CutHits(r, s, m, x);
  }

  lemma RecolourConcat<R>(a: seq<R>, b: seq<R>, x: int, s: Iv<R>)
    ensures Recolour(a + b, x, s) == Recolour(a, x, s) + Recolour(b, x, s)
  {
  }

  lemma {:induction false} PaintHits<R>(rs: seq<Iv<R>>, s: Iv<R>, m: int, x: int)
    requires Within(rs, 0, m - 1) && Guarded(rs, s, m)
    ensures Hits(Paint(rs, s, m), x) == Recolour(Hits(rs, x), x, s)
  {
    if rs != [] {
      hide Cut, Recolour, In;
      var n := |rs| - 1;
      PaintHits(rs[..n], s, m, x);
      HitsConcat(Paint(rs[..n], s, m), Cut(rs[n], s, m), x);
      CutRecolours(rs[n], s, m, x);
      RecolourConcat(Hits(rs[..n], x), if In(x, rs[n]) then [rs[n].route] else [], x, s);
    }
  }

  /** Last writer wins, for any specs that avoid the ends of the address space. */
  lemma {:induction false} LastWriterWins<R>(seed: Iv<R>, specs: seq<Iv<R>>, m: int)
    requires 0 <= seed.lo <= seed.hi < m
    requires forall k :: 0 <= k < |specs| ==> NonWrapping(specs[k], m)
    ensures Tiles(PaintAll([seed], specs, m), seed.lo, seed.hi)
    ensures forall x :: In(x, seed) ==> Hits(PaintAll([seed], specs, m), x) == [LastWriter(specs, x, seed.route)]
    ensures |PaintAll([seed], specs, m)| <= 2 * |specs| + 1
  {
    if specs == [] {
      forall x { HitsOne(seed, x); }
    } else {
      var init, s := specs[..|specs| - 1], specs[|specs| - 1];
      var rs := PaintAll([seed], init, m);
      LastWriterWins(seed, init, m);
      TilesWithin(rs, seed.lo, seed.hi);
      PaintTiles(rs, s, m, seed.lo, seed.hi);
      forall x | In(x, seed)
        ensures Hits(PaintAll([seed], specs, m), x) == [LastWriter(specs, x, seed.route)]
      {
        PaintHits(rs, s, m, x);
      }
    }
  }

  // ---------------------------------------------------------------- specs at the ends of the address space

  /** A spec starting at address zero changes nothing unless a range reaches the top. */
  lemma {:induction false} ZeroSpecIgnored<R>(rs: seq<Iv<R>>, s: Iv<R>, m: int)
    requires Within(rs, 0, m - 2) && s.lo == 0
    ensures Paint(rs, s, m) == rs
  {
    if rs != [] {
      ZeroSpecIgnored(rs[..|rs| - 1], s, m);
    }
  }

  /** So address zero keeps the seed's route for ever, as long as the top is out of the seed's reach. */
  lemma {:induction false} ZeroNeverPainted<R>(seed: Iv<R>, specs: seq<Iv<R>>, m: int)
    requires 0 == seed.lo <= seed.hi < m - 1
    requires forall k :: 0 <= k < |specs| ==> specs[k].lo == 0 || NonWrapping(specs[k], m)
    ensures Tiles(PaintAll([seed], specs, m), seed.lo, seed.hi)
    ensures Hits(PaintAll([seed], specs, m), 0) == [seed.route]
  {
    if specs == [] {
      HitsOne(seed, 0);
    } else {
      var init, s := specs[..|specs| - 1], specs[|specs| - 1];
      var rs := PaintAll([seed], init, m);
      ZeroNeverPainted(seed, init, m);
      TilesWithin(rs, seed.lo, seed.hi);
      if s.lo == 0 {
        ZeroSpecIgnored(rs, s, m);
      } else {
        PaintTiles(rs, s, m, seed.lo, seed.hi);
        PaintHits(rs, s, m, 0);
      }
    }
  }

  lemma CutAtEnds<R>(r: Iv<R>, s: Iv<R>, m: int)
    requires 0 <= r.lo <= r.hi < m && ValidSpec(s, m) && m > 1
    ensures |Hits(Cut(r, s, m), 0)| >= if r.lo == 0 then 1 else 0
    ensures Hits(Cut(r, s, m), m - 1) == (if r.hi == m - 1 then [r.route] else []) ||
            (r.lo == 0 && |Hits(Cut(r, s, m), 0)| >= 2)
  {
    CutHits(r, s, m, 0);
    CutHits(r, s, m, m - 1);
  }

  /**
   No spec, wrapping or not, makes a range lose address zero; one reaching the top either leaves the top
   alone or puts address zero into two ranges.
   */
  lemma {:induction false} TopStep<R>(rs: seq<Iv<R>>, s: Iv<R>, m: int)
    requires Within(rs, 0, m - 1) && ValidSpec(s, m) && m > 1
    ensures |Hits(Paint(rs, s, m), 0)| >= |Hits(rs, 0)|
    ensures Hits(Paint(rs, s, m), m - 1) == Hits(rs, m - 1) || |Hits(Paint(rs, s, m), 0)| >= 2
  {
    if rs != [] {
      var init, l := rs[..|rs| - 1], rs[|rs| - 1];
      TopStep(init, s, m);
      assert Paint(rs, s, m) == Paint(init, s, m) + Cut(l, s, m);
      HitsConcat(Paint(init, s, m), Cut(l, s, m), 0);
      HitsConcat(Paint(init, s, m), Cut(l, s, m), m - 1);
      CutAtEnds(l, s, m);
    }
  }

  lemma {:induction false} PaintAllWithin<R>(seed: Iv<R>, specs: seq<Iv<R>>, m: int)
    requires 0 <= seed.lo <= seed.hi < m
    requires forall k :: 0 <= k < |specs| ==> ValidSpec(specs[k], m)
    ensures Within(PaintAll([seed], specs, m), seed.lo, seed.hi)
  {
    if specs != [] {
      var init := specs[..|specs| - 1];
      PaintAllWithin(seed, init, m);
      PaintWithin(PaintAll([seed], init, m), specs[|specs| - 1], m, seed.lo, seed.hi);
    }
  }

  /** The top address keeps the seed's route for ever, unless address zero ends up in two ranges. */
  lemma {:induction false} TopNeverPainted<R>(seed: Iv<R>, specs: seq<Iv<R>>, m: int)
    requires 0 <= seed.lo <= seed.hi == m - 1 && m > 1
    requires forall k :: 0 <= k < |specs| ==> ValidSpec(specs[k], m)
    ensures Hits(PaintAll([seed], specs, m), m - 1) == [seed.route] ||
            (seed.lo == 0 && |Hits(PaintAll([seed], specs, m), 0)| >= 2)
  {
    if specs == [] {
      HitsOne(seed, m - 1);
    } else {
      var init, s := specs[..|specs| - 1], specs[|specs| - 1];
      TopNeverPainted(seed, init, m);
      PaintAllWithin(seed, init, m);
      TopStep(PaintAll([seed], init, m), s, m);
      if seed.lo > 0 {
        PaintAllWithin(seed, specs, m);
        HitsOutside(PaintAll([seed], specs, m), seed.lo, seed.hi, 0);
      }
    }
  }
}
