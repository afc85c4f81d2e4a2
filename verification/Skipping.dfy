/**
 Painting with specs that touch the ends of the address space. The overlap test takes most ranges to be apart
 from such a spec, so it is skipped; what is painted is then last-writer-wins over the other specs.
 */
module Skipping {
  import opened Addresses
  import opened Intervals

  /** A spec whose neighbours wrap around, on a seed ending at top. */
  predicate Skipped<R>(s: Iv<R>, top: int, m: int) {
    s.hi == m - 1 || (s.lo == 0 && top < m - 1)
  }

  /** The route of the last spec containing x that is not skipped. */
  function LastPainted<R>(specs: seq<Iv<R>>, x: int, d: R, top: int, m: int): R {
    if specs == [] then d
    else
      var s := specs[|specs| - 1];
      if In(x, s) && !Skipped(s, top, m) then s.route else LastPainted(specs[..|specs| - 1], x, d, top, m)
  }

  /** A skipped spec that indeed leaves every range of the seed alone. */
  predicate Ignored<R>(seed: Iv<R>, s: Iv<R>, m: int) {
    (s.hi == m - 1 && seed.lo > 0) || (s.lo == 0 && seed.hi < m - 1)
  }

  lemma IgnoredCut<R>(r: Iv<R>, seed: Iv<R>, s: Iv<R>, m: int)
    requires 0 <= seed.lo <= r.lo <= r.hi <= seed.hi < m && Ignored(seed, s, m)
    ensures Cut(r, s, m) == [r]
  {
  }

  lemma {:induction false} IgnoredPaint<R>(rs: seq<Iv<R>>, seed: Iv<R>, s: Iv<R>, m: int)
    requires Within(rs, seed.lo, seed.hi) && 0 <= seed.lo && seed.hi < m && Ignored(seed, s, m)
    ensures Paint(rs, s, m) == rs
  {
    if rs != [] {
      hide Cut;
      var n := |rs| - 1;
      IgnoredPaint(rs[..n], seed, s, m);
      IgnoredCut(rs[n], seed, s, m);
      assert rs == rs[..n] + [rs[n]];
    }
  }

  lemma OnePainted<R>(r: Iv<R>, s: Iv<R>, m: int)
    ensures Paint([r], s, m) == Cut(r, s, m)
  {
    assert Paint([r], s, m) == Paint([r][..0], s, m) + Cut(r, s, m);
  }

  lemma TwoPainted<R>(a: Iv<R>, b: Iv<R>, s: Iv<R>, m: int)
    ensures Paint([a, b], s, m) == Cut(a, s, m) + Cut(b, s, m)
  {
    OnePainted(a, s, m);
    assert [a, b][..1] == [a];
  }

  /** A spec from address zero on, painted over a seed reaching the top, changes nothing when painted again. */
  lemma ZeroTwice<R>(seed: Iv<R>, s: Iv<R>, m: int)
    requires 0 <= seed.lo <= seed.hi == m - 1 && s.lo == 0 <= s.hi < m - 1
    ensures Paint(Paint([seed], s, m), s, m) == Paint([seed], s, m)
  {
    hide Paint;
    OnePainted(seed, s, m);
    var rs := Cut(seed, s, m);
    if seed.lo <= s.hi {
      var a, b := Iv(seed.lo, s.hi, s.route), Iv(s.hi + 1, seed.hi, seed.route);
      assert rs == [a, b];
      TwoPainted(a, b, s, m);
      assert Cut(a, s, m) == [a];
      assert Cut(b, s, m) == [b];
    } else {
      assert rs == [seed];
    }
  }

  /** A spec that painting treats as it should: clear of the ends, ignored, or the only one starting at zero. */
  ghost predicate Plain<R>(seed: Iv<R>, specs: seq<Iv<R>>, k: nat, m: int)
    requires k < |specs|
  {
    var s := specs[k];
    NonWrapping(s, m) || Ignored(seed, s, m) ||
    (seed.hi == m - 1 && s.lo == 0 <= s.hi < m - 1 && forall j :: 0 <= j < k ==> specs[j] == s || Ignored(seed, specs[j], m))
  }

  ghost predicate AllPlain<R>(seed: Iv<R>, specs: seq<Iv<R>>, m: int) {
    forall k :: 0 <= k < |specs| ==> Plain(seed, specs, k, m)
  }

  lemma PlainInit<R>(seed: Iv<R>, specs: seq<Iv<R>>, m: int)
    requires AllPlain(seed, specs, m) && specs != []
    ensures AllPlain(seed, specs[..|specs| - 1], m)
  {
    var init := specs[..|specs| - 1];
    forall k | 0 <= k < |init| ensures Plain(seed, init, k, m) {
      assert Plain(seed, specs, k, m);
    }
  }

  /** Nothing but copies of one zero spec, and ignored specs, amounts to that spec painted once. */
  lemma {:induction false} ZeroOnce<R>(seed: Iv<R>, specs: seq<Iv<R>>, s: Iv<R>, m: int)
    requires 0 <= seed.lo <= seed.hi == m - 1 && s.lo == 0 <= s.hi < m - 1
    requires forall j :: 0 <= j < |specs| ==> specs[j] == s || Ignored(seed, specs[j], m)
    ensures PaintAll([seed], specs, m) == if s in specs then Paint([seed], s, m) else [seed]
    ensures Within(PaintAll([seed], specs, m), seed.lo, seed.hi)
  {
    hide Paint, Cut, Ignored;
    if specs != [] {
      var init, last := specs[..|specs| - 1], specs[|specs| - 1];
      assert specs == init + [last];
      ZeroOnce(seed, init, s, m);
      if last == s {
        ZeroTwice(seed, s, m);
        OnePainted(seed, s, m);
        CutWithin(seed, s, m);
      } else {
        IgnoredPaint(PaintAll([seed], init, m), seed, last, m);
      }
    }
  }

  /** Whatever is plain is painted as if the skipped specs were not there. */
  lemma {:induction false} LastPaintedWins<R>(seed: Iv<R>, specs: seq<Iv<R>>, m: int)
    requires 0 <= seed.lo <= seed.hi < m && AllPlain(seed, specs, m)
    ensures Tiles(PaintAll([seed], specs, m), seed.lo, seed.hi)
    ensures forall x :: In(x, seed) ==> Hits(PaintAll([seed], specs, m), x) == [LastPainted(specs, x, seed.route, seed.hi, m)]
  {
    if specs == [] {
      forall x { HitsOne(seed, x); }
    } else {
      var init, s := specs[..|specs| - 1], specs[|specs| - 1];
      PlainInit(seed, specs, m);
      LastPaintedWins(seed, init, m);
      assert Plain(seed, specs, |specs| - 1, m);
      forall x | In(x, seed) ensures Hits(PaintAll([seed], specs, m), x) == [LastPainted(specs, x, seed.route, seed.hi, m)] {
        PaintedOnce(seed, init, s, m, x);
      }
      StillTiles(seed, init, s, m);
    }
  }

  lemma StillTiles<R>(seed: Iv<R>, init: seq<Iv<R>>, s: Iv<R>, m: int)
    requires 0 <= seed.lo <= seed.hi < m && Plain(seed, init + [s], |init|, m)
    requires Tiles(PaintAll([seed], init, m), seed.lo, seed.hi)
    ensures Tiles(Paint(PaintAll([seed], init, m), s, m), seed.lo, seed.hi)
  {
    var rs := PaintAll([seed], init, m);
    TilesWithin(rs, seed.lo, seed.hi);
    if Ignored(seed, s, m) {
      IgnoredPaint(rs, seed, s, m);
    } else if NonWrapping(s, m) {
      PaintTiles(rs, s, m, seed.lo, seed.hi);
    } else {
      ZeroNext(seed, init, s, m);
    }
  }

  /** The zero spec over what copies of it have made of the seed. */
  lemma ZeroNext<R>(seed: Iv<R>, init: seq<Iv<R>>, s: Iv<R>, m: int)
    requires 0 <= seed.lo <= seed.hi == m - 1 && s.lo == 0 <= s.hi < m - 1
    requires forall j :: 0 <= j < |init| ==> (init + [s])[j] == s || Ignored(seed, (init + [s])[j], m)
    ensures Paint(PaintAll([seed], init, m), s, m) == Paint([seed], s, m)
    ensures Tiles(Paint([seed], s, m), seed.lo, seed.hi)
    ensures forall x :: In(x, seed) ==> Hits(Paint([seed], s, m), x) == [if In(x, s) then s.route else seed.route]
  {
    hide Paint, PaintAll, Tiles, Hits, Ignored;
    forall j | 0 <= j < |init| ensures init[j] == s || Ignored(seed, init[j], m) { assert (init + [s])[j] == init[j]; }
    ZeroOnce(seed, init, s, m);
    ZeroTwice(seed, s, m);
    ZeroOverSeed(seed, s, m);
  }

  lemma ZeroOverSeed<R>(seed: Iv<R>, s: Iv<R>, m: int)
    requires 0 <= seed.lo <= seed.hi == m - 1 && s.lo == 0 <= s.hi < m - 1
    ensures Tiles(Paint([seed], s, m), seed.lo, seed.hi)
    ensures forall x :: In(x, seed) ==> Hits(Paint([seed], s, m), x) == [if In(x, s) then s.route else seed.route]
  {
    hide Paint;
    assert Tiles([seed], seed.lo, seed.hi) && Within([seed], 0, m - 1);
    PaintTiles([seed], s, m, seed.lo, seed.hi);
    forall x | In(x, seed) ensures Hits(Paint([seed], s, m), x) == [if In(x, s) then s.route else seed.route] {
      PaintHits([seed], s, m, x);
      HitsOne(seed, x);
    }
  }

  lemma PaintedOnce<R>(seed: Iv<R>, init: seq<Iv<R>>, s: Iv<R>, m: int, x: int)
    requires 0 <= seed.lo <= seed.hi < m && In(x, seed) && Plain(seed, init + [s], |init|, m)
    requires Tiles(PaintAll([seed], init, m), seed.lo, seed.hi)
    requires Hits(PaintAll([seed], init, m), x) == [LastPainted(init, x, seed.route, seed.hi, m)]
    ensures Hits(Paint(PaintAll([seed], init, m), s, m), x) ==
            [if In(x, s) && !Skipped(s, seed.hi, m) then s.route else LastPainted(init, x, seed.route, seed.hi, m)]
  {
    var rs := PaintAll([seed], init, m);
    TilesWithin(rs, seed.lo, seed.hi);
    if Ignored(seed, s, m) {
      IgnoredPaint(rs, seed, s, m);
    } else if NonWrapping(s, m) {
      PaintHits(rs, s, m, x);
    } else {
      ZeroNext(seed, init, s, m);
      forall j | 0 <= j < |init| ensures init[j] == s || Ignored(seed, init[j], m) { assert (init + [s])[j] == init[j]; }
      if !In(x, s) { NotPainted(init, x, seed.route, seed.hi, m, s, seed); }
    }
  }

  lemma {:induction false} NotPainted<R>(specs: seq<Iv<R>>, x: int, d: R, top: int, m: int, s: Iv<R>, seed: Iv<R>)
    requires !In(x, s) && top == seed.hi && forall j :: 0 <= j < |specs| ==> specs[j] == s || Ignored(seed, specs[j], m)
    ensures LastPainted(specs, x, d, top, m) == d
  {
    if specs != [] { NotPainted(specs[..|specs| - 1], x, d, top, m, s, seed); }
  }

  /** Where the painted route comes from: the last spec containing x that is not skipped. */
  lemma {:induction false} LastPaintedSource<R>(specs: seq<Iv<R>>, x: int, d: R, top: int, m: int) returns (k: int)
    ensures -1 <= k < |specs|
    ensures forall j :: k < j < |specs| && In(x, specs[j]) ==> Skipped(specs[j], top, m)
    ensures k >= 0 ==> In(x, specs[k]) && !Skipped(specs[k], top, m)
    ensures LastPainted(specs, x, d, top, m) == if k < 0 then d else specs[k].route
  {
    if specs == [] {
      k := -1;
    } else {
      var n := |specs| - 1;
      if In(x, specs[n]) && !Skipped(specs[n], top, m) {
        k := n;
      } else {
        k := LastPaintedSource(specs[..n], x, d, top, m);
      }
    }
  }

  // ---------------------------------------------------------------- where ranges begin

  /** Address b starts a spec that is not skipped, or follows the end of one. */
  ghost predicate EdgeOf<R>(specs: seq<Iv<R>>, b: int, top: int, m: int) {
    exists j :: 0 <= j < |specs| && !Skipped(specs[j], top, m) && (b == specs[j].lo || b == specs[j].hi + 1)
  }

  lemma {:induction false} PaintEdges<R>(rs: seq<Iv<R>>, s: Iv<R>, m: int, k: nat)
    requires Within(rs, 0, m - 1) && ValidSpec(s, m) && s.hi < m - 1 && k < |Paint(rs, s, m)|
    ensures Paint(rs, s, m)[k].lo == s.lo || Paint(rs, s, m)[k].lo == s.hi + 1 ||
            exists j :: 0 <= j < |rs| && Paint(rs, s, m)[k].lo == rs[j].lo
  {
    var n := |rs| - 1;
    var before := Paint(rs[..n], s, m);
    if k < |before| {
      PaintEdges(rs[..n], s, m, k);
      if j :| 0 <= j < n && before[k].lo == rs[..n][j].lo { assert rs[..n][j] == rs[j]; }
    } else {
      CutEdges(rs[n], s, m, k - |before|);
    }
  }

  lemma CutEdges<R>(r: Iv<R>, s: Iv<R>, m: int, k: nat)
    requires 0 <= r.lo <= r.hi < m && ValidSpec(s, m) && s.hi < m - 1 && k < |Cut(r, s, m)|
    ensures Cut(r, s, m)[k].lo in {r.lo, s.lo, s.hi + 1}
  {
  }

  /** Every range but the first begins at an edge of a painted spec. */
  lemma {:induction false} RangesBeginAtEdges<R>(seed: Iv<R>, specs: seq<Iv<R>>, m: int, k: nat)
    requires 0 <= seed.lo <= seed.hi < m && AllPlain(seed, specs, m) && k < |PaintAll([seed], specs, m)|
    ensures PaintAll([seed], specs, m)[k].lo == seed.lo || EdgeOf(specs, PaintAll([seed], specs, m)[k].lo, seed.hi, m)
  {
    if specs != [] {
      var init, s := specs[..|specs| - 1], specs[|specs| - 1];
      hide Paint, Tiles, EdgeOf, Hits, LastPainted;
      var rs := PaintAll([seed], init, m);
      PlainInit(seed, specs, m);
      LastPaintedWins(seed, init, m);
      TilesWithin(rs, seed.lo, seed.hi);
      assert Plain(seed, specs, |specs| - 1, m);
      assert specs == init + [s];
      if Ignored(seed, s, m) {
        IgnoredPaint(rs, seed, s, m);
        RangesBeginAtEdges(seed, init, m, k);
        EdgeStays(init, s, rs[k].lo, seed.hi, m);
      } else {
        PaintEdges(rs, s, m, k);
        var b := Paint(rs, s, m)[k].lo;
        LastEdge(init, s, seed, m);
        if j :| 0 <= j < |rs| && b == rs[j].lo {
          RangesBeginAtEdges(seed, init, m, j);
          EdgeStays(init, s, b, seed.hi, m);
        }
      }
    }
  }

  lemma EdgeStays<R>(init: seq<Iv<R>>, s: Iv<R>, b: int, top: int, m: int)
    ensures EdgeOf(init, b, top, m) ==> EdgeOf(init + [s], b, top, m)
  {
    if j :| 0 <= j < |init| && !Skipped(init[j], top, m) && (b == init[j].lo || b == init[j].hi + 1) {
      assert (init + [s])[j] == init[j];
    }
  }

  lemma LastEdge<R>(init: seq<Iv<R>>, s: Iv<R>, seed: Iv<R>, m: int)
    requires NonWrapping(s, m) || (seed.hi == m - 1 && s.lo == 0 <= s.hi < m - 1)
    ensures EdgeOf(init + [s], s.lo, seed.hi, m) && EdgeOf(init + [s], s.hi + 1, seed.hi, m)
  {
    assert (init + [s])[|init|] == s;
  }

  // ---------------------------------------------------------------- first writer wins at address zero

  /** No range beginning at address zero reaches the top. */
  ghost predicate ZeroHeld<R>(rs: seq<Iv<R>>, m: int) {
    Within(rs, 0, m - 1) && forall k :: 0 <= k < |rs| && rs[k].lo == 0 ==> rs[k].hi < m - 1
  }

  lemma CutHeld<R>(r: Iv<R>, s: Iv<R>, m: int)
    requires 0 <= r.lo <= r.hi < m && (r.lo == 0 ==> r.hi < m - 1) && ValidSpec(s, m) && s.hi < m - 1
    ensures ZeroHeld(Cut(r, s, m), m) && Hits(Cut(r, s, m), 0) == if r.lo == 0 then [r.route] else []
  {
    CutHits(r, s, m, 0);
    CutWithin(r, s, m);
  }

  lemma HeldConcat<R>(a: seq<Iv<R>>, b: seq<Iv<R>>, m: int)
    requires ZeroHeld(a, m) && ZeroHeld(b, m)
    ensures ZeroHeld(a + b, m)
  {
  }

  /** A later spec never takes address zero from the range that holds it. */
  lemma {:induction false} ZeroKept<R>(rs: seq<Iv<R>>, s: Iv<R>, m: int)
    requires ZeroHeld(rs, m) && ValidSpec(s, m) && s.hi < m - 1
    ensures ZeroHeld(Paint(rs, s, m), m) && Hits(Paint(rs, s, m), 0) == Hits(rs, 0)
  {
    if rs != [] {
      hide Cut;
      var n := |rs| - 1;
      assert ZeroHeld(rs[..n], m);
      ZeroKept(rs[..n], s, m);
      CutHeld(rs[n], s, m);
      HeldConcat(Paint(rs[..n], s, m), Cut(rs[n], s, m), m);
      HitsConcat(Paint(rs[..n], s, m), Cut(rs[n], s, m), 0);
    }
  }

  lemma FirstOverSeed<R>(seed: Iv<R>, s: Iv<R>, m: int)
    requires seed.lo == 0 && seed.hi == m - 1 && m > 1 && s.lo == 0 <= s.hi < m - 1
    ensures ZeroHeld(Paint([seed], s, m), m) && Hits(Paint([seed], s, m), 0) == [s.route]
  {
    OnePainted(seed, s, m);
    hide Paint, Hits;
    ZeroOverSeed(seed, s, m);
    CutWithin(seed, s, m);
  }

  /** Over the whole address space the first of the specs from zero on keeps address zero. */
  lemma {:induction false} FirstAtZero<R>(seed: Iv<R>, specs: seq<Iv<R>>, m: int)
    requires seed.lo == 0 && seed.hi == m - 1 && m > 1 && specs != [] && specs[0].lo == 0
    requires forall k :: 0 <= k < |specs| ==> ValidSpec(specs[k], m) && specs[k].hi < m - 1
    ensures ZeroHeld(PaintAll([seed], specs, m), m) && Hits(PaintAll([seed], specs, m), 0) == [specs[0].route]
  {
    hide Paint, Hits, ZeroHeld;
    var init, s := specs[..|specs| - 1], specs[|specs| - 1];
    if init == [] {
      assert PaintAll([seed], specs[..0], m) == [seed];
      FirstOverSeed(seed, s, m);
    } else {
      FirstAtZero(seed, init, m);
      ZeroKept(PaintAll([seed], init, m), s, m);
    }
  }
}
