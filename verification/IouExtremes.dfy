/** When the localization score is perfect and when it is zero: the two ends of
    the scale mean equal regions and regions without common extent. */
module IouExtremes {
  import opened Numbers
  import opened Localization

  // ----- cells of a grid

  /** The grid cell at t inside [low, high]. */
  lemma CellAt(xs: seq<real>, low: real, high: real, t: real) returns (k: nat)
    requires Ascending(xs) && low in xs && high in xs && low < high && low <= t <= high
    ensures k + 1 < |xs| && low <= xs[k] <= t <= xs[k + 1] <= high
  {
    var i: nat :| i < |xs| && xs[i] == low;
    var j: nat :| j < |xs| && xs[j] == high;
    k := i;
    while k + 1 < j && xs[k + 1] <= t
      invariant i <= k < j && xs[i] <= xs[k] <= t
    {
      k := k + 1;
    }
  }

  /** A rectangle with its edges on the grid that reaches a cell's midpoint
      covers the whole closed cell. */
  lemma CoversCell(r: Rect, xs: seq<real>, ys: seq<real>, i: nat, j: nat)
    requires Ascending(xs) && Ascending(ys) && i + 1 < |xs| && j + 1 < |ys|
    requires r.x in xs && r.right in xs && r.y in ys && r.bottom in ys
    requires r.Covers(MidAt(xs, i), MidAt(ys, j))
    ensures r.x <= xs[i] && xs[i + 1] <= r.right && r.y <= ys[j] && ys[j + 1] <= r.bottom
  {
    NotBetween(xs, i, r.x);
    NotBetween(xs, i, r.right);
    NotBetween(ys, j, r.y);
    NotBetween(ys, j, r.bottom);
  }

  lemma NotBetween(xs: seq<real>, k: nat, v: real)
    requires Ascending(xs) && k + 1 < |xs| && v in xs
    ensures v <= xs[k] || v >= xs[k + 1]
  {
    var i: nat :| i < |xs| && xs[i] == v;
  }

  /** A point that one set covers and the other does not lies on a whole cell of
      that kind. */
  lemma DistinguishingCell(a: seq<Rect>, b: seq<Rect>, xs: seq<real>, ys: seq<real>, px: real, py: real)
    returns (i: nat, j: nat)
    requires AllValid(a) && Through(a, xs, ys) && Through(b, xs, ys)
    requires Covered(a, px, py) && !Covered(b, px, py)
    ensures i + 1 < |xs| && j + 1 < |ys|
    ensures Covered(a, MidAt(xs, i), MidAt(ys, j)) && !Covered(b, MidAt(xs, i), MidAt(ys, j))
  {
    var r :| r in a && r.Covers(px, py);
    i := CellAt(xs, r.x, r.right, px);
    j := CellAt(ys, r.y, r.bottom, py);
    assert r.Covers(MidAt(xs, i), MidAt(ys, j));
    forall s | s in b ensures !s.Covers(MidAt(xs, i), MidAt(ys, j)) {
      if s.Covers(MidAt(xs, i), MidAt(ys, j)) { CoversCell(s, xs, ys, i, j); }
    }
  }

  // ----- strict monotonicity

  /** A sum grows strictly where a midpoint value does. */
  lemma {:induction false} IntegralStrict(f: real -> real, g: real -> real, xs: seq<real>, k: nat)
    requires Ascending(xs) && k + 1 < |xs| && (forall t :: f(t) <= g(t)) && f(MidAt(xs, k)) < g(MidAt(xs, k))
    ensures Integral(f, xs) < Integral(g, xs)
  {
    var rest := xs[1..];
    assert xs == [xs[0]] + rest;
    Unfold(f, xs[0], rest);
    Unfold(g, xs[0], rest);
    var mid := Mid(xs[0], rest[0]);
    if k == 0 {
      IntegralMonotone(f, g, rest);
    } else {
      assert MidAt(rest, k - 1) == MidAt(xs, k);
      IntegralStrict(f, g, rest, k - 1);
    }
    StrictStrip(rest[0] - xs[0], f(mid), Integral(f, rest), g(mid), Integral(g, rest));
  }

  lemma StrictStrip(width: real, x: real, others: real, y: real, others': real)
    requires width > 0.0 && x <= y && others <= others' && (x < y || others < others')
    ensures width * x + others < width * y + others'
  {
    Widen(width, x, y);
    if x < y {
      Positive(width, y - x);
      assert width * (y - x) == width * y - width * x;
    }
  }

  lemma AreaStrict(p: Region, q: Region, xs: seq<real>, ys: seq<real>, i: nat, j: nat)
    requires Ascending(xs) && Ascending(ys) && (forall px, py :: p(px, py) ==> q(px, py))
    requires i + 1 < |xs| && j + 1 < |ys|
    requires q(MidAt(xs, i), MidAt(ys, j)) && !p(MidAt(xs, i), MidAt(ys, j))
    ensures Area(p, xs, ys) < Area(q, xs, ys)
  {
    forall px ensures LineLength(p, ys)(px) <= LineLength(q, ys)(px) {
      IntegralMonotone(Indicator(p, px), Indicator(q, px), ys);
    }
    var mid := MidAt(xs, i);
    IntegralStrict(Indicator(p, mid), Indicator(q, mid), ys, j);
    IntegralStrict(LineLength(p, ys), LineLength(q, ys), xs, i);
  }

  // ----- the perfect score

  lemma MissedArea(a: seq<Rect>, b: seq<Rect>, xs: seq<real>, ys: seq<real>, px: real, py: real)
    requires AllValid(a) && Through(a, xs, ys) && Through(b, xs, ys)
    requires Covered(a, px, py) && !Covered(b, px, py)
    ensures Area(Both(a, b), xs, ys) < Area(Either(a, b), xs, ys)
    ensures Area(Both(b, a), xs, ys) < Area(Either(b, a), xs, ys)
  {
    var i, j := DistinguishingCell(a, b, xs, ys, px, py);
    AreaStrict(Both(a, b), Either(a, b), xs, ys, i, j);
    AreaStrict(Both(b, a), Either(b, a), xs, ys, i, j);
  }

  lemma RatioOne(x: real, y: real)
    requires y > 0.0
    ensures x / y == 1.0 <==> x == y
    ensures x / y == 0.0 <==> x == 0.0
  {
    assert x / y * y == x;
  }

  /** The score is one exactly when the two sets cover the same points. */
  lemma IouOneExactly(a: seq<Rect>, b: seq<Rect>)
    requires AllValid(a) && AllValid(b)
    ensures Iou(a, b) == 1.0 <==> SameRegion(a, b)
  {
    if SameRegion(a, b) {
      IouPerfect(a, b);
    } else if a != [] && b != [] {
      var px, py :| Covered(a, px, py) != Covered(b, px, py);
      SharedGrid(a, b);
      UnionContains(a, b);
      if Covered(a, px, py) {
        MissedArea(a, b, GridX(a + b), GridY(a + b), px, py);
      } else {
        MissedArea(b, a, GridX(a + b), GridY(a + b), px, py);
      }
      RatioOne(Intersection(a, b), Union(a, b));
    }
  }

  // ----- the zero score

  /** Every interior point of t is covered by both sets. */
  ghost predicate InsideBoth(t: Rect, a: seq<Rect>, b: seq<Rect>) {
    forall px, py :: t.x < px < t.right && t.y < py < t.bottom ==> Covered(a, px, py) && Covered(b, px, py)
  }

  /** Some open rectangle lies in both regions. */
  ghost predicate ShareExtent(a: seq<Rect>, b: seq<Rect>) { exists t: Rect :: t.Valid() && InsideBoth(t, a, b) }

  /** Two rectangles share more than an edge. */
  predicate Overlap(r: Rect, s: Rect) {
    Max(r.x, s.x) < Min(r.right, s.right) && Max(r.y, s.y) < Min(r.bottom, s.bottom)
  }

  predicate SomeOverlap(a: seq<Rect>, b: seq<Rect>) { exists r, s :: r in a && s in b && Overlap(r, s) }

  lemma OverlapShares(a: seq<Rect>, b: seq<Rect>)
    requires SomeOverlap(a, b)
    ensures ShareExtent(a, b)
  {
    var r, s :| r in a && s in b && Overlap(r, s);
    var t := Rect(Max(r.x, s.x), Max(r.y, s.y), Min(r.right, s.right), Min(r.bottom, s.bottom));
    forall px, py | t.x < px < t.right && t.y < py < t.bottom ensures Covered(a, px, py) && Covered(b, px, py) {
      assert r.Covers(px, py) && s.Covers(px, py);
    }
    assert InsideBoth(t, a, b);
  }

  /** A positive sum has a positive midpoint. */
  lemma {:induction false} PositiveSomewhere(f: real -> real, xs: seq<real>) returns (k: nat)
    requires Ascending(xs) && Integral(f, xs) > 0.0
    ensures k + 1 < |xs| && f(MidAt(xs, k)) > 0.0
  {
    var rest := xs[1..];
    assert xs == [xs[0]] + rest;
    Unfold(f, xs[0], rest);
    if f(MidAt(xs, 0)) > 0.0 {
      k := 0;
    } else {
      Widen(rest[0] - xs[0], f(MidAt(xs, 0)), 0.0);
      var next := PositiveSomewhere(f, rest);
      assert MidAt(rest, next) == MidAt(xs, next + 1);
      k := next + 1;
    }
  }

  lemma AreaSomewhere(p: Region, xs: seq<real>, ys: seq<real>) returns (i: nat, j: nat)
    requires Ascending(xs) && Ascending(ys) && Area(p, xs, ys) > 0.0
    ensures i + 1 < |xs| && j + 1 < |ys| && p(MidAt(xs, i), MidAt(ys, j))
  {
    i := PositiveSomewhere(LineLength(p, ys), xs);
    j := PositiveSomewhere(Indicator(p, MidAt(xs, i)), ys);
  }

  lemma CellOverlap(r: Rect, s: Rect, xs: seq<real>, ys: seq<real>, i: nat, j: nat)
    requires Through([r, s], xs, ys) && i + 1 < |xs| && j + 1 < |ys|
    requires r.Covers(MidAt(xs, i), MidAt(ys, j)) && s.Covers(MidAt(xs, i), MidAt(ys, j))
    ensures Overlap(r, s)
  {
    assert r in [r, s] && s in [r, s];
    CoversCell(r, xs, ys, i, j);
    CoversCell(s, xs, ys, i, j);
  }

  lemma AreaOverlaps(a: seq<Rect>, b: seq<Rect>, xs: seq<real>, ys: seq<real>)
    requires Through(a, xs, ys) && Through(b, xs, ys) && Area(Both(a, b), xs, ys) > 0.0
    ensures SomeOverlap(a, b)
  {
    var i, j := AreaSomewhere(Both(a, b), xs, ys);
    var px, py := MidAt(xs, i), MidAt(ys, j);
    var r :| r in a && r.Covers(px, py);
    var s :| s in b && s.Covers(px, py);
    CellOverlap(r, s, xs, ys, i, j);
  }

  /** The closed middle of an open rectangle. */
  function Shrunk(t: Rect): Rect {
    Rect(Mid(t.x, Mid(t.x, t.right)), Mid(t.y, Mid(t.y, t.bottom)), Mid(t.x, t.right), Mid(t.y, t.bottom))
  }

  lemma SharedArea(a: seq<Rect>, b: seq<Rect>, t: Rect, xs: seq<real>, ys: seq<real>)
    requires Through(a, xs, ys) && Through(b, xs, ys) && t.Valid() && InsideBoth(t, a, b)
    ensures Area(Both(a, b), xs, ys) > 0.0
  {
    var s, p := Shrunk(t), Both(a, b);
    var us, vs := InsertAll(xs, [s.x, s.right]), InsertAll(ys, [s.y, s.bottom]);
    InsertAllHolds(xs, [s.x, s.right]);
    InsertAllHolds(ys, [s.y, s.bottom]);
    EdgesResolve(a, b, p, xs, ys);
    ResolvesFiner(p, xs, ys, us, vs);
    AreaUnique(p, xs, ys, us, vs);
    forall px, py | s.Covers(px, py) ensures p(px, py) { assert t.x < px < t.right && t.y < py < t.bottom; }
    AreaPositive(p, s, us, vs);
  }

  /** The regions share an open rectangle exactly when two of their rectangles
      properly overlap, and exactly then the intersection has area. */
  lemma SharedExactly(a: seq<Rect>, b: seq<Rect>)
    ensures ShareExtent(a, b) <==> SomeOverlap(a, b)
    ensures ShareExtent(a, b) <==> Intersection(a, b) > 0.0
  {
    SharedGrid(a, b);
    if ShareExtent(a, b) {
      var t: Rect :| t.Valid() && InsideBoth(t, a, b);
      SharedArea(a, b, t, GridX(a + b), GridY(a + b));
    }
    if Intersection(a, b) > 0.0 { AreaOverlaps(a, b, GridX(a + b), GridY(a + b)); }
    if SomeOverlap(a, b) { OverlapShares(a, b); }
  }

  /** The score is zero exactly when the sets are not both empty and no open
      rectangle lies in both: a missed region scores nothing. */
  lemma IouZeroExactly(a: seq<Rect>, b: seq<Rect>)
    requires AllValid(a) && AllValid(b)
    ensures Iou(a, b) == 0.0 <==> !(a == [] && b == []) && !ShareExtent(a, b)
    ensures Iou(a, b) == 0.0 <==> !(a == [] && b == []) && forall r, s :: r in a && s in b ==> !Overlap(r, s)
  {
    SharedExactly(a, b);
    UnionContains(a, b);
    if a != [] && b != [] { RatioOne(Intersection(a, b), Union(a, b)); }
  }
}
