/** Union IoU of rectangle sets by coordinate compression: the loop over the
    compressed grid measures areas exactly, whatever grid is used. */
module Localization {
  import opened Numbers
  import opened Collections

  /** A rectangle of positive extent. */
  datatype Rect = Rect(x: real, y: real, right: real, bottom: real) {
    predicate Valid() { x < right && y < bottom }

    predicate Covers(px: real, py: real) { x <= px <= right && y <= py <= bottom }
  }

  predicate Covered(rects: seq<Rect>, px: real, py: real) { exists r :: r in rects && r.Covers(px, py) }

  type Region = (real, real) -> bool

  function Both(a: seq<Rect>, b: seq<Rect>): Region { (px, py) => Covered(a, px, py) && Covered(b, px, py) }

  function Either(a: seq<Rect>, b: seq<Rect>): Region { (px, py) => Covered(a, px, py) || Covered(b, px, py) }

  // ----- sorted grids

  predicate Ascending(xs: seq<real>) { forall i, j :: 0 <= i < j < |xs| ==> xs[i] < xs[j] }

  /** `sorted` of a set with one more value. */
  function Insert(xs: seq<real>, v: real): seq<real> {
    if xs == [] || v < xs[0] then [v] + xs
    else if v == xs[0] then xs
    else [xs[0]] + Insert(xs[1..], v)
  }

  lemma {:induction false} InsertSorts(xs: seq<real>, v: real)
    requires Ascending(xs)
    ensures Ascending(Insert(xs, v))
    ensures forall x :: x in Insert(xs, v) <==> x in xs || x == v
  {
    if xs == [] || v < xs[0] {
    } else if v > xs[0] {
      InsertSorts(xs[1..], v);
      assert xs == [xs[0]] + xs[1..];
      var rest := Insert(xs[1..], v);
      forall j | 0 <= j < |rest| ensures xs[0] < rest[j] { assert rest[j] in rest; }
    }
  }

  function SortedSet(values: seq<real>): seq<real> {
    if values == [] then [] else Insert(SortedSet(values[..|values| - 1]), values[|values| - 1])
  }

  lemma {:induction false} SortedSetHolds(values: seq<real>)
    ensures Ascending(SortedSet(values))
    ensures forall x :: x in SortedSet(values) <==> x in values
  {
    if values != [] {
      SortedSetHolds(values[..|values| - 1]);
      InsertSorts(SortedSet(values[..|values| - 1]), values[|values| - 1]);
      assert values == values[..|values| - 1] + [values[|values| - 1]];
    }
  }

  lemma {:induction false} SortedUnique(xs: seq<real>, us: seq<real>)
    requires Ascending(xs) && Ascending(us) && forall x :: x in xs <==> x in us
    ensures xs == us
  {
    assert us != [] ==> us[0] in us;
    if xs != [] {
      assert xs[0] in xs;
      assert us[0] in xs;
      assert xs[0] == us[0];
      assert forall x :: x in xs[1..] <==> x in xs && x != xs[0];
      assert forall x :: x in us[1..] <==> x in us && x != us[0];
      SortedUnique(xs[1..], us[1..]);
    }
  }

  // ----- step functions summed over a grid

  function Mid(a: real, b: real): real { (a + b) / 2.0 }

  /** Width times midpoint value over all adjacent grid lines. */
  function Integral(f: real -> real, xs: seq<real>): real {
    if |xs| < 2 then 0.0 else (xs[1] - xs[0]) * f(Mid(xs[0], xs[1])) + Integral(f, xs[1..])
  }

  predicate InGap(xs: seq<real>, k: nat, t: real) { k + 1 < |xs| && xs[k] < t < xs[k + 1] }

  function MidAt(xs: seq<real>, k: nat): real
    requires k + 1 < |xs|
  {
    Mid(xs[k], xs[k + 1])
  }

  /** Between grid lines f keeps its midpoint value. */
  ghost predicate Flat(f: real -> real, xs: seq<real>) { forall k, t :: InGap(xs, k, t) ==> f(t) == f(MidAt(xs, k)) }

  /** No grid line touches or separates the two values. */
  ghost predicate Together(xs: seq<real>, t: real, u: real) {
    forall x :: x in xs ==> x != t && x != u && (x < t <==> x < u)
  }

  ghost predicate Stepped(f: real -> real, xs: seq<real>) { forall t, u :: Together(xs, t, u) ==> f(t) == f(u) }

  lemma SteppedIsFlat(f: real -> real, xs: seq<real>)
    requires Ascending(xs) && Stepped(f, xs)
    ensures Flat(f, xs)
  {
    forall k: nat, t | InGap(xs, k, t) ensures f(t) == f(MidAt(xs, k)) {
      forall x | x in xs ensures x != t && x != MidAt(xs, k) && (x < t <==> x < MidAt(xs, k)) {
        var i :| 0 <= i < |xs| && xs[i] == x;
        assert i <= k ==> xs[i] <= xs[k];
        assert i > k ==> xs[i] >= xs[k + 1];
      }
      assert Together(xs, t, MidAt(xs, k));
    }
  }

  predicate Outside(xs: seq<real>, t: real) { xs == [] || t < xs[0] || t > xs[|xs| - 1] }

  /** Beyond the grid f is 0. */
  ghost predicate Bounded(f: real -> real, xs: seq<real>) { forall t :: Outside(xs, t) ==> f(t) == 0.0 }

  lemma FlatRest(f: real -> real, xs: seq<real>)
    requires Flat(f, xs) && |xs| > 0
    ensures Flat(f, xs[1..])
  {
    forall k: nat, t | InGap(xs[1..], k, t) ensures f(t) == f(MidAt(xs[1..], k)) {
      assert InGap(xs, k + 1, t);
    }
  }

  /** Cutting a gap in two changes nothing. */
  lemma Cut(f: real -> real, a: real, v: real, b: real)
    requires a < v < b && f(Mid(a, v)) == f(Mid(a, b)) && f(Mid(v, b)) == f(Mid(a, b))
    ensures (v - a) * f(Mid(a, v)) + (b - v) * f(Mid(v, b)) == (b - a) * f(Mid(a, b))
  {
    var c := f(Mid(a, b));
    assert (v - a) * c + (b - v) * c == (b - a) * c;
  }

  lemma Unfold(f: real -> real, a: real, rest: seq<real>)
    ensures Integral(f, [a] + rest)
         == if rest == [] then 0.0 else (rest[0] - a) * f(Mid(a, rest[0])) + Integral(f, rest)
  {
    assert ([a] + rest)[1..] == rest;
  }

  lemma CutFirst(f: real -> real, a: real, v: real, rest: seq<real>)
    requires rest != [] && a < v < rest[0] && Flat(f, [a] + rest)
    ensures Integral(f, [a] + ([v] + rest)) == Integral(f, [a] + rest)
  {
    assert InGap([a] + rest, 0, Mid(a, v)) && InGap([a] + rest, 0, Mid(v, rest[0]));
    Cut(f, a, v, rest[0]);
    Unfold(f, a, [v] + rest);
    Unfold(f, v, rest);
    Unfold(f, a, rest);
  }

  /** Inserting after the first grid line; f need not vanish before it. */
  lemma {:induction false} InsertAfter(f: real -> real, xs: seq<real>, v: real)
    requires Ascending(xs) && xs != [] && v > xs[0] && Flat(f, xs)
    requires VanishesAfter(f, xs[|xs| - 1])
    ensures Integral(f, Insert(xs, v)) == Integral(f, xs)
    decreases |xs|
  {
    var rest := xs[1..];
    if rest == [] {
      assert xs == [xs[0]] && Insert(xs, v) == [xs[0]] + [v];
      Unfold(f, xs[0], [v]);
    } else if v < rest[0] {
      assert xs == [xs[0]] + rest && Insert(xs, v) == [xs[0]] + ([v] + rest);
      CutFirst(f, xs[0], v, rest);
    } else if v == rest[0] {
      assert Insert(xs, v) == xs;
    } else {
      FlatRest(f, xs);
      InsertAfter(f, rest, v);
      InsertKeepsFirst(f, xs[0], rest, v);
      assert xs == [xs[0]] + rest;
    }
  }

  lemma InsertKeepsFirst(f: real -> real, a: real, rest: seq<real>, v: real)
    requires rest != [] && v > rest[0] && a < rest[0] && Integral(f, Insert(rest, v)) == Integral(f, rest)
    ensures Integral(f, Insert([a] + rest, v)) == Integral(f, [a] + rest)
  {
    assert ([a] + rest)[1..] == rest;
    Unfold(f, a, Insert(rest, v));
    Unfold(f, a, rest);
  }

  ghost predicate VanishesAfter(f: real -> real, x: real) { forall t :: t > x ==> f(t) == 0.0 }

  /** One more grid line anywhere leaves the sum of a stepped function. */
  lemma IntegralInsert(f: real -> real, xs: seq<real>, v: real)
    requires Ascending(xs) && Flat(f, xs) && Bounded(f, xs)
    ensures Integral(f, Insert(xs, v)) == Integral(f, xs)
  {
    if xs != [] && v < xs[0] {
      Unfold(f, v, xs);
      assert Outside(xs, Mid(v, xs[0]));
    } else if xs != [] && v > xs[0] {
      forall t | t > xs[|xs| - 1] ensures f(t) == 0.0 { assert Outside(xs, t); }
      assert VanishesAfter(f, xs[|xs| - 1]);
      InsertAfter(f, xs, v);
    }
  }

  // ----- regions on grids

  /** The share of a vertical line at px inside the region, on horizontal grid
      lines ys. */
  function Indicator(p: Region, px: real): real -> real { py => if p(px, py) then 1.0 else 0.0 }

  function LineLength(p: Region, ys: seq<real>): real -> real { px => Integral(Indicator(p, px), ys) }

  /** The compressed-grid area. */
  function Area(p: Region, xs: seq<real>, ys: seq<real>): real { Integral(LineLength(p, ys), xs) }

  /** No boundary of the region runs strictly between grid lines, and the
      region does not reach beyond them. */
  ghost predicate Resolves(p: Region, xs: seq<real>, ys: seq<real>) {
    && Ascending(xs) && Ascending(ys)
    && (forall px :: Stepped(Indicator(p, px), ys) && Bounded(Indicator(p, px), ys))
    && (forall py :: Stepped(Indicator(Swap(p), py), xs) && Bounded(Indicator(Swap(p), py), xs))
  }

  function Swap(p: Region): Region { (py, px) => p(px, py) }

  lemma {:induction false} IntegralSame(f: real -> real, g: real -> real, xs: seq<real>)
    requires forall k :: 0 <= k < |xs| - 1 ==> f(MidAt(xs, k)) == g(MidAt(xs, k))
    ensures Integral(f, xs) == Integral(g, xs)
  {
    if |xs| >= 2 {
      assert f(MidAt(xs, 0)) == g(MidAt(xs, 0));
      forall k | 0 <= k < |xs[1..]| - 1 ensures f(MidAt(xs[1..], k)) == g(MidAt(xs[1..], k)) {
        assert MidAt(xs[1..], k) == MidAt(xs, k + 1);
      }
      IntegralSame(f, g, xs[1..]);
    }
  }

  lemma {:induction false} IntegralZero(f: real -> real, xs: seq<real>)
    requires forall t :: f(t) == 0.0
    ensures Integral(f, xs) == 0.0
  {
    if |xs| >= 2 { IntegralZero(f, xs[1..]); }
  }

  /** Line lengths of a resolved region are stepped across the columns. */
  lemma LinesStepped(p: Region, xs: seq<real>, ys: seq<real>)
    requires Resolves(p, xs, ys)
    ensures Flat(LineLength(p, ys), xs) && Bounded(LineLength(p, ys), xs)
  {
    forall k: nat, t | InGap(xs, k, t) ensures LineLength(p, ys)(t) == LineLength(p, ys)(MidAt(xs, k)) {
      forall j | 0 <= j < |ys| - 1
        ensures Indicator(p, t)(MidAt(ys, j)) == Indicator(p, MidAt(xs, k))(MidAt(ys, j))
      {
        SteppedIsFlat(Indicator(Swap(p), MidAt(ys, j)), xs);
      }
      IntegralSame(Indicator(p, t), Indicator(p, MidAt(xs, k)), ys);
    }
    forall t | Outside(xs, t) ensures LineLength(p, ys)(t) == 0.0 {
      forall py ensures Indicator(p, t)(py) == 0.0 {
        assert Bounded(Indicator(Swap(p), py), xs);
      }
      IntegralZero(Indicator(p, t), ys);
    }
  }

  /** A further vertical grid line changes no area. */
  lemma AreaInsertX(p: Region, xs: seq<real>, ys: seq<real>, v: real)
    requires Resolves(p, xs, ys)
    ensures Area(p, Insert(xs, v), ys) == Area(p, xs, ys)
  {
    LinesStepped(p, xs, ys);
    IntegralInsert(LineLength(p, ys), xs, v);
  }

  /** A further horizontal grid line changes no area. */
  lemma AreaInsertY(p: Region, xs: seq<real>, ys: seq<real>, v: real)
    requires Resolves(p, xs, ys)
    ensures Area(p, xs, Insert(ys, v)) == Area(p, xs, ys)
  {
    forall k | 0 <= k < |xs| - 1
      ensures LineLength(p, Insert(ys, v))(MidAt(xs, k)) == LineLength(p, ys)(MidAt(xs, k))
    {
      SteppedIsFlat(Indicator(p, MidAt(xs, k)), ys);
      IntegralInsert(Indicator(p, MidAt(xs, k)), ys, v);
    }
    IntegralSame(LineLength(p, Insert(ys, v)), LineLength(p, ys), xs);
  }

  /** Finer grids still resolve the region. */
  lemma ResolvesFiner(p: Region, xs: seq<real>, ys: seq<real>, us: seq<real>, vs: seq<real>)
    requires Resolves(p, xs, ys) && Ascending(us) && Ascending(vs)
    requires (forall x :: x in xs ==> x in us) && (forall y :: y in ys ==> y in vs)
    ensures Resolves(p, us, vs)
  {
    forall px ensures Stepped(Indicator(p, px), vs) && Bounded(Indicator(p, px), vs) {
      StepsFiner(Indicator(p, px), ys, vs);
    }
    forall py ensures Stepped(Indicator(Swap(p), py), us) && Bounded(Indicator(Swap(p), py), us) {
      StepsFiner(Indicator(Swap(p), py), xs, us);
    }
  }

  lemma StepsFiner(f: real -> real, xs: seq<real>, us: seq<real>)
    requires Ascending(xs) && Ascending(us) && Stepped(f, xs) && Bounded(f, xs) && forall x :: x in xs ==> x in us
    ensures Stepped(f, us) && Bounded(f, us)
  {
    forall t, u | Together(us, t, u) ensures f(t) == f(u) { assert Together(xs, t, u); }
    forall t | Outside(us, t) ensures f(t) == 0.0 {
      if xs != [] { assert xs[0] in us && xs[|xs| - 1] in us; }
      assert Outside(xs, t);
    }
  }

  function InsertAll(xs: seq<real>, values: seq<real>): seq<real> {
    if values == [] then xs else Insert(InsertAll(xs, values[..|values| - 1]), values[|values| - 1])
  }

  lemma {:induction false} InsertAllHolds(xs: seq<real>, values: seq<real>)
    requires Ascending(xs)
    ensures Ascending(InsertAll(xs, values))
    ensures forall x :: x in InsertAll(xs, values) <==> x in xs || x in values
  {
    if values != [] {
      InsertAllHolds(xs, values[..|values| - 1]);
      InsertSorts(InsertAll(xs, values[..|values| - 1]), values[|values| - 1]);
      assert values == values[..|values| - 1] + [values[|values| - 1]];
    }
  }

  lemma {:induction false} AreaRefineX(p: Region, xs: seq<real>, ys: seq<real>, us: seq<real>)
    requires Resolves(p, xs, ys)
    ensures Area(p, InsertAll(xs, us), ys) == Area(p, xs, ys)
  {
    if us != [] {
      var front := us[..|us| - 1];
      AreaRefineX(p, xs, ys, front);
      InsertAllHolds(xs, front);
      ResolvesFiner(p, xs, ys, InsertAll(xs, front), ys);
      AreaInsertX(p, InsertAll(xs, front), ys, us[|us| - 1]);
    }
  }

  lemma {:induction false} AreaRefineY(p: Region, xs: seq<real>, ys: seq<real>, vs: seq<real>)
    requires Resolves(p, xs, ys)
    ensures Area(p, xs, InsertAll(ys, vs)) == Area(p, xs, ys)
  {
    if vs != [] {
      var front := vs[..|vs| - 1];
      AreaRefineY(p, xs, ys, front);
      InsertAllHolds(ys, front);
      ResolvesFiner(p, xs, ys, xs, InsertAll(ys, front));
      AreaInsertY(p, xs, InsertAll(ys, front), vs[|vs| - 1]);
    }
  }

  lemma RefinementsMeet(xs: seq<real>, us: seq<real>)
    requires Ascending(xs) && Ascending(us)
    ensures InsertAll(xs, us) == InsertAll(us, xs)
  {
    InsertAllHolds(xs, us);
    InsertAllHolds(us, xs);
    SortedUnique(InsertAll(xs, us), InsertAll(us, xs));
  }

  /** The area does not depend on the grid: any two grids that resolve the
      region measure the same. */
  lemma AreaUnique(p: Region, xs: seq<real>, ys: seq<real>, us: seq<real>, vs: seq<real>)
    requires Resolves(p, xs, ys) && Resolves(p, us, vs)
    ensures Area(p, xs, ys) == Area(p, us, vs)
  {
    RefinementsMeet(xs, us);
    RefinementsMeet(ys, vs);
    InsertAllHolds(xs, us);
    InsertAllHolds(us, xs);
    AreaRefineX(p, xs, ys, us);
    ResolvesFiner(p, xs, ys, InsertAll(xs, us), ys);
    AreaRefineY(p, InsertAll(xs, us), ys, vs);
    AreaRefineX(p, us, vs, xs);
    ResolvesFiner(p, us, vs, InsertAll(us, xs), vs);
    AreaRefineY(p, InsertAll(us, xs), vs, ys);
  }

  lemma AreaSame(p: Region, q: Region, xs: seq<real>, ys: seq<real>)
    requires forall px, py :: p(px, py) == q(px, py)
    ensures Area(p, xs, ys) == Area(q, xs, ys)
    ensures Resolves(p, xs, ys) ==> Resolves(q, xs, ys)
  {
    forall px ensures LineLength(p, ys)(px) == LineLength(q, ys)(px) {
      IntegralSame(Indicator(p, px), Indicator(q, px), ys);
    }
    IntegralSame(LineLength(p, ys), LineLength(q, ys), xs);
    if Resolves(p, xs, ys) {
      forall px ensures Stepped(Indicator(q, px), ys) && Bounded(Indicator(q, px), ys) {
        SameSteps(Indicator(p, px), Indicator(q, px), ys);
      }
      forall py ensures Stepped(Indicator(Swap(q), py), xs) && Bounded(Indicator(Swap(q), py), xs) {
        SameSteps(Indicator(Swap(p), py), Indicator(Swap(q), py), xs);
      }
    }
  }

  lemma SameSteps(f: real -> real, g: real -> real, xs: seq<real>)
    requires forall t :: f(t) == g(t)
    requires Stepped(f, xs) && Bounded(f, xs)
    ensures Stepped(g, xs) && Bounded(g, xs)
  {
  }

  // ----- rectangle sets

  predicate AllValid(rects: seq<Rect>) { forall r :: r in rects ==> r.Valid() }

  function EdgesX(rects: seq<Rect>): seq<real> {
    if rects == [] then [] else EdgesX(rects[..|rects| - 1]) + [rects[|rects| - 1].x, rects[|rects| - 1].right]
  }

  function EdgesY(rects: seq<Rect>): seq<real> {
    if rects == [] then [] else EdgesY(rects[..|rects| - 1]) + [rects[|rects| - 1].y, rects[|rects| - 1].bottom]
  }

  lemma {:induction false} EdgesHold(rects: seq<Rect>, r: Rect)
    requires r in rects
    ensures r.x in EdgesX(rects) && r.right in EdgesX(rects) && r.y in EdgesY(rects) && r.bottom in EdgesY(rects)
  {
    var front := rects[..|rects| - 1];
    assert rects == front + [rects[|rects| - 1]];
    if r in front { EdgesHold(front, r); }
  }

  function GridX(rects: seq<Rect>): seq<real> { SortedSet(EdgesX(rects)) }

  function GridY(rects: seq<Rect>): seq<real> { SortedSet(EdgesY(rects)) }

  /** A grid through every edge. */
  ghost predicate Through(rects: seq<Rect>, xs: seq<real>, ys: seq<real>) {
    && Ascending(xs) && Ascending(ys)
    && forall r :: r in rects ==> r.x in xs && r.right in xs && r.y in ys && r.bottom in ys
  }

  lemma CompressedGrid(rects: seq<Rect>)
    ensures Through(rects, GridX(rects), GridY(rects))
  {
    SortedSetHolds(EdgesX(rects));
    SortedSetHolds(EdgesY(rects));
    forall r | r in rects
      ensures r.x in GridX(rects) && r.right in GridX(rects) && r.y in GridY(rects) && r.bottom in GridY(rects)
    {
      EdgesHold(rects, r);
    }
  }

  lemma CoverMoves(rects: seq<Rect>, xs: seq<real>, ys: seq<real>, px: real, py: real, qx: real, qy: real)
    requires Through(rects, xs, ys)
    requires px == qx || Together(xs, px, qx)
    requires py == qy || Together(ys, py, qy)
    ensures Covered(rects, px, py) == Covered(rects, qx, qy)
  {
  }

  lemma OutsideUncovered(rects: seq<Rect>, xs: seq<real>, ys: seq<real>, px: real, py: real)
    requires Through(rects, xs, ys) && (Outside(xs, px) || Outside(ys, py))
    ensures !Covered(rects, px, py)
  {
    forall r | r in rects ensures !r.Covers(px, py) {
      assert r.x in xs && r.right in xs && r.y in ys && r.bottom in ys;
      InRange(xs, r.x);
      InRange(xs, r.right);
      InRange(ys, r.y);
      InRange(ys, r.bottom);
    }
  }

  lemma InRange(xs: seq<real>, x: real)
    requires Ascending(xs) && x in xs
    ensures xs[0] <= x <= xs[|xs| - 1]
  {
    var i :| 0 <= i < |xs| && xs[i] == x;
  }

  lemma RegionMoves(a: seq<Rect>, b: seq<Rect>, xs: seq<real>, ys: seq<real>, px: real, py: real, qx: real, qy: real)
    requires Through(a, xs, ys) && Through(b, xs, ys)
    requires px == qx || Together(xs, px, qx)
    requires py == qy || Together(ys, py, qy)
    ensures Both(a, b)(px, py) == Both(a, b)(qx, qy) && Either(a, b)(px, py) == Either(a, b)(qx, qy)
  {
    CoverMoves(a, xs, ys, px, py, qx, qy);
    CoverMoves(b, xs, ys, px, py, qx, qy);
  }

  lemma RegionOutside(a: seq<Rect>, b: seq<Rect>, xs: seq<real>, ys: seq<real>, px: real, py: real)
    requires Through(a, xs, ys) && Through(b, xs, ys) && (Outside(xs, px) || Outside(ys, py))
    ensures !Both(a, b)(px, py) && !Either(a, b)(px, py)
  {
    OutsideUncovered(a, xs, ys, px, py);
    OutsideUncovered(b, xs, ys, px, py);
  }

  lemma EdgesResolveRows(a: seq<Rect>, b: seq<Rect>, p: Region, xs: seq<real>, ys: seq<real>, px: real)
    requires Through(a, xs, ys) && Through(b, xs, ys) && (p == Both(a, b) || p == Either(a, b))
    ensures Stepped(Indicator(p, px), ys) && Bounded(Indicator(p, px), ys)
  {
    forall t, u | Together(ys, t, u) ensures Indicator(p, px)(t) == Indicator(p, px)(u) {
      RegionMoves(a, b, xs, ys, px, t, px, u);
    }
    forall t | Outside(ys, t) ensures Indicator(p, px)(t) == 0.0 {
      RegionOutside(a, b, xs, ys, px, t);
    }
  }

  lemma EdgesResolveColumns(a: seq<Rect>, b: seq<Rect>, p: Region, xs: seq<real>, ys: seq<real>, py: real)
    requires Through(a, xs, ys) && Through(b, xs, ys) && (p == Both(a, b) || p == Either(a, b))
    ensures Stepped(Indicator(Swap(p), py), xs) && Bounded(Indicator(Swap(p), py), xs)
  {
    forall t, u | Together(xs, t, u) ensures Indicator(Swap(p), py)(t) == Indicator(Swap(p), py)(u) {
      RegionMoves(a, b, xs, ys, t, py, u, py);
    }
    forall t | Outside(xs, t) ensures Indicator(Swap(p), py)(t) == 0.0 {
      RegionOutside(a, b, xs, ys, t, py);
    }
  }

  /** Any grid through the edges resolves intersection and union. */
  lemma EdgesResolve(a: seq<Rect>, b: seq<Rect>, p: Region, xs: seq<real>, ys: seq<real>)
    requires Through(a, xs, ys) && Through(b, xs, ys) && (p == Both(a, b) || p == Either(a, b))
    ensures Resolves(p, xs, ys)
  {
    forall px ensures Stepped(Indicator(p, px), ys) && Bounded(Indicator(p, px), ys) {
      EdgesResolveRows(a, b, p, xs, ys, px);
    }
    forall py ensures Stepped(Indicator(Swap(p), py), xs) && Bounded(Indicator(Swap(p), py), xs) {
      EdgesResolveColumns(a, b, p, xs, ys, py);
    }
  }

  // ----- bounds

  lemma {:induction false} IntegralMonotone(f: real -> real, g: real -> real, xs: seq<real>)
    requires Ascending(xs) && forall t :: f(t) <= g(t)
    ensures Integral(f, xs) <= Integral(g, xs)
  {
    if |xs| >= 2 {
      var rest := xs[1..];
      assert xs == [xs[0]] + rest;
      IntegralMonotone(f, g, rest);
      Unfold(f, xs[0], rest);
      Unfold(g, xs[0], rest);
      WidenStrip(rest[0] - xs[0], f(Mid(xs[0], rest[0])), Integral(f, rest), Integral(f, xs),
                 g(Mid(xs[0], rest[0])), Integral(g, rest), Integral(g, xs));
    }
  }

  lemma Widen(w: real, x: real, y: real)
    requires w > 0.0 && x <= y
    ensures w * x <= w * y
  {
  }

  lemma WidenStrip(width: real, x: real, others: real, total: real, y: real, others': real, total': real)
    requires width > 0.0 && x <= y && others <= others'
    requires total == width * x + others && total' == width * y + others'
    ensures total <= total'
  {
    Widen(width, x, y);
  }

  lemma NonNegative(w: real, x: real)
    requires w > 0.0 && x >= 0.0
    ensures w * x >= 0.0
  {
  }

  lemma {:induction false} IntegralNonNegative(f: real -> real, xs: seq<real>)
    requires Ascending(xs) && forall t :: f(t) >= 0.0
    ensures Integral(f, xs) >= 0.0
  {
    if |xs| >= 2 {
      assert xs == [xs[0]] + xs[1..];
      IntegralNonNegative(f, xs[1..]);
      FirstGap(f, xs[0], xs[1..]);
    }
  }

  lemma FirstGap(f: real -> real, a: real, rest: seq<real>)
    requires rest != [] && a < rest[0] && f(Mid(a, rest[0])) >= 0.0 && Integral(f, rest) >= 0.0
    ensures Integral(f, [a] + rest) >= Integral(f, rest)
    ensures f(Mid(a, rest[0])) > 0.0 ==> Integral(f, [a] + rest) > 0.0
  {
    Unfold(f, a, rest);
    AddStrip(rest[0] - a, f(Mid(a, rest[0])), Integral(f, rest), Integral(f, [a] + rest));
  }

  lemma AddStrip(width: real, height: real, others: real, total: real)
    requires width > 0.0 && height >= 0.0 && others >= 0.0 && total == width * height + others
    ensures total >= others
    ensures height > 0.0 ==> total > 0.0
  {
    NonNegative(width, height);
    if height > 0.0 { Positive(width, height); }
  }

  /** A nonnegative function positive in one gap has a positive sum. */
  lemma {:induction false} IntegralPositive(f: real -> real, xs: seq<real>, k: nat)
    requires Ascending(xs) && (forall t :: f(t) >= 0.0) && k + 1 < |xs| && f(MidAt(xs, k)) > 0.0
    ensures Integral(f, xs) > 0.0
  {
    var rest := xs[1..];
    IntegralNonNegative(f, rest);
    FirstGap(f, xs[0], rest);
    assert xs == [xs[0]] + rest;
    if k > 0 {
      assert MidAt(rest, k - 1) == MidAt(xs, k);
      IntegralPositive(f, rest, k - 1);
    }
  }

  lemma Positive(w: real, x: real)
    requires w > 0.0 && x > 0.0
    ensures w * x > 0.0
  {
  }

  lemma LinesNonNegative(p: Region, ys: seq<real>)
    requires Ascending(ys)
    ensures forall px :: LineLength(p, ys)(px) >= 0.0
  {
    forall px ensures LineLength(p, ys)(px) >= 0.0 { IntegralNonNegative(Indicator(p, px), ys); }
  }

  lemma AreaMonotone(p: Region, q: Region, xs: seq<real>, ys: seq<real>)
    requires Ascending(xs) && Ascending(ys) && forall px, py :: p(px, py) ==> q(px, py)
    ensures 0.0 <= Area(p, xs, ys) <= Area(q, xs, ys)
  {
    forall px ensures LineLength(p, ys)(px) <= LineLength(q, ys)(px) {
      IntegralMonotone(Indicator(p, px), Indicator(q, px), ys);
    }
    IntegralMonotone(LineLength(p, ys), LineLength(q, ys), xs);
    LinesNonNegative(p, ys);
    IntegralNonNegative(LineLength(p, ys), xs);
  }

  lemma GapAfter(xs: seq<real>, a: real, b: real) returns (k: nat)
    requires Ascending(xs) && a in xs && b in xs && a < b
    ensures k + 1 < |xs| && xs[k] == a && xs[k + 1] <= b
  {
    k :| 0 <= k < |xs| && xs[k] == a;
    var j :| 0 <= j < |xs| && xs[j] == b;
    assert j > k;
  }

  /** A region containing a rectangle of positive extent has positive area. */
  lemma AreaPositive(p: Region, r: Rect, xs: seq<real>, ys: seq<real>)
    requires Ascending(xs) && Ascending(ys) && r.Valid() && forall px, py :: r.Covers(px, py) ==> p(px, py)
    requires r.x in xs && r.right in xs && r.y in ys && r.bottom in ys
    ensures Area(p, xs, ys) > 0.0
  {
    var i := GapAfter(xs, r.x, r.right);
    var j := GapAfter(ys, r.y, r.bottom);
    IntegralPositive(Indicator(p, MidAt(xs, i)), ys, j);
    LinesNonNegative(p, ys);
    IntegralPositive(LineLength(p, ys), xs, i);
  }

  // ----- the metric

  /** Shared grid of both rectangle sets. */
  lemma SharedGrid(a: seq<Rect>, b: seq<Rect>)
    ensures Through(a, GridX(a + b), GridY(a + b)) && Through(b, GridX(a + b), GridY(a + b))
  {
    CompressedGrid(a + b);
    forall r | r in a || r in b ensures r in a + b {}
  }

  function Intersection(a: seq<Rect>, b: seq<Rect>): real { Area(Both(a, b), GridX(a + b), GridY(a + b)) }

  function Union(a: seq<Rect>, b: seq<Rect>): real { Area(Either(a, b), GridX(a + b), GridY(a + b)) }

  /** The union never vanishes and contains the intersection. */
  lemma UnionContains(a: seq<Rect>, b: seq<Rect>)
    requires AllValid(a) && AllValid(b)
    ensures 0.0 <= Intersection(a, b) <= Union(a, b)
    ensures a != [] ==> Union(a, b) > 0.0
  {
    SharedGrid(a, b);
    AreaMonotone(Both(a, b), Either(a, b), GridX(a + b), GridY(a + b));
    if a != [] {
      assert a[0] in a;
      AreaPositive(Either(a, b), a[0], GridX(a + b), GridY(a + b));
    }
  }

  function Iou(a: seq<Rect>, b: seq<Rect>): real
    requires AllValid(a) && AllValid(b)
  {
    if a == [] && b == [] then 1.0
    else if a == [] || b == [] then 0.0
    else
      UnionContains(a, b);
      Intersection(a, b) / Union(a, b)
  }

  // ----- the loop

  /** What is still to be added from column i, row j on. */
  ghost function Rest(p: Region, xs: seq<real>, ys: seq<real>, i: nat, j: nat): real
    requires i + 1 < |xs| && j < |ys|
  {
    (xs[i + 1] - xs[i]) * Integral(Indicator(p, Mid(xs[i], xs[i + 1])), ys[j..])
        + Integral(LineLength(p, ys), xs[i + 1..])
  }

  lemma RestFirst(p: Region, xs: seq<real>, ys: seq<real>, i: nat)
    requires i + 1 < |xs| && ys != []
    ensures Integral(LineLength(p, ys), xs[i..]) == Rest(p, xs, ys, i, 0)
  {
    assert ys[0..] == ys && xs[i..] == [xs[i]] + xs[i + 1..];
    Unfold(LineLength(p, ys), xs[i], xs[i + 1..]);
  }

  lemma RestCell(p: Region, xs: seq<real>, ys: seq<real>, i: nat, j: nat)
    requires i + 1 < |xs| && j + 1 < |ys|
    ensures Rest(p, xs, ys, i, j) == Rest(p, xs, ys, i, j + 1)
              + if p(Mid(xs[i], xs[i + 1]), Mid(ys[j], ys[j + 1]))
                then (xs[i + 1] - xs[i]) * (ys[j + 1] - ys[j]) else 0.0
  {
    var f := Indicator(p, Mid(xs[i], xs[i + 1]));
    assert ys[j..] == [ys[j]] + ys[j + 1..];
    Unfold(f, ys[j], ys[j + 1..]);
    Spread(xs[i + 1] - xs[i], ys[j + 1] - ys[j], f(Mid(ys[j], ys[j + 1])), Integral(f, ys[j + 1..]));
  }

  lemma Spread(width: real, height: real, inside: real, others: real)
    requires inside == 0.0 || inside == 1.0
    ensures width * (height * inside + others) == width * others + if inside == 1.0 then width * height else 0.0
  {
  }

  lemma RestLast(p: Region, xs: seq<real>, ys: seq<real>, i: nat)
    requires i + 1 < |xs| && ys != []
    ensures Rest(p, xs, ys, i, |ys| - 1) == Integral(LineLength(p, ys), xs[i + 1..])
  {
    assert |ys[|ys| - 1..]| == 1;
  }

  /** Sums one column of cells. */
  method MeasureColumn(expected: seq<Rect>, predicted: seq<Rect>, xs: seq<real>, ys: seq<real>, i: nat)
    returns (intersection: real, union: real)
    requires i + 1 < |xs| && ys != []
    ensures Integral(LineLength(Both(expected, predicted), ys), xs[i..]) ==
            intersection + Integral(LineLength(Both(expected, predicted), ys), xs[i + 1..])
    ensures Integral(LineLength(Either(expected, predicted), ys), xs[i..]) ==
            union + Integral(LineLength(Either(expected, predicted), ys), xs[i + 1..])
  {
    ghost var both, either := Both(expected, predicted), Either(expected, predicted);
    intersection, union := 0.0, 0.0;
    RestFirst(both, xs, ys, i);
    RestFirst(either, xs, ys, i);
    for j := 0 to |ys| - 1
      invariant intersection + Rest(both, xs, ys, i, j) == Rest(both, xs, ys, i, 0)
      invariant union + Rest(either, xs, ys, i, j) == Rest(either, xs, ys, i, 0)
    {
      var midpointX, midpointY := Mid(xs[i], xs[i + 1]), Mid(ys[j], ys[j + 1]);
      var inExpected := Covered(expected, midpointX, midpointY);
      var inPredicted := Covered(predicted, midpointX, midpointY);
      var area := (xs[i + 1] - xs[i]) * (ys[j + 1] - ys[j]);
      RestCell(both, xs, ys, i, j);
      RestCell(either, xs, ys, i, j);
      if inExpected || inPredicted { union := union + area; }
      if inExpected && inPredicted { intersection := intersection + area; }
    }
    RestLast(both, xs, ys, i);
    RestLast(either, xs, ys, i);
  }

  /** Sums all columns. */
  method MeasureGrid(expected: seq<Rect>, predicted: seq<Rect>, xs: seq<real>, ys: seq<real>)
    returns (intersection: real, union: real)
    requires xs != [] && ys != []
    ensures intersection == Area(Both(expected, predicted), xs, ys)
    ensures union == Area(Either(expected, predicted), xs, ys)
  {
    ghost var both, either := LineLength(Both(expected, predicted), ys), LineLength(Either(expected, predicted), ys);
    intersection, union := 0.0, 0.0;
    assert xs[0..] == xs;
    for i := 0 to |xs| - 1
      invariant intersection + Integral(both, xs[i..]) == Integral(both, xs)
      invariant union + Integral(either, xs[i..]) == Integral(either, xs)
    {
      var addBoth, addEither := MeasureColumn(expected, predicted, xs, ys, i);
      intersection, union := intersection + addBoth, union + addEither;
    }
    assert |xs[|xs| - 1..]| == 1;
  }

  method ComputeLocalizationIou(expected: seq<Rect>, predicted: seq<Rect>) returns (iou: real)
    requires AllValid(expected) && AllValid(predicted)
    ensures iou == Iou(expected, predicted)
  {
    if expected == [] && predicted == [] { return 1.0; }
    if expected == [] || predicted == [] { return 0.0; }
    var xs, ys := GridX(expected + predicted), GridY(expected + predicted);
    SharedGrid(expected, predicted);
    assert expected[0] in expected;
    var intersection, union := MeasureGrid(expected, predicted, xs, ys);
    UnionContains(expected, predicted);
    iou := intersection / union;
  }

  // ----- what the metric guarantees

  lemma IouBounds(a: seq<Rect>, b: seq<Rect>)
    requires AllValid(a) && AllValid(b)
    ensures 0.0 <= Iou(a, b) <= 1.0
  {
    UnionContains(a, b);
    if a != [] && b != [] { Share(Intersection(a, b), Union(a, b)); }
  }

  lemma Share(x: real, y: real)
    requires 0.0 <= x <= y && y > 0.0
    ensures 0.0 <= x / y <= 1.0
  {
  }

  /** The two sets cover the same points. */
  ghost predicate SameRegion(a: seq<Rect>, b: seq<Rect>) { forall px, py :: Covered(a, px, py) == Covered(b, px, py) }

  lemma SameAreas(a: seq<Rect>, b: seq<Rect>, c: seq<Rect>, d: seq<Rect>, p: Region, q: Region)
    requires (p == Both(a, b) && q == Both(c, d)) || (p == Either(a, b) && q == Either(c, d))
    requires forall px, py :: p(px, py) == q(px, py)
    ensures Area(p, GridX(a + b), GridY(a + b)) == Area(q, GridX(c + d), GridY(c + d))
  {
    SharedGrid(a, b);
    SharedGrid(c, d);
    EdgesResolve(a, b, p, GridX(a + b), GridY(a + b));
    EdgesResolve(c, d, q, GridX(c + d), GridY(c + d));
    AreaSame(q, p, GridX(c + d), GridY(c + d));
    AreaUnique(p, GridX(a + b), GridY(a + b), GridX(c + d), GridY(c + d));
  }

  lemma EmptyRegion(a: seq<Rect>, b: seq<Rect>)
    requires AllValid(a) && SameRegion(a, b) && a != []
    ensures b != []
  {
    assert a[0] in a && a[0].Covers(a[0].x, a[0].y);
    assert Covered(a, a[0].x, a[0].y);
  }

  /** The metric sees only the covered points: however the two sets are split
      into rectangles, repeated or ordered, their IoU is the same. */
  lemma IouOfRegions(a: seq<Rect>, b: seq<Rect>, c: seq<Rect>, d: seq<Rect>)
    requires AllValid(a) && AllValid(b) && AllValid(c) && AllValid(d)
    requires SameRegion(a, c) && SameRegion(b, d)
    ensures Iou(a, b) == Iou(c, d)
  {
    SameAreas(a, b, c, d, Both(a, b), Both(c, d));
    SameAreas(a, b, c, d, Either(a, b), Either(c, d));
    if a != [] { EmptyRegion(a, c); }
    if b != [] { EmptyRegion(b, d); }
    if c != [] { EmptyRegion(c, a); }
    if d != [] { EmptyRegion(d, b); }
  }

  lemma IouSymmetric(a: seq<Rect>, b: seq<Rect>)
    requires AllValid(a) && AllValid(b)
    ensures Iou(a, b) == Iou(b, a)
  {
    SameAreas(a, b, b, a, Both(a, b), Both(b, a));
    SameAreas(a, b, b, a, Either(a, b), Either(b, a));
  }

  /** Predicting exactly the expected points is a perfect score. */
  lemma IouPerfect(a: seq<Rect>, b: seq<Rect>)
    requires AllValid(a) && AllValid(b) && SameRegion(a, b)
    ensures Iou(a, b) == 1.0
  {
    UnionContains(a, b);
    AreaSame(Both(a, b), Either(a, b), GridX(a + b), GridY(a + b));
    if a != [] { EmptyRegion(a, b); }
    if b != [] { EmptyRegion(b, a); }
  }

  /** Cutting a rectangle in two, either way, keeps the covered points. */
  lemma SplitKeepsRegion(a: seq<Rect>, r: Rect, cut: real)
    requires r.Valid()
    ensures r.x < cut < r.right ==> SameRegion(a + [r], a + [r.(right := cut), r.(x := cut)])
    ensures r.y < cut < r.bottom ==> SameRegion(a + [r], a + [r.(bottom := cut), r.(y := cut)])
    ensures SameRegion(a + [r], a + [r, r])
  {
    forall px, py ensures r.x < cut < r.right ==>
      Covered(a + [r], px, py) == Covered(a + [r.(right := cut), r.(x := cut)], px, py)
    {
      OneMore(a, r, px, py);
      TwoMore(a, r.(right := cut), r.(x := cut), px, py);
    }
    forall px, py ensures r.y < cut < r.bottom ==>
      Covered(a + [r], px, py) == Covered(a + [r.(bottom := cut), r.(y := cut)], px, py)
    {
      OneMore(a, r, px, py);
      TwoMore(a, r.(bottom := cut), r.(y := cut), px, py);
    }
    forall px, py ensures Covered(a + [r], px, py) == Covered(a + [r, r], px, py) {
      OneMore(a, r, px, py);
      TwoMore(a, r, r, px, py);
    }
  }

  lemma OneMore(a: seq<Rect>, r: Rect, px: real, py: real)
    ensures Covered(a + [r], px, py) == (Covered(a, px, py) || r.Covers(px, py))
  {
    assert forall s :: s in a + [r] <==> s in a || s == r;
  }

  lemma TwoMore(a: seq<Rect>, r: Rect, q: Rect, px: real, py: real)
    ensures Covered(a + [r, q], px, py) == (Covered(a, px, py) || r.Covers(px, py) || q.Covers(px, py))
  {
    assert forall s :: s in a + [r, q] <==> s in a || s == r || s == q;
  }

  // ----- counting cells

  function Centre(k: int): real { k as real + 0.5 }

  /** Grid lines i, i + 1, ..., n. */
  function Lines(i: nat, n: nat): seq<real>
    requires i <= n
    decreases n - i
  {
    [i as real] + if i == n then [] else Lines(i + 1, n)
  }

  lemma {:induction false} LinesAscend(i: nat, n: nat)
    requires i <= n
    ensures Ascending(Lines(i, n)) && Lines(i, n)[0] == i as real
    decreases n - i
  {
    if i < n { LinesAscend(i + 1, n); }
  }

  lemma {:induction false} LineListed(i: nat, n: nat, k: nat)
    requires i <= k <= n
    ensures k as real in Lines(i, n)
    decreases n - i
  {
    if i < k { LineListed(i + 1, n, k); }
  }

  function AtCentre(f: real -> real): int -> real { k => f(Centre(k)) }

  /** On unit lines the sum runs over cell centres. */
  lemma {:induction false} IntegralOfLines(f: real -> real, i: nat, n: nat)
    requires i <= n
    ensures Integral(f, Lines(i, n)) == Sum(n, AtCentre(f)) - Sum(i, AtCentre(f))
    decreases n - i
  {
    if i < n {
      IntegralOfLines(f, i + 1, n);
      Unfold(f, i as real, Lines(i + 1, n));
      assert Mid(i as real, (i + 1) as real) == Centre(i);
      assert Sum(i + 1, AtCentre(f)) == Sum(i, AtCentre(f)) + f(Centre(i));
    }
  }

  function CellRow(p: Region, i: nat): nat -> bool { (j: nat) => p(Centre(i), Centre(j)) }

  function CellsOfColumn(p: Region, n: nat): nat -> nat { (i: nat) => Count(n, CellRow(p, i)) }

  /** The number of unit cells whose centre lies in the region. */
  function CellCount(p: Region, n: nat): nat { Total(n, CellsOfColumn(p, n)) }

  lemma {:induction false} SumIsCount(n: nat, f: int -> real, q: nat -> bool)
    requires forall j: nat :: j < n ==> f(j) == if q(j) then 1.0 else 0.0
    ensures Sum(n, f) == Count(n, q) as real
  {
    if n > 0 { SumIsCount(n - 1, f, q); }
  }

  lemma {:induction false} SumIsTotal(n: nat, f: int -> real, c: nat -> nat)
    requires forall i: nat :: i < n ==> f(i) == c(i) as real
    ensures Sum(n, f) == Total(n, c) as real
  {
    if n > 0 { SumIsTotal(n - 1, f, c); }
  }

  lemma AreaOfLines(p: Region, n: nat)
    ensures Area(p, Lines(0, n), Lines(0, n)) == CellCount(p, n) as real
  {
    var f := LineLength(p, Lines(0, n));
    forall i: nat | i < n ensures AtCentre(f)(i) == CellsOfColumn(p, n)(i) as real {
      IntegralOfLines(Indicator(p, Centre(i)), 0, n);
      SumIsCount(n, AtCentre(Indicator(p, Centre(i))), CellRow(p, i));
    }
    IntegralOfLines(f, 0, n);
    SumIsTotal(n, AtCentre(f), CellsOfColumn(p, n));
  }

  predicate IsLine(x: real, n: nat) { x == x.Floor as real && 0 <= x.Floor <= n }

  predicate OnLattice(rects: seq<Rect>, n: nat) {
    forall r :: r in rects ==> IsLine(r.x, n) && IsLine(r.right, n) && IsLine(r.y, n) && IsLine(r.bottom, n)
  }

  lemma LatticeThrough(rects: seq<Rect>, n: nat)
    requires OnLattice(rects, n)
    ensures Through(rects, Lines(0, n), Lines(0, n))
  {
    LinesAscend(0, n);
    var lines := Lines(0, n);
    forall r | r in rects ensures r.x in lines && r.right in lines && r.y in lines && r.bottom in lines {
      LineListed(0, n, r.x.Floor);
      LineListed(0, n, r.right.Floor);
      LineListed(0, n, r.y.Floor);
      LineListed(0, n, r.bottom.Floor);
    }
  }

  lemma CellArea(a: seq<Rect>, b: seq<Rect>, p: Region, n: nat)
    requires OnLattice(a, n) && OnLattice(b, n) && (p == Both(a, b) || p == Either(a, b))
    ensures Area(p, GridX(a + b), GridY(a + b)) == CellCount(p, n) as real
  {
    var lines := Lines(0, n);
    LatticeThrough(a, n);
    LatticeThrough(b, n);
    SharedGrid(a, b);
    EdgesResolve(a, b, p, lines, lines);
    EdgesResolve(a, b, p, GridX(a + b), GridY(a + b));
    AreaUnique(p, lines, lines, GridX(a + b), GridY(a + b));
    AreaOfLines(p, n);
  }

  /** Exactness: for rectangles on the integer lattice the compressed grid
      counts the cells covered by both sets and by either. */
  lemma IouCountsCells(a: seq<Rect>, b: seq<Rect>, n: nat)
    requires AllValid(a) && AllValid(b) && OnLattice(a, n) && OnLattice(b, n)
    ensures Intersection(a, b) == CellCount(Both(a, b), n) as real
    ensures Union(a, b) == CellCount(Either(a, b), n) as real
    ensures a != [] && b != [] ==>
              && CellCount(Either(a, b), n) > 0
              && Iou(a, b) == CellCount(Both(a, b), n) as real / CellCount(Either(a, b), n) as real
  {
    CellArea(a, b, Both(a, b), n);
    CellArea(a, b, Either(a, b), n);
    UnionContains(a, b);
  }

  // ----- rescaling

  function Times(s: real, t: real): real { s * t }

  function ScaleGrid(s: real, xs: seq<real>): seq<real> {
    if xs == [] then [] else [Times(s, xs[0])] + ScaleGrid(s, xs[1..])
  }

  lemma SumScaled(s: real, x: real, y: real)
    ensures s * (x + y) == s * x + s * y
  {
  }

  lemma HalfScaled(s: real, x: real)
    ensures s * (x / 2.0) == s * x / 2.0
  {
  }

  lemma TimesOrder(s: real, t: real, u: real)
    requires s > 0.0
    ensures t < u <==> Times(s, t) < Times(s, u)
    ensures t == u <==> Times(s, t) == Times(s, u)
    ensures Mid(Times(s, t), Times(s, u)) == Times(s, Mid(t, u))
    ensures Times(s, u) - Times(s, t) == Times(s, u - t)
  {
    if t < u { Positive(s, u - t); }
    if u < t { Positive(s, t - u); }
    SumScaled(s, u - t, t);
    SumScaled(s, t, u);
    HalfScaled(s, t + u);
  }

  lemma {:induction false} ScaleGridAt(s: real, xs: seq<real>)
    ensures |ScaleGrid(s, xs)| == |xs| && forall i :: 0 <= i < |xs| ==> ScaleGrid(s, xs)[i] == Times(s, xs[i])
  {
    if xs != [] { ScaleGridAt(s, xs[1..]); }
  }

  lemma ScaleAscends(s: real, xs: seq<real>)
    requires s > 0.0 && Ascending(xs)
    ensures Ascending(ScaleGrid(s, xs))
    ensures forall x :: x in xs ==> Times(s, x) in ScaleGrid(s, xs)
  {
    ScaleGridAt(s, xs);
    forall i, j | 0 <= i < j < |xs| ensures ScaleGrid(s, xs)[i] < ScaleGrid(s, xs)[j] { TimesOrder(s, xs[i], xs[j]); }
    forall x | x in xs ensures Times(s, x) in ScaleGrid(s, xs) {
      var i :| 0 <= i < |xs| && xs[i] == x;
      assert ScaleGrid(s, xs)[i] == Times(s, x);
    }
  }

  lemma StripScaled(s: real, k: real, width: real, height: real, others: real, width': real, height': real,
                    others': real)
    requires width' == Times(s, width) && height' == Times(k, height) && others' == Times(s, Times(k, others))
    ensures width' * height' + others' == Times(s, Times(k, width * height + others))
  {
    ProductScaled(s, k, width, height);
    SumScaled(k, width * height, others);
    SumScaled(s, k * (width * height), k * others);
  }

  lemma ProductScaled(s: real, k: real, width: real, height: real)
    ensures s * width * (k * height) == s * (k * (width * height))
  {
  }

  /** Stretching the grid by s and the values by k multiplies the sum. */
  lemma {:induction false} IntegralScaled(f: real -> real, g: real -> real, xs: seq<real>, s: real, k: real)
    requires s > 0.0 && forall t :: g(Times(s, t)) == Times(k, f(t))
    ensures Integral(g, ScaleGrid(s, xs)) == Times(s, Times(k, Integral(f, xs)))
  {
    if |xs| >= 2 {
      IntegralScaled(f, g, xs[1..], s, k);
      assert xs == [xs[0]] + xs[1..];
      StripOfScaled(f, g, xs[0], xs[1..], s, k);
    } else {
      ScaleGridAt(s, xs);
    }
  }

  lemma StripOfScaled(f: real -> real, g: real -> real, x: real, rest: seq<real>, s: real, k: real)
    requires s > 0.0 && rest != [] && g(Times(s, Mid(x, rest[0]))) == Times(k, f(Mid(x, rest[0])))
    requires Integral(g, ScaleGrid(s, rest)) == Times(s, Times(k, Integral(f, rest)))
    ensures Integral(g, [Times(s, x)] + ScaleGrid(s, rest)) == Times(s, Times(k, Integral(f, [x] + rest)))
  {
    Unfold(f, x, rest);
    Unfold(g, Times(s, x), ScaleGrid(s, rest));
    TimesOrder(s, x, rest[0]);
    StripScaled(s, k, rest[0] - x, f(Mid(x, rest[0])), Integral(f, rest),
                Times(s, rest[0]) - Times(s, x), g(Mid(Times(s, x), Times(s, rest[0]))),
                Integral(g, ScaleGrid(s, rest)));
  }

  function ScaleRect(s: real, k: real, r: Rect): Rect {
    Rect(Times(s, r.x), Times(k, r.y), Times(s, r.right), Times(k, r.bottom))
  }

  function ScaleRects(s: real, k: real, rects: seq<Rect>): seq<Rect> {
    if rects == [] then [] else ScaleRects(s, k, rects[..|rects| - 1]) + [ScaleRect(s, k, rects[|rects| - 1])]
  }

  lemma {:induction false} ScaledCover(s: real, k: real, rects: seq<Rect>, px: real, py: real)
    requires s > 0.0 && k > 0.0
    ensures Covered(ScaleRects(s, k, rects), Times(s, px), Times(k, py)) == Covered(rects, px, py)
  {
    if rects != [] {
      var front, r := rects[..|rects| - 1], rects[|rects| - 1];
      ScaledCover(s, k, front, px, py);
      OneMore(front, r, px, py);
      OneMore(ScaleRects(s, k, front), ScaleRect(s, k, r), Times(s, px), Times(k, py));
      TimesOrder(s, px, r.x);
      TimesOrder(s, px, r.right);
      TimesOrder(k, py, r.y);
      TimesOrder(k, py, r.bottom);
      assert rects == front + [r];
    }
  }

  lemma {:induction false} ScaledThrough(s: real, k: real, rects: seq<Rect>, xs: seq<real>, ys: seq<real>)
    requires s > 0.0 && k > 0.0 && Through(rects, xs, ys)
    ensures Through(ScaleRects(s, k, rects), ScaleGrid(s, xs), ScaleGrid(k, ys))
  {
    ScaleAscends(s, xs);
    ScaleAscends(k, ys);
    if rects != [] {
      var front, r := rects[..|rects| - 1], rects[|rects| - 1];
      assert rects == front + [r];
      ScaledThrough(s, k, front, xs, ys);
      assert r in rects;
    }
  }

  lemma AreaScaled(p: Region, q: Region, xs: seq<real>, ys: seq<real>, s: real, k: real)
    requires s > 0.0 && k > 0.0 && forall px, py :: q(Times(s, px), Times(k, py)) == p(px, py)
    ensures Area(q, ScaleGrid(s, xs), ScaleGrid(k, ys)) == Times(s, Times(k, Area(p, xs, ys)))
  {
    forall t ensures LineLength(q, ScaleGrid(k, ys))(Times(s, t)) == Times(k, LineLength(p, ys)(t)) {
      forall u ensures Indicator(q, Times(s, t))(Times(k, u)) == Times(1.0, Indicator(p, t)(u)) {}
      IntegralScaled(Indicator(p, t), Indicator(q, Times(s, t)), ys, k, 1.0);
    }
    IntegralScaled(LineLength(p, ys), LineLength(q, ScaleGrid(k, ys)), xs, s, k);
  }

  lemma {:induction false} ScaledValid(s: real, k: real, rects: seq<Rect>)
    requires s > 0.0 && k > 0.0 && AllValid(rects)
    ensures AllValid(ScaleRects(s, k, rects)) && (ScaleRects(s, k, rects) == [] <==> rects == [])
  {
    if rects != [] {
      var front, r := rects[..|rects| - 1], rects[|rects| - 1];
      assert rects == front + [r];
      ScaledValid(s, k, front);
      assert r in rects;
      TimesOrder(s, r.x, r.right);
      TimesOrder(k, r.y, r.bottom);
    }
  }

  lemma RegionScaled(a: seq<Rect>, b: seq<Rect>, s: real, k: real, p: Region, q: Region)
    requires s > 0.0 && k > 0.0
    requires (p == Both(a, b) && q == Both(ScaleRects(s, k, a), ScaleRects(s, k, b)))
             || (p == Either(a, b) && q == Either(ScaleRects(s, k, a), ScaleRects(s, k, b)))
    ensures var c, d := ScaleRects(s, k, a), ScaleRects(s, k, b);
            Area(q, GridX(c + d), GridY(c + d)) == Times(s, Times(k, Area(p, GridX(a + b), GridY(a + b))))
  {
    var c, d := ScaleRects(s, k, a), ScaleRects(s, k, b);
    var xs, ys := GridX(a + b), GridY(a + b);
    SharedGrid(a, b);
    SharedGrid(c, d);
    ScaledThrough(s, k, a, xs, ys);
    ScaledThrough(s, k, b, xs, ys);
    forall px, py ensures q(Times(s, px), Times(k, py)) == p(px, py) {
      ScaledCover(s, k, a, px, py);
      ScaledCover(s, k, b, px, py);
    }
    AreaScaled(p, q, xs, ys, s, k);
    EdgesResolve(c, d, q, GridX(c + d), GridY(c + d));
    EdgesResolve(c, d, q, ScaleGrid(s, xs), ScaleGrid(k, ys));
    AreaUnique(q, GridX(c + d), GridY(c + d), ScaleGrid(s, xs), ScaleGrid(k, ys));
  }

  lemma CancelScale(s: real, k: real, x: real, y: real)
    requires s > 0.0 && k > 0.0 && y > 0.0
    ensures Times(s, Times(k, y)) > 0.0 && Times(s, Times(k, x)) / Times(s, Times(k, y)) == x / y
  {
    Positive(k, y);
    Positive(s, k * y);
    var q := x / y;
    assert q * y == x;
    Moved(s, k, q, y);
    Quotient(q, Times(s, Times(k, x)), Times(s, Times(k, y)));
  }

  lemma Moved(s: real, k: real, q: real, y: real)
    ensures Times(s, Times(k, q * y)) == q * Times(s, Times(k, y))
  {
  }

  lemma Quotient(q: real, x: real, y: real)
    requires y > 0.0 && x == q * y
    ensures x / y == q
  {
  }

  /** Pixel and normalized coordinates give the same score. */
  lemma IouScaleFree(a: seq<Rect>, b: seq<Rect>, s: real, k: real)
    requires s > 0.0 && k > 0.0 && AllValid(a) && AllValid(b)
    ensures AllValid(ScaleRects(s, k, a)) && AllValid(ScaleRects(s, k, b))
    ensures Iou(ScaleRects(s, k, a), ScaleRects(s, k, b)) == Iou(a, b)
  {
    var c, d := ScaleRects(s, k, a), ScaleRects(s, k, b);
    ScaledValid(s, k, a);
    ScaledValid(s, k, b);
    RegionScaled(a, b, s, k, Both(a, b), Both(c, d));
    RegionScaled(a, b, s, k, Either(a, b), Either(c, d));
    UnionContains(a, b);
    if a != [] && b != [] { CancelScale(s, k, Intersection(a, b), Union(a, b)); }
  }
}
