/** Keyed placement of tiles on the slot grid, crop survivors first, and how
    many embedded tiles a centre crop leaves. */
module Tiles {
  import opened Collections
  import opened Numbers
  import opened Options
  import opened KeyedStream

  const MAX_PAGE_PIXELS := 40_000_000

  datatype Tile = Tile(x: nat, y: nat, size: nat)

  predicate Disjoint(t: Tile, u: Tile) {
    t.x + t.size <= u.x || u.x + u.size <= t.x || t.y + t.size <= u.y || u.y + u.size <= t.y
  }

  predicate InPage(t: Tile, height: nat, width: nat) { t.x + t.size <= width && t.y + t.size <= height }

  // ----- the slot grid

  function RowSlots(x: nat, y: nat, width: nat, size: nat): seq<Tile>
    requires size > 0
    decreases width - x
  {
    if x + size > width then [] else [Tile(x, y, size)] + RowSlots(x + size, y, width, size)
  }

  /** Row by row, every multiple of the tile size that fits. */
  function Slots(y: nat, height: nat, width: nat, size: nat): seq<Tile>
    requires size > 0
    decreases height - y
  {
    if y + size > height then [] else RowSlots(0, y, width, size) + Slots(y + size, height, width, size)
  }

  lemma {:induction false} RowSound(x: nat, y: nat, width: nat, size: nat)
    requires size > 0
    ensures forall t :: t in RowSlots(x, y, width, size) ==>
              t.size == size && t.y == y && x <= t.x && t.x + size <= width
    ensures PairwiseDisjoint(RowSlots(x, y, width, size))
    decreases width - x
  {
    if x + size <= width {
      RowSound(x + size, y, width, size);
      var rest := RowSlots(x + size, y, width, size);
      forall j | 0 <= j < |rest| ensures Disjoint(Tile(x, y, size), rest[j]) { assert rest[j] in rest; }
    }
  }

  ghost predicate PairwiseDisjoint(tiles: seq<Tile>) {
    forall i, j :: 0 <= i < j < |tiles| ==> Disjoint(tiles[i], tiles[j])
  }

  lemma {:induction false} SlotsSound(y: nat, height: nat, width: nat, size: nat)
    requires size > 0
    ensures forall t :: t in Slots(y, height, width, size) ==>
              t.size == size && y <= t.y && InPage(t, height, width)
    ensures PairwiseDisjoint(Slots(y, height, width, size))
    decreases height - y
  {
    if y + size <= height {
      SlotsSound(y + size, height, width, size);
      RowSound(0, y, width, size);
      var row, rest := RowSlots(0, y, width, size), Slots(y + size, height, width, size);
      forall i, j | 0 <= i < |row| && 0 <= j < |rest| ensures Disjoint(row[i], rest[j]) {
        assert row[i] in row && rest[j] in rest;
      }
    }
  }

  lemma NextMultiple(a: nat, b: nat, size: nat)
    requires size > 0 && a % size == 0 && b % size == 0
    ensures (a + size) % size == 0
    ensures a < b ==> a + size <= b
  {
    DivMod(a, size);
    DivMod(b, size);
    DivModUnique(a + size, a / size + 1, size);
    MulAtLeast(b / size - a / size, size);
  }

  lemma {:induction false} RowExactly(x: nat, y: nat, width: nat, size: nat, t: Tile)
    requires size > 0 && x % size == 0
    ensures t in RowSlots(x, y, width, size) <==>
            t.size == size && t.y == y && t.x % size == 0 && x <= t.x && t.x + size <= width
    decreases width - x
  {
    if x + size <= width {
      NextMultiple(x, x, size);
      RowExactly(x + size, y, width, size, t);
      if t.x % size == 0 { NextMultiple(x, t.x, size); }
    }
  }

  /** The slots are all grid tiles that fit the page. */
  lemma {:induction false} SlotsExactly(y: nat, height: nat, width: nat, size: nat, t: Tile)
    requires size > 0 && y % size == 0
    ensures t in Slots(y, height, width, size) <==>
            t.size == size && t.x % size == 0 && t.y % size == 0 && y <= t.y && InPage(t, height, width)
    decreases height - y
  {
    if y + size <= height {
      NextMultiple(y, y, size);
      SlotsExactly(y + size, height, width, size, t);
      DivModUnique(0, 0, size);
      RowExactly(0, y, width, size, t);
      if t.y % size == 0 { NextMultiple(y, t.y, size); }
    }
  }

  lemma DisjointDistinct(tiles: seq<Tile>)
    requires PairwiseDisjoint(tiles) && forall t :: t in tiles ==> t.size > 0
    ensures Distinct(tiles)
  {
    forall i, j | 0 <= i < j < |tiles| ensures tiles[i] != tiles[j] {
      assert tiles[i] in tiles && Disjoint(tiles[i], tiles[j]);
    }
  }

  // ----- crop windows

  datatype Window = Window(x0: int, y0: int, width: int, height: int)

  /** The centred window a retained scale leaves. */
  function CentreWindow(height: nat, width: nat, scale: real): Window {
    var retainedHeight, retainedWidth := Round(height as real * scale), Round(width as real * scale);
    Window((width - retainedWidth) / 2, (height - retainedHeight) / 2, retainedWidth, retainedHeight)
  }

  predicate Inside(t: Tile, w: Window) {
    w.x0 <= t.x && w.y0 <= t.y && t.x + t.size <= w.x0 + w.width && t.y + t.size <= w.y0 + w.height
  }

  predicate Survives(t: Tile, height: nat, width: nat, scales: seq<real>) {
    forall k :: 0 <= k < |scales| ==> Inside(t, CentreWindow(height, width, scales[k]))
  }

  /** The loop that returns at the first window the tile leaves. */
  method SurvivesCenterCrops(t: Tile, height: nat, width: nat, scales: seq<real>) returns (survives: bool)
    ensures survives <==> Survives(t, height, width, scales)
  {
    for k := 0 to |scales|
      invariant forall j :: 0 <= j < k ==> Inside(t, CentreWindow(height, width, scales[j]))
    {
      var retainedHeight, retainedWidth := Round(height as real * scales[k]), Round(width as real * scales[k]);
      var y0, x0 := (height - retainedHeight) / 2, (width - retainedWidth) / 2;
      if !(x0 <= t.x && y0 <= t.y && t.x + t.size <= x0 + retainedWidth && t.y + t.size <= y0 + retainedHeight) {
        assert !Inside(t, CentreWindow(height, width, scales[k]));
        return false;
      }
    }
    return true;
  }

  // ----- placement

  function Surviving(height: nat, width: nat, scales: seq<real>): Tile -> bool {
    (t: Tile) => Survives(t, height, width, scales)
  }

  function Vulnerable(height: nat, width: nat, scales: seq<real>): Tile -> bool {
    (t: Tile) => !Survives(t, height, width, scales)
  }

  /** Survivors before the rest, each in shuffled order. */
  function Arranged(order: seq<Tile>, height: nat, width: nat, scales: seq<real>): seq<Tile> {
    Keep(order, Surviving(height, width, scales)) + Keep(order, Vulnerable(height, width, scales))
  }

  datatype Layout = PageTooLarge | PageTooSmall | TooFewSlots | StreamExhausted | Tiled(tiles: seq<Tile>)

  method SplitSurvivors(order: seq<Tile>, height: nat, width: nat, scales: seq<real>) returns (arranged: seq<Tile>)
    ensures arranged == Arranged(order, height, width, scales)
  {
    var cropSurvivors, cropVulnerable: seq<Tile> := [], [];
    for i := 0 to |order|
      invariant cropSurvivors == Keep(order[..i], Surviving(height, width, scales))
      invariant cropVulnerable == Keep(order[..i], Vulnerable(height, width, scales))
    {
      KeepMore(order[..i], order[i], Surviving(height, width, scales));
      KeepMore(order[..i], order[i], Vulnerable(height, width, scales));
      assert order[..i + 1] == order[..i] + [order[i]];
      var survives := SurvivesCenterCrops(order[i], height, width, scales);
      if survives { cropSurvivors := cropSurvivors + [order[i]]; }
      else { cropVulnerable := cropVulnerable + [order[i]]; }
    }
    assert order[..|order|] == order;
    arranged := cropSurvivors + cropVulnerable;
  }

  lemma {:induction false} KeepBoth(tiles: seq<Tile>, p: Tile -> bool, q: Tile -> bool)
    requires forall t :: p(t) <==> !q(t)
    ensures multiset(tiles) == multiset(Keep(tiles, p)) + multiset(Keep(tiles, q))
  {
    if tiles != [] {
      var front, last := tiles[..|tiles| - 1], tiles[|tiles| - 1];
      KeepBoth(front, p, q);
      LastInMultiset(front, last);
      LastInMultiset(Keep(front, p), last);
      LastInMultiset(Keep(front, q), last);
      assert tiles == front + [last];
      if p(last) {
        assert Keep(tiles, p) == Keep(front, p) + [last] && Keep(tiles, q) == Keep(front, q);
      } else {
        assert Keep(tiles, p) == Keep(front, p) && Keep(tiles, q) == Keep(front, q) + [last];
      }
    }
  }

  lemma LastInMultiset<T>(s: seq<T>, x: T)
    ensures multiset(s + [x]) == multiset(s) + multiset{x}
  {
  }

  lemma SameLength<T>(a: seq<T>, b: seq<T>)
    requires multiset(a) == multiset(b)
    ensures |a| == |b|
  {
    assert |a| == |multiset(a)| && |b| == |multiset(b)|;
  }

  /** Arranging loses and invents nothing. */
  lemma ArrangedPermutes(order: seq<Tile>, height: nat, width: nat, scales: seq<real>)
    ensures multiset(Arranged(order, height, width, scales)) == multiset(order)
    ensures |Arranged(order, height, width, scales)| == |order|
  {
    KeepBoth(order, Surviving(height, width, scales), Vulnerable(height, width, scales));
    SameLength(Arranged(order, height, width, scales), order);
  }

  method ShuffleSlots(slots: seq<Tile>, rng: HmacByteStream) returns (order: Option<seq<Tile>>)
    requires rng.Valid() && slots != []
    modifies rng
    ensures rng.Valid()
    ensures Shuffled(slots, |slots| - 1, rng.draw, old(rng.consumed))
         == if order.Some? then Some((order.value, rng.consumed)) else None
  {
    var candidates := new Tile[|slots|](i requires 0 <= i < |slots| => slots[i]);
    assert candidates[..] == slots;
    var ok := Shuffle(candidates, rng);
    return if ok then Some(candidates[..]) else None;
  }

  method DeriveTiles(height: nat, width: nat, size: nat, tilesPerPage: nat, scales: seq<real>, rng: HmacByteStream)
    returns (layout: Layout)
    requires size > 0 && rng.Valid()
    modifies rng
    ensures rng.Valid()
    ensures layout == Derived(height, width, size, tilesPerPage, scales, rng.draw, old(rng.consumed))
  {
    if height * width > MAX_PAGE_PIXELS { return PageTooLarge; }
    if size > height || size > width { return PageTooSmall; }
    var slots := Slots(0, height, width, size);
    if tilesPerPage > |slots| { return TooFewSlots; }
    ghost var start := rng.consumed;
    var order := ShuffleSlots(slots, rng);
    if order.None? { return StreamExhausted; }
    ShuffledPermutes(slots, |slots| - 1, rng.draw, start);
    SameLength(order.value, slots);
    ArrangedPermutes(order.value, height, width, scales);
    var arranged := SplitSurvivors(order.value, height, width, scales);
    return Tiled(arranged[..tilesPerPage]);
  }

  /** The layout as a function of the page, the profile and the keyed stream. */
  function Derived(height: nat, width: nat, size: nat, tilesPerPage: nat, scales: seq<real>, draw: Drawer, at: nat)
    : Layout
    requires size > 0 && Bounded(draw)
  {
    if height * width > MAX_PAGE_PIXELS then PageTooLarge
    else if size > height || size > width then PageTooSmall
    else
      var slots := Slots(0, height, width, size);
      if tilesPerPage > |slots| then TooFewSlots
      else Placed(Shuffled(slots, |slots| - 1, draw, at), tilesPerPage, height, width, scales)
  }

  function Fewer(a: nat, b: nat): nat { if a < b then a else b }

  /** tiles[:n] of a list that may be shorter. */
  function Leading(tiles: seq<Tile>, n: nat): seq<Tile> { tiles[..Fewer(n, |tiles|)] }

  function Placed(shuffled: Option<(seq<Tile>, nat)>, tilesPerPage: nat, height: nat, width: nat, scales: seq<real>)
    : Layout
  {
    match shuffled
    case None => StreamExhausted
    case Some((order, _)) => Tiled(Leading(Arranged(order, height, width, scales), tilesPerPage))
  }

  // ----- what every layout guarantees

  lemma SlotsDistinct(height: nat, width: nat, size: nat)
    requires size > 0
    ensures Distinct(Slots(0, height, width, size))
  {
    SlotsSound(0, height, width, size);
    DisjointDistinct(Slots(0, height, width, size));
  }

  lemma PermutedDisjoint(slots: seq<Tile>, tiles: seq<Tile>)
    requires PairwiseDisjoint(slots) && Distinct(tiles) && forall t :: t in tiles ==> t in slots
    ensures PairwiseDisjoint(tiles)
  {
    forall i, j | 0 <= i < j < |tiles| ensures Disjoint(tiles[i], tiles[j]) {
      assert tiles[i] in tiles && tiles[j] in tiles;
      var a :| 0 <= a < |slots| && slots[a] == tiles[i];
      var b :| 0 <= b < |slots| && slots[b] == tiles[j];
      assert a < b ==> Disjoint(slots[a], slots[b]);
      assert b < a ==> Disjoint(slots[b], slots[a]);
    }
  }

  /** The arranged slots behind a layout: distinct, and the slots in some order. */
  ghost predicate Arrangement(arranged: seq<Tile>, height: nat, width: nat, size: nat)
    requires size > 0
  {
    && Distinct(arranged) && |arranged| == |Slots(0, height, width, size)|
    && SetOf(arranged) == SetOf(Slots(0, height, width, size))
  }

  lemma PermutedArrangement(order: seq<Tile>, height: nat, width: nat, size: nat)
    requires size > 0 && multiset(order) == multiset(Slots(0, height, width, size))
    ensures Arrangement(order, height, width, size)
  {
    SlotsDistinct(height, width, size);
    PermutedDistinct(Slots(0, height, width, size), order);
  }

  lemma LayoutArranged(height: nat, width: nat, size: nat, tilesPerPage: nat, scales: seq<real>, draw: Drawer, at: nat)
    returns (order: seq<Tile>)
    requires size > 0 && Bounded(draw)
    requires Derived(height, width, size, tilesPerPage, scales, draw, at).Tiled?
    ensures Arrangement(order, height, width, size)
    ensures Arrangement(Arranged(order, height, width, scales), height, width, size)
    ensures tilesPerPage <= |Arranged(order, height, width, scales)|
    ensures Derived(height, width, size, tilesPerPage, scales, draw, at).tiles ==
            Arranged(order, height, width, scales)[..tilesPerPage]
  {
    var slots := Slots(0, height, width, size);
    order := Shuffled(slots, |slots| - 1, draw, at).value.0;
    ShuffledPermutes(slots, |slots| - 1, draw, at);
    ArrangedPermutes(order, height, width, scales);
    PermutedArrangement(order, height, width, size);
    PermutedArrangement(Arranged(order, height, width, scales), height, width, size);
  }

  /** Whatever the key shuffles to, the tiles are as many as requested, are
      slots of the page, and never overlap. */
  lemma LayoutSound(height: nat, width: nat, size: nat, tilesPerPage: nat, scales: seq<real>, draw: Drawer, at: nat)
    requires size > 0 && Bounded(draw)
    requires Derived(height, width, size, tilesPerPage, scales, draw, at).Tiled?
    ensures var tiles := Derived(height, width, size, tilesPerPage, scales, draw, at).tiles;
            && |tiles| == tilesPerPage && Distinct(tiles) && PairwiseDisjoint(tiles)
            && forall t :: t in tiles ==>
                 t in Slots(0, height, width, size) && t.size == size && InPage(t, height, width)
  {
    var tiles := Derived(height, width, size, tilesPerPage, scales, draw, at).tiles;
    var order := LayoutArranged(height, width, size, tilesPerPage, scales, draw, at);
    var arranged := Arranged(order, height, width, scales);
    var slots := Slots(0, height, width, size);
    SlotsSound(0, height, width, size);
    forall t | t in tiles ensures t in slots {
      assert t in arranged;
      assert t in SetOf(arranged);
    }
    PermutedDisjoint(slots, tiles);
  }

  lemma {:induction false} RowSize(x: nat, y: nat, width: nat, size: nat)
    requires size > 0 && x <= width
    ensures |RowSlots(x, y, width, size)| == (width - x) / size
    decreases width - x
  {
    if x + size <= width {
      RowSize(x + size, y, width, size);
      OneLess(width - x, size);
    } else {
      DivModUnique(width - x, 0, size);
    }
  }

  lemma OneLess(n: nat, size: nat)
    requires 0 < size <= n
    ensures n / size == (n - size) / size + 1
  {
    DivMod(n - size, size);
    DivModUnique(n, (n - size) / size + 1, size);
  }

  /** The page holds height / size rows of width / size slots. */
  lemma {:induction false} SlotCount(y: nat, height: nat, width: nat, size: nat)
    requires size > 0 && y <= height
    ensures |Slots(y, height, width, size)| == (height - y) / size * (width / size)
    decreases height - y
  {
    if y + size <= height {
      SlotCount(y + size, height, width, size);
      RowSize(0, y, width, size);
      OneLess(height - y, size);
      MoreRows((height - y - size) / size, width / size);
    } else {
      DivModUnique(height - y, 0, size);
    }
  }

  lemma MoreRows(rows: nat, columns: nat)
    ensures (rows + 1) * columns == rows * columns + columns
  {
  }

  /** A layout exists exactly on a page within the pixel ceiling that has the
      requested number of slots, and at least one, unless the stream ends. */
  lemma LayoutExists(height: nat, width: nat, size: nat, tilesPerPage: nat, scales: seq<real>, draw: Drawer, at: nat)
    requires size > 0 && Bounded(draw)
    ensures var layout := Derived(height, width, size, tilesPerPage, scales, draw, at);
            layout.Tiled? || layout.StreamExhausted? <==>
              && height * width <= MAX_PAGE_PIXELS && size <= height && size <= width
              && tilesPerPage <= height / size * (width / size)
  {
    SlotCount(0, height, width, size);
  }

  // ----- survivors

  /** Any prefix of the arranged slots holds as many survivors as it can. */
  lemma SurvivorsFirst(order: seq<Tile>, height: nat, width: nat, scales: seq<real>, k: nat)
    requires k <= |Arranged(order, height, width, scales)|
    ensures |Keep(Arranged(order, height, width, scales)[..k], Surviving(height, width, scales))| ==
            Fewer(k, |Keep(order, Surviving(height, width, scales))|)
  {
    var p, q := Surviving(height, width, scales), Vulnerable(height, width, scales);
    var a, b := Keep(order, p), Keep(order, q);
    forall t ensures (t in a ==> p(t)) && (t in b ==> !p(t)) {
      KeepMember(order, p, t);
      KeepMember(order, q, t);
    }
    if k <= |a| {
      assert (a + b)[..k] == a[..k];
      KeepAll(a[..k], p);
    } else {
      assert (a + b)[..k] == a + b[..k - |a|];
      KeepConcat(a, b[..k - |a|], p);
      KeepAll(a, p);
      KeepNone(b[..k - |a|], p);
    }
  }

  // ----- what a centre crop leaves

  /** The retained rectangle of a centre crop, in page fractions. */
  datatype Retained = Retained(x: real, y: real, width: real, height: real)

  function AtLeastOne(n: int): int { if n < 1 then 1 else n }

  /** The window the crop attack cuts: never empty. */
  function CropWindow(height: nat, width: nat, sideScale: real): Window {
    var retainedHeight := AtLeastOne(Round(height as real * sideScale));
    var retainedWidth := AtLeastOne(Round(width as real * sideScale));
    Window((width - retainedWidth) / 2, (height - retainedHeight) / 2, retainedWidth, retainedHeight)
  }

  function RetainedOf(w: Window, height: nat, width: nat): Retained
    requires height > 0 && width > 0
  {
    Retained(w.x0 as real / width as real, w.y0 as real / height as real,
             w.width as real / width as real, w.height as real / height as real)
  }

  function CropGeometry(height: nat, width: nat, sideScale: real): Retained
    requires height > 0 && width > 0
  {
    RetainedOf(CropWindow(height, width, sideScale), height, width)
  }

  predicate FromLeft(position: nat, start: real, full: nat) { position as real >= start * full as real }

  predicate UpTo(end: nat, start: real, extent: real, full: nat) { end as real <= (start + extent) * full as real }

  predicate InRetained(t: Tile, height: nat, width: nat, r: Retained) {
    && FromLeft(t.x, r.x, width) && FromLeft(t.y, r.y, height)
    && UpTo(t.x + t.size, r.x, r.width, width) && UpTo(t.y + t.size, r.y, r.height, height)
  }

  function Retains(height: nat, width: nat, r: Retained): Tile -> bool { (t: Tile) => InRetained(t, height, width, r) }

  method RemainingEmbeddedTiles(tiles: seq<Tile>, payloadRepetitions: nat, height: nat, width: nat, r: Retained)
    returns (remaining: nat)
    ensures remaining == |Keep(tiles[..Fewer(payloadRepetitions, |tiles|)], Retains(height, width, r))|
  {
    var embedded := tiles[..Fewer(payloadRepetitions, |tiles|)];
    remaining := 0;
    for i := 0 to |embedded|
      invariant remaining == |Keep(embedded[..i], Retains(height, width, r))|
    {
      KeepMore(embedded[..i], embedded[i], Retains(height, width, r));
      assert embedded[..i + 1] == embedded[..i] + [embedded[i]];
      if InRetained(embedded[i], height, width, r) { remaining := remaining + 1; }
    }
    assert embedded[..|embedded|] == embedded;
  }

  lemma Fraction(x: int, w: int, full: nat)
    requires full > 0
    ensures x as real / full as real * full as real == x as real
    ensures (x as real / full as real + w as real / full as real) * full as real == (x + w) as real
  {
  }

  lemma AxisInside(position: nat, size: nat, x0: int, w: int, full: nat)
    requires full > 0
    ensures FromLeft(position, x0 as real / full as real, full) <==> position >= x0
    ensures UpTo(position + size, x0 as real / full as real, w as real / full as real, full)
       <==> position + size <= x0 + w
  {
    Fraction(x0, w, full);
  }

  lemma RetainedIsCrop(t: Tile, height: nat, width: nat, w: Window)
    requires height > 0 && width > 0
    ensures InRetained(t, height, width, RetainedOf(w, height, width)) <==> Inside(t, w)
  {
    AxisInside(t.x, t.size, w.x0, w.width, width);
    AxisInside(t.y, t.size, w.y0, w.height, height);
  }

  lemma CropIsCentre(t: Tile, height: nat, width: nat, scale: real)
    requires t.size >= 2
    ensures Inside(t, CropWindow(height, width, scale)) <==> Inside(t, CentreWindow(height, width, scale))
  {
  }

  /** A tile of at least two pixels is in the retained rectangle exactly when
      it is in the placement's window for the same scale. */
  lemma RetainedIsWindow(t: Tile, height: nat, width: nat, scale: real)
    requires height > 0 && width > 0 && t.size >= 2
    ensures InRetained(t, height, width, CropGeometry(height, width, scale))
            <==> Inside(t, CentreWindow(height, width, scale))
  {
    RetainedIsCrop(t, height, width, CropWindow(height, width, scale));
    CropIsCentre(t, height, width, scale);
  }

  lemma SurvivingIsRetained(tiles: seq<Tile>, height: nat, width: nat, scale: real)
    requires height > 0 && width > 0 && forall t :: t in tiles ==> t.size >= 2
    ensures Keep(tiles, Retains(height, width, CropGeometry(height, width, scale))) ==
            Keep(tiles, Surviving(height, width, [scale]))
  {
    forall t | t in tiles
      ensures InRetained(t, height, width, CropGeometry(height, width, scale)) <==> Survives(t, height, width, [scale])
    {
      RetainedIsWindow(t, height, width, scale);
      assert Survives(t, height, width, [scale]) <==> Inside(t, CentreWindow(height, width, [scale][0]));
    }
    KeepSame(tiles, Retains(height, width, CropGeometry(height, width, scale)), Surviving(height, width, [scale]));
  }

  /** Optimality: against the crop the profile was laid out for, the embedded
      tiles that remain are as many as any choice of slots could keep. */
  lemma RemainingOptimal(height: nat, width: nat, size: nat, tilesPerPage: nat, scale: real, draw: Drawer, at: nat,
                         payloadRepetitions: nat, choice: seq<Tile>)
    requires size >= 2 && Bounded(draw) && payloadRepetitions <= tilesPerPage
    requires Derived(height, width, size, tilesPerPage, [scale], draw, at).Tiled?
    requires Distinct(choice) && |choice| <= payloadRepetitions
    requires forall t :: t in choice ==> t in Slots(0, height, width, size)
    ensures height > 0 && width > 0
    ensures var tiles := Derived(height, width, size, tilesPerPage, [scale], draw, at).tiles;
            var kept := Retains(height, width, CropGeometry(height, width, scale));
            && |tiles| == tilesPerPage
            && |Keep(tiles[..payloadRepetitions], kept)| ==
               Fewer(payloadRepetitions, |Keep(Slots(0, height, width, size), kept)|)
            && |Keep(choice, kept)| <= |Keep(tiles[..payloadRepetitions], kept)|
  {
    var slots := Slots(0, height, width, size);
    var tiles := Derived(height, width, size, tilesPerPage, [scale], draw, at).tiles;
    var order := LayoutArranged(height, width, size, tilesPerPage, [scale], draw, at);
    var survive := Surviving(height, width, [scale]);
    var embedded := tiles[..payloadRepetitions];
    LayoutSound(height, width, size, tilesPerPage, [scale], draw, at);
    SlotsSound(0, height, width, size);
    assert embedded == Arranged(order, height, width, [scale])[..payloadRepetitions];
    SurvivorsFirst(order, height, width, [scale], payloadRepetitions);
    SameKept(order, slots, survive);
    forall t | t in embedded ensures t.size >= 2 { assert t in tiles; }
    SurvivingIsRetained(embedded, height, width, scale);
    SurvivingIsRetained(slots, height, width, scale);
    SurvivingIsRetained(choice, height, width, scale);
    SlotsDistinct(height, width, size);
    KeepSubset(choice, slots, survive);
    KeepAtMost(choice, survive);
  }

  lemma SameKept(order: seq<Tile>, slots: seq<Tile>, p: Tile -> bool)
    requires Distinct(order) && Distinct(slots) && SetOf(order) == SetOf(slots)
    ensures |Keep(order, p)| == |Keep(slots, p)|
  {
    forall t ensures t in order <==> t in slots { assert t in SetOf(order) <==> t in SetOf(slots); }
    KeepSubset(order, slots, p);
    KeepSubset(slots, order, p);
  }
}
