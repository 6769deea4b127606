/** Why the spread codec is saturation-safe: blank tiles are recognised, pushed
    away from the end of the scale they sit at, and so keep their codeword. */
module Saturation {
  import opened Collections
  import opened Numbers
  import opened Codeword
  import opened SpreadChips
  import opened SpreadCodec
  import opened PageCodec
  import opened PageRoundTrip
  import opened Tiles
  import opened Transform
  import DctCodec
  import PayloadVotes
  import Raster

  // ----- the chosen direction has room

  /** A tile in the upper half of the scale is darkened, which never clips. */
  lemma BrightHeadroom(host: seq<real>, groups: seq<Chips>, codeword: seq<int>, delta: real)
    requires host != [] && |groups| == BITS && IsCodeword(codeword) && 0.0 < delta <= 127.5
    requires forall x :: 0 <= x < |host| ==> host[x] >= 127.5
    ensures PolarityOf(host) == Darken && Headroom(host, groups, codeword, delta, PolarityOf(host))
  {
    MeanAtLeast(|host|, Values(host), 127.5);
  }

  /** One in the lower half is lightened, which never clips either. */
  lemma DarkHeadroom(host: seq<real>, groups: seq<Chips>, codeword: seq<int>, delta: real)
    requires host != [] && |groups| == BITS && IsCodeword(codeword) && 0.0 < delta <= 127.5
    requires forall x :: 0 <= x < |host| ==> host[x] < 127.5
    ensures PolarityOf(host) == Lighten && Headroom(host, groups, codeword, delta, PolarityOf(host))
  {
    MeanBelow(|host|, Values(host), 127.5);
  }

  // ----- a saturated tile is pushed away from its saturation

  lemma {:induction false} SumOfBright(n: nat, f: int -> real, p: nat -> bool)
    requires forall i: nat :: i < n ==> f(i) >= if p(i) then 239.0 else 0.0
    ensures Sum(n, f) >= 239.0 * Count(n, p) as real
  {
    if n > 0 { SumOfBright(n - 1, f, p); }
  }

  lemma {:induction false} SumOfDark(n: nat, f: int -> real, p: nat -> bool)
    requires forall i: nat :: i < n ==> f(i) <= if p(i) then 16.0 else 255.0
    ensures Sum(n, f) <= 255.0 * n as real - 239.0 * Count(n, p) as real
  {
    if n > 0 { SumOfDark(n - 1, f, p); }
  }

  lemma ThreeQuarters(count: nat, n: nat)
    requires n > 0
    ensures DctCodec.Rate(count, n) >= 0.75 <==> 4 * count >= 3 * n
  {
    var q := DctCodec.Rate(count, n);
    assert q * n as real == count as real;
    ScaleOrder(q, 0.75, n as real);
  }

  lemma MeanUnscaled(n: nat, f: int -> real, bound: real)
    requires n > 0
    ensures Mean(n, f) >= bound <==> Sum(n, f) >= bound * n as real
  {
    assert Mean(n, f) * n as real == Sum(n, f);
    ScaleOrder(Mean(n, f), bound, n as real);
  }

  lemma BrightMean(n: nat, f: int -> real, bright: nat)
    requires n > 0 && 4 * bright >= 3 * n && Sum(n, f) >= 239.0 * bright as real
    ensures Mean(n, f) >= 127.5
  {
    MeanUnscaled(n, f, 127.5);
  }

  lemma DarkMean(n: nat, f: int -> real, dark: nat)
    requires n > 0 && 4 * dark >= 3 * n && Sum(n, f) <= 255.0 * n as real - 239.0 * dark as real
    ensures Mean(n, f) < 127.5
  {
    MeanUnscaled(n, f, 127.5);
  }

  lemma MostlyBright(s: seq<real>)
    requires s != [] && 4 * Count(|s|, Bright(s, 239.0)) >= 3 * |s|
    ensures PolarityOf(Clamped(s)) == Darken
  {
    var values := Values(Clamped(s));
    forall i: nat | i < |s| ensures values(i) >= if Bright(s, 239.0)(i) then 239.0 else 0.0 {
      assert values(i) == Clamp(s[i]);
    }
    SumOfBright(|s|, values, Bright(s, 239.0));
    BrightMean(|s|, values, Count(|s|, Bright(s, 239.0)));
  }

  lemma MostlyDark(s: seq<real>)
    requires s != [] && 4 * Count(|s|, Dark(s, 16.0)) >= 3 * |s|
    ensures PolarityOf(Clamped(s)) == Lighten
  {
    var values := Values(Clamped(s));
    forall i: nat | i < |s| ensures values(i) <= if Dark(s, 16.0)(i) then 16.0 else 255.0 {
      assert values(i) == Clamp(s[i]);
    }
    SumOfDark(|s|, values, Dark(s, 16.0));
    DarkMean(|s|, values, Count(|s|, Dark(s, 16.0)));
  }

  predicate FrozenLevels(p: Profile) { p.high == 239.0 && p.low == 16.0 && p.saturatedFraction == 0.75 }

  /** Under the frozen levels a tile takes the spread carrier exactly when three
      quarters of it are nearly white, and it is then darkened, or nearly black,
      and it is then lightened: no tile is both. */
  lemma SaturatedPolarity(p: Profile, rows: Samples)
    requires p.Ready() && FrozenLevels(p)
    ensures var s := p.Flattened(rows);
            var white, black := 4 * Count(|s|, Bright(s, p.high)) >= 3 * |s|, 4 * Count(|s|, Dark(s, p.low)) >= 3 * |s|;
            && (p.Saturated(rows) <==> white || black) && !(white && black)
            && (white ==> PolarityOf(p.Host(rows)) == Darken) && (black ==> PolarityOf(p.Host(rows)) == Lighten)
  {
    var s := p.Flattened(rows);
    ThreeQuarters(Count(|s|, Bright(s, p.high)), |s|);
    ThreeQuarters(Count(|s|, Dark(s, p.low)), |s|);
    if 4 * Count(|s|, Bright(s, p.high)) >= 3 * |s| { MostlyBright(s); }
    if 4 * Count(|s|, Dark(s, p.low)) >= 3 * |s| { MostlyDark(s); }
  }

  // ----- nearly blank tiles

  /** Every sample is within r of one luminance v. */
  ghost predicate NearlyBlank(s: seq<real>, v: real, r: real) { forall x :: 0 <= x < |s| ==> Abs(s[x] - v) <= r }

  lemma GroupNear(host: seq<real>, g: seq<nat>, v: real, r: real)
    requires g != [] && (forall x :: x in g ==> x < |host|) && NearlyBlank(host, v, r)
    ensures v - r <= GroupMean(host, g) <= v + r
  {
    forall k | 0 <= k < |g| ensures v - r <= Picked(host, g)(k) <= v + r { assert g[k] in g; }
    MeanAtLeast(|g|, Picked(host, g), v - r);
    MeanAtMost(|g|, Picked(host, g), v + r);
  }

  lemma BlankDifference(host: seq<real>, g: Chips, v: real, r: real)
    requires GroupSound(g, |host|) && NearlyBlank(host, v, r)
    ensures g.a != [] && g.b != [] && Abs(Difference(host, g)) <= 2.0 * r
  {
    GroupNear(host, g.a, v, r);
    GroupNear(host, g.b, v, r);
  }

  lemma ClampNear(x: real, v: real, r: real)
    requires 0.0 <= v <= 255.0 && Abs(x - v) <= r
    ensures Abs(Clamp(x) - v) <= r
  {
  }

  /** A nearly blank tile needs no headroom hypothesis: whatever is embedded,
      the chosen direction has room and the groups are balanced. */
  lemma BlankBalanced(p: Profile, rows: Samples, codeword: seq<int>, v: real, r: real)
    requires p.Valid() && IsCodeword(codeword) && p.spreadDelta <= 127.5
    requires 0.0 <= v <= 255.0 && NearlyBlank(p.Flattened(rows), v, r)
    requires 2.0 * r + 2.0 * RASTER_ERROR <= (1.0 - CONFIDENCE_MIN) * p.spreadDelta
    requires v - r >= 127.5 || v + r < 127.5
    ensures Balanced(p, rows, codeword)
  {
    var s, host := p.Flattened(rows), p.Host(rows);
    forall x | 0 <= x < |host| ensures Abs(host[x] - v) <= r { ClampNear(s[x], v, r); }
    if v - r >= 127.5 {
      BrightHeadroom(host, p.groups, codeword, p.spreadDelta);
    } else {
      DarkHeadroom(host, p.groups, codeword, p.spreadDelta);
    }
    forall i | 0 <= i < BITS
      ensures Abs(Difference(host, p.groups[i]))
              <= (1.0 - CONFIDENCE_MIN) * p.spreadDelta - 2.0 * RASTER_ERROR
    {
      assert GroupSound(p.groups[i], |host|);
      BlankDifference(host, p.groups[i], v, r);
    }
  }

  /** A tile all at or above `high`, or all at or below `low`, is recognised as
      saturated; one strictly between the two levels is not. */
  lemma BlankSaturated(p: Profile, rows: Samples)
    requires p.Ready() && 0.0 < p.saturatedFraction <= 1.0
    ensures (forall x :: 0 <= x < p.Size() * p.Size() ==> p.Flattened(rows)[x] >= p.high) ==> p.Saturated(rows)
    ensures (forall x :: 0 <= x < p.Size() * p.Size() ==> p.Flattened(rows)[x] <= p.low) ==> p.Saturated(rows)
    ensures (forall x :: 0 <= x < p.Size() * p.Size() ==> p.low < p.Flattened(rows)[x] < p.high) ==> !p.Saturated(rows)
  {
    var s := p.Flattened(rows);
    CountAll(|s|, Bright(s, p.high));
    CountAll(|s|, Dark(s, p.low));
    CountNone(|s|, Bright(s, p.high));
    CountNone(|s|, Dark(s, p.low));
    WholeRate(|s|);
  }

  lemma WholeRate(n: nat)
    requires n > 0
    ensures DctCodec.Rate(n, n) == 1.0 && DctCodec.Rate(0, n) == 0.0
  {
  }

  /** Every sample of a white or black tile, with a faint pilot on it. */
  ghost predicate Blank(p: Profile, rows: Samples, v: real, r: real)
    requires p.Ready()
  {
    && NearlyBlank(p.Flattened(rows), v, r)
    && (if v == 255.0 then 255.0 - r >= p.high >= 127.5 else v == 0.0 && r <= p.low < 127.5)
    && 2.0 * r + 2.0 * RASTER_ERROR <= (1.0 - CONFIDENCE_MIN) * p.spreadDelta
  }

  /** White and black tiles survive: if no pixel clips in the raster pass, the
      spread reading at the polarity the tile calls for is the sent codeword,
      unerased. */
  lemma BlankSurvives(e: Print, k: nat, v: real, r: real)
    requires e.Valid() && k < |e.tiles| && e.Unclipped(k) && Blank(e.profile, e.Found(k), v, r)
    requires 0.0 < e.profile.saturatedFraction <= 1.0 && e.profile.spreadDelta <= 127.5
    ensures e.profile.Saturated(e.Found(k)) && e.Robust(k)
    ensures e.Polarity(k) == if v == 255.0 then Darken else Lighten
    ensures Clean(PayloadVotes.SpreadReading(e.profile, e.Received(k), e.Polarity(k)), e.codeword)
  {
    var p, rows := e.profile, e.Found(k);
    BlankSaturated(p, rows);
    BlankBalanced(p, rows, e.codeword, v, r);
    BlankPolarity(p, rows, v, r);
    TileClose(e, k);
    SpreadReads(p, rows, e.Received(k), e.codeword);
  }

  lemma BlankPolarity(p: Profile, rows: Samples, v: real, r: real)
    requires p.Ready() && Blank(p, rows, v, r)
    ensures PolarityOf(p.Host(rows)) == if v == 255.0 then Darken else Lighten
  {
    var s, host := p.Flattened(rows), p.Host(rows);
    forall x | 0 <= x < |host| ensures Abs(host[x] - v) <= r { ClampNear(s[x], v, r); }
    if v == 255.0 {
      MeanAtLeast(|host|, Values(host), 127.5);
    } else {
      MeanBelow(|host|, Values(host), 127.5);
    }
  }

  // ----- gray pages never clip

  /** Every pixel under the tile is gray. */
  ghost predicate Gray(e: Print, k: nat)
    requires k < |e.tiles|
  {
    forall y, x :: InTile(e.tiles[k], y, x) ==> GrayPixel(e.page(y, x))
  }

  predicate GrayPixel(p: Raster.Pixel) { p.Bytes() && p.b == p.g == p.r }

  lemma SpreadedOnScale(s: seq<real>, groups: seq<Chips>, codeword: seq<int>, delta: real, polarity: Polarity, i: int)
    requires BITS <= |groups| && BITS <= 8 * |codeword| && delta >= 0.0
    ensures 0.0 <= Values(Spreaded(Clamped(s), groups, codeword, delta, polarity))(i) <= 255.0
  {
    if 0 <= i < |s| {
      assert 0.0 <= Clamped(s)[i] <= 255.0;
    }
  }

  lemma SpreadOnScale(p: Profile, rows: Samples, codeword: seq<int>, y: int, x: int)
    requires p.Ready() && IsCodeword(codeword) && p.Saturated(rows)
    ensures 0.0 <= p.Carry(rows, codeword)(y, x) <= 255.0
  {
    SpreadedOnScale(p.Flattened(rows), p.groups, codeword, p.spreadDelta, PolarityOf(p.Host(rows)), y * p.Size() + x);
  }

  /** A saturated tile of a gray page fits the raster pass whatever it carries. */
  lemma GrayUnclipped(e: Print, k: nat)
    requires e.Valid() && k < |e.tiles| && e.profile.Saturated(e.Found(k)) && Gray(e, k)
    ensures e.Unclipped(k)
  {
    var carry := e.profile.CarrierOf(e.codeword);
    var found, after := e.Found(k), e.After(|e.tiles|);
    assert found == Cut(EmbedTiles(carry, e.pilot, e.tiles, k), e.tiles[k]);
    CarrierOnScale(e.profile, found, e.codeword);
    forall y, x | InTile(e.tiles[k], y, x) ensures Fits(e.page(y, x), after(y, x)) {
      GrayPixelFits(carry, e.pilot, e.tiles, k, e.page(y, x), y, x);
    }
  }

  lemma GrayPixelFits(carry: Carrier, pilot: Field, tiles: seq<Tile>, k: nat, p: Raster.Pixel, y: int, x: int)
    requires k < |tiles| && PairwiseDisjoint(tiles) && InTile(tiles[k], y, x) && GrayPixel(p)
    requires OnScale(carry(Cut(EmbedTiles(carry, pilot, tiles, k), tiles[k])))
    ensures Fits(p, EmbedTiles(carry, pilot, tiles, |tiles|)(y, x))
  {
    CarriedOnScale(carry, pilot, tiles, k, y, x);
    GrayFits(p, EmbedTiles(carry, pilot, tiles, |tiles|)(y, x));
  }

  ghost predicate OnScale(f: Field) { forall y, x :: 0.0 <= f(y, x) <= 255.0 }

  lemma CarrierOnScale(p: Profile, rows: Samples, codeword: seq<int>)
    requires p.Ready() && IsCodeword(codeword) && p.Saturated(rows)
    ensures OnScale(p.CarrierOf(codeword)(rows))
  {
    forall y, x ensures 0.0 <= p.CarrierOf(codeword)(rows)(y, x) <= 255.0 { SpreadOnScale(p, rows, codeword, y, x); }
  }

  lemma GrayFits(p: Raster.Pixel, modified: real)
    requires GrayPixel(p) && 0.0 <= modified <= 255.0
    ensures Fits(p, modified)
  {
    Raster.GrayNeverClips(p, modified);
  }

  lemma CarriedOnScale(carry: Carrier, pilot: Field, tiles: seq<Tile>, k: nat, y: int, x: int)
    requires k < |tiles| && PairwiseDisjoint(tiles) && InTile(tiles[k], y, x)
    requires 0.0 <= carry(Cut(EmbedTiles(carry, pilot, tiles, k), tiles[k]))(y - tiles[k].y, x - tiles[k].x) <= 255.0
    ensures 0.0 <= EmbedTiles(carry, pilot, tiles, |tiles|)(y, x) <= 255.0
  {
    var dy, dx := y - tiles[k].y, x - tiles[k].x;
    assert y == tiles[k].y + dy && x == tiles[k].x + dx;
    CarriedAt(carry, pilot, tiles, k, dy, dx);
  }

  /** A white or black tile of a gray page survives with no further hypothesis on
      what it carries or on the key. */
  lemma GrayBlankSurvives(e: Print, k: nat, v: real, r: real)
    requires e.Valid() && k < |e.tiles| && Gray(e, k) && Blank(e.profile, e.Found(k), v, r)
    requires 0.0 < e.profile.saturatedFraction <= 1.0 && e.profile.spreadDelta <= 127.5
    ensures e.profile.Saturated(e.Found(k)) && e.Robust(k)
    ensures e.Polarity(k) == if v == 255.0 then Darken else Lighten
    ensures Clean(PayloadVotes.SpreadReading(e.profile, e.Received(k), e.Polarity(k)), e.codeword)
  {
    BlankSaturated(e.profile, e.Found(k));
    GrayUnclipped(e, k);
    BlankSurvives(e, k, v, r);
  }

  // ----- the carrier itself

  /** Spreading keeps samples on the scale and moves each by at most delta. */
  lemma SpreadStays(host: seq<real>, spread: seq<real>, groups: seq<Chips>, codeword: seq<int>, delta: real,
                    polarity: Polarity)
    requires IsCodeword(codeword) && |groups| == BITS && delta >= 0.0
    requires IsSpread(host, spread, groups, codeword, BITS, delta, polarity)
    requires forall x :: 0 <= x < |host| ==> 0.0 <= host[x] <= 255.0
    ensures forall x :: 0 <= x < |host| ==> 0.0 <= spread[x] <= 255.0 && Abs(spread[x] - host[x]) <= delta
  {
  }

  /** A byte is erased exactly when one of its bits has a group difference under
      three fifths of delta. */
  lemma SpreadErasedExactly(s: seq<real>, groups: seq<Chips>, delta: real, polarity: Polarity, j: nat)
    requires |groups| == BITS && NonEmpty(groups) && delta > 0.0 && j < BYTES
    ensures j in Extracted(s, groups, delta, polarity).erasePositions
       <==> exists i :: 8 * j <= i < 8 * j + 8 && Abs(Difference(s, groups[i])) < CONFIDENCE_MIN * delta
  {
    var confidences := Confidences(s, groups, delta);
    ErasedExactly(Bits(s, groups, polarity), confidences, CONFIDENCE_MIN, 0.0, j);
    forall i | 8 * j <= i < 8 * j + 8
      ensures confidences(i) < CONFIDENCE_MIN <==> Abs(Difference(s, groups[i])) < CONFIDENCE_MIN * delta
    {
      assert confidences(i) == ReadConfidence(Difference(s, groups[i]), delta);
      WeakExactly(Difference(s, groups[i]), delta);
    }
  }

  lemma WeakExactly(difference: real, delta: real)
    requires delta > 0.0
    ensures ReadConfidence(difference, delta) < CONFIDENCE_MIN <==> Abs(difference) < CONFIDENCE_MIN * delta
  {
    QuotientBelow(Abs(difference), delta, CONFIDENCE_MIN);
  }

  /** A bit's confidence is the reached share of delta, and one from delta on. */
  lemma ConfidenceExactly(difference: real, delta: real, share: real)
    requires delta > 0.0 && 0.0 <= share <= 1.0
    ensures 0.0 <= ReadConfidence(difference, delta) <= 1.0
    ensures ReadConfidence(difference, delta) < share <==> Abs(difference) < share * delta
  {
    QuotientBelow(Abs(difference), delta, share);
    QuotientBelow(Abs(difference), delta, 0.0);
  }

  lemma QuotientBelow(x: real, delta: real, share: real)
    requires delta > 0.0
    ensures x / delta < share <==> x < share * delta
  {
    var q := x / delta;
    assert q * delta == x;
    ScaleOrder(q, share, delta);
  }

  /** The mean confidence lies between any two bounds of the bits' confidences. */
  lemma SpreadMeanBetween(s: seq<real>, groups: seq<Chips>, delta: real, polarity: Polarity, low: real, high: real)
    requires |groups| == BITS && NonEmpty(groups) && delta > 0.0
    requires forall i :: 0 <= i < BITS ==> low <= ReadConfidence(Difference(s, groups[i]), delta) <= high
    ensures low <= Extracted(s, groups, delta, polarity).meanConfidence <= high
  {
    MeanAtLeast(BITS, Confidences(s, groups, delta), low);
    MeanAtMost(BITS, Confidences(s, groups, delta), high);
  }
}
