/** Embedding followed by the 8-bit raster pass never costs a bit: the error
    budget from pixel luminance through the transforms to the votes. */
module RoundTrip {
  import opened Collections
  import opened Numbers
  import opened Transform
  import opened Placement
  import opened Codeword
  import opened DctCodec
  import opened Raster
  import Qim
  import Haar

  // ----- voting on agreeing replicas

  predicate Agree(replicas: Replicas, start: int, n: nat, bit: int, bound: real) {
    forall q :: start <= q < start + n ==> replicas(q).bit == bit && replicas(q).confidence >= bound
  }

  lemma {:induction false} AgreeingWeight(replicas: Replicas, start: int, n: nat, bit: int, bound: real)
    requires Agree(replicas, start, n, bit, bound)
    ensures Weight(replicas, start, n, bit) >= n as real * bound
    ensures Weight(replicas, start, n, 1 - bit) == 0.0
    ensures Dissent(replicas, start, n, bit) == 0
  {
    if n > 0 { AgreeingWeight(replicas, start, n - 1, bit, bound); }
  }

  lemma AgreeingBit(replicas: Replicas, i: nat, bit: int, bound: real)
    requires bit in {0, 1} && bound > 0.0 && Agree(replicas, i * REPLICATION, REPLICATION, bit, bound)
    ensures Winner(replicas, i) == bit && WinningConfidence(replicas, i) >= bound
    ensures Dissent(replicas, i * REPLICATION, REPLICATION, Winner(replicas, i)) == 0
  {
    AgreeingWeight(replicas, i * REPLICATION, REPLICATION, bit, bound);
  }

  predicate Unanimous(replicas: Replicas, codeword: seq<int>, bound: real)
    requires IsCodeword(codeword)
  {
    forall q :: 0 <= q < REPLICATION * BITS ==>
      replicas(q).bit == Unpacked(codeword, q / REPLICATION) && replicas(q).confidence >= bound
  }

  lemma AgreeingReplicas(replicas: Replicas, codeword: seq<int>, bound: real, i: nat)
    requires IsCodeword(codeword) && i < BITS && Unanimous(replicas, codeword, bound)
    ensures Agree(replicas, i * REPLICATION, REPLICATION, Unpacked(codeword, i), bound)
  {
    assert forall q :: i * REPLICATION <= q < i * REPLICATION + REPLICATION ==> q / REPLICATION == i;
  }

  lemma UnanimousBit(replicas: Replicas, codeword: seq<int>, bound: real, i: nat)
    requires IsCodeword(codeword) && i < BITS && bound > 0.0 && Unanimous(replicas, codeword, bound)
    ensures Winner(replicas, i) == Unpacked(codeword, i) && WinningConfidence(replicas, i) >= bound
    ensures Dissent(replicas, i * REPLICATION, REPLICATION, Winner(replicas, i)) == 0
  {
    AgreeingReplicas(replicas, codeword, bound, i);
    AgreeingBit(replicas, i, Unpacked(codeword, i), bound);
  }

  lemma {:induction false} NoDisagreement(replicas: Replicas, codeword: seq<int>, bound: real, n: nat)
    requires IsCodeword(codeword) && n <= BITS && bound > 0.0 && Unanimous(replicas, codeword, bound)
    ensures Disagreement(replicas, n) == 0
  {
    if n > 0 {
      NoDisagreement(replicas, codeword, bound, n - 1);
      UnanimousBit(replicas, codeword, bound, n - 1);
    }
  }

  predicate ReadsBack(e: Evidence, codeword: seq<int>, bound: real) {
    e.codeword == codeword && e.erasePositions == [] && e.meanConfidence >= bound && e.bitErrorHint == 0.0
  }

  lemma ZeroRate(total: nat)
    requires total > 0
    ensures Rate(0, total) == 0.0
  {
  }

  lemma UnanimousVote(replicas: Replicas, codeword: seq<int>, bound: real)
    requires IsCodeword(codeword) && bound >= CONFIDENCE_MIN && Unanimous(replicas, codeword, bound)
    ensures ReadsBack(Vote(replicas, BITS), codeword, bound)
  {
    forall i | 0 <= i < BITS
      ensures Winners(replicas)(i) == Unpacked(codeword, i) && WinningConfidences(replicas)(i) >= bound
    {
      UnanimousBit(replicas, codeword, bound, i);
    }
    NoDisagreement(replicas, codeword, bound, BITS);
    ZeroRate(REPLICATION * BITS);
    CollectExact(codeword, Winners(replicas), WinningConfidences(replicas), CONFIDENCE_MIN, 0.0, bound);
  }

  // ----- noise in the LL band

  predicate CloseImage(f: Field, g: Field, n: nat, e: real) {
    forall y, x :: 0 <= y < n && 0 <= x < n ==> Abs(f(y, x) - g(y, x)) <= e
  }

  lemma SelfClose(f: Field, n: nat)
    ensures CloseImage(f, f, n, 0.0)
  {
    assert Abs(0.0) == 0.0;
  }

  lemma NoisyPair(t: BlockTransform, clean: Field, noisy: Field, row: int, column: int, pair: nat, e: real)
    requires t.Laws() && CloseOnBlock(BlockAt(noisy, row, column), BlockAt(clean, row, column), e)
    ensures var (a, b) := PairOf(CoefficientsAt(t, clean, row, column), pair);
            var (c, d) := PairOf(CoefficientsAt(t, noisy, row, column), pair);
            Abs((c - d) - (a - b)) <= 32.0 * e
  {
    assert t.Stable(BlockAt(noisy, row, column), BlockAt(clean, row, column), e);
  }

  /** A replica outlives LL noise of e per sample while 32 e is a share of
      the lattice step below one half. */
  lemma ReplicaSurvives(t: BlockTransform, ll: Field, noisy: Field, bits: int -> int, positions: seq<nat>, edge: nat,
                        delta: real, share: real, e: real, q: nat)
    requires t.Laws() && delta > 0.0 && edge > 0 && q < |positions| && Distinct(positions)
    requires positions[q] < CapacityOf(edge) && bits(q) in {0, 1}
    requires 0.0 <= share < 0.5 && 32.0 * e == share * delta
    requires CloseImage(noisy, EmbedBits(t, ll, bits, positions, edge, delta, |positions|), 8 * edge, e)
    ensures var x := Replica(t, noisy, positions[q], edge, delta);
            x.bit == bits(q) && x.confidence >= 1.0 - 2.0 * share
  {
    PositionInBand(positions[q], edge);
    ReplicaSurvivesAt(t, ll, noisy, bits, positions, edge, delta, share, e, q);
  }

  /** The two bands are close on the block that holds a position. */
  ghost predicate CloseAt(f: Field, g: Field, position: nat, edge: nat, e: real)
    requires edge > 0
  {
    CloseOnBlock(BlockAt(f, Row(position, edge), ColumnAt(position, edge)),
                 BlockAt(g, Row(position, edge), ColumnAt(position, edge)), e)
  }

  /** Only the noise in its own block matters to a replica. */
  lemma ReplicaSurvivesAt(t: BlockTransform, ll: Field, noisy: Field, bits: int -> int, positions: seq<nat>, edge: nat,
                          delta: real, share: real, e: real, q: nat)
    requires t.Laws() && delta > 0.0 && edge > 0 && q < |positions| && Distinct(positions)
    requires bits(q) in {0, 1} && 0.0 <= share < 0.5 && 32.0 * e == share * delta
    requires CloseAt(noisy, EmbedBits(t, ll, bits, positions, edge, delta, |positions|), positions[q], edge, e)
    ensures var x := Replica(t, noisy, positions[q], edge, delta);
            x.bit == bits(q) && x.confidence >= 1.0 - 2.0 * share
  {
    var p := positions[q];
    var clean := EmbedBits(t, ll, bits, positions, edge, delta, |positions|);
    NoisyPair(t, clean, noisy, Row(p, edge), ColumnAt(p, edge), PairIndex(p), e);
    NonInterference(t, ll, bits, positions, edge, delta, |positions|, p);
    NoisyLattice(PairIn(t, ll, p, edge), PairIn(t, noisy, p, edge), bits(q), delta, share);
  }

  lemma NoisyLattice(original: (real, real), noisy: (real, real), bit: int, delta: real, share: real)
    requires delta > 0.0 && bit in {0, 1} && 0.0 <= share < 0.5
    requires var (a, b) := Modulate(original, bit, delta); Abs((noisy.0 - noisy.1) - (a - b)) <= share * delta
    ensures var x := Qim.ExtractPair(noisy.0, noisy.1, delta);
            x.bit == bit && x.confidence >= 1.0 - 2.0 * share
  {
    Qim.EmbedLands(original.0, original.1, bit, delta);
    Qim.ExtractNear(noisy.0, noisy.1, Qim.Target(original.0 - original.1, bit, delta), delta, share);
  }

  // ----- noise in the tile

  /** Pixel noise of d per sample is LL noise of at most 2 d. */
  lemma LowBandNoise(root2: real, clean: Haar.Bands, noisy: Field, edge: nat, d: real)
    requires root2 > 0.0 && root2 * root2 == 2.0
    requires CloseImage(noisy, Haar.Idwt2(root2, clean), 16 * edge, d)
    ensures CloseImage(Haar.Dwt2(root2, noisy, 16 * edge, 16 * edge).ll, clean.ll, 8 * edge, 2.0 * d)
  {
    forall y, x | 0 <= y < 8 * edge && 0 <= x < 8 * edge
      ensures Abs(Haar.Dwt2(root2, noisy, 16 * edge, 16 * edge).ll(y, x) - clean.ll(y, x)) <= 2.0 * d
    {
      NoisySample(root2, clean, noisy, 8 * edge, d, y, x);
    }
  }

  /** The two images are close on the four pixels of an LL sample. */
  predicate CloseQuad(f: Field, g: Field, y: int, x: int, d: real) {
    && Abs(f(2 * y, 2 * x) - g(2 * y, 2 * x)) <= d
    && Abs(f(2 * y, 2 * x + 1) - g(2 * y, 2 * x + 1)) <= d
    && Abs(f(2 * y + 1, 2 * x) - g(2 * y + 1, 2 * x)) <= d
    && Abs(f(2 * y + 1, 2 * x + 1) - g(2 * y + 1, 2 * x + 1)) <= d
  }

  lemma NoisySample(root2: real, clean: Haar.Bands, noisy: Field, n: nat, d: real, y: nat, x: nat)
    requires root2 > 0.0 && root2 * root2 == 2.0 && y < n && x < n
    requires CloseQuad(noisy, Haar.Idwt2(root2, clean), y, x, d)
    ensures Abs(Haar.Dwt2(root2, noisy, 2 * n, 2 * n).ll(y, x) - clean.ll(y, x)) <= 2.0 * d
  {
    var image := Haar.Idwt2(root2, clean);
    Haar.LowSample(root2, noisy, n, n, y, x);
    Haar.QuadSynthesis(root2, clean, y, x);
    FourClose(noisy(2 * y, 2 * x), noisy(2 * y, 2 * x + 1), noisy(2 * y + 1, 2 * x), noisy(2 * y + 1, 2 * x + 1),
              image(2 * y, 2 * x), image(2 * y, 2 * x + 1), image(2 * y + 1, 2 * x), image(2 * y + 1, 2 * x + 1), d);
  }

  lemma FourClose(a: real, b: real, c: real, d: real, a': real, b': real, c': real, d': real, e: real)
    requires Abs(a - a') <= e && Abs(b - b') <= e && Abs(c - c') <= e && Abs(d - d') <= e
    ensures Abs((a + b + c + d) / 2.0 - (a' + b' + c' + d') / 2.0) <= 2.0 * e
  {
  }

  /** Any tile within d of the embedded one reads back exactly, with no
      erasures, while 64 d is at most one fifth of the lattice step. */
  lemma TileSurvives(codec: Codec, tile: Field, noisy: Field, codeword: seq<int>, share: real, d: real)
    requires codec.Valid() && IsCodeword(codeword)
    requires 0.0 <= share <= 0.2 && 64.0 * d == share * codec.delta
    requires CloseImage(noisy, codec.Embed(tile, codeword), codec.tileSize, d)
    ensures ReadsBack(codec.Extract(noisy), codeword, 1.0 - 2.0 * share)
  {
    var bands := codec.Analyse(tile);
    var band := codec.Analyse(noisy).ll;
    BandClose(codec, tile, noisy, codeword, d);
    BandSurvives(codec, bands.ll, band, codeword, share, 2.0 * d);
    UnanimousVote(ReplicasOf(codec.t, band, codec.positions, codec.Edge(), codec.delta), codeword, 1.0 - 2.0 * share);
  }

  lemma BandClose(codec: Codec, tile: Field, noisy: Field, codeword: seq<int>, d: real)
    requires codec.Valid() && CloseImage(noisy, codec.Embed(tile, codeword), codec.tileSize, d)
    ensures CloseImage(codec.Analyse(noisy).ll, codec.EmbedBand(codec.Analyse(tile).ll, codeword), 8 * codec.Edge(),
                       2.0 * d)
  {
    LowBandClose(codec, codec.Analyse(tile), codec.EmbedBand(codec.Analyse(tile).ll, codeword), noisy, d);
  }

  lemma LowBandClose(codec: Codec, bands: Haar.Bands, clean: Field, noisy: Field, d: real)
    requires codec.Ready() && codec.root2 * codec.root2 == 2.0
    requires CloseImage(noisy, Haar.Idwt2(codec.root2, bands.(ll := clean)), codec.tileSize, d)
    ensures CloseImage(codec.Analyse(noisy).ll, clean, 8 * codec.Edge(), 2.0 * d)
  {
    assert codec.tileSize == 16 * codec.Edge();
    LowBandNoise(codec.root2, bands.(ll := clean), noisy, codec.Edge(), d);
  }

  lemma BandSurvives(codec: Codec, ll: Field, noisy: Field, codeword: seq<int>, share: real, e: real)
    requires codec.Valid() && IsCodeword(codeword)
    requires 0.0 <= share <= 0.2 && 32.0 * e == share * codec.delta
    requires CloseImage(noisy, codec.EmbedBand(ll, codeword), 8 * codec.Edge(), e)
    ensures Unanimous(ReplicasOf(codec.t, noisy, codec.positions, codec.Edge(), codec.delta), codeword,
                      1.0 - 2.0 * share)
  {
    var replicas := ReplicasOf(codec.t, noisy, codec.positions, codec.Edge(), codec.delta);
    forall q | 0 <= q < REPLICATION * BITS
      ensures replicas(q).bit == Unpacked(codeword, q / REPLICATION) && replicas(q).confidence >= 1.0 - 2.0 * share
    {
      ReplicaSurvives(codec.t, ll, noisy, ReplicatedBits(codeword), codec.positions, codec.Edge(), codec.delta,
                      share, e, q);
    }
  }

  /** Without noise every replica is certain: confidence one throughout. */
  lemma ExactRoundTrip(codec: Codec, tile: Field, codeword: seq<int>)
    requires codec.Valid() && IsCodeword(codeword)
    ensures ReadsBack(codec.Extract(codec.Embed(tile, codeword)), codeword, 1.0)
  {
    SelfClose(codec.Embed(tile, codeword), codec.tileSize);
    assert 0.0 * codec.delta == 0.0;
    TileSurvives(codec, tile, codec.Embed(tile, codeword), codeword, 0.0, 0.0);
  }

  // ----- the raster pass

  predicate PageBytes(page: Page, n: nat) {
    forall y, x :: 0 <= y < n && 0 <= x < n ==> page(y, x).Bytes()
  }

  predicate NothingClips(page: Page, modified: Field, n: nat) {
    forall y, x :: 0 <= y < n && 0 <= x < n ==>
      Unclipped(page(y, x), LuminanceOf(page)(y, x), modified(y, x))
  }

  lemma RasterClose(page: Page, modified: Field, n: nat)
    requires PageBytes(page, n) && NothingClips(page, modified, n)
    ensures CloseImage(LuminanceOf(ReplaceLuminanceOnce(page, LuminanceOf(page), modified)), modified, n, 0.0925)
  {
    forall y, x | 0 <= y < n && 0 <= x < n
      ensures Abs(LuminanceOf(ReplaceLuminanceOnce(page, LuminanceOf(page), modified))(y, x) - modified(y, x)) <= 0.0925
    {
      PixelError(page(y, x), modified(y, x));
    }
  }

  /** The largest raster error in coefficient differences, in lattice steps. */
  function RasterShare(delta: real): real
    requires delta > 0.0
  {
    5.92 / delta
  }

  lemma ShareBound(delta: real)
    requires delta >= 29.6
    ensures 0.0 <= RasterShare(delta) <= 0.2 && 64.0 * 0.0925 == RasterShare(delta) * delta
    ensures RasterShare(32.0) == 0.185
  {
    var share := RasterShare(delta);
    assert share * delta == 5.92;
    ScaleAbs(share, 0.2, delta);
  }

  /** Rounding to 8-bit BGR never costs a bit: for every page region, tile
      luminance, codeword and placement, if no written pixel clips then
      extraction from the raster returns the exact codeword and erases
      nothing. At the frozen lattice step of 32 the share is 0.185, so every
      bit is at least 63% confident. */
  lemma RasterRoundTrip(codec: Codec, page: Page, tile: Field, codeword: seq<int>)
    requires codec.Valid() && codec.delta >= 29.6 && IsCodeword(codeword)
    requires PageBytes(page, codec.tileSize) && NothingClips(page, codec.Embed(tile, codeword), codec.tileSize)
    ensures var image := ReplaceLuminanceOnce(page, LuminanceOf(page), codec.Embed(tile, codeword));
            ReadsBack(codec.Extract(LuminanceOf(image)), codeword, 1.0 - 2.0 * RasterShare(codec.delta))
  {
    ShareBound(codec.delta);
    var image := ReplaceLuminanceOnce(page, LuminanceOf(page), codec.Embed(tile, codeword));
    RasterClose(page, codec.Embed(tile, codeword), codec.tileSize);
    TileSurvives(codec, tile, LuminanceOf(image), codeword, RasterShare(codec.delta), 0.0925);
  }
}
