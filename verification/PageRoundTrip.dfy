/** A fingerprinted page, from the luminance its tiles are embedded in to the
    identity the decoder attributes. */
module PageRoundTrip {
  import opened Collections
  import opened Numbers
  import opened Options
  import opened Transform
  import opened Placement
  import opened Codeword
  import opened DctCodec
  import opened Raster
  import opened PageCodec
  import opened PayloadVotes
  import BlockLoss
  import KeyedStream
  import SpreadCodec
  import RoundTrip
  import Tiles
  import Voting

  // What the raster pass may move a pixel's luminance by.
  const RASTER_ERROR: real := 0.0925

  /** The orthonormal block transform, a placement derived from any key and a
      positive lattice step make a codec. */
  lemma FrozenCodec(basis: Basis, tileSize: nat, positions: seq<nat>, delta: real)
    requires basis.Valid() && tileSize >= 16 && tileSize % 16 == 0 && delta > 0.0
    requires ValidPlacement(positions, Capacity(tileSize))
    ensures Codec(DctTransform(basis), basis.root2, tileSize, positions, delta).Valid()
  {
    DctLaws(basis);
  }

  /** Whatever key selects them, the tiles have the profile's size and do not
      overlap. */
  lemma SelectedTiles(height: nat, width: nat, size: nat, tilesPerPage: nat, scales: seq<real>,
                      draw: KeyedStream.Drawer, at: nat, repetitions: nat)
    requires size > 0 && KeyedStream.Bounded(draw) && repetitions <= tilesPerPage
    requires Tiles.Derived(height, width, size, tilesPerPage, scales, draw, at).Tiled?
    ensures var tiles := Tiles.Derived(height, width, size, tilesPerPage, scales, draw, at).tiles;
            && repetitions <= |tiles| && Tiles.PairwiseDisjoint(tiles[..repetitions])
            && forall k :: 0 <= k < repetitions ==> tiles[..repetitions][k].size == size
  {
    var tiles := Tiles.Derived(height, width, size, tilesPerPage, scales, draw, at).tiles;
    Tiles.LayoutSound(height, width, size, tilesPerPage, scales, draw, at);
    forall k | 0 <= k < repetitions ensures tiles[..repetitions][k].size == size { assert tiles[k] in tiles; }
  }

  /** What is read from the page once its luminance was replaced. */
  function Rastered(page: Page, after: Field): Field {
    LuminanceOf(ReplaceLuminanceOnce(page, LuminanceOf(page), after))
  }

  /** One embedding: a candidate's profile, the original page, its luminance
      once the pilot is in, the selected tiles, and what they carry. */
  datatype Print = Print(profile: Profile, page: Page, pilot: Field, tiles: seq<Tiles.Tile>, codeword: seq<int>) {

    ghost predicate Valid() {
      && profile.Valid() && IsCodeword(codeword) && Tiles.PairwiseDisjoint(tiles)
      && forall k :: 0 <= k < |tiles| ==> tiles[k].size == profile.Size()
    }

    /** The luminance after the first n tiles. */
    function After(n: nat): Field
      requires profile.Ready() && IsCodeword(codeword) && n <= |tiles|
    {
      EmbedTiles(profile.CarrierOf(codeword), pilot, tiles, n)
    }

    /** The luminance of the 8-bit page that leaves the embedder. */
    function Luma(): Field
      requires profile.Ready() && IsCodeword(codeword)
    {
      Rastered(page, After(|tiles|))
    }

    /** Tile k's samples when its turn comes, and as they are received. */
    function Found(k: nat): Samples
      requires profile.Ready() && IsCodeword(codeword) && k < |tiles|
    {
      Cut(After(k), tiles[k])
    }

    function Received(k: nat): Samples
      requires profile.Ready() && IsCodeword(codeword) && k < |tiles|
    {
      Cut(Luma(), tiles[k])
    }

    function Polarity(k: nat): SpreadCodec.Polarity
      requires profile.Ready() && IsCodeword(codeword) && k < |tiles|
    {
      SpreadCodec.PolarityOf(profile.Host(Found(k)))
    }

    /** No pixel of the tile saturates in the raster pass. */
    ghost predicate Unclipped(k: nat)
      requires profile.Ready() && IsCodeword(codeword) && k < |tiles|
    {
      AllFit(page, After(|tiles|), tiles[k])
    }

    /** The tile's carrier has what it needs: a lattice step above the raster's
        reach, or headroom and balanced groups. */
    ghost predicate Robust(k: nat)
      requires Valid() && k < |tiles|
    {
      && Unclipped(k)
      && if profile.Saturated(Found(k)) then Balanced(profile, Found(k), codeword) else profile.codec.delta >= 29.6
    }
  }

  predicate Fits(p: Pixel, modified: real) { p.Bytes() && Raster.Unclipped(p, Luminance(p), modified) }

  ghost predicate AllFit(page: Page, after: Field, t: Tiles.Tile) {
    forall y, x :: InTile(t, y, x) ==> Fits(page(y, x), after(y, x))
  }

  /** Nothing saturates under the spread carrier, and every bit's groups are
      close in the host. */
  ghost predicate Balanced(p: Profile, rows: Samples, codeword: seq<int>)
    requires p.Valid() && IsCodeword(codeword)
  {
    var host := p.Host(rows);
    && SpreadCodec.Headroom(host, p.groups, codeword, p.spreadDelta, SpreadCodec.PolarityOf(host))
    && forall i :: 0 <= i < BITS ==>
         Abs(SpreadCodec.Difference(host, p.groups[i])) <= (1.0 - CONFIDENCE_MIN) * p.spreadDelta - 2.0 * RASTER_ERROR
  }

  // ----- from page pixels to tile samples

  lemma PixelClose(page: Page, after: Field, y: int, x: int)
    requires Fits(page(y, x), after(y, x))
    ensures Abs(Rastered(page, after)(y, x) - after(y, x)) <= RASTER_ERROR
  {
    PixelError(page(y, x), after(y, x));
  }

  /** Two luminances differ by the raster error at most inside a tile. */
  ghost predicate CloseInTile(f: Field, g: Field, t: Tiles.Tile) {
    forall y, x :: InTile(t, y, x) ==> Abs(f(y, x) - g(y, x)) <= RASTER_ERROR
  }

  lemma RasterClose(page: Page, after: Field, t: Tiles.Tile)
    requires AllFit(page, after, t)
    ensures CloseInTile(Rastered(page, after), after, t)
  {
    forall y, x | InTile(t, y, x) ensures Abs(Rastered(page, after)(y, x) - after(y, x)) <= RASTER_ERROR {
      PixelClose(page, after, y, x);
    }
  }

  lemma CarriedAt(carry: Carrier, pilot: Field, tiles: seq<Tiles.Tile>, k: nat, y: int, x: int)
    requires k < |tiles| && Tiles.PairwiseDisjoint(tiles) && 0 <= y < tiles[k].size && 0 <= x < tiles[k].size
    ensures EmbedTiles(carry, pilot, tiles, |tiles|)(tiles[k].y + y, tiles[k].x + x)
         == carry(Cut(EmbedTiles(carry, pilot, tiles, k), tiles[k]))(y, x)
  {
    TileKept(carry, pilot, tiles, |tiles|, k, tiles[k].y + y, tiles[k].x + x);
  }

  lemma SampleClose(carry: Carrier, pilot: Field, tiles: seq<Tiles.Tile>, received: Field, k: nat, y: int, x: int)
    requires k < |tiles| && Tiles.PairwiseDisjoint(tiles) && 0 <= y < tiles[k].size && 0 <= x < tiles[k].size
    requires CloseInTile(received, EmbedTiles(carry, pilot, tiles, |tiles|), tiles[k])
    ensures Abs(AsField(Cut(received, tiles[k]))(y, x)
                - carry(Cut(EmbedTiles(carry, pilot, tiles, k), tiles[k]))(y, x)) <= RASTER_ERROR
  {
    assert InTile(tiles[k], tiles[k].y + y, tiles[k].x + x);
    CutAt(received, tiles[k], y, x);
    CarriedAt(carry, pilot, tiles, k, y, x);
  }

  /** A received tile differs from its own carrier by the raster error alone:
      later tiles and the rest of the page do not matter. */
  lemma CarriedClose(carry: Carrier, pilot: Field, tiles: seq<Tiles.Tile>, received: Field, k: nat)
    requires k < |tiles| && Tiles.PairwiseDisjoint(tiles)
    requires CloseInTile(received, EmbedTiles(carry, pilot, tiles, |tiles|), tiles[k])
    ensures RoundTrip.CloseImage(AsField(Cut(received, tiles[k])),
                                 carry(Cut(EmbedTiles(carry, pilot, tiles, k), tiles[k])), tiles[k].size, RASTER_ERROR)
  {
    var t := tiles[k];
    forall y, x | 0 <= y < t.size && 0 <= x < t.size
      ensures Abs(AsField(Cut(received, t))(y, x) - carry(Cut(EmbedTiles(carry, pilot, tiles, k), t))(y, x))
              <= RASTER_ERROR
    {
      SampleClose(carry, pilot, tiles, received, k, y, x);
    }
  }

  lemma TileClose(e: Print, k: nat)
    requires e.Valid() && k < |e.tiles| && e.Unclipped(k)
    ensures RoundTrip.CloseImage(AsField(e.Received(k)), e.profile.CarrierOf(e.codeword)(e.Found(k)), e.profile.Size(),
                                 RASTER_ERROR)
  {
    RasterClose(e.page, e.After(|e.tiles|), e.tiles[k]);
    CarriedClose(e.profile.CarrierOf(e.codeword), e.pilot, e.tiles, e.Luma(), k);
  }

  // ----- each carrier reads back

  /** The reading is the sent codeword with nothing erased. */
  predicate Clean(r: Reading, codeword: seq<int>) { r.codeword == codeword && r.claim == [] }

  lemma DctReads(p: Profile, found: Samples, received: Samples, codeword: seq<int>)
    requires p.Valid() && IsCodeword(codeword) && p.codec.delta >= 29.6
    requires RoundTrip.CloseImage(AsField(received), p.codec.Embed(AsField(found), codeword), p.Size(), RASTER_ERROR)
    ensures Clean(DctReading(p, received), codeword)
  {
    var share := RoundTrip.RasterShare(p.codec.delta);
    RoundTrip.ShareBound(p.codec.delta);
    RoundTrip.TileSurvives(p.codec, AsField(found), AsField(received), codeword, share, RASTER_ERROR);
    FromClean(p.codec.Extract(AsField(received)), codeword, 1.0 - 2.0 * share);
  }

  lemma FromClean(e: Evidence, codeword: seq<int>, bound: real)
    requires RoundTrip.ReadsBack(e, codeword, bound)
    ensures Clean(FromDct(e), codeword)
  {
  }

  lemma FlatSample(spread: seq<real>, received: Samples, n: nat, i: nat)
    requires n > 0 && i < n * n == |spread|
    requires forall y, x :: 0 <= y < n && 0 <= x < n ==>
               Abs(AsField(received)(y, x) - SpreadCodec.Values(spread)(y * n + x)) <= RASTER_ERROR
    ensures Abs(Flat(received, n)[i] - spread[i]) <= RASTER_ERROR
  {
    GridIndex(i, n);
    assert Abs(AsField(received)(i / n, i % n) - SpreadCodec.Values(spread)(i / n * n + i % n)) <= RASTER_ERROR;
  }

  lemma FlatClose(p: Profile, spread: seq<real>, received: Samples)
    requires p.Ready() && |spread| == p.Size() * p.Size()
    requires RoundTrip.CloseImage(AsField(received), p.Unflattened(spread), p.Size(), RASTER_ERROR)
    ensures SpreadCodec.Close(spread, p.Flattened(received), RASTER_ERROR)
  {
    var n := p.Size();
    forall i | 0 <= i < n * n ensures Abs(Flat(received, n)[i] - spread[i]) <= RASTER_ERROR {
      FlatSample(spread, received, n, i);
    }
  }

  lemma GridIndex(i: nat, n: nat)
    requires n > 0 && i < n * n
    ensures i / n < n && i % n < n && i / n * n + i % n == i
  {
    DivMod(i, n);
    MulAtLeast(i / n - n, n);
    assert (i / n - n) * n == i / n * n - n * n;
  }

  lemma SpreadReads(p: Profile, found: Samples, received: Samples, codeword: seq<int>)
    requires p.Valid() && IsCodeword(codeword) && Balanced(p, found, codeword)
    requires RoundTrip.CloseImage(AsField(received), p.Unflattened(p.Spread(found, codeword)), p.Size(), RASTER_ERROR)
    ensures Clean(SpreadReading(p, received, SpreadCodec.PolarityOf(p.Host(found))), codeword)
  {
    var host, spread := p.Host(found), p.Spread(found, codeword);
    var polarity := SpreadCodec.PolarityOf(host);
    SpreadUnique(host, spread, p.groups, codeword, p.spreadDelta, polarity);
    FlatClose(p, spread, received);
    SpreadCodec.SpreadSurvives(host, spread, p.Flattened(received), p.groups, codeword, p.spreadDelta, polarity,
                               (1.0 - CONFIDENCE_MIN) * p.spreadDelta - 2.0 * RASTER_ERROR, RASTER_ERROR);
  }

  /** A robust tile of either carrier reads back its codeword, unerased, in the
      reading that is made for it. */
  lemma RobustReads(e: Print, read: Reader, k: nat) returns (r: nat)
    requires e.Valid() && read.Follows(e.profile) && k < |e.tiles| && e.Robust(k)
    ensures r < |read.Read(e.Received(k))| && Clean(read.Read(e.Received(k))[r], e.codeword)
  {
    TileClose(e, k);
    if e.profile.Saturated(e.Found(k)) {
      SpreadReads(e.profile, e.Found(k), e.Received(k), e.codeword);
      SpreadListed(e.profile, read, e.Received(k), e.Polarity(k));
      r := if e.Polarity(k) == SpreadCodec.Darken then 1 else 2;
    } else {
      DctReads(e.profile, e.Found(k), e.Received(k), e.codeword);
      DctListed(e.profile, read, e.Received(k));
      r := 0;
    }
  }

  lemma DctListed(p: Profile, read: Reader, rows: Samples)
    requires p.Ready() && read.Follows(p)
    ensures read.Read(rows)[0] == DctReading(p, rows)
  {
  }

  lemma SpreadListed(p: Profile, read: Reader, rows: Samples, polarity: SpreadCodec.Polarity)
    requires p.Ready() && read.Follows(p)
    ensures read.Read(rows)[if polarity == SpreadCodec.Darken then 1 else 2] == SpreadReading(p, rows, polarity)
  {
  }

  // ----- damage on the way

  /** The reading is the sent codeword, with affordable erasures. */
  predicate Sound(r: Reading, codeword: seq<int>) { r.codeword == codeword && Affordable(r.claim) }

  ghost predicate SameOutside(f: Field, g: Field, t: Tiles.Tile, edge: nat, block: nat) {
    forall y, x :: InTile(t, y, x) && !BlockLoss.IsOver(block, y - t.y, x - t.x, edge) ==> f(y, x) == g(y, x)
  }

  ghost predicate SameInTile(f: Field, g: Field, t: Tiles.Tile) {
    forall y, x :: InTile(t, y, x) ==> f(y, x) == g(y, x)
  }

  /** What may happen to tile k between embedder and decoder: nothing if it is
      a spread tile, the loss of one 16x16-pixel block otherwise. */
  ghost predicate Arrived(e: Print, luma: Field, k: nat)
    requires e.Valid() && k < |e.tiles|
  {
    if e.profile.Saturated(e.Found(k)) then SameInTile(luma, e.Luma(), e.tiles[k])
    else exists block: nat :: SameOutside(luma, e.Luma(), e.tiles[k], e.profile.codec.Edge(), block)
  }

  lemma CutSame(f: Field, g: Field, t: Tiles.Tile)
    requires SameInTile(f, g, t)
    ensures Cut(f, t) == Cut(g, t)
  {
    forall y | 0 <= y < t.size ensures CutRow(f, t, y) == CutRow(g, t, y) {
      forall x | 0 <= x < t.size ensures CutRow(f, t, y)[x] == CutRow(g, t, y)[x] {
        assert InTile(t, t.y + y, t.x + x);
      }
    }
  }

  lemma CutAgree(f: Field, g: Field, t: Tiles.Tile, edge: nat, block: nat)
    requires SameOutside(f, g, t, edge, block)
    ensures BlockLoss.AgreeOutside(AsField(Cut(f, t)), AsField(Cut(g, t)), t.size, edge, block)
  {
    forall y, x | 0 <= y < t.size && 0 <= x < t.size && !BlockLoss.IsOver(block, y, x, edge)
      ensures AsField(Cut(f, t))(y, x) == AsField(Cut(g, t))(y, x)
    {
      CutAt(f, t, y, x);
      CutAt(g, t, y, x);
      assert InTile(t, t.y + y, t.x + x);
    }
  }

  lemma DctDamaged(p: Profile, found: Samples, received: Samples, damaged: Samples, codeword: seq<int>, block: nat)
    requires p.Valid() && IsCodeword(codeword) && p.codec.delta >= 29.6
    requires RoundTrip.CloseImage(AsField(received), p.codec.Embed(AsField(found), codeword), p.Size(), RASTER_ERROR)
    requires BlockLoss.AgreeOutside(AsField(damaged), AsField(received), p.Size(), p.codec.Edge(), block)
    ensures Sound(DctReading(p, damaged), codeword)
  {
    var clean := p.codec.Embed(AsField(found), codeword);
    RoundTrip.ShareBound(p.codec.delta);
    BlockLoss.DamagedClose(AsField(damaged), AsField(received), clean, p.Size(), p.codec.Edge(), block, RASTER_ERROR);
    BlockLoss.OneBlockLost(p.codec, AsField(found), AsField(damaged), codeword, RoundTrip.RasterShare(p.codec.delta),
                           RASTER_ERROR, block);
    FromSound(p.codec.Extract(AsField(damaged)), codeword);
  }

  lemma FromSound(e: Evidence, codeword: seq<int>)
    requires e.codeword == codeword && |e.erasePositions| <= 2 && Distinct(e.erasePositions)
    requires forall j :: j in e.erasePositions ==> j < BYTES
    ensures Sound(FromDct(e), codeword)
  {
    forall k | 0 <= k < |e.erasePositions| ensures e.erasePositions[k] < BYTES {
      assert e.erasePositions[k] in e.erasePositions;
    }
  }

  /** A robust tile reads back its codeword from any page it arrived on. */
  lemma ArrivedReads(e: Print, read: Reader, luma: Field, k: nat) returns (r: nat)
    requires e.Valid() && read.Follows(e.profile) && k < |e.tiles| && e.Robust(k) && Arrived(e, luma, k)
    ensures r < |read.Read(Cut(luma, e.tiles[k]))| && Sound(read.Read(Cut(luma, e.tiles[k]))[r], e.codeword)
  {
    if e.profile.Saturated(e.Found(k)) {
      CutSame(luma, e.Luma(), e.tiles[k]);
      r := RobustReads(e, read, k);
    } else {
      var block: nat :| SameOutside(luma, e.Luma(), e.tiles[k], e.profile.codec.Edge(), block);
      var damaged := Cut(luma, e.tiles[k]);
      TileClose(e, k);
      CutAgree(luma, e.Luma(), e.tiles[k], e.profile.codec.Edge(), block);
      DctDamaged(e.profile, e.Found(k), e.Received(k), damaged, e.codeword, block);
      DctListed(e.profile, read, damaged);
      r := 0;
    }
  }

  // ----- votes

  /** Page a of the search is this luminance on the embedding's own canvas. */
  ghost predicate Aligned(e: Print, luma: Field, read: Reader, pages: seq<Alignment>, a: nat)
    requires e.Valid()
  {
    && read.Follows(e.profile) && a < |pages|
    && pages[a].tiles == PageReadings(read, luma, e.tiles, |e.tiles|)
  }

  lemma CleanVotes(framing: Framing, u: nat, pages: seq<Alignment>, a: nat, k: nat, r: nat)
    requires framing.Valid() && u < IDENTITIES && a < |pages| && k < |pages[a].tiles| && r < |pages[a].tiles[k]|
    requires Sound(pages[a].tiles[k][r], framing.Sent(framing.write(u)))
    ensures k in Voting.Tiles(AllVotes(BallotOf(framing), pages), Voting.Key(pages[a].candidate, u))
  {
    var reading := pages[a].tiles[k][r];
    CleanVote(framing, pages[a].SiteOf(k), u, reading);
    var v := Voting.Vote(pages[a].candidate, pages[a].geometry, k, reading.codec, u, Some(0.0));
    EveryReadingVotes(BallotOf(framing), pages, a, k, r, v);
  }

  /** A robust tile votes for the embedded identity. */
  lemma RobustVotes(e: Print, luma: Field, read: Reader, framing: Framing, u: nat, pages: seq<Alignment>, a: nat,
                    k: nat)
    requires framing.Valid() && u < IDENTITIES && e.Valid() && e.codeword == framing.Sent(framing.write(u))
    requires Aligned(e, luma, read, pages, a) && k < |e.tiles| && e.Robust(k) && Arrived(e, luma, k)
    ensures k in Voting.Tiles(AllVotes(BallotOf(framing), pages), Voting.Key(pages[a].candidate, u))
  {
    var r := ArrivedReads(e, read, luma, k);
    PageReadingAt(read, luma, e.tiles, |e.tiles|, k);
    CleanVotes(framing, u, pages, a, k, r);
  }

  /** Every searched candidate is embedded at least twice. */
  predicate Searched(pages: seq<Alignment>, repetitions: Voting.Repetitions) {
    forall i :: 0 <= i < |pages| ==> pages[i].candidate in repetitions && repetitions[pages[i].candidate] >= 2
  }

  lemma VotesRepeated(framing: Framing, pages: seq<Alignment>, repetitions: Voting.Repetitions)
    requires Searched(pages, repetitions)
    ensures Voting.Known(AllVotes(BallotOf(framing), pages), repetitions)
    ensures Voting.Repeated(AllVotes(BallotOf(framing), pages), repetitions)
  {
    var votes := AllVotes(BallotOf(framing), pages);
    forall v | v in votes ensures v.candidate in repetitions && repetitions[v.candidate] >= 2 {
      var i, k, r := Provenance(BallotOf(framing), pages, v);
      VoteSite(framing, pages[i].SiteOf(k), pages[i].tiles[k][r], v);
    }
  }

  /** Enough intact tiles form a quorum. */
  lemma IntactQuorum(votes: seq<Voting.Vote>, repetitions: Voting.Repetitions, c: nat, u: nat, intact: set<nat>)
    requires c in repetitions && repetitions[c] >= 2 && intact <= Voting.Tiles(votes, Voting.Key(c, u))
    requires |intact| >= 2 && |intact| as real >= Voting.SUPPORT_THRESHOLD * repetitions[c] as real
    ensures Voting.Carried(votes, repetitions, c, u)
  {
    var k := Voting.Key(c, u);
    Voting.OneVotePerTile(votes, k);
    Voting.KeyHasTile(votes, k);
    SubsetSize(intact, Voting.Tiles(votes, k));
    ShareReached(|Voting.Supporting(votes, k)|, repetitions[c], Voting.SUPPORT_THRESHOLD);
  }

  lemma ShareReached(n: nat, r: nat, share: real)
    requires r > 0 && n as real >= share * r as real
    ensures n as real / r as real >= share
  {
    ScaleOrder(n as real / r as real, share, r as real);
  }

  lemma QuorumDecides(votes: seq<Voting.Vote>, repetitions: Voting.Repetitions, geometryConfidence: real, c: nat,
                      u: nat)
    requires Voting.Known(votes, repetitions) && Voting.Repeated(votes, repetitions)
    requires Voting.Carried(votes, repetitions, c, u)
    ensures var d := Voting.Decide(votes, repetitions, geometryConfidence);
            && (d.identity == Some(u) <==> Voting.Unanimous(votes, u))
            && d.status == if Voting.Unanimous(votes, u) then Voting.Decoded else Voting.Conflicting
  {
    Voting.QuorumWins(votes, repetitions, c, u);
    Voting.IdentityMeansQuorum(votes, repetitions, geometryConfidence, u);
    var v := Voting.KeyVoted(votes, Voting.Key(c, u));
    Voting.OneIssuance(votes, u);
  }

  /** End to end: of a page whose luminance carries an identity's codeword in
      the selected tiles and is rounded once to 8-bit colour, if at least two
      tiles and three fifths of the repetitions are robust and arrive - each
      perhaps short of one block - the decoder attributes the page to that
      identity whatever else it searched, unless some other reading voted for
      somebody else, and then it reports the conflict and names nobody. */
  lemma PageAttributed(e: Print, luma: Field, read: Reader, framing: Framing, u: nat, pages: seq<Alignment>, a: nat,
                       intact: set<nat>, repetitions: Voting.Repetitions, geometryConfidence: real)
    requires framing.Valid() && u < IDENTITIES && e.Valid() && e.codeword == framing.Sent(framing.write(u))
    requires Aligned(e, luma, read, pages, a) && Searched(pages, repetitions)
    requires repetitions[pages[a].candidate] == |e.tiles|
    requires forall k :: k in intact ==> k < |e.tiles| && e.Robust(k) && Arrived(e, luma, k)
    requires |intact| >= 2 && |intact| as real >= Voting.SUPPORT_THRESHOLD * |e.tiles| as real
    ensures var votes := AllVotes(BallotOf(framing), pages);
            var d := Voting.Decide(votes, repetitions, geometryConfidence);
            && (d.identity == Some(u) <==> Voting.Unanimous(votes, u))
            && d.status == if Voting.Unanimous(votes, u) then Voting.Decoded else Voting.Conflicting
  {
    var votes := AllVotes(BallotOf(framing), pages);
    forall k | k in intact ensures k in Voting.Tiles(votes, Voting.Key(pages[a].candidate, u)) {
      RobustVotes(e, luma, read, framing, u, pages, a, k);
    }
    VotesRepeated(framing, pages, repetitions);
    IntactQuorum(votes, repetitions, pages[a].candidate, u, intact);
    QuorumDecides(votes, repetitions, geometryConfidence, pages[a].candidate, u);
  }
}
