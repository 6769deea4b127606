# SplitBind research core: a verified model

SplitBind marks pages with a fingerprint that survives light processing, checks
regions of a page for tampering, and measures both with a resumable benchmark
whose evidence opens or closes a release gate. This project models that research
core in Dafny and proves what it is meant to guarantee.

- **Codec.** `Transform` (orthonormal 8x8 DCT), `Haar` (one wavelet level), `Qim`
  (two-coefficient lattice), `KeyedStream` and `Placement` (keyed byte stream,
  unbiased integers, shuffle, replica placement), `DctCodec` (embedding and weighted
  extraction of 312 replicated bits), `Codeword` (bits, bytes, erasures), `Raster`
  (the single 8-bit BT.601 write), `RoundTrip` (the error budget from pixel to
  codeword) and `BlockLoss` (what replicas that disagree vote, and the damage a tile
  survives). `SpreadChips` and `SpreadCodec` are the saturation-safe sibling,
  `Saturation` is why it is safe, and `Shuffling` is what the keyed shuffle draws.
- **Error correction.** `Interleaving`, `ErasureRanking` and `ErasureDecoding`
  (the erasure ladder and the retry loop around an arbitrary field decoder),
  `TileReadings` (what a tile's readings hand to the ladder).
- **Pages and votes.** `Tiles` (keyed layout, crop survivors first), `PageCodec`
  (tile-by-tile embedding in place), `PayloadVotes` (the decoder's vote
  collection), `Voting` and `VotingV2` (the current and the earlier rule),
  `VoteReport` (the numbers a decision reports), and `PageRoundTrip`, which joins all
  of these end to end.
- **Tampering.** `Integrity` (ring-mapped region tags with replica votes).
- **Evidence.** `Runner` (sharded, checkpointed execution), `Publication` (order of
  the pre-gate's file writes), `GateRows`, `Gate`, `GateSoundness` and `GateVerdicts`
  (row validation, scoring, loading, and who is refused), `Localization` and
  `IouExtremes` (union IoU).

`Collections`, `Numbers` and `Options` are shared vocabulary. Code that updates
state in the repository is imperative here too (arrays, the byte stream, the
checkpoint, the directory); each such method is proved equal to a function, and
the properties are proved of that function.

Reals stand for floats: no claim is made about IEEE rounding. HMAC, the
Reed-Solomon field decoder, CRC and SHA-256 are parameters about which only the
stated hypotheses are assumed. Cosines enter through the product-to-sum law and
two values; the orthonormality of the transform is proved from them.

Where the model shows that a property holds only under a condition, the exact
condition is a theorem: `Voting.Attribution` with the counterexample
`Voting.SingleRepetitionMasks`, `Integrity.Localized` with
`Integrity.LocalizedByReadings`, `SpreadCodec.SpreadExact`, `BlockLoss.LoneReplica`
and `GateVerdicts.NobodyExactly`.

## Model

| member | source | states |
|---|---|---|
| `PageRoundTrip.PageAttributed` | research/python/src/splitbind_ref/fingerprint_v3.py:80-183 | End to end: a page whose tiles carry an identity's codeword and which is rounded once to 8-bit colour is attributed to that identity if at least two tiles and 60% of the repetitions are robust and arrive, each DCT tile perhaps with one 16x16-pixel block replaced by anything, whatever else is searched, exactly when no reading voted for another identity; otherwise the status is a conflict and nobody is named |
| `PageRoundTrip.RobustReads` | research/python/src/splitbind_ref/fingerprint_v3.py:103-120 | A tile embedded by either carrier among other tiles reads back its codeword with no erasures through the page's raster pass: an unsaturated tile whenever nothing clips, a saturated one when it has headroom and its group differences are within 0.4 delta - 0.185 |
| `PageRoundTrip.SpreadReads` | research/python/src/splitbind_ref/fingerprint_v3_spread.py:32-98 | A saturated tile with headroom and balanced groups keeps its spread codeword, unerased, under the raster error |
| `PageRoundTrip.FrozenCodec` | research/python/src/splitbind_ref/fingerprint_v3_dct.py:34-63 | The orthonormal transform with any placement the selection accepts and a positive lattice step satisfies everything the codec theorems assume |
| `PageRoundTrip.SelectedTiles` | research/python/src/splitbind_ref/fingerprint_v3.py:95-103 | The tiles derived from any key are equal-sized and pairwise disjoint, as embedding assumes |
| `PageCodec.TileKept` | research/python/src/splitbind_ref/fingerprint_v3.py:103-119 | After the whole embedding loop every tile still holds what was written when its turn came |
| `PageCodec.OutsideKept` | research/python/src/splitbind_ref/fingerprint_v3.py:103-119 | Luminance outside the selected tiles is never changed by the payload |
| `PageCodec.EmbedPage` | research/python/src/splitbind_ref/fingerprint_v3.py:103-119 | The in-place loop over tiles, choosing the carrier by saturation, leaves exactly the luminance that writing the tiles one after the other describes |
| `PayloadVotes.Provenance` | research/python/src/splitbind_ref/fingerprint_v3.py:152-178 | No vote is invented: each comes from a successful reading of a tile of a searched page |
| `PayloadVotes.EveryReadingVotes` | research/python/src/splitbind_ref/fingerprint_v3.py:168-178 | No successful reading is dropped |
| `PayloadVotes.CleanVote` | research/python/src/splitbind_ref/fingerprint_v3.py:186-206 | A reading of the sent codeword that claims at most sixteen erasures votes for its identity with bit error rate zero, whatever its reliability ranking |
| `PayloadVotes.WeakDamageVotes` | research/python/src/splitbind_ref/fingerprint_v3.py:186-206 | Damage confined to the sixteen weakest bytes never loses the vote, whatever the claim; unless the claim itself decodes, the vote names the sent identity with the rate of its damaged bits |
| `PayloadVotes.OverclaimRetried` | research/python/src/splitbind_ref/ecc.py:35-48 | A claim longer than the parity budget is retried with the sixteen weakest bytes, so damage inside them is always repaired |
| `TileReadings.ReadingsRanked` | research/python/src/splitbind_ref/fingerprint_v3.py:168-178 | A tile is read by the DCT, darkening and lightening codecs in this order; whatever it holds, every reading ranks all 39 bytes and claims the weak end of its ranking, so any two attempts of its ladder are nested |
| `TileReadings.UntrustedDamageVotes` | research/python/src/splitbind_ref/fingerprint_v3.py:168-206 | A tile whose reading is damaged only in the sixteen bytes it trusts least always votes, and for the sent identity unless its own claim decodes |
| `PayloadVotes.BitErrorRateMeaning` | research/python/src/splitbind_ref/fingerprint_v3.py:202-205 | The vote's rate is the number of differing bits over 312: zero exactly for equal codewords, at most one |
| `PayloadVotes.ReadPage` | research/python/src/splitbind_ref/fingerprint_v3.py:168-174 | The extraction methods run on every selected tile give the readings that the vote theorems speak about |
| `PayloadVotes.CollectVotes` | research/python/src/splitbind_ref/fingerprint_v3.py:152-178 | The nested collection loops produce the votes of all readings, page by page, tile by tile, codec by codec |
| `RoundTrip.RasterRoundTrip` | research/python/src/splitbind_ref/fingerprint_v2.py:286-311 | Rounding to 8-bit colour never costs a bit: embed, one raster pass without clipping, extract gives the exact codeword, no erasures, and confidence at least 1 - 2(5.92/delta), which is 0.63 at delta 32 |
| `RoundTrip.ExactRoundTrip` | research/python/src/splitbind_ref/fingerprint_v3_dct.py:34-118 | Without noise extraction returns the codeword with mean confidence one, error hint zero and no erasures |
| `RoundTrip.TileSurvives` | research/python/src/splitbind_ref/fingerprint_v3_dct.py:66-118 | Any tile within d of the embedded one reads back exactly while 64 d is at most one fifth of the lattice step |
| `BlockLoss.RasterBlockLost` | research/python/src/splitbind_ref/fingerprint_v3_dct.py:66-118 | After the raster pass any one 16x16-pixel block of the tile may be replaced by anything: extraction still returns the exact codeword, with at most two erasures |
| `BlockLoss.LossTolerated` | research/python/src/splitbind_ref/fingerprint_v3_dct.py:93-118 | Arbitrary damage under any set of blocks that holds no two replicas of a bit leaves the codeword exact and erases only bytes with a damaged replica |
| `BlockLoss.LoneReplica` | research/python/src/splitbind_ref/fingerprint_v3_dct.py:93-104 | One replica against two wins exactly when its confidence exceeds the sum of theirs, zero also winning the tie; the confidence is a third of the heavier side and the dissent its losers |
| `BlockLoss.TwoSuffice` | research/python/src/splitbind_ref/fingerprint_v3_dct.py:98-100 | Two replicas of more than half confidence outvote any third |
| `BlockLoss.HintCounts` | research/python/src/splitbind_ref/fingerprint_v3_dct.py:104-116 | The error hint is the share of the 936 replicas that read against their bit's winner |
| `DctCodec.NonInterference` | research/python/src/splitbind_ref/fingerprint_v3_dct.py:52-63 | After all sequential block writes each replica's pair holds the modulation of its own original value, and every pair not selected is unchanged |
| `DctCodec.CarriersOnly` | research/python/src/splitbind_ref/fingerprint_v3_dct.py:52-63 | Coefficients outside the two carrier pairs never change |
| `DctCodec.EmbedCodeword` | research/python/src/splitbind_ref/fingerprint_v3_dct.py:34-63 | The in-place embedding over a mutable band and the restored tile equal the codec's embedding function |
| `DctCodec.ExtractCodeword` | research/python/src/splitbind_ref/fingerprint_v3_dct.py:66-118 | The extraction loops with their arrays and accumulators equal the weighted-vote specification |
| `Raster.PixelError` | research/python/src/splitbind_ref/fingerprint_v2.py:290-311 | An unclipped pixel's new luminance misses the requested one by at most 0.0925 and its channels are bytes again |
| `Raster.GrayNeverClips` | research/python/src/splitbind_ref/fingerprint_v2.py:290-311 | A gray pixel reaches every requested luminance from 0 to 255 without clipping |
| `Qim.ExtractNear` | research/python/src/splitbind_ref/dwt_dct_qim.py:120-132 | A pair within e of a lattice point, in steps and below one half, reads that point's parity with confidence at least 1 - 2e |
| `Qim.ConfidenceExact` | research/python/src/splitbind_ref/dwt_dct_qim.py:120-132 | The confidence is at least 1 - 2e exactly when the pair lies within e steps of some lattice point; it is never outside 0 and 1 |
| `Qim.EmbedLands` | research/python/src/splitbind_ref/dwt_dct_qim.py:105-117 | Writing a bit keeps the pair's sum, puts its difference on a lattice point of the bit's parity, and moves the difference by at most half a step down or one and a half up |
| `Qim.EmbedExtract` | research/python/src/splitbind_ref/dwt_dct_qim.py:105-132 | Extraction inverts embedding with confidence one, for every pair and step |
| `Qim.EmbedIdempotent` | research/python/src/splitbind_ref/dwt_dct_qim.py:105-117 | Embedding the same bit again changes nothing |
| `Transform.DctLaws` | research/python/src/splitbind_ref/dwt_dct_qim.py:89-102 | The inverse DCT is inverted by the DCT, both read only the block, and a sample error e moves no coefficient by more than 16 e |
| `Transform.IdctOfDct` | research/python/src/splitbind_ref/dwt_dct_qim.py:89-102 | The inverse DCT undoes the DCT on every block |
| `Haar.InverseUndoesAnalysis` | research/python/src/splitbind_ref/dwt_dct_qim.py:29-86 | Perfect reconstruction for every shape, odd edge-padded ones included |
| `Haar.AnalysisUndoesInverse` | research/python/src/splitbind_ref/dwt_dct_qim.py:29-86 | On even shapes analysis returns all four bands it was restored from |
| `Haar.EnergyConserved` | research/python/src/splitbind_ref/dwt_dct_qim.py:29-48 | On even shapes the four bands hold the energy of the image |
| `Haar.Restore` | research/python/src/splitbind_ref/dwt_dct_qim.py:51-86 | Filling the buffers by alternate rows and columns and cropping equals the inverse level; a shape larger than the bands is refused |
| `KeyedStream.HmacByteStream.Read` | research/python/src/splitbind_ref/fingerprint_v3_dct.py:190-197 | Under any sequence of reads the buffered stream yields the next bytes of the pure counter-mode stream, and fails only when the four-byte counter is exhausted |
| `KeyedStream.HmacByteStream.RandBelow` | research/python/src/splitbind_ref/fingerprint_v3_dct.py:181-188 | Rejection sampling returns the first accepted sample of the pure stream at or after the current offset |
| `KeyedStream.AcceptsMoreThanHalf` | research/python/src/splitbind_ref/fingerprint_v3_dct.py:181-188 | More than half of the sample space is accepted, for every bound |
| `KeyedStream.Unbiased` | research/python/src/splitbind_ref/fingerprint_v3_dct.py:181-188 | Every result below the bound has the same number of accepted samples |
| `KeyedStream.SampleSpaceTight` | research/python/src/splitbind_ref/fingerprint_v3_dct.py:181-183 | No shorter byte count could hold all results below the bound |
| `KeyedStream.Shuffle` | research/python/src/splitbind_ref/fingerprint_v3_dct.py:200-203 | The in-place swap loop leaves the shuffle that the drawn integers determine |
| `KeyedStream.ShuffledPermutes` | research/python/src/splitbind_ref/fingerprint_v3_dct.py:200-203 | Whatever is drawn, a finished shuffle is a permutation of its input |
| `Shuffling.ShuffledAsDrawn` | research/python/src/splitbind_ref/fingerprint_v3_dct.py:200-203 | A shuffle performs the swaps of the integers it draws, one for each index from the last down to the second |
| `Shuffling.OneDrawPerOrder` | research/python/src/splitbind_ref/fingerprint_v3_dct.py:200-203 | Every order of distinct values comes from exactly one sequence of draws, so unbiased draws prefer no order |
| `Placement.SelectPositions` | research/python/src/splitbind_ref/fingerprint_v3_dct.py:121-161 | Capacity is insufficient exactly below a tile size of 352; otherwise the distinct-block guard never fires and the result is 936 distinct in-range positions, each bit's replicas in different blocks |
| `Placement.SelectSucceeds` | research/python/src/splitbind_ref/fingerprint_v3_dct.py:142-161 | Greedy selection from distinct positions succeeds whenever two positions more than needed are available (pigeonhole) |
| `Placement.PickGreedy` | research/python/src/splitbind_ref/fingerprint_v3_dct.py:145-157 | The selection is greedy: a position is skipped for a bit only because its block was already taken by an earlier one |
| `Placement.CapacityGap` | research/python/src/splitbind_ref/fingerprint_v3_dct.py:121-123 | No tile capacity is 936 or 937, so fitting capacity leaves the needed margin |
| `Codeword.ErasedExactly` | research/python/src/splitbind_ref/fingerprint_v3_dct.py:89-118 | A byte is reported erased exactly when one of its bits is below the confidence threshold |
| `ErasureRanking.WeakIsRankingPrefix` | research/python/src/splitbind_ref/ecc.py:22-26 | The claimed erasures are, as a set, a prefix of the reliability ranking |
| `ErasureRanking.RankingOrder` | research/python/src/splitbind_ref/ecc.py:22-26 | The ranking ascends by confidence, and equal bytes keep their positions |
| `ErasureDecoding.LadderIsChain` | research/python/src/splitbind_ref/ecc.py:29-60 | For evidence whose claim is its weak bytes, any two attempts of the ladder are nested |
| `ErasureDecoding.LadderShape` | research/python/src/splitbind_ref/ecc.py:29-60 | The claim comes first, the empty set is always tried, nothing is tried twice, and all but the claim fit the budget |
| `ErasureDecoding.LadderExactly` | research/python/src/splitbind_ref/ecc.py:43-60 | Besides the claim, exactly the 16, 8, 4, 2, 1 and 0 weakest bytes are tried, sorted, as far as the ranking reaches |
| `ErasureDecoding.LadderShrinks` | research/python/src/splitbind_ref/ecc.py:43-60 | After the claim every attempt erases fewer bytes than the one before it |
| `ErasureDecoding.SecondAttempt` | research/python/src/splitbind_ref/ecc.py:43-60 | The attempt after the claim is the sixteen weakest bytes, unless the claim was already that |
| `ErasureDecoding.ErasureLadder` | research/python/src/splitbind_ref/ecc.py:43-60 | The halving loop and the seen-set loop build that ladder |
| `ErasureDecoding.ClaimDecides` | research/python/src/splitbind_ref/fingerprint_v3.py:193-201 | For any decoder a claim that decodes decides the result, and the loop fails exactly when every attempt fails |
| `ErasureDecoding.InterleavedErasuresCorrected` | research/python/src/splitbind_ref/ecc.py:118-153 | If the field code repairs erasures in raw order, the interleaved code repairs them in the coordinates callers use |
| `ErasureDecoding.DecodesExactly` | research/python/src/splitbind_ref/ecc.py:134-153 | Whatever the field decoder accepts, only 39-byte codewords with at most sixteen distinct in-range positions are decoded |
| `Interleaving.DeinterleaveInterleave` | research/python/src/splitbind_ref/ecc.py:63-83 | Deinterleaving undoes interleaving for every length and positive depth |
| `Interleaving.InterleaveDeinterleave` | research/python/src/splitbind_ref/ecc.py:63-83 | Interleaving undoes deinterleaving for every length and positive depth |
| `Interleaving.LaneOrder` | research/python/src/splitbind_ref/ecc.py:63-68 | The interleaved bytes are the input ordered by lane first and by index within a lane |
| `Interleaving.Deinterleave` | research/python/src/splitbind_ref/ecc.py:71-83 | The cursor loop over strided slices, ragged last row included, restores the raw bytes |
| `Interleaving.ErasuresExact` | research/python/src/splitbind_ref/ecc.py:141-144 | Mapping erasure positions through the interleaved index table is injective and marks exactly the raw bytes those positions came from |
| `SpreadChips.LayoutGroupsSound` | research/python/src/splitbind_ref/fingerprint_v3_spread.py:101-160 | For every key the 312 bits' chip groups are pairwise disjoint, inside the tile, equal-sized, and hold the requested chips |
| `SpreadChips.ChipsPaired` | research/python/src/splitbind_ref/fingerprint_v3_spread.py:136-158 | Chip by chip the two groups of a bit lie at the same place in diagonally opposite quadrants of one 8x8 block |
| `SpreadChips.ChipGroups` | research/python/src/splitbind_ref/fingerprint_v3_spread.py:101-160 | The loop that draws orientations while extending groups builds that layout, with the error cases in order |
| `SpreadCodec.EmbedSpread` | research/python/src/splitbind_ref/fingerprint_v3_spread.py:41-58 | Embedding in place moves exactly the active samples, once each, in the tile's one direction |
| `SpreadCodec.SpreadExact` | research/python/src/splitbind_ref/fingerprint_v3_spread.py:32-98 | With headroom, extraction at the embedding polarity returns the codeword if and only if every host group difference leaves its bit readable |
| `SpreadCodec.SpreadSurvives` | research/python/src/splitbind_ref/fingerprint_v3_spread.py:61-98 | The same under sample noise, and with no erasures when differences and noise stay within two fifths of delta |
| `SpreadCodec.PolarityComplement` | research/python/src/splitbind_ref/fingerprint_v3_spread.py:79-98 | Reading at the two polarities gives complementary codewords |
| `SpreadCodec.PolaritiesAgree` | research/python/src/splitbind_ref/fingerprint_v3_spread.py:79-98 | Both polarities have the same confidence, erasures and ranking |
| `Saturation.BrightHeadroom` | research/python/src/splitbind_ref/fingerprint_v3_spread.py:45-58 | A tile whose samples are all at least 127.5 is darkened, and for a step of at most 127.5 that never clips, whatever is embedded |
| `Saturation.DarkHeadroom` | research/python/src/splitbind_ref/fingerprint_v3_spread.py:45-58 | A tile whose samples are all below 127.5 is lightened, and that never clips either |
| `Saturation.SaturatedPolarity` | research/python/src/splitbind_ref/fingerprint_v3.py:106-115 | With the frozen levels a tile takes the spread carrier exactly when three quarters of it are nearly white, and is then darkened, or nearly black, and is then lightened; it is never both |
| `Saturation.BlankBalanced` | research/python/src/splitbind_ref/fingerprint_v3_spread.py:32-58 | A tile within r of one luminance, on one side of mid-gray, has the headroom and the balance its reading needs when 2 r is at most 0.4 delta - 0.185: for uniform tiles whenever 0.4 delta is at least 0.185 |
| `Saturation.GrayUnclipped` | research/python/src/splitbind_ref/fingerprint_v3.py:106-120 | A saturated tile of a gray page never clips in the raster pass, whatever it carries |
| `Saturation.GrayBlankSurvives` | research/python/src/splitbind_ref/fingerprint_v3.py:80-120 | A white or black tile of a gray page reads back its codeword unerased through the page's raster pass, with no hypothesis about headroom, clipping or the key |
| `Saturation.SpreadErasedExactly` | research/python/src/splitbind_ref/fingerprint_v3_spread.py:79-98 | A byte is erased exactly when one of its bits has a group difference under three fifths of delta |
| `Tiles.LayoutSound` | research/python/src/splitbind_ref/tile_layout_v3.py:17-62 | Whatever the key, the layout has the requested number of tiles, all distinct slots of the page and pairwise disjoint |
| `Tiles.SlotsExactly` | research/python/src/splitbind_ref/tile_layout_v3.py:34-38 | The slots are exactly the tiles at multiples of the tile size that fit the page |
| `Tiles.LayoutExists` | research/python/src/splitbind_ref/tile_layout_v3.py:29-43 | A layout is refused exactly when the page exceeds the pixel ceiling, is smaller than a tile, or has fewer than the requested number of slots, which are the product of the two side quotients |
| `Tiles.DeriveTiles` | research/python/src/splitbind_ref/tile_layout_v3.py:17-62 | The shuffling and splitting loops build that layout, with the size errors in order |
| `Tiles.RemainingEmbeddedTiles` | research/python/src/splitbind_bench/runner.py:1086-1107 | Counts the embedded tiles that lie inside the retained rectangle |
| `Tiles.RetainedIsWindow` | research/python/src/splitbind_attack/attacks.py:187-199 | For one scale the crop attack's retained rectangle and the layout's survivor window keep the same tiles |
| `Tiles.RemainingOptimal` | research/python/src/splitbind_bench/runner.py:1086-1107 | Against that crop the remaining-tile count is the smaller of the repetitions and the surviving slots, and no other choice of that many slots keeps more |
| `Voting.Attribution` | research/python/src/splitbind_ref/fingerprint_v3.py:209-239 | An identity is returned exactly when all votes name it and some candidate carries it with two distinct tiles and 60% support, and in full if a candidate embedded only once has voted |
| `Voting.SingleRepetitionMasks` | research/python/src/splitbind_ref/fingerprint_v3.py:224-238 | The concrete vote list on which a candidate of one repetition masks another candidate's quorum |
| `Voting.OnlyEvidenceMatters` | research/python/src/splitbind_ref/fingerprint_v3.py:214-238 | Identity, confidence, vote count and status depend only on which tile of which candidate named whom: not on order, repetition, geometry or codec |
| `Voting.MoreEvidence` | research/python/src/splitbind_ref/fingerprint_v3.py:209-239 | More evidence never lowers the confidence, and keeps a verdict exactly when none of it names somebody else |
| `Voting.ConflictingEvidence` | research/python/src/splitbind_ref/fingerprint_v3.py:231-232 | The status is a conflict exactly when two votes disagree |
| `VoteReport.ReportMeaning` | research/python/src/splitbind_ref/fingerprint_v3.py:223-239 | The reported confidence is the largest tile share of any key and the vote count the tiles behind it, no key having an equal share on more tiles; the reported rate lies between the rates voted for it, and the status follows from these numbers |
| `VoteReport.SupportingFirst` | research/python/src/splitbind_ref/fingerprint_v3.py:218-220 | Of several votes from one tile for one identity the first is kept |
| `VoteReport.MeanErrorBounds` | research/python/src/splitbind_ref/fingerprint_v3.py:229-230 | The mean bit error rate is missing exactly when no supporting vote has one, and lies between any two bounds of those there are |
| `VoteReport.MeanErrorMoves` | research/python/src/splitbind_ref/fingerprint_v3.py:229-230 | Moving one supporting vote's rate moves the mean by that over the number of rates |
| `Voting.DecidePayloadVotes` | research/python/src/splitbind_ref/fingerprint_v3.py:209-239 | The dictionary-filling loops decide as the rule does |
| `VotingV2.RulesAgree` | research/python/src/splitbind_ref/fingerprint_v2.py:194-260 | On the same evidence the earlier and the current rule give the same identity, confidence and vote count, and the same status once a conflict is renamed partial |
| `VotingV2.RefusedExactly` | research/python/src/splitbind_ref/fingerprint_v2.py:199-204 | The earlier rule raises exactly when one tile of a candidate voted in two ways |
| `VotingV2.DecidePayloadVotesV2` | research/python/src/splitbind_ref/fingerprint_v2.py:194-260 | The earlier rule's loops decide as its specification does |
| `Integrity.MappingsIndependent` | research/python/src/splitbind_ref/integrity.py:242-264 | Each replica's mapping is injective and fixes no region, and no two replicas share a destination |
| `Integrity.EveryRegionCarries` | research/python/src/splitbind_ref/integrity.py:259-264 | Each replica's mapping is onto: every region carries one tag per replica |
| `Integrity.RingIsSeparated` | research/python/src/splitbind_ref/integrity.py:242-264 | The keyed ring meets what the tamper theorems assume of carriers |
| `Integrity.TamperSpread` | research/python/src/splitbind_ref/integrity.py:136-158 | From a page where every replica matches confidently, changing t regions makes at most R t / (R - m + 1) other regions stop matching and at most R t / m other regions suspicious, for R replicas and m required votes |
| `Integrity.SingleTamper` | research/python/src/splitbind_ref/integrity.py:136-158 | With a vote to spare, changing one region changes no other verdict, and its own exactly when its expected tag changed |
| `Integrity.Localized` | research/python/src/splitbind_ref/integrity.py:160-188 | The report names exactly the changed region, unless its tag is unchanged or one mismatch already reaches a limitation ratio |
| `Integrity.SuppressedByFrozenPolicy` | research/python/src/splitbind_ref/integrity.py:161-171 | With the shipped ratios a single mismatch is suppressed exactly on pages of at most four regions, or ten when the mean confidence is below 0.85 |
| `Integrity.MeanBounds` | research/python/src/splitbind_ref/integrity.py:160-160 | The mean confidence lies between any lower and any upper bound of all replica readings, so it is c when every replica reads with confidence c |
| `Integrity.MeanMoves` | research/python/src/splitbind_ref/integrity.py:133-160 | Changing t of n regions moves the mean confidence by at most t / n |
| `Integrity.LocalizedByReadings` | research/python/src/splitbind_ref/integrity.py:160-188 | With the shipped ratios, after a change in one region: readings that are all at least 0.85 name it on more than four regions and otherwise report a geometry failure; readings that are all below name it on more than ten and otherwise report strong compression |
| `Integrity.Conservative` | research/python/src/splitbind_ref/integrity.py:160-188 | Regions are named only when more than half of all regions were decided; they are exactly the suspicious ones, and fewer than the ratio that applies |
| `Integrity.PristineReport` | research/python/src/splitbind_ref/integrity.py:136-188 | A page on which every replica matches confidently scores one, with no suspicion and no limitation |
| `Integrity.UnreadableReport` | research/python/src/splitbind_ref/integrity.py:136-188 | A page none of whose readings reach the vote threshold scores zero and reports that it is mostly indeterminate |
| `Integrity.RefusedExactly` | research/python/src/splitbind_ref/integrity.py:114-130 | Verification refuses exactly when a ring shift, or the difference of two, is a multiple of the region count, and evaluates nothing exactly on pages with too few regions |
| `Integrity.VerifyIntegrity` | research/python/src/splitbind_ref/integrity.py:106-188 | The nested voting loops report what the verdicts of all regions determine |
| `Runner.SessionProgress` | research/python/src/splitbind_bench/runner.py:319-462 | Wherever a session stops, committed rows stay, new rows are right and in the shard, and their number is the smaller of the session's limit and what was missing |
| `Runner.SessionLimits` | research/python/src/splitbind_bench/runner.py:319-462 | A session commits no more rows than it may and none after its death, and leaves a row missing only when one of the two is used up |
| `Runner.ScheduleInvariant` | research/python/src/splitbind_bench/runner.py:319-462 | Over every schedule of crashes and limits the checkpoint only grows and stays inside its shard |
| `Runner.ResumeEqualsOneRun` | research/python/src/splitbind_bench/runner.py:319-462 | Resuming after any crashes and limits ends with the rows of one uninterrupted run, up to the fields that vary between runs |
| `Runner.ShardsPartition` | research/python/src/splitbind_bench/runner.py:343-346 | Each planned row is in exactly one completed shard, with the result of the unsharded run, and there are no others |
| `Runner.ShardsAddUp` | research/python/src/splitbind_bench/runner.py:1296-1298 | The planned rows of the shards add up to the plan and differ by at most one, the first shards holding the remainder |
| `Runner.CompleteByCount` | research/python/src/splitbind_bench/runner.py:1296-1302 | Comparing row counts is exactly comparing row sets |
| `Runner.StatusTruthful` | research/python/src/splitbind_bench/runner.py:1296-1313 | The exported status tells exactly whether all rows are present and whether one failed |
| `Runner.SummaryCounts` | research/python/src/splitbind_bench/runner.py:1290-1371 | The summary counts planned cases: all of them, the shard's share, those with a row, and those whose row failed |
| `Runner.Checkpoint.Run` | research/python/src/splitbind_bench/runner.py:298-473 | One sitting refuses bad requests and foreign checkpoints without writing, and otherwise leaves the checkpoint one step of the run function further |
| `Publication.CrashConsistent` | research/python/src/splitbind_bench/pregate_v3.py:169-217 | Whatever runs shared the directory and wherever each died, a selection naming a candidate records the hashes of the files on disk |
| `Publication.OnlyVerdictsName` | research/python/src/splitbind_bench/pregate_v3.py:172-216 | After a pre-gate run has made its first write the selection names somebody exactly when it finished, validated and qualified somebody |
| `Publication.Published` | research/python/src/splitbind_bench/pregate_v3.py:177-216 | A run that lives to its last write leaves its own rows and its own gate summary on disk, and a selection of its plan that names whom it qualified and records the hashes of exactly these files |
| `Publication.Directory.RunPregate` | research/python/src/splitbind_bench/pregate_v3.py:157-217 | The sequence of atomic writes leaves the planned prefix of writes on disk, wherever it dies |
| `GateRows.ValidateRows` | research/python/src/splitbind_bench/pregate_v3.py:425-530 | The validating loop accepts exactly the lists of distinct, planned, consistent rows, complete when required |
| `GateRows.ExactlyOnce` | research/python/src/splitbind_bench/pregate_v3.py:425-530 | In a complete accepted list every planned row occurs exactly once |
| `GateRows.OutcomesExactly` | research/python/src/splitbind_bench/pregate_v3.py:425-530 | An admitted row's outcome is determined by its page, status and decoded identity, its votes, rate and reason fit its status, a decoded row has at least two votes and no more than its candidate embeds, and a crop counts exactly with two tiles left |
| `Gate.LoadSelection` | research/python/src/splitbind_bench/pregate_v3.py:301-336 | The loading steps, with their refusals in order, give the outcome the soundness theorems speak about |
| `GateSoundness.GateDecides` | research/python/src/splitbind_bench/pregate_v3.py:301-336 | Loading returns candidates exactly when the rows are the whole plan, all flawless, and the published summary is the recomputed one; then it returns all of them |
| `GateVerdicts.NobodyExactly` | research/python/src/splitbind_bench/pregate_v3.py:232-247 | Loading selects nobody, rather than refusing, exactly on a whole valid plan whose readings agree and whose rows can be graded, with the recomputed summary, and not flawless |
| `GateVerdicts.PopulationMeaning` | research/python/src/splitbind_bench/pregate_v3.py:591-613 | The score population check passes exactly when some positive crop is eligible and every positive page has a row that did not fail |
| `GateVerdicts.SummaryMeaning` | research/python/src/splitbind_bench/pregate_v3.py:645-663 | The recomputed status and counts say whether all planned rows are there, whether one failed to execute, and whether one names somebody it was not issued to |
| `GateSoundness.GateSound` | research/python/src/splitbind_bench/pregate_v3.py:220-252 | A nonempty selection means no execution error, no wrong identity, and every positive page attributed under JPEG 70 and resize 0.75 by every candidate |
| `GateSoundness.ScoreMeaning` | research/python/src/splitbind_bench/pregate_v3.py:355-422 | A candidate's score exists exactly when its readings agree and passes exactly when its rows are flawless |
| `GateSoundness.NearlyAllOfTwelve` | research/python/src/splitbind_bench/pregate_v3.py:616-630 | A rate of at least 0.95 over twelve pages is all twelve |
| `GateSoundness.FalseCountsAgree` | research/python/src/splitbind_bench/pregate_v3.py:645-663 | The candidates' false counts, by comparing ids, sum to the global count, by recorded outcome |
| `Localization.IouCountsCells` | research/python/src/splitbind_bench/metrics.py:185-206 | On the integer lattice intersection and union are the numbers of unit cells covered by both and by either set |
| `Localization.IouOfRegions` | research/python/src/splitbind_bench/metrics.py:172-206 | The score depends only on the covered points, not on how they are split, repeated or ordered into rectangles |
| `Localization.SplitKeepsRegion` | research/python/src/splitbind_bench/metrics.py:185-206 | Splitting or repeating a rectangle keeps the covered points |
| `Localization.IouBounds` | research/python/src/splitbind_bench/metrics.py:172-206 | The score lies between zero and one |
| `Localization.IouSymmetric` | research/python/src/splitbind_bench/metrics.py:172-206 | The score is symmetric |
| `Localization.IouPerfect` | research/python/src/splitbind_bench/metrics.py:172-206 | Predicting exactly the expected points scores one |
| `IouExtremes.IouOneExactly` | research/python/src/splitbind_bench/metrics.py:172-206 | The score is one exactly when the two sets cover the same points |
| `IouExtremes.IouZeroExactly` | research/python/src/splitbind_bench/metrics.py:172-206 | The score is zero exactly when the sets are not both empty and no open rectangle lies in both, that is, no two of their rectangles overlap in more than an edge; a missed region scores nothing |
| `Localization.IouScaleFree` | research/python/src/splitbind_bench/metrics.py:172-206 | Scaling both axes, each by its own factor, leaves the score unchanged |
| `Localization.AreaUnique` | research/python/src/splitbind_bench/metrics.py:185-205 | Any two grids that resolve a region measure the same area |
| `Localization.ComputeLocalizationIou` | research/python/src/splitbind_bench/metrics.py:172-206 | The nested accumulation loops compute that score, empty sets included |

## Left out

- IEEE arithmetic: floats are reals; rounding, NaN and infinities are not modelled. The infinite initial byte confidence of the extraction loops is replaced by starting from the byte's first bit.
- Clipping in the raster pass: round trips are stated for pixels whose channels do not saturate; nothing is claimed about clipped ones. Saturated tiles of gray pages never have any (`Saturation.GrayUnclipped`).
- HMAC, SHA-256, CRC-32, Reed-Solomon and signatures: parameters; no cryptographic claim is made. Row identifiers are assumed distinct on planned keys.
- `KeyedStream.HmacByteStream.RandBelow`: terminates in the model because the four-byte counter runs out, where the repository raises an overflow error; no bound on the number of retries is claimed.
- Alignment: pilots, ORB matching, homographies and image resampling are not modelled; the decoder's search is an arbitrary list of aligned pages, one of which is assumed exact in `PageRoundTrip.PageAttributed`, but for one lost 16x16-pixel block in each DCT tile.
- The pilot signal: an arbitrary luminance before the payload is embedded.
- `PayloadVotes.CollectVotes`: reads all tiles of a page before it decodes any of them; the order of the votes is the repository's.
- Integrity embedding: each tag is rounded when written, so no embed-then-verify round trip is claimed; the theorems start from a page on which all replicas match.
- `Integrity.VerifyIntegrity`: suspicious regions are reported by index; scaling them to page fractions is left out.
- Ring shifts: at least one replica vote and one region must be configured, as the profile validator demands.
- `Tiles.RemainingOptimal`: stated for tiles of at least two pixels; a crop never keeps less than one pixel, so the attack and the layout can differ on a page reduced to nothing for smaller tiles.
- `VotingV2.RulesAgree`: says nothing about the mean bit error rate when several keys are equally strong.
- `Gate.AggregateScores`: scores are kept in candidate order, where the repository sorts by profile hash; qualified identifiers are a set, so sorting and the list of failed gates are left out.
- Detection metrics, PSNR and SSIM computation, timing, memory and environment fields.
- JSON, profile and contract parsing and their type checks; files beyond atomic replacement; SQLite beyond committed inserts; concurrent processes in one directory.
- The first-generation codec, the earlier pre-gate and promotion code: close relatives of what is modelled.
- Attack implementations other than the crop geometry, corpus generation, PDF rendering, the web application and its deployment.
