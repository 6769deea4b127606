/** Replicas outvote damage: what the weighted vote returns when the replicas of
    a bit disagree, and which losses a tile therefore survives. */
module BlockLoss {
  import opened Collections
  import opened Numbers
  import opened Transform
  import opened Placement
  import opened Codeword
  import opened ErasureRanking
  import opened DctCodec
  import opened Raster
  import opened RoundTrip
  import Haar
  import Qim

  // ----- disagreeing replicas

  function Ballot(x: Qim.Extraction, bit: int): real { if x.bit == bit then x.confidence else 0.0 }

  /** Replica k of bit i. */
  function Copy(replicas: Replicas, i: int, k: int): Qim.Extraction { replicas(i * REPLICATION + k) }

  /** The total confidence of a bit's three replicas. */
  function Confidence3(replicas: Replicas, i: int): real {
    Copy(replicas, i, 0).confidence + Copy(replicas, i, 1).confidence + Copy(replicas, i, 2).confidence
  }

  lemma WeightOfThree(replicas: Replicas, i: int, bit: int)
    ensures Weight(replicas, i * REPLICATION, REPLICATION, bit)
         == Ballot(Copy(replicas, i, 0), bit) + Ballot(Copy(replicas, i, 1), bit) + Ballot(Copy(replicas, i, 2), bit)
  {
    var start := i * REPLICATION;
    assert Weight(replicas, start, 1, bit) == Ballot(replicas(start), bit);
    assert Weight(replicas, start, 2, bit) == Weight(replicas, start, 1, bit) + Ballot(replicas(start + 1), bit);
  }

  function Against(x: Qim.Extraction, bit: int): nat { if x.bit == bit then 0 else 1 }

  lemma DissentOfThree(replicas: Replicas, i: int, bit: int)
    ensures Dissent(replicas, i * REPLICATION, REPLICATION, bit)
         == Against(Copy(replicas, i, 0), bit) + Against(Copy(replicas, i, 1), bit) + Against(Copy(replicas, i, 2), bit)
  {
    var start := i * REPLICATION;
    assert Dissent(replicas, start, 1, bit) == Against(replicas(start), bit);
    assert Dissent(replicas, start, 2, bit) == Dissent(replicas, start, 1, bit) + Against(replicas(start + 1), bit);
  }

  /** One replica of bit i reads `bit`, the other two read the opposite. */
  predicate Lone(replicas: Replicas, i: int, lone: nat, bit: int) {
    lone < 3 && forall k :: 0 <= k < 3 ==> Copy(replicas, i, k).bit == if k == lone then bit else 1 - bit
  }

  /** One replica against two wins exactly when it is more confident than both
      together; zero also wins the tie. The winner's weight is the confidence
      and the losers are the dissent. */
  lemma LoneReplica(replicas: Replicas, i: int, lone: nat, bit: int)
    requires bit in {0, 1} && Lone(replicas, i, lone, bit)
    ensures var own := Copy(replicas, i, lone).confidence;
            var others := Confidence3(replicas, i) - own;
            && (Winner(replicas, i) == bit <==> if bit == 1 then own > others else own >= others)
            && Winner(replicas, i) in {0, 1}
            && WinningConfidence(replicas, i) == Max(own, others) / 3.0
            && Dissent(replicas, i * REPLICATION, REPLICATION, Winner(replicas, i))
               == if Winner(replicas, i) == bit then 2 else 1
  {
    assert Copy(replicas, i, 0).bit == (if 0 == lone then bit else 1 - bit);
    assert Copy(replicas, i, 1).bit == (if 1 == lone then bit else 1 - bit);
    assert Copy(replicas, i, 2).bit == (if 2 == lone then bit else 1 - bit);
    WeightOfThree(replicas, i, 0);
    WeightOfThree(replicas, i, 1);
    DissentOfThree(replicas, i, 0);
    DissentOfThree(replicas, i, 1);
  }

  /** Three replicas that agree are exactly as confident as their mean. */
  lemma AgreeingReplicas(replicas: Replicas, i: int, bit: int)
    requires bit in {0, 1} && forall k :: 0 <= k < 3 ==> Copy(replicas, i, k).bit == bit
    requires forall k :: 0 <= k < 3 ==> Copy(replicas, i, k).confidence > 0.0
    ensures Winner(replicas, i) == bit && WinningConfidence(replicas, i) == Confidence3(replicas, i) / 3.0
    ensures Dissent(replicas, i * REPLICATION, REPLICATION, Winner(replicas, i)) == 0
  {
    assert Copy(replicas, i, 0).bit == Copy(replicas, i, 1).bit == Copy(replicas, i, 2).bit == bit;
    assert Copy(replicas, i, 0).confidence > 0.0 && Copy(replicas, i, 1).confidence > 0.0;
    WeightOfThree(replicas, i, 0);
    WeightOfThree(replicas, i, 1);
    DissentOfThree(replicas, i, bit);
  }

  /** Two replicas of more than half confidence outvote any third. */
  lemma TwoSuffice(replicas: Replicas, i: int, lost: nat, bit: int, bound: real)
    requires bit in {0, 1} && lost < 3 && bound > 0.5
    requires 0.0 <= Copy(replicas, i, lost).confidence <= 1.0
    requires forall k :: 0 <= k < 3 && k != lost ==>
               Copy(replicas, i, k).bit == bit && Copy(replicas, i, k).confidence >= bound
    ensures Winner(replicas, i) == bit
  {
    assert lost != 0 ==> Copy(replicas, i, 0).bit == bit && Copy(replicas, i, 0).confidence >= bound;
    assert lost != 1 ==> Copy(replicas, i, 1).bit == bit && Copy(replicas, i, 1).confidence >= bound;
    assert lost != 2 ==> Copy(replicas, i, 2).bit == bit && Copy(replicas, i, 2).confidence >= bound;
    WeightOfThree(replicas, i, 0);
    WeightOfThree(replicas, i, 1);
  }

  function Dissenting(replicas: Replicas): nat -> bool {
    (q: nat) => replicas(q).bit != Winner(replicas, q / REPLICATION)
  }

  lemma DissentsAt(replicas: Replicas, i: nat, k: nat)
    requires k < REPLICATION
    ensures Dissenting(replicas)(i * REPLICATION + k) <==> Copy(replicas, i, k).bit != Winner(replicas, i)
  {
    assert (i * REPLICATION + k) / REPLICATION == i;
  }

  lemma DissentersOf(replicas: Replicas, i: nat)
    ensures Count(i * REPLICATION + 3, Dissenting(replicas))
         == Count(i * REPLICATION, Dissenting(replicas))
            + Dissent(replicas, i * REPLICATION, REPLICATION, Winner(replicas, i))
  {
    DissentOfThree(replicas, i, Winner(replicas, i));
    DissentsAt(replicas, i, 0);
    DissentsAt(replicas, i, 1);
    DissentsAt(replicas, i, 2);
    CountThree(i * REPLICATION, Dissenting(replicas));
  }

  lemma CountThree(n: nat, p: nat -> bool)
    ensures Count(n + 3, p) == Count(n, p) + (if p(n) then 1 else 0) + (if p(n + 1) then 1 else 0)
                               + if p(n + 2) then 1 else 0
  {
    assert Count(n + 1, p) == Count(n, p) + if p(n) then 1 else 0;
    assert Count(n + 2, p) == Count(n + 1, p) + if p(n + 1) then 1 else 0;
  }

  lemma {:induction false} DissentersCounted(replicas: Replicas, n: nat)
    ensures Disagreement(replicas, n) == Count(n * REPLICATION, Dissenting(replicas))
    decreases n
  {
    if n > 0 {
      DissentersCounted(replicas, n - 1);
      DissentersOf(replicas, n - 1);
      assert (n - 1) * REPLICATION + 3 == n * REPLICATION;
    }
  }

  /** The error hint is the share of replicas that read against their bit. */
  lemma HintCounts(replicas: Replicas)
    ensures Vote(replicas, BITS).bitErrorHint * 936.0 == Count(936, Dissenting(replicas)) as real
  {
    DissentersCounted(replicas, BITS);
  }

  // ----- losses a placement tolerates

  predicate Hit(positions: seq<nat>, damaged: set<nat>, q: int) {
    0 <= q < |positions| && BlockOf(positions[q]) in damaged
  }

  /** No bit loses two of its replicas. */
  ghost predicate Tolerable(positions: seq<nat>, damaged: set<nat>) {
    forall p, q :: Hit(positions, damaged, p) && Hit(positions, damaged, q) && p / REPLICATION == q / REPLICATION ==>
      p == q
  }

  /** The placement spreads a bit over three blocks so that losing any one of
      them is tolerable. */
  lemma OneBlockTolerable(positions: seq<nat>, capacity: nat, block: nat)
    requires ValidPlacement(positions, capacity)
    ensures Tolerable(positions, {block})
  {
    forall p, q | Hit(positions, {block}, p) && Hit(positions, {block}, q) && p / REPLICATION == q / REPLICATION
      ensures p == q
    {
    }
  }

  /** The replicas outside the damage read the codeword's bits confidently. */
  ghost predicate IntactElsewhere(replicas: Replicas, codeword: seq<int>, positions: seq<nat>, damaged: set<nat>,
                                  bound: real)
    requires IsCodeword(codeword)
  {
    forall q :: 0 <= q < REPLICATION * BITS ==>
      && 0.0 <= replicas(q).confidence <= 1.0
      && (!Hit(positions, damaged, q) ==>
            replicas(q).bit == Unpacked(codeword, q / REPLICATION) && replicas(q).confidence >= bound)
  }

  lemma IntactReplica(replicas: Replicas, codeword: seq<int>, positions: seq<nat>, damaged: set<nat>, bound: real,
                      i: nat, k: nat)
    requires IsCodeword(codeword) && IntactElsewhere(replicas, codeword, positions, damaged, bound)
    requires i < BITS && k < 3
    ensures 0.0 <= Copy(replicas, i, k).confidence <= 1.0
    ensures !HitCopy(positions, damaged, i, k) ==>
              Copy(replicas, i, k).bit == Unpacked(codeword, i) && Copy(replicas, i, k).confidence >= bound
  {
    assert (i * REPLICATION + k) / REPLICATION == i;
  }

  predicate HitCopy(positions: seq<nat>, damaged: set<nat>, i: int, k: int) {
    Hit(positions, damaged, i * REPLICATION + k)
  }

  /** Which replica of bit i may be lost; any, when none is. */
  lemma LostReplica(positions: seq<nat>, damaged: set<nat>, i: nat) returns (lost: nat)
    requires Tolerable(positions, damaged)
    ensures lost < 3 && forall k :: 0 <= k < 3 && k != lost ==> !HitCopy(positions, damaged, i, k)
  {
    lost := if HitCopy(positions, damaged, i, 0) then 0 else if HitCopy(positions, damaged, i, 1) then 1 else 2;
    forall k | 0 <= k < 3 && k != lost ensures !HitCopy(positions, damaged, i, k) {
      assert (i * REPLICATION + k) / REPLICATION == i == (i * REPLICATION + lost) / REPLICATION;
    }
  }

  lemma ToleratedBit(replicas: Replicas, codeword: seq<int>, positions: seq<nat>, damaged: set<nat>, bound: real,
                     i: nat)
    requires IsCodeword(codeword) && IntactElsewhere(replicas, codeword, positions, damaged, bound)
    requires bound > 0.5 && Tolerable(positions, damaged) && i < BITS
    ensures Winner(replicas, i) == Unpacked(codeword, i)
  {
    var lost := LostReplica(positions, damaged, i);
    forall k | 0 <= k < 3
      ensures 0.0 <= Copy(replicas, i, k).confidence <= 1.0
      ensures k != lost ==>
                Copy(replicas, i, k).bit == Unpacked(codeword, i) && Copy(replicas, i, k).confidence >= bound
    {
      IntactReplica(replicas, codeword, positions, damaged, bound, i, k);
    }
    TwoSuffice(replicas, i, lost, Unpacked(codeword, i), bound);
  }

  /** A bit has a replica in the damage. */
  predicate Weakened(positions: seq<nat>, damaged: set<nat>, i: int) {
    HitCopy(positions, damaged, i, 0) || HitCopy(positions, damaged, i, 1) || HitCopy(positions, damaged, i, 2)
  }

  lemma UnweakenedBit(replicas: Replicas, codeword: seq<int>, positions: seq<nat>, damaged: set<nat>, bound: real,
                      i: nat)
    requires IsCodeword(codeword) && IntactElsewhere(replicas, codeword, positions, damaged, bound)
    requires bound > 0.0 && i < BITS && !Weakened(positions, damaged, i)
    ensures WinningConfidence(replicas, i) >= bound
  {
    IntactReplica(replicas, codeword, positions, damaged, bound, i, 0);
    IntactReplica(replicas, codeword, positions, damaged, bound, i, 1);
    IntactReplica(replicas, codeword, positions, damaged, bound, i, 2);
    forall k | 0 <= k < 3
      ensures Copy(replicas, i, k).bit == Unpacked(codeword, i) && Copy(replicas, i, k).confidence > 0.0
    {
      IntactReplica(replicas, codeword, positions, damaged, bound, i, k);
    }
    AgreeingReplicas(replicas, i, Unpacked(codeword, i));
  }

  /** The codeword is exact, and only bytes with a weakened bit are erased. */
  ghost predicate Recovers(e: Evidence, codeword: seq<int>, positions: seq<nat>, damaged: set<nat>) {
    && e.codeword == codeword
    && (forall j :: j in e.erasePositions ==>
          j < BYTES && exists i :: 8 * j <= i < 8 * j + 8 && Weakened(positions, damaged, i))
  }

  lemma ErasedWeakened(replicas: Replicas, codeword: seq<int>, positions: seq<nat>, damaged: set<nat>, bound: real,
                       j: nat)
    requires IsCodeword(codeword) && IntactElsewhere(replicas, codeword, positions, damaged, bound)
    requires bound >= CONFIDENCE_MIN && j in Vote(replicas, BITS).erasePositions
    ensures j < BYTES && exists i :: 8 * j <= i < 8 * j + 8 && Weakened(positions, damaged, i)
  {
    var bits, confidences := Winners(replicas), WinningConfidences(replicas);
    var hint := Rate(Disagreement(replicas, BITS), REPLICATION * BITS);
    WeakMember(ByteConfidence(confidences), CONFIDENCE_MIN, BYTES, j);
    ErasedExactly(bits, confidences, CONFIDENCE_MIN, hint, j);
    var i :| 8 * j <= i < 8 * j + 8 && confidences(i) < CONFIDENCE_MIN;
    if !Weakened(positions, damaged, i) { UnweakenedBit(replicas, codeword, positions, damaged, bound, i); }
  }

  lemma ToleratedVote(replicas: Replicas, codeword: seq<int>, positions: seq<nat>, damaged: set<nat>, bound: real)
    requires IsCodeword(codeword) && IntactElsewhere(replicas, codeword, positions, damaged, bound)
    requires bound >= CONFIDENCE_MIN && Tolerable(positions, damaged)
    ensures Recovers(Vote(replicas, BITS), codeword, positions, damaged)
  {
    forall i | 0 <= i < BITS ensures Winners(replicas)(i) == Unpacked(codeword, i) {
      ToleratedBit(replicas, codeword, positions, damaged, bound, i);
    }
    PackUnpack(codeword, Winners(replicas));
    forall j | j in Vote(replicas, BITS).erasePositions
      ensures j < BYTES && exists i :: 8 * j <= i < 8 * j + 8 && Weakened(positions, damaged, i)
    {
      ErasedWeakened(replicas, codeword, positions, damaged, bound, j);
    }
  }

  // ----- damaged pixels

  /** The pixel lies under a damaged LL block. */
  predicate UnderDamage(y: int, x: int, edge: nat, damaged: set<nat>) {
    exists b :: b in damaged && IsOver(b, y, x, edge)
  }

  predicate IsOver(block: nat, y: int, x: int, edge: nat) { y / 16 * edge + x / 16 == block }

  ghost predicate CloseOutside(f: Field, g: Field, n: nat, edge: nat, damaged: set<nat>, d: real) {
    forall y, x :: 0 <= y < n && 0 <= x < n && !UnderDamage(y, x, edge, damaged) ==> Abs(f(y, x) - g(y, x)) <= d
  }

  lemma PixelOfBlock(p: nat, edge: nat, i: nat, j: nat, dy: nat, dx: nat)
    requires edge > 0 && p < CapacityOf(edge) && i < 8 && j < 8 && dy < 2 && dx < 2
    ensures var y, x := 2 * (Row(p, edge) + i) + dy, 2 * (ColumnAt(p, edge) + j) + dx;
            && y < 16 * edge && x < 16 * edge && IsOver(BlockOf(p), y, x, edge)
            && forall b :: IsOver(b, y, x, edge) ==> b == BlockOf(p)
  {
    PositionInBand(p, edge);
    var block := BlockOf(p);
    assert (2 * (block / edge * 8 + i) + dy) / 16 == block / edge;
    assert (2 * (block % edge * 8 + j) + dx) / 16 == block % edge;
    DivMod(block, edge);
  }

  lemma QuadOutside(f: Field, g: Field, edge: nat, damaged: set<nat>, d: real, p: nat, i: nat, j: nat)
    requires edge > 0 && p < CapacityOf(edge) && i < 8 && j < 8 && BlockOf(p) !in damaged
    requires CloseOutside(f, g, 16 * edge, edge, damaged, d)
    ensures CloseQuad(f, g, Row(p, edge) + i, ColumnAt(p, edge) + j, d)
  {
    PixelOfBlock(p, edge, i, j, 0, 0);
    PixelOfBlock(p, edge, i, j, 0, 1);
    PixelOfBlock(p, edge, i, j, 1, 0);
    PixelOfBlock(p, edge, i, j, 1, 1);
  }

  lemma SampleOutside(root2: real, bands: Haar.Bands, noisy: Field, edge: nat, damaged: set<nat>, d: real, p: nat,
                      i: nat, j: nat)
    requires root2 > 0.0 && root2 * root2 == 2.0 && edge > 0 && i < 8 && j < 8
    requires p < CapacityOf(edge) && BlockOf(p) !in damaged
    requires CloseOutside(noisy, Haar.Idwt2(root2, bands), 16 * edge, edge, damaged, d)
    ensures var y, x := Row(p, edge) + i, ColumnAt(p, edge) + j;
            Abs(Haar.Dwt2(root2, noisy, 2 * (8 * edge), 2 * (8 * edge)).ll(y, x) - bands.ll(y, x)) <= 2.0 * d
  {
    PositionInBand(p, edge);
    QuadOutside(noisy, Haar.Idwt2(root2, bands), edge, damaged, d, p, i, j);
    NoisySample(root2, bands, noisy, 8 * edge, d, Row(p, edge) + i, ColumnAt(p, edge) + j);
  }

  /** A block outside the damage is as close as its pixels allow. */
  lemma BlockOutside(root2: real, bands: Haar.Bands, noisy: Field, low: Field, edge: nat, damaged: set<nat>, d: real,
                     p: nat)
    requires root2 > 0.0 && root2 * root2 == 2.0 && edge > 0
    requires p < CapacityOf(edge) && BlockOf(p) !in damaged
    requires CloseOutside(noisy, Haar.Idwt2(root2, bands), 16 * edge, edge, damaged, d)
    requires low == Haar.Dwt2(root2, noisy, 2 * (8 * edge), 2 * (8 * edge)).ll
    ensures CloseAt(low, bands.ll, p, edge, 2.0 * d)
  {
    var row, column := Row(p, edge), ColumnAt(p, edge);
    forall i, j | 0 <= i < 8 && 0 <= j < 8
      ensures Abs(BlockAt(low, row, column)(i, j) - BlockAt(bands.ll, row, column)(i, j)) <= 2.0 * d
    {
      SampleOutside(root2, bands, noisy, edge, damaged, d, p, i, j);
    }
  }

  // ----- what a tile survives

  lemma BandIntact(codec: Codec, ll: Field, noisy: Field, codeword: seq<int>, damaged: set<nat>, share: real, e: real)
    requires codec.Valid() && IsCodeword(codeword)
    requires 0.0 <= share <= 0.2 && 32.0 * e == share * codec.delta
    requires forall q :: 0 <= q < REPLICATION * BITS && !Hit(codec.positions, damaged, q) ==>
               CloseAt(noisy, codec.EmbedBand(ll, codeword), codec.positions[q], codec.Edge(), e)
    ensures IntactElsewhere(ReplicasOf(codec.t, noisy, codec.positions, codec.Edge(), codec.delta), codeword,
                            codec.positions, damaged, 1.0 - 2.0 * share)
  {
    var replicas := ReplicasOf(codec.t, noisy, codec.positions, codec.Edge(), codec.delta);
    forall q | 0 <= q < REPLICATION * BITS
      ensures 0.0 <= replicas(q).confidence <= 1.0
      ensures !Hit(codec.positions, damaged, q) ==>
                replicas(q).bit == Unpacked(codeword, q / REPLICATION) && replicas(q).confidence >= 1.0 - 2.0 * share
    {
      ReplicaConfidence(codec.t, noisy, codec.positions[q], codec.Edge(), codec.delta);
      if !Hit(codec.positions, damaged, q) {
        ReplicaSurvivesAt(codec.t, ll, noisy, ReplicatedBits(codeword), codec.positions, codec.Edge(), codec.delta,
                          share, e, q);
      }
    }
  }

  lemma ReplicaConfidence(t: BlockTransform, band: Field, position: nat, edge: nat, delta: real)
    requires edge > 0 && delta > 0.0
    ensures 0.0 <= Replica(t, band, position, edge, delta).confidence <= 1.0
  {
    var (a, b) := PairIn(t, band, position, edge);
    Qim.ConfidenceExact(a, b, delta, 0.0);
  }

  /** Arbitrary damage under blocks that no bit depends on twice never changes
      the codeword, and erases only bytes of bits it touched. */
  lemma LossTolerated(codec: Codec, tile: Field, noisy: Field, codeword: seq<int>, share: real, d: real,
                      damaged: set<nat>)
    requires codec.Valid() && IsCodeword(codeword) && Tolerable(codec.positions, damaged)
    requires 0.0 <= share <= 0.2 && 64.0 * d == share * codec.delta
    requires CloseOutside(noisy, codec.Embed(tile, codeword), codec.tileSize, codec.Edge(), damaged, d)
    ensures Recovers(codec.Extract(noisy), codeword, codec.positions, damaged)
  {
    var bands := codec.Analyse(tile);
    var band := codec.Analyse(noisy).ll;
    assert codec.tileSize == 16 * codec.Edge();
    forall q | 0 <= q < REPLICATION * BITS && !Hit(codec.positions, damaged, q)
      ensures CloseAt(band, codec.EmbedBand(bands.ll, codeword), codec.positions[q], codec.Edge(), 2.0 * d)
    {
      BlockOutside(codec.root2, bands.(ll := codec.EmbedBand(bands.ll, codeword)), noisy, band, codec.Edge(), damaged,
                   d, codec.positions[q]);
    }
    BandIntact(codec, bands.ll, band, codeword, damaged, share, 2.0 * d);
    ToleratedVote(ReplicasOf(codec.t, band, codec.positions, codec.Edge(), codec.delta), codeword, codec.positions,
                  damaged, 1.0 - 2.0 * share);
  }

  lemma WeakenedAt(positions: seq<nat>, block: nat, i: int) returns (q: int)
    requires Weakened(positions, {block}, i)
    ensures 0 <= q < |positions| && q / REPLICATION == i && BlockOf(positions[q]) == block
  {
    var k := if HitCopy(positions, {block}, i, 0) then 0 else if HitCopy(positions, {block}, i, 1) then 1 else 2;
    assert HitCopy(positions, {block}, i, k);
    q := i * REPLICATION + k;
  }

  lemma TwoPerBlock(x: nat, y: nat, z: nat)
    requires BlockOf(x) == BlockOf(y) == BlockOf(z)
    ensures x == y || y == z || x == z
  {
  }

  /** A block holds two positions, so its loss erases at most two bytes. */
  lemma FewErasures(e: Evidence, codeword: seq<int>, positions: seq<nat>, block: nat)
    requires Recovers(e, codeword, positions, {block}) && Distinct(positions) && Distinct(e.erasePositions)
    ensures |e.erasePositions| <= 2
  {
    if |e.erasePositions| > 2 {
      var p := ErasedBy(e, codeword, positions, block, 0);
      var q := ErasedBy(e, codeword, positions, block, 1);
      var r := ErasedBy(e, codeword, positions, block, 2);
      TwoPerBlock(positions[p], positions[q], positions[r]);
    }
  }

  lemma ErasedBy(e: Evidence, codeword: seq<int>, positions: seq<nat>, block: nat, k: nat) returns (q: int)
    requires Recovers(e, codeword, positions, {block}) && k < |e.erasePositions|
    ensures 0 <= q < |positions| && BlockOf(positions[q]) == block && q / REPLICATION / 8 == e.erasePositions[k]
  {
    var j := e.erasePositions[k];
    assert j in e.erasePositions;
    var i :| 8 * j <= i < 8 * j + 8 && Weakened(positions, {block}, i);
    q := WeakenedAt(positions, block, i);
  }

  lemma ErasuresDistinct(codec: Codec, tile: Field)
    requires codec.Ready()
    ensures Distinct(codec.Extract(tile).erasePositions)
  {
    var confidences := WinningConfidences(ReplicasOf(codec.t, codec.Analyse(tile).ll, codec.positions, codec.Edge(),
                                                     codec.delta));
    WeakAscends(ByteConfidence(confidences), CONFIDENCE_MIN, BYTES);
  }

  /** Losing any one 16x16-pixel block costs no bit and at most two erasures. */
  lemma OneBlockLost(codec: Codec, tile: Field, noisy: Field, codeword: seq<int>, share: real, d: real, block: nat)
    requires codec.Valid() && IsCodeword(codeword)
    requires 0.0 <= share <= 0.2 && 64.0 * d == share * codec.delta
    requires CloseOutside(noisy, codec.Embed(tile, codeword), codec.tileSize, codec.Edge(), {block}, d)
    ensures var e := codec.Extract(noisy);
            e.codeword == codeword && |e.erasePositions| <= 2 && Distinct(e.erasePositions)
            && forall j :: j in e.erasePositions ==> j < BYTES
  {
    OneBlockTolerable(codec.positions, CapacityOf(codec.Edge()), block);
    LossTolerated(codec, tile, noisy, codeword, share, d, {block});
    ErasuresDistinct(codec, noisy);
    FewErasures(codec.Extract(noisy), codeword, codec.positions, block);
  }

  /** The two luminances agree except under one block. */
  ghost predicate AgreeOutside(f: Field, g: Field, n: nat, edge: nat, block: nat) {
    forall y, x :: 0 <= y < n && 0 <= x < n && !IsOver(block, y, x, edge) ==> f(y, x) == g(y, x)
  }

  /** After the raster pass the contents of any one 16x16-pixel block may be
      replaced by anything: extraction still returns the exact codeword. */
  lemma RasterBlockLost(codec: Codec, page: Page, tile: Field, received: Field, codeword: seq<int>, block: nat)
    requires codec.Valid() && codec.delta >= 29.6 && IsCodeword(codeword)
    requires PageBytes(page, codec.tileSize) && NothingClips(page, codec.Embed(tile, codeword), codec.tileSize)
    requires AgreeOutside(received,
                          LuminanceOf(ReplaceLuminanceOnce(page, LuminanceOf(page), codec.Embed(tile, codeword))),
                          codec.tileSize, codec.Edge(), block)
    ensures var e := codec.Extract(received);
            e.codeword == codeword && |e.erasePositions| <= 2 && Distinct(e.erasePositions)
            && forall j :: j in e.erasePositions ==> j < BYTES
  {
    var modified := codec.Embed(tile, codeword);
    var image := LuminanceOf(ReplaceLuminanceOnce(page, LuminanceOf(page), modified));
    ShareBound(codec.delta);
    RasterClose(page, modified, codec.tileSize);
    DamagedClose(received, image, modified, codec.tileSize, codec.Edge(), block, 0.0925);
    OneBlockLost(codec, tile, received, codeword, RasterShare(codec.delta), 0.0925, block);
  }

  lemma DamagedClose(received: Field, image: Field, modified: Field, n: nat, edge: nat, block: nat, d: real)
    requires AgreeOutside(received, image, n, edge, block) && CloseImage(image, modified, n, d)
    ensures CloseOutside(received, modified, n, edge, {block}, d)
  {
    forall y, x | 0 <= y < n && 0 <= x < n && !UnderDamage(y, x, edge, {block})
      ensures Abs(received(y, x) - modified(y, x)) <= d
    {
      assert block in {block};
    }
  }
}
