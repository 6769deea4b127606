/** The replicated LL-DCT-QIM codec: embedding, extraction, and the algebra of
    the block transforms that keeps replicas from disturbing each other. */
module DctCodec {
  import opened Collections
  import opened Numbers
  import opened Transform
  import opened Placement
  import opened Codeword
  import Qim
  import Haar

  // ----- positions

  function Row(position: nat, edge: nat): nat
    requires edge > 0
  { BlockOf(position) / edge * 8 }

  function ColumnAt(position: nat, edge: nat): nat
    requires edge > 0
  { BlockOf(position) % edge * 8 }

  function PairIndex(position: nat): nat { position % 2 }

  /** The two coordinates of a pair inside its block. */
  function First(pair: nat): (int, int) { if pair == 0 then (1, 2) else (2, 3) }

  function Second(pair: nat): (int, int) { if pair == 0 then (2, 1) else (3, 2) }

  lemma PositionInBand(position: nat, edge: nat)
    requires edge > 0 && position < CapacityOf(edge)
    ensures Row(position, edge) + 8 <= 8 * edge && ColumnAt(position, edge) + 8 <= 8 * edge
  {
    var block := BlockOf(position);
    assert block < edge * edge;
    MulAtLeast(block / edge - edge, edge);
    assert (block / edge - edge) * edge == block / edge * edge - edge * edge;
  }

  /** Positions in different blocks address disjoint 8x8 squares. */
  lemma BlocksDisjoint(p: nat, q: nat, edge: nat)
    requires edge > 0 && BlockOf(p) != BlockOf(q)
    ensures Row(p, edge) != Row(q, edge) || ColumnAt(p, edge) != ColumnAt(q, edge)
  {
    assert BlockOf(p) == BlockOf(p) / edge * edge + BlockOf(p) % edge;
    assert BlockOf(q) == BlockOf(q) / edge * edge + BlockOf(q) % edge;
  }

  // ----- one embedding step

  function BlockAt(band: Field, row: int, column: int): Field { (i, j) => band(row + i, column + j) }

  function WriteBlock(band: Field, row: int, column: int, block: Field): Field {
    (y, x) =>
      if row <= y < row + 8 && column <= x < column + 8 then block(y - row, x - column) else band(y, x)
  }

  /** The coefficients of the block at a band offset. */
  function CoefficientsAt(t: BlockTransform, band: Field, row: int, column: int): Field {
    t.forward(BlockAt(band, row, column))
  }

  /** Overwrite one coefficient pair. */
  function SetPair(c: Field, pair: nat, values: (real, real)): Field {
    (u, v) => if (u, v) == First(pair) then values.0 else if (u, v) == Second(pair) then values.1 else c(u, v)
  }

  function PairOf(c: Field, pair: nat): (real, real) {
    (c(First(pair).0, First(pair).1), c(Second(pair).0, Second(pair).1))
  }

  function Modulate(values: (real, real), bit: int, delta: real): (real, real)
    requires delta > 0.0
  {
    Qim.EmbedPair(values.0, values.1, bit, delta)
  }

  function EmbedAt(t: BlockTransform, band: Field, bit: int, row: int, column: int, pair: nat, delta: real): Field
    requires delta > 0.0
  {
    var c := CoefficientsAt(t, band, row, column);
    WriteBlock(band, row, column, t.inverse(SetPair(c, pair, Modulate(PairOf(c, pair), bit, delta))))
  }

  function EmbedBit(t: BlockTransform, band: Field, bit: int, position: nat, edge: nat, delta: real): Field
    requires delta > 0.0 && edge > 0
  {
    EmbedAt(t, band, bit, Row(position, edge), ColumnAt(position, edge), PairIndex(position), delta)
  }

  /** The band after the first n replicated bits. */
  function EmbedBits(t: BlockTransform, band: Field, bits: int -> int, positions: seq<nat>, edge: nat, delta: real,
                     n: nat)
    : Field
    requires delta > 0.0 && edge > 0 && n <= |positions|
  {
    if n == 0 then band
    else EmbedBit(t, EmbedBits(t, band, bits, positions, edge, delta, n - 1),
                  bits(n - 1), positions[n - 1], edge, delta)
  }

  /** After a step the addressed block holds exactly the modulated
      coefficients. */
  lemma StepWrites(t: BlockTransform, band: Field, bit: int, row: int, column: int, pair: nat, delta: real, u: int,
                   v: int)
    requires t.Laws() && delta > 0.0 && 0 <= u < 8 && 0 <= v < 8
    ensures var c := CoefficientsAt(t, band, row, column);
            CoefficientsAt(t, EmbedAt(t, band, bit, row, column, pair, delta), row, column)(u, v)
            == SetPair(c, pair, Modulate(PairOf(c, pair), bit, delta))(u, v)
  {
    var c := CoefficientsAt(t, band, row, column);
    var target := SetPair(c, pair, Modulate(PairOf(c, pair), bit, delta));
    var after := EmbedAt(t, band, bit, row, column, pair, delta);
    assert SameOnBlock(BlockAt(after, row, column), t.inverse(target));
    assert t.Inverts(target, BlockAt(after, row, column));
  }

  lemma WriteElsewhere(band: Field, row: int, column: int, block: Field, otherRow: int, otherColumn: int)
    requires row % 8 == column % 8 == otherRow % 8 == otherColumn % 8 == 0
    requires row != otherRow || column != otherColumn
    ensures SameOnBlock(BlockAt(WriteBlock(band, row, column, block), otherRow, otherColumn),
                        BlockAt(band, otherRow, otherColumn))
  {
    forall i, j | 0 <= i < 8 && 0 <= j < 8
      ensures BlockAt(WriteBlock(band, row, column, block), otherRow, otherColumn)(i, j)
           == BlockAt(band, otherRow, otherColumn)(i, j)
    {
      assert !(row <= otherRow + i < row + 8 && column <= otherColumn + j < column + 8);
    }
  }

  lemma ForwardLocal(t: BlockTransform, b: Field, b': Field, u: int, v: int)
    requires t.Laws() && SameOnBlock(b, b') && 0 <= u < 8 && 0 <= v < 8
    ensures t.forward(b)(u, v) == t.forward(b')(u, v) && t.inverse(b)(u, v) == t.inverse(b')(u, v)
  {
    assert t.Local(b, b');
  }

  /** Every other block is left alone. */
  lemma StepPreserves(t: BlockTransform, band: Field, bit: int, row: int, column: int, pair: nat, delta: real,
                      otherRow: int, otherColumn: int, u: int, v: int)
    requires t.Laws() && delta > 0.0 && 0 <= u < 8 && 0 <= v < 8
    requires row % 8 == column % 8 == otherRow % 8 == otherColumn % 8 == 0
    requires row != otherRow || column != otherColumn
    ensures CoefficientsAt(t, EmbedAt(t, band, bit, row, column, pair, delta), otherRow, otherColumn)(u, v)
         == CoefficientsAt(t, band, otherRow, otherColumn)(u, v)
  {
    var c := CoefficientsAt(t, band, row, column);
    var block := t.inverse(SetPair(c, pair, Modulate(PairOf(c, pair), bit, delta)));
    WriteElsewhere(band, row, column, block, otherRow, otherColumn);
    ForwardLocal(t, BlockAt(WriteBlock(band, row, column, block), otherRow, otherColumn),
                 BlockAt(band, otherRow, otherColumn), u, v);
  }

  // ----- the whole embedding, in coefficients

  function CoefficientsOf(t: BlockTransform, band: Field, position: nat, edge: nat): Field
    requires edge > 0
  {
    CoefficientsAt(t, band, Row(position, edge), ColumnAt(position, edge))
  }

  function PairIn(t: BlockTransform, band: Field, position: nat, edge: nat): (real, real)
    requires edge > 0
  {
    PairOf(CoefficientsOf(t, band, position, edge), PairIndex(position))
  }

  predicate Carrier(u: int, v: int) { (u, v) in {(1, 2), (2, 1), (2, 3), (3, 2)} }

  lemma PairStepAt(t: BlockTransform, band: Field, bit: int, row: int, column: int, pair: nat, delta: real,
                   otherRow: int, otherColumn: int, otherPair: nat)
    requires t.Laws() && delta > 0.0 && pair < 2 && otherPair < 2
    requires row % 8 == column % 8 == otherRow % 8 == otherColumn % 8 == 0
    ensures var after := EmbedAt(t, band, bit, row, column, pair, delta);
            var other := PairOf(CoefficientsAt(t, band, otherRow, otherColumn), otherPair);
            PairOf(CoefficientsAt(t, after, otherRow, otherColumn), otherPair)
            == if (otherRow, otherColumn, otherPair) == (row, column, pair) then Modulate(other, bit, delta) else other
  {
    var f, s := First(otherPair), Second(otherPair);
    if (otherRow, otherColumn) == (row, column) {
      StepWrites(t, band, bit, row, column, pair, delta, f.0, f.1);
      StepWrites(t, band, bit, row, column, pair, delta, s.0, s.1);
    } else {
      StepPreserves(t, band, bit, row, column, pair, delta, otherRow, otherColumn, f.0, f.1);
      StepPreserves(t, band, bit, row, column, pair, delta, otherRow, otherColumn, s.0, s.1);
    }
  }

  /** A position is its row, column and pair. */
  lemma PositionUnique(p: nat, q: nat, edge: nat)
    requires edge > 0
    ensures Row(p, edge) % 8 == 0 && ColumnAt(p, edge) % 8 == 0 && PairIndex(p) < 2
    ensures (Row(p, edge), ColumnAt(p, edge), PairIndex(p)) == (Row(q, edge), ColumnAt(q, edge), PairIndex(q))
            ==> p == q
  {
    if BlockOf(p) != BlockOf(q) { BlocksDisjoint(p, q, edge); }
  }

  lemma PairStep(t: BlockTransform, band: Field, bit: int, position: nat, other: nat, edge: nat, delta: real)
    requires t.Laws() && delta > 0.0 && edge > 0
    ensures PairIn(t, EmbedBit(t, band, bit, position, edge, delta), other, edge)
         == if other == position then Modulate(PairIn(t, band, other, edge), bit, delta)
            else PairIn(t, band, other, edge)
  {
    PositionUnique(other, position, edge);
    PositionUnique(position, other, edge);
    PairStepAt(t, band, bit, Row(position, edge), ColumnAt(position, edge), PairIndex(position), delta,
               Row(other, edge), ColumnAt(other, edge), PairIndex(other));
  }

  lemma CarrierStep(t: BlockTransform, band: Field, bit: int, position: nat, other: nat, edge: nat, delta: real,
                    u: int, v: int)
    requires t.Laws() && delta > 0.0 && edge > 0 && 0 <= u < 8 && 0 <= v < 8 && !Carrier(u, v)
    ensures CoefficientsOf(t, EmbedBit(t, band, bit, position, edge, delta), other, edge)(u, v)
         == CoefficientsOf(t, band, other, edge)(u, v)
  {
    var row, column := Row(position, edge), ColumnAt(position, edge);
    PositionUnique(other, position, edge);
    PositionUnique(position, other, edge);
    if (Row(other, edge), ColumnAt(other, edge)) == (row, column) {
      StepWrites(t, band, bit, row, column, PairIndex(position), delta, u, v);
    } else {
      StepPreserves(t, band, bit, row, column, PairIndex(position), delta,
                    Row(other, edge), ColumnAt(other, edge), u, v);
    }
  }

  /** Replica writes do not interfere: in the final band every written pair
      holds the modulation of its own original value, and every other pair
      has its original value. */
  lemma {:induction false} NonInterference(t: BlockTransform, band: Field, bits: int -> int, positions: seq<nat>,
                                           edge: nat, delta: real, n: nat, p: nat)
    requires t.Laws() && delta > 0.0 && edge > 0 && n <= |positions| && Distinct(positions)
    ensures p !in positions[..n] ==>
              PairIn(t, EmbedBits(t, band, bits, positions, edge, delta, n), p, edge)
              == PairIn(t, band, p, edge)
    ensures forall q :: 0 <= q < n && positions[q] == p ==>
              PairIn(t, EmbedBits(t, band, bits, positions, edge, delta, n), p, edge)
              == Modulate(PairIn(t, band, p, edge), bits(q), delta)
  {
    if n > 0 {
      var position := positions[n - 1];
      NonInterference(t, band, bits, positions, edge, delta, n - 1, p);
      PairStep(t, EmbedBits(t, band, bits, positions, edge, delta, n - 1), bits(n - 1), position, p, edge, delta);
      assert positions[..n] == positions[..n - 1] + [position];
      assert position !in positions[..n - 1];
    }
  }

  /** Coefficients outside the two carrier pairs never change. */
  lemma {:induction false} CarriersOnly(t: BlockTransform, band: Field, bits: int -> int, positions: seq<nat>,
                                        edge: nat, delta: real, n: nat, p: nat, u: int, v: int)
    requires t.Laws() && delta > 0.0 && edge > 0 && n <= |positions|
    requires 0 <= u < 8 && 0 <= v < 8 && !Carrier(u, v)
    ensures CoefficientsOf(t, EmbedBits(t, band, bits, positions, edge, delta, n), p, edge)(u, v)
         == CoefficientsOf(t, band, p, edge)(u, v)
  {
    if n > 0 {
      CarriersOnly(t, band, bits, positions, edge, delta, n - 1, p, u, v);
      CarrierStep(t, EmbedBits(t, band, bits, positions, edge, delta, n - 1), bits(n - 1), positions[n - 1],
                  p, edge, delta, u, v);
    }
  }

  // ----- embedding a codeword into a tile

  function ReplicatedBits(codeword: seq<int>): int -> int {
    q => if 0 <= q / REPLICATION < 8 * |codeword| then Unpacked(codeword, q / REPLICATION) else 0
  }

  /** What one tile's payload is bound to: the transforms, the tile size, the
      placement drawn from the key, and the lattice step. */
  datatype Codec = Codec(t: BlockTransform, root2: real, tileSize: nat, positions: seq<nat>, delta: real) {

    ghost predicate Valid() {
      && t.Laws() && root2 * root2 == 2.0 && Ready()
      && ValidPlacement(positions, CapacityOf(Edge()))
    }

    predicate Ready() { root2 > 0.0 && delta > 0.0 && tileSize >= 16 && tileSize % 16 == 0 }

    function Edge(): nat { BlocksPerEdge(tileSize) }

    function Analyse(tile: Field): Haar.Bands
      requires Ready()
    {
      Haar.Dwt2(root2, tile, tileSize, tileSize)
    }

    function EmbedBand(ll: Field, codeword: seq<int>): Field
      requires Ready()
    {
      EmbedBits(t, ll, ReplicatedBits(codeword), positions, Edge(), delta, |positions|)
    }

    function Embed(tile: Field, codeword: seq<int>): Field
      requires Ready()
    {
      var bands := Analyse(tile);
      Haar.Idwt2(root2, bands.(ll := EmbedBand(bands.ll, codeword)))
    }

    function Extract(tile: Field): Evidence
      requires Ready()
    {
      Vote(ReplicasOf(t, Analyse(tile).ll, positions, Edge(), delta), BITS)
    }
  }

  ghost predicate Holds(a: array2<real>, f: Field)
    reads a
  {
    forall y, x :: 0 <= y < a.Length0 && 0 <= x < a.Length1 ==> a[y, x] == f(y, x)
  }

  method CopyBlock(band: array2<real>, row: nat, column: nat, rows: nat, columns: nat) returns (block: Field)
    requires row + rows <= band.Length0 && column + columns <= band.Length1
    ensures forall i, j :: 0 <= i < rows && 0 <= j < columns ==> block(i, j) == band[row + i, column + j]
  {
    var copy := seq(rows, i requires 0 <= i < rows reads band =>
                    seq(columns, j requires 0 <= j < columns reads band => band[row + i, column + j]));
    block := (i, j) => if 0 <= i < |copy| && 0 <= j < |copy[i]| then copy[i][j] else 0.0;
  }

  /** Rewrite one 8x8 block of the band in place. */
  method EmbedBitInPlace(t: BlockTransform, band: array2<real>, ghost f: Field, bit: int, row: nat, column: nat,
                         pair: nat, delta: real)
    requires t.Laws() && delta > 0.0
    requires row + 8 <= band.Length0 && column + 8 <= band.Length1
    requires Holds(band, f)
    modifies band
    ensures Holds(band, EmbedAt(t, f, bit, row, column, pair, delta))
  {
    var block := CopyBlock(band, row, column, 8, 8);
    var c := t.forward(block);
    var embedded := t.inverse(SetPair(c, pair, Modulate(PairOf(c, pair), bit, delta)));
    StepFromCopy(t, f, block, bit, row, column, pair, delta, embedded);
    OverwriteBlock(band, f, row, column, embedded, EmbedAt(t, f, bit, row, column, pair, delta));
  }

  method OverwriteBlock(band: array2<real>, ghost f: Field, row: nat, column: nat, block: Field, ghost after: Field)
    requires row + 8 <= band.Length0 && column + 8 <= band.Length1
    requires Holds(band, f) && Rewritten(after, f, row, column, block)
    modifies band
    ensures Holds(band, after)
  {
    forall y, x | row <= y < row + 8 && column <= x < column + 8 {
      band[y, x] := block(y - row, x - column);
    }
  }

  lemma SamePairs(t: BlockTransform, b: Field, b': Field, pair: nat)
    requires t.Laws() && SameOnBlock(b, b')
    ensures PairOf(t.forward(b), pair) == PairOf(t.forward(b'), pair)
  {
    ForwardLocal(t, b, b', First(pair).0, First(pair).1);
    ForwardLocal(t, b, b', Second(pair).0, Second(pair).1);
  }

  lemma SameTargets(t: BlockTransform, b: Field, b': Field, pair: nat, values: (real, real))
    requires t.Laws() && SameOnBlock(b, b')
    ensures SameOnBlock(SetPair(t.forward(b), pair, values), SetPair(t.forward(b'), pair, values))
  {
    forall u, v | 0 <= u < 8 && 0 <= v < 8
      ensures SetPair(t.forward(b), pair, values)(u, v) == SetPair(t.forward(b'), pair, values)(u, v)
    {
      ForwardLocal(t, b, b', u, v);
    }
  }

  /** A step computed from a copy of the block is the step on the band. */
  lemma SameStep(t: BlockTransform, f: Field, block: Field, bit: int, row: int, column: int, pair: nat, delta: real,
                 y: int, x: int)
    requires t.Laws() && delta > 0.0
    requires SameOnBlock(block, BlockAt(f, row, column))
    ensures var c := t.forward(block);
            var embedded := t.inverse(SetPair(c, pair, Modulate(PairOf(c, pair), bit, delta)));
            EmbedAt(t, f, bit, row, column, pair, delta)(y, x) ==
            if row <= y < row + 8 && column <= x < column + 8 then embedded(y - row, x - column) else f(y, x)
  {
    if row <= y < row + 8 && column <= x < column + 8 {
      var b := BlockAt(f, row, column);
      SamePairs(t, block, b, pair);
      var values := Modulate(PairOf(t.forward(block), pair), bit, delta);
      SameTargets(t, block, b, pair, values);
      ForwardLocal(t, SetPair(t.forward(block), pair, values), SetPair(t.forward(b), pair, values), y - row,
                   x - column);
    }
  }

  /** The field equals another outside a block and the given values inside. */
  ghost predicate Rewritten(after: Field, f: Field, row: int, column: int, block: Field) {
    forall y, x :: after(y, x) ==
      if row <= y < row + 8 && column <= x < column + 8 then block(y - row, x - column) else f(y, x)
  }

  lemma StepFromCopy(t: BlockTransform, f: Field, block: Field, bit: int, row: int, column: int, pair: nat, delta: real,
                     embedded: Field)
    requires t.Laws() && delta > 0.0 && SameOnBlock(block, BlockAt(f, row, column))
    requires embedded
             == t.inverse(SetPair(t.forward(block), pair, Modulate(PairOf(t.forward(block), pair), bit, delta)))
    ensures Rewritten(EmbedAt(t, f, bit, row, column, pair, delta), f, row, column, embedded)
  {
    forall y, x
      ensures EmbedAt(t, f, bit, row, column, pair, delta)(y, x) ==
              if row <= y < row + 8 && column <= x < column + 8 then embedded(y - row, x - column) else f(y, x)
    {
      SameStep(t, f, block, bit, row, column, pair, delta, y, x);
    }
  }

  method EmbedNext(t: BlockTransform, band: array2<real>, ghost f: Field, bit: int, position: nat, edge: nat,
                   delta: real)
    requires t.Laws() && delta > 0.0 && edge > 0 && position < CapacityOf(edge)
    requires band.Length0 == band.Length1 == 8 * edge && Holds(band, f)
    modifies band
    ensures Holds(band, EmbedBit(t, f, bit, position, edge, delta))
  {
    PositionInBand(position, edge);
    EmbedBitInPlace(t, band, f, bit, Row(position, edge), ColumnAt(position, edge), PairIndex(position), delta);
  }

  method LoadBand(ll: Field, size: nat) returns (band: array2<real>)
    ensures fresh(band) && band.Length0 == band.Length1 == size && Holds(band, ll)
  {
    band := new real[size, size]((y, x) => ll(y, x));
  }

  /** Write every replicated bit into the band, in order. */
  method EmbedAll(t: BlockTransform, band: array2<real>, ghost ll: Field, bits: int -> int, positions: seq<nat>,
                  edge: nat, delta: real)
    requires t.Laws() && delta > 0.0 && edge > 0
    requires forall q :: 0 <= q < |positions| ==> positions[q] < CapacityOf(edge)
    requires band.Length0 == band.Length1 == 8 * edge && Holds(band, ll)
    modifies band
    ensures Holds(band, EmbedBits(t, ll, bits, positions, edge, delta, |positions|))
  {
    for index := 0 to |positions|
      invariant Holds(band, EmbedBits(t, ll, bits, positions, edge, delta, index))
    {
      EmbedNext(t, band, EmbedBits(t, ll, bits, positions, edge, delta, index), bits(index), positions[index], edge,
                delta);
    }
  }

  /** Embed into a mutable copy of the LL band. */
  method EmbedReplicas(t: BlockTransform, ll: Field, bits: int -> int, positions: seq<nat>, edge: nat, delta: real)
    returns (embedded: Field)
    requires t.Laws() && delta > 0.0 && edge > 0
    requires forall q :: 0 <= q < |positions| ==> positions[q] < CapacityOf(edge)
    ensures SameImage(embedded, EmbedBits(t, ll, bits, positions, edge, delta, |positions|), 8 * edge)
  {
    var band := LoadBand(ll, 8 * edge);
    EmbedAll(t, band, ll, bits, positions, edge, delta);
    embedded := UnloadBand(band, 8 * edge, EmbedBits(t, ll, bits, positions, edge, delta, |positions|));
  }

  method UnloadBand(band: array2<real>, size: nat, ghost f: Field) returns (copy: Field)
    requires band.Length0 == band.Length1 == size && Holds(band, f)
    ensures SameImage(copy, f, size)
  {
    copy := CopyBlock(band, 0, 0, size, size);
  }

  method EmbedCodeword(codec: Codec, tile: Field, codeword: seq<int>) returns (out: array2<real>)
    requires codec.Valid() && IsCodeword(codeword)
    ensures fresh(out) && out.Length0 == out.Length1 == codec.tileSize
    ensures Holds(out, codec.Embed(tile, codeword))
  {
    var embedded := EmbedReplicas(codec.t, codec.Analyse(tile).ll, ReplicatedBits(codeword), codec.positions,
                                  codec.Edge(), codec.delta);
    out := RestoreEmbedded(codec, tile, codeword, embedded);
  }

  /** Put the embedded band back between the tile's other bands. */
  method RestoreEmbedded(codec: Codec, tile: Field, ghost codeword: seq<int>, band: Field) returns (out: array2<real>)
    requires codec.Ready()
    requires SameImage(band, codec.EmbedBand(codec.Analyse(tile).ll, codeword), 8 * codec.Edge())
    ensures fresh(out) && out.Length0 == out.Length1 == codec.tileSize
    ensures Holds(out, codec.Embed(tile, codeword))
  {
    var bands := codec.Analyse(tile).(ll := band);
    RestoredTile(codec, tile, codeword, band);
    out := RestoreTile(codec.root2, bands, codec.tileSize, codec.Embed(tile, codeword));
  }

  method RestoreTile(root2: real, bands: Haar.Bands, size: nat, ghost target: Field) returns (out: array2<real>)
    requires root2 > 0.0 && size % 2 == 0 && SameImage(Haar.Idwt2(root2, bands), target, size)
    ensures fresh(out) && out.Length0 == out.Length1 == size && Holds(out, target)
  {
    var restored := Haar.Restore(root2, bands, size / 2, size / 2, size, size);
    out := restored.value;
    HoldsSame(out, Haar.Idwt2(root2, bands), target, size);
  }

  lemma HoldsSame(a: array2<real>, f: Field, g: Field, n: nat)
    requires a.Length0 == a.Length1 == n && Holds(a, f) && SameImage(f, g, n)
    ensures Holds(a, g)
  {
  }

  predicate SameImage(f: Field, g: Field, n: nat) {
    forall y, x :: 0 <= y < n && 0 <= x < n ==> f(y, x) == g(y, x)
  }

  /** The inverse level reads only the LL band's own samples. */
  lemma RestoredTile(codec: Codec, tile: Field, codeword: seq<int>, band: Field)
    requires codec.Ready()
    requires SameImage(band, codec.EmbedBand(codec.Analyse(tile).ll, codeword), 8 * codec.Edge())
    ensures SameImage(Haar.Idwt2(codec.root2, codec.Analyse(tile).(ll := band)), codec.Embed(tile, codeword),
                      codec.tileSize)
  {
    var a := codec.Analyse(tile).(ll := band);
    var b := a.(ll := codec.EmbedBand(codec.Analyse(tile).ll, codeword));
    forall y, x | 0 <= y < codec.tileSize && 0 <= x < codec.tileSize
      ensures Haar.Idwt2(codec.root2, a)(y, x) == Haar.Idwt2(codec.root2, b)(y, x)
    {
      SameQuad(codec.root2, a, b, y, x);
    }
  }

  lemma SameQuad(root2: real, a: Haar.Bands, b: Haar.Bands, y: int, x: int)
    requires root2 > 0.0 && a.lh == b.lh && a.hl == b.hl && a.hh == b.hh
    requires a.ll(y / 2, x / 2) == b.ll(y / 2, x / 2)
    ensures Haar.Idwt2(root2, a)(y, x) == Haar.Idwt2(root2, b)(y, x)
  {
  }

  // ----- extraction

  function Replica(t: BlockTransform, band: Field, position: nat, edge: nat, delta: real): Qim.Extraction
    requires edge > 0 && delta > 0.0
  {
    var (a, b) := PairIn(t, band, position, edge);
    Qim.ExtractPair(a, b, delta)
  }

  type Replicas = int -> Qim.Extraction

  /** Total confidence of the first n replicas from `start` that read `bit`. */
  function Weight(replicas: Replicas, start: int, n: nat, bit: int): real
    decreases n, replicas
  {
    if n == 0 then 0.0
    else Weight(replicas, start, n - 1, bit)
         + (if replicas(start + n - 1).bit == bit then replicas(start + n - 1).confidence else 0.0)
  }

  function Winner(replicas: Replicas, i: int): int {
    if Weight(replicas, i * REPLICATION, REPLICATION, 1) > Weight(replicas, i * REPLICATION, REPLICATION, 0)
    then 1 else 0
  }

  function WinningConfidence(replicas: Replicas, i: int): real {
    Max(Weight(replicas, i * REPLICATION, REPLICATION, 0), Weight(replicas, i * REPLICATION, REPLICATION, 1))
    / REPLICATION as real
  }

  /** Replicas among the first n from `start` that do not read `bit`. */
  function Dissent(replicas: Replicas, start: int, n: nat, bit: int): nat
    decreases n, replicas
  {
    if n == 0 then 0
    else Dissent(replicas, start, n - 1, bit) + (if replicas(start + n - 1).bit == bit then 0 else 1)
  }

  function Disagreement(replicas: Replicas, n: nat): nat
    decreases n, replicas
  {
    if n == 0 then 0
    else Disagreement(replicas, n - 1)
         + Dissent(replicas, (n - 1) * REPLICATION, REPLICATION, Winner(replicas, n - 1))
  }

  function Rate(count: nat, total: nat): real
    requires total > 0
  {
    count as real / total as real
  }

  function Winners(replicas: Replicas): int -> int { i => Winner(replicas, i) }

  function WinningConfidences(replicas: Replicas): int -> real { i => WinningConfidence(replicas, i) }

  function Vote(replicas: Replicas, bits: nat): Evidence
    requires bits > 0
  {
    Collect(Winners(replicas), WinningConfidences(replicas), CONFIDENCE_MIN,
            Rate(Disagreement(replicas, bits), REPLICATION * bits))
  }

  function ReplicasOf(t: BlockTransform, band: Field, positions: seq<nat>, edge: nat, delta: real): Replicas
    requires edge > 0 && delta > 0.0
  {
    q => if 0 <= q < |positions| then Replica(t, band, positions[q], edge, delta) else Qim.Extraction(0, 0, 0.0)
  }

  /** Read the pair at every position, one block transform each. */
  method ReadReplicas(t: BlockTransform, band: Field, positions: seq<nat>, edge: nat, delta: real)
    returns (bits: array<int>, confidences: array<real>)
    requires edge > 0 && delta > 0.0
    ensures bits.Length == confidences.Length == |positions|
    ensures forall q :: 0 <= q < |positions| ==>
              var r := ReplicasOf(t, band, positions, edge, delta)(q);
              bits[q] == r.bit && confidences[q] == r.confidence
  {
    ghost var replicas := ReplicasOf(t, band, positions, edge, delta);
    bits := new int[|positions|];
    confidences := new real[|positions|];
    for index := 0 to |positions|
      invariant forall q :: 0 <= q < index ==> bits[q] == replicas(q).bit && confidences[q] == replicas(q).confidence
    {
      var (a, b) := PairIn(t, band, positions[index], edge);
      var extraction := Qim.ExtractPair(a, b, delta);
      bits[index] := extraction.bit;
      confidences[index] := extraction.confidence;
    }
  }

  method ExtractCodeword(codec: Codec, tile: Field) returns (evidence: Evidence)
    requires codec.Ready() && |codec.positions| == REPLICATION * BITS
    ensures evidence == codec.Extract(tile)
  {
    var band := codec.Analyse(tile).ll;
    var bits, confidences := ReadReplicas(codec.t, band, codec.positions, codec.Edge(), codec.delta);
    evidence := TallyReplicas(bits, confidences, BITS,
                              ReplicasOf(codec.t, band, codec.positions, codec.Edge(), codec.delta));
  }

  method WeighBit(bits: array<int>, confidences: array<real>, start: nat, ghost replicas: Replicas)
    returns (zero: real, one: real)
    requires bits.Length == confidences.Length && start + REPLICATION <= bits.Length
    requires forall q :: 0 <= q < bits.Length ==> bits[q] == replicas(q).bit && confidences[q] == replicas(q).confidence
    ensures zero == Weight(replicas, start, REPLICATION, 0) && one == Weight(replicas, start, REPLICATION, 1)
  {
    zero, one := 0.0, 0.0;
    for r := 0 to REPLICATION
      invariant zero == Weight(replicas, start, r, 0) && one == Weight(replicas, start, r, 1)
    {
      if bits[start + r] == 0 { zero := zero + confidences[start + r]; }
      if bits[start + r] == 1 { one := one + confidences[start + r]; }
    }
  }

  method CountDissent(bits: array<int>, start: nat, winner: int, ghost replicas: Replicas) returns (count: nat)
    requires start + REPLICATION <= bits.Length
    requires forall q :: 0 <= q < bits.Length ==> bits[q] == replicas(q).bit
    ensures count == Dissent(replicas, start, REPLICATION, winner)
  {
    count := 0;
    for r := 0 to REPLICATION
      invariant count == Dissent(replicas, start, r, winner)
    {
      if bits[start + r] != winner { count := count + 1; }
    }
  }

  /** Weigh the next bit's replicas, record the winner, count the dissenters. */
  method TallyBit(bits: array<int>, confidences: array<real>, tally: Tally, ghost replicas: Replicas)
    returns (next: Tally, dissent: nat)
    requires bits.Length == confidences.Length && (|tally.bits| + 1) * REPLICATION <= bits.Length
    requires forall q :: 0 <= q < bits.Length ==> bits[q] == replicas(q).bit && confidences[q] == replicas(q).confidence
    requires tally.Follows(Winners(replicas), WinningConfidences(replicas))
    ensures next.Follows(Winners(replicas), WinningConfidences(replicas))
    ensures |next.bits| == |tally.bits| + 1 && next.threshold == tally.threshold
    ensures dissent == Dissent(replicas, |tally.bits| * REPLICATION, REPLICATION, Winner(replicas, |tally.bits|))
  {
    var start := |tally.bits| * REPLICATION;
    var zero, one := WeighBit(bits, confidences, start, replicas);
    var winner := if one > zero then 1 else 0;
    dissent := CountDissent(bits, start, winner, replicas);
    next := tally.Add(winner, Max(zero, one) / REPLICATION as real, Winners(replicas), WinningConfidences(replicas));
  }

  method TallyReplicas(bits: array<int>, confidences: array<real>, count: nat, ghost replicas: Replicas)
    returns (evidence: Evidence)
    requires bits.Length == confidences.Length == REPLICATION * count && count == BITS
    requires forall q :: 0 <= q < bits.Length ==> bits[q] == replicas(q).bit && confidences[q] == replicas(q).confidence
    ensures evidence == Vote(replicas, count)
  {
    ghost var winners := Winners(replicas);
    ghost var winning := WinningConfidences(replicas);
    var tally := NewTally(CONFIDENCE_MIN);
    var disagreementSum := 0;
    for index := 0 to count
      invariant tally.Follows(winners, winning) && |tally.bits| == index
      invariant tally.threshold == CONFIDENCE_MIN
      invariant disagreementSum == Disagreement(replicas, index)
    {
      var dissent;
      tally, dissent := TallyBit(bits, confidences, tally, replicas);
      disagreementSum := disagreementSum + dissent;
    }
    evidence := tally.Finish(Rate(disagreementSum, bits.Length), winners, winning);
  }
}
