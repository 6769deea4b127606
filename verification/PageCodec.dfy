/** Payload embedding over a page: each selected tile is rewritten in place by
    the carrier its saturation calls for. */
module PageCodec {
  import opened Collections
  import opened Numbers
  import opened Transform
  import opened Codeword
  import opened DctCodec
  import opened SpreadChips
  import opened SpreadCodec
  import opened Tiles
  import Placement

  /** A square region, row by row. */
  type Samples = seq<seq<real>>

  function CutRow(f: Field, t: Tile, y: int): seq<real> { seq(t.size, x => f(t.y + y, t.x + x)) }

  /** The samples under a tile. */
  function Cut(f: Field, t: Tile): Samples { seq(t.size, y => CutRow(f, t, y)) }

  function AsField(rows: Samples): Field {
    (y, x) => if 0 <= y < |rows| && 0 <= x < |rows[y]| then rows[y][x] else 0.0
  }

  lemma CutAt(f: Field, t: Tile, y: int, x: int)
    requires 0 <= y < t.size && 0 <= x < t.size
    ensures AsField(Cut(f, t))(y, x) == f(t.y + y, t.x + x)
  {
    assert Cut(f, t)[y] == CutRow(f, t, y);
  }

  /** Row-major order. */
  function Flat(rows: Samples, n: nat): (s: seq<real>)
    requires n > 0
    ensures |s| == n * n
  {
    seq(n * n, i requires 0 <= i => AsField(rows)(i / n, i % n))
  }

  function Clamp(v: real): real { Max(0.0, Min(255.0, v)) }

  function Clamped(s: seq<real>): (c: seq<real>)
    ensures |c| == |s|
  {
    seq(|s|, i requires 0 <= i < |s| => Clamp(s[i]))
  }

  function Bright(s: seq<real>, high: real): nat -> bool { (i: nat) => i < |s| && s[i] >= high }

  function Dark(s: seq<real>, low: real): nat -> bool { (i: nat) => i < |s| && s[i] <= low }

  function Spreaded(host: seq<real>, groups: seq<Chips>, codeword: seq<int>, delta: real, polarity: Polarity): seq<real>
    requires BITS <= |groups| && BITS <= 8 * |codeword|
  {
    seq(|host|, x requires 0 <= x < |host| =>
      if ActiveBelow(groups, codeword, BITS, x) then Moved(host[x], delta, polarity) else host[x])
  }

  lemma SpreadUnique(host: seq<real>, spread: seq<real>, groups: seq<Chips>, codeword: seq<int>, delta: real,
                     polarity: Polarity)
    requires BITS <= |groups| && BITS <= 8 * |codeword|
    ensures IsSpread(host, Spreaded(host, groups, codeword, delta, polarity), groups, codeword, BITS, delta, polarity)
    ensures IsSpread(host, spread, groups, codeword, BITS, delta, polarity) ==>
              spread == Spreaded(host, groups, codeword, delta, polarity)
  {
  }

  /** One candidate's carriers and the rule that chooses between them. */
  datatype Profile = Profile(codec: Codec, groups: seq<Chips>, spreadDelta: real, high: real, low: real,
                             saturatedFraction: real, repetitions: nat) {

    predicate Ready() {
      && codec.Ready() && |codec.positions| == Placement.REPLICATION * BITS
      && |groups| == BITS && NonEmpty(groups) && spreadDelta > 0.0
    }

    ghost predicate Valid() { Ready() && codec.Valid() && GroupsSound(groups, Size() * Size()) }

    function Size(): nat { codec.tileSize }

    function Flattened(rows: Samples): seq<real>
      requires Ready()
    {
      Flat(rows, Size())
    }

    /** Enough of the tile is nearly white, or nearly black. */
    predicate Saturated(rows: Samples)
      requires Ready()
    {
      var s := Flattened(rows);
      || Rate(Count(|s|, Bright(s, high)), |s|) >= saturatedFraction
      || Rate(Count(|s|, Dark(s, low)), |s|) >= saturatedFraction
    }

    /** The spread carrier's host and result. */
    function Host(rows: Samples): seq<real>
      requires Ready()
    {
      Clamped(Flattened(rows))
    }

    function Spread(rows: Samples, codeword: seq<int>): seq<real>
      requires Ready() && IsCodeword(codeword)
    {
      Spreaded(Host(rows), groups, codeword, spreadDelta, PolarityOf(Host(rows)))
    }

    function Unflattened(s: seq<real>): Field { (y, x) => Values(s)(y * Size() + x) }

    function Carry(rows: Samples, codeword: seq<int>): Field
      requires Ready() && IsCodeword(codeword)
    {
      if Saturated(rows) then Unflattened(Spread(rows, codeword)) else codec.Embed(AsField(rows), codeword)
    }

    function CarrierOf(codeword: seq<int>): Samples -> Field
      requires Ready() && IsCodeword(codeword)
    {
      (rows: Samples) => Carry(rows, codeword)
    }
  }

  predicate InTile(t: Tile, y: int, x: int) { t.y <= y < t.y + t.size && t.x <= x < t.x + t.size }

  function Paste(f: Field, t: Tile, content: Field): Field {
    (y, x) => if InTile(t, y, x) then content(y - t.y, x - t.x) else f(y, x)
  }

  /** What a region's samples become. */
  type Carrier = Samples -> Field

  function PasteCarried(f: Field, t: Tile, carry: Carrier): Field { Paste(f, t, carry(Cut(f, t))) }

  /** The luminance after the first n tiles. */
  function EmbedTiles(carry: Carrier, f: Field, tiles: seq<Tile>, n: nat): Field
    requires n <= |tiles|
    decreases n, f
  {
    if n == 0 then f else PasteCarried(EmbedTiles(carry, f, tiles, n - 1), tiles[n - 1], carry)
  }

  // ----- the embedding loop

  method CutTile(a: array2<real>, t: Tile, ghost f: Field) returns (rows: Samples)
    requires Holds(a, f) && InPage(t, a.Length0, a.Length1)
    ensures rows == Cut(f, t)
  {
    rows := seq(t.size, y requires 0 <= y < t.size reads a =>
                seq(t.size, x requires 0 <= x < t.size reads a => a[t.y + y, t.x + x]));
    forall y | 0 <= y < t.size ensures rows[y] == CutRow(f, t, y) {
    }
  }

  method SpreadTile(p: Profile, rows: Samples, codeword: seq<int>) returns (s: seq<real>)
    requires p.Valid() && IsCodeword(codeword)
    ensures s == p.Spread(rows, codeword)
  {
    var host := p.Host(rows);
    var samples := new real[|host|](i requires 0 <= i < |host| => host[i]);
    assert samples[..] == host;
    EmbedSpread(samples, codeword, p.groups, p.spreadDelta);
    s := samples[..];
    SpreadUnique(host, s, p.groups, codeword, p.spreadDelta, PolarityOf(host));
  }

  method CarryTile(p: Profile, rows: Samples, codeword: seq<int>) returns (out: array2<real>)
    requires p.Valid() && IsCodeword(codeword)
    ensures fresh(out) && out.Length0 == out.Length1 == p.Size() && Holds(out, p.Carry(rows, codeword))
  {
    if p.Saturated(rows) {
      var s := SpreadTile(p, rows, codeword);
      out := new real[p.Size(), p.Size()]((y, x) => Values(s)(y * p.Size() + x));
    } else {
      out := EmbedCodeword(p.codec, AsField(rows), codeword);
    }
  }

  method PasteTile(a: array2<real>, t: Tile, content: array2<real>, ghost f: Field, ghost g: Field)
    requires a != content && InPage(t, a.Length0, a.Length1) && content.Length0 == content.Length1 == t.size
    requires Holds(a, f) && Holds(content, g)
    modifies a
    ensures Holds(a, Paste(f, t, g))
  {
    forall y, x | t.y <= y < t.y + t.size && t.x <= x < t.x + t.size {
      a[y, x] := content[y - t.y, x - t.x];
    }
    PastedHolds(a, t, f, g);
  }

  lemma PastedHolds(a: array2<real>, t: Tile, f: Field, g: Field)
    requires forall y, x :: 0 <= y < a.Length0 && 0 <= x < a.Length1 ==>
               a[y, x] == if InTile(t, y, x) then g(y - t.y, x - t.x) else f(y, x)
    ensures Holds(a, Paste(f, t, g))
  {
  }

  /** Carry the codeword in every tile of the luminance, in order. */
  method EmbedPage(p: Profile, modified: array2<real>, ghost f: Field, tiles: seq<Tile>, codeword: seq<int>)
    requires p.Valid() && IsCodeword(codeword) && Holds(modified, f)
    requires forall t :: t in tiles ==> t.size == p.Size() && InPage(t, modified.Length0, modified.Length1)
    modifies modified
    ensures Holds(modified, EmbedTiles(p.CarrierOf(codeword), f, tiles, |tiles|))
  {
    ghost var carry := p.CarrierOf(codeword);
    for i := 0 to |tiles|
      invariant Holds(modified, EmbedTiles(carry, f, tiles, i))
    {
      ghost var before := EmbedTiles(carry, f, tiles, i);
      assert tiles[i] in tiles;
      var rows := CutTile(modified, tiles[i], before);
      var carried := CarryTile(p, rows, codeword);
      PasteTile(modified, tiles[i], carried, before, carry(rows));
    }
  }

  // ----- tiles do not disturb each other

  lemma PasteAt(f: Field, t: Tile, carry: Carrier, y: int, x: int)
    ensures PasteCarried(f, t, carry)(y, x) == if InTile(t, y, x) then carry(Cut(f, t))(y - t.y, x - t.x) else f(y, x)
  {
  }

  lemma Elsewhere(t: Tile, u: Tile, y: int, x: int)
    requires Disjoint(t, u) && InTile(t, y, x)
    ensures !InTile(u, y, x)
  {
  }

  /** In the final luminance, tile k holds the carrier of what it held when its
      turn came. */
  lemma {:induction false} TileKept(carry: Carrier, f: Field, tiles: seq<Tile>, n: nat, k: nat, y: int, x: int)
    requires k < n <= |tiles| && PairwiseDisjoint(tiles) && InTile(tiles[k], y, x)
    ensures EmbedTiles(carry, f, tiles, n)(y, x)
         == carry(Cut(EmbedTiles(carry, f, tiles, k), tiles[k]))(y - tiles[k].y, x - tiles[k].x)
    decreases n
  {
    PasteAt(EmbedTiles(carry, f, tiles, n - 1), tiles[n - 1], carry, y, x);
    if k < n - 1 {
      TileKept(carry, f, tiles, n - 1, k, y, x);
      Elsewhere(tiles[k], tiles[n - 1], y, x);
    }
  }

  /** Outside the tiles the luminance is untouched. */
  lemma {:induction false} OutsideKept(carry: Carrier, f: Field, tiles: seq<Tile>, n: nat, y: int, x: int)
    requires n <= |tiles| && forall k :: 0 <= k < n ==> !InTile(tiles[k], y, x)
    ensures EmbedTiles(carry, f, tiles, n)(y, x) == f(y, x)
    decreases n
  {
    if n > 0 {
      PasteAt(EmbedTiles(carry, f, tiles, n - 1), tiles[n - 1], carry, y, x);
      OutsideKept(carry, f, tiles, n - 1, y, x);
    }
  }
}
