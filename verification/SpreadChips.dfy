/** The chip groups of the spread codec: keyed blocks, each split into two
    complementary 4x4 quadrants, sixteen chips to either side of a bit. */
module SpreadChips {
  import opened Collections
  import opened Numbers
  import opened Options
  import opened KeyedStream
  import opened Placement
  import opened Codeword

  /** The two sample groups of one bit. */
  datatype Chips = Chips(a: seq<nat>, b: seq<nat>)

  datatype ChipOutcome = NotDivisible | InsufficientCapacity | StreamExhausted | Grouped(groups: seq<Chips>)

  function BlocksPerEdge(edge: nat): nat { edge / 8 }

  function BlockCapacity(edge: nat): nat { BlocksPerEdge(edge) * BlocksPerEdge(edge) }

  // ----- one block

  /** The first quadrant lies in the upper half; orientations of two and more
      put it on the right, and odd ones exchange the sides. */
  predicate OnRight(orientation: nat, upper: bool) { (orientation >= 2) == upper }

  predicate Upper(orientation: nat, sideA: bool) { (orientation % 2 == 0) == sideA }

  function ChipY(block: nat, upper: bool, k: nat, edge: nat): nat
    requires BlocksPerEdge(edge) > 0
  {
    block / BlocksPerEdge(edge) * 8 + (if upper then 0 else 4) + k / 4
  }

  function ChipX(block: nat, right: bool, k: nat, edge: nat): nat
    requires BlocksPerEdge(edge) > 0
  {
    block % BlocksPerEdge(edge) * 8 + (if right then 4 else 0) + k % 4
  }

  function Sample(y: nat, x: nat, edge: nat): nat { y * edge + x }

  /** Chip k of one side of an oriented block. */
  function Chip(block: nat, orientation: nat, sideA: bool, k: nat, edge: nat): nat
    requires BlocksPerEdge(edge) > 0
  {
    var upper := Upper(orientation, sideA);
    Sample(ChipY(block, upper, k, edge), ChipX(block, OnRight(orientation, upper), k, edge), edge)
  }

  function Quadrant(block: nat, orientation: nat, sideA: bool, edge: nat): (q: seq<nat>)
    requires BlocksPerEdge(edge) > 0
    ensures |q| == 16
  {
    seq(16, k requires 0 <= k < 16 => Chip(block, orientation, sideA, k, edge))
  }

  // ----- chips determine their block, side and place

  lemma BlockInGrid(block: nat, edge: nat)
    requires block < BlockCapacity(edge)
    ensures BlocksPerEdge(edge) > 0
    ensures block / BlocksPerEdge(edge) < BlocksPerEdge(edge)
    ensures block == block / BlocksPerEdge(edge) * BlocksPerEdge(edge) + block % BlocksPerEdge(edge)
  {
    var n := BlocksPerEdge(edge);
    MulAtLeast(n, n);
    DivMod(block, n);
    MulAtLeast(block / n - n, n);
    assert (block / n - n) * n == block / n * n - n * n;
  }

  lemma SampleDecodes(y: nat, x: nat, edge: nat)
    requires x < edge && y < edge
    ensures Sample(y, x, edge) < edge * edge
    ensures Sample(y, x, edge) / edge == y && Sample(y, x, edge) % edge == x
  {
    DivModUnique(Sample(y, x, edge), y, edge);
    assert (y + 1) * edge <= edge * edge;
  }

  lemma AxisPlace(base: nat, far: bool, d: nat)
    requires d < 4
    ensures var p := base * 8 + (if far then 4 else 0) + d; p / 8 == base && (p % 8 >= 4 <==> far) && p % 4 == d
  {
  }

  /** Where a sample lies: its block's row and column, its quadrant, its place
      in the quadrant. */
  datatype Site = Site(row: nat, column: nat, upper: bool, right: bool, k: nat)

  function SiteAt(y: nat, x: nat): Site { Site(y / 8, x / 8, y % 8 < 4, x % 8 >= 4, y % 4 * 4 + x % 4) }

  lemma ChipSite(block: nat, upper: bool, right: bool, k: nat, edge: nat)
    requires block < BlockCapacity(edge) && k < 16
    ensures BlocksPerEdge(edge) > 0
    ensures var y, x := ChipY(block, upper, k, edge), ChipX(block, right, k, edge);
            && y < edge && x < edge
            && SiteAt(y, x) == Site(block / BlocksPerEdge(edge), block % BlocksPerEdge(edge), upper, right, k)
  {
    BlockInGrid(block, edge);
    AxisPlace(block / BlocksPerEdge(edge), !upper, k / 4);
    AxisPlace(block % BlocksPerEdge(edge), right, k % 4);
  }

  function SampleSite(sample: nat, edge: nat): Site
    requires edge > 0
  {
    SiteAt(sample / edge, sample % edge)
  }

  function BlockSite(block: nat, edge: nat, upper: bool, right: bool, k: nat): Site
    requires BlocksPerEdge(edge) > 0
  {
    Site(block / BlocksPerEdge(edge), block % BlocksPerEdge(edge), upper, right, k)
  }

  function ChipSiteOf(block: nat, orientation: nat, sideA: bool, k: nat, edge: nat): Site
    requires BlocksPerEdge(edge) > 0
  {
    BlockSite(block, edge, Upper(orientation, sideA), OnRight(orientation, Upper(orientation, sideA)), k)
  }

  lemma ChipDecodes(block: nat, orientation: nat, sideA: bool, k: nat, edge: nat)
    requires block < BlockCapacity(edge) && k < 16
    ensures BlocksPerEdge(edge) > 0 && edge > 0
    ensures Chip(block, orientation, sideA, k, edge) < edge * edge
    ensures SampleSite(Chip(block, orientation, sideA, k, edge), edge) == ChipSiteOf(block, orientation, sideA, k, edge)
  {
    var upper := Upper(orientation, sideA);
    var right := OnRight(orientation, upper);
    ChipSite(block, upper, right, k, edge);
    SampleDecodes(ChipY(block, upper, k, edge), ChipX(block, right, k, edge), edge);
  }

  /** Equal samples are the same chip of the same block; the two sides of a
      block never meet. */
  lemma ChipInjective(block: nat, orientation: nat, sideA: bool, k: nat, block': nat, orientation': nat, sideA': bool,
                      k': nat, edge: nat)
    requires block < BlockCapacity(edge) && block' < BlockCapacity(edge) && k < 16 && k' < 16
    requires block == block' ==> orientation == orientation'
    ensures BlocksPerEdge(edge) > 0
    ensures Chip(block, orientation, sideA, k, edge) == Chip(block', orientation', sideA', k', edge)
            ==> block == block' && sideA == sideA' && k == k'
  {
    ChipDecodes(block, orientation, sideA, k, edge);
    ChipDecodes(block', orientation', sideA', k', edge);
    BlockInGrid(block, edge);
    BlockInGrid(block', edge);
  }

  // ----- the groups of all bits

  /** Distinct carrier blocks, each with its drawn orientation. */
  ghost predicate Carriers(blocks: seq<nat>, orientations: seq<nat>, edge: nat) {
    && |blocks| == |orientations| && Distinct(blocks) && BlocksPerEdge(edge) > 0
    && forall t :: 0 <= t < |blocks| ==> blocks[t] < BlockCapacity(edge)
  }

  /** One side of n carriers from index `from` on. */
  function Side(blocks: seq<nat>, orientations: seq<nat>, from: nat, n: nat, sideA: bool, edge: nat): seq<nat>
    requires from + n <= |blocks| == |orientations| && BlocksPerEdge(edge) > 0
    decreases n
  {
    if n == 0 then []
    else
      Side(blocks, orientations, from, n - 1, sideA, edge)
      + Quadrant(blocks[from + n - 1], orientations[from + n - 1], sideA, edge)
  }

  lemma {:induction false} SideAt(blocks: seq<nat>, orientations: seq<nat>, from: nat, n: nat, sideA: bool, edge: nat,
                                  m: nat)
    requires from + n <= |blocks| == |orientations| && BlocksPerEdge(edge) > 0
    ensures |Side(blocks, orientations, from, n, sideA, edge)| == 16 * n
    ensures m < 16 * n ==>
              && m / 16 < n
              && Side(blocks, orientations, from, n, sideA, edge)[m]
                 == Chip(blocks[from + m / 16], orientations[from + m / 16], sideA, m % 16, edge)
    decreases n
  {
    if n > 0 { SideAt(blocks, orientations, from, n - 1, sideA, edge, m); }
  }

  lemma SideMember(blocks: seq<nat>, orientations: seq<nat>, from: nat, n: nat, sideA: bool, edge: nat, x: nat)
    returns (t: nat, k: nat)
    requires from + n <= |blocks| == |orientations| && BlocksPerEdge(edge) > 0
    requires x in Side(blocks, orientations, from, n, sideA, edge)
    ensures from <= t < from + n && k < 16 && x == Chip(blocks[t], orientations[t], sideA, k, edge)
  {
    var m :| 0 <= m < |Side(blocks, orientations, from, n, sideA, edge)|
             && Side(blocks, orientations, from, n, sideA, edge)[m] == x;
    SideAt(blocks, orientations, from, n, sideA, edge, m);
    t, k := from + m / 16, m % 16;
  }

  lemma CarrierInjective(blocks: seq<nat>, orientations: seq<nat>, edge: nat, t: nat, sideA: bool, k: nat, t': nat,
                         sideA': bool, k': nat)
    requires Carriers(blocks, orientations, edge) && t < |blocks| && t' < |blocks| && k < 16 && k' < 16
    ensures Chip(blocks[t], orientations[t], sideA, k, edge) == Chip(blocks[t'], orientations[t'], sideA', k', edge)
            ==> t == t' && sideA == sideA' && k == k'
  {
    if t != t' { assert blocks[t] != blocks[t']; }
    ChipInjective(blocks[t], orientations[t], sideA, k, blocks[t'], orientations[t'], sideA', k', edge);
  }

  function GroupsOf(blocks: seq<nat>, orientations: seq<nat>, bits: nat, n: nat, edge: nat): (g: seq<Chips>)
    requires bits * n <= |blocks| == |orientations| && BlocksPerEdge(edge) > 0
    ensures |g| == bits
    decreases bits, n
  {
    if bits == 0 then []
    else
      PriorBits(bits, n);
      GroupsOf(blocks, orientations, bits - 1, n, edge)
      + [Chips(Side(blocks, orientations, (bits - 1) * n, n, true, edge),
               Side(blocks, orientations, (bits - 1) * n, n, false, edge))]
  }

  lemma PriorBits(bits: nat, n: nat)
    requires bits > 0
    ensures (bits - 1) * n + n == bits * n
  {
  }

  lemma EarlierBits(i: nat, bits: nat, n: nat)
    requires i < bits
    ensures i * n + n <= bits * n
  {
    assert (i + 1) * n <= bits * n;
  }

  lemma {:induction false} GroupAt(blocks: seq<nat>, orientations: seq<nat>, bits: nat, n: nat, edge: nat, i: nat)
    requires bits * n <= |blocks| == |orientations| && BlocksPerEdge(edge) > 0 && i < bits
    ensures i * n + n <= |blocks|
    ensures GroupsOf(blocks, orientations, bits, n, edge)[i] ==
            Chips(Side(blocks, orientations, i * n, n, true, edge), Side(blocks, orientations, i * n, n, false, edge))
    decreases bits
  {
    EarlierBits(i, bits, n);
    PriorBits(bits, n);
    if i < bits - 1 { GroupAt(blocks, orientations, bits - 1, n, edge, i); }
  }

  /** The two groups of one bit: equally many, all different samples. */
  predicate GroupSound(g: Chips, samples: nat) {
    && |g.a| == |g.b| > 0 && Distinct(g.a) && Distinct(g.b)
    && (forall x :: x in g.a ==> x < samples && x !in g.b) && (forall x :: x in g.b ==> x < samples)
  }

  predicate Shares(g: Chips, h: Chips, x: nat) { (x in g.a || x in g.b) && (x in h.a || x in h.b) }

  /** All groups of all bits are sound and no two bits share a sample. */
  ghost predicate GroupsSound(groups: seq<Chips>, samples: nat) {
    && (forall i :: 0 <= i < |groups| ==> GroupSound(groups[i], samples))
    && forall i, j, x :: 0 <= i < j < |groups| ==> !Shares(groups[i], groups[j], x)
  }

  lemma SideDistinct(blocks: seq<nat>, orientations: seq<nat>, from: nat, n: nat, sideA: bool, edge: nat)
    requires Carriers(blocks, orientations, edge) && from + n <= |blocks|
    ensures Distinct(Side(blocks, orientations, from, n, sideA, edge))
  {
    var side := Side(blocks, orientations, from, n, sideA, edge);
    forall i, j | 0 <= i < j < |side| ensures side[i] != side[j] {
      SideAt(blocks, orientations, from, n, sideA, edge, i);
      SideAt(blocks, orientations, from, n, sideA, edge, j);
      CarrierInjective(blocks, orientations, edge, from + i / 16, sideA, i % 16, from + j / 16, sideA, j % 16);
    }
  }

  lemma BitSound(blocks: seq<nat>, orientations: seq<nat>, from: nat, n: nat, edge: nat)
    requires Carriers(blocks, orientations, edge) && from + n <= |blocks| && n > 0
    ensures GroupSound(Chips(Side(blocks, orientations, from, n, true, edge),
                             Side(blocks, orientations, from, n, false, edge)), edge * edge)
  {
    var a, b := Side(blocks, orientations, from, n, true, edge), Side(blocks, orientations, from, n, false, edge);
    SideAt(blocks, orientations, from, n, true, edge, 0);
    SideAt(blocks, orientations, from, n, false, edge, 0);
    SideDistinct(blocks, orientations, from, n, true, edge);
    SideDistinct(blocks, orientations, from, n, false, edge);
    forall x | x in a ensures x < edge * edge && x !in b {
      var t, k := SideMember(blocks, orientations, from, n, true, edge, x);
      ChipDecodes(blocks[t], orientations[t], true, k, edge);
      if x in b {
        var t', k' := SideMember(blocks, orientations, from, n, false, edge, x);
        CarrierInjective(blocks, orientations, edge, t, true, k, t', false, k');
      }
    }
    forall x | x in b ensures x < edge * edge {
      var t, k := SideMember(blocks, orientations, from, n, false, edge, x);
      ChipDecodes(blocks[t], orientations[t], false, k, edge);
    }
  }

  lemma BitsApart(blocks: seq<nat>, orientations: seq<nat>, from: nat, from': nat, n: nat, sideA: bool, sideA': bool,
                  edge: nat, x: nat)
    requires Carriers(blocks, orientations, edge) && from + n <= from' && from' + n <= |blocks|
    requires x in Side(blocks, orientations, from, n, sideA, edge)
    ensures x !in Side(blocks, orientations, from', n, sideA', edge)
  {
    var t, k := SideMember(blocks, orientations, from, n, sideA, edge, x);
    if x in Side(blocks, orientations, from', n, sideA', edge) {
      var t', k' := SideMember(blocks, orientations, from', n, sideA', edge, x);
      CarrierInjective(blocks, orientations, edge, t, sideA, k, t', sideA', k');
    }
  }

  lemma GroupIsSound(blocks: seq<nat>, orientations: seq<nat>, bits: nat, n: nat, edge: nat, i: nat)
    requires Carriers(blocks, orientations, edge) && bits * n <= |blocks| && n > 0 && i < bits
    ensures var g := GroupsOf(blocks, orientations, bits, n, edge)[i];
            GroupSound(g, edge * edge) && |g.a| == |g.b| == 16 * n
  {
    GroupAt(blocks, orientations, bits, n, edge, i);
    BitSound(blocks, orientations, i * n, n, edge);
    SideAt(blocks, orientations, i * n, n, true, edge, 0);
    SideAt(blocks, orientations, i * n, n, false, edge, 0);
  }

  lemma GroupsApart(blocks: seq<nat>, orientations: seq<nat>, bits: nat, n: nat, edge: nat, i: nat, j: nat, x: nat)
    requires Carriers(blocks, orientations, edge) && bits * n <= |blocks| && i < j < bits
    ensures var groups := GroupsOf(blocks, orientations, bits, n, edge); !Shares(groups[i], groups[j], x)
  {
    GroupAt(blocks, orientations, bits, n, edge, i);
    GroupAt(blocks, orientations, bits, n, edge, j);
    EarlierBits(i, j, n);
    if x in Side(blocks, orientations, i * n, n, true, edge) {
      BitsApart(blocks, orientations, i * n, j * n, n, true, true, edge, x);
      BitsApart(blocks, orientations, i * n, j * n, n, true, false, edge, x);
    }
    if x in Side(blocks, orientations, i * n, n, false, edge) {
      BitsApart(blocks, orientations, i * n, j * n, n, false, true, edge, x);
      BitsApart(blocks, orientations, i * n, j * n, n, false, false, edge, x);
    }
  }

  /** All chip groups are disjoint, in the tile, and of equal size. */
  lemma ChipGroupsSound(blocks: seq<nat>, orientations: seq<nat>, bits: nat, n: nat, edge: nat)
    requires Carriers(blocks, orientations, edge) && bits * n <= |blocks| && n > 0
    ensures GroupsSound(GroupsOf(blocks, orientations, bits, n, edge), edge * edge)
    ensures forall i :: 0 <= i < bits ==> |GroupsOf(blocks, orientations, bits, n, edge)[i].a| == 16 * n
  {
    var groups := GroupsOf(blocks, orientations, bits, n, edge);
    forall i | 0 <= i < bits ensures GroupSound(groups[i], edge * edge) && |groups[i].a| == 16 * n {
      GroupIsSound(blocks, orientations, bits, n, edge, i);
    }
    forall i, j, x | 0 <= i < j < bits ensures !Shares(groups[i], groups[j], x) {
      GroupsApart(blocks, orientations, bits, n, edge, i, j, x);
    }
  }

  // ----- derivation from the key

  /** Orientations drawn one after the other. */
  function Oriented(draw: Drawer, at: nat, count: nat): (o: Option<(seq<nat>, nat)>)
    ensures o.Some? ==> |o.value.0| == count
    decreases count, draw
  {
    if count == 0 then Some(([], at))
    else
      match Oriented(draw, at, count - 1)
      case None => None
      case Some((front, next)) =>
        match draw(next, 4)
        case None => None
        case Some((orientation, after)) => Some((front + [orientation], after))
  }

  lemma {:induction false} OrientedFails(draw: Drawer, at: nat, n: nat, count: nat)
    requires n <= count && Oriented(draw, at, n).None?
    ensures Oriented(draw, at, count).None?
    decreases count
  {
    if n < count { OrientedFails(draw, at, n, count - 1); }
  }

  /** The selected carrier blocks and their orientations. */
  function Selection(capacity: nat, required: nat, draw: Drawer, at: nat): (s: Option<(seq<nat>, seq<nat>)>)
    requires Bounded(draw) && required <= capacity
    ensures s.Some? ==> |s.value.0| == required == |s.value.1|
  {
    match Shuffled(Range(capacity), capacity - 1, draw, at)
    case None => None
    case Some((order, next)) =>
      OrderSound(order, capacity, draw, at);
      match Oriented(draw, next, required)
      case None => None
      case Some((orientations, _)) => Some((order[..required], orientations))
  }

  lemma SelectionCarries(edge: nat, required: nat, draw: Drawer, at: nat)
    requires Bounded(draw) && 0 < required <= BlockCapacity(edge)
    requires Selection(BlockCapacity(edge), required, draw, at).Some?
    ensures var (blocks, orientations) := Selection(BlockCapacity(edge), required, draw, at).value;
            Carriers(blocks, orientations, edge)
  {
    var capacity := BlockCapacity(edge);
    var order := Shuffled(Range(capacity), capacity - 1, draw, at).value.0;
    OrderSound(order, capacity, draw, at);
    BlockInGrid(0, edge);
  }

  lemma OrientedNext(draw: Drawer, at: nat, n: nat, before: seq<nat>, next: nat)
    requires Oriented(draw, at, n) == Some((before, next))
    ensures var drawn := draw(next, 4);
            Oriented(draw, at, n + 1)
            == if drawn.None? then None else Some((before + [drawn.value.0], drawn.value.1))
  {
  }

  method NextOrientation(rng: HmacByteStream, ghost at: nat, ghost n: nat, ghost before: seq<nat>)
    returns (orientation: Option<nat>)
    requires rng.Valid() && Oriented(rng.draw, at, n) == Some((before, rng.consumed))
    modifies rng
    ensures rng.Valid()
    ensures Oriented(rng.draw, at, n + 1)
         == if orientation.None? then None else Some((before + [orientation.value], rng.consumed))
  {
    OrientedNext(rng.draw, at, n, before, rng.consumed);
    orientation := rng.RandBelow(4);
  }

  /** Extend both sides by the quadrants of one more oriented block. */
  method AddCarrier(blocks: seq<nat>, ghost orientations: seq<nat>, from: nat, n: nat, orientation: nat, edge: nat,
                    group: Chips)
    returns (more: Chips)
    requires SideMatches(blocks, orientations, from, n, edge, group) && from + n < |blocks|
    ensures SideMatches(blocks, orientations + [orientation], from, n + 1, edge, more)
  {
    SideExtends(blocks, orientations, orientations + [orientation], from, n, edge, group);
    more := Chips(group.a + Quadrant(blocks[from + n], orientation, true, edge),
                  group.b + Quadrant(blocks[from + n], orientation, false, edge));
  }

  /** Orient the next block and extend both sides by its quadrants. */
  method NextCarrier(blocks: seq<nat>, from: nat, j: nat, n: nat, edge: nat, rng: HmacByteStream, ghost at: nat,
                     ghost orientations: seq<nat>, group: Chips)
    returns (more: Option<Chips>, ghost oriented: seq<nat>)
    requires rng.Valid() && Oriented(rng.draw, at, from + j) == Some((orientations, rng.consumed))
    requires j < n && from + n <= |blocks| && SideMatches(blocks, orientations, from, j, edge, group)
    modifies rng
    ensures rng.Valid()
    ensures more.None? ==> Oriented(rng.draw, at, from + n).None?
    ensures more.Some? ==>
              && Oriented(rng.draw, at, from + j + 1) == Some((oriented, rng.consumed)) && orientations <= oriented
              && SideMatches(blocks, oriented, from, j + 1, edge, more.value)
  {
    oriented := orientations;
    var orientation := NextOrientation(rng, at, from + j, orientations);
    if orientation.None? {
      OrientedFails(rng.draw, at, from + j + 1, from + n);
      return None, orientations;
    }
    oriented := orientations + [orientation.value];
    var chips := AddCarrier(blocks, orientations, from, j, orientation.value, edge, group);
    more := Some(chips);
  }

  /** The groups of one bit, block by block, each with its own draw. */
  method BitGroups(blocks: seq<nat>, from: nat, n: nat, edge: nat, rng: HmacByteStream, ghost at: nat,
                   ghost before: seq<nat>)
    returns (chips: Option<Chips>, ghost orientations: seq<nat>)
    requires rng.Valid() && BlocksPerEdge(edge) > 0 && from + n <= |blocks|
    requires Oriented(rng.draw, at, from) == Some((before, rng.consumed))
    modifies rng
    ensures rng.Valid()
    ensures chips.None? ==> Oriented(rng.draw, at, from + n).None?
    ensures chips.Some? ==>
              && Oriented(rng.draw, at, from + n) == Some((orientations, rng.consumed)) && before <= orientations
              && SideMatches(blocks, orientations, from, n, edge, chips.value)
  {
    chips, orientations := Some(Chips([], [])), before;
    SideEmpty(blocks, before, from, edge);
    for j := 0 to n
      invariant rng.Valid() && before <= orientations && chips.Some?
      invariant Oriented(rng.draw, at, from + j) == Some((orientations, rng.consumed))
      invariant SideMatches(blocks, orientations, from, j, edge, chips.value)
    {
      chips, orientations := NextCarrier(blocks, from, j, n, edge, rng, at, orientations, chips.value);
      if chips.None? { return; }
    }
  }

  /** The chips are the two sides of the first n carriers from an index on. */
  ghost predicate SideMatches(blocks: seq<nat>, orientations: seq<nat>, from: nat, n: nat, edge: nat, chips: Chips) {
    && BlocksPerEdge(edge) > 0 && from + n == |orientations| <= |blocks|
    && chips.a == Side(blocks[..|orientations|], orientations, from, n, true, edge)
    && chips.b == Side(blocks[..|orientations|], orientations, from, n, false, edge)
  }

  lemma SideEmpty(blocks: seq<nat>, orientations: seq<nat>, from: nat, edge: nat)
    requires BlocksPerEdge(edge) > 0 && from == |orientations| <= |blocks|
    ensures SideMatches(blocks, orientations, from, 0, edge, Chips([], []))
  {
  }

  lemma {:induction false} SideSame(blocks: seq<nat>, orientations: seq<nat>, blocks': seq<nat>,
                                    orientations': seq<nat>, from: nat, n: nat, sideA: bool, edge: nat)
    requires BlocksPerEdge(edge) > 0 && |blocks| == |orientations| && |blocks'| == |orientations'|
    requires blocks <= blocks' && orientations <= orientations' && from + n <= |blocks|
    ensures Side(blocks, orientations, from, n, sideA, edge) == Side(blocks', orientations', from, n, sideA, edge)
    decreases n
  {
    if n > 0 { SideSame(blocks, orientations, blocks', orientations', from, n - 1, sideA, edge); }
  }

  lemma SideExtends(blocks: seq<nat>, orientations: seq<nat>, more: seq<nat>, from: nat, n: nat, edge: nat,
                    chips: Chips)
    requires SideMatches(blocks, orientations, from, n, edge, chips) && |orientations| < |blocks|
    requires orientations <= more && |more| == |orientations| + 1
    ensures SideMatches(blocks, more, from, n + 1, edge,
                        Chips(chips.a + Quadrant(blocks[from + n], more[from + n], true, edge),
                              chips.b + Quadrant(blocks[from + n], more[from + n], false, edge)))
  {
    SideSame(blocks[..|orientations|], orientations, blocks[..|more|], more, from, n, true, edge);
    SideSame(blocks[..|orientations|], orientations, blocks[..|more|], more, from, n, false, edge);
  }

  function ChipLayout(edge: nat, chipsPerBit: nat, draw: Drawer, at: nat): ChipOutcome
    requires Bounded(draw) && chipsPerBit > 0
  {
    var n := chipsPerBit / 16;
    if chipsPerBit % 16 != 0 then NotDivisible
    else if BITS * n > BlockCapacity(edge) then ChipOutcome.InsufficientCapacity
    else
      BlockInGrid(0, edge);
      match Selection(BlockCapacity(edge), BITS * n, draw, at)
      case None => ChipOutcome.StreamExhausted
      case Some((blocks, orientations)) => Grouped(GroupsOf(blocks, orientations, BITS, n, edge))
  }

  /** Whatever the key draws, the groups of all 312 bits are disjoint, inside
      the tile, and hold chipsPerBit samples each. */
  lemma LayoutGroupsSound(edge: nat, chipsPerBit: nat, draw: Drawer, at: nat, groups: seq<Chips>)
    requires Bounded(draw) && chipsPerBit > 0 && ChipLayout(edge, chipsPerBit, draw, at) == Grouped(groups)
    ensures |groups| == BITS && GroupsSound(groups, edge * edge)
    ensures forall i :: 0 <= i < BITS ==> |groups[i].a| == chipsPerBit
  {
    var n := chipsPerBit / 16;
    SelectionCarries(edge, BITS * n, draw, at);
    var (blocks, orientations) := Selection(BlockCapacity(edge), BITS * n, draw, at).value;
    ChipGroupsSound(blocks, orientations, BITS, n, edge);
  }

  /** Chip m of the two sides of a bit: the same place in diagonally opposite
      quadrants of one 8x8 block. */
  lemma ChipsPaired(edge: nat, chipsPerBit: nat, draw: Drawer, at: nat, groups: seq<Chips>, i: nat, m: nat)
    requires Bounded(draw) && chipsPerBit > 0 && ChipLayout(edge, chipsPerBit, draw, at) == Grouped(groups)
    requires i < BITS && m < chipsPerBit
    ensures edge > 0 && |groups| == BITS && |groups[i].a| == |groups[i].b| == chipsPerBit
    ensures var p, q := SampleSite(groups[i].a[m], edge), SampleSite(groups[i].b[m], edge);
            p.row == q.row && p.column == q.column && p.k == q.k && p.upper != q.upper && p.right != q.right
  {
    var n := chipsPerBit / 16;
    SelectionCarries(edge, BITS * n, draw, at);
    var (blocks, orientations) := Selection(BlockCapacity(edge), BITS * n, draw, at).value;
    GroupAt(blocks, orientations, BITS, n, edge, i);
    SideAt(blocks, orientations, i * n, n, true, edge, m);
    SideAt(blocks, orientations, i * n, n, false, edge, m);
    var t := i * n + m / 16;
    ChipDecodes(blocks[t], orientations[t], true, m % 16, edge);
    ChipDecodes(blocks[t], orientations[t], false, m % 16, edge);
  }

  /** The four orientations put side A in the four quadrants. */
  lemma OrientationsDiffer(o: nat, p: nat)
    requires o < 4 && p < 4
    ensures Upper(o, true) == Upper(p, true) && OnRight(o, Upper(o, true)) == OnRight(p, Upper(p, true)) ==> o == p
  {
  }

  lemma {:induction false} GroupsSame(blocks: seq<nat>, orientations: seq<nat>, blocks': seq<nat>,
                                      orientations': seq<nat>, bits: nat, n: nat, edge: nat)
    requires BlocksPerEdge(edge) > 0 && |blocks| == |orientations| && |blocks'| == |orientations'|
    requires blocks <= blocks' && orientations <= orientations' && bits * n <= |blocks|
    ensures GroupsOf(blocks, orientations, bits, n, edge) == GroupsOf(blocks', orientations', bits, n, edge)
    decreases bits
  {
    if bits > 0 {
      PriorBits(bits, n);
      GroupsSame(blocks, orientations, blocks', orientations', bits - 1, n, edge);
      SideSame(blocks, orientations, blocks', orientations', (bits - 1) * n, n, true, edge);
      SideSame(blocks, orientations, blocks', orientations', (bits - 1) * n, n, false, edge);
    }
  }

  /** The groups of the first bits, over the orientations drawn so far. */
  ghost predicate GroupsMatch(blocks: seq<nat>, orientations: seq<nat>, bits: nat, n: nat, edge: nat,
                              groups: seq<Chips>) {
    && BlocksPerEdge(edge) > 0 && bits * n == |orientations| <= |blocks|
    && groups == GroupsOf(blocks[..|orientations|], orientations, bits, n, edge)
  }

  lemma GroupsExtend(blocks: seq<nat>, before: seq<nat>, orientations: seq<nat>, bits: nat, n: nat, edge: nat,
                     groups: seq<Chips>, chips: Chips)
    requires GroupsMatch(blocks, before, bits, n, edge, groups) && before <= orientations
    requires SideMatches(blocks, orientations, bits * n, n, edge, chips)
    ensures GroupsMatch(blocks, orientations, bits + 1, n, edge, groups + [chips])
  {
    PriorBits(bits + 1, n);
    GroupsSame(blocks[..|before|], before, blocks[..|orientations|], orientations, bits, n, edge);
  }

  method ChipGroups(edge: nat, chipsPerBit: nat, rng: HmacByteStream) returns (outcome: ChipOutcome)
    requires rng.Valid() && chipsPerBit > 0
    modifies rng
    ensures rng.Valid()
    ensures outcome == ChipLayout(edge, chipsPerBit, rng.draw, old(rng.consumed))
  {
    if chipsPerBit % 16 != 0 { return NotDivisible; }
    var n := chipsPerBit / 16;
    if BITS * n > BlockCapacity(edge) { return ChipOutcome.InsufficientCapacity; }
    BlockInGrid(0, edge);
    ghost var start := rng.consumed;
    var order := ShuffledOrder(BlockCapacity(edge), rng);
    if order.None? { return ChipOutcome.StreamExhausted; }
    LayoutAfterShuffle(edge, chipsPerBit, rng.draw, start, order.value, rng.consumed);
    outcome := OrientedGroups(order.value[..BITS * n], n, edge, rng);
  }

  lemma LayoutAfterShuffle(edge: nat, chipsPerBit: nat, draw: Drawer, at: nat, order: seq<nat>, next: nat)
    requires Bounded(draw) && chipsPerBit > 0 && chipsPerBit % 16 == 0
    requires BITS * (chipsPerBit / 16) <= BlockCapacity(edge) && BlocksPerEdge(edge) > 0
    requires Shuffled(Range(BlockCapacity(edge)), BlockCapacity(edge) - 1, draw, at) == Some((order, next))
    requires |order| == BlockCapacity(edge)
    ensures ChipLayout(edge, chipsPerBit, draw, at) ==
            match Oriented(draw, next, BITS * (chipsPerBit / 16))
            case None => ChipOutcome.StreamExhausted
            case Some((orientations, _)) =>
              Grouped(GroupsOf(order[..BITS * (chipsPerBit / 16)], orientations, BITS, chipsPerBit / 16, edge))
  {
  }

  /** One bit after the other, drawing on the same stream. */
  method OrientedGroups(selected: seq<nat>, n: nat, edge: nat, rng: HmacByteStream) returns (outcome: ChipOutcome)
    requires rng.Valid() && BlocksPerEdge(edge) > 0 && |selected| == BITS * n
    modifies rng
    ensures rng.Valid()
    ensures match Oriented(rng.draw, old(rng.consumed), BITS * n)
            case None => outcome == ChipOutcome.StreamExhausted
            case Some((orientations, _)) => outcome == Grouped(GroupsOf(selected, orientations, BITS, n, edge))
  {
    ghost var at := rng.consumed;
    ghost var orientations: seq<nat> := [];
    var groups: seq<Chips> := [];
    for bit := 0 to BITS
      invariant rng.Valid() && GroupsMatch(selected, orientations, bit, n, edge, groups)
      invariant Oriented(rng.draw, at, bit * n) == Some((orientations, rng.consumed))
    {
      EarlierBits(bit, BITS, n);
      PriorBits(bit + 1, n);
      var chips;
      ghost var more;
      chips, more := BitGroups(selected, bit * n, n, edge, rng, at, orientations);
      if chips.None? {
        OrientedFails(rng.draw, at, bit * n + n, BITS * n);
        return ChipOutcome.StreamExhausted;
      }
      GroupsExtend(selected, orientations, more, bit, n, edge, groups, chips.value);
      orientations := more;
      groups := groups + [chips.value];
    }
    assert selected[..|orientations|] == selected;
    outcome := Grouped(groups);
  }
}
