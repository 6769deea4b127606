/** Greedy placement of the replicated payload bits at key-shuffled
    coefficient pairs, the replicas of one bit in different DCT blocks. */
module Placement {
  import opened Numbers
  import opened Options
  import opened Collections
  import opened KeyedStream

  const PAYLOAD_BITS: nat := 312
  const REPLICATION: nat := 3
  const PAIRS_PER_BLOCK: nat := 2

  datatype Outcome =
    | Placed(positions: seq<nat>)
    | InsufficientCapacity
    | StreamExhausted
    | NoDistinctBlocks

  function BlocksPerEdge(tileSize: nat): nat { tileSize / 16 }

  function CapacityOf(edge: nat): nat { PAIRS_PER_BLOCK * (edge * edge) }

  function Capacity(tileSize: nat): nat { CapacityOf(BlocksPerEdge(tileSize)) }

  function BlockOf(position: nat): nat { position / PAIRS_PER_BLOCK }

  /** Indices of the first `need` values whose blocks are new. */
  function Pick(values: seq<nat>, from: nat, blocks: set<nat>, need: nat): (p: seq<nat>)
    requires from <= |values|
    ensures |p| <= need
    ensures forall i :: 0 <= i < |p| ==> from <= p[i] < |values|
    decreases |values| - from
  {
    if need == 0 || from == |values| then []
    else if BlockOf(values[from]) in blocks then Pick(values, from + 1, blocks, need)
    else [from] + Pick(values, from + 1, blocks + {BlockOf(values[from])}, need - 1)
  }

  lemma {:induction false} PickAscends(values: seq<nat>, from: nat, blocks: set<nat>, need: nat)
    requires from <= |values|
    ensures Ascending(Pick(values, from, blocks, need), |values|)
    decreases |values| - from
  {
    if need > 0 && from < |values| {
      if BlockOf(values[from]) in blocks { PickAscends(values, from + 1, blocks, need); }
      else { PickAscends(values, from + 1, blocks + {BlockOf(values[from])}, need - 1); }
    }
  }

  /** Position j's block was taken before j was reached. */
  predicate Passed(values: seq<nat>, picks: seq<nat>, blocks: set<nat>, j: nat)
    requires j < |values| && forall i :: 0 <= i < |picks| ==> picks[i] < |values|
  {
    || BlockOf(values[j]) in blocks
    || exists i :: 0 <= i < |picks| && picks[i] < j && BlockOf(values[picks[i]]) == BlockOf(values[j])
  }

  lemma PassedEarlier(values: seq<nat>, first: nat, rest: seq<nat>, blocks: set<nat>, j: nat)
    requires first < j < |values| && forall i :: 0 <= i < |rest| ==> rest[i] < |values|
    requires Passed(values, rest, blocks + {BlockOf(values[first])}, j)
    ensures Passed(values, [first] + rest, blocks, j)
  {
    var picks := [first] + rest;
    if BlockOf(values[j]) == BlockOf(values[first]) {
      assert picks[0] == first;
    } else if BlockOf(values[j]) !in blocks {
      var i :| 0 <= i < |rest| && rest[i] < j && BlockOf(values[rest[i]]) == BlockOf(values[j]);
      assert picks[i + 1] == rest[i];
    }
  }

  /** Index j was looked at and left out. */
  predicate Skipped(picks: seq<nat>, need: nat, j: nat) {
    j !in picks && (|picks| < need || (picks != [] && j < picks[|picks| - 1]))
  }

  /** Greedy: an index is skipped only because its block was already taken. */
  lemma {:induction false} PickGreedy(values: seq<nat>, from: nat, blocks: set<nat>, need: nat, j: nat)
    requires from <= j < |values| && Skipped(Pick(values, from, blocks, need), need, j)
    ensures Passed(values, Pick(values, from, blocks, need), blocks, j)
    decreases |values| - from
  {
    var block := BlockOf(values[from]);
    if block in blocks {
      if j > from { PickGreedy(values, from + 1, blocks, need, j); }
    } else {
      var rest := Pick(values, from + 1, blocks + {block}, need - 1);
      RestSkipped(from, rest, need, j);
      PickGreedy(values, from + 1, blocks + {block}, need - 1, j);
      PassedEarlier(values, from, rest, blocks, j);
    }
  }

  lemma RestSkipped(first: nat, rest: seq<nat>, need: nat, j: nat)
    requires need > 0 && first <= j && Skipped([first] + rest, need, j)
    ensures first < j && Skipped(rest, need - 1, j)
  {
    var picks := [first] + rest;
    assert picks[0] == first;
    assert forall x :: x in rest ==> x in picks;
    if rest != [] { assert picks[|picks| - 1] == rest[|rest| - 1]; }
  }

  /** The replicas picked for one bit. */
  function Picks(values: seq<nat>): (p: seq<nat>)
    ensures |p| <= REPLICATION && Ascending(p, |values|)
  {
    PickAscends(values, 0, {}, REPLICATION);
    Pick(values, 0, {}, REPLICATION)
  }

  function At(values: seq<nat>, indices: seq<nat>): (s: seq<nat>)
    requires forall i :: 0 <= i < |indices| ==> indices[i] < |values|
    ensures |s| == |indices|
  {
    seq(|indices|, i requires 0 <= i < |indices| => values[indices[i]])
  }

  predicate Ascending(indices: seq<nat>, bound: nat) {
    && (forall i, j :: 0 <= i < j < |indices| ==> indices[i] < indices[j])
    && (forall i :: 0 <= i < |indices| ==> indices[i] < bound)
  }

  function Without(values: seq<nat>, i: nat): (rest: seq<nat>)
    requires i < |values|
    ensures |rest| == |values| - 1
    ensures forall j :: 0 <= j < |rest| ==> rest[j] == values[if j < i then j else j + 1]
  {
    values[..i] + values[i + 1..]
  }

  /** Delete the given ascending indices, the last one first. */
  function DeleteAll(values: seq<nat>, indices: seq<nat>): (rest: seq<nat>)
    requires Ascending(indices, |values|)
    ensures |rest| == |values| - |indices|
    decreases |indices|
  {
    if indices == [] then values
    else
      var last := indices[|indices| - 1];
      DeleteAll(Without(values, last), indices[..|indices| - 1])
  }

  function Select(values: seq<nat>, bits: nat): (s: Option<seq<nat>>)
    ensures s.Some? ==> |s.value| == REPLICATION * bits
    decreases bits, values
  {
    if bits == 0 then Some([])
    else
      var picks := Picks(values);
      if |picks| != REPLICATION then None
      else
        match Select(DeleteAll(values, picks), bits - 1)
        case None => None
        case Some(rest) => Some(At(values, picks) + rest)
  }

  /** The replicas of each bit sit in pairwise different blocks. */
  predicate ReplicasSpread(positions: seq<nat>) {
    forall i, j :: 0 <= i < j < |positions| && i / REPLICATION == j / REPLICATION
                   ==> BlockOf(positions[i]) != BlockOf(positions[j])
  }

  predicate ValidPlacement(positions: seq<nat>, capacity: nat) {
    && |positions| == REPLICATION * PAYLOAD_BITS
    && (forall i :: 0 <= i < |positions| ==> positions[i] < capacity)
    && Distinct(positions)
    && ReplicasSpread(positions)
  }

  method SelectPositions(tileSize: nat, rng: HmacByteStream) returns (outcome: Outcome)
    requires rng.Valid()
    modifies rng
    ensures rng.Valid()
    ensures outcome != NoDistinctBlocks
    ensures outcome.InsufficientCapacity? <==> Capacity(tileSize) < REPLICATION * PAYLOAD_BITS
    ensures outcome.InsufficientCapacity? <==> tileSize < 352
    ensures outcome.Placed? ==> ValidPlacement(outcome.positions, Capacity(tileSize))
    ensures !outcome.InsufficientCapacity? ==>
              IsSelection(outcome,
                          Shuffled(Range(Capacity(tileSize)), Capacity(tileSize) - 1, rng.draw, old(rng.consumed)))
  {
    CapacityGap(BlocksPerEdge(tileSize));
    outcome := PlaceWithin(Capacity(tileSize), rng);
  }

  /** The greedy selection from a shuffled range, when the shuffle succeeded. */
  ghost predicate IsSelection(outcome: Outcome, shuffled: Option<(seq<nat>, nat)>) {
    match shuffled
    case None => outcome.StreamExhausted?
    case Some((values, _)) => outcome.Placed? && Select(values, PAYLOAD_BITS) == Some(outcome.positions)
  }

  method PlaceWithin(capacity: nat, rng: HmacByteStream) returns (outcome: Outcome)
    requires rng.Valid()
    requires capacity < REPLICATION * PAYLOAD_BITS || capacity >= REPLICATION * PAYLOAD_BITS + 2
    modifies rng
    ensures rng.Valid() && outcome != NoDistinctBlocks
    ensures outcome.InsufficientCapacity? <==> capacity < REPLICATION * PAYLOAD_BITS
    ensures outcome.Placed? ==> ValidPlacement(outcome.positions, capacity)
    ensures !outcome.InsufficientCapacity? ==>
              IsSelection(outcome, Shuffled(Range(capacity), capacity - 1, rng.draw, old(rng.consumed)))
  {
    if REPLICATION * PAYLOAD_BITS > capacity { return InsufficientCapacity; }
    var order := ShuffledOrder(capacity, rng);
    if order.None? { return StreamExhausted; }
    outcome := SelectFrom(order.value);
    PlacementValid(order.value, outcome.positions);
  }

  method ShuffledOrder(capacity: nat, rng: HmacByteStream) returns (values: Option<seq<nat>>)
    requires rng.Valid()
    modifies rng
    ensures rng.Valid()
    ensures Shuffled(Range(capacity), capacity - 1, rng.draw, old(rng.consumed))
         == if values.Some? then Some((values.value, rng.consumed)) else None
    ensures values.Some? ==> |values.value| == capacity && Distinct(values.value)
                             && forall i :: 0 <= i < capacity ==> values.value[i] < capacity
  {
    var order := new nat[capacity](i => i);
    assert order[..] == Range(capacity);
    ghost var start := rng.consumed;
    var ok := Shuffle(order, rng);
    if !ok { return None; }
    OrderSound(order[..], capacity, rng.draw, start);
    return Some(order[..]);
  }

  lemma OrderSound(order: seq<nat>, capacity: nat, draw: Drawer, at: nat)
    requires Bounded(draw)
    requires var s := Shuffled(Range(capacity), capacity - 1, draw, at); s.Some? && s.value.0 == order
    ensures |order| == capacity && Distinct(order)
    ensures forall i :: 0 <= i < capacity ==> order[i] < capacity
  {
    ShuffledPermutes(Range(capacity), capacity - 1, draw, at);
    ShuffledRange(order, capacity);
  }

  /** Repeatedly pick the replicas of the next bit and delete them. */
  method SelectFrom(shuffled: seq<nat>) returns (outcome: Outcome)
    requires Distinct(shuffled) && |shuffled| >= REPLICATION * PAYLOAD_BITS + 2
    ensures outcome.Placed? && Select(shuffled, PAYLOAD_BITS) == Some(outcome.positions)
  {
    SelectSucceeds(shuffled, PAYLOAD_BITS);
    var values := shuffled;
    var selected := [];
    assert selected + Select(shuffled, PAYLOAD_BITS).value == Select(shuffled, PAYLOAD_BITS).value;
    for bit := 0 to PAYLOAD_BITS
      invariant Select(values, PAYLOAD_BITS - bit).Some?
      invariant Select(shuffled, PAYLOAD_BITS) == Some(selected + Select(values, PAYLOAD_BITS - bit).value)
    {
      var picks := PickReplicas(values);
      if |picks| != REPLICATION { return NoDistinctBlocks; }
      SelectStep(values, PAYLOAD_BITS - bit, selected);
      selected := selected + At(values, picks);
      values := Delete(values, picks);
    }
    assert selected + [] == selected;
    return Placed(selected);
  }

  lemma SelectStep(values: seq<nat>, bits: nat, selected: seq<nat>)
    requires bits > 0 && Select(values, bits).Some?
    ensures var picks := Picks(values);
            && |picks| == REPLICATION
            && Select(DeleteAll(values, picks), bits - 1).Some?
            && selected + Select(values, bits).value
            == selected + At(values, picks) + Select(DeleteAll(values, picks), bits - 1).value
  {
    var picks := Picks(values);
    assert Select(values, bits).value == At(values, picks) + Select(DeleteAll(values, picks), bits - 1).value;
  }

  lemma PlacementValid(values: seq<nat>, positions: seq<nat>)
    requires Distinct(values) && forall i :: 0 <= i < |values| ==> values[i] < |values|
    requires Select(values, PAYLOAD_BITS) == Some(positions)
    ensures ValidPlacement(positions, |values|)
  {
    SelectSound(values, PAYLOAD_BITS);
    forall i | 0 <= i < |positions| ensures positions[i] < |values| {
      assert positions[i] in multiset(positions);
      assert positions[i] in multiset(values);
    }
  }

  lemma PickStep(values: seq<nat>, from: nat, blocks: set<nat>, need: nat, indices: seq<nat>)
    requires from < |values| && need > 0
    ensures var block := BlockOf(values[from]);
            indices + Pick(values, from, blocks, need) ==
            if block in blocks then indices + Pick(values, from + 1, blocks, need)
            else (indices + [from]) + Pick(values, from + 1, blocks + {block}, need - 1)
  {
  }

  /** The state after one more value has been looked at. */
  lemma PickAdvance(values: seq<nat>, index: nat, blocks: set<nat>, indices: seq<nat>, all: seq<nat>)
    requires index < |values| && |indices| < REPLICATION
    requires all == indices + Pick(values, index, blocks, REPLICATION - |indices|)
    ensures var block := BlockOf(values[index]);
            if block in blocks then all == indices + Pick(values, index + 1, blocks, REPLICATION - |indices|)
            else all == (indices + [index])
                        + Pick(values, index + 1, blocks + {block}, REPLICATION - |indices + [index]|)
  {
    PickStep(values, index, blocks, REPLICATION - |indices|, indices);
  }

  method PickReplicas(values: seq<nat>) returns (indices: seq<nat>)
    ensures indices == Picks(values)
  {
    ghost var all := Picks(values);
    indices := [];
    var blocks: set<nat> := {};
    var index := 0;
    while index < |values| && |indices| < REPLICATION
      invariant index <= |values| && |indices| <= REPLICATION
      invariant all == indices + Pick(values, index, blocks, REPLICATION - |indices|)
    {
      PickAdvance(values, index, blocks, indices, all);
      var block := BlockOf(values[index]);
      if block !in blocks { indices, blocks := indices + [index], blocks + {block}; }
      index := index + 1;
    }
    assert indices + [] == indices;
  }

  method Delete(values: seq<nat>, indices: seq<nat>) returns (rest: seq<nat>)
    requires Ascending(indices, |values|)
    ensures rest == DeleteAll(values, indices)
  {
    rest := values;
    var n := |indices|;
    assert indices[..n] == indices;
    while n > 0
      invariant 0 <= n <= |indices|
      invariant Ascending(indices[..n], |rest|)
      invariant DeleteAll(rest, indices[..n]) == DeleteAll(values, indices)
    {
      n := n - 1;
      assert indices[..n + 1][..n] == indices[..n];
      rest := Without(rest, indices[n]);
    }
  }

  // ----- the distinct-block guard never fires

  /** Twice a square is never 936 or 937: fitting capacity leaves a margin. */
  lemma CapacityGap(edge: nat)
    ensures 2 * (edge * edge) >= 936 <==> edge >= 22
    ensures 2 * (edge * edge) >= 936 ==> 2 * (edge * edge) >= 968
  {
    if edge >= 22 {
      assert (edge - 22) * (edge + 22) >= 0;
      assert (edge - 22) * (edge + 22) == edge * edge - 484;
    } else {
      assert (21 - edge) * (21 + edge) >= 0;
      assert (21 - edge) * (21 + edge) == 441 - edge * edge;
    }
  }

  /** A pick that falls short has seen every block that is left. */
  lemma {:induction false} PickExhausts(values: seq<nat>, from: nat, blocks: set<nat>, need: nat)
    returns (all: set<nat>)
    requires from <= |values| && |Pick(values, from, blocks, need)| < need
    ensures |all| <= |blocks| + |Pick(values, from, blocks, need)|
    ensures blocks <= all && forall i :: from <= i < |values| ==> BlockOf(values[i]) in all
    decreases |values| - from
  {
    if from == |values| {
      all := blocks;
    } else if BlockOf(values[from]) in blocks {
      all := PickExhausts(values, from + 1, blocks, need);
    } else {
      all := PickExhausts(values, from + 1, blocks + {BlockOf(values[from])}, need - 1);
    }
  }

  /** A block holds at most two positions. */
  lemma {:induction false} BlocksBound(positions: set<nat>, blocks: set<nat>)
    requires forall v :: v in positions ==> BlockOf(v) in blocks
    ensures |positions| <= 2 * |blocks|
    decreases |blocks|
  {
    if blocks == {} {
      assert forall v :: v in positions ==> BlockOf(v) in blocks;
      assert positions == {};
    } else {
      var b :| b in blocks;
      var pair := {2 * b, 2 * b + 1};
      BlocksBound(positions - pair, blocks - {b});
      SubsetSize(positions, (positions - pair) + pair);
    }
  }

  lemma PickSucceeds(values: seq<nat>)
    requires Distinct(values) && |values| >= 5
    ensures |Picks(values)| == REPLICATION
  {
    if |Picks(values)| < REPLICATION {
      var all := PickExhausts(values, 0, {}, REPLICATION);
      BlocksBound(SetOf(values), all);
      DistinctSize(values);
      assert false;
    }
  }

  lemma DeleteOne(values: seq<nat>, i: nat)
    requires i < |values|
    ensures multiset(values) == multiset(Without(values, i)) + multiset{values[i]}
    ensures Distinct(values) ==> Distinct(Without(values, i))
  {
    assert values == values[..i] + ([values[i]] + values[i + 1..]);
    DistinctSplit(values, i);
  }

  lemma DistinctSplit(values: seq<nat>, i: nat)
    requires i < |values|
    ensures Distinct(values) ==> Distinct(Without(values, i))
  {
    var rest := Without(values, i);
    assert forall j :: 0 <= j < |rest| ==> rest[j] == values[if j < i then j else j + 1];
  }

  lemma LastTaken(values: seq<nat>, indices: seq<nat>)
    requires indices != [] && Ascending(indices, |values|)
    ensures var n := |indices| - 1;
            var shorter := Without(values, indices[n]);
            multiset(At(values, indices)) == multiset(At(shorter, indices[..n])) + multiset{values[indices[n]]}
  {
    var n := |indices| - 1;
    var shorter := Without(values, indices[n]);
    assert At(values, indices) == At(shorter, indices[..n]) + [values[indices[n]]];
  }

  lemma {:induction false} DeleteSplits(values: seq<nat>, indices: seq<nat>)
    requires Ascending(indices, |values|)
    ensures multiset(values) == multiset(DeleteAll(values, indices)) + multiset(At(values, indices))
    ensures Distinct(values) ==> Distinct(DeleteAll(values, indices))
    decreases |indices|
  {
    if indices != [] {
      var n := |indices| - 1;
      var shorter := Without(values, indices[n]);
      DeleteOne(values, indices[n]);
      DeleteSplits(shorter, indices[..n]);
      LastTaken(values, indices);
    }
  }

  lemma {:induction false} SelectSucceeds(values: seq<nat>, bits: nat)
    requires Distinct(values) && |values| >= REPLICATION * bits + 2
    ensures Select(values, bits).Some?
    decreases bits
  {
    if bits > 0 {
      PickSucceeds(values);
      var picks := Picks(values);
      DeleteSplits(values, picks);
      SelectSucceeds(DeleteAll(values, picks), bits - 1);
    }
  }

  predicate NewBlocks(values: seq<nat>, p: seq<nat>, blocks: set<nat>)
    requires forall i :: 0 <= i < |p| ==> p[i] < |values|
  {
    && (forall i :: 0 <= i < |p| ==> BlockOf(values[p[i]]) !in blocks)
    && (forall i, j :: 0 <= i < j < |p| ==> BlockOf(values[p[i]]) != BlockOf(values[p[j]]))
  }

  lemma {:induction false} PickSpread(values: seq<nat>, from: nat, blocks: set<nat>, need: nat)
    requires from <= |values|
    ensures NewBlocks(values, Pick(values, from, blocks, need), blocks)
    decreases |values| - from
  {
    if need == 0 || from == |values| {
    } else if BlockOf(values[from]) in blocks {
      PickSpread(values, from + 1, blocks, need);
    } else {
      var block := BlockOf(values[from]);
      var q := Pick(values, from + 1, blocks + {block}, need - 1);
      PickSpread(values, from + 1, blocks + {block}, need - 1);
      PrependBlock(values, from, q, blocks);
    }
  }

  lemma PrependBlock(values: seq<nat>, from: nat, q: seq<nat>, blocks: set<nat>)
    requires from < |values| && forall i :: 0 <= i < |q| ==> q[i] < |values|
    requires BlockOf(values[from]) !in blocks && NewBlocks(values, q, blocks + {BlockOf(values[from])})
    ensures NewBlocks(values, [from] + q, blocks)
  {
    var p := [from] + q;
    forall i, j | 0 <= i < j < |p| ensures BlockOf(values[p[i]]) != BlockOf(values[p[j]]) {
      assert BlockOf(values[q[j - 1]]) !in blocks + {BlockOf(values[from])};
    }
  }

  /** What is selected is taken from the values without repetition. */
  lemma {:induction false} SelectSound(values: seq<nat>, bits: nat)
    requires Distinct(values) && Select(values, bits).Some?
    ensures multiset(Select(values, bits).value) <= multiset(values)
    ensures Distinct(Select(values, bits).value) && ReplicasSpread(Select(values, bits).value)
    decreases bits
  {
    if bits > 0 {
      var picks := Picks(values);
      var left := DeleteAll(values, picks);
      DeleteSplits(values, picks);
      SelectSound(left, bits - 1);
      PickSpread(values, 0, {}, REPLICATION);
      AtSpread(values, picks);
      PrependSound(values, left, At(values, picks), Select(left, bits - 1).value);
    }
  }

  lemma PrependSound(values: seq<nat>, left: seq<nat>, first: seq<nat>, rest: seq<nat>)
    requires Distinct(values) && multiset(values) == multiset(left) + multiset(first)
    requires multiset(rest) <= multiset(left) && ReplicasSpread(rest)
    requires |first| == REPLICATION && SpreadBlocks(first)
    ensures multiset(first + rest) <= multiset(values)
    ensures Distinct(first + rest) && ReplicasSpread(first + rest)
  {
    JoinWithin(first, rest, left, values);
    SubMultisetDistinct(values, first + rest);
    PrependReplicas(first, rest);
  }

  lemma JoinWithin(first: seq<nat>, rest: seq<nat>, left: seq<nat>, values: seq<nat>)
    requires multiset(values) == multiset(left) + multiset(first) && multiset(rest) <= multiset(left)
    ensures multiset(first + rest) <= multiset(values)
  {
    assert multiset(first + rest) == multiset(first) + multiset(rest);
  }

  lemma AtSpread(values: seq<nat>, picks: seq<nat>)
    requires forall i :: 0 <= i < |picks| ==> picks[i] < |values|
    requires NewBlocks(values, picks, {})
    ensures SpreadBlocks(At(values, picks))
  {
  }

  predicate SpreadBlocks(s: seq<nat>) {
    forall i, j :: 0 <= i < j < |s| ==> BlockOf(s[i]) != BlockOf(s[j])
  }

  lemma PrependReplicas(first: seq<nat>, rest: seq<nat>)
    requires |first| == REPLICATION && ReplicasSpread(rest)
    requires SpreadBlocks(first)
    ensures ReplicasSpread(first + rest)
  {
    var all := first + rest;
    forall i, j | 0 <= i < j < |all| && i / REPLICATION == j / REPLICATION
      ensures BlockOf(all[i]) != BlockOf(all[j])
    {
      if i >= 3 {
        assert (i - 3) / REPLICATION == (j - 3) / REPLICATION;
        assert all[i] == rest[i - 3] && all[j] == rest[j - 3];
      }
    }
  }

  lemma SubMultisetDistinct(values: seq<nat>, s: seq<nat>)
    requires Distinct(values) && multiset(s) <= multiset(values)
    ensures Distinct(s)
  {
    DistinctMultiset(values);
    DistinctMultiset(s);
  }

  lemma ShuffledRange(values: seq<nat>, n: nat)
    requires multiset(values) == multiset(Range(n))
    ensures |values| == n && Distinct(values)
    ensures forall i :: 0 <= i < n ==> values[i] < n
  {
    var range := Range(n);
    assert |multiset(values)| == |multiset(range)|;
    SubMultisetDistinct(range, values);
    forall i | 0 <= i < |values| ensures values[i] < n {
      assert values[i] in multiset(range);
    }
  }
}
