/** Byte interleaving over `depth` lanes, its inverse for ragged final rows,
    and the coordinate change that erasure positions go through. */
module Interleaving {
  import opened Collections
  import opened Numbers

  /** len(range(offset, n, depth)). */
  function LaneLength(n: nat, offset: nat, depth: nat): nat
    requires depth > 0
  {
    if offset >= n then 0 else (n - offset + depth - 1) / depth
  }

  /** data[offset::depth]. */
  function Lane<T>(data: seq<T>, offset: nat, depth: nat): (lane: seq<T>)
    requires depth > 0
    ensures |lane| == LaneLength(|data|, offset, depth)
  {
    LaneReach(|data|, offset, depth);
    seq(LaneLength(|data|, offset, depth),
        k requires 0 <= k < LaneLength(|data|, offset, depth) => data[offset + k * depth])
  }

  /** A lane's entries are exactly the indices below n in its residue class. */
  lemma LaneReach(n: nat, offset: nat, depth: nat)
    requires depth > 0
    ensures forall k: nat :: k < LaneLength(n, offset, depth) <==> offset + k * depth < n
  {
    forall k: nat ensures k < LaneLength(n, offset, depth) <==> offset + k * depth < n {
      LaneEntry(n, offset, depth, k);
    }
  }

  lemma LaneEntry(n: nat, offset: nat, depth: nat, k: nat)
    requires depth > 0
    ensures k < LaneLength(n, offset, depth) <==> offset + k * depth < n
  {
    if offset < n {
      CeilingReach(n - offset, depth, k);
    }
  }

  /** k is below the rounded-up quotient exactly when its multiple is below
      the dividend. */
  lemma CeilingReach(count: nat, depth: nat, k: nat)
    requires depth > 0
    ensures k < (count + depth - 1) / depth <==> k * depth < count
  {
    var total := count + depth - 1;
    var length := total / depth;
    DivMod(total, depth);
    ProductDifference(length, k, depth);
    MulAtLeast(length - k, depth);
  }

  lemma ProductDifference(a: int, b: int, d: int)
    ensures (a - b) * d == a * d - b * d
  {
  }

  /** The first `count` lanes in order. */
  function Lanes<T>(data: seq<T>, depth: nat, count: nat): (s: seq<T>)
    requires depth > 0
    ensures |s| == LaneStart(|data|, count, depth)
  {
    if count == 0 then [] else Lanes(data, depth, count - 1) + Lane(data, count - 1, depth)
  }

  /** Where a lane begins in the interleaved bytes. */
  function LaneStart(n: nat, offset: nat, depth: nat): nat
    requires depth > 0
  {
    if offset == 0 then 0 else LaneStart(n, offset - 1, depth) + LaneLength(n, offset - 1, depth)
  }

  function Interleave<T>(data: seq<T>, depth: nat): seq<T>
    requires depth > 0
  {
    Lanes(data, depth, depth)
  }

  /** Where raw byte i travels to. */
  function Slot(n: nat, i: nat, depth: nat): nat
    requires depth > 0
  {
    LaneStart(n, i % depth, depth) + i / depth
  }

  lemma {:induction false} LaneStartGrows(n: nat, offset: nat, depth: nat)
    requires depth > 0 && offset <= depth
    ensures LaneStart(n + 1, offset, depth) == LaneStart(n, offset, depth) + if n % depth < offset then 1 else 0
    decreases offset
  {
    if offset > 0 {
      LaneStartGrows(n, offset - 1, depth);
      LaneLengthGrows(n, offset - 1, depth);
    }
  }

  lemma LaneLengthGrows(n: nat, offset: nat, depth: nat)
    requires depth > 0 && offset < depth
    ensures LaneLength(n + 1, offset, depth) == LaneLength(n, offset, depth) + if n % depth == offset then 1 else 0
  {
    var length := LaneLength(n, offset, depth);
    if n % depth == offset {
      LastEntry(n, offset, depth);
      forall k: nat ensures k < length + 1 <==> offset + k * depth < n + 1 {
        LaneEntry(n, offset, depth, k);
        if offset + k * depth == n { DivModUnique(n, k, depth); }
      }
      LaneLengthUnique(n + 1, offset, depth, length + 1);
    } else {
      forall k: nat ensures k < length <==> offset + k * depth < n + 1 {
        LaneEntry(n, offset, depth, k);
        if offset + k * depth == n { DivModUnique(n, k, depth); }
      }
      LaneLengthUnique(n + 1, offset, depth, length);
    }
  }

  lemma LaneLengthUnique(n: nat, offset: nat, depth: nat, length: nat)
    requires depth > 0 && forall k: nat :: k < length <==> offset + k * depth < n
    ensures LaneLength(n, offset, depth) == length
  {
    LaneEntry(n, offset, depth, length);
    LaneEntry(n, offset, depth, LaneLength(n, offset, depth));
    assert LaneLength(n, offset, depth) < length <==> offset + LaneLength(n, offset, depth) * depth < n;
  }

  /** An index of the lane's residue class that is just out of reach is the
      lane's next entry. */
  lemma LastEntry(n: nat, offset: nat, depth: nat)
    requires depth > 0 && offset == n % depth
    ensures LaneLength(n, offset, depth) == n / depth && offset + n / depth * depth == n
  {
    var k := n / depth;
    DivMod(n, depth);
    LaneEntry(n, offset, depth, k);
    if k > 0 {
      assert (k - 1) * depth == k * depth - depth;
      LaneEntry(n, offset, depth, k - 1);
    }
  }

  lemma {:induction false} LaneTotal(n: nat, depth: nat)
    requires depth > 0
    ensures LaneStart(n, depth, depth) == n
  {
    if n == 0 {
      LanesEmpty(depth, depth);
    } else {
      LaneTotal(n - 1, depth);
      LaneStartGrows(n - 1, depth, depth);
    }
  }

  lemma {:induction false} LanesEmpty(offset: nat, depth: nat)
    requires depth > 0
    ensures LaneStart(0, offset, depth) == 0
  {
    if offset > 0 { LanesEmpty(offset - 1, depth); }
  }

  lemma {:induction false} LaneStartMonotone(n: nat, a: nat, b: nat, depth: nat)
    requires depth > 0 && a <= b
    ensures LaneStart(n, a, depth) <= LaneStart(n, b, depth)
  {
    if a < b { LaneStartMonotone(n, a, b - 1, depth); }
  }

  lemma {:induction false} LanesEntry<T>(data: seq<T>, depth: nat, count: nat, offset: nat, k: nat)
    requires depth > 0 && offset < count && k < LaneLength(|data|, offset, depth)
    ensures offset + k * depth < |data|
    ensures LaneStart(|data|, offset, depth) + k < LaneStart(|data|, count, depth)
    ensures Lanes(data, depth, count)[LaneStart(|data|, offset, depth) + k] == data[offset + k * depth]
  {
    LaneEntry(|data|, offset, depth, k);
    LaneStartMonotone(|data|, offset + 1, count, depth);
    if offset < count - 1 {
      LanesEntry(data, depth, count - 1, offset, k);
    }
  }

  lemma SlotInRange(n: nat, i: nat, depth: nat)
    requires depth > 0 && i < n
    ensures Slot(n, i, depth) < n
    ensures i / depth < LaneLength(n, i % depth, depth)
  {
    DivMod(i, depth);
    LaneEntry(n, i % depth, depth, i / depth);
    LaneStartMonotone(n, i % depth + 1, depth, depth);
    LaneTotal(n, depth);
  }

  /** Interleaving moves raw byte i to its slot. */
  lemma InterleaveMoves<T>(data: seq<T>, depth: nat, i: nat)
    requires depth > 0 && i < |data|
    ensures |Interleave(data, depth)| == |data| && Slot(|data|, i, depth) < |data|
    ensures Interleave(data, depth)[Slot(|data|, i, depth)] == data[i]
  {
    LaneTotal(|data|, depth);
    EntryOf(data, depth, i, i % depth, i / depth);
    assert Slot(|data|, i, depth) == LaneStart(|data|, i % depth, depth) + i / depth;
  }

  lemma EntryOf<T>(data: seq<T>, depth: nat, i: nat, offset: nat, k: nat)
    requires offset < depth && i < |data| && offset == i % depth && k == i / depth
    ensures LaneStart(|data|, offset, depth) + k < |Interleave(data, depth)|
    ensures Interleave(data, depth)[LaneStart(|data|, offset, depth) + k] == data[i]
  {
    DivMod(i, depth);
    LaneEntry(|data|, offset, depth, k);
    LanesEntry(data, depth, depth, offset, k);
  }

  function Deinterleaved<T>(data: seq<T>, depth: nat): (s: seq<T>)
    requires depth > 0
    ensures |s| == |data|
  {
    seq(|data|, i requires 0 <= i < |data| => SlotInRange(|data|, i, depth); data[Slot(|data|, i, depth)])
  }

  /** Indices restored once lanes below `offset` and k entries of lane
      `offset` have been copied. */
  predicate Restored(i: nat, offset: nat, k: nat, depth: nat)
    requires depth > 0
  {
    i % depth < offset || (i % depth == offset && i / depth < k)
  }

  lemma RestoredStep(offset: nat, k: nat, depth: nat)
    requires offset < depth
    ensures forall i: nat ::
              Restored(i, offset, k + 1, depth) <==> Restored(i, offset, k, depth) || i == offset + k * depth
  {
    forall i: nat
      ensures Restored(i, offset, k + 1, depth) <==> Restored(i, offset, k, depth) || i == offset + k * depth
    {
      RestoredEntry(i, offset, k, depth);
    }
  }

  lemma RestoredEntry(i: nat, offset: nat, k: nat, depth: nat)
    requires offset < depth
    ensures i % depth == offset && i / depth == k <==> i == offset + k * depth
  {
    DivMod(i, depth);
    if i == offset + k * depth { DivModUnique(i, k, depth); }
  }

  lemma RestoredLane(n: nat, offset: nat, depth: nat)
    requires offset < depth
    ensures forall i: nat :: i < n && Restored(i, offset + 1, 0, depth) ==>
              Restored(i, offset, LaneLength(n, offset, depth), depth)
  {
    forall i: nat | i < n && i % depth == offset ensures i / depth < LaneLength(n, offset, depth) {
      SlotInRange(n, i, depth);
    }
  }

  method Deinterleave(data: seq<int>, depth: nat) returns (restored: seq<int>)
    requires depth > 0
    ensures restored == Deinterleaved(data, depth)
  {
    var n := |data|;
    var buffer := new int[n];
    var cursor := 0;
    ghost var target := Deinterleaved(data, depth);
    for offset := 0 to depth
      invariant cursor == LaneStart(n, offset, depth)
      invariant forall i :: 0 <= i < n && Restored(i, offset, 0, depth) ==> buffer[i] == target[i]
    {
      var length := LaneLength(n, offset, depth);
      for k := 0 to length
        invariant forall i :: 0 <= i < n && Restored(i, offset, k, depth) ==> buffer[i] == target[i]
      {
        LaneSource(data, depth, offset, k);
        RestoredStep(offset, k, depth);
        buffer[offset + k * depth] := data[cursor + k];
      }
      RestoredLane(n, offset, depth);
      cursor := cursor + length;
    }
    restored := buffer[..];
  }

  lemma LaneSource(data: seq<int>, depth: nat, offset: nat, k: nat)
    requires offset < depth && k < LaneLength(|data|, offset, depth)
    ensures var i := offset + k * depth;
            && i < |data| && LaneStart(|data|, offset, depth) + k < |data|
            && Deinterleaved(data, depth)[i] == data[LaneStart(|data|, offset, depth) + k]
  {
    LaneEntry(|data|, offset, depth, k);
    EntrySource(data, depth, offset, k, offset + k * depth);
  }

  lemma EntrySource(data: seq<int>, depth: nat, offset: nat, k: nat, i: nat)
    requires offset < depth && i == offset + k * depth && i < |data|
    ensures LaneStart(|data|, offset, depth) + k < |data|
    ensures Deinterleaved(data, depth)[i] == data[LaneStart(|data|, offset, depth) + k]
  {
    DivModUnique(i, k, depth);
    DeinterleavedAt(data, depth, i);
  }

  lemma DeinterleavedAt<T>(data: seq<T>, depth: nat, i: nat)
    requires depth > 0 && i < |data|
    ensures Slot(|data|, i, depth) < |data| && Deinterleaved(data, depth)[i] == data[Slot(|data|, i, depth)]
  {
    SlotInRange(|data|, i, depth);
  }

  /** Deinterleaving undoes interleaving, for every length and depth. */
  lemma DeinterleaveInterleave<T>(data: seq<T>, depth: nat)
    requires depth > 0
    ensures Deinterleaved(Interleave(data, depth), depth) == data
  {
    LaneTotal(|data|, depth);
    forall i | 0 <= i < |data| ensures Deinterleaved(Interleave(data, depth), depth)[i] == data[i] {
      InterleaveMoves(data, depth, i);
    }
  }

  lemma LaneOfDeinterleaved<T>(data: seq<T>, depth: nat, offset: nat)
    requires depth > 0 && offset < depth
    ensures LaneStart(|data|, offset + 1, depth) <= |data|
    ensures Lane(Deinterleaved(data, depth), offset, depth)
         == data[LaneStart(|data|, offset, depth)..LaneStart(|data|, offset + 1, depth)]
  {
    var n := |data|;
    LaneTotal(n, depth);
    LaneStartMonotone(n, offset + 1, depth, depth);
    LaneReach(n, offset, depth);
    forall k | 0 <= k < LaneLength(n, offset, depth)
      ensures Lane(Deinterleaved(data, depth), offset, depth)[k] == data[LaneStart(n, offset, depth) + k]
    {
      DivModUnique(offset + k * depth, k, depth);
    }
  }

  lemma {:induction false} LanesOfDeinterleaved<T>(data: seq<T>, depth: nat, count: nat)
    requires depth > 0 && count <= depth
    ensures LaneStart(|data|, count, depth) <= |data|
    ensures Lanes(Deinterleaved(data, depth), depth, count) == data[..LaneStart(|data|, count, depth)]
    decreases count
  {
    if count > 0 {
      LanesOfDeinterleaved(data, depth, count - 1);
      LaneOfDeinterleaved(data, depth, count - 1);
    }
  }

  /** Interleaving undoes deinterleaving. */
  lemma InterleaveDeinterleave<T>(data: seq<T>, depth: nat)
    requires depth > 0
    ensures Interleave(Deinterleaved(data, depth), depth) == data
  {
    LanesOfDeinterleaved(data, depth, depth);
    LaneTotal(|data|, depth);
  }

  // ----- erasure coordinates

  /** The raw index found at each interleaved position. */
  function RawIndex(n: nat, depth: nat): (table: seq<nat>)
    requires depth > 0
  {
    Interleave(Range(n), depth)
  }

  /** The table is the inverse of the slot map, hence a bijection. */
  lemma RawIndexInverse(n: nat, depth: nat)
    requires depth > 0
    ensures |RawIndex(n, depth)| == n
    ensures forall p :: 0 <= p < n ==> RawIndex(n, depth)[p] < n && Slot(n, RawIndex(n, depth)[p], depth) == p
    ensures forall i :: 0 <= i < n ==> Slot(n, i, depth) < n && RawIndex(n, depth)[Slot(n, i, depth)] == i
  {
    var table := RawIndex(n, depth);
    LaneTotal(n, depth);
    forall i | 0 <= i < n ensures Slot(n, i, depth) < n && table[Slot(n, i, depth)] == i {
      InterleaveMoves(Range(n), depth, i);
    }
    forall p | 0 <= p < n ensures table[p] < n && Slot(n, table[p], depth) == p {
      var i := FromSlot(n, depth, p);
    }
  }

  /** Every interleaved position is some raw byte's slot. */
  lemma FromSlot(n: nat, depth: nat, p: nat) returns (i: nat)
    requires depth > 0 && p < n
    ensures i < n && Slot(n, i, depth) == p && |RawIndex(n, depth)| == n && RawIndex(n, depth)[p] == i
  {
    LaneTotal(n, depth);
    var offset := LaneHolding(n, depth, depth, p);
    var k := p - LaneStart(n, offset, depth);
    i := EntryIndex(n, depth, offset, k);
    EntryOf(Range(n), depth, i, offset, k);
  }

  lemma EntryIndex(n: nat, depth: nat, offset: nat, k: nat) returns (i: nat)
    requires offset < depth && k < LaneLength(n, offset, depth)
    ensures i < n && i % depth == offset && i / depth == k
  {
    LaneEntry(n, offset, depth, k);
    i := offset + k * depth;
    DivModUnique(i, k, depth);
  }

  lemma {:induction false} LaneHolding(n: nat, depth: nat, count: nat, p: nat) returns (offset: nat)
    requires depth > 0 && p < LaneStart(n, count, depth)
    ensures offset < count
    ensures LaneStart(n, offset, depth) <= p < LaneStart(n, offset, depth) + LaneLength(n, offset, depth)
    decreases count
  {
    if p >= LaneStart(n, count - 1, depth) { offset := count - 1; }
    else { offset := LaneHolding(n, depth, count - 1, p); }
  }

  function RawErasures(positions: seq<nat>, n: nat, depth: nat): (raw: seq<nat>)
    requires depth > 0 && forall k :: 0 <= k < |positions| ==> positions[k] < n
    ensures |raw| == |positions|
  {
    RawIndexInverse(n, depth);
    seq(|positions|, k requires 0 <= k < |positions| => RawIndex(n, depth)[positions[k]])
  }

  /** Mapping erasures is injective and marks exactly the raw bytes that the
      marked interleaved positions came from. */
  lemma ErasuresExact(data: seq<int>, positions: seq<nat>, depth: nat)
    requires depth > 0 && forall k :: 0 <= k < |positions| ==> positions[k] < |data|
    ensures var raw := RawErasures(positions, |data|, depth);
            && (forall i :: 0 <= i < |data| ==> (i in raw <==> Slot(|data|, i, depth) in positions))
            && (forall k :: 0 <= k < |raw| ==>
                  raw[k] < |data| && Deinterleaved(data, depth)[raw[k]] == data[positions[k]])
            && (forall j, k :: 0 <= j < k < |raw| && positions[j] != positions[k] ==> raw[j] != raw[k])
  {
    var n := |data|;
    var raw := RawErasures(positions, n, depth);
    RawIndexInverse(n, depth);
    forall i | 0 <= i < n ensures i in raw <==> Slot(n, i, depth) in positions {
      if i in raw {
        var k :| 0 <= k < |raw| && raw[k] == i;
        assert Slot(n, i, depth) == positions[k];
      }
      if Slot(n, i, depth) in positions {
        var k :| 0 <= k < |positions| && positions[k] == Slot(n, i, depth);
        assert raw[k] == i;
      }
    }
    forall j, k | 0 <= j < k < |raw| && positions[j] != positions[k] ensures raw[j] != raw[k] {
      assert Slot(n, raw[j], depth) == positions[j] && Slot(n, raw[k], depth) == positions[k];
    }
  }

  lemma EarlierLane(n: nat, depth: nat, i: nat, j: nat)
    requires depth > 0 && i < n && j < n && i % depth < j % depth
    ensures Slot(n, i, depth) < Slot(n, j, depth)
  {
    SlotInRange(n, i, depth);
    LanesApart(n, depth, i % depth, i / depth, j % depth);
    DivMod(j, depth);
    MulAtLeast(j / depth, depth);
  }

  lemma LanesApart(n: nat, depth: nat, lane: nat, k: nat, later: nat)
    requires depth > 0 && lane < later && k < LaneLength(n, lane, depth)
    ensures LaneStart(n, lane, depth) + k < LaneStart(n, later, depth)
  {
    LaneStartMonotone(n, lane + 1, later, depth);
  }

  lemma WithinLane(depth: nat, i: nat, j: nat)
    requires depth > 0 && i % depth == j % depth
    ensures i < j <==> i / depth < j / depth
  {
    var x, y := i / depth, j / depth;
    DivMod(i, depth);
    DivMod(j, depth);
    ProductDifference(y, x, depth);
    MulAtLeast(y - x, depth);
  }

  /** The output is the input ordered by lane first and index second. */
  lemma LaneOrder(n: nat, depth: nat, i: nat, j: nat)
    requires depth > 0 && i < n && j < n
    ensures Slot(n, i, depth) < Slot(n, j, depth) <==> i % depth < j % depth || (i % depth == j % depth && i < j)
  {
    if i % depth < j % depth {
      EarlierLane(n, depth, i, j);
    } else if j % depth < i % depth {
      EarlierLane(n, depth, j, i);
    } else {
      WithinLane(depth, i, j);
    }
  }
}
