/** The keyed byte stream, its unbiased integers and the in-place shuffle that
    every placement of the V3 codecs is derived from. */
module KeyedStream {
  import opened Numbers
  import opened Options

  type Digest = d: seq<int> | |d| == 32 && forall i :: 0 <= i < 32 ==> 0 <= d[i] < 256
    witness seq(32, i => 0)

  /** HMAC-SHA256 of the stream domain and a counter, under a fixed seed. */
  type Blocks = nat -> Digest

  // The counter is encoded in four bytes; the next block after these fails.
  const MAX_BLOCKS: nat := 0x1_0000_0000
  const MAX_BYTES: nat := 32 * MAX_BLOCKS

  /** The pure counter-mode stream. */
  function StreamByte(blocks: Blocks, i: nat): (b: int)
    ensures 0 <= b < 256
  {
    blocks(i / 32)[i % 32]
  }

  function Window(blocks: Blocks, start: nat, count: nat): (w: seq<int>)
    ensures |w| == count
    ensures forall i :: 0 <= i < count ==> w[i] == StreamByte(blocks, start + i)
  {
    seq(count, i requires 0 <= i => StreamByte(blocks, start + i))
  }

  function BitLength(n: nat): nat { if n == 0 then 0 else 1 + BitLength(n / 2) }

  function ByteCount(upper: nat): (count: nat)
    ensures count >= 1
  {
    var count := (BitLength(upper) + 7) / 8;
    if count < 1 then 1 else count
  }

  function SampleSpace(upper: nat): nat { Pow2(8 * ByteCount(upper)) }

  function AcceptanceLimit(upper: nat): int
    requires upper > 0
  {
    SampleSpace(upper) - SampleSpace(upper) % upper
  }

  function BigEndian(bytes: seq<int>): int {
    if bytes == [] then 0 else 256 * BigEndian(bytes[..|bytes| - 1]) + bytes[|bytes| - 1]
  }

  /** The integer formed by `count` stream bytes from an offset. */
  function Candidate(blocks: Blocks, at: nat, count: nat): (c: nat)
    decreases count, blocks
  {
    if count == 0 then 0 else 256 * Candidate(blocks, at, count - 1) + StreamByte(blocks, at + count - 1)
  }

  lemma {:induction false} CandidateRead(blocks: Blocks, at: nat, count: nat)
    ensures BigEndian(Window(blocks, at, count)) == Candidate(blocks, at, count)
    decreases count
  {
    if count > 0 {
      CandidateRead(blocks, at, count - 1);
      assert Window(blocks, at, count)[..count - 1] == Window(blocks, at, count - 1);
    }
  }

  /** The residue of a candidate, unless it must be rejected. */
  function Accepted(candidate: nat, upper: nat): (r: Option<nat>)
    requires upper > 0
    ensures r.Some? ==> r.value < upper
  {
    if candidate < AcceptanceLimit(upper) then Some(candidate % upper) else None
  }

  /** First accepted chunk at or after a stream offset: its residue and the
      offset behind it, or nothing when the counter runs out first. */
  function Draw(blocks: Blocks, at: nat, upper: nat): (d: Option<(nat, nat)>)
    requires upper > 0
    ensures d.Some? ==> d.value.0 < upper && at < d.value.1 <= MAX_BYTES
    decreases MAX_BYTES - at, blocks
  {
    var next := at + ByteCount(upper);
    if next > MAX_BYTES then None
    else
      match Accepted(Candidate(blocks, at, ByteCount(upper)), upper)
      case Some(residue) => Some((residue, next))
      case None => Draw(blocks, next, upper)
  }

  /** One step of the rejection loop. */
  lemma DrawStep(blocks: Blocks, at: nat, upper: nat)
    requires upper > 0
    ensures var next := at + ByteCount(upper);
            var sample := Accepted(Candidate(blocks, at, ByteCount(upper)), upper);
            if next > MAX_BYTES then Draw(blocks, at, upper) == None
            else if sample.Some? then Draw(blocks, at, upper) == Some((sample.value, next))
            else Draw(blocks, next, upper) == Draw(blocks, at, upper)
  {
  }

  /** A source of bounded integers: from a stream offset and an upper bound,
      the integer and the offset behind it. */
  type Drawer = (nat, nat) -> Option<(nat, nat)>

  function DrawFrom(blocks: Blocks): Drawer {
    (at: nat, upper: nat) => if upper == 0 then None else Draw(blocks, at, upper)
  }

  ghost predicate Bounded(draw: Drawer) {
    forall at, upper :: draw(at, upper).Some? ==> draw(at, upper).value.0 < upper
  }

  ghost predicate Realizes(blocks: Blocks, draw: Drawer) {
    forall at, upper {:trigger Draw(blocks, at, upper)} :: upper > 0 ==> draw(at, upper) == Draw(blocks, at, upper)
  }

  class HmacByteStream {
    const blocks: Blocks
    ghost const draw: Drawer
    var counter: nat
    var buffer: seq<int>
    ghost var consumed: nat

    ghost predicate Valid()
      reads this
    {
      && Bounded(draw) && Realizes(blocks, draw) && counter <= MAX_BLOCKS
      && consumed + |buffer| == 32 * counter
      && buffer == Window(blocks, consumed, |buffer|)
    }

    constructor (blocks: Blocks)
      ensures Valid() && consumed == 0 && this.blocks == blocks && draw == DrawFrom(blocks)
    {
      this.blocks, draw := blocks, DrawFrom(blocks);
      counter, buffer, consumed := 0, [], 0;
    }

    /** The next bytes of the pure stream, unless the counter overflows. */
    method Read(count: nat) returns (value: Option<seq<int>>)
      requires Valid()
      modifies this
      ensures Valid()
      ensures old(consumed) + count <= MAX_BYTES ==>
                value == Some(Window(blocks, old(consumed), count)) && consumed == old(consumed) + count
      ensures old(consumed) + count > MAX_BYTES ==> value.None? && consumed == old(consumed)
    {
      while |buffer| < count
        invariant Valid() && consumed == old(consumed)
        decreases MAX_BLOCKS - counter
      {
        if counter == MAX_BLOCKS { return None; }
        ghost var before := buffer;
        buffer := buffer + blocks(counter);
        counter := counter + 1;
        assert buffer == Window(blocks, consumed, |buffer|) by {
          forall i | 0 <= i < |buffer| ensures buffer[i] == StreamByte(blocks, consumed + i) {
            if i >= |before| { assert consumed + i == 32 * (counter - 1) + (i - |before|); }
          }
        }
      }
      value := Some(buffer[..count]);
      assert buffer[..count] == Window(blocks, consumed, count);
      buffer := buffer[count..];
      consumed := consumed + count;
    }

    /** Read the next `count` bytes as one integer. */
    method ReadInteger(count: nat) returns (value: Option<nat>)
      requires Valid()
      modifies this
      ensures Valid()
      ensures old(consumed) + count <= MAX_BYTES ==>
                value == Some(Candidate(blocks, old(consumed), count)) && consumed == old(consumed) + count
      ensures old(consumed) + count > MAX_BYTES ==> value.None?
    {
      CandidateRead(blocks, consumed, count);
      var bytes := Read(count);
      value := if bytes.None? then None else Some(BigEndian(bytes.value));
    }

    /** Read one candidate and test it: the draw ends here, or goes on from
        where the stream now stands. */
    method Sample(upper: nat) returns (exhausted: bool, r: Option<nat>)
      requires Valid() && upper > 0
      modifies this
      ensures Valid()
      ensures exhausted ==> Draw(blocks, old(consumed), upper) == None
      ensures !exhausted ==> old(consumed) < consumed <= MAX_BYTES
      ensures !exhausted ==> Draw(blocks, old(consumed), upper) ==
                             if r.Some? then Some((r.value, consumed)) else Draw(blocks, consumed, upper)
    {
      DrawStep(blocks, consumed, upper);
      var candidate := ReadInteger(ByteCount(upper));
      exhausted, r := candidate.None?, None;
      if candidate.Some? { r := Accepted(candidate.value, upper); }
    }

    method RandBelow(upper: nat) returns (r: Option<nat>)
      requires Valid() && upper > 0
      modifies this
      ensures Valid()
      ensures draw(old(consumed), upper) == if r.Some? then Some((r.value, consumed)) else None
    {
      ghost var drawn := Draw(blocks, consumed, upper);
      while true
        invariant Valid()
        invariant Draw(blocks, consumed, upper) == drawn
        decreases MAX_BYTES - consumed
      {
        var exhausted, sample := Sample(upper);
        if exhausted { return None; }
        if sample.Some? { return sample; }
      }
    }
  }

  // ----- unbiasedness

  lemma {:induction false} BelowBitLength(n: nat)
    ensures n < Pow2(BitLength(n))
  {
    if n > 0 { BelowBitLength(n / 2); }
  }

  lemma {:induction false} TopBit(n: nat)
    requires n > 0
    ensures BitLength(n) > 0 && Pow2(BitLength(n) - 1) <= n
  {
    if n > 1 { TopBit(n / 2); }
  }

  /** No shorter byte count could tell the results apart. */
  lemma SampleSpaceTight(upper: nat)
    requires upper > 0
    ensures ByteCount(upper) == 1 || Pow2(8 * (ByteCount(upper) - 1)) <= upper
  {
    TopBit(upper);
    if ByteCount(upper) > 1 { PowMonotone(8 * (ByteCount(upper) - 1), BitLength(upper) - 1); }
  }

  lemma {:induction false} PowMonotone(m: nat, n: nat)
    requires m <= n
    ensures Pow2(m) <= Pow2(n)
  {
    if m < n { PowMonotone(m, n - 1); }
  }

  lemma UpperInSpace(upper: nat)
    requires upper > 0
    ensures upper < SampleSpace(upper)
  {
    BelowBitLength(upper);
    PowMonotone(BitLength(upper), 8 * ByteCount(upper));
  }

  /** More than half of the sample space is accepted, so a draw is retried
      with probability below one half. */
  lemma AcceptsMoreThanHalf(upper: nat)
    requires upper > 0
    ensures 2 * AcceptanceLimit(upper) > SampleSpace(upper)
    ensures AcceptanceLimit(upper) % upper == 0
  {
    UpperInSpace(upper);
    var space := SampleSpace(upper);
    var q, r := space / upper, space % upper;
    assert space == q * upper + r;
    MulAtLeast(q - 1, upper);
    assert (q - 1) * upper == q * upper - upper;
    DivModUnique(q * upper, q, upper);
  }

  function Preimages(upper: nat, residue: nat, bound: nat): set<int>
    requires upper > 0
  {
    set c: int | 0 <= c < bound && c % upper == residue
  }

  /** Every result has exactly the same number of accepted candidates. */
  lemma {:induction false} EquallyManyPreimages(upper: nat, residue: nat, blocks: nat)
    requires residue < upper
    ensures |Preimages(upper, residue, blocks * upper)| == blocks
  {
    if blocks == 0 {
      assert Preimages(upper, residue, 0) == {};
    } else {
      EquallyManyPreimages(upper, residue, blocks - 1);
      assert blocks * upper == (blocks - 1) * upper + upper;
      PreimagesStep(upper, residue, blocks - 1);
    }
  }

  lemma PreimagesStep(upper: nat, residue: nat, blocks: nat)
    requires residue < upper
    ensures Preimages(upper, residue, blocks * upper + upper)
         == Preimages(upper, residue, blocks * upper) + {blocks * upper + residue}
  {
    forall c: nat | blocks * upper <= c < blocks * upper + upper ensures c % upper == c - blocks * upper {
      DivModUnique(c, blocks, upper);
    }
  }

  lemma Unbiased(upper: nat, residue: nat)
    requires residue < upper
    ensures |Preimages(upper, residue, AcceptanceLimit(upper))| * upper == AcceptanceLimit(upper)
  {
    AcceptsMoreThanHalf(upper);
    var limit := AcceptanceLimit(upper);
    assert limit == limit / upper * upper;
    EquallyManyPreimages(upper, residue, limit / upper);
  }

  // ----- shuffling

  function Swapped<T>(values: seq<T>, i: nat, j: nat): (s: seq<T>)
    requires i < |values| && j < |values|
    ensures |s| == |values|
  {
    values[i := values[j]][j := values[i]]
  }

  /** Fisher-Yates from index `from` down to 1, and the offset behind it. */
  function Shuffled<T>(values: seq<T>, from: int, draw: Drawer, at: nat): (s: Option<(seq<T>, nat)>)
    requires from < |values| && Bounded(draw)
    decreases from, draw
  {
    if from <= 0 then Some((values, at))
    else
      match draw(at, from + 1)
      case None => None
      case Some((replacement, next)) => Shuffled(Swapped(values, from, replacement), from - 1, draw, next)
  }

  lemma SwapPermutes<T>(s: seq<T>, i: nat, j: nat)
    requires i < |s| && j < |s|
    ensures multiset(Swapped(s, i, j)) == multiset(s)
  {
  }

  /** Whatever is drawn, a finished shuffle is a permutation of its input. */
  lemma {:induction false} ShuffledPermutes<T>(values: seq<T>, from: int, draw: Drawer, at: nat)
    requires from < |values| && Bounded(draw)
    ensures var s := Shuffled(values, from, draw, at); s.Some? ==> multiset(s.value.0) == multiset(values)
    decreases from
  {
    if from > 0 && draw(at, from + 1).Some? {
      var (replacement, next) := draw(at, from + 1).value;
      SwapPermutes(values, from, replacement);
      ShuffledPermutes(Swapped(values, from, replacement), from - 1, draw, next);
    }
  }

  /** One draw and, unless the stream is exhausted, one swap: the shuffle goes
      on one index lower. */
  method SwapDrawn<T>(values: array<T>, index: nat, rng: HmacByteStream) returns (ok: bool)
    requires rng.Valid() && 0 < index < values.Length
    modifies values, rng
    ensures rng.Valid()
    ensures Shuffled(old(values[..]), index, rng.draw, old(rng.consumed)) ==
            if ok then Shuffled(values[..], index - 1, rng.draw, rng.consumed) else None
  {
    var replacement := rng.RandBelow(index + 1);
    ok := replacement.Some?;
    if ok {
      values[index], values[replacement.value] := values[replacement.value], values[index];
      assert values[..] == Swapped(old(values[..]), index, replacement.value);
    }
  }

  method Shuffle<T>(values: array<T>, rng: HmacByteStream) returns (ok: bool)
    requires rng.Valid()
    modifies values, rng
    ensures rng.Valid()
    ensures Shuffled(old(values[..]), values.Length - 1, rng.draw, old(rng.consumed))
         == if ok then Some((values[..], rng.consumed)) else None
  {
    var index := values.Length - 1;
    ghost var result := Shuffled(values[..], index, rng.draw, rng.consumed);
    ok := true;
    while index > 0
      invariant -1 <= index < values.Length && rng.Valid()
      invariant Shuffled(values[..], index, rng.draw, rng.consumed) == result
    {
      ok := SwapDrawn(values, index, rng);
      if !ok { return; }
      index := index - 1;
    }
  }
}
