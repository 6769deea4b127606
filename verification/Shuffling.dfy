/** The keyed shuffle is a bijection between draws and orders: with unbiased
    draws, no order is preferred. */
module Shuffling {
  import opened Collections
  import opened KeyedStream
  import opened Options

  /** One replacement for each index from `from` down to 1. */
  predicate Picks(from: int, picks: seq<nat>) {
    |picks| == (if from > 0 then from else 0) && forall k :: 0 <= k < |picks| ==> picks[k] <= from - k
  }

  lemma RestPicks(from: int, picks: seq<nat>)
    requires from > 0 && Picks(from, picks)
    ensures Picks(from - 1, picks[1..])
  {
  }

  /** The swaps that a sequence of replacements stands for. */
  function Rearranged<T>(values: seq<T>, from: int, picks: seq<nat>): (s: seq<T>)
    requires from < |values| && Picks(from, picks)
    ensures |s| == |values|
    decreases from, picks
  {
    if from <= 0 then values
    else
      RestPicks(from, picks);
      Rearranged(Swapped(values, from, picks[0]), from - 1, picks[1..])
  }

  /** The replacements a shuffle draws, and the offset behind them. */
  function Drawn(from: int, draw: Drawer, at: nat): Option<(seq<nat>, nat)>
    decreases from, draw
  {
    if from <= 0 then Some(([], at))
    else
      match draw(at, from + 1)
      case None => None
      case Some((replacement, next)) =>
        match Drawn(from - 1, draw, next)
        case None => None
        case Some((rest, end)) => Some(([replacement] + rest, end))
  }

  /** A shuffle performs the swaps it draws. */
  lemma {:induction false} ShuffledAsDrawn<T>(values: seq<T>, from: int, draw: Drawer, at: nat)
    requires from < |values| && Bounded(draw)
    ensures var drawn := Drawn(from, draw, at);
            var s := Shuffled(values, from, draw, at);
            && (drawn.Some? ==> Picks(from, drawn.value.0))
            && s == if drawn.None? then None else Some((Rearranged(values, from, drawn.value.0), drawn.value.1))
    decreases from
  {
    if from > 0 && draw(at, from + 1).Some? {
      var (replacement, next) := draw(at, from + 1).value;
      ShuffledAsDrawn(Swapped(values, from, replacement), from - 1, draw, next);
      if Drawn(from - 1, draw, next).Some? {
        var rest := Drawn(from - 1, draw, next).value.0;
        assert ([replacement] + rest)[1..] == rest;
      }
    }
  }

  /** The swaps from index `from` down leave the indices above alone. */
  lemma {:induction false} UpperFixed<T>(values: seq<T>, from: int, picks: seq<nat>, k: nat)
    requires from < k < |values| && Picks(from, picks)
    ensures Rearranged(values, from, picks)[k] == values[k]
    decreases from
  {
    if from > 0 {
      RestPicks(from, picks);
      UpperFixed(Swapped(values, from, picks[0]), from - 1, picks[1..], k);
    }
  }

  lemma SwapDistinct<T>(s: seq<T>, i: nat, j: nat)
    requires i < |s| && j < |s| && Distinct(s)
    ensures Distinct(Swapped(s, i, j))
  {
  }

  /** Different draws give different orders. */
  lemma {:induction false} DrawsDetermined<T>(values: seq<T>, from: int, picks: seq<nat>, others: seq<nat>)
    requires from < |values| && Distinct(values) && Picks(from, picks) && Picks(from, others)
    ensures Rearranged(values, from, picks) == Rearranged(values, from, others) ==> picks == others
    decreases from
  {
    if from > 0 {
      RestPicks(from, picks);
      RestPicks(from, others);
      UpperFixed(Swapped(values, from, picks[0]), from - 1, picks[1..], from);
      UpperFixed(Swapped(values, from, others[0]), from - 1, others[1..], from);
      if picks[0] == others[0] {
        SwapDistinct(values, from, picks[0]);
        DrawsDetermined(Swapped(values, from, picks[0]), from - 1, picks[1..], others[1..]);
        assert picks == [picks[0]] + picks[1..] && others == [others[0]] + others[1..];
      }
    }
  }

  /** Every order is drawn by some replacements. */
  lemma {:induction false} EveryOrderDrawn<T>(values: seq<T>, target: seq<T>, from: int) returns (picks: seq<nat>)
    requires from < |values| && Distinct(values) && multiset(target) == multiset(values)
    requires |target| == |values| && forall k :: 0 <= k < |values| && k > from ==> target[k] == values[k]
    ensures Picks(from, picks) && Rearranged(values, from, picks) == target
    decreases from
  {
    if from <= 0 {
      picks := [];
      if values != [] { LastFixed(values, target); }
    } else {
      var first := SourceOf(values, target, from);
      var swapped := Swapped(values, from, first);
      SwapPermutes(values, from, first);
      SwapDistinct(values, from, first);
      var rest := EveryOrderDrawn(swapped, target, from - 1);
      picks := [first] + rest;
      assert picks[1..] == rest;
    }
  }

  /** Where the value wanted at index `from` still is. */
  lemma SourceOf<T>(values: seq<T>, target: seq<T>, from: nat) returns (k: nat)
    requires from < |values| == |target| && Distinct(values) && multiset(target) == multiset(values)
    requires forall k :: from < k < |values| ==> target[k] == values[k]
    ensures k <= from && values[k] == target[from]
  {
    PermutedDistinct(values, target);
    assert target[from] in multiset(values);
    k :| 0 <= k < |values| && values[k] == target[from];
  }

  lemma LastFixed<T>(values: seq<T>, target: seq<T>)
    requires 0 < |values| == |target| && Distinct(values) && multiset(target) == multiset(values)
    requires forall k :: 0 < k < |values| ==> target[k] == values[k]
    ensures target == values
  {
    var k := SourceOf(values, target, 0);
  }

  /** A whole shuffle with these replacements gives that order. */
  predicate Gives<T(==)>(values: seq<T>, picks: seq<nat>, target: seq<T>) {
    Picks(|values| - 1, picks) && Rearranged(values, |values| - 1, picks) == target
  }

  /** Every order of distinct values comes from exactly one sequence of draws. */
  lemma OneDrawPerOrder<T>(values: seq<T>, target: seq<T>)
    requires Distinct(values) && multiset(target) == multiset(values) && |target| == |values|
    ensures exists picks :: Gives(values, picks, target)
    ensures forall p, q :: Gives(values, p, target) && Gives(values, q, target) ==> p == q
  {
    var picks := EveryOrderDrawn(values, target, |values| - 1);
    assert Gives(values, picks, target);
    forall p, q | Gives(values, p, target) && Gives(values, q, target) ensures p == q {
      DrawsDetermined(values, |values| - 1, p, q);
    }
  }
}
