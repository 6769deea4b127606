/** The region authenticator: tags of every region are carried by key-ordered
    partner regions and voted on, which bounds how far tampering spreads. */
module Integrity {
  import opened Collections
  import opened Numbers

  // ----- partner mappings

  /** A ring order of the regions, as sorting them by keyed digest gives. */
  predicate IsOrder(order: seq<nat>) {
    && Distinct(order)
    && (forall i :: 0 <= i < |order| ==> order[i] < |order|)
    && (forall x :: 0 <= x < |order| ==> x in order)
  }

  function Rank(order: seq<nat>, region: nat): (r: nat)
    requires IsOrder(order) && region < |order|
    ensures r < |order| && order[r] == region
  {
    IndexOf(order, region)
  }

  function IndexOf(order: seq<nat>, region: nat): (r: nat)
    requires region in order
    ensures r < |order| && order[r] == region
  {
    if order[0] == region then 0
    else
      assert order == [order[0]] + order[1..];
      1 + IndexOf(order[1..], region)
  }

  function Destination(order: seq<nat>, shift: nat, source: nat): (d: nat)
    requires IsOrder(order) && source < |order|
    ensures d < |order|
  {
    order[(Rank(order, source) + shift) % |order|]
  }

  datatype Partners = Mapped(shifts: seq<nat>) | NotIndependent

  /** The profile's ring shifts reduced to the region count. */
  function Effective(shifts: seq<nat>, count: nat): (e: seq<nat>)
    requires count > 0
    ensures |e| == |shifts| && forall k :: 0 <= k < |e| ==> e[k] < count
  {
    seq(|shifts|, k requires 0 <= k < |shifts| => shifts[k] % count)
  }

  function PartnerShifts(shifts: seq<nat>, count: nat): (p: Partners)
    requires count > 0
    ensures p.Mapped? <==> Independent(Effective(shifts, count), count)
  {
    var e := Effective(shifts, count);
    if 0 in e || !Distinct(e) then NotIndependent else Mapped(e)
  }

  predicate Independent(shifts: seq<nat>, count: nat) {
    && Distinct(shifts)
    && (forall k :: 0 <= k < |shifts| ==> 0 < shifts[k] < count)
  }

  lemma RingStep(r: nat, q: nat, e: nat, f: nat, n: nat)
    requires r < n && q < n && e < n && f < n && (r + e) % n == (q + f) % n
    ensures r == q ==> e == f
    ensures e == f ==> r == q
  {
    WrapOnce(r + e, n);
    WrapOnce(q + f, n);
  }

  lemma WrapOnce(x: nat, n: nat)
    requires x < 2 * n
    ensures x % n == if x < n then x else x - n
  {
    DivModUnique(x, if x < n then 0 else 1, n);
  }

  /** Each replica's mapping is injective, never fixes a region, and no two
      replicas of a region share a destination. */
  lemma MappingsIndependent(order: seq<nat>, shifts: seq<nat>)
    requires IsOrder(order) && Independent(shifts, |order|)
    ensures forall k, s, u :: 0 <= k < |shifts| && 0 <= s < u < |order| ==>
              Destination(order, shifts[k], s) != Destination(order, shifts[k], u)
    ensures forall k, s :: 0 <= k < |shifts| && 0 <= s < |order| ==> Destination(order, shifts[k], s) != s
    ensures forall j, k, s :: 0 <= j < k < |shifts| && 0 <= s < |order| ==>
              Destination(order, shifts[j], s) != Destination(order, shifts[k], s)
  {
    forall k, s, u | 0 <= k < |shifts| && 0 <= s < u < |order|
      ensures Destination(order, shifts[k], s) != Destination(order, shifts[k], u)
    {
      SameDestination(order, shifts[k], shifts[k], s, u);
    }
    forall k, s | 0 <= k < |shifts| && 0 <= s < |order| ensures Destination(order, shifts[k], s) != s {
      SameDestination(order, shifts[k], 0, s, s);
      Unshifted(order, s);
    }
    forall j, k, s | 0 <= j < k < |shifts| && 0 <= s < |order|
      ensures Destination(order, shifts[j], s) != Destination(order, shifts[k], s)
    {
      SameDestination(order, shifts[j], shifts[k], s, s);
    }
  }

  lemma Unshifted(order: seq<nat>, s: nat)
    requires IsOrder(order) && s < |order|
    ensures Destination(order, 0, s) == s
  {
    WrapOnce(Rank(order, s), |order|);
  }

  /** A tag goes `shift` places forward on the ring. */
  lemma RingForward(order: seq<nat>, shift: nat, i: nat)
    requires IsOrder(order) && i < |order| && shift < |order|
    ensures Destination(order, shift, order[i])
         == order[if i + shift < |order| then i + shift else i + shift - |order|]
  {
    assert Rank(order, order[i]) == i;
    WrapOnce(i + shift, |order|);
  }

  lemma SameDestination(order: seq<nat>, e: nat, f: nat, s: nat, u: nat)
    requires IsOrder(order) && e < |order| && f < |order| && s < |order| && u < |order|
    ensures Destination(order, e, s) == Destination(order, f, u) && s == u ==> e == f
    ensures Destination(order, e, s) == Destination(order, f, u) && e == f ==> s == u
  {
    if Destination(order, e, s) == Destination(order, f, u) {
      RingStep(Rank(order, s), Rank(order, u), e, f, |order|);
    }
  }

  /** Every region carries exactly one tag per replica. */
  lemma EveryRegionCarries(order: seq<nat>, shift: nat, d: nat) returns (source: nat)
    requires IsOrder(order) && shift < |order| && d < |order|
    ensures source < |order| && Destination(order, shift, source) == d
  {
    var n := |order|;
    var r := Rank(order, d);
    var back := if r >= shift then r - shift else r + n - shift;
    source := order[back];
    assert Rank(order, source) == back;
    WrapOnce(back + shift, n);
  }

  // ----- voting

  datatype Verdict = Matching | Suspicious | Indeterminate

  datatype Limitation = NoLimitation | InsufficientRegions | MostlyIndeterminate | GeometryFailure | StrongCompression

  datatype Decision = Decision(score: real, suspicious: seq<nat>, evaluated: nat, limitation: Limitation)

  /** Refused stands for the error raised when the ring shifts collide. */
  datatype Outcome = Refused | Reported(decision: Decision)

  datatype Policy = Policy(minimumVotes: nat, minimumConfidence: real, minimumRegions: nat,
                           compressionRatio: real, geometryRatio: real, highConfidence: real)

  predicate Is(judge: nat -> Verdict, verdict: Verdict, s: nat) { judge(s) == verdict }

  function Judged(judge: nat -> Verdict, verdict: Verdict): nat -> bool { (s: nat) => Is(judge, verdict, s) }

  /** The suspicious regions below n, ascending. */
  function Flagged(judge: nat -> Verdict, n: nat): seq<nat>
    decreases n, judge
  {
    if n == 0 then []
    else Flagged(judge, n - 1) + if judge(n - 1) == Suspicious then [n - 1] else []
  }

  ghost predicate Tallied(judge: nat -> Verdict, n: nat, matched: nat, flagged: seq<nat>, indeterminate: nat) {
    && matched == Count(n, Judged(judge, Matching))
    && indeterminate == Count(n, Judged(judge, Indeterminate))
    && flagged == Flagged(judge, n)
  }

  lemma TallyOne(judge: nat -> Verdict, n: nat, verdict: Verdict, matched: nat, flagged: seq<nat>, indeterminate: nat)
    requires Tallied(judge, n, matched, flagged, indeterminate) && verdict == judge(n)
    ensures verdict == Matching ==> Tallied(judge, n + 1, matched + 1, flagged, indeterminate)
    ensures verdict == Suspicious ==> Tallied(judge, n + 1, matched, flagged + [n], indeterminate)
    ensures verdict == Indeterminate ==> Tallied(judge, n + 1, matched, flagged, indeterminate + 1)
  {
  }

  /** Everything derived from key, nonce and profile: the tag a region's
      content should have under its index, the tag and confidence replica k of
      a region carries, and the region that carries it. */
  datatype Authenticator<!Block, !Tag(==)> =
    Authenticator(expected: (Block, nat) -> Tag, extract: (Block, nat) -> (Tag, real), policy: Policy,
                  carrier: (nat, nat) -> nat, regions: nat, replicas: nat)
  {
    ghost predicate Valid() {
      && 1 <= policy.minimumVotes <= replicas && regions > 0
      && forall k, s :: carrier(k, s) < regions
    }

    /** Each mapping is injective without fixed point, and the replicas of a
        region have different carriers. */
    ghost predicate Separated() {
      && (forall k, s, u :: 0 <= k < replicas && 0 <= s < u < regions ==> carrier(k, s) != carrier(k, u))
      && (forall k, s :: 0 <= k < replicas && 0 <= s < regions ==> carrier(k, s) != s)
      && (forall j, k, s :: 0 <= j < k < replicas && 0 <= s < regions ==> carrier(j, s) != carrier(k, s))
    }

    function Reading(page: seq<Block>, k: nat, s: nat): (Tag, real)
      requires Valid() && |page| == regions && k < replicas && s < regions
    {
      extract(page[carrier(k, s)], k)
    }

    predicate VotesFor(page: seq<Block>, k: nat, s: nat)
      requires Valid() && |page| == regions && s < regions
    {
      k < replicas
      && Reading(page, k, s).1 >= policy.minimumConfidence && Reading(page, k, s).0 == expected(page[s], s)
    }

    predicate VotesAgainst(page: seq<Block>, k: nat, s: nat)
      requires Valid() && |page| == regions && s < regions
    {
      k < replicas
      && Reading(page, k, s).1 >= policy.minimumConfidence && Reading(page, k, s).0 != expected(page[s], s)
    }

    function For(page: seq<Block>, s: nat): nat -> bool
      requires Valid() && |page| == regions && s < regions
    {
      (k: nat) => VotesFor(page, k, s)
    }

    function Against(page: seq<Block>, s: nat): nat -> bool
      requires Valid() && |page| == regions && s < regions
    {
      (k: nat) => VotesAgainst(page, k, s)
    }

    function Matches(page: seq<Block>, s: nat): nat
      requires Valid() && |page| == regions && s < regions
    {
      Count(replicas, For(page, s))
    }

    function Mismatches(page: seq<Block>, s: nat): nat
      requires Valid() && |page| == regions && s < regions
    {
      Count(replicas, Against(page, s))
    }

    function Judge(page: seq<Block>, s: nat): Verdict
      requires Valid() && |page| == regions
    {
      if s >= regions then Indeterminate
      else if Matches(page, s) >= policy.minimumVotes then Matching
      else if Mismatches(page, s) >= policy.minimumVotes then Suspicious
      else Indeterminate
    }

    ghost function Verdicts(page: seq<Block>): nat -> Verdict
      requires Valid() && |page| == regions
    {
      (s: nat) => Judge(page, s)
    }

    ghost function Readings(page: seq<Block>): int -> real
      requires Valid() && |page| == regions
    {
      s => if 0 <= s < regions then Sum(replicas, Confidences(page, s)) else 0.0
    }

    function Confidences(page: seq<Block>, s: nat): int -> real
      requires Valid() && |page| == regions && s < regions
    {
      k => if 0 <= k < replicas then Reading(page, k, s).1 else 0.0
    }

    function Mean(sum: real): real
      requires Valid()
    {
      sum / (replicas * regions) as real
    }

    ghost function MeanConfidence(page: seq<Block>): real
      requires Valid() && |page| == regions
    {
      Mean(Sum(regions, Readings(page)))
    }

    /** What limits the evidence of a page with the given tallies. */
    function Limit(mismatched: nat, indeterminate: nat, mean: real): Limitation
      requires regions > 0
    {
      if indeterminate * 2 >= regions then MostlyIndeterminate
      else if mismatched as real / regions as real >= policy.geometryRatio && mean >= policy.highConfidence
      then GeometryFailure
      else if mismatched as real / regions as real >= policy.compressionRatio && mean < policy.highConfidence
      then StrongCompression
      else NoLimitation
    }

    function Concluded(matched: nat, flagged: seq<nat>, indeterminate: nat, mean: real): Decision
      requires regions > 0
    {
      var limitation := Limit(|flagged|, indeterminate, mean);
      Decision(matched as real / regions as real, if limitation == NoLimitation then flagged else [], regions,
               limitation)
    }

    ghost function Report(page: seq<Block>): Decision
      requires Valid() && |page| == regions
    {
      var judge := Verdicts(page);
      Concluded(Count(regions, Judged(judge, Matching)), Flagged(judge, regions),
                Count(regions, Judged(judge, Indeterminate)), MeanConfidence(page))
    }

    /** The replicas of one region, one reading at a time. */
    method PollReplicas(page: seq<Block>, s: nat) returns (verdict: Verdict, confidenceSum: real)
      requires Valid() && |page| == regions && s < regions
      ensures verdict == Judge(page, s) && confidenceSum == Sum(replicas, Confidences(page, s))
    {
      var tag := expected(page[s], s);
      var matchVotes, mismatchVotes := 0, 0;
      confidenceSum := 0.0;
      for k := 0 to replicas
        invariant matchVotes == Count(k, For(page, s))
        invariant mismatchVotes == Count(k, Against(page, s))
        invariant confidenceSum == Sum(k, Confidences(page, s))
      {
        var (actual, confidence) := extract(page[carrier(k, s)], k);
        confidenceSum := confidenceSum + confidence;
        if confidence >= policy.minimumConfidence {
          if actual == tag { matchVotes := matchVotes + 1; } else { mismatchVotes := mismatchVotes + 1; }
        }
      }
      verdict := if matchVotes >= policy.minimumVotes then Matching
                 else if mismatchVotes >= policy.minimumVotes then Suspicious
                 else Indeterminate;
    }

    /** One pass over the regions; `mismatched` is counted beside the list. */
    method PollRegions(page: seq<Block>, ghost judge: nat -> Verdict, ghost readings: int -> real)
      returns (matched: nat, flagged: seq<nat>, mismatched: nat, indeterminate: nat, confidenceSum: real)
      requires Valid() && |page| == regions
      requires forall s: nat :: s < regions ==> judge(s) == Judge(page, s)
      requires forall s: nat :: s < regions ==> readings(s) == Sum(replicas, Confidences(page, s))
      ensures Tallied(judge, regions, matched, flagged, indeterminate) && mismatched == |flagged|
      ensures confidenceSum == Sum(regions, readings)
    {
      matched, flagged, mismatched, indeterminate, confidenceSum := 0, [], 0, 0, 0.0;
      for source := 0 to regions
        invariant Tallied(judge, source, matched, flagged, indeterminate) && mismatched == |flagged|
        invariant confidenceSum == Sum(source, readings)
      {
        var verdict, confidence := PollReplicas(page, source);
        confidenceSum := confidenceSum + confidence;
        matched, flagged, mismatched, indeterminate :=
          AddVerdict(judge, source, verdict, matched, flagged, mismatched, indeterminate);
      }
    }

    method AddVerdict(ghost judge: nat -> Verdict, source: nat, verdict: Verdict, matched: nat, flagged: seq<nat>,
                      mismatched: nat, indeterminate: nat)
      returns (matched': nat, flagged': seq<nat>, mismatched': nat, indeterminate': nat)
      requires verdict == judge(source) && mismatched == |flagged|
      requires Tallied(judge, source, matched, flagged, indeterminate)
      ensures Tallied(judge, source + 1, matched', flagged', indeterminate') && mismatched' == |flagged'|
    {
      TallyOne(judge, source, verdict, matched, flagged, indeterminate);
      matched', flagged', mismatched', indeterminate' := matched, flagged, mismatched, indeterminate;
      match verdict {
        case Matching => matched' := matched + 1;
        case Suspicious => flagged', mismatched' := flagged + [source], mismatched + 1;
        case Indeterminate => indeterminate' := indeterminate + 1;
      }
    }
  }

  /** The authenticator whose carriers follow the keyed ring. */
  function OnRing<Block, Tag>(expected: (Block, nat) -> Tag, extract: (Block, nat) -> (Tag, real), policy: Policy,
                              order: seq<nat>, shifts: seq<nat>): Authenticator<Block, Tag>
    requires IsOrder(order) && |order| > 0
  {
    var effective := Effective(shifts, |order|);
    Authenticator(expected, extract, policy,
                  (k: nat, s: nat) => if k < |effective| && s < |order| then Destination(order, effective[k], s) else 0,
                  |order|, |shifts|)
  }

  lemma RingIsSeparated<Block, Tag>(expected: (Block, nat) -> Tag, extract: (Block, nat) -> (Tag, real),
                                    policy: Policy, order: seq<nat>, shifts: seq<nat>)
    requires IsOrder(order) && |order| > 0 && 1 <= policy.minimumVotes <= |shifts|
    requires PartnerShifts(shifts, |order|).Mapped?
    ensures OnRing(expected, extract, policy, order, shifts).Valid()
    ensures OnRing(expected, extract, policy, order, shifts).Separated()
  {
    MappingsIndependent(order, Effective(shifts, |order|));
  }

  ghost function Decide<Block, Tag>(expected: (Block, nat) -> Tag, extract: (Block, nat) -> (Tag, real),
                                    policy: Policy, order: seq<nat>, shifts: seq<nat>, page: seq<Block>): Outcome
    requires IsOrder(order) && |page| == |order| && 1 <= policy.minimumVotes <= |shifts| && 1 <= policy.minimumRegions
  {
    if |page| < policy.minimumRegions then Reported(Decision(0.0, [], 0, InsufficientRegions))
    else if PartnerShifts(shifts, |order|).NotIndependent? then Refused
    else Reported(OnRing(expected, extract, policy, order, shifts).Report(page))
  }

  method VerifyIntegrity<Block, Tag(==)>(expected: (Block, nat) -> Tag, extract: (Block, nat) -> (Tag, real),
                                     policy: Policy, order: seq<nat>, shifts: seq<nat>, page: seq<Block>)
    returns (outcome: Outcome)
    requires IsOrder(order) && |page| == |order| && 1 <= policy.minimumVotes <= |shifts| && 1 <= policy.minimumRegions
    ensures outcome == Decide(expected, extract, policy, order, shifts, page)
  {
    if |page| < policy.minimumRegions { return Reported(Decision(0.0, [], 0, InsufficientRegions)); }
    if PartnerShifts(shifts, |order|).NotIndependent? { return Refused; }
    var a := OnRing(expected, extract, policy, order, shifts);
    var matched, flagged, mismatched, indeterminate, confidenceSum :=
      a.PollRegions(page, a.Verdicts(page), a.Readings(page));
    var limitation := a.Limit(mismatched, indeterminate, a.Mean(confidenceSum));
    outcome := Reported(Decision(matched as real / |page| as real,
                                 if limitation == NoLimitation then flagged else [], |page|, limitation));
  }

  // ----- the mean confidence

  ghost predicate ReadAtLeast<Block, Tag>(a: Authenticator<Block, Tag>, page: seq<Block>, low: real)
    requires a.Valid() && |page| == a.regions
  {
    forall k, s :: 0 <= k < a.replicas && 0 <= s < a.regions ==> a.Reading(page, k, s).1 >= low
  }

  ghost predicate ReadAtMost<Block, Tag>(a: Authenticator<Block, Tag>, page: seq<Block>, high: real)
    requires a.Valid() && |page| == a.regions
  {
    forall k, s :: 0 <= k < a.replicas && 0 <= s < a.regions ==> a.Reading(page, k, s).1 <= high
  }

  ghost predicate ReadBelow<Block, Tag>(a: Authenticator<Block, Tag>, page: seq<Block>, high: real)
    requires a.Valid() && |page| == a.regions
  {
    forall k, s :: 0 <= k < a.replicas && 0 <= s < a.regions ==> a.Reading(page, k, s).1 < high
  }

  lemma Quotient(sum: real, x: real, replicas: nat, regions: nat)
    requires replicas * regions > 0
    ensures var q := sum / (replicas * regions) as real;
            var bound := regions as real * (replicas as real * x);
            && (sum >= bound <==> q >= x) && (sum <= bound <==> q <= x)
  {
    var n := (replicas * regions) as real;
    var q := sum / n;
    assert n == regions as real * replicas as real;
    assert q * n == sum;
    assert regions as real * (replicas as real * x) == x * n;
    ScaleOrder(q, x, n);
    ScaleOrder(x, q, n);
  }

  lemma SomeReadings<Block, Tag>(a: Authenticator<Block, Tag>)
    requires a.Valid()
    ensures a.replicas * a.regions > 0
  {
    MulAtLeast(a.replicas, a.regions);
  }

  lemma RegionAtLeast<Block, Tag>(a: Authenticator<Block, Tag>, page: seq<Block>, low: real, s: nat)
    requires a.Valid() && |page| == a.regions && ReadAtLeast(a, page, low) && s < a.regions
    ensures Sum(a.replicas, a.Confidences(page, s)) >= a.replicas as real * low
  {
    SumAtLeast(a.replicas, a.Confidences(page, s), low);
  }

  lemma PageSumAtLeast<Block, Tag>(a: Authenticator<Block, Tag>, page: seq<Block>, low: real)
    requires a.Valid() && |page| == a.regions && ReadAtLeast(a, page, low)
    ensures Sum(a.regions, a.Readings(page)) >= a.regions as real * (a.replicas as real * low)
  {
    var readings, each := a.Readings(page), a.replicas as real * low;
    forall s | 0 <= s < a.regions ensures readings(s) >= each { RegionAtLeast(a, page, low, s); }
    SumAtLeast(a.regions, readings, each);
  }

  lemma MeanAtLeast<Block, Tag>(a: Authenticator<Block, Tag>, page: seq<Block>, low: real)
    requires a.Valid() && |page| == a.regions && ReadAtLeast(a, page, low)
    ensures a.MeanConfidence(page) >= low
  {
    PageSumAtLeast(a, page, low);
    SomeReadings(a);
    Quotient(Sum(a.regions, a.Readings(page)), low, a.replicas, a.regions);
  }

  lemma RegionAtMost<Block, Tag>(a: Authenticator<Block, Tag>, page: seq<Block>, high: real, s: nat)
    requires a.Valid() && |page| == a.regions && ReadAtMost(a, page, high) && s < a.regions
    ensures Sum(a.replicas, a.Confidences(page, s)) <= a.replicas as real * high
  {
    SumAtMost(a.replicas, a.Confidences(page, s), high);
  }

  lemma PageSumAtMost<Block, Tag>(a: Authenticator<Block, Tag>, page: seq<Block>, high: real)
    requires a.Valid() && |page| == a.regions && ReadAtMost(a, page, high)
    ensures Sum(a.regions, a.Readings(page)) <= a.regions as real * (a.replicas as real * high)
  {
    var readings, each := a.Readings(page), a.replicas as real * high;
    forall s | 0 <= s < a.regions ensures readings(s) <= each { RegionAtMost(a, page, high, s); }
    SumAtMost(a.regions, readings, each);
  }

  lemma MeanAtMost<Block, Tag>(a: Authenticator<Block, Tag>, page: seq<Block>, high: real)
    requires a.Valid() && |page| == a.regions && ReadAtMost(a, page, high)
    ensures a.MeanConfidence(page) <= high
  {
    PageSumAtMost(a, page, high);
    SomeReadings(a);
    Quotient(Sum(a.regions, a.Readings(page)), high, a.replicas, a.regions);
  }

  lemma RegionBelow<Block, Tag>(a: Authenticator<Block, Tag>, page: seq<Block>, high: real, s: nat)
    requires a.Valid() && |page| == a.regions && ReadBelow(a, page, high) && s < a.regions
    ensures Sum(a.replicas, a.Confidences(page, s)) < a.replicas as real * high
  {
    SumBelow(a.replicas, a.Confidences(page, s), high);
  }

  lemma PageSumBelow<Block, Tag>(a: Authenticator<Block, Tag>, page: seq<Block>, high: real)
    requires a.Valid() && |page| == a.regions && ReadBelow(a, page, high)
    ensures Sum(a.regions, a.Readings(page)) < a.regions as real * (a.replicas as real * high)
  {
    var readings, each := a.Readings(page), a.replicas as real * high;
    forall s | 0 <= s < a.regions ensures readings(s) < each { RegionBelow(a, page, high, s); }
    SumBelow(a.regions, readings, each);
  }

  lemma MeanBelow<Block, Tag>(a: Authenticator<Block, Tag>, page: seq<Block>, high: real)
    requires a.Valid() && |page| == a.regions && ReadBelow(a, page, high)
    ensures a.MeanConfidence(page) < high
  {
    PageSumBelow(a, page, high);
    SomeReadings(a);
    Quotient(Sum(a.regions, a.Readings(page)), high, a.replicas, a.regions);
  }

  /** The mean lies between any two bounds of all readings: it is c when every
      replica reads with confidence c. */
  lemma MeanBounds<Block, Tag>(a: Authenticator<Block, Tag>, page: seq<Block>, low: real, high: real)
    requires a.Valid() && |page| == a.regions && ReadAtLeast(a, page, low) && ReadAtMost(a, page, high)
    ensures low <= a.MeanConfidence(page) <= high
  {
    MeanAtLeast(a, page, low);
    MeanAtMost(a, page, high);
  }

  // ----- how far tampering spreads

  /** Every replica of every region confidently matches. */
  ghost predicate Pristine<Block, Tag>(a: Authenticator<Block, Tag>, page: seq<Block>)
    requires a.Valid() && |page| == a.regions
  {
    forall k, s :: 0 <= k < a.replicas && 0 <= s < a.regions ==> a.VotesFor(page, k, s)
  }

  /** The two pages differ only inside the touched regions. */
  predicate OnlyTouched<Block(==)>(page: seq<Block>, tampered: seq<Block>, touched: set<nat>) {
    |page| == |tampered| && forall d :: 0 <= d < |page| && d !in touched ==> page[d] == tampered[d]
  }

  predicate Hit<Block, Tag>(a: Authenticator<Block, Tag>, touched: set<nat>, k: nat, s: nat)
    requires a.Valid()
  {
    k < a.replicas && s < a.regions && a.carrier(k, s) in touched
  }

  function Hits<Block, Tag>(a: Authenticator<Block, Tag>, touched: set<nat>): (nat, nat) -> bool
    requires a.Valid()
  {
    (s: nat, k: nat) => Hit(a, touched, k, s)
  }

  /** A replica of an untouched region votes otherwise only when its carrier
      was touched. */
  lemma UntouchedVotes<Block, Tag>(a: Authenticator<Block, Tag>, page: seq<Block>, tampered: seq<Block>,
                                   touched: set<nat>, k: nat, s: nat)
    requires a.Valid() && |page| == a.regions && Pristine(a, page) && OnlyTouched(page, tampered, touched)
    requires k < a.replicas && s < a.regions && s !in touched && !Hit(a, touched, k, s)
    ensures a.VotesFor(tampered, k, s) && !a.VotesAgainst(tampered, k, s)
  {
    assert a.VotesFor(page, k, s);
  }

  lemma LostMatches<Block, Tag>(a: Authenticator<Block, Tag>, page: seq<Block>, tampered: seq<Block>,
                                touched: set<nat>, s: nat)
    requires a.Valid() && |page| == a.regions && Pristine(a, page) && OnlyTouched(page, tampered, touched)
    requires s < a.regions && s !in touched
    ensures a.Matches(tampered, s) + RowCount(a.replicas, Hits(a, touched))(s) >= a.replicas
  {
    var missed := (k: nat) => !Hit(a, touched, k, s);
    forall k: nat | k < a.replicas && missed(k) ensures a.VotesFor(tampered, k, s) {
      UntouchedVotes(a, page, tampered, touched, k, s);
    }
    CountLess(a.replicas, missed, a.For(tampered, s));
    CountNot(a.replicas, RowOf(Hits(a, touched), s), missed);
  }

  lemma GainedMismatches<Block, Tag>(a: Authenticator<Block, Tag>, page: seq<Block>, tampered: seq<Block>,
                                     touched: set<nat>, s: nat)
    requires a.Valid() && |page| == a.regions && Pristine(a, page) && OnlyTouched(page, tampered, touched)
    requires s < a.regions && s !in touched
    ensures a.Mismatches(tampered, s) <= RowCount(a.replicas, Hits(a, touched))(s)
  {
    forall k: nat | k < a.replicas && a.VotesAgainst(tampered, k, s) ensures Hit(a, touched, k, s) {
      if !Hit(a, touched, k, s) { UntouchedVotes(a, page, tampered, touched, k, s); }
    }
    CountLess(a.replicas, a.Against(tampered, s), RowOf(Hits(a, touched), s));
  }

  /** A region that stops matching has lost at least R - m + 1 carriers, and a
      suspicious one at least m. */
  lemma LostCarriers<Block, Tag>(a: Authenticator<Block, Tag>, page: seq<Block>, tampered: seq<Block>,
                                 touched: set<nat>, s: nat)
    requires a.Valid() && |page| == a.regions && Pristine(a, page) && OnlyTouched(page, tampered, touched)
    requires s < a.regions && s !in touched
    ensures a.Judge(tampered, s) != Matching ==>
              RowCount(a.replicas, Hits(a, touched))(s) >= a.replicas - a.policy.minimumVotes + 1
    ensures a.Judge(tampered, s) == Suspicious ==>
              RowCount(a.replicas, Hits(a, touched))(s) >= a.policy.minimumVotes
  {
    LostMatches(a, page, tampered, touched, s);
    GainedMismatches(a, page, tampered, touched, s);
  }

  /** Touching T breaks at most R |T| carriages. */
  lemma CarriagesBroken<Block, Tag>(a: Authenticator<Block, Tag>, touched: set<nat>)
    requires a.Valid() && a.Separated()
    ensures Total(a.regions, RowCount(a.replicas, Hits(a, touched))) <= a.replicas * |touched|
  {
    DoubleCount(a.regions, a.replicas, Hits(a, touched));
    forall k: nat | k < a.replicas ensures ColumnCount(a.regions, Hits(a, touched))(k) <= |touched| {
      var carrier := (s: nat) => if s < a.regions then a.carrier(k, s) else 0;
      CountInjective(a.regions, (s: nat) => Hits(a, touched)(s, k), carrier, touched);
    }
    TotalAtMost(a.replicas, ColumnCount(a.regions, Hits(a, touched)), |touched|);
  }

  function Broken<Block, Tag>(a: Authenticator<Block, Tag>, page: seq<Block>, touched: set<nat>): nat -> bool
    requires a.Valid() && |page| == a.regions
  {
    (s: nat) => s !in touched && a.Judge(page, s) != Matching
  }

  function Accused<Block, Tag>(a: Authenticator<Block, Tag>, page: seq<Block>, touched: set<nat>): nat -> bool
    requires a.Valid() && |page| == a.regions
  {
    (s: nat) => s !in touched && a.Judge(page, s) == Suspicious
  }

  /** Tamper-spread bound: of the untouched regions, at most R|T|/(R-m+1)
      stop matching and at most R|T|/m are accused. */
  lemma TamperSpread<Block, Tag>(a: Authenticator<Block, Tag>, page: seq<Block>, tampered: seq<Block>,
                                 touched: set<nat>)
    requires a.Valid() && a.Separated() && |page| == a.regions && Pristine(a, page)
             && OnlyTouched(page, tampered, touched)
    ensures (a.replicas - a.policy.minimumVotes + 1) * Count(a.regions, Broken(a, tampered, touched))
            <= a.replicas * |touched|
    ensures a.policy.minimumVotes * Count(a.regions, Accused(a, tampered, touched)) <= a.replicas * |touched|
  {
    var hits := RowCount(a.replicas, Hits(a, touched));
    forall s: nat | s < a.regions && s !in touched
      ensures Broken(a, tampered, touched)(s) ==> hits(s) >= a.replicas - a.policy.minimumVotes + 1
      ensures Accused(a, tampered, touched)(s) ==> hits(s) >= a.policy.minimumVotes
    {
      LostCarriers(a, page, tampered, touched, s);
    }
    TotalAtLeast(a.regions, hits, Broken(a, tampered, touched), a.replicas - a.policy.minimumVotes + 1);
    TotalAtLeast(a.regions, hits, Accused(a, tampered, touched), a.policy.minimumVotes);
    CarriagesBroken(a, touched);
  }

  lemma {:induction false} SumMovesCount(n: nat, f: int -> real, g: int -> real, p: nat -> bool)
    requires forall i: nat :: i < n ==> Abs(g(i) - f(i)) <= if p(i) then 1.0 else 0.0
    ensures Abs(Sum(n, g) - Sum(n, f)) <= Count(n, p) as real
  {
    if n > 0 { SumMovesCount(n - 1, f, g, p); }
  }

  lemma {:induction false} SumMovesTotal(n: nat, f: int -> real, g: int -> real, h: nat -> nat)
    requires forall i: nat :: i < n ==> Abs(g(i) - f(i)) <= h(i) as real
    ensures Abs(Sum(n, g) - Sum(n, f)) <= Total(n, h) as real
  {
    if n > 0 { SumMovesTotal(n - 1, f, g, h); }
  }

  lemma RegionMoves<Block, Tag>(a: Authenticator<Block, Tag>, page: seq<Block>, tampered: seq<Block>,
                                touched: set<nat>, s: nat)
    requires a.Valid() && |page| == a.regions && OnlyTouched(page, tampered, touched) && s < a.regions
    requires ReadAtLeast(a, page, 0.0) && ReadAtMost(a, page, 1.0)
    requires ReadAtLeast(a, tampered, 0.0) && ReadAtMost(a, tampered, 1.0)
    ensures Abs(Sum(a.replicas, a.Confidences(tampered, s)) - Sum(a.replicas, a.Confidences(page, s)))
            <= RowCount(a.replicas, Hits(a, touched))(s) as real
  {
    var before, after := a.Confidences(page, s), a.Confidences(tampered, s);
    forall k: nat | k < a.replicas
      ensures Abs(after(k) - before(k)) <= if RowOf(Hits(a, touched), s)(k) then 1.0 else 0.0
    {
      assert 0.0 <= a.Reading(page, k, s).1 <= 1.0 && 0.0 <= a.Reading(tampered, k, s).1 <= 1.0;
    }
    SumMovesCount(a.replicas, before, after, RowOf(Hits(a, touched), s));
  }

  /** Touching T moves the mean confidence by at most |T| of the N regions. */
  lemma MeanMoves<Block, Tag>(a: Authenticator<Block, Tag>, page: seq<Block>, tampered: seq<Block>,
                              touched: set<nat>)
    requires a.Valid() && a.Separated() && |page| == a.regions && OnlyTouched(page, tampered, touched)
    requires ReadAtLeast(a, page, 0.0) && ReadAtMost(a, page, 1.0)
    requires ReadAtLeast(a, tampered, 0.0) && ReadAtMost(a, tampered, 1.0)
    ensures Abs(a.MeanConfidence(tampered) - a.MeanConfidence(page)) <= |touched| as real / a.regions as real
  {
    var before, after := a.Readings(page), a.Readings(tampered);
    var hits := RowCount(a.replicas, Hits(a, touched));
    forall s: nat | s < a.regions ensures Abs(after(s) - before(s)) <= hits(s) as real {
      RegionMoves(a, page, tampered, touched, s);
    }
    SumMovesTotal(a.regions, before, after, hits);
    CarriagesBroken(a, touched);
    MovedQuotient(Sum(a.regions, before), Sum(a.regions, after), a.replicas, a.regions, |touched|);
  }

  lemma MovedQuotient(before: real, after: real, replicas: nat, regions: nat, touched: nat)
    requires replicas > 0 && regions > 0 && Abs(after - before) <= (replicas * touched) as real
    ensures replicas * regions > 0
    ensures Abs(after / (replicas * regions) as real - before / (replicas * regions) as real)
            <= touched as real / regions as real
  {
    MulAtLeast(replicas, regions);
    var n, share := (replicas * regions) as real, touched as real / regions as real;
    var moved := after / n - before / n;
    assert moved * n == after - before;
    assert share * regions as real == touched as real;
    assert share * n == share * regions as real * replicas as real;
    ScaleAbs(moved, share, n);
  }

  // ----- one tampered region is localized exactly

  lemma OneCarrier<Block, Tag>(a: Authenticator<Block, Tag>, t: nat, s: nat)
    requires a.Valid() && a.Separated() && s < a.regions
    ensures RowCount(a.replicas, Hits(a, {t}))(s) <= 1
  {
    forall j: nat, k: nat | j < k < a.replicas && Hits(a, {t})(s, j) ensures !Hits(a, {t})(s, k) {
      assert a.carrier(j, s) != a.carrier(k, s);
    }
    CountAtMostOne(a.replicas, RowOf(Hits(a, {t}), s));
  }

  /** With a vote to spare, tampering with one region changes no other
      region's verdict, and its own exactly when its expected tag changed. */
  lemma SingleTamper<Block, Tag>(a: Authenticator<Block, Tag>, page: seq<Block>, tampered: seq<Block>, t: nat)
    requires a.Valid() && a.Separated() && |page| == a.regions && Pristine(a, page) && OnlyTouched(page, tampered, {t})
    requires t < a.regions && a.policy.minimumVotes < a.replicas
    ensures forall s: nat :: s < a.regions && s != t ==> a.Judge(tampered, s) == Matching
    ensures a.Judge(tampered, t)
         == if a.expected(tampered[t], t) == a.expected(page[t], t) then Matching else Suspicious
  {
    forall s: nat | s < a.regions && s != t ensures a.Judge(tampered, s) == Matching {
      OneCarrier(a, t, s);
      LostCarriers(a, page, tampered, {t}, s);
    }
    OwnVerdict(a, page, tampered, t);
  }

  lemma OwnVerdict<Block, Tag>(a: Authenticator<Block, Tag>, page: seq<Block>, tampered: seq<Block>, t: nat)
    requires a.Valid() && a.Separated() && |page| == a.regions && Pristine(a, page) && OnlyTouched(page, tampered, {t})
    requires t < a.regions
    ensures a.Judge(tampered, t)
         == if a.expected(tampered[t], t) == a.expected(page[t], t) then Matching else Suspicious
  {
    var same := a.expected(tampered[t], t) == a.expected(page[t], t);
    forall k: nat | k < a.replicas
      ensures a.VotesFor(tampered, k, t) == same && a.VotesAgainst(tampered, k, t) == !same
    {
      assert a.VotesFor(page, k, t);
      assert a.carrier(k, t) != t;
    }
    CountAll(a.replicas, a.For(tampered, t));
    CountNone(a.replicas, a.For(tampered, t));
    CountAll(a.replicas, a.Against(tampered, t));
  }

  lemma {:induction false} FlaggedOnly(judge: nat -> Verdict, t: nat, n: nat)
    requires forall s: nat :: s < n ==> (judge(s) == Suspicious <==> s == t)
    ensures Flagged(judge, n) == if t < n then [t] else []
    decreases n
  {
    if n > 0 { FlaggedOnly(judge, t, n - 1); }
  }

  /** The evidence limit that a single mismatch among n regions meets. */
  predicate Suppressed(policy: Policy, n: nat, mean: real)
    requires n > 0
  {
    1.0 / n as real >= if mean >= policy.highConfidence then policy.geometryRatio else policy.compressionRatio
  }

  /** Localization: after a change inside one region the report names exactly
      that region, unless its expected tag did not change or the page has so few
      regions that one mismatch already counts as a global failure. */
  lemma Localized<Block, Tag>(a: Authenticator<Block, Tag>, page: seq<Block>, tampered: seq<Block>, t: nat)
    requires a.Valid() && a.Separated() && |page| == a.regions && Pristine(a, page) && OnlyTouched(page, tampered, {t})
    requires t < a.regions && a.policy.minimumVotes < a.replicas
    requires a.policy.geometryRatio > 0.0 && a.policy.compressionRatio > 0.0
    ensures var changed := a.expected(tampered[t], t) != a.expected(page[t], t);
            var suppressed := Suppressed(a.policy, a.regions, a.MeanConfidence(tampered));
            var d := a.Report(tampered);
            && d.score == (if changed then a.regions - 1 else a.regions) as real / a.regions as real
            && d.suspicious == (if changed && !suppressed then [t] else [])
            && (d.limitation == NoLimitation <==> !changed || !suppressed)
  {
    var changed := a.expected(tampered[t], t) != a.expected(page[t], t);
    SingleTamper(a, page, tampered, t);
    LocalizedTally(a.Verdicts(tampered), a.regions, t, changed);
    LimitOfOne(a, changed, a.MeanConfidence(tampered));
  }

  lemma LocalizedTally(judge: nat -> Verdict, n: nat, t: nat, changed: bool)
    requires t < n && forall s: nat :: s < n ==> judge(s) == if changed && s == t then Suspicious else Matching
    ensures Flagged(judge, n) == if changed then [t] else []
    ensures Count(n, Judged(judge, Indeterminate)) == 0
    ensures Count(n, Judged(judge, Matching)) == if changed then n - 1 else n
  {
    var other := (s: nat) => changed && s == t;
    CountNot(n, other, Judged(judge, Matching));
    if changed { CountOne(n, other, t); } else { CountNone(n, other); }
    FlaggedOnly(judge, if changed then t else n, n);
    CountNone(n, Judged(judge, Indeterminate));
  }

  lemma LimitOfOne<Block, Tag>(a: Authenticator<Block, Tag>, changed: bool, mean: real)
    requires a.regions > 0 && a.policy.geometryRatio > 0.0 && a.policy.compressionRatio > 0.0
    ensures a.Limit(if changed then 1 else 0, 0, mean) == NoLimitation
       <==> !changed || !Suppressed(a.policy, a.regions, mean)
  {
    assert 0.0 / a.regions as real == 0.0;
  }

  /** The shipped ratios: one mismatch is suppressed on pages of at most four
      regions, or of at most ten when the mean confidence is below 0.85. */
  lemma SuppressedByFrozenPolicy(policy: Policy, n: nat, mean: real)
    requires n > 0 && policy.geometryRatio == 0.25 && policy.compressionRatio == 0.10 && policy.highConfidence == 0.85
    ensures Suppressed(policy, n, mean) <==> n <= (if mean >= 0.85 then 4 else 10)
  {
    Reciprocal(n, 4);
    Reciprocal(n, 10);
  }

  lemma Reciprocal(n: nat, m: nat)
    requires n > 0 && m > 0
    ensures 1.0 / n as real >= 1.0 / m as real <==> n <= m
  {
    var x, y := n as real, m as real;
    assert (1.0 / x) * x == 1.0 && (1.0 / y) * y == 1.0;
    if n <= m {
      assert 1.0 / x - 1.0 / y == (y - x) / (x * y);
    } else {
      assert 1.0 / y - 1.0 / x == (x - y) / (x * y);
    }
  }

  /** Localization under the shipped policy, by the readings alone: after a
      change inside one region, readings that are all confident report a global
      geometry failure on at most four regions, readings that are all weak a
      strong compression on at most ten, and every other page names exactly the
      region. */
  lemma LocalizedByReadings<Block, Tag>(a: Authenticator<Block, Tag>, page: seq<Block>, tampered: seq<Block>, t: nat,
                                        high: bool)
    requires a.Valid() && a.Separated() && |page| == a.regions && Pristine(a, page) && OnlyTouched(page, tampered, {t})
    requires t < a.regions && a.policy.minimumVotes < a.replicas
    requires a.policy.geometryRatio == 0.25 && a.policy.compressionRatio == 0.10 && a.policy.highConfidence == 0.85
    requires if high then ReadAtLeast(a, tampered, 0.85) else ReadBelow(a, tampered, 0.85)
    ensures var changed := a.expected(tampered[t], t) != a.expected(page[t], t);
            var few := a.regions <= if high then 4 else 10;
            var d := a.Report(tampered);
            && d.suspicious == (if changed && !few then [t] else [])
            && d.limitation == if !changed || !few then NoLimitation
                               else if high then GeometryFailure else StrongCompression
  {
    var mean := a.MeanConfidence(tampered);
    if high { MeanAtLeast(a, tampered, 0.85); } else { MeanBelow(a, tampered, 0.85); }
    Localized(a, page, tampered, t);
    SuppressedByFrozenPolicy(a.policy, a.regions, mean);
    var changed := a.expected(tampered[t], t) != a.expected(page[t], t);
    SingleTamper(a, page, tampered, t);
    LocalizedTally(a.Verdicts(tampered), a.regions, t, changed);
  }

  // ----- what a report claims

  /** Named regions are exactly the suspicious ones, most regions were decided,
      and the named ones are few. */
  lemma Conservative<Block, Tag>(a: Authenticator<Block, Tag>, page: seq<Block>)
    requires a.Valid() && |page| == a.regions
    ensures var d := a.Report(page);
            var decided := a.regions - Count(a.regions, Judged(a.Verdicts(page), Indeterminate));
            d.suspicious != [] ==>
              && 2 * decided > a.regions
              && (forall s :: s in d.suspicious <==> 0 <= s < a.regions && a.Judge(page, s) == Suspicious)
              && |d.suspicious| as real / a.regions as real
                 < if a.MeanConfidence(page) >= a.policy.highConfidence then a.policy.geometryRatio
                   else a.policy.compressionRatio
  {
    forall s ensures s in Flagged(a.Verdicts(page), a.regions)
                <==> 0 <= s < a.regions && a.Judge(page, s) == Suspicious
    {
      FlaggedMember(a.Verdicts(page), a.regions, s);
    }
  }

  lemma {:induction false} FlaggedMember(judge: nat -> Verdict, n: nat, s: int)
    ensures s in Flagged(judge, n) <==> 0 <= s < n && judge(s) == Suspicious
    decreases n
  {
    if n > 0 { FlaggedMember(judge, n - 1, s); }
  }

  lemma PristineRegion<Block, Tag>(a: Authenticator<Block, Tag>, page: seq<Block>, s: nat)
    requires a.Valid() && |page| == a.regions && Pristine(a, page) && s < a.regions
    ensures a.Judge(page, s) == Matching
  {
    forall k: nat | k < a.replicas ensures a.For(page, s)(k) { assert a.VotesFor(page, k, s); }
    CountAll(a.replicas, a.For(page, s));
  }

  /** A pristine page scores one, without suspicion or limitation. */
  lemma PristineReport<Block, Tag>(a: Authenticator<Block, Tag>, page: seq<Block>)
    requires a.Valid() && |page| == a.regions && Pristine(a, page)
    requires a.policy.geometryRatio > 0.0 && a.policy.compressionRatio > 0.0
    ensures a.Report(page) == Decision(1.0, [], a.regions, NoLimitation)
  {
    forall s: nat | s < a.regions ensures a.Judge(page, s) == Matching { PristineRegion(a, page, s); }
    var judge := a.Verdicts(page);
    CountAll(a.regions, Judged(judge, Matching));
    CountNone(a.regions, Judged(judge, Indeterminate));
    FlaggedOnly(judge, a.regions, a.regions);
    CleanConclusion(a, a.MeanConfidence(page));
  }

  lemma CleanConclusion<Block, Tag>(a: Authenticator<Block, Tag>, mean: real)
    requires a.regions > 0 && a.policy.geometryRatio > 0.0 && a.policy.compressionRatio > 0.0
    ensures a.Concluded(a.regions, [], 0, mean) == Decision(1.0, [], a.regions, NoLimitation)
  {
    LimitOfOne(a, false, mean);
  }

  /** A page none of whose readings reach the vote threshold shows nothing. */
  lemma UnreadableReport<Block, Tag>(a: Authenticator<Block, Tag>, page: seq<Block>)
    requires a.Valid() && |page| == a.regions && ReadBelow(a, page, a.policy.minimumConfidence)
    ensures a.Report(page) == Decision(0.0, [], a.regions, MostlyIndeterminate)
  {
    forall s: nat | s < a.regions ensures a.Judge(page, s) == Indeterminate {
      CountNone(a.replicas, a.For(page, s));
      CountNone(a.replicas, a.Against(page, s));
    }
    CountNone(a.regions, Judged(a.Verdicts(page), Matching));
    CountAll(a.regions, Judged(a.Verdicts(page), Indeterminate));
    FlaggedOnly(a.Verdicts(page), a.regions, a.regions);
  }

  /** Verification refuses exactly when a shift, or the difference of two, is a
      multiple of the region count; it evaluates nothing exactly on a page with
      fewer regions than the policy asks for. */
  lemma RefusedExactly<Block, Tag>(expected: (Block, nat) -> Tag, extract: (Block, nat) -> (Tag, real),
                                   policy: Policy, order: seq<nat>, shifts: seq<nat>, page: seq<Block>)
    requires IsOrder(order) && |page| == |order| && 1 <= policy.minimumVotes <= |shifts| && 1 <= policy.minimumRegions
    ensures var n := |page|;
            var outcome := Decide(expected, extract, policy, order, shifts, page);
            && (outcome.Refused? <==>
                  && n >= policy.minimumRegions
                  && ((exists k :: 0 <= k < |shifts| && shifts[k] % n == 0)
                      || exists j, k :: 0 <= j < k < |shifts| && shifts[j] % n == shifts[k] % n))
            && (outcome.Reported? ==> (outcome.decision.evaluated == 0 <==> n < policy.minimumRegions))
  {
    if |page| >= policy.minimumRegions {
      var e := Effective(shifts, |page|);
      forall k | 0 <= k < |shifts| ensures e[k] == shifts[k] % |page| { }
      assert 0 in e <==> exists k :: 0 <= k < |shifts| && shifts[k] % |page| == 0;
    }
  }

  /** A page is pristine exactly when every carried tag is the expected one and
      is read with at least the vote threshold. */
  lemma PristineExactly<Block, Tag>(a: Authenticator<Block, Tag>, page: seq<Block>)
    requires a.Valid() && |page| == a.regions
    ensures Pristine(a, page) <==>
            && ReadAtLeast(a, page, a.policy.minimumConfidence)
            && forall k, s :: 0 <= k < a.replicas && 0 <= s < a.regions ==>
                 a.Reading(page, k, s).0 == a.expected(page[s], s)
  {
    forall k, s | 0 <= k < a.replicas && 0 <= s < a.regions
      ensures a.VotesFor(page, k, s) <==>
              && a.Reading(page, k, s).1 >= a.policy.minimumConfidence
              && a.Reading(page, k, s).0 == a.expected(page[s], s)
    {
    }
  }
}
