/** What every reading of a tile hands to the erasure ladder, whatever the tile
    holds. */
module TileReadings {
  import opened Collections
  import opened Options
  import opened Codeword
  import opened ErasureRanking
  import opened ErasureDecoding
  import opened PageCodec
  import opened PayloadVotes
  import DctCodec
  import Placement
  import SpreadCodec
  import Voting

  /** All 39 bytes are ranked, and the claim is the weak end of the ranking. */
  ghost predicate Ranked(r: Reading) {
    && |r.codeword| == CODEWORD_BYTES == |r.ranking| && Distinct(r.ranking)
    && (forall k :: 0 <= k < |r.ranking| ==> r.ranking[k] < CODEWORD_BYTES)
    && RankingPrefix(r.claim, r.ranking)
  }

  lemma CollectRanked(codec: Voting.Codec, bits: int -> int, confidence: int -> real, hint: real)
    ensures var e := Collect(bits, confidence, CONFIDENCE_MIN, hint);
            Ranked(Reading(codec, e.codeword, e.erasePositions, e.erasureRanking))
  {
    var bytes := ByteConfidence(confidence);
    RankingSound(bytes);
    RankedDistinct(bytes, RankErasureCandidates(bytes));
    WeakIsRankingPrefix(bytes, CONFIDENCE_MIN);
  }

  lemma DctRanked(p: Profile, rows: Samples)
    requires p.Ready()
    ensures Ranked(DctReading(p, rows)) && DctReading(p, rows).codec == Voting.Dct
  {
    var replicas := DctCodec.ReplicasOf(p.codec.t, p.codec.Analyse(AsField(rows)).ll, p.codec.positions,
                                        p.codec.Edge(), p.codec.delta);
    CollectRanked(Voting.Dct, DctCodec.Winners(replicas), DctCodec.WinningConfidences(replicas),
                  DctCodec.Rate(DctCodec.Disagreement(replicas, BITS), Placement.REPLICATION * BITS));
  }

  lemma SpreadRanked(p: Profile, rows: Samples, polarity: SpreadCodec.Polarity)
    requires p.Ready()
    ensures Ranked(SpreadReading(p, rows, polarity))
    ensures SpreadReading(p, rows, polarity).codec
         == if polarity == SpreadCodec.Darken then Voting.SpreadDarken else Voting.SpreadLighten
  {
    var s := p.Flattened(rows);
    CollectRanked(if polarity == SpreadCodec.Darken then Voting.SpreadDarken else Voting.SpreadLighten,
                  SpreadCodec.Bits(s, p.groups, polarity), SpreadCodec.Confidences(s, p.groups, p.spreadDelta), 0.0);
  }

  /** A tile is read once by each codec, in order; every reading ranks all bytes
      and claims the weak end, so the attempts of its ladder are nested. */
  lemma ReadingsRanked(p: Profile, read: Reader, rows: Samples, r: nat)
    requires p.Ready() && read.Follows(p) && r < 3
    ensures var reading := read.Read(rows)[r];
            && Ranked(reading)
            && reading.codec == [Voting.Dct, Voting.SpreadDarken, Voting.SpreadLighten][r]
            && var l := Ladder(reading.claim, reading.ranking, PARITY_SYMBOLS);
               forall j, k :: 0 <= j < |l| && 0 <= k < |l| ==>
                 SetOf(l[j]) <= SetOf(l[k]) || SetOf(l[k]) <= SetOf(l[j])
  {
    var reading := read.Read(rows)[r];
    if r == 0 {
      DctRanked(p, rows);
    } else {
      SpreadRanked(p, rows, if r == 1 then SpreadCodec.Darken else SpreadCodec.Lighten);
    }
    NestedAttempts(reading.claim, reading.ranking, PARITY_SYMBOLS);
  }

  /** Byte b arrived as it was sent. */
  predicate Undamaged(received: seq<int>, sent: seq<int>, b: nat) {
    b < |received| && b < |sent| && received[b] == sent[b]
  }

  /** Every damaged byte is one of the sixteen that the reading trusts least. */
  ghost predicate OnlyUntrusted(r: Reading, sent: seq<int>) {
    forall b :: 0 <= b < CODEWORD_BYTES && !Undamaged(r.codeword, sent, b) ==>
      exists j :: 0 <= j < PARITY_SYMBOLS && j < |r.ranking| && r.ranking[j] == b
  }

  lemma UntrustedIsWeak(r: Reading, sent: seq<int>)
    requires Ranked(r) && |sent| == CODEWORD_BYTES && OnlyUntrusted(r, sent)
    ensures WeakDamage(r, sent)
  {
    forall b | 0 <= b < CODEWORD_BYTES && b !in r.ranking[..PARITY_SYMBOLS] ensures r.codeword[b] == sent[b] {
      assert Undamaged(r.codeword, sent, b);
    }
  }

  /** A tile whose reading is damaged only in the bytes it trusts least always
      votes, and for the sent identity unless its own claim decodes. */
  lemma UntrustedDamageVotes(p: Profile, read: Reader, rows: Samples, r: nat, framing: Framing, site: Site, u: nat)
    requires p.Ready() && read.Follows(p) && r < 3 && framing.Valid() && u < IDENTITIES
    requires OnlyUntrusted(read.Read(rows)[r], framing.Sent(framing.write(u)))
    ensures var reading := read.Read(rows)[r];
            && BallotOf(framing)(site, reading).Some?
            && (Attempt(framing, reading.codeword)(reading.claim).None? ==>
                BallotOf(framing)(site, reading).value.issuance == u)
  {
    var reading := read.Read(rows)[r];
    ReadingsRanked(p, read, rows, r);
    SentIsCodeword(framing, u);
    UntrustedIsWeak(reading, framing.Sent(framing.write(u)));
    WeakDamageVotes(framing, site, u, reading);
  }
}
