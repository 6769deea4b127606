/** From aligned page luminance to payload votes: three codec readings of every
    selected tile, each retried down its erasure ladder. */
module PayloadVotes {
  import opened Collections
  import opened Options
  import opened Transform
  import opened Codeword
  import opened Interleaving
  import opened ErasureDecoding
  import opened PageCodec
  import opened Tiles
  import DctCodec
  import SpreadCodec
  import Voting

  // Issuance identifiers have 128 bits.
  const IDENTITIES: nat := 0x1_0000_0000_0000_0000_0000_0000_0000_0000

  /** The payload format and its field code. */
  datatype Framing = Framing(rs: FieldDecoder, encode: seq<int> -> seq<int>, write: nat -> seq<int>,
                             read: seq<int> -> Option<nat>) {

    /** encode_ecc after encode_payload. */
    function Sent(payload: seq<int>): seq<int> { Interleave(encode(payload), INTERLEAVE_DEPTH) }

    /** Payloads are read back, and the field code repairs erasures. */
    ghost predicate Valid() {
      && CorrectsErasures(rs, encode)
      && forall u :: 0 <= u < IDENTITIES ==> Frames(u)
    }

    ghost predicate Frames(u: nat) {
      && |write(u)| == MESSAGE_BYTES && read(write(u)) == Some(u)
      && IsCodeword(encode(write(u)))
    }
  }

  /** A decoded payload and the identity it names. */
  datatype Opened = Opened(payload: seq<int>, identity: nat)

  function Attempt(framing: Framing, codeword: seq<int>): Decoder<Opened> {
    (positions: seq<nat>) =>
      match DecodeWithErasures(framing.rs, codeword, positions)
      case Failed(_) => None
      case Payload(bytes) =>
        match framing.read(bytes)
        case None => None
        case Some(u) => Some(Opened(bytes, u))
  }

  function Differs(observed: seq<int>, expected: seq<int>): nat -> bool {
    (i: nat) => i < 8 * |observed| && i < 8 * |expected| && Unpacked(observed, i) != Unpacked(expected, i)
  }

  function BitErrorRate(observed: seq<int>, expected: seq<int>): real {
    DctCodec.Rate(Count(BITS, Differs(observed, expected)), BITS)
  }

  /** What one codec read from one tile. */
  datatype Reading = Reading(codec: Voting.Codec, codeword: seq<int>, claim: seq<nat>, ranking: seq<nat>)

  /** Where it was read. */
  datatype Site = Site(candidate: nat, geometry: seq<real>, ordinal: nat)

  function VoteOf(framing: Framing, site: Site, r: Reading): Option<Voting.Vote> {
    var first := FirstSuccess(Ladder(r.claim, r.ranking, PARITY_SYMBOLS), Attempt(framing, r.codeword));
    if first.None? then None
    else
      Some(Voting.Vote(site.candidate, site.geometry, site.ordinal, r.codec, first.value.identity,
                       Some(BitErrorRate(r.codeword, framing.Sent(first.value.payload)))))
  }

  function Cast(vote: Option<Voting.Vote>): seq<Voting.Vote> { if vote.Some? then [vote.value] else [] }

  method DecodePayloadVote(framing: Framing, site: Site, r: Reading) returns (vote: Option<Voting.Vote>)
    ensures vote == VoteOf(framing, site, r)
  {
    var decoded := ErasureDecoding.DecodePayloadVote(r.claim, r.ranking, Attempt(framing, r.codeword));
    if decoded.None? { return None; }
    var Opened(bytes, u) := decoded.value;
    vote := Some(Voting.Vote(site.candidate, site.geometry, site.ordinal, r.codec, u,
                             Some(BitErrorRate(r.codeword, framing.Sent(bytes)))));
  }

  function FromDct(e: Evidence): Reading { Reading(Voting.Dct, e.codeword, e.erasePositions, e.erasureRanking) }

  function FromSpread(e: SpreadCodec.SpreadEvidence): Reading {
    Reading(if e.polarity.Darken? then Voting.SpreadDarken else Voting.SpreadLighten,
            e.codeword, e.erasePositions, e.erasureRanking)
  }

  function DctReading(p: Profile, rows: Samples): Reading
    requires p.Ready()
  {
    FromDct(p.codec.Extract(AsField(rows)))
  }

  function SpreadReading(p: Profile, rows: Samples, polarity: SpreadCodec.Polarity): Reading
    requires p.Ready()
  {
    FromSpread(SpreadCodec.Extracted(p.Flattened(rows), p.groups, p.spreadDelta, polarity))
  }

  /** How a candidate reads a tile with each codec. */
  datatype Reader = Reader(dct: Samples -> Reading, spread: (Samples, SpreadCodec.Polarity) -> Reading) {

    /** The three readings, in the order they are tried. */
    function Read(rows: Samples): seq<Reading> {
      [dct(rows), spread(rows, SpreadCodec.Darken), spread(rows, SpreadCodec.Lighten)]
    }

    ghost predicate Follows(p: Profile)
      requires p.Ready()
    {
      && (forall rows {:trigger DctReading(p, rows)} :: dct(rows) == DctReading(p, rows))
      && forall rows, polarity {:trigger SpreadReading(p, rows, polarity)} ::
           spread(rows, polarity) == SpreadReading(p, rows, polarity)
    }
  }

  function ReaderOf(p: Profile): Reader
    requires p.Ready()
  {
    Reader((rows: Samples) => DctReading(p, rows),
           (rows: Samples, polarity: SpreadCodec.Polarity) => SpreadReading(p, rows, polarity))
  }

  lemma ReaderFollows(p: Profile)
    requires p.Ready()
    ensures ReaderOf(p).Follows(p)
  {
  }

  method ReadDct(p: Profile, rows: Samples, ghost read: Reader) returns (r: Reading)
    requires p.Ready() && read.Follows(p)
    ensures r == read.dct(rows)
  {
    var e := DctCodec.ExtractCodeword(p.codec, AsField(rows));
    r := FromDct(e);
    assert r == DctReading(p, rows);
  }

  method ReadSpread(p: Profile, rows: Samples, polarity: SpreadCodec.Polarity, ghost read: Reader)
    returns (r: Reading)
    requires p.Ready() && read.Follows(p)
    ensures r == read.spread(rows, polarity)
  {
    var e := SpreadCodec.ExtractSpread(p.Flattened(rows), p.groups, p.spreadDelta, polarity);
    r := FromSpread(e);
    assert r == SpreadReading(p, rows, polarity);
  }

  method ReadTile(p: Profile, rows: Samples, ghost read: Reader) returns (readings: seq<Reading>)
    requires p.Ready() && read.Follows(p)
    ensures readings == read.Read(rows)
  {
    var dct := ReadDct(p, rows, read);
    var dark := ReadSpread(p, rows, SpreadCodec.Darken, read);
    var light := ReadSpread(p, rows, SpreadCodec.Lighten, read);
    readings := [dct, dark, light];
  }

  /** The readings of the first n tiles cut from the page. */
  function PageReadings(read: Reader, f: Field, tiles: seq<Tile>, n: nat): (readings: seq<seq<Reading>>)
    requires n <= |tiles|
    ensures |readings| == n
    decreases n, read
  {
    if n == 0 then [] else PageReadings(read, f, tiles, n - 1) + [read.Read(Cut(f, tiles[n - 1]))]
  }

  lemma {:induction false} PageReadingAt(read: Reader, f: Field, tiles: seq<Tile>, n: nat, k: nat)
    requires k < n <= |tiles|
    ensures PageReadings(read, f, tiles, n)[k] == read.Read(Cut(f, tiles[k]))
    decreases n
  {
    if k < n - 1 { PageReadingAt(read, f, tiles, n - 1, k); }
  }

  method ReadPage(p: Profile, f: Field, tiles: seq<Tile>) returns (readings: seq<seq<Reading>>)
    requires p.Ready()
    ensures readings == PageReadings(ReaderOf(p), f, tiles, |tiles|)
  {
    ghost var read := ReaderOf(p);
    ReaderFollows(p);
    readings := [];
    for k := 0 to |tiles|
      invariant readings == PageReadings(read, f, tiles, k)
    {
      var last := ReadTile(p, Cut(f, tiles[k]), read);
      readings := readings + [last];
    }
  }

  // ----- collecting

  /** One aligned page of one candidate: the readings of its selected tiles. */
  datatype Alignment = Alignment(candidate: nat, geometry: seq<real>, tiles: seq<seq<Reading>>) {
    function SiteOf(k: nat): Site { Site(candidate, geometry, k) }
  }

  /** How one reading votes. */
  type Ballot = (Site, Reading) -> Option<Voting.Vote>

  function BallotOf(framing: Framing): Ballot { (site: Site, r: Reading) => VoteOf(framing, site, r) }

  function SiteVotes(cast: Ballot, site: Site, readings: seq<Reading>, n: nat): seq<Voting.Vote>
    requires n <= |readings|
  {
    if n == 0 then [] else SiteVotes(cast, site, readings, n - 1) + Cast(cast(site, readings[n - 1]))
  }

  function TileVotes(cast: Ballot, page: Alignment, n: nat): seq<Voting.Vote>
    requires n <= |page.tiles|
  {
    if n == 0 then []
    else TileVotes(cast, page, n - 1)
         + SiteVotes(cast, page.SiteOf(n - 1), page.tiles[n - 1], |page.tiles[n - 1]|)
  }

  function PageVotes(cast: Ballot, pages: seq<Alignment>, n: nat): seq<Voting.Vote>
    requires n <= |pages|
  {
    if n == 0 then []
    else PageVotes(cast, pages, n - 1) + TileVotes(cast, pages[n - 1], |pages[n - 1].tiles|)
  }

  /** The votes of all pages, tile by tile, codec by codec. */
  function AllVotes(cast: Ballot, pages: seq<Alignment>): seq<Voting.Vote> {
    PageVotes(cast, pages, |pages|)
  }

  method CollectReadings(framing: Framing, site: Site, readings: seq<Reading>) returns (votes: seq<Voting.Vote>)
    ensures votes == SiteVotes(BallotOf(framing), site, readings, |readings|)
  {
    ghost var cast := BallotOf(framing);
    votes := [];
    for r := 0 to |readings|
      invariant votes == SiteVotes(cast, site, readings, r)
    {
      var vote := DecodePayloadVote(framing, site, readings[r]);
      votes := votes + Cast(vote);
    }
  }

  method CollectTiles(framing: Framing, page: Alignment) returns (votes: seq<Voting.Vote>)
    ensures votes == TileVotes(BallotOf(framing), page, |page.tiles|)
  {
    ghost var cast := BallotOf(framing);
    votes := [];
    for k := 0 to |page.tiles|
      invariant votes == TileVotes(cast, page, k)
    {
      var more := CollectReadings(framing, page.SiteOf(k), page.tiles[k]);
      votes := votes + more;
    }
  }

  /** The decoder's vote-collecting loops. */
  method CollectVotes(framing: Framing, pages: seq<Alignment>) returns (votes: seq<Voting.Vote>)
    ensures votes == AllVotes(BallotOf(framing), pages)
  {
    ghost var cast := BallotOf(framing);
    votes := [];
    for i := 0 to |pages|
      invariant votes == PageVotes(cast, pages, i)
    {
      var more := CollectTiles(framing, pages[i]);
      votes := votes + more;
    }
  }

  // ----- where votes come from

  lemma {:induction false} SiteSource(cast: Ballot, site: Site, readings: seq<Reading>, n: nat, v: Voting.Vote)
    returns (r: nat)
    requires n <= |readings| && v in SiteVotes(cast, site, readings, n)
    ensures r < n && cast(site, readings[r]) == Some(v)
    decreases n
  {
    if v in SiteVotes(cast, site, readings, n - 1) { r := SiteSource(cast, site, readings, n - 1, v); }
    else { r := n - 1; }
  }

  lemma {:induction false} TileSource(cast: Ballot, page: Alignment, n: nat, v: Voting.Vote) returns (k: nat)
    requires n <= |page.tiles| && v in TileVotes(cast, page, n)
    ensures k < n && v in SiteVotes(cast, page.SiteOf(k), page.tiles[k], |page.tiles[k]|)
    decreases n
  {
    if v in TileVotes(cast, page, n - 1) { k := TileSource(cast, page, n - 1, v); } else { k := n - 1; }
  }

  lemma {:induction false} PageSource(cast: Ballot, pages: seq<Alignment>, n: nat, v: Voting.Vote) returns (i: nat)
    requires n <= |pages| && v in PageVotes(cast, pages, n)
    ensures i < n && v in TileVotes(cast, pages[i], |pages[i].tiles|)
    decreases n
  {
    if v in PageVotes(cast, pages, n - 1) { i := PageSource(cast, pages, n - 1, v); } else { i := n - 1; }
  }

  /** Reading r of tile k of page i votes v. */
  ghost predicate Reads(cast: Ballot, pages: seq<Alignment>, i: nat, k: nat, r: nat, v: Voting.Vote) {
    i < |pages| && k < |pages[i].tiles| && r < |pages[i].tiles[k]|
    && cast(pages[i].SiteOf(k), pages[i].tiles[k][r]) == Some(v)
  }

  /** No vote is invented. */
  lemma Provenance(cast: Ballot, pages: seq<Alignment>, v: Voting.Vote) returns (i: nat, k: nat, r: nat)
    requires v in AllVotes(cast, pages)
    ensures Reads(cast, pages, i, k, r, v)
  {
    i := PageSource(cast, pages, |pages|, v);
    k := TileSource(cast, pages[i], |pages[i].tiles|, v);
    r := SiteSource(cast, pages[i].SiteOf(k), pages[i].tiles[k], |pages[i].tiles[k]|, v);
  }

  lemma InEither<T>(a: seq<T>, b: seq<T>, x: T)
    ensures x in a + b <==> x in a || x in b
  {
  }

  lemma {:induction false} SiteCast(cast: Ballot, site: Site, readings: seq<Reading>, n: nat, r: nat, v: Voting.Vote)
    requires r < n <= |readings| && cast(site, readings[r]) == Some(v)
    ensures v in SiteVotes(cast, site, readings, n)
    decreases n
  {
    if r < n - 1 { SiteCast(cast, site, readings, n - 1, r, v); }
  }

  lemma {:induction false} TileCast(cast: Ballot, page: Alignment, n: nat, k: nat, v: Voting.Vote)
    requires k < n <= |page.tiles| && v in SiteVotes(cast, page.SiteOf(k), page.tiles[k], |page.tiles[k]|)
    ensures v in TileVotes(cast, page, n)
    decreases n
  {
    if k < n - 1 { TileCast(cast, page, n - 1, k, v); }
    InEither(TileVotes(cast, page, n - 1), SiteVotes(cast, page.SiteOf(n - 1), page.tiles[n - 1], |page.tiles[n - 1]|),
             v);
  }

  lemma {:induction false} PageCast(cast: Ballot, pages: seq<Alignment>, n: nat, i: nat, v: Voting.Vote)
    requires i < n <= |pages| && v in TileVotes(cast, pages[i], |pages[i].tiles|)
    ensures v in PageVotes(cast, pages, n)
    decreases n
  {
    if i < n - 1 { PageCast(cast, pages, n - 1, i, v); }
    InEither(PageVotes(cast, pages, n - 1), TileVotes(cast, pages[n - 1], |pages[n - 1].tiles|), v);
  }

  /** No successful reading is dropped. */
  lemma EveryReadingVotes(cast: Ballot, pages: seq<Alignment>, i: nat, k: nat, r: nat, v: Voting.Vote)
    requires Reads(cast, pages, i, k, r, v)
    ensures v in AllVotes(cast, pages)
  {
    SiteCast(cast, pages[i].SiteOf(k), pages[i].tiles[k], |pages[i].tiles[k]|, r, v);
    TileCast(cast, pages[i], |pages[i].tiles|, k, v);
    PageCast(cast, pages, |pages|, i, v);
  }

  lemma VoteSite(framing: Framing, site: Site, r: Reading, v: Voting.Vote)
    requires BallotOf(framing)(site, r) == Some(v)
    ensures v.candidate == site.candidate && v.geometry == site.geometry && v.tile == site.ordinal && v.codec == r.codec
  {
  }

  // ----- an undamaged codeword

  lemma SentIsCodeword(framing: Framing, u: nat)
    requires framing.Valid() && u < IDENTITIES
    ensures IsCodeword(framing.Sent(framing.write(u)))
  {
    assert framing.Frames(u);
    var raw := framing.encode(framing.write(u));
    var sent := framing.Sent(framing.write(u));
    LaneTotal(BYTES, INTERLEAVE_DEPTH);
    forall p | 0 <= p < BYTES ensures 0 <= sent[p] < 256 {
      var i := FromSlot(BYTES, INTERLEAVE_DEPTH, p);
      InterleaveMoves(raw, INTERLEAVE_DEPTH, i);
    }
  }

  lemma SameBits(codeword: seq<int>)
    ensures BitErrorRate(codeword, codeword) == 0.0
  {
    CountNone(BITS, Differs(codeword, codeword));
  }

  /** Erasure positions the field code can absorb. */
  predicate Affordable(positions: seq<nat>) {
    && |positions| <= PARITY_SYMBOLS && Distinct(positions)
    && forall k :: 0 <= k < |positions| ==> positions[k] < CODEWORD_BYTES
  }

  lemma IntactDecode(framing: Framing, u: nat, positions: seq<nat>)
    requires framing.Valid() && u < IDENTITIES && Affordable(positions)
    ensures DecodeWithErasures(framing.rs, framing.Sent(framing.write(u)), positions) == Payload(framing.write(u))
  {
    SentIsCodeword(framing, u);
    assert framing.Frames(u);
    InterleavedErasuresCorrected(framing.rs, framing.encode, framing.write(u), framing.Sent(framing.write(u)),
                                 positions);
  }

  /** A reading of the sent codeword that claims no more erasures than the code
      absorbs votes for its identity, with no bit errors, whatever the ranking
      says. */
  lemma CleanVote(framing: Framing, site: Site, u: nat, r: Reading)
    requires framing.Valid() && u < IDENTITIES
    requires r.codeword == framing.Sent(framing.write(u)) && Affordable(r.claim)
    ensures BallotOf(framing)(site, r)
         == Some(Voting.Vote(site.candidate, site.geometry, site.ordinal, r.codec, u, Some(0.0)))
  {
    IntactDecode(framing, u, r.claim);
    assert framing.Frames(u);
    assert Attempt(framing, r.codeword)(r.claim) == Some(Opened(framing.write(u), u));
    ClaimDecides(r.claim, r.ranking, Attempt(framing, r.codeword));
    SameBits(r.codeword);
  }

  // ----- damage in the weakest bytes

  /** The reading differs from the sent codeword at most in its sixteen weakest
      bytes. */
  ghost predicate WeakDamage(r: Reading, sent: seq<int>) {
    && |r.codeword| == CODEWORD_BYTES == |sent| && PARITY_SYMBOLS <= |r.ranking| && Distinct(r.ranking)
    && (forall k :: 0 <= k < |r.ranking| ==> r.ranking[k] < CODEWORD_BYTES)
    && forall p :: 0 <= p < CODEWORD_BYTES && p !in r.ranking[..PARITY_SYMBOLS] ==> r.codeword[p] == sent[p]
  }

  lemma WeakestAffordable(r: Reading, sent: seq<int>)
    requires WeakDamage(r, sent)
    ensures Affordable(Sort(r.ranking[..PARITY_SYMBOLS]))
    ensures SetOf(Sort(r.ranking[..PARITY_SYMBOLS])) == SetOf(r.ranking[..PARITY_SYMBOLS])
  {
    var front := r.ranking[..PARITY_SYMBOLS];
    SortSorts(front);
    SortMembers(front);
    PermutedDistinct(front, Sort(front));
    forall k | 0 <= k < PARITY_SYMBOLS ensures Sort(front)[k] < CODEWORD_BYTES {
      assert Sort(front)[k] in SetOf(front);
    }
  }

  lemma WeakestDecodes(framing: Framing, u: nat, r: Reading)
    requires framing.Valid() && u < IDENTITIES && WeakDamage(r, framing.Sent(framing.write(u)))
    ensures Attempt(framing, r.codeword)(Sort(r.ranking[..PARITY_SYMBOLS])) == Some(Opened(framing.write(u), u))
  {
    var sent, weakest := framing.Sent(framing.write(u)), Sort(r.ranking[..PARITY_SYMBOLS]);
    WeakestAffordable(r, sent);
    assert framing.Frames(u);
    forall p | 0 <= p < CODEWORD_BYTES && p !in weakest ensures r.codeword[p] == sent[p] {
      assert p !in SetOf(weakest);
    }
    InterleavedErasuresCorrected(framing.rs, framing.encode, framing.write(u), r.codeword, weakest);
  }

  /** Damage confined to the sixteen weakest bytes never loses the vote, however
      long or wrong the claim; unless the claim itself decodes, the vote names
      the sent identity and counts the damaged bits. */
  lemma WeakDamageVotes(framing: Framing, site: Site, u: nat, r: Reading)
    requires framing.Valid() && u < IDENTITIES && WeakDamage(r, framing.Sent(framing.write(u)))
    ensures BallotOf(framing)(site, r).Some?
    ensures Attempt(framing, r.codeword)(r.claim).None? ==>
              BallotOf(framing)(site, r)
              == Some(Voting.Vote(site.candidate, site.geometry, site.ordinal, r.codec, u,
                                  Some(BitErrorRate(r.codeword, framing.Sent(framing.write(u))))))
  {
    var decode, weakest := Attempt(framing, r.codeword), Sort(r.ranking[..PARITY_SYMBOLS]);
    WeakestDecodes(framing, u, r);
    if decode(r.claim).None? {
      SecondDecides(r.claim, r.ranking, decode);
    } else {
      ClaimDecides(r.claim, r.ranking, decode);
    }
  }

  lemma SecondDecides(claim: seq<nat>, ranking: seq<nat>, decode: Decoder<Opened>)
    requires |ranking| >= PARITY_SYMBOLS && decode(claim).None? && decode(Sort(ranking[..PARITY_SYMBOLS])).Some?
    ensures FirstSuccess(Ladder(claim, ranking, PARITY_SYMBOLS), decode) == decode(Sort(ranking[..PARITY_SYMBOLS]))
  {
    SecondAttempt(claim, ranking);
    var l := Ladder(claim, ranking, PARITY_SYMBOLS);
    assert l[1..][0] == l[1];
  }

  lemma LongClaimFails(framing: Framing, codeword: seq<int>, claim: seq<nat>)
    requires |claim| > PARITY_SYMBOLS
    ensures Attempt(framing, codeword)(claim).None?
  {
    assert DecodeWithErasures(framing.rs, codeword, claim).Failed?;
  }

  /** An over-eager claim, of more bytes than the parity repairs, is retried with
      the sixteen weakest: damage inside them is always repaired. */
  lemma OverclaimRetried(framing: Framing, site: Site, u: nat, r: Reading)
    requires framing.Valid() && u < IDENTITIES && WeakDamage(r, framing.Sent(framing.write(u)))
    requires |r.claim| > PARITY_SYMBOLS
    ensures BallotOf(framing)(site, r)
         == Some(Voting.Vote(site.candidate, site.geometry, site.ordinal, r.codec, u,
                             Some(BitErrorRate(r.codeword, framing.Sent(framing.write(u))))))
  {
    LongClaimFails(framing, r.codeword, r.claim);
    WeakDamageVotes(framing, site, u, r);
  }

  // ----- the bit error rate

  /** The rate counts the differing bits: it is zero exactly for equal
      codewords, at most one, and each differing bit adds 1/312. */
  lemma BitErrorRateMeaning(observed: seq<int>, expected: seq<int>)
    requires IsCodeword(observed) && IsCodeword(expected)
    ensures var rate := BitErrorRate(observed, expected);
            && 0.0 <= rate <= 1.0 && (rate == 0.0 <==> observed == expected)
            && rate * 312.0 == Count(BITS, Differs(observed, expected)) as real
  {
    var differs := Differs(observed, expected);
    if observed == expected { SameBits(observed); }
    else if Count(BITS, differs) == 0 {
      NoneCounted(BITS, differs);
      forall i | 0 <= i < BITS ensures Unpacked(observed, i) == Unpacked(expected, i) { assert !differs(i); }
      SameCodeword(observed, expected);
    }
  }

  lemma {:induction false} NoneCounted(n: nat, p: nat -> bool)
    requires Count(n, p) == 0
    ensures forall i: nat :: i < n ==> !p(i)
  {
    if n > 0 { NoneCounted(n - 1, p); }
  }

  lemma SameCodeword(a: seq<int>, b: seq<int>)
    requires IsCodeword(a) && IsCodeword(b) && forall i :: 0 <= i < BITS ==> Unpacked(a, i) == Unpacked(b, i)
    ensures a == b
  {
    var bits := (i: int) => if 0 <= i < BITS then Unpacked(a, i) else 0;
    PackUnpack(a, bits);
    PackUnpack(b, bits);
  }
}
