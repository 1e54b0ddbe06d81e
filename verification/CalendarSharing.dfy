/**
 Shared calendar events (src/discovery/calendar_sharing.rs): similarity of event
 fingerprints and the accumulation of overlaps per local event. Scores are exact reals; a
 time that does not parse is None.
 */
module CalendarSharing {
  import opened Wrappers

  const OVERLAP_THRESHOLD := 0.5
  const DATE_WEIGHT := 0.4
  const TITLE_WEIGHT := 0.35
  const LOCATION_WEIGHT := 0.25

  datatype Token = Token(text: string)
  datatype EventHash = EventHash(hex: string)
  datatype Peer = Peer(pseudonym: string)

  /** Times are in seconds. */
  datatype EventFingerprint = EventFingerprint(
    eventHash: EventHash,
    titleTokens: seq<Token>,
    locationTokens: seq<Token>,
    start: Option<int>,
    end: Option<int>,
    displayTitle: string,
    displayLocation: string
  )

  datatype PeerEventSet = PeerEventSet(peer: Peer, fingerprints: seq<EventFingerprint>)

  // ---- Similarity ----

  function Max(a: int, b: int): int {
    if a >= b then a else b
  }

  function Min(a: int, b: int): int {
    if a <= b then a else b
  }

  /** The seconds two ranges have in common; zero or less when they do not overlap. */
  function CommonSeconds(sa: int, ea: int, sb: int, eb: int): int {
    Min(ea, eb) - Max(sa, sb)
  }

  function DateOverlapScore(a: EventFingerprint, b: EventFingerprint): real {
    if a.start.None? || a.end.None? || b.start.None? || b.end.None? then 0.0
    else
      var sa, ea, sb, eb := a.start.value, a.end.value, b.start.value, b.end.value;
      if Max(sa, sb) >= Min(ea, eb) then 0.0
      else
        var longest := Max(Max(ea - sa, 1), Max(eb - sb, 1));
        var ratio := CommonSeconds(sa, ea, sb, eb) as real / longest as real;
        if ratio <= 1.0 then ratio else 1.0
  }

  function Tokens(xs: seq<Token>): set<Token> {
    set x | x in xs
  }

  function JaccardSimilarity(xs: seq<Token>, ys: seq<Token>): real {
    var a, b := Tokens(xs), Tokens(ys);
    if |a + b| == 0 then 0.0 else |a * b| as real / |a + b| as real
  }

  function EventSimilarity(a: EventFingerprint, b: EventFingerprint): real {
    var date := DateOverlapScore(a, b);
    if date == 0.0 then 0.0
    else
      DATE_WEIGHT * date
      + TITLE_WEIGHT * JaccardSimilarity(a.titleTokens, b.titleTokens)
      + LOCATION_WEIGHT * JaccardSimilarity(a.locationTokens, b.locationTokens)
  }

  lemma RatioRange(x: int, y: int)
    requires 0 <= x <= y && y > 0
    ensures 0.0 <= x as real / y as real <= 1.0
    ensures x > 0 <==> x as real / y as real > 0.0
  {
  }

  /** The two ranges have a second in common. */
  predicate TimesOverlap(a: EventFingerprint, b: EventFingerprint) {
    && a.start.Some? && a.end.Some? && b.start.Some? && b.end.Some?
    && CommonSeconds(a.start.value, a.end.value, b.start.value, b.end.value) > 0
  }

  lemma DateScoreRange(a: EventFingerprint, b: EventFingerprint)
    ensures 0.0 <= DateOverlapScore(a, b) <= 1.0
    ensures DateOverlapScore(a, b) > 0.0 <==> TimesOverlap(a, b)
  {
    if TimesOverlap(a, b) {
      var sa, ea, sb, eb := a.start.value, a.end.value, b.start.value, b.end.value;
      RatioRange(CommonSeconds(sa, ea, sb, eb), Max(Max(ea - sa, 1), Max(eb - sb, 1)));
    }
  }

  ghost predicate ShareToken(xs: seq<Token>, ys: seq<Token>) {
    exists t :: t in xs && t in ys
  }

  lemma SubsetSize(s: set<Token>, t: set<Token>)
    requires s <= t
    ensures |s| <= |t|
  {
    assert t == s + (t - s);
  }

  lemma JaccardRange(xs: seq<Token>, ys: seq<Token>)
    ensures 0.0 <= JaccardSimilarity(xs, ys) <= 1.0
    ensures JaccardSimilarity(xs, ys) > 0.0 <==> ShareToken(xs, ys)
    ensures JaccardSimilarity(xs, ys) == JaccardSimilarity(ys, xs)
  {
    var a, b := Tokens(xs), Tokens(ys);
    assert a + b == b + a && a * b == b * a;
    SubsetSize(a * b, a + b);
    if |a + b| > 0 {
      RatioRange(|a * b|, |a + b|);
    }
    if ShareToken(xs, ys) {
      var t :| t in xs && t in ys;
      assert t in a * b && t in a + b;
    }
    if |a * b| > 0 {
      var t :| t in a * b;
      assert t in xs && t in ys;
    }
  }

  /** Similarity is symmetric and in [0, 1]. */
  lemma SimilarityIsSymmetricAndBounded(a: EventFingerprint, b: EventFingerprint)
    ensures EventSimilarity(a, b) == EventSimilarity(b, a)
    ensures 0.0 <= EventSimilarity(a, b) <= 1.0
  {
    DateScoreRange(a, b);
    JaccardRange(a.titleTokens, b.titleTokens);
    JaccardRange(a.locationTokens, b.locationTokens);
    assert DateOverlapScore(a, b) == DateOverlapScore(b, a);
  }

  /** Every match overlaps in time and shares a title or location token: time alone weighs 0.4. */
  lemma MatchNeedsTimeAndToken(a: EventFingerprint, b: EventFingerprint)
    requires EventSimilarity(a, b) >= 0.5
    ensures TimesOverlap(a, b)
    ensures ShareToken(a.titleTokens, b.titleTokens) || ShareToken(a.locationTokens, b.locationTokens)
  {
    DateScoreRange(a, b);
    JaccardRange(a.titleTokens, b.titleTokens);
    JaccardRange(a.locationTokens, b.locationTokens);
  }

  /** Over ranges that overlap the date score is the common time by the longer duration. */
  lemma DateScoreMeans(a: EventFingerprint, b: EventFingerprint)
    requires TimesOverlap(a, b)
    ensures var sa, ea, sb, eb := a.start.value, a.end.value, b.start.value, b.end.value;
            var common := (if ea <= eb then ea else eb) - (if sa >= sb then sa else sb);
            var longest := if ea - sa >= eb - sb then ea - sa else eb - sb;
            longest > 0 && DateOverlapScore(a, b) * (longest as real) == common as real
  {
    var sa, ea, sb, eb := a.start.value, a.end.value, b.start.value, b.end.value;
    var longest := Max(Max(ea - sa, 1), Max(eb - sb, 1));
    RatioRange(CommonSeconds(sa, ea, sb, eb), longest);
    Quotient(CommonSeconds(sa, ea, sb, eb) as real, longest as real);
  }

  lemma Quotient(x: real, y: real)
    requires y != 0.0
    ensures (x / y) * y == x
  {
  }

  /** The token score is the number of shared tokens by the number of all; without tokens it is zero. */
  lemma JaccardMeans(xs: seq<Token>, ys: seq<Token>)
    ensures var shared, all := set t | t in xs && t in ys, set t | t in xs + ys;
            JaccardSimilarity(xs, ys) * (|all| as real) == |shared| as real
    ensures xs == [] && ys == [] ==> JaccardSimilarity(xs, ys) == 0.0
  {
    var shared, all := set t | t in xs && t in ys, set t | t in xs + ys;
    assert shared == Tokens(xs) * Tokens(ys) && all == Tokens(xs) + Tokens(ys);
    SubsetSize(shared, all);
    if |all| > 0 {
      Quotient(|shared| as real, |all| as real);
    }
  }

  /** Time weighs 0.4, the title 0.35 and the location 0.25; without common time nothing counts. */
  lemma SimilarityMeans(a: EventFingerprint, b: EventFingerprint)
    ensures EventSimilarity(a, b) ==
            if !TimesOverlap(a, b) then 0.0
            else 0.4 * DateOverlapScore(a, b)
                 + 0.35 * JaccardSimilarity(a.titleTokens, b.titleTokens)
                 + 0.25 * JaccardSimilarity(a.locationTokens, b.locationTokens)
  {
    DateScoreRange(a, b);
  }

  /** Events at identical times: 0.4 for the time alone, 0.75 with the same title, 0.65 with the same place, else 1. */
  lemma SimilarityTable(a: EventFingerprint, b: EventFingerprint)
    requires a.start.Some? && a.end.Some? && a.start.value < a.end.value && a.start == b.start && a.end == b.end
    requires a.titleTokens == b.titleTokens || !ShareToken(a.titleTokens, b.titleTokens)
    requires a.locationTokens == b.locationTokens || !ShareToken(a.locationTokens, b.locationTokens)
    ensures EventSimilarity(a, b) ==
            match (ShareToken(a.titleTokens, b.titleTokens), ShareToken(a.locationTokens, b.locationTokens))
            case (false, false) => 0.4
            case (true, false) => 0.75
            case (false, true) => 0.65
            case (true, true) => 1.0
  {
    DateScoreMeans(a, b);
    SameTimes(a, b);
    SameOrNone(a.titleTokens, b.titleTokens);
    SameOrNone(a.locationTokens, b.locationTokens);
    SimilarityMeans(a, b);
  }

  lemma SameTimes(a: EventFingerprint, b: EventFingerprint)
    requires a.start.Some? && a.end.Some? && a.start.value < a.end.value && a.start == b.start && a.end == b.end
    ensures TimesOverlap(a, b) && DateOverlapScore(a, b) == 1.0
  {
    DateScoreMeans(a, b);
    var d := (a.end.value - a.start.value) as real;
    Cancel(DateOverlapScore(a, b), d);
  }

  lemma Cancel(x: real, y: real)
    requires y > 0.0 && x * y == y
    ensures x == 1.0
  {
    assert (x - 1.0) * y == 0.0;
  }

  lemma SameOrNone(xs: seq<Token>, ys: seq<Token>)
    requires xs == ys || !ShareToken(xs, ys)
    ensures JaccardSimilarity(xs, ys) == if ShareToken(xs, ys) then 1.0 else 0.0
  {
    JaccardRange(xs, ys);
    if ShareToken(xs, ys) {
      var t :| t in xs && t in ys;
      var a := Tokens(xs);
      assert t in a && a + a == a && a * a == a;
      JaccardMeans(xs, ys);
    }
  }

  // ---- Detection ----

  datatype SharedEvent = SharedEvent(
    title: string,
    start: Option<int>,
    end: Option<int>,
    location: string,
    connectionCount: nat,
    connections: seq<Peer>,
    matchScore: real
  )

  /** A fingerprint of `peer` matched the local event `event`, whose hash is `hash`, with this score. */
  datatype Match = Match(event: EventFingerprint, hash: EventHash, peer: Peer, score: real)

  function MatchFor(l: EventFingerprint, peer: Peer, score: real): Match {
    Match(l, l.eventHash, peer, score)
  }

  // The matches in the order in which the triple loop meets them.

  function MatchIf(l: EventFingerprint, peer: Peer, f: EventFingerprint): seq<Match> {
    if EventSimilarity(l, f) >= OVERLAP_THRESHOLD then [MatchFor(l, peer, EventSimilarity(l, f))] else []
  }

  function MatchesWith(l: EventFingerprint, peer: Peer, fps: seq<EventFingerprint>): seq<Match> {
    if fps == [] then [] else MatchesWith(l, peer, fps[..|fps| - 1]) + MatchIf(l, peer, fps[|fps| - 1])
  }

  function MatchesOf(l: EventFingerprint, peers: seq<PeerEventSet>): seq<Match> {
    if peers == [] then [] else
      var ps := peers[|peers| - 1];
      MatchesOf(l, peers[..|peers| - 1]) + MatchesWith(l, ps.peer, ps.fingerprints)
  }

  function AllMatches(local: seq<EventFingerprint>, peers: seq<PeerEventSet>): seq<Match> {
    if local == [] then [] else AllMatches(local[..|local| - 1], peers) + MatchesOf(local[|local| - 1], peers)
  }

  type Table = map<EventHash, SharedEvent>

  ghost predicate Matched(ms: seq<Match>, hash: EventHash, peer: Peer) {
    exists m :: m in ms && m.hash == hash && m.peer == peer
  }

  ghost predicate HasMatch(ms: seq<Match>, hash: EventHash) {
    exists m :: m in ms && m.hash == hash
  }

  /** The i-th match is its peer's first for the event `hash`. */
  ghost predicate IsFirst(ms: seq<Match>, hash: EventHash, i: nat) {
    && i < |ms| && ms[i].hash == hash
    && forall j | 0 <= j < i :: ms[j].hash == hash ==> ms[j].peer != ms[i].peer
  }

  /** The largest score among the peers' first matches for the event. */
  ghost predicate IsBestFirst(ms: seq<Match>, hash: EventHash, score: real) {
    && (forall i: nat :: IsFirst(ms, hash, i) ==> ms[i].score <= score)
    && (exists i: nat :: IsFirst(ms, hash, i) && ms[i].score == score)
  }

  ghost predicate Connects(ms: seq<Match>, hash: EventHash, peers: seq<Peer>) {
    && (forall i, j | 0 <= i < j < |peers| :: peers[i] != peers[j])
    && (forall p :: p in peers <==> Matched(ms, hash, p))
  }

  predicate Describes(e: SharedEvent, l: EventFingerprint) {
    e.title == l.displayTitle && e.start == l.start && e.end == l.end && e.location == l.displayLocation
  }

  /** The i-th match is the first for the event `hash`. */
  ghost predicate Opens(ms: seq<Match>, hash: EventHash, i: nat) {
    i < |ms| && ms[i].hash == hash && forall j | 0 <= j < i :: ms[j].hash != hash
  }

  /** The entry shows the title, times and place of the local event of the first match. */
  ghost predicate DescribedByFirst(ms: seq<Match>, hash: EventHash, e: SharedEvent) {
    exists i: nat :: Opens(ms, hash, i) && Describes(e, ms[i].event)
  }

  /** What an entry says about the matches of its event. */
  ghost predicate EntryFor(ms: seq<Match>, hash: EventHash, e: SharedEvent) {
    && DescribedByFirst(ms, hash, e)
    && e.connectionCount == |e.connections| && Connects(ms, hash, e.connections)
    && IsBestFirst(ms, hash, e.matchScore)
  }

  ghost predicate TableFor(ms: seq<Match>, table: Table) {
    && (forall hash :: hash in table <==> HasMatch(ms, hash))
    && (forall hash | hash in table :: EntryFor(ms, hash, table[hash]))
  }

  /** What the innermost statement does with one match. */
  function Note(table: Table, l: EventFingerprint, peer: Peer, score: real): Table {
    var e := if l.eventHash in table then table[l.eventHash]
             else SharedEvent(l.displayTitle, l.start, l.end, l.displayLocation, 0, [], 0.0);
    table[l.eventHash :=
      if peer in e.connections then e
      else e.(connectionCount := e.connectionCount + 1, connections := e.connections + [peer],
              matchScore := if score > e.matchScore then score else e.matchScore)]
  }

  lemma MatchedSnoc(ms: seq<Match>, m: Match, hash: EventHash, p: Peer)
    ensures Matched(ms + [m], hash, p) <==> Matched(ms, hash, p) || (m.hash == hash && m.peer == p)
    ensures HasMatch(ms + [m], hash) <==> HasMatch(ms, hash) || m.hash == hash
  {
    assert m in ms + [m] && forall n :: n in ms + [m] <==> n in ms || n == m;
  }

  lemma FirstSnoc(ms: seq<Match>, m: Match, hash: EventHash, i: nat)
    ensures IsFirst(ms + [m], hash, i) <==>
            IsFirst(ms, hash, i) || (i == |ms| && m.hash == hash && !Matched(ms, hash, m.peer))
  {
    if i == |ms| && m.hash == hash {
      if Matched(ms, hash, m.peer) {
        var n :| n in ms && n.hash == hash && n.peer == m.peer;
        var j :| 0 <= j < |ms| && ms[j] == n;
        assert (ms + [m])[j] == n;
      } else {
        forall j | 0 <= j < i ensures (ms + [m])[j].hash == hash ==> (ms + [m])[j].peer != m.peer {
          assert ms[j] in ms;
        }
      }
    }
    if i < |ms| {
      assert forall j | 0 <= j <= i :: (ms + [m])[j] == ms[j];
    }
  }

  lemma DescriptionStays(ms: seq<Match>, m: Match, hash: EventHash, e: SharedEvent, e': SharedEvent)
    requires DescribedByFirst(ms, hash, e)
    requires e'.title == e.title && e'.start == e.start && e'.end == e.end && e'.location == e.location
    ensures DescribedByFirst(ms + [m], hash, e')
  {
    var i: nat :| Opens(ms, hash, i) && Describes(e, ms[i].event);
    assert Opens(ms + [m], hash, i) && (ms + [m])[i] == ms[i];
  }

  lemma DescriptionStarts(ms: seq<Match>, m: Match, e: SharedEvent)
    requires !HasMatch(ms, m.hash) && Describes(e, m.event)
    ensures DescribedByFirst(ms + [m], m.hash, e)
  {
    assert forall i | 0 <= i < |ms| :: ms[i] in ms;
    assert (ms + [m])[|ms|] == m;
    assert Opens(ms + [m], m.hash, |ms|);
  }

  /** A match of another event, or of a peer already connected, changes nothing. */
  lemma EntryStays(ms: seq<Match>, m: Match, hash: EventHash, e: SharedEvent)
    requires EntryFor(ms, hash, e) && (m.hash != hash || m.peer in e.connections)
    ensures EntryFor(ms + [m], hash, e)
  {
    DescriptionStays(ms, m, hash, e, e);
    forall p { MatchedSnoc(ms, m, hash, p); }
    forall i: nat ensures IsFirst(ms + [m], hash, i) <==> IsFirst(ms, hash, i) {
      FirstSnoc(ms, m, hash, i);
    }
    var i: nat :| IsFirst(ms, hash, i) && ms[i].score == e.matchScore;
    assert (ms + [m])[i] == ms[i];
  }

  lemma BestJoins(ms: seq<Match>, m: Match, score: real)
    requires !Matched(ms, m.hash, m.peer) && IsBestFirst(ms, m.hash, score)
    ensures IsBestFirst(ms + [m], m.hash, if m.score > score then m.score else score)
  {
    forall i: nat { FirstSnoc(ms, m, m.hash, i); }
    var i: nat :| IsFirst(ms, m.hash, i) && ms[i].score == score;
    assert (ms + [m])[i] == ms[i] && (ms + [m])[|ms|] == m;
    assert IsFirst(ms + [m], m.hash, i) && IsFirst(ms + [m], m.hash, |ms|);
  }

  lemma BestStarts(ms: seq<Match>, m: Match)
    requires !HasMatch(ms, m.hash)
    ensures IsBestFirst(ms + [m], m.hash, m.score)
  {
    forall i: nat { FirstSnoc(ms, m, m.hash, i); }
    assert forall i | 0 <= i < |ms| :: ms[i] in ms;
    assert (ms + [m])[|ms|] == m;
    assert IsFirst(ms + [m], m.hash, |ms|);
  }

  lemma PeerJoins(ms: seq<Match>, m: Match, peers: seq<Peer>)
    requires Connects(ms, m.hash, peers) && m.peer !in peers
    ensures Connects(ms + [m], m.hash, peers + [m.peer])
  {
    forall p { MatchedSnoc(ms, m, m.hash, p); }
    assert forall p :: p in peers + [m.peer] <==> p in peers || p == m.peer;
    assert forall i | 0 <= i < |peers| :: peers[i] in peers;
  }

  lemma NoteKeepsEntry(ms: seq<Match>, table: Table, l: EventFingerprint, peer: Peer, score: real)
    requires TableFor(ms, table) && score >= OVERLAP_THRESHOLD
    ensures EntryFor(ms + [MatchFor(l, peer, score)], l.eventHash, Note(table, l, peer, score)[l.eventHash])
  {
    var m := MatchFor(l, peer, score);
    var e := Note(table, l, peer, score)[m.hash];
    if m.hash !in table {
      assert !HasMatch(ms, m.hash);
      DescriptionStarts(ms, m, e);
      BestStarts(ms, m);
      assert Connects(ms, m.hash, []);
      PeerJoins(ms, m, []);
      assert [] + [peer] == [peer];
    } else if peer in table[m.hash].connections {
      EntryStays(ms, m, m.hash, table[m.hash]);
    } else {
      DescriptionStays(ms, m, m.hash, table[m.hash], e);
      BestJoins(ms, m, table[m.hash].matchScore);
      PeerJoins(ms, m, table[m.hash].connections);
    }
  }

  lemma NoteKeepsTable(ms: seq<Match>, table: Table, l: EventFingerprint, peer: Peer, score: real)
    requires TableFor(ms, table) && score >= OVERLAP_THRESHOLD
    ensures TableFor(ms + [MatchFor(l, peer, score)], Note(table, l, peer, score))
  {
    var m := MatchFor(l, peer, score);
    var table' := Note(table, l, peer, score);
    forall hash ensures hash in table' <==> HasMatch(ms + [m], hash) {
      MatchedSnoc(ms, m, hash, peer);
    }
    NoteKeepsEntry(ms, table, l, peer, score);
    forall hash | hash in table && hash != m.hash ensures EntryFor(ms + [m], hash, table'[hash]) {
      EntryStays(ms, m, hash, table[hash]);
    }
  }

  /** The statement guarded by the threshold test. */
  method NoteIfMatch(l: EventFingerprint, peer: Peer, f: EventFingerprint, before: Table, ghost ms: seq<Match>)
    returns (table: Table)
    requires TableFor(ms, before)
    ensures TableFor(ms + MatchIf(l, peer, f), table)
  {
    var score := EventSimilarity(l, f);
    if score >= OVERLAP_THRESHOLD {
      NoteKeepsTable(ms, before, l, peer, score);
      table := Note(before, l, peer, score);
    } else {
      table := before;
      assert ms + [] == ms;
    }
  }

  lemma Regroup(a: seq<Match>, b: seq<Match>, c: seq<Match>)
    ensures (a + b) + c == a + (b + c)
  {
  }

  lemma MatchesSnoc(l: EventFingerprint, peer: Peer, fps: seq<EventFingerprint>, k: nat)
    requires k < |fps|
    ensures MatchesWith(l, peer, fps[..k + 1]) == MatchesWith(l, peer, fps[..k]) + MatchIf(l, peer, fps[k])
  {
    assert fps[..k + 1][..k] == fps[..k];
  }

  /** The fingerprint loop for one local event and one peer. */
  method ScanPeer(l: EventFingerprint, ps: PeerEventSet, before: Table, ghost ms: seq<Match>)
    returns (table: Table)
    requires TableFor(ms, before)
    ensures TableFor(ms + MatchesWith(l, ps.peer, ps.fingerprints), table)
  {
    var fps := ps.fingerprints;
    table := before;
    assert ms + MatchesWith(l, ps.peer, fps[..0]) == ms;
    for k := 0 to |fps|
      invariant TableFor(ms + MatchesWith(l, ps.peer, fps[..k]), table)
    {
      ghost var so := MatchesWith(l, ps.peer, fps[..k]);
      table := NoteIfMatch(l, ps.peer, fps[k], table, ms + so);
      MatchesSnoc(l, ps.peer, fps, k);
      Regroup(ms, so, MatchIf(l, ps.peer, fps[k]));
    }
    assert fps[..|fps|] == fps;
  }

  lemma PeersSnoc(l: EventFingerprint, peers: seq<PeerEventSet>, j: nat)
    requires j < |peers|
    ensures MatchesOf(l, peers[..j + 1]) ==
            MatchesOf(l, peers[..j]) + MatchesWith(l, peers[j].peer, peers[j].fingerprints)
  {
    assert peers[..j + 1][..j] == peers[..j];
  }

  /** The peer loop for one local event. */
  method ScanPeers(l: EventFingerprint, peers: seq<PeerEventSet>, before: Table, ghost ms: seq<Match>)
    returns (table: Table)
    requires TableFor(ms, before)
    ensures TableFor(ms + MatchesOf(l, peers), table)
  {
    table := before;
    assert ms + MatchesOf(l, peers[..0]) == ms;
    for j := 0 to |peers|
      invariant TableFor(ms + MatchesOf(l, peers[..j]), table)
    {
      ghost var so := MatchesOf(l, peers[..j]);
      table := ScanPeer(l, peers[j], table, ms + so);
      PeersSnoc(l, peers, j);
      Regroup(ms, so, MatchesWith(l, peers[j].peer, peers[j].fingerprints));
    }
    assert peers[..|peers|] == peers;
  }

  /** The whole triple loop. */
  method Accumulate(local: seq<EventFingerprint>, peers: seq<PeerEventSet>) returns (table: Table)
    ensures TableFor(AllMatches(local, peers), table)
  {
    table := map[];
    for i := 0 to |local|
      invariant TableFor(AllMatches(local[..i], peers), table)
    {
      table := ScanPeers(local[i], peers, table, AllMatches(local[..i], peers));
      assert local[..i + 1][..i] == local[..i];
    }
    assert local[..|local|] == local;
  }

  predicate Descending(es: seq<SharedEvent>) {
    forall i, j | 0 <= i < j < |es| :: es[i].connectionCount >= es[j].connectionCount
  }

  /** The values of the table, largest count first; `hashes[i]` is the event that `es[i]` is about. */
  ghost predicate Lists(table: Table, es: seq<SharedEvent>, hashes: seq<EventHash>) {
    && |hashes| == |es|
    && (forall i, j | 0 <= i < j < |hashes| :: hashes[i] != hashes[j])
    && (forall h :: h in hashes <==> h in table)
    && (forall i | 0 <= i < |es| :: hashes[i] in table && es[i] == table[hashes[i]])
  }

  function Inserted<T>(xs: seq<T>, pos: nat, x: T): (r: seq<T>)
    requires pos <= |xs|
    ensures |r| == |xs| + 1 && r[pos] == x
    ensures forall i | 0 <= i < pos :: r[i] == xs[i]
    ensures forall i | pos < i < |r| :: r[i] == xs[i - 1]
  {
    xs[..pos] + [x] + xs[pos..]
  }

  lemma InsertedMembers<T>(xs: seq<T>, pos: nat, x: T, y: T)
    requires pos <= |xs|
    ensures y in Inserted(xs, pos, x) <==> y in xs || y == x
  {
    var r := Inserted(xs, pos, x);
    if y in xs {
      var i :| 0 <= i < |xs| && xs[i] == y;
      assert r[if i < pos then i else i + 1] == y;
    }
    assert r[pos] == x;
  }

  /** The place behind the entries with at least this count. */
  method PlaceByCount(es: seq<SharedEvent>, e: SharedEvent) returns (pos: nat)
    requires Descending(es)
    ensures pos <= |es| && Descending(Inserted(es, pos, e))
  {
    pos := 0;
    while pos < |es| && es[pos].connectionCount >= e.connectionCount
      invariant pos <= |es|
      invariant forall i | 0 <= i < pos :: es[i].connectionCount >= e.connectionCount
    {
      pos := pos + 1;
    }
  }

  lemma InsertedValues(table: Table, es: seq<SharedEvent>, hashes: seq<EventHash>, h: EventHash, e: SharedEvent,
                       pos: nat, i: nat)
    requires Lists(table, es, hashes) && h !in table && pos <= |es| && i <= |es|
    ensures var hs, fs, t := Inserted(hashes, pos, h), Inserted(es, pos, e), table[h := e];
            hs[i] in t && fs[i] == t[hs[i]]
  {
    if i != pos {
      var k := if i < pos then i else i - 1;
      assert hashes[k] in table && es[k] == table[hashes[k]];
    }
  }

  lemma InsertedLists(table: Table, es: seq<SharedEvent>, hashes: seq<EventHash>, h: EventHash, e: SharedEvent,
                      pos: nat)
    requires Lists(table, es, hashes) && h !in table && pos <= |es|
    ensures Lists(table[h := e], Inserted(es, pos, e), Inserted(hashes, pos, h))
  {
    forall x { InsertedMembers(hashes, pos, h, x); }
    assert forall i | 0 <= i < |hashes| :: hashes[i] != h;
    InsertedDistinct(hashes, pos, h);
    forall i | 0 <= i <= |es| { InsertedValues(table, es, hashes, h, e, pos, i); }
  }

  lemma InsertedDistinct(xs: seq<EventHash>, pos: nat, x: EventHash)
    requires pos <= |xs| && (forall i, j | 0 <= i < j < |xs| :: xs[i] != xs[j])
    requires forall i | 0 <= i < |xs| :: xs[i] != x
    ensures var r := Inserted(xs, pos, x); forall i, j | 0 <= i < j < |r| :: r[i] != r[j]
  {
  }

  method SortByCount(table: Table) returns (es: seq<SharedEvent>, ghost hashes: seq<EventHash>)
    ensures Descending(es) && Lists(table, es, hashes)
  {
    es, hashes := [], [];
    var rest := table.Keys;
    ghost var done: Table := map[];
    while rest != {}
      invariant rest <= table.Keys && done.Keys == table.Keys - rest
      invariant forall h | h in done :: done[h] == table[h]
      invariant Descending(es) && Lists(done, es, hashes)
      decreases rest
    {
      var h :| h in rest;
      var e := table[h];
      var pos := PlaceByCount(es, e);
      InsertedLists(done, es, hashes, h, e, pos);
      es, hashes := Inserted(es, pos, e), Inserted(hashes, pos, h);
      rest, done := rest - {h}, done[h := e];
    }
    assert done == table;
  }

  /**
   For each local event hash with a match, one entry: its connections are exactly the peers with a fingerprint
   that scores at least the threshold against a local event of that hash, each once; its score is the largest among
   those peers' first matches; it describes the local event of its first match; and the entries are sorted by count,
   largest first.
   */
  method DetectSharedEvents(local: seq<EventFingerprint>, peers: seq<PeerEventSet>)
    returns (es: seq<SharedEvent>, ghost hashes: seq<EventHash>)
    ensures |hashes| == |es| && Descending(es)
    ensures forall i, j | 0 <= i < j < |hashes| :: hashes[i] != hashes[j]
    ensures forall h :: h in hashes <==> HasMatch(AllMatches(local, peers), h)
    ensures forall i | 0 <= i < |es| :: EntryFor(AllMatches(local, peers), hashes[i], es[i])
  {
    var table := Accumulate(local, peers);
    es, hashes := SortByCount(table);
  }

  // ---- What a match means ----

  lemma {:induction false} OriginWith(l: EventFingerprint, peer: Peer, fps: seq<EventFingerprint>, m: Match)
    returns (f: EventFingerprint)
    requires m in MatchesWith(l, peer, fps)
    ensures f in fps && m == MatchFor(l, peer, EventSimilarity(l, f)) && m.score >= 0.5
  {
    var n := |fps| - 1;
    if m in MatchesWith(l, peer, fps[..n]) {
      f := OriginWith(l, peer, fps[..n], m);
    } else {
      f := fps[n];
    }
  }

  lemma {:induction false} OriginOf(l: EventFingerprint, peers: seq<PeerEventSet>, m: Match)
    returns (ps: PeerEventSet, f: EventFingerprint)
    requires m in MatchesOf(l, peers)
    ensures ps in peers && f in ps.fingerprints
    ensures m == MatchFor(l, ps.peer, EventSimilarity(l, f)) && m.score >= 0.5
  {
    var n := |peers| - 1;
    if m in MatchesOf(l, peers[..n]) {
      ps, f := OriginOf(l, peers[..n], m);
    } else {
      ps := peers[n];
      f := OriginWith(l, ps.peer, ps.fingerprints, m);
    }
  }

  /** Every match is a pair of events that scores at least the threshold. */
  lemma {:induction false} Origin(local: seq<EventFingerprint>, peers: seq<PeerEventSet>, m: Match)
    returns (l: EventFingerprint, ps: PeerEventSet, f: EventFingerprint)
    requires m in AllMatches(local, peers)
    ensures l in local && ps in peers && f in ps.fingerprints
    ensures m == MatchFor(l, ps.peer, EventSimilarity(l, f)) && m.score >= 0.5
  {
    var n := |local| - 1;
    if m in AllMatches(local[..n], peers) {
      l, ps, f := Origin(local[..n], peers, m);
    } else {
      l := local[n];
      ps, f := OriginOf(l, peers, m);
    }
  }

  lemma {:induction false} MetWith(l: EventFingerprint, peer: Peer, fps: seq<EventFingerprint>, k: nat)
    requires k < |fps| && EventSimilarity(l, fps[k]) >= 0.5
    ensures MatchFor(l, peer, EventSimilarity(l, fps[k])) in MatchesWith(l, peer, fps)
  {
    if k < |fps| - 1 {
      MetWith(l, peer, fps[..|fps| - 1], k);
    }
  }

  lemma {:induction false} MetOf(l: EventFingerprint, peers: seq<PeerEventSet>, j: nat, k: nat)
    requires j < |peers| && k < |peers[j].fingerprints|
    requires EventSimilarity(l, peers[j].fingerprints[k]) >= 0.5
    ensures MatchFor(l, peers[j].peer, EventSimilarity(l, peers[j].fingerprints[k])) in MatchesOf(l, peers)
  {
    if j < |peers| - 1 {
      MetOf(l, peers[..|peers| - 1], j, k);
    } else {
      MetWith(l, peers[j].peer, peers[j].fingerprints, k);
    }
  }

  /** Every pair of events that scores at least the threshold is a match. */
  lemma {:induction false} EveryPairIsMet(local: seq<EventFingerprint>, peers: seq<PeerEventSet>, i: nat, j: nat,
                                          k: nat)
    requires i < |local| && j < |peers| && k < |peers[j].fingerprints|
    requires EventSimilarity(local[i], peers[j].fingerprints[k]) >= 0.5
    ensures var l, f := local[i], peers[j].fingerprints[k];
            MatchFor(l, peers[j].peer, EventSimilarity(l, f)) in AllMatches(local, peers)
  {
    if i < |local| - 1 {
      EveryPairIsMet(local[..|local| - 1], peers, i, j, k);
    } else {
      MetOf(local[i], peers, j, k);
    }
  }

  ghost predicate SomeMatch(l: EventFingerprint, peers: seq<PeerEventSet>) {
    MatchesOf(l, peers) != []
  }

  /** The k-th local event is the first of that hash that any peer matches. */
  ghost predicate FirstMatching(local: seq<EventFingerprint>, peers: seq<PeerEventSet>, hash: EventHash, k: nat) {
    && k < |local| && local[k].eventHash == hash && SomeMatch(local[k], peers)
    && forall j | 0 <= j < k :: local[j].eventHash == hash ==> !SomeMatch(local[j], peers)
  }

  lemma MatchesNameEvent(l: EventFingerprint, peers: seq<PeerEventSet>, m: Match)
    requires m in MatchesOf(l, peers)
    ensures m.event == l && m.hash == l.eventHash
  {
    var ps, f := OriginOf(l, peers, m);
  }

  lemma {:induction false} EventMatchIsMet(local: seq<EventFingerprint>, peers: seq<PeerEventSet>, j: nat, m: Match)
    requires j < |local| && m in MatchesOf(local[j], peers)
    ensures m in AllMatches(local, peers)
  {
    if j < |local| - 1 {
      EventMatchIsMet(local[..|local| - 1], peers, j, m);
    }
  }

  lemma NoMatchOfHash(local: seq<EventFingerprint>, peers: seq<PeerEventSet>, hash: EventHash)
    requires !HasMatch(AllMatches(local, peers), hash)
    ensures forall j | 0 <= j < |local| :: local[j].eventHash == hash ==> !SomeMatch(local[j], peers)
  {
    forall j | 0 <= j < |local| && SomeMatch(local[j], peers) ensures local[j].eventHash != hash {
      var m := MatchesOf(local[j], peers)[0];
      MatchesNameEvent(local[j], peers, m);
      EventMatchIsMet(local, peers, j, m);
    }
  }

  lemma OpensInOne(before: seq<Match>, last: seq<Match>, hash: EventHash, i: nat)
    requires Opens(before + last, hash, i)
    ensures i < |before| ==> Opens(before, hash, i) && (before + last)[i] == before[i]
    ensures i >= |before| ==> !HasMatch(before, hash) && (before + last)[i] in last
  {
    assert forall j | 0 <= j < |before| :: (before + last)[j] == before[j];
    if i >= |before| {
      assert (before + last)[i] == last[i - |before|];
    }
  }

  lemma FirstMatchingExtends(local: seq<EventFingerprint>, peers: seq<PeerEventSet>, hash: EventHash, n: nat, k: nat)
    requires n < |local| && FirstMatching(local[..n], peers, hash, k)
    ensures FirstMatching(local, peers, hash, k)
  {
    assert forall j | 0 <= j < n :: local[..n][j] == local[j];
  }

  lemma LastIsFirstMatching(local: seq<EventFingerprint>, peers: seq<PeerEventSet>, hash: EventHash, n: nat)
    requires n < |local| && !HasMatch(AllMatches(local[..n], peers), hash)
    requires local[n].eventHash == hash && SomeMatch(local[n], peers)
    ensures FirstMatching(local, peers, hash, n)
  {
    NoMatchOfHash(local[..n], peers, hash);
    assert forall j | 0 <= j < n :: local[..n][j] == local[j];
  }

  /** The first match for a hash is one of the first local event of that hash that any peer matches. */
  lemma {:induction false} FirstMatchIsOfFirstEvent(local: seq<EventFingerprint>, peers: seq<PeerEventSet>,
                                                    hash: EventHash, i: nat) returns (k: nat)
    requires Opens(AllMatches(local, peers), hash, i)
    ensures FirstMatching(local, peers, hash, k) && local[k] == AllMatches(local, peers)[i].event
  {
    var n := |local| - 1;
    var before, last := AllMatches(local[..n], peers), MatchesOf(local[n], peers);
    OpensInOne(before, last, hash, i);
    if i < |before| {
      k := FirstMatchIsOfFirstEvent(local[..n], peers, hash, i);
      FirstMatchingExtends(local, peers, hash, n, k);
    } else {
      k := n;
      MatchesNameEvent(local[n], peers, (before + last)[i]);
      LastIsFirstMatching(local, peers, hash, n);
    }
  }

  /** So each entry describes the first local event of its hash that any peer matches. */
  lemma EntryDescribesFirstEvent(local: seq<EventFingerprint>, peers: seq<PeerEventSet>, hash: EventHash,
                                 e: SharedEvent)
    requires EntryFor(AllMatches(local, peers), hash, e)
    ensures exists k: nat :: FirstMatching(local, peers, hash, k) && Describes(e, local[k])
  {
    var i: nat :| Opens(AllMatches(local, peers), hash, i) && Describes(e, AllMatches(local, peers)[i].event);
    var k := FirstMatchIsOfFirstEvent(local, peers, hash, i);
  }

  /** `p` has a fingerprint that overlaps a local event of that hash in time and shares a word with it. */
  ghost predicate RealOverlap(local: seq<EventFingerprint>, peers: seq<PeerEventSet>, hash: EventHash, p: Peer) {
    exists l, ps, f ::
      && l in local && l.eventHash == hash && ps in peers && ps.peer == p && f in ps.fingerprints
      && TimesOverlap(l, f)
      && (ShareToken(l.titleTokens, f.titleTokens) || ShareToken(l.locationTokens, f.locationTokens))
  }

  lemma MatchIsReal(local: seq<EventFingerprint>, peers: seq<PeerEventSet>, m: Match)
    requires m in AllMatches(local, peers)
    ensures RealOverlap(local, peers, m.hash, m.peer) && 0.5 <= m.score <= 1.0
  {
    var l, ps, f := Origin(local, peers, m);
    MatchNeedsTimeAndToken(l, f);
    SimilarityIsSymmetricAndBounded(l, f);
  }

  lemma EntryWitnesses(ms: seq<Match>, hash: EventHash, e: SharedEvent, p: Peer) returns (m: Match, n: Match)
    requires EntryFor(ms, hash, e) && p in e.connections
    ensures m in ms && m.hash == hash && m.peer == p
    ensures n in ms && n.hash == hash && n.score == e.matchScore
  {
    assert Matched(ms, hash, p);
    m :| m in ms && m.hash == hash && m.peer == p;
    var i: nat :| IsFirst(ms, hash, i) && ms[i].score == e.matchScore;
    n := ms[i];
  }

  /** A reported connection is a real overlap, and the reported score is a score of one. */
  lemma ReportedConnectionIsReal(local: seq<EventFingerprint>, peers: seq<PeerEventSet>, hash: EventHash,
                                 e: SharedEvent, p: Peer)
    requires EntryFor(AllMatches(local, peers), hash, e) && p in e.connections
    ensures RealOverlap(local, peers, hash, p) && 0.5 <= e.matchScore <= 1.0
  {
    var m, n := EntryWitnesses(AllMatches(local, peers), hash, e, p);
    MatchIsReal(local, peers, m);
    MatchIsReal(local, peers, n);
  }
}
