/**
 What one photo's faces make the store and the face cache do: `plan_face_extraction`
 (src/fingerprints/extractors/face.rs) and `emit_similarity_edges_for_faces`
 (src/fingerprints/ingest_photo.rs).
 */
module PhotoIngest {
  import opened Wrappers
  import opened FingerprintGraph
  import opened FingerprintKeys
  import opened FingerprintStore
  import opened FaceAnnCache

  const MIN_SIMILARITY_EDGE := 0.85
  const STRONG_MATCH_CUTOFF := 0.95
  const NEIGHBOR_QUERY_K: nat := 5
  const CO_OCCURRENCE_WEIGHT := 0.2

  /** A detected face: the key of its raw bytes, and its normalized embedding unless malformed. */
  datatype Face = Face(id: Id, embedding: Option<Embedding>)

  ghost predicate ProperFaces(faces: seq<Face>) {
    forall f | f in faces :: |f.id.text| == ID_LENGTH
  }

  // ---- Planning ----

  /** An Edge record followed by the junction rows of both endpoints. */
  function Triple(h: Hash, a: Id, b: Id, e: Edge): seq<Record> {
    var eg := Id(EdgeId(h, a.text, b.text, e.kind));
    [EdgeRecord(eg, e), EdgeRow(a, eg), EdgeRow(b, eg)]
  }

  function UniqueIds(faces: seq<Face>): (r: seq<Id>)
    ensures forall x :: x in r <==> exists f :: f in faces && f.id == x
    ensures forall i, j | 0 <= i < j < |r| :: r[i] != r[j]
  {
    if faces == [] then [] else
      var r := UniqueIds(faces[..|faces| - 1]);
      var x := faces[|faces| - 1].id;
      assert faces == faces[..|faces| - 1] + [faces[|faces| - 1]];
      assert faces[|faces| - 1] in faces;
      if x in r then r else r + [x]
  }

  function FingerprintRecords(faces: seq<Face>): (rs: seq<Record>)
    ensures forall r :: r in rs <==> exists f :: f in faces && r == FingerprintRecord(f.id, f.embedding)
  {
    if faces == [] then [] else
      var f := faces[|faces| - 1];
      assert faces == faces[..|faces| - 1] + [f];
      FingerprintRecords(faces[..|faces| - 1]) + [FingerprintRecord(f.id, f.embedding)]
  }

  function MentionRows(ids: seq<Id>, mention: Id): (rs: seq<Record>)
    ensures forall r :: r in rs <==> exists x :: x in ids && r == MentionRow(x, mention)
  {
    if ids == [] then [] else
      assert ids == ids[..|ids| - 1] + [ids[|ids| - 1]];
      MentionRows(ids[..|ids| - 1], mention) + [MentionRow(ids[|ids| - 1], mention)]
  }

  /** The endpoints are stored in key order. */
  function CoOccurrenceEdge(a: Id, b: Id): Edge {
    if AtMost(a.text, b.text) then Edge(a, b, CO_OCCURRENCE, CO_OCCURRENCE_WEIGHT)
    else Edge(b, a, CO_OCCURRENCE, CO_OCCURRENCE_WEIGHT)
  }

  function CoOccurrence(h: Hash, a: Id, b: Id): seq<Record> {
    Triple(h, a, b, CoOccurrenceEdge(a, b))
  }

  datatype Pair = Pair(a: Id, b: Id)

  /** The pairs that the two pair loops have met when they stand at `i` and `j`. */
  function PairsBefore(ids: seq<Id>, i: nat, j: nat): seq<Pair>
    requires i <= |ids| && (j == i + 1 || i < j <= |ids|)
    decreases i, j
  {
    if j > i + 1 then PairsBefore(ids, i, j - 1) + [Pair(ids[i], ids[j - 1])]
    else if i == 0 then []
    else PairsBefore(ids, i - 1, |ids|)
  }

  function AllPairs(ids: seq<Id>): seq<Pair> {
    PairsBefore(ids, |ids|, |ids| + 1)
  }

  function CoOccurrences(h: Hash, pairs: seq<Pair>): seq<Record> {
    if pairs == [] then []
    else CoOccurrences(h, pairs[..|pairs| - 1]) + CoOccurrence(h, pairs[|pairs| - 1].a, pairs[|pairs| - 1].b)
  }

  lemma CoOccurrencesSnoc(h: Hash, pairs: seq<Pair>, p: Pair)
    ensures CoOccurrences(h, pairs + [p]) == CoOccurrences(h, pairs) + CoOccurrence(h, p.a, p.b)
  {
    assert (pairs + [p])[..|pairs|] == pairs;
  }

  /** The plan's records up to the co-occurrence edges. */
  function PlanHead(faces: seq<Face>, mention: Id): seq<Record> {
    [OtherRecord] + FingerprintRecords(faces) + ([OtherRecord, OtherRecord] + MentionRows(UniqueIds(faces), mention))
  }

  function PlanOf(h: Hash, faces: seq<Face>, mention: Id): seq<Record> {
    if faces == [] then [OtherRecord] else
      var ids := UniqueIds(faces);
      PlanHead(faces, mention) + CoOccurrences(h, AllPairs(ids))
  }

  method DedupeIds(faces: seq<Face>) returns (ids: seq<Id>)
    ensures ids == UniqueIds(faces)
  {
    ids := [];
    for i := 0 to |faces|
      invariant ids == UniqueIds(faces[..i])
    {
      assert faces[..i + 1][..i] == faces[..i];
      if faces[i].id !in ids {
        ids := ids + [faces[i].id];
      }
    }
    assert faces[..|faces|] == faces;
  }

  method PlanPairs(h: Hash, ids: seq<Id>) returns (records: seq<Record>)
    ensures records == CoOccurrences(h, AllPairs(ids))
  {
    records := [];
    for i := 0 to |ids|
      invariant records == CoOccurrences(h, PairsBefore(ids, i, i + 1))
    {
      for j := i + 1 to |ids|
        invariant records == CoOccurrences(h, PairsBefore(ids, i, j))
      {
        CoOccurrencesSnoc(h, PairsBefore(ids, i, j), Pair(ids[i], ids[j]));
        records := records + CoOccurrence(h, ids[i], ids[j]);
      }
    }
  }

  method PlanFingerprints(faces: seq<Face>) returns (records: seq<Record>)
    ensures records == FingerprintRecords(faces)
  {
    records := [];
    for i := 0 to |faces|
      invariant records == FingerprintRecords(faces[..i])
    {
      assert faces[..i + 1][..i] == faces[..i];
      records := records + [FingerprintRecord(faces[i].id, faces[i].embedding)];
    }
    assert faces[..|faces|] == faces;
  }

  method PlanMentionRows(ids: seq<Id>, mention: Id) returns (records: seq<Record>)
    ensures records == MentionRows(ids, mention)
  {
    records := [];
    for i := 0 to |ids|
      invariant records == MentionRows(ids[..i], mention)
    {
      assert ids[..i + 1][..i] == ids[..i];
      records := records + [MentionRow(ids[i], mention)];
    }
    assert ids[..|ids|] == ids;
  }

  /** `plan_face_extraction`, one method for each of its loops. */
  method PlanFaceExtraction(h: Hash, faces: seq<Face>, mention: Id) returns (records: seq<Record>)
    ensures records == PlanOf(h, faces, mention)
  {
    records := [OtherRecord];
    if faces == [] {
      return;
    }
    var fingerprints := PlanFingerprints(faces);
    var ids := DedupeIds(faces);
    var mentions := PlanMentionRows(ids, mention);
    var pairs := PlanPairs(h, ids);
    records := records + fingerprints + ([OtherRecord, OtherRecord] + mentions) + pairs;
  }

  // ---- Plans are good batches ----

  lemma {:induction false} FingerprintsOnlyGrow(st: Store, rs: seq<Record>)
    ensures st.fingerprints <= ApplyAll(st, rs).fingerprints
    decreases rs
  {
    if rs != [] {
      FingerprintsOnlyGrow(Apply(st, rs[0]), rs[1..]);
    }
  }

  /** A triple may be written wherever its two distinct endpoints exist. */
  lemma TripleOk(h: Hash, st: Store, a: Id, b: Id, e: Edge)
    requires a != b && a in st.fingerprints && b in st.fingerprints
    requires (e.a == a && e.b == b) || (e.a == b && e.b == a)
    ensures BatchOk(h, st, Triple(h, a, b, e))
  {
    var t := Triple(h, a, b, e);
    EdgeIdIsSymmetric(h, a.text, b.text, e.kind);
    var s1 := Apply(st, t[0]);
    var s2 := Apply(s1, t[1]);
    assert Writable(h, st, t[0]) && Writable(h, s1, t[1]) && Writable(h, s2, t[2]);
    assert t[1..][0] == t[1] && t[1..][1..] == [t[2]];
    assert BatchOk(h, s2, [t[2]]);
    assert BatchOk(h, s1, t[1..]);
  }

  /** Two different ids. */
  predicate ProperPair(ids: seq<Id>, p: Pair) {
    p.a in ids && p.b in ids && p.a != p.b
  }

  ghost predicate PairAt(ids: seq<Id>, k: nat, l: nat, p: Pair) {
    k < l < |ids| && p == Pair(ids[k], ids[l])
  }

  lemma {:induction false} PairOrigin(ids: seq<Id>, i: nat, j: nat, p: Pair) returns (k: nat, l: nat)
    requires i <= |ids| && (j == i + 1 || i < j <= |ids|) && p in PairsBefore(ids, i, j)
    ensures PairAt(ids, k, l, p)
    decreases i, j
  {
    if j > i + 1 {
      if p == Pair(ids[i], ids[j - 1]) {
        k, l := i, j - 1;
      } else {
        k, l := PairOrigin(ids, i, j - 1, p);
      }
    } else {
      k, l := PairOrigin(ids, i - 1, |ids|, p);
    }
  }

  lemma {:induction false} PairIsMet(ids: seq<Id>, i: nat, j: nat, k: nat, l: nat)
    requires i <= |ids| && (j == i + 1 || i < j <= |ids|) && k < l < |ids| && (k < i || (k == i && l < j))
    ensures Pair(ids[k], ids[l]) in PairsBefore(ids, i, j)
    decreases i, j
  {
    if j > i + 1 {
      if k < i || l < j - 1 {
        PairIsMet(ids, i, j - 1, k, l);
      }
    } else {
      PairIsMet(ids, i - 1, |ids|, k, l);
    }
  }

  /** The planned pairs are the pairs of different faces. */
  lemma PairsAreProper(ids: seq<Id>, p: Pair)
    requires forall i, j | 0 <= i < j < |ids| :: ids[i] != ids[j]
    requires p in AllPairs(ids)
    ensures ProperPair(ids, p)
  {
    var k, l := PairOrigin(ids, |ids|, |ids| + 1, p);
  }

  lemma {:induction false} CoOccurrencesOk(h: Hash, st: Store, ids: seq<Id>, pairs: seq<Pair>)
    requires forall x | x in ids :: x in st.fingerprints
    requires forall p | p in pairs :: ProperPair(ids, p)
    ensures BatchOk(h, st, CoOccurrences(h, pairs))
  {
    if pairs != [] {
      var n := |pairs| - 1;
      var Pair(a, b) := pairs[n];
      assert pairs[n] in pairs;
      CoOccurrencesOk(h, st, ids, pairs[..n]);
      var before := CoOccurrences(h, pairs[..n]);
      FingerprintsOnlyGrow(st, before);
      TripleOk(h, ApplyAll(st, before), a, b, CoOccurrenceEdge(a, b));
      BatchAppend(h, st, before, CoOccurrence(h, a, b));
    }
  }

  /** Fingerprint records may be written anywhere, and afterwards the fingerprints exist. */
  lemma {:induction false} FingerprintRecordsOk(h: Hash, st: Store, rs: seq<Record>)
    requires forall r | r in rs :: r.FingerprintRecord? && |r.id.text| == ID_LENGTH
    ensures BatchOk(h, st, rs)
    ensures forall r | r in rs :: r.id in ApplyAll(st, rs).fingerprints
    decreases rs
  {
    if rs != [] {
      FingerprintRecordsOk(h, Apply(st, rs[0]), rs[1..]);
      FingerprintsOnlyGrow(Apply(st, rs[0]), rs[1..]);
      assert rs == [rs[0]] + rs[1..];
    }
  }

  lemma {:induction false} PlainRecordsOk(h: Hash, st: Store, rs: seq<Record>)
    requires forall r | r in rs :: r.MentionRow? || r.OtherRecord?
    ensures BatchOk(h, st, rs)
    decreases rs
  {
    if rs != [] {
      PlainRecordsOk(h, Apply(st, rs[0]), rs[1..]);
      assert rs[0] in rs;
    }
  }

  ghost predicate FacesStored(st: Store, faces: seq<Face>) {
    forall f | f in faces :: f.id in st.fingerprints
  }

  lemma {:induction false} ApplyAllAppend(st: Store, xs: seq<Record>, ys: seq<Record>)
    ensures ApplyAll(st, xs + ys) == ApplyAll(ApplyAll(st, xs), ys)
    decreases xs
  {
    if xs == [] {
      assert xs + ys == ys;
    } else {
      ApplyAllAppend(Apply(st, xs[0]), xs[1..], ys);
      assert (xs + ys)[1..] == xs[1..] + ys;
    }
  }

  lemma PlanHeadOk(h: Hash, st: Store, faces: seq<Face>, mention: Id)
    requires ProperFaces(faces)
    ensures BatchOk(h, st, PlanHead(faces, mention))
    ensures FacesStored(ApplyAll(st, PlanHead(faces, mention)), faces)
  {
    var x, f := [OtherRecord], FingerprintRecords(faces);
    var m := [OtherRecord, OtherRecord] + MentionRows(UniqueIds(faces), mention);
    PlainRecordsOk(h, st, x);
    FingerprintRecordsOk(h, ApplyAll(st, x), f);
    BatchAppend(h, st, x, f);
    PlainRecordsOk(h, ApplyAll(st, x + f), m);
    BatchAppend(h, st, x + f, m);
    ApplyAllAppend(st, x, f);
    ApplyAllAppend(st, x + f, m);
    FingerprintsOnlyGrow(ApplyAll(st, x + f), m);
    forall g | g in faces ensures g.id in ApplyAll(st, x + f + m).fingerprints {
      assert FingerprintRecord(g.id, g.embedding) in f;
    }
  }

  /** A plan is a good batch on every store, and once written all its faces exist. */
  lemma PlanOk(h: Hash, st: Store, faces: seq<Face>, mention: Id)
    requires ProperFaces(faces)
    ensures BatchOk(h, st, PlanOf(h, faces, mention))
    ensures FacesStored(ApplyAll(st, PlanOf(h, faces, mention)), faces)
  {
    if faces == [] {
      PlainRecordsOk(h, st, [OtherRecord]);
    } else {
      var ids := UniqueIds(faces);
      var head, pairs := PlanHead(faces, mention), CoOccurrences(h, AllPairs(ids));
      PlanHeadOk(h, st, faces, mention);
      forall p | p in AllPairs(ids) ensures ProperPair(ids, p) { PairsAreProper(ids, p); }
      CoOccurrencesOk(h, ApplyAll(st, head), ids, AllPairs(ids));
      BatchAppend(h, st, head, pairs);
      ApplyAllAppend(st, head, pairs);
      FingerprintsOnlyGrow(ApplyAll(st, head), pairs);
    }
  }

  lemma {:induction false} CoOccurrenceIsPlanned(h: Hash, pairs: seq<Pair>, k: nat, r: Record)
    requires k < |pairs| && r in CoOccurrence(h, pairs[k].a, pairs[k].b)
    ensures r in CoOccurrences(h, pairs)
  {
    if k < |pairs| - 1 {
      CoOccurrenceIsPlanned(h, pairs[..|pairs| - 1], k, r);
    }
  }

  lemma {:induction false} CoOccurrenceOrigin(h: Hash, pairs: seq<Pair>, r: Record) returns (k: nat)
    requires r in CoOccurrences(h, pairs)
    ensures k < |pairs| && r in CoOccurrence(h, pairs[k].a, pairs[k].b)
  {
    var n := |pairs| - 1;
    if r in CoOccurrences(h, pairs[..n]) {
      k := CoOccurrenceOrigin(h, pairs[..n], r);
    } else {
      k := n;
    }
  }

  /** Any two different faces of a photo are planned to be linked: the edge and a row at each end. */
  lemma EveryPairIsPlanned(h: Hash, faces: seq<Face>, mention: Id, i: nat, j: nat, r: Record)
    requires i < j < |UniqueIds(faces)|
    requires r in CoOccurrence(h, UniqueIds(faces)[i], UniqueIds(faces)[j])
    ensures r in PlanOf(h, faces, mention)
  {
    var ids := UniqueIds(faces);
    PairIsMet(ids, |ids|, |ids| + 1, i, j);
    var k :| 0 <= k < |AllPairs(ids)| && AllPairs(ids)[k] == Pair(ids[i], ids[j]);
    CoOccurrenceIsPlanned(h, AllPairs(ids), k, r);
  }

  /** `r` is the edge of this kind and weight between `a` and `b`, in either order, or its row at one of them. */
  ghost predicate JoinsPair(h: Hash, r: Record, a: Id, b: Id, kind: string, weight: real) {
    var eg := Id(EdgeId(h, a.text, b.text, kind));
    match r
    case EdgeRecord(id, e) => id == eg && {e.a, e.b} == {a, b} && e.kind == kind && e.weight == weight
    case EdgeRow(fp, id) => id == eg && (fp == a || fp == b)
    case _ => false
  }

  lemma CoOccurrenceMeans(h: Hash, a: Id, b: Id, r: Record)
    ensures r in CoOccurrence(h, a, b) ==> JoinsPair(h, r, a, b, "CoOccurrence", 0.2)
    ensures exists e :: e in CoOccurrence(h, a, b) && e.EdgeRecord? && JoinsPair(h, e, a, b, "CoOccurrence", 0.2)
    ensures r.EdgeRow? && JoinsPair(h, r, a, b, "CoOccurrence", 0.2) ==> r in CoOccurrence(h, a, b)
  {
    var t := CoOccurrence(h, a, b);
    assert t[0] in t && t[1] in t && t[2] in t;
  }

  /** The photo shows two different faces with these ids. */
  ghost predicate ShowsBoth(faces: seq<Face>, a: Id, b: Id) {
    a != b && (exists f :: f in faces && f.id == a) && (exists f :: f in faces && f.id == b)
  }

  /** Every planned record is the status, a face's fingerprint or mention row, or joins two different faces. */
  lemma PlannedMeans(h: Hash, faces: seq<Face>, mention: Id, r: Record)
    requires r in PlanOf(h, faces, mention)
    ensures || r == OtherRecord
            || (exists f :: f in faces && r == FingerprintRecord(f.id, f.embedding))
            || (exists f :: f in faces && r == MentionRow(f.id, mention))
            || (exists a, b :: ShowsBoth(faces, a, b) && JoinsPair(h, r, a, b, "CoOccurrence", 0.2))
  {
    if faces != [] {
      var ids := UniqueIds(faces);
      if r in CoOccurrences(h, AllPairs(ids)) {
        var k := CoOccurrenceOrigin(h, AllPairs(ids), r);
        var p := AllPairs(ids)[k];
        assert p in AllPairs(ids);
        PairsAreProper(ids, p);
        CoOccurrenceMeans(h, p.a, p.b, r);
        assert ShowsBoth(faces, p.a, p.b);
      } else {
        HeadMeans(faces, mention, r);
      }
    }
  }

  /** A planned edge lists its ends in key order. */
  lemma PlannedEdgesAreOrdered(h: Hash, faces: seq<Face>, mention: Id, r: Record)
    requires r in PlanOf(h, faces, mention) && r.EdgeRecord?
    ensures AtMost(r.edge.a.text, r.edge.b.text)
  {
    var pairs := AllPairs(UniqueIds(faces));
    if r in CoOccurrences(h, pairs) {
      var k := CoOccurrenceOrigin(h, pairs, r);
      AtMostIsTotal(pairs[k].a.text, pairs[k].b.text);
    } else {
      HeadMeans(faces, mention, r);
    }
  }

  lemma HeadMeans(faces: seq<Face>, mention: Id, r: Record)
    requires r in PlanHead(faces, mention)
    ensures || r == OtherRecord
            || (exists f :: f in faces && r == FingerprintRecord(f.id, f.embedding))
            || (exists f :: f in faces && r == MentionRow(f.id, mention))
  {
    if r in MentionRows(UniqueIds(faces), mention) {
      var x :| x in UniqueIds(faces) && r == MentionRow(x, mention);
      var f :| f in faces && f.id == x;
    }
  }

  /** The status comes first; every face gets its fingerprint and its mention row. */
  lemma FaceIsPlanned(h: Hash, faces: seq<Face>, mention: Id, f: Face)
    requires f in faces
    ensures var plan := PlanOf(h, faces, mention);
            plan[0] == OtherRecord && FingerprintRecord(f.id, f.embedding) in plan && MentionRow(f.id, mention) in plan
  {
    assert FingerprintRecord(f.id, f.embedding) in FingerprintRecords(faces);
    assert f.id in UniqueIds(faces);
    assert MentionRow(f.id, mention) in MentionRows(UniqueIds(faces), mention);
  }

  /** Every two different faces get an edge of that kind and weight, and a row at each end. */
  lemma PairIsPlanned(h: Hash, faces: seq<Face>, mention: Id, a: Id, b: Id, r: Record)
    requires ShowsBoth(faces, a, b)
    ensures exists e :: e in PlanOf(h, faces, mention) && e.EdgeRecord?
                        && JoinsPair(h, e, a, b, "CoOccurrence", 0.2)
    ensures r.EdgeRow? && JoinsPair(h, r, a, b, "CoOccurrence", 0.2) ==> r in PlanOf(h, faces, mention)
  {
    var ids := UniqueIds(faces);
    assert a in ids && b in ids;
    var i :| 0 <= i < |ids| && ids[i] == a;
    var j :| 0 <= j < |ids| && ids[j] == b;
    var k, l := if i < j then i else j, if i < j then j else i;
    forall q | q in CoOccurrence(h, ids[k], ids[l]) ensures q in PlanOf(h, faces, mention) {
      EveryPairIsPlanned(h, faces, mention, k, l, q);
    }
    JoinsEither(h, r, a, b);
    CoOccurrenceMeans(h, ids[k], ids[l], r);
    var e :| e in CoOccurrence(h, ids[k], ids[l]) && e.EdgeRecord?
             && JoinsPair(h, e, ids[k], ids[l], "CoOccurrence", 0.2);
    JoinsEither(h, e, a, b);
  }

  lemma JoinsEither(h: Hash, r: Record, a: Id, b: Id)
    ensures JoinsPair(h, r, a, b, "CoOccurrence", 0.2) <==> JoinsPair(h, r, b, a, "CoOccurrence", 0.2)
  {
    EdgeIdIsSymmetric(h, a.text, b.text, "CoOccurrence");
    assert {a, b} == {b, a};
  }

  // ---- Similarity edges ----

  function MatchKind(similarity: real): string {
    if similarity >= STRONG_MATCH_CUTOFF then STRONG_MATCH else MEDIUM_MATCH
  }

  function RecordsForHit(h: Hash, fp: Id, hit: Hit): seq<Record> {
    if hit.id == fp || hit.similarity < MIN_SIMILARITY_EDGE then []
    else Triple(h, fp, hit.id, Edge(fp, hit.id, MatchKind(hit.similarity), hit.similarity))
  }

  function RecordsForHits(h: Hash, fp: Id, hits: seq<Hit>): seq<Record> {
    if hits == [] then []
    else RecordsForHits(h, fp, hits[..|hits| - 1]) + RecordsForHit(h, fp, hits[|hits| - 1])
  }

  /** The edge to a similar face: strong from 0.95 on, weighted by the similarity. */
  function SimilarityEdge(fp: Id, hit: Hit): Edge {
    Edge(fp, hit.id, if hit.similarity >= 0.95 then "StrongMatch" else "MediumMatch", hit.similarity)
  }

  /** The hit is another face at similarity 0.85 or more, and `r` is one of the records that link it. */
  ghost predicate Links(h: Hash, fp: Id, hit: Hit, r: Record) {
    hit.id != fp && hit.similarity >= 0.85 && r in Triple(h, fp, hit.id, SimilarityEdge(fp, hit))
  }

  lemma LinksIff(h: Hash, fp: Id, hit: Hit, r: Record)
    ensures r in RecordsForHit(h, fp, hit) <==> Links(h, fp, hit, r)
  {
  }

  ghost predicate SomeLinks(h: Hash, fp: Id, hits: seq<Hit>, r: Record) {
    exists hit :: hit in hits && Links(h, fp, hit, r)
  }

  lemma SomeLinksSnoc(h: Hash, fp: Id, hits: seq<Hit>, hit: Hit, r: Record)
    ensures SomeLinks(h, fp, hits + [hit], r) <==> SomeLinks(h, fp, hits, r) || Links(h, fp, hit, r)
  {
    assert hit in hits + [hit] && forall x :: x in hits + [hit] <==> x in hits || x == hit;
  }

  lemma RecordsForHitsSnoc(h: Hash, fp: Id, hits: seq<Hit>, hit: Hit)
    ensures RecordsForHits(h, fp, hits + [hit]) == RecordsForHits(h, fp, hits) + RecordsForHit(h, fp, hit)
  {
    assert (hits + [hit])[..|hits|] == hits;
  }

  /** Exactly the other faces at similarity 0.85 or more are linked. */
  lemma {:induction false} LinkedIffSimilar(h: Hash, fp: Id, hits: seq<Hit>, r: Record)
    ensures r in RecordsForHits(h, fp, hits) <==> SomeLinks(h, fp, hits, r)
  {
    if hits != [] {
      var before, last := hits[..|hits| - 1], hits[|hits| - 1];
      LinkedIffSimilar(h, fp, before, r);
      LinksIff(h, fp, last, r);
      SomeLinksSnoc(h, fp, before, last, r);
      assert hits == before + [last];
      RecordsForHitsSnoc(h, fp, before, last);
    }
  }

  lemma {:induction false} RecordsForHitsOk(h: Hash, st: Store, fp: Id, hits: seq<Hit>)
    requires fp in st.fingerprints && forall hit | hit in hits :: hit.id in st.fingerprints
    ensures BatchOk(h, st, RecordsForHits(h, fp, hits))
  {
    if hits != [] {
      var n := |hits| - 1;
      var hit := hits[n];
      RecordsForHitsOk(h, st, fp, hits[..n]);
      var before := RecordsForHits(h, fp, hits[..n]);
      FingerprintsOnlyGrow(st, before);
      if hit.id != fp && hit.similarity >= MIN_SIMILARITY_EDGE {
        TripleOk(h, ApplyAll(st, before), fp, hit.id, Edge(fp, hit.id, MatchKind(hit.similarity), hit.similarity));
      }
      BatchAppend(h, st, before, RecordsForHit(h, fp, hit));
    }
  }

  /** The cache entries that the well-formed faces add, in order. */
  function EntriesOf(faces: seq<Face>): seq<Entry> {
    if faces == [] then [] else
      var f := faces[|faces| - 1];
      EntriesOf(faces[..|faces| - 1]) + (if f.embedding.Some? then [Entry(f.id, f.embedding.value)] else [])
  }

  /** The cache gains exactly the well-formed faces, in order. */
  lemma EntriesOfSnoc(faces: seq<Face>, f: Face)
    ensures EntriesOf(faces + [f]) ==
            EntriesOf(faces) + (match f.embedding case None => [] case Some(v) => [Entry(f.id, v)])
  {
    assert (faces + [f])[..|faces|] == faces;
  }

  /** The records planned for `faces` against a cache that starts with `entries`: each face sees its elder siblings. */
  function Emitted(h: Hash, entries: seq<Entry>, faces: seq<Face>, search: Search): seq<Record>
    requires Faithful(search)
  {
    if faces == [] then [] else
      var rest, f := faces[..|faces| - 1], faces[|faces| - 1];
      Emitted(h, entries, rest, search) +
      (if f.embedding.None? then [] else
         var index := FullIndex(entries + EntriesOf(rest));
         RecordsForHits(h, f.id, HitsOf(index, f.embedding.value, NEIGHBOR_QUERY_K, search)))
  }

  /** What the j-th face finds at the m-th place of its search: a cached face or an elder sibling. */
  ghost predicate FoundAt(entries: seq<Entry>, faces: seq<Face>, search: Search, j: nat, m: nat, e: Entry) {
    && j < |faces| && faces[j].embedding.Some?
    && var known := entries + EntriesOf(faces[..j]);
       var items := search(Index(known), faces[j].embedding.value);
       known != [] && m < |items| && m < 5 && items[m].0 < |known| && e == known[items[m].0]
  }

  /** The edge of the face `f` to a similar entry `e`, or its row at one of them. */
  ghost predicate LinksTo(h: Hash, f: Face, e: Entry, r: Record) {
    && f.embedding.Some? && e.id != f.id
    && var s := Cosine(f.embedding.value, e.vec);
       s >= 0.85 && JoinsPair(h, r, f.id, e.id, if s >= 0.95 then "StrongMatch" else "MediumMatch", s)
  }

  lemma LinksMeans(h: Hash, f: Face, e: Entry, hit: Hit, r: Record)
    requires f.embedding.Some? && hit == Hit(e.id, Cosine(f.embedding.value, e.vec))
    ensures Links(h, f.id, hit, r) ==> LinksTo(h, f, e, r)
    ensures LinksTo(h, f, e, r) && (r.EdgeRecord? ==> r.edge.a == f.id) ==> Links(h, f.id, hit, r)
  {
    if LinksTo(h, f, e, r) && r.EdgeRecord? && r.edge.a == f.id {
      assert r.edge.b == e.id by { assert e.id in {r.edge.a, r.edge.b}; }
      assert r.edge == SimilarityEdge(f.id, hit);
    }
  }

  /** One hit of the j-th face for each place of its search, in order. */
  lemma HitAt(entries: seq<Entry>, faces: seq<Face>, search: Search, j: nat, hits: seq<Hit>, m: nat)
    requires Faithful(search) && j < |faces| && faces[j].embedding.Some? && m < |hits|
    requires hits == HitsOf(FullIndex(entries + EntriesOf(faces[..j])), faces[j].embedding.value, 5, search)
    ensures exists e :: FoundAt(entries, faces, search, j, m, e)
                        && hits[m] == Hit(e.id, Cosine(faces[j].embedding.value, e.vec))
  {
    var known := entries + EntriesOf(faces[..j]);
    HitsAreFirstItems(Index(known), faces[j].embedding.value, 5, search);
    var items := search(Index(known), faces[j].embedding.value);
    assert FoundAt(entries, faces, search, j, m, known[items[m].0]);
  }

  lemma HitLinks(h: Hash, entries: seq<Entry>, faces: seq<Face>, search: Search, j: nat, hits: seq<Hit>, m: nat,
                 r: Record)
    requires Faithful(search) && j < |faces| && faces[j].embedding.Some? && m < |hits|
    requires hits == HitsOf(FullIndex(entries + EntriesOf(faces[..j])), faces[j].embedding.value, 5, search)
    requires Links(h, faces[j].id, hits[m], r)
    ensures exists e :: FoundAt(entries, faces, search, j, m, e) && LinksTo(h, faces[j], e, r)
  {
    HitAt(entries, faces, search, j, hits, m);
    var e :| FoundAt(entries, faces, search, j, m, e)
             && hits[m] == Hit(e.id, Cosine(faces[j].embedding.value, e.vec));
    LinksMeans(h, faces[j], e, hits[m], r);
  }

  lemma HitPosition(h: Hash, fp: Id, hits: seq<Hit>, r: Record) returns (m: nat)
    requires r in RecordsForHits(h, fp, hits)
    ensures m < |hits| && Links(h, fp, hits[m], r)
  {
    LinkedIffSimilar(h, fp, hits, r);
    var hit :| hit in hits && Links(h, fp, hit, r);
    m :| 0 <= m < |hits| && hits[m] == hit;
  }

  /** What the j-th face contributes. */
  lemma FaceEmits(h: Hash, entries: seq<Entry>, faces: seq<Face>, search: Search, j: nat, r: Record)
    requires Faithful(search) && j < |faces| && faces[j].embedding.Some?
    requires r in RecordsForHits(h, faces[j].id,
                    HitsOf(FullIndex(entries + EntriesOf(faces[..j])), faces[j].embedding.value, 5, search))
    ensures exists m: nat, e :: FoundAt(entries, faces, search, j, m, e) && LinksTo(h, faces[j], e, r)
  {
    var hits := HitsOf(FullIndex(entries + EntriesOf(faces[..j])), faces[j].embedding.value, 5, search);
    var m := HitPosition(h, faces[j].id, hits, r);
    HitLinks(h, entries, faces, search, j, hits, m, r);
  }

  lemma {:induction false} EmittedPrefix(h: Hash, entries: seq<Entry>, faces: seq<Face>, search: Search, j: nat,
                                         r: Record)
    requires Faithful(search) && j < |faces| && faces[j].embedding.Some?
    requires var hits := HitsOf(FullIndex(entries + EntriesOf(faces[..j])), faces[j].embedding.value, 5, search);
             r in RecordsForHits(h, faces[j].id, hits)
    ensures r in Emitted(h, entries, faces, search)
  {
    if j < |faces| - 1 {
      var rest := faces[..|faces| - 1];
      assert rest[..j] == faces[..j];
      EmittedPrefix(h, entries, rest, search, j, r);
    }
  }

  /**
   Whatever a face finds among the first five items of its search, a cached face or an elder sibling of another id
   at similarity 0.85 or more, is linked to it: the edge and a row at each end are emitted.
   */
  lemma SimilarFacesAreLinked(h: Hash, entries: seq<Entry>, faces: seq<Face>, search: Search, j: nat, m: nat,
                              e: Entry, r: Record)
    requires Faithful(search) && FoundAt(entries, faces, search, j, m, e)
    requires LinksTo(h, faces[j], e, r) && (r.EdgeRecord? ==> r.edge.a == faces[j].id)
    ensures r in Emitted(h, entries, faces, search)
  {
    var f, known := faces[j], entries + EntriesOf(faces[..j]);
    var hits := HitsOf(FullIndex(known), f.embedding.value, 5, search);
    HitsAreFirstItems(Index(known), f.embedding.value, 5, search);
    LinksMeans(h, f, e, hits[m], r);
    LinkedIffSimilar(h, f.id, hits, r);
    EmittedPrefix(h, entries, faces, search, j, r);
  }

  lemma {:induction false} EmittedOrigin(h: Hash, entries: seq<Entry>, faces: seq<Face>, search: Search, r: Record)
    returns (j: nat)
    requires Faithful(search) && r in Emitted(h, entries, faces, search)
    ensures j < |faces| && faces[j].embedding.Some?
    ensures r in RecordsForHits(h, faces[j].id,
                   HitsOf(FullIndex(entries + EntriesOf(faces[..j])), faces[j].embedding.value, 5, search))
  {
    var n := |faces| - 1;
    var rest := faces[..n];
    if r in Emitted(h, entries, rest, search) {
      j := EmittedOrigin(h, entries, rest, search, r);
      assert rest[..j] == faces[..j];
    } else {
      j := n;
    }
  }

  /** Nothing else is emitted. */
  lemma EmittedMeans(h: Hash, entries: seq<Entry>, faces: seq<Face>, search: Search, r: Record)
    requires Faithful(search) && r in Emitted(h, entries, faces, search)
    ensures exists j: nat, m: nat, e :: FoundAt(entries, faces, search, j, m, e) && LinksTo(h, faces[j], e, r)
  {
    var j := EmittedOrigin(h, entries, faces, search, r);
    FaceEmits(h, entries, faces, search, j, r);
  }

  /** The hit loop: one triple per sufficiently similar other face. */
  method RecordHits(h: Hash, fp: Id, hits: seq<Hit>) returns (records: seq<Record>)
    ensures records == RecordsForHits(h, fp, hits)
  {
    records := [];
    for j := 0 to |hits|
      invariant records == RecordsForHits(h, fp, hits[..j])
    {
      assert hits[..j + 1][..j] == hits[..j];
      var hit := hits[j];
      if hit.id == fp { continue; }
      if hit.similarity < MIN_SIMILARITY_EDGE { continue; }
      var kind := if hit.similarity >= STRONG_MATCH_CUTOFF then STRONG_MATCH else MEDIUM_MATCH;
      var eg := Id(EdgeId(h, fp.text, hit.id.text, kind));
      var edge := Edge(fp, hit.id, kind, hit.similarity);
      records := records + [EdgeRecord(eg, edge), EdgeRow(fp, eg), EdgeRow(hit.id, eg)];
    }
    assert hits[..|hits|] == hits;
  }

  /** The face loop of `emit_similarity_edges_for_faces`, run alone. */
  method EmitSimilarityEdges(cache: Cache, h: Hash, faces: seq<Face>, search: Search) returns (records: seq<Record>)
    requires Coherent(cache.State()) && Faithful(search)
    modifies cache
    ensures Coherent(cache.State()) && cache.entries == old(cache.entries) + EntriesOf(faces)
    ensures records == Emitted(h, old(cache.entries), faces, search)
  {
    records := [];
    ghost var start := cache.entries;
    for i := 0 to |faces|
      invariant Coherent(cache.State())
      invariant cache.entries == start + EntriesOf(faces[..i])
      invariant records == Emitted(h, start, faces[..i], search)
    {
      var f := faces[i];
      assert faces[..i + 1][..i] == faces[..i] && faces[..i + 1][i] == f;
      if f.embedding.None? {
        continue;
      }
      var hits := cache.Nearest(f.embedding.value, NEIGHBOR_QUERY_K, search);
      var found := RecordHits(h, f.id, hits);
      records := records + found;
      AddKeepsCoherent(cache.State(), Entry(f.id, f.embedding.value));
      cache.AddEntry(Entry(f.id, f.embedding.value));
    }
    assert faces[..|faces|] == faces;
  }

  ghost predicate EntriesStored(st: Store, es: seq<Entry>) {
    forall e | e in es :: e.id in st.fingerprints
  }

  lemma {:induction false} EntriesOfStored(st: Store, faces: seq<Face>)
    requires FacesStored(st, faces)
    ensures EntriesStored(st, EntriesOf(faces))
  {
    if faces != [] {
      EntriesOfStored(st, faces[..|faces| - 1]);
    }
  }

  lemma HitsStored(st: Store, es: seq<Entry>, query: Embedding, search: Search)
    requires Faithful(search) && EntriesStored(st, es)
    ensures forall hit | hit in HitsOf(FullIndex(es), query, NEIGHBOR_QUERY_K, search) :: hit.id in st.fingerprints
  {
  }

  /** The emitted records are a good batch on a store that holds the faces and every cached fingerprint. */
  lemma {:induction false} EmittedOk(h: Hash, st: Store, entries: seq<Entry>, faces: seq<Face>, search: Search)
    requires Faithful(search) && EntriesStored(st, entries) && FacesStored(st, faces)
    ensures BatchOk(h, st, Emitted(h, entries, faces, search))
  {
    if faces != [] {
      var rest, f := faces[..|faces| - 1], faces[|faces| - 1];
      EmittedOk(h, st, entries, rest, search);
      if f.embedding.Some? {
        EntriesOfStored(st, rest);
        var known := entries + EntriesOf(rest);
        HitsStored(st, known, f.embedding.value, search);
        var hits := HitsOf(FullIndex(known), f.embedding.value, NEIGHBOR_QUERY_K, search);
        HitsAppend(h, st, Emitted(h, entries, rest, search), f.id, hits);
      } else {
        assert Emitted(h, entries, faces, search) == Emitted(h, entries, rest, search);
      }
    }
  }

  lemma HitsAppend(h: Hash, st: Store, rs: seq<Record>, fp: Id, hits: seq<Hit>)
    requires BatchOk(h, st, rs) && fp in st.fingerprints && forall hit | hit in hits :: hit.id in st.fingerprints
    ensures BatchOk(h, st, rs + RecordsForHits(h, fp, hits))
  {
    FingerprintsOnlyGrow(st, rs);
    RecordsForHitsOk(h, ApplyAll(st, rs), fp, hits);
    BatchAppend(h, st, rs, RecordsForHits(h, fp, hits));
  }
}
