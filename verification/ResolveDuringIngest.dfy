/**
 A Persona query that runs while photos are being ingested. Fingerprint ids are hashes of their
 content, so an id stands for one embedding; hence rewriting a similarity edge rewrites the same
 edge, and the store that interleaved ingests leave only gains records.
 */
module ResolveDuringIngest {
  import opened Wrappers
  import opened FingerprintGraph
  import opened FingerprintKeys
  import opened FingerprintStore
  import opened FaceAnnCache
  import opened PhotoIngest
  import opened IngestMachine
  import LiveResolver
  import Resolver

  /** The embedding that an id stands for; None for other kinds and malformed faces. */
  type Content = Id -> Option<Embedding>

  ghost predicate FacesFit(vec: Content, fs: seq<Face>) {
    forall f | f in fs :: f.embedding == vec(f.id)
  }

  ghost predicate EntriesFit(vec: Content, es: seq<Entry>) {
    forall e | e in es :: vec(e.id) == Some(e.vec)
  }

  /** The kinds of edge that ingests write. */
  predicate IsDerived(kind: string) {
    kind == CO_OCCURRENCE || kind == STRONG_MATCH || kind == MEDIUM_MATCH
  }

  /** The weight of an edge that ingests write is determined by its ends and kind. */
  ghost predicate EdgeFits(vec: Content, e: Edge) {
    && (e.kind == CO_OCCURRENCE ==> e.weight == CO_OCCURRENCE_WEIGHT)
    && (e.kind == STRONG_MATCH || e.kind == MEDIUM_MATCH ==>
          vec(e.a).Some? && vec(e.b).Some? && e.weight == Cosine(vec(e.a).value, vec(e.b).value))
  }

  ghost predicate RecordFits(vec: Content, r: Record) {
    match r
    case FingerprintRecord(id, face) => face == vec(id)
    case EdgeRecord(_, e) => IsDerived(e.kind) && EdgeFits(vec, e)
    case _ => true
  }

  ghost predicate RecordsFit(vec: Content, rs: seq<Record>) {
    forall r | r in rs :: RecordFits(vec, r)
  }

  ghost predicate StoreFits(vec: Content, st: Store) {
    && (forall id | id in st.faces :: vec(id) == Some(st.faces[id]))
    && (forall id | id in st.edges :: EdgeFits(vec, st.edges[id]))
  }

  ghost predicate PhaseFits(vec: Content, ph: Phase) {
    FacesFit(vec, ph.faces) && RecordsFit(vec, RestOf(ph)) && (ph.Replacing? ==> EntriesFit(vec, ph.snapshot))
  }

  ghost predicate TasksFit(vec: Content, w: World) {
    forall t | t in w.tasks :: PhaseFits(vec, w.tasks[t])
  }

  ghost predicate WorldFits(vec: Content, w: World) {
    StoreFits(vec, w.store) && EntriesFit(vec, w.cache.entries) && TasksFit(vec, w)
  }

  // ---- Writes only add ----

  /** Two edges under one id are the same edge, up to the order of its ends. */
  lemma RewriteIsSame(h: Hash, vec: Content, st: Store, id: Id, e: Edge)
    requires Injective(h) && StoreInv(h, st) && EdgeWellFormed(h, st, id, e) && id in st.edges
    requires EdgeFits(vec, st.edges[id]) && EdgeFits(vec, e) && IsDerived(e.kind)
    ensures LiveResolver.SameEdge(st.edges[id], e)
  {
    var f := st.edges[id];
    OverwriteKeepsEnds(h, st, id, e);
    EdgeIdIdentifiesEdge(h, f.a.text, f.b.text, f.kind, e.a.text, e.b.text, e.kind);
    assert (f.a == e.a && f.b == e.b) || (f.a == e.b && f.b == e.a) by {
      assert f.a in {e.a, e.b} && f.b in {e.a, e.b} && e.a in {f.a, f.b} && e.b in {f.a, f.b};
    }
    if e.kind != CO_OCCURRENCE {
      CosineIsSymmetric(vec(e.a).value, vec(e.b).value);
    }
  }

  lemma RowsAccrete(st: Store, r: Record)
    ensures forall x, id :: HasRow(st, x, id) ==> HasRow(Apply(st, r), x, id)
  {
    forall x, id { RowsAfter(st, r, x, id); }
  }

  lemma RewriteAccretes(st: Store, r: Record)
    requires r.EdgeRecord? && r.id in st.edges ==> LiveResolver.SameEdge(st.edges[r.id], r.edge)
    ensures LiveResolver.Accretes(st, Apply(st, r))
  {
    RowsAccrete(st, r);
  }

  lemma WriteFits(vec: Content, st: Store, r: Record)
    requires StoreFits(vec, st) && RecordFits(vec, r)
    ensures StoreFits(vec, Apply(st, r))
  {
  }

  lemma WriteAccretes(h: Hash, vec: Content, st: Store, r: Record)
    requires Injective(h) && StoreInv(h, st) && Writable(h, st, r) && StoreFits(vec, st) && RecordFits(vec, r)
    ensures LiveResolver.Accretes(st, Apply(st, r)) && StoreFits(vec, Apply(st, r))
  {
    if r.EdgeRecord? && r.id in st.edges {
      RewriteIsSame(h, vec, st, r.id, r.edge);
    }
    RewriteAccretes(st, r);
    WriteFits(vec, st, r);
  }

  // ---- Planned records fit ----

  lemma PairRecordFits(h: Hash, vec: Content, pairs: seq<Pair>, r: Record)
    requires r in CoOccurrences(h, pairs)
    ensures RecordFits(vec, r)
  {
    var k := CoOccurrenceOrigin(h, pairs, r);
  }

  lemma PlannedRecordsFit(h: Hash, vec: Content, faces: seq<Face>, mention: Id)
    requires FacesFit(vec, faces)
    ensures RecordsFit(vec, PlanOf(h, faces, mention))
  {
    forall r | r in PlanOf(h, faces, mention) ensures RecordFits(vec, r) {
      if faces != [] {
        var pairs := AllPairs(UniqueIds(faces));
        if r in CoOccurrences(h, pairs) {
          PairRecordFits(h, vec, pairs, r);
        } else {
          assert r in PlanHead(faces, mention);
          HeadFits(vec, faces, mention, r);
        }
      }
    }
  }

  lemma HeadFits(vec: Content, faces: seq<Face>, mention: Id, r: Record)
    requires FacesFit(vec, faces) && r in PlanHead(faces, mention)
    ensures RecordFits(vec, r)
  {
    if r in FingerprintRecords(faces) {
      var f :| f in faces && r == FingerprintRecord(f.id, f.embedding);
    }
  }

  lemma HitsFit(h: Hash, vec: Content, c: CacheState, f: Face, hits: seq<Hit>)
    requires Coherent(c) && EntriesFit(vec, c.entries) && f.embedding.Some? && f.embedding == vec(f.id)
    requires HitsFrom(c.index, f.embedding.value, hits)
    ensures RecordsFit(vec, RecordsForHits(h, f.id, hits))
  {
    forall r | r in RecordsForHits(h, f.id, hits) ensures RecordFits(vec, r) {
      LinkedIffSimilar(h, f.id, hits, r);
      var hit :| hit in hits && Links(h, f.id, hit, r);
      HitFits(vec, c, f, hit, hits);
      LinkFits(h, vec, f.id, hit, r);
    }
  }

  lemma LinkFits(h: Hash, vec: Content, fp: Id, hit: Hit, r: Record)
    requires Links(h, fp, hit, r)
    requires IsDerived(SimilarityEdge(fp, hit).kind) && EdgeFits(vec, SimilarityEdge(fp, hit))
    ensures RecordFits(vec, r)
  {
  }

  lemma HitFits(vec: Content, c: CacheState, f: Face, hit: Hit, hits: seq<Hit>)
    requires Coherent(c) && EntriesFit(vec, c.entries) && f.embedding.Some? && f.embedding == vec(f.id)
    requires HitsFrom(c.index, f.embedding.value, hits) && hit in hits
    ensures IsDerived(SimilarityEdge(f.id, hit).kind) && EdgeFits(vec, SimilarityEdge(f.id, hit))
  {
    var e :| e in c.index.value.points && e.id == hit.id && hit.similarity == Cosine(f.embedding.value, e.vec);
    assert e in c.entries;
  }

  // ---- Steps ----

  /** Photos bring faces whose ids stand for their embeddings. */
  ghost predicate BringsFit(vec: Content, c: Choice) {
    c.Begin? ==> FacesFit(vec, c.faces)
  }

  lemma PhaseStaysFit(h: Hash, vec: Content, w: World, t: Task, c: Choice)
    requires Inv(h, w) && WorldFits(vec, w) && CanStep(w, t, c) && BringsFit(vec, c)
    ensures PhaseFits(vec, Step(h, w, t, c).tasks[t])
  {
    if c.Begin? {
      PlannedRecordsFit(h, vec, c.faces, c.mention);
    } else {
      var ph, ph' := w.tasks[t], Step(h, w, t, c).tasks[t];
      assert PhaseFits(vec, ph);
      FacesStay(h, w, t, c);
      if ph.Reading? {
        HitsFit(h, vec, w.cache, ph.faces[ph.i], c.hits);
        assert RestOf(ph') == ph.out + RecordsForHits(h, ph.faces[ph.i].id, c.hits);
      } else if ph.Rebuilding? {
        assert ph'.Replacing? ==> forall e | e in ph'.snapshot :: StoredFace(w.store, e);
      } else {
        RestShrinks(h, w, t, c);
      }
    }
  }

  lemma FacesStay(h: Hash, w: World, t: Task, c: Choice)
    requires CanStep(w, t, c) && !c.Begin?
    ensures Step(h, w, t, c).tasks[t].faces == w.tasks[t].faces
  {
  }

  lemma RestShrinks(h: Hash, w: World, t: Task, c: Choice)
    requires CanStep(w, t, c) && !c.Begin? && !w.tasks[t].Reading? && !w.tasks[t].Rebuilding?
    ensures var ph' := Step(h, w, t, c).tasks[t];
            !ph'.Replacing? && forall r | r in RestOf(ph') :: r in RestOf(w.tasks[t])
  {
  }

  lemma NextRecordIsWritable(h: Hash, w: World, t: Task)
    requires Inv(h, w) && t in w.tasks && RestOf(w.tasks[t]) != []
    ensures Writable(h, w.store, RestOf(w.tasks[t])[0])
  {
    assert PhaseOk(h, w, w.tasks[t]);
  }

  lemma StoreStaysFit(h: Hash, vec: Content, w: World, t: Task, c: Choice)
    requires Injective(h) && Inv(h, w) && WorldFits(vec, w) && CanStep(w, t, c)
    ensures StoreFits(vec, Step(h, w, t, c).store) && LiveResolver.Accretes(w.store, Step(h, w, t, c).store)
  {
    StepWrites(h, w, t, c);
    if Step(h, w, t, c).store != w.store {
      var r := RestOf(w.tasks[t])[0];
      assert PhaseFits(vec, w.tasks[t]) && r in RestOf(w.tasks[t]);
      NextRecordIsWritable(h, w, t);
      WriteAccretes(h, vec, w.store, r);
    }
  }

  lemma CacheStaysFit(h: Hash, vec: Content, w: World, t: Task, c: Choice)
    requires WorldFits(vec, w) && CanStep(w, t, c)
    ensures EntriesFit(vec, Step(h, w, t, c).cache.entries)
  {
    if !c.Begin? {
      assert PhaseFits(vec, w.tasks[t]);
      if w.tasks[t].Adding? {
        assert w.tasks[t].faces[w.tasks[t].i] in w.tasks[t].faces;
      }
    }
  }

  ghost predicate NextFit(h: Hash, vec: Content, w: World, w': World) {
    exists t, c :: CanStep(w, t, c) && BringsFit(vec, c) && w' == Step(h, w, t, c)
  }

  lemma NextKeepsFit(h: Hash, vec: Content, w: World, w': World)
    requires Injective(h) && Inv(h, w) && WorldFits(vec, w) && NextFit(h, vec, w, w')
    ensures Inv(h, w') && WorldFits(vec, w') && LiveResolver.Accretes(w.store, w'.store)
  {
    var t, c :| CanStep(w, t, c) && BringsFit(vec, c) && w' == Step(h, w, t, c);
    StepKeepsInv(h, w, t, c);
    StoreStaysFit(h, vec, w, t, c);
    CacheStaysFit(h, vec, w, t, c);
    PhaseStaysFit(h, vec, w, t, c);
    OthersStay(h, w, t, c);
  }

  // ---- Whole runs ----

  /** A run, on a store whose records fit, in which every photo brings faces that fit. */
  ghost predicate IsFitRun(h: Hash, vec: Content, run: seq<World>) {
    && run != [] && Booted(h, run[0]) && StoreFits(vec, run[0].store)
    && forall i, j | 0 <= i < j < |run| && j == i + 1 :: NextFit(h, vec, run[i], run[j])
  }

  lemma FitHolds(h: Hash, vec: Content, run: seq<World>, n: nat)
    requires Injective(h) && IsFitRun(h, vec, run) && n < |run|
    ensures Inv(h, run[n]) && WorldFits(vec, run[n])
  {
    ghost var next := (w, w') => NextFit(h, vec, w, w');
    ghost var keeps := (w: World) => Inv(h, w) && WorldFits(vec, w);
    forall w, w' | next(w, w') && keeps(w) ensures keeps(w') {
      NextKeepsFit(h, vec, w, w');
    }
    StretchKeeps(run, 0, n, next, keeps);
  }

  lemma StoresAccrete(h: Hash, vec: Content, run: seq<World>, m: nat, n: nat)
    requires Injective(h) && IsFitRun(h, vec, run) && m <= n < |run|
    ensures LiveResolver.Accretes(run[m].store, run[n].store)
  {
    var first := run[m].store;
    ghost var next := (w, w') => NextFit(h, vec, w, w');
    ghost var keeps := (w: World) => Inv(h, w) && WorldFits(vec, w) && LiveResolver.Accretes(first, w.store);
    forall w, w' | next(w, w') && keeps(w) ensures keeps(w') {
      NextKeepsFit(h, vec, w, w');
      LiveResolver.AccretesTransitive(first, w.store, w'.store);
    }
    FitHolds(h, vec, run, m);
    StretchKeeps(run, m, n, next, keeps);
  }

  lemma StoreIsSane(h: Hash, st: Store)
    requires StoreInv(h, st)
    ensures LiveResolver.Sane(st)
  {
    forall id | id in st.edges ensures st.edges[id].a in st.fingerprints && st.edges[id].b in st.fingerprints {
      assert EdgeWellFormed(h, st, id, st.edges[id]);
    }
  }

  /** The stores are those of the run at some moments, in order. */
  ghost predicate TakenFrom(run: seq<World>, times: seq<nat>, stores: seq<Store>) {
    && |times| == |stores|
    && (forall i | 0 <= i < |times| :: times[i] < |run| && stores[i] == run[times[i]].store)
    && (forall i, j | 0 <= i < j < |times| && j == i + 1 :: times[i] <= times[j])
  }

  lemma IngestGrows(h: Hash, vec: Content, run: seq<World>, times: seq<nat>, stores: seq<Store>)
    requires Injective(h) && IsFitRun(h, vec, run) && TakenFrom(run, times, stores)
    ensures LiveResolver.Grow(stores)
  {
    forall i | 0 <= i < |stores| ensures LiveResolver.Sane(stores[i]) {
      FitHolds(h, vec, run, times[i]);
      StoreIsSane(h, stores[i]);
    }
    forall i, j | 0 <= i < j < |stores| && j == i + 1 ensures LiveResolver.Accretes(stores[i], stores[j]) {
      StoresAccrete(h, vec, run, times[i], times[j]);
    }
  }

  /**
   A resolution whose queries interleave in any way with any ingests, failing ones included, never reports a dangling
   edge, reports as missing only seeds absent at its first query, and its fingerprints lie between the components in
   the stores of its first and its last query.
   */
  lemma ResolvesBetween(h: Hash, vec: Content, run: seq<World>, times: seq<nat>, stores: seq<Store>, spec: PersonaSpec,
                        ls: seq<LiveResolver.Live>)
    requires Injective(h) && IsFitRun(h, vec, run) && TakenFrom(run, times, stores)
    requires LiveResolver.IsResolution(spec, stores, ls) && LiveResolver.Ended(ls[|ls| - 1])
    ensures var s, n := ls[|ls| - 1].s, |ls| - 1;
            && s.d.danglingEdges == []
            && (forall y | y in s.d.missingSeeds :: y in spec.seeds && y !in stores[0].fingerprints)
            && Component(stores[0], spec, SeedSet(spec)) <= s.visited
            && s.visited <= Component(stores[n], spec, SeedSet(spec))
  {
    IngestGrows(h, vec, run, times, stores);
    LiveResolver.LiveResultLiesBetween(spec, stores, ls);
  }
}
