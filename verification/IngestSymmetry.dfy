/**
 Junction rows come in pairs: in every interleaving of ingests whose record writes succeed, on a
 store whose rows are symmetric, once no task has records left to write, a row at one endpoint comes
 with a row at the other, so single-seed Personas partition the fingerprints.
 */
module IngestSymmetry {
  import opened Wrappers
  import opened FingerprintGraph
  import opened FingerprintKeys
  import opened FingerprintStore
  import opened FaceAnnCache
  import opened PhotoIngest
  import opened IngestMachine
  import Resolver
  import ResolverLaws

  /** `e` is the key of an edge between `x` and `y`. */
  ghost predicate Mates(h: Hash, x: Id, y: Id, e: Id) {
    && x != y && |x.text| == |y.text| == ID_LENGTH
    && exists k :: e.text == EdgeId(h, x.text, y.text, k)
  }

  function TaskRest(w: World, t: Task): seq<Record> {
    if t in w.tasks then RestOf(w.tasks[t]) else []
  }

  ghost predicate Awaited(w: World, y: Id, e: Id) {
    exists t :: EdgeRow(y, e) in TaskRest(w, t)
  }

  /** Every row of the batch has its mate in the batch or already in the store. */
  ghost predicate BatchPaired(h: Hash, st: Store, rest: seq<Record>) {
    forall x, e | EdgeRow(x, e) in rest ::
      exists y :: Mates(h, x, y, e) && (EdgeRow(y, e) in rest || HasRow(st, y, e))
  }

  ghost predicate BatchesPaired(h: Hash, w: World) {
    forall t :: BatchPaired(h, w.store, TaskRest(w, t))
  }

  ghost predicate RowPaired(h: Hash, w: World, x: Id, e: Id) {
    exists y :: Mates(h, x, y, e) && (HasRow(w.store, y, e) || Awaited(w, y, e))
  }

  /** Every stored row has its mate in the store or among the records still to be written. */
  ghost predicate RowsPaired(h: Hash, w: World) {
    forall x, e | HasRow(w.store, x, e) :: RowPaired(h, w, x, e)
  }

  ghost predicate Balanced(h: Hash, w: World) {
    BatchesPaired(h, w) && RowsPaired(h, w)
  }

  // ---- Planned batches are paired ----

  lemma TripleIsPaired(h: Hash, a: Id, b: Id, e: Edge, rest: seq<Record>, x: Id, id: Id)
    requires a != b && |a.text| == |b.text| == ID_LENGTH
    requires EdgeRow(x, id) in Triple(h, a, b, e) && forall r | r in Triple(h, a, b, e) :: r in rest
    ensures RecordPaired(h, rest, x, id)
  {
    var t := Triple(h, a, b, e);
    EdgeIdIsSymmetric(h, a.text, b.text, e.kind);
    assert t[1] == EdgeRow(a, id) && t[2] == EdgeRow(b, id);
    assert t[1] in rest && t[2] in rest;
    if x == a {
      assert Mates(h, x, b, id);
    } else {
      assert Mates(h, x, a, id);
    }
  }

  ghost predicate RecordPaired(h: Hash, rest: seq<Record>, x: Id, e: Id) {
    exists y :: Mates(h, x, y, e) && EdgeRow(y, e) in rest
  }

  lemma RecordsArePaired(h: Hash, st: Store, rest: seq<Record>)
    requires forall x, e | EdgeRow(x, e) in rest :: RecordPaired(h, rest, x, e)
    ensures BatchPaired(h, st, rest)
  {
    forall x, e | EdgeRow(x, e) in rest
      ensures exists y :: Mates(h, x, y, e) && (EdgeRow(y, e) in rest || HasRow(st, y, e))
    {
      assert RecordPaired(h, rest, x, e);
    }
  }

  lemma HitRowIsPaired(h: Hash, fp: Id, hits: seq<Hit>, x: Id, e: Id)
    requires |fp.text| == ID_LENGTH && forall hit | hit in hits :: |hit.id.text| == ID_LENGTH
    requires EdgeRow(x, e) in RecordsForHits(h, fp, hits)
    ensures RecordPaired(h, RecordsForHits(h, fp, hits), x, e)
  {
    var rest := RecordsForHits(h, fp, hits);
    LinkedIffSimilar(h, fp, hits, EdgeRow(x, e));
    var hit :| hit in hits && Links(h, fp, hit, EdgeRow(x, e));
    var edge := SimilarityEdge(fp, hit);
    forall r | r in Triple(h, fp, hit.id, edge) ensures r in rest {
      assert Links(h, fp, hit, r);
      LinkedIffSimilar(h, fp, hits, r);
    }
    TripleIsPaired(h, fp, hit.id, edge, rest, x, e);
  }

  lemma HitsArePaired(h: Hash, st: Store, fp: Id, hits: seq<Hit>)
    requires |fp.text| == ID_LENGTH && forall hit | hit in hits :: |hit.id.text| == ID_LENGTH
    ensures BatchPaired(h, st, RecordsForHits(h, fp, hits))
  {
    var rest := RecordsForHits(h, fp, hits);
    forall x, e | EdgeRow(x, e) in rest ensures RecordPaired(h, rest, x, e) {
      HitRowIsPaired(h, fp, hits, x, e);
    }
    RecordsArePaired(h, st, rest);
  }

  lemma PlanRowOrigin(h: Hash, faces: seq<Face>, mention: Id, x: Id, e: Id) returns (p: Pair)
    requires EdgeRow(x, e) in PlanOf(h, faces, mention)
    ensures p in AllPairs(UniqueIds(faces)) && EdgeRow(x, e) in CoOccurrence(h, p.a, p.b)
  {
    var pairs := AllPairs(UniqueIds(faces));
    if EdgeRow(x, e) in PlanHead(faces, mention) {
      HeadMeans(faces, mention, EdgeRow(x, e));
    }
    var k := CoOccurrenceOrigin(h, pairs, EdgeRow(x, e));
    p := pairs[k];
  }

  lemma PlanRowIsPaired(h: Hash, faces: seq<Face>, mention: Id, x: Id, e: Id)
    requires ProperFaces(faces) && EdgeRow(x, e) in PlanOf(h, faces, mention)
    ensures RecordPaired(h, PlanOf(h, faces, mention), x, e)
  {
    var rest, ids := PlanOf(h, faces, mention), UniqueIds(faces);
    var p := PlanRowOrigin(h, faces, mention, x, e);
    var i, j := PairOrigin(ids, |ids|, |ids| + 1, p);
    assert ids[i] in ids && ids[j] in ids;
    forall r | r in CoOccurrence(h, p.a, p.b) ensures r in rest {
      EveryPairIsPlanned(h, faces, mention, i, j, r);
    }
    TripleIsPaired(h, p.a, p.b, CoOccurrenceEdge(p.a, p.b), rest, x, e);
  }

  lemma PlanIsPaired(h: Hash, st: Store, faces: seq<Face>, mention: Id)
    requires ProperFaces(faces)
    ensures BatchPaired(h, st, PlanOf(h, faces, mention))
  {
    var rest := PlanOf(h, faces, mention);
    forall x, e | EdgeRow(x, e) in rest ensures RecordPaired(h, rest, x, e) {
      PlanRowIsPaired(h, faces, mention, x, e);
    }
    RecordsArePaired(h, st, rest);
  }

  lemma PairedAppend(h: Hash, st: Store, xs: seq<Record>, ys: seq<Record>)
    requires BatchPaired(h, st, xs) && BatchPaired(h, st, ys)
    ensures BatchPaired(h, st, xs + ys)
  {
  }

  // ---- Steps ----

  /** What was stored or awaited stays stored or awaited. */
  ghost predicate KeepsRows(w: World, w': World) {
    forall y, e | HasRow(w.store, y, e) || Awaited(w, y, e) :: HasRow(w'.store, y, e) || Awaited(w', y, e)
  }

  lemma RowPairedStays(h: Hash, w: World, w': World, x: Id, e: Id)
    requires RowPaired(h, w, x, e) && KeepsRows(w, w')
    ensures RowPaired(h, w', x, e)
  {
    var y :| Mates(h, x, y, e) && (HasRow(w.store, y, e) || Awaited(w, y, e));
  }

  lemma MoveKeepsBatches(h: Hash, w: World, w': World, t: Task, ph: Phase)
    requires BatchesPaired(h, w) && w'.tasks == w.tasks[t := ph] && w'.store == w.store
    requires BatchPaired(h, w.store, RestOf(ph))
    ensures BatchesPaired(h, w')
  {
    forall u ensures BatchPaired(h, w'.store, TaskRest(w', u)) {
      if u != t {
        assert TaskRest(w', u) == TaskRest(w, u);
        assert BatchPaired(h, w.store, TaskRest(w, u));
      }
    }
  }

  lemma MoveKeepsAwaited(w: World, w': World, t: Task, ph: Phase, y: Id, e: Id)
    requires w'.tasks == w.tasks[t := ph] && (forall r | r in TaskRest(w, t) :: r in RestOf(ph)) && Awaited(w, y, e)
    ensures Awaited(w', y, e)
  {
    var u :| EdgeRow(y, e) in TaskRest(w, u);
    assert EdgeRow(y, e) in TaskRest(w', u);
  }

  /** A step that writes no row and drops no pending record. */
  lemma KeepsBalanced(h: Hash, w: World, w': World, t: Task, ph: Phase)
    requires Balanced(h, w) && w'.tasks == w.tasks[t := ph] && w'.store == w.store
    requires (forall r | r in TaskRest(w, t) :: r in RestOf(ph)) && BatchPaired(h, w.store, RestOf(ph))
    ensures Balanced(h, w')
  {
    MoveKeepsBatches(h, w, w', t, ph);
    forall x, e | HasRow(w'.store, x, e) ensures RowPaired(h, w', x, e) {
      var y :| Mates(h, x, y, e) && (HasRow(w.store, y, e) || Awaited(w, y, e));
      if Awaited(w, y, e) {
        MoveKeepsAwaited(w, w', t, ph, y, e);
      }
    }
  }

  lemma PairedAfterWrite(h: Hash, st: Store, r: Record, rest: seq<Record>, all: seq<Record>)
    requires BatchPaired(h, st, all) && (all == rest || all == [r] + rest)
    ensures BatchPaired(h, Apply(st, r), rest)
  {
    forall x, e | EdgeRow(x, e) in rest
      ensures exists y :: Mates(h, x, y, e) && (EdgeRow(y, e) in rest || HasRow(Apply(st, r), y, e))
    {
      var y :| Mates(h, x, y, e) && (EdgeRow(y, e) in all || HasRow(st, y, e));
      RowsAfter(st, r, y, e);
    }
  }

  /** `w'` is `w` after task `t` wrote its next pending record. */
  ghost predicate Wrote(w: World, w': World, t: Task, ph: Phase) {
    && t in w.tasks && RestOf(w.tasks[t]) != [] && w'.tasks == w.tasks[t := ph]
    && RestOf(ph) == RestOf(w.tasks[t])[1..] && w'.store == Apply(w.store, RestOf(w.tasks[t])[0])
  }

  lemma WriteKeepsBatches(h: Hash, w: World, w': World, t: Task, ph: Phase)
    requires BatchesPaired(h, w) && Wrote(w, w', t, ph)
    ensures BatchesPaired(h, w')
  {
    var all := TaskRest(w, t);
    assert all == [all[0]] + all[1..];
    forall u ensures BatchPaired(h, w'.store, TaskRest(w', u)) {
      assert BatchPaired(h, w.store, TaskRest(w, u));
      PairedAfterWrite(h, w.store, all[0], TaskRest(w', u), TaskRest(w, u));
    }
  }

  lemma WriteKeepsRows(w: World, w': World, t: Task, ph: Phase)
    requires Wrote(w, w', t, ph)
    ensures KeepsRows(w, w')
  {
    var all := TaskRest(w, t);
    assert all == [all[0]] + all[1..];
    forall y, e | HasRow(w.store, y, e) || Awaited(w, y, e) ensures HasRow(w'.store, y, e) || Awaited(w', y, e) {
      RowsAfter(w.store, all[0], y, e);
      if !HasRow(w'.store, y, e) {
        var u :| EdgeRow(y, e) in TaskRest(w, u);
        assert EdgeRow(y, e) in TaskRest(w', u);
      }
    }
  }

  /** The row just written has its mate in the store or next in line. */
  lemma NewRowIsPaired(h: Hash, w: World, w': World, t: Task, ph: Phase, x: Id, e: Id)
    requires BatchesPaired(h, w) && Wrote(w, w', t, ph) && TaskRest(w, t)[0] == EdgeRow(x, e)
    ensures RowPaired(h, w', x, e)
  {
    var all := TaskRest(w, t);
    assert BatchPaired(h, w.store, all) && EdgeRow(x, e) in all;
    var y :| Mates(h, x, y, e) && (EdgeRow(y, e) in all || HasRow(w.store, y, e));
    WriteKeepsRows(w, w', t, ph);
    assert HasRow(w.store, y, e) || Awaited(w, y, e);
  }

  lemma WriteKeepsBalanced(h: Hash, w: World, w': World, t: Task, ph: Phase)
    requires Balanced(h, w) && Wrote(w, w', t, ph)
    ensures Balanced(h, w')
  {
    WriteKeepsBatches(h, w, w', t, ph);
    WriteKeepsRows(w, w', t, ph);
    forall x, e | HasRow(w'.store, x, e) ensures RowPaired(h, w', x, e) {
      RowsAfter(w.store, TaskRest(w, t)[0], x, e);
      if HasRow(w.store, x, e) {
        RowPairedStays(h, w, w', x, e);
      } else {
        NewRowIsPaired(h, w, w', t, ph, x, e);
      }
    }
  }

  /** The step is not a failed record write. */
  ghost predicate NoWriteFails(w: World, t: Task, c: Choice) {
    c.Fail? && t in w.tasks ==> !w.tasks[t].Planning? && !w.tasks[t].Linking?
  }

  lemma HitsAreProper(h: Hash, w: World, t: Task, c: Choice)
    requires Inv(h, w) && CanStep(w, t, c) && !c.Begin? && w.tasks[t].Reading?
    ensures |w.tasks[t].faces[w.tasks[t].i].id.text| == ID_LENGTH
    ensures forall hit | hit in c.hits :: |hit.id.text| == ID_LENGTH
  {
    assert PhaseOk(h, w, w.tasks[t]);
    assert w.tasks[t].faces[w.tasks[t].i] in w.tasks[t].faces;
    forall hit | hit in c.hits ensures |hit.id.text| == ID_LENGTH {
      var e :| e in w.cache.index.value.points && e.id == hit.id;
      assert e in w.cache.entries;
    }
  }

  lemma ReadRest(h: Hash, w: World, t: Task, c: Choice)
    requires CanStep(w, t, c) && !c.Begin? && w.tasks[t].Reading?
    ensures var ph, w' := w.tasks[t], Step(h, w, t, c);
            && w'.store == w.store && t in w'.tasks && w'.tasks == w.tasks[t := w'.tasks[t]]
            && RestOf(w'.tasks[t]) == TaskRest(w, t) + RecordsForHits(h, ph.faces[ph.i].id, c.hits)
  {
  }

  lemma ReadKeepsBalanced(h: Hash, w: World, t: Task, c: Choice)
    requires Inv(h, w) && Balanced(h, w) && CanStep(w, t, c) && !c.Begin? && w.tasks[t].Reading?
    ensures Balanced(h, Step(h, w, t, c))
  {
    var ph := w.tasks[t];
    var found := RecordsForHits(h, ph.faces[ph.i].id, c.hits);
    HitsAreProper(h, w, t, c);
    HitsArePaired(h, w.store, ph.faces[ph.i].id, c.hits);
    assert BatchPaired(h, w.store, TaskRest(w, t));
    PairedAppend(h, w.store, TaskRest(w, t), found);
    ReadRest(h, w, t, c);
    KeepsBalanced(h, w, Step(h, w, t, c), t, Step(h, w, t, c).tasks[t]);
  }

  predicate Writes(ph: Phase) {
    (ph.Planning? || ph.Linking?) && ph.rest != []
  }

  lemma BeginKeepsBalanced(h: Hash, w: World, t: Task, c: Choice)
    requires Balanced(h, w) && CanStep(w, t, c) && c.Begin?
    ensures Balanced(h, Step(h, w, t, c))
  {
    var w' := Step(h, w, t, c);
    PlanIsPaired(h, w.store, c.faces, c.mention);
    KeepsBalanced(h, w, w', t, w'.tasks[t]);
  }

  lemma WriteStepKeepsBalanced(h: Hash, w: World, t: Task, c: Choice)
    requires Balanced(h, w) && CanStep(w, t, c) && !c.Begin? && Writes(w.tasks[t]) && !c.Fail?
    ensures Balanced(h, Step(h, w, t, c))
  {
    var w' := Step(h, w, t, c);
    assert Wrote(w, w', t, w'.tasks[t]);
    WriteKeepsBalanced(h, w, w', t, w'.tasks[t]);
  }

  lemma RestStays(h: Hash, w: World, t: Task, c: Choice)
    requires CanStep(w, t, c) && NoWriteFails(w, t, c) && !c.Begin? && !Writes(w.tasks[t]) && !w.tasks[t].Reading?
    ensures var w' := Step(h, w, t, c);
            && w'.store == w.store && t in w'.tasks && w'.tasks == w.tasks[t := w'.tasks[t]]
            && RestOf(w'.tasks[t]) == RestOf(w.tasks[t])
  {
  }

  lemma QuietStepKeepsBalanced(h: Hash, w: World, t: Task, c: Choice)
    requires Balanced(h, w) && CanStep(w, t, c) && NoWriteFails(w, t, c)
    requires !c.Begin? && !Writes(w.tasks[t]) && !w.tasks[t].Reading?
    ensures Balanced(h, Step(h, w, t, c))
  {
    var w' := Step(h, w, t, c);
    RestStays(h, w, t, c);
    assert BatchPaired(h, w.store, TaskRest(w, t));
    KeepsBalanced(h, w, w', t, w'.tasks[t]);
  }

  lemma StepKeepsBalanced(h: Hash, w: World, t: Task, c: Choice)
    requires Inv(h, w) && Balanced(h, w) && CanStep(w, t, c) && NoWriteFails(w, t, c)
    ensures Balanced(h, Step(h, w, t, c))
  {
    if c.Begin? {
      BeginKeepsBalanced(h, w, t, c);
    } else if w.tasks[t].Reading? {
      ReadKeepsBalanced(h, w, t, c);
    } else if Writes(w.tasks[t]) {
      WriteStepKeepsBalanced(h, w, t, c);
    } else {
      QuietStepKeepsBalanced(h, w, t, c);
    }
  }

  // ---- Whole runs ----

  ghost predicate NextWithoutFailure(h: Hash, w: World, w': World) {
    exists t, c :: CanStep(w, t, c) && NoWriteFails(w, t, c) && w' == Step(h, w, t, c)
  }

  /** A run on a store with symmetric rows in which no record write fails. */
  ghost predicate IsCleanRun(h: Hash, run: seq<World>) {
    && run != [] && Booted(h, run[0]) && ResolverLaws.SymmetricRows(run[0].store)
    && forall i, j | 0 <= i < j < |run| && j == i + 1 :: NextWithoutFailure(h, run[i], run[j])
  }

  lemma EndpointMates(h: Hash, st: Store, x: Id, e: Id)
    requires StoreInv(h, st) && e in st.edges && st.edges[e].HasEndpoint(x)
    ensures Mates(h, x, st.edges[e].OtherEndpoint(x).value, e)
  {
    var edge := st.edges[e];
    assert EdgeWellFormed(h, st, e, edge);
    EdgeIdIsSymmetric(h, edge.a.text, edge.b.text, edge.kind);
  }

  lemma BootIsBalanced(h: Hash, w: World)
    requires Booted(h, w) && ResolverLaws.SymmetricRows(w.store)
    ensures Balanced(h, w)
  {
    forall x, e | HasRow(w.store, x, e) ensures RowPaired(h, w, x, e) {
      EndpointMates(h, w.store, x, e);
      assert HasRow(w.store, w.store.edges[e].OtherEndpoint(x).value, e);
    }
  }

  lemma NextKeepsBalanced(h: Hash, w: World, w': World)
    requires Injective(h) && Inv(h, w) && Balanced(h, w) && NextWithoutFailure(h, w, w')
    ensures Inv(h, w') && Balanced(h, w')
  {
    var t, c :| CanStep(w, t, c) && NoWriteFails(w, t, c) && w' == Step(h, w, t, c);
    StepKeepsInv(h, w, t, c);
    StepKeepsBalanced(h, w, t, c);
  }

  lemma BalancedHolds(h: Hash, run: seq<World>, n: nat)
    requires Injective(h) && IsCleanRun(h, run) && n < |run|
    ensures Inv(h, run[n]) && Balanced(h, run[n])
  {
    ghost var next := (w, w') => NextWithoutFailure(h, w, w');
    ghost var keeps := (w: World) => Inv(h, w) && Balanced(h, w);
    forall w, w' | next(w, w') && keeps(w) ensures keeps(w') {
      NextKeepsBalanced(h, w, w');
    }
    BootIsBalanced(h, run[0]);
    StretchKeeps(run, 0, n, next, keeps);
  }

  /** No task has a record left to write. */
  ghost predicate Quiet(w: World) {
    forall t | t in w.tasks :: RestOf(w.tasks[t]) == []
  }

  lemma MateIsOtherEndpoint(h: Hash, st: Store, x: Id, y: Id, e: Id)
    requires Injective(h) && StoreInv(h, st) && e in st.edges && st.edges[e].HasEndpoint(x) && Mates(h, x, y, e)
    ensures st.edges[e].OtherEndpoint(x) == Some(y)
  {
    var edge := st.edges[e];
    assert EdgeWellFormed(h, st, e, edge);
    var k :| e.text == EdgeId(h, x.text, y.text, k);
    EdgeIdIdentifiesEdge(h, edge.a.text, edge.b.text, edge.kind, x.text, y.text, k);
    assert y.text in {edge.a.text, edge.b.text};
  }

  lemma QuietIsSymmetric(h: Hash, w: World)
    requires Injective(h) && Inv(h, w) && Balanced(h, w) && Quiet(w)
    ensures ResolverLaws.SymmetricRows(w.store)
  {
    forall x, e | e in w.store.EdgeIdsTouching(x) && e in w.store.edges && w.store.edges[e].HasEndpoint(x)
      ensures e in w.store.EdgeIdsTouching(w.store.edges[e].OtherEndpoint(x).value)
    {
      assert HasRow(w.store, x, e) && RowPaired(h, w, x, e);
      var y :| Mates(h, x, y, e) && (HasRow(w.store, y, e) || Awaited(w, y, e));
      MateIsOtherEndpoint(h, w.store, x, y, e);
    }
  }

  /**
   After any interleaving of ingests whose writes succeed, once nothing is left to write, the junction rows
   are symmetric; so the single-seed Personas of any query partition the stored fingerprints.
   */
  lemma QuietRowsAreSymmetric(h: Hash, run: seq<World>, n: nat, spec: PersonaSpec,
                              x: Id, rx: Resolver.ResolveResult, y: Id, ry: Resolver.ResolveResult)
    requires Injective(h) && IsCleanRun(h, run) && n < |run| && Quiet(run[n])
    requires Resolver.Answers(run[n].store, spec.(seeds := [x]), rx)
    requires Resolver.Answers(run[n].store, spec.(seeds := [y]), ry)
    ensures ResolverLaws.SymmetricRows(run[n].store)
    ensures x in run[n].store.fingerprints ==> x in rx.fingerprintIds
    ensures rx.fingerprintIds == ry.fingerprintIds || rx.fingerprintIds !! ry.fingerprintIds
  {
    BalancedHolds(h, run, n);
    QuietIsSymmetric(h, run[n]);
    StoreInvServesResolver(h, run[n].store, spec);
    Resolver.KeyedIsUnmasked(run[n].store, spec);
    ResolverLaws.SingleSeedResultsPartition(run[n].store, spec, x, rx, y, ry);
  }
}
