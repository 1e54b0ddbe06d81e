/**
 Every interleaving of any number of photo ingests (`ingest_photo_faces`,
 src/fingerprints/ingest_photo.rs) with the one-time cache rebuild they race for
 (`ensure_cache_ready`, src/fingerprints/face_ann_cache.rs). One step is one record write,
 one flag or lock operation, or one critical section of the cache.
 */
module IngestMachine {
  import opened Wrappers
  import opened FingerprintGraph
  import opened FingerprintKeys
  import opened FingerprintStore
  import opened FaceAnnCache
  import opened PhotoIngest
  import Resolver

  type Task = nat

  /** Where a failing call left a task: a record write, the lock, the rebuild query, or an edge write. */
  datatype Stage = InPlanning | AwaitingLock | InRebuild | InLinking

  /** Where a task is. `out` collects planned edge records; `since` is how many entries a query must see. */
  datatype Phase =
    | Planning(faces: seq<Face>, rest: seq<Record>)
    | CheckFlag(faces: seq<Face>)
    | AwaitLock(faces: seq<Face>)
    | Recheck(faces: seq<Face>)
    | Rebuilding(faces: seq<Face>)
    | Replacing(faces: seq<Face>, snapshot: seq<Entry>)
    | Flushing(faces: seq<Face>)
    | Publishing(faces: seq<Face>)
    | Unlocking(faces: seq<Face>)
    | NextFace(faces: seq<Face>, i: nat, out: seq<Record>)
    | Querying(faces: seq<Face>, i: nat, out: seq<Record>)
    | Reading(faces: seq<Face>, i: nat, out: seq<Record>, since: nat)
    | Adding(faces: seq<Face>, i: nat, out: seq<Record>)
    | Linking(faces: seq<Face>, rest: seq<Record>)
    | Finished(faces: seq<Face>)
    | Failed(faces: seq<Face>, stage: Stage)

  /** What happened to the entry list, in order. */
  datatype Event = Replaced(snapshot: seq<Entry>) | Added(entry: Entry)

  datatype World = World(
    store: Store,
    cache: CacheState,
    ready: bool,
    lock: Option<Task>,
    tasks: map<Task, Phase>,
    log: seq<Event>
  )

  const START := World(EMPTY_STORE, EMPTY_CACHE, false, None, map[], [])

  /** What the environment decides: whether a call fails, in which order a query returns what it finds. */
  datatype Choice = Begin(faces: seq<Face>, mention: Id) | Go | Fail | Snapshot(es: seq<Entry>) | Found(hits: seq<Hit>)

  predicate StoredFace(st: Store, e: Entry) {
    e.id in st.faces && st.faces[e.id] == e.vec
  }

  /** What `rebuild_from_store` reads: every well-formed face in the store, once, in any order. */
  ghost predicate SnapshotOf(st: Store, es: seq<Entry>) {
    && (forall e :: e in es <==> StoredFace(st, e))
    && (forall i, j | 0 <= i < j < |es| :: es[i].id != es[j].id)
  }

  /** The hits a search of `index` may return. */
  ghost predicate HitsFrom(index: Option<Index>, query: Embedding, hits: seq<Hit>) {
    && |hits| <= NEIGHBOR_QUERY_K
    && forall hit | hit in hits ::
         index.Some? && exists e :: e in index.value.points && e.id == hit.id && hit.similarity == Cosine(query, e.vec)
  }

  /** The registry rows of a store: its well-formed faces are those that the store holds. */
  ghost predicate RegistryOf(st: Store, rows: seq<RegistryRow>, normalize: seq<real> -> Option<Embedding>) {
    && DistinctRows(rows)
    && forall e :: StoredFace(st, e) <==> exists row :: row in rows && EntryOf(row, normalize) == Some(e)
  }

  /** Reading the registry of a store gives a snapshot of it. */
  lemma RebuildReadsSnapshot(st: Store, rows: seq<RegistryRow>, normalize: seq<real> -> Option<Embedding>)
    requires RegistryOf(st, rows, normalize)
    ensures SnapshotOf(st, EntriesIn(rows, normalize))
  {
    EntriesInDistinct(rows, normalize);
    forall e { EntriesInMember(rows, normalize, e); }
  }

  ghost predicate CanStep(w: World, t: Task, c: Choice) {
    if c.Begin? then t !in w.tasks && ProperFaces(c.faces)
    else t in w.tasks && match w.tasks[t]
      case Planning(_, _) => c.Go? || c.Fail?
      case Linking(_, _) => c.Go? || c.Fail?
      case AwaitLock(_) => (c.Go? && w.lock.None?) || c.Fail?
      case Rebuilding(_) => (c.Snapshot? && SnapshotOf(w.store, c.es)) || c.Fail?
      case Reading(fs, i, _, _) =>
        c.Found? && i < |fs| && fs[i].embedding.Some? && HitsFrom(w.cache.index, fs[i].embedding.value, c.hits)
      case Querying(fs, i, _) => c.Go? && i < |fs|
      case Adding(fs, i, _) => c.Go? && i < |fs| && fs[i].embedding.Some?
      case Finished(_) => false
      case Failed(_, _) => false
      case _ => c.Go?
  }

  ghost function Moved(w: World, t: Task, ph: Phase): World {
    w.(tasks := w.tasks[t := ph])
  }

  /** One write of `write_records`, or its end. */
  ghost function WriteNext(w: World, t: Task, rest: seq<Record>, more: Phase, done: Phase): World {
    if rest == [] then Moved(w, t, done)
    else Moved(w.(store := Apply(w.store, rest[0])), t, more)
  }

  ghost function Step(h: Hash, w: World, t: Task, c: Choice): World
    requires CanStep(w, t, c)
  {
    if c.Begin? then Moved(w, t, Planning(c.faces, PlanOf(h, c.faces, c.mention)))
    else match w.tasks[t]
      case Planning(fs, rest) =>
        if c.Fail? then Moved(w, t, Failed(fs, InPlanning))
        else WriteNext(w, t, rest, Planning(fs, if rest == [] then [] else rest[1..]),
                       if fs == [] then Finished(fs) else CheckFlag(fs))
      case CheckFlag(fs) => Moved(w, t, if w.ready then NextFace(fs, 0, []) else AwaitLock(fs))
      case AwaitLock(fs) =>
        if c.Fail? then Moved(w, t, Failed(fs, AwaitingLock)) else Moved(w.(lock := Some(t)), t, Recheck(fs))
      case Recheck(fs) => Moved(w, t, if w.ready then Unlocking(fs) else Rebuilding(fs))
      case Rebuilding(fs) =>
        if c.Fail? then Moved(w.(lock := None), t, Failed(fs, InRebuild)) else Moved(w, t, Replacing(fs, c.es))
      case Replacing(fs, es) =>
        Moved(w.(cache := ReplacedBy(es), log := w.log + [Replaced(es)]), t, Flushing(fs))
      case Flushing(fs) => Moved(w.(cache := FlushOf(w.cache)), t, Publishing(fs))
      case Publishing(fs) => Moved(w.(ready := true), t, Unlocking(fs))
      case Unlocking(fs) => Moved(w.(lock := None), t, NextFace(fs, 0, []))
      case NextFace(fs, i, out) =>
        Moved(w, t, if i >= |fs| then (if out == [] then Finished(fs) else Linking(fs, out))
                    else if fs[i].embedding.None? then NextFace(fs, i + 1, out)
                    else Querying(fs, i, out))
      case Querying(fs, i, out) =>
        Moved(w.(cache := FlushOf(w.cache)), t, Reading(fs, i, out, |w.cache.entries|))
      case Reading(fs, i, out, _) => Moved(w, t, Adding(fs, i, out + RecordsForHits(h, fs[i].id, c.hits)))
      case Adding(fs, i, out) =>
        var e := Entry(fs[i].id, fs[i].embedding.value);
        Moved(w.(cache := AddTo(w.cache, e), log := w.log + [Added(e)]), t, NextFace(fs, i + 1, out))
      case Linking(fs, rest) =>
        if c.Fail? then Moved(w, t, Failed(fs, InLinking))
        else WriteNext(w, t, rest, Linking(fs, if rest == [] then [] else rest[1..]), Finished(fs))
      case _ => w
  }

  /** The records a task still has to write. */
  function RestOf(ph: Phase): seq<Record> {
    match ph
    case Planning(_, rest) => rest
    case Linking(_, rest) => rest
    case NextFace(_, _, out) => out
    case Querying(_, _, out) => out
    case Reading(_, _, out, _) => out
    case Adding(_, _, out) => out
    case _ => []
  }

  // ---- The invariant ----

  predicate HoldsLock(ph: Phase) {
    ph.Recheck? || ph.Rebuilding? || ph.Replacing? || ph.Flushing? || ph.Publishing? || ph.Unlocking?
  }

  /** The entry list that a log of replacements and additions leaves. */
  function EntriesAfter(log: seq<Event>): seq<Entry> {
    if log == [] then []
    else match log[|log| - 1]
      case Replaced(es) => es
      case Added(e) => EntriesAfter(log[..|log| - 1]) + [e]
  }

  /** At most one replacement, and no addition before it. */
  predicate RebuiltOnceThenAdds(log: seq<Event>) {
    log == [] || (log[0].Replaced? && forall i | 0 < i < |log| :: log[i].Added?)
  }

  ghost predicate LockPhaseOk(ph: Phase, ready: bool, log: seq<Event>) {
    && HoldsLock(ph)
    && (ph.Recheck? ==> (!ready ==> log == []))
    && (ph.Rebuilding? || ph.Replacing? ==> !ready && log == [])
    && (ph.Flushing? || ph.Publishing? ==> !ready && |log| == 1)
    && (ph.Unlocking? ==> ready)
  }

  ghost predicate FlagOk(w: World) {
    && (w.ready ==> w.log != [])
    && match w.lock
       case None => !w.ready ==> w.log == []
       case Some(t) => t in w.tasks && LockPhaseOk(w.tasks[t], w.ready, w.log)
  }

  ghost predicate LockOk(w: World) {
    forall t | t in w.tasks :: HoldsLock(w.tasks[t]) ==> w.lock == Some(t)
  }

  /** The first `n` well-formed faces are cached. */
  ghost predicate Cached(c: CacheState, fs: seq<Face>, n: nat) {
    n <= |fs| && forall j | 0 <= j < n :: fs[j].embedding.Some? ==> Entry(fs[j].id, fs[j].embedding.value) in c.entries
  }

  ghost predicate Looping(h: Hash, w: World, fs: seq<Face>, i: nat, out: seq<Record>) {
    w.ready && FacesStored(w.store, fs) && BatchOk(h, w.store, out) && Cached(w.cache, fs, i)
  }

  ghost predicate AtFace(fs: seq<Face>, i: nat) {
    i < |fs| && fs[i].embedding.Some?
  }

  ghost predicate Sees(c: CacheState, since: nat) {
    since > 0 ==> c.index.Some? && since <= c.indexedLen
  }

  ghost predicate PhaseOk(h: Hash, w: World, ph: Phase) {
    match ph
    case Planning(fs, rest) => BatchOk(h, w.store, rest) && FacesStored(ApplyAll(w.store, rest), fs)
    case Replacing(fs, es) => FacesStored(w.store, fs) && EntriesStored(w.store, es)
    case NextFace(fs, i, out) => Looping(h, w, fs, i, out)
    case Querying(fs, i, out) => Looping(h, w, fs, i, out) && AtFace(fs, i)
    case Reading(fs, i, out, since) => Looping(h, w, fs, i, out) && AtFace(fs, i) && Sees(w.cache, since)
    case Adding(fs, i, out) => Looping(h, w, fs, i, out) && AtFace(fs, i)
    case Linking(fs, rest) => Looping(h, w, fs, |fs|, rest)
    case Finished(fs) => fs == [] || (w.ready && Cached(w.cache, fs, |fs|))
    case Failed(fs, stage) => stage.InLinking? ==> w.ready && Cached(w.cache, fs, |fs|)
    case _ => FacesStored(w.store, ph.faces)
  }

  /** The part of the invariant that no single task owns. */
  ghost predicate Shared(h: Hash, w: World) {
    && StoreInv(h, w.store)
    && Coherent(w.cache) && EntriesStored(w.store, w.cache.entries)
    && w.cache.entries == EntriesAfter(w.log) && RebuiltOnceThenAdds(w.log)
    && FlagOk(w) && LockOk(w)
  }

  ghost predicate Inv(h: Hash, w: World) {
    Shared(h, w) && forall t | t in w.tasks :: PhaseOk(h, w, w.tasks[t])
  }

  // ---- What one task does leaves the others undisturbed ----

  ghost predicate CacheGrows(c: CacheState, c': CacheState) {
    && c.entries <= c'.entries
    && (c.index.Some? ==> c'.index.Some? && c.indexedLen <= c'.indexedLen)
  }

  ghost predicate Evolves(w: World, w': World) {
    && Grows(w.store, w'.store)
    && (w.ready ==> w'.ready && CacheGrows(w.cache, w'.cache))
  }

  lemma {:induction false} FingerprintsMonotone(st: Store, st': Store, rs: seq<Record>)
    requires st.fingerprints <= st'.fingerprints
    ensures ApplyAll(st, rs).fingerprints <= ApplyAll(st', rs).fingerprints
    decreases rs
  {
    if rs != [] {
      FingerprintsMonotone(Apply(st, rs[0]), Apply(st', rs[0]), rs[1..]);
    }
  }

  lemma CachedGrows(c: CacheState, c': CacheState, fs: seq<Face>, n: nat)
    requires CacheGrows(c, c') && Cached(c, fs, n)
    ensures Cached(c', fs, n)
  {
    forall e | e in c.entries ensures e in c'.entries {
      var i :| 0 <= i < |c.entries| && c.entries[i] == e;
      assert c'.entries[i] == e;
    }
  }

  lemma LoopingStable(h: Hash, w: World, w': World, fs: seq<Face>, i: nat, out: seq<Record>)
    requires Evolves(w, w') && Looping(h, w, fs, i, out)
    ensures Looping(h, w', fs, i, out)
  {
    BatchGrows(h, w.store, w'.store, out);
    CachedGrows(w.cache, w'.cache, fs, i);
  }

  lemma PhaseStable(h: Hash, w: World, w': World, ph: Phase)
    requires Evolves(w, w') && PhaseOk(h, w, ph)
    ensures PhaseOk(h, w', ph)
  {
    match ph
    case Planning(fs, rest) =>
      BatchGrows(h, w.store, w'.store, rest);
      FingerprintsMonotone(w.store, w'.store, rest);
    case NextFace(fs, i, out) => LoopingStable(h, w, w', fs, i, out);
    case Querying(fs, i, out) => LoopingStable(h, w, w', fs, i, out);
    case Reading(fs, i, out, _) => LoopingStable(h, w, w', fs, i, out);
    case Adding(fs, i, out) => LoopingStable(h, w, w', fs, i, out);
    case Linking(fs, rest) => LoopingStable(h, w, w', fs, |fs|, rest);
    case Finished(fs) => if fs != [] { CachedGrows(w.cache, w'.cache, fs, |fs|); }
    case Failed(fs, stage) => if stage.InLinking? { CachedGrows(w.cache, w'.cache, fs, |fs|); }
    case _ =>
  }

  /** What a phase expects does not depend on the other tasks. */
  lemma SamePhase(h: Hash, w: World, w': World, ph: Phase)
    requires w'.store == w.store && w'.cache == w.cache && w'.ready == w.ready && PhaseOk(h, w, ph)
    ensures PhaseOk(h, w', ph)
  {
  }

  /** A step keeps the invariant once it keeps the shared part and its own phase. */
  lemma Reassemble(h: Hash, w: World, w': World, t: Task, ph: Phase)
    requires Inv(h, w) && Evolves(w, w') && w'.tasks == w.tasks[t := ph]
    requires Shared(h, w') && PhaseOk(h, w', ph)
    ensures Inv(h, w')
  {
    forall u | u in w'.tasks ensures PhaseOk(h, w', w'.tasks[u]) {
      if u != t {
        PhaseStable(h, w, w', w.tasks[u]);
      }
    }
  }

  // ---- Each kind of step ----

  /** Steps that move a task between phases that do not hold the lock. */
  lemma QuietMove(h: Hash, w: World, t: Task, ph: Phase)
    requires Inv(h, w) && !HoldsLock(ph) && (t in w.tasks ==> !HoldsLock(w.tasks[t]))
    requires PhaseOk(h, w, ph)
    ensures Inv(h, Moved(w, t, ph))
  {
    var w' := Moved(w, t, ph);
    assert Grows(w.store, w'.store);
    assert FlagOk(w') by {
      if w.lock.Some? { assert w.lock.value != t; }
    }
    PhaseStable(h, w, w', ph);
    Reassemble(h, w, w', t, ph);
  }

  lemma WriteKeepsInv(h: Hash, w: World, t: Task, r: Record, ph: Phase)
    requires Injective(h) && Inv(h, w) && t in w.tasks && !HoldsLock(w.tasks[t]) && !HoldsLock(ph)
    requires Writable(h, w.store, r) && PhaseOk(h, w.(store := Apply(w.store, r)), ph)
    ensures Inv(h, Moved(w.(store := Apply(w.store, r)), t, ph))
  {
    var w' := Moved(w.(store := Apply(w.store, r)), t, ph);
    ApplyKeepsInv(h, w.store, r);
    ApplyGrows(h, w.store, r);
    assert FlagOk(w') by {
      if w.lock.Some? { assert w.lock.value != t; }
    }
    SamePhase(h, w.(store := w'.store), w', ph);
    Reassemble(h, w, w', t, ph);
  }

  lemma BeginStep(h: Hash, w: World, t: Task, c: Choice)
    requires Inv(h, w) && CanStep(w, t, c) && c.Begin?
    ensures Inv(h, Step(h, w, t, c))
  {
    PlanOk(h, w.store, c.faces, c.mention);
    QuietMove(h, w, t, Planning(c.faces, PlanOf(h, c.faces, c.mention)));
  }

  lemma PlanningStep(h: Hash, w: World, t: Task, c: Choice)
    requires Injective(h) && Inv(h, w) && CanStep(w, t, c) && !c.Begin? && w.tasks[t].Planning?
    ensures Inv(h, Step(h, w, t, c))
  {
    var Planning(fs, rest) := w.tasks[t];
    assert PhaseOk(h, w, w.tasks[t]);
    if c.Fail? {
      QuietMove(h, w, t, Failed(fs, InPlanning));
    } else if rest == [] {
      QuietMove(h, w, t, if fs == [] then Finished(fs) else CheckFlag(fs));
    } else {
      WriteKeepsInv(h, w, t, rest[0], Planning(fs, rest[1..]));
    }
  }

  lemma LinkingStep(h: Hash, w: World, t: Task, c: Choice)
    requires Injective(h) && Inv(h, w) && CanStep(w, t, c) && !c.Begin? && w.tasks[t].Linking?
    ensures Inv(h, Step(h, w, t, c))
  {
    var Linking(fs, rest) := w.tasks[t];
    assert PhaseOk(h, w, w.tasks[t]);
    if c.Fail? {
      QuietMove(h, w, t, Failed(fs, InLinking));
    } else if rest == [] {
      QuietMove(h, w, t, Finished(fs));
    } else {
      ApplyGrows(h, w.store, rest[0]);
      WriteKeepsInv(h, w, t, rest[0], Linking(fs, rest[1..]));
    }
  }

  lemma WaitingStep(h: Hash, w: World, t: Task, c: Choice)
    requires Inv(h, w) && CanStep(w, t, c) && !c.Begin? && (w.tasks[t].CheckFlag? || w.tasks[t].AwaitLock?)
    ensures Inv(h, Step(h, w, t, c))
  {
    var ph := w.tasks[t];
    assert PhaseOk(h, w, ph);
    if ph.CheckFlag? {
      QuietMove(h, w, t, if w.ready then NextFace(ph.faces, 0, []) else AwaitLock(ph.faces));
    } else if c.Fail? {
      QuietMove(h, w, t, Failed(ph.faces, AwaitingLock));
    } else {
      var w' := Step(h, w, t, c);
      Reassemble(h, w, w', t, Recheck(ph.faces));
    }
  }

  /** The steps of the lock holder that leave the cache alone. */
  lemma LockedStep(h: Hash, w: World, t: Task, c: Choice)
    requires Inv(h, w) && CanStep(w, t, c) && !c.Begin?
    requires w.tasks[t].Recheck? || w.tasks[t].Rebuilding? || w.tasks[t].Publishing? || w.tasks[t].Unlocking?
    ensures Inv(h, Step(h, w, t, c))
  {
    var ph := w.tasks[t];
    assert PhaseOk(h, w, ph) && w.lock == Some(t);
    var w' := Step(h, w, t, c);
    Reassemble(h, w, w', t, w'.tasks[t]);
  }

  lemma ReplaceKeepsShared(h: Hash, w: World, t: Task, es: seq<Entry>, fs: seq<Face>)
    requires Shared(h, w) && w.lock == Some(t) && !w.ready && w.log == [] && EntriesStored(w.store, es)
    ensures Shared(h, Moved(w.(cache := ReplacedBy(es), log := [Replaced(es)]), t, Flushing(fs)))
  {
    assert EntriesAfter([Replaced(es)]) == es;
  }

  /** The first critical section of `replace_all`; no task is past the flag yet. */
  lemma ReplaceStep(h: Hash, w: World, t: Task, c: Choice)
    requires Inv(h, w) && CanStep(w, t, c) && !c.Begin? && w.tasks[t].Replacing?
    ensures Inv(h, Step(h, w, t, c))
  {
    var Replacing(fs, es) := w.tasks[t];
    assert PhaseOk(h, w, w.tasks[t]) && w.lock == Some(t) && !w.ready && w.log == [];
    var w' := Moved(w.(cache := ReplacedBy(es), log := [Replaced(es)]), t, Flushing(fs));
    assert w.log + [Replaced(es)] == [Replaced(es)];
    ReplaceKeepsShared(h, w, t, es, fs);
    Reassemble(h, w, w', t, Flushing(fs));
  }

  lemma FlushStep(h: Hash, w: World, t: Task, c: Choice)
    requires Inv(h, w) && CanStep(w, t, c) && !c.Begin? && w.tasks[t].Flushing?
    ensures Inv(h, Step(h, w, t, c))
  {
    assert PhaseOk(h, w, w.tasks[t]) && w.lock == Some(t) && !w.ready;
    var w' := Step(h, w, t, c);
    FlushReflectsAll(w.cache);
    assert Shared(h, w');
    Reassemble(h, w, w', t, Publishing(w.tasks[t].faces));
  }

  lemma FaceStep(h: Hash, w: World, t: Task, c: Choice)
    requires Inv(h, w) && CanStep(w, t, c) && !c.Begin? && w.tasks[t].NextFace?
    ensures Inv(h, Step(h, w, t, c))
  {
    var NextFace(fs, i, out) := w.tasks[t];
    assert PhaseOk(h, w, w.tasks[t]);
    QuietMove(h, w, t, Step(h, w, t, c).tasks[t]);
  }

  /** `nearest` flushes in its first section, so its second section sees every entry added before the call. */
  lemma QueryStep(h: Hash, w: World, t: Task, c: Choice)
    requires Inv(h, w) && CanStep(w, t, c) && !c.Begin? && w.tasks[t].Querying?
    ensures Inv(h, Step(h, w, t, c))
  {
    assert PhaseOk(h, w, w.tasks[t]);
    var w' := Step(h, w, t, c);
    FlushReflectsAll(w.cache);
    assert FlagOk(w') by {
      if w.lock.Some? { assert w.lock.value != t; }
    }
    Reassemble(h, w, w', t, w'.tasks[t]);
  }

  lemma ReadStep(h: Hash, w: World, t: Task, c: Choice)
    requires Inv(h, w) && CanStep(w, t, c) && !c.Begin? && w.tasks[t].Reading?
    ensures Inv(h, Step(h, w, t, c))
  {
    var Reading(fs, i, out, since) := w.tasks[t];
    assert PhaseOk(h, w, w.tasks[t]);
    forall hit | hit in c.hits ensures hit.id in w.store.fingerprints {
      var e :| e in w.cache.index.value.points && e.id == hit.id;
      assert e in w.cache.entries;
    }
    HitsAppend(h, w.store, out, fs[i].id, c.hits);
    QuietMove(h, w, t, Adding(fs, i, out + RecordsForHits(h, fs[i].id, c.hits)));
  }

  lemma AddKeepsShared(h: Hash, w: World, t: Task, e: Entry, ph: Phase)
    requires Shared(h, w) && w.ready && t in w.tasks && !HoldsLock(w.tasks[t]) && !HoldsLock(ph)
    requires e.id in w.store.fingerprints
    ensures Shared(h, Moved(w.(cache := AddTo(w.cache, e), log := w.log + [Added(e)]), t, ph))
  {
    var w' := Moved(w.(cache := AddTo(w.cache, e), log := w.log + [Added(e)]), t, ph);
    AddKeepsCoherent(w.cache, e);
    assert w'.log[..|w'.log| - 1] == w.log;
    assert FlagOk(w') by {
      if w.lock.Some? { assert w.lock.value != t; }
    }
  }

  lemma AddStep(h: Hash, w: World, t: Task, c: Choice)
    requires Inv(h, w) && CanStep(w, t, c) && !c.Begin? && w.tasks[t].Adding?
    ensures Inv(h, Step(h, w, t, c))
  {
    var Adding(fs, i, out) := w.tasks[t];
    assert PhaseOk(h, w, w.tasks[t]);
    var w' := Step(h, w, t, c);
    var e := Entry(fs[i].id, fs[i].embedding.value);
    AddKeepsShared(h, w, t, e, NextFace(fs, i + 1, out));
    LoopingStable(h, w, w', fs, i, out);
    assert e in w'.cache.entries;
    assert PhaseOk(h, w', NextFace(fs, i + 1, out));
    Reassemble(h, w, w', t, NextFace(fs, i + 1, out));
  }

  lemma StepKeepsInv(h: Hash, w: World, t: Task, c: Choice)
    requires Injective(h) && Inv(h, w) && CanStep(w, t, c)
    ensures Inv(h, Step(h, w, t, c))
  {
    if c.Begin? {
      BeginStep(h, w, t, c);
    } else {
      match w.tasks[t]
      case Planning(_, _) => PlanningStep(h, w, t, c);
      case CheckFlag(_) => WaitingStep(h, w, t, c);
      case AwaitLock(_) => WaitingStep(h, w, t, c);
      case Recheck(_) => LockedStep(h, w, t, c);
      case Rebuilding(_) => LockedStep(h, w, t, c);
      case Replacing(_, _) => ReplaceStep(h, w, t, c);
      case Flushing(_) => FlushStep(h, w, t, c);
      case Publishing(_) => LockedStep(h, w, t, c);
      case Unlocking(_) => LockedStep(h, w, t, c);
      case NextFace(_, _, _) => FaceStep(h, w, t, c);
      case Querying(_, _, _) => QueryStep(h, w, t, c);
      case Reading(_, _, _, _) => ReadStep(h, w, t, c);
      case Adding(_, _, _) => AddStep(h, w, t, c);
      case Linking(_, _) => LinkingStep(h, w, t, c);
    }
  }

  /** Once the flag is set, `ensure_cache_ready` touches neither the lock nor the cache. */
  lemma ReadyGoesStraightOn(h: Hash, w: World, t: Task, fs: seq<Face>)
    requires w.ready && t in w.tasks && w.tasks[t] == CheckFlag(fs)
    ensures CanStep(w, t, Go) && Step(h, w, t, Go) == w.(tasks := w.tasks[t := NextFace(fs, 0, [])])
  {
  }

  /** A photo without faces is done once its status is written. */
  lemma EmptyPhotoIsDone(h: Hash, w: World, t: Task)
    requires t in w.tasks && w.tasks[t] == Planning([], [])
    ensures CanStep(w, t, Go) && Step(h, w, t, Go) == w.(tasks := w.tasks[t := Finished([])])
  {
  }

  /** The hits that a query computes are among those the machine allows. */
  lemma NearestIsAllowed(ix: Option<Index>, query: Embedding, search: Search)
    requires Faithful(search)
    ensures HitsFrom(ix, query, HitsOf(ix, query, 5, search))
  {
  }

  // ---- Progress ----

  lemma {:induction false} FacesListed(faces: map<Id, Embedding>) returns (es: seq<Entry>)
    ensures forall e: Entry :: e in es <==> e.id in faces && faces[e.id] == e.vec
    ensures forall i, j | 0 <= i < j < |es| :: es[i].id != es[j].id
    decreases |faces|
  {
    es := [];
    if faces != map[] {
      var id :| id in faces;
      var rest := faces - {id};
      assert |rest| < |faces| by { assert rest.Keys == faces.Keys - {id}; }
      var before := FacesListed(rest);
      assert forall i | 0 <= i < |before| :: before[i] in before;
      es := before + [Entry(id, faces[id])];
    }
  }

  predicate Live(ph: Phase) {
    !ph.Finished? && !ph.Failed?
  }

  /** Only a held lock can keep a task from its next step. */
  lemma CanGoOn(h: Hash, w: World, t: Task) returns (c: Choice)
    requires Inv(h, w) && t in w.tasks && Live(w.tasks[t]) && (w.tasks[t].AwaitLock? ==> w.lock.None?)
    ensures CanStep(w, t, c) && !c.Begin? && !c.Fail?
  {
    assert PhaseOk(h, w, w.tasks[t]);
    match w.tasks[t]
    case Rebuilding(_) =>
      var es := FacesListed(w.store.faces);
      c := Snapshot(es);
    case Reading(_, _, _, _) => c := Found([]);
    case _ => c := Go;
  }

  /** No deadlock: while some task is neither finished nor failed, some task can go on without a failure. */
  lemma SomeTaskCanGoOn(h: Hash, w: World, t: Task) returns (u: Task, c: Choice)
    requires Inv(h, w) && t in w.tasks && Live(w.tasks[t])
    ensures u in w.tasks && CanStep(w, u, c) && !c.Begin? && !c.Fail?
  {
    u := t;
    if w.tasks[t].AwaitLock? && w.lock.Some? {
      u := w.lock.value;
      assert LockPhaseOk(w.tasks[u], w.ready, w.log);
    }
    c := CanGoOn(h, w, u);
  }

  /** How far a task is from its end: the part of the ingest it is in, then what is left of that part. */
  function PartsLeft(ph: Phase): nat {
    match ph
    case Planning(_, _) => 11
    case CheckFlag(_) => 10
    case AwaitLock(_) => 9
    case Recheck(_) => 8
    case Rebuilding(_) => 7
    case Replacing(_, _) => 6
    case Flushing(_) => 5
    case Publishing(_) => 4
    case Unlocking(_) => 3
    case Linking(_, _) => 1
    case Finished(_) => 0
    case Failed(_, _) => 0
    case _ => 2
  }

  function WorkLeft(ph: Phase): nat {
    match ph
    case Planning(_, rest) => |rest|
    case Linking(_, rest) => |rest|
    case NextFace(fs, i, _) => if i <= |fs| then 4 * (|fs| - i) + 3 else 0
    case Querying(fs, i, _) => if i <= |fs| then 4 * (|fs| - i) + 2 else 0
    case Reading(fs, i, _, _) => if i <= |fs| then 4 * (|fs| - i) + 1 else 0
    case Adding(fs, i, _) => if i <= |fs| then 4 * (|fs| - i) else 0
    case _ => 0
  }

  /** No task goes on for ever: each of its steps brings it nearer to its end. */
  lemma StepComesNearer(h: Hash, w: World, t: Task, c: Choice)
    requires CanStep(w, t, c) && !c.Begin?
    ensures var ph, ph' := w.tasks[t], Step(h, w, t, c).tasks[t];
            PartsLeft(ph') < PartsLeft(ph) || (PartsLeft(ph') == PartsLeft(ph) && WorkLeft(ph') < WorkLeft(ph))
  {
  }

  // ---- What a step touches ----

  lemma OthersStay(h: Hash, w: World, t: Task, c: Choice)
    requires CanStep(w, t, c)
    ensures Step(h, w, t, c).tasks == w.tasks[t := Step(h, w, t, c).tasks[t]]
    ensures c.Begin? <==> t !in w.tasks
  {
  }

  /** A step writes nothing, or the next record of its task. */
  lemma StepWrites(h: Hash, w: World, t: Task, c: Choice)
    requires CanStep(w, t, c)
    ensures var w' := Step(h, w, t, c);
            || w'.store == w.store
            || (t in w.tasks && (w.tasks[t].Planning? || w.tasks[t].Linking?) && RestOf(w.tasks[t]) != []
                && w'.store == Apply(w.store, RestOf(w.tasks[t])[0]))
  {
  }

  // ---- Whole runs ----

  ghost predicate Next(h: Hash, w: World, w': World) {
    exists t, c :: CanStep(w, t, c) && w' == Step(h, w, t, c)
  }

  /** A process has just started on a store that earlier ones left: no task, an empty cache, the flag down. */
  ghost predicate Booted(h: Hash, w: World) {
    StoreInv(h, w.store) && w == START.(store := w.store)
  }

  ghost predicate Steps(h: Hash, run: seq<World>) {
    forall i, j | 0 <= i < j < |run| && j == i + 1 :: Next(h, run[i], run[j])
  }

  ghost predicate IsRun(h: Hash, run: seq<World>) {
    run != [] && Booted(h, run[0]) && Steps(h, run)
  }

  lemma StepAt(h: Hash, run: seq<World>, n: nat) returns (t: Task, c: Choice)
    requires IsRun(h, run) && 0 < n < |run|
    ensures CanStep(run[n - 1], t, c) && run[n] == Step(h, run[n - 1], t, c)
  {
    assert Next(h, run[n - 1], run[n]);
    t, c :| CanStep(run[n - 1], t, c) && run[n] == Step(h, run[n - 1], t, c);
  }

  lemma {:induction false} InvHolds(h: Hash, run: seq<World>, n: nat)
    requires Injective(h) && IsRun(h, run) && n < |run|
    ensures Inv(h, run[n])
  {
    if n > 0 {
      InvHolds(h, run, n - 1);
      var t, c := StepAt(h, run, n);
      StepKeepsInv(h, run[n - 1], t, c);
    }
  }

  /** The entries that the additions of a log append. */
  function Additions(log: seq<Event>): seq<Entry> {
    if log == [] then []
    else Additions(log[..|log| - 1]) + (if log[|log| - 1].Added? then [log[|log| - 1].entry] else [])
  }

  lemma {:induction false} SnapshotThenAdditions(log: seq<Event>)
    requires RebuiltOnceThenAdds(log) && log != []
    ensures EntriesAfter(log) == log[0].snapshot + Additions(log)
  {
    if |log| == 1 {
      assert log[..0] == [];
    } else {
      SnapshotThenAdditions(log[..|log| - 1]);
    }
  }

  /**
   In every interleaving, failed rebuilds included: `replace_all` runs at most once and before every
   `add`; once the flag is set, the entries are that snapshot followed by every add in order.
   */
  lemma RebuiltOnceThenEveryAdd(h: Hash, run: seq<World>, n: nat)
    requires Injective(h) && IsRun(h, run) && n < |run|
    ensures RebuiltOnceThenAdds(run[n].log)
    ensures run[n].ready ==>
              && run[n].log != []
              && run[n].cache.entries == run[n].log[0].snapshot + Additions(run[n].log)
    ensures forall t | t in run[n].tasks && run[n].tasks[t].Finished? ::
              Cached(run[n].cache, run[n].tasks[t].faces, |run[n].tasks[t].faces|)
  {
    InvHolds(h, run, n);
    if run[n].ready {
      SnapshotThenAdditions(run[n].log);
    }
    forall t | t in run[n].tasks && run[n].tasks[t].Finished?
      ensures Cached(run[n].cache, run[n].tasks[t].faces, |run[n].tasks[t].faces|)
    {
      assert PhaseOk(h, run[n], run[n].tasks[t]);
    }
  }

  // ---- Several lives of the process ----

  /** Each life starts on the store that the one before left, wherever it stopped; the first on an empty store. */
  ghost predicate IsHistory(h: Hash, lives: seq<seq<World>>) {
    && (forall i | 0 <= i < |lives| ::
          lives[i] != [] && lives[i][0] == START.(store := lives[i][0].store) && Steps(h, lives[i]))
    && (lives != [] ==> lives[0][0].store == EMPTY_STORE)
    && (forall i, j | 0 <= i < j < |lives| && j == i + 1 :: lives[j][0].store == lives[i][|lives[i]| - 1].store)
  }

  /** So every life starts on a store that satisfies the invariant, and the theorems about runs cover it. */
  lemma {:induction false} EveryLifeIsARun(h: Hash, lives: seq<seq<World>>, i: nat)
    requires Injective(h) && IsHistory(h, lives) && i < |lives|
    ensures IsRun(h, lives[i])
  {
    if i > 0 {
      EveryLifeIsARun(h, lives, i - 1);
      InvHolds(h, lives[i - 1], |lives[i - 1]| - 1);
    }
  }

  // ---- Queries see every add completed before them ----

  /** What a step of task `t` does to the cache once the flag is set. */
  lemma ReadyCacheStep(h: Hash, w: World, t: Task, c: Choice)
    requires Inv(h, w) && CanStep(w, t, c) && w.ready
    ensures var w' := Step(h, w, t, c);
            w'.ready && (w'.cache.entries == w.cache.entries || exists e :: w'.cache.entries == w.cache.entries + [e])
  {
    if !c.Begin? && HoldsLock(w.tasks[t]) {
      assert w.lock == Some(t) && LockPhaseOk(w.tasks[t], w.ready, w.log);
    }
  }

  lemma NextGrows(h: Hash, w: World, w': World)
    requires Inv(h, w) && w.ready && Next(h, w, w')
    ensures w'.ready && w.cache.entries <= w'.cache.entries
  {
    var t, c :| CanStep(w, t, c) && w' == Step(h, w, t, c);
    ReadyCacheStep(h, w, t, c);
  }

  lemma {:induction false} StretchKeeps(run: seq<World>, m: nat, n: nat, next: (World, World) -> bool,
                                        keeps: World -> bool)
    requires m <= n < |run| && keeps(run[m])
    requires forall i, j | 0 <= i < j < |run| && j == i + 1 :: next(run[i], run[j])
    requires forall w, w' :: next(w, w') && keeps(w) ==> keeps(w')
    ensures keeps(run[n])
    decreases n
  {
    if m < n {
      StretchKeeps(run, m, n - 1, next, keeps);
      assert next(run[n - 1], run[n]);
    }
  }

  /** What every step from an invariant state keeps holds at the end of a stretch of a run. */
  lemma RunKeeps(h: Hash, run: seq<World>, m: nat, n: nat, keeps: World -> bool)
    requires Injective(h) && IsRun(h, run) && m <= n < |run| && keeps(run[m])
    requires forall w, w' :: Inv(h, w) && Next(h, w, w') && keeps(w) ==> keeps(w')
    ensures keeps(run[n])
  {
    ghost var next := (w, w') => Inv(h, w) && Next(h, w, w');
    forall i, j | 0 <= i < j < |run| && j == i + 1 ensures next(run[i], run[j]) {
      InvHolds(h, run, i);
    }
    StretchKeeps(run, m, n, next, keeps);
  }

  lemma EntriesOnlyGrow(h: Hash, run: seq<World>, m: nat, n: nat)
    requires Injective(h) && IsRun(h, run) && m <= n < |run| && run[m].ready
    ensures run[n].ready && run[m].cache.entries <= run[n].cache.entries
  {
    var es := run[m].cache.entries;
    ghost var keeps := (w: World) => w.ready && es <= w.cache.entries;
    forall w, w' | Inv(h, w) && Next(h, w, w') && keeps(w) ensures keeps(w') {
      NextGrows(h, w, w');
      PrefixTransitive(es, w.cache.entries, w'.cache.entries);
    }
    RunKeeps(h, run, m, n, keeps);
  }

  lemma PrefixTransitive(a: seq<Entry>, b: seq<Entry>, c: seq<Entry>)
    requires a <= b <= c
    ensures a <= c
  {
  }

  /** The task is about to query for its face `i`, has flushed at least `k` entries for it, or is past it. */
  ghost predicate QueryOf(ph: Phase, i: nat, k: nat) {
    match ph
    case Querying(_, j, _) => i <= j
    case Reading(_, j, _, since) => i < j || (i == j && k <= since)
    case Adding(_, j, _) => i <= j
    case NextFace(_, j, _) => i < j
    case Linking(_, _) => true
    case Finished(_) => true
    case Failed(_, _) => true
    case _ => false
  }

  lemma QueryStepAdvances(h: Hash, w: World, u: Task, c: Choice, t: Task, i: nat, k: nat)
    requires CanStep(w, u, c) && t in w.tasks && QueryOf(w.tasks[t], i, k) && k <= |w.cache.entries|
    ensures t in Step(h, w, u, c).tasks && QueryOf(Step(h, w, u, c).tasks[t], i, k)
  {
  }

  lemma NextQueryAdvances(h: Hash, w: World, w': World, t: Task, i: nat, k: nat)
    requires Next(h, w, w') && t in w.tasks && QueryOf(w.tasks[t], i, k) && k <= |w.cache.entries|
    ensures t in w'.tasks && QueryOf(w'.tasks[t], i, k)
  {
    var u, c :| CanStep(w, u, c) && w' == Step(h, w, u, c);
    QueryStepAdvances(h, w, u, c, t, i, k);
  }

  lemma QueryAdvances(h: Hash, run: seq<World>, m: nat, n: nat, t: Task)
    requires Injective(h) && IsRun(h, run) && m <= n < |run| && run[m].ready
    requires t in run[m].tasks && run[m].tasks[t].Querying?
    ensures t in run[n].tasks && QueryOf(run[n].tasks[t], run[m].tasks[t].i, |run[m].cache.entries|)
  {
    var i, k := run[m].tasks[t].i, |run[m].cache.entries|;
    ghost var keeps := (w: World) =>
      w.ready && k <= |w.cache.entries| && t in w.tasks && QueryOf(w.tasks[t], i, k);
    forall w, w' | Inv(h, w) && Next(h, w, w') && keeps(w) ensures keeps(w') {
      NextGrows(h, w, w');
      NextQueryAdvances(h, w, w', t, i, k);
    }
    RunKeeps(h, run, m, n, keeps);
  }

  lemma QueryingIsReady(h: Hash, run: seq<World>, m: nat, t: Task)
    requires Injective(h) && IsRun(h, run) && m < |run| && t in run[m].tasks && run[m].tasks[t].Querying?
    ensures run[m].ready
  {
    InvHolds(h, run, m);
    assert PhaseOk(h, run[m], run[m].tasks[t]);
  }

  lemma ReadingSees(h: Hash, run: seq<World>, n: nat, t: Task)
    requires Injective(h) && IsRun(h, run) && n < |run| && t in run[n].tasks && run[n].tasks[t].Reading?
    ensures Coherent(run[n].cache) && Sees(run[n].cache, run[n].tasks[t].since)
  {
    InvHolds(h, run, n);
    assert PhaseOk(h, run[n], run[n].tasks[t]);
  }

  /**
   A call to `nearest` begins at `m` and reads the index at `n`: it searches an index over a prefix of the entries
   that holds every entry present, so every add completed, at `m`.
   */
  lemma QueriesSeeEarlierAdds(h: Hash, run: seq<World>, m: nat, n: nat, t: Task)
    requires Injective(h) && IsRun(h, run) && m < n < |run|
    requires t in run[m].tasks && run[m].tasks[t].Querying?
    requires t in run[n].tasks && run[n].tasks[t].Reading? && run[n].tasks[t].i == run[m].tasks[t].i
    ensures match run[n].cache.index
            case None => run[m].cache.entries == []
            case Some(ix) => run[m].cache.entries <= ix.points <= run[n].cache.entries
  {
    QueryingIsReady(h, run, m, t);
    QueryAdvances(h, run, m, n, t);
    EntriesOnlyGrow(h, run, m, n);
    ReadingSees(h, run, n, t);
  }

  /** A store that ingests leave is keyed by endpoints, has no dangling row and no edge to a missing fingerprint. */
  lemma StoreInvServesResolver(h: Hash, st: Store, spec: PersonaSpec)
    requires StoreInv(h, st)
    ensures KeyedByEndpoint(st, spec)
    ensures forall x, e :: e in st.EdgeIdsTouching(x) ==> Judge(st, spec, e) != Dangling
    ensures forall x, y :: Linked(st, spec, x, y) ==> y in st.fingerprints
  {
    forall x, y | Linked(st, spec, x, y) ensures y in st.fingerprints {
      var e :| e in st.EdgeIdsTouching(x) && Judge(st, spec, e) == Usable && st.edges[e].OtherEndpoint(x) == Some(y);
      assert HasRow(st, x, e);
      assert EdgeWellFormed(h, st, e, st.edges[e]);
    }
    forall x, e | e in st.EdgeIdsTouching(x) ensures e in st.edges && st.edges[e].HasEndpoint(x) {
      assert HasRow(st, x, e);
    }
  }

  /**
   Producer meets consumer: on every store that any interleaving of ingests leaves, whatever failed,
   every answer to a Persona query is the exact component, reports no dangling edge, and reports as
   missing only ids that the query itself named as seeds.
   */
  lemma ResolverTrustsIngest(h: Hash, run: seq<World>, n: nat, spec: PersonaSpec, r: Resolver.ResolveResult)
    requires Injective(h) && IsRun(h, run) && n < |run|
    requires Resolver.Answers(run[n].store, spec, r)
    ensures r.fingerprintIds == Component(run[n].store, spec, SeedSet(spec))
    ensures forall e :: e !in Resolver.Diagnosed(r).danglingEdges
    ensures forall y | y in Resolver.Diagnosed(r).missingSeeds :: y in spec.seeds && y !in run[n].store.fingerprints
  {
    var st, d := run[n].store, Resolver.Diagnosed(r);
    assert StoreInv(h, st) by { InvHolds(h, run, n); }
    StoreInvServesResolver(h, st, spec);
    Resolver.KeyedIsUnmasked(st, spec);
    forall e ensures e !in d.danglingEdges {
      assert !Resolver.Touched(st, spec, r.fingerprintIds, Dangling, e);
    }
  }
}
