/**
 No face is lost between the store and the face cache: in every interleaving of ingests with the
 one-time rebuild, a stored face is cached, still to be added, or carried only by tasks that failed
 early; and exactly when the last happens.
 */
module IngestCoverage {
  import opened Wrappers
  import opened FingerprintGraph
  import opened FingerprintKeys
  import opened FingerprintStore
  import opened FaceAnnCache
  import opened PhotoIngest
  import opened IngestMachine

  function AsFace(e: Entry): Face {
    Face(e.id, Some(e.vec))
  }

  predicate Carries(ph: Phase, e: Entry) {
    AsFace(e) in ph.faces
  }

  /** How many of its faces a task has been through. */
  function Done(ph: Phase): nat {
    match ph
    case NextFace(_, i, _) => i
    case Querying(_, i, _) => i
    case Reading(_, i, _, _) => i
    case Adding(_, i, _) => i
    case Linking(fs, _) => |fs|
    case Finished(fs) => |fs|
    case Failed(fs, stage) => if stage.InLinking? then |fs| else 0
    case _ => 0
  }

  ghost predicate Passed(ph: Phase, e: Entry) {
    exists i :: 0 <= i < |ph.faces| && i < Done(ph) && ph.faces[i] == AsFace(e)
  }

  /** A running task will come to add this face. */
  ghost predicate StillToAdd(ph: Phase, e: Entry) {
    Live(ph) && Carries(ph, e) && !Passed(ph, e)
  }

  /** The task failed before it added any face: while planning, waiting for the lock, or rebuilding. */
  predicate FailedEarly(ph: Phase) {
    ph.Failed? && !ph.stage.InLinking?
  }

  predicate Owed(ph: Phase, e: Entry) {
    Carries(ph, e) && !(ph.Failed? && ph.stage.InRebuild?)
  }

  // ---- The invariant ----

  /** The fingerprints a task has still to write are those of its faces. */
  ghost predicate FitsFaces(ph: Phase) {
    forall r | r in RestOf(ph) && r.FingerprintRecord? :: Face(r.id, r.face) in ph.faces
  }

  /** The rebuild has read `es`, whether or not it has replaced the entries yet. */
  ghost predicate Taken(w: World, es: seq<Entry>) {
    || (w.log != [] && w.log[0] == Replaced(es))
    || exists t :: t in w.tasks && w.tasks[t].Replacing? && w.tasks[t].snapshot == es
  }

  ghost predicate SomeOwed(w: World, e: Entry) {
    exists t :: t in w.tasks && Owed(w.tasks[t], e)
  }

  ghost predicate Covered(w: World, es: seq<Entry>) {
    forall e | StoredFace(w.store, e) :: e in es || SomeOwed(w, e)
  }

  ghost predicate SomePassed(w: World, e: Entry) {
    exists t :: t in w.tasks && Passed(w.tasks[t], e)
  }

  ghost predicate AllFit(w: World) {
    forall t | t in w.tasks :: FitsFaces(w.tasks[t])
  }

  ghost predicate AllCovered(w: World) {
    forall es | Taken(w, es) :: Covered(w, es)
  }

  ghost predicate AddsPassed(w: World) {
    forall e | Added(e) in w.log :: SomePassed(w, e)
  }

  ghost predicate Accounted(w: World) {
    AllFit(w) && AllCovered(w) && AddsPassed(w)
  }

  // ---- What a step does to its own task ----

  lemma HitRecordsFit(h: Hash, fp: Id, hits: seq<Hit>, r: Record)
    requires r in RecordsForHits(h, fp, hits)
    ensures !r.FingerprintRecord?
  {
    LinkedIffSimilar(h, fp, hits, r);
    var hit :| hit in hits && Links(h, fp, hit, r);
  }

  lemma PairRecordsFit(h: Hash, pairs: seq<Pair>, r: Record)
    requires r in CoOccurrences(h, pairs)
    ensures !r.FingerprintRecord?
  {
    var k := CoOccurrenceOrigin(h, pairs, r);
  }

  lemma PlanFits(h: Hash, faces: seq<Face>, mention: Id, r: Record)
    requires r in PlanOf(h, faces, mention) && r.FingerprintRecord?
    ensures Face(r.id, r.face) in faces
  {
    if faces != [] {
      var head, pairs := PlanHead(faces, mention), AllPairs(UniqueIds(faces));
      assert r in head by {
        if r in CoOccurrences(h, pairs) { PairRecordsFit(h, pairs, r); }
      }
      assert r in FingerprintRecords(faces);
      var f :| f in faces && r == FingerprintRecord(f.id, f.embedding);
      assert f == Face(r.id, r.face);
    }
  }

  lemma StepFits(h: Hash, w: World, t: Task, c: Choice)
    requires CanStep(w, t, c) && (!c.Begin? ==> FitsFaces(w.tasks[t]))
    ensures FitsFaces(Step(h, w, t, c).tasks[t])
  {
    if c.Begin? {
      forall r | r in PlanOf(h, c.faces, c.mention) && r.FingerprintRecord? ensures Face(r.id, r.face) in c.faces {
        PlanFits(h, c.faces, c.mention, r);
      }
    } else if w.tasks[t].Reading? {
      var Reading(fs, i, out, _) := w.tasks[t];
      forall r | r in out + RecordsForHits(h, fs[i].id, c.hits) && r.FingerprintRecord? ensures r in out {
        if r in RecordsForHits(h, fs[i].id, c.hits) {
          HitRecordsFit(h, fs[i].id, c.hits, r);
        }
      }
    }
  }

  lemma DoneIsBounded(h: Hash, w: World, t: Task)
    requires Inv(h, w) && t in w.tasks
    ensures Done(w.tasks[t]) <= |w.tasks[t].faces|
  {
    assert PhaseOk(h, w, w.tasks[t]);
  }

  /** A task keeps its faces, goes through them in order, and drops its debts only by failing in the rebuild. */
  predicate Advances(ph: Phase, ph': Phase) {
    && ph'.faces == ph.faces && Done(ph) <= Done(ph')
    && (ph'.Failed? && ph'.stage.InRebuild? ==> ph.Rebuilding?)
  }

  lemma StepAdvances(h: Hash, w: World, t: Task, c: Choice)
    requires CanStep(w, t, c) && !c.Begin? && Done(w.tasks[t]) <= |w.tasks[t].faces|
    ensures Advances(w.tasks[t], Step(h, w, t, c).tasks[t])
  {
  }

  /** The tasks of `w'` are those of `w` after a move of `t`. */
  ghost predicate Follows(w: World, w': World, t: Task) {
    && t in w'.tasks && w'.tasks == w.tasks[t := w'.tasks[t]]
    && (t in w.tasks ==> Advances(w.tasks[t], w'.tasks[t]))
  }

  lemma StepFollows(h: Hash, w: World, t: Task, c: Choice)
    requires Inv(h, w) && CanStep(w, t, c)
    ensures Follows(w, Step(h, w, t, c), t)
  {
    OthersStay(h, w, t, c);
    if !c.Begin? {
      DoneIsBounded(h, w, t);
      StepAdvances(h, w, t, c);
    }
  }

  lemma OwedStays(w: World, w': World, t: Task, e: Entry)
    requires Follows(w, w', t) && (t in w.tasks ==> !w.tasks[t].Rebuilding?) && SomeOwed(w, e)
    ensures SomeOwed(w', e)
  {
    var u :| u in w.tasks && Owed(w.tasks[u], e);
    assert u in w'.tasks && Owed(w'.tasks[u], e);
  }

  lemma SomePassedStays(w: World, w': World, t: Task, e: Entry)
    requires Follows(w, w', t) && SomePassed(w, e)
    ensures SomePassed(w', e)
  {
    var u :| u in w.tasks && Passed(w.tasks[u], e);
    var i :| 0 <= i < |w.tasks[u].faces| && i < Done(w.tasks[u]) && w.tasks[u].faces[i] == AsFace(e);
    assert w'.tasks[u].faces[i] == AsFace(e);
    assert u in w'.tasks && Passed(w'.tasks[u], e);
  }

  /** A face that a write stores is one of its task's. */
  lemma WriteStores(w: World, t: Task, e: Entry)
    requires AllFit(w) && t in w.tasks && (w.tasks[t].Planning? || w.tasks[t].Linking?) && RestOf(w.tasks[t]) != []
    requires StoredFace(Apply(w.store, RestOf(w.tasks[t])[0]), e) && !StoredFace(w.store, e)
    ensures Owed(w.tasks[t], e)
  {
    assert FitsFaces(w.tasks[t]) && RestOf(w.tasks[t])[0] in RestOf(w.tasks[t]);
  }

  // ---- Every step keeps the accounts ----

  lemma CoveredStays(h: Hash, w: World, t: Task, c: Choice, es: seq<Entry>)
    requires Inv(h, w) && AllFit(w) && CanStep(w, t, c) && (c.Begin? || !w.tasks[t].Rebuilding?) && Covered(w, es)
    ensures Covered(Step(h, w, t, c), es)
  {
    var w' := Step(h, w, t, c);
    StepFollows(h, w, t, c);
    StepWrites(h, w, t, c);
    OthersStay(h, w, t, c);
    forall e | StoredFace(w'.store, e) && e !in es ensures SomeOwed(w', e) {
      if !StoredFace(w.store, e) {
        WriteStores(w, t, e);
      }
      OwedStays(w, w', t, e);
    }
  }

  /** Once a snapshot is taken, no task is rebuilding. */
  lemma TakenEndsRebuilding(h: Hash, w: World, t: Task, es: seq<Entry>)
    requires Inv(h, w) && Taken(w, es) && t in w.tasks
    ensures !w.tasks[t].Rebuilding?
  {
    assert w.tasks[t].Rebuilding? ==> w.lock == Some(t);
  }

  /** What a step adds to the log. */
  lemma StepLogs(h: Hash, w: World, t: Task, c: Choice)
    requires CanStep(w, t, c)
    ensures var w' := Step(h, w, t, c);
            || w'.log == w.log
            || (t in w.tasks && w.tasks[t].Replacing? && w'.log == w.log + [Replaced(w.tasks[t].snapshot)])
            || (t in w.tasks && w.tasks[t].Adding? && w.tasks[t].i < |w.tasks[t].faces|
                && w.tasks[t].faces[w.tasks[t].i].embedding.Some?
                && var f := w.tasks[t].faces[w.tasks[t].i];
                   && w'.log == w.log + [Added(Entry(f.id, f.embedding.value))]
                   && w'.tasks[t] == NextFace(w.tasks[t].faces, w.tasks[t].i + 1, w.tasks[t].out))
  {
  }

  lemma AddingIsLogged(h: Hash, w: World, t: Task)
    requires Inv(h, w) && t in w.tasks && w.tasks[t].Adding?
    ensures w.log != []
  {
    assert PhaseOk(h, w, w.tasks[t]);
  }

  lemma ReplacingStarts(h: Hash, w: World, t: Task, c: Choice, ph: Phase)
    requires CanStep(w, t, c) && Step(h, w, t, c).tasks[t] == ph && ph.Replacing?
    ensures !c.Begin? && w.tasks[t].Rebuilding? && c == Snapshot(ph.snapshot) && SnapshotOf(w.store, ph.snapshot)
  {
  }

  /** A snapshot that a step leaves was taken before, or is what this step's query read. */
  lemma TakenBefore(h: Hash, w: World, t: Task, c: Choice, es: seq<Entry>)
    requires Inv(h, w) && CanStep(w, t, c) && Taken(Step(h, w, t, c), es)
    ensures Taken(w, es) || (!c.Begin? && w.tasks[t].Rebuilding? && c == Snapshot(es) && SnapshotOf(w.store, es))
  {
    var w' := Step(h, w, t, c);
    StepLogs(h, w, t, c);
    OthersStay(h, w, t, c);
    if w'.log != [] && w'.log[0] == Replaced(es) {
      if t in w.tasks && w.tasks[t].Adding? {
        AddingIsLogged(h, w, t);
      }
    } else {
      var u :| u in w'.tasks && w'.tasks[u].Replacing? && w'.tasks[u].snapshot == es;
      if u == t {
        ReplacingStarts(h, w, t, c, w'.tasks[t]);
      }
    }
  }

  lemma StepKeepsCovered(h: Hash, w: World, t: Task, c: Choice, es: seq<Entry>)
    requires Inv(h, w) && AllFit(w) && AllCovered(w) && CanStep(w, t, c) && Taken(Step(h, w, t, c), es)
    ensures Covered(Step(h, w, t, c), es)
  {
    TakenBefore(h, w, t, c, es);
    if Taken(w, es) {
      if !c.Begin? {
        TakenEndsRebuilding(h, w, t, es);
      }
      CoveredStays(h, w, t, c, es);
    }
  }

  lemma StepKeepsPassed(h: Hash, w: World, t: Task, c: Choice, e: Entry)
    requires Inv(h, w) && AddsPassed(w) && CanStep(w, t, c) && Added(e) in Step(h, w, t, c).log
    ensures SomePassed(Step(h, w, t, c), e)
  {
    var w' := Step(h, w, t, c);
    StepFollows(h, w, t, c);
    if Added(e) in w.log {
      SomePassedStays(w, w', t, e);
    } else {
      StepLogs(h, w, t, c);
      assert w'.tasks[t].faces[w.tasks[t].i] == AsFace(e);
      assert Passed(w'.tasks[t], e);
    }
  }

  lemma StepKeepsFit(h: Hash, w: World, t: Task, c: Choice)
    requires AllFit(w) && CanStep(w, t, c)
    ensures AllFit(Step(h, w, t, c))
  {
    StepFits(h, w, t, c);
    OthersStay(h, w, t, c);
  }

  lemma StepKeepsAccounted(h: Hash, w: World, w': World)
    requires Inv(h, w) && Accounted(w) && Next(h, w, w')
    ensures Accounted(w')
  {
    var t, c :| CanStep(w, t, c) && w' == Step(h, w, t, c);
    StepKeepsFit(h, w, t, c);
    forall es | Taken(w', es) ensures Covered(w', es) {
      StepKeepsCovered(h, w, t, c, es);
    }
    forall e | Added(e) in w'.log ensures SomePassed(w', e) {
      StepKeepsPassed(h, w, t, c, e);
    }
  }

  // ---- Whole runs ----

  lemma AccountedHolds(h: Hash, run: seq<World>, n: nat)
    requires Injective(h) && IsRun(h, run) && n < |run|
    ensures Accounted(run[n])
  {
    ghost var keeps := (w: World) => Accounted(w);
    forall w, w' | Inv(h, w) && Next(h, w, w') && keeps(w) ensures keeps(w') {
      StepKeepsAccounted(h, w, w');
    }
    assert keeps(run[0]);
    RunKeeps(h, run, 0, n, keeps);
  }

  /** The rebuild whose entries are in use at `n` read the store at `k`. */
  ghost predicate RebuiltFrom(run: seq<World>, k: nat, n: nat) {
    && k < n < |run| && run[n].log != [] && run[n].log[0].Replaced?
    && SnapshotOf(run[k].store, run[n].log[0].snapshot)
    && exists t :: t in run[k].tasks && run[k].tasks[t].Rebuilding?
  }

  lemma {:induction false} SnapshotWasRead(h: Hash, run: seq<World>, n: nat, es: seq<Entry>) returns (k: nat, t: Task)
    requires Injective(h) && IsRun(h, run) && n < |run| && Taken(run[n], es)
    ensures k < n && SnapshotOf(run[k].store, es) && t in run[k].tasks && run[k].tasks[t].Rebuilding?
  {
    if n == 0 {
      assert false;
    }
    InvHolds(h, run, n - 1);
    var u, c := StepAt(h, run, n);
    TakenBefore(h, run[n - 1], u, c, es);
    if Taken(run[n - 1], es) {
      k, t := SnapshotWasRead(h, run, n - 1, es);
    } else {
      k, t := n - 1, u;
    }
  }

  /** Once the flag is set, some rebuild read the store. */
  lemma ReadyWasRebuilt(h: Hash, run: seq<World>, n: nat) returns (k: nat)
    requires Injective(h) && IsRun(h, run) && n < |run| && run[n].ready
    ensures RebuiltFrom(run, k, n)
  {
    RebuiltOnceThenEveryAdd(h, run, n);
    assert Taken(run[n], run[n].log[0].snapshot);
    var t;
    k, t := SnapshotWasRead(h, run, n, run[n].log[0].snapshot);
  }

  lemma {:induction false} AdditionsMember(log: seq<Event>, e: Entry)
    ensures e in Additions(log) <==> Added(e) in log
  {
    if log != [] {
      var before, last := log[..|log| - 1], log[|log| - 1];
      AdditionsMember(before, e);
      assert log == before + [last];
    }
  }

  lemma PassedIsCached(h: Hash, w: World, t: Task, e: Entry)
    requires Inv(h, w) && t in w.tasks && Passed(w.tasks[t], e)
    ensures e in w.cache.entries
  {
    assert PhaseOk(h, w, w.tasks[t]);
    var i :| 0 <= i < |w.tasks[t].faces| && i < Done(w.tasks[t]) && w.tasks[t].faces[i] == AsFace(e);
  }

  /** Once the flag is set, the cache holds what the rebuild read and what tasks went through, and nothing else. */
  lemma CachedIff(h: Hash, run: seq<World>, k: nat, n: nat, e: Entry)
    requires Injective(h) && IsRun(h, run) && n < |run| && run[n].ready && RebuiltFrom(run, k, n)
    ensures e in run[n].cache.entries <==> StoredFace(run[k].store, e) || SomePassed(run[n], e)
  {
    RebuiltOnceThenEveryAdd(h, run, n);
    AdditionsMember(run[n].log, e);
    AccountedHolds(h, run, n);
    if SomePassed(run[n], e) {
      InvHolds(h, run, n);
      var t :| t in run[n].tasks && Passed(run[n].tasks[t], e);
      PassedIsCached(h, run[n], t, e);
    }
  }

  // ---- How often a face is cached ----

  /** How often the task has added this face. */
  ghost function AddsOf(ph: Phase, e: Entry): nat {
    if Done(ph) <= |ph.faces| then multiset(ph.faces[..Done(ph)])[AsFace(e)] else 0
  }

  ghost function AddsByTasks(tasks: map<Task, Phase>, e: Entry): nat
    decreases |tasks|
  {
    if tasks == map[] then 0 else
      var t :| t in tasks;
      assert |tasks - {t}| < |tasks| by { assert (tasks - {t}).Keys == tasks.Keys - {t}; }
      AddsOf(tasks[t], e) + AddsByTasks(tasks - {t}, e)
  }

  lemma {:induction false} AddsWithout(tasks: map<Task, Phase>, t: Task, e: Entry)
    requires t in tasks
    ensures AddsByTasks(tasks, e) == AddsOf(tasks[t], e) + AddsByTasks(tasks - {t}, e)
    decreases |tasks|
  {
    var u :| u in tasks && AddsByTasks(tasks, e) == AddsOf(tasks[u], e) + AddsByTasks(tasks - {u}, e);
    if u != t {
      assert (tasks - {u}).Keys == tasks.Keys - {u};
      AddsWithout(tasks - {u}, t, e);
      AddsWithout(tasks - {t}, u, e);
      assert tasks - {u} - {t} == tasks - {t} - {u};
    }
  }

  lemma AddsAfterMove(tasks: map<Task, Phase>, t: Task, ph: Phase, e: Entry)
    ensures AddsByTasks(tasks[t := ph], e) == AddsOf(ph, e) + AddsByTasks(tasks - {t}, e)
  {
    AddsWithout(tasks[t := ph], t, e);
    assert tasks[t := ph] - {t} == tasks - {t};
  }

  /** How often a log of replacements and additions adds the entry. */
  function AddsIn(log: seq<Event>, e: Entry): nat {
    multiset(log)[Added(e)]
  }

  ghost predicate CountsAgree(w: World) {
    forall e :: AddsIn(w.log, e) == AddsByTasks(w.tasks, e)
  }

  /** A task goes on by at most one face, and then the face was malformed or has been added. */
  lemma StepDone(h: Hash, w: World, t: Task, c: Choice)
    requires CanStep(w, t, c) && !c.Begin? && Done(w.tasks[t]) <= |w.tasks[t].faces|
    ensures var ph, ph' := w.tasks[t], Step(h, w, t, c).tasks[t];
            && ph'.faces == ph.faces
            && (|| (Done(ph') == Done(ph) && !ph.Adding?)
                || (Done(ph) < |ph.faces| && Done(ph') == Done(ph) + 1
                    && (ph.Adding? || ph.faces[Done(ph)].embedding.None?)))
  {
  }

  lemma CountNext(fs: seq<Face>, n: nat, f: Face)
    requires n < |fs|
    ensures multiset(fs[..n + 1])[f] == multiset(fs[..n])[f] + (if fs[n] == f then 1 else 0)
  {
    assert fs[..n + 1] == fs[..n] + [fs[n]];
  }

  /** A task's count grows by one exactly when it adds the face. */
  lemma StepCounts(h: Hash, w: World, t: Task, c: Choice, e: Entry)
    requires CanStep(w, t, c) && !c.Begin? && Done(w.tasks[t]) <= |w.tasks[t].faces|
    ensures var ph, ph' := w.tasks[t], Step(h, w, t, c).tasks[t];
            AddsOf(ph', e) == AddsOf(ph, e) + (if ph.Adding? && ph.faces[ph.i] == AsFace(e) then 1 else 0)
  {
    var ph, ph' := w.tasks[t], Step(h, w, t, c).tasks[t];
    StepDone(h, w, t, c);
    if Done(ph') == Done(ph) + 1 {
      CountNext(ph.faces, Done(ph), AsFace(e));
    }
  }

  lemma LogCounts(log: seq<Event>, ev: Event, e: Entry)
    ensures AddsIn(log + [ev], e) == AddsIn(log, e) + (if ev == Added(e) then 1 else 0)
  {
  }

  lemma StepKeepsCount(h: Hash, w: World, t: Task, c: Choice, e: Entry)
    requires Inv(h, w) && CanStep(w, t, c) && AddsIn(w.log, e) == AddsByTasks(w.tasks, e)
    ensures AddsIn(Step(h, w, t, c).log, e) == AddsByTasks(Step(h, w, t, c).tasks, e)
  {
    var w' := Step(h, w, t, c);
    OthersStay(h, w, t, c);
    AddsAfterMove(w.tasks, t, w'.tasks[t], e);
    StepLogs(h, w, t, c);
    if c.Begin? {
      assert w.tasks - {t} == w.tasks;
    } else {
      AddsWithout(w.tasks, t, e);
      DoneIsBounded(h, w, t);
      StepCounts(h, w, t, c, e);
      if w'.log != w.log {
        LogCounts(w.log, w'.log[|w.log|], e);
      }
    }
  }

  lemma CountsHold(h: Hash, run: seq<World>, n: nat)
    requires Injective(h) && IsRun(h, run) && n < |run|
    ensures CountsAgree(run[n])
  {
    ghost var keeps := (w: World) => CountsAgree(w);
    forall w, w' | Inv(h, w) && Next(h, w, w') && keeps(w) ensures keeps(w') {
      var t, c :| CanStep(w, t, c) && w' == Step(h, w, t, c);
      forall e ensures AddsIn(w'.log, e) == AddsByTasks(w'.tasks, e) {
        StepKeepsCount(h, w, t, c, e);
      }
    }
    RunKeeps(h, run, 0, n, keeps);
  }

  lemma {:induction false} AdditionsCount(log: seq<Event>, e: Entry)
    ensures multiset(Additions(log))[e] == AddsIn(log, e)
  {
    if log != [] {
      var before, last := log[..|log| - 1], log[|log| - 1];
      AdditionsCount(before, e);
      LogCounts(before, last, e);
      assert log == before + [last];
    }
  }

  lemma {:induction false} SnapshotCount(es: seq<Entry>, e: Entry)
    requires forall i, j | 0 <= i < j < |es| :: es[i].id != es[j].id
    ensures multiset(es)[e] == if e in es then 1 else 0
  {
    if es != [] {
      var before, last := es[..|es| - 1], es[|es| - 1];
      SnapshotCount(before, e);
      assert es == before + [last];
    }
  }

  /** A face is cached once if the rebuild read it, and once more for each time a task added it. */
  lemma CachedHowOften(h: Hash, run: seq<World>, k: nat, n: nat, e: Entry)
    requires Injective(h) && IsRun(h, run) && n < |run| && run[n].ready && RebuiltFrom(run, k, n)
    ensures multiset(run[n].cache.entries)[e] ==
            (if StoredFace(run[k].store, e) then 1 else 0) + AddsByTasks(run[n].tasks, e)
  {
    var es, log := run[n].log[0].snapshot, run[n].log;
    RebuiltOnceThenEveryAdd(h, run, n);
    assert multiset(es + Additions(log))[e] == multiset(es)[e] + multiset(Additions(log))[e];
    SnapshotCount(es, e);
    AdditionsCount(log, e);
    CountsHold(h, run, n);
  }

  /** So a face that the rebuild read and a task then added is listed twice. */
  lemma ReadAndAddedIsListedTwice(h: Hash, run: seq<World>, k: nat, n: nat, t: Task, e: Entry)
    requires Injective(h) && IsRun(h, run) && n < |run| && run[n].ready && RebuiltFrom(run, k, n)
    requires StoredFace(run[k].store, e) && t in run[n].tasks && Passed(run[n].tasks[t], e)
    ensures multiset(run[n].cache.entries)[e] >= 2
  {
    CachedHowOften(h, run, k, n, e);
    AddsWithout(run[n].tasks, t, e);
    InvHolds(h, run, n);
    DoneIsBounded(h, run[n], t);
    PassedCounts(run[n].tasks[t], e);
  }

  lemma PassedCounts(ph: Phase, e: Entry)
    requires Done(ph) <= |ph.faces| && Passed(ph, e)
    ensures AddsOf(ph, e) >= 1
  {
    var i :| 0 <= i < |ph.faces| && i < Done(ph) && ph.faces[i] == AsFace(e);
    assert ph.faces[..Done(ph)][i] == AsFace(e);
    assert AsFace(e) in ph.faces[..Done(ph)];
  }

  // ---- What is lost ----

  lemma OwedIsAccounted(ph: Phase, e: Entry)
    requires Owed(ph, e)
    ensures Passed(ph, e) || StillToAdd(ph, e) || (FailedEarly(ph) && !ph.stage.InRebuild?)
  {
    var i :| 0 <= i < |ph.faces| && ph.faces[i] == AsFace(e);
  }

  /**
   Once the flag is set, every stored face is cached, or a running task has still to add it, or the rebuild did not
   read it and a task that carries it failed while planning or waiting for the lock.
   */
  lemma NothingIsLost(h: Hash, run: seq<World>, k: nat, n: nat, e: Entry)
    requires Injective(h) && IsRun(h, run) && n < |run| && run[n].ready && RebuiltFrom(run, k, n)
    requires StoredFace(run[n].store, e)
    ensures || e in run[n].cache.entries
            || (exists t :: t in run[n].tasks && StillToAdd(run[n].tasks[t], e))
            || (!StoredFace(run[k].store, e)
                && exists t :: t in run[n].tasks && Carries(run[n].tasks[t], e) && run[n].tasks[t].Failed?
                               && (run[n].tasks[t].stage.InPlanning? || run[n].tasks[t].stage.AwaitingLock?))
  {
    CachedIff(h, run, k, n, e);
    AccountedHolds(h, run, n);
    var es := run[n].log[0].snapshot;
    assert Taken(run[n], es);
    if e !in run[n].cache.entries {
      assert SomeOwed(run[n], e);
      var t :| t in run[n].tasks && Owed(run[n].tasks[t], e);
      OwedIsAccounted(run[n].tasks[t], e);
    }
  }

  lemma CarriedIsAccounted(ph: Phase, e: Entry)
    requires Carries(ph, e) && !StillToAdd(ph, e)
    ensures FailedEarly(ph) <==> !Passed(ph, e)
  {
    var i :| 0 <= i < |ph.faces| && ph.faces[i] == AsFace(e);
  }

  /**
   Exactly which stored faces stay out of the cache: when no running task has still to add it, a face is missing
   exactly when the rebuild did not read it and every task that carries it failed before it added any face.
   */
  lemma MissingIff(h: Hash, run: seq<World>, k: nat, n: nat, e: Entry)
    requires Injective(h) && IsRun(h, run) && n < |run| && run[n].ready && RebuiltFrom(run, k, n)
    requires forall t | t in run[n].tasks :: !StillToAdd(run[n].tasks[t], e)
    ensures e !in run[n].cache.entries <==>
            && !StoredFace(run[k].store, e)
            && forall t | t in run[n].tasks && Carries(run[n].tasks[t], e) :: FailedEarly(run[n].tasks[t])
  {
    CachedIff(h, run, k, n, e);
    forall t | t in run[n].tasks && Carries(run[n].tasks[t], e)
      ensures FailedEarly(run[n].tasks[t]) <==> !Passed(run[n].tasks[t], e)
    {
      CarriedIsAccounted(run[n].tasks[t], e);
    }
    if SomePassed(run[n], e) {
      var t :| t in run[n].tasks && Passed(run[n].tasks[t], e);
      assert Carries(run[n].tasks[t], e);
    }
  }

  // ---- A run that leaves a face out ----

  ghost predicate EndsIn(h: Hash, run: seq<World>, w: World) {
    IsRun(h, run) && run[|run| - 1] == w
  }

  /** Some run, from some store, leads here. */
  ghost predicate Reached(h: Hash, w: World) {
    exists run :: EndsIn(h, run, w)
  }

  lemma ReachNext(h: Hash, w: World, t: Task, c: Choice)
    requires Reached(h, w) && CanStep(w, t, c)
    ensures Reached(h, Step(h, w, t, c))
  {
    var run :| EndsIn(h, run, w);
    var w' := Step(h, w, t, c);
    var run' := run + [w'];
    forall i, j | 0 <= i < j < |run'| && j == i + 1 ensures Next(h, run'[i], run'[j]) {
      if j < |run| {
        assert Next(h, run[i], run[j]);
      }
    }
    assert EndsIn(h, run', w');
  }

  lemma WriteOne(h: Hash, w: World, t: Task, fs: seq<Face>, rest: seq<Record>)
    requires Reached(h, Moved(w, t, Planning(fs, rest))) && rest != []
    ensures Reached(h, Moved(w.(store := Apply(w.store, rest[0])), t, Planning(fs, rest[1..])))
  {
    var w1 := Moved(w, t, Planning(fs, rest));
    ReachNext(h, w1, t, Go);
    assert w1.tasks[t := Planning(fs, rest[1..])] == w.tasks[t := Planning(fs, rest[1..])];
  }

  /** A task may write all its planned records. */
  lemma {:induction false} PlanIsWritten(h: Hash, w: World, t: Task, fs: seq<Face>, rest: seq<Record>)
    requires Reached(h, Moved(w, t, Planning(fs, rest))) && fs != []
    ensures Reached(h, Moved(w.(store := ApplyAll(w.store, rest)), t, CheckFlag(fs)))
    decreases rest
  {
    if rest == [] {
      var w1 := Moved(w, t, Planning(fs, rest));
      ReachNext(h, w1, t, Go);
      assert w1.tasks[t := CheckFlag(fs)] == w.tasks[t := CheckFlag(fs)];
    } else {
      WriteOne(h, w, t, fs, rest);
      PlanIsWritten(h, w.(store := Apply(w.store, rest[0])), t, fs, rest[1..]);
    }
  }

  /** The flag is set and the entries are `es`; the task that rebuilt them is about to release the lock. */
  ghost function Rebuilt(w: World, t: Task, fs: seq<Face>, es: seq<Entry>): World {
    Moved(w.(lock := Some(t), ready := true, cache := FlushOf(ReplacedBy(es)), log := w.log + [Replaced(es)]),
          t, Unlocking(fs))
  }

  /** One move of the task `t`. */
  lemma ReachMove(h: Hash, w: World, t: Task, ph: Phase, c: Choice, w': World, ph': Phase)
    requires Reached(h, Moved(w, t, ph)) && CanStep(Moved(w, t, ph), t, c)
    requires Step(h, Moved(w, t, ph), t, c) == Moved(w'.(tasks := Moved(w, t, ph).tasks), t, ph') && w'.tasks == w.tasks
    ensures Reached(h, Moved(w', t, ph'))
  {
    MovedTwice(w, w', t, ph, ph');
    ReachNext(h, Moved(w, t, ph), t, c);
  }

  lemma MovedTwice(w: World, w': World, t: Task, ph: Phase, ph': Phase)
    requires w'.tasks == w.tasks
    ensures Moved(w'.(tasks := Moved(w, t, ph).tasks), t, ph') == Moved(w', t, ph')
  {
    assert w.tasks[t := ph][t := ph'] == w.tasks[t := ph'];
  }

  /** A task that finds the flag down may rebuild the cache. */
  lemma CacheIsRebuilt(h: Hash, w: World, t: Task, fs: seq<Face>, es: seq<Entry>)
    requires Reached(h, Moved(w, t, CheckFlag(fs))) && !w.ready && w.lock.None? && SnapshotOf(w.store, es)
    ensures Reached(h, Rebuilt(w, t, fs, es))
  {
    ReachMove(h, w, t, CheckFlag(fs), Go, w, AwaitLock(fs));
    var w1 := w.(lock := Some(t));
    ReachMove(h, w, t, AwaitLock(fs), Go, w1, Recheck(fs));
    ReachMove(h, w1, t, Recheck(fs), Go, w1, Rebuilding(fs));
    ReachMove(h, w1, t, Rebuilding(fs), Snapshot(es), w1, Replacing(fs, es));
    var w2 := w1.(cache := ReplacedBy(es), log := w.log + [Replaced(es)]);
    ReachMove(h, w1, t, Replacing(fs, es), Go, w2, Flushing(fs));
    var w3 := w2.(cache := FlushOf(ReplacedBy(es)));
    ReachMove(h, w2, t, Flushing(fs), Go, w3, Publishing(fs));
    ReachMove(h, w3, t, Publishing(fs), Go, w3.(ready := true), Unlocking(fs));
  }

  lemma OneFacePlan(h: Hash, f: Face, mention: Id)
    ensures PlanOf(h, [f], mention) ==
            [OtherRecord, FingerprintRecord(f.id, f.embedding), OtherRecord, OtherRecord, MentionRow(f.id, mention)]
  {
    assert UniqueIds([f]) == [f.id];
    assert PairsBefore([f.id], 0, 1) == [];
    assert AllPairs([f.id]) == [];
    assert MentionRows([f.id], mention) == [MentionRow(f.id, mention)];
    assert FingerprintRecords([f]) == [FingerprintRecord(f.id, f.embedding)];
  }

  lemma TaskBegins(h: Hash, w: World, t: Task, f: Face, mention: Id)
    requires Reached(h, w) && t !in w.tasks && ProperFaces([f])
    ensures Reached(h, Moved(w, t, Planning([f], PlanOf(h, [f], mention))))
  {
    ReachNext(h, w, t, Begin([f], mention));
  }

  /** A task may store its face and fail at the next record. */
  lemma PlanningFails(h: Hash, w: World, t: Task, f: Face, mention: Id)
    requires Reached(h, w) && t !in w.tasks && ProperFaces([f])
    ensures Reached(h, Moved(w.(store := Apply(w.store, FingerprintRecord(f.id, f.embedding))), t,
                             Failed([f], InPlanning)))
  {
    TaskBegins(h, w, t, f, mention);
    OneFacePlan(h, f, mention);
    var plan := PlanOf(h, [f], mention);
    assert w.(store := Apply(w.store, plan[0])) == w && plan[1..][0] == plan[1];
    WriteOne(h, w, t, [f], plan);
    WriteOne(h, w, t, [f], plan[1..]);
    var w1 := w.(store := Apply(w.store, FingerprintRecord(f.id, f.embedding)));
    ReachMove(h, w1, t, Planning([f], plan[1..][1..]), Fail, w1, Failed([f], InPlanning));
  }

  lemma {:induction false} FacesUntouched(st: Store, rs: seq<Record>)
    requires forall r | r in rs :: !r.FingerprintRecord?
    ensures ApplyAll(st, rs).faces == st.faces
    decreases rs
  {
    if rs != [] {
      assert rs[0] in rs;
      FacesUntouched(Apply(st, rs[0]), rs[1..]);
    }
  }

  lemma OneFaceStored(h: Hash, f: Face, mention: Id)
    requires f.embedding.Some?
    ensures SnapshotOf(ApplyAll(EMPTY_STORE, PlanOf(h, [f], mention)), [Entry(f.id, f.embedding.value)])
  {
    OneFacePlan(h, f, mention);
    var face, tail := FingerprintRecord(f.id, f.embedding), [OtherRecord, OtherRecord, MentionRow(f.id, mention)];
    assert PlanOf(h, [f], mention) == [OtherRecord] + ([face] + tail);
    ApplyAllAppend(EMPTY_STORE, [OtherRecord], [face] + tail);
    ApplyAllAppend(EMPTY_STORE, [face], tail);
    FacesUntouched(Apply(EMPTY_STORE, face), tail);
    assert ApplyAll(EMPTY_STORE, [OtherRecord]) == EMPTY_STORE;
    assert ApplyAll(EMPTY_STORE, [face]) == Apply(EMPTY_STORE, face);
  }

  /** The face is stored and the flag is set, but the face is not cached and no task has still to add it. */
  ghost predicate LeavesOut(w: World, e: Entry) {
    && w.ready && StoredFace(w.store, e) && e !in w.cache.entries
    && forall t | t in w.tasks :: !StillToAdd(w.tasks[t], e)
  }

  /** After a first task stored the face `f` and rebuilt the cache from it. */
  ghost function FirstFaceCached(h: Hash, f: Face, mention: Id): World
    requires f.embedding.Some?
  {
    Rebuilt(START.(store := ApplyAll(EMPTY_STORE, PlanOf(h, [f], mention))), 0, [f], [Entry(f.id, f.embedding.value)])
  }

  lemma FirstFaceIsCached(h: Hash, f: Face, mention: Id)
    requires ProperFaces([f]) && f.embedding.Some?
    ensures Reached(h, FirstFaceCached(h, f, mention))
  {
    var plan, es := PlanOf(h, [f], mention), [Entry(f.id, f.embedding.value)];
    assert EndsIn(h, [START], START);
    TaskBegins(h, START, 0, f, mention);
    PlanIsWritten(h, START, 0, [f], plan);
    OneFaceStored(h, f, mention);
    CacheIsRebuilt(h, START.(store := ApplyAll(EMPTY_STORE, plan)), 0, [f], es);
  }

  ghost function SecondFaceFailed(w: World, g: Face): World {
    Moved(w.(store := Apply(w.store, FingerprintRecord(g.id, g.embedding))), 1, Failed([g], InPlanning))
  }

  lemma SecondFaceIsLeftOut(h: Hash, f: Face, g: Face, mention: Id)
    requires f.id != g.id && f.embedding.Some? && g.embedding.Some?
    ensures LeavesOut(SecondFaceFailed(FirstFaceCached(h, f, mention), g), Entry(g.id, g.embedding.value))
  {
    var w := SecondFaceFailed(FirstFaceCached(h, f, mention), g);
    assert w.tasks == map[0 := Unlocking([f]), 1 := Failed([g], InPlanning)];
    OnlyFailedCarries(w, f, g);
  }

  /**
   The exception happens: one task stores the face `f` and rebuilds the cache; a second one stores the face `g` and
   fails at its next write. Then `g` is left out.
   */
  lemma EarlyFailureLosesFace(h: Hash, f: Face, g: Face, mention: Id) returns (run: seq<World>)
    requires ProperFaces([f]) && ProperFaces([g]) && f.id != g.id && f.embedding.Some? && g.embedding.Some?
    ensures IsRun(h, run) && LeavesOut(run[|run| - 1], Entry(g.id, g.embedding.value))
  {
    var w := FirstFaceCached(h, f, mention);
    FirstFaceIsCached(h, f, mention);
    PlanningFails(h, w, 1, g, mention);
    SecondFaceIsLeftOut(h, f, g, mention);
    run :| EndsIn(h, run, SecondFaceFailed(w, g));
  }

  lemma OnlyFailedCarries(w: World, f: Face, g: Face)
    requires w.tasks == map[0 := Unlocking([f]), 1 := Failed([g], InPlanning)] && f.id != g.id && g.embedding.Some?
    ensures forall t | t in w.tasks :: !StillToAdd(w.tasks[t], Entry(g.id, g.embedding.value))
  {
  }
}
