/**
 `PersonaResolver::resolve` (src/fingerprints/resolver.rs): a worklist popped from the end,
 a visited-edge shortcut, four edge filters and first-class diagnostics.
 */
module Resolver {
  import opened Wrappers
  import opened FingerprintGraph

  datatype Diagnostics = Diagnostics(
    missingSeeds: seq<Id>,
    excludedEdgeCount: nat,
    forbiddenEdgeCount: nat,
    belowThresholdEdgeCount: nat,
    excludedMentionCount: nat,
    danglingEdges: seq<Id>
  ) {
    predicate IsClean() {
      && missingSeeds == []
      && excludedEdgeCount == 0
      && forbiddenEdgeCount == 0
      && belowThresholdEdgeCount == 0
      && excludedMentionCount == 0
      && danglingEdges == []
    }
  }

  const NO_DIAGNOSTICS := Diagnostics([], 0, 0, 0, 0, [])

  datatype ResolveResult =
    | Resolved(personaId: string, fingerprintIds: set<Id>, edgeIds: set<Id>, mentionIds: set<Id>,
               identityId: Option<string>)
    | ResolvedWithDiagnostics(personaId: string, fingerprintIds: set<Id>, edgeIds: set<Id>, mentionIds: set<Id>,
                              identityId: Option<string>, diagnostics: Diagnostics)

  /** `ResolveResult` before it is split by cleanliness. */
  function Diagnosed(r: ResolveResult): Diagnostics {
    match r
    case Resolved(_, _, _, _, _) => NO_DIAGNOSTICS
    case ResolvedWithDiagnostics(_, _, _, _, _, d) => d
  }

  // ---- What the counters and lists mean, with no traversal order in sight ----

  function Count(xs: seq<Id>, p: Id -> bool): nat {
    if xs == [] then 0 else Count(xs[..|xs| - 1], p) + (if p(xs[|xs| - 1]) then 1 else 0)
  }

  function Judged(st: Store, spec: PersonaSpec, v: Verdict): Id -> bool {
    e => Judge(st, spec, e) == v
  }

  function MentionExcluded(spec: PersonaSpec): Id -> bool {
    m => m in spec.excludedMentions
  }

  /** How many rows of a fingerprint the filters judge `v`. */
  function EdgeHits(st: Store, spec: PersonaSpec, v: Verdict): Id -> nat {
    x => Count(st.EdgeIdsTouching(x), Judged(st, spec, v))
  }

  /** How many mention rows of a fingerprint are excluded. */
  function MentionHits(st: Store, spec: PersonaSpec): Id -> nat {
    x => Count(st.MentionIdsTouching(x), MentionExcluded(spec))
  }

  ghost function Sum(s: set<Id>, f: Id -> nat): nat {
    if s == {} then 0 else
      var x :| x in s;
      f(x) + Sum(s - {x}, f)
  }

  lemma {:induction false} SumInsert(s: set<Id>, x: Id, f: Id -> nat)
    requires x !in s
    ensures Sum(s + {x}, f) == Sum(s, f) + f(x)
  {
    var t := s + {x};
    var y :| y in t && Sum(t, f) == f(y) + Sum(t - {y}, f);
    if y == x {
      assert t - {y} == s;
    } else {
      assert t - {y} == (s - {y}) + {x};
      SumInsert(s - {y}, x, f);
      SumInsert(s - {y}, y, f);
      assert (s - {y}) + {y} == s;
    }
  }

  lemma {:induction false} SumIsZero(s: set<Id>, f: Id -> nat)
    ensures Sum(s, f) == 0 <==> forall x | x in s :: f(x) == 0
  {
    if s != {} {
      var x :| x in s && Sum(s, f) == f(x) + Sum(s - {x}, f);
      SumIsZero(s - {x}, f);
      assert s == (s - {x}) + {x};
    }
  }

  predicate NoDuplicates(xs: seq<Id>) {
    forall i, j | 0 <= i < j < |xs| :: xs[i] != xs[j]
  }

  /** Edge ids on rows of `fps` that the filters judge `v`. */
  ghost predicate Touched(st: Store, spec: PersonaSpec, fps: set<Id>, v: Verdict, e: Id) {
    exists x :: x in fps && e in st.EdgeIdsTouching(x) && Judge(st, spec, e) == v
  }

  /** `y` is a seed, or the far end of an accepted edge of `fps`. */
  ghost predicate Named(st: Store, spec: PersonaSpec, fps: set<Id>, y: Id) {
    y in spec.seeds || exists x :: x in fps && Linked(st, spec, x, y)
  }

  ghost predicate MentionRowOf(st: Store, fps: set<Id>, m: Id) {
    exists x :: x in fps && m in st.MentionIdsTouching(x)
  }

  ghost predicate MentionOf(st: Store, spec: PersonaSpec, fps: set<Id>, m: Id) {
    || m in spec.includedMentions
    || (m !in spec.excludedMentions && MentionRowOf(st, fps, m))
  }

  /** The edge-phase diagnostics of a traversal that visited exactly `fps`. */
  ghost predicate EdgeDiagnosticsFor(st: Store, spec: PersonaSpec, fps: set<Id>, d: Diagnostics) {
    && d.excludedEdgeCount == Sum(fps, EdgeHits(st, spec, Excluded))
    && d.forbiddenEdgeCount == Sum(fps, EdgeHits(st, spec, Forbidden))
    && d.belowThresholdEdgeCount == Sum(fps, EdgeHits(st, spec, BelowThreshold))
    && NoDuplicates(d.danglingEdges)
    && (forall e :: e in d.danglingEdges <==> Touched(st, spec, fps, Dangling, e))
  }

  /** A row of `e` at the stranger `z` can hide the row at its end `x`, which leads to another fingerprint `y`. */
  ghost predicate Masks(st: Store, e: Id, z: Id, x: Id, y: Id) {
    && e in st.edges && z in st.fingerprints && x in st.fingerprints && y in st.fingerprints
    && e in st.EdgeIdsTouching(z) && !st.edges[e].HasEndpoint(z)
    && e in st.EdgeIdsTouching(x) && st.edges[e].OtherEndpoint(x) == Some(y) && x != y
  }

  /** No usable edge is masked; in particular when every usable row is keyed by an endpoint. */
  ghost predicate Unmasked(st: Store, spec: PersonaSpec) {
    forall e, z, x, y :: Masks(st, e, z, x, y) ==> Judge(st, spec, e) != Usable
  }

  lemma KeyedIsUnmasked(st: Store, spec: PersonaSpec)
    requires KeyedByEndpoint(st, spec)
    ensures Unmasked(st, spec)
  {
    forall e, z, x, y | Masks(st, e, z, x, y) ensures Judge(st, spec, e) != Usable {
      assert e in st.EdgeIdsTouching(z) && !st.edges[e].HasEndpoint(z);
    }
  }

  /** Which fingerprints a traversal visits, and which ids it reports as missing. */
  ghost predicate ReachedAndMissing(st: Store, spec: PersonaSpec, fps: set<Id>, missing: seq<Id>) {
    && SeedSet(spec) * st.fingerprints <= fps <= Component(st, spec, SeedSet(spec))
    && (Unmasked(st, spec) ==> fps == Component(st, spec, SeedSet(spec)))
    && NoDuplicates(missing)
    && (forall y :: y in missing ==> y !in st.fingerprints && Named(st, spec, fps, y))
    && (KeyedByEndpoint(st, spec) ==> forall y :: y !in st.fingerprints && Named(st, spec, fps, y) ==> y in missing)
  }

  /** Everything `resolve` promises about its result. */
  ghost predicate Answers(st: Store, spec: PersonaSpec, r: ResolveResult) {
    var d := Diagnosed(r);
    var fps := r.fingerprintIds;
    && (r.Resolved? <==> d.IsClean())
    && r.personaId == spec.personaId && r.identityId == spec.identityId
    && ReachedAndMissing(st, spec, fps, d.missingSeeds)
    && (forall e :: e in r.edgeIds <==> Touched(st, spec, fps, Usable, e))
    && (forall m :: m in r.mentionIds <==> MentionOf(st, spec, fps, m))
    && EdgeDiagnosticsFor(st, spec, fps, d)
    && d.excludedMentionCount == Sum(fps, MentionHits(st, spec))
  }

  // ---- The traversal as a function of its local state ----

  datatype State = State(visited: set<Id>, visitedEdges: set<Id>, queue: seq<Id>, d: Diagnostics)

  function Initial(spec: PersonaSpec): State {
    State({}, {}, spec.seeds, NO_DIAGNOSTICS)
  }

  /** One iteration of the row loop of `fp`. */
  function ScanRow(st: Store, spec: PersonaSpec, fp: Id, s: State, e: Id): State {
    if e in s.visitedEdges then s
    else match Judge(st, spec, e)
      case Excluded => s.(d := s.d.(excludedEdgeCount := s.d.excludedEdgeCount + 1))
      case Dangling => if e in s.d.danglingEdges then s else s.(d := s.d.(danglingEdges := s.d.danglingEdges + [e]))
      case Forbidden => s.(d := s.d.(forbiddenEdgeCount := s.d.forbiddenEdgeCount + 1))
      case BelowThreshold => s.(d := s.d.(belowThresholdEdgeCount := s.d.belowThresholdEdgeCount + 1))
      case Usable =>
        var other := st.edges[e].OtherEndpoint(fp);
        s.(visitedEdges := s.visitedEdges + {e},
           queue := if other.Some? && other.value !in s.visited then s.queue + [other.value] else s.queue)
  }

  function ScanRows(st: Store, spec: PersonaSpec, fp: Id, s: State, rows: seq<Id>): (r: State)
    ensures r.visited == s.visited && r.d.missingSeeds == s.d.missingSeeds
    ensures r.d.excludedMentionCount == s.d.excludedMentionCount
  {
    if rows == [] then s
    else ScanRow(st, spec, fp, ScanRows(st, spec, fp, s, rows[..|rows| - 1]), rows[|rows| - 1])
  }

  /** One iteration of the worklist loop. */
  function PopStep(st: Store, spec: PersonaSpec, s: State): (r: State)
    requires s.queue != []
    ensures || (r.visited == s.visited && |r.queue| < |s.queue|)
            || st.fingerprints - r.visited < st.fingerprints - s.visited
  {
    var fp := s.queue[|s.queue| - 1];
    var s1 := s.(queue := s.queue[..|s.queue| - 1]);
    if fp in s.visited then s1
    else if fp !in st.fingerprints then
      if fp in s.d.missingSeeds then s1 else s1.(d := s.d.(missingSeeds := s.d.missingSeeds + [fp]))
    else
      assert fp in st.fingerprints - s.visited;
      ScanRows(st, spec, fp, s1.(visited := s.visited + {fp}), st.EdgeIdsTouching(fp))
  }

  /** The whole worklist loop; it ends because each round visits a fingerprint or shortens the queue. */
  function Drain(st: Store, spec: PersonaSpec, s: State): State
    decreases st.fingerprints - s.visited, |s.queue|
  {
    if s.queue == [] then s else Drain(st, spec, PopStep(st, spec, s))
  }

  // ---- What one pass over the rows of a fingerprint does ----

  ghost predicate OnlyUsable(st: Store, spec: PersonaSpec, es: set<Id>) {
    forall e | e in es :: Judge(st, spec, e) == Usable
  }

  lemma {:induction false} ScanAcceptsUsable(st: Store, spec: PersonaSpec, fp: Id, s: State, rows: seq<Id>)
    requires OnlyUsable(st, spec, s.visitedEdges)
    ensures ScanRows(st, spec, fp, s, rows).visitedEdges
            == s.visitedEdges + (set e | e in rows && Judge(st, spec, e) == Usable)
  {
    if rows != [] {
      ScanAcceptsUsable(st, spec, fp, s, rows[..|rows| - 1]);
      assert rows == rows[..|rows| - 1] + [rows[|rows| - 1]];
    }
  }

  lemma {:induction false} ScanCounts(st: Store, spec: PersonaSpec, fp: Id, s: State, rows: seq<Id>)
    requires OnlyUsable(st, spec, s.visitedEdges)
    ensures var d := ScanRows(st, spec, fp, s, rows).d;
            && d.excludedEdgeCount == s.d.excludedEdgeCount + Count(rows, Judged(st, spec, Excluded))
            && d.forbiddenEdgeCount == s.d.forbiddenEdgeCount + Count(rows, Judged(st, spec, Forbidden))
            && d.belowThresholdEdgeCount == s.d.belowThresholdEdgeCount + Count(rows, Judged(st, spec, BelowThreshold))
  {
    if rows != [] {
      ScanCounts(st, spec, fp, s, rows[..|rows| - 1]);
      ScanAcceptsUsable(st, spec, fp, s, rows[..|rows| - 1]);
    }
  }

  lemma PushDistinct(xs: seq<Id>, x: Id)
    requires NoDuplicates(xs) && x !in xs
    ensures NoDuplicates(xs + [x])
  {
  }

  lemma RowDangling(st: Store, spec: PersonaSpec, fp: Id, s: State, row: Id, e: Id)
    requires OnlyUsable(st, spec, s.visitedEdges) && NoDuplicates(s.d.danglingEdges)
    ensures NoDuplicates(ScanRow(st, spec, fp, s, row).d.danglingEdges)
    ensures e in ScanRow(st, spec, fp, s, row).d.danglingEdges <==>
            e in s.d.danglingEdges || (e == row && Judge(st, spec, e) == Dangling)
  {
    if row !in s.d.danglingEdges {
      PushDistinct(s.d.danglingEdges, row);
    }
  }

  lemma {:induction false} ScanDangling(st: Store, spec: PersonaSpec, fp: Id, s: State, rows: seq<Id>, e: Id)
    requires OnlyUsable(st, spec, s.visitedEdges) && NoDuplicates(s.d.danglingEdges)
    ensures var d := ScanRows(st, spec, fp, s, rows).d;
            && NoDuplicates(d.danglingEdges)
            && (e in d.danglingEdges <==> e in s.d.danglingEdges || (e in rows && Judge(st, spec, e) == Dangling))
  {
    if rows != [] {
      var before, last := rows[..|rows| - 1], rows[|rows| - 1];
      ScanDangling(st, spec, fp, s, before, e);
      ScanAcceptsUsable(st, spec, fp, s, before);
      RowDangling(st, spec, fp, ScanRows(st, spec, fp, s, before), last, e);
      assert rows == before + [last];
    }
  }

  ghost function Elements(q: seq<Id>): set<Id> {
    set y | y in q
  }

  /** The pushes are far ends of usable rows, and no newly accepted edge loses its far end. */
  lemma {:induction false} ScanPushes(st: Store, spec: PersonaSpec, fp: Id, s: State, rows: seq<Id>)
    requires OnlyUsable(st, spec, s.visitedEdges)
    requires forall e | e in rows :: e in st.EdgeIdsTouching(fp)
    ensures var r := ScanRows(st, spec, fp, s, rows);
            && Elements(s.queue) <= Elements(r.queue)
            && (forall y | y in Elements(r.queue) - Elements(s.queue) :: Linked(st, spec, fp, y))
            && forall e | e in r.visitedEdges - s.visitedEdges ::
                 e in st.edges && (st.edges[e].HasEndpoint(fp) ==>
                   st.edges[e].OtherEndpoint(fp).value in s.visited + Elements(r.queue))
  {
    if rows != [] {
      var e := rows[|rows| - 1];
      ScanPushes(st, spec, fp, s, rows[..|rows| - 1]);
      var m := ScanRows(st, spec, fp, s, rows[..|rows| - 1]);
      var r := ScanRow(st, spec, fp, m, e);
      assert Elements(m.queue) <= Elements(r.queue);
      forall y | y in Elements(r.queue) - Elements(m.queue) ensures Linked(st, spec, fp, y) {
        assert e in st.EdgeIdsTouching(fp) && st.edges[e].OtherEndpoint(fp) == Some(y);
      }
    }
  }

  // ---- The invariant of the worklist loop, in three independent parts ----

  ghost predicate Sound(st: Store, spec: PersonaSpec, s: State) {
    && s.visited <= st.fingerprints
    && (forall x :: x in s.visited ==> Reachable(st, spec, SeedSet(spec), x))
    && (forall y :: y in Elements(s.queue) ==> Named(st, spec, s.visited, y))
    && (forall y :: y in Elements(s.d.missingSeeds) ==> y !in st.fingerprints && Named(st, spec, s.visited, y))
    && NoDuplicates(s.d.missingSeeds)
  }

  ghost predicate Exact(st: Store, spec: PersonaSpec, s: State) {
    && (forall e :: e in s.visitedEdges <==> Touched(st, spec, s.visited, Usable, e))
    && EdgeDiagnosticsFor(st, spec, s.visited, s.d)
    && s.d.excludedMentionCount == 0
  }

  /** Ids that are visited, waiting, or reported missing. */
  ghost function Known(s: State): set<Id> {
    s.visited + Elements(s.queue) + Elements(s.d.missingSeeds)
  }

  ghost predicate EndsKnown(st: Store, s: State, e: Id)
    requires e in st.edges
  {
    st.edges[e].a in Known(s) && st.edges[e].b in Known(s)
  }

  /** The edge has a row at a visited fingerprint that is not one of its ends. */
  ghost predicate MetAtStranger(st: Store, visited: set<Id>, e: Id)
    requires e in st.edges
  {
    exists z :: z in visited && e in st.EdgeIdsTouching(z) && !st.edges[e].HasEndpoint(z)
  }

  /** Nothing was dropped: seeds are known, and so are both ends of every accepted edge not met at a stranger. */
  ghost predicate Complete(st: Store, spec: PersonaSpec, s: State) {
    && SeedSet(spec) <= Known(s)
    && forall e | e in s.visitedEdges :: e in st.edges && (EndsKnown(st, s, e) || MetAtStranger(st, s.visited, e))
  }

  lemma NamedGrows(st: Store, spec: PersonaSpec, fps: set<Id>, fps': set<Id>, y: Id)
    requires fps <= fps' && Named(st, spec, fps, y)
    ensures Named(st, spec, fps', y)
  {
  }

  lemma PopParts(s: State)
    requires s.queue != []
    ensures var n := |s.queue| - 1; Elements(s.queue) == Elements(s.queue[..n]) + {s.queue[n]}
  {
    assert s.queue == s.queue[..|s.queue| - 1] + [s.queue[|s.queue| - 1]];
  }

  lemma PopSound(st: Store, spec: PersonaSpec, s: State)
    requires s.queue != [] && Sound(st, spec, s) && OnlyUsable(st, spec, s.visitedEdges)
    ensures Sound(st, spec, PopStep(st, spec, s))
  {
    var fp := s.queue[|s.queue| - 1];
    var rest := s.queue[..|s.queue| - 1];
    PopParts(s);
    assert Named(st, spec, s.visited, fp);
    if fp !in s.visited && fp in st.fingerprints {
      var s1 := s.(queue := rest, visited := s.visited + {fp});
      var r := ScanRows(st, spec, fp, s1, st.EdgeIdsTouching(fp));
      ScanPushes(st, spec, fp, s1, st.EdgeIdsTouching(fp));
      if fp in spec.seeds {
        SeedReachable(st, spec, SeedSet(spec), fp);
      } else {
        var x :| x in s.visited && Linked(st, spec, x, fp);
        StepReachable(st, spec, SeedSet(spec), x, fp);
      }
      forall y | y in Elements(r.queue) ensures Named(st, spec, r.visited, y) {
        if y in Elements(rest) {
          NamedGrows(st, spec, s.visited, r.visited, y);
        }
      }
      forall y | y in Elements(r.d.missingSeeds) ensures Named(st, spec, r.visited, y) {
        NamedGrows(st, spec, s.visited, r.visited, y);
      }
    }
  }

  lemma VisitCounts(st: Store, spec: PersonaSpec, s: State, fp: Id)
    requires fp !in s.visited && OnlyUsable(st, spec, s.visitedEdges) && EdgeDiagnosticsFor(st, spec, s.visited, s.d)
    ensures var s1 := s.(visited := s.visited + {fp});
            EdgeDiagnosticsFor(st, spec, s1.visited, ScanRows(st, spec, fp, s1, st.EdgeIdsTouching(fp)).d)
  {
    var s1 := s.(visited := s.visited + {fp});
    var rows := st.EdgeIdsTouching(fp);
    var d := ScanRows(st, spec, fp, s1, rows).d;
    ScanCounts(st, spec, fp, s1, rows);
    SumInsert(s.visited, fp, EdgeHits(st, spec, Excluded));
    SumInsert(s.visited, fp, EdgeHits(st, spec, Forbidden));
    SumInsert(s.visited, fp, EdgeHits(st, spec, BelowThreshold));
    ScanDangling(st, spec, fp, s1, rows, fp);
    forall e ensures e in d.danglingEdges <==> Touched(st, spec, s1.visited, Dangling, e) {
      ScanDangling(st, spec, fp, s1, rows, e);
      assert e in s.d.danglingEdges <==> Touched(st, spec, s.visited, Dangling, e);
    }
  }

  lemma PopExact(st: Store, spec: PersonaSpec, s: State)
    requires s.queue != [] && Exact(st, spec, s)
    ensures Exact(st, spec, PopStep(st, spec, s))
  {
    var fp := s.queue[|s.queue| - 1];
    if fp !in s.visited && fp in st.fingerprints {
      var s0 := s.(queue := s.queue[..|s.queue| - 1]);
      var r := PopStep(st, spec, s);
      VisitCounts(st, spec, s0, fp);
      ScanAcceptsUsable(st, spec, fp, s0.(visited := s.visited + {fp}), st.EdgeIdsTouching(fp));
      forall e ensures e in r.visitedEdges <==> Touched(st, spec, r.visited, Usable, e) {
        assert e in s.visitedEdges <==> Touched(st, spec, s.visited, Usable, e);
      }
    }
  }

  lemma PopKnown(st: Store, spec: PersonaSpec, s: State)
    requires s.queue != [] && OnlyUsable(st, spec, s.visitedEdges)
    ensures Known(s) <= Known(PopStep(st, spec, s))
  {
    var fp := s.queue[|s.queue| - 1];
    PopParts(s);
    if fp !in s.visited && fp in st.fingerprints {
      var s1 := s.(queue := s.queue[..|s.queue| - 1], visited := s.visited + {fp});
      ScanPushes(st, spec, fp, s1, st.EdgeIdsTouching(fp));
    }
  }

  lemma NewEdgeComplete(st: Store, spec: PersonaSpec, s: State, fp: Id, e: Id)
    requires OnlyUsable(st, spec, s.visitedEdges) && fp in s.visited
    requires var r := ScanRows(st, spec, fp, s, st.EdgeIdsTouching(fp)); e in r.visitedEdges - s.visitedEdges
    ensures var r := ScanRows(st, spec, fp, s, st.EdgeIdsTouching(fp));
            e in st.edges && (EndsKnown(st, r, e) || MetAtStranger(st, r.visited, e))
  {
    var r := ScanRows(st, spec, fp, s, st.EdgeIdsTouching(fp));
    ScanPushes(st, spec, fp, s, st.EdgeIdsTouching(fp));
    ScanAcceptsUsable(st, spec, fp, s, st.EdgeIdsTouching(fp));
    if st.edges[e].HasEndpoint(fp) {
      assert st.edges[e].OtherEndpoint(fp).value in Known(r);
    }
  }

  /** The visited-edge shortcut loses nothing except at strangers. */
  lemma PopComplete(st: Store, spec: PersonaSpec, s: State)
    requires s.queue != [] && Complete(st, spec, s) && OnlyUsable(st, spec, s.visitedEdges)
    ensures Complete(st, spec, PopStep(st, spec, s))
  {
    var fp := s.queue[|s.queue| - 1];
    var r := PopStep(st, spec, s);
    PopKnown(st, spec, s);
    if fp !in s.visited && fp in st.fingerprints {
      var s1 := s.(queue := s.queue[..|s.queue| - 1], visited := s.visited + {fp});
      forall e | e in r.visitedEdges
        ensures e in st.edges && (EndsKnown(st, r, e) || MetAtStranger(st, r.visited, e))
      {
        if e in s.visitedEdges {
          assert EndsKnown(st, s, e) || MetAtStranger(st, s.visited, e);
        } else {
          NewEdgeComplete(st, spec, s1, fp, e);
        }
      }
    }
  }

  ghost predicate Good(st: Store, spec: PersonaSpec, s: State) {
    Sound(st, spec, s) && Exact(st, spec, s) && Complete(st, spec, s)
  }

  lemma PopKeeps(st: Store, spec: PersonaSpec, s: State)
    requires s.queue != [] && Good(st, spec, s)
    ensures Good(st, spec, PopStep(st, spec, s))
  {
    assert OnlyUsable(st, spec, s.visitedEdges);
    PopSound(st, spec, s);
    PopExact(st, spec, s);
    PopComplete(st, spec, s);
  }

  /** What every round keeps holds when the worklist is empty. */
  lemma {:induction false} DrainInduction(st: Store, spec: PersonaSpec, s: State, keeps: State -> bool)
    requires keeps(s)
    requires forall t: State :: t.queue != [] && keeps(t) ==> keeps(PopStep(st, spec, t))
    ensures keeps(Drain(st, spec, s)) && Drain(st, spec, s).queue == []
    decreases st.fingerprints - s.visited, |s.queue|
  {
    if s.queue != [] {
      DrainInduction(st, spec, PopStep(st, spec, s), keeps);
    }
  }

  lemma DrainKeeps(st: Store, spec: PersonaSpec, s: State)
    requires Good(st, spec, s)
    ensures Good(st, spec, Drain(st, spec, s)) && Drain(st, spec, s).queue == []
  {
    ghost var keeps := (t: State) => Good(st, spec, t);
    forall t: State | t.queue != [] && keeps(t) ensures keeps(PopStep(st, spec, t)) {
      PopKeeps(st, spec, t);
    }
    DrainInduction(st, spec, s, keeps);
  }

  lemma DrainedFarEnd(st: Store, spec: PersonaSpec, s: State, x: Id, y: Id)
    requires s.queue == [] && Sound(st, spec, s) && Complete(st, spec, s)
    requires forall e :: e in s.visitedEdges <==> Touched(st, spec, s.visited, Usable, e)
    requires x in s.visited && Linked(st, spec, x, y)
    ensures KeyedByEndpoint(st, spec) ==> y in s.visited || y in s.d.missingSeeds
    ensures Unmasked(st, spec) && y in st.fingerprints ==> y in s.visited
  {
    var e :| e in st.EdgeIdsTouching(x) && Judge(st, spec, e) == Usable
             && st.edges[e].OtherEndpoint(x) == Some(y);
    assert Touched(st, spec, s.visited, Usable, e);
    if EndsKnown(st, s, e) {
      assert y in Known(s);
    } else {
      var z :| z in s.visited && e in st.EdgeIdsTouching(z) && !st.edges[e].HasEndpoint(z);
      assert !KeyedByEndpoint(st, spec);
      assert y in st.fingerprints && x != y ==> Masks(st, e, z, x, y);
    }
  }

  /** A drained worklist has visited the whole component, and reports every missing id. */
  lemma DrainedIsComponent(st: Store, spec: PersonaSpec, s: State)
    requires s.queue == [] && Sound(st, spec, s) && Complete(st, spec, s)
    requires forall e :: e in s.visitedEdges <==> Touched(st, spec, s.visited, Usable, e)
    ensures ReachedAndMissing(st, spec, s.visited, s.d.missingSeeds)
  {
    forall x | x in SeedSet(spec) * st.fingerprints ensures x in s.visited {
      assert x in Known(s);
    }
    if Unmasked(st, spec) {
      forall x, y | x in s.visited && y in st.fingerprints && Linked(st, spec, x, y) ensures y in s.visited {
        DrainedFarEnd(st, spec, s, x, y);
      }
      assert Closed(st, spec, s.visited);
      ComponentIsLeastClosed(st, spec, SeedSet(spec));
    }
    assert forall y :: y in s.d.missingSeeds <==> y in Elements(s.d.missingSeeds);
    if KeyedByEndpoint(st, spec) {
      forall y | y !in st.fingerprints && Named(st, spec, s.visited, y) ensures y in s.d.missingSeeds {
        if y in spec.seeds {
          assert y in Known(s);
        } else {
          var x :| x in s.visited && Linked(st, spec, x, y);
          DrainedFarEnd(st, spec, s, x, y);
        }
      }
    }
  }

  lemma StartsWell(st: Store, spec: PersonaSpec)
    ensures Good(st, spec, Initial(spec))
  {
  }

  method ScanMentions(spec: PersonaSpec, ms: seq<Id>) returns (kept: set<Id>, excluded: nat)
    ensures forall m :: m in kept <==> m in ms && m !in spec.excludedMentions
    ensures excluded == Count(ms, MentionExcluded(spec))
  {
    kept, excluded := {}, 0;
    for i := 0 to |ms|
      invariant forall m :: m in kept <==> m in ms[..i] && m !in spec.excludedMentions
      invariant excluded == Count(ms[..i], MentionExcluded(spec))
    {
      assert ms[..i + 1] == ms[..i] + [ms[i]] && ms[..i + 1][..i] == ms[..i];
      if ms[i] in spec.excludedMentions {
        excluded := excluded + 1;
      } else {
        kept := kept + {ms[i]};
      }
    }
    assert ms[..|ms|] == ms;
  }

  /** The mention pass over the visited fingerprints, in any order. */
  method CollectMentions(st: Store, spec: PersonaSpec, fps: set<Id>)
    returns (mentionIds: set<Id>, excludedCount: nat)
    ensures forall m :: m in mentionIds <==> MentionOf(st, spec, fps, m)
    ensures excludedCount == Sum(fps, MentionHits(st, spec))
  {
    mentionIds, excludedCount := {}, 0;
    var rest := fps;
    ghost var done: set<Id> := {};
    while rest != {}
      invariant done !! rest && done + rest == fps
      invariant forall m :: m in mentionIds <==> m !in spec.excludedMentions && MentionRowOf(st, done, m)
      invariant excludedCount == Sum(done, MentionHits(st, spec))
      decreases rest
    {
      var x :| x in rest;
      var kept, excluded := ScanMentions(spec, st.MentionIdsTouching(x));
      SumInsert(done, x, MentionHits(st, spec));
      assert forall m :: MentionRowOf(st, done + {x}, m) <==>
                         MentionRowOf(st, done, m) || m in st.MentionIdsTouching(x);
      mentionIds, excludedCount := mentionIds + kept, excludedCount + excluded;
      rest, done := rest - {x}, done + {x};
    }
    mentionIds := mentionIds + spec.includedMentions;
    assert done == fps;
  }

  /** The row loop of `resolve` for one fingerprint. */
  method ScanFingerprint(st: Store, spec: PersonaSpec, fp: Id, s: State) returns (r: State)
    ensures r == ScanRows(st, spec, fp, s, st.EdgeIdsTouching(fp))
  {
    var rows := st.EdgeIdsTouching(fp);
    var visitedEdges, queue, d := s.visitedEdges, s.queue, s.d;
    for i := 0 to |rows|
      invariant State(s.visited, visitedEdges, queue, d) == ScanRows(st, spec, fp, s, rows[..i])
    {
      var e := rows[i];
      assert rows[..i + 1][..i] == rows[..i];
      if e in visitedEdges { continue; }
      if e in spec.excludedEdges {
        d := d.(excludedEdgeCount := d.excludedEdgeCount + 1);
        continue;
      }
      if e !in st.edges {
        if e !in d.danglingEdges {
          d := d.(danglingEdges := d.danglingEdges + [e]);
        }
        continue;
      }
      var edge := st.edges[e];
      if edge.kind == USER_FORBIDDEN {
        d := d.(forbiddenEdgeCount := d.forbiddenEdgeCount + 1);
        continue;
      }
      if edge.weight < spec.threshold {
        d := d.(belowThresholdEdgeCount := d.belowThresholdEdgeCount + 1);
        continue;
      }
      visitedEdges := visitedEdges + {e};
      var other := edge.OtherEndpoint(fp);
      if other.Some? && other.value !in s.visited {
        queue := queue + [other.value];
      }
    }
    assert rows[..|rows|] == rows;
    r := State(s.visited, visitedEdges, queue, d);
  }

  /** The worklist loop of `resolve`. */
  method Traverse(st: Store, spec: PersonaSpec) returns (s: State)
    ensures s == Drain(st, spec, Initial(spec)) && s.queue == []
  {
    s := State({}, {}, spec.seeds, NO_DIAGNOSTICS);
    while s.queue != []
      invariant Drain(st, spec, s) == Drain(st, spec, Initial(spec))
      decreases st.fingerprints - s.visited, |s.queue|
    {
      ghost var before := s;
      var fp := s.queue[|s.queue| - 1];
      s := s.(queue := s.queue[..|s.queue| - 1]);
      if fp in s.visited { continue; }
      if fp !in st.fingerprints {
        if fp !in s.d.missingSeeds {
          s := s.(d := s.d.(missingSeeds := s.d.missingSeeds + [fp]));
        }
        continue;
      }
      s := s.(visited := s.visited + {fp});
      s := ScanFingerprint(st, spec, fp, s);
      assert s == PopStep(st, spec, before);
    }
  }

  function Assemble(spec: PersonaSpec, s: State, mentionIds: set<Id>, excludedMentions: nat): ResolveResult {
    var d := s.d.(excludedMentionCount := excludedMentions);
    if d.IsClean() then
      Resolved(spec.personaId, s.visited, s.visitedEdges, mentionIds, spec.identityId)
    else
      ResolvedWithDiagnostics(spec.personaId, s.visited, s.visitedEdges, mentionIds, spec.identityId, d)
  }

  lemma Traversed(st: Store, spec: PersonaSpec, s: State)
    requires s == Drain(st, spec, Initial(spec))
    ensures s.queue == [] && Exact(st, spec, s) && ReachedAndMissing(st, spec, s.visited, s.d.missingSeeds)
  {
    StartsWell(st, spec);
    DrainKeeps(st, spec, Initial(spec));
    DrainedIsComponent(st, spec, s);
  }

  lemma AssembledAnswers(st: Store, spec: PersonaSpec, s: State, mentionIds: set<Id>, excludedMentions: nat)
    requires s == Drain(st, spec, Initial(spec))
    requires forall m :: m in mentionIds <==> MentionOf(st, spec, s.visited, m)
    requires excludedMentions == Sum(s.visited, MentionHits(st, spec))
    ensures Answers(st, spec, Assemble(spec, s, mentionIds, excludedMentions))
  {
    Traversed(st, spec, s);
    var r := Assemble(spec, s, mentionIds, excludedMentions);
    assert Diagnosed(r) == s.d.(excludedMentionCount := excludedMentions);
    assert EdgeDiagnosticsFor(st, spec, s.visited, Diagnosed(r));
  }

  /** Resolves a Persona; terminates on every store, and answers the query as `Answers` says. */
  method Resolve(st: Store, spec: PersonaSpec) returns (r: ResolveResult)
    ensures Answers(st, spec, r)
    ensures KeyedByEndpoint(st, spec) ==> r.fingerprintIds == Component(st, spec, SeedSet(spec))
    ensures r.fingerprintIds == Drain(st, spec, Initial(spec)).visited
  {
    var s := Traverse(st, spec);
    var mentionIds, excludedMentions := CollectMentions(st, spec, s.visited);
    AssembledAnswers(st, spec, s, mentionIds, excludedMentions);
    if KeyedByEndpoint(st, spec) { KeyedIsUnmasked(st, spec); }
    r := Assemble(spec, s, mentionIds, excludedMentions);
  }
}
