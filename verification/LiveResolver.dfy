/**
 `PersonaResolver::resolve` on a store that changes while it runs: every database query is a step of
 its own, and records may be added between any two of them.
 */
module LiveResolver {
  import opened Wrappers
  import opened FingerprintGraph
  import opened FingerprintStore
  import opened Resolver

  /** What the resolver has in hand between two queries. */
  datatype Scan = Idle | WantsRows(fp: Id) | InRows(fp: Id, rows: seq<Id>)

  datatype Live = Live(s: State, scan: Scan)

  predicate Ended(l: Live) {
    l.scan.Idle? && l.s.queue == []
  }

  /** The worklist is popped and the fingerprint looked up; its rows are fetched; each edge is fetched. */
  function LiveStep(st: Store, spec: PersonaSpec, l: Live): Live
    requires !Ended(l)
  {
    match l.scan
    case Idle =>
      var s, n := l.s, |l.s.queue| - 1;
      var fp, s1 := s.queue[n], s.(queue := s.queue[..n]);
      if fp in s.visited then Live(s1, Idle)
      else if fp !in st.fingerprints then
        Live(if fp in s.d.missingSeeds then s1 else s1.(d := s.d.(missingSeeds := s.d.missingSeeds + [fp])), Idle)
      else Live(s1.(visited := s.visited + {fp}), WantsRows(fp))
    case WantsRows(fp) => Live(l.s, InRows(fp, st.EdgeIdsTouching(fp)))
    case InRows(fp, rows) =>
      if rows == [] then Live(l.s, Idle) else Live(ScanRow(st, spec, fp, l.s, rows[0]), InRows(fp, rows[1..]))
  }

  // ---- Stores that only gain records ----

  ghost predicate SameEdge(e: Edge, f: Edge) {
    SameEnds(e, f) && e.kind == f.kind && e.weight == f.weight
  }

  /** Records are added; what an existing edge joins, its kind and its weight stay. */
  ghost predicate Accretes(st: Store, st': Store) {
    && st.fingerprints <= st'.fingerprints
    && (forall id | id in st.edges :: id in st'.edges && SameEdge(st.edges[id], st'.edges[id]))
    && (forall x, id :: HasRow(st, x, id) ==> HasRow(st', x, id))
  }

  /** Rows are keyed by an end of a stored edge, and the ends of stored edges exist. */
  ghost predicate Sane(st: Store) {
    && RowsKeyed(st)
    && forall id | id in st.edges :: st.edges[id].a in st.fingerprints && st.edges[id].b in st.fingerprints
  }

  lemma AccretesTransitive(st: Store, st1: Store, st2: Store)
    requires Accretes(st, st1) && Accretes(st1, st2)
    ensures Accretes(st, st2)
  {
  }

  lemma SameOtherEndpoint(e: Edge, f: Edge, x: Id)
    requires SameEnds(e, f)
    ensures e.OtherEndpoint(x) == f.OtherEndpoint(x)
  {
    assert e.a in {f.a, f.b} && e.b in {f.a, f.b} && f.a in {e.a, e.b} && f.b in {e.a, e.b};
  }

  lemma SameVerdict(st: Store, st': Store, spec: PersonaSpec, e: Id)
    requires Accretes(st, st') && e in st.edges
    ensures Judge(st', spec, e) == Judge(st, spec, e)
  {
  }

  lemma LinksAccrete(st: Store, st': Store, spec: PersonaSpec, x: Id, y: Id)
    requires Accretes(st, st') && Linked(st, spec, x, y)
    ensures Linked(st', spec, x, y)
  {
    var e :| e in st.EdgeIdsTouching(x) && Judge(st, spec, e) == Usable && st.edges[e].OtherEndpoint(x) == Some(y);
    SameVerdict(st, st', spec, e);
    SameOtherEndpoint(st.edges[e], st'.edges[e], x);
    assert HasRow(st, x, e) && HasRow(st', x, e);
  }

  lemma ReachableAccretes(st: Store, st': Store, spec: PersonaSpec, seeds: set<Id>, x: Id)
    requires Accretes(st, st') && Reachable(st, spec, seeds, x)
    ensures Reachable(st', spec, seeds, x)
  {
    var p :| IsWalk(st, spec, p) && p[0] in seeds && p[|p| - 1] == x;
    forall i, j | 0 <= i < j < |p| && j == i + 1 ensures Linked(st', spec, p[i], p[j]) {
      LinksAccrete(st, st', spec, p[i], p[j]);
    }
    assert IsWalk(st', spec, p);
  }

  lemma NamedAccretes(st: Store, st': Store, spec: PersonaSpec, fps: set<Id>, y: Id)
    requires Accretes(st, st') && Named(st, spec, fps, y)
    ensures Named(st', spec, fps, y)
  {
    if y !in spec.seeds {
      var x :| x in fps && Linked(st, spec, x, y);
      LinksAccrete(st, st', spec, x, y);
    }
  }

  // ---- The invariant, in four parts ----

  /** Only what the current store reaches was visited or queued. */
  ghost predicate Reaches(st: Store, spec: PersonaSpec, s: State) {
    && s.visited <= st.fingerprints
    && (forall x :: x in s.visited ==> Reachable(st, spec, SeedSet(spec), x))
    && (forall y :: y in Elements(s.queue) ==> Named(st, spec, s.visited, y))
  }

  /** The rows in hand are stored rows of a visited fingerprint. */
  ghost predicate Holds(st: Store, l: Live) {
    match l.scan
    case Idle => true
    case WantsRows(fp) => fp in l.s.visited
    case InRows(fp, rows) => fp in l.s.visited && forall e :: e in rows ==> HasRow(st, fp, e)
  }

  /** No edge was found missing; met edges are usable and their ends are known. */
  ghost predicate Met(st: Store, spec: PersonaSpec, s: State) {
    && s.d.danglingEdges == []
    && (forall e :: e in s.visitedEdges ==> e in st.edges && Judge(st, spec, e) == Usable && EndsKnown(st, s, e))
  }

  /** The row of `x` has still to be looked at. */
  predicate Pending(scan: Scan, x: Id, e: Id) {
    match scan
    case Idle => false
    case WantsRows(fp) => fp == x
    case InRows(fp, rows) => fp == x && e in rows
  }

  /** Nothing of the first store was dropped. */
  ghost predicate Keeps(first: Store, spec: PersonaSpec, l: Live) {
    && SeedSet(spec) <= Known(l.s)
    && (forall y :: y in Elements(l.s.d.missingSeeds) ==> y in spec.seeds && y !in first.fingerprints)
    && (forall x, e :: x in l.s.visited && HasRow(first, x, e) && Judge(first, spec, e) == Usable ==>
          e in l.s.visitedEdges || Pending(l.scan, x, e))
  }

  ghost predicate LiveInv(first: Store, st: Store, spec: PersonaSpec, l: Live) {
    && Sane(first) && Sane(st) && Accretes(first, st)
    && Reaches(st, spec, l.s) && Holds(st, l) && Met(st, spec, l.s) && Keeps(first, spec, l)
  }

  lemma ReachesAccretes(st: Store, st': Store, spec: PersonaSpec, s: State)
    requires Accretes(st, st') && Reaches(st, spec, s)
    ensures Reaches(st', spec, s)
  {
    forall x | x in s.visited ensures Reachable(st', spec, SeedSet(spec), x) {
      ReachableAccretes(st, st', spec, SeedSet(spec), x);
    }
    forall y | y in Elements(s.queue) ensures Named(st', spec, s.visited, y) {
      NamedAccretes(st, st', spec, s.visited, y);
    }
  }

  lemma MetAccretes(st: Store, st': Store, spec: PersonaSpec, s: State)
    requires Accretes(st, st') && Met(st, spec, s)
    ensures Met(st', spec, s)
  {
    forall e | e in s.visitedEdges ensures e in st'.edges && Judge(st', spec, e) == Usable && EndsKnown(st', s, e) {
      SameVerdict(st, st', spec, e);
      assert SameEnds(st.edges[e], st'.edges[e]);
      assert st'.edges[e].a in {st.edges[e].a, st.edges[e].b} && st'.edges[e].b in {st.edges[e].a, st.edges[e].b};
    }
  }

  /** The invariant survives whatever is added between two queries. */
  lemma InvAccretes(first: Store, st: Store, st': Store, spec: PersonaSpec, l: Live)
    requires LiveInv(first, st, spec, l) && Accretes(st, st') && Sane(st')
    ensures LiveInv(first, st', spec, l)
  {
    AccretesTransitive(first, st, st');
    ReachesAccretes(st, st', spec, l.s);
    MetAccretes(st, st', spec, l.s);
  }

  // ---- Each query ----

  lemma KnownOnly(s: State, s': State)
    requires Known(s) <= Known(s') && s'.visitedEdges == s.visitedEdges && s'.d.danglingEdges == s.d.danglingEdges
    ensures forall st, spec :: Met(st, spec, s) ==> Met(st, spec, s')
  {
  }

  lemma PopReaches(st: Store, spec: PersonaSpec, s: State, fp: Id)
    requires Reaches(st, spec, s) && fp in st.fingerprints && Named(st, spec, s.visited, fp)
    ensures Reaches(st, spec, s.(visited := s.visited + {fp}))
  {
    var seeds := SeedSet(spec);
    assert Reachable(st, spec, seeds, fp) by {
      if fp in spec.seeds {
        SeedReachable(st, spec, seeds, fp);
      } else {
        var x :| x in s.visited && Linked(st, spec, x, fp);
        StepReachable(st, spec, seeds, x, fp);
      }
    }
    forall y | y in Elements(s.queue) ensures Named(st, spec, s.visited + {fp}, y) {
      NamedGrows(st, spec, s.visited, s.visited + {fp}, y);
    }
  }

  lemma PopKeepsReaches(st: Store, spec: PersonaSpec, l: Live)
    requires Reaches(st, spec, l.s) && l.scan.Idle? && l.s.queue != []
    ensures Reaches(st, spec, LiveStep(st, spec, l).s) && Known(l.s) <= Known(LiveStep(st, spec, l).s)
  {
    var s, n := l.s, |l.s.queue| - 1;
    var fp, s1 := s.queue[n], s.(queue := s.queue[..n]);
    PopParts(s);
    assert Named(st, spec, s.visited, fp);
    assert Reaches(st, spec, s1);
    if fp !in s.visited && fp in st.fingerprints {
      PopReaches(st, spec, s1, fp);
    }
  }

  lemma NamedIsSeedOrExists(st: Store, spec: PersonaSpec, fps: set<Id>, y: Id)
    requires Sane(st) && Named(st, spec, fps, y)
    ensures y in spec.seeds || y in st.fingerprints
  {
    if y !in spec.seeds {
      var x :| x in fps && Linked(st, spec, x, y);
      var e :| e in st.EdgeIdsTouching(x) && Judge(st, spec, e) == Usable && st.edges[e].OtherEndpoint(x) == Some(y);
    }
  }

  lemma PopKeepsKeeps(first: Store, st: Store, spec: PersonaSpec, l: Live)
    requires Keeps(first, spec, l) && Accretes(first, st) && l.scan.Idle? && l.s.queue != []
    requires Known(l.s) <= Known(LiveStep(st, spec, l).s)
    requires var fp := l.s.queue[|l.s.queue| - 1]; fp in spec.seeds || fp in st.fingerprints
    ensures Keeps(first, spec, LiveStep(st, spec, l))
  {
  }

  lemma PopKeepsInv(first: Store, st: Store, spec: PersonaSpec, l: Live)
    requires LiveInv(first, st, spec, l) && l.scan.Idle? && l.s.queue != []
    ensures LiveInv(first, st, spec, LiveStep(st, spec, l))
  {
    PopKeepsReaches(st, spec, l);
    NamedIsSeedOrExists(st, spec, l.s.visited, l.s.queue[|l.s.queue| - 1]);
    PopKeepsKeeps(first, st, spec, l);
    KnownOnly(l.s, LiveStep(st, spec, l).s);
  }

  lemma FetchKeepsInv(first: Store, st: Store, spec: PersonaSpec, l: Live)
    requires LiveInv(first, st, spec, l) && l.scan.WantsRows?
    ensures LiveInv(first, st, spec, LiveStep(st, spec, l))
  {
    var fp, l' := l.scan.fp, LiveStep(st, spec, l);
    forall e | e in st.EdgeIdsTouching(fp) ensures HasRow(st, fp, e) {
    }
    forall e | HasRow(first, fp, e) ensures e in l'.scan.rows {
      assert HasRow(st, fp, e);
    }
  }

  /** A usable row that was not met before is looked at. */
  ghost predicate Accepts(st: Store, spec: PersonaSpec, fp: Id, s: State, e: Id) {
    HasRow(st, fp, e) && fp in s.visited && e !in s.visitedEdges && Judge(st, spec, e) == Usable
  }

  lemma AcceptReaches(st: Store, spec: PersonaSpec, fp: Id, s: State, e: Id)
    requires Sane(st) && Reaches(st, spec, s) && Accepts(st, spec, fp, s, e)
    ensures var s' := ScanRow(st, spec, fp, s, e);
            && Reaches(st, spec, s') && Known(s) <= Known(s')
            && st.edges[e].OtherEndpoint(fp).Some? && st.edges[e].OtherEndpoint(fp).value in Known(s')
  {
    var s' := ScanRow(st, spec, fp, s, e);
    var other := st.edges[e].OtherEndpoint(fp).value;
    assert Linked(st, spec, fp, other) by { assert e in st.EdgeIdsTouching(fp); }
    assert Named(st, spec, s.visited, other);
    assert Elements(s'.queue) <= Elements(s.queue) + {other};
  }

  /** The edge is met and its ends are known. */
  lemma AcceptMet(st: Store, spec: PersonaSpec, fp: Id, s: State, e: Id)
    requires Accepts(st, spec, fp, s, e) && Met(st, spec, s)
    requires var s' := ScanRow(st, spec, fp, s, e);
             && Known(s) <= Known(s')
             && st.edges[e].OtherEndpoint(fp).Some? && st.edges[e].OtherEndpoint(fp).value in Known(s')
    ensures Met(st, spec, ScanRow(st, spec, fp, s, e))
  {
    assert EndsKnown(st, ScanRow(st, spec, fp, s, e), e);
  }

  lemma AcceptKeeps(first: Store, st: Store, spec: PersonaSpec, l: Live)
    requires Keeps(first, spec, l) && l.scan.InRows? && l.scan.rows != []
    requires Accepts(st, spec, l.scan.fp, l.s, l.scan.rows[0]) && Known(l.s) <= Known(LiveStep(st, spec, l).s)
    ensures Keeps(first, spec, LiveStep(st, spec, l))
  {
    assert l.scan.rows == [l.scan.rows[0]] + l.scan.rows[1..];
  }

  lemma AcceptKeepsInv(first: Store, st: Store, spec: PersonaSpec, l: Live)
    requires LiveInv(first, st, spec, l) && l.scan.InRows? && l.scan.rows != []
    requires l.scan.rows[0] !in l.s.visitedEdges && Judge(st, spec, l.scan.rows[0]) == Usable
    ensures LiveInv(first, st, spec, LiveStep(st, spec, l))
  {
    var fp, rows := l.scan.fp, l.scan.rows;
    assert rows[0] in rows && HasRow(st, fp, rows[0]);
    AcceptReaches(st, spec, fp, l.s, rows[0]);
    AcceptMet(st, spec, fp, l.s, rows[0]);
    AcceptKeeps(first, st, spec, l);
    assert forall e :: e in rows[1..] ==> e in rows;
  }

  /** A row that is met already or filtered: nothing but a counter changes. */
  lemma SkipChanges(st: Store, spec: PersonaSpec, fp: Id, s: State, e: Id)
    requires e in st.edges && (e in s.visitedEdges || Judge(st, spec, e) != Usable)
    ensures var s' := ScanRow(st, spec, fp, s, e);
            s' == s.(d := s'.d) && s'.d.missingSeeds == s.d.missingSeeds && s'.d.danglingEdges == s.d.danglingEdges
  {
  }

  lemma SkipKeeps(first: Store, st: Store, spec: PersonaSpec, l: Live, s': State)
    requires Keeps(first, spec, l) && Accretes(first, st) && l.scan.InRows? && l.scan.rows != []
    requires RowsKeyed(first) && s' == l.s.(d := s'.d) && s'.d.missingSeeds == l.s.d.missingSeeds
    requires l.scan.rows[0] in l.s.visitedEdges || Judge(st, spec, l.scan.rows[0]) != Usable
    ensures Keeps(first, spec, Live(s', InRows(l.scan.fp, l.scan.rows[1..])))
  {
    var e := l.scan.rows[0];
    assert l.scan.rows == [e] + l.scan.rows[1..];
    assert Known(s') == Known(l.s);
    if e in first.edges {
      SameVerdict(first, st, spec, e);
    }
  }

  lemma SkipKeepsInv(first: Store, st: Store, spec: PersonaSpec, l: Live)
    requires LiveInv(first, st, spec, l) && l.scan.InRows? && l.scan.rows != []
    requires l.scan.rows[0] in l.s.visitedEdges || Judge(st, spec, l.scan.rows[0]) != Usable
    ensures LiveInv(first, st, spec, LiveStep(st, spec, l))
  {
    var fp, rows, s := l.scan.fp, l.scan.rows, l.s;
    var s' := ScanRow(st, spec, fp, s, rows[0]);
    assert rows[0] in rows && HasRow(st, fp, rows[0]);
    SkipChanges(st, spec, fp, s, rows[0]);
    SkipKeeps(first, st, spec, l, s');
    assert Known(s') == Known(s);
    KnownOnly(s, s');
    assert forall e :: e in rows[1..] ==> e in rows;
  }

  lemma LiveStepKeepsInv(first: Store, st: Store, spec: PersonaSpec, l: Live)
    requires LiveInv(first, st, spec, l) && !Ended(l)
    ensures LiveInv(first, st, spec, LiveStep(st, spec, l))
  {
    match l.scan
    case Idle => PopKeepsInv(first, st, spec, l);
    case WantsRows(_) => FetchKeepsInv(first, st, spec, l);
    case InRows(_, rows) =>
      if rows != [] {
        if rows[0] !in l.s.visitedEdges && Judge(st, spec, rows[0]) == Usable {
          AcceptKeepsInv(first, st, spec, l);
        } else {
          SkipKeepsInv(first, st, spec, l);
        }
      }
  }

  // ---- Whole resolutions ----

  /** A resolution, query by query: `stores[i]` answers the query that leads from `ls[i]` to `ls[i + 1]`. */
  ghost predicate IsResolution(spec: PersonaSpec, stores: seq<Store>, ls: seq<Live>) {
    && |stores| == |ls| && ls != [] && ls[0] == Live(Initial(spec), Idle)
    && forall i, j | 0 <= i < j < |ls| && j == i + 1 :: !Ended(ls[i]) && ls[j] == LiveStep(stores[i], spec, ls[i])
  }

  /** Sane stores, each the one before with records added. */
  ghost predicate Grow(stores: seq<Store>) {
    && (forall i | 0 <= i < |stores| :: Sane(stores[i]))
    && (forall i, j | 0 <= i < j < |stores| && j == i + 1 :: Accretes(stores[i], stores[j]))
  }

  ghost predicate IsLiveRun(spec: PersonaSpec, stores: seq<Store>, ls: seq<Live>) {
    IsResolution(spec, stores, ls) && Grow(stores)
  }

  lemma StartsLive(first: Store, spec: PersonaSpec)
    requires Sane(first)
    ensures LiveInv(first, first, spec, Live(Initial(spec), Idle))
  {
  }

  lemma {:induction false} LiveInvHolds(spec: PersonaSpec, stores: seq<Store>, ls: seq<Live>, n: nat)
    requires IsLiveRun(spec, stores, ls) && n < |ls|
    ensures LiveInv(stores[0], stores[n], spec, ls[n])
  {
    if n == 0 {
      StartsLive(stores[0], spec);
    } else {
      LiveInvHolds(spec, stores, ls, n - 1);
      var l, l' := ls[n - 1], ls[n];
      LiveStepKeepsInv(stores[0], stores[n - 1], spec, ls[n - 1]);
      InvAccretes(stores[0], stores[n - 1], stores[n], spec, ls[n]);
    }
  }

  lemma KeptIsClosed(first: Store, st: Store, spec: PersonaSpec, l: Live, x: Id, y: Id)
    requires LiveInv(first, st, spec, l) && Ended(l)
    requires x in l.s.visited && y in first.fingerprints && Linked(first, spec, x, y)
    ensures y in l.s.visited
  {
    var e :| e in first.EdgeIdsTouching(x) && Judge(first, spec, e) == Usable
             && first.edges[e].OtherEndpoint(x) == Some(y);
    assert HasRow(first, x, e);
    assert e in l.s.visitedEdges;
    SameOtherEndpoint(first.edges[e], st.edges[e], x);
    assert y in Known(l.s);
  }

  lemma KeptSeeds(first: Store, st: Store, spec: PersonaSpec, l: Live)
    requires LiveInv(first, st, spec, l) && Ended(l)
    ensures SeedSet(spec) * first.fingerprints <= l.s.visited
  {
    forall x | x in SeedSet(spec) * first.fingerprints ensures x in l.s.visited {
      assert x in Known(l.s);
    }
  }

  /**
   A resolution that ends while records are being added reports no dangling edge, reports as missing only seeds that
   were absent where it started, and its fingerprints lie between the component in the store where it started and the
   component in the store where it ended.
   */
  lemma LiveResultLiesBetween(spec: PersonaSpec, stores: seq<Store>, ls: seq<Live>)
    requires IsLiveRun(spec, stores, ls) && Ended(ls[|ls| - 1])
    ensures var s, n := ls[|ls| - 1].s, |ls| - 1;
            && s.d.danglingEdges == []
            && (forall y | y in s.d.missingSeeds :: y in spec.seeds && y !in stores[0].fingerprints)
            && Component(stores[0], spec, SeedSet(spec)) <= s.visited
            && s.visited <= Component(stores[n], spec, SeedSet(spec))
  {
    var n := |ls| - 1;
    var first, last, l := stores[0], stores[n], ls[n];
    LiveInvHolds(spec, stores, ls, n);
    KeptSeeds(first, last, spec, l);
    forall y | y in l.s.d.missingSeeds ensures y in spec.seeds && y !in first.fingerprints {
      assert y in Elements(l.s.d.missingSeeds);
    }
    forall x, y | x in l.s.visited && y in first.fingerprints && Linked(first, spec, x, y) ensures y in l.s.visited {
      KeptIsClosed(first, last, spec, l, x, y);
    }
    assert Closed(first, spec, l.s.visited);
    ComponentIsLeastClosed(first, spec, SeedSet(spec));
  }

  // ---- A store that does not change ----

  lemma {:induction false} ScanRowsCons(st: Store, spec: PersonaSpec, fp: Id, s: State, rows: seq<Id>)
    requires rows != []
    ensures ScanRows(st, spec, fp, s, rows) == ScanRows(st, spec, fp, ScanRow(st, spec, fp, s, rows[0]), rows[1..])
  {
    var n := |rows| - 1;
    if n == 0 {
      assert rows[..0] == [] && rows[1..] == [];
    } else {
      ScanRowsCons(st, spec, fp, s, rows[..n]);
      assert rows[..n][1..] == rows[1..][..n - 1] && rows[1..][n - 1] == rows[n];
    }
  }

  /** What `resolve` makes of the rows in hand and of the worklist. */
  function Finish(st: Store, spec: PersonaSpec, l: Live): State {
    match l.scan
    case Idle => Drain(st, spec, l.s)
    case WantsRows(fp) => Drain(st, spec, ScanRows(st, spec, fp, l.s, st.EdgeIdsTouching(fp)))
    case InRows(fp, rows) => Drain(st, spec, ScanRows(st, spec, fp, l.s, rows))
  }

  lemma StepKeepsFinish(st: Store, spec: PersonaSpec, l: Live)
    requires !Ended(l)
    ensures Finish(st, spec, LiveStep(st, spec, l)) == Finish(st, spec, l)
  {
    if l.scan.InRows? && l.scan.rows != [] {
      ScanRowsCons(st, spec, l.scan.fp, l.s, l.scan.rows);
    }
  }

  lemma {:induction false} FinishHolds(spec: PersonaSpec, st: Store, stores: seq<Store>, ls: seq<Live>, n: nat)
    requires IsResolution(spec, stores, ls) && n < |ls| && forall i | 0 <= i < |stores| :: stores[i] == st
    ensures Finish(st, spec, ls[n]) == Drain(st, spec, Initial(spec))
  {
    if n > 0 {
      FinishHolds(spec, st, stores, ls, n - 1);
      var l, l' := ls[n - 1], ls[n];
      assert stores[n - 1] == st;
      StepKeepsFinish(st, spec, l);
    }
  }

  /**
   On any store that does not change, the queries one by one end in the very state of `resolve`: visited
   fingerprints, met edges, every counter and both lists.
   */
  lemma LiveAgreesOnQuietStore(spec: PersonaSpec, st: Store, stores: seq<Store>, ls: seq<Live>)
    requires IsResolution(spec, stores, ls) && Ended(ls[|ls| - 1]) && forall i | 0 <= i < |stores| :: stores[i] == st
    ensures ls[|ls| - 1].s == Drain(st, spec, Initial(spec))
  {
    FinishHolds(spec, st, stores, ls, |ls| - 1);
  }
}
