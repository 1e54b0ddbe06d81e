/** Laws of Persona resolution that relate several queries, and what a clean result means. */
module ResolverLaws {
  import opened Wrappers
  import opened FingerprintGraph
  import opened Resolver

  // ---- Algebra of results ----

  /** Whatever passes the filters of `stricter` passes those of `spec`. */
  predicate Loosens(spec: PersonaSpec, stricter: PersonaSpec) {
    spec.threshold <= stricter.threshold && spec.excludedEdges <= stricter.excludedEdges
  }

  lemma StricterLinks(st: Store, spec: PersonaSpec, stricter: PersonaSpec, x: Id, y: Id)
    requires Loosens(spec, stricter) && Linked(st, stricter, x, y)
    ensures Linked(st, spec, x, y)
  {
    var e :| e in st.EdgeIdsTouching(x) && Judge(st, stricter, e) == Usable
             && st.edges[e].OtherEndpoint(x) == Some(y);
    assert Judge(st, spec, e) == Usable;
  }

  lemma StricterComponent(st: Store, spec: PersonaSpec, stricter: PersonaSpec, seeds: set<Id>)
    requires Loosens(spec, stricter)
    ensures Component(st, stricter, seeds) <= Component(st, spec, seeds)
  {
    ComponentIsLeastClosed(st, spec, seeds);
    ComponentIsLeastClosed(st, stricter, seeds);
    var c := Component(st, spec, seeds);
    forall x, y | x in c && y in st.fingerprints && Linked(st, stricter, x, y) ensures y in c {
      StricterLinks(st, spec, stricter, x, y);
    }
    assert Closed(st, stricter, c);
  }

  lemma StricterUnmasked(st: Store, spec: PersonaSpec, stricter: PersonaSpec)
    requires Loosens(spec, stricter) && Unmasked(st, spec)
    ensures Unmasked(st, stricter)
  {
    forall e, z, x, y | Masks(st, e, z, x, y) ensures Judge(st, stricter, e) != Usable {
      assert Judge(st, spec, e) != Usable;
    }
  }

  /** An answer to a query with the filters of `spec` is the component of its own seeds. */
  lemma AnswerIs(st: Store, spec: PersonaSpec, q: PersonaSpec, r: ResolveResult)
    requires Unmasked(st, spec) && Loosens(spec, q) && Loosens(q, spec) && Answers(st, q, r)
    ensures r.fingerprintIds == Component(st, spec, SeedSet(q))
  {
    StricterUnmasked(st, spec, q);
    StricterComponent(st, spec, q, SeedSet(q));
    StricterComponent(st, q, spec, SeedSet(q));
  }

  /** Raising the threshold, excluding more edges or dropping seeds never adds fingerprints. */
  lemma StricterQueryShrinks(st: Store, spec: PersonaSpec, r: ResolveResult, stricter: PersonaSpec, r': ResolveResult)
    requires Unmasked(st, spec) && Answers(st, spec, r) && Answers(st, stricter, r')
    requires Loosens(spec, stricter) && SeedSet(stricter) <= SeedSet(spec)
    ensures r'.fingerprintIds <= r.fingerprintIds
  {
    AnswerIs(st, spec, spec, r);
    StricterUnmasked(st, spec, stricter);
    AnswerIs(st, stricter, stricter, r');
    StricterComponent(st, spec, stricter, SeedSet(stricter));
    MoreSeedsGrow(st, spec, SeedSet(stricter), SeedSet(spec));
  }

  lemma MoreSeedsGrow(st: Store, spec: PersonaSpec, s: set<Id>, t: set<Id>)
    requires s <= t
    ensures Component(st, spec, s) <= Component(st, spec, t)
  {
    ComponentIsLeastClosed(st, spec, s);
    ComponentIsLeastClosed(st, spec, t);
  }

  lemma UnionOfComponents(st: Store, spec: PersonaSpec, s: set<Id>, t: set<Id>)
    ensures Component(st, spec, s + t) == Component(st, spec, s) + Component(st, spec, t)
  {
    MoreSeedsGrow(st, spec, s, s + t);
    MoreSeedsGrow(st, spec, t, s + t);
    ComponentIsLeastClosed(st, spec, s);
    ComponentIsLeastClosed(st, spec, t);
    ComponentIsLeastClosed(st, spec, s + t);
    var c := Component(st, spec, s) + Component(st, spec, t);
    assert Closed(st, spec, c);
    assert (s + t) * st.fingerprints <= c;
  }

  /** Resolving a union of seed sets gives the union of the results. */
  lemma UnionOfSeeds(st: Store, spec: PersonaSpec, s: seq<Id>, rs: ResolveResult, t: seq<Id>, rt: ResolveResult,
                     u: seq<Id>, ru: ResolveResult)
    requires Unmasked(st, spec) && Elements(u) == Elements(s) + Elements(t)
    requires Answers(st, spec.(seeds := s), rs) && Answers(st, spec.(seeds := t), rt)
    requires Answers(st, spec.(seeds := u), ru)
    ensures ru.fingerprintIds == rs.fingerprintIds + rt.fingerprintIds
  {
    AnswerIs(st, spec, spec.(seeds := s), rs);
    AnswerIs(st, spec, spec.(seeds := t), rt);
    AnswerIs(st, spec, spec.(seeds := u), ru);
    UnionOfComponents(st, spec, Elements(s), Elements(t));
  }

  lemma ComponentIsFixedPoint(st: Store, spec: PersonaSpec, seeds: set<Id>)
    ensures Component(st, spec, Component(st, spec, seeds)) == Component(st, spec, seeds)
  {
    var c := Component(st, spec, seeds);
    ComponentIsLeastClosed(st, spec, seeds);
    ComponentIsLeastClosed(st, spec, c);
    assert c * st.fingerprints == c;
  }

  /** Re-seeding with the result, listed in any order, changes nothing. */
  lemma ReseedingIsFixedPoint(st: Store, spec: PersonaSpec, r: ResolveResult, again: seq<Id>, r': ResolveResult)
    requires Unmasked(st, spec) && Answers(st, spec, r) && Answers(st, spec.(seeds := again), r')
    requires Elements(again) == r.fingerprintIds
    ensures r'.fingerprintIds == r.fingerprintIds
  {
    AnswerIs(st, spec, spec, r);
    AnswerIs(st, spec, spec.(seeds := again), r');
    ComponentIsFixedPoint(st, spec, SeedSet(spec));
  }

  /** A row at one endpoint comes with a row at the other. */
  ghost predicate SymmetricRows(st: Store) {
    forall x, e :: e in st.EdgeIdsTouching(x) && e in st.edges && st.edges[e].HasEndpoint(x) ==>
      e in st.EdgeIdsTouching(st.edges[e].OtherEndpoint(x).value)
  }

  lemma SymmetricLinks(st: Store, spec: PersonaSpec, x: Id, y: Id)
    requires SymmetricRows(st) && Linked(st, spec, x, y)
    ensures Linked(st, spec, y, x)
  {
    var e :| e in st.EdgeIdsTouching(x) && Judge(st, spec, e) == Usable
             && st.edges[e].OtherEndpoint(x) == Some(y);
    assert e in st.EdgeIdsTouching(y) && st.edges[e].OtherEndpoint(y) == Some(x);
  }

  /** With symmetric rows, whatever `x` reaches reaches `x`. */
  lemma {:induction false} WalkBack(st: Store, spec: PersonaSpec, p: seq<Id>)
    requires SymmetricRows(st) && IsWalk(st, spec, p)
    ensures p[0] in Component(st, spec, {p[|p| - 1]})
  {
    var y := p[|p| - 1];
    ComponentIsLeastClosed(st, spec, {y});
    if |p| > 1 {
      var q := p[..|p| - 1];
      var m := q[|q| - 1];
      assert IsWalk(st, spec, q);
      WalkBack(st, spec, q);
      assert Linked(st, spec, m, y);
      SymmetricLinks(st, spec, m, y);
      var c := Component(st, spec, {y});
      assert m in c;
      ComponentIsLeastClosed(st, spec, {m});
      assert {m} * st.fingerprints <= c;
    }
  }

  lemma SingleSeedComponents(st: Store, spec: PersonaSpec, x: Id, y: Id)
    requires SymmetricRows(st)
    ensures x in st.fingerprints ==> x in Component(st, spec, {x})
    ensures var cx, cy := Component(st, spec, {x}), Component(st, spec, {y}); cx == cy || cx !! cy
  {
    var cx, cy := Component(st, spec, {x}), Component(st, spec, {y});
    ComponentIsLeastClosed(st, spec, {x});
    if z :| z in cx && z in cy {
      SharedMember(st, spec, x, z);
      SharedMember(st, spec, y, z);
    }
  }

  lemma SingleSeedAnswer(st: Store, spec: PersonaSpec, x: Id, r: ResolveResult)
    requires Unmasked(st, spec) && Answers(st, spec.(seeds := [x]), r)
    ensures r.fingerprintIds == Component(st, spec, {x})
  {
    AnswerIs(st, spec, spec.(seeds := [x]), r);
    assert SeedSet(spec.(seeds := [x])) == {x};
  }

  /** With symmetric rows, single-seed results cover the existing fingerprints and are equal or disjoint. */
  lemma SingleSeedResultsPartition(st: Store, spec: PersonaSpec, x: Id, rx: ResolveResult, y: Id, ry: ResolveResult)
    requires SymmetricRows(st) && Unmasked(st, spec)
    requires Answers(st, spec.(seeds := [x]), rx) && Answers(st, spec.(seeds := [y]), ry)
    ensures x in st.fingerprints ==> x in rx.fingerprintIds
    ensures rx.fingerprintIds == ry.fingerprintIds || rx.fingerprintIds !! ry.fingerprintIds
  {
    SingleSeedAnswer(st, spec, x, rx);
    SingleSeedAnswer(st, spec, y, ry);
    SingleSeedComponents(st, spec, x, y);
  }

  lemma SharedMember(st: Store, spec: PersonaSpec, x: Id, z: Id)
    requires SymmetricRows(st) && z in Component(st, spec, {x})
    ensures Component(st, spec, {x}) == Component(st, spec, {z})
  {
    var cx, cz := Component(st, spec, {x}), Component(st, spec, {z});
    var p :| IsWalk(st, spec, p) && p[0] in {x} && p[|p| - 1] == z;
    WalkBack(st, spec, p);
    ComponentIsLeastClosed(st, spec, {x});
    ComponentIsLeastClosed(st, spec, {z});
    assert {x} * st.fingerprints <= cz;
    assert {z} * st.fingerprints <= cx;
  }

  // ---- The order of seeds and rows does not matter ----

  /** The same query: same seeds in another order (or repeated), rows listed in another order. */
  ghost predicate Reordered(st: Store, spec: PersonaSpec, st': Store, spec': PersonaSpec) {
    && SeedSet(spec) == SeedSet(spec')
    && spec'.(seeds := spec.seeds) == spec
    && st.fingerprints == st'.fingerprints && st.edges == st'.edges
    && (forall x :: multiset(st.EdgeIdsTouching(x)) == multiset(st'.EdgeIdsTouching(x)))
    && (forall x :: multiset(st.MentionIdsTouching(x)) == multiset(st'.MentionIdsTouching(x)))
  }

  lemma SameMembers(xs: seq<Id>, ys: seq<Id>)
    requires multiset(xs) == multiset(ys)
    ensures forall e :: e in xs <==> e in ys
  {
    forall e ensures e in xs <==> e in ys {
      assert e in xs <==> e in multiset(xs);
      assert e in ys <==> e in multiset(ys);
    }
  }

  lemma {:induction false} CountIsOrderFree(xs: seq<Id>, ys: seq<Id>, p: Id -> bool)
    requires multiset(xs) == multiset(ys)
    ensures Count(xs, p) == Count(ys, p)
  {
    if xs == [] {
      assert |multiset(ys)| == |ys|;
    } else {
      var n := |xs| - 1;
      var e := xs[n];
      SameMembers(xs, ys);
      assert e in xs && e in ys;
      var i :| 0 <= i < |ys| && ys[i] == e;
      assert ys == ys[..i] + [e] + ys[i + 1..];
      assert xs == xs[..n] + [e];
      assert multiset(xs[..n]) == multiset(xs) - multiset{e};
      assert multiset(ys[..i] + ys[i + 1..]) == multiset(ys) - multiset{e};
      CountIsOrderFree(xs[..n], ys[..i] + ys[i + 1..], p);
      CountWithout(ys[..i], e, ys[i + 1..], p);
    }
  }

  lemma {:induction false} CountWithout(xs: seq<Id>, e: Id, ys: seq<Id>, p: Id -> bool)
    ensures Count(xs + [e] + ys, p) == Count(xs + ys, p) + (if p(e) then 1 else 0)
  {
    if ys == [] {
      assert xs + [e] + ys == xs + [e] && xs + ys == xs;
      assert (xs + [e])[..|xs|] == xs;
    } else {
      var n := |ys| - 1;
      assert (xs + [e] + ys)[..|xs| + 1 + n] == xs + [e] + ys[..n];
      assert (xs + ys)[..|xs| + n] == xs + ys[..n];
      CountWithout(xs, e, ys[..n], p);
    }
  }

  lemma {:induction false} CountAgrees(xs: seq<Id>, p: Id -> bool, q: Id -> bool)
    requires forall e | e in xs :: p(e) == q(e)
    ensures Count(xs, p) == Count(xs, q)
  {
    if xs != [] {
      CountAgrees(xs[..|xs| - 1], p, q);
    }
  }

  lemma ReorderedLinks(st: Store, spec: PersonaSpec, st': Store, spec': PersonaSpec, x: Id, y: Id)
    requires Reordered(st, spec, st', spec') && Linked(st, spec, x, y)
    ensures Linked(st', spec', x, y)
  {
    var e :| e in st.EdgeIdsTouching(x) && Judge(st, spec, e) == Usable
             && st.edges[e].OtherEndpoint(x) == Some(y);
    SameMembers(st.EdgeIdsTouching(x), st'.EdgeIdsTouching(x));
    assert e in st'.EdgeIdsTouching(x) && Judge(st', spec', e) == Usable;
  }

  lemma ReorderedShrinks(st: Store, spec: PersonaSpec, st': Store, spec': PersonaSpec)
    requires Reordered(st, spec, st', spec')
    ensures Component(st, spec, SeedSet(spec)) <= Component(st', spec', SeedSet(spec'))
  {
    var c := Component(st', spec', SeedSet(spec'));
    ComponentIsLeastClosed(st, spec, SeedSet(spec));
    ComponentIsLeastClosed(st', spec', SeedSet(spec'));
    forall x, y | x in c && y in st.fingerprints && Linked(st, spec, x, y) ensures y in c {
      ReorderedLinks(st, spec, st', spec', x, y);
    }
    assert Closed(st, spec, c);
  }

  lemma ReorderedComponents(st: Store, spec: PersonaSpec, st': Store, spec': PersonaSpec)
    requires Reordered(st, spec, st', spec')
    ensures Component(st, spec, SeedSet(spec)) == Component(st', spec', SeedSet(spec'))
  {
    ReorderedShrinks(st, spec, st', spec');
    ReorderedShrinks(st', spec', st, spec);
  }

  lemma ReorderedKeyed(st: Store, spec: PersonaSpec, st': Store, spec': PersonaSpec)
    requires Reordered(st, spec, st', spec') && KeyedByEndpoint(st, spec)
    ensures KeyedByEndpoint(st', spec')
  {
    forall x { SameMembers(st.EdgeIdsTouching(x), st'.EdgeIdsTouching(x)); }
  }

  lemma SumsAgree(s: set<Id>, f: Id -> nat, g: Id -> nat)
    requires forall x | x in s :: f(x) == g(x)
    ensures Sum(s, f) == Sum(s, g)
  {
    if s != {} {
      var x :| x in s && Sum(s, f) == f(x) + Sum(s - {x}, f);
      SumsAgree(s - {x}, f, g);
      SumInsert(s - {x}, x, g);
      assert (s - {x}) + {x} == s;
    }
  }

  lemma ReorderedTouched(st: Store, spec: PersonaSpec, st': Store, spec': PersonaSpec, fps: set<Id>, v: Verdict, e: Id)
    requires Reordered(st, spec, st', spec') && Touched(st, spec, fps, v, e)
    ensures Touched(st', spec', fps, v, e)
  {
    var x :| x in fps && e in st.EdgeIdsTouching(x) && Judge(st, spec, e) == v;
    SameMembers(st.EdgeIdsTouching(x), st'.EdgeIdsTouching(x));
    assert e in st'.EdgeIdsTouching(x) && Judge(st', spec', e) == v;
  }

  lemma ReorderedNamed(st: Store, spec: PersonaSpec, st': Store, spec': PersonaSpec, fps: set<Id>, y: Id)
    requires Reordered(st, spec, st', spec') && Named(st, spec, fps, y)
    ensures Named(st', spec', fps, y)
  {
    if y in spec.seeds {
      assert y in SeedSet(spec');
    } else {
      var x :| x in fps && Linked(st, spec, x, y);
      ReorderedLinks(st, spec, st', spec', x, y);
    }
  }

  lemma ReorderedMention(st: Store, spec: PersonaSpec, st': Store, spec': PersonaSpec, fps: set<Id>, m: Id)
    requires Reordered(st, spec, st', spec') && MentionOf(st, spec, fps, m)
    ensures MentionOf(st', spec', fps, m)
  {
    if m !in spec.includedMentions {
      var x :| x in fps && m in st.MentionIdsTouching(x);
      SameMembers(st.MentionIdsTouching(x), st'.MentionIdsTouching(x));
    }
  }

  lemma ReorderedHitsAt(st: Store, spec: PersonaSpec, st': Store, spec': PersonaSpec, v: Verdict, x: Id)
    requires Reordered(st, spec, st', spec')
    ensures Count(st.EdgeIdsTouching(x), Judged(st, spec, v)) == Count(st'.EdgeIdsTouching(x), Judged(st', spec', v))
  {
    var rows, rows', p, p' := st.EdgeIdsTouching(x), st'.EdgeIdsTouching(x), Judged(st, spec, v), Judged(st', spec', v);
    CountIsOrderFree(rows, rows', p);
    forall e ensures p(e) == p'(e) {
      assert Judge(st, spec, e) == Judge(st', spec', e);
    }
    CountAgrees(rows', p, p');
  }

  lemma ReorderedHits(st: Store, spec: PersonaSpec, st': Store, spec': PersonaSpec, fps: set<Id>, v: Verdict)
    requires Reordered(st, spec, st', spec')
    ensures Sum(fps, EdgeHits(st, spec, v)) == Sum(fps, EdgeHits(st', spec', v))
  {
    var f, f' := EdgeHits(st, spec, v), EdgeHits(st', spec', v);
    forall x ensures f(x) == f'(x) {
      ReorderedHitsAt(st, spec, st', spec', v, x);
    }
    SumsAgree(fps, f, f');
  }

  lemma ReorderedMentionHits(st: Store, spec: PersonaSpec, st': Store, spec': PersonaSpec, fps: set<Id>)
    requires Reordered(st, spec, st', spec')
    ensures Sum(fps, MentionHits(st, spec)) == Sum(fps, MentionHits(st', spec'))
  {
    var f, f' := MentionHits(st, spec), MentionHits(st', spec');
    var p, p' := MentionExcluded(spec), MentionExcluded(spec');
    forall x ensures f(x) == f'(x) {
      CountIsOrderFree(st.MentionIdsTouching(x), st'.MentionIdsTouching(x), p);
      CountAgrees(st'.MentionIdsTouching(x), p, p');
    }
    SumsAgree(fps, f, f');
  }

  ghost predicate SameCounters(d: Diagnostics, d': Diagnostics) {
    && d.excludedEdgeCount == d'.excludedEdgeCount
    && d.forbiddenEdgeCount == d'.forbiddenEdgeCount
    && d.belowThresholdEdgeCount == d'.belowThresholdEdgeCount
    && d.excludedMentionCount == d'.excludedMentionCount
  }

  /** What one answer says, apart from its counters, the other says too. */
  ghost predicate AtMostIn(r: ResolveResult, r': ResolveResult) {
    && r.edgeIds <= r'.edgeIds && r.mentionIds <= r'.mentionIds
    && (forall y :: y in Diagnosed(r).missingSeeds ==> y in Diagnosed(r').missingSeeds)
    && (forall e :: e in Diagnosed(r).danglingEdges ==> e in Diagnosed(r').danglingEdges)
  }

  /** Everything an answer says, with the two diagnostic lists read as sets. */
  ghost predicate Agree(r: ResolveResult, r': ResolveResult) {
    && r.fingerprintIds == r'.fingerprintIds
    && SameCounters(Diagnosed(r), Diagnosed(r'))
    && AtMostIn(r, r') && AtMostIn(r', r)
  }

  lemma ReorderedCounters(st: Store, spec: PersonaSpec, st': Store, spec': PersonaSpec,
                          fps: set<Id>, d: Diagnostics, d': Diagnostics)
    requires Reordered(st, spec, st', spec')
    requires EdgeDiagnosticsFor(st, spec, fps, d) && d.excludedMentionCount == Sum(fps, MentionHits(st, spec))
    requires EdgeDiagnosticsFor(st', spec', fps, d') && d'.excludedMentionCount == Sum(fps, MentionHits(st', spec'))
    ensures SameCounters(d, d')
  {
    ReorderedHits(st, spec, st', spec', fps, Excluded);
    ReorderedHits(st, spec, st', spec', fps, Forbidden);
    ReorderedHits(st, spec, st', spec', fps, BelowThreshold);
    ReorderedMentionHits(st, spec, st', spec', fps);
  }

  lemma ReorderedEdges(st: Store, spec: PersonaSpec, st': Store, spec': PersonaSpec, fps: set<Id>,
                       edges: set<Id>, edges': set<Id>)
    requires Reordered(st, spec, st', spec')
    requires forall e :: e in edges <==> Touched(st, spec, fps, Usable, e)
    requires forall e :: e in edges' <==> Touched(st', spec', fps, Usable, e)
    ensures edges <= edges'
  {
    forall e | e in edges ensures e in edges' { ReorderedTouched(st, spec, st', spec', fps, Usable, e); }
  }

  lemma ReorderedMentions(st: Store, spec: PersonaSpec, st': Store, spec': PersonaSpec, fps: set<Id>,
                          mentions: set<Id>, mentions': set<Id>)
    requires Reordered(st, spec, st', spec')
    requires forall m :: m in mentions <==> MentionOf(st, spec, fps, m)
    requires forall m :: m in mentions' <==> MentionOf(st', spec', fps, m)
    ensures mentions <= mentions'
  {
    forall m | m in mentions ensures m in mentions' { ReorderedMention(st, spec, st', spec', fps, m); }
  }

  lemma ReorderedMissing(st: Store, spec: PersonaSpec, st': Store, spec': PersonaSpec, fps: set<Id>,
                         missing: seq<Id>, missing': seq<Id>)
    requires Reordered(st, spec, st', spec') && KeyedByEndpoint(st', spec')
    requires ReachedAndMissing(st, spec, fps, missing) && ReachedAndMissing(st', spec', fps, missing')
    ensures forall y :: y in missing ==> y in missing'
  {
    forall y | y in missing ensures y in missing' {
      ReorderedNamed(st, spec, st', spec', fps, y);
    }
  }

  lemma ReorderedDangling(st: Store, spec: PersonaSpec, st': Store, spec': PersonaSpec, fps: set<Id>,
                          d: Diagnostics, d': Diagnostics)
    requires Reordered(st, spec, st', spec')
    requires EdgeDiagnosticsFor(st, spec, fps, d) && EdgeDiagnosticsFor(st', spec', fps, d')
    ensures forall e :: e in d.danglingEdges ==> e in d'.danglingEdges
  {
    forall e | e in d.danglingEdges ensures e in d'.danglingEdges {
      ReorderedTouched(st, spec, st', spec', fps, Dangling, e);
    }
  }

  lemma SameFingerprints(st: Store, spec: PersonaSpec, r: ResolveResult,
                         st': Store, spec': PersonaSpec, r': ResolveResult)
    requires Reordered(st, spec, st', spec')
    requires KeyedByEndpoint(st, spec) && Answers(st, spec, r) && Answers(st', spec', r')
    ensures KeyedByEndpoint(st', spec') && r.fingerprintIds == r'.fingerprintIds
  {
    ReorderedKeyed(st, spec, st', spec');
    KeyedIsUnmasked(st, spec);
    KeyedIsUnmasked(st', spec');
    ReorderedComponents(st, spec, st', spec');
  }

  lemma ReorderedOneWay(st: Store, spec: PersonaSpec, r: ResolveResult,
                        st': Store, spec': PersonaSpec, r': ResolveResult)
    requires Reordered(st, spec, st', spec') && KeyedByEndpoint(st', spec')
    requires Answers(st, spec, r) && Answers(st', spec', r') && r.fingerprintIds == r'.fingerprintIds
    ensures AtMostIn(r, r')
  {
    var fps, d, d' := r.fingerprintIds, Diagnosed(r), Diagnosed(r');
    ReorderedEdges(st, spec, st', spec', fps, r.edgeIds, r'.edgeIds);
    ReorderedMentions(st, spec, st', spec', fps, r.mentionIds, r'.mentionIds);
    ReorderedMissing(st, spec, st', spec', fps, d.missingSeeds, d'.missingSeeds);
    ReorderedDangling(st, spec, st', spec', fps, d, d');
  }

  /** Answers to the same query, its seeds and rows listed in any other order, agree. */
  lemma OrderDoesNotMatter(st: Store, spec: PersonaSpec, r: ResolveResult,
                           st': Store, spec': PersonaSpec, r': ResolveResult)
    requires Reordered(st, spec, st', spec')
    requires KeyedByEndpoint(st, spec) && Answers(st, spec, r) && Answers(st', spec', r')
    ensures Agree(r, r')
  {
    SameFingerprints(st, spec, r, st', spec', r');
    ReorderedCounters(st, spec, st', spec', r.fingerprintIds, Diagnosed(r), Diagnosed(r'));
    ReorderedOneWay(st, spec, r, st', spec', r');
    ReorderedOneWay(st', spec', r', st, spec, r);
  }

  // ---- What a clean result means ----

  /** A junction row at `x` leads to `y`, filters aside. */
  ghost predicate RawLinked(st: Store, x: Id, y: Id) {
    exists e :: e in st.EdgeIdsTouching(x) && e in st.edges && st.edges[e].OtherEndpoint(x) == Some(y)
  }

  ghost predicate RawClosed(st: Store, c: set<Id>) {
    forall x, y :: x in c && RawLinked(st, x, y) ==> y in c
  }

  /** No row of `c` met the verdict `v`. */
  ghost predicate NoneMet(st: Store, spec: PersonaSpec, c: set<Id>, v: Verdict) {
    forall e :: !Touched(st, spec, c, v, e)
  }

  ghost predicate AllUsable(st: Store, spec: PersonaSpec, c: set<Id>) {
    forall x, e :: x in c && e in st.EdgeIdsTouching(x) ==> Judge(st, spec, e) == Usable
  }

  ghost predicate NoMentionExcluded(st: Store, spec: PersonaSpec, c: set<Id>) {
    forall x, m :: x in c && m in st.MentionIdsTouching(x) ==> m !in spec.excludedMentions
  }

  /** Every row of `c` carries an existing, usable edge; no mention of `c` is excluded. */
  ghost predicate Unfiltered(st: Store, spec: PersonaSpec, c: set<Id>) {
    AllUsable(st, spec, c) && NoMentionExcluded(st, spec, c)
  }

  lemma {:induction false} CountIsZero(xs: seq<Id>, p: Id -> bool)
    ensures Count(xs, p) == 0 <==> forall e | e in xs :: !p(e)
  {
    if xs != [] {
      CountIsZero(xs[..|xs| - 1], p);
      assert xs == xs[..|xs| - 1] + [xs[|xs| - 1]];
    }
  }

  /** A counter is zero exactly when no row of a visited fingerprint met that verdict. */
  lemma ZeroHits(st: Store, spec: PersonaSpec, fps: set<Id>, v: Verdict)
    ensures Sum(fps, EdgeHits(st, spec, v)) == 0 <==> NoneMet(st, spec, fps, v)
  {
    var hits, p := EdgeHits(st, spec, v), Judged(st, spec, v);
    SumIsZero(fps, hits);
    forall x | x in fps
      ensures hits(x) == 0 <==> forall e | e in st.EdgeIdsTouching(x) :: Judge(st, spec, e) != v
    {
      CountIsZero(st.EdgeIdsTouching(x), p);
    }
    if NoneMet(st, spec, fps, v) {
      forall x, e | x in fps && e in st.EdgeIdsTouching(x) ensures Judge(st, spec, e) != v {
        assert !Touched(st, spec, fps, v, e);
      }
    }
  }

  lemma ZeroMentionHits(st: Store, spec: PersonaSpec, fps: set<Id>)
    ensures Sum(fps, MentionHits(st, spec)) == 0 <==> NoMentionExcluded(st, spec, fps)
  {
    var hits, p := MentionHits(st, spec), MentionExcluded(spec);
    SumIsZero(fps, hits);
    forall x | x in fps
      ensures hits(x) == 0 <==> forall m | m in st.MentionIdsTouching(x) :: m !in spec.excludedMentions
    {
      CountIsZero(st.MentionIdsTouching(x), p);
    }
  }

  lemma AllUsableIff(st: Store, spec: PersonaSpec, fps: set<Id>)
    ensures AllUsable(st, spec, fps) <==>
            && NoneMet(st, spec, fps, Excluded) && NoneMet(st, spec, fps, Dangling)
            && NoneMet(st, spec, fps, Forbidden) && NoneMet(st, spec, fps, BelowThreshold)
  {
    if !AllUsable(st, spec, fps) {
      var x, e :| x in fps && e in st.EdgeIdsTouching(x) && Judge(st, spec, e) != Usable;
      assert Touched(st, spec, fps, Judge(st, spec, e), e);
    }
  }

  lemma NoDanglingIff(st: Store, spec: PersonaSpec, fps: set<Id>, dangling: seq<Id>)
    requires forall e :: e in dangling <==> Touched(st, spec, fps, Dangling, e)
    ensures dangling == [] <==> NoneMet(st, spec, fps, Dangling)
  {
    assert dangling == [] || dangling[0] in dangling;
  }

  lemma EdgeCountersClean(st: Store, spec: PersonaSpec, fps: set<Id>, d: Diagnostics)
    requires EdgeDiagnosticsFor(st, spec, fps, d)
    ensures AllUsable(st, spec, fps) <==>
            && d.excludedEdgeCount == 0 && d.forbiddenEdgeCount == 0 && d.belowThresholdEdgeCount == 0
            && d.danglingEdges == []
  {
    ZeroHits(st, spec, fps, Excluded);
    ZeroHits(st, spec, fps, Forbidden);
    ZeroHits(st, spec, fps, BelowThreshold);
    NoDanglingIff(st, spec, fps, d.danglingEdges);
    AllUsableIff(st, spec, fps);
  }

  lemma CleanCounters(st: Store, spec: PersonaSpec, r: ResolveResult)
    requires Answers(st, spec, r)
    ensures r.Resolved? <==> Diagnosed(r).missingSeeds == [] && Unfiltered(st, spec, r.fingerprintIds)
  {
    EdgeCountersClean(st, spec, r.fingerprintIds, Diagnosed(r));
    ZeroMentionHits(st, spec, r.fingerprintIds);
  }

  /** An unfiltered component whose named ids all exist is closed under every row, and least with that property. */
  lemma UnfilteredIsRawComponent(st: Store, spec: PersonaSpec, fps: set<Id>)
    requires fps == Component(st, spec, SeedSet(spec)) && Unfiltered(st, spec, fps)
    requires forall y | Named(st, spec, fps, y) :: y in st.fingerprints
    ensures SeedSet(spec) <= fps && RawClosed(st, fps)
    ensures forall c :: SeedSet(spec) <= c && RawClosed(st, c) ==> fps <= c
  {
    ComponentIsLeastClosed(st, spec, SeedSet(spec));
    forall x, y | x in fps && RawLinked(st, x, y) ensures y in fps {
      var e :| e in st.EdgeIdsTouching(x) && e in st.edges && st.edges[e].OtherEndpoint(x) == Some(y);
      assert Linked(st, spec, x, y);
      assert Named(st, spec, fps, y);
    }
    forall y | y in SeedSet(spec) ensures y in fps {
      assert Named(st, spec, fps, y);
    }
    forall c | SeedSet(spec) <= c && RawClosed(st, c) ensures fps <= c {
      forall x, y | x in c && Linked(st, spec, x, y) ensures RawLinked(st, x, y) {
      }
      assert Closed(st, spec, c);
    }
  }

  lemma CleanMissing(st: Store, spec: PersonaSpec, fps: set<Id>, missing: seq<Id>)
    requires forall y :: y in missing <==> y !in st.fingerprints && Named(st, spec, fps, y)
    ensures missing == [] <==> forall y | Named(st, spec, fps, y) :: y in st.fingerprints
  {
    assert missing == [] || missing[0] in missing;
  }

  /**
   A result is `Resolved` exactly when nothing named is missing and nothing touched was filtered; it is then
   the whole unfiltered component: closed under every junction row, and least with that property.
   */
  lemma CleanIsWholeComponent(st: Store, spec: PersonaSpec, r: ResolveResult)
    requires KeyedByEndpoint(st, spec) && Answers(st, spec, r)
    ensures r.Resolved? <==>
              && (forall y | Named(st, spec, r.fingerprintIds, y) :: y in st.fingerprints)
              && Unfiltered(st, spec, r.fingerprintIds)
    ensures r.Resolved? ==>
              && SeedSet(spec) <= r.fingerprintIds
              && RawClosed(st, r.fingerprintIds)
              && forall c :: SeedSet(spec) <= c && RawClosed(st, c) ==> r.fingerprintIds <= c
  {
    CleanCounters(st, spec, r);
    KeyedIsUnmasked(st, spec);
    CleanMissing(st, spec, r.fingerprintIds, Diagnosed(r).missingSeeds);
    if r.Resolved? {
      UnfilteredIsRawComponent(st, spec, r.fingerprintIds);
    }
  }

  // ---- An answer in the store's own terms ----

  /** The edge passes all four filters. */
  ghost predicate Passes(st: Store, spec: PersonaSpec, e: Id) {
    && e !in spec.excludedEdges && e in st.edges
    && st.edges[e].kind != "UserForbidden" && st.edges[e].weight >= spec.threshold
  }

  /** A junction row at `x` carries `e`. */
  ghost predicate RowOf(st: Store, x: Id, e: Id) {
    x in st.edgeRows && e in st.edgeRows[x]
  }

  ghost predicate OnRowOf(st: Store, fps: set<Id>, e: Id) {
    exists x :: x in fps && RowOf(st, x, e)
  }

  lemma TouchedMeans(st: Store, spec: PersonaSpec, fps: set<Id>, v: Verdict, e: Id)
    ensures Touched(st, spec, fps, v, e) <==> OnRowOf(st, fps, e) && Judge(st, spec, e) == v
  {
    if x :| x in fps && RowOf(st, x, e) {
      assert e in st.EdgeIdsTouching(x);
    }
    if Touched(st, spec, fps, v, e) {
      var x :| x in fps && e in st.EdgeIdsTouching(x) && Judge(st, spec, e) == v;
      assert RowOf(st, x, e);
    }
  }

  /** The edges of an answer are those on a row of its fingerprints that pass every filter. */
  lemma EdgesOfAnswer(st: Store, spec: PersonaSpec, r: ResolveResult, e: Id)
    requires Answers(st, spec, r)
    ensures e in r.edgeIds <==> OnRowOf(st, r.fingerprintIds, e) && Passes(st, spec, e)
  {
    TouchedMeans(st, spec, r.fingerprintIds, Usable, e);
  }

  /** What a link is: a row at `x` with an edge that passes every filter and joins `x` and `y`. */
  lemma LinkMeans(st: Store, spec: PersonaSpec, x: Id, y: Id)
    ensures Linked(st, spec, x, y) <==>
            exists e :: RowOf(st, x, e) && Passes(st, spec, e) && {st.edges[e].a, st.edges[e].b} == {x, y}
  {
    if Linked(st, spec, x, y) {
      var e :| e in st.EdgeIdsTouching(x) && Judge(st, spec, e) == Usable && st.edges[e].OtherEndpoint(x) == Some(y);
      assert RowOf(st, x, e) && Passes(st, spec, e);
    }
    if e :| RowOf(st, x, e) && Passes(st, spec, e) && {st.edges[e].a, st.edges[e].b} == {x, y} {
      var edge := st.edges[e];
      assert edge.a in {x, y} && edge.b in {x, y} && x in {edge.a, edge.b} && y in {edge.a, edge.b};
      assert e in st.EdgeIdsTouching(x) && edge.OtherEndpoint(x) == Some(y);
    }
  }

  /** A position among the rows of a fingerprint. */
  datatype Spot = Spot(fp: Id, at: nat)

  ghost function SpotsIn(xs: seq<Id>, fp: Id, p: Id -> bool): set<Spot> {
    set i | 0 <= i < |xs| && p(xs[i]) :: Spot(fp, i)
  }

  /** The places in the rows of `fps` that hold an id satisfying `p`. */
  ghost function Spots(rows: map<Id, seq<Id>>, fps: set<Id>, p: Id -> bool): set<Spot> {
    set x, i | x in fps && x in rows && 0 <= i < |rows[x]| && p(rows[x][i]) :: Spot(x, i)
  }

  lemma {:induction false} CountIsSize(xs: seq<Id>, fp: Id, p: Id -> bool)
    ensures Count(xs, p) == |SpotsIn(xs, fp, p)|
  {
    if xs != [] {
      var n := |xs| - 1;
      CountIsSize(xs[..n], fp, p);
      assert SpotsIn(xs, fp, p) == SpotsIn(xs[..n], fp, p) + (if p(xs[n]) then {Spot(fp, n)} else {});
    }
  }

  ghost function RowsAt(rows: map<Id, seq<Id>>, x: Id): seq<Id> {
    if x in rows then rows[x] else []
  }

  lemma {:induction false} SumIsSize(rows: map<Id, seq<Id>>, fps: set<Id>, p: Id -> bool, f: Id -> nat)
    requires forall x :: f(x) == Count(RowsAt(rows, x), p)
    ensures Sum(fps, f) == |Spots(rows, fps, p)|
  {
    if fps == {} {
      assert Spots(rows, fps, p) == {};
    } else {
      var x :| x in fps;
      var rest := fps - {x};
      SumIsSize(rows, rest, p, f);
      SumInsert(rest, x, f);
      assert rest + {x} == fps;
      CountIsSize(RowsAt(rows, x), x, p);
      SpotsInsert(rows, rest, x, p);
    }
  }

  lemma SpotsInsert(rows: map<Id, seq<Id>>, fps: set<Id>, x: Id, p: Id -> bool)
    requires x !in fps
    ensures |Spots(rows, fps + {x}, p)| == |Spots(rows, fps, p)| + |SpotsIn(RowsAt(rows, x), x, p)|
  {
    var a, b := Spots(rows, fps, p), SpotsIn(RowsAt(rows, x), x, p);
    assert Spots(rows, fps + {x}, p) == a + b && a !! b;
  }

  /** How many rows of `fps` hold an id satisfying `p`. */
  ghost function HowMany(rows: map<Id, seq<Id>>, fps: set<Id>, p: Id -> bool): nat {
    |Spots(rows, fps, p)|
  }

  // The rows that each counter counts, in the order of the filters.

  ghost function ExcludedEdge(spec: PersonaSpec): Id -> bool {
    e => e in spec.excludedEdges
  }

  ghost function ForbiddenEdge(st: Store, spec: PersonaSpec): Id -> bool {
    e => e !in spec.excludedEdges && e in st.edges && st.edges[e].kind == "UserForbidden"
  }

  ghost function WeakEdge(st: Store, spec: PersonaSpec): Id -> bool {
    e => e !in spec.excludedEdges && e in st.edges && st.edges[e].kind != "UserForbidden"
         && st.edges[e].weight < spec.threshold
  }

  ghost function ExcludedMention(spec: PersonaSpec): Id -> bool {
    m => m in spec.excludedMentions
  }

  lemma HitsMeans(st: Store, spec: PersonaSpec, fps: set<Id>, v: Verdict, p: Id -> bool)
    requires forall e :: p(e) <==> Judge(st, spec, e) == v
    ensures Sum(fps, EdgeHits(st, spec, v)) == HowMany(st.edgeRows, fps, p)
  {
    var f := EdgeHits(st, spec, v);
    forall x ensures f(x) == Count(RowsAt(st.edgeRows, x), p) {
      CountAgrees(st.EdgeIdsTouching(x), Judged(st, spec, v), p);
    }
    SumIsSize(st.edgeRows, fps, p, f);
  }

  lemma ExcludedHits(st: Store, spec: PersonaSpec, fps: set<Id>)
    ensures Sum(fps, EdgeHits(st, spec, Excluded)) == HowMany(st.edgeRows, fps, ExcludedEdge(spec))
  {
    HitsMeans(st, spec, fps, Excluded, ExcludedEdge(spec));
  }

  lemma ForbiddenHits(st: Store, spec: PersonaSpec, fps: set<Id>)
    ensures Sum(fps, EdgeHits(st, spec, Forbidden)) == HowMany(st.edgeRows, fps, ForbiddenEdge(st, spec))
  {
    HitsMeans(st, spec, fps, Forbidden, ForbiddenEdge(st, spec));
  }

  lemma WeakHits(st: Store, spec: PersonaSpec, fps: set<Id>)
    ensures Sum(fps, EdgeHits(st, spec, BelowThreshold)) == HowMany(st.edgeRows, fps, WeakEdge(st, spec))
  {
    HitsMeans(st, spec, fps, BelowThreshold, WeakEdge(st, spec));
  }

  lemma ExcludedMentionHits(st: Store, spec: PersonaSpec, fps: set<Id>)
    ensures Sum(fps, MentionHits(st, spec)) == HowMany(st.mentionRows, fps, ExcludedMention(spec))
  {
    var f, p := MentionHits(st, spec), ExcludedMention(spec);
    forall x ensures f(x) == Count(RowsAt(st.mentionRows, x), p) {
      CountAgrees(st.MentionIdsTouching(x), MentionExcluded(spec), p);
    }
    SumIsSize(st.mentionRows, fps, p, f);
  }

  lemma CountersMean(st: Store, spec: PersonaSpec, fps: set<Id>, d: Diagnostics)
    requires EdgeDiagnosticsFor(st, spec, fps, d)
    ensures d.excludedEdgeCount == HowMany(st.edgeRows, fps, ExcludedEdge(spec))
    ensures d.forbiddenEdgeCount == HowMany(st.edgeRows, fps, ForbiddenEdge(st, spec))
    ensures d.belowThresholdEdgeCount == HowMany(st.edgeRows, fps, WeakEdge(st, spec))
  {
    ExcludedHits(st, spec, fps);
    ForbiddenHits(st, spec, fps);
    WeakHits(st, spec, fps);
  }

  /** Each counter of an answer is the number of rows of its fingerprints that meet its filter and none before it. */
  lemma CountersOfAnswer(st: Store, spec: PersonaSpec, r: ResolveResult)
    requires Answers(st, spec, r)
    ensures var d, fps := Diagnosed(r), r.fingerprintIds;
            && d.excludedEdgeCount == HowMany(st.edgeRows, fps, ExcludedEdge(spec))
            && d.forbiddenEdgeCount == HowMany(st.edgeRows, fps, ForbiddenEdge(st, spec))
            && d.belowThresholdEdgeCount == HowMany(st.edgeRows, fps, WeakEdge(st, spec))
            && d.excludedMentionCount == HowMany(st.mentionRows, fps, ExcludedMention(spec))
  {
    CountersMean(st, spec, r.fingerprintIds, Diagnosed(r));
    ExcludedMentionHits(st, spec, r.fingerprintIds);
  }

  /** `y` is a seed, or the far end of a row of `fps` whose edge passes every filter. */
  ghost predicate LedTo(st: Store, spec: PersonaSpec, fps: set<Id>, y: Id) {
    || y in spec.seeds
    || exists x, e :: x in fps && RowOf(st, x, e) && Passes(st, spec, e)
                      && {st.edges[e].a, st.edges[e].b} == {x, y}
  }

  lemma NamedMeans(st: Store, spec: PersonaSpec, fps: set<Id>, y: Id)
    ensures Named(st, spec, fps, y) <==> LedTo(st, spec, fps, y)
  {
    forall x | x in fps ensures Linked(st, spec, x, y) <==>
      exists e :: RowOf(st, x, e) && Passes(st, spec, e) && {st.edges[e].a, st.edges[e].b} == {x, y}
    {
      LinkMeans(st, spec, x, y);
    }
  }

  /** The dangling list holds the record-less edges, not excluded, on rows of the answer's fingerprints. */
  lemma DanglingOfAnswer(st: Store, spec: PersonaSpec, r: ResolveResult, e: Id)
    requires Answers(st, spec, r)
    ensures e in Diagnosed(r).danglingEdges <==>
            OnRowOf(st, r.fingerprintIds, e) && e !in spec.excludedEdges && e !in st.edges
  {
    DanglingMeans(st, spec, r.fingerprintIds, Diagnosed(r), e);
  }

  lemma DanglingMeans(st: Store, spec: PersonaSpec, fps: set<Id>, d: Diagnostics, e: Id)
    requires EdgeDiagnosticsFor(st, spec, fps, d)
    ensures e in d.danglingEdges <==> OnRowOf(st, fps, e) && e !in spec.excludedEdges && e !in st.edges
  {
    TouchedMeans(st, spec, fps, Dangling, e);
  }

  lemma MissingMeans(st: Store, spec: PersonaSpec, fps: set<Id>, missing: seq<Id>, y: Id)
    requires ReachedAndMissing(st, spec, fps, missing)
    ensures y in missing ==> y !in st.fingerprints && LedTo(st, spec, fps, y)
    ensures KeyedByEndpoint(st, spec) && y !in st.fingerprints && LedTo(st, spec, fps, y) ==> y in missing
  {
    NamedMeans(st, spec, fps, y);
  }

  /** The missing list holds ids without a record that are seeds or far ends; all of them when rows are well keyed. */
  lemma MissingOfAnswer(st: Store, spec: PersonaSpec, r: ResolveResult, y: Id)
    requires Answers(st, spec, r)
    ensures y in Diagnosed(r).missingSeeds ==> y !in st.fingerprints && LedTo(st, spec, r.fingerprintIds, y)
    ensures KeyedByEndpoint(st, spec) && y !in st.fingerprints && LedTo(st, spec, r.fingerprintIds, y) ==>
              y in Diagnosed(r).missingSeeds
  {
    MissingMeans(st, spec, r.fingerprintIds, Diagnosed(r).missingSeeds, y);
  }

  ghost predicate MentionedBy(st: Store, fps: set<Id>, m: Id) {
    exists x :: x in fps && x in st.mentionRows && m in st.mentionRows[x]
  }

  lemma MentionMeans(st: Store, fps: set<Id>, m: Id)
    ensures MentionRowOf(st, fps, m) <==> MentionedBy(st, fps, m)
  {
    if x :| x in fps && x in st.mentionRows && m in st.mentionRows[x] {
      assert m in st.MentionIdsTouching(x);
    }
  }

  /** The mentions are the included ones and those on rows of the answer's fingerprints that are not excluded. */
  lemma MentionsOfAnswer(st: Store, spec: PersonaSpec, r: ResolveResult, m: Id)
    requires Answers(st, spec, r)
    ensures m in r.mentionIds <==>
            m in spec.includedMentions || (m !in spec.excludedMentions && MentionedBy(st, r.fingerprintIds, m))
  {
    MentionMeans(st, r.fingerprintIds, m);
  }

  /** An answer has no diagnostics exactly when all counters are zero and both lists empty. */
  lemma CleanMeans(st: Store, spec: PersonaSpec, r: ResolveResult)
    requires Answers(st, spec, r)
    ensures var d := Diagnosed(r);
            r.Resolved? <==>
              && d.excludedEdgeCount == d.forbiddenEdgeCount == d.belowThresholdEdgeCount == d.excludedMentionCount == 0
              && d.missingSeeds == [] && d.danglingEdges == []
  {
  }

  // ---- Exactly when resolution is exact ----

  ghost predicate ExactFor(st: Store, spec: PersonaSpec) {
    Drain(st, spec, Initial(spec)).visited == Component(st, spec, SeedSet(spec))
  }

  /** The query that leaves only the edge `e`. */
  function OnlyEdge(st: Store, e: Id, seeds: seq<Id>): PersonaSpec
    requires e in st.edges
  {
    PersonaSpec("", seeds, st.edges[e].weight, st.edges.Keys - {e}, {}, {}, None)
  }

  /** Rows whose usable edges were all met before push nothing. */
  lemma {:induction false} ScanPushesNothing(st: Store, spec: PersonaSpec, fp: Id, s: State, rows: seq<Id>)
    requires forall f | f in rows :: Judge(st, spec, f) == Usable ==> f in s.visitedEdges
    ensures var r := ScanRows(st, spec, fp, s, rows); r.queue == s.queue && r.visitedEdges == s.visitedEdges
  {
    if rows != [] {
      var n := |rows| - 1;
      ScanPushesNothing(st, spec, fp, s, rows[..n]);
      assert rows[n] in rows;
    }
  }

  /** Only `x` and `z` are visited or waiting, and `e` was met. */
  ghost predicate Stuck(e: Id, z: Id, x: Id, s: State) {
    s.visitedEdges == {e} && s.visited <= {x, z} && Elements(s.queue) <= {x, z}
  }

  lemma StaysStuck(st: Store, e: Id, z: Id, x: Id, seeds: seq<Id>, s: State)
    requires e in st.edges && s.queue != [] && Stuck(e, z, x, s)
    ensures Stuck(e, z, x, PopStep(st, OnlyEdge(st, e, seeds), s))
  {
    var sp, fp := OnlyEdge(st, e, seeds), s.queue[|s.queue| - 1];
    PopParts(s);
    ScanPushesNothing(st, sp, fp, s.(queue := s.queue[..|s.queue| - 1], visited := s.visited + {fp}),
                      st.EdgeIdsTouching(fp));
  }

  lemma StrangerLeadsNowhere(st: Store, e: Id, z: Id, seeds: seq<Id>, q: Id)
    requires e in st.edges && !st.edges[e].HasEndpoint(z)
    ensures !Linked(st, OnlyEdge(st, e, seeds), z, q)
  {
    var sp := OnlyEdge(st, e, seeds);
    forall f | f in st.EdgeIdsTouching(z) && Judge(st, sp, f) == Usable ensures f == e {
    }
  }

  /** The stranger is popped first: it marks the edge as met and pushes nothing. */
  lemma StrangerFirst(st: Store, e: Id, z: Id, x: Id, y: Id)
    requires Masks(st, e, z, x, y) && st.edges[e].kind != USER_FORBIDDEN
    ensures var sp := OnlyEdge(st, e, [x, z]); Stuck(e, z, x, PopStep(st, sp, Initial(sp)))
  {
    var sp := OnlyEdge(st, e, [x, z]);
    var s := Initial(sp);
    var s1 := s.(queue := [x], visited := s.visited + {z});
    assert s.queue[..1] == [x];
    var r := ScanRows(st, sp, z, s1, st.EdgeIdsTouching(z));
    ScanAcceptsUsable(st, sp, z, s1, st.EdgeIdsTouching(z));
    ScanPushes(st, sp, z, s1, st.EdgeIdsTouching(z));
    forall q | q in Elements(r.queue) ensures q in Elements(s1.queue) {
      StrangerLeadsNowhere(st, e, z, [x, z], q);
      assert q in Elements(r.queue) - Elements(s1.queue) ==> Linked(st, sp, z, q);
    }
    assert r == PopStep(st, sp, s);
  }

  /** The end `x` is popped first: it pushes `y`. */
  lemma EndFirst(st: Store, e: Id, z: Id, x: Id, y: Id)
    requires Masks(st, e, z, x, y) && st.edges[e].kind != USER_FORBIDDEN
    ensures var sp := OnlyEdge(st, e, [z, x]); y in Known(PopStep(st, sp, Initial(sp)))
  {
    var sp := OnlyEdge(st, e, [z, x]);
    var s := Initial(sp);
    var s1 := s.(queue := [z], visited := s.visited + {x});
    assert s.queue[..1] == [z];
    ScanAcceptsUsable(st, sp, x, s1, st.EdgeIdsTouching(x));
    ScanPushes(st, sp, x, s1, st.EdgeIdsTouching(x));
    var r := ScanRows(st, sp, x, s1, st.EdgeIdsTouching(x));
    assert e in r.visitedEdges - s1.visitedEdges;
    assert r == PopStep(st, sp, s);
  }

  lemma KnownIsVisited(st: Store, spec: PersonaSpec, s: State, y: Id)
    requires Good(st, spec, s) && y in Known(s) && y in st.fingerprints
    ensures y in Drain(st, spec, s).visited
  {
    ghost var keeps := (t: State) => Good(st, spec, t) && y in Known(t);
    forall t: State | t.queue != [] && keeps(t) ensures keeps(PopStep(st, spec, t)) {
      PopKeeps(st, spec, t);
      PopKnown(st, spec, t);
    }
    DrainInduction(st, spec, s, keeps);
  }

  lemma LostAfterStranger(st: Store, e: Id, z: Id, x: Id, y: Id)
    requires Masks(st, e, z, x, y) && st.edges[e].kind != USER_FORBIDDEN
    ensures var sp := OnlyEdge(st, e, [x, z]); y !in Drain(st, sp, Initial(sp)).visited
  {
    var sp := OnlyEdge(st, e, [x, z]);
    ghost var keeps := s => Stuck(e, z, x, s);
    forall t: State | t.queue != [] && keeps(t) ensures keeps(PopStep(st, sp, t)) {
      StaysStuck(st, e, z, x, [x, z], t);
    }
    StrangerFirst(st, e, z, x, y);
    DrainInduction(st, sp, PopStep(st, sp, Initial(sp)), keeps);
  }

  lemma FoundFromEnd(st: Store, e: Id, z: Id, x: Id, y: Id)
    requires Masks(st, e, z, x, y) && st.edges[e].kind != USER_FORBIDDEN
    ensures var sp := OnlyEdge(st, e, [z, x]); y in Drain(st, sp, Initial(sp)).visited
  {
    var sp := OnlyEdge(st, e, [z, x]);
    EndFirst(st, e, z, x, y);
    StartsWell(st, sp);
    PopKeeps(st, sp, Initial(sp));
    KnownIsVisited(st, sp, PopStep(st, sp, Initial(sp)), y);
  }

  /** A masked edge loses a reachable fingerprint, or not, depending on the order of two seeds. */
  lemma StrayRowLosesFingerprint(st: Store, e: Id, z: Id, x: Id, y: Id)
    requires Masks(st, e, z, x, y) && st.edges[e].kind != USER_FORBIDDEN
    ensures var sp := OnlyEdge(st, e, [x, z]);
            y in Component(st, sp, SeedSet(sp)) && y !in Drain(st, sp, Initial(sp)).visited
    ensures var sp := OnlyEdge(st, e, [z, x]); y in Drain(st, sp, Initial(sp)).visited
  {
    var sp := OnlyEdge(st, e, [x, z]);
    assert x in SeedSet(sp) by { assert [x, z][0] == x; }
    SeedReachable(st, sp, SeedSet(sp), x);
    assert Judge(st, sp, e) == Usable && Linked(st, sp, x, y);
    StepReachable(st, sp, SeedSet(sp), x, y);
    LostAfterStranger(st, e, z, x, y);
    FoundFromEnd(st, e, z, x, y);
  }

  /**
   Every query on a store is answered with its component exactly when no edge, forbidden ones aside, has a row
   at an existing stranger together with a row at an existing end that leads to another existing fingerprint.
   */
  lemma ExactForEveryQueryIff(st: Store)
    ensures (forall spec :: ExactFor(st, spec)) <==>
            forall e, z, x, y :: Masks(st, e, z, x, y) ==> st.edges[e].kind == USER_FORBIDDEN
  {
    if e, z, x, y :| Masks(st, e, z, x, y) && st.edges[e].kind != USER_FORBIDDEN {
      StrayRowLosesFingerprint(st, e, z, x, y);
      assert !ExactFor(st, OnlyEdge(st, e, [x, z]));
    } else {
      forall spec ensures ExactFor(st, spec) {
        assert Unmasked(st, spec);
        Traversed(st, spec, Drain(st, spec, Initial(spec)));
      }
    }
  }
}
