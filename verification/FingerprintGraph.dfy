/**
 The fingerprint graph as the resolver sees it (src/fingerprints/resolver.rs):
 Fingerprint and Edge records plus the two junction schemas, and a Persona query
 with the components it denotes.
 */
module FingerprintGraph {
  import opened Wrappers

  /** A record key. */
  datatype Id = Id(text: string)

  /** A face embedding. */
  type Embedding = seq<real>

  const USER_FORBIDDEN := "UserForbidden"

  /** The part of an Edge record that traversal needs. */
  datatype Edge = Edge(a: Id, b: Id, kind: string, weight: real) {
    predicate HasEndpoint(fp: Id) {
      fp == a || fp == b
    }

    /** The endpoint that is not `fp`; None when `fp` is neither endpoint. */
    function OtherEndpoint(fp: Id): (r: Option<Id>)
      ensures r.Some? <==> HasEndpoint(fp)
      ensures r.Some? ==> {fp, r.value} == {a, b}
    {
      if a == fp then Some(b) else if b == fp then Some(a) else None
    }
  }

  /**
   `edgeRows[fp]` lists the edge ids of the EdgeByFingerprint rows keyed by `fp`, in the
   order the query returns them; `mentionRows` does the same for MentionByFingerprint. `faces`
   holds the normalized embedding of each Fingerprint record that is a well-formed face.
   */
  datatype Store = Store(
    fingerprints: set<Id>,
    edges: map<Id, Edge>,
    edgeRows: map<Id, seq<Id>>,
    mentionRows: map<Id, seq<Id>>,
    faces: map<Id, Embedding>
  ) {
    function EdgeIdsTouching(fp: Id): seq<Id> {
      if fp in edgeRows then edgeRows[fp] else []
    }

    function MentionIdsTouching(fp: Id): seq<Id> {
      if fp in mentionRows then mentionRows[fp] else []
    }
  }

  datatype PersonaSpec = PersonaSpec(
    personaId: string,
    seeds: seq<Id>,
    threshold: real,
    excludedEdges: set<Id>,
    excludedMentions: set<Id>,
    includedMentions: set<Id>,
    identityId: Option<string>
  )

  /** What the four edge filters decide about one junction row, in the order they are asked. */
  datatype Verdict = Excluded | Dangling | Forbidden | BelowThreshold | Usable

  function Judge(st: Store, spec: PersonaSpec, e: Id): Verdict {
    if e in spec.excludedEdges then Excluded
    else if e !in st.edges then Dangling
    else if st.edges[e].kind == USER_FORBIDDEN then Forbidden
    else if st.edges[e].weight < spec.threshold then BelowThreshold
    else Usable
  }

  /** A usable row keyed by `x` leads to `y`. */
  ghost predicate Linked(st: Store, spec: PersonaSpec, x: Id, y: Id) {
    exists e :: e in st.EdgeIdsTouching(x) && Judge(st, spec, e) == Usable
             && st.edges[e].OtherEndpoint(x) == Some(y)
  }

  ghost predicate IsWalk(st: Store, spec: PersonaSpec, p: seq<Id>) {
    && p != []
    && (forall i | 0 <= i < |p| :: p[i] in st.fingerprints)
    && (forall i, j | 0 <= i < j < |p| && j == i + 1 :: Linked(st, spec, p[i], p[j]))
  }

  ghost predicate Reachable(st: Store, spec: PersonaSpec, seeds: set<Id>, y: Id) {
    exists p :: IsWalk(st, spec, p) && p[0] in seeds && p[|p| - 1] == y
  }

  /** The existing fingerprints reachable from `seeds` through existing fingerprints and usable edges. */
  ghost function Component(st: Store, spec: PersonaSpec, seeds: set<Id>): set<Id> {
    set y | y in st.fingerprints && Reachable(st, spec, seeds, y)
  }

  ghost function SeedSet(spec: PersonaSpec): set<Id> {
    set s | s in spec.seeds
  }

  /** Every usable row is keyed by an endpoint of its edge. */
  ghost predicate KeyedByEndpoint(st: Store, spec: PersonaSpec) {
    forall x, e :: e in st.EdgeIdsTouching(x) && Judge(st, spec, e) == Usable ==> st.edges[e].HasEndpoint(x)
  }

  ghost predicate Closed(st: Store, spec: PersonaSpec, c: set<Id>) {
    forall x, y :: x in c && y in st.fingerprints && Linked(st, spec, x, y) ==> y in c
  }

  lemma SeedReachable(st: Store, spec: PersonaSpec, seeds: set<Id>, x: Id)
    requires x in seeds && x in st.fingerprints
    ensures Reachable(st, spec, seeds, x)
  {
    assert IsWalk(st, spec, [x]);
  }

  lemma StepReachable(st: Store, spec: PersonaSpec, seeds: set<Id>, x: Id, y: Id)
    requires Reachable(st, spec, seeds, x) && y in st.fingerprints && Linked(st, spec, x, y)
    ensures Reachable(st, spec, seeds, y)
  {
    var p :| IsWalk(st, spec, p) && p[0] in seeds && p[|p| - 1] == x;
    var q := p + [y];
    assert IsWalk(st, spec, q) && q[0] in seeds && q[|q| - 1] == y;
  }

  lemma {:induction false} WalkStaysInside(st: Store, spec: PersonaSpec, p: seq<Id>, c: set<Id>)
    requires IsWalk(st, spec, p) && p[0] in c && Closed(st, spec, c)
    ensures p[|p| - 1] in c
  {
    if |p| > 1 {
      var q := p[..|p| - 1];
      assert IsWalk(st, spec, q);
      WalkStaysInside(st, spec, q, c);
    }
  }

  /** A component is closed, and it is the least closed set holding the existing seeds. */
  lemma ComponentIsLeastClosed(st: Store, spec: PersonaSpec, seeds: set<Id>)
    ensures Closed(st, spec, Component(st, spec, seeds))
    ensures seeds * st.fingerprints <= Component(st, spec, seeds)
    ensures forall c :: Closed(st, spec, c) && seeds * st.fingerprints <= c ==> Component(st, spec, seeds) <= c
  {
    var comp := Component(st, spec, seeds);
    forall x, y | x in comp && y in st.fingerprints && Linked(st, spec, x, y) ensures y in comp {
      StepReachable(st, spec, seeds, x, y);
    }
    forall x | x in seeds * st.fingerprints ensures x in comp {
      SeedReachable(st, spec, seeds, x);
    }
    forall c, y | Closed(st, spec, c) && seeds * st.fingerprints <= c && y in comp ensures y in c {
      var p :| IsWalk(st, spec, p) && p[0] in seeds && p[|p| - 1] == y;
      WalkStaysInside(st, spec, p, c);
    }
  }
}
