/**
 The in-memory face index (src/fingerprints/face_ann_cache.rs): a canonical entry list and a
 derived index that is rebuilt when their lengths differ. The HNSW builder and search are a
 black box over the list the index was built from; floats are exact reals.
 */
module FaceAnnCache {
  import opened Wrappers
  import opened FingerprintGraph

  // ---- Similarity ----

  /** Sum of products over the shorter length, as `zip` does. */
  function Cosine(a: Embedding, b: Embedding): real {
    if a == [] || b == [] then 0.0 else a[0] * b[0] + Cosine(a[1..], b[1..])
  }

  function NormSquared(a: Embedding): real {
    Cosine(a, a)
  }

  function Distance(a: Embedding, b: Embedding): real {
    1.0 - Cosine(a, b)
  }

  function Scaled(raw: Embedding, norm: real): (r: Embedding)
    requires norm != 0.0
    ensures |r| == |raw| && forall i | 0 <= i < |raw| :: r[i] * norm == raw[i]
  {
    if raw == [] then [] else [raw[0] / norm] + Scaled(raw[1..], norm)
  }

  /** `FaceEmbedding::new`, given the norm that `sqrt` returned. */
  function NewEmbedding(raw: Embedding, norm: real): Option<Embedding> {
    if raw == [] || norm == 0.0 then None else Some(Scaled(raw, norm))
  }

  /** The sum grows by one product with every further common dimension. */
  lemma {:induction false} CosineSnoc(a: Embedding, x: real, b: Embedding, y: real)
    requires |a| == |b|
    ensures Cosine(a + [x], b + [y]) == Cosine(a, b) + x * y
  {
    if a != [] {
      assert (a + [x])[1..] == a[1..] + [x] && (b + [y])[1..] == b[1..] + [y];
      CosineSnoc(a[1..], x, b[1..], y);
    } else {
      assert (a + [x])[1..] == [] && (b + [y])[1..] == [];
    }
  }

  /** Dimensions that only one of the two has do not matter. */
  lemma {:induction false} CosineIgnoresRest(a: Embedding, rest: Embedding, b: Embedding)
    requires |a| == |b|
    ensures Cosine(a + rest, b) == Cosine(a, b) == Cosine(b, a + rest)
  {
    CosineIsSymmetric(a + rest, b);
    if a != [] {
      assert (a + rest)[1..] == a[1..] + rest;
      CosineIgnoresRest(a[1..], rest, b[1..]);
    }
  }

  lemma {:induction false} CosineIsSymmetric(a: Embedding, b: Embedding)
    ensures Cosine(a, b) == Cosine(b, a)
  {
    if a != [] && b != [] {
      CosineIsSymmetric(a[1..], b[1..]);
    }
  }

  lemma SquareIsNonNegative(x: real)
    ensures x * x >= 0.0
  {
  }

  lemma NormIsNonNegative(a: Embedding)
    ensures NormSquared(a) >= 0.0
  {
    if a != [] {
      SquareIsNonNegative(a[0]);
      NormIsNonNegative(a[1..]);
    }
  }

  lemma ProductBound(x: real, y: real)
    ensures -(x * x + y * y) <= 2.0 * (x * y) <= x * x + y * y
  {
    SquareIsNonNegative(x - y);
    SquareIsNonNegative(x + y);
    assert (x - y) * (x - y) == x * x - 2.0 * (x * y) + y * y;
    assert (x + y) * (x + y) == x * x + 2.0 * (x * y) + y * y;
  }

  lemma {:induction false} CosineBound(a: Embedding, b: Embedding)
    ensures -(NormSquared(a) + NormSquared(b)) <= 2.0 * Cosine(a, b) <= NormSquared(a) + NormSquared(b)
  {
    NormIsNonNegative(a);
    NormIsNonNegative(b);
    if a != [] && b != [] {
      ProductBound(a[0], b[0]);
      CosineBound(a[1..], b[1..]);
    }
  }

  /** Unit embeddings, of any dimensions, have similarity in [-1, 1] and distance in [0, 2]. */
  lemma SimilarityRange(a: Embedding, b: Embedding)
    requires NormSquared(a) == 1.0 && NormSquared(b) == 1.0
    ensures -1.0 <= Cosine(a, b) <= 1.0
    ensures 0.0 <= Distance(a, b) <= 2.0 && Distance(a, a) == 0.0
  {
    CosineBound(a, b);
  }

  lemma {:induction false} ScaledNorm(raw: Embedding, norm: real, n2: real)
    requires norm != 0.0 && n2 == norm * norm
    ensures NormSquared(Scaled(raw, norm)) * n2 == NormSquared(raw)
  {
    if raw != [] {
      ScaledNorm(raw[1..], norm, n2);
      var x := raw[0] / norm;
      assert x * norm == raw[0];
      var t := NormSquared(Scaled(raw[1..], norm));
      assert Scaled(raw, norm)[1..] == Scaled(raw[1..], norm);
      assert NormSquared(Scaled(raw, norm)) == x * x + t;
      assert (x * x + t) * (norm * norm) == (x * norm) * (x * norm) + t * (norm * norm);
    }
  }

  lemma ProductIsPositive(x: real, y: real, p: real)
    requires x > 0.0 && y > 0.0 && p == x * y
    ensures p > 0.0
  {
  }

  lemma Cancel(x: real, y: real, z: real)
    requires y > 0.0 && x * y == z && y == z
    ensures x == 1.0
  {
    assert (x - 1.0) * y == 0.0;
  }

  /** What `FaceEmbedding::new` accepts it makes a unit vector; it rejects empty and all-zero input. */
  lemma NormalizedIsUnit(raw: Embedding, norm: real)
    requires norm >= 0.0 && norm * norm == NormSquared(raw)
    ensures NewEmbedding(raw, norm).None? <==> NormSquared(raw) == 0.0
    ensures NewEmbedding(raw, norm).Some? ==> NormSquared(NewEmbedding(raw, norm).value) == 1.0
  {
    if norm > 0.0 {
      var n2 := norm * norm;
      ProductIsPositive(norm, norm, n2);
      ScaledNorm(raw, norm, n2);
      Cancel(NormSquared(Scaled(raw, norm)), n2, NormSquared(raw));
    }
  }

  // ---- The cache ----

  datatype Entry = Entry(id: Id, vec: Embedding)

  /** A built index is known by the list it was built from. */
  datatype Index = Index(points: seq<Entry>)

  datatype CacheState = CacheState(entries: seq<Entry>, index: Option<Index>, indexedLen: nat)

  const EMPTY_CACHE := CacheState([], None, 0)

  datatype Hit = Hit(id: Id, similarity: real)

  /** A search over an index: what it yields, nearest first, as (position, distance) pairs. */
  type Search = (Index, Embedding) -> seq<(nat, real)>

  ghost predicate Faithful(search: Search) {
    forall ix, q :: FaithfulOn(search, ix, q)
  }

  ghost predicate FaithfulOn(search: Search, ix: Index, q: Embedding) {
    forall item | item in search(ix, q) ::
      item.0 < |ix.points| && item.1 == Distance(q, ix.points[item.0].vec)
  }

  function AddTo(c: CacheState, e: Entry): CacheState {
    c.(entries := c.entries + [e])
  }

  /** One `flush` critical section. */
  function FlushOf(c: CacheState): CacheState {
    if |c.entries| == c.indexedLen && c.index.Some? then c
    else if c.entries == [] then c.(index := None, indexedLen := 0)
    else c.(indexedLen := |c.entries|, index := Some(Index(c.entries)))
  }

  /** The first critical section of `replace_all`; a flush follows under a second lock. */
  function ReplacedBy(es: seq<Entry>): CacheState {
    CacheState(es, None, 0)
  }

  function HitsOf(ix: Option<Index>, query: Embedding, k: nat, search: Search): (hits: seq<Hit>)
    requires Faithful(search)
    ensures |hits| <= k
    ensures forall hit | hit in hits ::
              ix.Some? && exists e :: e in ix.value.points && e.id == hit.id && hit.similarity == Cosine(query, e.vec)
  {
    if ix.None? then [] else
      var items := search(ix.value, query);
      assert FaithfulOn(search, ix.value, query);
      var n := if |items| < k then |items| else k;
      seq(n, i requires 0 <= i < n => Hit(ix.value.points[items[i].0].id, 1.0 - items[i].1))
  }

  /** The hits are the first `k` items of the search, in its order: the id of the point, and 1 less the distance. */
  lemma HitsAreFirstItems(ix: Index, query: Embedding, k: nat, search: Search)
    requires Faithful(search)
    ensures var items, hits := search(ix, query), HitsOf(Some(ix), query, k, search);
            && |hits| == (if |items| <= k then |items| else k)
            && forall i | 0 <= i < |hits| ::
                 && items[i].0 < |ix.points|
                 && hits[i] == Hit(ix.points[items[i].0].id, 1.0 - items[i].1)
                 && hits[i].similarity == Cosine(query, ix.points[items[i].0].vec)
  {
    assert FaithfulOn(search, ix, query);
  }

  /** A present index was built from exactly the first `indexedLen` entries. */
  ghost predicate Coherent(c: CacheState) {
    match c.index
    case None => c.indexedLen == 0
    case Some(ix) => 0 < c.indexedLen <= |c.entries| && ix.points == c.entries[..c.indexedLen]
  }

  /** The index that reflects every entry. */
  function FullIndex(es: seq<Entry>): Option<Index> {
    if es == [] then None else Some(Index(es))
  }

  lemma AddKeepsCoherent(c: CacheState, e: Entry)
    requires Coherent(c)
    ensures Coherent(AddTo(c, e))
  {
    if c.index.Some? {
      assert (c.entries + [e])[..c.indexedLen] == c.entries[..c.indexedLen];
    }
  }

  /** The length-only staleness test is sound: after a flush the index reflects every entry. */
  lemma FlushReflectsAll(c: CacheState)
    requires Coherent(c)
    ensures Coherent(FlushOf(c)) && FlushOf(c).entries == c.entries
    ensures FlushOf(c).index == FullIndex(c.entries)
  {
    assert c.entries[..|c.entries|] == c.entries;
  }

  // ---- Reading the registry ----

  const FACE_KIND := "face_embedding"

  /** A row of the Fingerprint registry; an element of `value` that is no number is None. */
  datatype RegistryRow = NoFields | Fields(kind: string, id: Option<Id>, value: Option<seq<Option<real>>>)

  function Numbers(vs: seq<Option<real>>): Option<seq<real>> {
    if vs == [] then Some([])
    else match Numbers(vs[..|vs| - 1])
      case None => None
      case Some(xs) => if vs[|vs| - 1].None? then None else Some(xs + [vs[|vs| - 1].value])
  }

  /** The entry that a row yields; `normalize` is `FaceEmbedding::new`. */
  function EntryOf(row: RegistryRow, normalize: seq<real> -> Option<Embedding>): Option<Entry> {
    if row.NoFields? || row.kind != FACE_KIND || row.id.None? || row.value.None? then None
    else if Numbers(row.value.value).None? then None
    else match normalize(Numbers(row.value.value).value)
      case None => None
      case Some(v) => Some(Entry(row.id.value, v))
  }

  /** Exactly which rows yield an entry: faces with an id and a value of numbers only that can be normalized. */
  lemma EntryMeans(row: RegistryRow, normalize: seq<real> -> Option<Embedding>, e: Entry)
    ensures EntryOf(row, normalize) == Some(e) <==>
            exists raw: seq<real> ::
              && row == Fields("face_embedding", Some(e.id), Some(AllSome(raw)))
              && normalize(raw) == Some(e.vec)
  {
    if row.Fields? && row.value.Some? {
      NumbersMean(row.value.value);
    }
    forall raw: seq<real> { NumbersOfAll(raw); }
  }

  /** A list of numbers, none missing. */
  function AllSome(xs: seq<real>): (r: seq<Option<real>>)
    ensures |r| == |xs| && forall i | 0 <= i < |xs| :: r[i] == Some(xs[i])
  {
    seq(|xs|, i requires 0 <= i < |xs| => Some(xs[i]))
  }

  lemma {:induction false} NumbersMean(vs: seq<Option<real>>)
    ensures Numbers(vs).Some? ==> vs == AllSome(Numbers(vs).value)
  {
    if vs != [] && Numbers(vs).Some? {
      NumbersMean(vs[..|vs| - 1]);
    }
  }

  lemma {:induction false} NumbersOfAll(xs: seq<real>)
    ensures Numbers(AllSome(xs)) == Some(xs)
  {
    if xs != [] {
      var n := |xs| - 1;
      assert AllSome(xs)[..n] == AllSome(xs[..n]);
      assert xs == xs[..n] + [xs[n]];
      NumbersOfAll(xs[..n]);
    }
  }

  /** Rows of other kinds are passed over; a malformed row counts as skipped. */
  predicate Skipped(row: RegistryRow, normalize: seq<real> -> Option<Embedding>) {
    row.NoFields? || (row.kind == FACE_KIND && EntryOf(row, normalize).None?)
  }

  function EntriesIn(rows: seq<RegistryRow>, normalize: seq<real> -> Option<Embedding>): seq<Entry> {
    if rows == [] then [] else
      var e := EntryOf(rows[|rows| - 1], normalize);
      EntriesIn(rows[..|rows| - 1], normalize) + (if e.Some? then [e.value] else [])
  }

  function SkippedIn(rows: seq<RegistryRow>, normalize: seq<real> -> Option<Embedding>): nat {
    if rows == [] then 0
    else SkippedIn(rows[..|rows| - 1], normalize) + (if Skipped(rows[|rows| - 1], normalize) then 1 else 0)
  }

  /** The row loop of `rebuild_from_store`. */
  method ReadRegistry(rows: seq<RegistryRow>, normalize: seq<real> -> Option<Embedding>)
    returns (entries: seq<Entry>, skipped: nat)
    ensures entries == EntriesIn(rows, normalize) && skipped == SkippedIn(rows, normalize)
  {
    entries, skipped := [], 0;
    for i := 0 to |rows|
      invariant entries == EntriesIn(rows[..i], normalize) && skipped == SkippedIn(rows[..i], normalize)
    {
      var row := rows[i];
      assert rows[..i + 1][..i] == rows[..i];
      if row.NoFields? { skipped := skipped + 1; continue; }
      if row.kind != FACE_KIND { continue; }
      if row.id.None? { skipped := skipped + 1; continue; }
      if row.value.None? { skipped := skipped + 1; continue; }
      var raw := Numbers(row.value.value);
      if raw.None? { skipped := skipped + 1; continue; }
      var embedding := normalize(raw.value);
      if embedding.Some? {
        entries := entries + [Entry(row.id.value, embedding.value)];
      } else {
        skipped := skipped + 1;
      }
    }
    assert rows[..|rows|] == rows;
  }

  lemma {:induction false} EntriesInMember(rows: seq<RegistryRow>, normalize: seq<real> -> Option<Embedding>, e: Entry)
    ensures e in EntriesIn(rows, normalize) <==> exists row :: row in rows && EntryOf(row, normalize) == Some(e)
  {
    if rows != [] {
      EntriesInMember(rows[..|rows| - 1], normalize, e);
      assert rows == rows[..|rows| - 1] + [rows[|rows| - 1]];
    }
  }

  /** The entries come in row order. */
  lemma EntriesInSnoc(rows: seq<RegistryRow>, row: RegistryRow, normalize: seq<real> -> Option<Embedding>)
    ensures EntriesIn(rows + [row], normalize) ==
            EntriesIn(rows, normalize) + (if EntryOf(row, normalize).Some? then [EntryOf(row, normalize).value] else [])
  {
    assert (rows + [row])[..|rows|] == rows;
  }

  ghost predicate IsMalformed(row: RegistryRow, normalize: seq<real> -> Option<Embedding>) {
    row.NoFields? || (row.kind == "face_embedding" && EntryOf(row, normalize).None?)
  }

  ghost function MalformedRows(rows: seq<RegistryRow>, normalize: seq<real> -> Option<Embedding>): set<nat> {
    set i | 0 <= i < |rows| && IsMalformed(rows[i], normalize)
  }

  /** As many rows are skipped as are no record at all, or a face that yields no entry. */
  lemma {:induction false} SkippedMeans(rows: seq<RegistryRow>, normalize: seq<real> -> Option<Embedding>)
    ensures SkippedIn(rows, normalize) == |MalformedRows(rows, normalize)|
  {
    if rows != [] {
      var n := |rows| - 1;
      SkippedMeans(rows[..n], normalize);
      assert MalformedRows(rows, normalize) ==
             MalformedRows(rows[..n], normalize) + (if IsMalformed(rows[n], normalize) then {n} else {});
    }
  }

  /** Rows are listed by primary key, so no id comes twice. */
  ghost predicate DistinctRows(rows: seq<RegistryRow>) {
    forall i, j | 0 <= i < j < |rows| && rows[i].Fields? && rows[j].Fields? :: rows[i].id != rows[j].id
  }

  lemma {:induction false} EntriesInDistinct(rows: seq<RegistryRow>, normalize: seq<real> -> Option<Embedding>)
    requires DistinctRows(rows)
    ensures var es := EntriesIn(rows, normalize); forall i, j | 0 <= i < j < |es| :: es[i].id != es[j].id
  {
    if rows != [] {
      var n := |rows| - 1;
      EntriesInDistinct(rows[..n], normalize);
      var es := EntriesIn(rows[..n], normalize);
      forall i | 0 <= i < |es| ensures rows[n].Fields? ==> Some(es[i].id) != rows[n].id {
        EntriesInMember(rows[..n], normalize, es[i]);
        var row :| row in rows[..n] && EntryOf(row, normalize) == Some(es[i]);
        var k :| 0 <= k < n && rows[k] == row;
      }
    }
  }

  datatype Op = Add(entry: Entry) | Flush | ReplaceSection(es: seq<Entry>)

  function Do(c: CacheState, op: Op): CacheState {
    match op
    case Add(e) => AddTo(c, e)
    case Flush => FlushOf(c)
    case ReplaceSection(es) => ReplacedBy(es)
  }

  function DoAll(c: CacheState, ops: seq<Op>): CacheState {
    if ops == [] then c else Do(DoAll(c, ops[..|ops| - 1]), ops[|ops| - 1])
  }

  /** Coherence over any sequence of critical sections, interleaved in any way. */
  lemma {:induction false} CoherentOverAnyRun(ops: seq<Op>)
    ensures Coherent(DoAll(EMPTY_CACHE, ops))
    ensures FlushOf(DoAll(EMPTY_CACHE, ops)).index == FullIndex(DoAll(EMPTY_CACHE, ops).entries)
  {
    if ops != [] {
      var c := DoAll(EMPTY_CACHE, ops[..|ops| - 1]);
      CoherentOverAnyRun(ops[..|ops| - 1]);
      match ops[|ops| - 1]
      case Add(e) => AddKeepsCoherent(c, e);
      case Flush => FlushReflectsAll(c);
      case ReplaceSection(_) =>
    }
    FlushReflectsAll(DoAll(EMPTY_CACHE, ops));
  }

  /** `FaceAnnCache`; each method is one caller's view, with the lock sections in the source's order. */
  class Cache {
    var entries: seq<Entry>
    var index: Option<Index>
    var indexedLen: nat

    ghost function State(): CacheState
      reads this
    {
      CacheState(entries, index, indexedLen)
    }

    constructor ()
      ensures State() == EMPTY_CACHE
    {
      entries, index, indexedLen := [], None, 0;
    }

    method AddEntry(e: Entry)
      modifies this
      ensures State() == AddTo(old(State()), e)
    {
      entries := entries + [e];
    }

    method FlushIndex()
      modifies this
      ensures State() == FlushOf(old(State()))
    {
      if |entries| == indexedLen && index.Some? {
        return;
      }
      if entries == [] {
        index, indexedLen := None, 0;
        return;
      }
      var points := [];
      for i := 0 to |entries|
        invariant points == entries[..i]
        invariant State() == old(State())
      {
        points := points + [entries[i]];
      }
      assert points == entries;
      indexedLen := |entries|;
      index := Some(Index(points));
    }

    /** The hits come from an index over every entry added before the call. */
    method Nearest(query: Embedding, k: nat, search: Search) returns (hits: seq<Hit>)
      requires Coherent(State()) && Faithful(search)
      modifies this
      ensures Coherent(State()) && entries == old(entries)
      ensures hits == HitsOf(FullIndex(old(entries)), query, k, search)
    {
      FlushReflectsAll(State());
      FlushIndex();
      hits := HitsOf(index, query, k, search);
    }

    method ReplaceAll(es: seq<Entry>)
      modifies this
      ensures State() == FlushOf(ReplacedBy(es)) && Coherent(State())
      ensures index == FullIndex(es)
    {
      entries, index, indexedLen := es, None, 0;
      FlushReflectsAll(State());
      FlushIndex();
    }
  }
}
