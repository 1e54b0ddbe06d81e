/**
 Writes to the fingerprint store: the records that extractors plan
 (src/fingerprints/planned_record.rs) and `write_records` (src/fingerprints/writer.rs).
 */
module FingerprintStore {
  import opened Wrappers
  import opened FingerprintGraph
  import opened FingerprintKeys

  /**
   The planned records that shape the graph; every other schema is `OtherRecord`. `face` is the normalized
   embedding, None for other kinds and malformed values.
   */
  datatype Record =
    | FingerprintRecord(id: Id, face: Option<Embedding>)
    | EdgeRecord(id: Id, edge: Edge)
    | EdgeRow(fp: Id, edgeId: Id)
    | MentionRow(fp: Id, mentionId: Id)
    | OtherRecord

  const EMPTY_STORE := Store({}, map[], map[], map[], map[])

  function Upserted(rows: seq<Id>, x: Id): seq<Id> {
    if x in rows then rows else rows + [x]
  }

  /** One successful `execute_mutation`: an upsert by primary key. */
  function Apply(st: Store, r: Record): Store {
    match r
    case FingerprintRecord(id, face) =>
      st.(fingerprints := st.fingerprints + {id},
          faces := if face.Some? then st.faces[id := face.value] else st.faces - {id})
    case EdgeRecord(id, e) => st.(edges := st.edges[id := e])
    case EdgeRow(fp, e) => st.(edgeRows := st.edgeRows[fp := Upserted(st.EdgeIdsTouching(fp), e)])
    case MentionRow(fp, m) => st.(mentionRows := st.mentionRows[fp := Upserted(st.MentionIdsTouching(fp), m)])
    case OtherRecord => st
  }

  function ApplyAll(st: Store, rs: seq<Record>): Store
    decreases rs
  {
    if rs == [] then st else ApplyAll(Apply(st, rs[0]), rs[1..])
  }

  /** The junction table holds the row (x, id). */
  predicate Holds(rows: map<Id, seq<Id>>, x: Id, id: Id) {
    x in rows && id in rows[x]
  }

  ghost predicate RowsDistinct(rows: map<Id, seq<Id>>) {
    forall x, i, j | x in rows && 0 <= i < j < |rows[x]| :: rows[x][i] != rows[x][j]
  }

  /** A write puts its own record there, in place of one under the same key, and leaves every other record alone. */
  lemma ApplyMeans(st: Store, r: Record, x: Id, y: Id)
    ensures var st' := Apply(st, r);
            && (x in st'.fingerprints <==> x in st.fingerprints || (r.FingerprintRecord? && r.id == x))
            && (Holds(st'.edgeRows, x, y) <==> Holds(st.edgeRows, x, y) || r == EdgeRow(x, y))
            && (Holds(st'.mentionRows, x, y) <==> Holds(st.mentionRows, x, y) || r == MentionRow(x, y))
            && (if r.EdgeRecord? && r.id == x then x in st'.edges && st'.edges[x] == r.edge
                else x in st'.edges <==> x in st.edges && (x in st.edges ==> st'.edges[x] == st.edges[x]))
            && (if r.FingerprintRecord? && r.id == x
                then if r.face.Some? then x in st'.faces && st'.faces[x] == r.face.value else x !in st'.faces
                else x in st'.faces <==> x in st.faces && (x in st.faces ==> st'.faces[x] == st.faces[x]))
  {
  }

  /** Writing a junction row twice leaves one; the rows already there keep their order. */
  lemma ApplyKeepsRowsDistinct(st: Store, r: Record, x: Id)
    requires RowsDistinct(st.edgeRows) && RowsDistinct(st.mentionRows)
    ensures RowsDistinct(Apply(st, r).edgeRows) && RowsDistinct(Apply(st, r).mentionRows)
    ensures x in st.edgeRows ==> x in Apply(st, r).edgeRows && st.edgeRows[x] <= Apply(st, r).edgeRows[x]
    ensures x in st.mentionRows ==> x in Apply(st, r).mentionRows && st.mentionRows[x] <= Apply(st, r).mentionRows[x]
  {
    match r
    case EdgeRow(fp, e) => UpsertedDistinct(st.EdgeIdsTouching(fp), e);
    case MentionRow(fp, m) => UpsertedDistinct(st.MentionIdsTouching(fp), m);
    case _ =>
  }

  lemma UpsertedDistinct(rows: seq<Id>, x: Id)
    requires forall i, j | 0 <= i < j < |rows| :: rows[i] != rows[j]
    ensures var rows' := Upserted(rows, x);
            rows <= rows' && x in rows' && forall i, j | 0 <= i < j < |rows'| :: rows'[i] != rows'[j]
  {
    assert forall i | 0 <= i < |rows| :: rows[i] in rows;
  }

  /** What every ingest keeps true of the store. */
  ghost predicate StoreInv(h: Hash, st: Store) {
    && (forall x | x in st.fingerprints :: |x.text| == ID_LENGTH)
    && st.faces.Keys <= st.fingerprints
    && (forall id | id in st.edges :: EdgeWellFormed(h, st, id, st.edges[id]))
    && RowsKeyed(st)
  }

  /** Every junction row points to a stored edge and is keyed by one of its ends. */
  ghost predicate RowsKeyed(st: Store) {
    forall x, id :: HasRow(st, x, id) ==> id in st.edges && st.edges[id].HasEndpoint(x)
  }

  /** An Edge record joins two distinct existing fingerprints under their key. */
  ghost predicate EdgeWellFormed(h: Hash, st: Store, id: Id, e: Edge) {
    && e.a != e.b && e.a in st.fingerprints && e.b in st.fingerprints
    && id.text == EdgeId(h, e.a.text, e.b.text, e.kind)
  }

  /** What a record needs of the store it is written to. */
  ghost predicate Writable(h: Hash, st: Store, r: Record) {
    match r
    case FingerprintRecord(id, _) => |id.text| == ID_LENGTH
    case EdgeRecord(id, e) => EdgeWellFormed(h, st, id, e)
    case EdgeRow(fp, id) => id in st.edges && st.edges[id].HasEndpoint(fp)
    case MentionRow(_, _) => true
    case OtherRecord => true
  }

  /** Every record of the batch finds what it needs once its predecessors are written. */
  ghost predicate BatchOk(h: Hash, st: Store, rs: seq<Record>)
    decreases rs
  {
    rs == [] || (Writable(h, st, rs[0]) && BatchOk(h, Apply(st, rs[0]), rs[1..]))
  }

  /** Nothing disappears, and no edge id changes its endpoint pair. */
  ghost predicate Grows(st: Store, st': Store) {
    && st.fingerprints <= st'.fingerprints
    && (forall id | id in st.edges :: id in st'.edges && SameEnds(st.edges[id], st'.edges[id]))
  }

  ghost predicate SameEnds(e: Edge, f: Edge) {
    {e.a, e.b} == {f.a, f.b}
  }

  lemma SameEndsSameEndpoints(e: Edge, f: Edge, x: Id)
    requires SameEnds(e, f)
    ensures e.HasEndpoint(x) == f.HasEndpoint(x)
  {
    assert e.HasEndpoint(x) <==> x in {e.a, e.b};
    assert f.HasEndpoint(x) <==> x in {f.a, f.b};
  }

  /** Overwriting an edge id keeps its endpoint pair. */
  lemma OverwriteKeepsEnds(h: Hash, st: Store, id: Id, e: Edge)
    requires Injective(h) && StoreInv(h, st) && EdgeWellFormed(h, st, id, e) && id in st.edges
    ensures SameEnds(st.edges[id], e)
  {
    var f := st.edges[id];
    EdgeIdIdentifiesEdge(h, f.a.text, f.b.text, f.kind, e.a.text, e.b.text, e.kind);
    assert f.a.text in {e.a.text, e.b.text} && f.b.text in {e.a.text, e.b.text};
    assert e.a.text in {f.a.text, f.b.text} && e.b.text in {f.a.text, f.b.text};
  }

  lemma OverwriteGrows(st: Store, r: Record)
    requires r.EdgeRecord? && r.id in st.edges ==> SameEnds(st.edges[r.id], r.edge)
    ensures Grows(st, Apply(st, r))
  {
  }

  lemma ApplyGrows(h: Hash, st: Store, r: Record)
    requires Injective(h) && StoreInv(h, st) && Writable(h, st, r)
    ensures Grows(st, Apply(st, r))
  {
    if r.EdgeRecord? && r.id in st.edges {
      OverwriteKeepsEnds(h, st, r.id, r.edge);
    }
    OverwriteGrows(st, r);
  }

  predicate HasRow(st: Store, x: Id, e: Id) {
    e in st.EdgeIdsTouching(x)
  }

  lemma RowsAfter(st: Store, r: Record, x: Id, e: Id)
    ensures HasRow(Apply(st, r), x, e) <==> HasRow(st, x, e) || r == EdgeRow(x, e)
  {
  }

  lemma RowsStayKeyed(st: Store, r: Record)
    requires RowsKeyed(st) && Grows(st, Apply(st, r))
    requires r.EdgeRow? ==> r.edgeId in st.edges && st.edges[r.edgeId].HasEndpoint(r.fp)
    ensures RowsKeyed(Apply(st, r))
  {
    forall x, id | HasRow(Apply(st, r), x, id)
      ensures id in Apply(st, r).edges && Apply(st, r).edges[id].HasEndpoint(x)
    {
      RowsAfter(st, r, x, id);
      SameEndsSameEndpoints(st.edges[id], Apply(st, r).edges[id], x);
    }
  }

  lemma EdgeStaysWellFormed(h: Hash, st: Store, st': Store, id: Id, e: Edge)
    requires EdgeWellFormed(h, st, id, e) && st.fingerprints <= st'.fingerprints
    ensures EdgeWellFormed(h, st', id, e)
  {
  }

  lemma ApplyKeepsInv(h: Hash, st: Store, r: Record)
    requires Injective(h) && StoreInv(h, st) && Writable(h, st, r)
    ensures StoreInv(h, Apply(st, r))
  {
    var st' := Apply(st, r);
    ApplyGrows(h, st, r);
    RowsStayKeyed(st, r);
    forall id | id in st'.edges ensures EdgeWellFormed(h, st', id, st'.edges[id]) {
      EdgeStaysWellFormed(h, st, st', id, st'.edges[id]);
    }
  }

  lemma WritableGrows(h: Hash, st: Store, st': Store, r: Record)
    requires Grows(st, st') && Writable(h, st, r)
    ensures Writable(h, st', r)
  {
    if r.EdgeRow? {
      SameEndsSameEndpoints(st.edges[r.edgeId], st'.edges[r.edgeId], r.fp);
    }
  }

  lemma ApplyIsMonotone(st: Store, st': Store, r: Record)
    requires Grows(st, st')
    ensures Grows(Apply(st, r), Apply(st', r))
  {
    var s, s' := Apply(st, r), Apply(st', r);
    forall id | id in s.edges ensures id in s'.edges && SameEnds(s.edges[id], s'.edges[id]) {
      assert id in st.edges ==> id in st'.edges && SameEnds(st.edges[id], st'.edges[id]);
    }
  }

  /** A pending batch stays writable whatever well-formed records others write in between. */
  lemma {:induction false} BatchGrows(h: Hash, st: Store, st': Store, rs: seq<Record>)
    requires Grows(st, st') && BatchOk(h, st, rs)
    ensures BatchOk(h, st', rs)
    decreases rs
  {
    if rs != [] {
      WritableGrows(h, st, st', rs[0]);
      ApplyIsMonotone(st, st', rs[0]);
      BatchGrows(h, Apply(st, rs[0]), Apply(st', rs[0]), rs[1..]);
    }
  }

  lemma GrowsTransitive(st: Store, st1: Store, st2: Store)
    requires Grows(st, st1) && Grows(st1, st2)
    ensures Grows(st, st2)
  {
  }

  lemma {:induction false} BatchKeepsInv(h: Hash, st: Store, rs: seq<Record>)
    requires Injective(h) && StoreInv(h, st) && BatchOk(h, st, rs)
    ensures StoreInv(h, ApplyAll(st, rs)) && Grows(st, ApplyAll(st, rs))
    decreases rs
  {
    if rs != [] {
      ApplyKeepsInv(h, st, rs[0]);
      ApplyGrows(h, st, rs[0]);
      BatchKeepsInv(h, Apply(st, rs[0]), rs[1..]);
      GrowsTransitive(st, Apply(st, rs[0]), ApplyAll(st, rs));
    }
  }

  lemma {:induction false} BatchAppend(h: Hash, st: Store, xs: seq<Record>, ys: seq<Record>)
    requires BatchOk(h, st, xs) && BatchOk(h, ApplyAll(st, xs), ys)
    ensures BatchOk(h, st, xs + ys)
    decreases xs
  {
    if xs == [] {
      assert xs + ys == ys;
    } else {
      BatchAppend(h, Apply(st, xs[0]), xs[1..], ys);
      assert (xs + ys)[1..] == xs[1..] + ys;
    }
  }

  lemma {:induction false} BatchPrefix(h: Hash, st: Store, rs: seq<Record>, n: nat)
    requires BatchOk(h, st, rs) && n <= |rs|
    ensures BatchOk(h, st, rs[..n])
    decreases n
  {
    if n > 0 {
      BatchPrefix(h, Apply(st, rs[0]), rs[1..], n - 1);
      assert rs[..n][1..] == rs[1..][..n - 1];
    }
  }

  lemma {:induction false} ApplyAllSnoc(st: Store, rs: seq<Record>, r: Record)
    ensures ApplyAll(st, rs + [r]) == Apply(ApplyAll(st, rs), r)
    decreases rs
  {
    if rs == [] {
      assert rs + [r] == [r];
    } else {
      ApplyAllSnoc(Apply(st, rs[0]), rs[1..], r);
      assert (rs + [r])[1..] == rs[1..] + [r];
    }
  }

  /** Whatever prefix of a good batch was persisted, the store invariant holds. */
  lemma EveryPrefixKeepsInv(h: Hash, st: Store, rs: seq<Record>, n: nat)
    requires Injective(h) && StoreInv(h, st) && BatchOk(h, st, rs) && n <= |rs|
    ensures StoreInv(h, ApplyAll(st, rs[..n]))
  {
    BatchPrefix(h, st, rs, n);
    BatchKeepsInv(h, st, rs[..n]);
  }

  /** The database behind the node, with the outcome list of `write_records`. */
  class Database {
    var store: Store

    constructor ()
      ensures store == EMPTY_STORE
    {
      store := EMPTY_STORE;
    }

    /**
     Writes records in order and stops at the first error. `accepts(i)` says whether the name
     lookup and the mutation of record `i` succeed.
     */
    method WriteRecords(records: seq<Record>, accepts: nat -> bool) returns (r: Result<nat, nat>)
      modifies this
      ensures r.Ok? ==> r.value == |records| && store == ApplyAll(old(store), records)
      ensures r.Err? ==> r.error < |records| && !accepts(r.error) && store == ApplyAll(old(store), records[..r.error])
      ensures r.Ok? <==> forall i | 0 <= i < |records| :: accepts(i)
    {
      for i := 0 to |records|
        invariant store == ApplyAll(old(store), records[..i])
        invariant forall j | 0 <= j < i :: accepts(j)
      {
        if !accepts(i) {
          return Err(i);
        }
        ApplyAllSnoc(old(store), records[..i], records[i]);
        assert records[..i + 1] == records[..i] + [records[i]];
        store := Apply(store, records[i]);
      }
      assert records[..|records|] == records;
      return Ok(|records|);
    }
  }
}
