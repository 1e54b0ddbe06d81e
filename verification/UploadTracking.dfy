/**
 Tracking of uploaded pseudonyms (src/discovery/publisher.rs): string-encoded keys, prefix
 scans that decode them, and the publish pass that fills them.
 */
module UploadTracking {
  import opened Wrappers

  const UPLOADED_PREFIX := "discovery:uploaded:"
  const EMB_PREFIX := "emb:"
  const FACE_FIELD := "__face__"

  // ---- Keys ----

  predicate IsHexDigit(c: char) {
    '0' <= c <= '9' || 'a' <= c <= 'f'
  }

  /** The hyphenated lower-case form in which a UUID is written. */
  predicate IsUuidText(s: string) {
    && |s| == 36
    && forall i | 0 <= i < 36 :: if i in {8, 13, 18, 23} then s[i] == '-' else IsHexDigit(s[i])
  }

  type Uuid = s: string | IsUuidText(s) witness "00000000-0000-0000-0000-000000000000"

  /** Every digit may occur, in lower case only. */
  lemma UuidExamples()
    ensures IsUuidText("01234567-89ab-cdef-0123-456789abcdef")
    ensures !IsUuidText("01234567-89ab-cdeg-0123-456789abcdef") && !IsUuidText("01234567-89AB-cdef-0123-456789abcdef")
    ensures !IsUuidText("01234567/89ab-cdef-0123-456789abcdef") && !IsUuidText("0123456789abcdef0123456789abcdef")
  {
    var g, upper, slash := "01234567-89ab-cdeg-0123-456789abcdef", "01234567-89AB-cdef-0123-456789abcdef",
      "01234567/89ab-cdef-0123-456789abcdef";
    assert g[17] == 'g' && upper[11] == 'A' && slash[8] == '/';
  }

  lemma UuidHasNoColon(p: Uuid)
    ensures ':' !in p
  {
    forall i | 0 <= i < |p| ensures p[i] != ':' {
      assert IsHexDigit(p[i]) || p[i] == '-';
    }
  }

  /** A pseudonym uploaded for a schema. */
  datatype Upload = Upload(schema: string, pseudonym: Uuid)

  function SchemaPrefix(schema: string): string {
    UPLOADED_PREFIX + schema + ":"
  }

  function UploadedKey(schema: string, p: Uuid): string {
    SchemaPrefix(schema) + p
  }

  function KeyOf(u: Upload): string {
    UploadedKey(u.schema, u.pseudonym)
  }

  /** The shape of a tracking key. */
  lemma KeyIs(u: Upload)
    ensures KeyOf(u) == "discovery:uploaded:" + u.schema + ":" + u.pseudonym
  {
  }

  /** Splits at the last colon. */
  function RSplitOnce(s: string): (r: Option<(string, string)>)
    ensures r.Some? ==> s == r.value.0 + ":" + r.value.1 && ':' !in r.value.1
  {
    if s == "" then None
    else
      var init, last := s[..|s| - 1], s[|s| - 1];
      assert s == init + [last];
      if last == ':' then Some((init, ""))
      else match RSplitOnce(init)
        case None => None
        case Some((a, b)) =>
          assert init + [last] == a + ":" + (b + [last]);
          Some((a, b + [last]))
  }

  lemma {:induction false} SplitsAtLastColon(a: string, b: string)
    requires ':' !in b
    ensures RSplitOnce(a + ":" + b) == Some((a, b))
  {
    var s := a + ":" + b;
    if b == "" {
      assert s[..|s| - 1] == a && s[|s| - 1] == ':';
    } else {
      var n := |b| - 1;
      assert s[..|s| - 1] == a + ":" + b[..n];
      assert b[n] in b;
      SplitsAtLastColon(a, b[..n]);
      assert b == b[..n] + [b[n]];
    }
  }

  function DecodeKey(key: string): Option<Upload> {
    if !(UPLOADED_PREFIX <= key) then None
    else match RSplitOnce(key[|UPLOADED_PREFIX|..])
      case None => None
      case Some((schema, pseudo)) => if IsUuidText(pseudo) then Some(Upload(schema, pseudo)) else None
  }

  /** Keys decode back to what was recorded, for every schema name, colons included. */
  lemma DecodeAfterEncode(schema: string, p: Uuid)
    ensures DecodeKey(UploadedKey(schema, p)) == Some(Upload(schema, p))
  {
    UuidHasNoColon(p);
    var key := UploadedKey(schema, p);
    assert key == UPLOADED_PREFIX + (schema + ":" + p);
    assert key[|UPLOADED_PREFIX|..] == schema + ":" + p;
    SplitsAtLastColon(schema, p);
  }

  /** Only a tracking key decodes, and only to its own parts. */
  lemma EncodeAfterDecode(key: string)
    requires DecodeKey(key).Some?
    ensures KeyOf(DecodeKey(key).value) == key
  {
    var rest := key[|UPLOADED_PREFIX|..];
    var (schema, p) := RSplitOnce(rest).value;
    assert key == UPLOADED_PREFIX + rest;
    assert UPLOADED_PREFIX + (schema + ":" + p) == UploadedKey(schema, p);
  }

  lemma {:induction false} PrefixBeforeColon(s: string, t: string, p: string)
    requires ':' !in p && s + ":" <= t + ":" + p
    ensures s == t || s + ":" <= t
  {
    var whole := t + ":" + p;
    assert (s + ":")[|s|] == ':' && whole[|s|] == ':';
    forall i | |t| < i < |whole| ensures whole[i] != ':' {
      assert whole[i] == p[i - |t| - 1];
    }
    assert |s| <= |t|;
    if |s| == |t| {
      assert s == (s + ":")[..|s|] == whole[..|t|] == t;
    } else {
      assert s + ":" == whole[..|s| + 1] == t[..|s| + 1];
    }
  }

  /** A schema's scan prefix matches its own keys and those of schemas named by extending it with a colon. */
  lemma ScanMatches(s: string, t: string, p: Uuid)
    ensures SchemaPrefix(s) <= UploadedKey(t, p) <==> s == t || s + ":" <= t
  {
    UuidHasNoColon(p);
    var n := |UPLOADED_PREFIX|;
    var key, prefix := UploadedKey(t, p), SchemaPrefix(s);
    assert key[n..] == t + ":" + p && prefix[n..] == s + ":";
    if prefix <= key {
      assert prefix[n..] <= key[n..];
      PrefixBeforeColon(s, t, p);
    }
    if s == t || s + ":" <= t {
      assert s + ":" <= t + ":" + p;
      assert key == UPLOADED_PREFIX + key[n..] && prefix == UPLOADED_PREFIX + prefix[n..];
    }
  }

  // ---- The store ----

  /** A stored embedding row; legacy rows have no field name. */
  datatype StoredEmbedding = StoredEmbedding(fieldName: string, embedding: seq<real>)

  /** What a key may hold: a tracking marker, an embedding row (None when it does not parse), or anything else. */
  datatype Value = Marker | EmbeddingRow(stored: Option<StoredEmbedding>) | OtherValue

  type Rows = map<string, Value>

  /** The keys a prefix scan returns: each once, in key order in the source, here in any order. */
  ghost predicate Scans(rows: Rows, prefix: string, keys: seq<string>) {
    && (forall k :: k in keys <==> k in rows && prefix <= k)
    && (forall i, j | 0 <= i < j < |keys| :: keys[i] != keys[j])
  }

  method ScanKeys(rows: Rows, prefix: string) returns (keys: seq<string>)
    ensures Scans(rows, prefix, keys)
  {
    keys := [];
    var rest := set k | k in rows && prefix <= k;
    ghost var all := rest;
    while rest != {}
      invariant rest <= all
      invariant forall k :: k in keys <==> k in all - rest
      invariant forall i, j | 0 <= i < j < |keys| :: keys[i] != keys[j]
      decreases rest
    {
      var k :| k in rest;
      assert forall i | 0 <= i < |keys| :: keys[i] in keys;
      rest, keys := rest - {k}, keys + [k];
    }
  }

  // ---- The tracking table ----

  /** Every key under the tracking prefix was written by `record_uploaded`. */
  ghost predicate WellTracked(rows: Rows) {
    forall k | k in rows && UPLOADED_PREFIX <= k :: DecodeKey(k).Some?
  }

  predicate Tracks(rows: Rows, u: Upload) {
    KeyOf(u) in rows
  }

  /** The prefix that a listing or clearing scans. */
  function ScanPrefix(filter: Option<string>): string {
    match filter
    case None => UPLOADED_PREFIX
    case Some(s) => SchemaPrefix(s)
  }

  /** Which schemas a scan reaches. */
  predicate Reaches(filter: Option<string>, schema: string) {
    filter.None? || filter.value == schema || filter.value + ":" <= schema
  }

  lemma ScanReaches(filter: Option<string>, u: Upload)
    ensures ScanPrefix(filter) <= KeyOf(u) <==> Reaches(filter, u.schema)
  {
    match filter
    case None => assert KeyOf(u) == UPLOADED_PREFIX + (u.schema + ":" + u.pseudonym);
    case Some(s) => ScanMatches(s, u.schema, u.pseudonym);
  }

  lemma ScanStaysTracked(filter: Option<string>, k: string)
    requires ScanPrefix(filter) <= k
    ensures UPLOADED_PREFIX <= k
  {
    if filter.Some? {
      assert SchemaPrefix(filter.value) == UPLOADED_PREFIX + (filter.value + ":");
    }
  }

  lemma KeysAreDistinct(u: Upload, v: Upload)
    ensures KeyOf(u) == KeyOf(v) <==> u == v
  {
    DecodeAfterEncode(u.schema, u.pseudonym);
    DecodeAfterEncode(v.schema, v.pseudonym);
  }

  // ---- Listing ----

  type Listing = seq<Upload>

  /** The listing shows exactly the tracked pairs that its scan reaches, each once. */
  ghost predicate Shows(rows: Rows, filter: Option<string>, out: Listing) {
    && (forall u :: u in out <==> Tracks(rows, u) && Reaches(filter, u.schema))
    && (forall i, j | 0 <= i < j < |out| :: out[i] != out[j])
  }

  ghost predicate Undecodable(rows: Rows, filter: Option<string>, k: string) {
    k in rows && ScanPrefix(filter) <= k && DecodeKey(k).None?
  }

  /** What `list_uploaded_pseudonyms` may return: it fails exactly when a scanned key does not decode. */
  ghost predicate Listed(rows: Rows, filter: Option<string>, r: Option<Listing>) {
    && (r.None? <==> exists k :: Undecodable(rows, filter, k))
    && (r.Some? ==> Shows(rows, filter, r.value))
  }

  /** The first `n` scanned keys decode to `out`. */
  ghost predicate Decodes(keys: seq<string>, n: nat, out: Listing) {
    && |out| == n <= |keys|
    && forall i | 0 <= i < n :: DecodeKey(keys[i]) == Some(out[i])
  }

  lemma DecodedShows(rows: Rows, filter: Option<string>, keys: seq<string>, out: Listing)
    requires Scans(rows, ScanPrefix(filter), keys) && Decodes(keys, |keys|, out)
    ensures Shows(rows, filter, out)
  {
    forall i | 0 <= i < |keys| ensures KeyOf(out[i]) == keys[i] {
      EncodeAfterDecode(keys[i]);
    }
    forall u ensures u in out <==> Tracks(rows, u) && Reaches(filter, u.schema) {
      ScanReaches(filter, u);
      if KeyOf(u) in keys {
        var i :| 0 <= i < |keys| && keys[i] == KeyOf(u);
        KeysAreDistinct(u, out[i]);
      }
    }
  }

  method ListUploaded(rows: Rows, filter: Option<string>) returns (r: Option<Listing>)
    ensures Listed(rows, filter, r)
  {
    var keys := ScanKeys(rows, ScanPrefix(filter));
    var out: Listing := [];
    for i := 0 to |keys|
      invariant Decodes(keys, i, out)
    {
      var u := DecodeKey(keys[i]);
      if u.None? {
        assert keys[i] in keys;
        assert Undecodable(rows, filter, keys[i]);
        return None;
      }
      out := out + [u.value];
    }
    DecodedShows(rows, filter, keys, out);
    forall k ensures !Undecodable(rows, filter, k) {
      if k in keys {
        var i :| 0 <= i < |keys| && keys[i] == k;
      }
    }
    return Some(out);
  }

  /** With only tracking keys under the prefix, a listing never fails. */
  lemma ListingSucceeds(rows: Rows, filter: Option<string>, r: Option<Listing>)
    requires WellTracked(rows) && Listed(rows, filter, r)
    ensures r.Some?
  {
    forall k ensures !Undecodable(rows, filter, k) {
      if ScanPrefix(filter) <= k {
        ScanStaysTracked(filter, k);
      }
    }
  }

  /** A schema's listing is exact exactly when no other tracked schema is named by extending its name with a colon. */
  lemma SchemaListingIsExactIff(rows: Rows, schema: string, out: Listing)
    requires Shows(rows, Some(schema), out)
    ensures (forall u :: u in out <==> Tracks(rows, u) && u.schema == schema) <==>
            (forall u :: Tracks(rows, u) && schema + ":" <= u.schema ==> u.schema == schema)
  {
    if forall u :: u in out <==> Tracks(rows, u) && u.schema == schema {
      forall u | Tracks(rows, u) && schema + ":" <= u.schema ensures u.schema == schema {
        assert Reaches(Some(schema), u.schema);
        assert u in out;
      }
    }
  }

  // ---- Publishing ----

  datatype PrivacyClass = NeverPublish | Publishable

  /** The opt-in of a schema; `privacy` already falls back to the default class of a field name. */
  datatype OptIn = OptIn(schemaName: string, category: string, publishFaces: bool, privacy: string -> PrivacyClass)

  /** An embedding row as the publisher reads it: None when it does not parse. */
  type Row = Option<StoredEmbedding>

  /** Pseudonyms are derived from the embedding alone. */
  type Derive = seq<real> -> Uuid

  function EmbeddingPrefix(schema: string): string {
    EMB_PREFIX + schema + ":"
  }

  function RowOf(v: Value): Row {
    if v.EmbeddingRow? then v.stored else None
  }

  /** The rows under the scanned keys. */
  function RawOf(rows: Rows, keys: seq<string>): (raw: seq<Row>)
    requires forall k | k in keys :: k in rows
    ensures |raw| == |keys| && forall i | 0 <= i < |keys| :: raw[i] == RowOf(rows[keys[i]])
  {
    if keys == [] then [] else RawOf(rows, keys[..|keys| - 1]) + [RowOf(rows[keys[|keys| - 1]])]
  }

  /** `raw` are the rows that a scan for the schema's embeddings returns. */
  ghost predicate EmbeddingRows(rows: Rows, schema: string, raw: seq<Row>) {
    exists keys :: Scans(rows, EmbeddingPrefix(schema), keys) && raw == RawOf(rows, keys)
  }

  /** The rows read are those under "emb:", the schema and a colon. */
  lemma EmbeddingRowsMean(rows: Rows, schema: string, raw: seq<Row>, row: Row)
    requires EmbeddingRows(rows, schema, raw)
    ensures row in raw <==>
            exists k :: k in rows && "emb:" + schema + ":" <= k
                        && row == (match rows[k] case EmbeddingRow(stored) => stored case _ => None)
  {
    var keys :| Scans(rows, EmbeddingPrefix(schema), keys) && raw == RawOf(rows, keys);
    if row in raw {
      var i :| 0 <= i < |raw| && raw[i] == row;
      assert keys[i] in keys;
    }
    if k :| k in rows && "emb:" + schema + ":" <= k
            && row == (match rows[k] case EmbeddingRow(stored) => stored case _ => None)
    {
      assert k in keys;
      var i :| 0 <= i < |keys| && keys[i] == k;
      assert raw[i] == row;
    }
  }

  /** The embedding scan takes in the rows of every schema that extends the name with a colon. */
  lemma EmbeddingScanReaches(schema: string, other: string, tail: string)
    requires schema == other || schema + ":" <= other
    ensures EmbeddingPrefix(schema) <= EmbeddingPrefix(other) + tail
  {
    var a, b := EmbeddingPrefix(schema), EmbeddingPrefix(other) + tail;
    if schema != other {
      assert other == schema + ":" + other[|schema| + 1..];
      assert b[..|a|] == a;
    }
  }

  function FieldOf(config: OptIn, e: StoredEmbedding): string {
    if e.fieldName == "" then config.schemaName else e.fieldName
  }

  /** The text pass publishes this row. */
  predicate TextPublishes(config: OptIn, row: Row) {
    && row.Some? && row.value.embedding != []
    && FieldOf(config, row.value) != FACE_FIELD
    && config.privacy(FieldOf(config, row.value)) != NeverPublish
  }

  /** The text pass counts this row as skipped. */
  predicate TextSkips(config: OptIn, row: Row) {
    || row.None? || row.value.embedding == []
    || (FieldOf(config, row.value) != FACE_FIELD && config.privacy(FieldOf(config, row.value)) == NeverPublish)
  }

  predicate FacePublishes(config: OptIn, row: Row) {
    config.publishFaces && row.Some? && row.value.embedding != [] && row.value.fieldName == FACE_FIELD
  }

  predicate HasEmbedding(row: Row) {
    row.Some? && row.value.embedding != []
  }

  function Skips(config: OptIn, raw: seq<Row>): nat {
    if raw == [] then 0
    else Skips(config, raw[..|raw| - 1]) + (if TextSkips(config, raw[|raw| - 1]) then 1 else 0)
  }

  /** The pseudonyms of the rows that satisfy `chosen`, in row order. */
  function Chosen(raw: seq<Row>, chosen: Row -> bool, derive: Derive): seq<Uuid> {
    if raw == [] then []
    else
      var row := raw[|raw| - 1];
      Chosen(raw[..|raw| - 1], chosen, derive)
      + (if row.Some? && chosen(row) then [derive(row.value.embedding)] else [])
  }

  lemma {:induction false} ChosenMembers(raw: seq<Row>, chosen: Row -> bool, derive: Derive, p: Uuid)
    ensures p in Chosen(raw, chosen, derive) <==>
            exists row :: row in raw && row.Some? && chosen(row) && derive(row.value.embedding) == p
  {
    if raw != [] {
      ChosenMembers(raw[..|raw| - 1], chosen, derive, p);
      assert raw == raw[..|raw| - 1] + [raw[|raw| - 1]];
    }
  }

  lemma {:induction false} NothingChosen(raw: seq<Row>, chosen: Row -> bool, derive: Derive)
    requires forall row :: !chosen(row)
    ensures Chosen(raw, chosen, derive) == []
  {
    if raw != [] {
      NothingChosen(raw[..|raw| - 1], chosen, derive);
    }
  }

  function Uploads(config: OptIn, raw: seq<Row>, derive: Derive): seq<Uuid> {
    Chosen(raw, row => TextPublishes(config, row), derive) + Chosen(raw, row => FacePublishes(config, row), derive)
  }

  function Derived(raw: seq<Row>, derive: Derive): seq<Uuid> {
    Chosen(raw, row => HasEmbedding(row), derive)
  }

  /** The two entry-building loops of `publish_schema`. */
  method BuildUploads(config: OptIn, raw: seq<Row>, derive: Derive) returns (uploads: seq<Uuid>, skipped: nat)
    ensures uploads == Uploads(config, raw, derive) && skipped == Skips(config, raw)
  {
    var text, faces: seq<Uuid> := [], [];
    skipped := 0;
    ghost var textual := row => TextPublishes(config, row);
    for i := 0 to |raw|
      invariant text == Chosen(raw[..i], textual, derive) && skipped == Skips(config, raw[..i])
    {
      assert raw[..i + 1][..i] == raw[..i];
      if raw[i].None? { skipped := skipped + 1; continue; }
      var stored := raw[i].value;
      if stored.embedding == [] { skipped := skipped + 1; continue; }
      var field := FieldOf(config, stored);
      if field == FACE_FIELD { continue; }
      if config.privacy(field) == NeverPublish { skipped := skipped + 1; continue; }
      text := text + [derive(stored.embedding)];
    }
    assert raw[..|raw|] == raw;
    ghost var facial := row => FacePublishes(config, row);
    if config.publishFaces {
      for i := 0 to |raw|
        invariant faces == Chosen(raw[..i], facial, derive)
      {
        assert raw[..i + 1][..i] == raw[..i];
        if raw[i].None? { continue; }
        if raw[i].value.embedding == [] || raw[i].value.fieldName != FACE_FIELD { continue; }
        faces := faces + [derive(raw[i].value.embedding)];
      }
    } else {
      NothingChosen(raw, facial, derive);
    }
    uploads := text + faces;
  }

  /** The loop of `derive_schema_pseudonyms`. */
  method DeriveRows(raw: seq<Row>, derive: Derive) returns (ps: seq<Uuid>)
    ensures ps == Derived(raw, derive)
  {
    ghost var chosen := (row: Row) => HasEmbedding(row);
    ps := [];
    for i := 0 to |raw|
      invariant ps == Chosen(raw[..i], chosen, derive)
    {
      assert raw[..i + 1][..i] == raw[..i];
      if raw[i].None? { continue; }
      if raw[i].value.embedding == [] { continue; }
      ps := ps + [derive(raw[i].value.embedding)];
    }
    assert raw[..|raw|] == raw;
  }

  /** The row holds an embedding under this field; legacy rows count as the schema's own field. */
  ghost predicate InField(config: OptIn, row: Row, field: string) {
    && row.Some? && row.value.embedding != []
    && (if row.value.fieldName == "" then field == config.schemaName else field == row.value.fieldName)
  }

  /** A text row that is published: of a field that is neither the face field nor never to be published. */
  ghost predicate IsText(config: OptIn, row: Row) {
    exists field :: InField(config, row, field) && field != "__face__" && config.privacy(field) != NeverPublish
  }

  /** A face row, when the schema publishes faces. */
  ghost predicate IsFace(config: OptIn, row: Row) {
    config.publishFaces && row.Some? && row.value.embedding != [] && row.value.fieldName == "__face__"
  }

  lemma PublishesMean(config: OptIn, row: Row)
    ensures TextPublishes(config, row) <==> IsText(config, row)
    ensures FacePublishes(config, row) <==> IsFace(config, row)
  {
    if TextPublishes(config, row) {
      assert InField(config, row, FieldOf(config, row.value));
    }
  }

  /** A pseudonym is uploaded exactly for a publishable text row, or for a face row when faces are published. */
  lemma UploadedIff(config: OptIn, raw: seq<Row>, derive: Derive, p: Uuid)
    ensures p in Uploads(config, raw, derive) <==>
            exists row :: row in raw && (IsText(config, row) || IsFace(config, row)) && derive(row.value.embedding) == p
  {
    ChosenMembers(raw, row => TextPublishes(config, row), derive, p);
    ChosenMembers(raw, row => FacePublishes(config, row), derive, p);
    forall row: Row { PublishesMean(config, row); }
  }

  ghost function Where(raw: seq<Row>, chosen: Row -> bool): set<nat> {
    set i | 0 <= i < |raw| && chosen(raw[i])
  }

  lemma {:induction false} ChosenCount(raw: seq<Row>, chosen: Row -> bool, that: Row -> bool, derive: Derive)
    requires forall row: Row :: (row.Some? && chosen(row)) <==> that(row)
    ensures |Chosen(raw, chosen, derive)| == |Where(raw, that)|
  {
    if raw != [] {
      var n := |raw| - 1;
      ChosenCount(raw[..n], chosen, that, derive);
      WhereSnoc(raw, that);
    }
  }

  lemma WhereSnoc(raw: seq<Row>, that: Row -> bool)
    requires raw != []
    ensures var n := |raw| - 1; |Where(raw, that)| == |Where(raw[..n], that)| + (if that(raw[n]) then 1 else 0)
  {
    var n := |raw| - 1;
    assert Where(raw, that) == Where(raw[..n], that) + (if that(raw[n]) then {n} else {});
  }

  ghost function TextRow(config: OptIn): Row -> bool {
    (row: Row) => IsText(config, row)
  }

  ghost function FaceRow(config: OptIn): Row -> bool {
    (row: Row) => IsFace(config, row)
  }

  /** One upload for each text row and for each face row that is published. */
  lemma UploadsCount(config: OptIn, raw: seq<Row>, derive: Derive)
    ensures |Uploads(config, raw, derive)| == |Where(raw, TextRow(config))| + |Where(raw, FaceRow(config))|
  {
    forall row: Row { PublishesMean(config, row); }
    ChosenCount(raw, row => TextPublishes(config, row), TextRow(config), derive);
    ChosenCount(raw, row => FacePublishes(config, row), FaceRow(config), derive);
  }

  /** A row that does not parse, has no embedding, or is of a field never to be published, the face field aside. */
  ghost function SkippedRow(config: OptIn): Row -> bool {
    (row: Row) => !IsText(config, row) && !(row.Some? && row.value.embedding != [] && InField(config, row, "__face__"))
  }

  /** As many rows are counted as skipped. */
  lemma {:induction false} SkipsCount(config: OptIn, raw: seq<Row>)
    ensures Skips(config, raw) == |Where(raw, SkippedRow(config))|
  {
    if raw != [] {
      var n := |raw| - 1;
      SkipsCount(config, raw[..n]);
      WhereSnoc(raw, SkippedRow(config));
      SkipMeans(config, raw[n]);
    }
  }

  lemma SkipMeans(config: OptIn, row: Row)
    ensures TextSkips(config, row) <==> SkippedRow(config)(row)
  {
    PublishesMean(config, row);
  }

  lemma DerivedIff(raw: seq<Row>, derive: Derive, p: Uuid)
    ensures p in Derived(raw, derive) <==>
            exists row :: row in raw && row.Some? && row.value.embedding != [] && derive(row.value.embedding) == p
  {
    ChosenMembers(raw, row => HasEmbedding(row), derive, p);
  }

  lemma SameRows(rows: Rows, schema: string, raw: seq<Row>, raw': seq<Row>, row: Row)
    requires EmbeddingRows(rows, schema, raw) && EmbeddingRows(rows, schema, raw') && row in raw
    ensures row in raw'
  {
    var keys :| Scans(rows, EmbeddingPrefix(schema), keys) && raw == RawOf(rows, keys);
    var keys' :| Scans(rows, EmbeddingPrefix(schema), keys') && raw' == RawOf(rows, keys');
    var i :| 0 <= i < |raw| && raw[i] == row;
    assert keys[i] in keys;
    var j :| 0 <= j < |keys'| && keys'[j] == keys[i];
    assert raw'[j] == row;
  }

  /** Deriving from the same store, scanned in any order, covers everything that was uploaded. */
  lemma DerivedCoversUploads(rows: Rows, config: OptIn, raw: seq<Row>, raw': seq<Row>, derive: Derive, p: Uuid)
    requires EmbeddingRows(rows, config.schemaName, raw) && EmbeddingRows(rows, config.schemaName, raw')
    requires p in Uploads(config, raw, derive)
    ensures p in Derived(raw', derive)
  {
    UploadedIff(config, raw, derive, p);
    var row :| row in raw && (IsText(config, row) || IsFace(config, row)) && derive(row.value.embedding) == p;
    SameRows(rows, config.schemaName, raw, raw', row);
    DerivedIff(raw', derive, p);
  }

  // ---- Runs ----

  /** A marker for each pseudonym. */
  function RecordAll(rows: Rows, schema: string, ps: seq<Uuid>): Rows {
    if ps == [] then rows
    else RecordAll(rows, schema, ps[..|ps| - 1])[UploadedKey(schema, ps[|ps| - 1]) := Marker]
  }

  lemma {:induction false} RecordedIff(rows: Rows, schema: string, ps: seq<Uuid>, u: Upload)
    ensures Tracks(RecordAll(rows, schema, ps), u) <==> Tracks(rows, u) || (u.schema == schema && u.pseudonym in ps)
  {
    if ps != [] {
      var before, last := ps[..|ps| - 1], ps[|ps| - 1];
      RecordedIff(rows, schema, before, u);
      KeysAreDistinct(u, Upload(schema, last));
      assert ps == before + [last];
    }
  }

  lemma {:induction false} RecordsKeepWellTracked(rows: Rows, schema: string, ps: seq<Uuid>)
    requires WellTracked(rows)
    ensures WellTracked(RecordAll(rows, schema, ps))
  {
    if ps != [] {
      RecordsKeepWellTracked(rows, schema, ps[..|ps| - 1]);
      DecodeAfterEncode(schema, ps[|ps| - 1]);
    }
  }

  ghost function KeysOf(us: set<Upload>): set<string> {
    set u | u in us :: KeyOf(u)
  }

  /**
   What happens to the store: one recorded pseudonym; a clear, complete or stopped by a failing delete after it
   removed `removed`; a publish of the scanned rows `raw` whose first `written` tracking writes succeeded; and
   anything that touches other keys. Calls that change nothing are left out.
   */
  datatype Event =
    | Record(u: Upload)
    | Clear(filter: Option<string>)
    | ClearPart(filter: Option<string>, removed: set<Upload>)
    | Publish(config: OptIn, raw: seq<Row>, derive: Derive, written: nat)
    | PutOther(key: string, value: Value)
    | DeleteOther(key: string)

  /** What the publish wrote to the tracking table, in order. */
  function Recorded(ev: Event): seq<Uuid>
    requires ev.Publish?
  {
    var ups := Uploads(ev.config, ev.raw, ev.derive);
    if ev.written <= |ups| then ups[..ev.written] else ups
  }

  ghost predicate Allowed(rows: Rows, ev: Event) {
    match ev
    case ClearPart(f, us) => forall u | u in us :: Reaches(f, u.schema)
    case Publish(config, raw, _, _) => EmbeddingRows(rows, config.schemaName, raw)
    case PutOther(k, _) => !(UPLOADED_PREFIX <= k)
    case DeleteOther(k) => !(UPLOADED_PREFIX <= k)
    case _ => true
  }

  ghost function Do(rows: Rows, ev: Event): Rows {
    match ev
    case Record(u) => rows[KeyOf(u) := Marker]
    case Clear(f) => map k | k in rows && !(ScanPrefix(f) <= k) :: rows[k]
    case ClearPart(_, us) => rows - KeysOf(us)
    case Publish(config, _, _, _) => RecordAll(rows, config.schemaName, Recorded(ev))
    case PutOther(k, v) => rows[k := v]
    case DeleteOther(k) => rows - {k}
  }

  ghost function Run(rows: Rows, evs: seq<Event>): Rows {
    if evs == [] then rows else Do(Run(rows, evs[..|evs| - 1]), evs[|evs| - 1])
  }

  ghost predicate IsRun(rows: Rows, evs: seq<Event>) {
    evs == [] || (IsRun(rows, evs[..|evs| - 1]) && Allowed(Run(rows, evs[..|evs| - 1]), evs[|evs| - 1]))
  }

  /** The event records the pair. */
  predicate Adds(ev: Event, u: Upload) {
    match ev
    case Record(v) => v == u
    case Publish(config, _, _, _) => u.schema == config.schemaName && u.pseudonym in Recorded(ev)
    case _ => false
  }

  /** The event clears the pair. */
  predicate Removes(ev: Event, u: Upload) {
    match ev
    case Clear(f) => Reaches(f, u.schema)
    case ClearPart(_, us) => u in us
    case _ => false
  }

  lemma PartMeaning(rows: Rows, us: set<Upload>, u: Upload)
    ensures Tracks(rows - KeysOf(us), u) <==> Tracks(rows, u) && u !in us
  {
    if KeyOf(u) in KeysOf(us) {
      var v :| v in us && KeyOf(v) == KeyOf(u);
      KeysAreDistinct(u, v);
    }
  }

  lemma EventMeaning(rows: Rows, ev: Event, u: Upload)
    requires Allowed(rows, ev)
    ensures Tracks(Do(rows, ev), u) <==> Adds(ev, u) || (Tracks(rows, u) && !Removes(ev, u))
  {
    ScanReaches(None, u);
    match ev
    case Record(v) => KeysAreDistinct(u, v);
    case Clear(f) => ScanReaches(f, u);
    case ClearPart(_, us) => PartMeaning(rows, us, u);
    case Publish(config, _, _, _) => RecordedIff(rows, config.schemaName, Recorded(ev), u);
    case PutOther(k, _) =>
    case DeleteOther(k) =>
  }

  lemma EventKeepsWellTracked(rows: Rows, ev: Event)
    requires WellTracked(rows) && Allowed(rows, ev)
    ensures WellTracked(Do(rows, ev))
  {
    match ev
    case Record(u) => DecodeAfterEncode(u.schema, u.pseudonym);
    case Publish(config, _, _, _) => RecordsKeepWellTracked(rows, config.schemaName, Recorded(ev));
    case _ =>
  }

  /** Recorded, or tracked at the start, and not cleared since; keys, prefixes and other rows aside. */
  predicate TrackedAfter(before: bool, evs: seq<Event>, u: Upload) {
    if evs == [] then before
    else Adds(evs[|evs| - 1], u) || (TrackedAfter(before, evs[..|evs| - 1], u) && !Removes(evs[|evs| - 1], u))
  }

  lemma {:induction false} StaysWellTracked(rows: Rows, evs: seq<Event>)
    requires WellTracked(rows) && IsRun(rows, evs)
    ensures WellTracked(Run(rows, evs))
  {
    if evs != [] {
      StaysWellTracked(rows, evs[..|evs| - 1]);
      EventKeepsWellTracked(Run(rows, evs[..|evs| - 1]), evs[|evs| - 1]);
    }
  }

  /** Over any run the table holds exactly what was recorded and not cleared since. */
  lemma {:induction false} TableOverAnyRun(rows: Rows, evs: seq<Event>, u: Upload)
    requires IsRun(rows, evs)
    ensures Tracks(Run(rows, evs), u) <==> TrackedAfter(Tracks(rows, u), evs, u)
  {
    if evs != [] {
      var before, ev := evs[..|evs| - 1], evs[|evs| - 1];
      TableOverAnyRun(rows, before, u);
      EventMeaning(Run(rows, before), ev, u);
    }
  }

  /** After any run a listing succeeds and returns exactly what was recorded and not cleared since, within its reach. */
  lemma ListingOverAnyRun(rows: Rows, evs: seq<Event>, filter: Option<string>, r: Option<Listing>)
    requires WellTracked(rows) && IsRun(rows, evs) && Listed(Run(rows, evs), filter, r)
    ensures r.Some?
    ensures forall u :: u in r.value <==> Reaches(filter, u.schema) && TrackedAfter(Tracks(rows, u), evs, u)
  {
    StaysWellTracked(rows, evs);
    ListingSucceeds(Run(rows, evs), filter, r);
    forall u ensures u in r.value <==> Reaches(filter, u.schema) && TrackedAfter(Tracks(rows, u), evs, u) {
      TableOverAnyRun(rows, evs, u);
    }
  }

  lemma {:induction false} AddedStaysTracked(before: bool, evs: seq<Event>, i: nat, u: Upload)
    requires i < |evs| && Adds(evs[i], u) && forall j | i < j < |evs| :: !Removes(evs[j], u)
    ensures TrackedAfter(before, evs, u)
  {
    if i < |evs| - 1 {
      AddedStaysTracked(before, evs[..|evs| - 1], i, u);
    }
  }

  /**
   Once a publish has returned Ok, every pseudonym it uploaded stays listed until a clear removes it, whatever else
   happens: later publishes and failed ones, deleted or changed embedding rows, clears of other schemas.
   */
  lemma PublishedStaysListed(rows: Rows, evs: seq<Event>, i: nat, p: Uuid, filter: Option<string>, r: Option<Listing>)
    requires WellTracked(rows) && IsRun(rows, evs) && Listed(Run(rows, evs), filter, r)
    requires i < |evs| && evs[i].Publish? && p in Uploads(evs[i].config, evs[i].raw, evs[i].derive)
    requires |Uploads(evs[i].config, evs[i].raw, evs[i].derive)| <= evs[i].written
    requires Reaches(filter, evs[i].config.schemaName)
    requires forall j | i < j < |evs| :: !Removes(evs[j], Upload(evs[i].config.schemaName, p))
    ensures r.Some? && Upload(evs[i].config.schemaName, p) in r.value
  {
    var u, ups := Upload(evs[i].config.schemaName, p), Uploads(evs[i].config, evs[i].raw, evs[i].derive);
    assert ups[..|ups|] == ups;
    assert Adds(evs[i], u);
    AddedStaysTracked(Tracks(rows, u), evs, i, u);
    ListingOverAnyRun(rows, evs, filter, r);
  }

  // ---- The calls ----

  datatype PublishResult = PublishResult(accepted: nat, quarantined: nat, total: nat, skipped: nat)

  /** The upload failed, or the tracking write at this position did. */
  datatype PublishError = UploadFailed | RecordFailed(at: nat)

  /** The service's answer to an upload. */
  datatype Response = Response(accepted: nat, quarantined: nat)

  type PublishAnswer = Result<PublishResult, PublishError>

  /** What a publish of `uploads` may answer, and the store it leaves. */
  ghost predicate PublishOutcome(before: Rows, after: Rows, schema: string, uploads: seq<Uuid>, skipped: nat,
                                 answer: Option<Response>, recorded: nat -> bool, r: PublishAnswer) {
    match r
    case Ok(result) =>
      && result.total == |uploads| && result.skipped == skipped
      && (if uploads == [] then result.accepted == 0 && result.quarantined == 0
          else answer == Some(Response(result.accepted, result.quarantined)))
      && after == RecordAll(before, schema, uploads) && StopsAt(recorded, |uploads|, |uploads|)
    case Err(UploadFailed) => uploads != [] && answer.None? && after == before
    case Err(RecordFailed(n)) =>
      && answer.Some? && n < |uploads| && StopsAt(recorded, |uploads|, n)
      && after == RecordAll(before, schema, uploads[..n])
  }

  /** A publish that returns Ok, or fails to record, is the event of that name. */
  lemma OutcomeIsEvent(before: Rows, after: Rows, config: OptIn, raw: seq<Row>, derive: Derive, skipped: nat,
                       answer: Option<Response>, recorded: nat -> bool, r: PublishAnswer)
    requires PublishOutcome(before, after, config.schemaName, Uploads(config, raw, derive), skipped, answer,
                            recorded, r)
    ensures r.Ok? ==> after == Do(before, Publish(config, raw, derive, r.value.total))
    ensures r.Err? && r.error.RecordFailed? ==> after == Do(before, Publish(config, raw, derive, r.error.at))
  {
    var uploads := Uploads(config, raw, derive);
    assert uploads[..|uploads|] == uploads;
  }

  lemma RecordAllSnoc(rows: Rows, schema: string, ps: seq<Uuid>, i: nat)
    requires i < |ps|
    ensures RecordAll(rows, schema, ps[..i + 1]) ==
            RecordAll(rows, schema, ps[..i])[UploadedKey(schema, ps[i]) := Marker]
  {
    assert ps[..i + 1][..i] == ps[..i];
  }

  lemma ListedKeysAreTheScan(rows: Rows, filter: Option<string>, out: Listing)
    requires Shows(rows, filter, out) && forall k :: !Undecodable(rows, filter, k)
    ensures rows - KeysOf(set u | u in out) == Do(rows, Clear(filter))
  {
    var us := set u | u in out;
    forall k | k in rows ensures ScanPrefix(filter) <= k <==> k in KeysOf(us) {
      ListedIff(rows, filter, out, k);
    }
  }

  lemma ListedIff(rows: Rows, filter: Option<string>, out: Listing, k: string)
    requires Shows(rows, filter, out) && k in rows && !Undecodable(rows, filter, k)
    ensures ScanPrefix(filter) <= k <==> k in KeysOf(set u | u in out)
  {
    if ScanPrefix(filter) <= k {
      EncodeAfterDecode(k);
      var u := DecodeKey(k).value;
      ScanReaches(filter, u);
      assert u in out;
    }
    if k in KeysOf(set u | u in out) {
      var u :| u in out && k == KeyOf(u);
      ScanReaches(filter, u);
    }
  }

  /** Writes `0`, `1`, ... are tried in order; the first to fail, if any of the `total`, is `n`. */
  ghost predicate StopsAt(succeeds: nat -> bool, total: nat, n: nat) {
    n <= total && (forall i: nat | i < n :: succeeds(i)) && (n < total ==> !succeeds(n))
  }

  /** What a clear may answer, and the store it leaves, when the listing gave `listed` and `n` deletes succeeded. */
  ghost predicate ClearOutcome(before: Rows, after: Rows, filter: Option<string>, listed: Option<Listing>,
                               deletes: nat -> bool, n: nat, ok: bool) {
    match listed
    case None => !ok && after == before
    case Some(out) =>
      && StopsAt(deletes, |out|, n) && (ok <==> n == |out|)
      && after == before - KeysOf(set u | u in out[..n])
      && (ok ==> after == Do(before, Clear(filter)))
  }

  /** A clear whose deletes all succeed clears; one that fails is the partial event that runs assume. */
  lemma ClearIsEvent(before: Rows, after: Rows, filter: Option<string>, listed: Option<Listing>, deletes: nat -> bool,
                     n: nat, ok: bool)
    requires Listed(before, filter, listed) && ClearOutcome(before, after, filter, listed, deletes, n, ok)
    ensures ok <==> listed.Some? && forall i: nat | i < |listed.value| :: deletes(i)
    ensures listed.Some? && !ok ==>
              var part := ClearPart(filter, set u | u in listed.value[..n]);
              Allowed(before, part) && after == Do(before, part)
  {
  }

  /** The store behind the discovery publisher. */
  class Tracker {
    var rows: Rows

    method RecordUploaded(schema: string, p: Uuid)
      modifies this
      ensures rows == Do(old(rows), Record(Upload(schema, p)))
    {
      rows := rows[UploadedKey(schema, p) := Marker];
    }

    /** The delete loop of `clear_uploaded`; `deletes(i)` says whether the i-th delete succeeds. */
    method DeleteListed(out: Listing, deletes: nat -> bool) returns (n: nat)
      modifies this
      ensures StopsAt(deletes, |out|, n) && rows == old(rows) - KeysOf(set u | u in out[..n])
    {
      ghost var removed: set<Upload> := {};
      for i := 0 to |out|
        invariant removed == set u | u in out[..i]
        invariant rows == old(rows) - KeysOf(removed)
        invariant forall j: nat | j < i :: deletes(j)
      {
        if !deletes(i) {
          return i;
        }
        assert out[..i + 1] == out[..i] + [out[i]];
        assert KeysOf(removed + {out[i]}) == KeysOf(removed) + {KeyOf(out[i])};
        rows := rows - {KeyOf(out[i])};
        removed := removed + {out[i]};
      }
      return |out|;
    }

    /**
     Deletes every listed key, which empties the scan. Succeeds exactly when the listing and every delete do; leaves
     the store alone when the listing fails, and deletes exactly the keys before a failing delete.
     */
    method ClearUploaded(filter: Option<string>, deletes: nat -> bool)
      returns (ok: bool, ghost listed: Option<Listing>, ghost n: nat)
      modifies this
      ensures Listed(old(rows), filter, listed) && ClearOutcome(old(rows), rows, filter, listed, deletes, n, ok)
    {
      var out := ListUploaded(rows, filter);
      if out.None? {
        return false, None, 0;
      }
      ListedKeysAreTheScan(rows, filter, out.value);
      var deleted := DeleteListed(out.value, deletes);
      assert out.value[..|out.value|] == out.value;
      return deleted == |out.value|, out, deleted;
    }

    method ReadRows(schema: string) returns (raw: seq<Row>)
      ensures EmbeddingRows(rows, schema, raw)
    {
      var keys := ScanKeys(rows, EmbeddingPrefix(schema));
      raw := RawOf(rows, keys);
    }

    /** The tracking loop of `publish_schema`. */
    method RecordUploads(schema: string, uploads: seq<Uuid>, recorded: nat -> bool) returns (n: nat)
      modifies this
      ensures StopsAt(recorded, |uploads|, n) && rows == RecordAll(old(rows), schema, uploads[..n])
    {
      for i := 0 to |uploads|
        invariant rows == RecordAll(old(rows), schema, uploads[..i])
        invariant forall j: nat | j < i :: recorded(j)
      {
        if !recorded(i) {
          return i;
        }
        RecordUploaded(schema, uploads[i]);
        RecordAllSnoc(old(rows), schema, uploads, i);
      }
      return |uploads|;
    }

    /**
     Uploads the publishable rows of the schema's scan and then records every uploaded pseudonym. `answer` is the
     service's response, None when the upload fails; `recorded(i)` says whether the i-th tracking write succeeds.
     */
    method PublishSchema(config: OptIn, disabled: seq<string>, derive: Derive, answer: Option<Response>,
                         recorded: nat -> bool)
      returns (r: PublishAnswer, ghost raw: seq<Row>)
      modifies this
      ensures EmbeddingRows(old(rows), config.schemaName, raw)
      ensures config.category in disabled ==> r == Ok(PublishResult(0, 0, 0, 0)) && rows == old(rows)
      ensures config.category !in disabled ==>
                PublishOutcome(old(rows), rows, config.schemaName, Uploads(config, raw, derive), Skips(config, raw),
                               answer, recorded, r)
    {
      var scanned := ReadRows(config.schemaName);
      raw := scanned;
      if config.category in disabled {
        return Ok(PublishResult(0, 0, 0, 0)), raw;
      }
      var uploads, skipped := BuildUploads(config, scanned, derive);
      assert uploads[..|uploads|] == uploads;
      if uploads == [] {
        return Ok(PublishResult(0, 0, 0, skipped)), raw;
      }
      if answer.None? {
        return Err(UploadFailed), raw;
      }
      var n := RecordUploads(config.schemaName, uploads, recorded);
      if n < |uploads| {
        return Err(RecordFailed(n)), raw;
      }
      return Ok(PublishResult(answer.value.accepted, answer.value.quarantined, |uploads|, skipped)), raw;
    }

    method DeriveSchemaPseudonyms(schema: string, derive: Derive) returns (ps: seq<Uuid>)
      ensures exists raw :: EmbeddingRows(rows, schema, raw) && ps == Derived(raw, derive)
    {
      var scanned := ReadRows(schema);
      ps := DeriveRows(scanned, derive);
    }
  }
}
