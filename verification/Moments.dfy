/**
 Shared photo moments (src/discovery/moments.rs): neighbourhood hashes, the capped
 deduplicating store, and detection. Time is in whole seconds; the calendar label of an hour,
 the geohash tables and the keyed hash are functions collected in a `Codec`.
 */
module Moments {
  import opened Wrappers

  datatype Digest = Digest(hex: string)

  /** An hour as "YYYY-MM-DDTHH". */
  datatype Bucket = Bucket(text: string)

  /** A precision-6 geohash. */
  datatype Cell = Cell(text: string)

  const MAX_SAVED_MOMENT_HASHES: nat := 100_000

  /**
   `bucket` renders the hour with that index; `geohash` encodes valid coordinates;
   `neighbors` lists the eight cells around a cell; `mac` is HMAC under the shared secret.
   */
  datatype Codec = Codec(
    bucket: int -> Bucket,
    geohash: (real, real) -> Option<Cell>,
    neighbors: Cell -> Option<seq<Cell>>,
    mac: string -> Digest
  )

  /** Different hours have different labels without a bar, and the keyed hash has no collisions. */
  ghost predicate Injective(c: Codec) {
    && (forall i, j :: c.bucket(i) == c.bucket(j) ==> i == j)
    && (forall i :: '|' !in c.bucket(i).text)
    && (forall s, t :: c.mac(s) == c.mac(t) ==> s == t)
  }

  datatype Photo = Photo(time: int, latitude: real, longitude: real, recordId: string)

  datatype MomentHash = MomentHash(hash: Digest, timeBucket: Bucket, geohash: Cell, timestamp: int, recordId: string)

  // ---- Hashes of one photo ----

  /** Rounds down to the hour, before the epoch too. */
  function HourOf(time: int): int {
    time / 3600
  }

  function AdjacentHours(time: int): seq<int> {
    [HourOf(time - 3600), HourOf(time), HourOf(time + 3600)]
  }

  function EncodeLocation(c: Codec, latitude: real, longitude: real): Option<Cell> {
    if !(-90.0 <= latitude <= 90.0) || !(-180.0 <= longitude <= 180.0) then None
    else c.geohash(latitude, longitude)
  }

  function CellOf(c: Codec, p: Photo): Option<Cell> {
    EncodeLocation(c, p.latitude, p.longitude)
  }

  function Neighborhood(c: Codec, cell: Cell): seq<Cell> {
    [cell] + match c.neighbors(cell) case None => [] case Some(ns) => ns
  }

  /** The text that is hashed, and that detection deduplicates by. */
  function DedupKey(bucket: Bucket, cell: Cell): string {
    bucket.text + "|" + cell.text
  }

  function ComputeMomentHash(c: Codec, hour: int, cell: Cell): Digest {
    c.mac(DedupKey(c.bucket(hour), cell))
  }

  function HashAt(c: Codec, p: Photo, primary: Cell, hour: int, cell: Cell): MomentHash {
    MomentHash(ComputeMomentHash(c, hour, cell), c.bucket(HourOf(p.time)), primary, p.time, p.recordId)
  }

  /** All hashes of `p` over the first `n` cells of `cells` for one hour. */
  function HashesForHour(c: Codec, p: Photo, primary: Cell, hour: int, cells: seq<Cell>): seq<MomentHash> {
    if cells == [] then []
    else HashesForHour(c, p, primary, hour, cells[..|cells| - 1]) + [HashAt(c, p, primary, hour, cells[|cells| - 1])]
  }

  function HashesForHours(c: Codec, p: Photo, primary: Cell, hours: seq<int>, cells: seq<Cell>): seq<MomentHash> {
    if hours == [] then []
    else HashesForHours(c, p, primary, hours[..|hours| - 1], cells)
         + HashesForHour(c, p, primary, hours[|hours| - 1], cells)
  }

  function HashesOf(c: Codec, p: Photo): seq<MomentHash> {
    match CellOf(c, p)
    case None => []
    case Some(cell) => HashesForHours(c, p, cell, AdjacentHours(p.time), Neighborhood(c, cell))
  }

  method HashHour(c: Codec, p: Photo, primary: Cell, hour: int, cells: seq<Cell>) returns (hashes: seq<MomentHash>)
    ensures hashes == HashesForHour(c, p, primary, hour, cells)
  {
    hashes := [];
    for j := 0 to |cells|
      invariant hashes == HashesForHour(c, p, primary, hour, cells[..j])
    {
      assert cells[..j + 1][..j] == cells[..j];
      hashes := hashes + [HashAt(c, p, primary, hour, cells[j])];
    }
    assert cells[..|cells|] == cells;
  }

  method GenerateMomentHashes(c: Codec, p: Photo) returns (hashes: seq<MomentHash>)
    ensures hashes == HashesOf(c, p)
  {
    var location := EncodeLocation(c, p.latitude, p.longitude);
    if location.None? {
      return [];
    }
    var hours, cells := AdjacentHours(p.time), Neighborhood(c, location.value);
    hashes := [];
    for i := 0 to |hours|
      invariant hashes == HashesForHours(c, p, location.value, hours[..i], cells)
    {
      assert hours[..i + 1][..i] == hours[..i];
      var row := HashHour(c, p, location.value, hours[i], cells);
      hashes := hashes + row;
    }
    assert hours[..|hours|] == hours;
  }

  /** An hour runs from its first second to the next hour, before the epoch too. */
  lemma HourIsFloor(time: int)
    ensures HourOf(time) * 3600 <= time < (HourOf(time) + 1) * 3600
  {
  }

  /** A photo is located exactly when its coordinates are valid and can be encoded. */
  lemma LocatedIff(c: Codec, p: Photo, cell: Cell)
    ensures CellOf(c, p) == Some(cell) <==>
            && -90.0 <= p.latitude <= 90.0 && -180.0 <= p.longitude <= 180.0
            && c.geohash(p.latitude, p.longitude) == Some(cell)
  {
  }

  /** The hash of the text "hour|cell", labelled with the photo's own hour and cell. */
  function HashFor(c: Codec, p: Photo, primary: Cell, hour: int, cell: Cell): MomentHash {
    MomentHash(c.mac(c.bucket(hour).text + "|" + cell.text), c.bucket(HourOf(p.time)), primary, p.time, p.recordId)
  }

  lemma HashAtMeans(c: Codec, p: Photo, primary: Cell, hour: int, cell: Cell)
    ensures HashAt(c, p, primary, hour, cell) == HashFor(c, p, primary, hour, cell)
  {
  }

  ghost predicate HashOfHour(c: Codec, p: Photo, primary: Cell, hour: int, cells: seq<Cell>, h: MomentHash) {
    exists x :: x in cells && h == HashFor(c, p, primary, hour, x)
  }

  lemma HashOfHourSnoc(c: Codec, p: Photo, primary: Cell, hour: int, cells: seq<Cell>, x: Cell, h: MomentHash)
    ensures HashOfHour(c, p, primary, hour, cells + [x], h) <==>
            HashOfHour(c, p, primary, hour, cells, h) || h == HashFor(c, p, primary, hour, x)
  {
    assert x in cells + [x] && forall y :: y in cells + [x] <==> y in cells || y == x;
  }

  lemma {:induction false} HourMeans(c: Codec, p: Photo, primary: Cell, hour: int, cells: seq<Cell>, h: MomentHash)
    ensures h in HashesForHour(c, p, primary, hour, cells) <==> HashOfHour(c, p, primary, hour, cells, h)
    ensures |HashesForHour(c, p, primary, hour, cells)| == |cells|
  {
    if cells != [] {
      var before, last := cells[..|cells| - 1], cells[|cells| - 1];
      HourMeans(c, p, primary, hour, before, h);
      HashOfHourSnoc(c, p, primary, hour, before, last, h);
      HashAtMeans(c, p, primary, hour, last);
      assert cells == before + [last];
    }
  }

  ghost predicate HashOfHours(c: Codec, p: Photo, primary: Cell, hours: seq<int>, cells: seq<Cell>, h: MomentHash) {
    exists hour :: hour in hours && HashOfHour(c, p, primary, hour, cells, h)
  }

  lemma HashOfHoursSnoc(c: Codec, p: Photo, primary: Cell, hours: seq<int>, x: int, cells: seq<Cell>, h: MomentHash)
    ensures HashOfHours(c, p, primary, hours + [x], cells, h) <==>
            HashOfHours(c, p, primary, hours, cells, h) || HashOfHour(c, p, primary, x, cells, h)
  {
    assert x in hours + [x] && forall y :: y in hours + [x] <==> y in hours || y == x;
  }

  lemma {:induction false} HoursMean(c: Codec, p: Photo, primary: Cell, hours: seq<int>, cells: seq<Cell>,
                                     h: MomentHash)
    ensures h in HashesForHours(c, p, primary, hours, cells) <==> HashOfHours(c, p, primary, hours, cells, h)
  {
    if hours != [] {
      var before, last := hours[..|hours| - 1], hours[|hours| - 1];
      HoursMean(c, p, primary, before, cells, h);
      HourMeans(c, p, primary, last, cells, h);
      HashOfHoursSnoc(c, p, primary, before, last, cells, h);
      assert hours == before + [last];
    }
  }

  /** The cell itself or one of its neighbours. */
  ghost predicate IsNear(c: Codec, cell: Cell, x: Cell) {
    x == cell || (c.neighbors(cell).Some? && x in c.neighbors(cell).value)
  }

  /** The hashes of a located photo: its hour, the one before and the one after, by its cell and the cells around. */
  lemma HashesMean(c: Codec, p: Photo, h: MomentHash)
    ensures CellOf(c, p).None? ==> HashesOf(c, p) == []
    ensures CellOf(c, p).Some? ==>
              var cell, now := CellOf(c, p).value, HourOf(p.time);
              h in HashesOf(c, p) <==>
                exists hour, x :: now - 1 <= hour <= now + 1 && IsNear(c, cell, x) && h == HashFor(c, p, cell, hour, x)
  {
    if CellOf(c, p).Some? {
      var cell, hours := CellOf(c, p).value, AdjacentHours(p.time);
      HoursMean(c, p, cell, hours, Neighborhood(c, cell), h);
      NearHours(p.time);
      NearCells(c, cell);
      HashOfHoursMeans(c, p, cell, hours, Neighborhood(c, cell), HourOf(p.time), h);
    }
  }

  lemma NearHours(time: int)
    ensures forall hour :: hour in AdjacentHours(time) <==> HourOf(time) - 1 <= hour <= HourOf(time) + 1
  {
    assert AdjacentHours(time) == [HourOf(time) - 1, HourOf(time), HourOf(time) + 1];
  }

  lemma NearCells(c: Codec, cell: Cell)
    ensures forall x :: x in Neighborhood(c, cell) <==> IsNear(c, cell, x)
  {
  }

  lemma HashOfHoursMeans(c: Codec, p: Photo, cell: Cell, hours: seq<int>, cells: seq<Cell>, now: int, h: MomentHash)
    requires forall hour :: hour in hours <==> now - 1 <= hour <= now + 1
    requires forall x :: x in cells <==> IsNear(c, cell, x)
    ensures HashOfHours(c, p, cell, hours, cells, h) <==>
            exists hour, x :: now - 1 <= hour <= now + 1 && IsNear(c, cell, x) && h == HashFor(c, p, cell, hour, x)
  {
    if HashOfHours(c, p, cell, hours, cells, h) {
      var hour :| hour in hours && HashOfHour(c, p, cell, hour, cells, h);
      var x :| x in cells && h == HashFor(c, p, cell, hour, x);
      assert now - 1 <= hour <= now + 1 && IsNear(c, cell, x);
    }
    if hour, x :| now - 1 <= hour <= now + 1 && IsNear(c, cell, x) && h == HashFor(c, p, cell, hour, x) {
      assert hour in hours && HashOfHour(c, p, cell, hour, cells, h);
    }
  }

  lemma {:induction false} HoursCount(c: Codec, p: Photo, primary: Cell, hours: seq<int>, cells: seq<Cell>)
    ensures |HashesForHours(c, p, primary, hours, cells)| == |hours| * |cells|
  {
    if hours != [] {
      var n := |hours| - 1;
      HoursCount(c, p, primary, hours[..n], cells);
      HourMeans(c, p, primary, hours[n], cells, HashFor(c, p, primary, 0, primary));
      OneMore(n, |cells|);
    }
  }

  lemma OneMore(n: nat, m: nat)
    ensures (n + 1) * m == n * m + m
  {
  }

  /** With eight cells around, a located photo has 27 hashes. */
  lemma HashesCount(c: Codec, p: Photo)
    requires CellOf(c, p).Some? && c.neighbors(CellOf(c, p).value).Some?
    ensures |HashesOf(c, p)| == 3 * (1 + |c.neighbors(CellOf(c, p).value).value|)
  {
    var cell := CellOf(c, p).value;
    HoursCount(c, p, cell, AdjacentHours(p.time), Neighborhood(c, cell));
  }

  /** The digests in a list. */
  ghost function Digests(hs: seq<MomentHash>): set<Digest> {
    set h | h in hs :: h.hash
  }

  lemma DigestsAppend(xs: seq<MomentHash>, ys: seq<MomentHash>)
    ensures Digests(xs + ys) == Digests(xs) + Digests(ys)
  {
    forall d | d in Digests(xs) + Digests(ys) ensures d in Digests(xs + ys) {
      if h :| h in xs && h.hash == d {
        assert h in xs + ys;
      } else {
        var h :| h in ys && h.hash == d;
        assert h in xs + ys;
      }
    }
  }

  ghost predicate DigestAt(c: Codec, hour: int, cells: seq<Cell>, d: Digest) {
    exists cell :: cell in cells && d == ComputeMomentHash(c, hour, cell)
  }

  lemma {:induction false} HourDigests(c: Codec, p: Photo, primary: Cell, hour: int, cells: seq<Cell>, d: Digest)
    ensures d in Digests(HashesForHour(c, p, primary, hour, cells)) <==> DigestAt(c, hour, cells, d)
  {
    if cells != [] {
      var n := |cells| - 1;
      HourDigests(c, p, primary, hour, cells[..n], d);
      DigestsAppend(HashesForHour(c, p, primary, hour, cells[..n]), [HashAt(c, p, primary, hour, cells[n])]);
      assert cells == cells[..n] + [cells[n]];
      assert HashAt(c, p, primary, hour, cells[n]) in [HashAt(c, p, primary, hour, cells[n])];
    }
  }

  ghost predicate DigestFrom(c: Codec, hours: seq<int>, cells: seq<Cell>, d: Digest) {
    exists hour :: hour in hours && DigestAt(c, hour, cells, d)
  }

  lemma DigestFromSnoc(c: Codec, hours: seq<int>, n: nat, cells: seq<Cell>, d: Digest)
    requires |hours| == n + 1
    ensures DigestFrom(c, hours, cells, d) <==> DigestFrom(c, hours[..n], cells, d) || DigestAt(c, hours[n], cells, d)
  {
    assert hours == hours[..n] + [hours[n]];
  }

  lemma {:induction false} HoursDigests(c: Codec, p: Photo, primary: Cell, hours: seq<int>, cells: seq<Cell>, d: Digest)
    ensures d in Digests(HashesForHours(c, p, primary, hours, cells)) <==> DigestFrom(c, hours, cells, d)
  {
    if hours != [] {
      var n := |hours| - 1;
      HoursDigests(c, p, primary, hours[..n], cells, d);
      HourDigests(c, p, primary, hours[n], cells, d);
      DigestsAppend(HashesForHours(c, p, primary, hours[..n], cells), HashesForHour(c, p, primary, hours[n], cells));
      DigestFromSnoc(c, hours, n, cells, d);
    }
  }

  function UpToBar(s: string): string {
    if s == "" || s[0] == '|' then "" else [s[0]] + UpToBar(s[1..])
  }

  lemma {:induction false} UpToBarStops(a: string, x: string)
    requires '|' !in a
    ensures UpToBar(a + "|" + x) == a
  {
    if a != "" {
      assert (a + "|" + x)[1..] == a[1..] + "|" + x;
      UpToBarStops(a[1..], x);
    }
  }

  /** A bucket has no bar, so the key determines its two parts. */
  lemma DedupKeyIsInjective(a: Bucket, x: Cell, b: Bucket, y: Cell)
    requires '|' !in a.text && '|' !in b.text && DedupKey(a, x) == DedupKey(b, y)
    ensures a == b && x == y
  {
    UpToBarStops(a.text, x.text);
    UpToBarStops(b.text, y.text);
    var s := DedupKey(a, x);
    assert s[|a.text| + 1..] == x.text && s[|b.text| + 1..] == y.text;
  }

  lemma MomentHashIsInjective(c: Codec, hour: int, cell: Cell, hour': int, cell': Cell)
    requires Injective(c) && ComputeMomentHash(c, hour, cell) == ComputeMomentHash(c, hour', cell')
    ensures hour == hour' && cell == cell'
  {
    DedupKeyIsInjective(c.bucket(hour), cell, c.bucket(hour'), cell');
  }

  ghost predicate ShareHash(c: Codec, p: Photo, q: Photo) {
    exists d :: d in Digests(HashesOf(c, p)) && d in Digests(HashesOf(c, q))
  }

  ghost predicate CellsMeet(c: Codec, cell: Cell, cell': Cell) {
    exists x :: x in Neighborhood(c, cell) && x in Neighborhood(c, cell')
  }

  lemma HoursMeet(t: int, t': int)
    ensures HoursAreMet(t, t') <==> -2 <= HourOf(t) - HourOf(t') <= 2
  {
    var a, b := HourOf(t), HourOf(t');
    assert AdjacentHours(t) == [a - 1, a, a + 1] && AdjacentHours(t') == [b - 1, b, b + 1];
    if -2 <= a - b <= 2 {
      var h := if a > b then a - 1 else if a < b then a + 1 else a;
      assert h in AdjacentHours(t) && h in AdjacentHours(t');
    }
  }

  lemma DigestsOfPhoto(c: Codec, p: Photo, d: Digest)
    requires CellOf(c, p).Some?
    ensures d in Digests(HashesOf(c, p)) <==>
            DigestFrom(c, AdjacentHours(p.time), Neighborhood(c, CellOf(c, p).value), d)
  {
    HoursDigests(c, p, CellOf(c, p).value, AdjacentHours(p.time), Neighborhood(c, CellOf(c, p).value), d);
  }

  ghost predicate HoursAreMet(t: int, t': int) {
    exists h :: h in AdjacentHours(t) && h in AdjacentHours(t')
  }

  lemma SharedDigestMeets(c: Codec, hp: seq<int>, np: seq<Cell>, hq: seq<int>, nq: seq<Cell>, d: Digest)
    requires Injective(c) && DigestFrom(c, hp, np, d) && DigestFrom(c, hq, nq, d)
    ensures (exists h :: h in hp && h in hq) && (exists x :: x in np && x in nq)
  {
    var h :| h in hp && DigestAt(c, h, np, d);
    var cell :| cell in np && d == ComputeMomentHash(c, h, cell);
    var h' :| h' in hq && DigestAt(c, h', nq, d);
    var cell' :| cell' in nq && d == ComputeMomentHash(c, h', cell');
    MomentHashIsInjective(c, h, cell, h', cell');
  }

  /** Located photos share a hash exactly when their hours are at most 2 apart and their neighbourhoods intersect. */
  lemma ShareHashIff(c: Codec, p: Photo, q: Photo)
    requires Injective(c) && CellOf(c, p).Some? && CellOf(c, q).Some?
    ensures ShareHash(c, p, q) <==>
            -2 <= HourOf(p.time) - HourOf(q.time) <= 2 && CellsMeet(c, CellOf(c, p).value, CellOf(c, q).value)
  {
    var np, nq := Neighborhood(c, CellOf(c, p).value), Neighborhood(c, CellOf(c, q).value);
    HoursMeet(p.time, q.time);
    if ShareHash(c, p, q) {
      var d :| d in Digests(HashesOf(c, p)) && d in Digests(HashesOf(c, q));
      DigestsOfPhoto(c, p, d);
      DigestsOfPhoto(c, q, d);
      SharedDigestMeets(c, AdjacentHours(p.time), np, AdjacentHours(q.time), nq, d);
    }
    if HoursAreMet(p.time, q.time) && CellsMeet(c, CellOf(c, p).value, CellOf(c, q).value) {
      var h :| h in AdjacentHours(p.time) && h in AdjacentHours(q.time);
      var cell :| cell in np && cell in nq;
      var d := ComputeMomentHash(c, h, cell);
      assert DigestAt(c, h, np, d) && DigestAt(c, h, nq, d);
      DigestsOfPhoto(c, p, d);
      DigestsOfPhoto(c, q, d);
    }
  }

  /** At most an hour apart in the same or a neighbouring cell: always a match. Three hours apart: never. */
  lemma NearPhotosMatchFarOnesDoNot(c: Codec, p: Photo, q: Photo)
    requires Injective(c) && CellOf(c, p).Some? && CellOf(c, q).Some?
    ensures -3600 <= p.time - q.time <= 3600 && CellOf(c, q).value in Neighborhood(c, CellOf(c, p).value)
            ==> ShareHash(c, p, q)
    ensures p.time - q.time >= 3 * 3600 || q.time - p.time >= 3 * 3600 ==> !ShareHash(c, p, q)
  {
    ShareHashIff(c, p, q);
    var y := CellOf(c, q).value;
    assert y in Neighborhood(c, y);
  }

  // ---- The saved list ----

  predicate HasDigest(hs: seq<MomentHash>, d: Digest) {
    exists h :: h in hs && h.hash == d
  }

  /** Keeps the first entry of each digest. */
  function FirstSeen(hs: seq<MomentHash>): seq<MomentHash> {
    if hs == [] then [] else
      var kept, h := FirstSeen(hs[..|hs| - 1]), hs[|hs| - 1];
      if HasDigest(kept, h.hash) then kept else kept + [h]
  }

  /** Evicts from the front. */
  function Capped(hs: seq<MomentHash>): seq<MomentHash> {
    if |hs| > MAX_SAVED_MOMENT_HASHES then hs[|hs| - MAX_SAVED_MOMENT_HASHES..] else hs
  }

  function Saved(existing: seq<MomentHash>, batch: seq<MomentHash>): seq<MomentHash> {
    Capped(FirstSeen(existing + batch))
  }

  ghost predicate Distinct(hs: seq<MomentHash>) {
    forall i, j | 0 <= i < j < |hs| :: hs[i].hash != hs[j].hash
  }

  lemma HasDigestIff(hs: seq<MomentHash>, d: Digest)
    ensures HasDigest(hs, d) <==> d in Digests(hs)
  {
  }

  lemma {:induction false} FirstSeenKeepsDigests(hs: seq<MomentHash>)
    ensures Distinct(FirstSeen(hs)) && Digests(FirstSeen(hs)) == Digests(hs) && |FirstSeen(hs)| <= |hs|
  {
    if hs != [] {
      var n := |hs| - 1;
      var kept, h := FirstSeen(hs[..n]), hs[n];
      FirstSeenKeepsDigests(hs[..n]);
      assert hs == hs[..n] + [h];
      DigestsAppend(hs[..n], [h]);
      assert Digests([h]) == {h.hash} by { assert h in [h]; }
      HasDigestIff(kept, h.hash);
      if !HasDigest(kept, h.hash) {
        DigestsAppend(kept, [h]);
        forall i | 0 <= i < |kept| ensures kept[i].hash != h.hash {
          assert kept[i] in kept;
        }
      }
    }
  }

  lemma {:induction false} FirstSeenOfDistinct(hs: seq<MomentHash>)
    requires Distinct(hs)
    ensures FirstSeen(hs) == hs
  {
    if hs != [] {
      var n := |hs| - 1;
      FirstSeenOfDistinct(hs[..n]);
      forall h | h in hs[..n] ensures h.hash != hs[n].hash {
        var i :| 0 <= i < n && hs[..n][i] == h;
      }
      assert hs == hs[..n] + [hs[n]];
    }
  }

  /** Later entries only append to what earlier ones left. */
  lemma {:induction false} FirstSeenExtends(xs: seq<MomentHash>, ys: seq<MomentHash>)
    ensures FirstSeen(xs) <= FirstSeen(xs + ys)
    ensures |FirstSeen(xs + ys)| <= |FirstSeen(xs)| + |ys|
  {
    if ys == [] {
      assert xs + ys == xs;
    } else {
      var n := |ys| - 1;
      FirstSeenExtends(xs, ys[..n]);
      assert (xs + ys)[..|xs| + n] == xs + ys[..n];
    }
  }

  lemma SnocOf(xs: seq<MomentHash>, ys: seq<MomentHash>)
    requires ys != []
    ensures var all := xs + ys; all[..|all| - 1] == xs + ys[..|ys| - 1] && all[|all| - 1] == ys[|ys| - 1]
  {
  }

  /** First-seen reduction may be done in stages. */
  lemma {:induction false} FirstSeenInStages(xs: seq<MomentHash>, ys: seq<MomentHash>)
    ensures FirstSeen(FirstSeen(xs) + ys) == FirstSeen(xs + ys)
  {
    if ys == [] {
      assert FirstSeen(xs) + ys == FirstSeen(xs) && xs + ys == xs;
      FirstSeenKeepsDigests(xs);
      FirstSeenOfDistinct(FirstSeen(xs));
    } else {
      var n := |ys| - 1;
      var kept := FirstSeen(xs);
      FirstSeenInStages(xs, ys[..n]);
      SnocOf(xs, ys);
      SnocOf(kept, ys);
    }
  }

  method SaveMomentHashes(existing: seq<MomentHash>, batch: seq<MomentHash>) returns (merged: seq<MomentHash>)
    ensures merged == Saved(existing, batch)
  {
    var all := existing + batch;
    var seen: set<Digest> := {};
    merged := [];
    for i := 0 to |all|
      invariant merged == FirstSeen(all[..i])
      invariant seen == Digests(merged)
    {
      var h := all[i];
      assert all[..i + 1][..i] == all[..i];
      HasDigestIff(merged, h.hash);
      if h.hash !in seen {
        DigestsAppend(merged, [h]);
        assert h in [h];
        seen := seen + {h.hash};
        merged := merged + [h];
      }
    }
    assert all[..|all|] == all;
    if |merged| > MAX_SAVED_MOMENT_HASHES {
      var overflow := |merged| - MAX_SAVED_MOMENT_HASHES;
      merged := merged[overflow..];
    }
  }

  lemma CapKeepsSuffix(hs: seq<MomentHash>)
    requires Distinct(hs)
    ensures var saved := Capped(hs);
            && Distinct(saved) && |saved| <= 100_000
            && |saved| <= |hs| && saved == hs[|hs| - |saved|..]
            && (|hs| <= 100_000 ==> saved == hs)
  {
  }

  /**
   One save on a clean list: the result is clean, within the cap, and a suffix of the old list followed by
   the batch's new digests in first-seen order.
   */
  lemma SaveIsCappedAppend(existing: seq<MomentHash>, batch: seq<MomentHash>)
    requires Distinct(existing)
    ensures var merged, saved := FirstSeen(existing + batch), Saved(existing, batch);
            && Distinct(saved) && |saved| <= 100_000
            && existing <= merged && |saved| <= |merged| && saved == merged[|merged| - |saved|..]
            && Digests(merged) == Digests(existing) + Digests(batch)
            && (|merged| <= 100_000 ==> saved == merged)
  {
    FirstSeenKeepsDigests(existing + batch);
    FirstSeenOfDistinct(existing);
    FirstSeenExtends(existing, batch);
    DigestsAppend(existing, batch);
    CapKeepsSuffix(FirstSeen(existing + batch));
  }

  lemma PositionOf(hs: seq<MomentHash>, d: Digest) returns (i: nat)
    requires d in Digests(hs)
    ensures i < |hs| && hs[i].hash == d
  {
    var h :| h in hs && h.hash == d;
    i :| 0 <= i < |hs| && hs[i] == h;
  }

  lemma MemberDigest(hs: seq<MomentHash>, i: nat)
    requires i < |hs|
    ensures hs[i].hash in Digests(hs)
  {
    assert hs[i] in hs;
  }

  // ---- Which hashes survive a save ----

  /** How many digests the batch introduces. */
  ghost function Fresh(existing: seq<MomentHash>, batch: seq<MomentHash>): nat {
    |Digests(batch) - Digests(existing)|
  }

  lemma {:induction false} DistinctSize(hs: seq<MomentHash>)
    requires Distinct(hs)
    ensures |Digests(hs)| == |hs|
  {
    if hs != [] {
      var n := |hs| - 1;
      DistinctSize(hs[..n]);
      assert hs == hs[..n] + [hs[n]];
      DigestsAppend(hs[..n], [hs[n]]);
      assert Digests([hs[n]]) == {hs[n].hash} by { assert hs[n] in [hs[n]]; }
      assert hs[n].hash !in Digests(hs[..n]);
    }
  }

  lemma MergedSize(existing: seq<MomentHash>, batch: seq<MomentHash>)
    requires Distinct(existing)
    ensures |FirstSeen(existing + batch)| == |existing| + Fresh(existing, batch)
  {
    FirstSeenKeepsDigests(existing + batch);
    DigestsAppend(existing, batch);
    DistinctSize(existing);
    DistinctSize(FirstSeen(existing + batch));
    var a, b := Digests(existing), Digests(batch);
    assert a + b == a + (b - a) && a !! (b - a);
  }

  /** An entry of a clean list is evicted exactly when more than the cap's worth of entries start at it. */
  lemma SurvivesCapIff(merged: seq<MomentHash>, k: nat)
    requires Distinct(merged) && k < |merged|
    ensures merged[k].hash in Digests(Capped(merged)) <==> |merged| <= k + 100_000
  {
    var saved := Capped(merged);
    var n := |merged| - |saved|;
    if n <= k {
      assert saved[k - n] == merged[k];
      MemberDigest(saved, k - n);
    } else {
      forall i | 0 <= i < |saved| ensures saved[i].hash != merged[k].hash {
        assert saved[i] == merged[i + n];
      }
    }
  }

  /** A stored digest survives a save exactly when its position is past the overflow, repeated or not. */
  lemma StoredHashSurvivesIff(existing: seq<MomentHash>, batch: seq<MomentHash>, i: nat)
    requires Distinct(existing) && i < |existing|
    ensures existing[i].hash in Digests(Saved(existing, batch)) <==>
            |existing| + Fresh(existing, batch) <= i + 100_000
  {
    var merged := FirstSeen(existing + batch);
    SaveIsCappedAppend(existing, batch);
    FirstSeenKeepsDigests(existing + batch);
    MergedSize(existing, batch);
    assert merged[i] == existing[i];
    SurvivesCapIff(merged, i);
  }

  /** Where a digest that the batch introduces is put. */
  lemma NewHashPosition(existing: seq<MomentHash>, batch: seq<MomentHash>, j: nat)
    requires Distinct(existing) && j < |batch|
    requires batch[j].hash !in Digests(existing) && batch[j].hash !in Digests(batch[..j])
    ensures var merged, k := FirstSeen(existing + batch), |existing| + Fresh(existing, batch[..j]);
            k < |merged| && merged[k] == batch[j]
  {
    var before, h, after := existing + batch[..j], batch[j], batch[j + 1..];
    assert h.hash !in Digests(before) by { DigestsAppend(existing, batch[..j]); }
    assert |FirstSeen(before)| == |existing| + Fresh(existing, batch[..j]) by { MergedSize(existing, batch[..j]); }
    assert existing + batch == before + [h] + after by { SplitBatch(existing, batch, j); }
    PositionInMerged(before, h, after);
  }

  lemma SplitBatch(existing: seq<MomentHash>, batch: seq<MomentHash>, j: nat)
    requires j < |batch|
    ensures existing + batch == (existing + batch[..j]) + [batch[j]] + batch[j + 1..]
  {
    assert batch == batch[..j] + [batch[j]] + batch[j + 1..];
  }

  lemma PositionInMerged(before: seq<MomentHash>, h: MomentHash, after: seq<MomentHash>)
    requires h.hash !in Digests(before)
    ensures var merged, k := FirstSeen(before + [h] + after), |FirstSeen(before)|; k < |merged| && merged[k] == h
  {
    FirstSeenSnoc(before, h);
    FirstSeenExtends(before + [h], after);
  }

  lemma FirstSeenSnoc(hs: seq<MomentHash>, h: MomentHash)
    requires h.hash !in Digests(hs)
    ensures FirstSeen(hs + [h]) == FirstSeen(hs) + [h]
  {
    FirstSeenKeepsDigests(hs);
    HasDigestIff(FirstSeen(hs), h.hash);
    assert (hs + [h])[..|hs|] == hs;
  }

  /** A digest that the batch introduces survives exactly when it and the new ones after it fit the cap. */
  lemma NewHashSurvivesIff(existing: seq<MomentHash>, batch: seq<MomentHash>, j: nat)
    requires Distinct(existing) && j < |batch|
    requires batch[j].hash !in Digests(existing) && batch[j].hash !in Digests(batch[..j])
    ensures batch[j].hash in Digests(Saved(existing, batch)) <==>
            Fresh(existing, batch) <= Fresh(existing, batch[..j]) + 100_000
  {
    NewHashPosition(existing, batch, j);
    FirstSeenKeepsDigests(existing + batch);
    MergedSize(existing, batch);
    SurvivesCapIff(FirstSeen(existing + batch), |existing| + Fresh(existing, batch[..j]));
  }

  lemma {:induction false} FirstPosition(hs: seq<MomentHash>, d: Digest) returns (j: nat)
    requires d in Digests(hs)
    ensures j < |hs| && hs[j].hash == d && d !in Digests(hs[..j])
  {
    j := PositionOf(hs, d);
    if d in Digests(hs[..j]) {
      var shorter := hs[..j];
      j := FirstPosition(shorter, d);
      assert shorter[..j] == hs[..j];
    }
  }

  /** If the batch fits the cap, no digest that it introduces is evicted by its own save. */
  lemma NewHashesSurvive(existing: seq<MomentHash>, batch: seq<MomentHash>, d: Digest)
    requires Distinct(existing) && |batch| <= 100_000
    requires d in Digests(batch) && d !in Digests(existing)
    ensures d in Digests(Saved(existing, batch))
  {
    var j := FirstPosition(batch, d);
    MergedSize(existing, batch);
    FirstSeenOfDistinct(existing);
    FirstSeenExtends(existing, batch);
    NewHashSurvivesIff(existing, batch, j);
  }

  /** A digest that was already stored may be evicted by the very save that repeats it. */
  lemma RepeatedHashMayBeEvicted(existing: seq<MomentHash>, novel: MomentHash)
    requires Distinct(existing) && |existing| == 100_000 && novel.hash !in Digests(existing)
    ensures existing[0].hash !in Digests(Saved(existing, [existing[0], novel]))
  {
    var batch := [existing[0], novel];
    assert batch[1] in batch && existing[0] in existing;
    assert novel.hash in Digests(batch) - Digests(existing);
    StoredHashSurvivesIff(existing, batch, 0);
  }

  function SaveAll(batches: seq<seq<MomentHash>>): seq<MomentHash> {
    if batches == [] then [] else Saved(SaveAll(batches[..|batches| - 1]), batches[|batches| - 1])
  }

  function Concat(batches: seq<seq<MomentHash>>): seq<MomentHash> {
    if batches == [] then [] else Concat(batches[..|batches| - 1]) + batches[|batches| - 1]
  }

  /** Over any sequence of saves the list is clean and capped; while the cap is never exceeded it lists every digest. */
  lemma {:induction false} SavesOverAnyRun(batches: seq<seq<MomentHash>>)
    ensures Distinct(SaveAll(batches)) && |SaveAll(batches)| <= 100_000
    ensures |FirstSeen(Concat(batches))| <= 100_000 ==> SaveAll(batches) == FirstSeen(Concat(batches))
  {
    if batches != [] {
      var before, batch := batches[..|batches| - 1], batches[|batches| - 1];
      SavesOverAnyRun(before);
      SaveIsCappedAppend(SaveAll(before), batch);
      FirstSeenExtends(Concat(before), batch);
      FirstSeenInStages(Concat(before), batch);
    }
  }

  // ---- Detection ----

  datatype SharedMoment =
    SharedMoment(momentId: string, timeBucket: Bucket, geohash: Cell, recordId: string, timestamp: int)

  function FindHashOverlaps(ours: seq<MomentHash>, peer: set<Digest>): seq<MomentHash> {
    if ours == [] then [] else
      FindHashOverlaps(ours[..|ours| - 1], peer) + (if ours[|ours| - 1].hash in peer then [ours[|ours| - 1]] else [])
  }

  lemma {:induction false} OverlapsAreTheSharedOnes(ours: seq<MomentHash>, peer: set<Digest>, h: MomentHash)
    ensures h in FindHashOverlaps(ours, peer) <==> h in ours && h.hash in peer
  {
    if ours != [] {
      OverlapsAreTheSharedOnes(ours[..|ours| - 1], peer, h);
      assert ours == ours[..|ours| - 1] + [ours[|ours| - 1]];
    }
  }

  /** The overlaps come in the order of our list. */
  lemma OverlapsSnoc(ours: seq<MomentHash>, h: MomentHash, peer: set<Digest>)
    ensures FindHashOverlaps(ours + [h], peer) == FindHashOverlaps(ours, peer) + (if h.hash in peer then [h] else [])
  {
    assert (ours + [h])[..|ours|] == ours;
  }

  function KeyOf(h: MomentHash): string {
    DedupKey(h.timeBucket, h.geohash)
  }

  ghost function Keys(hs: seq<MomentHash>): set<string> {
    set h | h in hs :: KeyOf(h)
  }

  /** The first match for each (bucket, cell) key. */
  ghost function Representatives(matches: seq<MomentHash>): seq<MomentHash> {
    if matches == [] then [] else
      var kept, h := Representatives(matches[..|matches| - 1]), matches[|matches| - 1];
      if KeyOf(h) in Keys(kept) then kept else kept + [h]
  }

  ghost predicate DistinctKeys(hs: seq<MomentHash>) {
    forall i, j | 0 <= i < j < |hs| :: KeyOf(hs[i]) != KeyOf(hs[j])
  }

  lemma KeysSnoc(hs: seq<MomentHash>, h: MomentHash)
    ensures Keys(hs + [h]) == Keys(hs) + {KeyOf(h)}
  {
    assert h in hs + [h];
    assert forall x :: x in hs + [h] <==> x in hs || x == h;
  }

  /** One representative for each key among the matches, each of them a match. */
  lemma {:induction false} RepresentativesAreExact(matches: seq<MomentHash>)
    ensures var rs := Representatives(matches);
            Keys(rs) == Keys(matches) && DistinctKeys(rs) && forall h | h in rs :: h in matches
  {
    if matches != [] {
      var before, h := matches[..|matches| - 1], matches[|matches| - 1];
      RepresentativesAreExact(before);
      KeysSnoc(before, h);
      assert matches == before + [h];
      var kept := Representatives(before);
      KeysSnoc(kept, h);
      if KeyOf(h) !in Keys(kept) {
        forall i | 0 <= i < |kept| ensures KeyOf(kept[i]) != KeyOf(h) {
          assert kept[i] in kept;
        }
      }
    }
  }

  function MomentOf(id: string, h: MomentHash): SharedMoment {
    SharedMoment(id, h.timeBucket, h.geohash, h.recordId, h.timestamp)
  }

  /** The moments of the representatives, the i-th under the fresh id `newId(i)`. */
  function MomentsOf(hs: seq<MomentHash>, newId: nat -> string): (r: seq<SharedMoment>)
    ensures |r| == |hs|
  {
    if hs == [] then [] else MomentsOf(hs[..|hs| - 1], newId) + [MomentOf(newId(|hs| - 1), hs[|hs| - 1])]
  }

  lemma MomentsSnoc(hs: seq<MomentHash>, h: MomentHash, newId: nat -> string)
    ensures MomentsOf(hs + [h], newId) == MomentsOf(hs, newId) + [MomentOf(newId(|hs|), h)]
  {
    assert (hs + [h])[..|hs|] == hs;
  }

  lemma {:induction false} MomentsExtend(hs: seq<MomentHash>, all: seq<MomentHash>, newId: nat -> string)
    requires hs <= all
    ensures MomentsOf(hs, newId) <= MomentsOf(all, newId)
    decreases |all|
  {
    if |hs| < |all| {
      MomentsExtend(hs, all[..|all| - 1], newId);
    } else {
      assert hs == all;
    }
  }

  /** Each moment shows the hour, cell, record and time of its match, under its fresh id. */
  lemma {:induction false} MomentMeans(hs: seq<MomentHash>, newId: nat -> string, i: nat)
    requires i < |hs|
    ensures MomentsOf(hs, newId)[i] ==
            SharedMoment(newId(i), hs[i].timeBucket, hs[i].geohash, hs[i].recordId, hs[i].timestamp)
  {
    if i < |hs| - 1 {
      MomentMeans(hs[..|hs| - 1], newId, i);
    }
  }

  /** The j-th match is the first with its bucket and cell. */
  ghost predicate IsFirstKey(matches: seq<MomentHash>, j: nat) {
    j < |matches| && forall i | 0 <= i < j :: LabelText(matches[i]) != LabelText(matches[j])
  }

  function LabelText(h: MomentHash): string {
    h.timeBucket.text + "|" + h.geohash.text
  }

  lemma FirstKeyIff(matches: seq<MomentHash>, j: nat)
    requires j < |matches|
    ensures IsFirstKey(matches, j) <==> KeyOf(matches[j]) !in Keys(matches[..j])
  {
    if KeyOf(matches[j]) in Keys(matches[..j]) {
      var h :| h in matches[..j] && KeyOf(h) == KeyOf(matches[j]);
      var i :| 0 <= i < j && matches[i] == h;
    } else {
      forall i | 0 <= i < j ensures KeyOf(matches[i]) != KeyOf(matches[j]) {
        assert matches[..j][i] in matches[..j];
      }
    }
  }

  /** A first match of its key is kept, behind those of earlier keys; a later one is not. */
  lemma RepresentativesSnoc(matches: seq<MomentHash>, j: nat)
    requires j < |matches|
    ensures Representatives(matches[..j + 1]) ==
            Representatives(matches[..j]) + (if IsFirstKey(matches, j) then [matches[j]] else [])
  {
    assert matches[..j + 1][..j] == matches[..j];
    RepresentativesAreExact(matches[..j]);
    FirstKeyIff(matches, j);
  }

  /** The moments that detection builds. */
  ghost function Found(ours: seq<MomentHash>, exchange: Option<set<Digest>>, newId: nat -> string): seq<SharedMoment> {
    if exchange.None? then [] else MomentsOf(Representatives(FindHashOverlaps(ours, exchange.value)), newId)
  }

  ghost function PutAll(shared: map<string, SharedMoment>, moments: seq<SharedMoment>): map<string, SharedMoment> {
    if moments == [] then shared else
      var m := moments[|moments| - 1];
      PutAll(shared, moments[..|moments| - 1])[m.momentId := m]
  }

  lemma PutSnoc(shared: map<string, SharedMoment>, moments: seq<SharedMoment>, m: SharedMoment)
    ensures PutAll(shared, moments + [m]) == PutAll(shared, moments)[m.momentId := m]
  {
    assert (moments + [m])[..|moments|] == moments;
  }

  /** No other entry is touched. */
  lemma {:induction false} PutAllLeaves(shared: map<string, SharedMoment>, moments: seq<SharedMoment>, id: string)
    requires forall i | 0 <= i < |moments| :: moments[i].momentId != id
    ensures id in PutAll(shared, moments) <==> id in shared
    ensures id in shared ==> PutAll(shared, moments)[id] == shared[id]
  {
    if moments != [] {
      PutAllLeaves(shared, moments[..|moments| - 1], id);
    }
  }

  /** With fresh ids every moment is stored under its own id. */
  lemma {:induction false} PutAllStores(shared: map<string, SharedMoment>, moments: seq<SharedMoment>, i: nat)
    requires i < |moments|
    requires forall j | i < j < |moments| :: moments[j].momentId != moments[i].momentId
    ensures moments[i].momentId in PutAll(shared, moments)
    ensures PutAll(shared, moments)[moments[i].momentId] == moments[i]
  {
    if i < |moments| - 1 {
      PutAllStores(shared, moments[..|moments| - 1], i);
    }
  }

  /** What is stored for one peer, and the shared moments. */
  class MomentStore {
    var ours: seq<MomentHash>
    var exchange: Option<set<Digest>>
    var shared: map<string, SharedMoment>

    method SaveOurMomentHashes(batch: seq<MomentHash>, stored: bool) returns (ok: bool)
      modifies this`ours
      ensures ok == stored && ours == if stored then Saved(old(ours), batch) else old(ours)
    {
      var merged := SaveMomentHashes(ours, batch);
      if stored {
        ours := merged;
      }
      return stored;
    }

    /** The loop over the matches; `accepts(i)` says whether the i-th write succeeds. */
    method SaveMatches(matches: seq<MomentHash>, newId: nat -> string, accepts: nat -> bool)
      returns (failed: bool, moments: seq<SharedMoment>)
      modifies this`shared
      ensures shared == PutAll(old(shared), moments) && AcceptsUpTo(accepts, |moments|)
      ensures !failed ==> moments == MomentsOf(Representatives(matches), newId)
      ensures failed ==> !accepts(|moments|) && IsProperPrefix(moments, MomentsOf(Representatives(matches), newId))
    {
      var seen: set<string> := {};
      moments, failed := [], false;
      assert matches[..0] == [];
      for i := 0 to |matches|
        invariant seen == Keys(Representatives(matches[..i]))
        invariant moments == MomentsOf(Representatives(matches[..i]), newId)
        invariant shared == PutAll(old(shared), moments)
        invariant AcceptsUpTo(accepts, |moments|)
      {
        var h := matches[i];
        var key := KeyOf(h);
        if key in seen {
          NextRepresentative(matches, i);
          continue;
        }
        if !accepts(|moments|) {
          FoundUpTo(matches, i, newId);
          return true, moments;
        }
        var moment := MomentOf(newId(|moments|), h);
        NextMoment(matches, i, newId);
        PutSnoc(old(shared), moments, moment);
        assert AcceptsUpTo(accepts, |moments| + 1);
        seen := seen + {key};
        shared := shared[moment.momentId := moment];
        moments := moments + [moment];
      }
      assert matches[..|matches|] == matches;
    }

    /**
     Saves one moment for each (bucket, cell) key among the matches and returns them; stops at the first write that
     fails, with exactly the moments before it saved.
     */
    method DetectSharedMoments(newId: nat -> string, accepts: nat -> bool) returns (r: Result<seq<SharedMoment>, nat>)
      modifies this`shared
      ensures var found := Found(ours, exchange, newId);
              && (r.Ok? <==> AcceptsUpTo(accepts, |found|))
              && match r
                 case Ok(moments) => moments == found && shared == PutAll(old(shared), found)
                 case Err(i) => i < |found| && !accepts(i) && shared == PutAll(old(shared), found[..i])
    {
      if exchange.None? {
        return Ok([]);
      }
      var matches := FindHashOverlaps(ours, exchange.value);
      var failed, moments := SaveMatches(matches, newId, accepts);
      return if failed then Err(|moments|) else Ok(moments);
    }
  }

  ghost predicate AcceptsUpTo(accepts: nat -> bool, n: nat) {
    forall i: nat | i < n :: accepts(i)
  }

  predicate IsProperPrefix(ms: seq<SharedMoment>, all: seq<SharedMoment>) {
    |ms| < |all| && ms == all[..|ms|]
  }

  /** What the next match does to the representatives. */
  lemma NextRepresentative(matches: seq<MomentHash>, i: nat)
    requires i < |matches|
    ensures var kept, next := Representatives(matches[..i]), Representatives(matches[..i + 1]);
            && next == (if KeyOf(matches[i]) in Keys(kept) then kept else kept + [matches[i]])
            && Keys(next) == Keys(kept) + {KeyOf(matches[i])}
  {
    assert matches[..i + 1][..i] == matches[..i];
    KeysSnoc(Representatives(matches[..i]), matches[i]);
  }

  lemma NextMoment(matches: seq<MomentHash>, i: nat, newId: nat -> string)
    requires i < |matches| && KeyOf(matches[i]) !in Keys(Representatives(matches[..i]))
    ensures var kept, next := Representatives(matches[..i]), Representatives(matches[..i + 1]);
            && Keys(next) == Keys(kept) + {KeyOf(matches[i])}
            && MomentsOf(next, newId) == MomentsOf(kept, newId) + [MomentOf(newId(|kept|), matches[i])]
  {
    NextRepresentative(matches, i);
    MomentsSnoc(Representatives(matches[..i]), matches[i], newId);
  }

  /** Before a match with a new key, the moments built so far are a proper prefix of all of them. */
  lemma FoundUpTo(matches: seq<MomentHash>, i: nat, newId: nat -> string)
    requires i < |matches| && KeyOf(matches[i]) !in Keys(Representatives(matches[..i]))
    ensures IsProperPrefix(MomentsOf(Representatives(matches[..i]), newId), MomentsOf(Representatives(matches), newId))
  {
    var kept, next, reps := Representatives(matches[..i]), Representatives(matches[..i + 1]), Representatives(matches);
    NextRepresentative(matches, i);
    assert kept <= reps by { RepresentativesExtend(matches, i); }
    assert |next| <= |reps| by { RepresentativesExtend(matches, i + 1); }
    MomentsExtend(kept, reps, newId);
  }

  lemma {:induction false} RepresentativesExtend(matches: seq<MomentHash>, i: nat)
    requires i <= |matches|
    ensures Representatives(matches[..i]) <= Representatives(matches)
    decreases |matches|
  {
    if i < |matches| {
      var before := matches[..|matches| - 1];
      RepresentativesExtend(before, i);
      assert before[..i] == matches[..i];
    } else {
      assert matches[..i] == matches;
    }
  }

  /** Detection finds something exactly when one of our hashes is among the peer's. */
  lemma FoundIff(ours: seq<MomentHash>, peer: set<Digest>, newId: nat -> string)
    ensures Found(ours, Some(peer), newId) != [] <==> exists d :: d in Digests(ours) && d in peer
  {
    var matches := FindHashOverlaps(ours, peer);
    RepresentativesAreExact(matches);
    if d :| d in Digests(ours) && d in peer {
      var h :| h in ours && h.hash == d;
      OverlapsAreTheSharedOnes(ours, peer, h);
      assert KeyOf(h) in Keys(matches);
    }
    if matches != [] {
      OverlapsAreTheSharedOnes(ours, peer, matches[0]);
    }
  }

  /** The digests of some photos. */
  ghost function PhotoDigests(c: Codec, photos: seq<Photo>): set<Digest> {
    set q, d | q in photos && d in Digests(HashesOf(c, q)) :: d
  }

  lemma SavedDigests(batches: seq<seq<MomentHash>>)
    requires |FirstSeen(Concat(batches))| <= 100_000
    ensures Digests(SaveAll(batches)) == Digests(Concat(batches))
  {
    SavesOverAnyRun(batches);
    FirstSeenKeepsDigests(Concat(batches));
  }

  /**
   Deduplication never hides every overlap: if we saved the hashes of `p`, in whatever batches, the cap was never
   exceeded, and `p` shares a hash with one of the peer's photos, then something is detected.
   */
  lemma SharedHashIsDetected(c: Codec, theirs: seq<Photo>, p: Photo, q: Photo, batches: seq<seq<MomentHash>>,
                             newId: nat -> string)
    requires q in theirs && Digests(HashesOf(c, p)) <= Digests(Concat(batches)) && ShareHash(c, p, q)
    requires |FirstSeen(Concat(batches))| <= 100_000
    ensures Found(SaveAll(batches), Some(PhotoDigests(c, theirs)), newId) != []
  {
    var d :| d in Digests(HashesOf(c, p)) && d in Digests(HashesOf(c, q));
    SavedDigests(batches);
    FoundIff(SaveAll(batches), PhotoDigests(c, theirs), newId);
  }

  /** Both photos are located, their hours are at most 2 apart and their neighbourhoods intersect. */
  ghost predicate Meet(c: Codec, p: Photo, q: Photo) {
    && CellOf(c, p).Some? && CellOf(c, q).Some?
    && -2 <= HourOf(p.time) - HourOf(q.time) <= 2 && CellsMeet(c, CellOf(c, p).value, CellOf(c, q).value)
  }

  ghost predicate SomeMeet(c: Codec, ours: seq<Photo>, theirs: seq<Photo>) {
    exists p, q :: p in ours && q in theirs && Meet(c, p, q)
  }

  /**
   From photos to moments: when what we saved are the hashes of our photos, in whatever batches, and the cap was never
   exceeded, something is detected exactly when one of our photos meets one of the peer's.
   */
  lemma DetectedIffPhotosMeet(c: Codec, ours: seq<Photo>, theirs: seq<Photo>, batches: seq<seq<MomentHash>>,
                              newId: nat -> string)
    requires Injective(c) && Digests(Concat(batches)) == PhotoDigests(c, ours)
    requires |FirstSeen(Concat(batches))| <= 100_000
    ensures Found(SaveAll(batches), Some(PhotoDigests(c, theirs)), newId) != [] <==> SomeMeet(c, ours, theirs)
  {
    SavedDigests(batches);
    FoundIff(SaveAll(batches), PhotoDigests(c, theirs), newId);
    if d :| d in PhotoDigests(c, ours) && d in PhotoDigests(c, theirs) {
      var p :| p in ours && d in Digests(HashesOf(c, p));
      var q :| q in theirs && d in Digests(HashesOf(c, q));
      assert ShareHash(c, p, q);
      ShareHashIff(c, p, q);
      assert Meet(c, p, q);
    }
    if p, q :| p in ours && q in theirs && Meet(c, p, q) {
      ShareHashIff(c, p, q);
      var d :| d in Digests(HashesOf(c, p)) && d in Digests(HashesOf(c, q));
      assert d in PhotoDigests(c, ours) && d in PhotoDigests(c, theirs);
    }
  }

  // ---- Which moments are reported ----

  /** The j-th entry is the first for its digest. */
  ghost predicate IsFirstSeen(hs: seq<MomentHash>, j: nat) {
    j < |hs| && hs[j].hash !in Digests(hs[..j])
  }

  lemma IsFirstSeenSnoc(hs: seq<MomentHash>, h: MomentHash, j: nat)
    ensures IsFirstSeen(hs + [h], j) <==> IsFirstSeen(hs, j) || (j == |hs| && h.hash !in Digests(hs))
  {
    if j <= |hs| {
      assert (hs + [h])[..j] == hs[..j];
    }
    assert hs[..|hs|] == hs;
  }

  ghost predicate SomeFirstSeen(hs: seq<MomentHash>, h: MomentHash) {
    exists j: nat :: IsFirstSeen(hs, j) && hs[j] == h
  }

  lemma SomeFirstSeenSnoc(hs: seq<MomentHash>, last: MomentHash, h: MomentHash)
    ensures SomeFirstSeen(hs + [last], h) <==> SomeFirstSeen(hs, h) || (h == last && last.hash !in Digests(hs))
  {
    forall j: nat { IsFirstSeenSnoc(hs, last, j); }
    if j: nat :| IsFirstSeen(hs, j) && hs[j] == h {
      assert (hs + [last])[j] == h;
    }
    if last.hash !in Digests(hs) {
      assert (hs + [last])[|hs|] == last;
    }
  }

  /** What is kept are exactly the entries that come first for their digest. */
  lemma {:induction false} FirstSeenMember(hs: seq<MomentHash>, h: MomentHash)
    ensures h in FirstSeen(hs) <==> SomeFirstSeen(hs, h)
  {
    if hs != [] {
      var before, last := hs[..|hs| - 1], hs[|hs| - 1];
      FirstSeenMember(before, h);
      SomeFirstSeenSnoc(before, last, h);
      assert hs == before + [last];
      FirstSeenKeepsDigests(before);
      HasDigestIff(FirstSeen(before), last.hash);
    }
  }

  /** A moment with this (bucket, cell) key is among them. */
  ghost predicate Reports(moments: seq<SharedMoment>, key: string) {
    exists m :: m in moments && DedupKey(m.timeBucket, m.geohash) == key
  }

  lemma {:induction false} MomentsReport(hs: seq<MomentHash>, newId: nat -> string, key: string)
    ensures Reports(MomentsOf(hs, newId), key) <==> key in Keys(hs)
  {
    if hs != [] {
      var before, last := hs[..|hs| - 1], hs[|hs| - 1];
      MomentsReport(before, newId, key);
      KeysSnoc(before, last);
      assert hs == before + [last];
      var m := MomentOf(newId(|before|), last);
      ReportsSnoc(MomentsOf(before, newId), m, key);
    }
  }

  lemma ReportsSnoc(ms: seq<SharedMoment>, m: SharedMoment, key: string)
    ensures Reports(ms + [m], key) <==> Reports(ms, key) || DedupKey(m.timeBucket, m.geohash) == key
  {
    assert m in ms + [m] && forall x :: x in ms + [m] <==> x in ms || x == m;
  }

  lemma FoundReports(ours: seq<MomentHash>, peer: set<Digest>, newId: nat -> string, key: string)
    ensures Reports(Found(ours, Some(peer), newId), key) <==>
            exists h :: h in ours && h.hash in peer && KeyOf(h) == key
  {
    var matches := FindHashOverlaps(ours, peer);
    RepresentativesAreExact(matches);
    MomentsReport(Representatives(matches), newId, key);
    forall h { OverlapsAreTheSharedOnes(ours, peer, h); }
  }

  /** The j-th entry saved is the first for its digest, the peer sent that digest, and the entry has this key. */
  ghost predicate Exposes(all: seq<MomentHash>, peer: set<Digest>, key: string, j: nat) {
    IsFirstSeen(all, j) && all[j].hash in peer && KeyOf(all[j]) == key
  }

  /**
   Exactly which moments are reported while the cap was never exceeded: those whose key labels an entry that came
   first for some digest the peer sent.
   */
  lemma ReportedIff(batches: seq<seq<MomentHash>>, peer: set<Digest>, newId: nat -> string, key: string)
    requires |FirstSeen(Concat(batches))| <= 100_000
    ensures Reports(Found(SaveAll(batches), Some(peer), newId), key) <==>
            exists j: nat :: Exposes(Concat(batches), peer, key, j)
  {
    var all := Concat(batches);
    SavesOverAnyRun(batches);
    FoundReports(SaveAll(batches), peer, newId, key);
    if h :| h in SaveAll(batches) && h.hash in peer && KeyOf(h) == key {
      FirstSeenMember(all, h);
      var j: nat :| IsFirstSeen(all, j) && all[j] == h;
      assert Exposes(all, peer, key, j);
    }
    if j: nat :| Exposes(all, peer, key, j) {
      FirstSeenMember(all, all[j]);
    }
  }

  /** The key under which the photo's hashes are labelled. */
  function LabelOf(c: Codec, p: Photo): string
    requires CellOf(c, p).Some?
  {
    DedupKey(c.bucket(HourOf(p.time)), CellOf(c, p).value)
  }

  lemma {:induction false} HourLabels(c: Codec, p: Photo, primary: Cell, hour: int, cells: seq<Cell>, h: MomentHash)
    requires h in HashesForHour(c, p, primary, hour, cells)
    ensures KeyOf(h) == DedupKey(c.bucket(HourOf(p.time)), primary)
  {
    if h in HashesForHour(c, p, primary, hour, cells[..|cells| - 1]) {
      HourLabels(c, p, primary, hour, cells[..|cells| - 1], h);
    }
  }

  lemma {:induction false} HoursLabels(c: Codec, p: Photo, primary: Cell, hours: seq<int>, cells: seq<Cell>,
                                       h: MomentHash)
    requires h in HashesForHours(c, p, primary, hours, cells)
    ensures KeyOf(h) == DedupKey(c.bucket(HourOf(p.time)), primary)
  {
    var n := |hours| - 1;
    if h in HashesForHours(c, p, primary, hours[..n], cells) {
      HoursLabels(c, p, primary, hours[..n], cells, h);
    } else {
      HourLabels(c, p, primary, hours[n], cells, h);
    }
  }

  lemma PhotoLabels(c: Codec, p: Photo, h: MomentHash)
    requires CellOf(c, p).Some? && h in HashesOf(c, p)
    ensures KeyOf(h) == LabelOf(c, p)
  {
    var cell := CellOf(c, p).value;
    HoursLabels(c, p, cell, AdjacentHours(p.time), Neighborhood(c, cell), h);
  }

  lemma LabelsDiffer(c: Codec, p: Photo, q: Photo)
    requires Injective(c) && CellOf(c, p).Some? && CellOf(c, q).Some? && HourOf(p.time) != HourOf(q.time)
    ensures LabelOf(c, p) != LabelOf(c, q)
  {
    if LabelOf(c, p) == LabelOf(c, q) {
      DedupKeyIsInjective(c.bucket(HourOf(p.time)), CellOf(c, p).value, c.bucket(HourOf(q.time)), CellOf(c, q).value);
    }
  }

  lemma SameDigests(c: Codec, p: Photo, q: Photo)
    requires CellOf(c, p).Some? && CellOf(c, p) == CellOf(c, q) && HourOf(p.time) == HourOf(q.time)
    ensures Digests(HashesOf(c, p)) == Digests(HashesOf(c, q))
  {
    assert AdjacentHours(p.time) == AdjacentHours(q.time);
    forall d ensures d in Digests(HashesOf(c, p)) <==> d in Digests(HashesOf(c, q)) {
      DigestsOfPhoto(c, p, d);
      DigestsOfPhoto(c, q, d);
    }
  }

  /**
   A photo's own moment can stay unreported even when the photo meets a peer's: whatever a second photo, of another
   hour, shares with a peer's photo of the hour and cell of our first is stored under the first photo's label.
   */
  lemma EarlierPhotoTakesTheMoment(c: Codec, first: Photo, second: Photo, q: Photo, newId: nat -> string)
    requires Injective(c) && CellOf(c, first).Some? && CellOf(c, second).Some? && CellOf(c, q) == CellOf(c, first)
    requires HourOf(q.time) == HourOf(first.time) != HourOf(second.time)
    requires |HashesOf(c, first)| + |HashesOf(c, second)| <= 100_000
    ensures var saved := SaveAll([HashesOf(c, first), HashesOf(c, second)]);
            !Reports(Found(saved, Some(PhotoDigests(c, [q])), newId), LabelOf(c, second))
  {
    var a, b, peer, key := HashesOf(c, first), HashesOf(c, second), PhotoDigests(c, [q]), LabelOf(c, second);
    assert |FirstSeen(a + b)| <= 100_000 by { FirstSeenKeepsDigests(a + b); }
    assert forall h | h in a :: KeyOf(h) != key by {
      LabelsDiffer(c, first, second);
      forall h | h in a ensures KeyOf(h) != key { PhotoLabels(c, first, h); }
    }
    assert peer <= Digests(a) by { SameDigests(c, first, q); }
    ConcatTwo(a, b);
    HiddenBehind(a, b, peer, key, newId);
  }

  /** A key that labels only later entries is not reported when earlier ones hold every digest the peer sent. */
  lemma HiddenBehind(a: seq<MomentHash>, b: seq<MomentHash>, peer: set<Digest>, key: string, newId: nat -> string)
    requires peer <= Digests(a) && (forall h | h in a :: KeyOf(h) != key) && Concat([a, b]) == a + b
    requires |FirstSeen(a + b)| <= 100_000
    ensures !Reports(Found(SaveAll([a, b]), Some(peer), newId), key)
  {
    ReportedIff([a, b], peer, newId, key);
    forall j: nat ensures !Exposes(a + b, peer, key, j) {
      NotExposed(a, b, peer, key, j);
    }
  }

  lemma NotExposed(a: seq<MomentHash>, b: seq<MomentHash>, peer: set<Digest>, key: string, j: nat)
    requires peer <= Digests(a) && forall h | h in a :: KeyOf(h) != key
    ensures !Exposes(a + b, peer, key, j)
  {
    var all := a + b;
    if j < |a| {
      assert all[j] == a[j] && a[j] in a;
    } else if j < |all| {
      assert all[j] == b[j - |a|];
      LaterIsNotFirst(a, b, j - |a|);
    }
  }

  lemma LaterIsNotFirst(a: seq<MomentHash>, b: seq<MomentHash>, k: nat)
    requires k < |b|
    ensures b[k].hash in Digests(a) ==> !IsFirstSeen(a + b, |a| + k)
  {
    assert (a + b)[..|a| + k] == a + b[..k];
    DigestsAppend(a, b[..k]);
  }

  lemma ConcatTwo(a: seq<MomentHash>, b: seq<MomentHash>)
    ensures Concat([a, b]) == a + b
  {
    assert [a, b][..1] == [a] && [a][..0] == [];
    assert Concat([a]) == a;
  }
}
