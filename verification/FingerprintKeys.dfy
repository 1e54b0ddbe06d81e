/**
 Content-derived keys (src/fingerprints/keys.rs). SHA-256 rendered as hex is an arbitrary
 function `h` on strings, assumed injective where a lemma says so.
 */
module FingerprintKeys {
  const STRONG_MATCH := "StrongMatch"
  const MEDIUM_MATCH := "MediumMatch"
  const CO_OCCURRENCE := "CoOccurrence"

  /** "fp_" and 64 hex digits. */
  const ID_LENGTH: nat := 67

  type Hash = string -> string

  ghost predicate Injective(h: Hash) {
    forall s, t :: h(s) == h(t) ==> s == t
  }

  /** Lexicographic order, as Rust compares strings. */
  predicate AtMost(a: string, b: string) {
    a == "" || (b != "" && (a[0] < b[0] || (a[0] == b[0] && AtMost(a[1..], b[1..]))))
  }

  lemma {:induction false} AtMostIsTotal(a: string, b: string)
    ensures AtMost(a, b) || AtMost(b, a)
    ensures AtMost(a, b) && AtMost(b, a) ==> a == b
  {
    if a != "" && b != "" {
      AtMostIsTotal(a[1..], b[1..]);
      assert a == [a[0]] + a[1..] && b == [b[0]] + b[1..];
    }
  }

  /** `a` stops at a place where `b` agrees so far, or has the smaller character where they first differ. */
  ghost predicate ComesFirst(a: string, b: string) {
    a <= b || exists i :: 0 <= i < |a| && i < |b| && a[..i] == b[..i] && a[i] < b[i]
  }

  lemma {:induction false} AtMostMeans(a: string, b: string)
    ensures AtMost(a, b) <==> ComesFirst(a, b)
  {
    if a != "" && b != "" {
      AtMostMeans(a[1..], b[1..]);
      ComesFirstTail(a, b);
    }
  }

  lemma ComesFirstCons(a: string, b: string, c: string, d: string)
    requires a != "" && b != "" && c == a[1..] && d == b[1..]
    requires a[0] < b[0] || (a[0] == b[0] && ComesFirst(c, d))
    ensures ComesFirst(a, b)
  {
    assert a == [a[0]] + c && b == [b[0]] + d;
    if a[0] < b[0] {
      assert a[..0] == b[..0];
    } else if !(c <= d) {
      var i :| 0 <= i < |c| && i < |d| && c[..i] == d[..i] && c[i] < d[i];
      assert a[..i + 1] == [a[0]] + c[..i] && b[..i + 1] == [b[0]] + d[..i];
      assert a[i + 1] < b[i + 1];
    }
  }

  lemma ComesFirstRest(a: string, b: string, c: string, d: string)
    requires a != "" && b != "" && c == a[1..] && d == b[1..] && ComesFirst(a, b)
    ensures a[0] < b[0] || (a[0] == b[0] && ComesFirst(c, d))
  {
    if !(a <= b) {
      var i :| 0 <= i < |a| && i < |b| && a[..i] == b[..i] && a[i] < b[i];
      if i > 0 {
        assert a[0] == a[..i][0] == b[..i][0] == b[0];
        assert c[..i - 1] == a[..i][1..] && d[..i - 1] == b[..i][1..];
        assert c[i - 1] < d[i - 1];
      }
    }
  }

  lemma ComesFirstTail(a: string, b: string)
    requires a != "" && b != ""
    ensures ComesFirst(a, b) <==> a[0] < b[0] || (a[0] == b[0] && ComesFirst(a[1..], b[1..]))
  {
    if ComesFirst(a, b) {
      ComesFirstRest(a, b, a[1..], b[1..]);
    }
    if a[0] < b[0] || (a[0] == b[0] && ComesFirst(a[1..], b[1..])) {
      ComesFirstCons(a, b, a[1..], b[1..]);
    }
  }

  function First(a: string, b: string): string {
    if AtMost(a, b) then a else b
  }

  function Second(a: string, b: string): string {
    if AtMost(a, b) then b else a
  }

  /** The key of a fingerprint of this kind with these canonical bytes. */
  function FingerprintId(h: Hash, kind: string, bytes: string): string {
    "fp_" + h("Fingerprint" + kind + bytes)
  }

  /** Within a kind the key determines the bytes and nothing else; with hashes of 64 digits all keys have one length. */
  lemma FingerprintIdIdentifies(h: Hash, kind: string, a: string, b: string)
    requires Injective(h)
    ensures FingerprintId(h, kind, a) == FingerprintId(h, kind, b) <==> a == b
    ensures |h("Fingerprint" + kind + a)| == 64 ==> |FingerprintId(h, kind, a)| == ID_LENGTH
  {
    if FingerprintId(h, kind, a) == FingerprintId(h, kind, b) {
      SplitsEqually("fp_", h("Fingerprint" + kind + a), "fp_", h("Fingerprint" + kind + b));
      SplitsEqually("Fingerprint" + kind, a, "Fingerprint" + kind, b);
    }
  }

  function EdgeId(h: Hash, a: string, b: string, kind: string): string {
    "eg_" + h("Edge" + First(a, b) + Second(a, b) + kind)
  }

  /** The shape of an edge key, its ends in order. */
  lemma EdgeIdIs(h: Hash, a: string, b: string, kind: string)
    requires AtMost(a, b)
    ensures EdgeId(h, a, b, kind) == "eg_" + h("Edge" + a + b + kind)
  {
  }

  /** The order of the endpoints does not change the key. */
  lemma EdgeIdIsSymmetric(h: Hash, a: string, b: string, kind: string)
    ensures EdgeId(h, a, b, kind) == EdgeId(h, b, a, kind)
  {
    AtMostIsTotal(a, b);
  }

  lemma SplitsEqually<T>(a: seq<T>, b: seq<T>, c: seq<T>, d: seq<T>)
    requires |a| == |c| && a + b == c + d
    ensures a == c && b == d
  {
    assert a == (a + b)[..|a|] && c == (c + d)[..|c|];
    assert b == (a + b)[|a|..] && d == (c + d)[|c|..];
  }

  /** For ids of one length, the key determines the endpoint pair and the kind, and nothing else. */
  lemma EdgeIdIdentifiesEdge(h: Hash, a: string, b: string, k: string, c: string, d: string, k': string)
    requires Injective(h) && |a| == |b| == |c| == |d|
    ensures EdgeId(h, a, b, k) == EdgeId(h, c, d, k') <==> {a, b} == {c, d} && k == k'
  {
    var x, y, z, w := First(a, b), Second(a, b), First(c, d), Second(c, d);
    assert {x, y} == {a, b} && {z, w} == {c, d};
    if EdgeId(h, a, b, k) == EdgeId(h, c, d, k') {
      SplitsEqually("eg_", h("Edge" + x + y + k), "eg_", h("Edge" + z + w + k'));
      assert "Edge" + x + y + k == "Edge" + z + w + k';
      SplitsEqually("Edge" + x + y, k, "Edge" + z + w, k');
      SplitsEqually("Edge" + x, y, "Edge" + z, w);
      SplitsEqually("Edge", x, "Edge", z);
    }
    if {a, b} == {c, d} && k == k' {
      assert (a == c && b == d) || (a == d && b == c) by {
        assert a in {c, d} && b in {c, d} && c in {a, b} && d in {a, b};
      }
      EdgeIdIsSymmetric(h, a, b, k);
    }
  }

  /** Without equal lengths two different pairs can share a key: the endpoints are only concatenated. */
  lemma UnequalLengthsCollide(h: Hash, k: string)
    ensures EdgeId(h, "ab", "c", k) == EdgeId(h, "a", "bc", k)
  {
    assert AtMost("ab", "c") && AtMost("a", "bc");
    assert "Edge" + "ab" + "c" + k == "Edge" + "a" + "bc" + k;
  }
}
