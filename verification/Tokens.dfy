/** Multiset token overlap and the precision, recall and F1 built on it, before rounding. */
module Tokens {
  import opened Wrappers

  type Token = string

  /** `count_tokens`: the dictionary is the multiset of the tokens. */
  method CountTokens(tokens: seq<Token>) returns (counts: map<Token, nat>)
    ensures forall t :: t in counts <==> t in tokens
    ensures forall t :: t in counts ==> counts[t] == multiset(tokens)[t] > 0
  {
    counts := map[];
    for i := 0 to |tokens|
      invariant forall t :: t in counts <==> t in tokens[..i]
      invariant forall t :: t in counts ==> counts[t] == multiset(tokens[..i])[t] > 0
    {
      var token := tokens[i];
      assert tokens[..i + 1] == tokens[..i] + [token];
      assert token !in counts ==> multiset(tokens[..i])[token] == 0;
      counts := counts[token := (if token in counts then counts[token] else 0) + 1];
    }
    assert tokens[..|tokens|] == tokens;
  }

  /** `token_overlap`: the size of the multiset intersection, and both lengths. */
  method TokenOverlap(pred: seq<Token>, ref: seq<Token>) returns (overlap: nat, predCount: nat, refCount: nat)
    ensures overlap == |multiset(pred) * multiset(ref)|
    ensures predCount == |pred| && refCount == |ref|
  {
    var predCounts := CountTokens(pred);
    var refCounts := CountTokens(ref);
    ghost var common := multiset(pred) * multiset(ref);
    ghost var left := common;
    var todo := predCounts.Keys;
    overlap := 0;
    while todo != {}
      invariant todo <= predCounts.Keys
      invariant |common| == overlap + |left|
      invariant forall t :: left[t] == if t in todo || t !in predCounts then common[t] else 0
      decreases |todo|
    {
      var token :| token in todo;
      var inPred := predCounts[token];
      var inRef := if token in refCounts then refCounts[token] else 0;
      assert token !in refCounts ==> multiset(ref)[token] == 0;
      assert left[token] == common[token] == if inPred <= inRef then inPred else inRef;
      overlap := overlap + if inPred <= inRef then inPred else inRef;
      left := left[token := 0];
      todo := todo - {token};
    }
    forall t ensures left[t] == 0 {
      if t !in predCounts {
        assert multiset(pred)[t] == 0;
      }
    }
    assert left == multiset{};
    return overlap, |pred|, |ref|;
  }

  lemma OverlapBounds(a: multiset<Token>, b: multiset<Token>)
    ensures |a * b| <= |a| && |a * b| <= |b|
    ensures a * b == b * a
    ensures |a * b| == |a| <==> a <= b
  {
    assert a == a * b + (a - b);
    assert b == a * b + (b - a);
    if |a * b| == |a| {
      assert |a - b| == 0;
      assert a - b == multiset{};
      forall t ensures a[t] <= b[t] {
        assert (a - b)[t] == 0;
      }
    }
    if a <= b {
      assert a * b == a;
    }
  }

  /** Overlap is symmetric in prediction and reference. */
  lemma OverlapSymmetric(pred: seq<Token>, ref: seq<Token>)
    ensures |multiset(pred) * multiset(ref)| == |multiset(ref) * multiset(pred)| <= |pred|
  {
    OverlapBounds(multiset(pred), multiset(ref));
    assert |multiset(pred)| == |pred|;
  }

  lemma Fraction(x: nat, n: nat)
    requires x <= n && n > 0
    ensures 0.0 <= x as real / n as real <= 1.0
    ensures x as real / n as real == 1.0 <==> x == n
    ensures x as real / n as real == 0.0 <==> x == 0
  {
  }

  /** None when the prediction has no tokens: the metric is then unavailable. It is 1 exactly when every prediction
      token is matched by a reference token. */
  method TokenPrecision(pred: seq<Token>, ref: seq<Token>) returns (precision: Option<real>)
    ensures precision.None? <==> pred == []
    ensures pred != [] ==> precision.value == |multiset(pred) * multiset(ref)| as real / |pred| as real
    ensures pred != [] ==> 0.0 <= precision.value <= 1.0
    ensures pred != [] ==> (precision.value == 1.0 <==> multiset(pred) <= multiset(ref))
  {
    if pred == [] {
      return None;
    }
    OverlapBounds(multiset(pred), multiset(ref));
    assert |multiset(pred)| == |pred|;
    Fraction(|multiset(pred) * multiset(ref)|, |pred|);
    if ref == [] {
      assert multiset(pred) * multiset(ref) == multiset{};
      return Some(0.0);
    }
    var overlap, predCount, _ := TokenOverlap(pred, ref);
    return Some(overlap as real / predCount as real);
  }

  method TokenRecall(pred: seq<Token>, ref: seq<Token>) returns (recall: Option<real>)
    ensures recall.None? <==> ref == []
    ensures ref != [] ==> recall.value == |multiset(pred) * multiset(ref)| as real / |ref| as real
    ensures ref != [] ==> 0.0 <= recall.value <= 1.0
    ensures ref != [] ==> (recall.value == 1.0 <==> multiset(ref) <= multiset(pred))
  {
    if ref == [] {
      return None;
    }
    OverlapBounds(multiset(ref), multiset(pred));
    assert multiset(ref) * multiset(pred) == multiset(pred) * multiset(ref);
    assert |multiset(ref)| == |ref|;
    Fraction(|multiset(pred) * multiset(ref)|, |ref|);
    if pred == [] {
      assert multiset(pred) * multiset(ref) == multiset{};
      return Some(0.0);
    }
    var overlap, _, refCount := TokenOverlap(pred, ref);
    return Some(overlap as real / refCount as real);
  }

  /** F1 lies in [0, 1]; it is 1 exactly when prediction and reference are the same non-empty multiset. */
  method TokenF1(pred: seq<Token>, ref: seq<Token>) returns (f1: real)
    ensures pred == [] && ref == [] ==> f1 == 0.0
    ensures !(pred == [] && ref == []) ==>
              f1 == 2.0 * |multiset(pred) * multiset(ref)| as real / (|pred| + |ref|) as real
    ensures 0.0 <= f1 <= 1.0
    ensures f1 == 1.0 <==> pred != [] && multiset(pred) == multiset(ref)
  {
    if pred == [] && ref == [] {
      return 0.0;
    }
    var overlap, predCount, refCount := TokenOverlap(pred, ref);
    F1Bounds(pred, ref);
    f1 := 2.0 * overlap as real / (predCount + refCount) as real;
  }

  lemma F1Bounds(pred: seq<Token>, ref: seq<Token>)
    requires !(pred == [] && ref == [])
    ensures var f1 := 2.0 * |multiset(pred) * multiset(ref)| as real / (|pred| + |ref|) as real;
            0.0 <= f1 <= 1.0 && (f1 == 1.0 <==> pred != [] && multiset(pred) == multiset(ref))
  {
    var a, b := multiset(pred), multiset(ref);
    OverlapBounds(a, b);
    OverlapBounds(b, a);
    assert |a| == |pred| && |b| == |ref|;
    Fraction(2 * |a * b|, |pred| + |ref|);
    assert 2.0 * |a * b| as real == (2 * |a * b|) as real;
    assert a <= b && b <= a <==> a == b;
  }

  /** With a positive overlap, F1 is the harmonic mean of precision and recall. */
  lemma F1IsHarmonicMean(overlap: nat, predCount: nat, refCount: nat)
    requires 0 < overlap <= predCount && overlap <= refCount
    ensures var p, r := overlap as real / predCount as real, overlap as real / refCount as real;
            p + r > 0.0 && 2.0 * p * r / (p + r) == 2.0 * overlap as real / (predCount + refCount) as real
  {
    var o, m, n := overlap as real, predCount as real, refCount as real;
    var p, r := o / m, o / n;
    Quotient(o, m);
    Quotient(o, n);
    Regrouped(p, r, m, o);
    Regrouped(r, p, n, o);
    Distributed(p * r, m, n);
    Distributed(o, p, r);
    CrossMultiply(2.0 * (p * r), p + r, 2.0 * o, m + n);
    assert 2.0 * p * r == 2.0 * (p * r);
  }

  lemma Quotient(o: real, m: real)
    requires o > 0.0 && m > 0.0
    ensures o / m * m == o && o / m > 0.0
  {
  }

  lemma Regrouped(p: real, r: real, m: real, o: real)
    requires p * m == o
    ensures p * r * m == r * o && r * p * m == r * o
  {
    assert p * r * m == r * (p * m);
  }

  lemma Distributed(x: real, y: real, z: real)
    ensures x * (y + z) == x * y + x * z
  {
  }

  lemma CrossMultiply(a: real, b: real, c: real, d: real)
    requires b > 0.0 && d > 0.0 && a * d == c * b
    ensures a / b == c / d
  {
    assert a / b * b * d == c / d * d * b;
  }
}
