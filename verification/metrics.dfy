/**
 * The retrieval metrics of MetricsCalcultor: recall, precision, F-measure and
 * average precision of one query's obtained documents against its relevant ones.
 * Documents are ids; both inputs are lists, so they may hold duplicates. The
 * overlap is counted on sets, the denominators on the lists. Python's
 * ZeroDivisionError on an empty denominator is `None`.
 */
module Metrics {
  import opened Wrappers

  /** `set(docs)`. */
  function Elems(docs: seq<string>): set<string> {
    set d | d in docs
  }

  /** `set(obtained_docs).intersection(set(relevant_docs))`. */
  function Hits(obtained: seq<string>, relevant: seq<string>): set<string> {
    Elems(obtained) * Elems(relevant)
  }

  /** No document is listed twice. */
  predicate NoDuplicates(docs: seq<string>) {
    forall i, j :: 0 <= i < j < |docs| ==> docs[i] != docs[j]
  }

  /** `calculate_recall`: the share of the relevant list that was obtained. */
  function Recall(obtained: seq<string>, relevant: seq<string>): Option<real> {
    if |relevant| == 0 then None else Some(|Hits(obtained, relevant)| as real / |relevant| as real)
  }

  /** `calculate_precision`: the share of the obtained list that is relevant. */
  function Precision(obtained: seq<string>, relevant: seq<string>): Option<real> {
    if |obtained| == 0 then None else Some(|Hits(obtained, relevant)| as real / |obtained| as real)
  }

  /** `2 * (precision * recall) / (precision + recall)`, and 0 when both are 0. */
  function HarmonicMean(p: real, r: real): real {
    if p + r == 0.0 then 0.0 else 2.0 * (p * r) / (p + r)
  }

  /** `calculate_fmeasure`: undefined when recall or precision is. */
  function FMeasure(obtained: seq<string>, relevant: seq<string>): Option<real> {
    var recall := Recall(obtained, relevant);
    var precision := Precision(obtained, relevant);
    if recall.None? || precision.None? then None
    else Some(HarmonicMean(precision.value, recall.value))
  }

  // ---------------------------------------------------------------------------
  // Counting
  // ---------------------------------------------------------------------------

  /** A list has at least as many entries as distinct documents, exactly as many when it has no duplicates. */
  lemma {:induction false} ElemsSize(docs: seq<string>)
    ensures |Elems(docs)| <= |docs|
    ensures NoDuplicates(docs) ==> |Elems(docs)| == |docs|
    decreases |docs|
  {
    if docs != [] {
      var init := docs[..|docs| - 1];
      var last := docs[|docs| - 1];
      ElemsSize(init);
      assert docs == init + [last];
      assert Elems(docs) == Elems(init) + {last};
      if NoDuplicates(docs) {
        assert NoDuplicates(init);
        assert last !in Elems(init);
      }
    }
  }

  /** A subset as large as its superset is the whole superset. */
  lemma SubsetSameSize(a: set<string>, b: set<string>)
    requires a <= b && |a| == |b|
    ensures a == b
  {
    assert a * b == a;
    assert |b - a| == 0;
    assert b - a == {};
    assert b <= a;
  }

  lemma {:induction false} SubsetSize(a: set<string>, b: set<string>)
    requires a <= b
    ensures |a| <= |b|
    decreases |b|
  {
    if a != {} {
      var x :| x in a;
      SubsetSize(a - {x}, b - {x});
    }
  }

  /** `0 <= a / b <= 1` for counts `0 <= a <= b`, with equality to 1 exactly when `a == b`. */
  lemma CountRatio(a: int, b: int)
    requires 0 <= a <= b && b > 0
    ensures 0.0 <= a as real / b as real <= 1.0
    ensures a as real / b as real == 1.0 <==> a == b
    ensures a as real / b as real == 0.0 <==> a == 0
  {
    RealRatio(a as real, b as real);
  }

  lemma RealRatio(a: real, b: real)
    requires 0.0 <= a <= b && b > 0.0
    ensures 0.0 <= a / b <= 1.0
    ensures a / b == 1.0 <==> a == b
    ensures a / b == 0.0 <==> a == 0.0
  {
    var q := a / b;
    assert q * b == a;
  }

  // ---------------------------------------------------------------------------
  // Recall and precision
  // ---------------------------------------------------------------------------

  /** Recall is defined exactly for a non-empty relevant list, lies in [0,1], and is 0 exactly when nothing relevant was obtained. */
  lemma RecallBounds(obtained: seq<string>, relevant: seq<string>)
    ensures Recall(obtained, relevant).Some? <==> relevant != []
    ensures Recall(obtained, relevant).Some? ==> 0.0 <= Recall(obtained, relevant).value <= 1.0
    ensures Recall(obtained, relevant).Some? ==> (Recall(obtained, relevant).value == 0.0 <==> Hits(obtained, relevant) == {})
  {
    if relevant != [] {
      ElemsSize(relevant);
      SubsetSize(Hits(obtained, relevant), Elems(relevant));
      CountRatio(|Hits(obtained, relevant)|, |relevant|);
    }
  }

  /** With no duplicate relevant documents, recall is 1 exactly when every relevant document was obtained. */
  lemma RecallOne(obtained: seq<string>, relevant: seq<string>)
    requires relevant != [] && NoDuplicates(relevant)
    ensures Recall(obtained, relevant) == Some(1.0) <==> Elems(relevant) <= Elems(obtained)
  {
    var h := Hits(obtained, relevant);
    ElemsSize(relevant);
    SubsetSize(h, Elems(relevant));
    CountRatio(|h|, |relevant|);
    if |h| == |relevant| {
      SubsetSameSize(h, Elems(relevant));
    }
    if Elems(relevant) <= Elems(obtained) {
      assert h == Elems(relevant);
    }
  }

  /** Precision is defined exactly for a non-empty obtained list, lies in [0,1], and is 0 exactly when nothing relevant was obtained. */
  lemma PrecisionBounds(obtained: seq<string>, relevant: seq<string>)
    ensures Precision(obtained, relevant).Some? <==> obtained != []
    ensures Precision(obtained, relevant).Some? ==> 0.0 <= Precision(obtained, relevant).value <= 1.0
    ensures Precision(obtained, relevant).Some? ==> (Precision(obtained, relevant).value == 0.0 <==> Hits(obtained, relevant) == {})
  {
    if obtained != [] {
      ElemsSize(obtained);
      SubsetSize(Hits(obtained, relevant), Elems(obtained));
      CountRatio(|Hits(obtained, relevant)|, |obtained|);
    }
  }

  /** With no duplicate obtained documents, precision is 1 exactly when every obtained document is relevant. */
  lemma PrecisionOne(obtained: seq<string>, relevant: seq<string>)
    requires obtained != [] && NoDuplicates(obtained)
    ensures Precision(obtained, relevant) == Some(1.0) <==> Elems(obtained) <= Elems(relevant)
  {
    var h := Hits(obtained, relevant);
    ElemsSize(obtained);
    SubsetSize(h, Elems(obtained));
    CountRatio(|h|, |obtained|);
    if |h| == |obtained| {
      SubsetSameSize(h, Elems(obtained));
    }
    if Elems(obtained) <= Elems(relevant) {
      assert h == Elems(obtained);
    }
  }

  // ---------------------------------------------------------------------------
  // F-measure
  // ---------------------------------------------------------------------------

  /** The harmonic mean does not depend on the order of its arguments. */
  lemma HarmonicSymmetric(p: real, r: real)
    ensures HarmonicMean(p, r) == HarmonicMean(r, p)
  {
    assert p * r == r * p;
  }

  /** For positive p and r the harmonic mean lies between the smaller and the larger of the two. */
  lemma HarmonicBetween(p: real, r: real)
    requires p > 0.0 && r > 0.0
    ensures (if p <= r then p else r) <= HarmonicMean(p, r) <= (if p <= r then r else p)
  {
    if p <= r {
      HarmonicBetweenOrdered(p, r);
    } else {
      HarmonicBetweenOrdered(r, p);
      HarmonicSymmetric(p, r);
    }
  }

  lemma HarmonicBetweenOrdered(p: real, r: real)
    requires 0.0 < p <= r
    ensures p <= HarmonicMean(p, r) <= r
  {
    var s := p + r;
    var n := 2.0 * (p * r);
    assert n - p * s == p * (r - p);
    assert r * s - n == r * (r - p);
    assert p * (r - p) >= 0.0;
    assert r * (r - p) >= 0.0;
    QuotientBetween(n, s, p, r);
  }

  /** `lo <= n / s <= hi` when `lo * s <= n <= hi * s` and `s > 0`. */
  lemma QuotientBetween(n: real, s: real, lo: real, hi: real)
    requires s > 0.0 && lo * s <= n <= hi * s
    ensures lo <= n / s <= hi
  {
    var q := n / s;
    assert q * s == n;
  }

  lemma ProductNonNegative(x: real, y: real)
    requires x >= 0.0 && y >= 0.0
    ensures x * y >= 0.0
  {
  }

  /** For p and r in [0,1] the harmonic mean is in [0,1]. */
  lemma HarmonicBounds(p: real, r: real)
    requires 0.0 <= p <= 1.0 && 0.0 <= r <= 1.0
    ensures 0.0 <= HarmonicMean(p, r) <= 1.0
  {
    if p + r != 0.0 {
      ProductNonNegative(p, 1.0 - r);
      ProductNonNegative(r, 1.0 - p);
      ProductNonNegative(p, r);
      RealRatio(2.0 * (p * r), p + r);
    }
  }

  /**
   * F-measure is defined exactly when both lists are non-empty; it lies in [0,1],
   * is 0 exactly when no relevant document was obtained, and otherwise lies
   * between precision and recall.
   */
  lemma FMeasureBounds(obtained: seq<string>, relevant: seq<string>)
    ensures FMeasure(obtained, relevant).Some? <==> obtained != [] && relevant != []
    ensures FMeasure(obtained, relevant).Some? ==> 0.0 <= FMeasure(obtained, relevant).value <= 1.0
    ensures FMeasure(obtained, relevant).Some? ==> (FMeasure(obtained, relevant).value == 0.0 <==> Hits(obtained, relevant) == {})
    ensures FMeasure(obtained, relevant).Some? && Hits(obtained, relevant) != {} ==>
      var p, r := Precision(obtained, relevant).value, Recall(obtained, relevant).value;
      (if p <= r then p else r) <= FMeasure(obtained, relevant).value <= (if p <= r then r else p)
  {
    RecallBounds(obtained, relevant);
    PrecisionBounds(obtained, relevant);
    if obtained != [] && relevant != [] {
      var p := Precision(obtained, relevant).value;
      var r := Recall(obtained, relevant).value;
      HarmonicBounds(p, r);
      if Hits(obtained, relevant) != {} {
        HarmonicBetween(p, r);
      }
    }
  }

  // ---------------------------------------------------------------------------
  // Average precision
  // ---------------------------------------------------------------------------

  /** `precision_sum` after the first n obtained documents: the precision of each prefix that ends on a relevant document. */
  function PrecisionSum(obtained: seq<string>, relevant: seq<string>, n: nat): real
    requires n <= |obtained|
  {
    if n == 0 then 0.0
    else
      PrecisionSum(obtained, relevant, n - 1) +
      (if obtained[n - 1] in relevant then Precision(obtained[..n], relevant).value else 0.0)
  }

  /** `precision_sum / len(relevant_docs)`. */
  function AveragePrecisionOf(obtained: seq<string>, relevant: seq<string>): Option<real> {
    if |relevant| == 0 then None
    else Some(PrecisionSum(obtained, relevant, |obtained|) / |relevant| as real)
  }

  /** `calculate_average_precision`. */
  method AveragePrecision(obtained: seq<string>, relevant: seq<string>) returns (ap: Option<real>)
    ensures ap == AveragePrecisionOf(obtained, relevant)
  {
    var precisionSum := 0.0;
    for i := 0 to |obtained|
      invariant precisionSum == PrecisionSum(obtained, relevant, i)
    {
      if obtained[i] in relevant {
        var p := Precision(obtained[..i + 1], relevant);
        precisionSum := precisionSum + p.value;
      }
    }
    if |relevant| == 0 {
      return None;
    }
    ap := Some(precisionSum / |relevant| as real);
  }

  /** How many of the first n obtained documents are relevant. */
  function RelevantCount(obtained: seq<string>, relevant: seq<string>, n: nat): nat
    requires n <= |obtained|
  {
    if n == 0 then 0
    else RelevantCount(obtained, relevant, n - 1) + (if obtained[n - 1] in relevant then 1 else 0)
  }

  /** Each summand is a precision, so the sum lies between 0 and the number of relevant positions. */
  lemma {:induction false} PrecisionSumBounds(obtained: seq<string>, relevant: seq<string>, n: nat)
    requires n <= |obtained|
    ensures 0.0 <= PrecisionSum(obtained, relevant, n) <= RelevantCount(obtained, relevant, n) as real
  {
    if n > 0 {
      PrecisionSumBounds(obtained, relevant, n - 1);
      PrecisionBounds(obtained[..n], relevant);
    }
  }

  /** Without duplicates, counting relevant positions counts the distinct relevant documents obtained. */
  lemma {:induction false} RelevantCountIsHits(obtained: seq<string>, relevant: seq<string>, n: nat)
    requires n <= |obtained| && NoDuplicates(obtained)
    ensures RelevantCount(obtained, relevant, n) == |Hits(obtained[..n], relevant)|
  {
    if n > 0 {
      RelevantCountIsHits(obtained, relevant, n - 1);
      var prev := obtained[..n - 1];
      var d := obtained[n - 1];
      assert obtained[..n] == prev + [d];
      HitsSnoc(prev, d, relevant);
      assert d !in prev by {
        forall i | 0 <= i < n - 1
          ensures prev[i] != d
        {
          assert prev[i] == obtained[i];
        }
      }
    }
  }

  /** Obtaining one more document adds it to the hits exactly when it is relevant. */
  lemma HitsSnoc(prev: seq<string>, d: string, relevant: seq<string>)
    ensures Hits(prev + [d], relevant) == if d in relevant then Hits(prev, relevant) + {d} else Hits(prev, relevant)
  {
    assert Elems(prev + [d]) == Elems(prev) + {d};
  }

  /** Average precision is defined exactly for a non-empty relevant list and is never negative. */
  lemma AveragePrecisionDefined(obtained: seq<string>, relevant: seq<string>)
    ensures AveragePrecisionOf(obtained, relevant).Some? <==> relevant != []
    ensures AveragePrecisionOf(obtained, relevant).Some? ==> AveragePrecisionOf(obtained, relevant).value >= 0.0
  {
    if relevant != [] {
      PrecisionSumBounds(obtained, relevant, |obtained|);
      var s := PrecisionSum(obtained, relevant, |obtained|);
      var m := |relevant| as real;
      assert s / m * m == s;
    }
  }

  /** When no obtained document is relevant, the sum stays 0. */
  lemma {:induction false} PrecisionSumNoneRelevant(obtained: seq<string>, relevant: seq<string>, n: nat)
    requires n <= |obtained|
    requires forall i :: 0 <= i < n ==> obtained[i] !in relevant
    ensures PrecisionSum(obtained, relevant, n) == 0.0
  {
    if n > 0 {
      PrecisionSumNoneRelevant(obtained, relevant, n - 1);
    }
  }

  /** Average precision is 0 when no obtained document is relevant. */
  lemma AveragePrecisionZero(obtained: seq<string>, relevant: seq<string>)
    requires relevant != []
    requires forall i :: 0 <= i < |obtained| ==> obtained[i] !in relevant
    ensures AveragePrecisionOf(obtained, relevant) == Some(0.0)
  {
    PrecisionSumNoneRelevant(obtained, relevant, |obtained|);
  }

  /** With no duplicate obtained documents, average precision is at most 1. */
  lemma AveragePrecisionAtMostOne(obtained: seq<string>, relevant: seq<string>)
    requires relevant != [] && NoDuplicates(obtained)
    ensures 0.0 <= AveragePrecisionOf(obtained, relevant).value <= 1.0
  {
    var s := PrecisionSum(obtained, relevant, |obtained|);
    PrecisionSumBounds(obtained, relevant, |obtained|);
    RelevantCountIsHits(obtained, relevant, |obtained|);
    assert obtained[..|obtained|] == obtained;
    ElemsSize(relevant);
    SubsetSize(Hits(obtained, relevant), Elems(relevant));
    RealRatio(s, |relevant| as real);
  }

  /**
   * The bound needs distinct obtained documents: obtaining "a" twice against the
   * relevant list ["a"] sums 1/1 and 1/2, an average precision of 1.5.
   */
  lemma DuplicateObtainedExceedsOne()
    ensures AveragePrecisionOf(["a", "a"], ["a"]) == Some(1.5)
  {
    var o := ["a", "a"];
    var rel := ["a"];
    assert Elems(rel) == {"a"};
    assert o[..1] == ["a"] && Elems(o[..1]) == {"a"};
    assert o[..2] == o && Elems(o) == {"a"};
    assert Hits(o[..1], rel) == {"a"};
    assert Hits(o[..2], rel) == {"a"};
    assert PrecisionSum(o, rel, 1) == 1.0;
    assert PrecisionSum(o, rel, 2) == 1.5;
  }
}
