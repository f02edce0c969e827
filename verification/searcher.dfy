/**
 * Ranking (searcher.py): the SMART term-frequency letter of `TFIDFRanking`, the BM25 formula
 * and the score fold and top-k selection of `BM25Ranking.search`.
 *
 * Numbers are reals. `log10` is a parameter. The per-posting score is a parameter too: the
 * source computes it from names it never defines (`idf`, `pub_length`, `avg_pub_length`,
 * `self.k`), so the fold is proved for every scoring function, and the BM25 formula on its own.
 */
module Searcher {
  import opened Wrappers
  import opened Strings
  import opened OrderedDict

  // ---------------------------------------------------------------------------
  // calc_frequency
  // ---------------------------------------------------------------------------

  /** What `calc_frequency` gives back. */
  datatype Frequency =
    | Weight(w: real)      // a number
    | NoWeight             // falls off the end of the function: None
    | NotImplemented       // NotImplementedError for 'a', 'b' and 'L'
    | MalformedNotation    // IndexError from `split('.')[1][0]`
    | MathDomainError      // ValueError from `log10` of a number that is not positive

  /** `smart.split('.')[1][0]`, or None where that raises IndexError. */
  function FrequencyLetter(smart: string): Option<char> {
    var parts := Split(smart, '.');
    if |parts| < 2 || parts[1] == [] then None else Some(parts[1][0])
  }

  /** `calc_frequency(term_frequency)` under the SMART notation `smart`. */
  function CalcFrequency(smart: string, tf: real, log10: real -> real): Frequency {
    match FrequencyLetter(smart)
    case None => MalformedNotation
    case Some(letter) =>
      if letter == 'n' then Weight(tf)
      else if letter == 'l' then (if tf <= 0.0 then MathDomainError else Weight(1.0 + log10(tf)))
      else if letter == 'a' || letter == 'b' || letter == 'L' then NotImplemented
      else NoWeight
  }

  /** A piece that starts with a non-separator is the first piece's first character. */
  lemma SplitFirstChar(s: string, sep: char)
    requires s != [] && s[0] != sep
    ensures Split(s, sep)[0] != [] && Split(s, sep)[0][0] == s[0]
  {
  }

  /** In a notation `ddd.qqq` the letter read is the first letter of the query part. */
  lemma FrequencyLetterOfNotation(doc: string, query: string)
    requires forall j :: 0 <= j < |doc| ==> doc[j] != '.'
    requires query != [] && query[0] != '.'
    ensures FrequencyLetter(doc + "." + query) == Some(query[0])
  {
    SplitAround(doc, query, '.');
    SplitFirstChar(query, '.');
  }

  /** A notation without a dot, or with nothing after the first dot, raises IndexError. */
  lemma FrequencyLetterMalformed(smart: string)
    requires (forall j :: 0 <= j < |smart| ==> smart[j] != '.') || (smart != [] && smart[|smart| - 1] == '.' &&
             forall j :: 0 <= j < |smart| - 1 ==> smart[j] != '.')
    ensures CalcFrequency(smart, 1.0, x => x) == MalformedNotation
  {
    if forall j :: 0 <= j < |smart| ==> smart[j] != '.' {
      SplitNoSeparator(smart, '.');
    } else {
      var doc := smart[..|smart| - 1];
      assert smart == doc + "." + [];
      SplitAround(doc, [], '.');
    }
  }

  /**
   * For a notation `ddd.qqq`: 'n' keeps the term frequency, 'l' gives `1 + log10(tf)` (a domain
   * error when tf is not positive), 'a', 'b' and 'L' are not implemented and any other letter
   * gives no weight.
   */
  lemma CalcFrequencyOfNotation(doc: string, query: string, tf: real, log10: real -> real)
    requires forall j :: 0 <= j < |doc| ==> doc[j] != '.'
    requires query != [] && query[0] != '.'
    ensures var f := CalcFrequency(doc + "." + query, tf, log10);
      (query[0] == 'n' ==> f == Weight(tf)) &&
      (query[0] == 'l' ==> f == if tf > 0.0 then Weight(1.0 + log10(tf)) else MathDomainError) &&
      (query[0] in "abL" <==> f == NotImplemented) &&
      (query[0] !in "nlabL" <==> f == NoWeight)
  {
    FrequencyLetterOfNotation(doc, query);
  }

  /** With an increasing logarithm, the 'l' weight increases with the term frequency. */
  lemma LogWeightIncreasing(smart: string, tf1: real, tf2: real, log10: real -> real)
    requires FrequencyLetter(smart) == Some('l')
    requires forall x, y :: 0.0 < x <= y ==> log10(x) <= log10(y)
    requires 0.0 < tf1 <= tf2
    ensures CalcFrequency(smart, tf1, log10).Weight? && CalcFrequency(smart, tf2, log10).Weight?
    ensures CalcFrequency(smart, tf1, log10).w <= CalcFrequency(smart, tf2, log10).w
  {
    assert log10(tf1) <= log10(tf2);
  }

  // ---------------------------------------------------------------------------
  // calculate_bm25
  // ---------------------------------------------------------------------------

  /** `k1 * (1 - b + b * (len / avg))`: the length normalisation in the denominator. */
  function LengthNorm(k1: real, b: real, len: real, avg: real): real
    requires avg != 0.0
  {
    k1 * (1.0 - b + b * (len / avg))
  }

  /** `coefficient * (nominator / denominator)` for a denominator `tf + norm`. */
  function Formula(idf: real, tf: real, k1: real, norm: real): real
    requires tf + norm != 0.0
  {
    idf * (tf * (k1 + 1.0) / (tf + norm))
  }

  /** `calculate_bm25`; None where a division by zero raises ZeroDivisionError. */
  function Bm25(idf: real, tf: real, k1: real, b: real, len: real, avg: real): Option<real> {
    if avg == 0.0 then None
    else
      var norm := LengthNorm(k1, b, len, avg);
      if tf + norm == 0.0 then None
      else Some(Formula(idf, tf, k1, norm))
  }

  /** At the average length the normalisation is `k1`, whatever `b` is. */
  lemma LengthNormAtAverage(k1: real, b: real, len: real)
    requires len != 0.0
    ensures LengthNorm(k1, b, len, len) == k1
  {
    assert len / len == 1.0;
    assert 1.0 - b + b * 1.0 == 1.0;
  }

  /** At the average length the denominator is `tf + k1`, whatever `b` is. */
  lemma Bm25AtAverageLength(idf: real, tf: real, k1: real, b: real, len: real)
    requires len != 0.0
    ensures Bm25(idf, tf, k1, b, len, len) ==
      if tf + k1 == 0.0 then None else Some(idf * (tf * (k1 + 1.0) / (tf + k1)))
  {
    LengthNormAtAverage(k1, b, len);
  }

  /** The usual parameter ranges: `k1 > 0`, `0 <= b <= 1`, positive lengths. */
  predicate UsualParameters(k1: real, b: real, len: real, avg: real) {
    k1 > 0.0 && 0.0 <= b <= 1.0 && len > 0.0 && avg > 0.0
  }

  /** Under the usual parameters the length normalisation is positive. */
  lemma LengthNormPositive(k1: real, b: real, len: real, avg: real)
    requires UsualParameters(k1, b, len, avg)
    ensures LengthNorm(k1, b, len, avg) > 0.0
  {
    var r := len / avg;
    assert r > 0.0;
    assert b * r >= 0.0;
    var f := 1.0 - b + b * r;
    if b == 0.0 {
      assert f == 1.0;
    } else {
      assert b * r > 0.0;
    }
    assert f > 0.0;
    assert k1 * f > 0.0;
  }

  /** The normalisation grows with the document length. */
  lemma LengthNormIncreasing(k1: real, b: real, len1: real, len2: real, avg: real)
    requires UsualParameters(k1, b, len1, avg) && len1 <= len2
    ensures LengthNorm(k1, b, len1, avg) <= LengthNorm(k1, b, len2, avg)
  {
    var r1, r2 := len1 / avg, len2 / avg;
    assert r1 <= r2 by {
      assert r1 * avg == len1 && r2 * avg == len2;
    }
    assert b * r1 <= b * r2;
    var f1, f2 := 1.0 - b + b * r1, 1.0 - b + b * r2;
    assert f1 <= f2;
    assert k1 * f1 <= k1 * f2;
  }

  /** A quotient is the one number that gives the dividend back when multiplied by the divisor. */
  lemma DivUnique(z: real, a: real, d: real)
    requires d != 0.0 && z * d == a
    ensures z == a / d
  {
    assert (a / d) * d == a;
    assert (z - a / d) * d == 0.0;
  }

  /** `x / (x + c)` grows with `x >= 0` when `c > 0`. */
  lemma SaturationIncreasing(x: real, y: real, c: real)
    requires 0.0 <= x <= y && c > 0.0
    ensures x / (x + c) <= y / (y + c)
  {
    SaturationComplement(x, c);
    SaturationComplement(y, c);
    InverseAntitone(c, x + c, y + c);
  }

  /** `x / (x + c) == 1 - c / (x + c)`. */
  lemma SaturationComplement(x: real, c: real)
    requires x + c != 0.0
    ensures x / (x + c) == 1.0 - c / (x + c)
  {
    var d := x + c;
    assert (c / d) * d == c;
    assert (1.0 - c / d) * d == d - c;
    DivUnique(1.0 - c / d, x, d);
  }

  /** `c / u >= c / v` for `c > 0` and `0 < u <= v`. */
  lemma InverseAntitone(c: real, u: real, v: real)
    requires c > 0.0 && 0.0 < u <= v
    ensures c / v <= c / u
  {
    var a, d := c / u, c / v;
    assert a * u == c && d * v == c;
    if d > a {
      assert d * v >= d * u;
      assert d * u > a * u;
    }
  }

  /** `x / (x + c)` shrinks as `c > 0` grows, for `x >= 0`. */
  lemma SaturationDecreasing(x: real, c1: real, c2: real)
    requires x >= 0.0 && 0.0 < c1 <= c2
    ensures x / (x + c2) <= x / (x + c1)
  {
    if x > 0.0 {
      InverseAntitone(x, x + c1, x + c2);
    }
  }

  /** `x / (x + c)` lies in [0, 1) for `x >= 0` and `c > 0`. */
  lemma SaturationBounds(x: real, c: real)
    requires x >= 0.0 && c > 0.0
    ensures 0.0 <= x / (x + c) < 1.0
  {
    var p := x / (x + c);
    assert p * (x + c) == x;
  }

  /** `tf * (k1 + 1) / (tf + c) == (k1 + 1) * (tf / (tf + c))`. */
  lemma SaturationFactor(tf: real, k1: real, c: real)
    requires tf + c != 0.0
    ensures tf * (k1 + 1.0) / (tf + c) == (k1 + 1.0) * (tf / (tf + c))
  {
    var s := tf / (tf + c);
    assert s * (tf + c) == tf;
    assert ((k1 + 1.0) * s) * (tf + c) == (k1 + 1.0) * (s * (tf + c)) == tf * (k1 + 1.0);
    DivUnique((k1 + 1.0) * s, tf * (k1 + 1.0), tf + c);
  }

  /** With a positive normalisation `c`, the formula does not decrease when tf grows. */
  lemma FormulaIncreasingInTf(idf: real, k1: real, c: real, tf1: real, tf2: real)
    requires idf >= 0.0 && k1 > 0.0 && c > 0.0 && 0.0 <= tf1 <= tf2
    ensures Formula(idf, tf1, k1, c) <= Formula(idf, tf2, k1, c)
  {
    SaturationFactor(tf1, k1, c);
    SaturationFactor(tf2, k1, c);
    SaturationIncreasing(tf1, tf2, c);
    ScaleMonotone(k1 + 1.0, tf1 / (tf1 + c), tf2 / (tf2 + c));
    ScaleMonotone(idf, tf1 * (k1 + 1.0) / (tf1 + c), tf2 * (k1 + 1.0) / (tf2 + c));
  }

  /** The formula does not increase when the normalisation grows. */
  lemma FormulaDecreasingInNorm(idf: real, k1: real, tf: real, c1: real, c2: real)
    requires idf >= 0.0 && k1 > 0.0 && tf >= 0.0 && 0.0 < c1 <= c2
    ensures Formula(idf, tf, k1, c2) <= Formula(idf, tf, k1, c1)
  {
    SaturationFactor(tf, k1, c1);
    SaturationFactor(tf, k1, c2);
    SaturationDecreasing(tf, c1, c2);
    ScaleMonotone(k1 + 1.0, tf / (tf + c2), tf / (tf + c1));
    ScaleMonotone(idf, tf * (k1 + 1.0) / (tf + c2), tf * (k1 + 1.0) / (tf + c1));
  }

  /** The formula lies between 0 and `idf * (k1 + 1)`. */
  lemma FormulaBounds(idf: real, k1: real, tf: real, c: real)
    requires idf >= 0.0 && k1 > 0.0 && tf >= 0.0 && c > 0.0
    ensures 0.0 <= Formula(idf, tf, k1, c) <= idf * (k1 + 1.0)
  {
    SaturationFactor(tf, k1, c);
    SaturationBounds(tf, c);
    ScaleMonotone(k1 + 1.0, 0.0, tf / (tf + c));
    ScaleMonotone(k1 + 1.0, tf / (tf + c), 1.0);
    ScaleMonotone(idf, 0.0, tf * (k1 + 1.0) / (tf + c));
    ScaleMonotone(idf, tf * (k1 + 1.0) / (tf + c), k1 + 1.0);
  }

  /** Under the usual parameters and a non-negative idf, BM25 is defined and lies in [0, idf * (k1 + 1)]. */
  lemma Bm25Bounds(idf: real, tf: real, k1: real, b: real, len: real, avg: real)
    requires idf >= 0.0 && tf >= 0.0 && UsualParameters(k1, b, len, avg)
    ensures Bm25(idf, tf, k1, b, len, avg).Some?
    ensures 0.0 <= Bm25(idf, tf, k1, b, len, avg).value <= idf * (k1 + 1.0)
  {
    LengthNormPositive(k1, b, len, avg);
    FormulaBounds(idf, k1, tf, LengthNorm(k1, b, len, avg));
  }

  /** Under the usual parameters and a non-negative idf, BM25 does not decrease when tf grows. */
  lemma Bm25IncreasingInTf(idf: real, tf1: real, tf2: real, k1: real, b: real, len: real, avg: real)
    requires idf >= 0.0 && 0.0 <= tf1 <= tf2 && UsualParameters(k1, b, len, avg)
    ensures Bm25(idf, tf1, k1, b, len, avg).Some? && Bm25(idf, tf2, k1, b, len, avg).Some?
    ensures Bm25(idf, tf1, k1, b, len, avg).value <= Bm25(idf, tf2, k1, b, len, avg).value
  {
    LengthNormPositive(k1, b, len, avg);
    FormulaIncreasingInTf(idf, k1, LengthNorm(k1, b, len, avg), tf1, tf2);
  }

  /** Under the usual parameters and a non-negative idf, BM25 does not increase when the document gets longer. */
  lemma Bm25DecreasingInLength(idf: real, tf: real, k1: real, b: real, len1: real, len2: real, avg: real)
    requires idf >= 0.0 && tf >= 0.0 && UsualParameters(k1, b, len1, avg) && len1 <= len2
    ensures Bm25(idf, tf, k1, b, len1, avg).Some? && Bm25(idf, tf, k1, b, len2, avg).Some?
    ensures Bm25(idf, tf, k1, b, len2, avg).value <= Bm25(idf, tf, k1, b, len1, avg).value
  {
    LengthNormPositive(k1, b, len1, avg);
    LengthNormPositive(k1, b, len2, avg);
    LengthNormIncreasing(k1, b, len1, len2, avg);
    FormulaDecreasingInNorm(idf, k1, tf, LengthNorm(k1, b, len1, avg), LengthNorm(k1, b, len2, avg));
  }

  /** Scaling by a non-negative factor keeps the order. */
  lemma ScaleMonotone(w: real, a: real, b: real)
    requires w >= 0.0 && a <= b
    ensures w * a <= w * b
  {
    assert w * b - w * a == w * (b - a);
  }

  // ---------------------------------------------------------------------------
  // The score fold of BM25Ranking.search
  // ---------------------------------------------------------------------------

  /** `query_tokens`: token -> its count in the query. */
  type QueryTokens = Dict<string, int>

  /** What `index.search_token` gives for a token: pub id -> term frequency. */
  type Postings = Dict<string, real>

  /** `pub_scores`: pub id -> score, in the order pubs were first scored. */
  type Scores = Dict<string, real>

  /** The per-posting score: token, pub id and term frequency to a number. */
  type ScoreFn = (string, string, real) -> real

  /** The postings the loop goes through: `if not postings_list: continue` treats None like an empty dict. */
  function Hits(lookup: string -> Option<Postings>, token: string): Postings {
    match lookup(token)
    case None => []
    case Some(p) => p
  }

  /** `pub_scores[pub] = s` for a new pub, `pub_scores[pub] += s` for a known one: a new pub starts from 0. */
  function AddScore(scores: Scores, pub: string, s: real): Scores {
    Put(scores, pub, Get(scores, pub).GetOr(0.0) + s)
  }

  /** What one posting of a query token adds: pub id and term frequency to a score. */
  type Gain = (string, real) -> real

  /** `score * query_token_tf`: the per-posting score of query token `t`, times its count in the query. */
  function TokenGain(score: ScoreFn, t: Entry<string, int>): Gain {
    (pub, tf) => score(t.key, pub, tf) * t.value as real
  }

  /** The inner loop after the first `n` postings of one query token. */
  function ScorePostings(scores: Scores, postings: Postings, gain: Gain, n: nat): Scores
    requires n <= |postings|
  {
    if n == 0 then scores
    else
      var e := postings[n - 1];
      AddScore(ScorePostings(scores, postings, gain, n - 1), e.key, gain(e.key, e.value))
  }

  /** `pub_scores` after the first `n` query tokens. */
  function ScoreTokens(query: QueryTokens, lookup: string -> Option<Postings>, score: ScoreFn, n: nat): Scores
    requires n <= |query|
  {
    if n == 0 then []
    else
      var prev := ScoreTokens(query, lookup, score, n - 1);
      var t := query[n - 1];
      var hits := Hits(lookup, t.key);
      if hits == [] then prev else ScorePostings(prev, hits, TokenGain(score, t), |hits|)
  }

  /** One step of the outer loop, for a token with postings. */
  lemma ScoreTokensStep(query: QueryTokens, lookup: string -> Option<Postings>, score: ScoreFn, n: nat)
    requires 0 < n <= |query| && Hits(lookup, query[n - 1].key) != []
    ensures ScoreTokens(query, lookup, score, n) ==
      ScorePostings(ScoreTokens(query, lookup, score, n - 1), Hits(lookup, query[n - 1].key), TokenGain(score, query[n - 1]), |Hits(lookup, query[n - 1].key)|)
  {
  }

  /** What query token `t` adds to `pub`'s score: the pub's score in its postings times the token's count. */
  function TokenContribution(t: Entry<string, int>, lookup: string -> Option<Postings>, score: ScoreFn, pub: string): real {
    match Get(Hits(lookup, t.key), pub)
    case None => 0.0
    case Some(tf) => TokenGain(score, t)(pub, tf)
  }

  /** The sum of the contributions of the first `n` query tokens to `pub`. */
  function Contribution(query: QueryTokens, lookup: string -> Option<Postings>, score: ScoreFn, pub: string, n: nat): real
    requires n <= |query|
  {
    if n == 0 then 0.0 else Contribution(query, lookup, score, pub, n - 1) + TokenContribution(query[n - 1], lookup, score, pub)
  }

  /** Some of the first `n` query tokens has `pub` among its postings. */
  predicate Mentioned(query: QueryTokens, lookup: string -> Option<Postings>, pub: string, n: nat)
    requires n <= |query|
  {
    n > 0 && (Mentioned(query, lookup, pub, n - 1) || Get(Hits(lookup, query[n - 1].key), pub).Some?)
  }

  /** The postings of each of the first `n` query tokens form a proper dict. */
  predicate ProperHits(query: QueryTokens, lookup: string -> Option<Postings>, n: nat)
    requires n <= |query|
  {
    n == 0 || (ProperHits(query, lookup, n - 1) && DistinctKeys(Hits(lookup, query[n - 1].key)))
  }

  /** `pub`'s score after crediting it with the gain of the posting `found` for it, if there is one. */
  function Credit(scores: Scores, pub: string, found: Option<real>, gain: Gain): Option<real> {
    match found
    case None => Get(scores, pub)
    case Some(tf) => Some(Get(scores, pub).GetOr(0.0) + gain(pub, tf))
  }

  /**
   * The inner loop over the first `n` postings adds the gain of `pub`'s posting among them, if
   * it has one, to `pub`'s score (a new pub starting from 0), and leaves every other pub alone.
   */
  lemma {:induction false} ScorePostingsGet(scores: Scores, postings: Postings, gain: Gain, n: nat, pub: string)
    requires n <= |postings| && DistinctKeys(postings)
    ensures Get(ScorePostings(scores, postings, gain, n), pub) == Credit(scores, pub, Get(postings[..n], pub), gain)
  {
    if n > 0 {
      ScorePostingsGet(scores, postings, gain, n - 1, pub);
      var e := postings[n - 1];
      assert postings[..n] == postings[..n - 1] + [e];
      GetAppend(postings[..n - 1], e, pub);
      GetFinds(postings[..n - 1], pub);
      if e.key == pub {
        KeyNotBefore(postings, n - 1);
      }
    }
  }

  /** The whole inner loop: `pub`'s posting, if any, is added to its score. */
  lemma ScorePostingsAllGet(scores: Scores, postings: Postings, gain: Gain, pub: string)
    requires DistinctKeys(postings)
    ensures Get(ScorePostings(scores, postings, gain, |postings|), pub) == Credit(scores, pub, Get(postings, pub), gain)
  {
    ScorePostingsGet(scores, postings, gain, |postings|, pub);
    TakeAllGet(postings, pub);
  }

  lemma TakeAllGet(postings: Postings, pub: string)
    ensures Get(postings[..|postings|], pub) == Get(postings, pub)
  {
    assert postings[..|postings|] == postings;
  }

  /** One query token: `pub`'s posting for it, if any, scaled by the token's count, is added to its score. */
  lemma TokenStepGet(query: QueryTokens, lookup: string -> Option<Postings>, score: ScoreFn, n: nat, pub: string)
    requires 0 < n <= |query| && ProperHits(query, lookup, n)
    ensures Get(ScoreTokens(query, lookup, score, n), pub) ==
      Credit(ScoreTokens(query, lookup, score, n - 1), pub, Get(Hits(lookup, query[n - 1].key), pub), TokenGain(score, query[n - 1]))
  {
    var hits := Hits(lookup, query[n - 1].key);
    if hits != [] {
      ScoreTokensStep(query, lookup, score, n);
      ScorePostingsAllGet(ScoreTokens(query, lookup, score, n - 1), hits, TokenGain(score, query[n - 1]), pub);
    }
  }

  /** A pub that no query token's postings hold has contributed nothing. */
  lemma {:induction false} UnmentionedContribution(query: QueryTokens, lookup: string -> Option<Postings>, score: ScoreFn, pub: string, n: nat)
    requires n <= |query| && !Mentioned(query, lookup, pub, n)
    ensures Contribution(query, lookup, score, pub, n) == 0.0
  {
    if n > 0 {
      UnmentionedContribution(query, lookup, score, pub, n - 1);
    }
  }

  /**
   * Each pub's final score is the sum, over the query tokens whose postings hold it, of its
   * per-posting score times the token's count; a pub in no postings list gets no entry. So a
   * token whose postings are None or empty contributes nothing.
   */
  lemma {:induction false} ScoreTokensIsSum(query: QueryTokens, lookup: string -> Option<Postings>, score: ScoreFn, n: nat, pub: string)
    requires n <= |query| && ProperHits(query, lookup, n)
    ensures Get(ScoreTokens(query, lookup, score, n), pub) ==
      if Mentioned(query, lookup, pub, n) then Some(Contribution(query, lookup, score, pub, n)) else None
  {
    if n > 0 {
      ScoreTokensIsSum(query, lookup, score, n - 1, pub);
      if !Mentioned(query, lookup, pub, n - 1) {
        UnmentionedContribution(query, lookup, score, pub, n - 1);
      }
      TokenStepGet(query, lookup, score, n, pub);
    }
  }

  /** The fold keeps `pub_scores` a proper dict. */
  lemma {:induction false} ScoreTokensDistinct(query: QueryTokens, lookup: string -> Option<Postings>, score: ScoreFn, n: nat)
    requires n <= |query|
    ensures DistinctKeys(ScoreTokens(query, lookup, score, n))
  {
    if n > 0 {
      ScoreTokensDistinct(query, lookup, score, n - 1);
      var t := query[n - 1];
      var hits := Hits(lookup, t.key);
      ScorePostingsDistinct(ScoreTokens(query, lookup, score, n - 1), hits, TokenGain(score, t), |hits|);
    }
  }

  lemma {:induction false} ScorePostingsDistinct(scores: Scores, postings: Postings, gain: Gain, n: nat)
    requires n <= |postings| && DistinctKeys(scores)
    ensures DistinctKeys(ScorePostings(scores, postings, gain, n))
  {
    if n > 0 {
      ScorePostingsDistinct(scores, postings, gain, n - 1);
      var e := postings[n - 1];
      AddScoreDistinct(ScorePostings(scores, postings, gain, n - 1), e.key, gain(e.key, e.value));
    }
  }

  lemma AddScoreDistinct(scores: Scores, pub: string, s: real)
    requires DistinctKeys(scores)
    ensures DistinctKeys(AddScore(scores, pub, s))
  {
    PutDistinct(scores, pub, Get(scores, pub).GetOr(0.0) + s);
  }

  // ---------------------------------------------------------------------------
  // heapq.nlargest(top_k, pub_scores.keys(), key=pub_scores.get)
  // ---------------------------------------------------------------------------

  /** Scores in non-increasing order. */
  predicate Descending(s: Scores) {
    forall i, j :: 0 <= i < j < |s| ==> s[i].value >= s[j].value
  }

  /** Insert `e` before the first entry it is not below: ties keep `e` first. */
  function InsertByScore(e: Entry<string, real>, s: Scores): Scores
    decreases |s|
  {
    if s == [] then [e]
    else if e.value >= s[0].value then [e] + s
    else [s[0]] + InsertByScore(e, s[1..])
  }

  /** Inserting adds `e` to the entries. */
  lemma {:induction false} InsertByScorePermutes(e: Entry<string, real>, s: Scores)
    ensures multiset(InsertByScore(e, s)) == multiset(s) + multiset{e}
    decreases |s|
  {
    if s != [] && e.value < s[0].value {
      InsertByScorePermutes(e, s[1..]);
      assert s == [s[0]] + s[1..];
    }
  }

  /** Inserting keeps the entries in non-increasing score order. */
  lemma {:induction false} InsertByScoreDescending(e: Entry<string, real>, s: Scores)
    requires Descending(s)
    ensures Descending(InsertByScore(e, s))
    decreases |s|
  {
    if s != [] && e.value < s[0].value {
      var rest := InsertByScore(e, s[1..]);
      InsertByScoreDescending(e, s[1..]);
      InsertByScorePermutes(e, s[1..]);
      forall j | 0 <= j < |rest| ensures s[0].value >= rest[j].value {
        assert rest[j] in multiset(rest);
        if rest[j] != e {
          assert rest[j] in multiset(s[1..]);
          var k :| 0 <= k < |s[1..]| && s[1..][k] == rest[j];
          assert s[k + 1] == rest[j];
        }
      }
      assert InsertByScore(e, s) == [s[0]] + rest;
    }
  }

  /**
   * `sorted(pub_scores.items(), key=score, reverse=True)`: descending by score, and a stable sort,
   * so pubs with equal scores keep the order they were first scored in.
   */
  function SortByScore(s: Scores): Scores
    decreases |s|
  {
    if s == [] then [] else InsertByScore(s[0], SortByScore(s[1..]))
  }

  /** The sort returns the same entries, in non-increasing score order. */
  lemma {:induction false} SortByScoreSorts(s: Scores)
    ensures multiset(SortByScore(s)) == multiset(s)
    ensures Descending(SortByScore(s))
    decreases |s|
  {
    if s != [] {
      var rest := SortByScore(s[1..]);
      SortByScoreSorts(s[1..]);
      InsertByScorePermutes(s[0], rest);
      InsertByScoreDescending(s[0], rest);
      assert SortByScore(s) == InsertByScore(s[0], rest);
      assert multiset(s) == multiset(s[1..]) + multiset{s[0]} by {
        assert s == [s[0]] + s[1..];
      }
    }
  }

  /** `nlargest(top_k, ...)`: the first `top_k` pubs by score; none for a `top_k` below 1. */
  function NLargest(topK: int, scores: Scores): seq<string> {
    var sorted := SortByScore(scores);
    var n := if topK <= 0 then 0 else if topK < |sorted| then topK else |sorted|;
    Keys(sorted)[..n]
  }

  /** The number of results: `top_k`, or every scored pub when there are fewer. */
  function ResultSize(topK: int, count: nat): nat {
    if topK <= 0 then 0 else if topK < count then topK else count
  }

  lemma {:induction false} DistinctKeysCount(s: Scores, e: Entry<string, real>)
    requires DistinctKeys(s)
    ensures multiset(s)[e] <= 1
    decreases |s|
  {
    if s != [] {
      assert s == [s[0]] + s[1..];
      DistinctKeysCount(s[1..], e);
      if e == s[0] {
        assert e !in s[1..];
      }
    }
  }

  /** Sorting a proper dict by score keeps its keys distinct, and every entry stays the dict's entry. */
  lemma SortedEntries(scores: Scores)
    requires DistinctKeys(scores)
    ensures var sorted := SortByScore(scores);
      |sorted| == |scores| && Descending(sorted) && DistinctKeys(sorted) &&
      forall i :: 0 <= i < |sorted| ==> sorted[i].key in Keys(scores) && Get(scores, sorted[i].key) == Some(sorted[i].value)
  {
    var sorted := SortByScore(scores);
    SortByScoreSorts(scores);
    assert |sorted| == |multiset(sorted)| == |multiset(scores)| == |scores|;
    forall i | 0 <= i < |sorted|
      ensures sorted[i].key in Keys(scores) && Get(scores, sorted[i].key) == Some(sorted[i].value)
    {
      assert sorted[i] in multiset(scores);
      var k :| 0 <= k < |scores| && scores[k] == sorted[i];
      assert Keys(scores)[k] == sorted[i].key;
      GetAt(scores, k);
    }
    forall i, j | 0 <= i < j < |sorted| ensures sorted[i].key != sorted[j].key {
      if sorted[i].key == sorted[j].key {
        assert Get(scores, sorted[i].key) == Some(sorted[i].value) == Some(sorted[j].value);
        assert sorted[i] == sorted[j];
        RepeatCount(sorted, i, j);
        DistinctKeysCount(scores, sorted[i]);
      }
    }
  }

  /**
   * The result of `nlargest`: `min(top_k, n)` distinct scored pubs (none when `top_k < 1`), in
   * non-increasing score order, and no scored pub left out scores above one returned.
   */
  lemma NLargestShape(topK: int, scores: Scores)
    requires DistinctKeys(scores)
    ensures var top := NLargest(topK, scores);
      |top| == ResultSize(topK, |scores|) &&
      (forall i :: 0 <= i < |top| ==> top[i] in Keys(scores)) &&
      (forall i, j :: 0 <= i < j < |top| ==> top[i] != top[j]) &&
      (forall i, j :: 0 <= i < j < |top| ==> Get(scores, top[i]).GetOr(0.0) >= Get(scores, top[j]).GetOr(0.0)) &&
      (forall k, i :: k in Keys(scores) && k !in top && 0 <= i < |top| ==>
         Get(scores, k).GetOr(0.0) <= Get(scores, top[i]).GetOr(0.0))
  {
    var sorted := SortByScore(scores);
    SortedEntries(scores);
    var top := NLargest(topK, scores);
    var n := |top|;
    assert forall i :: 0 <= i < n ==> top[i] == sorted[i].key;
    forall k, i | k in Keys(scores) && k !in top && 0 <= i < n
      ensures Get(scores, k).GetOr(0.0) <= Get(scores, top[i]).GetOr(0.0)
    {
      var m := KeyPosition(scores, sorted, k);
      assert Keys(sorted)[m] == k;
      assert sorted[i].value >= sorted[m].value;
    }
  }

  /** Every key of a proper dict has a place in its sorted version. */
  lemma KeyPosition(scores: Scores, sorted: Scores, k: string) returns (m: nat)
    requires DistinctKeys(scores) && sorted == SortByScore(scores) && k in Keys(scores)
    ensures m < |sorted| && sorted[m].key == k && Get(scores, k) == Some(sorted[m].value)
  {
    SortByScoreSorts(scores);
    var j :| 0 <= j < |scores| && Keys(scores)[j] == k;
    assert scores[j] in multiset(sorted);
    m :| 0 <= m < |sorted| && sorted[m] == scores[j];
    GetAt(scores, j);
  }

  // ---------------------------------------------------------------------------
  // BM25Ranking.search
  // ---------------------------------------------------------------------------

  /**
   * `BM25Ranking.search(index, query_tokens, top_k)`: folds the scaled per-posting scores of every
   * query token into `pub_scores` and returns the `top_k` best pubs. `lookup` stands for
   * `index.search_token` and `score` for the per-posting `calculate_bm25` call.
   */
  method Search(query: QueryTokens, lookup: string -> Option<Postings>, score: ScoreFn, topK: int) returns (top: seq<string>)
    ensures top == NLargest(topK, ScoreTokens(query, lookup, score, |query|))
  {
    var pubScores: Scores := [];
    var i := 0;
    while i < |query|
      invariant 0 <= i <= |query|
      invariant pubScores == ScoreTokens(query, lookup, score, i)
    {
      var postingsList := lookup(query[i].key);
      if postingsList.None? || postingsList.value == [] {
        assert Hits(lookup, query[i].key) == [];
        ScoreTokensSkip(query, lookup, score, i + 1);
        i := i + 1;
        continue;
      }
      assert Hits(lookup, query[i].key) == postingsList.value;
      pubScores := ScoreToken(pubScores, query[i], postingsList.value, score);
      ScoreTokensStep(query, lookup, score, i + 1);
      i := i + 1;
    }
    top := NLargest(topK, pubScores);
  }

  /** The inner loop of `search`: adds `score * query_token_tf` of each posting of query token `t` to its pub. */
  method ScoreToken(pubScores: Scores, t: Entry<string, int>, postings: Postings, score: ScoreFn) returns (r: Scores)
    ensures r == ScorePostings(pubScores, postings, TokenGain(score, t), |postings|)
  {
    var token, tokenTf := t.key, t.value;
    ghost var gain := TokenGain(score, t);
    r := pubScores;
    var j := 0;
    while j < |postings|
      invariant 0 <= j <= |postings|
      invariant r == ScorePostings(pubScores, postings, gain, j)
    {
      var pub, tf := postings[j].key, postings[j].value;
      var s := score(token, pub, tf);
      assert gain(pub, tf) == s * tokenTf as real;
      AddScoreCases(r, pub, s * tokenTf as real);
      if pub !in Keys(r) {
        r := Put(r, pub, s * tokenTf as real);
      } else {
        r := Put(r, pub, Get(r, pub).value + s * tokenTf as real);
      }
      j := j + 1;
    }
  }

  /** `pub_scores[pub] = s` when `pub not in pub_scores`, else `pub_scores[pub] += s`. */
  lemma AddScoreCases(scores: Scores, pub: string, s: real)
    ensures pub !in Keys(scores) ==> AddScore(scores, pub, s) == Put(scores, pub, s)
    ensures pub in Keys(scores) ==> Get(scores, pub).Some? && AddScore(scores, pub, s) == Put(scores, pub, Get(scores, pub).value + s)
  {
    GetFinds(scores, pub);
  }

  /** A token whose postings are None or empty leaves the scores as they are. */
  lemma ScoreTokensSkip(query: QueryTokens, lookup: string -> Option<Postings>, score: ScoreFn, n: nat)
    requires 0 < n <= |query| && Hits(lookup, query[n - 1].key) == []
    ensures ScoreTokens(query, lookup, score, n) == ScoreTokens(query, lookup, score, n - 1)
  {
  }
}
