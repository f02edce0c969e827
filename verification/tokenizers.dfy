/**
 * PubMedTokenizer: turns the terms of one publication into the token map the
 * indexer consumes, `{token: {pub_id: [positions]}}`.
 *
 * A term is lower-cased, every character outside `[a-zA-Z\d\s-]` becomes a space
 * and leading hyphens are stripped. A filtered term that is empty, blank, shorter
 * than `minL` or a stopword is dropped. A term the filter left as it was (apart
 * from lower-casing) is emitted once; a term the filter changed is split on
 * single spaces and its pieces that pass the piece test are emitted one by one.
 * Every emitted token goes through the stemmer when one is configured.
 * Positions count emitted tokens.
 *
 * The piece test is a parameter of the filtering functions: `AsWritten` is the
 * test of the source, which `tokenize` uses; `Intended` is the corrected test
 * that also rejects stopwords.
 */
module Tokenizers {
  import opened Wrappers
  import opened Strings
  import opened OrderedDict

  /** The settings `tokenize` reads: `minL`, the stopword set and the stemmer (None when no stemmer is configured). */
  datatype Tokenizer = Tokenizer(minL: int, stopwords: set<string>, stem: Option<string -> string>)

  /** The constructor's `minL if minL else 0`: a missing or zero minimum length becomes 0. */
  function NewTokenizer(minL: Option<int>, stopwords: set<string>, stem: Option<string -> string>): (tk: Tokenizer)
    ensures minL.None? ==> tk.minL == 0
    ensures minL.Some? ==> tk.minL == minL.value
    ensures tk.stopwords == stopwords && tk.stem == stem
  {
    Tokenizer(minL.GetOr(0), stopwords, stem)
  }

  // ---------------------------------------------------------------------------
  // The character filter: lower(), re.sub('[^a-zA-Z\d\s-]', ' ', ...), lstrip('-')
  // ---------------------------------------------------------------------------

  /** `c.lower()` on ASCII letters. */
  function Lower(c: char): char {
    if 'A' <= c <= 'Z' then (c as int + 32) as char else c
  }

  /** `term.lower()`. */
  function LowerStr(s: string): string {
    seq(|s|, i requires 0 <= i < |s| => Lower(s[i]))
  }

  /** Membership in the regex class `[a-zA-Z\d\s-]`. */
  predicate InClass(c: char) {
    'a' <= c <= 'z' || 'A' <= c <= 'Z' || '0' <= c <= '9' || IsSpace(c) || c == '-'
  }

  /** What a filtered term is made of: lower-case letters, digits, whitespace and hyphens. */
  predicate Filtered(c: char) {
    'a' <= c <= 'z' || '0' <= c <= '9' || IsSpace(c) || c == '-'
  }

  /** `re.sub('[^a-zA-Z\d\s-]', ' ', s)`: every character outside the class becomes a space. */
  function ReplaceOthers(s: string): string {
    seq(|s|, i requires 0 <= i < |s| => if InClass(s[i]) then s[i] else ' ')
  }

  /** `s.lstrip('-')`. */
  function LStripHyphens(s: string): string
    decreases |s|
  {
    if s != [] && s[0] == '-' then LStripHyphens(s[1..]) else s
  }

  /** `lstrip('-')` leaves the suffix after the leading hyphens, and that suffix does not start with a hyphen. */
  lemma {:induction false} LStripHyphensSuffix(s: string)
    ensures |LStripHyphens(s)| <= |s| && LStripHyphens(s) == s[|s| - |LStripHyphens(s)|..]
    ensures LStripHyphens(s) == [] || LStripHyphens(s)[0] != '-'
    ensures forall i :: 0 <= i < |s| - |LStripHyphens(s)| ==> s[i] == '-'
    decreases |s|
  {
    if s != [] && s[0] == '-' {
      LStripHyphensSuffix(s[1..]);
    }
  }

  /** The filtered form of a term. */
  function Filter(term: string): string {
    LStripHyphens(ReplaceOthers(LowerStr(term)))
  }

  // ---------------------------------------------------------------------------
  // Which terms and pieces survive
  // ---------------------------------------------------------------------------

  /** A filtered term that is empty, blank, shorter than `minL` or a stopword is skipped. */
  predicate Dropped(tk: Tokenizer, f: string) {
    f == "" || Blank(f) || |f| < tk.minL || f in tk.stopwords
  }

  /**
   * The piece test as written: `p and p.strip() != "" and len(p) > minL or p in stopwords`.
   * Its `or p in stopwords` clause keeps every stopword piece; `and p not in stopwords` is meant.
   */
  predicate KeepPieceAsWritten(tk: Tokenizer, p: string) {
    (p != "" && !Blank(p) && |p| > tk.minL) || p in tk.stopwords
  }

  /** The piece test as evidently intended: non-empty, not blank, longer than `minL` and not a stopword. */
  predicate KeepPiece(tk: Tokenizer, p: string) {
    p != "" && !Blank(p) && |p| > tk.minL && p !in tk.stopwords
  }

  /** Which piece test the filtering applies. */
  datatype PieceTest = AsWritten | Intended

  predicate Keeps(tk: Tokenizer, test: PieceTest, p: string) {
    match test
    case AsWritten => KeepPieceAsWritten(tk, p)
    case Intended => KeepPiece(tk, p)
  }

  /** `stemmer_obj.stem(t) if stemmer else t`. */
  function Stem(tk: Tokenizer, t: string): string {
    match tk.stem
    case None => t
    case Some(stem) => stem(t)
  }

  /** The stemmed pieces among the first n that pass the piece test, in order. */
  function KeptPieces(tk: Tokenizer, test: PieceTest, pieces: seq<string>, n: nat): seq<string>
    requires n <= |pieces|
  {
    if n == 0 then []
    else KeptPieces(tk, test, pieces, n - 1) + (if Keeps(tk, test, pieces[n - 1]) then [Stem(tk, pieces[n - 1])] else [])
  }

  /** The tokens one term contributes to `filtered_terms`. */
  function TermTokens(tk: Tokenizer, test: PieceTest, term: string): seq<string> {
    var lower := LowerStr(term);
    var f := Filter(term);
    if Dropped(tk, f) then []
    else if lower != f then
      var pieces := Split(f, ' ');
      KeptPieces(tk, test, pieces, |pieces|)
    else [Stem(tk, f)]
  }

  /** `filtered_terms` after the first n terms. */
  function FilteredTerms(tk: Tokenizer, test: PieceTest, terms: seq<string>, n: nat): seq<string>
    requires n <= |terms|
  {
    if n == 0 then [] else FilteredTerms(tk, test, terms, n - 1) + TermTokens(tk, test, terms[n - 1])
  }

  // ---------------------------------------------------------------------------
  // The token map
  // ---------------------------------------------------------------------------

  /** `{token: {pub_id: [positions]}}`, in order of first occurrence. */
  type Tokens = Dict<string, Dict<string, seq<int>>>

  /** The positions among the first n tokens where `t` stands, in increasing order. */
  function PositionsOf(ft: seq<string>, t: string, n: nat): (ps: seq<int>)
    requires n <= |ft|
    ensures forall i :: i in ps <==> 0 <= i < n && ft[i] == t
    ensures forall a, b :: 0 <= a < b < |ps| ==> ps[a] < ps[b]
  {
    if n == 0 then []
    else
      var prev := PositionsOf(ft, t, n - 1);
      if ft[n - 1] == t then
        assert forall a :: 0 <= a < |prev| ==> prev[a] in prev;
        prev + [n - 1]
      else prev
  }

  /** The token map after enumerating the first n tokens. */
  function BuildTokens(pubId: string, ft: seq<string>, n: nat): Tokens
    requires n <= |ft|
  {
    if n == 0 then []
    else
      var prev := BuildTokens(pubId, ft, n - 1);
      Put(prev, ft[n - 1], Occurrence(pubId, prev, ft[n - 1], n - 1))
  }

  /**
   * What `tokens[token]` becomes when the token is met at position i:
   * `{pub_id: [i]}` for a new token, otherwise `tokens[token][pub_id] += [i]`.
   */
  function Occurrence(pubId: string, tokens: Tokens, token: string, i: int): Dict<string, seq<int>> {
    if token !in Keys(tokens) then [Entry(pubId, [i])]
    else
      var inner := Get(tokens, token).GetOr([]);
      Put(inner, pubId, Get(inner, pubId).GetOr([]) + [i])
  }

  /** What the map holds for a token: nothing if it never occurs, else the single key `pubId` with all its positions. */
  function TokenEntry(pubId: string, ft: seq<string>, t: string, n: nat): Option<Dict<string, seq<int>>>
    requires n <= |ft|
  {
    var ps := PositionsOf(ft, t, n);
    if ps == [] then None else Some([Entry(pubId, ps)])
  }

  /** Every token maps to `{pubId: positions}`, the positions being exactly where the token stands. */
  lemma {:induction false} BuildTokensGet(pubId: string, ft: seq<string>, n: nat, t: string)
    requires n <= |ft|
    ensures Get(BuildTokens(pubId, ft, n), t) == TokenEntry(pubId, ft, t, n)
  {
    if n > 0 {
      BuildTokensGet(pubId, ft, n - 1, t);
      var prev := BuildTokens(pubId, ft, n - 1);
      var token := ft[n - 1];
      GetFinds(prev, token);
      var ps := PositionsOf(ft, t, n - 1);
      if token != t {
        assert PositionsOf(ft, t, n) == ps;
      } else if token !in Keys(prev) {
        assert ps == [];
        assert PositionsOf(ft, t, n) == [n - 1];
      } else {
        assert ps != [];
        assert PositionsOf(ft, t, n) == ps + [n - 1];
        assert Get(prev, t) == Some([Entry(pubId, ps)]);
        assert Get([Entry(pubId, ps)], pubId) == Some(ps);
        assert Put([Entry(pubId, ps)], pubId, ps + [n - 1]) == [Entry(pubId, ps + [n - 1])];
      }
    }
  }

  /** The map is a dict: no token occurs twice as a key. */
  lemma {:induction false} BuildTokensDistinct(pubId: string, ft: seq<string>, n: nat)
    requires n <= |ft|
    ensures DistinctKeys(BuildTokens(pubId, ft, n))
  {
    if n > 0 {
      BuildTokensDistinct(pubId, ft, n - 1);
      var prev := BuildTokens(pubId, ft, n - 1);
      var v := Occurrence(pubId, prev, ft[n - 1], n - 1);
      PutDistinct(prev, ft[n - 1], v);
      assert BuildTokens(pubId, ft, n) == Put(prev, ft[n - 1], v);
    }
  }

  /** The keys are exactly the tokens that occur. */
  lemma BuildTokensKeys(pubId: string, ft: seq<string>, t: string)
    ensures t in Keys(BuildTokens(pubId, ft, |ft|)) <==> t in ft
  {
    BuildTokensGet(pubId, ft, |ft|, t);
    GetFinds(BuildTokens(pubId, ft, |ft|), t);
    var ps := PositionsOf(ft, t, |ft|);
    if t in ft {
      var i :| 0 <= i < |ft| && ft[i] == t;
      assert i in ps;
    }
    if ps != [] {
      assert ps[0] in ps;
    }
  }

  // ---------------------------------------------------------------------------
  // tokenize
  // ---------------------------------------------------------------------------

  /** `PubMedTokenizer.tokenize(pub_id, terms)`: the filter loop, then the enumeration into the map. */
  method Tokenize(tk: Tokenizer, pubId: string, terms: seq<string>) returns (tokens: Tokens)
    ensures tokens == BuildTokens(pubId, FilteredTerms(tk, AsWritten, terms, |terms|), |FilteredTerms(tk, AsWritten, terms, |terms|)|)
    ensures DistinctKeys(tokens)
    ensures forall t :: Get(tokens, t) == TokenEntry(pubId, FilteredTerms(tk, AsWritten, terms, |terms|), t, |FilteredTerms(tk, AsWritten, terms, |terms|)|)
    ensures terms == [] ==> tokens == []
  {
    var filtered := FilterTerms(tk, terms);
    tokens := EnumerateTokens(pubId, filtered);
    TokenMap(pubId, filtered);
  }

  /** The first loop of `tokenize`: builds `filtered_terms`. */
  method FilterTerms(tk: Tokenizer, terms: seq<string>) returns (filtered: seq<string>)
    ensures filtered == FilteredTerms(tk, AsWritten, terms, |terms|)
  {
    filtered := [];
    for k := 0 to |terms|
      invariant filtered == FilteredTerms(tk, AsWritten, terms, k)
    {
      filtered := AppendTermTokens(tk, filtered, terms[k]);
    }
  }

  /** One turn of the first loop: filters `term` and appends what it contributes (nothing when it is skipped). */
  method AppendTermTokens(tk: Tokenizer, filtered: seq<string>, term: string) returns (r: seq<string>)
    ensures r == filtered + TermTokens(tk, AsWritten, term)
  {
    var lower := LowerStr(term);
    var f := LStripHyphens(ReplaceOthers(lower));
    if Dropped(tk, f) {
      return filtered;
    }
    if lower != f {
      var pieces := Split(f, ' ');
      r := AppendPieces(tk, filtered, pieces);
    } else {
      r := filtered + [Stem(tk, f)];
    }
  }

  /** The inner loop over `filtered_term.split(' ')`: appends the pieces that pass the piece test as written, stemmed. */
  method AppendPieces(tk: Tokenizer, filtered: seq<string>, pieces: seq<string>) returns (r: seq<string>)
    ensures r == filtered + KeptPieces(tk, AsWritten, pieces, |pieces|)
  {
    r := filtered;
    for p := 0 to |pieces|
      invariant r == filtered + KeptPieces(tk, AsWritten, pieces, p)
    {
      if KeepPieceAsWritten(tk, pieces[p]) {
        r := r + [Stem(tk, pieces[p])];
      }
    }
  }

  /** The second loop of `tokenize`: `for i, token in enumerate(filtered_terms)`. */
  method EnumerateTokens(pubId: string, filtered: seq<string>) returns (tokens: Tokens)
    ensures tokens == BuildTokens(pubId, filtered, |filtered|)
  {
    tokens := [];
    for i := 0 to |filtered|
      invariant tokens == BuildTokens(pubId, filtered, i)
    {
      var token := filtered[i];
      if token !in Keys(tokens) {
        tokens := Put(tokens, token, [Entry(pubId, [i])]);
      } else {
        var inner := Get(tokens, token).GetOr([]);
        tokens := Put(tokens, token, Put(inner, pubId, Get(inner, pubId).GetOr([]) + [i]));
      }
    }
  }

  /** The finished map is a dict whose every entry is `{pubId: positions}` with exactly the token's positions. */
  lemma TokenMap(pubId: string, ft: seq<string>)
    ensures DistinctKeys(BuildTokens(pubId, ft, |ft|))
    ensures forall t :: Get(BuildTokens(pubId, ft, |ft|), t) == TokenEntry(pubId, ft, t, |ft|)
  {
    BuildTokensDistinct(pubId, ft, |ft|);
    forall t
      ensures Get(BuildTokens(pubId, ft, |ft|), t) == TokenEntry(pubId, ft, t, |ft|)
    {
      BuildTokensGet(pubId, ft, |ft|, t);
    }
  }

  // ---------------------------------------------------------------------------
  // What the filter guarantees
  // ---------------------------------------------------------------------------

  /** The filter never lengthens a term, leaves only lower-case letters, digits, whitespace and hyphens, and no leading hyphen. */
  lemma FilterShape(term: string)
    ensures |Filter(term)| <= |term|
    ensures forall i :: 0 <= i < |Filter(term)| ==> Filtered(Filter(term)[i])
    ensures Filter(term) == [] || Filter(term)[0] != '-'
  {
    var r := ReplaceOthers(LowerStr(term));
    LStripHyphensSuffix(r);
    forall i | 0 <= i < |r|
      ensures Filtered(r[i])
    {
    }
    var f := Filter(term);
    forall i | 0 <= i < |f|
      ensures Filtered(f[i])
    {
      assert f[i] == r[|r| - |f| + i];
    }
  }

  /** Filtering a filtered term changes nothing. */
  lemma FilterIdempotent(term: string)
    ensures Filter(Filter(term)) == Filter(term)
  {
    var f := Filter(term);
    FilterShape(term);
    var l := LowerStr(f);
    forall i | 0 <= i < |f|
      ensures l[i] == f[i]
    {
      assert Filtered(f[i]);
    }
    assert l == f;
    var r := ReplaceOthers(f);
    forall i | 0 <= i < |f|
      ensures r[i] == f[i]
    {
      assert Filtered(f[i]);
    }
    assert r == f;
  }

  /** A term of lower-case letters and digits that is long enough and not a stopword is emitted once, as it is (stemmed if a stemmer is set). */
  lemma PlainTermEmittedOnce(tk: Tokenizer, test: PieceTest, term: string)
    requires term != "" && |term| >= tk.minL && term !in tk.stopwords
    requires forall i :: 0 <= i < |term| ==> 'a' <= term[i] <= 'z' || '0' <= term[i] <= '9'
    ensures TermTokens(tk, test, term) == [Stem(tk, term)]
  {
    assert LowerStr(term) == term;
    assert ReplaceOthers(term) == term;
    assert !IsSpace(term[0]);
  }

  /** Only characters the filter leaves: lower-case letters, digits, whitespace and hyphens. */
  predicate FilteredChars(t: string) {
    forall i :: 0 <= i < |t| ==> Filtered(t[i])
  }

  /** What the intended pipeline promises of a token: filtered characters, not blank, at least `minL` long, not a stopword. */
  predicate ProperToken(tk: Tokenizer, t: string) {
    t != "" && !Blank(t) && |t| >= tk.minL && t !in tk.stopwords && FilteredChars(t)
  }

  /** What the pipeline as written promises of a token: filtered characters, and either not blank and at least `minL` long, or a stopword. */
  predicate WrittenToken(tk: Tokenizer, t: string) {
    FilteredChars(t) && ((t != "" && !Blank(t) && |t| >= tk.minL) || t in tk.stopwords)
  }

  /** The token shape each piece test guarantees. */
  predicate TokenShape(tk: Tokenizer, test: PieceTest, t: string) {
    match test
    case AsWritten => WrittenToken(tk, t)
    case Intended => ProperToken(tk, t)
  }

  /** Every token of a list has the shape the test guarantees. */
  predicate AllShaped(tk: Tokenizer, test: PieceTest, ts: seq<string>) {
    forall i :: 0 <= i < |ts| ==> TokenShape(tk, test, ts[i])
  }

  lemma AllShapedAppend(tk: Tokenizer, test: PieceTest, a: seq<string>, b: seq<string>)
    requires AllShaped(tk, test, a) && AllShaped(tk, test, b)
    ensures AllShaped(tk, test, a + b)
  {
    forall i | 0 <= i < |a + b|
      ensures TokenShape(tk, test, (a + b)[i])
    {
      if i < |a| {
        assert (a + b)[i] == a[i];
      } else {
        assert (a + b)[i] == b[i - |a|];
      }
    }
  }

  /** Without a stemmer, the pieces a test keeps have its shape: as written, a kept piece is non-blank
      and longer than `minL` or is a stopword; as intended, it is also never a stopword. */
  lemma {:induction false} KeptPiecesProper(tk: Tokenizer, test: PieceTest, f: string, n: nat)
    requires tk.stem.None?
    requires FilteredChars(f)
    requires n <= |Split(f, ' ')|
    ensures AllShaped(tk, test, KeptPieces(tk, test, Split(f, ' '), n))
  {
    if n > 0 {
      KeptPiecesProper(tk, test, f, n - 1);
      var p := Split(f, ' ')[n - 1];
      var prev := KeptPieces(tk, test, Split(f, ' '), n - 1);
      if Keeps(tk, test, p) {
        SplitChars(f, ' ');
        forall j | 0 <= j < |p|
          ensures Filtered(p[j])
        {
          assert p[j] in f;
        }
        assert TokenShape(tk, test, p);
        AllShapedAppend(tk, test, prev, [p]);
      } else {
        assert KeptPieces(tk, test, Split(f, ' '), n) == prev;
      }
    }
  }

  /** Without a stemmer every token of one term has the shape its piece test guarantees. */
  lemma TermTokensProper(tk: Tokenizer, test: PieceTest, term: string)
    requires tk.stem.None?
    ensures AllShaped(tk, test, TermTokens(tk, test, term))
  {
    var f := Filter(term);
    FilterShape(term);
    if !Dropped(tk, f) && LowerStr(term) != f {
      KeptPiecesProper(tk, test, f, |Split(f, ' ')|);
    } else if !Dropped(tk, f) {
      assert ProperToken(tk, f);
      assert TokenShape(tk, test, f);
    }
  }

  /** Without a stemmer every token of `filtered_terms` has the shape its piece test guarantees. */
  lemma {:induction false} FilteredTermsProper(tk: Tokenizer, test: PieceTest, terms: seq<string>, n: nat)
    requires tk.stem.None? && n <= |terms|
    ensures AllShaped(tk, test, FilteredTerms(tk, test, terms, n))
  {
    if n > 0 {
      var prev := FilteredTerms(tk, test, terms, n - 1);
      var cur := TermTokens(tk, test, terms[n - 1]);
      FilteredTermsProper(tk, test, terms, n - 1);
      TermTokensProper(tk, test, terms[n - 1]);
      AllShapedAppend(tk, test, prev, cur);
    }
  }

  /** A token list with the stopwords taken out, in order. */
  function WithoutStopwords(tk: Tokenizer, ts: seq<string>): seq<string>
    decreases |ts|
  {
    if ts == [] then []
    else WithoutStopwords(tk, ts[..|ts| - 1]) + (if ts[|ts| - 1] in tk.stopwords then [] else [ts[|ts| - 1]])
  }

  lemma {:induction false} WithoutStopwordsAppend(tk: Tokenizer, a: seq<string>, b: seq<string>)
    ensures WithoutStopwords(tk, a + b) == WithoutStopwords(tk, a) + WithoutStopwords(tk, b)
    decreases |b|
  {
    if b == [] {
      assert a + b == a;
    } else {
      var n := |b| - 1;
      assert (a + b)[..|a + b| - 1] == a + b[..n];
      WithoutStopwordsAppend(tk, a, b[..n]);
    }
  }

  /** Without a stemmer, the intended pieces are the pieces kept as written, less the stopwords. */
  lemma {:induction false} KeptPiecesWithoutStopwords(tk: Tokenizer, pieces: seq<string>, n: nat)
    requires tk.stem.None? && n <= |pieces|
    ensures KeptPieces(tk, Intended, pieces, n) == WithoutStopwords(tk, KeptPieces(tk, AsWritten, pieces, n))
  {
    if n > 0 {
      KeptPiecesWithoutStopwords(tk, pieces, n - 1);
      var p := pieces[n - 1];
      var kept := if KeepPieceAsWritten(tk, p) then [p] else [];
      WithoutStopwordsAppend(tk, KeptPieces(tk, AsWritten, pieces, n - 1), kept);
      if KeepPieceAsWritten(tk, p) {
        assert WithoutStopwords(tk, [p]) == WithoutStopwords(tk, [p][..0]) + (if p in tk.stopwords then [] else [p]);
      }
    }
  }

  /** Without a stemmer, the intended tokens of one term are those the source emits, less the stopwords. */
  lemma TermTokensWithoutStopwords(tk: Tokenizer, term: string)
    requires tk.stem.None?
    ensures TermTokens(tk, Intended, term) == WithoutStopwords(tk, TermTokens(tk, AsWritten, term))
  {
    var f := Filter(term);
    if Dropped(tk, f) {
    } else if LowerStr(term) != f {
      KeptPiecesWithoutStopwords(tk, Split(f, ' '), |Split(f, ' ')|);
    } else {
      assert WithoutStopwords(tk, [f]) == WithoutStopwords(tk, [f][..0]) + [f];
    }
  }

  /**
   * Without a stemmer, the intended `filtered_terms` is the one the source builds with every
   * stopword token taken out: the two piece tests differ exactly on stopword pieces.
   */
  lemma {:induction false} IntendedDropsStopwords(tk: Tokenizer, terms: seq<string>, n: nat)
    requires tk.stem.None? && n <= |terms|
    ensures FilteredTerms(tk, Intended, terms, n) == WithoutStopwords(tk, FilteredTerms(tk, AsWritten, terms, n))
  {
    if n > 0 {
      IntendedDropsStopwords(tk, terms, n - 1);
      TermTokensWithoutStopwords(tk, terms[n - 1]);
      WithoutStopwordsAppend(tk, FilteredTerms(tk, AsWritten, terms, n - 1), TermTokens(tk, AsWritten, terms[n - 1]));
    }
  }

  /**
   * As written, the piece test lets a stopword through: with stopwords {"the"}
   * and minL 0, the term "the," filters to "the ", which is not dropped and
   * differs from "the,", so it is split into "the" and "", and "the" is kept.
   * `tokenize` then maps "the" to `{pubId: [0]}`; the intended test emits nothing.
   */
  lemma StopwordPieceKeptAsWritten(pubId: string)
    ensures var tk := Tokenizer(0, {"the"}, None);
      var f := Filter("the,");
      !Dropped(tk, f) && LowerStr("the,") != f && Split(f, ' ') == ["the", ""] &&
      KeepPieceAsWritten(tk, "the") && "the" in tk.stopwords && !KeepPiece(tk, "the") &&
      FilteredTerms(tk, AsWritten, ["the,"], 1) == ["the"] &&
      BuildTokens(pubId, ["the"], 1) == [Entry("the", [Entry(pubId, [0])])] &&
      FilteredTerms(tk, Intended, ["the,"], 1) == []
  {
    var tk := Tokenizer(0, {"the"}, None);
    FilterOfComma();
    assert !IsSpace('t');
    SplitAround("the", "", ' ');
    assert "the" + [' '] + "" == "the ";
    var pieces := ["the", ""];
    assert KeptPieces(tk, AsWritten, pieces, 2) == ["the"];
    assert KeptPieces(tk, Intended, pieces, 2) == [];
    assert ["the,"][0] == "the,";
  }

  /** The filter turns the comma of "the," into a space and lower-casing changes nothing. */
  lemma FilterOfComma()
    ensures LowerStr("the,") == "the," && Filter("the,") == "the "
  {
    var l := LowerStr("the,");
    assert l[0] == 't' && l[1] == 'h' && l[2] == 'e' && l[3] == ',';
    assert l == "the,";
    var r := ReplaceOthers("the,");
    assert !IsSpace(',');
    assert r[0] == 't' && r[1] == 'h' && r[2] == 'e' && r[3] == ' ';
    assert r == "the ";
  }
}
