/**
 * `BM25SearchEngine`: tokenisation, the index (per-document term counts,
 * document lengths, document frequencies, average length), the BM25 score of
 * one document, and `search` (keep positive scores, stable sort by score
 * descending, cut to `top_k`).
 *
 * Scores are `real`s. The natural logarithm is the engine's parameter `ln`;
 * the only fact used about it is that it is positive above 1.
 */
module Bm25 {
  import opened Text

  /* ---------- _tokenize ---------- */

  /**
   * The character class `[\w가-힣]` on lower-cased text: ASCII letters,
   * digits and `_`, and the Hangul syllables block.
   */
  predicate IsWordChar(c: char) {
    ('a' <= c <= 'z') || ('A' <= c <= 'Z') || ('0' <= c <= '9') || c == '_' || ('\U{AC00}' <= c <= '\U{D7A3}')
  }

  /** The word characters of `s`, in order. */
  function WordChars(s: string): string {
    if s == [] then [] else (if IsWordChar(s[0]) then [s[0]] else []) + WordChars(s[1..])
  }

  function Concat(ts: seq<string>): string {
    if ts == [] then [] else ts[0] + Concat(ts[1..])
  }

  /** Every token is a non-empty run of word characters. */
  predicate AreWords(ts: seq<string>) {
    forall k :: 0 <= k < |ts| ==> ts[k] != [] && forall j :: 0 <= j < |ts[k]| ==> IsWordChar(ts[k][j])
  }

  /** The maximal runs of word characters of `s`, the first one continuing `run`. */
  function Runs(s: string, run: string): seq<string>
    decreases |s|
  {
    if s == [] then (if run == [] then [] else [run])
    else if IsWordChar(s[0]) then Runs(s[1..], run + [s[0]])
    else (if run == [] then [] else [run]) + Runs(s[1..], [])
  }

  lemma ConcatAppend(a: seq<string>, b: seq<string>)
    ensures Concat(a + b) == Concat(a) + Concat(b)
  {
    if a == [] {
      assert a + b == b;
    } else {
      assert (a + b)[0] == a[0];
      assert (a + b)[1..] == a[1..] + b;
      ConcatAppend(a[1..], b);
    }
  }

  lemma {:induction false} RunsAreWords(s: string, run: string)
    requires forall j :: 0 <= j < |run| ==> IsWordChar(run[j])
    ensures AreWords(Runs(s, run))
    decreases |s|
  {
    if s == [] {
    } else if IsWordChar(s[0]) {
      RunsAreWords(s[1..], run + [s[0]]);
    } else {
      RunsAreWords(s[1..], []);
      var head: seq<string> := if run == [] then [] else [run];
      var tail := Runs(s[1..], []);
      assert Runs(s, run) == head + tail;
      forall k | 0 <= k < |head + tail| ensures (head + tail)[k] != [] && forall j :: 0 <= j < |(head + tail)[k]| ==> IsWordChar((head + tail)[k][j]) {
        if k >= |head| { assert (head + tail)[k] == tail[k - |head|]; }
      }
    }
  }

  lemma {:induction false} RunsConcat(s: string, run: string)
    ensures Concat(Runs(s, run)) == run + WordChars(s)
    decreases |s|
  {
    if s == [] {
      if run != [] {
        assert Concat([run]) == run + Concat([]);
      }
    } else if IsWordChar(s[0]) {
      RunsConcat(s[1..], run + [s[0]]);
      assert WordChars(s) == [s[0]] + WordChars(s[1..]);
      assert run + [s[0]] + WordChars(s[1..]) == run + WordChars(s);
    } else {
      RunsConcat(s[1..], []);
      var head: seq<string> := if run == [] then [] else [run];
      var tail := Runs(s[1..], []);
      assert Runs(s, run) == head + tail;
      ConcatAppend(head, tail);
      assert Concat(head) == run by {
        if run != [] { assert Concat([run]) == run + Concat([]); }
      }
      assert WordChars(s) == WordChars(s[1..]);
    }
  }

  /** `_tokenize`: `re.findall(r"[\w가-힣]+", text.lower())`. */
  function Tokenize(text: string): seq<string> {
    Runs(Lower(text), [])
  }

  /**
   * Tokens are non-empty runs of word characters, and together they hold
   * every word character of the lower-cased text, in order, and nothing else.
   */
  lemma TokenizeSpec(text: string)
    ensures AreWords(Tokenize(text))
    ensures Concat(Tokenize(text)) == WordChars(Lower(text))
  {
    RunsAreWords(Lower(text), []);
    RunsConcat(Lower(text), []);
  }

  /** A character that is not a word character ends the run before it and starts afresh. */
  lemma {:induction false} RunsSplit(a: string, c: char, b: string, run: string)
    requires !IsWordChar(c)
    ensures Runs(a + [c] + b, run) == Runs(a, run) + Runs(b, [])
    decreases |a|
  {
    if a == [] {
      assert (a + [c] + b)[1..] == b;
    } else {
      assert (a + [c] + b)[0] == a[0];
      assert (a + [c] + b)[1..] == a[1..] + [c] + b;
      if IsWordChar(a[0]) {
        RunsSplit(a[1..], c, b, run + [a[0]]);
      } else {
        RunsSplit(a[1..], c, b, []);
      }
    }
  }

  /** A stretch of word characters continues the open run as one token. */
  lemma {:induction false} RunsWord(w: string, run: string)
    requires forall j :: 0 <= j < |w| ==> IsWordChar(w[j])
    ensures Runs(w, run) == if run + w == [] then [] else [run + w]
    decreases |w|
  {
    if w != [] {
      assert IsWordChar(w[0]);
      RunsWord(w[1..], run + [w[0]]);
      assert run + [w[0]] + w[1..] == run + w;
      assert run + w != [];
    } else {
      assert run + w == run;
    }
  }

  /** Lower-casing keeps a character inside or outside the word class. */
  lemma LowerKeepsWordChars(c: char)
    ensures IsWordChar(LowerChar(c)) == IsWordChar(c)
  {
  }

  /**
   * Every character outside `[\w가-힣]` separates tokens: the tokens of the
   * text around it are those of the two sides, so no token spans it.
   */
  lemma TokenizeSplit(a: string, c: char, b: string)
    requires !IsWordChar(c)
    ensures Tokenize(a + [c] + b) == Tokenize(a) + Tokenize(b)
  {
    assert Lower(a + [c] + b) == Lower(a) + [LowerChar(c)] + Lower(b);
    LowerKeepsWordChars(c);
    RunsSplit(Lower(a), LowerChar(c), Lower(b), []);
  }

  /** A non-empty stretch of word characters is one token, never several. */
  lemma TokenizeWord(w: string)
    requires w != [] && forall j :: 0 <= j < |w| ==> IsWordChar(w[j])
    ensures Tokenize(w) == [Lower(w)]
  {
    forall j | 0 <= j < |w|
      ensures IsWordChar(Lower(w)[j])
    {
      LowerKeepsWordChars(w[j]);
    }
    RunsWord(Lower(w), []);
    assert [] + Lower(w) == Lower(w);
  }

  /* ---------- the index ---------- */

  /** The index fields of the engine, as one value. */
  datatype IndexData = IndexData(
    documents: seq<string>,
    termFreqs: seq<multiset<string>>,
    docLengths: seq<nat>,
    docFreqs: multiset<string>,
    avgDocLength: real)

  /** The number of documents among `tfs` that contain `t` at least once. */
  function DocCount(tfs: seq<multiset<string>>, t: string): nat {
    if tfs == [] then 0 else DocCount(tfs[..|tfs| - 1], t) + (if t in tfs[|tfs| - 1] then 1 else 0)
  }

  /** A term occurring somewhere has a document count between 1 and the number of documents. */
  lemma {:induction false} DocCountBounds(tfs: seq<multiset<string>>, t: string)
    ensures DocCount(tfs, t) <= |tfs|
    ensures forall i :: 0 <= i < |tfs| && t in tfs[i] ==> DocCount(tfs, t) >= 1
  {
    if tfs != [] {
      var prefix := tfs[..|tfs| - 1];
      DocCountBounds(prefix, t);
      assert forall i :: 0 <= i < |prefix| ==> prefix[i] == tfs[i];
    }
  }

  lemma DocCountSnoc(tfs: seq<multiset<string>>, m: multiset<string>, t: string)
    ensures DocCount(tfs + [m], t) == DocCount(tfs, t) + (if t in m then 1 else 0)
  {
    assert (tfs + [m])[..|tfs|] == tfs;
  }

  function Sum(xs: seq<nat>): nat {
    if xs == [] then 0 else Sum(xs[..|xs| - 1]) + xs[|xs| - 1]
  }

  /** `sum(lengths) / len(documents) if documents else 0`. */
  function Average(xs: seq<nat>): real {
    if |xs| > 0 then Sum(xs) as real / |xs| as real else 0.0
  }

  /** One term count per document, in document order. */
  function TermFreqs(docs: seq<string>): (r: seq<multiset<string>>)
    ensures |r| == |docs|
  {
    if docs == [] then [] else TermFreqs(docs[..|docs| - 1]) + [multiset(Tokenize(docs[|docs| - 1]))]
  }

  /** One token count per document, in document order. */
  function DocLengths(docs: seq<string>): (r: seq<nat>)
    ensures |r| == |docs|
  {
    if docs == [] then [] else DocLengths(docs[..|docs| - 1]) + [|Tokenize(docs[|docs| - 1])|]
  }

  /** Document `i`'s term counts and length are those of its tokens. */
  lemma {:induction false} PerDocument(docs: seq<string>, i: nat)
    requires i < |docs|
    ensures TermFreqs(docs)[i] == multiset(Tokenize(docs[i]))
    ensures DocLengths(docs)[i] == |Tokenize(docs[i])|
  {
    var prefix := docs[..|docs| - 1];
    if i < |docs| - 1 {
      PerDocument(prefix, i);
      assert prefix[i] == docs[i];
    }
  }

  /**
   * The index of `ix.documents`, as `index` leaves it: one term count and one
   * length per document, for every term the number of documents holding it,
   * and the average length.
   */
  ghost predicate Consistent(ix: IndexData) {
    && Counted(ix.documents, ix.termFreqs, ix.docLengths, ix.docFreqs)
    && ix.avgDocLength == Average(ix.docLengths)
  }

  /** The term counts, lengths and document frequencies of `docs`. */
  ghost predicate Counted(docs: seq<string>, tfs: seq<multiset<string>>, lengths: seq<nat>, df: multiset<string>) {
    && tfs == TermFreqs(docs)
    && lengths == DocLengths(docs)
    && (forall t :: df[t] == DocCount(tfs, t))
  }

  /** The documents determine a consistent index completely. */
  lemma ConsistentUnique(a: IndexData, b: IndexData)
    requires Consistent(a) && Consistent(b) && a.documents == b.documents
    ensures a == b
  {
    assert a.docFreqs == b.docFreqs;
  }

  /**
   * In a consistent index the sequences line up with the documents, a
   * document frequency never exceeds the number of documents, and the
   * average length is never negative (0 for an empty corpus).
   */
  lemma ConsistentSpec(ix: IndexData, t: string)
    requires Consistent(ix)
    ensures |ix.termFreqs| == |ix.docLengths| == |ix.documents|
    ensures ix.docFreqs[t] <= |ix.documents|
    ensures ix.avgDocLength >= 0.0
    ensures ix.documents == [] ==> ix.avgDocLength == 0.0
  {
    DocCountBounds(ix.termFreqs, t);
    if |ix.docLengths| > 0 {
      QuotientNonNegative(Sum(ix.docLengths) as real, |ix.docLengths| as real);
    }
  }

  /** In a consistent index, document `i`'s entries are its term counts and its token count. */
  lemma ConsistentPerDocument(ix: IndexData, i: nat)
    requires Consistent(ix) && i < |ix.documents|
    ensures ix.termFreqs[i] == multiset(Tokenize(ix.documents[i]))
    ensures ix.docLengths[i] == |Tokenize(ix.documents[i])|
  {
    PerDocument(ix.documents, i);
  }

  lemma QuotientNonNegative(x: real, y: real)
    requires x >= 0.0 && y > 0.0
    ensures x / y >= 0.0
  {
  }

  /* ---------- _idf and _score_document ---------- */

  const K1: real := 1.5
  const B: real := 0.75

  /** The one property of the natural logarithm the ranking relies on. */
  ghost predicate LogPositive(ln: real -> real) {
    forall x: real :: x > 1.0 ==> ln(x) > 0.0
  }

  /** `_idf`: 0 for an unknown term, else `ln((N - df + 0.5) / (df + 0.5) + 1)`. */
  function Idf(ix: IndexData, t: string, ln: real -> real): real {
    var n := |ix.documents| as real;
    var df := ix.docFreqs[t] as real;
    if ix.docFreqs[t] == 0 then 0.0 else ln((n - df + 0.5) / (df + 0.5) + 1.0)
  }

  /** The length normalisation of document `i`: 1 when the average length is 0. */
  function LengthNorm(ix: IndexData, i: nat): real
    requires i < |ix.docLengths|
  {
    if ix.avgDocLength > 0.0 then ix.docLengths[i] as real / ix.avgDocLength else 1.0
  }

  lemma LengthNormNonNegative(ix: IndexData, i: nat)
    requires i < |ix.docLengths|
    ensures LengthNorm(ix, i) >= 0.0
  {
    if ix.avgDocLength > 0.0 {
      var l := ix.docLengths[i] as real;
      assert l >= 0.0;
      assert l / ix.avgDocLength >= 0.0;
    }
  }

  /** The BM25 denominator `tf + k1 * (1 - b + b * norm)`; positive for a present term. */
  function Denominator(tf: nat, norm: real): (d: real)
    requires tf >= 1 && norm >= 0.0
    ensures d > 0.0
  {
    assert B * norm >= 0.0;
    tf as real + K1 * (1.0 - B + B * norm)
  }

  /** One present query term's share of the score. */
  function TermScore(ix: IndexData, i: nat, t: string, ln: real -> real): real
    requires i < |ix.termFreqs| == |ix.docLengths| && t in ix.termFreqs[i]
  {
    LengthNormNonNegative(ix, i);
    var tf := ix.termFreqs[i][t];
    Idf(ix, t, ln) * ((tf as real * (K1 + 1.0)) / Denominator(tf, LengthNorm(ix, i)))
  }

  /** A score with the query terms found in the document, as `_score_document` returns them. */
  datatype Scored = Scored(score: real, matched: seq<string>)

  /** `_score_document`: add up the shares of the query terms present in document `i`. */
  function ScoreDocument(ix: IndexData, query: seq<string>, i: nat, ln: real -> real): Scored
    requires i < |ix.termFreqs| == |ix.docLengths|
  {
    if query == [] then Scored(0.0, [])
    else
      var before := ScoreDocument(ix, query[..|query| - 1], i, ln);
      var t := query[|query| - 1];
      if t in ix.termFreqs[i] then Scored(before.score + TermScore(ix, i, t, ln), before.matched + [t])
      else before
  }

  /** The terms of `query` that occur in `tf`, first to last, repeats kept. */
  function PresentTerms(query: seq<string>, tf: multiset<string>): seq<string> {
    if query == [] then [] else (if query[0] in tf then [query[0]] else []) + PresentTerms(query[1..], tf)
  }

  lemma {:induction false} PresentTermsSnoc(query: seq<string>, t: string, tf: multiset<string>)
    ensures PresentTerms(query + [t], tf) == PresentTerms(query, tf) + (if t in tf then [t] else [])
    decreases |query|
  {
    if query == [] {
      assert [] + [t] == [t];
    } else {
      assert (query + [t])[0] == query[0];
      assert (query + [t])[1..] == query[1..] + [t];
      PresentTermsSnoc(query[1..], t, tf);
    }
  }

  /**
   * The matched terms are exactly the query terms present in the document,
   * repeats included and in query order.
   */
  lemma {:induction false} MatchedTerms(ix: IndexData, query: seq<string>, i: nat, ln: real -> real)
    requires i < |ix.termFreqs| == |ix.docLengths|
    ensures var m := ScoreDocument(ix, query, i, ln).matched;
      && m == PresentTerms(query, ix.termFreqs[i])
      && (forall k :: 0 <= k < |m| ==> m[k] in ix.termFreqs[i])
      && (forall t :: t in ix.termFreqs[i] ==> multiset(m)[t] == multiset(query)[t])
      && (forall t :: t !in ix.termFreqs[i] ==> multiset(m)[t] == 0)
  {
    MatchedInOrder(ix, query, i, ln);
    PresentTermsCounts(query, ix.termFreqs[i]);
  }

  /** The present terms are the query terms found in `tf`, each as often as the query has it. */
  lemma PresentTermsCounts(query: seq<string>, tf: multiset<string>)
    ensures var m := PresentTerms(query, tf);
      && (forall k :: 0 <= k < |m| ==> m[k] in tf)
      && (forall t :: t in tf ==> multiset(m)[t] == multiset(query)[t])
      && (forall t :: t !in tf ==> multiset(m)[t] == 0)
  {
    PresentTermsIn(query, tf);
    forall t
      ensures multiset(PresentTerms(query, tf))[t] == if t in tf then multiset(query)[t] else 0
    {
      PresentTermsCount(query, tf, t);
    }
  }

  lemma {:induction false} PresentTermsIn(query: seq<string>, tf: multiset<string>)
    ensures forall k :: 0 <= k < |PresentTerms(query, tf)| ==> PresentTerms(query, tf)[k] in tf
    decreases |query|
  {
    if query != [] {
      var head: seq<string> := if query[0] in tf then [query[0]] else [];
      var rest := PresentTerms(query[1..], tf);
      PresentTermsIn(query[1..], tf);
      forall k | 0 <= k < |head + rest|
        ensures (head + rest)[k] in tf
      {
        if k >= |head| { assert (head + rest)[k] == rest[k - |head|]; }
      }
    }
  }

  lemma {:induction false} PresentTermsCount(query: seq<string>, tf: multiset<string>, t: string)
    ensures multiset(PresentTerms(query, tf))[t] == if t in tf then multiset(query)[t] else 0
    decreases |query|
  {
    if query != [] {
      var head: seq<string> := if query[0] in tf then [query[0]] else [];
      var rest := PresentTerms(query[1..], tf);
      PresentTermsCount(query[1..], tf, t);
      assert query == [query[0]] + query[1..];
      assert multiset(query)[t] == multiset([query[0]])[t] + multiset(query[1..])[t];
      assert multiset(head + rest)[t] == multiset(head)[t] + multiset(rest)[t];
    }
  }

  /** The matched terms are the present terms, in query order. */
  lemma {:induction false} MatchedInOrder(ix: IndexData, query: seq<string>, i: nat, ln: real -> real)
    requires i < |ix.termFreqs| == |ix.docLengths|
    ensures ScoreDocument(ix, query, i, ln).matched == PresentTerms(query, ix.termFreqs[i])
  {
    if query != [] {
      var prefix := query[..|query| - 1];
      var last := query[|query| - 1];
      MatchedInOrder(ix, prefix, i, ln);
      assert query == prefix + [last];
      PresentTermsSnoc(prefix, last, ix.termFreqs[i]);
      if last !in ix.termFreqs[i] {
        assert PresentTerms(query, ix.termFreqs[i]) == PresentTerms(prefix, ix.termFreqs[i]) + [];
      }
    }
  }

  lemma TermScorePositive(ix: IndexData, i: nat, t: string, ln: real -> real)
    requires Consistent(ix) && LogPositive(ln)
    requires i < |ix.documents| && t in ix.termFreqs[i]
    ensures TermScore(ix, i, t, ln) > 0.0
  {
    ConsistentDocFreq(ix, i, t);
    var n := |ix.documents| as real;
    var df := ix.docFreqs[t] as real;
    QuotientPositive(n - df + 0.5, df + 0.5);
    var idf := Idf(ix, t, ln);
    assert idf > 0.0;
    LengthNormNonNegative(ix, i);
    var tf := ix.termFreqs[i][t];
    assert tf >= 1;
    QuotientPositive(tf as real * (K1 + 1.0), Denominator(tf, LengthNorm(ix, i)));
    ProductPositive(idf, (tf as real * (K1 + 1.0)) / Denominator(tf, LengthNorm(ix, i)));
  }

  /**
   * The saturating share `tf * (k1 + 1) / (tf + k1 * (1 - b + b * norm))`
   * never falls as the term frequency grows, for a fixed length norm.
   */
  lemma TermShareMonotone(tf1: nat, tf2: nat, norm: real)
    requires 1 <= tf1 <= tf2 && norm >= 0.0
    ensures (tf1 as real * (K1 + 1.0)) / Denominator(tf1, norm) <= (tf2 as real * (K1 + 1.0)) / Denominator(tf2, norm)
  {
    var x1, x2 := tf1 as real, tf2 as real;
    var c := K1 * (1.0 - B + B * norm);
    assert c > 0.0 by { assert B * norm >= 0.0; }
    var d1, d2 := Denominator(tf1, norm), Denominator(tf2, norm);
    assert d1 == x1 + c && d2 == x2 + c;
    assert x1 * c <= x2 * c;
    assert (x1 * (K1 + 1.0)) * d2 <= (x2 * (K1 + 1.0)) * d1 by {
      assert (x1 * (K1 + 1.0)) * d2 == (K1 + 1.0) * (x1 * x2 + x1 * c);
      assert (x2 * (K1 + 1.0)) * d1 == (K1 + 1.0) * (x1 * x2 + x2 * c);
    }
    QuotientOrder(x1 * (K1 + 1.0), d1, x2 * (K1 + 1.0), d2);
  }

  lemma QuotientOrder(a: real, b: real, c: real, d: real)
    requires b > 0.0 && d > 0.0 && a * d <= c * b
    ensures a / b <= c / d
  {
    assert a / b == (a * d) / (b * d);
    assert c / d == (c * b) / (b * d);
  }

  /** The idf of a term that some document of a consistent index holds is positive. */
  lemma IdfPositive(ix: IndexData, i: nat, t: string, ln: real -> real)
    requires Consistent(ix) && LogPositive(ln)
    requires i < |ix.documents| && t in ix.termFreqs[i]
    ensures Idf(ix, t, ln) > 0.0
  {
    ConsistentDocFreq(ix, i, t);
    var n := |ix.documents| as real;
    var df := ix.docFreqs[t] as real;
    QuotientPositive(n - df + 0.5, df + 0.5);
  }

  /**
   * BM25 is monotone in the term frequency: with the corpus statistics and
   * the document's length fixed, a document holding a query term more
   * often never gets a smaller share for it.
   */
  lemma TermScoreMonotone(ix1: IndexData, ix2: IndexData, i: nat, t: string, ln: real -> real)
    requires Consistent(ix1) && LogPositive(ln)
    requires i < |ix1.documents| && t in ix1.termFreqs[i]
    requires ix2.documents == ix1.documents && ix2.docLengths == ix1.docLengths
    requires ix2.docFreqs == ix1.docFreqs && ix2.avgDocLength == ix1.avgDocLength
    requires |ix2.termFreqs| == |ix1.termFreqs| && ix1.termFreqs[i][t] <= ix2.termFreqs[i][t]
    ensures i < |ix2.termFreqs| == |ix2.docLengths| && t in ix2.termFreqs[i]
    ensures TermScore(ix1, i, t, ln) <= TermScore(ix2, i, t, ln)
  {
    ConsistentShape(ix1);
    IdfPositive(ix1, i, t, ln);
    var idf := Idf(ix1, t, ln);
    LengthNormNonNegative(ix1, i);
    var norm := LengthNorm(ix1, i);
    var tf1, tf2 := ix1.termFreqs[i][t], ix2.termFreqs[i][t];
    TermShareMonotone(tf1, tf2, norm);
    ScaleMonotone(idf, (tf1 as real * (K1 + 1.0)) / Denominator(tf1, norm),
      (tf2 as real * (K1 + 1.0)) / Denominator(tf2, norm));
  }

  lemma ScaleMonotone(k: real, x: real, y: real)
    requires k > 0.0 && x <= y
    ensures k * x <= k * y
  {
  }

  /** A term of a document of a consistent index has a document frequency between 1 and N. */
  lemma ConsistentDocFreq(ix: IndexData, i: nat, t: string)
    requires Consistent(ix)
    requires i < |ix.documents| && t in ix.termFreqs[i]
    ensures 1 <= ix.docFreqs[t] <= |ix.documents|
  {
    DocCountBounds(ix.termFreqs, t);
  }

  lemma QuotientPositive(x: real, y: real)
    requires x > 0.0 && y > 0.0
    ensures x / y > 0.0
  {
  }

  lemma ProductPositive(x: real, y: real)
    requires x > 0.0 && y > 0.0
    ensures x * y > 0.0
  {
  }

  /** The lengths of a consistent index's sequences agree. */
  lemma ConsistentShape(ix: IndexData)
    requires Consistent(ix)
    ensures |ix.termFreqs| == |ix.docLengths| == |ix.documents|
  {
  }

  /**
   * With a consistent index and a logarithm that is positive above 1, a
   * document scores above 0 exactly when some query term occurs in it; its
   * score is never negative.
   */
  lemma {:induction false} ScorePositiveIffMatched(ix: IndexData, query: seq<string>, i: nat, ln: real -> real)
    requires Consistent(ix) && LogPositive(ln) && i < |ix.documents|
    ensures ScoreDocument(ix, query, i, ln).score >= 0.0
    ensures ScoreDocument(ix, query, i, ln).score > 0.0 <==> ScoreDocument(ix, query, i, ln).matched != []
  {
    if query != [] {
      var prefix := query[..|query| - 1];
      ScorePositiveIffMatched(ix, prefix, i, ln);
      var t := query[|query| - 1];
      if t in ix.termFreqs[i] {
        TermScorePositive(ix, i, t, ln);
      }
    }
  }

  /* ---------- search ---------- */

  /** One result: document index, score, matched terms. */
  datatype Hit = Hit(index: nat, score: real, matched: seq<string>)

  /** The documents among the first `n` with a positive score, in document order. */
  function Candidates(ix: IndexData, query: seq<string>, n: nat, ln: real -> real): seq<Hit>
    requires n <= |ix.termFreqs| == |ix.docLengths|
  {
    if n == 0 then []
    else
      var s := ScoreDocument(ix, query, n - 1, ln);
      Candidates(ix, query, n - 1, ln) + (if s.score > 0.0 then [Hit(n - 1, s.score, s.matched)] else [])
  }

  /** `x` goes before `y` in the ranking: higher score, or the same score and an earlier document. */
  predicate Before(x: Hit, y: Hit) {
    x.score > y.score || (x.score == y.score && x.index < y.index)
  }

  predicate Ranked(hs: seq<Hit>) {
    forall j, k :: 0 <= j < k < |hs| ==> Before(hs[j], hs[k])
  }

  /** Stable insertion of `h` after every hit that scores at least as high. */
  function Insert(sorted: seq<Hit>, h: Hit): seq<Hit> {
    if sorted == [] then [h]
    else if sorted[0].score >= h.score then [sorted[0]] + Insert(sorted[1..], h)
    else [h] + sorted
  }

  /** `results.sort(key=lambda x: x[1], reverse=True)`: a stable sort by descending score. */
  function SortByScore(hs: seq<Hit>): seq<Hit> {
    if hs == [] then [] else Insert(SortByScore(hs[..|hs| - 1]), hs[|hs| - 1])
  }

  lemma RankedCons(x: Hit, s: seq<Hit>)
    requires Ranked(s)
    requires forall k :: 0 <= k < |s| ==> Before(x, s[k])
    ensures Ranked([x] + s)
  {
    var r := [x] + s;
    forall j, k | 0 <= j < k < |r| ensures Before(r[j], r[k]) {
      if j > 0 {
        assert r[j] == s[j - 1] && r[k] == s[k - 1];
      } else {
        assert r[k] == s[k - 1];
      }
    }
  }

  lemma {:induction false} InsertRanked(sorted: seq<Hit>, h: Hit)
    requires Ranked(sorted)
    requires forall k :: 0 <= k < |sorted| ==> sorted[k].index < h.index
    ensures multiset(Insert(sorted, h)) == multiset(sorted) + multiset{h}
    ensures Ranked(Insert(sorted, h))
  {
    if sorted != [] {
      var first := sorted[0];
      var rest := sorted[1..];
      assert sorted == [first] + rest;
      if first.score >= h.score {
        InsertRanked(rest, h);
        var tail := Insert(rest, h);
        forall k | 0 <= k < |tail| ensures Before(first, tail[k]) {
          assert tail[k] in multiset(rest) + multiset{h};
          if tail[k] != h {
            var j :| 0 <= j < |rest| && rest[j] == tail[k];
            assert sorted[j + 1] == tail[k];
          }
        }
        RankedCons(first, tail);
      } else {
        forall k | 0 <= k < |sorted| ensures Before(h, sorted[k]) {
          if k > 0 { assert Before(first, sorted[k]); }
        }
        RankedCons(h, sorted);
      }
    }
  }

  /** Hits listed in strictly increasing document order. */
  predicate IncreasingIndex(hs: seq<Hit>) {
    forall j, k :: 0 <= j < k < |hs| ==> hs[j].index < hs[k].index
  }

  /** A permutation keeps every index below a bound that the original keeps below. */
  lemma BelowBound(hs: seq<Hit>, perm: seq<Hit>, bound: nat)
    requires multiset(perm) == multiset(hs)
    requires forall j :: 0 <= j < |hs| ==> hs[j].index < bound
    ensures forall k :: 0 <= k < |perm| ==> perm[k].index < bound
  {
    forall k | 0 <= k < |perm| ensures perm[k].index < bound {
      assert perm[k] in multiset(hs);
    }
  }

  /**
   * The sort is a permutation that ranks by descending score and, because it
   * is stable over hits listed in document order, breaks ties by ascending
   * document index.
   */
  lemma {:induction false} SortByScoreSpec(hs: seq<Hit>)
    requires IncreasingIndex(hs)
    ensures multiset(SortByScore(hs)) == multiset(hs)
    ensures Ranked(SortByScore(hs))
  {
    if hs != [] {
      var prefix := hs[..|hs| - 1];
      var last := hs[|hs| - 1];
      SortByScoreSpec(prefix);
      var sorted := SortByScore(prefix);
      assert forall j :: 0 <= j < |prefix| ==> prefix[j].index < last.index by {
        forall j | 0 <= j < |prefix| ensures prefix[j].index < last.index {
          assert prefix[j] == hs[j];
        }
      }
      BelowBound(prefix, sorted, last.index);
      InsertRanked(sorted, last);
      assert hs == prefix + [last];
    }
  }

  /** The candidates are hits of documents with a positive score, each with its own score, in document order. */
  lemma {:induction false} CandidatesSound(ix: IndexData, query: seq<string>, n: nat, ln: real -> real)
    requires n <= |ix.termFreqs| == |ix.docLengths|
    ensures var c := Candidates(ix, query, n, ln);
      && IncreasingIndex(c)
      && forall k :: 0 <= k < |c| ==>
           c[k].index < n && c[k].score > 0.0 && Scored(c[k].score, c[k].matched) == ScoreDocument(ix, query, c[k].index, ln)
  {
    if n > 0 {
      CandidatesSound(ix, query, n - 1, ln);
      var prev := Candidates(ix, query, n - 1, ln);
      var s := ScoreDocument(ix, query, n - 1, ln);
      var c := Candidates(ix, query, n, ln);
      if s.score > 0.0 {
        assert c == prev + [Hit(n - 1, s.score, s.matched)];
        assert forall k :: 0 <= k < |prev| ==> c[k] == prev[k];
      } else {
        assert c == prev;
      }
    }
  }

  /** Every document with a positive score is among the candidates. */
  lemma {:induction false} CandidatesComplete(ix: IndexData, query: seq<string>, n: nat, ln: real -> real, i: nat)
    requires n <= |ix.termFreqs| == |ix.docLengths|
    requires i < n && ScoreDocument(ix, query, i, ln).score > 0.0
    ensures var s := ScoreDocument(ix, query, i, ln);
      Hit(i, s.score, s.matched) in Candidates(ix, query, n, ln)
  {
    var prev := Candidates(ix, query, n - 1, ln);
    var last := ScoreDocument(ix, query, n - 1, ln);
    var extra := if last.score > 0.0 then [Hit(n - 1, last.score, last.matched)] else [];
    assert Candidates(ix, query, n, ln) == prev + extra;
    if i < n - 1 {
      CandidatesComplete(ix, query, n - 1, ln, i);
    } else {
      assert extra == [Hit(i, last.score, last.matched)];
    }
  }

  /** `results[:top_k]`, with Python's meaning of a negative bound. */
  function Take<T>(s: seq<T>, k: int): (r: seq<T>)
    ensures r <= s
    ensures 0 <= k ==> |r| == if k < |s| then k else |s|
  {
    if k >= 0 then (if k < |s| then s[..k] else s)
    else if |s| + k > 0 then s[..|s| + k] else []
  }

  /** What `search` returns over a consistent index with at least one query token. */
  function Ranking(ix: IndexData, query: seq<string>, topK: int, ln: real -> real): seq<Hit>
    requires |ix.termFreqs| == |ix.docLengths| == |ix.documents|
  {
    Take(SortByScore(Candidates(ix, query, |ix.documents|, ln)), topK)
  }

  /**
   * The search results: only documents with a positive score (for a
   * consistent index, those holding a query term), each with its own score
   * and matched terms, ranked by score with ties in document order, and no
   * document outside them ranked higher than one inside.
   */
  lemma RankingSpec(ix: IndexData, query: seq<string>, topK: int, ln: real -> real)
    requires |ix.termFreqs| == |ix.docLengths| == |ix.documents|
    ensures var r := Ranking(ix, query, topK, ln);
      var c := Candidates(ix, query, |ix.documents|, ln);
      && Ranked(r)
      && (forall k :: 0 <= k < |r| ==>
            r[k].index < |ix.documents| && r[k].score > 0.0 && Scored(r[k].score, r[k].matched) == ScoreDocument(ix, query, r[k].index, ln))
      && (0 <= topK ==> |r| == if topK < |c| then topK else |c|)
  {
    var c := Candidates(ix, query, |ix.documents|, ln);
    CandidatesSound(ix, query, |ix.documents|, ln);
    SortByScoreSpec(c);
    var sorted := SortByScore(c);
    assert |sorted| == |multiset(sorted)| == |multiset(c)| == |c|;
    RankingSound(ix, query, topK, ln);
  }

  /** Every hit the ranking keeps is a candidate: a document, its positive score and its matched terms. */
  lemma RankingSound(ix: IndexData, query: seq<string>, topK: int, ln: real -> real)
    requires |ix.termFreqs| == |ix.docLengths| == |ix.documents|
    ensures var r := Ranking(ix, query, topK, ln);
      forall k :: 0 <= k < |r| ==>
        r[k].index < |ix.documents| && r[k].score > 0.0 && Scored(r[k].score, r[k].matched) == ScoreDocument(ix, query, r[k].index, ln)
  {
    var c := Candidates(ix, query, |ix.documents|, ln);
    CandidatesSound(ix, query, |ix.documents|, ln);
    SortByScoreSpec(c);
    var sorted := SortByScore(c);
    var r := Take(sorted, topK);
    forall k | 0 <= k < |r|
      ensures r[k].index < |ix.documents| && r[k].score > 0.0
      ensures Scored(r[k].score, r[k].matched) == ScoreDocument(ix, query, r[k].index, ln)
    {
      assert r[k] == sorted[k];
      assert sorted[k] in multiset(c);
      var j :| 0 <= j < |c| && c[j] == sorted[k];
    }
  }

  /** Cutting a ranked list to its first `topK` keeps whatever ranks above a hit that is cut. */
  lemma TakeKeepsTheBest(sorted: seq<Hit>, topK: int, p: nat)
    requires Ranked(sorted) && p < |sorted| && sorted[p] !in Take(sorted, topK)
    ensures forall k :: 0 <= k < |Take(sorted, topK)| ==> Before(Take(sorted, topK)[k], sorted[p])
  {
    var r := Take(sorted, topK);
    assert forall k :: 0 <= k < |r| ==> r[k] == sorted[k];
    assert |r| <= p;
  }

  /** A document with a positive score that is left out ranks behind every result kept. */
  lemma RankingKeepsTheBest(ix: IndexData, query: seq<string>, topK: int, ln: real -> real, i: nat)
    requires |ix.termFreqs| == |ix.docLengths| == |ix.documents|
    requires i < |ix.documents| && ScoreDocument(ix, query, i, ln).score > 0.0
    ensures var s := ScoreDocument(ix, query, i, ln);
      var h := Hit(i, s.score, s.matched);
      var r := Ranking(ix, query, topK, ln);
      h !in r ==> forall k :: 0 <= k < |r| ==> Before(r[k], h)
  {
    var c := Candidates(ix, query, |ix.documents|, ln);
    var s := ScoreDocument(ix, query, i, ln);
    var h := Hit(i, s.score, s.matched);
    CandidatesComplete(ix, query, |ix.documents|, ln, i);
    CandidatesSound(ix, query, |ix.documents|, ln);
    SortByScoreSpec(c);
    var sorted := SortByScore(c);
    assert h in multiset(sorted) by {
      assert h in multiset(c);
    }
    var p :| 0 <= p < |sorted| && sorted[p] == h;
    if h !in Take(sorted, topK) {
      TakeKeepsTheBest(sorted, topK, p);
    }
  }

  lemma {:induction false} NoPositiveNoCandidates(ix: IndexData, query: seq<string>, n: nat, ln: real -> real)
    requires n <= |ix.termFreqs| == |ix.docLengths|
    requires forall i :: 0 <= i < n ==> ScoreDocument(ix, query, i, ln).score <= 0.0
    ensures Candidates(ix, query, n, ln) == []
  {
    if n > 0 {
      NoPositiveNoCandidates(ix, query, n - 1, ln);
    }
  }

  /** A query whose terms occur in no document gets no results (not zero-score ones). */
  lemma NoMatchNoResults(ix: IndexData, query: seq<string>, topK: int, ln: real -> real)
    requires Consistent(ix) && LogPositive(ln)
    requires forall i, t :: 0 <= i < |ix.documents| && t in query ==> t !in ix.termFreqs[i]
    ensures Ranking(ix, query, topK, ln) == []
  {
    ConsistentShape(ix);
    forall i | 0 <= i < |ix.documents| ensures ScoreDocument(ix, query, i, ln).score <= 0.0 {
      ScorePositiveIffMatched(ix, query, i, ln);
      MatchedTerms(ix, query, i, ln);
      var m := ScoreDocument(ix, query, i, ln).matched;
      forall t ensures multiset(m)[t] == 0 {
        if t in ix.termFreqs[i] {
          assert t !in query;
        }
      }
      assert multiset(m) == multiset{};
      assert |m| == |multiset(m)|;
    }
    NoPositiveNoCandidates(ix, query, |ix.documents|, ln);
  }

  lemma IndexSnoc(docs: seq<string>, i: nat)
    requires i < |docs|
    ensures TermFreqs(docs[..i + 1]) == TermFreqs(docs[..i]) + [multiset(Tokenize(docs[i]))]
    ensures DocLengths(docs[..i + 1]) == DocLengths(docs[..i]) + [|Tokenize(docs[i])|]
  {
    assert docs[..i + 1][..i] == docs[..i];
  }

  /** `for term in set(tokens): doc_freqs[term] += 1`: each distinct term counted once. */
  method CountOncePerTerm(docFreqs: multiset<string>, tokens: seq<string>) returns (counts: multiset<string>)
    ensures forall t :: counts[t] == docFreqs[t] + (if t in tokens then 1 else 0)
  {
    var distinct := set t | t in tokens;
    var remaining := distinct;
    counts := docFreqs;
    while remaining != {}
      invariant remaining <= distinct
      invariant forall t :: counts[t] == docFreqs[t] + (if t in distinct - remaining then 1 else 0)
      decreases remaining
    {
      var term :| term in remaining;
      counts := counts[term := counts[term] + 1];
      remaining := remaining - {term};
    }
  }

  /** One more document: what the body of the indexing loop adds to each field. */
  lemma IndexStep(docs: seq<string>, i: nat, tfs: seq<multiset<string>>, lengths: seq<nat>, df: multiset<string>, df': multiset<string>)
    requires i < |docs|
    requires Counted(docs[..i], tfs, lengths, df)
    requires forall t :: df'[t] == df[t] + (if t in Tokenize(docs[i]) then 1 else 0)
    ensures Counted(docs[..i + 1], tfs + [multiset(Tokenize(docs[i]))], lengths + [|Tokenize(docs[i])|], df')
  {
    IndexSnoc(docs, i);
    var m := multiset(Tokenize(docs[i]));
    forall t ensures df'[t] == DocCount(tfs + [m], t) {
      DocCountSnoc(tfs, m, t);
    }
  }

  /** After the last document the fields are the index of `docs`. */
  lemma IndexDone(docs: seq<string>, tfs: seq<multiset<string>>, lengths: seq<nat>, df: multiset<string>, avg: real)
    requires Counted(docs[..|docs|], tfs, lengths, df)
    requires avg == if |docs| > 0 then Sum(lengths) as real / |docs| as real else 0.0
    ensures Consistent(IndexData(docs, tfs, lengths, df, avg))
  {
    assert docs[..|docs|] == docs;
  }

  /* ---------- the engine object ---------- */

  /** `BM25SearchEngine`, with the fields `index` fills in place. */
  class SearchEngine {
    const ln: real -> real
    var documents: seq<string>
    var termFreqs: seq<multiset<string>>
    var docLengths: seq<nat>
    var docFreqs: multiset<string>
    var avgDocLength: real
    var indexed: bool

    /** The index fields as a value. */
    function Snapshot(): IndexData
      reads this
    {
      IndexData(documents, termFreqs, docLengths, docFreqs, avgDocLength)
    }

    /** The fields always describe the index of `documents`. */
    ghost predicate Valid()
      reads this
    {
      LogPositive(ln) && Consistent(Snapshot())
    }

    constructor (ln: real -> real)
      requires LogPositive(ln)
      ensures Valid() && this.ln == ln && !indexed && documents == []
    {
      this.ln := ln;
      documents := [];
      termFreqs := [];
      docLengths := [];
      docFreqs := multiset{};
      avgDocLength := 0.0;
      indexed := false;
    }

    /** `index`: rebuild every field from `docs`. */
    method Index(docs: seq<string>)
      requires Valid()
      modifies this
      ensures Valid() && indexed && documents == docs
    {
      documents := docs;
      CountDocuments();
      avgDocLength := if |docs| > 0 then Sum(docLengths) as real / |docs| as real else 0.0;
      indexed := true;
      IndexDone(docs, termFreqs, docLengths, docFreqs, avgDocLength);
    }

    /** The loop of `index`: term frequencies, lengths and document frequencies of every document, from scratch. */
    method CountDocuments()
      modifies this
      ensures Counted(documents[..|documents|], termFreqs, docLengths, docFreqs)
      ensures documents == old(documents) && avgDocLength == old(avgDocLength) && indexed == old(indexed)
    {
      termFreqs := [];
      docFreqs := multiset{};
      docLengths := [];
      for i := 0 to |documents|
        invariant documents == old(documents) && avgDocLength == old(avgDocLength) && indexed == old(indexed)
        invariant Counted(documents[..i], termFreqs, docLengths, docFreqs)
      {
        ghost var tfs, lengths, df := termFreqs, docLengths, docFreqs;
        AddDocument(documents[i]);
        IndexStep(documents, i, tfs, lengths, df, docFreqs);
      }
    }

    /** The body of the loop in `index`: count the tokens and the distinct terms of one more document. */
    method AddDocument(doc: string)
      modifies this
      ensures docLengths == old(docLengths) + [|Tokenize(doc)|]
      ensures termFreqs == old(termFreqs) + [multiset(Tokenize(doc))]
      ensures forall t :: docFreqs[t] == old(docFreqs)[t] + (if t in Tokenize(doc) then 1 else 0)
      ensures documents == old(documents) && avgDocLength == old(avgDocLength) && indexed == old(indexed)
    {
      var tokens := Tokenize(doc);
      docLengths := docLengths + [|tokens|];
      var termFreq := multiset(tokens);
      termFreqs := termFreqs + [termFreq];
      docFreqs := CountOncePerTerm(docFreqs, tokens);
    }

    /** `search`: nothing before indexing or for a query without tokens; else the ranking. */
    method Search(query: string, topK: int) returns (results: seq<Hit>)
      requires Valid()
      ensures !indexed || Tokenize(query) == [] ==> results == []
      ensures indexed && Tokenize(query) != [] ==> results == Ranking(Snapshot(), Tokenize(query), topK, ln)
    {
      if !indexed {
        return [];
      }
      var queryTerms := Tokenize(query);
      if queryTerms == [] {
        return [];
      }
      var ix := Snapshot();
      ConsistentShape(ix);
      var found: seq<Hit> := [];
      for idx := 0 to |documents|
        invariant found == Candidates(ix, queryTerms, idx, ln)
      {
        var scored := ScoreDocument(ix, queryTerms, idx, ln);
        if scored.score > 0.0 {
          found := found + [Hit(idx, scored.score, scored.matched)];
        }
      }
      results := Take(SortByScore(found), topK);
    }
  }
}
