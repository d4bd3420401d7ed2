/**
 * scikit-learn's CountVectorizer as used by src/dataPreprocessing.py:
 * `CountVectorizer(max_features=500, min_df=2)`, fitted on the training
 * documents only and then applied unchanged to the test documents.
 *
 * Documents are lower-cased and cut into the tokens of the default pattern
 * `(?u)\b\w\w+\b`. Fitting keeps the terms that occur in at least `minDf`
 * training documents, at most `maxFeatures` of them by total term frequency,
 * with the columns in sorted term order. Transforming counts each vocabulary
 * term in each document.
 */
module Vectorizer {
  import opened Chars
  import opened Wrappers
  import opened Positions

  // ---------------------------------------------------------------------
  // The analyzer: lowercase=True, token_pattern=r"(?u)\b\w\w+\b"
  // ---------------------------------------------------------------------

  /** Length of the leading run of word characters of s. */
  function WordRun(s: string): (n: nat)
    ensures n <= |s|
    ensures forall i :: 0 <= i < n ==> IsWordChar(s[i])
    ensures n < |s| ==> !IsWordChar(s[n])
  {
    if s == [] || !IsWordChar(s[0]) then 0 else 1 + WordRun(s[1..])
  }

  /** A term of the token pattern: at least two word characters. */
  predicate IsTerm(t: string) {
    |t| >= 2 && forall i :: 0 <= i < |t| ==> IsWordChar(t[i])
  }

  /** A run of word characters starts at index i of s (the `\b` before it). */
  predicate WordStart(s: string, i: int) {
    0 <= i < |s| && IsWordChar(s[i]) && (i == 0 || !IsWordChar(s[i - 1]))
  }

  /** The run of word characters that starts at index i of s. */
  function WordAt(s: string, i: nat): string
    requires i <= |s|
  {
    s[i..][..WordRun(s[i..])]
  }

  /**
   * Where the tokens of the default pattern start: the positions, from left
   * to right, at which a run of at least two word characters begins
   * (WordStartsExact).
   */
  function WordStarts(s: string): (starts: seq<nat>)
    ensures forall k :: 0 <= k < |starts| ==> starts[k] < |s|
    decreases |s|
  {
    if s == [] then []
    else if !IsWordChar(s[0]) then Shift(WordStarts(s[1..]), 1)
    else
      var n := WordRun(s);
      (if n >= 2 then [0] else []) + Shift(WordStarts(s[n..]), n)
  }

  /** A token of the default pattern starts at index i of s: a run of two or more word characters. */
  predicate TermStart(s: string, i: int) {
    WordStart(s, i) && WordRun(s[i..]) >= 2
  }

  /** WordStarts lists, from left to right, exactly the starts of the runs of two or more word characters. */
  lemma {:induction false} WordStartsExact(s: string)
    ensures Increasing(WordStarts(s))
    ensures forall i: int :: i in WordStarts(s) <==> TermStart(s, i)
    decreases |s|
  {
    if s != [] {
      var m := if !IsWordChar(s[0]) then 1 else WordRun(s);
      var rest := WordStarts(s[m..]);
      WordStartsExact(s[m..]);
      ShiftMembers(rest, m);
      assert Increasing(Shift(rest, m));
      forall i: int ensures i in WordStarts(s) <==> TermStart(s, i) {
        if 0 < i < m {
          assert IsWordChar(s[i - 1]);
        } else if m <= i < |s| {
          ShiftWordAt(s, m, i);
        } else if i == 0 {
          assert s[0..] == s;
        }
      }
    }
  }

  /**
   * `re.findall(r"(?u)\b\w\w+\b", s)`: the maximal runs of word characters
   * that are at least two characters long, in order. Every such run of s is a
   * token; a one-character run never is.
   */
  function Tokenize(s: string): (ts: seq<string>)
    ensures forall t :: t in ts ==> IsTerm(t)
    ensures forall i :: WordStart(s, i) && WordRun(s[i..]) >= 2 ==> WordAt(s, i) in ts
    decreases |s|
  {
    if s == [] then []
    else if !IsWordChar(s[0]) then
      ShiftWords(s, 1);
      Tokenize(s[1..])
    else
      var n := WordRun(s);
      ShiftWords(s, n);
      if n >= 2 then [s[..n]] + Tokenize(s[n..]) else Tokenize(s[n..])
  }

  /**
   * The tokens are the runs at the WordStarts, one token per start and in
   * the same order: no run is reported twice, cut short or out of place.
   */
  lemma {:induction false} TokenizeAtStarts(s: string)
    ensures |Tokenize(s)| == |WordStarts(s)|
    ensures forall k :: 0 <= k < |WordStarts(s)| ==> Tokenize(s)[k] == WordAt(s, WordStarts(s)[k])
    decreases |s|
  {
    if s != [] {
      var m := if !IsWordChar(s[0]) then 1 else WordRun(s);
      var head := if IsWordChar(s[0]) && m >= 2 then [s[..m]] else [];
      var headStarts := if |head| == 1 then [0] else [];
      assert Tokenize(s) == head + Tokenize(s[m..]);
      assert WordStarts(s) == headStarts + Shift(WordStarts(s[m..]), m);
      assert s[0..] == s;
      TokenizeAtStarts(s[m..]);
      ShiftedTokens(s, m);
      RunsAtStarts(s, head, headStarts, Tokenize(s[m..]), Shift(WordStarts(s[m..]), m));
    }
  }

  /** Runs at their starts, put side by side: the pairing survives concatenation. */
  lemma RunsAtStarts(s: string, ts: seq<string>, starts: seq<nat>, ts': seq<string>, starts': seq<nat>)
    requires |ts| == |starts| && |ts'| == |starts'|
    requires forall k :: 0 <= k < |starts| ==> starts[k] <= |s| && ts[k] == WordAt(s, starts[k])
    requires forall k :: 0 <= k < |starts'| ==> starts'[k] <= |s| && ts'[k] == WordAt(s, starts'[k])
    ensures |ts + ts'| == |starts + starts'|
    ensures forall k :: 0 <= k < |starts + starts'| ==> (ts + ts')[k] == WordAt(s, (starts + starts')[k])
  {
    forall k | 0 <= k < |starts + starts'| ensures (ts + ts')[k] == WordAt(s, (starts + starts')[k]) {
      if k >= |starts| {
        assert (ts + ts')[k] == ts'[k - |ts|];
      }
    }
  }

  /** The runs that start at the positions of s[m..] are the runs of s at those positions moved m places. */
  lemma ShiftedTokens(s: string, m: nat)
    requires 1 <= m <= |s|
    ensures forall k :: 0 <= k < |WordStarts(s[m..])| ==>
      WordAt(s[m..], WordStarts(s[m..])[k]) == WordAt(s, Shift(WordStarts(s[m..]), m)[k])
  {
    var starts := WordStarts(s[m..]);
    forall k | 0 <= k < |starts|
      ensures WordAt(s[m..], starts[k]) == WordAt(s, Shift(starts, m)[k])
    {
      var i := starts[k] + m;
      assert s[m..][i - m..] == s[i..];
    }
  }

  /**
   * When s[m - 1] is not a word character or m ends the first run, the runs
   * of s from index m on are the runs of s[m..].
   */
  lemma ShiftWords(s: string, m: nat)
    requires 1 <= m <= |s|
    requires !IsWordChar(s[m - 1]) || m == WordRun(s)
    ensures forall i :: m <= i < |s| && WordStart(s, i) ==>
      WordStart(s[m..], i - m) && s[i..] == s[m..][i - m..] && WordAt(s, i) == WordAt(s[m..], i - m)
  {
    forall i | m <= i < |s| && WordStart(s, i)
      ensures WordStart(s[m..], i - m) && s[i..] == s[m..][i - m..] && WordAt(s, i) == WordAt(s[m..], i - m)
    {
      ShiftWordAt(s, m, i);
    }
  }

  /** ShiftWords at one index, in both directions. */
  lemma ShiftWordAt(s: string, m: nat, i: int)
    requires 1 <= m <= i < |s|
    requires !IsWordChar(s[m - 1]) || m == WordRun(s)
    ensures WordStart(s, i) <==> WordStart(s[m..], i - m)
    ensures TermStart(s, i) <==> TermStart(s[m..], i - m)
    ensures s[i..] == s[m..][i - m..] && WordAt(s, i) == WordAt(s[m..], i - m)
  {
    ShiftWordStart(s, m, i);
    assert s[m..][i - m..] == s[i..];
  }

  /** The `\b` before index i of s is the one before index i - m of s[m..]. */
  lemma ShiftWordStart(s: string, m: nat, i: int)
    requires 1 <= m <= i < |s|
    requires !IsWordChar(s[m - 1]) || m == WordRun(s)
    ensures WordStart(s, i) <==> WordStart(s[m..], i - m)
  {
    var rest, j := s[m..], i - m;
    assert rest[j] == s[i];
    if j > 0 {
      assert rest[j - 1] == s[i - 1];
    } else if IsWordChar(s[m - 1]) {
      assert !IsWordChar(s[m]);
    }
  }

  /** Every character of a token is a character of the tokenized text. */
  lemma {:induction false} TokenizeChars(s: string)
    ensures forall t, i :: t in Tokenize(s) && 0 <= i < |t| ==> t[i] in s
    decreases |s|
  {
    if s != [] {
      if !IsWordChar(s[0]) {
        TokenizeChars(s[1..]);
        assert forall c :: c in s[1..] ==> c in s;
      } else {
        var n := WordRun(s);
        TokenizeChars(s[n..]);
        assert forall c :: c in s[n..] ==> c in s;
        assert forall c :: c in s[..n] ==> c in s;
      }
    }
  }

  /** The vectorizer's analyzer: lower-case, then tokenize. */
  function Analyze(doc: string): seq<string> {
    Tokenize(ToLower(doc))
  }

  // ---------------------------------------------------------------------
  // Corpus statistics
  // ---------------------------------------------------------------------

  /** Occurrences of term t in a document. */
  function TermCount(doc: string, t: string): nat {
    multiset(Analyze(doc))[t]
  }

  /** Total occurrences of t in a corpus (a column sum of the count matrix). */
  function TermFreq(docs: seq<string>, t: string): nat {
    if docs == [] then 0 else TermCount(docs[0], t) + TermFreq(docs[1..], t)
  }

  /** Number of documents of the corpus in which t occurs. */
  function DocFreq(docs: seq<string>, t: string): nat {
    if docs == [] then 0 else (if t in Analyze(docs[0]) then 1 else 0) + DocFreq(docs[1..], t)
  }

  /** Every term of the corpus. */
  function Terms(docs: seq<string>): (ts: set<string>)
    ensures forall t :: t in ts ==> IsTerm(t)
  {
    if docs == [] then {} else (set t | t in Analyze(docs[0])) + Terms(docs[1..])
  }

  /** The terms that occur in at least minDf documents. */
  function Eligible(docs: seq<string>, minDf: nat): set<string> {
    set t | t in Terms(docs) && DocFreq(docs, t) >= minDf
  }

  function Min(a: nat, b: nat): nat {
    if a <= b then a else b
  }

  // ---------------------------------------------------------------------
  // Term order: Python's `<` on str, code point by code point
  // ---------------------------------------------------------------------

  predicate Less(a: string, b: string) {
    if a == [] then b != []
    else if b == [] then false
    else if a[0] != b[0] then a[0] < b[0]
    else Less(a[1..], b[1..])
  }

  lemma {:induction false} LessIrreflexive(a: string)
    ensures !Less(a, a)
  {
    if a != [] {
      LessIrreflexive(a[1..]);
    }
  }

  lemma {:induction false} LessTransitive(a: string, b: string, c: string)
    requires Less(a, b) && Less(b, c)
    ensures Less(a, c)
  {
    if a != [] && b != [] && c != [] && a[0] == b[0] && b[0] == c[0] {
      LessTransitive(a[1..], b[1..], c[1..]);
    }
  }

  lemma {:induction false} LessTotal(a: string, b: string)
    requires a != b
    ensures Less(a, b) || Less(b, a)
  {
    if a != [] && b != [] && a[0] == b[0] {
      assert a == [a[0]] + a[1..] && b == [b[0]] + b[1..];
      LessTotal(a[1..], b[1..]);
    }
  }

  predicate StrictlySorted(v: seq<string>) {
    forall i, j :: 0 <= i < j < |v| ==> Less(v[i], v[j])
  }

  predicate Distinct(v: seq<string>) {
    forall i, j :: 0 <= i < j < |v| ==> v[i] != v[j]
  }

  lemma SortedDistinct(v: seq<string>)
    requires StrictlySorted(v)
    ensures Distinct(v)
  {
    forall i, j | 0 <= i < j < |v| ensures v[i] != v[j] {
      LessIrreflexive(v[i]);
    }
  }

  /** A sequence without repetitions has as many elements as its set. */
  lemma {:induction false} DistinctCardinality(v: seq<string>)
    requires Distinct(v)
    ensures |set t | t in v| == |v|
  {
    if v != [] {
      var r := v[..|v| - 1];
      assert Distinct(r);
      DistinctCardinality(r);
      assert v == r + [v[|v| - 1]];
      assert v[|v| - 1] !in r;
      assert (set t | t in v) == (set t | t in r) + {v[|v| - 1]};
    }
  }

  // ---------------------------------------------------------------------
  // The fitted vocabulary
  // ---------------------------------------------------------------------

  /**
   * What `fit` learns from the training documents: sorted terms, each in at
   * least minDf documents, min(maxFeatures, #eligible) of them, and no
   * eligible term left out has a larger total frequency than a kept one. How
   * scikit-learn breaks ties between equal frequencies is left open.
   */
  predicate IsFittedVocabulary(v: seq<string>, docs: seq<string>, maxFeatures: nat, minDf: nat) {
    var eligible := Eligible(docs, minDf);
    && StrictlySorted(v)
    && (forall t :: t in v ==> t in eligible)
    && |v| == Min(maxFeatures, |eligible|)
    && (forall t, u :: t in v && u in eligible && u !in v ==> TermFreq(docs, u) <= TermFreq(docs, t))
  }

  /** The ValueErrors of `fit_transform`, and NotFittedError of `transform`. */
  datatype VectorizerError =
    | EmptyVocabulary   // no document has a single token
    | MaxDfBelowMinDf   // max_df=1.0 allows fewer documents (the corpus size) than min_df
    | NoTermsRemain     // no term reaches min_df
    | NotFitted         // transform before fit

  /** The error `fit_transform` raises on a corpus, if any, in the order scikit-learn checks. */
  function FitFailure(docs: seq<string>, minDf: nat): Option<VectorizerError> {
    if Terms(docs) == {} then Some(EmptyVocabulary)
    else if |docs| < minDf then Some(MaxDfBelowMinDf)
    else if Eligible(docs, minDf) == {} then Some(NoTermsRemain)
    else None
  }

  /** Row of the count matrix for one document: the count of each vocabulary term. */
  function CountRow(v: seq<string>, doc: string): seq<nat> {
    seq(|v|, j requires 0 <= j < |v| => TermCount(doc, v[j]))
  }

  /** The count matrix: one row per document, in order, one column per vocabulary term. */
  function CountMatrix(v: seq<string>, docs: seq<string>): seq<seq<nat>> {
    seq(|docs|, i requires 0 <= i < |docs| => CountRow(v, docs[i]))
  }

  // ---------------------------------------------------------------------
  // Fitting: choose the most frequent eligible terms, sort them
  // ---------------------------------------------------------------------

  /** A term of largest total frequency among the candidates. */
  method MostFrequent(cands: set<string>, docs: seq<string>) returns (m: string)
    requires cands != {}
    ensures m in cands
    ensures forall u :: u in cands ==> TermFreq(docs, u) <= TermFreq(docs, m)
  {
    m :| m in cands;
    var best := TermFreq(docs, m);
    var rest := cands - {m};
    while rest != {}
      invariant rest <= cands && m in cands && best == TermFreq(docs, m)
      invariant forall u :: u in cands && u !in rest ==> TermFreq(docs, u) <= best
      decreases |rest|
    {
      var u :| u in rest;
      var f := TermFreq(docs, u);
      if f > best {
        m, best := u, f;
      }
      rest := rest - {u};
    }
  }

  /**
   * The max_features cut: k candidates (or all, if fewer) such that no
   * candidate left out is more frequent than one kept.
   */
  method SelectMostFrequent(cands: set<string>, docs: seq<string>, k: nat) returns (kept: set<string>)
    ensures kept <= cands
    ensures |kept| == Min(k, |cands|)
    ensures forall t, u :: t in kept && u in cands && u !in kept ==> TermFreq(docs, u) <= TermFreq(docs, t)
  {
    kept := {};
    var rest := cands;
    while |kept| < k && rest != {}
      invariant kept !! rest && kept + rest == cands
      invariant |kept| + |rest| == |cands|
      invariant |kept| <= k
      invariant forall t, u :: t in kept && u in rest ==> TermFreq(docs, u) <= TermFreq(docs, t)
      decreases |rest|
    {
      var m := MostFrequent(rest, docs);
      kept := kept + {m};
      rest := rest - {m};
    }
  }

  /** The least term of a non-empty set. */
  method LeastTerm(s: set<string>) returns (m: string)
    requires s != {}
    ensures m in s
    ensures forall u :: u in s && u != m ==> Less(m, u)
  {
    m :| m in s;
    var rest := s - {m};
    while rest != {}
      invariant rest <= s && m in s && m !in rest
      invariant forall u :: u in s && u !in rest && u != m ==> Less(m, u)
      decreases |rest|
    {
      var u :| u in rest;
      if Less(u, m) {
        forall w | w in s && w !in rest && w != u
          ensures Less(u, w)
        {
          if w != m {
            LessTransitive(u, m, w);
          }
        }
        m := u;
      } else {
        LessTotal(u, m);
      }
      rest := rest - {u};
    }
  }

  /** The terms of a set in increasing order: the column order of the vocabulary. */
  method SortTerms(s: set<string>) returns (v: seq<string>)
    ensures StrictlySorted(v)
    ensures forall t :: t in v <==> t in s
    ensures |v| == |s|
  {
    v := [];
    var rest := s;
    while rest != {}
      invariant rest <= s
      invariant StrictlySorted(v)
      invariant forall t :: t in v <==> t in s && t !in rest
      invariant forall i, u :: 0 <= i < |v| && u in rest ==> Less(v[i], u)
      invariant |v| + |rest| == |s|
      decreases |rest|
    {
      var m := LeastTerm(rest);
      v := v + [m];
      rest := rest - {m};
    }
  }

  // ---------------------------------------------------------------------
  // Transforming: count the vocabulary terms of each document
  // ---------------------------------------------------------------------

  /** The column of term t, if t is in the vocabulary. */
  method ColumnOf(v: seq<string>, t: string) returns (col: Option<nat>)
    ensures col.Some? ==> col.value < |v| && v[col.value] == t
    ensures col.None? ==> t !in v
  {
    var j := 0;
    while j < |v|
      invariant j <= |v|
      invariant t !in v[..j]
    {
      if v[j] == t {
        return Some(j);
      }
      assert v[..j + 1] == v[..j] + [v[j]];
      j := j + 1;
    }
    assert v[..j] == v;
    return None;
  }

  /** Count the vocabulary terms of one document, token by token; other tokens are ignored. */
  method CountTerms(v: seq<string>, doc: string) returns (row: seq<nat>)
    requires Distinct(v)
    ensures row == CountRow(v, doc)
  {
    var toks := Analyze(doc);
    var counts := new nat[|v|](_ => 0);
    for k := 0 to |toks|
      invariant forall j :: 0 <= j < |v| ==> counts[j] == multiset(toks[..k])[v[j]]
    {
      assert toks[..k + 1] == toks[..k] + [toks[k]];
      var col := ColumnOf(v, toks[k]);
      if col.Some? {
        counts[col.value] := counts[col.value] + 1;
      }
    }
    assert toks[..|toks|] == toks;
    row := counts[..];
  }

  /** Count the vocabulary terms of every document, in order. */
  method CountDocuments(v: seq<string>, docs: seq<string>) returns (m: seq<seq<nat>>)
    requires Distinct(v)
    ensures m == CountMatrix(v, docs)
  {
    m := [];
    for i := 0 to |docs|
      invariant |m| == i
      invariant forall k :: 0 <= k < i ==> m[k] == CountRow(v, docs[k])
    {
      var row := CountTerms(v, docs[i]);
      m := m + [row];
    }
  }

  // ---------------------------------------------------------------------
  // The vectorizer object
  // ---------------------------------------------------------------------

  /**
   * The vectorizer: its two parameters and, once fitted, its vocabulary
   * (`vocabulary_`, here as the sorted sequence of its terms).
   */
  class CountVectorizer {
    const maxFeatures: nat
    const minDf: nat
    var vocabulary: Option<seq<string>>

    ghost predicate Valid()
      reads this
    {
      maxFeatures >= 1 && minDf >= 1 && (vocabulary.Some? ==> StrictlySorted(vocabulary.value))
    }

    /** scikit-learn accepts only max_features >= 1 and an integer min_df >= 1. */
    constructor (maxFeatures: nat, minDf: nat)
      requires maxFeatures >= 1 && minDf >= 1
      ensures Valid()
      ensures this.maxFeatures == maxFeatures && this.minDf == minDf && vocabulary == None
    {
      this.maxFeatures := maxFeatures;
      this.minDf := minDf;
      vocabulary := None;
    }

    /**
     * `fit_transform`: learn the vocabulary from docs and return their count
     * matrix; on a ValueError the vectorizer is left as it was.
     */
    method FitTransform(docs: seq<string>) returns (r: Result<seq<seq<nat>>, VectorizerError>)
      requires Valid()
      modifies this
      ensures Valid()
      ensures r.Failure? <==> FitFailure(docs, minDf).Some?
      ensures r.Failure? ==> r.error == FitFailure(docs, minDf).value && vocabulary == old(vocabulary)
      ensures r.Success? ==> vocabulary.Some? && IsFittedVocabulary(vocabulary.value, docs, maxFeatures, minDf)
      ensures r.Success? ==> r.value == CountMatrix(vocabulary.value, docs)
    {
      if Terms(docs) == {} {
        return Failure(EmptyVocabulary);
      }
      if |docs| < minDf {
        return Failure(MaxDfBelowMinDf);
      }
      var eligible := Eligible(docs, minDf);
      if eligible == {} {
        return Failure(NoTermsRemain);
      }
      var kept := eligible;
      if |eligible| > maxFeatures {
        kept := SelectMostFrequent(eligible, docs, maxFeatures);
      }
      var v := SortTerms(kept);
      SortedDistinct(v);
      var m := CountDocuments(v, docs);
      vocabulary := Some(v);
      return Success(m);
    }

    /**
     * `transform`: the count matrix of docs over the fitted vocabulary. It
     * reads the vocabulary and never changes it.
     */
    method Transform(docs: seq<string>) returns (r: Result<seq<seq<nat>>, VectorizerError>)
      requires Valid()
      ensures vocabulary.None? ==> r == Failure(NotFitted)
      ensures vocabulary.Some? ==> r == Success(CountMatrix(vocabulary.value, docs))
    {
      if vocabulary.None? {
        return Failure(NotFitted);
      }
      var v := vocabulary.value;
      SortedDistinct(v);
      var m := CountDocuments(v, docs);
      return Success(m);
    }
  }

  // ---------------------------------------------------------------------
  // Properties
  // ---------------------------------------------------------------------

  /** A term has a positive document frequency exactly when it is a term of the corpus. */
  lemma {:induction false} DocFreqPositive(docs: seq<string>, t: string)
    ensures DocFreq(docs, t) > 0 <==> t in Terms(docs)
    ensures DocFreq(docs, t) <= |docs|
  {
    if docs != [] {
      DocFreqPositive(docs[1..], t);
    }
  }

  /** A term occurs at least once in every document that counts toward its document frequency. */
  lemma {:induction false} DocFreqAtMostTermFreq(docs: seq<string>, t: string)
    ensures DocFreq(docs, t) <= TermFreq(docs, t)
  {
    if docs != [] {
      DocFreqAtMostTermFreq(docs[1..], t);
      if t in Analyze(docs[0]) {
        assert multiset(Analyze(docs[0]))[t] > 0;
      }
    }
  }

  /**
   * The fitted vocabulary has at most maxFeatures terms, each a token of at
   * least two word characters found in at least minDf training documents.
   */
  lemma VocabularyBounds(v: seq<string>, docs: seq<string>, maxFeatures: nat, minDf: nat)
    requires IsFittedVocabulary(v, docs, maxFeatures, minDf)
    ensures |v| <= maxFeatures
    ensures forall t :: t in v ==> IsTerm(t) && DocFreq(docs, t) >= minDf
  {
  }

  /** If no more than maxFeatures terms reach minDf, the vocabulary is all of them. */
  lemma AllEligibleKept(v: seq<string>, docs: seq<string>, maxFeatures: nat, minDf: nat)
    requires IsFittedVocabulary(v, docs, maxFeatures, minDf)
    requires |Eligible(docs, minDf)| <= maxFeatures
    ensures forall t :: t in v <==> t in Eligible(docs, minDf)
  {
    var eligible := Eligible(docs, minDf);
    var vs := set t | t in v;
    SortedDistinct(v);
    DistinctCardinality(v);
    assert vs <= eligible;
    assert |eligible - vs| == |eligible| - |vs| == 0;
    assert eligible - vs == {};
  }

  /**
   * No leakage: a term absent from every training document is never a column,
   * whatever the test documents hold; the test matrix has one row per test
   * document and the same columns as the training matrix.
   */
  lemma NoLeakage(v: seq<string>, train: seq<string>, test: seq<string>, maxFeatures: nat, minDf: nat, t: string)
    requires IsFittedVocabulary(v, train, maxFeatures, minDf)
    requires t !in Terms(train)
    ensures t !in v
    ensures |CountMatrix(v, test)| == |test|
    ensures forall i :: 0 <= i < |test| ==> |CountMatrix(v, test)[i]| == |v|
  {
    DocFreqPositive(train, t);
  }

  /** Number of tokens of ts that belong to the term set s. */
  function KnownCount(ts: seq<string>, s: set<string>): nat {
    if ts == [] then 0 else (if ts[0] in s then 1 else 0) + KnownCount(ts[1..], s)
  }

  function Sum(row: seq<nat>): nat {
    if row == [] then 0 else row[0] + Sum(row[1..])
  }

  lemma {:induction false} KnownCountAdd(ts: seq<string>, s: set<string>, x: string)
    requires x !in s
    ensures KnownCount(ts, s + {x}) == KnownCount(ts, s) + multiset(ts)[x]
  {
    if ts != [] {
      KnownCountAdd(ts[1..], s, x);
      assert ts == [ts[0]] + ts[1..];
      assert multiset(ts) == multiset{ts[0]} + multiset(ts[1..]);
    }
  }

  /**
   * Tokens outside the vocabulary are ignored: the entries of a row add up
   * to the number of the document's tokens that are vocabulary terms.
   */
  lemma {:induction false} RowSumCountsKnownTokens(v: seq<string>, doc: string)
    requires Distinct(v)
    ensures Sum(CountRow(v, doc)) == KnownCount(Analyze(doc), set t | t in v)
  {
    if v == [] {
      assert CountRow(v, doc) == [];
      assert (set t | t in v) == {};
      KnownCountNone(Analyze(doc));
    } else {
      var r := v[1..];
      assert Distinct(r);
      RowSumCountsKnownTokens(r, doc);
      assert CountRow(v, doc) == [TermCount(doc, v[0])] + CountRow(r, doc);
      assert v[0] !in r;
      assert (set t | t in v) == (set t | t in r) + {v[0]};
      KnownCountAdd(Analyze(doc), (set t | t in r), v[0]);
    }
  }

  lemma {:induction false} KnownCountNone(ts: seq<string>)
    ensures KnownCount(ts, {}) == 0
  {
    if ts != [] {
      KnownCountNone(ts[1..]);
    }
  }

  /** A leading word run ends where the word ends when a space follows. */
  lemma {:induction false} WordRunSeparated(x: string, y: string)
    ensures WordRun(x + " " + y) == WordRun(x)
  {
    if x != [] && IsWordChar(x[0]) {
      assert (x + " " + y)[1..] == x[1..] + " " + y;
      WordRunSeparated(x[1..], y);
    }
  }

  /** Tokens never span a space: tokenizing x, a space, y tokenizes x and y apart. */
  lemma {:induction false} TokenizeSeparated(x: string, y: string)
    ensures Tokenize(x + " " + y) == Tokenize(x) + Tokenize(y)
    decreases |x|
  {
    var s := x + " " + y;
    if x == [] {
      assert s == " " + y && s[1..] == y;
    } else if !IsWordChar(x[0]) {
      assert s[1..] == x[1..] + " " + y;
      TokenizeSeparated(x[1..], y);
    } else {
      var n := WordRun(x);
      WordRunSeparated(x, y);
      assert s[..n] == x[..n];
      assert s[n..] == x[n..] + " " + y;
      TokenizeSeparated(x[n..], y);
    }
  }

  /**
   * The combined text `title + " " + text` has exactly the tokens of the
   * title followed by those of the text, so its count row is the sum of the
   * two rows.
   */
  lemma CombinedTokens(title: string, text: string, v: seq<string>)
    ensures Analyze(title + " " + text) == Analyze(title) + Analyze(text)
    ensures forall j :: 0 <= j < |v| ==>
      CountRow(v, title + " " + text)[j] == CountRow(v, title)[j] + CountRow(v, text)[j]
  {
    ToLowerAppend(title + " ", text);
    ToLowerAppend(title, " ");
    assert ToLower(" ") == " ";
    TokenizeSeparated(ToLower(title), ToLower(text));
  }
}
