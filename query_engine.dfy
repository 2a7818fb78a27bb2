/**
 * `search_documents` (src/interact.rs and src/main.rs, the same algorithm
 * in both): tokenise the query, count document frequencies, score every
 * document by TF-IDF, keep the positive scores, rank them and show the
 * first ten.
 *
 * `f64` is modelled as `real` plus a not-a-number value, and the natural
 * logarithm is a parameter `ln` of which only the signs are known.
 */
module QueryEngine {
  import opened Wrappers
  import opened Unicode
  import opened Lexer
  import opened TermFrequency

  /** The documents whose table contains term `t`. */
  function Containing(index: TermFreqIndex, t: string): (docs: set<string>)
    ensures docs <= index.Keys
  {
    set p | p in index && t in index[p]
  }

  /** The documents among `keys` whose table contains term `t`. */
  function ContainingAmong(index: TermFreqIndex, keys: set<string>, t: string): (docs: set<string>)
    requires keys <= index.Keys
    ensures docs <= keys
  {
    set p | p in keys && t in index[p]
  }

  lemma SubsetCardinality(a: set<string>, b: set<string>)
    requires a <= b
    ensures |a| <= |b|
  {
    assert b == a + (b - a);
  }

  /**
   * The document frequencies the nested loop produces, in closed form:
   * every query term found in some document, with the number of those
   * documents multiplied by the number of times the term occurs in the
   * query, since each occurrence runs the inner loop again.
   */
  function DocumentFrequency(index: TermFreqIndex, terms: seq<string>): (df: map<string, nat>)
    ensures PositiveCounts(df)
  {
    PositiveProduct(index, terms);
    map t | t in terms && Containing(index, t) != {} :: Count(terms, t) * |Containing(index, t)|
  }

  /** The intended document frequency: the number of documents containing the term. */
  function DistinctDocumentFrequency(index: TermFreqIndex, terms: seq<string>): (df: map<string, nat>)
    ensures PositiveCounts(df)
  {
    map t | t in terms && Containing(index, t) != {} :: |Containing(index, t)|
  }

  /** All frequencies are positive, so dividing by them is defined. */
  predicate PositiveCounts(df: map<string, nat>) {
    forall t :: t in df ==> df[t] > 0
  }

  lemma PositiveProduct(index: TermFreqIndex, terms: seq<string>)
    ensures forall t :: t in terms && Containing(index, t) != {} ==> Count(terms, t) * |Containing(index, t)| > 0
  {
    forall t | t in terms && Containing(index, t) != {}
      ensures Count(terms, t) * |Containing(index, t)| > 0
    {
      assert Count(terms, t) >= 1 && |Containing(index, t)| >= 1;
    }
  }

  /** `k` more documents counted for term `t`: the entry is created on the first. */
  function Bump(df: map<string, nat>, t: string, k: nat): map<string, nat> {
    if k == 0 then df else df[t := Get(df, t) + k]
  }

  /** One more document looked at, which contains the term or not. */
  lemma BumpStep(start: map<string, nat>, t: string, k: nat, df: map<string, nat>, found: bool)
    requires df == Bump(start, t, k)
    ensures (if found then df[t := Get(df, t) + 1] else df) == Bump(start, t, k + (if found then 1 else 0))
  {
  }

  lemma ContainingAmongAdd(index: TermFreqIndex, keys: set<string>, p: string, t: string)
    requires keys <= index.Keys && p in index && p !in keys
    ensures |ContainingAmong(index, keys + {p}, t)|
      == |ContainingAmong(index, keys, t)| + (if t in index[p] then 1 else 0)
  {
    if t in index[p] {
      assert ContainingAmong(index, keys + {p}, t) == ContainingAmong(index, keys, t) + {p};
    } else {
      assert ContainingAmong(index, keys + {p}, t) == ContainingAmong(index, keys, t);
    }
  }

  lemma CountSnoc(terms: seq<string>, t: string, x: string)
    ensures Count(terms + [t], x) == Count(terms, x) + (if x == t then 1 else 0)
  {
    assert multiset(terms + [t]) == multiset(terms) + multiset{t};
  }

  lemma DocumentFrequencySnoc(index: TermFreqIndex, a: seq<string>, t: string)
    ensures DocumentFrequency(index, a + [t])
      == Bump(DocumentFrequency(index, a), t, |Containing(index, t)|)
  {
    var before, after := DocumentFrequency(index, a), DocumentFrequency(index, a + [t]);
    var k := |Containing(index, t)|;
    forall x ensures x in after <==> x in Bump(before, t, k) {
      DocumentFrequencyAt(index, a, x);
      DocumentFrequencyAt(index, a + [t], x);
    }
    forall x | x in after ensures after[x] == Bump(before, t, k)[x] {
      DocumentFrequencyAt(index, a, x);
      DocumentFrequencyAt(index, a + [t], x);
      CountSnoc(a, t, x);
      if x == t {
        MultiplyOneMore(Count(a, x), k);
      }
    }
  }

  /** One entry of the closed form. */
  lemma DocumentFrequencyAt(index: TermFreqIndex, terms: seq<string>, x: string)
    ensures x in DocumentFrequency(index, terms) <==> x in terms && Containing(index, x) != {}
    ensures x in DocumentFrequency(index, terms) ==>
      DocumentFrequency(index, terms)[x] == Count(terms, x) * |Containing(index, x)|
  {
  }

  lemma MultiplyOneMore(c: nat, k: nat)
    ensures (c + 1) * k == c * k + k
  {
  }

  /**
   * The inner loop for one query term: one more for the term for every
   * document whose table contains it.
   */
  method CountDocumentsWith(index: TermFreqIndex, term: string, df: map<string, nat>)
    returns (updated: map<string, nat>)
    ensures updated == Bump(df, term, |Containing(index, term)|)
  {
    updated := df;
    var docs := index.Keys;
    while docs != {}
      invariant docs <= index.Keys
      invariant updated == Bump(df, term, |ContainingAmong(index, index.Keys - docs, term)|)
    {
      var path :| path in docs;
      DocumentLookedAt(index, docs, path, term, df, updated);
      if term in index[path] {
        updated := updated[term := Get(updated, term) + 1];
      }
      docs := docs - {path};
    }
    assert index.Keys - docs == index.Keys;
  }

  /** The inner loop's invariant survives looking at one more document. */
  lemma DocumentLookedAt(index: TermFreqIndex, docs: set<string>, path: string, term: string,
                         df: map<string, nat>, updated: map<string, nat>)
    requires docs <= index.Keys && path in docs
    requires updated == Bump(df, term, |ContainingAmong(index, index.Keys - docs, term)|)
    ensures (if term in index[path] then updated[term := Get(updated, term) + 1] else updated)
      == Bump(df, term, |ContainingAmong(index, index.Keys - (docs - {path}), term)|)
  {
    var visited := index.Keys - docs;
    assert index.Keys - (docs - {path}) == visited + {path};
    ContainingAmongAdd(index, visited, path, term);
    BumpStep(df, term, |ContainingAmong(index, visited, term)|, updated, term in index[path]);
  }

  /**
   * The nested loop over query terms and documents (a term repeated in the
   * query is counted again for every occurrence).
   */
  method DocumentFrequencies(index: TermFreqIndex, terms: seq<string>) returns (df: map<string, nat>)
    ensures df == DocumentFrequency(index, terms)
  {
    df := map[];
    for i := 0 to |terms|
      invariant df == DocumentFrequency(index, terms[..i])
    {
      df := CountDocumentsWith(index, terms[i], df);
      assert terms[..i + 1] == terms[..i] + [terms[i]];
      DocumentFrequencySnoc(index, terms[..i], terms[i]);
    }
    assert terms[..|terms|] == terms;
  }

  /**
   * The query terms with repetitions dropped, first occurrences kept in
   * order: a step of the corrected ranking only, the source has none.
   */
  method Deduplicate(terms: seq<string>) returns (unique: seq<string>)
    ensures NoRepeats(unique)
    ensures forall t :: t in unique <==> t in terms
  {
    unique := [];
    for i := 0 to |terms|
      invariant NoRepeats(unique)
      invariant forall t :: t in unique <==> t in terms[..i]
    {
      assert terms[..i + 1] == terms[..i] + [terms[i]];
      if terms[i] !in unique {
        unique := unique + [terms[i]];
      }
    }
    assert terms[..|terms|] == terms;
  }

  /** Counting over the distinct terms gives the corrected frequencies. */
  lemma DeduplicatedFrequency(index: TermFreqIndex, terms: seq<string>, unique: seq<string>)
    requires NoRepeats(unique) && forall t :: t in unique <==> t in terms
    ensures DocumentFrequency(index, unique) == DistinctDocumentFrequency(index, terms)
  {
    RepeatFreeFrequency(index, unique);
  }

  /** An `f64`: a real number or not-a-number. */
  datatype Score = Finite(value: real) | NotANumber

  /** `f64` addition: not-a-number absorbs everything. */
  function Plus(a: Score, b: Score): (sum: Score)
    ensures sum.Finite? <==> a.Finite? && b.Finite?
  {
    if a.Finite? && b.Finite? then Finite(a.value + b.value) else NotANumber
  }

  /** `score > 0.0`: false for not-a-number. */
  predicate Positive(s: Score) {
    s.Finite? && s.value > 0.0
  }

  /**
   * All that is known of the natural logarithm: on positive arguments it is
   * positive above 1, negative below 1, and so 0 at 1.
   */
  ghost predicate LnSigns(ln: real -> real) {
    forall x: real :: x > 0.0 ==> (ln(x) > 0.0 <==> x > 1.0) && (ln(x) < 0.0 <==> x < 1.0)
  }

  /**
   * One query term's `tf * idf` in a document with `total` terms of which
   * `count` are this term, among `docs` documents; a term with no frequency
   * counts as found in one document. A document whose counts add up to 0
   * divides 0 by 0.
   */
  function Weight(ln: real -> real, docs: nat, df: map<string, nat>, t: string, count: nat, total: nat): Score
    requires PositiveCounts(df)
  {
    if total == 0 then NotANumber
    else Finite((count as real / total as real) * ln(docs as real / (if t in df then df[t] else 1) as real))
  }

  /**
   * The score of a document with table `tf`: the weights of the query terms
   * it contains, summed once per occurrence in the query.
   */
  ghost function DocumentScore(ln: real -> real, docs: nat, df: map<string, nat>, tf: TermFreq, terms: seq<string>): Score
    requires PositiveCounts(df)
    decreases |terms|
  {
    if terms == [] then Finite(0.0)
    else
      var rest := DocumentScore(ln, docs, df, tf, terms[..|terms| - 1]);
      var t := terms[|terms| - 1];
      if t in tf then Plus(rest, Weight(ln, docs, df, t, tf[t], SumValues(tf))) else rest
  }

  /** `term_freq.values().sum()`, in the table's iteration order. */
  method TotalTerms(tf: TermFreq) returns (total: nat)
    ensures total == SumValues(tf)
  {
    total := 0;
    var rest := tf;
    while rest != map[]
      invariant total + SumValues(rest) == SumValues(tf)
      decreases |rest|
    {
      var k :| k in rest;
      SumValuesRemove(rest, k);
      total := total + rest[k];
      assert (rest - {k}).Keys == rest.Keys - {k};
      rest := rest - {k};
    }
  }

  /** The score loop for one document. */
  method ScoreDocument(ln: real -> real, docs: nat, df: map<string, nat>, tf: TermFreq, terms: seq<string>)
    returns (score: Score)
    requires PositiveCounts(df)
    ensures score == DocumentScore(ln, docs, df, tf, terms)
  {
    var total := TotalTerms(tf);
    score := Finite(0.0);
    for i := 0 to |terms|
      invariant score == DocumentScore(ln, docs, df, tf, terms[..i])
    {
      var t := terms[i];
      assert terms[..i + 1][..i] == terms[..i];
      if t in tf {
        score := Plus(score, Weight(ln, docs, df, t, tf[t], total));
      }
    }
    assert terms[..|terms|] == terms;
  }

  /** The documents among `keys` that score above 0, with their scores. */
  ghost function ScoresAmong(ln: real -> real, index: TermFreqIndex, df: map<string, nat>, terms: seq<string>, keys: set<string>)
    : map<string, real>
    requires PositiveCounts(df) && keys <= index.Keys
  {
    map p | p in keys && Positive(DocumentScore(ln, |index|, df, index[p], terms))
      :: DocumentScore(ln, |index|, df, index[p], terms).value
  }

  /** `document_scores`: every document that scores above 0, with its score. */
  ghost function Scores(ln: real -> real, index: TermFreqIndex, df: map<string, nat>, terms: seq<string>): (scores: map<string, real>)
    requires PositiveCounts(df)
    ensures scores.Keys <= index.Keys
    ensures forall p :: p in scores ==> scores[p] > 0.0
  {
    ScoresAmong(ln, index, df, terms, index.Keys)
  }

  lemma ScoresAmongAdd(ln: real -> real, index: TermFreqIndex, df: map<string, nat>, terms: seq<string>, keys: set<string>, p: string)
    requires PositiveCounts(df) && keys <= index.Keys && p in index
    ensures var score := DocumentScore(ln, |index|, df, index[p], terms);
      ScoresAmong(ln, index, df, terms, keys + {p})
        == if Positive(score) then ScoresAmong(ln, index, df, terms, keys)[p := score.value]
           else ScoresAmong(ln, index, df, terms, keys)
  {
  }

  /** The loop over the index that fills `document_scores`. */
  method DocumentScores(ln: real -> real, index: TermFreqIndex, df: map<string, nat>, terms: seq<string>)
    returns (scores: map<string, real>)
    requires PositiveCounts(df)
    ensures scores == Scores(ln, index, df, terms)
  {
    scores := map[];
    var docs := index.Keys;
    ghost var visited: set<string> := {};
    while docs != {}
      invariant docs + visited == index.Keys && docs !! visited
      invariant scores == ScoresAmong(ln, index, df, terms, visited)
    {
      var path :| path in docs;
      var score := ScoreDocument(ln, |index|, df, index[path], terms);
      ScoresAmongAdd(ln, index, df, terms, visited, path);
      if score.Finite? && score.value > 0.0 {
        scores := scores[path := score.value];
      }
      docs := docs - {path};
      visited := visited + {path};
    }
  }

  /** A ranked document. */
  datatype Hit = Hit(path: string, score: real)

  predicate Descending(hits: seq<Hit>) {
    forall i, j :: 0 <= i < j < |hits| ==> hits[i].score >= hits[j].score
  }

  predicate Distinct(hits: seq<Hit>) {
    forall i, j :: 0 <= i < j < |hits| ==> hits[i] != hits[j]
  }

  /**
   * Puts `hit` after every hit scoring at least as much, so that inserting
   * in collection order sorts stably, as `sort_by` does.
   */
  function Insert(hit: Hit, ranked: seq<Hit>): (r: seq<Hit>)
    requires Descending(ranked)
    ensures |r| == |ranked| + 1
    ensures forall h :: h in r <==> h == hit || h in ranked
    ensures Descending(r)
    ensures hit !in ranked && Distinct(ranked) ==> Distinct(r)
  {
    if ranked == [] || ranked[0].score < hit.score then
      ConsDescending(hit, ranked);
      ConsDistinct(hit, ranked);
      [hit] + ranked
    else
      var rest := Insert(hit, ranked[1..]);
      HeadBoundsInsert(hit, ranked, rest);
      ConsDescending(ranked[0], rest);
      ConsDistinct(ranked[0], rest);
      [ranked[0]] + rest
  }

  lemma ConsDescending(h: Hit, hits: seq<Hit>)
    requires Descending(hits) && forall x :: x in hits ==> h.score >= x.score
    ensures Descending([h] + hits)
  {
    var r := [h] + hits;
    forall i, j | 0 <= i < j < |r| ensures r[i].score >= r[j].score {
      if i > 0 {
        assert r[i] == hits[i - 1] && r[j] == hits[j - 1];
      } else {
        assert r[j] in hits;
      }
    }
  }

  lemma ConsDistinct(h: Hit, hits: seq<Hit>)
    ensures Distinct(hits) && h !in hits ==> Distinct([h] + hits)
  {
    if Distinct(hits) && h !in hits {
      var r := [h] + hits;
      forall i, j | 0 <= i < j < |r| ensures r[i] != r[j] {
        if i > 0 {
          assert r[i] == hits[i - 1] && r[j] == hits[j - 1];
        } else {
          assert r[j] in hits;
        }
      }
    }
  }

  /** The head of a descending ranking that did not give way bounds the insertion into its tail. */
  lemma HeadBoundsInsert(hit: Hit, ranked: seq<Hit>, rest: seq<Hit>)
    requires Descending(ranked) && ranked != [] && ranked[0].score >= hit.score
    requires forall h :: h in rest <==> h == hit || h in ranked[1..]
    ensures forall x :: x in rest ==> ranked[0].score >= x.score
    ensures hit !in ranked && Distinct(ranked) ==> ranked[0] !in rest
  {
    forall x | x in rest ensures ranked[0].score >= x.score {
      if x != hit {
        var k :| 0 <= k < |ranked[1..]| && ranked[1..][k] == x;
        assert ranked[k + 1] == x;
      }
    }
    if hit !in ranked && Distinct(ranked) {
      assert ranked[0] !in ranked[1..];
    }
  }

  /**
   * `ranked_docs`: the entries of `document_scores` collected and sorted
   * by score, best first.
   */
  method Rank(scores: map<string, real>) returns (ranked: seq<Hit>)
    ensures Descending(ranked) && Distinct(ranked) && |ranked| == |scores|
    ensures forall h :: h in ranked <==> h.path in scores && scores[h.path] == h.score
  {
    ranked := [];
    var rest := scores.Keys;
    ghost var done: set<string> := {};
    while rest != {}
      invariant rest + done == scores.Keys && rest !! done
      invariant Descending(ranked) && Distinct(ranked) && |ranked| == |done|
      invariant forall h :: h in ranked <==> h.path in done && scores[h.path] == h.score
    {
      var path :| path in rest;
      ranked := Insert(Hit(path, scores[path]), ranked);
      rest := rest - {path};
      done := done + {path};
    }
    assert done == scores.Keys;
  }

  /** How many results are displayed. */
  const ShownResults: nat := 10

  /** `ranked_docs.iter().take(10)`. */
  function Shown(ranked: seq<Hit>): seq<Hit> {
    if |ranked| <= ShownResults then ranked else ranked[..ShownResults]
  }

  /**
   * `shown` is a top ten of `scores`: taken from it, best first, as many as
   * there are up to ten, and no document left out scores higher than one
   * shown.
   */
  predicate TopResults(shown: seq<Hit>, scores: map<string, real>) {
    && Descending(shown)
    && Distinct(shown)
    && |shown| == (if |scores| < ShownResults then |scores| else ShownResults)
    && (forall h :: h in shown ==> h.path in scores && scores[h.path] == h.score)
    && (forall h, p :: h in shown && p in scores && Hit(p, scores[p]) !in shown ==> h.score >= scores[p])
  }

  lemma ShownAreTop(scores: map<string, real>, ranked: seq<Hit>)
    requires Descending(ranked) && Distinct(ranked) && |ranked| == |scores|
    requires forall h :: h in ranked <==> h.path in scores && scores[h.path] == h.score
    ensures TopResults(Shown(ranked), scores)
  {
    var shown := Shown(ranked);
    PrefixRanked(ranked, |shown|);
    assert shown == ranked[..|shown|];
    forall h, p | h in shown && p in scores && Hit(p, scores[p]) !in shown
      ensures h.score >= scores[p]
    {
      PrefixBeatsRest(ranked, |shown|, h, Hit(p, scores[p]));
    }
  }

  lemma PrefixRanked(ranked: seq<Hit>, n: nat)
    requires Descending(ranked) && Distinct(ranked) && n <= |ranked|
    ensures Descending(ranked[..n]) && Distinct(ranked[..n])
  {
  }

  /** In a descending ranking, a hit in the first `n` scores at least any hit not among them. */
  lemma PrefixBeatsRest(ranked: seq<Hit>, n: nat, h: Hit, other: Hit)
    requires Descending(ranked) && n <= |ranked|
    requires h in ranked[..n] && other in ranked && other !in ranked[..n]
    ensures h.score >= other.score
  {
    var i :| 0 <= i < n && ranked[..n][i] == h;
    var j :| 0 <= j < |ranked| && ranked[j] == other;
    assert ranked[i] == h;
  }

  /** The index file as the search finds it. */
  datatype IndexFile = Missing | Unreadable(error: string) | Loaded(index: TermFreqIndex)

  /** How a search ends: the first three print a message, the last the results. */
  datatype Outcome = IndexNotFound | LoadError(error: string) | NoSearchTerms | Results(shown: seq<Hit>)

  /**
   * `search_documents`: a missing index and a query without terms end
   * early, the latter before any scoring; otherwise the top ten of the
   * positive scores. The document frequencies are counted as the loop is
   * written, once per query term and so again for each repetition (see
   * `RepeatedTermDropsMatch`; `IntendedRanking` is the corrected ranking).
   */
  method SearchDocuments(u: Tables, ln: real -> real, file: IndexFile, query: string) returns (outcome: Outcome)
    ensures file == Missing ==> outcome == IndexNotFound
    ensures file.Unreadable? ==> outcome == LoadError(file.error)
    ensures file.Loaded? && Tokens(u, query) == [] ==> outcome == NoSearchTerms
    ensures file.Loaded? && Tokens(u, query) != [] ==>
      var terms := Tokens(u, query);
      outcome.Results? && TopResults(outcome.shown, Scores(ln, file.index, DocumentFrequency(file.index, terms), terms))
  {
    match file
    case Missing =>
      return IndexNotFound;
    case Unreadable(error) =>
      return LoadError(error);
    case Loaded(index) =>
      var lexer := new Lexer(query);
      var terms := lexer.Collect(u);
      if terms == [] {
        return NoSearchTerms;
      }
      var df := DocumentFrequencies(index, terms);
      var shown := TopTen(ln, index, df, terms);
      return Results(shown);
  }

  /** Scoring every document, ranking them and keeping the first ten. */
  method TopTen(ln: real -> real, index: TermFreqIndex, df: map<string, nat>, terms: seq<string>) returns (shown: seq<Hit>)
    requires PositiveCounts(df)
    ensures TopResults(shown, Scores(ln, index, df, terms))
  {
    var scores := DocumentScores(ln, index, df, terms);
    var ranked := Rank(scores);
    ShownAreTop(scores, ranked);
    shown := Shown(ranked);
  }

  /**
   * The corrected ranking: the same scores, with every document frequency
   * counted once per distinct query term.
   */
  method IntendedRanking(ln: real -> real, index: TermFreqIndex, terms: seq<string>) returns (shown: seq<Hit>)
    ensures TopResults(shown, Scores(ln, index, DistinctDocumentFrequency(index, terms), terms))
  {
    var unique := Deduplicate(terms);
    var df := DocumentFrequencies(index, unique);
    DeduplicatedFrequency(index, terms, unique);
    shown := TopTen(ln, index, df, terms);
  }

  /** A document containing none of the query terms scores 0. */
  lemma {:induction false} UnmatchedScoresZero(ln: real -> real, docs: nat, df: map<string, nat>, tf: TermFreq, terms: seq<string>)
    requires PositiveCounts(df)
    requires forall t :: t in terms ==> t !in tf
    ensures DocumentScore(ln, docs, df, tf, terms) == Finite(0.0)
    decreases |terms|
  {
    if terms != [] {
      var front := terms[..|terms| - 1];
      assert forall t :: t in front ==> t in terms;
      UnmatchedScoresZero(ln, docs, df, tf, front);
    }
  }

  /** So every result contains at least one query term. */
  lemma ResultsMatchQuery(ln: real -> real, index: TermFreqIndex, df: map<string, nat>, terms: seq<string>, p: string)
    requires PositiveCounts(df)
    requires p in Scores(ln, index, df, terms)
    ensures exists t :: t in terms && t in index[p]
  {
    if forall t :: t in terms ==> t !in index[p] {
      UnmatchedScoresZero(ln, |index|, df, index[p], terms);
    }
  }

  /** An empty index has no results, and no division is performed. */
  lemma EmptyIndexNoResults(ln: real -> real, df: map<string, nat>, terms: seq<string>, shown: seq<Hit>)
    requires PositiveCounts(df)
    requires TopResults(shown, Scores(ln, map[], df, terms))
    ensures shown == []
  {
    assert Scores(ln, map[], df, terms) == map[];
  }

  /** No term occurs twice. */
  predicate NoRepeats(terms: seq<string>) {
    forall i, j :: 0 <= i < j < |terms| ==> terms[i] != terms[j]
  }

  lemma {:induction false} CountedOnce(terms: seq<string>, t: string)
    requires NoRepeats(terms) && t in terms
    ensures Count(terms, t) == 1
    decreases |terms|
  {
    var front, last := terms[..|terms| - 1], terms[|terms| - 1];
    assert terms == front + [last];
    CountSnoc(front, last, t);
    if t == last {
      assert t !in front;
    } else {
      assert t in front;
      CountedOnce(front, t);
    }
  }

  /** Without repeated query terms the frequencies as written are the intended ones. */
  lemma RepeatFreeFrequency(index: TermFreqIndex, terms: seq<string>)
    requires NoRepeats(terms)
    ensures DocumentFrequency(index, terms) == DistinctDocumentFrequency(index, terms)
  {
    forall t | t in terms {
      CountedOnce(terms, t);
    }
  }

  lemma ProductSign(a: real, b: real)
    requires a > 0.0 && b >= 0.0
    ensures a * b >= 0.0 && (a * b > 0.0 <==> b > 0.0)
  {
  }

  /**
   * The weight of a term found in a document (`count` of its `total`
   * terms) and in at most all of the `docs` documents is never negative,
   * and is positive exactly when some document lacks the term.
   */
  lemma WeightSign(ln: real -> real, docs: nat, df: map<string, nat>, t: string, count: nat, total: nat)
    requires LnSigns(ln) && PositiveCounts(df)
    requires 1 <= count <= total && t in df && df[t] <= docs
    ensures var w := Weight(ln, docs, df, t, count, total);
      w.Finite? && w.value >= 0.0 && (w.value > 0.0 <==> df[t] < docs)
  {
    var ratio := docs as real / df[t] as real;
    assert ratio * df[t] as real == docs as real;
    assert ratio >= 1.0;
    assert ratio > 1.0 <==> df[t] < docs;
    ProductSign(count as real / total as real, ln(ratio));
  }

  /**
   * With the intended frequencies a score over query terms `q` is a sum of
   * weights that are never negative, so it is positive exactly when one of
   * them is.
   */
  lemma {:induction false} IntendedScoreSign(ln: real -> real, index: TermFreqIndex, terms: seq<string>, p: string, q: seq<string>)
    requires LnSigns(ln) && WellFormed(index) && p in index
    requires forall t :: t in q ==> t in terms
    ensures var s := DocumentScore(ln, |index|, DistinctDocumentFrequency(index, terms), index[p], q);
      s.Finite? && s.value >= 0.0
      && (s.value > 0.0 <==> exists t :: t in q && t in index[p] && |Containing(index, t)| < |index|)
    decreases |q|
  {
    if q != [] {
      var front, t := q[..|q| - 1], q[|q| - 1];
      assert q == front + [t];
      assert forall x :: x in front ==> x in q;
      IntendedScoreSign(ln, index, terms, p, front);
      var tf := index[p];
      if t in tf {
        SumValuesRemove(tf, t);
        assert p in Containing(index, t);
        SubsetCardinality(Containing(index, t), index.Keys);
        WeightSign(ln, |index|, DistinctDocumentFrequency(index, terms), t, tf[t], SumValues(tf));
      }
    }
  }

  /**
   * With the intended frequencies the results are exactly the documents
   * holding a query term that some other document lacks, however often the
   * term is repeated in the query.
   */
  lemma IntendedResults(ln: real -> real, index: TermFreqIndex, terms: seq<string>, p: string)
    requires LnSigns(ln) && WellFormed(index) && p in index
    ensures p in Scores(ln, index, DistinctDocumentFrequency(index, terms), terms)
      <==> exists t :: t in terms && t in index[p] && |Containing(index, t)| < |index|
  {
    IntendedScoreSign(ln, index, terms, p, terms);
  }

  /**
   * So every result a search shows holds a query term that some other
   * document of the index lacks.
   */
  lemma ShownResultsMatch(ln: real -> real, index: TermFreqIndex, terms: seq<string>, shown: seq<Hit>)
    requires LnSigns(ln) && WellFormed(index)
    requires TopResults(shown, Scores(ln, index, DistinctDocumentFrequency(index, terms), terms))
    ensures forall h :: h in shown ==>
      h.path in index && exists t :: t in terms && t in index[h.path] && |Containing(index, t)| < |index|
  {
    forall h | h in shown
      ensures h.path in index && exists t :: t in terms && t in index[h.path] && |Containing(index, t)| < |index|
    {
      IntendedResults(ln, index, terms, h.path);
    }
  }

  /** As written, the same holds of a query without repeated terms. */
  lemma RepeatFreeResults(ln: real -> real, index: TermFreqIndex, terms: seq<string>, p: string)
    requires LnSigns(ln) && WellFormed(index) && p in index && NoRepeats(terms)
    ensures p in Scores(ln, index, DocumentFrequency(index, terms), terms)
      <==> exists t :: t in terms && t in index[p] && |Containing(index, t)| < |index|
  {
    RepeatFreeFrequency(index, terms);
    IntendedResults(ln, index, terms, p);
  }

  /** Two documents, each with one term of its own. */
  function TwoDocuments(): TermFreqIndex {
    map["rust.txt" := map["rust" := 1], "python.txt" := map["python" := 1]]
  }

  /**
   * As written, repeating a query term can drop a match: "rust" finds
   * rust.txt, "rust rust" finds nothing, because the doubled frequency 2
   * equals the number of documents and ln(2 / 2) is 0.
   */
  lemma RepeatedTermDropsMatch(ln: real -> real)
    requires LnSigns(ln)
    ensures "rust.txt" in Scores(ln, TwoDocuments(), DocumentFrequency(TwoDocuments(), ["rust"]), ["rust"])
    ensures "rust.txt" !in Scores(ln, TwoDocuments(), DocumentFrequency(TwoDocuments(), ["rust", "rust"]), ["rust", "rust"])
  {
    SingleTermMatches(ln);
    DoubledFrequency();
    DoubledScore(ln);
    TwoDocumentsShape();
  }

  lemma SingleTermMatches(ln: real -> real)
    requires LnSigns(ln)
    ensures "rust.txt" in Scores(ln, TwoDocuments(), DocumentFrequency(TwoDocuments(), ["rust"]), ["rust"])
  {
    assert Containing(TwoDocuments(), "rust") == {"rust.txt"};
    RepeatFreeResults(ln, TwoDocuments(), ["rust"], "rust.txt");
  }

  lemma TwoDocumentsShape()
    ensures |TwoDocuments()| == 2 && TwoDocuments()["rust.txt"] == map["rust" := 1]
  {
    assert TwoDocuments().Keys == {"rust.txt", "python.txt"};
  }

  lemma DoubledFrequency()
    ensures DocumentFrequency(TwoDocuments(), ["rust", "rust"]) == map["rust" := 2]
  {
    assert Containing(TwoDocuments(), "rust") == {"rust.txt"};
    assert Count(["rust", "rust"], "rust") == 2;
  }

  lemma DoubledScore(ln: real -> real)
    requires LnSigns(ln)
    ensures DocumentScore(ln, 2, map["rust" := 2], map["rust" := 1], ["rust", "rust"]) == Finite(0.0)
  {
    var tf := map["rust" := 1];
    SumValuesRemove(tf, "rust");
    assert tf - {"rust"} == map[];
    assert ln(2.0 / 2.0) == 0.0;
    assert ["rust", "rust"][..1] == ["rust"];
    assert ["rust"][..0] == [];
  }

  /** With the intended frequencies the repeated query still finds rust.txt. */
  lemma RepeatedTermKeepsMatch(ln: real -> real)
    requires LnSigns(ln)
    ensures "rust.txt" in Scores(ln, TwoDocuments(), DistinctDocumentFrequency(TwoDocuments(), ["rust", "rust"]), ["rust", "rust"])
  {
    var index := TwoDocuments();
    assert Containing(index, "rust") == {"rust.txt"};
    IntendedResults(ln, index, ["rust", "rust"], "rust.txt");
  }
}
