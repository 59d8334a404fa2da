/** The keyword ranker `find_relevant_documents`: scores each document by how
    many of the question's surviving words occur in its lower-cased text,
    keeps those that reach the threshold, orders them by score (a stable sort,
    so ties keep store order) and returns the first three. */
module Ranker {
  import opened Text
  import opened Documents

  /** Stop words of main.py's ranker (30 words). */
  const UniversalStopWords: set<string> := {
    "what", "how", "where", "when", "why", "who", "is", "are", "the", "a", "an",
    "and", "or", "but", "in", "on", "at", "to", "for", "of", "with", "by", "about",
    "can", "could", "should", "would", "do", "does", "did"}

  /** Stop words of azure_main.py's ranker: the same without the modal and
      auxiliary verbs (23 words). */
  const AzureStopWords: set<string> := {
    "what", "how", "where", "when", "why", "who", "is", "are", "the", "a", "an",
    "and", "or", "but", "in", "on", "at", "to", "for", "of", "with", "by", "about"}

  function StopWords(variant: Variant): set<string> {
    match variant
    case Universal => UniversalStopWords
    case Azure => AzureStopWords
  }

  /** The characters `strip('.,!?')` removes from both ends of a word. */
  predicate IsTrimmedPunctuation(c: char) {
    c == '.' || c == ',' || c == '!' || c == '?'
  }

  /** A token survives when its ORIGINAL length exceeds 2 and its lower-cased,
      not yet stripped form is not a stop word. */
  predicate Survives(token: string, stopWords: set<string>) {
    |token| > 2 && Lower(token) !in stopWords
  }

  /** The word a surviving token contributes: lower-cased, then stripped of
      `.,!?` at both ends (possibly down to the empty word). */
  function Normalize(token: string): string {
    StripBy(Lower(token), IsTrimmedPunctuation)
  }

  function Keep(tokens: seq<string>, stopWords: set<string>): seq<string> {
    if |tokens| == 0 then []
    else KeepOne(tokens[0], stopWords) + Keep(tokens[1..], stopWords)
  }

  /** The question's words that count towards a score, one per occurrence. */
  function QuestionWords(question: string, variant: Variant): seq<string> {
    Keep(Split(question), StopWords(variant))
  }

  /** `sum(1 for word in words if word in text)` */
  function CountMatches(words: seq<string>, text: string): (n: nat)
    ensures n <= |words|
  {
    if |words| == 0 then 0
    else (if Contains(text, words[0]) then 1 else 0) + CountMatches(words[1..], text)
  }

  /** A positive count means some word occurs in the text. */
  lemma {:induction false} MatchingWordExists(words: seq<string>, text: string)
    requires CountMatches(words, text) > 0
    ensures exists w :: w in words && Contains(text, w)
  {
    if !Contains(text, words[0]) {
      MatchingWordExists(words[1..], text);
      var w :| w in words[1..] && Contains(text, w);
      assert w in words;
    }
  }

  /** The relevance score of a document. */
  function ScoreOf(words: seq<string>, d: Document): nat {
    CountMatches(words, Lower(d.content))
  }

  /** A (document, relevance_score) pair. */
  datatype Scored = Scored(doc: Document, score: int)

  /** The pairs the scoring loop collects, in store order: every document whose
      score reaches the threshold, with that score. */
  function Candidates(words: seq<string>, docs: seq<Document>, threshold: int): (cs: seq<Scored>)
    ensures |cs| <= |docs|
    ensures threshold <= 0 ==> |cs| == |docs|
    ensures forall i :: 0 <= i < |cs| ==>
      cs[i].doc in docs && cs[i].score == ScoreOf(words, cs[i].doc) && cs[i].score >= threshold
  {
    if |docs| == 0 then []
    else Candidates(words, docs[..|docs| - 1], threshold) + Candidate(words, docs[|docs| - 1], threshold)
  }

  /** The pair one document adds to the candidates: none below the threshold. */
  function Candidate(words: seq<string>, d: Document, threshold: int): seq<Scored> {
    if ScoreOf(words, d) >= threshold then [Scored(d, ScoreOf(words, d))] else []
  }

  predicate SortedByScore(s: seq<Scored>) {
    forall i, j :: 0 <= i < j < |s| ==> s[i].score >= s[j].score
  }

  /** Puts c after every element of `sorted` whose score is at least c's. */
  function Insert(sorted: seq<Scored>, c: Scored): (r: seq<Scored>)
    ensures multiset(r) == multiset(sorted) + multiset{c}
  {
    if |sorted| == 0 then [c]
    else if sorted[0].score < c.score then [c] + sorted
    else
      HeadTail(sorted);
      [sorted[0]] + Insert(sorted[1..], c)
  }

  lemma {:induction false} InsertSorted(sorted: seq<Scored>, c: Scored)
    requires SortedByScore(sorted)
    ensures SortedByScore(Insert(sorted, c))
  {
    if |sorted| > 0 && sorted[0].score >= c.score {
      var rest := Insert(sorted[1..], c);
      InsertSorted(sorted[1..], c);
      forall i | 0 <= i < |rest| ensures sorted[0].score >= rest[i].score {
        assert rest[i] in multiset(rest);
        if rest[i] != c {
          assert rest[i] in multiset(sorted[1..]);
        }
      }
    }
  }

  /** `list.sort(key=score, reverse=True)`: Python's sort is stable, so this is
      a stable sort by descending score (here by insertion). The result is a
      permutation of the input, ordered by non-increasing score. */
  function SortByScore(s: seq<Scored>): (r: seq<Scored>)
    ensures multiset(r) == multiset(s)
    ensures SortedByScore(r)
  {
    if |s| == 0 then []
    else
      var sortedFront := SortByScore(s[..|s| - 1]);
      InsertSorted(sortedFront, s[|s| - 1]);
      FrontLast(s);
      Insert(sortedFront, s[|s| - 1])
  }

  function DocsOf(s: seq<Scored>): seq<Document> {
    seq(|s|, i requires 0 <= i < |s| => s[i].doc)
  }

  /** The candidates in the order the sort leaves them. */
  function Ranked(words: seq<string>, docs: seq<Document>, threshold: int): seq<Scored> {
    SortByScore(Candidates(words, docs, threshold))
  }

  /** The ranking against a given list of counted words: the documents of the
      first three sorted candidates. */
  function RankBy(words: seq<string>, docs: seq<Document>, threshold: int): seq<Document> {
    if |docs| == 0 then []
    else DocsOf(Ranked(words, docs, threshold)[..Min(3, |Ranked(words, docs, threshold)|)])
  }

  /** The value `find_relevant_documents(question, documents, threshold)` returns. */
  function Rank(question: string, docs: seq<Document>, threshold: int, variant: Variant): seq<Document> {
    RankBy(QuestionWords(question, variant), docs, threshold)
  }

  /** The imperative ranker: one pass over the store collecting (document,
      score) pairs, then the stable sort and the first three. */
  method FindRelevantDocuments(question: string, documents: seq<Document>, threshold: int, variant: Variant)
    returns (result: seq<Document>)
    ensures result == Rank(question, documents, threshold, variant)
  {
    if |documents| == 0 {
      return [];
    }
    var questionWords := QuestionWords(question, variant);
    var relevantDocs := ScoreDocuments(questionWords, documents, threshold);
    relevantDocs := SortByScore(relevantDocs);
    result := DocsOf(relevantDocs[..Min(3, |relevantDocs|)]);
  }

  /** The scoring loop: every document whose score reaches the threshold,
      paired with its score, in store order. */
  method ScoreDocuments(questionWords: seq<string>, documents: seq<Document>, threshold: int)
    returns (relevantDocs: seq<Scored>)
    ensures relevantDocs == Candidates(questionWords, documents, threshold)
  {
    relevantDocs := [];
    for i := 0 to |documents|
      invariant relevantDocs == Candidates(questionWords, documents[..i], threshold)
    {
      var contentLower := Lower(documents[i].content);
      var relevanceScore := CountMatches(questionWords, contentLower);
      assert documents[..i + 1][..i] == documents[..i];
      if relevanceScore >= threshold {
        relevantDocs := relevantDocs + [Scored(documents[i], relevanceScore)];
      }
    }
    assert documents[..|documents|] == documents;
  }

  // ---------------------------------------------------------------------------
  // What the ranked list looks like

  /** Every element of the sorted list is a candidate: a store document,
      carrying its own score, which reaches the threshold. */
  lemma RankedAreCandidates(words: seq<string>, docs: seq<Document>, threshold: int)
    ensures var ranked := Ranked(words, docs, threshold);
      forall i :: 0 <= i < |ranked| ==>
        ranked[i].doc in docs && ranked[i].score >= threshold
        && ranked[i].score == ScoreOf(words, ranked[i].doc)
  {
    var cs := Candidates(words, docs, threshold);
    var ranked := SortByScore(cs);
    forall i | 0 <= i < |ranked|
      ensures ranked[i] in cs
    {
      assert ranked[i] in multiset(ranked);
    }
  }

  /** The ranker's result is the documents of the first min(3, n) sorted candidates. */
  lemma RankIsTopOfRanked(words: seq<string>, docs: seq<Document>, threshold: int)
    ensures var ranked := Ranked(words, docs, threshold);
      var r := RankBy(words, docs, threshold);
      |ranked| == |Candidates(words, docs, threshold)|
      && |r| == Min(3, |ranked|) && forall i :: 0 <= i < |r| ==> r[i] == ranked[i].doc
  {
    var cs := Candidates(words, docs, threshold);
    assert |multiset(SortByScore(cs))| == |multiset(cs)|;
  }

  /** The ranker returns nothing for an empty store and otherwise at most three
      documents, each of them taken from the store. */
  lemma RankSizeAndMembership(words: seq<string>, docs: seq<Document>, threshold: int)
    ensures docs == [] ==> RankBy(words, docs, threshold) == []
    ensures |RankBy(words, docs, threshold)| <= 3
    ensures forall d <- RankBy(words, docs, threshold) :: d in docs
  {
    RankedAreCandidates(words, docs, threshold);
    RankIsTopOfRanked(words, docs, threshold);
  }

  /** Every returned document reaches the threshold; with a threshold of 0 (or
      below) every document qualifies, so min(3, |docs|) documents come back:
      the highest-scoring ones, not the first ones of the store. */
  lemma RankThreshold(words: seq<string>, docs: seq<Document>, threshold: int)
    ensures forall d <- RankBy(words, docs, threshold) ::
      ScoreOf(words, d) >= threshold
    ensures threshold <= 0 ==> |RankBy(words, docs, threshold)| == Min(3, |docs|)
  {
    RankedAreCandidates(words, docs, threshold);
    RankIsTopOfRanked(words, docs, threshold);
  }

  /** The returned documents are in non-increasing score order. */
  lemma RankOrderedByScore(words: seq<string>, docs: seq<Document>, threshold: int)
    ensures var r := RankBy(words, docs, threshold);
      forall i, j :: 0 <= i < j < |r| ==>
        ScoreOf(words, r[i]) >= ScoreOf(words, r[j])
  {
    RankedAreCandidates(words, docs, threshold);
    RankIsTopOfRanked(words, docs, threshold);
  }

  // ---------------------------------------------------------------------------
  // Stability: ties keep store order

  /** The elements of s whose score is k, in order. */
  function WithScore(s: seq<Scored>, k: int): seq<Scored> {
    if |s| == 0 then []
    else OneWithScore(s[0], k) + WithScore(s[1..], k)
  }

  function OneWithScore(c: Scored, k: int): seq<Scored> {
    if c.score == k then [c] else []
  }

  lemma {:induction false} WithScoreAppend(a: seq<Scored>, b: seq<Scored>, k: int)
    ensures WithScore(a + b, k) == WithScore(a, k) + WithScore(b, k)
  {
    if |a| == 0 {
      assert a + b == b;
    } else {
      var ab := a + b;
      DropAppend(a, b);
      WithScoreAppend(a[1..], b, k);
      assert WithScore(ab, k) == OneWithScore(a[0], k) + WithScore(ab[1..], k);
      Assoc(OneWithScore(a[0], k), WithScore(a[1..], k), WithScore(b, k));
    }
  }

  lemma {:induction false} WithScoreNone(s: seq<Scored>, k: int)
    requires forall i :: 0 <= i < |s| ==> s[i].score != k
    ensures WithScore(s, k) == []
  {
    if |s| > 0 {
      WithScoreNone(s[1..], k);
    }
  }

  /** Inserting c adds it after every element of equal score. */
  lemma {:induction false} InsertStable(sorted: seq<Scored>, c: Scored, k: int)
    requires SortedByScore(sorted)
    ensures WithScore(Insert(sorted, c), k) == WithScore(sorted, k) + (if c.score == k then [c] else [])
  {
    if |sorted| == 0 {
    } else if sorted[0].score < c.score {
      assert ([c] + sorted)[1..] == sorted;
      if c.score == k {
        WithScoreNone(sorted, k);
      }
    } else {
      var rest := Insert(sorted[1..], c);
      assert ([sorted[0]] + rest)[1..] == rest;
      InsertStable(sorted[1..], c, k);
    }
  }

  /** The sort is stable: for every score, the elements with that score appear
      in the same order before and after sorting. */
  lemma {:induction false} SortByScoreStable(s: seq<Scored>, k: int)
    ensures WithScore(SortByScore(s), k) == WithScore(s, k)
  {
    if |s| > 0 {
      var front, last := s[..|s| - 1], s[|s| - 1];
      var tail := if last.score == k then [last] else [];
      calc {
        WithScore(SortByScore(s), k);
        WithScore(Insert(SortByScore(front), last), k);
        { InsertStable(SortByScore(front), last, k); }
        WithScore(SortByScore(front), k) + tail;
        { SortByScoreStable(front, k); }
        WithScore(front, k) + tail;
        { assert [last][1..] == []; }
        WithScore(front, k) + WithScore([last], k);
        { WithScoreAppend(front, [last], k); FrontLast(s); }
        WithScore(s, k);
      }
    }
  }

  /** The documents of ds whose score against `words` is k, in store order. */
  function DocsScoring(ds: seq<Document>, words: seq<string>, k: int): seq<Document> {
    if |ds| == 0 then []
    else OneScoring(ds[0], words, k) + DocsScoring(ds[1..], words, k)
  }

  function OneScoring(d: Document, words: seq<string>, k: int): seq<Document> {
    if ScoreOf(words, d) == k then [d] else []
  }

  lemma {:induction false} DocsScoringAppend(a: seq<Document>, b: seq<Document>, words: seq<string>, k: int)
    ensures DocsScoring(a + b, words, k) == DocsScoring(a, words, k) + DocsScoring(b, words, k)
  {
    if |a| == 0 {
      assert a + b == b;
    } else {
      var ab := a + b;
      DropAppend(a, b);
      DocsScoringAppend(a[1..], b, words, k);
      assert DocsScoring(ab, words, k) == OneScoring(a[0], words, k) + DocsScoring(ab[1..], words, k);
      Assoc(OneScoring(a[0], words, k), DocsScoring(a[1..], words, k), DocsScoring(b, words, k));
    }
  }

  lemma DocsOfAppend(a: seq<Scored>, b: seq<Scored>)
    ensures DocsOf(a + b) == DocsOf(a) + DocsOf(b)
  {
  }

  /** The candidates of score k are the store's documents of score k when k
      reaches the threshold, and there are none otherwise. */
  lemma {:induction false} CandidatesWithScore(words: seq<string>, docs: seq<Document>, threshold: int, k: int)
    ensures DocsOf(WithScore(Candidates(words, docs, threshold), k))
         == if k >= threshold then DocsScoring(docs, words, k) else []
  {
    if |docs| > 0 {
      var front, d := docs[..|docs| - 1], docs[|docs| - 1];
      var cs, c := Candidates(words, front, threshold), Candidate(words, d, threshold);
      assert Candidates(words, docs, threshold) == cs + c;
      CandidatesWithScore(words, front, threshold, k);
      CandidateWithScore(words, d, threshold, k);
      WithScoreAppend(cs, c, k);
      DocsOfAppend(WithScore(cs, k), WithScore(c, k));
      var lhs := DocsOf(WithScore(cs + c, k));
      assert lhs == DocsOf(WithScore(cs, k)) + DocsOf(WithScore(c, k));
      if k >= threshold {
        FrontLast(docs);
        DocsScoringAppend(front, [d], words, k);
        assert lhs == DocsScoring(front, words, k) + DocsScoring([d], words, k);
      } else {
        assert lhs == [] + [];
      }
    }
  }

  lemma CandidateWithScore(words: seq<string>, d: Document, threshold: int, k: int)
    ensures DocsOf(WithScore(Candidate(words, d, threshold), k))
         == if k >= threshold then DocsScoring([d], words, k) else []
  {
    assert [d][1..] == [];
    var c := Candidate(words, d, threshold);
    if |c| > 0 {
      assert c[1..] == [];
    }
  }

  /** For pairs that carry their own document's score, filtering by score
      commutes with dropping the scores. */
  lemma {:induction false} ScoredDocsWithScore(s: seq<Scored>, words: seq<string>, k: int)
    requires forall i :: 0 <= i < |s| ==> s[i].score == ScoreOf(words, s[i].doc)
    ensures DocsScoring(DocsOf(s), words, k) == DocsOf(WithScore(s, k))
  {
    if |s| > 0 {
      ScoredDocsWithScore(s[1..], words, k);
      assert DocsOf(s)[1..] == DocsOf(s[1..]);
      DocsOfAppend(if s[0].score == k then [s[0]] else [], WithScore(s[1..], k));
    }
  }

  /** Stable ordering: for every score k, the returned documents with score k
      are the first few of the store's documents with score k, in store order. */
  lemma RankKeepsStoreOrder(words: seq<string>, docs: seq<Document>, threshold: int)
    ensures forall k :: DocsScoring(RankBy(words, docs, threshold), words, k)
                     <= DocsScoring(docs, words, k)
  {
    forall k ensures DocsScoring(RankBy(words, docs, threshold), words, k) <= DocsScoring(docs, words, k) {
      TopKeepsStoreOrder(words, docs, threshold, k);
    }
  }

  /** Stability for one score k. */
  lemma TopKeepsStoreOrder(words: seq<string>, docs: seq<Document>, threshold: int, k: int)
    ensures DocsScoring(RankBy(words, docs, threshold), words, k) <= DocsScoring(docs, words, k)
  {
    var cs := Candidates(words, docs, threshold);
    var ranked := SortByScore(cs);
    var top := ranked[..Min(3, |ranked|)];
    var rest := ranked[|top|..];
    RankByTop(words, docs, threshold);
    RankedAreCandidates(words, docs, threshold);
    ScoredDocsWithScore(top, words, k);
    assert ranked == top + rest;
    WithScoreAppend(top, rest, k);
    SortByScoreStable(cs, k);
    DocsOfAppend(WithScore(top, k), WithScore(rest, k));
    CandidatesWithScore(words, docs, threshold, k);
    assert DocsOf(WithScore(top, k)) <= DocsOf(WithScore(cs, k));
  }

  /** The ranking is the documents of the first min(3, n) sorted candidates,
      also for an empty store, which has no candidates. */
  lemma RankByTop(words: seq<string>, docs: seq<Document>, threshold: int)
    ensures var ranked := Ranked(words, docs, threshold);
      RankBy(words, docs, threshold) == DocsOf(ranked[..Min(3, |ranked|)])
  {
    if |docs| == 0 {
      assert Ranked(words, docs, threshold) == [];
    }
  }

  // ---------------------------------------------------------------------------
  // The three returned are the best

  lemma {:induction false} CandidatesComplete(words: seq<string>, docs: seq<Document>, threshold: int, d: Document)
    requires d in docs && ScoreOf(words, d) >= threshold
    ensures Scored(d, ScoreOf(words, d)) in Candidates(words, docs, threshold)
  {
    var front := docs[..|docs| - 1];
    if docs[|docs| - 1] != d {
      FrontLast(docs);
      CandidatesComplete(words, front, threshold, d);
    }
  }

  /** A qualifying store document is left out only when three documents are
      returned, and then it scores no more than the third. */
  lemma RankTakesBest(words: seq<string>, docs: seq<Document>, threshold: int, d: Document)
    requires d in docs && ScoreOf(words, d) >= threshold
    requires d !in RankBy(words, docs, threshold)
    ensures |RankBy(words, docs, threshold)| == 3
    ensures ScoreOf(words, d)
         <= ScoreOf(words, RankBy(words, docs, threshold)[2])
  {
    var cs := Candidates(words, docs, threshold);
    var ranked := SortByScore(cs);
    var x := Scored(d, ScoreOf(words, d));
    CandidatesComplete(words, docs, threshold, d);
    assert x in multiset(cs);
    assert x in multiset(ranked);
    var p :| 0 <= p < |ranked| && ranked[p] == x;
    RankedAreCandidates(words, docs, threshold);
    RankIsTopOfRanked(words, docs, threshold);
    assert ranked[2].score >= ranked[p].score;
  }

  // ---------------------------------------------------------------------------
  // Which words count

  /** The words one token contributes: none, or its normalized form. */
  function KeepOne(token: string, stopWords: set<string>): seq<string> {
    if Survives(token, stopWords) then [Normalize(token)] else []
  }

  lemma {:induction false} KeepAppend(a: seq<string>, b: seq<string>, stopWords: set<string>)
    ensures Keep(a + b, stopWords) == Keep(a, stopWords) + Keep(b, stopWords)
  {
    if |a| == 0 {
      assert a + b == b;
    } else {
      var ab := a + b;
      DropAppend(a, b);
      KeepAppend(a[1..], b, stopWords);
      assert Keep(ab, stopWords) == KeepOne(a[0], stopWords) + Keep(ab[1..], stopWords);
      Assoc(KeepOne(a[0], stopWords), Keep(a[1..], stopWords), Keep(b, stopWords));
    }
  }

  lemma {:induction false} KeepNone(tokens: seq<string>, stopWords: set<string>)
    requires forall i :: 0 <= i < |tokens| ==> !Survives(tokens[i], stopWords)
    ensures Keep(tokens, stopWords) == []
  {
    if |tokens| > 0 {
      KeepNone(tokens[1..], stopWords);
    }
  }

  lemma {:induction false} CountMatchesAppend(u: seq<string>, v: seq<string>, text: string)
    ensures CountMatches(u + v, text) == CountMatches(u, text) + CountMatches(v, text)
  {
    if |u| == 0 {
      assert u + v == v;
    } else {
      var uv := u + v;
      DropAppend(u, v);
      CountMatchesAppend(u[1..], v, text);
    }
  }

  /** A token the filter drops (original length at most 2, or a stop word once
      lower-cased) contributes nothing: adding it to a question leaves the
      counted words, hence every score, unchanged. */
  lemma DroppedTokenAddsNothing(question: string, token: string, variant: Variant)
    requires token != [] && NoSpace(token)
    requires |token| <= 2 || Lower(token) in StopWords(variant)
    ensures QuestionWords(question + " " + token, variant) == QuestionWords(question, variant)
  {
    var sw := StopWords(variant);
    SplitAppend(question, token);
    SplitWord(token);
    KeepAppend(Split(question), [token], sw);
    assert [token][1..] == [];
  }

  /** A question made only of short or stop-word tokens scores 0 everywhere. */
  lemma FilteredQuestionScoresZero(question: string, variant: Variant, d: Document)
    requires forall i :: 0 <= i < |Split(question)| ==>
      |Split(question)[i]| <= 2 || Lower(Split(question)[i]) in StopWords(variant)
    ensures ScoreOf(QuestionWords(question, variant), d) == 0
  {
    KeepNone(Split(question), StopWords(variant));
  }

  /** Words count once per occurrence: a question said twice scores double. */
  lemma RepeatedQuestionScoresTwice(question: string, variant: Variant, d: Document)
    ensures ScoreOf(QuestionWords(question + " " + question, variant), d)
         == 2 * ScoreOf(QuestionWords(question, variant), d)
  {
    SplitAppend(question, question);
    KeepAppend(Split(question), Split(question), StopWords(variant));
    CountMatchesAppend(QuestionWords(question, variant), QuestionWords(question, variant), Lower(d.content));
  }

  /** A token of three or more `.,!?` characters survives the filter, strips to
      the empty word, and the empty word occurs in every text: it adds 1 to
      the score of every document. */
  lemma PunctuationTokenMatchesEverything(question: string, token: string, variant: Variant, d: Document)
    requires |token| > 2
    requires forall k :: 0 <= k < |token| ==> IsTrimmedPunctuation(token[k])
    ensures ScoreOf(QuestionWords(question + " " + token, variant), d)
         == ScoreOf(QuestionWords(question, variant), d) + 1
  {
    var sw := StopWords(variant);
    assert Lower(token) == token;
    assert Lower(token) !in sw by {
      assert IsTrimmedPunctuation(token[0]);
    }
    SplitAppend(question, token);
    SplitWord(token);
    KeepAppend(Split(question), [token], sw);
    assert [token][1..] == [];
    assert Keep([token], sw) == [Normalize(token)];
    assert Normalize(token) == "";
    assert Contains(Lower(d.content), "");
    assert CountMatches([""], Lower(d.content)) == 1;
    CountMatchesAppend(QuestionWords(question, variant), [""], Lower(d.content));
    assert [""][1..] == [];
  }

  /** The Azure stop-word set is the Universal one without seven verbs. */
  lemma StopWordSetsDiffer()
    ensures AzureStopWords < UniversalStopWords
    ensures UniversalStopWords - AzureStopWords == {"can", "could", "should", "would", "do", "does", "did"}
  {
  }

  /** A question that is one lower-case word of three or more letters keeps
      that word exactly when it is not a stop word, and then scores 1 against
      a text containing it. */
  lemma SingleWordQuestion(word: string, sw: set<string>, text: string)
    requires |word| > 2 && forall k :: 0 <= k < |word| ==> 'a' <= word[k] <= 'z'
    requires Contains(text, word)
    ensures Keep(Split(word), sw) == if word in sw then [] else [word]
    ensures CountMatches(Keep(Split(word), sw), text) == if word in sw then 0 else 1
  {
    VisibleHasNoSpace(word);
    SplitWord(word);
    LowerUnchanged(word);
    StripNothing(word, IsTrimmedPunctuation);
    assert [word][1..] == [];
  }

  /** The verbs that only main.py treats as stop words ("does", "could", ...):
      a question made of one of them (three letters or more) scores 0 there
      and 1 in azure_main.py against any text containing it. */
  lemma VerbsCountOnlyInAzure(d: Document, word: string)
    requires word in UniversalStopWords - AzureStopWords && |word| > 2
    requires Contains(Lower(d.content), word)
    ensures ScoreOf(QuestionWords(word, Universal), d) == 0
    ensures ScoreOf(QuestionWords(word, Azure), d) == 1
  {
    StopWordsAreLetters(Universal);
    SingleWordQuestion(word, UniversalStopWords, Lower(d.content));
    SingleWordQuestion(word, AzureStopWords, Lower(d.content));
  }

  /** Every stop word is made of lower-case ASCII letters, so a token holding
      any other character, such as punctuation, is never a stop word. */
  lemma StopWordsAreLetters(variant: Variant)
    ensures forall w <- StopWords(variant) :: forall k :: 0 <= k < |w| ==> 'a' <= w[k] <= 'z'
  {
  }

  /** Over any stop set made of lower-case letters: a stop word of two or more
      letters is dropped on its own, but followed by one of `.,!?` it
      survives and is stripped back to the stop word. */
  lemma PunctuatedStopWordSurvives(word: string, mark: char, sw: set<string>, text: string)
    requires word in sw && |word| >= 2 && IsTrimmedPunctuation(mark)
    requires forall w <- sw :: forall k :: 0 <= k < |w| ==> 'a' <= w[k] <= 'z'
    requires Contains(text, word)
    ensures Keep(Split(word), sw) == []
    ensures Keep(Split(word + [mark]), sw) == [word]
    ensures CountMatches(Keep(Split(word), sw), text) == 0
    ensures CountMatches(Keep(Split(word + [mark]), sw), text) == 1
  {
    var token := word + [mark];
    assert forall k :: 0 <= k < |token| ==> token[k] == mark || 'a' <= token[k] <= 'z';
    VisibleHasNoSpace(word);
    VisibleHasNoSpace(token);
    SplitWord(word);
    SplitWord(token);
    LowerUnchanged(word);
    LowerUnchanged(token);
    PunctuatedNotStopWord(word, mark, sw);
    StripTrailing(word, mark, IsTrimmedPunctuation);
    assert [word][1..] == [] && [token][1..] == [];
  }

  /** A word followed by one of `.,!?` is not in a stop set made of letters. */
  lemma PunctuatedNotStopWord(word: string, mark: char, sw: set<string>)
    requires IsTrimmedPunctuation(mark)
    requires forall w <- sw :: forall k :: 0 <= k < |w| ==> 'a' <= w[k] <= 'z'
    ensures word + [mark] !in sw
  {
    var token := word + [mark];
    assert token[|word|] == mark;
  }

  /** The filter looks at the token before it is stripped. A stop word of two
      or more letters is dropped on its own, but followed by one of `.,!?` it
      is not in the stop set, survives, and is stripped back to the stop word,
      which then counts against every text containing it: "what" scores 0
      and "what?" scores 1. */
  lemma PunctuatedStopWordCounts(variant: Variant, d: Document, word: string, mark: char)
    requires word in StopWords(variant) && |word| >= 2 && IsTrimmedPunctuation(mark)
    requires Contains(Lower(d.content), word)
    ensures ScoreOf(QuestionWords(word, variant), d) == 0
    ensures ScoreOf(QuestionWords(word + [mark], variant), d) == 1
  {
    StopWordsAreLetters(variant);
    PunctuatedStopWordSurvives(word, mark, StopWords(variant), Lower(d.content));
  }
}
