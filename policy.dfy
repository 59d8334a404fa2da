/** The context-use policy `should_use_documents` of the Universal service:
    decides whether a question is answered from the stored documents, and
    with which, by four tiers of which the first that applies wins. */
module Policy {
  import opened Text
  import opened Documents
  import opened Ranker

  /** Characters of the regular-expression class \w (ASCII only). */
  predicate IsWordChar(c: char) {
    ('a' <= c <= 'z') || ('A' <= c <= 'Z') || ('0' <= c <= '9') || c == '_'
  }

  /** \b at position i of s: a word character on exactly one side, where the
      ends of the string count as non-word. */
  predicate BoundaryAt(s: string, i: nat)
    requires i <= |s|
  {
    (i > 0 && IsWordChar(s[i - 1])) != (i < |s| && IsWordChar(s[i]))
  }

  /** The phrase occurs at position i with \b on both sides. */
  predicate PhraseAt(s: string, phrase: string, i: nat) {
    i + |phrase| <= |s| && s[i..i + |phrase|] == phrase
    && BoundaryAt(s, i) && BoundaryAt(s, i + |phrase|)
  }

  /** `re.search(r'\b(p1|p2|...)\b', s)` finds a match. */
  predicate SearchAlternation(s: string, phrases: seq<string>) {
    exists k, i :: 0 <= k < |phrases| && 0 <= i <= |s| && PhraseAt(s, phrases[k], i)
  }

  /** `any(re.search(p, s) for p in patterns)` */
  predicate MatchesAny(s: string, patterns: seq<seq<string>>) {
    exists j :: 0 <= j < |patterns| && SearchAlternation(s, patterns[j])
  }

  /** Patterns that mark an explicit reference to the user's own material. */
  const DocumentIndicators: seq<seq<string>> := [
    ["our", "my", "the company", "this document", "according to", "email", "message"],
    ["report", "file", "document", "presentation", "email"],
    ["uploaded", "provided", "attached", "sent"]]

  /** Patterns that mark a general-knowledge question. */
  const GeneralPatterns: seq<seq<string>> := [
    ["what is", "define", "explain", "how to", "tell me about"],
    ["general", "generally", "typical", "usually", "common"]]

  predicate RefersToDocuments(question: string) {
    MatchesAny(Lower(question), DocumentIndicators)
  }

  predicate IsGeneralQuestion(question: string) {
    MatchesAny(Lower(question), GeneralPatterns)
  }

  /** The pair `(use_context, documents)` the policy returns. */
  datatype Decision = Decision(useContext: bool, docs: seq<Document>)

  /** `should_use_documents(question, documents)`; the ranker used is main.py's. */
  function ShouldUseDocuments(question: string, documents: seq<Document>): Decision {
    if documents == [] then Decision(false, [])
    else if RefersToDocuments(question) then Decision(true, Rank(question, documents, 0, Universal))
    else
      var strong := Rank(question, documents, 2, Universal);
      if strong != [] then Decision(true, strong)
      else if IsGeneralQuestion(question) then Decision(false, [])
      else
        var fallback := Rank(question, documents, 1, Universal);
        Decision(|fallback| > 0, fallback)
  }

  /** An empty store never yields context; on every path the context is used
      exactly when the returned list is non-empty, and that list holds at
      most three store documents. */
  lemma PolicyConsistent(question: string, documents: seq<Document>)
    ensures documents == [] ==> ShouldUseDocuments(question, documents) == Decision(false, [])
    ensures ShouldUseDocuments(question, documents).useContext
        <==> ShouldUseDocuments(question, documents).docs != []
    ensures |ShouldUseDocuments(question, documents).docs| <= 3
    ensures forall d <- ShouldUseDocuments(question, documents).docs :: d in documents
  {
    var words := QuestionWords(question, Universal);
    RankThreshold(words, documents, 0);
    RankSizeAndMembership(words, documents, 0);
    RankSizeAndMembership(words, documents, 1);
    RankSizeAndMembership(words, documents, 2);
    var decision := ShouldUseDocuments(question, documents);
    if documents != [] {
      if RefersToDocuments(question) {
        assert decision.docs == RankBy(words, documents, 0);
      } else if RankBy(words, documents, 2) != [] {
        assert decision.docs == RankBy(words, documents, 2);
      } else if !IsGeneralQuestion(question) {
        assert decision.docs == RankBy(words, documents, 1);
      }
    }
  }

  /** Tier 1: an explicit reference always pulls in context, ranked with
      threshold 0, so up to three documents whatever their scores. */
  lemma IndicatorForcesContext(question: string, documents: seq<Document>)
    requires documents != [] && RefersToDocuments(question)
    ensures ShouldUseDocuments(question, documents) == Decision(true, Rank(question, documents, 0, Universal))
    ensures |ShouldUseDocuments(question, documents).docs| == Min(3, |documents|)
  {
    RankThreshold(QuestionWords(question, Universal), documents, 0);
  }

  /** Tier 2 beats tier 3: two keyword hits win over a general-question phrase. */
  lemma StrongMatchBeatsGeneral(question: string, documents: seq<Document>)
    requires !RefersToDocuments(question)
    requires Rank(question, documents, 2, Universal) != []
    ensures ShouldUseDocuments(question, documents) == Decision(true, Rank(question, documents, 2, Universal))
    ensures forall d <- ShouldUseDocuments(question, documents).docs ::
      ScoreOf(QuestionWords(question, Universal), d) >= 2
  {
    RankThreshold(QuestionWords(question, Universal), documents, 2);
  }

  /** Tier 3: a general question without two keyword hits gets no context, even
      when single keyword hits exist. */
  lemma GeneralQuestionSuppressesWeakMatches(question: string, documents: seq<Document>)
    requires !RefersToDocuments(question) && IsGeneralQuestion(question)
    requires Rank(question, documents, 2, Universal) == []
    ensures ShouldUseDocuments(question, documents) == Decision(false, [])
  {
  }

  /** Tier 4: otherwise the threshold-1 ranking decides. */
  lemma FallbackUsesSingleHits(question: string, documents: seq<Document>)
    requires documents != [] && !RefersToDocuments(question) && !IsGeneralQuestion(question)
    requires Rank(question, documents, 2, Universal) == []
    ensures ShouldUseDocuments(question, documents).docs == Rank(question, documents, 1, Universal)
    ensures forall d <- ShouldUseDocuments(question, documents).docs ::
      ScoreOf(QuestionWords(question, Universal), d) == 1
  {
    RankThreshold(QuestionWords(question, Universal), documents, 1);
    RankSizeAndMembership(QuestionWords(question, Universal), documents, 1);
    var r1 := Rank(question, documents, 1, Universal);
    forall d | d in r1 ensures ScoreOf(QuestionWords(question, Universal), d) == 1 {
      if ScoreOf(QuestionWords(question, Universal), d) >= 2 {
        RankTakesBest(QuestionWords(question, Universal), documents, 2, d);
      }
    }
  }

  /** A question with the word "our" standing between spaces, such as "What
      does our uploaded report say about revenue?", names the user's own
      material, so any non-empty store is used in full up to three documents,
      even those that share no keyword with it. */
  lemma OwnMaterialQuestionUsesContext(before: string, after: string, documents: seq<Document>)
    requires documents != []
    requires |before| > 0 && before[|before| - 1] == ' ' && |after| > 0 && after[0] == ' '
    ensures ShouldUseDocuments(before + "our" + after, documents).useContext
    ensures |ShouldUseDocuments(before + "our" + after, documents).docs| == Min(3, |documents|)
  {
    var q := before + "our" + after;
    LowerPhraseAt(before, DocumentIndicators[0][0], after);
    assert SearchAlternation(Lower(q), DocumentIndicators[0]);
    IndicatorForcesContext(q, documents);
  }

  /** A lower-case word between two spaces is a \b-delimited match in the
      lower-cased text. */
  lemma LowerPhraseAt(before: string, word: string, after: string)
    requires |before| > 0 && before[|before| - 1] == ' ' && |after| > 0 && after[0] == ' '
    requires |word| > 0 && forall k :: 0 <= k < |word| ==> 'a' <= word[k] <= 'z'
    ensures PhraseAt(Lower(before + word + after), word, |before|)
  {
    var s := before + word + after;
    var i, j := |before|, |before| + |word|;
    assert Lower(s)[i - 1] == ' ' && Lower(s)[j] == ' ';
    assert Lower(s)[i..j] == word by {
      forall k | 0 <= k < |word| ensures Lower(s)[i + k] == word[k] {
        assert s[i + k] == word[k];
      }
    }
  }
}
