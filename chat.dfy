/** The chat endpoint of both services: which documents go into the prompt,
    the prompt itself, and the source annotation and `documents_used` count of
    the reply. The language model is a parameter `llm(system, user)`. */
module Chat {
  import opened Text
  import opened Documents
  import opened Ranker
  import opened Policy

  const UniversalSystemPrompt := "You are a helpful assistant that can process both documents and emails. Be clear, concise, and cite sources. Format responses with proper paragraphs and bullet points when appropriate."
  const AzureSystemPrompt := "You are a helpful assistant. Be clear and concise."

  const NoRelevantContent := " (No relevant content found)"
  const GeneralKnowledge := " (General knowledge)"

  /** The filenames of the documents, in order. */
  function Filenames(docs: seq<Document>): (names: seq<string>)
    ensures |names| == |docs| && forall i :: 0 <= i < |docs| ==> names[i] == docs[i].filename
  {
    seq(|docs|, i requires 0 <= i < |docs| => docs[i].filename)
  }

  /** `f" (Based on: {', '.join(doc_names)})"` */
  function BasedOn(docs: seq<Document>): string {
    " (Based on: " + JoinWith(Filenames(docs), ", ") + ")"
  }

  /** One document's block of the prompt; the Universal service marks it with
      the document's icon. */
  function ContextPart(variant: Variant, d: Document): string {
    match variant
    case Universal => "=== " + Icon(d) + " " + d.filename + " ===\n" + d.content
    case Azure => "=== " + d.filename + " ===\n" + d.content
  }

  /** The blocks of all selected documents, separated by blank lines. */
  function Context(variant: Variant, docs: seq<Document>): string {
    JoinWith(seq(|docs|, i requires 0 <= i < |docs| => ContextPart(variant, docs[i])), "\n\n")
  }

  /** The line that opens each service's grounded prompt. */
  function Intro(variant: Variant): string {
    match variant
    case Universal => "Based on these documents and emails, answer the question:\n\n"
    case Azure => "Based on these documents, answer the question:\n\n"
  }

  function GroundedPrompt(variant: Variant, question: string, docs: seq<Document>): string {
    Intro(variant) + Context(variant, docs) + "\n\nQuestion: " + question + "\n\nAnswer:"
  }

  function NotFoundPrompt(question: string): string {
    "The user is asking about emails/documents, but I couldn't find relevant information in the uploaded files. Question: "
    + question
    + "\n\nPlease let them know that the information might not be in their uploaded content, but provide a general answer if possible."
  }

  /** `any(word in question.lower() for word in ["email", "message", "document"])` */
  predicate AsksAboutOwnMaterial(question: string) {
    Contains(Lower(question), "email") || Contains(Lower(question), "message") || Contains(Lower(question), "document")
  }

  /** The reply of the Universal service. */
  datatype UniversalReply = UniversalReply(question: string, answer: string, source: string, documentsUsed: nat)

  /** The reply of the Azure service: the annotation is part of the answer. */
  datatype AzureReply = AzureReply(question: string, answer: string, documentsUsed: nat)

  /** POST /chat of the Universal service: the policy picks the documents;
      without any, a question naming e-mails, messages or documents over a
      non-empty store gets the "not found" prompt, any other the general one. */
  function UniversalChat(question: string, documents: seq<Document>, llm: (string, string) -> string): UniversalReply {
    var decision := ShouldUseDocuments(question, documents);
    var prompt :=
      if decision.useContext && |decision.docs| > 0 then GroundedPrompt(Universal, question, decision.docs)
      else if |documents| > 0 && AsksAboutOwnMaterial(question) then NotFoundPrompt(question)
      else "Answer this general question: " + question;
    var source :=
      if decision.useContext && |decision.docs| > 0 then BasedOn(decision.docs)
      else if |documents| > 0 && AsksAboutOwnMaterial(question) then NoRelevantContent
      else GeneralKnowledge;
    UniversalReply(question, llm(UniversalSystemPrompt, prompt), source,
                   if decision.useContext then |decision.docs| else 0)
  }

  /** The documents the Azure service answers from. */
  function AzureSelection(question: string, documents: seq<Document>): seq<Document> {
    Rank(question, documents, 1, Azure)
  }

  /** The prompt the Azure service sends. */
  function AzurePrompt(question: string, documents: seq<Document>): string {
    var relevant := AzureSelection(question, documents);
    if |relevant| > 0 then GroundedPrompt(Azure, question, relevant) else "Answer this question: " + question
  }

  /** POST /chat of the Azure service: rank with threshold 1 and append the
      source annotation to the model's answer. */
  function AzureChat(question: string, documents: seq<Document>, llm: (string, string) -> string): AzureReply {
    var relevant := AzureSelection(question, documents);
    var source := if |relevant| > 0 then BasedOn(relevant) else GeneralKnowledge;
    AzureReply(question, llm(AzureSystemPrompt, AzurePrompt(question, documents)) + source, |relevant|)
  }

  // ---------------------------------------------------------------------------
  // Properties of the routing

  /** The three annotations differ in their third character. */
  lemma AnnotationsDistinct(docs: seq<Document>)
    ensures BasedOn(docs) != NoRelevantContent && BasedOn(docs) != GeneralKnowledge
    ensures NoRelevantContent != GeneralKnowledge
  {
    assert BasedOn(docs)[2] == 'B';
    assert NoRelevantContent[2] == 'N';
    assert GeneralKnowledge[2] == 'G';
  }

  /** Universal: `documents_used` is the size of the policy's list (so at most
      three), and the reply cites documents exactly when it used some; the
      cited names are the used documents' filenames in ranking order. */
  lemma UniversalDocumentsUsed(question: string, documents: seq<Document>, llm: (string, string) -> string)
    ensures var reply := UniversalChat(question, documents, llm);
      var decision := ShouldUseDocuments(question, documents);
      reply.documentsUsed == |decision.docs| <= 3
      && (reply.documentsUsed > 0 <==> reply.source == BasedOn(decision.docs))
  {
    var decision := ShouldUseDocuments(question, documents);
    PolicyConsistent(question, documents);
    AnnotationsDistinct(decision.docs);
  }

  /** Universal: the "not found" annotation appears exactly when no document
      was used, the store is not empty and the question names e-mails,
      messages or documents. */
  lemma UniversalNotFound(question: string, documents: seq<Document>, llm: (string, string) -> string)
    ensures UniversalChat(question, documents, llm).source == NoRelevantContent
        <==> (ShouldUseDocuments(question, documents).docs == [] && documents != []
              && AsksAboutOwnMaterial(question))
  {
    var decision := ShouldUseDocuments(question, documents);
    PolicyConsistent(question, documents);
    AnnotationsDistinct(decision.docs);
  }

  /** An empty store always gets the general-knowledge route. */
  lemma EmptyStoreIsGeneral(question: string, llm: (string, string) -> string)
    ensures UniversalChat(question, [], llm).source == GeneralKnowledge
    ensures UniversalChat(question, [], llm).documentsUsed == 0
    ensures AzureChat(question, [], llm).answer == llm(AzureSystemPrompt, "Answer this question: " + question) + GeneralKnowledge
    ensures AzureChat(question, [], llm).documentsUsed == 0
  {
    PolicyConsistent(question, []);
    RankSizeAndMembership(QuestionWords(question, Azure), [], 1);
  }

  /** Each block ends with the document's full text. */
  lemma {:induction false} ContextPartHoldsContent(variant: Variant, d: Document)
    ensures exists head :: ContextPart(variant, d) == head + d.content
  {
    match variant
    case Universal =>
      assert ContextPart(variant, d) == ("=== " + Icon(d) + " " + d.filename + " ===\n") + d.content;
    case Azure =>
      assert ContextPart(variant, d) == ("=== " + d.filename + " ===\n") + d.content;
  }

  /** The full text of every selected document stands in the context. */
  lemma {:induction false} ContextHoldsContent(variant: Variant, docs: seq<Document>, i: nat)
    requires i < |docs|
    ensures exists before, after :: Context(variant, docs) == before + docs[i].content + after
  {
    var parts := seq(|docs|, k requires 0 <= k < |docs| => ContextPart(variant, docs[k]));
    JoinWithHasPart(parts, "\n\n", i);
    var before, after :| JoinWith(parts, "\n\n") == before + parts[i] + after;
    ContextPartHoldsContent(variant, docs[i]);
    var head :| ContextPart(variant, docs[i]) == head + docs[i].content;
    Regroup(before, head, docs[i].content, after);
  }

  /** The full text of every selected document is in the prompt. */
  lemma {:induction false} GroundedPromptHoldsContent(variant: Variant, question: string, docs: seq<Document>, i: nat)
    requires i < |docs|
    ensures Contains(GroundedPrompt(variant, question, docs), docs[i].content)
  {
    var intro := Intro(variant);
    var tail := "\n\nQuestion: " + question + "\n\nAnswer:";
    assert GroundedPrompt(variant, question, docs) == intro + Context(variant, docs) + tail;
    ContextHoldsContent(variant, docs, i);
    var before, after :| Context(variant, docs) == before + docs[i].content + after;
    Surround(intro, before, docs[i].content, after, tail);
    ContainsInfix(intro + before, docs[i].content, after + tail);
  }

  /** Azure: every document the answer is based on shares at least one
      surviving question word with its lower-cased text, `documents_used`
      counts them, and their full texts are all in the prompt. */
  lemma {:induction false} AzureAnswersAreGrounded(question: string, documents: seq<Document>, llm: (string, string) -> string, i: nat)
    requires i < |AzureSelection(question, documents)|
    ensures var d := AzureSelection(question, documents)[i];
      exists w :: w in QuestionWords(question, Azure) && Contains(Lower(d.content), w)
    ensures Contains(AzurePrompt(question, documents), AzureSelection(question, documents)[i].content)
    ensures AzureChat(question, documents, llm).documentsUsed == |AzureSelection(question, documents)| <= 3
  {
    var relevant := AzureSelection(question, documents);
    RankThreshold(QuestionWords(question, Azure), documents, 1);
    RankSizeAndMembership(QuestionWords(question, Azure), documents, 1);
    assert relevant[i] in relevant;
    MatchingWordExists(QuestionWords(question, Azure), Lower(relevant[i].content));
    GroundedPromptHoldsContent(Azure, question, relevant, i);
  }

  /** Azure: the answer is the model's text followed by the annotation, which
      names as many documents as `documents_used` counts, or says "General
      knowledge" when none was used. */
  lemma AzureAnnotation(question: string, documents: seq<Document>, llm: (string, string) -> string)
    ensures var reply := AzureChat(question, documents, llm);
      var relevant := AzureSelection(question, documents);
      EndsWith(reply.answer, if reply.documentsUsed > 0 then BasedOn(relevant) else GeneralKnowledge)
      && |Filenames(relevant)| == reply.documentsUsed
  {
    var relevant := AzureSelection(question, documents);
    var reply := AzureChat(question, documents, llm);
    var source := if |relevant| > 0 then BasedOn(relevant) else GeneralKnowledge;
    assert reply.answer[|reply.answer| - |source|..] == source;
  }
}
