# Tacit Knowledge Bot: the document store, the ranker, the context policy and the chat routing

The Tacit Knowledge Bot is a question-answering web service over documents that
users upload. It keeps every ingested document in an in-memory list. It answers
chat questions by sending a language model a prompt, which holds the stored
documents a keyword ranker picks out, when it picks any. It comes as two
services that share this core:

- `main.py`, the "Universal Knowledge Bot", also ingests e-mail: uploaded
  `.eml`/`.msg` files, e-mails posted as form fields, and forwarded raw
  e-mails. Its chat goes through a four-tier context policy
  (`should_use_documents`).
- `azure_main.py`, the Azure-hosted service, takes only document files. It
  ranks with a threshold of 1 and appends the source annotation to the answer.

The model has seven modules:

- `Text` (`text.dfy`) holds the Python string operations the code relies on:
  `split()`, `strip()`, `strip('.,!?')`, `lower()`, `startswith`, `endswith`,
  the substring test `in`, `split(sep)` and `sep.join`.
- `Documents` (`documents.dfy`) holds the document record, the
  `Universal`/`Azure` variant, the document listing and the health check.
- `Ranker` (`ranker.dfy`) holds `find_relevant_documents`. An imperative
  method mirrors the scoring loop and is proved equal to a functional
  specification. The list's stable `sort(reverse=True)` is a functional
  stable insertion sort.
- `Policy` (`policy.dfy`) holds `should_use_documents`. The regular
  expressions `\b(p1|p2|...)\b` are modelled as a phrase occurring between
  two word boundaries.
- `EmailParser` (`email.dfy`) holds the raw-text branch of
  `parse_email_content`. The line loop is a method proved equal to a
  declarative specification: the last header wins, the body starts after the
  first empty line, and defaults apply when a field comes out empty.
- `Store` (`store.dfy`) holds the module-level `documents` list as the class
  `DocumentStore` and its three ingestion endpoints. The extension dispatch
  of an upload is the function `Classify`. Every method keeps the invariant
  that no stored document is whitespace-only.
- `Chat` (`chat.dfy`) holds the `/chat` endpoints of both services. It covers
  the prompt, the source annotation and `documents_used`. The language model
  is the function parameter `llm(system, user)`.

Two details of the ranker's filter are easy to misread:

- The ranker's filter looks at the ORIGINAL token. It drops a token whose
  length is at most 2, or whose lower-cased, not yet stripped form is a stop
  word. The token is stripped of `.,!?` only afterwards, and at both ends, not
  only at the end. So "what?" is not filtered and counts as "what"
  (`Ranker.PunctuatedStopWordCounts`). A token made only of punctuation
  becomes the empty word, which occurs in every text
  (`Ranker.PunctuationTokenMatchesEverything`).
- `main.py`'s stop-word set (main.py:106) has 30 entries. `azure_main.py`'s set (azure_main.py:65) has 23: the same words without can, could, should, would, do, does and did (`Ranker.StopWordSetsDiffer`).

## Model

| member | source | states |
|---|---|---|
| Ranker.FindRelevantDocuments | main.py:101-121 | the scoring loop over the store, the stable descending sort and the cut to three return exactly `Rank`, the specification the lemmas below describe |
| Ranker.ScoreDocuments | main.py:111-118 | the scoring loop returns exactly `Candidates`: each document whose score reaches the threshold, paired with that score, in store order |
| Ranker.Rank | main.py:101-121 | `find_relevant_documents(question, documents, threshold)` in either service: `RankBy` over the question's counted words |
| Ranker.RankBy | main.py:103-121 | nothing for an empty store, otherwise the documents of the first three candidates after the stable sort by descending score |
| Ranker.Ranked | main.py:111-120 | the candidates in the order the stable descending sort leaves them |
| Ranker.QuestionWords | main.py:106-109 | the tokens of `question.split()` that pass the filter, each lower-cased and stripped of `.,!?` at both ends, in question order |
| Ranker.Survives | main.py:109 | a token passes the filter when it has more than two characters and its lower-cased, unstripped form is not a stop word |
| Ranker.Normalize | main.py:108 | `word.lower().strip('.,!?')` |
| Ranker.IsTrimmedPunctuation | main.py:108 | the four characters `.,!?` that `strip('.,!?')` removes |
| Ranker.Keep | main.py:108-109 | the list comprehension: each token that passes the filter, normalized, in token order |
| Ranker.UniversalStopWords | main.py:106 | the 30 stop words of main.py's ranker |
| Ranker.AzureStopWords | azure_main.py:65 | the 23 stop words of azure_main.py's ranker, without the modal and auxiliary verbs |
| Ranker.StopWords | main.py:106 | the stop set of the chosen service: main.py:106 for the Universal service, azure_main.py:65 for the Azure one |
| Ranker.ScoreOf | main.py:114-115 | a document's score: how many counted words occur in its lower-cased content |
| Ranker.RankSizeAndMembership | main.py:103-104 | an empty store gives an empty result; otherwise at most three documents come back, all taken from the store |
| Ranker.RankThreshold | main.py:117-118 | every returned document's score reaches the threshold; with threshold 0 exactly min(3, n) documents come back (the highest-scoring ones, not necessarily the first ones of the store) |
| Ranker.RankIsTopOfRanked | main.py:111-121 | the result is the documents of the first min(3, #candidates) sorted candidates, and the sort keeps every candidate |
| Ranker.RankedAreCandidates | main.py:113-118 | each sorted entry is a store document, with its own score, reaching the threshold |
| Ranker.RankOrderedByScore | main.py:120-121 | the returned documents are in non-increasing score order |
| Ranker.RankKeepsStoreOrder | main.py:120 | the sort is stable: for each score, the returned documents with that score are a prefix of the store's documents with that score, in store order |
| Ranker.TopKeepsStoreOrder | main.py:120 | for one given score k, the returned documents with score k are a prefix of the store's documents with score k |
| Ranker.RankTakesBest | main.py:117-121 | a qualifying document is left out only when three are returned, and then it scores no more than the third |
| Ranker.Candidates | main.py:111-118 | the loop keeps, in store order, every document whose score reaches the threshold, paired with its score; with threshold 0 it keeps them all |
| Ranker.SortByScore | main.py:120 | the sorted list is a permutation of its input and is ordered by non-increasing score |
| Ranker.CountMatches | main.py:115 | the score is at most the number of counted words |
| Ranker.MatchingWordExists | main.py:115 | a positive score means some counted word occurs in the lower-cased text |
| Ranker.DroppedTokenAddsNothing | main.py:108-109 | a token of original length at most 2, or a stop word once lower-cased, leaves the counted words unchanged |
| Ranker.FilteredQuestionScoresZero | main.py:106-109 | a question made only of short or stop-word tokens scores 0 against every document |
| Ranker.RepeatedQuestionScoresTwice | main.py:108-115 | words count once per occurrence in the question: a question repeated scores double |
| Ranker.PunctuationTokenMatchesEverything | main.py:108-115 | a token of three or more `.,!?` characters survives, strips to the empty word and adds 1 to every document's score |
| Ranker.PunctuatedStopWordCounts | main.py:106-115 | a stop word of two or more letters scores 0 as a question, but followed by one of `.,!?` ("what?") it survives the filter and scores 1 against a text containing it |
| Ranker.PunctuatedStopWordSurvives | main.py:108-109 | over any stop set made of lower-case letters: the bare stop word yields no counted word, and the stop word with a trailing mark yields exactly the stop word |
| Ranker.PunctuatedNotStopWord | main.py:108-109 | a word followed by one of `.,!?` is never in a stop set made of letters, so the stop-set test never drops it (the length test still drops a token of two characters such as "a?") |
| Ranker.SingleWordQuestion | main.py:108-115 | a one-word question of three or more lower-case letters is kept as itself exactly when it is not a stop word, so against a text containing it it scores 1, or 0 for a stop word |
| Ranker.StopWordSetsDiffer | azure_main.py:65 | the Azure stop set is the Universal one (main.py:106) minus can, could, should, would, do, does and did |
| Ranker.VerbsCountOnlyInAzure | azure_main.py:65-72 | a question made of one of the words only main.py stops (can, could, should, would, does, did) scores 0 there and 1 in azure_main.py against a text containing it |
| Policy.ShouldUseDocuments | main.py:123-153 | the four tiers: an empty store gives no context; an indicator match takes the threshold-0 ranking; else a non-empty threshold-2 ranking; else a general question gets none; else the threshold-1 ranking, used when non-empty |
| Policy.DocumentIndicators | main.py:128-132 | the three alternations of phrases that mark a reference to the user's own material, in source order |
| Policy.GeneralPatterns | main.py:144-147 | the two alternations of phrases that mark a general-knowledge question, in source order |
| Policy.RefersToDocuments | main.py:128-136 | some document-indicator pattern is found in the lower-cased question |
| Policy.IsGeneralQuestion | main.py:144-149 | some general pattern is found in the lower-cased question |
| Policy.MatchesAny | main.py:136 | `any(re.search(p, s) for p in patterns)`: one of the alternations is found |
| Policy.SearchAlternation | main.py:129 | `re.search(r'\b(p1\|p2\|...)\b', s)` finds a match: some phrase of the alternation occurs at some position of s with a word boundary on both sides |
| Policy.PhraseAt | main.py:129 | the phrase occurs at position i and `\b` holds before and after it |
| Policy.BoundaryAt | main.py:129 | `\b` at position i: a word character on exactly one side, with the ends of the string counting as non-word |
| Policy.IsWordChar | main.py:129 | the ASCII class `\w`: letters, digits and the underscore |
| Policy.PolicyConsistent | main.py:123-153 | an empty store gives (False, []); on every path context is used exactly when the list is non-empty, and the list holds at most three store documents |
| Policy.IndicatorForcesContext | main.py:128-137 | a question naming the user's own material uses the threshold-0 ranking, so min(3, n) documents |
| Policy.StrongMatchBeatsGeneral | main.py:139-142 | two keyword hits win over a general-question phrase, and every chosen document scores at least 2 |
| Policy.GeneralQuestionSuppressesWeakMatches | main.py:144-150 | a general question without two keyword hits gets no context |
| Policy.FallbackUsesSingleHits | main.py:152-153 | otherwise the threshold-1 ranking decides, and every document it chooses scores exactly 1 |
| Policy.OwnMaterialQuestionUsesContext | main.py:128-137 | a question with "our" standing between spaces, such as "What does our uploaded report say about revenue?", uses min(3, n) documents of any non-empty store |
| Policy.LowerPhraseAt | main.py:134-136 | a lower-case word between two spaces is a match of `\b(...)\b` in the lower-cased question |
| EmailParser.ParseEmailContent | main.py:57-84 | the line loop returns exactly `ParseEmail`, the declarative parse the lemmas below describe |
| EmailParser.ParseEmail | main.py:57-84 | the declarative parse: the last Subject and From values of the stripped lines, the stripped, newline-joined body lines, and the defaults for whatever comes out empty |
| EmailParser.LastHeader | main.py:70-73 | the value of the last line carrying the header, or "" without one |
| EmailParser.BodyLines | main.py:74-77 | the non-header lines after the first empty line |
| EmailParser.StrippedLines | main.py:59-68 | `email_content.split('\n')` with each line stripped, as many lines as the split gives |
| EmailParser.IsHeader | main.py:70-72 | `line.lower().startswith(key)` for the keys "subject:" and "from:" |
| EmailParser.HeaderValue | main.py:71-73 | `line[len(key):].strip()`: the rest of a header line after its key, stripped |
| EmailParser.IsAnyHeader | main.py:70-72 | the line is a Subject or a From header, so the body never collects it |
| EmailParser.NonHeaders | main.py:76-77 | the lines that are not headers, in order |
| EmailParser.Unlines | main.py:77 | `body += line + "\n"` over the body lines: each line followed by a newline |
| EmailParser.SubjectIsLastHeader | main.py:70-80 | the subject is the value of the last line starting with "subject:" in any case, or "No Subject" when that value is empty, whatever earlier subject lines said |
| EmailParser.SenderIsLastHeader | main.py:72-81 | the sender is the value of the last line starting with "from:" in any case, or "Unknown Sender" when that value is empty, whatever earlier from lines said |
| EmailParser.MissingHeadersDefault | main.py:79-83 | without a subject line the subject is "No Subject", without a from line the sender is "Unknown Sender", each whatever the other header does, and the type is "email" for every text |
| EmailParser.NoBlankLineKeepsWholeText | main.py:74-82 | without an empty line there is no body, and the whole unstripped text stands in for it |
| EmailParser.EmptyBodyKeepsWholeText | main.py:74-82 | when every line after the first empty line is a header or empty ("Subject: x", "", "From: y"), the body comes out empty and the whole unstripped text stands in for it |
| EmailParser.BodyLinesFollowFirstBlank | main.py:70-77 | every body line is a non-header line that comes after the first empty line |
| EmailParser.BodyLinesCollectAll | main.py:70-77 | conversely, every non-header line after the first empty line is in the body, in input order: the body is the kept lines before it, the line, then the kept lines after it |
| EmailParser.NonHeadersAppend | main.py:70-77 | dropping the header lines distributes over concatenation, so the body is the order-keeping filter of the lines |
| EmailParser.LastHeaderIsLast | main.py:67-73 | a later header line overwrites an earlier one; lines without the header change nothing |
| EmailParser.LastHeaderAbsent | main.py:61-73 | without any such header line the value stays empty |
| EmailParser.FirstBlank | main.py:74-75 | the index of the line that opens the body: at most the number of lines, and the line there, when there is one, is empty |
| EmailParser.FirstBlankIsFirst | main.py:74-75 | the line at that index is empty and every line before it is not, so the body opens at the first empty line and no later one |
| EmailParser.NonHeadersAround | main.py:70-77 | a non-header line sits in the kept lines between the lines kept before it and those kept after it |
| EmailParser.NonHeadersFrom | main.py:70-77 | each line the body collects is a non-header line of the input |
| Store.Upload | main.py:160-194 | the outcome of an upload: refused for an unknown extension, refused for whitespace-only text, otherwise the text stored under the original filename with the lower-cased name's extension as type (azure_main.py:87-120 without e-mail files) |
| Store.StoredText | main.py:165-177 | the extracted text for document files, the parsed message in the template for e-mail files |
| Store.FileType | main.py:187 | `split('.')[-1]`: the text after the last dot, the whole name without one |
| Store.EmailFilename | main.py:212 | `f"Email_{subject[:30]}..."`, also for forwarded e-mails (main.py:234) |
| Store.EmailDocumentText | main.py:208 | the `SUBJECT: … FROM: … CONTENT:` template, also used at main.py:177 and 230 |
| Store.Classify | main.py:165-178 | an accepted name ends with a dot and the matched extension, which has no dot |
| Store.AcceptedExtensions | main.py:165-178 | exactly .txt, .pdf, .docx, .doc, .pptx and .ppt are accepted, plus .eml and .msg in main.py only |
| Store.EmailFilesOnlyUniversal | azure_main.py:93-102 | azure_main.py refuses an .eml file, which main.py (173-177) parses as an e-mail |
| Store.DocumentDispatchShared | azure_main.py:93-100 | both services dispatch document files to the same extractor |
| Store.FileTypeOfExtension | main.py:187 | `split('.')[-1]` of a name ending with ".ext" is "ext" |
| Store.AcceptedFileType | main.py:184-188 | the stored type is the extension that the dispatch matched |
| Store.StoredUploadShape | main.py:179-188 | a stored upload keeps the uploaded filename, is not whitespace-only, and has one of the eight accepted extensions as its type |
| Store.BlankTextRefused | main.py:181-182 | a document file whose extracted text is whitespace-only is refused |
| Store.EmailFileAlwaysStored | main.py:173-188 | an e-mail file is never refused for lack of text; its document is the parsed message in the template |
| Store.TemplateHasText | main.py:177 | the e-mail template is never whitespace-only |
| Store.EmailFilenameShape | main.py:212 | the generated name is "Email_", at most 30 characters of the subject and "...", so at most 39 characters, and it keeps a short subject whole |
| Store.DocumentStore.constructor | main.py:22 | the store starts empty (`documents = []`, also azure_main.py:25) and so keeps the invariant that no document is whitespace-only |
| Store.DocumentStore.Add | main.py:184-188 | `documents.append(d)`: the new list is the old one with d at the end, and the invariant is kept; upload, process_email and forward_email (main.py:210, 232; azure_main.py:107) all go through it |
| Store.DocumentStore.UploadFile | main.py:160-194 | an unsupported or textless upload leaves the store unchanged and reports why; otherwise the document is appended and the reply gives the new size; no stored document is ever blank |
| Store.DocumentStore.ProcessEmail | main.py:200-219 | appends the template document named by `Email_{subject[:30]}...` with type "email", and reports the subject and the new size |
| Store.DocumentStore.ForwardEmail | main.py:225-241 | parses the raw text and appends it like a posted e-mail |
| Chat.UniversalChat | main.py:246-290 | the Universal reply: the grounded prompt and "Based on" annotation when the policy used documents, else the not-found prompt and annotation when the store is non-empty and the question names e-mails, messages or documents, else the general prompt; `documents_used` is the list's size when context is used, else 0 |
| Chat.AzureChat | azure_main.py:122-157 | the Azure reply: the model's answer followed by the annotation, and the number of documents the threshold-1 ranking picked |
| Chat.AzurePrompt | azure_main.py:125-139 | the grounded prompt over the threshold-1 ranking when it picked any, else "Answer this question: …" |
| Chat.AzureSelection | azure_main.py:125 | the threshold-1 ranking with azure_main.py's stop words |
| Chat.BasedOn | main.py:261 | `" (Based on: " + ", ".join(names) + ")"` over the used documents' filenames |
| Chat.ContextPart | main.py:255-256 | one document's block: the header line with icon (Universal) and filename, then its content |
| Chat.Context | main.py:259 | the blocks joined with blank lines |
| Chat.GroundedPrompt | main.py:260 | the service's intro, the context, the question and "Answer:" |
| Chat.Intro | main.py:260 | the opening line of the grounded prompt: "Based on these documents and emails, ..." in main.py and "Based on these documents, ..." in azure_main.py:135 |
| Chat.NotFoundPrompt | main.py:264 | the prompt that tells the model the material was not found in the uploads, with the question |
| Chat.AsksAboutOwnMaterial | main.py:263 | the lower-cased question contains "email", "message" or "document" |
| Chat.UniversalDocumentsUsed | main.py:249-286 | `documents_used` is the size of the policy's list (at most 3), and the reply cites documents exactly when it used some |
| Chat.UniversalNotFound | main.py:263-265 | "No relevant content found" is the annotation exactly when no document was used, the store is not empty and the question names emails, messages or documents |
| Chat.EmptyStoreIsGeneral | main.py:267-269 | an empty store gets the general-knowledge route in both services (azure_main.py:137-139) |
| Chat.AnnotationsDistinct | main.py:261-269 | the three source annotations are pairwise different |
| Chat.Filenames | main.py:254-257 | the cited names are the used documents' filenames, in ranking order |
| Chat.ContextHoldsContent | main.py:254-259 | the full text of every selected document stands in the joined context |
| Chat.ContextPartHoldsContent | main.py:256 | a context block ends with the document's full content, after its header line |
| Chat.GroundedPromptHoldsContent | main.py:251-260 | the grounded prompt contains the full text of every selected document |
| Chat.AzureAnswersAreGrounded | azure_main.py:125-136 | every document the Azure answer uses shares a counted question word with its text and is in the prompt; `documents_used` is their number, at most 3 |
| Chat.AzureAnnotation | azure_main.py:136-153 | the Azure answer ends with "(Based on: ...)" naming `documents_used` files, or with "(General knowledge)" when none was used |
| Documents.Icon | main.py:300 | the e-mail icon for type "email", the document icon otherwise |
| Documents.ListDocuments | main.py:292-303 | the total is the store size, and there is one entry per document, in order, with its filename and type |
| Documents.ListingAfterAppend | azure_main.py:159-164 | appending a document appends its entry and raises the total by one |
| Documents.EntryOf | main.py:297-300 | an entry carries the document's filename and type |
| Documents.HealthCheck | azure_main.py:83-85 | the status is "healthy" and the count is the store size |
| Text.Split | main.py:108 | `str.split()`: the maximal runs of non-whitespace characters in order; no word is empty or holds whitespace |
| Text.SplitAppend | main.py:108 | splitting two texts joined by a space gives the words of the first, then those of the second |
| Text.Strip | main.py:68 | `str.strip()`: the text without leading and trailing whitespace |
| Text.StripBy | main.py:108 | `str.strip(chars)`: empty exactly when every character is in the class, otherwise starting and ending outside it, never longer than the input |
| Text.Lower | main.py:114 | `str.lower()` on ASCII letters, character by character |
| Text.Contains | main.py:115 | the substring test `needle in haystack` |
| Text.StartsWith | main.py:70 | `s.startswith(prefix)` |
| Text.EndsWith | main.py:165-173 | `s.endswith(suffix)`: the last characters of s are the suffix |
| Text.IsBlank | main.py:181 | `not s.strip()`: s holds nothing but whitespace |
| Text.SplitOn | main.py:187 | `str.split(c)`: at least one piece, none containing c |
| Text.SplitOnJoin | main.py:59 | joining the pieces of `split(c)` with c gives back the text |
| Text.JoinWith | main.py:259-261 | `sep.join(parts)` |

## Left out

- Text extraction from PDF, Word and PowerPoint files and the UTF-8 decoding of uploads are not modelled. `Store.DocumentStore.UploadFile` receives the extractor's output as the parameter `extracted`.
- The language model call is the parameter `llm(system, user)`. Its model name and token limit are not modelled. Neither is the `Error: ...` reply that the exception handlers return.
- The human-readable `message` strings of the upload and e-mail replies are not modelled. The replies carry their data instead: the filename or subject, the new store size, and the error kind.
- `parse_email_content` for non-string input and its exception branch (main.py:85-99) are not modelled, because the callers always pass text.
- `lower()` changes only ASCII letters here, and `\w` in the regular expressions is ASCII. Python's full Unicode case mapping and word classes are not modelled.
- The regular-expression engine is modelled only for the alternations of literal phrases the policy uses.
- Concurrency between requests, the FastAPI routing, the static page and the root endpoints are not modelled.
- The other services (`backend/`, `services/rag_service.py`, `simple_main.py`) and `test_pinecone.py` are not part of this model.
