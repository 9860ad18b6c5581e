# Mental-health support chatbot: a Dafny model of its core

This project models the logic of a retrieval-augmented mental-health support chatbot
that sits around its two foreign services, the language model and the vector index.
Both are oracles here: each call returns a value or fails.

- `RagChain` (`rag_chain.dfy`) models the per-turn state machine `chat` and its helpers:
  - the keyword crisis detector;
  - the formatter that numbers retrieved documents;
  - the normaliser that maps free classifier text onto the seven labels, with their confidences;
  - the reply composer's prompt window and its fallback sentence.
- `VectorStore` (`vector_store.dfy`) models the document store adapter:
  - document ids;
  - batched embedding requests;
  - de-duplicating, batch-isolated `add_documents`;
  - `search`, where similarity is `1 - distance`, a threshold applies and any failure gives no results;
  - the typed searches, collection statistics and `clear_collection`.
- `DataLoader` (`data_loader.dfy`) models the dataset-row-to-document mapping, `load_all_datasets` and the sentence-aware `chunk_text`.
- `SessionManager` (`session_manager.dfy`) models the in-memory session store: create-on-read, append-and-trim, history projection, deletion and per-session statistics.
- `Schemas` (`schemas.dfy`) models the field constraints of the API's request and response schemas, and the `messages_until_analysis` countdown.
- `Common`, `Seqs` and `Strings` supply `Option`/`Result` and the Python list and string idioms the source relies on:
  - batching;
  - negative slicing;
  - `in`, `rfind`, `strip`, `lower`;
  - `str(int)` and `join`.

Every label stays hidden until the fifth user message (`MIN_MESSAGES_FOR_ANALYSIS = 5`,
models/rag_chain.py:35, 205), unless a crisis is detected.

## Model

| member | source | states |
|---|---|---|
| Seqs.Batches | utils/vector_store.py:55-56 | The batches of `range(0, n, size)` slicing partition the list in order, each holds between 1 and `size` items, and every batch but the last is full. |
| Seqs.SliceFrom | app/session_manager.py:70 | Python's `xs[k:]`: the result is a suffix; `k = 0` keeps everything; a negative `k` keeps the last `min(-k, len)` items; a positive `k` drops the first `k`. |
| Strings.ContainsIffSubstring | models/rag_chain.py:66 | Python's left-to-right `sub in s` holds exactly when `sub` occurs in `s` at some index. |
| Strings.RFind | utils/data_loader.py:189 | `rfind` gives -1 exactly when there is no occurrence; otherwise it gives an occurrence after which there is none. |
| Strings.Strip | utils/data_loader.py:194 | `strip()` returns what is left of its input once a prefix and a suffix made only of whitespace are removed. The result neither begins nor ends with whitespace, so those are the longest such prefix and suffix. |
| Strings.StripPadded | models/rag_chain.py:120 | Stripping a word padded with whitespace on both sides gives back exactly the word. |
| Strings.NatToStringInjective | utils/data_loader.py:65 | Distinct row indices print differently, so the generated ids never collide. |
| DataLoader.QaDocumentsFrom | utils/data_loader.py:48-67 | The QA documents are, one for one and in order, those of the rows that are not "Intent " summaries, each built from its row under that row's index. |
| DataLoader.KeptRowsExactly | utils/data_loader.py:52-55 | The rows that are not summaries are taken in increasing row order, and none of them is left out. |
| DataLoader.QaDocumentsFromRows | utils/data_loader.py:48-67 | Each QA document comes from a row that is not an "Intent " summary, under its row's index. Every such row yields its document. The ids are pairwise distinct. |
| DataLoader.QaDocumentsInRowOrder | utils/data_loader.py:52-65 | Of two QA documents, the earlier one comes from the earlier row. |
| DataLoader.QaRowsMapping | utils/data_loader.py:48-67 | A row's document is loaded if and only if the row's question does not start with "Intent ", and every loaded document is built from some row. |
| DataLoader.LoadStatementsDataset | utils/data_loader.py:100-113 | Every statement row becomes exactly one document, in row order, with `stmt_<idx>` id and statement metadata; a missing file gives none. |
| DataLoader.LoadedIdsDistinct | utils/data_loader.py:122-135 | The QA documents followed by the statement documents carry pairwise distinct ids. |
| DataLoader.CutEnd | utils/data_loader.py:183-192 | A chunk's end lies strictly after its start and at most `chunk_size` beyond it. When the window reaches the end of the text, the end is exactly `start + chunk_size`. |
| DataLoader.CutFollowsFirstSeparator | utils/data_loader.py:186-192 | When the window does not reach the end of the text, the cut falls just after the last occurrence of the first separator, in the order ". ", "! ", "? ", "\n", that appears in the window. |
| DataLoader.CutWithoutSeparator | utils/data_loader.py:183-192 | With no separator in the window, the cut is at `start + chunk_size`. |
| DataLoader.SourceChunkerStalls | utils/data_loader.py:182-195 | With the default sizes (500, 50) the loop as written steps from start 0 to start 52, and from 52 back to 52, inside a 702-character text. |
| DataLoader.NextStart | utils/data_loader.py:195 | The guarded step always advances. It equals `end - overlap` whenever that advances, and never passes `end` for a non-negative overlap. |
| DataLoader.Windows | utils/data_loader.py:182-195 | The guarded loop visits windows that begin inside the text, are non-empty, are at most `chunk_size` long, and start where the loop starts. |
| DataLoader.WindowsChain | utils/data_loader.py:182-195 | Each window ends at the cut for its start. Each next window starts where the guarded step from the previous one leads. The step after the last window leaves the text. |
| DataLoader.WindowChunk | utils/data_loader.py:194 | A chunk is the stripped text of its window (`text[start:end].strip()`), so it is a substring of the text no longer than the window. |
| DataLoader.ChunkText | utils/data_loader.py:164-197 | A text that fits gives `[text]`. A longer text gives one chunk per window of the guarded loop, in order, each the stripped text of its window. Every chunk is at most `chunk_size` long and is a substring of the text. |
| DataLoader.ChunkWindowsCoverText | utils/data_loader.py:182-195 | With a non-negative overlap, every character of the text lies in the window of some chunk. |
| DataLoader.GuardedChunkerAdvances | utils/data_loader.py:182-195 | On the stalling input, the guarded loop visits the window `[0, 102)` first and then a window starting at 52, and then moves on. |
| VectorStore.EmbedBatches | utils/vector_store.py:55-64 | The batched embedding call succeeds exactly when every request succeeds. It then returns every reply's vectors, concatenated in request order. |
| VectorStore.GetEmbeddings | utils/vector_store.py:41-68 | The texts go out in requests of at most 100, and the call succeeds exactly when each request does. It then returns the replies' vectors in request order. |
| VectorStore.GetEmbeddingsOnePerText | utils/vector_store.py:55-64 | A service that answers each request with one vector per text gives one vector per text overall. |
| VectorStore.NewEntries | utils/vector_store.py:100-111 | Only documents whose id is not yet stored are written, and every such document of the batch is. |
| VectorStore.NewEntriesDistinct | utils/vector_store.py:96-111 | Documents with distinct ids give writes with distinct ids. |
| VectorStore.InsertProperties | utils/vector_store.py:115-120 | Writing under new ids leaves existing entries untouched, stores each pending entry under its id, and adds nothing else. |
| VectorStore.AddBatch | utils/vector_store.py:93-127 | A batch adds its count of entries. Every new entry is one of the batch's own documents, and existing entries are unchanged. |
| VectorStore.RunBatchesGrows | utils/vector_store.py:92-94 | When each pass of the batch loop adds its counted number of entries, all from its batch, the whole loop adds the summed count, all from the list. |
| VectorStore.AddBatches | utils/vector_store.py:92-127 | The batch loop adds exactly the counted number of entries. Each one is a document of the list, and no existing entry is touched. |
| VectorStore.AddDocuments | utils/vector_store.py:75-130 | The call raises only for a zero batch size on a non-empty list. An empty list or a negative batch size adds nothing and returns 0. Otherwise the result counts the entries the call added. |
| VectorStore.FailedBatchIsIsolated | utils/vector_store.py:99-127 | A batch whose lookup, embedding or write fails adds nothing, and the later batches run as if it were absent. |
| VectorStore.ReAddIsNoOp | utils/vector_store.py:100-107 | Documents whose ids are all stored add nothing and return 0. |
| VectorStore.AddBatchStoresAll | utils/vector_store.py:99-122 | A batch with distinct ids whose own lookup succeeds, and whose embedding succeeds when something is unseen, writes exactly its unseen documents and counts them. This holds whatever the backend does on other inputs. So the batch stores all its documents, and counts all of them when none was stored. |
| VectorStore.AddBatchesStoresAll | utils/vector_store.py:92-127 | With no failing call, every document of a list with distinct ids ends up stored. |
| VectorStore.AddBatchesCountsAll | utils/vector_store.py:92-130 | With no failing call, unseen documents with distinct ids are all counted as added. |
| VectorStore.SecondAddIsNoOp | utils/vector_store.py:92-130 | After a fully successful add, adding the same list again returns 0 and keeps the collection's count. |
| VectorStore.IndexAllDatasets | utils/vector_store.py:75-130 | Indexing both loaded datasets into an empty collection, with no failing call, stores and counts every document. |
| VectorStore.SelectedExactly | utils/vector_store.py:162-167 | The selected rows are, in increasing order, exactly the rows whose similarity reaches the threshold. |
| VectorStore.FormatHits | utils/vector_store.py:160-175 | The formatting loop fails exactly when a column is too short for a row it reads; otherwise it gives one hit per selected row, in order. |
| VectorStore.Search | utils/vector_store.py:151-179 | Every result reaches the threshold, and a failed query embedding gives no results. |
| VectorStore.SearchReturnsPassingRows | utils/vector_store.py:160-175 | The results are the index's rows, in the index's order, whose similarity `1 - distance` reaches the threshold. Each carries that similarity, and there are no more of them than rows returned. |
| VectorStore.SearchFormats | utils/vector_store.py:151-175 | Once the embedding and the query succeed, the results are what the formatting loop gives, or none when it raises. |
| VectorStore.SearchFailureIsEmpty | utils/vector_store.py:177-179 | A failed query or an unreadable row gives no results. |
| VectorStore.SearchWithinTopK | utils/vector_store.py:154-175 | An index that honours `n_results` yields at most `top_k` results. |
| VectorStore.FilteredSearchMatches | utils/vector_store.py:154-158 | With an index that honours the `where` filter, every result's metadata matches the filter. |
| VectorStore.TypedSearches | utils/vector_store.py:181-195 | `search_qa_pairs` returns only `qa_pair` documents and `search_similar_statements` only `statement` documents. |
| VectorStore.GetCollectionStats | utils/vector_store.py:197-203 | The stats carry the collection's name and its number of stored ids. |
| VectorStore.ClearCollection | utils/vector_store.py:205-216 | After a successful clear, the count is 0 and the name is unchanged. A failure reaches the caller as an error. |
| RagChain.CheckCrisis | models/rag_chain.py:56-66 | The crisis flag holds exactly when one of the 11 fixed phrases occurs in the lower-cased message. |
| RagChain.CrisisIgnoresCase | models/rag_chain.py:65-66 | Messages that lower-case alike are flagged alike. |
| RagChain.CrisisInContext | models/rag_chain.py:64-66 | A flagged message stays flagged whatever text surrounds it. |
| RagChain.KeywordFlags | models/rag_chain.py:56-66 | Any keyword written verbatim anywhere in the message flags it. |
| RagChain.CrisisExamples | tests/test_api.py:131-134 | The two crisis messages of the API tests are flagged. |
| RagChain.GreetingIsNotCrisis | models/rag_chain.py:64-66 | "Hello" is not flagged. |
| RagChain.FormatContext | models/rag_chain.py:76-85 | The context is empty exactly when no document was retrieved. Otherwise it starts with the line `[1] <first content>`, and a single document gives exactly that line. |
| RagChain.FormatContextAppend | models/rag_chain.py:80-85 | One more document appends a newline and the line `[n+1] <content>`, so the lines are numbered from 1 in retrieval order. |
| RagChain.ExactFrom | models/rag_chain.py:123-124 | Finds a label whose name is exactly the reply, or reports that none is. |
| RagChain.FirstContainedFrom | models/rag_chain.py:125-128 | Finds the first label, in list order, whose lower-cased name occurs in the lower-cased reply, or reports that none does. |
| RagChain.NormaliseLabel | models/rag_chain.py:120-130 | A stripped reply that is a label name keeps that label. Otherwise the result is the first label, in list order, contained in the reply, or `Normal` when none is. |
| RagChain.NormaliseKeepsLabel | models/rag_chain.py:120-124 | A reply that is a label name padded with whitespace normalises to that label. |
| RagChain.LabelNameInjective | models/rag_chain.py:123 | The seven label names are distinct. |
| RagChain.NormaliseIdempotent | models/rag_chain.py:120-130 | Normalising the name of a normalised label gives the same label. |
| RagChain.NormaliseEmptyReply | models/rag_chain.py:129-130 | An empty reply normalises to `Normal`. |
| RagChain.UserContentsConcat | models/rag_chain.py:90 | The user messages of a joined history are those of its parts, in order. |
| RagChain.UserContentsStep | models/rag_chain.py:195 | An assistant turn adds no user message, and a user turn adds exactly its content. |
| RagChain.Analyze | models/rag_chain.py:87-137 | The classifier sees every user message and then the current one. A failed call gives `Normal` with 0.5. Otherwise the confidence is 0.75 for a label other than `Normal` and 0.6 for `Normal`. |
| RagChain.UserTurn | models/rag_chain.py:164-167 | Without context the user turn is the message. With context it is the message, the reference opening, the first `min(len, 500)` characters of the context, and `]`. |
| RagChain.ReplyTurns | models/rag_chain.py:157-169 | The composer sees at most the last six history turns, in order, and then the current user turn. |
| RagChain.Compose | models/rag_chain.py:139-182 | The reply is the model's text, or the fixed fallback sentence when the call fails. |
| RagChain.ComposeSeesRecentHistory | models/rag_chain.py:160-161 | Histories whose last six turns agree yield the same reply. |
| RagChain.Chat | models/rag_chain.py:184-245 | The message count is the number of user turns plus one, and analysis happens exactly from the fifth message or on a crisis. Every turn reports the documents its search retrieved. Gathering turns carry no label and 0.0. Analysis answers start with the preamble naming the label. A crisis forces `Suicidal` with 1.0. |
| RagChain.GatheringTurn | models/rag_chain.py:205-219 | Before the fifth message and without a crisis, the answer is the composer's gathering-mode reply to the retrieved context and the history. |
| RagChain.AnalysisTurn | models/rag_chain.py:220-245 | From the fifth message on, without a crisis, the turn reports the analyzer's label and confidence and the retrieved documents. Its answer is the summary-mode reply to the formatted context, between the preamble naming the label and the disclaimer. |
| RagChain.CrisisOverridesClassifier | models/rag_chain.py:222-228 | On a crisis the classifier's reply is irrelevant. Language models that agree on replies produce the same turn. |
| RagChain.ConfidenceValues | models/rag_chain.py:184-245 | A turn's confidence is one of 0.0, 0.5, 0.6, 0.75 and 1.0. |
| SessionManager.NewManager | app/session_manager.py:21-30 | A new manager holds no session and keeps the given message limit. |
| SessionManager.GetOrCreate | app/session_manager.py:34-44 | A known session is returned unchanged. An unknown id registers an empty session and nothing else. |
| SessionManager.Trim | app/session_manager.py:68-70 | Trimming keeps a suffix. A positive limit keeps exactly the `min(len, max)` most recent messages. A zero limit keeps everything. |
| SessionManager.TrimNegativeLimit | app/session_manager.py:68-70 | A negative limit drops the first `-max` messages, or all of them when there are fewer, as `messages[-max:]` does. |
| SessionManager.AddMessage | app/session_manager.py:46-70 | The session is created if absent. The stored list is a suffix of the old list plus the new message, and it ends with the new message for a non-negative limit. Its length is capped by a positive limit. Every other session is unchanged. |
| SessionManager.AddMessageNegativeLimit | app/session_manager.py:68-70 | With a negative limit, the stored list is the appended list without its first `-max` messages, as `messages[-max:]` gives. |
| SessionManager.GetChatHistory | app/session_manager.py:72-79 | The history is the role and content of every stored message, in order, and the session is created when unknown. |
| SessionManager.ClearSession | app/session_manager.py:81-86 | Returns true and removes the session exactly when it existed. Otherwise it returns false and changes nothing. Other sessions are untouched. |
| SessionManager.SessionCount | app/session_manager.py:88-90 | The count is the number of stored sessions. |
| SessionManager.AddMessageKeepsBound | app/session_manager.py:68-70 | With a positive limit, adding a message keeps every session within the limit. |
| SessionManager.AddMessageCount | app/session_manager.py:34-55 | Adding to an unknown session adds one session, and adding to a known one adds none. |
| SessionManager.ClearSessionCount | app/session_manager.py:81-90 | Clearing a known session removes exactly one. |
| SessionManager.HistoryEndsWithAdded | app/session_manager.py:55-79 | After adding a message, the session's history ends with that message's role and content. |
| SessionManager.TallyOfCounts | app/session_manager.py:101-105 | The counting map gives each classification its number of occurrences and has no other key. |
| SessionManager.CountMessages | app/session_manager.py:98-105 | The loop counts the crisis messages and tallies the non-empty classifications. |
| SessionManager.GetSessionStats | app/session_manager.py:92-111 | An unknown id gives `None`. Otherwise the stats hold the message count, the crisis count, and the multiset count of non-empty classifications. |
| SessionManager.ClassifiedSplit | app/session_manager.py:98-105 | The classifications and the crisis count of a joined list are those of its parts. |
| Schemas.MakeChatRequest | app/schemas.py:11-15 | A chat request is valid exactly when its message has 1 to 5000 characters. The session id is optional and `include_context` defaults to false. |
| Schemas.ChatRequestTests | tests/test_api.py:100-121 | An empty message and a 6000-character message are rejected. |
| Schemas.FeedbackErrors | app/schemas.py:31-32 | The rating is flagged exactly when it is outside [1, 5], and the text exactly when it is present and over 1000 characters. |
| Schemas.MakeFeedbackRequest | app/schemas.py:27-32 | A feedback request is valid exactly when the rating is in [1, 5] and the text is absent or at most 1000 characters. A rejection names every failing field. |
| Schemas.MakeChatResponse | app/schemas.py:50-59 | A chat response is valid exactly when its confidence lies in [0, 1]. An accepted response carries exactly the given field values. |
| Schemas.MessagesUntilAnalysis | app/main.py:256 | The countdown is 0 exactly from the fifth message on. Before that it adds up with the count to 5. |
| Schemas.TurnsMakeValidResponses | app/main.py:248-257 | The fields the chat endpoint returns for any turn of the chain make a `ChatResponse` that the schema accepts. Its countdown is 0 exactly from the fifth message on, and it carries a label exactly on analysis turns. |
| Schemas.MakeMessage | app/schemas.py:106-112 | A message is valid exactly when its role is `user` or `assistant`, and `is_crisis` defaults to false. |
| Schemas.RoleIsAnchored | app/schemas.py:108 | Roles with extra characters, other capitalisation or another word are rejected. |

## Left out

- The language model, the embedding service and the vector index are oracles. Their inputs are abstracted as follows:
  - prompt wording, temperatures and token limits are not modelled;
  - the MD5 digest behind generated ids is an arbitrary deterministic function of content and metadata;
  - the index's nearest-neighbour ranking is not modelled.
- Exceptions from the foreign services are modelled as failure results, and timeouts are not modelled.
- A completion whose content is `None` is not modelled. The model's completions always carry text.
- CSV reading and file-existence checks are replaced by parsed rows, with `None` standing for a missing or unreadable file.
- Values are strings before they reach the model: `str(row[...])` conversions and pandas NaN handling are not modelled.
- `get_training_data_for_classification` is not modelled: it is a column projection of a CSV file.
- Timestamps, and the `created_at`/`updated_at` fields of sessions and schemas, are not modelled: they are clock reads.
- `max_sessions` and the session TTL are not modelled: they are stored and never enforced.
- `get_crisis_response` is not modelled: it is a constant text that `chat` never uses.
- The HTTP routing, dependency injection and background re-indexing in app/main.py are not modelled. The model keeps only the countdown arithmetic and the shape of the chat response.
- Schemas.ResponseOf: the chat endpoint returns a plain dict and declares no `response_model`, so nothing validates its reply against `ChatResponse`. The model shows only that the returned fields would pass that validation.
- VectorStore.GetCollectionStats: the `persist_directory` entry of the stats is not modelled. It is a configuration path that is only echoed back.
- VectorStore.DocId: the digest input `str(metadata)` depends on the metadata's insertion order. Metadata here is a `map`, so two documents that differ only in that order get the same generated id in the model, while the source gives them different ones.
- Other schemas (`IndexDocumentsRequest`, `ContextItem`, `HealthCheckResponse`, `StatsResponse`, `ErrorResponse`, `Session`) are not modelled: they declare fields without constraints.
- Similarities are exact reals. Floating-point rounding of `1 - distance` is not modelled.
- `Strings.Lower`: lower-cases ASCII letters only, because Unicode case mapping is out of scope. The crisis keywords and label names are ASCII, but a message can still be flagged differently. Python lowers the Kelvin sign U+212A to `k`, so `"\u212Aill myself"` is flagged by the source and not by `RagChain.CheckCrisis`.
- RagChain.FormatContext: formats search hits, which always carry content, so a document without `content` (rendered as the empty string in the source) cannot occur in the model.
- Duplicate ids inside one batch are modelled as a failed write of that batch. This matches the index rejecting repeated ids in one add.
- VectorStore.AddBatch: the embedding oracle's answer is not checked against the number of texts. An answer with the wrong number of vectors is treated like a correct one, where the index would reject the write.
- DataLoader.ChunkText: requires a positive chunk size, to keep the model simple. With a non-positive size the source's behaviour depends on the overlap. For example, `chunk_text("ab", 0, -1)` ends with `["", ""]`, while a non-negative overlap never moves the start forward.
- DataLoader.ChunkText: with a negative start the source slices from the end of the text. It is modelled with the progress guard, which keeps every start non-negative, so the unguarded behaviour is shown only by the stalling example.
- SessionManager.AddMessage: for a negative `max_messages`, its own contract states only that the result is a suffix of the appended list. The exact list is stated separately by `SessionManager.AddMessageNegativeLimit`.

## Findings

| source | as written | input that shows it | evidently intended | confidence | as-written member | corrected member |
|---|---|---|---|---|---|---|
| utils/data_loader.py:195 | The next window starts at `end - overlap` even when that is not past the current start, so the loop can revisit the same start for ever. | `chunk_text("a"*100 + ". " + "a"*600)` with the default sizes 500 and 50: the first window cuts after the ". " at 102, the next start is 52, whose window cuts at 102 again, and the start stays at 52. | Every step advances, so the loop terminates. | high, not executed | DataLoader.SourceNextStart (exhibited by DataLoader.SourceChunkerStalls) | DataLoader.NextStart, used by DataLoader.Windows and DataLoader.ChunkText (shown to advance by DataLoader.GuardedChunkerAdvances and to cover the text by DataLoader.ChunkWindowsCoverText) |
