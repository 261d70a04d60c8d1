# AskPDF retrieval-augmented answering, modelled in Dafny

AskPDF lets a signed-in user upload a PDF and ask questions about it. This project models
the system's retrieval-augmented ("RAG") core. Answers are grounded in the document's own
text.

- **Chunker** (`chunking.dfy`). The extracted text is cut into overlapping windows. The
  window size adapts to the length of the text, and at most 250 chunks are kept.
- **Embedding gateway** (`gateway.dfy`). It resolves the API key: the caller's key, else
  the `GEMINI_API_KEY` default. It strips and clamps the text sent for embedding, and it
  makes the embed and generate requests to the model provider.
- **Corpus store client** (`vector_store.dfy`). It saves every chunk with its embedding
  in insert requests of at most 60 rows. It searches a document's chunks through the
  `match_pdf_chunks` procedure.
- **Answer composer** (`composer.dfy`, and `legacy_composer.dfy` for the older revision
  under `src/`). It builds the grounded prompt, asks the model once and strips the reply.
- **Chat route** (`chat_route.dfy`). It classifies a posted question as a summary request
  or an ordinary question, searches and filters by similarity, then refuses, answers or
  apologises. It saves the exchange to the chat history and shows it after the earlier
  ones.

Shared pieces:

- `wrappers.dfy`: `Option`, `Result`, `Outcome` and the error values.
- `seqs.dfy`: sequence helpers (`Take`, `Filter`, `Map`, `Flatten`, subsequences).
- `text.dfy`: Python's `str.strip`, ASCII `lower`, `in` on strings and `str.join`.

The model provider and the database are classes whose answers are fixed functions of the
request. Each keeps a log of the requests it received. Methods that call them are proved
against reference functions. Examples: `Ingest` for `add_to_vector_db`, `SearchOutcome`
for `search_in_vector_db`, `AnswerFor` / `AnswerCalls` for the chat route. Those
functions carry the lemmas about batching, grounding and refusal.

Notes on behaviour:

- The code re-raises provider failures unchanged, without sorting them into quota,
  credential and other errors, so the model passes the provider's message through as
  `ProviderError`.
- `add_to_vector_db` takes no key and embeds with the default key.
- A failed insert request ends the run with a store error, because the code does not
  catch the exception it raises.
- Chunks are not guaranteed to cover the whole text: the 250-chunk cap drops the rest.

## Model

| member | source | states |
|---|---|---|
| Chunking.ResolveChunkSize | app/services/chat/chunking.py:23-33 | the size is at least `min_chunk`, at most `max_chunk` when the bounds are ordered, and equals the requested size (or the 1000/1200/1500/1800 band size when none is given) whenever that lies within the bounds |
| Chunking.ResolveOverlap | app/services/chat/chunking.py:36-39 | the overlap is at least 120, at most 30% of the size when that is at least 120, below the size, and equals a requested overlap that lies in range |
| Chunking.ResolveChunkSizeClamps | app/services/chat/chunking.py:23-33 | a wanted size below `min_chunk` (or crossed bounds) gives `min_chunk`; one above `max_chunk` gives `max_chunk` |
| Chunking.ResolveOverlapClamps | app/services/chat/chunking.py:36-39 | without a request the overlap is 15% of the size when that is at least 120; a wanted overlap below 120 (or 30% of the size below 120) gives 120; one above 30% of the size gives that 30% |
| Chunking.DefaultChunkCap | app/services/chat/chunking.py:5-44 | with the default bounds and cap there are never more than 250 chunks |
| Chunking.DefaultParameters | app/services/chat/chunking.py:5-39 | with the default bounds the band size is used unclamped (900..1800), the default overlap is 15% of it, and the step is positive |
| Chunking.BandSizeMonotone | app/services/chat/chunking.py:23-31 | a longer text never gets a smaller window |
| Chunking.StepPositive | app/services/chat/chunking.py:39-51 | for any `min_chunk > 120` the window start advances by a positive step of at most size - 120 |
| Chunking.OffsetIsProduct | app/services/chat/chunking.py:51 | k turns of the loop move the start k * step characters |
| Chunking.ChunkText | app/services/chat/chunking.py:1-53 | the result is the reference list `Chunks` (so it is a function of the arguments alone), empty for empty text, and has at most `max_chunks` elements |
| Chunking.SlideWindow | app/services/chat/chunking.py:41-53 | the loop collects exactly the non-blank stripped windows from the start of the text, capped at `max_chunks` |
| Chunking.SlideAdvance | app/services/chat/chunking.py:45-51 | one turn appends the stripped window when it is not blank and leaves the rest of the collection to start one step later |
| Chunking.NothingLeft | app/services/chat/chunking.py:44 | when the loop condition fails nothing is left to collect |
| Chunking.ChunksBounded | app/services/chat/chunking.py:44 | there are never more than `max_chunks` chunks |
| Chunking.WindowsAt | app/services/chat/chunking.py:44-51 | the k-th window examined is the one starting k steps in, and it exists exactly when that start lies inside the text |
| Chunking.StrippedWindowInText | app/services/chat/chunking.py:46 | a stripped window is a contiguous piece of the text |
| Chunking.ChunkIsStrippedWindow | app/services/chat/chunking.py:45-49 | every chunk is non-empty, at most the window size, the stripped window at some step inside the text, and a substring of the text |
| Chunking.ChunksInWindowOrder | app/services/chat/chunking.py:44-51 | the chunks are a subsequence of the stripped windows, so they come in increasing order of window start |
| Chunking.EveryNonBlankWindowKept | app/services/chat/chunking.py:48-51 | a blank window does not stop the loop: every non-blank stripped window preceded by fewer than `max_chunks` non-blank windows is among the chunks |
| Text.StripIsTrimmedSlice | app/services/chat/gemini_client.py:19 | `strip` returns the slice from the first to the last non-space character: everything cut off is whitespace and a non-empty result starts and ends with a non-space character |
| Text.StripEmptyIffBlank | app/services/chat/chunking.py:46-48 | a window strips to the empty string exactly when it is all whitespace, which is when the chunker drops it |
| Text.StripIdempotent | app/services/chat/rag_pipeline.py:22 | stripping twice is stripping once |
| Text.Lower | app/routes/chat.py:52 | lowering keeps the length, leaves no upper-case ASCII letter and changes nothing but A..Z |
| Text.LowerIdempotent | app/routes/chat.py:52 | lowering a lowered question changes nothing |
| Text.ContainsIff | app/routes/chat.py:56 | `sub in s` holds exactly when `sub` occurs at some index of `s` |
| Text.JoinPieces | app/routes/chat.py:62 | `sep.join(parts)` holds each part verbatim at its place, a separator after every part but the last, and ends with the last part |
| Gateway.ResolveKey | app/services/chat/gemini_client.py:10-15 | the caller's key when truthy, else the default key when truthy, else the missing-key failure; a resolved key is never empty |
| Gateway.SafeText | app/services/chat/gemini_client.py:19-21 | the text sent is a prefix of `strip(text or "")` of at most 10000 characters: all of it when it fits, exactly its first 10000 characters otherwise |
| Gateway.SafeTextKeepsCleanText | app/services/chat/gemini_client.py:19-21 | a short text without surrounding whitespace is sent unchanged, and `None` is sent as the empty string |
| Gateway.EmbedRequest | app/services/chat/gemini_client.py:12-28 | `get_embedding` makes one provider request when a key resolves and none otherwise; the request carries the safe text (at most 10000 characters) and the resolved key; without a key the result is the missing-key failure |
| Gateway.EmbedPassesThrough | app/services/chat/gemini_client.py:24-32 | the provider's vector or failure reaches the caller unchanged, with no retry |
| Gateway.Provider.EmbedContent | app/services/chat/gemini_client.py:25-28 | the provider answers the text and key and logs exactly that one request |
| Gateway.Provider.GenerateContent | app/services/chat/gemini_client.py:37-40 | the provider answers the prompt and key and logs exactly that one request |
| Gateway.GetEmbedding | app/services/chat/gemini_client.py:18-32 | the result is `EmbedOutcome` and the provider's log grows by exactly `EmbedCalls` |
| Gateway.GenerateText | app/services/chat/gemini_client.py:35-41 | the result is the reply to the unchanged prompt (or the missing-key or provider failure) and the log grows by at most that one request |
| VectorStore.ChunkTable.Insert | app/services/chat/vector_store.py:28 | the store answers the rows and logs exactly that one insert request |
| VectorStore.ChunkTable.MatchPdfChunks | app/services/chat/vector_store.py:43-47 | the store answers the request and logs exactly that one procedure call |
| VectorStore.BatchesFlatten | app/services/chat/vector_store.py:27-33 | the batches put back together are the rows, in order |
| VectorStore.BatchesShape | app/services/chat/vector_store.py:4-33 | there are ceil(n / 60) batches, each of 1 to 60 rows, all but the last of exactly 60 |
| VectorStore.BatchesOf125 | app/services/chat/vector_store.py:4-33 | 125 rows go out as 60, 60 and 5 |
| VectorStore.BatchesAppend | app/services/chat/vector_store.py:27-29 | after a whole number of full batches, batching starts afresh |
| VectorStore.EmbedLogCalls | app/services/chat/vector_store.py:16-17 | with a default key each chunk is sent to the provider exactly once, in list order, as its safe text; without one nothing is sent |
| VectorStore.IngestFrom | app/services/chat/vector_store.py:16-33 | the reference run from chunk `i` on never embeds fewer than `i` or more than all the chunks |
| VectorStore.AddToVectorDb | app/services/chat/vector_store.py:7-33 | the outcome, the insert requests and the provider requests are those of the reference run `Ingest`; no search is made |
| VectorStore.EmbedAndInsert | app/services/chat/vector_store.py:15-33 | the loop's outcome and requests are the reference run's, for any provider whose answers match the embedder |
| VectorStore.EmbedChunk | app/services/chat/vector_store.py:16-29 | one turn keeps the loop's invariant: fewer than 60 rows stay buffered (none right after a flush), and the requests sent so far followed by the rest of the run stay the whole run |
| VectorStore.FlushRest | app/services/chat/vector_store.py:32-33 | the leftover rows go out in one last request exactly when there are any |
| VectorStore.RowContents | app/services/chat/vector_store.py:19-24 | each row carries the document, the user, the chunk and that chunk's embedding |
| VectorStore.FullBatchesShape | app/services/chat/vector_store.py:27-29 | the full batches of n rows are floor(n / 60) batches of 60 holding the first n - n % 60 rows in order |
| VectorStore.IngestFromSucceeds | app/services/chat/vector_store.py:16-33 | from any point, with no failure, the requests are the batches of the buffered rows followed by the rows of the remaining chunks |
| VectorStore.IngestFromFails | app/services/chat/vector_store.py:16-29 | from any point, when the full batches before it are inserted, the first failing embedding ends the run after exactly those batches |
| VectorStore.IngestFromSent | app/services/chat/vector_store.py:16-33 | whatever fails, the rows sent are a prefix, in order, of the buffered rows and the rows of the remaining chunks |
| VectorStore.IngestFromBatchSizes | app/services/chat/vector_store.py:27-33 | every request holds 1 to 60 rows, and every request but the last is full and succeeded |
| VectorStore.IngestFromPasses | app/services/chat/vector_store.py:16-33 | a run that succeeds embedded every chunk and had every request succeed |
| VectorStore.IngestFromStoresAll | app/services/chat/vector_store.py:16-33 | a run that succeeds sent, in order, the rows already buffered and the rows of every chunk left |
| VectorStore.IngestNothing | app/services/chat/vector_store.py:12-13 | an empty chunk list embeds nothing and inserts nothing |
| VectorStore.IngestSuccess | app/services/chat/vector_store.py:4-33 | when every embedding and every batch actually sent succeeds, every chunk is embedded, and the requests are exactly the chunks' rows in order, in ceil(n / 60) requests of 1 to 60 rows, all but the last of 60 |
| VectorStore.IngestEmbedFailure | app/services/chat/vector_store.py:16-29 | when embedding chunk k fails first and the full batches before it are inserted, the run fails with that error after floor(k / 60) full requests, which hold the rows of the first k - k % 60 chunks and are not undone |
| VectorStore.IngestRequests | app/services/chat/vector_store.py:15-33 | whatever fails, the rows sent are the first chunks' rows in order, in requests of 1 to 60 rows, all but the last full and successful; success means every chunk was embedded and the requests together carried the rows of all chunks, in order |
| VectorStore.PassagesOf | app/services/chat/vector_store.py:49-55 | one passage per returned row, in order, with the row's content as text and its similarity unchanged |
| VectorStore.SearchRequest | app/services/chat/vector_store.py:41-50 | a search embeds the query at most once and, once it has a vector, calls the procedure once with that vector, `match_pdf_id = pdf_id` and `match_count = top_k`; no data gives no passages |
| VectorStore.SearchInVectorDb | app/services/chat/vector_store.py:36-57 | the result is `SearchOutcome`, and the provider and procedure requests are exactly those of one search; nothing is inserted |
| Composer.PromptGrounding | app/services/chat/rag_pipeline.py:4-21 | the prompt holds the context verbatim, then the question heading, then the question verbatim, then the answer cue; the fallback sentence comes before the context |
| Composer.AnswerIsTrimmedReply | app/services/chat/rag_pipeline.py:22 | the answer is the reply stripped: a slice whose cut-off ends are whitespace, with no whitespace at either end, unchanged by stripping again; a failure is the generation's own |
| Composer.AnswerRequest | app/services/chat/rag_pipeline.py:22 | exactly one generation request when a key resolves, none otherwise, carrying the prompt and the resolved key |
| Composer.GenerateAnswer | app/services/chat/rag_pipeline.py:3-22 | the answer is `AnswerOutcome` and the provider sees at most one generation (one exactly when a key resolves), with the prompt and the resolved key: the caller's key when truthy, else the default |
| LegacyComposer.GenerateAnswer | src/rag_pipeline.py:3-22 | the answer is the current composer's answer without a caller key, from at most one generation request (one exactly when the default key is set), with the same prompt and the resolved default key |
| LegacyComposer.LegacyUsesDefaultKey | src/rag_pipeline.py:22 | the older revision fails with the missing-key error exactly when no default key is set, and otherwise sends the prompt once with the default key, as any non-truthy caller key would |
| ChatRoute.ClassificationIgnoresCase | app/routes/chat.py:52-64 | the summary test and the "short" test give the same verdict on a lowered question |
| ChatRoute.SummaryWords | app/routes/chat.py:52-56 | any word that lowers to "summary" or "summarize", anywhere in a question, makes it a summary request |
| ChatRoute.SummaryWordsExample | app/routes/chat.py:52-56 | "Summary" and "SUMMARIZE" anywhere in a question make it a summary request |
| ChatRoute.SearchParameters | app/routes/chat.py:56-73 | a summary request searches with "overall document summary", unchanged by the gateway, and top_k 10; an ordinary question searches with itself and top_k 8 |
| ChatRoute.RelevantKeepsExactly | app/routes/chat.py:79 | the filter keeps exactly the passages with similarity above 0.20, every copy of each (as multisets), in their order |
| ChatRoute.RelevantExample | app/routes/chat.py:79 | similarities 0.5, 0.1, 0.25 keep the first and the last |
| ChatRoute.QuestionGrounding | app/routes/chat.py:73-85 | an ordinary question is refused exactly when no passage is above 0.20; otherwise the question goes to the model unchanged over the context of exactly the kept passages, every copy of each, in order |
| ChatRoute.SummaryIgnoresSimilarity | app/routes/chat.py:56-69 | a summary depends only on the passages' texts, gives the incomplete-indexing message exactly when nothing was found, and asks with the short or the structured prompt as "short" decides |
| ChatRoute.ContextHoldsEveryPassage | app/routes/chat.py:62-84 | every passage's text is in the context, verbatim, at its place |
| ChatRoute.NoKeyApology | app/routes/chat.py:54-89 | without a key the apology is shown and no provider or procedure request is made |
| ChatRoute.RepliesWithoutModel | app/routes/chat.py:57-89 | a fixed reply costs only the search's embedding; asking costs that plus one generation with the grounded prompt, and a failed generation shows the apology |
| ChatRoute.Respond | app/routes/chat.py:52-89 | the answer is `AnswerFor`, the provider and procedure requests are exactly `AnswerCalls` and the search's, and nothing is inserted |
| ChatRoute.ExchangesOf | app/routes/chat.py:34-37 | one exchange per history row, same order, with the row's question and answer |
| ChatRoute.HistoryTable.Insert | app/routes/chat.py:92-97 | the row is saved after every earlier one |
| ChatRoute.SelectAfterInsert | app/routes/chat.py:27-97 | saving a row adds it at the end of its own user's history for its document and leaves every other history unchanged |
| ChatRoute.Chat | app/routes/chat.py:34-99 | an empty question (after stripping) gives the error with no request and no row saved; otherwise the answer is `AnswerFor`, one history row is saved, and the exchange is shown after the earlier ones; the page always shows what the next visit loads |

## Left out

- Flask, the login decorator, the sidebar of documents, sessions and template rendering
  (`app/routes/chat.py:1-24, 101-107`) are left out. The user id and whether the request
  is a POST are parameters.
- The GEMINI_API_KEY environment setting is a parameter (`envKey`). The model provider's
  and the database's answers are fixed functions of the request, with no I/O. So a repeated
  request always gets the same answer, and the model cannot describe a one-off failure (a
  rate limit, say) of a chunk whose text appeared earlier and was embedded then.
- Floating point is left out. Similarity scores are `real`. `int(size * 0.15)` and
  `int(size * 0.30)` are the integer quotients `size * 15 / 100` and `size * 30 / 100`.
  These agree for the sizes the chunker can produce, but this is an assumption.
- Chunking.ChunkText: requires `min_chunk > 120`. With a smaller lower bound the Python
  loop can fail to advance, and that non-termination is not modelled.
- Text.Lower: covers ASCII letters only. Python's Unicode case mapping is not modelled;
  the words the route looks for are ASCII.
- ChatRoute.Chat: the chat-history insert is assumed to succeed. In the code a failure
  there escapes the route, and that path is not modelled.
- ChatRoute.Respond: only failures of the search and of the generation are turned into
  the apology. Other exceptions inside the `try` block are not modelled.
- Gateway.GenerateText: the provider's reply is a string. A `None` `res.text` (stripping
  would then raise) is not modelled.
- The chat history is returned in the order the rows were saved, which stands in for
  ordering by `created_at`.
- `search_in_vector_db`'s default `top_k = 6` is never used by the route, which always
  passes 8 or 10.
- `app/routes/pdf.py` passes an `api_key` that `add_to_vector_db` does not accept. The
  model follows `vector_store.py`: ingestion embeds with the default key.
- `src/gemini_client.py` is not part of this model. The older composer is assumed to
  resolve its key like `app/services/chat/gemini_client.py` with no caller key.
- The ranking inside `match_pdf_chunks` is the database's own, and it is not modelled.
- The provider's response shape (`res.embeddings[0].values`) is collapsed into the
  embedding itself.
- The model names sent with each provider request
  (`app/services/chat/gemini_client.py:26, 38`) and the route's `logger.error` call in its
  `except` branch (`app/routes/chat.py:88`) are not recorded; `Call` holds only the text
  or prompt and the key.
