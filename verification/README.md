# Legal-QA orchestration core, modelled in Dafny

This project models the question-answering core of a retrieval-augmented
assistant for Vietnamese personal-data-protection law. The core has three parts.

- **The query-orchestration graph** (`generation/services/build_graph.py`):
  - five nodes over a shared conversation state: `user_input`,
    `direct_answer`, `refine_query`, `semantic_search` and `generate_answer`;
  - the edge table, with one conditional edge out of `user_input`.

  The language model and the retriever are oracle functions. Each returns a
  value or the text of the exception it raised. With them, a run of the graph
  is a total function (`Graph.Execute`, `Graph.RunGraph`).
- **Top-k retrieval** (`generation/services/search_relevant_laws.py`):
  - the import check and the load-once embedding-model cache;
  - the empty-matrix short-circuit, and the shape error the dot product raises
    when the query's width differs from the table's;
  - selection by `argsort(-scores)[:k]`, specified by its postcondition
    (`Ranking.IsTopK`);
  - assembly of the `{score, sentence_chunk, page_number}` records.
- **The grounded prompt builder**
  (`DefaultPromptBuilder.build_prompt` in `generation/services/prompt_builder.py`):
  - validation of the query and the context;
  - filtering of the context entries;
  - `[Page p] text` rendering joined by blank lines;
  - the final template, including the page number that the loop variable
    `page` carries into the last instruction line.

Modules:

| file | module | contents |
|---|---|---|
| wrappers.dfy | `Wrappers` | `Option`, `Outcome` (value or exception text), `Result` |
| text.dfy | `Text` | The Python string operations the core relies on: `in` on `str`, `lower()`, `strip()`, `join`, `str(int)`, ordering of `str`, and `sorted(set(...))` |
| ranking.dfy | `Ranking` | The retrieval function |
| prompts.dfy | `Prompts` | The prompt builder |
| graph.dfy | `Graph` | The node functions, the edge table, its interpreter and the run lemmas |

## Model

| member | source | states |
|---|---|---|
| Text.ContainsIffOccurs | generation/services/build_graph.py:29 | Python's substring test `p in s` holds exactly when `p` occurs at some index of `s`. |
| Text.StripKeepsContains | generation/services/build_graph.py:27-29 | Stripping whitespace never changes whether a word that starts and ends with a non-space character occurs in the text. |
| Text.JoinContainsEach | generation/services/prompt_builder.py:35 | Every element of the list occurs in `sep.join(list)`. |
| Text.IntRoundTrip | generation/services/build_graph.py:121 | `str(i)` can be parsed back to `i` for every integer, negative ones included. |
| Text.IntToStringInjective | generation/services/build_graph.py:121 | Two page numbers render to the same string exactly when they are equal. |
| Text.LessTotal | generation/services/build_graph.py:122 | Python's code-point ordering of strings is total: for two different strings, one is below the other. |
| Text.LessTransitive | generation/services/build_graph.py:122 | The same ordering is transitive. |
| Text.SortedSet | generation/services/build_graph.py:122 | `sorted(set(xs))` is strictly ascending and holds exactly the members of `xs`. |
| Text.SortedUnique | generation/services/build_graph.py:122 | Two strictly ascending lists with the same members are equal, so `sorted(set(xs))` is the only such listing. |
| Ranking.EmbedQuery | generation/services/search_relevant_laws.py:77-106 | Embedding a query. Without the library, it fails with the install message. A model is built from `huyydangg/DEk21_hcmute_embedding` only while the cache is empty. A cached model is reused unchanged. A successful vector is the encoding of the query by the cached model. A failed build leaves the cache empty and returns the constructor's error. A cache is only set by a build. |
| Ranking.ConstructedAtMostOnce | generation/services/search_relevant_laws.py:87-92 | Over any sequence of calls, the model is built at most once. It is never built once the cache is set, and a set cache is never replaced. A cache set at the end was either there at the start or built exactly once. |
| Ranking.CosineScores | generation/services/search_relevant_laws.py:51-61 | An empty matrix scores to the empty array. Otherwise the dot product raises numpy's shape `ValueError` exactly when some row's width differs from the query's. When it does not raise, the array holds one score per row: the similarity of that row with the query. |
| Ranking.WidthMismatchRaises | generation/services/search_relevant_laws.py:60 | A one-row table of width 2 raises the shape error against a query of width 3 and scores against a query of width 2. |
| Ranking.ArgsortPrefixIsTopK | generation/services/search_relevant_laws.py:116 | Reference definition of the top-k contract: the first `k` entries of any descending ordering of all indices satisfy `IsTopK`, whatever the tie order. |
| Ranking.TopKIsArgsortPrefix | generation/services/search_relevant_laws.py:116 | The converse: every answer satisfying `IsTopK` is the first `k` entries of some descending ordering of all indices. So `IsTopK` holds of exactly the results `argsort(-scores)[:k]` can return under some tie order. |
| Ranking.SelectTopK | generation/services/search_relevant_laws.py:116 | The selected indices number `len(scores[:k])`, including Python's negative-`k` slice. They are in range and distinct, their scores do not increase, and no index left out scores above one taken. |
| Ranking.TopKScoresDetermined | generation/services/search_relevant_laws.py:116 | Two valid top-k selections have the same length and the same score at every position, so only the order among equal scores is left open. |
| Ranking.BuildDocs | generation/services/search_relevant_laws.py:118-125 | One record per selected index. Each record holds the score at that index and the text and page of the row at that index. |
| Ranking.RetrieveRelevantLaws | generation/services/search_relevant_laws.py:64-130 | A failed embedding fails retrieval with the same error. After a successful embedding, retrieval fails exactly when scoring raises (a width mismatch, line 109 calls the scorer outside any `try`), again with the same error. An empty matrix yields `[]`. Otherwise the result has `len(rows[:k])` records with non-increasing scores, built from a top-k selection. The model cache is threaded through the call. |
| Prompts.NoChunksIffNoneContribute | generation/services/prompt_builder.py:21-31 | No formatted chunk survives exactly when no entry is a dict with a truthy text and a truthy page. |
| Prompts.FormattedChunksSingle | generation/services/prompt_builder.py:22-29 | Non-dicts are skipped. A dict contributes only if its text and page are both truthy, so page 0, `None` or empty text drops it. A contributing dict renders as `[Page p] text`. |
| Prompts.FormattedChunks | generation/services/prompt_builder.py:21-29 | The loop yields at most one chunk per entry. |
| Prompts.EveryChunkFromContributor | generation/services/prompt_builder.py:21-29 | Every chunk is the `[Page p] text` rendering of some entry that is a dict with a truthy text and a truthy page. |
| Prompts.ContextString | generation/services/prompt_builder.py:35 | `"\n\n".join(formatted_chunks)`: empty with no chunks, the chunk itself when there is one, and containing every chunk. |
| Prompts.LastVisitedPage | generation/services/prompt_builder.py:22-27 | When `page` is bound after the loop, it holds the page of some dict of the context. |
| Prompts.FormattedChunksAppend | generation/services/prompt_builder.py:21-29 | Filtering distributes over concatenation, so chunks keep the input order. |
| Prompts.LastVisitedPageIsLastDict | generation/services/prompt_builder.py:22-27 | After the loop, `page` is bound exactly when some dict was visited. It then holds the page of the last dict, whether or not that dict contributed. |
| Prompts.BuildPrompt | generation/services/prompt_builder.py:11-50 | Covers the three `ValueError`s in source order: empty query, empty context, no surviving chunk. The result is a prompt exactly when the query is non-empty and some entry contributes. The prompt contains the joined context and the query verbatim. |
| Prompts.InstructionCitesLastVisitedPage | generation/services/prompt_builder.py:22-49 | A prompt is returned only after some dict was visited. The prompt ends with the instruction line, and that line interpolates the page of the last dict visited. |
| Prompts.ChunkPosition | generation/services/prompt_builder.py:21-29 | A contributing entry's chunk sits in the chunk list after the chunks of all earlier entries. |
| Prompts.PromptShowsEveryChunk | generation/services/prompt_builder.py:29-39 | Every contributing entry appears, rendered, in the prompt. |
| Prompts.DroppedEntryLeaksItsPage | generation/services/prompt_builder.py:26-49 | A concrete input where the only chunk is from page 5 but the instruction line names page 7. Page 7 comes from an entry dropped for its empty text. The prompt ends with the instruction line naming "7". |
| Graph.ClassifyPrompt | generation/services/build_graph.py:22-25 | The classification prompt contains the query. |
| Graph.DirectPrompt | generation/services/build_graph.py:44-49 | The direct-answer prompt contains the query. |
| Graph.RefinePrompt | generation/services/build_graph.py:61-76 | The rewrite prompt contains the query. |
| Graph.AnswerContext | generation/services/build_graph.py:118-119 | The context text contains the text of every passage. |
| Graph.RefsText | generation/services/build_graph.py:121-123 | The citation text starts with the fixed prefix, ends with the fixed suffix and contains the rendered page number of every passage. |
| Graph.AnswerPrompt | generation/services/build_graph.py:132-146 | The answer node's prompt contains the joined passage texts, the query and the citation text. |
| Graph.AnswerPromptShowsEveryPassage | generation/services/build_graph.py:118-146 | Every passage's text, and its page number, appear in the answer prompt. |
| Graph.GroundedPrompt | generation/services/build_graph.py:132-146 | The answer prompt contains the passages, the query and the citation text. |
| Graph.ClassifyReply | generation/services/build_graph.py:27-29 | The route is `legal_search` exactly when "legal" occurs in the lower-cased reply, and `direct_answer` otherwise. |
| Graph.RouteIsLegalIffKeywordOccurs | generation/services/build_graph.py:27-29 | The route is `legal_search` exactly when "legal" occurs anywhere in the lower-cased reply, so "illegal" counts and stripping never matters. |
| Graph.IllegalIsLegal | generation/services/build_graph.py:27-29 | The reply "Illegal" routes to the search. |
| Graph.GeneralIsDirect | generation/services/build_graph.py:27-29 | The reply "General" routes to the direct answer. |
| Graph.UserInputNode | generation/services/build_graph.py:11-39 | On success, the query is the last message and the route is set from the reply. On failure (no message, or a model error), the query is cleared, the error is recorded and the route is left as it was. A model error is recorded with the model's own error text. Nothing else changes. |
| Graph.DirectAnswerNode | generation/services/build_graph.py:41-56 | Exactly one assistant message: the model's answer, or the apology prefix followed by the error text. |
| Graph.RefineQueryNode | generation/services/build_graph.py:58-89 | On success the refined query is the model's rewrite. On failure it falls back to the query and the error is recorded. No other field changes. |
| Graph.SearchQuery | generation/services/build_graph.py:96 | The search uses the refined query unless it is absent or empty, and the query otherwise. |
| Graph.SemanticSearchNode | generation/services/build_graph.py:91-110 | On success, stores the passages and overwrites the query with the one searched, keeping the error. On failure, empties the passages, keeps the query and records the error. Messages, refined query and route are unchanged. |
| Graph.SearchAsksForThreeDocs | generation/services/build_graph.py:96-103 | The node makes one retriever call, with the search query and a request for three passages. |
| Graph.PageRefs | generation/services/build_graph.py:121 | `page_refs` has one entry per passage, in passage order, each the `str` of that passage's page number. |
| Graph.CitedPages | generation/services/build_graph.py:121-122 | The cited pages are strictly ascending as strings, and hold exactly the rendered page numbers of the passages. |
| Graph.CitedPagesIsCanonical | generation/services/build_graph.py:121-122 | Any strictly ascending listing of the rendered page numbers equals the cited pages. |
| Graph.CitationDeduplicatesPages | generation/services/build_graph.py:121-122 | Two passages render to the same citation entry exactly when they share a page. |
| Graph.CitationExamples | generation/services/build_graph.py:121-123 | Pages 9, 5, 5 cite "5", "9". Pages 9, 10 cite "10", "9", because the sort is on strings. |
| Graph.GenerateAnswerNode | generation/services/build_graph.py:112-160 | Exactly one assistant message. With no passages it is the fixed not-found reply. A non-empty answer is followed by "\n" and the citation text. An empty answer is returned as is. A model error gives the apology prefix followed by the error text. |
| Graph.NoModelCallWithoutDocs | generation/services/build_graph.py:126-127 | With no passages the answer node does not consult the model. |
| Graph.RouteKey | generation/services/build_graph.py:174 | The conditional edge reads the stored route, and `legal_search` when none is stored. |
| Graph.Successor | generation/services/build_graph.py:171-183 | A node goes to END exactly when it is one of the two answer nodes. Every other step follows an edge of the table. From `user_input`, the route `direct_answer` leads to the direct answer node and every other route leads to `refine_query`. |
| Graph.Apply | generation/services/build_graph.py:163-169 | Each answer node returns one assistant message and the other nodes return none. The message list of the state is never changed, and a recorded error is never cleared. |
| Graph.ValidPathVisitsOneTerminal | generation/services/build_graph.py:171-183 | A path through the table follows its edges and visits exactly one answer node, its last. |
| Graph.Execute | generation/services/build_graph.py:163-186 | Whatever the oracles do, a run from any node follows the table to exactly one answer node and returns exactly one assistant message. |
| Graph.RunGraph | generation/services/build_graph.py:163-186 | A run takes one of the two paths, chosen by the route classification leaves; an absent route reads as `legal_search`. On the direct path the one reply is the direct answer node's, and the passages of the state are left as they were. On the search path the run classifies, rewrites, searches and answers, and its reply is the answer node's for the searched state. A failed classification on a fresh state (no route yet) still takes the search path, and the error survives to the end. A search that fails or finds nothing ends with the fixed not-found reply. |

Points where the model follows the code closely:
- `np.argsort`'s default sort is not stable (`search_relevant_laws.py:116`), so `Ranking.IsTopK` promises no tie order.
- A failed classification leaves the route as it was (unset on a fresh state). The conditional edge's default (`build_graph.py:174`) then sends the run to the search path.

## Left out

- **Oracles.** The language model, the sentence-transformers import, the model constructor, `encode` and the cosine similarity are parameters. What they compute is not modelled. The graph's retriever is likewise a parameter. Nothing is passed in the code: `build_graph.py:5` imports `retrieve_relevant_laws` and the search node calls it directly with `n_resources_to_return=3` (`build_graph.py:99-103`). The graph model does not thread the model cache through that call.
- Ranking.CosineScores: zero-norm corpus rows are not guarded in the code (`search_relevant_laws.py:58`). Such a row divides by zero and scores NaN, which a real cannot represent. `np.argsort` places NaN after every number, so such a row is picked only when `k` exceeds the number of rows with a numeric score, and then the records' scores are no longer non-increasing, since no comparison with NaN holds. The model's scores are always reals, so `Ranking.RetrieveRelevantLaws` promises non-increasing scores only for tables without zero-norm rows.
- **Floating point.** The cosine normalisation (`search_relevant_laws.py:55-60`) and float32 storage are out of scope. Scores are abstract reals produced by the cosine oracle.
- **Loading the passage table.** The CSV load, embedding parsing and matrix building (`search_relevant_laws.py:15-45`) are file I/O and numpy parsing. The table is a parameter, `rows`.
- **The `except` around record assembly** (`search_relevant_laws.py:126-127`). It cannot fire: every selected index is below the row count.
- **The `messages` reducer.** The `State` type the graph is built over is not part of this model, so it is unknown whether returned messages are appended or replace the list. Each answer node's returned list is kept apart in `Graph.Trace.reply`, and the state's own list is shown to be unchanged.
- **Prompt prose.** The Vietnamese instructions of the five prompts are opaque tags. Only where the query, the context, the citation text and the page appear is modelled. The short user-visible replies and prefixes are verbatim.
- **Python's dynamic typing.** The types exclude a non-string query, a non-list context, a last message with no `content`, which the code reads as `""` (`build_graph.py:15-17`; `Graph.Message` stands for dict messages and message objects alike, since both branches read `content`), context values other than strings, integers and `None`, and page numbers that are not integers.
- Text.Lower: only ASCII letters are lower-cased. Python's `str.lower` also folds other scripts, which affects only replies containing non-ASCII letters.
- **Logging, `print` and timing** are outside the model.
- **Concurrency.** Calls are modelled one at a time. The `/generate` route is a plain `def` (`generation/api/routes.py:13`), so requests run on a thread pool. The check-then-set of the model cache (`search_relevant_laws.py:89-91`) takes no lock, so two concurrent first calls can each build a model. `Ranking.ConstructedAtMostOnce` holds only for sequential calls.
- Ranking.RetrieveRelevantLaws: the defaults `n_resources_to_return=5` and `print_time=True` (`search_relevant_laws.py:66-67`) are not modelled. `k` is a required parameter, and both callers (`build_graph.py:99-103`, `generation_pipeline.py:27-31`) pass 3. `print_time` only controls timing output.
- **Other files.** The LLM wrappers (`gemini_stragety.py`, `llm_caller.py`), `generation_pipeline.py`, the HTTP routes, settings, pydantic schemas and the no-op response processor are not part of this model. They contain wiring, not logic of the core.
