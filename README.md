# SFC syllabus adviser: the bookkeeping of one chat turn

The chat page answers questions about Keio SFC courses. Each rerun of the page
makes sure a message history exists in the session. When the user has typed a
question, it replays the stored history into a `session_context` dictionary and
records the question. It then calls the retrieval-QA chain, which answers with
a result text and the source documents it used. Each document's `source_url`
is shown once, in the order first seen, and the answer is recorded.

This project models that bookkeeping in Dafny:

- `types.dfy` (module `ChatTypes`): messages with a `Role`, retrieved documents
  with a metadata map, the chain's `Answer`, and `Reply`, which is either an
  answer or the exception the chain raised.
- `citations.dfy` (module `Citations`): the `doc_urls` loop (`Cite`), specified
  against the pure order-preserving deduplication `Dedup`. `Dedup` is proved to
  be exactly the sequence of first occurrences: no repeats, the same elements,
  in first-seen order, and it is the only sequence with those properties.
- `context.dfy` (module `Context`): the `session_context` replay loop
  (`Replay`), specified against `LastByRole`. For each role that occurs,
  `LastByRole` holds the content of the last message with that role, and it
  has no other keys.
- `orchestrator.dfy` (module `Orchestrator`): the pure effect of a turn
  (`TakeTurn`), and the `Session` class whose `messages` field stands for
  `st.session_state.messages`. Its methods do what the page does, step by step,
  and are proved to match `TakeTurn`. `Session.Valid` keeps the invariant that
  every assistant message directly follows a user message.

The answer chain (`qa.invoke`) is a parameter `qa: string -> Reply`. It receives
only the question. The chat input is an `Option<string>`: absent or empty input
is not a question, as with Python truthiness.

Three details of the code shape the model:

- The template names `{session_context}`, but `input_variables` leaves it out
  (app.py:61), and the chain receives only the question (app.py:86). So the
  map is built and never used. `AnswerIgnoresHistory` states this.
- The question is recorded before the answer call (app.py:83, 86). After a
  failed call the history ends with an unanswered question, so questions and
  answers need not alternate. The invariant that holds is that every
  assistant message comes right after a user message.
- The code reads `doc.metadata["source_url"]` without a default (app.py:92).
  A document without that key raises `KeyError`. The loop stops there, the
  citation lines already shown stay, and the answer is not recorded, because
  app.py:95 is not reached. The model includes this error path (`CitedPrefix`,
  `CitationAborted`).

## Model

| member | source | states |
|---|---|---|
| Citations.Dedup | app.py:89-94 | doc_urls is never longer than the URL list it is built from, and holds exactly the URLs that occur in it |
| Citations.DedupNoDuplicates | app.py:92-93 | because of the membership guard, doc_urls never contains the same URL twice |
| Citations.DedupIsFirstOccurrences | app.py:89-94 | doc_urls lists every URL once, nothing else, ordered by the position where each URL first occurs |
| Citations.FirstOccurrencesUnique | app.py:89-94 | any sequence with those three properties equals doc_urls, so the result is exactly the sequence of first occurrences |
| Citations.DedupCharacterised | app.py:89-94 | both directions: a sequence is the loop's result if and only if it is the sequence of first occurrences |
| Citations.DedupOfNoDuplicates | app.py:92-93 | a URL list without repeats is kept unchanged, URL for URL |
| Citations.DedupIdempotent | app.py:89-94 | deduplicating an already deduplicated list changes nothing |
| Citations.DedupExample | app.py:89-94 | source URLs [A, A, B, A, C] give citations [A, B, C] |
| Citations.CitationLine | app.py:94 | the line shown for one URL is the prefix 参考元： followed by the URL |
| Citations.CitationLines | app.py:94 | one line per URL, in the same order, each the citation line of that URL |
| Citations.CitedUrls | app.py:89-94 | doc_urls when the loop ends: the deduplicated source URLs of the documents before the first one lacking source_url |
| Citations.CitedPrefix | app.py:90-92 | the loop gets through exactly the documents before the first one whose metadata lacks source_url, where KeyError is raised |
| Citations.CitedUrlsProperties | app.py:89-94 | doc_urls has no repeats and at most one URL per document, holds only URLs of documents the loop reached, in first-occurrence order, and, when every document has a source_url, holds every one of them |
| Citations.Cite | app.py:89-94 | the loop reports a missing source_url exactly when some document lacks one; the doc_urls built is the deduplication of the URLs read; one citation line is shown per appended URL, in the same order; no URL repeats; every URL is cited when none is missing |
| Context.LastByRole | app.py:76-77 | the dictionary that writing each stored message's content under its role produces, last write winning (its meaning is stated by LastByRoleCharacterised) |
| Context.LastByRoleCharacterised | app.py:76-77 | after replay, session_context has a key for a role exactly when some stored message has that role, and maps it to the content of the last such message |
| Context.Replay | app.py:76-77 | the loop, starting from an empty dictionary, ends with the last-write-wins map of the history |
| Orchestrator.IsQuestion | app.py:74 | the chat input starts a turn exactly when it is present and not the empty string, as Python truthiness decides for the walrus test |
| Orchestrator.TakeTurn | app.py:74-95 | without a question nothing is appended and nothing is shown; with one, the question is appended first and the context is the replay of the earlier history; a failed answer call or a KeyError adds nothing more; a complete turn adds exactly the assistant message with the result; earlier messages never change; shown citations are the deduplicated URLs |
| Orchestrator.TurnKeepsAssistantAfterUser | app.py:83-95 | a turn keeps the invariant that every assistant message directly follows a user message |
| Orchestrator.AnswersNeverOutnumberQuestions | app.py:83-95 | under that invariant, the history never holds more assistant messages than user messages |
| Orchestrator.AnswerIgnoresHistory | app.py:86 | what a turn shows and appends is the same whatever the earlier history, because the chain receives only the question |
| Orchestrator.Session.AnswersBalanced | app.py:83-95 | in every session the history, once created, never holds more assistant messages than user messages |
| Orchestrator.Session.constructor | app.py:72 | a new session has no message history |
| Orchestrator.Session.InitHistory | app.py:72-73 | the history is created empty when absent, and an existing history is left unchanged |
| Orchestrator.Session.HandleInput | app.py:74-95 | replays the context, appends the question before the answer call, and appends the answer only after the citation loop finishes; the new history, context and output are those of TakeTurn |
| Orchestrator.Session.Rerun | app.py:72-95 | one rerun of the page: history initialisation followed by the turn, with the result TakeTurn gives for the existing (or new empty) history |

## Left out

- Loading the FAISS index and building the embeddings (app.py:15-16, 27-31) are disk I/O and library code. They are not modelled.
- The Gemini client and its temperature and retry settings (app.py:34-38), the prompt template (app.py:43-62) and the RetrievalQA chain with its k=10 retriever (app.py:63-70) are remote calls and library internals. Together they are the `qa` parameter. Ranking and the bound of 10 documents are promises of the retriever, not of this code.
- Streamlit page setup, chat bubbles, the spinner and markdown rendering (app.py:19-23, 78-82, 84-87) are UI. This includes re-showing the earlier messages during replay. Only the citation lines are modelled, as an output sequence. The `print` of the question (app.py:80) is console output and is left out.
- How Streamlit keeps `st.session_state` across reruns is framework state. It is the `messages` field of `Session`.
- An uncaught exception (the answer call raising, or `KeyError`) ends the rerun, and Streamlit shows the traceback. The model returns `AnswerFailed` or `CitationAborted` instead and does not model the traceback page.
- Citations.Cite: metadata values are modelled as strings. A non-string `source_url` would be compared with Python `==` and formatted by the f-string; that is not modelled.
- Orchestrator.TakeTurn: assumes the chain's response always has `result` and `source_documents`. This holds because the chain is built with `return_source_documents=True`. A response missing either key is not modelled.
