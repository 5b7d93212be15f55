# MongoDB-RAG: chunking and prompt assembly, modelled in Dafny

The repository is a step-by-step Retrieval-Augmented-Generation demo: a web
service that chunks an uploaded document, embeds and stores the chunks,
retrieves and reranks them for a question, builds a prompt and asks a local
language model. Every stage but two is a single call to an outside service.
The two pieces of logic the service computes itself are modelled here.

- `chunk_text` (module `Chunking`, `chunking.dfy`) splits a document into
  windows of `chunkSize` characters. Each window starts `chunkSize - overlap`
  characters after the previous one, and the windows are numbered from 1.
  `ChunkText` is the source's `while` loop, with its local list, start and id,
  proved equal to the specification function `Chunks`. The lemmas about
  `Chunks` give its closed form: the number of chunks is
  `ceil(len(text) / step)`, and chunk `k` has id `k + 1` and is
  `text[k*step : k*step + chunkSize]`. They also show that every chunk is
  at most `chunkSize` long, and non-empty when `chunkSize > 0`. When
  `overlap >= 0`, the last chunk ends at the end of the text, every character
  is covered, and neighbouring chunks share `overlap` characters, or what is
  left of the text when that is less. Python's clamping slice is modelled by `PySlice`.
  The loop runs until the window start passes the end of the text. So trailing
  chunks can lie entirely inside the chunk before them: `ChunkExample` shows
  `"abcdefghij"` with size 4 and overlap 1 giving a fourth chunk `"j"`.
- `build_prompt` (module `PromptBuilder`, `prompt.dfy`) appends, for each
  document in order, a header `--- Document <i+1> (Source: <source>) ---`,
  the document's text and a blank line. It then wraps this context in a fixed
  instruction, the question and an answer cue. `BuildContext` is the `for`
  loop and `BuildPrompt` the final assembly, each proved equal to a
  specification function (`Context`, `Prompt`). The lemmas place each
  document's block in the prompt, give the prompt's fixed prefix and suffix,
  and show that different positions get different headers. A missing `source`
  reads `N/A` and a missing `text` reads as empty.
- `str(i + 1)` in the header is modelled by `Decimal.NatToDecimal`, with both
  round trips against `DecimalValue` proved (module `Decimal`,
  `decimal.dfy`).

Both operations are deterministic: they are Dafny functions of their inputs.

The code numbers chunks from 1 (main.py:97). Its chunks carry only
`chunk_id` and `text`; the upload's file name is returned beside the list,
not stored in each chunk. The code does not check its chunking parameters:
an empty text returns before the loop whatever they are, and on a non-empty
text the model requires `overlap < chunkSize`, the condition without which
the loop never ends.

## Model

| member | source | states |
|---|---|---|
| `Chunking.ChunkText` | main.py:91-103 | the loop returns exactly the list `Chunks(text, chunkSize, overlap)`, for the empty text with any parameters, and for every other text with `overlap < chunkSize` |
| `Chunking.Chunks` | main.py:93-98 | the result is empty exactly when the text is empty |
| `Chunking.PySlice` | main.py:99 | Python's `s[lo:hi]` has length `min(hi, len(s)) - lo` when that is positive, else 0, and its j-th character is `s[lo + j]` |
| `Chunking.ChunkAt` | main.py:97-102 | from any loop state (start, next id), the k-th chunk appended starts k steps later, inside the text, and carries id `id + k` |
| `Chunking.ChunkCountFrom` | main.py:98-101 | the loop appends just enough chunks for the start to pass the end of the text, and the last one starts inside it |
| `Chunking.ChunkWindow` | main.py:97-102 | chunk k has id `k + 1`, starts `k` steps into the text, inside it, and has length `min(chunkSize, len(text) - start)` |
| `Chunking.ChunksClosedForm` | main.py:95-103 | the number of chunks is `ceil(len(text) / step)`, and chunk k is `Chunk(k + 1, text[k*step : k*step + chunkSize])` with `k*step < len(text)` |
| `Chunking.StartIsProduct` | main.py:101 | adding the step k times to a start of 0 gives `k * step` |
| `Chunking.CeilDivIsLeast` | main.py:98 | `ceil(a / b)` is exactly the least n whose n steps of b reach a |
| `Chunking.ChunkLengths` | main.py:99 | every chunk is the rest of the text from its start, cut at `chunkSize`: at most `chunkSize` long and non-empty when `chunkSize > 0` |
| `Chunking.LastChunkReachesEnd` | main.py:98-101 | with `overlap >= 0` and a non-empty text, the last chunk ends exactly at the end of the text |
| `Chunking.CoveredAt` | main.py:98-101 | with `overlap >= 0`, position i of the text lies in chunk `i / step` and that chunk holds `text[i]` there |
| `Chunking.Coverage` | main.py:98-101 | with `overlap >= 0`, every position of the text is covered by a chunk that holds the same character |
| `Chunking.NeighbourOverlap` | main.py:99-101 | with `overlap >= 0`, chunk k + 1 starts inside the text, and what chunk k holds past its first step characters is a prefix of chunk k + 1 of length `min(overlap, characters left)` |
| `Chunking.DefaultsAreValid` | main.py:91 | the default arguments, 1024 and 128, satisfy `0 <= overlap < chunkSize` |
| `Chunking.ChunkExample` | main.py:91-103 | `"abcdefghij"` with size 4 and overlap 1 gives `abcd`, `defg`, `ghij`, `j` with ids 1 to 4 |
| `Decimal.NatToDecimal` | main.py:280-281 | `str(n)` is a canonical numeral (digits only, no leading zero), and it is `"0"` exactly for 0 |
| `Decimal.ValueOfDecimal` | main.py:280-281 | reading back `str(n)` gives n |
| `Decimal.DecimalOfValue` | main.py:280-281 | every canonical numeral is `str` of its value |
| `Decimal.DecimalInjective` | main.py:280-281 | different numbers have different numerals |
| `PromptBuilder.Context` | main.py:278-282 | the context is empty exactly when there are no documents |
| `PromptBuilder.BuildContext` | main.py:278-282 | the loop's accumulated string is exactly `Context(docs)`: the blocks of all documents, in input order, numbered from 1 |
| `PromptBuilder.BuildPrompt` | main.py:277-292 | the returned prompt is exactly `Prompt(query, docs)` |
| `PromptBuilder.BlocksAppend` | main.py:279-282 | appending a document to the list appends its block, numbered after all others |
| `PromptBuilder.BlocksConcat` | main.py:279-282 | the blocks of two lists joined are the blocks of the first followed by those of the second, numbered on from where the first stops |
| `PromptBuilder.ContextBlockAt` | main.py:279-282 | document i's block (header numbered i + 1, source or `N/A`, text or empty, blank line) comes right after the blocks of the documents before it and right before those after it |
| `PromptBuilder.PromptLayout` | main.py:284-291 | the prompt is the instruction and `"\n\nDocuments:\n"`, then the context, then `"\n\nQuestion: " + query + "\n\nAnswer:"` |
| `PromptBuilder.PromptBlockAt` | main.py:279-291 | document i's block sits in the prompt right after the lead and the blocks of the documents before it |
| `PromptBuilder.HeaderNumber` | main.py:280-281 | in a header the document number follows `"--- Document "` and is followed by a space |
| `PromptBuilder.HeadersDistinct` | main.py:280-281 | documents at different positions get different headers, whatever their sources |
| `PromptBuilder.ContextExample` | main.py:279-282 | a document without source and one without text give `--- Document 1 (Source: N/A) ---\nAAAA\n\n--- Document 2 (Source: a.txt) ---\n\n\n` |

## Left out

- The web layer: the FastAPI app, CORS, request models, static files and the server start (main.py:51-89, main.py:312-315).
- Client set-up and environment loading (main.py:19-48): external configuration and process exit.
- The embedding and rerank calls (main.py:119-127, main.py:152-160, main.py:259-274): calls to an outside service. Reranking happens in that service; this file has no merge logic to model.
- The database insert and the vector-search pipelines (main.py:129-148, main.py:162-256): requests to a remote engine.
- The call to the language model (main.py:294-309).
- The upload decoding and the endpoints' error handling (main.py:105-117, main.py:299-309): HTTP plumbing around the core.
- The upload timestamp (main.py:139): it reads the clock.
- Chunking.ChunkText: a negative `chunkSize` is not modelled, not even on an empty text, because Python reads a negative slice end from the end of the string; `chunkSize` is a `nat`. A zero `chunkSize` with a negative overlap is modelled and gives empty chunks.
- Chunking.ChunkText: on a non-empty text, parameters with `overlap >= chunkSize` are excluded by the precondition, because the source's loop never ends on them. On an empty text they are modelled.
- Documents: `source` and `text` are strings or absent. A value of another type, or an explicit `None`, which Python would print with `str()`, is not modelled.
- Characters are Unicode code points, as in Python 3 strings; no encoding is modelled.
