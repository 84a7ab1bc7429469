# rag-qa in Dafny

A Dafny model of the core of the `rag-qa` document question-answering pipeline, with its properties proved.

- **`Retriever`** builds an index of text chunks from PDF files.
  - It cuts each page into overlapping fixed-size windows and drops the windows that are only whitespace.
  - Each chunk gets a running `chunk_id` and, when there is an embedder, an embedding.
  - The chunk list of each file is kept in a `storage/` cache keyed by the file's stem.
  - `retrieve` ranks the chunks by a score, best first with ties kept in document order, and keeps the first `top_k`.
- **`QValidator`** is the guard run on a user question.
  - It strips the question, then checks in order for an empty input, no ASCII letter or digit, and a question that is too short.
  - It turns an error code into a message.
- **`Agent`** drafts the answer.
  - It numbers the retrieved chunks as sources `[1]`, `[2]`, … and builds the prompt from them.
  - It appends a citation list to the language model's answer.
  - It records a log of the run.

The model is organised in these files:

| file | module | models |
|---|---|---|
| `wrappers.dfy` | `Wrappers` | Python's `None` / value |
| `text.dfy` | `Text` | `str.isspace`, `str.strip`, `str.split`, `str.join` and `str(n)` |
| `chunker.dfy` | `Chunker` | the overlap and step computed in `Retriever.__init__`, and `_chunk_text` |
| `ranking.dfy` | `Ranking` | the stable descending `sorted` and the `[:top_k]` slice of `retrieve` |
| `retriever.dfy` | `Retriever` | `Retriever`: construction, `_load_and_embed_docs` and `retrieve` |
| `validator.dfy` | `Validator` | `QValidator` |
| `agent.dfy` | `Agent` | `Agent` |

The code that changes state in place is modelled as imperative Dafny:
- The `Retriever` class holds `documents`, the cache map and a load-error flag.
- Its loading methods are proved against a functional specification.
  - The specification of the whole load is `LoadPaths`. It is a fold of `LoadNext` over the paths.
  - The specification of the pages of one file is `BuildPages`.
- `_chunk_text` is a method with a loop, proved equal to the function `Chunks`.
- `_create_prompt` and `_add_citations` are loops. They are proved equal to `Prompt`/`Sources` and to `Cited`.
- The validator and the ranking are pure and are modelled as functions.

`rag/utils/question_validation.py` is a second copy of `QValidator`. It has the same constants and the same five methods with the same bodies, without docstrings. One model, `Validator`, stands for both, so the two agree on every input by construction. The rows below cite `rag/utils/validator.py`. The same members model these lines of the copy:
- `Validator.NormalizeQuestion`: lines 13-14.
- `Validator.SearchAsciiAlnum`: lines 16-18.
- `Validator.AlnumCount`: lines 20-22.
- `Validator.ValidateQuestion`, `Validator.ValidateQuestionCases` and `Validator.ValidateIgnoresPadding`: lines 24-36.
- `Validator.MessagesOfCodes`: lines 38-42.

The agent uses its retriever only through `retrieve(question, top_k)`. The language model is used only as a call from prompt to answer. Both are fixed when the `Agent` is constructed, as functions. `Retriever.Retriever.Retrieve` models what a `Retriever` returns there, given the scores.

## Behaviour as the code has it

- **Cache key.** The cache is keyed by `Path(path).stem` alone (`rag/retriever.py:56-60`). It does not depend on the chunk size, the strategy or the directory.
  - Two files with the same name in different directories share one entry.
  - With `save`, the second file is never read. Its chunks are renumbered copies of the first file's chunks and still name the first file's path (`SameNameReusesChunks`, `SameNameKeepsFirstPath`).
- **`top_k`.** Nothing rejects a bad `top_k`.
  - `top_k = 0` gives an empty list.
  - A negative `top_k` slices from the end, as Python does (`Ranking.Take`).
- **Step.** Nothing checks that the step is positive.
  - A step of 0 makes `range` raise, and a negative step yields nothing. The model requires `step > 0` wherever chunking happens.
  - The constructor requires a positive step. `Chunker.FullOverlapHasNoStep` shows that an overlap ratio of 1 or more leaves none.
- **Semantic strategy.** `_semantic_chunk_text` returns `None`. So the `"semantic"` strategy raises at the first page with text, when the chunk loop iterates `None`.
  - The model treats this as a load that fails: `BuildPages` returns `None` and `LoadNext` marks the state failed.
  - The constructor's `loadError` records it, and the files after it are not loaded (`LoadPathsAfterFailure`).

## Model

| member | source | states |
|---|---|---|
| Text.Strip | rag/utils/validator.py:29 | `strip()` gives no more characters than it gets, and the result neither starts nor ends with whitespace |
| Text.StripBounds | rag/utils/validator.py:29 | the stripped string is a slice of the input with only whitespace cut off before and after it |
| Text.StripEmptyIffBlank | rag/utils/validator.py:73 | `q.strip()` is empty exactly when `q` is whitespace only |
| Text.StripIdempotent | rag/utils/validator.py:29 | stripping twice is stripping once |
| Text.StripIgnoresPadding | rag/utils/validator.py:29 | surrounding whitespace does not change the stripped string |
| Text.Split | rag/agent.py:52 | `split()` gives non-empty words that hold no whitespace; how many is stated by `Text.SplitCount` |
| Text.SplitCount | rag/agent.py:52 | `len(s.split())` is the number of non-space characters that open `s` or follow whitespace, the starts of its maximal non-space runs |
| Text.SplitNonBlank | rag/agent.py:52 | a string with a non-space character has at least one word |
| Text.JoinLength | rag/agent.py:81 | the joined string is as long as its parts plus the separators between them |
| Text.JoinPlacesPart | rag/agent.py:81 | each part appears in the joined string at its offset, after the earlier parts and separators |
| Text.JoinPlacesSeparator | rag/agent.py:81 | between each part and the next, the joined string holds exactly the separator |
| Text.NatToString | rag/agent.py:69 | the decimal rendering of a number is non-empty, all digits, and has no leading zero unless the number is 0 |
| Text.ParseNatToString | rag/agent.py:69 | reading the decimal rendering back gives the number |
| Text.NatToStringInjective | rag/agent.py:69 | different numbers render differently |
| Chunker.TruncDivBounds | rag/retriever.py:21 | `int()` of a quotient truncates toward zero: the largest multiple not beyond the value, on either side of zero |
| Chunker.StepWithinChunk | rag/retriever.py:21-22 | for a ratio in [0, 1): overlap = floor(chunk_size × ratio), 0 ≤ overlap < chunk_size, 0 < step ≤ chunk_size, and step + overlap = chunk_size |
| Chunker.FullOverlapHasNoStep | rag/retriever.py:21-22 | a ratio of 1 or more leaves a step ≤ 0 |
| Chunker.DefaultSteps | rag/retriever.py:13-22 | the defaults 2000 and 0.15 give overlap 300 and step 1700; 20 and 0.2 give 4 and 16 |
| Chunker.RangeShape | rag/retriever.py:42 | `range(start, stop, step)` starts at `start`, goes up by `step` and stays below `stop` |
| Chunker.RangeElement | rag/retriever.py:42 | element `k` of the range is `start + k*step` |
| Chunker.RangeLength | rag/retriever.py:42 | the range has ceil((stop − start) / step) elements |
| Chunker.RangeTail | rag/retriever.py:42 | one step past the last element reaches `stop` |
| Chunker.Window | rag/retriever.py:43 | a slice `text[start:start+chunk_size]` is at most `chunk_size` long and lies inside the text |
| Chunker.ChunksAtAreWindows | rag/retriever.py:42-45 | each chunk is the window at a kept start, and there are no more chunks than starts |
| Chunker.KeptAtIncreasing | rag/retriever.py:42-45 | the kept starts are in range and strictly increasing |
| Chunker.KeptAtExactly | rag/retriever.py:44-45 | a start is kept exactly when its window is not whitespace only |
| Chunker.ChunkCount | rag/retriever.py:42-45 | one chunk per kept window, so at most ceil(len(text) / step) chunks |
| Chunker.ChunkIsWindow | rag/retriever.py:42-45 | chunk `i` is `text[k*step : k*step+chunk_size]` for the `i`-th kept window number `k`, with `k*step < len(text)` |
| Chunker.KeptWindowsIncrease | rag/retriever.py:42-45 | the chunks come in text order |
| Chunker.WindowKeptIff | rag/retriever.py:44-45 | every window that starts inside the text gives a chunk exactly when it is not whitespace only |
| Chunker.ChunksAtShortAndNonBlank | rag/retriever.py:43-45 | every chunk cut at any starts is at most `chunk_size` long and not whitespace only |
| Chunker.ChunksShortAndNonBlank | rag/retriever.py:43-45 | every chunk is at most `chunk_size` long, has a non-space character, and does not strip to empty |
| Chunker.WindowsOverlap | rag/retriever.py:42-43 | the last `chunk_size − step` characters of a full window are the first ones of the next window |
| Chunker.NeighbouringChunksOverlap | rag/retriever.py:42-45 | for two chunks from neighbouring windows, the first of full length, the first chunk's last `overlap` characters begin the second |
| Chunker.ChunkText | rag/retriever.py:38-45 | the loop over `range(0, len(text), step)` yields exactly `Chunks(text, chunk_size, step)` |
| Ranking.Take | rag/retriever.py:140 | `xs[:k]` is a prefix of `xs` of length min(k, n) for k ≥ 0, and counts from the end for k < 0 |
| Ranking.InsertSorted | rag/retriever.py:135-139 | inserting a later index into a stably sorted order keeps it sorted and adds just that index |
| Ranking.RankOrder | rag/retriever.py:135-139 | the sort order holds each index once, each ahead of every later one: a higher score first, equal scores in document order |
| Ranking.Order | rag/retriever.py:135-139 | the sort order has one index per scored document |
| Ranking.Ranked | rag/retriever.py:135-139 | the sorted `zip` list holds each scored document with its own score, in the sort order |
| Ranking.RankOrderDistinct | rag/retriever.py:135-139 | no document appears twice in the sort order |
| Ranking.TopKLength | rag/retriever.py:140 | for `top_k` ≥ 0 the result has min(top_k, n) pairs, `n` the number of scored documents; `top_k` = 0 gives none |
| Ranking.TopKPairs | rag/retriever.py:135-140 | every returned pair is a document with its own score, and no document is returned twice |
| Ranking.TopKDescending | rag/retriever.py:135-140 | scores never increase along the result, and equal scores keep document order |
| Ranking.TopKOmittedScoreLower | rag/retriever.py:135-140 | every scored document left out scores no higher than the last one returned |
| Retriever.DropTrailingSlashes | rag/retriever.py:56 | the result is a prefix of the path that does not end in `/` |
| Retriever.AfterLastSlash | rag/retriever.py:56 | the part after the last `/` is a slash-free suffix |
| Retriever.LastDot | rag/retriever.py:56 | `rfind('.')`: the last dot, or −1 if there is none |
| Retriever.Name | rag/retriever.py:56 | the last path component holds no `/` |
| Retriever.Stem | rag/retriever.py:56 | `Path.stem` holds no `/` and starts the file's name; its value is stated by `Retriever.StemOfSuffixed`, `Retriever.StemOfJoin` and `Retriever.StemWithoutSuffix` |
| Retriever.AfterLastSlashOfJoin | rag/retriever.py:56 | the part after the last slash of `dir/name` is `name` |
| Retriever.NameOfJoin | rag/retriever.py:56 | the name of `dir/name` is `name` |
| Retriever.StemIgnoresDirectory | rag/retriever.py:56-57 | files with the same name in different directories have the same stem, and so the same cache file |
| Retriever.LastDotOfSuffixed | rag/retriever.py:56 | in `base.ext` with a dot-free `ext`, `rfind('.')` finds the dot before `ext` |
| Retriever.StemOfSuffixed | rag/retriever.py:56 | the stem of a bare name `base.ext`, with `ext` non-empty and dot-free and `base` non-empty, is `base` |
| Retriever.StemOfJoin | rag/retriever.py:56 | the stem of `dir/base.ext` is `base`, so `docs/report.pdf` is cached as `report.pkl` |
| Retriever.StemWithoutSuffix | rag/retriever.py:56 | a name with no `.` except as its first or last character is its own stem |
| Retriever.PageChunks | rag/retriever.py:88-106 | one chunk dict per chunk of the page |
| Retriever.PageChunksSpec | rag/retriever.py:88-106 | chunk dict `k` of a page holds chunk `k`, the file, the page and id `first_id + k`, with an embedding exactly when there is an embedder |
| Retriever.AddPageChunked | rag/retriever.py:78-106 | a page with text, without the semantic strategy, adds its chunk dicts after the earlier pages' |
| Retriever.Renumbered | rag/retriever.py:66-68 | renumbering keeps the number of chunks |
| Retriever.RenumberedSpec | rag/retriever.py:65-68 | renumbering keeps text, embedding, file and page, and sets the ids to `first_id`, `first_id + 1`, … |
| Retriever.BuildPagesSemantic | rag/retriever.py:83-88 | with the semantic strategy a file either fails or gives no chunks |
| Retriever.BuildPagesAfterFailure | rag/retriever.py:78-88 | once a page has failed the file, the later pages change nothing |
| Retriever.PageChunksStep | rag/retriever.py:88-106 | one more chunk adds one chunk dict at the end |
| Retriever.RenumberedStep | rag/retriever.py:66-68 | renumbering one more saved chunk adds it at the end with the next id |
| Retriever.BuildPagesStep | rag/retriever.py:78-106 | one more page is one more step of the page loop |
| Retriever.LoadPathsStep | rag/retriever.py:55-113 | one more path is one more step of the path loop |
| Retriever.LoadNextHit | rag/retriever.py:60-71 | a path whose stem is cached appends the cached chunks, renumbered from the current count, and leaves the cache alone |
| Retriever.LoadNextMiss | rag/retriever.py:73-113 | a path whose stem is not cached appends the chunks its pages build, and stores exactly them under the stem when `save` is set; a build that raises fails the load |
| Retriever.LoadPathsAfterFailure | rag/retriever.py:55-113 | after a path raised, the remaining paths change nothing |
| Retriever.NumberedAppend | rag/retriever.py:100-106 | two consecutively numbered lists concatenate to one |
| Retriever.PageChunksBuiltFrom | rag/retriever.py:88-106 | every chunk dict of page `k+1` is numbered in order and built from that page of that file |
| Retriever.BuildPagesPrefix | rag/retriever.py:78-106 | the chunks of the first pages are numbered in order, each from a page among them |
| Retriever.BuildPagesChunks | rag/retriever.py:78-106 | a file's chunks are numbered from `first_id`, and each is a chunk of a page with text, numbered from 1, of that file; it is at most `chunk_size` long, not blank, and has an embedding exactly when there is an embedder |
| Retriever.BuildPagesFailsPrefix | rag/retriever.py:78-88 | the first pages fail exactly when the strategy is semantic and one of them has text |
| Retriever.BuildPagesFails | rag/retriever.py:78-88 | a file fails exactly when the strategy is semantic and some page has text |
| Retriever.LoadNextKeeps | rag/retriever.py:55-113 | loading a path keeps the documents as a prefix and every cache entry, and touches no cache without `save` |
| Retriever.LoadPathsKeeps | rag/retriever.py:55-113 | loading keeps the documents already there as a prefix and every cache entry, and leaves the cache unchanged without `save` |
| Retriever.LoadNextNumbered | rag/retriever.py:65-106 | one path keeps every `chunk_id` equal to its index |
| Retriever.LoadPathsNumbered | rag/retriever.py:51-106 | after loading, `documents[i].chunk_id == i` for every `i`, whatever mix of cache hits and misses there was |
| Retriever.EmbeddedAppend | rag/retriever.py:91-92 | two lists that agree with the embedder concatenate to one that does |
| Retriever.LoadNextEmbedded | rag/retriever.py:60-106 | one path keeps every document and cache entry with an embedding exactly when there is an embedder |
| Retriever.LoadPathsEmbedded | rag/retriever.py:89-92 | if the stored chunks agree with the embedder, every document and cache entry has an embedding exactly when there is an embedder after loading |
| Retriever.LoadFirst | rag/retriever.py:55-113 | the first file loaded with `save` fills `documents` and its cache entry with the chunks it builds |
| Retriever.SameNameReusesChunks | rag/retriever.py:56-71 | with `save`, the second of two same-named files gets renumbered copies of the first's chunks |
| Retriever.SameNameKeepsFirstPath | rag/retriever.py:56-71 | those copies name the first file's path |
| Retriever.Retriever.constructor | rag/retriever.py:8-36 | the overlap and step are derived from the chunk size and the ratio, and the state is the load of the paths against the stored cache |
| Retriever.Retriever.RenumberSaved | rag/retriever.py:66-68 | the in-place loop gives the saved chunks the ids `first_id`, `first_id + 1`, … |
| Retriever.Retriever.EmbedChunks | rag/retriever.py:88-106 | the chunk loop builds the page's chunk dicts |
| Retriever.Retriever.ProcessPdf | rag/retriever.py:75-106 | the page loop builds the file's chunks, or fails with the semantic strategy |
| Retriever.Retriever.ProcessPage | rag/retriever.py:79-106 | one pass of the page loop skips a page without text, fails with the semantic strategy, and otherwise appends the page's chunk dicts numbered after the earlier ones |
| Retriever.Retriever.LoadDoc | rag/retriever.py:55-113 | one iteration of the path loop is one step of `LoadPaths` |
| Retriever.Retriever.LoadAndEmbedDocs | rag/retriever.py:50-113 | the new `documents` and cache are `LoadPaths` of the paths, and it reports whether loading raised |
| Retriever.Retriever.Retrieve | rag/retriever.py:121-140 | for `top_k` ≥ 0 it returns min(top_k, n) pairs |
| Retriever.Retriever.RetrieveRanked | rag/retriever.py:135-140 | what `retrieve` returns are documents, best score first |
| Validator.NormalizeQuestion | rag/utils/validator.py:20-29 | the normalised question is no longer than the input, empty exactly when the input is whitespace only, and has no whitespace at either end |
| Validator.SearchAsciiAlnum | rag/utils/validator.py:41 | `re.search(r"[a-zA-Z0-9]")` finds the first ASCII letter or digit, and finds none exactly when there is none |
| Validator.AsciiAlnumIsAlnum | rag/utils/validator.py:41-54 | an ASCII letter or digit is alphanumeric for `isalnum` too |
| Validator.SpaceIsNotAlnum | rag/utils/validator.py:54 | no whitespace character is alphanumeric |
| Validator.SemanticContentIsAlnum | rag/utils/validator.py:76-80 | a question with semantic content has at least one alphanumeric character |
| Validator.AlnumCount | rag/utils/validator.py:54 | the alphanumeric count is at most the length, and zero exactly when no character is alphanumeric |
| Validator.AlnumCountConcat | rag/utils/validator.py:54 | the count of a concatenation is the sum of the counts |
| Validator.PaddingKeepsAlnumCount | rag/utils/validator.py:54 | surrounding whitespace does not change the count |
| Validator.PaddingKeepsSemanticContent | rag/utils/validator.py:41 | surrounding whitespace does not change whether there is an ASCII letter or digit |
| Validator.StripKeepsAlnum | rag/utils/validator.py:29-55 | stripping keeps the count and the semantic content |
| Validator.ValidateQuestion | rag/utils/validator.py:57-82 | valid exactly when there is no error code, and every code returned has a message |
| Validator.ValidateQuestionCases | rag/utils/validator.py:71-82 | whitespace only gives `EMPTY_QUERY`; otherwise no ASCII letter or digit gives `NO_SEMANTIC_CONTENT`; otherwise fewer than 2 alphanumerics or fewer than 3 characters once stripped gives `QUERY_TOO_SHORT`; valid exactly when none of these holds |
| Validator.ValidateIgnoresPadding | rag/utils/validator.py:71 | surrounding whitespace never changes the result |
| Validator.ValidateNormalized | rag/utils/validator.py:71 | validating the stripped question gives the same result |
| Validator.MessagesOfCodes | rag/utils/validator.py:84-94 | each of the three codes maps to its fixed message, and any other string to "Your request could not be processed." |
| Validator.RejectionMessageIsSpecific | rag/utils/validator.py:73-94 | a rejected question's code always has a specific message, never the default |
| Agent.SourceId | rag/agent.py:69 | the id is a bracketed decimal `i + 1` |
| Agent.SourceIdsDistinct | rag/agent.py:69 | different positions get different ids |
| Agent.FirstSourceId | rag/agent.py:69 | the first source is `[1]` |
| Agent.SourcesMatchRetrieved | rag/agent.py:67-79 | one source per retrieved pair, in order; the `i`-th has id `[i+1]` and the file and page of the `i`-th chunk; no two share an id |
| Agent.HeaderOpensWithOneSpace | rag/agent.py:83-84 | the template opens with one newline and then text |
| Agent.StripFill | rag/agent.py:83-94 | stripping the filled template cuts only its first newline and a tail after `Question:` that is all whitespace |
| Agent.FillLayout | rag/agent.py:83-94 | the stripped template is the instructions, the context, `Question:` and then a prefix of newline + question whose remainder is all whitespace and which does not end in whitespace: the question less its trailing whitespace |
| Agent.PromptLayout | rag/agent.py:81-94 | the prompt is the instructions, the context, `Question:` and then newline + question less its trailing whitespace (a prefix whose remainder is all whitespace and which does not end in whitespace), with no whitespace at either end |
| Agent.ContextHoldsBlock | rag/agent.py:71-81 | each retrieved chunk's block, with its id, file, page and text, lies in the context at its offset |
| Agent.BlockEndsWithText | rag/agent.py:72 | each block ends with its chunk's text |
| Agent.BlocksInOrder | rag/agent.py:67-81 | the blocks appear in retrieval order, without overlapping |
| Agent.PromptHasWords | rag/agent.py:52 | the prompt always has at least one word |
| Agent.CitationLinesPrefix | rag/agent.py:97-99 | the citation lines of the first sources begin those of all of them |
| Agent.CitationLinePlaced | rag/agent.py:96-101 | each source's line follows the stripped answer, the heading and the lines of the sources before it |
| Agent.FirstCitation | rag/agent.py:96-101 | the response starts with the stripped answer and the heading, then the line `[1] <file of the first chunk>` |
| Agent.FirstCitationLine | rag/agent.py:96-101 | the response opens with the stripped answer, the `Sources:` heading and the first source's id and file |
| Agent.Entries | rag/agent.py:43-51 | one log entry per retrieved pair, in order, with its file, chunk id, text and score |
| Agent.RunLog | rag/agent.py:39-59 | the plan is always retrieve, draft, cite; there are no errors; `draft_tokens` is the word count of the prompt and at least 1 |
| Agent.Agent.constructor | rag/agent.py:13-15 | the agent keeps its retriever and language model |
| Agent.Agent.CreatePrompt | rag/agent.py:63-94 | the loop builds exactly the prompt `Prompt` and the sources `Sources` |
| Agent.Agent.AddCitations | rag/agent.py:96-101 | the loop builds exactly the stripped answer, the heading, and one citation line per source in order |
| Agent.Agent.Run | rag/agent.py:17-61 | the response cites the model's answer to the prompt built from what was retrieved, and the log is `RunLog` of the question and what was retrieved |

## Left out

- **Scores.** Cosine similarity and the TF-IDF vectoriser are floating-point library numerics and are not modelled. `retrieve` takes the documents' scores as a given sequence. The choice between dense and TF-IDF scores is left to whoever supplies them.
- **`_semantic_chunk_text`.** It is a stub that returns `None`. It is modelled only through the failure it causes.
- **Storage.** Pickling, `Path.mkdir`, opening files and the `storage/` directory are replaced by the cache map. The constructor is given the stored entries.
- **PDF extraction.** PyPDF2 is replaced by a function from a path to its page texts. A page whose extraction gives `None` is modelled as an empty string, which the code also skips.
- **Language model and embedder.** Ollama (`rag/llm.py`, `rag/embeddings.py`) is not part of this model. The language model and the embedder are functions.
- **Run.** The trace id (`uuid`), the latencies (`time.time()`) and logging are not modelled.
- **Glue.** `rag/cli.py` and `run.py` are not part of this model.
- **Default arguments.** Dafny members take every argument explicitly, so the defaults `top_k=3` of `run` (`rag/agent.py:17`) and of `retrieve` (`rag/retriever.py:121`), and `chunking_strategy="basic"` and `save=True` of the constructor (`rag/retriever.py:15-16`), are not modelled; callers pass them. The `chunk_size` and `overlap_ratio` defaults appear only in `Chunker.DefaultSteps`.
- Agent.LogEntry: keeps the exact score, not `round(float(score), 4)`, because rounding to four decimals is floating-point formatting.
- Validator.IsAlnum: follows `str.isalnum` only up to U+00FF and treats every character above it as not alphanumeric. `Validator.AlnumCount` and the validator lemmas inherit this.
- Chunker.Overlap: takes the overlap ratio as an exact fraction `ratioNum / ratioDen`, not a binary float. `chunk_size` is a natural number.
- Ranking.Before: compares real scores, so a NaN score, which Python's sort would leave unordered, is not modelled.
- Retriever.Stem: follows the `PurePath.stem` rule of CPython 3.13 and earlier, where the suffix starts at the last dot only when `0 < rfind('.') < len(name) - 1`, so `notes.` is its own stem. Python 3.14 changed how a trailing dot is treated, and that rule is not modelled. It drops trailing slashes and takes the last component. The other normalisations of `pathlib` are not modelled: repeated slashes, `.` components and Windows separators.
- Retriever.Retriever.LoadAndEmbedDocs: the exception a failed load raises is the `loadError` flag and a `false` result.
  - The documents appended before the failure are kept, as they are in the object the exception leaves behind.
  - The TF-IDF fit at the end of loading is not modelled. Without an embedder, `fit_transform` (`rag/retriever.py:116-119`) raises when the documents hold no token, for example when there are no paths or every page is blank. The model's constructor then still finishes with `loadError == false`.
- Retriever.Retriever.ProcessPdf: builds the chunks of one page at a time (the loop body is the method `ProcessPage`), then appends them to `data_to_store`. The chunk list is appended to `documents` once the file is done, not one chunk at a time. Nothing can read `documents` in between, so the result is the same.
- Agent.Agent.Run: gets the retriever as a `retrieve(question, top_k)` function, not as a `Retriever` object.
