# YouTube question-answering backend: a verified model of its core

The backend takes a YouTube link, extracts the video id, looks up the title, fetches
the transcript through a short list of proxies (for each proxy, an English request,
then a call without a language argument),
splits the transcript into overlapping word windows, and upserts one vector record
per window into a vector index. To answer a question it keeps only the retrieved
matches of the requested document and hands their text to a generative model.

This project models that core in Dafny:

- `strings.dfy` (module `Strings`): Python's `str.split()`, `' '.join(...)` and `str(i)`,
  with the round trips `Split(Join(ws)) == ws` for words and `ParseDigits(NatToString(n)) == n`.
- `chunking.dfy` (module `Chunking`): `chunk_text` as a `while` loop, proved equal to the
  windowed definition `Chunks`, and the window properties proved about `Chunks`.
- `embedding_utils.dfy` (module `EmbeddingUtils`): the vector index as a class with a
  record map and an upsert log; `store_transcript`'s upsert loop; the doc-id filter and
  empty-context answer of `answer_question`.
- `youtube_utils.dfy` (module `YoutubeUtils`): the id regex as an explicit leftmost-match
  search, the metadata-response check, and the proxy/language fallback loop of
  `get_video_data`, which also returns the log of outside calls it made.
- `wrappers.dfy` (module `Wrappers`): `Option` for Python's `None`, `Result` for raised exceptions.

Outside services are parameters. The embedding model is `embed: string -> seq<real>`.
The transcript API is `fetch: (videoId, Attempt) -> Option<seq<string>>`, where `None`
means that the call, or joining the text of the entries it returned, raised: both sit
inside the same `try` block. The metadata API is `lookup: (videoId, apiKey) -> TitleResponse`.
For a question, the embedding plus index query is one `Result` of matches, and the
generator is a `Result`-valued function of the joined contexts and the question.
The random `uuid4` document id is a parameter of `StoreTranscript`.

A failed title lookup raises out of `get_video_data`; the transcript loop runs only
after the title was found.

The transcript is `"[No transcript available]"` when every attempt failed. The converse
holds only up to a collision: a transcript whose joined text is that exact string looks
the same. `SentinelIff` states this precisely.

## Model

| member | source | states |
|---|---|---|
| `Strings.Split` | embedding_utils.py:48 | every piece `str.split()` yields is a non-empty, whitespace-free word; no words exactly when the text is all whitespace |
| `Strings.SplitJoin` | embedding_utils.py:48-51 | splitting words joined by single spaces gives back exactly those words |
| `Strings.SplitAfterSpaces` | embedding_utils.py:48 | any leading run of whitespace is skipped by the split |
| `Strings.SplitWordThenSpaces` | embedding_utils.py:48 | a word followed by a non-empty whitespace run is split off whole, so every word is a maximal whitespace-free run of the text |
| `Strings.SplitKeepsNonSpace` | embedding_utils.py:48 | the words laid end to end are exactly the text's non-whitespace characters, in order |
| `Strings.NatToStringInjective` | embedding_utils.py:66 | distinct chunk indices print as distinct decimal strings |
| `Chunking.ChunkText` | embedding_utils.py:46-54 | the loop returns exactly window k of the words joined by spaces, for every k below ceil(n/step); no chunks exactly when the text has no words, whatever the step |
| `Chunking.ChunkCount` | embedding_utils.py:49-53 | the chunk count c is the ceiling of n/step: c*step >= n and (c-1)*step < n; zero chunks iff zero words |
| `Chunking.ChunkWords` | embedding_utils.py:49-53 | chunk k's words are exactly `words[k*step : k*step+chunk_size]`: at most chunk_size words, at least one when chunk_size is positive, the empty string when it is 0 |
| `Chunking.Coverage` | embedding_utils.py:50-53 | with a non-negative overlap every word position lies in some chunk's window |
| `Chunking.FirstAndLastChunk` | embedding_utils.py:49-53 | the first chunk starts at word 0; with a non-negative overlap the last ends at the final word |
| `Chunking.ConsecutiveOverlap` | embedding_utils.py:51-53 | chunks k and k+1 share min(overlap, words left) words: the tail of window k is the head of window k+1 |
| `Chunking.TrailingChunkInsidePrevious` | embedding_utils.py:50-53 | when the second-to-last window already reaches the end, the last window is a suffix of it |
| `Chunking.DefaultsOn460Words` | embedding_utils.py:46-54 | with chunk_size 500 and overlap 50, 460 words give two chunks: all words, then words 450..459 again |
| `EmbeddingUtils.Index.Upsert` | embedding_utils.py:75-79 | the record is stored under its id, overwriting any earlier one, and appended to the upsert log |
| `EmbeddingUtils.StoreTranscript` | embedding_utils.py:58-81 | exactly one upsert per chunk, in chunk order, of the record for that chunk; the index afterwards is the old one with those upserts applied; returns the doc id used |
| `EmbeddingUtils.ChunkRecordsFields` | embedding_utils.py:65-74 | record i has id and chunk_id `<doc_id>_<i>`, chunk_index i, content chunk i, doc_id and title as given, the chunk's embedding; ids are pairwise distinct |
| `EmbeddingUtils.ChunkIdsDistinct` | embedding_utils.py:66 | two chunk positions of one document never share an id |
| `EmbeddingUtils.ChunkIdInjective` | embedding_utils.py:59-66 | for doc ids without `_`, as uuid4 strings are, equal chunk ids mean the same document and the same position |
| `EmbeddingUtils.UpsertAllFinds` | embedding_utils.py:65-79 | after upserting records with distinct ids each one is found under its id |
| `EmbeddingUtils.UpsertAllKeepsOthers` | embedding_utils.py:65-79 | upserting leaves every other id's record unchanged |
| `EmbeddingUtils.StoredChunk` | embedding_utils.py:58-81 | after storing, chunk i is found under `<doc_id>_<i>` with its content and index |
| `EmbeddingUtils.MatchingPositions` | embedding_utils.py:102-106 | the positions it lists are increasing, belong to the document, and include every match of the document |
| `EmbeddingUtils.ContextsAreFiltered` | embedding_utils.py:102-106 | the contexts are the contents of exactly the matches whose doc_id is the requested one, in result order |
| `EmbeddingUtils.ContextsEmpty` | embedding_utils.py:102-109 | no contexts remain exactly when no match belongs to the document |
| `EmbeddingUtils.ContextsIgnoreOtherDocuments` | embedding_utils.py:102-106 | appending matches of other documents does not change the contexts |
| `EmbeddingUtils.AnswerQuestion` | embedding_utils.py:85-127 | a failed query returns `"Error: "` plus the message; no match of the document returns the fixed message; otherwise the generator's text or `"Error: "` plus its message; never raises |
| `YoutubeUtils.SearchFrom` | youtube_utils.py:11-12 | returns the first position at or after the start where the pattern matches, or None when it matches nowhere from there |
| `YoutubeUtils.GetVideoId` | youtube_utils.py:10-13 | the id is 11 characters of `[0-9A-Za-z_-]`; None iff the pattern matches nowhere; the id is the group of the leftmost match |
| `YoutubeUtils.VideoIdLocated` | youtube_utils.py:11-13 | a returned id sits right after `/` or `v=` at the leftmost matching position |
| `YoutubeUtils.LongerRunIsTruncated` | youtube_utils.py:11-12 | no boundary check: a longer run of id characters yields its first 11 |
| `YoutubeUtils.WatchUrl` | youtube_utils.py:11-13 | a standard watch URL yields the id after `v=`; the slashes before it match nothing |
| `YoutubeUtils.GetVideoTitle` | youtube_utils.py:15-27 | unset or empty key raises; missing or empty `items` raises not-found; otherwise the first item's title |
| `YoutubeUtils.FirstSuccess` | youtube_utils.py:48-71 | the first attempt in the fixed order that returns segments, with every earlier attempt failed; None iff all remaining attempts fail |
| `YoutubeUtils.FetchedTranscript` | youtube_utils.py:46-73 | the sentinel when every attempt failed; otherwise the first successful attempt's segments joined by single spaces |
| `YoutubeUtils.AttemptsMade` | youtube_utils.py:48-71 | the attempts are a prefix of the order proxy by proxy, English first and then the call without a language argument, at most 2*len(PROXIES) = 4; all but the last failed; the loop stops at the first success |
| `YoutubeUtils.GetVideoData` | youtube_utils.py:40-73 | no id: raises before any lookup; title errors propagate; otherwise returns the title and the fetched transcript, having made the title lookup then exactly the attempts made, in order |
| `YoutubeUtils.SentinelIff` | youtube_utils.py:46-73 | the sentinel is returned iff every attempt failed or the first transcript's text is the sentinel string itself |
| `YoutubeUtils.FallbackOnlyAfterEnglishFailed` | youtube_utils.py:59-71 | the call without a language argument comes right after the same proxy's English attempt, which failed |
| `YoutubeUtils.EmptyTranscriptIsNotSentinel` | youtube_utils.py:60-62 | an empty segment list is a success: the transcript is `""`, not the sentinel, and the loop stops |

## Left out

- FastAPI routes, CORS middleware and server startup in `main.py`: web plumbing.
- The Gemini embedding and generation calls: foreign services. They are parameters, and the exact prompt layout is not modelled.
- Pinecone similarity search, ranking and `top_k=5`. The query's matches are an input. Only the record map and the upsert log of the index are modelled.
- `uuid.uuid4()`: random, so the document id is a parameter.
- HTTP requests to the metadata API and the transcript API: network I/O, modelled as oracle functions.
- The session monkey-patch, the browser header and the proxy addresses: they write a private library attribute and have no observable effect in this code. Only the proxy count, 2, is kept.
- The module-level environment-variable checks and `load_dotenv`: process configuration.
- Chunking.ChunkText: negative chunk sizes are excluded, because Python then slices from the back of the word list, which is not modelled. A chunk size of 0 is modelled: every chunk is the empty string. A step `chunk_size - overlap` of zero or less is excluded only for text with at least one word, where Python loops forever; for text without words the loop never runs and the result is `[]`.
- EmbeddingUtils.StoreTranscript: an exception from the embedding call or from `upsert` propagates in Python; the model treats both as total.
- EmbeddingUtils.AnswerQuestion: a `KeyError` from a match without `metadata`, `doc_id` or `content` is not modelled; matches always carry the full metadata.
- YoutubeUtils.GetVideoTitle: a `KeyError` from an item without `snippet` or `title` is not modelled.
- YoutubeUtils.GetVideoData: `fetch` returning `None` stands for any exception inside the English `try` block or the fallback one, including a failing join of the entries' text; exceptions that are not `Exception`s (such as `KeyboardInterrupt`) escape Python's `except` and are not modelled.
