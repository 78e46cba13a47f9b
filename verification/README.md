# YouTube transcript Q&A bot — a Dafny model of its core

The system answers questions about a channel's videos. A batch script
walks the channel's uploads playlist page by page. It fetches each video's
transcript, skips videos without one, and keeps at most `max_videos`
records. A web service answers questions from a vector store holding
transcript chunks. The `/ask` endpoint checks that the store and the
language-model client are ready, queries the store, and builds a numbered
context block and a source list from the hits. It then asks the model and
returns the answer with the sources. `/stats` reports the chunk count and
the distinct videos found in a bounded sample of the store's metadata.
`/health` reports whether the two collaborators are ready.

The model is written in pure functions, plus methods for the loops:

| file | module | models |
|---|---|---|
| `wrappers.dfy` | `Wrappers` | `Option` and `Result` |
| `seqs.dfy` | `Seqs` | `Take` (a capped prefix) and prefix facts |
| `text.dfy` | `Text` | `sep.join`, `str.split()` with Python's whitespace set, `str(n)` |
| `service.dfy` | `Service` | metadata, the store handle, readiness, HTTP errors, `/health` |
| `answer.dfy` | `Answer` | `/ask`: checks, zip of results, context, prompt, sources, generation outcome |
| `stats.dfy` | `Stats` | `/stats`: first-occurrence dedup over a 100-row sample, 10 listed |
| `ingest.dfy` | `Ingest` | `get_transcript` and `get_channel_content` |

External services become inputs of the model:

- **Store query.** The vector store's query is a function field of `Store`. It maps the question and `n_results` to parallel lists of documents, metadata and distances.
- **Chat completion.** The chat-completion call is a parameter `generate: Prompt -> Generation`. It either completes with a message or raises.
- **Transcripts.** The transcript service is a `Fetcher` that maps a video id to its segment texts, or to `None` when the fetch raises.
- **Channel lookup.** It is a list of channels; only the first is used.
- **Uploads playlist.** It is the finite chain of pages its paging tokens lead through.

Because generation is a parameter, "no generation call is made" can be stated as a fact: the result does not depend on `generate`.

Behaviour the model keeps exactly as the code has it, though a reader
might expect otherwise:

- **Empty documents.** Sources are not filtered for empty chunk text. Every zipped hit gets a context part and a source.
- **Relevance range.** The relevance score is `1 - distance` and is not clamped to `[0, 1]`.
- **The 404 check.** It looks only at the document list. A store returning documents but fewer metadata rows gives a shorter zip (see `Answer.Sources`).
- **Number of sources.** It is bounded by the store's reply, not by `n_results` (see "Left out").

## Model

| member | source | states |
|---|---|---|
| Service.Health | app.py:80-87 | each flag is true exactly when its collaborator is ready; status is "healthy" exactly when both are, "degraded" otherwise |
| Answer.Ask | app.py:90-164 | the store check comes before the model check, which comes before the empty-result 404; a success echoes the question, carries the sources of the retrieved results, and its answer is what generation completed with on the prompt built from them |
| Answer.AskSucceedsIff | app.py:95-160 | the endpoint answers if and only if both collaborators are ready, retrieval found a document and generation completed; the response is exactly (generated text, sources, question) |
| Answer.GenerationFailureIff | app.py:146-164 | an error whose detail starts with "Error generating answer: " arises if and only if everything before generation passed and generation raised; the detail is that prefix followed by the raised message, with status 500 |
| Answer.NoGenerationBeforeChecksPass | app.py:95-107 | when a readiness check fails or retrieval is empty, the outcome is an error that is the same for every generator, so no generation is attempted |
| Answer.HealthAgreesWithAsk | app.py:80-99 | health reports "degraded" exactly when the endpoint stops at one of its two readiness errors |
| Answer.Sources | app.py:113-129 | one source per zipped hit, as many as the shortest of the three lists; source i copies video id, title, url and chunk index from metadata i, and its relevance is one minus distance i |
| Answer.PartNamesSource | app.py:116-129 | the i-th context part is the header numbered i + 1 with exactly the title and url that the i-th source reports, followed by the i-th document and a newline |
| Answer.ContextInOrder | app.py:116-131 | every context part appears unchanged at its offset of the context, in retrieval order, and the separator "\n---\n" follows every part but the last |
| Answer.AssembleContext | app.py:110-131 | the loop over the zipped hits builds exactly the joined context and the source list of the reference definitions |
| Answer.UserMessageCarries | app.py:139-144 | the user message carries the context right after its lead line and the question after the context, both unchanged |
| Answer.Messages | app.py:133-152 | the call gets exactly two messages: first the system message, which is the fixed system prompt whatever the request, then a user message carrying the context and the question unchanged at their offsets |
| Stats.GetStats | app.py:167-189 | without a store, a 500 "ChromaDB not initialized"; otherwise the chunk count is the number of rows, the video count is the number of distinct ids among the first 100 rows, and the listing is the first 10 entries of the first-occurrence listing, of length min(10, video count) |
| Stats.FirstByVideo | app.py:178-183 | after the scan the dictionary has one key per id of the sample, the insertion order is the order of first occurrence, and each id maps to the title and url of its first row |
| Stats.ScannedAll | app.py:178-188 | after the scan, the dictionary's values in insertion order are the reference listing of distinct videos |
| Stats.IsFirstIff | app.py:180-182 | a row is inserted exactly when its id is not among the ids of the rows before it |
| Stats.FirstPositionsExact | app.py:179-183 | the first-occurrence positions are strictly increasing and contain a row exactly when no earlier row has its id |
| Stats.FirstIdsExact | app.py:179-183 | the ids at the first-occurrence positions are pairwise distinct and are exactly the ids seen |
| Stats.DistinctVideosCount | app.py:185-188 | the listing has exactly one entry per distinct video id, so the reported video count and the listing agree |
| Stats.TwoVideosInThreeChunks | app.py:167-189 | three chunks of two videos give a video count of 2 and a listing of both videos, each with its first chunk's title and url |
| Ingest.GetChannelContent | script/1_fetch_videos.py:44-115 | no channel gives no videos and no page request; otherwise the result is the first max_videos records of filtering the whole playlist; every record has a non-empty transcript, the watch url of its id and its split word count; no page is requested when max_videos <= 0; a page is requested only while fewer than max_videos records are held; stopping before the last page means the cap was reached |
| Ingest.WalkPages | script/1_fetch_videos.py:68-113 | the page loop ends holding the first max_videos records of the pages requested; it stops early only with the cap reached, and requests a page only while under the cap |
| Ingest.ScanPage | script/1_fetch_videos.py:83-109 | the loop over one page's items extends the records held to the first max_videos records of the items seen so far followed by this page's items |
| Ingest.WalkEnd | script/1_fetch_videos.py:71-113 | whether the walk stops at the last page or at the cap, its records equal the first max_videos records of the whole playlist's |
| Ingest.GetTranscript | script/1_fetch_videos.py:32-41 | no text exactly when the fetch raised; otherwise the text is empty exactly when there is no segment or one empty segment, and its length is the segments' total length plus one space per neighbouring pair (`UsableIff` turns this into the keep rule) |
| Ingest.UsableIff | script/1_fetch_videos.py:32-41 | a video is kept if and only if the transcript fetch succeeded and its segments join to a non-empty text: two or more segments, or one non-empty segment |
| Ingest.CollectSelects | script/1_fetch_videos.py:83-104 | the filter keeps the usable items in playlist order: record k is built from the item at the k-th usable position |
| Ingest.KeptPositionsExact | script/1_fetch_videos.py:94-104 | the kept positions increase, and contain an item exactly when its transcript is usable |
| Ingest.CollectedRecordsWellFormed | script/1_fetch_videos.py:94-104 | every collected record has a non-empty transcript, the url "https://www.youtube.com/watch?v=" + its id, and a word count equal to the number of whitespace-separated words of its transcript |
| Ingest.WordCountOfWordSegments | script/1_fetch_videos.py:92-101 | when every segment is one word, splitting the joined transcript gives the segments back and the word count is the number of segments |
| Text.WordsOfJoin | script/1_fetch_videos.py:101 | splitting words joined by single spaces gives back the words, provided none is empty or holds whitespace |
| Text.WordsKeepText | script/1_fetch_videos.py:101 | splitting drops exactly the whitespace: the words concatenated are the non-whitespace characters of the text, in order |
| Text.Words | script/1_fetch_videos.py:101 | every word of a split is non-empty and contains no whitespace (`WordCountIsWordStarts` and `WordsOfLayout` state that the words are the maximal runs) |
| Text.WordCountIsWordStarts | script/1_fetch_videos.py:101 | the word count equals the number of non-whitespace characters that are first or follow whitespace, counted character by character, so runs are never split or merged |
| Text.WordsOfLayout | script/1_fetch_videos.py:101 | for any words without whitespace laid out with whitespace-only gaps, non-empty between words and possibly empty at the ends, splitting gives back exactly those words |
| Text.Join | app.py:131 | joining no parts gives the empty string; otherwise the result begins with the first part (`JoinSlices`, `JoinSeparators` and `JoinLength` state where every part and separator sits) |
| Text.JoinSlices | app.py:131 | every part sits unchanged at its offset of the joined string |
| Text.JoinSeparators | app.py:131 | a separator follows every part but the last in the joined string |
| Text.JoinLength | app.py:131 | the joined string's length is the parts' total length plus one separator per neighbouring pair |
| Text.JoinEmptyIff | script/1_fetch_videos.py:36 | with a non-empty separator, the join is empty exactly when there are no parts or one empty part |
| Text.ParseNatToString | app.py:117 | the decimal rendering of the video number reads back as that number |
| Text.NatToString | app.py:117 | the rendering is non-empty, all decimal digits, and has no leading zero unless the number is 0 |

## Left out

- HTTP transport, CORS and the uvicorn server are not modelled.
- The root endpoint `/` is not modelled. It returns a fixed message and the same two readiness flags as `/health` (`Service.Health` states those).
- Client construction at start-up is left out: opening the persistent store and reading the API key. Its outcome is the input `Services`, which says which collaborator is ready.
- The store's nearest-neighbour ranking and embedding are external. The query is an arbitrary function, so nothing is claimed about the order or number of hits beyond what the store returns.
- An exception raised by the store's query is outside the endpoint's `try` block, and the web framework turns it into a 500 response. The model's query is total, so this path is not modelled.
- The chat-completion parameters are external: the model name, temperature 0.7 and 1000 max tokens. The call is the `generate` parameter, and `Answer.Messages` is the message list it is given.
- A null message content from the model fails response validation inside the `try` block, and the code then raises the generation error. The model folds this into `Raised`.
- `n_results` defaults to 5 and may be `None`. Request validation and the store library decide what that means, so the model takes it as a given integer.
- Missing metadata keys (a `KeyError`) are left out. The store is assumed to hold `video_id`, `title`, `url` and `chunk_index` for every row.
- Answer.Sources: relevance is computed as the exact real `1 - distance`, not in 64-bit floating point.
- `collection.count()` is modelled as the number of rows in the store's listing. `collection.get(limit=100)` is modelled as the first 100 rows in that order.
- Stats.GetStats: promises success whenever the store is open. In the code, `collection.count()` and `collection.get(limit=100)` are outside any `try`, so a store that raises there gives a 500 response from the web framework. The model's store cannot raise, so that path is not modelled.
- Ingest.GetChannelContent: the channel's `snippet`/`contentDetails` lookups and each item's `snippet`, `resourceId`, `videoId`, `title` and `publishedAt` lookups are outside any `try`. One malformed channel or item raises a `KeyError` that aborts the whole batch. The model's `Channel` and `Item` always have their fields, so that abort is not modelled.
- The YouTube API calls, the SSL workaround, `time.sleep`, the progress prints, reading the environment and writing the JSON file are left out. Printing and sleeping do not change the records.
- The playlist is required to be finite: every page but the last has a next-page token, and the last does not. A playlist whose tokens never end would make the script loop for as long as pages keep coming; the model excludes it.
- The request's `maxResults=50` page size is not modelled. Pages are inputs of any size.
- The chunking and indexing scripts are not part of this model.
