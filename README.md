# socialNetworkAnalysis: the NDJSON streams, the topic-trend pivot and the entity filter

This project models the parts of the tweet-analysis application that hold real logic, and proves properties of the model.

The backend (FastAPI) answers `/analyze` and `/generate_tweet` with newline-delimited JSON (NDJSON) streams. `generate_llm_response` sends these records over the language model's text chunks:

- an opening record;
- one partial record per chunk, holding the text so far;
- one last record whose `streaming` is false.

That last record is either the error record for the first chunk that contains `"ERROR"`, or the full explanation with an author picked by a case-insensitive substring rule. `generate_response_stream` does the same for a generated tweet. Its last record holds the text stripped of Python white space and of one outer pair of double quotes.

Two React components on the frontend read these streams. Both keep a text `buffer`, split it on `'\n'` and keep the last piece, skip lines whose `trim()` is empty, and `JSON.parse` the rest.

- `handleSubmit` in `App.jsx` shows each record's `explanation`. It keeps the last record whose `streaming` is falsy as the response, and appends a note for each line that fails to parse.
- `handleGenerateTweet` in `LLM_TweetGenerator.jsx` shows the last non-empty `generated_tweet`. A parse failure or an `error` record `break`s out of the current chunk's lines, but the read loop goes on with the next chunk. A non-ok status throws before the body is read.

The "Topic Trend per Month" chart (`A2_TopicTrendMonth.jsx`) pivots rows of (month, topic, count) into one entry per month. The months are in numeric order, the topics are sorted, and missing cells are 0. It also keeps the selected year among the fetched years, names the month ticks and colours the lines. `topic_extraction.py` filters named entities by label and joins their texts into the classifier's input.

The model, file by file:

- `wrappers.dfy`: `Option` and `Result`.
- `strings.dfy`: the string primitives the code relies on, with their JavaScript or Python meaning.
  - `trim()` and `strip()`, each with its own white-space set;
  - `lower()`;
  - `in` and `includes`;
  - `split` and `join`;
  - `parseInt`, `String(n)`;
  - the default string sort order.
- `ndjson.dfy`: the record type, the HTTP exchange as the frontend sees it, and the framing of decoded text into lines.
  - `CompleteLines` and `Pending` are defined by `split('\n')`.
  - `FrameChunks` is the chunk-by-chunk framing.
  - The `LineFramer` class holds the `buffer`.
- `app.dfy`: the `handleSubmit` read loop, as the `AnalysisForm` class with the component's state as fields.
- `tweet_generator.dfy`: the `handleGenerateTweet` read loop, with its `break`s and its `!res.ok` path, and the effect that loads topics, as the `TweetGenerator` class.
- `backend.dfy`: the two generators as methods that build the yielded lines, the records they send as functions of the chunks, the author rule and quote stripping.
- `topic_trend.dfy`: the `forEach` grouping as a method (`Tally`), the sort and `map` as functions (`Pivot`), the year fallback, the tick labels, the hues, and the chart's state as a class.
- `topic_extraction.py` becomes `topic_extraction.dfy`: `filter_entities`, `entities_to_string` and the `input_text` rule.
- `end_to_end.dfy`: backend streams connected to the frontend readers.
  - The emitted lines, however the transport chunks them, frame back into exactly the serialised records.
  - The form therefore ends with the stream's last record.
  - The panel ends with the stripped tweet.

Foreign code becomes parameters:

- `JSON.parse` is `parse: string -> Result<Record>`. Its `Failure` covers everything thrown inside the `try`, including a property read on `null`.
- `json.dumps` is `dumps: Record -> string`.
- The network and body reader are an `Exchange` value: the decoded chunks, the status, and whether a read rejected.

The end-to-end lemmas assume `LawfulOn(parse, dumps, records)` for the records the stream sends: each serialised record has no `'\n'` (JSON escapes it, section 7 of RFC 8259), is not blank, and parses back to itself. The assumption is about those finitely many records only, and `Ndjson.LawfulOnSatisfiable` gives a serialiser and parser that meet it for any stream.

Two behaviours of the code shape what the readers show:

- In `handleGenerateTweet`, an `error` record or a line that fails to parse only leaves the current chunk's `for` loop, and later chunks are still read. `LlmTweetGenerator.ChunkingMatters` proves that the outcome then depends on where the chunk boundary falls.
- `handleSubmit` never looks at the HTTP status. A 404 body is read like any other. It has no line end, so it shows nothing (`EndToEnd.AnalysisNotFoundShowsNothing`).

## Model

| member | source | states |
|---|---|---|
| Strings.TrimDropsSpace | frontend/src/App.jsx:55 | what `trim()` removes at either end is white space only |
| Strings.TrimEdges | backend/main.py:177 | a non-empty stripped text neither starts nor ends with white space |
| Strings.TrimEmptyIff | frontend/src/App.jsx:55 | a text trims to `''` exactly when every character is white space |
| Strings.BlankIsTrimEmpty | frontend/src/App.jsx:55 | the blank-line test `IsBlank` is exactly `line.trim() === ''` |
| Strings.TrimIdempotent | backend/main.py:177-179 | stripping twice is stripping once |
| Strings.ContainsAt | backend/main.py:85 | `sub in s` holds whenever `sub` occurs at some offset of `s` |
| Strings.ContainsIndex | backend/main.py:85 | when `sub in s` holds, the returned offset is that of the first occurrence of `sub` |
| Strings.ContainsAppend | backend/main.py:108-111 | an occurrence survives text added on either side |
| Strings.Lower | backend/main.py:107 | `lower()` keeps the length and lowers every character on its own |
| Strings.LowerAppend | backend/main.py:107 | lowering a concatenation lowers each part |
| Strings.LowerIdempotent | backend/main.py:107 | lowering twice is lowering once |
| Strings.Split | frontend/src/App.jsx:51 | `split('\n')` gives at least one piece, no piece holds the separator, and joining the pieces gives back the text |
| Strings.SplitJoin | frontend/src/App.jsx:51-52 | splitting a join of separator-free pieces gives back exactly those pieces |
| Strings.JoinEmptyIff | backend/services/topic_extraction.py:31 | a join is `''` exactly for no piece or a single empty piece |
| Strings.ShowNatValue | frontend/src/components/LLM_TweetGenerator.jsx:51 | the decimal text of a status denotes that status |
| Strings.ParseIntShowNat | frontend/src/components/A2_TopicTrendMonth.jsx:111 | `parseInt` reads the plain decimal text of `n` back as `n` |
| Strings.ParseIntDigits | frontend/src/components/A2_TopicTrendMonth.jsx:49 | `parseInt` reads a string of decimal digits as the number it denotes |
| Strings.LexLessTotal | frontend/src/components/A2_TopicTrendMonth.jsx:47 | the default sort order relates any two different strings |
| Strings.LexLessTransitive | frontend/src/components/A2_TopicTrendMonth.jsx:47 | the default sort order is transitive |
| Strings.LexLessIrreflexive | frontend/src/components/A2_TopicTrendMonth.jsx:47 | no string sorts before itself |
| Ndjson.FramingSound | frontend/src/App.jsx:51-52 | the complete lines and the pending rest hold no `'\n'`; the lines, each followed by `'\n'`, then the rest make up the text |
| Ndjson.FramingUnique | frontend/src/App.jsx:48-52 | lines are cut only at `'\n'`: any newline-free lines and rest that make up the text are its complete lines and its pending text |
| Ndjson.FramingIncremental | frontend/src/App.jsx:48-52 | framing `text + more` is framing `text`, then framing its pending rest followed by `more` |
| Ndjson.UnterminatedTail | frontend/src/App.jsx:45-52 | text without `'\n'` at the end completes no line and only grows the buffer |
| Ndjson.FrameChunks | frontend/src/App.jsx:44-52 | one line group per chunk; together the groups are the complete lines of all text, and the buffer is its pending rest, however it was chunked |
| Ndjson.FrameChunksStep | frontend/src/components/LLM_TweetGenerator.jsx:62-64 | one more chunk adds the lines its text completes after the buffer, and the new buffer is what follows its last `'\n'` |
| Ndjson.LineFramer.Feed | frontend/src/App.jsx:48-52 | the new buffer is the text after the last `'\n'` of buffer + chunk; the lines returned are the pieces before it; all lines so far are the complete lines of all text received |
| App.TransportErrorResponse | frontend/src/App.jsx:76-83 | the error response names author "ERROR", topic "N/A", confidence 0.0, is not streaming and explains the message |
| App.ApplyLinesAppend | frontend/src/App.jsx:44-70 | processing lines in two batches is processing them at once |
| App.BlankLinesIgnored | frontend/src/App.jsx:55 | blank lines change neither the explanation nor the accumulated response |
| App.NoFinalKeepsAccumulated | frontend/src/App.jsx:61-63 | without a final record the accumulated response stays as it was |
| App.LastFinalWins | frontend/src/App.jsx:61-63 | the accumulated response is the record of the last line that parses with a falsy `streaming` |
| App.ExplanationTrail | frontend/src/App.jsx:65-68 | blank and unparsable lines keep the explanation and append one note per parse failure, in order |
| App.ExplanationFromLastParsed | frontend/src/App.jsx:59 | the explanation shown is that of the last line that parsed, followed by the notes of later failures |
| App.ResidualIgnored | frontend/src/App.jsx:72 | text after the last `'\n'` of the body is never processed |
| App.AnalysisForm.constructor | frontend/src/App.jsx:16-19 | empty tweet, not loading, no response, empty explanation |
| App.AnalysisForm.HandleSubmit | frontend/src/App.jsx:25-88 | loading ends false and the tweet is kept; the response is the fetch-error record, the read-error record or the accumulated response; the explanation is what the complete lines of the body lead to |
| App.AnalysisForm.ReadStream | frontend/src/App.jsx:39-70 | the read loop leaves the explanation and accumulated response that the complete lines of all chunks lead to, starting from `''` and `{}` |
| App.AnalysisForm.ProcessLines | frontend/src/App.jsx:54-69 | the `for` loop over one chunk's lines advances the explanation and accumulated response line by line |
| LlmTweetGenerator.ChunkRunAppend | frontend/src/components/LLM_TweetGenerator.jsx:66-83 | lines after the one that breaks out are never looked at; otherwise the loop goes on with the same state |
| LlmTweetGenerator.ErrorRecordEndsChunk | frontend/src/components/LLM_TweetGenerator.jsx:70-76 | an `error` record reached in a chunk sets the error, clears the tweet (even one carried by the same record) and ends the chunk |
| LlmTweetGenerator.ParseFailureEndsChunk | frontend/src/components/LLM_TweetGenerator.jsx:78-81 | a line that fails to parse sets the stream error message, keeps the tweet and ends the chunk |
| LlmTweetGenerator.ChunkTweetProvenance | frontend/src/components/LLM_TweetGenerator.jsx:70-75 | the tweet after a chunk is the one before it, empty, or the `generated_tweet` of one of its records |
| LlmTweetGenerator.TweetProvenance | frontend/src/components/LLM_TweetGenerator.jsx:58-84 | the tweet shown after the stream is empty or the `generated_tweet` of one of its records |
| LlmTweetGenerator.ChunkingMatters | frontend/src/components/LLM_TweetGenerator.jsx:76 | an error line then a tweet line give no tweet in one chunk but show the tweet next to the error in two chunks |
| LlmTweetGenerator.TweetGenerator.constructor | frontend/src/components/LLM_TweetGenerator.jsx:5-10 | author "Obama", no topics, empty topic and tweet, not loading, no error |
| LlmTweetGenerator.TweetGenerator.LoadTopics | frontend/src/components/LLM_TweetGenerator.jsx:12-36 | with an author selected: on success the topics and the first topic (or `''`); on any failure no topics, `''` and the "Failed to load topics" message; loading ends false |
| LlmTweetGenerator.TweetGenerator.HandleGenerateTweet | frontend/src/components/LLM_TweetGenerator.jsx:38-93 | loading ends false; a fetch error, non-ok status or read error clears the tweet and shows the `catch` message; otherwise the tweet and error are what the chunk-by-chunk read loop leads to |
| LlmTweetGenerator.TweetGenerator.ProcessChunk | frontend/src/components/LLM_TweetGenerator.jsx:66-83 | the `for` loop with its two `break`s leaves the state of the line-by-line run up to the line that breaks |
| Backend.StripQuotes | backend/main.py:177-179 | the finished tweet is no longer than the text and neither starts nor ends with Python white space |
| Backend.StripUnquoted | backend/main.py:177-178 | text not wrapped in quotes after stripping is only stripped |
| Backend.StripOnePair | backend/main.py:178-179 | exactly one outer pair of quotes is removed, with the white space just inside it |
| Backend.StripClean | backend/main.py:177-179 | a text with no white space at its ends and no leading quote is sent unchanged |
| Backend.AuthorIgnoresCase | backend/main.py:107 | the author rule gives the same answer for the text and its lower-cased form |
| Backend.ObamaSticks | backend/main.py:108-109 | once the text names Obama, more text on either side keeps the answer "Obama" |
| Backend.MuskStaysNamed | backend/main.py:110-113 | more text can turn "Musk" into "Obama" but never into "neither" |
| Backend.FirstError | backend/main.py:84-85 | the index found is of a chunk containing "ERROR" with none before it; with none found, no chunk contains "ERROR" |
| Backend.AnalysisProgressAt | backend/main.py:98-104 | the i-th partial analysis record holds the first i+1 chunks |
| Backend.GenerationProgressAt | backend/main.py:169-174 | the i-th partial generation record holds the first i+1 chunks |
| Backend.GenerateLlmResponse | backend/main.py:74-123 | the lines yielded are the serialised analysis records, each followed by `"\n"` |
| Backend.GenerateResponseStream | backend/main.py:165-182 | the lines yielded are the serialised generation records, each followed by `"\n"` |
| Backend.AnalysisStreamShape | backend/main.py:77-81 | the analysis stream opens with the empty explanation; every record but the last is streaming and the last is not |
| Backend.AnalysisPrefixes | backend/main.py:98-104 | partial record i holds the first i chunks, so each explanation extends the earlier ones |
| Backend.AnalysisStreamEnd | backend/main.py:85-96 | the stream ends at the first chunk containing "ERROR" with its error record; without one it ends with the full text and the author the rule picks |
| Backend.GenerationStreamShape | backend/main.py:167-182 | one opening record with `""`, one partial record per chunk with the text so far, one last non-streaming record with the stripped text |
| Backend.EmitTerminated | backend/main.py:81 | the body is the serialised records, each ended by `"\n"` |
| Backend.SerializedOneLine | backend/main.py:104 | when the serialiser escapes newlines in the records sent, each of them is one line, in order |
| Ndjson.LawfulOnSatisfiable | backend/main.py:81 | for any stream of records a serialiser and parser exist that put each on one non-blank line and read it back |
| EndToEnd.WireFraming | frontend/src/App.jsx:48-52 | the body of emitted lines, however chunked, frames into exactly the serialised records with an empty buffer |
| EndToEnd.AnalysisEndToEnd | frontend/src/App.jsx:44-72 | after `/analyze` the form shows the explanation of the stream's last record and keeps that record: the first error chunk's record, or the full text with its author |
| EndToEnd.AnalysisNotFoundShowsNothing | backend/main.py:34-42 | the 404 body of `/analyze`, sent without a line end, leaves the explanation `''` and the response `{}` |
| EndToEnd.CalmChunkRun | frontend/src/components/LLM_TweetGenerator.jsx:66-83 | over lines that cannot break, the `for` loop runs to the end |
| EndToEnd.CalmChunks | frontend/src/components/LLM_TweetGenerator.jsx:58-84 | over lines that cannot break, where the chunks fall does not change the outcome |
| EndToEnd.ReplayRecords | frontend/src/components/LLM_TweetGenerator.jsx:70-72 | error-free records read in order from a cleared panel show their last non-empty tweet |
| EndToEnd.ShownBeforeFinal | backend/main.py:171-174 | before the final record the panel shows the raw text so far, or nothing |
| EndToEnd.GenerationShownTweet | backend/main.py:177-182 | the panel's tweet for the stream is the stripped text, or the raw text when stripping leaves nothing |
| EndToEnd.GenerationRecordsNoError | backend/main.py:165-182 | no record of the generation stream carries an error |
| EndToEnd.FramedReplay | frontend/src/components/LLM_TweetGenerator.jsx:58-84 | the read loop over the framed generation stream replays its lines in order, whatever the chunk boundaries |
| EndToEnd.GenerationEndToEnd | frontend/src/components/LLM_TweetGenerator.jsx:38-93 | after `/generate_tweet` with an ok status, there is no error and the tweet is the stripped text (or the raw text when that is empty), however the stream was chunked |
| EndToEnd.GenerationNotFoundReported | frontend/src/components/LLM_TweetGenerator.jsx:50-52 | a 404 shows "An error occurred: HTTP error! status: 404. Please check the backend." and an empty tweet, whatever the body |
| TopicTrendMonth.Dedup | frontend/src/components/A2_TopicTrendMonth.jsx:42 | a `Set` read back holds each value once |
| TopicTrendMonth.DedupMembers | frontend/src/components/A2_TopicTrendMonth.jsx:42 | the set holds exactly the values added |
| TopicTrendMonth.TopicsOfMembers | frontend/src/components/A2_TopicTrendMonth.jsx:41-42 | a topic is collected exactly when some row has it |
| TopicTrendMonth.MonthsOfMembers | frontend/src/components/A2_TopicTrendMonth.jsx:41-43 | a month is collected exactly when some row has it |
| TopicTrendMonth.GroupedMonths | frontend/src/components/A2_TopicTrendMonth.jsx:43 | `grouped` has a key for exactly the months of the rows |
| TopicTrendMonth.GroupedLastCount | frontend/src/components/A2_TopicTrendMonth.jsx:44 | a cell of `grouped` holds the count of the last row for its month and topic, and no other cell exists |
| TopicTrendMonth.InsertTopic | frontend/src/components/A2_TopicTrendMonth.jsx:47 | inserting a new string into an ascending list keeps it ascending and adds exactly that string |
| TopicTrendMonth.SortTopics | frontend/src/components/A2_TopicTrendMonth.jsx:47 | sorting distinct topics keeps the length, is ascending, and has the same members |
| TopicTrendMonth.InsertByKey | frontend/src/components/A2_TopicTrendMonth.jsx:49 | inserting a string with a new key into a list ascending by key keeps it ascending and adds exactly that string |
| TopicTrendMonth.SortByKey | frontend/src/components/A2_TopicTrendMonth.jsx:48-49 | sorting with `key(a) - key(b)` on distinct keys keeps the length, orders by key, and has the same members |
| TopicTrendMonth.DistinctMonthValues | frontend/src/components/A2_TopicTrendMonth.jsx:49 | different months of comparable rows read as different numbers |
| TopicTrendMonth.AllTopicsSpec | frontend/src/components/A2_TopicTrendMonth.jsx:47 | `allTopics`, the keys every entry carries, is ascending and holds exactly the topics of the rows |
| TopicTrendMonth.FormattedMonths | frontend/src/components/A2_TopicTrendMonth.jsx:48-50 | one entry per distinct month of the rows, in strictly ascending numeric order |
| TopicTrendMonth.FormattedCell | frontend/src/components/A2_TopicTrendMonth.jsx:50-55 | every entry has a value for exactly the topics of the rows (`allTopics`): the last row's count for that month and topic, or 0 |
| TopicTrendMonth.Tally | frontend/src/components/A2_TopicTrendMonth.jsx:39-45 | the `forEach` leaves the set of topics, the months in insertion order, and `grouped` |
| TopicTrendMonth.Pivot | frontend/src/components/A2_TopicTrendMonth.jsx:39-56 | `allTopics` and `formatted` are the pivot of the rows |
| TopicTrendMonth.YearAfterFetch | frontend/src/components/A2_TopicTrendMonth.jsx:26-27 | a year among the fetched years is kept; otherwise it becomes the last year, or "2019" when there is none or it is empty |
| TopicTrendMonth.YearSettles | frontend/src/components/A2_TopicTrendMonth.jsx:26-32 | running the fallback again with the year it chose changes nothing |
| TopicTrendMonth.YearAmongFetched | frontend/src/components/A2_TopicTrendMonth.jsx:26-27 | with a non-empty last year, the year ends up among the fetched years |
| TopicTrendMonth.TickLabelPadded | frontend/src/components/A2_TopicTrendMonth.jsx:108-111 | "01" to "12" are labelled "Jan" to "Dec"; any other number keeps its text |
| TopicTrendMonth.TickLabelUnpadded | frontend/src/components/A2_TopicTrendMonth.jsx:108-111 | "1" to "12" are labelled "Jan" to "Dec"; any other number keeps its text |
| TopicTrendMonth.TickLabelNotNumeric | frontend/src/components/A2_TopicTrendMonth.jsx:111 | a label that does not read as a number keeps its text |
| TopicTrendMonth.Hue | frontend/src/components/A2_TopicTrendMonth.jsx:122 | the hue is in [0, 360) |
| TopicTrendMonth.HuePeriod | frontend/src/components/A2_TopicTrendMonth.jsx:122 | hues repeat every nine lines |
| TopicTrendMonth.HueDistinct | frontend/src/components/A2_TopicTrendMonth.jsx:122 | nine consecutive lines have different hues |
| TopicTrendMonth.TopicTrendChart.constructor | frontend/src/components/A2_TopicTrendMonth.jsx:6-10 | no years, year "2019", author "All", no data, no topics |
| TopicTrendMonth.TopicTrendChart.FetchTopicsAndYears | frontend/src/components/A2_TopicTrendMonth.jsx:13-29 | stores the topics and years; the year follows the fallback; author and data are kept |
| TopicTrendMonth.TopicTrendChart.FetchData | frontend/src/components/A2_TopicTrendMonth.jsx:35-59 | the chart data becomes the pivot of the rows; everything else is kept |
| TopicExtraction.FilterEntities | backend/services/topic_extraction.py:26-28 | an entity is kept exactly when its label is not a removed label; the result is no longer than the input |
| TopicExtraction.FilterCounts | backend/services/topic_extraction.py:28 | each occurrence of a kept entity is kept; every other is dropped |
| TopicExtraction.FilterSubsequence | backend/services/topic_extraction.py:28 | the kept entities appear in their input order |
| TopicExtraction.FilterIdempotent | backend/services/topic_extraction.py:26-28 | filtering twice is filtering once |
| TopicExtraction.FilterAppend | backend/services/topic_extraction.py:28 | filtering a concatenation filters each part |
| TopicExtraction.FilterSkipsRemoved | backend/services/topic_extraction.py:27-28 | an entity with a removed label vanishes wherever it stands |
| TopicExtraction.Texts | backend/services/topic_extraction.py:31 | the texts of the entities, one per entity, in order |
| TopicExtraction.EntitiesToStringEmpty | backend/services/topic_extraction.py:30-31 | the joined string is `""` exactly for no entity or a single entity with empty text |
| TopicExtraction.EntitiesToStringSplit | backend/services/topic_extraction.py:30-31 | entity texts without spaces come back from splitting the joined string at spaces |
| TopicExtraction.EntitiesToStringIgnoresLabels | backend/services/topic_extraction.py:31 | the labels play no part in the joined string |
| TopicExtraction.ClassifierInput | backend/services/topic_extraction.py:37-39 | the classifier input begins with the tweet |
| TopicExtraction.ClassifierInputShape | backend/services/topic_extraction.py:38-39 | the input is the tweet alone exactly when the joined kept entities are `""`; otherwise it is tweet + `" - "` + the joined entities |
| TopicExtraction.ClassifierIgnoresRemoved | backend/services/topic_extraction.py:37-39 | inserting an entity with a removed label anywhere does not change the classifier input |

## Left out

- Byte decoding: `TextDecoder` is foreign, and the chunks are given as decoded text. The code never flushes the decoder at the end of the stream. A multi-byte character cut by the last chunk would be lost, and the model does not capture that.
- `JSON.parse` and `json.dumps` are foreign: they are the parameters `parse` and `dumps`. Only non-null objects are modelled as records. JSON values of another type (an array, a number, a string) reach the model only through `parse` failing. A field of an unexpected type is outside the `Record` type.
- The 404 body is rendered by `JSONResponse`, not `json.dumps`. It is the parameter `render` of `EndToEnd.AnalysisNotFoundShowsNothing`, assumed to print no `'\n'`.
- `fetch`, `res.body.getReader()`, FastAPI routing, CORS and `StreamingResponse` are transport. `res.body` being `null` is covered only as a thrown fetch error.
- React rendering, the `useEffect` dependencies that trigger re-fetches, AOS, framer-motion and recharts are user interface. Each state setter is modelled as an immediate assignment, in call order. That is the outcome of React's update queue for these handlers.
- Cancellation and concurrent sessions are left out: the code has neither.
- Floating point is left out:
  - `round(confidence * 100, 2)` is the parameter `topicConfidence: real`;
  - the constant confidences 0.0 and 100.0 are kept as reals.
- The classifier, spaCy's entity recogniser, the sentence embeddings, the faiss search and `df.sample` are foreign, model-based or random. The entities and the model's text chunks are inputs.
- `neo4j_connector.py`, `tweet_analysis_generation.py`, `schemas.py` and the views A1, A3, A4 and A5 are not part of this model: they are database queries, a model client, data declarations and render-only views.
- TopicTrendMonth.TopicTrendChart.FetchData: it requires `MonthsComparable`: every month reads as a number and different months read as different numbers. With a `NaN` or a tie, the order `sort` leaves depends on the JavaScript engine and on the order of `Object.entries`. Months cut from ISO dates satisfy the condition.
- TopicTrendMonth.Pivot: it has the same `MonthsComparable` requirement, for the same reason.
- TopicTrendMonth.Formatted: a topic literally named `"month"` would overwrite the entry's `month` key. The model keeps the two apart in `Entry`.
- TopicTrendMonth.Tally: keys that live on `Object.prototype` (`"constructor"`, `"__proto__"`, …) behave differently in the `grouped` object, and the model treats them as ordinary keys.
- The chart draws its legend and one line per topic from the separately fetched `topics` state, in that order, not from `allTopics`. A fetched topic with no row in the selected year is drawn without values, not as zeros. The model does not relate `topics` to the pivot.
- TopicTrendMonth.SortTopics: JavaScript compares UTF-16 code units and the model compares whole characters. The two differ only for characters outside the Basic Multilingual Plane.
- Strings.Lower: it lowers ASCII letters and the Kelvin sign only. That is enough for what the author rule looks for: the Kelvin sign is the only non-ASCII character whose lower-case form is one of the letters of "obama", "musk" or "elon". Other characters are left as they are, so `Lower` is not Python's full `lower()`.
- Strings.ParseInt: parses decimal only, with no radix prefix, which is how the code calls it (radix 10). The sign and leading white space are handled as in JavaScript.
- EndToEnd.GenerationShownTweet: when stripping leaves nothing, the final record's empty `generated_tweet` is falsy to the reader. The panel then keeps the raw text of the last partial record. The model states this as the code behaves.
