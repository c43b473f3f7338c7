# Go-Live Buddy backend, modelled in Dafny

Go-Live Buddy is a chat assistant for users of two enterprise systems during a go-live.
Its Python backend has two knowledge namespaces: `sap-pack` (SAP Fiori) and
`crm-pack` (Salesforce CRM). This project models the logic of that backend, one
module per source file:

- **Agent** (`backend/agent.py`, `backend/main.py`)
  - The keyword router `classify_query` picks the namespace for a query.
  - The chat endpoint routes the last message of the conversation.
  - When the vector index cannot be queried, the answer stream sends a canned
    fallback message word by word.
- **Pulse** (`backend/pulse_analytics.py`)
  - Each chat query is stored with the process and sentiment an LLM detected in it.
    Missing keys default to "Unknown" and "Neutral".
  - The "pulse" counts the stored queries of a namespace per process and per
    sentiment, in dict insertion order, and builds the data context for the LLM.
  - It cleans the LLM's reply of a json code fence.
  - It turns the reply into a snapshot, or into the HTTP error of whichever step failed.
- **Backfill** (`backend/backfill_frames.py`)
  - Selects the `.jpg` files of a frame directory, sorted.
  - Derives each file's index from its name (`frame_0017.jpg` becomes 17).
  - Copies each file to `<index>.jpg`.
- **Extract** (`backend/extract_frames_only.py`)
  - Works out the frame interval from the video's frame rate.
  - Keeps every interval-th frame.
  - Writes 640-pixel-wide thumbnails named `0.jpg`, `1.jpg`, ...
- **Jira** (`backend/generate_jira.py`)
  - Generates the twenty mock support tickets.

Two support modules model the Python built-ins the core depends on:

- **PyStr**
  - `lower`/`upper`, restricted to ASCII.
  - `in` on strings.
  - `strip`, `lstrip` and `rstrip`.
  - `replace(p, "")`.
  - `split(" ")` and `join`.
  - `str(int)`.
  - `int(str)`: surrounding whitespace (" \t\n\v\f\r" and the non-ASCII `isspace()` characters, but not U+001C to U+001F), an optional sign, and digits with single underscores.
- **LexOrder**
  - `sorted` on strings: code-point lexicographic order, implemented as an insertion sort.

`Wrappers` holds `Option` and `Result`.

The model treats its external dependencies as parameters. They enter as follows:

| External dependency | How the model receives it |
|---|---|
| Database client | Whether it is configured, plus the rows it returns or its error text |
| LLM | Its reply text or its error |
| `json.loads` | The parsed dict, or None |
| Directory listing | A sequence of names |
| Decoded video | A sequence of frames |
| Frame rate | A non-negative real number |

Loops that the source runs step by step are methods. Each method is proved equal to a declarative specification function:

| Method | Specification function |
|---|---|
| Aggregation loop | `TallyOf` |
| Copy loop | `CopyFrames` |
| Extraction loop | `ThumbnailOf` |
| Ticket loops | `MockTicket` |
| Fallback token loop | `Split` / `Join` |

## Model

| member | source | states |
|---|---|---|
| Agent.ClassifyQuery | backend/agent.py:8-16 | the namespace is always `sap-pack` or `crm-pack` |
| Agent.ClassifyTruthTable | backend/agent.py:10-16 | a query goes to `crm-pack` exactly when its lower-case form has a CRM keyword and no SAP keyword; otherwise it goes to `sap-pack` |
| Agent.SapKeywordWins | backend/agent.py:11-12 | an SAP keyword wins over any CRM keyword |
| Agent.ClassifyIgnoresCase | backend/agent.py:10 | a query and its lower-case form are routed alike |
| Agent.ClassifySameLowerCase | backend/agent.py:10 | queries that differ only in letter case are routed alike |
| Agent.ClassifyUpperSap | backend/agent.py:10-12 | any query containing "SAP" in upper case goes to `sap-pack` |
| Agent.ClassifyCrmOnly | backend/agent.py:13-14 | a query containing "CRM" and no SAP keyword goes to `crm-pack` |
| Agent.ClassifyEmpty | backend/agent.py:15-16 | the empty query matches no keyword and falls to the default `sap-pack` |
| Agent.ClassifyAsap | backend/agent.py:11 | keywords match as substrings, so "asap" goes to `sap-pack` |
| Agent.ClassifyLeader | backend/agent.py:13 | "Leader" contains "lead" and no SAP keyword, so it goes to `crm-pack` |
| Agent.LastMessageContent | backend/main.py:30 | the routed text is the content of the last message, or "" for an empty conversation |
| Agent.RoutesLastMessage | backend/main.py:30-32 | earlier messages never change the routed text, and a conversation is routed as its last message alone |
| Agent.EmptyConversationRoutesToSap | backend/main.py:30-32 | an empty conversation is routed to `sap-pack` |
| Agent.FallbackMessage | backend/agent.py:35-36 | the canned text, with the namespace bracketed and upper-cased (its properties are stated by `FallbackNamesNamespace` and `QueryAgentStream`) |
| Agent.FallbackNamesNamespace | backend/agent.py:35-36 | the fallback message contains `[namespace]` and the upper-case namespace |
| Agent.ConcatSpacedWords | backend/agent.py:37-38 | words that each carry a trailing space concatenate to the words joined by spaces, plus one space |
| Agent.FallbackTokens | backend/agent.py:37-38 | each token is one word of `split(" ")` plus a space, and the tokens concatenate to the message plus one space |
| Agent.QueryAgentStream | backend/agent.py:18-39 | the namespace is the classified one; the streamed tokens are kept; on failure the remaining tokens spell the fallback message for that namespace |
| Pulse.Aggregate | backend/pulse_analytics.py:69-76 | the two dicts the loop builds equal the order-preserving histograms of the defaulted processes and sentiments |
| Pulse.TallyOfSnoc | backend/pulse_analytics.py:75-76 | one more row changes a histogram exactly as one `d[k] = d.get(k, 0) + 1` does |
| Pulse.TallyOfCounts | backend/pulse_analytics.py:69-76 | a value is a key exactly when it occurs; its count is its multiplicity, at least 1 |
| Pulse.TallyOfTotal | backend/pulse_analytics.py:69-76 | the histogram is well formed and its counts sum to the number of rows |
| Pulse.DistinctFirstOccurrence | backend/pulse_analytics.py:81-82 | the breakdown lists keys in first-occurrence order |
| Pulse.MissingProcessIsUnknown | backend/pulse_analytics.py:72 | a row without `detected_process` is counted under "Unknown" |
| Pulse.MissingSentimentIsNeutral | backend/pulse_analytics.py:73 | a row without `user_sentiment` is counted under "Neutral" |
| Pulse.ProcessCountIsRowCount | backend/pulse_analytics.py:71-75 | a process's count is the number of rows counted under it |
| Pulse.BreakdownLines | backend/pulse_analytics.py:81-82 | one `- key: count` line per dict key, in dict order (its content for a histogram is stated by `BreakdownLinesOfTally`) |
| Pulse.BreakdownLinesOfTally | backend/pulse_analytics.py:81-82 | a histogram's breakdown has one line per distinct value, in first-occurrence order, each reporting that value's multiplicity |
| Pulse.BreakdownReportsValue | backend/pulse_analytics.py:81-82 | every value that occurs has the breakdown line reporting its multiplicity |
| Pulse.SampleLines | backend/pulse_analytics.py:83 | at most ten lines, one per leading query, each `- <query_text>` (None when absent) |
| Pulse.SampleLinesPrefix | backend/pulse_analytics.py:83 | later rows only extend the sample, and once there are ten rows they never change it |
| Pulse.RenderContext | backend/pulse_analytics.py:79-84 | the data context built from a row list and two dicts (its layout is stated by `RenderContextLayout`) |
| Pulse.RenderContextLayout | backend/pulse_analytics.py:79-84 | the context opens with the query count, holds the process and sentiment breakdowns under their headings, and closes with the sample |
| Pulse.PulseContext | backend/pulse_analytics.py:68-84 | the context of a row list, built from the histograms the aggregation loop computes |
| Pulse.PulseContextReportsCounts | backend/pulse_analytics.py:68-84 | every process and every sentiment that occurs in the rows appears in the context with its count |
| Pulse.CountsConserved | backend/pulse_analytics.py:79-82 | both breakdowns in the context account for every query exactly once |
| Pulse.CleanReply | backend/pulse_analytics.py:105-107 | the cleaned reply is no longer than the reply and has no surrounding whitespace |
| Pulse.CleanReplyFenced | backend/pulse_analytics.py:105-107 | a reply wrapped in a json code fence is reduced to the fenced body |
| Pulse.CleanReplyBare | backend/pulse_analytics.py:105-107 | a bare reply without backticks or surrounding blanks is unchanged |
| Pulse.StoredQuery | backend/pulse_analytics.py:6-37 | a row is stored exactly when the client is configured, the key is set and the analysis parsed; it holds the query text, the namespace, and the reported or defaulted process and sentiment |
| Pulse.StoredQueryDefaults | backend/pulse_analytics.py:35-36 | an analysis lacking both keys is stored as "Unknown" and "Neutral" |
| Pulse.StoredQueryCounted | backend/pulse_analytics.py:32-37 | a fetched row that holds the stored payload, plus any other columns, is counted under the process and sentiment the LLM reported for it |
| Pulse.SnapshotOf | backend/pulse_analytics.py:111-116 | the snapshot succeeds exactly when all three keys are present and copies them; otherwise it fails with the 500 naming the first missing key, for each of the three |
| Pulse.GeneratePulse | backend/pulse_analytics.py:50-125 | each failure gives its status and detail (no client, fetch error, no rows, no key, LLM error, invalid JSON, missing key, insert error); success needs every step to succeed; the context is built exactly when there are rows |
| Backfill.Jpegs | backend/backfill_frames.py:44 | the kept names are exactly the listed names ending in ".jpg" |
| Backfill.SelectFrames | backend/backfill_frames.py:44 | the selection is sorted, a permutation of the `.jpg` names, and holds exactly the listed `.jpg` names |
| Backfill.Remainder | backend/backfill_frames.py:52 | the name with every "frame_" and then every ".jpg" removed (its properties are stated by the `FrameIndex` lemmas) |
| Backfill.IndexText | backend/backfill_frames.py:52 | the index text is never empty and starts with a zero only when it is "0" |
| Backfill.FrameIndex | backend/backfill_frames.py:53 | a failed parse raises the ValueError quoting the index text |
| Backfill.FrameIndexOfDigits | backend/backfill_frames.py:52-53 | `frame_<digits>.jpg` gets the value of its digits, leading zeros ignored |
| Backfill.FrameIndexAllZeros | backend/backfill_frames.py:52-53 | an all-zero index goes through the `or "0"` fallback to 0 |
| Backfill.FrameIndexExample | backend/backfill_frames.py:51-53 | `frame_0017.jpg` gets index 17 |
| Backfill.FrameIndexRejects | backend/backfill_frames.py:52-53 | any name whose remainder holds a character `int()` never accepts makes the index parse fail |
| Backfill.DestName | backend/backfill_frames.py:55 | the destination name ends in ".jpg", and what precedes that reads back as the index |
| Backfill.DestNameInjective | backend/backfill_frames.py:55 | different indices get different destination names |
| Backfill.DestNameExample | backend/backfill_frames.py:55 | index 17 is copied to `17.jpg` |
| Backfill.CopyFrames | backend/backfill_frames.py:50-56 | copying never removes a destination file, and a failure names a frame of the run whose index does not parse |
| Backfill.CopyFramesLastWins | backend/backfill_frames.py:50-56 | with every index parsing, a frame's copy survives unless a later frame has the same index |
| Backfill.CopyFramesKeepsOthers | backend/backfill_frames.py:50-56 | a destination file whose index no frame has is untouched |
| Backfill.CopyFramesNames | backend/backfill_frames.py:50-56 | after a complete run the destination holds the old files plus one per frame index |
| Backfill.CopyFramesStops | backend/backfill_frames.py:52-53 | the run stops at the first frame whose index does not parse, keeping the copies made before it |
| Backfill.CopyFramesCompletes | backend/backfill_frames.py:50-56 | a run completes exactly when every index parses |
| Backfill.CopyLoop | backend/backfill_frames.py:50-56 | the loop's final files and failure equal the copy specification |
| Backfill.RunBackfill | backend/backfill_frames.py:33-56 | a missing directory or an empty selection changes nothing; otherwise the files are those of the copy specification; the run completes with the frame count exactly when every index parses, and otherwise crashes on the first frame whose index does not parse |
| Extract.FrameInterval | backend/extract_frames_only.py:78-79 | the interval is 900 for an unknown (0) rate; otherwise it is the floor of `fps * 30` |
| Extract.FrameIntervalUnknownFps | backend/extract_frames_only.py:78-79 | an unreported rate gives one thumbnail every 900 frames |
| Extract.FrameIntervalWholeFps | backend/extract_frames_only.py:79 | a whole rate `n` gives the interval `30 * n` |
| Extract.FrameIntervalZero | backend/extract_frames_only.py:79 | the interval is 0 exactly for rates strictly between 0 and 1/30 |
| Extract.ThumbHeight | backend/extract_frames_only.py:88-89 | the height is at least 1, and it is the floor of `h * 640 / w` whenever that is at least 1 |
| Extract.ThumbHeightAtFullWidth | backend/extract_frames_only.py:89 | a frame that is already 640 wide keeps its height, except that 0 becomes 1 |
| Extract.ThumbHeightFullHd | backend/extract_frames_only.py:89 | a 1920x1080 frame becomes 640x360 |
| Extract.ThumbnailOf | backend/extract_frames_only.py:88-92 | the thumbnail is named `<saved>.jpg`, is 640 wide, is at least 1 high, and comes from the given frame |
| Extract.ThumbnailNamesDistinct | backend/extract_frames_only.py:91 | distinct save counters give distinct file names |
| Extract.ExtractFor | backend/extract_frames_only.py:71-95 | no download gives the early return; a zero interval raises exactly when there is a frame; otherwise every frame is read, `ceil(n/k)` thumbnails are saved, the `j`-th from frame `j*k`, and every frame at a multiple of `k` is saved |
| Jira.SapTicket | backend/generate_jira.py:9-14 | the `i`-th SAP ticket (its properties are stated by the id, issue and resolution lemmas) |
| Jira.CrmTicket | backend/generate_jira.py:17-22 | the `i`-th CRM ticket (its properties are stated by the id, issue and resolution lemmas) |
| Jira.MockTicket | backend/generate_jira.py:8-22 | position `p` of the list: the SAP tickets, then the CRM tickets |
| Jira.MockTicketSap | backend/generate_jira.py:8-14 | the `i`-th SAP ticket is at position `i - 1` |
| Jira.MockTicketCrm | backend/generate_jira.py:16-22 | the `i`-th CRM ticket is at position `9 + i` |
| Jira.GenerateMockJira | backend/generate_jira.py:5-22 | there are twenty tickets: SAP 1 to 10, then CRM 1 to 10 |
| Jira.SapIdsDistinct | backend/generate_jira.py:10 | SAP ids of different numbers differ |
| Jira.CrmIdsDistinct | backend/generate_jira.py:18 | CRM ids of different numbers differ |
| Jira.GroupsIdsDiffer | backend/generate_jira.py:10-18 | no SAP id equals a CRM id |
| Jira.MockTicketIdsDistinct | backend/generate_jira.py:8-22 | all twenty ticket ids are distinct |
| Jira.IssueNamesNumber | backend/generate_jira.py:12-20 | each issue text names its ticket's number |
| Jira.GroupsShareResolution | backend/generate_jira.py:11-21 | the first ten tickets share the SAP FI system and resolution; the last ten share the Salesforce CRM ones |
| Jira.FirstAndLastIds | backend/generate_jira.py:10-18 | the ids run from `SAP-1001` to `CRM-2010` |
| PyStr.Lower | backend/agent.py:10 | lower-casing keeps the length and maps each character on its own |
| PyStr.LowerIdempotent | backend/agent.py:10 | lower-casing twice is lower-casing once |
| PyStr.LowerConcat | backend/agent.py:10 | lower-casing distributes over concatenation |
| PyStr.Upper | backend/agent.py:36 | upper-casing keeps the length and maps each character on its own |
| PyStr.ContainsInfix | backend/agent.py:11-13 | a string contains every one of its infixes |
| PyStr.LStrip | backend/backfill_frames.py:52 | `lstrip` drops exactly the longest prefix of the given characters |
| PyStr.RStrip | backend/pulse_analytics.py:107 | `rstrip` drops exactly the longest suffix of the given characters |
| PyStr.Strip | backend/pulse_analytics.py:105-107 | `strip()` never lengthens a string and leaves no whitespace at either end |
| PyStr.StripOfStripped | backend/pulse_analytics.py:105-107 | `strip()` leaves a string without surrounding whitespace unchanged |
| PyStr.Split | backend/agent.py:37 | `split` gives at least one part, and no part contains the separator |
| PyStr.Join | backend/pulse_analytics.py:81-83 | `sep.join(parts)` (its properties are stated by `JoinSplit`, `SplitJoin` and `JoinContainsPart`) |
| PyStr.JoinContainsPart | backend/pulse_analytics.py:81-83 | every part occurs in the joined string |
| PyStr.JoinSplit | backend/agent.py:37 | joining the parts of a split restores the string |
| PyStr.SplitJoin | backend/agent.py:37 | splitting a join of separator-free parts restores the parts |
| PyStr.NatToString | backend/generate_jira.py:10 | `str(n)` is a non-empty string of digits with no leading zero unless `n` is 0 |
| PyStr.IntToString | backend/backfill_frames.py:55 | `str(i)` is non-empty and starts with a minus sign exactly when `i` is negative |
| PyStr.NatToStringInjective | backend/extract_frames_only.py:91 | different numbers have different decimal forms |
| PyStr.RemoveAll | backend/backfill_frames.py:52 | `replace(p, "")` never lengthens a string |
| PyStr.RemoveAllAbsent | backend/backfill_frames.py:52 | removing a pattern whose first character does not occur leaves the string unchanged |
| PyStr.RemoveAllTrailing | backend/backfill_frames.py:52 | removing `p` from `d + p`, where `p` cannot start inside `d`, leaves `d` |
| PyStr.RemoveAllLeading | backend/backfill_frames.py:52 | a leading occurrence is removed and the scan goes on after it |
| PyStr.ParseInt | backend/backfill_frames.py:53 | a rejected string raises the ValueError quoting that string |
| PyStr.ParseIntDigits | backend/backfill_frames.py:53 | a non-empty digit string parses to its value |
| PyStr.ParseIntOfNatToString | backend/backfill_frames.py:53 | `int` reads back the decimal form of a number, with or without a minus sign |
| PyStr.ParseIntOfIntToString | backend/backfill_frames.py:53-55 | `int(str(i)) == i` |
| PyStr.ParseIntRejects | backend/backfill_frames.py:53 | `int` rejects a string holding a character other than the whitespace it skips, a digit, a sign or an underscore |
| PyStr.ParseIntKeepsSeparators | backend/backfill_frames.py:53 | `int` does not skip the ASCII separators U+001C to U+001F, though `isspace()` accepts them |
| LexOrder.LexLeReflexive | backend/backfill_frames.py:44 | string order is reflexive |
| LexOrder.LexLeTotal | backend/backfill_frames.py:44 | string order is total |
| LexOrder.LexLeTransitive | backend/backfill_frames.py:44 | string order is transitive |
| LexOrder.LexLeAntisymmetric | backend/backfill_frames.py:44 | string order is antisymmetric |
| LexOrder.SortStrings | backend/backfill_frames.py:44 | `sorted` returns an ascending permutation of its input |

## Left out

- The vector index, the LLM calls and the database are not modelled. This covers the Pinecone/LlamaIndex query, Gemini, and the Supabase fetch and inserts. Their results are parameters of the model.
- FastAPI routing and request parsing are not modelled. `/api/debug/supabase` and the root route are not modelled either.
- File and media I/O is not modelled: directory creation, `shutil.copy2`, yt-dlp, OpenCV decoding and JPEG encoding, and the log messages. The frame directory is modelled by its listing. The destination directory is modelled by its `<index>.jpg` files, keyed by index. The video is modelled as a sequence of frame dimensions.
- Async generation and `asyncio.sleep` are not modelled. The streamed tokens are a sequence.
- Floating point is modelled as exact real arithmetic. The frame rate is a real number, and a NaN rate is not modelled.
- JSON values are not modelled generally. Column values are a string or None. The snapshot's values are an arbitrary type `J`. `json.loads` is a parameter. `re.sub` is modelled only for the fence pattern `^```json\n?`.
- Case mapping and digits are modelled for ASCII only. `lower()`/`upper()` do not treat non-ASCII letters. `int()` does not accept non-ASCII digits.
- A directory named `*.jpg` inside the frame directory is not modelled. It would make `copy2` raise.
- Several latent defects in the source are not modelled:
  - `pulse_analytics.py` uses `os` without importing it (lines 10 and 86). The model behaves as if the import were present.
  - `generate_jira.py` imports ingestion functions that `backend/ingest.py` does not define (line 3). `backend/ingest.py` is not part of this model.
  - A frame rate strictly between 0 and 1/30 gives the interval 0. The loop's `count % 0` then raises. The model gives this its own outcome, `IntervalZero`.
- `generate_mock_jira` writing `mock_jira.json` and calling the ingestion functions (generate_jira.py:24-30) is not modelled; the model stops at the ticket list.
- The `__main__` blocks are not modelled: the namespace loop of the backfill script, the video list of the extraction script, and the generator's calls in `generate_jira.py`.
- `backend/test.py` and the frontend are not part of this model.
- Extract.ThumbHeight: floors the exact quotient `h * 640 / w`. The source truncates the float quotient. The two differ only by float rounding.
- Pulse.CleanReplyFenced: requires a non-empty body with no surrounding blanks and no trailing backtick. Other fenced replies are covered only by the definition `CleanReply`.
- Pulse.GeneratePulse: the namespace is `Option<string>`. The model does not capture a request whose `namespace` is present but is JSON null. The source would store such a request under None.
- Pulse.StoredQuery: when the insert itself raises, the source swallows the error. The model says only which row is handed to the insert.
