# Agentic Business Insight — a Dafny model of its string core

The application answers a business question about an uploaded SQLite
database. A team of language-model agents talks in turns. The planning agent
is given a text description of the database schema. The query agent can call
a `run_sql` tool. Every text message the team produces is streamed as one
`source: content` line to a Streamlit page. That page sorts each line into
chart specifications, data frames and insights, and stores the three lists
for a dashboard page.

The agents, the model service, SQLite, pandas and Streamlit are library code.
What the repository owns itself, and what this project models, is this:

- **Schema description** (`Schema`, `SqlLike`, `Inspector`, `Lru`).
  - `inspect_schema` keeps the catalogue rows of kind `table` whose name is
    not `LIKE 'sqlite_%'`, with SQLite's ASCII-only case folding.
  - It renders one `- table: col (type), ...` line per table and joins the
    lines with newlines.
  - It answers `(no user tables found)` when no table is left.
  - It is memoised by `functools.lru_cache(maxsize=32)`, which is modelled
    as an explicit bounded table in least-to-most-recently-used order.
- **The SQL tool** (`SqlTool`). The preview is the first `min(20, n)` rows
  of the result. The reply is the indented JSON object holding the preview
  and the data.
- **The producer** (`Producer`). Only text messages are forwarded, each as
  `source + ": " + content`.
- **The consumer** (`Consumer`).
  - Each line is split at its first colon and the content is stripped.
  - The content is classified with chart before data before insight.
  - A chart adds its parsed specification. A data payload adds its frame,
    or nothing when it does not decode. An insight adds its bold-role text.
  - A chart that does not parse stops the run, and no payload is stored.
  - The stored payload holds the three lists, with frames re-serialised,
    and the question.
- **Both ends together** (`Pipeline`). What a message of each kind becomes
  after it has crossed the stream.

Python's string operations are modelled in `Text`:

- `str.strip()` with the exact `str.isspace()` character set.
- `startswith` and `in`.
- `replace(p, "")` as left-to-right removal of non-overlapping occurrences.
- `join`, and `split` at a separator as the inverse against which a join
  is stated. The consumer's own `line.split(":", 1)` is modelled by
  `Consumer.FirstColon` and `Consumer.SplitLine`.

Strings are sequences of Unicode scalar values. A Python `str` can also
hold lone surrogates such as `'\ud800'`, which a Dafny `char` cannot;
lone surrogates are not modelled.

Library calls are function parameters:

- the catalogue reader that `sqlite3` and `PRAGMA table_info` provide;
- `pd.read_sql`;
- `json.loads`, the `["data_json"]` lookup, `pd.read_json` and
  `df.to_json`, gathered in a `Codec` record. The first three return `None`
  where the library raises. `to_json` is assumed not to raise;
- the markdown and JSON renderings of a frame.

## Model

| member | source | states |
|---|---|---|
| Schema.UserTables | autogen_try.py:22-25 | The catalogue query returns no more rows than the catalogue has. An entry is returned iff it is in the catalogue and is an ordinary table whose name is not `LIKE 'sqlite_%'`. |
| Schema.UserTablesAppend | autogen_try.py:22-27 | Filtering keeps catalogue order: filtering a concatenation gives the concatenation of the filtered parts. |
| SqlLike.ReservedNamePattern | autogen_try.py:24 | A name is `LIKE 'sqlite_%'` iff it has at least seven characters and its first six spell `sqlite` in any ASCII case. |
| Schema.UserTableExactly | autogen_try.py:22-25 | The tables listed are exactly the entries of kind `table` whose name does not match that closed form; views and indexes are never listed. |
| SqlLike.LiteralHead | autogen_try.py:24 | A wildcard-free start of a LIKE pattern must be matched, up to ASCII case, by as many leading characters, and the rest by the rest. |
| SqlLike.PercentMatchesAll | autogen_try.py:24 | `%` alone matches every text, including the empty one. |
| SqlLike.Like | autogen_try.py:24 | SQLite's `LIKE` matcher with `%`, `_` and ASCII case folding. Its behaviour is stated by `SqlLike.PercentMatchesAll`, `SqlLike.LiteralHead` and `SqlLike.ReservedNamePattern`. |
| SqlLike.AsciiFold | autogen_try.py:24 | The case folding of SQLite's default `LIKE`: `A`-`Z` to lower case, every other character unchanged. What it means for the catalogue filter is stated by `SqlLike.ReservedNamePattern`. |
| Schema.RenderColumns | autogen_try.py:30 | One `name (type)` text per pragma column, in pragma order. |
| Schema.TableLine | autogen_try.py:29-30 | A table's line starts with `- `, the table name and `: `. |
| Schema.TableLines | autogen_try.py:27-31 | One line per listed table, the i-th line belonging to the i-th table. |
| Schema.ColumnListSplits | autogen_try.py:29-30 | The text after `- name: ` on a table's line splits back at `, ` into the rendered columns, in order. Stated for tables that have a column and no comma in any column name or type. |
| Schema.Describe | autogen_try.py:33 | The description is never empty. It is the sentinel `(no user tables found)` iff no user table is listed. |
| Schema.DescribeLines | autogen_try.py:26-33 | With at least one user table and no line break in any text of a user table, the description splits at `\n` into exactly one line per user table, in catalogue order, with no trailing empty line. |
| Schema.TableLineSingle | autogen_try.py:29-30 | A table line contains no line break when its table and column texts contain none. |
| Schema.JoinAvoids | autogen_try.py:30-33 | Joining texts free of a character with a separator free of it gives a text free of it. |
| Lru.Find | autogen_try.py:18 | The lookup finds an entry for the key iff the key is stored, and the position it returns holds that key. |
| Lru.Get | autogen_try.py:18 | A stored value is returned iff the key is present, and the returned pair is in the table. |
| Lru.MoveToBack | autogen_try.py:18 | A hit keeps the same entries (as a multiset). The hit entry becomes the last one, and the other keys keep their relative order. |
| Lru.Insert | autogen_try.py:18 | A new result goes to the back. The oldest entry is dropped only when the table was already full, so the table never exceeds its bound. |
| Lru.Call | autogen_try.py:18 | One call through the cache. It keeps one entry per key within the bound. A hit returns the stored value and ignores the wrapped function. A miss returns the wrapped function's result. A success leaves `(key, value)` as the newest entry, and a failure leaves the table unchanged. Only the called key can gain a new entry. |
| Lru.Empty | autogen_try.py:18 | A fresh cache is empty and well-formed. |
| Lru.Recency | autogen_try.py:18 | The reference order of the keys used holds each key at most once and is never longer than the history. |
| Lru.RecencyKeys | autogen_try.py:18 | The reference order holds exactly the keys used: each of its keys was used, and each used key is in it. |
| Lru.RecencyOrder | autogen_try.py:18 | The reference order is ordered by last use: a key earlier in it was last used strictly before a key later in it. |
| Lru.Remove | autogen_try.py:18 | Removing a key from a list leaves no occurrence of it and never lengthens the list. |
| Lru.RemoveDistinct | autogen_try.py:18 | Removal keeps a list free of duplicates. |
| Lru.HitStep | autogen_try.py:18 | Using a key that is among the `capacity` newest moves it to the back of them; the rest keep their order. |
| Lru.MissStep | autogen_try.py:18 | Using a key outside the `capacity` newest appends it, dropping the oldest only if there were already `capacity`. |
| Lru.CallFollowsRecency | autogen_try.py:18 | If the table's keys were the `capacity` most recently used keys of the history, they still are after a call, counting the call as a use unless it raised. So eviction always removes the least recently used key. |
| Lru.HitFollows | autogen_try.py:18 | For a hit, the new keys are the newest keys of the history extended by the call. |
| Lru.MissFollows | autogen_try.py:18 | For a successful miss, the new keys are the newest keys of the history extended by the call. |
| Lru.RepeatIsHit | autogen_try.py:18 | Right after a successful call, a second call with the same key is a hit and returns the same value, whatever the wrapped function would now answer. |
| Inspector.Uncached | autogen_try.py:19-33 | The uncached `inspect_schema`: it succeeds exactly when the database opens, and then answers a non-empty description. |
| Inspector.InspectSchema | autogen_try.py:18-33 | `inspect_schema` through its cache. A cached path is answered from the cache. Otherwise the catalogue is read and described. An opening failure reaches the caller and is not cached. The cache holds at most 32 paths, and every answer is non-empty. |
| Inspector.CallKeepsReady | autogen_try.py:18-33 | A call keeps the cache at size 32, well-formed, and holding only non-empty descriptions. |
| Inspector.AnswerNonEmpty | autogen_try.py:18-33 | Every successful answer, whether stored or fresh, is a non-empty text. |
| Inspector.NewEntryIsAnswer | autogen_try.py:18 | An entry that was not in the cache before the call is the call's own key with the answer it returned. |
| Inspector.SecondCallIsMemoised | autogen_try.py:18-19 | Calling `inspect_schema` twice with the same path gives the first answer again, even if the database changed in between. |
| SqlTool.Head | autogen_try.py:43 | `df.head(n)` keeps the columns and the first `min(n, rows)` rows, in order. |
| SqlTool.RunSql | autogen_try.py:38-47 | A failing query reports its error. Otherwise the data is the complete result, and the preview has its columns and first `min(20, n)` rows in order. |
| SqlTool.SmallResultPreviewIsData | autogen_try.py:43-44 | A result of at most 20 rows, including an empty one, is previewed in full. |
| SqlTool.Envelope | autogen_try.py:41-47 | The `json.dumps(..., indent=2)` layout of the reply, with the preview key first and `data_json` second. Its shape is stated by `SqlTool.EnvelopeShape`. |
| SqlTool.ToolText | autogen_try.py:41-47 | The reply for a result is a braced document that names the quoted `data_json` key, whatever the preview and data render to. |
| SqlTool.EnvelopeShape | autogen_try.py:41-47 | The tool's reply text starts with `{`, ends with `}` and names the quoted `data_json` key. |
| Producer.Line | autogen_try.py:139 | A streamed line is the speaker, `: ` and the message. That the consumer reads it back is stated by `Pipeline.LineRoundTrip`. |
| Producer.Forward | autogen_try.py:137-139 | The stream yields at most one line per item. |
| Producer.ForwardTextOnly | autogen_try.py:137-139 | A stream of text messages yields one line per message, the i-th being `source: content` of the i-th message. |
| Producer.ForwardDropsEvents | autogen_try.py:137-138 | Items that are not text messages yield no line. |
| Producer.ForwardAppend | autogen_try.py:137-139 | Lines are produced item by item, in stream order: a concatenated stream yields the concatenated lines. |
| Consumer.Classify | streamlit_app.py:31-38 | The branch a content takes: chart when it starts with `CHART_JSON:`, otherwise data when it contains `"data_json"`, otherwise insight. Its behaviour is stated by `Consumer.ChartBeforeData`, `Consumer.CodeLineIsInsight` and `Pipeline.BracedIsData`. |
| Consumer.ChartPayload | streamlit_app.py:32 | The `json.loads` input of a chart is never longer than the content and neither starts nor ends with whitespace. |
| Consumer.ChartPayloadOfMarked | streamlit_app.py:31-32 | A content that starts with `CHART_JSON:` and has no further marker hands `json.loads` exactly what follows the marker, stripped. |
| Consumer.DecodeFrame | streamlit_app.py:39-47 | A data payload yields a frame only when `json.loads`, the `data_json` lookup and `pd.read_json` all succeed; any failure yields none. Its effect is stated by `Consumer.StepOutcomes` and `Pipeline.ToolReplyAddsFrame`. |
| Consumer.InsightText | streamlit_app.py:51 | An insight is stored as `**role**: content`. Its use is stated by `Consumer.StepOutcomes` and `Consumer.AllInsights`. |
| Consumer.StepView | streamlit_app.py:30-54 | One iteration of the loop on a split and classified line. Its behaviour is stated by `Consumer.StepViewOutcomes`, `Consumer.StepViewAppendsAtMostOne` and `Consumer.StepIsContribution`. |
| Consumer.Step | streamlit_app.py:26-54 | One iteration of the `async for` on a raw line. Its behaviour is stated by `Consumer.StepOutcomes` and `Consumer.StepAppendsAtMostOne`. |
| Consumer.Run | streamlit_app.py:21-26 | A completed run starts from empty lists and holds at most one entry per line. |
| Consumer.Persist | streamlit_app.py:56-70 | A stored payload carries the question asked and at most one entry per line. |
| Consumer.FirstColon | streamlit_app.py:27 | The position found holds a colon, and no colon comes before it. None is found only when there is no colon. |
| Consumer.FirstColonAfter | streamlit_app.py:27 | After a colon-free prefix, the first colon is the one that ends the prefix. |
| Consumer.SplitLine | streamlit_app.py:27-28 | The role has no colon. A line without a colon is all role, with empty content. Otherwise the role is the text before the first colon, and the content is the rest after that colon, stripped. |
| Consumer.ChartBeforeData | streamlit_app.py:31-38 | A content starting with `CHART_JSON:` is a chart even if it names `"data_json"`. |
| Consumer.CodeLineIsInsight | streamlit_app.py:31-51 | A `CODE_PY:` line whose code does not name `"data_json"` is an insight: there is no branch for code. |
| Consumer.StripMarked | streamlit_app.py:28 | Stripping a marked specification keeps the marker and removes only the specification's trailing whitespace. |
| Consumer.MarkedPayload | streamlit_app.py:32 | The `json.loads` input of a marked specification with no second marker is the specification, stripped. |
| Consumer.SecondMarkerAlsoRemoved | streamlit_app.py:32 | Every `CHART_JSON:` is removed, not only the leading one: two marked specifications joined by a line break give one payload with both texts and no marker. |
| Consumer.StepOutcomes | streamlit_app.py:31-51 | A line stops the run iff it is a chart whose payload does not parse. A data line that does not decode changes nothing and is not made an insight. An insight line adds exactly `**role**: content`. |
| Consumer.StepViewOutcomes | streamlit_app.py:31-51 | The same outcomes for a line already split and classified. |
| Consumer.StepAppendsAtMostOne | streamlit_app.py:21-51 | A line only appends, at the end of the lists, and adds at most one entry in total. |
| Consumer.StepViewAppendsAtMostOne | streamlit_app.py:21-51 | The same for a line already split and classified. |
| Consumer.StepIsContribution | streamlit_app.py:31-51 | A line stops the run with its payload exactly when it is a rejected chart. Otherwise it appends its own insight, chart or frame contribution to each list. |
| Consumer.RunFrom | streamlit_app.py:25-54 | The fold over the lines only extends the lists and adds at most one entry per line. |
| Consumer.ExpectedStep | streamlit_app.py:25-54 | The filter-wise prediction, one line at a time. |
| Consumer.RunIsFilters | streamlit_app.py:25-54 | The run equals three independent filters. It stops at the first chart that does not parse. Otherwise it appends exactly the insights, the parsed charts and the decodable frames of the lines, each list in stream order. |
| Consumer.PersistIsFilters | streamlit_app.py:56-70 | The stored payload is the insights, the charts, the re-serialised frames of the lines, and the question. Nothing is stored when a chart fails to parse. |
| Consumer.MapToJson | streamlit_app.py:68 | One `to_json` text per frame, same order and count. |
| Consumer.AllInsights | streamlit_app.py:50-51 | When every line is an insight, every line is kept as its bold-role text, and no chart or frame is kept. |
| Consumer.RunFromAppend | streamlit_app.py:25-26 | Streaming is incremental: running a concatenation is running the first part, then continuing with the second from where it left off. |
| Pipeline.LineRoundTrip | autogen_try.py:139 | A message from a speaker whose name has no colon is read back with the same speaker and the message text, stripped. |
| Pipeline.ChartLineRoundTrip | autogen_try.py:139 | A chart specification sent after the marker is read back as a chart whose `json.loads` input is the specification, stripped. |
| Pipeline.ToolReplyIsData | autogen_try.py:41-47 | The `run_sql` reply sent as a message is read back as a data line whose content is the whole reply. |
| Pipeline.ToolReplyAddsFrame | streamlit_app.py:38-47 | Such a line adds the decoded frame when decoding succeeds, and changes nothing when it fails. |
| Pipeline.BracedDataLine | streamlit_app.py:27-38 | Any braced message naming `"data_json"` is read back as data with the whole message as content. |
| Pipeline.BracedIsData | streamlit_app.py:31-38 | A braced content naming `"data_json"` cannot be a chart, so it is data. |
| Pipeline.BracedIsStripped | streamlit_app.py:28 | A braced text has nothing to strip. |
| Pipeline.PlainConversation | streamlit_app.py:64-70 | A conversation of plain messages is stored as exactly its messages, in order, each as `**speaker**: ` and the stripped text, with no chart and no frame. |
| Text.IsSpace | streamlit_app.py:28 | Exactly the characters Python's `str.isspace()` accepts. |
| Text.StartsWith | streamlit_app.py:31 | `str.startswith`: the text begins with the prefix. |
| Text.Contains | streamlit_app.py:38 | The `in` test on strings: the pattern occurs at some position. |
| Text.TrimLeft | streamlit_app.py:28 | `lstrip`: a suffix of the text that is empty or starts with a non-space, with only whitespace removed before it. |
| Text.TrimRight | streamlit_app.py:28 | `rstrip`: a prefix of the text that is empty or ends with a non-space, with only whitespace removed after it. |
| Text.Strip | streamlit_app.py:28 | `strip()` is never longer than its input and neither starts nor ends with whitespace. |
| Text.StripIdempotent | streamlit_app.py:28 | Stripping twice is stripping once. |
| Text.StripKeepsTrimmed | streamlit_app.py:28 | A text that neither starts nor ends with whitespace is unchanged by `strip()`. |
| Text.StripSkipsLeadingSpace | streamlit_app.py:28 | A leading whitespace character does not change the strip. |
| Text.StripAfterTrimRight | streamlit_app.py:32 | Removing trailing whitespace first does not change the strip. |
| Text.TrimRightAfterPrefix | streamlit_app.py:28 | Trailing whitespace is removed only after a prefix that ends in a non-space. |
| Text.TrimLeftDropLastSpace | streamlit_app.py:28 | Dropping one trailing whitespace character commutes with removing leading whitespace. |
| Text.ContainsPastPrefix | streamlit_app.py:38 | An occurrence cannot begin inside a prefix that lacks the pattern's first character. |
| Text.ContainsInfix | streamlit_app.py:38 | A pattern written into a text occurs in it. |
| Text.NotContainsPrefix | streamlit_app.py:32 | A prefix of a text free of the pattern is free of it too. |
| Text.RemoveAll | streamlit_app.py:32 | `replace(p, "")` never lengthens the text. |
| Text.RemoveAllAbsent | streamlit_app.py:32 | Removing an absent pattern changes nothing. |
| Text.RemoveAllLeading | streamlit_app.py:32 | An occurrence at the front is removed. |
| Text.RemoveAllAcross | streamlit_app.py:32 | Occurrences on either side of a character that is not in the pattern are removed independently. |
| Text.RemoveAllBoth | streamlit_app.py:32 | Two occurrences, one at the front and one after a separating character, are both removed. |
| Text.Join | autogen_try.py:30-33 | `sep.join` of no parts is empty, and otherwise starts with the first part. |
| Text.SplitOn | autogen_try.py:33 | Splitting always yields at least one piece. |
| Text.SplitOnPiece | autogen_try.py:33 | A piece free of the separator's first character splits off as itself. |
| Text.SplitOnWhole | autogen_try.py:33 | A text free of the separator's first character splits to itself alone. |
| Text.SplitJoin | autogen_try.py:30-33 | Joining pieces free of the separator's first character and splitting again gives the pieces back. |

## Left out

- The agent team, `RoundRobinGroupChat`, `max_turns=10` and reflection on
  tool use: turn order and budget are library behaviour. The team's output
  stream is an input (`Producer.StreamItem`).
- The agents' system prompts (autogen_try.py:62-115) and the task prompt
  (autogen_try.py:133-136) are text handed to the model service and carry
  no logic.
- The OpenAI client and the `.env` key loading: external service and
  configuration.
- `sqlite3` I/O: connecting, the catalogue query and `PRAGMA table_info`.
  The catalogue with its columns is an input, and reading it may fail with
  an error. `sqlite3.connect` creating a missing file is not modelled.
- The f-string `PRAGMA table_info('{tbl}')` does not escape quotes. A table
  whose name contains `'` makes the pragma fail. The model reads the
  columns as already given and does not model that failure.
- pandas (`read_sql`, `head`, `to_markdown`, `to_json`, `read_json`) and
  the JSON grammar are opaque functions. `json.dumps` string escaping is a
  parameter (the quoted literals handed to `SqlTool.Envelope`).
- Streamlit rendering, the upload and button guard, the temporary file, and
  the `asyncio.run` / `nest_asyncio` retry are UI and event-loop plumbing.
  The rendering calls at streamlit_app.py:35 and :53-54 are assumed not to
  raise; an exception from them would end the run uncaught. The rendering
  at :43-45 sits inside the `try`, after the frame is appended, so a failure
  there is swallowed.
- The `except RuntimeError` at streamlit_app.py:59 catches any
  `RuntimeError` that escapes the run, not only one from `asyncio.run`
  itself. This includes a `RecursionError` from `json.loads` on a deeply
  nested chart, or an error raised by the team's stream. The handler then
  runs the whole stream again at :62, appending to lists that already hold
  the first pass's entries. The model does not include this second pass.
- `functools.lru_cache`'s lock and its handling of concurrent callers.
  Calls are modelled one at a time.
- The consumer has no code executor: a `CODE_PY:` line is an insight like
  any other (`Consumer.CodeLineIsInsight`). A chart that fails to parse
  raises `json.JSONDecodeError`, a `ValueError` that the
  `except RuntimeError` at streamlit_app.py:59 does not catch. So the run
  ends and no payload is stored (`Consumer.StepOutcomes`,
  `Consumer.PersistIsFilters`).
- Exceptions other than a chart's parse error that escape the stream end
  the run with nothing stored, and are not modelled. The team's stream
  calls `build_team`, which calls `inspect_schema` (autogen_try.py:132,
  :60). For a file that is not a SQLite database, the query at
  autogen_try.py:22 raises `sqlite3.DatabaseError`; model-client errors are
  another source. Such an error is not a `RuntimeError`, so it ends the run
  at streamlit_app.py:26-58 and the store at :65 never runs.
  `Inspector.InspectSchema` returns this error, but the stream handed to
  `Producer.Forward` and `Consumer.Persist` is a plain list of lines, so a
  stream that raises cannot be expressed there.
- Consumer.PersistIsFilters: only chart parse failures of the `ValueError`
  kind are modelled, as ending the run with nothing stored. A `RecursionError`
  from `json.loads` is a `RuntimeError`, so it triggers the second pass
  described above, and that pass can store a payload. The model does not
  cover this case.
- temp.py, a one-off script that prints table previews.
- Schema.DescribeLines: stated only when no name or column text of a user
  table contains a line break. With a line break in such a text, the
  description splits into more lines than there are tables.
- Schema.ColumnListSplits: stated only for columns whose name and type
  contain no comma, for the same reason with `, `.
- Text.RemoveAll: its contract bounds only the length. What it removes is
  stated by `Text.RemoveAllAbsent`, `Text.RemoveAllLeading`,
  `Text.RemoveAllAcross` and `Text.RemoveAllBoth`, not as a closed form for
  overlapping patterns.
- Consumer.ChartPayload: its contract bounds the length and states that
  the payload is stripped. Which markers are removed is stated by
  `Consumer.ChartPayloadOfMarked`, `Consumer.MarkedPayload` and
  `Consumer.SecondMarkerAlsoRemoved`. There is no closed form for contents
  in which markers overlap.
- Producer.Forward: its contract bounds only the number of lines. Their
  content is stated by `Producer.ForwardTextOnly`,
  `Producer.ForwardDropsEvents` and `Producer.ForwardAppend`.
