# Engram recorder: a Dafny model

Engram keeps a lasting record of what passes through an OpenClaw gateway. It
has two writers. Each keeps a SQLite database `engram.db` and a directory
`raw/` with one JSON-Lines file per UTC day. The recorder places them in
the parent of its `src/` directory (src/recorder.py:17-19). The hook
hard-codes `/root/clawd/projects/engram` (hooks/handler.ts:11-13). The two
programs share one store only when the checkout sits at that path.

- `src/recorder.py` is an HTTP server. Each POSTed JSON event becomes a line
  in the day's file and a row of the `messages` table. The same file also
  has a `search` command (substring search over message contents, newest
  first) and a `stats` command (totals, counts per direction and channel,
  first and last timestamp).
- `hooks/handler.ts` is a gateway hook. Each hook event becomes a line in the
  day's file and a row of the `events` table. It opens the database lazily
  and creates that table's schema the first time.

The model is split into these modules:

| file | module | what it holds |
|---|---|---|
| `wrappers.dfy` | `Wrappers` | `Option` |
| `json.dfy` | `Json` | JSON values; serialisation as an abstract text with its inverse |
| `sql_text.dfy` | `SqlText` | SQLite's BINARY text order and its `LIKE` operator |
| `iso_time.dfy` | `IsoTime` | `datetime.isoformat()` and `strftime("%Y-%m-%d")` |
| `schema.dfy` | `Schema` | a database schema and `CREATE ... IF NOT EXISTS`, including the statements that raise |
| `raw_log.dfy` | `RawLog` | the day files of `raw/` and appending a line to one |
| `recorder_rows.dfy` | `RecorderRows` | the `messages` row and the log line built from one event |
| `recorder_query.dfy` | `RecorderQuery` | what `search` selects and prints; what `stats` reports |
| `recorder.dfy` | `Recorder` | the store as a class: `init_db`, `record_message`, `search`, `stats`, `do_POST` |
| `hook.dfy` | `Hook` | `getDb`, `recordEvent` and `handler` over a class holding the module's state |

The state that the programs change in place is modelled as classes with
`seq`/`map` fields:

- `Recorder.Store` holds the `raw/` directory, the schema, the `messages`
  table and the day files.
- `Hook.HookStore` holds the same things for the hook, plus the module-level
  `db` handle.

Things outside the programs' control are parameters of the operations:

- the clock readings;
- whether the day file can be opened;
- whether opening the database, running the schema statements or running
  the INSERT fails.

Timestamps are compared as SQLite compares TEXT: code point by code point
(`SqlText.LexLe`). Python's `isoformat()` leaves out the fraction when the
microsecond is zero. So a stamp taken on a whole second sorts after the
later stamps of the same second (`IsoTime.WholeSecondSortsLate`). This
affects `search` order and `stats` first and last. When every stamp carries
a fraction, text order is time order (`IsoTime.FixedStampOrder`).

What the code does, where a reader might expect otherwise:

- The `raw` column holds `json.dumps(data)`, the event alone. Only the log
  line carries the server timestamp.
- `search` uses `LIKE '%q%'`. This is case-insensitive for ASCII letters,
  and `%` and `_` inside the query act as wildcards. A plain substring test
  only holds for queries without them (`SqlText.LikeOperatorContains`).
- LIKE reads the content only up to its first U+0000, although the whole
  text is stored. A content `a`, U+0000, `b` does not match the query `b`
  (`SqlText.TextAfterNulIgnored`).
- A query whose pattern `%q%` exceeds 50000 bytes of UTF-8 makes `search`
  raise, once the table has a row and the limit is not 0
  (`RecorderQuery.PatternLength`).
- A row whose `content` is NULL never matches, not even the empty query.
- A failing POST can still have stored its row. The sender is sliced for
  the progress message after the commit, and a null, boolean or integer
  sender makes that raise (`RecorderRows.NullSenderRaisesAfterInsert`).
- When both programs share `engram.db`, they use the same index names
  `idx_timestamp` and `idx_session`. If the recorder created its schema
  first, the hook's statements of those names do nothing. So the `events`
  table has no index on `timestamp` or `session_key`
  (`Hook.SharedIndexNamesSkipped`).
- `IF NOT EXISTS` does not make the start-up statements safe on every
  database. A `messages` table of another shape is kept, and then an index
  statement raises on a missing column (`RecorderRows.InitDbRaisesOnForeignTable`).
  Statements before the failing one stay applied.
- The command-line `search` does not call `init_db`. On a database without
  the `messages` table, its query raises (`Recorder.Store.Search`).
- A sender holding a newline breaks the one-line-per-row output of `search`.
  Only the content's newlines are replaced (`RecorderQuery.FormatLine`).

## Model

| member | source | states |
|---|---|---|
| Json.Dumps | src/recorder.py:68-69 | Parsing the serialised text gives back the value serialised. |
| Json.DumpsInjective | src/recorder.py:68-69 | Two values with the same serialisation are equal. |
| SqlText.LexLe | src/recorder.py:112 | BINARY order puts a text that is a prefix of another first. |
| SqlText.LexLeDictionary | src/recorder.py:112 | BINARY order is the dictionary order: a prefix first, otherwise the smaller code point at the first difference. |
| SqlText.LexLeReflexive | src/recorder.py:112 | Every text sorts at or before itself in BINARY order. |
| SqlText.LexLeTotal | src/recorder.py:112 | Any two texts are comparable in BINARY order. |
| SqlText.LexLeAntisymmetric | src/recorder.py:112 | Texts that sort at or before each other are equal. |
| SqlText.LexLeTransitive | src/recorder.py:135-140 | BINARY order is transitive. |
| SqlText.LexLessIff | src/recorder.py:112 | Strictly before means at or before and different. |
| SqlText.LexLeConcat | src/recorder.py:112 | With equal-length heads, texts compare on their heads first and then on their tails. |
| SqlText.LexLessConcat | src/recorder.py:112 | The strict form of the previous row. |
| SqlText.Fold | src/recorder.py:111 | LIKE maps each ASCII capital to the same letter in lower case and leaves every other character alone. |
| SqlText.FoldedEqStep | src/recorder.py:111 | Two texts are equal up to ASCII case iff their first characters are and the rests are. |
| SqlText.Like | src/recorder.py:111-114 | The pattern matching of LIKE on the text it reads: a pattern with no `%` or `_` matches exactly the texts equal to it up to ASCII case. |
| SqlText.PercentMatchesAll | src/recorder.py:111-114 | The pattern `%` matches every text. |
| SqlText.LeadingPercent | src/recorder.py:111-114 | A leading `%` matches iff the rest of the pattern matches some suffix. |
| SqlText.TrailingPercent | src/recorder.py:111-114 | For a query without wildcards, `q%` matches iff the text starts with `q`, ignoring ASCII case. |
| SqlText.LikeContains | src/recorder.py:111-114 | On the text LIKE reads, for a query without wildcards, `%q%` matches iff the text contains `q`, ignoring ASCII case. |
| SqlText.EmptyQueryMatchesAll | src/recorder.py:114 | The empty query matches every non-NULL content. |
| SqlText.UnderscoreIsWildcard | src/recorder.py:114 | A `_` in the query matches any character: the query `_` matches `a`, which does not contain `_`. |
| SqlText.BeforeNul | src/recorder.py:111-114 | The text LIKE reads is the longest prefix without U+0000: it is followed by U+0000 or ends the text, and is the whole text when there is none. |
| SqlText.LikeOperator | src/recorder.py:111-114 | On texts without U+0000 the LIKE function is the pattern matching; with a pattern without U+0000 it matches what it reads of the content. |
| SqlText.LikeOperatorContains | src/recorder.py:111-114 | For a query without wildcards or U+0000, `content LIKE '%q%'` holds iff the content before its first U+0000 contains `q`, ignoring ASCII case. |
| SqlText.TextAfterNulIgnored | src/recorder.py:111-114 | Content after a U+0000 is not seen: `a`, U+0000, `b` does not match `%b%`; `abc`, U+0000, `d` matches `abc`. |
| SqlText.NulHidesLaterText | src/recorder.py:111-114 | A search for `b` does not select the content `a`, U+0000, `b`. |
| SqlText.NulEndsText | src/recorder.py:111-114 | The pattern `abc` matches `abc`, U+0000, `d` under LIKE, though plain pattern matching on the whole text refuses it. |
| SqlText.Utf8Width | src/recorder.py:114 | A character takes one to four bytes in UTF-8, and one exactly when it is ASCII. |
| SqlText.Utf8Length | src/recorder.py:114 | A text takes between one and four bytes per character in UTF-8. |
| IsoTime.Pow10 | src/recorder.py:48 | Powers of ten are positive, so every field width has room for zero. |
| IsoTime.Digit | src/recorder.py:48 | A digit below ten renders as a decimal digit character. |
| IsoTime.Pad | src/recorder.py:48 | A zero-padded field has exactly its width. |
| IsoTime.PadOrder | src/recorder.py:48 | Zero-padded fields of one width compare as text as their numbers compare, and are equal iff the numbers are. |
| IsoTime.RenderLength | src/recorder.py:48 | Two renderings with the same widths and separators have the same length. |
| IsoTime.RenderOrder | src/recorder.py:48 | A rendering of a field tuple that is smaller field by field sorts first, whatever follows it. |
| IsoTime.SeparatedPadOrder | src/recorder.py:48 | A zero-padded field behind a common separator orders as text as its number does, and is equal iff the number is. |
| IsoTime.TupleLessAt | src/recorder.py:48 | Tuples equal up to a field and smaller at it are ordered. |
| IsoTime.RenderPrefix | src/recorder.py:48-51 | Rendering a tuple is rendering its first fields followed by rendering the rest. |
| IsoTime.RenderStartsWith | src/recorder.py:48-51 | A stamp, whatever follows it, begins with the rendering of its date fields. |
| IsoTime.FieldsFit | src/recorder.py:48 | Every field of a valid date-time fits its width. |
| IsoTime.DayName | src/recorder.py:51 | The day name has ten characters. |
| IsoTime.Stamp | src/recorder.py:48 | The stamp ends in `Z`. It is the fully padded stamp when the microsecond is not zero. On a whole second it is the fully padded stamp with `.000000` left out. |
| IsoTime.FixedStampOrder | src/recorder.py:48 | Stamps that all carry microseconds sort as text exactly in time order. |
| IsoTime.WholeSecondSortsLate | src/recorder.py:48 | A stamp on a whole second is earlier in time, yet sorts after a later stamp of the same second. |
| IsoTime.DayIsStampPrefix | src/recorder.py:48-52 | When both clock readings fall on the same date, the day file's name is the first ten characters of the stamp. |
| Schema.Step | src/recorder.py:26-41 | A statement that runs keeps every existing object and leaves its name present. It is a no-op when the name was already taken. |
| Schema.Apply | src/recorder.py:25-42 | Running statements in order until one raises keeps every object that existed before. |
| Schema.ApplyEffect | src/recorder.py:26-41 | After the statements, every named object exists; objects already present are unchanged; nothing else is added. |
| Schema.StepStable | src/recorder.py:26-41 | A statement that ran is a no-op on every schema that keeps what it produced. |
| Schema.ApplyStable | src/recorder.py:21-43 | Statements that all ran are all no-ops on every schema that keeps what they produced. |
| Schema.ApplyIdempotent | src/recorder.py:21-43 | Running the start-up statements twice gives the schema of running them once. |
| Schema.ApplyTimesOnce | src/recorder.py:21-43 | Any positive number of start-ups gives the schema of one. |
| Schema.HasTableExtends | src/recorder.py:58-60 | A table and its columns, once present, stay present after further statements. |
| RecorderRows.RecorderDdlRuns | src/recorder.py:25-42 | On a database holding none of the names `init_db` uses, every statement runs, exactly the four objects are added, and the INSERT's columns exist afterwards. |
| RecorderRows.InitDbRaisesOnForeignTable | src/recorder.py:26-39 | With a `messages` table lacking `timestamp`, the first index statement raises and the schema is left as it was. |
| RecorderRows.NextId | src/recorder.py:28 | The new row's id is positive and above every existing id. |
| RecorderRows.AppendKeepsIds | src/recorder.py:58-71 | Appending a row with the next id keeps ids positive and increasing. |
| RecorderRows.NatDecimal | src/recorder.py:63-67 | The decimal text of a natural number is non-empty, made of digits, has no leading zero and spells the number. |
| RecorderRows.Decimal | src/recorder.py:63-67 | An integer's text starts with `-` exactly for negatives; the digits that follow spell its magnitude. |
| RecorderRows.BindText | src/recorder.py:61-70 | A bindable value is stored as what the event held: NULL for absent or null, the string, `1`/`0` for booleans, the decimal text of integers. |
| RecorderRows.DeriveRow | src/recorder.py:58-70 | The insert binds iff every scalar value is null, a string, a boolean or a 64-bit integer. The stamp goes to `timestamp`. Each scalar column holds what the event held at its key. `tool_calls` parses back to the event's value, or `[]`. `raw` parses back to the event. |
| RecorderRows.ClientTimestampIgnored | src/recorder.py:62-69 | A `timestamp` key in the event reaches the raw column but never the timestamp column. |
| RecorderRows.LogLine | src/recorder.py:54 | The log line has the event's keys plus `timestamp`; event values win; the server stamp is used when the event has none. |
| RecorderRows.LogLineExtendsRaw | src/recorder.py:54-69 | Without a client `timestamp`, the log line is the raw column's object plus the server stamp. |
| RecorderRows.NullSenderRaisesAfterInsert | src/recorder.py:66-73 | An event with a null sender binds and is stored, and then the progress message raises. |
| RecorderQuery.PatternLength | src/recorder.py:108-114 | A query of at most 12498 characters never makes the pattern too long; one of more than 49998 always does. |
| RecorderQuery.Filter | src/recorder.py:111 | The kept rows are exactly the matching rows, with their multiplicities. |
| RecorderQuery.InsertDesc | src/recorder.py:112 | Inserting into a newest-first list keeps it sorted and adds exactly that row. |
| RecorderQuery.FrontSorted | src/recorder.py:112 | A row no older than the head of a newest-first list can go in front of it. |
| RecorderQuery.BehindHeadSorted | src/recorder.py:112 | When the rest of the list, with the new row inserted, is no newer than the head, the head stays in front. |
| RecorderQuery.SortDesc | src/recorder.py:112 | The result is sorted newest first and is a permutation of its input. |
| RecorderQuery.Query | src/recorder.py:107-114 | The result has min(limit, matches) rows; a negative limit means no limit. Every row matches. Rows are newest first and drawn from the table. Every matching row left out sorts at or before every row returned. |
| RecorderQuery.TakeSorted | src/recorder.py:113 | `LIMIT` keeps a prefix of the given length that is sorted and drawn from its input. |
| RecorderQuery.SortedMatches | src/recorder.py:111-112 | Sorting the matching rows keeps exactly the matching rows of the table. |
| RecorderQuery.TakeOmitted | src/recorder.py:112-113 | A matching row cut off by `LIMIT` sorts at or before every row kept. |
| RecorderQuery.OmittedBelow | src/recorder.py:112-113 | In a sorted list, a row past the cut sorts at or before every row before it. |
| RecorderQuery.Prefix | src/recorder.py:120 | `ts[:16]` is the first min(16, length) characters. |
| RecorderQuery.Preview | src/recorder.py:119 | At most 80 characters of the content, none a newline, each the content's character or a space where it had a newline; NULL content gives the empty text. |
| RecorderQuery.Arrow | src/recorder.py:118 | The arrow is `→` exactly for direction `out` and `←` otherwise. |
| RecorderQuery.SenderLabel | src/recorder.py:120 | A non-empty sender is shown as is; a NULL or empty one as `?`. |
| RecorderQuery.FormatLineShape | src/recorder.py:116-120 | A printed row begins with the timestamp's first 16 characters and ends with the preview. It is a single line unless the timestamp or the sender holds a newline, and at most 101 characters longer than the sender label. |
| RecorderQuery.SingleLineConcat | src/recorder.py:119-120 | A concatenation holds no newline iff neither part does. |
| RecorderQuery.Tally | src/recorder.py:129-134 | Counting one more row keeps keys distinct and counts positive, raises the total by one and raises only that key's count. |
| RecorderQuery.NotInGroups | src/recorder.py:129-134 | A key with no group counts zero. |
| RecorderQuery.LookupAt | src/recorder.py:129-134 | Looking up a group's key gives that group's count. |
| RecorderQuery.GroupBy | src/recorder.py:129-134 | Groups have distinct keys and positive counts, the counts sum to the number of rows, and each key's count is the number of rows with that value (NULL being a key of its own). |
| RecorderQuery.GroupsCoverRows | src/recorder.py:129-134 | Every row's value appears among the groups. |
| RecorderQuery.CountKeyPositive | src/recorder.py:129-134 | A value that some row holds is counted at least once. |
| RecorderQuery.Earliest | src/recorder.py:135-137 | Present iff the table has rows; it is some row's timestamp and sorts at or before all of them. |
| RecorderQuery.Latest | src/recorder.py:138-140 | Present iff the table has rows; it is some row's timestamp and sorts at or after all of them. |
| RecorderQuery.Stats | src/recorder.py:124-150 | The total is the number of rows. The per-direction and per-channel counts each sum to it. First and last exist iff there are rows, and first sorts at or before last. |
| RawLog.Append | src/recorder.py:53-54 | Appending adds the line at the end of that day's file and creates the file when absent. Every other day's lines are unchanged. |
| RawLog.Touch | src/recorder.py:53 | Opening a day's file for appending creates it and changes no line of any day. |
| RawLog.AppendAfterTouch | src/recorder.py:53-54 | Opening a file and then appending to it is appending to it. |
| Recorder.Store.constructor | src/recorder.py:17-19 | The store starts from the state found on disk. |
| Recorder.Store.InitDb | src/recorder.py:21-43 | When the directory is absent and cannot be created, `init_db` fails and nothing changes. Otherwise the raw directory exists. The schema is what running the statements in order until one raises leaves, and `ok` is false exactly when one raised. Rows and log lines are unchanged. |
| Recorder.Store.RecordMessage | src/recorder.py:46-73 | Without the directory, or when the file cannot be opened, nothing changes. A non-object event only creates the day's file, with no new line. Otherwise one log line is appended. A row with the next id is appended exactly when binding and the INSERT succeed. The call completes iff that row was stored and the sender can be sliced. |
| Recorder.Store.WriteLog | src/recorder.py:48-54 | The line is written exactly when the directory exists, the file opens and the event is an object. Only the day files change, as `record_message` leaves them. |
| Recorder.Store.InsertRow | src/recorder.py:56-72 | Once the line is written, a row with the next id is appended exactly when binding and the INSERT succeed. Only the table changes. |
| Recorder.Store.Search | src/recorder.py:105-122 | The query raises exactly when there is no `messages` table with the columns it reads, or when a row is scanned (the table has rows and the limit is not 0) and the pattern is over 50000 bytes. Otherwise there is one printed line per selected row, in the query's order. |
| Recorder.Store.Stats | src/recorder.py:124-150 | The queries raise exactly when there is no `messages` table with the columns they read. Otherwise the report is that of the table's rows. |
| Recorder.PrintRows | src/recorder.py:116-120 | One formatted line per row, in cursor order. |
| Recorder.DoPost | src/recorder.py:78-92 | The answer is 200 exactly when the body parsed and the message was recorded completely, else 500. An unparsable body changes nothing. For a parsed body, the day files and the table are exactly what `record_message` leaves, including a stored row behind a 500. The directory and the schema do not change. |
| Hook.Stringify | hooks/handler.ts:58-66 | The serialised object has exactly the defined properties, with their values. |
| Hook.LogEntry | hooks/handler.ts:58-66 | The entry has the six fixed keys plus the keys of `data`. A key of `data` overrides the fixed field of that name. Every other fixed field keeps its value. |
| Hook.DayOf | hooks/handler.ts:54 | The day is the first min(10, length) characters of the timestamp. |
| Hook.DayMatchesEntry | hooks/handler.ts:53-67 | Unless `data` brings its own `timestamp`, the line in a day's file carries a timestamp that begins with that day. |
| Hook.OrNull | hooks/handler.ts:82-85 | The fallback to `null` is NULL exactly for undefined or the empty string, and the value itself otherwise. |
| Hook.HookDdlRuns | hooks/handler.ts:26-40 | On a database holding none of the names the hook uses, every statement runs and the INSERT's columns exist afterwards. |
| Hook.HookDdlOverIndexes | hooks/handler.ts:26-40 | Where `idx_timestamp` and `idx_session` already name indexes, the hook's statements for them do nothing and the others create `events` and `idx_type`. |
| Hook.SharedIndexNamesSkipped | hooks/handler.ts:26-40 | After the recorder's statements, every hook statement still succeeds. `idx_timestamp` and `idx_session` still index `messages`; only `idx_type` indexes `events`; the INSERT's columns exist. |
| Hook.DeriveEvent | hooks/handler.ts:79-87 | The row gets the timestamp and type. Each optional field is NULL exactly when undefined or empty, and the value otherwise. `data` is the serialised `event.data`, or `{}` when absent. |
| Hook.NextId | hooks/handler.ts:28 | The new event's id is positive and above every existing id. |
| Hook.Exec | hooks/handler.ts:26-40 | The schema statements keep every object that existed before, whether or not they all run. |
| Hook.SchemaAfterGetDb | hooks/handler.ts:23-43 | `getDb` keeps every existing object, and changes nothing when the handle was already open or the open fails. |
| Hook.EventInsertedWhenHealthy | hooks/handler.ts:23-43 | Without outside failures, the first call on a database lacking the hook's names stores the row. With an open handle and the table present, the row is stored iff the append and the INSERT succeed. |
| Hook.HookStore.Load | hooks/handler.ts:15-21 | Loading the module leaves `db` null and keeps the state found on disk. |
| Hook.HookStore.GetDb | hooks/handler.ts:23-43 | With a handle, the same handle is returned and nothing runs. Otherwise a failed open leaves `db` null; a successful one stores a new handle and then runs the statements. A handle is returned exactly when the open and every statement succeed. After a raising statement `db` stays set and the statements before it stay applied. |
| Hook.HookStore.RecordEvent | hooks/handler.ts:45-93 | The call throws exactly when the append fails, and then nothing changes. Otherwise exactly one line is appended to the day's file. At most one row, with the next id, is added: exactly when the handle is obtained, the table has the INSERT's columns and the INSERT runs. The schema and `db` change as `getDb` promises; `db` becomes set exactly when it was null and the open succeeds. |
| Hook.HookArgs | hooks/handler.ts:97-107 | Type, action and session key pass through. `senderId` and `source` come from the context's `senderId` and `commandSource`, or are undefined without a context. `data` holds exactly `workspaceDir` and `sessionId`, with the context's values, undefined without a context. |
| Hook.HandlerEntry | hooks/handler.ts:97-107 | For hook events the entry's timestamp is always the clock's. The `data` column holds only workspace directory and session id, and the session id exactly when the context has one. |
| Hook.Handler | hooks/handler.ts:95-108 | The promise rejects exactly when the append fails. The day files, the `events` table, the schema and `db` change as `recordEvent` promises for the mapped arguments. |

## Left out

- The HTTP server setup, `serve`, `log_message`, the command-line dispatch, and all printed or logged output. `search` is modelled by the lines it would print.
- Reading the request body: `Content-Length` parsing and the socket read happen before the `try` block. `do_POST` is modelled from the parsed body on.
- JSON numbers other than integers (floats), the byte format of `json.dumps` and `JSON.stringify`, and key order. Serialisation is an abstract text with a proved inverse.
- `JSON.stringify` on values it cannot serialise (BigInt, cycles), and `undefined` nested deeper than the top level of `event.data`.
- Concurrency: the server handles one request at a time, and the hook's promise is not interleaved with another call. Writes from the two programs to the same files are not interleaved in the model.
- Partial writes and durability: an append either happens completely or fails before writing.
- SQLite compares table, index and column names case-insensitively; the model compares them exactly. Both programs spell the names they use in lower case.
- Recorder.Store.InitDb: a failure of `sqlite3.connect` after the directory exists is not modelled. A failure before the first hook statement is the `execFails` parameter.
- SqlText.LikeOperatorContains: a query holding U+0000 is not covered. A command-line argument cannot carry one; in the pattern, LIKE would stop reading at it.
- RecorderQuery.GroupBy: groups are listed in the order their first row appears. SQLite's `GROUP BY` without an index on the column returns them in key order, NULL first. The counts per key are the same either way.
- RecorderRows.DeriveRow: strings holding a lone surrogate, such as the escape `\ud800` that `json.loads` accepts, cannot be represented by a Dafny `char`. sqlite3 fails to encode such a string when binding, after the log line was written. The model has no such event.
- Connections are not closed on error paths; leaked handles have no effect in the model.
- Row-id exhaustion at 2^63 - 1.
- Recorder.Store.Search: among rows with equal timestamps, SQLite's output order is unspecified. The model fixes one order (the later row first). The properties proved of `RecorderQuery.Query` hold whatever the order of ties.
- Years before 1000 (shorter `%Y` in `strftime`) and dates that the calendar does not have. `ValidDateTime` only bounds each field.
- The `HookHandler` type from the gateway's hook library. `Hook.Handler` takes the event fields it reads.
- The gateway start-up message in `handler`.
- The hook's `raw` directory: module load creates it (hooks/handler.ts:15-18), and a failing `mkdirSync` would stop the module from loading. The model starts from a loaded module, where the directory exists.
