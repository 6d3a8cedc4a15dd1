/**
 * The recorder's durable state and the operations that change or read it
 * (src/recorder.py): `init_db`, `record_message`, `search` and the outcome of
 * `EngramHandler.do_POST`.
 *
 * The clock is read twice by `record_message` (once for the stamp, once for
 * the day of the log file); both readings are parameters. Storage failures
 * that do not depend on the event (the log file cannot be opened, the INSERT
 * fails in SQLite) are parameters too.
 */
module Recorder {
  import opened Wrappers
  import opened Json
  import opened IsoTime
  import Schema
  import opened RecorderRows
  import opened RecorderQuery
  import opened RawLog

  /** Storage failures outside the event's control. */
  datatype Faults = Faults(openFails: bool, insertFails: bool)

  /** The log line is written: the day's file could be opened and the event is a JSON object. */
  predicate LogWritten(rawDir: bool, data: Value, faults: Faults)
  {
    rawDir && !faults.openFails && data.Obj?
  }

  /** The INSERT is committed: the line was written and the row could be bound and inserted. */
  predicate RowInserted(rawDir: bool, schema: Schema.Schema, data: Value, faults: Faults)
  {
    && LogWritten(rawDir, data, faults)
    && ScalarsBindable(data.fields)
    && Schema.HasTable(schema, "messages", InsertColumns)
    && !faults.insertFails
  }

  /** The `raw` directory after `record_message(data)`. */
  function LoggedRaw(raw: Log, rawDir: bool, data: Value, now: DateTime, today: DateTime, faults: Faults): Log
    requires ValidDateTime(now) && ValidDateTime(today)
  {
    if !rawDir || faults.openFails then raw
    else if !data.Obj? then Touch(raw, DayName(today))
    else Append(raw, DayName(today), LogLine(Stamp(now), data.fields))
  }

  /** The `messages` table after `record_message(data)`. */
  function StoredMessages(messages: seq<Message>, rawDir: bool, schema: Schema.Schema, data: Value,
                          now: DateTime, faults: Faults): seq<Message>
    requires IdsIncreasing(messages) && ValidDateTime(now)
  {
    if RowInserted(rawDir, schema, data, faults)
    then messages + [DeriveRow(NextId(messages), Stamp(now), data.fields).value]
    else messages
  }

  /** The columns `search` reads. */
  const SearchColumns: seq<string> := ["timestamp", "direction", "sender", "content"]

  /** The columns `stats` reads. */
  const StatsColumns: seq<string> := ["timestamp", "direction", "channel"]

  class Store {
    /** Whether the `raw` directory exists. */
    var rawDir: bool
    /** The schema of `engram.db`. */
    var schema: Schema.Schema
    /** The `messages` table, in rowid order. */
    var messages: seq<Message>
    /** The `raw` directory: day name to the lines of `<day>.jsonl`. */
    var raw: Log

    /** Ids increase along the table, and rows exist only in a `messages` table. */
    ghost predicate Valid()
      reads this
    {
      && IdsIncreasing(messages)
      && (|messages| > 0 ==> "messages" in schema && schema["messages"].Table?)
    }

    /** The state found on disk when the process starts. */
    constructor (rawDir0: bool, schema0: Schema.Schema, messages0: seq<Message>, raw0: Log)
      requires IdsIncreasing(messages0)
      requires |messages0| > 0 ==> "messages" in schema0 && schema0["messages"].Table?
      ensures Valid()
      ensures rawDir == rawDir0 && schema == schema0 && messages == messages0 && raw == raw0
    {
      rawDir, schema, messages, raw := rawDir0, schema0, messages0, raw0;
    }

    /**
     * `init_db`: creates the `raw` directory when absent and runs the
     * CREATE ... IF NOT EXISTS statements; `ok` is false when one of them
     * raised. With `mkdirFails` an absent directory cannot be created (a
     * file named `raw` is in the way, or permission is lacking): `mkdir`
     * raises and nothing else happens. Rows and log lines are untouched.
     */
    method InitDb(mkdirFails: bool) returns (ok: bool)
      requires Valid()
      modifies this
      ensures Valid()
      ensures messages == old(messages) && raw == old(raw)
      ensures !old(rawDir) && mkdirFails ==> !ok && !rawDir && schema == old(schema)
      ensures old(rawDir) || !mkdirFails ==> rawDir
      ensures old(rawDir) || !mkdirFails ==> schema == Schema.Apply(old(schema), RecorderDdl).schema
      ensures old(rawDir) || !mkdirFails ==> (ok <==> Schema.Apply(old(schema), RecorderDdl).ok)
    {
      if !rawDir && mkdirFails {
        return false;
      }
      rawDir := true;
      var run := Schema.Apply(schema, RecorderDdl);
      schema := run.schema;
      ok := run.ok;
    }

    /**
     * `record_message(data)`. In order: the stamp `now` and the day `today`
     * are read; `raw/<day>.jsonl` is opened for appending (creating it); the
     * line `{"timestamp": stamp, **data}` is written, which raises unless
     * `data` is an object; the row is bound and inserted and committed; the
     * progress line slices the sender, which can raise after the commit.
     * `completed` is false when any step raised.
     */
    method RecordMessage(data: Value, now: DateTime, today: DateTime, faults: Faults) returns (completed: bool)
      requires Valid() && ValidDateTime(now) && ValidDateTime(today)
      modifies this
      ensures Valid()
      ensures rawDir == old(rawDir) && schema == old(schema)
      ensures raw == LoggedRaw(old(raw), old(rawDir), data, now, today, faults)
      ensures messages == StoredMessages(old(messages), old(rawDir), old(schema), data, now, faults)
      ensures completed <==> RowInserted(old(rawDir), old(schema), data, faults) && SenderSliceable(data.fields)
    {
      var written := WriteLog(data, now, today, faults);
      if !written {
        return false;
      }
      var inserted := InsertRow(data, now, faults);
      if !inserted {
        return false;
      }
      completed := SenderSliceable(data.fields);
    }

    /**
     * The first half of `record_message`: opens `raw/<day>.jsonl` for
     * appending, which creates it, and writes `{"timestamp": stamp, **data}`.
     * `written` is false when the open or the `**data` raised.
     */
    method WriteLog(data: Value, now: DateTime, today: DateTime, faults: Faults) returns (written: bool)
      requires ValidDateTime(now) && ValidDateTime(today)
      modifies this
      ensures written <==> LogWritten(old(rawDir), data, faults)
      ensures raw == LoggedRaw(old(raw), old(rawDir), data, now, today, faults)
      ensures rawDir == old(rawDir) && schema == old(schema) && messages == old(messages)
    {
      var stamp := Stamp(now);
      var day := DayName(today);
      if !rawDir || faults.openFails {
        return false;
      }
      if !data.Obj? {
        raw := Touch(raw, day);
        return false;
      }
      AppendAfterTouch(raw, day, LogLine(stamp, data.fields));
      raw := Append(Touch(raw, day), day, LogLine(stamp, data.fields));
      written := true;
    }

    /**
     * The second half of `record_message`, once the line is written: binds
     * the parameters, inserts the row and commits. `inserted` is false when
     * binding or the INSERT raised.
     */
    method InsertRow(data: Value, now: DateTime, faults: Faults) returns (inserted: bool)
      requires Valid() && ValidDateTime(now) && LogWritten(rawDir, data, faults)
      modifies this
      ensures Valid()
      ensures inserted <==> RowInserted(old(rawDir), old(schema), data, faults)
      ensures messages == StoredMessages(old(messages), old(rawDir), old(schema), data, now, faults)
      ensures rawDir == old(rawDir) && schema == old(schema) && raw == old(raw)
    {
      var row := DeriveRow(NextId(messages), Stamp(now), data.fields);
      if row.None? || !Schema.HasTable(schema, "messages", InsertColumns) || faults.insertFails {
        return false;
      }
      AppendKeepsIds(messages, row.value);
      messages := messages + [row.value];
      inserted := true;
    }

    /**
     * `search(query, limit)`: runs the query; the lines it prints are those
     * of the rows the cursor yields. `None` when the query raises: the table
     * or one of its columns is missing (`search` does not run `init_db`
     * first), or the pattern is too long for LIKE. The LIKE function raises
     * the first time it is called, so only when some row is scanned: the
     * table has rows and the limit is not 0 (`LIMIT 0` skips the scan).
     */
    method Search(query: string, limit: int) returns (lines: Option<seq<string>>)
      ensures lines.None? <==>
        !Schema.HasTable(schema, "messages", SearchColumns) || (|messages| > 0 && limit != 0 && PatternTooLong(query))
      ensures lines.Some? ==> |lines.value| == |Query(messages, query, limit)|
      ensures lines.Some? ==> forall i :: 0 <= i < |lines.value| ==> lines.value[i] == FormatLine(Query(messages, query, limit)[i])
    {
      if !Schema.HasTable(schema, "messages", SearchColumns) {
        return None;
      }
      if |messages| > 0 && limit != 0 && PatternTooLong(query) {
        return None;
      }
      var printed := PrintRows(Query(messages, query, limit));
      lines := Some(printed);
    }

    /** `stats()`: the report, or `None` when its queries raise for want of the table or a column. */
    method Stats() returns (report: Option<Report>)
      ensures report.None? <==> !Schema.HasTable(schema, "messages", StatsColumns)
      ensures report.Some? ==> report.value == RecorderQuery.Stats(messages)
    {
      if !Schema.HasTable(schema, "messages", StatsColumns) {
        return None;
      }
      report := Some(RecorderQuery.Stats(messages));
    }
  }

  /** The loop over the cursor: one printed line per row, in cursor order. */
  method PrintRows(rows: seq<Message>) returns (lines: seq<string>)
    ensures |lines| == |rows|
    ensures forall i :: 0 <= i < |rows| ==> lines[i] == FormatLine(rows[i])
  {
    lines := [];
    for i := 0 to |rows|
      invariant |lines| == i
      invariant forall j :: 0 <= j < i ==> lines[j] == FormatLine(rows[j])
    {
      lines := lines + [FormatLine(rows[i])];
    }
  }

  /** An HTTP response: status code and body. */
  datatype Response = Response(status: int, body: string)

  const Recorded: Response := Response(200, "{\"status\": \"recorded\"}")
  const ServerError: Response := Response(500, "")

  /**
   * `EngramHandler.do_POST` after the body has been read: `parsed` is what
   * `json.loads` made of it, `None` when it raised. Any exception from
   * parsing or recording gives 500.
   */
  method DoPost(store: Store, parsed: Option<Value>, now: DateTime, today: DateTime, faults: Faults)
    returns (response: Response)
    requires store.Valid() && ValidDateTime(now) && ValidDateTime(today)
    modifies store
    ensures store.Valid()
    ensures response == Recorded || response == ServerError
    ensures response == Recorded <==>
      parsed.Some? && RowInserted(old(store.rawDir), old(store.schema), parsed.value, faults)
      && SenderSliceable(parsed.value.fields)
    ensures response == Recorded ==> |store.messages| == |old(store.messages)| + 1
    ensures parsed.None? ==> unchanged(store)
    ensures store.rawDir == old(store.rawDir) && store.schema == old(store.schema)
    ensures parsed.Some? ==>
      store.raw == LoggedRaw(old(store.raw), old(store.rawDir), parsed.value, now, today, faults)
    ensures parsed.Some? ==>
      store.messages == StoredMessages(old(store.messages), old(store.rawDir), old(store.schema), parsed.value, now, faults)
    ensures parsed.Some? && !parsed.value.Obj? ==> store.messages == old(store.messages)
  {
    if parsed.None? {
      return ServerError;
    }
    var completed := store.RecordMessage(parsed.value, now, today, faults);
    response := if completed then Recorded else ServerError;
  }
}
