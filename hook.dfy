/**
 * The hook handler (hooks/handler.ts): it records every gateway event into
 * a daily JSONL file and into the `events` table of `engram.db`.
 *
 * JavaScript `undefined` is modelled as `None`. `JSON.stringify` leaves out
 * the properties that hold `undefined`. The clock reading
 * (`new Date().toISOString()`) is a parameter, and so are the storage
 * failures that do not depend on the event.
 */
module Hook {
  import opened Wrappers
  import opened Json
  import Schema
  import RecorderRows
  import opened RawLog

  /** A JavaScript object; a property that holds `undefined` maps to `None`. */
  type JsObject = map<string, Option<Value>>

  /** `JSON.stringify(o)` of a plain object: the defined properties, as they are. */
  function Stringify(o: JsObject): (t: Text)
    ensures Loads(t).Obj?
    ensures forall k :: k in Loads(t).fields <==> k in o && o[k].Some?
    ensures forall k :: k in Loads(t).fields ==> Loads(t).fields[k] == o[k].value
  {
    Dumps(Obj(map k | k in o && o[k].Some? :: o[k].value))
  }

  /** An optional string property as it sits in an object literal. */
  function Prop(s: Option<string>): Option<Value>
  {
    if s.Some? then Some(Str(s.value)) else None
  }

  /** The argument of `recordEvent`. */
  datatype RecordArgs = RecordArgs(
    eventType: string,
    action: Option<string>,
    sessionKey: Option<string>,
    senderId: Option<string>,
    source: Option<string>,
    data: Option<JsObject>)

  /** `event.data` has its own property `k`. */
  predicate Overrides(e: RecordArgs, k: string)
  {
    e.data.Some? && k in e.data.value
  }

  /** The fixed part of the log entry's object literal. */
  function FixedFields(ts: string, e: RecordArgs): JsObject
  {
    map[
      "timestamp" := Some(Str(ts)),
      "type" := Some(Str(e.eventType)),
      "action" := Prop(e.action),
      "sessionKey" := Prop(e.sessionKey),
      "senderId" := Prop(e.senderId),
      "source" := Prop(e.source)]
  }

  /** `{timestamp, type, action, sessionKey, senderId, source, ...event.data}`. */
  function LogEntry(ts: string, e: RecordArgs): (o: JsObject)
    ensures o.Keys == FixedFields(ts, e).Keys + (if e.data.Some? then e.data.value.Keys else {})
    ensures forall k :: Overrides(e, k) ==> o[k] == e.data.value[k]
    ensures forall k :: k in FixedFields(ts, e) && !Overrides(e, k) ==> o[k] == FixedFields(ts, e)[k]
  {
    FixedFields(ts, e) + (if e.data.Some? then e.data.value else map[])
  }

  /** `timestamp.slice(0, 10)`. */
  function DayOf(ts: string): (d: string)
    ensures |d| == if |ts| < 10 then |ts| else 10
    ensures d == ts[..|d|]
  {
    if |ts| < 10 then ts else ts[..10]
  }

  /**
   * Unless `event.data` brings its own `timestamp`, the line written to a
   * day's file carries a timestamp that begins with that day.
   */
  lemma DayMatchesEntry(ts: string, e: RecordArgs)
    requires !Overrides(e, "timestamp")
    ensures "timestamp" in Loads(Stringify(LogEntry(ts, e))).fields
    ensures Loads(Stringify(LogEntry(ts, e))).fields["timestamp"] == Str(DayOf(ts) + ts[|DayOf(ts)|..])
  {
    assert ts == DayOf(ts) + ts[|DayOf(ts)|..];
  }

  /** `x || null` for a string: `undefined` and `""` both become NULL. */
  function OrNull(s: Option<string>): (r: Option<string>)
    ensures r.None? <==> s.None? || s.value == ""
    ensures r.Some? ==> r == s
  {
    if s.Some? && s.value != "" then s else None
  }

  /** One row of `events`. */
  datatype EventRow = EventRow(
    id: int,
    timestamp: string,
    eventType: string,
    action: Option<string>,
    sessionKey: Option<string>,
    senderId: Option<string>,
    source: Option<string>,
    data: Text)

  const EventColumns: seq<string> :=
    ["id", "timestamp", "event_type", "action", "session_key", "sender_id", "source", "data"]

  /** The columns `recordEvent` names in its INSERT. */
  const EventInsertColumns: seq<string> :=
    ["timestamp", "event_type", "action", "session_key", "sender_id", "source", "data"]

  /** The statements `getDb` runs through `db.exec`. */
  const HookDdl: seq<Schema.Create> := [
    Schema.Create("events", Schema.Table(EventColumns)),
    Schema.Create("idx_timestamp", Schema.Index("events", "timestamp")),
    Schema.Create("idx_session", Schema.Index("events", "session_key")),
    Schema.Create("idx_type", Schema.Index("events", "event_type"))
  ]

  /**
   * On a database holding none of the names it uses, `getDb` runs every
   * statement and the hook's INSERT can run afterwards.
   */
  lemma HookDdlRuns(s: Schema.Schema)
    requires "events" !in s && "idx_timestamp" !in s && "idx_session" !in s && "idx_type" !in s
    ensures Schema.Apply(s, HookDdl).ok
    ensures Schema.HasTable(Schema.Apply(s, HookDdl).schema, "events", EventInsertColumns)
  {
    var hd := HookDdl;
    var s1 := s[hd[0].name := hd[0].obj];
    var s2 := s1[hd[1].name := hd[1].obj];
    var s3 := s2[hd[2].name := hd[2].obj];
    var s4 := s3[hd[3].name := hd[3].obj];
    assert Schema.Apply(s, hd) == Schema.Apply(s1, hd[1..]);
    assert Schema.Apply(s1, hd[1..]) == Schema.Apply(s2, hd[2..]) by { assert hd[1..][0] == hd[1] && hd[1..][1..] == hd[2..]; }
    assert Schema.Apply(s2, hd[2..]) == Schema.Apply(s3, hd[3..]) by { assert hd[2..][0] == hd[2] && hd[2..][1..] == hd[3..]; }
    assert Schema.Apply(s3, hd[3..]) == Schema.Run(s4, true) by { assert hd[3..][0] == hd[3] && hd[3..][1..] == []; }
  }

  /**
   * On a database where `idx_timestamp` and `idx_session` already name
   * indexes, whatever they index, the hook's statements for those names do
   * nothing and the others create `events` and `idx_type`.
   */
  lemma HookDdlOverIndexes(t: Schema.Schema)
    requires "events" !in t && "idx_type" !in t
    requires "idx_timestamp" in t && t["idx_timestamp"].Index? && "idx_session" in t && t["idx_session"].Index?
    ensures Schema.Apply(t, HookDdl)
         == Schema.Run(t[HookDdl[0].name := HookDdl[0].obj][HookDdl[3].name := HookDdl[3].obj], true)
  {
    var hd := HookDdl;
    var t1 := t[hd[0].name := hd[0].obj];
    var t4 := t1[hd[3].name := hd[3].obj];
    assert Schema.Apply(t, hd) == Schema.Apply(t1, hd[1..]);
    assert Schema.Apply(t1, hd[1..]) == Schema.Apply(t1, hd[2..]) by { assert hd[1..][0] == hd[1] && hd[1..][1..] == hd[2..]; }
    assert Schema.Apply(t1, hd[2..]) == Schema.Apply(t1, hd[3..]) by { assert hd[2..][0] == hd[2] && hd[2..][1..] == hd[3..]; }
    assert Schema.Apply(t1, hd[3..]) == Schema.Run(t4, true) by { assert hd[3..][0] == hd[3] && hd[3..][1..] == []; }
  }

  /**
   * When both programs use the same `engram.db` and the recorder's
   * statements ran first, the hook's statements for the shared index names
   * `idx_timestamp` and `idx_session` do nothing: both indexes stay on
   * `messages`, the `events` table gets only `idx_type`, and every statement
   * still succeeds, so the hook's INSERT runs.
   */
  lemma SharedIndexNamesSkipped(s: Schema.Schema)
    requires "messages" !in s && "events" !in s
    requires "idx_timestamp" !in s && "idx_session" !in s && "idx_sender" !in s && "idx_type" !in s
    ensures Schema.Apply(s, RecorderRows.RecorderDdl).ok
    ensures var t := Schema.Apply(Schema.Apply(s, RecorderRows.RecorderDdl).schema, HookDdl);
      && t.ok
      && "idx_timestamp" in t.schema && t.schema["idx_timestamp"] == Schema.Index("messages", "timestamp")
      && "idx_session" in t.schema && t.schema["idx_session"] == Schema.Index("messages", "session_key")
      && "idx_type" in t.schema && t.schema["idx_type"] == Schema.Index("events", "event_type")
      && Schema.HasTable(t.schema, "events", EventInsertColumns)
  {
    RecorderRows.RecorderDdlRuns(s);
    var r := s + RecorderRows.RecorderObjects;
    HookDdlOverIndexes(r);
  }

  /** The row `recordEvent` inserts. */
  function DeriveEvent(id: int, ts: string, e: RecordArgs): (r: EventRow)
    ensures r.id == id && r.timestamp == ts && r.eventType == e.eventType
    ensures r.action.None? <==> e.action.None? || e.action.value == ""
    ensures r.sessionKey.None? <==> e.sessionKey.None? || e.sessionKey.value == ""
    ensures r.senderId.None? <==> e.senderId.None? || e.senderId.value == ""
    ensures r.source.None? <==> e.source.None? || e.source.value == ""
    ensures r.action.Some? ==> r.action == e.action
    ensures r.sessionKey.Some? ==> r.sessionKey == e.sessionKey
    ensures r.senderId.Some? ==> r.senderId == e.senderId
    ensures r.source.Some? ==> r.source == e.source
    ensures e.data.None? ==> Loads(r.data) == Obj(map[])
    ensures e.data.Some? ==> r.data == Stringify(e.data.value)
  {
    EventRow(id, ts, e.eventType, OrNull(e.action), OrNull(e.sessionKey), OrNull(e.senderId), OrNull(e.source),
             Stringify(if e.data.Some? then e.data.value else map[]))
  }

  /** Row ids are positive and increase along the table. */
  predicate IdsIncreasing(rows: seq<EventRow>)
  {
    && (forall i :: 0 <= i < |rows| ==> rows[i].id >= 1)
    && (forall i, j :: 0 <= i < j < |rows| ==> rows[i].id < rows[j].id)
  }

  /** The id `AUTOINCREMENT` gives: above every id used, 1 in a new table (rows are never deleted here). */
  function NextId(rows: seq<EventRow>): (n: int)
    requires IdsIncreasing(rows)
    ensures n >= 1
    ensures forall i :: 0 <= i < |rows| ==> rows[i].id < n
  {
    if |rows| == 0 then 1 else rows[|rows| - 1].id + 1
  }

  /** A `better-sqlite3` database handle. */
  class Connection {
    constructor ()
    {
    }
  }

  /** Failures outside the event's control: the append, opening the database, the schema statements, the INSERT. */
  datatype Faults = Faults(appendFails: bool, openFails: bool, execFails: bool, runFails: bool)

  /**
   * `db.exec` of the schema statements: with `execFails` it raises before
   * the first statement (the database is locked or unreadable); otherwise
   * the statements run in order until one raises.
   */
  function Exec(schema: Schema.Schema, execFails: bool): (r: Schema.Run)
    ensures Schema.Extends(r.schema, schema)
  {
    if execFails then Schema.Run(schema, false) else Schema.Apply(schema, HookDdl)
  }

  /** The schema after `getDb`: the statements run only on the call that opens the database. */
  function SchemaAfterGetDb(dbOpen: bool, schema: Schema.Schema, openFails: bool, execFails: bool): (r: Schema.Schema)
    ensures Schema.Extends(r, schema)
    ensures dbOpen || openFails ==> r == schema
  {
    if dbOpen || openFails then schema else Exec(schema, execFails).schema
  }

  /** `getDb` returns a handle instead of throwing. */
  predicate GetDbReturns(dbOpen: bool, schema: Schema.Schema, openFails: bool, execFails: bool)
  {
    dbOpen || (!openFails && Exec(schema, execFails).ok)
  }

  /** The INSERT of `recordEvent` runs and commits. */
  predicate EventInserted(dbOpen: bool, schema: Schema.Schema, faults: Faults)
  {
    && !faults.appendFails
    && GetDbReturns(dbOpen, schema, faults.openFails, faults.execFails)
    && Schema.HasTable(SchemaAfterGetDb(dbOpen, schema, faults.openFails, faults.execFails), "events", EventInsertColumns)
    && !faults.runFails
  }

  /**
   * Without outside failures the first call on a database lacking the
   * hook's names stores its row, and so does every call once the table
   * exists and the handle is open.
   */
  lemma EventInsertedWhenHealthy(schema: Schema.Schema, appendFails: bool, runFails: bool)
    ensures "events" !in schema && "idx_timestamp" !in schema && "idx_session" !in schema && "idx_type" !in schema
            ==> EventInserted(false, schema, Faults(false, false, false, false))
    ensures Schema.HasTable(schema, "events", EventInsertColumns)
            ==> (EventInserted(true, schema, Faults(appendFails, true, true, runFails)) <==> !appendFails && !runFails)
  {
    if "events" !in schema && "idx_timestamp" !in schema && "idx_session" !in schema && "idx_type" !in schema {
      HookDdlRuns(schema);
    }
  }

  /** The `raw` directory after `recordEvent(e)` at time `ts`. */
  function LoggedRaw(raw: Log, ts: string, e: RecordArgs, faults: Faults): Log
  {
    if faults.appendFails then raw else Append(raw, DayOf(ts), Stringify(LogEntry(ts, e)))
  }

  /** The `events` table after `recordEvent(e)` at time `ts`. */
  function StoredEvents(events: seq<EventRow>, dbOpen: bool, schema: Schema.Schema, ts: string, e: RecordArgs,
                        faults: Faults): seq<EventRow>
    requires IdsIncreasing(events)
  {
    if EventInserted(dbOpen, schema, faults) then events + [DeriveEvent(NextId(events), ts, e)] else events
  }

  /** The schema after `recordEvent`: a failed append ends the call before `getDb`. */
  function SchemaAfterRecord(dbOpen: bool, schema: Schema.Schema, faults: Faults): Schema.Schema
  {
    if faults.appendFails then schema else SchemaAfterGetDb(dbOpen, schema, faults.openFails, faults.execFails)
  }

  /** The module's state: the lazily opened handle, the database and the `raw` directory. */
  class HookStore {
    /** The module-level `db`, null until `getDb` opens the database. */
    var db: Connection?
    var schema: Schema.Schema
    /** The `events` table, in id order. */
    var events: seq<EventRow>
    /** The `raw` directory, which module load creates: day to the lines of `<day>.jsonl`. */
    var raw: Log

    /** Ids increase along the table, and rows exist only in an `events` table. */
    ghost predicate Valid()
      reads this
    {
      && IdsIncreasing(events)
      && (|events| > 0 ==> "events" in schema && schema["events"].Table?)
    }

    /** Loading the module: `RAW_DIR` is created when absent and `db` starts out null. */
    constructor Load(schema0: Schema.Schema, events0: seq<EventRow>, raw0: Log)
      requires IdsIncreasing(events0)
      requires |events0| > 0 ==> "events" in schema0 && schema0["events"].Table?
      ensures Valid()
      ensures db == null
      ensures schema == schema0 && events == events0 && raw == raw0
    {
      db := null;
      schema, events, raw := schema0, events0, raw0;
    }

    /**
     * `getDb`: the first call that gets past `new Database` stores the handle
     * and runs the schema statements; every later call returns that handle
     * and runs nothing. A failing `exec` throws after `db` is set, so the
     * statements are never retried.
     */
    method GetDb(openFails: bool, execFails: bool) returns (conn: Option<Connection>)
      requires Valid()
      modifies this
      ensures Valid()
      ensures events == old(events) && raw == old(raw)
      ensures schema == SchemaAfterGetDb(old(db) != null, old(schema), openFails, execFails)
      ensures conn.Some? <==> GetDbReturns(old(db) != null, old(schema), openFails, execFails)
      ensures conn.Some? ==> conn.value == db
      ensures old(db) != null ==> db == old(db)
      ensures old(db) == null ==> (db != null <==> !openFails)
      ensures old(db) == null && db != null ==> fresh(db)
    {
      if db == null {
        if openFails {
          return None;
        }
        var handle := new Connection();
        db := handle;
        var run := Exec(schema, execFails);
        schema := run.schema;
        if !run.ok {
          return None;
        }
      }
      conn := Some(db);
    }

    /**
     * `recordEvent`: appends the log entry to the day's file, then inserts the
     * row inside a try block. Only a failed append makes the call throw;
     * every failure of `getDb` or of the INSERT is caught.
     */
    method RecordEvent(e: RecordArgs, ts: string, faults: Faults) returns (threw: bool)
      requires Valid()
      modifies this
      ensures Valid()
      ensures threw <==> faults.appendFails
      ensures raw == LoggedRaw(old(raw), ts, e, faults)
      ensures events == StoredEvents(old(events), old(db) != null, old(schema), ts, e, faults)
      ensures schema == SchemaAfterRecord(old(db) != null, old(schema), faults)
      ensures faults.appendFails || old(db) != null ==> db == old(db)
      ensures !faults.appendFails && old(db) == null ==> (db != null <==> !faults.openFails)
      ensures old(db) == null && db != null ==> fresh(db)
    {
      if faults.appendFails {
        return true;
      }
      raw := Append(raw, DayOf(ts), Stringify(LogEntry(ts, e)));
      var conn := GetDb(faults.openFails, faults.execFails);
      if conn.Some? && Schema.HasTable(schema, "events", EventInsertColumns) && !faults.runFails {
        var row := DeriveEvent(NextId(events), ts, e);
        events := events + [row];
      }
      threw := false;
    }
  }

  /** What the gateway passes to the hook. */
  datatype Context = Context(
    senderId: Option<string>,
    commandSource: Option<string>,
    workspaceDir: Option<string>,
    sessionId: Option<string>)

  datatype HookEvent = HookEvent(
    eventType: string,
    action: Option<string>,
    sessionKey: Option<string>,
    context: Option<Context>)

  /** A missing context reads as one whose every field is `undefined`, as `context?.field` does. */
  const NoContext: Context := Context(None, None, None, None)

  /** The argument `handler` passes to `recordEvent`. */
  function HookArgs(h: HookEvent): (a: RecordArgs)
    ensures a.eventType == h.eventType && a.action == h.action && a.sessionKey == h.sessionKey
    ensures h.context.None? ==> a.senderId.None? && a.source.None?
    ensures h.context.Some? ==> a.senderId == h.context.value.senderId && a.source == h.context.value.commandSource
    ensures a.data.Some? && a.data.value.Keys == {"workspaceDir", "sessionId"}
    ensures h.context.None? ==> a.data.value["workspaceDir"].None? && a.data.value["sessionId"].None?
    ensures h.context.Some? ==> a.data.value["workspaceDir"] == Prop(h.context.value.workspaceDir)
    ensures h.context.Some? ==> a.data.value["sessionId"] == Prop(h.context.value.sessionId)
  {
    var c := if h.context.Some? then h.context.value else NoContext;
    RecordArgs(
      h.eventType, h.action, h.sessionKey, c.senderId, c.commandSource,
      Some(map["workspaceDir" := Prop(c.workspaceDir), "sessionId" := Prop(c.sessionId)]))
  }

  /**
   * For events coming through `handler`, the entry's timestamp is always the
   * clock's, and the `data` column holds just the defined ones of the
   * workspace directory and the session id.
   */
  lemma HandlerEntry(h: HookEvent, ts: string)
    ensures !Overrides(HookArgs(h), "timestamp")
    ensures Loads(Stringify(LogEntry(ts, HookArgs(h)))).fields["timestamp"] == Str(ts)
    ensures Loads(DeriveEvent(0, ts, HookArgs(h)).data).fields.Keys <= {"workspaceDir", "sessionId"}
    ensures "sessionId" in Loads(DeriveEvent(0, ts, HookArgs(h)).data).fields
            <==> h.context.Some? && h.context.value.sessionId.Some?
  {
    var a := HookArgs(h);
    assert "timestamp" !in a.data.value;
  }

  /** `handler`: records the event; the promise rejects exactly when the append fails. */
  method Handler(store: HookStore, h: HookEvent, ts: string, faults: Faults) returns (rejected: bool)
    requires store.Valid()
    modifies store
    ensures store.Valid()
    ensures rejected <==> faults.appendFails
    ensures store.raw == LoggedRaw(old(store.raw), ts, HookArgs(h), faults)
    ensures store.events == StoredEvents(old(store.events), old(store.db) != null, old(store.schema), ts, HookArgs(h), faults)
    ensures store.schema == SchemaAfterRecord(old(store.db) != null, old(store.schema), faults)
    ensures faults.appendFails || old(store.db) != null ==> store.db == old(store.db)
    ensures !faults.appendFails && old(store.db) == null ==> (store.db != null <==> !faults.openFails)
    ensures old(store.db) == null && store.db != null ==> fresh(store.db)
  {
    rejected := store.RecordEvent(HookArgs(h), ts, faults);
  }
}
