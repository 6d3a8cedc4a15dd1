/**
 * The `messages` table of the recorder (src/recorder.py) and how one
 * submitted event becomes a log line and a table row.
 *
 * Parameters are bound by Python's sqlite3 module: `None` becomes NULL, a
 * `str` text, a `bool` or an `int` an INTEGER (an `int` outside 64 bits
 * raises `OverflowError`), and a `list` or `dict` raises because the type is
 * not supported. The scalar columns are declared TEXT, and a column with TEXT
 * affinity stores an INTEGER as its decimal text.
 */
module RecorderRows {
  import opened Wrappers
  import opened Json
  import Schema
  import IsoTime

  /** The value of a TEXT column: NULL or a text. */
  type Cell = Option<string>

  /** One row of `messages`. */
  datatype Message = Message(
    id: int,
    timestamp: string,
    sessionKey: Cell,
    direction: Cell,
    channel: Cell,
    sender: Cell,
    content: Cell,
    toolCalls: Text,
    raw: Text)

  const MessageColumns: seq<string> :=
    ["id", "timestamp", "session_key", "direction", "channel", "sender", "content", "tool_calls", "raw"]

  /** The columns `record_message` names in its INSERT. */
  const InsertColumns: seq<string> :=
    ["timestamp", "session_key", "direction", "channel", "sender", "content", "tool_calls", "raw"]

  /** The statements of `init_db`, in order. */
  const RecorderDdl: seq<Schema.Create> := [
    Schema.Create("messages", Schema.Table(MessageColumns)),
    Schema.Create("idx_timestamp", Schema.Index("messages", "timestamp")),
    Schema.Create("idx_session", Schema.Index("messages", "session_key")),
    Schema.Create("idx_sender", Schema.Index("messages", "sender"))
  ]

  /** The objects `init_db` creates on a database that has none of them. */
  const RecorderObjects: Schema.Schema := map[
    "messages" := Schema.Table(MessageColumns),
    "idx_timestamp" := Schema.Index("messages", "timestamp"),
    "idx_session" := Schema.Index("messages", "session_key"),
    "idx_sender" := Schema.Index("messages", "sender")]

  /**
   * On a database holding none of the names it uses, `init_db` runs every
   * statement and the recorder's INSERT can run afterwards.
   */
  lemma RecorderDdlRuns(s: Schema.Schema)
    requires "messages" !in s && "idx_timestamp" !in s && "idx_session" !in s && "idx_sender" !in s
    ensures Schema.Apply(s, RecorderDdl).ok
    ensures Schema.Apply(s, RecorderDdl).schema == s + RecorderObjects
    ensures Schema.HasTable(Schema.Apply(s, RecorderDdl).schema, "messages", InsertColumns)
  {
    var rd := RecorderDdl;
    var s1 := s[rd[0].name := rd[0].obj];
    var s2 := s1[rd[1].name := rd[1].obj];
    var s3 := s2[rd[2].name := rd[2].obj];
    var s4 := s3[rd[3].name := rd[3].obj];
    assert Schema.Apply(s, rd) == Schema.Apply(s1, rd[1..]);
    assert Schema.Apply(s1, rd[1..]) == Schema.Apply(s2, rd[2..]) by { assert rd[1..][0] == rd[1] && rd[1..][1..] == rd[2..]; }
    assert Schema.Apply(s2, rd[2..]) == Schema.Apply(s3, rd[3..]) by { assert rd[2..][0] == rd[2] && rd[2..][1..] == rd[3..]; }
    assert Schema.Apply(s3, rd[3..]) == Schema.Run(s4, true) by { assert rd[3..][0] == rd[3] && rd[3..][1..] == []; }
    assert s4 == s + RecorderObjects;
  }

  /**
   * A `messages` table of another shape is kept, and then the first index
   * statement raises on its missing column: `init_db` fails and the schema
   * is left as it was.
   */
  lemma InitDbRaisesOnForeignTable()
    ensures !Schema.Apply(map["messages" := Schema.Table(["id"])], RecorderDdl).ok
    ensures Schema.Apply(map["messages" := Schema.Table(["id"])], RecorderDdl).schema == map["messages" := Schema.Table(["id"])]
  {
    var s := map["messages" := Schema.Table(["id"])];
    var rd := RecorderDdl;
    assert Schema.Apply(s, rd) == Schema.Apply(s, rd[1..]);
    assert Schema.Step(s, rd[1]).None?;
    assert Schema.Apply(s, rd[1..]) == Schema.Run(s, false) by { assert rd[1..][0] == rd[1]; }
  }

  // ---------------------------------------------------------------------
  // Row ids
  // ---------------------------------------------------------------------

  /** Row ids are positive and increase along the table. */
  predicate IdsIncreasing(rows: seq<Message>)
  {
    && (forall i :: 0 <= i < |rows| ==> rows[i].id >= 1)
    && (forall i, j :: 0 <= i < j < |rows| ==> rows[i].id < rows[j].id)
  }

  /** The id SQLite gives a new `INTEGER PRIMARY KEY` row: one more than the largest, 1 in an empty table. */
  function NextId(rows: seq<Message>): (n: int)
    requires IdsIncreasing(rows)
    ensures n >= 1
    ensures forall i :: 0 <= i < |rows| ==> rows[i].id < n
  {
    if |rows| == 0 then 1 else rows[|rows| - 1].id + 1
  }

  /** Appending a row with the next id keeps ids increasing. */
  lemma AppendKeepsIds(rows: seq<Message>, m: Message)
    requires IdsIncreasing(rows) && m.id == NextId(rows)
    ensures IdsIncreasing(rows + [m])
  {
  }

  // ---------------------------------------------------------------------
  // Binding parameters into TEXT columns
  // ---------------------------------------------------------------------

  const Int64Min: int := -0x8000_0000_0000_0000
  const Int64Max: int := 0x7fff_ffff_ffff_ffff

  /** The number a string of decimal digits spells. */
  function DecimalValue(s: string): int
  {
    if |s| == 0 then 0 else 10 * DecimalValue(s[..|s| - 1]) + (s[|s| - 1] as int - '0' as int)
  }

  /** `n` in decimal: digits only, no leading zero, spelling `n`. */
  function NatDecimal(n: nat): (s: string)
    ensures |s| >= 1
    ensures forall i :: 0 <= i < |s| ==> '0' <= s[i] <= '9'
    ensures |s| == 1 || s[0] != '0'
    ensures s[0] == '0' ==> n == 0
    ensures DecimalValue(s) == n
  {
    if n < 10 then [IsoTime.Digit(n)]
    else
      var s := NatDecimal(n / 10) + [IsoTime.Digit(n % 10)];
      assert s[..|s| - 1] == NatDecimal(n / 10);
      s
  }

  /** How SQLite writes an INTEGER as text: a minus sign exactly for negatives, then the magnitude. */
  function Decimal(i: int): (s: string)
    ensures |s| >= 1
    ensures s[0] == '-' <==> i < 0
    ensures i >= 0 ==> DecimalValue(s) == i
    ensures i < 0 ==> DecimalValue(s[1..]) == -i
  {
    if i < 0 then
      assert ("-" + NatDecimal(-i))[1..] == NatDecimal(-i);
      "-" + NatDecimal(-i)
    else NatDecimal(i)
  }

  /** `dict.get(key)`: the value, or `None` when the key is absent. */
  function Get(data: map<string, Value>, key: string): Option<Value>
  {
    if key in data then Some(data[key]) else None
  }

  /** sqlite3 can bind the value (a missing key is bound as `None`). */
  predicate Bindable(v: Option<Value>)
  {
    v.None? || !(v.value.Arr? || v.value.Obj? || (v.value.Int? && !(Int64Min <= v.value.i <= Int64Max)))
  }

  /** The TEXT column value stored for a bindable parameter. */
  function BindText(v: Option<Value>): (c: Cell)
    requires Bindable(v)
    ensures ColumnFrom(c, v)
  {
    if v.None? then None
    else match v.value
      case Null => None
      case Bool(b) => Some(if b then "1" else "0")
      case Int(i) => Some(Decimal(i))
      case Str(s) => Some(s)
  }

  /**
   * The column holds what the event held at that key: NULL for an absent key
   * or a JSON null, the string itself for a string, the SQLite text form of
   * a boolean or an integer.
   */
  predicate ColumnFrom(cell: Cell, v: Option<Value>)
  {
    && ((v.None? || v.value.Null?) ==> cell.None?)
    && (v.Some? && v.value.Str? ==> cell == Some(v.value.s))
    && (v.Some? && v.value.Bool? ==> cell == Some(if v.value.b then "1" else "0"))
    && (v.Some? && v.value.Int? ==> cell == Some(Decimal(v.value.i)))
  }

  /** The keys copied into scalar columns. */
  predicate ScalarsBindable(data: map<string, Value>)
  {
    && Bindable(Get(data, "session_key")) && Bindable(Get(data, "direction"))
    && Bindable(Get(data, "channel")) && Bindable(Get(data, "sender"))
    && Bindable(Get(data, "content"))
  }

  /**
   * The row `record_message` inserts for event `data` at server stamp
   * `stamp`, or `None` when binding the parameters raises.
   */
  function DeriveRow(id: int, stamp: string, data: map<string, Value>): (r: Option<Message>)
    ensures r.Some? <==> ScalarsBindable(data)
    ensures r.Some? ==> r.value.id == id && r.value.timestamp == stamp
    ensures r.Some? ==>
      && ColumnFrom(r.value.sessionKey, Get(data, "session_key"))
      && ColumnFrom(r.value.direction, Get(data, "direction"))
      && ColumnFrom(r.value.channel, Get(data, "channel"))
      && ColumnFrom(r.value.sender, Get(data, "sender"))
      && ColumnFrom(r.value.content, Get(data, "content"))
    ensures r.Some? ==> Loads(r.value.toolCalls) == (if "tool_calls" in data then data["tool_calls"] else Arr([]))
    ensures r.Some? ==> Loads(r.value.raw) == Obj(data)
  {
    if !ScalarsBindable(data) then None
    else Some(Message(
      id, stamp,
      BindText(Get(data, "session_key")),
      BindText(Get(data, "direction")),
      BindText(Get(data, "channel")),
      BindText(Get(data, "sender")),
      BindText(Get(data, "content")),
      Dumps(if "tool_calls" in data then data["tool_calls"] else Arr([])),
      Dumps(Obj(data))))
  }

  /** A client `"timestamp"` key reaches the raw column but never the timestamp column. */
  lemma ClientTimestampIgnored(id: int, stamp: string, data: map<string, Value>, claimed: Value)
    requires ScalarsBindable(data)
    ensures ScalarsBindable(data["timestamp" := claimed])
    ensures DeriveRow(id, stamp, data["timestamp" := claimed]).value.timestamp == stamp
    ensures Loads(DeriveRow(id, stamp, data["timestamp" := claimed]).value.raw).fields["timestamp"] == claimed
  {
    var d := data["timestamp" := claimed];
    assert Get(d, "session_key") == Get(data, "session_key") && Get(d, "direction") == Get(data, "direction");
    assert Get(d, "channel") == Get(data, "channel") && Get(d, "sender") == Get(data, "sender");
    assert Get(d, "content") == Get(data, "content");
  }

  // ---------------------------------------------------------------------
  // The raw log line
  // ---------------------------------------------------------------------

  /** `json.dumps({"timestamp": stamp, **data})`. */
  function LogLine(stamp: string, data: map<string, Value>): (t: Text)
    ensures Loads(t).Obj?
    ensures Loads(t).fields.Keys == data.Keys + {"timestamp"}
    ensures forall k :: k in data ==> Loads(t).fields[k] == data[k]
    ensures "timestamp" !in data ==> Loads(t).fields["timestamp"] == Str(stamp)
  {
    Dumps(Obj(map["timestamp" := Str(stamp)] + data))
  }

  /** The log line is the raw column's document plus the server stamp, unless the event brought its own. */
  lemma LogLineExtendsRaw(id: int, stamp: string, data: map<string, Value>)
    requires ScalarsBindable(data) && "timestamp" !in data
    ensures Loads(LogLine(stamp, data)).fields == Loads(DeriveRow(id, stamp, data).value.raw).fields["timestamp" := Str(stamp)]
  {
  }

  /**
   * The progress line printed after the commit slices
   * `data.get('sender', '?')[:20]`, which raises unless the sender is
   * absent, a string or a list.
   */
  predicate SenderSliceable(data: map<string, Value>)
  {
    "sender" !in data || data["sender"].Str? || data["sender"].Arr?
  }

  /** A null sender is stored and then makes the call raise: a failed call may still have recorded. */
  lemma NullSenderRaisesAfterInsert(id: int, stamp: string)
    ensures DeriveRow(id, stamp, map["sender" := Null]).Some?
    ensures !SenderSliceable(map["sender" := Null])
  {
    assert Get(map["sender" := Null], "content") == None;
  }
}
