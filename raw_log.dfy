/**
 * The `raw` directory both programs append to: one JSON-Lines file per UTC
 * day, named `<YYYY-MM-DD>.jsonl`, modelled as a map from day to its lines.
 */
module RawLog {
  import opened Json

  type Log = map<string, seq<Text>>

  /** The lines of one day's file; a file that does not exist has none. */
  function Lines(log: Log, day: string): (ls: seq<Text>)
    ensures day !in log ==> ls == []
    ensures day in log ==> ls == log[day]
  {
    if day in log then log[day] else []
  }

  /** Opening a day's file for appending: the file exists afterwards and no line changes. */
  function Touch(log: Log, day: string): (r: Log)
    ensures r.Keys == log.Keys + {day}
    ensures forall d :: Lines(r, d) == Lines(log, d)
  {
    log[day := Lines(log, day)]
  }

  /** Appending one line to a day's file, creating the file if needed. */
  function Append(log: Log, day: string, line: Text): (r: Log)
    ensures r.Keys == log.Keys + {day}
    ensures Lines(r, day) == Lines(log, day) + [line]
    ensures forall d :: d != day ==> Lines(r, d) == Lines(log, d)
  {
    log[day := Lines(log, day) + [line]]
  }

  /** Appending to a file that was opened first is appending to it. */
  lemma AppendAfterTouch(log: Log, day: string, line: Text)
    ensures Append(Touch(log, day), day, line) == Append(log, day, line)
  {
  }
}
