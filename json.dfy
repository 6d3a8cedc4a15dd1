/**
 * JSON documents as values. Only integer numbers are modelled. The byte
 * format that `json.dumps` and `JSON.stringify` produce is left abstract:
 * a serialised document is a `Text` that remembers the value it encodes.
 */
module Json {
  datatype Value =
    | Null
    | Bool(b: bool)
    | Int(i: int)
    | Str(s: string)
    | Arr(items: seq<Value>)
    | Obj(fields: map<string, Value>)

  /** The serialised text of a document; its characters are not modelled. */
  datatype Text = Serialised(doc: Value)

  /** Serialisation (`json.dumps`, `JSON.stringify`); parsing the text gives the value back. */
  function Dumps(v: Value): (t: Text)
    ensures Loads(t) == v
  {
    Serialised(v)
  }

  /** Parsing of a text that was produced by `Dumps`. */
  function Loads(t: Text): Value
  {
    t.doc
  }

  /** Two documents serialise to the same text only if they are equal. */
  lemma DumpsInjective(v: Value, w: Value)
    requires Dumps(v) == Dumps(w)
    ensures v == w
  {
    assert Loads(Dumps(v)) == Loads(Dumps(w));
  }
}
