/**
 * The schema of an SQLite database file as a map from object name to object,
 * and the `CREATE TABLE IF NOT EXISTS` / `CREATE INDEX IF NOT EXISTS`
 * statements that both programs run at start-up.
 *
 * Tables and indexes share one namespace. "IF NOT EXISTS" turns a statement
 * into a no-op only when an object of the same kind already has the name;
 * a name held by an object of the other kind makes the statement raise. An
 * index statement also raises when its table does not exist or lacks the
 * column. Statements run one at a time in autocommit mode, so when one
 * raises, the ones before it stay applied and the ones after it never run.
 */
module Schema {
  import opened Wrappers

  datatype Object =
    | Table(columns: seq<string>)
    | Index(table: string, column: string)

  type Schema = map<string, Object>

  /** One `CREATE ... IF NOT EXISTS name ...` statement. */
  datatype Create = Create(name: string, obj: Object)

  /** `t` keeps every object of `s` as it is. */
  predicate Extends(t: Schema, s: Schema)
  {
    forall n :: n in s ==> n in t && t[n] == s[n]
  }

  /** One statement: the new schema, or `None` when it raises. */
  function Step(s: Schema, c: Create): (r: Option<Schema>)
    ensures r.Some? ==> Extends(r.value, s) && c.name in r.value
    ensures r.Some? && c.name in s ==> r.value == s
  {
    match c.obj
    case Table(_) =>
      if c.name in s then (if s[c.name].Table? then Some(s) else None)
      else Some(s[c.name := c.obj])
    case Index(t, col) =>
      if !(t in s && s[t].Table?) then None
      else if c.name in s then (if s[c.name].Index? then Some(s) else None)
      else if col in s[t].columns then Some(s[c.name := c.obj])
      else None
  }

  /** The outcome of running statements: the schema left behind and whether all of them ran. */
  datatype Run = Run(schema: Schema, ok: bool)

  /** Runs the statements in order, stopping at the first that raises. */
  function Apply(s: Schema, ddl: seq<Create>): (r: Run)
    ensures Extends(r.schema, s)
    decreases |ddl|
  {
    if |ddl| == 0 then Run(s, true)
    else match Step(s, ddl[0])
      case None => Run(s, false)
      case Some(s') => ExtendsTransitive(Apply(s', ddl[1..]).schema, s', s); Apply(s', ddl[1..])
  }

  lemma ExtendsTransitive(u: Schema, t: Schema, s: Schema)
    requires Extends(u, t) && Extends(t, s)
    ensures Extends(u, s)
  {
  }

  /**
   * A run that completes leaves every named object present; a run never
   * changes an object present before it, and adds only objects it names.
   */
  lemma {:induction false} ApplyEffect(s: Schema, ddl: seq<Create>)
    ensures Apply(s, ddl).ok ==> forall i :: 0 <= i < |ddl| ==> ddl[i].name in Apply(s, ddl).schema
    ensures forall n :: n in Apply(s, ddl).schema ==> n in s || exists i :: 0 <= i < |ddl| && ddl[i].name == n
    decreases |ddl|
  {
    if |ddl| > 0 && Step(s, ddl[0]).Some? {
      var s' := Step(s, ddl[0]).value;
      var r := Apply(s', ddl[1..]);
      ApplyEffect(s', ddl[1..]);
      if r.ok {
        forall i | 0 <= i < |ddl| ensures ddl[i].name in r.schema {
          if i > 0 {
            assert ddl[1..][i - 1] == ddl[i];
          }
        }
      }
      forall n | n in r.schema ensures n in s || exists i :: 0 <= i < |ddl| && ddl[i].name == n {
        if n !in s {
          if n in s' {
            assert ddl[0].name == n;
          } else {
            var i :| 0 <= i < |ddl[1..]| && ddl[1..][i].name == n;
            assert ddl[i + 1].name == n;
          }
        }
      }
    }
  }

  /** A statement that ran is a no-op on every schema that keeps what it produced. */
  lemma StepStable(s: Schema, c: Create, t: Schema)
    requires Step(s, c).Some? && Extends(t, Step(s, c).value)
    ensures Step(t, c) == Some(t)
  {
  }

  /** Statements that all ran are all no-ops on every schema that keeps what they produced. */
  lemma {:induction false} ApplyStable(s: Schema, ddl: seq<Create>, t: Schema)
    requires Apply(s, ddl).ok && Extends(t, Apply(s, ddl).schema)
    ensures Apply(t, ddl) == Run(t, true)
    decreases |ddl|
  {
    if |ddl| > 0 {
      var s' := Step(s, ddl[0]).value;
      ExtendsTransitive(t, Apply(s', ddl[1..]).schema, s');
      StepStable(s, ddl[0], t);
      ApplyStable(s', ddl[1..], t);
    }
  }

  /**
   * Running the start-up statements on what a first run left behind gives
   * the same outcome: the completed statements are no-ops and the one that
   * raised raises again.
   */
  lemma {:induction false} ApplyIdempotent(s: Schema, ddl: seq<Create>)
    ensures Apply(Apply(s, ddl).schema, ddl) == Apply(s, ddl)
    decreases |ddl|
  {
    if |ddl| > 0 && Step(s, ddl[0]).Some? {
      var s' := Step(s, ddl[0]).value;
      var r := Apply(s', ddl[1..]);
      StepStable(s, ddl[0], r.schema);
      ApplyIdempotent(s', ddl[1..]);
    }
  }

  /** The schema after `n` start-ups in a row. */
  function ApplyTimes(s: Schema, ddl: seq<Create>, n: nat): Schema
  {
    if n == 0 then s else Apply(ApplyTimes(s, ddl, n - 1), ddl).schema
  }

  /** Any positive number of start-ups leaves the schema of one. */
  lemma {:induction false} ApplyTimesOnce(s: Schema, ddl: seq<Create>, n: nat)
    requires n >= 1
    ensures ApplyTimes(s, ddl, n) == Apply(s, ddl).schema
  {
    if n > 1 {
      ApplyTimesOnce(s, ddl, n - 1);
      ApplyIdempotent(s, ddl);
    }
  }

  /**
   * A statement naming these columns of `name` (an INSERT, a SELECT) can
   * run: `name` is a table holding every column named.
   */
  predicate HasTable(s: Schema, name: string, cols: seq<string>)
  {
    name in s && s[name].Table? && forall c :: c in cols ==> c in s[name].columns
  }

  /** A schema that keeps the objects of another still has its tables and their columns. */
  lemma HasTableExtends(s: Schema, t: Schema, name: string, cols: seq<string>)
    requires HasTable(s, name, cols) && Extends(t, s)
    ensures HasTable(t, name, cols)
  {
  }
}
