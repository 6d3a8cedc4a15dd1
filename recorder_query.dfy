/**
 * The read side of the recorder (src/recorder.py): the rows `search` selects
 * and the text it shows for each, and the aggregates `stats` reads.
 */
module RecorderQuery {
  import opened Wrappers
  import opened SqlText
  import opened RecorderRows

  // ---------------------------------------------------------------------
  // search: WHERE content LIKE '%q%' ORDER BY timestamp DESC LIMIT n
  // ---------------------------------------------------------------------

  /** `content LIKE '%query%'` is true: a NULL content never is. */
  predicate Matches(content: Cell, query: string)
  {
    content.Some? && LikeOperator("%" + query + "%", content.value)
  }

  /** The pattern `'%' || query || '%'` is longer than the LIKE function accepts. */
  predicate PatternTooLong(query: string)
  {
    Utf8Length("%" + query + "%") > LikePatternLimit
  }

  /** A query of at most 12498 characters is always accepted; one of more than 49998 never is. */
  lemma PatternLength(query: string)
    ensures |query| <= 12498 ==> !PatternTooLong(query)
    ensures |query| > 49998 ==> PatternTooLong(query)
  {
    var p := "%" + query + "%";
    assert |p| == |query| + 2;
  }

  /** The rows the WHERE clause keeps, in table order. */
  function Filter(rows: seq<Message>, query: string): (r: seq<Message>)
    ensures forall x :: multiset(r)[x] == if Matches(x.content, query) then multiset(rows)[x] else 0
    ensures forall i :: 0 <= i < |r| ==> Matches(r[i].content, query)
  {
    if |rows| == 0 then []
    else
      var last := rows[|rows| - 1];
      assert rows == rows[..|rows| - 1] + [last];
      Filter(rows[..|rows| - 1], query) + (if Matches(last.content, query) then [last] else [])
  }

  /** Non-increasing timestamps, compared as text. */
  predicate SortedDesc(rows: seq<Message>)
  {
    forall i, j :: 0 <= i < j < |rows| ==> LexLe(rows[j].timestamp, rows[i].timestamp)
  }

  /** Places `m` ahead of the first row whose timestamp is not after its own. */
  function InsertDesc(sorted: seq<Message>, m: Message): (r: seq<Message>)
    requires SortedDesc(sorted)
    ensures SortedDesc(r)
    ensures multiset(r) == multiset(sorted) + multiset{m}
  {
    if |sorted| == 0 then [m]
    else if LexLe(sorted[0].timestamp, m.timestamp) then
      FrontSorted(sorted, m);
      [m] + sorted
    else
      var rest := InsertDesc(sorted[1..], m);
      assert sorted == [sorted[0]] + sorted[1..];
      LexLeTotal(sorted[0].timestamp, m.timestamp);
      BehindHeadSorted(sorted, m, rest);
      [sorted[0]] + rest
  }

  /** A row no older than the head of a sorted list can go in front of it. */
  lemma FrontSorted(sorted: seq<Message>, m: Message)
    requires SortedDesc(sorted) && |sorted| > 0 && LexLe(sorted[0].timestamp, m.timestamp)
    ensures SortedDesc([m] + sorted)
  {
    forall j | 0 < j < |sorted| + 1 ensures LexLe(([m] + sorted)[j].timestamp, m.timestamp) {
      if j > 1 {
        LexLeTransitive(sorted[j - 1].timestamp, sorted[0].timestamp, m.timestamp);
      }
    }
  }

  /** The head stays in front when the rest, with `m` inserted, is no newer than it. */
  lemma BehindHeadSorted(sorted: seq<Message>, m: Message, rest: seq<Message>)
    requires SortedDesc(sorted) && |sorted| > 0 && LexLe(m.timestamp, sorted[0].timestamp)
    requires SortedDesc(rest) && multiset(rest) == multiset(sorted[1..]) + multiset{m}
    ensures SortedDesc([sorted[0]] + rest)
  {
    forall j | 0 <= j < |rest| ensures LexLe(rest[j].timestamp, sorted[0].timestamp) {
      var x := rest[j];
      assert x in multiset(rest);
      if x != m {
        assert x in multiset(sorted[1..]);
        var k :| 0 <= k < |sorted[1..]| && sorted[1..][k] == x;
        assert sorted[k + 1] == x;
      }
    }
  }

  /** Insertion sort by timestamp, newest first; among equal timestamps the later row comes first. */
  function SortDesc(rows: seq<Message>): (r: seq<Message>)
    ensures SortedDesc(r)
    ensures multiset(r) == multiset(rows)
  {
    if |rows| == 0 then []
    else
      assert rows == rows[..|rows| - 1] + [rows[|rows| - 1]];
      InsertDesc(SortDesc(rows[..|rows| - 1]), rows[|rows| - 1])
  }

  /** `LIMIT limit`: a negative limit means no limit in SQLite. */
  function Take(rows: seq<Message>, limit: int): seq<Message>
  {
    if limit < 0 || limit >= |rows| then rows else rows[..limit]
  }

  /** The rows `search(query, limit)` prints, in the order it prints them. */
  function Query(rows: seq<Message>, query: string, limit: int): (r: seq<Message>)
    ensures |r| == if 0 <= limit < |Filter(rows, query)| then limit else |Filter(rows, query)|
    ensures forall i :: 0 <= i < |r| ==> Matches(r[i].content, query)
    ensures SortedDesc(r)
    ensures multiset(r) <= multiset(rows)
    ensures forall x, i :: x in rows && Matches(x.content, query) && x !in r && 0 <= i < |r|
                           ==> LexLe(x.timestamp, r[i].timestamp)
  {
    var s := SortDesc(Filter(rows, query));
    TakeSorted(s, limit);
    SortedMatches(rows, query, s);
    TakeOmitted(rows, query, s, limit);
    Take(s, limit)
  }

  /** A prefix of a sorted list is sorted and a sub-multiset. */
  lemma TakeSorted(s: seq<Message>, limit: int)
    requires SortedDesc(s)
    ensures Take(s, limit) == s[..|Take(s, limit)|]
    ensures |Take(s, limit)| == if 0 <= limit < |s| then limit else |s|
    ensures SortedDesc(Take(s, limit))
    ensures multiset(Take(s, limit)) <= multiset(s)
  {
    var r := Take(s, limit);
    assert r == s[..|r|];
    assert s == r + s[|r|..];
  }

  /** Every row of the sorted selection matches and comes from the table. */
  lemma SortedMatches(rows: seq<Message>, query: string, s: seq<Message>)
    requires s == SortDesc(Filter(rows, query))
    ensures forall i :: 0 <= i < |s| ==> Matches(s[i].content, query)
    ensures multiset(s) <= multiset(rows)
  {
    forall i | 0 <= i < |s| ensures Matches(s[i].content, query) {
      assert s[i] in multiset(s);
    }
  }

  /** A matching row the limit cut off sorts at or before every row kept. */
  lemma TakeOmitted(rows: seq<Message>, query: string, s: seq<Message>, limit: int)
    requires s == SortDesc(Filter(rows, query))
    ensures forall x, i :: x in rows && Matches(x.content, query) && x !in Take(s, limit) && 0 <= i < |Take(s, limit)|
                           ==> LexLe(x.timestamp, Take(s, limit)[i].timestamp)
  {
    var r := Take(s, limit);
    TakeSorted(s, limit);
    forall x, i | x in rows && Matches(x.content, query) && x !in r && 0 <= i < |r|
      ensures LexLe(x.timestamp, r[i].timestamp)
    {
      assert multiset(rows)[x] > 0;
      assert multiset(Filter(rows, query))[x] > 0;
      OmittedBelow(s, |r|, x, i);
    }
  }

  /** In a sorted list, an element outside the first `k` sorts at or before each of them. */
  lemma OmittedBelow(s: seq<Message>, k: nat, x: Message, i: nat)
    requires SortedDesc(s) && k <= |s| && i < k
    requires x in multiset(s) && x !in s[..k]
    ensures LexLe(x.timestamp, s[i].timestamp)
  {
    var j :| 0 <= j < |s| && s[j] == x;
  }

  // ---------------------------------------------------------------------
  // The printed line: f"{ts[:16]} {arrow} {sender or '?'}: {preview}"
  // ---------------------------------------------------------------------

  /** Python's `s[:n]` for `n >= 0`. */
  function Prefix(s: string, n: nat): (p: string)
    ensures |p| == if n < |s| then n else |s|
    ensures p == s[..|p|]
  {
    if n < |s| then s[..n] else s
  }

  /** `(content or "")[:80].replace("\n", " ")`. */
  function Preview(content: Cell): (p: string)
    ensures |p| == if content.Some? && |content.value| < 80 then |content.value| else if content.Some? then 80 else 0
    ensures forall i :: 0 <= i < |p| ==> p[i] != '\n'
    ensures forall i :: 0 <= i < |p| ==> content.Some? && (p[i] == content.value[i] || (p[i] == ' ' && content.value[i] == '\n'))
  {
    var t := Prefix(if content.Some? then content.value else "", 80);
    seq(|t|, i requires 0 <= i < |t| => if t[i] == '\n' then ' ' else t[i])
  }

  /** The arrow: `→` exactly when the direction is `out`. */
  function Arrow(direction: Cell): (a: string)
    ensures a == "\U{2192}" <==> direction == Some("out")
    ensures a == "\U{2192}" || a == "\U{2190}"
  {
    if direction == Some("out") then "\U{2192}" else "\U{2190}"
  }

  /** `sender or '?'`: NULL and the empty text both show as `?`. */
  function SenderLabel(sender: Cell): (s: string)
    ensures |s| > 0
    ensures sender.Some? && sender.value != "" ==> s == sender.value
    ensures sender.None? || sender.value == "" ==> s == "?"
  {
    if sender.Some? && sender.value != "" then sender.value else "?"
  }

  /** `s` holds no newline character. */
  predicate SingleLine(s: string)
  {
    forall i :: 0 <= i < |s| ==> s[i] != '\n'
  }

  /** One printed row: `f"{ts[:16]} {arrow} {sender or '?'}: {preview}"`. */
  function FormatLine(m: Message): string
  {
    Prefix(m.timestamp, 16) + " " + Arrow(m.direction) + " " + SenderLabel(m.sender) + ": " + Preview(m.content)
  }

  /**
   * A printed row is one line of output unless the timestamp or the sender
   * holds a newline: only the content's newlines are replaced. It begins
   * with the timestamp's first 16 characters, ends with the preview, and is
   * at most 101 characters longer than the sender label.
   */
  lemma FormatLineShape(m: Message)
    ensures SingleLine(m.timestamp) && SingleLine(SenderLabel(m.sender)) ==> SingleLine(FormatLine(m))
    ensures |FormatLine(m)| <= |SenderLabel(m.sender)| + 101
    ensures var ts := Prefix(m.timestamp, 16); |ts| <= |FormatLine(m)| && FormatLine(m)[..|ts|] == ts
    ensures var p := Preview(m.content); |p| <= |FormatLine(m)| && FormatLine(m)[|FormatLine(m)| - |p|..] == p
  {
    var ts := Prefix(m.timestamp, 16);
    var a := Arrow(m.direction);
    var who := SenderLabel(m.sender);
    var p := Preview(m.content);
    var line := FormatLine(m);
    assert line == ts + (" " + a + " " + who + ": " + p);
    assert line == (ts + " " + a + " " + who + ": ") + p;
    assert SingleLine(a) && SingleLine(" ") && SingleLine(": ");
    assert SingleLine(m.timestamp) ==> SingleLine(ts);
    SingleLineConcat(ts, " ");
    SingleLineConcat(ts + " ", a);
    SingleLineConcat(ts + " " + a, " ");
    SingleLineConcat(ts + " " + a + " ", who);
    SingleLineConcat(ts + " " + a + " " + who, ": ");
    SingleLineConcat(ts + " " + a + " " + who + ": ", p);
  }

  lemma SingleLineConcat(s: string, t: string)
    ensures SingleLine(s + t) <==> SingleLine(s) && SingleLine(t)
  {
    if SingleLine(s) && SingleLine(t) {
      forall i | 0 <= i < |s + t| ensures (s + t)[i] != '\n' {
        if i >= |s| {
          assert (s + t)[i] == t[i - |s|];
        }
      }
    }
    if SingleLine(s + t) {
      forall i | 0 <= i < |s| ensures s[i] != '\n' {
        assert s[i] == (s + t)[i];
      }
      forall i | 0 <= i < |t| ensures t[i] != '\n' {
        assert t[i] == (s + t)[i + |s|];
      }
    }
  }

  // ---------------------------------------------------------------------
  // stats: COUNT(*), GROUP BY direction / channel, MIN / MAX timestamp
  // ---------------------------------------------------------------------

  datatype GroupColumn = Direction | Channel

  function Key(m: Message, c: GroupColumn): Cell
  {
    match c
    case Direction => m.direction
    case Channel => m.channel
  }

  /** The number of rows whose column `c` holds `k` (NULL is a value of its own here). */
  function CountKey(rows: seq<Message>, c: GroupColumn, k: Cell): nat
  {
    if |rows| == 0 then 0
    else CountKey(rows[..|rows| - 1], c, k) + (if Key(rows[|rows| - 1], c) == k then 1 else 0)
  }

  /** The count a group list gives for `k`, 0 when `k` has no group. */
  function Lookup(groups: seq<(Cell, nat)>, k: Cell): nat
  {
    if |groups| == 0 then 0 else if groups[0].0 == k then groups[0].1 else Lookup(groups[1..], k)
  }

  function SumCounts(groups: seq<(Cell, nat)>): nat
  {
    if |groups| == 0 then 0 else groups[0].1 + SumCounts(groups[1..])
  }

  predicate DistinctKeys(groups: seq<(Cell, nat)>)
  {
    forall i, j :: 0 <= i < j < |groups| ==> groups[i].0 != groups[j].0
  }

  predicate PositiveCounts(groups: seq<(Cell, nat)>)
  {
    forall i :: 0 <= i < |groups| ==> groups[i].1 > 0
  }

  /** Counts one more row with key `k`: its group grows by one, or a new group of one is added. */
  function Tally(groups: seq<(Cell, nat)>, k: Cell): (r: seq<(Cell, nat)>)
    requires DistinctKeys(groups) && PositiveCounts(groups)
    ensures DistinctKeys(r) && PositiveCounts(r)
    ensures SumCounts(r) == SumCounts(groups) + 1
    ensures forall k' :: Lookup(r, k') == Lookup(groups, k') + (if k' == k then 1 else 0)
  {
    if |groups| == 0 then [(k, 1)]
    else if groups[0].0 == k then
      assert forall k' :: k' != k ==> Lookup(groups[1..], k') == Lookup(groups, k');
      assert forall j :: 0 < j < |groups| ==> groups[j].0 != k;
      assert Lookup(groups[1..], k) == 0 by {
        NotInGroups(groups[1..], k);
      }
      [(k, groups[0].1 + 1)] + groups[1..]
    else
      var rest := Tally(groups[1..], k);
      assert forall j :: 0 <= j < |rest| ==> rest[j].0 != groups[0].0 by {
        forall j | 0 <= j < |rest| ensures rest[j].0 != groups[0].0 {
          if rest[j].0 == groups[0].0 {
            LookupAt(rest, j);
            NotInGroups(groups[1..], groups[0].0);
          }
        }
      }
      [groups[0]] + rest
  }

  /** A key that no group carries looks up as 0. */
  lemma {:induction false} NotInGroups(groups: seq<(Cell, nat)>, k: Cell)
    requires forall j :: 0 <= j < |groups| ==> groups[j].0 != k
    ensures Lookup(groups, k) == 0
  {
    if |groups| > 0 {
      NotInGroups(groups[1..], k);
    }
  }

  /** With distinct keys, looking up a group's key gives that group's count. */
  lemma {:induction false} LookupAt(groups: seq<(Cell, nat)>, j: nat)
    requires DistinctKeys(groups) && j < |groups|
    ensures Lookup(groups, groups[j].0) == groups[j].1
  {
    if j > 0 {
      LookupAt(groups[1..], j - 1);
    }
  }

  /** `SELECT c, COUNT(*) FROM messages GROUP BY c`, one pair per distinct value. */
  function GroupBy(rows: seq<Message>, c: GroupColumn): (r: seq<(Cell, nat)>)
    ensures DistinctKeys(r) && PositiveCounts(r)
    ensures SumCounts(r) == |rows|
    ensures forall k :: Lookup(r, k) == CountKey(rows, c, k)
  {
    if |rows| == 0 then []
    else Tally(GroupBy(rows[..|rows| - 1], c), Key(rows[|rows| - 1], c))
  }

  /** Every row's value has a group, and every group is some row's value. */
  lemma GroupsCoverRows(rows: seq<Message>, c: GroupColumn)
    ensures forall i :: 0 <= i < |rows| ==> Lookup(GroupBy(rows, c), Key(rows[i], c)) > 0
  {
    forall i | 0 <= i < |rows| ensures CountKey(rows, c, Key(rows[i], c)) > 0 {
      CountKeyPositive(rows, c, i);
    }
  }

  lemma {:induction false} CountKeyPositive(rows: seq<Message>, c: GroupColumn, i: nat)
    requires i < |rows|
    ensures CountKey(rows, c, Key(rows[i], c)) > 0
  {
    if i < |rows| - 1 {
      CountKeyPositive(rows[..|rows| - 1], c, i);
    }
  }

  /** `SELECT timestamp ... ORDER BY timestamp ASC LIMIT 1`. */
  function Earliest(rows: seq<Message>): (r: Option<string>)
    ensures r.Some? <==> |rows| > 0
    ensures r.Some? ==> exists i :: 0 <= i < |rows| && rows[i].timestamp == r.value
    ensures r.Some? ==> forall i :: 0 <= i < |rows| ==> LexLe(r.value, rows[i].timestamp)
  {
    if |rows| == 0 then None
    else
      var init, t := rows[..|rows| - 1], rows[|rows| - 1].timestamp;
      var rest := Earliest(init);
      LexLeReflexive(t);
      if rest.Some? && LexLe(rest.value, t) then
        assert forall i :: 0 <= i < |init| ==> rows[i] == init[i];
        rest
      else
        LexLeTotal(t, if rest.Some? then rest.value else t);
        assert forall i :: 0 <= i < |init| ==> rows[i] == init[i] && LexLe(t, init[i].timestamp) by {
          forall i | 0 <= i < |init| ensures rows[i] == init[i] && LexLe(t, init[i].timestamp) {
            LexLeTransitive(t, rest.value, init[i].timestamp);
          }
        }
        Some(t)
  }

  /** `SELECT timestamp ... ORDER BY timestamp DESC LIMIT 1`. */
  function Latest(rows: seq<Message>): (r: Option<string>)
    ensures r.Some? <==> |rows| > 0
    ensures r.Some? ==> exists i :: 0 <= i < |rows| && rows[i].timestamp == r.value
    ensures r.Some? ==> forall i :: 0 <= i < |rows| ==> LexLe(rows[i].timestamp, r.value)
  {
    if |rows| == 0 then None
    else
      var init, t := rows[..|rows| - 1], rows[|rows| - 1].timestamp;
      var rest := Latest(init);
      LexLeReflexive(t);
      if rest.Some? && LexLe(t, rest.value) then
        assert forall i :: 0 <= i < |init| ==> rows[i] == init[i];
        rest
      else
        LexLeTotal(t, if rest.Some? then rest.value else t);
        assert forall i :: 0 <= i < |init| ==> rows[i] == init[i] && LexLe(init[i].timestamp, t) by {
          forall i | 0 <= i < |init| ensures rows[i] == init[i] && LexLe(init[i].timestamp, t) {
            LexLeTransitive(init[i].timestamp, rest.value, t);
          }
        }
        Some(t)
  }

  /** What `stats` reports. */
  datatype Report = Report(
    total: nat,
    byDirection: seq<(Cell, nat)>,
    byChannel: seq<(Cell, nat)>,
    first: Option<string>,
    last: Option<string>)

  /**
   * `stats`: the row count, the per-direction and per-channel counts, which
   * each sum to the total, and the earliest and latest stamps, which exist
   * exactly when there are rows and are in order.
   */
  function Stats(rows: seq<Message>): (r: Report)
    ensures r.total == |rows|
    ensures SumCounts(r.byDirection) == r.total && SumCounts(r.byChannel) == r.total
    ensures r.first.None? <==> |rows| == 0
    ensures r.last.None? <==> |rows| == 0
    ensures r.first.Some? ==> LexLe(r.first.value, r.last.value)
  {
    var r := Report(|rows|, GroupBy(rows, Direction), GroupBy(rows, Channel), Earliest(rows), Latest(rows));
    if |rows| > 0 then
      assert LexLe(r.first.value, rows[0].timestamp) && LexLe(rows[0].timestamp, r.last.value);
      LexLeTransitive(r.first.value, rows[0].timestamp, r.last.value);
      r
    else r
  }
}
