/**
 * The text forms of a UTC clock reading that the recorder stores.
 *
 * `datetime.isoformat()` renders `YYYY-MM-DDTHH:MM:SS.ffffff`, but leaves out
 * the `.ffffff` part when the microsecond is 0; the recorder appends `Z`.
 * `strftime("%Y-%m-%d")` renders the day. Every field is zero-padded to a
 * fixed width, so comparing two fully padded stamps as text is comparing
 * them in time; the dropped fraction breaks that (see `WholeSecondSortsLate`).
 */
module IsoTime {
  import opened SqlText

  function Pow10(w: nat): (p: nat)
    ensures p >= 1
  {
    if w == 0 then 1 else 10 * Pow10(w - 1)
  }

  function Digit(d: nat): (c: char)
    requires d < 10
    ensures '0' <= c <= '9'
    ensures c as int - '0' as int == d
  {
    (48 + d) as char
  }

  /** `n` in decimal, zero-padded to exactly `w` digits (`%0wd`). */
  function Pad(n: nat, w: nat): (s: string)
    requires n < Pow10(w)
    ensures |s| == w
  {
    if w == 0 then "" else Pad(n / 10, w - 1) + [Digit(n % 10)]
  }

  /** Equal-width padded numbers compare as text exactly as they compare as numbers. */
  lemma {:induction false} PadOrder(n: nat, m: nat, w: nat)
    requires n < Pow10(w) && m < Pow10(w)
    ensures LexLess(Pad(n, w), Pad(m, w)) <==> n < m
    ensures Pad(n, w) == Pad(m, w) <==> n == m
  {
    if w == 0 {
      LexLeReflexive("");
    } else {
      var a, b := Pad(n / 10, w - 1), Pad(m / 10, w - 1);
      var c, d := Digit(n % 10), Digit(m % 10);
      PadOrder(n / 10, m / 10, w - 1);
      LexLessConcat(a, [c], b, [d]);
      LexLeReflexive([c]);
      assert LexLess([c], [d]) <==> c < d by {
        assert [c][1..] == [] && [d][1..] == [];
        LexLeReflexive([]);
      }
      assert a + [c] == b + [d] <==> a == b && c == d by {
        if a + [c] == b + [d] {
          assert (a + [c])[..w - 1] == a && (b + [d])[..w - 1] == b;
          assert (a + [c])[w - 1] == c && (b + [d])[w - 1] == d;
        }
      }
      assert n == 10 * (n / 10) + n % 10;
      assert m == 10 * (m / 10) + m % 10;
    }
  }

  /** Each number fits the width it is printed in. */
  predicate Fits(fields: seq<nat>, widths: seq<nat>)
  {
    |fields| == |widths| && forall i :: 0 <= i < |fields| ==> fields[i] < Pow10(widths[i])
  }

  /** Each field preceded by its separator and zero-padded: `seps[0] + Pad(f0) + seps[1] + Pad(f1) + ...`. */
  function Render(fields: seq<nat>, widths: seq<nat>, seps: seq<string>): (s: string)
    requires Fits(fields, widths) && |seps| == |fields|
    decreases |fields|
  {
    if |fields| == 0 then ""
    else (seps[0] + Pad(fields[0], widths[0])) + Render(fields[1..], widths[1..], seps[1..])
  }

  /** Lexicographic order on tuples of equal length. */
  predicate TupleLess(a: seq<nat>, b: seq<nat>)
    requires |a| == |b|
  {
    |a| > 0 && (a[0] < b[0] || (a[0] == b[0] && TupleLess(a[1..], b[1..])))
  }

  /** A rendered tuple depends only on the widths and separators for its length. */
  lemma {:induction false} RenderLength(fields: seq<nat>, gs: seq<nat>, widths: seq<nat>, seps: seq<string>)
    requires Fits(fields, widths) && Fits(gs, widths) && |seps| == |fields|
    ensures |Render(fields, widths, seps)| == |Render(gs, widths, seps)|
  {
    if |fields| > 0 {
      RenderLength(fields[1..], gs[1..], widths[1..], seps[1..]);
    }
  }

  /**
   * Rendered tuples followed by arbitrary tails compare as the tuples do, and
   * only on equal tuples as the tails do.
   */
  lemma {:induction false} RenderOrder(a: seq<nat>, b: seq<nat>, widths: seq<nat>, seps: seq<string>, ta: string, tb: string)
    requires Fits(a, widths) && Fits(b, widths) && |seps| == |a|
    ensures LexLess(Render(a, widths, seps) + ta, Render(b, widths, seps) + tb)
            <==> TupleLess(a, b) || (a == b && LexLess(ta, tb))
  {
    if |a| > 0 {
      var pa, pb := seps[0] + Pad(a[0], widths[0]), seps[0] + Pad(b[0], widths[0]);
      var ra, rb := Render(a[1..], widths[1..], seps[1..]), Render(b[1..], widths[1..], seps[1..]);
      assert Render(a, widths, seps) + ta == pa + (ra + ta);
      assert Render(b, widths, seps) + tb == pb + (rb + tb);
      LexLessConcat(pa, ra + ta, pb, rb + tb);
      SeparatedPadOrder(seps[0], a[0], b[0], widths[0]);
      RenderOrder(a[1..], b[1..], widths[1..], seps[1..], ta, tb);
      assert a == b <==> a[0] == b[0] && a[1..] == b[1..] by {
        assert a == [a[0]] + a[1..];
        assert b == [b[0]] + b[1..];
      }
    } else {
      assert a == b;
      assert Render(a, widths, seps) + ta == ta && Render(b, widths, seps) + tb == tb;
    }
  }

  /** A field behind a common separator orders as the field does. */
  lemma SeparatedPadOrder(sep: string, n: nat, m: nat, w: nat)
    requires n < Pow10(w) && m < Pow10(w)
    ensures LexLess(sep + Pad(n, w), sep + Pad(m, w)) <==> n < m
    ensures sep + Pad(n, w) == sep + Pad(m, w) <==> n == m
  {
    LexLessConcat(sep, Pad(n, w), sep, Pad(m, w));
    LexLeReflexive(sep);
    PadOrder(n, m, w);
    if sep + Pad(n, w) == sep + Pad(m, w) {
      assert (sep + Pad(n, w))[|sep|..] == Pad(n, w);
      assert (sep + Pad(m, w))[|sep|..] == Pad(m, w);
    }
  }

  /** Tuples that agree before position `k` and differ upwards there are ordered. */
  lemma {:induction false} TupleLessAt(a: seq<nat>, b: seq<nat>, k: nat)
    requires |a| == |b| && k < |a|
    requires a[..k] == b[..k] && a[k] < b[k]
    ensures TupleLess(a, b)
  {
    if k > 0 {
      assert a[0] == a[..k][0] && b[0] == b[..k][0];
      assert a[1..][..k - 1] == a[..k][1..] && b[1..][..k - 1] == b[..k][1..];
      TupleLessAt(a[1..], b[1..], k - 1);
    }
  }

  /** Rendering the first `k` fields gives a prefix of rendering them all. */
  lemma {:induction false} RenderPrefix(fields: seq<nat>, widths: seq<nat>, seps: seq<string>, k: nat)
    requires Fits(fields, widths) && |seps| == |fields| && k <= |fields|
    ensures Fits(fields[..k], widths[..k])
    ensures Render(fields, widths, seps)
            == Render(fields[..k], widths[..k], seps[..k]) + Render(fields[k..], widths[k..], seps[k..])
  {
    if k > 0 {
      RenderPrefix(fields[1..], widths[1..], seps[1..], k - 1);
      assert fields[..k][1..] == fields[1..][..k - 1];
      assert widths[..k][1..] == widths[1..][..k - 1];
      assert seps[..k][1..] == seps[1..][..k - 1];
      assert fields[1..][k - 1..] == fields[k..];
      assert widths[1..][k - 1..] == widths[k..];
      assert seps[1..][k - 1..] == seps[k..];
    } else {
      assert fields[..0] == [] && fields[0..] == fields;
      assert widths[0..] == widths && seps[0..] == seps;
    }
  }

  /** A reading of a UTC clock, as Python's `datetime` holds it. */
  datatype DateTime = DateTime(year: nat, month: nat, day: nat, hour: nat, minute: nat, second: nat, microsecond: nat)

  /**
   * The readings a clock can produce. Years are kept to four digits from
   * 1000 on, where `isoformat` and `strftime("%Y")` print the year alike.
   */
  predicate ValidDateTime(d: DateTime)
  {
    && 1000 <= d.year <= 9999 && 1 <= d.month <= 12 && 1 <= d.day <= 31
    && d.hour < 24 && d.minute < 60 && d.second < 60 && d.microsecond < 1000000
  }

  function Fields(d: DateTime): seq<nat>
  {
    [d.year, d.month, d.day, d.hour, d.minute, d.second, d.microsecond]
  }

  const Widths: seq<nat> := [4, 2, 2, 2, 2, 2, 6]
  const Seps: seq<string> := ["", "-", "-", "T", ":", ":", "."]

  /** Chronological order: the fields compared most significant first. */
  predicate Before(a: DateTime, b: DateTime)
  {
    TupleLess(Fields(a), Fields(b))
  }

  lemma FieldsFit(d: DateTime)
    requires ValidDateTime(d)
    ensures Fits(Fields(d), Widths)
    ensures Fits(Fields(d)[..6], Widths[..6]) && Fits(Fields(d)[..3], Widths[..3])
  {
    assert Pow10(2) == 100 && Pow10(4) == 10000 && Pow10(6) == 1000000;
  }

  /** `datetime.isoformat() + "Z"` as the recorder computes it. */
  function Stamp(d: DateTime): (s: string)
    requires ValidDateTime(d)
    ensures |s| > 0 && s[|s| - 1] == 'Z'
    ensures d.microsecond != 0 ==> s == FixedStamp(d)
    ensures d.microsecond == 0 ==> FixedStamp(d) == s[..|s| - 1] + ".000000Z"
  {
    FieldsFit(d);
    var f := Fields(d);
    RenderPrefix(f, Widths, Seps, 6);
    assert f[6..] == [0] && Widths[6..] == [6] && Seps[6..] == ["."] ==> Render(f[6..], Widths[6..], Seps[6..]) == ".000000" by {
      assert Pad(0, 6) == "000000";
    }
    if d.microsecond == 0 then Render(f[..6], Widths[..6], Seps[..6]) + "Z"
    else Render(f, Widths, Seps) + "Z"
  }

  /** The stamp with the fraction always present (`isoformat(timespec="microseconds") + "Z"`). */
  function FixedStamp(d: DateTime): (s: string)
    requires ValidDateTime(d)
  {
    FieldsFit(d);
    Render(Fields(d), Widths, Seps) + "Z"
  }

  /** `strftime("%Y-%m-%d")`. */
  function DayName(d: DateTime): (s: string)
    requires ValidDateTime(d)
    ensures |s| == 10
  {
    FieldsFit(d);
    RenderLength(Fields(d)[..3], [1000, 1, 1], Widths[..3], Seps[..3]);
    Render(Fields(d)[..3], Widths[..3], Seps[..3])
  }

  /** Fully padded stamps sort as text exactly in time order. */
  lemma FixedStampOrder(a: DateTime, b: DateTime)
    requires ValidDateTime(a) && ValidDateTime(b)
    ensures LexLess(FixedStamp(a), FixedStamp(b)) <==> Before(a, b)
  {
    FieldsFit(a);
    FieldsFit(b);
    RenderOrder(Fields(a), Fields(b), Widths, Seps, "Z", "Z");
    LexLeReflexive("Z");
  }

  /**
   * As written, a stamp taken at a whole second sorts after every stamp
   * taken later within that same second: "…:05Z" > "…:05.000001Z", because
   * 'Z' > '.'. ORDER BY timestamp DESC then lists it first.
   */
  lemma WholeSecondSortsLate(a: DateTime, b: DateTime)
    requires ValidDateTime(a) && ValidDateTime(b)
    requires Fields(a)[..6] == Fields(b)[..6] && a.microsecond == 0 < b.microsecond
    ensures Before(a, b)
    ensures LexLess(Stamp(b), Stamp(a))
  {
    FieldsFit(a);
    FieldsFit(b);
    var fb := Fields(b);
    RenderPrefix(fb, Widths, Seps, 6);
    assert fb[6..] == [b.microsecond] && Widths[6..] == [6] && Seps[6..] == ["."];
    var tail := Render(fb[6..], Widths[6..], Seps[6..]);
    assert tail == "." + Pad(b.microsecond, 6);
    assert Stamp(b) == Render(fb[..6], Widths[..6], Seps[..6]) + (tail + "Z");
    assert Stamp(a) == Render(fb[..6], Widths[..6], Seps[..6]) + "Z";
    RenderOrder(fb[..6], fb[..6], Widths[..6], Seps[..6], tail + "Z", "Z");
    assert (tail + "Z")[0] == '.';
    assert !LexLe("Z", tail + "Z");
    TupleLessAt(Fields(a), fb, 6);
  }

  /** When both clock reads fall on the same date, the day name is the stamp's first 10 characters. */
  lemma DayIsStampPrefix(now: DateTime, today: DateTime)
    requires ValidDateTime(now) && ValidDateTime(today)
    requires now.year == today.year && now.month == today.month && now.day == today.day
    ensures |Stamp(now)| >= 10 && Stamp(now)[..10] == DayName(today)
  {
    FieldsFit(now);
    FieldsFit(today);
    var f := Fields(now);
    assert f[..3] == Fields(today)[..3];
    if now.microsecond == 0 {
      assert f[..6][..3] == f[..3] && Widths[..6][..3] == Widths[..3] && Seps[..6][..3] == Seps[..3];
      RenderStartsWith(f[..6], Widths[..6], Seps[..6], "Z");
      assert Render(f[..6][..3], Widths[..6][..3], Seps[..6][..3]) == DayName(today);
      assert Stamp(now) == Render(f[..6], Widths[..6], Seps[..6]) + "Z";
    } else {
      RenderStartsWith(f, Widths, Seps, "Z");
      assert Render(f[..3], Widths[..3], Seps[..3]) == DayName(today);
      assert Stamp(now) == Render(f, Widths, Seps) + "Z";
    }
  }

  /** A rendering of at least three fields, followed by anything, starts with the rendering of the first three. */
  lemma RenderStartsWith(g: seq<nat>, ws: seq<nat>, ss: seq<string>, tail: string)
    requires Fits(g, ws) && |ss| == |g| && |g| >= 3
    ensures var head := Render(g[..3], ws[..3], ss[..3]);
      |Render(g, ws, ss) + tail| >= |head| && (Render(g, ws, ss) + tail)[..|head|] == head
  {
    RenderPrefix(g, ws, ss, 3);
  }
}
