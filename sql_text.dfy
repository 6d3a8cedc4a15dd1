/**
 * How SQLite compares and matches TEXT values with its default settings.
 *
 * - ORDER BY on a TEXT column uses the BINARY collation: a byte-wise
 *   comparison of the UTF-8 encodings. UTF-8 preserves code-point order, so
 *   this is the lexicographic order on code points, with a proper prefix first.
 * - `x LIKE p` uses `%` for any run of characters and `_` for exactly one
 *   character. Letters are compared case-insensitively for ASCII only.
 *   No ESCAPE clause is used by the recorder, so the two wildcards cannot
 *   be quoted.
 * - The LIKE function reads both texts as NUL-terminated strings: whatever
 *   follows a U+0000 is not seen. It refuses a pattern of more than 50000
 *   bytes of UTF-8 (SQLITE_MAX_LIKE_PATTERN_LENGTH), raising "LIKE or GLOB
 *   pattern too complex".
 */
module SqlText {

  // ---------------------------------------------------------------------
  // BINARY collation
  // ---------------------------------------------------------------------

  /**
   * The dictionary order spelled out: `a` is a prefix of `b`, or at the first
   * position where they differ `a` holds the smaller code point.
   */
  predicate DictionaryLe(a: string, b: string)
  {
    || (|a| <= |b| && a == b[..|a|])
    || exists k :: 0 <= k < |a| && k < |b| && a[..k] == b[..k] && a[k] < b[k]
  }

  /** `a` sorts at or before `b`; in particular a prefix sorts first. */
  function LexLe(a: string, b: string): (r: bool)
    ensures |a| <= |b| && a == b[..|a|] ==> r
  {
    assert 0 < |a| <= |b| && a == b[..|a|] ==> a[0] == b[0] && a[1..] == b[1..][..|a| - 1];
    |a| == 0 || (|b| > 0 && (a[0] < b[0] || (a[0] == b[0] && LexLe(a[1..], b[1..]))))
  }

  /** Under the dictionary order the first characters are in order. */
  lemma DictionaryLeHead(a: string, b: string)
    requires |a| > 0 && |b| > 0 && DictionaryLe(a, b)
    ensures a[0] <= b[0]
  {
    if |a| <= |b| && a == b[..|a|] {
      assert a[0] == b[..|a|][0];
    } else {
      var k :| 0 <= k < |a| && k < |b| && a[..k] == b[..k] && a[k] < b[k];
      if k > 0 {
        assert a[0] == a[..k][0] && b[0] == b[..k][0];
      }
    }
  }

  /** After equal first characters, the dictionary order on the whole implies it on the rest. */
  lemma DictionaryLeDropHead(a: string, b: string)
    requires |a| > 0 && |b| > 0 && a[0] == b[0] && DictionaryLe(a, b)
    ensures DictionaryLe(a[1..], b[1..])
  {
    var a', b' := a[1..], b[1..];
    if |a| <= |b| && a == b[..|a|] {
      assert a' == b'[..|a'|];
    } else {
      var k :| 0 <= k < |a| && k < |b| && a[..k] == b[..k] && a[k] < b[k];
      assert a'[..k - 1] == a[..k][1..] && b'[..k - 1] == b[..k][1..];
      assert a'[k - 1] == a[k] && b'[k - 1] == b[k];
    }
  }

  /** After equal first characters, the dictionary order on the rest implies it on the whole. */
  lemma DictionaryLeAddHead(a: string, b: string)
    requires |a| > 0 && |b| > 0 && a[0] == b[0] && DictionaryLe(a[1..], b[1..])
    ensures DictionaryLe(a, b)
  {
    var a', b' := a[1..], b[1..];
    if |a'| <= |b'| && a' == b'[..|a'|] {
      assert a == [a[0]] + a' && b[..|a|] == [b[0]] + b'[..|a'|];
    } else {
      var k :| 0 <= k < |a'| && k < |b'| && a'[..k] == b'[..k] && a'[k] < b'[k];
      assert a[..k + 1] == [a[0]] + a'[..k] && b[..k + 1] == [b[0]] + b'[..k];
      assert a[k + 1] == a'[k] && b[k + 1] == b'[k];
    }
  }

  /** BINARY order is the dictionary order on code points. */
  lemma {:induction false} LexLeDictionary(a: string, b: string)
    ensures LexLe(a, b) <==> DictionaryLe(a, b)
  {
    if |a| == 0 {
      assert a == b[..0];
    } else if |b| > 0 {
      if DictionaryLe(a, b) {
        DictionaryLeHead(a, b);
      }
      if a[0] < b[0] {
        assert a[..0] == b[..0];
      } else if a[0] == b[0] {
        LexLeDictionary(a[1..], b[1..]);
        if DictionaryLe(a, b) {
          DictionaryLeDropHead(a, b);
        }
        if DictionaryLe(a[1..], b[1..]) {
          DictionaryLeAddHead(a, b);
        }
      }
    }
  }

  /** `a` sorts strictly before `b`. */
  predicate LexLess(a: string, b: string)
  {
    !LexLe(b, a)
  }

  lemma {:induction false} LexLeReflexive(a: string)
    ensures LexLe(a, a)
  {
    if |a| > 0 {
      LexLeReflexive(a[1..]);
    }
  }

  lemma {:induction false} LexLeTotal(a: string, b: string)
    ensures LexLe(a, b) || LexLe(b, a)
  {
    if |a| > 0 && |b| > 0 && a[0] == b[0] {
      LexLeTotal(a[1..], b[1..]);
    }
  }

  lemma {:induction false} LexLeAntisymmetric(a: string, b: string)
    requires LexLe(a, b) && LexLe(b, a)
    ensures a == b
  {
    if |a| > 0 && |b| > 0 {
      LexLeAntisymmetric(a[1..], b[1..]);
      assert a == [a[0]] + a[1..];
      assert b == [b[0]] + b[1..];
    }
  }

  lemma {:induction false} LexLeTransitive(a: string, b: string, c: string)
    requires LexLe(a, b) && LexLe(b, c)
    ensures LexLe(a, c)
  {
    if |a| > 0 && |b| > 0 && |c| > 0 && a[0] == b[0] == c[0] {
      LexLeTransitive(a[1..], b[1..], c[1..]);
    }
  }

  /** Strictly-before is at-or-before and different. */
  lemma LexLessIff(a: string, b: string)
    ensures LexLess(a, b) <==> LexLe(a, b) && a != b
  {
    LexLeTotal(a, b);
    LexLeReflexive(a);
    if LexLe(a, b) && LexLe(b, a) {
      LexLeAntisymmetric(a, b);
    }
  }

  /**
   * Comparing two strings whose first parts have the same length compares
   * the first parts, and only on a tie the rest.
   */
  lemma {:induction false} LexLeConcat(x1: string, x2: string, y1: string, y2: string)
    requires |x1| == |y1|
    ensures LexLe(x1 + x2, y1 + y2) <==> LexLess(x1, y1) || (x1 == y1 && LexLe(x2, y2))
  {
    if |x1| == 0 {
      assert x1 + x2 == x2 && y1 + y2 == y2;
      LexLeReflexive(x1);
    } else {
      assert (x1 + x2)[0] == x1[0] && (x1 + x2)[1..] == x1[1..] + x2;
      assert (y1 + y2)[0] == y1[0] && (y1 + y2)[1..] == y1[1..] + y2;
      LexLeConcat(x1[1..], x2, y1[1..], y2);
      if x1[0] == y1[0] {
        assert x1 == y1 <==> x1[1..] == y1[1..] by {
          assert x1 == [x1[0]] + x1[1..];
          assert y1 == [y1[0]] + y1[1..];
        }
      }
    }
  }

  /** The strict form of `LexLeConcat`. */
  lemma LexLessConcat(x1: string, x2: string, y1: string, y2: string)
    requires |x1| == |y1|
    ensures LexLess(x1 + x2, y1 + y2) <==> LexLess(x1, y1) || (x1 == y1 && LexLess(x2, y2))
  {
    LexLeConcat(y1, y2, x1, x2);
    LexLessIff(x1, y1);
    LexLessIff(y1, x1);
  }

  // ---------------------------------------------------------------------
  // LIKE
  // ---------------------------------------------------------------------

  /** SQLite's default case folding for LIKE: ASCII upper case to lower case only. */
  function Fold(c: char): (f: char)
    ensures 'A' <= c <= 'Z' ==> f == "abcdefghijklmnopqrstuvwxyz"[c as int - 'A' as int]
    ensures !('A' <= c <= 'Z') ==> f == c
  {
    if 'A' <= c <= 'Z' then (c as int + 32) as char else c
  }

  /** A query string in which neither `%` nor `_` occurs. */
  predicate NoWildcards(q: string)
  {
    forall i :: 0 <= i < |q| ==> q[i] != '%' && q[i] != '_'
  }

  /** `a` and `b` are equal up to ASCII case. */
  predicate FoldedEq(a: string, b: string)
  {
    |a| == |b| && forall i :: 0 <= i < |a| ==> Fold(a[i]) == Fold(b[i])
  }

  /** Equality up to case, decided on the first characters and then the rest. */
  lemma FoldedEqStep(a: string, b: string)
    requires |a| > 0 && |b| > 0
    ensures FoldedEq(a, b) <==> Fold(a[0]) == Fold(b[0]) && FoldedEq(a[1..], b[1..])
  {
    if Fold(a[0]) == Fold(b[0]) && FoldedEq(a[1..], b[1..]) {
      forall i | 0 <= i < |a| ensures Fold(a[i]) == Fold(b[i]) {
        if i > 0 {
          assert a[i] == a[1..][i - 1] && b[i] == b[1..][i - 1];
        }
      }
    }
  }

  /** `s LIKE p` without an ESCAPE clause; a pattern without wildcards is equality up to ASCII case. */
  function Like(p: string, s: string): (r: bool)
    ensures NoWildcards(p) ==> (r <==> FoldedEq(p, s))
    decreases |p|, |s|
  {
    if |p| == 0 then |s| == 0
    else if p[0] == '%' then Like(p[1..], s) || (|s| > 0 && Like(p, s[1..]))
    else
      assert NoWildcards(p) ==> NoWildcards(p[1..]) by {
        if NoWildcards(p) {
          forall i | 0 <= i < |p[1..]| ensures p[1..][i] != '%' && p[1..][i] != '_' {
            assert p[1..][i] == p[i + 1];
          }
        }
      }
      if |s| > 0 then FoldedEqStep(p, s); (p[0] == '_' || Fold(p[0]) == Fold(s[0])) && Like(p[1..], s[1..])
      else false
  }

  /** `t` starts with `q` up to ASCII case. */
  predicate StartsFolded(t: string, q: string)
  {
    |q| <= |t| && FoldedEq(t[..|q|], q)
  }

  /** `q` occurs in `s` up to ASCII case. */
  predicate ContainsFolded(s: string, q: string)
  {
    exists k :: 0 <= k <= |s| && StartsFolded(s[k..], q)
  }

  /** A lone `%` matches every string, the empty one included. */
  lemma {:induction false} PercentMatchesAll(s: string)
    ensures Like("%", s)
  {
    if |s| > 0 {
      PercentMatchesAll(s[1..]);
    }
  }

  /** A leading `%` lets the rest of the pattern match any suffix. */
  lemma {:induction false} LeadingPercent(p: string, s: string)
    ensures Like(['%'] + p, s) <==> exists k :: 0 <= k <= |s| && Like(p, s[k..])
  {
    var pp := ['%'] + p;
    assert pp[0] == '%' && pp[1..] == p;
    if |s| == 0 {
      if Like(pp, s) {
        assert Like(p, s[0..]);
      }
    } else {
      LeadingPercent(p, s[1..]);
      if Like(pp, s) {
        if Like(p, s) {
          assert Like(p, s[0..]);
        } else {
          var k :| 0 <= k <= |s[1..]| && Like(p, s[1..][k..]);
          assert s[1..][k..] == s[k + 1..];
        }
      }
      if exists k :: 0 <= k <= |s| && Like(p, s[k..]) {
        var k :| 0 <= k <= |s| && Like(p, s[k..]);
        if k == 0 {
          assert s[0..] == s;
        } else {
          assert s[1..][k - 1..] == s[k..];
        }
      }
    }
  }

  /** A wildcard-free pattern followed by `%` matches exactly the strings it starts. */
  lemma {:induction false} TrailingPercent(q: string, t: string)
    requires NoWildcards(q)
    ensures Like(q + ['%'], t) <==> StartsFolded(t, q)
  {
    var p := q + ['%'];
    if |q| == 0 {
      assert p == "%";
      PercentMatchesAll(t);
    } else {
      assert p[0] == q[0] && p[0] != '%' && p[0] != '_';
      assert p[1..] == q[1..] + ['%'];
      assert NoWildcards(q[1..]) by {
        forall i | 0 <= i < |q[1..]| ensures q[1..][i] != '%' && q[1..][i] != '_' {
          assert q[1..][i] == q[i + 1];
        }
      }
      if |t| > 0 {
        TrailingPercent(q[1..], t[1..]);
        if |q| <= |t| {
          var a, b := t[..|q|], t[1..][..|q| - 1];
          assert FoldedEq(a, q) <==> Fold(t[0]) == Fold(q[0]) && FoldedEq(b, q[1..]) by {
            if FoldedEq(a, q) {
              forall i | 0 <= i < |b| ensures Fold(b[i]) == Fold(q[1..][i]) {
                assert b[i] == a[i + 1];
              }
            }
            if Fold(t[0]) == Fold(q[0]) && FoldedEq(b, q[1..]) {
              forall i | 0 <= i < |a| ensures Fold(a[i]) == Fold(q[i]) {
                if i > 0 {
                  assert a[i] == b[i - 1];
                }
              }
            }
          }
        }
      }
    }
  }

  /** With a wildcard-free query, `content LIKE '%q%'` is containment up to ASCII case. */
  lemma LikeContains(q: string, s: string)
    requires NoWildcards(q)
    ensures Like("%" + q + "%", s) <==> ContainsFolded(s, q)
  {
    assert "%" + q + "%" == ['%'] + (q + ['%']);
    LeadingPercent(q + ['%'], s);
    if Like("%" + q + "%", s) {
      var k :| 0 <= k <= |s| && Like(q + ['%'], s[k..]);
      TrailingPercent(q, s[k..]);
    }
    if ContainsFolded(s, q) {
      var k :| 0 <= k <= |s| && StartsFolded(s[k..], q);
      TrailingPercent(q, s[k..]);
    }
  }

  /** An empty query gives the pattern `%%`, which matches every string. */
  lemma EmptyQueryMatchesAll(s: string)
    ensures Like("%" + "" + "%", s)
  {
    assert "%" + "" + "%" == ['%'] + "%";
    assert s[0..] == s;
    PercentMatchesAll(s[0..]);
    LeadingPercent("%", s);
  }

  /** An `_` in the query is a wildcard, so a query can match text that does not contain it. */
  lemma UnderscoreIsWildcard()
    ensures Like("%" + "_" + "%", "a") && !ContainsFolded("a", "_")
  {
    assert "%" + "_" + "%" == ['%'] + "_%";
    LeadingPercent("_%", "a");
    assert Like("_%", "a"[0..]) by {
      assert "_%"[1..] == "%";
      PercentMatchesAll("");
      assert "a"[0..][1..] == "";
    }
    forall k | 0 <= k <= 1 ensures !StartsFolded("a"[k..], "_") {
      if k == 0 {
        assert "a"[k..][..1][0] == 'a';
      }
    }
  }

  // ---------------------------------------------------------------------
  // The LIKE function: NUL-terminated texts and the pattern-length limit
  // ---------------------------------------------------------------------

  /** `s` holds no U+0000. */
  predicate NoNul(s: string)
  {
    forall i :: 0 <= i < |s| ==> s[i] != '\0'
  }

  /** What a reader of a NUL-terminated string sees: `s` up to its first U+0000. */
  function BeforeNul(s: string): (t: string)
    ensures |t| <= |s| && t == s[..|t|]
    ensures NoNul(t)
    ensures |t| < |s| ==> s[|t|] == '\0'
    ensures NoNul(s) ==> t == s
  {
    if |s| == 0 || s[0] == '\0' then ""
    else
      var t := [s[0]] + BeforeNul(s[1..]);
      assert t[1..] == BeforeNul(s[1..]);
      assert NoNul(s) ==> NoNul(s[1..]) by {
        if NoNul(s) {
          forall i | 0 <= i < |s[1..]| ensures s[1..][i] != '\0' {
            assert s[1..][i] == s[i + 1];
          }
        }
      }
      t
  }

  /** `s LIKE p` as the LIKE function evaluates it, on what it reads of the two texts. */
  function LikeOperator(p: string, s: string): (r: bool)
    ensures NoNul(p) && NoNul(s) ==> (r <==> Like(p, s))
    ensures NoNul(p) ==> (r <==> Like(p, BeforeNul(s)))
  {
    Like(BeforeNul(p), BeforeNul(s))
  }

  /**
   * With a query free of wildcards and of U+0000, `content LIKE '%q%'` is
   * containment up to ASCII case in the content's text before its first
   * U+0000.
   */
  lemma LikeOperatorContains(q: string, s: string)
    requires NoWildcards(q) && NoNul(q)
    ensures LikeOperator("%" + q + "%", s) <==> ContainsFolded(BeforeNul(s), q)
  {
    var p := "%" + q + "%";
    assert NoNul(p) by {
      forall i | 0 <= i < |p| ensures p[i] != '\0' {
        if 0 < i < |p| - 1 {
          assert p[i] == q[i - 1];
        }
      }
    }
    LikeContains(q, BeforeNul(s));
  }

  /**
   * Text after a U+0000 is invisible to LIKE: `'a' || char(0) || 'b'` does
   * not contain `b` for it, and `'abc' || char(0) || 'd'` matches `abc`.
   */
  lemma TextAfterNulIgnored()
    ensures !LikeOperator("%b%", "a\0b")
    ensures LikeOperator("abc", "abc\0d") && !Like("abc", "abc\0d")
  {
    NulHidesLaterText();
    NulEndsText();
  }

  /** Text after U+0000 cannot be found: `"%b%"` does not match `"a\0b"`. */
  lemma NulHidesLaterText()
    ensures !LikeOperator("%b%", "a\0b")
  {
    assert BeforeNul("a\0b") == "a" by {
      assert "a\0b"[1] == '\0';
    }
    assert NoWildcards("b") && NoNul("b");
    LikeOperatorContains("b", "a\0b");
    forall k | 0 <= k <= 1 ensures !StartsFolded("a"[k..], "b") {
      if k == 0 {
        assert "a"[k..][..1][0] == 'a';
      }
    }
  }

  /** U+0000 ends the text: `"abc"` matches `"abc\0d"`, which plain matching refuses. */
  lemma NulEndsText()
    ensures LikeOperator("abc", "abc\0d") && !Like("abc", "abc\0d")
  {
    assert BeforeNul("abc\0d") == "abc" by {
      assert "abc\0d"[3] == '\0';
    }
    assert NoWildcards("abc") && NoNul("abc");
    assert FoldedEq("abc", "abc");
  }

  /** The number of bytes `c` takes in UTF-8. */
  function Utf8Width(c: char): (n: nat)
    ensures 1 <= n <= 4
    ensures c as int < 0x80 <==> n == 1
  {
    if c as int < 0x80 then 1 else if c as int < 0x800 then 2 else if c as int < 0x1_0000 then 3 else 4
  }

  /** The number of bytes of `s` in UTF-8: between one and four per character. */
  function Utf8Length(s: string): (n: nat)
    ensures |s| <= n <= 4 * |s|
  {
    if |s| == 0 then 0 else Utf8Width(s[0]) + Utf8Length(s[1..])
  }

  /** The largest LIKE pattern SQLite accepts, in bytes. */
  const LikePatternLimit: nat := 50000
}
