/** The handful of Python `str` operations the analysis relies on, written out
    over `seq<char>`: `split` and `join` on one separator character, `replace` of
    the `*` placeholder, `startswith`/`endswith`/`in`, the ordering `<` that
    `sorted` uses, `isidentifier` and `str(n)` for natural numbers. */
module Text {

  /** `s.split(sep)`: the pieces between occurrences of `sep`, always at least one. */
  function Split(s: string, sep: char): (parts: seq<string>)
    ensures |parts| >= 1
    ensures forall i :: 0 <= i < |parts| ==> sep !in parts[i]
  {
    if |s| == 0 then [""]
    else
      var rest := Split(s[1..], sep);
      if s[0] == sep then [""] + rest
      else [[s[0]] + rest[0]] + rest[1..]
  }

  /** `sep.join(parts)`. */
  function Join(parts: seq<string>, sep: string): string
  {
    if |parts| == 0 then ""
    else if |parts| == 1 then parts[0]
    else parts[0] + sep + Join(parts[1..], sep)
  }

  /** Joining one more piece at the end. */
  lemma {:induction false} JoinSnoc(parts: seq<string>, last: string, sep: string)
    ensures Join(parts + [last], sep) == if |parts| == 0 then last else Join(parts, sep) + sep + last
  {
    if |parts| > 1 {
      assert (parts + [last])[1..] == parts[1..] + [last];
      JoinSnoc(parts[1..], last, sep);
    }
  }

  /** Joining two runs of pieces: the separator goes between them when both are non-empty. */
  lemma {:induction false} JoinAppend(xs: seq<string>, ys: seq<string>, sep: string)
    requires |xs| > 0
    ensures Join(xs + ys, sep) == Join(xs, sep) + (if |ys| == 0 then "" else sep + Join(ys, sep))
    decreases |xs|
  {
    if |xs| == 1 {
      assert xs + ys == [xs[0]] + ys;
      if |ys| > 0 {
        assert (xs + ys)[1..] == ys;
      } else {
        assert xs + ys == xs;
      }
    } else {
      JoinAppend(xs[1..], ys, sep);
      assert (xs + ys)[1..] == xs[1..] + ys;
    }
  }

  /** Joining pieces around one middle piece. */
  lemma JoinAround(xs: seq<string>, m: string, ys: seq<string>, sep: string)
    ensures Join((xs + [m]) + ys, sep)
            == (if |xs| == 0 then "" else Join(xs, sep) + sep) + m + (if |ys| == 0 then "" else sep + Join(ys, sep))
  {
    JoinAppend(xs + [m], ys, sep);
    JoinSnoc(xs, m, sep);
  }

  /** Splitting at one occurrence of the separator splits both sides independently. */
  lemma {:induction false} SplitAround(a: string, b: string, sep: char)
    ensures Split(a + [sep] + b, sep) == Split(a, sep) + Split(b, sep)
  {
    if |a| == 0 {
      assert a + [sep] + b == [sep] + b;
      assert ([sep] + b)[1..] == b;
    } else {
      assert (a + [sep] + b)[1..] == a[1..] + [sep] + b;
      SplitAround(a[1..], b, sep);
    }
  }

  /** A string without the separator is its own single piece. */
  lemma {:induction false} SplitWithoutSep(s: string, sep: char)
    requires sep !in s
    ensures Split(s, sep) == [s]
  {
    if |s| > 0 {
      SplitWithoutSep(s[1..], sep);
      assert [s[0]] + s[1..] == s;
    }
  }

  /** `split` undoes `join` when no piece contains the separator. */
  lemma {:induction false} SplitJoin(parts: seq<string>, sep: char)
    requires |parts| >= 1
    requires forall i :: 0 <= i < |parts| ==> sep !in parts[i]
    ensures Split(Join(parts, [sep]), sep) == parts
  {
    if |parts| == 1 {
      SplitWithoutSep(parts[0], sep);
    } else {
      SplitAround(parts[0], Join(parts[1..], [sep]), sep);
      SplitWithoutSep(parts[0], sep);
      SplitJoin(parts[1..], sep);
      assert parts == [parts[0]] + parts[1..];
    }
  }

  /** `join` undoes `split`. */
  lemma {:induction false} JoinSplit(s: string, sep: char)
    ensures Join(Split(s, sep), [sep]) == s
  {
    if |s| > 0 {
      JoinSplit(s[1..], sep);
      var rest := Split(s[1..], sep);
      if s[0] == sep {
        assert Join([""] + rest, [sep]) == "" + [sep] + Join(rest, [sep]);
        assert s == [s[0]] + s[1..];
      } else {
        var parts := [[s[0]] + rest[0]] + rest[1..];
        if |rest| == 1 {
          assert Join(parts, [sep]) == [s[0]] + rest[0];
        } else {
          assert parts[1..] == rest[1..];
          assert Join(rest, [sep]) == rest[0] + [sep] + Join(rest[1..], [sep]);
          assert Join(parts, [sep]) == [s[0]] + rest[0] + [sep] + Join(rest[1..], [sep]);
        }
        assert s == [s[0]] + s[1..];
      }
    }
  }

  /** `s.split(".")[-1]`. */
  function LastSegment(s: string): (seg: string)
    ensures '.' !in seg
  {
    var parts := Split(s, '.');
    parts[|parts| - 1]
  }

  /** `s.split(".")[0]`. */
  function FirstSegment(s: string): (seg: string)
    ensures '.' !in seg
  {
    Split(s, '.')[0]
  }

  /** With a dot present, the first segment is exactly what precedes the first dot. */
  lemma {:induction false} FirstSegmentBeforeDot(s: string)
    requires '.' in s
    ensures |FirstSegment(s)| < |s| && s[|FirstSegment(s)|] == '.'
    ensures s[..|FirstSegment(s)|] == FirstSegment(s)
  {
    if s[0] != '.' {
      assert '.' in s[1..] by {
        var i :| 0 <= i < |s| && s[i] == '.';
        assert s[1..][i - 1] == '.';
      }
      FirstSegmentBeforeDot(s[1..]);
    }
  }

  /** The last segment of what follows the first dot is the last segment of the whole. */
  lemma LastSegmentOfSuffix(s: string)
    requires '.' in s
    ensures |FirstSegment(s)| < |s| && LastSegment(s[|FirstSegment(s)| + 1..]) == LastSegment(s)
  {
    FirstSegmentBeforeDot(s);
    var n := |FirstSegment(s)|;
    assert s == s[..n] + ['.'] + s[n + 1..];
    SplitAround(s[..n], s[n + 1..], '.');
  }

  /** Whatever precedes the last dot, the last segment is what follows it. */
  lemma LastSegmentAfterDot(prefix: string, seg: string)
    requires '.' !in seg
    ensures LastSegment(prefix + "." + seg) == seg
  {
    SplitAround(prefix, seg, '.');
    SplitWithoutSep(seg, '.');
  }

  /** `s.replace("*", k)`: every `*` becomes `k`. */
  function ReplaceStar(s: string, k: string): string
  {
    if |s| == 0 then ""
    else (if s[0] == '*' then k else [s[0]]) + ReplaceStar(s[1..], k)
  }

  lemma {:induction false} ReplaceStarAppend(a: string, b: string, k: string)
    ensures ReplaceStar(a + b, k) == ReplaceStar(a, k) + ReplaceStar(b, k)
  {
    if |a| > 0 {
      assert (a + b)[1..] == a[1..] + b;
      ReplaceStarAppend(a[1..], b, k);
    } else {
      assert a + b == b;
    }
  }

  /** A wildcard `m.*` with its `*` replaced by `k` is `m'.k`. */
  lemma ReplaceStarDotStar(m: string, k: string)
    ensures ReplaceStar(m + ".*", k) == ReplaceStar(m, k) + "." + k
  {
    ReplaceStarAppend(m, ".*", k);
    assert ".*"[0] == '.' && ".*"[1..] == "*";
    assert "*"[0] == '*' && "*"[1..] == "";
    assert ReplaceStar("*", k) == k + ReplaceStar("", k) == k;
    assert ReplaceStar(".*", k) == "." + ReplaceStar("*", k);
  }

  predicate StartsWith(s: string, prefix: string) { prefix <= s }

  predicate EndsWith(s: string, suffix: string)
  {
    |suffix| <= |s| && s[|s| - |suffix|..] == suffix
  }

  lemma EndsWithConcat(x: string, y: string, z: string)
    ensures EndsWith(x + y + z, y + z)
  {
    assert (x + y + z)[|x|..] == y + z;
  }

  /** `needle in s` for strings. */
  predicate IsSubstring(needle: string, s: string)
  {
    needle <= s || (|s| > 0 && IsSubstring(needle, s[1..]))
  }

  lemma {:induction false} SubstringOfPrefix(needle: string, s: string, t: string)
    requires IsSubstring(needle, s)
    ensures IsSubstring(needle, s + t)
  {
    if needle <= s {
      assert needle <= s + t;
    } else {
      assert (s + t)[1..] == s[1..] + t;
      SubstringOfPrefix(needle, s[1..], t);
    }
  }

  /** A needle whose first character does not occur in `s` does not occur in it. */
  lemma {:induction false} NotSubstring(needle: string, s: string)
    requires |needle| > 0 && needle[0] !in s
    ensures !IsSubstring(needle, s)
    decreases |s|
  {
    if |s| > 0 {
      NotSubstring(needle, s[1..]);
    }
  }

  /** A needle longer than `s` does not occur in it. */
  lemma {:induction false} ShortNotSubstring(needle: string, s: string)
    requires |s| < |needle|
    ensures !IsSubstring(needle, s)
  {
    if |s| > 0 {
      ShortNotSubstring(needle, s[1..]);
    }
  }

  /** Characters before `k` that cannot start the needle can be skipped. */
  lemma {:induction false} SkipToCandidate(needle: string, s: string, k: nat)
    requires |needle| > 0 && k <= |s|
    requires forall i :: 0 <= i < k ==> s[i] != needle[0]
    ensures IsSubstring(needle, s) <==> IsSubstring(needle, s[k..])
    decreases k
  {
    if k > 0 {
      assert s[1..][k - 1..] == s[k..];
      SkipToCandidate(needle, s[1..], k - 1);
    }
  }

  /** Python's `<` on strings: lexicographic by code point. */
  predicate LexLess(a: string, b: string)
  {
    if |a| == 0 then |b| > 0
    else if |b| == 0 then false
    else if a[0] != b[0] then a[0] < b[0]
    else LexLess(a[1..], b[1..])
  }

  lemma {:induction false} LexIrreflexive(a: string)
    ensures !LexLess(a, a)
  {
    if |a| > 0 { LexIrreflexive(a[1..]); }
  }

  lemma {:induction false} LexAsymmetric(a: string, b: string)
    ensures !(LexLess(a, b) && LexLess(b, a))
  {
    if |a| > 0 && |b| > 0 && a[0] == b[0] { LexAsymmetric(a[1..], b[1..]); }
  }

  lemma {:induction false} LexTotal(a: string, b: string)
    ensures a == b || LexLess(a, b) || LexLess(b, a)
  {
    if |a| > 0 && |b| > 0 && a[0] == b[0] {
      LexTotal(a[1..], b[1..]);
      assert a == [a[0]] + a[1..] && b == [b[0]] + b[1..];
    }
  }

  lemma {:induction false} LexTransitive(a: string, b: string, c: string)
    requires LexLess(a, b) && LexLess(b, c)
    ensures LexLess(a, c)
  {
    if |a| > 0 && |b| > 0 && |c| > 0 && a[0] == b[0] && b[0] == c[0] {
      LexTransitive(a[1..], b[1..], c[1..]);
    }
  }

  /** `m` is the smallest member of `s`. */
  predicate IsLeast(m: string, s: set<string>)
  {
    m in s && forall x :: x in s ==> !LexLess(x, m)
  }

  lemma {:induction false} LeastExists(s: set<string>)
    requires s != {}
    ensures exists m :: IsLeast(m, s)
    decreases |s|
  {
    var x :| x in s;
    if s - {x} == {} {
      assert s == {x};
      LexIrreflexive(x);
      assert IsLeast(x, s);
    } else {
      LeastExists(s - {x});
      var m :| IsLeast(m, s - {x});
      LexTotal(x, m);
      if LexLess(x, m) {
        forall y | y in s ensures !LexLess(y, x) {
          if y == x { LexIrreflexive(x); }
          else if LexLess(y, x) { assert y in s - {x}; LexTransitive(y, x, m); }
        }
        LexIrreflexive(x);
        assert IsLeast(x, s);
      } else {
        LexIrreflexive(m);
        assert IsLeast(m, s);
      }
    }
  }

  lemma LeastUnique(s: set<string>)
    ensures forall a, b :: IsLeast(a, s) && IsLeast(b, s) ==> a == b
  {
    forall a, b | IsLeast(a, s) && IsLeast(b, s) ensures a == b { LexTotal(a, b); }
  }

  /** `sorted(s)` for a set of strings: its members, each once, in increasing order. */
  function SortedStrings(s: set<string>): (r: seq<string>)
    ensures |r| == |s|
    ensures forall x :: x in r <==> x in s
    ensures forall i, j :: 0 <= i < j < |r| ==> LexLess(r[i], r[j])
    decreases |s|
  {
    if s == {} then []
    else
      LeastExists(s);
      LeastUnique(s);
      var m :| IsLeast(m, s);
      var rest := SortedStrings(s - {m});
      assert forall j :: 0 <= j < |rest| ==> LexLess(m, rest[j]) by {
        forall j | 0 <= j < |rest| ensures LexLess(m, rest[j]) {
          assert rest[j] in rest;
          assert rest[j] in s - {m};
          LexTotal(m, rest[j]);
        }
      }
      [m] + rest
  }

  predicate IsAsciiLetter(c: char) { 'a' <= c <= 'z' || 'A' <= c <= 'Z' }

  predicate IsAsciiDigit(c: char) { '0' <= c <= '9' }

  /** `s.isidentifier()`, restricted to ASCII. */
  predicate IsIdentifier(s: string)
  {
    |s| > 0 && (IsAsciiLetter(s[0]) || s[0] == '_')
    && forall i :: 1 <= i < |s| ==> IsAsciiLetter(s[i]) || IsAsciiDigit(s[i]) || s[i] == '_'
  }

  /** The number a run of decimal digits denotes, most significant digit first. */
  function DigitsValue(s: string): int
    decreases |s|
  {
    if |s| == 0 then 0
    else DigitsValue(s[..|s| - 1]) * 10 + (s[|s| - 1] as int - '0' as int)
  }

  /** `str(n)` for a natural number: its decimal digits, with no leading zero. */
  function NatToString(n: nat): (s: string)
    ensures |s| >= 1
    ensures forall i :: 0 <= i < |s| ==> IsAsciiDigit(s[i])
    ensures DigitsValue(s) == n
    ensures s[0] == '0' <==> n == 0
  {
    var d := ['0' + (n % 10) as char];
    if n < 10 then d
    else
      var high := NatToString(n / 10);
      assert (high + d)[..|high + d| - 1] == high;
      high + d
  }
}
