/** `get_spec_type`: the kind of version constraint a dependency declares,
    decided from its parsed specifiers (operator and version of each). The
    three regular expressions it uses are anchored at the start only, as
    `re.match` is, and are modelled by a small pattern language. */
module Util {

  /** One specifier of a requirement, such as `>= 1.0`. */
  datatype Spec = Spec(op: string, version: string)

  /** The answer of `get_spec_type`, one constructor per string it returns. */
  datatype SpecType = Any | AtLeast | AtMost | VarMicro | VarMinor | Fixed | Range | Other

  /** The string `get_spec_type` returns for each kind. */
  function Name(t: SpecType): string
  {
    match t
    case Any => "any"
    case AtLeast => "at-least"
    case AtMost => "at-most"
    case VarMicro => "var-micro"
    case VarMinor => "var-minor"
    case Fixed => "fixed"
    case Range => "range"
    case Other => "other"
  }

  /** Different kinds are reported by different strings. */
  lemma NamesDistinct(a: SpecType, b: SpecType)
    requires a != b
    ensures Name(a) != Name(b)
  {
  }

  // ---------------------------------------------------------------------
  // Patterns: `\d+` and literal characters

  /** `\d`, restricted to the ASCII digits. */
  predicate IsDigit(c: char)
  {
    '0' <= c <= '9'
  }

  predicate AllDigits(s: string)
  {
    forall i :: 0 <= i < |s| ==> IsDigit(s[i])
  }

  /** A pattern token: `\d+` or one literal character (`\.` and `\*` are literals). */
  datatype Token = Digits | Lit(c: char)

  /** Every `\d+` is last or followed by a literal that is not a digit, as in
      every pattern `get_spec_type` uses; greedy matching is then exact. */
  predicate WellFormed(p: seq<Token>)
  {
    forall i :: 0 <= i < |p| && p[i].Digits? ==>
      i + 1 == |p| || (p[i + 1].Lit? && !IsDigit(p[i + 1].c))
  }

  /** The whole of `s` is derived from `p`: the reference meaning of a pattern. */
  ghost predicate Derives(p: seq<Token>, s: string)
    decreases |p|
  {
    if |p| == 0 then s == []
    else match p[0]
      case Lit(c) => |s| > 0 && s[0] == c && Derives(p[1..], s[1..])
      case Digits =>
        exists k :: 1 <= k <= |s| && AllDigits(s[..k]) && Derives(p[1..], s[k..])
  }

  /** `re.match(p, s)` succeeds: some prefix of `s` is derived from `p`. */
  ghost predicate MatchesPrefix(p: seq<Token>, s: string)
  {
    exists n :: 0 <= n <= |s| && Derives(p, s[..n])
  }

  /** The length of the run of digits `s` starts with. */
  function DigitRun(s: string): (k: nat)
    ensures k <= |s| && AllDigits(s[..k])
    ensures k < |s| ==> !IsDigit(s[k])
  {
    if |s| == 0 || !IsDigit(s[0]) then 0
    else
      var k := 1 + DigitRun(s[1..]);
      assert forall i :: 1 <= i < k ==> s[..k][i] == s[1..][..k - 1][i - 1];
      k
  }

  /** The matcher: each `\d+` takes the whole run of digits. */
  function Match(p: seq<Token>, s: string): bool
    decreases |p|
  {
    if |p| == 0 then true
    else match p[0]
      case Lit(c) => |s| > 0 && s[0] == c && Match(p[1..], s[1..])
      case Digits =>
        var k := DigitRun(s);
        k >= 1 && Match(p[1..], s[k..])
  }

  lemma WellFormedTail(p: seq<Token>)
    requires |p| > 0 && WellFormed(p)
    ensures WellFormed(p[1..])
  {
    forall i | 0 <= i < |p[1..]| && p[1..][i].Digits?
      ensures i + 1 == |p[1..]| || (p[1..][i + 1].Lit? && !IsDigit(p[1..][i + 1].c))
    {
      assert p[1..][i] == p[i + 1];
    }
  }

  /** What the matcher accepts, `re.match` accepts. */
  lemma {:induction false} MatchSound(p: seq<Token>, s: string)
    requires Match(p, s)
    ensures MatchesPrefix(p, s)
    decreases |p|
  {
    if |p| == 0 {
      assert Derives(p, s[..0]);
    } else {
      match p[0]
      case Lit(c) =>
        MatchSound(p[1..], s[1..]);
        var n :| 0 <= n <= |s[1..]| && Derives(p[1..], s[1..][..n]);
        assert s[..n + 1][1..] == s[1..][..n];
        assert Derives(p, s[..n + 1]);
      case Digits =>
        var k := DigitRun(s);
        MatchSound(p[1..], s[k..]);
        var n :| 0 <= n <= |s[k..]| && Derives(p[1..], s[k..][..n]);
        assert s[..k + n][..k] == s[..k];
        assert s[..k + n][k..] == s[k..][..n];
        assert Derives(p, s[..k + n]);
    }
  }

  /** What `re.match` accepts, the matcher accepts, for a well-formed pattern. */
  lemma {:induction false} MatchComplete(p: seq<Token>, s: string, n: nat)
    requires WellFormed(p) && n <= |s| && Derives(p, s[..n])
    ensures Match(p, s)
    decreases |p|
  {
    if |p| > 0 {
      WellFormedTail(p);
      match p[0]
      case Lit(c) =>
        assert s[..n][1..] == s[1..][..n - 1];
        MatchComplete(p[1..], s[1..], n - 1);
      case Digits =>
        var k :| 1 <= k <= |s[..n]| && AllDigits(s[..n][..k]) && Derives(p[1..], s[..n][k..]);
        DigitRunCovers(s, n, k);
        if |p| > 1 {
          DigitsThenLiteral(p, s, n, k);
          MatchComplete(p[1..], s[k..], n - k);
        }
    }
  }

  /** A run of `k` digits at the start of `s[..n]` is inside the greedy run. */
  lemma DigitRunCovers(s: string, n: nat, k: nat)
    requires 1 <= k <= n <= |s| && AllDigits(s[..n][..k])
    ensures DigitRun(s) >= k
  {
    assert forall i :: 0 <= i < k ==> s[..n][..k][i] == s[i];
    assert forall i :: 0 <= i < k ==> IsDigit(s[i]);
  }

  /** When a literal, which is never a digit, follows the digits, the greedy
      run stops exactly where the derivation's run does. */
  lemma DigitsThenLiteral(p: seq<Token>, s: string, n: nat, k: nat)
    requires WellFormed(p) && |p| > 1 && p[0].Digits?
    requires 1 <= k <= n <= |s| && DigitRun(s) >= k && Derives(p[1..], s[..n][k..])
    ensures DigitRun(s) == k && Derives(p[1..], s[k..][..n - k])
  {
    assert p[1].Lit? && !IsDigit(p[1].c);
    var t := s[..n][k..];
    assert p[1..][0] == p[1];
    assert |t| > 0 && t[0] == p[1].c;
    assert s[k] == t[0];
    var g := DigitRun(s);
    assert forall j :: 0 <= j < g ==> s[..g][j] == s[j];
    assert t == s[k..][..n - k];
  }

  /** The matcher is exactly `re.match` on well-formed patterns. */
  lemma MatchIsPrefixMatch(p: seq<Token>, s: string)
    requires WellFormed(p)
    ensures Match(p, s) <==> MatchesPrefix(p, s)
  {
    if Match(p, s) {
      MatchSound(p, s);
    }
    if MatchesPrefix(p, s) {
      var n :| 0 <= n <= |s| && Derives(p, s[..n]);
      MatchComplete(p, s, n);
    }
  }

  /** A string that matches a pattern matches every prefix of the pattern. */
  lemma {:induction false} MatchShorterPattern(p: seq<Token>, q: seq<Token>, s: string)
    requires Match(p + q, s)
    ensures Match(p, s)
    decreases |p|
  {
    if |p| > 0 {
      assert (p + q)[0] == p[0];
      assert (p + q)[1..] == p[1..] + q;
      match p[0]
      case Lit(c) =>
        MatchShorterPattern(p[1..], q, s[1..]);
      case Digits =>
        MatchShorterPattern(p[1..], q, s[DigitRun(s)..]);
    }
  }

  /** `\d+\.\d+\.\*` */
  const MicroWildcard: seq<Token> := [Digits, Lit('.'), Digits, Lit('.'), Lit('*')]
  /** `\d+\.\*` */
  const MinorWildcard: seq<Token> := [Digits, Lit('.'), Lit('*')]
  /** `\d+\.\d+\.\d+` */
  const MicroVersion: seq<Token> := [Digits, Lit('.'), Digits, Lit('.'), Digits]
  /** `\d+\.\d+` */
  const MinorVersion: seq<Token> := [Digits, Lit('.'), Digits]

  lemma PatternsWellFormed()
    ensures WellFormed(MicroWildcard) && WellFormed(MinorWildcard)
    ensures WellFormed(MicroVersion) && WellFormed(MinorVersion)
  {
  }

  // ---------------------------------------------------------------------
  // The classification

  predicate IsLowerBound(op: string) { op == ">=" || op == ">" }
  predicate IsUpperBound(op: string) { op == "<=" || op == "<" }

  /** The kind of a single `==` specifier. */
  function EqualsType(version: string): (r: SpecType)
    ensures r == VarMicro || r == VarMinor || r == Any || r == Fixed
    ensures r == Any <==> version == "*"
  {
    if Match(MicroWildcard, version) then VarMicro
    else if Match(MinorWildcard, version) then VarMinor
    else if version == "*" then Any
    else Fixed
  }

  /** The kind of a single `~=` specifier. */
  function CompatibleType(version: string): (r: SpecType)
    ensures r == VarMicro || r == VarMinor || r == Other
    ensures r != Other <==> Match(MinorVersion, version)
  {
    if Match(MicroVersion, version) then
      assert MicroVersion == MinorVersion + [Lit('.'), Digits];
      MatchShorterPattern(MinorVersion, [Lit('.'), Digits], version);
      VarMicro
    else if Match(MinorVersion, version) then VarMinor
    else Other
  }

  /** `get_spec_type` once the requirement has been parsed into `specs`. */
  function SpecTypeOf(specs: seq<Spec>): (r: SpecType)
    ensures r == Range ==> |specs| == 2
    ensures r == AtLeast || r == AtMost || r == VarMicro || r == VarMinor || r == Fixed ==> |specs| == 1
    ensures r == VarMicro || r == VarMinor || r == Fixed ==> specs[0].op == "==" || specs[0].op == "~="
    ensures |specs| >= 3 ==> r == Other
  {
    if |specs| == 0 then Any
    else if |specs| == 1 then
      var op := specs[0].op;
      if IsLowerBound(op) then AtLeast
      else if IsUpperBound(op) then AtMost
      else if op == "==" then EqualsType(specs[0].version)
      else if op == "~=" then CompatibleType(specs[0].version)
      else Other
    else if |specs| == 2 then
      var ops := {specs[0].op, specs[1].op};
      if (">" in ops || ">=" in ops) && ("<" in ops || "<=" in ops) then Range else Other
    else Other
  }

  /** A single bound gives `at-least` or `at-most` whatever its version. */
  lemma SingleBound(s: Spec)
    ensures SpecTypeOf([s]) == AtLeast <==> IsLowerBound(s.op)
    ensures SpecTypeOf([s]) == AtMost <==> IsUpperBound(s.op)
  {
  }

  /** A single `==`: a `d.d.*` prefix is a micro wildcard, else a `d.*` prefix
      a minor wildcard, else `*` any version, else a fixed version. */
  lemma SingleEquals(v: string)
    ensures SpecTypeOf([Spec("==", v)]) == VarMicro <==> MatchesPrefix(MicroWildcard, v)
    ensures SpecTypeOf([Spec("==", v)]) == VarMinor <==>
      !MatchesPrefix(MicroWildcard, v) && MatchesPrefix(MinorWildcard, v)
    ensures SpecTypeOf([Spec("==", v)]) == Any <==> v == "*"
    ensures SpecTypeOf([Spec("==", v)]) == Fixed <==>
      !MatchesPrefix(MicroWildcard, v) && !MatchesPrefix(MinorWildcard, v) && v != "*"
  {
    PatternsWellFormed();
    MatchIsPrefixMatch(MicroWildcard, v);
    MatchIsPrefixMatch(MinorWildcard, v);
    if v == "*" {
      assert DigitRun(v) == 0;
    }
  }

  /** A single `~=`: a `d.d.d` prefix gives `var-micro`, else a `d.d` prefix
      `var-minor`, else `other`; so `var-minor` means exactly two components. */
  lemma SingleCompatible(v: string)
    ensures SpecTypeOf([Spec("~=", v)]) == VarMicro <==> MatchesPrefix(MicroVersion, v)
    ensures SpecTypeOf([Spec("~=", v)]) == VarMinor <==>
      !MatchesPrefix(MicroVersion, v) && MatchesPrefix(MinorVersion, v)
    ensures SpecTypeOf([Spec("~=", v)]) == Other <==> !MatchesPrefix(MinorVersion, v)
  {
    PatternsWellFormed();
    MatchIsPrefixMatch(MicroVersion, v);
    MatchIsPrefixMatch(MinorVersion, v);
    if Match(MicroVersion, v) {
      assert MicroVersion == MinorVersion + [Lit('.'), Digits];
      MatchShorterPattern(MinorVersion, [Lit('.'), Digits], v);
    }
  }

  /** Any other single operator, such as `!=` or `===`, gives `other`. */
  lemma SingleOtherOperator(s: Spec)
    requires !IsLowerBound(s.op) && !IsUpperBound(s.op) && s.op != "==" && s.op != "~="
    ensures SpecTypeOf([s]) == Other
  {
  }

  /** Two specifiers form a range exactly when one is a lower and the other an
      upper bound; their order and their versions do not matter. */
  lemma Pair(a: Spec, b: Spec)
    ensures SpecTypeOf([a, b]) == Range <==>
      (IsLowerBound(a.op) && IsUpperBound(b.op)) || (IsUpperBound(a.op) && IsLowerBound(b.op))
    ensures SpecTypeOf([a, b]) != Range ==> SpecTypeOf([a, b]) == Other
    ensures SpecTypeOf([a, b]) == SpecTypeOf([b, a])
  {
  }

  /** `any` comes only from no specifier at all or from a single `== *`. */
  lemma AnyMeaning(specs: seq<Spec>)
    ensures SpecTypeOf(specs) == Any <==>
      |specs| == 0 || (|specs| == 1 && specs[0] == Spec("==", "*"))
  {
    if |specs| == 1 && specs[0].op == "==" {
      SingleEquals(specs[0].version);
    }
  }

  /** Three or more specifiers are never classified. */
  lemma Many(specs: seq<Spec>)
    requires |specs| >= 3
    ensures SpecTypeOf(specs) == Other
  {
  }

  /** The requirements of the unit test for `get_spec_type`, with each
      requirement string given as the specifiers it parses to: no specifier,
      and the single bounds. */
  lemma BoundExamples()
    ensures Name(SpecTypeOf([])) == "any"
    ensures Name(SpecTypeOf([Spec(">=", "1.0")])) == "at-least"
    ensures Name(SpecTypeOf([Spec("<=", "1.0")])) == "at-most"
    ensures Name(SpecTypeOf([Spec(">", "1.0")])) == "at-least"
  {
  }

  /** `foo (== 1.0)` is a fixed version. */
  lemma FixedExample()
    ensures Name(SpecTypeOf([Spec("==", "1.0")])) == "fixed"
  {
    var v := "1.0";
    assert DigitRun(v) == 1;
    assert v[1..] == ".0";
    assert DigitRun(v[2..]) == 1;
    assert !Match(MicroWildcard, v);
    assert !Match(MinorWildcard, v);
  }

  /** `foo (~= 1.2)` fixes the minor version. */
  lemma CompatibleMinorExample()
    ensures Name(SpecTypeOf([Spec("~=", "1.2")])) == "var-minor"
  {
    var v := "1.2";
    assert DigitRun(v) == 1;
    assert DigitRun(v[2..]) == 1;
    assert !Match(MicroVersion, v);
    assert Match(MinorVersion, v);
  }

  /** `foo (~= 1.2.1)` fixes the micro version. */
  lemma CompatibleMicroExample()
    ensures Name(SpecTypeOf([Spec("~=", "1.2.1")])) == "var-micro"
  {
    var v := "1.2.1";
    assert DigitRun(v) == 1;
    assert DigitRun(v[2..]) == 1;
    assert DigitRun(v[4..]) == 1;
    assert Match(MicroVersion, v);
  }

  /** The pairs of the unit test: three ranges, in either order, and an
      `==` with a `!=`, which is not classified. */
  lemma PairExamples()
    ensures Name(SpecTypeOf([Spec("<", "0.100.0"), Spec(">=", "0.99.0")])) == "range"
    ensures Name(SpecTypeOf([Spec("<=", "3.5.0"), Spec(">=", "3.1.2")])) == "range"
    ensures Name(SpecTypeOf([Spec(">=", "3.1.2"), Spec("<=", "3.5.0")])) == "range"
    ensures Name(SpecTypeOf([Spec("==", "1.0"), Spec("!=", "2.0")])) == "other"
  {
  }
}
