/** The last step of `get_api_access_chains`: keep the resolved calls that
    start with an imported name (and with a requested module name, when a
    filter is given), parse each into an access chain, drop the chains with an
    attribute that is not an identifier, and sort the rest by their text. */
module Collect {
  import opened Wrappers
  import opened Text
  import opened Calls
  import opened Chains
  import opened Aliases

  /** Some name of `names` is a prefix of `call`. */
  predicate StartsWithAny(call: string, names: set<string>)
  {
    exists x :: x in names && StartsWith(call, x)
  }

  /** No filter was given, or some module name of it is a prefix of `call`. */
  predicate PassesFilter(call: string, filter: Option<seq<string>>)
  {
    filter.None? || exists x :: x in filter.value && StartsWith(call, x)
  }

  /** Every attribute item is an identifier (a call item may carry any name). */
  predicate AttributesAreIdentifiers(chain: seq<Item>)
  {
    forall i :: 0 <= i < |chain| && chain[i].Attr? ==> IsIdentifier(chain[i].attr)
  }

  /** The body of the loop over the resolved calls: the chain kept for `call`,
      if any. A call is kept exactly when it starts with an import, passes the
      filter, parses, and names only identifiers as attributes. */
  function Accept(call: string, lines: set<nat>, imports: set<string>, filter: Option<seq<string>>): (r: Option<AccessChain>)
    ensures r.Some? <==>
      && StartsWithAny(call, imports)
      && PassesFilter(call, filter)
      && FromText(call, lines).Ok?
      && AttributesAreIdentifiers(FromText(call, lines).value.chain)
    ensures r.Some? ==> FromText(call, lines) == Ok(r.value) && |r.value.chain| >= 1 && r.value.lineNums == lines
  {
    if !StartsWithAny(call, imports) then None
    else if !PassesFilter(call, filter) then None
    else Keepable(call, lines)
  }

  /** The chains the loop collects from the calls `keys`, in that order. */
  function Collected(t: Table, keys: seq<string>, imports: set<string>, filter: Option<seq<string>>): (r: seq<AccessChain>)
    ensures |r| <= |keys|
    decreases |keys|
  {
    if |keys| == 0 then []
    else
      var before := Collected(t, keys[..|keys| - 1], imports, filter);
      var k := keys[|keys| - 1];
      match Accept(k, LinesOf(t, k), imports, filter)
      case None => before
      case Some(c) => before + [c]
  }

  /** A chain is collected exactly when some call of `keys` is kept as it. */
  lemma {:induction false} CollectedMembers(t: Table, keys: seq<string>, imports: set<string>, filter: Option<seq<string>>)
    ensures forall c :: c in Collected(t, keys, imports, filter) <==>
      exists k :: k in keys && Accept(k, LinesOf(t, k), imports, filter) == Some(c)
    decreases |keys|
  {
    if |keys| > 0 {
      var init := keys[..|keys| - 1];
      var last := keys[|keys| - 1];
      CollectedMembers(t, init, imports, filter);
      assert keys == init + [last];
      forall c | c in Collected(t, keys, imports, filter)
        ensures exists k :: k in keys && Accept(k, LinesOf(t, k), imports, filter) == Some(c)
      {
        if c !in Collected(t, init, imports, filter) {
          assert Accept(last, LinesOf(t, last), imports, filter) == Some(c);
        } else {
          var k :| k in init && Accept(k, LinesOf(t, k), imports, filter) == Some(c);
          assert k in keys;
        }
      }
      forall c | exists k :: k in keys && Accept(k, LinesOf(t, k), imports, filter) == Some(c)
        ensures c in Collected(t, keys, imports, filter)
      {
        var k :| k in keys && Accept(k, LinesOf(t, k), imports, filter) == Some(c);
        if k != last {
          assert k in init;
        }
      }
    }
  }

  /** Every collected chain has a first item and only identifier attributes. */
  lemma CollectedChainsAreWellFormed(t: Table, keys: seq<string>, imports: set<string>, filter: Option<seq<string>>)
    ensures forall c :: c in Collected(t, keys, imports, filter) ==>
      |c.chain| >= 1 && AttributesAreIdentifiers(c.chain)
  {
    CollectedMembers(t, keys, imports, filter);
  }

  /** `m` is the smallest member of `s`. */
  predicate IsMin(m: nat, s: set<nat>)
  {
    m in s && forall x :: x in s ==> m <= x
  }

  lemma {:induction false} MinExists(s: set<nat>)
    requires s != {}
    ensures exists m :: IsMin(m, s)
    decreases |s|
  {
    var x :| x in s;
    if s - {x} == {} {
      assert s == {x};
      assert IsMin(x, s);
    } else {
      MinExists(s - {x});
      var m :| IsMin(m, s - {x});
      assert forall y :: y in s ==> y == x || y in s - {x};
      if x <= m {
        assert IsMin(x, s);
      } else {
        assert IsMin(m, s);
      }
    }
  }

  /** `sorted(line_nums)`: the line numbers, each once, in increasing order. */
  function SortedNats(s: set<nat>): (r: seq<nat>)
    ensures |r| == |s|
    ensures forall x :: x in r <==> x in s
    ensures forall i, j :: 0 <= i < j < |r| ==> r[i] < r[j]
    decreases |s|
  {
    if s == {} then []
    else
      MinExists(s);
      var m :| IsMin(m, s);
      var rest := SortedNats(s - {m});
      MinThenRest(s, m, rest);
      [m] + rest
  }

  /** The smallest member followed by the sorted rest is the sorted whole. */
  lemma MinThenRest(s: set<nat>, m: nat, rest: seq<nat>)
    requires IsMin(m, s)
    requires |rest| == |s - {m}| && forall x :: x in rest <==> x in s - {m}
    requires forall i, j :: 0 <= i < j < |rest| ==> rest[i] < rest[j]
    ensures |[m] + rest| == |s|
    ensures forall x :: x in [m] + rest <==> x in s
    ensures forall i, j :: 0 <= i < j < |[m] + rest| ==> ([m] + rest)[i] < ([m] + rest)[j]
  {
    var r := [m] + rest;
    forall i, j | 0 <= i < j < |r| ensures r[i] < r[j] {
      if i == 0 {
        assert r[j] == rest[j - 1] && r[j] in s - {m};
      } else {
        assert r[i] == rest[i - 1] && r[j] == rest[j - 1];
      }
    }
  }

  /** `map(str, ...)`. */
  function NatStrings(xs: seq<nat>): (r: seq<string>)
    ensures |r| == |xs|
    ensures forall i :: 0 <= i < |xs| ==> r[i] == NatToString(xs[i])
  {
    seq(|xs|, i requires 0 <= i < |xs| => NatToString(xs[i]))
  }

  /** `str(chain)`, the key the chains are sorted by: the chain text, a colon,
      and the sorted line numbers separated by commas. */
  function ChainString(c: AccessChain): string
  {
    ChainText(c.chain) + ":" + Join(NatStrings(SortedNats(c.lineNums)), ",")
  }

  /** Each element's key is no smaller than the one before it. */
  predicate SortedBy<T>(xs: seq<T>, key: T -> string)
  {
    forall i, j :: 0 <= i < j < |xs| ==> !LexLess(key(xs[j]), key(xs[i]))
  }

  /** `a` sorts strictly before `b`, and `b` no later than `c`: then `a` sorts
      strictly before `c`. */
  lemma LessThenNotLess(a: string, b: string, c: string)
    requires LexLess(a, b) && !LexLess(c, b)
    ensures LexLess(a, c) && !LexLess(c, a)
  {
    LexTotal(b, c);
    if b != c {
      LexTransitive(a, b, c);
    }
    LexAsymmetric(a, c);
  }

  /** `x` inserted after every element whose key is not greater than its own,
      so that elements with equal keys keep their order. */
  function Insert<T>(s: seq<T>, x: T, key: T -> string): (r: seq<T>)
    requires SortedBy(s, key)
    ensures SortedBy(r, key)
    ensures multiset(r) == multiset(s) + multiset{x}
    decreases |s|
  {
    if |s| == 0 then [x]
    else if LexLess(key(x), key(s[0])) then
      InsertFront(s, x, key);
      [x] + s
    else
      var rest := Insert(s[1..], x, key);
      assert s == [s[0]] + s[1..];
      InsertAfterFirst(s, x, key, rest);
      [s[0]] + rest
  }

  /** An element that sorts strictly before the first goes in front. */
  lemma InsertFront<T>(s: seq<T>, x: T, key: T -> string)
    requires SortedBy(s, key) && |s| > 0 && LexLess(key(x), key(s[0]))
    ensures forall j :: 0 <= j < |s| ==> !LexLess(key(s[j]), key(x))
  {
    forall j | 0 <= j < |s| ensures !LexLess(key(s[j]), key(x)) {
      if j > 0 {
        LessThenNotLess(key(x), key(s[0]), key(s[j]));
      } else {
        LexAsymmetric(key(x), key(s[0]));
      }
    }
  }

  /** Whatever the insertion into the tail holds sorts no earlier than the first element. */
  lemma InsertAfterFirst<T>(s: seq<T>, x: T, key: T -> string, rest: seq<T>)
    requires SortedBy(s, key) && |s| > 0 && !LexLess(key(x), key(s[0]))
    requires multiset(rest) == multiset(s[1..]) + multiset{x}
    ensures forall j :: 0 <= j < |rest| ==> !LexLess(key(rest[j]), key(s[0]))
  {
    forall j | 0 <= j < |rest| ensures !LexLess(key(rest[j]), key(s[0])) {
      assert rest[j] in multiset(rest);
      if rest[j] != x {
        assert rest[j] in multiset(s[1..]);
        var k :| 0 <= k < |s[1..]| && s[1..][k] == rest[j];
        assert s[k + 1] == rest[j];
      }
    }
  }

  /** `sorted(xs, key=key)`: a stable insertion sort. */
  function SortBy<T>(xs: seq<T>, key: T -> string): (r: seq<T>)
    ensures SortedBy(r, key)
    ensures multiset(r) == multiset(xs)
    decreases |xs|
  {
    if |xs| == 0 then []
    else
      assert xs == xs[..|xs| - 1] + [xs[|xs| - 1]];
      Insert(SortBy(xs[..|xs| - 1], key), xs[|xs| - 1], key)
  }

  /** What `get_api_access_chains` returns once the aliases are resolved. */
  function ApiAccessChains(calls: Table, aliases: map<string, seq<string>>, imports: set<string>, filter: Option<seq<string>>): seq<AccessChain>
  {
    var all := ResolvedAliases(calls, aliases);
    SortBy(Collected(all, all.order, imports, filter), ChainString)
  }

  /** The result is sorted by text and holds exactly the chains of the
      resolved calls that are kept, each as often as it is collected. */
  lemma ApiAccessChainsMeaning(calls: Table, aliases: map<string, seq<string>>, imports: set<string>, filter: Option<seq<string>>)
    ensures SortedBy(ApiAccessChains(calls, aliases, imports, filter), ChainString)
    ensures var all := ResolvedAliases(calls, aliases);
      forall c :: c in ApiAccessChains(calls, aliases, imports, filter) <==>
        exists k :: k in all.order && Accept(k, LinesOf(all, k), imports, filter) == Some(c)
  {
    var all := ResolvedAliases(calls, aliases);
    var found := Collected(all, all.order, imports, filter);
    CollectedMembers(all, all.order, imports, filter);
    forall c ensures c in SortBy(found, ChainString) <==> c in found {
      assert c in SortBy(found, ChainString) <==> c in multiset(SortBy(found, ChainString));
      assert c in found <==> c in multiset(found);
    }
  }

  /** `get_api_access_chains` after the source has been visited: `calls`,
      `aliases` and `imports` are what the visitor recorded. */
  method GetApiAccessChains(calls: Table, aliases: map<string, seq<string>>, imports: set<string>, filter: Option<seq<string>>)
    returns (chains: seq<AccessChain>)
    ensures chains == ApiAccessChains(calls, aliases, imports, filter)
  {
    var all := ResolveAliases(calls, aliases);
    var found := CollectCalls(all, imports, filter);
    chains := SortBy(found, ChainString);
  }

  /** The loop over the resolved calls, in the order they were first recorded. */
  method CollectCalls(all: Table, imports: set<string>, filter: Option<seq<string>>) returns (found: seq<AccessChain>)
    ensures found == Collected(all, all.order, imports, filter)
  {
    found := [];
    for i := 0 to |all.order|
      invariant found == Collected(all, all.order[..i], imports, filter)
    {
      assert all.order[..i + 1][..i] == all.order[..i];
      var call := all.order[i];
      var lines := if call in all.lines then all.lines[call] else {};
      var kept := AcceptCall(call, lines, imports, filter);
      if kept.Some? {
        found := found + [kept.value];
      }
    }
    assert all.order[..|all.order|] == all.order;
  }

  /** The body of the loop: the two prefix tests, then the parse. */
  method AcceptCall(call: string, lines: set<nat>, imports: set<string>, filter: Option<seq<string>>)
    returns (r: Option<AccessChain>)
    ensures r == Accept(call, lines, imports, filter)
  {
    if !(exists x :: x in imports && StartsWith(call, x)) {
      return None;
    }
    if filter.Some? && !(exists x :: x in filter.value && StartsWith(call, x)) {
      return None;
    }
    r := Keep(call, lines);
  }

  /** What remains of the loop body once the prefix tests have passed. */
  function Keepable(call: string, lines: set<nat>): Option<AccessChain>
  {
    match FromText(call, lines)
    case Err(_) => None
    case Ok(c) => if AttributesAreIdentifiers(c.chain) then Some(c) else None
  }

  /** The `try`/`except IndexError` around `_from_str` and the identifier test. */
  method Keep(call: string, lines: set<nat>) returns (r: Option<AccessChain>)
    ensures r == Keepable(call, lines)
  {
    var parsed := ParseChain(call, lines);
    if parsed.Err? {
      return None;
    }
    var c := parsed.value;
    if exists j :: 0 <= j < |c.chain| && c.chain[j].Attr? && !IsIdentifier(c.chain[j].attr) {
      return None;
    }
    return Some(c);
  }
}
