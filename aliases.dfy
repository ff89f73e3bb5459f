/** Alias propagation (`_resolve_aliases`): every recorded call whose first
    name is an alias is recorded again under each name the alias stands for,
    keeping its line numbers, for a bounded number of rounds. */
module Aliases {
  import opened Text

  /** A dictionary from call text to the lines it was seen on, with its keys
      in insertion order (the order a Python `dict` iterates in). */
  datatype Table = Table(order: seq<string>, lines: map<string, set<nat>>)

  /** The keys listed in `order` are exactly the dictionary's keys, each once. */
  ghost predicate Valid(t: Table)
  {
    && (forall k :: k in t.lines <==> k in t.order)
    && (forall i, j :: 0 <= i < j < |t.order| ==> t.order[i] != t.order[j])
  }

  /** `after` keeps every key of `before`, in the same order at the front, and
      every key's lines only grow. */
  predicate Grows(before: Table, after: Table)
  {
    && before.order <= after.order
    && forall k :: k in before.lines ==> k in after.lines && before.lines[k] <= after.lines[k]
  }

  lemma GrowsTransitive(a: Table, b: Table, c: Table)
    requires Grows(a, b) && Grows(b, c)
    ensures Grows(a, c)
  {
  }

  /** `results[key].update(ls)` on a `defaultdict(set)`. */
  function Add(t: Table, key: string, ls: set<nat>): (r: Table)
    ensures key in r.lines && ls <= r.lines[key]
    ensures r.lines.Keys == t.lines.Keys + {key}
  {
    if key in t.lines then Table(t.order, t.lines[key := t.lines[key] + ls])
    else Table(t.order + [key], t.lines[key := ls])
  }

  /** Adding to one key leaves every other key's lines as they were. */
  lemma AddLeavesOthers(t: Table, key: string, ls: set<nat>, k: string)
    requires k in t.lines && k != key
    ensures Add(t, key, ls).lines[k] == t.lines[k]
  {
  }

  /** Adding keeps the order listing every key once, and only grows the table. */
  lemma AddKeepsValid(t: Table, key: string, ls: set<nat>)
    requires Valid(t)
    ensures Valid(Add(t, key, ls)) && Grows(t, Add(t, key, ls))
  {
  }

  /** The loop over the names an alias stands for: each name `a` that does not
      already occur in `call` gets `a + tail` recorded with the lines `ls`. */
  function AddAliases(t: Table, targets: seq<string>, call: string, tail: string, ls: set<nat>): (r: Table)
    decreases |targets|
  {
    if |targets| == 0 then t
    else
      var before := AddAliases(t, targets[..|targets| - 1], call, tail, ls);
      var a := targets[|targets| - 1];
      if IsSubstring(a, call) then before else Add(before, a + tail, ls)
  }

  /** The alias loop keeps the order listing every key once, and only grows the table. */
  lemma {:induction false} AddAliasesKeepsValid(t: Table, targets: seq<string>, call: string, tail: string, ls: set<nat>)
    requires Valid(t)
    ensures Valid(AddAliases(t, targets, call, tail, ls)) && Grows(t, AddAliases(t, targets, call, tail, ls))
    decreases |targets|
  {
    if |targets| > 0 {
      var before := AddAliases(t, targets[..|targets| - 1], call, tail, ls);
      AddAliasesKeepsValid(t, targets[..|targets| - 1], call, tail, ls);
      AddKeepsValid(before, targets[|targets| - 1] + tail, ls);
      GrowsTransitive(t, before, AddAliases(t, targets, call, tail, ls));
    }
  }

  /** Each name that does not occur in the call is recorded with the call's
      lines; nothing else is added; and a key is changed only by adding the
      call's lines to a substituted key. */
  lemma {:induction false} AddAliasesEffect(t: Table, targets: seq<string>, call: string, tail: string, ls: set<nat>)
    ensures var r := AddAliases(t, targets, call, tail, ls);
      && t.lines.Keys <= r.lines.Keys
      && (forall a :: a in targets && !IsSubstring(a, call) ==> a + tail in r.lines && ls <= r.lines[a + tail])
      && (forall k :: k in r.lines ==>
            (k in t.lines && r.lines[k] == t.lines[k])
            || (Substituted(k, targets, call, tail) && r.lines[k] == (if k in t.lines then t.lines[k] else {}) + ls))
    decreases |targets|
  {
    if |targets| > 0 {
      var init := targets[..|targets| - 1];
      var a := targets[|targets| - 1];
      AddAliasesEffect(t, init, call, tail, ls);
      assert targets == init + [a];
      forall k | Substituted(k, init, call, tail)
        ensures Substituted(k, targets, call, tail)
      {
        var b :| b in init && !IsSubstring(b, call) && k == b + tail;
        assert b in targets;
      }
      if !IsSubstring(a, call) {
        assert Substituted(a + tail, targets, call, tail);
        var before := AddAliases(t, init, call, tail, ls);
        var r := AddAliases(t, targets, call, tail, ls);
        assert r == Add(before, a + tail, ls);
        forall k | k in r.lines
          ensures (k in t.lines && r.lines[k] == t.lines[k])
            || (Substituted(k, targets, call, tail) && r.lines[k] == (if k in t.lines then t.lines[k] else {}) + ls)
        {
          if k == a + tail {
            var prior := if k in t.lines then t.lines[k] else {};
            if k in before.lines {
              assert before.lines[k] == prior || before.lines[k] == prior + ls;
              assert r.lines[k] == before.lines[k] + ls;
              assert r.lines[k] == prior + ls;
            }
          } else {
            AddLeavesOthers(before, a + tail, ls, k);
          }
        }
      }
    }
  }

  /** `k` is `a + tail` for a name `a` among `targets` that does not occur in `call`. */
  predicate Substituted(k: string, targets: seq<string>, call: string, tail: string)
  {
    exists a :: a in targets && !IsSubstring(a, call) && k == a + tail
  }

  /** `results[call]` on a `defaultdict(set)`: the lines recorded for `call`,
      none when it has not been seen. */
  function LinesOf(t: Table, call: string): (ls: set<nat>)
    ensures call !in t.lines ==> ls == {}
  {
    if call in t.lines then t.lines[call] else {}
  }

  /** A first item that ends in `)` but is not itself an alias, while the text
      before its first `(` is, holds a `(`: indexing the second piece is safe. */
  lemma ParenthesisedHead(head: string)
    requires Split(head, '(')[0] != head
    ensures |Split(head, '(')| >= 2
  {
    if |Split(head, '(')| == 1 {
      JoinSplit(head, '(');
    }
  }

  /** The suffix `.rest` of a dotted call, empty when it has one item. */
  function Suffix(items: seq<string>): string
  {
    if |items| > 1 then "." + Join(items[1..], ".") else ""
  }

  /** One call of a round: substitute its first item when that item is an
      alias, or is a call of an alias; otherwise record its own lines again. */
  function ProcessCall(t: Table, call: string, aliases: map<string, seq<string>>): Table
  {
    var items := Split(call, '.');
    var suffix := Suffix(items);
    var ls := LinesOf(t, call);
    if items[0] in aliases then
      AddAliases(t, aliases[items[0]], call, suffix, ls)
    else if EndsWith(items[0], ")") && Split(items[0], '(')[0] in aliases then
      ParenthesisedHead(items[0]);
      var parts := Split(items[0], '(');
      AddAliases(t, aliases[parts[0]], call, "(" + parts[1] + suffix, ls)
    else
      Add(t, call, ls)
  }

  /** A call whose first item is an alias is recorded again, with its lines,
      under every name the alias stands for that it does not already contain. */
  lemma AliasedCallRecorded(t: Table, call: string, aliases: map<string, seq<string>>, a: string)
    requires Split(call, '.')[0] in aliases
    requires a in aliases[Split(call, '.')[0]] && !IsSubstring(a, call)
    ensures var r := ProcessCall(t, call, aliases);
      a + Suffix(Split(call, '.')) in r.lines && LinesOf(t, call) <= r.lines[a + Suffix(Split(call, '.'))]
  {
    var items := Split(call, '.');
    AddAliasesEffect(t, aliases[items[0]], call, Suffix(items), LinesOf(t, call));
  }

  /** Processing a call keeps the order listing every key once, and only grows the table. */
  lemma ProcessCallKeepsValid(t: Table, call: string, aliases: map<string, seq<string>>)
    requires Valid(t)
    ensures Valid(ProcessCall(t, call, aliases)) && Grows(t, ProcessCall(t, call, aliases))
  {
    var items := Split(call, '.');
    var ls := LinesOf(t, call);
    if items[0] in aliases {
      AddAliasesKeepsValid(t, aliases[items[0]], call, Suffix(items), ls);
    } else if EndsWith(items[0], ")") && Split(items[0], '(')[0] in aliases {
      ParenthesisedHead(items[0]);
      var parts := Split(items[0], '(');
      AddAliasesKeepsValid(t, aliases[parts[0]], call, "(" + parts[1] + Suffix(items), ls);
    } else {
      AddKeepsValid(t, call, ls);
    }
  }

  /** A call that involves no alias is left as it is. */
  lemma UnaliasedCallUnchanged(t: Table, call: string, aliases: map<string, seq<string>>)
    requires Valid(t) && call in t.lines
    requires Split(call, '.')[0] !in aliases
    requires !EndsWith(Split(call, '.')[0], ")") || Split(Split(call, '.')[0], '(')[0] !in aliases
    ensures ProcessCall(t, call, aliases) == t
  {
    assert t.lines[call] + t.lines[call] == t.lines[call];
    assert t.lines[call := t.lines[call]] == t.lines;
  }

  /** One round over the keys present when it started, in order; each key's
      lines are read as they are when its turn comes. */
  function Round(t: Table, keys: seq<string>, aliases: map<string, seq<string>>): Table
    decreases |keys|
  {
    if |keys| == 0 then t
    else ProcessCall(Round(t, keys[..|keys| - 1], aliases), keys[|keys| - 1], aliases)
  }

  /** A round keeps the order listing every key once, and only grows the table. */
  lemma {:induction false} RoundKeepsValid(t: Table, keys: seq<string>, aliases: map<string, seq<string>>)
    requires Valid(t)
    ensures Valid(Round(t, keys, aliases)) && Grows(t, Round(t, keys, aliases))
    decreases |keys|
  {
    if |keys| > 0 {
      var before := Round(t, keys[..|keys| - 1], aliases);
      RoundKeepsValid(t, keys[..|keys| - 1], aliases);
      ProcessCallKeepsValid(before, keys[|keys| - 1], aliases);
      GrowsTransitive(t, before, Round(t, keys, aliases));
    }
  }

  /** Where the outer loop stands: the table, the key count before the last
      round, and whether the loop has stopped. */
  datatype Progress = Progress(results: Table, prevLen: int, stopped: bool)

  /** One pass of the outer loop: stop when the last round added no key,
      otherwise run the round `next`. */
  function Step(s: Progress, next: Table -> Table): Progress
  {
    if s.stopped then s
    else if s.prevLen == |s.results.lines| then Progress(s.results, s.prevLen, true)
    else Progress(next(s.results), |s.results.lines|, false)
  }

  /** The outer loop after `n` passes, starting from the calls with no count. */
  function Passes(calls: Table, n: nat, next: Table -> Table): Progress
  {
    if n == 0 then Progress(calls, -1, false) else Step(Passes(calls, n - 1, next), next)
  }

  /** The round of `_resolve_aliases` over all keys present when it starts. */
  function NextRound(aliases: map<string, seq<string>>): Table -> Table
  {
    (t: Table) => Round(t, t.order, aliases)
  }

  /** `_resolve_aliases`: at most five passes. */
  function ResolvedAliases(calls: Table, aliases: map<string, seq<string>>): Table
  {
    Passes(calls, 5, NextRound(aliases)).results
  }

  /** A round keeps every key listed once, and only adds keys and lines. */
  lemma NextRoundKeepsValid(aliases: map<string, seq<string>>)
    ensures forall t {:trigger NextRound(aliases)(t)} :: Valid(t) ==> Valid(NextRound(aliases)(t)) && Grows(t, NextRound(aliases)(t))
  {
    forall t | Valid(t)
      ensures Valid(NextRound(aliases)(t)) && Grows(t, NextRound(aliases)(t))
    {
      RoundKeepsValid(t, t.order, aliases);
    }
  }

  /** Passes of a round that keeps the table valid and only grows it do the same. */
  lemma {:induction false} PassesKeepValid(calls: Table, n: nat, next: Table -> Table)
    requires Valid(calls)
    requires forall t {:trigger next(t)} :: Valid(t) ==> Valid(next(t)) && Grows(t, next(t))
    ensures Valid(Passes(calls, n, next).results)
    ensures Grows(calls, Passes(calls, n, next).results)
  {
    if n > 0 {
      var s := Passes(calls, n - 1, next);
      PassesKeepValid(calls, n - 1, next);
      GrowsTransitive(calls, s.results, Passes(calls, n, next).results);
    }
  }

  /** `_resolve_aliases` returns a dictionary, never removes a call nor a line
      number, and keeps the calls it was given first, in their order. */
  lemma OnlyAdds(calls: Table, aliases: map<string, seq<string>>)
    requires Valid(calls)
    ensures Valid(ResolvedAliases(calls, aliases))
    ensures Grows(calls, ResolvedAliases(calls, aliases))
  {
    NextRoundKeepsValid(aliases);
    PassesKeepValid(calls, 5, NextRound(aliases));
  }

  /** Once a round has added no key, later passes change nothing. */
  lemma {:induction false} SettledStaysSettled(calls: Table, k: nat, n: nat, next: Table -> Table)
    requires k <= n
    requires Passes(calls, k, next).prevLen == |Passes(calls, k, next).results.lines|
    ensures Passes(calls, n, next).results == Passes(calls, k, next).results
    ensures Passes(calls, n, next).prevLen == Passes(calls, k, next).prevLen
    decreases n
  {
    if n > k {
      SettledStaysSettled(calls, k, n - 1, next);
    }
  }

  /** The first pass always runs a round, since no count precedes it. */
  lemma FirstPassRuns(calls: Table, aliases: map<string, seq<string>>)
    ensures Passes(calls, 1, NextRound(aliases)) == Progress(Round(calls, calls.order, aliases), |calls.lines|, false)
  {
  }

  /** `key` is where a round records `call` for the name `a`: `a` is one of the
      names the call's first item stands for (or, for a first item `f(...)`,
      the names `f` stands for), and `a` does not occur in the call. */
  predicate Propagates(call: string, a: string, key: string, aliases: map<string, seq<string>>)
  {
    var items := Split(call, '.');
    var head := items[0];
    && !IsSubstring(a, call)
    && if head in aliases then a in aliases[head] && key == a + Suffix(items)
       else
         && EndsWith(head, ")") && Split(head, '(')[0] in aliases && |Split(head, '(')| >= 2
         && a in aliases[Split(head, '(')[0]] && key == a + "(" + Split(head, '(')[1] + Suffix(items)
  }

  /** Processing a call records it under each key it propagates to, with the
      lines it has at that moment. */
  lemma ProcessCallPropagates(t: Table, call: string, aliases: map<string, seq<string>>, a: string, key: string)
    requires Propagates(call, a, key, aliases)
    ensures key in ProcessCall(t, call, aliases).lines
    ensures LinesOf(t, call) <= ProcessCall(t, call, aliases).lines[key]
  {
    var items := Split(call, '.');
    var ls := LinesOf(t, call);
    if items[0] in aliases {
      AddAliasesEffect(t, aliases[items[0]], call, Suffix(items), ls);
    } else {
      ParenthesisedHead(items[0]);
      var parts := Split(items[0], '(');
      assert key == a + ("(" + parts[1] + Suffix(items));
      AddAliasesEffect(t, aliases[parts[0]], call, "(" + parts[1] + Suffix(items), ls);
    }
  }

  /** A round over keys that include `call` records it under the key it
      propagates to, with at least the lines it had when the round began. */
  lemma {:induction false} RoundPropagates(t: Table, keys: seq<string>, aliases: map<string, seq<string>>, call: string, a: string, key: string)
    requires Valid(t) && call in t.lines && call in keys
    requires Propagates(call, a, key, aliases)
    ensures key in Round(t, keys, aliases).lines
    ensures t.lines[call] <= Round(t, keys, aliases).lines[key]
    decreases |keys|
  {
    var n := |keys| - 1;
    var before := Round(t, keys[..n], aliases);
    RoundKeepsValid(t, keys[..n], aliases);
    if keys[n] == call {
      ProcessCallPropagates(before, call, aliases, a, key);
    } else {
      assert call in keys[..n];
      RoundPropagates(t, keys[..n], aliases, call, a, key);
      ProcessCallKeepsValid(before, keys[n], aliases);
    }
  }

  /** Later passes only grow the table of earlier ones. */
  lemma {:induction false} PassesGrow(calls: Table, k: nat, n: nat, next: Table -> Table)
    requires Valid(calls) && k <= n
    requires forall t {:trigger next(t)} :: Valid(t) ==> Valid(next(t)) && Grows(t, next(t))
    ensures Grows(Passes(calls, k, next).results, Passes(calls, n, next).results)
    decreases n
  {
    if n > k {
      var s := Passes(calls, n - 1, next);
      PassesGrow(calls, k, n - 1, next);
      PassesKeepValid(calls, n - 1, next);
      StepGrows(s, next);
      GrowsTransitive(Passes(calls, k, next).results, s.results, Step(s, next).results);
    }
  }

  /** One pass of the outer loop only grows the table. */
  lemma StepGrows(s: Progress, next: Table -> Table)
    requires Valid(s.results)
    requires forall t {:trigger next(t)} :: Valid(t) ==> Valid(next(t)) && Grows(t, next(t))
    ensures Grows(s.results, Step(s, next).results)
  {
    assert Grows(s.results, next(s.results));
  }

  /** The result of `_resolve_aliases` holds every key a given call propagates
      to, with at least the call's given lines. */
  lemma ResultPropagates(calls: Table, aliases: map<string, seq<string>>, call: string, a: string, key: string)
    requires Valid(calls) && call in calls.lines
    requires Propagates(call, a, key, aliases)
    ensures key in ResolvedAliases(calls, aliases).lines
    ensures calls.lines[call] <= ResolvedAliases(calls, aliases).lines[key]
  {
    NextRoundKeepsValid(aliases);
    FirstPassRuns(calls, aliases);
    RoundPropagates(calls, calls.order, aliases, call, a, key);
    PassesGrow(calls, 1, 5, NextRound(aliases));
  }

  /** A given call whose first item is an alias is, in the result, also recorded
      under each name the alias stands for that it does not contain, with at
      least its own lines. */
  lemma AliasesPropagated(calls: Table, aliases: map<string, seq<string>>, call: string, a: string)
    requires Valid(calls) && call in calls.lines
    requires Split(call, '.')[0] in aliases
    requires a in aliases[Split(call, '.')[0]] && !IsSubstring(a, call)
    ensures a + Suffix(Split(call, '.')) in ResolvedAliases(calls, aliases).lines
    ensures calls.lines[call] <= ResolvedAliases(calls, aliases).lines[a + Suffix(Split(call, '.'))]
  {
    ResultPropagates(calls, aliases, call, a, a + Suffix(Split(call, '.')));
  }

  /** The same for a given call whose first item is a call `f(...)` of an alias
      `f`: the name replaces `f` and the argument text stays. */
  lemma ParenthesisedAliasesPropagated(calls: Table, aliases: map<string, seq<string>>, call: string, a: string)
    requires Valid(calls) && call in calls.lines
    requires Split(call, '.')[0] !in aliases && EndsWith(Split(call, '.')[0], ")")
    requires Split(Split(call, '.')[0], '(')[0] in aliases
    requires a in aliases[Split(Split(call, '.')[0], '(')[0]] && !IsSubstring(a, call)
    ensures var parts := Split(Split(call, '.')[0], '(');
      && |parts| >= 2
      && a + "(" + parts[1] + Suffix(Split(call, '.')) in ResolvedAliases(calls, aliases).lines
      && calls.lines[call] <= ResolvedAliases(calls, aliases).lines[a + "(" + parts[1] + Suffix(Split(call, '.'))]
  {
    var head := Split(call, '.')[0];
    ParenthesisedHead(head);
    var parts := Split(head, '(');
    ResultPropagates(calls, aliases, call, a, a + "(" + parts[1] + Suffix(Split(call, '.')));
  }

  /** `_resolve_aliases`, as the nested loops of the source. */
  method ResolveAliases(calls: Table, aliases: map<string, seq<string>>) returns (results: Table)
    ensures results == ResolvedAliases(calls, aliases)
  {
    results := calls;
    var prevLen := -1;
    var round := 0;
    while round < 5 && prevLen != |results.lines|
      invariant 0 <= round <= 5
      invariant Passes(calls, round, NextRound(aliases)) == Progress(results, prevLen, false)
    {
      PassRunsRound(calls, round, results, prevLen, aliases);
      prevLen := |results.lines|;
      results := RunRound(results, aliases);
      round := round + 1;
    }
    LoopExit(calls, round, results, prevLen, aliases);
  }

  /** A pass that finds a new key count runs a round. */
  lemma PassRunsRound(calls: Table, n: nat, results: Table, prevLen: int, aliases: map<string, seq<string>>)
    requires Passes(calls, n, NextRound(aliases)) == Progress(results, prevLen, false)
    requires prevLen != |results.lines|
    ensures Passes(calls, n + 1, NextRound(aliases)) == Progress(Round(results, results.order, aliases), |results.lines|, false)
  {
  }

  /** Leaving the outer loop, by the count or by `break`, gives the result. */
  lemma LoopExit(calls: Table, n: nat, results: Table, prevLen: int, aliases: map<string, seq<string>>)
    requires n <= 5 && (n == 5 || prevLen == |results.lines|)
    requires Passes(calls, n, NextRound(aliases)) == Progress(results, prevLen, false)
    ensures results == ResolvedAliases(calls, aliases)
  {
    if n < 5 {
      SettledStaysSettled(calls, n, 5, NextRound(aliases));
    }
  }

  /** One round: the inner loop over a snapshot of the keys. */
  method RunRound(t: Table, aliases: map<string, seq<string>>) returns (results: Table)
    ensures results == Round(t, t.order, aliases)
  {
    results := t;
    var snapshot := t.order;
    for i := 0 to |snapshot|
      invariant results == Round(t, snapshot[..i], aliases)
    {
      assert snapshot[..i + 1][..i] == snapshot[..i];
      var call := snapshot[i];
      results := ProcessOne(results, call, aliases);
    }
    assert snapshot[..|snapshot|] == snapshot;
  }

  /** The body of the inner loop for one call. */
  method ProcessOne(t: Table, call: string, aliases: map<string, seq<string>>) returns (r: Table)
    ensures r == ProcessCall(t, call, aliases)
  {
    var items := Split(call, '.');
    var suffix := if |items| > 1 then "." + Join(items[1..], ".") else "";
    var ls := if call in t.lines then t.lines[call] else {};
    if items[0] in aliases {
      r := AddEach(t, aliases[items[0]], call, suffix, ls);
    } else if EndsWith(items[0], ")") && Split(items[0], '(')[0] in aliases {
      ParenthesisedHead(items[0]);
      var parts := Split(items[0], '(');
      r := AddEach(t, aliases[parts[0]], call, "(" + parts[1] + suffix, ls);
    } else {
      r := Add(t, call, ls);
    }
  }

  /** `for alias in aliases[...]: if alias not in call: results[alias + tail].update(ls)`. */
  method AddEach(t: Table, targets: seq<string>, call: string, tail: string, ls: set<nat>) returns (r: Table)
    ensures r == AddAliases(t, targets, call, tail, ls)
  {
    r := t;
    for j := 0 to |targets|
      invariant r == AddAliases(t, targets[..j], call, tail, ls)
    {
      assert targets[..j + 1][..j] == targets[..j];
      if !IsSubstring(targets[j], call) {
        r := Add(r, targets[j] + tail, ls);
      }
    }
    assert targets[..|targets|] == targets;
  }
}
