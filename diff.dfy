/** The API diff between two versions of a package: which functions, classes,
    variables and parameters were added, removed or changed, and which of those
    changes break clients. The source fills Python sets and dictionaries and
    iterates over them, so the order of the reported changes is not fixed; the
    model states the changes as a set (and, below the package level, states
    that each is reported once). */
module ApiDiff {
  import opened Wrappers
  import opened Text
  import opened Entity

  datatype DiffType =
    | ClsAdd | ClsRem
    | FuncAdd | FuncRem
    | ReqParamAdd | ReqParamRem
    | OptParamAdd | OptParamRem
    | ParamReorder
    | ParamDefValAdd | ParamDefValRem | ParamDefValChg
    | VarAdd | VarRem

  /** One API change. `param`, `oldValue` and `newValue` are set only for parameter changes. */
  datatype Diff = Diff(
    diffType: DiffType,
    apiName: string,
    param: Option<string>,
    oldValue: Option<string>,
    newValue: Option<string>)

  /** `Diff.is_breaking`: every change except an addition may break a client. */
  predicate IsBreaking(d: Diff): (r: bool)
    ensures !r <==> d.diffType == ClsAdd || d.diffType == FuncAdd || d.diffType == VarAdd
  {
    assert d.diffType.ClsAdd? || d.diffType.ClsRem? || d.diffType.FuncAdd? || d.diffType.FuncRem?
      || d.diffType.ReqParamAdd? || d.diffType.ReqParamRem? || d.diffType.OptParamAdd? || d.diffType.OptParamRem?
      || d.diffType.ParamReorder? || d.diffType.ParamDefValAdd? || d.diffType.ParamDefValRem?
      || d.diffType.ParamDefValChg? || d.diffType.VarAdd? || d.diffType.VarRem?;
    d.diffType in [ClsRem, FuncRem, VarRem, ReqParamAdd, ReqParamRem, OptParamAdd,
                   OptParamRem, ParamReorder, ParamDefValAdd, ParamDefValRem, ParamDefValChg]
  }

  /** The change of a whole API: named by `apiName` and nothing else. */
  function EntityChange(t: DiffType, name: string): Diff
  {
    Diff(t, name, None, None, None)
  }

  // ---------------------------------------------------------------------------
  // Default values

  /** `same_default_value`: two object reprs (`<...>`) count as the same value,
      and so do two calls of the same callee; otherwise the texts must agree. */
  predicate SameDefaultValue(v1: string, v2: string): (r: bool)
    ensures v1 == v2 ==> r
    ensures r ==> (StartsWith(v1, "<") && StartsWith(v2, "<")) || Split(v1, '(')[0] == Split(v2, '(')[0]
  {
    (StartsWith(v1, "<") && StartsWith(v2, "<"))
    || ('(' in v1 && '(' in v2 && Split(v1, '(')[0] == Split(v2, '(')[0])
    || v1 == v2
  }

  lemma SameDefaultValueEquivalence(u: string, v: string)
    ensures SameDefaultValue(v, v)
    ensures SameDefaultValue(u, v) <==> SameDefaultValue(v, u)
  {
  }

  /** Two calls of one callee are the same default, whatever their arguments. */
  lemma SameCallee(callee: string, a: string, b: string)
    requires '(' !in callee
    ensures SameDefaultValue(callee + "(" + a, callee + "(" + b)
  {
    SplitAround(callee, a, '(');
    SplitAround(callee, b, '(');
    assert (callee + "(" + a)[|callee|] == '(';
    assert (callee + "(" + b)[|callee|] == '(';
  }

  /** Plain literals (no `<`, no call) are the same default only if equal. */
  lemma LiteralDefaults(v1: string, v2: string)
    requires '(' !in v1 && !StartsWith(v1, "<")
    ensures SameDefaultValue(v1, v2) <==> v1 == v2
  {
  }

  // ---------------------------------------------------------------------------
  // The parameter tables of one function

  /** `p_all`, `opt`, `p2def` and `p2pos` for one function: all parameter names,
      those with a default, the default of each, and the position of each. */
  datatype ParamTable = ParamTable(
    all: set<string>,
    opt: set<string>,
    defaults: map<string, string>,
    positions: map<string, nat>)

  /** The tables as the loop fills them: a default only for a name with one,
      a position for every name. */
  type Table = t: ParamTable | t.opt <= t.all && t.defaults.Keys == t.opt && t.positions.Keys == t.all
    witness ParamTable({}, {}, map[], map[])

  function TableOf(args: seq<Argument>): (t: Table)
    decreases |args|
  {
    if |args| == 0 then ParamTable({}, {}, map[], map[])
    else
      var n := |args| - 1;
      TableStep(TableOf(args[..n]), args[n], n)
  }

  /** The tables after recording parameter `a` at position `n`. */
  function TableStep(t: Table, a: Argument, n: nat): Table
  {
    var u := if a.default.Some? then t.(opt := t.opt + {a.name}, defaults := t.defaults[a.name := a.default.value]) else t;
    u.(all := u.all + {a.name}, positions := u.positions[a.name := n])
  }

  /** What the tables hold: every name, whether some parameter of that name has
      a default, and the position and default of the last such parameter. */
  lemma {:induction false} TableNames(args: seq<Argument>, p: string)
    ensures p in TableOf(args).all <==> exists i :: 0 <= i < |args| && args[i].name == p
    ensures p in TableOf(args).opt <==> exists i :: 0 <= i < |args| && args[i].name == p && args[i].default.Some?
    decreases |args|
  {
    if |args| > 0 {
      var n := |args| - 1;
      var pre := args[..n];
      TableNames(pre, p);
      if p in TableOf(args).opt && !(args[n].name == p && args[n].default.Some?) {
        var i :| 0 <= i < n && pre[i].name == p && pre[i].default.Some?;
        assert args[i] == pre[i];
      }
      if p in TableOf(args).all && args[n].name != p {
        var i :| 0 <= i < n && pre[i].name == p;
        assert args[i] == pre[i];
      }
      if exists i :: 0 <= i < n && args[i].name == p {
        var i :| 0 <= i < n && args[i].name == p;
        assert args[i] == pre[i];
      }
      if exists i :: 0 <= i < n && args[i].name == p && args[i].default.Some? {
        var i :| 0 <= i < n && args[i].name == p && args[i].default.Some?;
        assert args[i] == pre[i];
      }
    }
  }

  lemma {:induction false} TablePosition(args: seq<Argument>, p: string)
    requires p in TableOf(args).positions
    ensures var i := TableOf(args).positions[p];
      i < |args| && args[i].name == p && forall j :: i < j < |args| ==> args[j].name != p
    decreases |args|
  {
    var n := |args| - 1;
    if args[n].name != p {
      TablePosition(args[..n], p);
      assert forall j :: 0 <= j < n ==> args[..n][j] == args[j];
    }
  }

  lemma TableDefault(args: seq<Argument>, p: string)
    requires p in TableOf(args).defaults
    ensures exists i :: (0 <= i < |args| && args[i].name == p && args[i].default == Some(TableOf(args).defaults[p])
      && forall j :: i < j < |args| && args[j].name == p ==> args[j].default.None?)
  {
    var i := LastDefaultOf(args, p);
  }

  /** The position of the last parameter named `p` with a default, whose
      default the table holds. */
  lemma {:induction false} LastDefaultOf(args: seq<Argument>, p: string) returns (i: nat)
    requires p in TableOf(args).defaults
    ensures i < |args| && args[i].name == p && args[i].default == Some(TableOf(args).defaults[p])
    ensures forall j :: i < j < |args| && args[j].name == p ==> args[j].default.None?
    decreases |args|
  {
    var n := |args| - 1;
    var pre := args[..n];
    assert TableOf(args) == TableStep(TableOf(pre), args[n], n);
    if args[n].name == p && args[n].default.Some? {
      i := n;
    } else {
      i := LastDefaultOf(pre, p);
      assert args[i] == pre[i];
      assert forall j :: 0 <= j < n ==> pre[j] == args[j];
    }
  }

  /** For a parameter list without repeated names (all a parser accepts), the
      tables give each parameter's own position and default. */
  lemma TableOfDistinct(args: seq<Argument>, i: nat)
    requires i < |args|
    requires forall j, k :: 0 <= j < k < |args| ==> args[j].name != args[k].name
    ensures var t := TableOf(args);
      && args[i].name in t.all
      && t.positions[args[i].name] == i
      && (args[i].name in t.opt <==> args[i].default.Some?)
      && (args[i].default.Some? ==> t.defaults[args[i].name] == args[i].default.value)
  {
    var p := args[i].name;
    TableNames(args, p);
    var t := TableOf(args);
    TablePosition(args, p);
    if args[i].default.Some? {
      var l := LastDefaultOf(args, p);
      assert l == i;
    }
  }

  /** The loop filling the tables of one function. */
  method Tabulate(args: seq<Argument>) returns (t: Table)
    ensures t == TableOf(args)
  {
    var all: set<string>, opt: set<string> := {}, {};
    var defaults: map<string, string>, positions: map<string, nat> := map[], map[];
    for pos := 0 to |args|
      invariant ParamTable(all, opt, defaults, positions) == TableOf(args[..pos])
    {
      assert args[..pos + 1][..pos] == args[..pos];
      var param := args[pos];
      all := all + {param.name};
      if param.default.Some? {
        opt := opt + {param.name};
        defaults := defaults[param.name := param.default.value];
      }
      positions := positions[param.name := pos];
    }
    t := ParamTable(all, opt, defaults, positions);
    assert args[..|args|] == args;
  }

  // ---------------------------------------------------------------------------
  // Function diffs

  /** The change for a parameter only in the new version. */
  function AddedParam(n: Table, name: string, p: string): Diff
  {
    Diff(if p in n.opt then OptParamAdd else ReqParamAdd, name, Some(p), None, None)
  }

  /** The change for a parameter only in the old version. */
  function RemovedParam(o: Table, name: string, p: string): Diff
  {
    Diff(if p in o.opt then OptParamRem else ReqParamRem, name, Some(p), None, None)
  }

  /** The changes for a parameter in both versions, in the order they are reported.
      A default present only in the old version is reported as `ParamDefValAdd`
      and one present only in the new version as `ParamDefValRem`. */
  function ParamChanges(o: Table, n: Table, name: string, p: string): seq<Diff>
  {
    (if p in o.opt && p !in n.opt then [Diff(ParamDefValAdd, name, Some(p), Some(o.defaults[p]), None)] else [])
    + (if p !in o.opt && p in n.opt then [Diff(ParamDefValRem, name, Some(p), None, Some(n.defaults[p]))] else [])
    + (if p in o.opt && p in n.opt && !SameDefaultValue(o.defaults[p], n.defaults[p])
       then [Diff(ParamDefValChg, name, Some(p), Some(o.defaults[p]), Some(n.defaults[p]))] else [])
    + (if p in o.positions && p in n.positions && o.positions[p] != n.positions[p]
       then [Diff(ParamReorder, name, Some(p), None, None)] else [])
  }

  function AddedParams(n: Table, name: string, ps: set<string>): set<Diff>
  {
    set p | p in ps :: AddedParam(n, name, p)
  }

  function RemovedParams(o: Table, name: string, ps: set<string>): set<Diff>
  {
    set p | p in ps :: RemovedParam(o, name, p)
  }

  function ChangedParams(o: Table, n: Table, name: string, ps: set<string>): set<Diff>
  {
    set p, d | p in ps && d in ParamChanges(o, n, name, p) :: d
  }

  /** Every change `diff_function` reports between `old` and `new`. */
  function FunctionDiffs(before: Function, after: Function, name: string): set<Diff>
  {
    TableDiffs(TableOf(before.args), TableOf(after.args), name)
  }

  function TableDiffs(o: Table, n: Table, name: string): set<Diff>
  {
    AddedParams(n, name, n.all - o.all)
    + RemovedParams(o, name, o.all - n.all)
    + ChangedParams(o, n, name, o.all * n.all)
  }

  // Counting: a set turned into a multiset holds each element once.

  lemma MultisetOfDisjoint<T>(a: set<T>, b: set<T>)
    requires a !! b
    ensures multiset(a + b) == multiset(a) + multiset(b)
  {
    forall x
      ensures multiset(a + b)[x] == (multiset(a) + multiset(b))[x]
    {
    }
  }

  lemma {:induction false} MultisetOfDistinct<T>(s: seq<T>)
    requires forall i, j :: 0 <= i < j < |s| ==> s[i] != s[j]
    ensures multiset(set x | x in s) == multiset(s)
    decreases |s|
  {
    if |s| > 0 {
      var n := |s| - 1;
      MultisetOfDistinct(s[..n]);
      assert (set x | x in s) == (set x | x in s[..n]) + {s[n]};
      assert s[n] !in s[..n];
      MultisetOfDisjoint(set x | x in s[..n], {s[n]});
      assert s == s[..n] + [s[n]];
    }
  }

  lemma ParamChangesDistinct(o: Table, n: Table, name: string, p: string)
    ensures var s := ParamChanges(o, n, name, p);
      forall i, j :: 0 <= i < j < |s| ==> s[i].diffType != s[j].diffType
    ensures forall d :: d in ParamChanges(o, n, name, p) ==> d.apiName == name && d.param == Some(p)
  {
  }

  /** The three kinds of parameter change never coincide. */
  lemma TableDiffsCount(o: Table, n: Table, name: string)
    ensures multiset(TableDiffs(o, n, name))
         == multiset(AddedParams(n, name, n.all - o.all))
          + multiset(RemovedParams(o, name, o.all - n.all))
          + multiset(ChangedParams(o, n, name, o.all * n.all))
  {
    var a, r, c := AddedParams(n, name, n.all - o.all), RemovedParams(o, name, o.all - n.all),
                   ChangedParams(o, n, name, o.all * n.all);
    ParamKinds(o, n, name, n.all - o.all, o.all - n.all, o.all * n.all);
    assert a !! r by {
      forall d | d in a ensures d !in r { }
    }
    MultisetOfDisjoint(a, r);
    assert a + r !! c by {
      forall d | d in a + r ensures d !in c { }
    }
    MultisetOfDisjoint(a + r, c);
  }

  lemma ParamKinds(o: Table, n: Table, name: string, added: set<string>, removed: set<string>, common: set<string>)
    ensures forall d :: d in AddedParams(n, name, added) ==> d.diffType == OptParamAdd || d.diffType == ReqParamAdd
    ensures forall d :: d in RemovedParams(o, name, removed) ==> d.diffType == OptParamRem || d.diffType == ReqParamRem
    ensures forall d :: d in ChangedParams(o, n, name, common) ==>
      d.diffType in {ParamDefValAdd, ParamDefValRem, ParamDefValChg, ParamReorder}
  {
    forall d | d in ChangedParams(o, n, name, common)
      ensures d.diffType in {ParamDefValAdd, ParamDefValRem, ParamDefValChg, ParamReorder}
    {
      var p :| p in common && d in ParamChanges(o, n, name, p);
    }
  }

  /** `diff_function`. */
  method DiffFunction(before: Function, after: Function, fullName: string) returns (diffs: seq<Diff>)
    ensures multiset(diffs) == multiset(FunctionDiffs(before, after, fullName))
  {
    var o := Tabulate(before.args);
    var n := Tabulate(after.args);
    var added := AddParams(n, n.all - o.all, fullName);
    var removed := RemoveParams(o, o.all - n.all, fullName);
    var changed := ChangeParams(o, n, fullName);
    diffs := added + removed + changed;
    TableDiffsCount(o, n, fullName);
  }

  lemma AddedStep(n: Table, name: string, done: set<string>, p: string)
    requires p !in done
    ensures multiset(AddedParams(n, name, done + {p}))
         == multiset(AddedParams(n, name, done)) + multiset{AddedParam(n, name, p)}
  {
    assert AddedParams(n, name, done + {p}) == AddedParams(n, name, done) + {AddedParam(n, name, p)};
    assert AddedParam(n, name, p) !in AddedParams(n, name, done);
    MultisetOfDisjoint(AddedParams(n, name, done), {AddedParam(n, name, p)});
  }

  lemma RemovedStep(o: Table, name: string, done: set<string>, p: string)
    requires p !in done
    ensures multiset(RemovedParams(o, name, done + {p}))
         == multiset(RemovedParams(o, name, done)) + multiset{RemovedParam(o, name, p)}
  {
    assert RemovedParams(o, name, done + {p}) == RemovedParams(o, name, done) + {RemovedParam(o, name, p)};
    assert RemovedParam(o, name, p) !in RemovedParams(o, name, done);
    MultisetOfDisjoint(RemovedParams(o, name, done), {RemovedParam(o, name, p)});
  }

  /** The loop over `p_all["new"] - p_all["old"]`. */
  method AddParams(n: Table, newNames: set<string>, fullName: string) returns (diffs: seq<Diff>)
    ensures multiset(diffs) == multiset(AddedParams(n, fullName, newNames))
  {
    diffs := [];
    var remaining := newNames;
    ghost var done: set<string> := {};
    while remaining != {}
      invariant remaining !! done && remaining + done == newNames
      invariant multiset(diffs) == multiset(AddedParams(n, fullName, done))
      decreases |remaining|
    {
      var p :| p in remaining;
      var kind := if p in n.opt then OptParamAdd else ReqParamAdd;
      diffs := diffs + [Diff(kind, fullName, Some(p), None, None)];
      AddedStep(n, fullName, done, p);
      remaining := remaining - {p};
      done := done + {p};
    }
  }

  /** The loop over `p_all["old"] - p_all["new"]`. */
  method RemoveParams(o: Table, oldNames: set<string>, fullName: string) returns (diffs: seq<Diff>)
    ensures multiset(diffs) == multiset(RemovedParams(o, fullName, oldNames))
  {
    diffs := [];
    var remaining := oldNames;
    ghost var done: set<string> := {};
    while remaining != {}
      invariant remaining !! done && remaining + done == oldNames
      invariant multiset(diffs) == multiset(RemovedParams(o, fullName, done))
      decreases |remaining|
    {
      var p :| p in remaining;
      var kind := if p in o.opt then OptParamRem else ReqParamRem;
      diffs := diffs + [Diff(kind, fullName, Some(p), None, None)];
      RemovedStep(o, fullName, done, p);
      remaining := remaining - {p};
      done := done + {p};
    }
  }

  /** The body of the loop over `p_all["old"] & p_all["new"]` for the parameter `p`. */
  method ParamStep(o: Table, n: Table, fullName: string, p: string) returns (step: seq<Diff>)
    requires p in o.all && p in n.all
    ensures step == ParamChanges(o, n, fullName, p)
  {
    step := [];
    if p in o.opt && p !in n.opt {
      step := step + [Diff(ParamDefValAdd, fullName, Some(p), Some(o.defaults[p]), None)];
    }
    if p !in o.opt && p in n.opt {
      step := step + [Diff(ParamDefValRem, fullName, Some(p), None, Some(n.defaults[p]))];
    }
    if p in o.opt && p in n.opt && !SameDefaultValue(o.defaults[p], n.defaults[p]) {
      step := step + [Diff(ParamDefValChg, fullName, Some(p), Some(o.defaults[p]), Some(n.defaults[p]))];
    }
    if o.positions[p] != n.positions[p] {
      step := step + [Diff(ParamReorder, fullName, Some(p), None, None)];
    }
  }

  /** Adding one more parameter to those already handled adds its own changes and no others. */
  lemma ChangedStep(o: Table, n: Table, name: string, done: set<string>, p: string)
    requires p !in done
    ensures multiset(ChangedParams(o, n, name, done + {p}))
         == multiset(ChangedParams(o, n, name, done)) + multiset(ParamChanges(o, n, name, p))
  {
    var s := ParamChanges(o, n, name, p);
    var mine := set d | d in s;
    ParamChangesDistinct(o, n, name, p);
    assert ChangedParams(o, n, name, done + {p}) == ChangedParams(o, n, name, done) + mine;
    forall d | d in ChangedParams(o, n, name, done)
      ensures d !in mine
    {
      var q :| q in done && d in ParamChanges(o, n, name, q);
      ParamChangesDistinct(o, n, name, q);
    }
    MultisetOfDisjoint(ChangedParams(o, n, name, done), mine);
    MultisetOfDistinct(s);
  }

  /** The loop over `p_all["old"] & p_all["new"]`. */
  method ChangeParams(o: Table, n: Table, fullName: string) returns (diffs: seq<Diff>)
    ensures multiset(diffs) == multiset(ChangedParams(o, n, fullName, o.all * n.all))
  {
    diffs := [];
    var remaining := o.all * n.all;
    ghost var done: set<string> := {};
    while remaining != {}
      invariant remaining !! done && remaining + done == o.all * n.all
      invariant multiset(diffs) == multiset(ChangedParams(o, n, fullName, done))
      decreases |remaining|
    {
      var p :| p in remaining;
      var step := ParamStep(o, n, fullName, p);
      diffs := diffs + step;
      ChangedStep(o, n, fullName, done, p);
      remaining := remaining - {p};
      done := done + {p};
    }
  }

  // ---------------------------------------------------------------------------
  // What a function diff reports

  /** No two parameters share a name, as in every function Python accepts. */
  predicate DistinctParams(f: Function)
  {
    forall j, k :: 0 <= j < k < |f.args| ==> f.args[j].name != f.args[k].name
  }

  /** A function compared with itself has no changes. */
  lemma IdenticalFunctionsNoDiff(f: Function, name: string)
    ensures FunctionDiffs(f, f, name) == {}
  {
    var t := TableOf(f.args);
    forall p | p in t.all
      ensures ParamChanges(t, t, name, p) == []
    {
      if p in t.opt {
        SameDefaultValueEquivalence(t.defaults[p], t.defaults[p]);
      }
    }
  }

  /** A parameter only in the new version is reported once, as optional exactly when it has a default there. */
  lemma AddedParameter(before: Function, after: Function, name: string, j: nat)
    requires j < |after.args|
    requires forall i :: 0 <= i < |before.args| ==> before.args[i].name != after.args[j].name
    requires DistinctParams(after)
    ensures var p := after.args[j].name;
      Diff(if after.args[j].default.Some? then OptParamAdd else ReqParamAdd, name, Some(p), None, None)
        in FunctionDiffs(before, after, name)
  {
    var p := after.args[j].name;
    TableNames(before.args, p);
    TableOfDistinct(after.args, j);
    var o, n := TableOf(before.args), TableOf(after.args);
    assert AddedParam(n, name, p) in AddedParams(n, name, n.all - o.all);
  }

  /** A parameter only in the old version is reported once, as optional exactly when it had a default. */
  lemma RemovedParameter(before: Function, after: Function, name: string, i: nat)
    requires i < |before.args|
    requires forall j :: 0 <= j < |after.args| ==> after.args[j].name != before.args[i].name
    requires DistinctParams(before)
    ensures var p := before.args[i].name;
      Diff(if before.args[i].default.Some? then OptParamRem else ReqParamRem, name, Some(p), None, None)
        in FunctionDiffs(before, after, name)
  {
    var p := before.args[i].name;
    TableNames(after.args, p);
    TableOfDistinct(before.args, i);
    var o, n := TableOf(before.args), TableOf(after.args);
    assert RemovedParam(o, name, p) in RemovedParams(o, name, o.all - n.all);
  }

  /** The default-value changes reported for a parameter present in both
      versions: a default that disappeared is labelled `ParamDefValAdd` (carrying
      the old default), one that appeared `ParamDefValRem` (carrying the new one),
      and a default the heuristic judges different `ParamDefValChg`. */
  lemma CommonParameterDefaults(before: Function, after: Function, name: string, i: nat, j: nat)
    requires i < |before.args| && j < |after.args| && before.args[i].name == after.args[j].name
    requires DistinctParams(before) && DistinctParams(after)
    ensures var p, u, v := before.args[i].name, before.args[i].default, after.args[j].default;
      var diffs := FunctionDiffs(before, after, name);
      && (Diff(ParamDefValAdd, name, Some(p), u, None) in diffs <==> u.Some? && v.None?)
      && (Diff(ParamDefValRem, name, Some(p), None, v) in diffs <==> u.None? && v.Some?)
      && (Diff(ParamDefValChg, name, Some(p), u, v) in diffs <==> u.Some? && v.Some? && !SameDefaultValue(u.value, v.value))
  {
    var p, u, v := before.args[i].name, before.args[i].default, after.args[j].default;
    TableOfDistinct(before.args, i);
    TableOfDistinct(after.args, j);
    var o, n := TableOf(before.args), TableOf(after.args);
    ChangesOfCommon(o, n, name, p);
    DefaultChanges(o, n, name, p, u, v);
  }

  lemma DefaultChanges(o: Table, n: Table, name: string, p: string, u: Option<string>, v: Option<string>)
    requires p in o.all && p in n.all
    requires (p in o.opt <==> u.Some?) && (u.Some? ==> o.defaults[p] == u.value)
    requires (p in n.opt <==> v.Some?) && (v.Some? ==> n.defaults[p] == v.value)
    ensures var mine := ParamChanges(o, n, name, p);
      && (Diff(ParamDefValAdd, name, Some(p), u, None) in mine <==> u.Some? && v.None?)
      && (Diff(ParamDefValRem, name, Some(p), None, v) in mine <==> u.None? && v.Some?)
      && (Diff(ParamDefValChg, name, Some(p), u, v) in mine <==> u.Some? && v.Some? && !SameDefaultValue(u.value, v.value))
  {
  }

  /** A parameter present in both versions is reported as reordered exactly when its position changed. */
  lemma CommonParameterPosition(before: Function, after: Function, name: string, i: nat, j: nat)
    requires i < |before.args| && j < |after.args| && before.args[i].name == after.args[j].name
    requires DistinctParams(before) && DistinctParams(after)
    ensures Diff(ParamReorder, name, Some(before.args[i].name), None, None) in FunctionDiffs(before, after, name) <==> i != j
  {
    var p := before.args[i].name;
    TableOfDistinct(before.args, i);
    TableOfDistinct(after.args, j);
    ChangesOfCommon(TableOf(before.args), TableOf(after.args), name, p);
  }

  /** The changes of a common parameter in the whole function diff are those of the parameter itself. */
  lemma ChangesOfCommon(o: Table, n: Table, name: string, p: string)
    requires p in o.all && p in n.all
    ensures forall d: Diff :: d.param == Some(p) && d.diffType in {ParamDefValAdd, ParamDefValRem, ParamDefValChg, ParamReorder} ==>
      (d in TableDiffs(o, n, name) <==> d in ParamChanges(o, n, name, p))
  {
    var mine := ParamChanges(o, n, name, p);
    assert forall d :: d in mine ==> d in ChangedParams(o, n, name, o.all * n.all);
    ParamKinds(o, n, name, n.all - o.all, o.all - n.all, o.all * n.all);
    forall d | d in ChangedParams(o, n, name, o.all * n.all) && d.param == Some(p)
      ensures d in mine
    {
      var q :| q in o.all * n.all && d in ParamChanges(o, n, name, q);
      ParamChangesDistinct(o, n, name, q);
    }
  }

  /** Every change of a function diff is a parameter change of that function. */
  lemma FunctionDiffsShape(before: Function, after: Function, name: string)
    ensures forall d :: d in FunctionDiffs(before, after, name) ==>
      d.apiName == name && d.param.Some? && d.diffType !in {ClsAdd, ClsRem, FuncAdd, FuncRem, VarAdd, VarRem}
  {
    var o, n := TableOf(before.args), TableOf(after.args);
    ParamKinds(o, n, name, n.all - o.all, o.all - n.all, o.all * n.all);
    forall d | d in ChangedParams(o, n, name, o.all * n.all)
      ensures d.apiName == name && d.param.Some?
    {
      var q :| q in o.all * n.all && d in ParamChanges(o, n, name, q);
      ParamChangesDistinct(o, n, name, q);
    }
  }

  // ---------------------------------------------------------------------------
  // Class diffs

  /** `{f.name: f for f in methods}`: the last method of each name. */
  function MethodMap(ms: seq<Function>): map<string, Function>
    decreases |ms|
  {
    if |ms| == 0 then map[]
    else MethodMap(ms[..|ms| - 1])[ms[|ms| - 1].name := ms[|ms| - 1]]
  }

  lemma MethodMapMeaning(ms: seq<Function>)
    ensures MethodMap(ms).Keys == set f | f in ms :: f.name
    ensures forall x :: x in MethodMap(ms) ==>
      exists i :: (0 <= i < |ms| && ms[i] == MethodMap(ms)[x] && ms[i].name == x
        && forall j :: i < j < |ms| ==> ms[j].name != x)
  {
    MethodMapKeys(ms);
    forall x | x in MethodMap(ms)
      ensures exists i :: (0 <= i < |ms| && ms[i] == MethodMap(ms)[x] && ms[i].name == x
        && forall j :: i < j < |ms| ==> ms[j].name != x)
    {
      var i := LastMethodOf(ms, x);
    }
  }

  lemma {:induction false} MethodMapKeys(ms: seq<Function>)
    ensures MethodMap(ms).Keys == set f | f in ms :: f.name
    decreases |ms|
  {
    if |ms| > 0 {
      var n := |ms| - 1;
      MethodMapKeys(ms[..n]);
      assert ms == ms[..n] + [ms[n]];
    }
  }

  /** The position of the method the table holds under `x`: the last of that name. */
  lemma {:induction false} LastMethodOf(ms: seq<Function>, x: string) returns (i: nat)
    requires x in MethodMap(ms)
    ensures i < |ms| && ms[i] == MethodMap(ms)[x] && ms[i].name == x
    ensures forall j :: i < j < |ms| ==> ms[j].name != x
    decreases |ms|
  {
    var n := |ms| - 1;
    if x == ms[n].name {
      i := n;
    } else {
      i := LastMethodOf(ms[..n], x);
      assert ms[i] == ms[..n][i];
      assert forall j :: 0 <= j < n ==> ms[..n][j] == ms[j];
    }
  }

  /** The names of the fields and static fields of a class. */
  function VariableNames(c: Class): set<string>
  {
    set v | v in c.fields + c.staticFields :: v.name
  }

  /** One whole-API change of kind `t` for each name, qualified by `full`. */
  function NameChanges(names: set<string>, t: DiffType, full: string): set<Diff>
  {
    set x | x in names :: EntityChange(t, full + "." + x)
  }

  /** The function diffs of the methods named `names`, present on both sides. */
  function MethodChanges(om: map<string, Function>, nm: map<string, Function>, full: string, names: set<string>): set<Diff>
  {
    set f, d | f in names && f in om && f in nm && d in FunctionDiffs(om[f], nm[f], full + "." + f) :: d
  }

  /** Every change `diff_class` reports between `before` and `after`. */
  function ClassDiffs(before: Class, after: Class, full: string): set<Diff>
  {
    var ov, nv := VariableNames(before), VariableNames(after);
    var om, nm := MethodMap(before.methods), MethodMap(after.methods);
    NameChanges(ov - nv, VarRem, full) + NameChanges(nv - ov, VarAdd, full)
    + NameChanges(om.Keys - nm.Keys, FuncRem, full) + NameChanges(nm.Keys - om.Keys, FuncAdd, full)
    + MethodChanges(om, nm, full, nm.Keys * om.Keys)
  }

  /** Qualifying two different names by the same prefix gives different names. */
  lemma QualifiedInjective(full: string, x: string, y: string)
    ensures full + "." + x == full + "." + y ==> x == y
  {
    if full + "." + x == full + "." + y {
      assert (full + "." + x)[|full| + 1..] == x;
      assert (full + "." + y)[|full| + 1..] == y;
    }
  }

  /** The loop `for name in names: diffs.append(Diff(t, full_name + "." + name))`. */
  method ReportNames(names: set<string>, t: DiffType, fullName: string) returns (diffs: seq<Diff>)
    ensures multiset(diffs) == multiset(NameChanges(names, t, fullName))
  {
    diffs := [];
    var remaining := names;
    ghost var done: set<string> := {};
    while remaining != {}
      invariant remaining !! done && remaining + done == names
      invariant multiset(diffs) == multiset(NameChanges(done, t, fullName))
      decreases |remaining|
    {
      var x :| x in remaining;
      diffs := diffs + [Diff(t, fullName + "." + x, None, None, None)];
      NameStep(done, t, fullName, x);
      remaining := remaining - {x};
      done := done + {x};
    }
  }

  lemma NameStep(done: set<string>, t: DiffType, full: string, x: string)
    requires x !in done
    ensures multiset(NameChanges(done + {x}, t, full))
         == multiset(NameChanges(done, t, full)) + multiset{EntityChange(t, full + "." + x)}
  {
    var d := EntityChange(t, full + "." + x);
    assert NameChanges(done + {x}, t, full) == NameChanges(done, t, full) + {d};
    forall y | y in done
      ensures EntityChange(t, full + "." + y) != d
    {
      QualifiedInjective(full, x, y);
    }
    MultisetOfDisjoint(NameChanges(done, t, full), {d});
  }

  lemma MethodStep(om: map<string, Function>, nm: map<string, Function>, full: string, done: set<string>, f: string)
    requires f !in done && f in om && f in nm
    ensures multiset(MethodChanges(om, nm, full, done + {f}))
         == multiset(MethodChanges(om, nm, full, done)) + multiset(FunctionDiffs(om[f], nm[f], full + "." + f))
  {
    var mine := FunctionDiffs(om[f], nm[f], full + "." + f);
    assert MethodChanges(om, nm, full, done + {f}) == MethodChanges(om, nm, full, done) + mine;
    FunctionDiffsShape(om[f], nm[f], full + "." + f);
    forall d | d in MethodChanges(om, nm, full, done)
      ensures d !in mine
    {
      var g :| g in done && g in om && g in nm && d in FunctionDiffs(om[g], nm[g], full + "." + g);
      FunctionDiffsShape(om[g], nm[g], full + "." + g);
      QualifiedInjective(full, f, g);
    }
    MultisetOfDisjoint(MethodChanges(om, nm, full, done), mine);
  }

  /** The loop over the methods present in both versions. */
  method ReportMethods(om: map<string, Function>, nm: map<string, Function>, fullName: string) returns (diffs: seq<Diff>)
    ensures multiset(diffs) == multiset(MethodChanges(om, nm, fullName, nm.Keys * om.Keys))
  {
    diffs := [];
    var remaining := nm.Keys * om.Keys;
    ghost var done: set<string> := {};
    while remaining != {}
      invariant remaining !! done && remaining + done == nm.Keys * om.Keys
      invariant multiset(diffs) == multiset(MethodChanges(om, nm, fullName, done))
      decreases |remaining|
    {
      var f :| f in remaining;
      var step := DiffFunction(om[f], nm[f], fullName + "." + f);
      diffs := diffs + step;
      MethodStep(om, nm, fullName, done, f);
      remaining := remaining - {f};
      done := done + {f};
    }
  }

  /** The five parts of a class diff never share a change. */
  lemma ClassDiffsCount(before: Class, after: Class, full: string)
    ensures var ov, nv := VariableNames(before), VariableNames(after);
      var om, nm := MethodMap(before.methods), MethodMap(after.methods);
      multiset(ClassDiffs(before, after, full))
        == multiset(NameChanges(ov - nv, VarRem, full)) + multiset(NameChanges(nv - ov, VarAdd, full))
         + multiset(NameChanges(om.Keys - nm.Keys, FuncRem, full)) + multiset(NameChanges(nm.Keys - om.Keys, FuncAdd, full))
         + multiset(MethodChanges(om, nm, full, nm.Keys * om.Keys))
  {
    var ov, nv := VariableNames(before), VariableNames(after);
    var om, nm := MethodMap(before.methods), MethodMap(after.methods);
    var a, b, c, d := NameChanges(ov - nv, VarRem, full), NameChanges(nv - ov, VarAdd, full),
                      NameChanges(om.Keys - nm.Keys, FuncRem, full), NameChanges(nm.Keys - om.Keys, FuncAdd, full);
    var e := MethodChanges(om, nm, full, nm.Keys * om.Keys);
    forall x | x in e
      ensures x.diffType !in {ClsAdd, ClsRem, FuncAdd, FuncRem, VarAdd, VarRem}
    {
      var f :| f in nm.Keys * om.Keys && f in om && f in nm && x in FunctionDiffs(om[f], nm[f], full + "." + f);
      FunctionDiffsShape(om[f], nm[f], full + "." + f);
    }
    MultisetOfDisjoint(a, b);
    MultisetOfDisjoint(a + b, c);
    MultisetOfDisjoint(a + b + c, d);
    MultisetOfDisjoint(a + b + c + d, e);
  }

  /** `diff_class`. Methods are always functions here, so every method present
      on both sides is diffed. */
  method DiffClass(before: Class, after: Class, fullName: string) returns (diffs: seq<Diff>)
    ensures multiset(diffs) == multiset(ClassDiffs(before, after, fullName))
  {
    var ov, nv := VariableNames(before), VariableNames(after);
    var om, nm := MethodMap(before.methods), MethodMap(after.methods);
    var varRem := ReportNames(ov - nv, VarRem, fullName);
    var varAdd := ReportNames(nv - ov, VarAdd, fullName);
    var funcRem := ReportNames(om.Keys - nm.Keys, FuncRem, fullName);
    var funcAdd := ReportNames(nm.Keys - om.Keys, FuncAdd, fullName);
    var changed := ReportMethods(om, nm, fullName);
    diffs := varRem + varAdd + funcRem + funcAdd + changed;
    ClassDiffsCount(before, after, fullName);
  }

  /** A class compared with itself has no changes. */
  lemma IdenticalClassesNoDiff(c: Class, full: string)
    ensures ClassDiffs(c, c, full) == {}
  {
    var om := MethodMap(c.methods);
    forall f | f in om
      ensures FunctionDiffs(om[f], om[f], full + "." + f) == {}
    {
      IdenticalFunctionsNoDiff(om[f], full + "." + f);
    }
  }

  /** A change of a class diff that concerns a whole member is not a method's parameter change. */
  lemma MethodChangesShape(om: map<string, Function>, nm: map<string, Function>, full: string, names: set<string>)
    ensures forall d :: d in MethodChanges(om, nm, full, names) ==> d.diffType !in {ClsAdd, ClsRem, FuncAdd, FuncRem, VarAdd, VarRem}
  {
    forall d | d in MethodChanges(om, nm, full, names)
      ensures d.diffType !in {ClsAdd, ClsRem, FuncAdd, FuncRem, VarAdd, VarRem}
    {
      var f :| f in names && f in om && f in nm && d in FunctionDiffs(om[f], nm[f], full + "." + f);
      FunctionDiffsShape(om[f], nm[f], full + "." + f);
    }
  }

  /** Which variables a class diff reports as added or removed: a field or static
      field named in one version only. */
  lemma VariableChanges(before: Class, after: Class, full: string, x: string)
    ensures EntityChange(VarAdd, full + "." + x) in ClassDiffs(before, after, full)
        <==> x in VariableNames(after) - VariableNames(before)
    ensures EntityChange(VarRem, full + "." + x) in ClassDiffs(before, after, full)
        <==> x in VariableNames(before) - VariableNames(after)
  {
    var om, nm := MethodMap(before.methods), MethodMap(after.methods);
    MethodChangesShape(om, nm, full, nm.Keys * om.Keys);
    forall y | full + "." + y == full + "." + x
      ensures y == x
    {
      QualifiedInjective(full, x, y);
    }
  }

  /** Which methods a class diff reports as added or removed: a method named in one version only. */
  lemma MethodAddRemove(before: Class, after: Class, full: string, x: string)
    ensures EntityChange(FuncAdd, full + "." + x) in ClassDiffs(before, after, full) <==>
      (exists f :: f in after.methods && f.name == x) && !(exists f :: f in before.methods && f.name == x)
    ensures EntityChange(FuncRem, full + "." + x) in ClassDiffs(before, after, full) <==>
      (exists f :: f in before.methods && f.name == x) && !(exists f :: f in after.methods && f.name == x)
  {
    MethodAdded(before, after, full, x);
    MethodRemoved(before, after, full, x);
  }

  lemma MethodAdded(before: Class, after: Class, full: string, x: string)
    ensures EntityChange(FuncAdd, full + "." + x) in ClassDiffs(before, after, full) <==>
      (exists f :: f in after.methods && f.name == x) && !(exists f :: f in before.methods && f.name == x)
  {
    var ov, nv := VariableNames(before), VariableNames(after);
    var om, nm := MethodMap(before.methods), MethodMap(after.methods);
    MethodMapMeaning(before.methods);
    MethodMapMeaning(after.methods);
    MethodChangesShape(om, nm, full, nm.Keys * om.Keys);
    NameChangesType(ov - nv, VarRem, full);
    NameChangesType(nv - ov, VarAdd, full);
    NameChangesType(om.Keys - nm.Keys, FuncRem, full);
    NameChangeIn(nm.Keys - om.Keys, FuncAdd, full, x);
  }

  lemma MethodRemoved(before: Class, after: Class, full: string, x: string)
    ensures EntityChange(FuncRem, full + "." + x) in ClassDiffs(before, after, full) <==>
      (exists f :: f in before.methods && f.name == x) && !(exists f :: f in after.methods && f.name == x)
  {
    var ov, nv := VariableNames(before), VariableNames(after);
    var om, nm := MethodMap(before.methods), MethodMap(after.methods);
    MethodMapMeaning(before.methods);
    MethodMapMeaning(after.methods);
    MethodChangesShape(om, nm, full, nm.Keys * om.Keys);
    NameChangesType(ov - nv, VarRem, full);
    NameChangesType(nv - ov, VarAdd, full);
    NameChangesType(nm.Keys - om.Keys, FuncAdd, full);
    NameChangeIn(om.Keys - nm.Keys, FuncRem, full, x);
  }

  /** Every change a name list produces has the list's change type. */
  lemma NameChangesType(names: set<string>, t: DiffType, full: string)
    ensures forall d :: d in NameChanges(names, t, full) ==> d.diffType == t
  {
  }

  /** A name's change is in the list exactly when the name is. */
  lemma NameChangeIn(names: set<string>, t: DiffType, full: string, x: string)
    ensures EntityChange(t, full + "." + x) in NameChanges(names, t, full) <==> x in names
  {
    if EntityChange(t, full + "." + x) in NameChanges(names, t, full) {
      var y :| y in names && EntityChange(t, full + "." + y) == EntityChange(t, full + "." + x);
      QualifiedInjective(full, x, y);
    }
  }



  // ---------------------------------------------------------------------------
  // Entity diffs

  /** The `ValueError` raised when two entities cannot be compared. */
  datatype DiffError = CannotDiff

  predicate IsAlias(e: Option<Entity>)
  {
    e.Some? && (e.value.AliasE? || e.value.WildcardE?)
  }

  /** `type(old) == type(new)`. */
  predicate SameKind(a: Entity, b: Entity)
  {
    && (a.FunctionE? <==> b.FunctionE?) && (a.VariableE? <==> b.VariableE?)
    && (a.ClassE? <==> b.ClassE?) && (a.PackageE? <==> b.PackageE?)
    && (a.AliasE? <==> b.AliasE?) && (a.WildcardE? <==> b.WildcardE?)
  }

  /** The change of an entity present in one version only, or `ValueError` for a
      package or a missing entity. */
  function Appeared(e: Option<Entity>, cls: DiffType, func: DiffType, variable: DiffType, full: string): Result<set<Diff>, DiffError>
  {
    if e.Some? && e.value.ClassE? then Ok({EntityChange(cls, full)})
    else if e.Some? && e.value.FunctionE? then Ok({EntityChange(func, full)})
    else if e.Some? && e.value.VariableE? then Ok({EntityChange(variable, full)})
    else Err(CannotDiff)
  }

  /** Every change `diff_entity` reports, or the error it raises. */
  function EntityDiffs(before: Option<Entity>, after: Option<Entity>, full: string): Result<set<Diff>, DiffError>
  {
    if IsAlias(before) || IsAlias(after) then Ok({})
    else if before.None? then Appeared(after, ClsAdd, FuncAdd, VarAdd, full)
    else if after.None? then Appeared(before, ClsRem, FuncRem, VarRem, full)
    else if !SameKind(before.value, after.value) then Err(CannotDiff)
    else match (before.value, after.value)
      case (FunctionE(f), FunctionE(g)) => Ok(FunctionDiffs(f, g, full))
      case (ClassE(c), ClassE(d)) => Ok(ClassDiffs(c, d, full))
      case _ => Ok({})
  }

  /** `diff_entity`. */
  method DiffEntity(before: Option<Entity>, after: Option<Entity>, fullName: string) returns (r: Result<seq<Diff>, DiffError>)
    ensures r.Err? <==> EntityDiffs(before, after, fullName).Err?
    ensures r.Ok? ==> multiset(r.value) == multiset(EntityDiffs(before, after, fullName).value)
  {
    if IsAlias(before) || IsAlias(after) {
      return Ok([]);
    }
    if before.None? {
      var t;
      if after.Some? && after.value.ClassE? {
        t := ClsAdd;
      } else if after.Some? && after.value.FunctionE? {
        t := FuncAdd;
      } else if after.Some? && after.value.VariableE? {
        t := VarAdd;
      } else {
        return Err(CannotDiff);
      }
      return Ok([Diff(t, fullName, None, None, None)]);
    } else if after.None? {
      var t;
      if before.value.ClassE? {
        t := ClsRem;
      } else if before.value.FunctionE? {
        t := FuncRem;
      } else if before.value.VariableE? {
        t := VarRem;
      } else {
        return Err(CannotDiff);
      }
      return Ok([Diff(t, fullName, None, None, None)]);
    } else {
      if !SameKind(before.value, after.value) {
        return Err(CannotDiff);
      }
      if before.value.FunctionE? && after.value.FunctionE? {
        var diffs := DiffFunction(before.value.f, after.value.f, fullName);
        return Ok(diffs);
      } else if before.value.ClassE? && after.value.ClassE? {
        var diffs := DiffClass(before.value.c, after.value.c, fullName);
        return Ok(diffs);
      }
    }
    return Ok([]);
  }

  /** When `diff_entity` raises: neither side an alias, and either nothing to
      compare, a package against nothing, or two entities of different kinds. */
  lemma EntityDiffErrors(before: Option<Entity>, after: Option<Entity>, full: string)
    ensures EntityDiffs(before, after, full).Err? <==>
      !IsAlias(before) && !IsAlias(after) &&
      ((before.None? && after.None?)
       || (before.None? && after.Some? && after.value.PackageE?)
       || (after.None? && before.Some? && before.value.PackageE?)
       || (before.Some? && after.Some? && !SameKind(before.value, after.value)))
  {
  }

  /** An entity that appeared is reported once, as an addition, which breaks no
      client; one that disappeared is reported once, as a breaking removal. */
  lemma AppearanceBreaking(e: Entity, full: string)
    requires !e.AliasE? && !e.WildcardE? && !e.PackageE?
    ensures var added := EntityDiffs(None, Some(e), full);
      added.Ok? && |added.value| == 1 && forall d :: d in added.value ==> !IsBreaking(d) && d.apiName == full
    ensures var removed := EntityDiffs(Some(e), None, full);
      removed.Ok? && |removed.value| == 1 && forall d :: d in removed.value ==> IsBreaking(d) && d.apiName == full
  {
  }

  /** Two equal entities have no changes, whatever their kind. */
  lemma IdenticalEntitiesNoDiff(e: Entity, full: string)
    ensures EntityDiffs(Some(e), Some(e), full) == Ok({})
  {
    match e
    case FunctionE(f) => IdenticalFunctionsNoDiff(f, full);
    case ClassE(c) => IdenticalClassesNoDiff(c, full);
    case _ =>
  }

  // ---------------------------------------------------------------------------
  // Package diffs

  /** The module `m` of one version when `key` is one of its keys, else `None`. */
  function Side(pkgs: map<string, Package>, m: string, key: string): Option<Package>
  {
    if m in pkgs && key in KeysOf(pkgs[m], true) then Some(pkgs[m]) else None
  }

  /** The keys of module `m` in either version. */
  function ModuleKeys(before: map<string, Package>, after: map<string, Package>, m: string): seq<string>
  {
    (if m in before then KeysOf(before[m], true) else []) + (if m in after then KeysOf(after[m], true) else [])
  }

  /** What one key contributes: the entity diff of `before[key]` and `after[key]`
      from the sides that have the key. A failed lookup or a `ValueError`
      contributes nothing, and two entities of different kinds are not compared. */
  function KeyDiffs(before: Option<Package>, after: Option<Package>, key: string): set<Diff>
  {
    if before.Some? && after.None? then
      match Index(before.value, key)
      case Err(_) => {}
      case Ok(e) => (match EntityDiffs(Some(e), None, key) case Ok(ds) => ds case Err(_) => {})
    else if before.None? && after.Some? then
      match Index(after.value, key)
      case Err(_) => {}
      case Ok(e) => (match EntityDiffs(None, Some(e), key) case Ok(ds) => ds case Err(_) => {})
    else if before.Some? && after.Some? then
      match (Index(before.value, key), Index(after.value, key))
      case (Ok(x), Ok(y)) =>
        if SameKind(x, y) then (match EntityDiffs(Some(x), Some(y), key) case Ok(ds) => ds case Err(_) => {})
        else {}
      case _ => {}
    else {}
  }

  /** Every change `diff_pkg` reports between two versions, each a map from
      top-level package name to package. */
  function PkgDiffs(before: map<string, Package>, after: map<string, Package>): set<Diff>
  {
    set m, k, d | m in before.Keys + after.Keys && k in ModuleKeys(before, after, m)
                  && d in KeyDiffs(Side(before, m, k), Side(after, m, k), k) :: d
  }

  /** The changes reported for module `m`. */
  ghost predicate Reported(before: map<string, Package>, after: map<string, Package>, m: string, d: Diff)
  {
    exists k :: k in ModuleKeys(before, after, m) && d in KeyDiffs(Side(before, m, k), Side(after, m, k), k)
  }

  lemma SeqMembership(s: seq<Diff>, t: set<Diff>)
    requires multiset(s) == multiset(t)
    ensures forall d :: d in s <==> d in t
  {
    forall d
      ensures d in s <==> d in t
    {
      assert d in s <==> d in multiset(s);
      assert d in t <==> d in multiset(t);
    }
  }

  /** The body of one `try` block: look the key up on the sides that have it
      and diff the entities; `KeyError` and `ValueError` are skipped. */
  method DiffKey(before: Option<Package>, after: Option<Package>, key: string) returns (diffs: seq<Diff>)
    ensures forall d :: d in diffs <==> d in KeyDiffs(before, after, key)
  {
    diffs := [];
    if before.Some? && after.None? {
      var e := GetItem(before.value, key);
      if e.Err? {
        return;
      }
      var r := DiffEntity(Some(e.value), None, key);
      if r.Ok? {
        diffs := r.value;
        SeqMembership(diffs, EntityDiffs(Some(e.value), None, key).value);
      }
    } else if before.None? && after.Some? {
      var e := GetItem(after.value, key);
      if e.Err? {
        return;
      }
      var r := DiffEntity(None, Some(e.value), key);
      if r.Ok? {
        diffs := r.value;
        SeqMembership(diffs, EntityDiffs(None, Some(e.value), key).value);
      }
    } else if before.Some? && after.Some? {
      var x := GetItem(before.value, key);
      if x.Err? {
        return;
      }
      var y := GetItem(after.value, key);
      if y.Err? {
        return;
      }
      if SameKind(x.value, y.value) {
        EntityDiffErrors(Some(x.value), Some(y.value), key);
        var r := DiffEntity(Some(x.value), Some(y.value), key);
        diffs := r.value;
        SeqMembership(diffs, EntityDiffs(Some(x.value), Some(y.value), key).value);
      }
    }
  }

  /** `for key in keys: try: ...` over a list of keys. */
  method DiffKeyList(before: Option<Package>, after: Option<Package>, keys: seq<string>) returns (diffs: seq<Diff>)
    ensures forall d :: d in diffs <==> exists i :: 0 <= i < |keys| && d in KeyDiffs(before, after, keys[i])
  {
    diffs := [];
    for i := 0 to |keys|
      invariant forall d :: d in diffs <==> exists j :: 0 <= j < i && d in KeyDiffs(before, after, keys[j])
    {
      var step := DiffKey(before, after, keys[i]);
      diffs := diffs + step;
    }
  }

  /** `for key in keys: try: ...` over a set of keys. */
  method DiffKeySet(before: Option<Package>, after: Option<Package>, keys: set<string>) returns (diffs: seq<Diff>)
    ensures forall d :: d in diffs <==> exists k :: k in keys && d in KeyDiffs(before, after, k)
  {
    diffs := [];
    var remaining := keys;
    ghost var done: set<string> := {};
    while remaining != {}
      invariant remaining !! done && remaining + done == keys
      invariant forall d :: d in diffs <==> exists k :: k in done && d in KeyDiffs(before, after, k)
      decreases |remaining|
    {
      var key :| key in remaining;
      var step := DiffKey(before, after, key);
      diffs := diffs + step;
      remaining := remaining - {key};
      done := done + {key};
    }
  }

  /** A module only in the old version: each of its keys, in order, against nothing. */
  method ModuleGone(before: map<string, Package>, after: map<string, Package>, m: string) returns (diffs: seq<Diff>)
    requires m in before && m !in after
    ensures forall d :: d in diffs <==> Reported(before, after, m, d)
  {
    var keys := Keys(before[m], true);
    diffs := DiffKeyList(Some(before[m]), None, keys);
    assert ModuleKeys(before, after, m) == keys + [];
    forall d
      ensures d in diffs <==> Reported(before, after, m, d)
    {
      if d in diffs {
        var j :| 0 <= j < |keys| && d in KeyDiffs(Some(before[m]), None, keys[j]);
        assert Side(before, m, keys[j]) == Some(before[m]) && Side(after, m, keys[j]) == None;
      }
      if Reported(before, after, m, d) {
        var k :| k in ModuleKeys(before, after, m) && d in KeyDiffs(Side(before, m, k), Side(after, m, k), k);
        var j :| 0 <= j < |keys| && keys[j] == k;
      }
    }
  }

  /** A module only in the new version: each of its keys, in order, against nothing. */
  method ModuleNew(before: map<string, Package>, after: map<string, Package>, m: string) returns (diffs: seq<Diff>)
    requires m !in before && m in after
    ensures forall d :: d in diffs <==> Reported(before, after, m, d)
  {
    var keys := Keys(after[m], true);
    diffs := DiffKeyList(None, Some(after[m]), keys);
    assert ModuleKeys(before, after, m) == [] + keys;
    forall d
      ensures d in diffs <==> Reported(before, after, m, d)
    {
      if d in diffs {
        var j :| 0 <= j < |keys| && d in KeyDiffs(None, Some(after[m]), keys[j]);
        assert Side(before, m, keys[j]) == None && Side(after, m, keys[j]) == Some(after[m]);
      }
      if Reported(before, after, m, d) {
        var k :| k in ModuleKeys(before, after, m) && d in KeyDiffs(Side(before, m, k), Side(after, m, k), k);
        var j :| 0 <= j < |keys| && keys[j] == k;
      }
    }
  }

  /** A module in both versions: keys only in the old one, keys only in the new one, then common keys. */
  method ModuleBoth(before: map<string, Package>, after: map<string, Package>, m: string) returns (diffs: seq<Diff>)
    requires m in before && m in after
    ensures forall d :: d in diffs <==> Reported(before, after, m, d)
  {
    var oldList := Keys(before[m], true);
    var newList := Keys(after[m], true);
    var oldKeys, newKeys := set k | k in oldList, set k | k in newList;
    var gone := DiffKeySet(Some(before[m]), None, oldKeys - newKeys);
    var added := DiffKeySet(None, Some(after[m]), newKeys - oldKeys);
    var common := DiffKeySet(Some(before[m]), Some(after[m]), oldKeys * newKeys);
    diffs := gone + added + common;
    forall d
      ensures d in diffs <==> Reported(before, after, m, d)
    {
      if d in gone {
        var k :| k in oldKeys - newKeys && d in KeyDiffs(Some(before[m]), None, k);
        assert Side(before, m, k) == Some(before[m]) && Side(after, m, k) == None;
        assert k in ModuleKeys(before, after, m);
      } else if d in added {
        var k :| k in newKeys - oldKeys && d in KeyDiffs(None, Some(after[m]), k);
        assert Side(before, m, k) == None && Side(after, m, k) == Some(after[m]);
        assert k in ModuleKeys(before, after, m);
      } else if d in common {
        var k :| k in oldKeys * newKeys && d in KeyDiffs(Some(before[m]), Some(after[m]), k);
        assert Side(before, m, k) == Some(before[m]) && Side(after, m, k) == Some(after[m]);
        assert k in ModuleKeys(before, after, m);
      }
      if Reported(before, after, m, d) {
        var k :| k in ModuleKeys(before, after, m) && d in KeyDiffs(Side(before, m, k), Side(after, m, k), k);
        if k in oldKeys && k !in newKeys {
          assert d in gone;
        } else if k !in oldKeys && k in newKeys {
          assert d in added;
        } else {
          assert d in common;
        }
      }
    }
  }

  /** The loop over the modules only in the old version. */
  method GoneModules(before: map<string, Package>, after: map<string, Package>) returns (diffs: seq<Diff>)
    ensures forall d :: d in diffs <==> exists m :: m in before.Keys - after.Keys && Reported(before, after, m, d)
  {
    diffs := [];
    ghost var done: set<string> := {};
    var remaining := before.Keys - after.Keys;
    while remaining != {}
      invariant remaining !! done && remaining + done == before.Keys - after.Keys
      invariant forall d :: d in diffs <==> exists m :: m in done && Reported(before, after, m, d)
      decreases |remaining|
    {
      var m :| m in remaining;
      var step := ModuleGone(before, after, m);
      diffs := diffs + step;
      remaining := remaining - {m};
      done := done + {m};
    }
  }

  /** The loop over the modules only in the new version. */
  method NewModules(before: map<string, Package>, after: map<string, Package>) returns (diffs: seq<Diff>)
    ensures forall d :: d in diffs <==> exists m :: m in after.Keys - before.Keys && Reported(before, after, m, d)
  {
    diffs := [];
    ghost var done: set<string> := {};
    var remaining := after.Keys - before.Keys;
    while remaining != {}
      invariant remaining !! done && remaining + done == after.Keys - before.Keys
      invariant forall d :: d in diffs <==> exists m :: m in done && Reported(before, after, m, d)
      decreases |remaining|
    {
      var m :| m in remaining;
      var step := ModuleNew(before, after, m);
      diffs := diffs + step;
      remaining := remaining - {m};
      done := done + {m};
    }
  }

  /** The loop over the modules in both versions. */
  method CommonModules(before: map<string, Package>, after: map<string, Package>) returns (diffs: seq<Diff>)
    ensures forall d :: d in diffs <==> exists m :: m in before.Keys * after.Keys && Reported(before, after, m, d)
  {
    diffs := [];
    ghost var done: set<string> := {};
    var remaining := before.Keys * after.Keys;
    while remaining != {}
      invariant remaining !! done && remaining + done == before.Keys * after.Keys
      invariant forall d :: d in diffs <==> exists m :: m in done && Reported(before, after, m, d)
      decreases |remaining|
    {
      var m :| m in remaining;
      var step := ModuleBoth(before, after, m);
      diffs := diffs + step;
      remaining := remaining - {m};
      done := done + {m};
    }
  }

  /** `diff_pkg`: modules only in the old version, modules only in the new one,
      then modules in both. */
  method DiffPkg(before: map<string, Package>, after: map<string, Package>) returns (diffs: seq<Diff>)
    ensures forall d :: d in diffs <==> d in PkgDiffs(before, after)
  {
    var gone := GoneModules(before, after);
    var added := NewModules(before, after);
    var common := CommonModules(before, after);
    diffs := gone + added + common;
    PkgDiffsByModule(before, after);
  }

  lemma PkgDiffsByModule(before: map<string, Package>, after: map<string, Package>)
    ensures forall d :: d in PkgDiffs(before, after) <==> exists m :: m in before.Keys + after.Keys && Reported(before, after, m, d)
  {
    forall d | d in PkgDiffs(before, after)
      ensures exists m :: m in before.Keys + after.Keys && Reported(before, after, m, d)
    {
      var m, k :| m in before.Keys + after.Keys && k in ModuleKeys(before, after, m)
                  && d in KeyDiffs(Side(before, m, k), Side(after, m, k), k);
      assert Reported(before, after, m, d);
    }
  }

  /** An entity whose key disappeared, with its module or from a module still
      present, is reported as a breaking removal under its key. */
  lemma RemovedKeyReported(before: map<string, Package>, after: map<string, Package>, m: string, k: string)
    requires m in before && k in KeysOf(before[m], true)
    requires m !in after || k !in KeysOf(after[m], true)
    requires Index(before[m], k).Ok?
    requires var e := Index(before[m], k).value; e.FunctionE? || e.ClassE? || e.VariableE?
    ensures var e := Index(before[m], k).value;
      var d := EntityChange(if e.FunctionE? then FuncRem else if e.ClassE? then ClsRem else VarRem, k);
      d in PkgDiffs(before, after) && IsBreaking(d)
  {
    var e := Index(before[m], k).value;
    var d := EntityChange(if e.FunctionE? then FuncRem else if e.ClassE? then ClsRem else VarRem, k);
    assert Side(before, m, k) == Some(before[m]) && Side(after, m, k) == None;
    assert EntityDiffs(Some(e), None, k) == Ok({d});
    assert d in KeyDiffs(Side(before, m, k), Side(after, m, k), k);
    assert k in ModuleKeys(before, after, m);
    assert Reported(before, after, m, d);
    assert m in before.Keys + after.Keys;
    PkgDiffsByModule(before, after);
  }

  /** An entity whose key appeared is reported as an addition under its key, which breaks no client. */
  lemma AddedKeyReported(before: map<string, Package>, after: map<string, Package>, m: string, k: string)
    requires m in after && k in KeysOf(after[m], true)
    requires m !in before || k !in KeysOf(before[m], true)
    requires Index(after[m], k).Ok?
    requires var e := Index(after[m], k).value; e.FunctionE? || e.ClassE? || e.VariableE?
    ensures var e := Index(after[m], k).value;
      var d := EntityChange(if e.FunctionE? then FuncAdd else if e.ClassE? then ClsAdd else VarAdd, k);
      d in PkgDiffs(before, after) && !IsBreaking(d)
  {
    var e := Index(after[m], k).value;
    var d := EntityChange(if e.FunctionE? then FuncAdd else if e.ClassE? then ClsAdd else VarAdd, k);
    assert Side(before, m, k) == None by {
      if m in before {
        assert k !in KeysOf(before[m], true);
      }
    }
    assert Side(after, m, k) == Some(after[m]);
    assert EntityDiffs(None, Some(e), k) == Ok({d});
    assert d in KeyDiffs(None, Some(after[m]), k);
    assert k in ModuleKeys(before, after, m);
    assert Reported(before, after, m, d);
    assert m in before.Keys + after.Keys;
    PkgDiffsByModule(before, after);
  }

  /** A version compared with itself has no changes. */
  lemma IdenticalPackagesNoDiff(pkgs: map<string, Package>)
    ensures PkgDiffs(pkgs, pkgs) == {}
  {
    forall m, k | m in pkgs && k in ModuleKeys(pkgs, pkgs, m)
      ensures KeyDiffs(Side(pkgs, m, k), Side(pkgs, m, k), k) == {}
    {
      assert Side(pkgs, m, k) == Some(pkgs[m]);
      var x := Index(pkgs[m], k);
      if x.Ok? {
        IdenticalEntitiesNoDiff(x.value, k);
      }
    }
  }
}
