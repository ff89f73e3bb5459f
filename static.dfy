/** The static extractor: turns the syntax of one source file into API
    entities. Arguments are aligned with their defaults, assignments are
    unpacked into variables, classes collect their methods, fields, static
    fields and nested classes, and a visitor collects the module's entities in
    source order without descending into function or class bodies. */
module Static {
  import opened Wrappers
  import opened Text
  import opened Syntax
  import opened Entity

  /** The `IndexError` raised when a tuple target has a name at position
      `index` but the literal tuple or list on the right holds fewer elements. */
  datatype ExtractError = ElementMissing(index: nat)

  // ---------------------------------------------------------------------------
  // `_convert_arguments`

  function ArgType(x: Arg): Option<string>
  {
    UnparseOpt(x.annotation)
  }

  /** `default_starts`: the first positional parameter that has a default. */
  function DefaultStart(a: ParsedArguments): nat
  {
    |a.posonly| + |a.args| - |a.defaults|
  }

  function PositionalArgument(a: ParsedArguments, i: nat): Argument
    requires i < |a.posonly| + |a.args|
  {
    var x := (a.posonly + a.args)[i];
    var default := if i >= DefaultStart(a) then Some(Unparse(a.defaults[i - DefaultStart(a)])) else None;
    Argument(x.name, ArgType(x), default, i < |a.posonly|, false, false, false)
  }

  function VarArgument(x: Arg): Argument
  {
    Argument(x.name, ArgType(x), None, false, false, true, false)
  }

  function KeywordArgument(a: ParsedArguments, i: nat): Argument
    requires i < |a.kwonly|
  {
    var x := a.kwonly[i];
    Argument(x.name, ArgType(x), UnparseOpt(a.kwDefaults[i]), false, true, false, false)
  }

  function KwArgument(x: Arg): Argument
  {
    Argument(x.name, ArgType(x), None, false, false, false, true)
  }

  /** The converted parameters: positional-only and standard ones, `*args`,
      keyword-only ones, `**kwargs`. */
  function ArgumentsOf(a: ParsedArguments): seq<Argument>
  {
    PositionalArguments(a)
    + (if a.vararg.Some? then [VarArgument(a.vararg.value)] else [])
    + KeywordArguments(a)
    + (if a.kwarg.Some? then [KwArgument(a.kwarg.value)] else [])
  }

  function PositionalArguments(a: ParsedArguments): (r: seq<Argument>)
    ensures |r| == |a.posonly| + |a.args|
    ensures forall i :: 0 <= i < |r| ==> r[i] == PositionalArgument(a, i)
  {
    var n := |a.posonly| + |a.args|;
    seq(n, i requires 0 <= i < n => PositionalArgument(a, i))
  }

  function KeywordArguments(a: ParsedArguments): (r: seq<Argument>)
    ensures |r| == |a.kwonly|
    ensures forall i :: 0 <= i < |r| ==> r[i] == KeywordArgument(a, i)
  {
    seq(|a.kwonly|, i requires 0 <= i < |a.kwonly| => KeywordArgument(a, i))
  }

  /** At most one of the four kinds is set on an argument. */
  predicate AtMostOneFlag(x: Argument)
  {
    (if x.posOnly then 1 else 0) + (if x.kwOnly then 1 else 0)
    + (if x.vararg then 1 else 0) + (if x.kwarg then 1 else 0) <= 1
  }

  /** `_convert_arguments`. */
  method ConvertArguments(a: ParsedArguments) returns (results: seq<Argument>)
    ensures results == ArgumentsOf(a)
  {
    results := ConvertPositional(a);
    if a.vararg.Some? {
      results := results + [Argument(a.vararg.value.name, ArgType(a.vararg.value), None, false, false, true, false)];
    }
    results := ConvertKeywordOnly(a, results);
    if a.kwarg.Some? {
      results := results + [Argument(a.kwarg.value.name, ArgType(a.kwarg.value), None, false, false, false, true)];
    }
  }

  /** The loop over positional-only and standard parameters of `_convert_arguments`. */
  method ConvertPositional(a: ParsedArguments) returns (results: seq<Argument>)
    ensures results == PositionalArguments(a)
  {
    results := [];
    var defaultStarts := |a.posonly| + |a.args| - |a.defaults|;
    var positional := a.posonly + a.args;
    for i := 0 to |positional|
      invariant results == seq(i, j requires 0 <= j < i => PositionalArgument(a, j))
    {
      var arg := positional[i];
      var default: Option<string>;
      if i >= defaultStarts {
        default := Some(Unparse(a.defaults[i - defaultStarts]));
      } else {
        default := None;
      }
      results := results + [Argument(arg.name, ArgType(arg), default, i < |a.posonly|, false, false, false)];
    }
  }

  /** The loop over keyword-only parameters of `_convert_arguments`, appending to `before`. */
  method ConvertKeywordOnly(a: ParsedArguments, before: seq<Argument>) returns (results: seq<Argument>)
    ensures results == before + KeywordArguments(a)
  {
    results := before;
    for i := 0 to |a.kwonly|
      invariant results == before + seq(i, j requires 0 <= j < i => KeywordArgument(a, j))
    {
      var arg := a.kwonly[i];
      var default := if a.kwDefaults[i].Some? then Some(Unparse(a.kwDefaults[i].value)) else None;
      results := results + [Argument(arg.name, ArgType(arg), default, false, true, false, false)];
    }
  }

  /** Order, default alignment and flags of the converted parameters. */
  lemma ArgumentsLayout(a: ParsedArguments)
    ensures |ArgumentsOf(a)| == |a.posonly| + |a.args| + (if a.vararg.Some? then 1 else 0) + |a.kwonly| + (if a.kwarg.Some? then 1 else 0)
    ensures forall i :: 0 <= i < |a.posonly| + |a.args| ==> ArgumentsOf(a)[i].name == (a.posonly + a.args)[i].name
    ensures forall i :: 0 <= i < DefaultStart(a) ==> ArgumentsOf(a)[i].default.None?
    ensures forall i :: DefaultStart(a) <= i < |a.posonly| + |a.args| ==>
      ArgumentsOf(a)[i].default == Some(Unparse(a.defaults[i - DefaultStart(a)]))
    ensures a.vararg.Some? ==>
      var n := |a.posonly| + |a.args|;
      ArgumentsOf(a)[n].vararg && ArgumentsOf(a)[n].name == a.vararg.value.name
    ensures forall i :: KeywordStart(a) <= i < KeywordStart(a) + |a.kwonly| ==>
      && ArgumentsOf(a)[i].kwOnly && ArgumentsOf(a)[i].name == a.kwonly[i - KeywordStart(a)].name
      && ArgumentsOf(a)[i].default == UnparseOpt(a.kwDefaults[i - KeywordStart(a)])
    ensures a.kwarg.Some? ==>
      var r := ArgumentsOf(a);
      r[|r| - 1].kwarg && r[|r| - 1].name == a.kwarg.value.name
    ensures PosOnlyPrefix(ArgumentsOf(a), |a.posonly|)
    ensures forall i :: 0 <= i < |ArgumentsOf(a)| ==> AtMostOneFlag(ArgumentsOf(a)[i])
    ensures forall i :: 0 <= i < |ArgumentsOf(a)| && (ArgumentsOf(a)[i].vararg || ArgumentsOf(a)[i].kwarg) ==> ArgumentsOf(a)[i].default.None?
  {
    ArgumentsAt(a);
    var r := ArgumentsOf(a);
    forall i | 0 <= i < |r|
      ensures ArgumentFits(a, i, r[i])
    {
      ArgumentAtFits(a, i);
    }
  }

  /** The number of converted parameters. */
  function ArgumentCount(a: ParsedArguments): nat
  {
    |a.posonly| + |a.args| + (if a.vararg.Some? then 1 else 0) + |a.kwonly| + (if a.kwarg.Some? then 1 else 0)
  }

  /** Where the keyword-only parameters start: after the positional ones and `*vararg`. */
  function KeywordStart(a: ParsedArguments): nat
  {
    |a.posonly| + |a.args| + (if a.vararg.Some? then 1 else 0)
  }

  /** The converted parameter at position `i`, by the run it falls in. */
  function ArgumentAt(a: ParsedArguments, i: nat): Argument
    requires i < ArgumentCount(a)
  {
    if i < |a.posonly| + |a.args| then PositionalArgument(a, i)
    else if i < KeywordStart(a) then VarArgument(a.vararg.value)
    else if i < KeywordStart(a) + |a.kwonly| then KeywordArgument(a, i - KeywordStart(a))
    else KwArgument(a.kwarg.value)
  }

  /** Every position of `ArgumentsOf` holds `ArgumentAt`. */
  lemma ArgumentsAt(a: ParsedArguments)
    ensures |ArgumentsOf(a)| == ArgumentCount(a)
    ensures forall i :: 0 <= i < ArgumentCount(a) ==> ArgumentsOf(a)[i] == ArgumentAt(a, i)
  {
    var p, k := PositionalArguments(a), KeywordArguments(a);
    var vs := if a.vararg.Some? then [VarArgument(a.vararg.value)] else [];
    var w := if a.kwarg.Some? then [KwArgument(a.kwarg.value)] else [];
    FourPartIndex(p, vs, k, w);
  }

  /** What the parameter `x` at position `i` looks like, by the run it falls in. */
  predicate ArgumentFits(a: ParsedArguments, i: nat, x: Argument)
  {
    var n := |a.posonly| + |a.args|;
    && (i < n ==> x.name == (a.posonly + a.args)[i].name)
    && (i < DefaultStart(a) ==> x.default.None?)
    && (DefaultStart(a) <= i < n ==> x.default == Some(Unparse(a.defaults[i - DefaultStart(a)])))
    && (n <= i < KeywordStart(a) ==> a.vararg.Some? && x.vararg && x.name == a.vararg.value.name)
    && (KeywordStart(a) <= i < KeywordStart(a) + |a.kwonly| ==>
          x.kwOnly && x.name == a.kwonly[i - KeywordStart(a)].name
          && x.default == UnparseOpt(a.kwDefaults[i - KeywordStart(a)]))
    && (KeywordStart(a) + |a.kwonly| <= i ==> a.kwarg.Some? && x.kwarg && x.name == a.kwarg.value.name)
    && (x.posOnly <==> i < |a.posonly|)
    && AtMostOneFlag(x)
    && (x.vararg || x.kwarg ==> x.default.None?)
  }

  lemma ArgumentAtFits(a: ParsedArguments, i: nat)
    requires i < ArgumentCount(a)
    ensures ArgumentFits(a, i, ArgumentAt(a, i))
  {
  }

  /** Where the elements of four joined runs land. */
  lemma FourPartIndex<T>(p: seq<T>, vs: seq<T>, k: seq<T>, w: seq<T>)
    ensures var r := p + vs + k + w;
      && |r| == |p| + |vs| + |k| + |w|
      && forall i :: 0 <= i < |r| ==>
           r[i] == if i < |p| then p[i]
                   else if i < |p| + |vs| then vs[i - |p|]
                   else if i < |p| + |vs| + |k| then k[i - |p| - |vs|]
                   else w[i - |p| - |vs| - |k|]
  {
  }

  /** With the converted parameters, the signature's `/` follows the
      positional-only parameters exactly when some parameter follows them. */
  lemma ConvertedSlash(a: ParsedArguments)
    ensures var r := ArgumentsOf(a); var p := |a.posonly|;
      ArgItems(r) == if 0 < p < |r| then Texts(r[..p]) + ["/"] + Texts(r[p..]) else Texts(r)
  {
    ArgumentsLayout(a);
    SlashAfterPositionalOnly(ArgumentsOf(a), |a.posonly|);
  }

  // ---------------------------------------------------------------------------
  // `_convert_function`

  function FunctionOf(s: Stmt): Function
    requires s.FunctionDef?
  {
    Function(s.name, ArgumentsOf(s.args), UnparseOpt(s.returnType), UnparseEach(s.decorators), s.isAsync)
  }

  /** `_convert_function`: name, converted parameters, return annotation,
      decorators in order, and whether the definition is `async`. */
  method ConvertFunction(s: Stmt) returns (f: Function)
    requires s.FunctionDef?
    ensures f == FunctionOf(s)
    ensures f.name == s.name && f.isAsync == s.isAsync
    ensures f.decorators == UnparseEach(s.decorators)
  {
    var args := ConvertArguments(s.args);
    f := Function(s.name, args, UnparseOpt(s.returnType), UnparseEach(s.decorators), s.isAsync);
  }

  // ---------------------------------------------------------------------------
  // `_convert_variables` and `_convert_class_fields`

  /** Which targets bind: plain names for variables, `self.attr` for class fields. */
  datatype Binder = NameTargets | SelfAttributes

  function TargetName(t: Expr, b: Binder): Option<string>
  {
    match b
    case NameTargets => if t.Name? then Some(t.id) else None
    case SelfAttributes =>
      if t.Attribute? && t.value.Name? && t.value.id == "self" then Some(t.attr) else None
  }

  predicate IsLiteral(value: Expr)
  {
    value.Tuple? || value.List?
  }

  /** The value text of the `i`-th element of a tuple target. */
  function ElementText(value: Expr, i: nat): Result<string, ExtractError>
  {
    if IsLiteral(value) then
      if i < |value.elts| then Ok(Unparse(value.elts[i])) else Err(ElementMissing(i))
    else Ok(Unparse(value) + "[" + NatToString(i) + "]")
  }

  /** The variables bound by the elements of a tuple target, element by element. */
  function ElementsOf(elts: seq<Expr>, value: Expr, b: Binder): Result<seq<Variable>, ExtractError>
    decreases |elts|
  {
    if |elts| == 0 then Ok([])
    else
      var n := |elts| - 1;
      match ElementsOf(elts[..n], value, b)
      case Err(e) => Err(e)
      case Ok(vs) =>
        match TargetName(elts[n], b)
        case None => Ok(vs)
        case Some(id) =>
          match ElementText(value, n)
          case Err(e) => Err(e)
          case Ok(v) => Ok(vs + [Variable(id, None, v)])
  }

  function TargetVariables(t: Expr, value: Expr, ann: Option<string>, b: Binder): Result<seq<Variable>, ExtractError>
  {
    match TargetName(t, b)
    case Some(id) => Ok([Variable(id, ann, Unparse(value))])
    case None => if t.Tuple? then ElementsOf(t.elts, value, b) else Ok([])
  }

  /** The variables bound by the targets of one assignment, target by target. */
  function TargetsVariables(targets: seq<Expr>, value: Expr, ann: Option<string>, b: Binder): Result<seq<Variable>, ExtractError>
    decreases |targets|
  {
    if |targets| == 0 then Ok([])
    else
      var n := |targets| - 1;
      match TargetsVariables(targets[..n], value, ann, b)
      case Err(e) => Err(e)
      case Ok(vs) =>
        match TargetVariables(targets[n], value, ann, b)
        case Err(e) => Err(e)
        case Ok(ws) => Ok(vs + ws)
  }

  predicate IsAssignment(s: Stmt)
  {
    s.Assign? || s.AnnAssign?
  }

  /** The variables an assignment binds; an annotation without a value binds none. */
  function AssignedVariables(s: Stmt, b: Binder): Result<seq<Variable>, ExtractError>
    requires IsAssignment(s)
  {
    if s.Assign? then TargetsVariables(s.targets, s.value, None, b)
    else if s.optValue.None? then Ok([])
    else TargetsVariables([s.target], s.optValue.value, Some(Unparse(s.annotation)), b)
  }

  lemma {:induction false} ElementsErrorPersists(elts: seq<Expr>, value: Expr, b: Binder, k: nat)
    requires k <= |elts| && ElementsOf(elts[..k], value, b).Err?
    ensures ElementsOf(elts, value, b) == ElementsOf(elts[..k], value, b)
    decreases |elts| - k
  {
    if k < |elts| {
      var n := |elts| - 1;
      assert elts[..n][..k] == elts[..k];
      ElementsErrorPersists(elts[..n], value, b, k);
    } else {
      assert elts[..k] == elts;
    }
  }

  lemma {:induction false} TargetsErrorPersists(targets: seq<Expr>, value: Expr, ann: Option<string>, b: Binder, k: nat)
    requires k <= |targets| && TargetsVariables(targets[..k], value, ann, b).Err?
    ensures TargetsVariables(targets, value, ann, b) == TargetsVariables(targets[..k], value, ann, b)
    decreases |targets| - k
  {
    if k < |targets| {
      var n := |targets| - 1;
      assert targets[..n][..k] == targets[..k];
      TargetsErrorPersists(targets[..n], value, ann, b, k);
    } else {
      assert targets[..k] == targets;
    }
  }

  /** The inner loop over the elements of a tuple target. */
  method ConvertElements(elts: seq<Expr>, value: Expr, b: Binder) returns (r: Result<seq<Variable>, ExtractError>)
    ensures r == ElementsOf(elts, value, b)
  {
    var results: seq<Variable> := [];
    for i := 0 to |elts|
      invariant ElementsOf(elts[..i], value, b) == Ok(results)
    {
      assert elts[..i + 1][..i] == elts[..i];
      var id := TargetName(elts[i], b);
      if id.Some? {
        var v: string;
        if IsLiteral(value) {
          if i >= |value.elts| {
            ElementsErrorPersists(elts, value, b, i + 1);
            return Err(ElementMissing(i));
          }
          v := Unparse(value.elts[i]);
        } else {
          v := Unparse(value) + "[" + NatToString(i) + "]";
        }
        results := results + [Variable(id.value, None, v)];
      }
    }
    assert elts[..|elts|] == elts;
    r := Ok(results);
  }

  /** The loop shared by `_convert_variables` and `_convert_class_fields`. */
  method ConvertTargets(targets: seq<Expr>, value: Expr, ann: Option<string>, b: Binder)
    returns (r: Result<seq<Variable>, ExtractError>)
    ensures r == TargetsVariables(targets, value, ann, b)
  {
    var results: seq<Variable> := [];
    for k := 0 to |targets|
      invariant TargetsVariables(targets[..k], value, ann, b) == Ok(results)
    {
      assert targets[..k + 1][..k] == targets[..k];
      var target := targets[k];
      var name := TargetName(target, b);
      ghost var prior := results;
      if name.Some? {
        results := results + [Variable(name.value, ann, Unparse(value))];
      } else if target.Tuple? {
        var vs := ConvertElements(target.elts, value, b);
        if vs.Err? {
          TargetsErrorPersists(targets, value, ann, b, k + 1);
          return vs;
        }
        results := results + vs.value;
        assert TargetVariables(target, value, ann, b) == Ok(results[|prior|..]);
      } else {
        assert TargetVariables(target, value, ann, b) == Ok([]);
        assert results == prior + [];
      }
    }
    assert targets[..|targets|] == targets;
    r := Ok(results);
  }

  /** `_convert_variables`: one variable per name target. */
  method ConvertVariables(s: Stmt) returns (r: Result<seq<Variable>, ExtractError>)
    requires IsAssignment(s)
    ensures r == AssignedVariables(s, NameTargets)
  {
    if s.AnnAssign? && s.optValue.None? {
      return Ok([]);
    }
    if s.Assign? {
      r := ConvertTargets(s.targets, s.value, None, NameTargets);
    } else {
      r := ConvertTargets([s.target], s.optValue.value, Some(Unparse(s.annotation)), NameTargets);
    }
  }

  /** `_convert_class_fields`: one field per `self.attr` target. */
  method ConvertClassFields(s: Stmt) returns (r: Result<seq<Variable>, ExtractError>)
    requires IsAssignment(s)
    ensures r == AssignedVariables(s, SelfAttributes)
  {
    if s.AnnAssign? && s.optValue.None? {
      return Ok([]);
    }
    if s.Assign? {
      r := ConvertTargets(s.targets, s.value, None, SelfAttributes);
    } else {
      r := ConvertTargets([s.target], s.optValue.value, Some(Unparse(s.annotation)), SelfAttributes);
    }
  }

  /** `a = b = c`: every name target gets the whole value, in target order. */
  lemma {:induction false} ChainedAssignment(targets: seq<Expr>, value: Expr, ann: Option<string>)
    requires forall i :: 0 <= i < |targets| ==> targets[i].Name?
    ensures var r := TargetsVariables(targets, value, ann, NameTargets);
      r.Ok? && |r.value| == |targets|
      && forall i :: 0 <= i < |targets| ==> r.value[i] == Variable(targets[i].id, ann, Unparse(value))
    decreases |targets|
  {
    if |targets| > 0 {
      var n := |targets| - 1;
      ChainedAssignment(targets[..n], value, ann);
      assert TargetVariables(targets[n], value, ann, NameTargets) == Ok([Variable(targets[n].id, ann, Unparse(value))]);
    }
  }

  /** The positions of the elements of a tuple target that bind a name. */
  function Positions(elts: seq<Expr>, b: Binder): (r: seq<nat>)
    ensures forall k :: 0 <= k < |r| ==> r[k] < |elts| && TargetName(elts[r[k]], b).Some?
    decreases |elts|
  {
    if |elts| == 0 then []
    else
      var n := |elts| - 1;
      Positions(elts[..n], b) + (if TargetName(elts[n], b).Some? then [n] else [])
  }

  /** Unpacking: the `k`-th variable comes from the `k`-th binding element, and
      takes the text of the right-hand element at that element's own position
      (or `value[i]`), so elements that bind nothing do not shift the others.
      It fails exactly when a binding element has no counterpart in a literal
      right-hand side. */
  lemma UnpackingByPosition(elts: seq<Expr>, value: Expr, b: Binder)
    ensures ElementsOf(elts, value, b).Ok?
        <==> (IsLiteral(value) ==>
                forall i :: 0 <= i < |elts| && TargetName(elts[i], b).Some? ==> i < |value.elts|)
    ensures var r := ElementsOf(elts, value, b); var pos := Positions(elts, b);
      r.Ok? ==> (|r.value| == |pos|
        && forall k :: 0 <= k < |pos| ==>
             ElementText(value, pos[k]).Ok?
             && r.value[k] == Variable(TargetName(elts[pos[k]], b).value, None, ElementText(value, pos[k]).value))
  {
    UnpackingSucceeds(elts, value, b);
    UnpackingPositions(elts, value, b);
  }

  /** Unpacking fails exactly when a binding element has no counterpart in a
      literal right-hand side. */
  lemma {:induction false} UnpackingSucceeds(elts: seq<Expr>, value: Expr, b: Binder)
    ensures ElementsOf(elts, value, b).Ok?
        <==> (IsLiteral(value) ==>
                forall i :: 0 <= i < |elts| && TargetName(elts[i], b).Some? ==> i < |value.elts|)
    decreases |elts|
  {
    if |elts| > 0 {
      var n := |elts| - 1;
      var pre := elts[..n];
      UnpackingSucceeds(pre, value, b);
      assert forall i :: 0 <= i < n ==> elts[i] == pre[i];
    }
  }

  /** The `k`-th variable comes from the `k`-th binding element. */
  lemma {:induction false} UnpackingPositions(elts: seq<Expr>, value: Expr, b: Binder)
    ensures var r := ElementsOf(elts, value, b); var pos := Positions(elts, b);
      r.Ok? ==> (|r.value| == |pos|
        && forall k :: 0 <= k < |pos| ==>
             ElementText(value, pos[k]).Ok?
             && r.value[k] == Variable(TargetName(elts[pos[k]], b).value, None, ElementText(value, pos[k]).value))
    decreases |elts|
  {
    if |elts| > 0 {
      var n := |elts| - 1;
      var pre := elts[..n];
      UnpackingPositions(pre, value, b);
      assert forall i :: 0 <= i < n ==> elts[i] == pre[i];
    }
  }


  /** `a, b = c`: a value that is not a literal is indexed. */
  lemma UnpackNonLiteral(x: string, y: string, c: string)
    ensures ElementsOf([Name(x), Name(y)], Name(c), NameTargets)
         == Ok([Variable(x, None, c + "[0]"), Variable(y, None, c + "[1]")])
  {
    var one := [Name(x)];
    var two := [Name(x), Name(y)];
    var v0 := Variable(x, None, c + "[0]");
    var v1 := Variable(y, None, c + "[1]");
    assert one[..0] == [];
    assert two[..1] == one;
    assert NatToString(0) == "0" && NatToString(1) == "1";
    assert c + "[" + "0" + "]" == c + "[0]" && c + "[" + "1" + "]" == c + "[1]";
    assert ElementText(Name(c), 0) == Ok(c + "[0]");
    assert ElementText(Name(c), 1) == Ok(c + "[1]");
    assert [] + [v0] == [v0];
    assert ElementsOf(one, Name(c), NameTargets) == Ok([v0]);
    assert ElementsOf(two, Name(c), NameTargets) == Ok([v0] + [v1]);
    assert [v0] + [v1] == [v0, v1];
  }

  // ---------------------------------------------------------------------------
  // `_convert_class`

  /** The self-attribute fields of the assignments among `nodes`, in order. */
  function FieldsOf(nodes: seq<Stmt>): Result<seq<Variable>, ExtractError>
    decreases |nodes|
  {
    if |nodes| == 0 then Ok([])
    else
      var n := |nodes| - 1;
      match FieldsOf(nodes[..n])
      case Err(e) => Err(e)
      case Ok(vs) =>
        if IsAssignment(nodes[n]) then
          match AssignedVariables(nodes[n], SelfAttributes)
          case Err(e) => Err(e)
          case Ok(ws) => Ok(vs + ws)
        else Ok(vs)
  }

  predicate IsMethod(s: Stmt)
  {
    s.FunctionDef? && !s.isAsync
  }

  predicate IsInit(s: Stmt)
  {
    IsMethod(s) && s.name == "__init__"
  }

  /** What a class body has collected so far. */
  datatype Members = Members(
    methods: seq<Function>,
    fields: seq<Variable>,
    statics: seq<Variable>,
    classes: seq<Class>)

  function ClassOf(s: Stmt): Result<Class, ExtractError>
    requires s.ClassDef?
    decreases s, 1
  {
    match MembersOf(s.body)
    case Err(e) => Err(e)
    case Ok(m) =>
      Ok(Class(s.name, UnparseEach(s.bases), m.fields, m.statics, m.methods, m.classes, UnparseEach(s.decorators)))
  }

  /** The members collected from the statements of a class body, one statement at a time. */
  function MembersOf(body: seq<Stmt>): Result<Members, ExtractError>
    decreases body, 0
  {
    if |body| == 0 then Ok(Members([], [], [], []))
    else
      var n := |body| - 1;
      var node := body[n];
      match MembersOf(body[..n])
      case Err(e) => Err(e)
      case Ok(m) =>
        if IsMethod(node) then
          var m' := m.(methods := m.methods + [FunctionOf(node)]);
          if node.name == "__init__" then
            match FieldsOf(Walk([node]))
            case Err(e) => Err(e)
            case Ok(fs) => Ok(m'.(fields := m.fields + fs))
          else Ok(m')
        else if IsAssignment(node) then
          match AssignedVariables(node, NameTargets)
          case Err(e) => Err(e)
          case Ok(vs) => Ok(m.(statics := m.statics + vs))
        else if node.ClassDef? then
          match ClassOf(node)
          case Err(e) => Err(e)
          case Ok(c) => Ok(m.(classes := m.classes + [c]))
        else Ok(m)
  }

  lemma {:induction false} FieldsErrorPersists(nodes: seq<Stmt>, k: nat)
    requires k <= |nodes| && FieldsOf(nodes[..k]).Err?
    ensures FieldsOf(nodes) == FieldsOf(nodes[..k])
    decreases |nodes| - k
  {
    if k < |nodes| {
      var n := |nodes| - 1;
      assert nodes[..n][..k] == nodes[..k];
      FieldsErrorPersists(nodes[..n], k);
    } else {
      assert nodes[..k] == nodes;
    }
  }

  lemma {:induction false} MembersErrorPersists(body: seq<Stmt>, k: nat)
    requires k <= |body| && MembersOf(body[..k]).Err?
    ensures MembersOf(body) == MembersOf(body[..k])
    decreases |body| - k
  {
    if k < |body| {
      var n := |body| - 1;
      assert body[..n][..k] == body[..k];
      MembersErrorPersists(body[..n], k);
    } else {
      assert body[..k] == body;
    }
  }

  /** The instance fields found by walking an `__init__` method. */
  method CollectFields(init: Stmt) returns (r: Result<seq<Variable>, ExtractError>)
    ensures r == FieldsOf(Walk([init]))
  {
    var nodes := Walk([init]);
    var fields: seq<Variable> := [];
    for j := 0 to |nodes|
      invariant FieldsOf(nodes[..j]) == Ok(fields)
    {
      assert nodes[..j + 1][..j] == nodes[..j];
      if IsAssignment(nodes[j]) {
        var vs := ConvertClassFields(nodes[j]);
        if vs.Err? {
          FieldsErrorPersists(nodes, j + 1);
          return Err(vs.error);
        }
        fields := fields + vs.value;
      }
    }
    assert nodes[..|nodes|] == nodes;
    r := Ok(fields);
  }

  /** `_convert_class`. */
  method ConvertClass(s: Stmt) returns (r: Result<Class, ExtractError>)
    requires s.ClassDef?
    ensures r == ClassOf(s)
    decreases s
  {
    var body := s.body;
    var methods: seq<Function> := [];
    var fields: seq<Variable> := [];
    var statics: seq<Variable> := [];
    var classes: seq<Class> := [];
    for i := 0 to |body|
      invariant MembersOf(body[..i]) == Ok(Members(methods, fields, statics, classes))
    {
      assert body[..i + 1][..i] == body[..i];
      var node := body[i];
      if IsMethod(node) {
        var f := ConvertFunction(node);
        methods := methods + [f];
        if node.name == "__init__" {
          var fs := CollectFields(node);
          if fs.Err? {
            MembersErrorPersists(body, i + 1);
            return Err(fs.error);
          }
          fields := fields + fs.value;
        }
      } else if IsAssignment(node) {
        var vs := ConvertVariables(node);
        if vs.Err? {
          MembersErrorPersists(body, i + 1);
          return Err(vs.error);
        }
        statics := statics + vs.value;
      } else if node.ClassDef? {
        var c := ConvertClass(node);
        if c.Err? {
          MembersErrorPersists(body, i + 1);
          return Err(c.error);
        }
        classes := classes + [c.value];
      }
    }
    assert body[..|body|] == body;
    r := Ok(Class(s.name, UnparseEach(s.bases), fields, statics, methods, classes, UnparseEach(s.decorators)));
  }

  /** The methods of a class body: its (non-`async`) function definitions. */
  function MethodDefs(body: seq<Stmt>): (r: seq<Stmt>)
    ensures forall i :: 0 <= i < |r| ==> IsMethod(r[i]) && r[i] in body
    decreases |body|
  {
    if |body| == 0 then []
    else
      var n := |body| - 1;
      MethodDefs(body[..n]) + (if IsMethod(body[n]) then [body[n]] else [])
  }

  /** The nested class definitions of a class body. */
  function ClassDefs(body: seq<Stmt>): (r: seq<Stmt>)
    ensures forall i :: 0 <= i < |r| ==> r[i].ClassDef? && r[i] in body
    decreases |body|
  {
    if |body| == 0 then []
    else
      var n := |body| - 1;
      ClassDefs(body[..n]) + (if body[n].ClassDef? then [body[n]] else [])
  }

  /** The statements somewhere inside an `__init__` method of the body. */
  ghost predicate InsideInit(body: seq<Stmt>, node: Stmt)
  {
    exists i :: 0 <= i < |body| && IsInit(body[i]) && node in Walk([body[i]])
  }

  /** Methods are the body's function definitions in order, and nested
      classes its class definitions in order. */
  lemma MethodsAndClassesInOrder(body: seq<Stmt>)
    ensures var r := MembersOf(body);
      r.Ok? ==>
        && |r.value.methods| == |MethodDefs(body)|
        && (forall i :: 0 <= i < |r.value.methods| ==> r.value.methods[i] == FunctionOf(MethodDefs(body)[i]))
        && |r.value.classes| == |ClassDefs(body)|
        && (forall i :: 0 <= i < |r.value.classes| ==> r.value.classes[i].name == ClassDefs(body)[i].name)
  {
    MethodsInOrder(body);
    ClassesInOrder(body);
  }

  /** The methods, in order of definition. */
  lemma {:induction false} MethodsInOrder(body: seq<Stmt>)
    ensures var r := MembersOf(body);
      r.Ok? ==>
        && |r.value.methods| == |MethodDefs(body)|
        && (forall i :: 0 <= i < |r.value.methods| ==> r.value.methods[i] == FunctionOf(MethodDefs(body)[i]))
    decreases |body|
  {
    if |body| > 0 {
      MethodsInOrder(body[..|body| - 1]);
    }
  }

  /** The nested classes, in order of definition. */
  lemma {:induction false} ClassesInOrder(body: seq<Stmt>)
    ensures var r := MembersOf(body);
      r.Ok? ==>
        && |r.value.classes| == |ClassDefs(body)|
        && (forall i :: 0 <= i < |r.value.classes| ==> r.value.classes[i].name == ClassDefs(body)[i].name)
    decreases |body|
  {
    if |body| > 0 {
      var n := |body| - 1;
      ClassesInOrder(body[..n]);
      if MembersOf(body).Ok? && body[n].ClassDef? {
        assert ClassOf(body[n]).Ok? && ClassOf(body[n]).value.name == body[n].name;
      }
    }
  }


  /** `v` is bound by a `self.attr` target of an assignment somewhere inside an `__init__` of the body. */
  ghost predicate FromInit(body: seq<Stmt>, v: Variable)
  {
    exists node :: InsideInit(body, node) && IsAssignment(node)
      && AssignedVariables(node, SelfAttributes).Ok?
      && v in AssignedVariables(node, SelfAttributes).value
  }

  /** Every instance field comes from an assignment somewhere inside an `__init__`. */
  lemma {:induction false} FieldsFromInit(body: seq<Stmt>)
    ensures var r := MembersOf(body);
      r.Ok? ==> forall v :: v in r.value.fields ==> FromInit(body, v)
    decreases |body|
  {
    if |body| > 0 {
      var n := |body| - 1;
      var pre := body[..n];
      FieldsFromInit(pre);
      if MembersOf(body).Ok? {
        forall v | v in MembersOf(pre).value.fields
          ensures FromInit(body, v)
        {
          assert MembersOf(pre).Ok?;
          assert FromInit(pre, v);
          var node :| InsideInit(pre, node) && IsAssignment(node)
            && AssignedVariables(node, SelfAttributes).Ok?
            && v in AssignedVariables(node, SelfAttributes).value;
          var i :| 0 <= i < |pre| && IsInit(pre[i]) && node in Walk([pre[i]]);
          assert pre[i] == body[i];
          assert InsideInit(body, node);
        }
        if IsInit(body[n]) {
          forall v | v in FieldsOf(Walk([body[n]])).value
            ensures FromInit(body, v)
          {
            var node := FieldFromNode(Walk([body[n]]), v);
            assert InsideInit(body, node);
          }
        }
      }
    }
  }

  /** Every field collected from a sequence of nodes comes from one of its assignments. */
  lemma {:induction false} FieldFromNode(nodes: seq<Stmt>, v: Variable) returns (node: Stmt)
    requires FieldsOf(nodes).Ok? && v in FieldsOf(nodes).value
    ensures node in nodes && IsAssignment(node)
    ensures AssignedVariables(node, SelfAttributes).Ok? && v in AssignedVariables(node, SelfAttributes).value
    decreases |nodes|
  {
    var n := |nodes| - 1;
    var vs := FieldsOf(nodes[..n]).value;
    if v in vs {
      node := FieldFromNode(nodes[..n], v);
    } else {
      node := nodes[n];
    }
  }

  /** The fields walk reaches every assignment in the method, however deeply nested. */
  lemma FieldsReachNested(init: Stmt, node: Stmt)
    requires node in Preorder(init)
    ensures node in Walk([init])
  {
    WalkReachesNested(init, node);
  }

  // ---------------------------------------------------------------------------
  // `_SourceVisitor` and `get_api_entities`

  function AsEntities(r: Result<seq<Variable>, ExtractError>): (e: Result<seq<Entity>, ExtractError>)
    ensures r.Err? <==> e.Err?
    ensures r.Ok? ==> (|e.value| == |r.value|
      && forall i :: 0 <= i < |r.value| ==> e.value[i] == VariableE(r.value[i]))
  {
    match r
    case Err(x) => Err(x)
    case Ok(vs) => Ok(seq(|vs|, i requires 0 <= i < |vs| => VariableE(vs[i])))
  }

  /** What visiting one statement appends: a definition, a class or the
      variables of an assignment, without looking inside them; any other node
      is visited child by child. An `async def` has no handler of its own, so
      its body is visited like that of any other node. */
  function StmtEntities(s: Stmt): Result<seq<Entity>, ExtractError>
    decreases s, 1
  {
    match s
    case FunctionDef(_, _, body, _, _, isAsync) =>
      if isAsync then EntitiesOf(body) else Ok([FunctionE(FunctionOf(s))])
    case ClassDef(_, _, _, _) =>
      (match ClassOf(s)
       case Err(e) => Err(e)
       case Ok(c) => Ok([ClassE(c)]))
    case Assign(_, _) => AsEntities(AssignedVariables(s, NameTargets))
    case AnnAssign(_, _, _) => AsEntities(AssignedVariables(s, NameTargets))
    case Block(parts) => EntitiesOf(parts)
    case _ => Ok([])
  }

  /** The entities of a sequence of statements, in source order. */
  function EntitiesOf(body: seq<Stmt>): Result<seq<Entity>, ExtractError>
    decreases body, 0
  {
    if |body| == 0 then Ok([])
    else
      var n := |body| - 1;
      match EntitiesOf(body[..n])
      case Err(e) => Err(e)
      case Ok(es) =>
        match StmtEntities(body[n])
        case Err(e) => Err(e)
        case Ok(fs) => Ok(es + fs)
  }

  lemma {:induction false} EntitiesErrorPersists(body: seq<Stmt>, k: nat)
    requires k <= |body| && EntitiesOf(body[..k]).Err?
    ensures EntitiesOf(body) == EntitiesOf(body[..k])
    decreases |body| - k
  {
    if k < |body| {
      var n := |body| - 1;
      assert body[..n][..k] == body[..k];
      EntitiesErrorPersists(body[..n], k);
    } else {
      assert body[..k] == body;
    }
  }

  /** `_SourceVisitor`: appends to `apiEntities` as it visits. */
  class SourceVisitor {
    var apiEntities: seq<Entity>

    constructor ()
      ensures apiEntities == []
    {
      apiEntities := [];
    }

    /** `visit(node)` for one statement. */
    method Visit(s: Stmt) returns (r: Result<(), ExtractError>)
      modifies this
      decreases s, 1
      ensures StmtEntities(s).Ok? ==> r.Ok? && apiEntities == old(apiEntities) + StmtEntities(s).value
      ensures StmtEntities(s).Err? ==> r == Err(StmtEntities(s).error)
    {
      match s
      case FunctionDef(_, _, body, _, _, isAsync) =>
        if isAsync {
          r := VisitAll(body);
        } else {
          var f := ConvertFunction(s);
          apiEntities := apiEntities + [FunctionE(f)];
          r := Ok(());
        }
      case ClassDef(_, _, _, _) =>
        var c := ConvertClass(s);
        if c.Err? {
          return Err(c.error);
        }
        apiEntities := apiEntities + [ClassE(c.value)];
        r := Ok(());
      case Assign(_, _) =>
        r := VisitAssignment(s);
      case AnnAssign(_, _, _) =>
        r := VisitAssignment(s);
      case Block(parts) =>
        r := VisitAll(parts);
      case Import(_) =>
        r := Ok(());
      case ImportFrom(_, _, _) =>
        r := Ok(());
      case Simple =>
        r := Ok(());
    }

    method VisitAssignment(s: Stmt) returns (r: Result<(), ExtractError>)
      requires IsAssignment(s)
      modifies this
      ensures var e := AsEntities(AssignedVariables(s, NameTargets));
        && (e.Ok? ==> r.Ok? && apiEntities == old(apiEntities) + e.value)
        && (e.Err? ==> r == Err(e.error))
    {
      var vs := ConvertVariables(s);
      if vs.Err? {
        return Err(vs.error);
      }
      apiEntities := apiEntities + seq(|vs.value|, i requires 0 <= i < |vs.value| => VariableE(vs.value[i]));
      r := Ok(());
    }

    /** `generic_visit`: visits the statements in order. */
    method VisitAll(body: seq<Stmt>) returns (r: Result<(), ExtractError>)
      modifies this
      decreases body, 0
      ensures EntitiesOf(body).Ok? ==> r.Ok? && apiEntities == old(apiEntities) + EntitiesOf(body).value
      ensures EntitiesOf(body).Err? ==> r == Err(EntitiesOf(body).error)
    {
      for i := 0 to |body|
        invariant EntitiesOf(body[..i]).Ok?
        invariant apiEntities == old(apiEntities) + EntitiesOf(body[..i]).value
      {
        assert body[..i + 1][..i] == body[..i];
        var step := Visit(body[i]);
        if step.Err? {
          EntitiesErrorPersists(body, i + 1);
          return step;
        }
      }
      assert body[..|body|] == body;
      r := Ok(());
    }
  }

  /** `get_api_entities`: the entities of a module, in source order. */
  method GetApiEntities(body: seq<Stmt>) returns (r: Result<seq<Entity>, ExtractError>)
    ensures r == EntitiesOf(body)
  {
    var visitor := new SourceVisitor();
    var done := visitor.VisitAll(body);
    if done.Err? {
      assert EntitiesOf(body).Err?;
      assert Err(done.error) == EntitiesOf(body);
      return Err(done.error);
    }
    assert EntitiesOf(body).Ok?;
    assert visitor.apiEntities == [] + EntitiesOf(body).value;
    assert [] + EntitiesOf(body).value == EntitiesOf(body).value;
    r := Ok(visitor.apiEntities);
    assert r == EntitiesOf(body);
  }

  /** A definition, a class, or an assignment to one plain name. */
  predicate Declaration(s: Stmt)
  {
    IsMethod(s) || s.ClassDef? || (s.Assign? && |s.targets| == 1 && s.targets[0].Name?)
  }

  function DeclaredName(s: Stmt): string
    requires Declaration(s)
  {
    if s.Assign? then s.targets[0].id else s.name
  }

  /** A module made of declarations yields one entity per declaration, named
      after it and in source order: nothing is taken from inside a function or
      class body. */
  lemma {:induction false} OneEntityPerDeclaration(body: seq<Stmt>)
    requires forall i :: 0 <= i < |body| ==> Declaration(body[i])
    ensures var r := EntitiesOf(body);
      r.Ok? ==> (|r.value| == |body|
        && forall i :: 0 <= i < |body| ==> EntityName(r.value[i]) == DeclaredName(body[i]))
    decreases |body|
  {
    if |body| > 0 {
      var n := |body| - 1;
      OneEntityPerDeclaration(body[..n]);
      var s := body[n];
      if s.Assign? {
        ChainedAssignment(s.targets, s.value, None);
      }
    }
  }

  // ---------------------------------------------------------------------------
  // `async def` at module level

  /** As written, a module-level `async def` yields no function: the visitor
      has no handler for it, so it walks into its body and takes the
      declarations there as module entities instead. */
  lemma AsyncDefNotExtracted(f: string, x: string, v: string)
    ensures var none: ParsedArguments := Arguments([], [], None, [], [], None, []);
      var def := FunctionDef(f, none, [Assign([Name(x)], Other(v))], [], None, true);
      EntitiesOf([def]) == Ok([VariableE(Variable(x, None, v))])
  {
    var none: ParsedArguments := Arguments([], [], None, [], [], None, []);
    var local := Assign([Name(x)], Other(v));
    var def := FunctionDef(f, none, [local], [], None, true);
    assert [def][..0] == [] && [local][..0] == [];
    assert [Name(x)][..0] == [];
    var w := Variable(x, None, v);
    assert [] + [w] == [w];
    assert TargetVariables(Name(x), Other(v), None, NameTargets) == Ok([w]);
    assert TargetsVariables([Name(x)][..0], Other(v), None, NameTargets) == Ok([]);
    assert TargetsVariables([Name(x)], Other(v), None, NameTargets) == Ok([w]);
    assert AssignedVariables(local, NameTargets) == Ok([w]);
    assert AsEntities(Ok([w])).value == [VariableE(w)];
    assert [] + [VariableE(w)] == [VariableE(w)];
    assert StmtEntities(local) == Ok([VariableE(w)]);
    assert EntitiesOf([local]) == Ok([VariableE(w)]);
    assert StmtEntities(def) == Ok([VariableE(w)]);
  }

  /** The visitor with a handler for `async def` like the one for `def`. */
  function CorrectedStmtEntities(s: Stmt): Result<seq<Entity>, ExtractError>
    decreases s, 1
  {
    match s
    case FunctionDef(_, _, _, _, _, _) => Ok([FunctionE(FunctionOf(s))])
    case Block(parts) => CorrectedEntitiesOf(parts)
    case _ => StmtEntities(s)
  }

  function CorrectedEntitiesOf(body: seq<Stmt>): Result<seq<Entity>, ExtractError>
    decreases body, 0
  {
    if |body| == 0 then Ok([])
    else
      var n := |body| - 1;
      match CorrectedEntitiesOf(body[..n])
      case Err(e) => Err(e)
      case Ok(es) =>
        match CorrectedStmtEntities(body[n])
        case Err(e) => Err(e)
        case Ok(fs) => Ok(es + fs)
  }

  /** With the handler, an `async def` is extracted as one function whose signature starts with `async `. */
  lemma CorrectedExtractsAsync(s: Stmt)
    requires s.FunctionDef? && s.isAsync
    ensures CorrectedEntitiesOf([s]) == Ok([FunctionE(FunctionOf(s))])
    ensures StartsWith(SignatureOf(FunctionOf(s)), "async ")
  {
    assert [s][..0] == [];
    assert [] + [FunctionE(FunctionOf(s))] == [FunctionE(FunctionOf(s))];
    SignatureShape(FunctionOf(s));
  }

  /** No `async def` among the statements the visitor walks through. */
  predicate NoAsyncVisited(s: Stmt)
    decreases s, 1
  {
    match s
    case FunctionDef(_, _, _, _, _, isAsync) => !isAsync
    case Block(parts) => NoAsyncVisitedAll(parts)
    case _ => true
  }

  predicate NoAsyncVisitedAll(body: seq<Stmt>)
    decreases body, 0
  {
    forall i :: 0 <= i < |body| ==> NoAsyncVisited(body[i])
  }

  lemma CorrectedAgreesStmt(s: Stmt)
    requires NoAsyncVisited(s)
    ensures CorrectedStmtEntities(s) == StmtEntities(s)
    decreases s, 1
  {
    if s.Block? {
      CorrectedAgrees(s.parts);
    }
  }

  /** The correction changes nothing for a module without `async def`. */
  lemma {:induction false} CorrectedAgrees(body: seq<Stmt>)
    requires NoAsyncVisitedAll(body)
    ensures CorrectedEntitiesOf(body) == EntitiesOf(body)
    decreases body, 0
  {
    if |body| > 0 {
      var n := |body| - 1;
      CorrectedAgrees(body[..n]);
      CorrectedAgreesStmt(body[n]);
    }
  }
}
