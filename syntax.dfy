/** The few shapes of Python's abstract syntax tree that the static extractor
    reads, the text `ast.unparse` gives for an expression, and `ast.walk`, the
    breadth-first traversal of every node below a statement. */
module Syntax {
  import opened Wrappers
  import opened Text

  /** The expressions the extractor inspects; any other expression is kept as its source text. */
  datatype Expr =
    | Name(id: string)
    | Attribute(value: Expr, attr: string)
    | Tuple(elts: seq<Expr>)
    | List(elts: seq<Expr>)
    | Other(text: string)

  /** `ast.unparse` for the shapes above. It stands in for the library's printer:
      the extractor only copies this text into entities, never inspects it. */
  function Unparse(e: Expr): string
    decreases e, 1
  {
    match e
    case Name(id) => id
    case Attribute(v, a) => Unparse(v) + "." + a
    case Tuple(elts) => "(" + UnparseAll(elts) + (if |elts| == 1 then ",)" else ")")
    case List(elts) => "[" + UnparseAll(elts) + "]"
    case Other(text) => text
  }

  /** The texts of `es` separated by `, `. */
  function UnparseAll(es: seq<Expr>): string
    decreases es, 0
  {
    if |es| == 0 then ""
    else if |es| == 1 then Unparse(es[0])
    else Unparse(es[0]) + ", " + UnparseAll(es[1..])
  }

  /** `ast.unparse` applied to each expression of a list, as in
      `[ast.unparse(d) for d in decorator_list]`. */
  function UnparseEach(es: seq<Expr>): (r: seq<string>)
    ensures |r| == |es|
    ensures forall i :: 0 <= i < |es| ==> r[i] == Unparse(es[i])
  {
    seq(|es|, i requires 0 <= i < |es| => Unparse(es[i]))
  }

  /** `ast.unparse(x) if x else None` for an optional annotation or return type. */
  function UnparseOpt(e: Option<Expr>): (r: Option<string>)
    ensures r.Some? <==> e.Some?
  {
    if e.Some? then Some(Unparse(e.value)) else None
  }

  /** One parameter (`ast.arg`): its name and optional annotation. */
  datatype Arg = Arg(name: string, annotation: Option<Expr>)

  /** `ast.arguments`. The parser never produces more defaults than positional
      parameters, and keeps one (possibly absent) keyword-only default per
      keyword-only parameter. */
  datatype Arguments = Arguments(
    posonly: seq<Arg>,
    args: seq<Arg>,
    vararg: Option<Arg>,
    kwonly: seq<Arg>,
    kwDefaults: seq<Option<Expr>>,
    kwarg: Option<Arg>,
    defaults: seq<Expr>)

  type ParsedArguments = a: Arguments
    | |a.defaults| <= |a.posonly| + |a.args| && |a.kwDefaults| == |a.kwonly|
    witness Arguments([], [], None, [], [], None, [])

  /** One name of an import statement (`ast.alias`): `name` or `name as asname`. */
  datatype ImportName = ImportName(name: string, asname: Option<string>)

  /** The statements the extractor reads. `Block` stands for every other node
      that holds statements (`if`, `for`, `while`, `with`, `try`, an `except`
      handler, a `match` case, ...), with its nested statements and handler
      nodes in field order; `Simple` is any statement that holds none. */
  datatype Stmt =
    | FunctionDef(name: string, args: ParsedArguments, body: seq<Stmt>,
                  decorators: seq<Expr>, returnType: Option<Expr>, isAsync: bool)
    | ClassDef(name: string, bases: seq<Expr>, body: seq<Stmt>, decorators: seq<Expr>)
    | Assign(targets: seq<Expr>, value: Expr)
    | AnnAssign(target: Expr, annotation: Expr, optValue: Option<Expr>)
    | Import(names: seq<ImportName>)
    | ImportFrom(fromModule: Option<string>, names: seq<ImportName>, level: nat)
    | Block(parts: seq<Stmt>)
    | Simple

  // ---------------------------------------------------------------------------
  // `ast.walk`

  /** The statement nodes directly below `s`. */
  function Children(s: Stmt): seq<Stmt>
  {
    match s
    case FunctionDef(_, _, body, _, _, _) => body
    case ClassDef(_, _, body, _) => body
    case Block(parts) => parts
    case _ => []
  }

  function Size(s: Stmt): nat
    decreases s, 1
  {
    match s
    case FunctionDef(_, _, body, _, _, _) => 1 + SizeAll(body)
    case ClassDef(_, _, body, _) => 1 + SizeAll(body)
    case Block(parts) => 1 + SizeAll(parts)
    case _ => 1
  }

  function SizeAll(ss: seq<Stmt>): nat
    decreases ss, 0
  {
    if |ss| == 0 then 0 else Size(ss[0]) + SizeAll(ss[1..])
  }

  /** The next level of the traversal: the children of each node, in queue order. */
  function ChildrenAll(ss: seq<Stmt>): seq<Stmt>
  {
    if |ss| == 0 then [] else Children(ss[0]) + ChildrenAll(ss[1..])
  }

  lemma {:induction false} SizeAllAppend(a: seq<Stmt>, b: seq<Stmt>)
    ensures SizeAll(a + b) == SizeAll(a) + SizeAll(b)
    decreases |a|
  {
    if |a| > 0 {
      assert (a + b)[1..] == a[1..] + b;
      SizeAllAppend(a[1..], b);
    } else {
      assert a + b == b;
    }
  }

  /** Each level is smaller than the one before by the number of its nodes. */
  lemma {:induction false} ChildrenAllSize(ss: seq<Stmt>)
    ensures SizeAll(ChildrenAll(ss)) + |ss| == SizeAll(ss)
    decreases |ss|
  {
    if |ss| > 0 {
      ChildrenAllSize(ss[1..]);
      SizeAllAppend(Children(ss[0]), ChildrenAll(ss[1..]));
    }
  }

  /** `ast.walk` started from the nodes `frontier`: each level of the tree in turn. */
  function Walk(frontier: seq<Stmt>): seq<Stmt>
    decreases SizeAll(frontier)
  {
    if |frontier| == 0 then []
    else
      ChildrenAllSize(frontier);
      frontier + Walk(ChildrenAll(frontier))
  }

  /** Depth-first pre-order, the order of the statements in the source text:
      the reference against which the walk is checked. */
  function Preorder(s: Stmt): seq<Stmt>
    decreases s, 1
  {
    match s
    case FunctionDef(_, _, body, _, _, _) => [s] + PreorderAll(body)
    case ClassDef(_, _, body, _) => [s] + PreorderAll(body)
    case Block(parts) => [s] + PreorderAll(parts)
    case _ => [s]
  }

  function PreorderAll(ss: seq<Stmt>): seq<Stmt>
    decreases ss, 0
  {
    if |ss| == 0 then [] else Preorder(ss[0]) + PreorderAll(ss[1..])
  }

  lemma PreorderChildren(s: Stmt)
    ensures Preorder(s) == [s] + PreorderAll(Children(s))
  {
  }

  lemma {:induction false} PreorderAllAppend(a: seq<Stmt>, b: seq<Stmt>)
    ensures PreorderAll(a + b) == PreorderAll(a) + PreorderAll(b)
    decreases |a|
  {
    if |a| > 0 {
      assert (a + b)[1..] == a[1..] + b;
      PreorderAllAppend(a[1..], b);
    } else {
      assert a + b == b;
    }
  }

  /** The pre-order of a level is the level itself and the pre-order of the next level, up to order. */
  lemma {:induction false} PreorderLevels(ss: seq<Stmt>)
    ensures multiset(PreorderAll(ss)) == multiset(ss) + multiset(PreorderAll(ChildrenAll(ss)))
    decreases |ss|
  {
    if |ss| > 0 {
      PreorderLevels(ss[1..]);
      PreorderChildren(ss[0]);
      PreorderAllAppend(Children(ss[0]), ChildrenAll(ss[1..]));
      assert ss == [ss[0]] + ss[1..];
    }
  }

  /** The walk meets every statement nested below its start exactly as often as
      the source text holds it: it is a permutation of the pre-order. */
  lemma {:induction false} WalkIsPermutation(frontier: seq<Stmt>)
    ensures multiset(Walk(frontier)) == multiset(PreorderAll(frontier))
    decreases SizeAll(frontier)
  {
    if |frontier| > 0 {
      ChildrenAllSize(frontier);
      WalkIsPermutation(ChildrenAll(frontier));
      PreorderLevels(frontier);
    }
  }

  /** `ast.walk(node)` yields `node` first and reaches every statement nested in it. */
  lemma WalkReachesNested(node: Stmt, s: Stmt)
    ensures s in Walk([node]) <==> s in Preorder(node)
    ensures Walk([node])[0] == node
  {
    WalkIsPermutation([node]);
    assert PreorderAll([node]) == Preorder(node) + PreorderAll([]);
    assert s in Walk([node]) <==> s in multiset(Walk([node]));
    assert s in Preorder(node) <==> s in multiset(Preorder(node));
  }

  /** The import statements of a module, in the order `ast.walk(tree)` yields them:
      every import nested anywhere in the body is kept, and nothing else. */
  function ImportsOf(body: seq<Stmt>): (r: seq<Stmt>)
    ensures forall i :: 0 <= i < |r| ==> (r[i].Import? || r[i].ImportFrom?)
    ensures forall s :: s in r <==> s in Walk(body) && (s.Import? || s.ImportFrom?)
    ensures forall s: Stmt :: (s.Import? || s.ImportFrom?) ==> (s in r <==> s in PreorderAll(body))
  {
    WalkIsPermutation(body);
    assert forall s :: s in Walk(body) <==> s in multiset(Walk(body));
    assert forall s :: s in PreorderAll(body) <==> s in multiset(PreorderAll(body));
    Filter(Walk(body))
  }

  /** The statements of `ss` that are imports, in their order. */
  function Filter(ss: seq<Stmt>): (r: seq<Stmt>)
    ensures forall i :: 0 <= i < |r| ==> (r[i].Import? || r[i].ImportFrom?)
    ensures forall s :: s in r <==> s in ss && (s.Import? || s.ImportFrom?)
    ensures |r| <= |ss|
  {
    if |ss| == 0 then []
    else if ss[0].Import? || ss[0].ImportFrom? then [ss[0]] + Filter(ss[1..])
    else Filter(ss[1..])
  }

  /** Filtering keeps the order of the walk: the imports of a concatenation are
      the imports of the first part followed by those of the second. */
  lemma {:induction false} FilterAppend(a: seq<Stmt>, b: seq<Stmt>)
    ensures Filter(a + b) == Filter(a) + Filter(b)
    decreases |a|
  {
    if |a| == 0 {
      assert a + b == b;
    } else {
      assert (a + b)[1..] == a[1..] + b;
      FilterAppend(a[1..], b);
    }
  }

  /** A filtered run is exactly the imports of the run when every statement is one. */
  lemma {:induction false} FilterKeepsImports(ss: seq<Stmt>)
    requires forall i :: 0 <= i < |ss| ==> (ss[i].Import? || ss[i].ImportFrom?)
    ensures Filter(ss) == ss
    decreases |ss|
  {
    if |ss| > 0 {
      FilterKeepsImports(ss[1..]);
    }
  }
}
