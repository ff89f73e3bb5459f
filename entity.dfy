/** The API entity model: arguments, functions, variables, classes, packages,
    aliases and wildcard aliases, with the rendering of a function signature,
    the lookups on a class, the full name and the key listings of a package,
    and dotted lookup (`package[key]`), which never follows an alias. */
module Entity {
  import opened Wrappers
  import opened Text

  datatype Argument = Argument(
    name: string,
    typ: Option<string>,
    default: Option<string>,
    posOnly: bool,
    kwOnly: bool,
    vararg: bool,
    kwarg: bool)

  datatype Function = Function(
    name: string,
    args: seq<Argument>,
    returnType: Option<string>,
    decorators: seq<string>,
    isAsync: bool)

  /** A module-level variable or a class field; `typ` is `None` where no annotation was written. */
  datatype Variable = Variable(name: string, typ: Option<string>, value: string)

  datatype Class = Class(
    name: string,
    bases: seq<string>,
    fields: seq<Variable>,
    staticFields: seq<Variable>,
    methods: seq<Function>,
    classes: seq<Class>,
    decorators: seq<string>)

  /** A module or package. The parent back-pointer is kept as the names of the
      enclosing packages, outermost first. `children` and `entities` are
      dictionaries keyed by element name, kept in insertion order. */
  datatype Package = Package(
    name: string,
    ancestors: seq<string>,
    children: seq<Package>,
    entities: seq<Entity>)

  /** Every kind of API entity; `PackageE` occurs only as the result of a lookup. */
  datatype Entity =
    | FunctionE(f: Function)
    | VariableE(v: Variable)
    | ClassE(c: Class)
    | PackageE(p: Package)
    | AliasE(name: string, fullAlias: string)
    | WildcardE(name: string, fullAliases: seq<string>)

  function FunctionName(f: Function): string { f.name }
  function VariableName(v: Variable): string { v.name }
  function ClassName(c: Class): string { c.name }
  function PackageName(p: Package): string { p.name }

  function EntityName(e: Entity): string
  {
    match e
    case FunctionE(f) => f.name
    case VariableE(v) => v.name
    case ClassE(c) => c.name
    case PackageE(p) => p.name
    case AliasE(n, _) => n
    case WildcardE(n, _) => n
  }

  // ---------------------------------------------------------------------------
  // Function signature

  /** One argument as it appears in a signature. */
  function ArgText(a: Argument): string
  {
    var base := a.name + (if a.typ.Some? then ": " + a.typ.value else "");
    var starred := if a.vararg then "*" + base else base;
    var doubled := if a.kwarg then "**" + starred else starred;
    doubled + (if a.default.Some? then " = " + a.default.value else "")
  }

  /** A `/` goes before argument `i` when it ends a run of positional-only arguments. */
  predicate SlashBefore(args: seq<Argument>, i: int)
    requires 0 <= i < |args|
  {
    i >= 1 && args[i - 1].posOnly && !args[i].posOnly
  }

  /** The items of the argument list, built one argument at a time. */
  function ArgItems(args: seq<Argument>): seq<string>
  {
    if |args| == 0 then []
    else
      var n := |args| - 1;
      ArgItems(args[..n]) + (if SlashBefore(args, n) then ["/"] else []) + [ArgText(args[n])]
  }

  /** The decorators in their stored order, each rendered as `@d `. */
  function DecoratorPrefix(ds: seq<string>): string
  {
    if |ds| == 0 then "" else "@" + ds[0] + " " + DecoratorPrefix(ds[1..])
  }

  /** The canonical signature text of a function. */
  function SignatureOf(f: Function): string
  {
    var def := "def " + f.name + "(" + Join(ArgItems(f.args), ", ") + ")";
    var decorated := DecoratorPrefix(f.decorators) + def;
    var marked := if f.isAsync then "async " + decorated else decorated;
    if f.returnType.Some? then marked + " -> " + f.returnType.value else marked
  }

  /** The argument items, with `/` where a positional-only run ends. */
  method ArgumentItems(args: seq<Argument>) returns (items: seq<string>)
    ensures items == ArgItems(args)
  {
    items := [];
    for i := 0 to |args|
      invariant items == ArgItems(args[..i])
    {
      assert args[..i + 1][..i] == args[..i];
      if i >= 1 && args[i - 1].posOnly && !args[i].posOnly {
        items := items + ["/"];
      }
      items := items + [ArgText(args[i])];
    }
    assert args[..|args|] == args;
  }

  /** Prepends the decorators from the last to the first, so they read in stored order. */
  method Decorate(decorators: seq<string>, def: string) returns (s: string)
    ensures s == DecoratorPrefix(decorators) + def
  {
    s := def;
    var j := |decorators|;
    while j > 0
      invariant 0 <= j <= |decorators|
      invariant s == DecoratorPrefix(decorators[j..]) + def
    {
      j := j - 1;
      assert decorators[j..][1..] == decorators[j + 1..];
      s := "@" + decorators[j] + " " + s;
    }
    assert decorators[0..] == decorators;
  }

  /** `Function.signature`. */
  method Signature(f: Function) returns (s: string)
    ensures s == SignatureOf(f)
  {
    var items := ArgumentItems(f.args);
    s := Decorate(f.decorators, "def " + f.name + "(" + Join(items, ", ") + ")");
    if f.isAsync {
      s := "async " + s;
    }
    if f.returnType.Some? {
      s := s + " -> " + f.returnType.value;
    }
  }

  /** The rendered arguments without any separator. */
  function Texts(args: seq<Argument>): (r: seq<string>)
    ensures |r| == |args|
    ensures forall i :: 0 <= i < |args| ==> r[i] == ArgText(args[i])
  {
    seq(|args|, i requires 0 <= i < |args| => ArgText(args[i]))
  }

  /** Exactly the first `n` arguments are positional-only. */
  predicate PosOnlyPrefix(args: seq<Argument>, n: nat)
  {
    n <= |args| && forall i :: 0 <= i < |args| ==> (args[i].posOnly <==> i < n)
  }

  lemma TextsSnoc(args: seq<Argument>, k: nat)
    requires k < |args|
    ensures Texts(args[..k + 1]) == Texts(args[..k]) + [ArgText(args[k])]
  {
  }

  lemma TextsSlice(args: seq<Argument>, n: nat, k: nat)
    requires n <= k < |args|
    ensures Texts(args[n..k + 1]) == Texts(args[n..k]) + [ArgText(args[k])]
  {
  }

  lemma SlashAt(args: seq<Argument>, n: nat, m: nat)
    requires PosOnlyPrefix(args, n) && m < |args|
    ensures SlashBefore(args, m) <==> m == n && n >= 1
  {
    if m >= 1 {
      assert args[m - 1].posOnly <==> m - 1 < n;
      assert args[m].posOnly <==> m < n;
    }
  }

  /** One more argument: its text, preceded by `/` when it ends the positional-only run. */
  lemma ArgItemsSnoc(args: seq<Argument>, n: nat, k: nat)
    requires PosOnlyPrefix(args, n) && 0 < k <= |args|
    ensures k - 1 == n && n >= 1 ==> ArgItems(args[..k]) == ArgItems(args[..k - 1]) + ["/", ArgText(args[k - 1])]
    ensures !(k - 1 == n && n >= 1) ==> ArgItems(args[..k]) == ArgItems(args[..k - 1]) + [ArgText(args[k - 1])]
  {
    var a := args[..k];
    assert a[..k - 1] == args[..k - 1];
    SlashAt(args, n, k - 1);
    assert SlashBefore(a, k - 1) == SlashBefore(args, k - 1);
  }

  /** The step past the `/`: the new argument joins the texts after it. */
  lemma ArgItemsAfterSlash(args: seq<Argument>, n: nat, k: nat)
    requires PosOnlyPrefix(args, n) && 0 < n < k - 1 && k <= |args|
    requires ArgItems(args[..k - 1]) == Texts(args[..n]) + ["/"] + Texts(args[n..k - 1])
    ensures ArgItems(args[..k]) == Texts(args[..n]) + ["/"] + Texts(args[n..k])
  {
    ArgItemsSnoc(args, n, k);
    TextsSlice(args, n, k - 1);
    var x, y, t := Texts(args[..n]), Texts(args[n..k - 1]), ArgText(args[k - 1]);
    assert x + ["/"] + y + [t] == x + ["/"] + (y + [t]);
  }

  lemma {:induction false} ArgItemsPrefix(args: seq<Argument>, n: nat, k: nat)
    requires PosOnlyPrefix(args, n) && k <= |args|
    ensures ArgItems(args[..k])
         == if 0 < n < k then Texts(args[..n]) + ["/"] + Texts(args[n..k]) else Texts(args[..k])
  {
    if k > 0 {
      var m := k - 1;
      ArgItemsPrefix(args, n, m);
      if 0 < n < m {
        ArgItemsAfterSlash(args, n, k);
      } else if n == m && n > 0 {
        ArgItemsSnoc(args, n, k);
        assert Texts(args[n..k]) == [ArgText(args[m])];
      } else {
        ArgItemsSnoc(args, n, k);
        TextsSnoc(args, m);
      }
    }
  }

  /** The `/` separator sits right after the positional-only arguments, and only
      when some argument follows them. */
  lemma SlashAfterPositionalOnly(args: seq<Argument>, n: nat)
    requires PosOnlyPrefix(args, n)
    ensures ArgItems(args)
         == if 0 < n < |args| then Texts(args[..n]) + ["/"] + Texts(args[n..]) else Texts(args)
  {
    ArgItemsPrefix(args, n, |args|);
    assert args[..|args|] == args;
  }

  /** Starred prefixes and the default suffix of one argument. */
  lemma ArgTextShape(a: Argument)
    ensures a.kwarg && !a.vararg ==> StartsWith(ArgText(a), "**" + a.name)
    ensures a.vararg && !a.kwarg ==> StartsWith(ArgText(a), "*" + a.name)
    ensures !a.vararg && !a.kwarg ==> StartsWith(ArgText(a), a.name)
    ensures a.default.Some? ==> EndsWith(ArgText(a), " = " + a.default.value)
    ensures a.default.None? && a.typ.None? && !a.vararg && !a.kwarg ==> ArgText(a) == a.name
  {
  }

  /** Decorators keep their stored order: one more decorator renders after the others. */
  lemma {:induction false} DecoratorPrefixSnoc(ds: seq<string>, d: string)
    ensures DecoratorPrefix(ds + [d]) == DecoratorPrefix(ds) + "@" + d + " "
  {
    if |ds| > 0 {
      assert (ds + [d])[1..] == ds[1..] + [d];
      DecoratorPrefixSnoc(ds[1..], d);
    }
  }

  /** `async ` comes before the decorators, the decorators before `def`, and the
      return annotation last. */
  lemma SignatureShape(f: Function)
    ensures var head := DecoratorPrefix(f.decorators) + "def " + f.name + "(";
      StartsWith(SignatureOf(f), if f.isAsync then "async " + head else head)
    ensures EndsWith(SignatureOf(f), if f.returnType.Some? then " -> " + f.returnType.value else ")")
  {
    SignatureStart(f);
    SignatureEnd(f);
  }

  /** The signature text opens with `async `, if any, the decorators and `def name(`. */
  lemma SignatureStart(f: Function)
    ensures var head := DecoratorPrefix(f.decorators) + "def " + f.name + "(";
      StartsWith(SignatureOf(f), if f.isAsync then "async " + head else head)
  {
    var def := "def " + f.name + "(" + Join(ArgItems(f.args), ", ") + ")";
    var head := DecoratorPrefix(f.decorators) + "def " + f.name + "(";
    var decorated := DecoratorPrefix(f.decorators) + def;
    assert decorated == head + Join(ArgItems(f.args), ", ") + ")";
    var marked := if f.isAsync then "async " + decorated else decorated;
    assert (if f.isAsync then "async " + head else head) <= marked;
    assert marked <= SignatureOf(f);
  }

  /** The signature text closes with the return annotation, or else with `)`. */
  lemma SignatureEnd(f: Function)
    ensures EndsWith(SignatureOf(f), if f.returnType.Some? then " -> " + f.returnType.value else ")")
  {
    var def := "def " + f.name + "(" + Join(ArgItems(f.args), ", ") + ")";
    var decorated := DecoratorPrefix(f.decorators) + def;
    var marked := if f.isAsync then "async " + decorated else decorated;
    if f.returnType.Some? {
      EndsWithConcat(marked, " -> ", f.returnType.value);
    } else {
      assert marked[|marked| - 1..] == [marked[|marked| - 1]];
    }
  }

  // ---------------------------------------------------------------------------
  // Lookup by name in an insertion-ordered collection

  /** Index of the first element whose key is `name`, or `|xs|` when there is none. */
  function IndexOfName<T>(xs: seq<T>, key: T -> string, name: string): (i: nat)
    ensures i <= |xs|
    ensures forall j :: 0 <= j < i ==> key(xs[j]) != name
    ensures i < |xs| ==> key(xs[i]) == name
  {
    if |xs| == 0 then 0
    else if key(xs[0]) == name then 0
    else 1 + IndexOfName(xs[1..], key, name)
  }

  /** The first index with key `name` is determined by what precedes it. */
  lemma IndexOfNameIs<T>(xs: seq<T>, key: T -> string, name: string, i: nat)
    requires i <= |xs|
    requires forall j :: 0 <= j < i ==> key(xs[j]) != name
    requires i < |xs| ==> key(xs[i]) == name
    ensures IndexOfName(xs, key, name) == i
  {
  }

  /** The first element whose key is `name`, if any. */
  function FindFirst<T>(xs: seq<T>, key: T -> string, name: string): (r: Option<T>)
    ensures r.Some? <==> exists j :: 0 <= j < |xs| && key(xs[j]) == name
    ensures r.Some? ==> key(r.value) == name
    ensures r.Some? ==> exists j :: 0 <= j < |xs| && xs[j] == r.value
                                 && forall l :: 0 <= l < j ==> key(xs[l]) != name
  {
    var i := IndexOfName(xs, key, name);
    if i < |xs| then Some(xs[i]) else None
  }

  // ---------------------------------------------------------------------------
  // Class lookups

  /** `Class.constructor`: the first method named `__init__`. */
  method Constructor(c: Class) returns (r: Option<Function>)
    ensures r == FindFirst(c.methods, FunctionName, "__init__")
  {
    for i := 0 to |c.methods|
      invariant forall j :: 0 <= j < i ==> c.methods[j].name != "__init__"
    {
      if c.methods[i].name == "__init__" {
        return Some(c.methods[i]);
      }
    }
    return None;
  }

  method GetField(c: Class, name: string) returns (r: Option<Variable>)
    ensures r == FindFirst(c.fields, VariableName, name)
  {
    for i := 0 to |c.fields|
      invariant forall j :: 0 <= j < i ==> c.fields[j].name != name
    {
      if c.fields[i].name == name {
        return Some(c.fields[i]);
      }
    }
    return None;
  }

  method GetStaticField(c: Class, name: string) returns (r: Option<Variable>)
    ensures r == FindFirst(c.staticFields, VariableName, name)
  {
    for i := 0 to |c.staticFields|
      invariant forall j :: 0 <= j < i ==> c.staticFields[j].name != name
    {
      if c.staticFields[i].name == name {
        return Some(c.staticFields[i]);
      }
    }
    return None;
  }

  method GetMethod(c: Class, name: string) returns (r: Option<Function>)
    ensures r == FindFirst(c.methods, FunctionName, name)
  {
    for i := 0 to |c.methods|
      invariant forall j :: 0 <= j < i ==> c.methods[j].name != name
    {
      if c.methods[i].name == name {
        return Some(c.methods[i]);
      }
    }
    return None;
  }

  method GetClass(c: Class, name: string) returns (r: Option<Class>)
    ensures r == FindFirst(c.classes, ClassName, name)
  {
    for i := 0 to |c.classes|
      invariant forall j :: 0 <= j < i ==> c.classes[j].name != name
    {
      if c.classes[i].name == name {
        return Some(c.classes[i]);
      }
    }
    return None;
  }

  /** Methods, then fields, then static fields, as entities. */
  function Members(c: Class): seq<Entity>
  {
    seq(|c.methods|, i requires 0 <= i < |c.methods| => FunctionE(c.methods[i]))
    + seq(|c.fields|, i requires 0 <= i < |c.fields| => VariableE(c.fields[i]))
    + seq(|c.staticFields|, i requires 0 <= i < |c.staticFields| => VariableE(c.staticFields[i]))
  }

  /** The members before position `i` do not carry `name` exactly when no
      method, field or static field before it does. */
  lemma MembersName(c: Class, i: nat, name: string)
    requires i <= |Members(c)|
    requires forall j :: 0 <= j < |c.methods| && j < i ==> c.methods[j].name != name
    requires forall j :: 0 <= j < |c.fields| && |c.methods| + j < i ==> c.fields[j].name != name
    requires forall j :: 0 <= j < |c.staticFields| && |c.methods| + |c.fields| + j < i ==> c.staticFields[j].name != name
    ensures forall j :: 0 <= j < i ==> EntityName(Members(c)[j]) != name
    ensures i < |c.methods| ==> Members(c)[i] == FunctionE(c.methods[i])
    ensures |c.methods| <= i < |c.methods| + |c.fields| ==> Members(c)[i] == VariableE(c.fields[i - |c.methods|])
    ensures |c.methods| + |c.fields| <= i < |Members(c)|
            ==> Members(c)[i] == VariableE(c.staticFields[i - |c.methods| - |c.fields|])
  {
    var nm, nf := |c.methods|, |c.fields|;
    forall j | 0 <= j < i ensures EntityName(Members(c)[j]) != name {
      if j < nm {
        assert Members(c)[j] == FunctionE(c.methods[j]);
      } else if j < nm + nf {
        assert Members(c)[j] == VariableE(c.fields[j - nm]);
      } else {
        assert Members(c)[j] == VariableE(c.staticFields[j - nm - nf]);
      }
    }
  }

  /** `Class.get_entity`: an undotted name is a method or field of this class; a
      dotted one descends into the first nested class named by its first segment. */
  function GetEntity(c: Class, name: string): (r: Option<Entity>)
    ensures r.Some? ==> r.value.FunctionE? || r.value.VariableE?
    ensures r.Some? ==> EntityName(r.value) == LastSegment(name)
    decreases c
  {
    if '.' !in name then
      var r := FindFirst(Members(c), EntityName, name);
      SplitWithoutSep(name, '.');
      assert r.Some? ==> exists j :: 0 <= j < |Members(c)| && Members(c)[j] == r.value;
      r
    else
      FirstSegmentBeforeDot(name);
      LastSegmentOfSuffix(name);
      var prefix := FirstSegment(name);
      var suffix := name[|prefix| + 1..];
      var ci := IndexOfName(c.classes, ClassName, prefix);
      if ci < |c.classes| then GetEntity(c.classes[ci], suffix) else None
  }

  /** An undotted name is looked up among the methods, then the fields, then the static fields. */
  lemma GetEntityUndotted(c: Class, name: string)
    requires '.' !in name
    ensures GetEntity(c, name)
         == match FindFirst(c.methods, FunctionName, name)
            case Some(m) => Some(FunctionE(m))
            case None =>
              match FindFirst(c.fields, VariableName, name)
              case Some(v) => Some(VariableE(v))
              case None =>
                match FindFirst(c.staticFields, VariableName, name)
                case Some(v) => Some(VariableE(v))
                case None => None
  {
    var ms := Members(c);
    var a := IndexOfName(c.methods, FunctionName, name);
    var b := IndexOfName(c.fields, VariableName, name);
    var d := IndexOfName(c.staticFields, VariableName, name);
    var nm, nf := |c.methods|, |c.fields|;
    if a < nm {
      assert FindFirst(c.methods, FunctionName, name) == Some(c.methods[a]);
      MembersName(c, a, name);
      GetEntityAt(c, name, a);
    } else if b < nf {
      assert FindFirst(c.methods, FunctionName, name) == None;
      assert FindFirst(c.fields, VariableName, name) == Some(c.fields[b]);
      MembersName(c, nm + b, name);
      GetEntityAt(c, name, nm + b);
    } else {
      assert FindFirst(c.methods, FunctionName, name) == None;
      assert FindFirst(c.fields, VariableName, name) == None;
      MembersName(c, nm + nf + d, name);
      GetEntityAt(c, name, nm + nf + d);
    }
  }

  /** An undotted name found first at member `i` (or at none, for `i` past the end). */
  lemma GetEntityAt(c: Class, name: string, i: nat)
    requires '.' !in name && i <= |Members(c)|
    requires forall j :: 0 <= j < i ==> EntityName(Members(c)[j]) != name
    requires i < |Members(c)| ==> EntityName(Members(c)[i]) == name
    ensures GetEntity(c, name) == if i < |Members(c)| then Some(Members(c)[i]) else None
  {
    IndexOfNameIs(Members(c), EntityName, name, i);
  }

  /** A dotted name is looked up in the first nested class named by its first segment. */
  lemma GetEntityDotted(c: Class, inner: string, rest: string)
    requires '.' !in inner
    ensures GetEntity(c, inner + "." + rest)
         == match FindFirst(c.classes, ClassName, inner)
            case Some(k) => GetEntity(k, rest)
            case None => None
  {
    var name := inner + "." + rest;
    assert name[|inner|] == '.';
    FirstSegmentBeforeDot(name);
    SplitAround(inner, rest, '.');
    SplitWithoutSep(inner, '.');
    assert FirstSegment(name) == inner;
    assert name[|inner| + 1..] == rest;
  }

  // ---------------------------------------------------------------------------
  // Package names and listings

  /** The full dotted name of a package: its ancestors' names and its own. */
  function FullNameOf(p: Package): string
  {
    Join(p.ancestors + [p.name], ".")
  }

  /** `Package.full_name`: prepends the name of each enclosing package in turn. */
  method FullName(p: Package) returns (s: string)
    ensures s == FullNameOf(p)
  {
    s := p.name;
    var i := |p.ancestors|;
    while i > 0
      invariant 0 <= i <= |p.ancestors|
      invariant s == Join(p.ancestors[i..] + [p.name], ".")
    {
      i := i - 1;
      var parts := p.ancestors[i..] + [p.name];
      assert parts[0] == p.ancestors[i];
      assert parts[1..] == p.ancestors[i + 1..] + [p.name];
      s := p.ancestors[i] + "." + s;
    }
    assert p.ancestors[0..] == p.ancestors;
  }

  /** Each child records its parent as the last of its ancestors. */
  predicate Linked(p: Package)
  {
    forall i :: 0 <= i < |p.children| ==>
      p.children[i].ancestors == p.ancestors + [p.name] && Linked(p.children[i])
  }

  /** A child's full name is its parent's full name, a dot, and its own name. */
  lemma ChildFullName(p: Package, c: Package)
    requires c.ancestors == p.ancestors + [p.name]
    ensures FullNameOf(c) == FullNameOf(p) + "." + c.name
  {
    JoinSnoc(p.ancestors + [p.name], c.name, ".");
  }

  /** With no dot inside any name, splitting the full name gives back the ancestors and the name. */
  lemma FullNameSegments(p: Package)
    requires forall i :: 0 <= i < |p.ancestors| ==> '.' !in p.ancestors[i]
    requires '.' !in p.name
    ensures Split(FullNameOf(p), '.') == p.ancestors + [p.name]
  {
    SplitJoin(p.ancestors + [p.name], '.');
  }

  /** `full_name + "." + k` for each entity key of this package, in insertion order. */
  function EntityKeys(p: Package, full: string): (r: seq<string>)
    ensures |r| == |p.entities|
  {
    seq(|p.entities|, i requires 0 <= i < |p.entities| => full + "." + EntityName(p.entities[i]))
  }

  /** `keys(leaf_only)`: own name unless leaf-only, own entity keys, then each child's keys. */
  function KeysOf(p: Package, leafOnly: bool): seq<string>
    decreases p, 1
  {
    (if leafOnly then [] else [FullNameOf(p)]) + EntityKeys(p, FullNameOf(p)) + ChildrenKeys(p.children, leafOnly)
  }

  function ChildrenKeys(cs: seq<Package>, leafOnly: bool): seq<string>
    decreases cs, 0
  {
    if |cs| == 0 then []
    else ChildrenKeys(cs[..|cs| - 1], leafOnly) + KeysOf(cs[|cs| - 1], leafOnly)
  }

  /** The loop over the package's own entities: each key is the full name, a
      dot and the entity name, in stored order. */
  method AppendEntityKeys(p: Package, full: string, start: seq<string>) returns (result: seq<string>)
    ensures result == start + EntityKeys(p, full)
  {
    result := start;
    for i := 0 to |p.entities|
      invariant result == start + EntityKeys(p, full)[..i]
    {
      assert EntityKeys(p, full)[..i + 1] == EntityKeys(p, full)[..i] + [full + "." + EntityName(p.entities[i])];
      result := result + [full + "." + EntityName(p.entities[i])];
    }
    assert EntityKeys(p, full)[..|p.entities|] == EntityKeys(p, full);
  }

  /** `Package.keys`. */
  method Keys(p: Package, leafOnly: bool) returns (result: seq<string>)
    ensures result == KeysOf(p, leafOnly)
    decreases p
  {
    var full := FullName(p);
    result := if leafOnly then [] else [full];
    result := AppendEntityKeys(p, full, result);
    var mine := result;
    for i := 0 to |p.children|
      invariant result == mine + ChildrenKeys(p.children[..i], leafOnly)
    {
      assert p.children[..i + 1][..i] == p.children[..i];
      assert ChildrenKeys(p.children[..i + 1], leafOnly)
          == ChildrenKeys(p.children[..i], leafOnly) + KeysOf(p.children[i], leafOnly);
      var sub := Keys(p.children[i], leafOnly);
      result := result + sub;
    }
    assert p.children[..|p.children|] == p.children;
  }

  /** `modules()`: this package's full name, then each child's modules. */
  function ModulesOf(p: Package): seq<string>
    decreases p, 1
  {
    [FullNameOf(p)] + ChildrenModules(p.children)
  }

  function ChildrenModules(cs: seq<Package>): seq<string>
    decreases cs, 0
  {
    if |cs| == 0 then [] else ChildrenModules(cs[..|cs| - 1]) + ModulesOf(cs[|cs| - 1])
  }

  /** `Package.modules`. */
  method Modules(p: Package) returns (result: seq<string>)
    ensures result == ModulesOf(p)
    decreases p
  {
    var full := FullName(p);
    result := [full];
    for i := 0 to |p.children|
      invariant result == [full] + ChildrenModules(p.children[..i])
    {
      assert p.children[..i + 1][..i] == p.children[..i];
      var sub := Modules(p.children[i]);
      result := result + sub;
    }
    assert p.children[..|p.children|] == p.children;
  }

  /** The full listing has exactly one more entry per module than the leaf listing. */
  lemma {:induction false} KeysCount(p: Package)
    ensures |KeysOf(p, false)| == |KeysOf(p, true)| + |ModulesOf(p)|
    decreases p, 1
  {
    ChildrenKeysCount(p.children);
  }

  lemma {:induction false} ChildrenKeysCount(cs: seq<Package>)
    ensures |ChildrenKeys(cs, false)| == |ChildrenKeys(cs, true)| + |ChildrenModules(cs)|
    decreases cs, 0
  {
    if |cs| > 0 {
      ChildrenKeysCount(cs[..|cs| - 1]);
      KeysCount(cs[|cs| - 1]);
    }
  }

  /** Every leaf key names something inside the package: it starts with the full name and a dot. */
  lemma {:induction false} KeysInside(p: Package, leafOnly: bool)
    requires Linked(p)
    ensures forall k :: k in KeysOf(p, leafOnly) ==> StartsWith(k, FullNameOf(p))
    ensures leafOnly ==> forall k :: k in KeysOf(p, leafOnly) ==> StartsWith(k, FullNameOf(p) + ".")
    decreases p, 1
  {
    var pre := FullNameOf(p) + ".";
    forall i | 0 <= i < |p.children|
      ensures StartsWith(FullNameOf(p.children[i]), pre)
    {
      ChildFullName(p, p.children[i]);
    }
    ChildrenKeysInside(p.children, leafOnly, pre);
    var own := EntityKeys(p, FullNameOf(p));
    assert forall k :: k in own ==> StartsWith(k, pre);
    assert FullNameOf(p) <= pre;
  }

  lemma {:induction false} ChildrenKeysInside(cs: seq<Package>, leafOnly: bool, pre: string)
    requires forall i :: 0 <= i < |cs| ==> Linked(cs[i]) && StartsWith(FullNameOf(cs[i]), pre)
    ensures forall k :: k in ChildrenKeys(cs, leafOnly) ==> StartsWith(k, pre)
    decreases cs, 0
  {
    if |cs| > 0 {
      var last := cs[|cs| - 1];
      ChildrenKeysInside(cs[..|cs| - 1], leafOnly, pre);
      KeysInside(last, leafOnly);
      assert pre <= FullNameOf(last);
    }
  }

  // ---------------------------------------------------------------------------
  // Dotted lookup

  datatype LookupError =
    | NotInPackage    // the first segment is not this package's name
    | NoSuchEntity    // some later segment names nothing

  /** The wildcard entity answering for the missing name `k`: `*` replaced by `k`
      in its name and in every target. A `*` entity that is not a wildcard has
      no targets to rewrite. */
  function ExpandWildcard(w: Entity, k: string): (r: Result<Entity, LookupError>)
    ensures r.Ok? <==> w.WildcardE?
    ensures r.Ok? ==> r.value.WildcardE? && |r.value.fullAliases| == |w.fullAliases|
  {
    match w
    case WildcardE(n, targets) =>
      Ok(WildcardE(ReplaceStar(n, k),
                   seq(|targets|, i requires 0 <= i < |targets| => ReplaceStar(targets[i], k))))
    case _ => Err(NoSuchEntity)
  }

  /** One step of the dotted walk: children before entities; the wildcard only for the last segment. */
  function Step(res: Entity, k: string, last: bool): Result<Entity, LookupError>
  {
    match res
    case PackageE(p) =>
      var ci := IndexOfName(p.children, PackageName, k);
      if ci < |p.children| then Ok(PackageE(p.children[ci]))
      else
        var ei := IndexOfName(p.entities, EntityName, k);
        if ei < |p.entities| then Ok(p.entities[ei])
        else
          var wi := IndexOfName(p.entities, EntityName, "*");
          if wi < |p.entities| && last then ExpandWildcard(p.entities[wi], k)
          else Err(NoSuchEntity)
    case _ => Err(NoSuchEntity)
  }

  /** The walk over the remaining segments, starting at `res`. */
  function IndexFrom(res: Entity, segs: seq<string>): Result<Entity, LookupError>
    decreases |segs|
  {
    if |segs| == 0 then Ok(res)
    else
      match Step(res, segs[0], |segs| == 1)
      case Ok(next) => IndexFrom(next, segs[1..])
      case Err(e) => Err(e)
  }

  /** `package[key]` as a value. */
  function Index(p: Package, key: string): Result<Entity, LookupError>
  {
    var segs := Split(key, '.');
    if segs[0] != p.name then Err(NotInPackage) else IndexFrom(PackageE(p), segs[1..])
  }

  /** `Package.__getitem__`. */
  method GetItem(p: Package, key: string) returns (r: Result<Entity, LookupError>)
    ensures r == Index(p, key)
  {
    var keys := Split(key, '.');
    if keys[0] != p.name {
      return Err(NotInPackage);
    }
    var res := PackageE(p);
    var i := 1;
    while i < |keys|
      invariant 1 <= i <= |keys|
      invariant IndexFrom(res, keys[i..]) == IndexFrom(PackageE(p), keys[1..])
    {
      var k := keys[i];
      assert keys[i..][0] == k && keys[i..][1..] == keys[i + 1..];
      if !res.PackageE? {
        return Err(NoSuchEntity);
      }
      var q := res.p;
      var ci := IndexOfName(q.children, PackageName, k);
      var ei := IndexOfName(q.entities, EntityName, k);
      var wi := IndexOfName(q.entities, EntityName, "*");
      if ci < |q.children| {
        res := PackageE(q.children[ci]);
      } else if ei < |q.entities| {
        res := q.entities[ei];
      } else if wi < |q.entities| && i == |keys| - 1 {
        var w := q.entities[wi];
        if !w.WildcardE? {
          return Err(NoSuchEntity);
        }
        res := WildcardE(ReplaceStar(w.name, k),
                         seq(|w.fullAliases|, j requires 0 <= j < |w.fullAliases| => ReplaceStar(w.fullAliases[j], k)));
      } else {
        return Err(NoSuchEntity);
      }
      i := i + 1;
    }
    return Ok(res);
  }

  /** `key in package`. */
  predicate Contains(p: Package, key: string)
  {
    Index(p, key).Ok?
  }

  /** A key resolves only if its first segment is the package's own name; the bare name gives the package. */
  lemma IndexRoot(p: Package, key: string)
    ensures Index(p, key).Ok? ==> FirstSegment(key) == p.name
    ensures '.' !in p.name ==> Index(p, p.name) == Ok(PackageE(p))
  {
    var segs := Split(key, '.');
    if segs[0] != p.name {
      assert Index(p, key) == Err(NotInPackage);
    }
    if '.' !in p.name {
      SplitWithoutSep(p.name, '.');
      assert Split(p.name, '.')[1..] == [];
    }
  }

  /** Splitting `pre.k` for a dot-free `k` adds `k` as one more segment. */
  lemma SplitSnoc(pre: string, k: string)
    requires '.' !in k
    ensures Split(pre + "." + k, '.') == Split(pre, '.') + [k]
  {
    SplitAround(pre, k, '.');
    SplitWithoutSep(k, '.');
  }

  /** A two-segment key takes one step from the package, as the last segment. */
  lemma IndexOneSegment(p: Package, k: string)
    requires '.' !in p.name && '.' !in k
    ensures Index(p, p.name + "." + k)
         == match Step(PackageE(p), k, true)
            case Ok(next) => Ok(next)
            case Err(e) => Err(e)
  {
    SplitSnoc(p.name, k);
    SplitWithoutSep(p.name, '.');
    var segs := Split(p.name + "." + k, '.');
    assert segs == [p.name, k];
    assert segs[1..] == [k];
    assert [k][1..] == [];
    match Step(PackageE(p), k, true) {
      case Ok(next) =>
        assert IndexFrom(next, []) == Ok(next);
        assert IndexFrom(PackageE(p), [k]) == Ok(next);
      case Err(e) =>
        assert IndexFrom(PackageE(p), [k]) == Err(e);
    }
  }

  /** A package child shadows an entity of the same name. */
  lemma IndexChildFirst(p: Package, k: string)
    requires '.' !in p.name && '.' !in k
    requires exists i :: 0 <= i < |p.children| && p.children[i].name == k
    ensures Index(p, p.name + "." + k) == Ok(PackageE(FindFirst(p.children, PackageName, k).value))
  {
    IndexOneSegment(p, k);
  }

  /** A name that is neither a child nor an entity is answered by the wildcard
      expanded for it, but only as the last segment. */
  lemma IndexWildcard(p: Package, k: string, further: string)
    requires '.' !in p.name && '.' !in k && '.' !in further
    requires forall i :: 0 <= i < |p.children| ==> p.children[i].name != k
    requires forall i :: 0 <= i < |p.entities| ==> EntityName(p.entities[i]) != k
    ensures Index(p, p.name + "." + k)
         == match FindFirst(p.entities, EntityName, "*")
            case Some(w) => ExpandWildcard(w, k)
            case None => Err(NoSuchEntity)
    ensures Index(p, p.name + "." + k + "." + further) == Err(NoSuchEntity)
  {
    IndexOneSegment(p, k);
    SplitSnoc(p.name, k);
    SplitWithoutSep(p.name, '.');
    SplitSnoc(p.name + "." + k, further);
    assert Split(p.name + "." + k + "." + further, '.') == [p.name, k, further];
    assert [p.name, k, further][1..] == [k, further];
    assert Step(PackageE(p), k, false) == Err(NoSuchEntity);
  }

  /** With a wildcard import in the package, every undotted name below it is contained. */
  lemma WildcardContainsAnything(p: Package, k: string)
    requires '.' !in p.name && '.' !in k
    requires exists i :: 0 <= i < |p.entities| && EntityName(p.entities[i]) == "*"
    requires forall i :: 0 <= i < |p.entities| && EntityName(p.entities[i]) == "*" ==> p.entities[i].WildcardE?
    ensures Contains(p, p.name + "." + k)
  {
    IndexOneSegment(p, k);
    if (exists i :: 0 <= i < |p.children| && p.children[i].name == k) {
      IndexChildFirst(p, k);
    } else if (exists i :: 0 <= i < |p.entities| && EntityName(p.entities[i]) == k) {
      assert IndexOfName(p.entities, EntityName, k) < |p.entities|;
    } else {
      IndexWildcard(p, k, "");
    }
  }

  /** The walk never descends below an entity that is not a package: not into a
      class, and not through an alias. */
  lemma {:induction false} IndexFromNoDescent(res: Entity, segs: seq<string>, k: string)
    requires IndexFrom(res, segs).Ok? && !IndexFrom(res, segs).value.PackageE?
    ensures IndexFrom(res, segs + [k]) == Err(NoSuchEntity)
    decreases |segs|
  {
    if |segs| == 0 {
      assert segs + [k] == [k];
    } else {
      var s := segs + [k];
      assert s[0] == segs[0] && s[1..] == segs[1..] + [k];
      var next := Step(res, segs[0], |segs| == 1).value;
      if |segs| == 1 {
        assert IndexFrom(next, []) == Ok(next);
        if Step(res, segs[0], false).Ok? {
          assert Step(res, segs[0], false).value == next;
          assert IndexFrom(next, [k]) == Err(NoSuchEntity);
          assert segs[1..] + [k] == [k];
        }
      } else {
        IndexFromNoDescent(next, segs[1..], k);
      }
    }
  }

  /** Looking up below an alias, a function, a variable or a class fails. */
  lemma IndexNoDescent(p: Package, key: string, k: string)
    requires '.' !in k
    requires Index(p, key).Ok? && !Index(p, key).value.PackageE?
    ensures Index(p, key + "." + k) == Err(NoSuchEntity)
  {
    var segs := Split(key, '.');
    SplitSnoc(key, k);
    assert (segs + [k])[0] == segs[0];
    assert (segs + [k])[1..] == segs[1..] + [k];
    IndexFromNoDescent(PackageE(p), segs[1..], k);
  }
}
