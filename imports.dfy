/** `_resolve_import_from`: turns the import statements collected for each
    module into aliases and one wildcard alias, keeps the first entity of each
    name, and lets a package take the entities of its `__init__` module. */
module Imports {
  import opened Wrappers
  import opened Text
  import opened Syntax
  import opened Entity
  import Resolve

  /** A package as extracted, before its imports are resolved: the entities
      taken from its source and, apart from them, its import statements in the
      order they were collected. */
  datatype Source = Source(
    name: string,
    ancestors: seq<string>,
    children: seq<Source>,
    entities: seq<Entity>,
    imports: seq<Stmt>)

  /** Why resolution raised: a relative import in a package without a parent
      (`None.full_name`), or an absolute `from` import without a module. */
  datatype ImportError = NoParent | NoModule

  /** The name an imported name is bound to: `asname`, else the name itself. */
  function BoundName(n: ImportName): string
  {
    if n.asname.Some? then n.asname.value else n.name
  }

  /** `full_module_name` for a `from` import made in a module whose enclosing
      packages are `ancestors`. */
  function ModuleOf(s: Stmt, ancestors: seq<string>): (r: Result<string, ImportError>)
    requires s.ImportFrom?
    ensures r == Err(NoModule) <==> s.level == 0 && s.fromModule.None?
    ensures r == Err(NoParent) <==> s.level > 0 && |ancestors| == 0
    ensures s.level == 1 && |ancestors| > 0 ==> r.Ok? && Join(ancestors, ".") <= r.value
  {
    if s.level == 0 then
      if s.fromModule.Some? then Ok(s.fromModule.value) else Err(NoModule)
    else if |ancestors| == 0 then Err(NoParent)
    else
      var parent := Join(ancestors, ".");
      if s.level == 1 then
        Ok(parent + (if s.fromModule.Some? then "." + s.fromModule.value else ""))
      else
        var segs := Split(parent, '.');
        var drop := s.level - 1;
        var kept := if drop >= |segs| then [] else segs[..|segs| - drop];
        Ok(Join(kept + (if s.fromModule.Some? then [s.fromModule.value] else []), "."))
  }

  /** What import statements contribute: aliases, and the targets of `*` imports. */
  datatype Contribution = Contribution(aliases: seq<Entity>, wildcards: seq<string>)

  /** The names of one `from` import of module `m`, name by name. */
  function FromNames(names: seq<ImportName>, m: string): Contribution
    decreases |names|
  {
    if |names| == 0 then Contribution([], [])
    else
      var n := |names| - 1;
      var c := FromNames(names[..n], m);
      var full := m + "." + names[n].name;
      if names[n].name == "*" then c.(wildcards := c.wildcards + [full])
      else c.(aliases := c.aliases + [AliasE(BoundName(names[n]), full)])
  }

  function StmtContribution(s: Stmt, ancestors: seq<string>): Result<Contribution, ImportError>
  {
    if s.Import? then
      Ok(Contribution(seq(|s.names|, i requires 0 <= i < |s.names| => AliasE(BoundName(s.names[i]), s.names[i].name)), []))
    else if s.ImportFrom? then
      match ModuleOf(s, ancestors)
      case Err(e) => Err(e)
      case Ok(m) => Ok(FromNames(s.names, m))
    else Ok(Contribution([], []))
  }

  /** The contributions of a module's import statements, statement by statement. */
  function Contributions(imports: seq<Stmt>, ancestors: seq<string>): Result<Contribution, ImportError>
    decreases |imports|
  {
    if |imports| == 0 then Ok(Contribution([], []))
    else
      var n := |imports| - 1;
      match Contributions(imports[..n], ancestors)
      case Err(e) => Err(e)
      case Ok(c) =>
        match StmtContribution(imports[n], ancestors)
        case Err(e) => Err(e)
        case Ok(d) => Ok(Contribution(c.aliases + d.aliases, c.wildcards + d.wildcards))
  }

  predicate HasName(es: seq<Entity>, name: string)
  {
    exists j :: 0 <= j < |es| && EntityName(es[j]) == name
  }

  /** Filling a dictionary keyed by name from `es`: the first entity of each name is kept. */
  function KeepFirst(es: seq<Entity>): seq<Entity>
    decreases |es|
  {
    if |es| == 0 then []
    else
      var n := |es| - 1;
      var kept := KeepFirst(es[..n]);
      if HasName(kept, EntityName(es[n])) then kept else kept + [es[n]]
  }

  /** The entities of a module: its own, then its aliases, then the wildcard
      alias when some `*` import was made; the first of each name wins. */
  function OwnEntities(src: Source): Result<seq<Entity>, ImportError>
  {
    match Contributions(src.imports, src.ancestors)
    case Err(e) => Err(e)
    case Ok(c) =>
      var wildcard := if |c.wildcards| > 0 then [WildcardE("*", c.wildcards)] else [];
      Ok(KeepFirst(src.entities + c.aliases + wildcard))
  }

  /** The package after resolution: children first, then its own entities,
      replaced by those of an `__init__` child when there is one (the child stays). */
  function ResolvedOf(src: Source): Result<Package, ImportError>
    decreases src, 1
  {
    match ResolvedChildren(src.children)
    case Err(e) => Err(e)
    case Ok(cs) =>
      match OwnEntities(src)
      case Err(e) => Err(e)
      case Ok(own) =>
        var init := FindFirst(cs, PackageName, "__init__");
        Ok(Package(src.name, src.ancestors, cs, if init.Some? then init.value.entities else own))
  }

  function ResolvedChildren(cs: seq<Source>): Result<seq<Package>, ImportError>
    decreases cs, 0
  {
    if |cs| == 0 then Ok([])
    else
      var n := |cs| - 1;
      match ResolvedChildren(cs[..n])
      case Err(e) => Err(e)
      case Ok(ps) =>
        match ResolvedOf(cs[n])
        case Err(e) => Err(e)
        case Ok(p) => Ok(ps + [p])
  }

  // ---------------------------------------------------------------------------
  // The procedure

  lemma {:induction false} ChildrenErrorPersists(cs: seq<Source>, k: nat)
    requires k <= |cs| && ResolvedChildren(cs[..k]).Err?
    ensures ResolvedChildren(cs) == ResolvedChildren(cs[..k])
    decreases |cs| - k
  {
    if k < |cs| {
      var n := |cs| - 1;
      assert cs[..n][..k] == cs[..k];
      ChildrenErrorPersists(cs[..n], k);
    } else {
      assert cs[..k] == cs;
    }
  }

  lemma {:induction false} ContributionsErrorPersists(imports: seq<Stmt>, ancestors: seq<string>, k: nat)
    requires k <= |imports| && Contributions(imports[..k], ancestors).Err?
    ensures Contributions(imports, ancestors) == Contributions(imports[..k], ancestors)
    decreases |imports| - k
  {
    if k < |imports| {
      var n := |imports| - 1;
      assert imports[..n][..k] == imports[..k];
      ContributionsErrorPersists(imports[..n], ancestors, k);
    } else {
      assert imports[..k] == imports;
    }
  }

  /** The aliases and wildcard targets of one import statement. */
  method StatementAliases(s: Stmt, ancestors: seq<string>) returns (r: Result<Contribution, ImportError>)
    ensures r == StmtContribution(s, ancestors)
  {
    var aliases: seq<Entity> := [];
    var wildcards: seq<string> := [];
    if s.Import? {
      for i := 0 to |s.names|
        invariant aliases == seq(i, j requires 0 <= j < i => AliasE(BoundName(s.names[j]), s.names[j].name))
      {
        var name := s.names[i];
        aliases := aliases + [AliasE(if name.asname.Some? then name.asname.value else name.name, name.name)];
      }
    } else if s.ImportFrom? {
      var full := ModuleOf(s, ancestors);
      if full.Err? {
        return Err(full.error);
      }
      var m := full.value;
      for i := 0 to |s.names|
        invariant FromNames(s.names[..i], m) == Contribution(aliases, wildcards)
      {
        assert s.names[..i + 1][..i] == s.names[..i];
        var name := s.names[i];
        var fullAlias := m + "." + name.name;
        if name.name == "*" {
          wildcards := wildcards + [fullAlias];
        } else {
          aliases := aliases + [AliasE(if name.asname.Some? then name.asname.value else name.name, fullAlias)];
        }
      }
      assert s.names[..|s.names|] == s.names;
    }
    r := Ok(Contribution(aliases, wildcards));
  }

  /** `package.entities[e.name] = e` unless the name is already present, for each `e` in turn. */
  method FillDictionary(es: seq<Entity>) returns (kept: seq<Entity>)
    ensures kept == KeepFirst(es)
  {
    kept := [];
    for i := 0 to |es|
      invariant kept == KeepFirst(es[..i])
    {
      assert es[..i + 1][..i] == es[..i];
      var present := false;
      for j := 0 to |kept|
        invariant present <==> exists l :: 0 <= l < j && EntityName(kept[l]) == EntityName(es[i])
      {
        if EntityName(kept[j]) == EntityName(es[i]) {
          present := true;
        }
      }
      if !present {
        kept := kept + [es[i]];
      }
    }
    assert es[..|es|] == es;
  }

  /** `for subpackage in package.children.values(): _resolve_import_from(subpackage)`. */
  method ResolveAll(cs: seq<Source>) returns (r: Result<seq<Package>, ImportError>)
    ensures r == ResolvedChildren(cs)
    decreases cs, 0
  {
    var children: seq<Package> := [];
    for i := 0 to |cs|
      invariant ResolvedChildren(cs[..i]) == Ok(children)
    {
      assert cs[..i + 1][..i] == cs[..i];
      var c := ResolveImportFrom(cs[i]);
      if c.Err? {
        ChildrenErrorPersists(cs, i + 1);
        return Err(c.error);
      }
      children := children + [c.value];
    }
    assert cs[..|cs|] == cs;
    r := Ok(children);
  }

  /** The loop over a module's import statements. */
  method CollectImports(imports: seq<Stmt>, ancestors: seq<string>) returns (r: Result<Contribution, ImportError>)
    ensures r == Contributions(imports, ancestors)
  {
    var aliases: seq<Entity> := [];
    var wildcards: seq<string> := [];
    for i := 0 to |imports|
      invariant Contributions(imports[..i], ancestors) == Ok(Contribution(aliases, wildcards))
    {
      assert imports[..i + 1][..i] == imports[..i];
      var d := StatementAliases(imports[i], ancestors);
      if d.Err? {
        ContributionsErrorPersists(imports, ancestors, i + 1);
        return Err(d.error);
      }
      aliases := aliases + d.value.aliases;
      wildcards := wildcards + d.value.wildcards;
    }
    assert imports[..|imports|] == imports;
    r := Ok(Contribution(aliases, wildcards));
  }

  /** The module's own entities: non-import entities, aliases, then the wildcard alias. */
  method Merge(src: Source) returns (r: Result<seq<Entity>, ImportError>)
    ensures r == OwnEntities(src)
  {
    var collected := CollectImports(src.imports, src.ancestors);
    if collected.Err? {
      return Err(collected.error);
    }
    var newEntities := src.entities + collected.value.aliases;
    if |collected.value.wildcards| > 0 {
      newEntities := newEntities + [WildcardE("*", collected.value.wildcards)];
    } else {
      assert newEntities == newEntities + [];
    }
    var entities := FillDictionary(newEntities);
    r := Ok(entities);
  }

  /** `_resolve_import_from`. */
  method ResolveImportFrom(src: Source) returns (r: Result<Package, ImportError>)
    ensures r == ResolvedOf(src)
    decreases src, 1
  {
    var children := ResolveAll(src.children);
    if children.Err? {
      return Err(children.error);
    }
    var own := Merge(src);
    if own.Err? {
      return Err(own.error);
    }
    var entities := own.value;
    var init := FindFirst(children.value, PackageName, "__init__");
    if init.Some? {
      entities := init.value.entities;
    }
    r := Ok(Package(src.name, src.ancestors, children.value, entities));
  }

  // ---------------------------------------------------------------------------
  // Properties

  /** Relative imports: level 1 appends the module to the parent's full name;
      a higher level first drops that many trailing names less one. */
  lemma {:induction false} RelativeImportBase(s: Stmt, ancestors: seq<string>)
    requires s.ImportFrom? && s.level >= 1 && |ancestors| > 0
    requires forall i :: 0 <= i < |ancestors| ==> '.' !in ancestors[i]
    ensures var named := if s.fromModule.Some? then [s.fromModule.value] else [];
      var drop := s.level - 1;
      var kept := if drop >= |ancestors| then [] else ancestors[..|ancestors| - drop];
      ModuleOf(s, ancestors) == Ok(
        if s.level == 1 then Join(ancestors + named, ".")
        else Join(kept + named, "."))
  {
    if s.level == 1 && s.fromModule.Some? {
      JoinSnoc(ancestors, s.fromModule.value, ".");
      assert Join(ancestors, ".") + ("." + s.fromModule.value) == Join(ancestors, ".") + "." + s.fromModule.value;
    } else if s.level == 1 {
      assert ancestors + [] == ancestors;
      assert Join(ancestors, ".") + "" == Join(ancestors, ".");
    } else {
      SplitJoin(ancestors, '.');
      assert Join(ancestors, ".") == Join(ancestors, ['.']);
    }
  }

  /** A `from` import of module `m`: each name other than `*` becomes an alias
      of `m.name` bound to its `as` name or itself. */
  lemma {:induction false} FromNamesAliases(names: seq<ImportName>, m: string)
    ensures forall a :: a in FromNames(names, m).aliases ==>
      exists i :: 0 <= i < |names| && names[i].name != "*"
        && a == AliasE(BoundName(names[i]), m + "." + names[i].name)
    ensures forall i :: 0 <= i < |names| && names[i].name != "*" ==>
      AliasE(BoundName(names[i]), m + "." + names[i].name) in FromNames(names, m).aliases
    decreases |names|
  {
    if |names| > 0 {
      var n := |names| - 1;
      FromNamesAliases(names[..n], m);
      var c := FromNames(names[..n], m);
      forall a | a in FromNames(names, m).aliases
        ensures exists i :: (0 <= i < |names| && names[i].name != "*"
          && a == AliasE(BoundName(names[i]), m + "." + names[i].name))
      {
        if a !in c.aliases {
          assert names[n].name != "*" && a == AliasE(BoundName(names[n]), m + "." + names[n].name);
        } else {
          var i :| 0 <= i < n && names[..n][i].name != "*"
            && a == AliasE(BoundName(names[..n][i]), m + "." + names[..n][i].name);
          assert names[i] == names[..n][i];
        }
      }
      forall i | 0 <= i < |names| && names[i].name != "*"
        ensures AliasE(BoundName(names[i]), m + "." + names[i].name) in FromNames(names, m).aliases
      {
        if i < n {
          assert names[..n][i] == names[i];
        }
      }
    }
  }

  /** A `from` import of module `m`: each `*` becomes the target `m.*`, and there
      is a target exactly when some name is `*`. */
  lemma {:induction false} FromNamesWildcards(names: seq<ImportName>, m: string)
    ensures forall t :: t in FromNames(names, m).wildcards ==> t == m + "." + "*"
    ensures |FromNames(names, m).wildcards| > 0 <==> exists i :: 0 <= i < |names| && names[i].name == "*"
    decreases |names|
  {
    if |names| > 0 {
      var n := |names| - 1;
      FromNamesWildcards(names[..n], m);
      if exists i :: 0 <= i < |names| && names[i].name == "*" {
        var i :| 0 <= i < |names| && names[i].name == "*";
        if i < n {
          assert names[..n][i] == names[i];
        }
      }
      if exists i :: 0 <= i < n && names[..n][i].name == "*" {
        var i :| 0 <= i < n && names[..n][i].name == "*";
        assert names[i] == names[..n][i];
      }
    }
  }

  /** Every wildcard target collected from import statements is a module followed by `.*`,
      and every other contribution is an alias. */
  lemma {:induction false} ContributionsShape(imports: seq<Stmt>, ancestors: seq<string>)
    ensures var r := Contributions(imports, ancestors);
      r.Ok? ==> ((forall t :: t in r.value.wildcards ==> EndsWith(t, ".*"))
                 && (forall a :: a in r.value.aliases ==> a.AliasE?))
    decreases |imports|
  {
    if |imports| > 0 {
      var n := |imports| - 1;
      ContributionsShape(imports[..n], ancestors);
      var s := imports[n];
      if s.ImportFrom? && ModuleOf(s, ancestors).Ok? {
        var m := ModuleOf(s, ancestors).value;
        FromNamesWildcards(s.names, m);
        FromNamesAliases(s.names, m);
        EndsWithConcat(m, ".", "*");
      }
    }
  }

  /** The two wildcard imports of a package's `__init__` module, `from .m import *`
      and `from q import *`, give one wildcard alias with targets in statement order. */
  lemma TwoWildcardImports(p: string, m: string, q: string)
    ensures var star := [ImportName("*", None)];
      var imports := [ImportFrom(Some(m), star, 1), ImportFrom(Some(q), star, 0)];
      Contributions(imports, [p]) == Ok(Contribution([], [p + "." + m + "." + "*", q + "." + "*"]))
  {
    var star := [ImportName("*", None)];
    var first := ImportFrom(Some(m), star, 1);
    var second := ImportFrom(Some(q), star, 0);
    var imports := [first, second];
    assert star[..0] == [];
    assert Join([p], ".") == p;
    assert p + ("." + m) == p + "." + m;
    assert ModuleOf(first, [p]) == Ok(p + "." + m);
    assert FromNames(star, p + "." + m) == Contribution([], [p + "." + m + "." + "*"]);
    assert FromNames(star, q) == Contribution([], [q + "." + "*"]);
    assert imports[..1] == [first] && [first][..0] == [];
    assert Contributions([], [p]) == Ok(Contribution([], []));
    var none: seq<Entity> := [];
    assert none + none == none;
    assert StmtContribution(first, [p]) == Ok(Contribution([], [p + "." + m + "." + "*"]));
    assert [] + [p + "." + m + "." + "*"] == [p + "." + m + "." + "*"];
    assert Contributions([first], [p]) == Ok(Contribution([], [p + "." + m + "." + "*"]));
    assert StmtContribution(second, [p]) == Ok(Contribution([], [q + "." + "*"]));
    assert [p + "." + m + "." + "*"] + [q + "." + "*"] == [p + "." + m + "." + "*", q + "." + "*"];
  }

  /** Filling the dictionary leaves one entity per name. */
  lemma {:induction false} KeepFirstUnique(es: seq<Entity>)
    ensures forall i, j :: 0 <= i < j < |KeepFirst(es)| ==> EntityName(KeepFirst(es)[i]) != EntityName(KeepFirst(es)[j])
    decreases |es|
  {
    if |es| > 0 {
      var n := |es| - 1;
      KeepFirstUnique(es[..n]);
      var kp := KeepFirst(es[..n]);
      if !HasName(kp, EntityName(es[n])) {
        var k := kp + [es[n]];
        forall i, j | 0 <= i < j < |k|
          ensures EntityName(k[i]) != EntityName(k[j])
        {
          if j == |kp| {
            assert k[i] == kp[i] && k[j] == es[n];
          } else {
            assert k[i] == kp[i] && k[j] == kp[j];
          }
        }
      }
    }
  }

  /** Every name of the input is in the dictionary, and only entities of the input are. */
  lemma {:induction false} KeepFirstComplete(es: seq<Entity>)
    ensures forall j :: 0 <= j < |es| ==> HasName(KeepFirst(es), EntityName(es[j]))
    ensures forall e :: e in KeepFirst(es) ==> e in es
    decreases |es|
  {
    if |es| > 0 {
      var n := |es| - 1;
      var pre := es[..n];
      KeepFirstComplete(pre);
      var kp := KeepFirst(pre);
      var k := KeepFirst(es);
      forall j | 0 <= j < |es|
        ensures HasName(k, EntityName(es[j]))
      {
        if j < n {
          assert HasName(kp, EntityName(pre[j]));
          var l :| 0 <= l < |kp| && EntityName(kp[l]) == EntityName(pre[j]);
          assert k[l] == kp[l];
        } else if !HasName(kp, EntityName(es[n])) {
          assert k[|kp|] == es[n];
        }
      }
    }
  }

  /** The entity kept under each name is the first of that name in the input:
      a module's own entity shadows an alias, and an earlier import a later one. */
  lemma {:induction false} KeepFirstChoosesFirst(es: seq<Entity>)
    ensures forall i :: 0 <= i < |KeepFirst(es)| ==> FindFirst(es, EntityName, EntityName(KeepFirst(es)[i])) == Some(KeepFirst(es)[i])
    decreases |es|
  {
    if |es| > 0 {
      var n := |es| - 1;
      var pre := es[..n];
      KeepFirstChoosesFirst(pre);
      KeepFirstComplete(pre);
      var kp := KeepFirst(pre);
      var k := KeepFirst(es);
      forall i | 0 <= i < |k|
        ensures FindFirst(es, EntityName, EntityName(k[i])) == Some(k[i])
      {
        var name := EntityName(k[i]);
        if i < |kp| {
          var l := IndexOfName(pre, EntityName, name);
          assert k[i] == kp[i] && EntityName(kp[i]) == name;
          assert FindFirst(pre, EntityName, name) == Some(kp[i]);
          assert l < n && pre[l] == kp[i];
          IndexOfNameIs(es, EntityName, name, l);
        } else {
          assert k[i] == es[n] && !HasName(kp, name);
          forall j | 0 <= j < n
            ensures EntityName(es[j]) != name
          {
            assert HasName(kp, EntityName(pre[j]));
          }
          IndexOfNameIs(es, EntityName, name, n);
        }
      }
    }
  }

  /** Entities already in the dictionary stay in place when more are added:
      a module's own entities precede the aliases of its imports. */
  lemma {:induction false} KeepFirstPrefix(a: seq<Entity>, b: seq<Entity>)
    ensures KeepFirst(a) <= KeepFirst(a + b)
    decreases |b|
  {
    if |b| == 0 {
      assert a + b == a;
    } else {
      var n := |b| - 1;
      KeepFirstPrefix(a, b[..n]);
      assert (a + b)[..|a + b| - 1] == a + b[..n];
    }
  }

  /** Resolution keeps the children, with their names and in their order, including an `__init__` child. */
  lemma {:induction false} ChildrenKept(cs: seq<Source>)
    ensures var r := ResolvedChildren(cs);
      r.Ok? ==> (|r.value| == |cs|
        && forall i :: 0 <= i < |cs| ==> r.value[i].name == cs[i].name && r.value[i].ancestors == cs[i].ancestors)
    decreases |cs|
  {
    if |cs| > 0 {
      var n := |cs| - 1;
      ChildrenKept(cs[..n]);
      var r := ResolvedChildren(cs);
      if r.Ok? {
        var ps := ResolvedChildren(cs[..n]).value;
        ResolvedOfKeepsName(cs[n]);
        assert r.value == ps + [ResolvedOf(cs[n]).value];
        forall i | 0 <= i < |cs|
          ensures r.value[i].name == cs[i].name && r.value[i].ancestors == cs[i].ancestors
        {
          if i < n {
            assert r.value[i] == ps[i] && cs[i] == cs[..n][i];
          }
        }
      }
    }
  }

  lemma ResolvedOfKeepsName(src: Source)
    ensures ResolvedOf(src).Ok? ==> ResolvedOf(src).value.name == src.name && ResolvedOf(src).value.ancestors == src.ancestors
  {
  }

  /** The extractor gives modules functions, variables and classes only. */
  predicate Extracted(src: Source)
    decreases src
  {
    (forall e :: e in src.entities ==> e.FunctionE? || e.VariableE? || e.ClassE?)
    && forall i :: 0 <= i < |src.children| ==> Extracted(src.children[i])
  }

  /** Not a package, and a wildcard whose targets all end with `.*`. */
  predicate Sound(e: Entity)
  {
    !e.PackageE? && (e.WildcardE? ==> forall t :: t in e.fullAliases ==> EndsWith(t, ".*"))
  }

  lemma OwnEntitiesSound(src: Source)
    requires forall e :: e in src.entities ==> e.FunctionE? || e.VariableE? || e.ClassE?
    ensures OwnEntities(src).Ok? ==> forall e :: e in OwnEntities(src).value ==> Sound(e)
  {
    var c := Contributions(src.imports, src.ancestors);
    if c.Ok? {
      ContributionsShape(src.imports, src.ancestors);
      var wildcard := if |c.value.wildcards| > 0 then [WildcardE("*", c.value.wildcards)] else [];
      KeepFirstComplete(src.entities + c.value.aliases + wildcard);
    }
  }

  /** Every entity stored in the resolved tree is sound. */
  lemma {:induction false} ResolvedSound(src: Source)
    requires Extracted(src)
    ensures ResolvedOf(src).Ok? ==> forall e :: e in Resolve.TreeEntities(ResolvedOf(src).value) ==> Sound(e)
    decreases src, 1
  {
    if ResolvedOf(src).Ok? {
      var p := ResolvedOf(src).value;
      ResolvedChildrenSound(src.children);
      OwnEntitiesSound(src);
      var init := FindFirst(p.children, PackageName, "__init__");
      if init.Some? {
        var j :| 0 <= j < |p.children| && p.children[j] == init.value;
        assert forall e :: e in init.value.entities ==> e in Resolve.TreeEntities(p.children[j]);
      }
      forall e | e in Resolve.TreeEntities(p)
        ensures Sound(e)
      {
        if !(exists i :: 0 <= i < |p.entities| && p.entities[i] == e) {
          var i :| 0 <= i < |p.children| && e in Resolve.TreeEntities(p.children[i]);
        }
      }
    }
  }

  lemma {:induction false} ResolvedChildrenSound(cs: seq<Source>)
    requires forall i :: 0 <= i < |cs| ==> Extracted(cs[i])
    ensures ResolvedChildren(cs).Ok? ==>
      forall i, e :: 0 <= i < |ResolvedChildren(cs).value| && e in Resolve.TreeEntities(ResolvedChildren(cs).value[i]) ==> Sound(e)
    decreases cs, 0
  {
    if |cs| > 0 && ResolvedChildren(cs).Ok? {
      var n := |cs| - 1;
      ResolvedChildrenSound(cs[..n]);
      ResolvedSound(cs[n]);
    }
  }

  /** What import resolution produces is what the alias resolver needs to terminate. */
  lemma ResolvedWellFormed(src: Source)
    requires Extracted(src)
    ensures ResolvedOf(src).Ok? ==> Resolve.WellFormed(ResolvedOf(src).value)
  {
    if ResolvedOf(src).Ok? {
      var p := ResolvedOf(src).value;
      ResolvedSound(src);
      forall t | t in Resolve.WildcardTargets(p)
        ensures EndsWith(t, ".*")
      {
        var e :| e in Resolve.TreeEntities(p) && e.WildcardE? && t in e.fullAliases;
        assert Sound(e);
      }
      forall e | e in Resolve.TreeEntities(p)
        ensures !e.PackageE?
      {
        assert Sound(e);
      }
    }
  }
}
