# Py4A API compatibility core, modelled in Dafny

Py4A checks whether the clients of a Python library still fit the library's
API. It extracts the API of each library version as a tree of entities
(packages, classes, functions, variables, aliases, wildcard aliases), diffs
two versions of that tree, collects from client code the access chains it
uses (`pd.read_csv(*,sep=*)`), and walks each chain through the entity tree
to decide whether it still matches.

This project models that core as Dafny datatypes, functions, methods with
loops and lemmas:

- **Entities** (`entity.dfy`, `resolve.dfy`). The entity kinds are a closed
  datatype. A package stores its ancestors' names instead of a parent
  pointer. The model covers:
  - the rendered signature of a function;
  - the class lookups;
  - `full_name`, `keys` and `modules`;
  - the dotted lookup `__getitem__` with its wildcard expansion, and `__contains__`;
  - the alias-following resolver `get`. It is proved to terminate by a
    measure over a finite universe of alias targets minus the visited list.
- **Static extraction** (`syntax.dfy`, `static.dfy`, `imports.dfy`). Parsed
  Python is a small statement and expression datatype, and `ast.unparse` is
  a small printer for the shapes the extractor reads. The model covers:
  - the argument, variable, field, function and class converters;
  - the module visitor as a class with an entity list;
  - `_resolve_import_from`, which turns import statements into aliases and
    one wildcard alias.
- **Diff engine** (`diff.dfy`). The model covers:
  - function, class and entity diffs, and whole-package diffs;
  - the breaking classification.

  Each diff is stated as a set of change records, because the source emits
  them in set iteration order.
- **Client analysis** (`calls.dfy`, `matching.dfy`, `chains.dfy`,
  `aliases.dfy`, `collect.dfy`, `checker.dfy`). The model covers:
  - the canonical call text and the chain parser `_from_str`;
  - the call text the visitor writes for a call expression;
  - `Call.match`, which binds a call shape to a parameter list;
  - `AccessChain.match`;
  - alias propagation, capped at five rounds;
  - the filtering and stable sort of `get_api_access_chains`;
  - `check` and `check_tree`.
- **Helpers** (`extractor.dfy`, `util.dfy`). The model covers:
  - the page count `_page_num`;
  - wheel selection by tag position `_select_wheel`;
  - the dependency-specifier classification `get_spec_type`. Its regular
    expressions are modelled by a small greedy matcher, which is proved equal
    to prefix matching on the patterns used.

`text.dfy` holds the string operations the source borrows from Python
(`split`, `join`, `str.replace("*", k)`, `sorted` on strings, `str(n)`), with
their round-trip lemmas. `wrappers.dfy` holds `Option` and `Result`.

## Model

| member | source | states |
|---|---|---|
| Entity.ArgumentItems | py4a/api/entity.py:84-94 | The item list the loop builds equals the reference `ArgItems`: each argument's text, with `/` inserted before the first argument that follows the positional-only run |
| Entity.Decorate | py4a/api/entity.py:96-97 | Prepending the decorators from last to first gives `@d ` for each decorator, in stored order, before `def` |
| Entity.Signature | py4a/api/entity.py:82-102 | The method's text equals `SignatureOf`, whose shape is stated by `SignatureShape` |
| Entity.ArgItemsSnoc | py4a/api/entity.py:87-94 | One more argument adds its own text, preceded by `/` exactly when it ends the positional-only run |
| Entity.ArgItemsAfterSlash | py4a/api/entity.py:87-94 | Past the `/`, each further argument adds only its own text |
| Entity.SlashAfterPositionalOnly | py4a/api/entity.py:84-94 | The `/` sits right after the positional-only arguments, and only when some argument follows them; an all-positional-only list has none |
| Entity.ArgTextShape | py4a/api/entity.py:87-94 | A `*args` argument is prefixed with `*`, a `**kwargs` argument with `**`, and a default adds ` = default` |
| Entity.DecoratorPrefixSnoc | py4a/api/entity.py:96-97 | One more decorator renders after the others, so the stored order reads left to right |
| Entity.SignatureShape | py4a/api/entity.py:95-102 | `async ` comes first, then the decorators, then `def name(args)`, then ` -> returns` last |
| Entity.IndexOfName | py4a/api/entity.py:168-190 | The index of the first element carrying the name, or the length when there is none |
| Entity.IndexOfNameIs | py4a/api/entity.py:168-190 | An index is the first with the name exactly when it carries the name and nothing before it does |
| Entity.FindFirst | py4a/api/entity.py:168-190 | The element found carries the name and no earlier one does; none is found only when no element carries it |
| Entity.Constructor | py4a/api/entity.py:149-153 | The first method named `__init__`, or none |
| Entity.GetField | py4a/api/entity.py:168-172 | The first field with the name, or none |
| Entity.GetStaticField | py4a/api/entity.py:174-178 | The first static field with the name, or none |
| Entity.GetMethod | py4a/api/entity.py:180-184 | The first method with the name, or none |
| Entity.GetClass | py4a/api/entity.py:186-190 | The first nested class with the name, or none |
| Entity.MembersName | py4a/api/entity.py:192-202 | The members before a position avoid the name exactly when no method, field or static field before it carries it |
| Entity.GetEntity | py4a/api/entity.py:192-202 | What is found is a method or a field, named by the last segment of the name |
| Entity.GetEntityUndotted | py4a/api/entity.py:193-196 | An undotted name is looked up among the methods, then the fields, then the static fields |
| Entity.GetEntityDotted | py4a/api/entity.py:197-202 | A dotted name is looked up in the first nested class named by its first segment, and fails without one |
| Entity.FullName | py4a/api/entity.py:246-260 | The loop's result equals the ancestors' names from the root down, then the package's own name, joined by `.` |
| Entity.ChildFullName | py4a/api/entity.py:246-260 | A child's full name is its parent's full name, a dot, and its own name |
| Entity.FullNameSegments | py4a/api/entity.py:246-260 | With no dot inside any name, splitting the full name gives back the ancestors and the name |
| Entity.EntityKeys | py4a/api/entity.py:364-379 | One key per entity of the package |
| Entity.Keys | py4a/api/entity.py:364-379 | The listing equals `KeysOf`: the package's own full name when not leaf-only, its entity keys, then each child's listing in child order |
| Entity.AppendEntityKeys | py4a/api/entity.py:375-376 | The first loop appends, in stored order, the full name, a dot and each entity name to what was there before |
| Entity.Modules | py4a/api/entity.py:381-390 | The listing equals `ModulesOf`: the package's full name, then each child's modules in order |
| Entity.KeysCount | py4a/api/entity.py:364-390 | The full listing has exactly one more entry per module than the leaf listing |
| Entity.KeysInside | py4a/api/entity.py:364-379 | Every leaf key starts with the package's full name and a dot |
| Entity.ExpandWildcard | py4a/api/entity.py:415-418 | Only a wildcard can answer a missing name, and it answers with a new wildcard holding as many targets; the stored one is a value and is left as it was |
| Entity.GetItem | py4a/api/entity.py:392-423 | The segment walk equals the reference `Index` on every key, including its `KeyError` cases |
| Entity.IndexRoot | py4a/api/entity.py:404-408 | A key resolves only if its first segment is the package's own name; the bare name gives the package itself |
| Entity.IndexOneSegment | py4a/api/entity.py:409-423 | A two-segment key takes one step from the package, as its last segment |
| Entity.IndexChildFirst | py4a/api/entity.py:411-414 | A child package shadows an entity of the same name |
| Entity.IndexWildcard | py4a/api/entity.py:415-418 | A name that is neither a child nor an entity is answered by the wildcard expanded for it, and only as the last segment |
| Entity.WildcardContainsAnything | py4a/api/entity.py:425-442 | With a wildcard import in a package, `__contains__` holds for every undotted name below it |
| Entity.IndexFromNoDescent | py4a/api/entity.py:409-422 | The walk never descends below an entity that is not a package, nor through an alias |
| Entity.IndexNoDescent | py4a/api/entity.py:419-423 | Looking up below an alias, a function, a variable or a class fails |
| Resolve.IndexFromResult | py4a/api/entity.py:392-423 | Whatever the dotted walk returns, other than a package, is stored in the tree or is a stored wildcard expanded for the last segment |
| Resolve.TargetsInUniverse | py4a/api/entity.py:287-304 | Every alias or wildcard target that a lookup inside the scope can return is in the finite universe the termination measure counts |
| Resolve.MeasureDecreases | py4a/api/entity.py:287-304 | Visiting a fresh member of the universe shrinks what is left of it, so the resolver terminates |
| Resolve.Resolve | py4a/api/entity.py:262-304 | `get`: a non-alias result is returned as `__getitem__` gives it; an alias is resolved through its targets; the result is never an alias |
| Resolve.TryTargets | py4a/api/entity.py:290-303 | The loop over one alias's targets never returns an alias, and fails only with the cyclic or the unresolved error |
| Resolve.Get | py4a/api/entity.py:262-304 | The recursive method equals `Resolve` |
| Resolve.TryAliases | py4a/api/entity.py:290-304 | The loop over the targets equals `TryTargets`: the first target that resolves wins, and a target already visited ends in the cyclic error |
| Resolve.FirstResolvingTargetWins | py4a/api/entity.py:290-303 | The result is the first listed target that resolves, provided no earlier target was already visited |
| Resolve.ResolvedIsStored | py4a/api/entity.py:262-304 | A resolved entity is a package, or something stored in a package of the scope |
| Resolve.ResolveOwnAlias | py4a/api/entity.py:290-303 | An alias with one target in the same package resolves as that target does, or not at all |
| Resolve.AliasPairWellFormed | py4a/api/entity.py:262-304 | A package holding two aliases that name each other meets the resolver's precondition |
| Resolve.CycleIsUnresolved | py4a/api/entity.py:295-303 | Two aliases that name each other: the inner call meets the cycle, the outer loop catches it, and the name is reported as unresolvable |
| Syntax.UnparseEach | py4a/api/static.py:244 | One text per expression, in order |
| Syntax.UnparseOpt | py4a/api/static.py:243 | None exactly when there is no annotation; otherwise its text |
| Syntax.ChildrenAllSize | py4a/api/static.py:284 | Each level of the walk is smaller than the one before, which is why the walk terminates |
| Syntax.PreorderLevels | py4a/api/static.py:284 | The pre-order of a level is the level itself plus the pre-order of the next level, up to order |
| Syntax.WalkIsPermutation | py4a/api/static.py:284-286 | `ast.walk` meets every nested statement exactly as often as the pre-order does |
| Syntax.WalkReachesNested | py4a/api/static.py:284-286 | `ast.walk(node)` yields the node first and reaches every statement nested in it |
| Syntax.ImportsOf | py4a/api/static.py:317-319 | Exactly the import statements the walk of the module meets, which are exactly the imports nested anywhere in its body; their order is the walk's (`FilterAppend`) |
| Syntax.Filter | py4a/api/static.py:317-319 | A statement is kept iff it is an import statement of the input, and the result is no longer than the input |
| Syntax.FilterAppend | py4a/api/static.py:317-319 | Filtering keeps order: the imports of a concatenation are those of the first part followed by those of the second |
| Syntax.FilterKeepsImports | py4a/api/static.py:317-319 | A run made of imports only is kept whole and in order |
| Static.ConvertArguments | py4a/api/static.py:167-214 | The loops build exactly `ArgumentsOf`, whose layout `ArgumentsLayout` states |
| Static.ConvertPositional | py4a/api/static.py:174-187 | The loop over positional-only and standard parameters yields exactly the positional part of `ArgumentsOf` |
| Static.ConvertKeywordOnly | py4a/api/static.py:198-203 | The loop over keyword-only parameters appends exactly the keyword-only part of `ArgumentsOf`, defaults taken from `kw_defaults` |
| Static.ArgumentsLayout | py4a/api/static.py:167-214 | Positional-only and standard parameters come first, then `*vararg`, keyword-only and `**kwarg`. The defaults align to the last positional parameters, and `kw_defaults` stay parallel. The positional-only flag holds exactly on the first run. Each parameter has at most one flag, and the variadic ones have no default |
| Static.ConvertedSlash | py4a/api/static.py:167-214 | In the rendered signature, `/` follows the positional-only parameters exactly when some parameter follows them |
| Static.ConvertFunction | py4a/api/static.py:239-246 | Name, converted parameters, return annotation, decorators in order, and the `async` flag |
| Static.ConvertElements | py4a/api/static.py:227-234 | The element loop equals `ElementsOf`, described by `UnpackingByPosition` |
| Static.ConvertTargets | py4a/api/static.py:217-236 | The target loop equals the reference `TargetsVariables`, including its index error |
| Static.ConvertVariables | py4a/api/static.py:217-236 | One variable per name target, none for an absent value, none for attribute targets |
| Static.ConvertClassFields | py4a/api/static.py:249-272 | One field per `self.attr` target; other targets give nothing |
| Static.ChainedAssignment | py4a/api/static.py:224-226 | `a = b = c` gives every name target the whole value, in target order |
| Static.Positions | py4a/api/static.py:227-234 | The positions of the tuple elements that bind a name, in order |
| Static.UnpackingByPosition | py4a/api/static.py:227-234 | The k-th variable comes from the k-th binding element and takes the right-hand element at that element's own position, or `value[i]` for a non-literal; elements that bind nothing do not shift the rest. It fails exactly when a literal right side is too short |
| Static.UnpackNonLiteral | py4a/api/static.py:232-233 | `a, b = c` gives `c[0]` and `c[1]` |
| Static.CollectFields | py4a/api/static.py:283-286 | The fields found by walking an `__init__` method, in walk order |
| Static.ConvertClass | py4a/api/static.py:275-299 | The class equals `ClassOf`: methods, instance fields, static fields and nested classes as `MembersOf` collects them, with bases and decorators in order |
| Static.MethodDefs | py4a/api/static.py:280-282 | Every method is a function definition of the body |
| Static.ClassDefs | py4a/api/static.py:289-290 | Every nested class is a class definition of the body |
| Static.MethodsAndClassesInOrder | py4a/api/static.py:275-299 | Methods are exactly the body's function definitions in order, nested classes its class definitions in order, and static fields come from direct assignments |
| Static.FieldsFromInit | py4a/api/static.py:283-286 | Every instance field comes from a `self.attr` assignment somewhere inside an `__init__` |
| Static.FieldFromNode | py4a/api/static.py:284-286 | Every field collected from a run of nodes comes from one of its assignments |
| Static.FieldsReachNested | py4a/api/static.py:284-286 | The field walk reaches every assignment in the method, however deeply nested |
| Static.SourceVisitor.constructor | py4a/api/static.py:147-148 | A new visitor starts with no entities |
| Static.SourceVisitor.Visit | py4a/api/static.py:150-164 | Visiting one statement appends exactly its entities: one function, one class, or the assigned variables; other statements are walked into |
| Static.SourceVisitor.VisitAssignment | py4a/api/static.py:158-164 | An assignment appends its variables, or reports the index error |
| Static.SourceVisitor.VisitAll | py4a/api/static.py:146-164 | Visiting the statements in order appends `EntitiesOf` of them |
| Static.GetApiEntities | py4a/api/static.py:32-43 | The module's entities, in source order, or the extraction error |
| Static.OneEntityPerDeclaration | py4a/api/static.py:146-164 | A module made of declarations yields one entity per declaration, named after it and in source order; nothing comes from inside a function or class body |
| Static.AsyncDefNotExtracted | py4a/api/static.py:146-164 | As written, a module-level `async def` yields no function, and an assignment in its body becomes a module variable |
| Static.CorrectedExtractsAsync | py4a/api/static.py:150-152 | With a handler for `async def`, it is extracted as one function whose signature starts with `async ` |
| Static.CorrectedAgrees | py4a/api/static.py:146-164 | The correction changes nothing for a module without `async def` |
| Imports.StatementAliases | py4a/api/static.py:415-441 | The aliases and wildcard targets of one import statement, as `Contributions` defines them |
| Imports.FillDictionary | py4a/api/static.py:444-447 | The loop equals `KeepFirst`: an entity is stored unless its name is already present |
| Imports.ResolveAll | py4a/api/static.py:409-410 | Every child is resolved, in order |
| Imports.CollectImports | py4a/api/static.py:415-441 | The loop over the statements gives their aliases in order and all wildcard targets in statement order |
| Imports.Merge | py4a/api/static.py:411-447 | Non-import entities, then aliases, then the wildcard alias only when it has targets, with the first of each name kept |
| Imports.ResolveImportFrom | py4a/api/static.py:407-449 | The method equals the reference `ResolveImports`, which ends by taking the `__init__` child's entities when one exists |
| Imports.ModuleOf | py4a/api/static.py:422-433 | `full_module_name`: fails for an absolute import without a module, or for a relative import from a package without a parent, and in no other case; a level-1 import extends the parent's full name. `RelativeImportBase` gives every level |
| Imports.RelativeImportBase | py4a/api/static.py:421-433 | Level 0 uses the module as written. Level 1 appends the module to the parent's full name. A higher level first drops that many trailing names, less one |
| Imports.FromNamesAliases | py4a/api/static.py:434-441 | Each imported name other than `*` becomes an alias of `m.name`, bound to its `as` name or to itself |
| Imports.FromNamesWildcards | py4a/api/static.py:434-438 | Each `*` becomes the target `m.*`, and there is a target exactly when some name is `*` |
| Imports.ContributionsShape | py4a/api/static.py:415-443 | Every wildcard target is a module followed by `.*`, and every other contribution is an alias |
| Imports.TwoWildcardImports | tests/api/test_static_package.py:43 | `from .lib3 import *` and `from sys import *` give one wildcard alias with targets `simple.lib3.*` and `sys.*`, in statement order |
| Imports.KeepFirstUnique | py4a/api/static.py:444-447 | The dictionary holds one entity per name |
| Imports.KeepFirstComplete | py4a/api/static.py:444-447 | Every name of the input is in the dictionary, and only entities of the input are |
| Imports.KeepFirstChoosesFirst | py4a/api/static.py:444-447 | The entity kept under each name is its first occurrence, so a module's own entity shadows an alias |
| Imports.KeepFirstPrefix | py4a/api/static.py:444-447 | Entities already stored stay in place when more are added |
| Imports.ChildrenKept | py4a/api/static.py:409-410 | Resolution keeps the children, with their names and order, including an `__init__` child |
| Imports.ResolvedSound | py4a/api/static.py:407-449 | Every entity stored in the resolved tree is well formed: no import left, and wildcard targets end in `.*` |
| Imports.ResolvedWellFormed | py4a/api/static.py:407-449 | What import resolution produces meets the alias resolver's precondition |
| ApiDiff.IsBreaking | py4a/api/diff.py:78-92 | `Diff.is_breaking`: a change is not breaking exactly when it is a class, function or variable addition |
| ApiDiff.SameDefaultValue | py4a/api/diff.py:130-138 | `same_default_value`: equal texts are always the same default; two defaults judged the same are both object representations starting with `<` or have the same text before the first `(`. `SameDefaultValueEquivalence`, `SameCallee` and `LiteralDefaults` state the rest |
| ApiDiff.SameDefaultValueEquivalence | py4a/api/diff.py:130-138 | The default comparison is reflexive and symmetric |
| ApiDiff.SameCallee | py4a/api/diff.py:134-136 | Two calls of one callee are the same default, whatever their arguments |
| ApiDiff.LiteralDefaults | py4a/api/diff.py:130-138 | Plain literals are the same default only when equal |
| ApiDiff.TableNames | py4a/api/diff.py:145-155 | A name is in the tables exactly when some parameter has it, and is optional exactly when some parameter of that name has a default |
| ApiDiff.TablePosition | py4a/api/diff.py:145-155 | A name's recorded position is that of the last parameter with the name |
| ApiDiff.TableDefault | py4a/api/diff.py:145-155 | A recorded default is that of the last parameter with the name that has one |
| ApiDiff.TableOfDistinct | py4a/api/diff.py:145-155 | With distinct names, every parameter's own position and default are recorded |
| ApiDiff.Tabulate | py4a/api/diff.py:145-155 | The loop fills the tables as `TableOf` describes |
| ApiDiff.TableDiffsCount | py4a/api/diff.py:157-199 | Added, removed and changed parameters never share a change, so the diff's size is the sum of theirs |
| ApiDiff.ParamKinds | py4a/api/diff.py:157-199 | Added parameters are reported only as additions, removed ones only as removals, and common ones only as default or position changes |
| ApiDiff.DiffFunction | py4a/api/diff.py:141-201 | The changes equal `FunctionDiffs`: added, removed and common-parameter changes |
| ApiDiff.AddParams | py4a/api/diff.py:157-161 | One change per parameter only in the new version |
| ApiDiff.RemoveParams | py4a/api/diff.py:163-167 | One change per parameter only in the old version |
| ApiDiff.ParamStep | py4a/api/diff.py:169-199 | One common parameter's default and position changes |
| ApiDiff.ChangeParams | py4a/api/diff.py:169-199 | The changes of every common parameter, and no others |
| ApiDiff.IdenticalFunctionsNoDiff | py4a/api/diff.py:141-201 | A function compared with itself has no changes |
| ApiDiff.AddedParameter | py4a/api/diff.py:157-161 | A parameter only in the new version is reported once, as optional exactly when it has a default there |
| ApiDiff.RemovedParameter | py4a/api/diff.py:163-167 | A parameter only in the old version is reported once, as optional exactly when it had one |
| ApiDiff.CommonParameterDefaults | py4a/api/diff.py:170-191 | A default that disappeared is reported as `ParamDefValAdd` with the old value, one that appeared as `ParamDefValRem` with the new value, and two defaults the comparison rejects as `ParamDefValChg` |
| ApiDiff.DefaultChanges | py4a/api/diff.py:170-191 | Each of the three default-value changes is reported for a common parameter exactly in its own case: a default only in the old version, only in the new one, or in both and judged different |
| ApiDiff.CommonParameterPosition | py4a/api/diff.py:192-199 | A common parameter is reported as reordered exactly when its position changed |
| ApiDiff.ChangesOfCommon | py4a/api/diff.py:169-199 | The changes reported under a common parameter's name are exactly its own |
| ApiDiff.FunctionDiffsShape | py4a/api/diff.py:141-201 | Every change of a function diff is a parameter change of that function |
| ApiDiff.MethodMapMeaning | py4a/api/diff.py:211-214 | The method table holds exactly the class's method names, each with the last method of that name, as a dict comprehension keeps |
| ApiDiff.ReportNames | py4a/api/diff.py:215-222 | One change per name, qualified by the class's full name |
| ApiDiff.ReportMethods | py4a/api/diff.py:223-228 | The parameter changes of every method present in both versions |
| ApiDiff.ClassDiffsCount | py4a/api/diff.py:204-229 | The five parts of a class diff never share a change |
| ApiDiff.DiffClass | py4a/api/diff.py:204-229 | The changes equal `ClassDiffs`: variable and method additions and removals, then the diffs of common methods |
| ApiDiff.IdenticalClassesNoDiff | py4a/api/diff.py:204-229 | A class compared with itself has no changes |
| ApiDiff.MethodChangesShape | py4a/api/diff.py:215-228 | A change concerning a whole member is not a method's parameter change |
| ApiDiff.VariableChanges | py4a/api/diff.py:207-218 | A variable is reported added or removed exactly when it is a field or static field named in one version only |
| ApiDiff.MethodAddRemove | py4a/api/diff.py:211-222 | A method is reported added or removed exactly when it is named in one version only |
| ApiDiff.DiffEntity | py4a/api/diff.py:232-281 | The changes, or the `ValueError`, equal `EntityDiffs` |
| ApiDiff.EntityDiffErrors | py4a/api/diff.py:232-281 | It raises exactly when neither side is an alias and there is nothing to compare, a package is compared with nothing, or the kinds differ |
| ApiDiff.AppearanceBreaking | py4a/api/diff.py:254-273 | An entity that appeared is reported once, as a non-breaking addition; one that disappeared once, as a breaking removal |
| ApiDiff.IdenticalEntitiesNoDiff | py4a/api/diff.py:232-281 | Two equal entities have no changes, whatever their kind |
| ApiDiff.DiffKey | py4a/api/diff.py:308-327 | One key's changes; a `KeyError` or `ValueError` is skipped |
| ApiDiff.DiffKeyList | py4a/api/diff.py:296-307 | The changes of every key of a list |
| ApiDiff.DiffKeySet | py4a/api/diff.py:308-327 | The changes of every key of a set |
| ApiDiff.ModuleGone | py4a/api/diff.py:296-301 | A module only in the old version: each of its keys against nothing |
| ApiDiff.ModuleNew | py4a/api/diff.py:302-307 | A module only in the new version: each of its keys against nothing |
| ApiDiff.ModuleBoth | py4a/api/diff.py:308-327 | A module in both: keys only in the old one, keys only in the new one, then the common keys |
| ApiDiff.GoneModules | py4a/api/diff.py:296-301 | The changes of every module only in the old version |
| ApiDiff.NewModules | py4a/api/diff.py:302-307 | The changes of every module only in the new version |
| ApiDiff.CommonModules | py4a/api/diff.py:308-327 | The changes of every module in both versions |
| ApiDiff.DiffPkg | py4a/api/diff.py:284-329 | The changes equal `PkgDiffs`, module by module |
| ApiDiff.PkgDiffsByModule | py4a/api/diff.py:284-329 | A change belongs to the package diff exactly when it belongs to the diff of some module |
| ApiDiff.RemovedKeyReported | py4a/api/diff.py:296-327 | An entity whose key disappeared is reported as a breaking removal under its key |
| ApiDiff.AddedKeyReported | py4a/api/diff.py:302-327 | An entity whose key appeared is reported as a non-breaking addition under its key |
| ApiDiff.IdenticalPackagesNoDiff | py4a/api/diff.py:284-329 | A version compared with itself has no changes |
| Calls.Repeat | py4a/client/analyzer.py:55 | `n` copies of an item |
| Calls.KeywordItems | py4a/client/analyzer.py:58 | `k=*` for each keyword, in order |
| Calls.PlainCount | py4a/client/analyzer.py:458 | The number of arguments that are not starred |
| Calls.Named | py4a/client/analyzer.py:461 | The names of the named keyword arguments, in order |
| Calls.KeywordNames | py4a/client/analyzer.py:461 | The set of those names |
| Calls.ParseItem | py4a/client/analyzer.py:244-260 | An item fails exactly when it ends in `)` but holds no `(`; an attribute keeps the item's whole text |
| Calls.FromText | py4a/client/analyzer.py:241-261 | A parsed chain has one item per `.`-separated piece, and carries the given line numbers |
| Calls.ParseItems | py4a/client/analyzer.py:243-260 | A parsed list has one item per piece |
| Calls.ParseChain | py4a/client/analyzer.py:241-261 | The nested loops equal `FromText` |
| Calls.ParseItemsErrStays | py4a/client/analyzer.py:243-260 | Once one item fails, the whole chain fails |
| Calls.TallyStars | py4a/client/analyzer.py:256-257 | Each `*` counts one positional argument |
| Calls.TallyKeywords | py4a/client/analyzer.py:250-251 | Each `k=*` names the keyword `k` |
| Calls.ParseCallText | py4a/client/analyzer.py:244-258 | A call item is read as a call over the comma-separated pieces of its argument text |
| Calls.TallyOfJoined | py4a/client/analyzer.py:247-257 | Splitting joined pieces gives back pieces that count the same |
| Calls.ParseCallItem | py4a/client/analyzer.py:244-258 | A call item with a plain name and pieces free of `(` and `,` parses to a call counted piece by piece |
| Calls.PlainIsAttr | py4a/client/analyzer.py:259-260 | A name free of the separators and argument markers is read as an attribute with that name |
| Calls.CallTextRoundTrip | py4a/client/analyzer.py:54-61 | The item parser applied to `str(call)` on its own restores the name, the keywords and the `**` flag; it reads `...` as one more positional argument, not as the starred flag |
| Calls.StarredCallTextUnreadable | py4a/client/analyzer.py:241-245 | `_from_str` fails with `IndexError` on the text of a starred call, alone or standing whole anywhere in a dotted text: the split on `.` cuts its `...` marker, leaving a piece that ends in `)` with no `(` |
| Calls.TallyPieces | py4a/client/analyzer.py:247-257 | How `*` pieces, other pieces, `k=*` pieces and an optional `**` count |
| Calls.MarkerTally | py4a/client/analyzer.py:252-257 | A `...` marker counts as a positional argument; `^^^` sets the starred flag |
| Calls.SortedKeywords | py4a/client/analyzer.py:58 | The sorted keywords are exactly the keywords |
| Calls.CallTally | py4a/client/analyzer.py:54-61 | How the pieces of `str(call)` count |
| Calls.CallExprRoundTrip | py4a/client/analyzer.py:457-464 | Reading back the visitor's text for a call of a plain name counts the plain arguments, collects the named keywords, and sets each spread flag exactly when the call spreads |
| Calls.CallExprTally | py4a/client/analyzer.py:457-464 | How the pieces the visitor writes count |
| Calls.ChainExprRoundTrip | py4a/client/analyzer.py:445-464 | Reading back the text the visitor records for a dotted expression gives exactly the chain the expression stands for |
| Calls.CallOnAttribute | py4a/client/analyzer.py:454-464 | A call on an attribute extends the chain of the attribute's object |
| Calls.CallOnName | py4a/client/analyzer.py:450-464 | A call of a bare name is a chain of one call |
| Calls.CallItemText | py4a/client/analyzer.py:457-464 | The text recorded for a call of an identifier is one dot-free chain item |
| Matching.SlotsMeaning | py4a/client/analyzer.py:79-92 | A name is a positional slot, a keyword slot or positional-only exactly when some parameter of that kind carries it |
| Matching.PositionalSlotsCount | py4a/client/analyzer.py:79-92 | Positional slots follow the parameter order, one per parameter passable by position |
| Matching.Bound | py4a/client/analyzer.py:99-100 | Exactly the first positional slots, as many as positional values are given |
| Matching.MatchCall | py4a/client/analyzer.py:66-121 | The call is accepted exactly when it fits the parameter list, and every refusal names a reason that holds |
| Matching.ReadSlots | py4a/client/analyzer.py:79-92 | The first loop reads the slots as `SlotsOf` describes |
| Matching.CheckKeywords | py4a/client/analyzer.py:102-107 | Every keyword must name a parameter that is neither positional-only nor filled positionally, unless the function takes `**kwargs` |
| Matching.KeywordLoop | py4a/client/analyzer.py:102-107 | The loop stops at the first keyword that is positional-only, or that names no unfilled keyword parameter when there is no `**kwargs`. With no such keyword, every keyword joins the filled names |
| Matching.FindMissing | py4a/client/analyzer.py:109-119 | The first required parameter left unfilled and not excused by a spread |
| Matching.ClassFuncIsOneMorePositional | py4a/client/analyzer.py:94-100 | A method called on an object matches as the plain function does with one more positional value |
| Matching.PositionOnlyKeywordRefused | py4a/client/analyzer.py:102-105 | A keyword naming a positional-only parameter is always refused |
| Matching.TooManyPositionalRefused | py4a/client/analyzer.py:94-98 | More positional values than positional parameters, without `*args`, are refused |
| Matching.FullPositionalCallAccepted | py4a/client/analyzer.py:66-121 | One positional value per positional parameter and nothing else is accepted when every keyword-only parameter has a default |
| Matching.SpreadCallAccepted | py4a/client/analyzer.py:109-121 | A call spreading both `*` and `**` and naming nothing fits any function |
| Matching.SpreadExcusesMissing | py4a/client/analyzer.py:109-119 | A `*` spread excuses every missing parameter except keyword-only ones; a `**` spread every one except positional-only ones |
| Matching.SpreadingKeepsAcceptance | py4a/client/analyzer.py:109-121 | Spreading more never turns an accepted call into a refused one |
| Matching.NoParameterExamples | tests/client/test_analyzer.py:83-112 | The verdicts of `f()`, `f(*)`, `f(a=*)`, `f(**)` and `f(^^^)` against `def f()` and `def f(**kwargs)` |
| Matching.ThreeRequiredPositional | tests/client/test_analyzer.py:114-135 | `f(*)` is refused and `f(*,*,*)` accepted against `def f(a, b, c, d=3, e=4, f=6)` |
| Matching.ThreeRequiredAllPositional | tests/client/test_analyzer.py:114-135 | Six positional values fit; seven are one too many |
| Matching.ThreeRequiredSpread | tests/client/test_analyzer.py:114-135 | `f(*,^^^)` and `f(**)` are accepted |
| Matching.ThreeRequiredKeywords | tests/client/test_analyzer.py:114-135 | `f(*,*,a=*,**)` is refused, `f(k=*)` refused, `f(a=*,b=*,c=*)` accepted |
| Matching.EveryKindExamples | tests/client/test_analyzer.py:137-148 | The verdicts against a signature with every kind of parameter |
| Matching.EveryKindSpread | tests/client/test_analyzer.py:137-148 | `f(*,*,^^^,e=*)` fits the signature with every kind of parameter |
| Chains.Names | py4a/client/analyzer.py:138-143 | The names of the items, the callee's for a call |
| Chains.Texts | py4a/client/analyzer.py:138-143 | The texts of the items, the canonical text for a call |
| Chains.StarredChainUnreadable | py4a/client/analyzer.py:152-154 | The `chain_str` of any chain holding a starred call does not read back with `_from_str`, which fails with `IndexError` |
| Chains.Lookup | py4a/client/analyzer.py:170-176 | The lookup fails exactly when `__getitem__` fails, and a result that is not an alias is what `get` returns |
| Chains.ChainMatch | py4a/client/analyzer.py:156-158 | A chain whose top level is not an API is reported missing under that name |
| Chains.WalkOutcomes | py4a/client/analyzer.py:156-237 | The walk ends in a match on a prefix (one item longer for a method called on a class), an unresolvable prefix, a refused call, or a call on a package |
| Chains.CallOutcomeFacts | py4a/client/analyzer.py:178-224 | A call ends in a match on this prefix or, for a method called on a class, the next; or in a refusal of this call or the next |
| Chains.MatchChain | py4a/client/analyzer.py:156-237 | The loop equals `ChainMatch` |
| Chains.LookupKey | py4a/client/analyzer.py:170-176 | The `try`/`except KeyError` around `get` and `[]` equals `Lookup` |
| Chains.CallStep | py4a/client/analyzer.py:178-230 | The call branch: a function checked directly, a class through its constructor or the next method called, a package refused |
| Chains.PackagesAreTransparent | py4a/client/analyzer.py:226-237 | Attributes reaching packages decide nothing: the verdict is decided at the first call or non-package |
| Chains.StopsAtNonPackage | py4a/client/analyzer.py:231-237 | After a run of packages, an attribute reaching anything else is a match there |
| Chains.StopsAtCall | py4a/client/analyzer.py:178-230 | After a run of packages, a call is decided at its own position |
| Aliases.Add | py4a/client/analyzer.py:482 | `update` on a `defaultdict(set)`: the key is present with at least the given lines, and it is the only key added |
| Aliases.AddLeavesOthers | py4a/client/analyzer.py:482 | Adding to one key leaves every other key's lines as they were |
| Aliases.AddKeepsValid | py4a/client/analyzer.py:482 | Adding keeps every key listed once, and only grows the table |
| Aliases.AddAliasesKeepsValid | py4a/client/analyzer.py:480-488 | The alias loop keeps every key listed once, and only grows the table |
| Aliases.AddAliasesEffect | py4a/client/analyzer.py:480-488 | Each alias that does not occur in the call is recorded with the call's lines; nothing else is added |
| Aliases.LinesOf | py4a/client/analyzer.py:470 | A call that has not been seen has no lines |
| Aliases.ParenthesisedHead | py4a/client/analyzer.py:483-486 | A first item ending in `)` whose text before `(` is an alias holds a `(`, so the second piece exists |
| Aliases.AliasedCallRecorded | py4a/client/analyzer.py:479-488 | A call whose first item is an alias is recorded again, with its lines, under every alias it does not already contain |
| Aliases.ProcessCallKeepsValid | py4a/client/analyzer.py:477-490 | Processing a call keeps every key listed once, and only grows the table |
| Aliases.ProcessCallPropagates | py4a/client/analyzer.py:479-488 | Processing a call records it, with its current lines, under the key it propagates to for an alias name: the name plus the rest of the chain, or for a first item `f(...)` the name, the argument text and the rest |
| Aliases.UnaliasedCallUnchanged | py4a/client/analyzer.py:489-490 | A call that involves no alias is left as it is |
| Aliases.RoundKeepsValid | py4a/client/analyzer.py:476-490 | A round keeps every key listed once, and only grows the table |
| Aliases.NextRoundKeepsValid | py4a/client/analyzer.py:476-490 | A round only adds keys and lines |
| Aliases.PassesKeepValid | py4a/client/analyzer.py:472-490 | Up to five passes of such a round keep the table valid and only grow it |
| Aliases.RoundPropagates | py4a/client/analyzer.py:476-490 | A round over keys that include a call records it under each key it propagates to, with at least the lines it had when the round began |
| Aliases.PassesGrow | py4a/client/analyzer.py:472-490 | A later pass's table holds every key and line of an earlier pass's table, and extends its key order |
| Aliases.StepGrows | py4a/client/analyzer.py:473-476 | One pass of the outer loop only grows the table |
| Aliases.ResultPropagates | py4a/client/analyzer.py:467-491 | The result holds every key a given call propagates to, with at least that call's given lines |
| Aliases.AliasesPropagated | py4a/client/analyzer.py:479-482 | A given call whose first item is an alias is, in the result, also recorded under each name the alias stands for that it does not contain, followed by the rest of the chain, with at least the call's given lines |
| Aliases.ParenthesisedAliasesPropagated | py4a/client/analyzer.py:483-488 | A given call whose first item is `f(...)` for an alias `f` is, in the result, also recorded under each name `f` stands for that it does not contain, followed by `(`, the argument text and the rest of the chain, with at least the call's given lines |
| Aliases.OnlyAdds | py4a/client/analyzer.py:467-491 | The result never removes a call or a line, and keeps the given calls first, in their order |
| Aliases.SettledStaysSettled | py4a/client/analyzer.py:473-474 | Once a round adds no key, later passes change nothing |
| Aliases.FirstPassRuns | py4a/client/analyzer.py:471-475 | The first pass always runs a round |
| Aliases.ResolveAliases | py4a/client/analyzer.py:467-491 | The nested loops equal `ResolvedAliases`, at most five rounds, stopping once the key count is unchanged |
| Aliases.PassRunsRound | py4a/client/analyzer.py:473-476 | A pass that finds a new key count runs a round |
| Aliases.LoopExit | py4a/client/analyzer.py:472-474 | Leaving the loop by the count or by `break` gives the result |
| Aliases.RunRound | py4a/client/analyzer.py:476-490 | One round over a snapshot of the keys |
| Aliases.ProcessOne | py4a/client/analyzer.py:477-490 | The body of the inner loop for one call |
| Aliases.AddEach | py4a/client/analyzer.py:480-488 | Records the call under each alias it does not contain |
| Collect.Accept | py4a/client/analyzer.py:315-329 | A call is kept exactly when it starts with an import, passes the filter, parses, and names only identifiers as attributes |
| Collect.Collected | py4a/client/analyzer.py:315-329 | At most one chain per call |
| Collect.CollectedMembers | py4a/client/analyzer.py:315-329 | A chain is collected exactly when some call is kept as it |
| Collect.CollectedChainsAreWellFormed | py4a/client/analyzer.py:315-329 | Every collected chain has a first item and only identifier attributes |
| Collect.SortedNats | py4a/client/analyzer.py:142 | The line numbers, each once, in increasing order |
| Collect.NatStrings | py4a/client/analyzer.py:142 | The decimal text of each number, in order |
| Collect.Insert | py4a/client/analyzer.py:331 | Inserting keeps the list sorted by key and adds exactly the one element |
| Collect.SortBy | py4a/client/analyzer.py:331 | The result is sorted by key and is a permutation of the input |
| Collect.ApiAccessChainsMeaning | py4a/client/analyzer.py:295-331 | The result is sorted by text and holds exactly the chains of the resolved calls that are kept |
| Collect.GetApiAccessChains | py4a/client/analyzer.py:295-331 | The resolution, the loop and the sort together equal `ApiAccessChains` |
| Collect.CollectCalls | py4a/client/analyzer.py:315-330 | The loop over the resolved calls, in recorded order, equals `Collected` |
| Collect.AcceptCall | py4a/client/analyzer.py:316-329 | The two prefix tests, the parse and the identifier test equal `Accept` |
| Collect.Keep | py4a/client/analyzer.py:320-329 | The `try` around `_from_str` and the identifier test equal `Keepable` |
| Checker.Kept | py4a/client/checker.py:28-30 | A chain is kept exactly when its top level is a key of the APIs |
| Checker.CheckedIsKeptAndMatched | py4a/client/checker.py:11-33 | One pair per kept chain, in input order, with its match result |
| Checker.CheckedIsMatchEach | py4a/client/checker.py:11-33 | What `check` builds equals the kept chains each paired with its match result, as one sequence |
| Checker.Check | py4a/client/checker.py:11-33 | The loop equals `Checked` |
| Checker.CheckTree | py4a/client/checker.py:36-55 | Exactly the input's files, each with `check` of its chains |
| Extractor.PageNum | py4a/api/extractor.py:53-58 | `_page_num`: the pages hold every item, and one page fewer would not; `PageNumIsCeiling` shows no smaller count suffices |
| Extractor.PageNumIsCeiling | py4a/api/extractor.py:53-58 | The page count is the ceiling of the quotient: enough pages for every item, and no page more |
| Extractor.PageNumExamples | tests/api/test_extractor.py:13-15 | Ninety items fill three pages of thirty; ninety-one need four |
| Extractor.WheelTags | py4a/api/extractor.py:92-101 | Tags are read only from a `.whl` name of five or six dash-separated parts |
| Extractor.Pick | py4a/api/extractor.py:88-105 | The choice, when there is one, is an eligible file of the list |
| Extractor.PickIsFirstGreatest | py4a/api/extractor.py:88-105 | The choice is the first eligible wheel with the greatest Python tag; its Python tag is not empty; there is none exactly when every eligible wheel has an empty Python tag |
| Extractor.SelectWheel | py4a/api/extractor.py:88-105 | The loop equals `Pick` |
| Extractor.WheelName | py4a/api/extractor.py:95-101 | A wheel name's Python tag is its third part, or its fourth with a build tag |
| Extractor.SourceArchiveIgnored | tests/api/test_extractor.py:18-28 | The source archive is not a wheel |
| Extractor.WindowsWheelIgnored | tests/api/test_extractor.py:18-28 | The Windows wheel is not eligible |
| Extractor.LinuxWheelEligible | tests/api/test_extractor.py:18-28 | The CPython 3.9 Linux wheel is eligible |
| Extractor.MacWheelIgnored | tests/api/test_extractor.py:18-28 | The macOS wheel is not eligible |
| Extractor.OlderLinuxWheelEligible | tests/api/test_extractor.py:18-28 | The older Linux wheel is eligible |
| Extractor.ReleaseExample | tests/api/test_extractor.py:18-28 | The CPython 3.9 Linux wheel is chosen |
| Util.NamesDistinct | py4a/util.py:7-49 | Different kinds are reported by different strings |
| Util.DigitRun | py4a/util.py:28-38 | The longest prefix made of digits |
| Util.MatchSound | py4a/util.py:28-38 | What the matcher accepts, `re.match` accepts |
| Util.MatchComplete | py4a/util.py:28-38 | What `re.match` accepts, the matcher accepts, for a well-formed pattern |
| Util.MatchIsPrefixMatch | py4a/util.py:28-38 | The matcher is exactly `re.match` on well-formed patterns |
| Util.MatchShorterPattern | py4a/util.py:34-40 | A string matching a pattern matches every prefix of it |
| Util.PatternsWellFormed | py4a/util.py:28-38 | The four patterns of the source are well formed |
| Util.SpecTypeOf | py4a/util.py:7-49 | `get_spec_type` once the requirement is parsed: a range comes only from two specifiers, a bound or a version kind only from one, a version kind only from `==` or `~=`, and three or more give `other`. `SingleBound`, `SingleEquals`, `SingleCompatible`, `Pair`, `AnyMeaning` and `Many` characterise each case |
| Util.EqualsType | py4a/util.py:25-33 | The `==` branch gives `var-micro`, `var-minor`, `any` or `fixed`, and `any` exactly for the version `*` |
| Util.CompatibleType | py4a/util.py:34-40 | The `~=` branch gives `var-micro`, `var-minor` or `other`, and a version kind exactly when the version starts with two numeric components |
| Util.SingleBound | py4a/util.py:19-24 | A single `>=` or `>` gives `at-least`; a single `<=` or `<` gives `at-most` |
| Util.SingleEquals | py4a/util.py:25-33 | A single `==`: a `d.d.*` prefix gives `var-micro`, else a `d.*` prefix `var-minor`, else `*` gives `any`, else `fixed` |
| Util.SingleCompatible | py4a/util.py:34-40 | A single `~=`: a `d.d.d` prefix gives `var-micro`, else a `d.d` prefix `var-minor`, else `other` |
| Util.SingleOtherOperator | py4a/util.py:41-42 | Any other single operator gives `other` |
| Util.Pair | py4a/util.py:43-48 | Two specifiers form a range exactly when one is a lower and the other an upper bound, in either order |
| Util.AnyMeaning | py4a/util.py:16-33 | `any` comes only from no specifier or a single `== *` |
| Util.Many | py4a/util.py:49 | Three or more specifiers give `other` |
| Util.BoundExamples | tests/test_util.py:4-21 | No specifier and the single bounds of the unit test |
| Util.FixedExample | tests/test_util.py:4-21 | `foo (== 1.0)` is fixed |
| Util.CompatibleMinorExample | tests/test_util.py:4-21 | `foo (~= 1.2)` is `var-minor` |
| Util.CompatibleMicroExample | tests/test_util.py:4-21 | `foo (~= 1.2.1)` is `var-micro` |
| Util.PairExamples | tests/test_util.py:4-21 | Three ranges in either order, and `==` with `!=`, which is `other` |
| Text.Split | py4a/client/analyzer.py:243 | At least one piece, and no piece holds the separator |
| Text.SplitJoin | py4a/client/analyzer.py:243-261 | `split` undoes `join` when no piece contains the separator |
| Text.JoinSplit | py4a/client/analyzer.py:243-261 | `join` undoes `split` |
| Text.FirstSegmentBeforeDot | py4a/api/entity.py:293 | With a dot present, the first segment is exactly what precedes the first dot |
| Text.LastSegmentAfterDot | py4a/api/entity.py:415-418 | The last segment is what follows the last dot |
| Text.ReplaceStarDotStar | py4a/api/entity.py:415-418 | A wildcard target `m.*` with its `*` replaced by `k` is `m.k` |
| Text.SortedStrings | py4a/client/analyzer.py:58 | The members of a set of strings, each once, in increasing order |
| Text.NatToString | py4a/client/analyzer.py:142 | The decimal text of a number: ASCII digits whose value (`DigitsValue`) is the number, with a leading `0` only for zero, so different numbers give different texts |

## Left out

- Parsing Python source is not modelled. The client visitor's recording of
  calls, aliases and imports is not modelled either, except for the text
  `_parse`, `_parse_attribute` and `_parse_call` write. `GetApiAccessChains`
  takes the recorded calls, aliases and imports as inputs.
- `ast.unparse` renders names, attributes, tuples and lists. Any other
  expression carries its source text as given.
- `ast.walk` is a breadth-first walk over the statement datatype. Expressions
  are not walked.
- Error and log messages are replaced by enumerations: the reasons `Call.match`
  gives, and `KeyError`/`ValueError` in lookups and diffs.
- Calls.CallTextRoundTrip: read on its own by the item parser, the `...` that
  `__str__` prints for a starred call counts as one more positional argument,
  so the starred flag is not restored. The whole-chain parse `_from_str` splits
  on `.` first and fails on such a text (`StarredCallTextUnreadable`,
  `StarredChainUnreadable`), so a stored `chain_str` holding a starred call
  never reads back.
- Aliases.ResolveAliases: the iteration order of the alias sets, and of the
  dictionary the snapshot is taken from, is an input sequence. The source's
  result shares the caller's line sets, which `update` grows when a given key
  is reached again, while the caller's dictionary gains no key; the model
  returns a new table and leaves the given one unchanged.
- Collect.ApiAccessChainsMeaning: `AccessChain` defines no equality, so the
  set that collects chains removes no duplicates. The model keeps every
  chain, and chains with equal texts keep their collection order (Python's
  sort is stable).
- Identifiers (`str.isidentifier`) and the regular-expression class `\d` are
  restricted to ASCII letters, digits and `_`.
- Extractor.SelectWheel: a release file is modelled by its file name only.
  The assertion in `_page_num` becomes a precondition.
- Downloading, GitHub access, version parsing and the filesystem parts of
  `static.py` (wheels, directories, entry points, failed-module bookkeeping)
  are not modelled. They are I/O.
- Util.SingleEquals: `get_spec_type` parses a requirement string with
  `packaging`. The model starts from the parsed specifier list, a sequence
  of operator and version pairs.
- `Package.query`, `Class.get_names`, and the `signature` of classes,
  variables and packages are not modelled. Their text layout (`textwrap`)
  is presentation only.
- `Entity.__str__`/`decode`, `eval_default` and `eval_value` rely on
  jsonpickle and `ast.literal_eval`, and are not modelled.
- ApiDiff.DiffPkg: the source emits changes in set iteration order. The
  model states each diff as a set of changes.
- Behaviours of the code that the model keeps as they are:
  - `_resolve_import_from` copies the `__init__` child's entities into the
    package but does not delete the child;
  - two aliases naming each other end in the "cannot be resolved" error,
    because the cyclic `KeyError` is caught by the outer target loop;
  - `AccessChain.match` calls `get` without top-level packages, so only
    aliases inside the same package are followed;
  - a default that disappears is labelled `ParamDefValAdd`, and one that
    appears `ParamDefValRem`;
  - a signature renders its decorators as `@d ` prefixes on the same line as
    `def`, in stored order (py4a/api/entity.py:96-97);
  - a parameter list made only of positional-only parameters gets no `/`,
    because the marker is added only before a later parameter that is not
    positional-only (py4a/api/entity.py:84-86);
  - an `async def` in a class body is not a method: the class conversion
    tests for `ast.FunctionDef` only, so such a method is left out of the
    class and its `__init__` fields are not collected
    (py4a/api/static.py:281, `IsMethod`).

## Findings

| source | as written | input that shows it | evidently intended | confidence | as-written member | corrected member |
|---|---|---|---|---|---|---|
| py4a/api/static.py:146-164 | `_SourceVisitor` handles `FunctionDef` but not `AsyncFunctionDef`, so `generic_visit` walks into an `async def` body | a module holding `async def f(): x = v` yields the variable `x` and no function `f` | an `async def` is extracted as a function with an `async ` signature, as `Function.signature` expects | medium, not executed | Static.AsyncDefNotExtracted | Static.CorrectedExtractsAsync |
