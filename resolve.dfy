/** `Package.get`: dotted lookup that follows aliases and wildcard imports, depth
    first, through this package and the known top-level packages, refusing to
    revisit an alias target already on the current path.

    Termination: every target the resolver can be handed is drawn from a finite
    universe (the alias targets and wildcard targets stored in the packages in
    scope, and the wildcard targets with `*` replaced by a last segment that
    occurs among those), and each recursive call adds a fresh member of that
    universe to the visited list. This needs every wildcard target to end in
    `.*`, as the import resolver always builds them. */
module Resolve {
  import opened Wrappers
  import opened Text
  import opened Entity

  /** Why `get` raised `KeyError`. */
  datatype GetError =
    | Missing(reason: LookupError)   // `package[key]` itself failed
    | Cyclic                         // an alias target was already on the visited list
    | Unresolved                     // no target led to an entity

  // ---------------------------------------------------------------------------
  // The finite universe of alias targets

  /** Every entity stored anywhere in a package tree. */
  ghost function TreeEntities(p: Package): set<Entity>
    decreases p
  {
    (set i | 0 <= i < |p.entities| :: p.entities[i])
    + (set i, e | 0 <= i < |p.children| && e in TreeEntities(p.children[i]) :: e)
  }

  ghost function AliasTargets(p: Package): set<string>
  {
    set e | e in TreeEntities(p) && e.AliasE? :: e.fullAlias
  }

  ghost function WildcardTargets(p: Package): set<string>
  {
    set e, t | e in TreeEntities(p) && e.WildcardE? && t in e.fullAliases :: t
  }

  /** Packages appear only as children, and every wildcard target is a module followed by `.*`. */
  ghost predicate WellFormed(p: Package)
  {
    (forall e :: e in TreeEntities(p) ==> !e.PackageE?)
    && (forall t :: t in WildcardTargets(p) ==> EndsWith(t, ".*"))
  }

  /** The packages a resolution can visit: the one asked and the known top levels. */
  ghost function Scope(self: Package, tops: map<string, Package>): set<Package>
  {
    {self} + tops.Values
  }

  ghost function Targets(scope: set<Package>): set<string>
  {
    set q, t | q in scope && t in AliasTargets(q) + WildcardTargets(q) :: t
  }

  ghost function Wildcards(scope: set<Package>): set<string>
  {
    set q, t | q in scope && t in WildcardTargets(q) :: t
  }

  /** Every last segment a wildcard can be expanded with. */
  ghost function Suffixes(scope: set<Package>, key: string): set<string>
  {
    {LastSegment(key)} + set t | t in Targets(scope) :: LastSegment(t)
  }

  ghost function Universe(scope: set<Package>, key: string): set<string>
  {
    Targets(scope) + set w, k | w in Wildcards(scope) && k in Suffixes(scope, key) :: ReplaceStar(w, k)
  }

  ghost function Measure(self: Package, tops: map<string, Package>, key: string, prev: seq<string>): nat
  {
    |Universe(Scope(self, tops), key) - set x | x in prev|
  }

  ghost predicate ScopeWellFormed(self: Package, tops: map<string, Package>)
  {
    WellFormed(self) && forall q :: q in tops.Values ==> WellFormed(q)
  }

  // ---------------------------------------------------------------------------
  // Facts about the universe

  lemma {:induction false} SubsetCard<T>(a: set<T>, b: set<T>)
    requires a <= b
    ensures |a| <= |b|
    decreases |b|
  {
    if a != {} {
      var x :| x in a;
      SubsetCard(a - {x}, b - {x});
    }
  }

  lemma ChildTree(p: Package, i: nat)
    requires i < |p.children|
    ensures TreeEntities(p.children[i]) <= TreeEntities(p)
    ensures WellFormed(p) ==> WellFormed(p.children[i])
  {
    var c := p.children[i];
    forall t | t in WildcardTargets(c) ensures t in WildcardTargets(p) {
      var e :| e in TreeEntities(c) && e.WildcardE? && t in e.fullAliases;
      assert e in TreeEntities(p);
    }
  }

  /** `e` is the stored wildcard `w` of some package in the tree, expanded for `k`. */
  ghost predicate IsExpansion(e: Entity, p: Package, k: string)
  {
    e.WildcardE? && exists w :: w in TreeEntities(p) && ExpandWildcard(w, k) == Ok(e)
  }

  /** Whatever the dotted walk returns, other than a package, is stored in the
      tree or is the expansion of a stored wildcard for the last segment. */
  lemma {:induction false} IndexFromResult(q: Package, segs: seq<string>)
    requires WellFormed(q) && |segs| > 0
    requires IndexFrom(PackageE(q), segs).Ok? && !IndexFrom(PackageE(q), segs).value.PackageE?
    ensures var e := IndexFrom(PackageE(q), segs).value;
      e in TreeEntities(q) || IsExpansion(e, q, segs[|segs| - 1])
    decreases |segs|
  {
    var e := IndexFrom(PackageE(q), segs).value;
    var last := |segs| == 1;
    var s0 := segs[0];
    var ci := IndexOfName(q.children, PackageName, s0);
    var ei := IndexOfName(q.entities, EntityName, s0);
    var wi := IndexOfName(q.entities, EntityName, "*");
    if ci < |q.children| {
      var c := q.children[ci];
      assert Step(PackageE(q), s0, last) == Ok(PackageE(c));
      if !last {
        ChildTree(q, ci);
        assert IndexFrom(PackageE(c), segs[1..]) == Ok(e);
        IndexFromResult(c, segs[1..]);
        assert segs[1..][|segs[1..]| - 1] == segs[|segs| - 1];
        if !(e in TreeEntities(c)) {
          var w :| w in TreeEntities(c) && ExpandWildcard(w, segs[|segs| - 1]) == Ok(e);
          assert w in TreeEntities(q);
        }
      }
    } else if ei < |q.entities| {
      var x := q.entities[ei];
      assert x in TreeEntities(q);
      if !last {
        assert false;
      }
    } else {
      assert last && wi < |q.entities|;
      var w := q.entities[wi];
      assert w in TreeEntities(q);
      assert ExpandWildcard(w, s0) == Ok(e);
    }
  }

  /** The last element of the split key is its last segment. */
  lemma LastOfTail(key: string)
    requires |Split(key, '.')| > 1
    ensures var segs := Split(key, '.')[1..]; segs[|segs| - 1] == LastSegment(key)
  {
  }

  /** The targets of an alias or wildcard stored in the package. */
  lemma StoredTargetsInUniverse(self: Package, scope: set<Package>, key: string, e: Entity)
    requires self in scope && e in TreeEntities(self)
    ensures e.AliasE? ==> e.fullAlias in Universe(scope, key)
    ensures e.WildcardE? ==> forall t :: t in e.fullAliases ==> t in Universe(scope, key)
  {
    if e.AliasE? {
      assert e.fullAlias in AliasTargets(self);
      assert e.fullAlias in AliasTargets(self) + WildcardTargets(self);
      assert e.fullAlias in Targets(scope);
    } else if e.WildcardE? {
      forall t | t in e.fullAliases ensures t in Universe(scope, key) {
        assert t in WildcardTargets(self);
        assert t in AliasTargets(self) + WildcardTargets(self);
        assert t in Targets(scope);
      }
    }
  }

  /** The targets of a wildcard expanded with one of the known suffixes. */
  lemma ExpandedTargetsInUniverse(self: Package, scope: set<Package>, key: string, w: Entity, k: string, e: Entity)
    requires self in scope && w in TreeEntities(self)
    requires ExpandWildcard(w, k) == Ok(e) && k in Suffixes(scope, key)
    ensures e.WildcardE? ==> forall t :: t in e.fullAliases ==> t in Universe(scope, key)
  {
    if e.WildcardE? {
      forall t | t in e.fullAliases ensures t in Universe(scope, key) {
        var i :| 0 <= i < |e.fullAliases| && e.fullAliases[i] == t;
        assert w.WildcardE? && |w.fullAliases| == |e.fullAliases|;
        var src := w.fullAliases[i];
        assert src in w.fullAliases;
        assert src in WildcardTargets(self);
        assert src in Wildcards(scope);
        assert t == ReplaceStar(src, k);
        assert t in set w, k | w in Wildcards(scope) && k in Suffixes(scope, key) :: ReplaceStar(w, k);
      }
    }
  }

  /** Every target of an alias or wildcard that a lookup in a package of the
      scope returns is in the universe. */
  lemma TargetsInUniverse(self: Package, scope: set<Package>, key: string)
    requires self in scope && WellFormed(self)
    requires Index(self, key).Ok?
    ensures var e := Index(self, key).value;
      (e.AliasE? ==> e.fullAlias in Universe(scope, key))
      && (e.WildcardE? ==> forall t :: t in e.fullAliases ==> t in Universe(scope, key))
  {
    var e := Index(self, key).value;
    var segs := Split(key, '.');
    if e.AliasE? || e.WildcardE? {
      if |segs| == 1 {
        assert false;
      }
      IndexFromResult(self, segs[1..]);
      LastOfTail(key);
      var k := LastSegment(key);
      if e in TreeEntities(self) {
        StoredTargetsInUniverse(self, scope, key, e);
      } else {
        var w :| w in TreeEntities(self) && ExpandWildcard(w, k) == Ok(e);
        assert k in Suffixes(scope, key);
        ExpandedTargetsInUniverse(self, scope, key, w, k, e);
      }
    }
  }

  /** The last segment of any member of the universe is one of its suffixes. */
  lemma UniverseSuffix(scope: set<Package>, key: string, alias: string)
    requires forall q :: q in scope ==> WellFormed(q)
    requires alias in Universe(scope, key)
    ensures LastSegment(alias) in Suffixes(scope, key)
  {
    if alias !in Targets(scope) {
      var w, k :| w in Wildcards(scope) && k in Suffixes(scope, key) && alias == ReplaceStar(w, k);
      var q :| q in scope && w in WildcardTargets(q);
      assert EndsWith(w, ".*");
      var m := w[..|w| - 2];
      assert w == m + ".*";
      ReplaceStarDotStar(m, k);
      assert '.' !in k;
      LastSegmentAfterDot(ReplaceStar(m, k), k);
    }
  }

  /** Visiting a fresh member of the universe shrinks what is left of it. */
  lemma MeasureDecreases(self: Package, next: Package, tops: map<string, Package>,
                         key: string, prev: seq<string>, alias: string)
    requires ScopeWellFormed(self, tops)
    requires next == self || next in tops.Values
    requires alias in Universe(Scope(self, tops), key) && alias !in prev
    ensures Measure(next, tops, alias, prev + [alias]) < Measure(self, tops, key, prev)
  {
    var scope, scope' := Scope(self, tops), Scope(next, tops);
    assert scope' <= scope;
    UniverseSuffix(scope, key, alias);
    assert Targets(scope') <= Targets(scope);
    assert Wildcards(scope') <= Wildcards(scope);
    assert Suffixes(scope', alias) <= Suffixes(scope, key);
    var u, u' := Universe(scope, key), Universe(scope', alias);
    assert u' <= u;
    var p, p' := set x | x in prev, set x | x in prev + [alias];
    assert u' - p' <= (u - p) - {alias};
    SubsetCard(u' - p', (u - p) - {alias});
    assert alias in u - p;
  }

  // ---------------------------------------------------------------------------
  // The resolver

  /** `package.get(key, top_levels, prev_aliases)`. */
  function Resolve(self: Package, tops: map<string, Package>, key: string, prev: seq<string>)
    : (r: Result<Entity, GetError>)
    requires ScopeWellFormed(self, tops)
    ensures Index(self, key).Err? ==> r == Err(Missing(Index(self, key).error))
    ensures Index(self, key).Ok? && !Index(self, key).value.AliasE? && !Index(self, key).value.WildcardE?
            ==> r == Ok(Index(self, key).value)
    ensures r.Ok? ==> !r.value.AliasE? && !r.value.WildcardE?
    decreases Measure(self, tops, key, prev), 1, 0
  {
    match Index(self, key)
    case Err(e) => Err(Missing(e))
    case Ok(res) =>
      if res.AliasE? || res.WildcardE? then
        TargetsInUniverse(self, Scope(self, tops), key);
        TryTargets(self, tops, key, if res.AliasE? then [res.fullAlias] else res.fullAliases, prev)
      else Ok(res)
  }

  /** The loop over the targets of one alias: the first target that resolves
      wins; a target already visited aborts the whole call; a target whose top
      level is unknown, or whose resolution fails, is skipped. */
  function TryTargets(self: Package, tops: map<string, Package>, key: string,
                      targets: seq<string>, prev: seq<string>): (r: Result<Entity, GetError>)
    requires ScopeWellFormed(self, tops)
    requires forall t :: t in targets ==> t in Universe(Scope(self, tops), key)
    ensures r.Ok? ==> !r.value.AliasE? && !r.value.WildcardE?
    ensures r.Err? ==> r.error == Cyclic || r.error == Unresolved
    decreases Measure(self, tops, key, prev), 0, |targets|
  {
    if |targets| == 0 then Err(Unresolved)
    else
      var alias := targets[0];
      if alias in prev then Err(Cyclic)
      else
        var top := FirstSegment(alias);
        var attempt :=
          if top == self.name then
            MeasureDecreases(self, self, tops, key, prev, alias);
            Some(Resolve(self, tops, alias, prev + [alias]))
          else if top in tops then
            MeasureDecreases(self, tops[top], tops, key, prev, alias);
            Some(Resolve(tops[top], tops, alias, prev + [alias]))
          else None;
        if attempt.Some? && attempt.value.Ok? then attempt.value
        else TryTargets(self, tops, key, targets[1..], prev)
  }

  /** `Package.get`, with the loop over the alias targets. */
  method Get(self: Package, tops: map<string, Package>, key: string, prev: seq<string>)
    returns (r: Result<Entity, GetError>)
    requires ScopeWellFormed(self, tops)
    ensures r == Resolve(self, tops, key, prev)
    decreases Measure(self, tops, key, prev), 1
  {
    var res := GetItem(self, key);
    if res.Err? {
      return Err(Missing(res.error));
    }
    var e := res.value;
    if !e.AliasE? && !e.WildcardE? {
      return Ok(e);
    }
    TargetsInUniverse(self, Scope(self, tops), key);
    var aliases := if e.AliasE? then [e.fullAlias] else e.fullAliases;
    r := TryAliases(self, tops, key, aliases, prev);
  }

  /** The loop of `get` over the alias targets: the first target that resolves
      wins; a target already visited ends the walk as a cycle. */
  method TryAliases(self: Package, tops: map<string, Package>, key: string,
                    aliases: seq<string>, prev: seq<string>) returns (r: Result<Entity, GetError>)
    requires ScopeWellFormed(self, tops)
    requires forall t :: t in aliases ==> t in Universe(Scope(self, tops), key)
    ensures r == TryTargets(self, tops, key, aliases, prev)
    decreases Measure(self, tops, key, prev), 0
  {
    for i := 0 to |aliases|
      invariant TryTargets(self, tops, key, aliases[i..], prev) == TryTargets(self, tops, key, aliases, prev)
    {
      assert aliases[i..][1..] == aliases[i + 1..];
      var alias := aliases[i];
      if alias in prev {
        return Err(Cyclic);
      }
      var top := FirstSegment(alias);
      if top == self.name {
        MeasureDecreases(self, self, tops, key, prev, alias);
        var sub := Get(self, tops, alias, prev + [alias]);
        if sub.Ok? {
          return sub;
        }
      } else if top in tops {
        MeasureDecreases(self, tops[top], tops, key, prev, alias);
        var sub := Get(tops[top], tops, alias, prev + [alias]);
        if sub.Ok? {
          return sub;
        }
      }
    }
    return Err(Unresolved);
  }

  /** One target tried on its own: in this package when its top level is this
      package's name, else in the known top level of that name. */
  function Attempt(self: Package, tops: map<string, Package>, alias: string, prev: seq<string>)
    : Result<Entity, GetError>
    requires ScopeWellFormed(self, tops)
  {
    var top := FirstSegment(alias);
    if top == self.name then Resolve(self, tops, alias, prev + [alias])
    else if top in tops then Resolve(tops[top], tops, alias, prev + [alias])
    else Err(Unresolved)
  }

  /** Target `t` was tried and did not resolve, and it had not been visited. */
  predicate Skipped(self: Package, tops: map<string, Package>, t: string, prev: seq<string>)
    requires ScopeWellFormed(self, tops)
  {
    t !in prev && !Attempt(self, tops, t, prev).Ok?
  }

  /** Target `i` is the first that resolves, to `e`, and every earlier one was skipped. */
  predicate FirstWin(self: Package, tops: map<string, Package>, targets: seq<string>,
                     prev: seq<string>, e: Entity, i: int)
    requires ScopeWellFormed(self, tops)
  {
    0 <= i < |targets| && targets[i] !in prev && Attempt(self, tops, targets[i], prev) == Ok(e)
    && forall j :: 0 <= j < i ==> Skipped(self, tops, targets[j], prev)
  }

  lemma FirstWinShift(self: Package, tops: map<string, Package>, targets: seq<string>,
                      prev: seq<string>, e: Entity, i: int)
    requires ScopeWellFormed(self, tops) && |targets| > 0 && i >= 0
    ensures FirstWin(self, tops, targets, prev, e, i + 1)
       <==> Skipped(self, tops, targets[0], prev) && FirstWin(self, tops, targets[1..], prev, e, i)
  {
    if Skipped(self, tops, targets[0], prev) && FirstWin(self, tops, targets[1..], prev, e, i) {
      forall j | 0 <= j < i + 1 ensures Skipped(self, tops, targets[j], prev) {
        if j > 0 { assert targets[j] == targets[1..][j - 1]; }
      }
    }
    if FirstWin(self, tops, targets, prev, e, i + 1) {
      forall j | 0 <= j < i ensures Skipped(self, tops, targets[1..][j], prev) {
        assert targets[1..][j] == targets[j + 1];
      }
    }
  }

  /** The targets are tried in their listed order: the result is the first
      target that resolves, provided no earlier target was already visited. */
  lemma {:induction false} FirstResolvingTargetWins(self: Package, tops: map<string, Package>, key: string,
                                                    targets: seq<string>, prev: seq<string>, e: Entity)
    requires ScopeWellFormed(self, tops)
    requires forall t :: t in targets ==> t in Universe(Scope(self, tops), key)
    ensures TryTargets(self, tops, key, targets, prev) == Ok(e)
       <==> exists i :: FirstWin(self, tops, targets, prev, e, i)
    decreases |targets|
  {
    if |targets| > 0 {
      var rest := targets[1..];
      FirstResolvingTargetWins(self, tops, key, rest, prev, e);
      var a := Attempt(self, tops, targets[0], prev);
      assert TryTargets(self, tops, key, targets, prev)
          == if targets[0] in prev then Err(Cyclic)
             else if a.Ok? then a
             else TryTargets(self, tops, key, rest, prev);
      if targets[0] !in prev && a == Ok(e) {
        assert FirstWin(self, tops, targets, prev, e, 0);
      }
      if exists i :: FirstWin(self, tops, rest, prev, e, i) {
        var i :| FirstWin(self, tops, rest, prev, e, i);
        FirstWinShift(self, tops, targets, prev, e, i);
      }
      if exists i :: FirstWin(self, tops, targets, prev, e, i) {
        var i :| FirstWin(self, tops, targets, prev, e, i);
        if i > 0 {
          FirstWinShift(self, tops, targets, prev, e, i - 1);
        }
      }
    }
  }

  /** A resolved entity is a package or something stored in a package of the scope. */
  lemma {:induction false} ResolvedIsStored(self: Package, tops: map<string, Package>, key: string, prev: seq<string>)
    requires ScopeWellFormed(self, tops)
    requires Resolve(self, tops, key, prev).Ok?
    ensures var e := Resolve(self, tops, key, prev).value;
      e.PackageE? || exists q :: q in Scope(self, tops) && e in TreeEntities(q)
    decreases Measure(self, tops, key, prev), 1, 0
  {
    var res := Index(self, key).value;
    if res.AliasE? || res.WildcardE? {
      TargetsInUniverse(self, Scope(self, tops), key);
      TriedIsStored(self, tops, key, if res.AliasE? then [res.fullAlias] else res.fullAliases, prev);
    } else if !res.PackageE? {
      var segs := Split(key, '.');
      if |segs| > 1 {
        IndexFromResult(self, segs[1..]);
      } else {
        assert false;
      }
    }
  }

  lemma {:induction false} TriedIsStored(self: Package, tops: map<string, Package>, key: string,
                                         targets: seq<string>, prev: seq<string>)
    requires ScopeWellFormed(self, tops)
    requires forall t :: t in targets ==> t in Universe(Scope(self, tops), key)
    requires TryTargets(self, tops, key, targets, prev).Ok?
    ensures var e := TryTargets(self, tops, key, targets, prev).value;
      e.PackageE? || exists q :: q in Scope(self, tops) && e in TreeEntities(q)
    decreases Measure(self, tops, key, prev), 0, |targets|
  {
    var alias := targets[0];
    var top := FirstSegment(alias);
    var e := TryTargets(self, tops, key, targets, prev).value;
    if top == self.name && Resolve(self, tops, alias, prev + [alias]).Ok? {
      MeasureDecreases(self, self, tops, key, prev, alias);
      ResolvedIsStored(self, tops, alias, prev + [alias]);
    } else if top != self.name && top in tops && Resolve(tops[top], tops, alias, prev + [alias]).Ok? {
      MeasureDecreases(self, tops[top], tops, key, prev, alias);
      ResolvedIsStored(tops[top], tops, alias, prev + [alias]);
      assert Scope(tops[top], tops) <= Scope(self, tops);
    } else {
      TriedIsStored(self, tops, key, targets[1..], prev);
    }
  }

  /** An alias with a single target in the same package resolves as that target does, or not at all. */
  lemma ResolveOwnAlias(self: Package, key: string, name: string, target: string, prev: seq<string>)
    requires ScopeWellFormed(self, map[])
    requires Index(self, key) == Ok(AliasE(name, target))
    requires FirstSegment(target) == self.name
    ensures Resolve(self, map[], key, prev)
         == if target in prev then Err(Cyclic)
            else if Resolve(self, map[], target, prev + [target]).Ok? then Resolve(self, map[], target, prev + [target])
            else Err(Unresolved)
  {
    TargetsInUniverse(self, Scope(self, map[]), key);
    assert Resolve(self, map[], key, prev) == TryTargets(self, map[], key, [target], prev);
    assert [target][1..] == [];
    if target !in prev {
      assert TryTargets(self, map[], key, [], prev) == Err(Unresolved);
    }
  }

  /** A package holding only two aliases to its own names is well formed. */
  lemma AliasPairWellFormed(p: Package, a: string, b: string)
    requires p.children == [] && p.entities == [AliasE(a, p.name + "." + b), AliasE(b, p.name + "." + a)]
    ensures ScopeWellFormed(p, map[])
  {
    forall e | e in TreeEntities(p) ensures e.AliasE? {
      var i :| 0 <= i < |p.entities| && p.entities[i] == e;
    }
    assert WildcardTargets(p) == {};
  }

  /** Where the two aliases of such a package are found, and that each names
      a member of the same package. */
  lemma AliasPairFacts(p: Package, a: string, b: string)
    requires '.' !in p.name && '.' !in a && '.' !in b && a != b
    requires p.children == [] && p.entities == [AliasE(a, p.name + "." + b), AliasE(b, p.name + "." + a)]
    ensures ScopeWellFormed(p, map[])
    ensures p.name + "." + a != p.name + "." + b
    ensures Index(p, p.name + "." + a) == Ok(AliasE(a, p.name + "." + b))
    ensures Index(p, p.name + "." + b) == Ok(AliasE(b, p.name + "." + a))
    ensures FirstSegment(p.name + "." + a) == p.name && FirstSegment(p.name + "." + b) == p.name
  {
    AliasPairWellFormed(p, a, b);
    var ka, kb := p.name + "." + a, p.name + "." + b;
    assert ka != kb by {
      assert ka[|p.name| + 1..] == a && kb[|p.name| + 1..] == b;
    }
    IndexOneSegment(p, a);
    IndexOneSegment(p, b);
    assert EntityName(p.entities[0]) == a && EntityName(p.entities[1]) == b;
    assert Step(PackageE(p), a, true) == Ok(AliasE(a, kb));
    assert Step(PackageE(p), b, true) == Ok(AliasE(b, ka));
    SplitWithoutSep(p.name, '.');
    assert FirstSegment(ka) == p.name by {
      SplitSnoc(p.name, a);
    }
    assert FirstSegment(kb) == p.name by {
      SplitSnoc(p.name, b);
    }
  }

  /** Two aliases naming each other: the inner call meets the cycle, its
      `KeyError` is caught by the outer loop, and the outer call reports that
      the name cannot be resolved. */
  lemma CycleIsUnresolved(p: Package, a: string, b: string)
    requires '.' !in p.name && '.' !in a && '.' !in b && a != b
    requires p.children == [] && p.entities == [AliasE(a, p.name + "." + b), AliasE(b, p.name + "." + a)]
    ensures ScopeWellFormed(p, map[])
    ensures Resolve(p, map[], p.name + "." + a, []) == Err(Unresolved)
  {
    var ka, kb := p.name + "." + a, p.name + "." + b;
    AliasPairFacts(p, a, b);
    ResolveOwnAlias(p, ka, a, kb, [kb, ka]);
    assert Resolve(p, map[], ka, [kb, ka]) == Err(Cyclic);
    ResolveOwnAlias(p, kb, b, ka, [kb]);
    assert [kb] + [ka] == [kb, ka];
    assert Resolve(p, map[], kb, [kb]) == Err(Unresolved);
    ResolveOwnAlias(p, ka, a, kb, []);
    assert [] + [kb] == [kb];
  }
}
