/** Matching an access chain against the extracted APIs (`AccessChain.match`):
    the chain is walked item by item through the packages of its top level,
    each prefix resolved with `get` (following aliases) or, failing that, with
    plain dotted lookup, until it reaches a call or something that is not a
    package; calls are checked against the signature they reach. */
module Chains {
  import opened Wrappers
  import opened Text
  import opened Entity
  import opened Resolve
  import opened Calls
  import opened Matching

  /** Which signature refused a call. */
  datatype Against = FunctionSignature | ConstructorSignature | MethodSignature

  /** `MatchResult`: MATCH with the matched name and entity, MISMATCH (a call
      refused by a signature, or a module that is called), or MISSING with the
      name that does not exist. The source's message text is summarised by the
      fields of each case. */
  datatype MatchResult =
    | Matched(name: string, api: Entity)
    | Mismatched(chain: string, against: Against, signature: Function)
    | ModuleInvoked(key: string)
    | NotFound(key: string)

  /** The names of the items (the callee name for a call). */
  function Names(items: seq<Item>): (r: seq<string>)
    ensures |r| == |items|
    ensures forall k :: 0 <= k < |items| ==> r[k] == ItemName(items[k])
  {
    seq(|items|, k requires 0 <= k < |items| => ItemName(items[k]))
  }

  /** The texts of the items (the canonical call text for a call). */
  function Texts(items: seq<Item>): (r: seq<string>)
    ensures |r| == |items|
    ensures forall k :: 0 <= k < |items| ==> r[k] == ItemText(items[k])
  {
    seq(|items|, k requires 0 <= k < |items| => ItemText(items[k]))
  }

  /** `chain_str` of a chain holding a call with a spread `*args` does not read
      back with `_from_str`, which fails with `IndexError`. */
  lemma StarredChainUnreadable(items: seq<Item>, i: nat, lineNums: set<nat>)
    requires i < |items| && items[i].Invoke? && items[i].call.starargs
    requires forall k :: k in items[i].call.kwargs ==> Plain(k)
    ensures FromText(ChainText(items), lineNums) == Err(IndexError)
  {
    var ts := Texts(items);
    var xs, ys := ts[..i], ts[i + 1..];
    assert ts == (xs + [ts[i]]) + ys;
    JoinAround(xs, ts[i], ys, ".");
    var p := if |xs| == 0 then "" else Join(xs, ".") + ".";
    var q := if |ys| == 0 then "" else "." + Join(ys, ".");
    assert ChainText(items) == p + CallText(items[i].call) + q;
    StarredCallTextUnreadable(p, items[i].call, q, lineNums);
  }

  /** The dotted API name a chain prefix stands for. */
  function KeyOf(items: seq<Item>): string
  {
    Join(Names(items), ".")
  }

  /** The text of a chain prefix. */
  function ChainText(items: seq<Item>): string
  {
    Join(Texts(items), ".")
  }

  /** `package.get(key)` with no other top levels, falling back to
      `package[key]` when it raises. */
  function Lookup(p: Package, key: string): (r: Result<Entity, LookupError>)
    requires WellFormed(p)
    ensures r.Err? <==> Index(p, key).Err?
    ensures r.Ok? && !r.value.AliasE? && !r.value.WildcardE? ==> Resolve.Resolve(p, map[], key, []) == Ok(r.value)
  {
    assert ScopeWellFormed(p, map[]);
    match Resolve.Resolve(p, map[], key, [])
    case Ok(e) => Ok(e)
    case Err(_) => Index(p, key)
  }

  /** A method is static when one of its decorators mentions `staticmethod`. */
  predicate IsStaticMethod(m: Function)
  {
    exists k :: 0 <= k < |m.decorators| && IsSubstring("staticmethod", m.decorators[k])
  }

  /** The outcome of a call at position `i` that reached `e` under the name `key`. */
  function CallOutcome(chain: seq<Item>, i: nat, key: string, e: Entity): MatchResult
    requires i < |chain| && chain[i].Invoke?
  {
    var c := chain[i].call;
    var text := ChainText(chain[..i + 1]);
    match e
    case FunctionE(f) =>
      if Accepts(c, f, false) then Matched(key, e) else Mismatched(text, FunctionSignature, f)
    case ClassE(cls) =>
      var ctor := FindFirst(cls.methods, FunctionName, "__init__");
      if ctor.Some? && !Accepts(c, ctor.value, true) then
        Mismatched(text, ConstructorSignature, ctor.value)
      else if i < |chain| - 1 && chain[i + 1].Invoke?
              && FindFirst(cls.methods, FunctionName, chain[i + 1].call.name).Some? then
        var m := FindFirst(cls.methods, FunctionName, chain[i + 1].call.name).value;
        if Accepts(chain[i + 1].call, m, !IsStaticMethod(m)) then
          Matched(key + "." + chain[i + 1].call.name, FunctionE(m))
        else
          Mismatched(text + "." + ItemText(chain[i + 1]), MethodSignature, m)
      else Matched(key, e)
    case PackageE(_) => ModuleInvoked(key)
    case _ => Matched(key, e)
  }

  /** The walk from position `i` on, `current` being what the previous prefix reached. */
  function MatchFrom(p: Package, chain: seq<Item>, i: nat, current: Entity): MatchResult
    requires WellFormed(p) && i <= |chain| && |chain| >= 1
    decreases |chain| - i
  {
    if i == |chain| then Matched(KeyOf(chain[..i]), current)
    else
      var key := KeyOf(chain[..i + 1]);
      match Lookup(p, key)
      case Err(_) => NotFound(key)
      case Ok(e) =>
        if chain[i].Invoke? then CallOutcome(chain, i, key, e)
        else if e.PackageE? then MatchFrom(p, chain, i + 1, e)
        else Matched(key, e)
  }

  /** `AccessChain.match` on the APIs indexed by top-level name. */
  function ChainMatch(apis: map<string, Package>, chain: seq<Item>): (r: MatchResult)
    requires |chain| >= 1 && forall k :: k in apis ==> WellFormed(apis[k])
    ensures ItemText(chain[0]) !in apis ==> r == NotFound(ItemText(chain[0]))
  {
    var top := ItemText(chain[0]);
    if top !in apis then NotFound(top)
    else MatchFrom(apis[top], chain, 0, PackageE(apis[top]))
  }

  /** What the walk can end in: a match on a prefix of the chain (one item
      longer for a method called on a class); a prefix that cannot be looked
      up; a called module; or a call refused by the signature it reached. */
  lemma WalkOutcomes(p: Package, chain: seq<Item>, i: nat, current: Entity)
    requires WellFormed(p) && i <= |chain| && |chain| >= 1
    ensures var r := MatchFrom(p, chain, i, current);
      && (r.Matched? ==> exists j :: i <= j <= |chain| && 1 <= j && r.name == KeyOf(chain[..j]))
      && (r.NotFound? ==> exists j :: i < j <= |chain| && r.key == KeyOf(chain[..j]) && Lookup(p, r.key).Err?)
      && (r.ModuleInvoked? ==> exists j :: i <= j < |chain| && chain[j].Invoke? && r.key == KeyOf(chain[..j + 1])
                                          && Lookup(p, r.key).Ok? && Lookup(p, r.key).value.PackageE?)
      && (r.Mismatched? ==> exists j, classFunc :: i <= j < |chain| && chain[j].Invoke?
                                                  && !Accepts(chain[j].call, r.signature, classFunc))
  {
    WalkMatched(p, chain, i, current);
    WalkNotFound(p, chain, i, current);
    WalkModuleInvoked(p, chain, i, current);
    WalkMismatched(p, chain, i, current);
  }

  /** A match names a prefix of the chain. */
  lemma {:induction false} WalkMatched(p: Package, chain: seq<Item>, i: nat, current: Entity)
    requires WellFormed(p) && i <= |chain| && |chain| >= 1
    ensures var r := MatchFrom(p, chain, i, current);
      r.Matched? ==> exists j :: i <= j <= |chain| && 1 <= j && r.name == KeyOf(chain[..j])
    decreases |chain| - i
  {
    if i < |chain| {
      var key := KeyOf(chain[..i + 1]);
      if Lookup(p, key).Ok? {
        var e := Lookup(p, key).value;
        if chain[i].Invoke? {
          CallOutcomeFacts(chain, i, key, e);
        } else if e.PackageE? {
          WalkMatched(p, chain, i + 1, e);
        }
      }
    }
  }

  /** A miss names a prefix that cannot be looked up. */
  lemma {:induction false} WalkNotFound(p: Package, chain: seq<Item>, i: nat, current: Entity)
    requires WellFormed(p) && i <= |chain| && |chain| >= 1
    ensures var r := MatchFrom(p, chain, i, current);
      r.NotFound? ==> exists j :: i < j <= |chain| && r.key == KeyOf(chain[..j]) && Lookup(p, r.key).Err?
    decreases |chain| - i
  {
    if i < |chain| {
      var key := KeyOf(chain[..i + 1]);
      if Lookup(p, key).Ok? {
        var e := Lookup(p, key).value;
        if chain[i].Invoke? {
          CallOutcomeFacts(chain, i, key, e);
        } else if e.PackageE? {
          WalkNotFound(p, chain, i + 1, e);
        }
      }
    }
  }

  /** A called module is a prefix ending in a call that looks up to a package. */
  lemma {:induction false} WalkModuleInvoked(p: Package, chain: seq<Item>, i: nat, current: Entity)
    requires WellFormed(p) && i <= |chain| && |chain| >= 1
    ensures var r := MatchFrom(p, chain, i, current);
      r.ModuleInvoked? ==> exists j :: i <= j < |chain| && chain[j].Invoke? && r.key == KeyOf(chain[..j + 1])
                                && Lookup(p, r.key).Ok? && Lookup(p, r.key).value.PackageE?
    decreases |chain| - i
  {
    if i < |chain| {
      var key := KeyOf(chain[..i + 1]);
      if Lookup(p, key).Ok? {
        var e := Lookup(p, key).value;
        if chain[i].Invoke? {
          CallOutcomeFacts(chain, i, key, e);
        } else if e.PackageE? {
          WalkModuleInvoked(p, chain, i + 1, e);
        }
      }
    }
  }

  /** A refusal comes from a call of the chain that its signature does not accept. */
  lemma {:induction false} WalkMismatched(p: Package, chain: seq<Item>, i: nat, current: Entity)
    requires WellFormed(p) && i <= |chain| && |chain| >= 1
    ensures var r := MatchFrom(p, chain, i, current);
      r.Mismatched? ==> exists j, classFunc :: i <= j < |chain| && chain[j].Invoke?
                                        && !Accepts(chain[j].call, r.signature, classFunc)
    decreases |chain| - i
  {
    if i < |chain| {
      var key := KeyOf(chain[..i + 1]);
      if Lookup(p, key).Ok? {
        var e := Lookup(p, key).value;
        if chain[i].Invoke? {
          CallOutcomeFacts(chain, i, key, e);
        } else if e.PackageE? {
          WalkMismatched(p, chain, i + 1, e);
        }
      }
    }
  }


  /** What a call outcome can be: a match on this prefix or, for a method
      called on a class, on the next one; a refusal of this call or the next. */
  lemma CallOutcomeFacts(chain: seq<Item>, i: nat, key: string, e: Entity)
    requires i < |chain| && chain[i].Invoke? && key == KeyOf(chain[..i + 1])
    ensures var r := CallOutcome(chain, i, key, e);
      && (r.Matched? ==> r.name == KeyOf(chain[..i + 1]) || (i + 1 < |chain| && r.name == KeyOf(chain[..i + 2])))
      && (r.ModuleInvoked? ==> r.key == key && e.PackageE?)
      && !r.NotFound?
      && (r.Mismatched? ==> exists j, classFunc :: i <= j < |chain| && chain[j].Invoke?
                                                  && !Accepts(chain[j].call, r.signature, classFunc))
  {
    if i + 1 < |chain| {
      assert chain[..i + 2][..i + 1] == chain[..i + 1];
      assert Names(chain[..i + 2]) == Names(chain[..i + 1]) + [ItemName(chain[i + 1])];
      JoinSnoc(Names(chain[..i + 1]), ItemName(chain[i + 1]), ".");
    }
  }

  /** `AccessChain.match`. */
  method MatchChain(apis: map<string, Package>, chain: seq<Item>) returns (r: MatchResult)
    requires |chain| >= 1 && forall k :: k in apis ==> WellFormed(apis[k])
    ensures r == ChainMatch(apis, chain)
  {
    var top := ItemText(chain[0]);
    if top !in apis {
      return NotFound(top);
    }
    var p := apis[top];
    assert WellFormed(p);
    var keys: seq<string> := [];
    var texts: seq<string> := [];
    var current := PackageE(p);
    for i := 0 to |chain|
      invariant keys == Names(chain[..i]) && texts == Texts(chain[..i])
      invariant MatchFrom(p, chain, i, current) == ChainMatch(apis, chain)
    {
      var item := chain[i];
      PrefixSnoc(chain, i);
      keys := keys + [ItemName(item)];
      texts := texts + [ItemText(item)];
      var done, outcome, next := WalkStep(p, chain, i, Join(keys, "."), Join(texts, "."), current);
      if done {
        return outcome;
      }
      current := next;
    }
    assert chain[..|chain|] == chain;
    return Matched(Join(keys, "."), current);
  }

  /** Extending a chain prefix by one item extends its names and texts. */
  lemma PrefixSnoc(chain: seq<Item>, i: nat)
    requires i < |chain|
    ensures Names(chain[..i + 1]) == Names(chain[..i]) + [ItemName(chain[i])]
    ensures Texts(chain[..i + 1]) == Texts(chain[..i]) + [ItemText(chain[i])]
  {
  }

  /** One item of the walk: look up the prefix ending at item `i` and either
      end the walk with its outcome or go on from the entity found. */
  method WalkStep(p: Package, chain: seq<Item>, i: nat, key: string, text: string, current: Entity)
    returns (done: bool, r: MatchResult, next: Entity)
    requires WellFormed(p) && i < |chain| && |chain| >= 1
    requires key == KeyOf(chain[..i + 1]) && text == ChainText(chain[..i + 1])
    ensures done ==> r == MatchFrom(p, chain, i, current)
    ensures !done ==> MatchFrom(p, chain, i, current) == MatchFrom(p, chain, i + 1, next)
  {
    next := current;
    var found := LookupKey(p, key);
    if found.Err? {
      return true, NotFound(key), next;
    }
    next := found.value;
    if chain[i].Invoke? {
      r := CallStep(chain, i, key, text, next);
      return true, r, next;
    }
    if !next.PackageE? {
      return true, Matched(key, next), next;
    }
    return false, Matched(key, next), next;
  }

  /** The `try`/`except KeyError` around `get` and `[]` in the walk. */
  method LookupKey(p: Package, key: string) returns (r: Result<Entity, LookupError>)
    requires WellFormed(p)
    ensures r == Lookup(p, key)
  {
    assert ScopeWellFormed(p, map[]);
    var got := Get(p, map[], key, []);
    if got.Ok? {
      return Ok(got.value);
    }
    r := GetItem(p, key);
  }

  /** The call branch of the walk: check the call against the function, the
      constructor, or the method called next, and end the walk. */
  method CallStep(chain: seq<Item>, i: nat, key: string, text: string, current: Entity) returns (r: MatchResult)
    requires i < |chain| && chain[i].Invoke? && text == ChainText(chain[..i + 1])
    ensures r == CallOutcome(chain, i, key, current)
  {
    var c := chain[i].call;
    match current {
      case FunctionE(f) =>
        var why := MatchCall(c, f, false);
        if why.Some? {
          return Mismatched(text, FunctionSignature, f);
        }
      case ClassE(cls) =>
        var ctor := Constructor(cls);
        if ctor.Some? {
          var why := MatchCall(c, ctor.value, true);
          if why.Some? {
            return Mismatched(text, ConstructorSignature, ctor.value);
          }
        }
        if i < |chain| - 1 && chain[i + 1].Invoke? {
          var m := GetMethod(cls, chain[i + 1].call.name);
          if m.Some? {
            var isStatic := IsStaticMethod(m.value);
            var why := MatchCall(chain[i + 1].call, m.value, !isStatic);
            if why.None? {
              return Matched(key + "." + chain[i + 1].call.name, FunctionE(m.value));
            } else {
              return Mismatched(text + "." + ItemText(chain[i + 1]), MethodSignature, m.value);
            }
          }
        }
      case PackageE(_) =>
        return ModuleInvoked(key);
      case _ =>
    }
    return Matched(key, current);
  }

  // ---------------------------------------------------------------------------
  // Properties of the walk

  /** The item at `k` is an attribute that reaches a package. */
  predicate PackageAt(p: Package, chain: seq<Item>, k: nat)
    requires WellFormed(p) && k < |chain|
  {
    chain[k].Attr? && Lookup(p, KeyOf(chain[..k + 1])).Ok? && Lookup(p, KeyOf(chain[..k + 1])).value.PackageE?
  }

  /** The walk passes through attributes that reach packages without deciding
      anything: its result is decided at the first call or non-package. */
  lemma {:induction false} PackagesAreTransparent(p: Package, chain: seq<Item>, i: nat, j: nat, current: Entity)
    requires WellFormed(p) && |chain| >= 1 && i < j <= |chain|
    requires forall k :: i <= k < j ==> PackageAt(p, chain, k)
    requires Lookup(p, KeyOf(chain[..j])).Ok?
    ensures MatchFrom(p, chain, i, current) == MatchFrom(p, chain, j, Lookup(p, KeyOf(chain[..j])).value)
    decreases j - i
  {
    assert PackageAt(p, chain, i);
    if i + 1 < j {
      assert PackageAt(p, chain, j - 1);
      PackagesAreTransparent(p, chain, i + 1, j, Lookup(p, KeyOf(chain[..i + 1])).value);
    }
  }

  /** After a run of packages, an attribute reaching anything else is matched there. */
  lemma StopsAtNonPackage(apis: map<string, Package>, chain: seq<Item>, j: nat)
    requires |chain| >= 1 && forall k :: k in apis ==> WellFormed(apis[k])
    requires ItemText(chain[0]) in apis && j < |chain|
    requires forall k :: 0 <= k < j ==> PackageAt(apis[ItemText(chain[0])], chain, k)
    requires chain[j].Attr?
    requires Lookup(apis[ItemText(chain[0])], KeyOf(chain[..j + 1])).Ok?
    requires !Lookup(apis[ItemText(chain[0])], KeyOf(chain[..j + 1])).value.PackageE?
    ensures ChainMatch(apis, chain)
         == Matched(KeyOf(chain[..j + 1]), Lookup(apis[ItemText(chain[0])], KeyOf(chain[..j + 1])).value)
  {
    var p := apis[ItemText(chain[0])];
    if j > 0 {
      assert PackageAt(p, chain, j - 1);
      PackagesAreTransparent(p, chain, 0, j, PackageE(p));
    }
  }

  /** After a run of packages, a call is decided at its own position. */
  lemma StopsAtCall(apis: map<string, Package>, chain: seq<Item>, j: nat)
    requires |chain| >= 1 && forall k :: k in apis ==> WellFormed(apis[k])
    requires ItemText(chain[0]) in apis && j < |chain|
    requires forall k :: 0 <= k < j ==> PackageAt(apis[ItemText(chain[0])], chain, k)
    requires chain[j].Invoke?
    requires Lookup(apis[ItemText(chain[0])], KeyOf(chain[..j + 1])).Ok?
    ensures ChainMatch(apis, chain)
         == CallOutcome(chain, j, KeyOf(chain[..j + 1]), Lookup(apis[ItemText(chain[0])], KeyOf(chain[..j + 1])).value)
  {
    var p := apis[ItemText(chain[0])];
    if j > 0 {
      assert PackageAt(p, chain, j - 1);
      PackagesAreTransparent(p, chain, 0, j, PackageE(p));
    }
  }
}
