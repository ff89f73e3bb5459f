/** Matching a recorded call against a function signature (`Call.match`): which
    parameters can be filled positionally or by keyword, which keywords are
    refused, and which required parameters are left without a value. */
module Matching {
  import opened Wrappers
  import opened Entity
  import opened Calls

  // ---------------------------------------------------------------------------
  // The parameter slots of a signature

  /** What a signature offers a call: the parameters that can be filled
      positionally (in order), those that can be named by keyword, the
      positional-only ones (in order), and whether `*args` / `**kwargs` exist. */
  datatype Slots = Slots(
    positional: seq<string>,
    keyword: set<string>,
    positionalOnly: seq<string>,
    varargs: bool,
    varkw: bool)

  const NoSlots := Slots([], {}, [], false, false)

  /** A parameter that is neither `*args` nor `**kwargs`. */
  predicate Ordinary(a: Argument)
  {
    !a.vararg && !a.kwarg
  }

  /** The slots contributed by one more parameter. */
  function SlotStep(s: Slots, a: Argument): Slots
  {
    Slots(
      s.positional + (if Ordinary(a) && !a.kwOnly then [a.name] else []),
      s.keyword + (if Ordinary(a) && !a.posOnly then {a.name} else {}),
      s.positionalOnly + (if a.posOnly then [a.name] else []),
      s.varargs || a.vararg,
      s.varkw || a.kwarg)
  }

  /** The slots of a parameter list, read left to right. */
  function SlotsOf(args: seq<Argument>): Slots
    decreases |args|
  {
    if |args| == 0 then NoSlots
    else SlotStep(SlotsOf(args[..|args| - 1]), args[|args| - 1])
  }

  /** The slots of a parameter list, parameter by parameter: a name is a
      positional slot, a keyword slot or positional-only exactly when some
      parameter of that name is of that kind, and the spreads exist exactly
      when such a parameter does. */
  lemma {:induction false} SlotsMeaning(args: seq<Argument>, n: string)
    ensures n in SlotsOf(args).positional <==> exists a :: a in args && a.name == n && Ordinary(a) && !a.kwOnly
    ensures n in SlotsOf(args).keyword <==> exists a :: a in args && a.name == n && Ordinary(a) && !a.posOnly
    ensures n in SlotsOf(args).positionalOnly <==> exists a :: a in args && a.name == n && a.posOnly
    ensures SlotsOf(args).varargs <==> exists a :: a in args && a.vararg
    ensures SlotsOf(args).varkw <==> exists a :: a in args && a.kwarg
    decreases |args|
  {
    if |args| > 0 {
      var init := args[..|args| - 1];
      var last := args[|args| - 1];
      SlotsMeaning(init, n);
      assert args == init + [last];
      forall a | a in args
        ensures a in init || a == last
      {
      }
    }
  }

  /** Positional slots follow the order of the parameter list, one per
      parameter that can be passed positionally. */
  lemma {:induction false} PositionalSlotsCount(args: seq<Argument>)
    ensures |SlotsOf(args).positional| == CountPositional(args)
    decreases |args|
  {
    if |args| > 0 {
      PositionalSlotsCount(args[..|args| - 1]);
      CountPositionalSnoc(args[..|args| - 1], args[|args| - 1]);
      assert args[..|args| - 1] + [args[|args| - 1]] == args;
    }
  }

  /** The number of parameters that can be filled positionally. */
  function CountPositional(args: seq<Argument>): nat
    decreases |args|
  {
    if |args| == 0 then 0
    else CountPositional(args[1..]) + (if Ordinary(args[0]) && !args[0].kwOnly then 1 else 0)
  }

  lemma {:induction false} CountPositionalSnoc(args: seq<Argument>, a: Argument)
    ensures CountPositional(args + [a]) == CountPositional(args) + (if Ordinary(a) && !a.kwOnly then 1 else 0)
    decreases |args|
  {
    if |args| > 0 {
      assert (args + [a])[1..] == args[1..] + [a];
      CountPositionalSnoc(args[1..], a);
    } else {
      assert (args + [a])[1..] == [];
    }
  }

  // ---------------------------------------------------------------------------
  // When a call is accepted

  /** The positional values the call supplies; a method called on an object
      also receives the object itself. */
  function Given(c: Call, classFunc: bool): nat
  {
    c.args + (if classFunc then 1 else 0)
  }

  function Min(a: nat, b: nat): nat
  {
    if a <= b then a else b
  }

  /** The parameters that the positional values fill, in order from the left. */
  function Bound(c: Call, f: Function, classFunc: bool): (r: set<string>)
    ensures forall n :: n in r <==> n in SlotsOf(f.args).positional[..Min(Given(c, classFunc), |SlotsOf(f.args).positional|)]
  {
    var pos := SlotsOf(f.args).positional;
    set n | n in pos[..Min(Given(c, classFunc), |pos|)]
  }

  /** More positional values than positional parameters, and no `*args`. */
  predicate TooManyPositional(c: Call, f: Function, classFunc: bool)
  {
    var s := SlotsOf(f.args);
    Given(c, classFunc) > |s.positional| && !s.varargs
  }

  /** A keyword that names a positional-only parameter. */
  predicate PositionOnly(f: Function, kw: string)
  {
    kw in SlotsOf(f.args).positionalOnly
  }

  /** A keyword that names no keyword parameter still unfilled, with no `**kwargs` to take it. */
  predicate Unexpected(c: Call, f: Function, classFunc: bool, kw: string)
  {
    var s := SlotsOf(f.args);
    kw !in s.keyword - Bound(c, f, classFunc) && !s.varkw
  }

  predicate BadKeyword(c: Call, f: Function, classFunc: bool, kw: string)
  {
    PositionOnly(f, kw) || Unexpected(c, f, classFunc, kw)
  }

  /** A required parameter that the call leaves without a value, where the
      call's spreads cannot be taken to supply it: a call with neither spread
      supplies nothing more, `**` is needed for a keyword-only parameter and
      `*` for a positional-only one. */
  predicate Unfilled(c: Call, a: Argument, filled: set<string>)
  {
    && Ordinary(a)
    && a.default.None?
    && a.name !in filled
    && ((!c.additionalKwargs && !c.starargs)
        || (a.kwOnly && !c.additionalKwargs)
        || (a.posOnly && !c.starargs))
  }

  /** The parameters the call fills: positionally and by keyword. */
  function Filled(c: Call, f: Function, classFunc: bool): set<string>
  {
    Bound(c, f, classFunc) + c.kwargs
  }

  /** The call fits the signature. */
  predicate Accepts(c: Call, f: Function, classFunc: bool)
  {
    && !TooManyPositional(c, f, classFunc)
    && (forall kw :: kw in c.kwargs ==> !BadKeyword(c, f, classFunc, kw))
    && (forall i :: 0 <= i < |f.args| ==> !Unfilled(c, f.args[i], Filled(c, f, classFunc)))
  }

  /** Why a call was refused; the source reports each as a message. */
  datatype Rejection =
    | TooManyPositionalArguments(slots: nat, given: nat)
    | PositionOnlyKeyword(kw: string)
    | UnexpectedKeyword(kw: string)
    | MissingArgument(name: string)

  /** `rej` is a reason the matcher can give for refusing `c`: the checks run
      in the order positional count, keywords, required parameters, and a
      missing parameter is the first one in the parameter list. Which bad
      keyword is named depends on the iteration order of the keyword set. */
  predicate Explains(c: Call, f: Function, classFunc: bool, rej: Rejection)
  {
    match rej
    case TooManyPositionalArguments(slots, given) =>
      TooManyPositional(c, f, classFunc)
      && slots == |SlotsOf(f.args).positional| && given == Given(c, classFunc)
    case PositionOnlyKeyword(kw) =>
      !TooManyPositional(c, f, classFunc) && kw in c.kwargs && PositionOnly(f, kw)
    case UnexpectedKeyword(kw) =>
      !TooManyPositional(c, f, classFunc) && kw in c.kwargs && !PositionOnly(f, kw)
      && Unexpected(c, f, classFunc, kw)
    case MissingArgument(name) =>
      && !TooManyPositional(c, f, classFunc)
      && (forall kw :: kw in c.kwargs ==> !BadKeyword(c, f, classFunc, kw))
      && exists i :: 0 <= i < |f.args| && FirstUnfilled(c, f, classFunc, i) && f.args[i].name == name
  }

  /** Parameter `i` is the leftmost one the call leaves unfilled. */
  predicate FirstUnfilled(c: Call, f: Function, classFunc: bool, i: int)
  {
    && 0 <= i < |f.args|
    && Unfilled(c, f.args[i], Filled(c, f, classFunc))
    && forall j :: 0 <= j < i ==> !Unfilled(c, f.args[j], Filled(c, f, classFunc))
  }

  /** `Call.match`: `None` when the call fits, otherwise the reason it does not. */
  method MatchCall(c: Call, f: Function, classFunc: bool) returns (r: Option<Rejection>)
    ensures r.None? <==> Accepts(c, f, classFunc)
    ensures r.Some? ==> Explains(c, f, classFunc, r.value)
  {
    var given := if classFunc then c.args + 1 else c.args;
    var s := ReadSlots(f.args);
    if given > |s.positional| && !s.varargs {
      return Some(TooManyPositionalArguments(|s.positional|, given));
    }
    var bound := set n | n in s.positional[..Min(given, |s.positional|)];
    var filled;
    r, filled := CheckKeywords(c, f, classFunc, s, bound);
    if r.Some? {
      return;
    }
    r := FindMissing(c, f, classFunc, filled);
  }

  /** The first loop of `Call.match`: the slots of the parameter list. */
  method ReadSlots(args: seq<Argument>) returns (s: Slots)
    ensures s == SlotsOf(args)
  {
    var positional: seq<string> := [];
    var keyword: set<string> := {};
    var positionalOnly: seq<string> := [];
    var varargs, varkw := false, false;
    for i := 0 to |args|
      invariant Slots(positional, keyword, positionalOnly, varargs, varkw) == SlotsOf(args[..i])
    {
      var a := args[i];
      if !a.kwarg && !a.vararg && !a.kwOnly {
        positional := positional + [a.name];
      }
      if !a.kwarg && !a.vararg && !a.posOnly {
        keyword := keyword + {a.name};
      }
      if a.posOnly {
        positionalOnly := positionalOnly + [a.name];
      }
      if a.vararg {
        varargs := true;
      }
      if a.kwarg {
        varkw := true;
      }
      assert args[..i + 1][..i] == args[..i];
    }
    assert args[..|args|] == args;
    s := Slots(positional, keyword, positionalOnly, varargs, varkw);
  }

  /** `BadKeyword`, stated on the slots and the bound names already computed. */
  predicate Refused(s: Slots, bound: set<string>, kw: string)
  {
    kw in s.positionalOnly || (kw !in s.keyword - bound && !s.varkw)
  }

  /** The keyword loop of `Call.match`: every keyword must name a parameter
      that is not positional-only and not already filled positionally, unless
      `**kwargs` takes it. On success every keyword counts as filled. */
  method CheckKeywords(c: Call, f: Function, classFunc: bool, s: Slots, bound: set<string>)
    returns (r: Option<Rejection>, filled: set<string>)
    requires s == SlotsOf(f.args) && bound == Bound(c, f, classFunc)
    requires !TooManyPositional(c, f, classFunc)
    ensures r.None? <==> forall kw :: kw in c.kwargs ==> !BadKeyword(c, f, classFunc, kw)
    ensures r.None? ==> filled == Filled(c, f, classFunc)
    ensures r.Some? ==> Explains(c, f, classFunc, r.value)
  {
    r, filled := KeywordLoop(c.kwargs, s, bound);
    if r.None? {
      forall kw | kw in c.kwargs ensures !BadKeyword(c, f, classFunc, kw) {
        assert !Refused(s, bound, kw);
      }
    }
  }

  /** The loop itself, on the slots and the names bound positionally: it stops
      at the first keyword refused, and otherwise adds every keyword to them. */
  method KeywordLoop(kwargs: set<string>, s: Slots, bound: set<string>)
    returns (r: Option<Rejection>, filled: set<string>)
    ensures r.None? <==> forall kw :: kw in kwargs ==> !Refused(s, bound, kw)
    ensures r.None? ==> filled == bound + kwargs
    ensures r.Some? ==> r.value.PositionOnlyKeyword? || r.value.UnexpectedKeyword?
    ensures r.Some? && r.value.PositionOnlyKeyword? ==> r.value.kw in kwargs && r.value.kw in s.positionalOnly
    ensures r.Some? && r.value.UnexpectedKeyword? ==>
      r.value.kw in kwargs && r.value.kw !in s.positionalOnly && r.value.kw !in s.keyword - bound && !s.varkw
  {
    var allowed := s.keyword - bound;
    filled := bound;
    var remaining := kwargs;
    while remaining != {}
      invariant remaining <= kwargs
      invariant filled == bound + (kwargs - remaining)
      invariant forall kw :: kw in kwargs && kw !in remaining ==> !Refused(s, bound, kw)
      decreases |remaining|
    {
      var kw :| kw in remaining;
      if kw in s.positionalOnly {
        return Some(PositionOnlyKeyword(kw)), filled;
      }
      if kw !in allowed && !s.varkw {
        return Some(UnexpectedKeyword(kw)), filled;
      }
      filled := filled + {kw};
      remaining := remaining - {kw};
    }
    return None, filled;
  }

  /** The last loop of `Call.match`: the first required parameter left unfilled. */
  method FindMissing(c: Call, f: Function, classFunc: bool, filled: set<string>)
    returns (r: Option<Rejection>)
    requires filled == Filled(c, f, classFunc)
    requires !TooManyPositional(c, f, classFunc)
    requires forall kw :: kw in c.kwargs ==> !BadKeyword(c, f, classFunc, kw)
    ensures r.None? <==> Accepts(c, f, classFunc)
    ensures r.Some? ==> Explains(c, f, classFunc, r.value)
  {
    for i := 0 to |f.args|
      invariant forall j :: 0 <= j < i ==> !Unfilled(c, f.args[j], filled)
    {
      var a := f.args[i];
      if a.kwarg || a.vararg {
        continue;
      }
      if a.default.None? && a.name !in filled {
        if (!c.additionalKwargs && !c.starargs) || (a.kwOnly && !c.additionalKwargs) || (a.posOnly && !c.starargs) {
          assert FirstUnfilled(c, f, classFunc, i);
          return Some(MissingArgument(a.name));
        }
      }
    }
    return None;
  }

  // ---------------------------------------------------------------------------
  // Properties of matching

  /** A method called on an object matches exactly as the plain function does
      with the object passed as one more positional value. */
  lemma ClassFuncIsOneMorePositional(c: Call, f: Function)
    ensures Accepts(c, f, true) <==> Accepts(c.(args := c.args + 1), f, false)
  {
    assert Given(c, true) == Given(c.(args := c.args + 1), false);
    assert Bound(c, f, true) == Bound(c.(args := c.args + 1), f, false);
  }

  /** A keyword naming a positional-only parameter is always refused. */
  lemma PositionOnlyKeywordRefused(c: Call, f: Function, classFunc: bool, a: Argument)
    requires a in f.args && a.posOnly && a.name in c.kwargs
    ensures !Accepts(c, f, classFunc)
  {
    SlotsMeaning(f.args, a.name);
    assert BadKeyword(c, f, classFunc, a.name);
  }

  /** More positional values than parameters that take them, without `*args`, are refused. */
  lemma TooManyPositionalRefused(c: Call, f: Function, classFunc: bool)
    requires Given(c, classFunc) > CountPositional(f.args)
    requires forall a :: a in f.args ==> !a.vararg
    ensures !Accepts(c, f, classFunc)
  {
    PositionalSlotsCount(f.args);
    SlotsMeaning(f.args, "");
  }

  /** A call passing one positional value per positional parameter and nothing
      else is accepted whenever every keyword-only parameter has a default. */
  lemma FullPositionalCallAccepted(c: Call, f: Function)
    requires c.args == CountPositional(f.args) && c.kwargs == {}
    requires forall a :: a in f.args && a.kwOnly ==> a.default.Some?
    ensures Accepts(c, f, false)
  {
    var pos := SlotsOf(f.args).positional;
    PositionalSlotsCount(f.args);
    assert pos[..Min(Given(c, false), |pos|)] == pos;
    forall i | 0 <= i < |f.args|
      ensures !Unfilled(c, f.args[i], Filled(c, f, false))
    {
      var a := f.args[i];
      SlotsMeaning(f.args, a.name);
      if Ordinary(a) && !a.kwOnly {
        assert a.name in pos;
      }
    }
  }

  /** A call that spreads both `*` and `**` and names nothing else fits any
      function (called as a plain function). */
  lemma SpreadCallAccepted(name: string, f: Function)
    ensures Accepts(Call(name, 0, {}, true, true), f, false)
  {
  }

  /** A `*` spread excuses every missing parameter except keyword-only ones,
      and a `**` spread every one except positional-only ones. */
  lemma SpreadExcusesMissing(c: Call, f: Function, filled: set<string>)
    requires (c.starargs && forall a :: a in f.args ==> !a.kwOnly)
          || (c.additionalKwargs && forall a :: a in f.args ==> !a.posOnly)
    ensures forall i :: 0 <= i < |f.args| ==> !Unfilled(c, f.args[i], filled)
  {
    forall i | 0 <= i < |f.args|
      ensures !Unfilled(c, f.args[i], filled)
    {
      assert f.args[i] in f.args;
    }
  }

  /** Spreading more never turns an accepted call into a refused one. */
  lemma SpreadingKeepsAcceptance(c: Call, f: Function, classFunc: bool)
    requires Accepts(c, f, classFunc)
    ensures Accepts(c.(starargs := true), f, classFunc)
    ensures Accepts(c.(additionalKwargs := true), f, classFunc)
  {
    assert Filled(c.(starargs := true), f, classFunc) == Filled(c, f, classFunc);
    assert Filled(c.(additionalKwargs := true), f, classFunc) == Filled(c, f, classFunc);
  }

  // ---------------------------------------------------------------------------
  // The signatures and calls of the matcher's own examples

  /** `def f(): pass` */
  const NoParameters := Function("f", [], None, [], false)

  /** `def f(**kwargs): pass` */
  const OnlyKeywordSpread := Function("f", [Argument("kwargs", None, None, false, false, false, true)], None, [], false)

  /** `def f(a, b, c, d=3, e=4, f=6): pass` */
  const ThreeRequired := Function("f", [
    Argument("a", None, None, false, false, false, false),
    Argument("b", None, None, false, false, false, false),
    Argument("c", None, None, false, false, false, false),
    Argument("d", None, Some("3"), false, false, false, false),
    Argument("e", None, Some("4"), false, false, false, false),
    Argument("f", None, Some("6"), false, false, false, false)], None, [], false)

  /** `def f(a: "annotation", /, b=1, c=2, *d, e: Type, f=k, **g) -> "return annotation": pass` */
  const EveryKind := Function("f", [
    Argument("a", Some("'annotation'"), None, true, false, false, false),
    Argument("b", None, Some("1"), false, false, false, false),
    Argument("c", None, Some("2"), false, false, false, false),
    Argument("d", None, None, false, false, true, false),
    Argument("e", Some("Type"), None, false, true, false, false),
    Argument("f", None, Some("k"), false, true, false, false),
    Argument("g", None, None, false, false, false, true)], Some("'return annotation'"), [], false)

  /** The calls `f()`, `f(*)`, `f(a=*)`, `f(**)` and `f(^^^)` against the first two signatures. */
  lemma NoParameterExamples()
    ensures Accepts(Call("f", 0, {}, false, false), NoParameters, false)
    ensures !Accepts(Call("f", 1, {}, false, false), NoParameters, false)
    ensures !Accepts(Call("f", 0, {"a"}, false, false), NoParameters, false)
    ensures Accepts(Call("f", 0, {}, false, true), NoParameters, false)
    ensures Accepts(Call("f", 0, {}, true, false), NoParameters, false)
    ensures Accepts(Call("f", 0, {}, false, false), OnlyKeywordSpread, false)
    ensures !Accepts(Call("f", 1, {}, false, false), OnlyKeywordSpread, false)
    ensures Accepts(Call("f", 0, {"a"}, false, false), OnlyKeywordSpread, false)
    ensures Accepts(Call("f", 0, {}, false, true), OnlyKeywordSpread, false)
    ensures Accepts(Call("f", 0, {}, true, false), OnlyKeywordSpread, false)
  {
    assert SlotsOf(NoParameters.args) == NoSlots;
    assert OnlyKeywordSpread.args[..0] == [];
    assert SlotsOf(OnlyKeywordSpread.args) == Slots([], {}, [], false, true);
  }

  /** One more parameter read by `SlotsOf`. */
  lemma SlotsPrefix(args: seq<Argument>, k: nat)
    requires k < |args|
    ensures SlotsOf(args[..k + 1]) == SlotStep(SlotsOf(args[..k]), args[k])
  {
    assert args[..k + 1][..k] == args[..k];
  }

  /** A parameter list of plain parameters (no `/`, `*` or `**`): every one is a positional and a keyword slot. */
  lemma StandardSlots(args: seq<Argument>, names: seq<string>)
    requires |args| == |names|
    requires forall i :: 0 <= i < |args| ==>
      args[i].name == names[i] && Ordinary(args[i]) && !args[i].kwOnly && !args[i].posOnly
    ensures SlotsOf(args).positional == names && SlotsOf(args).positionalOnly == []
    ensures !SlotsOf(args).varargs && !SlotsOf(args).varkw
    ensures forall n :: n in SlotsOf(args).keyword <==> n in names
  {
    StandardPositional(args, names);
    StandardKeyword(args, names);
  }

  /** Plain parameters are positional slots in order, and none is positional-only or a spread. */
  lemma {:induction false} StandardPositional(args: seq<Argument>, names: seq<string>)
    requires |args| == |names|
    requires forall i :: 0 <= i < |args| ==>
      args[i].name == names[i] && Ordinary(args[i]) && !args[i].kwOnly && !args[i].posOnly
    ensures SlotsOf(args).positional == names && SlotsOf(args).positionalOnly == []
    ensures !SlotsOf(args).varargs && !SlotsOf(args).varkw
    decreases |args|
  {
    if |args| > 0 {
      var k := |args| - 1;
      assert forall i :: 0 <= i < k ==> args[..k][i] == args[i] && names[..k][i] == names[i];
      StandardPositional(args[..k], names[..k]);
      StandardStep(SlotsOf(args[..k]), args[k]);
      assert names == names[..k] + [names[k]];
    }
  }

  /** Plain parameters are keyword slots, by name. */
  lemma {:induction false} StandardKeyword(args: seq<Argument>, names: seq<string>)
    requires |args| == |names|
    requires forall i :: 0 <= i < |args| ==>
      args[i].name == names[i] && Ordinary(args[i]) && !args[i].kwOnly && !args[i].posOnly
    ensures forall n :: n in SlotsOf(args).keyword <==> n in names
    decreases |args|
  {
    if |args| > 0 {
      var k := |args| - 1;
      assert forall i :: 0 <= i < k ==> args[..k][i] == args[i] && names[..k][i] == names[i];
      StandardKeyword(args[..k], names[..k]);
      StandardStep(SlotsOf(args[..k]), args[k]);
      assert names == names[..k] + [names[k]];
      MemberSnoc(names[..k], names[k]);
    }
  }

  /** A plain parameter adds its name to the positional and the keyword slots only. */
  lemma StandardStep(s: Slots, a: Argument)
    requires Ordinary(a) && !a.kwOnly && !a.posOnly
    ensures SlotStep(s, a) == Slots(s.positional + [a.name], s.keyword + {a.name}, s.positionalOnly, s.varargs, s.varkw)
  {
  }

  /** Membership in a sequence extended by one element. */
  lemma MemberSnoc(xs: seq<string>, x: string)
    ensures forall n :: n in xs + [x] <==> n in xs || n == x
  {
  }

  lemma ThreeRequiredSlots()
    ensures SlotsOf(ThreeRequired.args) == Slots(["a", "b", "c", "d", "e", "f"], {"a", "b", "c", "d", "e", "f"}, [], false, false)
  {
    var names := ["a", "b", "c", "d", "e", "f"];
    StandardSlots(ThreeRequired.args, names);
    assert SlotsOf(ThreeRequired.args).keyword == {"a", "b", "c", "d", "e", "f"};
  }

  /** Positional calls against `def f(a, b, c, d=3, e=4, f=6)`: `f(*)` and `f(*,*,*)`. */
  lemma ThreeRequiredPositional()
    ensures !Accepts(Call("f", 1, {}, false, false), ThreeRequired, false)
    ensures Accepts(Call("f", 3, {}, false, false), ThreeRequired, false)
  {
    OnePositionalLeavesB();
    ThreePositionalFillRequired();
  }

  /** `f(*)` binds only `a`, so the required `b` stays unfilled. */
  lemma OnePositionalLeavesB()
    ensures !Accepts(Call("f", 1, {}, false, false), ThreeRequired, false)
  {
    ThreeRequiredSlots();
    var c := Call("f", 1, {}, false, false);
    var pos := ["a", "b", "c", "d", "e", "f"];
    assert pos[..1] == ["a"];
    assert "b" !in Filled(c, ThreeRequired, false);
    assert Unfilled(c, ThreeRequired.args[1], Filled(c, ThreeRequired, false));
  }

  /** `f(*,*,*)` binds `a`, `b` and `c`; the rest have defaults. */
  lemma ThreePositionalFillRequired()
    ensures Accepts(Call("f", 3, {}, false, false), ThreeRequired, false)
  {
    ThreeRequiredSlots();
    var c := Call("f", 3, {}, false, false);
    var pos := ["a", "b", "c", "d", "e", "f"];
    assert pos[..3] == ["a", "b", "c"];
    var filled := Filled(c, ThreeRequired, false);
    assert "a" in filled && "b" in filled && "c" in filled;
    forall i | 0 <= i < |ThreeRequired.args|
      ensures !Unfilled(c, ThreeRequired.args[i], filled)
    {
    }
  }

  /** `f(*,*,*,*,*,*)` fills every parameter; `f(*,*,*,*,*,*,*)` is one too many. */
  lemma ThreeRequiredAllPositional()
    ensures Accepts(Call("f", 6, {}, false, false), ThreeRequired, false)
    ensures !Accepts(Call("f", 7, {}, false, false), ThreeRequired, false)
  {
    ThreeRequiredSlots();
    PositionalSlotsCount(ThreeRequired.args);
    FullPositionalCallAccepted(Call("f", 6, {}, false, false), ThreeRequired);
    TooManyPositionalRefused(Call("f", 7, {}, false, false), ThreeRequired, false);
  }

  /** Spreading calls against the same signature: `f(*,^^^)` and `f(**)`. */
  lemma ThreeRequiredSpread()
    ensures Accepts(Call("f", 1, {}, true, false), ThreeRequired, false)
    ensures Accepts(Call("f", 0, {}, false, true), ThreeRequired, false)
  {
    ThreeRequiredSlots();
    SpreadExcusesMissing(Call("f", 1, {}, true, false), ThreeRequired, Filled(Call("f", 1, {}, true, false), ThreeRequired, false));
    SpreadExcusesMissing(Call("f", 0, {}, false, true), ThreeRequired, Filled(Call("f", 0, {}, false, true), ThreeRequired, false));
  }

  /** Keyword calls against the same signature: `f(*,*,a=*,**)`, `f(k=*)` and `f(a=*,b=*,c=*)`. */
  lemma ThreeRequiredKeywords()
    ensures !Accepts(Call("f", 2, {"a"}, false, true), ThreeRequired, false)
    ensures !Accepts(Call("f", 0, {"k"}, false, false), ThreeRequired, false)
    ensures Accepts(Call("f", 0, {"a", "b", "c"}, false, false), ThreeRequired, false)
  {
    KeywordAlreadyBound();
    UnknownKeyword();
    RequiredByKeyword();
  }

  /** `f(*,*,a=*,**)`: `a` is already filled by position. */
  lemma KeywordAlreadyBound()
    ensures !Accepts(Call("f", 2, {"a"}, false, true), ThreeRequired, false)
  {
    ThreeRequiredSlots();
    var pos := ["a", "b", "c", "d", "e", "f"];
    assert pos[..2] == ["a", "b"];
    assert BadKeyword(Call("f", 2, {"a"}, false, true), ThreeRequired, false, "a");
  }

  /** `f(k=*)`: no parameter is called `k`. */
  lemma UnknownKeyword()
    ensures !Accepts(Call("f", 0, {"k"}, false, false), ThreeRequired, false)
  {
    ThreeRequiredSlots();
    var pos := ["a", "b", "c", "d", "e", "f"];
    assert pos[..0] == [];
    assert BadKeyword(Call("f", 0, {"k"}, false, false), ThreeRequired, false, "k");
  }

  /** `f(a=*,b=*,c=*)`: the required parameters are filled by keyword. */
  lemma RequiredByKeyword()
    ensures Accepts(Call("f", 0, {"a", "b", "c"}, false, false), ThreeRequired, false)
  {
    ThreeRequiredSlots();
    var pos := ["a", "b", "c", "d", "e", "f"];
    assert pos[..0] == [];
  }


  lemma EveryKindSlots()
    ensures SlotsOf(EveryKind.args) == Slots(["a", "b", "c"], {"b", "c", "e", "f"}, ["a"], true, true)
  {
    var args := EveryKind.args;
    EveryKindMiddleSlots();
    SlotsPrefix(args, 5);
    assert SlotsOf(args[..6]) == Slots(["a", "b", "c"], {"b", "c", "e", "f"}, ["a"], true, false);
    SlotsPrefix(args, 6);
    assert args[..7] == args;
  }

  /** The slots of `EveryKind` up to and including `e: Type`. */
  lemma EveryKindMiddleSlots()
    ensures SlotsOf(EveryKind.args[..5]) == Slots(["a", "b", "c"], {"b", "c", "e"}, ["a"], true, false)
  {
    var args := EveryKind.args;
    EveryKindPositionalSlots();
    SlotsPrefix(args, 3);
    assert SlotsOf(args[..4]) == Slots(["a", "b", "c"], {"b", "c"}, ["a"], true, false);
    SlotsPrefix(args, 4);
  }

  /** The slots of `a: "annotation", /, b=1, c=2`, the first three parameters of `EveryKind`. */
  lemma EveryKindPositionalSlots()
    ensures SlotsOf(EveryKind.args[..3]) == Slots(["a", "b", "c"], {"b", "c"}, ["a"], false, false)
  {
    var args := EveryKind.args;
    assert args[..0] == [];
    SlotsPrefix(args, 0);
    assert SlotsOf(args[..1]) == Slots(["a"], {}, ["a"], false, false);
    SlotsPrefix(args, 1);
    assert SlotsOf(args[..2]) == Slots(["a", "b"], {"b"}, ["a"], false, false);
    SlotsPrefix(args, 2);
  }

  /** The calls against `def f(a: "annotation", /, b=1, c=2, *d, e: Type, f=k, **g)`:
      `f(*)`, `f(*,*,*,e=*)` and `f(*,*,*,*,e=*)`. */
  lemma EveryKindExamples()
    ensures !Accepts(Call("f", 1, {}, false, false), EveryKind, false)
    ensures Accepts(Call("f", 3, {"e"}, false, false), EveryKind, false)
    ensures Accepts(Call("f", 4, {"e"}, false, false), EveryKind, false)
  {
    EveryKindOnePositional();
    EveryKindPositionalAndKeyword(3);
    EveryKindPositionalAndKeyword(4);
  }

  /** `f(*)` leaves the required keyword-only `e` unfilled. */
  lemma EveryKindOnePositional()
    ensures !Accepts(Call("f", 1, {}, false, false), EveryKind, false)
  {
    EveryKindSlots();
    var pos := ["a", "b", "c"];
    assert pos[..1] == ["a"];
    assert Unfilled(Call("f", 1, {}, false, false), EveryKind.args[4], Filled(Call("f", 1, {}, false, false), EveryKind, false));
  }

  /** Three positional values, or more taken by `*d`, with `e=*`. */
  lemma EveryKindPositionalAndKeyword(n: nat)
    requires n == 3 || n == 4
    ensures Accepts(Call("f", n, {"e"}, false, false), EveryKind, false)
  {
    EveryKindSlots();
    var pos := ["a", "b", "c"];
    assert pos[..3] == pos;
  }

  /** `f(*,*,^^^,e=*)` against the same function is accepted. */
  lemma EveryKindSpread()
    ensures Accepts(Call("f", 2, {"e"}, true, false), EveryKind, false)
  {
    EveryKindSlots();
    var pos := ["a", "b", "c"];
    assert pos[..2] == ["a", "b"];
  }
}
