/** The client side's view of one call site: the call shape (`Call`), its
    canonical text, the text the source visitor records for a call expression
    (`_parse_call`), the parser that turns recorded text back into access-chain
    items (`AccessChain._from_str`), and the binding simulator that decides
    whether a call shape fits a function signature (`Call.match`). */
module Calls {
  import opened Wrappers
  import opened Text
  import opened Entity

  /** A call shape: the callee's name, how many plain positional arguments,
      which keywords are written out, whether `*args` and whether `**kwargs`
      are spread into it. */
  datatype Call = Call(name: string, args: nat, kwargs: set<string>, starargs: bool, additionalKwargs: bool)

  /** One element of an access chain: an attribute name or a call. */
  datatype Item = Attr(attr: string) | Invoke(call: Call)

  // ---------------------------------------------------------------------------
  // Canonical text

  function Repeat(x: string, n: nat): (r: seq<string>)
    ensures |r| == n && forall i :: 0 <= i < n ==> r[i] == x
  {
    seq(n, _ => x)
  }

  /** `k=*` for each keyword name, in the given order. */
  function KeywordItems(ks: seq<string>): (r: seq<string>)
    ensures |r| == |ks| && forall i :: 0 <= i < |ks| ==> r[i] == ks[i] + "=*"
  {
    seq(|ks|, i requires 0 <= i < |ks| => ks[i] + "=*")
  }

  /** The pieces of `str(call)` between the parentheses: one `*` per positional
      argument, `...` for a spread `*args`, the keywords in sorted order, `**`. */
  function CallItems(c: Call): seq<string>
  {
    Repeat("*", c.args) + (if c.starargs then ["..."] else [])
    + KeywordItems(SortedStrings(c.kwargs)) + (if c.additionalKwargs then ["**"] else [])
  }

  /** `str(call)`; equality and hashing of calls go by this text. */
  function CallText(c: Call): string
  {
    c.name + "(" + Join(CallItems(c), ",") + ")"
  }

  function ItemName(it: Item): string
  {
    match it
    case Attr(a) => a
    case Invoke(c) => c.name
  }

  /** `str(item)` for an element of a chain. */
  function ItemText(it: Item): string
  {
    match it
    case Attr(a) => a
    case Invoke(c) => CallText(c)
  }

  // ---------------------------------------------------------------------------
  // The text the source visitor records (`_parse`, `_parse_call`)

  /** The expressions the client visitor reads; `args` of a call holds, per
      positional argument, whether it is starred, and `keywords` holds each
      keyword argument's name, `None` for a `**` spread. `Other` is any other
      expression, kept as its source text. */
  datatype Expr =
    | Name(id: string)
    | Attribute(value: Expr, attr: string)
    | CallExpr(func: Expr, args: seq<bool>, keywords: seq<Option<string>>)
    | Other(text: string)

  /** The number of arguments that are not starred. */
  function PlainCount(args: seq<bool>): (n: nat)
    ensures n <= |args|
    ensures n == |args| <==> true !in args
  {
    if |args| == 0 then 0 else (if args[0] then 0 else 1) + PlainCount(args[1..])
  }

  /** The names of the named keyword arguments, in order. */
  function Named(kws: seq<Option<string>>): (r: seq<string>)
    ensures forall k :: k in r <==> Some(k) in kws
  {
    if |kws| == 0 then []
    else (if kws[0].Some? then [kws[0].value] else []) + Named(kws[1..])
  }

  /** The names of the named keyword arguments, as a set. */
  function KeywordNames(kws: seq<Option<string>>): (r: set<string>)
    ensures forall k :: k in r <==> Some(k) in kws
  {
    set k | k in Named(kws)
  }

  /** The pieces `_parse_call` writes between the parentheses: `*` per plain
      argument, `^^^` if any argument is starred, `k=*` per named keyword in
      order, `**` if any keyword is a `**` spread. */
  function CallExprItems(args: seq<bool>, kws: seq<Option<string>>): seq<string>
  {
    Repeat("*", PlainCount(args)) + (if true in args then ["^^^"] else [])
    + KeywordItems(Named(kws)) + (if None in kws then ["**"] else [])
  }

  /** `_parse`: the dotted text of an expression, calls written by `_parse_call`. */
  function ExprText(e: Expr): string
  {
    match e
    case Name(id) => id
    case Attribute(v, a) => ExprText(v) + "." + a
    case CallExpr(f, args, kws) => ExprText(f) + "(" + Join(CallExprItems(args, kws), ",") + ")"
    case Other(text) => text
  }

  // ---------------------------------------------------------------------------
  // Parsing recorded text (`AccessChain._from_str`)

  /** What has been counted so far while reading an argument list. */
  datatype Tally = Tally(args: nat, kwargs: set<string>, additionalKwargs: bool, starargs: bool)

  const NoArguments := Tally(0, {}, false, false)

  /** One comma-separated piece: empty pieces are skipped, `=` marks a keyword
      (the text before the first `=`), `**` a keyword spread, `^^^` a starred
      argument, and anything else counts as one positional argument. */
  function TallyStep(t: Tally, piece: string): Tally
  {
    if piece == "" then t
    else if '=' in piece then t.(kwargs := t.kwargs + {Split(piece, '=')[0]})
    else if IsSubstring("**", piece) then t.(additionalKwargs := true)
    else if IsSubstring("^^^", piece) then t.(starargs := true)
    else t.(args := t.args + 1)
  }

  function TallyFrom(t: Tally, pieces: seq<string>): Tally
    decreases |pieces|
  {
    if |pieces| == 0 then t
    else TallyStep(TallyFrom(t, pieces[..|pieces| - 1]), pieces[|pieces| - 1])
  }

  /** `item.split("(")[1]` on an item that ends in `)` but holds no `(`. */
  datatype ParseError = IndexError

  /** One dot-separated item: a call when it ends in `)`, else an attribute. The
      argument text is the second `(`-piece without its last character. */
  function ParseItem(item: string): (r: Result<Item, ParseError>)
    ensures r.Err? <==> EndsWith(item, ")") && '(' !in item
    ensures r.Ok? && r.value.Attr? ==> r.value.attr == item
  {
    if !EndsWith(item, ")") then Ok(Attr(item))
    else
      var parts := Split(item, '(');
      if |parts| < 2 then
        SplitOnePiece(item, '(');
        Err(IndexError)
      else
        SplitSeveralPieces(item, '(');
        var inner := parts[1];
        var t := TallyFrom(NoArguments, Split(if |inner| == 0 then "" else inner[..|inner| - 1], ','));
        Ok(Invoke(Call(parts[0], t.args, t.kwargs, t.starargs, t.additionalKwargs)))
  }

  function ParseItems(items: seq<string>): (r: Result<seq<Item>, ParseError>)
    ensures r.Ok? ==> |r.value| == |items|
    decreases |items|
  {
    if |items| == 0 then Ok([])
    else
      match ParseItems(items[..|items| - 1])
      case Err(e) => Err(e)
      case Ok(done) =>
        match ParseItem(items[|items| - 1])
        case Err(e) => Err(e)
        case Ok(it) => Ok(done + [it])
  }

  /** An access chain's items and the lines it was seen on. */
  datatype AccessChain = AccessChain(chain: seq<Item>, lineNums: set<nat>)

  /** `AccessChain._from_str`. */
  function FromText(s: string, lineNums: set<nat>): (r: Result<AccessChain, ParseError>)
    ensures r.Ok? ==> |r.value.chain| == |Split(s, '.')| >= 1 && r.value.lineNums == lineNums
  {
    match ParseItems(Split(s, '.'))
    case Err(e) => Err(e)
    case Ok(items) => Ok(AccessChain(items, lineNums))
  }

  /** A split with one piece gives back the whole string. */
  lemma SplitOnePiece(s: string, sep: char)
    requires |Split(s, sep)| == 1
    ensures Split(s, sep)[0] == s && sep !in s
  {
    JoinSplit(s, sep);
  }

  /** A split with several pieces means the separator occurs. */
  lemma SplitSeveralPieces(s: string, sep: char)
    requires |Split(s, sep)| >= 2
    ensures sep in s
  {
    if sep !in s {
      SplitWithoutSep(s, sep);
    }
  }

  /** `AccessChain._from_str` with its loops: over the dot-separated items and
      over the comma-separated pieces of each call's argument text. */
  method ParseChain(s: string, lineNums: set<nat>) returns (r: Result<AccessChain, ParseError>)
    ensures r == FromText(s, lineNums)
  {
    var items := Split(s, '.');
    var chain: seq<Item> := [];
    for i := 0 to |items|
      invariant ParseItems(items[..i]) == Ok(chain)
    {
      assert items[..i + 1][..i] == items[..i];
      var item := items[i];
      if EndsWith(item, ")") {
        var parts := Split(item, '(');
        if |parts| < 2 {
          assert ParseItem(item).Err?;
          assert items[..i + 1][i] == item;
          assert ParseItems(items) == Err(IndexError) by {
            assert |items[..i + 1]| == i + 1;
            assert ParseItems(items[..i + 1]).Err?;
            ParseItemsErrStays(items, i + 1);
          }
          return Err(IndexError);
        }
        var inner := parts[1];
        var argstrs := Split(if |inner| == 0 then "" else inner[..|inner| - 1], ',');
        var args: nat, kwargs: set<string>, additional, starargs := 0, {}, false, false;
        for j := 0 to |argstrs|
          invariant Tally(args, kwargs, additional, starargs) == TallyFrom(NoArguments, argstrs[..j])
        {
          assert argstrs[..j + 1][..j] == argstrs[..j];
          var argstr := argstrs[j];
          if argstr == "" {
            continue;
          } else if '=' in argstr {
            kwargs := kwargs + {Split(argstr, '=')[0]};
          } else if IsSubstring("**", argstr) {
            additional := true;
          } else if IsSubstring("^^^", argstr) {
            starargs := true;
          } else {
            args := args + 1;
          }
        }
        assert argstrs[..|argstrs|] == argstrs;
        chain := chain + [Invoke(Call(parts[0], args, kwargs, starargs, additional))];
      } else {
        chain := chain + [Attr(item)];
      }
    }
    assert items[..|items|] == items;
    return Ok(AccessChain(chain, lineNums));
  }

  /** Once a prefix of the items fails, the whole list fails. */
  lemma {:induction false} ParseItemsErrStays(items: seq<string>, n: nat)
    requires n <= |items| && ParseItems(items[..n]).Err?
    ensures ParseItems(items) == Err(IndexError)
    decreases |items| - n
  {
    if n < |items| {
      assert items[..n + 1][..n] == items[..n];
      ParseItemsErrStays(items, n + 1);
    } else {
      assert items[..n] == items;
      match ParseItems(items).error {
        case IndexError =>
      }
    }
  }

  // ---------------------------------------------------------------------------
  // Round trips

  /** Identifiers hold none of the characters the chain text uses as punctuation. */
  predicate Plain(s: string)
  {
    '.' !in s && '(' !in s && ')' !in s && ',' !in s && '=' !in s && '*' !in s && '^' !in s
  }

  lemma IdentifierIsPlain(s: string)
    requires IsIdentifier(s)
    ensures Plain(s)
  {
    forall c | c in s ensures c != '.' && c != '(' && c != ')' && c != ',' && c != '=' && c != '*' && c != '^' {
      var i :| 0 <= i < |s| && s[i] == c;
    }
  }

  lemma {:induction false} TallyFromAppend(t: Tally, p: seq<string>, q: seq<string>)
    ensures TallyFrom(t, p + q) == TallyFrom(TallyFrom(t, p), q)
    decreases |q|
  {
    if |q| == 0 {
      assert p + q == p;
    } else {
      assert (p + q)[..|p + q| - 1] == p + q[..|q| - 1];
      TallyFromAppend(t, p, q[..|q| - 1]);
    }
  }

  /** Each `*` counts one positional argument. */
  lemma {:induction false} TallyStars(t: Tally, n: nat)
    ensures TallyFrom(t, Repeat("*", n)) == t.(args := t.args + n)
  {
    if n > 0 {
      assert Repeat("*", n)[..n - 1] == Repeat("*", n - 1);
      TallyStars(t, n - 1);
      ShortNotSubstring("**", "*");
      ShortNotSubstring("^^^", "*");
    }
  }

  /** Each `k=*` names the keyword `k`. */
  lemma {:induction false} TallyKeywords(t: Tally, ks: seq<string>)
    requires forall k :: k in ks ==> Plain(k)
    ensures TallyFrom(t, KeywordItems(ks)) == t.(kwargs := t.kwargs + set k | k in ks)
    decreases |ks|
  {
    if |ks| == 0 {
      assert (set k | k in ks) == {};
    } else {
      var n := |ks| - 1;
      var k := ks[n];
      var items := KeywordItems(ks);
      assert items[..n] == KeywordItems(ks[..n]);
      assert TallyFrom(t, items) == TallyStep(TallyFrom(t, items[..n]), k + "=*");
      TallyKeywords(t, ks[..n]);
      assert k in ks;
      KeywordStep(TallyFrom(t, KeywordItems(ks[..n])), k);
      LastJoinsSet(ks[..n], k);
      assert ks[..n] + [k] == ks;
    }
  }

  /** The names of a list with one more element at its end. */
  lemma LastJoinsSet(init: seq<string>, k: string)
    ensures (set x | x in init) + {k} == set x | x in init + [k]
  {
  }


  /** One `k=*` piece adds the keyword `k`. */
  lemma KeywordStep(t: Tally, k: string)
    requires Plain(k)
    ensures TallyStep(t, k + "=*") == t.(kwargs := t.kwargs + {k})
  {
    assert k + "=*" == k + ['='] + "*";
    SplitAround(k, "*", '=');
    SplitWithoutSep(k, '=');
    SplitWithoutSep("*", '=');
    assert Split(k + "=*", '=')[0] == k;
  }

  lemma TallyOne(t: Tally, piece: string)
    ensures piece == "..." ==> TallyFrom(t, [piece]) == t.(args := t.args + 1)
    ensures piece == "**" ==> TallyFrom(t, [piece]) == t.(additionalKwargs := true)
    ensures piece == "^^^" ==> TallyFrom(t, [piece]) == t.(starargs := true)
  {
    assert [piece][..0] == [];
    if piece == "..." {
      NotSubstring("**", piece);
      NotSubstring("^^^", piece);
    }
    if piece == "^^^" {
      NotSubstring("**", piece);
      assert "^^^" <= piece;
    }
    if piece == "**" {
      assert "**" <= piece;
    }
  }

  /** A character that occurs in no piece and not in the separator does not occur in the joined text. */
  lemma {:induction false} JoinAvoids(parts: seq<string>, sep: string, x: char)
    requires x !in sep && forall i :: 0 <= i < |parts| ==> x !in parts[i]
    ensures x !in Join(parts, sep)
  {
    if |parts| > 1 {
      JoinAvoids(parts[1..], sep, x);
    }
  }

  /** No piece holds the character `x`. */
  predicate Avoids(items: seq<string>, x: char)
  {
    forall i :: 0 <= i < |items| ==> x !in items[i]
  }

  /** A call item splits at `(` into the name and the rest. */
  lemma CallItemSplit(name: string, j: string)
    requires '(' !in name && '(' !in j
    ensures Split(name + "(" + j + ")", '(') == [name, j + ")"]
  {
    assert name + "(" + j + ")" == name + ['('] + (j + ")");
    SplitAround(name, j + ")", '(');
    SplitWithoutSep(name, '(');
    SplitWithoutSep(j + ")", '(');
  }

  /** A call item is read as a call over the comma-separated pieces of its argument text. */
  lemma ParseCallText(name: string, j: string)
    requires '(' !in name && '(' !in j
    ensures ParseItem(name + "(" + j + ")")
            == var t := TallyFrom(NoArguments, Split(j, ','));
               Ok(Invoke(Call(name, t.args, t.kwargs, t.starargs, t.additionalKwargs)))
  {
    var item := name + "(" + j + ")";
    CallItemSplit(name, j);
    assert EndsWith(item, ")");
    assert (j + ")")[..|j + ")"| - 1] == j;
  }

  /** Splitting joined pieces gives back pieces that count the same. */
  lemma TallyOfJoined(items: seq<string>)
    requires Avoids(items, ',')
    ensures TallyFrom(NoArguments, Split(Join(items, ","), ',')) == TallyFrom(NoArguments, items)
  {
    if |items| == 0 {
      assert Split("", ',') == [""];
      assert [""][..0] == [];
    } else {
      SplitJoin(items, ',');
    }
  }

  /** A call item with a plain name and pieces free of `(` and `,` parses to a
      call counted piece by piece. */
  lemma ParseCallItem(name: string, items: seq<string>)
    requires '(' !in name
    requires Avoids(items, '(') && Avoids(items, ',')
    ensures ParseItem(name + "(" + Join(items, ",") + ")")
            == var t := TallyFrom(NoArguments, items);
               Ok(Invoke(Call(name, t.args, t.kwargs, t.starargs, t.additionalKwargs)))
  {
    JoinAvoids(items, ",", '(');
    ParseCallText(name, Join(items, ","));
    TallyOfJoined(items);
  }

  lemma {:induction false} AvoidsAppend(a: seq<string>, b: seq<string>, x: char)
    requires Avoids(a, x) && Avoids(b, x)
    ensures Avoids(a + b, x)
  {
    forall i | 0 <= i < |a + b| ensures x !in (a + b)[i] {
      if i < |a| {
        assert (a + b)[i] == a[i];
      } else {
        assert (a + b)[i] == b[i - |a|];
      }
    }
  }

  /** `k=*` pieces avoid what the keywords avoid, other than `=` and `*`. */
  lemma KeywordItemsAvoid(ks: seq<string>, x: char)
    requires x != '=' && x != '*'
    requires forall k :: k in ks ==> x !in k
    ensures Avoids(KeywordItems(ks), x)
  {
    forall i | 0 <= i < |ks| ensures x !in ks[i] + "=*" {
      assert ks[i] in ks;
    }
  }

  /** The items of a call shape hold no `(` and no `,` when its keywords are plain. */
  lemma CallItemsAvoid(c: Call, x: char)
    requires x == '(' || x == ','
    requires forall k :: k in c.kwargs ==> Plain(k)
    ensures Avoids(CallItems(c), x)
  {
    var stars := Repeat("*", c.args);
    var dots: seq<string> := if c.starargs then ["..."] else [];
    var keys := KeywordItems(SortedStrings(c.kwargs));
    var spread: seq<string> := if c.additionalKwargs then ["**"] else [];
    assert CallItems(c) == stars + dots + keys + spread;
    assert Avoids(stars, x) && Avoids(dots, x) && Avoids(spread, x);
    var sorted := SortedStrings(c.kwargs);
    assert forall k :: k in sorted ==> x !in k by {
      forall k | k in sorted ensures x !in k {
        assert Plain(k);
      }
    }
    KeywordItemsAvoid(sorted, x);
    AvoidsAppend(stars, dots, x);
    AvoidsAppend(stars + dots, keys, x);
    AvoidsAppend(stars + dots + keys, spread, x);
  }

  /** The item parser applied to `str(call)` alone restores the name, the
      keywords and the `**` flag. The `...` that stands for a spread `*args` is
      read back as one more positional argument, so the starred flag is not
      restored; the whole-chain parse fails on it instead
      (`StarredCallTextUnreadable`). */
  lemma CallTextRoundTrip(c: Call)
    requires '(' !in c.name
    requires forall k :: k in c.kwargs ==> Plain(k)
    ensures ParseItem(CallText(c))
            == Ok(Invoke(Call(c.name, c.args + (if c.starargs then 1 else 0), c.kwargs, false, c.additionalKwargs)))
    ensures !c.starargs ==> ParseItem(CallText(c)) == Ok(Invoke(c))
  {
    CallItemsAvoid(c, '(');
    CallItemsAvoid(c, ',');
    ParseCallItem(c.name, CallItems(c));
    var t := CallTally(c);
    assert t == Tally(c.args + (if c.starargs then 1 else 0), c.kwargs, c.additionalKwargs, false);
  }

  /** The text of a starred call does not parse back as part of a chain. `str(call)`
      marks the spread `*args` with `...`, and `_from_str` splits the whole text on
      `.` before it reads any call. The piece after the last dot of `...` ends in `)`
      and holds no `(`, so `item.split("(")[1]` raises. This holds for the call
      text alone and wherever it stands as a whole item of a dotted text. */
  lemma StarredCallTextUnreadable(p: string, c: Call, q: string, lineNums: set<nat>)
    requires c.starargs
    requires forall k :: k in c.kwargs ==> Plain(k)
    requires q == "" || q[0] == '.'
    ensures FromText(p + CallText(c) + q, lineNums) == Err(IndexError)
  {
    var before, tail := StarredCallTail(c);
    var head := c.name + "(" + before + "..";
    RegroupAround(p, CallText(c), head, tail, q);
    UnreadableAfterDot(p + head, tail, q);
  }

  /** Where the `...` marker sits in the text of a starred call: what follows its
      last dot is the rest of the argument text and the closing `)`. */
  lemma StarredCallTail(c: Call) returns (before: string, tail: string)
    requires c.starargs
    requires forall k :: k in c.kwargs ==> Plain(k)
    ensures CallText(c) == c.name + "(" + before + ".." + ['.'] + tail
    ensures '.' !in tail && '(' !in tail && EndsWith(tail, ")")
  {
    var after;
    before, after := StarredArguments(c);
    tail := after + ")";
    Regroup(c.name, before, after);
    assert tail[|tail| - 1..] == ")";
  }

  /** The argument text of a starred call around its `...` marker. */
  lemma StarredArguments(c: Call) returns (before: string, after: string)
    requires c.starargs
    requires forall k :: k in c.kwargs ==> Plain(k)
    ensures Join(CallItems(c), ",") == before + "..." + after
    ensures '.' !in after && '(' !in after
  {
    var stars := Repeat("*", c.args);
    var keys := KeywordItems(SortedStrings(c.kwargs)) + (if c.additionalKwargs then ["**"] else []);
    assert CallItems(c) == (stars + ["..."]) + keys;
    before := if |stars| == 0 then "" else Join(stars, ",") + ",";
    after := if |keys| == 0 then "" else "," + Join(keys, ",");
    JoinAround(stars, "...", keys, ",");
    TrailingItemsAvoid(c, '.');
    TrailingItemsAvoid(c, '(');
    JoinAvoids(keys, ",", '.');
    JoinAvoids(keys, ",", '(');
  }

  lemma Regroup(name: string, before: string, after: string)
    ensures name + "(" + (before + "..." + after) + ")" == (name + "(" + before + "..") + ['.'] + (after + ")")
  {
    assert "..." == ".." + ['.'];
  }

  lemma RegroupAround(p: string, x: string, head: string, tail: string, q: string)
    requires x == head + ['.'] + tail
    ensures p + x + q == (p + head) + ['.'] + (tail + q)
  {
  }

  /** The pieces after the `...` marker hold no dot and no `(`. */
  lemma TrailingItemsAvoid(c: Call, x: char)
    requires x == '.' || x == '('
    requires forall k :: k in c.kwargs ==> Plain(k)
    ensures Avoids(KeywordItems(SortedStrings(c.kwargs)) + (if c.additionalKwargs then ["**"] else []), x)
  {
    var sorted := SortedStrings(c.kwargs);
    forall k | k in sorted ensures x !in k {
      assert Plain(k);
    }
    KeywordItemsAvoid(sorted, x);
    AvoidsAppend(KeywordItems(sorted), if c.additionalKwargs then ["**"] else [], x);
  }

  /** A piece that ends in `)` without a `(`, standing whole after a dot, fails the chain. */
  lemma UnreadableAfterDot(head: string, tail: string, q: string)
    requires '.' !in tail && '(' !in tail && EndsWith(tail, ")")
    requires q == "" || q[0] == '.'
    ensures ParseItems(Split(head + ['.'] + (tail + q), '.')) == Err(IndexError)
  {
    var n := PieceAfterDot(head, tail, q);
    ParseItemsFailAt(Split(head + ['.'] + (tail + q), '.'), n);
  }

  /** A dot-free piece that a dot precedes and a dot or the end follows is one of the pieces. */
  lemma PieceAfterDot(head: string, tail: string, q: string) returns (n: nat)
    requires '.' !in tail
    requires q == "" || q[0] == '.'
    ensures n < |Split(head + ['.'] + (tail + q), '.')|
    ensures Split(head + ['.'] + (tail + q), '.')[n] == tail
  {
    SplitAround(head, tail + q, '.');
    SplitWithoutSep(tail, '.');
    var rest := Split(tail + q, '.');
    if q == "" {
      assert tail + q == tail;
    } else {
      assert tail + q == tail + ['.'] + q[1..];
      SplitAround(tail, q[1..], '.');
    }
    n := |Split(head, '.')|;
    assert rest[0] == tail;
  }

  /** One unreadable piece makes the whole chain unreadable. */
  lemma ParseItemsFailAt(items: seq<string>, n: nat)
    requires n < |items| && ParseItem(items[n]).Err?
    ensures ParseItems(items) == Err(IndexError)
  {
    assert items[..n + 1][..n] == items[..n] && items[..n + 1][n] == items[n];
    assert ParseItems(items[..n + 1]).Err?;
    ParseItemsErrStays(items, n + 1);
  }

  /** How `*` pieces, then some middle pieces, then `k=*` pieces, then an optional `**` count. */
  lemma {:induction false} TallyPieces(n: nat, mid: seq<string>, ks: seq<string>, spread: bool, t1: Tally)
    requires forall k :: k in ks ==> Plain(k)
    requires TallyFrom(Tally(n, {}, false, false), mid) == t1
    ensures TallyFrom(NoArguments, Repeat("*", n) + mid + KeywordItems(ks) + (if spread then ["**"] else []))
            == t1.(kwargs := t1.kwargs + (set k | k in ks), additionalKwargs := t1.additionalKwargs || spread)
  {
    var stars := Repeat("*", n);
    var keys := KeywordItems(ks);
    var last: seq<string> := if spread then ["**"] else [];
    TallyFromAppend(NoArguments, stars + mid + keys, last);
    TallyFromAppend(NoArguments, stars + mid, keys);
    TallyFromAppend(NoArguments, stars, mid);
    TallyStars(NoArguments, n);
    assert TallyFrom(NoArguments, stars) == Tally(n, {}, false, false);
    TallyKeywords(t1, ks);
    var t3 := t1.(kwargs := t1.kwargs + (set k | k in ks));
    if spread {
      TallyOne(t3, "**");
    } else {
      assert last == [];
    }
  }

  /** An optional marker piece after `n` stars: `...` counts as a positional
      argument, `^^^` sets the starred flag. */
  lemma MarkerTally(n: nat, present: bool, marker: string)
    requires marker == "..." || marker == "^^^"
    ensures TallyFrom(Tally(n, {}, false, false), if present then [marker] else [])
            == if !present then Tally(n, {}, false, false)
               else if marker == "..." then Tally(n + 1, {}, false, false)
               else Tally(n, {}, false, true)
  {
    if present {
      TallyOne(Tally(n, {}, false, false), marker);
    } else {
      assert (if present then [marker] else []) == [];
    }
  }

  /** The sorted keywords are the keywords. */
  lemma SortedKeywords(s: set<string>)
    ensures (set k | k in SortedStrings(s)) == s
    ensures forall k :: k in SortedStrings(s) ==> k in s
  {
  }

  /** How the pieces of `str(call)` count. */
  lemma CallTally(c: Call) returns (t: Tally)
    requires forall k :: k in c.kwargs ==> Plain(k)
    ensures t == TallyFrom(NoArguments, CallItems(c))
    ensures t == Tally(c.args + (if c.starargs then 1 else 0), c.kwargs, c.additionalKwargs, false)
  {
    var ks := SortedStrings(c.kwargs);
    SortedKeywords(c.kwargs);
    var t1 := Tally(c.args + (if c.starargs then 1 else 0), {}, false, false);
    MarkerTally(c.args, c.starargs, "...");
    TallyPieces(c.args, if c.starargs then ["..."] else [], ks, c.additionalKwargs, t1);
    t := Tally(c.args + (if c.starargs then 1 else 0), c.kwargs, c.additionalKwargs, false);
  }

  /** The items `_parse_call` writes hold no `(`, `,` or `.` when the keywords are plain. */
  lemma CallExprItemsAvoid(args: seq<bool>, kws: seq<Option<string>>, x: char)
    requires x == '(' || x == ',' || x == '.'
    requires forall k :: k in Named(kws) ==> Plain(k)
    ensures Avoids(CallExprItems(args, kws), x)
  {
    var stars := Repeat("*", PlainCount(args));
    var starred: seq<string> := if true in args then ["^^^"] else [];
    var keys := KeywordItems(Named(kws));
    var spread: seq<string> := if None in kws then ["**"] else [];
    KeywordItemsAvoid(Named(kws), x);
    AvoidsAppend(stars, starred, x);
    AvoidsAppend(stars + starred, keys, x);
    AvoidsAppend(stars + starred + keys, spread, x);
  }

  /** What `_from_str` reads back from the text `_parse_call` wrote for a call
      of a plain name: the plain arguments are counted, the named keywords are
      collected, `^^^` sets the starred flag and `**` the keyword-spread flag. */
  lemma CallExprRoundTrip(name: string, args: seq<bool>, kws: seq<Option<string>>)
    requires '(' !in name
    requires forall k :: k in Named(kws) ==> Plain(k)
    ensures ParseItem(name + "(" + Join(CallExprItems(args, kws), ",") + ")")
            == Ok(Invoke(Call(name, PlainCount(args), KeywordNames(kws), true in args, None in kws)))
  {
    CallExprItemsAvoid(args, kws, '(');
    CallExprItemsAvoid(args, kws, ',');
    ParseCallItem(name, CallExprItems(args, kws));
    var t := CallExprTally(args, kws);
  }

  /** How the pieces `_parse_call` writes count. */
  lemma CallExprTally(args: seq<bool>, kws: seq<Option<string>>) returns (t: Tally)
    requires forall k :: k in Named(kws) ==> Plain(k)
    ensures t == TallyFrom(NoArguments, CallExprItems(args, kws))
    ensures t == Tally(PlainCount(args), KeywordNames(kws), None in kws, true in args)
  {
    var t1 := Tally(PlainCount(args), {}, false, true in args);
    MarkerTally(PlainCount(args), true in args, "^^^");
    TallyPieces(PlainCount(args), if true in args then ["^^^"] else [], Named(kws), None in kws, t1);
    t := Tally(PlainCount(args), KeywordNames(kws), None in kws, true in args);
  }

  /** The dotted expressions whose recorded text can be read back item by item:
      identifiers joined by attribute access, each call made on a name or an
      attribute and passing only plain keyword names. */
  predicate IsChainExpr(e: Expr)
  {
    match e
    case Name(id) => IsIdentifier(id)
    case Attribute(v, a) => IsChainExpr(v) && IsIdentifier(a)
    case CallExpr(f, _, kws) =>
      (f.Name? || f.Attribute?) && IsChainExpr(f) && forall k :: k in Named(kws) ==> IsIdentifier(k)
    case Other(_) => false
  }

  /** The access chain a dotted expression stands for. */
  function ChainOf(e: Expr): seq<Item>
  {
    match e
    case Name(id) => [Attr(id)]
    case Attribute(v, a) => ChainOf(v) + [Attr(a)]
    case CallExpr(f, args, kws) =>
      var callee := if f.Attribute? then f.attr else if f.Name? then f.id else "";
      (if f.Attribute? then ChainOf(f.value) else [])
      + [Invoke(Call(callee, PlainCount(args), KeywordNames(kws), true in args, None in kws))]
    case Other(_) => []
  }

  /** Reading back the text the visitor records for a dotted expression gives
      exactly the chain the expression stands for. */
  lemma {:induction false} ChainExprRoundTrip(e: Expr)
    requires IsChainExpr(e)
    ensures ParseItems(Split(ExprText(e), '.')) == Ok(ChainOf(e))
  {
    match e
    case Name(id) =>
      IdentifierIsPlain(id);
      PlainIsAttr(id);
      SingleItem(id);
    case Attribute(v, a) =>
      IdentifierIsPlain(a);
      PlainIsAttr(a);
      ChainExprRoundTrip(v);
      SnocItem(ExprText(v), a, ChainOf(v));
    case CallExpr(f, _, _) =>
      if f.Attribute? {
        ChainExprRoundTrip(f.value);
        CallOnAttribute(e);
      } else {
        CallOnName(e);
      }
  }

  /** A call on an attribute extends the chain of what the attribute is taken from. */
  lemma CallOnAttribute(e: Expr)
    requires e.CallExpr? && e.func.Attribute? && IsChainExpr(e)
    requires ParseItems(Split(ExprText(e.func.value), '.')) == Ok(ChainOf(e.func.value))
    ensures ParseItems(Split(ExprText(e), '.')) == Ok(ChainOf(e))
  {
    var v := e.func.value;
    var item := CallItemText(e.func.attr, e.args, e.keywords);
    AttributeCallShape(e);
    SnocItem(ExprText(v), item, ChainOf(v));
  }

  /** The text and the chain of a call on an attribute, one item after those of its object. */
  lemma AttributeCallShape(e: Expr)
    requires e.CallExpr? && e.func.Attribute?
    ensures ExprText(e) == ExprText(e.func.value) + "." + (e.func.attr + "(" + Join(CallExprItems(e.args, e.keywords), ",") + ")")
    ensures ChainOf(e) == ChainOf(e.func.value)
              + [Invoke(Call(e.func.attr, PlainCount(e.args), KeywordNames(e.keywords), true in e.args, None in e.keywords))]
  {
  }

  /** A call of a bare name is a chain of one call. */
  lemma CallOnName(e: Expr)
    requires e.CallExpr? && e.func.Name? && IsChainExpr(e)
    ensures ParseItems(Split(ExprText(e), '.')) == Ok(ChainOf(e))
  {
    var item := CallItemText(e.func.id, e.args, e.keywords);
    assert ExprText(e) == item;
    SingleItem(item);
    var c := Call(e.func.id, PlainCount(e.args), KeywordNames(e.keywords), true in e.args, None in e.keywords);
    assert ChainOf(e) == [Invoke(c)];
  }

  /** The text `_parse_call` records for a call of an identifier is one dot-free chain item. */
  lemma CallItemText(callee: string, args: seq<bool>, kws: seq<Option<string>>) returns (item: string)
    requires IsIdentifier(callee)
    requires forall k :: k in Named(kws) ==> IsIdentifier(k)
    ensures item == callee + "(" + Join(CallExprItems(args, kws), ",") + ")"
    ensures '.' !in item
    ensures ParseItem(item) == Ok(Invoke(Call(callee, PlainCount(args), KeywordNames(kws), true in args, None in kws)))
  {
    forall k | k in Named(kws) ensures Plain(k) {
      IdentifierIsPlain(k);
    }
    CallExprItemsAvoid(args, kws, '.');
    JoinAvoids(CallExprItems(args, kws), ",", '.');
    IdentifierIsPlain(callee);
    CallExprRoundTrip(callee, args, kws);
    item := callee + "(" + Join(CallExprItems(args, kws), ",") + ")";
  }

  /** A dot-free item is a chain of one. */
  lemma SingleItem(item: string)
    requires '.' !in item && ParseItem(item).Ok?
    ensures ParseItems(Split(item, '.')) == Ok([ParseItem(item).value])
  {
    SplitWithoutSep(item, '.');
    assert [item][..0] == [];
    assert ParseItems([]) == Ok([]);
    assert [] + [ParseItem(item).value] == [ParseItem(item).value];
  }

  /** A plain name is read as an attribute. */
  lemma PlainIsAttr(s: string)
    requires Plain(s)
    ensures ParseItem(s) == Ok(Attr(s))
  {
    if |s| > 0 {
      assert s[|s| - 1] in s;
      assert s[|s| - 1..] == [s[|s| - 1]];
    }
  }

  /** One more dot-free item at the end of a chain. */
  lemma SnocItem(prefix: string, item: string, done: seq<Item>)
    requires '.' !in item && ParseItem(item).Ok?
    requires ParseItems(Split(prefix, '.')) == Ok(done)
    ensures ParseItems(Split(prefix + "." + item, '.')) == Ok(done + [ParseItem(item).value])
  {
    SplitSnoc(prefix, item);
    ParseItemsSnoc(Split(prefix, '.'), item);
  }

  lemma ParseItemsSnoc(items: seq<string>, last: string)
    ensures ParseItems(items + [last])
            == match ParseItems(items)
               case Err(e) => Err(e)
               case Ok(done) =>
                 match ParseItem(last)
                 case Err(e) => Err(e)
                 case Ok(it) => Ok(done + [it])
  {
    assert (items + [last])[..|items|] == items;
  }
}
