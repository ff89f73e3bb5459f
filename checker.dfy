/** The checker: match every access chain of a client whose top level is one
    of the APIs' top-level names, per list (`check`) and per file (`check_tree`). */
module Checker {
  import opened Entity
  import opened Resolve
  import opened Calls
  import opened Chains

  /** The name a chain starts with, as the APIs are keyed. */
  function TopLevel(c: AccessChain): string
    requires |c.chain| >= 1
  {
    ItemText(c.chain[0])
  }

  /** Every chain has a first item (as every parsed chain does). */
  predicate NonEmpty(chains: seq<AccessChain>)
  {
    forall i :: 0 <= i < |chains| ==> |chains[i].chain| >= 1
  }

  ghost predicate WellFormedApis(apis: map<string, Package>)
  {
    forall k :: k in apis ==> WellFormed(apis[k])
  }

  /** The chains the checker keeps, in input order: a reference definition by
      filtering from the front. */
  function Kept(chains: seq<AccessChain>, apis: map<string, Package>): (r: seq<AccessChain>)
    requires NonEmpty(chains)
    ensures |r| <= |chains| && NonEmpty(r)
    ensures forall c :: c in r <==> c in chains && TopLevel(c) in apis
  {
    if |chains| == 0 then []
    else
      assert forall c :: c in chains <==> c == chains[0] || c in chains[1..];
      (if TopLevel(chains[0]) in apis then [chains[0]] else []) + Kept(chains[1..], apis)
  }

  /** What `check` returns for a list read so far, as its loop builds it. */
  function Checked(chains: seq<AccessChain>, apis: map<string, Package>): seq<(AccessChain, MatchResult)>
    requires NonEmpty(chains) && WellFormedApis(apis)
    decreases |chains|
  {
    if |chains| == 0 then []
    else
      var before := Checked(chains[..|chains| - 1], apis);
      var c := chains[|chains| - 1];
      if TopLevel(c) !in apis then before
      else before + [(c, ChainMatch(apis, c.chain))]
  }

  /** `check` is the kept chains, in input order, each paired with its match result. */
  lemma CheckedIsKeptAndMatched(chains: seq<AccessChain>, apis: map<string, Package>)
    requires NonEmpty(chains) && WellFormedApis(apis)
    ensures |Checked(chains, apis)| == |Kept(chains, apis)|
    ensures forall k :: 0 <= k < |Kept(chains, apis)| ==>
              Checked(chains, apis)[k] == (Kept(chains, apis)[k], ChainMatch(apis, Kept(chains, apis)[k].chain))
  {
    CheckedIsMatchEach(chains, apis);
  }

  /** Each chain of `ks` paired with its match result. */
  function MatchEach(ks: seq<AccessChain>, apis: map<string, Package>): (r: seq<(AccessChain, MatchResult)>)
    requires NonEmpty(ks) && WellFormedApis(apis)
    ensures |r| == |ks|
    ensures forall k :: 0 <= k < |ks| ==> r[k] == (ks[k], ChainMatch(apis, ks[k].chain))
  {
    seq(|ks|, k requires 0 <= k < |ks| => (ks[k], ChainMatch(apis, ks[k].chain)))
  }

  lemma MatchEachSnoc(ks: seq<AccessChain>, c: AccessChain, apis: map<string, Package>)
    requires NonEmpty(ks) && |c.chain| >= 1 && WellFormedApis(apis)
    ensures NonEmpty(ks + [c])
    ensures MatchEach(ks + [c], apis) == MatchEach(ks, apis) + [(c, ChainMatch(apis, c.chain))]
  {
    assert NonEmpty(ks + [c]) by {
      assert forall i :: 0 <= i < |ks| ==> (ks + [c])[i] == ks[i];
    }
  }

  lemma {:induction false} CheckedIsMatchEach(chains: seq<AccessChain>, apis: map<string, Package>)
    requires NonEmpty(chains) && WellFormedApis(apis)
    ensures Checked(chains, apis) == MatchEach(Kept(chains, apis), apis)
    decreases |chains|
  {
    if |chains| > 0 {
      var init := chains[..|chains| - 1];
      var last := chains[|chains| - 1];
      assert NonEmpty(init) by {
        assert forall i :: 0 <= i < |init| ==> init[i] == chains[i];
      }
      CheckedIsMatchEach(init, apis);
      KeptSnoc(init, last, apis);
      assert init + [last] == chains;
      if TopLevel(last) in apis {
        MatchEachSnoc(Kept(init, apis), last, apis);
      }
    }
  }

  lemma {:induction false} KeptSnoc(chains: seq<AccessChain>, c: AccessChain, apis: map<string, Package>)
    requires NonEmpty(chains) && |c.chain| >= 1
    ensures NonEmpty(chains + [c])
    ensures Kept(chains + [c], apis) == Kept(chains, apis) + (if TopLevel(c) in apis then [c] else [])
    decreases |chains|
  {
    if |chains| > 0 {
      assert (chains + [c])[1..] == chains[1..] + [c];
      KeptSnoc(chains[1..], c, apis);
    } else {
      assert (chains + [c])[1..] == [];
    }
  }

  /** `check`. */
  method Check(chains: seq<AccessChain>, apis: map<string, Package>) returns (matches: seq<(AccessChain, MatchResult)>)
    requires NonEmpty(chains) && WellFormedApis(apis)
    ensures matches == Checked(chains, apis)
  {
    matches := [];
    for i := 0 to |chains|
      invariant matches == Checked(chains[..i], apis)
    {
      var c := chains[i];
      assert chains[..i + 1][..i] == chains[..i];
      if ItemText(c.chain[0]) !in apis {
        continue;
      }
      var result := MatchChain(apis, c.chain);
      matches := matches + [(c, result)];
    }
    assert chains[..|chains|] == chains;
  }

  /** `check_tree`: `check` applied to the chains of every file. */
  method CheckTree(tree: map<string, seq<AccessChain>>, apis: map<string, Package>)
    returns (violations: map<string, seq<(AccessChain, MatchResult)>>)
    requires forall key :: key in tree ==> NonEmpty(tree[key])
    requires WellFormedApis(apis)
    ensures violations.Keys == tree.Keys
    ensures forall key :: key in tree ==> violations[key] == Checked(tree[key], apis)
  {
    violations := map[];
    var remaining := tree.Keys;
    while remaining != {}
      invariant remaining <= tree.Keys
      invariant violations.Keys == tree.Keys - remaining
      invariant forall key :: key in violations ==> violations[key] == Checked(tree[key], apis)
      decreases |remaining|
    {
      var key :| key in remaining;
      var result := Check(tree[key], apis);
      violations := violations[key := result];
      remaining := remaining - {key};
    }
  }
}
