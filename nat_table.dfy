/**
 * The NAT table as the floater sees it through its table handle: a map
 * from chain name to the chain's rules, a working copy that changes are
 * made to, the state the kernel holds, and the autocommit switch that
 * decides when the one is published as the other.
 */
module NatTable {
  import opened Wrappers

  /** A rule: its target (a verdict or the chain it jumps to) and its match, kept opaque. */
  datatype Rule = Rule(target: string, matches: Option<string>)

  type Chains = map<string, seq<Rule>>

  /** The built-in chains of the kernel's NAT table; the kernel never lets them go. */
  const BuiltinChains: set<string> := {"PREROUTING", "INPUT", "OUTPUT", "POSTROUTING"}

  /** A rule with no match whose target is `target`: what `link_chains` appends. */
  function Jump(target: string): Rule
  {
    Rule(target, None)
  }

  predicate JumpsTo(rules: seq<Rule>, target: string)
  {
    exists r :: r in rules && r.target == target
  }

  /** A new chain holds no rules; creating one that exists leaves it as it is. */
  function Created(tbl: Chains, name: string): Chains
  {
    if name in tbl then tbl else tbl[name := []]
  }

  /** `append_rule`: the rule goes at the end of the chain; nothing else moves. */
  function Appended(tbl: Chains, chain: string, r: Rule): Chains
    requires chain in tbl
  {
    tbl[chain := tbl[chain] + [r]]
  }

  /** Creating a chain adds it, empty, when it is missing, and changes nothing else. */
  lemma CreatedEffect(tbl: Chains, name: string)
    ensures forall c :: c in Created(tbl, name) <==> c in tbl || c == name
    ensures forall c :: c in tbl ==> Created(tbl, name)[c] == tbl[c]
    ensures name !in tbl ==> Created(tbl, name)[name] == []
  {
  }

  /** `delete_rule`: the first rule equal to `r` leaves the chain. */
  function RemoveFirst(s: seq<Rule>, r: Rule): (res: seq<Rule>)
    ensures r in s ==> |res| == |s| - 1
    ensures r !in s ==> res == s
  {
    if s == [] then []
    else
      assert s == [s[0]] + s[1..];
      if s[0] == r then s[1..]
      else [s[0]] + RemoveFirst(s[1..], r)
  }

  /** Deleting a chain's first rule by value takes exactly that rule off the front. */
  lemma RemoveFirstHead(s: seq<Rule>)
    requires s != []
    ensures RemoveFirst(s, s[0]) == s[1..]
  {
  }

  /** Deleting a rule by value takes one copy of it out of the chain, and only that. */
  lemma {:induction false} RemoveFirstMultiset(s: seq<Rule>, r: Rule)
    ensures multiset(RemoveFirst(s, r)) == multiset(s) - multiset{r}
  {
    if s != [] {
      assert s == [s[0]] + s[1..];
      if s[0] != r {
        RemoveFirstMultiset(s[1..], r);
      }
    }
  }

  /** The rules of `s` whose target is not `t`, in their order in `s`. */
  function WithoutTarget(s: seq<Rule>, t: string): (res: seq<Rule>)
    ensures !JumpsTo(res, t)
    ensures forall x :: x in res <==> x in s && x.target != t
    ensures |res| <= |s|
  {
    if s == [] then []
    else if s[0].target == t then WithoutTarget(s[1..], t)
    else [s[0]] + WithoutTarget(s[1..], t)
  }

  /** The rules of `s` whose target is `t`, in their order in `s`. */
  function Matching(s: seq<Rule>, t: string): seq<Rule>
  {
    if s == [] then []
    else if s[0].target == t then [s[0]] + Matching(s[1..], t)
    else Matching(s[1..], t)
  }

  /** `s` with its first `n` rules whose target is `t` removed. */
  function DropMatching(s: seq<Rule>, t: string, n: nat): seq<Rule>
  {
    if n == 0 || s == [] then s
    else if s[0].target == t then DropMatching(s[1..], t, n - 1)
    else [s[0]] + DropMatching(s[1..], t, n)
  }

  /**
   * Deleting, by value, the i-th rule that targets `t` from a chain whose
   * first i such rules are gone removes exactly that rule.
   */
  lemma {:induction false} DropMatchingStep(s: seq<Rule>, t: string, i: nat)
    requires i < |Matching(s, t)|
    ensures Matching(s, t)[i] in DropMatching(s, t, i)
    ensures RemoveFirst(DropMatching(s, t, i), Matching(s, t)[i]) == DropMatching(s, t, i + 1)
    decreases |s|, 1
  {
    if s[0].target == t && i == 0 {
      DropMatchingStepFirst(s, t);
    } else if s[0].target == t {
      DropMatchingStepHit(s, t, i);
    } else {
      DropMatchingStepMiss(s, t, i);
    }
  }

  /** `DropMatchingStep` when the chain's first rule targets `t` and is the one to go. */
  lemma DropMatchingStepFirst(s: seq<Rule>, t: string)
    requires s != [] && s[0].target == t
    ensures 0 < |Matching(s, t)| && Matching(s, t)[0] in DropMatching(s, t, 0)
    ensures RemoveFirst(DropMatching(s, t, 0), Matching(s, t)[0]) == DropMatching(s, t, 1)
  {
    assert Matching(s, t) == [s[0]] + Matching(s[1..], t);
    assert DropMatching(s, t, 1) == s[1..];
  }

  /** `DropMatchingStep` when the chain's first rule targets `t` and a later one is to go. */
  lemma {:induction false} DropMatchingStepHit(s: seq<Rule>, t: string, i: nat)
    requires 0 < i < |Matching(s, t)| && s[0].target == t
    ensures Matching(s, t)[i] in DropMatching(s, t, i)
    ensures RemoveFirst(DropMatching(s, t, i), Matching(s, t)[i]) == DropMatching(s, t, i + 1)
    decreases |s|, 0
  {
    MatchingTail(s, t, i);
    DropMatchingStep(s[1..], t, i - 1);
  }

  /** `DropMatchingStep` when the chain's first rule does not target `t`. */
  lemma {:induction false} DropMatchingStepMiss(s: seq<Rule>, t: string, i: nat)
    requires i < |Matching(s, t)| && s[0].target != t
    ensures Matching(s, t)[i] in DropMatching(s, t, i)
    ensures RemoveFirst(DropMatching(s, t, i), Matching(s, t)[i]) == DropMatching(s, t, i + 1)
    decreases |s|, 0
  {
    var m := Matching(s, t)[i];
    MatchingMembers(s, t);
    assert m in Matching(s, t);
    assert Matching(s, t) == Matching(s[1..], t);
    DropMatchingStep(s[1..], t, i);
    var rest := DropMatching(s[1..], t, i);
    assert DropMatching(s, t, i) == [s[0]] + rest;
    assert m.target == t && s[0] != m;
    assert RemoveFirst([s[0]] + rest, m) == [s[0]] + RemoveFirst(rest, m);
  }

  /** `Matching` keeps exactly the rules that target `t`. */
  lemma {:induction false} MatchingMembers(s: seq<Rule>, t: string)
    ensures forall x :: x in Matching(s, t) <==> x in s && x.target == t
  {
    if s != [] {
      MatchingMembers(s[1..], t);
      assert s == [s[0]] + s[1..];
    }
  }

  lemma MatchingTail(s: seq<Rule>, t: string, i: nat)
    requires s != [] && s[0].target == t && 0 < i < |Matching(s, t)|
    ensures Matching(s, t)[i] == Matching(s[1..], t)[i - 1]
  {
    var ms := Matching(s[1..], t);
    assert Matching(s, t) == [s[0]] + ms;
  }

  /** Once every rule that targets `t` is dropped, what is left is `WithoutTarget`. */
  lemma {:induction false} DropMatchingAll(s: seq<Rule>, t: string)
    ensures DropMatching(s, t, |Matching(s, t)|) == WithoutTarget(s, t)
  {
    if s != [] {
      DropMatchingAll(s[1..], t);
      if |Matching(s, t)| == 0 {
        assert !JumpsTo(s, t) by {
          MatchingMembers(s, t);
          forall x | x in s ensures x.target != t {
            assert x.target == t ==> x in Matching(s, t);
          }
        }
        WithoutTargetAbsent(s, t);
      }
    }
  }

  /** Filtering distributes over concatenation: the kept rules keep their order. */
  lemma {:induction false} WithoutTargetConcat(a: seq<Rule>, b: seq<Rule>, t: string)
    ensures WithoutTarget(a + b, t) == WithoutTarget(a, t) + WithoutTarget(b, t)
  {
    if a == [] {
      assert a + b == b;
    } else {
      var ab := a + b;
      assert ab[0] == a[0] && ab[1..] == a[1..] + b;
      WithoutTargetConcat(a[1..], b, t);
      if a[0].target == t {
        calc {
          WithoutTarget(ab, t);
          WithoutTarget(a[1..] + b, t);
          WithoutTarget(a[1..], t) + WithoutTarget(b, t);
        }
      } else {
        calc {
          WithoutTarget(ab, t);
          [a[0]] + WithoutTarget(a[1..] + b, t);
          [a[0]] + (WithoutTarget(a[1..], t) + WithoutTarget(b, t));
          ([a[0]] + WithoutTarget(a[1..], t)) + WithoutTarget(b, t);
        }
      }
    }
  }

  /** A chain with no jump to `t` is left as it is. */
  lemma {:induction false} WithoutTargetAbsent(s: seq<Rule>, t: string)
    requires !JumpsTo(s, t)
    ensures WithoutTarget(s, t) == s
  {
    if s != [] {
      assert s[0] in s;
      WithoutTargetAbsent(s[1..], t);
      assert s == [s[0]] + s[1..];
    }
  }

  /** Filtering twice is filtering once. */
  lemma WithoutTargetIdempotent(s: seq<Rule>, t: string)
    ensures WithoutTarget(WithoutTarget(s, t), t) == WithoutTarget(s, t)
  {
    WithoutTargetAbsent(WithoutTarget(s, t), t);
  }

  /**
   * A handle on the NAT table. `pending` is the handle's copy, which every
   * change goes to; `committed` is what the kernel holds; with `autocommit`
   * off, changes build up in `pending` until `Commit` publishes them all at
   * once. `history` lists every state the kernel has been given.
   */
  class Table {
    var pending: Chains
    var committed: Chains
    var autocommit: bool
    ghost var history: seq<Chains>

    ghost predicate Consistent()
      reads this
    {
      && |history| > 0 && history[|history| - 1] == committed
    }

    ghost predicate Valid()
      reads this
    {
      Consistent() && (autocommit ==> pending == committed)
    }

    constructor (kernel: Chains)
      ensures Valid() && autocommit
      ensures committed == kernel && pending == kernel && history == [kernel]
    {
      committed := kernel;
      pending := kernel;
      autocommit := true;
      history := [kernel];
    }

    /** `refresh()`: reload the handle's copy from the kernel. */
    method Refresh()
      requires Valid()
      modifies this
      ensures Valid() && pending == committed
      ensures committed == old(committed) && history == old(history) && autocommit == old(autocommit)
    {
      pending := committed;
    }

    /** `commit()`: publish the handle's copy to the kernel in one step. */
    method Commit()
      requires Consistent()
      modifies this
      ensures Valid() && autocommit == old(autocommit)
      ensures pending == old(pending) && committed == old(pending)
      ensures history == old(history) + [old(pending)]
    {
      committed := pending;
      history := history + [pending];
    }

    /** Under autocommit, each change is committed as soon as it is made. */
    method CommitIfAuto()
      requires Consistent()
      modifies this
      ensures Valid() && autocommit == old(autocommit) && pending == old(pending)
      ensures old(autocommit) ==> history == old(history) + [pending]
      ensures !old(autocommit) ==> committed == old(committed) && history == old(history)
    {
      if autocommit {
        Commit();
      }
    }

    /** `create_chain(name)`. */
    method CreateChain(name: string)
      requires Valid()
      modifies this
      ensures Valid() && autocommit == old(autocommit)
      ensures pending == Created(old(pending), name)
      ensures !old(autocommit) ==> committed == old(committed) && history == old(history)
    {
      pending := Created(pending, name);
      CommitIfAuto();
    }

    /** `append_rule(r)` on chain `chain`, which must exist. */
    method AppendRule(chain: string, r: Rule)
      requires Valid() && chain in pending
      modifies this
      ensures Valid() && autocommit == old(autocommit)
      ensures pending == Appended(old(pending), chain, r)
      ensures !old(autocommit) ==> committed == old(committed) && history == old(history)
    {
      pending := Appended(pending, chain, r);
      CommitIfAuto();
    }

    /** `delete_rule(r)` on chain `chain`: the first rule equal to `r` goes. */
    method DeleteRule(chain: string, r: Rule)
      requires Valid() && chain in pending && r in pending[chain]
      modifies this
      ensures Valid() && autocommit == old(autocommit)
      ensures pending == old(pending)[chain := RemoveFirst(old(pending)[chain], r)]
      ensures !old(autocommit) ==> committed == old(committed) && history == old(history)
    {
      pending := pending[chain := RemoveFirst(pending[chain], r)];
      CommitIfAuto();
    }

    /**
     * `delete()` on a chain. The kernel refuses a built-in chain, a chain
     * that still holds rules and a chain another chain jumps to.
     */
    method DeleteEmptyChain(name: string)
      requires Valid() && name in pending && name !in BuiltinChains
      requires pending[name] == []
      requires forall c :: c in pending && c != name ==> !JumpsTo(pending[c], name)
      modifies this
      ensures Valid() && autocommit == old(autocommit)
      ensures pending == old(pending) - {name}
      ensures !old(autocommit) ==> committed == old(committed) && history == old(history)
    {
      pending := pending - {name};
      CommitIfAuto();
    }

    /** `[chain.name for chain in table.chains]`, in an order the kernel decides. */
    method ChainNames() returns (names: seq<string>)
      ensures forall n :: n in names <==> n in pending
      ensures forall i, j :: 0 <= i < j < |names| ==> names[i] != names[j]
    {
      names := [];
      var rest := pending.Keys;
      while rest != {}
        invariant forall n :: n in pending <==> n in names || n in rest
        invariant forall n :: n in names ==> n !in rest
        invariant forall i, j :: 0 <= i < j < |names| ==> names[i] != names[j]
        decreases rest
      {
        var n :| n in rest;
        names := names + [n];
        rest := rest - {n};
      }
    }
  }
}
