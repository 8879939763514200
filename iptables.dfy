/**
 * The floater's chain topology in the NAT table (iptables.py): installing
 * the base chains and their hook links, linking and unlinking chains,
 * deleting chains, and tearing down one endpoint's chains or all of them.
 * Each public procedure runs as one batch: refresh, autocommit off, the
 * changes, one commit, autocommit on.
 */
module Iptables {
  import opened Wrappers
  import opened Naming
  import opened NatTable

  /** The guard rule: `-m conntrack ! --ctstate DNAT -j ACCEPT`, its match kept opaque. */
  const NotDnatMatch: string := "conntrack ctstate !DNAT"
  const GuardRule: Rule := Rule("ACCEPT", Some(NotDnatMatch))

  // ---------------------------------------------------------------------
  // The links the floater's chains may have.

  /**
   * Which chains may jump to `target`: an endpoint chain only from the base
   * chain its suffix names, a base chain only from its hook's built-in chain.
   */
  predicate JumpAllowed(from: string, target: string)
  {
    if IsEndpointChainName(target) then
      LinkedHook(target).Some? && from == BaseChain(LinkedHook(target).value)
    else if BaseHook(target).Some? then
      from == HookName(BaseHook(target).value)
    else
      true
  }

  /** Every jump in the table is one `JumpAllowed` permits. */
  predicate LinksWellFormed(tbl: Chains)
  {
    forall c, r :: c in tbl && r in tbl[c] ==> JumpAllowed(c, r.target)
  }

  /** No chain but `name` itself jumps to `name`: the kernel then lets it go. */
  predicate Unreferenced(tbl: Chains, name: string)
  {
    forall c :: c in tbl && c != name ==> !JumpsTo(tbl[c], name)
  }

  /** No chain at all jumps to `name`. */
  predicate NoJumpTo(tbl: Chains, name: string)
  {
    forall c :: c in tbl ==> !JumpsTo(tbl[c], name)
  }

  /**
   * What `unlink_and_delete_chain` supposes ("we suppose that it is
   * linked"): only the base chain its suffix names may jump to `name`.
   */
  predicate LinkedOnlyFromParent(tbl: Chains, name: string)
  {
    forall c :: c in tbl && c != name && !(LinkedHook(name).Some? && c == BaseChain(LinkedHook(name).value))
      ==> !JumpsTo(tbl[c], name)
  }

  // ---------------------------------------------------------------------
  // What the helpers do to the table, as functions on its value.

  /** `delete_chain`: the chain and its rules go. */
  function Drop(tbl: Chains, name: string): Chains
  {
    tbl - {name}
  }

  /** `unlink_chains`: drop every jump from `first` to `second`; a missing `first` is left alone. */
  function Unlink(tbl: Chains, first: string, second: string): Chains
  {
    if first in tbl then tbl[first := WithoutTarget(tbl[first], second)] else tbl
  }

  /** `unlink_and_delete_chain`: unlink from the base chain the suffix names, then delete. */
  function UnlinkAndDrop(tbl: Chains, name: string): Chains
  {
    match LinkedHook(name)
    case Some(h) => Drop(Unlink(tbl, BaseChain(h), name), name)
    case None => Drop(tbl, name)
  }

  /** Deleting a chain removes it, and only it; a missing chain leaves the table as it is. */
  lemma DropEffect(tbl: Chains, name: string)
    ensures name !in Drop(tbl, name)
    ensures forall c :: c != name ==> (c in Drop(tbl, name) <==> c in tbl)
    ensures forall c :: c in Drop(tbl, name) ==> Drop(tbl, name)[c] == tbl[c]
    ensures name !in tbl ==> Drop(tbl, name) == tbl
  {
  }

  /** Unlinking leaves every chain in place, and `first` without a jump to `second`, and every other chain as it was. */
  lemma UnlinkEffect(tbl: Chains, first: string, second: string)
    ensures forall c :: c in Unlink(tbl, first, second) <==> c in tbl
    ensures first in tbl ==> Unlink(tbl, first, second)[first] == WithoutTarget(tbl[first], second)
    ensures first in tbl ==> !JumpsTo(Unlink(tbl, first, second)[first], second)
    ensures forall c :: c in tbl && c != first ==> Unlink(tbl, first, second)[c] == tbl[c]
  {
  }

  lemma DropNothing(tbl: Chains, name: string)
    requires name !in tbl
    ensures Drop(tbl, name) == tbl
  {
    assert Drop(tbl, name).Keys == tbl.Keys;
  }

  /** Unlinking a chain that does not jump to `second` changes nothing. */
  lemma UnlinkNothing(tbl: Chains, first: string, second: string)
    requires first in tbl ==> !JumpsTo(tbl[first], second)
    ensures Unlink(tbl, first, second) == tbl
  {
    if first in tbl {
      WithoutTargetAbsent(tbl[first], second);
      assert Unlink(tbl, first, second).Keys == tbl.Keys;
    }
  }

  /** `unlink_and_delete_chain` removes `name`, leaves all other chains but the base chains as they were, and leaves the base chain its suffix names without a jump to it. */
  lemma UnlinkAndDropEffect(tbl: Chains, name: string)
    ensures name !in UnlinkAndDrop(tbl, name)
    ensures forall c :: c != name ==> (c in UnlinkAndDrop(tbl, name) <==> c in tbl)
    ensures forall c :: c in UnlinkAndDrop(tbl, name) && BaseHook(c).None? ==> UnlinkAndDrop(tbl, name)[c] == tbl[c]
    ensures LinkedHook(name).Some? && BaseChain(LinkedHook(name).value) in UnlinkAndDrop(tbl, name) ==>
      !JumpsTo(UnlinkAndDrop(tbl, name)[BaseChain(LinkedHook(name).value)], name)
  {
    match LinkedHook(name)
    case Some(h) =>
      UnlinkEffect(tbl, BaseChain(h), name);
      DropEffect(Unlink(tbl, BaseChain(h), name), name);
    case None =>
      DropEffect(tbl, name);
  }

  // ---------------------------------------------------------------------
  // The helpers (iptables.py:81-123), on a table handle.

  /** `chain_exists`. */
  method ChainExists(t: Table, name: string) returns (b: bool)
    ensures b <==> name in t.pending
  {
    var names := t.ChainNames();
    b := false;
    var i := 0;
    while i < |names|
      invariant 0 <= i <= |names|
      invariant b <==> name in names[..i]
    {
      if names[i] == name {
        b := true;
      }
      i := i + 1;
    }
    assert names[..i] == names;
  }

  /** `delete_chain`: flush the chain rule by rule, then delete it; no-op if absent. */
  method DeleteChain(t: Table, name: string)
    requires t.Valid() && name !in BuiltinChains
    requires Unreferenced(t.pending, name)
    modifies t
    ensures t.Valid() && t.autocommit == old(t.autocommit)
    ensures t.pending == Drop(old(t.pending), name)
    ensures !old(t.autocommit) ==> t.committed == old(t.committed) && t.history == old(t.history)
  {
    var present := ChainExists(t, name);
    if present {
      var rules := t.pending[name];
      var i := 0;
      while i < |rules|
        invariant 0 <= i <= |rules|
        invariant t.Valid() && t.autocommit == old(t.autocommit)
        invariant t.pending == old(t.pending)[name := rules[i..]]
        invariant !old(t.autocommit) ==> t.committed == old(t.committed) && t.history == old(t.history)
      {
        FlushStep(old(t.pending), name, rules, i);
        t.DeleteRule(name, rules[i]);
        i := i + 1;
      }
      FlushedUnreferenced(old(t.pending), name);
      t.DeleteEmptyChain(name);
    }
  }

  /** One turn of the flush loop: deleting the front rule by value leaves the rest. */
  lemma FlushStep(tbl: Chains, name: string, rules: seq<Rule>, i: nat)
    requires i < |rules|
    ensures rules[i] in rules[i..]
    ensures tbl[name := rules[i..]][name := RemoveFirst(rules[i..], rules[i])] == tbl[name := rules[i + 1..]]
  {
    RemoveFirstHead(rules[i..]);
    assert rules[i..][1..] == rules[i + 1..];
  }

  /** Flushing an unreferenced chain keeps it unreferenced, and deleting it then is deleting it outright. */
  lemma FlushedUnreferenced(tbl: Chains, name: string)
    requires Unreferenced(tbl, name)
    ensures Unreferenced(tbl[name := []], name)
    ensures tbl[name := []] - {name} == Drop(tbl, name)
  {
    assert (tbl[name := []] - {name}).Keys == Drop(tbl, name).Keys;
  }

  /** `link_chains`: append to `first` a jump to `second`. */
  method LinkChains(t: Table, first: string, second: string)
    requires t.Valid() && first in t.pending
    modifies t
    ensures t.Valid() && t.autocommit == old(t.autocommit)
    ensures t.pending == Appended(old(t.pending), first, Jump(second))
    ensures t.pending.Keys == old(t.pending).Keys
    ensures |t.pending[first]| == |old(t.pending)[first]| + 1
    ensures t.pending[first][..|old(t.pending)[first]|] == old(t.pending)[first]
    ensures t.pending[first][|old(t.pending)[first]|] == Jump(second) && Jump(second).target == second
    ensures forall c :: c in old(t.pending) && c != first ==> t.pending[c] == old(t.pending)[c]
    ensures !old(t.autocommit) ==> t.committed == old(t.committed) && t.history == old(t.history)
  {
    t.AppendRule(first, Jump(second));
  }

  /** `unlink_chains`: delete, one at a time, the rules of `first` that target `second`. */
  method UnlinkChains(t: Table, first: string, second: string)
    requires t.Valid()
    modifies t
    ensures t.Valid() && t.autocommit == old(t.autocommit)
    ensures t.pending == Unlink(old(t.pending), first, second)
    ensures !old(t.autocommit) ==> t.committed == old(t.committed) && t.history == old(t.history)
  {
    var present := ChainExists(t, first);
    if present {
      ghost var orig := t.pending[first];
      var rules := Matching(t.pending[first], second);
      var i := 0;
      while i < |rules|
        invariant 0 <= i <= |rules|
        invariant t.Valid() && t.autocommit == old(t.autocommit)
        invariant t.pending == old(t.pending)[first := DropMatching(orig, second, i)]
        invariant !old(t.autocommit) ==> t.committed == old(t.committed) && t.history == old(t.history)
      {
        DropMatchingStep(orig, second, i);
        t.DeleteRule(first, rules[i]);
        i := i + 1;
      }
      DropMatchingAll(orig, second);
    }
  }

  /** `unlink_and_delete_chain`. */
  method UnlinkAndDeleteChain(t: Table, name: string)
    requires t.Valid() && name !in BuiltinChains
    requires LinkedOnlyFromParent(t.pending, name)
    modifies t
    ensures t.Valid() && t.autocommit == old(t.autocommit)
    ensures t.pending == UnlinkAndDrop(old(t.pending), name)
    ensures !old(t.autocommit) ==> t.committed == old(t.committed) && t.history == old(t.history)
  {
    var linked := LinkedHook(name);
    if linked.Some? {
      var base := BaseChain(linked.value);
      UnlinkParentFrees(t.pending, name, linked.value);
      UnlinkChains(t, base, name);
    }
    DeleteChain(t, name);
  }

  /**
   * How each public procedure opens its batch (iptables.py:27-28, 63-64,
   * 130-131): reload the handle's copy, then stop committing each change.
   */
  method StartBatch(t: Table)
    requires t.Valid()
    modifies t
    ensures t.Valid() && !t.autocommit && t.pending == t.committed
    ensures t.committed == old(t.committed) && t.history == old(t.history)
  {
    t.Refresh();
    t.autocommit := false;
  }

  /**
   * How each public procedure closes its batch (iptables.py:43-44, 78-79,
   * 141-142): publish every change at once, then commit each change again.
   */
  method FinishBatch(t: Table)
    requires t.Valid()
    modifies t
    ensures t.Valid() && t.autocommit
    ensures t.committed == old(t.pending) && t.history == old(t.history) + [t.committed]
  {
    t.Commit();
    t.autocommit := true;
  }

  /** Once its parent no longer jumps to it, a chain linked only from its parent is unreferenced. */
  lemma UnlinkParentFrees(tbl: Chains, name: string, h: Hook)
    requires LinkedOnlyFromParent(tbl, name) && LinkedHook(name) == Some(h)
    ensures Unreferenced(Unlink(tbl, BaseChain(h), name), name)
  {
    UnlinkEffect(tbl, BaseChain(h), name);
  }

  // ---------------------------------------------------------------------
  // What the links invariant buys: the deletes the procedures make are
  // ones the kernel accepts, and the invariant survives every step.

  lemma {:induction false} UnlinkKeepsLinks(tbl: Chains, first: string, second: string)
    requires LinksWellFormed(tbl)
    ensures LinksWellFormed(Unlink(tbl, first, second))
  {
    var r := Unlink(tbl, first, second);
    forall c, x: Rule | c in r && x in r[c]
      ensures JumpAllowed(c, x.target)
    {
      assert x in tbl[c];
    }
  }

  lemma {:induction false} DropKeepsLinks(tbl: Chains, name: string)
    requires LinksWellFormed(tbl)
    ensures LinksWellFormed(Drop(tbl, name))
  {
    var r := Drop(tbl, name);
    forall c, x: Rule | c in r && x in r[c]
      ensures JumpAllowed(c, x.target)
    {
      assert x in tbl[c];
    }
  }

  lemma {:induction false} UnlinkAndDropKeepsLinks(tbl: Chains, name: string)
    requires LinksWellFormed(tbl)
    ensures LinksWellFormed(UnlinkAndDrop(tbl, name))
  {
    match LinkedHook(name)
    case Some(h) =>
      UnlinkKeepsLinks(tbl, BaseChain(h), name);
      DropKeepsLinks(Unlink(tbl, BaseChain(h), name), name);
    case None =>
      DropKeepsLinks(tbl, name);
  }

  /** Under the invariant, only its base chain may jump to an endpoint chain. */
  lemma {:induction false} EndpointChainLinkedOnlyFromParent(tbl: Chains, name: string)
    requires LinksWellFormed(tbl) && IsEndpointChainName(name)
    ensures LinkedOnlyFromParent(tbl, name) && name !in BuiltinChains
  {
    forall c | c in tbl && c != name && !(LinkedHook(name).Some? && c == BaseChain(LinkedHook(name).value))
      ensures !JumpsTo(tbl[c], name)
    {
      forall x: Rule | x in tbl[c] ensures x.target != name {
        assert JumpAllowed(c, x.target);
      }
    }
    assert name[..|RulePrefix|] == RulePrefix;
    assert name[0] == 'i';
  }

  /** Under the invariant, only its hook's built-in chain may jump to a base chain. */
  lemma {:induction false} BaseChainLinkedOnlyFromRoot(tbl: Chains, h: Hook)
    requires LinksWellFormed(tbl)
    ensures forall c :: c in tbl && c != HookName(h) ==> !JumpsTo(tbl[c], BaseChain(h))
  {
    forall c | c in tbl && c != HookName(h)
      ensures !JumpsTo(tbl[c], BaseChain(h))
    {
      forall x: Rule | x in tbl[c] ensures x.target != BaseChain(h) {
        assert JumpAllowed(c, x.target);
      }
    }
  }

  /** Once its base chain is unlinked, nothing jumps to an endpoint chain. */
  lemma UnlinkedEndpointChainIsFree(tbl: Chains, id: string, h: Hook)
    requires LinksWellFormed(tbl)
    ensures NoJumpTo(Unlink(tbl, BaseChain(h), EndpointChain(id, h)), EndpointChain(id, h))
    ensures Unreferenced(Unlink(tbl, BaseChain(h), EndpointChain(id, h)), EndpointChain(id, h))
    ensures EndpointChain(id, h) !in BuiltinChains
  {
    var name := EndpointChain(id, h);
    EndpointChainLinkedOnlyFromParent(tbl, name);
    UnlinkParentFrees(tbl, name, h);
    UnlinkEffect(tbl, BaseChain(h), name);
    if name in tbl {
      EndpointChainNoSelfJump(tbl, name);
    }
  }

  /** Under the invariant, an endpoint chain never jumps to itself. */
  lemma {:induction false} EndpointChainNoSelfJump(tbl: Chains, name: string)
    requires LinksWellFormed(tbl) && IsEndpointChainName(name) && name in tbl
    ensures !JumpsTo(tbl[name], name)
  {
    forall x: Rule | x in tbl[name] ensures x.target != name {
      assert JumpAllowed(name, x.target);
    }
  }

  // ---------------------------------------------------------------------
  // remove_endpointchains (iptables.py:125-143)

  /** One hook's part of `remove_endpointchains`: unlink the endpoint's chain from its base chain, then delete it. */
  function RemoveEndpointChain(tbl: Chains, id: string, h: Hook): Chains
  {
    Drop(Unlink(tbl, BaseChain(h), EndpointChain(id, h)), EndpointChain(id, h))
  }

  /** One hook's part removes that hook's endpoint chain and its jump, and changes nothing else. */
  lemma RemoveEndpointChainEffect(tbl: Chains, id: string, h: Hook)
    ensures EndpointChain(id, h) !in RemoveEndpointChain(tbl, id, h)
    ensures BaseChain(h) in RemoveEndpointChain(tbl, id, h) ==>
      !JumpsTo(RemoveEndpointChain(tbl, id, h)[BaseChain(h)], EndpointChain(id, h))
    ensures forall c :: c != EndpointChain(id, h) ==> (c in RemoveEndpointChain(tbl, id, h) <==> c in tbl)
    ensures forall c :: c in RemoveEndpointChain(tbl, id, h) && c != BaseChain(h) ==>
      RemoveEndpointChain(tbl, id, h)[c] == tbl[c]
  {
  }

  /** The table after `remove_endpointchains(id)`: the OUTPUT, POSTROUTING and PREROUTING parts in turn. */
  function RemoveEndpoint(tbl: Chains, id: string): Chains
  {
    RemoveEndpointChain(RemoveEndpointChain(RemoveEndpointChain(tbl, id, Output), id, Postrouting), id, Prerouting)
  }

  /**
   * Afterwards none of the endpoint's three chains exists and no base chain
   * jumps to them; every other chain is still there, and every chain but the
   * base chains keeps its rules.
   */
  lemma {:induction false} RemoveEndpointEffect(tbl: Chains, id: string)
    ensures forall h :: EndpointChain(id, h) !in RemoveEndpoint(tbl, id)
    ensures forall h :: BaseChain(h) in RemoveEndpoint(tbl, id) ==>
      !JumpsTo(RemoveEndpoint(tbl, id)[BaseChain(h)], EndpointChain(id, h))
    ensures forall c :: c in RemoveEndpoint(tbl, id) <==>
      c in tbl && c != EndpointChain(id, Output) && c != EndpointChain(id, Postrouting) && c != EndpointChain(id, Prerouting)
    ensures forall c :: c in RemoveEndpoint(tbl, id) && BaseHook(c).None? ==> RemoveEndpoint(tbl, id)[c] == tbl[c]
  {
    RemoveEndpointGone(tbl, id);
    RemoveEndpointKeeps(tbl, id);
  }

  /** The first half of `RemoveEndpointEffect`: the endpoint's chains and their jumps are gone. */
  lemma {:induction false} RemoveEndpointGone(tbl: Chains, id: string)
    ensures forall h :: EndpointChain(id, h) !in RemoveEndpoint(tbl, id)
    ensures forall h :: BaseChain(h) in RemoveEndpoint(tbl, id) ==>
      !JumpsTo(RemoveEndpoint(tbl, id)[BaseChain(h)], EndpointChain(id, h))
  {
    ChainNamesDistinct(id);
    var out := RemoveEndpointChain(tbl, id, Output);
    var post := RemoveEndpointChain(out, id, Postrouting);
    var r := RemoveEndpointChain(post, id, Prerouting);
    RemoveEndpointChainEffect(tbl, id, Output);
    RemoveEndpointChainEffect(out, id, Postrouting);
    RemoveEndpointChainEffect(post, id, Prerouting);
    forall h ensures EndpointChain(id, h) !in r
      && (BaseChain(h) in r ==> !JumpsTo(r[BaseChain(h)], EndpointChain(id, h)))
    {
      var b := BaseChain(h);
      match h
      case Output =>
        assert b in r ==> r[b] == post[b] == out[b];
      case Postrouting =>
        assert b in r ==> r[b] == post[b];
      case Prerouting =>
    }
  }

  /** The second half of `RemoveEndpointEffect`: every other chain stays, and all but the base chains keep their rules. */
  lemma {:induction false} RemoveEndpointKeeps(tbl: Chains, id: string)
    ensures forall c :: c in RemoveEndpoint(tbl, id) <==>
      c in tbl && c != EndpointChain(id, Output) && c != EndpointChain(id, Postrouting) && c != EndpointChain(id, Prerouting)
    ensures forall c :: c in RemoveEndpoint(tbl, id) && BaseHook(c).None? ==> RemoveEndpoint(tbl, id)[c] == tbl[c]
  {
    var out := RemoveEndpointChain(tbl, id, Output);
    var post := RemoveEndpointChain(out, id, Postrouting);
    RemoveEndpointChainEffect(tbl, id, Output);
    RemoveEndpointChainEffect(out, id, Postrouting);
    RemoveEndpointChainEffect(post, id, Prerouting);
  }

  /** The names `remove_endpointchains` builds are the ones `unlink_and_delete_chain` maps back to the same base chains. */
  lemma RemoveEndpointIsUnlinkAndDelete(tbl: Chains, id: string)
    ensures RemoveEndpoint(tbl, id) == UnlinkAndDrop(UnlinkAndDrop(UnlinkAndDrop(tbl,
      EndpointChain(id, Output)), EndpointChain(id, Postrouting)), EndpointChain(id, Prerouting))
  {
  }

  /** Under the invariant, afterwards no chain at all jumps to the endpoint's chains, and the invariant still holds. */
  lemma {:induction false} RemoveEndpointUnlinksAll(tbl: Chains, id: string)
    requires LinksWellFormed(tbl)
    ensures LinksWellFormed(RemoveEndpoint(tbl, id))
    ensures forall h :: NoJumpTo(RemoveEndpoint(tbl, id), EndpointChain(id, h))
  {
    var out := RemoveEndpointChain(tbl, id, Output);
    var post := RemoveEndpointChain(out, id, Postrouting);
    var r := RemoveEndpointChain(post, id, Prerouting);
    RemoveEndpointChainKeepsLinks(tbl, id, Output);
    RemoveEndpointChainKeepsLinks(out, id, Postrouting);
    RemoveEndpointChainKeepsLinks(post, id, Prerouting);
    RemoveEndpointEffect(tbl, id);
    forall h ensures NoJumpTo(r, EndpointChain(id, h)) {
      var name := EndpointChain(id, h);
      EndpointChainLinkedOnlyFromParent(r, name);
      forall c | c in r ensures !JumpsTo(r[c], name) {
        if c != BaseChain(h) {
          assert c != name;
        }
      }
    }
  }

  lemma RemoveEndpointChainKeepsLinks(tbl: Chains, id: string, h: Hook)
    requires LinksWellFormed(tbl)
    ensures LinksWellFormed(RemoveEndpointChain(tbl, id, h))
  {
    UnlinkKeepsLinks(tbl, BaseChain(h), EndpointChain(id, h));
    DropKeepsLinks(Unlink(tbl, BaseChain(h), EndpointChain(id, h)), EndpointChain(id, h));
  }

  /** A hook's part finds nothing to do once the chain is gone and unlinked. */
  lemma RemoveEndpointChainDone(tbl: Chains, id: string, h: Hook)
    requires EndpointChain(id, h) !in tbl
    requires BaseChain(h) in tbl ==> !JumpsTo(tbl[BaseChain(h)], EndpointChain(id, h))
    ensures RemoveEndpointChain(tbl, id, h) == tbl
  {
    UnlinkNothing(tbl, BaseChain(h), EndpointChain(id, h));
    DropNothing(tbl, EndpointChain(id, h));
  }

  /** Running `remove_endpointchains` a second time changes nothing. */
  lemma {:induction false} RemoveEndpointIdempotent(tbl: Chains, id: string)
    ensures RemoveEndpoint(RemoveEndpoint(tbl, id), id) == RemoveEndpoint(tbl, id)
  {
    var r := RemoveEndpoint(tbl, id);
    RemoveEndpointEffect(tbl, id);
    RemoveEndpointChainDone(r, id, Output);
    RemoveEndpointChainDone(r, id, Postrouting);
    RemoveEndpointChainDone(r, id, Prerouting);
  }

  /** One hook's pair of calls in `remove_endpointchains`: unlink the endpoint's chain, then delete it. */
  method RemoveEndpointChainStep(t: Table, id: string, h: Hook)
    requires t.Valid() && LinksWellFormed(t.pending)
    modifies t
    ensures t.Valid() && t.autocommit == old(t.autocommit)
    ensures t.pending == RemoveEndpointChain(old(t.pending), id, h) && LinksWellFormed(t.pending)
    ensures !old(t.autocommit) ==> t.committed == old(t.committed) && t.history == old(t.history)
  {
    UnlinkedEndpointChainIsFree(t.pending, id, h);
    RemoveEndpointChainKeepsLinks(t.pending, id, h);
    UnlinkChains(t, BaseChain(h), EndpointChain(id, h));
    DeleteChain(t, EndpointChain(id, h));
  }

  /** `remove_endpointchains`: one batch that unlinks and deletes the endpoint's three chains. */
  method RemoveEndpointChains(t: Table, id: string) returns (ok: bool)
    requires t.Valid() && LinksWellFormed(t.committed)
    modifies t
    ensures ok
    ensures t.Valid() && t.autocommit
    ensures t.committed == RemoveEndpoint(old(t.committed), id)
    ensures t.history == old(t.history) + [t.committed]
  {
    StartBatch(t);
    RemoveEndpointChainStep(t, id, Output);
    RemoveEndpointChainStep(t, id, Postrouting);
    RemoveEndpointChainStep(t, id, Prerouting);
    FinishBatch(t);
    ok := true;
  }

  // ---------------------------------------------------------------------
  // setup_basic_rules (iptables.py:25-44)

  /** The kernel's built-in chains for the three hooks are in the table. */
  predicate RootsPresent(tbl: Chains)
  {
    forall h :: HookName(h) in tbl
  }

  /** A base chain is never a built-in chain nor the name of a hook: it is longer than all of them. */
  lemma BaseChainNotRoot(h: Hook)
    ensures BaseChain(h) !in BuiltinChains
    ensures forall h' :: BaseChain(h) != HookName(h')
  {
    var name := BaseChain(h);
    assert |name| > 11 by {
      assert |name| == |BasePrefix| + |HookName(h)|;
    }
    RootNamesShort();
  }

  lemma RootNamesShort()
    ensures forall n :: n in BuiltinChains ==> |n| <= 11
    ensures forall h :: |HookName(h)| <= 11
  {
  }

  /** The first half of `setup_basic_rules`: create the three base chains, then append the guard. */
  function BaseChainsCreated(tbl: Chains): (r: Chains)
    ensures RootsPresent(tbl) ==> RootsPresent(r)
  {
    var created := Created(Created(Created(tbl, BaseChain(Postrouting)), BaseChain(Prerouting)), BaseChain(Output));
    Appended(created, BaseChain(Postrouting), GuardRule)
  }

  /** The second half of `setup_basic_rules`: a jump from each hook's built-in chain to its base chain. */
  function HooksLinked(tbl: Chains): Chains
    requires RootsPresent(tbl)
  {
    var pos := Appended(tbl, HookName(Postrouting), Jump(BaseChain(Postrouting)));
    var pre := Appended(pos, HookName(Prerouting), Jump(BaseChain(Prerouting)));
    Appended(pre, HookName(Output), Jump(BaseChain(Output)))
  }

  /** The table after `setup_basic_rules`. */
  function Setup(tbl: Chains): Chains
    requires RootsPresent(tbl)
  {
    HooksLinked(BaseChainsCreated(tbl))
  }

  /** The rules a chain holds right after `create_chain`. */
  function CreatedRules(tbl: Chains, name: string): seq<Rule>
  {
    if name in tbl then tbl[name] else []
  }

  /**
   * What the first half does: the base chains exist; the guard is appended
   * to the POSTROUTING base chain; every other chain keeps its rules.
   */
  lemma BaseChainsCreatedEffect(tbl: Chains)
    ensures forall c :: c in BaseChainsCreated(tbl) <==>
      c in tbl || c == BaseChain(Postrouting) || c == BaseChain(Prerouting) || c == BaseChain(Output)
    ensures BaseChainsCreated(tbl)[BaseChain(Postrouting)] == CreatedRules(tbl, BaseChain(Postrouting)) + [GuardRule]
    ensures BaseChainsCreated(tbl)[BaseChain(Prerouting)] == CreatedRules(tbl, BaseChain(Prerouting))
    ensures BaseChainsCreated(tbl)[BaseChain(Output)] == CreatedRules(tbl, BaseChain(Output))
    ensures forall c :: c in tbl && BaseHook(c).None? ==> BaseChainsCreated(tbl)[c] == tbl[c]
  {
    ChainNamesDistinct("");
    var c1 := Created(tbl, BaseChain(Postrouting));
    var c2 := Created(c1, BaseChain(Prerouting));
    var c3 := Created(c2, BaseChain(Output));
    CreatedEffect(tbl, BaseChain(Postrouting));
    CreatedEffect(c1, BaseChain(Prerouting));
    CreatedEffect(c2, BaseChain(Output));
  }

  /** What the second half does: each hook's built-in chain gains one jump, at its end, to its base chain. */
  lemma HooksLinkedEffect(tbl: Chains)
    requires RootsPresent(tbl)
    ensures forall c :: c in HooksLinked(tbl) <==> c in tbl
    ensures forall h :: HooksLinked(tbl)[HookName(h)] == tbl[HookName(h)] + [Jump(BaseChain(h))]
    ensures forall c :: c in tbl && RootHook(c).None? ==> HooksLinked(tbl)[c] == tbl[c]
  {
    var pos := Appended(tbl, HookName(Postrouting), Jump(BaseChain(Postrouting)));
    var pre := Appended(pos, HookName(Prerouting), Jump(BaseChain(Prerouting)));
    var r := Appended(pre, HookName(Output), Jump(BaseChain(Output)));
    assert r == HooksLinked(tbl);
    forall h ensures r[HookName(h)] == tbl[HookName(h)] + [Jump(BaseChain(h))] {
      match h
      case Postrouting =>
        assert r[HookName(h)] == pre[HookName(h)] == pos[HookName(h)];
      case Prerouting =>
        assert r[HookName(h)] == pre[HookName(h)];
      case Output =>
    }
  }

  /**
   * What setup does: the base chains exist; the guard is appended to the
   * POSTROUTING base chain, and is its only rule when that chain is new;
   * each built-in hook chain gains one jump, at its end, to its base chain;
   * every other chain keeps its rules.
   */
  lemma {:induction false} SetupEffect(tbl: Chains)
    requires RootsPresent(tbl)
    ensures forall c :: c in Setup(tbl) <==>
      c in tbl || c == BaseChain(Postrouting) || c == BaseChain(Prerouting) || c == BaseChain(Output)
    ensures Setup(tbl)[BaseChain(Postrouting)] == CreatedRules(tbl, BaseChain(Postrouting)) + [GuardRule]
    ensures Setup(tbl)[BaseChain(Prerouting)] == CreatedRules(tbl, BaseChain(Prerouting))
    ensures Setup(tbl)[BaseChain(Output)] == CreatedRules(tbl, BaseChain(Output))
    ensures forall h :: Setup(tbl)[HookName(h)] == tbl[HookName(h)] + [Jump(BaseChain(h))]
    ensures forall c :: c in tbl && BaseHook(c).None? && RootHook(c).None? ==> Setup(tbl)[c] == tbl[c]
  {
    SetupBaseChains(tbl);
    SetupHooks(tbl);
  }

  /** The base-chain half of `SetupEffect`. */
  lemma {:induction false} SetupBaseChains(tbl: Chains)
    requires RootsPresent(tbl)
    ensures forall c :: c in Setup(tbl) <==>
      c in tbl || c == BaseChain(Postrouting) || c == BaseChain(Prerouting) || c == BaseChain(Output)
    ensures Setup(tbl)[BaseChain(Postrouting)] == CreatedRules(tbl, BaseChain(Postrouting)) + [GuardRule]
    ensures Setup(tbl)[BaseChain(Prerouting)] == CreatedRules(tbl, BaseChain(Prerouting))
    ensures Setup(tbl)[BaseChain(Output)] == CreatedRules(tbl, BaseChain(Output))
  {
    var mid := BaseChainsCreated(tbl);
    BaseChainsCreatedEffect(tbl);
    HooksLinkedEffect(mid);
    BaseChainNotRoot(Postrouting);
    BaseChainNotRoot(Prerouting);
    BaseChainNotRoot(Output);
  }

  /** The hook half of `SetupEffect`. */
  lemma {:induction false} SetupHooks(tbl: Chains)
    requires RootsPresent(tbl)
    ensures forall h :: Setup(tbl)[HookName(h)] == tbl[HookName(h)] + [Jump(BaseChain(h))]
    ensures forall c :: c in tbl && BaseHook(c).None? && RootHook(c).None? ==> Setup(tbl)[c] == tbl[c]
  {
    var mid := BaseChainsCreated(tbl);
    BaseChainsCreatedEffect(tbl);
    HooksLinkedEffect(mid);
    forall h ensures mid[HookName(h)] == tbl[HookName(h)] {
      HookNotBase(h);
    }
  }

  /** A hook's built-in chain is no base chain. */
  lemma HookNotBase(h: Hook)
    ensures BaseHook(HookName(h)).None?
  {
    BaseChainNotRoot(Postrouting);
    BaseChainNotRoot(Prerouting);
    BaseChainNotRoot(Output);
  }

  /** A new POSTROUTING base chain holds the guard rule and nothing else. */
  lemma SetupGuardOnly(tbl: Chains)
    requires RootsPresent(tbl) && BaseChain(Postrouting) !in tbl
    ensures Setup(tbl)[BaseChain(Postrouting)] == [GuardRule]
  {
    SetupEffect(tbl);
  }

  lemma {:induction false} CreatedKeepsLinks(tbl: Chains, name: string)
    requires LinksWellFormed(tbl)
    ensures LinksWellFormed(Created(tbl, name))
  {
    var r := Created(tbl, name);
    forall c, x: Rule | c in r && x in r[c]
      ensures JumpAllowed(c, x.target)
    {
      assert c in tbl && x in tbl[c];
    }
  }

  lemma {:induction false} AppendedKeepsLinks(tbl: Chains, chain: string, rule: Rule)
    requires LinksWellFormed(tbl) && chain in tbl && JumpAllowed(chain, rule.target)
    ensures LinksWellFormed(Appended(tbl, chain, rule))
  {
    var r := Appended(tbl, chain, rule);
    forall c, x: Rule | c in r && x in r[c]
      ensures JumpAllowed(c, x.target)
    {
      if c != chain || x != rule {
        assert x in tbl[c] by {
          if c == chain {
            assert r[c] == tbl[c] + [rule];
          }
        }
      }
    }
  }

  /** The jumps setup adds are the ones the links invariant allows. */
  lemma {:induction false} SetupKeepsLinks(tbl: Chains)
    requires RootsPresent(tbl) && LinksWellFormed(tbl)
    ensures LinksWellFormed(Setup(tbl))
  {
    var c1 := Created(tbl, BaseChain(Postrouting));
    var c2 := Created(c1, BaseChain(Prerouting));
    var c3 := Created(c2, BaseChain(Output));
    CreatedKeepsLinks(tbl, BaseChain(Postrouting));
    CreatedKeepsLinks(c1, BaseChain(Prerouting));
    CreatedKeepsLinks(c2, BaseChain(Output));
    assert GuardRule.target[0] != RulePrefix[0];
    ChainNamesDistinct("");
    var guarded := Appended(c3, BaseChain(Postrouting), GuardRule);
    AppendedKeepsLinks(c3, BaseChain(Postrouting), GuardRule);
    var pos := Appended(guarded, HookName(Postrouting), Jump(BaseChain(Postrouting)));
    AppendedKeepsLinks(guarded, HookName(Postrouting), Jump(BaseChain(Postrouting)));
    var pre := Appended(pos, HookName(Prerouting), Jump(BaseChain(Prerouting)));
    AppendedKeepsLinks(pos, HookName(Prerouting), Jump(BaseChain(Prerouting)));
    AppendedKeepsLinks(pre, HookName(Output), Jump(BaseChain(Output)));
  }

  /**
   * Setup appends unconditionally: run twice, every hook's built-in chain
   * holds one more jump to its base chain, so the table differs.
   */
  lemma SetupNotIdempotent(tbl: Chains)
    requires RootsPresent(tbl)
    ensures RootsPresent(Setup(tbl))
    ensures forall h :: |Setup(Setup(tbl))[HookName(h)]| == |Setup(tbl)[HookName(h)]| + 1
    ensures Setup(Setup(tbl)) != Setup(tbl)
  {
    SetupEffect(tbl);
    SetupEffect(Setup(tbl));
    assert |Setup(Setup(tbl))[HookName(Output)]| == |Setup(tbl)[HookName(Output)]| + 1;
  }

  /** Lines 29-38 of `setup_basic_rules`. */
  method CreateBaseChains(t: Table)
    requires t.Valid()
    modifies t
    ensures t.Valid() && t.autocommit == old(t.autocommit)
    ensures t.pending == BaseChainsCreated(old(t.pending))
    ensures !old(t.autocommit) ==> t.committed == old(t.committed) && t.history == old(t.history)
  {
    t.CreateChain(BaseChain(Postrouting));
    t.CreateChain(BaseChain(Prerouting));
    t.CreateChain(BaseChain(Output));
    t.AppendRule(BaseChain(Postrouting), GuardRule);
  }

  /** Lines 40-42 of `setup_basic_rules`. */
  method LinkBaseChains(t: Table)
    requires t.Valid() && RootsPresent(t.pending)
    modifies t
    ensures t.Valid() && t.autocommit == old(t.autocommit)
    ensures t.pending == HooksLinked(old(t.pending))
    ensures !old(t.autocommit) ==> t.committed == old(t.committed) && t.history == old(t.history)
  {
    LinkChains(t, HookName(Postrouting), BaseChain(Postrouting));
    LinkChains(t, HookName(Prerouting), BaseChain(Prerouting));
    LinkChains(t, HookName(Output), BaseChain(Output));
  }

  /** `setup_basic_rules`: one batch that creates, guards and links the base chains. */
  method SetupBasicRules(t: Table)
    requires t.Valid() && RootsPresent(t.committed)
    modifies t
    ensures t.Valid() && t.autocommit
    ensures t.committed == Setup(old(t.committed))
    ensures t.history == old(t.history) + [t.committed]
  {
    StartBatch(t);
    CreateBaseChains(t);
    LinkBaseChains(t);
    FinishBatch(t);
  }

  // ---------------------------------------------------------------------
  // cleanup_rules (iptables.py:61-79)

  /** `[name for name in chains if name[:10] == "ipfl-rule-"]`, in the order of `chains`. */
  function EndpointChainNames(names: seq<string>): (r: seq<string>)
    ensures forall n :: n in r <==> n in names && IsEndpointChainName(n)
  {
    if names == [] then []
    else if IsEndpointChainName(names[0]) then [names[0]] + EndpointChainNames(names[1..])
    else EndpointChainNames(names[1..])
  }

  /** What cleanup leaves of a chain it keeps: a hook's built-in chain loses its jumps to its base chain. */
  function Unhooked(c: string, rules: seq<Rule>): seq<Rule>
  {
    match RootHook(c)
    case Some(h) => WithoutTarget(rules, BaseChain(h))
    case None => rules
  }

  /**
   * The table `cleanup_rules` leaves: no endpoint chain and no base chain;
   * the hooks' built-in chains without their jumps to the base chains;
   * every other chain as it was.
   */
  function Cleanup(tbl: Chains): Chains
  {
    map c | c in tbl && !IsEndpointChainName(c) && BaseHook(c).None? :: Unhooked(c, tbl[c])
  }

  /** Lines 71-73 of `cleanup_rules`: unlink each base chain from its hook's built-in chain. */
  function UnlinkHooks(tbl: Chains): Chains
  {
    var pos := Unlink(tbl, HookName(Postrouting), BaseChain(Postrouting));
    var pre := Unlink(pos, HookName(Prerouting), BaseChain(Prerouting));
    Unlink(pre, HookName(Output), BaseChain(Output))
  }

  /** Lines 74-76 of `cleanup_rules`: delete the three base chains. */
  function DropBases(tbl: Chains): Chains
  {
    Drop(Drop(Drop(tbl, BaseChain(Postrouting)), BaseChain(Prerouting)), BaseChain(Output))
  }

  /** Lines 71-76 of `cleanup_rules`: unlink each base chain from its hook, then delete the three. */
  function UnhookBases(tbl: Chains): Chains
  {
    DropBases(UnlinkHooks(tbl))
  }

  /** The three unlinks keep every chain, and leave each as cleanup keeps it. */
  lemma UnlinkHooksEffect(tbl: Chains)
    ensures forall c :: c in UnlinkHooks(tbl) <==> c in tbl
    ensures forall c :: c in tbl ==> UnlinkHooks(tbl)[c] == Unhooked(c, tbl[c])
  {
    var pos := Unlink(tbl, HookName(Postrouting), BaseChain(Postrouting));
    var pre := Unlink(pos, HookName(Prerouting), BaseChain(Prerouting));
    var out := Unlink(pre, HookName(Output), BaseChain(Output));
    forall c | c in tbl ensures out[c] == Unhooked(c, tbl[c]) {
      match RootHook(c)
      case Some(h) =>
        match h {
          case Postrouting =>
            assert out[c] == pre[c] == pos[c];
          case Prerouting =>
            assert out[c] == pre[c] && pos[c] == tbl[c];
          case Output =>
            assert pre[c] == pos[c] == tbl[c];
        }
      case None =>
        assert out[c] == pre[c] == pos[c] == tbl[c];
    }
  }

  /** The three deletes remove exactly the base chains. */
  lemma DropBasesEffect(tbl: Chains)
    ensures forall c :: c in DropBases(tbl) <==> c in tbl && BaseHook(c).None?
    ensures forall c :: c in DropBases(tbl) ==> DropBases(tbl)[c] == tbl[c]
  {
  }

  /** No hook's built-in chain jumps to its base chain. */
  predicate HooksUnlinked(tbl: Chains)
  {
    forall h :: HookName(h) in tbl ==> !JumpsTo(tbl[HookName(h)], BaseChain(h))
  }

  /** The three unlinks leave every hook's built-in chain without a jump to its base chain. */
  lemma HooksUnlinkedAfterUnlink(tbl: Chains)
    ensures HooksUnlinked(UnlinkHooks(tbl))
  {
    var pos := Unlink(tbl, HookName(Postrouting), BaseChain(Postrouting));
    var pre := Unlink(pos, HookName(Prerouting), BaseChain(Prerouting));
    var out := Unlink(pre, HookName(Output), BaseChain(Output));
    forall h | HookName(h) in out ensures !JumpsTo(out[HookName(h)], BaseChain(h)) {
      match h
      case Postrouting =>
        assert out[HookName(h)] == pre[HookName(h)] == pos[HookName(h)];
      case Prerouting =>
        assert out[HookName(h)] == pre[HookName(h)];
      case Output =>
    }
  }

  /** Under the invariant, a base chain no hook jumps to is one the kernel lets go. */
  lemma BaseChainFree(tbl: Chains, h: Hook)
    requires LinksWellFormed(tbl) && HooksUnlinked(tbl)
    ensures Unreferenced(tbl, BaseChain(h)) && BaseChain(h) !in BuiltinChains
  {
    BaseChainLinkedOnlyFromRoot(tbl, h);
    BaseChainNotRoot(h);
  }

  /** Lines 71-76 of `cleanup_rules`, on the handle. */
  method RemoveBaseChains(t: Table)
    requires t.Valid() && LinksWellFormed(t.pending)
    modifies t
    ensures t.Valid() && t.autocommit == old(t.autocommit)
    ensures t.pending == UnhookBases(old(t.pending))
    ensures !old(t.autocommit) ==> t.committed == old(t.committed) && t.history == old(t.history)
  {
    ghost var start := t.pending;
    UnlinkChains(t, HookName(Postrouting), BaseChain(Postrouting));
    UnlinkKeepsLinks(start, HookName(Postrouting), BaseChain(Postrouting));
    ghost var pos := t.pending;
    UnlinkChains(t, HookName(Prerouting), BaseChain(Prerouting));
    UnlinkKeepsLinks(pos, HookName(Prerouting), BaseChain(Prerouting));
    ghost var pre := t.pending;
    UnlinkChains(t, HookName(Output), BaseChain(Output));
    UnlinkKeepsLinks(pre, HookName(Output), BaseChain(Output));
    HooksUnlinkedAfterUnlink(start);

    ghost var out := t.pending;
    BaseChainFree(out, Postrouting);
    DeleteChain(t, BaseChain(Postrouting));
    DropKeepsLinks(out, BaseChain(Postrouting));
    ghost var d1 := t.pending;
    BaseChainFree(d1, Prerouting);
    DeleteChain(t, BaseChain(Prerouting));
    DropKeepsLinks(d1, BaseChain(Prerouting));
    BaseChainFree(t.pending, Output);
    DeleteChain(t, BaseChain(Output));
  }

  /**
   * Once the endpoint chains are gone and only base chains have changed,
   * lines 71-76 leave exactly `Cleanup` of the table the batch started from.
   */
  lemma {:induction false} UnhookBasesFinishesCleanup(start: Chains, mid: Chains)
    requires forall c :: c in mid <==> c in start && !IsEndpointChainName(c)
    requires forall c :: c in mid && BaseHook(c).None? ==> mid[c] == start[c]
    ensures UnhookBases(mid) == Cleanup(start)
  {
    UnlinkHooksEffect(mid);
    DropBasesEffect(UnlinkHooks(mid));
    assert UnhookBases(mid).Keys == Cleanup(start).Keys;
  }

  /**
   * Lines 68-69 of `cleanup_rules`: unlink and delete each named endpoint
   * chain in turn. Every one goes; only base chains change otherwise.
   */
  method UnlinkAndDeleteChains(t: Table, names: seq<string>)
    requires t.Valid() && LinksWellFormed(t.pending)
    requires forall k :: 0 <= k < |names| ==> IsEndpointChainName(names[k])
    modifies t
    ensures t.Valid() && t.autocommit == old(t.autocommit)
    ensures LinksWellFormed(t.pending)
    ensures forall c :: c in t.pending <==> c in old(t.pending) && c !in names
    ensures forall c :: c in t.pending && BaseHook(c).None? ==> t.pending[c] == old(t.pending)[c]
    ensures !old(t.autocommit) ==> t.committed == old(t.committed) && t.history == old(t.history)
  {
    var i := 0;
    while i < |names|
      invariant 0 <= i <= |names|
      invariant t.Valid() && t.autocommit == old(t.autocommit)
      invariant !old(t.autocommit) ==> t.committed == old(t.committed) && t.history == old(t.history)
      invariant LinksWellFormed(t.pending)
      invariant forall c :: c in t.pending <==> c in old(t.pending) && c !in names[..i]
      invariant forall c :: c in t.pending && BaseHook(c).None? ==> t.pending[c] == old(t.pending)[c]
    {
      ghost var before := t.pending;
      EndpointChainLinkedOnlyFromParent(before, names[i]);
      UnlinkAndDeleteChain(t, names[i]);
      UnlinkAndDropEffect(before, names[i]);
      UnlinkAndDropKeepsLinks(before, names[i]);
      PrefixGrows(names, i);
      i := i + 1;
    }
    assert names[..i] == names;
  }

  /** A loop's prefix grows by the element it has just handled. */
  lemma PrefixGrows(names: seq<string>, i: nat)
    requires i < |names|
    ensures forall c :: c in names[..i + 1] <==> c in names[..i] || c == names[i]
  {
    assert names[..i + 1] == names[..i] + [names[i]];
  }

  /** `cleanup_rules`: one batch that deletes every endpoint chain, then the base chains. */
  method CleanupRules(t: Table)
    requires t.Valid() && LinksWellFormed(t.committed)
    modifies t
    ensures t.Valid() && t.autocommit
    ensures t.committed == Cleanup(old(t.committed))
    ensures t.history == old(t.history) + [t.committed]
  {
    StartBatch(t);
    ghost var start := t.pending;
    var chains := t.ChainNames();
    var rules := EndpointChainNames(chains);
    UnlinkAndDeleteChains(t, rules);
    UnhookBasesFinishesCleanup(start, t.pending);
    RemoveBaseChains(t);
    FinishBatch(t);
  }

  // ---------------------------------------------------------------------
  // What cleanup guarantees, and how it relates to the other procedures.

  /**
   * After cleanup no chain whose name starts with `ipfl-rule-` and no base
   * chain is left (in particular no `EndpointChain(id, h)`), and, under the
   * invariant, no kept rule jumps to one: nothing dangles.
   */
  lemma {:induction false} CleanupLeavesNoJumps(tbl: Chains)
    requires LinksWellFormed(tbl)
    ensures forall c :: c in Cleanup(tbl) ==> !IsEndpointChainName(c) && BaseHook(c).None?
    ensures forall id, h :: EndpointChain(id, h) !in Cleanup(tbl) && BaseChain(h) !in Cleanup(tbl)
    ensures forall c, x :: c in Cleanup(tbl) && x in Cleanup(tbl)[c] ==>
      !IsEndpointChainName(x.target) && BaseHook(x.target).None?
    ensures LinksWellFormed(Cleanup(tbl))
  {
    var r := Cleanup(tbl);
    forall c, x: Rule | c in r && x in r[c]
      ensures !IsEndpointChainName(x.target) && BaseHook(x.target).None?
    {
      assert x in tbl[c] && JumpAllowed(c, x.target);
      if RootHook(c).Some? {
        assert x.target != BaseChain(RootHook(c).value);
      }
    }
  }

  /** Cleanup deletes the base chains, so what the first half of setup did to them is gone. */
  lemma {:induction false} CleanupAfterBaseChainsCreated(tbl: Chains)
    ensures Cleanup(BaseChainsCreated(tbl)) == Cleanup(tbl)
  {
    BaseChainsCreatedEffect(tbl);
    CleanupOnlyKeeps(BaseChainsCreated(tbl), tbl);
  }

  /** Cleanup drops every hook's jumps to its base chain, so the ones the second half of setup appends go. */
  lemma {:induction false} CleanupAfterHooksLinked(tbl: Chains)
    requires RootsPresent(tbl)
    ensures Cleanup(HooksLinked(tbl)) == Cleanup(tbl)
  {
    var m := HooksLinked(tbl);
    HooksLinkedEffect(tbl);
    forall c | c in tbl ensures Unhooked(c, m[c]) == Unhooked(c, tbl[c]) {
      match RootHook(c)
      case Some(h) =>
        UnhookedAfterJump(tbl[c], h);
      case None =>
    }
    CleanupAgrees(m, tbl);
  }

  /** The jump to its base chain that setup appends to a hook's chain is one cleanup drops. */
  lemma UnhookedAfterJump(rules: seq<Rule>, h: Hook)
    ensures Unhooked(HookName(h), rules + [Jump(BaseChain(h))]) == Unhooked(HookName(h), rules)
  {
    var b := BaseChain(h);
    WithoutTargetConcat(rules, [Jump(b)], b);
    assert WithoutTarget([Jump(b)], b) == [];
  }

  /** Two tables whose kept chains match, up to what cleanup drops from them, clean up alike. */
  lemma {:induction false} CleanupAgrees(a: Chains, b: Chains)
    requires forall c :: !IsEndpointChainName(c) && BaseHook(c).None? ==> (c in a <==> c in b)
    requires forall c :: c in a && c in b && !IsEndpointChainName(c) && BaseHook(c).None? ==>
      Unhooked(c, a[c]) == Unhooked(c, b[c])
    ensures Cleanup(a) == Cleanup(b)
  {
    assert Cleanup(a).Keys == Cleanup(b).Keys;
  }

  /** Cleanup undoes setup: the base chains go and each hook loses the jump setup appended. */
  lemma CleanupAfterSetup(tbl: Chains)
    requires RootsPresent(tbl)
    ensures Cleanup(Setup(tbl)) == Cleanup(tbl)
  {
    CleanupAfterHooksLinked(BaseChainsCreated(tbl));
    CleanupAfterBaseChainsCreated(tbl);
  }

  /** Cleaning up a cleaned-up table changes nothing. */
  lemma {:induction false} CleanupIdempotent(tbl: Chains)
    ensures Cleanup(Cleanup(tbl)) == Cleanup(tbl)
  {
    var r := Cleanup(tbl);
    forall c | c in r ensures Unhooked(c, r[c]) == r[c] {
      UnhookedIdempotent(c, tbl[c]);
    }
    CleanupKeepsAll(r);
  }

  lemma UnhookedIdempotent(c: string, rules: seq<Rule>)
    ensures Unhooked(c, Unhooked(c, rules)) == Unhooked(c, rules)
  {
    match RootHook(c)
    case Some(h) =>
      WithoutTargetIdempotent(rules, BaseChain(h));
    case None =>
  }

  /** A table whose every chain cleanup keeps, and keeps as it is, is its own cleanup. */
  lemma {:induction false} CleanupKeepsAll(tbl: Chains)
    requires forall c :: c in tbl ==> !IsEndpointChainName(c) && BaseHook(c).None? && Unhooked(c, tbl[c]) == tbl[c]
    ensures Cleanup(tbl) == tbl
  {
    assert Cleanup(tbl).Keys == tbl.Keys;
  }

  /** Cleanup looks only at the chains it keeps: two tables that agree on those clean up alike. */
  lemma {:induction false} CleanupOnlyKeeps(a: Chains, b: Chains)
    requires forall c :: !IsEndpointChainName(c) && BaseHook(c).None? ==> (c in a <==> c in b)
    requires forall c :: c in a && c in b && !IsEndpointChainName(c) && BaseHook(c).None? ==> a[c] == b[c]
    ensures Cleanup(a) == Cleanup(b)
  {
    assert Cleanup(a).Keys == Cleanup(b).Keys;
  }

  /** Removing an endpoint first makes no difference to what cleanup leaves. */
  lemma {:induction false} CleanupAfterRemoveEndpoint(tbl: Chains, id: string)
    ensures Cleanup(RemoveEndpoint(tbl, id)) == Cleanup(tbl)
  {
    var r := RemoveEndpoint(tbl, id);
    RemoveEndpointEffect(tbl, id);
    forall c | !IsEndpointChainName(c) && BaseHook(c).None? ensures c in r <==> c in tbl {
      assert c != EndpointChain(id, Output) && c != EndpointChain(id, Postrouting) && c != EndpointChain(id, Prerouting);
    }
    CleanupOnlyKeeps(r, tbl);
  }

  /** A table with none of the floater's chains and no hook jumping to a base chain. */
  predicate FloaterFree(tbl: Chains)
  {
    && (forall c :: c in tbl ==> !IsEndpointChainName(c) && BaseHook(c).None?)
    && HooksUnlinked(tbl)
  }

  /** Cleanup leaves a table that holds nothing of the floater's as it is. */
  lemma {:induction false} CleanupFloaterFree(tbl: Chains)
    requires FloaterFree(tbl)
    ensures Cleanup(tbl) == tbl
  {
    forall c | c in tbl ensures Unhooked(c, tbl[c]) == tbl[c] {
      UnhookedUnlinked(tbl, c);
    }
    CleanupKeepsAll(tbl);
  }

  /** A built-in chain with no jump to its hook's base chain is kept as it is. */
  lemma UnhookedUnlinked(tbl: Chains, c: string)
    requires HooksUnlinked(tbl) && c in tbl
    ensures Unhooked(c, tbl[c]) == tbl[c]
  {
    match RootHook(c)
    case Some(h) =>
      WithoutTargetAbsent(tbl[c], BaseChain(h));
    case None =>
  }

  /** On a table that holds nothing of the floater's, setup then cleanup restores it exactly. */
  lemma SetupCleanupRoundTrip(tbl: Chains)
    requires RootsPresent(tbl) && FloaterFree(tbl)
    ensures Cleanup(Setup(tbl)) == tbl
  {
    CleanupAfterSetup(tbl);
    CleanupFloaterFree(tbl);
  }

  /** `unlink_chains` twice is `unlink_chains` once. */
  lemma UnlinkIdempotent(tbl: Chains, first: string, second: string)
    ensures Unlink(Unlink(tbl, first, second), first, second) == Unlink(tbl, first, second)
  {
    if first in tbl {
      WithoutTargetIdempotent(tbl[first], second);
    }
  }
}
