# ipfloater NAT chain topology, in Dafny

This project models the part of ipfloater that manages the NAT table
(`iptables.py`). ipfloater floats public IP addresses onto private
endpoints, and it hangs its own chains off the kernel's built-in NAT chains:

- `ipfloater-<HOOK>` is the **base chain** for each hook (`PREROUTING`,
  `POSTROUTING`, `OUTPUT`). The hook's built-in chain jumps to it.
- `ipfl-rule-<id>-<HOOK>` is the **endpoint chain** that endpoint `id` has
  for each hook. The matching base chain jumps to it.

The model covers the eight functions of `iptables.py`:

- `setup_basic_rules` creates the base chains, the guard rule and the hook
  links.
- `cleanup_rules` deletes every endpoint chain, then the base chains.
- `remove_endpointchains` deletes the three chains of one endpoint.
- `unlink_and_delete_chain`, `delete_chain`, `link_chains`, `unlink_chains`
  and `chain_exists` are the helpers the three procedures above call.

Files:

- `wrappers.dfy`: `Option`.
- `naming.dfy` (module `Naming`): the naming scheme as functions,
  - the prefix test `cleanup_rules` uses to find endpoint chains;
  - the suffix tests `unlink_and_delete_chain` uses to find a chain's base
    chain;
  - proofs that the names `remove_endpointchains` builds are exactly the
    ones those tests find again.
- `nat_table.dfy` (module `NatTable`):
  - rules and tables as values: a table maps chain names to rule sequences,
    and a rule's match is an opaque string;
  - the rule-list functions behind deleting rules by value;
  - class `Table`, the library's table handle. It holds the handle's working
    copy (`pending`), the kernel's state (`committed`), the `autocommit`
    switch, and a ghost `history` of every state the kernel was given. Its
    methods are `refresh`, `commit`, `create_chain`, `append_rule`,
    `delete_rule`, a chain's `delete`, and the `chains` listing.
- `iptables.dfy` (module `Iptables`):
  - the helpers and the three procedures as methods on a `Table`, with the
    same loops (flushing a chain rule by rule, deleting matching rules one at
    a time, walking the discovered endpoint chains);
  - each method proved against a function on the table's value (`Drop`,
    `Unlink`, `UnlinkAndDrop`, `RemoveEndpoint`, `Setup`, `Cleanup`);
  - lemmas about those functions.

**Batching.** Each public procedure reloads the handle, switches autocommit
off, makes its changes, commits once and switches autocommit back on. Its
contract therefore says two things:

- the kernel's state after the call is the specification function applied to
  the state before it;
- `history` grew by exactly that one state, so no intermediate table ever
  reached the kernel.

**Kernel rules.** The kernel refuses to delete a chain that another chain
still jumps to. That refusal is a precondition of the chain `delete` method.
The proofs show that the unlink-before-delete order of `unlink_and_delete_chain`,
`remove_endpointchains` and `cleanup_rules` meets it.

**Links invariant.** The proofs rely on an invariant, `LinksWellFormed`:

- only `ipfloater-<HOOK>` jumps to `ipfl-rule-<id>-<HOOK>`;
- only the built-in `<HOOK>` jumps to `ipfloater-<HOOK>`.

The invariant is the model's own assumption about the code that creates
endpoint chains and their jumps. That code is not part of this model, so the
procedures start from any table that satisfies the invariant, and the model
proves that every procedure preserves it. The source states only part of
this: the comment "We suppose that it is linked" at `iptables.py:56`
supposes that a chain is linked from the base chain its suffix names. It says
neither that no other chain jumps to it, nor anything about the hook-to-base
links.

## Model

| member | source | states |
|---|---|---|
| Naming.IsEndpointChainName | iptables.py:66 | `chainname[:10] == "ipfl-rule-"` holds exactly when the name starts with `ipfl-rule-` (a name shorter than ten characters never passes) |
| Naming.LinkedHookSuffix | iptables.py:47-53 | the three suffix tests map a name to a hook exactly when the name ends in `-` plus that hook's name; no name ends in two hook suffixes, so the test order does not matter |
| Naming.BaseChain | iptables.py:29-31 | `ipfloater-<HOOK>` starts with `ipfloater-`, is never an endpoint chain name, and its suffix maps back to its own hook |
| Naming.EndpointChain | iptables.py:132-139 | `ipfl-rule-<id>-<HOOK>` passes the cleanup prefix test, and its suffix maps back to its own hook, so `unlink_and_delete_chain` would pick that hook's base chain for it |
| Naming.BaseHook | iptables.py:74-76 | a name is a base chain of hook h exactly when it equals `ipfloater-` plus h's name |
| Naming.RootHook | iptables.py:40-42 | a name is the built-in chain of hook h exactly when it equals h's name |
| Naming.ChainNamesDistinct | iptables.py:132-139 | the three base chains are pairwise different, the three endpoint chains of one id are pairwise different, and no base chain is an endpoint chain |
| Naming.EndpointChainInjective | iptables.py:132-139 | two endpoint chain names are equal only for the same id and the same hook |
| Naming.EndpointChainParsed | iptables.py:66-69 | every name that cleanup selects and maps to a hook h, and that is long enough to hold an id, is `EndpointChain(id, h)` for some id |
| NatTable.CreatedEffect | iptables.py:29-31 | `create_chain` adds the chain, empty, when it is missing, and leaves every existing chain's rules unchanged |
| NatTable.RemoveFirst | iptables.py:90 | deleting a rule by value shortens the chain by one when the rule is present, and leaves the chain unchanged when it is absent |
| NatTable.RemoveFirstMultiset | iptables.py:89-90 | deleting by value removes exactly one copy of the rule and nothing else, as a multiset |
| NatTable.RemoveFirstHead | iptables.py:89-90 | deleting a chain's first rule by value removes exactly that front rule |
| NatTable.WithoutTarget | iptables.py:111-113 | after unlinking, no rule targets the chain, and the rules kept are exactly those with another target |
| NatTable.MatchingMembers | iptables.py:111 | the list of rules collected for deletion holds exactly the rules whose target is `second_chain` |
| NatTable.DropMatchingStep | iptables.py:112-113 | deleting the i-th collected rule by value, after the first i have gone, removes exactly that rule: it is still present, and no other rule that is equal to it and earlier is hit instead |
| NatTable.DropMatchingAll | iptables.py:111-113 | once every collected rule is deleted, the chain is the original with its rules targeting `second_chain` filtered out, the other rules in their original order |
| NatTable.WithoutTargetConcat | iptables.py:111-113 | unlinking distributes over concatenation, so the kept rules keep their relative order |
| NatTable.WithoutTargetAbsent | iptables.py:111-113 | unlinking a chain that has no jump to the target leaves it unchanged |
| NatTable.WithoutTargetIdempotent | iptables.py:111-113 | filtering the jumps out twice gives the same result as once |
| NatTable.Table.constructor | iptables.py:26 | a new handle on the NAT table sees the kernel's table, with autocommit on |
| NatTable.Table.Refresh | iptables.py:27 | `refresh()` makes the handle's copy the kernel's state, and changes nothing in the kernel |
| NatTable.Table.Commit | iptables.py:43 | `commit()` gives the handle's copy to the kernel as one new state |
| NatTable.Table.CreateChain | iptables.py:29 | the handle's copy becomes `Created` of the old one; with autocommit off, the kernel is unchanged |
| NatTable.Table.AppendRule | iptables.py:38 | the rule goes at the end of the named existing chain; with autocommit off, the kernel is unchanged |
| NatTable.Table.DeleteRule | iptables.py:90 | the first rule equal to the given one leaves the chain; with autocommit off, the kernel is unchanged |
| NatTable.Table.DeleteEmptyChain | iptables.py:91 | deleting an empty, non-built-in chain that no other chain jumps to removes it and nothing else |
| NatTable.Table.ChainNames | iptables.py:65 | `[chain.name for chain in table.chains]` lists every chain exactly once and nothing else |
| Iptables.DropEffect | iptables.py:81-91 | after `delete_chain` the chain is gone, every other chain is still there with the same rules, and a missing chain leaves the table unchanged |
| Iptables.DropNothing | iptables.py:86-87 | `delete_chain` of a chain that is not in the table changes nothing |
| Iptables.UnlinkEffect | iptables.py:103-113 | `unlink_chains` keeps every chain, leaves `first_chain` without a jump to `second_chain` (its other rules in order), and leaves every other chain unchanged |
| Iptables.UnlinkNothing | iptables.py:108-113 | unlinking a chain that is missing, or has no such jump, changes nothing |
| Iptables.UnlinkIdempotent | iptables.py:103-113 | `unlink_chains` twice gives the same result as once |
| Iptables.UnlinkAndDropEffect | iptables.py:46-59 | `unlink_and_delete_chain` removes the chain and leaves every other chain in place; only a base chain's rules can change, and the base chain the suffix names no longer jumps to the deleted chain |
| Iptables.ChainExists | iptables.py:115-123 | returns true exactly when a chain with that name is in the table |
| Iptables.DeleteChain | iptables.py:81-91 | flushing the chain rule by rule and then deleting it leaves exactly `Drop` of the table; with autocommit off, the kernel is unchanged |
| Iptables.FlushStep | iptables.py:89-90 | each turn of the flush loop deletes the chain's front rule, which is present, and leaves the rest |
| Iptables.FlushedUnreferenced | iptables.py:91 | after the flush the chain is still unreferenced, and deleting it then equals `Drop` of the original table |
| Iptables.LinkChains | iptables.py:93-101 | exactly one rule, a jump to `second_chain`, is appended at the end of `first_chain`; earlier rules and every other chain are unchanged |
| Iptables.UnlinkChains | iptables.py:103-113 | deleting the collected rules one at a time leaves exactly `Unlink` of the table; a missing `first_chain` is a no-op |
| Iptables.UnlinkAndDeleteChain | iptables.py:46-59 | unlinking the chain from the base chain its suffix names (if any) and then deleting it leaves exactly `UnlinkAndDrop` of the table; the delete is one the kernel accepts |
| Iptables.StartBatch | iptables.py:27-28 | the handle's copy is the kernel's state, autocommit is off, and the kernel is unchanged |
| Iptables.FinishBatch | iptables.py:43-44 | the kernel receives the handle's copy as exactly one new state, and autocommit is back on |
| Iptables.UnlinkParentFrees | iptables.py:55-57 | for a chain that only its base chain may jump to, unlinking it from that base chain leaves no other chain jumping to it |
| Iptables.UnlinkKeepsLinks | iptables.py:103-113 | unlinking preserves the links invariant |
| Iptables.DropKeepsLinks | iptables.py:81-91 | deleting a chain preserves the links invariant |
| Iptables.UnlinkAndDropKeepsLinks | iptables.py:46-59 | `unlink_and_delete_chain` preserves the links invariant |
| Iptables.EndpointChainLinkedOnlyFromParent | iptables.py:56 | under the links invariant, only the base chain named by its suffix jumps to an endpoint chain, and it is not built in |
| Iptables.BaseChainLinkedOnlyFromRoot | iptables.py:71-76 | under the links invariant, only its hook's built-in chain jumps to a base chain |
| Iptables.UnlinkedEndpointChainIsFree | iptables.py:132-139 | once its base chain is unlinked, no chain at all jumps to an endpoint chain, so the kernel accepts the following delete |
| Iptables.EndpointChainNoSelfJump | iptables.py:132-133 | under the links invariant, an endpoint chain never jumps to itself |
| Iptables.RemoveEndpointChainEffect | iptables.py:132-133 | one hook's pair of calls removes that endpoint chain and its base chain's jumps to it, and changes nothing else |
| Iptables.RemoveEndpointEffect | iptables.py:125-143 | afterwards none of `ipfl-rule-<id>-OUTPUT/POSTROUTING/PREROUTING` exists and no base chain jumps to them; every other chain is still there, and every chain except the base chains keeps its rules |
| Iptables.RemoveEndpointGone | iptables.py:132-139 | the endpoint's three chains, and the base chains' jumps to them, are gone |
| Iptables.RemoveEndpointKeeps | iptables.py:132-139 | exactly the endpoint's three chains are removed, and only the base chains' rules change |
| Iptables.RemoveEndpointIsUnlinkAndDelete | iptables.py:132-139 | the three pairs of calls equal `unlink_and_delete_chain` on the three endpoint chain names, since the suffix of each name picks the same base chain the code names explicitly |
| Iptables.RemoveEndpointUnlinksAll | iptables.py:125-143 | under the links invariant, afterwards no chain at all jumps to the endpoint's chains, and the invariant still holds |
| Iptables.RemoveEndpointChainKeepsLinks | iptables.py:132-133 | one hook's pair of calls preserves the links invariant |
| Iptables.RemoveEndpointChainDone | iptables.py:132-133 | one hook's pair of calls changes nothing when its chain and its jump are already gone |
| Iptables.RemoveEndpointIdempotent | iptables.py:125-143 | running `remove_endpointchains` a second time changes nothing |
| Iptables.RemoveEndpointChainStep | iptables.py:132-133 | one hook's unlink and delete leave exactly `RemoveEndpointChain` of the table and preserve the links invariant |
| Iptables.RemoveEndpointChains | iptables.py:125-143 | returns true; the kernel moves in one commit to `RemoveEndpoint` of its previous state |
| Iptables.BaseChainNotRoot | iptables.py:29-31 | no base chain is a built-in chain or a hook's chain, so deleting one is allowed |
| Iptables.BaseChainsCreated | iptables.py:29-38 | creating the base chains and appending the guard keeps the hooks' built-in chains present |
| Iptables.BaseChainsCreatedEffect | iptables.py:29-38 | the three base chains exist; the POSTROUTING base chain gains the guard rule at its end; the other two keep what they held; every other chain is unchanged |
| Iptables.HooksLinkedEffect | iptables.py:40-42 | each hook's built-in chain gains exactly one jump, at its end, to its base chain; every other chain is unchanged |
| Iptables.SetupEffect | iptables.py:25-44 | `setup_basic_rules` creates the three base chains; appends the guard to `ipfloater-POSTROUTING`; appends one jump from each hook's built-in chain to its base chain; leaves every other chain unchanged |
| Iptables.SetupBaseChains | iptables.py:29-38 | the base-chain half of `SetupEffect` |
| Iptables.SetupHooks | iptables.py:40-42 | the hook half of `SetupEffect` |
| Iptables.SetupGuardOnly | iptables.py:33-38 | when `ipfloater-POSTROUTING` is new, the guard `ACCEPT` rule with conntrack `! --ctstate DNAT` is its only rule |
| Iptables.CreatedKeepsLinks | iptables.py:29-31 | creating a chain preserves the links invariant |
| Iptables.AppendedKeepsLinks | iptables.py:38-42 | appending a rule whose jump the invariant allows preserves the invariant |
| Iptables.SetupKeepsLinks | iptables.py:25-44 | every jump setup adds is one the links invariant allows |
| Iptables.SetupNotIdempotent | iptables.py:29-42 | with `create_chain` on an existing chain taken as a no-op, a second setup appends another jump to every hook's built-in chain, so the table differs: setup is not idempotent |
| Iptables.CreateBaseChains | iptables.py:29-38 | the handle's copy becomes `BaseChainsCreated` of the old one; with autocommit off, the kernel is unchanged |
| Iptables.LinkBaseChains | iptables.py:40-42 | the handle's copy becomes `HooksLinked` of the old one; with autocommit off, the kernel is unchanged |
| Iptables.SetupBasicRules | iptables.py:25-44 | the kernel moves in one commit to `Setup` of its previous state |
| Iptables.EndpointChainNames | iptables.py:66 | the selected names are exactly the listed names that start with `ipfl-rule-` |
| Iptables.UnlinkHooksEffect | iptables.py:71-73 | the three unlinks keep every chain, remove only the hooks' jumps to their base chains, and change nothing else |
| Iptables.DropBasesEffect | iptables.py:74-76 | the three deletes remove exactly the base chains |
| Iptables.HooksUnlinkedAfterUnlink | iptables.py:71-73 | afterwards no hook's built-in chain jumps to its base chain |
| Iptables.BaseChainFree | iptables.py:74-76 | under the links invariant, once the hooks are unlinked nothing else jumps to a base chain, so the kernel accepts its delete |
| Iptables.RemoveBaseChains | iptables.py:71-76 | the three unlinks and three deletes leave exactly `UnhookBases` of the table, each delete being one the kernel accepts |
| Iptables.UnhookBasesFinishesCleanup | iptables.py:71-76 | applied after the endpoint chains are gone, lines 71-76 leave exactly `Cleanup` of the table the batch started from |
| Iptables.UnlinkAndDeleteChains | iptables.py:68-69 | unlinking and deleting each selected chain in turn removes exactly those chains, changes only base chains otherwise, and preserves the links invariant |
| Iptables.CleanupRules | iptables.py:61-79 | the kernel moves in one commit to `Cleanup` of its previous state |
| Iptables.CleanupLeavesNoJumps | iptables.py:61-79 | afterwards no chain whose name starts with `ipfl-rule-` exists, whatever its suffix, and no base chain exists; under the links invariant no kept rule jumps to one |
| Iptables.CleanupAfterBaseChainsCreated | iptables.py:74-76 | cleanup deletes the base chains, so the chains and guard that setup created make no difference |
| Iptables.CleanupAfterHooksLinked | iptables.py:71-73 | cleanup drops each hook's jumps to its base chain, so the jumps setup appended make no difference |
| Iptables.UnhookedAfterJump | iptables.py:71-73 | the jump setup appends to a hook's chain is one that cleanup's unlink drops |
| Iptables.CleanupAgrees | iptables.py:61-79 | two tables that agree on the chains cleanup keeps, as cleanup leaves them, clean up to the same table |
| Iptables.CleanupOnlyKeeps | iptables.py:61-79 | two tables that agree on the chains cleanup keeps clean up to the same table |
| Iptables.CleanupKeepsAll | iptables.py:61-79 | a table whose every chain cleanup keeps unchanged is its own cleanup |
| Iptables.CleanupAfterSetup | iptables.py:61-79 | cleanup after setup gives the same table as cleanup alone |
| Iptables.CleanupIdempotent | iptables.py:61-79 | cleaning up twice gives the same result as once |
| Iptables.UnhookedIdempotent | iptables.py:71-73 | unlinking a hook from its base chain twice gives the same result as once |
| Iptables.CleanupAfterRemoveEndpoint | iptables.py:125-143 | removing an endpoint before cleanup makes no difference to what cleanup leaves |
| Iptables.CleanupFloaterFree | iptables.py:61-79 | on a table with none of the floater's chains and no hook jumping to a base chain, cleanup changes nothing |
| Iptables.UnhookedUnlinked | iptables.py:71-73 | a hook's built-in chain without a jump to its base chain is not changed by the unlink |
| Iptables.SetupCleanupRoundTrip | iptables.py:61-79 | on a table holding nothing of the floater's, setup followed by cleanup restores it exactly |

## Left out

- The `iptc`/libiptc library and the kernel are modelled only through the
  effects the code relies on. Rule encoding and kernel interaction are not
  modelled. The conntrack match of the guard rule is an opaque string, so
  its meaning (do not NAT what is already DNATed) is not modelled.
- `iptc.Table(iptc.Table.NAT)` is a `Table` handle passed to every
  procedure. The handle's caching is not modelled: `refresh()` is a reload
  of the handle's copy from the kernel's state.
- Errors the library raises are not modelled. Each kernel refusal is a
  precondition instead:
  - deleting a built-in, non-empty or still-referenced chain;
  - appending to or deleting from a chain that does not exist;
  - deleting a rule that is not in the chain (`NatTable.Table.DeleteRule`
    requires the rule to be present).

  The model proves that the procedures never make such a call, under the
  preconditions listed below.
- NatTable.Table.CreateChain: what `create_chain` does with a chain that
  already exists is library behaviour that the source does not show. The
  model treats it as a no-op that keeps the chain's rules. The proofs about
  a new `ipfloater-POSTROUTING` (SetupGuardOnly) do not depend on this.
  SetupNotIdempotent, SetupEffect (for base chains that already exist) and
  CleanupAfterSetup do depend on it. If the library raises instead, a second
  `setup_basic_rules` fails at iptables.py:29 before appending anything, and
  this is not modelled.
- NatTable.Table.ChainNames: the order of `table.chains` is decided by the
  kernel. The method returns the names in an arbitrary order, and every
  property is proved for every order.
- Iptables.RemoveEndpointChains: requires the links invariant on the
  kernel's table. This is the model's assumption about the endpoint-creating
  code, which is not part of this model, and the source does not check it.
  Without it, a delete could be refused and the library would raise, which
  is not modelled.
- Iptables.CleanupRules: requires the links invariant, for the same reason.
- Iptables.SetupBasicRules: requires the built-in `PREROUTING`,
  `POSTROUTING` and `OUTPUT` chains to be present. They always exist in
  the kernel's NAT table, and `link_chains` appends to them.
- The code that creates endpoint chains and their jumps is not part of this
  model. The model starts instead from any table that satisfies the links
  invariant.
- Logging (`_LOGGER`, iptables.py:23 and 140) is left out: it has no effect
  on the table.
- `restserver.py`, the HTTP layer, is left out because it only delegates to
  an endpoint manager that is not part of this model.
- Concurrent access to the table by other processes, and any locking, are
  left out. The model treats the kernel's state as changed only by these
  procedures' commits.
