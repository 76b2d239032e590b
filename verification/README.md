# NiceVPN control plane, modelled and proved

NiceVPN keeps the desired state of a VPN in a SQLite database and in one CCD text file per client,
and turns it into ipsets, an iptables chain (`VPN_FORWARD`) and file contents. This project models the
places where one form is compiled into another, and where a step that failed has to be undone.

- **Firewall compiler.** Stored centre rules and peer LAN forwards are merged by priority and become
  ipsets and chain lines (`FirewallModel`, `ForwardPlan`, and the loops in `IptablesGenerator`). A
  packet is (source, destination, protocol, destination port). The chain, read by first match with the
  generated sets, gives every packet the verdict of the rules themselves.
- **Transactional apply.** `KernelModel` is the machine: sets, chain, other lines; any command may be
  refused and then has no effect; `destroy` fails on a set that the chain refers to, `swap` needs both sets.
  `IpsetTransactions` stages, swaps, commits and rolls back; `IptablesApply` wraps it with the chain;
  `RuleService` wraps both with the rule table and its snapshot; `RuleRuns` runs any list of requests.
  `kernel.history` records every state in between, so that step safety is a statement about all of them.
- **What is stored and what the kernel does.** `StoredPolicy` reads the policy off the stored rows and peer
  sites themselves. `PeerUpdates` has the edits of sites, which nothing takes back, `GlobalReorder` the order
  of all rules and sites together, and `CentreRuns` runs any list of requests about rules and sites: it says
  from the outcomes when the kernel is known to follow the policy.
- **Runs.** `RuleRuns`, `CentreRuns` and `AccountRuns` return the steps of a run. A step holds the request, its
  outcome, and the states before and after it; the states form one chain from the state at the start to the
  state at the end, and every step is related to its request by one predicate (`EventOk`, `StepOk`). What a
  run promises is derived from such chains by lemmas that hold of any of them. `mark` is the count of refused
  commands when undoing began; a failure is cleanly undone when nothing was refused after that.
- **Address space.** Prefixes are naturals with powers of two (`Ipv4`; RFC 4632 section 3.1, RFC 3021
  section 2.1). `VirtualIps` has the allocator and the capacity, `Groups` and `UserAccounts` the two
  services over one store, `AddressSpace` the invariant, `AccountRuns` the runs.
- **CCD files.** `CcdBlocks` and `CcdMerge` hold the two block editors, `CcdRounds` the question whether
  two editors that share a file ever come to rest, `CcdVip` and `CcdLines` the address line and
  `disable`. `CcdRoutes` reads networks back from the text, `CcdContents` says which lines an edit leaves, and
  `CcdStatus` who may connect. A file is its list of lines.
- **Skipped work.** `PeerSnapshots`: saving a peer site skips the kernel refresh, the rewriting of mesh
  routes, or the site's own block, when a snapshot did not change.
- **Texts and queries.** `LikePattern` and `GridFilter`: column filters as a predicate and as SQL with
  bound parameters. `SimpleRules`: one-line rules, parsed and printed. `Ports`: port texts.
- **Two run-level machines.** `StorageMigration` (with `LegacyFiles`, `StorageDisk`, `MigrationProgress`):
  the JSON to SQLite migration under crashes and failing steps. `LoginLimiter`: the sliding window of
  failed logins.

Services that change state are classes whose methods follow the source step by step, each proved
against a function of the old state; what the source promises is proved about those functions.
`requires` clauses of the services say that the object is in a state its own methods leave, and name the
assumptions below where one is needed; whether the kernel follows the policy is never required.

## Assumptions

- The digest in a set name is injective in (owner type, owner, purpose); stage names and identifiers
  made by the program are fresh; peer identifiers hold no `#`. Stored rule identifiers do not begin with
  the prefix reserved for peers, and peer identifiers are distinct (`RuleResolution.IdentifiersOk`).
- A run of account requests leaves out a second deletion of a user whose group has members (its callers list
  only users that are not deleted), and an allocation while another live user's CCD file cannot be read. What
  these two do is stated at `UserService.Delete`, `UserService.Create` and `UserService.ChangeGroup`.
- The tag directory stays the same during a run of requests about rules and sites.
- Texts are ASCII. Address texts are given parsed: blank, IPv4, a host name, or malformed. The editors of CCD
  files skip IPv6 networks as they skip blank texts, so for them an IPv6 network is a blank.

## Where the code and its promise part

- A peer site is stored before the refresh, and the refresh is skipped when the row to be stored looks like
  the stored one. So after a refused refresh the same save, repeated, succeeds and refreshes nothing, and the
  kernel stays off the policy: `PeerUpdates.RefusedThenRepeated`, `PeerUpdates.PeerStore.SaveAgain`; exactly
  which requests repair it is `CentreRuns.InTuneIs`.
- Deleting or switching a site's rule, too, is not taken back when the refresh is refused; nor are the sites'
  priorities in an order of everything, although the rules' are: `GlobalReorder.ReorderAll`,
  `GlobalReorder.RefusedOrderStays`, `PeerUpdates.RefusedSilencing`. Exactly when everything is as before
  after a refused refresh is `GlobalReorder.RefusedRefreshChangesNothingExactlyWhen`.
- An order that names a rule twice is refused after sites, and perhaps other owners' rules, were written:
  `GlobalReorder.RefusedOrderIsPartlyStored`, and exactly when not
  `GlobalReorder.RefusedOrderChangesNothingExactlyWhen`. The page itself sends no such order
  (`app/ui/pages/firewall_center.py`, lines 689 to 701).
- Deleting a site's rule clears the LAN before the CCD files are edited. When that fails, the LAN stays cleared
  and the kernel is not refreshed at all: `PeerUpdates.PeerStore.ClearLan`.
- An update that gives a rule to another owner and then fails at the refresh stays in the table:
  `RuleService.MovedRowBlocksRestore`, and the two cases of `UpdateById`.
- A port text made of commas only passes validation and is stored as the empty text, that is, as no
  restriction: `Ports.StoredTextKeepsPorts`, `FirewallModel.CommaAdmitsEveryPort`.
- Renumbering the root group stores the new subnet before the refresh of referring tags; when that
  raises, the global subnet is not synchronised: `Groups.RootDriftsFromGlobal`, and the exact conditions
  on `UpdateSubnet`.
- Deleting a user twice takes one off its group's count twice: `UserAccounts.DeletedTwice`, and exactly when
  that matters `AddressSpace.UserDeletedAgain`.
- A CCD file that cannot be read is skipped when an address is looked for, so its address can be given to a
  second user: `UserAccounts.UnreadableIsGivenAgain`, and the exact conditions `AddressSpace.UserCreated` and
  `AddressSpace.UserMoved`.
- The capacity of a group outside the pool is displayed although no address can be handed out:
  `VirtualIps.CapacityIsExactlyWhen`, `VirtualIps.CapacityOutsideThePool`.
- One save of a peer site need not leave a stable CCD file; the second one does. The exact condition is
  `CcdRounds.RoundIsStableExactlyWhenSettled`, a file that fails it `CcdRounds.UnsettledRound`. A mesh marker
  behind other text on its line makes the inserted peer block unrecognisable:
  `CcdMerge.StripUndoesMergeExactlyWhenAnchored`, `CcdMerge.UnanchoredMarker`.
- Single-text grid filters mean the same in Python and SQL only under `GridFilter.TranslatesExactlyWhen`:
  the SQL form strips the text, has no blank tests, and takes an absent text for no condition.
- After a failed rebuild, sets created by it may remain, empty, because the restored chain was loaded
  while they were still referenced: `IptablesApply.AllOrNothingExactlyWhen`,
  `IptablesApply.RebuildCanLeaveASet`.

## Model

| member | source | states |
|---|---|---|
| Ipv4.Normalize | app/utils/cidr.py:28-41 | The network of an address text: same length, host bits cleared, itself a fixed point. |
| Ipv4.NestedOrDisjoint | app/utils/cidr.py:76-100 | Two blocks never straddle: the longer prefix lies wholly inside or wholly outside the shorter. |
| Ipv4.SubnetMeansContainment | app/utils/cidr.py:76-87 | The leading-bits test says exactly that every address of the child is an address of the parent. |
| Ipv4.OverlapMeansNested | app/utils/cidr.py:90-100 | Two subnets overlap exactly when they share an address, which is exactly when one contains the other. |
| Ipv4.SubnetTransitive | app/utils/cidr.py:76-87 | Being a subnet is transitive. |
| Ipv4.LastInSpace | app/utils/cidr.py:43-74 | The last address of any block is still a 32-bit address. |
| Ipv4.CanonicalDependsOnNetworksOnly | app/services/peer_instance/ccd_merge.py:76-92 | Two lists of texts have the same canonical list exactly when they denote the same networks: order, repetition and host bits do not matter. |
| Ipv4.CanonicalCovers | app/services/firewall/ipset_mgr.py:184-203 | A canonical list covers the same addresses as the texts it was made from. |
| Ports.ValidateDestPort | app/models/firewall.py:46-64 | The validation loop computes the validator: pieces in order, blanks dropped, the first bad piece is the error. |
| Ports.AcceptedTexts | app/models/firewall.py:46-95 | A text is accepted exactly when each piece between commas is a port or an increasing range within 1 to 65535, or blank among commas; a blank text is accepted. |
| Ports.TokenIs | app/models/firewall.py:30-64 | A piece such as 80, 80-443 or 80:443, once normalised, is parsed to exactly the ports that its decimals say, and is good exactly when they are a port or an increasing range. |
| Ports.StoredTextKeepsPorts | app/models/firewall.py:46-95 | A stored text is a fixed point of the validator and the kernel reads from it exactly the ports the operator typed; a text of commas alone is stored as the empty text, which no longer restricts the port. |
| Ports.CommaIsStoredEmpty | app/models/firewall.py:46-64 | A single comma passes, names no port, and is stored as the empty text. |
| FirewallModel.CommaAdmitsEveryPort | app/models/firewall.py:46-64 | The rule stored for it admits every packet of its protocol. |
| FirewallModel.ValidationKeepsService | app/models/firewall.py:46-95 | Validating a port text does not change which packets it admits, whatever the protocol. |
| FirewallModel.FirstMatchIsPolicy | app/services/firewall/iptables_mgr.py:67-92 | First match on the sorted list is the verdict of the rule with the smallest key (priority, stored before peer, listing order) among those that admit the packet. |
| FirewallModel.PolicyIsDeterministic | app/services/firewall/iptables_mgr.py:67-92 | The policy of a listing gives each packet at most one verdict. |
| ForwardPlan.CompilerCorrect | app/services/firewall/iptables_mgr.py:67-145 | For every list of rules and peers and every packet, the first match of the compiled chain on sets that hold the compiled specs is the policy verdict. The policy reads the texts themselves: a port text with any non-blank piece admits a packet only if its port is in one of the pieces, for sites as for rules. |
| ForwardPlan.CompileSucceedsIff | app/services/firewall/iptables_mgr.py:94-145 | Compilation succeeds exactly when every address in force is IPv4 and every peer port text is well-formed. |
| ForwardPlan.ServicesHit | app/services/firewall/iptables_mgr.py:1346-1387 | The protocol and port variants of a rule together match exactly the packets that its protocol and port admit; a port without a protocol means TCP or UDP. |
| ForwardPlan.EntryLinesHit | app/services/firewall/iptables_mgr.py:1174-1344 | The lines of one entry, with its sets in place, accept or drop exactly the packets that the entry admits. |
| ForwardPlan.NamesAreDistinct | app/services/firewall/iptables_mgr.py:94-145 | No two specs of a plan have the same set name, so the duplicate check of reconcile never fires. |
| ForwardPlan.PlanProvidesSets | app/services/firewall/iptables_mgr.py:94-145 | Every set that some line of a plan needs is among its specs, with the contents that the line needs. |
| ForwardPlan.ReferencesAreDesired | app/services/firewall/iptables_mgr.py:1298-1332 | Every set name in the generated lines is the name of a desired spec. |
| ForwardPlan.SortKeepsListingOk | app/services/firewall/iptables_mgr.py:91-92 | Sorting keeps owners apart and tags agreeing. |
| IptablesGenerator.BuildMergedForwardEntries | app/services/firewall/iptables_mgr.py:67-92 | The merge loop yields the enabled centre rules and non-empty peers, stably sorted by (priority, stored before peer). |
| IptablesGenerator.NormalizeField | app/services/firewall/ipset_mgr.py:184-203 | The normalising loop yields the canonical list, or raises exactly when a piece is no IPv4 address. |
| IptablesGenerator.DesiredIpsets | app/services/firewall/iptables_mgr.py:94-145 | The spec-building loops yield all specs of the plan, one tag set shared by all rules on a tag. |
| IptablesGenerator.ExpandCombinations | app/services/firewall/iptables_mgr.py:1298-1344 | The nested loops yield every combination of source, destination and service, in order. |
| IptablesGenerator.ExpandRuleLines | app/services/firewall/iptables_mgr.py:1284-1344 | The lines of one stored rule. |
| IptablesGenerator.ExpandPeerLines | app/services/firewall/iptables_mgr.py:1174-1282 | The lines of one peer, with its port, which match exactly the packets that its LAN, destination, protocol and port texts admit (EntryLinesHit); an ill-formed port text raises. |
| IptablesGenerator.GenerateMergedRules | app/services/firewall/iptables_mgr.py:1150-1172 | The text generator yields all lines of the plan, or raises exactly when a peer port is ill-formed. |
| IpsetTransactions.IpsetManager.Reconcile | app/services/firewall/ipset_mgr.py:230-300 | On success every desired set is exchanged and nothing else changed; on failure no more sets differ from before than commands were refused while undoing; every intermediate state holds complete old or complete new contents; the lock is held only while a transaction is open. |
| IpsetTransactions.IpsetManager.StageOne | app/services/firewall/ipset_mgr.py:246-292 | Stage, fill and exchange one set; a failure at any command that is undone cleanly leaves no trace. |
| IpsetTransactions.IpsetManager.Commit | app/services/firewall/ipset_mgr.py:302-326 | When all destroys succeed, the stable managed sets are exactly the desired ones with the desired entries and no stage of the transaction remains; otherwise there is a refused command for every stage and every orphan that is left, or one for the listing. |
| IpsetTransactions.IpsetManager.Rollback | app/services/firewall/ipset_mgr.py:328-364 | Every exchange is undone whatever happened to the others: there are no more stable sets not put back and stages not dropped than commands were refused, leaving out created sets that the chain uses. Without a refusal the map is restored exactly. Each step is safe; a committed transaction is refused. |
| IpsetTransactions.IpsetManager.Gc | app/services/firewall/ipset_mgr.py:366-385 | Only stable managed sets that are not desired are destroyed; success means none is left, and otherwise there is a refused command for each that is left out of use. |
| IpsetTransactions.IpsetManager.DropOrphans | app/services/firewall/ipset_mgr.py:380-385 | Every orphan is tried: those left are in use, or there are no more of them than commands were refused. |
| IpsetTransactions.RolledBackExactly | app/services/firewall/ipset_mgr.py:328-364 | A rollback in which nothing was refused and nothing created is in use leaves the map as before the transaction, names included. |
| IpsetTransactions.BothCleanupsConverge | app/services/firewall/ipset_mgr.py:302-326 | Dropped stages and collected orphans together are convergence. |
| IptablesApply.IptablesManager.RefreshVpnForwardOnly | app/services/firewall/iptables_mgr.py:147-230 | Chain and sets change together or, when nothing is refused while undoing, not at all; when something is, no more sets differ from before than commands were refused, one of which is set aside for the chain if it is not the old one; every intermediate state is safe for foreign and surviving sets; what a refresh that went through leaves behind was refused; it succeeds when nothing is refused and the plan is deployable. |
| IptablesApply.IptablesManager.RestoreChain | app/services/firewall/iptables_mgr.py:1047-1082 | The saved lines come back in order up to one that was refused, behind the old ones if the flush was refused; without a refusal the chain is the saved one. |
| IptablesApply.IptablesManager.RebuildRules | app/services/firewall/iptables_mgr.py:241-340 | Done: chain, sets and hooks are in place. On failure with a clean undo the filter table is as before, and the sets are exactly those of before together with, empty, the sets that the loaded plan refers to and that did not exist; otherwise no more differs than commands were refused. Filter lines of others always stay. |
| IptablesApply.IptablesManager.LoadAndRepair | app/services/firewall/iptables_mgr.py:291-313 | The chain is the generated one, clients' traffic goes through it before established connections are let through, and the hook on INPUT is there if wanted; a step that is refused ends it. |
| KernelModel.InputKeepsForward | app/services/firewall/iptables_mgr.py:810-909 | The repair of the hook on INPUT does not part the jump into the chain from the established connections behind it. |
| IptablesApply.AllOrNothingExactlyWhen | app/services/firewall/iptables_mgr.py:241-340 | The sets are then as before exactly when the failure came before the load, or the plan refers to no set that did not exist. |
| IptablesApply.RebuildCanLeaveASet | app/services/firewall/iptables_mgr.py:241-340 | A concrete rule whose failed rebuild leaves a set behind. |
| IptablesApply.KernelFollowsPolicy | app/services/firewall/iptables_mgr.py:147-230 | A kernel that carries out a plan gives every packet the verdict of the policy. |
| Tags.ResolveAddresses | app/services/firewall/tag_service.py:136-165 | The collecting loops yield the networks of active groups and the addresses of active members; an unknown tag raises. |
| Tags.ResolvedTagCovers | app/services/firewall/tag_service.py:136-165 | The resolved list covers an address exactly when an active member user or group does. |
| RuleStore.ListingIsUnique | app/storage/repositories/firewall_repository.py:80-86 | The ordered listing of a table is unique. |
| RuleStore.TextLessMeans | app/storage/repositories/firewall_repository.py:80-86 | Owners and identifiers are compared as texts: the first characters that differ decide, else the shorter comes first. |
| RuleStore.ListingGoes | app/storage/repositories/firewall_repository.py:80-86 | The listing goes by priority, then by owner, then by identifier. |
| RuleStore.ListRows | app/storage/repositories/firewall_repository.py:80-86 | Listing yields each row once, by priority, owner and identifier. |
| RuleStore.SnapshotRestores | app/services/firewall/rule_service.py:52-60 | Replacing an owner by its snapshot restores the table, provided other owners are untouched. |
| RuleEdits.AppendRow | app/storage/repositories/firewall_repository.py:34-51 | Appending rows is accepted exactly when the identifiers are new and not blank, and then adds exactly those rows. |
| RuleEdits.PointUpdate | app/services/firewall/rule_service.py:257-263 | Replacing one row in its owner's list changes that row of the table and no other. |
| RuleEdits.PointRemoval | app/services/firewall/rule_service.py:449-453 | Removing one row from its owner's list removes that row of the table and no other. |
| RuleEdits.ReorderedValue | app/services/firewall/rule_service.py:309-334 | A reorder is accepted exactly when no known row is named twice, and changes nothing but the priorities of the named rows. |
| RuleEdits.ReorderedByPlace | app/services/firewall/rule_service.py:309-334 | The owner's rule at place i of an accepted order gets priority 10 (i + 1); nothing else of any rule changes. |
| RuleEdits.BatchOwnerIs | app/services/firewall/rule_service.py:174-195 | The owner loop ends with one owner exactly when every row after one that names an owner names the same; it is the last row's. |
| RuleResolution.ResolveTagRules | app/services/firewall/rule_service.py:881-911 | Resolution succeeds exactly when every enabled tag rule names a known tag, and keeps the listing order. |
| RuleResolution.CollectCenterPeers | app/services/firewall/rule_service.py:854-879 | The peers with an identifier, enabled, and with a LAN. |
| RuleResolution.StoredListingOk | app/services/firewall/rule_service.py:881-937 | From the stored rows on, set names never collide and no tag rule enters the plan without addresses. |
| RuleResolution.ResolvedRowMeaning | app/services/firewall/rule_service.py:881-911 | What a row contributes admits exactly the packets of the row as stored; an enabled tag rule contributes nothing exactly when no address is behind the tag. |
| RuleResolution.InStepFollowsPolicy | app/services/firewall/rule_service.py:926-937 | A kernel in step with the table gives every packet the verdict of the resolved rules and collected peers. |
| StoredPolicy.ResolvedPolicyIsStored | app/services/firewall/rule_service.py:854-911 | Resolving tags, dropping disabled rows and collecting sites changes no verdict: the policy of the resolved list is the policy of rows and sites as stored, tags read as their present members. |
| StoredPolicy.InStepFollowsStoredPolicy | app/services/firewall/rule_service.py:854-937 | So a kernel in step with the table gives every packet the verdict of what is stored. |
| RuleResolution.RefreshWentThrough | app/services/firewall/iptables_mgr.py:147-230 | What a refresh that went through is worth: in step; at most earlier orphans besides the table's sets; exactly the table's sets when nothing was refused. |
| RuleService.FirewallRuleService.RefreshKernel | app/services/firewall/rule_service.py:926-937 | Not raising means: the chain is the table's; the table's sets are complete; other managed sets are orphans that were there before, and there are none when nothing was refused. Raising leaves the kernel as before when nothing is refused once undoing has begun, after at most two refusals, and at least one if the kernel can carry out the table; what is not as before is no more than was refused. Sets of other programs are never touched. |
| RuleService.FirewallRuleService.SaveAndRefresh | app/services/firewall/rule_service.py:124-136 | Write, refresh, and put the snapshot back when the refresh raises; success carries all that a refresh promises, exact managed sets included. |
| RuleService.AcceptedAsSent | app/services/firewall/rule_service.py:83-156 | A stored rule is the one sent, and admits exactly the packets of the one sent; only the port text may be written otherwise, and a blank owner is filled in. |
| RuleService.PayloadIs | app/services/firewall/rule_service.py:83-123 | The field checks pass exactly when the port text is readable and no address text is malformed. |
| RuleService.BatchIs | app/services/firewall/rule_service.py:174-215 | A batch is stored exactly when it is not empty, each rule may be stored, with one owner for all, and identifiers and priorities are unused and differ. |
| RuleService.FirewallRuleService.Create | app/services/firewall/rule_service.py:83-156 | Refused exactly when a field does not pass, the identifier is blank or used, or any rule has the priority; the row added is as sent; database and kernel end in step, with exact managed sets when nothing was refused, or as before; without refreshing, the kernel is left alone. |
| RuleService.FirewallRuleService.CheckBatch | app/services/firewall/rule_service.py:174-195 | The batch loop accepts exactly non-empty batches of valid payloads with one owner and distinct priorities. |
| RuleService.FirewallRuleService.CreateMany | app/services/firewall/rule_service.py:158-228 | Refused exactly when the batch may not be stored; the rows added are as sent, all of one owner; all or nothing in database and kernel. |
| RuleService.FirewallRuleService.UpdateById | app/services/firewall/rule_service.py:230-287 | Refused exactly when the rule is unknown, a field does not pass, or another rule has the priority; the row is as sent, of its old owner if none is named; all or nothing, except that a failed update that moves the rule to another owner stays in the table, while the kernel, cleanly undone, is as before. |
| RuleService.MovedRowBlocksRestore | app/services/firewall/rule_service.py:52-60 | The exception is real: the moved row holds its identifier, so the old owner's snapshot is refused. |
| RuleService.FirewallRuleService.Reorder | app/services/firewall/rule_service.py:289-348 | One owner's order. Refused exactly when a known rule is named twice; otherwise the rules named get their priorities by place and nothing else changes, or nothing at all. (Without an owner: GlobalReorder.) |
| RuleService.FirewallRuleService.SetEnabled | app/services/firewall/rule_service.py:475-524 | Refused exactly for an unknown rule; otherwise all or nothing. (Site rules: PeerUpdates.PeerStore.Toggle.) |
| RuleService.FirewallRuleService.Delete | app/services/firewall/rule_service.py:416-473 | Refused exactly for an unknown rule; otherwise all or nothing. (Site rules: PeerUpdates.PeerStore.ClearLan.) |
| RuleService.RestoredAfter | app/services/firewall/rule_service.py:52-60 | A rollback restores the table whenever the written rows all belong to the owner. |
| RuleRuns.Serve | app/services/firewall/rule_service.py:83-524 | One request: refused exactly when it should be; the table afterwards, however it ended; the kernel in step when done, as before when refused or cleanly undone; a failure without a refused command is of a table that the kernel cannot carry out. |
| RuleRuns.ServeAll | app/services/firewall/rule_service.py:83-524 | Over every run, from any state: table, sets, chain and the count of refusals go from request to request, each of which did what it asks for; since the last request that was carried out the kernel carries out the stored rules, with exactly their sets if nothing was refused then and at most earlier orphans otherwise, as long as no later undo was itself refused and no later failed update moved a rule; a kernel in step at the start stays in step under the same condition; other programs' sets are never touched. |
| RuleRuns.StaysInStep | app/services/firewall/rule_service.py:83-524 | A kernel in step at the start of a run stays in step when no undo in it was refused and no failed update moved a rule. |
| RuleRuns.InStepSinceLastDone | app/services/firewall/rule_service.py:83-524 | Wherever a run started, it is in step again with the first request carried out, and stays so under the same condition. |
| RuleRuns.QuietRun | app/services/firewall/rule_service.py:83-524 | In a run in which the kernel refused nothing, every request that failed asked for a table that the kernel cannot carry out, and was undone. |
| GlobalReorder.PatchSites | app/services/firewall/rule_service.py:350-361 | The loop over the order gives each site it names its priority, once, up to the first site whose stored fields do not pass; which sites those are is a function of the order. |
| GlobalReorder.FindTurns | app/services/firewall/rule_service.py:363-391 | The loops write the owners in the order in which their rules are first named, then the owners of rules that are not named, in listing order. |
| GlobalReorder.EveryOwnerInTurn | app/services/firewall/rule_service.py:363-391 | Every owner with rules has exactly one turn. |
| GlobalReorder.OneMoreOwner | app/services/firewall/rule_service.py:363-397 | Writing one owner's rows in the order changes exactly the priorities of the rows named, and is refused exactly when one is named twice. |
| GlobalReorder.AllAreWritten | app/services/firewall/rule_service.py:363-397 | All owners are written exactly when none of them has a rule that is named twice. |
| GlobalReorder.RollBackAll | app/services/firewall/rule_service.py:62-66 | Putting all snapshots back restores the table, whatever the number of owners. |
| GlobalReorder.ReorderAll | app/services/firewall/rule_service.py:350-414 | Exactly when it is refused, and exactly what is stored after any outcome: done, rules and sites carry the order and the kernel follows; after a refused refresh the rules are as before and the sites keep the order; a refused order has stored the sites before the first that does not pass, or all sites and the rules of the owners before the first with a row named twice. |
| GlobalReorder.RefusedOrderChangesNothingExactlyWhen | app/services/firewall/rule_service.py:350-397 | A refused order changes nothing exactly when the sites it got to, and the rules of the owners it got to, are in place already. |
| GlobalReorder.RefusedRefreshChangesNothingExactlyWhen | app/services/firewall/rule_service.py:350-414 | A refused refresh leaves everything as before exactly when every site that the order names is in place already. |
| GlobalReorder.RefusedOrderIsPartlyStored | app/services/firewall/rule_service.py:363-397 | A concrete order over two owners that names a rule of the second twice: it is refused, and the first owner's rule has its new priority. |
| GlobalReorder.NoRepetitionNamesOnce | app/services/firewall/rule_service.py:383-397 | An order without repetitions, such as the page sends, is never refused for naming a rule twice. |
| GlobalReorder.PriorityByPlace | app/services/firewall/rule_service.py:354-374 | In an order without repetitions the line at place i gets priority 10 (i + 1), be it a rule or a site. |
| GlobalReorder.RefusedOrderStays | app/services/firewall/rule_service.py:358-403 | A concrete site that a refused order leaves changed. |
| VirtualIps.IpTextInjective | app/services/user/crud.py:640-642 | Different addresses print differently, so comparing texts compares addresses. |
| VirtualIps.AllocateVirtualIp | app/services/user/crud.py:618-644 | The search returns the least host that is free and not the server's; it raises exactly when there is none, the group lies outside the pool, or the pool has no server address. |
| VirtualIps.ServerIsFirst | app/services/user/crud.py:635-642 | In a pool of more than two addresses the server has the first host, so no client is before it. |
| VirtualIps.CapacityIsExactlyWhen | app/utils/cidr.py:43-74 | The displayed capacity is the number of addresses that the search can ever return, for every prefix length, exactly when the group lies inside the pool or is the server's address alone. |
| VirtualIps.CapacityCountsHosts | app/utils/cidr.py:43-74 | Wherever the group lies, the capacity is the number of its hosts that are not the server. |
| VirtualIps.CapacityOutsideThePool | app/utils/cidr.py:43-74 | A concrete group outside the pool with a displayed capacity and no address. |
| VirtualIps.RunsFillTheCapacity | app/services/user/crud.py:618-644 | From an empty directory exactly as many allocations succeed as the capacity says. |
| CcdMerge.DropBlocks | app/services/peer_instance/ccd_merge.py:45-55 | The skip-flag loop keeps exactly the lines outside the blocks. |
| CcdBlocks.KeptIsOutside | app/services/peer_instance/ccd_merge.py:45-55 | Dropping blocks, line by line: a line goes when it is a marker or the last marker before it, if any, opens a block; all others stay in order. |
| CcdMerge.SortedUniqueIpv4Cidrs | app/services/peer_instance/ccd_merge.py:76-92 | The deduplicating loop and sort yield the canonical list; a text that is no IPv4 network raises. |
| CcdMerge.MergePeerBlockIntoCcd | app/services/peer_instance/ccd_merge.py:35-64 | The peer editor: raises exactly on a LAN that is no IPv4 network, else drops the old block and inserts the new one before the mesh block. What the block says is PeerBlockReadsBack. |
| CcdMerge.MergeMeshPeerPushRoutesIntoCcd | app/services/peer_instance/ccd_merge.py:108-131 | The mesh editor: raises exactly on a text that is no IPv4 network, else drops the old block and appends the new one. |
| CcdRoutes.IrouteLineReads | app/services/peer_instance/ccd_merge.py:26-30 | The words of an iroute line are the keyword, the network's address and its mask, each four decimals of at most 255; it reads as that network and no other. |
| CcdRoutes.PushLineReads | app/services/peer_instance/ccd_merge.py:100-103 | The same for a pushed route between its quotes. |
| CcdRoutes.PeerBlockReadsBack | app/services/peer_instance/ccd_merge.py:19-64 | After a merge, what stands between the site's markers is read as exactly the networks of its LAN. |
| CcdRoutes.PeerMergeIroutes | app/services/peer_instance/ccd_merge.py:19-64 | In any file, wherever the block lands: the iroutes are those of the lines outside the site's old block, and the networks of its LAN. |
| CcdRoutes.MeshBlockReadsBack | app/services/peer_instance/ccd_merge.py:95-131 | After a mesh merge, in any file, what stands in the mesh block is read as exactly the networks given. |
| CcdMerge.MeshLastWriteWins | app/services/peer_instance/ccd_merge.py:108-131 | Merging mesh routes is idempotent, and stripping after merging is stripping alone, for every file. |
| CcdMerge.PeerLastWriteWins | app/services/peer_instance/ccd_merge.py:35-69 | The same for a peer block in a file whose mesh marker is a line of its own; every line outside the block keeps its place. |
| CcdMerge.StripUndoesMergeExactlyWhenAnchored | app/services/peer_instance/ccd_merge.py:35-69 | Stripping undoes a merge exactly when the first mesh marker text is a whole line. |
| CcdMerge.UnanchoredMarker | app/services/peer_instance/ccd_merge.py:35-69 | A concrete file with the marker behind one character, from which no block can be taken out again. |
| CcdRounds.RoundIsStableExactlyWhenSettled | app/services/peer_instance/ccd_merge.py:35-131 | Peer merge then mesh merge is a fixed point of both exactly when nothing but blanks stands behind the mesh block and, if no mesh block is written, none in front of it. |
| CcdRounds.UnsettledRound | app/services/peer_instance/ccd_merge.py:35-131 | A concrete file that the second save changes again. |
| CcdRounds.MeshLastIsStable | app/services/peer_instance/ccd_merge.py:108-131 | A file whose mesh block is last, as the mesh editor leaves it, is stable after one save exactly when that save writes no block of the site, or writes mesh routes, or finds no blank lines in front. |
| CcdRounds.SecondRoundIsStable | app/services/peer_instance/ccd_merge.py:35-131 | No oscillation: from the second identical save on nothing changes, whatever the file was. |
| CcdVip.ReadVirtualIp | app/services/user/crud.py:646-655 | The reading loop finds the address of the first address line. |
| CcdVip.VirtualIpIs | app/services/user/crud.py:699-716 | The address of a file is that of its first address line. |
| CcdVip.PeerMergeKeepsAddress | app/services/peer_instance/ccd_merge.py:35-69 | Peer edits of a file as the program keeps it, address line before any marker, never change the client's address, and keep the file so. |
| CcdVip.MeshMergeKeepsAddress | app/services/peer_instance/ccd_merge.py:108-131 | The same for mesh edits. |
| CcdVip.MeshMergeAddress | app/services/peer_instance/ccd_merge.py:108-131 | For every file, well placed or not: after a mesh edit it states the address that its lines outside mesh blocks state. |
| CcdVip.PeerMergeAddress | app/services/peer_instance/ccd_merge.py:35-69 | The same for peer edits, when the mesh marker is a line of its own or no block is written. |
| CcdLines.UpdateCcdDisable | app/services/user/crud.py:478-493 | The filtering loop drops all `disable` lines and puts one in front when disabling. |
| CcdLines.EnabledIsRest | app/services/user/crud.py:478-493 | Line by line: only `disable` lines go, all others stay in order. |
| CcdLines.EnableUndoesDisable | app/services/user/crud.py:478-493 | Enabling after disabling gives what enabling alone would have given; disabling twice is disabling once. |
| CcdLines.DisableKeepsAddress | app/services/user/crud.py:478-493 | Disabling and enabling never change the client's address, in any file, and keep a well-formed file well-formed. |
| CcdLines.ReplaceCcdIfconfigPush | app/services/user/crud.py:657-678 | The replacing loop reports the old address and rewrites the first address line in its place. |
| CcdLines.ReplacedContents | app/services/user/crud.py:657-678 | Exactly one address line is left, it states the new address, and all other lines keep their order. |
| CcdContents.AddressRewritten | app/services/user/crud.py:657-678 | Whatever the file, giving its user another address leaves exactly one address line, which reads as that address and the mask of the pool, and all lines outside mesh blocks, in order. |
| CcdContents.OwnOfMesh | app/services/peer_instance/ccd_merge.py:108-131 | Rewriting the mesh routes leaves all lines outside them, in any file. |
| CcdContents.OwnLinesSay | app/services/user/crud.py:346-476 | Files with the same lines outside mesh blocks and address lines agree on every `disable`, marker and `iroute` in them. |
| CcdStatus.EnforcesIs | app/services/user/crud.py:478-493 | A file that enforces a status shuts its client out exactly when the user is disabled. |
| CcdStatus.PeerMergeEnforces | app/services/peer_instance/ccd_merge.py:35-64 | No edit of a site's block lets a disabled client in or shuts an active one out. |
| CcdStatus.MeshMergeEnforces | app/services/peer_instance/ccd_merge.py:108-131 | The same for mesh routes. |
| CcdStatus.AddressEnforces | app/services/user/crud.py:657-678 | The same for the address line, which is put behind a leading `disable`. |
| Groups.CheckSubnetConflict | app/services/group/subnet.py:11-76 | The conflict loop reports nothing exactly when the subnet lies in the global one and overlaps no other group that is smaller than it. |
| Groups.GroupService.Create | app/services/group/crud.py:31-101 | Created exactly when a subnet is given, the name is unused, and the network lies in the root group and the pool and overlaps no smaller group; the address space stays well divided. |
| Groups.GroupService.UpdateSubnet | app/services/group/crud.py:132-197 | Exactly when a subnet is changed; the space stays well divided exactly when the group is not the root, the refresh went through, or the new root still lies in the global subnet; the root stays the whole pool exactly when it is not the root that changed, the refresh went through, or its network stays the same. |
| Groups.RootDriftsFromGlobal | app/services/group/crud.py:177-190 | A concrete store in which a failing refresh leaves the root outside the global subnet. |
| Groups.GroupService.Delete | app/services/group/crud.py:300-349 | Exactly when a group is deleted; users and space are unaffected. |
| Groups.GroupService.SetStatus | app/services/group/crud.py:447-464 | Only the status changes; space and root are kept. |
| Groups.CreatedSpace | app/services/group/subnet.py:47-74 | A subnet that passes the check keeps all groups inside the global subnet and apart from each other. |
| PeerCcd.PeerService.SyncAllMeshPushRoutesInCcd | app/services/peer_instance/service.py:665-731 | Every active user's file is read as pushing exactly its group's networks, and keeps all other lines; other files stay; unreadable files do not stop the others and are reported. |
| PeerCcd.PeerService.MergeCcd | app/services/peer_instance/service.py:748-755 | The bound user's file is edited; a missing file or a bad LAN raises. |
| PeerCcd.MeshSynced | app/services/peer_instance/service.py:665-731 | Synchronising mesh routes changes nobody's address. |
| UserAccounts.UserService.ListCcdVirtualIps | app/services/user/crud.py:699-716 | All addresses that any readable file of the directory states; files that cannot be read are skipped. |
| UserAccounts.UserService.IncrementGroupUserCount | app/services/user/crud.py:718-727 | The count of that group moves, never below zero; a missing group is skipped. |
| UserAccounts.UserService.Create | app/services/user/crud.py:65-152 | Exactly when a user is created; the new user has the least address of the group that no readable file states; the file is one line with that address and the mask of the pool, and the mesh routes; every other file keeps its lines and gets the routes that now apply; the address plan is kept exactly when no other live user has that address. |
| UserAccounts.UserService.Delete | app/services/user/crud.py:225-300 | The file goes, the user is marked, the count drops by one; the address plan is kept exactly when the user was not deleted before or nobody is left in its group. |
| UserAccounts.UserService.ToggleStatus | app/services/user/crud.py:346-374 | The status turns over, and the file shuts the client out exactly when the user is disabled; no address and no other file changes. |
| UserAccounts.UserService.ChangeGroup | app/services/user/crud.py:376-476 | Exactly when a user moves; the address is found in the same way in the new group; the user's file keeps all lines outside mesh blocks and address lines, in order, and has one address line, which reads as the new address, and the routes of the new group; every other file keeps its lines; both counts move, and the plan is kept exactly when no other live user has the address. |
| UserAccounts.UserService.FinishWithMesh | app/services/user/crud.py:440-476 | The mesh routes that now apply are in every file that could be edited; no other line changes. |
| UserAccounts.MovedFileSays | app/services/user/crud.py:419-435 | A disabled user stays disabled, and a site keeps its routes, whatever group the user moves to. |
| UserAccounts.UnreadableIsGivenAgain | app/services/user/crud.py:618-716 | A concrete user whose file cannot be read and whose address the next user of the group is given. |
| UserAccounts.DeletedTwice | app/services/user/crud.py:276-295 | A concrete user deleted twice: the group then counts nobody although another user is in it. |
| AddressSpace.NoSharedAddress | app/services/user/crud.py:618-644 | What the invariant gives one user: an address of the group's present subnet, not the server's, and nobody else's. |
| AddressSpace.GroupsEdited | app/services/group/crud.py:154-155 | Since counts are exact, an empty group can be renumbered or deleted without touching anyone's address. |
| AddressSpace.UserCreated | app/services/user/crud.py:120-146 | Creating keeps the address plan exactly when no other live user has the address. |
| AddressSpace.UserMoved | app/services/user/crud.py:421-436 | Moving keeps the address plan exactly when no other live user has the address. |
| AddressSpace.HeldOnlyUnread | app/services/user/crud.py:618-716 | An address that no readable file states is another live user's only if that user's file cannot be read. |
| AddressSpace.UserDeleted | app/services/user/crud.py:276-291 | Deleting keeps the address plan. |
| AddressSpace.UserDeletedAgain | app/services/user/crud.py:276-295 | A second deletion keeps the plan exactly when nobody is left in the group that is counted down again. |
| AccountRuns.ServeAll | app/services/user/crud.py:65-476 | Over every run of group, user and peer requests the store goes from state to state, each request doing exactly what it asks for, to every file of the directory; in every state live addresses are distinct, in their group's present subnet and not the server's, and user counts are exact; if every file shut its client out exactly when the user was disabled, it still does; the groups keep to their space, and the root group is the whole pool, if the last renumbering of the root left it so. |
| AccountRuns.StepKeepsSpace | app/services/group/crud.py:132-197 | Renumbering the root group leaves it inside the global subnet, or equal to it, exactly when its refresh went through or the new subnet was so already; no other request takes a group out of the space. |
| AccountRuns.RunKeepsStatus | app/services/user/crud.py:346-493 | Over every run, whatever groups users move to and whatever sites write into their files: a disabled user stays shut out and an active one is let in. |
| PeerSnapshots.SameForward | app/services/peer_instance/service.py:22-41 | Two sites with equal forward snapshots contribute alike to the verdict on any packet. |
| PeerSnapshots.MeshLanCidrsForUserGroup | app/services/peer_instance/service.py:58-75 | The accumulating loop yields the canonical union of the LANs of the sites that name the group, or name no group at all. |
| PeerSnapshots.SkippedMeshKeepsRoutes | app/services/peer_instance/service.py:610-617 | A save that leaves the mesh snapshot unchanged leaves every group's routes and block unchanged. |
| PeerSnapshots.SkippedIrouteKeepsRoutes | app/services/peer_instance/service.py:50-55 | A save that leaves the snapshot of user and LAN unchanged leaves the same user and, in any file, the same lines. |
| PeerUpdates.PeerStore.Save | app/services/peer_instance/service.py:578-619 | Stored exactly when the site exists, its LAN is readable, and its user is named and bound to no other site. The stored site admits exactly the packets of the form as sent, is routed to exactly the groups it names, and is bound to its user; all other sites stay. A save whose refresh goes through makes the kernel follow what is stored, with the sets a refresh promises; one that needs no refresh leaves the kernel alone and following exactly if it did before; a refused one leaves the site stored and the kernel, cleanly undone, as before. |
| PeerUpdates.CheckedAsForm | app/models/peer_instance.py:70-115 | Whenever a form passes, the site made of it lets in exactly the packets that the form's own LAN, destination, port, protocol and switch let in, at its priority, for exactly the groups it names. |
| PeerUpdates.VoiceIsSite | app/services/firewall/rule_service.py:854-879 | What a stored site has to say in the policy is what it lets in. |
| PeerUpdates.SkippedSavesKeepStoredPolicy | app/services/peer_instance/service.py:586-602 | A save with an unchanged snapshot leaves every verdict of the stored policy as it was. |
| PeerUpdates.SkippedRefreshKeepsVerdicts | app/services/peer_instance/service.py:586-602 | So a chain that follows what was stored before such a save, and any that a refresh after it would have written, decide every packet alike. |
| PeerUpdates.PeerStore.SaveAgain | app/services/peer_instance/service.py:578-602 | The same form sent twice: when the first refresh is refused, the second save raises nothing and leaves sets, chain and the count of refusals as the first left them. |
| PeerUpdates.SavedAgain | app/services/peer_instance/service.py:578-602 | A form that was stored is stored again to no effect, and needs no refresh. |
| PeerUpdates.RefusedThenRepeated | app/services/peer_instance/service.py:586-602 | A concrete site for which the kernel followed the policy before the refused save, does not after it, and no repetition refreshes. |
| PeerUpdates.RefusedSilencing | app/services/peer_instance/service.py:561-576 | Whatever kernel follows the policy with a site that has a LAN does not once the site is switched off, or its LAN cleared, and the refresh is refused. |
| PeerUpdates.PeerStore.Create | app/services/peer_instance/service.py:537-546 | Stored exactly when the fields pass and the user is bound to no site, and then as sent; all other sites stay; done means the kernel follows what is stored; a refused refresh leaves the site stored and the kernel, cleanly undone, as before. |
| PeerUpdates.PeerStore.Delete | app/services/peer_instance/service.py:621-653 | That site is removed, and no other, exactly when found and its user's file can be edited; done means the kernel follows what is stored; a refused refresh leaves the site removed and the kernel, cleanly undone, as before. |
| PeerUpdates.PeerStore.Toggle | app/services/peer_instance/service.py:561-576 | Stored exactly when found and valid, with nothing but the switch turned; done means the kernel follows what is stored; a refused refresh leaves the site switched and the kernel, cleanly undone, as before. |
| PeerUpdates.PeerStore.ClearLan | app/services/firewall/rule_service.py:428-443 | Deleting a site's rule clears its LAN; files that have to be edited and cannot be end it there, with the LAN cleared and the kernel untouched; so does a refused refresh, with the kernel, cleanly undone, as before. |
| PeerUpdates.SkippedBlockIsThere | app/services/peer_instance/service.py:605-608 | For stored sites an unchanged snapshot of user and LAN means the right user's file already has exactly the lines that the skipped edit would leave. |
| CentreRuns.InTuneIs | app/services/firewall/rule_service.py:83-524 | The kernel is known to follow the policy exactly when the last request that did not keep the tie refreshed it, or all kept it and it held at the start. |
| CentreRuns.KeptSince | app/services/firewall/rule_service.py:83-524 | While every request keeps the tie the answer stays what it was, and so do chain and sets: a kernel left off the policy by a refused edit stays off it until some request refreshes. |
| CentreRuns.Serve | app/services/firewall/rule_service.py:83-524 | One request about rules, sites or the order of both: what is stored after any outcome; how the kernel was left; refreshed means the kernel follows what is stored, kept means it does exactly if it did before; which of them is a function of the request, the outcome and the states before and after. |
| CentreRuns.ServeAll | app/services/firewall/rule_service.py:83-524 | Over every run of requests about rules and sites, from any state and whatever is refused: what is stored and what the kernel holds go from step to step, each doing exactly what its request asks for; the kernel gives every packet the verdict of what is stored whenever the outcomes say so; since the last step that refreshed it holds the chain and sets that step left. |
| CentreRuns.QuietSteps | app/services/firewall/rule_service.py:83-524 | In a run in which the kernel refused nothing, a step that refreshed left exactly the sets of what was stored, and one fails only at CCD files or for something that the kernel cannot carry out. |
| CentreRuns.QuietRunKeepsTie | app/services/firewall/rule_service.py:83-524 | In such a run no request about rules parts kernel and policy, unless it is an update that moves its rule. |
| LikePattern.PatternMeans | app/storage/repository_helpers.py:27-38 | Under LIKE with ESCAPE the pattern means literal equality, prefix, suffix or containment without regard to case. |
| LikePattern.EscapedStep | app/storage/repository_helpers.py:30-31 | The three replacements escape each special character exactly once. |
| GridFilter.Query.AppendMultiTextClause | app/storage/repository_helpers.py:41-73 | The WHERE gains exactly what the spec says, and earlier clauses keep their parameters. |
| GridFilter.MultiTextTranslates | app/ui/grid_query.py:22-53 | For every many-value filter the SQL form accepts a row exactly when the predicate does. |
| GridFilter.BuildWhere | app/ui/grid_query.py:179-192 | For every list of filter models the WHERE accepts a row exactly when the SQL form of each does, which is when the row matches each filter if all of them translate. |
| GridFilter.TranslatesExactlyWhen | app/ui/grid_query.py:22-156 | For every filter model the two forms agree on all texts exactly when it is a many-value filter, or its kind is no blank test and its text carries no outer white space (an empty or absent text: only for containment, prefix and suffix). |
| SimpleRules.PeerRestsFromSimplifiedLine | app/services/firewall/simple_rule_import.py:199-220 | The printing loop yields one line for each protocol and port variant. |
| SimpleRules.LineParsesBack | app/services/firewall/simple_rule_import.py:33-81 | Each printed line parses back to the spec with that line's protocol and port. |
| SimpleRules.PrintedLinesRoundTrip | app/services/firewall/simple_rule_import.py:33-220 | Printing what was parsed back gives the same single line. |
| SimpleRules.LinesCoverTheSpec | app/services/firewall/simple_rule_import.py:84-116 | Read back, the lines of a spec together admit exactly its packets. |
| LegacyFiles.StandsForOne | app/storage/migration.py:79-167 | Files stand for at most one set of records. |
| LegacyFiles.RecordsAreWritten | app/storage/migration.py:79-167 | The records that files stand for are the ones written in them, all of them and with all that they say; a rule belongs to the file it is in. |
| LegacyFiles.TwoGroupsOfOneName | app/storage/sql/001_initial.sql:25-34 | Two good group files with one name cannot be imported. |
| MigrationProgress.OneRecordIn | app/storage/migration.py:79-127 | Importing a file either adds a record or overwrites one, and then some count no longer matches. |
| MigrationProgress.RowsRefused | app/storage/migration.py:130-167 | Rows that the table refuses show that the files cannot be imported. |
| MigrationProgress.NameRefused | app/storage/sql/001_initial.sql:25-48 | A group or peer that a unique index refuses shows that the files cannot be imported. |
| StorageMigration.Storage.FillTemp | app/storage/migration.py:321-335 | A temporary database that passes the count check holds exactly the records of the files; importable files (good, identifiers apart, group names and bound users apart) pass when nothing raises. |
| StorageMigration.Storage.Activate | app/storage/migration.py:336-346 | The database appears marked and complete in one step, or not at all. |
| StorageMigration.Storage.ArchiveLegacyFiles | app/storage/migration.py:204-241 | Wherever it stops, every file is where it was or in the archive with the same contents. |
| StorageMigration.Storage.EnsureReady | app/storage/migration.py:244-364 | Wherever the power goes or a step raises, the records of the installation are the same before and after; ready means there is a database; a bad file leaves no database; JSON beside a database is never read. |
| StorageMigration.Restarts | app/storage/migration.py:244-364 | Over any number of starts and crashes, the records are those of the files and then exactly what the last start that wrote has written, and every start that reports ready and keeps its power writes; no file is lost; the refusal beside an unmarked database never happens. |
| StorageMigration.RestartsOnBadFiles | app/storage/migration.py:244-364 | Over any number of starts and crashes, files that cannot be imported stay where they are, there is no database, and no start that keeps its power reports ready. |
| LoginLimiter.LoginAttemptLimiter.Make | app/services/auth/admin_auth.py:28-41 | Non-positive parameters are refused; a new limiter holds nothing against anyone. |
| LoginLimiter.LoginAttemptLimiter.ActiveFailures | app/services/auth/admin_auth.py:43-51 | The popping loop leaves the failures younger than the window. |
| LoginLimiter.LoginAttemptLimiter.AllowsAttempt | app/services/auth/admin_auth.py:53-58 | A source is refused exactly when its max-th last failure since the last reset is younger than the window. |
| LoginLimiter.LoginAttemptLimiter.RecordFailure | app/services/auth/admin_auth.py:60-68 | One failure is added for that source. |
| LoginLimiter.AdminLoginManager.AttemptLogin | app/services/auth/admin_auth.py:137-166 | Blocked exactly by the rule above; success replaces the session by one of the configured user that counts until its lifetime is over; otherwise the session stays; other sources are unaffected. |
| LoginLimiter.NextIsSpaced | app/services/auth/admin_auth.py:53-68 | A failure recorded after an admitted attempt keeps any failure and the max-th one after it a window apart. |
| LoginLimiter.AdmittedAgain | app/services/auth/admin_auth.py:43-58 | A blocked source is admitted again exactly when the window has passed since its max-th last failure. |
| LoginLimiter.OthersDoNotMatter | app/services/auth/admin_auth.py:43-75 | Leaving out all other sources' attempts changes nothing for a source. |
| LoginLimiter.AdminLoginManager.Serve | app/services/auth/admin_auth.py:137-166 | Over every run the rate bound holds at every source, and what is held against a source comes from its own attempts. |

## Left out

- RuleService.FirewallRuleService.UpdateById: the payload is given merged with the stored row, as the first step of the source makes it.
- RuleService.FirewallRuleService.SaveAndRefresh: the format check of a typed source subnet is not modelled; the subnet is given parsed.
- UserAccounts.UserService.ToggleStatus: the user's file can be read and written.
- PeerUpdates.PeerStore.Save: the edits of CCD files that follow the refresh are `PeerCcd`'s; when they raise, site and kernel are as after `Done`. The merged row is given, not the fields typed.
- PeerUpdates.PeerStore.Create: the same holds for the edits that follow its refresh.
- PeerUpdates.PeerStore.Delete: the same holds for the mesh routes rewritten after its refresh.
- RuleRuns.ServeAll: is about one service object; the snapshots of another object over the same store are its own.
- StorageMigration.Restarts: what the application writes is any set of records, names included.
- StorageMigration.Storage.EnsureReady: moving a file is one atomic rename; a move across file systems copies and deletes.
- UserAccounts.UserService.Create: the PKI either delivers credentials or not; a crash between writing the file and storing the user is not modelled.
- LoginLimiter.AdminLoginManager.AttemptLogin: whether credentials match is a parameter.
- Groups.GroupService.UpdateSubnet: the files regenerated after the global subnet changed (`server.conf`, instance metadata, the default rule) are not modelled.
- CcdMerge.MergePeerBlockIntoCcd: lines end with a newline only.
- PeerCcd.PeerService.MergeCcd: peer identifiers that hold `#` are left out; the program makes them of hexadecimal digits and hyphens.
- SimpleRules.LinesCoverTheSpec: what an address text stands for is a parameter; specs whose arguments hold blanks or begin with `-` are outside the round trip.
- GridFilter.Query.AppendMultiTextClause: columns are never NULL; set and number filters and two-condition filters are left out.
- Peer-side chains, SSH, EasyRSA, OpenVPN processes, conntrack, HTTP routes and pages: input and output around the modelled core.
- The single commands of the hook repair (one step for FORWARD, one for INPUT), the removal of misplaced `VPN_PEER_*` chains, NAT and `ip_forward`.
- SQLite transactions, WAL and permissions: a table is a map that is replaced atomically.
- Parsing of address texts, and what iptables itself limits (ports per line, a /0 entry in a set).
- Opening the lock file may fail; a timed-out command counts as refused without effect.
- `restore`, bulk operations, `update_details`, audit logs and timestamps: loops over or additions to the modelled operations.
- Tag membership changes, download links, the setup wizard and the traffic buffer.
