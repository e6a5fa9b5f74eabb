# networking-ovn: ACL builders, ACL diffs and Northbound resource sync

This project models two parts of the OpenStack Neutron driver for OVN
(networking-ovn):

- **The ACL layer.** It covers the builders of the default ACL records of a
  port: the drop-all-IP pair, the DHCP allow pair and the security-group rule
  record. It covers the protocol and port fragment of a rule's match
  expression. It covers the ACL update command's two ways of computing
  backend updates:
  - the compare mode diffs each port's old ACLs against its new ones and
    resolves the stale ones to backend rows;
  - the fast path adds or deletes a supplied ACL per port without comparing.
- **Northbound resource reconciliation.** The backend database holds logical
  switches with their logical switch ports and logical routers with their
  logical router ports. A synchronizer brings those tables in line with the
  Neutron networks, ports, routers and router interfaces.
  - It runs in one of three modes: `repair` changes the backend, while `log`
    and `off` never do.
  - It runs in two phases: networks and ports first, then routers and router
    ports.
  - Backend rows are named `neutron-<uuid>` for switches and routers and
    `lrp-<port id>` for router ports.
  - The functional test judges the result by reading the ids back from the
    row names and comparing them with the desired ids as multisets, table by
    table and router by router.

Modules:

| file | module | contents |
|---|---|---|
| `common.dfy` | `Common` | `Option`, `Result`, set of a sequence |
| `identity.dfy` | `Identity` | the `neutron-`/`lrp-` names and their decoding |
| `acl.dfy` | `Acl` | ACL records, the default ACL builders, `acl_protocol_and_ports` |
| `acl_diff.dfy` | `AclDiff`, `AclFastPath` | the ACL update command: compare-mode differences and the fast path, as loops proved against recursive specifications |
| `acl_examples.dfy` | `AclExamples` | the unit test's concrete scenarios, proved on the model |
| `nb_db.dfy` | `NbDb` | the backend tables, their commands and the atomic transaction (a class) |
| `sync_plan.dfy` | `SyncPlan` | the reconciliation diff, its repair transaction and convergence |
| `ovn_db_sync.dfy` | `OvnDbSync` | the synchronizer class with its modes and phases |
| `validation.dfy` | `SyncValidation` | the functional test's checks and its scenarios |

## Model

The ACL rows cite the unit test of the ACL module and the update command.
The sync rows cite the functional test of the synchronizer.

| member | source | states |
|---|---|---|
| Identity.Decode | networking_ovn/tests/functional/test_ovn_db_sync.py:46-47 | a row name decodes to an id exactly when it carries the prefix, and then the name is the prefix followed by that id |
| Identity.DecodeEncode | networking_ovn/tests/functional/test_ovn_db_sync.py:57 | `neutron-`/`lrp-` naming is injective and decodes back to the id it was built from |
| Identity.StripPrefix | networking_ovn/tests/functional/test_ovn_db_sync.py:110-117 | reading an id back from a row name removes the prefix once and only at the head; a name without the prefix is kept whole |
| Identity.StripPrefixRoundTrip | networking_ovn/tests/functional/test_ovn_db_sync.py:192-193 | reading back a name built from an id gives that id, for every id |
| Identity.ReplaceAllLosesId | networking_ovn/tests/functional/test_ovn_db_sync.py:110-112 | the test's `replace('neutron-', '')` reads the switch of network `neutron-1` back as `1`, not as its network id |
| Identity.ReplaceAllWithoutFirstChar | networking_ovn/tests/functional/test_ovn_db_sync.py:162-164 | `replace` leaves a name unchanged when no character of it starts the pattern |
| Identity.ReplaceAllAgreesOnUuids | networking_ovn/tests/functional/test_ovn_db_sync.py:202-203 | on names built from UUID-shaped ids, `replace` and prefix stripping agree and give the id back |
| Acl.PortMatch | networking_ovn/tests/unit/common/test_acl.py:55-62 | the port term of a match is `outport == "<id>"` for to-lport and `inport == "<id>"` for from-lport |
| Acl.DropAllIpTrafficForPort | networking_ovn/tests/unit/common/test_acl.py:48-68 | exactly two drop records, one per direction, priority 1001, no logging, switch `neutron-<network>`, lport and `neutron:lport` external id the port id, matches `<port term> && ip` |
| Acl.AddAclDhcp | networking_ovn/tests/unit/common/test_acl.py:70-96 | exactly two allow records at priority 1002: to-lport from the subnet's server port 67 to client port 68, from-lport from 68 to 67 toward broadcast or the subnet, with the port's switch, lport and external id |
| Acl.AclDirectionBijection | networking_ovn/tests/unit/common/test_acl.py:111-125 | ingress maps to to-lport and egress to from-lport, and the mapping is a bijection between the two rule directions and the two ACL directions |
| Acl.AddSgRuleAclForPort | networking_ovn/tests/unit/common/test_acl.py:98-125 | a record exists exactly for an ingress or egress rule; it carries the match unchanged, priority 1002, allow-related, no logging, switch `neutron-<network>`, lport and external id the port id |
| Acl.PortMatchIsMatched | networking_ovn/tests/unit/common/test_acl.py:55-62 | the direction and port id can be read back from any match that starts with a port term |
| Acl.DropMatchesNameTheirPort | networking_ovn/tests/unit/common/test_acl.py:64-68 | each drop record's match names its own direction and port |
| Acl.DhcpMatchesNameTheirPort | networking_ovn/tests/unit/common/test_acl.py:92-96 | each DHCP record's match names its own direction and port |
| Acl.DefaultRulesAreDistinct | networking_ovn/tests/unit/common/test_acl.py:48-96 | the four default records of a port (two drop, two DHCP) are pairwise different |
| Acl.NatToStringRoundTrip | networking_ovn/tests/unit/common/test_acl.py:334-336 | the decimal rendering of a port bound parses back to the number and uses digits only |
| Acl.AclProtocolAndPorts | networking_ovn/tests/unit/common/test_acl.py:334-370 | the fragment is empty exactly when the rule has no protocol term, and otherwise starts with ` && ` and the protocol name |
| Acl.ProtocolNumbersAsNames | networking_ovn/tests/unit/common/test_acl.py:334-344 | protocol numbers 6 and 17 give the same fragment as the names tcp and udp, whatever the rest of the rule |
| Acl.IcmpAliasesAgree | networking_ovn/tests/unit/common/test_acl.py:346-370 | every ICMP alias (`icmp`, `1`, `ipv6-icmp`, `icmpv6`, `58`) gives the same fragment |
| Acl.NoPortRangeMatches | networking_ovn/tests/unit/common/test_acl.py:334-370 | without port bounds: `" && tcp"`, `" && udp"`, and `" && icmp6"` for every ICMP alias under an IPv6 rule |
| Acl.SinglePortMatch | networking_ovn/tests/unit/common/test_acl.py:334-340 | a TCP rule with equal bounds matches that one destination port, and the rendered number reads back as the port |
| AclDiff.StripAllMembers | networking_ovn/tests/unit/common/test_acl.py:248-254 | the added records are exactly the given records reduced to priority, direction and match |
| AclDiff.DifferenceMembers | networking_ovn/tests/unit/common/test_acl.py:236-240 | the list difference holds exactly the records of the first list absent from the second |
| AclDiff.AclListSub | networking_ovn/tests/unit/common/test_acl.py:236-240 | the loop computes the order-keeping list difference |
| AclDiff.RowsOfExact | networking_ovn/tests/unit/common/test_acl.py:192-197 | resolving records through the row dictionary succeeds exactly when every record has a row, giving the rows in order; otherwise it reports a record without one |
| AclDiff.AclDifferencesKeys | networking_ovn/tests/unit/common/test_acl.py:247-248 | the deletions and the additions are keyed by exactly the networks of the ports |
| AclDiff.StaleLast | networking_ovn/tests/unit/common/test_acl.py:236-240 | a stale record belongs to an earlier port or to the last port |
| AclDiff.FreshLast | networking_ovn/tests/unit/common/test_acl.py:236-240 | a gained record belongs to an earlier port or to the last port |
| AclDiff.AclDifferencesSucceeds | networking_ovn/tests/unit/common/test_acl.py:192-197 | the differences are computed exactly when every stale record of every port has a row |
| AclDiff.PortStepDels | networking_ovn/tests/unit/common/test_acl.py:236-247 | one port's step keeps the earlier deletions and appends the rows of its stale records under its network |
| AclDiff.PortStepAdds | networking_ovn/tests/unit/common/test_acl.py:236-254 | one port's step keeps the earlier additions and appends its gained records, reduced, under its network |
| AclDiff.AclDeletionsComplete | networking_ovn/tests/unit/common/test_acl.py:236-247 | every stale record's row is deleted under its port's network |
| AclDiff.AclDeletionsSound | networking_ovn/tests/unit/common/test_acl.py:236-247 | every deleted row is the row of a stale record of a port on that network |
| AclDiff.AclAdditionsComplete | networking_ovn/tests/unit/common/test_acl.py:248-256 | every gained record is added, reduced, under its port's network |
| AclDiff.AclAdditionsSound | networking_ovn/tests/unit/common/test_acl.py:248-256 | every added record is a reduced gained record of a port on that network |
| AclDiff.UnchangedRulesUntouched | networking_ovn/tests/unit/common/test_acl.py:163-226 | a record that is in each port's new list exactly when it is in its old one, and whose row no other record shares, has its row deleted under no switch; an addition equal to its reduced form comes from a different gained record of a port on that switch, never from the record itself |
| AclDiff.RowsOfPrefixFailure | networking_ovn/tests/unit/common/test_acl.py:192-197 | a failed lookup on a prefix of the records fails the whole lookup with the same record |
| AclDiff.AclDifferencesSnoc | networking_ovn/tests/unit/common/test_acl.py:236-240 | the differences over one more port are that port's step on the earlier differences |
| AclDiff.AclDifferencesPrefixFailure | networking_ovn/tests/unit/common/test_acl.py:236-240 | a failure on a prefix of the ports is the failure of the whole computation |
| AclDiff.LookupRows | networking_ovn/tests/unit/common/test_acl.py:192-197 | the lookup loop resolves the records as the specification does, failing at the first record without a row |
| AclDiff.StripRecords | networking_ovn/tests/unit/common/test_acl.py:248-254 | the loop reduces each record, in order |
| AclDiff.DiffFromAgrees | networking_ovn/tests/unit/common/test_acl.py:236-240 | continuing the loop from the differences over the first ports gives the differences over all ports |
| AclDiff.AddPortDifferences | networking_ovn/tests/unit/common/test_acl.py:236-240 | the loop body computes one port's step |
| AclDiff.UpdateAclsCommand.ComputeAclDifferences | networking_ovn/tests/unit/common/test_acl.py:231-240 | the per-port loop computes the compare-mode differences as specified |
| AclDiff.CompareModeIgnoresIsAddAcl | networking_ovn/tests/unit/common/test_acl.py:258-276 | two commands differing only in `is_add_acl` compute the same differences |
| AclFastPath.MatchingAclsExact | networking_ovn/tests/unit/common/test_acl.py:310-332 | the rows kept are exactly the switch's rows whose match is a supplied match, and no more than the switch has |
| AclFastPath.AddValuesExact | networking_ovn/tests/unit/common/test_acl.py:296-308 | the additions are keyed by exactly the backend names of the ports' switches, and hold exactly the supplied ACLs of the ports on each |
| AclFastPath.NoCompareAddExact | networking_ovn/tests/unit/common/test_acl.py:296-308 | in add mode nothing is deleted and exactly the supplied ACLs are added per switch |
| AclFastPath.NoCompareDeleteExact | networking_ovn/tests/unit/common/test_acl.py:310-332 | in delete mode nothing is added, and every looked-up switch loses exactly its rows with a supplied match |
| AclFastPath.LookupSwitches | networking_ovn/tests/unit/common/test_acl.py:317-320 | the lookup succeeds exactly when every named switch has a row, giving the rows by backend name; otherwise it reports a missing name |
| AclFastPath.CollectAdditions | networking_ovn/tests/unit/common/test_acl.py:296-308 | the loop appends each port's supplied ACL under its switch's backend name |
| AclFastPath.CollectMatches | networking_ovn/tests/unit/common/test_acl.py:310-332 | the loop collects the match of every supplied ACL |
| AclFastPath.FilterByMatch | networking_ovn/tests/unit/common/test_acl.py:310-332 | the loop keeps, in order, the rows whose match is a supplied match |
| AclFastPath.CollectDeletions | networking_ovn/tests/unit/common/test_acl.py:310-332 | the loop gives every looked-up switch its rows to delete |
| AclFastPath.GetUpdateDataWithoutCompare | networking_ovn/tests/unit/common/test_acl.py:278-332 | the fast path succeeds exactly when every named switch exists, and then returns the looked-up switches with the specified additions and deletions |
| AclExamples.ExampleKeysDiffer | networking_ovn/tests/unit/common/test_acl.py:172-223 | the old and new to-lport records of the scenario, and its two port ids, differ |
| AclExamples.DifferenceOfThirds | networking_ovn/tests/unit/common/test_acl.py:176-224 | lists that differ only in their third record differ by exactly that record |
| AclExamples.ThirdRecordStep | networking_ovn/tests/unit/common/test_acl.py:163-226 | a port whose third record changes contributes that record's row and its new record, reduced |
| AclExamples.ExampleTables | networking_ovn/tests/unit/common/test_acl.py:190-226 | the scenario's old, new and row tables hold what the test builds |
| AclExamples.ExtendUnseen | networking_ovn/tests/unit/common/test_acl.py:242-247 | a network's first port starts its lists |
| AclExamples.ExtendSeen | networking_ovn/tests/unit/common/test_acl.py:242-247 | a later port on the same network appends to its lists |
| AclExamples.TwoPortsOnOneSwitch | networking_ovn/tests/unit/common/test_acl.py:236-256 | two ports on one switch, each changing its third record, give both rows and both new records under that switch |
| AclExamples.CompareModeFirstPort | networking_ovn/tests/unit/common/test_acl.py:236-247 | the first port of the scenario contributes row3 and its new to-lport record |
| AclExamples.CompareModeSecondPort | networking_ovn/tests/unit/common/test_acl.py:236-247 | the second port of the scenario contributes row6 and its new to-lport record |
| AclExamples.CompareModeExample | networking_ovn/tests/unit/common/test_acl.py:148-256 | the scenario's deletions are `{lswitch-1: [row3, row6]}` and its additions the two new to-lport records, reduced |
| AclExamples.SwitchLookupExample | networking_ovn/tests/unit/common/test_acl.py:305 | the fast path finds `neutron-lswitch-1` for switch `lswitch-1` |
| AclExamples.FastPathAddExample | networking_ovn/tests/unit/common/test_acl.py:296-308 | add mode deletes nothing and adds both supplied ACLs under `neutron-lswitch-1` |
| AclExamples.FastPathDeleteExample | networking_ovn/tests/unit/common/test_acl.py:310-332 | delete mode deletes acl1 and acl2, keeps acl3 and adds nothing |
| NbDb.DropOwners | networking_ovn/tests/functional/test_ovn_db_sync.py:90-91 | deleting owners removes them and every port they hold, and keeps the other ports unchanged |
| NbDb.AddOwner | networking_ovn/tests/functional/test_ovn_db_sync.py:224-231 | creating an owner adds it and leaves the ports alone |
| NbDb.DelOwner | networking_ovn/tests/functional/test_ovn_db_sync.py:90-91 | deleting an owner fails exactly when it is missing and `if_exists` is off; otherwise it drops the owner with its ports, or does nothing |
| NbDb.AddPort | networking_ovn/tests/functional/test_ovn_db_sync.py:224-231 | creating a port fails exactly when its owner is missing; otherwise it places the port on that owner |
| NbDb.DelPort | networking_ovn/tests/functional/test_ovn_db_sync.py:93-102 | deleting a port fails exactly when the port or the owner is missing and `if_exists` is off; otherwise it removes the port, or does nothing |
| NbDb.Apply | networking_ovn/tests/functional/test_ovn_db_sync.py:89-102 | a command changes only the tables of its kind |
| NbDb.ApplyAllPrefixFailure | networking_ovn/tests/functional/test_ovn_db_sync.py:89 | a transaction whose first commands fail fails with their error |
| NbDb.ApplyAllConcat | networking_ovn/tests/functional/test_ovn_db_sync.py:89-102 | running two command lists one after the other is running their concatenation |
| NbDb.ApplyValid | networking_ovn/tests/functional/test_ovn_db_sync.py:89-102 | a command that succeeds keeps a consistent store consistent |
| NbDb.ApplyAllValid | networking_ovn/tests/functional/test_ovn_db_sync.py:89-102 | a transaction that succeeds keeps a consistent store consistent |
| NbDb.NbDb.Transaction | networking_ovn/tests/functional/test_ovn_db_sync.py:89-102 | a transaction commits exactly when every command succeeds, leaving the commands' result; a failing one changes nothing and reports the failing command's error; a consistent store stays consistent |
| SyncPlan.PortNameInjective | networking_ovn/tests/functional/test_ovn_db_sync.py:67 | distinct port ids give distinct backend port names |
| SyncPlan.WantedRowsExact | networking_ovn/tests/functional/test_ovn_db_sync.py:42-47 | the wanted port rows are exactly the desired ports, named and placed on their desired owners |
| SyncPlan.WantedRowsOwners | networking_ovn/tests/functional/test_ovn_db_sync.py:59-78 | every wanted port row sits on a wanted owner |
| SyncPlan.OwnerNamesNotStale | networking_ovn/tests/functional/test_ovn_db_sync.py:224-231 | no wanted owner is ever stale |
| SyncPlan.ComputeDiff | networking_ovn/tests/functional/test_ovn_db_sync.py:224-231 | stale owners are exactly the managed backend owners that no desired id names; stale ports are exactly the managed backend ports, on owners that stay, not held by their wanted owner; missing owners are exactly the desired owners absent from the backend; missing ports are exactly the wanted rows absent or misplaced, with their wanted owners; a row already in place is neither stale nor missing |
| SyncPlan.ReconciledOwners | networking_ovn/tests/functional/test_ovn_db_sync.py:251-252 | after a repair the owners are the wanted owners plus any unmanaged ones |
| SyncPlan.ReconciledHasWantedPorts | networking_ovn/tests/functional/test_ovn_db_sync.py:251-252 | after a repair every wanted port row is present, on its wanted owner |
| SyncPlan.ReconciledOtherPorts | networking_ovn/tests/functional/test_ovn_db_sync.py:251-252 | after a repair the only port rows besides the wanted ones are the unmanaged rows on owners that stay, unchanged |
| SyncPlan.ReconciledPorts | networking_ovn/tests/functional/test_ovn_db_sync.py:251-252 | after a repair the port rows are exactly the wanted rows and the kept unmanaged rows |
| SyncPlan.ManagedKeepsNothing | networking_ovn/tests/functional/test_ovn_db_sync.py:251-252 | tables of managed rows only have no unmanaged rows to keep |
| SyncPlan.RepairConverges | networking_ovn/tests/functional/test_ovn_db_sync.py:251-255 | on managed tables a repair leaves exactly the wanted owners and port rows, and the tables stay consistent |
| SyncPlan.ReconciledValid | networking_ovn/tests/functional/test_ovn_db_sync.py:251-252 | a repair of consistent tables leaves no port without its owner |
| SyncPlan.ConvergedHasNoDiff | networking_ovn/tests/functional/test_ovn_db_sync.py:251-252 | converged tables have nothing to create or delete |
| SyncPlan.ReconciledNoDiff | networking_ovn/tests/functional/test_ovn_db_sync.py:251-252 | an empty diff changes nothing |
| SyncPlan.NoDiffWhenSettled | networking_ovn/tests/functional/test_ovn_db_sync.py:251-252 | tables that hold every desired owner and wanted row, and no other managed row, have nothing to create or delete |
| SyncPlan.RepairedHasNoDiff | networking_ovn/tests/functional/test_ovn_db_sync.py:251-255 | repaired tables, unmanaged rows included, have nothing to create or delete |
| SyncPlan.RepairIdempotent | networking_ovn/tests/functional/test_ovn_db_sync.py:251-255 | on any tables, a second repair finds nothing to do and changes nothing |
| SyncPlan.ApplyDelOwner | networking_ovn/tests/functional/test_ovn_db_sync.py:90-91 | deleting an owner with `if_exists` always succeeds and drops it with its ports |
| SyncPlan.ApplyDelPort | networking_ovn/tests/functional/test_ovn_db_sync.py:93-102 | deleting a port of an existing owner with `if_exists` always succeeds and removes it |
| SyncPlan.ApplyAddOwner | networking_ovn/tests/functional/test_ovn_db_sync.py:224-231 | creating an owner succeeds and adds it |
| SyncPlan.ApplyAddPort | networking_ovn/tests/functional/test_ovn_db_sync.py:224-231 | creating a port on an existing owner succeeds and places it |
| SyncPlan.DelOwnersEffect | networking_ovn/tests/functional/test_ovn_db_sync.py:90-91 | a list of owner deletions drops exactly the owners listed, with their ports |
| SyncPlan.DelPortsEffect | networking_ovn/tests/functional/test_ovn_db_sync.py:93-95 | a list of port deletions on existing owners removes exactly the ports listed |
| SyncPlan.AddOwnersEffect | networking_ovn/tests/functional/test_ovn_db_sync.py:224-231 | a list of owner creations adds exactly the owners listed |
| SyncPlan.AddPortsEffect | networking_ovn/tests/functional/test_ovn_db_sync.py:224-231 | a list of port creations on existing owners places exactly the ports listed |
| SyncPlan.RepairOwnersInPlace | networking_ovn/tests/functional/test_ovn_db_sync.py:224-231 | each port the repair deletes or creates finds its owner in place at that point of the transaction |
| SyncPlan.RepairCommandsApply | networking_ovn/tests/functional/test_ovn_db_sync.py:224-231 | deletions of owners, then of ports, then creations of owners, then of ports, each port finding its owner in place, leave exactly the reconciled tables |
| SyncPlan.RepairCommandsEffect | networking_ovn/tests/functional/test_ovn_db_sync.py:224-231 | the repair transaction, in any order of its lists, succeeds on consistent tables and leaves exactly the reconciled tables |
| OvnDbSync.ModeName | networking_ovn/tests/functional/test_ovn_db_sync.py:254-267 | each mode's name parses back to that mode |
| OvnDbSync.ParseMode | networking_ovn/tests/functional/test_ovn_db_sync.py:254-267 | a mode name is recognised exactly when it is `repair`, `log` or `off` |
| OvnDbSync.Synced | networking_ovn/tests/functional/test_ovn_db_sync.py:224-231 | a full sync reconciles the switch tables against the networks and ports, and the router tables against the routers and their interfaces |
| OvnDbSync.ListOf | networking_ovn/tests/functional/test_ovn_db_sync.py:224-231 | the loop lists exactly the names of a set |
| OvnDbSync.OvnNbSynchronizer.SyncPhase | networking_ovn/tests/functional/test_ovn_db_sync.py:224-231 | one phase computes the diff (none when off), commits the repair transaction only in repair mode, leaves the store untouched otherwise, and keeps it consistent |
| OvnDbSync.OvnNbSynchronizer.SyncNetworksAndPorts | networking_ovn/tests/functional/test_ovn_db_sync.py:230 | the first phase reconciles only the switch tables in repair mode, and changes nothing in log or off mode |
| OvnDbSync.OvnNbSynchronizer.SyncRoutersAndRports | networking_ovn/tests/functional/test_ovn_db_sync.py:231 | the second phase reconciles only the router tables in repair mode, and changes nothing in log or off mode |
| OvnDbSync.OvnNbSynchronizer.Sync | networking_ovn/tests/functional/test_ovn_db_sync.py:224-231 | the two phases in order return the switch and router diffs of the store as it was (none when off), and give the fully synced store in repair mode; in log and off mode the store, and so any mismatch, stays as it was |
| SyncValidation.RouterPortRows | networking_ovn/tests/functional/test_ovn_db_sync.py:187-205 | a router without a row has no port rows (the `RowNotFound` case); otherwise its port rows are the ports it holds |
| SyncValidation.OwnerNamesSameItems | networking_ovn/tests/functional/test_ovn_db_sync.py:104-121 | the owners named from a set of ids read back as exactly those ids, without collisions |
| SyncValidation.WantedRouterPortsSameItems | networking_ovn/tests/functional/test_ovn_db_sync.py:182-209 | a router's wanted port rows read back as exactly its desired interface ports |
| SyncValidation.ConvergedSwitchesMatch | networking_ovn/tests/functional/test_ovn_db_sync.py:104-147 | converged switch tables pass the network and port checks |
| SyncValidation.ConvergedRoutersMatch | networking_ovn/tests/functional/test_ovn_db_sync.py:157-209 | converged router tables pass the router check and every router's port check |
| SyncValidation.SyncedMatches | networking_ovn/tests/functional/test_ovn_db_sync.py:251-255 | after a repair sync of a managed store, every check passes |
| SyncValidation.RepairFromEmpty | networking_ovn/tests/functional/test_ovn_db_sync.py:257-261 | a repair sync of an empty store makes every check pass |
| SyncValidation.EmptyStoreMismatch | networking_ovn/tests/functional/test_ovn_db_sync.py:242-249 | an empty store fails every check when there are networks, ports and routers, each router with an interface |
| SyncValidation.DeleteResourcesInNb | networking_ovn/tests/functional/test_ovn_db_sync.py:80-102 | the test builds the deletions list by list (switches, switch ports, routers, router ports, each `if_exists`) and commits them as one transaction, which keeps a consistent store consistent |
| SyncValidation.DroppedRowFailsCheck | networking_ovn/tests/functional/test_ovn_db_sync.py:119-129 | a check that passes fails once one of the rows it read is gone |
| SyncValidation.SingleDropCommands | networking_ovn/tests/functional/test_ovn_db_sync.py:89-102 | a one-element deletion list is one command |
| SyncValidation.DropCommandsEffect | networking_ovn/tests/functional/test_ovn_db_sync.py:80-102 | the test's deletion transaction succeeds and drops the listed switch, port, router and router port |
| SyncValidation.DroppedSwitchRowsMismatch | networking_ovn/tests/functional/test_ovn_db_sync.py:104-155 | after the deletions the network and port checks fail |
| SyncValidation.DroppedRouterRowsMismatch | networking_ovn/tests/functional/test_ovn_db_sync.py:157-217 | after the deletions the router check and both routers' port checks fail |
| SyncValidation.DroppedRowsMismatch | networking_ovn/tests/functional/test_ovn_db_sync.py:233-249 | from a store that passes every check, the test's deletions make every check fail |
| SyncValidation.DeleteThenSync | networking_ovn/tests/functional/test_ovn_db_sync.py:233-252 | the test's run: a failed deletion transaction changes nothing; otherwise the store after the sync is the dropped store synced in repair mode and the dropped store itself in log and off mode; it stays consistent |
| SyncValidation.RepairAfterDropMatches | networking_ovn/tests/functional/test_ovn_db_sync.py:233-255 | after the test's deletions from a managed store, a repair sync makes every check pass again |

## Left out

- The implementations of the ACL builders, of the ACL update command and of the synchronizer are not part of this model. The model follows the two test files and the component's documented behaviour.
- `networking_ovn/common/acl.py`, `networking_ovn/ovsdb/commands.py` and `networking_ovn/ovn_db_sync.py` are not part of this model.
- The ovsdb-server processes, the restart, the IDL connections and the OVSDB wire protocol are left out. The backend is one in-memory store, and a transaction is an atomic update of it.
- The plugin IDL and the monitor IDL are modelled as one store. The test compares the desired ids with both, and both see the same committed rows.
- The Neutron API, the L3 plugin calls and the test fixtures (`_create_resources`) are left out. The desired topology is a parameter of the sync.
- The `mock.patch` of `row_by_value` is an explicit lookup in a map of switch rows.
- Remote-group address lists are left out, and so is the parsing of IP addresses and CIDRs. Addresses, CIDRs and the remote-group match are opaque strings.
- Acl.AclProtocolAndPorts: the port-range rendering is an assumption of this model, since the tests pin only the case without a port range. It treats a bound of 0 or -1 as unset, renders equal set bounds as one `==` term, and otherwise renders a `>=` term for a set lower bound and a `<=` term for a set upper bound (`Acl.PortBound` and `Acl.PortRangeTerm`).
- Acl.SinglePortMatch: states only the single-port case of the port-range rendering.
- The in-place `del` of each new record's `lport` and `lswitch` keys is modelled as a value-level reduction to priority, direction and match. The aliasing it implies between the caller's dictionary and the additions is not captured.
- The test sorts the lists of the results in place before comparing. The model keeps port order, and the scenario lemmas state that order.
- ACL and static-route sync inside the synchronizer is left out. The test marks it as not done.
- Concurrent sync passes and their serialisation are left out.
- Rows this system does not manage are kept by a repair. An owner row is managed when its name has the `neutron-` prefix. A port row is managed when its owner's name has that prefix and, for router ports, its own name has the `lrp-` prefix (`SyncPlan.ManagedPort`). Unmanaged ports on an owner that a repair deletes go with that owner. SyncPlan.RepairConverges, SyncValidation.SyncedMatches and SyncValidation.RepairAfterDropMatches require every row to be managed (`SyncPlan.ManagedTable`); SyncPlan.ReconciledPorts and SyncPlan.RepairIdempotent do not.
- NbDb.DelPort: deletes the named port whenever the port and the named owner both exist, without checking that this owner holds the port. The test only ever names the port's own owner.
- Backend rows are sets of names, so two rows with the same name cannot be represented. SyncPlan.RepairConverges therefore does not cover a store with duplicate rows.
- OvnDbSync.OvnNbSynchronizer.SyncPhase: one phase issues one transaction holding every deletion before every creation. The order within it does not change the result (SyncPlan.RepairCommandsEffect).
- The `log` mode's log messages are not modelled. The diffs are returned instead: by each phase, and by OvnDbSync.OvnNbSynchronizer.Sync for both phases.

## Findings

| source | as written | input that shows it | evidently intended | confidence | as-written member | corrected member |
|---|---|---|---|---|---|---|
| networking_ovn/tests/functional/test_ovn_db_sync.py:110-117 | ids are read back with `replace('neutron-', '')`, which removes every occurrence of the prefix | a network whose id is `neutron-1` has the switch `neutron-neutron-1`, which reads back as `1` | remove the prefix once, at the head of the name | not executed; harmless for UUID ids (Identity.ReplaceAllAgreesOnUuids) | Identity.ReplaceAllLosesId | Identity.StripPrefixRoundTrip |
