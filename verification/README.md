# Protean, modelled in Dafny

Protean is a control panel for VPN servers. Most of it moves data between a browser, PostgreSQL and hosts reached over
SSH; a few engines inside it carry real invariants. This project models those engines and proves what they promise,
over all inputs, all runs or all interleavings.

| file | models |
|---|---|
| `KeyRotate.dfy` | rotation of the master key: every sealed column rewritten and read back in one transaction |
| `StatusCache.dfy`, `StatusTrace.dfy` | the status cache: expiry, one shared fetch per name, invalidation, as a protocol of interleaved steps |
| `NetworkDetect.dfy`, `DetectionTrace.dfy`, `DetectionBooks.dfy` | applying a reviewed network detection: nodes, subnets, groups, mesh flags, dismissals, the summary |
| `DetectionReapply.dfy`, `DetectionSpent.dfy`, `DetectionExactly.dfy`, `DetectionLateNaming.dfy`, `DetectionWoken.dfy` | exactly what an apply does, and exactly when re-applying changes nothing |
| `DetectionRace.dfy`, `DetectionAlone.dfy` | any number of applies that take turns at their store calls, calls that fail included |
| `Cidr.dfy`, `Ipam.dfy`, `Overlap.dfy`, `Classify.dfy`, `Routes.dfy`, `AutoProvision.dfy` | the address engine |
| `BruteForce.dfy`, `GuardTrace.dfy` | the login guard: escalating bans over runs of attempts |
| `ConsoleHub.dfy`, `ConsoleTrace.dfy` | console tickets and concurrency caps |
| `PeerId.dfy` | peer ids in URLs: base64, sections 4 and 5 of RFC 4648 |
| `Firewall.dfy`, `FirewallLoads.dfy`, `FirewallPlan.dfy` | the firewall file, read back and evaluated first match first; which files are taken at all; the preview |
| `Watcher.dfy` | the connection watcher and its event log |
| `TextLines.dfy`, `ShellQuote.dfy` | shell quoting and here-documents, sections 2.2.2 and 2.7.4 of the POSIX.1-2017 Shell Command Language |

Objects whose methods update fields are classes; each such method is tied to a function on values or to a step of a
state machine, and the theorems are about those. For the state machines a second set of theorems (the files whose
names end in `Trace` or `Books`) tells the results from the calls alone: who was let in, banned, answered or counted,
and from which calls that follows. Loops stay loops. `Prelude.dfy` holds `Option`, `Result`, bytes, the order of texts,
properties of prefixes, counting of positions and white space.

## What the proofs say about the code

* A committed key rotation is right even where the key columns do not identify a row (`openvpn_clients` and
  `ikev2_clients` are addressed by `cn` alone, while rows are stored per provider and `cn`): the update pass and the
  read-back pass together force colliding rows to agree. The price is that two clients with one common name and
  different keys make every rotation fail (`SharedCommonNameBlocksRotation`), and that a short placeholder sharing its
  key with a real row is overwritten (`CellRotated` says with what). With the primary keys of the schema in force, that
  and a cell that does not open are the only ways a rotation can fail on its data (`RotatableExactly`).
* `invalidate` forces a new provider call exactly if no flight for the name has begun its call or found an entry
  (`InvalidateExactly`); otherwise a run exists in which a later reader still gets an older answer. The age of an entry
  counts from when the provider returned, and a read is answered from the cache exactly if the reply saved last for its
  key is less than five seconds old and was not invalidated (`CheckExactly`).
* The code says a detection can be re-applied without effect. For one decision per peer this holds whenever the provider
  has a group or an automatic name is still free (`DistinctBatchIsIdempotent`). For every state and every batch of
  canonical networks there is an exact condition, told from the tables and the batch before the first run
  (`ReapplyLastsExactly`). Three things break it: a provider without a group that adopts a sibling's, no name being
  free, after another sibling was refused one (`SpentNamesBreakReapply` has a database); a nameless decision before a
  naming one for the same peer, which the second run wakes, if it asks for something not in hand
  (`LateNamingBreaksReapply` has a batch); and, with no group to be had, a decision so woken that switches a provider on,
  finds a group to adopt, or stops the second run at a point where a dismissal has been taken back.
* The code also says that two racing applies never make a node or a subnet twice. For subnets this holds in every
  interleaving, calls that fail included (`DetectionRace.RunKeepsInv`). For nodes it does not: a peer gets as many as
  there are applies that read its ownership before anyone was written as its owner (`SecondNodeExactly`,
  `RacingTabsMakeTwoNodes`). One apply that is stopped between the node and its owner, and then repeated, leaves two as
  well (`RetryMakesTwoNodes`).
* A scan of `0.0.0.0/0` that finds nothing free up to the last address wraps round and never returns; that is the only
  such case (`Endless`, `EndlessNeverStops`), so the search ends for every prefix length of at least 1.
* The comments in the login guard say rejected attempts do not feed the counter. They do: they never lengthen a ban, but
  a failure bans a key because of them exactly if the real failures in the window stay below the threshold and the
  rejected ones make up the difference (`RejectionsFeedTheCounter`; `RejectionBansAgain` has a run of the guard). A ban
  soon after a success or an unban starts at level 1 (`BansAfterReset`; `UnbanLeavesLevelOne` has a run).
* A peer id that is base64 with non-zero spare bits, or with line breaks, does not survive the round trip: `Clean` is
  the exact condition.
* A firewall port entry with a protocol and port shared by another entry but a different label makes the order of the
  rendered file depend on the sort (`OrderIsImmaterialExactly`), never its meaning.
* A firewall comment that ends in an odd number of backslashes swallows its closing quote, and a rule with a port but no
  protocol is not accepted by iptables. Of the ways to be refused that are modelled here, a file with ordinary fields
  meets only those two (`LoadsExactly`).
* `WriteFile` refuses exactly the contents with a line equal to the delimiter, trailing carriage returns set
  aside; that is a little more than needed (`HeredocExactly` has the exact condition).

## Model

| member | source | states |
|---|---|---|
| `KeyRotate.Database.Rotate` | internal/keyrotate/keyrotate.go:113-136 | with the faults of every statement an input: success exactly if all sealed columns are rotatable, no statement needed fails and the commit is acknowledged or the run is dry; then every real ciphertext of every sealed column opens under the new key to its old plaintext and nothing else changed but colliding placeholders; a dry run and every failure before commit leave the database identical, a lost commit leaves it identical or rotated; each failure has the reason it reports; the reports match the old tables |
| `KeyRotate.RotateAll` | internal/keyrotate/keyrotate.go:121-127 | the loop over columns composes: success exactly if every column is rotatable and none of its statements fails; each column is rotated as if alone, later ones seeing the same cells and keys |
| `KeyRotate.RotateColumn` | internal/keyrotate/keyrotate.go:143-232 | one column: success exactly if the rows are readable and separable and no statement fails, and then the rotated column; a failure has the reason it reports; counts match |
| `KeyRotate.CollectPending` | internal/keyrotate/keyrotate.go:152-186 | the rows collected are exactly the real ciphertexts with their keys, in order; pending, short and NULL add up to all rows; success exactly if every cell is readable and no scan fails |
| `KeyRotate.UpdatePass` | internal/keyrotate/keyrotate.go:199-209 | the updates amount to: each row carries the blob of the last pending entry addressing it; success exactly if no statement fails |
| `KeyRotate.SelectOne` | internal/keyrotate/keyrotate.go:215-220 | reading back finds a row with the key, or there is none |
| `KeyRotate.VerifyPass` | internal/keyrotate/keyrotate.go:211-228 | success exactly if pending entries with one key agree on the plaintext and no read-back fails |
| `KeyRotate.VerifyEntry` | internal/keyrotate/keyrotate.go:211-228 | one read-back succeeds exactly if the last entry with that key has the same plaintext |
| `KeyRotate.CountsExactly` | internal/keyrotate/keyrotate.go:162-186 | each counter is the number of rows whose cell is NULL, shorter than 28 bytes, or neither |
| `KeyRotate.PendingMembers` | internal/keyrotate/keyrotate.go:152-186 | membership of the pending list, both directions |
| `KeyRotate.PendingSeparable` | internal/keyrotate/keyrotate.go:199-228 | what the verify pass checks is separability of the rows, both directions |
| `KeyRotate.AgreeingIsVerified` | internal/keyrotate/keyrotate.go:211-228 | every pending entry is verified exactly if no two entries with one key differ |
| `KeyRotate.ReadBackDecides` | internal/keyrotate/keyrotate.go:211-228 | a read-back row opens to the pending plaintext exactly if the last entry with that key has it |
| `KeyRotate.RewriteStep` | internal/keyrotate/keyrotate.go:199-209 | one more UPDATE ... WHERE equals one more pending entry in the closed form |
| `KeyRotate.RewriteRotates` | internal/keyrotate/keyrotate.go:199-228 | on rotatable rows every cell of the rewritten column is rotated |
| `KeyRotate.SealedColumnsWellFormed` | internal/keyrotate/keyrotate.go:46-62 | the registered columns are distinct and none is a key column of another of its table |
| `KeyRotate.SealedColumnsMatchSchema` | internal/keyrotate/keyrotate_dbtest_test.go:462-499 | a column is registered exactly if the schema, written out apart, declares it bytea, and its key columns are the primary key of its table, or `cn` for the two client tables |
| `KeyRotate.RotatableExactly` | internal/keyrotate/keyrotate.go:46-62 | in a database that keeps its primary keys every column is rotatable exactly if every cell opens and no two clients of one client table share a common name with different secrets |
| `KeyRotate.ColumnTransfers` | internal/keyrotate/keyrotate.go:121-127 | rotating other columns leaves a column's cells, keys and rotatability as they were |
| `KeyRotate.ColumnAdds` | internal/keyrotate/keyrotate.go:121-127 | rotated columns compose into a rotated set of columns |
| `KeyRotate.UniqueKeysKeepTheRest` | internal/keyrotate/keyrotate.go:162-180 | with unique keys, NULLs, placeholders and every other cell are untouched |
| `KeyRotate.ThereAndBack` | internal/keyrotate/keyrotate.go:113-136 | old to new to old restores every plaintext |
| `KeyRotate.SharedCommonNameBlocksRotation` | internal/keyrotate/keyrotate.go:49-50 | two clients of different providers with one common name and different keys: no rotation can succeed |
| `StatusCache.EveryRunIsSafe` | internal/api/statuscache.go:54-113 | in every interleaving at most one provider call per key is outstanding, and every returned result was given by the provider for that key and was fetched by the caller's flight, after its second look, or was younger than the TTL at a check made during the call |
| `StatusCache.StepKeepsInv` | internal/api/statuscache.go:54-113 | the invariant behind it is kept by every step |
| `StatusCache.RunKeepsInv` | internal/api/statuscache.go:54-113 | and so by every run |
| `StatusCache.InvalidateExactly` | internal/api/statuscache.go:64-79 | after `invalidate` every later read gets the reply of a later provider call, in every continuation, if and only if no flight of the key has begun its call or found an entry; the window between a missed second look and the call is a stage of its own |
| `StatusCache.StaleReadAfterInvalidate` | internal/api/statuscache.go:64-79 | otherwise a continuation exists in which a later reader gets an older answer |
| `StatusCache.JoinedFlightAnswers` | internal/api/statuscache.go:64-79 | the case of a reader that joins such a flight |
| `StatusCache.FlightCanFinish` | internal/api/statuscache.go:64-81 | every open flight, at whatever stage, has steps that end it and answer a waiting read, with the old reply if it holds or awaits one |
| `StatusCache.RunKeepsOnlyNew` | internal/api/statuscache.go:54-122 | once only new calls are visible, only new calls stay visible |
| `StatusCache.StepKeepsOnlyNew` | internal/api/statuscache.go:54-122 | the same for one step |
| `StatusCache.CheckExactly` | internal/api/statuscache.go:57-62 | after every run: a read is answered at once, with the reply saved last for its key, exactly if one was saved, came back less than five seconds ago and was not invalidated since; no call and no flight is begun for it |
| `StatusCache.RecheckExactly` | internal/api/statuscache.go:64-71 | the same for the second look of a flight; otherwise the flight goes on to its call |
| `StatusCache.SavedReplyServes` | internal/api/statuscache.go:57-77 | a saved reply answers every read of its key for five seconds from when it came back, through any steps but an invalidation of the name |
| `StatusTrace.RunIsAsTold` | internal/api/statuscache.go:54-113 | over every run the clock, the reads and the calls are those of the steps: each call was made, answered and stamped by the step, and at the time, its record says |
| `StatusTrace.EveryAnswerWasGiven` | internal/api/statuscache.go:54-113 | every answered read got the reply of a respond step to a call a request step made for the key the read asked for |
| `StatusCache.Store.Lookup` | internal/api/statuscache.go:57-62 | the two maps, read through the expiry test, are the cache of the protocol |
| `StatusCache.Store.Put` | internal/api/statuscache.go:75-77 | storing in one map is the protocol's store |
| `StatusCache.Store.Invalidate` | internal/api/statuscache.go:117-122 | both maps lose the name, and only it |
| `NetworkDetect.Server.ApplyNetworkDetection` | internal/api/network_detect.go:225-342 | the batch interpreter, in place, is `Apply`: tables, summary and whether it stopped |
| `NetworkDetect.Server.ApplyDecision` | internal/api/network_detect.go:244-339 | one decision, in place |
| `NetworkDetect.Server.Create` | internal/api/network_detect.go:260-338 | a decision for a node: owned, named or skipped, then extended |
| `NetworkDetect.Server.CreateOwner` | internal/api/network_detect.go:283-302 | the node, its owner row and the category |
| `NetworkDetect.Server.Extend` | internal/api/network_detect.go:305-338 | subnets and mesh links of one decision |
| `NetworkDetect.Server.AddSubnets` | internal/api/network_detect.go:313-324 | the subnet loop, its early return included |
| `NetworkDetect.Server.AddLinks` | internal/api/network_detect.go:326-338 | the mesh loop |
| `NetworkDetect.Server.AddLink` | internal/api/network_detect.go:327-337 | one pair, taken once per call |
| `NetworkDetect.Server.EnablePair` | internal/api/network_detect.go:368-405 | both flags on, groups reconciled or the failure noted |
| `NetworkDetect.Server.Reconcile` | internal/api/network_groups.go:40-70 | the three cases of group bookkeeping |
| `NetworkDetect.Server.EnsureGroup` | internal/api/network_groups.go:11-28 | the provider's group, made if missing |
| `NetworkDetect.Server.CreateGroup` | internal/store/network_groups.go:91-108 | the loop over twenty names, in place |
| `NetworkDetect.NextNameExactly` | internal/store/network_groups.go:91-108 | the new group is named with the least free number above the number of groups, under the next id, and none is made exactly if the next twenty are taken |
| `NetworkDetect.DistinctPeersAreNeverNamedLate` | internal/api/network_detect.go:272-278 | distinct peers exclude late naming |
| `NetworkDetect.NothingToDoExactly` | internal/api/network_detect.go:225-342 | a call succeeds and changes no table exactly on quiet batches |
| `NetworkDetect.QuietChangesNothing` | internal/api/network_detect.go:225-342 | a quiet batch touches only dismissals |
| `NetworkDetect.UnchangedMeansQuiet` | internal/api/network_detect.go:225-342 | the converse |
| `NetworkDetect.LateNamingBreaksReapply` | internal/api/network_detect.go:272-278 | a batch on which re-applying is not the identity |
| `NetworkDetect.ApplyProgress` | internal/api/network_detect.go:225-342 | rows are only added, one node per newly owned peer, no network twice, no group name twice, a provider's group and a mesh flag never taken away, the summary counts the new rows |
| `NetworkDetect.ApplyDismisses` | internal/api/network_detect.go:244-258 | the dismissals after a batch are those of its skip and undismiss decisions alone |
| `NetworkDetect.LastDismissalWins` | internal/api/network_detect.go:244-258 | per peer the last such decision decides |
| `NetworkDetect.ReconcileGrows` | internal/api/network_groups.go:40-70 | both sides end grouped and no group is overwritten |
| `NetworkDetect.EnsureGrows` | internal/api/network_groups.go:11-28 | the provider ends grouped and nothing else changes |
| `DetectionTrace.EnsureExactly` | internal/api/network_groups.go:11-28 | the provider ends in the group handed back: its own if it had one, else the one new group; no other provider changes |
| `NetworkDetect.EnablePairGrows` | internal/api/network_detect.go:368-405 | both sides end enabled and, if reconciled, grouped |
| `NetworkDetect.MeshPairKeyIdentifiesPairs` | internal/api/network_detect.go:344-349 | the key is symmetric; a provider without a bar in its name, as every registered one is, has a key of its own for each sibling, whatever text the sibling is |
| `DetectionTrace.EveryRowWasAsked` | internal/api/network_detect.go:260-324 | every new owner has the node its decision named, every new subnet the network, title, owner and group its decision asked for, also when the batch stops half-way |
| `DetectionTrace.LinkedShareAGroup` | internal/api/network_groups.go:30-70 | linked providers share a group unless each had one, both are switched on; one group, with the next id, is made exactly if neither had one; no other provider changes |
| `DetectionBooks.SummaryExactly` | internal/api/network_detect.go:225-342 | for every batch, stopped ones included: skipped, undismissed, already handled and created nodes are the numbers of decisions of that kind up to the stop, enabled pairs the number of pairs asked for, once each; exactly the peers given a node get the category "site", by raw key |
| `DetectionBooks.BooksAreKept` | internal/api/network_detect.go:244-338 | the same for a run that reached its last decision |
| `DetectionReapply.DistinctBatchIsIdempotent` | internal/api/network_detect.go:218-342 | one decision per peer, canonical networks, room for a group before the call: the batch goes through and applying it twice gives the very database of applying it once |
| `DetectionReapply.ReapplyIsIdentity` | internal/api/network_detect.go:218-342 | the same for every batch without late naming; neither run stops or refuses a pair and the second creates nothing |
| `DetectionReapply.RoomIsEnough` | internal/api/network_detect.go:305-338 | a group, or a free name for one, before the call is enough: no batch of canonical networks stops and no pair is refused |
| `DetectionReapply.ApplyDoesItAll` | internal/api/network_detect.go:225-342 | afterwards everything asked for is there: owners, networks, group, links |
| `DetectionExactly.ReapplyExactly` | internal/api/network_detect.go:218-342 | for every state and every batch without late naming: the second run leaves all tables and dismissals exactly if the provider does not, with no name free, adopt a group after a sibling was refused one, as told from tables and batch before the first run |
| `DetectionExactly.WithoutAdoption` | internal/api/network_detect.go:305-310 | no group to adopt: re-applying changes nothing, whether the batch was stopped or not |
| `DetectionExactly.RefusedPairBreaksReapply` | internal/api/network_groups.go:49-68 | one decision with two siblings, the second grouped, no name free: the first run goes through and the second changes the tables |
| `DetectionExactly.SpentNamesBreakReapply` | internal/store/network_groups.go:91-108 | a database in which that happens: twenty groups that hold the next twenty names |
| `DetectionExactly.QuietFlat` | internal/api/network_detect.go:225-342 | a batch is quiet exactly if its acting decisions have owner, group and networks and each pair taken is linked |
| `DetectionExactly.OwnersForeseen` | internal/api/network_detect.go:268-303 | after a run exactly the peers owned before and the named ones are owned |
| `DetectionSpent.LinkageHolds` | internal/api/network_groups.go:40-70 | no name free: after any sequence of pairs, exactly who is on and who is grouped, by whether the pair came before or after the adoption |
| `DetectionSpent.OpenRun` | internal/api/network_detect.go:326-338 | decisions without networks do to settings and groups what their pairs alone do, and own exactly the named peers |
| `DetectionLateNaming.ApplyExactly` | internal/api/network_detect.go:225-342 | with room: exactly which peers are owned, networks catalogued, providers grouped and switched on after a batch |
| `DetectionLateNaming.LateNamingExactly` | internal/api/network_detect.go:272-278 | with room, late naming included: re-applying changes nothing exactly if all that a woken decision asks for was there or is asked for by an acting one |
| `DetectionWoken.ReapplyLastsExactly` | internal/api/network_detect.go:218-342 | for every state and every batch, late naming and spent group names included: re-applying leaves all tables and dismissals exactly if, told before the first run, nobody is refused a group that the provider later adopts and every woken decision finds what it asks for, or, with no group to be had, the second run has nothing to do either |
| `DetectionWoken.AdoptionLasts` | internal/api/network_groups.go:49-68 | no name free, a group adopted, nobody refused: exactly if woken decisions find all in hand |
| `DetectionWoken.RefusalBreaks` | internal/api/network_groups.go:49-68 | a group adopted after a refusal: the second run changes the tables, late naming or not |
| `DetectionWoken.SpentLasts` | internal/api/network_detect.go:305-338 | no group to be had: exactly if the decisions that act in the second run find their siblings without a group and everyone on, and no dismissal is taken back |
| `DetectionWoken.FirstRunSpends` | internal/api/network_detect.go:305-338 | what the first run leaves then: who is owned, dismissed, grouped and on |
| `DetectionRace.SecondNodeExactly` | internal/api/network_detect.go:268-292 | any number of applies, calls interleaved and failing at will: a peer gets as many new nodes as applies read it as unowned, with a name, before every owner write and had their insert accepted; a second one exactly if there are two such |
| `DetectionRace.RunKeepsInv` | internal/api/network_detect.go:218-342 | in every interleaving no network is stored twice, no node or subnet is lost, each apply makes at most one node per peer, and the owner is the node written last |
| `DetectionRace.StepKeepsInv` | internal/api/network_detect.go:218-342 | every call keeps that |
| `DetectionRace.RacingTabsMakeTwoNodes` | internal/api/network_detect.go:222-224 | for every unowned peer and naming decision, an interleaving of two applies that makes two nodes, one left without a peer |
| `DetectionRace.RetryMakesTwoNodes` | internal/api/network_detect.go:283-292 | the same without a race: one apply stopped between node and owner, then another |
| `DetectionAlone.AloneIsApply` | internal/api/network_detect.go:225-342 | an apply that takes its turns alone can do, call by call, exactly what the sequential interpreter does, stops included |
| `Cidr.MaskedValue` | internal/vpn/overlap.go:10-12 | masking bytes subtracts the remainder modulo the block size |
| `Cidr.ContainsIsInterval` | internal/vpn/overlap.go:10-12 | a network contains an address exactly if its value lies in the block's interval |
| `Cidr.BlockFits` | internal/vpn/ipam.go:51-94 | the interval does not leave the address family |
| `Ipam.IncIP` | internal/vpn/ipam.go:115-122 | the in-place carry loop is `Inc` |
| `Ipam.IncIsSuccessor` | internal/vpn/ipam.go:115-122 | `Inc` is plus one modulo 256^n |
| `Ipam.BytesAfter` | internal/vpn/ipam.go:99-107 | true exactly if the first address is numerically greater, in 16-byte form |
| `Ipam.NextFreeIPInRange` | internal/vpn/ipam.go:51-94 | each error on its condition; otherwise the least address in network and range that is neither the network address nor used, and an error exactly if there is none |
| `Ipam.NextFreeIP` | internal/vpn/ipam.go:23-42 | the same with the whole network for a range |
| `Ipam.LeastFreeExactly` | internal/vpn/ipam.go:51-94 | told from the bounds as configured: the answer lies in the network and within the bounds set, is neither the network address nor used, and no such address is smaller or left over |
| `Ipam.LeastFreeIsUnique` | internal/vpn/ipam.go:23-94 | that answer is unique, so the two searches agree when no bound is set |
| `Ipam.Scan` | internal/vpn/ipam.go:82-92 | the loop: least free address from a start to an end |
| `Ipam.PastEnd` | internal/vpn/ipam.go:83-85 | the end test is numeric |
| `Ipam.ScanStep` | internal/vpn/ipam.go:82-92 | one increment is the next address of the network, leaves it at the top, or wraps for 0.0.0.0/0 only |
| `Ipam.OrderOf16` | internal/vpn/ipam.go:99-107 | the 16-byte order agrees with the order of normal forms |
| `Ipam.EndlessNeverStops` | internal/vpn/ipam.go:82-92 | where the search is excluded, its loop condition holds after any number of steps |
| `Overlap.OverlapExactly` | internal/vpn/overlap.go:10-12 | the two containment tests hold exactly if some address lies in both networks |
| `Overlap.CheckNoOverlap` | internal/vpn/overlap.go:18-33 | free exactly if no entry shares an address, else the first entry that does; unreadable entries are passed over |
| `Overlap.StepKeepsDisjoint` | internal/api/api_subnets.go:109-135 | a guarded creation or a deletion keeps the catalogue disjoint |
| `Overlap.RunKeepsDisjoint` | internal/api/api_subnets.go:109-135 | over every run |
| `Overlap.CreateExactly` | internal/api/api_subnets.go:109-135 | after every run a creation adds its network exactly if it has no host bits and no address of it lies in a tunnel or a catalogued network |
| `Overlap.AtMostOneRoute` | internal/api/mesh.go:199-209 | every destination matches at most one entry of a reachable catalogue |
| `Overlap.MeshAddressSpace` | internal/api/mesh.go:199-209 | tunnels and catalogued subnets, nothing else |
| `Overlap.Catalogue.Add` | internal/api/api_subnets.go:109-135 | the guarded creation, in place; accepted exactly if no address is shared |
| `Overlap.Catalogue.Remove` | internal/api/api_subnets.go:292-311 | the deletion, in place |
| `Classify.ClassifyPeerRoutes` | internal/vpn/classify.go:62-110 | own address, sites, full tunnel and anomalies are right for the entries; without a tunnel every non-blank entry is an anomaly |
| `Classify.ClassifyEntry` | internal/vpn/classify.go:78-108 | one more entry keeps that |
| `Classify.PlaceIsRight` | internal/vpn/classify.go:78-108 | placing an entry by its kind keeps that |
| `Classify.EveryEntryOnce` | internal/vpn/classify.go:62-110 | every non-blank entry is accounted for exactly once |
| `Classify.AnomaliesName` | internal/vpn/classify.go:87-104 | the anomalies name exactly the unparsable entries, the wide ones and the candidates after the first, in order |
| `Classify.ContainedExactly` | internal/vpn/classify.go:92-94 | the containment test is inclusion of the entry's whole block in the tunnel |
| `Classify.SitesAreOutside` | internal/vpn/classify.go:92-107 | no site is a subset of the tunnel; own and wide entries are |
| `Classify.KindExactly` | internal/vpn/classify.go:78-107 | everything exactly if written "0.0.0.0/0" or "::/0"; else site, own or wide exactly if some address is outside the tunnel, or all are inside and there is one, or several |
| `Classify.ClassExactly` | internal/vpn/classify.go:62-110 | the full-tunnel flag, the sites and the own address, told from the entries |
| `Classify.NoTunnelExactly` | internal/vpn/classify.go:66-76 | without a tunnel exactly the entries that are not blank are reported, once each |
| `Classify.OrderHardlyMatters` | internal/vpn/classify.go:62-110 | reordering changes only which candidate is the own address and the order of sites and anomalies: the same entries are reported as unparsable and as wide, and the candidates are the same |
| `Classify.SameAddressesSameNet` | internal/api/mesh.go:248-281 | normal forms are equal exactly if they denote the same addresses |
| `Routes.ComputeRoutes` | internal/api/mesh.go:248-281 | the loops compute `Keep` of the wanted blocks |
| `Routes.AddAll` | internal/api/mesh.go:258-276 | one pass over a list |
| `Routes.RoutesExactly` | internal/api/mesh.go:248-281 | a network is returned exactly if it is a tunnel, a subnet or, with egress, 0.0.0.0/0, and is not among the peer's AllowedIPs |
| `Routes.RoutesInOrder` | internal/api/mesh.go:266-280 | tunnels before subnets before the default route |
| `Routes.KeepIsFirstOccurrences` | internal/api/mesh.go:248-281 | exactly the first occurrences, in order, of readable blocks the peer does not own |
| `Routes.NoAddressSetTwice` | internal/api/mesh.go:248-281 | no two routes denote the same addresses |
| `Routes.NoRepeats` | internal/api/mesh.go:248-281 | no route twice, none owned, each wanted |
| `Routes.RerunIsIdentity` | internal/api/mesh.go:248-281 | the routes of the routes are the routes |
| `AutoProvision.Instance.AutoProvision` | internal/api/api_access_requests.go:465-521 | success exactly if no call fails and the range has an address left, and then the new peer gets the least free one; each failure exactly on its condition; a failure leaves the peers alone unless removal fails too or the provider gave no identifier, in which case the peer stays |
| `AutoProvision.GrantExactly` | internal/api/api_access_requests.go:478-501 | a granted address is in no peer's AllowedIPs, manual peers included, and every smaller one of the range is in someone's |
| `AutoProvision.Instance.UsedAddresses` | internal/api/api_access_requests.go:478-488 | the server's address and every readable peer address |
| `AutoProvision.Instance.RemovePeer` | internal/api/api_access_requests.go:506-514 | removal, in place |
| `AutoProvision.StepKeepsGood` | internal/api/api_access_requests.go:478-501 | provisioning, manual creation elsewhere and removal keep granted addresses distinct, inside the range, off the server and the network address |
| `AutoProvision.RunKeepsGood` | internal/api/api_access_requests.go:478-501 | in every state of every sequential run |
| `GuardTrace.UserCountExactly` | internal/store/login_security.go:132-143 | the count for a user name is the number of positions in the log with that name, a failure, after the given time, from any address |
| `GuardTrace.AddressCountExactly` | internal/store/login_security.go:132-143 | the same for an address, of any user |
| `GuardTrace.UserNameIsBanned` | internal/auth/bruteforce.go:163-201 | over every run: as many failures of a user name as the threshold inside the window, from any addresses, leave it blocked for at least the base time, through any later attempts but a success under that name or an unban |
| `GuardTrace.AddressIsBanned` | internal/auth/bruteforce.go:163-201 | the same for an address, of any users |
| `GuardTrace.UserBanExactly` | internal/auth/bruteforce.go:168-201 | a failure writes the row of its user name exactly if the failures of that name in the window, counted from the events, reach the threshold, and otherwise leaves it |
| `GuardTrace.AddressBanExactly` | internal/auth/bruteforce.go:163-201 | the same for its address |
| `GuardTrace.DurationExactly` | internal/auth/bruteforce.go:196-199 | the first ban lasts the base time, each next one the factor times the last, none longer than the maximum |
| `GuardTrace.SuccessFrees` | internal/auth/bruteforce.go:153-161 | a success frees its user name and address, an unban its key, until a later failure |
| `GuardTrace.SuccessRows` | internal/auth/bruteforce.go:153-161 | a success leaves its user name and its address a ban at level zero that ended one second before |
| `GuardTrace.RunTracks` | internal/auth/bruteforce.go:141-174 | over every run only what the settings track has a row, and the empty user name none |
| `BruteForce.Guard.RecordResult` | internal/auth/bruteforce.go:141-174 | the attempt is logged; a success resets, a failure may escalate, per tracked key: the event of which the theorems over runs speak, in place |
| `BruteForce.Guard.MaybeEscalate` | internal/auth/bruteforce.go:178-201 | count, level and length of a ban, in place |
| `BruteForce.Guard.CheckLogin` | internal/auth/bruteforce.go:52-87 | allowed exactly if disabled, or allowed by rule, or under no rule and unblocked on every tracked key; a refusal names its reason, and a ban the time left |
| `BruteForce.Guard.CheckBan` | internal/auth/bruteforce.go:89-102 | blocked exactly before the ban's end, with the time left |
| `BruteForce.Guard.LogRejected` | internal/auth/bruteforce.go:133-135 | the rejected attempt is logged, bans untouched |
| `BruteForce.Guard.ClearBan` | internal/store/login_security.go:185-191 | an unban ends the ban and forgets its level |
| `BruteForce.LevelRisesExactly` | internal/auth/bruteforce.go:141-201 | over every run without a success or unban of the key: from one hit to the next the level rises by one exactly when the next comes before the end of the ban or within the reset time after it, and otherwise falls to zero; the ban lasts min(base times factor^level, max) |
| `BruteForce.BansAfterReset` | internal/auth/bruteforce.go:153-161 | after a success or an unban inside a run, hits count from level 1 if the first comes within the reset time, else from 0 |
| `BruteForce.BansInARow` | internal/auth/bruteforce.go:141-201 | the n-th hit in a row in such a run, rejected attempts and other keys between, leaves a ban of min(base times factor^n, max) |
| `BruteForce.RunLevels` | internal/auth/bruteforce.go:141-201 | the key's row after such a run is what its hits leave, in order, and nothing else |
| `BruteForce.LateHitStartsOver` | internal/auth/bruteforce.go:188-194 | a late hit starts over: the hits after it count from zero |
| `BruteForce.DurationGrows` | internal/auth/bruteforce.go:196-199 | with accepted settings lengths grow with the level, from one minute up to the maximum |
| `BruteForce.RunKeepsInv` | internal/auth/bruteforce.go:141-201 | in every reachable state every ban ends within the maximum from now |
| `BruteForce.ApplyNeverShortens` | internal/auth/bruteforce.go:141-201 | no event but a success or an unban of the key moves a ban's end earlier |
| `BruteForce.RunNeverShortens` | internal/auth/bruteforce.go:141-201 | nor does any run of them |
| `BruteForce.RemainingBanIsBounded` | internal/auth/bruteforce.go:196-201 | the remaining ban is at most the maximum |
| `BruteForce.RejectionsKeepBan` | internal/auth/bruteforce.go:131-135 | rejected attempts leave a ban as it is |
| `BruteForce.RejectionsNeverProlong` | internal/auth/bruteforce.go:131-135 | a key hit only by rejected attempts is free after the maximum |
| `BruteForce.RejectionsAreCounted` | internal/store/login_security.go:132-143 | anywhere in a run each rejected attempt of the key inside the window adds one to the count |
| `BruteForce.RejectionsFeedTheCounter` | internal/auth/bruteforce.go:46-51 | for either key, after any run: a failure bans with the rejected attempts in the log and would not without them exactly if real failures < threshold <= real failures + rejected attempts in the window |
| `BruteForce.RejectionBansAgain` | internal/auth/bruteforce.go:46-51 | a run the guard itself produces in which a rejected attempt makes the next failure ban the address again |
| `BruteForce.UnbanLeavesLevelOne` | internal/store/login_security.go:185-191 | a run of the guard in which the failure after an unban bans at level 1 |
| `BruteForce.MatchIPRules` | internal/auth/bruteforce.go:107-129 | deny if some deny rule matches, else allow if some allow rule does, else none |
| `BruteForce.MatchesExactly` | internal/auth/bruteforce.go:111-127 | a rule covers an address exactly if it is written the same or the address lies between the first and the last of the rule's network |
| `BruteForce.VerdictIgnoresOrder` | internal/auth/bruteforce.go:107-129 | whatever the order of the rules |
| `ConsoleHub.EveryRunIsSafe` | internal/console/hub.go:84-165 | in every interleaving: total is the sum over users is the number of open sessions, no cap is exceeded, every ticket is redeemed at most once, not after its end, as minted |
| `ConsoleHub.StepKeepsInv` | internal/console/hub.go:84-165 | every step keeps it |
| `ConsoleHub.RunKeepsInv` | internal/console/hub.go:84-165 | every run keeps it |
| `ConsoleHub.AcquireKeeps` | internal/console/hub.go:144-152 | acquiring keeps counts and caps |
| `ConsoleHub.ReleaseKeeps` | internal/console/hub.go:153-163 | releasing keeps them |
| `ConsoleHub.ReleaseIsIdempotent` | internal/console/hub.go:152-163 | releasing again changes nothing |
| `ConsoleHub.TicketsKeep` | internal/console/hub.go:84-127 | single use of tickets |
| `ConsoleTrace.RedemptionsWereAsked` | internal/console/hub.go:84-118 | from the steps alone: every redemption presents a token minted earlier, for the user and the target of that mint, not later than the ticket time after it |
| `ConsoleTrace.RedeemableExactly` | internal/console/hub.go:84-127 | from the steps alone: after every run on a clock that does not go back, a token can be redeemed exactly if it was minted, has not been presented since and the ticket time has not passed; it then stands for the user and the target of the mint |
| `ConsoleTrace.PresentingExactly` | internal/console/hub.go:107-118 | presenting a token lets in, as that user and to that target, exactly then |
| `ConsoleTrace.AcquireExactly` | internal/console/hub.go:129-152 | a session of the user is opened exactly if fewer than the caps are open, of the user and in all |
| `ConsoleTrace.SessionsExactly` | internal/console/hub.go:139-165 | every session was opened by an Acquire that found room, is that user's, and is open exactly if its release was not called |
| `ConsoleHub.StepKeepsTickets` | internal/console/hub.go:84-127 | no step loses a ticket that is neither redeemed nor past its end |
| `ConsoleHub.RunKeepsTickets` | internal/console/hub.go:84-127 | nor does any run |
| `ConsoleHub.HubObject.MintFirst` | internal/console/hub.go:84-91 | the first critical section: capacity, then the sweep |
| `ConsoleHub.HubObject.MintSecond` | internal/console/hub.go:99-102 | the second: the ticket is stored |
| `ConsoleHub.HubObject.Redeem` | internal/console/hub.go:107-118 | a ticket is returned exactly if present and unexpired, and is gone |
| `ConsoleHub.HubObject.Sweep` | internal/console/hub.go:120-127 | exactly the expired tickets go |
| `ConsoleHub.HubObject.CheckCapacity` | internal/console/hub.go:129-137 | both caps, a cap of zero meaning none |
| `ConsoleHub.HubObject.Open` | internal/console/hub.go:144-152 | a session exactly if there is capacity |
| `ConsoleHub.HubObject.Close` | internal/console/hub.go:152-163 | the release closure |
| `PeerId.RoundTripExactly` | internal/api/peerid.go:34-63 | decoding an encoded key gives the key exactly if it is clean |
| `PeerId.OrdinaryKeysAreClean` | internal/api/peerid.go:34-39 | every string without '=', CR or LF and every canonical padded base64 string is clean |
| `PeerId.EncodingIsInjective` | internal/api/peerid.go:34-39 | clean keys have different ids |
| `PeerId.SpareBitsAreLost` | internal/api/peerid.go:34-39 | two other keys share one |
| `PeerId.LegacyIds` | internal/api/peerid.go:41-63 | an untagged id decodes as the same id tagged "b." |
| `PeerId.IdsAreUrlSafe` | internal/api/peerid.go:34-39 | an id is "b." for a base64 key and "s." for any other, then letters, digits, '-' and '_' only |
| `PeerId.TestVectors` | internal/api/peerid.go:34-63 | test vectors of section 10 of RFC 4648 |
| `PeerId.StdReencode` | internal/api/peerid.go:34-39 | re-encoding a decodable key gives it back exactly if it is clean |
| `PeerId.RawRoundTrip` | internal/api/peerid.go:34-63 | unpadded base64 round trip |
| `PeerId.PaddedDigitsOfStdEncode` | internal/api/peerid.go:34-39 | padded base64 is read back to its digits |
| `PeerId.OctetsOfSextets` | internal/api/peerid.go:34-63 | bytes to digits to bytes |
| `PeerId.SextetsOfOctets` | internal/api/peerid.go:34-63 | digits to bytes to digits, exactly if the spare bits are zero |
| `Firewall.FileDecides` | internal/firewall/render.go:48-109 | the file, read back and evaluated first match first, accepts loopback, established and protected traffic, then follows the first matching rule, then the policy, for all fields that can be loaded |
| `Firewall.BaselineWords` | internal/firewall/render.go:73-76 | the line of a protected port, word by word |
| `Firewall.RuleInWords` | internal/firewall/render.go:86-109 | the line of a rule, word by word |
| `Firewall.OpeningWords` | internal/firewall/render.go:61-62 | the lines for loopback and established traffic |
| `Firewall.WholeTable` | internal/firewall/render.go:57-83 | the table's name, the three policies, of which FORWARD and OUTPUT always accept, and COMMIT at the end |
| `Firewall.EscapeExactly` | internal/firewall/render.go:113-115 | double quotes are dropped from a comment and nothing else |
| `Firewall.RangePort` | internal/firewall/render.go:33 | "lo:hi" is every port from lo to hi |
| `Firewall.ListPort` | internal/firewall/render.go:33 | a list matches if one of its parts does |
| `Firewall.ReadOptsOf` | internal/firewall/render.go:73-109 | the options of a line are read back as written |
| `Firewall.BaselineMeans` | internal/firewall/render.go:73-76 | a baseline line accepts exactly its protocol and port |
| `Firewall.RuleMeans` | internal/firewall/render.go:86-109 | a rule line matches exactly what the rule says, with its action |
| `Firewall.RulesFirst` | internal/firewall/render.go:78-80 | rules act in the order given |
| `Firewall.FileSplits` | internal/firewall/render.go:54-83 | the text splits into the lines written |
| `Firewall.UnescapeFails` | internal/firewall/render.go:113-115 | a quoted text cannot be read to its end exactly if it ends in an odd number of backslashes |
| `FirewallLoads.LoadsExactly` | internal/firewall/render.go:48-115 | iptables-restore, as modelled here, takes the file exactly if no comment ends in an odd number of backslashes and no rule names a port without a protocol |
| `FirewallLoads.LoadedDecides` | internal/firewall/render.go:48-109 | every file that is taken decides every packet as promised |
| `FirewallLoads.RuleLoads` | internal/firewall/render.go:86-109 | the same condition for one rule line |
| `FirewallLoads.BaselineLoads` | internal/firewall/render.go:73-76 | and for one baseline line |
| `FirewallPlan.Render` | internal/firewall/render.go:48-84 | the text is the file of some sorted arrangement of the baseline |
| `FirewallPlan.WriteBaseline` | internal/firewall/render.go:73-76 | the baseline loop |
| `FirewallPlan.WriteRules` | internal/firewall/render.go:78-80 | the rule loop |
| `FirewallPlan.SortArranges` | internal/firewall/render.go:66-72 | sorting gives a sorted permutation |
| `FirewallPlan.SortedExactly` | internal/firewall/render.go:66-72 | sorted is by protocol, then by port, upwards |
| `FirewallPlan.ArrangementIsUnique` | internal/firewall/render.go:64-72 | the only one, if protocol and port name an entry |
| `FirewallPlan.OrderIsImmaterialExactly` | internal/firewall/render.go:64-72 | the arrangement is independent of the caller's order exactly then |
| `FirewallPlan.RenderedDecides` | internal/firewall/render.go:48-109 | what a file that is taken decides does not depend on the baseline's order at all |
| `FirewallPlan.ComputeBaseline` | internal/firewall/baseline.go:17-34 | exactly SSH, listening instances and, on the panel host, panel ports, one entry each; SSH first, all others with a positive port |
| `FirewallPlan.NeverLockedOut` | internal/firewall/baseline.go:13-34 | under every policy and all rules, once the file is taken, traffic to those ports is accepted |
| `FirewallPlan.Diff` | internal/firewall/render.go:123-137 | added and removed are the lines only one text has, in order, with repeats |
| `FirewallPlan.DiffIsTheChange` | internal/firewall/render.go:117-137 | current lines minus removed plus added are the proposed lines; nothing is in both; empty exactly if the line sets agree |
| `FirewallPlan.LineSet` | internal/firewall/render.go:139-145 | exactly the non-blank lines |
| `FirewallPlan.SplitNonEmpty` | internal/firewall/render.go:147-155 | the non-blank lines in order |
| `Watcher.Watch.RunTicks` | internal/api/notify.go:92-193 | over every run of ticks, skipped ones and failed listings included, replaying a provider's events from its first snapshot gives its current online set, both as the reports of the ticks say |
| `Watcher.HistoryExactly` | internal/api/notify.go:92-193 | from the reports alone: a provider's history leads from the peers its first answer shows online to those its last answer shows online; shown means interface up, listing read, marked online |
| `Watcher.ReplayExactly` | internal/api/notify.go:154-189 | a peer is online at the end of a history exactly if its last event is a connect, or it has none and was online at the start |
| `Watcher.Watch.Tick` | internal/api/notify.go:111-193 | one tick keeps that; a failed settings read changes nothing |
| `Watcher.Watch.Observe` | internal/api/notify.go:117-191 | one provider: the snapshot moves on, as many events as peers changed, other providers' events untouched |
| `Watcher.LogChanges` | internal/api/notify.go:154-189 | the events logged turn the old set into the new |
| `Watcher.LogAll` | internal/api/notify.go:158-189 | one event per peer, in any order |
| `Watcher.EventsAlternate` | internal/api/notify.go:154-189 | consecutive events of one peer alternate |
| `Watcher.FirstEventStarts` | internal/api/notify.go:137-191 | the first event of a peer fits the first snapshot |
| `ShellQuote.QuoteIsOneWord` | internal/sshexec/client.go:332-338 | a quoted string is read as one word equal to it, and all of it is consumed |
| `ShellQuote.NestedQuotes` | internal/sshexec/client.go:332-338 | also through two levels |
| `ShellQuote.QuoteIsInjective` | internal/sshexec/client.go:332-338 | different strings quote differently |
| `ShellQuote.WriteFile` | internal/sshexec/client.go:307-317 | refuses exactly on a line equal to the delimiter (trailing CRs set aside); otherwise the shell reads the path, the content plus one newline, and nothing more |
| `ShellQuote.RefusedExactly` | internal/sshexec/client.go:307-312 | a line is refused exactly if it is the delimiter followed by carriage returns only |
| `ShellQuote.CommandIsRead` | internal/sshexec/client.go:307-317 | the command's meaning, from the text alone |
| `ShellQuote.HeredocExactly` | internal/sshexec/client.go:299-317 | the body is the content exactly if no line is the delimiter |
| `Prelude.TrimExactly` | internal/api/network_detect.go:272-316 | trimming cuts all white space off both ends and nothing else |
| `Prelude.TextLessExactly` | internal/firewall/render.go:67-72 | the order of texts: a proper beginning, or the smaller character at the first difference |
| `TextLines.SplitOfLines` | internal/firewall/render.go:147-155 | splitting written lines gives them back |
| `TextLines.LinesOfSplit` | internal/sshexec/client.go:307-317 | writing split lines gives the text back |

## Left out

- SSH, HTTP handlers, the browser front end, notification channels and messages, LDAP and OIDC: I/O and foreign libraries.
- The on-host installer and the firewall's rollback timer: invoked over SSH, not part of this model.
- SQL text and the driver: tables are maps or sequences of rows, a transaction a copy that is committed or dropped; in key rotation the fault of each statement is an input, in racing applies any call may fail, in automatic peer creation the outcome of each call is an input, in the other engines faults are left out.
- `keyrotate.Detect` and the total of the report: would only add easy members.
- Cryptography: sealing is any pair of functions in which opening inverts sealing and a sealed blob has at least 28 bytes; tokens are fresh; bcrypt and TOTP are absent.
- Panics inside a shared fetch, and cancellation of a waiting caller, in the status cache.
- NetworkDetect.Server.EnablePair: host provisioning and IP forwarding, whose failures are only warnings, are not modelled.
- DetectionExactly.ReapplyExactly: networks are canonical, as PostgreSQL writes them; so in all theorems on re-applying.
- NetworkDetect.Server.ApplyNetworkDetection: store calls do not fail here; `DetectionRace` has failing calls, for nodes, owners and subnets, while there the calls for groups and mesh links may write anything to settings and groups.
- A bar in a provider's own name, which the patterns for server and instance names exclude: left out where `'|' !in p` is required.
- IPv4-mapped IPv6 networks: excluded where `Plain` is required.
- Ipam.NextFreeIPInRange: excludes the one family of inputs on which the code never returns (`Endless`).
- Subnets created by detection, manual peer creation and re-enabling skip the overlap and free-address checks, so disjointness is not claimed across them; checks and inserts of two concurrent requests are not interleaved.
- AutoProvision.Instance.AutoProvision: the key is one the instance does not hold yet.
- BruteForce.Guard.MaybeEscalate: minutes are real numbers; float64 rounding and the truncation to nanoseconds are not modelled, and settings are those the API accepts.
- Translations, audit entries and the reason stored with a login attempt.
- Watcher.Watch.Tick: messages, mutes and categories are left out, and event inserts succeed.
- FirewallLoads.LoadsExactly: iptables' limits of 255 characters for a comment and 15 ports in one multiport match are not modelled; fields other than comments are plain words, comments hold no line break, and names of protocols, ports and networks are taken as iptables knows them; address matching is a parameter of the packet; non-ASCII letters in an action are not raised.
- FirewallPlan.Render: sort.Slice may return any sorted arrangement; the contract admits all of them.
- ShellQuote.QuoteIsOneWord: strings are sequences of characters; a NUL, which no shell word can hold, is not treated apart.
