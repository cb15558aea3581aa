# A verified model of the Weka share driver for OpenStack Manila

The driver turns Manila shares and access rules into resources of a Weka cluster. This project
models the parts of it that change remote state step by step, and proves what those steps keep
over every input, every run and every pattern of failing calls.

* **The cluster** (`Cluster`). One organization's filesystems, security policies, attachments,
  NFS client groups and permissions; `Serve` is what the server does with one write request.
  `Session` is the client: every request goes through a channel that may answer it, lose it before
  the server acts, lose the reply after the server acted, or turn it away for good, and is retried within a budget.
  When a request ends, and how, is a function of the channel (`Ends`, `AnsweredFrom`, `FirstReplyLost`).
* **WEKAFS access** (`AccessView`, `Wekafs`, `WekafsAccess`, `WekafsPromises`, `WekafsUpdate`). `AccessView` states,
  as values, what a share's rw and ro policies mean (a map from canonical address to level) and
  proves self-stabilisation and refinement about it. The methods of `Wekafs`, `WekafsAccess` and
  `WekafsUpdate` follow the driver request by request and are proved equal to that view when nothing fails, and sound
  when anything does. `WekafsPromises` says what a call comes to without the view: which policy, by its name, lists which
  address, for rules as Manila spells them.
* **NFS access** (`NfsView`, `Nfs`, `NfsPromises`, `NfsAccess`, `NfsRemoval`, `NfsUpdate`). The same division for client
  groups, their addresses and the permissions on one filesystem.
* **Names and other shares** (`Rules`, `WekafsNamespaces`, `WekafsGroups`). Names built from 8-character
  prefixes, share deletion, shared security-policy groups.
* **Addresses** (`Net`). IPv4 networks as `ipaddress.IPv4Network` reads them with `strict=False`, in CIDR notation
  (section 3.1 of RFC 4632), with dotted masks, and bare.
* **Requests** (`ApiRequest`) and **exactly-once creation** (`Filesystems`).
* **Snapshot copies** (`SnapshotCopy`, `AsyncCopies`), the host's commands (`Hosts`), **mounts** (`Mounts`), **tenants** (`Tenancy`).
* **Texts** (`PolicyGroups`, `ProtocolPatcher`) and the **Gerrit listener** (`Listener`).

Rules are read generically in `RuleMaps` (a rule set denotes a map) and `Tables` (records seen by name);
`Text` and `Results` hold strings, options and outcomes.

Two notions recur in contracts. *Reliable from t*: no attempt from moment t on is lost. *AllAnswered(t, u)*: each of
the requests sent one after the other from t to u is answered within its budget, though replies may have been lost on
the way. A clause with neither holds whatever fails. Moments and results are stated as functions of the state and the
schedules before the call, not of what a method reports about itself.

## What the proofs found

Where the code does not do what its documentation or its name suggests, the model follows the code.

* `update_access` promises that a full sync leaves the backend matching the rules exactly. For WEKAFS
  this holds from every starting state but one family: a share with an *empty* policy and no valid IPv4 ip
  rule keeps that policy (`AccessView.FullSyncSelfStabilises` is an equivalence). Such a policy is what a lost
  deletion of an emptied policy leaves (`WekafsAccess.PolicySetIp`), and it survives (`AccessView.EmptyPolicySurvives`).
* A malformed network among the IPv4 ip rules makes a WEKAFS full sync raise after applying the
  others and before pruning anything, so revoked addresses stay (`WekafsUpdate.UpdateAccess`;
  `WekafsUpdate.MalformedRuleExists` has one).
* For NFS a full sync prunes permissions, not addresses: a rule's own group keeps any stray address it held
  (`NfsView.StrayAddressesStay`), and a group no permission of the filesystem names stays
  (`NfsView.StrayGroupsGoWithPermissions`). Both are equivalences.
* Deleting one of two WEKAFS rules with the same address withdraws it for both (`AccessView.SharedAddressDiverges`).
  In general an incremental call agrees with a full sync on the new listing exactly if the listing has no rule left
  for a deleted address and gives every applied address the level the call gives it last
  (`AccessView.CallAgreesExactly`; for deletions and for additions and updates in the rules' own terms,
  `DeletionAgreesExactly` and `ApplyingAgreesExactly`).
* NFS rw/ro exclusivity: a rule reported active has no permission of the other type beside it exactly if its group had
  none before but the one listed first (`NfsAccess.EnsurePermission`, lifted to whole calls in `NfsUpdate.UpdateNfsAccess`).
  A creation whose reply is lost and is sent again breaks that condition, and a later rw-to-ro change that reports
  success leaves an rw permission (`NfsAccess.LostReplyDefeatsExclusion`).
* Deleting an NFS rule whose id starts like the share's id removes every permission the share has
  (`NfsView.SharePrefixHitsAll`); `NfsView.DeletionHitsExactly` says exactly when a deletion hits no other rule's.
* The NFS snapshot copy leaves its client group behind exactly when the name was free and the first time the
  server acts on the creation its reply is lost: the uid is then never learned (`SnapshotCopy.CreateTempGroup`).
  It leaves a directory behind exactly when the first `mkdtemp` works and the second fails
  (`SnapshotCopy.CopySnapshotNfs`).
* A context manager over a mount point that was already mounted unmounts it on exit: `Mounts.CopyNest` says for every
  schedule of failing commands exactly when the mount table is restored.
* The tuple patcher turns a tuple without entries into one that starts with a bare comma (`ProtocolPatcher.BareCommaExactly`).
* The listener's state file is truncated before it is written. A process that dies in between forgets every recorded
  pair, and each such write can cost every pair one more run (`Listener.RunsAreBounded`, `Listener.TornWriteReruns`).
* A policy group that exists is never refreshed from a changed option (`WekafsGroups.EnsureGroupPolicies`).

## Model

| member | source | states |
|---|---|---|
| AccessView.FullSyncSelfStabilises | manila/share/drivers/weka/driver.py:783-812 | from any contents of a share's policies, a full sync leaves exactly the last level of every named address, every policy left non-empty and attached, if and only if there was no empty policy or some rule grants an IPv4 address; correct read-only flags stay correct |
| AccessView.PruneExact | manila/share/drivers/weka/driver.py:1072-1106 | pruning a view that follows the rules' address map leaves that map and nothing else |
| AccessView.EmptyPolicySurvives | manila/share/drivers/weka/driver.py:1084-1101 | an empty policy is left alone by a full sync in which no rule grants an address, so that the sync is not exact |
| AccessView.AppliedTracks | manila/share/drivers/weka/driver.py:1029-1054 | after applying rules in order, an address some rule names is at the last level naming it and at no other, in an attached policy; all other addresses are where they were |
| AccessView.StepKeepsExact | manila/share/drivers/weka/driver.py:1029-1066 | an incremental call does to exact policies what it does to the address map, whatever the rules |
| AccessView.RunExact | manila/share/drivers/weka/driver.py:798-812 | a run of legal calls keeps the policies the exact image of the current rules |
| AccessView.IncrementalRefinesFullSync | manila/share/drivers/weka/driver.py:783-812 | for rules with pairwise distinct addresses, any run of incremental calls from a synced state ends with the policies and attachments one full sync on the resulting rules, listed in any order, gives from any state without empty policies; with the very same view, flags included, if both started with correct flags |
| AccessView.CallAgreesExactly | manila/share/drivers/weka/driver.py:783-812 | for any rules, addresses shared or not: a call that turns one listing into another agrees with a full sync on the new one if and only if that has no rule for a deleted address and gives each applied address the level the call gives it last |
| AccessView.DeletionAgreesExactly | manila/share/drivers/weka/driver.py:1122-1131 | deleting rules agrees with a full sync on the others if and only if none of the others grants an address a deleted one grants |
| AccessView.ApplyingAgreesExactly | manila/share/drivers/weka/driver.py:1108-1120 | adding rules between others, or updating them in place, agrees with a full sync on the new listing if and only if the rules listed after them leave each shared address at the level the call gives it |
| AccessView.SharedAddressDiverges | manila/share/drivers/weka/driver.py:1122-1131 | so with two rules for one address, deleting one of them ends differently from a full sync on the other |
| Wekafs.GetPolicyByName | manila/share/drivers/weka/client.py:583-588 | finds the policy of a name, and None only if there is none |
| Wekafs.GetFilesystemByName | manila/share/drivers/weka/client.py:408-413 | finds the filesystem of a name, and None only if there is none |
| Wekafs.PolicyPutIp | manila/share/drivers/weka/driver.py:1133-1168 | adds the address, creating and attaching the policy; whatever fails, other addresses, an attachment with addresses left, and everything outside this policy stay |
| Wekafs.PolicyDropIp | manila/share/drivers/weka/driver.py:1170-1188 | removes the address and, with the last one, the policy; never adds an address; same frame; if the deletion of the emptied policy never reaches the server, the policy stays, empty and detached |
| Wekafs.DropPolicy | manila/share/drivers/weka/driver.py:1178-1188 | on return the emptied policy is gone, tolerating a failing detach and a policy already deleted |
| WekafsAccess.PolicySetIp | manila/share/drivers/weka/driver.py:1133-1188 | what one call does to its level's policy, that the other level's is untouched, and when an emptied policy stays |
| WekafsAccess.ApplyRule | manila/share/drivers/weka/driver.py:1108-1120 | a successful call leaves the address granted at its level and absent from the other, in an attached policy, even when requests were lost; a malformed network raises before any request |
| WekafsAccess.RemoveRule | manila/share/drivers/weka/driver.py:1122-1131 | takes the address out of both policies; ignores other types, IPv6 and malformed networks |
| WekafsAccess.ExpectedIps | manila/share/drivers/weka/driver.py:1074-1081 | the addresses the rules back at a level, or the ValueError exactly when some IPv4 ip rule is malformed |
| WekafsAccess.PruneLevel | manila/share/drivers/weka/driver.py:1084-1101 | drops the listed addresses no rule backs and deletes an emptied policy; a grant that is kept is never lost, whatever fails |
| WekafsUpdate.ApplyRules | manila/share/drivers/weka/driver.py:1029-1057 | the states reported and the policies after applying rules; every active rule nothing later contradicts is in force |
| WekafsUpdate.RemoveRules | manila/share/drivers/weka/driver.py:1059-1066 | grants no delete rule names survive every failure |
| WekafsUpdate.Prune | manila/share/drivers/weka/driver.py:1072-1106 | raises with nothing changed exactly when a rule is malformed, else prunes both levels |
| WekafsUpdate.RunRules | manila/share/drivers/weka/driver.py:1029-1070 | apply, remove and prune as one: soundness of every active rule whatever fails, the exact view and states when nothing does |
| WekafsUpdate.UpdateWekafsAccess | manila/share/drivers/weka/driver.py:977-1070 | whatever fails: only the share's own policies and the users change, and each rule returned active that no later rule or deletion names is in its level's attached policy and not in the other; when nothing fails: the exact view and states |
| WekafsUpdate.UpdateAccess | manila/share/drivers/weka/driver.py:783-812 | both contract modes end to end: full sync exact, or raised with nothing pruned; incremental equal to the step of the view. In the cluster's terms: whatever fails only the share's policies `manila-<prefix>-rw` and `-ro` and the users change, a policy that is new is read-only exactly if it is the `-ro` one, and every rule returned active that nothing later in the call contradicts has its address in the attached policy of its level and not in the other; when nothing fails every well-formed rule has, deleted addresses are in neither, a full sync leaves nothing else, the states are exact, and only a malformed network raises |
| WekafsPromises.CallHonours | manila/share/drivers/weka/driver.py:1108-1131 | after a fault-free call each well-formed rule whose address no later rule or deletion gives has it in the attached `-rw` policy and not in `-ro` if its level is rw, and the other way round otherwise; no deleted address is left |
| WekafsPromises.SyncHonours | manila/share/drivers/weka/driver.py:1072-1106 | so it is after pruning |
| WekafsPromises.ExactIsNothingElse | manila/share/drivers/weka/driver.py:1072-1106 | in an exact view every listed address is that of a rule of the level, the last to give it, and every policy of the share is non-empty and attached |
| WekafsPromises.LastForDecides | manila/share/drivers/weka/driver.py:1501-1504 | the last rule to give an address decides its level: rw for the level `rw`, ro for any other |
| WekafsUpdate.InForceHonoured | manila/share/drivers/weka/driver.py:1029-1066 | a rule returned active has that too, whatever fails |
| WekafsUpdate.StatesOfInFull | manila/share/drivers/weka/driver.py:1029-1057 | a state for every rule not skipped as IPv6, an error exactly if the last rule of the id is a malformed network |
| WekafsUpdate.OthersAreElsewhere | manila/share/drivers/weka/driver.py:1481-1484 | updates and deletions of shares with other prefixes change nothing this share can see |
| WekafsUpdate.HistoryIsRun | manila/share/drivers/weka/driver.py:783-812 | in a history of the cluster, with calls for the share and whatever others do in between, the share's view is the run of its calls |
| WekafsUpdate.HistoryRefinesFullSync | manila/share/drivers/weka/driver.py:783-812 | over cluster states: such a history after a full sync leaves the share as a full sync on the resulting rules leaves it on any other cluster |
| WekafsUpdate.MalformedRuleExists | manila/share/drivers/weka/driver.py:73-77 | a rule that makes a full sync raise |
| WekafsNamespaces.ConfinedSparesBystanders | manila/share/drivers/weka/driver.py:1481-1484 | an access update changes no policy of another name and none of its attachments |
| WekafsNamespaces.CleanupLevel | manila/share/drivers/weka/driver.py:1600-1627 | the share's policy of the level is gone when nothing fails, and no other is touched whatever fails |
| WekafsNamespaces.DeleteShare | manila/share/drivers/weka/driver.py:625-680 | policies of other names keep contents and attachments to other filesystems; success means the filesystem is gone; when nothing fails neither of the share's two policies is left, and a stuck mount fails the call after that |
| WekafsNamespaces.RunKeepsName | manila/share/drivers/weka/driver.py:1600-1606 | a run of updates and deletions leaves a policy no acting share owns as it was |
| WekafsNamespaces.NamespacesNeverInterfere | manila/share/drivers/weka/driver.py:1481-1518 | whatever shares with other dash-free prefixes do, a share's own policies and every group policy keep contents and attachments |
| WekafsGroups.EnsureLevel | manila/share/drivers/weka/driver.py:1580-1595 | a missing group policy is created with the option's addresses, an existing one only attached, and a failure leaves at most one not yet attached |
| WekafsGroups.EnsureGroupPolicies | manila/share/drivers/weka/driver.py:1566-1598 | both levels likewise, nothing for no group or an unknown one, and no share's own policies move whatever fails; on return each level the option gives addresses for has its policy `manila-grp-<group>-rw` or `-ro` attached, as it was, or new with those addresses and read-only exactly if it is the `-ro` one |
| Rules.PolicyNameInjective | manila/share/drivers/weka/driver.py:1481-1484 | per-share policy names agree exactly when prefix and level do |
| Rules.PolicyNameNotGroup | manila/share/drivers/weka/driver.py:1515-1518 | a per-share name with a dash-free prefix is never a group policy's name |
| Rules.GroupNameInjective | manila/share/drivers/weka/driver.py:1486-1490 | client group names of a share agree exactly when the rule prefixes do |
| Rules.SubstringOfGroupName | manila/share/drivers/weka/driver.py:1190-1199 | an id prefix is part of a group name exactly when it is that rule's or the share's |
| NfsView.FullSyncExact | manila/share/drivers/weka/driver.py:814-896 | a full sync gives every named export its permission type and address, leaves no permission of the share's prefix outside the given rules' names, and leaves every other name as it was |
| NfsView.DistinctPrefixesGetTheirOwn | manila/share/drivers/weka/driver.py:1486-1490 | with distinct id prefixes each rule gets its own type and address, not another rule's |
| NfsView.StrayAddressesStay | manila/share/drivers/weka/driver.py:914-940 | a full sync leaves a rule's group with the rule's address alone if and only if the group held no other |
| NfsView.StrayGroupsGoWithPermissions | manila/share/drivers/weka/driver.py:858-896 | a group of the share that no rule names is pruned if and only if the filesystem has a permission for it |
| NfsView.RemoveOneImage | manila/share/drivers/weka/driver.py:1190-1203 | removal by substring takes exactly the rule's own permission and group |
| NfsView.StepKeepsImage | manila/share/drivers/weka/driver.py:814-856 | one incremental call keeps permissions and groups the image of the rules beside foreign ones |
| NfsView.RunKeepsImage | manila/share/drivers/weka/driver.py:898-951 | so does every run: none leaked, none missing, foreign ones untouched |
| NfsView.RunRefinesFullSync | manila/share/drivers/weka/driver.py:783-812 | any run of incremental calls on a new share ends as one full sync on the resulting rules, listed in any order |
| NfsView.DeletionHitsExactly | manila/share/drivers/weka/driver.py:1190-1203 | what a deletion hits on a share whose permissions are its own, and that it hits no other rule's if and only if the prefixes differ or there is no other |
| NfsView.SharePrefixHitsAll | manila/share/drivers/weka/driver.py:1196-1199 | a deleted rule with the share's own prefix takes every permission of the share |
| NfsView.AddressOfValid | manila/share/drivers/weka/driver.py:919-927 | the address a rule leaves in its group is, for every valid network or address, that network's normal form |
| NfsAccess.FindGroup | manila/share/drivers/weka/driver.py:953-958 | finds the group of a name, and None only if there is none |
| NfsAccess.FindPermission | manila/share/drivers/weka/driver.py:960-965 | finds a permission of the filesystem and group, and None only if there is none |
| NfsAccess.EnsureAddress | manila/share/drivers/weka/driver.py:914-940 | on return the group of the name holds the address, comparing normalised forms against what the cluster echoes; permissions and other groups stay |
| NfsAccess.EnsurePermission | manila/share/drivers/weka/driver.py:942-951 | on return the group has a permission of the type, and whatever was lost none of the other type if and only if it had none but the one listed first; at most one per group is kept so |
| NfsAccess.LostReplyDefeatsExclusion | manila/share/drivers/weka/driver.py:942-951 | a creation carried out twice behind a lost reply leaves two rw permissions, and a change to ro replaces one of them |
| Nfs.UniqueIsReplaceable | manila/share/drivers/weka/driver.py:942-951 | at most one permission per group meets that condition |
| NfsAccess.RepeatCreatePerm | manila/share/drivers/weka/driver.py:944-946 | however often a lossy channel makes the server create a permission, only permissions of that group and filesystem appear |
| NfsAccess.ApplyRule | manila/share/drivers/weka/driver.py:898-951 | an applied rule is allowed, whatever was lost: its group `manila-<share prefix>-<rule prefix>` holds a text that denotes its network and has a permission RW if its level is rw and RO otherwise, and no other under the same condition; a malformed network raises before any request |
| NfsRemoval.DeleteClientGroup | manila/share/drivers/weka/client.py:555-572 | rules first, then the group the server would otherwise refuse to delete; success means it is gone; no other group and no permission changes |
| NfsRemoval.DeleteGroupByName | manila/share/drivers/weka/driver.py:967-975 | the group of the name and only it goes |
| NfsRemoval.DeletePerms | manila/share/drivers/weka/driver.py:870-884 | deletes exactly the selected permissions of the filesystem while walking a listing taken beforehand, and reports their groups |
| NfsRemoval.RemoveRule | manila/share/drivers/weka/driver.py:1190-1203 | exactly the permissions whose group name contains the id prefix, and their groups, go |
| NfsRemoval.Prune | manila/share/drivers/weka/driver.py:858-896 | exactly the stale permissions of the share's prefix, and their groups, go; nothing else can, whatever fails |
| NfsUpdate.ApplyRules | manila/share/drivers/weka/driver.py:819-846 | the states and the view after applying rules, and soundness of every active one |
| NfsUpdate.RemoveRules | manila/share/drivers/weka/driver.py:848-855 | exports no deletion hits survive every failure |
| NfsUpdate.UpdateNfsAccess | manila/share/drivers/weka/driver.py:814-856 | whatever fails: other filesystems' permissions and foreign groups are out of reach, and a rule returned active that nothing later contradicts is exported, and has no permission of the other type, if no other rule names its group, if and only if its group had none but the one listed first; when nothing fails: the exact view and states, one permission per group |
| NfsUpdate.UpdateAccess | manila/share/drivers/weka/driver.py:783-812 | both contract modes end to end, with the same soundness and exclusivity whatever fails. In the cluster's terms: whatever fails, a rule returned active that stands is allowed at its level, alone from a start with one permission per group; when nothing fails from such a start, every acceptable rule is and only at its level, what deletions take is gone with its groups, a full sync leaves no permission of the share's prefix but those of the rules' groups, and the states are exact |
| NfsPromises.CallAllows | manila/share/drivers/weka/driver.py:898-951 | after a fault-free call each acceptable rule that no later rule of its prefix and no deletion contradicts has its network in its group and exactly one permission, RW for the level `rw` and RO otherwise; no permission is left that a deletion takes or a full sync finds stale |
| NfsPromises.CallTakesGroups | manila/share/drivers/weka/driver.py:858-896 | nor a group that had one |
| NfsPromises.AddressDenotes | manila/share/drivers/weka/driver.py:914-940 | whatever stored text normalises like a rule's address denotes the same network |
| NfsUpdate.RuleInFull | manila/share/drivers/weka/driver.py:814-856 | a rule returned active that stands is allowed whatever fails, and at its level only |
| NfsUpdate.StatesOfInFull | manila/share/drivers/weka/driver.py:819-846 | a state for every rule not skipped as IPv6, active exactly if the last rule of the id is an IPv4 one that is no malformed network |
| NfsUpdate.OthersAreElsewhere | manila/share/drivers/weka/driver.py:858-896 | calls for a share on another filesystem that touch none of this share's groups change nothing this share owns |
| NfsUpdate.HistoryIsRun | manila/share/drivers/weka/driver.py:783-812 | in a history of the cluster, with calls for the share and whatever others do in between, what the share owns is the run of its calls |
| NfsUpdate.HistoryRefinesFullSync | manila/share/drivers/weka/driver.py:783-812 | over cluster states: such a history of a share without exports leaves its filesystem's permissions and its groups as one full sync on the resulting rules leaves them |
| Cluster.ServeTwice | manila/share/drivers/weka/driver.py:80-104 | every write but the creation of a permission, applied twice, leaves the server as applied once; the second answer is one the driver's predicates recognise as already there, or not found, and a refusal is repeated alike |
| Cluster.RepeatIsOnce | manila/share/drivers/weka/client.py:137-195 | so do any number of retransmissions |
| Cluster.Session.Send | manila/share/drivers/weka/client.py:137-195 | the retry loop: at most R+1 attempts, ended by the first that settles it; the server's state is that of as many applications as it saw |
| Cluster.Session.Call | manila/share/drivers/weka/client.py:137-195 | when it ends, whether it is answered and how often the server acted are functions of the channel; an answer is the first application's unless that one's reply was lost, and a repetition's otherwise; an unanswered call reports the last attempt's error |
| Cluster.Session.EndsExactly | manila/share/drivers/weka/client.py:150-195 | a request goes on exactly over lost attempts, at most R+1 of them, and is answered exactly if the last is delivered |
| Cluster.Session.FirstReplyLostExactly | manila/share/drivers/weka/client.py:150-195 | its first reply is lost exactly if an attempt that is carried out and not answered comes before all but some that never arrived |
| Cluster.Session.ChainJoin | manila/share/drivers/weka/client.py:137-195 | requests in sequence are all answered exactly if those of each part are |
| Filesystems.CreateIdempotent | manila/share/drivers/weka/driver.py:1781-1805 | at most one filesystem appears, of the name, size and flag asked for, on a free name and with space for it, and nothing else changes, whatever is lost; it returns the one filesystem of the name if and only if its own at most three requests are answered and the filesystem is there or fits; with nothing lost, exactly if it is there or fits; it fails for want of space or of an answer only |
| Filesystems.FilesystemsOnlyAccrue | manila/share/drivers/weka/client.py:415-436 | under creations by anyone, in any order and repetition, existing filesystems stay as they are |
| Filesystems.OneFilesystemPerName | manila/share/drivers/weka/driver.py:1781-1805 | what two callers see under one name at any two moments is one and the same filesystem |
| ApiRequest.Client.DoLogin | manila/share/drivers/weka/client.py:249-291 | one exchange; tokens change only on success; a lockout sleeps its announced time plus 5 s, at most 150 s, then fails |
| ApiRequest.Client.RefreshOrLogin | manila/share/drivers/weka/client.py:293-314 | a refresh that does not renew falls back to a login; success leaves the token just received; at most one lockout |
| ApiRequest.Client.Attempt | manila/share/drivers/weka/client.py:151-184 | which exchanges it takes is a function of the wire and the refresh token: one send, a second one only after a 401 and with the new token; the verdict is that of the last exchange |
| ApiRequest.Client.Request | manila/share/drivers/weka/client.py:137-195 | it makes exactly the attempts of its course on the wire: at most R+1 of them and 2(R+1) sends; the last exchange decides what it returns or raises, by its code; back-off is 2^k-1 s after k retries and total sleep at most 2^R-1+150 s |
| ApiRequest.RequestInCodes | manila/share/drivers/weka/client.py:150-195 | in codes: an attempt is followed by another only if it ended with no reply, a 429 or a 5xx, and then always while fewer than R+1 were made, so that any other reply is the last; an attempt is a single exchange exactly if that did not meet a 401 |
| ApiRequest.AttemptInCodes | manila/share/drivers/weka/client.py:161-173 | in codes: behind a 401 come a refresh, if there is a token, and unless that is answered with 200 a login; the request is sent again behind a renewal or a login below 400 |
| ApiRequest.RefreshInCodes | manila/share/drivers/weka/client.py:285-314 | in codes: a renewal that brings no refresh token keeps the old one, and a login does not |
| ApiRequest.OnlyRepeatable | manila/share/drivers/weka/client.py:170-184 | no attempt follows one that succeeded or met a definite error, an attempt of several exchanges began with a 401, and there are R+1 attempts unless the last settled it |
| ApiRequest.CourseOfEnds | manila/share/drivers/weka/client.py:150-195 | the course counts those attempts and ends with the last |
| SnapshotCopy.CreateTempGroup | manila/share/drivers/weka/driver.py:457-458 | the group is orphaned if and only if its name was free and the reply to the first delivered creation was lost; it fails exactly for a taken name, that loss, or for want of an answer, each with its own error |
| SnapshotCopy.Export | manila/share/drivers/weka/driver.py:456-478 | the result and the moment it is reached are those the channel decides; success means the host's address is in the group, with an RO permission on the source and an RW one on the target, and no other permission is new whatever fails |
| SnapshotCopy.TrialSucceeds | manila/share/drivers/weka/driver.py:456-478 | its four requests succeed if and only if the name is free and all are answered, those for the group and its rule on first being carried out |
| SnapshotCopy.MountAndCopy | manila/share/drivers/weka/driver.py:480-499 | which of the three commands decides the result; success is one copy, from the snapshot's directory below `<server>:/<source>` into `<server>:/<target>`, as mounted at that moment, and what was mounted before is as it was |
| SnapshotCopy.DropPermissions | manila/share/drivers/weka/driver.py:515-526 | the temporary group's permissions all go if each of its requests is answered; others never do |
| SnapshotCopy.DropGroup | manila/share/drivers/weka/driver.py:527-537 | the temporary group goes with its rules if each of its requests is answered; others never do |
| SnapshotCopy.HostCleanup | manila/share/drivers/weka/driver.py:500-514 | what was mounted is unmounted and both directories are removed when the commands work |
| SnapshotCopy.ClusterCleanup | manila/share/drivers/weka/driver.py:515-537 | if its requests are answered no permission of the temporary group is left, nor the group, unless its creation was never answered; all others stay whatever fails |
| SnapshotCopy.TryCopy | manila/share/drivers/weka/driver.py:456-537 | the result is exactly the try block's, a function of the channel, the host's schedule and whether the name was free, whatever the cleanup meets; if the requests after it are answered and the at most four commands work, no permission of the temporary group, no mount, no directory and no group but the orphan is left |
| SnapshotCopy.CopySnapshotNfs | manila/share/drivers/weka/driver.py:425-537 | the same for the whole operation; it succeeds if and only if the requests go as above and both mkdtemp calls, both mounts and the copy work; success is exactly one copy, from `.snapshots/<access point>` of the source filesystem into the share's, as mounted at that moment; it leaves a directory behind exactly as the two mkdtemp calls go; other groups and their permissions stay whatever fails; with nothing failing on a free name it succeeds and leaves mounts, directories, groups and permissions as they were |
| AsyncCopies.ReportsAdvanceOver | manila/share/drivers/weka/driver.py:361-414 | under every interleaving a share's report never leaves error, leaves available only by a restart, and never returns to creating |
| AsyncCopies.PollsAreMonotone | manila/share/drivers/weka/driver.py:587-623 | two successive polls: creating only before the outcome, one outcome, available only after the copy finished, only error after a restart |
| AsyncCopies.Copies.Run | manila/share/drivers/weka/driver.py:387-414 | the background copy ends and is recorded as those two steps, and is then reported as it ended |
| AsyncCopies.Copies.Record | manila/share/drivers/weka/driver.py:387-414 | the worker's locked update is that step of the state machine |
| AsyncCopies.Copies.Poll | manila/share/drivers/weka/driver.py:587-623 | available means the copy finished and its worker is gone, creating that a worker is there and conversely, and a created share whose entry is lost reads error |
| Mounts.StepKeepsInv | manila/share/drivers/weka/posix.py:91-144 | every step of every thread keeps: one mount per point, one lock per path, commands only where the check still holds |
| Mounts.MountsAreExclusive | manila/share/drivers/weka/posix.py:91-144 | in every interleaving no point carries two mounts, no umount is issued on an unmounted point, and two threads never hold one point |
| Mounts.OperationsDoTheirJob | manila/share/drivers/weka/posix.py:91-144 | in every interleaving mount() returns with its point mounted and unmount() with it free, a command that fails changes nothing, no other point ever changes, and the lock is free again |
| Mounts.LocksAreForever | manila/share/drivers/weka/posix.py:37-46 | a path keeps the lock it first got |
| Mounts.Enter | manila/share/drivers/weka/posix.py:79-124 | mounts unless something is mounted there |
| Mounts.Exit | manila/share/drivers/weka/posix.py:83-144 | issues one umount if something is mounted there, none otherwise, and fails only with it |
| Mounts.CopyNest | manila/share/drivers/weka/driver.py:555-579 | for every schedule of failing commands: it succeeds exactly if both points are entered and the copy works, and is then one copy from below what the first point has mounted into what the second has; the mount table ends as it began, normally or by exception, if and only if every entered point was free and its umount works or was mounted and its umount fails; from free points whichever of the mounts and the copy fails |
| Mounts.RestoredIfUmountsWork | manila/share/drivers/weka/driver.py:555-579 | so, where the umounts work, exactly if the first point was free and the second was too or was never entered |
| Tenancy.OrgNameInjective | manila/share/drivers/weka/driver.py:1435-1442 | two projects share an organization if and only if their ids agree without dashes |
| Tenancy.OrgNameExactly | manila/share/drivers/weka/driver.py:1435-1442 | the name is the prefix and the id; dashes in the id do not matter |
| Text.RemoveConcat | manila/share/drivers/weka/driver.py:1441 | removing a character keeps all others in order (with `RemoveOne`) |
| Tenancy.IsolatedExactly | manila/share/drivers/weka/driver.py:1668-1670 | a share is isolated exactly if its protocol is WEKAFS in any case |
| Tenancy.StepKeepsInv | manila/share/drivers/weka/driver.py:1629-1666 | every step of every thread keeps the cache, lock and isolation invariants |
| Tenancy.TenantsAreIsolated | manila/share/drivers/weka/driver.py:1649-1676 | in every interleaving a cached client is logged in to its project's own organization, at most one login per project is cached, a WEKAFS share is handled in its project's organization and any other in the admin one, two WEKAFS shares share an organization if and only if their projects agree without dashes, every filesystem in an organization with the prefix requires authentication, no WEKAFS share without a project id is handled, and at most one thread is provisioning or logging in |
| Tenancy.CachedByLogin | manila/share/drivers/weka/driver.py:1659-1666 | a client is cached only by a login for its project that succeeded |
| Tenancy.CreationsGoHome | manila/share/drivers/weka/driver.py:298-307 | a filesystem is created in its project's organization, with authentication required, for a WEKAFS share, and in the admin one without for any other; one that was there keeps its flag |
| Tenancy.FilesystemsStay | manila/share/drivers/weka/driver.py:1781-1805 | whatever filesystem there is stays where it is, with its flag |
| Net.AndOnes | manila/share/drivers/weka/driver.py:62-77 | a bitwise conjunction with a netmask clears exactly the host bits |
| Net.NetworkOfClearsHostBits | manila/share/drivers/weka/driver.py:62-77 | the network of an address is canonical |
| Net.PrefixOfMaskInverts | manila/share/drivers/weka/driver.py:57-62 | reading a dotted mask's prefix length inverts writing the mask |
| Net.ShowParses | manila/share/drivers/weka/driver.py:65-77 | the CIDR text of a network parses back to it |
| Net.ShowMaskedParses | manila/share/drivers/weka/driver.py:57-62 | so does its address/dotted-mask text |
| Net.NormIdempotent | manila/share/drivers/weka/driver.py:65-70 | normalising twice is normalising once, for every text |
| Net.PolicyIpIdempotent | manila/share/drivers/weka/driver.py:73-77 | so is the canonical policy address |
| Net.PolicyIpExactly | manila/share/drivers/weka/driver.py:73-77 | a text without a slash is its own policy address; one with a slash has a policy address if and only if it can be read as a network, and that denotes the same network |
| Net.PolicyIpEqualIffSameAddresses | manila/share/drivers/weka/driver.py:73-77 | two networks have one policy address if and only if they match the same addresses |
| Net.ToWekaExactly | manila/share/drivers/weka/driver.py:57-62 | the form written to client groups is the address and the dotted mask of the same network |
| Net.ParseExactly | manila/share/drivers/weka/driver.py:57-77 | a network is an address alone or before one slash and a mask, with the host bits cleared; nothing with two slashes is |
| Net.ParseAddressExactly | manila/share/drivers/weka/driver.py:57-77 | an address is four decimal octets without leading zeros and dots between them |
| Net.ParseMaskExactly | manila/share/drivers/weka/driver.py:57-77 | a mask is a prefix length up to 32, a dotted netmask, or the complement of one that has both ones and zeros |
| Net.WekaFormNormalises | manila/share/drivers/weka/driver.py:57-70 | the dotted-mask form of a valid network normalises like the network |
| Net.EchoNormalises | tests/unit/fakes.py:146-160 | an address as the cluster echoes it normalises like the address that was written |
| Net.NormEqualIffSameAddresses | manila/share/drivers/weka/driver.py:65-70 | two valid networks normalise to one text if and only if they match the same addresses |
| PolicyGroups.ParsePolicyGroups | manila/share/drivers/weka/driver.py:1520-1550 | the dictionary grown in place is the parse of the option |
| PolicyGroups.EntryExactly | manila/share/drivers/weka/driver.py:1531-1546 | which texts are entries: a group that is not blank, rw or ro in any case, and addresses, between two colons; and what each is read as |
| PolicyGroups.StripSplits | manila/share/drivers/weka/driver.py:1531-1547 | what is stripped is white space on either side, and all of it |
| PolicyGroups.ItemsConcat | manila/share/drivers/weka/driver.py:1547 | of the addresses the blank ones are left out and the others stripped, in order |
| PolicyGroups.ParsedOne | manila/share/drivers/weka/driver.py:1548-1549 | an option of one entry is a map of one, or of none if it is malformed |
| PolicyGroups.ParseHomomorphism | manila/share/drivers/weka/driver.py:1520-1550 | parsing two options joined by a semicolon merges them, address lists appended in order |
| PolicyGroups.MergedExactly | manila/share/drivers/weka/driver.py:1548-1549 | merging keeps every group and level of either, with the addresses of the first before those of the second |
| PolicyGroups.MalformedEntriesVanish | manila/share/drivers/weka/driver.py:1530-1546 | a malformed entry contributes nothing, first, last, between others or alone |
| PolicyGroups.EntryRoundTrip | manila/share/drivers/weka/driver.py:1531-1547 | a printed entry parses back to it |
| PolicyGroups.PrintParseRoundTrip | manila/share/drivers/weka/driver.py:1520-1550 | printing a well-formed map in any order and parsing it gives the map back |
| ProtocolPatcher.PatchConverges | ci/patch-wekafs-protocol.py:57-83 | all text outside the tuple stays, the entries of the old tuple are kept in order with WEKAFS appended, or nothing changes when it is there, the same tuple is found again, and a second run changes nothing; it fails only where there is no tuple |
| ProtocolPatcher.NoTuple | ci/patch-wekafs-protocol.py:57-62 | there is none exactly where no head has a closing parenthesis behind it |
| ProtocolPatcher.HeadExactly | ci/patch-wekafs-protocol.py:38-41 | a head is the name, an equals sign and an opening parenthesis with white space between them |
| ProtocolPatcher.BodyExactly | ci/patch-wekafs-protocol.py:38-41 | the body is the shortest prefix of the tuple that leaves a comma, if there is one, and white space; it has all the entries |
| ProtocolPatcher.HasMarkerExactly | ci/patch-wekafs-protocol.py:64 | the marker is WEKAFS between quotes, which every entry of that name is |
| ProtocolPatcher.NewBodyExactly | ci/patch-wekafs-protocol.py:68-80 | what is put behind the old text: a comma, a new line indented like the last one if that would get longer than 79, and WEKAFS in the quotes of the last entry |
| ProtocolPatcher.PatchAppendsOneEntry | ci/patch-wekafs-protocol.py:66-78 | the entries of the new body are the old ones and then WEKAFS in the last entry's quotes |
| ProtocolPatcher.BareCommaExactly | ci/patch-wekafs-protocol.py:73-78 | the new tuple starts with a bare comma if and only if the old body was blank or did already |
| Listener.Listener.Handle | ci/gerrit-listener.py:252-295 | one event is that step on the saved set and the runs, with a crash before, in or after either write of the state file; memory equals disk unless it crashed |
| Listener.TriggersExactly | ci/gerrit-listener.py:140-190 | which events trigger a run, and as what: a new patchset in automatic mode, or a comment that asks for one by a trusted user, on the project's master branch |
| Listener.CalmHandled | ci/gerrit-listener.py:252-295 | handled without a crash, whatever came before, an accepted recheck runs its pair, a new patchset runs its own exactly if it is not recorded, either is recorded then, and nothing else happens |
| Listener.RecordedBeforeRun | ci/gerrit-listener.py:252-295 | however handling dies, the only run it starts is its own pair's, recorded first |
| Listener.CalmRuns | ci/gerrit-listener.py:252-295 | over a stream without crashes a pair runs at least once per accepted recheck, and once if it was asked for and not recorded at the start |
| Listener.BudgetStep | ci/gerrit-listener.py:77-87 | one event, however it dies, keeps every pair's budget of runs |
| Listener.RunsAreBounded | ci/gerrit-listener.py:252-295 | over any event stream with crashes anywhere, a pair runs at most once per accepted recheck, once more if it was not recorded at the start, and once more per torn write |
| Listener.TornWriteReruns | ci/gerrit-listener.py:71-74 | that last allowance is needed: after a torn write a recorded pair runs again without a recheck |
| Listener.Listener.Listen | ci/gerrit-listener.py:252-295 | the loop with its restarts is the fold of those steps, within that bound, and runs every accepted recheck if the process never dies |

## Left out

- HTTP, JSON, payload-key fallbacks, privsep, subprocesses, sockets, files and logging: each call is a typed operation with a success or an error. Of a reply's text only the fact the code reads off it is kept.
- The IPv6 test, the two comment-trigger patterns of the listener and the share type's group name are parameters; the mount user's password and the access keys returned with a state are omitted.
- The share's filesystem name is a field of `Share`; how `_share_name` derives it is not modelled.
- Between the requests of one call the model has a single actor on the cluster. Concurrent callers are modelled for filesystem creation, mounts, snapshot-copy status and the organization cache only.
- The server accepts any address text, a bare text that is no address included; it lists a client group's addresses with a mask; deleting a policy drops its attachments; client groups hold IP rules only, no DNS rules.
- Obtaining the organization client at the head of `_update_wekafs_access` and `delete_share` is in `Tenancy`, not repeated there; its failure would raise before any modelled request.
- `_remove_all_nfs_permissions`, `create_share`, `manage_existing`, extend and shrink, statistics, export locations, `ensure_shares` and its races with deletion: thin, or settled by one branch.
- Integer parsing limits of Python and digits outside ASCII are not modelled; `\w` in the patcher is ASCII.
- AccessView.FullSyncSelfStabilises: speaks of address texts; `10.0.0.1` and `10.0.0.1/32` stay two policy addresses, as in the code.
- AccessView.IncrementalRefinesFullSync: asks that no two rules present in one call name one address, which `SharedAddressDiverges` shows is needed and `CallAgreesExactly` lifts for single calls; whole views are equal for correct flags only, because a policy with the wrong flag keeps it for as long as it keeps an address.
- NfsUpdate.UpdateNfsAccess: the exact view needs at most one permission per group to start with; exclusivity under failures is stated for rules whose group no other rule of the call names.
- NfsView.RunKeepsImage: asks for dash-free id prefixes that differ from each other, from the share's and from foreign names; `SharePrefixHitsAll` shows why.
- NfsUpdate.UpdateAccess: relates calls to the share's own filesystem; that another filesystem's permissions stay is in the frame `Nfs.Within`.
- NfsUpdate.HistoryRefinesFullSync: what others do in between leaves this filesystem's permissions and the groups with the share's prefix alone.
- SnapshotCopy.CopySnapshotNfs: a mount, umount or copy that fails is taken to have no effect; a copy is of the directory's contents, which is what the slashes put behind both paths ask for; the retry inside `_nfs_mount_with_retry` and the choice of the local address and NFS server are inputs.
- Mounts.StepKeepsInv: takes each command as one step and only this driver as mounting.
- ApiRequest.Client.Request: reads and writes of the two tokens are sequential; what a second thread may see of them outside the lock, and reading the seconds out of a lockout text, are not modelled.
- Tenancy.TenantsAreIsolated: supposes that the admin organization's name does not start with the prefix, which rules out an empty prefix; the cluster answers an organization's creation and a login truthfully; password derivation and the token file are opaque; protocols are compared in ASCII upper case.
- ProtocolPatcher.PatchConverges: entries are quoted words wherever they stand in the tuple, as the script reads them, comments included; file access, exit codes and the read-back are left out.
- Listener.Listener.Handle: events lacking a field the code indexes, the job itself and the SSH stream are not modelled.
