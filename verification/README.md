# Repairing the Keycloak mirror of iRODS groups: a verified model

`irods-keycloak-admin` keeps groups in a Keycloak realm as a mirror of the groups of an iRODS zone. It reads both sides,
plans the operations that bring the mirror in line, lets a person review them, and applies them. This project models
that engine in Dafny, from the strings in a plan to the state of the realm, and proves what the repository promises of
it: repair makes the mirror match iRODS, applying a plan again is safe, and nothing is deleted without approval.

The files follow the program:

- `Text`, `Paths`, `Plans`: trimming, splitting and ordering of strings, Keycloak paths, plan validation and the codec
  for member targets (`internal/plan/plan.go`).
- `Review`: the review session, a small state machine over an arbitrary reviewer (`internal/planreview/planreview.go`).
- `Groups`, `Realms`, `Server`: the state of a realm, the four calls of the workflow as relations on it, and a Keycloak
  server with one method per request. Requests may fail, their answers may get lost, and other clients may add groups.
  The server is an assumption about the environment.
- `Flattening`, `Listings`, `Client`: the admin client without its transport (`internal/keycloakadmin/http_client.go`).
- `Mirrors`, `Planner`, `Snapshots`, `Repair`, `Service`: mapping, planning, decoding and applying
  (`internal/workflow/repair/service.go`).
- `Reach`, `Remaining`, `Runs`: the invariant behind the main results. After any run over a plan the realm is the one
  described in closed form by the set of differences that have been removed (`Reach.Reached`), whatever the order, and
  whatever was left out or failed; planning again finds exactly the other differences.
- `Reruns`: other orders, second runs and independent runs, by the same invariant.
- `Readings`, `ForestOrders`, `ListingOrders`: in which order the groups of a realm are listed, and when a realm can be
  read, and planned for, in one way only.
- `Orders`, `PlanRuns`, `Theorems`, `Batches`, `Comparisons`, `Progress`, `EndToEnd`: the results in the program's own
  terms.
- `Deletions`, `Occupied`, `Divergence`: what deletions may take along, whatever the layout of the realm; what happens
  to groups in the places of missing mirrors; and exactly when repair converges.
- `Counterexamples`: what goes wrong without the assumptions, with concrete inputs and exact conditions.

A run is a list of events, one per operation: left out by the review, or handed to Keycloak with an outcome and the
state it left. `Realms.Permits` says which outcomes of a call Keycloak allows, including failures that had their effect
and creations that got only part of the way; the methods of the client are proved to keep to it.

The results come in two strengths. Those about reading a plan back and about deletions need a readable realm only
(`Orders.Readable`): iRODS group names are non-empty, trimmed, free of slashes and not `.` or `..`, and no iRODS user
name is a Keycloak user id. Those about convergence need an orderly one (`Orders.Orderly`): each name is mirrored by
at most one group; no group sits where a missing mirror belongs; and below a stale mirror there is neither the mirror
of an existing iRODS group nor the place of a missing one. Stale mirrors below stale ones, and groups that mirror
nothing below stale ones, are allowed. `Divergence.ConvergesExactly` does without all but the first of these: it says
exactly when repair converges. What the text of a plan needs beyond that (no `#member:` in a path, no `#` or `/` in a
username, no foreign zone) is not assumed but characterised: `Orders.PlannerOutputAccepted` shows that the validator
accepts a plan exactly when it holds. Orderliness is kept by every run, so it has to hold only once. A realm without
groups meets all of it (`EndToEnd.FreshRealmIsReady`); for any other realm one reading of the mirrors decides
(`EndToEnd.OrderlyIsReady`); and `EndToEnd.RepairAndCheck` puts the methods and the results together from there.

## Model

| member | source | states |
|---|---|---|
| Text.TrimSpace | internal/plan/plan.go:156-156 | the result is trimmed and trimmed text is left alone |
| Text.TrimSpaceCuts | internal/plan/plan.go:156-156 | trimming cuts off white space at both ends and nothing else |
| Text.SpacesAre | internal/plan/plan.go:156-156 | white space is exactly what Go counts as such, character by character |
| Text.TrimSlashesCuts | internal/workflow/repair/service.go:522-524 | trimming slashes cuts off slashes at both ends and nothing else |
| Text.NoSlashLeft | internal/workflow/repair/service.go:522-524 | and leaves none there |
| Text.SplitJoins | internal/plan/plan.go:122-122 | joining the parts of any split with the separator gives back the text, and no part holds the separator |
| Text.LessIsDictionaryOrder | internal/workflow/repair/service.go:548-564 | the order of texts: a text before its continuations, else by the smaller character where they first differ |
| Text.SplitPair | internal/plan/plan.go:122-122 | splitting left+separator+right gives exactly the two halves if and only if neither contains the separator |
| Paths.NormalizeRooted | internal/plan/plan.go:155-168 | a non-empty normal path is rooted and none of its segments is empty, "." or ".." |
| Paths.CleanStarts | internal/plan/plan.go:155-168 | the root has no segments, a text without a leading slash is read as if it had one, and a normal path is a slash and its segments joined by slashes |
| Paths.CleanFollows | internal/keycloakadmin/http_client.go:571-571 | cleaning a longer path: a name goes down one level, ".." up one level but not above the root, "." and repeated slashes nowhere |
| Paths.PathInjective | internal/keycloakadmin/http_client.go:563-576 | different clean segment lists are spelled differently |
| Paths.NormalizeIdempotent | internal/plan/plan.go:155-168 | normalising twice equals normalising once if and only if the last segment does not end in whitespace |
| Paths.NormalizeSettles | internal/plan/plan.go:155-168 | in particular for every text of whose slash-separated parts none ends in whitespace |
| Paths.PathIsParentAndBase | internal/keycloakadmin/http_client.go:578-596 | a normal path other than the root is its parent, a slash and its last name |
| Paths.ParentIsShorter | internal/keycloakadmin/http_client.go:586-596 | going to the parent strictly shortens the list of segments, which is why creating parents ends |
| Plans.ValidateForApply | internal/plan/plan.go:18-59 | no error if and only if the header is right, every operation meets the demands of ValidOperation, and the trimmed ids are non-empty and distinct; an error names a defect that is there |
| Plans.ValidOperation | internal/plan/plan.go:61-106 | an operation is accepted if and only if its target is not blank and of the shape its action asks for, its realm, zone and path evidence is blank or agrees with the plan and with the segments of the target, its username has no # or /, and a deletion is marked |
| Plans.HeaderDefect | internal/plan/plan.go:19-42 | an error of the header names a defect of the header |
| Plans.OperationDefect | internal/plan/plan.go:61-135 | an error of an operation names a defect of the operation |
| Plans.ValidateOperations | internal/plan/plan.go:44-57 | the loop finds an error if and only if some operation is invalid or an id is missing or repeated |
| Plans.MemberTargetRoundTrip | internal/plan/plan.go:120-135 | parsing a printed member target gives back the pair if and only if the path is normal and not the root, the username trimmed and non-empty, and neither contains the separator |
| Plans.MemberTargetInjective | internal/workflow/repair/service.go:534-536 | printing member targets is injective on such pairs |
| Plans.SummaryCounts | internal/plan/plan.go:178-194 | each counter is the number of the operations of its kind |
| Plans.OperationIdSpellsIndex | internal/workflow/repair/service.go:503-503 | the id is "op-" and the digits of the index, filled up with zeros to three, at any plan length; so ids never clash, past op-999 too |
| Review.Session.Decide | internal/planreview/planreview.go:64-95 | one decision: the new mode and skip flag, whom it asks, and the outcome for every kind of answer |
| Review.VerdictTable | internal/planreview/planreview.go:64-106 | exactly when an operation is accepted, skipped, or stops the session and why, and when mode, flag and what the reviewer has seen change |
| Review.ReplyHeard | internal/planreview/planreview.go:77-84 | a reply is a failure exactly when it is an error, and a decision exactly when it is one of the words of that decision |
| Review.DecisionsRead | internal/planreview/planreview.go:136-151 | a text is a decision if and only if it is one of the twelve words for it, in any letter case, with white space around it and with dashes or spaces for underscores |
| Review.ModesRead | internal/planreview/planreview.go:45-62 | the three prompt modes by name; an empty name means required, any other is refused |
| Review.ReviewPlan | internal/planreview/planreview.go:108-133 | a review ends without error if and only if no decision stopped it; it keeps exactly the accepted operations, in order, and counts them |
| Review.TextsRoundTrip | internal/planreview/planreview.go:14-27 | every prompt mode and every decision is read back from its own text |
| Review.AllAnswerSettles | internal/planreview/planreview.go:85-91 | after accept_all or skip_all no later operation is prompted and all share that fate |
| Review.ApprovalSafety | internal/planreview/planreview.go:97-106 | in mode required an operation that needs approval, and in mode all any operation, gets through only if it was accepted itself or covered by an accept_all at it or earlier, and never after a skip_all |
| Review.NoReviewerNoApproval | internal/planreview/planreview.go:74-76 | without a reviewer nothing that needs approval gets through |
| Flattening.ChildrenChosen | internal/keycloakadmin/http_client.go:508-517 | the children the server gives for the id are used when it counts any and gives any; else those that came with the group |
| Flattening.Visit | internal/keycloakadmin/http_client.go:494-527 | the walk terminates on any finite server graph, shared or cyclic, and never leaves the ids that can turn up |
| Flattening.FlattenComplete | internal/keycloakadmin/http_client.go:129-153 | with honest child counts the flat list holds exactly the groups reachable from the roots, each id once |
| Flattening.FlattenInTurn | internal/keycloakadmin/http_client.go:494-527 | on every graph, also with shared groups and cycles, the walk is depth first: each group is the next one not yet collected in the innermost list that has one left |
| Flattening.OneDepthFirst | internal/keycloakadmin/http_client.go:494-527 | where every group has an id, a list is in that order, complete and without repetition if and only if it is the flat list |
| Flattening.FlattenContiguous | internal/keycloakadmin/http_client.go:502-525 | from a group to any of its later children, everything is a child of the group or of something in between |
| Flattening.FlattenSiblings | internal/keycloakadmin/http_client.go:513-525 | children come in the order in which they are listed, unless the later one is listed by a group in between as well |
| Flattening.SharedChildComesEarly | internal/keycloakadmin/http_client.go:494-500 | with that exception: the children a, b, c of a group come as a, c, b when a lists c, too |
| Flattening.FlattenTree | internal/keycloakadmin/http_client.go:494-527 | when nothing is shared the flat list is the plain preorder |
| Listings.ForestFlattened | internal/keycloakadmin/http_client.go:129-153 | flattening what the server lists gives every group of the realm once, with its path, name and attributes |
| KeycloakClient.MatchingMember | internal/keycloakadmin/http_client.go:602-622 | a member is found that matches by id, given name or resolved name, if and only if there is one |
| KeycloakClient.MatchIsMembership | internal/keycloakadmin/http_client.go:602-622 | among the members of a group the three tests single out exactly the user that the reference names |
| KeycloakClient.HTTPClient.ListGroupChildren | internal/keycloakadmin/http_client.go:529-551 | the paging loop returns all the children, in order |
| KeycloakClient.HTTPClient.AppendGroupHierarchy | internal/keycloakadmin/http_client.go:494-527 | the recursive walk with its seen-set computes the specified walk and terminates |
| KeycloakClient.HTTPClient.ListGroups | internal/keycloakadmin/http_client.go:129-153 | the paged, flattened listing is every group of the realm, once |
| KeycloakClient.HTTPClient.FindGroupByPath | internal/keycloakadmin/http_client.go:394-407 | finds the group at the normalised path, with its name, path and attributes, and none only if there is none |
| KeycloakClient.HTTPClient.ListGroupMembers | internal/keycloakadmin/http_client.go:155-174 | an id or a path resolves to the one group it names, and exactly its members are returned |
| KeycloakClient.HTTPClient.ResolveExistingGroupId | internal/keycloakadmin/http_client.go:461-477 | the id returned is the only group the reference can name; empty only if there is none |
| KeycloakClient.HTTPClient.ResolveUserId | internal/keycloakadmin/http_client.go:479-492 | the id returned is the only user the reference can name, by username or by id |
| KeycloakClient.HTTPClient.AddUserToGroup | internal/keycloakadmin/http_client.go:325-345 | set insertion on the members of the named group; without faults it succeeds if and only if user and group exist |
| KeycloakClient.HTTPClient.RemoveUserFromGroup | internal/keycloakadmin/http_client.go:347-381 | set removal; a missing group, user or membership is success without change, and blank references change nothing |
| KeycloakClient.HTTPClient.DeleteGroup | internal/keycloakadmin/http_client.go:298-323 | deletes the named group with its subtree; a missing group is success without change, a blank reference an error without change |
| KeycloakClient.HTTPClient.EnsureGroupPath | internal/keycloakadmin/http_client.go:409-448 | terminates; adds only groups on the way to the path; returns the group at the path, also when another client was faster |
| KeycloakClient.HTTPClient.CreateOrUpdateGroup | internal/keycloakadmin/http_client.go:236-296 | an existing group gets the attributes and nothing else changes, whether or not other clients are at work, or it fails without change; otherwise it creates the group with its parents and keeps what was there, also after a conflict; it returns the group at the path with its name, path and attributes |
| Realms.CreatedPaths | internal/keycloakadmin/http_client.go:267-295 | creating a group makes the set of paths exactly the old one and the path with everything above it |
| Realms.TwiceIsOnce | internal/keycloakadmin/http_client.go:236-381 | each of the four calls, carried out twice in a row, does what it does once |
| Mirrors.MappedExactly | internal/workflow/repair/service.go:351-384 | a group is taken for a mirror if and only if its name attribute, the authority iRODS or its place mark it, it names no other zone and no other authority, and it has a name |
| Mirrors.MappedName | internal/workflow/repair/service.go:367-376 | its name is the first name attribute that is not blank, whatever the path; else what follows /irods/ in the path; else the name of the group |
| Orders.MarkedIsMirror | internal/workflow/repair/service.go:351-384 | a group created with the mirror attributes is recognised as the mirror of its name |
| Orders.PlacedIsMirror | internal/workflow/repair/service.go:526-532 | a group in the place of a mirror is recognised even without attributes |
| Orders.PlainRootIsNoMirror | internal/workflow/repair/service.go:355-357 | the plain /irods root is not taken for a mirror |
| Mirrors.NoDiffIsConverged | internal/workflow/repair/service.go:386-476 | there are no differences if and only if both sides have the same groups with the same members |
| Mirrors.OrderIsUnique | internal/workflow/repair/service.go:399-473 | a set of differences has one strictly sorted sequence |
| Mirrors.BeforeIsPlanned | internal/workflow/repair/service.go:399-473 | that order in full: deletions last, group by group in dictionary order, in a group its creation, its additions and its removals, each by username |
| Mirrors.PlannedGroupOperation | internal/workflow/repair/service.go:407-417 | action, risk, target and evidence of a planned creation and a planned deletion |
| Mirrors.PlannedAddition | internal/workflow/repair/service.go:419-433 | action, risk, target and evidence of a planned addition |
| Mirrors.PlannedRemoval | internal/workflow/repair/service.go:439-454 | action, risk, target and evidence of a planned removal |
| Planner.SortedKeys | internal/workflow/repair/service.go:548-564 | exactly the keys, in dictionary order, whatever order the map gives them |
| Planner.PlanRepair | internal/workflow/repair/service.go:386-476 | the operations are exactly the four set differences, each once, in the order of BeforeIsPlanned, numbered from one, and the running counts equal the summary |
| Planner.PlanIsDetermined | internal/workflow/repair/service.go:386-476 | two plans for the same snapshots differ at most in their plan ids, in whatever order the maps give their keys |
| Planner.PlanLength | internal/workflow/repair/service.go:386-476 | a plan has as many operations as there are differences |
| Snapshots.OneSnapshot | internal/workflow/repair/service.go:294-313 | a snapshot in which the last entry of a name counts is unique |
| Snapshots.OrderMatters | internal/workflow/repair/service.go:294-313 | such a snapshot does not depend on the order of the entries if and only if entries of one name make one value |
| ListingOrders.IrodsOrderMatters | internal/workflow/repair/service.go:288-314 | the iRODS side does not depend on the listing order if and only if entries of one trimmed name are in one zone |
| Readings.OneMirrorOneSnapshot | internal/workflow/repair/service.go:316-349 | two readings of a realm in which each name is mirrored once are equal |
| ForestOrders.ListedBefore | internal/keycloakadmin/http_client.go:494-551 | in the flat list of a realm a group comes before another if and only if it lies above it, or it is or lies below an earlier sibling of a group that is or lies above the other |
| ForestOrders.ListedLatest | internal/keycloakadmin/http_client.go:494-551 | for every group there is an order of the children in which only what lies below the group is listed after it |
| ListingOrders.MirrorOrderMatters | internal/workflow/repair/service.go:316-349 | the mirror side does not depend on how Keycloak orders the children of each group if and only if of two mirrors of one name one always lies below the other |
| ListingOrders.PlanOrderMatters | internal/workflow/repair/service.go:316-476 | the plan apart from its id does not depend on that order if and only if, wherever a name has more than one lowest mirror (none of the same name below it), all of these have exactly the members that iRODS has |
| RepairService.Service.ReadIrodsSnapshot | internal/workflow/repair/service.go:288-314 | every named entry is in the snapshot, read from the last entry of its name; it fails if and only if some members cannot be listed |
| Repair.IrodsShows | internal/workflow/repair/service.go:288-314 | what the snapshot shows of a name: the zone of the last entry, or the default, and the trimmed names of exactly the users among the members |
| Repair.IrodsShowsOnly | internal/workflow/repair/service.go:294-303 | the snapshot shows nothing but the trimmed names of entries |
| RepairService.Service.ReadMirrorSnapshot | internal/workflow/repair/service.go:316-349 | the snapshot has every mirror of the zone, with the ids and names of exactly its members; of several groups of one name the last listed counts |
| RepairService.Service.ReadMembers | internal/workflow/repair/service.go:336-345 | the members of a listed group by username, with their ids |
| RepairService.IrodsMemberSet | internal/workflow/repair/service.go:478-489 | the loop collects exactly the trimmed non-empty names of the users among the members |
| RepairService.MembersByName | internal/workflow/repair/service.go:491-499 | every named user is there under the trimmed name, with a trimmed id |
| RepairService.Service.RepairKeycloak | internal/workflow/repair/service.go:58-82 | the plan returned is the planner's plan for what was read; it fails only for a missing realm or zone or a failed read |
| RepairService.Service.Apply | internal/workflow/repair/service.go:84-159 | a plan that the validator or the prompt mode refuses, or that is for another realm or zone than asked for, changes nothing; otherwise the run follows the session, each event is one that Keycloak permits, the final state is that of the run, and the result reports it |
| RepairService.Service.MayStartMeans | internal/workflow/repair/service.go:92-100 | exactly when it starts: known mode, acceptable plan, and the realm and zone asked for, where any are, are those of the plan |
| RepairService.Service.Resolved | internal/workflow/repair/service.go:269-286 | the realm and the zone given come first, then the configured ones in their order |
| RepairService.Service.ApplyAll | internal/workflow/repair/service.go:117-158 | the loop: exactly the accepted operations are performed, an error of the review ends it there, and the tally agrees with what happened |
| RepairService.Service.ApplyOperation | internal/workflow/repair/service.go:161-211 | hands over the call the operation decodes to; one that cannot be decoded fails without change |
| Repair.DecodesCreation | internal/workflow/repair/service.go:163-185 | the call for a creation: its name and zone from the evidence or else from target and plan, its path, and exactly the three marks |
| Repair.DecodesMembership | internal/workflow/repair/service.go:186-200 | the call for a change of members: whose membership, and in which group, with evidence before target |
| Repair.DecodesDeletion | internal/workflow/repair/service.go:201-207 | the call for a deletion: the group of the evidence, or else the one at the target |
| Repair.ValidatedReachesClient | internal/workflow/repair/service.go:161-211 | no operation that the validator accepts fails before it reaches Keycloak |
| Repair.EveryOperationCounted | internal/workflow/repair/service.go:106-158 | each counter is the number of operations with that fate; there is one entry each in plan order, which tells the fate, the operation, the realm and zone, the group and user of the target, and has a warning exactly when it failed |
| Orders.ReportNamesTarget | internal/workflow/repair/service.go:232-244 | the report on a planner's operation names the group and the user it is about |
| Orders.AcceptedIfFit | internal/plan/plan.go:61-106 | the validator accepts the operation of a difference if and only if its zone is not foreign, its path has no separator, and its username no '#' or '/' |
| Orders.PlannerOutputAccepted | internal/plan/plan.go:18-135 | the planner's plan is accepted for its own realm and zone, at any length, if and only if all its differences are of that kind |
| Orders.DecodedItem | internal/workflow/repair/service.go:161-211 | printed into a plan and read back by the applier, a difference becomes exactly the call that removes it |
| Reach.ItemStep | internal/workflow/repair/service.go:161-211 | one call, whatever its outcome, takes a realm reached by removing some differences to one reached by removing the same or its own as well; a deletion removes those of the stale mirrors below, too |
| Reach.ItemAgain | internal/workflow/repair/service.go:161-211 | a call whose difference is already removed changes nothing |
| Reach.ItemEnabled | internal/workflow/repair/service.go:182-188 | a call can be carried out if and only if it does not add an unknown user or add to a mirror that is not there yet |
| Remaining.RemainingDiff | internal/workflow/repair/service.go:386-476 | planning again finds exactly the differences that have not been removed |
| Remaining.StillTidy | internal/workflow/repair/service.go:316-384 | a tidy situation stays tidy when differences are removed |
| Runs.RunReaches | internal/workflow/repair/service.go:117-151 | every run, in any order, with anything left out or failing, ends where removing some set of differences leads: all the applied, none but what the operations handed over remove, and exactly what the applied ones remove when failures have no effect |
| PlanRuns.WrittenMeansAccepted | internal/workflow/repair/service.go:92-100 | in a readable realm the plans that the results about deletions speak of are exactly those that the validator accepts |
| Theorems.RepairsMeansAccepted | internal/workflow/repair/service.go:92-100 | in an orderly realm the plans that the results below speak of are exactly those that the validator accepts |
| Theorems.EmptyPlanMeansConverged | internal/workflow/repair/service.go:386-476 | the plan is empty if and only if the mirror shows exactly what iRODS has |
| Theorems.RepairConverges | DEVELOPER_NOTES.md:1831-1845 | after a fully applied plan the mirror read back has exactly the groups and members of iRODS, and the next plan is empty |
| Theorems.RepairSucceeds | internal/workflow/repair/service.go:117-159 | a run without faults applies the whole plan if and only if Keycloak knows all users to be added |
| Theorems.PlanLengthMeasuresDrift | internal/workflow/repair/service.go:117-151 | whatever was left out or failed, the next plan is shorter by at least what was applied; when failures have no effect, by exactly what the applied operations remove, a deletion counting the stale mirrors below as well |
| Progress.ExactIfApart | internal/workflow/repair/service.go:117-151 | every run in which failures have no effect shortens the plan by exactly what it applied, if and only if no stale mirror lies below another |
| Theorems.NextPlanRepairs | internal/workflow/repair/service.go:58-159 | after any run the realm is orderly and the next plan is accepted again |
| Theorems.RepairingEnds | internal/workflow/repair/service.go:58-159 | rounds of planning and applying that each apply something end, after at most as many rounds as the first plan is long |
| Progress.OnlyUnknownLeft | internal/workflow/repair/service.go:117-151 | after a round with nothing left out and no faults, exactly the additions of users that Keycloak does not know are left |
| Progress.StuckMeansConverged | internal/workflow/repair/service.go:117-151 | such a round applies nothing if and only if the plan only adds unknown users; when all users are known, if and only if the mirror already matches iRODS |
| Theorems.RepeatIsSafe | DEVELOPER_NOTES.md:105-105 | running the same plan again right after it was fully applied changes nothing, and without faults counts every operation as applied |
| Comparisons.ReorderedSucceeds | internal/workflow/repair/service.go:399-473 | in any order of the operations, a run without faults applies all of them if and only if Keycloak knows the users to be added and every mirror is created before it is added to |
| Comparisons.ReorderedRepeat | DEVELOPER_NOTES.md:105-105 | in any order, a second run changes nothing if and only if every mirror is created before it is added to |
| Comparisons.AnyOrderSameEnd | internal/workflow/repair/service.go:399-473 | every order that creates mirrors before adding to them applies everything and ends in the same realm as the planner's, up to the ids of new groups |
| Theorems.OthersUntouched | internal/workflow/repair/service.go:351-384 | groups that mirror nothing in the zone keep id, place, attributes and members, unless a stale mirror above them was deleted: then they are gone |
| Theorems.ForeignUntouched | internal/workflow/repair/service.go:351-384 | in particular groups whose attributes name another zone or another authority, whatever their name and place |
| Theorems.OnlyRootAdded | internal/keycloakadmin/http_client.go:409-448 | the only group a run adds that is no mirror is the plain root |
| Deletions.DeletionsNeedApproval | internal/plan/plan.go:91-94 | for every plan that the validator accepts, no deletion is handed to Keycloak without the agreement that the session asks for |
| Deletions.NothingDeletedUnasked | internal/workflow/repair/service.go:117-132 | in any readable realm, a group that is gone after a reviewed run was, or lay below, a stale mirror whose own deletion was agreed to |
| Deletions.DoneMeansGone | internal/keycloakadmin/http_client.go:298-323 | what was, or lay below, a stale mirror whose deletion succeeded is gone at the end of the run |
| Deletions.ApprovedThemselves | internal/workflow/repair/service.go:117-132 | every group that any reviewed run can take away is agreed to itself if and only if nothing lies below a stale mirror |
| Divergence.ConvergesExactly | DEVELOPER_NOTES.md:1831-1845 | where each name is mirrored once, a fully applied plan makes the mirror match iRODS if and only if, before it, no mirror of an existing group and no spot of a missing one lay below a stale mirror, and whatever sat in such a spot mirrored nothing and had no members but those of the iRODS group |
| Divergence.OnlyOccupantsTakenOver | internal/keycloakadmin/http_client.go:250-265 | of the groups that mirror nothing, a fully applied plan changes only those in the spots of missing mirrors: each keeps its place and members, is marked, and gets the members of the iRODS group as well |
| Occupied.RunFollows | internal/workflow/repair/service.go:117-151 | whatever is left out or fails, a run over occupied spots does what it would do had the occupants been marked from the start |
| Batches.RanAreAccepted | internal/workflow/repair/service.go:117-132 | at every point, and so when an error ends the run, exactly the operations accepted so far have been handed over |
| Batches.InterleavedIsBatch | internal/workflow/repair/service.go:117-151 | a run reviewed on the way, without what was left out, is a lawful run of the part that a review up front accepts, faultless if it was |
| Comparisons.ReviewsAgree | internal/workflow/repair/service.go:117-151 | a run reviewed on the way and an independent run of the part that the same session accepts up front, both without faults, apply and fail as many operations and end in the same realm up to the ids of new groups |
| Batches.BatchIsInterleaved | internal/planreview/planreview.go:108-133 | every run of the accepted part has a run reviewed on the way that does its work |
| Batches.SameReport | internal/workflow/repair/service.go:152-158 | the two report the same status and the same applied, failed and warning counts |
| Batches.AcceptedPartAcceptable | internal/plan/plan.go:18-59 | the accepted part of an acceptable plan is acceptable |
| Batches.UnpromptedRunsAll | internal/planreview/planreview.go:97-100 | with prompting off nothing is left out |
| EndToEnd.RepairAndCheck | internal/workflow/repair/service.go:58-159 | planning, applying without prompts and planning again on a server without faults or other clients: everything applied, the mirror converged, the second plan empty |
| EndToEnd.PlanTwice | internal/workflow/repair/service.go:58-82 | two services that get the groups of one realm in different orders plan the same apart from the plan id, unless lowest mirrors of one name compete |
| EndToEnd.OrderlyIsReady | internal/workflow/repair/service.go:58-82 | a realm is ready, that is, every reading of its mirrors is orderly with fit differences and known users, if and only if one reading is |
| EndToEnd.FreshRealmIsReady | internal/workflow/repair/service.go:386-476 | a realm without groups meets the assumptions for any iRODS listing with clean names, no separators and known users |
| Counterexamples.MarkedRootTakesMirrorsAlong | deployments/docker-test-framework/5-0/realm-irods.json:49-58 | a root that carries only the authority mark is taken for a stale mirror named irods, and deleting it deletes every mirror below |
| Counterexamples.MarkedRootNeverConverges | deployments/docker-test-framework/5-0/realm-irods.json:49-58 | with such a root, a fully applied plan does not make the mirror match iRODS |
| Counterexamples.MarkedRealmDiverges | deployments/docker-test-framework/5-0/realm-irods.json:49-75 | a realm of such a root and one good mirror: its plan is one deletion, which leaves no group |
| Counterexamples.MarkedRealmGoesUnasked | internal/workflow/repair/service.go:117-132 | in that realm a mirror goes whose deletion nobody was asked about |
| Counterexamples.OccupiedSpotIsTakenOver | internal/keycloakadmin/http_client.go:250-265 | a group of another zone in the place of a missing mirror is retagged, keeps id and members, and becomes the mirror |
| Counterexamples.CreateChangesOnlyOccupant | internal/keycloakadmin/http_client.go:250-265 | a creation changes an existing group if and only if it sits in the spot and does not carry just the marks |
| Counterexamples.OneBadNameSpoilsAll | internal/plan/plan.go:61-106 | one username with a separator, or one group of another zone, makes the validator refuse the whole plan |
| Counterexamples.IdTakenForName | internal/keycloakadmin/http_client.go:479-492 | a user name that is only known as a user id adds the wrong user |
| Counterexamples.AddsTheNamed | internal/keycloakadmin/http_client.go:479-492 | after a successful addition somebody of the name is a member if and only if there is a user of that name |
| Counterexamples.AddBeforeCreateNotRepeatable | internal/workflow/repair/service.go:161-211 | a validated plan that adds to a mirror before creating it fails at first and changes the realm when run again |
| Counterexamples.NormalisingTwice | internal/plan/plan.go:155-168 | "/a /" normalises to "/a ", and that to "/a" |

## Left out

- HTTP, JSON, URL building, TLS and access tokens: a request is a method call with success, 404, 409 or another failure.
- `CreateOrUpdateUser` and `GetUser` of the client: the repair workflow does not use them.
- `internal/irodsadapter`: thin wrappers over a library. iRODS is a fixed listing of entries and members; listing the
  members of a group fails or succeeds for good.
- `cmd`, flags, environment, plan files and terminal prompts: the plan's reviewer answers as any function of the
  operations it has been shown.
- `internal/httpapi`, `internal/server`, the stub services, the bootstrap and user workflows and
  `reconcile.Comparator`: routing or scaffolding.
- `OperationIDs`, wall-clock plan ids and deadlines. Plan ids are a parameter.
- Message texts: errors are tags, and so are the constants for formats, actions, risks and evidence keys; any other text
  is kept as text. Evidence values are strings.
- Nil services, adapters and clients.
- KeycloakServer.Server: the model of the environment. It keeps one realm; it gives every group an id, a path and a
  clean name; it lists groups in an order of its own that lasts for a listing; it refuses to rename a group; deleting
  a group removes what is below it; ids are never used twice; usernames and user ids do not overlap. Its members and
  child counts are complete, where `ListGroupMembers` fetches a single page.
- KeycloakServer.Server.OthersAdd: other clients interfere only by adding groups, and only when a group is created.
- KeycloakClient.HTTPClient.CreateOrUpdateGroup: does not model a group without an attribute map, for which the
  program would keep the existing attributes; the workflow always gives attributes. When the name differs from the
  last segment of the path, or a segment has surrounding whitespace, unlike in every plan of the planner, it says no
  more than that groups are only added, or one group gets the attributes.
- KeycloakClient.HTTPClient.AppendGroupHierarchy: the result slice and the seen-set are passed and returned as values;
  the sharing of one map and one backing array between the recursive calls is not modelled.
- Text.Lower: covers the code points whose lower case is or becomes an ASCII letter; other letters are left alone, which
  makes no difference to a comparison with an ASCII word.
- Theorems.RepairConverges: says nothing about runs during which other clients change the realm.
