# Tacker: protocols and algorithms, modelled and proved in Dafny

Tacker is an NFV orchestrator. This project models the parts of it that carry a protocol, a state
machine or an algorithm of their own, and proves what they promise for every input, every run or
every reachable state. `dafny verify dfyconfig.toml` covers all files.

| file | component |
|---|---|
| `Onboarding.dfy` | one upload round of a VNF package over any number of conductors, as a step system |
| `Lifecycle.dfy` | one attempt of instantiate, terminate, heal or change_ext_conn, with exceptions anywhere |
| `FaultTables.dfy` | the outcomes of such attempts with one or two raising calls, fresh and resumed, as tables |
| `Retries.dfy` | which requests and retries of these the API admits, and what chains of them leave behind |
| `Grant.dfy` | matching a grant against its request |
| `HealPairing.dfy` | pairing new VNFCs with old ones for a full heal, rewriting placement constraints in place |
| `Ordering.dfy`, `Keyset.dfy`, `Pages.dfy`, `EmulatedPages.dfy` | multi-key ordering, keyset queries, pages and walks along links, pagination in memory |
| `Policy.dfy` | expansion of wildcard roles in the enhanced policy |
| `Extensions.dfy` | processing extensions after their requirements |
| `Crawler.dfy` | the documentation link checker |
| `MergePatch.dfy`, `Dicts.dfy` | JSON merge patch and deep update: what they compute, and the in-place code |
| `CaseConversion.dfy`, `CaseTrees.dfy` | camelCase and snake_case, for names and for JSON trees |
| `Readers.dfy` | buffered and limited readers of chunked bytes |
| `RpcTimeouts.dfy` | adaptive RPC timeouts |
| `Common.dfy` | what several of these share |

## How the source is modelled

- Protocols are step systems or event runs: an event is one database transaction, or one point at
  which an exception leaves the code. Loops are loops, dictionaries that are changed in place are
  objects with a footprint, class-level tables are fields of a class.
- Drivers, the NFVO, the glance store and the network are inputs: a set of call sites that raise, an
  error point that the driver leaves, a function that says which URL answers. Quantifying over them
  covers every behaviour.
- Sort cells are NULL or a value; values are integers that stand for positions in a column's own
  order, which is all that `=`, `<` and `>` look at.
- Letters are ASCII. A `\w` is a letter, a digit or an underscore.

## What the proofs show about the code

Most properties hold as documented. These do not, and are stated with the exact condition:

- Onboarding is at-most-once in every run iff there is a single conductor (`AtMostOneStartIff`, with
  `TwoConductorsCanBothOnboard` for every larger number). A re-read starts onboarding iff nobody has
  written the package state yet and nobody is loading or failed while loading (`RereadStartsIff`).
- A late failure takes back a finished onboarding, however many conductors there are
  (`LateFailureUndoesOnboarding`). The last write decides the package state, so a saved onboarding
  survives iff no clean-up has written since the last save (`OutcomeIff`, `SavedSurvivesIff`).
- An attempt that resumes at NOTIFY_COMPLETED with the VNF in ERROR reports COMPLETED and leaves the
  VNF pending, except for change_ext_conn (`CompletedStatusIff`, `CompletedWhilePending`). Terminate
  and heal can get there; instantiate cannot (`InstantiateNeverResumesLate`).
- A fresh attempt can be left in STARTING for good: if copying the instance raises, because the handler
  uses the copy that was never bound; and if saving PROCESSING raises for a change_ext_conn, because
  nobody has set its error point and the handler uses that (`FreshAttemptEnds`, both as an iff).
- Not every failed attempt can be retried; `RetryableIff` says which, for every admitted attempt and
  every placement of exceptions. A saved failure of change_ext_conn always can. One of heal can iff
  PROCESSING was saved before it, or the ERROR write raised and left ACTIVE. One of terminate can iff
  PROCESSING was saved and the task state was reset, by the clean-up or before it; one of instantiate
  iff in addition it came before NOTIFY_COMPLETED, from where on the instance is INSTANTIATED. So a
  failure before PROCESSING is saved is a dead end unless it is that of a heal
  (`EarlyFailureIsFinal`).
- change_ext_conn has no status check in the API and is accepted for a VNF in ERROR or in a pending
  status; `RetriesKeepStatus` says what it then keeps.
- A change_ext_conn whose driver raised leaves the task state at ERROR iff the decorator could save
  it, and no retry resets it, not even one that completes; meanwhile every instantiate and terminate
  and every fresh heal is refused (`ChangeExtConnBusyIff`, `ChangeExtConnStaysBusy`).
- COMPLETED goes out marked START and without the affected resources iff collecting or saving these
  raised (`NoteContents`). ROLLED_BACK goes out although it is not stored iff the occurrence
  could be loaded and posting worked, but saving did not (`ToldIff`).
- The grant lookup pins down the granted ids exactly when the requested ones are pairwise distinct
  (`DistinctIsExact`).
- A previous page computed in memory is right exactly when the negative slice start does no harm
  (`ReversePage`).
- A vendor or tenant target that passes the special-role check need not be matched, since the pattern
  `all` matches a mere prefix (`AcceptedVendorNeedNotMatch`). When the check passes and when the
  target is matched are both stated exactly (`PreCheck`, `ExpandedContainsIff`).
- The special-role check looks at a target as it is spelled, the expansion at its lower case: a target
  that is special in lower case is beyond the check iff its leading `all` has a capital
  (`CapitalsEvadeCheck`).
- A camelCase name survives snake case exactly when each capital after a capital is followed by a
  small letter (`NameRoundTripIff`).
- Merge patch and deep update agree exactly on patches without null members (`PatchIsUpdateIff`).
- A maximum timeout below the cap becomes the cap iff it is not zero (`ZeroIsNoCap`). Lowering the
  maximum raises a timeout iff its method has no entry yet and the old default is lower, since the
  default factory then yields the maximum itself (`SetMaxCuts`).
- A blank entry in one of the link checker's skip lists makes the report empty, since the empty string
  ends every URL; it is empty iff the base page itself is skipped (`CheckSite`).
- The test in `_send_lcm_op_occ_notification` that mentions FAILED compares with FAILED_TEMP only;
  the model follows the code.

## Model

| member | source | states |
|---|---|---|
| `Onboarding.CounterCountsEvents` | tacker/conductor/conductor_server.py:495-510 | at every point of every interleaving `downloading` is the number of increments minus the number of decrements so far, exceptions and clean-ups included |
| `Onboarding.HoldingIff` | tacker/conductor/conductor_server.py:495-510 | a conductor counts as holding iff it has incremented and not decremented, told from the events alone |
| `Onboarding.ExceptionsWriteNothing` | tacker/conductor/conductor_server.py:123-168 | where exceptions are possible, and that neither they nor a raising clean-up write anything |
| `Onboarding.CounterCountsHolders` | tacker/conductor/conductor_server.py:495-510 | at every point of every interleaving, failures included, `downloading` is the number of conductors that incremented and did not decrement |
| `Onboarding.FaultFreeRoundOnboards` | tacker/conductor/conductor_server.py:495-526 | without exceptions, once everybody has returned the package is ONBOARDED and ENABLED with the counter at zero, whatever the interleaving |
| `Onboarding.FinishedRoundOutcome` | tacker/conductor/conductor_server.py:123-168 | a finished round is left PROCESSING iff nobody wrote the state, and then some conductor's clean-up raised too; CREATED iff the last write was a clean-up's, ONBOARDED iff it was a save |
| `Onboarding.ProcessingIffUnwritten` | tacker/conductor/conductor_server.py:512-526 | the package is PROCESSING exactly as long as nobody has written its state |
| `Onboarding.LastWriteDecides` | tacker/conductor/conductor_server.py:123-168 | the package state is what the last write made it, whoever wrote |
| `Onboarding.OutcomeIff` | tacker/conductor/conductor_server.py:123-168 | at every point of every run the package state is read off the writes: none, or a save or a clean-up last |
| `Onboarding.SavedSurvivesIff` | tacker/conductor/conductor_server.py:160-166 | a saved onboarding is still there later iff no clean-up has written since the last save |
| `Onboarding.OnboardingStartsUnloaded` | tacker/conductor/conductor_server.py:512-520 | onboarding starts only from a read with nobody loading and nobody having failed while loading |
| `Onboarding.FailedLoaderBlocksOnboarding` | tacker/conductor/conductor_server.py:496-520 | a conductor that failed while loading keeps every later read of the round from onboarding |
| `Onboarding.RereadStartsIff` | tacker/conductor/conductor_server.py:512-520 | a re-read starts onboarding iff nobody has written the package state before and nobody is loading or failed while loading |
| `Onboarding.RereadStartsIffBalanced` | tacker/conductor/conductor_server.py:512-520 | the same from the events alone: nobody has written, and whoever has incremented has decremented |
| `Onboarding.OpenLoadBlocksOnboarding` | tacker/conductor/conductor_server.py:496-520 | a conductor with an increment and no decrement so far, failed or not, keeps every re-read from starting |
| `Onboarding.NoStartAfterWrite` | tacker/conductor/conductor_server.py:512-526 | a consequence: once ONBOARDED or CREATED has been written nobody starts onboarding |
| `Onboarding.StartersDiffer` | tacker/conductor/conductor_server.py:495-526 | no conductor starts onboarding twice in a run |
| `Onboarding.AtMostOneStartIff` | tacker/conductor/conductor_server.py:512-520 | every run with n conductors has at most one start iff n is one |
| `Onboarding.RunsAreBounded` | tacker/conductor/conductor_server.py:495-550 | every interleaving has at most six events per conductor and two of the upload |
| `Onboarding.NoDeadlock` | tacker/conductor/conductor_server.py:495-550 | some event is possible until everybody has finished, without raising |
| `Onboarding.NextInv` | tacker/conductor/conductor_server.py:495-526 | every event keeps the invariant that ties the counter, the state and the conductors' phases together |
| `Onboarding.StaysPending` | tacker/conductor/conductor_server.py:512-520 | while the package is PROCESSING somebody is unfinished or failed without reverting |
| `Onboarding.TwoConductorsCanBothOnboard` | tacker/conductor/conductor_server.py:512-520 | for every number of conductors from two on, a run in which two of them both pass the unlocked test |
| `Onboarding.LateFailureUndoesOnboarding` | tacker/conductor/conductor_server.py:160-166 | for every number of conductors, a run in which a failing conductor resets an onboarded package to CREATED |
| `Lifecycle.Conductor.Accept` | tacker/api/vnflcm/v1/controller.py:779-794 | accepting an attempt sets the task state, except for change_ext_conn, and makes a new occurrence unless one is resumed |
| `Lifecycle.Conductor.UpdateInstance` | tacker/vnflcm/vnflcm_driver.py:323-328 | a save stores what the instance object has, or nothing if it raises |
| `Lifecycle.Conductor.CallDriver` | tacker/vnflcm/vnflcm_driver.py:150-178 | what a driver leaves of the instance, and that a raising one other than that of instantiate ends with the task state ERROR unless saving it raises |
| `Lifecycle.Conductor.ChangeVnfStatus` | tacker/conductor/conductor_server.py:703-725 | compare-and-set: it raises unless the status is among the allowed ones, and writes otherwise |
| `Lifecycle.Conductor.UpdateVnfAttributes` | tacker/conductor/conductor_server.py:727-799 | compare-and-set from a pending status; a failure after the row update still commits the new status unless the repair fails |
| `Lifecycle.Conductor.Save` | tacker/objects/vnf_lcm_op_occs.py:63-88 | every save writes the state and the error point of the object, the resource changes only if there are any |
| `Lifecycle.Conductor.SendNotification` | tacker/conductor/conductor_server.py:1721-1836 | only the first block lets an exception out; which columns are written how often, and which notification goes out if any, for every set of raising calls in the other two blocks |
| `Lifecycle.Conductor.CollectData` | tacker/conductor/conductor_server.py:1769-1828 | the second block: unbound data iff building it raised, how far the data is filled in otherwise, and that its save repeats the state |
| `Lifecycle.Conductor.GrantStep` | tacker/conductor/conductor_server.py:245-305 | a raising grant step resets the task state if it can, stores ROLLED_BACK if it can load and save the occurrence, sends it if it can load and post, and raises again |
| `Lifecycle.Conductor.Claim` | tacker/conductor/conductor_server.py:2055-2063 | the opening compare-and-set to the pending status, from ERROR on a retry and from the start status otherwise |
| `Lifecycle.Conductor.Open` | tacker/conductor/conductor_server.py:2535-2557 | the opening that all four share: which call makes it fail, at which error point, with none bound yet for change_ext_conn |
| `Lifecycle.Conductor.InstantiateMain` | tacker/conductor/conductor_server.py:2044-2095 | the main block fails exactly if a call on its path raises or a compare-and-set misses; at which error point, with which status and instance, and which writes and notifications |
| `Lifecycle.Conductor.TerminateMain` | tacker/conductor/conductor_server.py:2135-2186 | the same for terminate, which ends INACTIVE |
| `Lifecycle.Conductor.HealMain` | tacker/conductor/conductor_server.py:2239-2297 | the same for heal |
| `Lifecycle.Conductor.ChangeExtConnMain` | tacker/conductor/conductor_server.py:2536-2580 | the same for change_ext_conn, whose driver runs on every resume and whose error point is unset at first |
| `Lifecycle.Conductor.CleanUp` | tacker/conductor/conductor_server.py:2097-2124 | ERROR is written and, by instantiate and terminate, the task state reset as far as the calls go through; FAILED_TEMP is saved with the error point unless an unbound copy or an unset error point gets in the way |
| `Lifecycle.Conductor.Run` | tacker/conductor/conductor_server.py:2034-2124 | exactly what one attempt leaves in the database, writes to the operation state on the way, and sends, for every placement of exceptions |
| `Lifecycle.FreshAttemptEnds` | tacker/conductor/conductor_server.py:2034-2322 | a fresh attempt ends COMPLETED or FAILED_TEMP, or ROLLED_BACK with the status untouched exactly if the grant raised; it stays put exactly if copying the instance raised, or saving PROCESSING for a change_ext_conn |
| `Lifecycle.CompletedIsFinal` | tacker/conductor/conductor_server.py:1737-1836 | the occurrence ends with the state written last; once COMPLETED is written nothing else is and the attempt does not raise; it is written iff the attempt succeeds |
| `Lifecycle.ToldIff` | tacker/conductor/conductor_server.py:1768-1836 | COMPLETED and FAILED_TEMP are told iff saved, built and posted, ROLLED_BACK iff loaded and posted; an outcome is told without being stored iff it is a ROLLED_BACK whose save raised |
| `Lifecycle.NoteContents` | tacker/conductor/conductor_server.py:1784-1826 | what each notification says: an outcome is a RESULT with resources iff these were collected and saved, has connectivity iff that was converted too, and then the error if it is a failure; PROCESSING and ROLLED_BACK carry nothing more |
| `Lifecycle.NotificationFaultsAreHarmless` | tacker/conductor/conductor_server.py:1768-1836 | running the code on equal records without and with exceptions behind the two handlers ends with equal records and raises alike, so none undoes COMPLETED |
| `Lifecycle.CompletedStatusIff` | tacker/conductor/conductor_server.py:2055-2095 | COMPLETED comes with ACTIVE, for terminate with INACTIVE, iff the driver block ran or the status was right before and no claim was made |
| `FaultTables.RunsByTable` | tacker/conductor/conductor_server.py:2034-2322 | a fresh attempt with one raising call ends as the table of its operation says, for every call: status, operation state, error point and instance, and whether it raises |
| `FaultTables.StatusByTable` | tacker/conductor/conductor_server.py:2034-2322 | with the ERROR write raising as well the VNF keeps the start status, the pending status of its operation or the final one, by table |
| `FaultTables.RetryFromError` | tacker/conductor/conductor_server.py:2034-2322 | a retry from ERROR asks for no grant, claims at every error point, runs its driver up to VNF_CONFIG_END, that of change_ext_conn always, and what it completes with |
| `FaultTables.ResumedHealStaysBusy` | tacker/vnflcm/vnflcm_driver.py:957-989 | a heal resumed past POST_VIM_CONTROL no longer resets the task state in its driver |
| `FaultTables.RetryFromPending` | tacker/conductor/conductor_server.py:2034-2322 | a retry that finds its own pending status goes on without a claim past NOTIFY_PROCESSING and completes |
| `Retries.RetriesKeepStatus` | tacker/conductor/conductor_server.py:2034-2322 | after every attempt of any chain of retries of which none resumes a terminate or heal past VNF_CONFIG_END: COMPLETED means the target status, ROLLED_BACK the status of the beginning, and unless that attempt's ERROR write failed no pending status is left and a failure has left ERROR, a DEAD VNF aside |
| `Retries.InstantiateNeverResumesLate` | tacker/api/vnflcm/v1/controller.py:751-755 | no chain of instantiate attempts resumes at NOTIFY_COMPLETED, since the instance is INSTANTIATED or busy by then |
| `Retries.TwoRetriesSettle` | tacker/conductor/conductor_server.py:2034-2322 | an admitted retry without exceptions completes with the promised status, at once if the status is ERROR, and otherwise leaves a record whose next such retry is admitted and does |
| `Retries.RetryableIff` | tacker/api/vnflcm/v1/controller.py:80-167 | for every admitted attempt and every placement of exceptions, whether some retry passes the checks on status, instantiation and task state afterwards |
| `Retries.EarlyFailureIsFinal` | tacker/api/vnflcm/v1/controller.py:155-167 | a consequence: a saved failure before PROCESSING is recorded at INITIAL and can be retried iff it is that of a heal whose ERROR write failed and left ACTIVE |
| `Retries.CompletedWhilePending` | tacker/conductor/conductor_server.py:2253-2297 | a heal and a flawless retry that end COMPLETED with the VNF in PENDING_HEAL |
| `Retries.CompletedInstance` | tacker/conductor/conductor_server.py:2082-2285 | what COMPLETED leaves of the instance: INSTANTIATED or NOT_INSTANTIATED and idle, for heal idle, for change_ext_conn unchanged |
| `Retries.CompletedAdmitsNext` | tacker/api/vnflcm/v1/controller.py:751-960 | after a completed attempt that ran its driver a fresh request passes all checks iff it is an instantiate after a terminate or any other operation after the other three |
| `Retries.ChangeExtConnBusyIff` | tacker/vnflcm/vnflcm_driver.py:150-178 | a change_ext_conn leaves the instance busy iff it was before or its driver raised and the task state ERROR was saved; a refused grant resets it |
| `Retries.ChangeExtConnStaysBusy` | tacker/conductor/conductor_server.py:2533-2607 | once busy the instance stays so through every retry of the change_ext_conn, and the API admits no instantiate, terminate or fresh heal meanwhile |
| `Grant.CheckMembers` | tacker/conductor/conductor_server.py:1081-1089 | the nested loops decide whether every requested id is among the granted ones |
| `Grant.Check` | tacker/conductor/conductor_server.py:1063-1109 | accepted iff lengths agree and ids are included in all three lists; which list a refusal names |
| `Grant.Pigeonhole` | tacker/conductor/conductor_server.py:1063-1109 | equal lengths, distinct requested ids and one-way membership give equal multisets |
| `Grant.AcceptedIffSameIds` | tacker/conductor/conductor_server.py:1063-1109 | with distinct requested ids a grant is accepted iff its ids are the requested ones with multiplicity |
| `Grant.DistinctIsExact` | tacker/conductor/conductor_server.py:1081-1089 | acceptance pins the granted ids down iff the requested ones are distinct |
| `Grant.DuplicateLetsForeignIdIn` | tacker/conductor/conductor_server.py:1081-1089 | with a duplicate request a grant is accepted that holds an id which was never requested |
| `HealPairing.FindUnused` | tacker/conductor/conductor_server.py:1408-1414 | the first old VNFC of the same VDU that is not used yet, or none |
| `HealPairing.UnpairedExists` | tacker/conductor/conductor_server.py:1400-1414 | with equal counts per VDU an unused old VNFC is left for every new one |
| `HealPairing.PairedIsBijection` | tacker/conductor/conductor_server.py:1400-1414 | the finished pairing is a VDU-preserving bijection |
| `HealPairing.RewriteFirst` | tacker/conductor/conductor_server.py:1416-1430 | the first entry with the old id is replaced in place; an unbound id raises as soon as there is an entry |
| `HealPairing.RenameOneMore` | tacker/conductor/conductor_server.py:1416-1430 | rewriting one more id is renaming by one more pair |
| `HealPairing.InitAddResources` | tacker/conductor/conductor_server.py:1398-1430 | the pairing is a bijection that gives each new VNFC the first unused old one of its VDU; entry by entry the constraints have the new ids marked GRANT and are unchanged otherwise; the affinity list names their groups, and one definition is added per new VNFC |
| `HealPairing.PairMapAt` | tacker/conductor/conductor_server.py:1408-1424 | the renaming takes each old id to the new id of its own pair |
| `Ordering.CmpAntisymmetric` | tacker/api/api_common.py:301-316 | swapping the rows turns the comparison's sign |
| `Ordering.CmpTransitive` | tacker/api/api_common.py:301-316 | the multi-key comparison is transitive, NULLs included |
| `Ordering.FlipReverses` | tacker/db/db_base.py:174-175 | flipping all directions reverses the order |
| `Ordering.SortBySorts` | tacker/api/api_common.py:300-317 | the sorted list is sorted and a permutation |
| `Ordering.FirstKeyOrder` | tacker/api/api_common.py:301-316 | by the first key NULLs come before values and values ascend, or the other way round if descending |
| `Ordering.SortedUnique` | tacker/db/sqlalchemyutils.py:26-27 | with distinguishing keys there is only one sorted arrangement |
| `Ordering.FlippedSort` | tacker/db/db_base.py:174-191 | sorting by flipped directions is sorting and reversing |
| `Ordering.AfterIsSuffix` | tacker/db/sqlalchemyutils.py:80-98 | keeping the rows after a marker and sorting gives the rest of the sorted table |
| `Keyset.AfterIffBreaksTie` | tacker/db/sqlalchemyutils.py:28-33 | a row is after the marker iff it ties on some first keys and breaks the tie on the next |
| `Keyset.CriterionIsAfter` | tacker/db/sqlalchemyutils.py:80-98 | the OR of ANDs holds exactly of the rows strictly after the marker, for mixed directions |
| `Keyset.PaginateQuery` | tacker/db/sqlalchemyutils.py:53-103 | when a query is built and when refused, over which key, and that it selects exactly the rows after the marker |
| `Pages.GetCollection` | tacker/db/db_base.py:169-192 | a page is the window of up to `limit` rows after, or before, the marker in the sorted table |
| `Pages.QueryWindow` | tacker/db/sqlalchemyutils.py:62-101 | the query answers with the window after its marker |
| `Pages.FlippedWindow` | tacker/db/db_base.py:189-191 | a window of the reversed table read backwards is the window on the other side |
| `Pages.WithKey` | tacker/api/api_common.py:257-259 | the given sorts stay in front, the primary key ends up among them, and nothing is added iff it was there |
| `Pages.Request` | tacker/api/api_common.py:186-200 | one page request from a link gives the page the link means and the next links |
| `Pages.TiesComeById` | tacker/api/api_common.py:257-259 | rows that the given sorts do not tell apart are served by ascending id, so all rows if none are given |
| `Pages.FollowNext` | tacker/api/api_common.py:93-100 | following "next" returns the whole sorted table, each row once and in order, in n / limit + 1 requests |
| `Pages.NextThenPrevious` | tacker/api/api_common.py:83-100 | "next" from a full page to a non-empty one and then "previous" returns the original page |
| `Pages.FollowPrevious` | tacker/api/api_common.py:83-90 | following "previous" from the last page and putting the pages in front of each other returns the whole sorted table as well, in n / limit + 1 requests |
| `Pages.BackwardStep` | tacker/api/api_common.py:83-100 | the links of a previous page: "previous" goes on in front of it and is absent iff nothing can be left, "next" goes to the rows right after it |
| `Pages.PreviousThenNext` | tacker/api/api_common.py:83-100 | "next" of the page in front of a row leads to the rows from it on |
| `EmulatedPages.Paginate` | tacker/api/api_common.py:236-247 | where the search for the marker ends and which Python slice is returned |
| `EmulatedPages.ForwardPage` | tacker/api/api_common.py:236-247 | sorting and slicing in memory gives the window after the marker |
| `EmulatedPages.SameForwardPage` | tacker/api/api_common.py:236-259 | with the primary key among the sorts the page sliced in memory and the page of the keyset query are the same |
| `EmulatedPages.ReversePage` | tacker/api/api_common.py:236-246 | the previous page in memory is the window before the marker iff the marker is first, or at least `limit` rows in, or `limit` is at least the list length plus the marker position; without a marker only on the empty list |
| `Policy.ConvertRoles` | tacker/policy.py:149-156 | the attributes of a key are `*` and what the roles name |
| `Policy.RolesByPrefix` | tacker/policy.py:138-156 | a role names a value iff in lower case it is `area_`, `vendor_` or `tenant_` and the value |
| `Policy.CheckKey` | tacker/policy.py:158-180 | a special target passes iff the user holds a fitting special role |
| `Policy.RefusedWithoutRoles` | tacker/policy.py:137-180 | which targets a user without roles is refused, for each of the three keys |
| `Policy.ValidAreaIff` | tacker/common/utils.py:186-193 | a valid area is word characters, an `@` and at least one more word character |
| `Policy.Expand` | tacker/policy.py:182-232 | every wildcard goes, one target comes per covering wildcard, the rest stays; no removal fails |
| `Policy.ExpandedContainsIff` | tacker/policy.py:182-232 | the target is in the result iff named directly or via `all`, `all@all` or `all@` its region; nothing else is gained |
| `Policy.AcceptedAreaIsMatched` | tacker/policy.py:158-232 | an `all@region` target that passes the check is matched afterwards |
| `Policy.AcceptedVendorNeedNotMatch` | tacker/policy.py:158-232 | a vendor target `all` that passes the check and is matched by nothing |
| `Policy.CapitalsEvadeCheck` | tacker/policy.py:158-187 | a target special in lower case passes the check whoever asks iff its leading `all` has a capital |
| `Policy.PreCheck` | tacker/policy.py:77-236 | all three steps in terms of the roles: when the check refuses and when the prepared target is among the attributes |
| `Extensions.Merge` | tacker/api/extensions.py:478-487 | merging a contribution, in any order of its resources: attribute by attribute its definition wins and the old one stays otherwise, and nothing else is defined |
| `Extensions.Visit` | tacker/api/extensions.py:466-489 | one extension is dropped, postponed or merged, keeping the invariant |
| `Extensions.Pass` | tacker/api/extensions.py:464-492 | a pass processes something, or everything left is waiting for requirements |
| `Extensions.ExtendResources` | tacker/api/extensions.py:450-501 | for every requirement graph and dictionary order: the processed set is the least closed one, merged in an order that puts requirements first; each attribute ends with the definition of the last processed extension that contributes to it, or as it was; the rest is reported |
| `Extensions.RequirementsFirstAt` | tacker/api/extensions.py:472-489 | each extension is merged after all it requires, and once |
| `Extensions.LogsStayBelow` | tacker/api/extensions.py:472-489 | any order respecting requirements stays within every closed set |
| `Extensions.LeastClosedUnique` | tacker/api/extensions.py:459-497 | the processed set does not depend on the dictionary's order |
| `Extensions.CyclesAreStuck` | tacker/api/extensions.py:490-497 | extensions in a requirement cycle are never processed |
| `Crawler.HandleLink` | tools/link_validate.py:137-158 | one anchor is skipped, queued or checked, and stays justified |
| `Crawler.HandlePage` | tools/link_validate.py:133-161 | all links of a fetched page are taken care of |
| `Crawler.Visit` | tools/link_validate.py:106-161 | one turn of the loop keeps soundness and completeness and makes progress |
| `Crawler.Crawl` | tools/link_validate.py:81-163 | on any finite link graph the crawl ends, lists each URL once with its verdict, and lists exactly the reachable pages and the documents they refer to; read off the results, everything but the start is linked from a listed passing page of the base documentation, and everything allowed that such a page links to is listed |
| `Crawler.SkippedIff` | tools/link_validate.py:54-61 | a URL is skipped iff it ends in a listed extension, has a listed pattern inside, or starts with `https:` and no slash |
| `Crawler.CheckSite` | tools/link_validate.py:39-61 | with the configured rules everything listed passes the skip rules and, the base page aside, lies in the allowed domain and is linked from a listed page under the base URL that passed; the report is empty iff the base page is skipped |
| `Crawler.CrawlIsExact` | tools/link_validate.py:101-163 | an empty queue means that everything reachable or referred to is listed, and nothing else |
| `Crawler.ReferencedIsElsewhere` | tools/link_validate.py:149-158 | a referenced document is never also a crawled page |
| `MergePatch.PatchIdempotent` | tacker/common/utils.py:492-503 | applying a merge patch twice is applying it once |
| `MergePatch.PatchAlongPath` | tacker/common/utils.py:492-503 | at any depth: a null removes, another value that is no object is put in place, and what the patch does not lead to stays |
| `MergePatch.UpdateAlongPath` | tacker/common/utils.py:244-251 | the same for the deep update, which puts nulls in place |
| `MergePatch.PatchOfNonObject` | tacker/common/utils.py:492-503 | patching a non-object gives the patch iff it has no null members, and never leaves any |
| `MergePatch.PatchIsUpdateIff` | tacker/common/utils.py:244-251 | merge patch and deep update of objects agree iff the patch has no null members |
| `Dicts.Dict.MergeMember` | tacker/common/utils.py:496-501 | one member of the patch removes or patches one member of the target, in place |
| `Dicts.Dict.Merge` | tacker/common/utils.py:496-502 | in any order of keys the target becomes MergePatch of section 2 of RFC 7396 |
| `Dicts.JsonMergePatch` | tacker/common/utils.py:492-503 | the in-place code computes MergePatch of RFC 7396 for every target and patch, and returns the target itself if both are objects |
| `Dicts.Dict.Update` | tacker/common/utils.py:244-251 | in any order of keys the in-place deep update computes the deep update |
| `CaseConversion.PassesUnderscore` | tacker/common/utils.py:356-361 | the two substitutions together put one underscore before each marked capital and nowhere else |
| `CaseConversion.NameRoundTripIff` | tacker/common/utils.py:356-361 | a name survives the round trip iff each capital after a capital is followed by a small letter |
| `CaseConversion.KeyRoundTrip` | tacker/common/utils.py:431-440 | keys with a leading underscore and no capitals survive as well |
| `CaseConversion.KeysStayApart` | tacker/common/utils.py:356-361 | no two surviving keys become one |
| `CaseTrees.ConvertToSnake` | tacker/common/utils.py:364-391 | the recursive loops compute the snake-cased tree |
| `CaseTrees.ConvertToCamel` | tacker/common/utils.py:394-451 | the recursive loops compute the camel-cased tree |
| `CaseTrees.TreeRoundTrip` | tacker/common/utils.py:364-451 | snake-casing and camel-casing a tree with such keys gives the same tree, order included |
| `CaseTrees.SnakeMembersAre` | tacker/common/utils.py:376-382 | no keys are merged: one member for each, in order |
| `CaseTrees.SnakeTreeIsSmall` | tacker/common/utils.py:364-391 | snake-casing any tree leaves no capital in any key, lists and nested objects included, additional parameters aside |
| `CaseTrees.LastKeyWins` | tacker/common/utils.py:376-382 | where several keys become one the last gives the value, and no key comes out twice |
| `CaseTrees.ParamsUntouched` | tacker/common/utils.py:378-382 | what is under additional parameters is not touched |
| `Readers.CooperativeReader.ReadSome` | tacker/common/utils.py:542-562 | an unsized read returns the rest of the buffer or else the next chunk, empty iff that chunk is empty or missing |
| `Readers.CooperativeReader.ReadExactly` | tacker/common/utils.py:563-591 | a sized read returns exactly min(length, remaining) bytes and raises iff request and stream both reach the cap |
| `Readers.CooperativeReader.ReadMany` | tacker/common/utils.py:533-591 | for any mix of reads below the cap, bytes returned and bytes left are the original stream |
| `Readers.LimitingReader.Read` | tacker/common/utils.py:624-629 | never more than the limit in total; for sized and unsized reads it raises iff the source refuses or the bytes due take the count past the limit, and it keeps raising |
| `Readers.IterateLimited` | tacker/common/utils.py:616-622 | chunks are yielded up to the first that overruns the limit |
| `RpcTimeouts.FreshCappedIff` | tacker/common/rpc.py:103-122 | the initial state keeps the bounds iff the configured timeout is positive |
| `RpcTimeouts.RunCapped` | tacker/common/rpc.py:114-132 | in every interleaving each method's timeout is positive and at most the current cap |
| `RpcTimeouts.CallsOnlyRaise` | tacker/common/rpc.py:140-174 | starts and timeouts never lower a timeout and never move the cap |
| `RpcTimeouts.RetriesDouble` | tacker/common/rpc.py:150-174 | k timeouts in a row give min(t0 * 2^k, cap) |
| `RpcTimeouts.TimeoutsTakeHighest` | tacker/common/rpc.py:140-174 | in any interleaving of calls a method's timeout ends at the highest value one of its calls asked for |
| `RpcTimeouts.ConcurrentTimeoutsRaiseOnce` | tacker/common/rpc.py:140-174 | any number of calls started at the same value raise it only once |
| `RpcTimeouts.SetMaxCuts` | tacker/common/rpc.py:124-132 | a cap reduction lowers a timeout iff it is above the new cap, and raises it to the cap iff its method has no entry yet and the old default is lower |
| `RpcTimeouts.ZeroIsNoCap` | tacker/common/rpc.py:120-132 | a maximum below the cap becomes the cap iff it is not zero; zero leaves ten times the configured timeout as the cap and cuts every timeout to nothing |
| `RpcTimeouts.ResetRestores` | tacker/common/rpc.py:114-122 | after a reset every method is at the configured timeout and the cap at ten times it |
| `RpcTimeouts.TimeoutMakesEntry` | tacker/common/rpc.py:140-174 | starts and timeouts make an entry for their method; a timeout of a call never started changes nothing |
| `RpcTimeouts.ContextWrapper.StartCall` | tacker/common/rpc.py:140-150 | starting a call is the start event |
| `RpcTimeouts.ContextWrapper.TimeOut` | tacker/common/rpc.py:153-174 | handling a timeout is the timeout event |
| `RpcTimeouts.ContextWrapper.SetMaxTimeout` | tacker/common/rpc.py:124-132 | lowering the maximum is the cap event |
| `RpcTimeouts.ContextWrapper.ResetTimeouts` | tacker/common/rpc.py:114-118 | resetting is the reset event |

## Left out

- A second upload that resets the counter while an earlier round is still loading.
- Retries.Admitted: leaves out the checks on a request's contents, such as its VNFC ids and its VIM connection, and faults of the API itself.
- The rollback and fail operations of the API, which reset the task state from outside.
- Scale and rollback: nearly all of their logic is in the VIM-side driver.
- The VIM, Heat, Kubernetes and key-manager drivers, the glance store and HTTP: inputs of the model, not part of it.
- The part of `_init_add_resources` that lists virtual links, ports and storages: it copies fields.
- Other parts of the clean-up handlers than the status write and the final save: they touch instance data that is not modelled.
- Lifecycle.Conductor.Save: other columns of an operation occurrence, such as the error details and the entry time, and a concurrent writer of the same occurrence.
- Dicts.Dict.UpdateMember: copies a new object value, where the code shares it with the argument; the sharing is not modelled.
- Extensions.Merge: works on values, so that an extension's own dictionary being extended later through the shared map is not modelled.
- Extensions.ExtendResources: says which extensions have their attribute-map update called, not that a postponed one has it called once per pass.
- RpcTimeouts.ContextWrapper.TimeOut: is one step, so that a switch between the comparison and the assignment is not modelled; nor is the random wait.
- SQL NULL ordering in keyset pages, filters, and the subscription list, whose query has an order of its own.
- `user_attrs.update(credentials)` at the end of the policy preprocessing, and the evaluation of rules.
- The branch of `CooperativeReader` for sources with their own `read`: it passes calls through.
- urldefrag: cuts at the first `#`; that it also normalises a URL it has cut is not modelled.
- urljoin: links come already joined; a page whose handling breaks off contributes the links before that point.
- Unicode letters in case conversion and in `\w`.
- Memory units, flattening of dictionaries and the field-copying object classes: easy members only.
