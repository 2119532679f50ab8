# gpo-lens, verified models

A Dafny 4.11 model of the parts of gpo-lens whose correctness spans functions, runs or whole inputs, with proofs of
what the code and its documentation promise about them. `dafny verify dfyconfig.toml` checks everything.

| files | component |
|---|---|
| `Lifecycle`, `LifecycleInvariant`, `LifecycleHistory`, `LifecycleRuns`, `LifecycleDelta`, `LifecycleExamples`, `FindingStore` | the finding lifecycle: three tables, evaluation runs, imports, deletions, and the reconstructions of past runs |
| `Triage`, `TriageSweep`, `TriageLog` | the append-only triage log, its two readers and the expiry sweep |
| `Estate`, `GpoIndex`, `Topology`, `ChainRanking`, `Rollup`, `RollupExactness`, `Dn` | the index of GPOs, chain folding, conflicts, when two chains resolve alike, the signature-cached rollup, distinguished names |
| `Cse`, `GppActions`, `Merge`, `MergeTheorems`, `ScopeAgreement` | per-extension merging, the preference action machine, loopback merge, agreement with the view at one scope |
| `Sids`, `Token`, `Gate`, `Collection`, `Resultant`, `ResultantTheorems` | a principal's token, the security filter, and the resultant policy end to end |
| `Declaration`, `CatFile` | the publication verdict over the commit graph and its size-framed reader |
| `RegistryPol`, `RegistryPolTheorems` | the Registry.pol parser |
| `Sddl`, `SddlParser`, `SddlRoundTrip` | the security descriptor parser |
| `Prelude`, `Sorting`, `Text` | options, a stable sort, ASCII text |

Where the source works by changing things step by step, so does the model: the finding store and the triage log are
classes whose methods update tables, and loops over dictionaries, queues, cursors and counters are methods with
invariants. Each is proved against a specification function, and the theorems are about those functions: over every
sequence of steps from the empty store (`Exec(EMPTY, steps)`), every chain, every token, every byte string.

Some things the code does differ from what its text or a first reading suggests; the model follows the code.

- A run with duplicate fingerprints is only partial, so it never resolves anything.
- The difference of two adjacent runs, reconstructed later from rows, is not always what the later run reported. A
  finding that a partial-coverage run leaves open unseen persists in the next run's result and is new in the difference
  (`IndeterminateThenSeenAgain`); that partial run resolves nothing, and the difference lists the finding as resolved
  (`UnseenIsResolvedInDifference`); a regression left unseen once is listed one run too late (`MissedRegressionIsListed`).
  `DeltaAgreesExactly` says for any two adjacent runs when each of the four counts agrees; after a complete first run
  three always do (`DeltaAgrees`).
- Deleting a snapshot also removes findings from older as-of counts (`DeletionLowersOlderCount`). `DeletionAsOf` says
  exactly when the count stays, `DeletionCritical` which rows count as critical afterwards.
- The accepted-risk register ignores acknowledgements, the fold does not (`AcknowledgementMasks` is a log of two events).
  `RegisterAgreesWithFold` is an equivalence whose only exception is a live acceptance followed by an acknowledgement.
- The expiry sweep stamps its events with the wall clock, not with the `now` it was asked about, so an acceptance stamped
  later stays due (`LateAcceptanceStaysDue`). `SweepExactly` says for each due occurrence that it settles iff the sweep's
  stamp is not earlier than the standing acceptance.
- The rollup documents output identical to the scope-by-scope walk. `RollupIsExact` gives the exact condition for given
  scopes and all estates: every scope must be cached under a chain alike to its own, and two chains are alike iff
  they link the same GPOs equally often and rank every two of them the same way, or link fewer than two. Paths that
  differ by more than case together with distinct orders are enough (`UntiedIsCachedAlike`); `TiedOrdersDiverge` and
  `CollidingPathsDiverge` are estates on which the outputs differ. The display name, taken from whichever setting is
  listed first, and the order of rows that tie on the sort key are not part of the agreement.
- The loopback offset lifts the computer chain above the user chain unless a computer link has a negative order, which
  ingestion accepts. `LoopbackMergeExactly` makes that an equivalence: the computer chain prevails for all contents iff
  the user chain is empty or no computer order is negative.
- `max` keeps the first of tied items where the action machine keeps the last, so two tied drive maps have different
  winners in the merge and in the view at one scope (`TiedDrives`). `ScopeViewAgreesExactly` says for which links the two
  agree in every estate on settings that only update.
- In a bucket with item-level targeting only the targeted items are listed; the others of that key are neither merged
  nor listed (`UntargetedSiblingIsUnlisted`), and the accounting theorem says so item by item.
- A GPO excluded by the user walk is skipped without a new entry in the computer walk that shares its set, so the
  accounting theorem names the GPO and not the side. The set holds ids, and the index can hold two GPOs of one id, the
  first under the stripped id and the last under the id itself; then a refused GPO also suppresses an admissible
  namesake. `SharedIdIsDropped` is such an estate, `ContributesExactly` says when an admissible GPO contributes, and
  `OneGpoPerIdExactly` which estates have no namesakes in the index; there none is lost (`NothingAdmissibleIsDropped`).
- An empty computer identifier next to a user principal reads a token that was never built; the model returns an error.

## Model

| member | source | states |
|---|---|---|
| FindingStore.Store.RunEvaluation | src/gpo_lens/findings.py:430-723 | the engine's row-by-row loops leave exactly the tables of the specification (deduplicate, extend or open with a predecessor, resolve what vanished, relabel on duplicates) and return the counts that the tables before the run and its input determine |
| FindingStore.Store.ObserveCandidate | src/gpo_lens/findings.py:553-679 | one candidate extends the open occurrence of its fingerprint or opens one linked to the latest resolved occurrence, with one observation row; it persists iff the fingerprint was open before the run and regresses iff it was only resolved |
| FindingStore.Store.LatestResolvedRow | src/gpo_lens/findings.py:594-612 | the scan by latest resolving run finds the predecessor, and none exactly when nothing of the fingerprint was resolved |
| FindingStore.Store.ResolveUnseen | src/gpo_lens/findings.py:681-713 | closes exactly the open, unseen occurrences whose absence is meaningful and counts those and the indeterminate rest |
| FindingStore.Store.EvaluateLifecycle | src/gpo_lens/findings.py:1990-2065 | create, evaluate and label is one step of the store; a raising engine is rolled back and leaves only a run labelled failed; raising detectors and a snapshot that does not exist leave no trace |
| FindingStore.Store.SaveEvaluatedEstate | src/gpo_lens/store.py:1116-1145 | a committed import is one step; an import that raises in any of its phases leaves every table as it was |
| FindingStore.Store.DropSnapshot | src/gpo_lens/store.py:1100-1113 | the foreign-key actions, table by table, amount to the specified deletion and keep the store's invariant |
| FindingStore.Store.Difference | src/gpo_lens/findings.py:1493-1565 | the rows give the set differences of the two runs, and the regressed list names each regressed fingerprint once |
| FindingStore.Deduplicate | src/gpo_lens/findings.py:461-478 | kept are exactly the candidates whose fingerprint no earlier one has, in order, and every other one is counted |
| LifecycleInvariant.ReachableStoresAreConsistent | src/gpo_lens/findings.py:461-702 | every step of every history keeps the whole invariant of the three tables; without deletions also the linear predecessor chain |
| LifecycleInvariant.OccurrencesAreConsecutiveIntervals | src/gpo_lens/findings.py:461-702 | in every reachable store two occurrences of a fingerprint are intervals one after the other: first seen <= last seen < resolved < next first seen; so at most one is open |
| LifecycleInvariant.PredecessorsAreExact | src/gpo_lens/findings.py:594-646 | in every history without deletions each occurrence names exactly the immediately preceding one of its fingerprint, and the first names none |
| LifecycleInvariant.PredecessorIsEarlierAndResolved | src/gpo_lens/store.py:281-300 | deletions included, a predecessor is an earlier, resolved occurrence of the same fingerprint |
| LifecycleInvariant.DeleteKeepsInv | src/gpo_lens/store.py:281-300 | the cascades of a snapshot deletion keep intervals, predecessors, observation rows and counters consistent |
| LifecycleInvariant.DeletionExactly | src/gpo_lens/store.py:281-300 | findings first and last seen elsewhere stay, unchanged but for a predecessor that did not survive and a resolving snapshot that was deleted; runs of other snapshots stay, and the rows that join the two |
| LifecycleHistory.TimeTravel | src/gpo_lens/briefing.py:308-317 | for any history whose newest run is r and any deletion-free continuation, the as-of query for r counts the occurrences open right after r, and the critical ones then |
| LifecycleHistory.AsOfCountsOccurrences | src/gpo_lens/briefing.py:308-317 | the query's join yields one row for each occurrence open as of r, neither more nor less |
| LifecycleHistory.DeletionAsOf | src/gpo_lens/store.py:1100-1113 | a deletion takes from an older count exactly the occurrences it first or last saw, and leaves the count alone iff there are none |
| LifecycleHistory.DeletionCritical | src/gpo_lens/briefing.py:308-317 | after a deletion a row counts as critical as of r iff it is critical and the latest up to r among its occurrence's surviving rows; surviving critical rows keep counting, and one that counts only now replaces a row of the deleted snapshot's runs |
| LifecycleExamples.DeletionLowersOlderCount | src/gpo_lens/store.py:1100-1113 | a history of two imports whose second snapshot, once deleted, takes the finding out of the first run's count |
| LifecycleHistory.ResolutionIsJustified | src/gpo_lens/findings.py:681-713 | whatever is resolved in run r was resolved by the step that ran r: completed, without duplicates, not having seen it, with full coverage or its GPO collected again |
| LifecycleHistory.ResolvedIsFinal | src/gpo_lens/findings.py:461-702 | no later step, deletions included, reopens a resolved occurrence or reuses its id |
| LifecycleRuns.RunCarries | src/gpo_lens/findings.py:553-679 | after a run every distinct candidate has one occurrence that carries the run, a row of it and the candidate's severity: the occurrence that was open, or a fresh one with the predecessor |
| LifecycleRuns.RunStoresFirst | src/gpo_lens/findings.py:464-679 | what a run stores for a fingerprint is its first candidate: one open occurrence, last seen by the run, with that candidate's severity in the table and in the run's row; the one that was open, with the origin it had, or a fresh one of that candidate's |
| LifecycleRuns.RunLeavesOthers | src/gpo_lens/findings.py:681-713 | an occurrence of a fingerprint that a run did not see changes only by being resolved, and only if the run may resolve it |
| LifecycleRuns.RegressionIsPredecessor | src/gpo_lens/findings.py:602-612 | an occurrence seen in a run and not open before it has a predecessor exactly when the fingerprint had been resolved before |
| LifecycleDelta.DeltaAgreesExactly | src/gpo_lens/findings.py:1493-1565 | for adjacent runs a and b of any status and coverage, after any history and before any deletion-free one: the reconstructed new and persisting counts each equal what b reported iff b sees nothing that was open and unseen by a; the regressed count iff none of that has a predecessor; the resolved count iff what a saw and b leaves undecided is as much as what b resolves beyond a |
| LifecycleDelta.DeltaAgrees | src/gpo_lens/findings.py:1493-1565 | after a complete run a the new, persisting and regressed counts always agree, and the resolved count iff b leaves nothing of a undecided, which a complete b does not |
| LifecycleExamples.IndeterminateThenSeenAgain | src/gpo_lens/findings.py:1493-1565 | a history on which they disagree: seen, left indeterminate by a partial-coverage run, seen again is persisting in the run's result and new in the difference |
| LifecycleExamples.UnseenIsResolvedInDifference | src/gpo_lens/findings.py:1493-1565 | seen, then left indeterminate: the run resolves nothing and the difference lists the finding as resolved |
| LifecycleExamples.MissedRegressionIsListed | src/gpo_lens/findings.py:1493-1565 | seen, resolved, seen again, left indeterminate, seen again: the last run reports no regression and the difference lists one |
| Triage.FoldTriage | src/gpo_lens/findings.py:826-881 | the loop over mutable status variables computes the fold of the sorted events |
| Triage.FoldIsOrderFree | src/gpo_lens/findings.py:815-823 | the folded status does not depend on the order in which rows are read |
| Triage.FoldAccepts | src/gpo_lens/findings.py:826-881 | the fold reports an accepted risk iff an acceptance is followed by nothing but comments, and reports that acceptance's rationale and expiry |
| Triage.FoldAcknowledges | src/gpo_lens/findings.py:826-881 | the fold reports an acknowledgement iff one is followed only by comments and by expiries or revocations that found nothing to close; else, with no standing acceptance, the occurrence is open |
| Triage.FoldReports | src/gpo_lens/findings.py:826-881 | actor, note and time are the last event's; only an accepted risk carries an end and a rationale |
| Triage.LogOrder | src/gpo_lens/findings.py:815-823 | events are read by instant, at an equal instant those that open last, then by id |
| Triage.OpeningWinsTies | src/gpo_lens/findings.py:815-823 | with nothing later than an opening action no acceptance survives, whatever is recorded at the same instant |
| Triage.RegisterAgreesWithFold | src/gpo_lens/findings.py:1568-1652 | register and fold agree on whether a live acceptance exists as of t iff no acknowledgement follows the live acceptance; when the fold reports one, the register shows it with the same rationale and expiry |
| Triage.UpToExactly | src/gpo_lens/findings.py:1595-1603 | visible as of an instant are exactly the events stamped no later, each as often and in the order as recorded |
| Triage.RowMeans | src/gpo_lens/findings.py:1604-1652 | a register row shows the last acceptance, expired iff an expiry follows it or its end has come, and revoked by the last later event that reopens or revokes |
| Triage.AcknowledgementMasks | src/gpo_lens/findings.py:1568-1652 | a log of an acceptance and an acknowledgement that the register shows as accepted and the fold as acknowledged |
| TriageSweep.AcceptedRiskRegister | src/gpo_lens/findings.py:1568-1652 | an occurrence is in the register iff an acceptance of it is stamped no later than the instant; its row is that of the scan of its own visible events |
| TriageSweep.LaterEventsAreInvisible | src/gpo_lens/findings.py:1595-1603 | an event stamped after the instant, wherever it stands in the log, changes nothing in the register |
| TriageSweep.LoadTriageStatusMap | src/gpo_lens/findings.py:924-954 | the group-by pass holds a status for exactly the occurrences with events, each the fold of its own events |
| TriageSweep.BatchedIsPerOccurrence | src/gpo_lens/findings.py:884-954 | the batched map agrees with reading and folding one occurrence at a time |
| TriageLog.Log.AppendTriageEvent | src/gpo_lens/findings.py:731-800 | refuses blank rationales, decisions on unstable subjects and unknown occurrences without touching the log; otherwise appends exactly the truncated event with a fresh id |
| TriageLog.Log.ExpireRiskAcceptances | src/gpo_lens/findings.py:957-1005 | appends one expiry for each due occurrence, stamped by the clock at that moment, and reports their number |
| TriageSweep.SweepExactly | src/gpo_lens/findings.py:957-1005 | an occurrence that was not due folds as before; one that was due becomes open iff the clock is not behind its standing acceptance, and stays due otherwise |
| TriageSweep.DueExactly | src/gpo_lens/findings.py:979-984 | due is an occurrence whose standing acceptance has an end that is not after the sweep's instant |
| TriageSweep.LateAcceptanceStaysDue | src/gpo_lens/findings.py:957-1005 | a sweep over an acceptance stamped after the sweep's clock, after which it is due again |
| TriageSweep.SweepSettles | src/gpo_lens/findings.py:957-1005 | with a clock behind no stored event nothing is due after the sweep, so a second sweep finds nothing |
| GppActions.ResolveGppActions | src/gpo_lens/merge.py:376-405 | the current/deleted loop over the stably sorted items computes the machine's survivor |
| Cse.ActionsExactly | src/gpo_lens/merge.py:247-250 | which action letters and words create, replace, update and delete; no action updates, and any other is not recognised |
| Cse.AccumulatesExactly | src/gpo_lens/merge.py:174-213 | the action machine takes preference items, software installation, and folders redirected with merge and without replace |
| GppActions.SurvivorClosedForm | src/gpo_lens/merge.py:376-405 | something survives iff an item opens the setting after the last Delete (an Update only if there is no Delete at all); the survivor is the last Replace or Update from the first opening item on, else that item |
| GppActions.PlainUpdatesAgree | src/gpo_lens/merge.py:376-405 | among Updates and Replaces the survivor is the item of greatest order, the last on a tie; with distinct orders it is the winner of every other mode |
| Merge.MergeBucket | src/gpo_lens/merge.py:327-373 | winner and overridden list of one bucket by the first item's mode |
| Merge.MergeSettings | src/gpo_lens/merge.py:426-488 | the bucketing loops decide every key as specified: a merged setting, a withheld list, or neither |
| MergeTheorems.ResolveSound | src/gpo_lens/merge.py:327-488 | a merged setting's winner is an enabled-side setting an entry of the chain makes under that key, never a targeted preference item; outside the action machine nothing has a greater order; every occurrence not of the winner's order is listed as overridden once |
| MergeTheorems.SettingAccounted | src/gpo_lens/merge.py:426-488 | every enabled-side setting of the chain has a winner under its key, exactly unless the key is withheld by item-level targeting or the action machine removed it; under a withheld key it is listed exactly if its own GPO is targeted |
| MergeTheorems.UntargetedSiblingIsUnlisted | src/gpo_lens/merge.py:462-480 | two GPOs mapping one drive, the first with item-level targeting: the second's is neither merged nor listed |
| MergeTheorems.OnlyDeletesRemove | src/gpo_lens/merge.py:376-405 | the action machine removes a setting only if some item deletes it or has an unrecognised action |
| MergeTheorems.SidesAreIndependent | src/gpo_lens/merge.py:442-488 | erasing all settings of the other side from every entry changes no outcome |
| MergeTheorems.LoopbackMerge | src/gpo_lens/merge.py:1132-1174 | with the computed offset a bucket is the user chain's items followed by the raised computer items; if the offset outranks, the computer chain wins outside the action machine whenever it sets the key, and the machine takes every user item first |
| MergeTheorems.OutranksExactly | src/gpo_lens/merge.py:1152-1163 | every raised entry is above every user entry iff the user chain is empty or no computer link has a negative order |
| MergeTheorems.LoopbackMergeExactly | src/gpo_lens/merge.py:1132-1174 | the computer chain prevails for every content of entries with these orders iff the offset outranks |
| MergeTheorems.AgreesWithScopeView | src/gpo_lens/topology.py:603-633 | the merge and the per-scope view name the same winner outside the action machine, and within it for plain updates of distinct orders |
| ScopeAgreement.ScopeViewAgreesExactly | src/gpo_lens/topology.py:603-633 | given the links, merge and per-scope view agree in every estate on every setting that runs through the action machine with updates alone and that no GPO makes twice, iff no two links tie apart: the first and the last link of greatest order to some two GPOs are never different links |
| ScopeAgreement.TiedDrives | src/gpo_lens/merge.py:376-405 | two links of one order whose GPOs map one drive: the view keeps the first, the action machine the last |
| Token.BuildToken | src/gpo_lens/merge.py:536-593 | terminates on cyclic group graphs; the token is the least set that holds the seeds and is closed under member-to-group edges; every unexplained domain identifier in it is caveated exactly once |
| Token.SeedsExactly | src/gpo_lens/merge.py:546-560 | the token starts from the principal, Everyone, Authenticated Users unless anonymous, and Domain Computers for a computer of a domain or Domain Users for anyone else of one |
| Token.ComputersAreCollected | src/gpo_lens/authz.py:390-430 | a computer is an identifier that is not well known and was first collected as one |
| Token.IndexMembers | src/gpo_lens/merge.py:562-565 | the reverse index lists for each member exactly the groups that list it |
| Gate.ApplyTrusteeSids | src/gpo_lens/merge.py:649-726 | the loops over delegation entries or ACEs collect the specified allow and deny sets; the descriptor is read only without delegation data |
| Gate.DelegationVerdict | src/gpo_lens/merge.py:683-708 | with delegation data the gate opens iff some allowing entry for Apply Group Policy or Full Control names the token and no denying entry for a reading permission does |
| Gate.DelegationReason | src/gpo_lens/merge.py:795-817 | a refusal says denied iff a denying entry names the token, and nobody allowed iff otherwise no allowing entry has a known trustee |
| Gate.ReadingAdmitsNobody | src/gpo_lens/merge.py:683-685 | allowing entries for Read or Edit alone admit nobody |
| Gate.DeniedReadCloses | src/gpo_lens/merge.py:686-687 | a denied Read closes the gate to its trustee, whatever is allowed |
| Gate.TrusteeExactly | src/gpo_lens/merge.py:675-692 | an entry's own identifier counts, and only without one its name is looked up; a relative identifier needs the domain |
| Gate.DescriptorVerdict | src/gpo_lens/merge.py:710-723 | with a descriptor alone the gate opens iff an allowing ACE gives some trustee of the token GA or CR and no denying ACE names that trustee and right, and no denying ACE gives any trustee of the token GA, GR, CR or RP |
| Gate.OrderDoesNotMatter | src/gpo_lens/merge.py:649-817 | the verdict depends neither on the order nor on repetitions of entries or ACEs |
| Gate.SpellingDoesNotMatter | src/gpo_lens/merge.py:710-723 | the verdict is unchanged when trustees are written by alias or by identifier |
| Gate.PrintedSpellingDoesNotMatter | src/gpo_lens/authz.py:753-798 | the same for two printed descriptors, through the descriptor parser |
| Gate.DenyingEntryNeverOpens | src/gpo_lens/merge.py:689-708 | one more denying entry, anywhere, never turns a refusal into a pass, even where it makes the descriptor count no more |
| Gate.DenyingAceNeverOpens | src/gpo_lens/merge.py:710-723 | nor does one more denying ACE |
| Sids.CanonicalIsIdempotent | src/gpo_lens/authz.py:369-387 | canonicalizing a canonical identifier changes nothing, for the domain of any principal or none |
| Sids.AliasesExactly | src/gpo_lens/authz.py:325-387 | what the commonest aliases stand for, the domain's with the domain; anything longer than an alias is itself in lower case |
| Sids.DomainIsAllButLast | src/gpo_lens/merge.py:506-514 | the domain of an identifier with seven parts or more is all of it but the last part |
| Resultant.TrusteeIsItsIdentifier | src/gpo_lens/merge.py:506-533 | with the domain a request derives, a trustee and its canonical identifier are one |
| Resultant.WellKnownNamesStay | src/gpo_lens/merge.py:601-612 | no collected principal or group can take over a well-known name |
| Resultant.NamesExactly | src/gpo_lens/merge.py:601-613 | any other name leads to whoever claims it first: principals in turn by display name and account name, then groups |
| Resultant.FirstDomainDecides | src/gpo_lens/merge.py:517-533 | the estate's domain is that of the first collected identifier that has one |
| Collection.CollectChainEntries | src/gpo_lens/merge.py:931-1007 | the walk with its shared exclusion list and set gathers what the specification gathers |
| Collection.CollectIsSound | src/gpo_lens/merge.py:931-1007 | everything a walk gathers was admitted, every exclusion it records is true of an enabled link; every GPO the token does not admit is on the list, with or without settings, and every other linked GPO contributed, had nothing for the side, or is shadowed by a refused GPO of its id that is on the list |
| Collection.ContributesExactly | src/gpo_lens/merge.py:955-1005 | an admissible GPO with settings contributes at its link, except iff the walk shares a set and the GPO's id was handed over in it or refused at an earlier link |
| Collection.SharedIdIsDropped | src/gpo_lens/merge.py:955-960 | an estate of two GPOs with one hyphenated id, whose index holds both, where a walk drops the admissible one's setting |
| GpoIndex.BuildGpoIndex | src/gpo_lens/model.py:292-333 | the loop files each GPO under its own id, taking it from whoever holds it, and under its stripped id if that is free |
| GpoIndex.IndexedExactly | src/gpo_lens/model.py:292-333 | a key leads to the last GPO whose id it is, else to the first whose stripped id it is, and there are no other keys |
| GpoIndex.OneGpoPerIdExactly | src/gpo_lens/model.py:292-333 | the index never holds two GPOs of one id iff whoever is first under a stripped id that is no GPO's id is also the last of its own id |
| GpoIndex.DistinctIdsHaveNoNamesakes | src/gpo_lens/model.py:313-330 | which is so when ids are distinct |
| Resultant.OneModeIsActive | src/gpo_lens/merge.py:1101-1109 | no mode, the one mode all enabled loopback GPOs agree on, or mixed |
| Resultant.LoopbackExactly | src/gpo_lens/merge.py:1101-1109 | no mode iff no enabled link's GPO configures one, the one that all of them configure, and mixed for any two different ones |
| Resultant.ResolveChain | src/gpo_lens/merge.py:775-792 | if a scope that is no site lies at or above a non-empty name, the links of the first scope under the path of the nearest one; otherwise those of the first domain, otherwise of the first scope that is no site, otherwise none |
| Resultant.ChainIsDetermined | src/gpo_lens/merge.py:775-792 | there is exactly one such chain |
| Resultant.NothingIsNearer | src/gpo_lens/merge.py:775-785 | the scope found is at an ancestor and no closer ancestor has a scope that is no site; without one no ancestor has |
| Resultant.Deduplicated | src/gpo_lens/merge.py:1207-1215 | keeps the first exclusion of each GPO, kind and side, in the order recorded |
| Resultant.FirstsAreKept | src/gpo_lens/merge.py:1207-1215 | kept are exactly the exclusions whose GPO, kind and side were not recorded earlier; every such key is kept, and once |
| Resultant.KeptInOrder | src/gpo_lens/merge.py:1207-1215 | what is kept of an earlier part of the list is a prefix of what is kept of all |
| Resultant.PrincipalResultant | src/gpo_lens/merge.py:1010-1222 | fails exactly when an empty computer identifier accompanies a user; otherwise delivers the merge of what a request with the principal's and computer's least tokens, chains and loopback mode gathers |
| Resultant.SourcesExactly | src/gpo_lens/merge.py:1085-1205 | walk by walk: alone the principal's chain with both tokens; in a pair the computer's chain for the Computer side, the user's for the User side unless replaced, and in loopback the computer's chain for the User side with the computer's token alone |
| ResultantTheorems.GatherIsSound | src/gpo_lens/merge.py:1111-1215 | in every loopback mode the gathered entries, the exclusions and the links of every walk are justified and settled |
| ResultantTheorems.EverySettingIsJustified | src/gpo_lens/merge.py:1010-1222 | each resulting setting's winner is an enabled link of a chain used for that side, passes the gate for the token used, has no WMI filter, is not from a disabled side and is no targeted preference item |
| ResultantTheorems.PrecedenceDecides | src/gpo_lens/merge.py:1010-1222 | for a principal alone, outside the action machine, a setting is won at its own order by an admitted link of the chain, and no admitted link whose GPO makes the setting has a greater order |
| ResultantTheorems.EveryGpoIsAccountedFor | src/gpo_lens/merge.py:931-1222 | in every loopback mode, a GPO of an enabled link that its walk's token does not admit is on the policy's list of exclusions, whatever else sets its keys; one that is admitted enters the merge with all it has for the side, and each of those settings is of the winner's order or listed as overridden, or lies under a withheld key and is listed there iff its GPO is targeted, or was removed by the action machine; unless a refused GPO of the same id shadows it and is listed |
| ResultantTheorems.NothingAdmissibleIsDropped | src/gpo_lens/merge.py:1010-1222 | in every loopback mode, what a linked GPO contributes to a walk whose token admits it arrives in the merge or a refused GPO of its id shadows it; where every id names one GPO it always arrives |
| ResultantTheorems.EveryExclusionIsFair | src/gpo_lens/merge.py:931-1007 | every listed exclusion gives a reason that holds of a linked GPO for one of the request's tokens and sides |
| ResultantTheorems.LoopbackMergeBuckets | src/gpo_lens/merge.py:1132-1174 | in loopback merge a User-side key holds the user entries and the raised computer entries, a Computer-side key the computer chain's own |
| ResultantTheorems.LoopbackMergeWinner | src/gpo_lens/merge.py:1132-1174 | in loopback merge every User-side key that is no preference has a winner iff one chain sets it, of the greatest order among the user items and the raised computer items; if the offset outranks, an item of the computer chain whenever that chain sets the key |
| Dn.SplitDnLoop | src/gpo_lens/topology.py:74-99 | the backslash-counting loop cuts at exactly the commas preceded by an even run |
| Dn.JoinUndoesSplit | src/gpo_lens/topology.py:74-99 | joining the parts of a name with commas gives the name back |
| Dn.SplitIsWellFormed | src/gpo_lens/topology.py:74-99 | no part holds an unescaped comma, and no part but the last ends in an escape |
| Dn.SplitUndoesJoin | src/gpo_lens/topology.py:74-99 | splitting the join of some parts returns them iff they are well formed |
| Dn.FindParentSom | src/gpo_lens/topology.py:102-124 | returns a scope that is no site at the closest proper ancestor that has one, the last listed of that path, or nothing if none has |
| Dn.AncestorIsSuffix | src/gpo_lens/topology.py:102-124 | without spaces around separators the ancestors are the name's own suffixes at component boundaries |
| Dn.CloserAncestorIsLonger | src/gpo_lens/topology.py:102-124 | so the ancestor met first is the longest suffix, and all others are shorter suffixes of it |
| Topology.FoldChainToBuckets | src/gpo_lens/topology.py:323-388 | one bucket for every key that an enabled link's collected GPO sets on an enabled side, in chain order; nothing for an unknown or unlinked scope |
| Topology.EnabledExactly | src/gpo_lens/topology.py:335-337 | a chain holds exactly the enabled links of its scope, with their orders, as listed |
| Topology.SomConflicts | src/gpo_lens/topology.py:391-425 | exactly the settings in conflict at the scope, with winner and contenders |
| Topology.ConflictMeans | src/gpo_lens/topology.py:403-423 | a setting is in conflict iff two GPOs set it and two values differ; the winner's order is greatest, and each name and value is listed exactly as often as it occurs, marked iff the winner made it |
| Topology.SettingsAtSom | src/gpo_lens/topology.py:603-633 | for every key the chain sets the strongest occurrence, with the lower ones overridden in chain order |
| Estate.StrongestIsFirst | src/gpo_lens/topology.py:612-612 | the strongest occurrence is the first of those with the greatest order |
| Rollup.PrecedenceConflictRollup | src/gpo_lens/topology.py:477-527 | for every estate: a row lists a path as often as scopes of that path that are no sites have the conflict at the path of the first scope with their enabled links; every such scope is in a row; rows come by blast radius, extension and identity |
| Rollup.NaiveScopesCount | src/gpo_lens/topology.py:428-442 | the walk counts each scope with links that is no site and at whose path the conflict is found |
| Text.LexLeExactly | src/gpo_lens/topology.py:526-526 | names sort by prefix or first difference |
| Rollup.GroupConflicts | src/gpo_lens/topology.py:499-510 | resolving each signature once attributes to every conflict the scopes of exactly the signatures whose representative has it |
| Rollup.GroupingIsCached | src/gpo_lens/topology.py:477-510 | the loop over signatures attributes to each conflict exactly the scopes whose signature's first scope path resolves to it |
| ChainRanking.WinnerIsLeader | src/gpo_lens/topology.py:391-425 | the winner of a setting is the leader among the GPOs that make it: the first of the greatest order among the links to them |
| ChainRanking.ResolveAlikeIffAlike | src/gpo_lens/topology.py:463-474 | two chains resolve to the same conflicts in every estate, and under every index at all, iff they link the same GPOs equally often and rank every two of them alike, or each links fewer than two |
| RollupExactness.RollupIsExact | src/gpo_lens/topology.py:477-510 | for given scopes, with no condition on paths or orders, the cached attribution equals the scope-by-scope walk in every estate, and under every index at all, iff every scope is cached under a chain alike to its own |
| RollupExactness.RowsAreNaive | src/gpo_lens/topology.py:477-527 | then the rows are the rows of the walk |
| RollupExactness.DistinctPathsExact | src/gpo_lens/topology.py:463-493 | where no two paths agree up to case, that condition is that scopes of one signature rank every two of their GPOs alike |
| RollupExactness.UntiedIsCachedAlike | src/gpo_lens/topology.py:463-493 | which holds when links of equal order in a scope name one GPO |
| RollupExactness.TiedOrdersDiverge | src/gpo_lens/topology.py:486-493 | two scopes listing two tied links the other way round: the rollup's rows are not the walk's |
| RollupExactness.CollidingPathsDiverge | src/gpo_lens/topology.py:486-505 | two paths that differ by case only, and a third scope with the second one's signature: the rollup's rows are not the walk's |
| Rollup.RollupIsCanonical | src/gpo_lens/topology.py:511-527 | any two rollups hold the same rows, and at every position rows with the same sort key |
| Declaration.AbsentDeclarationVerdict | scripts/check_committed_identifiers.py:560-664 | skips iff on every parent path from HEAD and from every tip the first declaration, if any, is a clean private one; a HEAD that does not resolve is a skip only in a repository without commits |
| Declaration.SweepDecidesPaths | scripts/check_committed_identifiers.py:656-664 | the single reverse-topological pass decides, for every commit, the statement about all its parent paths |
| Declaration.BelowSomeTip | scripts/check_committed_identifiers.py:618-619 | every commit of the graph lies on a parent path from some tip, so none escapes the verdict |
| Declaration.SkipSupersedes | scripts/check_committed_identifiers.py:560-599 | after a skip, on every path from a tip to a declaration that is not cleanly private, a clean private one comes first |
| CatFile.ReadBatch | scripts/check_committed_identifiers.py:640-655 | the size-framed reader with its byte cursor maps each blob to its content, or fails on a missing or malformed header |
| CatFile.BatchRoundTrip | scripts/check_committed_identifiers.py:640-655 | reading a printed batch gives back every content, whatever line breaks or headers the contents hold |
| RegistryPol.ParseRegistryPol | src/gpo_lens/registry_pol.py:149-232 | the scan over the buffer yields the located records |
| RegistryPol.ReadUtf16Null | src/gpo_lens/registry_pol.py:123-146 | the bytes before the first NUL code unit and the offset after it, or the rest of the buffer |
| RegistryPolTheorems.RoundTrip | src/gpo_lens/registry_pol.py:149-232 | parsing a printed record list, with or without the header, data bytes arbitrary, returns the list ([MS-GPREG] section 2.2.1) |
| RegistryPolTheorems.Truncation | src/gpo_lens/registry_pol.py:149-232 | any file cut after n bytes, printed or not, yields exactly the records of the whole file that end within those bytes |
| RegistryPolTheorems.PrintedTruncation | src/gpo_lens/registry_pol.py:149-232 | a printed file cut after n bytes yields exactly the records printed wholly within them |
| SddlRoundTrip.ParseDescriptor | src/gpo_lens/authz.py:753-798 | the section loop over the sorted starts computes the parsed descriptor |
| SddlRoundTrip.DescriptorRoundTrip | src/gpo_lens/authz.py:753-798 | parsing a printed descriptor returns owner, group, flags and both ACE lists in order; a balanced conditional expression appended to an ACE has no effect ([MS-DTYP] section 2.5.1) |
| SddlRoundTrip.ParsePrintedAce | src/gpo_lens/authz.py:671-690 | a printed ACE parses back to its six fields |
| SddlParser.FindSectionStarts | src/gpo_lens/authz.py:693-715 | the depth-tracking scan finds the first marker of each section outside parentheses |
| SddlParser.ExtractAces | src/gpo_lens/authz.py:718-738 | the depth-tracking scan appends the parsed text of each outermost parenthesis |
| Sddl.ParseSddlRights | src/gpo_lens/authz.py:632-663 | the two-character walk and the mask table compute the rights of each part |
| Sddl.RightsRoundTrip | src/gpo_lens/authz.py:632-663 | a concatenation of valid right codes, grouped by bars or not, parses back to exactly those codes |

## Left out

- SQL text, connections, permissions and schema migrations: tables are maps keyed by AUTOINCREMENT ids, with the stated foreign-key actions.
- Fingerprint hashing, JSON encoding and prose fields: a fingerprint is an abstract key; summaries, evidence, notes' wording and error summaries are dropped, warnings too.
- Rows written before evaluation runs existed, resolved by snapshot only, and the warning about GPO-wide enforced-link identities: a resolved row always names its run here.
- The cascade that removes triage events with a deleted occurrence: the triage log has no deletion step.
- FindingStore.Store.RunEvaluation: requires the newest run id, created for this evaluation and without rows; the source takes any id, but every caller of it creates the run first. The status a run carries between the engine and its completion is the one the caller gave, or partial on duplicates; a caller that never completes a run is modelled only as a failed evaluation.
- FindingStore.Store.EvaluateLifecycle: a database failure between the engine's commit and the run's final label, which leaves the engine's changes under a failed run, is not modelled; a raising engine and raising detectors are.
- FindingStore.Store.LoadActive: does not model the order of rows; with at most one open row per fingerprint it has no effect.
- Instants are integers; parsing of timestamps and time zones is not modelled.
- Text is ASCII: lower-casing, stripping and space are those of ASCII characters, and the leniencies of Python's `int` and `split` towards underscores and other spaces are not modelled.
- Sorted lists of pairs, triples or names that have no ties of interest are multisets or sets: contenders of a conflict, scopes of a row, signatures, difference tuples.
- Topology.SomConflicts: the order of the list and the display name of a conflict are left out.
- Topology.SettingsAtSom: the order of the list is left out.
- Merge.MergeSettings: the order of the two result lists is left out; they are maps by key.
- Token.BuildToken: the order of the caveats follows the iteration order of a set in the source and is left open.
- Cse.ModeOf: the raw subtree of a setting is reduced to its action and the tags of its children.
- Resultant.PrincipalResultant: loopback modes per GPO and the set of GPOs with item-level targeting are inputs; conditional dangers, labels, caveat wording and the approximation messages are left out.
- `enforced` links and blocked inheritance: the collector resolves them into link orders, as in the source.
- Dn.FindParentSom: `inheritance_blocked` on scopes that were not collected is not visible to it, as the source says.
- `resolve_principal_input`, `applies_broadly` and the other broad-trustee predicates of `authz.py`: single-branch lookups beside the gate.
- Declaration.AbsentDeclarationVerdict: running git, the whole-history and object checks and the reading of a declaration's text are inputs; so is the topological order of the listing.
- CatFile.ReadBatch: works on characters, not bytes; the framing is the same.
- RegistryPol.ParseRegistryPol: strings stay byte sequences; decoding of UTF-16 and of values for display is left out.
- SddlRoundTrip.ParseDescriptor: the warning on an oversized descriptor is left out, the empty result is not.
- Ingestion, web, reports, trends, snapshot differences of settings, the event hash chain and the danger rule table: input and output, or members that would add only easy statements.
