# TransferGW: a Dafny model of the migration controller

TransferGW moves traffic from Kubernetes Ingresses to the Gateway API. A `TransferGW` object selects
Ingresses; each reconcile pass compiles them to HTTPRoutes and GRPCRoutes, makes the stored routes
equal to what was compiled, decides what share of the traffic the Gateway should take (schedule,
PreRollout hook, human approval, health check) and writes a status. This project models that
behaviour and proves what it guarantees over every input, every store and every run.

## Structure

| file | module | content |
|---|---|---|
| `text.dfy`, `kube.dfy`, `grouping.dfy` | `Text`, `Kube`, `Grouping` | string order, splitting, `strconv.Atoi`; the Kubernetes and Gateway API objects; grouping by key |
| `annotations.dfy` | `Annotations` | translators, the merge algebra of rule effects, the annotation loop |
| `conversion.dfy` | `Conversion` | the HTTPRoute and GRPCRoute compilers |
| `dropping.dfy`, `droppingpass.dfy` | `Dropping`, `DroppingPass` | what dropping an annotation means for a conversion and for a pass |
| `meaning.dfy` | `Meaning` | what an Ingress and an HTTPRoute offer a request, and when compilation preserves it |
| `canary.dfy`, `overlap.dfy` | `CanaryPairs`, `Overlap` | canary pairing, the in-place weighted merge, ambiguous matches |
| `collisions.dfy` | `Collisions` | which compiled routes compete for a request, and which of those overlaps are reported |
| `routes.dfy`, `convergence.dfy`, `accounting.dfy` | `RouteStore`, `Convergence`, `Accounting` | the API server's routes, one conversion pass over them, and what the pass achieves |
| `defaults.dfy` | `Defaults` | what the API server fills in, and which conversions already spell it out |
| `schedule.dfy`, `health.dfy` | `Schedule`, `Health` | int32 schedule arithmetic, threshold evaluation |
| `rollout.dfy` | `Rollout` | one pass as a function of the object and of what the pass is told |
| `validity.dfy` | `Validity` | which compiled routes the Gateway API's validation admits, and what a refused one does |
| `completion.dfy` | `Completion` | what a status that moves traffic, or is Complete, says about the routes |
| `controller.dfy` | `Controller` | `Reconcile` on a mutable status and a mutable store, proved equal to that function |
| `runs.dfy` | `Runs` | passes interleaved with spec edits: what every run keeps |
| `storeruns.dfy` | `StoreRuns` | the same runs together with the routes: when the persisted share has its routes |
| `ownership.dfy` | `Ownership` | admission of Gateway owners over histories |

The loops of the source are methods that update variables, maps and arrays; each is proved against a
specification function, and the guarantees are lemmas about those functions. Hook answers, metrics,
the clock, port lookups and the outcome of every API call are parameters, so a lemma over a run holds
whatever they are. `Controller.Reconcile` is the bridge: one call equals one `Rollout.Pass` and,
unless it ends early, exactly one pass over the store, with counters that meet the accounting every
run relies on.

A specification function that several results share (what an annotation contributes, what a path
compiles to, when a route is refused, which phase a pass ends in) is characterised once over the fields
of its inputs alone, so that the results built on it speak about those fields.

The request semantics of `Meaning` are those of the Kubernetes Ingress documentation ("Path types",
"Hostname wildcards") and of the Gateway API reference (`HTTPRouteSpec.hostnames`, `HTTPPathMatch`).

## Where the code does not do what it says

The model follows the code. Each difference is stated as an equivalence or with a concrete witness.

- Hostnames are collected across rules, so a path written for one host is also served on the others,
  a wildcard stands for more labels than before, and a catch-all rule beside a named host is lost
  (`Meaning.MeaningPreservedExactlyForSingleHost`, `Meaning.NothingLostExactlyWithoutMixing`).
- Pruning is described as removing routes whose Ingress no longer matches; it also removes the route of
  a matching Ingress whose conversion or update just failed (`Convergence.DeletedExactlyWhen`), and it
  keeps a route of the other kind when an Ingress turns from HTTP to gRPC
  (`Convergence.NoStaleKindExactlyWhen`). A labelled route in another controller's hands is deleted by
  one pass and created by the next (`Convergence.PassIsIdempotentExactlyWhen`).
- Routes are written so that the API server's defaults change nothing, lest every pass report a change.
  CORS without max age still leaves a default out, and its Ingress is reported as modified by every pass
  (`Defaults.SecondPassIsQuietExactlyWhen`, `Convergence.ReportIsExactlyTheDiffWhen`). A TLS redirect
  leaves one out as well, but never gets that far (`Validity.OnlyCorsIsRestless`).
- A TLS redirect, or an app root, becomes a redirect filter beside the backends of every rule, which the
  Gateway API's rule validation refuses; it refuses as well two filters of one type, a prefix rewrite on
  an exact path, timeouts of more than five digits or longer for the backend than for the request, and
  more than 16 paths or hosts. One such Ingress keeps the whole migration at 0
  (`Validity.WantIsValidExactlyWhen`, `Validity.InadmissibleHoldsTheRollout`).
- The persisted share is meant to rest on routes that exist; a pass that fails on an Ingress, prunes its
  route and then cannot store its status leaves the old share over the missing route
  (`StoreRuns.ShareHasItsRoutesExactlyWhen`, `StoreRuns.ShareWithoutRoutes`).
- Complete is described as every selected Ingress converted, and a partial conversion as holding the
  rollout; a paired canary that does not convert holds nothing, so Complete at 100 may leave it pending
  and carried nowhere (`Completion.CompleteMeansAllConvertedExactlyWhen`,
  `Completion.CompleteWithoutTheCanary`).
- A canary folded into a primary whose route is then refused is counted as converted
  (`Accounting.ConvertedIsLiveExactlyWhen`).
- Failed is described as all selected Ingresses having failed to convert; when the only route is refused
  after it took a canary in, the phase is Canary instead (`Completion.PhaseOverIngresses`).
- Hooks are described as called once per generation; one that refused, or whose approval was not stored
  because the pass was aborted or its write failed, is called again (`Runs.HookCanRepeatExactlyWhen`).
  PreRollout is described as asked once, before the first move away from 0; it is asked again after
  every spec edit, and a refusal takes traffic back to 0 (`Runs.HooksCalledExactlyWhen`,
  `Runs.RollbackExactlyWhen`, `Runs.EditsWithdrawApprovals`).
- A rollback alert repeats at the same generation when the status recording it could not be stored
  (`Runs.AlertCanRepeatExactlyWhenUnstored`, `Runs.AlertRepeats`).
- The schedule is meant only to advance; it falls from 100 to 0 at the first step that overflows int32
  (`Schedule.FollowsPlanExactlyWhen`, `Schedule.NeverFallsExactlyWhen`, `Schedule.ShortStepsFallBack`).
- Every health check is described as requiring the Gateway to be worse than the Ingress; a negative
  throughput delta breaks that (`Health.ComparesFairlyExactlyWhen`).
- Dropped annotations are described as ignored entirely; they are still read by the translators that
  look at their siblings, by the test for gRPC backends, and by the pairing of canaries, and, once the
  Ingresses are selected, by nothing else that reaches a route (`DroppingPass.PassesIgnoreExactlyWhen`, `Dropping.DroppingIgnoresExactlyWhen`,
  `Annotations.DroppedAffinityStillApplies`).
- The drop list is described as regular expressions (`api/v1beta1/transfergw_types.go:111`,
  `docs/SETUP.md:194`); its entries are compared with annotation names for equality
  (`Dropping.EntriesAreNamesOnly`).
- The overlap warning speaks of several Ingresses but also fires for one
  (`Overlap.ReportsConcernSeveralExactlyWhen`, `Overlap.OneIngressOverlapsItself`). And it compares
  hosts, path types, paths and Service names as written, so compiled routes can compete unreported:
  across the hosts of one Ingress, over two spellings of one match, over a path that a gRPC route does
  not keep, and between Services of one name in two namespaces (`Collisions.CoversExactlyWhen`,
  `Collisions.TwoHostsUnreported`, `Collisions.SpellingUnreported`, `Collisions.NamespacesUnreported`).
- Two creates or updates validated at the same time can claim one Gateway (`Ownership.ConcurrentAdmission`).

## Model

| member | source | states |
|---|---|---|
| Runs.NoFlapping | internal/controller/transfergw_controller.go:151-161 | Over every run from a fresh object (edits, passes, any hook answers, metrics, clock, failed writes) the generations at which a rollback is stored strictly increase: at most one rollback per generation. |
| Runs.RollbackHasWitness | internal/controller/transfergw_controller.go:352-363 | Every stored rollback of a run has a pass at that generation whose share before the health check was strictly between 0 and 100 and whose comparison breached the thresholds then in force. |
| Runs.RollbackMeansWorse | internal/health/health.go:72-78 | Unless the throughput delta is negative, each stored rollback of a run rests on a comparison in which the Gateway was strictly worse than the Ingress. |
| Runs.HeldUntilEdited | internal/controller/transfergw_controller.go:151-161 | From a stored rollback until the spec changes, any number of passes leaves object and history as they are: no hook, conversion, alert or write, and 0 percent. |
| Runs.AlertsRepeatOnlyUnstored | internal/controller/transfergw_controller.go:825-862 | If a run alerts twice at one generation, the status recording the first rollback had not been stored. |
| Runs.AlertCanRepeatExactlyWhenUnstored | internal/controller/transfergw_controller.go:382-424 | After a pass that alerts, another pass without an edit can alert again exactly when the status of the first could not be stored. |
| Runs.AlertRepeats | internal/controller/transfergw_controller.go:382-424 | It happens: two passes over a fresh migration on its first canary step, with failing status writes and a worse error rate, alert twice at generation 1. |
| Runs.ReachableInv | internal/controller/transfergw_controller.go:365-419 | Every status reachable by passes and edits keeps: unique condition types, split adding up to 100 within 0..100, Complete only at 100, RolledBack only at 0 with Ready false and RolledBack true, RollbackGeneration at most the generation and set exactly while RolledBack is true; and a stored rollback at the current generation still holds. |
| Runs.InitialInv | internal/controller/transfergw_controller.go:138-161 | A freshly created object with a schema-valid spec satisfies the invariant runs start from. |
| Runs.FullPassConsistent | internal/controller/transfergw_controller.go:330-419 | After every full pass: Complete and Ready exactly at 100; traffic above 0 only with conversions and without failures; RolledBack exactly on a breach, otherwise RollbackGeneration is 0; with PreRollout configured and a caller wired, traffic above 0 only with an approval stamped with this generation; no approval lost. |
| Runs.HeldPassConsistent | internal/controller/transfergw_controller.go:165-173 | A pass stopped by PreConversion keeps the percentage and the invariant, and leaves no approval of that stage at this generation. |
| Runs.ApprovalGate | internal/controller/transfergw_controller.go:340-380 | Under RequireApproval the written percentage is 0 or the smaller of schedule and approved percentage; the pending plan shows the unclamped schedule, 0 while PreRollout is awaited, and never less than the current share. |
| Runs.HookKeeps | internal/controller/transfergw_controller.go:972-1030 | A hook run touches no condition but its own, withdraws no approval, calls only configured stages without an approval at this generation, and lets a blocking stage pass only when approved. |
| Runs.ApprovalsStayBacked | internal/controller/transfergw_controller.go:992-1024 | Over every run each approval on record was given by a call of that stage at that generation. |
| Runs.GatesHold | internal/controller/transfergw_controller.go:165-173 | In every run, a pass that converts with PreConversion configured does so at a generation that hook has approved in this run; likewise PreRollout for any traffic above 0. |
| Runs.HookCanRepeatExactlyWhen | internal/controller/transfergw_controller.go:975-1030 | After a pass that calls a hook, a pass without an edit in between can call it again exactly when no rollback holds the migration and the answer was a refusal or went unstored. |
| Runs.ConversionsComeApproved | internal/controller/transfergw_controller.go:165-173 | In every run, each conversion with a PreConversion hook and a caller comes after an approval of that hook at that generation, in the order of events. |
| Runs.ApprovedHookNotCalled | internal/controller/transfergw_controller.go:992-996 | A pass calls no hook that has approved at its generation. |
| Runs.ApprovedOnceForAll | internal/controller/transfergw_controller.go:975-996 | Once an approval for a stage is on record, no continuation of the run calls that stage again at that generation, and the approval stays. |
| Runs.HooksCalledExactlyWhen | internal/controller/transfergw_controller.go:972-1030 | Any pass, however it ends, calls a stage exactly when it gets there (PreConversion: unless skipped; PostConversion: a full pass; PreRollout: a share above 0 is scheduled; PostRollout: 100 is written), hook and caller are configured, and no persisted approval carries the current generation. |
| Runs.RollbackExactlyWhen | internal/controller/transfergw_controller.go:330-394 | A full pass rolls back exactly when the granted share is strictly between 0 and 100, monitoring is on, the check is due and answered, and some metric condemns the Gateway; it writes 0 then and exactly the share granted by schedule, PreRollout and approval otherwise; Pending exactly when PreRollout refuses. |
| Runs.PhaseExactly | internal/controller/transfergw_controller.go:382-412 | After a full pass: Analyzing exactly when none was selected, Failed exactly when some was, none converted and some failed, Canary exactly in the remaining cases below 100; and Ready gives the reason of the phase. |
| Completion.PhaseOverIngresses | internal/controller/transfergw_controller.go:394-412 | The same over the selected Ingresses: Failed exactly when some is selected and no unpaired one gets a route or takes a canary in; Analyzing exactly when none is selected. |
| Runs.RollbackMark | internal/controller/transfergw_controller.go:382-417 | The RolledBack condition is true for a breached threshold after a rollback, and false as resumed whenever a later pass keeps it. |
| Runs.CheckTimes | internal/controller/transfergw_controller.go:722-769 | A full pass records a health check, and the next one due an interval (five minutes by default) later, exactly when traffic is split, monitoring on, a check due and a comparison at hand; otherwise both times stay. |
| Runs.AlertGoesExactlyTo | internal/controller/transfergw_controller.go:825-862 | An alert goes out exactly on a rollback: to the migration's own enabled address if it configures alerting, else to the cluster's default, never to an empty one. |
| Runs.FullPassPublishes | internal/controller/transfergw_controller.go:310-380 | Counters, readiness for rollback, transition time and, under required approval, the route changes are written as told. |
| Completion.StatusCounts | internal/controller/transfergw_controller.go:310-380 | The pending count is the number of waiting canaries, the counters add up to the selected Ingresses, and the plan lists the reported changes. |
| Rollout.PassEndsExactly | internal/controller/transfergw_controller.go:147-200 | A pass is skipped exactly when paused or rolled back at this very generation, held exactly when PreConversion is to be asked and refuses, aborted exactly when selection or a needed Gateway then fails. |
| Rollout.HeldWrites | internal/controller/transfergw_controller.go:165-173 | A held pass writes Pending, the refusal of PreConversion and the time, and leaves everything else in the status as it was. |
| Rollout.ScheduleExactly | internal/controller/transfergw_controller.go:658-675 | The share asked for is 0 over no conversion or any failure, 100 outside the gradual modes, and the schedule's for the time since creation in them. |
| Rollout.HookLeaves | internal/controller/transfergw_controller.go:1004-1029 | A called hook leaves its answer, Approved or Blocked, and the generation it was asked at, and lets the pass go on exactly if it approved or does not block. |
| Runs.EditsWithdrawApprovals | internal/controller/transfergw_controller.go:975-979 | In every reachable state a spec edit leaves no stage approved at the new generation. |
| Runs.ShareMonotone | internal/controller/transfergw_controller.go:658-712 | While the planned values fit int32 (always, in modes without a schedule) the share the spec asks for stays in 0..100 and never falls as time passes. |
| Runs.LongStepsFitThroughout | internal/controller/transfergw_controller.go:697-705 | With steps of at least 430 seconds they fit at every time. |
| Runs.PassMovesForward | internal/controller/transfergw_controller.go:330-368 | One pass over a conversion without failures never lowers the share of a settled migration, unless it rolls back. |
| Runs.PassLowersExactlyWhen | internal/controller/transfergw_controller.go:330-368 | A full pass lowers a settled share exactly when there is one and it rolls back, or a conversion failed, or none succeeded. |
| Runs.NeverBackwards | internal/controller/transfergw_controller.go:330-368 | Within one generation, over conversions without failures, a clock that does not run backwards, and planned values that fit int32 at the times of the passes, the stored share never decreases over any number of passes except by a rollback. |
| Runs.FullPassSettles | internal/controller/transfergw_controller.go:330-368 | Any full pass over a conversion without failures reaches the state `NeverBackwards` starts from. |
| Rollout.TrafficInRange | internal/controller/transfergw_controller.go:330-363 | The stages of the percentage only ever lower it: written ≤ clamped ≤ gated ≤ scheduled, all within 0..100; 100 is written only without breach or pending approval. |
| Rollout.FindAfterSet | internal/controller/transfergw_controller.go:914-943 | Setting a condition decides that type, resets its observed generation, keeps the transition time unless the status flips, and leaves what is found for every other type alone. |
| Controller.Reconcile | internal/controller/transfergw_controller.go:138-430 | One call returns exactly what the pass function says about what the call was told; a full pass is exactly one store pass with conserved counters; a share above 0 means every selected Ingress that is no paired canary has its route; an early return leaves every route alone. |
| Completion.TrafficMeansRoutes | internal/controller/transfergw_controller.go:658-671 | Whenever the written share is above 0, every selected Ingress that is no paired canary has the route wanted for it in the store. |
| StoreRuns.ShareHasItsRoutesExactlyWhen | internal/controller/transfergw_controller.go:299-424 | At any moment of any run of object and routes with a persisted share above 0: the Ingresses of the last full pass, paired canaries aside, have the routes wanted for them exactly when that pass stored its status or failed on none of them. |
| StoreRuns.ShareWithoutRoutes | internal/controller/transfergw_controller.go:299-424 | It fails otherwise: from a fresh object, a pass that moves all traffic, then one whose route call and status write fail, leave a share of 100 and no route. |
| StoreRuns.SameObject | internal/controller/transfergw_controller.go:138-430 | The object of such a run is the object of a run of `Runs`. |
| Completion.NoneFailedExactlyWhen | internal/controller/transfergw_controller.go:221-297 | No failure is counted exactly when each of those Ingresses is wanted a route nobody refuses. |
| Completion.CompleteMeansAllConvertedExactlyWhen | internal/controller/transfergw_controller.go:310-316 | A Complete status counts every selected Ingress as converted exactly when, in every canary pair, neither Ingress is marked gRPC and both backends convert. |
| Completion.CompleteWithoutTheCanary | internal/controller/transfergw_controller.go:257-287 | Any pair whose primary can be routed and whose canary cannot ends, in an immediate migration, Complete at 100 with one Ingress pending. |
| Completion.StrayPairExists | internal/controller/transfergw_controller.go:257-287 | Such a pair: a canary on a resource backend. |
| Validity.WantIsValidExactlyWhen | internal/conversion/engine.go:217-230 | A wanted route meets the Gateway API's rules on filters, backends, rewrites, timeouts and the number of rules and hostnames exactly when its Ingress has at most 16 paths and 16 hosts and, unless it is marked gRPC, its annotations give no redirect, no two filters of one type, no rewrite of a path that is to match exactly, and timeouts of at most five digits whose request part covers the backend part. |
| Validity.InadmissibleHoldsTheRollout | internal/controller/transfergw_controller.go:658-671 | If the API server enforces these rules, one selected Ingress that breaks them keeps the written share at 0. |
| Validity.OnlyCorsIsRestless | internal/conversion/annotation/nginx/cors.go:75-79 | If the API server enforces these rules, an Ingress reported as modified by every pass is one with CORS and no max age. |
| Controller.StatusObject.SetCondition | internal/controller/transfergw_controller.go:914-934 | In place: the condition list becomes the specified one (first entry of the type replaced, transition time kept when the status is the same, otherwise appended). |
| Controller.StatusObject.FindCondition | internal/controller/transfergw_controller.go:936-943 | Finds the first condition of a type, or reports that none has it. |
| Controller.StatusObject.RunHook | internal/controller/transfergw_controller.go:981-1030 | In place: answer, conditions and whether the hook was called are those of the specified hook run. |
| Controller.ConvertAndPrune | internal/controller/transfergw_controller.go:204-308 | Pairing, conversion, application and pruning together are one store pass for the pairing of the selected set, with accounted counters. |
| Convergence.PassConverges | internal/controller/transfergw_controller.go:221-308 | For any prior store, after a pass whose pruning completes: the keys labelled for the migration are exactly the applied keys; each applied route has exactly its spec with the API server's defaults, the migration's labels and owner, and everything else as before; every route neither labelled nor applied is untouched. |
| Convergence.AppliedExactly | internal/controller/transfergw_controller.go:221-297 | The applied routes are exactly those wanted by a selected unpaired Ingress and refused neither by the API server nor by a foreign controller reference in the prior store. |
| Convergence.RefusedExactlyWhen | internal/controller/transfergw_controller.go:527-581 | A route is refused exactly when its call fails or, in the migration's own namespace, a stored route has a controller of another kind or name. |
| Convergence.ForeignRoutesStay | internal/controller/transfergw_controller.go:527-651 | No pass changes a route in its own namespace that another controller holds and that does not carry its label. |
| Convergence.MigrationsKeepApart | internal/controller/transfergw_controller.go:527-651 | What a pass of one migration applied in their namespace, a pass of another of that namespace leaves as it is, whatever the two select. |
| Convergence.RecreationKeepsRoutes | internal/controller/transfergw_controller.go:547-549 | A migration created anew under its name, with another uid, takes its routes over. |
| Convergence.DeletedExactlyWhen | internal/controller/transfergw_controller.go:602-651 | A labelled route disappears exactly when every route wanted under its key was refused (or none was wanted). |
| Convergence.FailureDeletesTheRoute | internal/controller/transfergw_controller.go:233-236 | So a matching Ingress whose conversion or update fails loses the route an earlier pass gave it. |
| Convergence.NoStaleKindExactlyWhen | internal/controller/transfergw_controller.go:217-217 | The labelled routes, kind included, are exactly those wanted and not refused, exactly when the prior store held no labelled route with a wanted, unrefused route of its key and the other kind. |
| Convergence.ChangesAreTheDiff | internal/controller/transfergw_controller.go:583-651 | The reported changes are the difference between the stores, add, modify and remove each exactly for the keys it happened to, plus a modify for each update the API server's defaults undo. |
| Convergence.ReportIsExactlyTheDiffWhen | internal/controller/transfergw_controller.go:583-651 | The report is exactly the difference exactly when no applied route leaves a defaulted field out over a store that already holds its outcome. |
| Convergence.PassIsIdempotentExactlyWhen | internal/controller/transfergw_controller.go:583-600 | For any defaulting by the API server: repeating a pass on its own outcome changes nothing exactly when no wanted, labelled route was in another controller's hands, and reports nothing exactly when, besides, every applied route equals its defaulted form. |
| Convergence.PassKeepsDefaults | internal/controller/transfergw_controller.go:527-581 | Under an idempotent defaulting, every pass leaves every stored route defaulted. |
| Defaults.SecondPassIsQuietExactlyWhen | internal/conversion/route.go:103-117 | Under the Gateway API's defaults: a repeated pass reports nothing exactly when no route is contested and no Ingress that gets an HTTPRoute asks for a TLS redirect or for CORS without max age. |
| Defaults.WantIsVerbatimExactlyWhen | internal/conversion/engine.go:246-254 | A wanted route, canary folded in or not, equals its defaulted form exactly when it is a GRPCRoute or its Ingress carries no such annotation: group, kind and weight are spelled out everywhere. |
| Defaults.DefaultsSettle | internal/conversion/route.go:103-111 | The defaults are filled in once and for all. |
| Defaults.SpelledOutAsDefaulted | internal/conversion/route.go:103-117 | What conversions spell out for backends and parents is what would be filled in. |
| RouteStore.ApiServer.CreateOrUpdate | internal/controller/transfergw_controller.go:527-581 | An apply errs exactly when the call fails or a controller of another kind or name holds the route in the migration's namespace. Otherwise the stored route, defaults included, is compared with the mutated one before any defaulting: created, updated or unchanged; labels and spec set, defaults filled in on write, other labels and foreign namespaces' owners kept. |
| RouteStore.ApiServer.List | internal/controller/transfergw_controller.go:612-615 | Lists exactly the routes of a kind labelled for the migration, each once. |
| RouteStore.Produce | internal/controller/transfergw_controller.go:228-280 | The route wanted for an Ingress, canary folded in exactly when both conversions succeed as HTTPRoutes. |
| RouteStore.ConvertAndApplyOne | internal/controller/transfergw_controller.go:221-297 | The loop body: store, counters, desired keys and changes move as specified, in every branch. |
| RouteStore.ConvertAndApply | internal/controller/transfergw_controller.go:204-297 | The whole loop: store, counters, desired keys and changes are those of the specified fold over the selected Ingresses. |
| RouteStore.PruneKind | internal/controller/transfergw_controller.go:612-628 | Deletes labelled routes without desired key, one kind at a time, each once, until a call fails; all of them when none fails. |
| RouteStore.PruneOrphanedRoutes | internal/controller/transfergw_controller.go:604-651 | Both kinds: the store loses exactly the reported routes, all of which were orphans, and no orphan is left when no call fails. |
| Accounting.LoopCounts | internal/controller/transfergw_controller.go:221-316 | Each visited Ingress counts once and each folded canary once more; converted is applied routes plus folded canaries. |
| Accounting.PendingIsUnfoldedCanaries | internal/controller/transfergw_controller.go:310-316 | Pending is exactly the number of paired canaries no primary took in, so converted + failed never exceeds the total. |
| Accounting.ConvertedIsLiveExactlyWhen | internal/controller/transfergw_controller.go:257-297 | Converted equals the Ingresses carried by applied routes exactly when no primary that took a canary in was refused; otherwise it is larger. |
| Accounting.ContextFollowsPairing | internal/controller/transfergw_controller.go:219-225 | The plan of an actual pass skips the paired canaries of the selected set and folds only into their primaries. |
| Meaning.MeaningPreservedExactlyForSingleHost | internal/conversion/engine.go:176-233 | For Ingresses with Exact or Prefix (or absent) path types that convert without error: every request gets the same ordered candidates from the route as from the Ingress exactly when the rules speak of one host that is no wildcard. |
| Meaning.NothingLostExactlyWithoutMixing | internal/conversion/engine.go:200-262 | The Ingress's candidates are, for every request, a subsequence of the route's exactly when no catch-all rule with paths stands beside a rule naming a host. |
| Meaning.CandidatesCompared | internal/conversion/engine.go:203-233 | For one request: on an admitted host the route offers the Ingress's candidates in order, and more exactly when a path matches on a foreign host; on other hosts it offers nothing. |
| Meaning.SingleHostPreserves | internal/conversion/engine.go:200-262 | One precise or absent host preserves the candidates of every request. |
| Meaning.LeaksFrom | internal/conversion/engine.go:204-206 | A second host, or a wildcard, always admits a request the Ingress would not have matched. |
| Meaning.LostRequest | internal/conversion/engine.go:260-262 | A catch-all rule beside a named host always loses a request the Ingress would have served. |
| Meaning.PathReadingsAgree | internal/conversion/route.go:27-45 | The element-wise prefix of the Ingress documentation and the character-wise prefix of the Gateway API accept the same paths. |
| Meaning.CompilerAgrees | internal/conversion/route.go:27-45 | A path of a standard type compiles, without a report, to what its path and type mean on their own: absent type is Prefix, an empty path is "/". |
| Meaning.ExactIsExact | internal/conversion/route.go:39-40 | For instance, the route of one Exact path on one precise host offers its Service to exactly the requests for that host and path. |
| Conversion.ConvertIngress | internal/conversion/engine.go:180-297 | The compiler's loops produce the specified result: rules, issues and hostnames in order, for every Ingress and every registry. |
| Conversion.ConvertGRPCRoute | internal/conversion/grpc.go:61-149 | The same for the gRPC compiler. |
| Conversion.Failed | internal/conversion/engine.go:107-114 | A result failed exactly when some issue is an error. |
| Conversion.FailsExactlyWhen | internal/conversion/engine.go:180-297 | A conversion fails exactly when some backend is inconvertible or there is no path; otherwise it yields exactly one route, of the kind the annotations ask for. |
| Conversion.CompilersAgree | internal/conversion/grpc.go:61-149 | Both compilers accept the same Ingresses and agree on parent, sorted duplicate-free hostnames and ordered backends. |
| Conversion.PathsConserved | internal/conversion/route.go:88-158 | In both compilers, rules produced plus error issues equals the number of paths. |
| Conversion.BackendsKept | internal/conversion/grpc.go:75-105 | Both compilers keep every convertible backend, in order, as a rule of its own. |
| Conversion.RegexPrefix | internal/conversion/route.go:171-189 | The loop computes the specified approximation of a regular-expression path. |
| Conversion.RegexPrefixCanonical | internal/conversion/route.go:164-189 | The approximation starts with a slash, has no metacharacter, consists of exactly the longest leading run of plain non-empty segments, and is idempotent. |
| Conversion.MetaCharacters | internal/conversion/route.go:160-172 | A path looks like a regular expression exactly when it holds one of thirteen characters, and a segment is plain exactly when it holds none of them and no dot. |
| Conversion.SegmentsKept | internal/conversion/route.go:171-189 | Of the segments of a path the empty ones are skipped and all others kept, in order. |
| Conversion.PathCompiles | internal/conversion/route.go:27-71 | What every path compiles to and what is reported about it, from its path and type: the canonical prefix for a regular expression of an implementation, itself otherwise. |
| Conversion.BackendCompiles | internal/conversion/route.go:88-158 | A backend becomes exactly a core Service of weight 1 on its port number, or on what its port name resolves to; otherwise exactly the error that says why. |
| Conversion.RouteAttaches | internal/conversion/engine.go:246-260 | Every route attaches to the Gateway of the options, with its namespace named exactly if it is another one than the Ingress's. |
| Conversion.GRPCExactlyWhen | internal/conversion/grpc.go:43-50 | An Ingress is compiled to a GRPCRoute exactly when a backend-protocol annotation spells GRPC in some case. |
| Conversion.ConversionReports | internal/conversion/engine.go:180-297 | All that a conversion reports and nothing else: about its annotations, each path, default backend, TLS blocks, and the lack of rules. |
| Annotations.ConvertAnnotations | internal/conversion/engine.go:304-358 | The annotation loop computes the fold over the keys in sorted order. |
| Annotations.ConvertOne | internal/conversion/engine.go:312-354 | One annotation: dropped, unregistered, filter-only or effect, with filters, effect and issues extended as specified. |
| Annotations.TimeoutsAreLongest | internal/conversion/engine.go:384-418 | For any registry and annotations each timeout is the longest parseable contribution, or the last one when none parses. |
| Annotations.TimeoutsFromValues | internal/conversion/translator/translator.go:112-178 | The backend timeout ends as the longest parseable number of seconds among the undropped annotations registered for it, and the request timeout among those registered for that. |
| Annotations.DurationParsesExactlyWhen | internal/conversion/engine.go:399-418 | A number of seconds parses as a duration exactly up to 9,223,372,036. |
| Annotations.SessionFromValues | internal/conversion/translator/translator.go:135-143 | Session persistence is what the last annotation that turns cookie affinity on, or names its cookie under it, gives. |
| Annotations.FiltersFromValues | internal/conversion/engine.go:333-341 | The filters are exactly what the undropped registered annotations yield: for each kind of translator, from which value which filter. |
| Annotations.FiltersInKeyOrder | internal/conversion/engine.go:312-341 | Filters come in the order of the annotations that yield them. |
| Annotations.IssuesFromValues | internal/conversion/engine.go:312-354 | The reports about annotations are exactly those of their translators and of unregistered keys under a vendor prefix. |
| Annotations.TimeoutsIgnoreOrder | internal/conversion/engine.go:384-418 | When some contribution parses, the order in which annotations are visited cannot change the timeout. |
| Annotations.SessionIsLast | internal/conversion/engine.go:364-382 | Session persistence is the last contribution in key order. |
| Annotations.SessionCookieNameWins | internal/conversion/annotation/nginx/nginx.go:286-310 | Under cookie affinity a set session-cookie-name always names the cookie in the built-in registries. |
| Annotations.UnregisteredReportedOnce | internal/conversion/engine.go:312-330 | An unregistered, undropped key under a vendor prefix is reported exactly once, any other key never. |
| DroppingPass.PassesIgnoreExactlyWhen | internal/conversion/engine.go:69-84 | For every listing, store and failures of calls, a pass with a drop list equals the pass over Ingresses without those annotations, each with its own pairing, exactly when the list holds no annotation that an undropped one's translator reads, none that marks the backend as gRPC, and neither canary annotation. |
| DroppingPass.SamePairing | internal/controller/canary/canary.go:92-106 | Without canary annotations in the list, both passes pair the same Ingresses with the same weights. |
| Dropping.DroppingIgnoresExactlyWhen | internal/conversion/engine.go:180-233 | For a single conversion the first two of these conditions are exact. |
| Dropping.EntriesAreNamesOnly | internal/conversion/engine.go:79-83 | Lists that name the same annotations of an Ingress convert it alike, whatever else they hold. |
| Annotations.DropIsDeletionExactlyWhen | internal/conversion/engine.go:304-358 | For the annotation loop alone: dropping equals deleting on every Ingress exactly when no dropped annotation is read by an undropped one's translator. |
| Annotations.DroppedAffinityStillApplies | internal/conversion/annotation/nginx/nginx.go:296-310 | With affinity dropped, session-cookie-name still turns cookie sessions on; with affinity deleted it does not. |
| CanaryPairs.Pair | internal/controller/canary/canary.go:53-90 | The two maps record exactly the pairs of the selected set: two Ingresses alone on one namespace, host and path, one of them canary with a valid weight; in any map order. |
| CanaryPairs.PairingExactly | internal/controller/canary/canary.go:53-120 | Over annotations and rules: two Ingresses alone on a namespace, host and path, one with `canary: "true"` and a weight that reads as w in 0..100, the other without, are recorded at w; any other text, and any other constellation, records nothing. |
| CanaryPairs.MarksExactly | internal/controller/canary/canary.go:92-106 | A canary weight is read exactly from the decimal texts of 0 to 100. |
| CanaryPairs.DecimalMarks | internal/controller/canary/canary.go:96-106 | In particular the decimal text of each number from 0 to 100 is a weight of that number. |
| CanaryPairs.RolesOf | internal/controller/canary/canary.go:69-80 | In a group of two the scan finds both roles exactly when one member is a canary and the other is not. |
| CanaryPairs.PairingUnique | internal/controller/canary/canary.go:49-52 | The pairing is determined by the set of Ingresses, whatever their order. |
| CanaryPairs.RolesAreExclusive | internal/controller/canary/canary.go:67-89 | No Ingress is canary in one pair and primary in another, and partners determine each other. |
| CanaryPairs.SignatureIdentifies | internal/controller/canary/canary.go:108-120 | The "\|"-joined text identifies namespace, host and path when namespace and host have no bar. |
| CanaryPairs.MergeBackend | internal/controller/canary/canary.go:136-153 | In place, with shared weight pointers: the primary's rules denote the merged rules, and the canary's route is unmodified. |
| CanaryPairs.MergeRule | internal/controller/canary/canary.go:146-152 | The inner loop rewrites one rule's weights, appends the canary's backend, and leaves the other rules alone. |
| CanaryPairs.SplitEndToEnd | internal/controller/transfergw_controller.go:257-263 | For any pair that converts to HTTPRoutes the merged route has one rule with two backends weighted 100 - w and w, and everything else is the primary's. |
| CanaryPairs.SplitByTheText | internal/controller/canary/canary.go:139-153 | The merged route sends the number the annotation spells to the canary's Service and the rest of 100 to the primary's, all else as in the primary's rule. |
| Completion.PassSplits | internal/controller/transfergw_controller.go:257-263 | And that is the route a pass wants for the primary of such a pair. |
| Overlap.Check | internal/controller/overlap/overlap.go:47-101 | Exactly one warning for each match with two distinct backends among unpaired Ingresses, on the first Ingress that has it, and none otherwise, in any map order. |
| Overlap.ReportedExactlyWhen | internal/controller/overlap/overlap.go:47-111 | Over rules and paths: a listed path has its report exactly when the same host, path and type, absent being Prefix, is listed with two backends that differ in Service name, port number or, without numbers, port name. |
| Overlap.SignaturesCompare | internal/controller/overlap/overlap.go:103-111 | Two backends have one signature exactly when they are written alike. |
| Overlap.TextAmbiguityIsAmbiguity | internal/controller/overlap/overlap.go:59-72 | Ambiguity of the joined text is ambiguity of host, path type and path. |
| Overlap.ReportsConcernSeveralExactlyWhen | internal/controller/overlap/overlap.go:36-101 | For any listing, each report of `Check` concerns a match that two unpaired Ingresses list, exactly when no unpaired Ingress gives two backends to a match nobody else lists. |
| Collisions.CollideExactlyWhen | internal/conversion/engine.go:200-262 | For conversions that succeed, HTTP or gRPC: two listed entries collide (same compiled match, host sets of their Ingresses with a host in common, different Service or port) exactly when the compiled routes offer some request, by one match, different Services or ports. |
| Collisions.OffersExactlyWhen | internal/conversion/engine.go:203-262 | A compiled route offers a request a Service and port by a match exactly when a path of its Ingress, of any rule, compiles to that match and backend, the match takes the path, and the host is one of any of its rules (or there is none). |
| Collisions.MeetExactlyWhen | internal/conversion/engine.go:260-262 | Two sets of hostnames have a host in common exactly when one is empty or they hold compatible patterns: equal, one under the other's wildcard, or nested wildcards. |
| Collisions.CoversExactlyWhen | internal/controller/overlap/overlap.go:59-72 | Every collision is between matches that `Check` reports, whatever the backends, exactly when entries with the same compiled match and a host in common are written alike and in one namespace. |
| Collisions.CompetitionIsReported | internal/controller/overlap/overlap.go:78-99 | Where they are, two compiled routes compete only over a listed match that has its report. |
| Collisions.TwoHostsUnreported | internal/controller/overlap/overlap.go:59-72 | One Ingress with "/" to one Service on one host and to another on a second host: its route competes with itself and no match is ambiguous. |
| Collisions.SpellingUnreported | internal/controller/overlap/overlap.go:59-72 | Prefix "/" and an ImplementationSpecific empty path collide unreported. |
| Collisions.NamespacesUnreported | internal/controller/overlap/overlap.go:103-111 | Services of one name and port in two namespaces collide unreported. |
| Overlap.EntriesListed | internal/controller/overlap/overlap.go:47-76 | The entries compared are exactly what the unpaired Ingresses list. |
| Overlap.OneIngressOverlapsItself | internal/controller/overlap/overlap.go:78-99 | Such an Ingress exists: one listing a match twice with different backends is reported on its own. |
| Ownership.CheckNotOwned | internal/controller/webhook/webhook.go:118-143 | The scan accepts a claim exactly when no other generating migration names the same Gateway. |
| Ownership.DesiredIsNamed | internal/controller/webhook/webhook.go:145-159 | A migration names the Gateway of its fields: an empty namespace is its own, an empty name its own with "-gateway". |
| Ownership.ClashExactlyWhen | internal/controller/webhook/webhook.go:118-143 | Two claims clash exactly when different migrations that generate a Gateway name the same one. |
| Ownership.AdmittedExactlyWhen | internal/controller/webhook/webhook.go:75-143 | A create or update is admitted exactly when its object is new or there, the other checks pass, and no stored migration that generates a Gateway names the one it generates. |
| Ownership.NoGatewayHasTwoOwners | internal/controller/webhook/webhook.go:54-159 | Over every history, no Gateway is named by two migrations that generate it. |
| Ownership.RoutesAttachToIt | internal/conversion/engine.go:246-260 | Routes compiled with that Gateway's name and namespace attach to it, from any namespace. |
| Ownership.SerialAdmissionKeepsOwnersDistinct | internal/controller/webhook/webhook.go:54-143 | Over every history of admitted creates, updates and deletes, Gateway owners stay distinct. |
| Ownership.ConcurrentAdmission | internal/controller/webhook/webhook.go:54-143 | Two creates or updates of different objects validated against the same cluster keep owners distinct exactly when they do not clash with each other. |
| Schedule.OverflowOnce | internal/controller/transfergw_controller.go:702-705 | Wrapping at the conversion, the product and the sum equals wrapping once at the end. |
| Schedule.FollowsPlanExactlyWhen | internal/controller/transfergw_controller.go:679-712 | The int32 code equals the unbounded schedule cut to 0..100 exactly when the planned value fits or wraps onto the same side of the cut; it stays in 0..100 in any case. |
| Schedule.PlannedIsDocumented | internal/controller/transfergw_controller.go:679-703 | The plan is the documented one: the initial percentage and an increment for each whole step, 25, 25 and one hour where the spec says nothing. |
| Schedule.FollowsTheDocuments | internal/controller/transfergw_controller.go:679-712 | The percentage is the documented one cut off to 0..100 whenever that fits int32. |
| Schedule.LongStepsFit | internal/controller/transfergw_controller.go:702-705 | Steps of at least 430 seconds never overflow, for any int64 elapsed time. |
| Schedule.NeverFallsExactlyWhen | internal/controller/transfergw_controller.go:677-712 | Up to any moment the share never falls exactly when the value planned for that moment fits int32. |
| Schedule.FallsAtOverflow | internal/controller/transfergw_controller.go:702-712 | Otherwise it is 100 at one step and 0 at the next. |
| Schedule.ReachesFullExactlyAfter | internal/controller/transfergw_controller.go:679-712 | The schedule is at 100 exactly from ceil((100 - initial) / increment) steps on. |
| Schedule.ShortStepsFallBack | internal/controller/transfergw_controller.go:702-712 | With one-second steps and default percentages the share falls from 100 back to 0 after 85,899,345 seconds, an instance of that. |
| Health.BreachExactlyWhen | internal/health/health.go:79-126 | A breach is found exactly when some measured metric with a limit is over it and worse than the Ingress (for throughput, short by more than the delta), and it names the first such metric with its measured values and the threshold it crossed. |
| Health.ComparesFairlyExactlyWhen | internal/health/health.go:72-126 | Every breach has the Gateway strictly worse than the Ingress exactly when the throughput delta is not negative. |
| Text.SortedListingUnique | internal/conversion/engine.go:424-440 | A sorted duplicate-free listing is determined by its elements, so map order cannot show. |
| Text.SortedKeys | internal/conversion/engine.go:424-440 | Collecting keys in any order and sorting yields that listing. |
| Text.LessExactlyWhen | internal/conversion/engine.go:424-440 | The order is that of texts by character: the first difference decides, or the end of one. |
| Text.SplitJoin | internal/conversion/route.go:171-189 | Splitting at "/" undoes joining. |
| Text.SpacesExactly | internal/conversion/translator/translator.go:112-118 | The characters trimmed around a number are exactly tab, line feed, vertical tab, form feed, carriage return and space. |
| Text.AtoiExactlyWhen | internal/controller/canary/canary.go:101-104 | `strconv.Atoi` reads exactly the decimal texts of int64 numbers, with a sign or leading zeros. |
| Text.TrimmedAtoiExactlyWhen | internal/conversion/translator/translator.go:112-118 | After trimming, the same texts between white space. |
| Kube.RenderedKeyInjective | internal/controller/transfergw_controller.go:223-223 | The text "namespace/name" that keys the source's maps identifies the object. |

## Left out

- Client, manager, watches, leader election, webhook registration and the two commands: plumbing.
- Requeue results: `Reconcile` returns them only to be called again, which a run does anyway.
- The conflict retry of `patchStatus`: one outcome, stored or not; both attempts write the same status.
- Stale cached reads: a pass starts from the persisted object; a pass over an older one is not modelled.
- One clock reading per pass instead of several; `RollbackReady` and times are otherwise as written.
- `time.ParseDuration`: step and interval are given parsed, absent when empty or malformed.
- Prometheus queries, hook and alert delivery: a comparison or none, a boolean, an address.
- Gateway API validation of single values (patterns, lengths): a call refused for them is told to the pass.
- Canaries folded into a route do not take part in `Collisions`, which speaks of each Ingress's own conversion; precedence between hostnames of different length is not modelled.
- Routes changed by others between passes: a run of `StoreRuns` changes them by passes alone.
- API server defaults of fields no conversion sets or omits, and the nil/empty distinction, which the comparison of routes ignores too.
- IEEE floats and NaN: metrics are real numbers.
- `status.issues` with its cap of 100, message texts, `NonCanaryIssues`, resource counts, metrics formatting: issues are kept as kind, severity, Ingress and subject where a result depends on them.
- The vendor annotation tables, ALB and URL redirects among them: the registry is a parameter over the kinds of translator that reach a rule; URL redirects always set a status code. CORS lists are kept as unsplit text.
- Selector globbing and sorting: the selected Ingresses are a sequence with distinct keys.
- `BuildListeners` and `ensureGateway`: whether creating the Gateway succeeded is told to the pass.
- A nil Ingress, which no caller passes, and CRD fields nothing reads.
- The meaning of ImplementationSpecific paths and of regular expressions, which the standards leave open.
- `strings.TrimSpace` and `EqualFold` beyond ASCII.
- Managed-by labels hold only the migration's name; migration names are assumed unique.
- int32 counters: the number of Ingresses is assumed to fit.
- CanaryPairs.Pair: requires that no namespace or host contains a bar, as DNS names guarantee; so do the members that call it.
- Meaning.MeaningPreservedExactlyForSingleHost: speaks of Exact, Prefix and absent path types only.
- Overlap.Check: backends are compared as service and port, not as the text "service:port".
- RouteStore.Produce: folds the canary in by value; CanaryPairs.MergeBackend proves the in-place merge against the same function.
- Runs.NeverBackwards: speaks of conversions without failures; what a failure does to the share is Runs.PassLowersExactlyWhen.
