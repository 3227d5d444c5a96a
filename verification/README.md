# Reconciler verification

A Dafny model of the Gas City controller's reconciler and the state machines around it, with
proofs of what they promise. The model follows the source's own forms: protocols over concurrent
callers are state machines with one step per locked body; code that updates maps, slices and
counters in place is classes and loops proved against specification functions; string and path
code is functions.

Everything is stated for all inputs, all runs and all interleavings; `dafny verify dfyconfig.toml`
checks the whole project.

| files | part of the system |
|---|---|
| `SessionLocks` | concurrent pool creates under identifier locks: census, alias check, row write |
| `Rotation`, `RepairRotation`, `RouteRepair` | the bounded control-route repair and its rotating cursor |
| `FairShare`, `CreateBudgets`, `PoolSlots`, `SlotIdentity`, `PoolNames`, `PoolPlan`, `PoolRealize` | create budget, slot allocator, instance names and the three-phase realisation pass |
| `ConfigProtocol`, `ControllerState` | configuration mutation, reload handshake, store reuse and closing of replaced handles |
| `Beads`, `ReadyCache` | store reads with errors, and the per-pass ready memo |
| `Demand`, `ScaleCheck` | demand counting by capacity unit, partial reads and session retention |
| `DependencyFloors` | the walk that keeps one session of every depended-on template |
| `Adoption` | the adoption barrier, crashed, repeated and concurrent |
| `AssignedWork` | collection of assigned work and its store-scoped ready verdicts |
| `Paths`, `SkipTracker`, `Reaper` | path containment, edge-triggered skip reporting, worktree reaping |
| `ProviderOps` | start, health and recover operations under a per-city semaphore and cooldown |

## Where code and promise part

Some promises hold only under a condition. Each has a proof of the exact condition, or a proved
condition and a concrete run or input outside it.

- A bead-store metadata refresh that finds changed metadata installs its configuration without
  consulting the pending mutation
  (`ConfigProtocol.StepKeepsPending`, `ConfigProtocol.RefreshOverwritesMutation`).
- The recorded metadata signature follows a rebuild only when the city store reopens
  (`ConfigProtocol.RebuildSignature`).
- The repair bound of ceil(n/5) passes fails around a wrap of the 64-bit cursor, except where 2^64
  leaves a small enough remainder (`RepairRotation.FairnessExact`,
  `RepairRotation.WrapBreaksFairness`).
- The rotation of the fair share breaks around a wrap of its 64-bit seed unless the number of pools
  divides 2^64 (`FairShare.FirstInTurnExactly`).
- A control row on a class leg is looked up under the binding's own ref and loses the city's route
  (`RouteRepair.ClassLegLosesRoute`, `RouteRepair.ScopeServedExactly`).
- The demand count depends on the order of reads when two views of one row disagree
  (`Demand.ConsistencyNeeded`), and two continuation groups count as one when their keys collide
  over a colon (`Demand.KeyUniqueExactly`, `Demand.DemandExactly`).
- Stripping a suffix with leading zeros removes too little (`PoolNames.StripExact`,
  `PoolNames.LeadingZerosMisread`).
- A canonical singleton allocates slot 0, which the recogniser never calls usable
  (`PoolSlots.RangeDiffers`), and a namepool entry such as `w-2` is read back as a numbered slot
  (`SlotIdentity.SlotReadBack`, `SlotIdentity.ThemedNameMisread`).
- A demand read hands rows through beside a plain error when one tier is passed on as it is
  (`ReadyCache.RowsWithErrorArePartial`, `ReadyCache.RowLostWithFailure`).
- A live row whose two directory keys name two candidates vetoes only the first
  (`Reaper.VetoExact`, `Reaper.MissedExactly`, `Reaper.ReapedInAllCases`).
- The strict containment test rejects names that begin with two dots (`Paths.StrictlyUnderExact`).
- The recover cooldown separates stamps, not the operations they allow
  (`ProviderOps.RecoveriesKeepTheirDistance`, `ProviderOps.CrowdsExactly`).

## Model

| member | source | states |
|---|---|---|
| `SessionLocks.LockIdentifiers` | cmd/gc/build_desired_state.go:4678-4704 | The lock set of a create is strictly ascending and holds exactly the non-empty identifiers among its availability names, its alias and its tmux alias. |
| `SessionLocks.LocksCoverPlan` | cmd/gc/build_desired_state.go:4678-4704 | A create planned with that lock set holds, under lock, every identifier it may persist. |
| `SessionLocks.RunInv` | cmd/gc/build_desired_state.go:4725-4836 | Lock exclusion, census soundness and row separation hold after every interleaving of creators, outside writers, closes and failures. |
| `SessionLocks.NoSharedIdentifiers` | cmd/gc/build_desired_state.go:4479-4544 | In every interleaving, no two open rows the creators wrote share a non-empty alias, and no two that are not closed share a runtime name. |
| `SessionLocks.OneRowPerNameAndLeg` | cmd/gc/adoption_barrier.go:259-269 | In every interleaving each store leg holds at most one unclosed row per session name from these creators, adopters included, even when each reads only its own leg. |
| `SessionLocks.PartialLegWritesNothing` | cmd/gc/build_desired_state.go:4479-4519 | A creator that meets a partial census leg never has a row, however the run goes on; any other creator has at most one. |
| `SessionLocks.NoDeadlock` | internal/session/names.go:272-291 | While any creator is unfinished, some creator can step: taking locks in sorted order cannot deadlock. |
| `SessionLocks.BoundedWork` | internal/session/names.go:272-291 | The creators together take a bounded number of steps in any run, whatever the environment does. |
| `RepairRotation.Hits` | cmd/gc/build_desired_state.go:5715-5740 | The rows attempted in a sweep are the first five askers in rotation order; their number is min(5, askers met). |
| `RepairRotation.BudgetSpent` | cmd/gc/build_desired_state.go:5715-5740 | A full sweep attempts exactly min(5, backlog) rows, all of which asked. |
| `RepairRotation.BacklogDrains` | cmd/gc/build_desired_state.go:5685-5740 | While writes land, p sweeps from any starts take exactly min(backlog, 5p) rows off the backlog. |
| `RepairRotation.TurnExactly` | cmd/gc/build_desired_state.go:5685-5740 | A row that keeps asking is sure of an attempt within ceil(n/5) passes, whatever the other rows do, if and only if one of those passes starts at most four rows before it. |
| `RepairRotation.FairnessExact` | cmd/gc/build_desired_state.go:5685-5740 | Every row of an n-row snapshot is sure of its attempt if and only if the last of the ceil(n/5) passes starts before the cursor wraps, or 2^64 leaves a remainder by n of at most 5*ceil(n/5) - n. |
| `RepairRotation.EveryRowGetsATurn` | cmd/gc/build_desired_state.go:5685-5740 | Under that condition the pass that attempts a row that keeps asking, whatever the other rows do. |
| `RepairRotation.WrapBreaksFairness` | cmd/gc/build_desired_state.go:5685-5740 | A run outside the condition: eleven rows that ask in each of three passes, the cursor ten short of 2^64, and no pass attempts row 5. |
| `RepairRotation.OnlyItsOwnWindow` | cmd/gc/build_desired_state.go:5715-5740 | When every row keeps asking, a row is attempted exactly in the passes that start at most four rows before it, so the bound is tight. |
| `RouteRepair.Sweep.DesiredRoute` | cmd/gc/build_desired_state.go:5806-5826 | The memoised lookup gives the dispatcher of the ref's scope and reports each missing scope once. |
| `RouteRepair.Sweep.RepairBead` | cmd/gc/build_desired_state.go:5780-5798 | One row: a write is attempted exactly when the row needs one and budget is left, and is charged whether or not the store takes it; the row ends repaired, or stripped of a route it could not repair. |
| `RouteRepair.Cursor.Advance` | cmd/gc/build_desired_state.go:5697-5740 | The cursor moves on by the write limit, modulo 2^64. |
| `RouteRepair.RepairRoutes` | cmd/gc/build_desired_state.go:5715-5740 | A pass over misaligned columns strips every control row and keeps the cursor; otherwise rows, attempts and writes are exactly those of the rotation from the cursor. |
| `RouteRepair.SuppressRoutes` | cmd/gc/build_desired_state.go:5889-5895 | Every control row loses its route; nothing else changes. |
| `RouteRepair.SweepSound` | cmd/gc/build_desired_state.go:5780-5887 | Afterwards a store-scoped control row carries its own scope's route or none; every other row and field is untouched; at most five attempts, each on a row that needed one. |
| `RouteRepair.PatchSettles` | cmd/gc/build_desired_state.go:5833-5881 | A write that lands leaves a durable row that needs no further write and equals the snapshot row. |
| `RouteRepair.RepairIsFair` | cmd/gc/build_desired_state.go:5685-5740 | The ceil(n/5) fairness bound on the rows themselves, over passes whose rows, refs, stores and dispatchers may change: the pass whose sweep attempts the row. |
| `RouteRepair.RepairPasses` | cmd/gc/build_desired_state.go:5685-5740 | Consecutive repair passes on one cursor: each attempts exactly the rows of the rotation from where the last left the cursor, and of ceil(n/5) passes, unless the cursor wraps unfairly, one attempts each row that asks in all of them. |
| `RouteRepair.ScopeServedExactly` | cmd/gc/build_desired_state.go:5904-5910 | Where the declared scope has a dispatcher, a control row can end up routed to it if and only if its leg is not a class binding, or the binding's own ref names a dispatcher of the same route. |
| `RouteRepair.ClassLegLosesRoute` | cmd/gc/build_desired_state.go:5806-5826 | A control row on a class leg ends without a route and without need of a write, though the city has a dispatcher, exactly when none is configured under the binding's own ref; it is then never attempted. |
| `RouteRepair.ClassLegInput` | cmd/gc/build_desired_state.go:5904-5910 | A row routed to the city's own dispatcher that loses its route on a class leg and keeps it on the city leg. |
| `Rotation.PlaceIsRemainder` | internal/poolplan/create_budget.go:127-127 | The place visited at an offset is the start plus the offset, modulo the number of places. |
| `Rotation.FirstAskersCount` | internal/poolplan/create_budget.go:123-133 | The first askers in rotation order number the limit, or as many as ask. |
| `Rotation.FirstAskersAre` | internal/poolplan/create_budget.go:123-133 | The first askers of a rotation are exactly the places that ask before the limit of others have. |
| `FairShare.GiveRound` | internal/poolplan/create_budget.go:140-149 | One round feeds exactly the first hungry pools in rotation order, as many as there are tokens, one token each, and conserves tokens. |
| `FairShare.FloorRound` | internal/poolplan/create_budget.go:120-133 | As many floors get one token as there are floors and tokens, in rotation order, and nobody else. |
| `FairShare.GiveAll` | internal/poolplan/create_budget.go:156-170 | Rounds conserve tokens, stay within demand, and leave tokens only when every eligible pool is satisfied. |
| `FairShare.FairShares` | internal/poolplan/create_budget.go:102-171 | Over the pools with fresh demand: shares plus spare equal the limit; no share exceeds its demand; spare is left only if all demand is met; the elastic reserve reaches pools without a floor; as many floors are served as the other tokens allow; and the pool the seed puts first is served exactly unless it has no floor, the limit is below four and floors take all of it. |
| `FairShare.FirstInTurnExactly` | cmd/gc/build_desired_state.go:223-224 | Of n cycles in which the same n pools contend the seed puts each first in one, if and only if the 64-bit counter does not wrap among them or n divides 2^64. |
| `FairShare.NoPoolStarves` | cmd/gc/build_desired_state.go:223-224 | Under that condition each pool that a first place would serve is served in one of the n cycles, however their demands change meanwhile. |
| `CreateBudgets.ShareOut` | internal/poolplan/create_budget.go:88-101 | Shares exist exactly when tokens remain and two pools contend; under the numbers of all pools they still sum to the limit with the spare, fit the demands, and leave spare only when all demand is met. |
| `CreateBudgets.CreateBudget.ConfigureFairShare` | internal/poolplan/create_budget.go:39-46 | Keeps shares plus spare equal to the remaining tokens, which do not change; an unlimited budget is left alone. |
| `CreateBudgets.CreateBudget.TryClaim` | internal/poolplan/create_budget.go:50-71 | A claim succeeds exactly when the pool has a share left or a spare token exists; it takes one token, the pool's own before a spare one. |
| `CreateBudgets.CreateBudget.Release` | internal/poolplan/create_budget.go:76-86 | A refund restores one token, as spare once shares are configured. |
| `PoolSlots.ExistingSlot` | cmd/gc/build_desired_state.go:4189-4249 | The recogniser of a bounded pool yields 0 or a usable slot, and 0 for a canonical singleton. |
| `PoolSlots.RangeIsUsable` | cmd/gc/build_desired_state.go:4085-4119 | For a pool that is neither disabled nor a canonical singleton, the allocator's range is exactly the usable range. |
| `PoolSlots.RangeDiffers` | cmd/gc/build_desired_state.go:4551-4602 | In the two excluded cases the ranges differ. |
| `PoolSlots.SlotBook.ClaimFresh` | cmd/gc/build_desired_state.go:4551-4602 | Claims the least slot free of this pass and of census holders; fails exactly when the whole range is occupied; on an unlimited pool the slot is at most one more than the number occupied. |
| `PoolSlots.SlotBook.ClaimCanonical` | cmd/gc/build_desired_state.go:4551-4602 | The singleton's slot 0 is claimed exactly when neither this pass nor the census holds it. |
| `PoolSlots.SlotBook.Occupied` | cmd/gc/build_desired_state.go:4411-4436 | The occupied set is this pass's claims together with the slots open non-failed holders are recognised in. |
| `SlotIdentity.SlotReadBack` | cmd/gc/build_desired_state.go:4047-4083 | A slot printed into a fresh row is read back as itself exactly when the printed name resolves to it, or resolves to nothing under a matching template, or to an unusable slot. |
| `SlotIdentity.PrintedResolves` | cmd/gc/session_beads.go:3462-3476 | Every printed instance name resolves to some slot, and on a numbered pool to its own. |
| `SlotIdentity.NumberedReadBack` | cmd/gc/build_desired_state.go:3686-3696 | A numbered pool always reads back what it allocated. |
| `SlotIdentity.ThemedNameMisread` | cmd/gc/build_desired_state.go:4047-4083 | A namepool entry that looks like a numbered instance is read back as another slot. |
| `PoolPlan.ChoiceSound` | cmd/gc/build_desired_state.go:4299-4404 | A choice never takes a slot or session that is taken; a planned slot is in range, held by no live session, past the gates and with a token. |
| `PoolPlan.PreferredServed` | cmd/gc/build_desired_state.go:4315-4337 | A preferred session is served on its own slot, above capacity too when it resumes work, exactly when that slot is free; a singleton's exactly when it can take the name; one without a slot gets the least unused one. |
| `PoolPlan.RefusedExactly` | cmd/gc/build_desired_state.go:4338-4404 | Without a live session of its own a request is refused exactly when no reusable session serves and a create lacks gate, trigger, slot or token, or the session it falls to cannot take the singleton's name; it is planned exactly when none serves and a create is allowed. |
| `PoolPlan.ItemsAccounted` | cmd/gc/build_desired_state.go:3129-3195 | Over all requests: no slot taken or session served twice; the slot book holds exactly the items' slots, so every refusal left it as it was; one token gone per plan. |
| `PoolPlan.PlansGood` | cmd/gc/build_desired_state.go:3129-3195 | Every planned slot is in range, held by no open non-failed holder, and planned only past the gates. |
| `PoolPlan.SkippedExactly` | cmd/gc/build_desired_state.go:3129-3195 | A request is skipped exactly when its session is a named one, its own slot is taken or name unavailable, or nothing serves it and no create is to be had. |
| `PoolPlan.CreatesAppear` | cmd/gc/build_desired_state.go:3237-3262 | Every served request has its entry, and every session a create made appears among the entries. |
| `PoolPlan.EntriesApart` | cmd/gc/build_desired_state.go:3237-3262 | No session has two entries. |
| `PoolPlan.FreedSlots` | cmd/gc/build_desired_state.go:3253-3257 | Of the slots taken, exactly those of failed creates are free afterwards. |
| `PoolRealize.Pass.ClaimHeld` | cmd/gc/build_desired_state_pool_info.go:96-111 | Takes the slot a session already holds, refusing it if this pass used it, or else the least slot this pass has not used. |
| `PoolRealize.Pass.ClaimPreferred` | cmd/gc/build_desired_state_pool_info.go:157-177 | A preferred session that resumes work takes its slot above capacity, any other the one it holds; refused exactly when that slot is used. |
| `PoolRealize.Pass.SelectOrPlan` | cmd/gc/build_desired_state.go:4299-4404 | In place: exactly the choice the plan specifies, and exactly its effect on slots and budget; a refusal leaves both as they were. |
| `PoolRealize.Pass.PlanFresh` | cmd/gc/build_desired_state.go:4356-4404 | A plan on the least free slot with one token exactly when gates, trigger, slot and budget allow; a refused one leaves both books as they were. |
| `PoolRealize.Pass.PlanAll` | cmd/gc/build_desired_state.go:3129-3195 | In place: exactly the items and books of the specified fold over the requests. |
| `PoolRealize.Pass.ExecuteAll` | cmd/gc/build_desired_state.go:3197-3235 | Whatever the order the creates finish in, the tokens are those of before with one returned per failure. |
| `PoolRealize.Pass.Collect` | cmd/gc/build_desired_state.go:3237-3262 | In place: exactly the specified entries, sessions in use and freed slots. |
| `PoolRealize.Pass.Realise` | cmd/gc/build_desired_state.go:3116-3262 | The whole pass: items and entries as specified, distinct in-range slots, distinct sessions, every session served or created among the entries, remaining tokens less by exactly the successful creates, and exactly the slots of failed creates free again. |
| `PoolNames.InstanceRoundTrip` | cmd/gc/build_desired_state.go:6185-6190 | For every base and every slot that fits an int, parsing the printed name gives the slot and stripping gives the base. |
| `PoolNames.StripExact` | cmd/gc/adoption_barrier.go:303-355 | Stripping and reprinting restores a parsed name exactly when its suffix has no leading zero. |
| `PoolNames.LeadingZerosMisread` | cmd/gc/adoption_barrier.go:303-355 | The name `w-007` is read as slot 7 of base `w-0`. |
| `PoolNames.InstanceInjective` | cmd/gc/build_desired_state.go:6185-6190 | Distinct seats never print to one name. |
| `PoolNames.OnlyMatch` | cmd/gc/adoption_barrier.go:39-39 | A numeric suffix match is the only one in a name, so the leftmost match is it. |
| `ConfigProtocol.StepKeepsPending` | cmd/gc/api_state.go:1084-1110 | A step keeps "the pending mutation is the installed configuration" exactly when it is not a metadata refresh that, finding the metadata changed, installs another configuration over it. |
| `ConfigProtocol.PendingInstalled` | cmd/gc/api_state.go:2861-2909 | Over every run of mutations, failed mutations, edits, reloads and harmless refreshes, the installed configuration of a pending mutation is the one it installed. |
| `ConfigProtocol.RefreshOverwritesMutation` | cmd/gc/city_runtime.go:2065-2066 | A refresh loaded before a mutation puts the earlier configuration back over the pending one whenever the mutation recorded a signature the earlier configuration does not have. |
| `ConfigProtocol.PendingIsUnsettled` | cmd/gc/api_state.go:1374-1386 | After any run from a fresh controller, what is pending is the last successful mutation that no taken reload has settled. |
| `ConfigProtocol.ReloadsOverRuns` | cmd/gc/api_state.go:1084-1110 | Over every run: a taken reload has that mutation's revision and drops no bound rig, or the revision then on disk; with none unsettled any revision is the one on disk; it is installed and settles; refused reloads change nothing; failed mutations change nothing but the files, and a failed refresh puts those back when it can; an on-disk revision is refused only for a dropped rig. |
| `ConfigProtocol.UnsettledInstalled` | cmd/gc/api_state.go:2861-2909 | Over every run of harmless refreshes the installed configuration is that of the last unsettled mutation. |
| `ConfigProtocol.StoresSoundAlways` | cmd/gc/api_state.go:952-1015 | Over every run, the installed stores were built for the installed topology, every bound rig has one, no installed handle is scheduled for closing, and each replaced handle is scheduled exactly once. |
| `ConfigProtocol.RebuildSignature` | cmd/gc/api_state.go:952-1015 | After a rebuild the recorded metadata signature is true exactly when the city store reopened or nothing changed. |
| `ConfigProtocol.ReuseSound` | cmd/gc/api_state.go:1244-1270 | A reload that reuses the stores finds them built for its own topology and serving every rig it binds. |
| `ControllerState.SameStoreTopology` | cmd/gc/api_state.go:1393-1432 | The two-way comparison holds exactly when the topologies are equal. |
| `ControllerState.DropsBound` | cmd/gc/api_state.go:1434-1451 | True exactly when a bound rig disappears or loses its path. |
| `ControllerState.CloseReplaced` | cmd/gc/api_state.go:1051-1074 | Each replaced handle is scheduled once however many rigs shared it, and none in use again. |
| `ControllerState.Controller.constructor` | cmd/gc/api_state.go:362-415 | A new controller is an initial state of the protocol. |
| `ControllerState.Controller.Update` | cmd/gc/api_state.go:952-1015 | Refines the protocol's rebuild. |
| `ControllerState.Controller.ReusesStores` | cmd/gc/api_state.go:1244-1270 | Decides exactly the protocol's reuse condition. |
| `ControllerState.Controller.UpdateFromRuntime` | cmd/gc/api_state.go:1084-1131 | Refines the protocol's reload step. |
| `ControllerState.Controller.RefreshMetadata` | cmd/gc/api_state.go:1272-1279 | Refines the protocol's metadata refresh, guarded by a changed signature. |
| `ControllerState.Controller.MutateAndPoke` | cmd/gc/api_state.go:2861-2909 | Refines the protocol's mutation step, and succeeds exactly when edit and refresh do. |
| `ReadyCache.FilterSnapshot` | cmd/gc/build_desired_state.go:2510-2530 | The early-stopping loop keeps exactly filter-then-limit, in order. |
| `ReadyCache.MergeById` | cmd/gc/build_desired_state.go:2542-2569 | The loop computes the merge of the two tiers by ID. |
| `ReadyCache.MergeLosesNothing` | cmd/gc/build_desired_state.go:2542-2569 | Every identified row of either tier survives by ID, and every identified live row as it is. |
| `ReadyCache.RowsWithErrorArePartial` | cmd/gc/build_desired_state.go:2458-2502 | Rows beside a non-partial error come out of a demand read exactly when one tier is handed through and brings them. |
| `ReadyCache.RowLostWithFailure` | cmd/gc/build_desired_state.go:2458-2502 | Such reads: a row returned beside an outright failure, by the live tier when the cache is unavailable and by a store without handles, does not count. |
| `ReadyCache.OutageKeepsRows` | cmd/gc/build_desired_state.go:2458-2502 | On a tiered store whose cache answers, a demand read with a failing live tier loses no usable row and stays countable. |
| `ReadyCache.Memo.LiveReady` | cmd/gc/build_desired_state.go:2443-2456 | A memoised live answer equals the direct read under the query's filter. |
| `ReadyCache.Memo.DemandReady` | cmd/gc/build_desired_state.go:2458-2502 | A memoised demand answer equals the direct one. |
| `ReadyCache.Memo.AnswerAll` | cmd/gc/build_desired_state.go:2385-2530 | Any sequence of queries gets the direct answers, rows and error, with each tier of each store read at most once. |
| `Demand.KeyUniqueExactly` | cmd/gc/build_desired_state.go:1956-1965 | A group shares its unit key with no other triple of fields if and only if store ref, root and group name hold no colon. |
| `Demand.GroupKeysDiffer` | cmd/gc/build_desired_state.go:1956-1965 | Among groups whose root IDs and names hold no colon, different groups have different keys, whatever their store refs. |
| `Demand.SharedKey` | cmd/gc/build_desired_state.go:1956-1965 | Four fields joined by colons are the key of three different groups. |
| `Demand.CountedOnce` | cmd/gc/build_desired_state.go:1859-1937 | Counted IDs are distinct and come from seen rows; the seen IDs are exactly those of the rows. |
| `Demand.KeysCounted` | cmd/gc/build_desired_state.go:1859-1937 | The group keys counted are exactly the keys of rows that are the first of their ID. |
| `Demand.DemandIsUnits` | cmd/gc/build_desired_state.go:1859-1937 | For rows whose views agree, the count is the number of distinct unit keys and lone beads. |
| `Demand.DemandExactly` | cmd/gc/build_desired_state.go:1859-1937 | For every way of reading from a set of rows the count is the number of sessions needed - one per bead or per required continuation group - if and only if views of a bead agree and no two groups share a key. |
| `Demand.ColonFreeAgreed` | cmd/gc/build_desired_state.go:1956-1965 | With no colon in root IDs and group names it is enough that views of a bead agree. |
| `Demand.OrderAndAliasesIrrelevant` | cmd/gc/build_desired_state.go:1846-1859 | Neither the order of rows nor seeing rows again changes the count. |
| `Demand.ConsistencyNeeded` | cmd/gc/build_desired_state.go:1859-1937 | Over all ways of reading from a pool of rows, the count is the number of units if and only if the views agree. |
| `ScaleCheck.ServedBy` | cmd/gc/demand_serve_predicate.go:53-64 | The first route candidate among a group's templates, if any. |
| `ScaleCheck.CountDemand` | cmd/gc/build_desired_state.go:1859-1937 | Each template's tally is the fold of exactly its servable rows over all groups, and the partial templates are exactly those of groups whose read had an error. |
| `ScaleCheck.AnyWalk` | cmd/gc/build_desired_state.go:1859-1872 | Walking the groups in any order gives the same count. |
| `ScaleCheck.GroupOrderIrrelevant` | cmd/gc/build_desired_state.go:1859-1937 | Groups that offer the same rows, a store seen twice included, give the same count, which is the number of units. |
| `ScaleCheck.TemplateDemand` | cmd/gc/build_desired_state.go:1859-1937 | A template's count over all groups is the number of beads and required continuation groups among its servable rows. |
| `ScaleCheck.Retain` | cmd/gc/build_desired_state.go:2189-2217 | Partial templates are lifted to their retainable sessions; no count is lowered and no other template changes. |
| `ScaleCheck.DesiredCounts` | cmd/gc/build_desired_state.go:1859-1872 | Every template of a store whose read failed keeps at least its retainable sessions; every other template gets exactly its demand. |
| `DependencyFloors.ClosureIsReach` | cmd/gc/build_desired_state.go:2948-2973 | A set between the roots and what they reach that is closed under edges has as edge targets exactly the names reachable by at least one edge. |
| `DependencyFloors.OneFloorEach` | cmd/gc/build_desired_state.go:2976-3053 | Ensuring only adds: no session name disappears, and a new or changed session is the floor of an ensured template that has no other session. |
| `DependencyFloors.EnsuredCovered` | cmd/gc/build_desired_state.go:2976-3053 | While session names tell templates apart, every ensured template that takes generic sessions ends with one, unless a build for it failed. |
| `DependencyFloors.Floors.Ensure` | cmd/gc/build_desired_state.go:2976-3035 | In place, exactly one call more of the fold that the two lemmas above are about. |
| `DependencyFloors.Floors.Visit` | cmd/gc/build_desired_state.go:2949-2970 | Terminates on any graph; everything newly visited has all its edge targets visited and ensured, and nothing else is ensured. |
| `DependencyFloors.Floors.Realise` | cmd/gc/build_desired_state.go:2937-2974 | Ensure is called on exactly the templates reachable from a root by at least one edge to a resolvable, unsuspended target, and the desired sessions are what those calls make of them. |
| `Adoption.AdoptionSafe` | cmd/gc/adoption_barrier.go:54-288 | Over every interleaving of starts, turns, crashes and closes: at most one open bead per session name, counts that add up, and a passing run that leaves an open bead for every session it found alive and nobody closed since. |
| `Adoption.RunKeepsInv` | cmd/gc/adoption_barrier.go:130-283 | Every run of every number of barriers keeps the invariant those facts follow from. |
| `Adoption.Sessions.Adopt` | cmd/gc/adoption_barrier.go:259-269 | The locked body: a bead is created exactly when the probe succeeds, finds none and the create succeeds. |
| `Adoption.Barrier` | cmd/gc/adoption_barrier.go:54-288 | The loop's counts, verdict and store are the fold over the listed sessions, with the error returns; an undisturbed pass leaves every live session an open bead. |
| `Adoption.PassMeansBacked` | cmd/gc/adoption_barrier.go:285-287 | An undisturbed real run from a truthful listing that passes leaves every live session an open bead and no name two. |
| `Adoption.RerunDoesNothing` | cmd/gc/adoption_barrier.go:149-161 | When the listing knows every session, a run creates nothing and skips nothing, and a complete one passes. |
| `Adoption.DryRunPredicts` | cmd/gc/adoption_barrier.go:236-240 | With distinct names, a complete listing and no store failures, a dry run counts exactly as a real run does. |
| `AssignedWork.KeepAllIds` | cmd/gc/build_desired_state.go:2693-2717 | A pass over a list sees exactly the admitted IDs, keeps those not seen before, and marks them exactly if the pass marks. |
| `AssignedWork.Leg.AppendUnique` | cmd/gc/build_desired_state.go:2693-2717 | Appends to the three aligned lists exactly when the ID is new. |
| `AssignedWork.Leg.Append` | cmd/gc/build_desired_state.go:2596-2690 | The pass in place refines the fold. |
| `AssignedWork.HeldUnderSourceRules` | cmd/gc/build_desired_state.go:2596-2663 | Under the controller's rules an ID is ready exactly when a non-session row of that leg with that ID is in progress and assigned or stranded, open assigned mail, or an open assigned molecule root. |
| `AssignedWork.Scan` | cmd/gc/build_desired_state.go:1488-1561 | One leg's passes in place: the rows are the fold of the four passes, the ready IDs exactly the held ones. |
| `AssignedWork.Scanned` | cmd/gc/build_desired_state.go:1488-1561 | What one leg holds: ready IDs exactly those its in-progress, message and molecule rows give; no ID twice; each row from the leg's own lists, ready exactly if the pass that kept it marks, so a row only the open-routed pass admits is kept but not ready. |
| `AssignedWork.HeldFromLegs` | cmd/gc/build_desired_state.go:1482-1585 | The three lists stay aligned, each row with its own leg's store and ref. |
| `AssignedWork.CollectHeld` | cmd/gc/build_desired_state.go:1482-1585 | A (ref, ID) is ready exactly when a leg of that ref holds the ID ready; partial exactly when a read had an error. |
| `AssignedWork.CapturedAssignees` | cmd/gc/build_desired_state.go:1666-1696 | The skipped assignees are exactly those of captured rows with a ready verdict in their own store, mail and finished rows aside. |
| `AssignedWork.CapturedIsReady` | cmd/gc/build_desired_state.go:1666-1696 | With one leg per ref, a captured row was kept by a marking pass: no open-routed row spares a probe. |
| `AssignedWork.CollectReady` | cmd/gc/build_desired_state.go:1602-1648 | The ready half: the kept rows are the fold of each leg's own answer, with exactly their keys. |
| `AssignedWork.ReadyKeyHasRow` | cmd/gc/build_desired_state.go:1626-1640 | Every ID the probe marks has a row kept from a leg of that ref. |
| `AssignedWork.HeldHasRow` | cmd/gc/build_desired_state.go:1488-1561 | Every ID held ready has a row kept from its leg. |
| `AssignedWork.Collect` | cmd/gc/build_desired_state.go:1450-1648 | The whole result: the rows of both halves; the probe made exactly when the skipped assignees leave something to ask; ready keys exactly the held ones and those the probe answered; partial exactly when a read used had an error. |
| `AssignedWork.ExactIsComplete` | cmd/gc/build_desired_state.go:1450-1648 | In that result every row stands under its own store and ref, and every ready key has a row kept from a leg of that ref. |
| `Paths.AtOrUnderIsPrefix` | cmd/gc/bead_worktree_liveness.go:158-170 | On clean paths, the relative-path test holds exactly when the root's components begin the candidate. |
| `Paths.StrictlyUnderExact` | cmd/gc/bead_worktree_reaper.go:597-612 | The stricter test also turns away a path whose first component below the directory begins with two dots. |
| `Paths.DottedNameTurnedAway` | cmd/gc/bead_worktree_reaper.go:597-612 | Such a path exists strictly under a directory. |
| `Reaper.WorktreeIsLive` | cmd/gc/bead_worktree_liveness.go:130-150 | Live exactly when a process or session directory is at or beneath the worktree. |
| `Reaper.Discover` | cmd/gc/bead_worktree_liveness.go:238-252 | Every listed tree gets its liveness once, exact when processes were scanned. |
| `Reaper.ScanBorrows` | cmd/gc/bead_worktree_reaper.go:486-516 | For every path, exactly the rows that veto it, in order. |
| `Reaper.VetoExact` | cmd/gc/bead_worktree_reaper.go:500-514 | A row vetoes every candidate it names if and only if it does not name two different ones. |
| `Reaper.BorrowScanExact` | cmd/gc/bead_worktree_reaper.go:486-516 | Without such rows a candidate has borrowers if and only if some non-terminal row still names its path. |
| `Reaper.StraddlerMissed` | cmd/gc/bead_worktree_reaper.go:500-514 | A row naming two candidates, alone, leaves the second without a veto. |
| `Reaper.MissedExactly` | cmd/gc/bead_worktree_reaper.go:486-516 | For any candidates and any listing, a candidate has no borrower exactly when every live row that names it names another candidate first, or another candidate that normalises alike takes its place in the index. |
| `Reaper.SortTrees` | cmd/gc/bead_worktree_reaper.go:173-239 | The first pass yields exactly the candidates and the trees protected for their age. |
| `Reaper.GateOf` | cmd/gc/bead_worktree_reaper.go:270-313 | Computes the first gate that keeps a candidate. |
| `Reaper.ReapRig` | cmd/gc/bead_worktree_reaper.go:139-374 | The two passes compute the specified report; a dry run touches nothing and a real run removes exactly the reaped trees. |
| `Reaper.ReapedPassedGates` | cmd/gc/bead_worktree_reaper.go:94-376 | Every reaped tree lies where it should, with a closed bead, known and sufficient age, a scanned process table with nothing in it, and clean successful git probes. |
| `Reaper.ReapedInAllCases` | cmd/gc/bead_worktree_reaper.go:94-376 | With no assumption on candidates or rows, the reaped trees are exactly those in scope that pass every gate, are vetoed by no live row in the sense of `MissedExactly`, and can be removed. |
| `Reaper.ReapedExactly` | cmd/gc/bead_worktree_reaper.go:94-376 | With candidates that normalise apart and no row naming two, the reaped trees are exactly those in scope that pass every gate, are named by no non-terminal row, and can be removed. |
| `Reaper.ScopeIsLocation` | cmd/gc/bead_worktree_reaper.go:177-200 | Scope in terms of directory prefixes. |
| `Reaper.UnknownReapsNothing` | cmd/gc/bead_worktree_reaper.go:249-290 | An unscanned process table or a failed borrow scan reaps nothing. |
| `Reaper.DryRunIsFaithful` | cmd/gc/bead_worktree_reaper.go:331-347 | A dry run reports exactly what a real run does when every removal succeeds. |
| `SkipTracker.Tracker.ShouldSurface` | cmd/gc/bead_worktree_reaper.go:437-447 | News exactly when the path was not remembered with that reason; the decision is remembered. |
| `SkipTracker.Tracker.EndPass` | cmd/gc/bead_worktree_reaper.go:452-461 | Forgets exactly the paths the pass did not judge. |
| `SkipTracker.Tracker.Sweep` | cmd/gc/bead_worktree_reaper.go:409-461 | A pass surfaces exactly what is new; its memory afterwards is exactly its own decisions. |
| `SkipTracker.Tracker.SweepAll` | cmd/gc/bead_worktree_reaper.go:409-461 | Over any run each pass is judged against the one before it alone. |
| `SkipTracker.RunSurfacesOnChange` | cmd/gc/bead_worktree_reaper.go:409-461 | With each path judged once per pass, a path surfaces exactly when the previous pass did not skip it for the same reason. |
| `ProviderOps.StepKeepsInv` | cmd/gc/beads_provider_lifecycle.go:1246-1330 | Each step keeps the semaphore exclusive and every clock reading of its holder current. |
| `ProviderOps.OneAtATime` | cmd/gc/beads_provider_lifecycle.go:2462-2476 | In every interleaving of start and health callers, operations on one city never overlap. |
| `ProviderOps.RecoveriesKeepTheirDistance` | cmd/gc/beads_provider_lifecycle.go:1292-1303 | On a bd city, recovery stamps are at least the cooldown apart, and a recovery begins at least the cooldown after any earlier stamp. |
| `ProviderOps.RecoveryNeedsPlainFailure` | cmd/gc/beads_provider_lifecycle.go:1277-1291 | No recovery follows a breaker-open answer or comes from a caller that does not own the server. |
| `ProviderOps.StartsCanCrowd` | cmd/gc/beads_provider_lifecycle.go:1297-1307 | A run of two recoveries, the first begun a given delay after its stamp and the second a given gap later, for every delay and gap that together reach the cooldown. |
| `ProviderOps.CrowdsExactly` | cmd/gc/beads_provider_lifecycle.go:1297-1307 | Over all runs on a bd city, a recovery can begin a given gap after one that began a given delay after its stamp if and only if delay and gap together reach the cooldown. |

## Left out

- AssignedWork.Collect: takes the legs as given, so a refused census (returned empty and partial) is not modelled, and the list of assignees still to probe is a parameter.
- AssignedWork.HeldUnderSourceRules: whether an unassigned in-progress row is stranded pool work, and the target a legacy workflow row names, are parameters.
- Adoption.Barrier: which agent, instance name and metadata a session resolves to is not modelled; the bead is identified by its session name.
- Adoption.AdoptionSafe: a run's listing names only open beads; a listing served stale would protect a name only as far as it is true.
- ConfigProtocol.ReloadsOverRuns: a reload, a mutation and a refresh are single steps; races inside one locked body are not modelled, nor is the runtime provider swapped beside the configuration; a metadata refresh may bring any configuration, where the source also asks that its revision be the runtime's last one.
- ControllerState.CloseReplaced: all handles are pointers; a store that is not one, which the source schedules for closing without the duplicate check, is not modelled.
- Demand.DemandIsUnits: titles, packs, workspaces, worktree specs and parent sessions collected beside the count are not modelled.
- DependencyFloors.Floors.Ensure: how a floor session is validated, selected, created and resolved is one outcome per attempt.
- DependencyFloors.EnsuredCovered: stated for session names that tell templates apart; a build that reuses another template's session name would replace that entry.
- PoolRealize.Pass.Realise: template resolution, trigger metadata and side effects after a row is chosen are gates with a yes or no answer; phase B is any order of its creates, with the row writes themselves in SessionLocks.
- ProviderOps.OneAtATime: a city's semaphore exists from the start; its creation on first use, operation timeouts, publication of the runtime state and the readiness wait are not modelled.
- ReadyCache.Memo.AnswerAll: callers are one sequence; the per-store once-guard that makes concurrent callers share one read is not modelled.
- Reaper.ReapRig: one rig at a time; reading the bead ID out of a path, symlink resolution, process enumeration and git itself are inputs, and the calls to the skip tracker are the subject of SkipTracker alone.
- RouteRepair.RepairRoutes: rows that share one metadata map are not modelled; each row has its own.
- ScaleCheck.CountDemand: grouping targets by store, and targets that carry an error or no store, are not modelled; route candidates and servability of a row are a parameter.
- SessionLocks.NoSharedIdentifiers: identifiers are ranks in the sorted lock order; deriving names from templates is not modelled, and rows by writers outside the lock protocol are part of the environment.
- SlotIdentity.SlotReadBack: identities are compared after trimming; only ASCII white space is trimmed.
- Dolt and bd subprocesses, environments and credentials, rig cloning, storage policies, hook installation, overlays, event payloads and log lines are not part of this model.
