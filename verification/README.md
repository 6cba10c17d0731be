# The ERI control plane, modelled in Dafny

The controller gives the nodes of a cluster RDMA network interfaces. It looks at the network interfaces (ENIs) of a
cloud instance, decides which of them serve RDMA and which have to be converted or created (the plan), stores the
result as a device record, and reconciles that record until every planned interface (ERI) is attached and switched to
RDMA. On the node a driver configures routes for the new links and finds the RDMA device of a link, and a device
plugin hands the devices out to containers. This project models those decisions and proves what they guarantee.

The theorems follow the data through the system: plan, retry, record, reconcile, ready. `EndToEnd.PlanBecomesReady`,
`RealRuns.ReadyKeepsBudget` and `RealRuns.ReadyReplans` join them.

| File | What it models |
|---|---|
| `Prelude`, `EniTypes` | nil values and errors; an ENI as the cloud lists it, an ERI as the controller plans it |
| `Planner`, `PlannerProperties` | the planner's loops and its specification `PlanFor`; what a plan covers and when it fails |
| `PlanExecution`, `Replan` | carrying a plan out: the queue-pair budget, and planning again |
| `CloudApi`, `Cloud` | the cloud as a log of accepted writes, and the calls the controller makes |
| `Creation`, `SelectEris`, `Retry` | reuse-or-create, one selection attempt, any sequence of attempts |
| `SelectedList` | when the list of a complete attempt names an ENI twice, and that after failed attempts it does not |
| `DeviceReconciler`, `DeviceRuns`, `Progress` | attaching and converting, status rows, runs of reconciles, progress |
| `EndToEnd` | from a completed plan to a ready record, on the planned cards |
| `BareView`, `RecordHistory`, `RealRuns` | the history of a record until all is ready: budget and second plan of real runs |
| `NodeReconciler`, `TagBackfill` | the node event filter, creating the record once, the tag backfill over its shared map |
| `Routes`, `RouteSetup` | the kernel route table, `ensureRoutes`, and the choice of metrics |
| `Text`, `HwAddr` | splitting and printing; matching a link with its RDMA device by GUID, the SMC-R network id |
| `DeviceIds`, `Allocation`, `AllocationProperties`, `DevicePlugin` | device ids, grants and answers, and the plugin's methods |

Code that works step by step is a method with the source's loops, proved against a function or predicate on values;
the theorems are about that function. The cloud, the record store, the kernel route table, the shared map of tagged
ENIs and the device plugin are classes. Every call into the cloud, the API server or the kernel may fail at any point,
and a cloud call may take effect although it reports failure. The cloud, the record store and the route table note the
calls they answered with an error, so that the contracts can say that an operation fails only because of such an
answer or of one of the errors of its own, and otherwise goes through. Time, order of map iteration and listing order
are arbitrary.

`dafny verify dfyconfig.toml` checks the whole project.

## What the theorems assume

- A listing of one instance (`Planner.InstanceListing`) has distinct ids, at most one Primary ENI, which sits on card
  0, a positive queue-pair number on every HighPerformance ENI and none on the others. The planner method itself
  needs only `Planner.Listable`: a queue-pair number on every HighPerformance ENI, without which the Go code
  dereferences nil, and not two Primary ENIs where it converts, which makes it index with -1.
- Retry theorems start from a cloud in which the controller has created nothing for the instance (`Retry.Fresh`), and
  at most 100 cards are missing, one page of the reuse query. Between attempts others may act, as long as the instance
  keeps its attached ENIs and those made for it (`Retry.Elsewhere`); the ENIs made are counted by their tags. The
  methods themselves (`SelectEris.SelectERIs`, `NodeReconciler.EnsureRecord`) do not need any of this:
  `SelectedList.NamesTwiceIff` says exactly when the list they return names an ENI twice, and
  `SelectedList.LostRecordNamesTwice` that re-selecting after a lost record does.
- From a completed plan on (`EndToEnd.CompletedPlanIsReconcilable`, `EndToEnd.PlanBecomesReady`,
  `RealRuns.ReadyKeepsBudget`, `RealRuns.ReadyReplans`): what was attached to the instance before the first attempt is
  InUse, or Attaching if it is not the Primary (`EndToEnd.AttachedInUse`).
- Nobody detaches or deletes an ENI, nobody but the reconciler attaches the ENIs of a record, and the spec of a record
  is not edited. Nobody else writes the creator tag. The cloud accepts an attach only of an Available ENI. The theorems
  of `RealRuns` also assume that nobody but the reconciler attaches ENIs to the instance
  (`RecordHistory.NothingElse`) or changes the traffic mode of those it has or plans (`RecordHistory.LeftToUs`); the
  rest of their premise on the history is what every reconcile promises (`RecordHistory.HistoryIsReconciled`).
  `ReadyReplans` also assumes that old ENIs are still listed in their old order.
- Routes: the configured subnet is not the default route, and the kernel holds one route for a destination and metric,
  where a nil destination and 0.0.0.0/0 are the same. Where metric choice and route set-up are composed, no route to a
  configured destination reaches the chosen metric in between.

## Where the code does less than one might expect

- A created ERI carries queue-pair number 0 in the list (eri.go:171-177 leaves the field unset), a reused one its own,
  which is the planned share (`Retry.CompleteAttempt`).
- The reuse query does not exclude attached ENIs. If the record of an instance was lost and a card is missing again,
  the list names an ENI twice, on two cards (`SelectedList.LostRecordNamesTwice`).
- A converted Primary does not get the creator tag. Without `ManagedNonOwned` the next plan has to convert it again and
  can do so only if equal shares left queue pairs over; otherwise it drops the Primary or fails
  (`Replan.ReplanExactly`, `Replan.ReplanLosesPrimary`).
- An Attaching device leaves no status row. It neither makes the reconciler requeue nor lets it short-circuit
  (`DeviceRuns.RequeueExactly`, `Progress.AttachingIsSilent`), so progress is stated as a measure over repeated
  reconciles and not as requeueing.
- `ensureRoutes` cannot succeed where the link already has two routes to a configured destination, or where another
  link holds the configured metric for it: it always runs into the existing route (`RouteSetup.EnsureRoutes`,
  `RouteSetup.TwoRoutesBlock`). A route that already has the configured metric is kept with whatever gateway it has;
  with the metrics that genRoutesForAddr chooses there is none (`RouteSetup.GatewayInPlace`).
- `Allocate` dereferences nil when rdma_cm is handed out and a container gets no device of its own, which happens
  whenever two containers share one device (`AllocationProperties.SharedDeviceCrashes`) or, when every device is
  handed out, for every container after the first (`AllocationProperties.AllModeServesOne`). Without rdma_cm such a
  container is passed over in the response, which shifts the answers of those behind it
  (`AllocationProperties.ResponseLinesUp`).
- Splitting a device id recovers the device name only for names without a slash (`DeviceIds.IdRoundTrip`).

## Model

| member | source | states |
|---|---|---|
| EniTypes.OwnedMeans | internal/controller/eri.go:468-479 | an interface is owned if all are managed, or it carries the controller's creator tag, key and value |
| Planner.SelectEriFromExist | internal/controller/eri.go:308-376 | for every listing on which the source does not panic, the loops, the in-place removal of card 0 and the early returns produce exactly the specified plan or the specified error |
| Planner.FilterRdma | internal/controller/eri.go:309-316 | the filter with its side effect keeps exactly the RDMA interfaces, in order, and sums exactly their queue pairs |
| Planner.KeepFirstOwned | internal/controller/eri.go:326-335 | the map and the selected list agree: the first owned interface of every card, in listing order |
| Planner.FindMissing | internal/controller/eri.go:336-343 | the create-or-convert list is every card of the instance without an entry, ascending |
| Planner.UsePrimary | internal/controller/eri.go:349-360 | the loop that edits the list it uses appends the Primary and takes exactly card 0 out, or changes nothing |
| Planner.HandOut | internal/controller/eri.go:345-367 | the equal share of what is spare; the Primary takes card 0 where the share is positive and card 0 is missing, and without a positive share no card is left to fill |
| Planner.FirstPerCardPicks | internal/controller/eri.go:326-335 | chosen interfaces are eligible, on pairwise different cards, and no card with an eligible interface is left out |
| PlannerProperties.RdmaMeans | internal/controller/eri.go:309-316 | exactly the interfaces in HighPerformance mode are kept by the filter |
| PlannerProperties.RdmaJoins | internal/controller/eri.go:309-316 | the filter keeps the listing order |
| PlannerProperties.TotalMeans | internal/controller/eri.go:309-316 | only those interfaces count against the limit, each with the queue-pair number it reports |
| PlannerProperties.EntriesDescribe | internal/controller/eri.go:488-502 | each entry of a plan names an interface of the listing with its own kind, MAC, instance and card, and its own queue pairs or else the share |
| PlannerProperties.KeptAreFirst | internal/controller/eri.go:326-335 | an interface is kept if and only if it is eligible and no eligible one on its card is listed before it |
| PlannerProperties.PlanFailsIff | internal/controller/eri.go:361-374 | planning fails if and only if no eligible interface exists and there is no Primary to convert with a positive share, and the share decides which of the two errors it is |
| PlannerProperties.PlanPartitionsCards | internal/controller/eri.go:326-375 | no card and no interface twice, planned and created cards disjoint, and all cards covered exactly when the share is positive or nothing was missing |
| PlanExecution.ShareIsLargest | internal/controller/eri.go:346-348 | a share per missing card fits the unused queue pairs if and only if it is at most the planned one |
| PlanExecution.PlanKeepsBudget | internal/controller/eri.go:308-376 | if the RDMA interfaces fit the queue-pair limit, they still fit it after the plan has been carried out |
| PlanExecution.NoShareNoChange | internal/controller/eri.go:337-366 | over the limit, or with nothing to hand out, nothing is created and nothing is converted |
| PlanExecution.AfterElements | internal/controller/eri.go:149-200 | what is listed after the plan was carried out is what was made for it and the old interfaces, converted where planned |
| Replan.ReplanExactly | internal/controller/eri.go:308-376 | planning again after the plan was carried out selects the same interfaces on the same cards and creates nothing if and only if the Primary was not put to use, or is owned, or equal shares left queue pairs over |
| Replan.ReplanFixedPoint | internal/controller/eri.go:308-376 | with every RDMA interface managed, planning again is always a fixed point |
| Replan.ReplanLosesPrimary | internal/controller/eri.go:468-479 | an input on which it is not: without managed-non-owned the second plan of a lone converted Primary fails |
| CloudApi.HistoryEvolves | internal/controller/eri.go:378-452 | over any history of writes no interface leaves RDMA mode, moves back in status, or changes card once attached |
| CloudApi.AttachedAtMostOnce | internal/controller/eri.go:411-434 | no interface has two accepted attaches in any history |
| CloudApi.CardReadsBack | internal/controller/eri.go:417-419 | card 0 is sent as absent and no other card is; an interface attached for a card of an instance reads back on that card and instance for ever |
| CloudApi.ReuseQueryMeans | internal/controller/eri.go:122-132 | the reuse query asks for the creator tag and for the tag of this instance, key and value |
| CloudApi.CreatorTagSeparation | internal/controller/eri.go:202-234 | over any interleaving of creates, attaches, conversions and tag calls an interface has the creator tag exactly if it had it at the start or was created with it, so one that was there or created without it is never returned by the reuse query |
| Cloud.Cloud.CreateNetworkInterface | internal/controller/eri.go:149-170 | on success one new interface with exactly the three tags, Available and unattached; on failure, which is on record, that or nothing |
| Cloud.Cloud.AttachNetworkInterface | internal/controller/eri.go:412-427 | a successful call leaves the interface attached on the card that was sent; a failed one may or may not have |
| Creation.Capacity | internal/controller/eri.go:255-277 | no capacity when a listed type is unsupported; otherwise the last type decides: one card below two network cards, else the smaller of its network cards and its ERI quantity, and its queue pairs once, or with a GPU once per card in int32 arithmetic |
| Creation.CreatesWithinType | internal/controller/eri.go:255-306 | the plan for a type never creates for a card at or above the number of ERIs the type has, nor more ERIs than that |
| Creation.ReusePage | internal/controller/eri.go:139-148 | entries of the page are paired with the cards in order until either runs out |
| Creation.CreateRest | internal/controller/eri.go:149-180 | the create loop makes no more interfaces than cards were left, changes nothing else, and on success names one interface per card, the created ones with queue pairs 0 |
| Creation.CreateEriForInstance | internal/controller/eri.go:121-181 | reuse then create: what existed is unchanged, what is new was made here, even a failed call never makes the tagged interfaces outnumber the cards, and the entries are first the reuse page with its queue pairs, then created ones with 0 |
| SelectEris.EnsureEriTags | internal/controller/eri.go:210-234 | tagging writes at most the two terway-compat tags on the given interfaces and nothing else; when it succeeds they carry them, and it fails only if the call is refused |
| SelectEris.SelectERIs | internal/controller/eri.go:236-306 | one attempt, whatever is attached: nothing, or the effect of the plan for some listing of the attached interfaces; nil exactly for an unsupported type; an error only if a describe or create call was refused or that listing cannot be planned; otherwise everything selected carries the tags unless just that call was refused |
| Retry.PlanIsStable | internal/controller/eri.go:308-376 | two listings of the same interfaces, in any order and with other tags and statuses, fail with the same error or lead to the same share and the same create list |
| Retry.RetrySafety | internal/controller/eri.go:121-181 | over any sequence of attempts that fail anywhere, even after the cloud created the interface, with others acting in between, the interfaces ever made never outnumber the missing cards, all carry the planned share, and they fit the limit |
| Retry.CompleteAttempt | internal/controller/eri.go:236-306 | a complete attempt, whatever failed before it, returns exactly one interface per missing card, each once, leaves none that was made unused, and carries the share for those made earlier and 0 for those it made |
| SelectedList.NamesTwiceIff | internal/controller/eri.go:122-148 | the list of a complete attempt names an interface twice if and only if the reuse query hands it, for a missing card, one that the listing already puts to use: first on its card, or the Primary to convert |
| SelectedList.LostRecordNamesTwice | internal/controller/eri.go:122-148 | an input on which it does: one interface made earlier and attached, and a second card missing |
| SelectedList.CompleteListIsWellChosen | internal/controller/eri.go:236-306 | after nothing but failed attempts the list names no interface and no card twice, and serves every card if there was a share to hand out |
| DeviceReconciler.ConvertPrimaryENI | internal/controller/eri.go:183-200 | success means the interface is in RDMA mode with the given queue pairs, whether or not tagging worked; failure means that very conversion was refused; no other mode change, nothing attached |
| DeviceReconciler.RowsMean | internal/controller/eri.go:404-449 | the row of each of the three tests: Ready, Pending or Failed after an attach, Ready or Failed after a conversion, and none otherwise |
| DeviceReconciler.EnsureDevice | internal/controller/eri.go:404-449 | the three tests of one device make exactly the specified row and call, a successful call has its effect, one that is not successful was made and refused, and attach and conversion carry the device's own card and queue pairs |
| DeviceReconciler.EnsureEriForInstance | internal/controller/eri.go:378-452 | with other writers between the calls: the rows are those of the listing and of each call's outcome, effects of successful calls last, calls without success were made and refused, planned interfaces are attached and converted only as planned; an error names the device it stopped at, which is missing from the listing or has no status there, with all before it served; a known spec of one page gives none but a refused listing |
| DeviceRuns.Reconcile | internal/controller/erdmadevice_controller.go:54-95 | a reconcile short-circuits, makes one step, or fails; it fails only if reading the record, listing its interfaces or storing the status was refused or a device is missing from the listing or without a status; it requeues exactly when the stored status has a row that is not Ready; attaches and mode changes are only those of the stored spec |
| DeviceRuns.RowsFollow | internal/controller/eri.go:395-451 | the status ids are an order-preserving subsequence of the spec ids |
| DeviceRuns.FollowsShort | internal/controller/erdmadevice_controller.go:71-78 | a status as long as the spec matches it position by position, which is what the short-circuit relies on |
| DeviceRuns.BranchesExclusive | internal/controller/eri.go:404-449 | at most one branch fires, and exactly which interfaces leave no row; an Available or InUse planned device (the Primary InUse) leaves one |
| DeviceRuns.RequeueExactly | internal/controller/erdmadevice_controller.go:89-93 | a reconcile asks to come back if and only if it called an attach or a conversion failed |
| DeviceRuns.ReadySoundness | internal/controller/erdmadevice_controller.go:71-87 | in every reachable state a Ready row is about an interface that is InUse and RDMA, and on a short-circuit every device of the spec is, even if status updates were lost |
| Progress.MeasureNeverRises | internal/controller/eri.go:396-451 | whatever happens in the cloud, the ranks of a planned spec never rise and it stays reconcilable |
| Progress.ReconcileFalls | internal/controller/eri.go:411-449 | a reconcile lowers the measure by at least the number of its calls that succeed, whatever the others do |
| Progress.FinishFalls | internal/controller/eri.go:404-410 | a cloud step that finishes an attach lowers the measure |
| Progress.ZeroIffReady | internal/controller/eri.go:404-449 | the measure is zero if and only if every device is ready; above zero some device is actionable or attaching |
| Progress.FinalReconcile | internal/controller/erdmadevice_controller.go:71-94 | at zero one more stored reconcile closes the record, and afterwards every reconcile is a no-op |
| Progress.AttachingIsSilent | internal/controller/eri.go:404-449 | an interface that is being attached: an empty status, no requeue, no short-circuit, and one step left |
| Progress.RunsConverge | internal/controller/erdmadevice_controller.go:54-95 | in any run, the reconciles with a successful call and the attaches finished, plus the remaining measure, never exceed the initial measure, at most two per device |
| EndToEnd.PlannedAreOwned | internal/controller/eri.go:326-360 | every planned interface is the Primary or an owned RDMA interface of the listing |
| EndToEnd.CompletedPlanIsReconcilable | internal/controller/node_controller.go:100-147 | the spec stored for a complete attempt is one on which the reconciler makes progress, whatever attempts came before |
| EndToEnd.AttachedWherePlanned | internal/controller/eri.go:411-434 | for any spec of distinct devices: a planned interface that left Available was attached once, by the plan's own attach, and reads back on its planned card |
| EndToEnd.CompletedPlanSitsAsPlanned | internal/controller/eri.go:411-434 | from a completed plan on, every entry that is attached at all sits on its planned card, and none is attached twice |
| EndToEnd.PlanBecomesReady | internal/controller/erdmadevice_controller.go:54-95 | from a completed plan, every run takes at most two productive steps per device; where nothing is left to act on or attaching, every device is ready; and then the next stored reconcile closes the record |
| RecordHistory.HistoryIsReconciled | internal/controller/erdmadevice_controller.go:54-95 | what every reconcile promises of the writes since the record was stored, and nobody else attaching to the instance, make the history that the next two rows start from |
| RealRuns.ReadyKeepsBudget | internal/controller/eri.go:308-376 | from failed attempts through a complete one to an all-ready record: if the listing planned from fits the queue-pair limit, so does what is attached in the end |
| RealRuns.ReadyReplans | internal/controller/eri.go:308-376 | after such a run the next plan is the same list if and only if the Primary was not put to use, or is owned, or queue pairs were left over |
| NodeReconciler.EnsureRecord | internal/controller/node_controller.go:100-160 | where a record exists nothing is selected, created or rewritten (its tag backfill is modelled in TagBackfill); success without a record means an unsupported type, otherwise the record names every selected interface in order, field by field; failure stores nothing and means that the API server refused a call or the selection failed for one of its reasons |
| NodeReconciler.NoLostWakeUp | internal/controller/node_controller.go:236-290 | in every history of versions, an owned and ready version was preceded by a wake-up at the version that began the current owned-and-ready stretch |
| NodeReconciler.NoLostProvider | internal/controller/node_controller.go:257-276 | in every history of versions, an owned version was preceded by a wake-up at the version that gave the node its present provider id |
| NodeReconciler.WakeUpsMean | internal/controller/node_controller.go:257-276 | every version of an owned node that is being deleted wakes the reconciler, one that is not owned never does, and nothing else does but becoming owned, becoming ready, or a new provider id |
| NodeReconciler.ReadyExactly | internal/controller/node_controller.go:236-243 | a node is ready if and only if its first condition of type Ready is true |
| NodeReconciler.OwnedMeans | internal/controller/node_controller.go:245-255 | a node is owned if and only if every selected label has the wanted value, an absent one counting as empty |
| TagBackfill.StepKeepsBalance | internal/controller/node_controller.go:170-198 | every atomic step of any call keeps each mark accounted for exactly once, as held by one call or confirmed once |
| TagBackfill.BackfillProtocol | internal/controller/node_controller.go:170-198 | in every interleaving the calls' claims are disjoint, a mark is confirmed or held by one call and never both, and each interface is confirmed at most once |
| TagBackfill.RollbackIsPrivate | internal/controller/node_controller.go:186-190 | a rollback step removes exactly one mark, which no other call holds and no call confirmed |
| TagBackfill.NonEmptyMeans | internal/controller/node_controller.go:172-176 | what is looked at: every id that is not empty as often as it occurs, and no empty one |
| TagBackfill.NonEmptyJoins | internal/controller/node_controller.go:172-176 | in the order of the records and their devices |
| TagBackfill.TaggedENIs.BackfillEriTags | internal/controller/node_controller.go:170-198 | as one call in a run of the steps of all calls: it looks at every id that is not empty, in order, claims exactly those it found unmarked, tags just these in one call if there are any, gives each claim back in order where that fails, and ends holding nothing, with what it tagged confirmed once |
| Routes.Kernel.RouteAdd | internal/drivers/netdev.go:149-155 | an add meets an existing route exactly when destination and metric are taken; otherwise it is stored or refused |
| Routes.DestsMeet | internal/drivers/netdev.go:185-187 | two ways to name a destination mean the same only if they are the same, or nil and 0.0.0.0/0 |
| Routes.ApplyRoute | internal/drivers/netdev.go:140-173 | for one destination, over a stale snapshot: on success exactly one route with exactly the metric, the old one with its gateway if it had that metric and else the configured one; nothing else changed; no success when the metric is taken or the link has several routes, and no collision otherwise; it fails with the first delete or add that the kernel answers with an error, and else succeeds |
| RouteSetup.EnsureRoutes | internal/drivers/netdev.go:128-216 | every configured destination ends with exactly one route of exactly its metric (the old one where the metric was there already, else the configured one), the direct route is in place before any gateway route is added, other links and destinations are untouched, existing routes block success exactly as they cause collisions, and with a direct route configured it fails only with the first call that the kernel answers with an error |
| RouteSetup.SelectMetric | internal/drivers/netdev.go:223-239 | the metric is at least the default, above every listed one for the destination, and no larger than that needs |
| RouteSetup.GenRoutesForAddr | internal/drivers/netdev.go:218-253 | a direct and a default route whose metrics are at least 200, exceed every metric of the destination on any link, and are the smallest such |
| RouteSetup.NeverCollides | internal/drivers/netdev.go:141-213 | with metrics above all existing ones, ensureRoutes is blocked if and only if the link itself has several routes to a destination |
| RouteSetup.GatewayInPlace | internal/drivers/netdev.go:185-201 | the configured route with its gateway is in place if and only if the metric was free or held by that very route, so always with metrics above all existing ones |
| RouteSetup.LowestStays | internal/drivers/netdev.go:141-253 | a lowest-metric route of another link stays the lowest and stays as it was, however far the set-up gets |
| RouteSetup.SetUpRoutes | internal/drivers/netdev.go:128-216 | with metrics above all listed ones: an add collides only with duplicate routes of the link, on success every configured route is in place, and on every outcome only this link's configured destinations changed and other links keep their best routes |
| RouteSetup.TwoRoutesBlock | internal/drivers/netdev.go:141-173 | a table on which a link with two routes to its subnet can never be configured, with freshly chosen metrics |
| RouteSetup.ConfigureLink | internal/drivers/netdev.go:35-70 | metrics chosen as the best over the starting table, others changing the table in between (on record), routes set up on what they left: never a collision without duplicate routes of the link, on success every configured route in place, and on every outcome only this link's configured destinations changed and other links keep their best routes |
| Text.SplitJoin | internal/drivers/utils_linux.go:204 | splitting undoes joining if and only if no part holds the separator |
| Text.HexPairRoundTrip | internal/drivers/utils_linux.go:208-214 | every byte printed as two hexadecimal digits parses back to itself |
| Text.ParseByteAccepts | internal/drivers/utils_linux.go:208-214 | a group is accepted if and only if it is not empty, all hexadecimal digits of either case, and zero before the last two |
| HwAddr.CloseGap | internal/drivers/utils_linux.go:215 | the overlapping in-place append keeps bytes 0, 1, 2 and 5, 6, 7 of the buffer in order and drops exactly bytes 3 and 4 |
| HwAddr.ParseERdmaLinkHwAddr | internal/drivers/utils_linux.go:202-216 | success if and only if there are eight groups that are hexadecimal bytes, with the kept six in reverse order; otherwise the first bad group |
| HwAddr.UniversalLocalInverted | internal/drivers/utils_linux.go:188 | the address looked for, like the EUI-64, differs from the address only in the bit of value 2 of its first byte |
| HwAddr.MacRoundTrip | internal/drivers/utils_linux.go:184-216 | for every MAC and any two middle bytes, the printed GUID of its EUI-64 parses to the address that is looked for |
| HwAddr.OneAdapter | internal/drivers/utils_linux.go:179-216 | 00:16:3e:01:02:03 matches the node GUID 03:02:01:fe:ff:3e:16:02 |
| HwAddr.MatchesExactly | internal/drivers/utils_linux.go:195 | a GUID matches a MAC if and only if its bytes are that MAC's EUI-64 backwards, for some middle bytes |
| HwAddr.OneMacPerGuid | internal/drivers/utils_linux.go:195 | no GUID matches two different addresses |
| HwAddr.RenderInjective | internal/drivers/utils_linux.go:195 | comparing printed addresses compares the addresses |
| HwAddr.GetERdmaFromLink | internal/drivers/utils_linux.go:179-200 | the first link that matches, all before it parsing and not matching; the first malformed GUID ends the search; otherwise not found |
| HwAddr.OwnLinkIsFound | internal/drivers/utils_linux.go:179-200 | among links of distinct MACs every adapter finds its own, and an adapter without one finds none |
| HwAddr.PNetIDShape | internal/drivers/utils_linux.go:237-239 | the network id of a printed address is two characters a byte, digits or capital letters A to F |
| HwAddr.PNetIDNamesOneMac | internal/drivers/utils_linux.go:237-239 | two printed addresses give the same network id if and only if they are the same |
| DeviceIds.DeviceIdInjective | internal/deviceplugin/deviceplugin.go:225-236 | no two advertised ids coincide, whatever the names hold |
| DeviceIds.NameInMeans | internal/deviceplugin/deviceplugin.go:271-275 | an id names a device if and only if it has a slash, and then the part before the first one |
| DeviceIds.IdRoundTrip | internal/deviceplugin/deviceplugin.go:271-281 | splitting an id recovers the name if and only if the name holds no slash |
| DeviceIds.ListingIsExact | internal/deviceplugin/deviceplugin.go:222-236 | exactly 200 distinct ids for each device, each with its device's NUMA node, and nothing else |
| DevicePlugin.IndexedByName | internal/deviceplugin/deviceplugin.go:46-50 | the device map is keyed by each device's own name and has every name of the list |
| DevicePlugin.LaterWins | internal/deviceplugin/deviceplugin.go:46-50 | of several devices of one name the last in the list is the one in the map |
| DevicePlugin.ERDMADevicePlugin.constructor | internal/deviceplugin/deviceplugin.go:46-74 | the plugin holds the map of the list, and hands out rdma_cm only where the host has it |
| DevicePlugin.ERDMADevicePlugin.ListAndWatch | internal/deviceplugin/deviceplugin.go:222-236 | in any map order, the list that is sent is a listing of the device map |
| DevicePlugin.ERDMADevicePlugin.PickRequested | internal/deviceplugin/deviceplugin.go:271-282 | the fresh names of a request in order of first mention, remembering the last; it fails exactly when an id names no device |
| DevicePlugin.ERDMADevicePlugin.PickAll | internal/deviceplugin/deviceplugin.go:284-293 | every free device once, in any order, remembering the first |
| DevicePlugin.ERDMADevicePlugin.CollectPaths | internal/deviceplugin/deviceplugin.go:295-307 | the flattened paths are those of the granted devices with multiplicity, in any map order |
| DevicePlugin.ERDMADevicePlugin.Allocate | internal/deviceplugin/deviceplugin.go:260-330 | the call meets nil exactly when an id names no device, or rdma_cm is handed out and a container comes away empty-handed; otherwise the grants and answers are as specified |
| Allocation.GrantsExact | internal/deviceplugin/deviceplugin.go:266-294 | a container gets exactly what it wants and no container before it wanted, each device once |
| Allocation.GrantsExclusive | internal/deviceplugin/deviceplugin.go:266-294 | no device is granted to two containers |
| Allocation.GrantsConserve | internal/deviceplugin/deviceplugin.go:266-294 | the union of all grants is what was asked for, or every device |
| Allocation.EmptyHandedMeans | internal/deviceplugin/deviceplugin.go:276-288 | the grant is empty if and only if everything the container wants was wanted before it |
| Allocation.BagOrder | internal/deviceplugin/deviceplugin.go:299-307 | the order in which a map is iterated does not show in the paths |
| Allocation.AnswersLineUp | internal/deviceplugin/deviceplugin.go:315-327 | there is one answer per container if and only if rdma_cm is handed out or nobody's grant is empty, and then they pair by position |
| AllocationProperties.IssuedIdMisses | internal/deviceplugin/deviceplugin.go:271-280 | an issued id leads to nil if and only if the part of its device's name before a slash is no device |
| AllocationProperties.IssuedNeverMiss | internal/deviceplugin/deviceplugin.go:225-281 | with names free of slashes, a call made of issued ids never misses a device |
| AllocationProperties.SharedDeviceCrashes | internal/deviceplugin/deviceplugin.go:308-321 | two containers given issued ids of one device, with rdma_cm handed out, make the call dereference nil |
| AllocationProperties.AllModeServesOne | internal/deviceplugin/deviceplugin.go:284-293 | when every device is handed out, some container comes away empty-handed if and only if there are two containers or no device |
| AllocationProperties.ResponseLinesUp | internal/deviceplugin/deviceplugin.go:299-327 | the response pairs with the containers if and only if none is empty-handed, and then each answer has the container's own paths, rdma_cm last where that is handed out, and the pnet id of the last of its devices picked by id, or of the first one met |
| AllocationProperties.PnetIdsDiffer | internal/deviceplugin/deviceplugin.go:319-321 | with distinct MACs, no two containers of a call are told the same pnet id |

## Left out

- Cloud, Kubernetes, gRPC, CRI and metadata calls: modelled only as steps that may fail or take effect; requests carry
  the fields that matter to the decisions, and credentials, regions, security groups and v-switches are not modelled.
- A traffic mode that is nil: read as Standard. In the planner that is what the source does; `EnsureEriForInstance`
  dereferences it, which the model does not show.
- The free-text message of a status row, and `Spec.JumboFrame`.
- Deletion of nodes and records (`RemoveERdmaDevices`), and the wait for a node that is not ready, which depends on
  time.
- `InstanceIDFromNode`: a lookup with no state behind it.
- `ensureAddress`, MTU selection and link up/down: environmental; only the routes of `EnsureNetDevice` are modelled.
- `getNetConfFromMetadata`: metadata access.
- `checkExpose`: its regular expression does not admit the `erdma_*` wildcard that the code after it and the
  documentation mention, so no claim is made about it.
- `PreStartContainer`, `Start`, `Stop` and `Register` of the device plugin: process and socket handling.
- Driver installation, shell commands, certificates, credentials, the pod webhook, configuration parsing and logging.
- SelectEris.SelectERIs: nobody else writes to the cloud during one attempt; others act between attempts, and between
  the calls of a reconcile.
- HwAddr.PNetIDOf: letters outside a to z are left as they are by the model's upper-casing; printed addresses hold none.
- Routes: the scope of a route, and gateways of routes that are kept, play no part in the metric and uniqueness rules.
- Two plugin instances: exclusivity is stated within one call, as the source keeps no state between calls.
