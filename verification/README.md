# Capability Hub: a verified model

Capability Hub is a control plane that decides what an agent may load and run. This project
models the state machines and graph algorithms behind those decisions and proves what every
run of them keeps.

Each topic has the same layers. A *transition function* follows the branches of the source
(`BudgetTree.ReserveTx`, `Draining.Advance`, `Registry.Activate`, `Reasoning.RecommendStored`,
`Residency.Add`, `Approvals.Lazy`, ...). Where the source updates objects in place, a *class*
with the same fields and loops is proved to compute exactly that function. The *main results*
are lemmas about the functions: invariants of every run, agreement between implementations,
comparison with an independent definition, round trips. Beside them each transition is told a
second time without its own helpers: what is written and what is left alone, and exactly when the
call succeeds (`BudgetEffects`, `BudgetCharges`, `BudgetCalls`,
`DrainEffects`, `RevisionPins`, `RegistryEffects`,
`VersionTexts`, `LatestRevision`, `LockedManifests`, `ReasoningAdvice`, `ResidencyEffects`, `InliningEffects`,
`ApprovalEffects`, `ReferenceEffects`).

| topic | modules | main results |
|---|---|---|
| Hard-cap budgets | `Scopes`, `BudgetBook`, `BudgetTree`, `BudgetRuns`, `BudgetBounds`, `BudgetUndo`, `BudgetAllocation`, `BudgetEffects`, `BudgetCharges`, `BudgetCalls`, `HierarchicalBudget` | stored counters are sums over subtrees and stay under every cap, in all runs; each call is accepted exactly when caps and allocation still hold with it; a cancellation undoes its reservation; when checking the leaf alone is enough |
| Three budgets, one book | `LedgerSpec`, `BudgetLedgers`, `LedgerTree`, `BudgetStore`, `SqliteBudget`, `BudgetRefinement` | the in-memory ledger, the flat store and the tree store accept the same operations and show the same numbers |
| Budget locks | `BudgetLocks`, `LockSteps`, `LockRuns` | every interleaving of lock, check, update and unlock steps is a serial order of whole calls, in real-time order; no deadlock; every call can return |
| Draining | `Draining`, `DrainRuns`, `DrainEffects`, `DrainControllers`, `DrainedService`, `PinNames`, `RevisionPins` | lifecycle and pins in all runs; cancellation is asked for exactly from the deadline on; revision pins handed out are given back; an execution's revision is never retired while its provider runs, in all interleavings, exactly for the pin names that the controller tells apart |
| Registry | `Versions`, `Cycles`, `Registry`, `VersionTexts`, `RegistryEffects`, `LatestRevision`, `CapabilityRegistries` | cycle search is sound and complete; without a revision the highest version is activated; the active set is closed, acyclic and free of conflicts after all runs |
| Locks and catalog | `Json`, `ActivationLock`, `LockedManifests`, `Catalog` | a lock validates exactly when it is the export, and says what is active; the activation loop reaches the least fixed point whatever the order |
| Reasoning tiers | `Reasoning`, `ReasoningAdvice`, `ReasoningRouters` | the persisted recommender and the in-memory router agree on all runs; an escalation goes to the next open tier; an attempt is stopped exactly when it was seen often enough |
| Context residency | `Residency`, `ResidencyEffects`, `ContextState`, `ContextInventories`, `LocalContextStates` | evictions are a shortest prefix of the ranking, the section of least use for its size first; failed operations and restarts cannot be noticed |
| Reference inlining | `OpenApi`, `InliningEffects` | inlining is exact: it fails with the cycle error exactly when unfolding never ends; no reference is left, nothing else is touched, and doing it twice is doing it once |
| Approvals | `Approvals`, `ApprovalEffects`, `ApprovalStores` | expiring on demand agrees with expiring on time; a request is decided at most once, an approval consumed at most once, and a record tells exactly what was done with it |
| Signed references | `References`, `ReferenceEffects` | base64url round trip; exactly which texts decode, which references verify, and which refusal the others get |

`Sums` holds totals over finite maps and sizes of finite sets, `Orders` least elements of finite sets,
`Texts` the cutting of a text at a separator.

## Conventions

- A database transaction, or a file replaced as a whole, is one step that commits or changes
  nothing. A Python exception is a value: a verdict, a fault, a refusal.
- Integers are unbounded, as in Python. Clock readings are `real`. A residency score is a
  quotient of integers and is compared exactly.
- An opaque scope identifier is the path it is derived from (`ScopeId`), which is what an
  injective keyed hash gives. Reservation identifiers of the tree are positions in its table,
  which never repeat; the flat store takes its identifiers as arguments.
- Digests, signatures and the JSON writer and reader are function parameters. Where a result
  needs one of them to be injective or to read back what it wrote, its `requires` says so.
- An iteration order that the source leaves to a set or a dictionary is arbitrary here.

## What the proofs found

Each of these is a property one would expect, that the code does not have. The named members
give a concrete run or the exact condition.

- A hold can become impossible to give back. Configuring counts the limits alone, finishing
  counts limits together with counters already touched, so a full set of limits beside a held
  counter without a limit refuses even a cancellation (`BudgetUndo.CancelCanBeRefused`;
  `BudgetRuns.HoldAlwaysSettles` is the exact condition).
- Two calls whose pin names differ only before normalization share one pin, and the first to
  finish unpins the other's running provider; a name read as one whose pin is already held can
  take that pin away (`PinNames.TwoNamesOnePin`, `PinNames.TakingOver`). The pins are safe with a
  set of names if and only if the controller tells these apart
  (`PinNames.SafeExactlyWhenSeparate`).
- Resetting the empty task name is accepted by the in-memory recommender and refused by the
  persisted one; it is their only difference (`Reasoning.StepsAgree`).
- A failing `ContextInventory.add` puts back the entry it replaced but not the entries it had
  already evicted (`Residency.FailedAddLoses`). `LocalContextState` does undo everything.
- With a clock that moves back, expiring on demand forgets deadlines that had passed, and an
  approval can be consumed after a caller has been told that it had expired
  (`Approvals.ClockSetBack`). For each kind of call that reads records there is the exact condition
  under which the answer still is that of a store expiring on time: `Approvals.ReadingsAgreeIff`,
  `Approvals.ListingsAgreeIff`, `Approvals.DecisionsAgreeIff`, `Approvals.ConsumptionsAgreeIff`.
- A reference bound to a scope or purpose with a character outside ASCII can be issued but never
  verified, because `hmac.compare_digest` refuses such text; one bound to such a revision is
  refused wherever a revision is expected (`References.ForeignTextNeverVerifies`;
  `References.IssuedVerifies` is the exact condition).

## Model

| member | source | states |
|---|---|---|
| Scopes.ChainIsAncestors | src/capabilityhub/budget.py:156-167 | The chain that every charge walks holds a scope exactly when it is the charged scope or one of its ancestors |
| Scopes.ChainDistinct | src/capabilityhub/budget.py:156-167 | No ledger occurs twice in a chain, so no charge is applied twice |
| Scopes.ValidateAmounts | src/capabilityhub/budget.py:55-66 | Loop equals the normal form: a missing name or a negative value rejects the whole mapping, zeros go only on request |
| Scopes.NormalizedIsStable | src/capabilityhub/budget.py:55-66 | Normalizing twice is normalizing once, and no counter reads differently afterwards |
| Scopes.NormalizedExactly | src/capabilityhub/budget.py:55-66 | Amounts are taken exactly when every name is non-empty and no value negative; the given values are kept, without the zeros if those are to go |
| BudgetBook.StepKeepsCaps | src/capabilityhub/budget.py:104-122 | Any reserve, reconcile or cancel keeps used + reserved at or under every limit of every scope |
| BudgetBook.RunKeepsCaps | src/capabilityhub/budget.py:104-122 | The same for every sequence of calls |
| BudgetBook.SumsSettle | src/capabilityhub/budget.py:246-273 | Settling takes the hold out of, and puts the charge into, exactly the ancestors of the charged scope, and touches no other sum |
| BudgetBook.ReservationIsHonoured | src/capabilityhub/budget.py:246-262 | Charging at most what was reserved, or cancelling, is never refused, whatever else happened in between |
| BudgetTree.FitsAgree | src/capabilityhub/hierarchical_budget.py:446-469 | The stored-counter check along the chain decides the same as the check on subtree sums of the history |
| BudgetTree.HoldsAreCovered | src/capabilityhub/hierarchical_budget.py:504-522 | An active hold is covered by the reserved counter of every scope in its chain, so the negative-counter branch is dead |
| BudgetTree.ReserveRefines | src/capabilityhub/hierarchical_budget.py:318-349 | A tree reservation gets the verdict of the reference accounting and keeps the invariant, or the counter-bound error changing nothing |
| BudgetTree.FinishRefines | src/capabilityhub/hierarchical_budget.py:367-402 | The same for reconcile and cancel, including a foreign scope, an unknown reservation and one already finished |
| BudgetTree.OpenRootKeepsInv | src/capabilityhub/hierarchical_budget.py:101-135 | Opening a root, new or existing, keeps conservation, caps and allocation |
| BudgetTree.CreateChildKeepsInv | src/capabilityhub/hierarchical_budget.py:179-244 | Creating a child, through any handle, keeps conservation, caps and allocation |
| BudgetTree.ConfigureKeepsInv | src/capabilityhub/hierarchical_budget.py:246-303 | Changing limits, through any handle, keeps conservation, caps and allocation |
| BudgetTree.ChildLimitsOfNewLimits | src/capabilityhub/hierarchical_budget.py:598-613 | Replacing one child's limits changes exactly its own share of the parent's allocation |
| BudgetRuns.TreeStepKeepsInv | src/capabilityhub/hierarchical_budget.py:246-402 | Every one of the five calls, with any arguments, keeps the whole invariant |
| BudgetRuns.RunKeepsInv | src/capabilityhub/hierarchical_budget.py:246-402 | Every sequence of calls keeps the whole invariant |
| BudgetRuns.ReachableConservation | src/capabilityhub/hierarchical_budget.py:419-522 | In every reachable state, at every scope and counter: reserved is the sum of the subtree's active holds, used the sum of its charges, both together are under the limit, and the children's limits sum to at most the parent's |
| BudgetRuns.NeverCorrupt | src/capabilityhub/hierarchical_budget.py:419-444 | With a genuine handle no call after any run ends in one of the corruption errors |
| BudgetRuns.HoldAlwaysSettles | src/capabilityhub/hierarchical_budget.py:367-402 | After any run a hold can be cancelled or charged up to its size exactly when no scope of its chain has too many counter names |
| BudgetEffects.ReserveExactlyWithinCaps | src/capabilityhub/hierarchical_budget.py:318-349 | A reservation is accepted exactly when every cap of every scope still holds with it |
| BudgetEffects.FinishExactlyWithinCaps | src/capabilityhub/hierarchical_budget.py:367-402 | An active reservation is settled exactly when every cap still holds with the charge in its place |
| BudgetEffects.ConfigureWrites | src/capabilityhub/hierarchical_budget.py:246-303 | An accepted configuration found the expected limits, gives every changed counter its new limit, and leaves every other limit, scope, counter and row |
| BudgetEffects.ConfigureRefused | src/capabilityhub/hierarchical_budget.py:246-303 | A refused one changes nothing, and says which of these it is: no such scope below that root, a handle that misplaces it, limits other than expected, too many limits |
| BudgetEffects.ConfigureExactly | src/capabilityhub/hierarchical_budget.py:246-303 | With the stored limits in hand: accepted exactly when there are not too many limits and with the new ones every cap and every allocation still holds |
| BudgetEffects.OpenRootOpens | src/capabilityhub/hierarchical_budget.py:101-135 | Opening stores a new root with its limits and touches nothing else; an existing one is accepted exactly with the same limits |
| BudgetEffects.CreateChildOpens | src/capabilityhub/hierarchical_budget.py:179-244 | An accepted creation stores the child below its parent with its limits and touches nothing else; a refused one changes nothing |
| BudgetEffects.CreateChildExactly | src/capabilityhub/hierarchical_budget.py:179-244 | Accepted exactly when the parent is not too deep and either the child is there with the same limits, or with the new child every allocation still holds |
| BudgetEffects.CreateChildRefused | src/capabilityhub/hierarchical_budget.py:179-244 | Which refusal a creation through a genuine handle gets: too deep, unknown parent, or there with other limits |
| BudgetCharges.ReserveCharges | src/capabilityhub/hierarchical_budget.py:318-349 | An accepted reservation adds its amounts to what the scope and each ancestor hold reserved, changes no other figure, and stores one active row with them |
| BudgetCharges.FinishCharges | src/capabilityhub/hierarchical_budget.py:367-402 | An accepted ending takes the hold from the scope and each ancestor, adds the actual amounts to what they used, changes no other figure, and marks that row alone |
| BudgetCalls.LimitsRefused | src/capabilityhub/hierarchical_budget.py:562-568 | Limits are refused as such exactly when there are none, more than a hundred, a name is missing or a value negative |
| BudgetCalls.AmountsRefused | src/capabilityhub/hierarchical_budget.py:524-528 | Amounts are refused as such exactly when a name is missing, a value negative, or more than a hundred are not zero |
| BudgetCalls.ConfigureCall | src/capabilityhub/hierarchical_budget.py:246-303 | With the amounts as passed: an accepted configuration found exactly the expected limits and sets exactly the changed ones on top; a call that is not accepted changes nothing |
| BudgetCalls.OpeningCalls | src/capabilityhub/hierarchical_budget.py:101-244 | An accepted opening or creation leaves the scope with exactly the limits passed, and nothing else changed |
| BudgetCalls.ReserveCall | src/capabilityhub/hierarchical_budget.py:318-349 | An accepted reservation adds exactly the amounts passed to what the scope and each ancestor hold reserved, and nothing elsewhere |
| BudgetCalls.FinishCall | src/capabilityhub/hierarchical_budget.py:367-402 | An accepted ending takes exactly what was held and adds exactly the actual amounts passed, at the scope and each ancestor |
| BudgetUndo.CancelUndoesReserve | src/capabilityhub/hierarchical_budget.py:318-402 | Cancelling an accepted reservation at once succeeds and returns every counter of every scope to its reading before |
| BudgetUndo.CancelCanBeRefused | src/capabilityhub/hierarchical_budget.py:471-490 | A three-call run after which a cancellation fails with the counter-bound error |
| BudgetBounds.TreeStepKeepsBounds | src/capabilityhub/hierarchical_budget.py:471-490 | Every call keeps the rows of every scope, limits and counters alike, within the bound of one read |
| BudgetBounds.RowsAreBounded | src/capabilityhub/hierarchical_budget.py:623-633 | After any run no scope has more rows than the bound, so the corruption branches of reading are dead |
| BudgetAllocation.ShareSplits | src/capabilityhub/hierarchical_budget.py:598-613 | What an entry charged strictly below a scope is the sum over the scope's children of what it charged there |
| BudgetAllocation.LoadSplits | src/capabilityhub/hierarchical_budget.py:598-613 | A scope charged only through its leaves carries exactly the sum of its children's loads |
| BudgetAllocation.RoomClimbs | src/capabilityhub/hierarchical_budget.py:570-613 | If a counter is limited everywhere and charged only at leaves, room at a child is room at its parent |
| BudgetAllocation.RoomAtEveryAncestor | src/capabilityhub/hierarchical_budget.py:570-613 | Hence room at every ancestor |
| BudgetAllocation.LeafCapDecides | src/capabilityhub/hierarchical_budget.py:446-469 | Then checking the cap of the leaf alone decides exactly what checking the whole chain decides |
| HierarchicalBudget.ResolveChain | src/capabilityhub/hierarchical_budget.py:419-444 | The walk over stored parents ends, returns the root-to-leaf chain, and fails exactly for a scope that is unknown under that root |
| HierarchicalBudget.CountersInBounds | src/capabilityhub/hierarchical_budget.py:471-490 | True exactly when no scope of the chain would know too many counters |
| HierarchicalBudget.CheckCapacity | src/capabilityhub/hierarchical_budget.py:446-469 | Passes only if every scope fits; otherwise reports a genuine overrun at the first scope from the root that does not fit |
| HierarchicalBudget.SumOfChildLimits | src/capabilityhub/hierarchical_budget.py:598-613 | The loop's total is the children's allocation of that counter without the excluded scope |
| HierarchicalBudget.ParentAllocates | src/capabilityhub/hierarchical_budget.py:570-596 | Passes exactly when no counter the parent limits would be over-allocated |
| HierarchicalBudget.ChangesFit | src/capabilityhub/hierarchical_budget.py:271-290 | Passes exactly when each new limit covers the scope's own load and its children's limits |
| HierarchicalBudget.StageReserved | src/capabilityhub/hierarchical_budget.py:492-502 | Adding scope by scope is adding the hold on the whole chain at once |
| HierarchicalBudget.StageReplaced | src/capabilityhub/hierarchical_budget.py:504-522 | Replacing scope by scope is replacing on the whole chain at once, and fails exactly when some scope does not cover the hold |
| HierarchicalBudget.PrepareChild | src/capabilityhub/hierarchical_budget.py:179-244 | The statements of the transaction compute the create-child transition |
| HierarchicalBudget.PrepareConfigure | src/capabilityhub/hierarchical_budget.py:246-303 | The statements of the transaction compute the configure transition, whose effect and acceptance are `BudgetEffects.ConfigureWrites` and `BudgetEffects.ConfigureExactly` |
| HierarchicalBudget.PrepareReserve | src/capabilityhub/hierarchical_budget.py:318-349 | The statements compute the reserve transition; it is refused for capacity exactly when a genuine overrun is reported |
| HierarchicalBudget.PrepareFinish | src/capabilityhub/hierarchical_budget.py:367-402 | The statements compute the reconcile or cancel transition |
| HierarchicalBudget.HierarchicalBudgetStore.OpenRoot | src/capabilityhub/hierarchical_budget.py:101-135 | New state and verdict are those of the transition function; the store keeps the invariant |
| HierarchicalBudget.HierarchicalBudgetStore.CreateChild | src/capabilityhub/hierarchical_budget.py:179-244 | New state and verdict are those of the transition function; the store keeps the invariant |
| HierarchicalBudget.HierarchicalBudgetStore.Configure | src/capabilityhub/hierarchical_budget.py:246-303 | New state and verdict are those of the transition function, so that an accepted call writes the new limits (`BudgetEffects.ConfigureWrites`); the store keeps the invariant |
| HierarchicalBudget.HierarchicalBudgetStore.Reserve | src/capabilityhub/hierarchical_budget.py:318-349 | New state and verdict are those of the transition function; a fresh active row records the hold; an overrun names a scope of the chain |
| HierarchicalBudget.HierarchicalBudgetStore.Finish | src/capabilityhub/hierarchical_budget.py:367-402 | New state and verdict are those of the transition function; the store keeps the invariant |
| HierarchicalBudget.HierarchicalBudgetStore.ReadSnapshot | src/capabilityhub/hierarchical_budget.py:530-560 | Reports limits, subtree charges, subtree holds, and limit minus both as what remains; never the corruption error |
| LedgerSpec.ChainFitsAgree | src/capabilityhub/budget.py:197-222 | The check on the ledgers of a chain decides the same as the check on subtree sums of the history |
| LedgerSpec.LedgerRefines | src/capabilityhub/budget.py:104-122 | Each call on the ledgers gets the verdict of the reference accounting, never the corruption error, and keeps every ledger equal to its subtree sums |
| BudgetCharges.MemReserveCharges | src/capabilityhub/budget.py:104-122 | An accepted reservation adds its amounts to what the ledger and each parent hold reserved and changes no other figure |
| BudgetCharges.MemFinishCharges | src/capabilityhub/budget.py:246-273 | An accepted ending takes the hold from the ledger and each parent, adds the actual amounts to what they used, and spends that handle alone |
| BudgetLedgers.BudgetLedger.constructor | src/capabilityhub/budget.py:76-93 | A new ledger hangs below its parent with nothing used or reserved |
| BudgetLedgers.BudgetLedger.CollectChain | src/capabilityhub/budget.py:156-167 | The climb over parent links returns the chain root first |
| BudgetLedgers.BudgetLedger.Reserve | src/capabilityhub/budget.py:104-122 | Adds the hold to every ledger of the chain and returns a new active handle exactly when all of them fit; otherwise changes nothing |
| BudgetLedgers.BudgetReservation.Reconcile | src/capabilityhub/budget.py:246-262 | On acceptance the handle is spent and every ledger of its chain loses the hold and gains the charge; a refusal changes nothing |
| BudgetLedgers.BudgetReservation.Cancel | src/capabilityhub/budget.py:264-273 | On acceptance the handle is spent and every ledger of its chain loses the hold; a refusal changes nothing |
| BudgetLedgers.BudgetReservation.Settle | src/capabilityhub/budget.py:246-273 | Both endings in one: verdict and new ledgers from the old ones |
| BudgetLedgers.CheckCapacity | src/capabilityhub/budget.py:197-222 | Passes exactly when every ledger fits |
| BudgetLedgers.AddInto | src/capabilityhub/budget.py:181-184 | The loop is pointwise addition |
| BudgetLedgers.SubtractFrom | src/capabilityhub/budget.py:186-195 | The loop is pointwise subtraction without empty entries, and fails exactly when something would turn negative |
| BudgetLedgers.MoveAlong | src/capabilityhub/budget.py:246-262 | Moves the hold to the charge on every ledger of the chain, each once |
| BudgetLedgers.AddReservedAlong | src/capabilityhub/budget.py:104-122 | Adds the hold on every ledger of the chain, each once |
| LedgerTree.ReserveVerdictInTree | src/capabilityhub/budget.py:104-122 | The verdict read off the objects is the verdict of the ledger transition on the whole tree |
| LedgerTree.SettleVerdictInTree | src/capabilityhub/budget.py:246-273 | The same for reconcile and cancel |
| LedgerTree.ReserveInTree | src/capabilityhub/budget.py:104-122 | Reserving through any ledger of a tree of objects makes of the whole tree, and answers, what the ledger transition does |
| LedgerTree.SettleInTree | src/capabilityhub/budget.py:246-273 | Reconciling or cancelling any reservation handed out on the tree likewise |
| BudgetStore.FlatReserveRefines | src/capabilityhub/budget_store.py:104-117 | Refines the reference accounting of a one-scope tree; a repeated identifier is refused and changes nothing |
| BudgetStore.FlatFinishRefines | src/capabilityhub/budget_store.py:119-151 | Reconcile and cancel refine the reference accounting |
| BudgetStore.FlatFinishUnknown | src/capabilityhub/budget_store.py:119-151 | An unknown identifier, or one of another scope, is refused as inactive and changes nothing |
| BudgetStore.FlatLedgerKeepsInv | src/capabilityhub/budget_store.py:62-76 | Opening a ledger adds limits without breaking conservation or caps |
| BudgetStore.FlatConfigureKeepsInv | src/capabilityhub/budget_store.py:78-102 | New limits never fall below the current load |
| BudgetStore.StoreStepKeepsInv | src/capabilityhub/budget_store.py:62-151 | Every call, with any arguments, keeps counters equal to sums and under caps, and none ends in the negative-counter error |
| BudgetStore.StoreConserves | src/capabilityhub/budget_store.py:62-151 | From the empty store, after any calls, each counter is the sum of the holds and charges of its scope and both together are under the limit |
| BudgetEffects.FlatConfigureWrites | src/capabilityhub/budget_store.py:78-102 | An accepted configuration gives every changed counter its new limit and leaves every other limit, scope, counter and row; a refused one changes nothing |
| BudgetEffects.FlatConfigureExactly | src/capabilityhub/budget_store.py:78-102 | Accepted exactly when the scope exists and with the new limits every cap still holds |
| BudgetEffects.FlatLedgerOpens | src/capabilityhub/budget_store.py:62-76 | A new scope takes the given limits; an existing one keeps its own, and so does every other |
| BudgetCharges.FlatReserveCharges | src/capabilityhub/budget_store.py:104-117 | An accepted reservation adds its amounts to what the scope holds reserved, changes no other figure, and stores one active row under a new identifier |
| BudgetCharges.FlatFinishCharges | src/capabilityhub/budget_store.py:119-151 | An accepted ending takes the hold, adds the actual amounts to what the scope used, changes no other figure, and marks that row alone |
| BudgetCalls.FlatLimitCalls | src/capabilityhub/budget_store.py:62-102 | An accepted configuration sets exactly the limits passed; opening gives a new scope exactly those and leaves an existing one |
| BudgetCalls.FlatReserveCall | src/capabilityhub/budget_store.py:104-117 | An accepted reservation adds exactly the amounts passed to what that scope holds reserved |
| SqliteBudget.CheckCapacity | src/capabilityhub/budget_store.py:180-206 | Passes exactly when the scope fits |
| SqliteBudget.StageReserved | src/capabilityhub/budget_store.py:104-117 | Row by row is all at once |
| SqliteBudget.StageReplaced | src/capabilityhub/budget_store.py:119-151 | Row by row is all at once, and fails exactly when a counter does not cover its hold |
| SqliteBudget.MergeLimits | src/capabilityhub/budget_store.py:78-102 | Succeeds exactly when every changed limit covers the load |
| SqliteBudget.SqliteBudgetRepository.Ledger | src/capabilityhub/budget_store.py:62-76 | New tables and verdict are those of the transition; the store keeps its invariant |
| SqliteBudget.SqliteBudgetRepository.Configure | src/capabilityhub/budget_store.py:78-102 | New tables and verdict are those of the transition; the store keeps its invariant |
| SqliteBudget.SqliteBudgetRepository.Reserve | src/capabilityhub/budget_store.py:104-117 | New tables and verdict are those of the transition; the store keeps its invariant |
| SqliteBudget.SqliteBudgetRepository.Finish | src/capabilityhub/budget_store.py:119-151 | New tables and verdict are those of the transition; the store keeps its invariant |
| SqliteBudget.SqliteBudgetRepository.ReadSnapshot | src/capabilityhub/budget_store.py:153-178 | Reports the limits, the sums of the charges and of the holds, and limit minus both as what remains; nothing for an unknown scope |
| BudgetRefinement.StepsAgree | src/capabilityhub/hierarchical_budget.py:318-402 | Tree store and ledgers over the same history give the same verdict, except the counter-bound error, and still share the history afterwards |
| BudgetRefinement.RunsShareBook | src/capabilityhub/hierarchical_budget.py:318-402 | For every sequence of calls naming few enough counters all verdicts agree and both still share the history |
| BudgetRefinement.TreeRefinesLedgers | src/capabilityhub/hierarchical_budget.py:530-560 | After any such run every used and reserved figure agrees, absent counters reading as zero |
| BudgetRefinement.TreeRefinesNewLedgers | src/capabilityhub/hierarchical_budget.py:101-402 | From an empty database: after any openings, creations and configurations, later calls get the same verdicts and figures as on new ledgers with the same limits |
| BudgetRefinement.FlatStepsAgree | src/capabilityhub/budget_store.py:104-151 | Flat store and one-node ledgers give the same verdict and share the history |
| BudgetRefinement.FlatRefinesLedgers | src/capabilityhub/budget_store.py:104-178 | For every sequence of calls all verdicts and all figures agree |
| BudgetRefinement.FlatRefinesNewLedgers | src/capabilityhub/budget_store.py:62-178 | From an empty store: after any openings and configurations, later calls get the same verdicts and figures as on new one-node ledgers with the same limits |
| LockSteps.MoveKeepsInv | src/capabilityhub/budget.py:169-179 | Every single step of every thread keeps the protocol invariant |
| LockSteps.ChecksDecide | src/capabilityhub/budget.py:197-222 | Checks made ledger by ledger under the locks add up to the verdict of the whole call |
| LockSteps.NextUpdate | src/capabilityhub/budget.py:181-195 | The next in-place update is never refused and extends the part already done |
| LockSteps.LastUpdate | src/capabilityhub/budget.py:246-273 | After the last ledger the shared state is that of the whole call |
| LockRuns.Serializable | src/capabilityhub/budget.py:104-122 | In every interleaving each returned outcome is that of its call in one serial order of the started calls, none occurring twice; when all have returned the ledgers are those of that order |
| LockRuns.RealTimeOrder | src/capabilityhub/budget.py:104-122 | A call that returned before another started comes before it in the order |
| LockRuns.NeverCorrupt | src/capabilityhub/budget.py:186-195 | In every interleaving the ledger about to be reduced covers the hold |
| LockRuns.NoDeadlock | src/capabilityhub/budget.py:169-179 | In every reachable state some thread can move, or all have returned |
| LockRuns.EveryCallCanReturn | src/capabilityhub/budget.py:169-179 | From every reachable state the calls under way can all be brought to their return |
| LockRuns.RunsEnd | src/capabilityhub/budget.py:169-179 | The steps still to be taken bound the length of every run |
| DrainRuns.CallKeeps | src/capabilityhub/draining.py:131-317 | Every call keeps the lifecycle invariant and moves states only forward; without force, retired revisions stay unpinned |
| DrainRuns.RunKeeps | src/capabilityhub/draining.py:131-317 | The same for every sequence of calls |
| DrainRuns.ReachableLifecycle | src/capabilityhub/draining.py:131-401 | In every reachable state: a non-accepting coordinate has no accepting revision, a draining revision is pinned, a draining coordinate has a draining revision, and without force a retired revision has no pin |
| DrainRuns.RetiredExactly | src/capabilityhub/draining.py:353-401 | Without force a revision that no longer accepts is retired exactly when no pin is left |
| DrainRuns.AdvanceNeverRetires | src/capabilityhub/draining.py:241-292 | Advancing changes no lifecycle state: its own retirement branch finds nothing to retire |
| DrainRuns.OnlyReleaseRetires | src/capabilityhub/draining.py:194-205 | A draining revision is retired by releasing or by force and by nothing else |
| DrainRuns.RetiresWithLastPin | src/capabilityhub/draining.py:194-205 | It is retired in exactly the step that releases its only remaining pin |
| DrainRuns.AskedUntilReleased | src/capabilityhub/draining.py:241-292 | A cancellation request, once made, stands until the pin is released |
| DrainRuns.AskedOnce | src/capabilityhub/draining.py:241-292 | Between two requests to cancel the same pin lies its release |
| DrainEffects.AdvanceExactly | src/capabilityhub/draining.py:241-292 | Advancing a draining target waits exactly before the deadline; from then on it asks exactly the cancellable pins of the target not asked before, is blocked exactly when there are none, marks those asked, and changes nothing else |
| DrainEffects.AfterTheDeadlineAllAreAsked | src/capabilityhub/draining.py:241-292 | After an advance at or after the deadline every cancellable pin of the target is marked as asked |
| DrainEffects.AdvanceElsewhere | src/capabilityhub/draining.py:241-292 | A target that does not drain, or an invalid time, changes nothing and gets the answer for it |
| DrainEffects.AskedAtTheDeadline | src/capabilityhub/draining.py:241-292 | Only an advance at or after its deadline asks for a pin, and only for a cancellable one of its target not asked before |
| DrainEffects.MarkedPinsWereAsked | src/capabilityhub/draining.py:241-292 | In every run a pin marked as asked was asked for by such an advance, and not released since |
| DrainEffects.LookExactly | src/capabilityhub/draining.py:319-343 | A look shows the stored state and the numbers of pins, of cancellable and of asked ones on the target exactly when that is there; otherwise it says what is missing |
| DrainEffects.AnswersShow | src/capabilityhub/draining.py:319-343 | Registering, starting to drain and forcing answer with the state and the pins of the target as it then is |
| DrainEffects.RefusedFor | src/capabilityhub/draining.py:131-192 | Which refusal an execution or a new revision gets, by the states, the pin of that name and the room |
| DrainEffects.AdmitExactly | src/capabilityhub/draining.py:157-192 | An execution is admitted exactly when revision and coordinate accept and there is room, or the same pin is already there; exactly that pin is added |
| DrainEffects.RegisterExactly | src/capabilityhub/draining.py:131-155 | A new revision is refused exactly when its coordinate no longer accepts or the capacity is used up; otherwise it accepts, and nothing else changes |
| DrainEffects.CloseExactly | src/capabilityhub/draining.py:389-401 | A coordinate retires exactly when it drains and no revision of it is left open |
| DrainEffects.ReleaseExactly | src/capabilityhub/draining.py:194-205 | Exactly that pin goes; its revision retires exactly when it drains and has no other pin, its coordinate when that drains and nothing of it is open |
| DrainEffects.BeginRevisionExactly | src/capabilityhub/draining.py:207-239 | An accepting revision drains if it is pinned and retires if it is not; nothing else changes |
| DrainEffects.BeginCoordinateExactly | src/capabilityhub/draining.py:207-239 | The same of every revision of the coordinate, which itself drains, or retires if nothing of it is left open |
| DrainEffects.ForceExactly | src/capabilityhub/draining.py:294-317 | Refused exactly when forbidden or the target does not drain; otherwise the draining revisions of the target retire, and the pins stay |
| DrainControllers.TargetPins | src/capabilityhub/draining.py:406-414 | The pins of the coordinate, or of the one revision |
| DrainControllers.Describe | src/capabilityhub/draining.py:319-343 | Counts in-flight, cancellable and asked pins of the target |
| DrainControllers.EveryRevisionRetired | src/capabilityhub/draining.py:389-401 | True exactly when no revision of the coordinate is left open |
| DrainControllers.DrainController.constructor | src/capabilityhub/draining.py:98-127 | An empty controller within the given capacities |
| DrainControllers.DrainController.RegisterRevision | src/capabilityhub/draining.py:131-155 | New tables and answer are those of the transition |
| DrainControllers.DrainController.AdmitExecution | src/capabilityhub/draining.py:157-192 | New tables and answer are those of the transition |
| DrainControllers.DrainController.ReleasePin | src/capabilityhub/draining.py:194-205 | New tables and answer are those of the transition |
| DrainControllers.DrainController.DropPin | src/capabilityhub/draining.py:194-205 | Removes the pin and retires its revision if it was the last of a draining one |
| DrainControllers.DrainController.MaybeRetireCoordinate | src/capabilityhub/draining.py:389-401 | Closes the coordinate exactly when it drains and all its revisions are retired |
| DrainControllers.DrainController.BeginRevisionDrain | src/capabilityhub/draining.py:345-351 | An accepting revision drains, or retires at once when nothing pins it |
| DrainControllers.DrainController.BeginDrainOf | src/capabilityhub/draining.py:207-239 | New tables and answer are those of the transition |
| DrainControllers.DrainController.BeginCoordinateDrain | src/capabilityhub/draining.py:207-239 | The coordinate and all its revisions leave the accepting state |
| DrainControllers.DrainController.BeginEveryRevision | src/capabilityhub/draining.py:207-239 | Revision by revision is all at once |
| DrainControllers.DrainController.AdvanceDrain | src/capabilityhub/draining.py:241-292 | New tables and answer are those of the transition, which waits exactly until the deadline (`DrainEffects.AdvanceExactly`) |
| DrainControllers.DrainController.AskToCancel | src/capabilityhub/draining.py:262-292 | Asks exactly the cancellable pins of the target not asked before and marks them |
| DrainControllers.DrainController.RetireTargetNow | src/capabilityhub/draining.py:353-375 | Retires the target and closes its coordinate if that was all |
| DrainControllers.DrainController.ForceRetireTarget | src/capabilityhub/draining.py:294-317 | New tables and answer are those of the transition |
| DrainControllers.DrainController.Inspect | src/capabilityhub/draining.py:319-343 | The view of the target, or not found |
| DrainedService.MoveKeeps | src/capabilityhub/drained_service.py:182-250 | Every step of every concurrent execution, and every control call, keeps the pin accounting, when the names are separate |
| DrainedService.RunKeeps | src/capabilityhub/drained_service.py:182-298 | The same for every interleaving |
| DrainedService.ProviderIsProtected | src/capabilityhub/drained_service.py:190-250 | With separate names a call in its provider phase holds its own pin, on its bound revision, which is not retired; no two such calls share a pin |
| DrainedService.PinsAreRestored | src/capabilityhub/drained_service.py:190-250 | With separate names, when all calls have returned or raised, pins and active identifiers are as before |
| PinNames.TakingOver | src/capabilityhub/drained_service.py:190-250 | A name read as one whose pin is held on an accepting revision: a single call gives that pin away |
| PinNames.TwoNamesOnePin | src/capabilityhub/drained_service.py:190-250 | Any two names read as one: a run in which a provider works unpinned |
| PinNames.SafeExactlyWhenSeparate | src/capabilityhub/drained_service.py:190-250 | Every interleaving over a set of names protects every provider and restores the pins if and only if the names are separate: none takes over a held pin, and no two are read alike while anything can be admitted |
| PinNames.SafeExactlyWhenReadApart | src/capabilityhub/drained_service.py:190-250 | On a controller without pins that can admit: if and only if no two of the names are read alike |
| RevisionPins.CallbackDecides | src/capabilityhub/drained_service.py:203-220 | A call goes on exactly when the callback is absent or names the bound revision; it owes a revision pin exactly when one was named, the right one or not |
| RevisionPins.OthersGoOn | src/capabilityhub/drained_service.py:199-249 | Every other step of a call: a name in use is refused, an admitted call works, any other leaves, and what is owed stays owed until it leaves |
| RevisionPins.ProviderWasAgreed | src/capabilityhub/drained_service.py:203-235 | In every interleaving a provider works only if the callback of its call agreed |
| RevisionPins.RevisionPinsBalance | src/capabilityhub/drained_service.py:203-246 | In every interleaving the revision pins handed out are those given back and those still owed |
| RevisionPins.RevisionPinsReturn | src/capabilityhub/drained_service.py:203-246 | When all calls have come back, as many revision pins were given back as were handed out |
| Versions.StringOrder | src/capabilityhub/registry.py:329-341 | Lexicographic comparison of texts is total and antisymmetric |
| Versions.CaretIsRange | src/capabilityhub/registry.py:344-381 | A caret constraint allows exactly the versions from its bound to the next major one |
| Versions.TildeIsRange | src/capabilityhub/registry.py:344-381 | A tilde constraint allows exactly the versions from its bound to the next minor one |
| Versions.VersionRoundTrip | src/capabilityhub/registry.py:384-392 | A version printed in decimal, with any pre-release or build suffix, is read back |
| Versions.RevisionOrder | src/capabilityhub/registry.py:329-341 | The revision order is total, and only equal keys are equal in it; which way it runs is `LatestRevision.BeforeIsNotAhead` |
| Versions.RevisionTransitive | src/capabilityhub/registry.py:329-341 | The revision order is transitive |
| VersionTexts.VersionExactly | src/capabilityhub/registry.py:384-392 | A text is a version number exactly when it is one to three numbers with dots between them and possibly a label on the same line, and then of that version, numbers not written being zero |
| VersionTexts.LeadingZero | src/capabilityhub/registry.py:384-392 | Zeros in front of a number do not count |
| LatestRevision.FirstDifferenceDecides | src/capabilityhub/registry.py:329-341 | Where two texts part, the earlier character decides; a text comes after its own beginnings (`LatestRevision.BeginningFirst`) |
| LatestRevision.VersionLessIsNumeric | src/capabilityhub/registry.py:329-341 | One version is below another exactly when it is the lower number, written with large enough digits |
| LatestRevision.ComparisonsAreRanges | src/capabilityhub/registry.py:344-381 | Each of the comparisons, and a bare version, allows exactly the versions it says |
| LatestRevision.NoVersionNoRange | src/capabilityhub/registry.py:344-381 | A word without a version after its operator allows nothing |
| LatestRevision.ConstraintsAddUp | src/capabilityhub/registry.py:344-381 | A constraint of several words allows what each of its words allows |
| LatestRevision.AnyVersion | src/capabilityhub/registry.py:344-381 | The empty constraint and the star allow everything; a version that is no number is otherwise allowed only by its own text |
| LatestRevision.BeforeIsNotAhead | src/capabilityhub/registry.py:329-341 | A revision comes before another exactly when it is not ahead: by number, where any number is ahead of none, then by version text, then by name |
| LatestRevision.LatestIsHighest | src/capabilityhub/registry.py:295-303 | The latest revision of a coordinate is one of its own that no other one is ahead of, and is missing exactly when there is none |
| LatestRevision.ActivatesTheLatest | src/capabilityhub/registry.py:122-149 | Activating without a revision activates one that no registered revision of the coordinate is ahead of, as if it had been named |
| LatestRevision.LatestManifestsAreHighest | src/capabilityhub/registry.py:204-214 | The manifests that registration projects are exactly the registered ones that no other revision of the coordinate is ahead of |
| Cycles.OrderedIsAcyclic | src/capabilityhub/registry.py:271-293 | A graph with an order in which every edge points back has no closed walk |
| Cycles.CycleFinder.Visit | src/capabilityhub/registry.py:277-290 | The recursive visit ends; a reported cycle is a closed walk of edges, and without one the node is ordered after its targets |
| Cycles.CycleFinder.Search | src/capabilityhub/registry.py:271-293 | Reports exactly when a cycle exists, and then a genuine closed walk |
| Cycles.FirstIndex | src/capabilityhub/registry.py:277-283 | The first position of the node on the path |
| Registry.CallKeeps | src/capabilityhub/registry.py:63-160 | Every call keeps the registry valid, changes no registered manifest, and changes nothing when it fails |
| Registry.RegisterKeeps | src/capabilityhub/registry.py:63-97 | Registering keeps the active set valid and only adds revisions |
| Registry.ActivateKeeps | src/capabilityhub/registry.py:122-149 | A failed activation changes nothing, a successful one is valid |
| Registry.DeactivateKeeps | src/capabilityhub/registry.py:151-160 | Deactivating keeps the rest valid, and a refusal changes nothing |
| Registry.StagedExtends | src/capabilityhub/registry.py:63-75 | An accepted batch has every manifest stored under its own name and keeps all earlier ones as they were |
| Registry.ActivationPoints | src/capabilityhub/registry.py:122-149 | A success points the coordinate at the chosen revision and moves no other active one |
| Registry.RunKeeps | src/capabilityhub/registry.py:63-160 | Every run keeps the registry valid |
| Registry.ReachableRegistry | src/capabilityhub/registry.py:179-269 | After any run, failures included, the active set is closed under required dependencies with satisfied versions, acyclic, and shares no conflict claim |
| Registry.RevisionsAreImmutable | src/capabilityhub/registry.py:63-97 | A registered revision keeps its manifest through any later run |
| Registry.TargetsAre | src/capabilityhub/registry.py:216-248 | The edges of the dependency graph are the dependencies that are met |
| RegistryEffects.ValidatedExactly | src/capabilityhub/registry.py:179-269 | Validation passes exactly when every required dependency is provided, nothing uses itself in a circle, no claim is shared, and the projections resolve |
| RegistryEffects.CirclesAreCycles | src/capabilityhub/registry.py:271-293 | The graph has a cycle exactly when capabilities use each other in a circle |
| RegistryEffects.ActivateExactly | src/capabilityhub/registry.py:122-149 | Activating a named revision succeeds exactly when it is registered for the coordinate, that is not excluded, and what is then selected is allowed; then the pointers are those |
| RegistryEffects.ActivationRefused | src/capabilityhub/registry.py:122-149 | Which refusal an activation gets: an unregistered revision, one of another coordinate, an excluded coordinate, or what is wrong with what would be selected |
| RegistryEffects.FaultIsWrong | src/capabilityhub/registry.py:179-269 | A fault of validation names something that is wrong: a dependency not provided, a circle, a shared claim, or projections that do not resolve |
| RegistryEffects.DeactivateExactly | src/capabilityhub/registry.py:151-160 | Deactivating succeeds exactly when the coordinate is active and what is left is allowed; then exactly that pointer is gone |
| RegistryEffects.StagedExactly | src/capabilityhub/registry.py:63-75 | A batch is accepted exactly when no two manifests differ under one name; the result is exactly the earlier revisions and the batch |
| RegistryEffects.RegisterExactly | src/capabilityhub/registry.py:63-97 | An unambiguous batch is registered exactly when the projections of the latest revisions resolve; then revisions and exclusions are those, and what is active stays |
| CapabilityRegistries.CollectTargets | src/capabilityhub/registry.py:216-248 | Passes exactly when every required dependency is met, with exactly the met ones as targets |
| CapabilityRegistries.ValidateDependencies | src/capabilityhub/registry.py:216-248 | First missing or unsatisfied dependencies, then cycles, each reported exactly when present |
| CapabilityRegistries.ClaimAll | src/capabilityhub/registry.py:250-269 | Takes all claims of one manifest, or reports one already taken |
| CapabilityRegistries.ValidateConflicts | src/capabilityhub/registry.py:250-269 | Passes exactly when no two active capabilities share a claim |
| CapabilityRegistries.GroupByCoordinate | src/capabilityhub/registry.py:204-214 | Groups every revision once, under its own coordinate |
| CapabilityRegistries.MaxRevision | src/capabilityhub/registry.py:204-214 | A member of the group that no other one follows, so none is ahead of it (`LatestRevision.BeforeIsNotAhead`) |
| CapabilityRegistries.SelectLatest | src/capabilityhub/registry.py:204-214 | Exactly the latest manifest of each coordinate, the highest by `LatestRevision.LatestManifestsAreHighest` |
| CapabilityRegistries.StageAll | src/capabilityhub/registry.py:63-75 | Loop over the batch is the staged map, or nothing |
| CapabilityRegistries.SortedIsOrdered | src/capabilityhub/registry.py:305-315 | Sorting by revision keeps exactly the given revisions, ordered |
| CapabilityRegistries.SortGroups | src/capabilityhub/registry.py:305-315 | The coordinate index is the ordered list of exactly the revisions of each coordinate |
| CapabilityRegistries.GroupByKind | src/capabilityhub/registry.py:305-315 | The kind index is exactly the filter of the revisions by kind |
| CapabilityRegistries.BuildIndexes | src/capabilityhub/registry.py:305-315 | Both indexes equal the filters of the revision map |
| CapabilityRegistries.CapabilityRegistry.constructor | src/capabilityhub/registry.py:25-32 | An empty registry that satisfies its invariant |
| CapabilityRegistries.CapabilityRegistry.Freeze | src/capabilityhub/registry.py:34-38 | Only the frozen flag changes |
| CapabilityRegistries.CapabilityRegistry.RegisterAll | src/capabilityhub/registry.py:63-97 | New registry and fault are those of the transition; the indexes stay exact |
| CapabilityRegistries.CapabilityRegistry.ValidateActive | src/capabilityhub/registry.py:179-191 | Reports the fault of a candidate active set |
| CapabilityRegistries.CapabilityRegistry.ActivateCoordinate | src/capabilityhub/registry.py:122-149 | New registry and fault are those of the transition, which without a revision takes the highest (`LatestRevision.ActivatesTheLatest`) |
| CapabilityRegistries.CapabilityRegistry.ActiveCandidate | src/capabilityhub/registry.py:295-303 | The last entry of the index is the latest revision, the highest by `LatestRevision.LatestIsHighest` |
| CapabilityRegistries.CapabilityRegistry.DeactivateCoordinate | src/capabilityhub/registry.py:151-160 | New registry and fault are those of the transition |
| ActivationLock.FindClosure | src/capabilityhub/activation_lock.py:115-127 | The worklist ends with exactly the active coordinates reachable over one or more dependencies, without the root |
| ActivationLock.Expand | src/capabilityhub/activation_lock.py:115-127 | One round keeps the frontier: whatever is reachable is found or still pending |
| ActivationLock.SortTexts | src/capabilityhub/activation_lock.py:105-112 | Sorting a set gives the one ascending list of its members |
| ActivationLock.AscendingIsUnique | src/capabilityhub/activation_lock.py:105-112 | Two ascending lists with the same members are equal |
| ActivationLock.EntryFor | src/capabilityhub/activation_lock.py:105-112 | The entry of a capability with its sorted closure |
| ActivationLock.Export | src/capabilityhub/activation_lock.py:27-41 | The exported document of the active set |
| ActivationLock.SameActiveSameLock | src/capabilityhub/activation_lock.py:27-41 | Registries that agree on their active manifests export the same lock, however they got there |
| ActivationLock.RegistrySelects | src/capabilityhub/activation_lock.py:27-41 | The active set of a valid registry is one the exporter accepts |
| ActivationLock.ExportIsWellFormed | src/capabilityhub/activation_lock.py:130-176 | An exported document passes the shape checks |
| ActivationLock.CheckDocument | src/capabilityhub/activation_lock.py:130-176 | Passes exactly the well-formed documents |
| ActivationLock.Validate | src/capabilityhub/activation_lock.py:61-96 | Accepts a document exactly when it is the export of the registry it is checked against; otherwise says exactly whether it is malformed, carries a wrong digest, or which capabilities are missing, extra or changed |
| LockedManifests.LockDescribesActive | src/capabilityhub/activation_lock.py:27-41 | The lock holds exactly the active capabilities, each with its revision, digest, provider, source and the ordered revisions it depends on, signed over all of that |
| LockedManifests.SameLockSameReleases | src/capabilityhub/activation_lock.py:61-96 | Two active sets with the same lock hold the same capabilities with the same revisions, digests, providers and sources |
| LockedManifests.ClosureLists | src/capabilityhub/activation_lock.py:115-127 | A text is in the closure exactly when it is the revision of another active capability that is depended on, directly or not |
| Catalog.LeastIsLeast | src/capabilityhub/local_runtime.py:129-152 | The least fixed point is inside every set closed under "all required dependencies present and satisfied" |
| Catalog.LeastIsFixed | src/capabilityhub/local_runtime.py:129-152 | And it is a fixed point itself |
| Catalog.NeverItsOwnSupport | src/capabilityhub/local_runtime.py:129-152 | A capability that requires itself is never in it |
| Catalog.StuckIsLeast | src/capabilityhub/local_runtime.py:129-152 | An activation order that cannot be extended has reached all of it |
| Catalog.AttemptDecides | src/capabilityhub/local_runtime.py:129-152 | One activation attempt succeeds exactly when the capability is not excluded and is supported by those already active |
| Catalog.TryAll | src/capabilityhub/local_runtime.py:129-152 | A round ends with fewer pending, or every pending one is unsupported |
| Catalog.ActivateCatalog | src/capabilityhub/local_runtime.py:129-152 | The loop ends for every input; without conflicts and optional dependencies it activates exactly the least fixed point of what is not excluded, whatever the order of the manifests |
| Reasoning.AtLeastIs | src/capabilityhub/reasoning.py:130-137 | The candidates are exactly the eligible tiers at or above the floor |
| Reasoning.AffordableIs | src/capabilityhub/orchestration.py:386-442 | The affordable tiers are exactly the eligible ones within the remaining budget |
| Reasoning.SameCandidates | src/capabilityhub/orchestration.py:500-592 | Starting again from the lowest candidate finds the same candidates |
| Reasoning.BaselineIs | src/capabilityhub/orchestration.py:500-592 | The throw-away router without escalations gives the lowest candidate and the reasons of the floor |
| Reasoning.UpdateIsDecision | src/capabilityhub/orchestration.py:532-592 | Deciding from the stored row and that baseline is deciding directly |
| Reasoning.UpdateIsRoute | src/capabilityhub/reasoning.py:114-188 | The persisted update computes what the router would, and fails on the same requests |
| Reasoning.RecommendAgrees | src/capabilityhub/orchestration.py:386-592 | One recommendation: same answer from both, and they still agree afterwards |
| Reasoning.StepsAgree | src/capabilityhub/orchestration.py:490-498 | One call: both still agree, and answer the same exactly when it is not a reset of the empty name |
| Reasoning.RunsAgree | src/capabilityhub/orchestration.py:386-592 | The same for every sequence of calls |
| Reasoning.ViewsAgree | src/capabilityhub/orchestration.py:444-488 | After every sequence both show the same state of every task |
| Reasoning.RecommendationsAreBounded | src/capabilityhub/reasoning.py:114-188 | Escalations grow by at most one and stay under the cap; the tier is eligible, affordable and at or above risk and policy floor; a refusal means no such tier exists |
| Reasoning.RunsAreCapped | src/capabilityhub/reasoning.py:114-188 | No run takes any task over the escalation cap |
| Reasoning.StoredRunsAreBounded | src/capabilityhub/orchestration.py:500-592 | The same of the persisted version: after any run every row is within the cap, and the next recommendation within the same bounds |
| ReasoningAdvice.RiskDemands | src/capabilityhub/reasoning.py:20-25 | What cannot be undone demands the highest tier, other writes at least the middle one, reading nothing |
| ReasoningAdvice.CandidatesAreAble | src/capabilityhub/reasoning.py:130-137 | The candidates are exactly the tiers asked for, at or above both floors, and within what is left to spend |
| ReasoningAdvice.RoutedFollows | src/capabilityhub/reasoning.py:114-188 | A decision fails exactly without an open tier; it starts at the task's own tier while that is open, else at the lowest open one, and follows from there: a repeated attempt, the cap and the top stop it, an escalation rises to the next open tier, with no open one in between |
| ReasoningAdvice.MemoryAdvises | src/capabilityhub/orchestration.py:386-442 | The in-memory version answers so and remembers it of this task and of no other |
| ReasoningAdvice.StoreAdvises | src/capabilityhub/orchestration.py:500-592 | So does the persisted version, from whatever row it finds |
| ReasoningAdvice.ResetForgets | src/capabilityhub/orchestration.py:490-498 | A reset forgets all of that task and nothing of any other, in both versions |
| ReasoningAdvice.CountsAreTallies | src/capabilityhub/reasoning.py:138-188 | After every run the count of an attempt is how often the task was advised on it, with the same evidence, since its last reset |
| ReasoningRouters.ReasoningRouter.Route | src/capabilityhub/reasoning.py:114-188 | The statements compute the routing transition, which follows the rules of `ReasoningAdvice.RoutedFollows`; a failure changes no task |
| ReasoningRouters.ReasoningOrchestrator.Recommend | src/capabilityhub/orchestration.py:386-442 | New state and outcome are those of the in-memory or of the persisted transition (`ReasoningAdvice.MemoryAdvises`, `ReasoningAdvice.StoreAdvises`) |
| ReasoningRouters.ReasoningOrchestrator.RecommendPersisted | src/capabilityhub/orchestration.py:500-592 | New rows and outcome are those of the persisted transition (`ReasoningAdvice.StoreAdvises`) |
| ReasoningRouters.ReasoningOrchestrator.Reset | src/capabilityhub/orchestration.py:490-498 | New state and reply are those of the reset in the mode in use |
| ReasoningRouters.ReasoningOrchestrator.State | src/capabilityhub/orchestration.py:444-488 | Reports what the mode in use knows of the task |
| ReasoningRouters.Encode | src/capabilityhub/reasoning_store.py:245-307 | Decoding an encoded state gives it back |
| Residency.RankedIs | src/capabilityhub/residency.py:100-106 | The ranking lists exactly the unpinned other entries, ordered by score, last access and key |
| Residency.ShortestPrefix | src/capabilityhub/residency.py:81-98 | The loop evicts the shortest prefix of the ranking that makes the rest fit, or all of it |
| Residency.EnoughIff | src/capabilityhub/residency.py:81-98 | Eviction succeeds exactly when the kept entry and the pinned others fit |
| Residency.TokensAreConserved | src/capabilityhub/residency.py:81-98 | Tokens before are tokens left plus tokens evicted |
| Residency.CallKeeps | src/capabilityhub/residency.py:48-79 | Every call keeps the token cap, the keys and the distinct access times |
| Residency.AddExactly | src/capabilityhub/residency.py:48-60 | Add succeeds exactly when the new entry and the pinned others fit; it then evicts the shortest prefix; otherwise only the pinned others and the old entry under that key remain |
| Residency.FailedAddLoses | src/capabilityhub/residency.py:48-60 | A failed add changes nothing exactly when every other entry is pinned |
| ResidencyEffects.LessUseGoesFirst | src/capabilityhub/residency.py:100-106 | The section of less use for its weight goes first, of equal ones the one longer unused, then by key; by whole numbers, without a quotient |
| ResidencyEffects.OtherThingsEqual | src/capabilityhub/residency.py:100-106 | Of two sections that differ in one thing only, the one reused less, cheaper to load again, larger, or sensitive goes first |
| ResidencyEffects.AddEvicts | src/capabilityhub/residency.py:48-98 | A success adds the section as touched last and drops exactly the evicted: none pinned, each going before every unpinned one that stays, and without the last of them the rest would not fit |
| ResidencyEffects.AddRefused | src/capabilityhub/residency.py:48-60 | A section without a key changes nothing; one that cannot be fitted in costs every section that is not pinned, except the one it would have replaced |
| ResidencyEffects.TouchExactly | src/capabilityhub/residency.py:62-71 | Access and pin find exactly what is there, move it behind everything else, and change nothing but that and the pin |
| ResidencyEffects.RemoveExactly | src/capabilityhub/residency.py:73-75 | Exactly that section goes, and its tokens with it |
| ContextInventories.ContextInventory.constructor | src/capabilityhub/residency.py:33-39 | An empty inventory |
| ContextInventories.ContextInventory.UsedTokens | src/capabilityhub/residency.py:41-43 | The sum over the entries |
| ContextInventories.ContextInventory.FindVictim | src/capabilityhub/residency.py:100-106 | The first entry of the ranking |
| ContextInventories.ContextInventory.PopVictim | src/capabilityhub/residency.py:81-98 | Removes the first entry of the ranking, or nothing if there is none |
| ContextInventories.ContextInventory.EvictToLimit | src/capabilityhub/residency.py:81-98 | The loop computes the eviction |
| ContextInventories.ContextInventory.AddSection | src/capabilityhub/residency.py:48-60 | New inventory and reply are those of the transition |
| ContextInventories.ContextInventory.MakeRoom | src/capabilityhub/residency.py:48-60 | On failure the replaced entry is put back and what was evicted stays away |
| ContextInventories.ContextInventory.AccessSection | src/capabilityhub/residency.py:62-68 | New inventory and reply are those of the transition |
| ContextInventories.ContextInventory.PinSection | src/capabilityhub/residency.py:70-71 | New inventory and reply are those of the transition |
| ContextInventories.ContextInventory.RemoveSection | src/capabilityhub/residency.py:73-75 | New inventory and reply are those of the transition |
| ContextState.SameEvictions | src/capabilityhub/residency.py:81-106 | Inventories that differ only in an order-preserving renumbering evict the same entries |
| ContextState.CallsAlike | src/capabilityhub/residency.py:48-79 | From such inventories every call gives the same answer, the same totals, and again such inventories |
| ContextState.RankOrders | src/capabilityhub/context_state.py:159-166 | Numbering by rank preserves the order of access times |
| ContextState.RenumberIsRenumbered | src/capabilityhub/context_state.py:159-166 | Rebuilding from a backup only renumbers |
| ContextState.RollbackIsInvisible | src/capabilityhub/context_state.py:159-166 | A state rebuilt from its own backup cannot be told from the original |
| ContextState.RestartIsInvisible | src/capabilityhub/context_state.py:168-181 | Nor can a state loaded from what it last saved |
| ContextState.AttemptKeeps | src/capabilityhub/context_state.py:89-141 | A failed call, or one whose save fails, cannot be noticed and leaves the saved file alone |
| ContextState.AttemptsAlike | src/capabilityhub/context_state.py:89-141 | Indistinguishable states answer every call alike and stay indistinguishable |
| ContextState.OnlySuccessesCount | src/capabilityhub/context_state.py:89-181 | Every run of calls, failed calls, failed saves and restarts answers as the run of its successes alone |
| ResidencyEffects.AttemptExactly | src/capabilityhub/context_state.py:89-141 | A call succeeds exactly when the inventory takes it, an added section has its names, a use and a cost, and the save works; then inventory, generation and disk are the new ones, otherwise generation and disk stay |
| LocalContextStates.Rebuild | src/capabilityhub/context_state.py:159-166 | Adding the backup entries in access order never evicts and gives the renumbered inventory |
| LocalContextStates.Oldest | src/capabilityhub/context_state.py:162-166 | The remaining entry with the smallest access time |
| LocalContextStates.LocalContextState.constructor | src/capabilityhub/context_state.py:54-70 | An empty state with nothing saved |
| LocalContextStates.LocalContextState.Restore | src/capabilityhub/context_state.py:162-166 | Replaces the inventory by a rebuilt one |
| LocalContextStates.LocalContextState.Change | src/capabilityhub/context_state.py:89-141 | New state and reply are those of the attempt |
| LocalContextStates.LocalContextState.Conclude | src/capabilityhub/context_state.py:183-221 | Saves the new generation, or restores the backup when the call or the save failed |
| LocalContextStates.LocalContextState.RestartNow | src/capabilityhub/context_state.py:168-181 | The state is rebuilt from what was saved |
| OpenApi.PointerFollowsKeys | src/capabilityhub/openapi_import.py:487-496 | Escaped keys, split and unescaped again, are followed as the keys themselves |
| OpenApi.PointerRoundTrip | src/capabilityhub/openapi_import.py:487-496 | Looking up the pointer built from any non-empty path of keys finds what the path finds, or fails as it fails (section 4 of RFC 6901) |
| OpenApi.DoneIsUnfolded | src/capabilityhub/openapi_import.py:453-476 | A result is the full unfolding of the schema |
| OpenApi.OnlyCycles | src/capabilityhub/openapi_import.py:453-472 | If all references met resolve to objects, the only failure is the cycle error |
| OpenApi.NeverEnds | src/capabilityhub/openapi_import.py:453-472 | A reference that leads back to itself has no finite unfolding |
| OpenApi.FailedNeverEnds | src/capabilityhub/openapi_import.py:453-476 | A failure means that no finite unfolding exists |
| OpenApi.MoreFuel | src/capabilityhub/openapi_import.py:453-476 | A finite unfolding does not depend on how deep it was allowed to go |
| OpenApi.InliningIsExact | src/capabilityhub/openapi_import.py:453-476 | If all references met resolve to objects: the cycle error exactly when the unfolding never ends, otherwise the full unfolding |
| InliningEffects.DoneIsPlain | src/capabilityhub/openapi_import.py:453-476 | A result holds no text under "$ref" in any object where inlining looks |
| InliningEffects.PlainIsKept | src/capabilityhub/openapi_import.py:453-476 | A schema without references is returned as it is |
| InliningEffects.InliningTwice | src/capabilityhub/openapi_import.py:453-476 | Inlining a result again changes nothing |
| InliningEffects.FewerExpansions | src/capabilityhub/openapi_import.py:453-476 | What can be inlined inside more expansions comes out the same inside fewer |
| InliningEffects.ReferenceIsItsTarget | src/capabilityhub/openapi_import.py:456-462 | A reference, whatever stands beside it, becomes what its target becomes |
| InliningEffects.OthersKeepTheirShape | src/capabilityhub/openapi_import.py:463-476 | Any other schema keeps its names: scalars stay, objects and the objects of lists are inlined in their places |
| Approvals.CallsAgree | src/capabilityhub/approval_store.py:148-332 | One call, clock not set back: expiring on demand answers as expiring on time does, and both still agree |
| Approvals.LazyIsEager | src/capabilityhub/approval_store.py:148-332 | The same for every run with a clock that never decreases, although failing calls roll their expiry back |
| Approvals.ReadingsAgreeIff | src/capabilityhub/approval_store.py:186-194 | For any clock reading, both read a record alike exactly when it is not overtaken: open, with a deadline between this reading and an earlier one |
| Approvals.DecisionsAgreeIff | src/capabilityhub/approval_store.py:281-320 | Both decide alike exactly when the record is not overtaken, or is an approved one of the scoped store |
| Approvals.ConsumptionsAgreeIff | src/capabilityhub/approval_store.py:239-279 | Both consume alike exactly when the record is not overtaken, or the intent is not its own |
| Approvals.CallKeepsNames | src/capabilityhub/approval_store.py:148-332 | Every call keeps each record under its own identifier |
| Approvals.ListingsAgreeIff | src/capabilityhub/approval_store.py:196-219 | Both list alike exactly when neither shows an overtaken record |
| Approvals.ClockSetBack | src/capabilityhub/approval_store.py:239-279 | Four calls with a clock set back on which the two machines differ |
| Approvals.ConsumedInTime | src/capabilityhub/approval_store.py:239-279 | Consuming succeeds only on an approved record with the identical intent before its deadline, and only marks it consumed |
| Approvals.SpentForGood | src/capabilityhub/approval_store.py:239-279 | A consumed record stays consumed |
| Approvals.ConsumedOnce | src/capabilityhub/approval_store.py:239-279 | No record is consumed twice, with any clock |
| Approvals.ApprovalHasACause | src/capabilityhub/approval_store.py:281-320 | An approved record was approved by an earlier successful call |
| Approvals.ConsumedAfterApproval | src/capabilityhub/approval_store.py:239-279 | A consumed record was approved before, for that intent, and its deadline had not passed |
| ApprovalEffects.RequestExactly | src/capabilityhub/approval_store.py:148-184 | A request is taken exactly with a lifetime, a free name and the caller's own intent; the record is then pending until now + lifetime, and no other changes |
| ApprovalEffects.DecideExactly | src/capabilityhub/approval_store.py:281-320 | A decision is taken exactly while the request is pending and in time; the record is then approved or denied as was said, by whom and when, and nothing else changes |
| ApprovalEffects.ConsumeExactly | src/capabilityhub/approval_store.py:239-279 | A consumption succeeds exactly while the record is approved and in time and the intent is its own; the record is then consumed, and nothing else changes |
| ApprovalEffects.RefusalsExactly | src/capabilityhub/approval_store.py:239-320 | Which refusal a decision or a consumption of a record gets, by its state and deadline |
| ApprovalEffects.OtherIntentExactly | src/capabilityhub/approval_store.py:239-279 | A consumption is refused as another intent exactly when the record is there with a different one |
| ApprovalEffects.GetExactly | src/capabilityhub/approval_store.py:186-194 | A record is shown as stored, except that an open one whose deadline has come is expired and stays so |
| ApprovalEffects.ListExactly | src/capabilityhub/approval_store.py:196-219 | A listing shows the caller's records in the state asked for, newest first, each once, leaving out only what is no newer and for want of room; it marks what is due of that caller alone |
| ApprovalEffects.CallMovesOn | src/capabilityhub/approval_store.py:148-332 | No call removes a record, changes what was asked for, or alters what is denied, consumed or expired |
| ApprovalEffects.ClosedForGood | src/capabilityhub/approval_store.py:239-320 | A denied, consumed or expired record stays exactly as it is through every run, with any clock |
| ApprovalEffects.ClosedIsRefused | src/capabilityhub/approval_store.py:239-320 | No later decision or consumption of such a record succeeds |
| ApprovalEffects.RecordsTellHistory | src/capabilityhub/approval_store.py:239-320 | In every run a record reads denied, consumed or decided exactly when a call succeeded in denying, consuming or deciding it |
| ApprovalEffects.DecidedOnce | src/capabilityhub/approval_store.py:281-320 | No request is decided twice, whatever was said first and whatever the clock does |
| ApprovalEffects.MarkedWhenShown | src/capabilityhub/approval_store.py:186-219 | A record is marked as expired exactly by a call that shows it at or after its deadline; refused calls leave no mark |
| ApprovalStores.FindNewest | src/capabilityhub/approval_store.py:196-219 | A newest record |
| ApprovalStores.TakeNewest | src/capabilityhub/approval_store.py:196-219 | The newest records first, up to the limit |
| ApprovalStores.ApprovalStore.Expire | src/capabilityhub/approval_store.py:322-332 | Exactly the open records past their deadline, within the caller and key asked for |
| ApprovalStores.ApprovalStore.RequestApproval | src/capabilityhub/approval_store.py:148-184 | New rows and answer are those of the transition |
| ApprovalStores.ApprovalStore.GetApproval | src/capabilityhub/approval_store.py:186-194 | New rows and answer are those of the transition |
| ApprovalStores.ApprovalStore.ListApprovals | src/capabilityhub/approval_store.py:196-219 | New rows and answer are those of the transition |
| ApprovalStores.ApprovalStore.DecideApproval | src/capabilityhub/approval_store.py:281-320 | New rows and answer are those of the transition, by which a denied request is closed for good (`ApprovalEffects.DecideExactly`, `ApprovalEffects.ClosedForGood`) |
| ApprovalStores.ApprovalStore.ConsumeApproval | src/capabilityhub/approval_store.py:597-641 | New rows and answer are those of the transition |
| References.EncodeIsLetters | src/capabilityhub/references.py:53-54 | Encoded bytes contain neither the separator nor padding, are ASCII, and never have an impossible length |
| References.EncodingRoundTrip | src/capabilityhub/references.py:53-62 | Decoding the unpadded base64url text of any bytes gives the bytes (sections 3.2 and 5 of RFC 4648) |
| References.ThreeParts | src/capabilityhub/references.py:84-119 | An issued token splits into exactly its prefix, payload and signature |
| References.IssuedIsRead | src/capabilityhub/references.py:121-163 | Verifying an issued token comes down to checking its claims |
| References.IssuedVerifies | src/capabilityhub/references.py:121-163 | An issued token with matching bindings verifies to its claims exactly when iat - 60 <= now < iat + ttl and the compared texts are ASCII |
| References.ForeignTextNeverVerifies | src/capabilityhub/references.py:150-163 | A token for a scope or purpose with a character outside ASCII never verifies, nor one for such a revision where a revision is expected |
| References.AcceptedIsSigned | src/capabilityhub/references.py:121-206 | Whatever verifies carries the signature of its payload, holds the returned claims, and is inside its window and bindings |
| ReferenceEffects.AlphabetIs | src/capabilityhub/references.py:53-54 | The alphabet is capitals, small letters and digits in their order, then two signs (section 5 of RFC 4648) |
| ReferenceEffects.ValueExactly | src/capabilityhub/references.py:57-60 | A character is read exactly when it is in that alphabet, or one of the two signs of the plain one |
| ReferenceEffects.SameNumber | src/capabilityhub/references.py:53-54 | Three bytes are written as the same number in base 64, one or two as that number filled up with zero bits; longer data by threes (`ReferenceEffects.EncodesByThrees`) |
| ReferenceEffects.DecodeExactly | src/capabilityhub/references.py:57-62 | A text is decoded exactly when it consists of letters, not one too many, with none, part or all of the padding that is due; every text has that form or is refused (`ReferenceEffects.EveryTextIsPadded`) |
| ReferenceEffects.SecondsExactly | src/capabilityhub/references.py:102-103 | A time counts as its whole seconds, with the fraction cut off towards zero |
| ReferenceEffects.IssueExactly | src/capabilityhub/references.py:84-119 | A reference is issued exactly with everything named and a positive lifetime, and carries the claims of that moment |
| ReferenceEffects.ParsedExactly | src/capabilityhub/references.py:174-208 | A JSON value gives claims exactly when it has the six fields with these values, none empty, and ends after it begins |
| ReferenceEffects.VerifyExactly | src/capabilityhub/references.py:121-163 | Any reference is accepted for claims exactly when it carries them under a right signature, at a time within them, for the scope, purpose and revision they name, all in ASCII |
| ReferenceEffects.RefusalsExactly | src/capabilityhub/references.py:147-163 | Which refusal a reference gets that carries claims: by time first, then by the first binding that differs |
| ReferenceEffects.NotCarried | src/capabilityhub/references.py:132-147 | Which refusal any other text gets: nothing expected, tampered with, not comparable, or malformed |

## Left out

- Storage and transport: SQLite itself, files, fsync, write-ahead logs, key files, JSON text, HTTP, the command line and the dashboards.
- SQL integers: an amount or a sum beyond 64 bits, which SQLite would refuse or round.
- Which fault is reported first where the source walks a set or a dictionary, and the texts and details of errors.
- Python recursion limits in the cycle search and in reference inlining, and limits on the length of integer literals.
- Event lists, audit logs and timestamps that drive no decision.
- Floating point: clock readings are reals, and residency scores are compared exactly.
- Unicode: normalization of identifiers, and digits and white space outside ASCII in versions and constraints. Pin identifiers are normalized by a parameter.
- Deletion or tampering of stored rows by other programs, and loading an altered context state file.
- `BudgetLedgers.BudgetReservation.Reconcile`: states the verdict and every ledger of the chain; what is left half-moved after the corruption error is not described, because that error cannot occur on a tree fed through these calls (`LedgerSpec.LedgerRefines`). The same holds of `LedgerTree.SettleInTree`.
- `LockRuns.Serializable`: one step reads or updates both dictionaries of one ledger, under that ledger's lock; single dictionary writes are not separate steps.
- `SqliteBudget.SqliteBudgetRepository.Finish`: the handle's own `_active` flag, which only repeats the row's status to its holder, is not modelled.
- `BudgetRefinement.TreeRefinesLedgers`: asks that the calls and tables together name at most 100 counters, since the ledgers have no counter bound; `BudgetRefinement.StepsAgree` says what happens beyond.
- `HierarchicalBudget.ResolveChain`: is stated for tables whose rows say what their addresses say, as every reachable state has them; its checks of altered rows are not modelled one by one.
- `DrainedService.RunKeeps`: covers runs without forced retirement in which only this wrapper admits and releases; reading a name twice is taken to be reading it once, as a pin is released under the name it was admitted under.
- `Registry.ActivationPoints`: projection rules are an arbitrary function of the set of registered manifests.
- `Catalog.ActivateCatalog`: with conflicts, optional dependencies or repeated coordinates it states only that the registry stays valid, as the result then depends on the order; the same where the projections of some manifests that are not excluded cannot be resolved together.
- `CapabilityRegistries.CapabilityRegistry.ValidateActive`: `validate_staged`, which checks a candidate without storing it, is the same check and has no member of its own.
- `ActivationLock.Validate`: asks that the digest of the registry's own capabilities carries the digest prefix; the digest is otherwise any function, and the comparison is on documents rather than on their text.
- `Reasoning.UpdateIsRoute`: the normal form of reason codes and the digest of attempt signatures are parameters, the same for both implementations.
- `ReasoningRouters.Encode`: the order of the attempt list inside the encoded state is arbitrary.
- `Residency.AddExactly`: entries are values, so a caller that keeps and changes a section object after adding it is not modelled.
- `OpenApi.InliningIsExact`: failures are the set of faults the walk can meet, since the order of fields decides which one is raised; documents are finite trees of JSON values.
- `Approvals.LazyIsEager`: records created at the same instant are listed in some fixed order of their keys, as the database lists them.
- `ApprovalStores.ApprovalStore.DecideApproval`: `approve_as` and `deny_as`, which decide on behalf of another scope after a policy check, are not modelled.
- `References.IssuedVerifies`: the JSON writer and reader are parameters that read back what was written; the signature is any function of the encoded payload.
- Input and output contracts of imported operations, and their limits on size and depth.
- `AppliedReasoningRouter`, which picks an endpoint and calls a model.
- Search, projections, policy, idempotency, observability, migration, manifests and the service itself: single-pass checks and small records, whose properties follow from reading one function.
