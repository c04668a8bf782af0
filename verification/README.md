# Verified model of cacheon's decision procedures

cacheon runs a competition for inference kernels: it admits submitted kernels, grades their evidence, settles
winners into a serving stack and pays hotkeys in parts per million. This project models the deterministic procedures
behind those decisions in Dafny 4.11 and proves what they promise for every input, every run and every order of
evaluation. `dafny verify dfyconfig.toml` checks all of it.

| area | modules |
|---|---|
| Reward apportionment | `PoolAllocation`, `PoolOutcome`, `SubmissionAllocation`, `SubmissionShares`, `SubmissionOutcome`, `ArenaTerms`, `RewardGraph`, `RewardTargets`, `TargetsOutcome`, `Projection`, `ProjectionInputs`, `ProjectionOutcome` |
| Kernel variant registry | `Capabilities`, `CapabilityOutcome`, `Registry`, `NodeAddresses` |
| Settlement | `Lineage`, `Settlement`, `SettlementOutcome`, `PlanOutcome`, `SettlementPlanner`, `SettlementRuns`, `CommitOutcome` |
| Evidence gates | `Coverage`, `CoverageOutcome`, `AuditGate`, `AuditOutcome` |
| Content identity | `CanonicalJson`, `JsonOutcome`, `JsonNative`, `Fingerprints`, `FingerprintOutcome` |
| Shared | `Wrappers` (optional values), `Orders` (sorting, filtering, permutations), `Sums` (sums over finite sets) |

Loops of the source are methods proved against specification functions or predicates, objects that change in place
(`KernelRegistry`, the settlement journal, the audit statistics, the closure search) are classes, and a raised error is
an `Option` or a `false` result. A dictionary is a map that loops visit in an arbitrary order, so results that do not
depend on that order are proved not to. The `Outcome` modules, `SubmissionShares` and `ProjectionInputs` restate what a
procedure decides in the fields of its own inputs, without its helper functions, and prove the two agree on every input.

## Modelling choices

- `Fraction` and `Decimal` values are exact reals; Python's 28-digit `Decimal` context is not modelled.
- Digests are function values. Where collision freedom matters it is an explicit hypothesis (`CollisionFree`), and
  otherwise equal digests are treated as the code treats them.
- `credit_at` is a function of its arguments that may refuse them; its logarithms and decay are abstract.
- The stored lineage and the commit of a plan follow `cacheon/chain/arena_state.py` and `cacheon/chain/intake.py` for
  one competition arena, as a state machine on values.

## Findings

Three promises do not hold for every input and are proved together with the exact condition under which they do.

- Lineage thresholds compose only if the root's parent is not itself on the path (`Lineage.ComposesIff`; `Lineage.LoopingRootBreaks` is a path where they do not).
- A committed crown can leave a lineage that no longer reopens: it reopens if and only if the crowned artifact is
  neither in the kept prefix nor the parent of the new root (`Lineage.ReopensIffFresh`, `SettlementRuns.NextReopensIff`;
  `SettlementRuns.StaleCrownRound` is a committed round after which it does not, `Lineage.SelfCrownCloses` the same in the tables).
- Intake acceptance implies registration without conflict only if variant names differ within a slot, which the manifest
  reader checks, and no operation of a forward-pass node splits on the token count (`Registry.IntakeRegisters`; `Registry.TokenLimitRefused` is
  an operation that is refused).

## Model

| member | source | states |
|---|---|---|
| `PoolAllocation.AllocatePool` | cacheon/economics.py:448-464 | raises exactly when no credit is positive; otherwise returns the largest-remainder rounding `Allocation`, defined by rank and not by the loops |
| `PoolAllocation.DivideCredits` | cacheon/economics.py:453-458 | the division loop leaves the floor of every quota, the remainder of every division and the units handed out |
| `PoolAllocation.RaiseFirst` | cacheon/economics.py:459-463 | exactly the first `missing` rows gain one unit |
| `PoolAllocation.MissingBounds` | cacheon/economics.py:459 | the units left over are non-negative, fewer than the recipients, and no more than the recipients with a fractional quota |
| `PoolAllocation.AllocationExact` | cacheon/economics.py:448-464 | the rounded parts sum to the pool |
| `PoolAllocation.AllocationServed` | cacheon/economics.py:448-464 | the keys are exactly the positive credits, no part is negative and the values sum to the pool |
| `PoolAllocation.AllocationWithinOne` | cacheon/economics.py:448-464 | each part is the floor or the ceiling of its quota |
| `PoolAllocation.AllocationMonotone` | cacheon/economics.py:460-463 | a larger credit never receives less |
| `PoolAllocation.AllocationOptimal` | cacheon/economics.py:448-464 | no integer vector with the same sum has a smaller total absolute deviation from the quotas |
| `PoolAllocation.AllocationFair` | cacheon/economics.py:448-464 | every quota is rounded down or up, and nobody is rounded up before a recipient with a larger fraction, or an equal one and a smaller name |
| `PoolAllocation.AllocationUnique` | cacheon/economics.py:448-464 | the allocation is the only vector that sums to the pool and rounds that way |
| `PoolAllocation.AllocationSame` | cacheon/economics.py:448-464 | the allocation depends only on what each name is credited, not on the zero credits listed |
| `PoolOutcome.AllocationMeaning` | cacheon/economics.py:448-464 | a vector is the allocation if and only if it rounds, each to less than one unit, the parts of the pool that are in proportion to the positive credits, keeps their sum, and raises nobody before a recipient with a larger fraction, or an equal one and a smaller name |
| `SubmissionAllocation.AllocateSubmissionWeights` | cacheon/arena_allocation.py:112-168 | refused exactly when terms or base credits do not name the rows, a term lacks a source or leaves 0 to 1,000,000, a base credit is negative or the burn hotkey is not registered, so no inner "no positive credit" error is reachable; otherwise the vector with its per-claim attribution |
| `SubmissionAllocation.PriceArenas` | cacheon/arena_allocation.py:125-135 | refuses exactly the malformed terms and leaves the three dictionaries equal to the per-arena sums over paid rows |
| `SubmissionAllocation.RequestShares` | cacheon/arena_allocation.py:136-146 | the requested exact shares and recipients of the earning claims |
| `SubmissionAllocation.GroupByHotkey` | cacheon/arena_allocation.py:149-152 | shares summed by recipient, whatever order the dictionary lists them |
| `SubmissionAllocation.AttributeAll` | cacheon/arena_allocation.py:157-167 | over every hotkey in any order, each claim and the burn key are recorded once with their rounded part |
| `SubmissionAllocation.WeightsExact` | cacheon/arena_allocation.py:153 | hotkey weights are non-negative and sum to exactly 1,000,000 |
| `SubmissionAllocation.WeightsEligible` | cacheon/arena_allocation.py:143-148 | only registered hotkeys are paid |
| `SubmissionAllocation.PartsPayable` | cacheon/arena_allocation.py:158-159 | every hotkey with a weight has a positive part, so the inner rounding never fails |
| `SubmissionAllocation.PartsExact` | cacheon/arena_allocation.py:157-167 | claim and burn parts inside a hotkey sum to exactly its weight |
| `SubmissionAllocation.AttributionExact` | cacheon/arena_allocation.py:153-168 | all parts of all hotkeys sum to 1,000,000 |
| `SubmissionAllocation.OutcomeConserves` | cacheon/arena_allocation.py:154-168 | arena shares plus burned, and claim weights plus burned, are both 1,000,000 |
| `SubmissionAllocation.WeightsWithinOne` | cacheon/arena_allocation.py:147-153 | when the pools fit, each weight is the floor or ceiling of the hotkey’s exact rational share |
| `SubmissionAllocation.ArenaPricing` | cacheon/arena_allocation.py:125-145 | before rounding, an arena with base credit and an earning paid claim receives exactly its base-credit-weighted mean term |
| `SubmissionAllocation.PricingIgnoresStall` | cacheon/arena_allocation.py:125-145 | two offers that differ only in stall-bearing credits give that arena the same exact total |
| `SubmissionAllocation.ZeroOffersInert` | cacheon/arena_allocation.py:112-168 | zero-offer submissions neither earn nor dilute: none has a share, and dropping every one, with its term and base credit, leaves shares, weights and attribution unchanged |
| `SubmissionShares.ExactShare` | cacheon/arena_allocation.py:125-145 | an earning row (paid, credited, its arena with stall-free credit) gets its arena’s priced stall-free credit over its stall-free credit, times term times credit over the arena’s sum of those, all as row-by-row integer sums; any other row gets nothing |
| `SubmissionShares.ShareRatio` | cacheon/arena_allocation.py:139-142 | inside an arena shares are in the ratio of term times credit |
| `SubmissionShares.HotkeyShareIsDue` | cacheon/arena_allocation.py:143-152 | a registered hotkey’s exact share is the sum over its own rows; the validator’s adds the rows of unregistered hotkeys, the burn hotkey’s what no claim asks for |
| `SubmissionShares.WeightIsDue` | cacheon/arena_allocation.py:112-168 | every hotkey’s served weight is what its rows are due, scaled down only when more than everything is claimed, to within one unit |
| `SubmissionShares.PartIsShare` | cacheon/arena_allocation.py:157-167 | a claim’s recorded part is its share of its hotkey’s weight, to within one unit |
| `SubmissionShares.RenamedWeights` | cacheon/arena_allocation.py:112-168 | renaming the claims, with their terms and base credits, leaves every weight as it was |
| `SubmissionOutcome.OutcomeMeaning` | cacheon/arena_allocation.py:112-168 | an accepted offer returns exactly: shares owed by mean term and priced credit to each claim’s last earning row, the rest to the burn key; one million rounded over the recipients and each weight over what it is owed for; the parts by claim, by arena and burned, and the paid claims in alphabetical order |
| `SubmissionOutcome.OutcomeUnique` | cacheon/arena_allocation.py:112-168 | that description leaves one vector and one report |
| `RewardGraph.Search.constructor` | cacheon/economics.py:495 | a search starts with both sets empty |
| `RewardGraph.Search.Visit` | cacheon/economics.py:497-505 | a visit restores `visiting`, adds only nodes reachable from the visited node, and fails only when a cycle or malformed row is reachable from the root |
| `RewardGraph.Search.VisitChildren` | cacheon/economics.py:501-504 | with the node on the path, every child is finished before the node |
| `RewardGraph.Search.VisitChild` | cacheon/economics.py:503-504 | a finished child is found, and everything new is reachable from its parent |
| `RewardGraph.Closure` | cacheon/economics.py:494-508 | terminates; refuses exactly when a cycle or malformed row is reachable; otherwise returns exactly the targets reachable by one or more edges |
| `RewardTargets.ActiveRewardTargets` | cacheon/economics.py:467-557 | accepts exactly the admissible stacks; the result lists the active targets in order, and no member occurs twice in the members of that list |
| `RewardTargets.CheckTargets` | cacheon/economics.py:510-518 | passes exactly when displacement, requirement, conflict and disjoint ownership hold for every active target |
| `RewardTargets.CheckRules` | cacheon/economics.py:520-550 | passes exactly when the composition rules are well shaped, and yields their pairs and precedence edges |
| `RewardTargets.CheckCoverage` | cacheon/economics.py:551-554 | passes exactly when compatibility is symmetric and matches the declared pairs |
| `RewardTargets.CheckAcyclic` | cacheon/economics.py:555-556 | passes exactly when no target precedes itself |
| `RewardTargets.PrecedenceLinear` | cacheon/economics.py:520-556 | an accepted schema-1 stack has a linear order of its targets in which the first target of every applicable rule comes before its second |
| `RewardTargets.OneOwner` | cacheon/economics.py:516-518 | targets that pass the ownership checks own each member once: their member lists, laid end to end, repeat nothing |
| `RewardTargets.ActiveAgree` | cacheon/economics.py:511-516 | no active target of an accepted stack displaces or, under schema 2, conflicts with an active one, and what it requires is active |
| `TargetsOutcome.AdmissibleMeaning` | cacheon/economics.py:467-557 | a stack is admissible if and only if, along every path of its rows, relations close no cycle and end where they may, ownership is exclusive, and the schema-1 rules are ordered pairs that match compatibility and form no circle |
| `Projection.ProjectGlobalRewards` | cacheon/economics.py:560-791 | the call computes exactly `Project`, whose rows, weights, bounties, order, policy and context `ProjectionOutcome` states in the call’s fields, and any result is normalized |
| `Projection.ProjectPermutation` | cacheon/economics.py:560-791 | permuting arenas, earning claims or discovery claims gives the same projection or the same refusal |
| `Projection.ProjectNormalized` | cacheon/economics.py:419-426 | every vector that reaches the constructor is positive and sums to 1,000,000 |
| `Projection.PredecessorNotLater` | cacheon/economics.py:691-705 | in the sorted chain each predecessor block is no later than its claim, and the credit given is the one computed from that predecessor |
| `Projection.GapsTelescope` | cacheon/economics.py:689-705 | over the sorted claims the stall gaps of one clock sum to its last block minus its first, which bound every crowned block of that clock |
| `Projection.ChainAt` | cacheon/economics.py:691-715 | the i-th credit of the loop is computed from what its running map of previous blocks holds for the claim’s clock |
| `Projection.ChainTotal` | cacheon/economics.py:691-715 | the stall clock never makes a credit fail: the chain succeeds exactly when every claim’s own arguments are accepted, and covers every claim |
| `Projection.CheckAuthorities` | cacheon/economics.py:589-686 | passes exactly when every arena authority and the claim completeness rules hold |
| `Projection.IndexClaims` | cacheon/economics.py:618-623 | the index is built exactly when no two validated claims share arena, target and contribution, and then finds each claim |
| `Projection.CheckCrowns` | cacheon/economics.py:634-686 | the loop over active targets passes exactly when every target has its standing claim, backed by a PASS, or a PASS carried over from another arena |
| `Projection.ChainCredits` | cacheon/economics.py:687-723 | the claim loop yields the chained credits together with their sums by recipient |
| `Projection.SplitBounties` | cacheon/economics.py:736-753 | live and expired bounties in digest order, with the live units summed by recipient; refused exactly for a future award |
| `Projection.CombineVector` | cacheon/economics.py:755-772 | standing and discovery pools merged, or the submission allocation, or the refusal |
| `ProjectionInputs.InputsMeaning` | cacheon/economics.py:589-686 | the inputs are accepted if and only if arenas and claims differ, the maps name the earning claims, and every active target has one crown backed by its PASS or an incumbent carried from another arena |
| `ProjectionInputs.BountiesMeaning` | cacheon/economics.py:727-735 | bounties are accepted if and only if no two share a proposal, evidence or digest |
| `ProjectionOutcome.ProjectionCredits` | cacheon/economics.py:689-715 | every projection has one row per earning claim, credited from the call’s own score, start, bonus and the latest block before it on its clock |
| `ProjectionOutcome.ScoresDecide` | cacheon/economics.py:560-791 | with scores supplied, claims that differ in measured speedup, and so in their digests, get the same credits under their own digests and the same weights, if claims crowned in one block of one clock keep their digest order |
| `ProjectionOutcome.ProjectionBounties` | cacheon/economics.py:736-753 | a bounty is credited with its units if and only if the block is before award plus lifetime, and listed as expired otherwise |
| `ProjectionOutcome.PooledWeights` | cacheon/economics.py:716-776 | without submission terms each hotkey gets its own rows’ part of the standing pool plus its units’ part of the discovery pool, to within one rounding unit, or two when both pools are shared out |
| `ProjectionOutcome.PooledExact` | cacheon/economics.py:716-776 | without submission terms each weight is exactly the rounded part of the standing pool plus, when a bounty is live, the rounded part of the discovery pool |
| `ProjectionOutcome.TermsWeights` | cacheon/economics.py:761-770 | under submission terms the weights are those of the offer made of the credited rows, their stall-free credits and the call’s terms |
| `ProjectionOutcome.ProjectionOrder` | cacheon/economics.py:777-791 | authorities, credits, live and expired bounties are listed in order of their digests, and the projection carries the call’s own policy and context |
| `ProjectionOutcome.ProjectionIff` | cacheon/economics.py:560-791 | there is a projection if and only if the inputs are accepted, every claim’s arguments are in range and something can be paid |
| `ArenaTerms.NormalizeWeights` | cacheon/arena_allocation.py:13-22 | refuses exactly empty or negative settings and otherwise returns the normal terms as `NormalMeaning` describes them |
| `ArenaTerms.NormalFits` | cacheon/arena_allocation.py:13-22 | normal terms keep every name, sum to the settings when they fit and to exactly 1,000,000 when they do not |
| `ArenaTerms.NormalIdempotent` | cacheon/arena_allocation.py:13-22 | normalizing twice is normalizing once |
| `ArenaTerms.NormalMonotone` | cacheon/arena_allocation.py:13-22 | scaling never reverses two arenas and keeps zero at zero |
| `ArenaTerms.NormalScales` | cacheon/arena_allocation.py:13-22 | settings that fit are kept as they are; any others are scaled in proportion, each to within one unit |
| `ArenaTerms.NormalMeaning` | cacheon/arena_allocation.py:13-22 | settings that fit are kept; any others become their largest-remainder rounding to one million, zero settings staying zero |
| `ArenaTerms.VersionInForce` | cacheon/arena_allocation.py:90-93 | the version in force is the last one not after the block |
| `ArenaTerms.TermsFrozen` | cacheon/arena_allocation.py:82-93 | appending later versions never changes the terms of an earlier submission |
| `Capabilities.Match` | cacheon/registry.py:113-174 | the mismatches listed are exactly the legacy rules and predicates the call fails, each once, with whether the field is missing; a call is accepted exactly when there is none |
| `CapabilityOutcome.MatchMeaning` | cacheon/registry.py:113-174 | an eligibility accepts a call if and only if every stated field is there and is one of the names, between the bounds or the kind of value asked for, the unstated quantization counting as dense, and every predicate holds of its field |
| `CapabilityOutcome.MismatchMeaning` | cacheon/registry.py:113-174 | a mismatch is listed if and only if its field is asked for, or declared by its predicate, and the call’s value does not meet it, marked missing exactly when the call has none |
| `Capabilities.MatchCapabilities` | cacheon/capabilities.py:314-336 | adds exactly one mismatch for every predicate whose field is missing or outside its domain |
| `Capabilities.ParsePredicate` | cacheon/capabilities.py:342-405 | refuses exactly the objects that mix or omit the ways of stating a field, or hold a value the field cannot; otherwise the predicate accepts exactly the values described and is public |
| `Capabilities.PublicDeclarable` | cacheon/capabilities.py:342-405 | conversely every public predicate without repeats or crossed bounds is declared by some object |
| `Capabilities.AddEligibilityConstraints` | cacheon/registry.py:228-260 | folding a domain yields its constraints and whether every predicate is public |
| `Capabilities.EligibilityDomainsOverlap` | cacheon/registry.py:263-280 | the folding and the emptiness loop compute `Overlap`, the answer `OverlapExact` ties to the dynamic match |
| `Capabilities.EligibilityDomainIsEmpty` | cacheon/registry.py:283-291 | the folding and the emptiness loop compute `DomainEmpty`, the answer `EmptyExact` ties to the dynamic match |
| `Capabilities.EmptySound` | cacheon/registry.py:195-225 | a constraint reported empty admits no valid value of its field, whatever predicates it came from |
| `Capabilities.EmptyComplete` | cacheon/registry.py:195-225 | a constraint not reported empty admits some valid value, found by pigeonhole in a bounded interval |
| `Capabilities.EligibilityExact` | cacheon/registry.py:228-260 | the folded constraints hold of a call exactly when the dynamic match accepts it |
| `Capabilities.OverlapExact` | cacheon/registry.py:263-280 | for public domains the answer is definite; true exactly when some valid call matches both, false exactly when none does |
| `Capabilities.RefusalSound` | cacheon/registry.py:263-280 | for all domains, private predicates included, the answer false excludes every valid common call |
| `Capabilities.EmptyRefusalSound` | cacheon/registry.py:283-291 | for all domains, private predicates included, a domain reported empty matches no valid call |
| `Capabilities.EmptyExact` | cacheon/registry.py:283-291 | emptiness is decided equally exactly |
| `Capabilities.AnswerOpen` | cacheon/registry.py:263-291 | only a predicate on a private field leaves either answer open, and then it is never the definite yes or the definite non-empty |
| `Capabilities.OverlapSymmetric` | cacheon/registry.py:263-280 | the two domains may be given in either order |
| `CapabilityOutcome.RefusalStands` | cacheon/registry.py:263-291 | domains found disjoint, and a domain found empty, stay so whatever predicates are added to them |
| `Registry.KernelRegistry.constructor` | cacheon/registry.py:355-363 | a new registry is empty and disabled |
| `Registry.KernelRegistry.Register` | cacheon/registry.py:365-405 | accepted exactly when the name is new and the domain non-empty and disjoint from the slot’s variants; a refusal changes nothing; the state stays the one the calls so far lead to |
| `Registry.CheckSound` | cacheon/registry.py:369-390 | the checks on one variant alone: name, token split on forward-pass nodes, empty domain |
| `Registry.AdmitsMeaning` | cacheon/registry.py:365-405 | a public variant registers exactly when its name is a non-empty word over digits, letters, dots, underscores and dashes, some valid call matches it, it does not limit tokens on a forward-pass node, and it shares neither name nor any valid call with a variant of its slot |
| `Registry.ChooseMeaning` | cacheon/registry.py:445-494 | the one accepting variant is selected; none is out of domain, naming a sole variant; two or more are ambiguous |
| `Registry.KernelRegistry.Clear` | cacheon/registry.py:407-412 | clearing empties and disables |
| `Registry.KernelRegistry.Enable` | cacheon/registry.py:414-415 | enabling changes only the flag |
| `Registry.KernelRegistry.Disable` | cacheon/registry.py:417-418 | disabling changes only the flag |
| `Registry.KernelRegistry.Select` | cacheon/registry.py:426-494 | what the calls so far decide, as `DecisionMeaning` states it: inactive, unregistered, out of domain, ambiguous or selected, with the exact failed rules of every variant; never ambiguous if all registrations were public |
| `Registry.RunsRoutable` | cacheon/registry.py:352-418 | after any run of operations every slot holds a non-empty list of distinct, non-empty, pairwise disjoint variants |
| `Registry.ActiveIff` | cacheon/registry.py:407-424 | after any run the registry is enabled exactly when some call enabled it and none since then disabled or cleared it |
| `Registry.HeldIff` | cacheon/registry.py:365-412 | after any run a slot holds exactly the variants that were accepted since the last clear |
| `Registry.DecisionMeaning` | cacheon/registry.py:407-494 | after any run a call is inactive if and only if nothing enabled the registry since it was last disabled or cleared; otherwise unregistered, selected, ambiguous or out of domain as none, one, several or no matching variants are held, the sole variant named |
| `Registry.DecisionUnique` | cacheon/registry.py:407-494 | that description leaves one decision |
| `Registry.AtMostOne` | cacheon/registry.py:426-494 | at most one variant of a list proved disjoint accepts any call, private predicates included |
| `Registry.NeverAmbiguous` | cacheon/registry.py:352-494 | with public predicates no call in any reachable registry is ambiguous |
| `Registry.AmbiguityIsDeferred` | cacheon/registry.py:473-485 | whatever was registered, a call is ambiguous only if registration left the overlap of two variants of its slot undecided |
| `Registry.PrivateAmbiguity` | cacheon/registry.py:473-485 | two variants with a private predicate register on any other slot than a forward-pass node and one call reaches both, so the guard at the call is needed |
| `Registry.MatchingIsSelected` | cacheon/registry.py:426-494 | a matching variant is the one selected |
| `Registry.EveryVariantReachable` | cacheon/registry.py:365-494 | every registered variant of an enabled registry is selected by some call |
| `Registry.RegisterAllExact` | cacheon/registry.py:365-405 | registering a list in turn succeeds exactly when it is registrable and keeps list order per slot |
| `Registry.OrderIrrelevant` | cacheon/registry.py:365-494 | any permutation of a registrable list also registers and selects the same variant for every call |
| `Registry.ValidateVariantDomains` | cacheon/engine_tree.py:824-860 | the intake loop accepts exactly the lists without an empty or overlapping domain, whatever their order |
| `Registry.IntakeRegisters` | cacheon/engine_tree.py:824-860 | operations accepted by intake register without conflict if and only if their variant names differ per slot and no forward-pass node constrains the token count |
| `Registry.TokenLimitRefused` | cacheon/registry.py:369-377 | a concrete operation that intake accepts and registration refuses |
| `NodeAddresses.OverlapSemantic` | cacheon/_strict.py:33-49 | two addresses overlap exactly when some concrete module path lies at or under both |
| `NodeAddresses.AddressMeaning` | cacheon/_strict.py:25-30 | a name is an address if and only if it has 1 to 128 characters, each a letter, digit, underscore or dash, a dot between two segments, or a star that is a whole segment |
| `NodeAddresses.SplitMeaning` | cacheon/_strict.py:33-49 | the segments are the dotless pieces of the name, and joined by dots they are the name |
| `NodeAddresses.RequireNodeMembers` | cacheon/_strict.py:52-70 | returns the canonical form of the declared set in strict alphabetical order, and refuses exactly when a member is no address at or under a root or two members share a concrete module |
| `NodeAddresses.CanonicalUnique` | cacheon/_strict.py:52-70 | canonical forms are unique, so re-admission is a fixpoint |
| `NodeAddresses.CanonicalMeaning` | cacheon/_strict.py:52-70 | a list is the canonical form of a declaration if and only if it ascends strictly and the declaration holds only addresses at or under the roots, no two of which share a concrete module |
| `NodeAddresses.Admits` | cacheon/target_catalog.py:512-519 | true exactly for a list that is its own canonical form |
| `NodeAddresses.OneOwner` | cacheon/_strict.py:52-70 | every concrete module has at most one owner in an admitted list |
| `NodeAddresses.TargetsNeverOverlap` | cacheon/target_catalog.py:655-704 | members admitted under the forward-pass and the prefix-cache roots never overlap, and share no concrete module |
| `Lineage.ThresholdFrom` | cacheon/settlement.py:149-167 | no threshold at the tip, none off the path, and otherwise the product of the speedups from the node that leaves the baseline |
| `Lineage.ThresholdMeaning` | cacheon/settlement.py:149-167 | a threshold is the one computed if and only if it is what multiplying the speedups one by one from the first node on the baseline arrives at, with that node’s event |
| `Lineage.ComposesIff` | cacheon/settlement.py:149-167 | thresholds compose (to any later baseline times the threshold from there) if and only if the path has one node or the root’s parent is off the path |
| `Lineage.LoopingRootBreaks` | cacheon/settlement.py:117-134 | for any two artifacts and event, an accepted path whose thresholds do not compose |
| `Lineage.ReplacementProgress` | cacheon/settlement.py:922-940 | replacing the suffix after the baseline by an admitted winner gives a valid path with a strictly larger root-to-tip product |
| `Lineage.Reopen` | cacheon/chain/arena_state.py:135-182 | reopening returns the stored path from the tip, and refuses exactly when there is none |
| `Lineage.PathUnique` | cacheon/chain/arena_state.py:135-182 | a stored path is determined by its tip |
| `Lineage.ReopensIffFresh` | cacheon/chain/arena_state.py:102-182 | after a crown is written the lineage reopens if and only if the crowned artifact is neither in the kept prefix nor the parent of the new root; it is then the kept prefix and the winner, with a larger product |
| `Lineage.SelfCrownCloses` | cacheon/chain/arena_state.py:102-182 | for any artifact and events, an admitted crown after which the stored lineage cannot be reopened |
| `Settlement.Journal.constructor` | cacheon/settlement.py:896-899 | a journal starts at the given head with no events |
| `Settlement.Journal.Add` | cacheon/settlement.py:901-919 | an event is appended at the next sequence number with the digest of the one before |
| `SettlementPlanner.LineageHoldReason` | cacheon/settlement.py:922-940 | no reason at the tip or when the composed threshold is strictly beaten, stale off the lineage, lost potential otherwise |
| `SettlementPlanner.PlanSettlement` | cacheon/settlement.py:943-1051 | the planner, journal and all, computes exactly `PlanOf`: on qualified candidates it raises exactly when `PlanOutcome` refuses, and otherwise returns the plan described there |
| `Settlement.WrittenChained` | cacheon/settlement.py:895-919 | events written in turn form a contiguous hash chain from the given head |
| `Settlement.PlanPermutation` | cacheon/settlement.py:943-1051 | every permutation of the candidates gives the same events, transition or refusal |
| `Settlement.WinnerIsBest` | cacheon/settlement.py:983-1003 | a winner is named exactly when some candidate is eligible, and is the one with maximal speedup, earliest finalized order breaking ties |
| `Settlement.EveryCandidateDisposed` | cacheon/settlement.py:983-1012 | every candidate has exactly one HOLD or CROWN event, the CROWN exactly for the winner, with the reason its class calls for |
| `Settlement.WinnerEvents` | cacheon/settlement.py:990-1047 | HOLD events come first, then the winner’s CROWN, the RETIREMENT of a prior entry if any, ADOPTION and STACK_TRANSITION, with their subjects and stacks |
| `Settlement.PlanConstructible` | cacheon/settlement.py:822-884 | no constructor check of the plan or of its transition can fail |
| `Settlement.AdoptedStack` | cacheon/settlement.py:1014-1024 | the winner’s entry joins the current stack and every other target keeps its entry; the tree is the measured one if measured as adopted, else the resolver’s |
| `Settlement.PlanRefusedIff` | cacheon/settlement.py:974-1024 | planning raises if and only if two rows share a digest or a reservation, the winner’s entry is already in place, or the measured stack is not the composed one and there is no resolver |
| `PlanOutcome.RefusedMeaning` | cacheon/settlement.py:974-1024 | the same with the winner read off the fields: the fastest of those that may win, and the earliest finalized of these |
| `PlanOutcome.PlanMeaning` | cacheon/settlement.py:943-1051 | a plan is returned if and only if planning is not refused and it is: HOLDs of those that may not win, then of the beaten, each in finalized order, then CROWN, RETIREMENT of a replaced entry, ADOPTION and STACK_TRANSITION, every event with its subject, target, arms, reason and place in the chain; so there is one such plan |
| `SettlementOutcome.ReasonMeaning` | cacheon/settlement.py:922-940 | a candidate may win if and only if it was measured on its lineage’s tip or beats everything crowned since its baseline, or without a lineage on the current stack and tree; a held one is lost potential on the path and stale off it |
| `SettlementOutcome.WinnerMeaning` | cacheon/settlement.py:999-1003 | the winner is the fastest that may win, the earliest of the fastest by block, event index, subindex and reservation digest |
| `SettlementOutcome.CandidateTold` | cacheon/settlement.py:983-1034 | every candidate has one event, which holds it for its lineage or stack, for losing a shared module or an advanced incumbent, or crowns it |
| `SettlementOutcome.EventsInOrder` | cacheon/settlement.py:989-1012 | stale holds come first, then the losers’, each in finalized order, then the CROWN |
| `SettlementRuns.AcceptedCommits` | cacheon/chain/intake.py:1952-2089 | an accepted round always has the CROWN and transition its commit applies |
| `CommitOutcome.CommitMeaning` | cacheon/chain/intake.py:1952-2089 | a committed round continues the journal from its last event, appends the plan described, and with a winner installs its stack, moves the tip of its target to its artifact and writes one lineage row |
| `CommitOutcome.RowIs` | cacheon/chain/arena_state.py:102-116 | the row is the winner’s artifact, the artifact it was measured on, the lower of its retained runs and the digest of its CROWN |
| `CommitOutcome.CommitUnique` | cacheon/chain/intake.py:1952-2089 | that description leaves one state |
| `SettlementRuns.NextInv` | cacheon/chain/intake.py:1952-2089 | a committed round keeps the journal, entry and lineage invariants |
| `SettlementRuns.RunInv` | cacheon/settlement.py:895-1051 | over every run the journal is one hash chain from the start, each event is written against the stack the earlier ones lead to, every entry is the genesis entry or what its target’s last CROWN names, and each lineage tip is the entry in the stack |
| `SettlementRuns.EntryChangesOnlyByWin` | cacheon/stack_manifest.py:480-508 | an entry changes only in a round its own target’s candidate wins, and becomes that candidate’s contribution |
| `SettlementRuns.NextReopensIff` | cacheon/chain/intake.py:2026-2029 | after a crown the lineages reopen if and only if the crowned artifact is fresh |
| `SettlementRuns.StaleCrownRound` | cacheon/chain/intake.py:1952-2089 | from any genesis stack with an entry, a round that crowns the entry’s artifact again under other attribution is accepted and committed, and its lineage does not reopen |
| `SettlementRuns.LineageProgress` | cacheon/settlement.py:922-940 | a crown strictly raises its target’s root-to-tip product and leaves every other lineage unchanged |
| `SettlementRuns.RunProgress` | cacheon/settlement.py:922-940 | along a run a target’s product rises exactly when it is crowned and is otherwise unchanged |
| `SettlementRuns.HeadDetermines` | cacheon/settlement.py:780-818 | two hash chains with the same head digest are the same journal |
| `CanonicalJson.RoundTrip` | cacheon/stack_identity.py:95-118 | decoding an encoding gives the value back up to member order and list or tuple |
| `JsonOutcome.EncodeMeaning` | cacheon/stack_identity.py:95-118 | the text of a value is its literal, digits or escaped string, its items in brackets, or its members in braces, comma-separated, in an order of the members whose keys ascend alphabetically |
| `JsonOutcome.EncodeSame` | cacheon/stack_identity.py:95-118 | values with distinct keys have the same text if and only if they hold the same data, member by member |
| `JsonOutcome.DecodeSame` | cacheon/stack_identity.py:95-118 | decoding the text of a value with distinct keys gives the same data |
| `CanonicalJson.EncodeInjective` | cacheon/stack_identity.py:95-118 | two values have the same text if and only if their canonical forms agree |
| `CanonicalJson.CanonIdempotent` | cacheon/stack_identity.py:31-58 | the canonical form is a fixpoint |
| `CanonicalJson.InsertionOrder` | cacheon/stack_identity.py:95-102 | the insertion order of a dictionary does not show in the text |
| `CanonicalJson.Compositional` | cacheon/stack_identity.py:121-133 | joining the encodings of an object’s members, sorted by key, gives the text of the encoder that sorts the members first and writes each in turn |
| `JsonOutcome.ObjectTextMeaning` | cacheon/stack_identity.py:121-133 | the joined text is a brace-enclosed, comma-separated arrangement of the given members whose keys ascend alphabetically |
| `CanonicalJson.PreimageIff` | cacheon/stack_identity.py:172-198 | there is a preimage if and only if the version is positive and the domain is made of lower-case letters, digits, dots, underscores and dashes and starts with a letter or digit |
| `CanonicalJson.PreimageEncodes` | cacheon/stack_identity.py:172-198 | a digest preimage is the encoding of the envelope object |
| `CanonicalJson.PreimageInjective` | cacheon/stack_identity.py:154-198 | two preimages are equal if and only if domain, schema version and canonical payload are |
| `JsonOutcome.PreimageMeaning` | cacheon/stack_identity.py:154-198 | two preimages of payloads with distinct keys are equal if and only if domain and version are and the payloads hold the same data |
| `CanonicalJson.IntCanonical` | cacheon/stack_identity.py:95-102 | only negative integers carry a sign, zero is one digit and no integer has a leading zero |
| `CanonicalJson.EscapeShortest` | cacheon/stack_identity.py:95-102 | no text that reads as a character is shorter than its escape |
| `CanonicalJson.EscapeHex` | cacheon/stack_identity.py:95-102 | a longer escape is four lower-case hex digits |
| `CanonicalJson.LiteralShortest` | cacheon/stack_identity.py:95-102 | no literal that reads as a string is shorter than its encoding |
| `JsonNative.IsJsonNative` | cacheon/stack_identity.py:61-92 | terminates on every finite heap, shared or cyclic, and is true exactly when every reachable object is an exact scalar, list or tuple, or a dict whose keys are all exact strings |
| `JsonNative.WalkLoads` | cacheon/stack_identity.py:31-118 | on acyclic native data the checked walk accepts and encodes to the text of the fast path |
| `JsonNative.WalkAcceptsIff` | cacheon/stack_identity.py:31-58 | the checked walk raises exactly when something reachable is unsupported or has a non-string key |
| `JsonNative.WalkIff` | cacheon/stack_identity.py:31-58 | the walk returns a value if and only if it is the data rebuilt: a scalar subclass as its scalar, any sequence as a list, any mapping as its members in order under the text of their keys |
| `JsonNative.CanonicalText` | cacheon/stack_identity.py:105-118 | on acyclic data the two-path encoder returns exactly what the checked walk alone would, the canonical text of the data rebuilt |
| `Coverage.ExpectedMembers` | cacheon/receipts.py:564-622 | the roster is clean exactly when it is non-empty, valid, of the expected size, without repeated pids, and either unplaced or one full world |
| `Coverage.IdentityMeaning` | cacheon/receipts.py:545-561 | a receipt is validated exactly when its own fields name a positive pid and either no place yet or a rank inside its world, and then as that process |
| `Coverage.RosterMeaning` | cacheon/receipts.py:582-597 | the dictionary holds exactly the pids of valid receipts, each where its last one stands |
| `Coverage.ReadCompletions` | cacheon/receipts.py:660-683 | each count is the number of counted completions of that slot and member; malformed, unexpected and repeated receipts are listed in order, each list exactly the receipts of its class |
| `Coverage.Derive` | cacheon/receipts.py:685-698 | the places each pid’s completions name |
| `Coverage.ManyCoherent` | cacheon/receipts.py:699-711 | the test on derived identities passes exactly when every completion names the full world and pids and ranks agree |
| `Coverage.CoverageMatrix` | cacheon/receipts.py:625-745 | a bad slot or count raises; otherwise `ok` exactly for complete coverage, and the pids, missing pairs, malformed, unexpected and repeated receipts reported are exactly those |
| `CoverageOutcome.CompleteMeaning` | cacheon/receipts.py:625-745 | coverage is complete if and only if members are sound, as many as expected, unplaced or each on its own rank, every slot and member has exactly one completion from where the member stands, and unplaced members prove a rank each |
| `CoverageOutcome.ReportMeaning` | cacheon/receipts.py:564-745 | the matrix lists, in order: ill-formed members, all of them when their places do not fit, ill-formed completions, all of them when they disprove an unplaced roster; foreign completions; repeated members and completions; and the pairs nobody completed |
| `Coverage.CompleteCount` | cacheon/receipts.py:657-745 | accepted evidence has exactly slots times members completions |
| `Coverage.RankBijection` | cacheon/receipts.py:603-711 | with several members pids map one to one onto ranks 0 to n-1, as every completion says |
| `Coverage.CompletePermutation` | cacheon/receipts.py:625-745 | the verdict does not depend on the order of receipts |
| `Coverage.DroppingRefuses` | cacheon/receipts.py:720-733 | dropping any completion from an accepted set makes it refused |
| `AuditGate.Worker.SlotStats` | cacheon/audit.py:84-88 | a slot’s counters, created fresh on first use |
| `AuditGate.Worker.RecordFraction` | cacheon/audit.py:105-121 | a graded unit updates count, worst fraction, bar and violations of its slot only |
| `AuditGate.Worker.RecordPruned` | cacheon/audit.py:124-133 | a pruning finding is counted |
| `AuditGate.Worker.CompareError` | cacheon/audit.py:136-139 | an incomparable result is counted |
| `AuditGate.Worker.BaselineRefused` | cacheon/audit.py:97-102 | a refused baseline is counted |
| `AuditGate.CountersExact` | cacheon/audit.py:84-139 | after any units a slot’s counters are the counts of its units and its worst fraction is the least one |
| `AuditGate.BarIsLast` | cacheon/audit.py:105-121 | a slot’s bar is the one its last graded unit was held to |
| `AuditGate.Observe` | cacheon/audit_gate.py:87-109 | the loop stops exactly when the receipts are not one per slot and rank with pids and ranks one to one |
| `AuditGate.Gate` | cacheon/audit_gate.py:48-149 | the gate decides exactly `Verdict` |
| `AuditOutcome.VerdictMeaning` | cacheon/audit_gate.py:48-149 | on any receipts: FAIL if and only if request and receipts are in order and some pruning, error or violation is reported; PASS if and only if none is and the calls suffice in all and for every expected slot and rank |
| `AuditGate.VerdictPermutation` | cacheon/audit_gate.py:48-149 | the decision does not depend on the order of receipts |
| `AuditGate.InfrastructureFailure` | cacheon/audit_gate.py:169-189 | no failure exactly when the gate passes without violations and pruning findings |
| `AuditGate.InfrastructureSound` | cacheon/audit_gate.py:169-189 | without an infrastructure failure the gate decides, and fails exactly on evidence against the kernel |
| `AuditGate.PassClean` | cacheon/audit_gate.py:126-149 | for every interleaving of units over all processes, a pass means every recorded unit met its bar and none was pruned or incomparable |
| `AuditGate.PassGraded` | cacheon/audit_gate.py:110-149 | a pass under a coverage authority means each expected slot was graded at least the minimum on each rank |
| `AuditGate.PassOneToOne` | cacheon/audit_gate.py:87-109 | a pass under a coverage authority means pids and ranks of the recording processes are one to one |
| `AuditOutcome.VerdictOfLog` | cacheon/audit_gate.py:48-149 | over the log of all processes: FAIL exactly when the request and placement are right and some unit is not clean; PASS exactly when none is and enough was graded in all and on every expected slot and rank |
| `AuditOutcome.ThinEvidenceFails` | cacheon/audit_gate.py:126-148 | one unit that is not clean fails the kernel, however thin the coverage |
| `AuditOutcome.CleanCoveredPasses` | cacheon/audit_gate.py:110-149 | clean units and every expected slot and rank graded often enough pass the kernel |
| `AuditOutcome.UncountedReceipt` | cacheon/audit_gate.py:110-149 | a receipt without a count and with nothing against the kernel changes no decision |
| `AuditOutcome.InfrastructureOfLog` | cacheon/audit_gate.py:169-189 | no infrastructure failure exactly when placement is right, enough was graded and nothing was incomparable |
| `AuditOutcome.InfrastructureMeaning` | cacheon/audit_gate.py:169-189 | on any receipts there is no infrastructure failure if and only if they are in order, report no error and cover enough |
| `Fingerprints.ReadBindings` | cacheon/copy_fingerprint.py:383-392 | the last binding of every name |
| `Fingerprints.BoundLast` | cacheon/copy_fingerprint.py:383-386 | a name’s index binds it and no later statement does |
| `Fingerprints.Select` | cacheon/copy_fingerprint.py:447-455 | the worklist computes the least dependency-closed set with the definition and the future imports |
| `Fingerprints.DefinitionFingerprints` | cacheon/copy_fingerprint.py:365-459 | the fingerprints are exactly those of each definition, of its closure, and of its closure with pruned imports |
| `Fingerprints.LeastPadded` | cacheon/copy_fingerprint.py:447-455 | padding leaves the closure of every original definition unchanged |
| `Fingerprints.PaddingContains` | cacheon/copy_fingerprint.py:365-459 | appended statements that bind no name the original loads and are no future import leave every original fingerprint in place |
| `FingerprintOutcome.LeastMeaning` | cacheon/copy_fingerprint.py:441-455 | a definition’s closure is the future imports and whatever it leads to, each step to the statement that last named a loaded name |
| `FingerprintOutcome.ProjectionMeaning` | cacheon/copy_fingerprint.py:400-432 | a projection is the selected statements in module order; pruned, each import shows exactly the aliases some selected statement loads and the `*` of a from-import, and is dropped when it shows none |
| `FingerprintOutcome.UnusedAliasPruned` | cacheon/copy_fingerprint.py:403-424 | widening an import by a name that no selected statement loads leaves the pruned projection as it was |
| `FingerprintOutcome.UnusedAliasKeeps` | cacheon/copy_fingerprint.py:363-459 | widening an import by a name that no statement loads selects the same statements for every definition and keeps the fingerprints of the definition and of its pruned closure |
| `FingerprintOutcome.FingerprintMeaning` | cacheon/copy_fingerprint.py:365-459 | a module’s fingerprints are exactly the hashes of its definitions’ texts of at least 80 normalized characters: the definition, what it needs, and what it needs with pruned imports |

## Left out

- SHA-256, UTF-8 and the byte level of JSON: texts are sequences of Unicode scalar values, so an unpaired surrogate cannot occur.
- The transcendental arithmetic of `credit_at`.
- Text canonicalization of capability values (aliases, case and dash folding): values are already canonical tokens.
- Python's `True == 1` equality when a private capability field mixes booleans and integers.
- The wording of errors, mismatch expectations and gate details; only which inputs are refused and which decision is taken.
- Dataclass field validation that only checks one field's type or spelling.
- Reading, writing and locking of receipts, bundles, manifests and the SQLite tables, leases, deadlines and evidence receipts of a commit.
- The standing reward claims a commit writes, and NEUTRALIZATION and DISCOVERY_BOUNTY events, which the planner never emits.
- Several competition arenas in one store: a run follows one arena's stack and journal.
- The registry's per-field constraint object is a value that the fold replaces, not an object updated in place.
- Cyclic data in the checked walk, where Python raises a recursion error; the native test itself is modelled on cyclic heaps.
- String subclasses that redefine equality, hashing or iteration.
- The Python grammar behind fingerprints: statements are given by what they bind and load, and normalization and hashing are parameters.
- Reason strings of FAIL decisions and the worst-fraction wording: every violation fails, whatever its margin.
- Sandbox and import policy scans, torch and CUDA probes, dispatch seams, the command line and the dashboards.
- Projection.ProjectGlobalRewards: the weights are a map rather than a sorted tuple of pairs.
- Projection.CheckAuthorities: the exact-type checks on rows are not modelled.
- Capabilities.ParsePredicate: the scalar and list shorthands, unknown keys and values of other types are not modelled; an object is its four keys.
- Capabilities.Match: a mismatch carries the rule that failed instead of the text of its expectation and the value found, so two rules with one wording stay two mismatches.
- Registry.KernelRegistry.Select: the receipt written for a call that is not selected is not modelled.
- SettlementRuns.AcceptedCommits: a commit can still be refused for a lease, a deadline, an evidence receipt or a later arrival, which are not modelled.
- RewardGraph.Closure: a malformed relation row met during the search and a cycle are one refusal.
- SettlementPlanner.PlanSettlement: the single `registered` lane is the only lane, as in the source.
