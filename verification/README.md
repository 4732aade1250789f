# A verified model of the world server's stores

A Dafny model of the parts of this game server in which state is shared, exchanged or timed: the
character economy, currency ladders, walkable geometry, session leases and presence, guild and party
rosters, and three protocols between callers (message framing, zone channels, plugin state).
`dafny verify dfyconfig.toml` checks the whole project.

How the code is rendered:

- A table is a map keyed by its primary or unique key, held in a field of a class. One SQL statement is
  one update of the map. A transaction works on a copy that is installed at commit; operations the source
  leaves outside a transaction update the field statement by statement, and what a refusal part-way leaves
  behind is part of their contract.
- Column checks (`quantity > 0`, `balance >= 0`) and the `BIGINT` range make the statement that would
  break them fail. `i64` arithmetic is checked, saturating or wrapping as the code says. Time stamps,
  generated ids and the fall of a random roll are parameters. `f64` is `real`, and distances are squared.
- A method is proved against a specification function or predicate of its own; the laws are lemmas about
  those. Runs are sequences of steps, each accepted or refused, and every store method is shown to be such
  a step (`Perform` in `Economy` and `SessionLease`, the methods of `Guild` and `Party` directly).

| files | part |
|---|---|
| `Prelude`, `Sums` | optional values and results, 64-bit ranges, sums over finite sets |
| `AttributeSchema`, `Tables`, `Ledger`, `Inventory` | declared stats, the four character tables, charging and paying lists of entries |
| `Trade`, `TradeTransaction`, `TradeLaws` | the two-party exchange |
| `Crafting`, `Equipment`, `Slots`, `CharacterStore` | crafting, worn gear, inventory slots, and the store itself |
| `Economy`, `Conservation`, `StatBounds`, `Attribution` | runs of all of these: the invariant, conservation, which schemas bound their stats, stats owed to gear |
| `StoreLaws` | every step of the store in terms of rows and numbers alone |
| `CurrencySchema`, `CurrencyUnits` | ladder validation, the greedy breakdown, and when it uses the fewest units |
| `Polygons`, `ConvexPolygons`, `Subdivision`, `NavMesh`, `Manifest` | ray casting, areas, distances, vertices along edges, floors, manifest checks |
| `SessionLease`, `Presence` | the lease protocol with the login policy, and live connection counts |
| `Guild`, `GuildRaces`, `Party`, `PartyRaces` | the two rosters, and calls on them that overlap |
| `Envelope`, `ZoneChannel`, `PluginState`, `PluginRuns` | framing, racing channel creation, the write-behind cache and its runs |

Domains stated openly: a stat's bounds must be consistent (`min <= max`) for clamping to land in them,
and `StatsStayInBoundsExactlyWhen` shows that this is what keeps stored stats in bounds; attribution
needs stat deltas other than the least 64-bit value, and `UnequipKeepsBase` and `EquipKeepsBase` show
that this is exactly the condition. The plugin-state runs take ids without a colon (`CacheKeyInjective`,
`CollideExactlyWhen`) and give every connection a new entity id. Offers and recipes may list a key twice:
trades then move the totals, crafts take one of the listed amounts (`ChargesListedAmounts`). A character
may trade with itself.

Where the code and its own documentation differ, the model follows the code:

- `schema.rs:11-15` of the guild crate promises that every guild always has someone able to manage it. A
  sole founder may change their own rank (`store.rs:249-256` checks only that the actor is a founder);
  `LosesLastFounderExactlyWhen`, `FounderlessForever` and `FounderlessReachableExactlyWhen` say what
  follows, and under which schemas it can. Two founders can also demote each other in calls that overlap
  (`TwoFoundersDemoteEachOther`); `OverlappingFoundedExactlyWhen` says exactly when founders survive.
- `party.rs:167-172` says there is no party of one, and `party.rs:60-66` that a party stays under its cap.
  Neither method locks rows or asks for an isolation level, so two calls that overlap can both decide on
  counts the other makes stale (`TwoLeavesStrandOne`, `TwoJoinsExceedCap`); `OverlappingSoundExactlyWhen`
  says exactly when floor and cap hold.
- `session_lease.rs:86-90` says a renewal does not revive a lapsed lease. It does exactly when the row
  still names the instance (`RenewalRevivesExactlyWhen`); safety does not depend on it.
- `session_lease.rs:138-141` calls `release` harmless when no lease is held. It deletes whatever row is
  there, so safety needs releases to come from the holder (`StepAgrees`, `ForeignReleaseSplits`). The
  repository's own session does not look: `session.rs:1074-1080` only logs a failed renewal and
  `session.rs:2081` releases on every disconnect, which is the run of `LateReleaseSplits`. An instance
  that releases only while it holds the character by what it was told is safe (`OwnReleasesAreSafe`).
- `trade.rs:152-156` says the capacity check cannot use a slot freed by consumption, as in crafting.
  Both sides are charged first, so it can (`FreedSlotIsUsed`, `FreedSlotExample`); crafting checks before
  consuming.
- `equipment.rs:55-60` promises that an equip rejected because the item is not equippable or not held
  changes nothing, and that holds (`EquipRefused`). It is silent on the other refusals, which can leave
  deltas written or an occupant taken off (`RefusedEquipLeavesTraces`);
  `EquipRefusalUnchangedExactlyWhen` says exactly when they leave nothing. Items are conserved throughout.
- `population.rs:113-130` counts by the wall clock, which can step back; then a live connection can be
  missed (`ClockSteppedBack`, and exactly when: `CountIsLiveExactlyWhen`).
- `plugin_startup.rs:300-318` gives every plugin its own write queue over one shared cache, so the cache
  and the tables can come to disagree (`TwoWritersDisagree`). Two connections of one character bring that
  about as well: a bound realm admits them, because it takes no lease (`login_policy.rs:73-83`), and
  `session.rs:907` maps each of them to the character (`TwoConnectionsDisagree`).
  `DrainsAgreeExactlyWhen` and `RunAgreesExactlyWhen` say exactly when cache and tables agree.
- `main.rs:751-754` loads a zone's plugin state before any client can connect, but after plugins were
  loaded: a write they made then is hidden by the older stored value (`WriteBeforeLoadIsHidden`).

## Model

| member | source | states |
|---|---|---|
| `AttributeSchema.Clamp` | crates/character/src/schema.rs:100-110 | a clamped value lies in the declared bounds exactly when they are consistent (min <= max), and is nearer to the argument than any other value in bounds |
| `AttributeSchema.MigrateStats` | crates/character/src/schema.rs:124-138 | the migrated object has an entry for exactly the declared keys, the stored value where there is one and else the default |
| `AttributeSchema.MigrationPreservesReadExactlyWhen` | crates/character/src/schema.rs:112-153 | the read of a key is the same after migrating exactly when its value was stored or its first and last declarations agree on the default, as they always do for a key declared once |
| `CharacterStore.CharacterStore.GrantItem` | crates/character/src/inventory.rs:129-178 | accepted exactly when positive, within the cap for a new type and within 64 bits; then only that stack grows, and the reported total is its quantity; refused, nothing changes |
| `CharacterStore.CharacterStore.RemoveItem` | crates/character/src/inventory.rs:186-229 | accepted exactly for a positive amount that is held; then only that stack shrinks and an empty one is deleted; refused, nothing changes |
| `CharacterStore.CharacterStore.ItemQuantity` | crates/character/src/inventory.rs:233-244 | no row reads as zero |
| `CharacterStore.CharacterStore.ModifyCurrency` | crates/character/src/inventory.rs:293-323 | accepted exactly when the new balance is representable and not negative; only that balance changes |
| `Inventory.GrantKeepsChecks` | crates/character/src/inventory.rs:142-160 | an accepted grant keeps every stack positive and representable and every character within the cap |
| `Inventory.RemoveKeepsChecks` | crates/character/src/inventory.rs:207-226 | an accepted removal leaves no empty stack and no new type |
| `CharacterStore.CharacterStore.GetStat` | crates/character/src/store.rs:434-446 | what the attribute schema resolves for the character's own stored object: the stored value, else the declared default; an undeclared key is refused |
| `CharacterStore.CharacterStore.SetStat` | crates/character/src/store.rs:332-346 | a write happens exactly when key and value pass the schema |
| `CharacterStore.CharacterStore.ApplyStatDelta` | crates/character/src/store.rs:357-369 | accepted exactly when what the stat resolves to, plus the delta, neither overflows nor leaves the bounds; then the stat is that sum and nothing else changes |
| `StoreLaws.GrantsExactlyWhen` | crates/character/src/inventory.rs:129-178 | in terms of rows and numbers: positive, the stack there or the number of held types below the cap, the sum at most 9223372036854775807; the stack keeps its slot, a new one has none |
| `StoreLaws.RemovesExactlyWhen` | crates/character/src/inventory.rs:186-229 | exactly a positive amount up to the stack's; what remains keeps its slot, nothing remaining means no row |
| `StoreLaws.SpendsExactlyWhen` | crates/character/src/inventory.rs:293-323 | a balance may be spent to the last unit and not below, and grow to the largest 64-bit number |
| `StoreLaws.ReadsStoredOrDefault` | crates/character/src/schema.rs:143-154 | a stat reads as its stored value, else as the default of the first declaration of its key |
| `StoreLaws.SetsExactlyWhen` | crates/character/src/schema.rs:76-98 | a declared stat is set exactly to a value that is not below its minimum nor above its maximum |
| `StoreLaws.MovesExactlyWhen` | crates/character/src/store.rs:357-369 | and moved by a delta exactly if stored value or default, plus the delta, is such a value within 64 bits |
| `StoreLaws.UndeclaredRefused` | crates/character/src/schema.rs:76-98 | a stat nobody declared is neither set nor moved |
| `StoreLaws.TradesExactlyWhen` | crates/character/src/trade.rs:66-205 | two characters trade exactly if every amount is positive, each holds the totals it gives, both end within 64 bits, and who takes a type of which it keeps nothing of its own ends within the cap; every stack and balance then ends at what it was less what was given plus what was taken, and nobody else's changes |
| `StoreLaws.TradedStacksStay` | crates/character/src/trade.rs:210-303 | a stack of which its owner keeps some stays in its slot, one that a trade opens has none |
| `StoreLaws.CraftsExactlyWhen` | crates/character/src/crafting.rs:61-218 | a craft goes through exactly if every required stat reads as at least its minimum, each input is held by itself, the output's stack is there or there is room for one more type before anything is taken, the output fits in 64 bits, and every grant names a declared stat, save one without a ceiling whose roll misses |
| `StoreLaws.CraftedMeetsNeeds` | crates/character/src/crafting.rs:66-77 | an accepted craft met every requirement: the stat declared, its stored value or default at least the minimum |
| `StoreLaws.NeedsDecide` | crates/character/src/crafting.rs:66-77 | requirements added to a recipe that would be accepted without get it refused exactly when some listed stat is undeclared or reads below its minimum, and change nothing else |
| `StoreLaws.CraftedStacksStay` | crates/character/src/crafting.rs:148-188 | a stack of which a craft leaves some stays in its slot, one used up is gone, a new output has none |
| `StoreLaws.WearsExactlyWhen` | crates/character/src/equipment.rs:61-116 | into an empty slot an item goes exactly if it is held and its stats accept its deltas; one fewer is held, it is worn, and each delta is added to what its stat read as |
| `StoreLaws.ComesOffExactlyWhen` | crates/character/src/equipment.rs:120-175 | a worn item comes off exactly if its stats accept the reversed deltas and it fits back; one more is held, the slot is empty, the reversed deltas are added |
| `StoreLaws.ReplacesInTwoSteps` | crates/character/src/equipment.rs:76-108 | over an occupant, an equip succeeds exactly when the occupant comes off and the item then goes into the empty slot, with the same tables |
| `StoreLaws.UnlistedNotWorn` | crates/character/src/equipment.rs:61-75 | an item that no entry names, or that is not held, is not worn |
| `StoreLaws.TradeReportMeans` | crates/character/src/trade.rs:147-204 | a trade between two reports every type and currency that either offer lists, with what the character has of it in the end |
| `StoreLaws.SelfTradeReportMeans` | crates/character/src/trade.rs:147-204 | and a trade with oneself reports them off by what the first offer gave of a type the second does not list, and by what the second gave |
| `StoreLaws.CraftReportMeans` | crates/character/src/crafting.rs:148-218 | a craft reports for each input what was held of it less what is listed, then what is held of the output; the last entry of each reported stat is its value, and no other stat has changed |
| `StoreLaws.StatReportMeans` | crates/character/src/equipment.rs:89-175 | an equip or unequip reports exactly the stats with a delta, and the last entry of each is what the stat reads as in the end |
| `StoreLaws.ReportedOnce` | crates/character/src/equipment.rs:120-175 | an unequip reports each stat once |
| `Trade.ConsumeItems` | crates/character/src/trade.rs:210-248 | the charging loop succeeds exactly when each key's total over all entries is held, and equals subtracting the totals at once; it reports each key's final quantity |
| `Trade.GrantItems` | crates/character/src/trade.rs:250-303 | the paying loop, which checks capacity entry by entry, succeeds exactly when there is room for all of it at once, and equals adding the totals at once |
| `Trade.ConsumeCurrency` | crates/character/src/trade.rs:305-333 | the same for balances charged, whose rows are kept at zero |
| `Trade.GrantCurrency` | crates/character/src/trade.rs:335-358 | the same for balances paid |
| `TradeTransaction.OfferHeld` | crates/character/src/trade.rs:106-145 | the up-front check compares each entry on its own with the holding |
| `TradeTransaction.ChargeBoth` | crates/character/src/trade.rs:157-172 | both sides are charged in order, from the tables the earlier charge left |
| `TradeTransaction.PayBoth` | crates/character/src/trade.rs:174-189 | both sides are paid after both were charged |
| `TradeTransaction.MoveGoods` | crates/character/src/trade.rs:147-204 | between two characters the reports name every key that changed hands with its true final value, on both sides; of a trade with oneself the first report is right about exactly the keys of the second offer and the second about exactly the others, each off by a stated amount |
| `CharacterStore.CharacterStore.ExecuteTrade` | crates/character/src/trade.rs:66-205 | all or nothing: it succeeds exactly when every statement would, leaves the exchanged tables and the reports of MoveGoods, and otherwise changes nothing |
| `TradeLaws.ChecksRefuseNothingElse` | crates/character/src/trade.rs:102-145 | the up-front checks refuse no trade the statements after them would let through |
| `TradeLaws.ReportsAreFinal` | crates/character/src/trade.rs:147-204 | between two characters the last value reported for a key is the one in the final table |
| `TradeLaws.SelfReportValues` | crates/character/src/trade.rs:147-204 | with oneself, how far each reported value is from the one in the final table |
| `TradeLaws.TradeExchanges` | crates/character/src/trade.rs:152-189 | a trade that goes through is the simultaneous exchange, for items and for currency, and touches nobody else |
| `TradeLaws.TradeKeepsChecks` | crates/character/src/trade.rs:267-284 | positive stacks, non-negative balances and the cap on types survive a trade |
| `TradeLaws.TradeSucceedsExactlyWhen` | crates/character/src/trade.rs:66-205 | success exactly when every amount is positive, each offered total is held, and each side ends representable and, if it gains a type it would not otherwise hold, within the cap; with oneself, exactly when both offers together are held and the stacks they empty can be opened again |
| `TradeLaws.FreedSlotIsUsed` | crates/character/src/trade.rs:152-189 | two characters at the cap can exchange all of one type for all of another: the freed slots are there when the payments are checked |
| `TradeLaws.FreedSlotExample` | crates/character/src/trade.rs:152-189 | two such characters, with a cap of one |
| `TradeLaws.TradeIgnoresEntryOrder` | crates/character/src/trade.rs:73-189 | neither the verdict nor any row of the result depends on the order of the entries |
| `Ledger.SumForReordered` | crates/character/src/trade.rs:216-246 | totals do not depend on the order of entries |
| `Crafting.CheckInputs` | crates/character/src/crafting.rs:85-108 | every input is compared on its own with the quantity read for it |
| `Crafting.ConsumeInputs` | crates/character/src/crafting.rs:148-171 | the consuming loop, run from quantities read up front, with its remainders |
| `Crafting.ChargesListedAmounts` | crates/character/src/crafting.rs:85-171 | a craft takes never more than the listed total of a type, exactly the listed totals if and only if no type is listed twice, and nothing from anybody else |
| `Crafting.TakenIsListed` | crates/character/src/crafting.rs:85-171 | what it takes of a listed type is one of the listed amounts |
| `Crafting.ApplyGrants` | crates/character/src/crafting.rs:190-208 | grants apply in order, only an undeclared stat can fail, and each reported stat ends at its reported value |
| `Crafting.GrantEffect` | crates/character/src/crafting.rs:190-208 | a declared stat ends at what the grants that name it make of it in order, each adding to the value so far below its ceiling and on a hit, whatever the grants of other stats do; a stat no grant names stays |
| `Crafting.GrantsStayInBounds` | crates/character/src/store.rs:402-430 | clamped grants keep every stat in its declared bounds |
| `Crafting.CraftTransaction` | crates/character/src/crafting.rs:79-218 | the transaction succeeds exactly when inputs are held, the output fits the inventory as it was before, and grants name declared stats |
| `CharacterStore.CharacterStore.CraftItem` | crates/character/src/crafting.rs:61-218 | all or nothing: accepted exactly when requirements are met and the transaction succeeds (spelled out in StoreLaws), with a report of every remainder and of every changed stat |
| `Conservation.CraftQuantity` | crates/character/src/crafting.rs:148-188 | each item type changes by the output less what is taken, which is the listed total for inputs listed once and never more; also when the output is one of the inputs |
| `CharacterStore.CharacterStore.ApplyDeltas` | crates/character/src/equipment.rs:89-94 | deltas written one by one in no particular order: all of them exactly when each is acceptable, and otherwise some of the acceptable ones |
| `CharacterStore.CharacterStore.UnequipInner` | crates/character/src/equipment.rs:140-175 | deltas reversed, item returned, slot cleared; a refused return leaves every reversal written, a refused delta some of them; reports are the final values |
| `CharacterStore.CharacterStore.UnequipItem` | crates/character/src/equipment.rs:120-135 | the same, and an empty slot is refused untouched |
| `CharacterStore.CharacterStore.EquipItem` | crates/character/src/equipment.rs:61-116 | the occupant is displaced first, then deltas, then the item: the exact tables on success, nothing changed for an item that is not equippable or not held, and the possible tables of any other refusal; the last report of each stat and of the item is its final value |
| `Equipment.OneMoreDelta` | crates/character/src/equipment.rs:89-94 | deltas on different stats do not disturb one another |
| `Equipment.UnequipRefusalUnchangedExactlyWhen` | crates/character/src/equipment.rs:120-175 | a refused unequip leaves the tables as they were, in every order of writes, exactly when nothing is worn in the slot or no acceptable reversal changes anything |
| `Equipment.EquipRefusalUnchangedExactlyWhen` | crates/character/src/equipment.rs:55-116 | so does a refused equip exactly when the item is not equippable or not held, or no write before the refusal changes anything |
| `Equipment.RefusedEquipLeavesTraces` | crates/character/src/equipment.rs:89-94 | an equip refused for one stat that has already raised another |
| `Attribution.UnequipKeepsBase` | crates/character/src/equipment.rs:147-167 | an accepted unequip leaves each stat less the deltas of what is worn unchanged exactly when the reversed delta has a 64-bit negation |
| `Attribution.EquipKeepsBase` | crates/character/src/equipment.rs:71-108 | the same for an equip, including one that displaces an occupant |
| `Attribution.RefusedUnequipDrift` | crates/character/src/equipment.rs:140-175 | a refused unequip moves a base stat by the delta it meant to reverse or not at all, and by exactly that delta when only the return was refused |
| `Attribution.RefusedEquipDrift` | crates/character/src/equipment.rs:61-116 | a refused equip moves it by one of its own deltas, by the occupant's reversed one, or not at all |
| `Attribution.RunKeepsBase` | crates/character/src/equipment.rs:61-175 | along any run, with refused equips and unequips wherever they do not name the stat, each stat less the deltas of all worn items moves only by explicit deltas |
| `Attribution.UnnegatableDeltaMisattributed` | crates/character/src/equipment.rs:155 | with the one delta that has no negation, three accepted steps break that |
| `Attribution.EquipThenUnequip` | crates/character/src/equipment.rs:61-175 | an item put into an empty slot comes off again exactly when the readings it started from are themselves allowed, and every reading, quantity and worn item is then as before |
| `CharacterStore.CharacterStore.MoveItemToSlot` | crates/character/src/slots.rs:39-115 | accepted exactly for a held item and a slot in range; the mover takes the slot and one stack that was there, if any, takes the mover's old one; the report names both as the table has them |
| `Slots.SwapIsMoved` | crates/character/src/slots.rs:76-105 | the two updates are one swap on the arrangement |
| `Slots.OutcomeIsMoved` | crates/character/src/slots.rs:39-115 | where no two stacks share a slot the outcome is that swap |
| `Slots.MoveKeepsArranged` | crates/character/src/slots.rs:45-105 | slots stay in range and are never shared |
| `Slots.MoveBackRestores` | crates/character/src/slots.rs:89-105 | moving a placed stack away and back restores every row |
| `Slots.MovesAreAccepted` | crates/character/src/slots.rs:39-115 | when every stack is moved once to a slot in range that no other is moved to, in any order, each move is accepted and leaves the slots arranged |
| `Slots.MovesRealisePlacement` | crates/character/src/slots.rs:76-105 | and every stack ends in its slot: none is displaced by a later move |
| `Conservation.PlacementIsRun` | crates/character/src/slots.rs:39-115 | so any such placement is reached by a run of accepted moves that ends arranged |
| `Economy.Perform` | crates/character/src/store.rs:332-446 | every operation of the store is a step of the economy |
| `Economy.StepKeepsEach` | crates/character/src/inventory.rs:129-323 | from any tables that pass their column checks, no step, accepted or refused, breaks any one of: the column checks, the cap on types, arranged slots, and, under consistent bounds if it is a craft, stats in bounds |
| `Conservation.RunKeepsEach` | crates/character/src/inventory.rs:129-323 | nor does any run of steps |
| `Conservation.ReachableKeepsInv` | crates/character/src/inventory.rs:129-323 | every run from empty tables satisfies column checks, cap and arranged slots under any schema, and keeps stats in bounds unless a craft is accepted under inconsistent bounds |
| `StatBounds.StatsStayInBoundsExactlyWhen` | crates/character/src/schema.rs:34-110 | every stored stat of every reachable table is declared and in bounds exactly when the schema's bounds are consistent or no character may hold an item |
| `Conservation.EquipConserves` | crates/character/src/equipment.rs:61-116 | held plus worn is unchanged by an equip, accepted or refused part-way |
| `Conservation.StepConserves` | crates/character/src/inventory.rs:129-229 | one step changes a character's held plus worn items by what the operation grants, removes, crafts or trades, whatever the recipe lists |
| `Conservation.RunConserves` | crates/character/src/inventory.rs:129-229 | so does any run from any tables that pass their column checks, per character and item type |
| `Conservation.RunConservesCurrency` | crates/character/src/inventory.rs:293-323 | balances move by currency changes and trades alone, over any run |
| `Conservation.RunConservesWorld` | crates/character/src/inventory.rs:129-229 | the world's total of an item type, held and worn, is grants less removals plus craft effects, over any run; trades and equips cancel out |
| `CurrencySchema.ValidateLadder` | crates/character/src/currency_schema.rs:76-120 | accepts exactly ladders of positive, strictly ascending ratios with distinct keys |
| `CurrencySchema.Validate` | crates/character/src/currency_schema.rs:57-121 | accepts exactly non-empty schemas of distinct currencies with accepted ladders |
| `CurrencySchema.Breakdown` | crates/character/src/currency_schema.rs:165-180 | the greedy counts, largest denomination first; the raw balance for a currency without denominations; an unknown key is refused |
| `CurrencySchema.WalkLadder` | crates/character/src/currency_schema.rs:172-178 | the divide-and-remainder loop, for negative balances too |
| `CurrencySchema.SumsBack` | crates/character/src/currency_schema.rs:157-180 | the breakdown and what it drops make up the balance; the dropped part is below the smallest ratio and nothing changes sign |
| `CurrencySchema.OnlyTightRepresentation` | crates/character/src/currency_schema.rs:157-180 | it is the only representation whose lower part stays below each ratio |
| `CurrencySchema.OrderIsLexicographic` | crates/character/src/currency_schema.rs:157-180 | balances compare as their breakdowns do, the dropped part last |
| `CurrencySchema.BreakdownsOrderBalances` | crates/character/src/currency_schema.rs:157-180 | breakdowns alone decide the order exactly when the base ratio is one, and then nothing is dropped |
| `CurrencyUnits.FewestUnits` | crates/character/src/currency_schema.rs:157-180 | when each ratio divides the next, no representation uses fewer units |
| `CurrencyUnits.MinimalByUnits` | crates/character/src/currency_schema.rs:157-180 | for every accepted ladder: no representation of any balance uses fewer units than its breakdown exactly when taking one unit of any denomination away never saves more than one |
| `CurrencyUnits.FewestUnitsExactlyWhen` | crates/character/src/currency_schema.rs:157-180 | exactly when that holds for the finitely many balances below the sum of the two largest ratios |
| `CurrencyUnits.RungExactlyWhen` | crates/character/src/currency_schema.rs:157-180 | on a minimal ladder with base ratio one, a further ratio keeps it minimal exactly when its excess over the least multiple of the largest ratio that reaches it breaks down into fewer units than that multiple has |
| `CurrencyUnits.EveryRung` | crates/character/src/currency_schema.rs:76-120 | so every initial part of such a ladder is minimal exactly when each of its ratios passes that check |
| `CurrencyUnits.GreedyNotFewest` | crates/character/src/currency_schema.rs:157-180 | an accepted ladder whose breakdowns are not minimal |
| `Polygons.PointInPolygon` | crates/content/src/manifest.rs:125-144 | the ray-casting loop returns the parity of hit edges |
| `Polygons.RotationInvariant` | crates/content/src/navmesh.rs:213-232 | the answer does not depend on the starting vertex |
| `Polygons.ReversalInvariant` | crates/content/src/navmesh.rs:213-232 | nor on the winding |
| `Polygons.CrossingsAreSides` | crates/content/src/manifest.rs:125-144 | a closed outline crosses a horizontal line an even number of times |
| `Polygons.InsideWithinBox` | crates/content/src/manifest.rs:125-144 | only points of the half-open bounding box are inside |
| `ConvexPolygons.RisesOnce` | crates/content/src/navmesh.rs:213-232 | a strictly convex outline rises through a height at most once and falls at most once |
| `ConvexPolygons.InsideIsWithinEdges` | crates/content/src/navmesh.rs:67-71 | for a strictly convex polygon, a point inside is outside no edge |
| `ConvexPolygons.SurroundedIsInside` | crates/content/src/navmesh.rs:67-71 | and a point strictly within every edge is inside |
| `ConvexPolygons.RayCastingIsContainment` | crates/content/src/navmesh.rs:213-232 | both, whichever way the polygon is listed, so off the edges' lines inside means within every edge |
| `ConvexPolygons.InsideExactlyWhen` | crates/content/src/navmesh.rs:213-232 | every point is decided: inside exactly when it lies between the outline's fall and its rise through the point's height, the fall's side included and the rise's not |
| `Subdivision.VertexOnEdgeDoesNotMatter` | crates/content/src/navmesh.rs:213-232 | dropping a vertex that lies on the segment between its neighbours changes no answer, for any polygon and point |
| `Subdivision.SubdivisionDoesNotMatter` | crates/content/src/navmesh.rs:213-232 | so a polygon contains the same points as any subdivision of it |
| `Subdivision.SubdividedInsideExactlyWhen` | crates/content/src/navmesh.rs:213-232 | and every point is decided for strictly convex outlines with further vertices along their edges |
| `Polygons.PolygonSignedArea` | crates/content/src/manifest.rs:109-118 | the loop returns the shoelace area |
| `Polygons.AreaRotated` | crates/content/src/manifest.rs:109-118 | the area does not depend on the starting vertex |
| `Polygons.AreaReversed` | crates/content/src/manifest.rs:109-118 | and changes sign with the winding |
| `Polygons.SegmentDistanceIsLeast` | crates/content/src/manifest.rs:146-159 | the clamped projection gives the least distance to any point of the segment |
| `Polygons.BoundaryDistanceMeaning` | crates/content/src/manifest.rs:161-166 | the folded minimum is within a radius exactly when some boundary point is |
| `NavMesh.Normal` | crates/content/src/navmesh.rs:78-89 | the loop returns Newell's sum |
| `NavMesh.PlanarNormal` | crates/content/src/navmesh.rs:73-89 | for vertices on a plane z = ax + by + c, the normal is twice the shoelace area times (-a, -b, 1) |
| `NavMesh.SolvedHeight` | crates/content/src/navmesh.rs:110-112 | the solved height is the plane's |
| `NavMesh.Contains` | crates/content/src/navmesh.rs:97-113 | outline, area threshold and height tolerance, in the source's order |
| `NavMesh.PlanarContained` | crates/content/src/navmesh.rs:91-113 | a planar floor contains exactly the points over its outline within tolerance of its plane, if its area is not negligible |
| `NavMesh.ListingDoesNotMatter` | crates/content/src/navmesh.rs:73-113 | whatever the winding or the first vertex |
| `NavMesh.OneFloorOnly` | crates/content/src/navmesh.rs:42-48 | two floors more than a metre apart over a point never both contain a point there |
| `NavMesh.FirstContainingIsFound` | crates/content/src/navmesh.rs:193-201 | of several containing polygons the first listed is returned |
| `NavMesh.FloorDoesNotDependOnOrder` | crates/content/src/navmesh.rs:193-201 | the containing floor is then the same in whatever order the mesh lists its polygons |
| `Manifest.Validate` | crates/content/src/manifest.rs:190-347 | the reported problems are exactly the manifest's problems |
| `Manifest.IsValidAssetRef` | crates/content/src/manifest.rs:351-361 | the prefix, then exactly 64 lower-case hexadecimal digits |
| `Manifest.CountsRepeats` | crates/content/src/manifest.rs:279-282 | counting distinct ids finds a repeated one |
| `Manifest.AcceptedExactlyWhen` | crates/content/src/manifest.rs:190-347 | no problem is reported exactly when the header is supported, the bounds enclose an area, both ends of every link edge are within a metre of some boundary point, spawn points and trigger centres lie inside, shapes are usable, ids are unique and routes resolve and can be walked |
| `Manifest.AcceptedPlacesWithinBox` | crates/content/src/manifest.rs:190-347 | and everything such a manifest places lies in the box around its bounds |
| `SessionLease.CharacterSessionLease.Acquire` | crates/character/src/session_lease.rs:50-84 | a row gives way exactly when absent, expired before now or the caller's own |
| `SessionLease.CharacterSessionLease.Renew` | crates/character/src/session_lease.rs:91-117 | refreshed exactly for the row's holder, expired or not |
| `SessionLease.LeaseLasts` | crates/character/src/session_lease.rs:50-136 | after an accepted acquire, renewal or open login for a time-out, the character is active exactly before its whole seconds are over, no other instance acquires it up to and including then, and any can at every later instant |
| `SessionLease.AcquireAndContend` | crates/character/src/session_lease.rs:50-136 | the same of the store, one call after another |
| `SessionLease.TakesExactlyWhen` | crates/character/src/session_lease.rs:60-84 | an instance takes a character exactly when no row names another instance that has not run out; its own row is no obstacle, so a repeated request succeeds |
| `SessionLease.CheckActive` | crates/character/src/session_lease.rs:126-136 | the store answers that a character is active exactly when some instance was told it holds it until strictly after now |
| `SessionLease.ActiveIsHeldPast` | crates/character/src/session_lease.rs:126-136 | an active character is held, and one that is held but not active is at the very instant of its expiry |
| `SessionLease.CharacterSessionLease.Release` | crates/character/src/session_lease.rs:142-149 | the row is gone, whoever held it |
| `SessionLease.LoginPolicy.AuthorizeLogin` | crates/realm-directory/src/login_policy.rs:51-95 | a bound realm admits exactly its own characters and takes no lease; an open one admits exactly who acquires it |
| `SessionLease.StepAgrees` | crates/character/src/session_lease.rs:50-149 | a step keeps the table in agreement with what the instances were told exactly when it is not a release of another's live row |
| `SessionLease.NeverTwoHolders` | crates/character/src/session_lease.rs:1-12 | in every run in which only holders release, under any time-outs, re-acquisitions, renewals and passing of time, no two instances hold a character at once |
| `SessionLease.ReachableNeverTwoHolders` | crates/character/src/session_lease.rs:1-12 | in particular in every such run from an empty table |
| `SessionLease.OwnReleasesAreSafe` | crates/character/src/session_lease.rs:138-149 | nor in any run in which every instance that releases still holds the character by what it was told |
| `SessionLease.ForeignReleaseSplits` | crates/character/src/session_lease.rs:138-149 | after one release of another's live row, any third instance can hold the character beside it |
| `SessionLease.LateReleaseSplits` | crates/server/src/session.rs:2078-2083 | from an empty table: an instance whose lease lapsed and was taken by a second releases on its way out, and a third holds the character beside the second |
| `SessionLease.OpenLoginIsExclusive` | crates/realm-directory/src/login_policy.rs:60-93 | an open-realm login succeeds only into sole possession, and fails while another instance holds the character |
| `SessionLease.RenewalRevivesExactlyWhen` | crates/character/src/session_lease.rs:86-117 | an instance that does not hold a character holds it after renewing exactly when the row still names it, and that row has lapsed |
| `Presence.RealmPresence.Connect` | crates/realm-directory/src/population.rs:97-102 | adds or overwrites the member's expiry |
| `Presence.RealmPresence.Count` | crates/realm-directory/src/population.rs:117-130 | prunes what has expired, then counts the rest |
| `Presence.SetFollowsHistory` | crates/realm-directory/src/population.rs:88-130 | whatever the clock does, the set holds exactly the latest expiries that no count of the realm has passed since |
| `Presence.CountIsLiveExactlyWhen` | crates/realm-directory/src/population.rs:88-130 | for every history under any clock, a count is the number of connections whose latest event is an unexpired connect exactly when no count passed one of their expiries after that event |
| `Presence.CountIsLive` | crates/realm-directory/src/population.rs:88-130 | so it always is under a clock that never runs back |
| `Presence.CountsLeaveNoTrace` | crates/realm-directory/src/population.rs:113-130 | dropping earlier counts from the history changes no later answer |
| `Presence.ClockSteppedBack` | crates/realm-directory/src/population.rs:40-45 | a history in which the clock runs back after a count and a live connection is missed |
| `Guild.GuildStore.NewGuild` | crates/guild/src/store.rs:46-93 | accepted exactly for a non-blank name, a guildless founder and a new id; the founder joins at the first rank |
| `Guild.GuildStore.AcceptGuildInvite` | crates/guild/src/store.rs:99-140 | accepted exactly for a guildless other account invited by a member whose rank may invite |
| `Guild.GuildStore.KickMember` | crates/guild/src/store.rs:146-188 | accepted exactly for a member of the same guild below founder rank, kicked by one whose rank may |
| `Guild.GuildStore.MoveRank` | crates/guild/src/store.rs:190-273 | into or out of the founder rank only by a founder, otherwise by permission, within one guild |
| `Guild.GuildStore.LeaveGuild` | crates/guild/src/store.rs:279-325 | a founder leaves only alone, dissolving the guild |
| `Guild.GuildStore.DisbandGuild` | crates/guild/src/store.rs:329-347 | only a founder disbands, and every membership goes with the guild |
| `Guild.StepKeepsSound` | crates/guild/src/store.rs:46-347 | memberships reference existing guilds and declared ranks |
| `Guild.OnlySubjectMoves` | crates/guild/src/store.rs:46-347 | an accepted operation changes its subject's membership alone, or dissolves one guild |
| `Guild.KickedExactlyWhen` | crates/guild/src/store.rs:146-188 | another account's membership goes while its guild lives on exactly by a kick of a non-founder, by a member of that guild whose rank, as declared, lists kicking |
| `Guild.InvitedExactlyWhen` | crates/guild/src/store.rs:99-140 | an account comes into a guild that was there exactly by an invitation of a member whose rank lists inviting, at the last declared rank |
| `Guild.RankChangesExactlyWhen` | crates/guild/src/store.rs:190-273 | a rank changes exactly by a promotion or demotion to a declared rank, by a member of that guild whose rank lists the one asked for, and who is a founder if a founder is made or moved |
| `Guild.GoesExactlyWhen` | crates/guild/src/store.rs:279-347 | a guild goes exactly when a founder disbands it or leaves as its only member, with every membership and nothing else |
| `Guild.LeavesFreely` | crates/guild/src/store.rs:279-325 | a member who is no founder can always leave, alone |
| `Guild.CreatedExactlyWhen` | crates/guild/src/store.rs:46-93 | under a new id a guild comes to be exactly for a guildless account and a name with some character that is not white space, with that account as its one member and founder |
| `Guild.OnlyFoundersMakeFounders` | crates/guild/src/schema.rs:7-15 | a guild's set of founders changes only by an act of one of them, or by its creation |
| `Guild.LosesLastFounderExactlyWhen` | crates/guild/src/store.rs:216-273 | a guild lives on without a founder exactly when its sole founder changed their own rank |
| `Guild.GuildsStayFounded` | crates/guild/src/schema.rs:11-15 | in every serial run without such a step every guild keeps a founder |
| `Guild.FounderlessReachableExactlyWhen` | crates/guild/src/schema.rs:11-15 | from an empty roster some run leaves a guild without a founder exactly when the schema has two ranks and the first may promote or demote |
| `Guild.FounderlessForever` | crates/guild/src/schema.rs:11-15 | after such a step the guild never has a founder again and is never dissolved |
| `GuildRaces.AloneIsStep` | crates/guild/src/store.rs:46-347 | a guild call that no other overlaps is one step |
| `GuildRaces.CommitKeepsFoundedExactlyWhen` | crates/guild/src/store.rs:146-325 | a commit keeps every guild founded exactly when it does not remove or move away the one founder there is by then |
| `GuildRaces.OverlappingFoundedExactlyWhen` | crates/guild/src/store.rs:46-347 | under every overlap of any number of calls rows stay sound, and every guild has a founder throughout exactly when each commit's decision is still right |
| `GuildRaces.UncontestedIsSerial` | crates/guild/src/store.rs:190-273 | while a guild's founders are the ones the call saw, its decision takes the last of them exactly when it is a sole founder's own step down |
| `GuildRaces.UncontestedStaysFounded` | crates/guild/src/schema.rs:11-15 | so every guild keeps a founder in every run, overlapping or not, without such a step and without a change of founders between a call's decision and its commit |
| `GuildRaces.TwoFoundersDemoteEachOther` | crates/guild/src/store.rs:216-273 | two founders of any guild who demote each other at once leave it without one, though neither steps down |
| `GuildRaces.TwoFounders` | crates/guild/src/store.rs:46-273 | such a guild is reached by three accepted calls |
| `Party.PartyStore.Companions` | crates/character/src/party.rs:38-53 | everyone else in the character's party |
| `Party.PartyStore.AcceptInvite` | crates/character/src/party.rs:67-165 | accepted exactly for a free invitee and a party with room under the type it was, or would be, founded under; both end up in the reported party |
| `Party.PartyStore.Leave` | crates/character/src/party.rs:173-218 | the member goes, and a last remaining member with it |
| `Party.StepKeepsSound` | crates/character/src/party.rs:67-218 | one call at a time keeps at least two members in every party and no more than its type allows |
| `Party.PartiesStaySound` | crates/character/src/party.rs:67-218 | so does every serial run, and nobody in a party is alone in it |
| `Party.CapIsKept` | crates/character/src/party.rs:60-66 | in every serial run, no party has more members than the number in the first entry of its type |
| `Party.JoinsExactlyWhen` | crates/character/src/party.rs:103-160 | a free character joins a member's party exactly while it has fewer members than that number, or its type names none; a refused invite changes nothing |
| `Party.FoundsExactlyWhen` | crates/character/src/party.rs:114-160 | two free characters found a party of the type asked for, of the first declared one if none is, exactly if there is such a type and it takes two |
| `Party.OnlyFreeOthersJoin` | crates/character/src/party.rs:73-99 | nobody joins by their own invitation or from another party |
| `PartyRaces.AloneIsStep` | crates/character/src/party.rs:67-218 | a call that no other overlaps is one step |
| `PartyRaces.CommitKeepsSoundExactlyWhen` | crates/character/src/party.rs:101-165 | a commit keeps floor and cap exactly when its decision is still right for the tables it is written to: a join still fits, an undissolved party had three members |
| `PartyRaces.OverlappingSoundExactlyWhen` | crates/character/src/party.rs:67-218 | under every overlap of any number of calls, every party keeps its floor and cap throughout exactly when each commit's decision is still right |
| `PartyRaces.UncontestedStaysRight` | crates/character/src/party.rs:103-110 | a decision stays right while nobody else joins or leaves the party after the count |
| `PartyRaces.UncontestedStaysSound` | crates/character/src/party.rs:67-218 | if nobody else commits on a party between a call's count and its commit, and ids of new parties are new, floor and cap hold throughout, however else the calls overlap |
| `PartyRaces.TwoJoinsExceedCap` | crates/character/src/party.rs:103-160 | two overlapping accepted invites take any party one short of its cap over it |
| `PartyRaces.TwoLeavesStrandOne` | crates/character/src/party.rs:190-211 | two overlapping leaves of any party of three leave a party of one |
| `PartyRaces.PartyOfThree` | crates/character/src/party.rs:67-165 | such a party is reached by two accepted invites |
| `Party.TypeIsForLife` | crates/character/src/party.rs:60-66 | a party's type never changes |
| `Party.LeavingKeepsOrFrees` | crates/character/src/party.rs:167-218 | leaving keeps at least two together or frees everyone, and touches no other party |
| `Party.CompanionsAgree` | crates/character/src/party.rs:36-53 | companionship is symmetric and all companions see the same party |
| `Envelope.EncodeTo` | crates/gateway/src/envelope.rs:25-28 | big-endian type, then the payload |
| `Envelope.DecodeFrom` | crates/gateway/src/envelope.rs:30-42 | the inverse, refusing fewer than two bytes |
| `Envelope.DatagramRoundTrip` | crates/gateway/src/envelope.rs:48-56 | a datagram decodes to an envelope exactly when it is its encoding, and fails to decode exactly when too short |
| `Envelope.BodyBytes` | crates/gateway/src/envelope.rs:25-28 | the bytes of an envelope, one by one |
| `Envelope.FrameBytes` | crates/gateway/src/envelope.rs:91-103 | the bytes of a frame, one by one, and the limit of 8388608 they are refused above |
| `Envelope.FrameReads` | crates/gateway/src/envelope.rs:74-89 | what one turn of the decoder makes of the first bytes of a stream |
| `Envelope.EnvelopeCodec.Decode` | crates/gateway/src/envelope.rs:74-89 | one turn of the length-delimited decoder: waits, delivers or fails, and leaves exactly the unread bytes |
| `Envelope.EnvelopeCodec.Encode` | crates/gateway/src/envelope.rs:91-103 | four length bytes and the body, refused exactly above the frame limit |
| `Envelope.ReadChunk` | crates/gateway/src/envelope.rs:61-64 | the read loop over one chunk |
| `Envelope.ChunksDoNotMatter` | crates/gateway/src/envelope.rs:61-89 | any byte stream, valid or not, gives the same envelopes and the same failure however it is cut |
| `Envelope.StreamRoundTrip` | crates/gateway/src/envelope.rs:74-103 | encoded envelopes, cut anywhere, are delivered exactly with nothing left unread |
| `ZoneChannel.ChatStore.FindZoneChannel` | crates/chat/src/store.rs:184-199 | a row of the key if there is one, no zone equal to no zone |
| `ZoneChannel.ChatStore.InsertZoneChannel` | crates/chat/src/store.rs:157-168 | inserts unless the id or the key is taken |
| `ZoneChannel.ChatStore.EnsureZoneChannel` | crates/chat/src/store.rs:146-182 | run alone: the existing channel, else the new one; it can only fail on a taken id |
| `ZoneChannel.StepKeepsSound` | crates/chat/src/store.rs:146-182 | no statement of any caller creates a second channel for a key or strands a caller that lost the insert |
| `ZoneChannel.CallersConverge` | crates/chat/src/store.rs:136-182 | under every interleaving of any number of callers nobody fails and all callers of one key get one id |
| `ZoneChannel.CallersFinish` | crates/chat/src/store.rs:146-182 | a caller can always go on and is done within three statements of its own |
| `ZoneChannel.DistinctNullsDiverge` | crates/chat/src/store.rs:136-145 | under an index whose nulls are distinct two callers of a zoneless category end with different ids |
| `PluginState.CacheKeyInjective` | crates/server/src/plugin_state.rs:30-38 | among ids without a colon no two states share a cache entry |
| `PluginState.CollideExactlyWhen` | crates/server/src/plugin_state.rs:30-38 | two scopes of a kind can collide exactly when one id and its colon begin the other's |
| `PluginState.PluginCallbacks.PluginStateGet` | crates/server/src/plugin_startup.rs:287-298 | reads come from the cache alone |
| `PluginState.PluginCallbacks.PluginStateSet` | crates/server/src/plugin_startup.rs:300-318 | the cache is written at once, and the write queued unless its scope is an entity |
| `PluginState.PluginCallbacks.DrainPendingStateWrites` | crates/server/src/plugin_startup.rs:507-509 | the whole queue in call order, leaving none |
| `PluginState.PluginStateStore.SetCharacterState` | crates/server/src/plugin_state.rs:85-104 | an upsert of one row of a character |
| `PluginState.PluginStateStore.SetZoneState` | crates/server/src/plugin_state.rs:106-122 | an upsert of one row of a zone |
| `PluginState.PluginStateStore.StateOf` | crates/server/src/plugin_state.rs:52-83 | every stored key of one character or zone, and no other |
| `PluginState.PluginStateStore.ApplyWrites` | crates/server/src/world_actor.rs:1037-1073 | drained writes are replayed in order, those of entities that are not connected dropped |
| `PluginState.NothingLostExactlyWhen` | crates/server/src/world_actor.rs:1037-1064 | every queued write has a row that ends with the value last queued for it exactly when no queued write is for an entity that is not connected |
| `PluginState.OwnValueStoredExactlyWhen` | crates/server/src/world_actor.rs:1037-1064 | a row ends with what one scope last queued for it exactly when no other connection of the character queued a different value last |
| `PluginRuns.DrainsAgreeExactlyWhen` | crates/server/src/world_actor.rs:1037-1073 | draining all queues, of any number of plugins and connections, leaves a value in a row in every order exactly when every queue that holds a write for the row ends with it and, if none does, the table holds it already |
| `PluginState.PluginStateCache.Hydrate` | crates/server/src/main.rs:755-771 | stored values are laid over the scope's cache entries, and no other entry changes |
| `PluginState.PluginStateCache.Evict` | crates/server/src/session.rs:2102-2109 | a leaving connection's entries go, by prefix |
| `PluginRuns.SetSettlesExactlyWhen` | crates/server/src/plugin_startup.rs:300-318 | a write settles its row on a value exactly when it is the written one and no other plugin has a different one queued, and disturbs no other row or key |
| `PluginRuns.LoadSettlesExactlyWhen` | crates/server/src/main.rs:751-771 | a load leaves a key of its scope settled exactly when no queued write for the row is newer than a stored value or has no cache entry |
| `PluginRuns.StepAgreesExactlyWhen` | crates/server/src/plugin_startup.rs:287-318 | each event, a write, drain, arrival, load, departure or eviction, keeps every cached value settled exactly when it meets its condition on what is queued and on other connections of the character |
| `PluginRuns.RunAgreesExactlyWhen` | crates/server/src/plugin_startup.rs:287-318 | over every run, cache and tables agree throughout exactly when every event meets its condition |
| `PluginRuns.ReadsAreEffective` | crates/server/src/plugin_startup.rs:287-318 | and every read of a loaded scope is then what the row will hold once all queues are drained, in whatever order |
| `PluginRuns.WriteBeforeLoadIsHidden` | crates/server/src/main.rs:751-771 | a write made before its zone is loaded reads back as the older stored value |
| `PluginRuns.TwoWritersDisagree` | crates/server/src/plugin_startup.rs:300-318 | two plugins writing one key can leave the table with a value the cache no longer has |
| `PluginRuns.DepartureLosesWrite` | crates/server/src/session.rs:2041 | a write still queued when its entity departs never reaches the character's next session |
| `PluginRuns.TwoConnectionsDisagree` | crates/server/src/session.rs:907-910 | of two connections of one character, one plugin's writes through both leave the first reading a value the row no longer gets |

## Left out

- YAML, JSON and environment loading: the model starts from parsed schemas, recipes and manifests, and keeps only the ladder validation.
- Storage failures (lost connections, failed statements other than through a constraint) and rows of characters, accounts or realms that do not exist; deleting a character.
- Interleaving of two calls of the character store: trades, crafts and slot moves lock the rows they find (not the count of types behind the cap, nor rows not there yet), and the source declares its other operations unprotected against concurrent writers; the results hold for serial runs.
- Finer interleavings of roster calls: `GuildRaces` takes all reads of a call at one moment and its writes at another, `PartyRaces` its look-ups, its count and its writes at three. The other results of `Guild` and `Party` are for serial runs.
- Floating-point rounding and square roots: reals and squared distances stand for them.
- Trade reports as lists in some order: a trade's reports are maps, as in the source before they are collected.
- Probabilities: a craft grant's chance is an arbitrary outcome per grant.
- Ray casting on polygons that are not strictly convex (loading a mesh does not check convexity): bounding box, parity, invariance under relisting and under vertices along edges are stated for all polygons, which points are inside for strictly convex ones and their subdivisions only.
- Plugin state written directly by anything but the plugins' queues, and failed writes, which the source logs and skips.
- Guild message of the day, tag and name edits, guild and party queries without effect, the chat channel a guild may carry.
- The sessions that call these stores: when leases are renewed or released, when invitations are sent, who may trade with whom.
- Direct and group chat channels, transfers between realms, world ticks, TLS, password hashing, tokens, digests, WebAssembly, protobuf enums and the capability gate.
- The internals of the length-delimited codec: its documented behaviour (four-byte big-endian length, 8 MiB limit both ways, partial reads buffered) is modelled as `OneTurn`.
- The text of error messages: the source has one error type with a message, which the model's `Refusal` labels stand for; of a trade's statements, a craft and an equip only that they fail is stated, not at which statement.
- Generated ids are parameters; a clash fails as the primary key makes it fail, and the zone-channel theorem assumes none.
