/** Conservation over whole runs: what a character holds and wears, and what the whole world
    holds and wears, changes by what the accepted operations granted, removed, crafted and
    traded, and by nothing else. */
module Conservation {
  import opened Prelude
  import opened Sums
  import opened AttributeSchema
  import opened Tables
  import opened Ledger
  import opened TradeLaws
  import opened Inventory
  import opened Crafting
  import opened Equipment
  import opened Economy
  import Slots

  // A run: one operation after another, each accepted or refused.
  ghost predicate Run(w: World, states: seq<Db>, ops: seq<Op>, oks: seq<bool>) {
    && |states| == |ops| + 1 && |oks| == |ops|
    && (forall op :: op in ops ==> OpLoaded(op))
    && forall i :: 0 <= i < |ops| ==> Step(w, states[i], ops[i], oks[i], states[i + 1])
  }

  lemma RunPrefix(w: World, states: seq<Db>, ops: seq<Op>, oks: seq<bool>)
    requires Run(w, states, ops, oks) && ops != []
    ensures Run(w, states[..|ops|], ops[..|ops| - 1], oks[..|ops| - 1])
    ensures OpLoaded(ops[|ops| - 1])
  {
    hide Step;
  }

  predicate Crafts(ops: seq<Op>, oks: seq<bool>)
    requires |ops| == |oks|
  {
    exists i :: 0 <= i < |ops| && ops[i].Craft? && oks[i]
  }

  // Over every run from tables that pass their column checks, each part of the invariant that
  // holds at the start holds at the end.
  lemma {:induction false} RunKeepsEach(w: World, states: seq<Db>, ops: seq<Op>, oks: seq<bool>)
    requires Run(w, states, ops, oks) && Checked(states[0])
    ensures KeepsEach(w, Crafts(ops, oks), states[0], states[|ops|])
    decreases |ops|
  {
    hide KeepsEach, Checked, Step;
    KeepsItself(w, states[0]);
    if ops != [] {
      var n := |ops| - 1;
      RunPrefix(w, states, ops, oks);
      RunKeepsEach(w, states[..|ops|], ops[..n], oks[..n]);
      assert Crafts(ops, oks) <==> Crafts(ops[..n], oks[..n]) || (ops[n].Craft? && oks[n]);
      KeepsOn(w, Crafts(ops[..n], oks[..n]), states[0], ops[n].Craft? && oks[n], states[n], states[|ops|]);
      StepKeepsEach(w, states[n], ops[n], oks[n], states[|ops|]);
    }
  }

  lemma RunKeepsChecked(w: World, states: seq<Db>, ops: seq<Op>, oks: seq<bool>)
    requires Run(w, states, ops, oks) && Checked(states[0])
    ensures Checked(states[|ops|])
  {
    hide Checked, Step;
    RunKeepsEach(w, states, ops, oks);
  }

  // The slots in which a character wears an item type.
  function WornSlots(equipped: Worn, c: CharacterId, k: string): (s: set<string>)
    ensures forall slot :: slot in s <==> (c, slot) in equipped && equipped[(c, slot)] == k
  {
    set cs | cs in equipped && cs.0 == c && equipped[cs] == k :: cs.1
  }

  // Held and worn together.
  function Holdings(db: Db, c: CharacterId, k: string): int {
    Quantity(db.items, c, k) + |WornSlots(db.equipped, c, k)|
  }

  lemma TakenOff(equipped: Worn, c: CharacterId, slot: string, d: CharacterId, k: string)
    requires (c, slot) in equipped
    ensures |WornSlots(equipped, d, k)|
         == |WornSlots(equipped - {(c, slot)}, d, k)| + if d == c && k == equipped[(c, slot)] then 1 else 0
  {
    hide WornSlots;
    var before, after := WornSlots(equipped, d, k), WornSlots(equipped - {(c, slot)}, d, k);
    if d == c && k == equipped[(c, slot)] {
      assert before == after + {slot};
    } else {
      assert before == after;
    }
  }

  lemma PutOn(equipped: Worn, c: CharacterId, slot: string, item: string, d: CharacterId, k: string)
    requires (c, slot) !in equipped
    ensures |WornSlots(equipped[(c, slot) := item], d, k)|
         == |WornSlots(equipped, d, k)| + if d == c && k == item then 1 else 0
  {
    var after := equipped[(c, slot) := item];
    TakenOff(after, c, slot, d, k);
    assert after - {(c, slot)} == equipped;
  }

  // Quantities after a single grant and a single removal.
  lemma GrantedQuantity(items: Items, c: CharacterId, j: string, n: int, d: CharacterId, k: string)
    ensures Quantity(Granted(items, c, j, n), d, k) == Quantity(items, d, k) + if d == c && k == j then n else 0
  {
  }

  lemma RemovedQuantity(items: Items, c: CharacterId, j: string, n: int, d: CharacterId, k: string)
    requires CanRemove(items, c, j, n)
    ensures Quantity(Removed(items, c, j, n), d, k) == Quantity(items, d, k) - if d == c && k == j then n else 0
  {
  }

  lemma UnequipConserves(schema: Schema, gear: EquipmentSchema, db: Db, c: CharacterId, slot: string, d: CharacterId,
          k: string)
    requires (c, slot) in db.equipped
    ensures Holdings(Unequipped(schema, gear, db, c, slot), d, k) == Holdings(db, d, k)
  {
    hide WornSlots, Granted, AfterSome, Quantity;
    GrantedQuantity(db.items, c, db.equipped[(c, slot)], 1, d, k);
    TakenOff(db.equipped, c, slot, d, k);
  }

  lemma ClearConserves(schema: Schema, gear: EquipmentSchema, db: Db, c: CharacterId, slot: string, d: CharacterId,
          k: string)
    ensures Holdings(SlotCleared(schema, gear, db, c, slot), d, k) == Holdings(db, d, k)
    ensures (c, slot) !in SlotCleared(schema, gear, db, c, slot).equipped
  {
    hide Holdings, AfterSome, Granted;
    if (c, slot) in db.equipped {
      UnequipConserves(schema, gear, db, c, slot, d, k);
    }
  }

  lemma WearConserves(schema: Schema, gear: EquipmentSchema, db: Db, c: CharacterId, item: string, d: CharacterId,
          k: string)
    requires Resolve(gear, item).Some? && Quantity(db.items, c, item) >= 1
    ensures Holdings(Equipped(schema, gear, db, c, item), d, k) == Holdings(db, d, k)
  {
    hide WornSlots, Removed, AfterSome, Quantity, SlotCleared;
    var slot := Resolve(gear, item).value.slot;
    var cleared := SlotCleared(schema, gear, db, c, slot);
    ClearConserves(schema, gear, db, c, slot, d, k);
    StillHeld(schema, gear, db, c, slot, item);
    RemovedQuantity(cleared.items, c, item, 1, d, k);
    PutOn(cleared.equipped, c, slot, item, d, k);
  }

  // Equipping and unequipping conserve items whether they are accepted, refused at a check,
  // or refused part-way with some of their writes in place.
  lemma EquipConserves(w: World, db: Db, c: CharacterId, item: string, ok: bool, db': Db, d: CharacterId, k: string)
    requires EquipOutcome(w.schema, w.config.maxDistinctTypes, w.gear, db, c, item, ok, db')
    ensures Holdings(db', d, k) == Holdings(db, d, k)
  {
    hide Equipped, SlotCleared, CanUnequip, DeltasAccepted, AfterSome;
    if ok {
      WearConserves(w.schema, w.gear, db, c, item, d, k);
    } else if Resolve(w.gear, item).Some? {
      ClearConserves(w.schema, w.gear, db, c, Resolve(w.gear, item).value.slot, d, k);
    }
  }

  lemma UnequipOutcomeConserves(w: World, db: Db, c: CharacterId, slot: string, ok: bool, db': Db, d: CharacterId,
          k: string)
    requires UnequipOutcome(w.schema, w.config.maxDistinctTypes, w.gear, db, c, slot, ok, db')
    ensures Holdings(db', d, k) == Holdings(db, d, k)
  {
    hide Unequipped, DeltasAccepted, AfterSome;
    if ok {
      UnequipConserves(w.schema, w.gear, db, c, slot, d, k);
    }
  }

  lemma CraftQuantity(items: Items, c: CharacterId, recipe: Recipe, d: CharacterId, k: string)
    requires ItemsChecked(items) && RecipeLoaded(recipe) && EachHeld(items, c, recipe.inputs)
    ensures Quantity(Granted(Consumed(items, c, recipe.inputs), c, recipe.output.0, recipe.output.1), d, k)
         == Quantity(items, d, k) + if d == c then CraftGain(items, c, recipe, k) else 0
    ensures CraftGain(items, c, recipe, k) >= OutputOf(recipe, k) - SumFor(recipe.inputs, k)
    ensures DistinctKeys(recipe.inputs) ==>
              CraftGain(items, c, recipe, k) == OutputOf(recipe, k) - SumFor(recipe.inputs, k)
  {
    hide Consumed, Granted, EachHeld, SumFor, TakenOf;
    ChargesListedAmounts(items, c, recipe.inputs);
    GrantedQuantity(Consumed(items, c, recipe.inputs), c, recipe.output.0, recipe.output.1, d, k);
  }

  function OutputOf(recipe: Recipe, k: string): int {
    if recipe.output.0 == k then recipe.output.1 else 0
  }

  // What a craft charges depends on what is held only for a type it lists twice (Crafting).
  function CraftGain(items: Items, c: CharacterId, recipe: Recipe, k: string): int {
    OutputOf(recipe, k) - TakenOf(items, c, recipe.inputs, k)
  }

  // What the acting character gains of an item type by an accepted operation. What the
  // actor of a trade gains, its partner loses.
  function Gain(db: Db, op: Op, k: string): int {
    match op
    case GrantItem(_, j, n) => if j == k then n else 0
    case RemoveItem(_, j, n) => if j == k then -n else 0
    case Craft(c, recipe, _) => CraftGain(db.items, c, recipe, k)
    case Trade(_, oa, _, ob) => SumFor(ob.items, k) - SumFor(oa.items, k)
    case _ => 0
  }

  function Net(op: Op, gain: int, d: CharacterId): int {
    (if d == op.c then gain else 0) - (if op.Trade? && d == op.partner then gain else 0)
  }

  // One step, any character, any item type.
  lemma StepConserves(w: World, db: Db, op: Op, ok: bool, db': Db, d: CharacterId, k: string)
    requires Checked(db) && OpLoaded(op) && Step(w, db, op, ok, db')
    ensures Holdings(db', d, k) == Holdings(db, d, k) + if ok then Net(op, Gain(db, op, k), d) else 0
  {
    hide TakenOf, WornSlots, Granted, Removed, Consumed, SumFor, GoesThrough, Traded, EquipOutcome, UnequipOutcome,
         Slots.MoveOutcome, GrantedStats, Reading, WriteAccepted, Checked;
    match op
    case GrantItem(c, j, n) => GrantedQuantity(db.items, c, j, n, d, k);
    case RemoveItem(c, j, n) => if ok { RemovedQuantity(db.items, c, j, n, d, k); }
    case Craft(c, recipe, _) => if ok { CraftItemsOnly(w, db, op); CraftQuantity(db.items, c, recipe, d, k); }
    case Trade(a, oa, b, ob) => if ok { TradeExchanges(w.config.maxDistinctTypes, db, a, oa, b, ob); }
    case Move(c, j, slot) => if ok { MovedQuantity(db.items, c, j, slot, db'.items, d, k); }
    case Equip(c, item) => EquipConserves(w, db, c, item, ok, db', d, k);
    case Unequip(c, slot) => UnequipOutcomeConserves(w, db, c, slot, ok, db', d, k);
    case _ =>
  }

  lemma CraftItemsOnly(w: World, db: Db, op: Op)
    requires Checked(db) && op.Craft? && OpLoaded(op)
    requires CanCraft(w.schema, w.config.maxDistinctTypes, db, op.c, op.recipe, op.rolls)
    ensures ItemsChecked(db.items) && EachHeld(db.items, op.c, op.recipe.inputs)
  {
  }

  lemma MovedQuantity(items: Items, c: CharacterId, j: string, slot: int, items': Items, d: CharacterId, k: string)
    requires (c, j) in items && Slots.MoveOutcome(items, c, j, slot, items')
    ensures Quantity(items', d, k) == Quantity(items, d, k)
  {
  }

  // Currency moves only by a currency change or a trade.
  function CurrencyGain(op: Op, k: string): int {
    match op
    case ModifyCurrency(_, j, delta) => if j == k then delta else 0
    case Trade(_, oa, _, ob) => SumFor(ob.currency, k) - SumFor(oa.currency, k)
    case _ => 0
  }

  lemma EquipKeepsCurrency(w: World, db: Db, c: CharacterId, item: string, ok: bool, db': Db)
    requires EquipOutcome(w.schema, w.config.maxDistinctTypes, w.gear, db, c, item, ok, db')
    ensures db'.currency == db.currency
  {
    hide CanUnequip, DeltasAccepted, AfterSome, Granted, Removed, Quantity;
  }

  lemma UnequipKeepsCurrency(w: World, db: Db, c: CharacterId, slot: string, ok: bool, db': Db)
    requires UnequipOutcome(w.schema, w.config.maxDistinctTypes, w.gear, db, c, slot, ok, db')
    ensures db'.currency == db.currency
  {
    hide CanUnequip, DeltasAccepted, AfterSome, Granted;
  }

  lemma StepConservesCurrency(w: World, db: Db, op: Op, ok: bool, db': Db, d: CharacterId, k: string)
    requires Checked(db) && OpLoaded(op) && Step(w, db, op, ok, db')
    ensures Balance(db'.currency, d, k)
         == Balance(db.currency, d, k) + if ok then Net(op, CurrencyGain(op, k), d) else 0
  {
    hide Granted, Removed, Consumed, SumFor, GoesThrough, Traded, EquipOutcome, UnequipOutcome, Slots.MoveOutcome,
         GrantedStats, Reading, WriteAccepted, Checked, CanCraft;
    match op
    case Trade(a, oa, b, ob) => if ok { TradeExchanges(w.config.maxDistinctTypes, db, a, oa, b, ob); }
    case Equip(c, item) => EquipKeepsCurrency(w, db, c, item, ok, db');
    case Unequip(c, slot) => UnequipKeepsCurrency(w, db, c, slot, ok, db');
    case _ =>
  }

  // What a run's accepted operations add up to.
  function RunNet(states: seq<Db>, ops: seq<Op>, oks: seq<bool>, d: CharacterId, k: string): int
    requires |ops| == |oks| < |states|
  {
    if ops == [] then 0
    else
      var n := |ops| - 1;
      RunNet(states, ops[..n], oks[..n], d, k) + if oks[n] then Net(ops[n], Gain(states[n], ops[n], k), d) else 0
  }

  function RunCurrencyNet(ops: seq<Op>, oks: seq<bool>, d: CharacterId, k: string): int
    requires |ops| == |oks|
  {
    if ops == [] then 0
    else
      var n := |ops| - 1;
      RunCurrencyNet(ops[..n], oks[..n], d, k) + if oks[n] then Net(ops[n], CurrencyGain(ops[n], k), d) else 0
  }

  lemma {:induction false} RunNetPrefix(states: seq<Db>, longer: seq<Db>, ops: seq<Op>, oks: seq<bool>,
          d: CharacterId, k: string)
    requires |ops| == |oks| < |states| && states <= longer
    ensures RunNet(states, ops, oks, d, k) == RunNet(longer, ops, oks, d, k)
  {
    hide Net, Gain;
    if ops != [] {
      var n := |ops| - 1;
      RunNetPrefix(states, longer, ops[..n], oks[..n], d, k);
    }
  }

  lemma {:induction false} RunConserves(w: World, states: seq<Db>, ops: seq<Op>, oks: seq<bool>, d: CharacterId,
          k: string)
    requires Run(w, states, ops, oks) && Checked(states[0])
    ensures Holdings(states[|ops|], d, k) == Holdings(states[0], d, k) + RunNet(states, ops, oks, d, k)
    decreases |ops|
  {
    hide Step, Holdings, Net, Gain, Checked;
    if ops != [] {
      var n := |ops| - 1;
      RunPrefix(w, states, ops, oks);
      RunKeepsChecked(w, states[..|ops|], ops[..n], oks[..n]);
      RunConserves(w, states[..|ops|], ops[..n], oks[..n], d, k);
      RunNetPrefix(states[..|ops|], states, ops[..n], oks[..n], d, k);
      StepConserves(w, states[n], ops[n], oks[n], states[n + 1], d, k);
    }
  }

  lemma {:induction false} RunConservesCurrency(w: World, states: seq<Db>, ops: seq<Op>, oks: seq<bool>,
          d: CharacterId, k: string)
    requires Run(w, states, ops, oks) && Checked(states[0])
    ensures Balance(states[|ops|].currency, d, k) == Balance(states[0].currency, d, k) + RunCurrencyNet(ops, oks, d, k)
    decreases |ops|
  {
    hide Step, Balance, Net, CurrencyGain, Checked;
    if ops != [] {
      var n := |ops| - 1;
      RunPrefix(w, states, ops, oks);
      RunKeepsChecked(w, states[..|ops|], ops[..n], oks[..n]);
      RunConservesCurrency(w, states[..|ops|], ops[..n], oks[..n], d, k);
      StepConservesCurrency(w, states[n], ops[n], oks[n], states[n + 1], d, k);
    }
  }

  // Everyone who holds or wears anything.
  function Population(db: Db): (s: set<CharacterId>)
    ensures forall ck :: ck in db.items ==> ck.0 in s
    ensures forall cs :: cs in db.equipped ==> cs.0 in s
  {
    (set ck | ck in db.items :: ck.0) + set cs | cs in db.equipped :: cs.0
  }

  ghost function HoldingsOf(db: Db, k: string): CharacterId -> int {
    d => Holdings(db, d, k)
  }

  // All of an item type there is.
  ghost function WorldTotal(db: Db, k: string): int {
    SumOver(Population(db), HoldingsOf(db, k))
  }

  lemma OutsiderHoldsNothing(db: Db, d: CharacterId, k: string)
    requires d !in Population(db)
    ensures Holdings(db, d, k) == 0
  {
    assert WornSlots(db.equipped, d, k) == {};
  }

  lemma TotalOver(db: Db, people: set<CharacterId>, k: string)
    requires Population(db) <= people
    ensures SumOver(people, HoldingsOf(db, k)) == WorldTotal(db, k)
  {
    hide Holdings;
    forall d | d in people && d !in Population(db) ensures Holdings(db, d, k) == 0 {
      OutsiderHoldsNothing(db, d, k);
    }
    SumOverExtend(Population(db), people, HoldingsOf(db, k));
  }

  // What an accepted operation creates in the world, or destroys. A trade does neither.
  function Created(db: Db, op: Op, k: string): int {
    if op.Trade? then 0 else Gain(db, op, k)
  }

  lemma StepConservesWorld(w: World, db: Db, op: Op, ok: bool, db': Db, k: string)
    requires Checked(db) && OpLoaded(op) && Step(w, db, op, ok, db')
    ensures WorldTotal(db', k) == WorldTotal(db, k) + if ok then Created(db, op, k) else 0
  {
    hide Step, Holdings, WorldTotal, Population, Gain, OpLoaded, Checked;
    var partner := if op.Trade? then op.partner else op.c;
    var people := Population(db) + Population(db') + {op.c, partner};
    var f, g := HoldingsOf(db, k), HoldingsOf(db', k);
    forall d ensures g(d) == f(d) + if ok then Net(op, Gain(db, op, k), d) else 0 {
      StepConserves(w, db, op, ok, db', d, k);
    }
    TotalOver(db, people, k);
    TotalOver(db', people, k);
    if op.Trade? && partner != op.c {
      SumOverShift2(people, f, g, op.c, partner);
    } else {
      SumOverShift(people, f, g, op.c);
    }
  }

  function RunCreated(states: seq<Db>, ops: seq<Op>, oks: seq<bool>, k: string): int
    requires |ops| == |oks| < |states|
  {
    if ops == [] then 0
    else
      var n := |ops| - 1;
      RunCreated(states, ops[..n], oks[..n], k) + if oks[n] then Created(states[n], ops[n], k) else 0
  }

  lemma {:induction false} RunCreatedPrefix(states: seq<Db>, longer: seq<Db>, ops: seq<Op>, oks: seq<bool>, k: string)
    requires |ops| == |oks| < |states| && states <= longer
    ensures RunCreated(states, ops, oks, k) == RunCreated(longer, ops, oks, k)
  {
    hide Created;
    if ops != [] {
      var n := |ops| - 1;
      RunCreatedPrefix(states, longer, ops[..n], oks[..n], k);
    }
  }

  // Grants minus removals plus the net effect of crafts, over any run of any operations.
  lemma {:induction false} RunConservesWorld(w: World, states: seq<Db>, ops: seq<Op>, oks: seq<bool>, k: string)
    requires Run(w, states, ops, oks) && Checked(states[0])
    ensures WorldTotal(states[|ops|], k) == WorldTotal(states[0], k) + RunCreated(states, ops, oks, k)
    decreases |ops|
  {
    hide Step, WorldTotal, Created, Checked;
    if ops != [] {
      var n := |ops| - 1;
      RunPrefix(w, states, ops, oks);
      RunKeepsChecked(w, states[..|ops|], ops[..n], oks[..n]);
      RunConservesWorld(w, states[..|ops|], ops[..n], oks[..n], k);
      RunCreatedPrefix(states[..|ops|], states, ops[..n], oks[..n], k);
      StepConservesWorld(w, states[n], ops[n], oks[n], states[n + 1], k);
    }
  }

  // The tables after the first `n` moves of a placement.
  function MovedTo(db: Db, c: CharacterId, order: seq<string>, target: map<string, int>, n: nat): Db
    requires n <= |order| && forall k :: k in order ==> k in target && (c, k) in db.items
  {
    db.(items := Slots.MovedAll(db.items, c, order[..n], target))
  }

  lemma MoveIsStep(w: World, db: Db, c: CharacterId, order: seq<string>, target: map<string, int>, n: nat)
    requires Slots.Arranged(w.config.slotCount, db.items)
    requires Slots.Placement(w.config.slotCount, db.items, c, order, target) && n < |order|
    ensures Step(w, MovedTo(db, c, order, target, n), Move(c, order[n], target[order[n]]), true,
                 MovedTo(db, c, order, target, n + 1))
  {
    hide Slots.Moved, Slots.MoveOutcome, Slots.Arranged;
    var items := Slots.MovedAll(db.items, c, order[..n], target);
    Slots.MovesAreAccepted(w.config.slotCount, db.items, c, order, target, n);
    assert order[..n + 1][..n] == order[..n];
    Slots.OutcomeIsMoved(w.config.slotCount, items, c, order[n], target[order[n]],
                         Slots.Moved(items, c, order[n], target[order[n]]));
  }

  // Sorting an inventory into any such placement is a run of accepted moves, which ends with
  // every stack where it should be.
  lemma PlacementIsRun(w: World, db: Db, c: CharacterId, order: seq<string>, target: map<string, int>)
    returns (states: seq<Db>, ops: seq<Op>, oks: seq<bool>)
    requires Slots.Arranged(w.config.slotCount, db.items)
    requires Slots.Placement(w.config.slotCount, db.items, c, order, target)
    ensures Run(w, states, ops, oks) && states[0] == db && (forall ok :: ok in oks ==> ok)
    ensures |ops| == |order| && forall i :: 0 <= i < |order| ==> ops[i] == Move(c, order[i], target[order[i]])
    ensures forall k :: k in order ==> (c, k) in states[|ops|].items
                                       && states[|ops|].items[(c, k)] == db.items[(c, k)].(slot := Some(target[k]))
    ensures Slots.Arranged(w.config.slotCount, states[|ops|].items)
  {
    hide Step, Slots.Moved, Slots.Arranged;
    Slots.MovesRealisePlacement(w.config.slotCount, db.items, c, order, target);
    assert order[..|order|] == order;
    assert order[..0] == [];
    ops := seq(|order|, i requires 0 <= i < |order| => Move(c, order[i], target[order[i]]));
    oks := seq(|order|, i => true);
    states := seq(|order| + 1, i requires 0 <= i <= |order| => MovedTo(db, c, order, target, i));
    forall i | 0 <= i < |ops| ensures Step(w, states[i], ops[i], oks[i], states[i + 1]) {
      MoveIsStep(w, db, c, order, target, i);
    }
    Slots.MovesAreAccepted(w.config.slotCount, db.items, c, order, target, |order|);
  }

  ghost predicate FromNothing(w: World, states: seq<Db>, ops: seq<Op>, oks: seq<bool>) {
    Run(w, states, ops, oks) && states[0] == Db(map[], map[], map[], map[])
  }

  // Starting from nothing, stacks, balances, caps and slots are in order after every run, under
  // any schema; and so are the stats unless a craft was accepted under inconsistent bounds.
  lemma ReachableKeepsInv(w: World, states: seq<Db>, ops: seq<Op>, oks: seq<bool>)
    requires FromNothing(w, states, ops, oks)
    ensures var db := states[|ops|];
            && Checked(db) && Capped(w, db.items) && Slots.Arranged(w.config.slotCount, db.items)
            && ((Crafts(ops, oks) ==> SchemaConsistent(w.schema)) ==> StatsInBounds(w.schema, db.stats))
  {
    hide Checked, Capped, Slots.Arranged, StatsInBounds, Step, SchemaConsistent;
    InitialInv(w);
    RunKeepsEach(w, states, ops, oks);
  }
}
