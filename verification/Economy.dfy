/** Runs of the character economy: any number of characters, any mix of transactional and
    step-by-step operations, each accepted or refused. */
module Economy {
  import opened Prelude
  import opened AttributeSchema
  import opened Tables
  import opened Ledger
  import opened Trade
  import opened TradeLaws
  import opened Inventory
  import opened Crafting
  import opened Equipment
  import opened CharacterStore
  import Slots

  datatype World = World(schema: Schema, config: Config, gear: EquipmentSchema)

  datatype Op =
    | GrantItem(c: CharacterId, k: string, quantity: int)
    | RemoveItem(c: CharacterId, k: string, quantity: int)
    | ModifyCurrency(c: CharacterId, k: string, delta: i64)
    | SetStat(c: CharacterId, k: string, value: i64)
    | ApplyStatDelta(c: CharacterId, k: string, delta: i64)
    | Craft(c: CharacterId, recipe: Recipe, rolls: seq<bool>)
    | Trade(c: CharacterId, offer: Offer, partner: CharacterId, answer: Offer)
    | Move(c: CharacterId, k: string, slot: int)
    | Equip(c: CharacterId, k: string)
    | Unequip(c: CharacterId, gearSlot: string)

  predicate OpLoaded(op: Op) {
    op.Craft? ==> RecipeLoaded(op.recipe) && |op.rolls| == |op.recipe.grants|
  }

  // One operation on the tables: whether it is accepted, and every table it may leave.
  ghost predicate Step(w: World, db: Db, op: Op, ok: bool, db': Db)
    requires OpLoaded(op)
  {
    var max := w.config.maxDistinctTypes;
    match op
    case GrantItem(c, k, n) =>
      && (ok <==> CanGrant(max, db.items, c, k, n))
      && db' == if ok then db.(items := Granted(db.items, c, k, n)) else db
    case RemoveItem(c, k, n) =>
      && (ok <==> CanRemove(db.items, c, k, n))
      && db' == if ok then db.(items := Removed(db.items, c, k, n)) else db
    case ModifyCurrency(c, k, delta) =>
      && (ok <==> CanModify(db.currency, c, k, delta))
      && db' == if ok then db.(currency := db.currency[(c, k) := Balance(db.currency, c, k) + delta]) else db
    case SetStat(c, k, value) =>
      && (ok <==> WriteAccepted(w.schema, k, value))
      && db' == if ok then db.(stats := db.stats[(c, k) := value]) else db
    case ApplyStatDelta(c, k, delta) =>
      && (ok <==> DeltaAccepted(w.schema, db.stats, c, k, delta))
      && db' == if ok then db.(stats := db.stats[(c, k) := Reading(w.schema, db.stats, c, k) + delta]) else db
    case Craft(c, recipe, rolls) =>
      && (ok <==> CanCraft(w.schema, max, db, c, recipe, rolls))
      && db' == if ok then Crafted(w.schema, db, c, recipe, rolls) else db
    case Trade(a, oa, b, ob) =>
      && (ok <==> GoesThrough(max, db, a, oa, b, ob))
      && db' == if ok then Traded(db, a, oa, b, ob) else db
    case Move(c, k, slot) =>
      && (ok <==> Slots.CanMove(w.config.slotCount, db.items, c, k, slot))
      && if ok then Slots.MoveOutcome(db.items, c, k, slot, db'.items) && db' == db.(items := db'.items) else db' == db
    case Equip(c, k) => EquipOutcome(w.schema, max, w.gear, db, c, k, ok, db')
    case Unequip(c, slot) => UnequipOutcome(w.schema, max, w.gear, db, c, slot, ok, db')
  }

  // The store's methods are exactly these steps.
  method Perform(store: CharacterStore, gear: EquipmentSchema, op: Op) returns (ok: bool)
    requires store.Valid() && OpLoaded(op)
    modifies store
    ensures store.Valid()
    ensures Step(World(store.schema, store.config, gear), old(store.db), op, ok, store.db)
  {
    hide Granted, Removed, CanCraft, Crafted, GoesThrough, Traded, Slots.MoveOutcome, EquipOutcome, UnequipOutcome,
         Reading, WriteAccepted, CanGrant, DeltaAccepted, ResolveRead, StatsObject;
    match op
    case GrantItem(c, k, n) => var r := store.GrantItem(c, k, n); ok := r.Ok?;
    case RemoveItem(c, k, n) => var r := store.RemoveItem(c, k, n); ok := r.Ok?;
    case ModifyCurrency(c, k, delta) => var r := store.ModifyCurrency(c, k, delta); ok := r.Ok?;
    case SetStat(c, k, value) => var r := store.SetStat(c, k, value); ok := r.Ok?;
    case ApplyStatDelta(c, k, delta) => var r := store.ApplyStatDelta(c, k, delta); ok := r.Ok?;
    case Craft(c, recipe, rolls) => var r := store.CraftItem(c, recipe, rolls); ok := r.Ok?;
    case Trade(a, oa, b, ob) => var r := store.ExecuteTrade(a, oa, b, ob); ok := r.Ok?;
    case Move(c, k, slot) => var r := store.MoveItemToSlot(c, k, slot); ok := r.Ok?;
    case Equip(c, k) => var r := store.EquipItem(gear, c, k); ok := r.Ok?;
    case Unequip(c, slot) => var r := store.UnequipItem(gear, c, slot); ok := r.Ok?;
  }

  ghost predicate Capped(w: World, items: Items) {
    forall c :: |Types(items, c)| <= w.config.maxDistinctTypes
  }

  // Stacks positive and representable, balances non-negative, no character above the cap on
  // distinct types, every stored stat declared and in bounds, slots in range and never shared.
  ghost predicate Inv(w: World, db: Db) {
    && Checked(db)
    && Capped(w, db.items)
    && StatsInBounds(w.schema, db.stats)
    && Slots.Arranged(w.config.slotCount, db.items)
  }

  // Each part of the invariant is kept on its own, over tables that pass their column checks.
  // The bounds of the stats need a schema whose bounds are consistent, and that only where a
  // craft clamps what it writes.
  ghost predicate KeepsEach(w: World, crafts: bool, db: Db, db': Db) {
    && Checked(db')
    && (Capped(w, db.items) ==> Capped(w, db'.items))
    && (Slots.Arranged(w.config.slotCount, db.items) ==> Slots.Arranged(w.config.slotCount, db'.items))
    && ((crafts ==> SchemaConsistent(w.schema)) && StatsInBounds(w.schema, db.stats) ==>
          StatsInBounds(w.schema, db'.stats))
  }

  lemma KeepsItself(w: World, db: Db)
    requires Checked(db)
    ensures KeepsEach(w, false, db, db)
  {
  }

  lemma KeepsOn(w: World, crafts: bool, first: Db, more: bool, second: Db, third: Db)
    requires KeepsEach(w, crafts, first, second)
    ensures Checked(second)
    ensures KeepsEach(w, more, second, third) ==> KeepsEach(w, crafts || more, first, third)
  {
  }

  lemma InitialInv(w: World)
    ensures Inv(w, Db(map[], map[], map[], map[]))
  {
    forall c ensures Types(map[], c) == {} { }
  }

  // Every outcome of every step, accepted, refused or refused part-way.
  lemma StepKeepsEach(w: World, db: Db, op: Op, ok: bool, db': Db)
    requires Checked(db) && OpLoaded(op) && Step(w, db, op, ok, db')
    ensures KeepsEach(w, op.Craft? && ok, db, db')
  {
    hide Capped, Checked, StatsInBounds, SchemaConsistent, Slots.Arranged, EquipOutcome, UnequipOutcome, GoesThrough,
         Traded, CanCraft, Crafted, Granted, Removed, Slots.MoveOutcome;
    match op
    case GrantItem(c, k, n) => if ok { GrantKeeps(w, db, c, k, n); }
    case RemoveItem(c, k, n) => if ok { RemoveKeeps(w, db, c, k, n); }
    case ModifyCurrency(c, k, delta) => if ok { ModifyKeeps(w, db, c, k, delta); }
    case SetStat(c, k, value) => if ok { StatWriteKeeps(w, db, c, k, value); }
    case ApplyStatDelta(c, k, delta) =>
      if ok {
        StatWriteKeeps(w, db, c, k, Reading(w.schema, db.stats, c, k) + delta);
      }
    case Craft(c, recipe, rolls) => if ok { CraftKeeps(w, db, c, recipe, rolls); }
    case Trade(a, oa, b, ob) => if ok { TradeKeeps(w, db, a, oa, b, ob); }
    case Move(c, k, slot) => if ok { MoveKeeps(w, db, c, k, slot, db'); }
    case Equip(c, k) => EquipKeeps(w, db, c, k, ok, db');
    case Unequip(c, slot) => UnequipKeeps(w, db, c, slot, ok, db');
  }

  // Stacks that exist afterwards with a slot had it before.
  lemma InheritedStaysArranged(slotCount: nat, items: Items, items': Items)
    requires forall ck :: ck in items' && items'[ck].slot.Some? ==> ck in items && items'[ck].slot == items[ck].slot
    ensures Slots.Arranged(slotCount, items) ==> Slots.Arranged(slotCount, items')
  {
  }

  lemma GrantKeeps(w: World, db: Db, c: CharacterId, k: string, n: int)
    requires Checked(db) && CanGrant(w.config.maxDistinctTypes, db.items, c, k, n)
    ensures KeepsEach(w, false, db, db.(items := Granted(db.items, c, k, n)))
  {
    hide Types, StatsInBounds, Slots.Arranged;
    GrantKeepsChecks(w.config.maxDistinctTypes, db.items, c, k, n);
    InheritedStaysArranged(w.config.slotCount, db.items, Granted(db.items, c, k, n));
    assert Capped(w, db.items) ==> |Types(db.items, c)| <= w.config.maxDistinctTypes;
  }

  lemma RemoveKeeps(w: World, db: Db, c: CharacterId, k: string, n: int)
    requires Checked(db) && CanRemove(db.items, c, k, n)
    ensures KeepsEach(w, false, db, db.(items := Removed(db.items, c, k, n)))
  {
    hide Types, StatsInBounds, Slots.Arranged;
    var items' := Removed(db.items, c, k, n);
    RemoveKeepsChecks(db.items, c, k, n);
    InheritedStaysArranged(w.config.slotCount, db.items, items');
    forall d ensures |Types(items', d)| <= |Types(db.items, d)| {
      SubsetSize(Types(items', d), Types(db.items, d));
    }
  }

  lemma ModifyKeeps(w: World, db: Db, c: CharacterId, k: string, delta: int)
    requires Checked(db) && CanModify(db.currency, c, k, delta)
    ensures KeepsEach(w, false, db, db.(currency := db.currency[(c, k) := Balance(db.currency, c, k) + delta]))
  {
    hide Types, StatsInBounds, Slots.Arranged;
  }

  lemma StatWriteKeeps(w: World, db: Db, c: CharacterId, k: string, value: int)
    requires Checked(db) && FitsI64(value) && WriteAccepted(w.schema, k, value)
    ensures KeepsEach(w, false, db, db.(stats := db.stats[(c, k) := value]))
  {
    hide Types, Slots.Arranged, WriteAccepted;
  }

  lemma CraftKeeps(w: World, db: Db, c: CharacterId, recipe: Recipe, rolls: seq<bool>)
    requires Checked(db) && RecipeLoaded(recipe) && |rolls| == |recipe.grants|
    requires CanCraft(w.schema, w.config.maxDistinctTypes, db, c, recipe, rolls)
    ensures KeepsEach(w, true, db, Crafted(w.schema, db, c, recipe, rolls))
  {
    hide Types, StatsInBounds, Slots.Arranged, GrantedStats, LastFor;
    var (k, n) := recipe.output;
    var consumed := Consumed(db.items, c, recipe.inputs);
    ConsumedChecked(db.items, c, recipe.inputs);
    OutputChecked(consumed, c, k, n);
    if SchemaConsistent(w.schema) && StatsInBounds(w.schema, db.stats) {
      GrantsStayInBounds(w.schema, db.stats, c, recipe.grants, rolls, |recipe.grants|);
    }
    InheritedStaysArranged(w.config.slotCount, db.items, consumed);
    InheritedStaysArranged(w.config.slotCount, consumed, Granted(consumed, c, k, n));
    if Capped(w, db.items) {
      CraftTypes(w.config.maxDistinctTypes, db.items, c, recipe);
    }
  }

  lemma CraftTypes(max: nat, items: Items, c: CharacterId, recipe: Recipe)
    requires ItemsChecked(items) && RecipeLoaded(recipe) && EachHeld(items, c, recipe.inputs)
    requires forall d :: |Types(items, d)| <= max
    requires (c, recipe.output.0) in items || |Types(items, c)| < max
    ensures forall d ::
              |Types(Granted(Consumed(items, c, recipe.inputs), c, recipe.output.0, recipe.output.1), d)| <= max
  {
    hide Types, LastFor, Consumed;
    var k := recipe.output.0;
    var consumed := Consumed(items, c, recipe.inputs);
    var after := Granted(consumed, c, k, recipe.output.1);
    ConsumedChecked(items, c, recipe.inputs);
    forall d ensures |Types(after, d)| <= max {
      TypesOneMore(consumed, after, c, k, d);
      SubsetSize(Types(consumed, d), Types(items, d));
      TypesIn(items, c, k);
      if d == c {
        SubsetSize(Types(after, c), Types(items, c) + {k});
        assert k in Types(items, c) ==> Types(items, c) + {k} == Types(items, c);
      }
    }
  }

  lemma TypesOneMore(items: Items, after: Items, c: CharacterId, k: string, d: CharacterId)
    requires after.Keys == items.Keys + {(c, k)}
    ensures Types(after, d) == Types(items, d) + if d == c then {k} else {}
  {
  }

  lemma TradeKeeps(w: World, db: Db, a: CharacterId, oa: Offer, b: CharacterId, ob: Offer)
    requires Checked(db) && GoesThrough(w.config.maxDistinctTypes, db, a, oa, b, ob)
    ensures KeepsEach(w, false, db, Traded(db, a, oa, b, ob))
  {
    hide Types, StatsInBounds, Slots.Arranged, SumFor, GoesThrough, KeysOf, PaidRows;
    TradeKeepsChecks(w.config.maxDistinctTypes, db, a, oa, b, ob);
    var one := Debit(db.items, a, oa.items);
    var two := Debit(one, b, ob.items);
    var three := Credit(two, b, oa.items);
    InheritedStaysArranged(w.config.slotCount, db.items, one);
    InheritedStaysArranged(w.config.slotCount, one, two);
    InheritedStaysArranged(w.config.slotCount, two, three);
    InheritedStaysArranged(w.config.slotCount, three, Credit(three, a, ob.items));
  }

  lemma MoveKeeps(w: World, db: Db, c: CharacterId, k: string, slot: int, db': Db)
    requires Checked(db) && Slots.CanMove(w.config.slotCount, db.items, c, k, slot)
    requires Slots.MoveOutcome(db.items, c, k, slot, db'.items) && db' == db.(items := db'.items)
    ensures KeepsEach(w, false, db, db')
  {
    hide Types, StatsInBounds, Slots.Arranged;
    var items' := db'.items;
    if Slots.Arranged(w.config.slotCount, db.items) {
      Slots.OutcomeIsMoved(w.config.slotCount, db.items, c, k, slot, items');
      Slots.MoveKeepsArranged(w.config.slotCount, db.items, c, k, slot);
    }
    forall d ensures Types(items', d) == Types(db.items, d) {
      SameKeysSameTypes(db.items, items', d);
    }
  }

  lemma SameKeysSameTypes(items: Items, items': Items, d: CharacterId)
    requires items.Keys == items'.Keys
    ensures Types(items', d) == Types(items, d)
  {
  }

  lemma DeltasStayInBounds(schema: Schema, stats: Stats, c: CharacterId, deltas: map<string, i64>, done: set<string>)
    requires done <= deltas.Keys && forall k :: k in done ==> DeltaAccepted(schema, stats, c, k, deltas[k])
    ensures StatsInBounds(schema, stats) ==> StatsInBounds(schema, AfterSome(schema, stats, c, deltas, done))
  {
    hide WriteAccepted, Reading;
  }

  lemma PartlyKeeps(w: World, db: Db, c: CharacterId, deltas: map<string, i64>, db': Db)
    requires Checked(db) && PartlyApplied(w.schema, db, c, deltas, db')
    ensures KeepsEach(w, false, db, db')
  {
    hide Types, StatsInBounds, Slots.Arranged, AfterSome;
    var done :| StoppedAt(w.schema, db, c, deltas, done, db');
    DeltasStayInBounds(w.schema, db.stats, c, deltas, done);
  }

  lemma UnequippedKeeps(w: World, db: Db, c: CharacterId, slot: string)
    requires Checked(db) && CanUnequip(w.schema, w.config.maxDistinctTypes, w.gear, db, c, slot)
    ensures KeepsEach(w, false, db, Unequipped(w.schema, w.gear, db, c, slot))
  {
    hide Types, StatsInBounds, Slots.Arranged, AfterSome, Granted, CanGrant, DeltasOf;
    var item := db.equipped[(c, slot)];
    GrantKeeps(w, db, c, item, 1);
    DeltasStayInBounds(w.schema, db.stats, c, Reversed(DeltasOf(w.gear, item)), Reversed(DeltasOf(w.gear, item)).Keys);
  }

  lemma UnequipKeeps(w: World, db: Db, c: CharacterId, slot: string, ok: bool, db': Db)
    requires Checked(db) && UnequipOutcome(w.schema, w.config.maxDistinctTypes, w.gear, db, c, slot, ok, db')
    ensures KeepsEach(w, false, db, db')
  {
    hide KeepsEach, Checked, Unequipped, CanUnequip, UnequipRefused;
    if ok {
      UnequippedKeeps(w, db, c, slot);
    } else {
      UnequipRefusedKeeps(w, db, c, slot, db');
    }
  }

  lemma UnequipRefusedKeeps(w: World, db: Db, c: CharacterId, slot: string, db': Db)
    requires Checked(db) && UnequipRefused(w.schema, w.gear, db, c, slot, db')
    ensures KeepsEach(w, false, db, db')
  {
    hide KeepsEach, Checked, PartlyApplied, DeltasAccepted, AfterDeltas;
    KeepsItself(w, db);
    if (c, slot) in db.equipped {
      RefusedIsPartly(w.schema, w.gear, db, c, slot, db');
      PartlyKeeps(w, db, c, ReversedFor(w.gear, db, c, slot), db');
    }
  }

  lemma EquipKeeps(w: World, db: Db, c: CharacterId, item: string, ok: bool, db': Db)
    requires Checked(db) && EquipOutcome(w.schema, w.config.maxDistinctTypes, w.gear, db, c, item, ok, db')
    ensures KeepsEach(w, false, db, db')
  {
    hide KeepsEach, Checked, Unequipped, CanUnequip, PartlyApplied, Equipped, DeltasAccepted, UnequipRefused;
    KeepsItself(w, db);
    if Resolve(w.gear, item).Some? && Quantity(db.items, c, item) >= 1 {
      var slot := Resolve(w.gear, item).value.slot;
      if (c, slot) in db.equipped && CanUnequip(w.schema, w.config.maxDistinctTypes, w.gear, db, c, slot) {
        UnequippedKeeps(w, db, c, slot);
      }
      var cleared := SlotCleared(w.schema, w.gear, db, c, slot);
      if (c, slot) in db.equipped && !CanUnequip(w.schema, w.config.maxDistinctTypes, w.gear, db, c, slot) {
        assert !ok;
        UnequipRefusedKeeps(w, db, c, slot, db');
      } else {
        assert KeepsEach(w, false, db, cleared);
        KeepsOn(w, false, db, false, cleared, db');
        if ok {
          EquippedKeeps(w, db, cleared, c, item);
        } else {
          PartlyKeeps(w, cleared, c, DeltasOf(w.gear, item), db');
        }
      }
    }
  }

  lemma EquippedKeeps(w: World, db: Db, cleared: Db, c: CharacterId, item: string)
    requires Resolve(w.gear, item).Some? && Quantity(db.items, c, item) >= 1
    requires cleared == SlotCleared(w.schema, w.gear, db, c, Resolve(w.gear, item).value.slot)
    requires Checked(cleared) && DeltasAccepted(w.schema, cleared.stats, c, DeltasOf(w.gear, item))
    ensures KeepsEach(w, false, cleared, Equipped(w.schema, w.gear, db, c, item))
  {
    hide Types, StatsInBounds, Slots.Arranged, AfterSome, Removed, SlotCleared, DeltasOf;
    var deltas := DeltasOf(w.gear, item);
    StillHeld(w.schema, w.gear, db, c, Resolve(w.gear, item).value.slot, item);
    RemoveKeeps(w, cleared, c, item, 1);
    DeltasStayInBounds(w.schema, cleared.stats, c, deltas, deltas.Keys);
  }
}
