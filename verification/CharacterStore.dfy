/** The store every character operation goes through. Statements update `db` one by one; a
    transaction works on a copy and installs it only at commit. */
module CharacterStore {
  import opened Prelude
  import opened AttributeSchema
  import opened Tables
  import opened Ledger
  import opened Trade
  import opened TradeLaws
  import opened TradeTransaction
  import opened Inventory
  import opened Crafting
  import opened Equipment
  import Slots

  datatype SlotMove = SlotMove(movedSlot: int, displaced: Option<(string, Option<int>)>)

  class CharacterStore {
    const schema: Schema
    const config: Config
    var db: Db

    ghost predicate Valid()
      reads this
    {
      Checked(db)
    }

    constructor (schema: Schema, config: Config)
      ensures Valid() && this.schema == schema && this.config == config
      ensures db == Db(map[], map[], map[], map[])
    {
      this.schema, this.config := schema, config;
      db := Db(map[], map[], map[], map[]);
    }

    method ItemQuantity(c: CharacterId, k: string) returns (quantity: int)
      ensures quantity == Quantity(db.items, c, k)
    {
      quantity := if (c, k) in db.items then db.items[(c, k)].quantity else 0;
    }

    method GrantItem(c: CharacterId, k: string, quantity: int) returns (r: Result<int, Refusal>)
      requires Valid()
      modifies this
      ensures Valid()
      ensures r.Ok? <==> CanGrant(config.maxDistinctTypes, old(db.items), c, k, quantity)
      ensures r.Err? ==>
                r.error == if quantity <= 0 then NotPositive
                           else if (c, k) !in db.items && |Types(db.items, c)| >= config.maxDistinctTypes
                           then InventoryFull else NumericOverflow
      ensures r.Ok? ==> db == old(db).(items := Granted(old(db.items), c, k, quantity))
      ensures r.Ok? ==> r.value == Quantity(db.items, c, k)
      ensures r.Err? ==> db == old(db)
    {
      if quantity <= 0 {
        return Err(NotPositive);
      }
      var current := ItemQuantity(c, k);
      if !(current > 0) {
        if |Types(db.items, c)| >= config.maxDistinctTypes {
          return Err(InventoryFull);
        }
      }
      if current + quantity > I64_MAX {
        return Err(NumericOverflow);
      }
      var slot := if (c, k) in db.items then db.items[(c, k)].slot else None;
      db := db.(items := db.items[(c, k) := Stack(current + quantity, slot)]);
      r := Ok(current + quantity);
    }

    method RemoveItem(c: CharacterId, k: string, quantity: int) returns (r: Result<int, Refusal>)
      requires Valid()
      modifies this
      ensures Valid()
      ensures r.Ok? <==> CanRemove(old(db.items), c, k, quantity)
      ensures r.Err? ==> r.error == if quantity <= 0 then NotPositive else NotEnough
      ensures r.Ok? ==> db == old(db).(items := Removed(old(db.items), c, k, quantity))
      ensures r.Ok? ==> r.value == Quantity(db.items, c, k)
      ensures r.Err? ==> db == old(db)
    {
      if quantity <= 0 {
        return Err(NotPositive);
      }
      var current := ItemQuantity(c, k);
      if current < quantity {
        return Err(NotEnough);
      }
      var remaining := current - quantity;
      if remaining == 0 {
        db := db.(items := db.items - {(c, k)});
      } else {
        db := db.(items := db.items[(c, k) := db.items[(c, k)].(quantity := remaining)]);
      }
      r := Ok(remaining);
    }

    method ModifyCurrency(c: CharacterId, k: string, delta: i64) returns (r: Result<int, Refusal>)
      requires Valid()
      modifies this
      ensures Valid()
      ensures r.Ok? <==> CanModify(old(db.currency), c, k, delta)
      ensures r.Err? ==> r.error == if Balance(db.currency, c, k) + delta > I64_MAX then NumericOverflow else NotEnough
      ensures r.Ok? ==> r.value == Balance(old(db.currency), c, k) + delta
                        && db == old(db).(currency := old(db.currency)[(c, k) := r.value])
      ensures r.Err? ==> db == old(db)
    {
      var newBalance := Balance(db.currency, c, k) + delta;
      assert FitsI64(delta) && Balance(db.currency, c, k) >= 0;
      if !FitsI64(newBalance) {
        return Err(NumericOverflow);
      }
      if newBalance < 0 {
        return Err(NotEnough);
      }
      db := db.(currency := db.currency[(c, k) := newBalance]);
      r := Ok(newBalance);
    }

    method GetStat(c: CharacterId, key: string) returns (r: Result<int, Refusal>)
      ensures r == if Declares(schema, key) then Ok(Reading(schema, db.stats, c, key)) else Err(UnknownStat)
      ensures ResolveRead(schema, StatsObject(db.stats, c), key) == if r.Ok? then Some(r.value) else None
    {
      var d := Declaration(schema, key);
      if d.None? {
        return Err(UnknownStat);
      }
      r := Ok(if (c, key) in db.stats then db.stats[(c, key)] else d.value.default);
    }

    method SetStat(c: CharacterId, key: string, value: i64) returns (r: Result<(), Refusal>)
      modifies this
      ensures r.Ok? <==> WriteAccepted(schema, key, value)
      ensures r.Err? ==> r.error == if Declares(schema, key) then OutOfBounds else UnknownStat
      ensures db == if r.Ok? then old(db).(stats := old(db.stats)[(c, key) := value]) else old(db)
    {
      var d := Declaration(schema, key);
      if d.None? {
        return Err(UnknownStat);
      }
      if d.value.min.Some? && value < d.value.min.value {
        return Err(OutOfBounds);
      }
      if d.value.max.Some? && value > d.value.max.value {
        return Err(OutOfBounds);
      }
      db := db.(stats := db.stats[(c, key) := value]);
      r := Ok(());
    }

    method ApplyStatDelta(c: CharacterId, key: string, delta: int) returns (r: Result<int, Refusal>)
      modifies this
      ensures r.Ok? <==> DeltaAccepted(schema, old(db.stats), c, key, delta)
      ensures r.Err? ==>
                r.error == if !Declares(schema, key) then UnknownStat
                           else if FitsI64(Reading(schema, db.stats, c, key) + delta) then OutOfBounds
                           else NumericOverflow
      ensures r.Ok? ==> r.value == Reading(schema, old(db.stats), c, key) + delta
                        && db == old(db).(stats := old(db.stats)[(c, key) := r.value])
      ensures r.Ok? ==> ResolveRead(schema, StatsObject(old(db.stats), c), key) == Some(r.value - delta)
      ensures r.Err? ==> db == old(db)
    {
      var current := GetStat(c, key);
      if current.Err? {
        return current;
      }
      var newValue := current.value + delta;
      if !FitsI64(newValue) {
        return Err(NumericOverflow);
      }
      var written := SetStat(c, key, newValue);
      if written.Err? {
        return Err(written.error);
      }
      r := Ok(newValue);
    }

    // Exchanges two offers in one transaction.
    method ExecuteTrade(a: CharacterId, oa: Offer, b: CharacterId, ob: Offer)
      returns (r: Result<TradeReport, Refusal>)
      requires Valid()
      modifies this
      ensures Valid()
      ensures r.Ok? <==> GoesThrough(config.maxDistinctTypes, old(db), a, oa, b, ob)
      ensures !AllAmountsPositive(oa, ob) ==> r == Err(NotPositive)
      ensures AllAmountsPositive(oa, ob)
              && !(EachHeld(old(db.items), a, oa.items) && EachBalanceHeld(old(db.currency), a, oa.currency)
                   && EachHeld(old(db.items), b, ob.items) && EachBalanceHeld(old(db.currency), b, ob.currency)) ==>
                r == Err(NotEnough)
      ensures db == if r.Ok? then Traded(old(db), a, oa, b, ob) else old(db)
      ensures r.Ok? && a != b ==>
                && ReportsItems(r.value.aItems, oa, ob, db, a) && ReportsItems(r.value.bItems, oa, ob, db, b)
                && ReportsBalances(r.value.aCurrency, oa, ob, db, a)
                && ReportsBalances(r.value.bCurrency, oa, ob, db, b)
      ensures r.Ok? && a == b ==> SelfReports(r.value, oa, ob, db, a)
    {
      hide Debit, Credit, SumFor, DebitBalance, CreditBalance, HasRoom, HasBalanceRoom, Covers, CoversBalance, KeysOf;
      var max := config.maxDistinctTypes;
      var positive := OfferPositive(oa);
      if !positive {
        return Err(NotPositive);
      }
      positive := OfferPositive(ob);
      if !positive {
        return Err(NotPositive);
      }
      var tx := db;
      var held := OfferHeld(tx, a, oa);
      if !held {
        if GoesThrough(max, tx, a, oa, b, ob) { ChecksRefuseNothingElse(max, tx, a, oa, b, ob); }
        return Err(NotEnough);
      }
      held := OfferHeld(tx, b, ob);
      if !held {
        if GoesThrough(max, tx, a, oa, b, ob) { ChecksRefuseNothingElse(max, tx, a, oa, b, ob); }
        return Err(NotEnough);
      }
      var refusal, after, report := MoveGoods(max, tx, a, oa, b, ob);
      if refusal.Some? {
        return Err(refusal.value);
      }
      TradeKeepsChecks(max, tx, a, oa, b, ob);
      db := after;
      r := Ok(report);
    }

    // Consumes the inputs, adds the output and applies the grants in one transaction.
    method CraftItem(c: CharacterId, recipe: Recipe, rolls: seq<bool>) returns (r: Result<Changed, Refusal>)
      requires Valid() && RecipeLoaded(recipe) && |rolls| == |recipe.grants|
      modifies this
      ensures Valid()
      ensures r.Ok? <==> CanCraft(schema, config.maxDistinctTypes, old(db), c, recipe, rolls)
      ensures db == if r.Ok? then Crafted(schema, old(db), c, recipe, rolls) else old(db)
      ensures r.Ok? ==> CraftReported(r.value, schema, old(db), db, c, recipe)
    {
      hide Consumed, Granted, GrantedStats, CraftReported, EachHeld, ResolveRead, StatsObject, Declaration, Reading,
           Declares;
      for i := 0 to |recipe.needs|
        invariant forall j :: 0 <= j < i ==>
                    Declares(schema, recipe.needs[j].0)
                        && recipe.needs[j].1 <= Reading(schema, db.stats, c, recipe.needs[j].0)
        invariant db == old(db)
      {
        assert recipe.needs[i] in recipe.needs;
        var current := GetStat(c, recipe.needs[i].0);
        if current.Err? {
          return Err(current.error);
        }
        if current.value < recipe.needs[i].1 {
          return Err(RequirementUnmet);
        }
      }
      var refusal, tx, changed := CraftTransaction(schema, config.maxDistinctTypes, db, c, recipe, rolls);
      if refusal.Some? {
        return Err(refusal.value);
      }
      db := tx;
      r := Ok(changed);
    }

    // Moves a stack to a slot, swapping with the stack that is there.
    method MoveItemToSlot(c: CharacterId, k: string, slot: int) returns (r: Result<SlotMove, Refusal>)
      requires Valid()
      modifies this
      ensures Valid()
      ensures r.Ok? <==> Slots.CanMove(config.slotCount, old(db.items), c, k, slot)
      ensures r.Err? ==> r.error == if 0 <= slot < config.slotCount then NotEnough else SlotOutOfRange
      ensures db == old(db).(items := db.items)
      ensures if r.Ok? then Slots.MoveOutcome(old(db.items), c, k, slot, db.items) else db == old(db)
      ensures r.Ok? ==>
                && r.value.movedSlot == slot
                && (r.value.displaced.None? <==> Slots.Occupants(old(db.items), c, k, slot) == {})
                && (r.value.displaced.Some? ==>
                      && r.value.displaced.value.0 in Slots.Occupants(old(db.items), c, k, slot)
                      && r.value.displaced.value.1 == old(db.items)[(c, k)].slot)
                && (c, k) in db.items && db.items[(c, k)].slot == Some(slot)
                && (r.value.displaced.Some? ==>
                      && (c, r.value.displaced.value.0) in db.items
                      && db.items[(c, r.value.displaced.value.0)].slot == r.value.displaced.value.1)
    {
      if slot < 0 || slot >= config.slotCount {
        return Err(SlotOutOfRange);
      }
      if (c, k) !in db.items {
        return Err(NotEnough);
      }
      var tx := db;
      var previous := tx.items[(c, k)].slot;
      var occupants := Slots.Occupants(tx.items, c, k, slot);
      var displaced := None;
      tx := tx.(items := Slots.Place(tx.items, c, k, Some(slot)));
      if occupants != {} {
        var occupant :| occupant in occupants;
        assert (c, occupant) in tx.items;
        tx := tx.(items := Slots.Place(tx.items, c, occupant, previous));
        displaced := Some((occupant, previous));
      }
      db := tx;
      r := Ok(SlotMove(slot, displaced));
    }

    // Writes the deltas one stat at a time, in no particular order, and stops at the first
    // that is refused: what was written before stays.
    method ApplyDeltas(c: CharacterId, deltas: map<string, i64>) returns (ok: bool, changes: Entries)
      modifies this
      ensures ok <==> DeltasAccepted(schema, old(db.stats), c, deltas)
      ensures ok ==> db == old(db).(stats := AfterDeltas(schema, old(db.stats), c, deltas))
      ensures !ok ==> PartlyApplied(schema, old(db), c, deltas, db)
      ensures ok ==> ReportsStats(changes, schema, db.stats, c, deltas.Keys)
    {
      hide AfterSome, ReportsStats, Reading, DeltaAccepted, PartlyApplied, ResolveRead, StatsObject, Declares, FitsI64;
      var todo, done := deltas.Keys, {};
      changes := [];
      NoDeltas(schema, db.stats, c, deltas);
      NothingReported(schema, db.stats, c);
      while todo != {}
        invariant done !! todo && done + todo == deltas.Keys
        invariant forall k :: k in done ==> DeltaAccepted(schema, old(db.stats), c, k, deltas[k])
        invariant db == old(db).(stats := AfterSome(schema, old(db.stats), c, deltas, done))
        invariant ReportsStats(changes, schema, db.stats, c, done)
        decreases |todo|
      {
        var k :| k in todo;
        DeltaStep(changes, schema, old(db.stats), c, deltas, done, k);
        var newValue := ApplyStatDelta(c, k, deltas[k]);
        if newValue.Err? {
          StoppedAfter(schema, old(db), c, deltas, done);
          return false, [];
        }
        changes := changes + [(k, newValue.value)];
        todo, done := todo - {k}, done + {k};
      }
      assert done == deltas.Keys;
      ok := true;
    }

    // Reverses the worn item's deltas, then returns it, then clears the slot.
    method UnequipInner(gear: EquipmentSchema, c: CharacterId, slot: string) returns (r: Result<Changed, Refusal>)
      requires Valid() && (c, slot) in db.equipped
      modifies this
      ensures Valid()
      ensures UnequipOutcome(schema, config.maxDistinctTypes, gear, old(db), c, slot, r.Ok?, db)
      ensures r.Ok? ==>
                && r.value.items == [(old(db.equipped)[(c, slot)], Quantity(db.items, c, old(db.equipped)[(c, slot)]))]
                && ReportsStats(r.value.stats, schema, db.stats, c, DeltasOf(gear, old(db.equipped)[(c, slot)]).Keys)
    {
      hide AfterSome, Declaration, DeltasOf, Granted, ReportsStats;
      var item := db.equipped[(c, slot)];
      var deltas := Reversed(DeltasOf(gear, item));
      assert deltas.Keys == DeltasOf(gear, item).Keys;
      var ok, statChanges := ApplyDeltas(c, deltas);
      if !ok {
        return Err(OutOfBounds);
      }
      var returned := GrantItem(c, item, 1);
      if returned.Err? {
        return Err(returned.error);
      }
      db := db.(equipped := db.equipped - {(c, slot)});
      r := Ok(Changed(statChanges, [(item, returned.value)]));
    }

    method UnequipItem(gear: EquipmentSchema, c: CharacterId, slot: string) returns (r: Result<Changed, Refusal>)
      requires Valid()
      modifies this
      ensures Valid()
      ensures UnequipOutcome(schema, config.maxDistinctTypes, gear, old(db), c, slot, r.Ok?, db)
      ensures r.Ok? ==>
                && r.value.items == [(old(db.equipped)[(c, slot)], Quantity(db.items, c, old(db.equipped)[(c, slot)]))]
                && ReportsStats(r.value.stats, schema, db.stats, c, DeltasOf(gear, old(db.equipped)[(c, slot)]).Keys)
    {
      if (c, slot) !in db.equipped {
        return Err(SlotEmpty);
      }
      r := UnequipInner(gear, c, slot);
    }

    // Frees the slot first, then applies the new item's deltas, then takes the item.
    method EquipItem(gear: EquipmentSchema, c: CharacterId, item: string) returns (r: Result<Changed, Refusal>)
      requires Valid()
      modifies this
      ensures Valid()
      ensures EquipOutcome(schema, config.maxDistinctTypes, gear, old(db), c, item, r.Ok?, db)
      ensures r.Ok? ==>
                var slot := Resolve(gear, item).value.slot;
                ReportsStatsLast(r.value.stats, schema, db.stats, c,
                  (if (c, slot) in old(db.equipped) then DeltasOf(gear, old(db.equipped)[(c, slot)]).Keys else {})
                  + DeltasOf(gear, item).Keys)
      ensures r.Ok? ==> LastFor(r.value.items, item) == Some(Quantity(db.items, c, item))
    {
      hide AfterSome, Declaration, Granted, LastFor, ReportsStats, ReportsStatsLast, KeysOf;
      var declared := Resolve(gear, item);
      if declared.None? {
        return Err(NotEquippable);
      }
      var slot, deltas := declared.value.slot, declared.value.statDeltas;
      var quantity := ItemQuantity(c, item);
      if quantity < 1 {
        return Err(NotEnough);
      }
      StillHeld(schema, gear, db, c, slot, item);
      var statChanges, itemChanges: Entries := [], [];
      NothingReported(schema, db.stats, c);
      ghost var touched := if (c, slot) in db.equipped then DeltasOf(gear, db.equipped[(c, slot)]).Keys else {};
      if (c, slot) in db.equipped {
        var occupant := UnequipInner(gear, c, slot);
        if occupant.Err? {
          return Err(occupant.error);
        }
        statChanges, itemChanges := occupant.value.stats, occupant.value.items;
      }
      ghost var cleared := db;
      assert cleared == SlotCleared(schema, gear, old(db), c, slot);
      var ok, more := ApplyDeltas(c, deltas);
      if !ok {
        return Err(OutOfBounds);
      }
      ReportsJoin(statChanges, more, schema, cleared.stats, c, touched, deltas);
      statChanges := statChanges + more;
      var remaining := RemoveItem(c, item, 1);
      assert remaining.Ok?;
      Reported(itemChanges, item, remaining.value);
      itemChanges := itemChanges + [(item, remaining.value)];
      db := db.(equipped := db.equipped[(c, slot) := item]);
      r := Ok(Changed(statChanges, itemChanges));
    }
  }

  lemma NothingReported(schema: Schema, stats: Stats, c: CharacterId)
    ensures ReportsStats([], schema, stats, c, {})
  {
  }

  lemma ReportsJoin(earlier: Entries, later: Entries, schema: Schema, before: Stats, c: CharacterId,
          keys: set<string>, deltas: map<string, i64>)
    requires DeltasAccepted(schema, before, c, deltas)
    requires ReportsStats(earlier, schema, before, c, keys)
    requires ReportsStats(later, schema, AfterDeltas(schema, before, c, deltas), c, deltas.Keys)
    ensures ReportsStatsLast(earlier + later, schema, AfterDeltas(schema, before, c, deltas), c, keys + deltas.Keys)
  {
    hide AfterSome, Reading, LastFor, DistinctKeys;
    var after := AfterDeltas(schema, before, c, deltas);
    forall j | j !in KeysOf(later) ensures Reading(schema, before, c, j) == Reading(schema, after, c, j) {
      ReadingAfter(schema, before, c, deltas, deltas.Keys, c, j);
    }
    ReportJoined(earlier, later, schema, before, after, c, "");
    forall k | k in keys + deltas.Keys ensures LastFor(earlier + later, k) == Some(Reading(schema, after, c, k)) {
      ReportJoined(earlier, later, schema, before, after, c, k);
    }
  }
}
