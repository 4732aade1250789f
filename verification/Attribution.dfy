/** Stats and worn gear: what of a character's stats is owed to the items it wears, and that
    taking gear off undoes exactly what putting it on did. */
module Attribution {
  import opened Prelude
  import opened Sums
  import opened AttributeSchema
  import opened Tables
  import opened TradeLaws
  import opened Inventory
  import opened Crafting
  import opened Equipment
  import opened Economy
  import opened Conservation
  import Slots

  // What one worn item contributes to a stat.
  function DeltaFor(gear: EquipmentSchema, item: string, key: string): int {
    var deltas := DeltasOf(gear, item);
    if key in deltas then deltas[key] else 0
  }

  function SlotsWorn(equipped: Worn, c: CharacterId): (s: set<string>)
    ensures forall slot :: slot in s <==> (c, slot) in equipped
  {
    set cs | cs in equipped && cs.0 == c :: cs.1
  }

  ghost function SlotDelta(gear: EquipmentSchema, equipped: Worn, c: CharacterId, key: string): string -> int {
    slot => if (c, slot) in equipped then DeltaFor(gear, equipped[(c, slot)], key) else 0
  }

  // The deltas of everything the character wears, summed.
  ghost function FromGear(gear: EquipmentSchema, equipped: Worn, c: CharacterId, key: string): int {
    SumOver(SlotsWorn(equipped, c), SlotDelta(gear, equipped, c, key))
  }

  // The part of a stat the character would keep with nothing on.
  ghost function BaseStat(w: World, db: Db, c: CharacterId, key: string): int {
    Reading(w.schema, db.stats, c, key) - FromGear(w.gear, db.equipped, c, key)
  }

  lemma GearTakenOff(gear: EquipmentSchema, equipped: Worn, c: CharacterId, slot: string, d: CharacterId, key: string)
    requires (c, slot) in equipped
    ensures FromGear(gear, equipped, d, key)
         == FromGear(gear, equipped - {(c, slot)}, d, key)
            + if d == c then DeltaFor(gear, equipped[(c, slot)], key) else 0
  {
    hide DeltaFor, SlotsWorn;
    var after := equipped - {(c, slot)};
    var f, g := SlotDelta(gear, equipped, d, key), SlotDelta(gear, after, d, key);
    if d == c {
      SumOverPick(SlotsWorn(equipped, d), f, slot);
      assert SlotsWorn(after, d) == SlotsWorn(equipped, d) - {slot};
    } else {
      assert SlotsWorn(after, d) == SlotsWorn(equipped, d);
    }
    SumOverSame(SlotsWorn(after, d), f, g);
  }

  lemma GearPutOn(gear: EquipmentSchema, equipped: Worn, c: CharacterId, slot: string, item: string, d: CharacterId,
          key: string)
    requires (c, slot) !in equipped
    ensures FromGear(gear, equipped[(c, slot) := item], d, key)
         == FromGear(gear, equipped, d, key) + if d == c then DeltaFor(gear, item, key) else 0
  {
    GearTakenOff(gear, equipped[(c, slot) := item], c, slot, d, key);
    assert equipped[(c, slot) := item] - {(c, slot)} == equipped;
  }

  // An accepted unequip leaves every base stat alone exactly when the delta it reverses has a
  // negation; the one value that has none moves the stat the wrong way.
  lemma UnequipKeepsBase(w: World, db: Db, c: CharacterId, slot: string, d: CharacterId, key: string)
    requires CanUnequip(w.schema, w.config.maxDistinctTypes, w.gear, db, c, slot)
    ensures BaseStat(w, Unequipped(w.schema, w.gear, db, c, slot), d, key) == BaseStat(w, db, d, key)
       <==> d != c || DeltaFor(w.gear, db.equipped[(c, slot)], key) != I64_MIN
  {
    hide AfterSome, Granted, CanGrant, DeltaAccepted, DeltasOf, Reading, FromGear;
    var deltas := DeltasOf(w.gear, db.equipped[(c, slot)]);
    var reversed := Reversed(deltas);
    ReadingAfter(w.schema, db.stats, c, reversed, reversed.Keys, d, key);
    GearTakenOff(w.gear, db.equipped, c, slot, d, key);
  }

  // An accepted equip, likewise: what can go wrong is only the reversal of a displaced item.
  lemma EquipKeepsBase(w: World, db: Db, c: CharacterId, item: string, d: CharacterId, key: string)
    requires CanEquip(w.schema, w.config.maxDistinctTypes, w.gear, db, c, item)
    ensures var slot := Resolve(w.gear, item).value.slot;
            (BaseStat(w, Equipped(w.schema, w.gear, db, c, item), d, key) == BaseStat(w, db, d, key)
             <==> d != c || (c, slot) !in db.equipped || DeltaFor(w.gear, db.equipped[(c, slot)], key) != I64_MIN)
  {
    hide AfterSome, Granted, Removed, CanUnequip, DeltaAccepted, DeltasOf, Reading, FromGear, Unequipped, Quantity;
    var slot := Resolve(w.gear, item).value.slot;
    var cleared := SlotCleared(w.schema, w.gear, db, c, slot);
    var deltas := DeltasOf(w.gear, item);
    if (c, slot) in db.equipped {
      UnequipKeepsBase(w, db, c, slot, d, key);
      ClearConserves(w.schema, w.gear, db, c, slot, d, key);
    }
    StillHeld(w.schema, w.gear, db, c, slot, item);
    ReadingAfter(w.schema, cleared.stats, c, deltas, deltas.Keys, d, key);
    GearPutOn(w.gear, cleared.equipped, c, slot, item, d, key);
    ResolvedDeltas(w.gear, item);
  }

  lemma ResolvedDeltas(gear: EquipmentSchema, item: string)
    requires Resolve(gear, item).Some?
    ensures DeltasOf(gear, item) == Resolve(gear, item).value.statDeltas
  {
  }

  predicate EveryDeltaNegatable(gear: EquipmentSchema) {
    forall e :: e in gear ==> forall k :: k in e.statDeltas ==> e.statDeltas[k] != I64_MIN
  }

  lemma NegatableDelta(gear: EquipmentSchema, item: string, key: string)
    requires EveryDeltaNegatable(gear)
    ensures DeltaFor(gear, item, key) != I64_MIN
  {
  }

  // The deltas an equip or unequip may write: the worn item's, and the new one's.
  predicate Touches(w: World, db: Db, op: Op, key: string) {
    match op
    case Equip(c, item) =>
      Resolve(w.gear, item).Some? &&
      var slot := Resolve(w.gear, item).value.slot;
      key in DeltasOf(w.gear, item) || ((c, slot) in db.equipped && key in DeltasOf(w.gear, db.equipped[(c, slot)]))
    case Unequip(c, slot) => (c, slot) in db.equipped && key in DeltasOf(w.gear, db.equipped[(c, slot)])
    case _ => false
  }

  // Steps that write the stat of `d` by accepted equips, unequips and deltas only: no refused
  // equip or unequip of `d` touches it, and neither a stat write nor a craft grant names it.
  predicate WritesByDelta(w: World, db: Db, op: Op, ok: bool, d: CharacterId, key: string) {
    && (op.Equip? || op.Unequip? ==> ok || op.c != d || !Touches(w, db, op, key))
    && (op.SetStat? && ok ==> op.c != d || op.k != key)
    && (op.Craft? && ok ==> op.c != d || forall g :: g in op.recipe.grants ==> g.stat != key)
  }

  function StatNet(op: Op, ok: bool, d: CharacterId, key: string): int {
    if op.ApplyStatDelta? && ok && op.c == d && op.k == key then op.delta else 0
  }

  // Written or not, by a step that stopped part-way.
  predicate DriftsBy(drift: int, deltas: map<string, i64>, key: string) {
    drift == 0 || (key in deltas && drift == deltas[key])
  }

  lemma PartlyAppliedDrift(w: World, db: Db, c: CharacterId, deltas: map<string, i64>, db': Db, d: CharacterId,
          key: string)
    requires PartlyApplied(w.schema, db, c, deltas, db')
    ensures DriftsBy(BaseStat(w, db', d, key) - BaseStat(w, db, d, key), deltas, key)
    ensures d != c ==> BaseStat(w, db', d, key) == BaseStat(w, db, d, key)
  {
    hide AfterSome, Reading, FromGear, DeltaAccepted;
    var done :| StoppedAt(w.schema, db, c, deltas, done, db');
    ReadingAfter(w.schema, db.stats, c, deltas, done, d, key);
  }

  // A refused unequip moves a base stat by the delta it meant to reverse or not at all; if
  // only the return was refused, by exactly that delta.
  lemma RefusedUnequipDrift(w: World, db: Db, c: CharacterId, slot: string, db': Db, d: CharacterId, key: string)
    requires (c, slot) in db.equipped && UnequipRefused(w.schema, w.gear, db, c, slot, db')
    ensures var drift := BaseStat(w, db', d, key) - BaseStat(w, db, d, key);
            var deltas := ReversedFor(w.gear, db, c, slot);
            && DriftsBy(drift, deltas, key) && (d != c ==> drift == 0)
            && (d == c && key in deltas && DeltasAccepted(w.schema, db.stats, c, deltas) ==> drift == deltas[key])
  {
    hide AfterSome, Reading, FromGear, DeltaAccepted, DeltasOf, Reversed;
    var deltas := ReversedFor(w.gear, db, c, slot);
    RefusedIsPartly(w.schema, w.gear, db, c, slot, db');
    PartlyAppliedDrift(w, db, c, deltas, db', d, key);
    if DeltasAccepted(w.schema, db.stats, c, deltas) {
      ReadingAfter(w.schema, db.stats, c, deltas, deltas.Keys, d, key);
    }
  }

  // A refused equip moves it as the refused unequip of the occupant does, or else by one of
  // its own deltas or not at all.
  lemma RefusedEquipDrift(w: World, db: Db, c: CharacterId, item: string, db': Db, d: CharacterId, key: string)
    requires EveryDeltaNegatable(w.gear)
    requires EquipRefused(w.schema, w.config.maxDistinctTypes, w.gear, db, c, item, db')
    ensures var drift := BaseStat(w, db', d, key) - BaseStat(w, db, d, key);
            || drift == 0
            || (d == c && DriftsBy(drift, DeltasOf(w.gear, item), key))
            || (d == c && (c, Resolve(w.gear, item).value.slot) in db.equipped
                && DriftsBy(drift, ReversedFor(w.gear, db, c, Resolve(w.gear, item).value.slot), key))
  {
    hide AfterSome, Reading, BaseStat, DeltasOf, Reversed, CanUnequip, Unequipped, PartlyApplied, UnequipRefused,
         EveryDeltaNegatable, DeltaFor;
    if Resolve(w.gear, item).Some? && Quantity(db.items, c, item) >= 1 {
      var slot := Resolve(w.gear, item).value.slot;
      if (c, slot) in db.equipped && !CanUnequip(w.schema, w.config.maxDistinctTypes, w.gear, db, c, slot) {
        RefusedUnequipDrift(w, db, c, slot, db', d, key);
      } else {
        if (c, slot) in db.equipped {
          UnequipKeepsBase(w, db, c, slot, d, key);
          NegatableDelta(w.gear, db.equipped[(c, slot)], key);
        }
        PartlyAppliedDrift(w, SlotCleared(w.schema, w.gear, db, c, slot), c, DeltasOf(w.gear, item), db', d, key);
      }
    }
  }

  lemma ReversedKeys(gear: EquipmentSchema, db: Db, c: CharacterId, slot: string)
    requires (c, slot) in db.equipped
    ensures ReversedFor(gear, db, c, slot).Keys == DeltasOf(gear, db.equipped[(c, slot)]).Keys
  {
  }

  lemma EquipStepKeepsBase(w: World, db: Db, c: CharacterId, item: string, ok: bool, db': Db, d: CharacterId,
          key: string)
    requires EveryDeltaNegatable(w.gear) && (ok || c != d || !Touches(w, db, Equip(c, item), key))
    requires EquipOutcome(w.schema, w.config.maxDistinctTypes, w.gear, db, c, item, ok, db')
    ensures BaseStat(w, db', d, key) == BaseStat(w, db, d, key)
  {
    hide BaseStat, DeltasOf, Reversed, CanUnequip, Equipped, EquipRefused, EveryDeltaNegatable, DeltaFor,
        DeltasAccepted;
    if Resolve(w.gear, item).Some? && (c, Resolve(w.gear, item).value.slot) in db.equipped {
      var slot := Resolve(w.gear, item).value.slot;
      NegatableDelta(w.gear, db.equipped[(c, slot)], key);
      ReversedKeys(w.gear, db, c, slot);
    }
    if ok {
      EquipKeepsBase(w, db, c, item, d, key);
    } else {
      RefusedEquipDrift(w, db, c, item, db', d, key);
      if Resolve(w.gear, item).None? {
        RefusedUnchanged(w, db, c, item, db');
      }
    }
  }

  lemma RefusedUnchanged(w: World, db: Db, c: CharacterId, item: string, db': Db)
    requires Resolve(w.gear, item).None?
    requires EquipRefused(w.schema, w.config.maxDistinctTypes, w.gear, db, c, item, db')
    ensures db' == db
  {
  }

  lemma UnequipStepKeepsBase(w: World, db: Db, c: CharacterId, slot: string, ok: bool, db': Db, d: CharacterId,
          key: string)
    requires EveryDeltaNegatable(w.gear) && (ok || c != d || !Touches(w, db, Unequip(c, slot), key))
    requires UnequipOutcome(w.schema, w.config.maxDistinctTypes, w.gear, db, c, slot, ok, db')
    ensures BaseStat(w, db', d, key) == BaseStat(w, db, d, key)
  {
    hide BaseStat, DeltasOf, Reversed, Unequipped, EveryDeltaNegatable, DeltaFor, DeltasAccepted, PartlyApplied,
        AfterDeltas;
    if (c, slot) in db.equipped {
      NegatableDelta(w.gear, db.equipped[(c, slot)], key);
      ReversedKeys(w.gear, db, c, slot);
      if ok {
        UnequipKeepsBase(w, db, c, slot, d, key);
      } else {
        RefusedUnequipDrift(w, db, c, slot, db', d, key);
      }
    }
  }

  lemma StepKeepsBase(w: World, db: Db, op: Op, ok: bool, db': Db, d: CharacterId, key: string)
    requires EveryDeltaNegatable(w.gear) && OpLoaded(op) && Step(w, db, op, ok, db')
    requires WritesByDelta(w, db, op, ok, d, key)
    ensures BaseStat(w, db', d, key) == BaseStat(w, db, d, key) + StatNet(op, ok, d, key)
  {
    hide Granted, Removed, Consumed, GoesThrough, EquipOutcome, UnequipOutcome, Touches,
         Slots.MoveOutcome, GrantedStats, FromGear, EveryDeltaNegatable, CanCraft;
    match op
    case Craft(c, recipe, rolls) =>
      if ok {
        hide Reading;
        if d == c {
          GrantEffect(w.schema, db.stats, c, recipe.grants, rolls, |recipe.grants|, key);
        } else {
          GrantsAreOwn(w.schema, db.stats, c, recipe.grants, rolls, |recipe.grants|, d, key);
        }
      }
    case Equip(c, item) => EquipStepKeepsBase(w, db, c, item, ok, db', d, key);
    case Unequip(c, slot) => UnequipStepKeepsBase(w, db, c, slot, ok, db', d, key);
    case _ =>
  }

  function RunStatNet(ops: seq<Op>, oks: seq<bool>, d: CharacterId, key: string): int
    requires |ops| == |oks|
  {
    if ops == [] then 0
    else
      var n := |ops| - 1;
      RunStatNet(ops[..n], oks[..n], d, key) + StatNet(ops[n], oks[n], d, key)
  }

  // Along any run of equips and unequips, mixed with anything that does not overwrite the
  // stat, the stat less the deltas of what is worn moves only by explicit deltas. Refused
  // equips and unequips are allowed wherever they do not name the stat.
  lemma {:induction false} RunKeepsBase(w: World, states: seq<Db>, ops: seq<Op>, oks: seq<bool>, d: CharacterId,
          key: string)
    requires EveryDeltaNegatable(w.gear) && Run(w, states, ops, oks)
    requires forall i :: 0 <= i < |ops| ==> WritesByDelta(w, states[i], ops[i], oks[i], d, key)
    ensures BaseStat(w, states[|ops|], d, key) == BaseStat(w, states[0], d, key) + RunStatNet(ops, oks, d, key)
    decreases |ops|
  {
    hide Step, BaseStat, StatNet, WritesByDelta, EveryDeltaNegatable;
    if ops != [] {
      var n := |ops| - 1;
      RunPrefix(w, states, ops, oks);
      RunKeepsBase(w, states[..|ops|], ops[..n], oks[..n], d, key);
      StepKeepsBase(w, states[n], ops[n], oks[n], states[n + 1], d, key);
    }
  }

  // Wearing an item in an empty slot and taking it off again: it comes off exactly when the
  // readings it started from are themselves allowed, and everything is then as before.
  lemma EquipThenUnequip(w: World, db: Db, c: CharacterId, item: string)
    requires Inv(w, db) && CanEquip(w.schema, w.config.maxDistinctTypes, w.gear, db, c, item)
    requires EveryDeltaNegatable(w.gear) && (c, Resolve(w.gear, item).value.slot) !in db.equipped
    ensures var slot := Resolve(w.gear, item).value.slot;
            var on := Equipped(w.schema, w.gear, db, c, item);
            && (CanUnequip(w.schema, w.config.maxDistinctTypes, w.gear, on, c, slot)
                <==> forall k :: k in DeltasOf(w.gear, item) ==>
                    WriteAccepted(w.schema, k, Reading(w.schema, db.stats, c, k)))
            && (CanUnequip(w.schema, w.config.maxDistinctTypes, w.gear, on, c, slot) ==>
                  SameToEveryReader(w, db, Unequipped(w.schema, w.gear, on, c, slot)))
  {
    hide AfterSome, Granted, Removed, DeltasOf, Reading, Quantity, Types, StatsInBounds, Slots.Arranged,
            WriteAccepted, EveryDeltaNegatable;
    var slot := Resolve(w.gear, item).value.slot;
    var deltas := DeltasOf(w.gear, item);
    var on := Equipped(w.schema, w.gear, db, c, item);
    ResolvedDeltas(w.gear, item);
    assert on.equipped - {(c, slot)} == db.equipped;
    RoomToReturn(w, db, c, item);
    forall d, k
      ensures Reading(w.schema, on.stats, d, k)
           == Reading(w.schema, db.stats, d, k) + if d == c && k in deltas then deltas[k] else 0
    {
      ReadingAfter(w.schema, db.stats, c, deltas, deltas.Keys, d, k);
    }
    forall k | k in deltas ensures Reversed(deltas)[k] as int == -(deltas[k] as int) {
      NegatableDelta(w.gear, item, k);
    }
    BackInBounds(w, db, on, c, deltas);
    if CanUnequip(w.schema, w.config.maxDistinctTypes, w.gear, on, c, slot) {
      var off := Unequipped(w.schema, w.gear, on, c, slot);
      var reversed := Reversed(deltas);
      forall d, k ensures Reading(w.schema, off.stats, d, k) == Reading(w.schema, db.stats, d, k)
                  ensures Quantity(off.items, d, k) == Quantity(db.items, d, k)
      {
        ReadingAfter(w.schema, on.stats, c, reversed, reversed.Keys, d, k);
        RemovedQuantity(db.items, c, item, 1, d, k);
        GrantedQuantity(on.items, c, item, 1, d, k);
      }
    }
  }

  // Nobody can tell the tables apart by reading stats, quantities, balances or worn items.
  ghost predicate SameToEveryReader(w: World, db: Db, db': Db) {
    && (forall d, k :: Reading(w.schema, db'.stats, d, k) == Reading(w.schema, db.stats, d, k))
    && (forall d, k :: Quantity(db'.items, d, k) == Quantity(db.items, d, k))
    && db'.currency == db.currency && db'.equipped == db.equipped
  }

  // The item just taken from the inventory fits back in.
  lemma RoomToReturn(w: World, db: Db, c: CharacterId, item: string)
    requires Inv(w, db) && Quantity(db.items, c, item) >= 1
    ensures CanGrant(w.config.maxDistinctTypes, Removed(db.items, c, item, 1), c, item, 1)
  {
    hide Types;
    var removed := Removed(db.items, c, item, 1);
    RemovedQuantity(db.items, c, item, 1, c, item);
    if Quantity(db.items, c, item) == 1 {
      assert Types(removed, c) == Types(db.items, c) - {item};
    }
  }

  lemma BackInBounds(w: World, db: Db, on: Db, c: CharacterId, deltas: map<string, i64>)
    requires StatsInBounds(w.schema, db.stats)
    requires forall k :: k in deltas ==>
               Reading(w.schema, on.stats, c, k) == Reading(w.schema, db.stats, c, k) + deltas[k]
    requires forall k :: k in deltas ==> Reversed(deltas)[k] as int == -(deltas[k] as int)
    ensures DeltasAccepted(w.schema, on.stats, c, Reversed(deltas))
       <==> forall k :: k in deltas ==> WriteAccepted(w.schema, k, Reading(w.schema, db.stats, c, k))
  {
    hide WriteAccepted;
    var reversed := Reversed(deltas);
    forall k | k in deltas
      ensures DeltaAccepted(w.schema, on.stats, c, k, reversed[k])
         <==> WriteAccepted(w.schema, k, Reading(w.schema, db.stats, c, k))
    {
    }
  }

  // Two items on one unbounded stat, the first with the one delta that has no negation.
  function LopsidedWorld(): World {
    World([StatDeclaration("s", 5, None, None)], Config(2, 0),
          [EquipmentItem("low", "x", map["s" := I64_MIN]), EquipmentItem("high", "y", map["s" := I64_MAX])])
  }

  function LopsidedTables(c: CharacterId): Db {
    Db(map[(c, "low") := Stack(1, None), (c, "high") := Stack(1, None)], map[], map[], map[])
  }

  lemma LopsidedSteps(c: CharacterId)
    ensures var w, db := LopsidedWorld(), LopsidedTables(c);
            && CanEquip(w.schema, 2, w.gear, db, c, "low")
            && Resolve(w.gear, "low") == Some(w.gear[0]) && Resolve(w.gear, "high") == Some(w.gear[1])
            && var on := Equipped(w.schema, w.gear, db, c, "low");
               && on.equipped == map[(c, "x") := "low"] && Quantity(on.items, c, "high") == 1
               && CanEquip(w.schema, 2, w.gear, on, c, "high")
               && var both := Equipped(w.schema, w.gear, on, c, "high");
                  && both.equipped == map[(c, "x") := "low", (c, "y") := "high"]
                  && CanUnequip(w.schema, 2, w.gear, both, c, "x")
  {
    hide AfterSome, Types;
    var w, db := LopsidedWorld(), LopsidedTables(c);
    var low, high := map["s" := I64_MIN], map["s" := I64_MAX];
    assert Resolve(w.gear, "low") == Some(w.gear[0]);
    assert Resolve(w.gear[1..], "high") == Some(w.gear[1]);
    assert Reading(w.schema, db.stats, c, "s") == 5;
    var on := Equipped(w.schema, w.gear, db, c, "low");
    ReadingAfter(w.schema, db.stats, c, low, low.Keys, c, "s");
    assert on.stats == AfterDeltas(w.schema, db.stats, c, low);
    assert on.items == map[(c, "high") := Stack(1, None)];
    var both := Equipped(w.schema, w.gear, on, c, "high");
    ReadingAfter(w.schema, on.stats, c, high, high.Keys, c, "s");
    assert both.items == map[];
    assert Types(both.items, c) == {};
  }

  // A declared delta with no negation breaks the attribution: after three accepted steps the
  // stat less what is worn has moved by twice that delta.
  lemma UnnegatableDeltaMisattributed(c: CharacterId) returns (w: World, states: seq<Db>, ops: seq<Op>)
    ensures |ops| == 3 && Run(w, states, ops, [true, true, true]) && Inv(w, states[0])
    ensures forall op :: op in ops ==> op.Equip? || op.Unequip?
    ensures BaseStat(w, states[3], c, "s") != BaseStat(w, states[0], c, "s")
  {
    hide BaseStat, Inv, Equipped, Unequipped, CanEquip, CanUnequip, Resolve;
    w := LopsidedWorld();
    LopsidedSteps(c);
    LopsidedStart(c);
    var db := LopsidedTables(c);
    var on := Equipped(w.schema, w.gear, db, c, "low");
    var both := Equipped(w.schema, w.gear, on, c, "high");
    ops := [Equip(c, "low"), Equip(c, "high"), Unequip(c, "x")];
    states := [db, on, both, Unequipped(w.schema, w.gear, both, c, "x")];
    EquipKeepsBase(w, db, c, "low", c, "s");
    EquipKeepsBase(w, on, c, "high", c, "s");
    UnequipKeepsBase(w, both, c, "x", c, "s");
  }

  lemma LopsidedStart(c: CharacterId)
    ensures Inv(LopsidedWorld(), LopsidedTables(c))
  {
    var db := LopsidedTables(c);
    assert Types(db.items, c) == {"low", "high"};
    forall d | d != c ensures Types(db.items, d) == {} { }
  }
}
