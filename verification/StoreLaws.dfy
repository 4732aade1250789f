/** Every step of the character store in terms of rows and numbers alone: exactly when it is
    accepted, and exactly which rows change. */
module StoreLaws {
  import opened Prelude
  import opened AttributeSchema
  import opened Tables
  import opened Ledger
  import opened Trade
  import opened TradeLaws
  import opened TradeTransaction
  import opened Inventory
  import opened Crafting
  import opened Equipment
  import opened Economy
  import Slots

  // An amount is granted exactly if it is positive, the stack is there or there is room for one
  // more type, and the sum is a 64-bit number; the stack keeps its slot, a new one has none.
  lemma GrantsExactlyWhen(w: World, db: Db, c: CharacterId, k: string, n: int, ok: bool, db': Db)
    requires Checked(db) && Step(w, db, GrantItem(c, k, n), ok, db')
    ensures var held, slot := if (c, k) in db.items then db.items[(c, k)].quantity else 0,
                              if (c, k) in db.items then db.items[(c, k)].slot else None;
            && (ok <==> n > 0 && held + n <= 9223372036854775807
                        && ((c, k) in db.items
                            || |set ck | ck in db.items && ck.0 == c :: ck.1| < w.config.maxDistinctTypes))
            && db' == if ok then db.(items := db.items[(c, k) := Stack(held + n, slot)]) else db
  {
  }

  // An amount is removed exactly if it is positive and held; what remains keeps its slot, and
  // nothing remaining means no row.
  lemma RemovesExactlyWhen(w: World, db: Db, c: CharacterId, k: string, n: int, ok: bool, db': Db)
    requires Checked(db) && Step(w, db, RemoveItem(c, k, n), ok, db')
    ensures ok <==> 0 < n && (c, k) in db.items && n <= db.items[(c, k)].quantity
    ensures !ok ==> db' == db
    ensures ok ==>
              var row := db.items[(c, k)];
              db' == db.(items := if row.quantity == n then db.items - {(c, k)}
                                  else db.items[(c, k) := Stack(row.quantity - n, row.slot)])
  {
  }

  // A balance may be spent to the last unit and not below.
  lemma SpendsExactlyWhen(w: World, db: Db, c: CharacterId, k: string, delta: i64, ok: bool, db': Db)
    requires Step(w, db, ModifyCurrency(c, k, delta), ok, db')
    ensures var balance := if (c, k) in db.currency then db.currency[(c, k)] else 0;
            && (ok <==> 0 <= balance + delta <= 9223372036854775807)
            && db' == if ok then db.(currency := db.currency[(c, k) := balance + delta]) else db
  {
  }

  // The declaration of a stat is the first one of its key.
  predicate FirstDeclared(schema: Schema, i: int, key: string) {
    0 <= i < |schema| && schema[i].key == key && forall j :: 0 <= j < i ==> schema[j].key != key
  }

  lemma {:induction false} DeclaredFirst(schema: Schema, i: int, key: string)
    requires FirstDeclared(schema, i, key)
    ensures Declaration(schema, key) == Some(schema[i])
  {
    if schema[0].key != key {
      DeclaredFirst(schema[1..], i - 1, key);
    }
  }

  // What a stat reads as: the stored value, or else the default of its declaration.
  lemma ReadsStoredOrDefault(schema: Schema, stats: Stats, c: CharacterId, key: string, i: int)
    requires FirstDeclared(schema, i, key)
    ensures Reading(schema, stats, c, key) == if (c, key) in stats then stats[(c, key)] else schema[i].default
  {
    DeclaredFirst(schema, i, key);
  }

  // A declared stat is set exactly to a value that its minimum and its maximum allow.
  lemma SetsExactlyWhen(w: World, db: Db, c: CharacterId, key: string, value: i64, ok: bool, db': Db, i: int)
    requires Step(w, db, SetStat(c, key, value), ok, db') && FirstDeclared(w.schema, i, key)
    ensures ok <==> !(w.schema[i].min.Some? && value < w.schema[i].min.value)
                    && !(w.schema[i].max.Some? && value > w.schema[i].max.value)
    ensures db' == if ok then db.(stats := db.stats[(c, key) := value]) else db
  {
    DeclaredFirst(w.schema, i, key);
  }

  // And moved by a delta exactly if the sum with what it reads as is such a value, in 64 bits.
  lemma MovesExactlyWhen(w: World, db: Db, c: CharacterId, key: string, delta: i64, ok: bool, db': Db, i: int)
    requires Step(w, db, ApplyStatDelta(c, key, delta), ok, db') && FirstDeclared(w.schema, i, key)
    ensures var sum := (if (c, key) in db.stats then db.stats[(c, key)] else w.schema[i].default) + delta;
            && (ok <==> -9223372036854775808 <= sum <= 9223372036854775807
                        && !(w.schema[i].min.Some? && sum < w.schema[i].min.value)
                        && !(w.schema[i].max.Some? && sum > w.schema[i].max.value))
            && db' == if ok then db.(stats := db.stats[(c, key) := sum]) else db
  {
    DeclaredFirst(w.schema, i, key);
  }

  // A stat nobody declared is neither set nor moved.
  lemma UndeclaredRefused(w: World, db: Db, op: Op, ok: bool, db': Db)
    requires (op.SetStat? || op.ApplyStatDelta?) && Step(w, db, op, ok, db')
    requires forall d :: d in w.schema ==> d.key != op.k
    ensures !ok && db' == db
  {
  }

  // A listed requirement is met by a declared stat that reads as at least its minimum.
  ghost predicate Meets(schema: Schema, stats: Stats, c: CharacterId, stat: string, least: int) {
    exists i :: FirstDeclared(schema, i, stat)
                && least <= if (c, stat) in stats then stats[(c, stat)] else schema[i].default
  }

  lemma {:induction false} FirstOf(schema: Schema, key: string) returns (i: int)
    requires Declares(schema, key)
    ensures FirstDeclared(schema, i, key) && Declaration(schema, key) == Some(schema[i])
  {
    if schema[0].key == key {
      i := 0;
    } else {
      var rest := FirstOf(schema[1..], key);
      i := rest + 1;
    }
  }

  lemma MeetsIsNeeded(schema: Schema, stats: Stats, c: CharacterId, stat: string, least: int)
    ensures Meets(schema, stats, c, stat, least)
       <==> Declares(schema, stat) && least <= Reading(schema, stats, c, stat)
  {
    if Declares(schema, stat) {
      var i := FirstOf(schema, stat);
      forall j | FirstDeclared(schema, j, stat) ensures j == i {
      }
    } else {
      forall i ensures !FirstDeclared(schema, i, stat) {
        assert 0 <= i < |schema| ==> schema[i] in schema;
      }
    }
  }

  // An accepted craft met every requirement of its recipe, at the stats it started from.
  lemma CraftedMeetsNeeds(w: World, db: Db, c: CharacterId, recipe: Recipe, rolls: seq<bool>, db': Db)
    requires RecipeLoaded(recipe) && |rolls| == |recipe.grants|
    requires Step(w, db, Craft(c, recipe, rolls), true, db')
    ensures forall r :: r in recipe.needs ==> Meets(w.schema, db.stats, c, r.0, r.1)
  {
    hide CanRunCraft, Crafted, Declares, Reading, Meets;
    forall r | r in recipe.needs ensures Meets(w.schema, db.stats, c, r.0, r.1) {
      MeetsIsNeeded(w.schema, db.stats, c, r.0, r.1);
    }
  }

  // Requirements decide nothing else: with them a craft that would go through without is
  // refused exactly when some listed one is not met.
  lemma NeedsDecide(w: World, db: Db, c: CharacterId, recipe: Recipe, needs: Entries, rolls: seq<bool>, ok: bool,
          free: Db, db': Db)
    requires RecipeLoaded(recipe) && |rolls| == |recipe.grants|
    requires recipe.needs == [] && Step(w, db, Craft(c, recipe, rolls), true, free)
    requires Step(w, db, Craft(c, recipe.(needs := needs), rolls), ok, db')
    ensures ok <==> forall r :: r in needs ==> Meets(w.schema, db.stats, c, r.0, r.1)
    ensures db' == if ok then free else db
  {
    hide Declares, Reading, Meets, EachHeld, Consumed, GrantedStats, Types;
    forall r | r in needs
      ensures Meets(w.schema, db.stats, c, r.0, r.1)
         <==> Declares(w.schema, r.0) && r.1 <= Reading(w.schema, db.stats, c, r.0)
    {
      MeetsIsNeeded(w.schema, db.stats, c, r.0, r.1);
    }
  }

  // A craft goes through exactly if its requirements are met, each input is held by itself, the
  // output's stack is there before anything is taken or there is room for one more type then,
  // what is left of it with the output is a 64-bit number, and every grant names a declared
  // stat, save one without a ceiling whose roll misses.
  lemma CraftsExactlyWhen(w: World, db: Db, c: CharacterId, recipe: Recipe, rolls: seq<bool>, ok: bool, db': Db)
    requires Checked(db) && RecipeLoaded(recipe) && |rolls| == |recipe.grants|
    requires Step(w, db, Craft(c, recipe, rolls), ok, db')
    ensures var (k, n) := recipe.output;
            var held := if (c, k) in db.items then db.items[(c, k)].quantity else 0;
            ok <==> (forall r :: r in recipe.needs ==> Meets(w.schema, db.stats, c, r.0, r.1))
                    && (forall e :: e in recipe.inputs ==> (c, e.0) in db.items && e.1 <= db.items[(c, e.0)].quantity)
                    && ((c, k) in db.items
                        || |set ck | ck in db.items && ck.0 == c :: ck.1| < w.config.maxDistinctTypes)
                    && held - TakenOf(db.items, c, recipe.inputs, k) + n <= 9223372036854775807
                    && (forall i :: 0 <= i < |rolls| ==>
                          (exists d :: d in w.schema && d.key == recipe.grants[i].stat)
                          || (recipe.grants[i].below == None && recipe.grants[i].chance != None && !rolls[i]))
    ensures !ok ==> db' == db
    ensures ok ==> db'.currency == db.currency && db'.equipped == db.equipped
  {
    hide Consumed, TakenOf, GrantedStats, LastFor, KeysOf, Declares, Meets, Reading;
    var (k, n) := recipe.output;
    forall r | r in recipe.needs
      ensures Meets(w.schema, db.stats, c, r.0, r.1)
         <==> Declares(w.schema, r.0) && r.1 <= Reading(w.schema, db.stats, c, r.0)
    {
      MeetsIsNeeded(w.schema, db.stats, c, r.0, r.1);
    }
    forall key ensures Declares(w.schema, key) <==> exists d :: d in w.schema && d.key == key {
      DeclaresMeans(w.schema, key);
    }
    assert EachHeld(db.items, c, recipe.inputs)
      <==> forall e :: e in recipe.inputs ==> (c, e.0) in db.items && e.1 <= db.items[(c, e.0)].quantity;
    assert Types(db.items, c) == set ck | ck in db.items && ck.0 == c :: ck.1;
    if EachHeld(db.items, c, recipe.inputs) {
      ConsumedQuantity(db.items, c, recipe.inputs, c, k);
    }
  }

  lemma DeclaresMeans(schema: Schema, key: string)
    ensures Declares(schema, key) <==> exists d :: d in schema && d.key == key
  {
  }

  // A stack of which a craft leaves some stays in its slot; one used up is gone, and an output
  // without a stack starts one without a slot.
  lemma CraftedStacksStay(w: World, db: Db, c: CharacterId, recipe: Recipe, rolls: seq<bool>, db': Db, d: CharacterId,
          k: string)
    requires Checked(db) && RecipeLoaded(recipe) && |rolls| == |recipe.grants|
    requires Step(w, db, Craft(c, recipe, rolls), true, db')
    ensures var taken := if d == c then TakenOf(db.items, c, recipe.inputs, k) else 0;
            && ((d, k) in db'.items
                <==> taken < Held(db.items, d, k) || (d == c && k == recipe.output.0))
            && ((d, k) in db'.items ==>
                  db'.items[(d, k)].slot
                  == if (d, k) in db.items && taken < db.items[(d, k)].quantity then db.items[(d, k)].slot else None)
  {
    hide GrantedStats, TakenOf, Consumed;
    ConsumedQuantity(db.items, c, recipe.inputs, d, k);
    ConsumedChecked(db.items, c, recipe.inputs);
    ConsumedSlot(db.items, c, recipe.inputs, d, k);
  }

  lemma ConsumedSlot(items: Items, c: CharacterId, inputs: Entries, d: CharacterId, k: string)
    ensures (d, k) in Consumed(items, c, inputs) ==>
              (d, k) in items && Consumed(items, c, inputs)[(d, k)].slot == items[(d, k)].slot
  {
  }

  // The equipment entry of an item type is the first one that names it.
  predicate FirstItem(gear: EquipmentSchema, i: int, item: string) {
    0 <= i < |gear| && gear[i].itemType == item && forall j :: 0 <= j < i ==> gear[j].itemType != item
  }

  lemma {:induction false} ResolvesToFirst(gear: EquipmentSchema, i: int, item: string)
    requires FirstItem(gear, i, item)
    ensures Equipment.Resolve(gear, item) == Some(gear[i])
  {
    if gear[0].itemType != item {
      ResolvesToFirst(gear[1..], i - 1, item);
    }
  }

  // The stat accepts the delta, by its first declaration.
  ghost predicate Accepts(schema: Schema, stats: Stats, c: CharacterId, key: string, delta: int) {
    exists i :: FirstDeclared(schema, i, key)
                && var sum := (if (c, key) in stats then stats[(c, key)] else schema[i].default) + delta;
                   && -9223372036854775808 <= sum <= 9223372036854775807
                   && !(schema[i].min.Some? && sum < schema[i].min.value)
                   && !(schema[i].max.Some? && sum > schema[i].max.value)
  }

  lemma AcceptsIsAccepted(schema: Schema, stats: Stats, c: CharacterId, key: string, delta: int)
    ensures Accepts(schema, stats, c, key, delta) <==> DeltaAccepted(schema, stats, c, key, delta)
  {
    if Declares(schema, key) {
      var i := FirstOf(schema, key);
      forall j | FirstDeclared(schema, j, key) ensures j == i {
      }
    } else {
      forall i ensures !FirstDeclared(schema, i, key) {
        assert 0 <= i < |schema| ==> schema[i] in schema;
      }
    }
  }

  // The stats after every delta of an item, each added to what the stat read as.
  ghost predicate Raised(schema: Schema, stats: Stats, c: CharacterId, deltas: map<string, int>, stats': Stats) {
    && (forall d, k :: (d, k) in stats' <==> (d, k) in stats || (d == c && k in deltas))
    && (forall d, k :: (d, k) in stats' && !(d == c && k in deltas) ==> stats'[(d, k)] == stats[(d, k)])
    && (forall i, k :: k in deltas && FirstDeclared(schema, i, k) && (c, k) in stats' ==>
          stats'[(c, k)] == (if (c, k) in stats then stats[(c, k)] else schema[i].default) + deltas[k])
  }

  lemma DeltasRaise(schema: Schema, stats: Stats, c: CharacterId, deltas: map<string, i64>)
    ensures Raised(schema, stats, c, deltas, AfterDeltas(schema, stats, c, deltas))
  {
    hide Reading;
    forall i, k | k in deltas && FirstDeclared(schema, i, k)
      ensures Reading(schema, stats, c, k) == if (c, k) in stats then stats[(c, k)] else schema[i].default
    {
      ReadsStoredOrDefault(schema, stats, c, k, i);
    }
  }

  // Into an empty slot an item goes exactly if it is held and its stats accept its deltas: one
  // fewer is held, it is worn in its slot, and its deltas are added.
  lemma WearsExactlyWhen(w: World, db: Db, c: CharacterId, item: string, ok: bool, db': Db, i: int)
    requires Checked(db) && Step(w, db, Equip(c, item), ok, db') && FirstItem(w.gear, i, item)
    requires (c, w.gear[i].slot) !in db.equipped
    ensures ok <==> (c, item) in db.items
                    && forall k :: k in w.gear[i].statDeltas ==>
                                     Accepts(w.schema, db.stats, c, k, w.gear[i].statDeltas[k])
    ensures ok ==>
              && db'.equipped == db.equipped[(c, w.gear[i].slot) := item] && db'.currency == db.currency
              && Raised(w.schema, db.stats, c, w.gear[i].statDeltas, db'.stats)
              && db'.items == var row := db.items[(c, item)];
                              if row.quantity == 1 then db.items - {(c, item)}
                              else db.items[(c, item) := Stack(row.quantity - 1, row.slot)]
  {
    hide DeltaAccepted, AfterDeltas, Accepts, Raised;
    ResolvesToFirst(w.gear, i, item);
    var deltas := w.gear[i].statDeltas;
    forall k | k in deltas
      ensures Accepts(w.schema, db.stats, c, k, deltas[k]) <==> DeltaAccepted(w.schema, db.stats, c, k, deltas[k])
    {
      AcceptsIsAccepted(w.schema, db.stats, c, k, deltas[k]);
    }
    DeltasRaise(w.schema, db.stats, c, deltas);
  }

  // An item that no entry names is not worn, and nothing changes.
  lemma UnlistedNotWorn(w: World, db: Db, c: CharacterId, item: string, ok: bool, db': Db)
    requires Step(w, db, Equip(c, item), ok, db')
    requires (forall e :: e in w.gear ==> e.itemType != item) || (c, item) !in db.items
    ensures !ok && db' == db
  {
  }

  // What a delta is reversed by, which for the least 64-bit number is itself.
  function Undone(deltas: map<string, i64>): map<string, int> {
    map k | k in deltas :: if deltas[k] == -9223372036854775808 then deltas[k] else -deltas[k]
  }

  // A worn item comes off exactly if its stats accept the reversed deltas and it fits back; one
  // more is held, the slot is empty, and the reversed deltas are added.
  lemma ComesOffExactlyWhen(w: World, db: Db, c: CharacterId, slot: string, ok: bool, db': Db, i: int)
    requires Checked(db) && Step(w, db, Unequip(c, slot), ok, db')
    requires (c, slot) in db.equipped && FirstItem(w.gear, i, db.equipped[(c, slot)])
    ensures var item, deltas := db.equipped[(c, slot)], Undone(w.gear[i].statDeltas);
            var held := if (c, item) in db.items then db.items[(c, item)].quantity else 0;
            && (ok <==> (forall k :: k in deltas ==> Accepts(w.schema, db.stats, c, k, deltas[k]))
                        && held + 1 <= 9223372036854775807
                        && ((c, item) in db.items
                            || |set ck | ck in db.items && ck.0 == c :: ck.1| < w.config.maxDistinctTypes))
            && (ok ==>
                  && db'.equipped == db.equipped - {(c, slot)} && db'.currency == db.currency
                  && Raised(w.schema, db.stats, c, deltas, db'.stats)
                  && db'.items == db.items[(c, item) := Stack(held + 1, if (c, item) in db.items
                                                                        then db.items[(c, item)].slot else None)])
  {
    hide DeltaAccepted, AfterDeltas, Accepts, Raised;
    ResolvesToFirst(w.gear, i, db.equipped[(c, slot)]);
    var deltas := Undone(w.gear[i].statDeltas);
    assert Reversed(w.gear[i].statDeltas) == deltas;
    forall k | k in deltas
      ensures Accepts(w.schema, db.stats, c, k, deltas[k]) <==> DeltaAccepted(w.schema, db.stats, c, k, deltas[k])
    {
      AcceptsIsAccepted(w.schema, db.stats, c, k, deltas[k]);
    }
    DeltasRaise(w.schema, db.stats, c, Reversed(w.gear[i].statDeltas));
    assert Types(db.items, c) == set ck | ck in db.items && ck.0 == c :: ck.1;
  }

  // Over an occupant, an item goes on exactly if the occupant comes off and the item then goes
  // into the empty slot; the outcome is that of the two steps.
  lemma ReplacesInTwoSteps(w: World, db: Db, c: CharacterId, item: string, ok: bool, db': Db, i: int, off: bool,
          freed: Db, on: bool, worn: Db)
    requires Step(w, db, Equip(c, item), ok, db') && FirstItem(w.gear, i, item)
    requires (c, item) in db.items && Checked(db) && (c, w.gear[i].slot) in db.equipped
    requires Step(w, db, Unequip(c, w.gear[i].slot), off, freed)
    requires off ==> Step(w, freed, Equip(c, item), on, worn)
    ensures ok <==> off && on
    ensures ok ==> db' == worn
  {
    hide DeltaAccepted, DeltasAccepted, AfterDeltas, CanGrant, DeltasOf, Reversed;
    ResolvesToFirst(w.gear, i, item);
    var slot := w.gear[i].slot;
    if off {
      assert SlotCleared(w.schema, w.gear, db, c, slot) == freed;
      assert SlotCleared(w.schema, w.gear, freed, c, slot) == freed;
      StillHeld(w.schema, w.gear, db, c, slot, item);
    }
  }

  function Held(items: Items, c: CharacterId, k: string): int {
    if (c, k) in items then items[(c, k)].quantity else 0
  }

  function Owned(currency: Balances, c: CharacterId, k: string): int {
    if (c, k) in currency then currency[(c, k)] else 0
  }

  // The types a character ends with when it gives and takes these totals at once.
  function EndsWith(items: Items, c: CharacterId, given: Entries, taken: Entries): set<string> {
    set k | k in (set ck | ck in items && ck.0 == c :: ck.1) + (set e | e in taken :: e.0)
            && Held(items, c, k) - SumFor(given, k) + SumFor(taken, k) > 0
  }

  // One side of an exchange: it holds what it gives in total, ends with 64-bit numbers, and if
  // it takes a type of which it keeps nothing of its own, ends within the cap.
  ghost predicate SideFits(max: nat, db: Db, c: CharacterId, given: Offer, taken: Offer) {
    && (forall k :: SumFor(given.items, k) <= Held(db.items, c, k))
    && (forall k :: SumFor(given.currency, k) <= Owned(db.currency, c, k))
    && (forall k :: Held(db.items, c, k) - SumFor(given.items, k) + SumFor(taken.items, k) <= 9223372036854775807)
    && (forall k ::
          Owned(db.currency, c, k) - SumFor(given.currency, k) + SumFor(taken.currency, k) <= 9223372036854775807)
    && ((exists k :: SumFor(taken.items, k) > 0 && Held(db.items, c, k) == SumFor(given.items, k)) ==>
          |EndsWith(db.items, c, given.items, taken.items)| <= max)
  }

  // Two characters trade exactly if every amount is positive and both sides fit; every stack
  // and every balance then ends at what it was less what its owner gave, plus what it took.
  lemma TradesExactlyWhen(w: World, db: Db, a: CharacterId, oa: Offer, b: CharacterId, ob: Offer, ok: bool, db': Db)
    requires Checked(db) && a != b && Step(w, db, Economy.Trade(a, oa, b, ob), ok, db')
    ensures ok <==> (forall e :: e in oa.items || e in oa.currency || e in ob.items || e in ob.currency ==> e.1 >= 1)
                    && SideFits(w.config.maxDistinctTypes, db, a, oa, ob)
                    && SideFits(w.config.maxDistinctTypes, db, b, ob, oa)
    ensures !ok ==> db' == db
    ensures ok ==> forall k ::
              && Held(db'.items, a, k) == Held(db.items, a, k) - SumFor(oa.items, k) + SumFor(ob.items, k)
              && Held(db'.items, b, k) == Held(db.items, b, k) - SumFor(ob.items, k) + SumFor(oa.items, k)
              && Owned(db'.currency, a, k) == Owned(db.currency, a, k) - SumFor(oa.currency, k) + SumFor(ob.currency, k)
              && Owned(db'.currency, b, k) == Owned(db.currency, b, k) - SumFor(ob.currency, k) + SumFor(oa.currency, k)
    ensures ok ==> forall d, k :: d != a && d != b ==>
              Held(db'.items, d, k) == Held(db.items, d, k) && Owned(db'.currency, d, k) == Owned(db.currency, d, k)
    ensures ok ==> db'.stats == db.stats && db'.equipped == db.equipped
  {
    hide SumFor, KeysOf, GoesThrough, Traded, Types, FinalTypes, SideFits, EndsWith, CanTake, CanTakeBalance, Covers,
         CoversBalance;
    TradeSucceedsExactlyWhen(w.config.maxDistinctTypes, db, a, oa, b, ob);
    if AllAmountsPositive(oa, ob) {
      SideIsCovered(w.config.maxDistinctTypes, db, a, oa, ob);
      SideIsCovered(w.config.maxDistinctTypes, db, b, ob, oa);
    }
    if ok {
      forall d, k
        ensures Held(db'.items, d, k) == Held(db.items, d, k) + Moved(a, oa.items, b, ob.items, d, k)
        ensures Owned(db'.currency, d, k) == Owned(db.currency, d, k) + Moved(a, oa.currency, b, ob.currency, d, k)
      {
        TradedAmounts(w.config.maxDistinctTypes, db, a, oa, b, ob, d, k);
      }
      TradeExchanges(w.config.maxDistinctTypes, db, a, oa, b, ob);
    }
  }

  lemma TradedAmounts(max: nat, db: Db, a: CharacterId, oa: Offer, b: CharacterId, ob: Offer, d: CharacterId, k: string)
    requires Checked(db) && GoesThrough(max, db, a, oa, b, ob)
    ensures Held(Traded(db, a, oa, b, ob).items, d, k)
         == Held(db.items, d, k) + Moved(a, oa.items, b, ob.items, d, k)
    ensures Owned(Traded(db, a, oa, b, ob).currency, d, k)
         == Owned(db.currency, d, k) + Moved(a, oa.currency, b, ob.currency, d, k)
  {
    hide GoesThrough, Traded, Moved;
    TradeExchanges(max, db, a, oa, b, ob);
    var traded := Traded(db, a, oa, b, ob);
    assert Quantity(traded.items, d, k) == Quantity(db.items, d, k) + Moved(a, oa.items, b, ob.items, d, k);
    assert Balance(traded.currency, d, k) == Balance(db.currency, d, k) + Moved(a, oa.currency, b, ob.currency, d, k);
  }

  lemma SideIsCovered(max: nat, db: Db, c: CharacterId, given: Offer, taken: Offer)
    requires Checked(db) && AllPositive(given.items) && AllPositive(given.currency)
    requires AllPositive(taken.items) && AllPositive(taken.currency)
    ensures SideFits(max, db, c, given, taken)
       <==> Covers(db.items, c, given.items) && CoversBalance(db.currency, c, given.currency)
            && CanTake(max, db.items, c, given.items, taken.items)
            && CanTakeBalance(db.currency, c, given.currency, taken.currency)
  {
    hide SumFor, KeysOf, Types, FinalTypes, EndsWith;
    TradeLaws.Unlisted(given.items);
    TradeLaws.Unlisted(given.currency);
    TradeLaws.Unlisted(taken.items);
    TradeLaws.Unlisted(taken.currency);
    SameEnd(db.items, c, given.items, taken.items);
    assert forall k :: Held(db.items, c, k) == Quantity(db.items, c, k) && 0 <= Held(db.items, c, k) <= I64_MAX;
    assert forall k ::
        Owned(db.currency, c, k) == Balance(db.currency, c, k) && 0 <= Owned(db.currency, c, k) <= I64_MAX;
  }

  lemma SameEnd(items: Items, c: CharacterId, given: Entries, taken: Entries)
    ensures EndsWith(items, c, given, taken) == FinalTypes(items, c, given, taken)
  {
    hide SumFor;
    assert KeysOf(taken) == set e | e in taken :: e.0;
  }

  // A stack of which its owner keeps some stays in its slot; one that a trade opens has none.
  lemma TradedStacksStay(w: World, db: Db, a: CharacterId, oa: Offer, b: CharacterId, ob: Offer, db': Db,
          d: CharacterId, k: string)
    requires Checked(db) && a != b && Step(w, db, Economy.Trade(a, oa, b, ob), true, db')
    ensures var given := if d == a then SumFor(oa.items, k) else if d == b then SumFor(ob.items, k) else 0;
            && ((d, k) in db'.items <==> Held(db'.items, d, k) > 0)
            && ((d, k) in db'.items ==>
                  db'.items[(d, k)].slot
                  == if (d, k) in db.items && given < db.items[(d, k)].quantity then db.items[(d, k)].slot else None)
  {
    hide SumFor, KeysOf, HasRoom, HasBalanceRoom, Types;
    TradeKeepsChecks(w.config.maxDistinctTypes, db, a, oa, b, ob);
    SumForListed(oa.items, k);
    SumForListed(ob.items, k);
  }

  // The reports of a trade between two: every type and currency either offer lists, with what
  // the character has of it in the end.
  lemma TradeReportMeans(items: Changes, balances: Changes, oa: Offer, ob: Offer, db: Db, c: CharacterId, k: string)
    requires ReportsItems(items, oa, ob, db, c) && ReportsBalances(balances, oa, ob, db, c)
    ensures k in items <==> exists e :: (e in oa.items || e in ob.items) && e.0 == k
    ensures k in items ==> items[k] == Held(db.items, c, k)
    ensures k in balances <==> exists e :: (e in oa.currency || e in ob.currency) && e.0 == k
    ensures k in balances ==> balances[k] == Owned(db.currency, c, k)
  {
  }

  // And of a trade with oneself, which ends with what it began with: the first report is off by
  // what the first offer gave of a type that the second does not list, the second by what the
  // second offer gave.
  lemma SelfTradeReportMeans(report: TradeReport, oa: Offer, ob: Offer, db: Db, c: CharacterId, k: string)
    requires SelfReports(report, oa, ob, db, c)
    ensures k in report.aItems <==> exists e :: (e in oa.items || e in ob.items) && e.0 == k
    ensures k in report.bItems <==> exists e :: (e in oa.items || e in ob.items) && e.0 == k
    ensures k in report.aItems ==>
              report.aItems[k] + (if exists e :: e in ob.items && e.0 == k then 0 else SumFor(oa.items, k))
              == Held(db.items, c, k)
    ensures k in report.bItems ==> report.bItems[k] + SumFor(ob.items, k) == Held(db.items, c, k)
    ensures k in report.aCurrency <==> exists e :: (e in oa.currency || e in ob.currency) && e.0 == k
    ensures k in report.bCurrency <==> exists e :: (e in oa.currency || e in ob.currency) && e.0 == k
    ensures k in report.aCurrency ==>
              report.aCurrency[k] + (if exists e :: e in ob.currency && e.0 == k then 0 else SumFor(oa.currency, k))
              == Owned(db.currency, c, k)
    ensures k in report.bCurrency ==> report.bCurrency[k] + SumFor(ob.currency, k) == Owned(db.currency, c, k)
  {
    hide SumFor;
  }

  predicate LastEntry(entries: Entries, i: int, k: string) {
    0 <= i < |entries| && entries[i].0 == k && forall j :: i < j < |entries| ==> entries[j].0 != k
  }

  lemma {:induction false} LastForIsLast(entries: Entries, i: int, k: string)
    requires LastEntry(entries, i, k)
    ensures LastFor(entries, k) == Some(entries[i].1)
  {
    var n := |entries| - 1;
    if i < n {
      assert LastEntry(entries[..n], i, k);
      LastForIsLast(entries[..n], i, k);
    }
  }

  lemma {:induction false} LastOf(entries: Entries, k: string) returns (i: int)
    requires exists e :: e in entries && e.0 == k
    ensures LastEntry(entries, i, k)
  {
    var n := |entries| - 1;
    if entries[n].0 == k {
      i := n;
    } else {
      i := LastOf(entries[..n], k);
    }
  }

  // The report of a craft: for each input what was held of it less what is listed, then what
  // is held of the output; the last entry of each reported stat is its value, and no other
  // stat has changed.
  lemma CraftReportMeans(report: Changed, schema: Schema, before: Db, after: Db, c: CharacterId, recipe: Recipe)
    requires CraftReported(report, schema, before, after, c, recipe)
    ensures |report.items| == |recipe.inputs| + 1
    ensures forall i :: 0 <= i < |recipe.inputs| ==>
              && report.items[i].0 == recipe.inputs[i].0
              && report.items[i].1 + recipe.inputs[i].1 == Held(before.items, c, recipe.inputs[i].0)
    ensures report.items[|recipe.inputs|] == (recipe.output.0, Held(after.items, c, recipe.output.0))
    ensures forall i, k :: LastEntry(report.stats, i, k) ==>
              (c, k) in after.stats && after.stats[(c, k)] == report.stats[i].1
    ensures forall d, k :: (d != c || forall e :: e in report.stats ==> e.0 != k) ==>
              && ((d, k) in after.stats <==> (d, k) in before.stats)
              && ((d, k) in after.stats ==> after.stats[(d, k)] == before.stats[(d, k)])
  {
    hide LastFor;
    forall i, k | LastEntry(report.stats, i, k)
      ensures (c, k) in after.stats && after.stats[(c, k)] == report.stats[i].1
    {
      LastForIsLast(report.stats, i, k);
      assert report.stats[i] in report.stats && k in KeysOf(report.stats);
    }
  }

  // The reports of equips and unequips: an entry for every stat with a delta, whose last one is
  // what the stat reads as in the end.
  lemma StatReportMeans(changes: Entries, schema: Schema, stats: Stats, c: CharacterId, keys: set<string>, k: string,
          n: int)
    requires ReportsStatsLast(changes, schema, stats, c, keys) && FirstDeclared(schema, n, k)
    ensures (exists e :: e in changes && e.0 == k) <==> k in keys
    ensures forall i :: LastEntry(changes, i, k) ==>
              changes[i].1 == if (c, k) in stats then stats[(c, k)] else schema[n].default
  {
    hide LastFor, Reading;
    ReadsStoredOrDefault(schema, stats, c, k, n);
    forall i | LastEntry(changes, i, k)
      ensures changes[i].1 == if (c, k) in stats then stats[(c, k)] else schema[n].default
    {
      LastForIsLast(changes, i, k);
      assert changes[i] in changes && k in KeysOf(changes);
    }
  }

  // Where no stat is written twice, that is every entry.
  lemma ReportedOnce(changes: Entries, schema: Schema, stats: Stats, c: CharacterId, keys: set<string>, i: int, j: int)
    requires ReportsStats(changes, schema, stats, c, keys)
    requires 0 <= i < |changes| && 0 <= j < |changes| && changes[i].0 == changes[j].0
    ensures i == j && LastEntry(changes, i, changes[i].0)
    ensures ReportsStatsLast(changes, schema, stats, c, keys)
  {
    hide Reading;
    forall k | k in keys ensures LastFor(changes, k) == Some(Reading(schema, stats, c, k)) {
      var m := LastOf(changes, k);
      LastForIsLast(changes, m, k);
      assert changes[m] in changes;
    }
  }
}
