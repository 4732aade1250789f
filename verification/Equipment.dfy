/** Which equips and unequips go through, and the tables after them. Neither runs in a
    transaction: what a refused one leaves behind is part of the model. */
module Equipment {
  import opened Prelude
  import opened AttributeSchema
  import opened Tables
  import opened Ledger
  import opened Inventory

  datatype EquipmentItem = EquipmentItem(itemType: string, slot: string, statDeltas: map<string, i64>)

  type EquipmentSchema = seq<EquipmentItem>

  function Resolve(gear: EquipmentSchema, itemType: string): (r: Option<EquipmentItem>)
    ensures r.Some? ==> r.value in gear && r.value.itemType == itemType
    ensures r.None? ==> forall e :: e in gear ==> e.itemType != itemType
  {
    if gear == [] then None
    else if gear[0].itemType == itemType then Some(gear[0])
    else Resolve(gear[1..], itemType)
  }

  // An item no longer declared has no deltas to reverse.
  function DeltasOf(gear: EquipmentSchema, itemType: string): map<string, i64> {
    var e := Resolve(gear, itemType);
    if e.Some? then e.value.statDeltas else map[]
  }

  function Reversed(deltas: map<string, i64>): map<string, i64> {
    map k | k in deltas :: WrappingNeg(deltas[k])
  }

  predicate DeltasAccepted(schema: Schema, stats: Stats, c: CharacterId, deltas: map<string, i64>) {
    forall k :: k in deltas ==> DeltaAccepted(schema, stats, c, k, deltas[k])
  }

  function Rows(c: CharacterId, keys: set<string>): (r: set<(CharacterId, string)>)
    ensures forall d, k :: (d, k) in r <==> d == c && k in keys
  {
    set k | k in keys :: (c, k)
  }

  // The stats once the deltas of the stats in `done` are written.
  function AfterSome(schema: Schema, stats: Stats, c: CharacterId, deltas: map<string, i64>, done: set<string>): Stats
    requires done <= deltas.Keys
  {
    map ck | ck in stats.Keys + Rows(c, done) ::
      if ck.0 == c && ck.1 in done then Reading(schema, stats, c, ck.1) + deltas[ck.1] else stats[ck]
  }

  function AfterDeltas(schema: Schema, stats: Stats, c: CharacterId, deltas: map<string, i64>): Stats {
    AfterSome(schema, stats, c, deltas, deltas.Keys)
  }

  lemma NoDeltas(schema: Schema, stats: Stats, c: CharacterId, deltas: map<string, i64>)
    ensures AfterSome(schema, stats, c, deltas, {}) == stats
  {
  }

  // Deltas on different stats do not disturb one another: one more is one more write, accepted
  // or not whatever came before it.
  lemma OneMoreDelta(schema: Schema, stats: Stats, c: CharacterId, deltas: map<string, i64>, done: set<string>,
          k: string)
    requires done <= deltas.Keys && k in deltas && k !in done
    ensures var before := AfterSome(schema, stats, c, deltas, done);
            && AfterSome(schema, stats, c, deltas, done + {k})
               == before[(c, k) := Reading(schema, before, c, k) + deltas[k]]
            && Reading(schema, before, c, k) == Reading(schema, stats, c, k)
  {
    hide Declaration, Rows;
  }

  lemma ReadingAfter(schema: Schema, stats: Stats, c: CharacterId, deltas: map<string, i64>, done: set<string>,
          d: CharacterId, k: string)
    requires done <= deltas.Keys && forall j :: j in done ==> DeltaAccepted(schema, stats, c, j, deltas[j])
    ensures Reading(schema, AfterSome(schema, stats, c, deltas, done), d, k)
         == Reading(schema, stats, d, k) + if d == c && k in done then deltas[k] else 0
  {
  }

  // A report of writes to different stats gives each stat's value in the table.
  predicate ReportsStats(changes: Entries, schema: Schema, stats: Stats, c: CharacterId, keys: set<string>) {
    DistinctKeys(changes) && KeysOf(changes) == keys
    && forall e :: e in changes ==> e.1 == Reading(schema, stats, c, e.0)
  }

  lemma ReportOneMore(changes: Entries, schema: Schema, stats: Stats, c: CharacterId, keys: set<string>, k: string,
          value: int)
    requires ReportsStats(changes, schema, stats, c, keys) && k !in keys && Declares(schema, k)
    ensures ReportsStats(changes + [(k, value)], schema, stats[(c, k) := value], c, keys + {k})
  {
    assert forall e :: e in changes ==> e.0 in KeysOf(changes);
    assert forall e :: e in changes + [(k, value)] <==> e in changes || e == (k, value);
    assert KeysOf(changes + [(k, value)]) == keys + {k};
  }

  // One turn of the loop over the deltas.
  lemma DeltaStep(changes: Entries, schema: Schema, stats: Stats, c: CharacterId, deltas: map<string, i64>,
          done: set<string>, k: string)
    requires done <= deltas.Keys && k in deltas && k !in done
    requires ReportsStats(changes, schema, AfterSome(schema, stats, c, deltas, done), c, done)
    ensures var before := AfterSome(schema, stats, c, deltas, done);
            var value := Reading(schema, before, c, k) + deltas[k];
            && (DeltaAccepted(schema, before, c, k, deltas[k]) <==> DeltaAccepted(schema, stats, c, k, deltas[k]))
            && (DeltaAccepted(schema, stats, c, k, deltas[k]) ==>
                  && before[(c, k) := value] == AfterSome(schema, stats, c, deltas, done + {k})
                  && ReportsStats(changes + [(k, value)], schema, before[(c, k) := value], c, done + {k}))
  {
    hide AfterSome, Reading, ReportsStats;
    OneMoreDelta(schema, stats, c, deltas, done, k);
    if DeltaAccepted(schema, stats, c, k, deltas[k]) {
      var before := AfterSome(schema, stats, c, deltas, done);
      ReportOneMore(changes, schema, before, c, done, k, Reading(schema, before, c, k) + deltas[k]);
    }
  }

  // A report of writes some of which repeat a stat gives each stat's value in the table last.
  predicate ReportsStatsLast(changes: Entries, schema: Schema, stats: Stats, c: CharacterId, keys: set<string>) {
    KeysOf(changes) == keys && forall k :: k in keys ==> LastFor(changes, k) == Some(Reading(schema, stats, c, k))
  }

  lemma {:induction false} ReportJoined(earlier: Entries, later: Entries, schema: Schema, before: Stats, stats: Stats,
          c: CharacterId, k: string)
    requires DistinctKeys(earlier) && forall e :: e in earlier ==> e.1 == Reading(schema, before, c, e.0)
    requires DistinctKeys(later) && forall e :: e in later ==> e.1 == Reading(schema, stats, c, e.0)
    requires forall j :: j !in KeysOf(later) ==> Reading(schema, before, c, j) == Reading(schema, stats, c, j)
    ensures KeysOf(earlier + later) == KeysOf(earlier) + KeysOf(later)
    ensures k in KeysOf(earlier + later) ==> LastFor(earlier + later, k) == Some(Reading(schema, stats, c, k))
  {
    hide Reading;
    assert KeysOf(earlier + later) == KeysOf(earlier) + KeysOf(later);
    if k in KeysOf(later) {
      LastAmong(earlier, later, k);
    } else if k in KeysOf(earlier) {
      LastBefore(earlier, later, k);
      LastAmong([], earlier, k);
      assert [] + earlier == earlier;
    }
  }

  lemma {:induction false} LastAmong(earlier: Entries, later: Entries, k: string)
    requires k in KeysOf(later)
    ensures LastFor(earlier + later, k).Some? && (k, LastFor(earlier + later, k).value) in later
  {
    var n := |later| - 1;
    assert (earlier + later)[..|earlier + later| - 1] == earlier + later[..n];
    if later[n].0 != k {
      assert later == later[..n] + [later[n]];
      LastAmong(earlier, later[..n], k);
    }
  }

  lemma {:induction false} LastBefore(earlier: Entries, later: Entries, k: string)
    requires k !in KeysOf(later)
    ensures LastFor(earlier + later, k) == LastFor(earlier, k)
  {
    if later == [] {
      assert earlier + later == earlier;
    } else {
      var n := |later| - 1;
      assert (earlier + later)[..|earlier + later| - 1] == earlier + later[..n];
      assert later[n] in later;
      LastBefore(earlier, later[..n], k);
    }
  }

  // Reversing the worn item's deltas is accepted and it fits back into the inventory.
  predicate CanUnequip(schema: Schema, max: nat, gear: EquipmentSchema, db: Db, c: CharacterId, slot: string) {
    && (c, slot) in db.equipped
    && DeltasAccepted(schema, db.stats, c, Reversed(DeltasOf(gear, db.equipped[(c, slot)])))
    && CanGrant(max, db.items, c, db.equipped[(c, slot)], 1)
  }

  function Unequipped(schema: Schema, gear: EquipmentSchema, db: Db, c: CharacterId, slot: string): Db
    requires (c, slot) in db.equipped
  {
    var item := db.equipped[(c, slot)];
    db.(stats := AfterDeltas(schema, db.stats, c, Reversed(DeltasOf(gear, item))),
        items := Granted(db.items, c, item, 1),
        equipped := db.equipped - {(c, slot)})
  }

  // The tables once the target slot is free.
  function SlotCleared(schema: Schema, gear: EquipmentSchema, db: Db, c: CharacterId, slot: string): Db {
    if (c, slot) in db.equipped then Unequipped(schema, gear, db, c, slot) else db
  }

  predicate CanEquip(schema: Schema, max: nat, gear: EquipmentSchema, db: Db, c: CharacterId, item: string) {
    && Resolve(gear, item).Some?
    && Quantity(db.items, c, item) >= 1
    && var slot := Resolve(gear, item).value.slot;
       && ((c, slot) in db.equipped ==> CanUnequip(schema, max, gear, db, c, slot))
       && DeltasAccepted(schema, SlotCleared(schema, gear, db, c, slot).stats, c, DeltasOf(gear, item))
  }

  lemma StillHeld(schema: Schema, gear: EquipmentSchema, db: Db, c: CharacterId, slot: string, item: string)
    ensures Quantity(SlotCleared(schema, gear, db, c, slot).items, c, item) >= Quantity(db.items, c, item)
  {
  }

  function Equipped(schema: Schema, gear: EquipmentSchema, db: Db, c: CharacterId, item: string): Db
    requires Resolve(gear, item).Some? && Quantity(db.items, c, item) >= 1
  {
    var slot := Resolve(gear, item).value.slot;
    var cleared := SlotCleared(schema, gear, db, c, slot);
    StillHeld(schema, gear, db, c, slot, item);
    cleared.(stats := AfterDeltas(schema, cleared.stats, c, DeltasOf(gear, item)),
             items := Removed(cleared.items, c, item, 1),
             equipped := cleared.equipped[(c, slot) := item])
  }

  // The deltas in `done` written, every one of them acceptable, and nothing else changed.
  predicate StoppedAt(schema: Schema, db: Db, c: CharacterId, deltas: map<string, i64>, done: set<string>, db': Db) {
    && done <= deltas.Keys
    && (forall k :: k in done ==> DeltaAccepted(schema, db.stats, c, k, deltas[k]))
    && db' == db.(stats := AfterSome(schema, db.stats, c, deltas, done))
  }

  ghost predicate PartlyApplied(schema: Schema, db: Db, c: CharacterId, deltas: map<string, i64>, db': Db) {
    exists done: set<string> :: StoppedAt(schema, db, c, deltas, done, db')
  }

  lemma StoppedAfter(schema: Schema, db: Db, c: CharacterId, deltas: map<string, i64>, done: set<string>)
    requires done <= deltas.Keys && forall k :: k in done ==> DeltaAccepted(schema, db.stats, c, k, deltas[k])
    ensures PartlyApplied(schema, db, c, deltas, db.(stats := AfterSome(schema, db.stats, c, deltas, done)))
  {
    assert StoppedAt(schema, db, c, deltas, done, db.(stats := AfterSome(schema, db.stats, c, deltas, done)));
  }

  function ReversedFor(gear: EquipmentSchema, db: Db, c: CharacterId, slot: string): map<string, i64>
    requires (c, slot) in db.equipped
  {
    Reversed(DeltasOf(gear, db.equipped[(c, slot)]))
  }

  // What a refused unequip leaves: with nothing worn, the tables as they were; with a delta
  // refused, the worn item still worn and some acceptable deltas reversed; with only the
  // return refused, the item still worn and every delta reversed.
  ghost predicate UnequipRefused(schema: Schema, gear: EquipmentSchema, db: Db, c: CharacterId, slot: string, db': Db) {
    if (c, slot) !in db.equipped then db' == db
    else if DeltasAccepted(schema, db.stats, c, ReversedFor(gear, db, c, slot))
    then db' == db.(stats := AfterDeltas(schema, db.stats, c, ReversedFor(gear, db, c, slot)))
    else PartlyApplied(schema, db, c, ReversedFor(gear, db, c, slot), db')
  }

  // Either way some of the reversals were written, and nothing else.
  lemma RefusedIsPartly(schema: Schema, gear: EquipmentSchema, db: Db, c: CharacterId, slot: string, db': Db)
    requires (c, slot) in db.equipped && UnequipRefused(schema, gear, db, c, slot, db')
    ensures PartlyApplied(schema, db, c, ReversedFor(gear, db, c, slot), db')
  {
    hide AfterSome, DeltaAccepted, DeltasOf, Reversed;
    var deltas := ReversedFor(gear, db, c, slot);
    if DeltasAccepted(schema, db.stats, c, deltas) {
      StoppedAfter(schema, db, c, deltas, deltas.Keys);
    }
  }

  ghost predicate UnequipOutcome(schema: Schema, max: nat, gear: EquipmentSchema, db: Db, c: CharacterId,
          slot: string, ok: bool, db': Db)
  {
    && (ok <==> CanUnequip(schema, max, gear, db, c, slot))
    && (ok ==> db' == Unequipped(schema, gear, db, c, slot))
    && (!ok ==> UnequipRefused(schema, gear, db, c, slot, db'))
  }

  // What a refused equip leaves: nothing changed if the item is not equippable or not held;
  // what the refused unequip of the occupant leaves; or the slot cleared and some acceptable
  // deltas of the new item written.
  ghost predicate EquipRefused(schema: Schema, max: nat, gear: EquipmentSchema, db: Db, c: CharacterId, item: string,
          db': Db)
  {
    if Resolve(gear, item).None? || Quantity(db.items, c, item) < 1 then db' == db
    else
      var slot := Resolve(gear, item).value.slot;
      if (c, slot) in db.equipped && !CanUnequip(schema, max, gear, db, c, slot)
      then UnequipRefused(schema, gear, db, c, slot, db')
      else PartlyApplied(schema, SlotCleared(schema, gear, db, c, slot), c, DeltasOf(gear, item), db')
  }

  ghost predicate EquipOutcome(schema: Schema, max: nat, gear: EquipmentSchema, db: Db, c: CharacterId, item: string,
          ok: bool, db': Db)
  {
    && (ok <==> CanEquip(schema, max, gear, db, c, item))
    && (ok ==> db' == Equipped(schema, gear, db, c, item))
    && (!ok ==> EquipRefused(schema, max, gear, db, c, item, db'))
  }

  // Every delta that would be written is zero and lands on a stat already stored.
  predicate WritesNothingNew(schema: Schema, stats: Stats, c: CharacterId, deltas: map<string, i64>) {
    forall k :: k in deltas && DeltaAccepted(schema, stats, c, k, deltas[k]) ==> (c, k) in stats && deltas[k] == 0
  }

  lemma PartlyAppliedUnchanged(schema: Schema, db: Db, c: CharacterId, deltas: map<string, i64>)
    ensures (forall db' :: PartlyApplied(schema, db, c, deltas, db') ==> db' == db)
       <==> WritesNothingNew(schema, db.stats, c, deltas)
  {
    hide AfterSome, DeltaAccepted;
    if WritesNothingNew(schema, db.stats, c, deltas) {
      forall db' | PartlyApplied(schema, db, c, deltas, db') ensures db' == db {
        var done :| StoppedAt(schema, db, c, deltas, done, db');
        IdleDeltas(schema, db.stats, c, deltas, done);
      }
    } else {
      var k :| k in deltas && DeltaAccepted(schema, db.stats, c, k, deltas[k])
          && !((c, k) in db.stats && deltas[k] == 0);
      StoppedAfter(schema, db, c, deltas, {k});
      OneDeltaShows(schema, db.stats, c, deltas, k);
    }
  }

  lemma IdleDeltas(schema: Schema, stats: Stats, c: CharacterId, deltas: map<string, i64>, done: set<string>)
    requires done <= deltas.Keys
    requires forall k :: k in done ==>
               DeltaAccepted(schema, stats, c, k, deltas[k]) && (c, k) in stats && deltas[k] == 0
    ensures AfterSome(schema, stats, c, deltas, done) == stats
  {
  }

  lemma OneDeltaShows(schema: Schema, stats: Stats, c: CharacterId, deltas: map<string, i64>, k: string)
    requires k in deltas && DeltaAccepted(schema, stats, c, k, deltas[k]) && !((c, k) in stats && deltas[k] == 0)
    ensures AfterSome(schema, stats, c, deltas, {k}) != stats
  {
    var after := AfterSome(schema, stats, c, deltas, {k});
    assert (c, k) in after && after[(c, k)] == Reading(schema, stats, c, k) + deltas[k];
  }

  // A refused unequip leaves the tables as they were, in whatever order the deltas are
  // written, exactly when nothing is worn there or no acceptable delta changes anything.
  lemma UnequipRefusalUnchangedExactlyWhen(schema: Schema, max: nat, gear: EquipmentSchema, db: Db, c: CharacterId,
          slot: string)
    requires !CanUnequip(schema, max, gear, db, c, slot)
    ensures (forall db' :: UnequipRefused(schema, gear, db, c, slot, db') ==> db' == db)
       <==> (c, slot) !in db.equipped || WritesNothingNew(schema, db.stats, c, ReversedFor(gear, db, c, slot))
  {
    hide AfterSome, DeltaAccepted, DeltasOf, Reversed;
    if (c, slot) in db.equipped {
      var deltas := ReversedFor(gear, db, c, slot);
      if DeltasAccepted(schema, db.stats, c, deltas) {
        var after := db.(stats := AfterDeltas(schema, db.stats, c, deltas));
        AllDeltasShow(schema, db.stats, c, deltas);
        assert UnequipRefused(schema, gear, db, c, slot, after);
      } else {
        forall db' ensures UnequipRefused(schema, gear, db, c, slot, db') == PartlyApplied(schema, db, c, deltas, db') {
        }
        PartlyAppliedUnchanged(schema, db, c, deltas);
      }
    }
  }

  lemma AllDeltasShow(schema: Schema, stats: Stats, c: CharacterId, deltas: map<string, i64>)
    requires DeltasAccepted(schema, stats, c, deltas)
    ensures AfterDeltas(schema, stats, c, deltas) == stats <==> WritesNothingNew(schema, stats, c, deltas)
  {
    var after := AfterDeltas(schema, stats, c, deltas);
    if !WritesNothingNew(schema, stats, c, deltas) {
      var k :| k in deltas && DeltaAccepted(schema, stats, c, k, deltas[k]) && !((c, k) in stats && deltas[k] == 0);
      assert (c, k) in after && after[(c, k)] == Reading(schema, stats, c, k) + deltas[k];
    } else {
      IdleDeltas(schema, stats, c, deltas, deltas.Keys);
    }
  }

  // And a refused equip: exactly when the item is not equippable or not held, or no write
  // before the refusal, of the occupant's deltas or of its own, changes anything; once an
  // occupant has been taken off, the tables have changed.
  lemma EquipRefusalUnchangedExactlyWhen(schema: Schema, max: nat, gear: EquipmentSchema, db: Db, c: CharacterId,
          item: string)
    requires !CanEquip(schema, max, gear, db, c, item)
    ensures (forall db' :: EquipRefused(schema, max, gear, db, c, item, db') ==> db' == db)
       <==> || Resolve(gear, item).None? || Quantity(db.items, c, item) < 1
            || EquipWritesNothingNew(schema, max, gear, db, c, item)
  {
    hide AfterSome, DeltaAccepted, DeltasOf, Reversed, CanUnequip, Granted, Quantity, WritesNothingNew, UnequipRefused;
    if Resolve(gear, item).Some? && Quantity(db.items, c, item) >= 1 {
      var slot := Resolve(gear, item).value.slot;
      if (c, slot) in db.equipped {
        if CanUnequip(schema, max, gear, db, c, slot) {
          var cleared := SlotCleared(schema, gear, db, c, slot);
          NothingApplied(schema, cleared, c, DeltasOf(gear, item));
          assert EquipRefused(schema, max, gear, db, c, item, cleared);
          assert (c, slot) !in cleared.equipped;
        } else {
          forall db'
            ensures EquipRefused(schema, max, gear, db, c, item, db') == UnequipRefused(schema, gear, db, c, slot, db')
          {
          }
          UnequipRefusalUnchangedExactlyWhen(schema, max, gear, db, c, slot);
        }
      } else {
        forall db' ensures EquipRefused(schema, max, gear, db, c, item, db')
                        == PartlyApplied(schema, db, c, DeltasOf(gear, item), db')
        {
        }
        PartlyAppliedUnchanged(schema, db, c, DeltasOf(gear, item));
      }
    }
  }

  predicate EquipWritesNothingNew(schema: Schema, max: nat, gear: EquipmentSchema, db: Db, c: CharacterId,
          item: string)
    requires Resolve(gear, item).Some?
  {
    var slot := Resolve(gear, item).value.slot;
    if (c, slot) in db.equipped
    then !CanUnequip(schema, max, gear, db, c, slot)
        && WritesNothingNew(schema, db.stats, c, ReversedFor(gear, db, c, slot))
    else WritesNothingNew(schema, db.stats, c, DeltasOf(gear, item))
  }

  lemma NothingApplied(schema: Schema, db: Db, c: CharacterId, deltas: map<string, i64>)
    ensures PartlyApplied(schema, db, c, deltas, db)
  {
    NoDeltas(schema, db.stats, c, deltas);
    StoppedAfter(schema, db, c, deltas, {});
  }

  // An equip refused for one stat can leave another one raised.
  lemma RefusedEquipLeavesTraces(c: CharacterId) returns (schema: Schema, gear: EquipmentSchema, db: Db, db': Db)
    ensures Quantity(db.items, c, "hat") == 1 && Checked(db)
    ensures EquipOutcome(schema, 10, gear, db, c, "hat", false, db') && db' != db
    ensures Reading(schema, db'.stats, c, "luck") == Reading(schema, db.stats, c, "luck") + 1
  {
    var deltas := map["luck" := 1, "weight" := 1];
    schema := [StatDeclaration("luck", 0, None, None), StatDeclaration("weight", 0, None, Some(0))];
    gear := [EquipmentItem("hat", "head", deltas)];
    db := Db(map[(c, "hat") := Stack(1, None)], map[], map[], map[]);
    assert schema[1..] == [schema[1]];
    assert Declaration(schema, "weight") == Some(schema[1]);
    db' := db.(stats := AfterSome(schema, db.stats, c, deltas, {"luck"}));
    assert DeltaAccepted(schema, db.stats, c, "luck", 1) && !DeltaAccepted(schema, db.stats, c, "weight", 1);
    StoppedAfter(schema, db, c, deltas, {"luck"});
    assert Resolve(gear, "hat") == Some(gear[0]);
    assert SlotCleared(schema, gear, db, c, "head") == db && DeltasOf(gear, "hat") == deltas;
    assert "weight" in deltas && !DeltasAccepted(schema, db.stats, c, deltas);
    OneDeltaShows(schema, db.stats, c, deltas, "luck");
  }
}
