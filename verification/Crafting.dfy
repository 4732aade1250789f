/** The steps of a craft transaction on the tables it works on, and what a craft amounts to. */
module Crafting {
  import opened Prelude
  import opened AttributeSchema
  import opened Tables
  import opened Ledger
  import opened Inventory

  // `chance` is a probability; which way the roll falls is an input of the model.
  datatype StatGrant = StatGrant(stat: string, amount: i64, below: Option<i64>, chance: Option<real>)

  datatype Recipe = Recipe(inputs: Entries, output: (string, int), needs: Entries, grants: seq<StatGrant>)

  // What an operation reports to its caller: the stats and the stacks it changed.
  datatype Changed = Changed(stats: Entries, items: Entries)

  // What loading a recipe guarantees about its amounts.
  predicate RecipeLoaded(recipe: Recipe) {
    recipe.inputs != [] && AllPositive(recipe.inputs) && recipe.output.1 > 0
  }

  predicate NeedsMet(schema: Schema, stats: Stats, c: CharacterId, needs: Entries) {
    forall r :: r in needs ==> Declares(schema, r.0) && r.1 <= Reading(schema, stats, c, r.0)
  }

  // Each input is checked on its own against the quantity read for it.
  method CheckInputs(items: Items, c: CharacterId, inputs: Entries) returns (ok: bool, currents: seq<int>)
    ensures ok <==> EachHeld(items, c, inputs)
    ensures ok ==> |currents| == |inputs| && forall i :: 0 <= i < |inputs| ==>
              currents[i] == Quantity(items, c, inputs[i].0)
  {
    currents := [];
    for i := 0 to |inputs|
      invariant |currents| == i
      invariant forall j :: 0 <= j < i ==> currents[j] == Quantity(items, c, inputs[j].0) && inputs[j].1 <= currents[j]
    {
      var current := Quantity(items, c, inputs[i].0);
      if current < inputs[i].1 {
        assert inputs[i] in inputs;
        return false, [];
      }
      currents := currents + [current];
    }
    ok := true;
  }

  // The rows after consumption from quantities read up front: a stack that some entry
  // empties is gone for good, any other is left at its first quantity less the amount listed
  // last. For distinct inputs that is the plain subtraction (see ChargesListedAmounts).
  function Consumed(items: Items, c: CharacterId, inputs: Entries): Items {
    map ck | ck in items && !(ck.0 == c && (ck.1, items[ck].quantity) in inputs) ::
      if ck.0 == c && LastFor(inputs, ck.1).Some?
      then items[ck].(quantity := items[ck].quantity - LastFor(inputs, ck.1).value)
      else items[ck]
  }

  // The row is deleted when nothing remains, and set to what remains otherwise.
  function LeftWith(items: Items, c: CharacterId, k: string, remaining: int): Items {
    if remaining == 0 then items - {(c, k)}
    else if (c, k) in items then items[(c, k) := items[(c, k)].(quantity := remaining)]
    else items
  }

  method ConsumeInputs(items: Items, c: CharacterId, inputs: Entries, currents: seq<int>)
    returns (items': Items, results: Entries)
    requires ItemsChecked(items) && AllPositive(inputs) && |currents| == |inputs|
    requires forall i :: 0 <= i < |inputs| ==>
               currents[i] == Quantity(items, c, inputs[i].0) && inputs[i].1 <= currents[i]
    ensures items' == Consumed(items, c, inputs)
    ensures |results| == |inputs|
    ensures forall i :: 0 <= i < |inputs| ==>
              results[i] == (inputs[i].0, Quantity(items, c, inputs[i].0) - inputs[i].1)
  {
    hide *;
    items', results := items, [];
    assert inputs[..0] == [];
    NothingConsumed(items, c);
    for i := 0 to |inputs|
      invariant items' == Consumed(items, c, inputs[..i])
      invariant |results| == i
      invariant forall j :: 0 <= j < i ==> results[j] == (inputs[j].0, Quantity(items, c, inputs[j].0) - inputs[j].1)
    {
      var (k, amount) := inputs[i];
      var remaining := currents[i] - amount;
      ConsumedStep(items, c, inputs, i);
      items', results := LeftWith(items', c, k, remaining), results + [(k, remaining)];
    }
    assert inputs[..|inputs|] == inputs;
  }

  lemma NothingConsumed(items: Items, c: CharacterId)
    ensures Consumed(items, c, []) == items
  {
  }

  lemma ConsumedStep(items: Items, c: CharacterId, inputs: Entries, i: nat)
    requires i < |inputs|
    ensures var (k, n) := inputs[i];
            Consumed(items, c, inputs[..i + 1])
                == LeftWith(Consumed(items, c, inputs[..i]), c, k, Quantity(items, c, k) - n)
  {
    hide LastFor;
    var (k, n) := inputs[i];
    assert inputs[..i + 1] == inputs[..i] + [inputs[i]];
    forall j ensures LastFor(inputs[..i + 1], j) == if j == k then Some(n) else LastFor(inputs[..i], j) {
      LastForSnoc(inputs, i, j);
    }
  }

  lemma LastForSnoc(entries: Entries, i: nat, k: string)
    requires i < |entries|
    ensures LastFor(entries[..i + 1], k) == if entries[i].0 == k then Some(entries[i].1) else LastFor(entries[..i], k)
  {
    assert entries[..i + 1][..i] == entries[..i];
  }

  lemma {:induction false} LastForListed(entries: Entries, k: string)
    ensures LastFor(entries, k).Some? <==> k in KeysOf(entries)
    ensures LastFor(entries, k).Some? ==> (k, LastFor(entries, k).value) in entries
  {
    if entries != [] {
      var n := |entries| - 1;
      LastForListed(entries[..n], k);
      assert entries == entries[..n] + [entries[n]];
    }
  }

  lemma ConsumedChecked(items: Items, c: CharacterId, inputs: Entries)
    requires ItemsChecked(items) && AllPositive(inputs) && EachHeld(items, c, inputs)
    ensures ItemsChecked(Consumed(items, c, inputs))
    ensures forall d :: Types(Consumed(items, c, inputs), d) <= Types(items, d)
  {
    hide LastFor;
    forall k ensures LastFor(inputs, k).Some? ==> (k, LastFor(inputs, k).value) in inputs {
      LastForListed(inputs, k);
    }
  }

  // A craft charges each input type one of its listed amounts, never more than the listed
  // total, and exactly the listed totals if and only if no type is listed twice.
  lemma ChargesListedAmounts(items: Items, c: CharacterId, inputs: Entries)
    requires ItemsChecked(items) && AllPositive(inputs) && EachHeld(items, c, inputs)
    ensures (forall k :: TakenOf(items, c, inputs, k) == SumFor(inputs, k)) <==> DistinctKeys(inputs)
    ensures forall k :: TakenOf(items, c, inputs, k) <= SumFor(inputs, k)
    ensures forall d, k :: Quantity(Consumed(items, c, inputs), d, k)
                        == Quantity(items, d, k) - if d == c then TakenOf(items, c, inputs, k) else 0
  {
    hide Consumed, SumFor, LastFor, TakenOf;
    forall k ensures TakenOf(items, c, inputs, k) <= SumFor(inputs, k) {
      TakenAtMost(items, c, inputs, k);
    }
    if DistinctKeys(inputs) {
      forall k ensures TakenOf(items, c, inputs, k) == SumFor(inputs, k) {
        TakenIsListed(items, c, inputs, k);
        SumForListed(inputs, k);
        if k in KeysOf(inputs) {
          var i :| 0 <= i < |inputs| && inputs[i] == (k, TakenOf(items, c, inputs, k));
          OnlyListing(inputs, i);
        }
      }
    } else {
      var i, j :| 0 <= i < j < |inputs| && inputs[i].0 == inputs[j].0;
      var k := inputs[i].0;
      TakenIsListed(items, c, inputs, k);
      assert inputs[i] in inputs && k in KeysOf(inputs);
      var m :| 0 <= m < |inputs| && inputs[m] == (k, TakenOf(items, c, inputs, k));
      TwoListings(inputs, if m == i then j else i, m);
    }
    forall d, k ensures Quantity(Consumed(items, c, inputs), d, k)
                     == Quantity(items, d, k) - if d == c then TakenOf(items, c, inputs, k) else 0
    {
      ConsumedQuantity(items, c, inputs, d, k);
    }
  }

  lemma TakenAtMost(items: Items, c: CharacterId, inputs: Entries, k: string)
    requires AllPositive(inputs)
    ensures TakenOf(items, c, inputs, k) <= SumFor(inputs, k)
  {
    hide TakenOf;
    TakenIsListed(items, c, inputs, k);
    SumForListed(inputs, k);
    if k in KeysOf(inputs) {
      EntryWithinTotal(inputs, (k, TakenOf(items, c, inputs, k)));
    }
  }

  // What consumption takes of a type: all of it if some entry lists all of it, and else the
  // amount listed last.
  function TakenOf(items: Items, c: CharacterId, inputs: Entries, k: string): int {
    if (k, Quantity(items, c, k)) in inputs then Quantity(items, c, k)
    else if LastFor(inputs, k).Some? then LastFor(inputs, k).value
    else 0
  }

  lemma ConsumedQuantity(items: Items, c: CharacterId, inputs: Entries, d: CharacterId, k: string)
    requires ItemsChecked(items) && AllPositive(inputs) && EachHeld(items, c, inputs)
    ensures Quantity(Consumed(items, c, inputs), d, k)
         == Quantity(items, d, k) - if d == c then TakenOf(items, c, inputs, k) else 0
  {
    LastForListed(inputs, k);
    if k in KeysOf(inputs) {
      var e :| e in inputs && e.0 == k;
      assert e.1 <= Quantity(items, c, k);
    }
  }

  // The amount taken of a listed type is one of its listed amounts; others keep theirs.
  lemma TakenIsListed(items: Items, c: CharacterId, inputs: Entries, k: string)
    ensures k in KeysOf(inputs) ==> (k, TakenOf(items, c, inputs, k)) in inputs
    ensures k !in KeysOf(inputs) ==> TakenOf(items, c, inputs, k) == 0
  {
    LastForListed(inputs, k);
  }

  lemma {:induction false} OnlyListing(entries: Entries, i: nat)
    requires i < |entries| && DistinctKeys(entries)
    ensures SumFor(entries, entries[i].0) == entries[i].1
  {
    var n := |entries| - 1;
    assert entries[..n + 1] == entries;
    SumForSnoc(entries, n, entries[i].0);
    if i < n {
      OnlyListing(entries[..n], i);
    } else {
      Unlisted(entries[..n], entries[n].0);
    }
  }

  lemma {:induction false} Unlisted(entries: Entries, k: string)
    requires forall e :: e in entries ==> e.0 != k
    ensures SumFor(entries, k) == 0
  {
    if entries != [] {
      Unlisted(entries[..|entries| - 1], k);
    }
  }

  lemma TwoListings(entries: Entries, i: nat, j: nat)
    requires i < |entries| && j < |entries| && i != j
    requires AllPositive(entries) && entries[i].0 == entries[j].0
    ensures SumFor(entries, entries[i].0) > entries[j].1
  {
    var lo, hi := if i < j then i else j, if i < j then j else i;
    hide SumFor;
    var k := entries[i].0;
    assert entries[lo] in entries && entries[hi] in entries;
    assert entries[..|entries|] == entries;
    SumForSnoc(entries, lo, k);
    SumForSnoc(entries, hi, k);
    SumForListed(entries[..lo], k);
    SumForMonotone(entries, lo + 1, hi, k);
    SumForMonotone(entries, hi + 1, |entries|, k);
  }

  // A grant fires unless its ceiling is reached or its roll misses.
  predicate GrantFires(schema: Schema, stats: Stats, c: CharacterId, g: StatGrant, roll: bool) {
    && (g.below.Some? ==> Reading(schema, stats, c, g.stat) < g.below.value)
    && (g.chance.Some? ==> roll)
  }

  // `apply_stat_delta_clamped_tx`: saturate, then clamp.
  function ClampedGrant(schema: Schema, stats: Stats, c: CharacterId, g: StatGrant): int {
    var d := Declaration(schema, g.stat);
    if d.None? then 0 else
      Clamp(d.value, SaturatingAdd(Reading(schema, stats, c, g.stat), g.amount))
  }

  function GrantStep(schema: Schema, stats: Stats, c: CharacterId, g: StatGrant, roll: bool): Stats {
    if GrantFires(schema, stats, c, g, roll) then stats[(c, g.stat) := ClampedGrant(schema, stats, c, g)] else stats
  }

  // The stats after the first `n` grants, each reading what the previous ones left.
  function GrantedStats(schema: Schema, stats: Stats, c: CharacterId, grants: seq<StatGrant>, rolls: seq<bool>,
          n: nat): Stats
    requires n <= |grants| == |rolls|
  {
    if n == 0 then stats
    else GrantStep(schema, GrantedStats(schema, stats, c, grants, rolls, n - 1), c, grants[n - 1], rolls[n - 1])
  }

  // Applies the grants in order; capped or skipped grants never fail, only an undeclared
  // stat does. The report names every stat that was written, with its final value last.
  method ApplyGrants(schema: Schema, stats: Stats, c: CharacterId, grants: seq<StatGrant>, rolls: seq<bool>)
    returns (ok: bool, stats': Stats, changes: Entries)
    requires |rolls| == |grants|
    ensures ok <==> forall i :: 0 <= i < |grants| ==>
                      Declares(schema, grants[i].stat)
                      || (grants[i].below.None? && grants[i].chance.Some? && !rolls[i])
    ensures ok ==> stats' == GrantedStats(schema, stats, c, grants, rolls, |grants|)
    ensures ok ==> forall k :: k in KeysOf(changes) ==> (c, k) in stats' && LastFor(changes, k) == Some(stats'[(c, k)])
    ensures ok ==> forall ck: (CharacterId, string) :: ck.0 != c || ck.1 !in KeysOf(changes) ==>
                            (ck in stats' <==> ck in stats) && (ck in stats ==> stats'[ck] == stats[ck])
  {
    hide LastFor, KeysOf;
    stats', changes := stats, [];
    NoChanges();
    for i := 0 to |grants|
      invariant forall j :: 0 <= j < i ==>
                  Declares(schema, grants[j].stat)
                  || (grants[j].below.None? && grants[j].chance.Some? && !rolls[j])
      invariant stats' == GrantedStats(schema, stats, c, grants, rolls, i)
      invariant forall k :: k in KeysOf(changes) ==> (c, k) in stats' && LastFor(changes, k) == Some(stats'[(c, k)])
      invariant forall ck: (CharacterId, string) :: ck.0 != c || ck.1 !in KeysOf(changes) ==>
                         (ck in stats' <==> ck in stats) && (ck in stats ==> stats'[ck] == stats[ck])
    {
      var g := grants[i];
      if g.below.Some? {
        if !Declares(schema, g.stat) {
          return false, stats, [];
        }
        if Reading(schema, stats', c, g.stat) >= g.below.value {
          continue;
        }
      }
      if g.chance.Some? && !rolls[i] {
        continue;
      }
      if !Declares(schema, g.stat) {
        return false, stats, [];
      }
      var newValue := ClampedGrant(schema, stats', c, g);
      stats' := stats'[(c, g.stat) := newValue];
      Reported(changes, g.stat, newValue);
      changes := changes + [(g.stat, newValue)];
    }
    ok := true;
  }

  lemma NoChanges()
    ensures KeysOf([]) == {} && forall k :: LastFor([], k) == None
  {
  }

  lemma Reported(changes: Entries, key: string, value: int)
    ensures KeysOf(changes + [(key, value)]) == KeysOf(changes) + {key}
    ensures forall k :: LastFor(changes + [(key, value)], k) == if k == key then Some(value) else LastFor(changes, k)
  {
    forall k ensures LastFor(changes + [(key, value)], k) == if k == key then Some(value) else LastFor(changes, k) {
      var all := changes + [(key, value)];
      LastForSnoc(all, |changes|, k);
      assert all[..|changes| + 1] == all && all[..|changes|] == changes;
    }
  }

  // One stat's value after the grants of a recipe, taken alone: each grant that names it adds
  // to the value so far if that is below the grant's ceiling and the roll hits.
  function Raised(d: StatDeclaration, value: int, grants: seq<StatGrant>, rolls: seq<bool>, n: nat, k: string): int
    requires n <= |grants| == |rolls|
  {
    if n == 0 then value
    else
      var before, g := Raised(d, value, grants, rolls, n - 1, k), grants[n - 1];
      if g.stat == k && (g.below.Some? ==> before < g.below.value) && (g.chance.Some? ==> rolls[n - 1])
      then Clamp(d, SaturatingAdd(before, g.amount))
      else before
  }

  // A declared stat ends at what the grants that name it make of it, whatever the others do;
  // a stat no grant names is left alone.
  lemma {:induction false} GrantEffect(schema: Schema, stats: Stats, c: CharacterId, grants: seq<StatGrant>,
          rolls: seq<bool>, n: nat, k: string)
    requires n <= |grants| == |rolls|
    ensures (forall i :: 0 <= i < n ==> grants[i].stat != k) ==>
              Reading(schema, GrantedStats(schema, stats, c, grants, rolls, n), c, k) == Reading(schema, stats, c, k)
    ensures Declares(schema, k) ==>
              Reading(schema, GrantedStats(schema, stats, c, grants, rolls, n), c, k)
              == Raised(Declaration(schema, k).value, Reading(schema, stats, c, k), grants, rolls, n, k)
  {
    if n > 0 {
      GrantEffect(schema, stats, c, grants, rolls, n - 1, k);
    }
  }

  lemma {:induction false} GrantsAreOwn(schema: Schema, stats: Stats, c: CharacterId, grants: seq<StatGrant>,
          rolls: seq<bool>, n: nat, d: CharacterId, k: string)
    requires n <= |grants| == |rolls| && d != c
    ensures Reading(schema, GrantedStats(schema, stats, c, grants, rolls, n), d, k) == Reading(schema, stats, d, k)
  {
    if n > 0 {
      GrantsAreOwn(schema, stats, c, grants, rolls, n - 1, d, k);
    }
  }

  lemma {:induction false} GrantsStayInBounds(schema: Schema, stats: Stats, c: CharacterId, grants: seq<StatGrant>,
          rolls: seq<bool>, n: nat)
    requires n <= |grants| == |rolls| && SchemaConsistent(schema) && StatsInBounds(schema, stats)
    requires forall i :: 0 <= i < n ==> Declares(schema, grants[i].stat) || (grants[i].chance.Some? && !rolls[i])
    ensures StatsInBounds(schema, GrantedStats(schema, stats, c, grants, rolls, n))
  {
    if n > 0 {
      GrantsStayInBounds(schema, stats, c, grants, rolls, n - 1);
    }
  }

  predicate CanCraft(schema: Schema, max: nat, db: Db, c: CharacterId, recipe: Recipe, rolls: seq<bool>)
    requires |rolls| == |recipe.grants|
  {
    && NeedsMet(schema, db.stats, c, recipe.needs)
    && CanRunCraft(schema, max, db, c, recipe, rolls)
  }

  // The transaction's own conditions, after the requirements. Capacity is judged before
  // anything is consumed.
  predicate CanRunCraft(schema: Schema, max: nat, db: Db, c: CharacterId, recipe: Recipe, rolls: seq<bool>)
    requires |rolls| == |recipe.grants|
  {
    && EachHeld(db.items, c, recipe.inputs)
    && ((c, recipe.output.0) in db.items || |Types(db.items, c)| < max)
    && Quantity(Consumed(db.items, c, recipe.inputs), c, recipe.output.0) + recipe.output.1 <= I64_MAX
    && forall i :: 0 <= i < |recipe.grants| ==>
         Declares(schema, recipe.grants[i].stat)
         || (recipe.grants[i].below.None? && recipe.grants[i].chance.Some? && !rolls[i])
  }

  function Crafted(schema: Schema, db: Db, c: CharacterId, recipe: Recipe, rolls: seq<bool>): Db
    requires |rolls| == |recipe.grants|
  {
    db.(items := Granted(Consumed(db.items, c, recipe.inputs), c, recipe.output.0, recipe.output.1),
        stats := GrantedStats(schema, db.stats, c, recipe.grants, rolls, |recipe.grants|))
  }

  lemma OutputChecked(items: Items, c: CharacterId, k: string, n: int)
    requires ItemsChecked(items) && n > 0 && Quantity(items, c, k) + n <= I64_MAX
    ensures ItemsChecked(Granted(items, c, k, n))
    ensures Granted(items, c, k, n)
         == items[(c, k) := Stack(Quantity(items, c, k) + n, if (c, k) in items then items[(c, k)].slot else None)]
    ensures Quantity(Granted(items, c, k, n), c, k) == Quantity(items, c, k) + n
  {
  }

  // The report of a craft: each input's remainder, then the output's new quantity; every stat
  // that was written, with its value in the table last.
  ghost predicate CraftReported(report: Changed, schema: Schema, before: Db, after: Db, c: CharacterId,
          recipe: Recipe)
  {
    && |report.items| == |recipe.inputs| + 1
    && (forall i :: 0 <= i < |recipe.inputs| ==>
          report.items[i] == (recipe.inputs[i].0, Quantity(before.items, c, recipe.inputs[i].0) - recipe.inputs[i].1))
    && report.items[|recipe.inputs|] == (recipe.output.0, Quantity(after.items, c, recipe.output.0))
    && (forall k :: k in KeysOf(report.stats) ==>
        (c, k) in after.stats && LastFor(report.stats, k) == Some(after.stats[(c, k)]))
    && forall ck: (CharacterId, string) :: ck.0 != c || ck.1 !in KeysOf(report.stats) ==>
         (ck in after.stats <==> ck in before.stats) && (ck in before.stats ==> after.stats[ck] == before.stats[ck])
  }

  method CraftTransaction(schema: Schema, max: nat, db: Db, c: CharacterId, recipe: Recipe, rolls: seq<bool>)
    returns (refusal: Option<Refusal>, tx: Db, report: Changed)
    requires Checked(db) && RecipeLoaded(recipe) && |rolls| == |recipe.grants|
    ensures refusal.None? <==> CanRunCraft(schema, max, db, c, recipe, rolls)
    ensures refusal.None? ==> tx == Crafted(schema, db, c, recipe, rolls) && Checked(tx)
    ensures refusal.None? ==> CraftReported(report, schema, db, tx, c, recipe)
  {
    hide Consumed, LastFor, Granted, KeysOf, GrantedStats, EachHeld, Types;
    tx, report := db, Changed([], []);
    var held, currents := CheckInputs(tx.items, c, recipe.inputs);
    if !held {
      return Some(NotEnough), tx, report;
    }
    var (outputType, outputAmount) := recipe.output;
    if (c, outputType) !in tx.items && |Types(tx.items, c)| >= max {
      return Some(InventoryFull), tx, report;
    }
    assert EachHeld(tx.items, c, recipe.inputs);
    EachHeldAt(tx.items, c, recipe.inputs);
    var items, results := ConsumeInputs(tx.items, c, recipe.inputs, currents);
    var outputQuantity := Quantity(items, c, outputType) + outputAmount;
    if outputQuantity > I64_MAX {
      return Some(NumericOverflow), tx, report;
    }
    ConsumedChecked(tx.items, c, recipe.inputs);
    OutputChecked(items, c, outputType, outputAmount);
    var slot := if (c, outputType) in items then items[(c, outputType)].slot else None;
    items := items[(c, outputType) := Stack(outputQuantity, slot)];
    results := results + [(outputType, outputQuantity)];
    var granted, stats, statChanges := ApplyGrants(schema, tx.stats, c, recipe.grants, rolls);
    if !granted {
      return Some(UnknownStat), tx, report;
    }
    return None, tx.(items := items, stats := stats), Changed(statChanges, results);
  }

  lemma EachHeldAt(items: Items, c: CharacterId, entries: Entries)
    requires EachHeld(items, c, entries)
    ensures forall i :: 0 <= i < |entries| ==> entries[i].1 <= Quantity(items, c, entries[i].0)
  {
    forall i | 0 <= i < |entries| ensures entries[i].1 <= Quantity(items, c, entries[i].0) {
      assert entries[i] in entries;
    }
  }
}
