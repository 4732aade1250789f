/** When a single grant, removal, currency change or stat write is accepted, and the tables
    after it. */
module Inventory {
  import opened Prelude
  import opened AttributeSchema
  import opened Tables

  datatype Config = Config(maxDistinctTypes: nat, slotCount: nat)

  predicate CanGrant(max: nat, items: Items, c: CharacterId, k: string, n: int) {
    && n > 0
    && (Quantity(items, c, k) > 0 || |Types(items, c)| < max)
    && Quantity(items, c, k) + n <= I64_MAX
  }

  // A grown stack keeps its slot; a new one starts unsorted.
  function Granted(items: Items, c: CharacterId, k: string, n: int): Items {
    items[(c, k) := Stack(Quantity(items, c, k) + n, if (c, k) in items then items[(c, k)].slot else None)]
  }

  predicate CanRemove(items: Items, c: CharacterId, k: string, n: int) {
    0 < n <= Quantity(items, c, k)
  }

  function Removed(items: Items, c: CharacterId, k: string, n: int): Items
    requires CanRemove(items, c, k, n)
  {
    if Quantity(items, c, k) == n then items - {(c, k)}
    else items[(c, k) := items[(c, k)].(quantity := items[(c, k)].quantity - n)]
  }

  predicate CanModify(currency: Balances, c: CharacterId, k: string, delta: int) {
    0 <= Balance(currency, c, k) + delta <= I64_MAX
  }

  lemma GrantKeepsChecks(max: nat, items: Items, c: CharacterId, k: string, n: int)
    requires ItemsChecked(items) && CanGrant(max, items, c, k, n)
    ensures ItemsChecked(Granted(items, c, k, n))
    ensures Types(Granted(items, c, k, n), c) == Types(items, c) + {k}
    ensures |Types(items, c)| <= max ==> |Types(Granted(items, c, k, n), c)| <= max
    ensures forall d :: d != c ==> Types(Granted(items, c, k, n), d) == Types(items, d)
  {
    assert Types(Granted(items, c, k, n), c) == Types(items, c) + {k};
    if Quantity(items, c, k) > 0 {
      assert Types(items, c) + {k} == Types(items, c);
    }
    forall d | d != c ensures Types(Granted(items, c, k, n), d) == Types(items, d) {
      assert forall j :: (d, j) in Granted(items, c, k, n) <==> (d, j) in items;
    }
  }

  lemma RemoveKeepsChecks(items: Items, c: CharacterId, k: string, n: int)
    requires ItemsChecked(items) && CanRemove(items, c, k, n)
    ensures ItemsChecked(Removed(items, c, k, n))
    ensures forall d :: Types(Removed(items, c, k, n), d) <= Types(items, d)
  {
  }

  // The value `get_stat` resolves: the stored one, else the declared default.
  function Reading(schema: Schema, stats: Stats, c: CharacterId, key: string): int {
    var d := Declaration(schema, key);
    if d.None? then 0 else if (c, key) in stats then stats[(c, key)] else d.value.default
  }

  // Adding `delta` neither overflows nor leaves the declared bounds.
  predicate DeltaAccepted(schema: Schema, stats: Stats, c: CharacterId, key: string, delta: int) {
    var value := Reading(schema, stats, c, key) + delta;
    FitsI64(value) && WriteAccepted(schema, key, value)
  }

  // What every write to the stats column keeps: known keys, in bounds.
  predicate StatsInBounds(schema: Schema, stats: Stats) {
    forall ck :: ck in stats ==> FitsI64(stats[ck]) && WriteAccepted(schema, ck.1, stats[ck])
  }
}
