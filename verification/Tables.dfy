/** The four character tables as maps, with their primary keys as map keys. */
module Tables {
  import opened Prelude

  type CharacterId = int

  // One row of `items`: a stack and the inventory slot it was dragged to, if any.
  datatype Stack = Stack(quantity: int, slot: Option<int>)

  type Items = map<(CharacterId, string), Stack>
  type Balances = map<(CharacterId, string), int>
  type Stats = map<(CharacterId, string), int>
  type Worn = map<(CharacterId, string), string>

  datatype Db = Db(items: Items, currency: Balances, stats: Stats, equipped: Worn)

  // Why an operation was refused.
  datatype Refusal =
    | NotPositive | NotEnough | InventoryFull | NumericOverflow | ConstraintViolated
    | UnknownStat | OutOfBounds | RequirementUnmet
    | NotEquippable | SlotEmpty | SlotOutOfRange

  function Quantity(items: Items, c: CharacterId, k: string): int {
    if (c, k) in items then items[(c, k)].quantity else 0
  }

  // One character's stats as the stored object they are.
  function StatsObject(stats: Stats, c: CharacterId): (stored: map<string, int>)
    ensures forall k :: k in stored <==> (c, k) in stats
    ensures forall k :: k in stored ==> stored[k] == stats[(c, k)]
  {
    map ck | ck in stats && ck.0 == c :: ck.1 := stats[ck]
  }

  function Balance(currency: Balances, c: CharacterId, k: string): int {
    if (c, k) in currency then currency[(c, k)] else 0
  }

  // The distinct item types a character holds; its size is what the capacity checks count.
  function Types(items: Items, c: CharacterId): (s: set<string>)
    ensures forall k :: k in s <==> (c, k) in items
  {
    set ck | ck in items && ck.0 == c :: ck.1
  }

  // `CHECK (quantity > 0)`, `CHECK (balance >= 0)` and the `BIGINT` range.
  predicate ItemsChecked(items: Items) {
    forall ck :: ck in items ==> 1 <= items[ck].quantity <= I64_MAX
  }

  predicate BalancesChecked(currency: Balances) {
    forall ck :: ck in currency ==> 0 <= currency[ck] <= I64_MAX
  }

  predicate Checked(db: Db) {
    ItemsChecked(db.items) && BalancesChecked(db.currency)
  }
}
