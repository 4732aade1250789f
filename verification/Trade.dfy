/** The steps of a trade transaction, and what a whole trade amounts to. */
module Trade {
  import opened Prelude
  import opened Tables
  import opened Ledger

  datatype Offer = Offer(items: Entries, currency: Entries)

  type Changes = map<string, int>

  // Row-by-row consumption of one side's offered items. A row that is gone, or an update
  // that would break `quantity > 0`, fails the statement and with it the transaction.
  method ConsumeItems(items: Items, c: CharacterId, entries: Entries, changes: Changes)
    returns (ok: bool, items': Items, changes': Changes)
    requires ItemsChecked(items) && AllPositive(entries)
    ensures ok <==> Covers(items, c, entries)
    ensures ok ==> items' == Debit(items, c, entries)
    ensures ok ==> changes'.Keys == changes.Keys + KeysOf(entries)
    ensures ok ==> forall k :: k in changes' ==>
                     changes'[k] == if k in KeysOf(entries) then Quantity(items', c, k) else changes[k]
  {
    hide Debit, SumFor, KeysOf, Covers;
    items', changes' := items, changes;
    DebitNothing(items, c, entries);
    for i := 0 to |entries|
      invariant Covers(items, c, entries[..i])
      invariant items' == Debit(items, c, entries[..i])
      invariant changes'.Keys == changes.Keys + KeysOf(entries[..i])
      invariant forall k :: k in changes' ==>
                  changes'[k] == if k in KeysOf(entries[..i]) then Quantity(items', c, k) else changes[k]
    {
      var (k, quantity) := entries[i];
      CoversStep(items, c, entries, i);
      if (c, k) !in items' || items'[(c, k)].quantity < quantity {
        return false, items, changes;
      }
      DebitStep(items, c, entries, i);
      var remaining := items'[(c, k)].quantity - quantity;
      if remaining == 0 {
        items' := items' - {(c, k)};
      } else {
        items' := items'[(c, k) := items'[(c, k)].(quantity := remaining)];
      }
      SumForSnoc(entries, i, k);
      changes' := changes'[k := remaining];
    }
    assert entries[..|entries|] == entries;
    ok := true;
  }

  lemma DebitNothing(items: Items, c: CharacterId, entries: Entries)
    requires ItemsChecked(items)
    ensures Debit(items, c, entries[..0]) == items && Covers(items, c, entries[..0])
    ensures KeysOf(entries[..0]) == {}
  {
  }

  // Charging one more entry succeeds exactly when the stack still holds it.
  lemma CoversStep(items: Items, c: CharacterId, entries: Entries, i: nat)
    requires ItemsChecked(items) && AllPositive(entries) && i < |entries|
    requires Covers(items, c, entries[..i])
    ensures var (k, n) := entries[i];
            var before := Debit(items, c, entries[..i]);
            && (Covers(items, c, entries[..i + 1]) <==> (c, k) in before && n <= before[(c, k)].quantity)
            && (Covers(items, c, entries) ==> Covers(items, c, entries[..i + 1]))
  {
    hide Debit;
    var (k, n) := entries[i];
    assert (k, n) in entries;
    PrefixTotals(entries, i);
    DebitQuantity(items, c, entries[..i], c, k);
    DebitRows(items, c, entries[..i], k);
  }

  // Charging one more entry is one update or delete of its stack.
  lemma DebitStep(items: Items, c: CharacterId, entries: Entries, i: nat)
    requires i < |entries| && (c, entries[i].0) in Debit(items, c, entries[..i])
    ensures var (k, n) := entries[i];
            var before := Debit(items, c, entries[..i]);
            Debit(items, c, entries[..i + 1])
            == if before[(c, k)].quantity == n then before - {(c, k)}
               else before[(c, k) := before[(c, k)].(quantity := before[(c, k)].quantity - n)]
  {
    hide SumFor, KeysOf;
    var (k, n) := entries[i];
    forall j ensures SumFor(entries[..i + 1], j) == SumFor(entries[..i], j) + if j == k then n else 0 {
      SumForSnoc(entries, i, j);
    }
  }

  lemma DebitRows(items: Items, c: CharacterId, entries: Entries, k: string)
    requires ItemsChecked(items)
    ensures (c, k) in Debit(items, c, entries) ==>
              Quantity(Debit(items, c, entries), c, k) == Debit(items, c, entries)[(c, k)].quantity
    ensures (c, k) !in Debit(items, c, entries)
       <==> Quantity(items, c, k) == 0 || Quantity(items, c, k) == SumFor(entries, k)
  {
  }

  lemma PrefixTotals(entries: Entries, i: nat)
    requires AllPositive(entries) && i < |entries|
    ensures forall j :: SumFor(entries[..i + 1], j)
                     == SumFor(entries[..i], j) + if j == entries[i].0 then entries[i].1 else 0
    ensures forall j :: SumFor(entries[..i + 1], j) <= SumFor(entries, j)
    ensures forall j :: 0 <= SumFor(entries[..i], j)
    ensures KeysOf(entries[..i + 1]) == KeysOf(entries[..i]) + {entries[i].0}
  {
    forall j
      ensures SumFor(entries[..i + 1], j) == SumFor(entries[..i], j) + (if j == entries[i].0 then entries[i].1 else 0)
             ensures SumFor(entries[..i + 1], j) <= SumFor(entries, j)
             ensures 0 <= SumFor(entries[..i], j)
    {
      SumForSnoc(entries, i, j);
      SumForMonotone(entries, i + 1, |entries|, j);
      SumForListed(entries[..i], j);
      assert entries[..|entries|] == entries;
    }
    SumForSnoc(entries, i, "");
  }

  method GrantItems(max: nat, items: Items, c: CharacterId, entries: Entries, changes: Changes)
    returns (ok: bool, items': Items, changes': Changes)
    requires AllPositive(entries)
    ensures ok <==> HasRoom(max, items, c, entries)
    ensures ok ==> items' == Credit(items, c, entries)
    ensures ok ==> changes'.Keys == changes.Keys + KeysOf(entries)
    ensures ok ==> forall k :: k in changes' ==>
                     changes'[k] == if k in KeysOf(entries) then Quantity(items', c, k) else changes[k]
  {
    hide Credit, SumFor, KeysOf, HasRoom, Types;
    items', changes' := items, changes;
    CreditNothing(max, items, c, entries);
    for i := 0 to |entries|
      invariant HasRoom(max, items, c, entries[..i])
      invariant items' == Credit(items, c, entries[..i])
      invariant changes'.Keys == changes.Keys + KeysOf(entries[..i])
      invariant forall k :: k in changes' ==>
                  changes'[k] == if k in KeysOf(entries[..i]) then Quantity(items', c, k) else changes[k]
    {
      var (k, quantity) := entries[i];
      RoomGrows(max, items, c, entries, i);
      if (c, k) !in items' && |Types(items', c)| >= max {
        return false, items, changes;
      }
      var newQuantity := Quantity(items', c, k) + quantity;
      if newQuantity > I64_MAX {
        return false, items, changes;
      }
      CreditStep(items, c, entries, i);
      items' := items'[(c, k) := Stack(newQuantity, if (c, k) in items' then items'[(c, k)].slot else None)];
      SumForSnoc(entries, i, k);
      changes' := changes'[k := newQuantity];
    }
    assert entries[..|entries|] == entries;
    ok := true;
  }

  lemma CreditNothing(max: nat, items: Items, c: CharacterId, entries: Entries)
    ensures Credit(items, c, entries[..0]) == items && HasRoom(max, items, c, entries[..0])
    ensures KeysOf(entries[..0]) == {}
  {
    assert entries[..0] == [];
    assert NewTypes(items, c, []) == {};
  }

  // Paying one more entry is one upsert of that stack.
  lemma CreditStep(items: Items, c: CharacterId, entries: Entries, i: nat)
    requires AllPositive(entries) && i < |entries|
    ensures var (k, n) := entries[i];
            var before := Credit(items, c, entries[..i]);
            Credit(items, c, entries[..i + 1])
            == before[(c, k) := Stack(Quantity(before, c, k) + n,
                                      if (c, k) in before then before[(c, k)].slot else None)]
  {
    hide CreditedStack, PaidRows, SumFor, KeysOf;
    SumForSnoc(entries, i, "");
    forall j ensures CreditedStack(items, c, entries[..i + 1], j)
                  == var s := CreditedStack(items, c, entries[..i], j);
                     if j == entries[i].0 then s.(quantity := s.quantity + entries[i].1) else s
    {
      CreditedMore(items, c, entries, i, j);
    }
    CreditedUnlisted(items, c, entries[..i], entries[i].0);
  }

  lemma CreditedMore(items: Items, c: CharacterId, entries: Entries, i: nat, k: string)
    requires i < |entries|
    ensures CreditedStack(items, c, entries[..i + 1], k)
         == var s := CreditedStack(items, c, entries[..i], k);
            if k == entries[i].0 then s.(quantity := s.quantity + entries[i].1) else s
  {
    SumForSnoc(entries, i, k);
  }

  lemma CreditedUnlisted(items: Items, c: CharacterId, entries: Entries, k: string)
    requires AllPositive(entries)
    ensures (c, k) !in items && k !in KeysOf(entries) ==> CreditedStack(items, c, entries, k) == Stack(0, None)
  {
    SumForListed(entries, k);
  }

  // One more entry fits exactly when its own two checks pass, and what the whole list leaves
  // room for every prefix leaves room for.
  lemma RoomGrows(max: nat, items: Items, c: CharacterId, entries: Entries, i: nat)
    requires AllPositive(entries) && i < |entries|
    requires HasRoom(max, items, c, entries[..i])
    ensures var (k, n) := entries[i];
            var before := Credit(items, c, entries[..i]);
            HasRoom(max, items, c, entries[..i + 1])
            <==> ((c, k) !in before ==> |Types(before, c)| < max) && Quantity(before, c, k) + n <= I64_MAX
    ensures HasRoom(max, items, c, entries) ==> HasRoom(max, items, c, entries[..i + 1])
  {
    hide Credit, Types, SumFor, NewTypes;
    var (k, n) := entries[i];
    PrefixTotals(entries, i);
    CreditQuantity(items, c, entries[..i], c, k);
    CreditTypes(items, c, entries[..i], c);
    NewTypesStep(items, c, entries, i);
  }

  lemma NewTypesStep(items: Items, c: CharacterId, entries: Entries, i: nat)
    requires i < |entries|
    ensures var k := entries[i].0;
            var before := Credit(items, c, entries[..i]);
            |NewTypes(items, c, entries[..i + 1])|
            == |NewTypes(items, c, entries[..i])| + if (c, k) in before then 0 else 1
    ensures |NewTypes(items, c, entries[..i + 1])| <= |NewTypes(items, c, entries)|
    ensures (c, entries[i].0) !in Credit(items, c, entries[..i]) ==> NewTypes(items, c, entries) != {}
    ensures NewTypes(items, c, entries[..i + 1]) != {} ==> NewTypes(items, c, entries) != {}
  {
    hide SumFor;
    var k := entries[i].0;
    var older, newer, all := NewTypes(items, c, entries[..i]), NewTypes(items, c, entries[..i + 1]),
        NewTypes(items, c, entries);
    SumForSnoc(entries, i, k);
    if (c, k) in Credit(items, c, entries[..i]) {
      assert newer == older;
    } else {
      assert newer == older + {k};
      assert k in all;
    }
    assert newer <= all;
    SubsetSize(newer, all);
  }

  lemma {:induction false} SubsetSize<T>(a: set<T>, b: set<T>)
    requires a <= b
    ensures |a| <= |b|
  {
    if a != {} {
      var x :| x in a;
      SubsetSize(a - {x}, b - {x});
    }
  }

  // A balance row that is missing, or an update below `balance >= 0`, fails.
  method ConsumeCurrency(currency: Balances, c: CharacterId, entries: Entries, changes: Changes)
    returns (ok: bool, currency': Balances, changes': Changes)
    requires BalancesChecked(currency) && AllPositive(entries)
    ensures ok <==> CoversBalance(currency, c, entries)
    ensures ok ==> currency' == DebitBalance(currency, c, entries)
    ensures ok ==> changes'.Keys == changes.Keys + KeysOf(entries)
    ensures ok ==> forall k :: k in changes' ==>
                     changes'[k] == if k in KeysOf(entries) then Balance(currency', c, k) else changes[k]
  {
    hide DebitBalance, SumFor, KeysOf, CoversBalance;
    currency', changes' := currency, changes;
    BalanceNothing(currency, c, entries);
    for i := 0 to |entries|
      invariant CoversBalance(currency, c, entries[..i])
      invariant currency' == DebitBalance(currency, c, entries[..i])
      invariant changes'.Keys == changes.Keys + KeysOf(entries[..i])
      invariant forall k :: k in changes' ==>
                  changes'[k] == if k in KeysOf(entries[..i]) then Balance(currency', c, k) else changes[k]
    {
      var (k, amount) := entries[i];
      DebitBalanceStep(currency, c, entries, i);
      if (c, k) !in currency' || currency'[(c, k)] - amount < 0 {
        return false, currency, changes;
      }
      var newBalance := currency'[(c, k)] - amount;
      currency' := currency'[(c, k) := newBalance];
      SumForSnoc(entries, i, k);
      changes' := changes'[k := newBalance];
    }
    assert entries[..|entries|] == entries;
    ok := true;
  }

  lemma BalanceNothing(currency: Balances, c: CharacterId, entries: Entries)
    requires forall ck :: ck in currency ==> currency[ck] <= I64_MAX
    ensures DebitBalance(currency, c, entries[..0]) == currency && CoversBalance(currency, c, entries[..0])
    ensures CreditBalance(currency, c, entries[..0]) == currency && HasBalanceRoom(currency, c, entries[..0])
    ensures KeysOf(entries[..0]) == {}
  {
    assert entries[..0] == [];
  }

  lemma DebitBalanceStep(currency: Balances, c: CharacterId, entries: Entries, i: nat)
    requires BalancesChecked(currency) && AllPositive(entries) && i < |entries|
    requires CoversBalance(currency, c, entries[..i])
    ensures var (k, n) := entries[i];
            var before := DebitBalance(currency, c, entries[..i]);
            && (CoversBalance(currency, c, entries[..i + 1]) <==> (c, k) in before && n <= before[(c, k)])
            && (CoversBalance(currency, c, entries) ==> CoversBalance(currency, c, entries[..i + 1]))
            && ((c, k) in before ==>
                  DebitBalance(currency, c, entries[..i + 1]) == before[(c, k) := before[(c, k)] - n])
  {
    hide SumFor;
    var (k, n) := entries[i];
    assert (k, n) in entries;
    PrefixTotals(entries, i);
    SumForListed(entries[..i], k);
  }

  method GrantCurrency(currency: Balances, c: CharacterId, entries: Entries, changes: Changes)
    returns (ok: bool, currency': Balances, changes': Changes)
    requires BalancesChecked(currency) && AllPositive(entries)
    ensures ok <==> HasBalanceRoom(currency, c, entries)
    ensures ok ==> currency' == CreditBalance(currency, c, entries)
    ensures ok ==> changes'.Keys == changes.Keys + KeysOf(entries)
    ensures ok ==> forall k :: k in changes' ==>
                     changes'[k] == if k in KeysOf(entries) then Balance(currency', c, k) else changes[k]
  {
    hide CreditBalance, SumFor, KeysOf, HasBalanceRoom;
    currency', changes' := currency, changes;
    BalanceNothing(currency, c, entries);
    for i := 0 to |entries|
      invariant HasBalanceRoom(currency, c, entries[..i])
      invariant currency' == CreditBalance(currency, c, entries[..i])
      invariant changes'.Keys == changes.Keys + KeysOf(entries[..i])
      invariant forall k :: k in changes' ==>
                  changes'[k] == if k in KeysOf(entries[..i]) then Balance(currency', c, k) else changes[k]
    {
      var (k, amount) := entries[i];
      CreditBalanceStep(currency, c, entries, i);
      BalanceRoomGrows(currency, c, entries, i);
      var newBalance := Balance(currency', c, k) + amount;
      if newBalance > I64_MAX {
        return false, currency, changes;
      }
      currency' := currency'[(c, k) := newBalance];
      SumForSnoc(entries, i, k);
      changes' := changes'[k := newBalance];
    }
    assert entries[..|entries|] == entries;
    ok := true;
  }

  lemma CreditBalanceStep(currency: Balances, c: CharacterId, entries: Entries, i: nat)
    requires AllPositive(entries) && i < |entries|
    ensures var (k, n) := entries[i];
            var before := CreditBalance(currency, c, entries[..i]);
            CreditBalance(currency, c, entries[..i + 1]) == before[(c, k) := Balance(before, c, k) + n]
  {
    hide SumFor, PaidRows;
    SumForSnoc(entries, i, "");
    forall j ensures SumFor(entries[..i + 1], j)
                  == SumFor(entries[..i], j) + if j == entries[i].0 then entries[i].1 else 0
    {
      SumForSnoc(entries, i, j);
    }
    SumForListed(entries[..i], entries[i].0);
  }

  lemma BalanceRoomGrows(currency: Balances, c: CharacterId, entries: Entries, i: nat)
    requires AllPositive(entries) && i < |entries|
    requires HasBalanceRoom(currency, c, entries[..i])
    ensures var (k, n) := entries[i];
            HasBalanceRoom(currency, c, entries[..i + 1])
            <==> Balance(CreditBalance(currency, c, entries[..i]), c, k) + n <= I64_MAX
    ensures HasBalanceRoom(currency, c, entries) ==> HasBalanceRoom(currency, c, entries[..i + 1])
  {
    hide CreditBalance, SumFor;
    var (k, n) := entries[i];
    PrefixTotals(entries, i);
    assert KeysOf(entries[..i + 1]) <= KeysOf(entries);
    CreditBalanceAt(currency, c, entries[..i], c, k);
  }
}
