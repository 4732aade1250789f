/** What a whole trade amounts to: a simultaneous exchange, decided by a condition on the
    holdings before it, in which the order of the entries plays no part. */
module TradeLaws {
  import opened Prelude
  import opened Tables
  import opened Ledger
  import opened Trade

  predicate AllAmountsPositive(oa: Offer, ob: Offer) {
    AllPositive(oa.items) && AllPositive(oa.currency) && AllPositive(ob.items) && AllPositive(ob.currency)
  }

  // The items after both sides have been charged and nobody paid yet.
  function Charged(items: Items, a: CharacterId, oa: Offer, b: CharacterId, ob: Offer): Items {
    Debit(Debit(items, a, oa.items), b, ob.items)
  }

  function ChargedBalances(currency: Balances, a: CharacterId, oa: Offer, b: CharacterId, ob: Offer): Balances {
    DebitBalance(DebitBalance(currency, a, oa.currency), b, ob.currency)
  }

  predicate CanCharge(db: Db, a: CharacterId, oa: Offer, b: CharacterId, ob: Offer) {
    && Covers(db.items, a, oa.items) && Covers(Debit(db.items, a, oa.items), b, ob.items)
    && CoversBalance(db.currency, a, oa.currency)
    && CoversBalance(DebitBalance(db.currency, a, oa.currency), b, ob.currency)
  }

  predicate CanPay(max: nat, items: Items, currency: Balances, a: CharacterId, oa: Offer, b: CharacterId, ob: Offer) {
    && HasRoom(max, items, b, oa.items) && HasRoom(max, Credit(items, b, oa.items), a, ob.items)
    && HasBalanceRoom(currency, b, oa.currency)
    && HasBalanceRoom(CreditBalance(currency, b, oa.currency), a, ob.currency)
  }

  // Every statement of the transaction succeeds, in the order it issues them.
  predicate GoesThrough(max: nat, db: Db, a: CharacterId, oa: Offer, b: CharacterId, ob: Offer) {
    && AllAmountsPositive(oa, ob)
    && CanCharge(db, a, oa, b, ob)
    && CanPay(max, Charged(db.items, a, oa, b, ob), ChargedBalances(db.currency, a, oa, b, ob), a, oa, b, ob)
  }

  function Traded(db: Db, a: CharacterId, oa: Offer, b: CharacterId, ob: Offer): Db {
    db.(items := Credit(Credit(Charged(db.items, a, oa, b, ob), b, oa.items), a, ob.items),
        currency := CreditBalance(CreditBalance(ChargedBalances(db.currency, a, oa, b, ob), b, oa.currency), a,
            ob.currency))
  }

  // The up-front checks refuse nothing that the statements after them would let through.
  lemma ChecksRefuseNothingElse(max: nat, db: Db, a: CharacterId, oa: Offer, b: CharacterId, ob: Offer)
    requires Checked(db) && GoesThrough(max, db, a, oa, b, ob)
    ensures EachHeld(db.items, a, oa.items) && EachHeld(db.items, b, ob.items)
    ensures EachBalanceHeld(db.currency, a, oa.currency) && EachBalanceHeld(db.currency, b, ob.currency)
  {
    hide SumFor, Debit, DebitBalance, KeysOf, HasRoom, HasBalanceRoom;
    forall e | e in oa.items ensures e.1 <= Quantity(db.items, a, e.0) {
      EntryWithinTotal(oa.items, e);
    }
    forall e | e in ob.items ensures e.1 <= Quantity(db.items, b, e.0) {
      EntryWithinTotal(ob.items, e);
      DebitQuantity(db.items, a, oa.items, b, e.0);
      SumForListed(oa.items, e.0);
    }
    forall e | e in oa.currency ensures e.1 <= Balance(db.currency, a, e.0) {
      EntryWithinTotal(oa.currency, e);
    }
    forall e | e in ob.currency ensures e.1 <= Balance(db.currency, b, e.0) {
      EntryWithinTotal(ob.currency, e);
      DebitBalanceAt(db.currency, a, oa.currency, b, e.0);
      SumForListed(oa.currency, e.0);
    }
  }

  // Between two characters, the value each side last reported for a key is its final one.
  lemma ReportsAreFinal(max: nat, db: Db, a: CharacterId, oa: Offer, b: CharacterId, ob: Offer, k: string)
    requires Checked(db) && a != b && GoesThrough(max, db, a, oa, b, ob)
    ensures var final := Traded(db, a, oa, b, ob);
            var items, currency := Charged(db.items, a, oa, b, ob), ChargedBalances(db.currency, a, oa, b, ob);
            && (k !in KeysOf(ob.items) ==> Quantity(Debit(db.items, a, oa.items), a, k) == Quantity(final.items, a, k))
            && (k !in KeysOf(oa.items) ==> Quantity(items, b, k) == Quantity(final.items, b, k))
            && Quantity(Credit(items, b, oa.items), b, k) == Quantity(final.items, b, k)
            && (k !in KeysOf(ob.currency) ==>
                  Balance(DebitBalance(db.currency, a, oa.currency), a, k) == Balance(final.currency, a, k))
            && (k !in KeysOf(oa.currency) ==> Balance(currency, b, k) == Balance(final.currency, b, k))
            && Balance(CreditBalance(currency, b, oa.currency), b, k) == Balance(final.currency, b, k)
  {
    hide Debit, Credit, SumFor, DebitBalance, CreditBalance, HasRoom, HasBalanceRoom, KeysOf;
    var one := Debit(db.items, a, oa.items);
    var two := Debit(one, b, ob.items);
    var three := Credit(two, b, oa.items);
    DebitQuantity(one, b, ob.items, a, k);
    CreditQuantity(two, b, oa.items, a, k);
    CreditQuantity(two, b, oa.items, b, k);
    CreditQuantity(three, a, ob.items, a, k);
    CreditQuantity(three, a, ob.items, b, k);
    SumForListed(oa.items, k);
    SumForListed(ob.items, k);
    var first := DebitBalance(db.currency, a, oa.currency);
    var second := DebitBalance(first, b, ob.currency);
    var third := CreditBalance(second, b, oa.currency);
    DebitBalanceAt(first, b, ob.currency, a, k);
    CreditBalanceAt(second, b, oa.currency, a, k);
    CreditBalanceAt(second, b, oa.currency, b, k);
    CreditBalanceAt(third, a, ob.currency, a, k);
    CreditBalanceAt(third, a, ob.currency, b, k);
    SumForListed(oa.currency, k);
    SumForListed(ob.currency, k);
  }

  // With oneself, what each side last reported for a key: the first side the final value if
  // the second offer lists the key, the second side the value before that offer came back.
  lemma SelfReportValues(max: nat, db: Db, a: CharacterId, oa: Offer, ob: Offer, k: string)
    requires Checked(db) && GoesThrough(max, db, a, oa, a, ob)
    ensures var final := Traded(db, a, oa, a, ob);
            var items, currency := Charged(db.items, a, oa, a, ob), ChargedBalances(db.currency, a, oa, a, ob);
            && Quantity(Debit(db.items, a, oa.items), a, k) == Quantity(final.items, a, k) - SumFor(oa.items, k)
            && (k !in KeysOf(oa.items) ==>
                  Quantity(items, a, k) == Quantity(final.items, a, k) - SumFor(ob.items, k))
            && Quantity(Credit(items, a, oa.items), a, k) == Quantity(final.items, a, k) - SumFor(ob.items, k)
            && Balance(DebitBalance(db.currency, a, oa.currency), a, k)
               == Balance(final.currency, a, k) - SumFor(oa.currency, k)
            && (k !in KeysOf(oa.currency) ==>
                  Balance(currency, a, k) == Balance(final.currency, a, k) - SumFor(ob.currency, k))
            && Balance(CreditBalance(currency, a, oa.currency), a, k)
               == Balance(final.currency, a, k) - SumFor(ob.currency, k)
  {
    hide Debit, Credit, SumFor, DebitBalance, CreditBalance, HasRoom, HasBalanceRoom, KeysOf;
    var one := Debit(db.items, a, oa.items);
    var two := Debit(one, a, ob.items);
    var three := Credit(two, a, oa.items);
    DebitQuantity(db.items, a, oa.items, a, k);
    DebitQuantity(one, a, ob.items, a, k);
    CreditQuantity(two, a, oa.items, a, k);
    CreditQuantity(three, a, ob.items, a, k);
    SumForListed(oa.items, k);
    var first := DebitBalance(db.currency, a, oa.currency);
    var second := DebitBalance(first, a, ob.currency);
    var third := CreditBalance(second, a, oa.currency);
    DebitBalanceAt(db.currency, a, oa.currency, a, k);
    DebitBalanceAt(first, a, ob.currency, a, k);
    CreditBalanceAt(second, a, oa.currency, a, k);
    CreditBalanceAt(third, a, ob.currency, a, k);
    SumForListed(oa.currency, k);
  }

  // What the trade moves into (or out of) one character's stack or balance of one key.
  function Moved(a: CharacterId, given: Entries, b: CharacterId, taken: Entries, d: CharacterId, k: string): int {
    (if d == a then SumFor(taken, k) - SumFor(given, k) else 0)
    + (if d == b then SumFor(given, k) - SumFor(taken, k) else 0)
  }

  // A trade that goes through is the simultaneous exchange, for items and for currency, and
  // touches nobody and nothing else. (A trade with oneself moves nothing.)
  lemma TradeExchanges(max: nat, db: Db, a: CharacterId, oa: Offer, b: CharacterId, ob: Offer)
    requires Checked(db) && GoesThrough(max, db, a, oa, b, ob)
    ensures forall d, k :: Quantity(Traded(db, a, oa, b, ob).items, d, k)
                        == Quantity(db.items, d, k) + Moved(a, oa.items, b, ob.items, d, k)
    ensures forall d, k :: Balance(Traded(db, a, oa, b, ob).currency, d, k)
                        == Balance(db.currency, d, k) + Moved(a, oa.currency, b, ob.currency, d, k)
    ensures Traded(db, a, oa, b, ob).stats == db.stats && Traded(db, a, oa, b, ob).equipped == db.equipped
  {
    hide Debit, Credit, SumFor, DebitBalance, CreditBalance, HasRoom, HasBalanceRoom, Covers, CoversBalance;
    forall d, k ensures Quantity(Traded(db, a, oa, b, ob).items, d, k)
                     == Quantity(db.items, d, k) + Moved(a, oa.items, b, ob.items, d, k)
    {
      var one := Debit(db.items, a, oa.items);
      var two := Debit(one, b, ob.items);
      var three := Credit(two, b, oa.items);
      DebitQuantity(db.items, a, oa.items, d, k);
      DebitQuantity(one, b, ob.items, d, k);
      CreditQuantity(two, b, oa.items, d, k);
      CreditQuantity(three, a, ob.items, d, k);
    }
    forall d, k ensures Balance(Traded(db, a, oa, b, ob).currency, d, k)
                     == Balance(db.currency, d, k) + Moved(a, oa.currency, b, ob.currency, d, k)
    {
      var one := DebitBalance(db.currency, a, oa.currency);
      var two := DebitBalance(one, b, ob.currency);
      var three := CreditBalance(two, b, oa.currency);
      DebitBalanceAt(db.currency, a, oa.currency, d, k);
      DebitBalanceAt(one, b, ob.currency, d, k);
      CreditBalanceAt(two, b, oa.currency, d, k);
      CreditBalanceAt(three, a, ob.currency, d, k);
    }
  }

  // The column checks and the cap on distinct types hold again after a trade.
  lemma TradeKeepsChecks(max: nat, db: Db, a: CharacterId, oa: Offer, b: CharacterId, ob: Offer)
    requires Checked(db) && GoesThrough(max, db, a, oa, b, ob)
    ensures Checked(Traded(db, a, oa, b, ob))
    ensures (forall d :: |Types(db.items, d)| <= max) ==>
              forall d :: |Types(Traded(db, a, oa, b, ob).items, d)| <= max
  {
    hide Debit, Credit, SumFor, DebitBalance, CreditBalance, Types, NewTypes;
    var one := Debit(db.items, a, oa.items);
    var two := Debit(one, b, ob.items);
    var three := Credit(two, b, oa.items);
    DebitChecked(db.items, a, oa.items);
    DebitChecked(one, b, ob.items);
    CreditChecked(max, two, b, oa.items);
    CreditChecked(max, three, a, ob.items);
    if forall d :: |Types(db.items, d)| <= max {
      forall d ensures |Types(Traded(db, a, oa, b, ob).items, d)| <= max {
        SubsetSize(Types(one, d), Types(db.items, d));
        SubsetSize(Types(two, d), Types(one, d));
        CreditTypes(two, b, oa.items, d);
        CreditTypes(three, a, ob.items, d);
      }
    }
    var first := DebitBalance(db.currency, a, oa.currency);
    var second := DebitBalance(first, b, ob.currency);
    var third := CreditBalance(second, b, oa.currency);
    BalancesStayChecked(db.currency, a, oa.currency);
    BalancesStayChecked(first, b, ob.currency);
    BalancesStayChecked(second, b, oa.currency);
    BalancesStayChecked(third, a, ob.currency);
  }

  // The stacks character `d` ends with when giving and taking these entries at once.
  function FinalTypes(items: Items, d: CharacterId, given: Entries, taken: Entries): set<string> {
    set k | k in Types(items, d) + KeysOf(taken) && Quantity(items, d, k) - SumFor(given, k) + SumFor(taken, k) > 0
  }

  // The receiver's side of the condition, in terms of its holdings before the trade: no key
  // overflows, and if some taken key would be a new stack for it after what it gives away,
  // it ends within the cap.
  predicate CanTake(max: nat, items: Items, d: CharacterId, given: Entries, taken: Entries) {
    && (forall k :: k in KeysOf(taken) ==>
          Quantity(items, d, k) - SumFor(given, k) + SumFor(taken, k) <= I64_MAX)
    && ((exists k :: k in KeysOf(taken) && Quantity(items, d, k) == SumFor(given, k)) ==>
          |FinalTypes(items, d, given, taken)| <= max)
  }

  predicate CanTakeBalance(currency: Balances, d: CharacterId, given: Entries, taken: Entries) {
    forall k :: k in KeysOf(taken) ==>
      Balance(currency, d, k) - SumFor(given, k) + SumFor(taken, k) <= I64_MAX
  }

  // Between two characters a trade succeeds exactly when every amount is positive, each side
  // holds what it offers in total, and each side can take what it receives.
  predicate TradeAcceptable(max: nat, db: Db, a: CharacterId, oa: Offer, b: CharacterId, ob: Offer) {
    && AllAmountsPositive(oa, ob)
    && Covers(db.items, a, oa.items) && Covers(db.items, b, ob.items)
    && CoversBalance(db.currency, a, oa.currency) && CoversBalance(db.currency, b, ob.currency)
    && CanTake(max, db.items, a, oa.items, ob.items) && CanTake(max, db.items, b, ob.items, oa.items)
    && CanTakeBalance(db.currency, a, oa.currency, ob.currency)
    && CanTakeBalance(db.currency, b, ob.currency, oa.currency)
  }

  // A trade with oneself succeeds exactly when both offers together are held, and the stacks
  // the two of them empty can be opened again.
  predicate SelfTradeAcceptable(max: nat, db: Db, a: CharacterId, oa: Offer, ob: Offer) {
    && AllAmountsPositive(oa, ob)
    && Covers(db.items, a, oa.items + ob.items) && CoversBalance(db.currency, a, oa.currency + ob.currency)
    && CanTake(max, db.items, a, oa.items + ob.items, oa.items) && CanTake(max, db.items, a, ob.items, ob.items)
  }

  lemma TradeSucceedsExactlyWhen(max: nat, db: Db, a: CharacterId, oa: Offer, b: CharacterId, ob: Offer)
    requires Checked(db)
    ensures GoesThrough(max, db, a, oa, b, ob)
       <==> if a == b then SelfTradeAcceptable(max, db, a, oa, ob) else TradeAcceptable(max, db, a, oa, b, ob)
  {
    hide Covers, CoversBalance, HasRoom, HasBalanceRoom, CanTake, CanTakeBalance, Debit, DebitBalance, Credit,
         CreditBalance;
    if AllAmountsPositive(oa, ob) {
      if a == b {
        SelfItemsEquivalent(max, db.items, a, oa.items, ob.items);
        SelfCurrencyEquivalent(db.currency, a, oa.currency, ob.currency);
      } else if Covers(db.items, a, oa.items) && CoversBalance(db.currency, a, oa.currency) {
        ItemsSideEquivalent(max, db.items, a, oa.items, b, ob.items);
        CurrencySideEquivalent(db.currency, a, oa.currency, b, ob.currency);
      }
    }
  }

  // Listing two lists one after the other adds their totals and their keys.
  lemma Both(x: Entries, y: Entries)
    ensures forall k :: SumFor(x + y, k) == SumFor(x, k) + SumFor(y, k)
    ensures KeysOf(x + y) == KeysOf(x) + KeysOf(y)
    ensures AllPositive(x) && AllPositive(y) ==> AllPositive(x + y)
  {
    forall k ensures SumFor(x + y, k) == SumFor(x, k) + SumFor(y, k) {
      SumForConcat(x, y, k);
    }
  }

  lemma Unlisted(entries: Entries)
    requires AllPositive(entries)
    ensures forall k :: SumFor(entries, k) >= 0 && (SumFor(entries, k) > 0 <==> k in KeysOf(entries))
  {
    forall k ensures SumFor(entries, k) >= 0 && (SumFor(entries, k) > 0 <==> k in KeysOf(entries)) {
      SumForListed(entries, k);
    }
  }

  lemma SelfItemsEquivalent(max: nat, items: Items, a: CharacterId, oa: Entries, ob: Entries)
    requires ItemsChecked(items) && AllPositive(oa) && AllPositive(ob)
    ensures var two := Debit(Debit(items, a, oa), a, ob);
            && (Covers(items, a, oa) && Covers(Debit(items, a, oa), a, ob) <==> Covers(items, a, oa + ob))
            && (Covers(items, a, oa + ob) ==>
                  && (HasRoom(max, two, a, oa) <==> CanTake(max, items, a, oa + ob, oa))
                  && (HasRoom(max, Credit(two, a, oa), a, ob) <==> CanTake(max, items, a, ob, ob)))
  {
    hide Debit, Credit, SumFor, Types, NewTypes, HasRoom, CanTake, KeysOf;
    Both(oa, ob);
    Unlisted(oa);
    Unlisted(ob);
    if Covers(items, a, oa) {
      var one := Debit(items, a, oa);
      forall k ensures Quantity(one, a, k) == Quantity(items, a, k) - SumFor(oa, k) {
        DebitQuantity(items, a, oa, a, k);
      }
      if Covers(one, a, ob) {
        DebitChecked(items, a, oa);
        SelfRoomEquivalent(max, items, one, a, oa, ob);
      }
    }
  }

  lemma SelfRoomEquivalent(max: nat, items: Items, one: Items, a: CharacterId, oa: Entries, ob: Entries)
    requires ItemsChecked(items) && ItemsChecked(one) && AllPositive(oa) && AllPositive(ob)
    requires Covers(items, a, oa + ob) && Covers(one, a, ob)
    requires forall k :: Quantity(one, a, k) == Quantity(items, a, k) - SumFor(oa, k)
    ensures var two := Debit(one, a, ob);
            && (HasRoom(max, two, a, oa) <==> CanTake(max, items, a, oa + ob, oa))
            && (HasRoom(max, Credit(two, a, oa), a, ob) <==> CanTake(max, items, a, ob, ob))
  {
    hide Debit, Credit, SumFor, Types, NewTypes, HasRoom, CanTake, KeysOf;
    var two := Debit(one, a, ob);
    var three := Credit(two, a, oa);
    Both(oa, ob);
    Unlisted(oa);
    Unlisted(ob);
    DebitChecked(one, a, ob);
    forall k ensures Quantity(two, a, k) == Quantity(items, a, k) - SumFor(oa, k) - SumFor(ob, k)
             ensures Quantity(three, a, k) == Quantity(items, a, k) - SumFor(ob, k)
    {
      DebitQuantity(one, a, ob, a, k);
      CreditQuantity(two, a, oa, a, k);
    }
    RoomIsCanTake(max, items, two, a, oa + ob, oa);
    assert Covers(items, a, ob);
    forall k | (a, k) in three ensures three[(a, k)].quantity > 0 {
      CreditedPositive(two, a, oa, k);
    }
    RoomIsCanTake(max, items, three, a, ob, ob);
  }

  lemma CreditedPositive(items: Items, c: CharacterId, entries: Entries, k: string)
    requires ItemsChecked(items) && AllPositive(entries) && (c, k) in Credit(items, c, entries)
    ensures Credit(items, c, entries)[(c, k)].quantity > 0
  {
    SumForListed(entries, k);
  }

  lemma SelfCurrencyEquivalent(currency: Balances, a: CharacterId, oa: Entries, ob: Entries)
    requires BalancesChecked(currency) && AllPositive(oa) && AllPositive(ob)
    ensures var two := DebitBalance(DebitBalance(currency, a, oa), a, ob);
            && (CoversBalance(currency, a, oa) && CoversBalance(DebitBalance(currency, a, oa), a, ob)
                <==> CoversBalance(currency, a, oa + ob))
            && (CoversBalance(currency, a, oa + ob) ==>
                  HasBalanceRoom(two, a, oa) && HasBalanceRoom(CreditBalance(two, a, oa), a, ob))
  {
    hide DebitBalance, CreditBalance, SumFor, KeysOf;
    Both(oa, ob);
    Unlisted(oa);
    Unlisted(ob);
    if CoversBalance(currency, a, oa) {
      var one := DebitBalance(currency, a, oa);
      forall k ensures Balance(one, a, k) == Balance(currency, a, k) - SumFor(oa, k) {
        DebitBalanceAt(currency, a, oa, a, k);
      }
      if CoversBalance(one, a, ob) {
        var two := DebitBalance(one, a, ob);
        forall k ensures Balance(two, a, k) == Balance(currency, a, k) - SumFor(oa, k) - SumFor(ob, k)
                 ensures Balance(CreditBalance(two, a, oa), a, k) == Balance(currency, a, k) - SumFor(ob, k)
        {
          DebitBalanceAt(one, a, ob, a, k);
          CreditBalanceAt(two, a, oa, a, k);
        }
        BalanceFits(currency, a);
      }
    }
  }

  lemma BalanceFits(currency: Balances, a: CharacterId)
    requires BalancesChecked(currency)
    ensures forall k :: Balance(currency, a, k) <= I64_MAX
  {
  }

  lemma ItemsSideEquivalent(max: nat, items: Items, a: CharacterId, oa: Entries, b: CharacterId, ob: Entries)
    requires ItemsChecked(items) && a != b && AllPositive(oa) && AllPositive(ob) && Covers(items, a, oa)
    ensures Covers(Debit(items, a, oa), b, ob) <==> Covers(items, b, ob)
    ensures Covers(items, b, ob) ==>
              (HasRoom(max, Debit(Debit(items, a, oa), b, ob), b, oa) <==> CanTake(max, items, b, ob, oa))
    ensures Covers(items, b, ob) ==>
              (HasRoom(max, Credit(Debit(Debit(items, a, oa), b, ob), b, oa), a, ob)
               <==> CanTake(max, items, a, oa, ob))
  {
    hide Debit, Credit, SumFor, Types, NewTypes, HasRoom, CanTake;
    var one := Debit(items, a, oa);
    forall k ensures Quantity(one, b, k) == Quantity(items, b, k) {
      DebitQuantity(items, a, oa, b, k);
    }
    if Covers(items, b, ob) {
      DebitChecked(items, a, oa);
      var two := Debit(one, b, ob);
      DebitChecked(one, b, ob);
      forall d, k ensures Quantity(two, d, k)
                       == Quantity(items, d, k) - (if d == a then SumFor(oa, k) else 0)
                                                - (if d == b then SumFor(ob, k) else 0)
      {
        DebitQuantity(items, a, oa, d, k);
        DebitQuantity(one, b, ob, d, k);
      }
      RoomIsCanTake(max, items, two, b, ob, oa);
      var three := Credit(two, b, oa);
      forall k ensures Quantity(three, a, k) == Quantity(two, a, k) {
        CreditQuantity(two, b, oa, a, k);
      }
      forall k | (a, k) in three ensures three[(a, k)].quantity > 0 {
        CreditTypes(two, b, oa, a);
        assert Types(three, a) == Types(two, a);
        TypesIn(three, a, k);
        TypesIn(two, a, k);
        assert three[(a, k)].quantity == Quantity(three, a, k) == Quantity(two, a, k);
      }
      RoomIsCanTake(max, items, three, a, oa, ob);
    }
  }

  lemma TypesIn(items: Items, c: CharacterId, k: string)
    ensures k in Types(items, c) <==> (c, k) in items
  {
  }

  // Room after the charges is the declared condition on the holdings before them.
  lemma RoomIsCanTake(max: nat, items: Items, charged: Items, d: CharacterId, given: Entries, taken: Entries)
    requires ItemsChecked(items) && AllPositive(given) && AllPositive(taken)
    requires Covers(items, d, given)
    requires forall k :: Quantity(charged, d, k) == Quantity(items, d, k) - SumFor(given, k)
    requires forall k :: (d, k) in charged ==> charged[(d, k)].quantity > 0
    ensures HasRoom(max, charged, d, taken) <==> CanTake(max, items, d, given, taken)
  {
    hide SumFor, Types, NewTypes, FinalTypes, KeysOf;
    NewAndKept(items, charged, d, given, taken);
    forall k ensures SumFor(taken, k) > 0 <==> k in KeysOf(taken) {
      SumForListed(taken, k);
    }
  }

  lemma NewAndKept(items: Items, charged: Items, d: CharacterId, given: Entries, taken: Entries)
    requires AllPositive(given) && AllPositive(taken)
    requires forall k :: Quantity(charged, d, k) == Quantity(items, d, k) - SumFor(given, k)
    requires forall k :: (d, k) in charged ==> charged[(d, k)].quantity > 0
    ensures |Types(charged, d)| + |NewTypes(charged, d, taken)| == |FinalTypes(items, d, given, taken)|
    ensures NewTypes(charged, d, taken) != {} <==>
            exists k :: k in KeysOf(taken) && Quantity(items, d, k) == SumFor(given, k)
  {
    hide *;
    var kept, added, final := Types(charged, d), NewTypes(charged, d, taken), FinalTypes(items, d, given, taken);
    forall k
      ensures k in final <==> k in kept || k in added
      ensures !(k in kept && k in added)
      ensures k in added <==> k in KeysOf(taken) && Quantity(items, d, k) == SumFor(given, k)
    {
      StackFacts(items, charged, d, given, taken, k);
    }
    assert kept + added == final;
    assert kept !! added;
    assert added != {} ==> exists k :: k in added;
  }

  lemma StackFacts(items: Items, charged: Items, d: CharacterId, given: Entries, taken: Entries, k: string)
    requires AllPositive(given) && AllPositive(taken)
    requires Quantity(charged, d, k) == Quantity(items, d, k) - SumFor(given, k)
    requires (d, k) in charged ==> charged[(d, k)].quantity > 0
    ensures var kept, added := Types(charged, d), NewTypes(charged, d, taken);
            && (k in FinalTypes(items, d, given, taken) <==> k in kept || k in added)
            && !(k in kept && k in added)
            && (k in added <==> k in KeysOf(taken) && Quantity(items, d, k) == SumFor(given, k))
  {
    hide SumFor, KeysOf, Quantity;
    RowFacts(items, charged, d, given, k);
    SumForListed(taken, k);
  }

  lemma RowFacts(items: Items, charged: Items, d: CharacterId, given: Entries, k: string)
    requires AllPositive(given)
    requires Quantity(charged, d, k) == Quantity(items, d, k) - SumFor(given, k)
    requires (d, k) in charged ==> charged[(d, k)].quantity > 0
    ensures (d, k) in charged <==> Quantity(charged, d, k) > 0
    ensures (d, k) !in charged ==> Quantity(charged, d, k) == 0
    ensures Quantity(charged, d, k) > 0 ==> k in Types(items, d)
  {
    SumForListed(given, k);
  }

  lemma CurrencySideEquivalent(currency: Balances, a: CharacterId, oa: Entries, b: CharacterId, ob: Entries)
    requires BalancesChecked(currency) && a != b && AllPositive(oa) && AllPositive(ob)
    requires CoversBalance(currency, a, oa)
    ensures CoversBalance(DebitBalance(currency, a, oa), b, ob) <==> CoversBalance(currency, b, ob)
    ensures CoversBalance(currency, b, ob) ==>
              var charged := DebitBalance(DebitBalance(currency, a, oa), b, ob);
              && (HasBalanceRoom(charged, b, oa) <==> CanTakeBalance(currency, b, ob, oa))
              && (HasBalanceRoom(CreditBalance(charged, b, oa), a, ob) <==> CanTakeBalance(currency, a, oa, ob))
  {
    hide DebitBalance, CreditBalance, SumFor;
    var one := DebitBalance(currency, a, oa);
    forall k ensures Balance(one, b, k) == Balance(currency, b, k) {
      DebitBalanceAt(currency, a, oa, b, k);
    }
    if CoversBalance(currency, b, ob) {
      var two := DebitBalance(one, b, ob);
      forall d, k ensures Balance(two, d, k)
                       == Balance(currency, d, k) - (if d == a then SumFor(oa, k) else 0)
                                                  - (if d == b then SumFor(ob, k) else 0)
      {
        DebitBalanceAt(currency, a, oa, d, k);
        DebitBalanceAt(one, b, ob, d, k);
      }
      forall k ensures Balance(CreditBalance(two, b, oa), a, k) == Balance(two, a, k) {
        CreditBalanceAt(two, b, oa, a, k);
      }
    }
  }

  lemma NoEntries()
    ensures KeysOf([]) == {} && AllPositive([])
  {
  }

  lemma OneEntry(k: string, n: int)
    ensures KeysOf([(k, n)]) == {k} && forall j :: SumFor([(k, n)], j) == if j == k then n else 0
    ensures AllPositive([(k, n)]) <==> n > 0
  {
    assert [(k, n)][..0] == [];
    forall j ensures SumFor([(k, n)], j) == if j == k then n else 0 {
      assert SumFor([(k, n)], j) == SumFor([], j) + if j == k then n else 0;
    }
    assert (k, n) in [(k, n)];
  }

  // A character at the cap that gives away all of a type can take a new one for it: the slot
  // freed by the charge is there when the payment is checked.
  lemma FreedSlotIsUsed(max: nat, db: Db, a: CharacterId, k: string, b: CharacterId, j: string)
    requires Checked(db) && a != b && k != j
    requires (a, k) in db.items && (b, j) in db.items && (a, j) !in db.items && (b, k) !in db.items
    requires |Types(db.items, a)| == |Types(db.items, b)| == max
    ensures var oa, ob := Offer([(k, Quantity(db.items, a, k))], []), Offer([(j, Quantity(db.items, b, j))], []);
            GoesThrough(max, db, a, oa, b, ob)
  {
    hide SumFor, KeysOf, GoesThrough, CanTake, Types;
    var n, m := Quantity(db.items, a, k), Quantity(db.items, b, j);
    var oa, ob := Offer([(k, n)], []), Offer([(j, m)], []);
    OneEntry(k, n);
    OneEntry(j, m);
    Emptied(max, db.items, a, k, [(k, n)], j, [(j, m)]);
    Emptied(max, db.items, b, j, [(j, m)], k, [(k, n)]);
    NoEntries();
    TradeSucceedsExactlyWhen(max, db, a, oa, b, ob);
  }

  lemma Emptied(max: nat, items: Items, d: CharacterId, k: string, given: Entries, j: string, taken: Entries)
    requires ItemsChecked(items) && (d, k) in items && (d, j) !in items && |Types(items, d)| == max
    requires KeysOf(given) == {k} && (forall l :: SumFor(given, l) == if l == k then Quantity(items, d, k) else 0)
    requires KeysOf(taken) == {j} && (forall l :: l != j ==> SumFor(taken, l) == 0) && 0 < SumFor(taken, j) <= I64_MAX
    ensures CanTake(max, items, d, given, taken)
  {
    hide SumFor, KeysOf, Types;
    var final := FinalTypes(items, d, given, taken);
    forall l ensures l in final <==> l in Types(items, d) - {k} + {j} {
    }
    assert final == Types(items, d) - {k} + {j};
    assert |Types(items, d) - {k}| == max - 1;
  }

  // As two characters with one type each and a cap of one.
  lemma FreedSlotExample() returns (db: Db)
    ensures Checked(db) && |Types(db.items, 1)| == |Types(db.items, 2)| == 1
    ensures GoesThrough(1, db, 1, Offer([("bow", 1)], []), 2, Offer([("axe", 1)], []))
  {
    db := Db(map[(1, "bow") := Stack(1, None), (2, "axe") := Stack(1, None)], map[], map[], map[]);
    assert Types(db.items, 1) == {"bow"} && Types(db.items, 2) == {"axe"};
    FreedSlotIsUsed(1, db, 1, "bow", 2, "axe");
  }

  predicate Reordered(x: Offer, y: Offer) {
    multiset(x.items) == multiset(y.items) && multiset(x.currency) == multiset(y.currency)
  }

  // Listing the entries of either offer in another order changes neither the verdict nor
  // any row of the result.
  lemma TradeIgnoresEntryOrder(max: nat, db: Db, a: CharacterId, oa: Offer, oa': Offer, b: CharacterId, ob: Offer,
          ob': Offer)
    requires Reordered(oa, oa') && Reordered(ob, ob')
    ensures GoesThrough(max, db, a, oa, b, ob) <==> GoesThrough(max, db, a, oa', b, ob')
    ensures Traded(db, a, oa, b, ob) == Traded(db, a, oa', b, ob')
  {
    hide Debit, Credit, DebitBalance, CreditBalance, SumFor, KeysOf, Covers, CoversBalance, HasRoom, HasBalanceRoom;
    SameTotals(oa.items, oa'.items);
    SameTotals(ob.items, ob'.items);
    SameTotals(oa.currency, oa'.currency);
    SameTotals(ob.currency, ob'.currency);
    var charged, paidOut := Charged(db.items, a, oa, b, ob), ChargedBalances(db.currency, a, oa, b, ob);
    SameItemEffects(max, db.items, a, oa.items, oa'.items);
    SameItemEffects(max, Debit(db.items, a, oa.items), b, ob.items, ob'.items);
    SameItemEffects(max, charged, b, oa.items, oa'.items);
    SameItemEffects(max, Credit(charged, b, oa.items), a, ob.items, ob'.items);
    SameBalanceEffects(db.currency, a, oa.currency, oa'.currency);
    SameBalanceEffects(DebitBalance(db.currency, a, oa.currency), b, ob.currency, ob'.currency);
    SameBalanceEffects(paidOut, b, oa.currency, oa'.currency);
    SameBalanceEffects(CreditBalance(paidOut, b, oa.currency), a, ob.currency, ob'.currency);
  }

  lemma SameTotals(x: Entries, y: Entries)
    requires multiset(x) == multiset(y)
    ensures forall k :: SumFor(x, k) == SumFor(y, k)
    ensures KeysOf(x) == KeysOf(y) && (AllPositive(x) <==> AllPositive(y))
  {
    forall k ensures SumFor(x, k) == SumFor(y, k) { SumForReordered(x, y, k); }
    KeysOfReordered(x, y);
  }

  lemma SameItemEffects(max: nat, items: Items, c: CharacterId, x: Entries, y: Entries)
    requires (forall k :: SumFor(x, k) == SumFor(y, k)) && KeysOf(x) == KeysOf(y)
    ensures Covers(items, c, x) <==> Covers(items, c, y)
    ensures HasRoom(max, items, c, x) <==> HasRoom(max, items, c, y)
    ensures Debit(items, c, x) == Debit(items, c, y) && Credit(items, c, x) == Credit(items, c, y)
  {
    hide SumFor, KeysOf, Types;
    assert NewTypes(items, c, x) == NewTypes(items, c, y);
    assert PaidRows(items.Keys, c, x) == PaidRows(items.Keys, c, y);
  }

  lemma SameBalanceEffects(currency: Balances, c: CharacterId, x: Entries, y: Entries)
    requires (forall k :: SumFor(x, k) == SumFor(y, k)) && KeysOf(x) == KeysOf(y)
    ensures CoversBalance(currency, c, x) <==> CoversBalance(currency, c, y)
    ensures HasBalanceRoom(currency, c, x) <==> HasBalanceRoom(currency, c, y)
    ensures DebitBalance(currency, c, x) == DebitBalance(currency, c, y)
    ensures CreditBalance(currency, c, x) == CreditBalance(currency, c, y)
  {
    hide SumFor, KeysOf;
    assert PaidRows(currency.Keys, c, x) == PaidRows(currency.Keys, c, y);
  }
}
