/** The trade transaction itself: validate, charge both sides, pay both sides, report. */
module TradeTransaction {
  import opened Prelude
  import opened Tables
  import opened Ledger
  import opened Trade
  import opened TradeLaws

  datatype TradeReport = TradeReport(aItems: Changes, aCurrency: Changes, bItems: Changes, bCurrency: Changes)

  // A report lists every key that changed hands, with its value in the table.
  predicate ReportsItems(changes: Changes, oa: Offer, ob: Offer, db: Db, c: CharacterId) {
    && changes.Keys == KeysOf(oa.items) + KeysOf(ob.items)
    && forall k :: k in changes ==> changes[k] == Quantity(db.items, c, k)
  }

  predicate ReportsBalances(changes: Changes, oa: Offer, ob: Offer, db: Db, c: CharacterId) {
    && changes.Keys == KeysOf(oa.currency) + KeysOf(ob.currency)
    && forall k :: k in changes ==> changes[k] == Balance(db.currency, c, k)
  }

  // What the two sides report of a trade with oneself, which ends with the values it began
  // with: the first side is right about exactly the keys of the second offer, the second side
  // about exactly the others.
  predicate SelfReport(first: Changes, second: Changes, given: Entries, taken: Entries, final: string -> int) {
    && first.Keys == second.Keys == KeysOf(given) + KeysOf(taken)
    && (forall k :: k in first ==> first[k] == final(k) - if k in KeysOf(taken) then 0 else SumFor(given, k))
    && (forall k :: k in second ==> second[k] == final(k) - SumFor(taken, k))
  }

  predicate SelfReports(report: TradeReport, oa: Offer, ob: Offer, db: Db, c: CharacterId) {
    && SelfReport(report.aItems, report.bItems, oa.items, ob.items, k => Quantity(db.items, c, k))
    && SelfReport(report.aCurrency, report.bCurrency, oa.currency, ob.currency, k => Balance(db.currency, c, k))
  }

  method OfferPositive(offer: Offer) returns (ok: bool)
    ensures ok <==> AllPositive(offer.items) && AllPositive(offer.currency)
  {
    for i := 0 to |offer.items|
      invariant forall j :: 0 <= j < i ==> offer.items[j].1 > 0
    {
      if offer.items[i].1 <= 0 {
        assert offer.items[i] in offer.items;
        return false;
      }
    }
    for i := 0 to |offer.currency|
      invariant forall j :: 0 <= j < i ==> offer.currency[j].1 > 0
    {
      if offer.currency[i].1 <= 0 {
        assert offer.currency[i] in offer.currency;
        return false;
      }
    }
    ok := true;
  }

  // The reports after the charges, from the tables `tx` before them.
  ghost predicate Taken(report: TradeReport, tx: Db, a: CharacterId, oa: Offer, b: CharacterId, ob: Offer) {
    var items, currency := Charged(tx.items, a, oa, b, ob), ChargedBalances(tx.currency, a, oa, b, ob);
    && report.aItems.Keys == KeysOf(oa.items) && report.bItems.Keys == KeysOf(ob.items)
    && report.aCurrency.Keys == KeysOf(oa.currency) && report.bCurrency.Keys == KeysOf(ob.currency)
    && (forall k :: k in report.aItems ==> report.aItems[k] == Quantity(Debit(tx.items, a, oa.items), a, k))
    && (forall k :: k in report.bItems ==> report.bItems[k] == Quantity(items, b, k))
    && (forall k :: k in report.aCurrency ==>
          report.aCurrency[k] == Balance(DebitBalance(tx.currency, a, oa.currency), a, k))
    && (forall k :: k in report.bCurrency ==> report.bCurrency[k] == Balance(currency, b, k))
  }

  // The reports after the payments, which take the tables from `tx` to `tx'`.
  ghost predicate PaidOut(report: TradeReport, taken: TradeReport, tx: Db, tx': Db, a: CharacterId, oa: Offer,
          b: CharacterId, ob: Offer)
  {
    && report.aItems.Keys == taken.aItems.Keys + KeysOf(ob.items)
    && report.bItems.Keys == taken.bItems.Keys + KeysOf(oa.items)
    && report.aCurrency.Keys == taken.aCurrency.Keys + KeysOf(ob.currency)
    && report.bCurrency.Keys == taken.bCurrency.Keys + KeysOf(oa.currency)
    && (forall k :: k in report.aItems ==>
          report.aItems[k] == if k in KeysOf(ob.items) then Quantity(tx'.items, a, k) else taken.aItems[k])
    && (forall k :: k in report.bItems ==>
          report.bItems[k]
          == if k in KeysOf(oa.items) then Quantity(Credit(tx.items, b, oa.items), b, k) else taken.bItems[k])
    && (forall k :: k in report.aCurrency ==>
          report.aCurrency[k] == if k in KeysOf(ob.currency) then Balance(tx'.currency, a, k) else taken.aCurrency[k])
    && (forall k :: k in report.bCurrency ==>
          report.bCurrency[k]
          == if k in KeysOf(oa.currency) then Balance(CreditBalance(tx.currency, b, oa.currency), b, k)
             else taken.bCurrency[k])
  }

  // The mutating half of a trade: both sides are charged before either is paid.
  method MoveGoods(max: nat, tx: Db, a: CharacterId, oa: Offer, b: CharacterId, ob: Offer)
    returns (refusal: Option<Refusal>, tx': Db, report: TradeReport)
    requires Checked(tx) && AllAmountsPositive(oa, ob)
    ensures refusal.None? <==> GoesThrough(max, tx, a, oa, b, ob)
    ensures refusal.None? ==> tx' == Traded(tx, a, oa, b, ob)
    ensures refusal.None? && a != b ==>
              && ReportsItems(report.aItems, oa, ob, tx', a) && ReportsItems(report.bItems, oa, ob, tx', b)
              && ReportsBalances(report.aCurrency, oa, ob, tx', a) && ReportsBalances(report.bCurrency, oa, ob, tx', b)
    ensures refusal.None? && a == b ==> SelfReports(report, oa, ob, tx', a)
  {
    hide Debit, Credit, SumFor, DebitBalance, CreditBalance, CanCharge, CanPay, KeysOf, Quantity, Balance,
         Taken, PaidOut, StacksLastWritten, BalancesLastWritten, ReportsItems, ReportsBalances, SelfReports;
    var charged;
    refusal, charged, report := ChargeBoth(tx, a, oa, b, ob);
    tx' := tx;
    if refusal.Some? {
      return;
    }
    ghost var taken := report;
    refusal, tx', report := PayBoth(max, charged, a, oa, b, ob, report);
    if refusal.None? {
      StacksWritten(tx, charged, tx', a, oa, b, ob, taken, report);
      BalancesWritten(tx, charged, tx', a, oa, b, ob, taken, report);
      if a != b {
        ReportsTheEnd(max, tx, a, oa, b, ob, report);
      } else {
        ReportsOfOneself(max, tx, a, oa, ob, report);
      }
    }
  }

  // What the loops leave in the reports: the value each key had when it was last written.
  ghost predicate LastWritten(report: TradeReport, tx: Db, a: CharacterId, oa: Offer, b: CharacterId, ob: Offer) {
    StacksLastWritten(report, tx, a, oa, b, ob) && BalancesLastWritten(report, tx, a, oa, b, ob)
  }

  ghost predicate StacksLastWritten(report: TradeReport, tx: Db, a: CharacterId, oa: Offer, b: CharacterId, ob: Offer) {
    var final, items := Traded(tx, a, oa, b, ob).items, Charged(tx.items, a, oa, b, ob);
    && report.aItems.Keys == report.bItems.Keys == KeysOf(oa.items) + KeysOf(ob.items)
    && (forall k :: k in report.aItems ==>
          report.aItems[k] == Quantity(if k in KeysOf(ob.items) then final else Debit(tx.items, a, oa.items), a, k))
    && (forall k :: k in report.bItems ==>
          report.bItems[k] == Quantity(if k in KeysOf(oa.items) then Credit(items, b, oa.items) else items, b, k))
  }

  ghost predicate BalancesLastWritten(report: TradeReport, tx: Db, a: CharacterId, oa: Offer, b: CharacterId,
          ob: Offer)
  {
    var final, currency := Traded(tx, a, oa, b, ob).currency, ChargedBalances(tx.currency, a, oa, b, ob);
    && report.aCurrency.Keys == report.bCurrency.Keys == KeysOf(oa.currency) + KeysOf(ob.currency)
    && (forall k :: k in report.aCurrency ==>
          report.aCurrency[k]
          == Balance(if k in KeysOf(ob.currency) then final else DebitBalance(tx.currency, a, oa.currency), a, k))
    && (forall k :: k in report.bCurrency ==>
          report.bCurrency[k]
          == Balance(if k in KeysOf(oa.currency) then CreditBalance(currency, b, oa.currency) else currency, b, k))
  }

  lemma StacksWritten(tx: Db, charged: Db, tx': Db, a: CharacterId, oa: Offer, b: CharacterId, ob: Offer,
          taken: TradeReport, report: TradeReport)
    requires Taken(taken, tx, a, oa, b, ob) && PaidOut(report, taken, charged, tx', a, oa, b, ob)
    requires charged.items == Charged(tx.items, a, oa, b, ob) && tx' == Traded(tx, a, oa, b, ob)
    ensures StacksLastWritten(report, tx, a, oa, b, ob)
  {
    hide Debit, Credit, DebitBalance, CreditBalance, KeysOf, Quantity, Balance, Charged, ChargedBalances, Traded;
  }

  lemma BalancesWritten(tx: Db, charged: Db, tx': Db, a: CharacterId, oa: Offer, b: CharacterId, ob: Offer,
          taken: TradeReport, report: TradeReport)
    requires Taken(taken, tx, a, oa, b, ob) && PaidOut(report, taken, charged, tx', a, oa, b, ob)
    requires charged.currency == ChargedBalances(tx.currency, a, oa, b, ob) && tx' == Traded(tx, a, oa, b, ob)
    ensures BalancesLastWritten(report, tx, a, oa, b, ob)
  {
    hide Debit, Credit, DebitBalance, CreditBalance, KeysOf, Quantity, Balance, Charged, ChargedBalances, Traded;
  }

  lemma ReportsTheEnd(max: nat, tx: Db, a: CharacterId, oa: Offer, b: CharacterId, ob: Offer, report: TradeReport)
    requires Checked(tx) && a != b && GoesThrough(max, tx, a, oa, b, ob) && LastWritten(report, tx, a, oa, b, ob)
    ensures var final := Traded(tx, a, oa, b, ob);
            && ReportsItems(report.aItems, oa, ob, final, a) && ReportsItems(report.bItems, oa, ob, final, b)
            && ReportsBalances(report.aCurrency, oa, ob, final, a)
            && ReportsBalances(report.bCurrency, oa, ob, final, b)
  {
    hide Debit, Credit, SumFor, DebitBalance, CreditBalance, KeysOf, Quantity, Balance, GoesThrough, Traded, Checked;
    forall k
      ensures k in report.aItems ==> report.aItems[k] == Quantity(Traded(tx, a, oa, b, ob).items, a, k)
      ensures k in report.bItems ==> report.bItems[k] == Quantity(Traded(tx, a, oa, b, ob).items, b, k)
      ensures k in report.aCurrency ==> report.aCurrency[k] == Balance(Traded(tx, a, oa, b, ob).currency, a, k)
      ensures k in report.bCurrency ==> report.bCurrency[k] == Balance(Traded(tx, a, oa, b, ob).currency, b, k)
    {
      ReportsAreFinal(max, tx, a, oa, b, ob, k);
    }
  }

  lemma ReportsOfOneself(max: nat, tx: Db, a: CharacterId, oa: Offer, ob: Offer, report: TradeReport)
    requires Checked(tx) && GoesThrough(max, tx, a, oa, a, ob) && LastWritten(report, tx, a, oa, a, ob)
    ensures SelfReports(report, oa, ob, Traded(tx, a, oa, a, ob), a)
  {
    hide Debit, Credit, SumFor, DebitBalance, CreditBalance, KeysOf, Quantity, Balance, GoesThrough, Traded, Checked;
    var final := Traded(tx, a, oa, a, ob);
    forall k
      ensures k in report.aItems ==>
                report.aItems[k]
                == Quantity(final.items, a, k) - if k in KeysOf(ob.items) then 0 else SumFor(oa.items, k)
      ensures k in report.bItems ==> report.bItems[k] == Quantity(final.items, a, k) - SumFor(ob.items, k)
      ensures k in report.aCurrency ==>
                report.aCurrency[k]
                == Balance(final.currency, a, k) - if k in KeysOf(ob.currency) then 0 else SumFor(oa.currency, k)
      ensures k in report.bCurrency ==> report.bCurrency[k] == Balance(final.currency, a, k) - SumFor(ob.currency, k)
    {
      SelfReportValues(max, tx, a, oa, ob, k);
    }
  }

  method ChargeBoth(tx: Db, a: CharacterId, oa: Offer, b: CharacterId, ob: Offer)
    returns (refusal: Option<Refusal>, tx': Db, report: TradeReport)
    requires Checked(tx) && AllAmountsPositive(oa, ob)
    ensures refusal.None? <==> CanCharge(tx, a, oa, b, ob)
    ensures refusal.None? ==>
              && tx' == tx.(items := Charged(tx.items, a, oa, b, ob),
                  currency := ChargedBalances(tx.currency, a, oa, b, ob))
              && Checked(tx') && Taken(report, tx, a, oa, b, ob)
  {
    hide Debit, SumFor, DebitBalance, Covers, CoversBalance, KeysOf, Quantity, Balance;
    tx', report := tx, TradeReport(map[], map[], map[], map[]);
    var ok, aItems, bItems, aCurrency, bCurrency, items, currency;
    ok, items, aItems := ConsumeItems(tx.items, a, oa.items, map[]);
    if !ok { return Some(ConstraintViolated), tx', report; }
    DebitChecked(tx.items, a, oa.items);
    ghost var one := items;
    ok, items, bItems := ConsumeItems(items, b, ob.items, map[]);
    if !ok { return Some(ConstraintViolated), tx', report; }
    DebitChecked(one, b, ob.items);
    ok, currency, aCurrency := ConsumeCurrency(tx.currency, a, oa.currency, map[]);
    if !ok { return Some(ConstraintViolated), tx', report; }
    BalancesStayChecked(tx.currency, a, oa.currency);
    ghost var first := currency;
    ok, currency, bCurrency := ConsumeCurrency(currency, b, ob.currency, map[]);
    if !ok { return Some(ConstraintViolated), tx', report; }
    BalancesStayChecked(first, b, ob.currency);
    return None, tx.(items := items, currency := currency), TradeReport(aItems, aCurrency, bItems, bCurrency);
  }

  method PayBoth(max: nat, tx: Db, a: CharacterId, oa: Offer, b: CharacterId, ob: Offer, taken: TradeReport)
    returns (refusal: Option<Refusal>, tx': Db, report: TradeReport)
    requires Checked(tx) && AllAmountsPositive(oa, ob)
    ensures refusal.None? <==> CanPay(max, tx.items, tx.currency, a, oa, b, ob)
    ensures refusal.None? ==>
              && tx' == tx.(items := Credit(Credit(tx.items, b, oa.items), a, ob.items),
                            currency := CreditBalance(CreditBalance(tx.currency, b, oa.currency), a, ob.currency))
              && PaidOut(report, taken, tx, tx', a, oa, b, ob)
  {
    hide Credit, SumFor, CreditBalance, HasRoom, HasBalanceRoom, KeysOf, Quantity, Balance;
    tx', report := tx, taken;
    var ok, aItems, bItems, aCurrency, bCurrency, items, currency;
    ok, items, bItems := GrantItems(max, tx.items, b, oa.items, taken.bItems);
    if !ok { return Some(InventoryFull), tx', report; }
    ok, items, aItems := GrantItems(max, items, a, ob.items, taken.aItems);
    if !ok { return Some(InventoryFull), tx', report; }
    ok, currency, bCurrency := GrantCurrency(tx.currency, b, oa.currency, taken.bCurrency);
    if !ok { return Some(NumericOverflow), tx', report; }
    BalancesStayChecked(tx.currency, b, oa.currency);
    ok, currency, aCurrency := GrantCurrency(currency, a, ob.currency, taken.aCurrency);
    if !ok { return Some(NumericOverflow), tx', report; }
    return None, tx.(items := items, currency := currency), TradeReport(aItems, aCurrency, bItems, bCurrency);
  }

  // The up-front check compares each entry, on its own, with the holding.
  method OfferHeld(tx: Db, c: CharacterId, offer: Offer) returns (ok: bool)
    ensures ok <==> EachHeld(tx.items, c, offer.items)
                    && EachBalanceHeld(tx.currency, c, offer.currency)
  {
    for i := 0 to |offer.items|
      invariant forall j :: 0 <= j < i ==> offer.items[j].1 <= Quantity(tx.items, c, offer.items[j].0)
    {
      if Quantity(tx.items, c, offer.items[i].0) < offer.items[i].1 {
        assert offer.items[i] in offer.items;
        return false;
      }
    }
    for i := 0 to |offer.currency|
      invariant forall j :: 0 <= j < i ==> offer.currency[j].1 <= Balance(tx.currency, c, offer.currency[j].0)
    {
      if Balance(tx.currency, c, offer.currency[i].0) < offer.currency[i].1 {
        assert offer.currency[i] in offer.currency;
        return false;
      }
    }
    ok := true;
  }
}
