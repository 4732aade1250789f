/** Lists of (key, amount) entries, as offers and recipes carry them, and what charging or
    paying such a list out does to one character's rows of a table. The two tables differ:
    an item stack that reaches zero is deleted, a balance row is kept. */
module Ledger {
  import opened Prelude
  import opened Tables

  type Entries = seq<(string, int)>

  // The total amount an entry list names for one key.
  function SumFor(entries: Entries, k: string): int {
    if entries == [] then 0
    else SumFor(entries[..|entries| - 1], k)
         + (var e := entries[|entries| - 1]; if e.0 == k then e.1 else 0)
  }

  // The value last listed for a key.
  function LastFor(entries: Entries, k: string): Option<int> {
    if entries == [] then None
    else
      var e := entries[|entries| - 1];
      if e.0 == k then Some(e.1) else LastFor(entries[..|entries| - 1], k)
  }

  function KeysOf(entries: Entries): set<string> {
    set e | e in entries :: e.0
  }

  predicate DistinctKeys(entries: Entries) {
    forall i, j :: 0 <= i < j < |entries| ==> entries[i].0 != entries[j].0
  }

  predicate AllPositive(entries: Entries) {
    forall e :: e in entries ==> e.1 > 0
  }

  lemma SumForSnoc(entries: Entries, i: nat, k: string)
    requires i < |entries|
    ensures SumFor(entries[..i + 1], k)
         == SumFor(entries[..i], k) + (if entries[i].0 == k then entries[i].1 else 0)
    ensures KeysOf(entries[..i + 1]) == KeysOf(entries[..i]) + {entries[i].0}
  {
    assert entries[..i + 1][..i] == entries[..i];
    assert entries[..i + 1] == entries[..i] + [entries[i]];
  }

  lemma {:induction false} SumForMonotone(entries: Entries, i: nat, j: nat, k: string)
    requires AllPositive(entries) && i <= j <= |entries|
    ensures SumFor(entries[..i], k) <= SumFor(entries[..j], k)
    decreases j
  {
    if i < j {
      SumForMonotone(entries, i, j - 1, k);
      SumForSnoc(entries, j - 1, k);
    }
  }

  // A key is listed exactly when its total is positive; no total is negative.
  lemma {:induction false} SumForListed(entries: Entries, k: string)
    requires AllPositive(entries)
    ensures SumFor(entries, k) >= 0
    ensures SumFor(entries, k) > 0 <==> k in KeysOf(entries)
  {
    if entries != [] {
      var n := |entries| - 1;
      SumForSnoc(entries, n, k);
      assert entries[..n + 1] == entries;
      SumForListed(entries[..n], k);
    }
  }

  lemma {:induction false} SumForConcat(a: Entries, b: Entries, k: string)
    ensures SumFor(a + b, k) == SumFor(a, k) + SumFor(b, k)
  {
    if b == [] {
      assert a + b == a;
    } else {
      var n := |b| - 1;
      SumForConcat(a, b[..n], k);
      assert (a + b)[..|a + b| - 1] == a + b[..n];
    }
  }

  lemma SumForSplit(b: Entries, j: nat, k: string)
    requires j < |b|
    ensures SumFor(b, k) == SumFor(b[..j] + b[j + 1..], k) + if b[j].0 == k then b[j].1 else 0
  {
    SumForConcat(b[..j + 1], b[j + 1..], k);
    assert b[..j + 1] + b[j + 1..] == b;
    SumForSnoc(b, j, k);
    SumForConcat(b[..j], b[j + 1..], k);
  }

  lemma TakenOut(s: Entries, j: nat)
    requires j < |s|
    ensures multiset(s) == multiset(s[..j] + s[j + 1..]) + multiset{s[j]}
  {
    assert s == s[..j] + ([s[j]] + s[j + 1..]);
  }

  lemma CancelOne(m: multiset<(string, int)>, n: multiset<(string, int)>, x: (string, int))
    requires m + multiset{x} == n + multiset{x}
    ensures m == n
  {
    assert m == m + multiset{x} - multiset{x};
    assert n == n + multiset{x} - multiset{x};
  }

  lemma DropCommon(a: Entries, b: Entries, j: nat)
    requires a != [] && j < |b| && b[j] == a[|a| - 1]
    requires multiset(a) == multiset(b)
    ensures multiset(a[..|a| - 1]) == multiset(b[..j] + b[j + 1..])
  {
    var n := |a| - 1;
    TakenOut(a, n);
    TakenOut(b, j);
    assert a[..n] + a[n + 1..] == a[..n];
    CancelOne(multiset(a[..n]), multiset(b[..j] + b[j + 1..]), b[j]);
  }

  // Totals do not depend on the order of the entries.
  lemma {:induction false} SumForReordered(a: Entries, b: Entries, k: string)
    requires multiset(a) == multiset(b)
    ensures SumFor(a, k) == SumFor(b, k)
    decreases |a|
  {
    assert |multiset(a)| == |multiset(b)|;
    if a != [] {
      var n := |a| - 1;
      assert a[n] in multiset(b);
      var j :| 0 <= j < |b| && b[j] == a[n];
      DropCommon(a, b, j);
      SumForReordered(a[..n], b[..j] + b[j + 1..], k);
      SumForSplit(b, j, k);
    }
  }

  lemma KeysOfReordered(a: Entries, b: Entries)
    requires multiset(a) == multiset(b)
    ensures KeysOf(a) == KeysOf(b)
    ensures AllPositive(a) <==> AllPositive(b)
  {
    assert forall e :: e in a <==> e in multiset(a);
    assert forall e :: e in b <==> e in multiset(b);
  }

  // Items after charging `c` every entry: totals subtracted, emptied stacks gone.
  function Debit(items: Items, c: CharacterId, entries: Entries): Items {
    map ck | ck in items && (ck.0 == c ==> items[ck].quantity != SumFor(entries, ck.1)) ::
      if ck.0 == c then Stack(items[ck].quantity - SumFor(entries, ck.1), items[ck].slot) else items[ck]
  }

  // The rows that exist once `c` has been paid every entry.
  function PaidRows(rows: set<(CharacterId, string)>, c: CharacterId,
          entries: Entries): (r: set<(CharacterId, string)>)
    ensures forall ck :: ck in r <==> ck in rows || (ck.0 == c && ck.1 in KeysOf(entries))
  {
    rows + set k | k in KeysOf(entries) :: (c, k)
  }

  function CreditedStack(items: Items, c: CharacterId, entries: Entries, k: string): Stack {
    Stack(Quantity(items, c, k) + SumFor(entries, k), if (c, k) in items then items[(c, k)].slot else None)
  }

  // Items after giving `c` every entry: totals added, new stacks start unsorted.
  function Credit(items: Items, c: CharacterId, entries: Entries): Items {
    map ck | ck in PaidRows(items.Keys, c, entries) ::
      if ck.0 == c then CreditedStack(items, c, entries, ck.1) else items[ck]
  }

  predicate Covers(items: Items, c: CharacterId, entries: Entries) {
    forall k :: k in KeysOf(entries) ==> SumFor(entries, k) <= Quantity(items, c, k)
  }

  // Each entry on its own is held, which is all an up-front check compares.
  predicate EachHeld(items: Items, c: CharacterId, entries: Entries) {
    forall e :: e in entries ==> e.1 <= Quantity(items, c, e.0)
  }

  predicate EachBalanceHeld(currency: Balances, c: CharacterId, entries: Entries) {
    forall e :: e in entries ==> e.1 <= Balance(currency, c, e.0)
  }

  lemma EntryWithinTotal(entries: Entries, e: (string, int))
    requires AllPositive(entries) && e in entries
    ensures e.1 <= SumFor(entries, e.0) && e.0 in KeysOf(entries)
  {
    var i :| 0 <= i < |entries| && entries[i] == e;
    SumForMonotone(entries, 0, i, e.0);
    SumForSnoc(entries, i, e.0);
    SumForMonotone(entries, i + 1, |entries|, e.0);
    assert entries[..|entries|] == entries;
  }

  function NewTypes(items: Items, c: CharacterId, entries: Entries): set<string> {
    set k | k in KeysOf(entries) && (c, k) !in items
  }

  // There is room for every entry: no stack overflows, and if some entry opens a new stack
  // the character ends within the cap on distinct types.
  predicate HasRoom(max: nat, items: Items, c: CharacterId, entries: Entries) {
    && (forall k :: k in KeysOf(entries) ==> Quantity(items, c, k) + SumFor(entries, k) <= I64_MAX)
    && (NewTypes(items, c, entries) != {} ==> |Types(items, c)| + |NewTypes(items, c, entries)| <= max)
  }

  lemma DebitQuantity(items: Items, c: CharacterId, entries: Entries, d: CharacterId, k: string)
    requires AllPositive(entries) && Covers(items, c, entries)
    ensures Quantity(Debit(items, c, entries), d, k)
         == Quantity(items, d, k) - if d == c then SumFor(entries, k) else 0
  {
    SumForListed(entries, k);
  }

  lemma CreditQuantity(items: Items, c: CharacterId, entries: Entries, d: CharacterId, k: string)
    requires AllPositive(entries)
    ensures Quantity(Credit(items, c, entries), d, k)
         == Quantity(items, d, k) + if d == c then SumFor(entries, k) else 0
  {
    SumForListed(entries, k);
  }

  lemma DebitChecked(items: Items, c: CharacterId, entries: Entries)
    requires ItemsChecked(items) && AllPositive(entries) && Covers(items, c, entries)
    ensures ItemsChecked(Debit(items, c, entries))
    ensures forall d :: Types(Debit(items, c, entries), d) <= Types(items, d)
  {
    forall k
      ensures 0 <= SumFor(entries, k) && (SumFor(entries, k) == 0 || SumFor(entries, k) <= Quantity(items, c, k))
    {
      SumForListed(entries, k);
    }
  }

  lemma CreditTypes(items: Items, c: CharacterId, entries: Entries, d: CharacterId)
    ensures Types(Credit(items, c, entries), d)
         == Types(items, d) + if d == c then NewTypes(items, c, entries) else {}
    ensures |Types(Credit(items, c, entries), d)|
         == |Types(items, d)| + if d == c then |NewTypes(items, c, entries)| else 0
  {
    hide SumFor, Types, PaidRows;
    var gained := if d == c then NewTypes(items, c, entries) else {};
    assert Types(Credit(items, c, entries), d) == Types(items, d) + gained;
    assert Types(items, d) !! gained;
  }

  lemma CreditChecked(max: nat, items: Items, c: CharacterId, entries: Entries)
    requires ItemsChecked(items) && AllPositive(entries) && HasRoom(max, items, c, entries)
    ensures ItemsChecked(Credit(items, c, entries))
  {
    forall k ensures 0 <= SumFor(entries, k) && (SumFor(entries, k) > 0 <==> k in KeysOf(entries)) {
      SumForListed(entries, k);
    }
  }

  // Balances after charging and paying `c`; rows are never deleted.
  function DebitBalance(currency: Balances, c: CharacterId, entries: Entries): Balances {
    map ck | ck in currency ::
      if ck.0 == c then currency[ck] - SumFor(entries, ck.1) else currency[ck]
  }

  function CreditBalance(currency: Balances, c: CharacterId, entries: Entries): Balances {
    map ck | ck in PaidRows(currency.Keys, c, entries) ::
      if ck.0 == c then Balance(currency, c, ck.1) + SumFor(entries, ck.1) else currency[ck]
  }

  predicate CoversBalance(currency: Balances, c: CharacterId, entries: Entries) {
    forall k :: k in KeysOf(entries) ==> SumFor(entries, k) <= Balance(currency, c, k)
  }

  predicate HasBalanceRoom(currency: Balances, c: CharacterId, entries: Entries) {
    forall k :: k in KeysOf(entries) ==> Balance(currency, c, k) + SumFor(entries, k) <= I64_MAX
  }

  lemma DebitBalanceAt(currency: Balances, c: CharacterId, entries: Entries, d: CharacterId, k: string)
    requires AllPositive(entries) && CoversBalance(currency, c, entries)
    ensures Balance(DebitBalance(currency, c, entries), d, k)
         == Balance(currency, d, k) - if d == c then SumFor(entries, k) else 0
  {
    SumForListed(entries, k);
  }

  lemma CreditBalanceAt(currency: Balances, c: CharacterId, entries: Entries, d: CharacterId, k: string)
    requires AllPositive(entries)
    ensures Balance(CreditBalance(currency, c, entries), d, k)
         == Balance(currency, d, k) + if d == c then SumFor(entries, k) else 0
  {
    SumForListed(entries, k);
  }

  lemma BalancesStayChecked(currency: Balances, c: CharacterId, entries: Entries)
    requires BalancesChecked(currency) && AllPositive(entries)
    ensures CoversBalance(currency, c, entries) ==> BalancesChecked(DebitBalance(currency, c, entries))
    ensures HasBalanceRoom(currency, c, entries) ==> BalancesChecked(CreditBalance(currency, c, entries))
  {
    forall k ensures 0 <= SumFor(entries, k) && (SumFor(entries, k) > 0 <==> k in KeysOf(entries)) {
      SumForListed(entries, k);
    }
  }
}
