/** Declared currencies and their denomination ladders: which declarations load, and the
    greedy breakdown of a stored balance into denominations. */
module CurrencySchema {
  import opened Prelude

  datatype Denomination = Denomination(key: string, ratio: i64)

  datatype Currency = Currency(key: string, denominations: seq<Denomination>)

  datatype Refusal = UnknownCurrency

  // What loading demands of one ladder: positive ratios in strictly ascending order, no key
  // declared twice.
  predicate LadderAccepted(ladder: seq<Denomination>) {
    && (forall i :: 0 <= i < |ladder| ==> ladder[i].ratio > 0)
    && (forall i, j :: 0 <= i < j < |ladder| ==> ladder[i].ratio < ladder[j].ratio && ladder[i].key != ladder[j].key)
  }

  predicate SchemaAccepted(currencies: seq<Currency>) {
    && currencies != []
    && (forall i :: 0 <= i < |currencies| ==> LadderAccepted(currencies[i].denominations))
    && (forall i, j :: 0 <= i < j < |currencies| ==> currencies[i].key != currencies[j].key)
  }

  method ValidateLadder(ladder: seq<Denomination>) returns (ok: bool)
    ensures ok <==> LadderAccepted(ladder)
    ensures ok <==> (forall i :: 0 <= i < |ladder| ==> 1 <= ladder[i].ratio)
                    && (forall i, j :: 0 <= i < j < |ladder| ==> ladder[i].ratio < ladder[j].ratio)
                    && (forall i, j :: 0 <= i < j < |ladder| ==> ladder[i].key != ladder[j].key)
  {
    var seen: set<string> := {};
    var previous: Option<i64> := None;
    for n := 0 to |ladder|
      invariant forall i :: 0 <= i < n ==> ladder[i].ratio > 0
      invariant forall i, j :: 0 <= i < j < n ==> ladder[i].ratio < ladder[j].ratio && ladder[i].key != ladder[j].key
      invariant forall k :: k in seen <==> exists i :: 0 <= i < n && ladder[i].key == k
      invariant previous == if n == 0 then None else Some(ladder[n - 1].ratio)
    {
      var d := ladder[n];
      if d.ratio <= 0 {
        return false;
      }
      if d.key in seen {
        return false;
      }
      seen := seen + {d.key};
      if previous.Some? && d.ratio <= previous.value {
        return false;
      }
      previous := Some(d.ratio);
    }
    ok := true;
  }

  method Validate(currencies: seq<Currency>) returns (ok: bool)
    ensures ok <==> SchemaAccepted(currencies)
    ensures ok <==> |currencies| >= 1
                    && (forall c :: c in currencies ==> LadderAccepted(c.denominations))
                    && (forall i, j :: 0 <= i < j < |currencies| ==> currencies[i].key != currencies[j].key)
  {
    if currencies == [] {
      return false;
    }
    var seen: set<string> := {};
    for n := 0 to |currencies|
      invariant forall i :: 0 <= i < n ==> LadderAccepted(currencies[i].denominations)
      invariant forall i, j :: 0 <= i < j < n ==> currencies[i].key != currencies[j].key
      invariant forall k :: k in seen <==> exists i :: 0 <= i < n && currencies[i].key == k
    {
      if currencies[n].key in seen {
        return false;
      }
      seen := seen + {currencies[n].key};
      var ladderOk := ValidateLadder(currencies[n].denominations);
      if !ladderOk {
        return false;
      }
    }
    ok := true;
  }

  // The first currency with the key.
  function Resolve(currencies: seq<Currency>, key: string): (r: Option<Currency>)
    ensures r.Some? ==> r.value in currencies && r.value.key == key
    ensures r.None? <==> forall c :: c in currencies ==> c.key != key
  {
    if currencies == [] then None
    else if currencies[0].key == key then Some(currencies[0])
    else Resolve(currencies[1..], key)
  }

  // Division on `i64` truncates toward zero; the remainder takes the dividend's sign.
  function Quot(a: int, b: int): int
    requires b > 0
  {
    if a >= 0 then a / b else -((-a) / b)
  }

  function Rem(a: int, b: int): int
    requires b > 0
  {
    if a >= 0 then a % b else -((-a) % b)
  }

  function Ratios(ladder: seq<Denomination>): seq<int> {
    seq(|ladder|, i requires 0 <= i < |ladder| => ladder[i].ratio)
  }

  predicate Ascending(ratios: seq<int>) {
    && (forall i :: 0 <= i < |ratios| ==> ratios[i] > 0)
    && (forall i, j :: 0 <= i < j < |ratios| ==> ratios[i] < ratios[j])
  }

  // Counts are listed as a breakdown lists them, largest denomination first.
  function Greedy(ratios: seq<int>, balance: int): (counts: seq<int>)
    requires Ascending(ratios)
    ensures |counts| == |ratios|
  {
    if ratios == [] then []
    else
      var n := |ratios| - 1;
      [Quot(balance, ratios[n])] + Greedy(ratios[..n], Rem(balance, ratios[n]))
  }

  // What the breakdown drops.
  function Dropped(ratios: seq<int>, balance: int): int
    requires Ascending(ratios)
  {
    if ratios == [] then balance
    else
      var n := |ratios| - 1;
      Dropped(ratios[..n], Rem(balance, ratios[n]))
  }

  function Value(ratios: seq<int>, counts: seq<int>): int
    requires |counts| == |ratios|
  {
    if ratios == [] then 0
    else
      var n := |ratios| - 1;
      counts[0] * ratios[n] + Value(ratios[..n], counts[1..])
  }

  function Amounts(entries: seq<(string, int)>): seq<int> {
    seq(|entries|, i requires 0 <= i < |entries| => entries[i].1)
  }

  lemma LadderAscends(ladder: seq<Denomination>)
    requires LadderAccepted(ladder)
    ensures Ascending(Ratios(ladder))
  {
  }

  lemma GreedyStep(ratios: seq<int>, i: nat, balance: int)
    requires i < |ratios| && Ascending(ratios[..i + 1])
    ensures Ascending(ratios[..i]) && ratios[i] > 0
    ensures Greedy(ratios[..i + 1], balance)
         == [Quot(balance, ratios[i])] + Greedy(ratios[..i], Rem(balance, ratios[i]))
  {
    hide Quot, Rem;
    var upTo := ratios[..i + 1];
    assert upTo[..i] == ratios[..i] && upTo[i] == ratios[i];
    assert forall j :: 0 <= j < i ==> ratios[..i][j] == upTo[j];
  }

  lemma ListedOneMore(entries: seq<(string, int)>, key: string, count: int)
    ensures Amounts(entries + [(key, count)]) == Amounts(entries) + [count]
  {
  }

  // From the largest denomination down: divide, keep the remainder.
  method WalkLadder(ladder: seq<Denomination>, raw: int) returns (result: seq<(string, int)>)
    requires Ascending(Ratios(ladder))
    ensures Amounts(result) == Greedy(Ratios(ladder), raw) && |result| == |ladder|
    ensures forall i :: 0 <= i < |ladder| ==> result[i].0 == ladder[|ladder| - 1 - i].key
  {
    hide Quot, Rem, Greedy, Ascending;
    ghost var ratios := Ratios(ladder);
    var remaining := raw;
    result := [];
    var i := |ladder|;
    assert ratios[..i] == ratios;
    while i > 0
      invariant 0 <= i <= |ladder| && |result| == |ladder| - i
      invariant Ascending(ratios[..i])
      invariant forall j :: 0 <= j < |result| ==> result[j].0 == ladder[|ladder| - 1 - j].key
      invariant Greedy(ratios, raw) == Amounts(result) + Greedy(ratios[..i], remaining)
    {
      i := i - 1;
      GreedyStep(ratios, i, remaining);
      var count := Quot(remaining, ladder[i].ratio);
      ListedOneMore(result, ladder[i].key, count);
      remaining := Rem(remaining, ladder[i].ratio);
      result := result + [(ladder[i].key, count)];
    }
  }

  method Breakdown(currencies: seq<Currency>, key: string, raw: i64) returns (r: Result<seq<(string, int)>, Refusal>)
    requires SchemaAccepted(currencies)
    ensures r.Err? <==> forall c :: c in currencies ==> c.key != key
    ensures r.Ok? ==>
              var ladder := Resolve(currencies, key).value.denominations;
              if ladder == [] then r.value == [(key, raw as int)]
              else
                && Ascending(Ratios(ladder)) && Amounts(r.value) == Greedy(Ratios(ladder), raw)
                && forall i :: 0 <= i < |ladder| ==> r.value[i].0 == ladder[|ladder| - 1 - i].key
  {
    hide Quot, Rem, Greedy, Ascending;
    var currency := Resolve(currencies, key);
    if currency.None? {
      return Err(UnknownCurrency);
    }
    var ladder := currency.value.denominations;
    if ladder == [] {
      return Ok([(key, raw as int)]);
    }
    LadderAscends(ladder);
    var result := WalkLadder(ladder, raw);
    r := Ok(result);
  }

  lemma DividedNat(a: nat, b: int)
    requires b > 0
    ensures a / b * b + a % b == a && 0 <= a % b < b && a / b >= 0
  {
  }

  lemma Divided(a: int, b: int)
    requires b > 0
    ensures Quot(a, b) * b + Rem(a, b) == a
    ensures a >= 0 ==> 0 <= Rem(a, b) < b && Quot(a, b) >= 0
    ensures a <= 0 ==> -b < Rem(a, b) <= 0 && Quot(a, b) <= 0
  {
    var c: nat := if a >= 0 then a else -a;
    DividedNat(c, b);
    var q := c / b;
    assert (-q) * b == -(q * b);
    if a == 0 {
      ZeroDivided(b);
    }
  }

  lemma ZeroDivided(b: int)
    requires b > 0
    ensures 0 / b == 0 && 0 % b == 0
  {
  }

  // Quotient and remainder are the only split of a balance with the remainder in range.
  lemma SameQuotient(b: int, q: int, m: int, q': int, m': int)
    requires b > 0 && q * b + m == q' * b + m' && 0 <= m < b && 0 <= m' < b
    ensures q == q' && m == m'
  {
    var d := q - q';
    assert d * b == q * b - q' * b;
    if d >= 1 {
      Multiple(d, b);
    } else if d <= -1 {
      Multiple(-d, b);
    }
  }

  lemma Multiple(d: int, b: int)
    requires d >= 1 && b > 0
    ensures d * b >= b
  {
    assert d * b == b + (d - 1) * b;
  }

  lemma SmallerLadder(ratios: seq<int>)
    requires Ascending(ratios) && ratios != []
    ensures var n := |ratios| - 1; Ascending(ratios[..n]) && ratios[n] > 0 && (n > 0 ==> ratios[..n][n - 1] < ratios[n])
  {
  }

  // A breakdown and what it drops make up the balance; what it drops is smaller than the
  // smallest ratio and has the balance's sign, as has every count.
  lemma {:induction false} SumsBack(ratios: seq<int>, balance: int)
    requires Ascending(ratios) && ratios != []
    ensures Value(ratios, Greedy(ratios, balance)) + Dropped(ratios, balance) == balance
    ensures -ratios[0] < Dropped(ratios, balance) < ratios[0]
    ensures balance >= 0 ==> Dropped(ratios, balance) >= 0 && forall c :: c in Greedy(ratios, balance) ==> c >= 0
    ensures balance <= 0 ==> Dropped(ratios, balance) <= 0 && forall c :: c in Greedy(ratios, balance) ==> c <= 0
  {
    hide Quot, Rem, Ascending;
    var n := |ratios| - 1;
    SmallerLadder(ratios);
    Divided(balance, ratios[n]);
    assert Greedy(ratios, balance)[1..] == Greedy(ratios[..n], Rem(balance, ratios[n]));
    if n > 0 {
      SumsBack(ratios[..n], Rem(balance, ratios[n]));
    }
  }

  // A representation is tight when at every denomination the smaller ones and the rest stay
  // below one more unit of it.
  predicate Tight(ratios: seq<int>, counts: seq<int>, rest: int)
    requires |counts| == |ratios|
  {
    ratios == [] ||
    var n := |ratios| - 1;
    0 <= Value(ratios[..n], counts[1..]) + rest < ratios[n] && Tight(ratios[..n], counts[1..], rest)
  }

  // The breakdown is the only tight representation of a balance.
  lemma {:induction false} OnlyTightRepresentation(ratios: seq<int>, balance: nat, counts: seq<int>, rest: int)
    requires Ascending(ratios) && |counts| == |ratios|
    ensures Value(ratios, counts) + rest == balance && Tight(ratios, counts, rest)
       <==> counts == Greedy(ratios, balance) && rest == Dropped(ratios, balance)
  {
    hide Quot, Rem, Ascending;
    if ratios != [] {
      var n := |ratios| - 1;
      SmallerLadder(ratios);
      Divided(balance, ratios[n]);
      var lower := Value(ratios[..n], counts[1..]) + rest;
      assert counts == [counts[0]] + counts[1..];
      assert Greedy(ratios, balance)[1..] == Greedy(ratios[..n], Rem(balance, ratios[n]));
      OnlyTightRepresentation(ratios[..n], Rem(balance, ratios[n]), counts[1..], rest);
      if Value(ratios, counts) + rest == balance && Tight(ratios, counts, rest) {
        SameQuotient(ratios[n], counts[0], lower, Quot(balance, ratios[n]), Rem(balance, ratios[n]));
      }
    }
  }

  predicate Precedes(a: seq<int>, b: seq<int>)
    requires |a| == |b|
  {
    a != [] && (a[0] < b[0] || (a[0] == b[0] && Precedes(a[1..], b[1..])))
  }

  // Balances compare as their breakdowns do, largest denomination first, with what is
  // dropped as the last place.
  lemma {:induction false} OrderIsLexicographic(ratios: seq<int>, x: nat, y: nat)
    requires Ascending(ratios)
    ensures x < y <==> Precedes(Greedy(ratios, x) + [Dropped(ratios, x)], Greedy(ratios, y) + [Dropped(ratios, y)])
  {
    hide Quot, Rem, Ascending;
    var a, b := Greedy(ratios, x) + [Dropped(ratios, x)], Greedy(ratios, y) + [Dropped(ratios, y)];
    if ratios == [] {
      assert a == [x] && b == [y];
      assert !Precedes(a[1..], b[1..]);
    } else {
      var n := |ratios| - 1;
      var r := ratios[n];
      SmallerLadder(ratios);
      Divided(x, r);
      Divided(y, r);
      OrderIsLexicographic(ratios[..n], Rem(x, r), Rem(y, r));
      assert a[1..] == Greedy(ratios[..n], Rem(x, r)) + [Dropped(ratios[..n], Rem(x, r))];
      assert b[1..] == Greedy(ratios[..n], Rem(y, r)) + [Dropped(ratios[..n], Rem(y, r))];
      QuotientsOrder(r, Quot(x, r), Rem(x, r), Quot(y, r), Rem(y, r));
    }
  }

  lemma QuotientsOrder(b: int, q: int, m: int, q': int, m': int)
    requires b > 0 && 0 <= m < b && 0 <= m' < b
    ensures q * b + m < q' * b + m' <==> q < q' || (q == q' && m < m')
  {
    var d := q - q';
    assert d * b == q * b - q' * b;
    if d >= 1 {
      Multiple(d, b);
    } else if d <= -1 {
      Multiple(-d, b);
    }
  }

  // The breakdowns alone decide exactly when the base unit is one; then nothing is dropped.
  lemma BreakdownsOrderBalances(ratios: seq<int>)
    requires Ascending(ratios) && ratios != []
    ensures ratios[0] == 1 <==> forall x: nat, y: nat :: x < y <==> Precedes(Greedy(ratios, x), Greedy(ratios, y))
    ensures ratios[0] == 1 <==> forall x: nat :: Dropped(ratios, x) == 0
  {
    hide Quot, Rem, Ascending, Precedes, Greedy, Dropped;
    if ratios[0] == 1 {
      forall x: nat ensures Dropped(ratios, x) == 0 {
        SumsBack(ratios, x);
      }
      forall x: nat, y: nat ensures x < y <==> Precedes(Greedy(ratios, x), Greedy(ratios, y)) {
        OrderIsLexicographic(ratios, x, y);
        LastPlaceEqual(Greedy(ratios, x), Greedy(ratios, y), 0);
      }
    } else {
      OneIsDropped(ratios);
      NotBeforeItself(Greedy(ratios, 0));
      assert 0 < 1 && !Precedes(Greedy(ratios, 0), Greedy(ratios, 1));
    }
  }

  lemma {:induction false} OneIsDropped(ratios: seq<int>)
    requires Ascending(ratios) && ratios != [] && ratios[0] != 1
    ensures Greedy(ratios, 1) == Greedy(ratios, 0) && Dropped(ratios, 1) == 1
  {
    var n := |ratios| - 1;
    ZeroDivided(ratios[n]);
    if n > 0 {
      OneIsDropped(ratios[..n]);
    }
  }

  lemma {:induction false} NotBeforeItself(a: seq<int>)
    ensures !Precedes(a, a)
  {
    if a != [] {
      NotBeforeItself(a[1..]);
    }
  }

  lemma {:induction false} LastPlaceEqual(a: seq<int>, b: seq<int>, last: int)
    requires |a| == |b|
    ensures Precedes(a + [last], b + [last]) <==> Precedes(a, b)
  {
    if a == [] {
      assert (a + [last])[1..] == [] == (b + [last])[1..];
    } else {
      LastPlaceEqual(a[1..], b[1..], last);
      assert (a + [last])[1..] == a[1..] + [last];
      assert (b + [last])[1..] == b[1..] + [last];
    }
  }
}
