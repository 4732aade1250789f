/** How many units a breakdown takes: when it is the fewest any representation could. */
module CurrencyUnits {
  import opened CurrencySchema

  function Units(counts: seq<int>): int {
    if counts == [] then 0 else counts[0] + Units(counts[1..])
  }

  // Each ratio divides the next.
  predicate Dividing(ratios: seq<int>)
    requires Ascending(ratios)
  {
    forall i :: 0 < i < |ratios| ==> ratios[i] % ratios[i - 1] == 0
  }

  lemma SmallerDividing(ratios: seq<int>)
    requires Ascending(ratios) && ratios != [] && Dividing(ratios)
    ensures var n := |ratios| - 1;
            && Ascending(ratios[..n]) && Dividing(ratios[..n])
            && (n > 0 ==> ratios[..n][n - 1] == ratios[n - 1] > 0 && ratios[n] % ratios[n - 1] == 0 && ratios[n] > 0)
  {
    var n := |ratios| - 1;
    assert forall i :: 0 <= i < n ==> ratios[..n][i] == ratios[i];
  }

  // One unit of a ratio replaces at least one unit of the ratio below it.
  lemma CarrySaves(s: int, r: int, y: nat)
    requires s > 0 && r > 0 && r % s == 0
    ensures y / s >= y / r + (y % r) / s && (y % r) % s == y % s
  {
    var m := r / s;
    DividedNat(r, s);
    DividedNat(y, r);
    DividedNat(y, s);
    DividedNat(y % r, s);
    var q := y / r;
    assert q * (m * s) == (q * m) * s;
    assert (q * m + (y % r) / s) * s == (q * m) * s + (y % r) / s * s;
    SameQuotient(s, y / s, y % s, q * m + (y % r) / s, (y % r) % s);
    assert m != 0;
    MoreThanOnce(q, m);
  }

  lemma MoreThanOnce(q: nat, m: int)
    requires m >= 1
    ensures q * m >= q
  {
    assert q * m == q + q * (m - 1);
  }

  // Breaking a balance into whole units of a further ratio first never costs more.
  lemma GreedyCarries(ratios: seq<int>, r: int, y: nat)
    requires Ascending(ratios) && ratios != [] && r > 0 && r % ratios[|ratios| - 1] == 0
    ensures y / r + Units(Greedy(ratios, y % r)) <= Units(Greedy(ratios, y))
  {
    var n := |ratios| - 1;
    CarrySaves(ratios[n], r, y);
    UnitsOf(ratios, y);
    UnitsOf(ratios, y % r);
  }

  lemma UnitsOf(ratios: seq<int>, y: nat)
    requires Ascending(ratios) && ratios != []
    ensures var n := |ratios| - 1;
            Units(Greedy(ratios, y)) == y / ratios[n] + Units(Greedy(ratios[..n], y % ratios[n]))
  {
    var n := |ratios| - 1;
    assert Greedy(ratios, y)[1..] == Greedy(ratios[..n], Rem(y, ratios[n]));
  }

  // When each ratio divides the next, no representation of the balance with as little left
  // over uses fewer units than its breakdown.
  lemma {:induction false} FewestUnits(ratios: seq<int>, balance: nat, counts: seq<int>)
    requires Ascending(ratios) && ratios != [] && Dividing(ratios)
    requires |counts| == |ratios| && forall c :: c in counts ==> c >= 0
    requires 0 <= balance - Value(ratios, counts) < ratios[0]
    ensures Units(Greedy(ratios, balance)) <= Units(counts)
  {
    hide Ascending, Dividing, Greedy;
    var n := |ratios| - 1;
    var r := ratios[n];
    SmallerLadder(ratios);
    UnitsOf(ratios, balance);
    if n == 0 {
      assert Greedy(ratios[..0], balance % r) == [];
      assert Value(ratios[..0], counts[1..]) == 0;
      DividedNat(balance, r);
      SameQuotient(r, counts[0], balance - counts[0] * r, balance / r, balance % r);
      assert counts[1..] == [];
    } else {
      SmallerDividing(ratios);
      NonNegativeValue(ratios, counts);
      var lower := balance - counts[0] * r;
      assert forall c :: c in counts[1..] ==> c in counts;
      NonNegativeValue(ratios[..n], counts[1..]);
      FewestUnits(ratios[..n], lower, counts[1..]);
      GreedyCarries(ratios[..n], r, lower);
      Shifted(balance, r, counts[0], lower);
    }
  }

  lemma Shifted(x: nat, r: int, q: int, y: nat)
    requires r > 0 && x == q * r + y
    ensures x / r == q + y / r && x % r == y % r
  {
    DividedNat(x, r);
    DividedNat(y, r);
    assert (q + y / r) * r == q * r + y / r * r;
    SameQuotient(r, x / r, x % r, q + y / r, y % r);
  }

  lemma {:induction false} NonNegativeValue(ratios: seq<int>, counts: seq<int>)
    requires Ascending(ratios) && |counts| == |ratios| && forall c :: c in counts ==> c >= 0
    ensures Value(ratios, counts) >= 0
  {
    hide Ascending;
    if ratios != [] {
      var n := |ratios| - 1;
      SmallerLadder(ratios);
      assert forall c :: c in counts[1..] ==> c in counts;
      NonNegativeValue(ratios[..n], counts[1..]);
      assert counts[0] in counts;
      Product(counts[0], ratios[n]);
    }
  }

  lemma Product(a: nat, b: nat)
    ensures a * b >= 0
  {
  }

  // No representation of any balance, with as little left over, uses fewer units.
  ghost predicate Minimal(ratios: seq<int>)
    requires Ascending(ratios) && ratios != []
  {
    forall balance: nat, counts: seq<int> ::
      Represents(ratios, counts, balance) ==> Units(Greedy(ratios, balance)) <= Units(counts)
  }

  predicate Represents(ratios: seq<int>, counts: seq<int>, balance: int)
    requires ratios != []
  {
    && |counts| == |ratios| && (forall c :: c in counts ==> c >= 0)
    && 0 <= balance - Value(ratios, counts) < ratios[0]
  }

  // Taking one unit of denomination `i` away from a balance saves at most one unit.
  predicate OneSavesOne(ratios: seq<int>, i: nat, balance: int)
    requires Ascending(ratios) && i < |ratios|
  {
    ratios[i] <= balance ==> Units(Greedy(ratios, balance)) <= 1 + Units(Greedy(ratios, balance - ratios[i]))
  }

  // The sum of the two largest ratios: no balance from there on needs looking at.
  function Horizon(ratios: seq<int>): int
    requires ratios != []
  {
    ratios[|ratios| - 1] + if |ratios| >= 2 then ratios[|ratios| - 2] else 0
  }

  // A check of finitely many breakdowns.
  predicate PassesBelowHorizon(ratios: seq<int>)
    requires Ascending(ratios) && ratios != []
  {
    forall balance: int, i: int :: 0 <= balance < Horizon(ratios) && 0 <= i < |ratios| ==>
        OneSavesOne(ratios, i, balance)
  }

  function WithUnit(counts: seq<int>, j: nat): seq<int>
    requires j < |counts|
  {
    counts[j := counts[j] + 1]
  }

  // Denomination `i` is listed at place `|ratios| - 1 - i`.
  lemma {:induction false} UnitAdds(ratios: seq<int>, counts: seq<int>, i: nat)
    requires |counts| == |ratios| && i < |ratios|
    ensures var more := WithUnit(counts, |ratios| - 1 - i);
            Value(ratios, more) == Value(ratios, counts) + ratios[i] && Units(more) == Units(counts) + 1
  {
    var n := |ratios| - 1;
    var more := WithUnit(counts, n - i);
    if i == n {
      assert more[1..] == counts[1..];
      Distribute(counts[0], 1, ratios[n]);
    } else {
      UnitAdds(ratios[..n], counts[1..], i);
      assert more[1..] == WithUnit(counts[1..], n - 1 - i);
    }
  }

  lemma Distribute(a: int, b: int, r: int)
    ensures (a + b) * r == a * r + b * r
  {
  }

  lemma {:induction false} SomeUnit(counts: seq<int>) returns (j: nat)
    requires (forall c :: c in counts ==> c >= 0) && Units(counts) > 0
    ensures j < |counts| && counts[j] > 0
  {
    if counts[0] > 0 {
      j := 0;
    } else {
      assert forall c :: c in counts[1..] ==> c in counts;
      var k := SomeUnit(counts[1..]);
      j := k + 1;
    }
  }

  lemma {:induction false} NonNegativeUnits(counts: seq<int>)
    requires forall c :: c in counts ==> c >= 0
    ensures Units(counts) >= 0
  {
    if counts != [] {
      assert counts[0] in counts && forall c :: c in counts[1..] ==> c in counts;
      NonNegativeUnits(counts[1..]);
    }
  }

  lemma {:induction false} NoUnits(ratios: seq<int>, counts: seq<int>)
    requires |counts| == |ratios| && (forall c :: c in counts ==> c >= 0) && Units(counts) == 0
    ensures Value(ratios, counts) == 0
  {
    if ratios != [] {
      assert counts[0] in counts && forall c :: c in counts[1..] ==> c in counts;
      NonNegativeUnits(counts[1..]);
      NoUnits(ratios[..|ratios| - 1], counts[1..]);
    }
  }

  // Below the base unit there is nothing to break down.
  lemma {:induction false} TooSmall(ratios: seq<int>, balance: nat)
    requires Ascending(ratios) && ratios != [] && balance < ratios[0]
    ensures Units(Greedy(ratios, balance)) == 0
  {
    var n := |ratios| - 1;
    UnitsOf(ratios, balance);
    SmallQuotient(balance, ratios[n]);
    if n > 0 {
      TooSmall(ratios[..n], balance);
    }
  }

  lemma SmallQuotient(a: nat, b: int)
    requires a < b
    ensures a / b == 0 && a % b == a
  {
  }

  // The breakdown is itself a representation.
  lemma GreedyRepresents(ratios: seq<int>, balance: nat)
    requires Ascending(ratios) && ratios != []
    ensures Represents(ratios, Greedy(ratios, balance), balance)
  {
    SumsBack(ratios, balance);
  }

  // Minimality is a matter of single units: exactly when no one unit of any denomination,
  // taken away from any balance, saves more than one.
  lemma MinimalByUnits(ratios: seq<int>)
    requires Ascending(ratios) && ratios != []
    ensures Minimal(ratios) <==> forall balance: nat, i: int :: 0 <= i < |ratios| ==> OneSavesOne(ratios, i, balance)
  {
    hide Ascending, Greedy, Represents;
    if Minimal(ratios) {
      forall balance: nat, i: int | 0 <= i < |ratios| ensures OneSavesOne(ratios, i, balance) {
        if ratios[i] <= balance {
          UnitAddedRepresents(ratios, i, balance);
        }
      }
    }
    if forall balance: nat, i: int :: 0 <= i < |ratios| ==> OneSavesOne(ratios, i, balance) {
      forall balance: nat, counts: seq<int> | Represents(ratios, counts, balance)
        ensures Units(Greedy(ratios, balance)) <= Units(counts)
      {
        UnitByUnit(ratios, balance, counts);
      }
    }
  }

  lemma UnitAddedRepresents(ratios: seq<int>, i: nat, balance: nat)
    requires Ascending(ratios) && i < |ratios| && ratios[i] <= balance
    ensures var rest := Greedy(ratios, balance - ratios[i]);
            var counts := WithUnit(rest, |ratios| - 1 - i);
            Represents(ratios, counts, balance) && Units(counts) == 1 + Units(rest)
  {
    hide Greedy, Value, Units;
    var rest := Greedy(ratios, balance - ratios[i]);
    GreedyRepresents(ratios, balance - ratios[i]);
    UnitAdds(ratios, rest, i);
    var counts := WithUnit(rest, |ratios| - 1 - i);
    forall c | c in counts ensures c >= 0 {
      var j :| 0 <= j < |counts| && counts[j] == c;
      assert rest[j] in rest;
    }
  }

  lemma {:induction false} UnitByUnit(ratios: seq<int>, balance: nat, counts: seq<int>)
    requires Ascending(ratios) && ratios != [] && Represents(ratios, counts, balance)
    requires forall x: nat, i: int :: 0 <= i < |ratios| ==> OneSavesOne(ratios, i, x)
    ensures Units(Greedy(ratios, balance)) <= Units(counts)
    decreases Units(counts)
  {
    hide Ascending, Greedy, Value;
    NonNegativeUnits(counts);
    if Units(counts) == 0 {
      NoUnits(ratios, counts);
      TooSmall(ratios, balance);
    } else {
      var j := SomeUnit(counts);
      var i := |ratios| - 1 - j;
      var fewer := counts[j := counts[j] - 1];
      assert WithUnit(fewer, j) == counts;
      UnitAdds(ratios, fewer, i);
      forall c | c in fewer ensures c >= 0 {
        var k :| 0 <= k < |fewer| && fewer[k] == c;
        assert counts[k] in counts;
      }
      NonNegativeUnits(fewer);
      NonNegativeValue(ratios, fewer);
      PositiveRatio(ratios, i);
      UnitByUnit(ratios, balance - ratios[i], fewer);
      assert OneSavesOne(ratios, i, balance);
    }
  }

  lemma PositiveRatio(ratios: seq<int>, i: nat)
    requires Ascending(ratios) && i < |ratios|
    ensures 0 < ratios[0] <= ratios[i] <= ratios[|ratios| - 1]
    ensures i < |ratios| - 1 ==> ratios[i] <= ratios[|ratios| - 2]
  {
  }

  // From the largest ratio on, one unit of it comes off at a time.
  lemma TopUnit(ratios: seq<int>, balance: nat)
    requires Ascending(ratios) && ratios != [] && ratios[|ratios| - 1] <= balance
    ensures Units(Greedy(ratios, balance)) == 1 + Units(Greedy(ratios, balance - ratios[|ratios| - 1]))
  {
    hide Ascending, Greedy;
    var n := |ratios| - 1;
    SmallerLadder(ratios);
    UnitsOf(ratios, balance);
    UnitsOf(ratios, balance - ratios[n]);
    Shifted(balance, ratios[n], 1, balance - ratios[n]);
  }

  lemma {:induction false} HorizonSuffices(ratios: seq<int>, i: nat, balance: nat)
    requires Ascending(ratios) && i < |ratios| && PassesBelowHorizon(ratios)
    ensures OneSavesOne(ratios, i, balance)
    decreases balance
  {
    hide Ascending, Greedy;
    var n := |ratios| - 1;
    PositiveRatio(ratios, i);
    PositiveRatio(ratios, if n > 0 then n - 1 else 0);
    if balance >= Horizon(ratios) {
      var top := ratios[n];
      TopUnit(ratios, balance);
      if i < n {
        TopUnit(ratios, balance - ratios[i]);
        HorizonSuffices(ratios, i, balance - top);
        assert balance - top - ratios[i] == balance - ratios[i] - top;
      }
    }
  }

  // For every accepted ladder: no representation of any balance beats its breakdown exactly
  // when none beats it by one unit below the sum of the two largest ratios.
  lemma FewestUnitsExactlyWhen(ratios: seq<int>)
    requires Ascending(ratios) && ratios != []
    ensures Minimal(ratios) <==> PassesBelowHorizon(ratios)
  {
    hide Ascending, Greedy, OneSavesOne, Minimal;
    MinimalByUnits(ratios);
    if PassesBelowHorizon(ratios) {
      forall balance: nat, i: int | 0 <= i < |ratios| ensures OneSavesOne(ratios, i, balance) {
        HorizonSuffices(ratios, i, balance);
      }
    }
  }

  // Ladders in which each ratio divides the next pass.
  lemma DividingIsMinimal(ratios: seq<int>)
    requires Ascending(ratios) && ratios != [] && Dividing(ratios)
    ensures Minimal(ratios) && PassesBelowHorizon(ratios)
  {
    hide Ascending, Greedy, Dividing;
    forall balance: nat, counts: seq<int> | Represents(ratios, counts, balance)
      ensures Units(Greedy(ratios, balance)) <= Units(counts)
    {
      FewestUnits(ratios, balance, counts);
    }
    FewestUnitsExactlyWhen(ratios);
  }

  // The least number of units of the largest ratio so far that reach a further ratio, and
  // what they are over by.
  function Reach(s: int, r: int): int
    requires s > 0
  {
    (r + s - 1) / s
  }

  // What the excess breaks down into is fewer units than reached the ratio.
  predicate RungPasses(ratios: seq<int>, r: int)
    requires Ascending(ratios) && ratios != [] && ratios[|ratios| - 1] < r
  {
    var s := ratios[|ratios| - 1];
    PositiveRatio(ratios, |ratios| - 1);
    Units(Greedy(ratios, Reach(s, r) * s - r)) < Reach(s, r)
  }

  lemma Reached(s: int, r: int)
    requires 0 < s < r
    ensures 0 <= Reach(s, r) * s - r < s
  {
    DividedNat(r + s - 1, s);
  }

  function Together(a: seq<int>, b: seq<int>): seq<int>
    requires |a| == |b|
  {
    seq(|a|, i requires 0 <= i < |a| => a[i] + b[i])
  }

  lemma {:induction false} TogetherAdds(ratios: seq<int>, a: seq<int>, b: seq<int>)
    requires |a| == |b| == |ratios|
    ensures Value(ratios, Together(a, b)) == Value(ratios, a) + Value(ratios, b)
    ensures Units(Together(a, b)) == Units(a) + Units(b)
  {
    if ratios != [] {
      var n := |ratios| - 1;
      TogetherAdds(ratios[..n], a[1..], b[1..]);
      assert Together(a, b)[1..] == Together(a[1..], b[1..]);
      Distribute(a[0], b[0], ratios[n]);
    }
  }

  // With a base unit of one, breakdowns on a minimal ladder are subadditive.
  lemma MinimalIsSubadditive(ratios: seq<int>, x: nat, y: nat)
    requires Ascending(ratios) && ratios != [] && ratios[0] == 1 && Minimal(ratios)
    ensures Units(Greedy(ratios, x + y)) <= Units(Greedy(ratios, x)) + Units(Greedy(ratios, y))
  {
    hide Ascending, Value, Units, Greedy;
    var a, b := Greedy(ratios, x), Greedy(ratios, y);
    GreedyRepresents(ratios, x);
    GreedyRepresents(ratios, y);
    TogetherAdds(ratios, a, b);
    var both := Together(a, b);
    forall c | c in both ensures c >= 0 {
      var i :| 0 <= i < |both| && both[i] == c;
      assert a[i] in a && b[i] in b;
    }
    assert Represents(ratios, both, x + y);
  }

  lemma TopUnits(ratios: seq<int>, k: nat, y: nat)
    requires Ascending(ratios) && ratios != []
    ensures var s := ratios[|ratios| - 1];
            k * s + y >= 0 && Units(Greedy(ratios, k * s + y)) == k + Units(Greedy(ratios, y))
  {
    hide Ascending, Greedy;
    var n := |ratios| - 1;
    SmallerLadder(ratios);
    Product(k, ratios[n]);
    UnitsOf(ratios, k * ratios[n] + y);
    UnitsOf(ratios, y);
    Shifted(k * ratios[n] + y, ratios[n], k, y);
  }

  // If the rung passes, one unit of the further ratio always saves at least one.
  lemma RungSaves(ratios: seq<int>, r: int, y: nat)
    requires Ascending(ratios) && ratios != [] && ratios[0] == 1 && Minimal(ratios)
    requires ratios[|ratios| - 1] < r <= y && RungPasses(ratios, r)
    ensures Units(Greedy(ratios, y - r)) + 1 <= Units(Greedy(ratios, y))
  {
    hide Ascending, Greedy, Minimal, Reach;
    var s := ratios[|ratios| - 1];
    PositiveRatio(ratios, |ratios| - 1);
    var m := Reach(s, r);
    Reached(s, r);
    var d := m * s - r;
    ReachPositive(s, r);
    TopUnits(ratios, m, y - r);
    assert m * s + (y - r) == y + d;
    MinimalIsSubadditive(ratios, y, d);
  }

  lemma ReachPositive(s: int, r: int)
    requires 0 < s < r
    ensures Reach(s, r) >= 1
  {
    DividedNat(r + s - 1, s);
  }

  lemma {:induction false} RungSavesAll(ratios: seq<int>, r: int, y: nat)
    requires Ascending(ratios) && ratios != [] && ratios[0] == 1 && Minimal(ratios)
    requires 0 < ratios[|ratios| - 1] < r && RungPasses(ratios, r)
    ensures y / r + Units(Greedy(ratios, y % r)) <= Units(Greedy(ratios, y))
    decreases y
  {
    hide Ascending, Greedy, Minimal, RungPasses;
    if y < r {
      SmallQuotient(y, r);
    } else {
      RungSaves(ratios, r, y);
      RungSavesAll(ratios, r, y - r);
      Shifted(y, r, 1, y - r);
    }
  }

  lemma ExtendedUnits(ratios: seq<int>, r: int, x: nat)
    requires Ascending(ratios) && Ascending(ratios + [r]) && r > 0
    ensures Units(Greedy(ratios + [r], x)) == x / r + Units(Greedy(ratios, x % r))
  {
    hide Ascending, Greedy;
    UnitsOf(ratios + [r], x);
    assert (ratios + [r])[..|ratios|] == ratios;
  }

  // On a minimal ladder with a base unit of one, one more ratio keeps it minimal exactly when
  // its rung passes.
  lemma RungExactlyWhen(ratios: seq<int>, r: int)
    requires Ascending(ratios) && ratios != [] && ratios[0] == 1 && Minimal(ratios) && ratios[|ratios| - 1] < r
    requires Ascending(ratios + [r])
    ensures Minimal(ratios + [r]) <==> RungPasses(ratios, r)
  {
    hide Ascending, Greedy, Minimal, RungPasses;
    PositiveRatio(ratios, |ratios| - 1);
    if Minimal(ratios + [r]) {
      MinimalPasses(ratios, r);
    }
    if RungPasses(ratios, r) {
      PassingIsMinimal(ratios, r);
    }
  }

  lemma MinimalPasses(ratios: seq<int>, r: int)
    requires Ascending(ratios) && ratios != [] && ratios[0] == 1 && 0 < ratios[|ratios| - 1] < r
    requires Ascending(ratios + [r]) && Minimal(ratios + [r])
    ensures RungPasses(ratios, r)
  {
    hide Ascending, Greedy, Reach;
    var all := ratios + [r];
    var s := ratios[|ratios| - 1];
    var m := Reach(s, r);
    Reached(s, r);
    ReachPositive(s, r);
    var d := m * s - r;
    var counts := [0] + Greedy(ratios, m * s);
    GreedyRepresents(ratios, m * s);
    ExtendedValue(ratios, r, counts);
    assert forall c :: c in counts ==> c == 0 || c in Greedy(ratios, m * s);
    assert Represents(all, counts, m * s);
    TopUnits(ratios, m, 0);
    TooSmall(ratios, 0);
    assert counts[1..] == Greedy(ratios, m * s);
    ExtendedUnits(ratios, r, m * s);
    Shifted(m * s, r, 1, d);
    SmallQuotient(d, r);
  }

  lemma ExtendedValue(ratios: seq<int>, r: int, counts: seq<int>)
    requires |counts| == |ratios| + 1
    ensures Value(ratios + [r], counts) == counts[0] * r + Value(ratios, counts[1..])
    ensures Units(counts) == counts[0] + Units(counts[1..])
  {
    assert (ratios + [r])[..|ratios|] == ratios;
  }

  lemma PassingIsMinimal(ratios: seq<int>, r: int)
    requires Ascending(ratios) && ratios != [] && ratios[0] == 1 && Minimal(ratios)
    requires 0 < ratios[|ratios| - 1] < r && RungPasses(ratios, r) && Ascending(ratios + [r])
    ensures Minimal(ratios + [r])
  {
    hide Ascending, Greedy, RungPasses;
    var all := ratios + [r];
    forall balance: nat, counts: seq<int> | Represents(all, counts, balance)
      ensures Units(Greedy(all, balance)) <= Units(counts)
    {
      ExtendedValue(ratios, r, counts);
      var lower := balance - counts[0] * r;
      assert counts[0] in counts && forall c :: c in counts[1..] ==> c in counts;
      NonNegativeValue(ratios, counts[1..]);
      assert all[0] == ratios[0] == 1;
      assert Represents(ratios, counts[1..], lower);
      assert Units(Greedy(ratios, lower)) <= Units(counts[1..]);
      RungSavesAll(ratios, r, lower);
      ExtendedUnits(ratios, r, balance);
      Shifted(balance, r, counts[0], lower);
    }
  }

  ghost predicate PrefixesMinimal(ratios: seq<int>)
    requires Ascending(ratios)
  {
    PrefixesAscend(ratios);
    forall n: int :: 0 < n <= |ratios| ==> Minimal(ratios[..n])
  }

  predicate RungsPass(ratios: seq<int>)
    requires Ascending(ratios)
  {
    PrefixesAscend(ratios);
    forall i: int :: 0 < i < |ratios| ==> RungPasses(ratios[..i], ratios[i])
  }

  lemma PrefixesAscend(ratios: seq<int>)
    requires Ascending(ratios)
    ensures forall n: int :: 0 <= n <= |ratios| ==> Ascending(ratios[..n])
    ensures forall n: int :: 0 < n < |ratios| ==> ratios[..n][n - 1] < ratios[n]
  {
  }

  lemma PrefixesSplit(ratios: seq<int>)
    requires Ascending(ratios) && |ratios| >= 2
    ensures var k := |ratios| - 1;
            Ascending(ratios[..k]) && (PrefixesMinimal(ratios) <==> PrefixesMinimal(ratios[..k]) && Minimal(ratios))
  {
    hide Ascending, Minimal;
    var k := |ratios| - 1;
    PrefixesAscend(ratios);
    assert ratios[..|ratios|] == ratios;
    assert forall n: int :: 0 < n <= k ==> ratios[..k][..n] == ratios[..n];
  }

  lemma RungsSplit(ratios: seq<int>)
    requires Ascending(ratios) && |ratios| >= 2
    ensures var k := |ratios| - 1;
            && Ascending(ratios[..k]) && ratios[..k][k - 1] < ratios[k]
            && (RungsPass(ratios) <==> RungsPass(ratios[..k]) && RungPasses(ratios[..k], ratios[k]))
  {
    hide Ascending, RungPasses;
    var k := |ratios| - 1;
    PrefixesAscend(ratios);
    assert forall n: int :: 0 < n < k ==> ratios[..k][..n] == ratios[..n];
    PrefixesAscend(ratios[..k]);
  }

  // Rung by rung: every initial part of a ladder with a base unit of one is minimal exactly
  // when every further ratio passes, a check of as many breakdowns as there are ratios.
  lemma {:induction false} EveryRung(ratios: seq<int>)
    requires Ascending(ratios) && ratios != [] && ratios[0] == 1
    ensures PrefixesMinimal(ratios) <==> RungsPass(ratios)
  {
    var k := |ratios| - 1;
    if k == 0 {
      OneRatioMinimal(ratios);
      assert ratios[..1] == ratios;
    } else {
      hide Ascending, Minimal, RungPasses, PrefixesMinimal, RungsPass;
      PrefixesSplit(ratios);
      RungsSplit(ratios);
      EveryRung(ratios[..k]);
      assert ratios[..k] + [ratios[k]] == ratios;
      if PrefixesMinimal(ratios[..k]) {
        WholeIsPrefix(ratios[..k]);
        RungExactlyWhen(ratios[..k], ratios[k]);
      }
    }
  }

  lemma WholeIsPrefix(ratios: seq<int>)
    requires Ascending(ratios) && ratios != [] && PrefixesMinimal(ratios)
    ensures Minimal(ratios)
  {
    assert ratios[..|ratios|] == ratios;
  }

  lemma OneRatioMinimal(ratios: seq<int>)
    requires Ascending(ratios) && |ratios| == 1
    ensures Minimal(ratios)
  {
    DividingIsMinimal(ratios);
  }

  // Without divisibility it can fail: six units of a 1, 3, 4 ladder.
  lemma GreedyNotFewest()
    ensures var ratios := [1, 3, 4];
            Ascending(ratios) && Value(ratios, [0, 2, 0]) == 6 && Units([0, 2, 0]) < Units(Greedy(ratios, 6))
  {
    var ratios := [1, 3, 4];
    assert ratios[..2] == [1, 3] && [1, 3][..1] == [1];
    assert Greedy([1], 2) == [2];
    assert Greedy([1, 3], 2) == [0, 2];
    assert Greedy(ratios, 6) == [1, 0, 2];
    assert Units([1, 0, 2]) == 1 + Units([0, 2]) == 3;
    assert Value([1, 3], [2, 0]) == 6;
  }
}
