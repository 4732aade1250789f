/** Sums of an integer function over a finite set, for conservation statements. */
module Sums {
  ghost function SumOver<T(!new)>(s: set<T>, f: T -> int): int {
    if s == {} then 0 else var x :| x in s; f(x) + SumOver(s - {x}, f)
  }

  lemma {:induction false} SumOverPick<T(!new)>(s: set<T>, f: T -> int, x: T)
    requires x in s
    ensures SumOver(s, f) == f(x) + SumOver(s - {x}, f)
    decreases s
  {
    var y :| y in s && SumOver(s, f) == f(y) + SumOver(s - {y}, f);
    if y != x {
      SumOverPick(s - {y}, f, x);
      SumOverPick(s - {x}, f, y);
      assert s - {y} - {x} == s - {x} - {y};
    }
  }

  lemma {:induction false} SumOverSame<T(!new)>(s: set<T>, f: T -> int, g: T -> int)
    requires forall x :: x in s ==> f(x) == g(x)
    ensures SumOver(s, f) == SumOver(s, g)
    decreases s
  {
    if s != {} {
      var x :| x in s;
      SumOverPick(s, f, x);
      SumOverPick(s, g, x);
      SumOverSame(s - {x}, f, g);
    }
  }

  // Changing the summand at one point changes the sum by exactly that difference.
  lemma {:induction false} SumOverShift<T(!new)>(s: set<T>, f: T -> int, g: T -> int, x: T)
    requires x in s
    requires forall y :: y in s && y != x ==> f(y) == g(y)
    ensures SumOver(s, g) == SumOver(s, f) + g(x) - f(x)
  {
    SumOverPick(s, f, x);
    SumOverPick(s, g, x);
    SumOverSame(s - {x}, f, g);
  }

  // The same for two points, as a trade needs.
  lemma SumOverShift2<T(!new)>(s: set<T>, f: T -> int, g: T -> int, x: T, y: T)
    requires x in s && y in s && x != y
    requires forall z :: z in s && z != x && z != y ==> f(z) == g(z)
    ensures SumOver(s, g) == SumOver(s, f) + g(x) - f(x) + g(y) - f(y)
  {
    var h := (z: T) => if z == x then g(z) else f(z);
    SumOverShift(s, f, h, x);
    SumOverShift(s, h, g, y);
  }

  // Points where the summand is zero can be added or dropped.
  lemma {:induction false} SumOverExtend<T(!new)>(s: set<T>, t: set<T>, f: T -> int)
    requires s <= t
    requires forall x :: x in t && x !in s ==> f(x) == 0
    ensures SumOver(t, f) == SumOver(s, f)
    decreases t - s
  {
    if s != t {
      var x :| x in t && x !in s;
      SumOverExtend(s + {x}, t, f);
      SumOverPick(s + {x}, f, x);
      assert s + {x} - {x} == s;
    }
  }
}
