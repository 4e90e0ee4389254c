/** Finite sums over maps: the counting arguments of the hardlink proofs. */
module Sums {

  /** The sum of all the values of a map. */
  ghost function Sum<T>(m: map<T, int>): int {
    if m.Keys == {} then 0 else
      var x :| x in m.Keys;
      m[x] + Sum(m - {x})
  }

  function Restrict<T, V>(m: map<T, V>, keys: set<T>): map<T, V> {
    map x | x in keys && x in m :: m[x]
  }

  /** Any key may be taken out first: the sum does not depend on the order of choice. */
  lemma {:induction false} SumExtract<T>(m: map<T, int>, x: T)
    requires x in m
    ensures Sum(m) == m[x] + Sum(m - {x})
    decreases |m.Keys|
  {
    var y :| y in m.Keys && Sum(m) == m[y] + Sum(m - {y});
    if x != y {
      assert |(m - {y}).Keys| < |m.Keys| by { assert (m - {y}).Keys == m.Keys - {y}; }
      assert |(m - {x}).Keys| < |m.Keys| by { assert (m - {x}).Keys == m.Keys - {x}; }
      SumExtract(m - {y}, x);
      SumExtract(m - {x}, y);
      assert m - {y} - {x} == m - {x} - {y};
    }
  }

  lemma SumUpdate<T>(m: map<T, int>, x: T, v: int)
    ensures Sum(m[x := v]) == Sum(m) + v - (if x in m then m[x] else 0)
  {
    SumExtract(m[x := v], x);
    assert m[x := v] - {x} == m - {x};
    if x in m {
      SumExtract(m, x);
    } else {
      assert m - {x} == m;
    }
  }

  /** Sums are additive over pointwise combinations of maps on the same keys. */
  lemma {:induction false} SumLinear<T>(m: map<T, int>, a: map<T, int>, b: map<T, int>, c: map<T, int>)
    requires m.Keys == a.Keys == b.Keys == c.Keys
    requires forall x :: x in m ==> m[x] == a[x] - b[x] - c[x]
    ensures Sum(m) == Sum(a) - Sum(b) - Sum(c)
    decreases |m.Keys|
  {
    if m.Keys != {} {
      var x :| x in m.Keys;
      SumExtract(m, x);
      SumExtract(a, x);
      SumExtract(b, x);
      SumExtract(c, x);
      assert (m - {x}).Keys == m.Keys - {x};
      SumLinear(m - {x}, a - {x}, b - {x}, c - {x});
    }
  }

  /** Keys that carry zero may be added without changing the sum. */
  lemma {:induction false} SumPad<T>(m: map<T, int>, wide: map<T, int>)
    requires m.Keys <= wide.Keys
    requires forall x :: x in wide ==> wide[x] == if x in m then m[x] else 0
    ensures Sum(wide) == Sum(m)
    decreases |wide.Keys|
  {
    if wide.Keys != {} {
      var x :| x in wide.Keys;
      SumExtract(wide, x);
      assert (wide - {x}).Keys == wide.Keys - {x};
      if x in m {
        SumExtract(m, x);
        SumPad(m - {x}, wide - {x});
      } else {
        SumPad(m, wide - {x});
      }
    }
  }

  lemma {:induction false} SumNonNegative<T>(m: map<T, int>)
    requires forall x :: x in m ==> m[x] >= 0
    ensures Sum(m) >= 0
    ensures forall x :: x in m ==> m[x] <= Sum(m)
    decreases |m.Keys|
  {
    forall x | x in m ensures 0 <= m[x] <= Sum(m) {
      SumExtract(m, x);
      assert (m - {x}).Keys == m.Keys - {x};
      SumNonNegative(m - {x});
    }
    if m.Keys != {} {
      var x :| x in m.Keys;
      assert m[x] <= Sum(m);
    }
  }

  lemma {:induction false} SumZero<T>(m: map<T, int>)
    requires forall x :: x in m ==> m[x] == 0
    ensures Sum(m) == 0
    decreases |m.Keys|
  {
    if m.Keys != {} {
      var x :| x in m.Keys;
      SumExtract(m, x);
      assert (m - {x}).Keys == m.Keys - {x};
      SumZero(m - {x});
    }
  }

  lemma {:induction false} SumMonotone<T>(a: map<T, int>, b: map<T, int>)
    requires a.Keys == b.Keys && forall x :: x in a ==> a[x] <= b[x]
    ensures Sum(a) <= Sum(b)
    decreases |a.Keys|
  {
    if a.Keys != {} {
      var x :| x in a.Keys;
      SumExtract(a, x);
      SumExtract(b, x);
      assert (a - {x}).Keys == a.Keys - {x} && (b - {x}).Keys == b.Keys - {x};
      SumMonotone(a - {x}, b - {x});
    }
  }
}
