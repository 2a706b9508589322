/** Products and quotients of reals, by their laws. A proof that hides `Times`
    sees linear arithmetic alone. */
module Products {
  function Times(a: real, x: real): real {
    a * x
  }

  lemma Spelled(a: real, x: real)
    ensures Times(a, x) == a * x
  {
  }

  lemma Swap(a: real, x: real)
    ensures Times(a, x) == Times(x, a)
  {
  }

  lemma Opposite(a: real, x: real)
    ensures Times(a, -x) == -Times(a, x)
  {
  }

  lemma Sum(a: real, x: real, y: real)
    ensures Times(a, x + y) == Times(a, x) + Times(a, y)
  {
  }

  lemma Nested(b: real, a: real, x: real)
    ensures Times(b, Times(a, x)) == Times(Times(b, a), x)
  {
  }

  lemma One(x: real)
    ensures Times(1.0, x) == x
  {
  }

  lemma Positive(a: real, x: real)
    requires 0.0 < a && 0.0 < x
    ensures 0.0 < Times(a, x)
  {
  }

  lemma Zero(a: real)
    ensures Times(a, 0.0) == 0.0
  {
  }

  lemma NotNegative(a: real, x: real)
    requires 0.0 <= a && 0.0 <= x
    ensures 0.0 <= Times(a, x)
  {
    hide Times;
    Swap(a, x);
    Zero(a);
    Zero(x);
    if 0.0 < a && 0.0 < x {
      Positive(a, x);
    }
  }

  /** What the rest of the whole takes. */
  lemma Rest(a: real, x: real)
    ensures Times(1.0 - a, x) == x - Times(a, x)
  {
    hide Times;
    Swap(1.0 - a, x);
    Swap(a, x);
    Swap(1.0, x);
    Sum(x, a, 1.0 - a);
    One(x);
  }

  lemma Rises(a: real, x: real, y: real)
    requires 0.0 <= a && x <= y
    ensures Times(a, x) <= Times(a, y)
  {
    hide Times;
    Sum(a, x, y - x);
    NotNegative(a, y - x);
  }

  lemma RisesStrictly(a: real, x: real, y: real)
    requires 0.0 < a && x < y
    ensures Times(a, x) < Times(a, y)
  {
    hide Times;
    Sum(a, x, y - x);
    Positive(a, y - x);
  }

  lemma Larger(a: real, b: real, x: real)
    requires a <= b && 0.0 <= x
    ensures Times(a, x) <= Times(b, x)
  {
    hide Times;
    Swap(a, x);
    Swap(b, x);
    Rises(x, a, b);
  }

  lemma Compared(a: real, b: real, h: real)
    requires h > 0.0
    ensures a <= b <==> Times(a, h) <= Times(b, h)
  {
    hide Times;
    Swap(a, h);
    Swap(b, h);
    if a < b {
      RisesStrictly(h, a, b);
    } else if b < a {
      RisesStrictly(h, b, a);
    }
  }

  /** A product is zero only with one of its factors. */
  lemma ZeroOnly(a: real, x: real)
    ensures Times(a, x) == 0.0 <==> a == 0.0 || x == 0.0
  {
    hide Times;
    Swap(a, x);
    Zero(a);
    Zero(x);
    Opposite(a, x);
    Opposite(x, a);
    Swap(-a, x);
    Opposite(-a, x);
    if a > 0.0 && x > 0.0 {
      Positive(a, x);
    } else if a > 0.0 && x < 0.0 {
      Positive(a, -x);
    } else if a < 0.0 && x > 0.0 {
      Positive(-a, x);
    } else if a < 0.0 && x < 0.0 {
      Positive(-a, -x);
    }
  }

  /** A part of a positive amount is no more than it, and less if not the whole. */
  lemma PartOf(a: real, x: real)
    requires 0.0 <= a <= 1.0 && 0.0 <= x
    ensures 0.0 <= Times(a, x) <= x
    ensures a < 1.0 && 0.0 < x ==> Times(a, x) < x
  {
    hide Times;
    NotNegative(a, x);
    NotNegative(1.0 - a, x);
    Rest(a, x);
    if a < 1.0 && 0.0 < x {
      Positive(1.0 - a, x);
    }
  }

  function Over(x: real, k: real): real
    requires k != 0.0
  {
    x / k
  }

  lemma Whole(x: real, k: real)
    requires k != 0.0
    ensures Times(k, Over(x, k)) == x
  {
  }

  /** A quotient by a positive number compares as the dividend does. */
  lemma OverCompares(x: real, k: real, y: real)
    requires k > 0.0
    ensures Over(x, k) <= y <==> x <= Times(k, y)
    ensures Over(x, k) < y <==> x < Times(k, y)
  {
    hide Times, Over;
    Whole(x, k);
    if Over(x, k) < y {
      RisesStrictly(k, Over(x, k), y);
    } else if y < Over(x, k) {
      RisesStrictly(k, y, Over(x, k));
    }
  }
}
