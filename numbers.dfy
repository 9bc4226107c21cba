/** Integer facts the solvers' index arithmetic rests on. */
module Numbers {

  /** Euclidean division is determined by quotient and remainder. */
  lemma DivModUnique(x: int, l: int, q: int, j: int)
    requires l > 0 && 0 <= j < l && x == l * q + j
    ensures x / l == q && x % l == j
  {
    var q', j' := x / l, x % l;
    var d := q - q';
    assert l * q == l * q' + l * d by {
      Distribute(l, q', d);
    }
    assert l * d == j' - j;
    if d >= 1 {
      AtLeastOnce(d, l);
    } else if d <= -1 {
      AtLeastOnce(-d, l);
      Distribute(l, d, -d);
    }
  }

  lemma Distribute(l: int, a: int, b: int)
    ensures l * (a + b) == l * a + l * b
  {
  }

  lemma AtLeastOnce(d: int, l: int)
    requires d >= 1 && l >= 0
    ensures l * d >= l
  {
    Distribute(l, 1, d - 1);
  }

  /** Adding a multiple of l does not change the remainder. */
  lemma ModAddMultiple(a: int, b: int, l: int)
    requires l > 0 && a % l == 0
    ensures (a + b) % l == b % l
  {
    DivModUnique(a + b, l, a / l + b / l, b % l);
  }

  function Pow10(k: nat): (p: nat)
    ensures p >= 1
  {
    if k == 0 then 1 else 10 * Pow10(k - 1)
  }

  lemma MulLeft(a: int, b: int, p: int)
    requires a <= b && p >= 0
    ensures a * p <= b * p
  {
  }

  /** d followed by k decimal zeros, that is d * 10^k, built with multiplications by the constant 10 only. */
  function Shift(d: nat, k: nat): nat {
    if k == 0 then d else 10 * Shift(d, k - 1)
  }

  lemma {:induction false} ShiftAdd(a: nat, b: nat, k: nat)
    ensures Shift(a + b, k) == Shift(a, k) + Shift(b, k)
  {
    if k > 0 {
      ShiftAdd(a, b, k - 1);
    }
  }

  lemma {:induction false} ShiftTen(d: nat, k: nat)
    ensures Shift(10 * d, k) == Shift(d, k + 1)
  {
    if k > 0 {
      ShiftTen(d, k - 1);
    }
  }

  lemma {:induction false} ShiftIsProduct(d: nat, k: nat)
    ensures Shift(d, k) == d * Pow10(k)
  {
    if k > 0 {
      ShiftIsProduct(d, k - 1);
      var q := Pow10(k - 1);
      assert 10 * (d * q) == d * (10 * q);
    }
  }

  /** A position inside a w-by-h rectangle has a row-major index inside it. */
  lemma IndexInside(x: nat, y: nat, w: nat, h: nat)
    requires x < w && y < h
    ensures x + w * y < w * h
  {
    Distribute(w, y, 1);
    MulLeft(y + 1, h, w);
  }

  /** A row-major index inside a w-by-h rectangle splits into column i % w and row i / w. */
  lemma SplitIndex(i: nat, w: nat, h: nat)
    requires w > 0 && i < w * h
    ensures i % w < w && i / w < h && i % w + w * (i / w) == i
  {
    if i / w >= h {
      MulLeft(h, i / w, w);
    }
  }

  /** With h > 0, t / h is zero exactly when t < h. */
  lemma QuotientZero(t: nat, h: nat)
    requires h > 0
    ensures t / h == 0 <==> t < h
  {
    if t < h {
      DivModUnique(t, h, 0, t);
    }
  }

  /** With h > 0, (t / h) * h equals t exactly when h divides t. */
  lemma QuotientExact(t: nat, h: nat)
    requires h > 0
    ensures (t / h) * h == t <==> t % h == 0
  {
    assert t == h * (t / h) + t % h;
  }
}
