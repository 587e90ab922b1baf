/** Quotients and remainders. */
module Division {
  lemma Recompose(x: nat, m: nat)
    requires 0 < m
    ensures x == x / m * m + x % m
  {
  }

  lemma Product(a: nat, b: nat, c: nat)
    requires a <= b
    ensures a * c <= b * c
  {
  }

  lemma NextMultiple(a: nat, c: nat)
    ensures (a + 1) * c == a * c + c
  {
  }

  lemma DivMod(q: nat, r: nat, m: nat)
    requires r < m
    ensures (q * m + r) / m == q && (q * m + r) % m == r
  {
    var x := q * m + r;
    Recompose(x, m);
    var a := x / m;
    if q < a {
      Product(q + 1, a, m);
      NextMultiple(q, m);
    } else if a < q {
      Product(a + 1, q, m);
      NextMultiple(a, m);
    }
  }

  lemma AddDivisor(x: nat, m: nat)
    requires 0 < m
    ensures (x + m) / m == x / m + 1 && (x + m) % m == x % m
  {
    Recompose(x, m);
    NextMultiple(x / m, m);
    DivMod(x / m + 1, x % m, m);
  }

  lemma {:induction false} DivMonotone(x: nat, y: nat, m: nat)
    requires 0 < m && x <= y
    ensures x / m <= y / m
    decreases y
  {
    if y >= m {
      AddDivisor(y - m, m);
      if x >= m {
        AddDivisor(x - m, m);
        DivMonotone(x - m, y - m, m);
      } else {
        assert x / m == 0;
      }
    } else {
      assert x / m == 0;
    }
  }

  /** Dividing by a product is dividing twice. */
  lemma DivideTwice(x: nat, m: nat, k: nat)
    requires m > 0 && k > 0
    ensures m * k > 0 && x / (m * k) == x / m / k
  {
    var a, b := x / m, x % m;
    var c, d := a / k, a % k;
    Recompose(x, m);
    Recompose(a, k);
    Regroup(c, k, d, m, b);
    Product(d + 1, k, m);
    NextMultiple(d, m);
    DivMod(c, d * m + b, m * k);
  }

  lemma Regroup(c: nat, k: nat, d: nat, m: nat, b: nat)
    ensures (c * k + d) * m + b == c * (m * k) + (d * m + b)
  {
  }
}
