/** The few facts about products and floors that the money-handling proofs build on. */
module Arithmetic {

  lemma MulLe(a: int, b: int, c: nat)
    requires a <= b
    ensures a * c <= b * c && c * a <= c * b
  {
  }

  lemma ProductLe(a: nat, b: nat, c: nat, d: nat)
    requires a <= b && c <= d
    ensures a * c <= b * d
  {
    MulLe(a, b, c);
    MulLe(c, d, b);
  }

  lemma Distributes(a: int, b: int, c: int)
    ensures (a + b) * c == a * c + b * c
  {
  }

  lemma Cancel(a: nat, b: nat, c: nat)
    requires c > 0 && a * c <= b * c
    ensures a <= b
  {
    Distributes(b, 1, c);
    if b + 1 <= a { MulLe(b + 1, a, c); }
  }

  lemma StrictCancel(a: nat, b: nat, c: nat)
    requires a * c < b * c
    ensures a < b
  {
    if b <= a { MulLe(b, a, c); }
  }

  /** Integer division as a named operation. */
  function Floor(n: nat, d: nat): (q: nat)
    requires d > 0
  {
    n / d
  }

  lemma FloorBounds(n: nat, d: nat)
    requires d > 0
    ensures Floor(n, d) * d <= n < (Floor(n, d) + 1) * d
  {
    var q := n / d;
    assert n == q * d + n % d;
    Distributes(q, 1, d);
  }

  /** Two multiples of `e` less than `e` apart are one. */
  lemma MultiplesApart(j: int, k: int, e: nat)
    requires k * e - e < j * e < k * e + e
    ensures j == k
  {
    Distributes(j - k, k, e);
    if j > k { MulLe(1, j - k, e); }
    if j < k { MulLe(j - k, -1, e); }
  }

  /** Remainder zero means a multiple. */
  lemma DividesExactly(d: nat, e: nat)
    requires e > 0
    ensures d % e == 0 <==> exists k: nat :: d == k * e
  {
    var q := d / e;
    assert d == q * e + d % e;
    if k: nat :| d == k * e { MultiplesApart(k, q, e); }
  }

  /** A floor is the greatest whole number of `d` that fits in `n`. */
  lemma FloorIsMost(n: nat, d: nat, y: nat)
    requires d > 0
    ensures y <= Floor(n, d) <==> y * d <= n
  {
    FloorBounds(n, d);
    if y <= Floor(n, d) {
      MulLe(y, Floor(n, d), d);
    } else {
      MulLe(Floor(n, d) + 1, y, d);
    }
  }
}
