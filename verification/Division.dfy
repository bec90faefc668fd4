/** Products and quotients of integers: the few facts the other proofs build on. */
module Division {
  lemma DivBounds(n: nat, c: nat)
    requires c > 0
    ensures n / c * c <= n < n / c * c + c
    ensures n % c == n - n / c * c
  {
  }

  lemma DivUnique(n: nat, c: nat, q: nat)
    requires c > 0 && q * c <= n < q * c + c
    ensures n / c == q
  {
    DivBounds(n, c);
    if n / c < q {
      MulLe(n / c + 1, q, c);
    } else if n / c > q {
      MulLe(q + 1, n / c, c);
    }
  }

  lemma MulLe(x: int, y: int, c: nat)
    requires x <= y
    ensures x * c <= y * c
  {
  }

  /** The largest q with q * c <= n: a way to show `n / c >= q`. */
  lemma DivAtLeast(n: nat, c: nat, q: nat)
    requires c > 0 && q * c <= n
    ensures n / c >= q
  {
    DivBounds(n, c);
    if n / c < q {
      MulLe(n / c + 1, q, c);
    }
  }

  lemma DivLe(n: nat, c: nat)
    requires c > 0
    ensures n / c <= n
  {
    DivBounds(n, c);
    MulLe(1, c, n / c);
  }

  lemma MulNonNegative(a: nat, b: nat)
    ensures 0 <= a * b
  {
    MulLe(0, a, b);
  }

  lemma CancelLe(a: int, b: int, c: nat)
    requires c > 0 && a * c <= b * c
    ensures a <= b
  {
    if a > b { MulLe(b + 1, a, c); }
  }
}
