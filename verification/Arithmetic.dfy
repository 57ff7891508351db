/** Division facts the solver does not find by itself. */
module Arithmetic {

  lemma MulMonotone(d: nat, x: nat, y: nat)
    requires x <= y
    ensures d * x <= d * y
  {
  }

  lemma CancelFactor(d: nat, x: nat, y: nat)
    requires d * x < d * y + d
    ensures x <= y
  {
    if y < x { MulMonotone(d, y + 1, x); }
  }

  /** Quotient and remainder are unique. */
  lemma DivideOut(x: nat, d: nat, q: nat, r: nat)
    requires x == r + d * q && r < d
    ensures x / d == q && x % d == r
  {
    var q', r' := x / d, x % d;
    assert x == r' + d * q';
    CancelFactor(d, q, q');
    CancelFactor(d, q', q);
  }

  // Row and column of index k in n rows of the given width.
  lemma Locate(k: nat, n: nat, width: nat) returns (row: nat, column: nat)
    requires width > 0 && k < n * width
    ensures row < n && column < width && k == row * width + column
    ensures row == k / width && column == k % width
  {
    row, column := k / width, k % width;
    assert width * (row + 1) < width * n + width;
    CancelFactor(width, row + 1, n);
  }

  lemma DivideSuccessor(n: nat, d: nat)
    requires d > 0
    ensures (n + 1) % d == (if n % d == d - 1 then 0 else n % d + 1)
    ensures (n + 1) / d == (if n % d == d - 1 then n / d + 1 else n / d)
  {
    var q, m := n / d, n % d;
    assert n == m + d * q;
    if m == d - 1 {
      assert n + 1 == 0 + d * (q + 1);
      DivideOut(n + 1, d, q + 1, 0);
    } else {
      DivideOut(n + 1, d, q, m + 1);
    }
  }

  lemma SplitIsInjective(i: nat, j: nat, d: nat)
    requires d > 0 && i % d == j % d && i / d == j / d
    ensures i == j
  {
    assert i == d * (i / d) + i % d && j == d * (j / d) + j % d;
  }
}
