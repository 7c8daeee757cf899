/** Facts about flat row-major indices of an n x n grid: the row of index i is
    i / n and its column is i % n. The solver does not find these on its own. */
module Grid {

  lemma MulIsZero(k: int, n: int)
    requires n > 0 && -n < k * n < n
    ensures k == 0
  {
  }

  /** Quotient and remainder are determined by a == q * n + r with 0 <= r < n. */
  lemma DivModUnique(a: int, n: int, q: int, r: int)
    requires n > 0 && 0 <= r < n && a == q * n + r
    ensures a / n == q && a % n == r
  {
    var q', r' := a / n, a % n;
    assert a == q' * n + r';
    assert (q - q') * n == r' - r;
    MulIsZero(q - q', n);
  }

  /** One row up: the row drops by one, the column stays. */
  lemma RowAbove(i: nat, n: nat)
    requires n > 0 && i >= n
    ensures (i - n) / n == i / n - 1 && (i - n) % n == i % n
  {
    DivModUnique(i - n, n, i / n - 1, i % n);
  }

  /** One row down: the row grows by one, the column stays. */
  lemma RowBelow(i: nat, n: nat)
    requires n > 0
    ensures (i + n) / n == i / n + 1 && (i + n) % n == i % n
  {
    DivModUnique(i + n, n, i / n + 1, i % n);
  }

  /** One column left within the same row. */
  lemma ColumnLeft(i: nat, n: nat)
    requires n > 0 && i % n > 0
    ensures (i - 1) / n == i / n && (i - 1) % n == i % n - 1
  {
    DivModUnique(i - 1, n, i / n, i % n - 1);
  }

  /** One column right within the same row. */
  lemma ColumnRight(i: nat, n: nat)
    requires n > 0 && i % n < n - 1
    ensures (i + 1) / n == i / n && (i + 1) % n == i % n + 1
  {
    DivModUnique(i + 1, n, i / n, i % n + 1);
  }

  /** Every index of the grid lies in one of its n rows. */
  lemma RowInRange(i: nat, n: nat)
    requires n > 0 && i < n * n
    ensures i / n < n
  {
  }

  /** Row r (r < n) ends at most at the end of the grid. */
  lemma RowEnd(r: nat, n: nat)
    requires r < n
    ensures r * n + n <= n * n
  {
    assert r * n + n == (r + 1) * n;
    assert (n - (r + 1)) * n >= 0;
  }

  /** The cell below an index that is not in the last row is in the grid. */
  lemma BelowInRange(i: nat, n: nat)
    requires n > 0 && i / n < n - 1
    ensures i + n < n * n
  {
    assert i == (i / n) * n + i % n;
    RowEnd(i / n + 1, n);
  }

  /** The cell right of an index that is not in the last column is in the grid. */
  lemma RightInRange(i: nat, n: nat)
    requires n > 0 && i < n * n && i % n < n - 1
    ensures i + 1 < n * n
  {
    RowInRange(i, n);
    assert i == (i / n) * n + i % n;
    RowEnd(i / n, n);
  }
}
