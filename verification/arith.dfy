/** Integer facts about the row-major lattice: flat index i of an n-wide grid
    is row i / n and column i % n. Kept apart so that the mesh proofs below
    only ever meet these facts as lemma calls. */
module LatticeArith {

  /** Quotient and remainder are unique: x = q*d + r with 0 <= r < d fixes both. */
  lemma DivModUnique(x: int, d: int, q: int, r: int)
    requires d > 0 && 0 <= r < d && x == q * d + r
    ensures x / d == q && x % d == r
  {
    var q', r' := x / d, x % d;
    assert x == q' * d + r';
    if q' < q {
      MulMonotone(q' + 1, q, d);
      assert false;
    } else if q < q' {
      MulMonotone(q + 1, q', d);
      assert false;
    }
  }

  lemma MulMonotone(a: int, b: int, d: int)
    requires a <= b && d >= 0
    ensures a * d <= b * d
  {
    assert b * d - a * d == (b - a) * d;
  }

  /** Moving from flat index i to i + 1 either bumps the column or, when the
      next index starts a row, resets the column to 0 and bumps the row. */
  lemma {:induction false} NextIndex(n: nat, i: nat)
    requires n > 0
    ensures (i + 1) % n == 0 ==> (i + 1) / n == i / n + 1 && i % n == n - 1
    ensures (i + 1) % n != 0 ==> (i + 1) / n == i / n && (i + 1) % n == i % n + 1
  {
    var q, r := i / n, i % n;
    if r == n - 1 {
      DivModUnique(i + 1, n, q + 1, 0);
    } else {
      DivModUnique(i + 1, n, q, r + 1);
    }
  }

  /** The flat index of row r, column j lies below n*n whenever both are below n. */
  lemma CellBelowSize(n: nat, r: nat, j: nat)
    requires r < n && j < n
    ensures r * n + j < n * n
  {
    MulMonotone(r + 1, n, n);
    assert (r + 1) * n == r * n + n;
  }
}
