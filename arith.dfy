/** Integer facts the tile arithmetic needs: Dafny's `/` and `%` by a
    positive divisor are floor division and a non-negative remainder, which
    is also what Python's `//`, `%` and `>>` compute. */
module Arith {

  lemma MulAtLeast(n: int, d: int)
    requires n >= 1 && d >= 1
    ensures n * d >= d
  {
    assert n * d == (n - 1) * d + d;
  }

  lemma DivModUnique(x: int, d: int, a: int, c: int)
    requires d > 0 && x == a * d + c && 0 <= c < d
    ensures x / d == a && x % d == c
  {
    var q, r := x / d, x % d;
    assert x == q * d + r;
    assert (a - q) * d == a * d - q * d;
    assert (a - q) * d == r - c;
    if a > q {
      MulAtLeast(a - q, d);
    } else if a < q {
      MulAtLeast(q - a, d);
    }
  }

  /** Cell i of a row of 256-pixel tiles covers pixels [256 i, 256 i + 256):
      a pixel lies in the cell of index pixel / 256 and in no other. */
  lemma CellOfPixel(p: int, i: int, size: nat)
    requires size > 0
    ensures i * size <= p < i * size + size <==> i == p / size
  {
    if i * size <= p < i * size + size {
      DivModUnique(p, size, i, p - i * size);
    }
  }

  lemma MulMonotone(a: int, b: int, d: int)
    requires a >= b && d >= 0
    ensures a * d >= b * d
  {
    assert a * d - b * d == (a - b) * d;
  }

  /** A value below n * d has a quotient below n. */
  lemma DivBelow(x: int, d: int, n: int)
    requires d > 0 && 0 <= x < n * d
    ensures 0 <= x / d < n
  {
    if x / d >= n {
      MulMonotone(x / d, n, d);
    }
  }

  /** Position i * columns + j of a row-major enumeration of a rows x columns
      grid: it lies inside the enumeration and gives (i, j) back. */
  lemma GridIndex(i: int, j: int, rows: int, columns: int)
    requires 0 <= i < rows && 0 <= j < columns
    ensures 0 <= i * columns + j < rows * columns
    ensures (i * columns + j) / columns == i && (i * columns + j) % columns == j
  {
    MulMonotone(rows, i + 1, columns);
    assert (i + 1) * columns == i * columns + columns;
    DivModUnique(i * columns + j, columns, i, j);
  }
}
