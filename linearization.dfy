/** Index arithmetic of a dense X*Y*Z grid stored X-fastest:
    the cell (x, y, z) lives at offset x + y*X + z*X*Y. */
module Linearization {

  /** The linear offset of cell (x, y, z) in a grid whose rows are X wide and whose layers are Y rows high. */
  function Linear(x: int, y: int, z: int, X: int, Y: int): int
  {
    x + y * X + z * X * Y
  }

  /** The three coordinates of linear offset i, inverses of Linear. */
  function XOf(i: int, X: int): int
    requires X > 0
  {
    i % X
  }

  function YOf(i: int, X: int, Y: int): int
    requires X > 0 && Y > 0
  {
    (i / X) % Y
  }

  function ZOf(i: int, X: int, Y: int): int
    requires X > 0 && Y > 0
  {
    i / (X * Y)
  }

  /** Euclidean division has a unique quotient and remainder. */
  lemma DivModUnique(a: int, d: int, q: int, r: int)
    requires d > 0 && 0 <= r < d && a == q * d + r
    ensures a / d == q && a % d == r
  {
    var q', r' := a / d, a % d;
    assert a == q' * d + r';
    if q > q' {
      MulAtLeast(q - q', d);
      assert false;
    } else if q < q' {
      MulAtLeast(q' - q, d);
      assert false;
    }
  }

  lemma MulAtLeast(k: int, d: int)
    requires k >= 1 && d > 0
    ensures k * d >= d
  {
  }

  /** Offsets of the cells of an X*Y row-and-layer prefix stay below X*Y. */
  lemma RowOffsetBound(x: int, y: int, X: int, Y: int)
    requires 0 <= x < X && 0 <= y < Y
    ensures 0 <= x + y * X < X * Y
  {
    assert y * X <= (Y - 1) * X;
    assert (Y - 1) * X == X * Y - X;
  }

  /** Decoding the offset of a cell gives its coordinates back. */
  lemma LinearCoord(x: int, y: int, z: int, X: int, Y: int)
    requires 0 <= x < X && 0 <= y < Y && 0 <= z
    ensures XOf(Linear(x, y, z, X, Y), X) == x
    ensures YOf(Linear(x, y, z, X, Y), X, Y) == y
    ensures ZOf(Linear(x, y, z, X, Y), X, Y) == z
  {
    var i := Linear(x, y, z, X, Y);
    var q := y + z * Y;
    assert i == q * X + x;
    DivModUnique(i, X, q, x);
    DivModUnique(q, Y, z, y);
    RowOffsetBound(x, y, X, Y);
    assert i == z * (X * Y) + (x + y * X);
    DivModUnique(i, X * Y, z, x + y * X);
  }

  /** Every non-negative offset is the offset of its decoded coordinates, which lie in the row and layer. */
  lemma CoordLinear(i: int, X: int, Y: int)
    requires 0 <= i && X > 0 && Y > 0
    ensures 0 <= XOf(i, X) < X && 0 <= YOf(i, X, Y) < Y && 0 <= ZOf(i, X, Y)
    ensures Linear(XOf(i, X), YOf(i, X, Y), ZOf(i, X, Y), X, Y) == i
  {
    var x, q := i % X, i / X;
    var y, z := q % Y, q / Y;
    assert i == q * X + x;
    assert q == z * Y + y;
    assert q >= 0;
    RowOffsetBound(x, y, X, Y);
    assert i == z * (X * Y) + (x + y * X);
    DivModUnique(i, X * Y, z, x + y * X);
  }

  /** A cell inside the X*Y*Z box has an offset inside the flat array. */
  lemma LinearBound(x: int, y: int, z: int, X: int, Y: int, Z: int)
    requires 0 <= x < X && 0 <= y < Y && 0 <= z < Z
    ensures 0 <= Linear(x, y, z, X, Y) < X * Y * Z
  {
    var n := X * Y;
    RowOffsetBound(x, y, X, Y);
    assert z * X * Y == z * n;
    MulMono(z, Z - 1, n);
    assert (Z - 1) * n == n * Z - n;
    assert X * Y * Z == n * Z;
    MulMono(0, z, n);
  }

  lemma MulMono(a: int, b: int, c: int)
    requires a <= b && c >= 0
    ensures a * c <= b * c
  {
  }

  /** An offset inside the flat array decodes to a layer inside the box. */
  lemma CoordBound(i: int, X: int, Y: int, Z: int)
    requires 0 <= i < X * Y * Z && X > 0 && Y > 0
    ensures ZOf(i, X, Y) < Z
  {
    CoordLinear(i, X, Y);
    var z := ZOf(i, X, Y);
    if z >= Z {
      assert false;
    }
  }

  /** Consecutive layers start X*Y cells apart; consecutive rows X cells apart. */
  lemma NextLayer(z: int, X: int, Y: int)
    ensures Linear(0, 0, z + 1, X, Y) == Linear(0, 0, z, X, Y) + X * Y
  {
    assert (z + 1) * X == z * X + X;
    assert (z * X + X) * Y == z * X * Y + X * Y;
  }

  lemma NextRow(y: int, z: int, X: int, Y: int)
    ensures Linear(0, y + 1, z, X, Y) == Linear(0, y, z, X, Y) + X
  {
    assert (y + 1) * X == y * X + X;
  }
}
