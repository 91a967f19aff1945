/** A dense, palette-indexed 3D voxel grid: a flat array of palette indices
    stored X-fastest, its size and an ordered colour palette (Vox/Vox.cs). */
module Voxes {
  import opened Linearization

  /** A palette colour. Colours are opaque to the grid; only the three it
      names itself are distinguished. */
  datatype Color = Clear | White | Magenta | Custom(id: int)

  /** One enumerated cell: its coordinates and its palette index. */
  datatype Voxel = Voxel(x: int, y: int, z: int, col: int)

  /** The implicit conversion of a voxel to a four-tuple, field by field. */
  function VoxelToTuple(v: Voxel): (t: (int, int, int, int))
    ensures t.0 == v.x && t.1 == v.y && t.2 == v.z && t.3 == v.col
  {
    (v.x, v.y, v.z, v.col)
  }

  /** The implicit conversion of a four-tuple to a voxel, inverse of VoxelToTuple. */
  function TupleToVoxel(t: (int, int, int, int)): (v: Voxel)
    ensures VoxelToTuple(v) == t
  {
    Voxel(t.0, t.1, t.2, t.3)
  }

  lemma VoxelTupleRoundTrip(v: Voxel, t: (int, int, int, int))
    ensures TupleToVoxel(VoxelToTuple(v)) == v
    ensures VoxelToTuple(TupleToVoxel(t)) == t
  {
  }

  function Max(a: int, b: int): int
  {
    if a < b then b else a
  }

  function Min(a: int, b: int): int
  {
    if a < b then a else b
  }

  // ---------------------------------------------------------------------
  // Decoding the palette

  /** The distinct values of a cell payload. */
  function Distinct(cells: seq<int>): set<int>
  {
    set v | v in cells
  }

  lemma DistinctNonEmpty(cells: seq<int>)
    requires |cells| > 0
    ensures |Distinct(cells)| >= 1
  {
    assert cells[0] in Distinct(cells);
  }

  /** The palette the decoding constructor synthesises: transparent first,
      then white, as many entries in all as there are distinct cell values. */
  function DecodedPalette(cells: seq<int>): (p: seq<Color>)
    requires |cells| > 0
    ensures 1 <= |p| == |Distinct(cells)|
    ensures p[0] == Clear
    ensures forall k :: 1 <= k < |p| ==> p[k] == White
  {
    DistinctNonEmpty(cells);
    [Clear] + seq(|Distinct(cells)| - 1, _ => White)
  }

  /** The decoded palette has one entry per distinct non-zero value, plus
      one more exactly when the empty value 0 occurs in the payload. */
  lemma DecodedPaletteCount(cells: seq<int>)
    requires |cells| > 0
    ensures |DecodedPalette(cells)| == (if 0 in cells then 1 else 0) + |Distinct(cells) - {0}|
  {
    var d := Distinct(cells);
    if 0 in cells {
      assert 0 in d;
      assert d == (d - {0}) + {0};
    } else {
      assert d - {0} == d;
    }
  }

  /** Cells [0, 3] decode to a two-entry palette, so 3 is a stale index;
      cells [1] decode to a one-entry palette, so 1 is a stale index. */
  lemma DecodedPaletteExamples()
    ensures |DecodedPalette([0, 3])| == 2
    ensures |DecodedPalette([1])| == 1
    ensures ColorAt(DecodedPalette([0, 3]), 3) == Magenta
    ensures ColorAt(DecodedPalette([1]), 1) == Magenta
  {
    assert Distinct([0, 3]) == {0, 3};
    assert Distinct([1]) == {1};
  }

  /** The colour read for a palette index: the error colour past the end. */
  function ColorAt(palette: seq<Color>, index: int): (c: Color)
    requires 0 <= index
  {
    if index >= |palette| then Magenta else palette[index]
  }

  lemma AppendedColorReadsBack(palette: seq<Color>, c: Color, index: nat)
    ensures ColorAt(palette + [c], |palette|) == c
    ensures index < |palette| ==> ColorAt(palette + [c], index) == ColorAt(palette, index)
  {
  }

  // ---------------------------------------------------------------------
  // Resizing

  /** The value of new cell i after resizing an ox*oy*oz grid to rows nx
      wide and layers ny high: the old cell at the same coordinates when
      those lie in the old grid, else empty. */
  function ResizedCell(cells: seq<int>, ox: int, oy: int, oz: int, nx: int, ny: int, i: int): int
    requires |cells| == ox * oy * oz && nx > 0 && ny > 0 && i >= 0
  {
    CoordLinear(i, nx, ny);
    var x, y, z := XOf(i, nx), YOf(i, nx, ny), ZOf(i, nx, ny);
    if x < ox && y < oy && z < oz then
      LinearBound(x, y, z, ox, oy, oz);
      cells[Linear(x, y, z, ox, oy)]
    else
      0
  }

  /** The cells of an ox*oy*oz grid resized to nx*ny*nz. */
  function Resized(cells: seq<int>, ox: int, oy: int, oz: int, nx: int, ny: int, nz: int): (r: seq<int>)
    requires |cells| == ox * oy * oz && nx > 0 && ny > 0 && nz > 0
    ensures |r| == nx * ny * nz
  {
    seq(nx * ny * nz, i requires 0 <= i < nx * ny * nz => ResizedCell(cells, ox, oy, oz, nx, ny, i))
  }

  /** Resizing keeps every cell of the overlapping sub-box at its new offset
      and empties every other cell of the new grid. */
  lemma ResizedAt(cells: seq<int>, ox: int, oy: int, oz: int, nx: int, ny: int, nz: int, x: int, y: int, z: int)
    requires |cells| == ox * oy * oz && nx > 0 && ny > 0 && nz > 0
    requires 0 <= x < nx && 0 <= y < ny && 0 <= z < nz
    ensures 0 <= Linear(x, y, z, nx, ny) < nx * ny * nz
    ensures x < Min(ox, nx) && y < Min(oy, ny) && z < Min(oz, nz) ==>
              0 <= Linear(x, y, z, ox, oy) < |cells| &&
              Resized(cells, ox, oy, oz, nx, ny, nz)[Linear(x, y, z, nx, ny)] == cells[Linear(x, y, z, ox, oy)]
    ensures !(x < Min(ox, nx) && y < Min(oy, ny) && z < Min(oz, nz)) ==>
              Resized(cells, ox, oy, oz, nx, ny, nz)[Linear(x, y, z, nx, ny)] == 0
  {
    LinearBound(x, y, z, nx, ny, nz);
    LinearCoord(x, y, z, nx, ny);
    if x < ox && y < oy && z < oz {
      LinearBound(x, y, z, ox, oy, oz);
    }
  }

  /** Resizing from size A to size B and back to A keeps exactly the cells
      inside the intersection of A and B and empties the rest. */
  lemma ResizeRoundTrip(cells: seq<int>, xa: int, ya: int, za: int, xb: int, yb: int, zb: int, x: int, y: int, z: int)
    requires xa > 0 && ya > 0 && za > 0 && xb > 0 && yb > 0 && zb > 0
    requires |cells| == xa * ya * za
    requires 0 <= x < xa && 0 <= y < ya && 0 <= z < za
    ensures 0 <= Linear(x, y, z, xa, ya) < |cells|
    ensures Resized(Resized(cells, xa, ya, za, xb, yb, zb), xb, yb, zb, xa, ya, za)[Linear(x, y, z, xa, ya)]
            == if x < xb && y < yb && z < zb then cells[Linear(x, y, z, xa, ya)] else 0
  {
    var mid := Resized(cells, xa, ya, za, xb, yb, zb);
    ResizedAt(mid, xb, yb, zb, xa, ya, za, x, y, z);
    if x < xb && y < yb && z < zb {
      ResizedAt(cells, xa, ya, za, xb, yb, zb, x, y, z);
    }
  }

  /** Whether (z, y, x) order has passed new cell i. */
  ghost predicate Copied(i: int, nx: int, ny: int, z: int, y: int, x: int)
    requires nx > 0 && ny > 0
  {
    ZOf(i, nx, ny) < z ||
    (ZOf(i, nx, ny) == z && YOf(i, nx, ny) < y) ||
    (ZOf(i, nx, ny) == z && YOf(i, nx, ny) == y && XOf(i, nx) < x)
  }

  // ---------------------------------------------------------------------
  // Enumeration

  /** The voxels of row (y, z) from column x on, in X order, leaving out the
      empty ones when skipEmpty holds. */
  function Row(cells: seq<int>, X: int, Y: int, Z: int, z: int, y: int, x: int, skipEmpty: bool): seq<Voxel>
    requires |cells| == X * Y * Z && 0 <= z < Z && 0 <= y < Y && 0 <= x
    decreases X - x
  {
    if x >= X then []
    else
      LinearBound(x, y, z, X, Y, Z);
      var col := cells[Linear(x, y, z, X, Y)];
      (if col == 0 && skipEmpty then [] else [Voxel(x, y, z, col)])
        + Row(cells, X, Y, Z, z, y, x + 1, skipEmpty)
  }

  /** The voxels of layer z from row y on, rows in Y order. */
  function Layer(cells: seq<int>, X: int, Y: int, Z: int, z: int, y: int, skipEmpty: bool): seq<Voxel>
    requires |cells| == X * Y * Z && 0 <= z < Z && 0 <= y
    decreases Y - y
  {
    if y >= Y then []
    else Row(cells, X, Y, Z, z, y, 0, skipEmpty) + Layer(cells, X, Y, Z, z, y + 1, skipEmpty)
  }

  /** The voxels of layers z and above, layers in Z order. */
  function Voxels(cells: seq<int>, X: int, Y: int, Z: int, z: int, skipEmpty: bool): seq<Voxel>
    requires |cells| == X * Y * Z && 0 <= z
    decreases Z - z
  {
    if z >= Z then []
    else Layer(cells, X, Y, Z, z, 0, skipEmpty) + Voxels(cells, X, Y, Z, z + 1, skipEmpty)
  }

  /** The voxel a full enumeration yields at position i (inside the grid). */
  function VoxelAt(cells: seq<int>, X: int, Y: int, i: int): Voxel
    requires X > 0 && Y > 0
  {
    Voxel(XOf(i, X), YOf(i, X, Y), ZOf(i, X, Y), if 0 <= i < |cells| then cells[i] else 0)
  }

  lemma {:induction false} RowAll(cells: seq<int>, X: int, Y: int, Z: int, z: int, y: int, x: int)
    requires |cells| == X * Y * Z && 0 <= z < Z && 0 <= y < Y && 0 <= x <= X
    ensures |Row(cells, X, Y, Z, z, y, x, false)| == X - x
    ensures forall k :: 0 <= k < X - x ==>
              Row(cells, X, Y, Z, z, y, x, false)[k] == VoxelAt(cells, X, Y, Linear(x, y, z, X, Y) + k)
    decreases X - x
  {
    if x < X {
      RowAll(cells, X, Y, Z, z, y, x + 1);
      var r := Row(cells, X, Y, Z, z, y, x, false);
      forall k | 0 <= k < X - x
        ensures r[k] == VoxelAt(cells, X, Y, Linear(x, y, z, X, Y) + k)
      {
        assert Linear(x, y, z, X, Y) + k == Linear(x + k, y, z, X, Y);
        LinearCoord(x + k, y, z, X, Y);
        LinearBound(x + k, y, z, X, Y, Z);
      }
    }
  }

  /** Two runs of consecutive cells, the second starting where the first
      ends, concatenate to one run. */
  lemma {:induction false} RunConcat(first: seq<Voxel>, second: seq<Voxel>, cells: seq<int>, X: int, Y: int, start: int, n: int, m: int)
    requires X > 0 && Y > 0 && |first| == n && |second| == m
    requires forall k :: 0 <= k < n ==> first[k] == VoxelAt(cells, X, Y, start + k)
    requires forall k :: 0 <= k < m ==> second[k] == VoxelAt(cells, X, Y, start + n + k)
    ensures |first + second| == n + m
    ensures forall k :: 0 <= k < n + m ==> (first + second)[k] == VoxelAt(cells, X, Y, start + k)
  {
    forall k | 0 <= k < n + m
      ensures (first + second)[k] == VoxelAt(cells, X, Y, start + k)
    {
      if k < n {
        assert (first + second)[k] == first[k];
      } else {
        assert (first + second)[k] == second[k - n];
        assert start + k == start + n + (k - n);
      }
    }
  }

  lemma {:induction false} LayerAll(cells: seq<int>, X: int, Y: int, Z: int, z: int, y: int)
    requires X > 0 && |cells| == X * Y * Z && 0 <= z < Z && 0 <= y <= Y
    ensures |Layer(cells, X, Y, Z, z, y, false)| == (Y - y) * X
    ensures forall k :: 0 <= k < (Y - y) * X ==>
              Layer(cells, X, Y, Z, z, y, false)[k] == VoxelAt(cells, X, Y, Linear(0, y, z, X, Y) + k)
    decreases Y - y
  {
    if y < Y {
      RowAll(cells, X, Y, Z, z, y, 0);
      LayerAll(cells, X, Y, Z, z, y + 1);
      var m := (Y - (y + 1)) * X;
      assert (Y - y) * X == X + m;
      NextRow(y, z, X, Y);
      RunConcat(Row(cells, X, Y, Z, z, y, 0, false), Layer(cells, X, Y, Z, z, y + 1, false),
                cells, X, Y, Linear(0, y, z, X, Y), X, m);
    }
  }

  lemma {:induction false} VoxelsAll(cells: seq<int>, X: int, Y: int, Z: int, z: int)
    requires X > 0 && Y > 0 && |cells| == X * Y * Z && 0 <= z <= Z
    ensures |Voxels(cells, X, Y, Z, z, false)| == (Z - z) * (X * Y)
    ensures forall k :: 0 <= k < (Z - z) * (X * Y) ==>
              Voxels(cells, X, Y, Z, z, false)[k] == VoxelAt(cells, X, Y, Linear(0, 0, z, X, Y) + k)
    decreases Z - z
  {
    if z < Z {
      var n := X * Y;
      LayerAll(cells, X, Y, Z, z, 0);
      VoxelsAll(cells, X, Y, Z, z + 1);
      var m := (Z - (z + 1)) * n;
      assert (Z - z) * n == n + m;
      NextLayer(z, X, Y);
      RunConcat(Layer(cells, X, Y, Z, z, 0, false), Voxels(cells, X, Y, Z, z + 1, false),
                cells, X, Y, Linear(0, 0, z, X, Y), n, m);
    }
  }

  /** The full enumeration yields one voxel per cell, in storage order: the
      i-th voxel carries the coordinates of offset i and the value of cell i.
      A grid with a non-positive dimension yields nothing. */
  lemma GetVoxelsOrder(cells: seq<int>, X: int, Y: int, Z: int)
    requires |cells| == X * Y * Z
    ensures X > 0 && Y > 0 && Z > 0 ==>
              |Voxels(cells, X, Y, Z, 0, false)| == X * Y * Z &&
              forall i :: 0 <= i < X * Y * Z ==>
                Voxels(cells, X, Y, Z, 0, false)[i] == Voxel(XOf(i, X), YOf(i, X, Y), ZOf(i, X, Y), cells[i])
    ensures !(X > 0 && Y > 0 && Z > 0) ==> Voxels(cells, X, Y, Z, 0, false) == []
  {
    if X > 0 && Y > 0 && Z > 0 {
      VoxelsAll(cells, X, Y, Z, 0);
    } else {
      NoVoxels(cells, X, Y, Z, 0);
    }
  }

  lemma {:induction false} NoVoxels(cells: seq<int>, X: int, Y: int, Z: int, z: int)
    requires |cells| == X * Y * Z && 0 <= z && !(X > 0 && Y > 0 && Z > 0)
    ensures Voxels(cells, X, Y, Z, z, false) == []
    decreases Z - z
  {
    if z < Z {
      NoVoxels(cells, X, Y, Z, z + 1);
      if Y > 0 {
        NoRowVoxels(cells, X, Y, Z, z, 0);
      }
    }
  }

  lemma {:induction false} NoRowVoxels(cells: seq<int>, X: int, Y: int, Z: int, z: int, y: int)
    requires |cells| == X * Y * Z && 0 <= z < Z && 0 <= y && X <= 0
    ensures Layer(cells, X, Y, Z, z, y, false) == []
    decreases Y - y
  {
    if y < Y {
      NoRowVoxels(cells, X, Y, Z, z, y + 1);
    }
  }

  /** The voxels of a sequence whose palette index is not 0, in order. */
  function NonEmpty(vs: seq<Voxel>): (r: seq<Voxel>)
  {
    if vs == [] then []
    else (if vs[0].col == 0 then [] else [vs[0]]) + NonEmpty(vs[1..])
  }

  lemma {:induction false} NonEmptyConcat(a: seq<Voxel>, b: seq<Voxel>)
    ensures NonEmpty(a + b) == NonEmpty(a) + NonEmpty(b)
  {
    if a != [] {
      var h := if a[0].col == 0 then [] else [a[0]];
      assert (a + b)[0] == a[0];
      assert (a + b)[1..] == a[1..] + b;
      NonEmptyConcat(a[1..], b);
      calc {
        NonEmpty(a + b);
        h + NonEmpty(a[1..] + b);
        h + (NonEmpty(a[1..]) + NonEmpty(b));
        (h + NonEmpty(a[1..])) + NonEmpty(b);
        NonEmpty(a) + NonEmpty(b);
      }
    } else {
      assert a + b == b;
    }
  }

  lemma {:induction false} RowSkip(cells: seq<int>, X: int, Y: int, Z: int, z: int, y: int, x: int)
    requires |cells| == X * Y * Z && 0 <= z < Z && 0 <= y < Y && 0 <= x
    ensures Row(cells, X, Y, Z, z, y, x, true) == NonEmpty(Row(cells, X, Y, Z, z, y, x, false))
    decreases X - x
  {
    if x < X {
      RowSkip(cells, X, Y, Z, z, y, x + 1);
      LinearBound(x, y, z, X, Y, Z);
      var v := Voxel(x, y, z, cells[Linear(x, y, z, X, Y)]);
      NonEmptyConcat([v], Row(cells, X, Y, Z, z, y, x + 1, false));
      assert NonEmpty([v]) == (if v.col == 0 then [] else [v]) by {
        assert [v][1..] == [];
      }
    }
  }

  lemma {:induction false} LayerSkip(cells: seq<int>, X: int, Y: int, Z: int, z: int, y: int)
    requires |cells| == X * Y * Z && 0 <= z < Z && 0 <= y
    ensures Layer(cells, X, Y, Z, z, y, true) == NonEmpty(Layer(cells, X, Y, Z, z, y, false))
    decreases Y - y
  {
    if y < Y {
      RowSkip(cells, X, Y, Z, z, y, 0);
      LayerSkip(cells, X, Y, Z, z, y + 1);
      NonEmptyConcat(Row(cells, X, Y, Z, z, y, 0, false), Layer(cells, X, Y, Z, z, y + 1, false));
    }
  }

  /** Skipping empty cells yields the full enumeration with its empty
      voxels removed and the order of the rest kept. */
  lemma {:induction false} GetVoxelsSkipEmpty(cells: seq<int>, X: int, Y: int, Z: int, z: int)
    requires |cells| == X * Y * Z && 0 <= z
    ensures Voxels(cells, X, Y, Z, z, true) == NonEmpty(Voxels(cells, X, Y, Z, z, false))
    decreases Z - z
  {
    if z < Z {
      LayerSkip(cells, X, Y, Z, z, 0);
      GetVoxelsSkipEmpty(cells, X, Y, Z, z + 1);
      NonEmptyConcat(Layer(cells, X, Y, Z, z, 0, false), Voxels(cells, X, Y, Z, z + 1, false));
    }
  }

  /** After an accepted single-cell write, the enumeration yields the written
      value at the cell's position and is unchanged everywhere else. */
  lemma SetVoxelVisible(cells: seq<int>, X: int, Y: int, Z: int, x: int, y: int, z: int, col: int)
    requires |cells| == X * Y * Z
    requires 0 <= x < X && 0 <= y < Y && 0 <= z < Z
    ensures 0 <= Linear(x, y, z, X, Y) < |cells|
    ensures |Voxels(cells, X, Y, Z, 0, false)| == |cells|
    ensures var after := Voxels(cells[Linear(x, y, z, X, Y) := col], X, Y, Z, 0, false);
            |after| == |cells| &&
            after[Linear(x, y, z, X, Y)] == Voxel(x, y, z, col) &&
            forall i :: 0 <= i < |cells| && i != Linear(x, y, z, X, Y) ==>
              after[i] == Voxels(cells, X, Y, Z, 0, false)[i]
  {
    var L := Linear(x, y, z, X, Y);
    LinearBound(x, y, z, X, Y, Z);
    LinearCoord(x, y, z, X, Y);
    GetVoxelsOrder(cells, X, Y, Z);
    GetVoxelsOrder(cells[L := col], X, Y, Z);
  }

  // ---------------------------------------------------------------------
  // The grid

  class Vox {
    var cells: array<int>
    var sx: int
    var sy: int
    var sz: int
    var palette: seq<Color>

    /** The flat cell array always holds exactly one cell per grid position. */
    ghost predicate Valid()
      reads this
    {
      cells.Length == sx * sy * sz
    }

    /** Direct construction: the array, size and palette are taken as given,
        the array without copying. */
    constructor (source: array<int>, x: int, y: int, z: int, pallete: seq<Color>)
      requires source.Length == x * y * z
      ensures Valid()
      ensures cells == source && sx == x && sy == y && sz == z && palette == pallete
    {
      cells, sx, sy, sz, palette := source, x, y, z, pallete;
    }

    /** The default grid: a single cell of index 1, a transparent and a white colour. */
    constructor Default()
      ensures Valid() && fresh(cells)
      ensures cells[..] == [1] && sx == 1 && sy == 1 && sz == 1 && palette == [Clear, White]
      ensures !IsDefault()
    {
      var a := new int[1];
      a[0] := 1;
      cells, sx, sy, sz, palette := a, 1, 1, 1, [Clear, White];
    }

    /** Decoding of the flat encoding [X, Y, Z, cells...]: the size is the first
        three integers, the cells a copy of the rest, and the palette is
        synthesised from the number of distinct cell values. */
    constructor Decode(ints: array<int>)
      requires ints.Length > 3 && ints.Length - 3 == ints[0] * ints[1] * ints[2]
      ensures Valid() && fresh(cells)
      ensures sx == ints[0] && sy == ints[1] && sz == ints[2]
      ensures cells[..] == ints[3..]
      ensures palette == DecodedPalette(ints[3..])
      ensures !IsDefault()
    {
      var c := new int[ints.Length - 3];
      var i := 0;
      while i < c.Length
        invariant 0 <= i <= c.Length
        invariant forall k :: 0 <= k < i ==> c[k] == ints[k + 3]
      {
        c[i] := ints[i + 3];
        i := i + 1;
      }
      cells, sx, sy, sz := c, ints[0], ints[1], ints[2];
      palette := DecodedPalette(ints[3..]);
    }

    /** A grid is the default (uninitialised) value exactly when its size is zero. */
    function IsDefault(): (b: bool)
      reads this
      ensures b <==> (sx, sy, sz) == (0, 0, 0)
    {
      sx == 0 && sy == 0 && sz == 0
    }

    function PaletteLength(): nat
      reads this
    {
      |palette|
    }

    method SetPallete(pallete: seq<Color>)
      requires Valid()
      modifies this`palette
      ensures Valid()
      ensures palette == pallete
    {
      palette := pallete;
    }

    /** Overwrites one palette slot; the index must be in range. */
    method SetColor(col: Color, index: int)
      requires Valid() && 0 <= index < |palette|
      modifies this`palette
      ensures Valid()
      ensures palette == old(palette)[index := col]
      ensures |palette| == |old(palette)|
      ensures forall k :: 0 <= k < |palette| && k != index ==> palette[k] == old(palette)[k]
    {
      palette := palette[index := col];
    }

    /** Drops the last palette entry (never the transparent one) and empties
        exactly the cells that referred to it. */
    method RemoveLastColor()
      requires Valid()
      modifies this`palette, cells
      ensures Valid()
      ensures |old(palette)| <= 1 ==> palette == old(palette) && cells[..] == old(cells[..])
      ensures |old(palette)| > 1 ==>
                palette == old(palette)[..|old(palette)| - 1] &&
                forall i :: 0 <= i < cells.Length ==>
                  cells[i] == (if old(cells[i]) == |palette| then 0 else old(cells[i]))
    {
      if |palette| <= 1 {
        return;
      }
      palette := palette[..|palette| - 1];
      var i := 0;
      while i < cells.Length
        modifies cells
        invariant 0 <= i <= cells.Length
        invariant forall k :: 0 <= k < i ==> cells[k] == (if old(cells[k]) == |palette| then 0 else old(cells[k]))
        invariant forall k :: i <= k < cells.Length ==> cells[k] == old(cells[k])
      {
        if cells[i] == |palette| {
          cells[i] := 0;
        }
        i := i + 1;
      }
    }

    /** The colour of a palette index, or the error colour past the end. */
    function GetColor(index: int): (c: Color)
      reads this
      requires 0 <= index
      ensures index >= |palette| ==> c == Magenta
      ensures index < |palette| ==> c == palette[index]
    {
      ColorAt(palette, index)
    }

    /** Resizes the grid, keeping the overlapping sub-box; a size with a
        non-positive component is ignored. */
    method SetSize(nx: int, ny: int, nz: int)
      requires Valid()
      modifies this
      ensures Valid()
      ensures nx <= 0 || ny <= 0 || nz <= 0 ==>
                cells == old(cells) && sx == old(sx) && sy == old(sy) && sz == old(sz) && palette == old(palette)
      ensures nx > 0 && ny > 0 && nz > 0 ==>
                fresh(cells) && sx == nx && sy == ny && sz == nz && palette == old(palette) &&
                cells[..] == Resized(old(cells[..]), old(sx), old(sy), old(sz), nx, ny, nz)
    {
      if nx <= 0 || ny <= 0 || nz <= 0 {
        return;
      }
      var a := new int[nx * ny * nz](_ => 0);
      ghost var R := Resized(cells[..], sx, sy, sz, nx, ny, nz);
      forall i | 0 <= i < a.Length
        ensures 0 <= XOf(i, nx) < nx && 0 <= YOf(i, nx, ny) < ny && 0 <= ZOf(i, nx, ny) < nz
        ensures Linear(XOf(i, nx), YOf(i, nx, ny), ZOf(i, nx, ny), nx, ny) == i
      {
        CoordLinear(i, nx, ny);
        CoordBound(i, nx, ny, nz);
      }
      var mx, my, mz := Min(sx, nx), Min(sy, ny), Min(sz, nz);
      var z := 0;
      while z < mz
        modifies a
        invariant 0 <= z <= Max(mz, 0)
        invariant forall i :: 0 <= i < a.Length ==> a[i] == if Copied(i, nx, ny, z, 0, 0) then R[i] else 0
      {
        var offsetZ, newOffsetZ := z * sx * sy, z * nx * ny;
        var y := 0;
        while y < my
          modifies a
          invariant 0 <= y <= Max(my, 0)
          invariant forall i :: 0 <= i < a.Length ==> a[i] == if Copied(i, nx, ny, z, y, 0) then R[i] else 0
        {
          var offsetY, newOffsetY := y * sx, y * nx;
          var x := 0;
          while x < mx
            modifies a
            invariant 0 <= x <= Max(mx, 0)
            invariant forall i :: 0 <= i < a.Length ==> a[i] == if Copied(i, nx, ny, z, y, x) then R[i] else 0
          {
            ResizedAt(cells[..], sx, sy, sz, nx, ny, nz, x, y, z);
            LinearCoord(x, y, z, nx, ny);
            a[x + newOffsetY + newOffsetZ] := cells[x + offsetY + offsetZ];
            x := x + 1;
          }
          y := y + 1;
        }
        z := z + 1;
      }
      assert a[..] == R;
      cells, sx, sy, sz := a, nx, ny, nz;
    }

    /** All voxels in Z-outer, Y, X-inner order, optionally without the empty ones. */
    function GetVoxels(skipEmpty: bool): (r: seq<Voxel>)
      reads this, cells
      requires Valid()
      ensures sx > 0 && sy > 0 && sz > 0 && !skipEmpty ==>
                |r| == cells.Length &&
                forall i :: 0 <= i < cells.Length ==> r[i] == Voxel(XOf(i, sx), YOf(i, sx, sy), ZOf(i, sx, sy), cells[i])
      ensures !(sx > 0 && sy > 0 && sz > 0) ==> r == []
      ensures skipEmpty ==> r == NonEmpty(Voxels(cells[..], sx, sy, sz, 0, false))
    {
      GetVoxelsOrder(cells[..], sx, sy, sz);
      GetVoxelsSkipEmpty(cells[..], sx, sy, sz, 0);
      Voxels(cells[..], sx, sy, sz, 0, skipEmpty)
    }

    /** Whether SetVoxel accepts a write: an in-palette index at a position inside the grid. */
    predicate Accepts(x: int, y: int, z: int, col: int)
      reads this
    {
      col < |palette| && 0 <= x < sx && 0 <= y < sy && 0 <= z < sz
    }

    /** Writes one cell; an out-of-palette index or an out-of-grid position is ignored. */
    method SetVoxel(x: int, y: int, z: int, col: int)
      requires Valid()
      modifies cells
      ensures Valid()
      ensures Accepts(x, y, z, col) ==>
                0 <= Linear(x, y, z, sx, sy) < cells.Length &&
                cells[..] == old(cells[..])[Linear(x, y, z, sx, sy) := col]
      ensures !Accepts(x, y, z, col) ==> cells[..] == old(cells[..])
    {
      if col >= |palette| || x < 0 || x >= sx || y < 0 || y >= sy || z < 0 || z >= sz {
        return;
      }
      LinearBound(x, y, z, sx, sy, sz);
      cells[x + y * sx + z * sx * sy] := col;
    }

    method AppendPallete(newCol: Color)
      requires Valid()
      modifies this`palette
      ensures Valid()
      ensures palette == old(palette) + [newCol]
    {
      palette := palette + [newCol];
    }

    /** The encoding parts: the cell array itself and the three dimensions. */
    function ToInts(): (r: (array<int>, int, int, int))
      reads this
      ensures r.0 == cells && (r.1, r.2, r.3) == (sx, sy, sz)
      ensures Valid() ==> r.0.Length == r.1 * r.2 * r.3
    {
      (cells, sx, sy, sz)
    }
  }

  /** Appending a colour and removing it again restores a non-empty palette,
      and the cells that held the appended index become empty. From an empty
      palette the removal is skipped, so the appended colour stays. */
  method AppendThenRemove(v: Vox, c: Color)
    requires v.Valid()
    modifies v, v.cells
    ensures v.Valid() && v.cells == old(v.cells)
    ensures old(v.palette) != [] ==>
              v.palette == old(v.palette) &&
              forall i :: 0 <= i < v.cells.Length ==>
                v.cells[i] == (if old(v.cells[i]) == |v.palette| then 0 else old(v.cells[i]))
    ensures old(v.palette) == [] ==> v.palette == [c] && v.cells[..] == old(v.cells[..])
  {
    v.AppendPallete(c);
    v.RemoveLastColor();
  }

  /** Encoding a grid as [X, Y, Z, cells...] and decoding it again gives the
      same size and cells; the palette is the synthesised one. */
  method ReencodeRoundTrip(v: Vox) returns (w: Vox)
    requires v.Valid() && v.cells.Length > 0
    ensures w.Valid()
    ensures w.ToInts().1 == v.ToInts().1 && w.ToInts().2 == v.ToInts().2 && w.ToInts().3 == v.ToInts().3
    ensures w.ToInts().0[..] == v.ToInts().0[..]
    ensures w.palette == DecodedPalette(v.cells[..])
  {
    var (cs, x, y, z) := v.ToInts();
    var enc := new int[cs.Length + 3];
    enc[0], enc[1], enc[2] := x, y, z;
    var i := 0;
    while i < cs.Length
      invariant 0 <= i <= cs.Length
      invariant enc[0] == x && enc[1] == y && enc[2] == z
      invariant forall k :: 0 <= k < i ==> enc[k + 3] == cs[k]
    {
      enc[i + 3] := cs[i];
      i := i + 1;
    }
    assert enc[3..] == cs[..];
    w := new Vox.Decode(enc);
  }
}
