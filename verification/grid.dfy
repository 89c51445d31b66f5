/** The ocean surface mesh: an n-by-n lattice of vertices laid out row by
    row, and a triangle list covering every lattice cell ("quad") with two
    triangles. World positions and texture coordinates are reals; the float
    rounding of the renderer is not modelled. */
module OceanGrid {
  import opened LatticeArith
  import opened MachineInts

  datatype Vec2 = Vec2(u: real, v: real)
  datatype Vec3 = Vec3(x: real, y: real, z: real)

  /** One rest-state mesh sample: position, colour, texture coordinate. */
  datatype Vertex = Vertex(position: Vec3, color: Vec3, texcoord: Vec2)

  /** The fixed water colour every vertex carries. */
  const WaterColor: Vec3 := Vec3(0.0, 0.56, 0.58)

  /** The vertex at lattice row `row`, column `col`, whose flat loop index
      is `flat`. The texture u coordinate uses the flat index, not the
      column: that is how the mesh generator computes it. */
  function VertexAt(n: nat, tile: real, row: nat, col: nat, flat: nat): Vertex
    requires n > 0
  {
    var step := tile / n as real;
    var texStep := 1.0 / n as real;
    Vertex(Vec3(-0.5 * tile + col as real * step, -0.5 * tile + row as real * step, 0.0),
           WaterColor,
           Vec2(texStep * flat as real, texStep * row as real))
  }

  /** The vertex pass: n*n vertices in row-major order, with a row counter
      that is bumped whenever the flat index starts a new row. Vertex i sits
      on row i / n and column i % n. */
  method GenerateVertices(n: nat, tile: real) returns (vs: seq<Vertex>)
    requires n * n < Uint32Limit
    ensures |vs| == n * n
    ensures n > 0 ==> RowMajor(n, tile, vs)
  {
    var size := n * n;
    vs := [];
    var row: nat := 0;
    var column: nat := 0;
    while column < size
      invariant column <= size
      invariant |vs| == column
      invariant column > 0 ==> n > 0 && row == (column - 1) / n
      invariant column == 0 ==> row == 0
      invariant n > 0 ==> RowMajor(n, tile, vs)
    {
      RowCounterStep(n, column, row);
      if column % n == 0 && column != 0 {
        row := row + 1;
      }
      ExtendRowMajor(n, tile, vs, row);
      vs := vs + [VertexAt(n, tile, row, column % n, column)];
      column := column + 1;
    }
  }

  /** Vertex i of the list sits at row i / n, column i % n of the lattice. */
  predicate RowMajor(n: nat, tile: real, vs: seq<Vertex>)
    requires n > 0
  {
    forall i :: 0 <= i < |vs| ==> vs[i] == VertexAt(n, tile, i / n, i % n, i)
  }

  lemma ExtendRowMajor(n: nat, tile: real, vs: seq<Vertex>, row: nat)
    requires n > 0 && RowMajor(n, tile, vs) && row == |vs| / n
    ensures RowMajor(n, tile, vs + [VertexAt(n, tile, row, |vs| % n, |vs|)])
  {
  }

  lemma RowCounterStep(n: nat, column: nat, row: nat)
    requires n > 0 && (column > 0 ==> row == (column - 1) / n) && (column == 0 ==> row == 0)
    ensures (if column % n == 0 && column != 0 then row + 1 else row) == column / n
  {
    if column > 0 {
      NextIndex(n, column - 1);
    }
  }

  /** Vertex positions stay inside the tile [-tile/2, tile/2) on both axes,
      on the flat z = 0 plane, and carry the water colour. */
  lemma VertexInsideTile(n: nat, tile: real, i: nat)
    requires n > 0 && tile > 0.0 && i < n * n
    ensures var p := VertexAt(n, tile, i / n, i % n, i).position;
      && -0.5 * tile <= p.x < 0.5 * tile
      && -0.5 * tile <= p.y < 0.5 * tile
      && p.z == 0.0
    ensures VertexAt(n, tile, i / n, i % n, i).color == WaterColor
  {
    var step := tile / n as real;
    assert step * n as real == tile;
    assert i / n < n by {
      if i / n >= n {
        MulMonotone(n, i / n, n);
        assert false;
      }
    }
    LatticeCoordBelowTile(n, tile, step, i % n);
    LatticeCoordBelowTile(n, tile, step, i / n);
  }

  lemma LatticeCoordBelowTile(n: nat, tile: real, step: real, k: nat)
    requires n > 0 && tile > 0.0 && step == tile / n as real && k < n
    ensures 0.0 <= k as real * step < tile
  {
    assert step > 0.0;
    assert k as real <= (n - 1) as real;
    assert k as real * step <= (n - 1) as real * step;
    assert (n - 1) as real * step == n as real * step - step;
  }

  /** As written, texture u is the flat index times 1/n, which is the row
      plus the column fraction: it grows past 1 on every row after the
      first, and only its fractional part equals column / n. */
  lemma TexcoordUIsRowPlusColumnFraction(n: nat, tile: real, i: nat)
    requires n > 0
    ensures var t := VertexAt(n, tile, i / n, i % n, i).texcoord;
      && t.u == (i / n) as real + (i % n) as real / n as real
      && t.v == (i / n) as real / n as real
  {
    var texStep := 1.0 / n as real;
    assert i == (i / n) * n + i % n;
    assert i as real == (i / n) as real * n as real + (i % n) as real;
    assert texStep * i as real == (i / n) as real * (texStep * n as real) + texStep * (i % n) as real;
  }

  // ---------------------------------------------------------------------
  // Index list: closed form

  /** Flat index of the first vertex of row r: r * n, built by addition so
      that the walk below reasons about it without multiplication. */
  function RowStart(n: nat, r: nat): nat
  {
    if r == 0 then 0 else RowStart(n, r - 1) + n
  }

  /** The number of vertices, n*n, built by addition so that the walk
      lemmas below carry no product. */
  function Cells(n: nat): nat
  {
    RowStart(n, n)
  }

  lemma CellsIsProduct(n: nat)
    ensures Cells(n) == n * n
  {
    RowStartIsProduct(n, n);
  }

  /** Whether flat index x is the first vertex of a row, that is, whether
      x is a multiple of n, decided by repeated subtraction. */
  function IsRowStart(n: nat, x: nat): bool
    requires n > 0
    decreases x
  {
    if x < n then x == 0 else IsRowStart(n, x - n)
  }

  /** The subtraction test agrees with the remainder test the generator
      performs. */
  lemma {:induction false} IsRowStartIsMultiple(n: nat, x: nat)
    requires n > 0
    ensures IsRowStart(n, x) <==> x % n == 0
    decreases x
  {
    if x >= n {
      IsRowStartIsMultiple(n, x - n);
      DivModUnique(x, n, (x - n) / n + 1, (x - n) % n);
    }
  }

  /** Offset k within row r starts a row exactly when k is 0; offset n is
      the start of the next row. */
  lemma {:induction false} RowOffsetStartsRow(n: nat, r: nat, k: nat)
    requires n > 0 && k <= n
    ensures IsRowStart(n, RowStart(n, r) + k) <==> k == 0 || k == n
  {
    if r > 0 {
      RowOffsetStartsRow(n, r - 1, k);
      assert RowStart(n, r) + k == RowStart(n, r - 1) + k + n;
    } else if k == n {
      assert IsRowStart(n, k) == IsRowStart(n, 0);
    }
  }

  /** Row starts grow with the row number. */
  lemma {:induction false} RowStartMonotone(n: nat, r: nat, s: nat)
    requires r <= s
    ensures RowStart(n, r) <= RowStart(n, s)
    decreases s
  {
    if r < s {
      RowStartMonotone(n, r, s - 1);
    }
  }

  lemma {:induction false} RowStartIsProduct(n: nat, r: nat)
    ensures RowStart(n, r) == r * n
  {
    if r > 0 {
      RowStartIsProduct(n, r - 1);
      assert r * n == (r - 1) * n + n;
    }
  }

  /** The two triangles of quad (r, j) — the cell whose top-left corner is
      vertex r*n + j — in the winding the generator uses. */
  function QuadTriangles(n: nat, r: nat, j: nat): seq<nat>
  {
    var top := RowStart(n, r) + j;
    [top, top + 1, top + n,
     top + 1, top + n + 1, top + n]
  }

  /** The quads from (r, j) onwards in row-major order, two triangles
      each. Quad rows run from 0 to n - 2 and each has n - 1 quads, so
      j = n - 1 means row r is finished. */
  function QuadsFrom(n: nat, r: nat, j: nat): seq<nat>
    decreases n - r, n - j
  {
    if r + 1 >= n then []
    else if j + 1 >= n then QuadsFrom(n, r + 1, 0)
    else QuadTriangles(n, r, j) + QuadsFrom(n, r, j + 1)
  }

  /** The reference triangle list: every quad of the lattice, row by row,
      left to right. */
  function QuadEnumeration(n: nat): seq<nat>
  {
    QuadsFrom(n, 0, 0)
  }

  // ---------------------------------------------------------------------
  // Index list: the three-cursor walk

  /** The triangles the walk still emits from cursor state (a, b, c) at step
      i, one loop iteration per recursive call: c is taken after a on even
      steps and after b on odd steps; when c starts a row all three cursors
      skip ahead by one; the walk stops as soon as a cursor reaches `size`. */
  function WalkFrom(n: nat, size: nat, a: nat, b: nat, c: nat, i: nat): seq<nat>
    decreases 2 * size - a - b
  {
    if n == 0 || !(a < size && b < size && c < size) then []
    else
      var c1 := if i % 2 == 0 then a + 1 else b + 1;
      var skip := IsRowStart(n, c1);
      var a1, b1, c2 := if skip then a + 1 else a, if skip then b + 1 else b, if skip then c1 + 1 else c1;
      if !(a1 < size && b1 < size && c2 < size) then []
      else if i % 2 == 0 then [a1, c2, b1] + WalkFrom(n, size, c2, b1, c2, i + 1)
      else [a1, c2, b1] + WalkFrom(n, size, a1, c2, c2, i + 1)
  }

  /** The index pass. Cursor a walks the upper row, b the lower row; c is the
      third corner, taken after a on even steps and after b on odd steps.
      When c would start a new row all three skip ahead by one, so no
      triangle joins the end of one row to the start of the next. Each
      accepted triple is appended as (a, c, b). The result is the row-major
      enumeration of all quads, two triangles each; `counter` is the final
      value of the loop counter, one per emitted triangle. */
  method GenerateIndices(n: nat) returns (indices: seq<nat>, counter: nat)
    requires n * n < Uint32Limit
    ensures indices == QuadEnumeration(n)
    ensures 3 * counter == |indices|
  {
    var size := n * n;
    indices := [];
    var a: nat, b: nat, c: nat := 0, n, 1;
    var i: nat := 0;
    while a < size && b < size && c < size
      invariant a <= size && b <= size
      invariant indices + WalkFrom(n, size, a, b, c, i) == WalkFrom(n, size, 0, n, 1, 0)
      invariant |indices| == 3 * i
      decreases 2 * size - a - b
    {
      ghost var a0, b0, c0, i0, emitted := a, b, c, i, indices;
      if i % 2 == 0 {
        c := a + 1;
      } else {
        c := b + 1;
      }
      ghost var c1 := c;
      IsRowStartIsMultiple(n, c);
      if c % n == 0 {
        a := a + 1;
        b := b + 1;
        c := c + 1;
      }
      WalkStep(n, size, a0, b0, c0, i0, c1, a, b, c);
      ghost var a1, b1 := a, b;
      if a < size && b < size && c < size {
        indices := indices + [a, c, b];
      } else {
        break;
      }
      if i % 2 == 0 {
        a := c;
      } else {
        b := c;
      }
      i := i + 1;
      assert emitted + ([a1, c, b1] + WalkFrom(n, size, a, b, c, i)) == indices + WalkFrom(n, size, a, b, c, i);
    }
    WalkIsQuadEnumeration(n);
    counter := i;
  }


  /** One iteration of the index pass, read off the walk: from cursors
      (a, b, c) at step i, with c1 the candidate third corner and (a1, b1,
      c2) the cursors after the row-end skip, the walk either stops or
      emits (a1, c2, b1) and continues from the advanced cursors. */
  lemma WalkStep(n: nat, size: nat, a: nat, b: nat, c: nat, i: nat, c1: nat, a1: nat, b1: nat, c2: nat)
    requires n > 0 && a < size && b < size && c < size
    requires c1 == if i % 2 == 0 then a + 1 else b + 1
    requires IsRowStart(n, c1) ==> a1 == a + 1 && b1 == b + 1 && c2 == c1 + 1
    requires !IsRowStart(n, c1) ==> a1 == a && b1 == b && c2 == c1
    ensures !(a1 < size && b1 < size && c2 < size) ==> WalkFrom(n, size, a, b, c, i) == []
    ensures a1 < size && b1 < size && c2 < size && i % 2 == 0 ==>
      WalkFrom(n, size, a, b, c, i) == [a1, c2, b1] + WalkFrom(n, size, c2, b1, c2, i + 1)
    ensures a1 < size && b1 < size && c2 < size && i % 2 == 1 ==>
      WalkFrom(n, size, a, b, c, i) == [a1, c2, b1] + WalkFrom(n, size, a1, c2, c2, i + 1)
  {
  }

  /** A quad's first triangle, then its second, then the rest, is the quad
      followed by the rest. */
  lemma RejoinQuad(t: seq<nat>, rest: seq<nat>)
    requires |t| == 6
    ensures t[..3] + (t[3..] + rest) == t + rest
  {
    assert t[..3] + (t[3..] + rest) == (t[..3] + t[3..]) + rest;
    assert t[..3] + t[3..] == t;
  }

  /** The walk from its initial cursors (0, n, 1) emits exactly the
      row-major per-quad enumeration. */
  lemma WalkIsQuadEnumeration(n: nat)
    ensures WalkFrom(n, n * n, 0, n, 1, 0) == QuadEnumeration(n)
  {
    CellsIsProduct(n);
    if n >= 2 {
      CellBelowSize(n, 1, 0);
      EvenWalk(n, 0, 0, 0, 0, n, 1, 0);
    } else {
      assert n * n <= n;
    }
  }

  /** At an even step the walk sits at quad (r, j) with cursors a = rn + j
      and b = rn + n + j (j = n - 1 means the row's quads are all done);
      it emits exactly the quads from (r, j) on. */
  lemma {:induction false} EvenWalk(n: nat, r: nat, j: nat, rn: nat, a: nat, b: nat, c: nat, i: nat)
    requires n >= 2 && r <= n - 2 && j <= n - 1 && rn == RowStart(n, r)
    requires a == rn + j && b == rn + n + j && c <= b && i % 2 == 0
    ensures WalkFrom(n, Cells(n), a, b, c, i) == QuadsFrom(n, r, j)
    decreases n - r, n - j, 1
  {
    if j < n - 1 {
      EvenStepInRow(n, r, j, rn, a, b, c, i);
      OddWalk(n, r, j, rn, a + 1, b, i + 1);
      RejoinQuad(QuadTriangles(n, r, j), QuadsFrom(n, r, j + 1));
    } else if r + 2 < n {
      EvenStepIntoNextRow(n, r, j, rn, a, b, c, i);
      OddWalk(n, r + 1, 0, rn + n, a + 2, b + 1, i + 1);
      RejoinQuad(QuadTriangles(n, r + 1, 0), QuadsFrom(n, r + 1, 1));
    } else {
      EvenStepOffLastRow(n, r, j, rn, a, b, c, i);
    }
  }

  /** At an odd step the walk has emitted the first triangle of quad (r, j)
      and its cursors are a = rn + j + 1 and b = rn + n + j; it emits the
      second triangle and then the quads from (r, j + 1) on. */
  lemma {:induction false} OddWalk(n: nat, r: nat, j: nat, rn: nat, a: nat, b: nat, i: nat)
    requires n >= 2 && r <= n - 2 && j <= n - 2 && rn == RowStart(n, r)
    requires a == rn + j + 1 && b == rn + n + j && i % 2 == 1
    ensures WalkFrom(n, Cells(n), a, b, a, i) == QuadTriangles(n, r, j)[3..] + QuadsFrom(n, r, j + 1)
    decreases n - r, n - j, 0
  {
    var rest := WalkFrom(n, Cells(n), a, b + 1, b + 1, i + 1);
    OddStep(n, r, j, rn, a, b, i);
    EvenWalk(n, r, j + 1, rn, a, b + 1, b + 1, i + 1);
    assert rest == QuadsFrom(n, r, j + 1);
  }

  /** One even step inside a row: the walk emits the first triangle of
      quad (r, j) and moves to its odd step. */
  lemma EvenStepInRow(n: nat, r: nat, j: nat, rn: nat, a: nat, b: nat, c: nat, i: nat)
    requires n >= 2 && r <= n - 2 && j < n - 1 && rn == RowStart(n, r)
    requires a == rn + j && b == rn + n + j && c <= b && i % 2 == 0
    ensures WalkFrom(n, Cells(n), a, b, c, i) == QuadTriangles(n, r, j)[..3] + WalkFrom(n, Cells(n), a + 1, b, a + 1, i + 1)
  {
    LowerCornerInGrid(n, r, j, rn);
    EvenCornersInRow(n, r, j, rn);
    QuadCorners(n, r, j, rn);
  }

  /** The even step at the end of a row that is not the last: the skip
      moves the walk to quad (r + 1, 0), whose first triangle it emits. */
  lemma EvenStepIntoNextRow(n: nat, r: nat, j: nat, rn: nat, a: nat, b: nat, c: nat, i: nat)
    requires n >= 2 && r + 2 < n && j == n - 1 && rn == RowStart(n, r)
    requires a == rn + j && b == rn + n + j && c <= b && i % 2 == 0
    ensures WalkFrom(n, Cells(n), a, b, c, i) == QuadTriangles(n, r + 1, 0)[..3] + WalkFrom(n, Cells(n), a + 2, b + 1, a + 2, i + 1)
  {
    LowerCornerInGrid(n, r, j, rn);
    EvenCornersAtRowEnd(n, r, rn);
    QuadCorners(n, r + 1, 0, rn + n);
  }

  /** The even step at the end of the last row of quads: the skip pushes
      the lower cursor past the last vertex and the walk stops. */
  lemma EvenStepOffLastRow(n: nat, r: nat, j: nat, rn: nat, a: nat, b: nat, c: nat, i: nat)
    requires n >= 2 && r + 2 == n && j == n - 1 && rn == RowStart(n, r)
    requires a == rn + j && b == rn + n + j && c <= b && i % 2 == 0
    ensures WalkFrom(n, Cells(n), a, b, c, i) == []
  {
    LowerCornerInGrid(n, r, j, rn);
    EvenCornersAtRowEnd(n, r, rn);
  }

  /** One odd step: the walk emits the second triangle of quad (r, j) and
      moves to the even step of quad (r, j + 1). */
  lemma OddStep(n: nat, r: nat, j: nat, rn: nat, a: nat, b: nat, i: nat)
    requires n >= 2 && r <= n - 2 && j <= n - 2 && rn == RowStart(n, r)
    requires a == rn + j + 1 && b == rn + n + j && i % 2 == 1
    ensures WalkFrom(n, Cells(n), a, b, a, i) == QuadTriangles(n, r, j)[3..] + WalkFrom(n, Cells(n), a, b + 1, b + 1, i + 1)
  {
    OddCorners(n, r, j, rn);
    QuadCorners(n, r, j, rn);
  }

  /** The lower corner b = rn + n + j of a quad in an interior row indexes
      an existing vertex. */
  lemma LowerCornerInGrid(n: nat, r: nat, j: nat, rn: nat)
    requires r + 1 < n && j < n && rn == RowStart(n, r)
    ensures rn + n + j < Cells(n)
  {
    RowStartMonotone(n, r + 2, n);
  }

  /** What the even step meets inside a row: c = a + 1 stays on the row,
      and all three corners stay inside the lattice. */
  lemma EvenCornersInRow(n: nat, r: nat, j: nat, rn: nat)
    requires n >= 2 && r <= n - 2 && j < n - 1 && rn == RowStart(n, r)
    ensures !IsRowStart(n, rn + j + 1) && rn + n + j + 1 < Cells(n)
  {
    RowOffsetStartsRow(n, r, j + 1);
    RowStartMonotone(n, r + 2, n);
  }

  /** What the even step meets at the end of a row: c = a + 1 starts the
      next row, and after the skip the walk is at quad (r + 1, 0), which
      exists exactly when row r + 1 is not the last vertex row. */
  lemma EvenCornersAtRowEnd(n: nat, r: nat, rn: nat)
    requires n >= 2 && r <= n - 2 && rn == RowStart(n, r)
    ensures IsRowStart(n, rn + n)
    ensures r + 2 < n <==> rn + n + n < Cells(n)
    ensures r + 2 < n ==> rn + n + n + 1 < Cells(n)
  {
    RowOffsetStartsRow(n, r, n);
    assert RowStart(n, r + 2) == rn + n + n;
    if r + 2 < n {
      RowStartMonotone(n, r + 3, n);
      assert RowStart(n, r + 3) == rn + n + n + n;
    } else {
      assert Cells(n) == RowStart(n, r + 2);
    }
  }

  /** What the odd step meets: c = b + 1 never starts a new row, and all
      three corners stay inside the lattice. */
  lemma OddCorners(n: nat, r: nat, j: nat, rn: nat)
    requires n >= 2 && r <= n - 2 && j <= n - 2 && rn == RowStart(n, r)
    ensures !IsRowStart(n, rn + n + j + 1)
    ensures rn + n + j + 1 < Cells(n)
  {
    RowOffsetStartsRow(n, r + 1, j + 1);
    RowStartMonotone(n, r + 2, n);
  }

  /** The first triangle of quad (r, j) is (a, a+1, b) for the corners
      a = rn + j above and b = rn + n + j below; the second is
      (a+1, b+1, b). */
  lemma QuadCorners(n: nat, r: nat, j: nat, rn: nat)
    requires rn == RowStart(n, r)
    ensures QuadTriangles(n, r, j)[..3] == [rn + j, rn + j + 1, rn + n + j]
    ensures QuadTriangles(n, r, j)[3..] == [rn + j + 1, rn + n + j + 1, rn + n + j]
  {
  }

  // ---------------------------------------------------------------------
  // Properties of the triangle list

  /** From quad (r, j) on there are (n - 1 - r) * (n - 1) - j quads left,
      six indices each. */
  lemma {:induction false} QuadsFromLength(n: nat, r: nat, j: nat)
    requires n >= 2 && r <= n - 2 && j <= n - 1
    ensures |QuadsFrom(n, r, j)| == 6 * ((n - 1 - r) * (n - 1) - j)
    decreases n - r, n - j
  {
    var rows := n - 1 - r;
    assert rows * (n - 1) == (rows - 1) * (n - 1) + (n - 1);
    if j < n - 1 {
      QuadsFromLength(n, r, j + 1);
    } else if r + 2 < n {
      QuadsFromLength(n, r + 1, 0);
    } else {
      assert rows == 1;
    }
  }

  /** The triangle list has six indices per quad: 2 * (n - 1)^2 triangles
      for n >= 2, none for smaller lattices. */
  lemma EnumerationLength(n: nat)
    ensures n >= 2 ==> |QuadEnumeration(n)| == 6 * (n - 1) * (n - 1)
    ensures n < 2 ==> QuadEnumeration(n) == []
  {
    if n >= 2 {
      QuadsFromLength(n, 0, 0);
    }
  }

  /** The quads from (r, j) on are the tail of the whole list. */
  lemma {:induction false} QuadsFromIsTail(n: nat, r: nat, j: nat)
    requires n >= 2 && r <= n - 2 && j <= n - 1
    ensures var all, rest := QuadEnumeration(n), QuadsFrom(n, r, j);
      |rest| <= |all| && all[|all| - |rest|..] == rest
    decreases r, j
  {
    var all, rest := QuadEnumeration(n), QuadsFrom(n, r, j);
    if j > 0 {
      QuadsFromIsTail(n, r, j - 1);
      var before := QuadsFrom(n, r, j - 1);
      assert before == QuadTriangles(n, r, j - 1) + rest;
      assert before[6..] == rest;
      assert all[|all| - |rest|..] == all[|all| - |before|..][6..];
    } else if r > 0 {
      QuadsFromIsTail(n, r - 1, n - 1);
      assert QuadsFrom(n, r - 1, n - 1) == rest;
    }
  }

  /** Quad (r, j) has its two triangles at quad slot r * (n - 1) + j of the
      list: the list is the row-major per-quad enumeration. */
  lemma QuadAtItsSlot(n: nat, r: nat, j: nat)
    requires n >= 2 && r <= n - 2 && j <= n - 2
    ensures 6 * (r * (n - 1) + j) + 6 <= |QuadEnumeration(n)|
    ensures QuadEnumeration(n)[6 * (r * (n - 1) + j) .. 6 * (r * (n - 1) + j) + 6] == QuadTriangles(n, r, j)
  {
    var all, rest := QuadEnumeration(n), QuadsFrom(n, r, j);
    QuadsFromLength(n, 0, 0);
    QuadsFromLength(n, r, j);
    QuadsFromIsTail(n, r, j);
    var slot := r * (n - 1) + j;
    assert (n - 1) * (n - 1) == (n - 1 - r) * (n - 1) + r * (n - 1);
    assert |all| - |rest| == 6 * slot;
    assert rest[..6] == QuadTriangles(n, r, j);
    assert all[6 * slot .. 6 * slot + 6] == rest[..6];
  }

  // ---------------------------------------------------------------------
  // Bounds and locality of the triangles

  /** Triangle t of a triangle list: indices 3t, 3t+1, 3t+2. */
  function Triangle(s: seq<nat>, t: nat): (nat, nat, nat)
    requires 3 * t + 3 <= |s|
  {
    (s[3 * t], s[3 * t + 1], s[3 * t + 2])
  }

  /** The row of flat index x in an n-wide lattice, by repeated
      subtraction of the row width. */
  function RowOf(n: nat, x: nat): nat
    requires n > 0
    decreases x
  {
    if x < n then 0 else RowOf(n, x - n) + 1
  }

  /** The column of flat index x in an n-wide lattice. */
  function ColumnOf(n: nat, x: nat): nat
    requires n > 0
    decreases x
  {
    if x < n then x else ColumnOf(n, x - n)
  }

  /** RowOf and ColumnOf are the quotient and remainder the mesh code uses. */
  lemma {:induction false} RowAndColumnOf(n: nat, x: nat)
    requires n > 0
    ensures RowOf(n, x) == x / n && ColumnOf(n, x) == x % n
    decreases x
  {
    if x < n {
      DivModUnique(x, n, 0, x);
    } else {
      RowAndColumnOf(n, x - n);
      DivModUnique(x, n, (x - n) / n + 1, (x - n) % n);
    }
  }

  /** The vertex at row r, column j of the lattice has that row and column. */
  lemma {:induction false} CellCoordinates(n: nat, r: nat, j: nat)
    requires n > 0 && j < n
    ensures RowOf(n, RowStart(n, r) + j) == r && ColumnOf(n, RowStart(n, r) + j) == j
  {
    if r > 0 {
      CellCoordinates(n, r - 1, j);
      assert RowStart(n, r) + j - n == RowStart(n, r - 1) + j;
    }
  }

  /** Vertices x and y are at most one row and one column apart. */
  predicate Near(n: nat, x: nat, y: nat)
    requires n > 0
  {
    && -1 <= RowOf(n, x) - RowOf(n, y) <= 1
    && -1 <= ColumnOf(n, x) - ColumnOf(n, y) <= 1
  }

  /** Every corner indexes an existing vertex: it is below Cells(n), which
      is n * n. */
  predicate InGrid(n: nat, s: seq<nat>)
  {
    forall p :: 0 <= p < |s| ==> s[p] < Cells(n)
  }

  /** Each triangle's corners lie within one row and one column of each
      other. For n >= 3 this excludes a triangle that wraps from the end of
      a row to the start of the next; for n = 2 such a triangle is still
      local, and the walk's equality with the enumeration is what rules it
      out. */
  predicate Local(n: nat, s: seq<nat>)
    requires n > 0
  {
    forall t :: 0 <= t < |s| / 3 ==>
      var (x, y, z) := Triangle(s, t);
      Near(n, x, y) && Near(n, y, z) && Near(n, x, z)
  }

  lemma TrianglesOfConcat(n: nat, s1: seq<nat>, s2: seq<nat>)
    requires n > 0 && |s1| % 3 == 0 && |s2| % 3 == 0
    requires InGrid(n, s1) && InGrid(n, s2) && Local(n, s1) && Local(n, s2)
    ensures InGrid(n, s1 + s2) && Local(n, s1 + s2) && |s1 + s2| % 3 == 0
  {
    var s := s1 + s2;
    forall t | 0 <= t < |s| / 3
      ensures var (x, y, z) := Triangle(s, t); Near(n, x, y) && Near(n, y, z) && Near(n, x, z)
    {
      if t < |s1| / 3 {
        assert Triangle(s, t) == Triangle(s1, t);
      } else {
        assert Triangle(s, t) == Triangle(s2, t - |s1| / 3);
      }
    }
  }

  /** Both triangles of an interior quad join vertices of that one cell. */
  lemma QuadIsLocal(n: nat, r: nat, j: nat)
    requires n >= 2 && r <= n - 2 && j <= n - 2
    ensures InGrid(n, QuadTriangles(n, r, j)) && Local(n, QuadTriangles(n, r, j))
  {
    var top := RowStart(n, r) + j;
    CellCoordinates(n, r, j);
    CellCoordinates(n, r, j + 1);
    CellCoordinates(n, r + 1, j);
    CellCoordinates(n, r + 1, j + 1);
    LowerCornerInGrid(n, r, j + 1, RowStart(n, r));
    var s := QuadTriangles(n, r, j);
    assert Triangle(s, 0) == (top, top + 1, top + n);
    assert Triangle(s, 1) == (top + 1, top + n + 1, top + n);
  }

  lemma {:induction false} QuadsFromLocal(n: nat, r: nat, j: nat)
    requires n >= 2 && r <= n - 1 && j <= n - 1
    ensures InGrid(n, QuadsFrom(n, r, j)) && Local(n, QuadsFrom(n, r, j)) && |QuadsFrom(n, r, j)| % 3 == 0
    decreases n - r, n - j
  {
    if r + 1 >= n {
    } else if j + 1 >= n {
      QuadsFromLocal(n, r + 1, 0);
    } else {
      QuadsFromLocal(n, r, j + 1);
      QuadIsLocal(n, r, j);
      TrianglesOfConcat(n, QuadTriangles(n, r, j), QuadsFrom(n, r, j + 1));
    }
  }

  /** Every emitted index is below n*n, and every triangle's corners lie
      within one row and one column of each other. */
  lemma EnumerationInGridAndLocal(n: nat)
    requires n >= 2
    ensures InGrid(n, QuadEnumeration(n)) && Local(n, QuadEnumeration(n))
  {
    QuadsFromLocal(n, 0, 0);
  }
}
