/**
 * The tile grid mesh: a side x side lattice of vertices, drawn as one
 * triangle strip per pair of adjacent rows, each strip closed by the
 * primitive restart marker. Index arithmetic is unsigned 32-bit.
 */
module GridMeshes {
  import opened TileKeys

  /** The primitive restart marker: the largest GLuint. */
  const RESTART_INDEX: U32 := U32_MODULUS - 1

  /** The outer bound _sideLength - 1 of loadIndices: unsigned subtraction, which wraps at 0. */
  function RowCount(side: U32): U32
  {
    if side == 0 then RESTART_INDEX else side - 1
  }

  /** The bound agrees with subtraction modulo 2^32. */
  lemma {:induction false} RowCountWraps(side: U32)
    ensures RowCount(side) == Wrap(side + U32_MODULUS - 1)
  {
    if side > 0 {
      assert side + U32_MODULUS - 1 == (side - 1) + U32_MODULUS;
    }
  }

  // ---------------------------------------------------------------------
  // Vertices
  // ---------------------------------------------------------------------

  /**
   * A lattice vertex, column col of row row. Its two floats are the
   * position (col - side/2 + 1/2, row - side/2 + 1/2), so the lattice is
   * centred on the tile; only the cell is modelled.
   */
  datatype GridVertex = GridVertex(col: nat, row: nat)

  /** The first n vertices of row i. */
  function RowVertices(i: nat, n: nat): seq<GridVertex>
    decreases n
  {
    if n == 0 then [] else RowVertices(i, n - 1) + [GridVertex(n - 1, i)]
  }

  /** The vertices of the first n rows of a lattice with the given side. */
  function LatticeRows(side: nat, n: nat): seq<GridVertex>
    decreases n
  {
    if n == 0 then [] else LatticeRows(side, n - 1) + RowVertices(n - 1, side)
  }

  /** One more vertex of row i, appended to what came before. */
  lemma {:induction false} RowStep(start: seq<GridVertex>, i: nat, j: nat, k: nat)
    requires k == j + 1
    ensures start + RowVertices(i, j) + [GridVertex(j, i)] == start + RowVertices(i, k)
  {
    assert RowVertices(i, k) == RowVertices(i, j) + [GridVertex(j, i)];
    AppendAssoc(start, RowVertices(i, j), [GridVertex(j, i)]);
  }

  /** One more full row, appended to what came before. */
  lemma {:induction false} RowsStep(start: seq<GridVertex>, side: nat, i: nat, k: nat)
    requires k == i + 1
    ensures start + LatticeRows(side, i) + RowVertices(i, side) == start + LatticeRows(side, k)
  {
    assert LatticeRows(side, k) == LatticeRows(side, i) + RowVertices(i, side);
    AppendAssoc(start, LatticeRows(side, i), RowVertices(i, side));
  }

  lemma {:induction false} AppendAssoc(a: seq<GridVertex>, b: seq<GridVertex>, c: seq<GridVertex>)
    ensures a + b + c == a + (b + c)
  {
  }

  /** What loadVertices appends: every row in turn, each row left to right. */
  function GridVertices(side: nat): seq<GridVertex>
  {
    LatticeRows(side, side)
  }

  /**
   * Where row r starts in a buffer of rows of width len; it is r * len
   * (RowStartProduct), written as a sum so that the layout lemmas stay linear.
   */
  function RowStart(len: nat, r: nat): nat
    decreases r
  {
    if r == 0 then 0 else RowStart(len, r - 1) + len
  }

  lemma {:induction false} RowStartProduct(len: nat, r: nat)
    ensures RowStart(len, r) == r * len
    decreases r
  {
    if r > 0 {
      RowStartProduct(len, r - 1);
      assert (r - 1) * len + len == r * len;
    }
  }

  lemma {:induction false} MulMonotone(a: nat, b: nat, c: nat)
    requires a <= b
    ensures a * c <= b * c
  {
  }

  lemma {:induction false} RowStartMonotone(len: nat, r: nat, n: nat)
    requires r < n
    ensures RowStart(len, r) + len <= RowStart(len, n)
    decreases n
  {
    if r < n - 1 {
      RowStartMonotone(len, r, n - 1);
    }
  }

  lemma {:induction false} RowVerticesAt(i: nat, n: nat)
    ensures |RowVertices(i, n)| == n
    ensures forall j :: 0 <= j < n ==> RowVertices(i, n)[j] == GridVertex(j, i)
    decreases n
  {
    if n > 0 {
      RowVerticesAt(i, n - 1);
    }
  }

  lemma {:induction false} LatticeRowsLength(side: nat, n: nat)
    ensures |LatticeRows(side, n)| == RowStart(side, n)
    decreases n
  {
    if n > 0 {
      LatticeRowsLength(side, n - 1);
      RowVerticesAt(n - 1, side);
    }
  }

  lemma {:induction false} LatticeRowsAt(side: nat, n: nat, i: nat, j: nat)
    requires i < n && j < side
    ensures RowStart(side, i) + j < |LatticeRows(side, n)|
    ensures LatticeRows(side, n)[RowStart(side, i) + j] == GridVertex(j, i)
    decreases n
  {
    LatticeRowsLength(side, n);
    LatticeRowsLength(side, n - 1);
    RowStartMonotone(side, i, n);
    if i < n - 1 {
      LatticeRowsAt(side, n - 1, i, j);
      RowStartMonotone(side, i, n - 1);
    } else {
      RowVerticesAt(n - 1, side);
    }
  }

  /** loadVertices: side * side vertices of two floats each, vertex i * side + j being column j of row i. */
  lemma {:induction false} GridVerticesLayout(side: nat, i: nat, j: nat)
    requires i < side && j < side
    ensures |GridVertices(side)| == side * side
    ensures i * side + j < |GridVertices(side)|
    ensures GridVertices(side)[i * side + j] == GridVertex(j, i)
  {
    LatticeRowsLength(side, side);
    LatticeRowsAt(side, side, i, j);
    RowStartProduct(side, i);
    RowStartProduct(side, side);
  }

  // ---------------------------------------------------------------------
  // Indices
  // ---------------------------------------------------------------------

  /** The strip of row i up to column n: for each column, the vertex in row i then the one below it. */
  function StripPairs(side: U32, i: nat, n: nat): seq<U32>
    decreases n
  {
    if n == 0 then []
    else StripPairs(side, i, n - 1) + [Wrap(n - 1 + side * i), Wrap(n - 1 + side * (i + 1))]
  }

  /** A whole strip: every column, then the restart marker. */
  function Strip(side: U32, i: nat): seq<U32>
  {
    StripPairs(side, i, side) + [RESTART_INDEX]
  }

  /** The strips of the first n rows. */
  function Strips(side: U32, n: nat): seq<U32>
    decreases n
  {
    if n == 0 then [] else Strips(side, n - 1) + Strip(side, n - 1)
  }

  /** What loadIndices appends: one strip per row of the loop bound. */
  function GridIndices(side: U32): seq<U32>
  {
    Strips(side, RowCount(side))
  }

  lemma {:induction false} StripPairsAt(side: U32, i: nat, n: nat)
    ensures |StripPairs(side, i, n)| == 2 * n
    ensures forall j :: 0 <= j < n ==>
      StripPairs(side, i, n)[2 * j] == Wrap(j + side * i) &&
      StripPairs(side, i, n)[2 * j + 1] == Wrap(j + side * (i + 1))
    decreases n
  {
    if n > 0 {
      StripPairsAt(side, i, n - 1);
    }
  }

  /** The length of one strip. */
  function StripLength(side: nat): nat { 2 * side + 1 }

  lemma {:induction false} StripShape(side: U32, i: nat, j: nat)
    requires j < side
    ensures |Strip(side, i)| == StripLength(side)
    ensures Strip(side, i)[2 * j] == Wrap(j + side * i)
    ensures Strip(side, i)[2 * j + 1] == Wrap(j + side * (i + 1))
    ensures Strip(side, i)[2 * side] == RESTART_INDEX
  {
    StripPairsAt(side, i, side);
  }

  lemma {:induction false} StripsLength(side: U32, n: nat)
    ensures |Strips(side, n)| == RowStart(StripLength(side), n)
    decreases n
  {
    if n > 0 {
      StripsLength(side, n - 1);
      StripPairsAt(side, n - 1, side);
    }
  }

  lemma {:induction false} StripsAt(side: U32, n: nat, r: nat, c: nat)
    requires r < n && c < StripLength(side)
    ensures RowStart(StripLength(side), r) + c < |Strips(side, n)|
    ensures |Strip(side, r)| == StripLength(side)
    ensures Strips(side, n)[RowStart(StripLength(side), r) + c] == Strip(side, r)[c]
    decreases n
  {
    var len := StripLength(side);
    StripsLength(side, n);
    StripsLength(side, n - 1);
    StripPairsAt(side, n - 1, side);
    RowStartMonotone(len, r, n);
    StripPairsAt(side, r, side);
    if r < n - 1 {
      StripsAt(side, n - 1, r, c);
      RowStartMonotone(len, r, n - 1);
    }
  }

  /** The index count: (side - 1) * (2 * side + 1), one strip of 2 * side + 1 per row pair. */
  lemma {:induction false} GridIndicesCount(side: U32)
    requires side >= 1
    ensures |GridIndices(side)| == (side - 1) * (2 * side + 1)
  {
    StripsLength(side, side - 1);
    RowStartProduct(StripLength(side), side - 1);
  }

  /** Sides up to 65535 keep every index of the lattice below 2^32 - 1, so nothing wraps. */
  lemma {:induction false} NoWrap(side: U32, i: nat, j: nat)
    requires side <= 0xFFFF && i + 1 < side && j < side
    ensures j + side * (i + 1) < side * side < RESTART_INDEX
    ensures Wrap(j + side * i) == j + side * i
    ensures Wrap(j + side * (i + 1)) == j + side * (i + 1)
  {
    assert side * (i + 1) <= side * (side - 1) by { MulMonotone(i + 1, side - 1, side); }
    assert side * (side - 1) + side == side * side;
    assert side * i <= side * (i + 1);
    assert side * side <= 0xFFFF * 0xFFFF by {
      MulMonotone(side, 0xFFFF, side);
      MulMonotone(side, 0xFFFF, 0xFFFF);
    }
  }

  /** The entries of strip i within the first n strips, at its start RowStart(StripLength(side), i). */
  lemma {:induction false} StripsEntries(side: U32, n: nat, i: nat, j: nat)
    requires i < n && j < side
    ensures RowStart(StripLength(side), i) + 2 * side < |Strips(side, n)| &&
      Strips(side, n)[RowStart(StripLength(side), i) + 2 * j] == Wrap(j + side * i) &&
      Strips(side, n)[RowStart(StripLength(side), i) + 2 * j + 1] == Wrap(j + side * (i + 1)) &&
      Strips(side, n)[RowStart(StripLength(side), i) + 2 * side] == RESTART_INDEX
  {
    StripShape(side, i, j);
    StripsAt(side, n, i, 2 * j);
    StripsAt(side, n, i, 2 * j + 1);
    StripsAt(side, n, i, 2 * side);
  }

  /**
   * The layout of each strip: position 2j of strip i holds the vertex
   * j + side * i, position 2j + 1 the vertex j + side * (i + 1) below it,
   * and the strip ends with the single restart marker.
   */
  lemma {:induction false} GridIndexLayout(side: U32, i: nat, j: nat)
    requires side <= 0xFFFF && i + 1 < side && j < side
    ensures i * (2 * side + 1) + 2 * side < |GridIndices(side)| &&
      GridIndices(side)[i * (2 * side + 1) + 2 * j] == j + side * i &&
      GridIndices(side)[i * (2 * side + 1) + 2 * j + 1] == j + side * (i + 1) &&
      GridIndices(side)[i * (2 * side + 1) + 2 * side] == RESTART_INDEX
  {
    StripsEntries(side, RowCount(side), i, j);
    RowStartProduct(StripLength(side), i);
    NoWrap(side, i, j);
  }

  /**
   * Every position of the buffer is column c of some strip i (Decompose);
   * there the index is the restart marker exactly at the end of the strip,
   * and otherwise names a vertex of the lattice: one restart marker per
   * row, the last row included.
   */
  lemma {:induction false} GridIndicesBounded(side: U32, i: nat, c: nat)
    requires 1 <= side <= 0xFFFF && i + 1 < side && c < 2 * side + 1
    ensures i * (2 * side + 1) + c < |GridIndices(side)| &&
      (GridIndices(side)[i * (2 * side + 1) + c] == RESTART_INDEX <==> c == 2 * side) &&
      (GridIndices(side)[i * (2 * side + 1) + c] != RESTART_INDEX ==>
         GridIndices(side)[i * (2 * side + 1) + c] < side * side)
  {
    var len := StripLength(side);
    RowStartProduct(len, i);
    var j := c / 2;
    if c == 2 * side {
      StripsEntries(side, RowCount(side), i, 0);
    } else {
      assert c == 2 * j || c == 2 * j + 1;
      StripsEntries(side, RowCount(side), i, j);
      NoWrap(side, i, j);
    }
  }

  /** The positions i * (2 * side + 1) + c cover the whole buffer. */
  lemma {:induction false} GridPositionsCover(side: U32, k: nat) returns (i: nat, c: nat)
    requires 1 <= side && k < |GridIndices(side)|
    ensures i + 1 < side && c < 2 * side + 1 && k == i * (2 * side + 1) + c
  {
    StripsLength(side, RowCount(side));
    i, c := Decompose(StripLength(side), side - 1, k);
    RowStartProduct(StripLength(side), i);
  }

  /** Every position below RowStart(len, n) lies in some row r < n, at column c. */
  lemma {:induction false} Decompose(len: nat, n: nat, k: nat) returns (r: nat, c: nat)
    requires k < RowStart(len, n)
    ensures r < n && c < len && k == RowStart(len, r) + c
    decreases n
  {
    if k < RowStart(len, n - 1) {
      r, c := Decompose(len, n - 1, k);
    } else {
      r, c := n - 1, k - RowStart(len, n - 1);
    }
  }

  /**
   * The strips stitch adjacent rows: position 2j of strip i is the lattice
   * vertex at column j of row i, and position 2j + 1 the one at column j of
   * row i + 1.
   */
  lemma {:induction false} StripsJoinRows(side: U32, i: nat, j: nat)
    requires side <= 0xFFFF && i + 1 < side && j < side
    ensures i * (2 * side + 1) + 2 * j + 1 < |GridIndices(side)|
    ensures GridIndices(side)[i * (2 * side + 1) + 2 * j] < |GridVertices(side)|
    ensures GridIndices(side)[i * (2 * side + 1) + 2 * j + 1] < |GridVertices(side)|
    ensures GridVertices(side)[GridIndices(side)[i * (2 * side + 1) + 2 * j]] == GridVertex(j, i)
    ensures GridVertices(side)[GridIndices(side)[i * (2 * side + 1) + 2 * j + 1]] == GridVertex(j, i + 1)
  {
    GridIndexLayout(side, i, j);
    GridVerticesLayout(side, i, j);
    GridVerticesLayout(side, i + 1, j);
    assert j + side * i == i * side + j;
    assert j + side * (i + 1) == (i + 1) * side + j;
  }

  lemma {:induction false} ZeroSideStrips(n: nat)
    ensures Strips(0, n) == seq(n, _ => RESTART_INDEX)
    decreases n
  {
    if n > 0 {
      ZeroSideStrips(n - 1);
    }
  }

  /** A side of 0 wraps the row bound to 2^32 - 1: every strip is empty and only restart markers are left. */
  lemma {:induction false} ZeroSideOnlyRestarts()
    ensures GridIndices(0) == seq(RESTART_INDEX, _ => RESTART_INDEX)
  {
    ZeroSideStrips(RESTART_INDEX);
  }

  // ---------------------------------------------------------------------
  // The object
  // ---------------------------------------------------------------------

  class GridMesh {
    const sideLength: U32
    var vertices: seq<GridVertex>
    var indices: seq<U32>

    constructor (side: U32)
      ensures sideLength == side && vertices == [] && indices == []
    {
      sideLength := side;
      vertices, indices := [], [];
    }

    /** load: the vertices, then the indices. */
    method Load()
      requires sideLength <= INT_MAX
      modifies this
      ensures vertices == old(vertices) + GridVertices(sideLength)
      ensures indices == old(indices) + GridIndices(sideLength)
    {
      LoadVertices();
      LoadIndices();
    }

    /**
     * loadVertices: row by row, each row left to right. Its counters are
     * int, so a side beyond the largest int would overflow them.
     */
    method LoadVertices()
      requires sideLength <= INT_MAX
      modifies this
      ensures vertices == old(vertices) + GridVertices(sideLength)
      ensures indices == old(indices)
    {
      ghost var start := vertices;
      var i := 0;
      while i < sideLength
        invariant 0 <= i <= sideLength
        invariant vertices == start + LatticeRows(sideLength, i)
        invariant indices == old(indices)
      {
        var j := 0;
        while j < sideLength
          invariant 0 <= j <= sideLength
          invariant vertices == start + LatticeRows(sideLength, i) + RowVertices(i, j)
          invariant indices == old(indices)
        {
          RowStep(start + LatticeRows(sideLength, i), i, j, j + 1);
          vertices := vertices + [GridVertex(j, i)];
          j := j + 1;
        }
        RowsStep(start, sideLength, i, i + 1);
        i := i + 1;
      }
    }

    /** loadIndices: one strip per row pair, each closed by the restart marker. */
    method LoadIndices()
      modifies this
      ensures indices == old(indices) + GridIndices(sideLength)
      ensures vertices == old(vertices)
    {
      var rows := RowCount(sideLength);
      var i := 0;
      while i < rows
        invariant 0 <= i <= rows
        invariant indices == old(indices) + Strips(sideLength, i)
        invariant vertices == old(vertices)
      {
        PushStrip(i);
        i := i + 1;
      }
    }

    /** The body of the outer loop of loadIndices: the strip of row i. */
    method PushStrip(i: nat)
      modifies this
      ensures indices == old(indices) + Strip(sideLength, i)
      ensures vertices == old(vertices)
    {
      var j := 0;
      while j < sideLength
        invariant 0 <= j <= sideLength
        invariant indices == old(indices) + StripPairs(sideLength, i, j)
        invariant vertices == old(vertices)
      {
        indices := indices + [Wrap(j + sideLength * i), Wrap(j + sideLength * (i + 1))];
        j := j + 1;
      }
      indices := indices + [RESTART_INDEX];
    }
  }
}
