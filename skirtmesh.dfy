/**
 * The skirt around a tile: the border cells of the side x side lattice in
 * one clockwise walk (top row, right column, bottom row, left column),
 * each cell doubled into a lowered copy and the original, drawn as a
 * single triangle strip.
 */
module SkirtMeshes {
  import opened TileKeys

  /** A lattice cell: column col, row row. Its float position is (col - side/2 + 1/2, row - side/2 + 1/2). */
  datatype Cell = Cell(col: int, row: int)

  /** A skirt vertex: three floats, the position of its cell and the duplicate flag (1 = lowered copy). */
  datatype SkirtVertex = SkirtVertex(cell: Cell, duplicate: int)

  // ---------------------------------------------------------------------
  // The walk
  // ---------------------------------------------------------------------

  /** Cells 0 .. s-1 of the top row, left to right. */
  function TopRow(s: nat): seq<Cell> { seq(s, j => Cell(j, 0)) }

  /** Rows 1 .. s-2 of the right column, downwards. */
  function RightColumn(s: nat): seq<Cell>
  {
    seq(if s >= 2 then s - 2 else 0, k => Cell(s - 1, k + 1))
  }

  /** Columns s-1 .. 0 of the bottom row, right to left. */
  function BottomRow(s: nat): seq<Cell> { seq(s, k => Cell(s - 1 - k, s - 1)) }

  /** Rows s-2 .. 1 of the left column, upwards. */
  function LeftColumn(s: nat): seq<Cell>
  {
    seq(if s >= 2 then s - 2 else 0, k => Cell(0, s - 2 - k))
  }

  /** The cells in the order loadVertices visits them. */
  function BorderWalk(s: nat): seq<Cell>
  {
    TopRow(s) + RightColumn(s) + BottomRow(s) + LeftColumn(s)
  }

  /** The cell at position k of the walk, in closed form. */
  function WalkAt(s: nat, k: nat): Cell
  {
    if k < s then Cell(k, 0)
    else if k < 2 * s - 2 then Cell(s - 1, k - s + 1)
    else if k < 3 * s - 2 then Cell(3 * s - 3 - k, s - 1)
    else Cell(0, 4 * s - 4 - k)
  }

  /** The border cells of the lattice. */
  predicate OnBorder(s: nat, c: Cell)
  {
    0 <= c.col < s && 0 <= c.row < s &&
    (c.row == 0 || c.col == s - 1 || c.row == s - 1 || c.col == 0)
  }

  /** Where the walk passes a border cell: the inverse of WalkAt. */
  function PositionOf(s: nat, c: Cell): nat
    requires s >= 2 && OnBorder(s, c)
  {
    if c.row == 0 then c.col
    else if c.col == s - 1 && c.row < s - 1 then s - 1 + c.row
    else if c.row == s - 1 then 3 * s - 3 - c.col
    else 4 * s - 4 - c.row
  }

  /** Two cells sharing a side. */
  predicate Adjacent(a: Cell, b: Cell)
  {
    (a.col == b.col && (a.row - b.row == 1 || b.row - a.row == 1)) ||
    (a.row == b.row && (a.col - b.col == 1 || b.col - a.col == 1))
  }

  /** The walk has 4s - 4 cells for s >= 2 and is the closed form; a side of 1 visits its one cell twice. */
  lemma {:induction false} BorderWalkShape(s: nat, k: nat)
    requires s >= 1
    ensures s >= 2 ==> |BorderWalk(s)| == 4 * s - 4
    ensures s == 1 ==> BorderWalk(s) == [Cell(0, 0), Cell(0, 0)]
    ensures s >= 2 && k < 4 * s - 4 ==> BorderWalk(s)[k] == WalkAt(s, k)
  {
    var t, r, b := TopRow(s), RightColumn(s), BottomRow(s);
    if s >= 2 && k < 4 * s - 4 {
      if k < s {
        assert BorderWalk(s)[k] == t[k];
      } else if k < 2 * s - 2 {
        assert BorderWalk(s)[k] == r[k - s];
      } else if k < 3 * s - 2 {
        assert BorderWalk(s)[k] == b[k - (2 * s - 2)];
      } else {
        assert BorderWalk(s)[k] == LeftColumn(s)[k - (3 * s - 2)];
      }
    }
  }

  /** Each position of the walk is a border cell, and PositionOf gives the position back. */
  lemma {:induction false} WalkAtInverse(s: nat, k: nat)
    requires s >= 2 && k < 4 * s - 4
    ensures OnBorder(s, WalkAt(s, k))
    ensures PositionOf(s, WalkAt(s, k)) == k
  {
  }

  /** Every border cell is reached by the walk, at the position PositionOf names. */
  lemma {:induction false} PositionOfInverse(s: nat, c: Cell)
    requires s >= 2 && OnBorder(s, c)
    ensures PositionOf(s, c) < 4 * s - 4
    ensures WalkAt(s, PositionOf(s, c)) == c
  {
  }

  /** For s >= 2 the walk visits each of the 4s - 4 border cells exactly once. */
  lemma {:induction false} WalkVisitsBorderOnce(s: nat)
    requires s >= 2
    ensures forall k :: 0 <= k < |BorderWalk(s)| ==> OnBorder(s, BorderWalk(s)[k])
    ensures forall c :: OnBorder(s, c) ==> c in BorderWalk(s)
    ensures forall a, b :: 0 <= a < b < |BorderWalk(s)| ==> BorderWalk(s)[a] != BorderWalk(s)[b]
  {
    var w := BorderWalk(s);
    BorderWalkShape(s, 0);
    forall k | 0 <= k < |w| ensures OnBorder(s, w[k]) {
      BorderWalkShape(s, k);
      WalkAtInverse(s, k);
    }
    forall c | OnBorder(s, c) ensures c in w {
      PositionOfInverse(s, c);
      BorderWalkShape(s, PositionOf(s, c));
    }
    forall a, b | 0 <= a < b < |w| ensures w[a] != w[b] {
      BorderWalkShape(s, a);
      BorderWalkShape(s, b);
      WalkAtInverse(s, a);
      WalkAtInverse(s, b);
    }
  }

  /** Consecutive cells of the walk share a side, and so do the last and the first: the skirt is closed. */
  lemma {:induction false} WalkIsClosedPath(s: nat, k: nat)
    requires s >= 2 && k < 4 * s - 4
    ensures k + 1 < 4 * s - 4 ==> Adjacent(WalkAt(s, k), WalkAt(s, k + 1))
    ensures k + 1 == 4 * s - 4 ==> Adjacent(WalkAt(s, k), WalkAt(s, 0))
  {
  }

  // ---------------------------------------------------------------------
  // Vertices and indices
  // ---------------------------------------------------------------------

  /** Each cell in turn as two vertices: first with flag first, then with flag second. */
  function Doubled(cells: seq<Cell>, first: int, second: int): seq<SkirtVertex>
    decreases |cells|
  {
    if cells == [] then []
    else
      var last := cells[|cells| - 1];
      Doubled(cells[..|cells| - 1], first, second) + [SkirtVertex(last, first), SkirtVertex(last, second)]
  }

  lemma {:induction false} DoubledSnoc(cells: seq<Cell>, c: Cell, first: int, second: int)
    ensures Doubled(cells + [c], first, second) ==
      Doubled(cells, first, second) + [SkirtVertex(c, first), SkirtVertex(c, second)]
  {
    assert (cells + [c])[..|cells|] == cells;
  }

  lemma {:induction false} DoubledAppend(a: seq<Cell>, b: seq<Cell>, first: int, second: int)
    ensures Doubled(a + b, first, second) == Doubled(a, first, second) + Doubled(b, first, second)
    decreases |b|
  {
    if b != [] {
      var init, last := b[..|b| - 1], b[|b| - 1];
      assert b == init + [last];
      assert a + b == (a + init) + [last];
      DoubledAppend(a, init, first, second);
      DoubledSnoc(a + init, last, first, second);
      DoubledSnoc(init, last, first, second);
      var pair := [SkirtVertex(last, first), SkirtVertex(last, second)];
      assert Doubled(a + b, first, second) == Doubled(a, first, second) + Doubled(init, first, second) + pair;
      assert Doubled(b, first, second) == Doubled(init, first, second) + pair;
      assert Doubled(a, first, second) + Doubled(init, first, second) + pair
        == Doubled(a, first, second) + (Doubled(init, first, second) + pair);
    } else {
      assert a + b == a;
    }
  }

  /** One step of the left-column loop: the prefix for row i is the prefix before it plus cell (0, i). */
  lemma {:induction false} LeftColumnStep(s: nat, i: int, first: int, second: int)
    requires 1 <= i <= s - 2
    ensures Doubled(LeftColumn(s)[..s - 1 - i], first, second) ==
      Doubled(LeftColumn(s)[..s - 2 - i], first, second) + [SkirtVertex(Cell(0, i), first), SkirtVertex(Cell(0, i), second)]
  {
    assert LeftColumn(s)[..s - 1 - i] == LeftColumn(s)[..s - 2 - i] + [Cell(0, i)];
    DoubledSnoc(LeftColumn(s)[..s - 2 - i], Cell(0, i), first, second);
  }

  /** Vertex 2k is cell k with flag first, vertex 2k + 1 the same cell with flag second. */
  lemma {:induction false} DoubledAt(cells: seq<Cell>, first: int, second: int)
    ensures |Doubled(cells, first, second)| == 2 * |cells|
    ensures forall k :: 0 <= k < |cells| ==>
      Doubled(cells, first, second)[2 * k] == SkirtVertex(cells[k], first) &&
      Doubled(cells, first, second)[2 * k + 1] == SkirtVertex(cells[k], second)
    decreases |cells|
  {
    if cells != [] {
      var init := cells[..|cells| - 1];
      DoubledAt(init, first, second);
      forall k | 0 <= k < |init| ensures init[k] == cells[k] { }
    }
  }

  /** What loadVertices appends: the walk, each cell as its lowered copy (flag 1) then the original (flag 0). */
  function SkirtVertices(s: nat): seq<SkirtVertex>
  {
    Doubled(BorderWalk(s), 1, 0)
  }

  /**
   * For s >= 2: 2 * (4s - 4) vertices of three floats each, that is
   * 6 * (4s - 4) floats; the two vertices of the k-th cell of the walk
   * share its position and differ only in the flag, 1 then 0.
   */
  lemma {:induction false} SkirtVerticesLayout(s: nat, k: nat)
    requires s >= 2 && k < 4 * s - 4
    ensures 3 * |SkirtVertices(s)| == 6 * (4 * s - 4)
    ensures SkirtVertices(s)[2 * k] == SkirtVertex(WalkAt(s, k), 1)
    ensures SkirtVertices(s)[2 * k + 1] == SkirtVertex(WalkAt(s, k), 0)
  {
    BorderWalkShape(s, k);
    DoubledAt(BorderWalk(s), 1, 0);
  }

  /** The vertices come segment by segment, in the order of the four loops of loadVertices. */
  lemma {:induction false} SkirtVerticesBySegment(s: nat)
    ensures SkirtVertices(s) == Doubled(TopRow(s), 1, 0) + Doubled(RightColumn(s), 1, 0)
      + Doubled(BottomRow(s), 1, 0) + Doubled(LeftColumn(s), 1, 0)
  {
    DoubledAppend(TopRow(s), RightColumn(s), 1, 0);
    DoubledAppend(TopRow(s) + RightColumn(s), BottomRow(s), 1, 0);
    DoubledAppend(TopRow(s) + RightColumn(s) + BottomRow(s), LeftColumn(s), 1, 0);
  }

  /** The four segments appended one after another are the walk's vertices appended at once. */
  lemma {:induction false} AppendSegments(start: seq<SkirtVertex>, a: seq<SkirtVertex>, b: seq<SkirtVertex>, c: seq<SkirtVertex>, d: seq<SkirtVertex>)
    ensures start + a + b + c + d == start + (a + b + c + d)
  {
    assert start + a + b == start + (a + b);
    assert start + (a + b) + c == start + (a + b + c);
  }

  /** A side of s >= 2 gives 8s - 8 vertices, a side of 1 gives 4. */
  lemma {:induction false} SkirtVertexCount(s: nat)
    requires s >= 1
    ensures s >= 2 ==> |SkirtVertices(s)| == 8 * s - 8
    ensures s == 1 ==> |SkirtVertices(s)| == 4
  {
    BorderWalkShape(s, 0);
    DoubledAt(BorderWalk(s), 1, 0);
  }

  /** The indices 0 .. n - 1 in order. */
  function Range(n: nat): seq<U32>
    requires n <= U32_MODULUS
  {
    seq(n, i => i)
  }

  /** What loadIndices appends for n vertices: every vertex in order, then 0 and 1 to wrap the strip around. */
  function SkirtIndices(n: nat): seq<U32>
    requires n < U32_MODULUS
  {
    Range(n) + [0, 1]
  }

  /**
   * With n >= 2 vertices there are n + 2 indices, all below n; index k
   * names vertex k, and the two closing ones return to vertex 0 and 1.
   */
  lemma {:induction false} SkirtIndicesBounded(n: nat)
    requires 2 <= n < U32_MODULUS
    ensures |SkirtIndices(n)| == n + 2
    ensures forall k :: 0 <= k < n + 2 ==> SkirtIndices(n)[k] < n
    ensures forall k :: 0 <= k < n ==> SkirtIndices(n)[k] == k
    ensures SkirtIndices(n)[n] == 0 && SkirtIndices(n)[n + 1] == 1
  {
  }

  /**
   * The wrap closes the skirt: after the last pair of the walk, at the cell
   * next to the start, the strip returns to the first cell, lowered copy
   * then original. (A mesh with 2 vertices, s = 1, is degenerate.)
   */
  lemma {:induction false} SkirtStripCloses(s: nat)
    requires 2 <= s <= 0x2000_0000
    ensures |SkirtVertices(s)| == 8 * s - 8
    ensures SkirtVertices(s)[SkirtIndices(|SkirtVertices(s)|)[|SkirtVertices(s)|]] == SkirtVertex(Cell(0, 0), 1)
    ensures SkirtVertices(s)[SkirtIndices(|SkirtVertices(s)|)[|SkirtVertices(s)| + 1]] == SkirtVertex(Cell(0, 0), 0)
    ensures Adjacent(SkirtVertices(s)[|SkirtVertices(s)| - 1].cell, Cell(0, 0))
  {
    var n := 4 * s - 4;
    SkirtVerticesLayout(s, 0);
    SkirtVerticesLayout(s, n - 1);
    WalkIsClosedPath(s, n - 1);
    assert 2 * (n - 1) + 1 == |SkirtVertices(s)| - 1;
  }

  // ---------------------------------------------------------------------
  // The object
  // ---------------------------------------------------------------------

  class SkirtMesh {
    const sideLength: U32
    var vertices: seq<SkirtVertex>
    var indices: seq<U32>

    constructor (side: U32)
      ensures sideLength == side && vertices == [] && indices == []
    {
      sideLength := side;
      vertices, indices := [], [];
    }

    /** load: the vertices, then the indices over all vertices held. */
    method Load()
      requires 1 <= sideLength <= INT_MAX && |vertices| + 8 * sideLength < U32_MODULUS
      modifies this
      ensures vertices == old(vertices) + SkirtVertices(sideLength)
      ensures |vertices| < U32_MODULUS
      ensures indices == old(indices) + SkirtIndices(|vertices|)
    {
      LoadVertices();
      SkirtVertexCount(sideLength);
      LoadIndices();
    }

    /**
     * loadVertices: the four loops of the walk. The loop counters are int,
     * so the side must stay within int, and a side of 0 would make the
     * right-column loop run on past the largest int.
     */
    method LoadVertices()
      requires 1 <= sideLength <= INT_MAX
      modifies this
      ensures vertices == old(vertices) + SkirtVertices(sideLength)
      ensures indices == old(indices)
    {
      ghost var start := vertices;
      PushTopRow();
      PushRightColumn();
      PushBottomRow();
      PushLeftColumn();
      var s := sideLength;
      AppendSegments(start, Doubled(TopRow(s), 1, 0), Doubled(RightColumn(s), 1, 0), Doubled(BottomRow(s), 1, 0), Doubled(LeftColumn(s), 1, 0));
      SkirtVerticesBySegment(s);
    }

    /** First loop of loadVertices: the top row, left to right. */
    method PushTopRow()
      requires sideLength <= INT_MAX
      modifies this
      ensures vertices == old(vertices) + Doubled(TopRow(sideLength), 1, 0)
      ensures indices == old(indices)
    {
      var s := sideLength;
      var j := 0;
      while j < s
        invariant 0 <= j <= s && indices == old(indices)
        invariant vertices == old(vertices) + Doubled(TopRow(s)[..j], 1, 0)
      {
        assert TopRow(s)[..j + 1] == TopRow(s)[..j] + [Cell(j, 0)];
        DoubledSnoc(TopRow(s)[..j], Cell(j, 0), 1, 0);
        vertices := vertices + [SkirtVertex(Cell(j, 0), 1), SkirtVertex(Cell(j, 0), 0)];
        j := j + 1;
      }
      assert TopRow(s)[..j] == TopRow(s);
    }

    /** Second loop: the right column, top to bottom, without its two corners. */
    method PushRightColumn()
      requires 1 <= sideLength <= INT_MAX
      modifies this
      ensures vertices == old(vertices) + Doubled(RightColumn(sideLength), 1, 0)
      ensures indices == old(indices)
    {
      var s := sideLength;
      var i: int := 1;
      while i < s - 1
        invariant (if s >= 2 then 1 <= i <= s - 1 else i == 1) && indices == old(indices)
        invariant vertices == old(vertices) + Doubled(RightColumn(s)[..i - 1], 1, 0)
      {
        assert RightColumn(s)[..i] == RightColumn(s)[..i - 1] + [Cell(s - 1, i)];
        DoubledSnoc(RightColumn(s)[..i - 1], Cell(s - 1, i), 1, 0);
        vertices := vertices + [SkirtVertex(Cell(s - 1, i), 1), SkirtVertex(Cell(s - 1, i), 0)];
        i := i + 1;
      }
      assert RightColumn(s)[..i - 1] == RightColumn(s);
    }

    /** Third loop: the bottom row, right to left. */
    method PushBottomRow()
      requires 1 <= sideLength <= INT_MAX
      modifies this
      ensures vertices == old(vertices) + Doubled(BottomRow(sideLength), 1, 0)
      ensures indices == old(indices)
    {
      var s := sideLength;
      var j: int := s - 1;
      while j >= 0
        invariant -1 <= j <= s - 1 && indices == old(indices)
        invariant vertices == old(vertices) + Doubled(BottomRow(s)[..s - 1 - j], 1, 0)
      {
        assert BottomRow(s)[..s - j] == BottomRow(s)[..s - 1 - j] + [Cell(j, s - 1)];
        DoubledSnoc(BottomRow(s)[..s - 1 - j], Cell(j, s - 1), 1, 0);
        vertices := vertices + [SkirtVertex(Cell(j, s - 1), 1), SkirtVertex(Cell(j, s - 1), 0)];
        j := j - 1;
      }
      assert BottomRow(s)[..s - 1 - j] == BottomRow(s);
    }

    /** Fourth loop: the left column, bottom to top, without its two corners. */
    method PushLeftColumn()
      requires 1 <= sideLength <= INT_MAX
      modifies this
      ensures vertices == old(vertices) + Doubled(LeftColumn(sideLength), 1, 0)
      ensures indices == old(indices)
    {
      var s := sideLength;
      var i: int := s - 2;
      while i >= 1
        invariant -1 <= i <= s - 2 && 0 <= s - 2 - i <= |LeftColumn(s)| && indices == old(indices)
        invariant vertices == old(vertices) + Doubled(LeftColumn(s)[..s - 2 - i], 1, 0)
      {
        LeftColumnStep(s, i, 1, 0);
        vertices := vertices + [SkirtVertex(Cell(0, i), 1), SkirtVertex(Cell(0, i), 0)];
        i := i - 1;
      }
      assert LeftColumn(s)[..s - 2 - i] == LeftColumn(s);
    }

    /**
     * loadIndices: one index per vertex held, then 0 and 1 to close the
     * strip. The counter is unsigned, so fewer than 2^32 vertices are needed
     * for the loop to end.
     */
    method LoadIndices()
      requires |vertices| < U32_MODULUS
      modifies this
      ensures vertices == old(vertices)
      ensures indices == old(indices) + SkirtIndices(|vertices|)
    {
      var i := 0;
      while i < |vertices|
        invariant vertices == old(vertices)
        invariant 0 <= i <= |vertices|
        invariant indices == old(indices) + Range(i)
      {
        assert Range(i + 1) == Range(i) + [i];
        indices := indices + [i];
        i := i + 1;
      }
      indices := indices + [0, 1];
    }
  }
}
