/**
 * The prototype skirt mesh of the terrain directory: the same clockwise
 * walk over the border cells as the current skirt mesh, but each cell
 * yields its original vertex (flag 0) before its lowered copy (flag 1),
 * and the index buffer lists the vertices once, without closing the strip.
 */
module TerrainSkirtMeshes {
  import opened TileKeys
  import opened SkirtMeshes

  /** What the prototype loadVertices appends: the walk, each cell as flag 0 then flag 1. */
  function PrototypeVertices(s: nat): seq<SkirtVertex>
  {
    Doubled(BorderWalk(s), 0, 1)
  }

  /**
   * For s >= 2: 6 * (4s - 4) floats; the k-th cell of the walk gives
   * vertices 2k (flag 0) and 2k + 1 (flag 1).
   */
  lemma {:induction false} PrototypeVerticesLayout(s: nat, k: nat)
    requires s >= 2 && k < 4 * s - 4
    ensures 3 * |PrototypeVertices(s)| == 6 * (4 * s - 4)
    ensures PrototypeVertices(s)[2 * k] == SkirtVertex(WalkAt(s, k), 0)
    ensures PrototypeVertices(s)[2 * k + 1] == SkirtVertex(WalkAt(s, k), 1)
  {
    BorderWalkShape(s, k);
    DoubledAt(BorderWalk(s), 0, 1);
  }

  /** The walk order is the current one, and each pair holds the current pair in reverse. */
  lemma {:induction false} FlagsReversed(s: nat, k: nat)
    requires s >= 2 && k < 4 * s - 4
    ensures |PrototypeVertices(s)| == |SkirtVertices(s)| == 8 * s - 8
    ensures PrototypeVertices(s)[2 * k] == SkirtVertices(s)[2 * k + 1]
    ensures PrototypeVertices(s)[2 * k + 1] == SkirtVertices(s)[2 * k]
  {
    PrototypeVerticesLayout(s, k);
    SkirtVerticesLayout(s, k);
  }

  /** The vertices come segment by segment, in the order of the four loops. */
  lemma {:induction false} PrototypeVerticesBySegment(s: nat)
    ensures PrototypeVertices(s) == Doubled(TopRow(s), 0, 1) + Doubled(RightColumn(s), 0, 1)
      + Doubled(BottomRow(s), 0, 1) + Doubled(LeftColumn(s), 0, 1)
  {
    DoubledAppend(TopRow(s), RightColumn(s), 0, 1);
    DoubledAppend(TopRow(s) + RightColumn(s), BottomRow(s), 0, 1);
    DoubledAppend(TopRow(s) + RightColumn(s) + BottomRow(s), LeftColumn(s), 0, 1);
  }

  /** A side of s >= 2 gives 8s - 8 vertices, a side of 1 gives 4. */
  lemma {:induction false} PrototypeVertexCount(s: nat)
    requires s >= 1
    ensures s >= 2 ==> |PrototypeVertices(s)| == 8 * s - 8
    ensures s == 1 ==> |PrototypeVertices(s)| == 4
  {
    BorderWalkShape(s, 0);
    DoubledAt(BorderWalk(s), 0, 1);
  }

  /** The prototype indices for n vertices: exactly 0 .. n - 1, each below n, and no wrap. */
  lemma {:induction false} PrototypeIndicesBounded(n: nat)
    requires n < U32_MODULUS
    ensures |Range(n)| == n
    ensures forall k :: 0 <= k < n ==> Range(n)[k] == k && Range(n)[k] < n
  {
  }

  class SkirtMesh {
    const sideLength: U32
    var vertices: seq<SkirtVertex>
    var indices: seq<U32>

    constructor (side: U32)
      ensures sideLength == side && vertices == [] && indices == []
    {
      sideLength := side;
      vertices, indices := [], [];
    }

    /** load: the vertices, then one index per vertex held. */
    method Load()
      requires 1 <= sideLength <= INT_MAX && |vertices| + 8 * sideLength < U32_MODULUS
      modifies this
      ensures vertices == old(vertices) + PrototypeVertices(sideLength)
      ensures |vertices| < U32_MODULUS
      ensures indices == old(indices) + Range(|vertices|)
    {
      LoadVertices();
      PrototypeVertexCount(sideLength);
      LoadIndices();
    }

    /** loadVertices: the four loops of the walk, with int counters as in the current mesh. */
    method LoadVertices()
      requires 1 <= sideLength <= INT_MAX
      modifies this
      ensures vertices == old(vertices) + PrototypeVertices(sideLength)
      ensures indices == old(indices)
    {
      ghost var start := vertices;
      PushTopRow();
      PushRightColumn();
      PushBottomRow();
      PushLeftColumn();
      var s := sideLength;
      AppendSegments(start, Doubled(TopRow(s), 0, 1), Doubled(RightColumn(s), 0, 1), Doubled(BottomRow(s), 0, 1), Doubled(LeftColumn(s), 0, 1));
      PrototypeVerticesBySegment(s);
    }

    /** First loop: the top row, left to right. */
    method PushTopRow()
      requires sideLength <= INT_MAX
      modifies this
      ensures vertices == old(vertices) + Doubled(TopRow(sideLength), 0, 1)
      ensures indices == old(indices)
    {
      var s := sideLength;
      var j := 0;
      while j < s
        invariant 0 <= j <= s && indices == old(indices)
        invariant vertices == old(vertices) + Doubled(TopRow(s)[..j], 0, 1)
      {
        assert TopRow(s)[..j + 1] == TopRow(s)[..j] + [Cell(j, 0)];
        DoubledSnoc(TopRow(s)[..j], Cell(j, 0), 0, 1);
        vertices := vertices + [SkirtVertex(Cell(j, 0), 0), SkirtVertex(Cell(j, 0), 1)];
        j := j + 1;
      }
      assert TopRow(s)[..j] == TopRow(s);
    }

    /** Second loop: the right column, top to bottom, without its two corners. */
    method PushRightColumn()
      requires 1 <= sideLength <= INT_MAX
      modifies this
      ensures vertices == old(vertices) + Doubled(RightColumn(sideLength), 0, 1)
      ensures indices == old(indices)
    {
      var s := sideLength;
      var i: int := 1;
      while i < s - 1
        invariant (if s >= 2 then 1 <= i <= s - 1 else i == 1) && indices == old(indices)
        invariant vertices == old(vertices) + Doubled(RightColumn(s)[..i - 1], 0, 1)
      {
        assert RightColumn(s)[..i] == RightColumn(s)[..i - 1] + [Cell(s - 1, i)];
        DoubledSnoc(RightColumn(s)[..i - 1], Cell(s - 1, i), 0, 1);
        vertices := vertices + [SkirtVertex(Cell(s - 1, i), 0), SkirtVertex(Cell(s - 1, i), 1)];
        i := i + 1;
      }
      assert RightColumn(s)[..i - 1] == RightColumn(s);
    }

    /** Third loop: the bottom row, right to left. */
    method PushBottomRow()
      requires 1 <= sideLength <= INT_MAX
      modifies this
      ensures vertices == old(vertices) + Doubled(BottomRow(sideLength), 0, 1)
      ensures indices == old(indices)
    {
      var s := sideLength;
      var j: int := s - 1;
      while j >= 0
        invariant -1 <= j <= s - 1 && indices == old(indices)
        invariant vertices == old(vertices) + Doubled(BottomRow(s)[..s - 1 - j], 0, 1)
      {
        assert BottomRow(s)[..s - j] == BottomRow(s)[..s - 1 - j] + [Cell(j, s - 1)];
        DoubledSnoc(BottomRow(s)[..s - 1 - j], Cell(j, s - 1), 0, 1);
        vertices := vertices + [SkirtVertex(Cell(j, s - 1), 0), SkirtVertex(Cell(j, s - 1), 1)];
        j := j - 1;
      }
      assert BottomRow(s)[..s - 1 - j] == BottomRow(s);
    }

    /** Fourth loop: the left column, bottom to top, without its two corners. */
    method PushLeftColumn()
      requires 1 <= sideLength <= INT_MAX
      modifies this
      ensures vertices == old(vertices) + Doubled(LeftColumn(sideLength), 0, 1)
      ensures indices == old(indices)
    {
      var s := sideLength;
      var i: int := s - 2;
      while i >= 1
        invariant -1 <= i <= s - 2 && 0 <= s - 2 - i <= |LeftColumn(s)| && indices == old(indices)
        invariant vertices == old(vertices) + Doubled(LeftColumn(s)[..s - 2 - i], 0, 1)
      {
        LeftColumnStep(s, i, 0, 1);
        vertices := vertices + [SkirtVertex(Cell(0, i), 0), SkirtVertex(Cell(0, i), 1)];
        i := i - 1;
      }
      assert LeftColumn(s)[..s - 2 - i] == LeftColumn(s);
    }

    /** loadIndices: one index per vertex held; the counter is unsigned, so fewer than 2^32 vertices. */
    method LoadIndices()
      requires |vertices| < U32_MODULUS
      modifies this
      ensures vertices == old(vertices)
      ensures indices == old(indices) + Range(|vertices|)
    {
      var i := 0;
      while i < |vertices|
        invariant vertices == old(vertices)
        invariant 0 <= i <= |vertices|
        invariant indices == old(indices) + Range(i)
      {
        assert Range(i + 1) == Range(i) + [i];
        indices := indices + [i];
        i := i + 1;
      }
    }
  }
}
