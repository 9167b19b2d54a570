/**
 * The prototype grid mesh of the terrain directory. Its two loops are
 * those of the current grid mesh, so its buffers are the same functions
 * of the side (GridVertices, GridIndices) and share their layout lemmas.
 */
module TerrainGridMeshes {
  import opened TileKeys
  import opened GridMeshes

  class GridMesh {
    const sideLength: U32
    var vertices: seq<GridVertex>
    var indices: seq<U32>

    constructor (side: U32)
      ensures sideLength == side && vertices == [] && indices == []
    {
      sideLength := side;
      vertices, indices := [], [];
    }

    /** load: the vertices, then the indices. */
    method Load()
      requires sideLength <= INT_MAX
      modifies this
      ensures vertices == old(vertices) + GridVertices(sideLength)
      ensures indices == old(indices) + GridIndices(sideLength)
    {
      LoadVertices();
      LoadIndices();
    }

    /** loadVertices: row by row, each row left to right, with int counters. */
    method LoadVertices()
      requires sideLength <= INT_MAX
      modifies this
      ensures vertices == old(vertices) + GridVertices(sideLength)
      ensures indices == old(indices)
    {
      ghost var start := vertices;
      var i := 0;
      while i < sideLength
        invariant 0 <= i <= sideLength
        invariant vertices == start + LatticeRows(sideLength, i)
        invariant indices == old(indices)
      {
        var j := 0;
        while j < sideLength
          invariant 0 <= j <= sideLength
          invariant vertices == start + LatticeRows(sideLength, i) + RowVertices(i, j)
          invariant indices == old(indices)
        {
          RowStep(start + LatticeRows(sideLength, i), i, j, j + 1);
          vertices := vertices + [GridVertex(j, i)];
          j := j + 1;
        }
        RowsStep(start, sideLength, i, i + 1);
        i := i + 1;
      }
    }

    /** loadIndices: for each row pair, the zig-zag strip and the restart marker. */
    method LoadIndices()
      modifies this
      ensures indices == old(indices) + GridIndices(sideLength)
      ensures vertices == old(vertices)
    {
      var rows := RowCount(sideLength);
      var i := 0;
      while i < rows
        invariant 0 <= i <= rows
        invariant indices == old(indices) + Strips(sideLength, i)
        invariant vertices == old(vertices)
      {
        PushStrip(i);
        i := i + 1;
      }
    }

    /** The body of the outer loop of loadIndices: the strip of row i. */
    method PushStrip(i: nat)
      modifies this
      ensures indices == old(indices) + Strip(sideLength, i)
      ensures vertices == old(vertices)
    {
      var j := 0;
      while j < sideLength
        invariant 0 <= j <= sideLength
        invariant indices == old(indices) + StripPairs(sideLength, i, j)
        invariant vertices == old(vertices)
      {
        indices := indices + [Wrap(j + sideLength * i), Wrap(j + sideLength * (i + 1))];
        j := j + 1;
      }
      indices := indices + [RESTART_INDEX];
    }
  }
}
