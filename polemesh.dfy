/**
 * The pole cap: a fan around the pole, drawn as one triangle strip that
 * alternates between the rim points and the centre.
 */
module PoleMeshes {
  import opened TileKeys

  /**
   * A vertex of the cap, two floats each: the centre (0, 0), or rim point
   * i at angle i * 360 / n degrees (its cosine and sine are not modelled).
   */
  datatype PoleVertex = Centre | Rim(i: nat)

  /** What loadVertices appends: the centre, then the n rim points in angle order. */
  function PoleVertices(n: nat): seq<PoleVertex>
  {
    [Centre] + RimPoints(n)
  }

  /** Rim points 0 .. n - 1. */
  function RimPoints(n: nat): seq<PoleVertex>
  {
    seq(n, i requires 0 <= i => Rim(i))
  }

  /** The first n steps of the loop of loadIndices: rim point i + 1 (vertex index), then the centre. */
  function FanPairs(n: nat): seq<U32>
    requires n < U32_MODULUS
  {
    if n == 0 then [] else FanPairs(n - 1) + [n, 0]
  }

  /** What loadIndices appends: the fan, then vertex 1 once more to close it. */
  function PoleIndices(n: nat): seq<U32>
    requires n < U32_MODULUS
  {
    FanPairs(n) + [1]
  }

  /** The centre plus n rim points: 2 + 2n floats; vertex i + 1 is rim point i. */
  lemma {:induction false} PoleVerticesLayout(n: nat)
    ensures 2 * |PoleVertices(n)| == 2 + 2 * n
    ensures PoleVertices(n)[0] == Centre
    ensures forall i :: 0 <= i < n ==> PoleVertices(n)[i + 1] == Rim(i)
  {
  }

  /** Position 2i of the fan holds i + 1, position 2i + 1 the centre. */
  lemma {:induction false} FanPairsAt(n: nat)
    requires n < U32_MODULUS
    ensures |FanPairs(n)| == 2 * n
    ensures forall i :: 0 <= i < n ==> FanPairs(n)[2 * i] == i + 1 && FanPairs(n)[2 * i + 1] == 0
  {
    if n > 0 {
      FanPairsAt(n - 1);
      forall i | 0 <= i < n
        ensures FanPairs(n)[2 * i] == i + 1 && FanPairs(n)[2 * i + 1] == 0
      {
        if i < n - 1 {
          assert FanPairs(n)[2 * i] == FanPairs(n - 1)[2 * i];
          assert FanPairs(n)[2 * i + 1] == FanPairs(n - 1)[2 * i + 1];
        }
      }
    }
  }

  /**
   * 2n + 1 indices: every odd position is the centre, position 2i is
   * vertex i + 1, and the last index is 1, closing the fan at the first rim
   * point. With n >= 1 every index is at most n, a vertex of the cap.
   */
  lemma {:induction false} PoleIndicesLayout(n: nat)
    requires n < U32_MODULUS
    ensures |PoleIndices(n)| == 2 * n + 1
    ensures forall i :: 0 <= i < n ==> PoleIndices(n)[2 * i] == i + 1 && PoleIndices(n)[2 * i + 1] == 0
    ensures PoleIndices(n)[2 * n] == 1
    ensures n >= 1 ==> forall k :: 0 <= k < |PoleIndices(n)| ==> PoleIndices(n)[k] <= n < |PoleVertices(n)|
  {
    FanPairsAt(n);
    var r := PoleIndices(n);
    forall i | 0 <= i < n ensures r[2 * i] == i + 1 && r[2 * i + 1] == 0 {
      assert r[2 * i] == FanPairs(n)[2 * i];
      assert r[2 * i + 1] == FanPairs(n)[2 * i + 1];
    }
    if n >= 1 {
      forall k | 0 <= k < |r| ensures r[k] <= n {
        if k < 2 * n {
          var i := k / 2;
          assert k == 2 * i || k == 2 * i + 1;
        }
      }
    }
  }

  /** The strip alternates rim point i and the centre, and ends on rim point 0. */
  lemma {:induction false} PoleFanVertices(n: nat, i: nat)
    requires 1 <= n < U32_MODULUS && i < n
    ensures |PoleIndices(n)| == 2 * n + 1 && |PoleVertices(n)| == n + 1
    ensures PoleIndices(n)[2 * i] == i + 1 && PoleIndices(n)[2 * i + 1] == 0 && PoleIndices(n)[2 * n] == 1
    ensures PoleVertices(n)[PoleIndices(n)[2 * i]] == Rim(i)
    ensures PoleVertices(n)[PoleIndices(n)[2 * i + 1]] == Centre
    ensures PoleVertices(n)[PoleIndices(n)[2 * n]] == Rim(0)
  {
    PoleIndicesLayout(n);
    PoleVerticesLayout(n);
  }

  /** With no rim points the only index, 1, names no vertex: the mesh needs n >= 1. */
  lemma {:induction false} EmptyPoleOutOfRange()
    ensures PoleIndices(0) == [1] && |PoleVertices(0)| == 1
  {
  }

  class PoleMesh {
    const numRadians: U32
    var vertices: seq<PoleVertex>
    var indices: seq<U32>

    constructor (n: U32)
      ensures numRadians == n && vertices == [] && indices == []
    {
      numRadians := n;
      vertices, indices := [], [];
    }

    /** load: the vertices, then the indices. */
    method Load()
      modifies this
      ensures vertices == old(vertices) + PoleVertices(numRadians)
      ensures indices == old(indices) + PoleIndices(numRadians)
    {
      LoadVertices();
      LoadIndices();
    }

    /** loadVertices: the centre, then one rim point per step. */
    method LoadVertices()
      modifies this
      ensures vertices == old(vertices) + PoleVertices(numRadians)
      ensures indices == old(indices)
    {
      vertices := vertices + [Centre];
      var i := 0;
      while i < numRadians
        invariant 0 <= i <= numRadians && indices == old(indices)
        invariant vertices == old(vertices) + [Centre] + RimPoints(i)
      {
        assert RimPoints(i + 1) == RimPoints(i) + [Rim(i)];
        vertices := vertices + [Rim(i)];
        i := i + 1;
      }
    }

    /** loadIndices: rim point and centre per step, then 1 to close the fan. */
    method LoadIndices()
      modifies this
      ensures indices == old(indices) + PoleIndices(numRadians)
      ensures vertices == old(vertices)
    {
      var i := 0;
      while i < numRadians
        invariant 0 <= i <= numRadians && vertices == old(vertices)
        invariant indices == old(indices) + FanPairs(i)
      {
        indices := indices + [i + 1, 0];
        i := i + 1;
      }
      indices := indices + [1];
    }
  }
}
