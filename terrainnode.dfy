/**
 * A terrain node: one loaded tile with its 512x512 Terrain-RGB height
 * raster, the range of its raw height codes, its bounding box and the
 * two sets of 3x3 sample points used for culling.
 */
module Nodes {
  import opened Wrappers
  import opened TileKeys

  /** The raster is 512 pixels square. */
  const RASTER_SIDE: nat := 512
  /** Three bytes (R, G, B) per pixel. */
  const RASTER_BYTES: nat := 786432

  /** An unsigned char. */
  newtype Byte = b: int | 0 <= b < 256

  /** A decoded height image of the size the node assumes. */
  type Raster = s: seq<Byte> | |s| == RASTER_BYTES witness seq(786432, i => 0 as Byte)

  /** Raw codes lie below 2^24; these start values lie outside that range on either side. */
  const CODE_LIMIT: int := 0x100_0000
  const NO_MIN_CODE: int := 0x100_0000
  const NO_MAX_CODE: int := -1

  /** getHeight's byte offset (y*512 + x)*3, in unsigned 32-bit arithmetic. */
  function PixelOffset(x: U32, y: U32): U32
  {
    ((y * 512 + x) * 3) % U32_MODULUS
  }

  /** Inside the raster the offset does not wrap and its three bytes lie in the buffer. */
  lemma {:induction false} PixelOffsetInRaster(x: U32, y: U32)
    requires x < RASTER_SIDE && y < RASTER_SIDE
    ensures PixelOffset(x, y) == (y * 512 + x) * 3
    ensures PixelOffset(x, y) + 2 < RASTER_BYTES
  {
    assert y * 512 + x <= 511 * 512 + 511;
  }

  /** Different pixels read different, non-overlapping byte triples. */
  lemma {:induction false} PixelOffsetsApart(x1: U32, y1: U32, x2: U32, y2: U32)
    requires x1 < RASTER_SIDE && y1 < RASTER_SIDE && x2 < RASTER_SIDE && y2 < RASTER_SIDE
    requires x1 != x2 || y1 != y2
    ensures PixelOffset(x1, y1) + 3 <= PixelOffset(x2, y2) || PixelOffset(x2, y2) + 3 <= PixelOffset(x1, y1)
  {
    PixelOffsetInRaster(x1, y1);
    PixelOffsetInRaster(x2, y2);
    if y1 == y2 {
      assert x1 != x2;
    } else if y1 < y2 {
      assert y1 * 512 + 512 <= y2 * 512;
    } else {
      assert y2 * 512 + 512 <= y1 * 512;
    }
  }

  /** getHeight: the red, green and blue bytes of pixel (x, y). */
  function GetHeight(h: Raster, x: U32, y: U32): (Byte, Byte, Byte)
    requires x < RASTER_SIDE && y < RASTER_SIDE
  {
    PixelOffsetInRaster(x, y);
    var i := PixelOffset(x, y);
    (h[i], h[i + 1], h[i + 2])
  }

  /** The Terrain-RGB raw code r*65536 + g*256 + b. */
  function RawCode(rgb: (Byte, Byte, Byte)): int
  {
    rgb.0 as int * 65536 + rgb.1 as int * 256 + rgb.2 as int
  }

  lemma {:induction false} DivMod256(q: int, d: int)
    requires 0 <= d < 256
    ensures (q * 256 + d) / 256 == q && (q * 256 + d) % 256 == d
  {
  }

  lemma {:induction false} DivMod65536(q: int, d: int)
    requires 0 <= d < 65536
    ensures (q * 65536 + d) / 65536 == q
  {
  }

  /** Base-256 digits r, g, b make the number r*65536 + g*256 + b, and division recovers them. */
  lemma {:induction false} Base256Digits(r: int, g: int, b: int)
    requires 0 <= r < 256 && 0 <= g < 256 && 0 <= b < 256
    ensures 0 <= r * 65536 + g * 256 + b < CODE_LIMIT
    ensures (r * 65536 + g * 256 + b) / 65536 == r
    ensures (r * 65536 + g * 256 + b) / 256 % 256 == g
    ensures (r * 65536 + g * 256 + b) % 256 == b
  {
    DivMod65536(r, g * 256 + b);
    assert r * 65536 + g * 256 + b == (r * 256 + g) * 256 + b;
    DivMod256(r * 256 + g, b);
    DivMod256(r, g);
  }

  /** The raw code lies in [0, 2^24) and the three bytes are its base-256 digits. */
  lemma {:induction false} RawCodeDigits(rgb: (Byte, Byte, Byte))
    ensures 0 <= RawCode(rgb) < CODE_LIMIT
    ensures RawCode(rgb) / 65536 == rgb.0 as int
    ensures RawCode(rgb) / 256 % 256 == rgb.1 as int
    ensures RawCode(rgb) % 256 == rgb.2 as int
  {
    Base256Digits(rgb.0 as int, rgb.1 as int, rgb.2 as int);
  }

  /** The raw code of pixel (x, y). */
  function CodeAt(h: Raster, x: U32, y: U32): int
    requires x < RASTER_SIDE && y < RASTER_SIDE
  {
    RawCode(GetHeight(h, x, y))
  }

  /** getScaledHeight, in exact arithmetic: metres -10000 + code/10, times the height scale. */
  function ScaledHeight(code: int, scale: real): real
  {
    (-10000.0 + code as real * 0.1) * scale
  }

  /** With a positive scale the scaled height strictly increases with the code. */
  lemma {:induction false} ScaledHeightIncreasing(c1: int, c2: int, scale: real)
    requires scale > 0.0 && c1 < c2
    ensures ScaledHeight(c1, scale) < ScaledHeight(c2, scale)
  {
    var a := -10000.0 + c1 as real * 0.1;
    var b := -10000.0 + c2 as real * 0.1;
    assert a < b;
    assert b * scale - a * scale == (b - a) * scale;
  }

  /**
   * What generateMinMaxHeight leaves on a new node: started from the
   * sentinels, both ends are real codes, min <= max, and the scaled
   * heights bound every pixel's scaled height.
   */
  lemma {:induction false} MinMaxAfterScan(h: Raster, lo: int, hi: int, scale: real)
    requires forall x: U32, y: U32 :: x < RASTER_SIDE && y < RASTER_SIDE ==> lo <= CodeAt(h, x, y) <= hi
    requires lo == NO_MIN_CODE || exists x: U32, y: U32 :: x < RASTER_SIDE && y < RASTER_SIDE && lo == CodeAt(h, x, y)
    requires hi == NO_MAX_CODE || exists x: U32, y: U32 :: x < RASTER_SIDE && y < RASTER_SIDE && hi == CodeAt(h, x, y)
    requires scale > 0.0
    ensures 0 <= lo <= hi < CODE_LIMIT
    ensures forall x: U32, y: U32 :: x < RASTER_SIDE && y < RASTER_SIDE ==>
      ScaledHeight(lo, scale) <= ScaledHeight(CodeAt(h, x, y), scale) <= ScaledHeight(hi, scale)
  {
    RawCodeDigits(GetHeight(h, 0, 0));
    assert lo <= CodeAt(h, 0, 0) <= hi;
    if lo != NO_MIN_CODE {
      var x: U32, y: U32 :| x < RASTER_SIDE && y < RASTER_SIDE && lo == CodeAt(h, x, y);
      RawCodeDigits(GetHeight(h, x, y));
    }
    if hi != NO_MAX_CODE {
      var x: U32, y: U32 :| x < RASTER_SIDE && y < RASTER_SIDE && hi == CodeAt(h, x, y);
      RawCodeDigits(GetHeight(h, x, y));
    }
    forall x: U32, y: U32 | x < RASTER_SIDE && y < RASTER_SIDE
      ensures ScaledHeight(lo, scale) <= ScaledHeight(CodeAt(h, x, y), scale) <= ScaledHeight(hi, scale)
    {
      var c := CodeAt(h, x, y);
      if lo < c {
        ScaledHeightIncreasing(lo, c, scale);
      }
      if c < hi {
        ScaledHeightIncreasing(c, hi, scale);
      }
    }
  }

  // ---- sample points ----

  /** A point at tile fraction (i/2, j/2), at the scaled height of a raw code. */
  datatype Sample = Sample(i: nat, j: nat, code: int)

  /** The 3x3 positions in the order the nested loops visit them: i outer, j inner. */
  const GRID_POSITIONS: seq<(nat, nat)> := [(0, 0), (0, 1), (0, 2), (1, 0), (1, 1), (1, 2), (2, 0), (2, 1), (2, 2)]

  lemma {:induction false} GridPosition(i: nat, j: nat)
    requires i < 3 && j < 3
    ensures 3 * i + j < |GRID_POSITIONS| && GRID_POSITIONS[3 * i + j] == (i, j)
  {
  }

  /** The pixel coordinate the program reads for grid position i: floor(i * 511 / 3). */
  function PixelCoordAsWritten(i: nat): (p: nat)
    ensures i < 3 ==> p < RASTER_SIDE
  {
    i * 511 / 3
  }

  /** As written, the samples read pixels 0, 170 and 340, never the far edge at 511. */
  lemma {:induction false} AsWrittenMissesFarEdge()
    ensures PixelCoordAsWritten(0) == 0
    ensures PixelCoordAsWritten(1) == 170
    ensures PixelCoordAsWritten(2) == 340
    ensures forall i :: 0 <= i < 3 ==> PixelCoordAsWritten(i) < RASTER_SIDE - 1
  {
  }

  /** The pixel under tile fraction i/2: the near edge, the middle and the far edge. */
  function PixelCoord(i: nat): (p: nat)
    requires i < 3
    ensures p < RASTER_SIDE
  {
    i * 511 / 2
  }

  /** The corrected coordinates read the pixels at fractions 0, 1/2 and 1 of the tile. */
  lemma {:induction false} PixelCoordsAtFractions()
    ensures PixelCoord(0) == 0
    ensures PixelCoord(1) == (RASTER_SIDE - 1) / 2
    ensures PixelCoord(2) == RASTER_SIDE - 1
  {
  }

  /** generateProjectedGridPoints before projection: for each of the 3x3 positions, the code of the pixel the program reads. */
  function GridSamples(h: Raster): seq<Sample>
  {
    seq(9, k requires 0 <= k < 9 =>
      var pos := GRID_POSITIONS[k];
      Sample(pos.0, pos.1, CodeAt(h, PixelCoordAsWritten(pos.0), PixelCoordAsWritten(pos.1))))
  }

  /** The grid samples as evidently intended: each position holds the code of the pixel under it. */
  function GridSamplesCorrected(h: Raster): seq<Sample>
  {
    seq(9, k requires 0 <= k < 9 =>
      var pos := GRID_POSITIONS[k];
      Sample(pos.0, pos.1, CodeAt(h, PixelCoord(pos.0), PixelCoord(pos.1))))
  }

  /** generateHorizonPoints before projection: the 3x3 positions, all at the maximum code. */
  function HorizonSamples(maxCode: int): seq<Sample>
  {
    seq(9, k requires 0 <= k < 9 => Sample(GRID_POSITIONS[k].0, GRID_POSITIONS[k].1, maxCode))
  }

  /** Nine grid samples, sample 3i+j at position (i, j) holding the code of pixel (floor(511i/3), floor(511j/3)). */
  lemma {:induction false} GridSamplesLayout(h: Raster, i: nat, j: nat)
    requires i < 3 && j < 3
    ensures |GridSamples(h)| == 9 && |HorizonSamples(0)| == 9
    ensures GridSamples(h)[3 * i + j] == Sample(i, j, CodeAt(h, PixelCoordAsWritten(i), PixelCoordAsWritten(j)))
    ensures forall c :: HorizonSamples(c)[3 * i + j] == Sample(i, j, c)
  {
    GridPosition(i, j);
  }

  /** The corrected samples: sample 3i+j at position (i, j) holds the code of the pixel at tile fraction (i/2, j/2). */
  lemma {:induction false} GridSamplesCorrectedLayout(h: Raster, i: nat, j: nat)
    requires i < 3 && j < 3
    ensures |GridSamplesCorrected(h)| == 9
    ensures GridSamplesCorrected(h)[3 * i + j] == Sample(i, j, CodeAt(h, PixelCoord(i), PixelCoord(j)))
  {
    GridPosition(i, j);
  }

  /**
   * The two sample sets agree at the tile's top-left corner only: on a
   * raster whose codes differ between the pixels involved, every other
   * position reads another pixel than the one under it.
   */
  lemma {:induction false} GridSamplesAgreeAtOrigin(h: Raster, i: nat, j: nat)
    requires i < 3 && j < 3
    ensures (PixelCoordAsWritten(i), PixelCoordAsWritten(j)) == (PixelCoord(i), PixelCoord(j)) <==> i == 0 && j == 0
    ensures i == 0 && j == 0 ==> GridSamples(h)[0] == GridSamplesCorrected(h)[0]
  {
    GridSamplesLayout(h, i, j);
    GridSamplesCorrectedLayout(h, i, j);
    AsWrittenMissesFarEdge();
    PixelCoordsAtFractions();
  }

  // ---- bounding boxes ----

  datatype Vec = Vec(x: real, y: real, z: real)

  datatype Box = Box(lo: Vec, hi: Vec)

  predicate Inside(p: Vec, b: Box)
  {
    b.lo.x <= p.x <= b.hi.x && b.lo.y <= p.y <= b.hi.y && b.lo.z <= p.z <= b.hi.z
  }

  predicate Ordered(b: Box)
  {
    b.lo.x <= b.hi.x && b.lo.y <= b.hi.y && b.lo.z <= b.hi.z
  }

  function Min(a: real, b: real): real { if a <= b then a else b }
  function Max(a: real, b: real): real { if a <= b then b else a }

  /** generateAabbZoom0: the globe's box [-r, r] on every axis. */
  function Zoom0Box(r: real): Box
  {
    Box(Vec(-r, -r, -r), Vec(r, r, r))
  }

  /** generateAabbZoom1: the quarter of the globe's box a zoom-1 tile covers (empty in x and y for other (x, y)). */
  function Zoom1Box(x: U32, y: U32, r: real): Box
  {
    var minX := if (x == 0 || x == 1) && (y == 0 || y == 1) && x == 0 then -r else 0.0;
    var maxX := if (x == 0 || x == 1) && (y == 0 || y == 1) && x == 1 then r else 0.0;
    var minY := if (x == 0 || x == 1) && (y == 0 || y == 1) && y == 1 then -r else 0.0;
    var maxY := if (x == 0 || x == 1) && (y == 0 || y == 1) && y == 0 then r else 0.0;
    Box(Vec(minX, minY, -r), Vec(maxX, maxY, r))
  }

  /** Each zoom-1 box is ordered and inside the zoom-0 box. */
  lemma {:induction false} Zoom1InsideZoom0(x: U32, y: U32, r: real)
    requires r >= 0.0
    ensures Ordered(Zoom1Box(x, y, r))
    ensures Inside(Zoom1Box(x, y, r).lo, Zoom0Box(r)) && Inside(Zoom1Box(x, y, r).hi, Zoom0Box(r))
  {
  }

  /** The four zoom-1 boxes cover the zoom-0 box: x = 0 is the west half, y = 0 the north half. */
  lemma {:induction false} Zoom1Cover(p: Vec, r: real)
    requires r >= 0.0 && Inside(p, Zoom0Box(r))
    ensures Inside(p, Zoom1Box(if p.x <= 0.0 then 0 else 1, if p.y >= 0.0 then 0 else 1, r))
  {
  }

  /** Adding one point to the running box; None stands for the float extremes the fold starts from. */
  function Widen(b: Option<Box>, p: Vec): Box
  {
    match b
    case None => Box(p, p)
    case Some(c) =>
      Box(Vec(Min(c.lo.x, p.x), Min(c.lo.y, p.y), Min(c.lo.z, p.z)),
          Vec(Max(c.hi.x, p.x), Max(c.hi.y, p.y), Max(c.hi.z, p.z)))
  }

  /** The box the min/max fold leaves after the given points, in order. */
  function Bounds(pts: seq<Vec>): (b: Option<Box>)
    ensures b.Some? <==> pts != []
    decreases |pts|
  {
    if pts == [] then None else Some(Widen(Bounds(pts[..|pts| - 1]), pts[|pts| - 1]))
  }

  /** The fold gives the smallest box around the points: ordered, holding each point, each face touched. */
  lemma {:induction false} BoundsTight(pts: seq<Vec>)
    requires pts != []
    ensures Ordered(Bounds(pts).value)
    ensures forall k :: 0 <= k < |pts| ==> Inside(pts[k], Bounds(pts).value)
    ensures exists k :: 0 <= k < |pts| && pts[k].x == Bounds(pts).value.lo.x
    ensures exists k :: 0 <= k < |pts| && pts[k].x == Bounds(pts).value.hi.x
    ensures exists k :: 0 <= k < |pts| && pts[k].y == Bounds(pts).value.lo.y
    ensures exists k :: 0 <= k < |pts| && pts[k].y == Bounds(pts).value.hi.y
    ensures exists k :: 0 <= k < |pts| && pts[k].z == Bounds(pts).value.lo.z
    ensures exists k :: 0 <= k < |pts| && pts[k].z == Bounds(pts).value.hi.z
    decreases |pts|
  {
    var n := |pts| - 1;
    if n > 0 {
      var init := pts[..n];
      BoundsTight(init);
      assert forall k :: 0 <= k < n ==> init[k] == pts[k];
    }
  }

  /**
   * The 18 points generateAabb folds for deeper tiles: for each 3x3
   * position, the point at the minimum code and then at the maximum code,
   * placed on the globe by project.
   */
  function Corners(project: Sample -> Vec, minCode: int, maxCode: int): (c: seq<Vec>)
    ensures |c| == 18
  {
    seq(18, m requires 0 <= m < 18 =>
      var pos := GRID_POSITIONS[m / 2];
      project(Sample(pos.0, pos.1, if m % 2 == 0 then minCode else maxCode)))
  }

  /** Corner 6i+2j lies at position (i, j) at the minimum code, the next one at the maximum. */
  lemma {:induction false} CornerAt(project: Sample -> Vec, minCode: int, maxCode: int, i: nat, j: nat)
    requires i < 3 && j < 3
    ensures Corners(project, minCode, maxCode)[6 * i + 2 * j] == project(Sample(i, j, minCode))
    ensures Corners(project, minCode, maxCode)[6 * i + 2 * j + 1] == project(Sample(i, j, maxCode))
  {
    GridPosition(i, j);
    assert (6 * i + 2 * j) / 2 == 3 * i + j && (6 * i + 2 * j) % 2 == 0;
    assert (6 * i + 2 * j + 1) / 2 == 3 * i + j && (6 * i + 2 * j + 1) % 2 == 1;
  }

  /** One more point widens the fold of the prefix. */
  lemma {:induction false} BoundsSnoc(pts: seq<Vec>, m: nat)
    requires m < |pts|
    ensures Bounds(pts[..m + 1]) == Some(Widen(Bounds(pts[..m]), pts[m]))
  {
    assert pts[..m + 1][..m] == pts[..m];
  }

  /** generateAabb's dispatch on the zoom level. */
  function AabbFor(k: TileKey, r: real, corners: seq<Vec>): Box
    requires corners != []
  {
    if k.z == 0 then Zoom0Box(r)
    else if k.z == 1 then Zoom1Box(k.x, k.y, r)
    else Bounds(corners).value
  }

  /** Whatever the zoom, the box is ordered on every axis. */
  lemma {:induction false} AabbOrdered(k: TileKey, r: real, corners: seq<Vec>)
    requires r >= 0.0 && corners != []
    ensures Ordered(AabbFor(k, r, corners))
  {
    if k.z == 1 {
      Zoom1InsideZoom0(k.x, k.y, r);
    } else if k.z >= 2 {
      BoundsTight(corners);
    }
  }

  /** The exact globe radius: its square is 100000 on each axis. */
  predicate GlobeRadius(r: real)
  {
    r > 0.0 && r * r == 100000.0
  }

  class TerrainNode {
    const tileKey: TileKey
    /** The decoded raster the node owns. */
    const heightData: Raster
    /** The smallest and largest raw height code seen; the heights are their scaled values. */
    var minCode: int
    var maxCode: int
    var aabb: Box
    var projectedGridPoints: seq<Sample>
    var horizonCullingPoints: seq<Sample>

    /** TerrainNode(tileKey) followed by attaching the decoded raster. */
    constructor (tileKey: TileKey, heightData: Raster)
      ensures this.tileKey == tileKey && this.heightData == heightData
      ensures minCode == NO_MIN_CODE && maxCode == NO_MAX_CODE
      ensures projectedGridPoints == [] && horizonCullingPoints == []
    {
      this.tileKey := tileKey;
      this.heightData := heightData;
      minCode := NO_MIN_CODE;
      maxCode := NO_MAX_CODE;
      aabb := Box(Vec(0.0, 0.0, 0.0), Vec(0.0, 0.0, 0.0));
      projectedGridPoints := [];
      horizonCullingPoints := [];
    }

    /** generateMinMaxHeight: fold every pixel's code into the running minimum and maximum. */
    method GenerateMinMaxHeight()
      modifies this
      ensures aabb == old(aabb) && projectedGridPoints == old(projectedGridPoints)
      ensures horizonCullingPoints == old(horizonCullingPoints)
      ensures minCode <= old(minCode) && maxCode >= old(maxCode)
      ensures forall x: U32, y: U32 :: x < RASTER_SIDE && y < RASTER_SIDE ==> minCode <= CodeAt(heightData, x, y) <= maxCode
      ensures minCode == old(minCode) || exists x: U32, y: U32 :: x < RASTER_SIDE && y < RASTER_SIDE && minCode == CodeAt(heightData, x, y)
      ensures maxCode == old(maxCode) || exists x: U32, y: U32 :: x < RASTER_SIDE && y < RASTER_SIDE && maxCode == CodeAt(heightData, x, y)
    {
      var i: U32 := 0;
      while i < 512
        invariant 0 <= i <= 512
        invariant aabb == old(aabb) && projectedGridPoints == old(projectedGridPoints)
        invariant horizonCullingPoints == old(horizonCullingPoints)
        invariant minCode <= old(minCode) && maxCode >= old(maxCode)
        invariant forall x: U32, y: U32 :: x < i && y < RASTER_SIDE ==> minCode <= CodeAt(heightData, x, y) <= maxCode
        invariant minCode == old(minCode) || exists x: U32, y: U32 :: x < RASTER_SIDE && y < RASTER_SIDE && minCode == CodeAt(heightData, x, y)
        invariant maxCode == old(maxCode) || exists x: U32, y: U32 :: x < RASTER_SIDE && y < RASTER_SIDE && maxCode == CodeAt(heightData, x, y)
      {
        FoldColumn(i);
        i := i + 1;
      }
    }

    /** The inner loop of generateMinMaxHeight: fold the codes of pixels (i, 0) .. (i, 511). */
    method FoldColumn(i: U32)
      requires i < RASTER_SIDE
      modifies this
      ensures aabb == old(aabb) && projectedGridPoints == old(projectedGridPoints)
      ensures horizonCullingPoints == old(horizonCullingPoints)
      ensures minCode <= old(minCode) && maxCode >= old(maxCode)
      ensures forall y: U32 :: y < RASTER_SIDE ==> minCode <= CodeAt(heightData, i, y) <= maxCode
      ensures minCode == old(minCode) || exists x: U32, y: U32 :: x < RASTER_SIDE && y < RASTER_SIDE && minCode == CodeAt(heightData, x, y)
      ensures maxCode == old(maxCode) || exists x: U32, y: U32 :: x < RASTER_SIDE && y < RASTER_SIDE && maxCode == CodeAt(heightData, x, y)
    {
      var j: U32 := 0;
      while j < 512
        invariant 0 <= j <= 512
        invariant aabb == old(aabb) && projectedGridPoints == old(projectedGridPoints)
        invariant horizonCullingPoints == old(horizonCullingPoints)
        invariant minCode <= old(minCode) && maxCode >= old(maxCode)
        invariant forall y: U32 :: y < j ==> minCode <= CodeAt(heightData, i, y) <= maxCode
        invariant minCode == old(minCode) || exists x: U32, y: U32 :: x < RASTER_SIDE && y < RASTER_SIDE && minCode == CodeAt(heightData, x, y)
        invariant maxCode == old(maxCode) || exists x: U32, y: U32 :: x < RASTER_SIDE && y < RASTER_SIDE && maxCode == CodeAt(heightData, x, y)
      {
        var code := CodeAt(heightData, i, j);
        if code < minCode {
          minCode := code;
        }
        if code > maxCode {
          maxCode := code;
        }
        j := j + 1;
      }
    }

    /** generateProjectedGridPoints: append the nine grid samples, i outer, j inner. */
    method GenerateProjectedGridPoints()
      modifies this
      ensures minCode == old(minCode) && maxCode == old(maxCode) && aabb == old(aabb)
      ensures horizonCullingPoints == old(horizonCullingPoints)
      ensures projectedGridPoints == old(projectedGridPoints) + GridSamples(heightData)
    {
      var i := 0;
      while i < 3
        invariant 0 <= i <= 3
        invariant minCode == old(minCode) && maxCode == old(maxCode) && aabb == old(aabb)
        invariant horizonCullingPoints == old(horizonCullingPoints)
        invariant projectedGridPoints == old(projectedGridPoints) + GridSamples(heightData)[..3 * i]
      {
        var j := 0;
        while j < 3
          invariant 0 <= j <= 3
          invariant minCode == old(minCode) && maxCode == old(maxCode) && aabb == old(aabb)
          invariant horizonCullingPoints == old(horizonCullingPoints)
          invariant projectedGridPoints == old(projectedGridPoints) + GridSamples(heightData)[..3 * i + j]
        {
          GridSamplesLayout(heightData, i, j);
          projectedGridPoints := projectedGridPoints + [Sample(i, j, CodeAt(heightData, PixelCoordAsWritten(i), PixelCoordAsWritten(j)))];
          assert GridSamples(heightData)[..3 * i + j + 1] == GridSamples(heightData)[..3 * i + j] + [GridSamples(heightData)[3 * i + j]];
          j := j + 1;
        }
        i := i + 1;
      }
      assert GridSamples(heightData)[..9] == GridSamples(heightData);
    }

    /** generateHorizonPoints: append the nine positions at the maximum height. */
    method GenerateHorizonPoints()
      modifies this
      ensures minCode == old(minCode) && maxCode == old(maxCode) && aabb == old(aabb)
      ensures projectedGridPoints == old(projectedGridPoints)
      ensures horizonCullingPoints == old(horizonCullingPoints) + HorizonSamples(maxCode)
    {
      var i := 0;
      while i < 3
        invariant 0 <= i <= 3
        invariant minCode == old(minCode) && maxCode == old(maxCode) && aabb == old(aabb)
        invariant projectedGridPoints == old(projectedGridPoints)
        invariant horizonCullingPoints == old(horizonCullingPoints) + HorizonSamples(maxCode)[..3 * i]
      {
        var j := 0;
        while j < 3
          invariant 0 <= j <= 3
          invariant minCode == old(minCode) && maxCode == old(maxCode) && aabb == old(aabb)
          invariant projectedGridPoints == old(projectedGridPoints)
          invariant horizonCullingPoints == old(horizonCullingPoints) + HorizonSamples(maxCode)[..3 * i + j]
        {
          GridSamplesLayout(heightData, i, j);
          horizonCullingPoints := horizonCullingPoints + [Sample(i, j, maxCode)];
          assert HorizonSamples(maxCode)[..3 * i + j + 1] == HorizonSamples(maxCode)[..3 * i + j] + [HorizonSamples(maxCode)[3 * i + j]];
          j := j + 1;
        }
        i := i + 1;
      }
      assert HorizonSamples(maxCode)[..9] == HorizonSamples(maxCode);
    }

    /**
     * generateAabb: the fixed boxes at zoom 0 and 1, otherwise the min/max
     * fold over the 18 corner points, visited i outer, j inner, minimum first.
     */
    method GenerateAabb(r: real, project: Sample -> Vec)
      modifies this
      ensures minCode == old(minCode) && maxCode == old(maxCode)
      ensures projectedGridPoints == old(projectedGridPoints) && horizonCullingPoints == old(horizonCullingPoints)
      ensures aabb == AabbFor(tileKey, r, Corners(project, minCode, maxCode))
    {
      var zoom := tileKey.z;
      if zoom == 0 {
        aabb := Zoom0Box(r);
      } else if zoom == 1 {
        aabb := Zoom1Box(tileKey.x, tileKey.y, r);
      } else {
        var box := FoldCorners(project);
        aabb := box;
      }
    }

    /** The loops of generateAabb for deeper tiles. */
    method FoldCorners(project: Sample -> Vec) returns (box: Box)
      ensures Some(box) == Bounds(Corners(project, minCode, maxCode))
    {
      var running: Option<Box> := None;
      var i := 0;
      while i < 3
        invariant 0 <= i <= 3
        invariant running == Bounds(Corners(project, minCode, maxCode)[..6 * i])
      {
        running := FoldCornerRow(project, i, running);
        i := i + 1;
      }
      assert Corners(project, minCode, maxCode)[..18] == Corners(project, minCode, maxCode);
      box := running.value;
    }

    /** The inner loop of generateAabb's fold: the six points of row i. */
    method FoldCornerRow(project: Sample -> Vec, i: nat, running: Option<Box>) returns (next: Option<Box>)
      requires i < 3
      requires running == Bounds(Corners(project, minCode, maxCode)[..6 * i])
      ensures next == Bounds(Corners(project, minCode, maxCode)[..6 * i + 6])
    {
      ghost var corners := Corners(project, minCode, maxCode);
      next := running;
      var j := 0;
      while j < 3
        invariant 0 <= j <= 3
        invariant next == Bounds(corners[..6 * i + 2 * j])
      {
        var m := 6 * i + 2 * j;
        CornerAt(project, minCode, maxCode, i, j);
        BoundsSnoc(corners, m);
        next := Some(Widen(next, project(Sample(i, j, minCode))));
        BoundsSnoc(corners, m + 1);
        next := Some(Widen(next, project(Sample(i, j, maxCode))));
        j := j + 1;
      }
    }
  }
}
