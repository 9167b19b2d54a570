/**
 * The disk cache as the workers and the manager see it: a set of file
 * names. A tile's heightmap lives at <path>heightdata/x_y_z.webp and its
 * overlay at <path>overlay/x_y_z.jpg, with x, y and z in decimal.
 */
module Files {
  import opened TileKeys

  /**
   * The sub-directories of the cache. The program names them by constants
   * that are not part of this model; their values here are taken from the
   * layout the comment of initDiskCache gives (terrainmanager.cpp lines
   * 404-405), and the model relies only on their first letters differing.
   */
  const HEIGHTDATA_DIR_NAME: string := "heightdata/"
  const OVERLAY_DIR_NAME: string := "overlay/"

  /** "x_y_z", the name shared by a tile's two files. */
  function BaseName(k: TileKey): string
  {
    Decimal(k.x) + "_" + Decimal(k.y) + "_" + Decimal(k.z)
  }

  /** The file of tile k with extension ext in directory dir of the cache at path. */
  function FileIn(path: string, dir: string, k: TileKey, ext: string): string
  {
    path + dir + BaseName(k) + ext
  }

  function HeightmapFile(path: string, k: TileKey): string
  {
    FileIn(path, HEIGHTDATA_DIR_NAME, k, ".webp")
  }

  function OverlayFile(path: string, k: TileKey): string
  {
    FileIn(path, OVERLAY_DIR_NAME, k, ".jpg")
  }

  /** In a digit string followed by a non-digit c, the first c sits right after the digits. */
  lemma {:induction false} SeparatorAfterDigits(p: string, r: string, c: char)
    requires IsDigits(p) && !IsDigit(c)
    ensures (p + [c] + r)[|p|] == c
    ensures forall i :: 0 <= i < |p| ==> (p + [c] + r)[i] != c
  {
  }

  /** Two digit strings each followed by the same non-digit: the digit strings and the rests agree. */
  lemma {:induction false} DigitsThenSeparator(p: string, r: string, q: string, t: string, c: char)
    requires IsDigits(p) && IsDigits(q) && !IsDigit(c)
    requires p + [c] + r == q + [c] + t
    ensures p == q && r == t
  {
    var s := p + [c] + r;
    SeparatorAfterDigits(p, r, c);
    SeparatorAfterDigits(q, t, c);
    assert |p| == |q|;
    assert p == s[..|p|] && q == s[..|q|];
    assert r == s[|p| + 1..] && t == s[|q| + 1..];
  }

  /** Different decimal numbers are different texts. */
  lemma {:induction false} DecimalInjective(a: nat, b: nat)
    requires Decimal(a) == Decimal(b)
    ensures a == b
  {
    DecimalDigits(a);
    DecimalDigits(b);
  }

  /** Three digit strings joined by '_' can be split back apart. */
  lemma {:induction false} JoinedDigitsSplit(x1: string, y1: string, z1: string, x2: string, y2: string, z2: string)
    requires IsDigits(x1) && IsDigits(y1) && IsDigits(x2) && IsDigits(y2)
    requires x1 + "_" + y1 + "_" + z1 == x2 + "_" + y2 + "_" + z2
    ensures x1 == x2 && y1 == y2 && z1 == z2
  {
    assert x1 + "_" + y1 + "_" + z1 == x1 + ['_'] + (y1 + ['_'] + z1);
    assert x2 + "_" + y2 + "_" + z2 == x2 + ['_'] + (y2 + ['_'] + z2);
    DigitsThenSeparator(x1, y1 + ['_'] + z1, x2, y2 + ['_'] + z2, '_');
    DigitsThenSeparator(y1, z1, y2, z2, '_');
  }

  /** Different tiles have different base names. */
  lemma {:induction false} BaseNameInjective(a: TileKey, b: TileKey)
    requires BaseName(a) == BaseName(b)
    ensures a == b
  {
    DecimalDigits(a.x);
    DecimalDigits(b.x);
    DecimalDigits(a.y);
    DecimalDigits(b.y);
    JoinedDigitsSplit(Decimal(a.x), Decimal(a.y), Decimal(a.z), Decimal(b.x), Decimal(b.y), Decimal(b.z));
    DecimalInjective(a.x, b.x);
    DecimalInjective(a.y, b.y);
    DecimalInjective(a.z, b.z);
  }

  /** Within one directory and extension, each tile has its own file. */
  lemma {:induction false} FileInInjective(path: string, dir: string, ext: string, a: TileKey, b: TileKey)
    requires FileIn(path, dir, a, ext) == FileIn(path, dir, b, ext)
    ensures a == b
  {
    var s := FileIn(path, dir, a, ext);
    var n := |path + dir|;
    assert |BaseName(a)| == |BaseName(b)|;
    assert BaseName(a) == s[n..n + |BaseName(a)|];
    assert BaseName(b) == s[n..n + |BaseName(b)|];
    BaseNameInjective(a, b);
  }

  /** Files in two directories whose names start differently never coincide. */
  lemma {:induction false} DirsApart(path: string, d1: string, a: TileKey, e1: string, d2: string, b: TileKey, e2: string)
    requires |d1| >= 1 && |d2| >= 1 && d1[0] != d2[0]
    ensures FileIn(path, d1, a, e1) != FileIn(path, d2, b, e2)
  {
    assert FileIn(path, d1, a, e1)[|path|] == d1[0];
    assert FileIn(path, d2, b, e2)[|path|] == d2[0];
  }

  /** A tile's heightmap file is never another tile's overlay file, and each kind names one tile. */
  lemma {:induction false} CacheFilesDistinct(path: string, a: TileKey, b: TileKey)
    ensures HeightmapFile(path, a) != OverlayFile(path, b)
    ensures HeightmapFile(path, a) == HeightmapFile(path, b) ==> a == b
    ensures OverlayFile(path, a) == OverlayFile(path, b) ==> a == b
  {
    DirsApart(path, HEIGHTDATA_DIR_NAME, a, ".webp", OVERLAY_DIR_NAME, b, ".jpg");
    if HeightmapFile(path, a) == HeightmapFile(path, b) {
      FileInInjective(path, HEIGHTDATA_DIR_NAME, ".webp", a, b);
    }
    if OverlayFile(path, a) == OverlayFile(path, b) {
      FileInInjective(path, OVERLAY_DIR_NAME, ".jpg", a, b);
    }
  }

  /**
   * remove(first) && remove(second) on the file set: the second file is
   * removed only when removing the first reported that it existed; the
   * flag holds iff both existed.
   */
  function ShortCircuitRemove(files: set<string>, first: string, second: string): (r: (bool, set<string>))
    ensures r.0 <==> first in files && second in files
    ensures r.1 <= files && first !in r.1
    ensures forall f :: f in files && f != first && (first !in files || f != second) ==> f in r.1
    ensures first in files ==> second !in r.1
  {
    if first in files then (second in files, files - {first} - {second}) else (false, files)
  }

  /** When both removals report success, exactly the two files have gone. */
  lemma {:induction false} ShortCircuitRemoveOk(files: set<string>, first: string, second: string)
    requires ShortCircuitRemove(files, first, second).0
    ensures ShortCircuitRemove(files, first, second).1 == files - {first, second}
  {
  }

  /** The files present, by name; their contents are not modelled. */
  class FileSystem {
    var files: set<string>

    constructor (initial: set<string>)
      ensures files == initial
    {
      files := initial;
    }

    /** std::filesystem::exists. */
    function Exists(name: string): (b: bool)
      reads this
      ensures b <==> name in files
    {
      name in files
    }

    /** std::filesystem::remove: true iff the file existed; afterwards it does not. */
    method Remove(name: string) returns (existed: bool)
      modifies this
      ensures existed <==> name in old(files)
      ensures files == old(files) - {name}
    {
      existed := name in files;
      files := files - {name};
    }

    /** Writing a whole file through an ofstream that opened: the name now exists. */
    method Write(name: string)
      modifies this
      ensures files == old(files) + {name}
    {
      files := files + {name};
    }
  }
}
