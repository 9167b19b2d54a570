/**
 * The (x, y, z) slippy-map tile key: three unsigned 32-bit fields, its
 * "x/y/z" text form and the text parser behind the string constructor,
 * the four child keys in unsigned arithmetic, and the hash used by the
 * unordered maps of the caches.
 */
module TileKeys {

  const U32_MODULUS: nat := 0x1_0000_0000
  const U64_MODULUS: nat := 0x1_0000_0000_0000_0000
  /** The range of an `int` of the source: 32-bit two's complement. */
  const INT_MIN: int := -0x8000_0000
  const INT_MAX: int := 0x7FFF_FFFF

  /** An `unsigned` of the source: 32 bits wide. */
  type U32 = n: nat | n < U32_MODULUS

  datatype TileKey = TileKey(x: U32, y: U32, z: U32)

  /** The key of the single zoom-0 tile, which is never evicted. */
  function Root(): TileKey { TileKey(0, 0, 0) }

  // ---------------------------------------------------------------------
  // Equality
  // ---------------------------------------------------------------------

  /** operator==: field-wise comparison, which is exactly value equality. */
  function Equals(a: TileKey, b: TileKey): (r: bool)
    ensures r <==> a == b
  {
    a.x == b.x && a.y == b.y && a.z == b.z
  }

  /** operator!=: the negation of operator==. */
  function NotEquals(a: TileKey, b: TileKey): (r: bool)
    ensures r <==> a != b
  {
    !Equals(a, b)
  }

  // ---------------------------------------------------------------------
  // Children, in unsigned 32-bit arithmetic
  // ---------------------------------------------------------------------

  /** Unsigned wrap-around of a 32-bit result. */
  function Wrap(n: nat): U32 { n % U32_MODULUS }

  /** The child in column 2x + dx and row 2y + dy of the next zoom level. */
  function Child(k: TileKey, dx: nat, dy: nat): TileKey
    requires dx < 2 && dy < 2
  {
    TileKey(Wrap(k.x * 2 + dx), Wrap(k.y * 2 + dy), Wrap(k.z + 1))
  }

  function TopLeftChild(k: TileKey): TileKey { Child(k, 0, 0) }

  function TopRightChild(k: TileKey): TileKey { Child(k, 1, 0) }

  function BottomLeftChild(k: TileKey): TileKey { Child(k, 0, 1) }

  function BottomRightChild(k: TileKey): TileKey { Child(k, 1, 1) }

  /** The four children in the order the traversal visits them. */
  function Children(k: TileKey): seq<TileKey>
  {
    [TopLeftChild(k), TopRightChild(k), BottomLeftChild(k), BottomRightChild(k)]
  }

  function Pow2(n: nat): (p: nat)
    ensures p >= 1
  {
    if n == 0 then 1 else 2 * Pow2(n - 1)
  }

  /** A key names a real tile of its zoom level: x and y lie below 2^z. */
  predicate InRange(k: TileKey)
  {
    k.x < Pow2(k.z) && k.y < Pow2(k.z)
  }

  lemma {:induction false} Pow2Monotone(a: nat, b: nat)
    requires a <= b
    ensures Pow2(a) <= Pow2(b)
  {
    if a < b { Pow2Monotone(a, b - 1); }
  }

  lemma {:induction false} Pow2Add(a: nat, b: nat)
    ensures Pow2(a + b) == Pow2(a) * Pow2(b)
    decreases a
  {
    if a > 0 { Pow2Add(a - 1, b); }
  }

  lemma {:induction false} Pow2At31()
    ensures Pow2(31) * 2 == U32_MODULUS
  {
    assert Pow2(4) == 16;
    Pow2Add(4, 4);
    Pow2Add(8, 8);
    Pow2Add(16, 15);
    Pow2Add(8, 7);
    Pow2Add(4, 3);
    assert Pow2(3) == 8;
  }

  /** One child of an in-range key with z + 1 <= 31: no wrap, inside its level, and its parent by halving. */
  lemma {:induction false} ChildExact(k: TileKey, dx: nat, dy: nat)
    requires dx < 2 && dy < 2
    requires InRange(k) && k.z + 1 <= 31
    ensures Child(k, dx, dy).x == 2 * k.x + dx && Child(k, dx, dy).y == 2 * k.y + dy
    ensures Child(k, dx, dy).z == k.z + 1
    ensures InRange(Child(k, dx, dy))
    ensures Child(k, dx, dy).x / 2 == k.x && Child(k, dx, dy).y / 2 == k.y
  {
    LevelBound(k.z);
    ChildNoWrap(k, dx, dy, Pow2(k.z));
  }

  /** The child of a key whose coordinates lie below p, with 2p and z + 1 in range, computed without a wrap. */
  lemma {:induction false} ChildNoWrap(k: TileKey, dx: nat, dy: nat, p: nat)
    requires dx < 2 && dy < 2
    requires k.x < p && k.y < p && 2 * p < U32_MODULUS && k.z + 1 <= 31
    ensures Child(k, dx, dy).x == 2 * k.x + dx && Child(k, dx, dy).y == 2 * k.y + dy
    ensures Child(k, dx, dy).z == k.z + 1
    ensures Child(k, dx, dy).x < 2 * p && Child(k, dx, dy).y < 2 * p
    ensures Child(k, dx, dy).x / 2 == k.x && Child(k, dx, dy).y / 2 == k.y
  {
    ChildCoord(k.x, dx, p);
    ChildCoord(k.y, dy, p);
    WrapSmall(k.z + 1);
  }

  /** Below level 31 the next level's side 2^(z+1) is twice this one's and fits in 32 bits. */
  lemma {:induction false} LevelBound(z: nat)
    requires z + 1 <= 31
    ensures Pow2(z + 1) == 2 * Pow2(z) && 2 * Pow2(z) < U32_MODULUS
  {
    Pow2Monotone(z + 1, 31);
    Pow2At31();
  }

  /** A child coordinate 2a + d of a coordinate a below p, with 2p in range: no wrap, below 2p, and halving gives a. */
  lemma {:induction false} ChildCoord(a: nat, d: nat, p: nat)
    requires d < 2 && a < p && 2 * p < U32_MODULUS
    ensures Wrap(a * 2 + d) == a * 2 + d && a * 2 + d < 2 * p && (a * 2 + d) / 2 == a
  {
    WrapSmall(a * 2 + d);
    Halve(a, d);
  }

  /** Below 2^32 the wrap changes nothing. */
  lemma {:induction false} WrapSmall(n: nat)
    requires n < U32_MODULUS
    ensures Wrap(n) == n
  {
  }

  /** Halving 2a + d, with d a bit, gives a. */
  lemma {:induction false} Halve(a: nat, d: nat)
    requires d < 2
    ensures (a * 2 + d) / 2 == a
  {
  }

  /**
   * For a key inside its zoom level with z + 1 <= 31 the unsigned child
   * arithmetic never wraps: each child is the exact quadrant one level
   * deeper, lies inside that level, and halving it gives the parent back.
   */
  lemma {:induction false} ChildrenExact(k: TileKey)
    requires InRange(k) && k.z + 1 <= 31
    ensures forall c :: c in Children(k) ==>
      c.z == k.z + 1 && InRange(c) && c.x / 2 == k.x && c.y / 2 == k.y
    ensures TopLeftChild(k) == TileKey(2 * k.x, 2 * k.y, k.z + 1)
    ensures TopRightChild(k) == TileKey(2 * k.x + 1, 2 * k.y, k.z + 1)
    ensures BottomLeftChild(k) == TileKey(2 * k.x, 2 * k.y + 1, k.z + 1)
    ensures BottomRightChild(k) == TileKey(2 * k.x + 1, 2 * k.y + 1, k.z + 1)
  {
    ChildExact(k, 0, 0);
    ChildExact(k, 1, 0);
    ChildExact(k, 0, 1);
    ChildExact(k, 1, 1);
  }

  /** Wrapping to 32 bits keeps the parity. */
  lemma {:induction false} WrapParity(n: nat)
    ensures Wrap(n) % 2 == n % 2
  {
    var q, r := n / U32_MODULUS, n % U32_MODULUS;
    assert n == q * U32_MODULUS + r;
    assert q * U32_MODULUS == 2 * (q * 0x8000_0000);
  }

  /** The four children are pairwise distinct, even when the arithmetic wraps. */
  lemma {:induction false} ChildrenDistinct(k: TileKey)
    ensures TopLeftChild(k) != TopRightChild(k) && TopLeftChild(k) != BottomLeftChild(k)
    ensures TopLeftChild(k) != BottomRightChild(k) && TopRightChild(k) != BottomLeftChild(k)
    ensures TopRightChild(k) != BottomRightChild(k) && BottomLeftChild(k) != BottomRightChild(k)
  {
    SiblingCoords(k.x);
    SiblingCoords(k.y);
  }

  /** The two child coordinates 2a and 2a + 1 stay different after the wrap, by parity. */
  lemma {:induction false} SiblingCoords(a: nat)
    ensures Wrap(a * 2 + 0) != Wrap(a * 2 + 1)
  {
    WrapParity(a * 2 + 0);
    WrapParity(a * 2 + 1);
    assert (a * 2 + 0) % 2 == 0 && (a * 2 + 1) % 2 == 1;
  }

  /** No key is its own child: the zoom level always changes (mod 2^32). */
  lemma {:induction false} ChildNotSelf(k: TileKey)
    ensures forall c :: c in Children(k) ==> c != k
  {
    assert Wrap(k.z + 1) != k.z;
  }

  // ---------------------------------------------------------------------
  // Text form: std::to_string on each field, joined by '/'
  // ---------------------------------------------------------------------

  predicate IsDigit(c: char) { '0' <= c <= '9' }

  function DigitChar(d: nat): (c: char)
    requires d < 10
    ensures IsDigit(c)
  {
    (('0' as int) + d) as char
  }

  function DigitValue(c: char): (d: nat)
    requires IsDigit(c)
    ensures d < 10
  {
    (c as int) - ('0' as int)
  }

  /** The value of the decimal digits s[i..e], most significant first. */
  function ValueOf(s: string, i: nat, e: nat): nat
    requires i <= e <= |s|
    requires forall m :: i <= m < e ==> IsDigit(s[m])
    decreases e - i
  {
    if e == i then 0 else ValueOf(s, i, e - 1) * 10 + DigitValue(s[e - 1])
  }

  /** The value of a whole string of digits. */
  function DigitsValue(d: string): nat
    requires forall m :: 0 <= m < |d| ==> IsDigit(d[m])
  {
    ValueOf(d, 0, |d|)
  }

  /** The value of a run of digits depends only on the characters in it. */
  lemma {:induction false} ValueOfShift(s: string, i: nat, t: string, j: nat, len: nat)
    requires i + len <= |s| && j + len <= |t|
    requires forall m :: i <= m < i + len ==> IsDigit(s[m]) && s[m] == t[m - i + j]
    ensures forall m :: j <= m < j + len ==> IsDigit(t[m])
    ensures ValueOf(s, i, i + len) == ValueOf(t, j, j + len)
    decreases len
  {
    assert forall m :: j <= m < j + len ==> t[m] == s[m - j + i];
    if len > 0 {
      ValueOfShift(s, i, t, j, len - 1);
    }
  }

  /** std::to_string of an unsigned value: shortest decimal digits. */
  function Decimal(n: nat): (s: string)
    ensures |s| >= 1
  {
    if n < 10 then [DigitChar(n)] else Decimal(n / 10) + [DigitChar(n % 10)]
  }

  /** A non-empty run of digits. */
  predicate IsDigits(d: string)
  {
    |d| >= 1 && forall m :: 0 <= m < |d| ==> IsDigit(d[m])
  }

  /** Decimal is made of digits, has no leading zero, and DigitsValue inverts it. */
  lemma {:induction false} DecimalDigits(n: nat)
    ensures IsDigits(Decimal(n))
    ensures Decimal(n)[0] == '0' ==> n == 0 && |Decimal(n)| == 1
    ensures DigitsValue(Decimal(n)) == n
  {
    if n >= 10 {
      DecimalDigits(n / 10);
      var p := Decimal(n / 10);
      var s := Decimal(n);
      assert s == p + [DigitChar(n % 10)];
      ValueOfShift(p, 0, s, 0, |p|);
    }
  }

  /** XYZTileKey::string(). */
  function ToString(k: TileKey): string
  {
    Joined(Decimal(k.x), Decimal(k.y), Decimal(k.z))
  }

  // ---------------------------------------------------------------------
  // Text parsing: `iss >> x >> delim >> y >> delim >> z`
  // ---------------------------------------------------------------------

  /** The characters std::isspace accepts in the C locale. */
  predicate IsSpace(c: char) { c == ' ' || 9 <= c as int <= 13 }

  /** Index of the first non-space character at or after i (skipws). */
  function SkipSpace(s: string, i: nat): (j: nat)
    requires i <= |s|
    ensures i <= j <= |s|
    ensures j < |s| ==> !IsSpace(s[j])
    decreases |s| - i
  {
    if i < |s| && IsSpace(s[i]) then SkipSpace(s, i + 1) else i
  }

  /** End of the longest run of digits starting at i (numeric extraction is greedy). */
  function DigitsEnd(s: string, i: nat): (j: nat)
    requires i <= |s|
    ensures i <= j <= |s|
    ensures forall m :: i <= m < j ==> IsDigit(s[m])
    ensures j < |s| ==> !IsDigit(s[j])
    decreases |s| - i
  {
    if i < |s| && IsDigit(s[i]) then DigitsEnd(s, i + 1) else i
  }

  /** Outcome of one extraction: the value and the position after it, or the stream's failbit. */
  datatype Scan<T> = Scanned(value: T, next: nat) | ScanFailed

  /**
   * `iss >> u` for an unsigned u: skip white space, take an optional '+' or
   * '-', then the longest run of digits. No digit, or a magnitude that does
   * not fit in 32 bits, fails; a minus sign negates modulo 2^32, so "-1"
   * reads as 4294967295.
   */
  function ReadUnsigned(s: string, i: nat): (r: Scan<U32>)
    requires i <= |s|
    ensures r.Scanned? ==> i < r.next <= |s| && (r.next < |s| ==> !IsDigit(s[r.next]))
  {
    var j := SkipSpace(s, i);
    var signed := j < |s| && (s[j] == '+' || s[j] == '-');
    var d := if signed then j + 1 else j;
    var e := DigitsEnd(s, d);
    if e == d then ScanFailed
    else
      var v := ValueOf(s, d, e);
      if v >= U32_MODULUS then ScanFailed
      else if s[j] == '-' then Scanned((U32_MODULUS - v) % U32_MODULUS, e)
      else Scanned(v, e)
  }

  /** `iss >> c` for a char c: skip white space, take the next character; the end of input fails. */
  function ReadChar(s: string, i: nat): (r: Scan<char>)
    requires i <= |s|
    ensures r.Scanned? ==> i < r.next <= |s| && !IsSpace(r.value)
  {
    var j := SkipSpace(s, i);
    if j == |s| then ScanFailed else Scanned(s[j], j + 1)
  }

  /** Result of the string constructor: a key, or "Invalid tile key." with indeterminate fields. */
  datatype ParsedKey = Parsed(key: TileKey) | Invalid

  /**
   * XYZTileKey(std::string): any non-space character is accepted as the
   * first delimiter, only the second one must be '/', and the text after
   * the third number is ignored.
   */
  function Parse(s: string): ParsedKey
  {
    match ReadUnsigned(s, 0)
    case ScanFailed => Invalid
    case Scanned(x, i1) =>
      match ReadChar(s, i1)
      case ScanFailed => Invalid
      case Scanned(_, i2) =>
        match ReadUnsigned(s, i2)
        case ScanFailed => Invalid
        case Scanned(y, i3) =>
          match ReadChar(s, i3)
          case ScanFailed => Invalid
          case Scanned(delim, i4) =>
            match ReadUnsigned(s, i4)
            case ScanFailed => Invalid
            case Scanned(z, _) =>
              if delim == '/' then Parsed(TileKey(x, y, z)) else Invalid
  }

  /** Reading the digits d at position i of s, when a non-digit or the end follows them. */
  lemma {:induction false} ReadDigitsAt(s: string, i: nat, d: string)
    requires IsDigits(d) && DigitsValue(d) < U32_MODULUS
    requires i + |d| <= |s| && forall m :: i <= m < i + |d| ==> s[m] == d[m - i]
    requires i + |d| < |s| ==> !IsDigit(s[i + |d|])
    ensures ReadUnsigned(s, i) == Scanned(DigitsValue(d), i + |d|)
  {
    assert s[i] == d[0];
    assert SkipSpace(s, i) == i;
    DigitsEndAt(s, i, |d|);
    ValueOfShift(s, i, d, 0, |d|);
  }

  /**
   * A sign at position i followed by the digits d, then a non-digit or the
   * end: '+' reads the value of d, '-' its negation modulo 2^32.
   */
  lemma {:induction false} ReadSignedAt(s: string, i: nat, d: string)
    requires IsDigits(d) && DigitsValue(d) < U32_MODULUS
    requires i + 1 + |d| <= |s| && (s[i] == '+' || s[i] == '-')
    requires forall m :: i + 1 <= m < i + 1 + |d| ==> s[m] == d[m - (i + 1)]
    requires i + 1 + |d| < |s| ==> !IsDigit(s[i + 1 + |d|])
    ensures ReadUnsigned(s, i) == Scanned(if s[i] == '-' then (U32_MODULUS - DigitsValue(d)) % U32_MODULUS else DigitsValue(d), i + 1 + |d|)
  {
    assert SkipSpace(s, i) == i;
    DigitsEndAt(s, i + 1, |d|);
    ValueOfShift(s, i + 1, d, 0, |d|);
  }

  lemma {:induction false} DigitsEndAt(s: string, i: nat, len: nat)
    requires i + len <= |s|
    requires forall m :: i <= m < i + len ==> IsDigit(s[m])
    requires i + len < |s| ==> !IsDigit(s[i + len])
    ensures DigitsEnd(s, i) == i + len
    decreases len
  {
    if len > 0 { DigitsEndAt(s, i + 1, len - 1); }
  }

  /** A '/' at position i is read as a delimiter. */
  lemma {:induction false} ReadSlash(s: string, i: nat)
    requires i < |s| && s[i] == '/'
    ensures ReadChar(s, i) == Scanned('/', i + 1)
  {
    assert SkipSpace(s, i) == i;
  }

  /** Parse succeeds when each of the five extractions succeeds and the second delimiter is '/'. */
  lemma {:induction false} ParseSteps(s: string, x: U32, y: U32, z: U32, i1: nat, i2: nat, i3: nat, i4: nat, i5: nat)
    requires i1 <= |s| && i2 <= |s| && i3 <= |s| && i4 <= |s|
    requires ReadUnsigned(s, 0) == Scanned(x, i1)
    requires ReadChar(s, i1).Scanned? && ReadChar(s, i1).next == i2
    requires ReadUnsigned(s, i2) == Scanned(y, i3)
    requires ReadChar(s, i3) == Scanned('/', i4)
    requires ReadUnsigned(s, i4) == Scanned(z, i5)
    ensures Parse(s) == Parsed(TileKey(x, y, z))
  {
  }

  /** Three digit runs joined by '/', as XYZTileKey::string() lays them out. */
  function Joined(a: string, b: string, c: string): string
  {
    a + "/" + b + "/" + c
  }

  lemma {:induction false} JoinedFirst(a: string, b: string, c: string)
    requires IsDigits(a) && DigitsValue(a) < U32_MODULUS
    ensures ReadUnsigned(Joined(a, b, c), 0) == Scanned(DigitsValue(a), |a|)
    ensures ReadChar(Joined(a, b, c), |a|) == Scanned('/', |a| + 1)
  {
    var s := Joined(a, b, c);
    assert forall m :: 0 <= m < |a| ==> s[m] == a[m - 0];
    ReadDigitsAt(s, 0, a);
    ReadSlash(s, |a|);
  }

  lemma {:induction false} JoinedSecond(a: string, b: string, c: string)
    requires IsDigits(b) && DigitsValue(b) < U32_MODULUS
    ensures ReadUnsigned(Joined(a, b, c), |a| + 1) == Scanned(DigitsValue(b), |a| + 1 + |b|)
    ensures ReadChar(Joined(a, b, c), |a| + 1 + |b|) == Scanned('/', |a| + 2 + |b|)
  {
    var s := Joined(a, b, c);
    assert forall m :: |a| + 1 <= m < |a| + 1 + |b| ==> s[m] == b[m - (|a| + 1)];
    ReadDigitsAt(s, |a| + 1, b);
    ReadSlash(s, |a| + 1 + |b|);
  }

  lemma {:induction false} JoinedThird(a: string, b: string, c: string)
    requires IsDigits(c) && DigitsValue(c) < U32_MODULUS
    ensures ReadUnsigned(Joined(a, b, c), |a| + 2 + |b|) == Scanned(DigitsValue(c), |Joined(a, b, c)|)
  {
    var s := Joined(a, b, c);
    assert forall m :: |a| + 2 + |b| <= m < |s| ==> s[m] == c[m - (|a| + 2 + |b|)];
    ReadDigitsAt(s, |a| + 2 + |b|, c);
  }

  /** Three digit runs joined by '/' parse as the key of their values. */
  lemma {:induction false} ParseJoined(a: string, b: string, c: string)
    requires IsDigits(a) && IsDigits(b) && IsDigits(c)
    requires DigitsValue(a) < U32_MODULUS && DigitsValue(b) < U32_MODULUS && DigitsValue(c) < U32_MODULUS
    ensures Parse(Joined(a, b, c)) == Parsed(TileKey(DigitsValue(a), DigitsValue(b), DigitsValue(c)))
  {
    JoinedFirst(a, b, c);
    JoinedSecond(a, b, c);
    JoinedThird(a, b, c);
    var i, j := |a|, |a| + 1 + |b|;
    ParseSteps(Joined(a, b, c), DigitsValue(a), DigitsValue(b), DigitsValue(c), i, i + 1, j, j + 1, |Joined(a, b, c)|);
  }

  /** Round trip: the string constructor recovers every key from its text form. */
  lemma {:induction false} ParseToString(k: TileKey)
    ensures Parse(ToString(k)) == Parsed(k)
  {
    DecimalDigits(k.x);
    DecimalDigits(k.y);
    DecimalDigits(k.z);
    ParseJoined(Decimal(k.x), Decimal(k.y), Decimal(k.z));
  }

  lemma {:induction false} DelimitedFirst(a: string, d: char, b: string, c: string)
    requires IsDigits(a) && DigitsValue(a) < U32_MODULUS && !IsSpace(d) && !IsDigit(d)
    ensures ReadUnsigned(a + [d] + b + "/" + c, 0) == Scanned(DigitsValue(a), |a|)
    ensures ReadChar(a + [d] + b + "/" + c, |a|) == Scanned(d, |a| + 1)
  {
    var s := a + [d] + b + "/" + c;
    assert forall m :: 0 <= m < |a| ==> s[m] == a[m - 0];
    ReadDigitsAt(s, 0, a);
    assert SkipSpace(s, |a|) == |a|;
  }

  lemma {:induction false} DelimitedRest(a: string, d: char, b: string, c: string)
    requires IsDigits(b) && IsDigits(c) && DigitsValue(b) < U32_MODULUS && DigitsValue(c) < U32_MODULUS
    ensures var s, i, j := a + [d] + b + "/" + c, |a| + 1, |a| + 1 + |b|;
      && ReadUnsigned(s, i) == Scanned(DigitsValue(b), j)
      && ReadChar(s, j) == Scanned('/', j + 1)
      && ReadUnsigned(s, j + 1) == Scanned(DigitsValue(c), |s|)
  {
    var s, i, j := a + [d] + b + "/" + c, |a| + 1, |a| + 1 + |b|;
    assert forall m :: i <= m < j ==> s[m] == b[m - i];
    ReadDigitsAt(s, i, b);
    ReadSlash(s, j);
    assert forall m :: j + 1 <= m < |s| ==> s[m] == c[m - (j + 1)];
    ReadDigitsAt(s, j + 1, c);
  }

  /** Any character that is neither white space nor a digit passes as the first separator. */
  lemma {:induction false} FirstDelimiterAny(a: string, d: char, b: string, c: string)
    requires IsDigits(a) && IsDigits(b) && IsDigits(c) && !IsSpace(d) && !IsDigit(d)
    requires DigitsValue(a) < U32_MODULUS && DigitsValue(b) < U32_MODULUS && DigitsValue(c) < U32_MODULUS
    ensures Parse(a + [d] + b + "/" + c) == Parsed(TileKey(DigitsValue(a), DigitsValue(b), DigitsValue(c)))
  {
    DelimitedFirst(a, d, b, c);
    DelimitedRest(a, d, b, c);
    var s, i, j := a + [d] + b + "/" + c, |a| + 1, |a| + 1 + |b|;
    ParseSteps(s, DigitsValue(a), DigitsValue(b), DigitsValue(c), |a|, i, j, j + 1, |s|);
  }

  /** The first separator is not checked: "1x2/3" is accepted as (1, 2, 3). */
  lemma {:induction false} FirstDelimiterUnchecked()
    ensures Parse("1x2/3") == Parsed(TileKey(1, 2, 3))
  {
    DecimalDigits(1);
    DecimalDigits(2);
    DecimalDigits(3);
    FirstDelimiterAny(Decimal(1), 'x', Decimal(2), Decimal(3));
    assert Decimal(1) + ['x'] + Decimal(2) + "/" + Decimal(3) == "1x2/3";
  }

  /** The value `>> unsigned` gives for a sign followed by the magnitude v. */
  function SignedValue(sign: char, v: nat): nat
  {
    if sign == '-' then (U32_MODULUS - v) % U32_MODULUS else v
  }

  lemma {:induction false} SignedFirst(sign: char, a: string, f: string, b: string, c: string)
    requires sign == '+' || sign == '-'
    requires IsDigits(a) && DigitsValue(a) < U32_MODULUS && f == [sign] + a
    ensures ReadUnsigned(Joined(f, b, c), 0) == Scanned(SignedValue(sign, DigitsValue(a)), |f|)
    ensures ReadChar(Joined(f, b, c), |f|) == Scanned('/', |f| + 1)
  {
    var s := Joined(f, b, c);
    assert s[0] == sign;
    assert forall m :: 1 <= m < 1 + |a| ==> s[m] == a[m - 1];
    ReadSignedAt(s, 0, a);
    ReadSlash(s, |f|);
  }

  /**
   * A sign in front of the first number is accepted: '+' is ignored and
   * '-' negates modulo 2^32, so "-1/2/3" names the tile (2^32 - 1, 2, 3).
   */
  lemma {:induction false} ParseSignedJoined(sign: char, a: string, b: string, c: string)
    requires sign == '+' || sign == '-'
    requires IsDigits(a) && IsDigits(b) && IsDigits(c)
    requires DigitsValue(a) < U32_MODULUS && DigitsValue(b) < U32_MODULUS && DigitsValue(c) < U32_MODULUS
    ensures Parse(Joined([sign] + a, b, c)) == Parsed(TileKey(SignedValue(sign, DigitsValue(a)), DigitsValue(b), DigitsValue(c)))
  {
    var f := [sign] + a;
    SignedFirst(sign, a, f, b, c);
    JoinedSecond(f, b, c);
    JoinedThird(f, b, c);
    var i, j := |f|, |f| + 1 + |b|;
    ParseSteps(Joined(f, b, c), SignedValue(sign, DigitsValue(a)), DigitsValue(b), DigitsValue(c), i, i + 1, j, j + 1, |Joined(f, b, c)|);
  }

  /** The second separator is checked: "1/2x3" is rejected. */
  lemma {:induction false} SecondDelimiterChecked()
    ensures Parse("1/2x3") == Invalid
  {
    var s := "1/2x3";
    assert DigitsEnd(s, 0) == 1;
    assert s[0..1] == "1";
    assert DigitsEnd(s, 2) == 3;
    assert s[2..3] == "2";
    assert DigitsEnd(s, 4) == 5;
    assert s[4..5] == "3";
  }

  // ---------------------------------------------------------------------
  // std::hash<XYZTileKey>
  // ---------------------------------------------------------------------

  /** One step `res = res * 31 + h(v)` in size_t (64-bit) arithmetic; h on unsigned is the identity. */
  function HashStep(res: nat, v: U32): nat
  {
    (res * 31 + v) % U64_MODULUS
  }

  /**
   * The hash of the unordered maps. For 32-bit fields the 64-bit
   * arithmetic never wraps, so the hash is the exact polynomial.
   */
  function Hash(k: TileKey): (h: nat)
    ensures h < U64_MODULUS
    ensures h == 17 * 31 * 31 * 31 + k.x * 31 * 31 + k.y * 31 + k.z
  {
    var r1 := HashStep(17, k.x);
    assert r1 == 17 * 31 + k.x;
    var r2 := HashStep(r1, k.y);
    assert r1 * 31 + k.y < U64_MODULUS;
    assert r2 == 17 * 31 * 31 + k.x * 31 + k.y;
    var r3 := HashStep(r2, k.z);
    assert r2 * 31 + k.z < U64_MODULUS;
    r3
  }

  /** Equal keys hash alike, but the hash is not injective: (1,0,0) and (0,31,0) collide. */
  lemma {:induction false} HashCollision()
    ensures Hash(TileKey(1, 0, 0)) == Hash(TileKey(0, 31, 0))
    ensures TileKey(1, 0, 0) != TileKey(0, 31, 0)
  {
  }
}
