/**
 * The configuration manager: reads `key=value` lines, stores the known
 * keys in its fields, checks every field against its allowed range and
 * exits the program once, after all checks, if any line or check failed.
 */
module Config {
  import opened Wrappers
  import opened TileKeys

  // ---------------------------------------------------------------------
  // std::stoul followed by the conversion to int
  // ---------------------------------------------------------------------

  /**
   * std::stoul(value) in base 10: skip white space, an optional sign, the
   * longest run of digits; trailing text is ignored. No digit, or a
   * magnitude beyond unsigned long (64 bits), throws (None). A minus sign
   * negates modulo 2^64, as strtoul does.
   */
  function Stoul(value: string): (r: Option<nat>)
    ensures r.Some? ==> r.value < U64_MODULUS
  {
    var i := SkipSpace(value, 0);
    var signed := i < |value| && (value[i] == '+' || value[i] == '-');
    var j := if signed then i + 1 else i;
    var e := DigitsEnd(value, j);
    if e == j then None
    else
      var magnitude := ValueOf(value, j, e);
      if magnitude >= U64_MODULUS then None
      else if value[i] == '-' then Some((U64_MODULUS - magnitude) % U64_MODULUS)
      else Some(magnitude)
  }

  /** `int parsedValue = <unsigned long>`: keep the low 32 bits, read as two's complement. */
  function ToInt(u: nat): (v: int)
    ensures INT_MIN <= v <= INT_MAX
    ensures (u - v) % U32_MODULUS == 0
    ensures u <= INT_MAX ==> v == u
  {
    var low := u % U32_MODULUS;
    if low > INT_MAX then low - U32_MODULUS else low
  }

  /**
   * tryParsingNumber(property, value): on success the parsed number and
   * false; when stoul throws, the property unchanged and true.
   */
  function TryParsingNumber(property: int, value: string): (r: (int, bool))
    ensures r.1 <==> Stoul(value).None?
    ensures r.1 ==> r.0 == property
    ensures !r.1 ==> r.0 == ToInt(Stoul(value).value) && INT_MIN <= r.0 <= INT_MAX
  {
    match Stoul(value)
    case None => (property, true)
    case Some(u) => (ToInt(u), false)
  }

  /** A plain decimal number within unsigned long reads back as its value narrowed to int. */
  lemma {:induction false} ParseDecimal(property: int, n: nat)
    requires n < U64_MODULUS
    ensures TryParsingNumber(property, Decimal(n)) == (ToInt(n), false)
  {
    var d := Decimal(n);
    DecimalDigits(n);
    assert SkipSpace(d, 0) == 0;
    DigitsEndAt(d, 0, |d|);
  }

  /** A minus sign is accepted: "-5" parses as -5, which only the range checks reject. */
  lemma {:induction false} ParseNegative()
    ensures TryParsingNumber(7, "-5") == (-5, false)
  {
    var s := "-5";
    assert SkipSpace(s, 0) == 0;
    DigitsEndAt(s, 1, 1);
  }

  /**
   * Narrowing to int wraps: the text of n + 2^32 is read as n, so a value
   * far beyond every range can pass a range check.
   */
  lemma {:induction false} ParseWraps(property: int, n: nat)
    requires n <= INT_MAX
    ensures TryParsingNumber(property, Decimal(n)) == (n, false)
    ensures TryParsingNumber(property, Decimal(n + U32_MODULUS)) == (n, false)
  {
    ParseDecimal(property, n);
    ParseDecimal(property, n + U32_MODULUS);
    ToIntWraps(n);
  }

  lemma {:induction false} ToIntWraps(n: nat)
    requires n <= INT_MAX
    ensures ToInt(n + U32_MODULUS) == n
  {
    assert (n + U32_MODULUS) / U32_MODULUS == 1;
  }

  /** Trailing text after the digits is ignored; text without a leading digit is refused. */
  lemma {:induction false} ParseEdges()
    ensures TryParsingNumber(0, " 300px") == (300, false)
    ensures TryParsingNumber(9, "px") == (9, true)
    ensures TryParsingNumber(9, "") == (9, true)
  {
    var s := " 300px";
    assert SkipSpace(s, 0) == 1;
    DigitsEndAt(s, 1, 3);
    assert SkipSpace("px", 0) == 0;
    assert DigitsEnd("px", 0) == 0;
  }

  // ---------------------------------------------------------------------
  // Fields and the key table
  // ---------------------------------------------------------------------

  /** The fields addSingleEntry can set. */
  datatype Field =
    | DiskCachePath | HeightDataServiceUrl | OverlayDataServiceUrl
    | HeightDataServiceKey | OverlayDataServiceKey | DataPath
    | MemoryCacheSize | DiskCacheSize | LowMeshRes | MediumMeshRes | HighMeshRes
    | NumLoadWorkers | MaxZoom

  predicate IsNumeric(f: Field) {
    f.MemoryCacheSize? || f.DiskCacheSize? || f.LowMeshRes? || f.MediumMeshRes? ||
    f.HighMeshRes? || f.NumLoadWorkers? || f.MaxZoom?
  }

  /** The key that names each field; the disk cache size key is spelled "diskacachesize". */
  function KeyName(f: Field): string
  {
    match f
    case DiskCachePath => "diskcachepath"
    case HeightDataServiceUrl => "heightdataserviceurl"
    case OverlayDataServiceUrl => "overlaydataserviceurl"
    case HeightDataServiceKey => "heightdataservicekey"
    case OverlayDataServiceKey => "overlaydataservicekey"
    case DataPath => "datapath"
    case MemoryCacheSize => "memorycachesize"
    case DiskCacheSize => "diskacachesize"
    case LowMeshRes => "lowmeshres"
    case MediumMeshRes => "mediummeshres"
    case HighMeshRes => "highmeshres"
    case NumLoadWorkers => "numloadworkers"
    case MaxZoom => "maxzoom"
  }

  /** The field a key names, if any, comparing in the order addSingleEntry does. */
  function FieldOf(key: string): Option<Field>
  {
    if key == KeyName(DiskCachePath) then Some(DiskCachePath)
    else if key == KeyName(HeightDataServiceUrl) then Some(HeightDataServiceUrl)
    else if key == KeyName(OverlayDataServiceUrl) then Some(OverlayDataServiceUrl)
    else if key == KeyName(HeightDataServiceKey) then Some(HeightDataServiceKey)
    else if key == KeyName(OverlayDataServiceKey) then Some(OverlayDataServiceKey)
    else if key == KeyName(DataPath) then Some(DataPath)
    else if key == KeyName(MemoryCacheSize) then Some(MemoryCacheSize)
    else if key == KeyName(DiskCacheSize) then Some(DiskCacheSize)
    else if key == KeyName(LowMeshRes) then Some(LowMeshRes)
    else if key == KeyName(MediumMeshRes) then Some(MediumMeshRes)
    else if key == KeyName(HighMeshRes) then Some(HighMeshRes)
    else if key == KeyName(NumLoadWorkers) then Some(NumLoadWorkers)
    else if key == KeyName(MaxZoom) then Some(MaxZoom)
    else None
  }

  /** No two fields share a name. */
  lemma {:induction false} KeyNameInjective(f: Field, g: Field)
    requires KeyName(f) == KeyName(g)
    ensures f == g
  {
  }

  /** Each field is selected by its own key and by no other; every other key selects nothing. */
  lemma {:induction false} FieldOfName(f: Field)
    ensures FieldOf(KeyName(f)) == Some(f)
  {
    match f
    case DiskCachePath =>
    case HeightDataServiceUrl =>
    case OverlayDataServiceUrl =>
    case HeightDataServiceKey =>
    case OverlayDataServiceKey =>
    case DataPath =>
    case MemoryCacheSize =>
    case DiskCacheSize =>
    case LowMeshRes =>
    case MediumMeshRes =>
    case HighMeshRes =>
    case NumLoadWorkers =>
    case MaxZoom =>
  }

  lemma {:induction false} FieldOfSound(key: string)
    ensures FieldOf(key).Some? ==> KeyName(FieldOf(key).value) == key
    ensures FieldOf(key).None? <==> forall f :: KeyName(f) != key
  {
    if FieldOf(key).None? {
      forall f ensures KeyName(f) != key {
        match f
        case DiskCachePath =>
        case HeightDataServiceUrl =>
        case OverlayDataServiceUrl =>
        case HeightDataServiceKey =>
        case OverlayDataServiceKey =>
        case DataPath =>
        case MemoryCacheSize =>
        case DiskCacheSize =>
        case LowMeshRes =>
        case MediumMeshRes =>
        case HighMeshRes =>
        case NumLoadWorkers =>
        case MaxZoom =>
      }
    } else {
      assert KeyName(FieldOf(key).value) == key;
    }
  }

  /** The natural spelling of the disk cache key is not recognised; the misspelt one is. */
  lemma {:induction false} DiskCacheKeySpelling()
    ensures FieldOf("diskcachesize") == None
    ensures FieldOf("diskacachesize") == Some(DiskCacheSize)
  {
    FieldOfSound("diskcachesize");
    FieldOfName(DiskCacheSize);
  }

  /** A snapshot of every field the manager holds. */
  datatype Settings = Settings(
    diskCachePath: string, heightDataServiceUrl: string, overlayDataServiceUrl: string,
    heightDataServiceKey: string, overlayDataServiceKey: string, dataPath: string,
    memoryCacheSize: int, diskCacheSize: int, lowMeshRes: int, mediumMeshRes: int,
    highMeshRes: int, numLoadWorkers: int, maxZoom: int)

  /** The value of a numeric field. */
  function Number(s: Settings, f: Field): int
    requires IsNumeric(f)
  {
    match f
    case MemoryCacheSize => s.memoryCacheSize
    case DiskCacheSize => s.diskCacheSize
    case LowMeshRes => s.lowMeshRes
    case MediumMeshRes => s.mediumMeshRes
    case HighMeshRes => s.highMeshRes
    case NumLoadWorkers => s.numLoadWorkers
    case MaxZoom => s.maxZoom
  }

  /** The value of a text field. */
  function Text(s: Settings, f: Field): string
    requires !IsNumeric(f)
  {
    match f
    case DiskCachePath => s.diskCachePath
    case HeightDataServiceUrl => s.heightDataServiceUrl
    case OverlayDataServiceUrl => s.overlayDataServiceUrl
    case HeightDataServiceKey => s.heightDataServiceKey
    case OverlayDataServiceKey => s.overlayDataServiceKey
    case DataPath => s.dataPath
  }

  /** The settings with one field assigned. */
  function SetNumber(s: Settings, f: Field, n: int): Settings
    requires IsNumeric(f)
  {
    match f
    case MemoryCacheSize => s.(memoryCacheSize := n)
    case DiskCacheSize => s.(diskCacheSize := n)
    case LowMeshRes => s.(lowMeshRes := n)
    case MediumMeshRes => s.(mediumMeshRes := n)
    case HighMeshRes => s.(highMeshRes := n)
    case NumLoadWorkers => s.(numLoadWorkers := n)
    case MaxZoom => s.(maxZoom := n)
  }

  function SetText(s: Settings, f: Field, t: string): Settings
    requires !IsNumeric(f)
  {
    match f
    case DiskCachePath => s.(diskCachePath := t)
    case HeightDataServiceUrl => s.(heightDataServiceUrl := t)
    case OverlayDataServiceUrl => s.(overlayDataServiceUrl := t)
    case HeightDataServiceKey => s.(heightDataServiceKey := t)
    case OverlayDataServiceKey => s.(overlayDataServiceKey := t)
    case DataPath => s.(dataPath := t)
  }

  /** Assigning a numeric field changes that field and no other. */
  lemma {:induction false} SetNumberFacts(s: Settings, f: Field, n: int)
    requires IsNumeric(f)
    ensures Number(SetNumber(s, f, n), f) == n
    ensures forall g :: IsNumeric(g) && g != f ==> Number(SetNumber(s, f, n), g) == Number(s, g)
    ensures forall g :: !IsNumeric(g) ==> Text(SetNumber(s, f, n), g) == Text(s, g)
  {
  }

  /** Assigning a text field changes that field and no other. */
  lemma {:induction false} SetTextFacts(s: Settings, f: Field, t: string)
    requires !IsNumeric(f)
    ensures Text(SetText(s, f, t), f) == t
    ensures forall g :: !IsNumeric(g) && g != f ==> Text(SetText(s, f, t), g) == Text(s, g)
    ensures forall g :: IsNumeric(g) ==> Number(SetText(s, f, t), g) == Number(s, g)
  {
  }

  /** tryParsingNumber on a numeric field: the field updated on success, and the failure flag. */
  function NumberEntry(s: Settings, f: Field, value: string): (Settings, bool)
    requires IsNumeric(f)
  {
    var r := TryParsingNumber(Number(s, f), value);
    (SetNumber(s, f, r.0), r.1)
  }

  /**
   * addSingleEntry(key, value): the new settings and whether the entry asks
   * for exit. The key selects at most one field: a text field takes the
   * value, a numeric field goes through tryParsingNumber.
   */
  function Entry(s: Settings, key: string, value: string): (Settings, bool)
  {
    match FieldOf(key)
    case None => (s, false)
    case Some(f) =>
      if IsNumeric(f) then NumberEntry(s, f, value)
      else (SetText(s, f, value), false)
  }

  /** An unknown key changes nothing and is no error. */
  lemma {:induction false} EntryIgnoresUnknown(s: Settings, key: string, value: string)
    requires FieldOf(key) == None
    ensures Entry(s, key, value) == (s, false)
  {
  }

  /** A text key stores the value verbatim, even an empty one, and touches nothing else. */
  lemma {:induction false} EntryText(s: Settings, key: string, value: string, f: Field)
    requires FieldOf(key) == Some(f) && !IsNumeric(f)
    ensures !Entry(s, key, value).1
    ensures Text(Entry(s, key, value).0, f) == value
    ensures forall g :: g != f && !IsNumeric(g) ==> Text(Entry(s, key, value).0, g) == Text(s, g)
    ensures forall g :: IsNumeric(g) ==> Number(Entry(s, key, value).0, g) == Number(s, g)
  {
    SetTextFacts(s, f, value);
  }

  /**
   * A numeric key asks for exit exactly when the value is not a number, and
   * then leaves the field as it was; otherwise it stores the parsed number.
   */
  lemma {:induction false} EntryNumber(s: Settings, key: string, value: string, f: Field)
    requires FieldOf(key) == Some(f) && IsNumeric(f)
    ensures Entry(s, key, value).1 <==> Stoul(value).None?
    ensures Number(Entry(s, key, value).0, f) ==
      if Stoul(value).None? then Number(s, f) else ToInt(Stoul(value).value)
    ensures forall g :: g != f && IsNumeric(g) ==> Number(Entry(s, key, value).0, g) == Number(s, g)
    ensures forall g :: !IsNumeric(g) ==> Text(Entry(s, key, value).0, g) == Text(s, g)
  {
    SetNumberFacts(s, f, TryParsingNumber(Number(s, f), value).0);
  }

  // ---------------------------------------------------------------------
  // Lines
  // ---------------------------------------------------------------------

  /** Position of the first '=' in line, if any. */
  function FindEquals(line: string, from: nat): (i: Option<nat>)
    requires from <= |line|
    ensures i.Some? ==> from <= i.value < |line| && line[i.value] == '='
    ensures i.Some? ==> forall m :: from <= m < i.value ==> line[m] != '='
    ensures i.None? ==> forall m :: from <= m < |line| ==> line[m] != '='
    decreases |line| - from
  {
    if from == |line| then None
    else if line[from] == '=' then Some(from)
    else FindEquals(line, from + 1)
  }

  /** A line split at its first '=' into key and value; None if there is no '='. */
  function SplitLine(line: string): (r: Option<(string, string)>)
    ensures r.None? <==> '=' !in line
    ensures r.Some? ==> line == r.value.0 + "=" + r.value.1 && '=' !in r.value.0
  {
    match FindEquals(line, 0)
    case None => None
    case Some(i) =>
      assert line == line[..i] + "=" + line[i + 1..] by {
        assert line == line[..i] + line[i..];
        assert line[i..] == [line[i]] + line[i + 1..];
      }
      Some((line[..i], line[i + 1..]))
  }

  /** One pass of the reading loop: a line without '=' is an error, the others go to addSingleEntry. */
  function LineStep(s: Settings, line: string): (Settings, bool)
  {
    match SplitLine(line)
    case None => (s, true)
    case Some((key, value)) => Entry(s, key, value)
  }

  /** All lines in order: the final settings and whether any line asked for exit. */
  function ApplyLines(s: Settings, lines: seq<string>): (Settings, bool)
    decreases |lines|
  {
    if lines == [] then (s, false)
    else
      var (before, failed) := ApplyLines(s, lines[..|lines| - 1]);
      var (after, failedHere) := LineStep(before, lines[|lines| - 1]);
      (after, failed || failedHere)
  }

  /** One more line: the settings and the exit flag after the prefix of length j, from those after the prefix of length i = j - 1. */
  lemma {:induction false} ApplyLinesStep(s: Settings, lines: seq<string>, i: int, j: int)
    requires 0 <= i < |lines| && j == i + 1
    ensures var (before, failed) := ApplyLines(s, lines[..i]);
      var (after, failedHere) := LineStep(before, lines[i]);
      ApplyLines(s, lines[..j]) == (after, failed || failedHere)
  {
    assert lines[..j][..i] == lines[..i];
    assert lines[..j][|lines[..j]| - 1] == lines[i];
  }

  /** A single line without '=' makes the whole file fail, whatever the other lines hold. */
  lemma {:induction false} LineWithoutEqualsFails(s: Settings, lines: seq<string>, i: nat)
    requires i < |lines| && '=' !in lines[i]
    ensures ApplyLines(s, lines).1
    decreases |lines|
  {
    if i < |lines| - 1 {
      LineWithoutEqualsFails(s, lines[..|lines| - 1], i);
    }
  }

  /** Lines with unknown keys can be dropped: they change neither the settings nor the verdict. */
  lemma {:induction false} UnknownLineIgnored(s: Settings, lines: seq<string>, line: string)
    requires SplitLine(line).Some? && FieldOf(SplitLine(line).value.0) == None
    ensures ApplyLines(s, lines + [line]) == ApplyLines(s, lines)
  {
    assert (lines + [line])[..|lines|] == lines;
    var (before, _) := ApplyLines(s, lines);
    EntryIgnoresUnknown(before, SplitLine(line).value.0, SplitLine(line).value.1);
  }

  // ---------------------------------------------------------------------
  // Checks after reading
  // ---------------------------------------------------------------------

  /** Each check loadConfig makes after the lines, in its order. */
  datatype Problem =
    | CachePathMissing | DataPathMissing | HeightUrlMissing | OverlayUrlMissing
    | HeightKeyMissing | OverlayKeyMissing
    | MemoryCacheOutOfRange | DiskCacheOutOfRange | DiskCacheBelowFourTimesMemory
    | LowMeshOutOfRange | MediumMeshOutOfRange | HighMeshOutOfRange
    | WorkersOutOfRange | MaxZoomOutOfRange

  function If(c: bool, p: Problem): seq<Problem> { if c then [p] else [] }

  /** Every failing check, in order: each one is reported, none stops the others. */
  function Problems(s: Settings): seq<Problem>
  {
    If(s.diskCachePath == "", CachePathMissing) +
    If(s.dataPath == "", DataPathMissing) +
    If(s.heightDataServiceUrl == "", HeightUrlMissing) +
    If(s.overlayDataServiceUrl == "", OverlayUrlMissing) +
    If(s.heightDataServiceKey == "", HeightKeyMissing) +
    If(s.overlayDataServiceKey == "", OverlayKeyMissing) +
    If(s.memoryCacheSize < 200 || s.memoryCacheSize > 500, MemoryCacheOutOfRange) +
    If(s.diskCacheSize < 400 || s.diskCacheSize > 8000, DiskCacheOutOfRange) +
    If(s.diskCacheSize < 4 * s.memoryCacheSize, DiskCacheBelowFourTimesMemory) +
    If(s.lowMeshRes < 8 || s.lowMeshRes > 512, LowMeshOutOfRange) +
    If(s.mediumMeshRes < 8 || s.mediumMeshRes > 512, MediumMeshOutOfRange) +
    If(s.highMeshRes < 8 || s.highMeshRes > 512, HighMeshOutOfRange) +
    If(s.numLoadWorkers < 1 || s.numLoadWorkers > 8, WorkersOutOfRange) +
    If(s.maxZoom < 0 || s.maxZoom >= 30, MaxZoomOutOfRange)
  }

  /** The documented acceptance conditions, stated directly. */
  predicate Acceptable(s: Settings)
  {
    s.diskCachePath != "" && s.dataPath != "" &&
    s.heightDataServiceUrl != "" && s.overlayDataServiceUrl != "" &&
    s.heightDataServiceKey != "" && s.overlayDataServiceKey != "" &&
    200 <= s.memoryCacheSize <= 500 &&
    400 <= s.diskCacheSize <= 8000 && s.diskCacheSize >= 4 * s.memoryCacheSize &&
    8 <= s.lowMeshRes <= 512 && 8 <= s.mediumMeshRes <= 512 && 8 <= s.highMeshRes <= 512 &&
    1 <= s.numLoadWorkers <= 8 &&
    0 <= s.maxZoom <= 29
  }

  /** No check fails exactly when the settings meet every acceptance condition. */
  lemma {:induction false} NoProblemsIffAcceptable(s: Settings)
    ensures Problems(s) == [] <==> Acceptable(s)
  {
  }

  /** What accepted settings guarantee the rest of the program. */
  lemma {:induction false} AcceptedBounds(s: Settings)
    requires Acceptable(s)
    ensures s.memoryCacheSize >= 1 && s.diskCacheSize >= 800
    ensures s.diskCacheSize > s.memoryCacheSize
    ensures s.maxZoom + 1 <= 31
    ensures s.lowMeshRes >= 1 && s.mediumMeshRes >= 1 && s.highMeshRes >= 1
    ensures s.numLoadWorkers >= 1
  {
  }

  /** How loadConfig ends. */
  datatype LoadOutcome = Loaded | Exit(code: int)

  /** The whole of loadConfig on settings s: open failure, lines, checks, one exit decision. */
  function LoadResult(s: Settings, isOpen: bool, lines: seq<string>): (r: (Settings, LoadOutcome))
  {
    if !isOpen then (s, Exit(1))
    else
      var (after, failed) := ApplyLines(s, lines);
      (after, if failed || Problems(after) != [] then Exit(1) else Loaded)
  }

  /** loadConfig returns only with acceptable settings; every other path exits with status 1. */
  lemma {:induction false} LoadedIsAcceptable(s: Settings, isOpen: bool, lines: seq<string>)
    ensures LoadResult(s, isOpen, lines).1 == Loaded <==>
      isOpen && !ApplyLines(s, lines).1 && Acceptable(ApplyLines(s, lines).0)
    ensures LoadResult(s, isOpen, lines).1 != Loaded ==> LoadResult(s, isOpen, lines).1 == Exit(1)
  {
    NoProblemsIffAcceptable(ApplyLines(s, lines).0);
  }

  // ---------------------------------------------------------------------
  // The object
  // ---------------------------------------------------------------------

  class ConfigManager {
    var diskCachePath: string
    var heightDataServiceUrl: string
    var overlayDataServiceUrl: string
    var heightDataServiceKey: string
    var overlayDataServiceKey: string
    var dataPath: string
    var memoryCacheSize: int
    var diskCacheSize: int
    var lowMeshRes: int
    var mediumMeshRes: int
    var highMeshRes: int
    var numLoadWorkers: int
    var maxZoom: int

    function Snapshot(): Settings
      reads this
    {
      Settings(diskCachePath, heightDataServiceUrl, overlayDataServiceUrl,
               heightDataServiceKey, overlayDataServiceKey, dataPath,
               memoryCacheSize, diskCacheSize, lowMeshRes, mediumMeshRes,
               highMeshRes, numLoadWorkers, maxZoom)
    }

    /** Strings start empty; the numbers start at 0. */
    constructor ()
      ensures Snapshot() == Settings("", "", "", "", "", "", 0, 0, 0, 0, 0, 0, 0)
    {
      diskCachePath, heightDataServiceUrl, overlayDataServiceUrl := "", "", "";
      heightDataServiceKey, overlayDataServiceKey, dataPath := "", "", "";
      memoryCacheSize, diskCacheSize, lowMeshRes, mediumMeshRes := 0, 0, 0, 0;
      highMeshRes, numLoadWorkers, maxZoom := 0, 0, 0;
    }

    /** Store a text value in the field f. */
    method AssignText(f: Field, t: string)
      requires !IsNumeric(f)
      modifies this
      ensures Snapshot() == SetText(old(Snapshot()), f, t)
    {
      match f
      case DiskCachePath => diskCachePath := t;
      case HeightDataServiceUrl => heightDataServiceUrl := t;
      case OverlayDataServiceUrl => overlayDataServiceUrl := t;
      case HeightDataServiceKey => heightDataServiceKey := t;
      case OverlayDataServiceKey => overlayDataServiceKey := t;
      case DataPath => dataPath := t;
    }

    /** Store a number in the field f. */
    method AssignNumber(f: Field, n: int)
      requires IsNumeric(f)
      modifies this
      ensures Snapshot() == SetNumber(old(Snapshot()), f, n)
    {
      match f
      case MemoryCacheSize => memoryCacheSize := n;
      case DiskCacheSize => diskCacheSize := n;
      case LowMeshRes => lowMeshRes := n;
      case MediumMeshRes => mediumMeshRes := n;
      case HighMeshRes => highMeshRes := n;
      case NumLoadWorkers => numLoadWorkers := n;
      case MaxZoom => maxZoom := n;
    }

    /**
     * addSingleEntry: the key is compared with each name in turn (FieldOf);
     * as the names are distinct at most one comparison succeeds. A text
     * field takes the value; a numeric field goes through tryParsingNumber,
     * whose failure is reported.
     */
    method AddSingleEntry(key: string, value: string) returns (shouldExit: bool)
      modifies this
      ensures Snapshot() == Entry(old(Snapshot()), key, value).0
      ensures shouldExit == Entry(old(Snapshot()), key, value).1
    {
      shouldExit := false;
      var field := FieldOf(key);
      if field.Some? {
        var f := field.value;
        if IsNumeric(f) {
          var parsed := TryParsingNumber(Number(Snapshot(), f), value);
          AssignNumber(f, parsed.0);
          shouldExit := shouldExit || parsed.1;
        } else {
          AssignText(f, value);
        }
      }
    }

    /**
     * loadConfig over the lines of the file (isOpen says whether it could
     * be opened): every line, then every check, then a single verdict.
     */
    method LoadConfig(isOpen: bool, lines: seq<string>) returns (outcome: LoadOutcome)
      modifies this
      ensures (Snapshot(), outcome) == LoadResult(old(Snapshot()), isOpen, lines)
    {
      if !isOpen {
        return Exit(1);
      }
      var shouldExit := false;
      var i := 0;
      while i < |lines|
        invariant 0 <= i <= |lines|
        invariant (Snapshot(), shouldExit) == ApplyLines(old(Snapshot()), lines[..i])
      {
        var line := lines[i];
        var j := i + 1;
        ApplyLinesStep(old(Snapshot()), lines, i, j);
        var split := SplitLine(line);
        if split.Some? {
          var failed := AddSingleEntry(split.value.0, split.value.1);
          shouldExit := shouldExit || failed;
        } else {
          shouldExit := true;
        }
        i := j;
      }
      assert lines[..i] == lines;
      var problems := Problems(Snapshot());
      if problems != [] {
        shouldExit := true;
      }
      outcome := if shouldExit then Exit(1) else Loaded;
    }
  }

  /** The process-wide instance behind getInstance. */
  class ConfigRegistry {
    var manager: ConfigManager?

    constructor ()
      ensures manager == null
    {
      manager := null;
    }

    /** getInstance: creates the manager, with empty texts and zero numbers, on the first call and returns that same one ever after. */
    method GetInstance() returns (m: ConfigManager)
      modifies this
      ensures old(manager) != null ==> m == old(manager)
      ensures old(manager) == null ==> fresh(m) && m.Snapshot() == Settings("", "", "", "", "", "", 0, 0, 0, 0, 0, 0, 0)
      ensures manager == m
    {
      if manager == null {
        manager := new ConfigManager();
      }
      m := manager;
    }
  }
}
