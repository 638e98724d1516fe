/**
 * The `Utils` helpers of `config.js`: the file extension of a name, the type and
 * size check of an uploaded file, and thousands separators.
 */
module Utils {
  import opened JsText

  /** `APP_CONFIG.files.maxSizeMB`. */
  const MAX_SIZE_MB: nat := 50

  /** `APP_CONFIG.files.supportedTypes`. */
  const SUPPORTED_TYPES: seq<string> := [".csv", ".xlsx", ".xls", ".json"]

  /** `2^32`: `x >>> 0` is `x` modulo this. */
  const TWO_32: int := 0x1_0000_0000

  /** `s.slice(start)` for `start >= 0`: empty once `start` passes the end. */
  function SliceFrom(s: string, start: nat): (r: string)
    ensures start <= |s| ==> r == s[start..]
    ensures start >= |s| ==> r == []
  {
    if start >= |s| then [] else s[start..]
  }

  /** `(i - 1 >>> 0) + 2`: the index `getFileExtension` slices from, for the index
      `i` of the last dot. */
  function SliceStart(i: int): nat {
    (i - 1) % TWO_32 + 2
  }

  /** `filename.slice((filename.lastIndexOf(".") - 1 >>> 0) + 2)`: the text
      `getFileExtension` lower-cases. With no dot the index -1 becomes `2^32 - 2`,
      with the dot at 0 it becomes `2^32 - 1`; either way the slice starts past the
      end of any real name. */
  function RawExtension(filename: string): string {
    SliceFrom(filename, SliceStart(LastIndexOf(filename, '.')))
  }

  /** `Utils.getFileExtension(filename)`. */
  function GetFileExtension(filename: string): string {
    ToLower(RawExtension(filename))
  }

  /** With no dot, or with the only dot as the first character, `getFileExtension`
      returns `""`: the wrapped start index lies past the end of the name. */
  lemma FileExtensionEmpty(filename: string)
    requires |filename| < TWO_32
    requires LastIndexOf(filename, '.') <= 0
    ensures GetFileExtension(filename) == []
  {
    var i := LastIndexOf(filename, '.');
    WrappedStart(i);
    assert RawExtension(filename) == [];
  }

  /** `-2 >>> 0` and `-1 >>> 0` are `2^32 - 2` and `2^32 - 1`. */
  lemma WrappedStart(i: int)
    requires -1 <= i <= 0
    ensures SliceStart(i) >= TWO_32
  {
    if i == -1 {
      assert (i - 1) % TWO_32 == TWO_32 - 2;
    } else {
      assert (i - 1) % TWO_32 == TWO_32 - 1;
    }
  }

  /** Otherwise `getFileExtension` returns the text after the last dot, which holds
      no dot, lower-cased character by character; it is `""` for a name that ends
      in a dot. */
  lemma FileExtensionAfterLastDot(filename: string)
    requires |filename| <= TWO_32
    requires LastIndexOf(filename, '.') >= 1
    ensures var i := LastIndexOf(filename, '.');
      && RawExtension(filename) == filename[i + 1..]
      && |GetFileExtension(filename)| == |filename| - i - 1
      && (forall j :: 0 <= j < |filename| - i - 1 ==> GetFileExtension(filename)[j] == LowerChar(filename[i + 1 + j]))
      && '.' !in GetFileExtension(filename)
  {
    var i := LastIndexOf(filename, '.');
    SmallStart(i);
    var raw := RawExtension(filename);
    assert raw == filename[i + 1..];
    forall j | 0 <= j < |raw|
      ensures GetFileExtension(filename)[j] == LowerChar(filename[i + 1 + j])
    {
      LowerAt(raw, j);
    }
    AfterLastDot(filename);
    LowerKeepsDots(raw);
  }

  /** `x - 1 >>> 0` is `x - 1` itself for `1 <= x <= 2^32`. */
  lemma SmallStart(i: int)
    requires 1 <= i <= TWO_32
    ensures SliceStart(i) == i + 1
  {
  }

  /** The text after the last dot holds no dot. */
  lemma AfterLastDot(filename: string)
    requires LastIndexOf(filename, '.') >= 0
    ensures '.' !in filename[LastIndexOf(filename, '.') + 1..]
  {
    var i := LastIndexOf(filename, '.');
    var ext := filename[i + 1..];
    LastIndexOfSpec(filename, '.');
    forall j | 0 <= j < |ext|
      ensures ext[j] != '.'
    {
      assert ext[j] == filename[i + 1 + j];
    }
  }

  /** `ToLower` never turns another character into a dot. */
  lemma LowerKeepsDots(s: string)
    ensures '.' in ToLower(s) <==> '.' in s
  {
    if '.' in s {
      var j :| 0 <= j < |s| && s[j] == '.';
      LowerAt(s, j);
    }
    if '.' in ToLower(s) {
      var j :| 0 <= j < |s| && ToLower(s)[j] == '.';
      LowerAt(s, j);
    }
  }

  /** What `validateFile` returns: `{valid: true}` or `{valid: false, error}`. */
  datatype Validation = Valid | Invalid(error: string)

  /** `validateFile(file)` for a file of `size` bytes: the extension is checked
      first, then the size in MiB against the limit. */
  function ValidateFile(name: string, size: nat): Validation {
    var ext := "." + GetFileExtension(name);
    var sizeMB := size as real / 1048576.0;
    if ext !in SUPPORTED_TYPES then Invalid("Unsupported file type")
    else if sizeMB > MAX_SIZE_MB as real then Invalid("File too large (max " + NatToString(MAX_SIZE_MB) + "MB)")
    else Valid
  }

  /** A file is accepted exactly when its extension is supported and it is at most
      50 MiB; an unsupported type is reported whatever the size, and a file of
      exactly 50 MiB is accepted. */
  lemma ValidateFileSpec(name: string, size: nat)
    ensures var ext := "." + GetFileExtension(name);
      && (ValidateFile(name, size) == Valid <==> ext in SUPPORTED_TYPES && size <= 50 * 1024 * 1024)
      && (ext !in SUPPORTED_TYPES ==> ValidateFile(name, size) == Invalid("Unsupported file type"))
      && (ext in SUPPORTED_TYPES && size > 50 * 1024 * 1024 ==>
            ValidateFile(name, size) == Invalid("File too large (max 50MB)"))
  {
    assert NatToString(MAX_SIZE_MB) == "50" by {
      assert NatToString(5) == "5";
    }
    assert size as real / 1048576.0 > 50.0 <==> size > 52428800;
  }

  /** The commas `num.toString().replace(/\\B(?=(\\d{3})+(?!\\d))/g, ',')` inserts into a
      string of digits. The pattern matches each position strictly inside the
      digits (`\\B`) that is followed by whole groups of three up to the end, so
      the last three digits get a comma before them when more digits precede, and
      the rest is grouped the same way. */
  function InsertCommas(d: string): string
    decreases |d|
  {
    if |d| <= 3 then d
    else InsertCommas(d[..|d| - 3]) + [','] + d[|d| - 3..]
  }

  /** `Utils.formatNumber(n)` for a non-negative integer. */
  function FormatNumber(n: nat): string {
    InsertCommas(NatToString(n))
  }

  /** `t` with its commas removed. */
  function StripCommas(t: string): string {
    if t == [] then []
    else (if t[0] == ',' then [] else [t[0]]) + StripCommas(t[1..])
  }

  /** Text grouped in thousands: one to three digits, then groups of a comma and
      exactly three digits. */
  predicate WellGrouped(t: string) {
    if ',' !in t then 1 <= |t| <= 3 && AllDigits(t)
    else |t| >= 5 && t[|t| - 4] == ',' && AllDigits(t[|t| - 3..]) && WellGrouped(t[..|t| - 4])
  }

  /** Removing commas distributes over concatenation. */
  lemma {:induction false} StripCommasAppend(a: string, b: string)
    ensures StripCommas(a + b) == StripCommas(a) + StripCommas(b)
  {
    if a == [] {
      assert a + b == b;
    } else {
      assert (a + b)[0] == a[0];
      assert (a + b)[1..] == a[1..] + b;
      StripCommasAppend(a[1..], b);
    }
  }

  /** A string of digits has no comma to remove. */
  lemma {:induction false} StripCommasDigits(d: string)
    requires AllDigits(d)
    ensures StripCommas(d) == d
  {
    if d != [] {
      StripCommasDigits(d[1..]);
    }
  }

  /** A number of `k` digits gets one comma per full group of three after the
      first digit. */
  lemma {:induction false} InsertCommasLength(d: string)
    requires |d| >= 1
    ensures |InsertCommas(d)| == |d| + (|d| - 1) / 3
    decreases |d|
  {
    if |d| > 3 {
      InsertCommasLength(d[..|d| - 3]);
    }
  }

  /** Inserting commas into digits gives text grouped in thousands. */
  lemma {:induction false} InsertCommasGrouped(d: string)
    requires |d| >= 1 && AllDigits(d)
    ensures WellGrouped(InsertCommas(d))
    decreases |d|
  {
    if |d| > 3 {
      InsertCommasGrouped(d[..|d| - 3]);
      GroupedAppend(InsertCommas(d[..|d| - 3]), d[|d| - 3..]);
    }
  }

  /** A comma and three more digits after grouped text keep it grouped. */
  lemma GroupedAppend(front: string, b: string)
    requires WellGrouped(front) && |b| == 3 && AllDigits(b)
    ensures WellGrouped(front + [','] + b)
  {
    var t := front + [','] + b;
    assert |front| >= 1;
    assert t[|t| - 4] == ',';
    assert t[..|t| - 4] == front;
    assert t[|t| - 3..] == b;
  }

  /** Removing the inserted commas gives back the digits. */
  lemma {:induction false} InsertCommasStrip(d: string)
    requires AllDigits(d)
    ensures StripCommas(InsertCommas(d)) == d
    decreases |d|
  {
    if |d| <= 3 {
      StripCommasDigits(d);
    } else {
      var a, b := d[..|d| - 3], d[|d| - 3..];
      InsertCommasStrip(a);
      StripGroup(InsertCommas(a), b);
      assert a + b == d;
    }
  }

  /** Removing commas drops the comma before a three-digit group and keeps the group. */
  lemma StripGroup(front: string, b: string)
    requires AllDigits(b)
    ensures StripCommas(front + [','] + b) == StripCommas(front) + b
  {
    StripCommasAppend(front + [','], b);
    StripCommasAppend(front, [',']);
    assert StripCommas([',']) == [];
    StripCommasDigits(b);
  }

  /** `formatNumber(n)` is grouped in thousands, and removing its commas gives back
      `n.toString()`. */
  lemma FormatNumberSpec(n: nat)
    ensures WellGrouped(FormatNumber(n))
    ensures StripCommas(FormatNumber(n)) == NatToString(n)
  {
    InsertCommasGrouped(NatToString(n));
    InsertCommasStrip(NatToString(n));
  }
}
