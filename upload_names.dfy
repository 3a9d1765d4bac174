/**
 * The upload-file-name sanitiser of the server publisher (`sanitizeFileName`).
 *
 * The original name is treated as one path component: the extension is
 * split off the way Node's `path.extname` and `path.basename(name, ext)` do
 * for a name without directory separators, and only the base name is
 * cleaned. `Date.now()` is the parameter `now`.
 */
module UploadNames {
  import opened Text

  /** The limit `name.substring(0, 100)` enforces. */
  const MaxBaseLength: nat := 100

  /** A base name longer than this may be judged garbled. */
  const GarbledMinLength: nat := 20

  /** Index of the last occurrence of `c` in `s`, or -1. */
  function LastIndexOf(s: string, c: char): (k: int)
    ensures -1 <= k < |s|
    ensures k >= 0 ==> s[k] == c
    ensures forall i :: k < i < |s| ==> s[i] != c
  {
    if s == [] then -1
    else if s[|s| - 1] == c then |s| - 1
    else LastIndexOf(s[..|s| - 1], c)
  }

  /**
   * `path.extname` of a name without separators: from the last '.' to the
   * end, or "" when there is no dot, the only dot leads the name, or the
   * name is "..".
   */
  function ExtName(s: string): (e: string)
    ensures e == [] || (e[0] == '.' && 0 < |e| < |s| && EndsWith(s, e) && '.' !in e[1..])
    ensures e == [] <==> s == ".." || forall i :: 0 < i < |s| ==> s[i] != '.'
  {
    var k := LastIndexOf(s, '.');
    if k <= 0 || s == ".." then "" else s[k..]
  }

  /** `path.basename(s, suffix)` of a name without separators. */
  function BaseName(s: string, suffix: string): string
  {
    if suffix == s then ""
    else if |suffix| > 0 && EndsWith(s, suffix) then s[..|s| - |suffix|]
    else s
  }

  /** `path.extname(filename) || '.png'`. */
  function Extension(filename: string): (e: string)
    ensures |e| > 0 && e[0] == '.'
    ensures ExtName(filename) == "" ==> e == ".png"
    ensures ExtName(filename) != "" ==> e == ExtName(filename) && EndsWith(filename, e)
  {
    var e := ExtName(filename);
    if e == "" then ".png" else e
  }

  /** The base name `sanitizeFileName` works on. */
  function Base(filename: string): string
  {
    BaseName(filename, Extension(filename))
  }

  /** When the name has an extension, the name is exactly base plus extension. */
  lemma SplitExtension(filename: string)
    requires ExtName(filename) != ""
    ensures filename == Base(filename) + Extension(filename)
  {
  }

  /**
   * `(name.match(/[^\x00-\x7F]/g) || []).length`. Without the `u` flag the
   * pattern matches single UTF-16 code units, so a character outside the
   * Basic Multilingual Plane counts twice.
   */
  function NonAsciiCount(s: string): (n: nat)
    ensures n <= Utf16Length(s)
    ensures n == 0 <==> All(s, IsAscii)
  {
    if s == [] then 0 else NonAsciiCount(s[..|s| - 1]) + (if IsAscii(s[|s| - 1]) then 0 else Utf16Units(s[|s| - 1]))
  }

  /**
   * `totalLength > 0 && nonAsciiCount / totalLength > 0.5 && name.length > 20`,
   * lengths in UTF-16 code units; the float comparison with one half is
   * exact, so it is `2 * count > length`.
   */
  predicate Garbled(name: string) {
    Utf16Length(name) > 0 && 2 * NonAsciiCount(name) > Utf16Length(name) && Utf16Length(name) > GarbledMinLength
  }

  /** Characters outside the Basic Multilingual Plane each count two non-ASCII code units. */
  lemma {:induction false} NonAsciiCountAstral(s: string)
    requires forall i :: 0 <= i < |s| ==> s[i] as int >= 0x1_0000
    ensures NonAsciiCount(s) == 2 * |s|
    decreases |s|
  {
    if s != [] {
      NonAsciiCountAstral(s[..|s| - 1]);
    }
  }

  /**
   * Eleven emoji are 22 code units, past the 20-unit floor: the base is
   * garbled although it has only eleven characters.
   */
  lemma GarbledCountsCodeUnits()
    ensures Garbled(seq(11, _ => '\U{1F600}'))
  {
    var name := seq(11, _ => '\U{1F600}');
    Utf16LengthAstral(name);
    NonAsciiCountAstral(name);
  }

  /** `[<>:"/\\|?*\x00-\x1F]`: characters Windows refuses in a file name. */
  predicate IsForbidden(c: char) {
    c in "<>:\"/\\|?*" || c <= '\U{001F}'
  }

  predicate IsAllowed(c: char) {
    !IsForbidden(c)
  }

  /** `[\w一-龥\-_]`: what the cleaned base name may contain. */
  predicate IsKept(c: char) {
    IsWordChar(c) || IsCjk(c) || c == '-'
  }

  /** `name.replace(/^-|-$/g, '')`. */
  function TrimEdgeHyphens(s: string): (r: string)
    ensures |r| <= |s|
    ensures forall i :: 0 <= i < |r| ==> r[i] in s
    ensures NoDoubled(s, '-') ==> NoDoubled(r, '-') && (r == [] || (r[0] != '-' && r[|r| - 1] != '-'))
  {
    var t := if |s| > 0 && s[0] == '-' then s[1..] else s;
    assert forall i :: 0 <= i < |t| ==> t[i] == s[|s| - |t| + i];
    if |t| > 0 && t[|t| - 1] == '-' then t[..|t| - 1] else t
  }

  /** What the cleaning branch promises of the base name it produces. */
  predicate CleanBase(b: string) {
    && 1 <= |b| <= MaxBaseLength
    && All(b, IsKept)
    && NoDoubled(b, '-')
    && b[0] != '-'
  }

  /** The chain of replaces of lines 54-66, before the empty check and the cap. */
  function CleaningResult(name: string): string {
    TrimEdgeHyphens(ReplaceRuns(Filter(ReplaceRuns(Filter(name, IsAllowed), IsSpace, '-'), IsKept), IsHyphen, '-'))
  }

  /** The chain leaves only kept characters, never "--", and no hyphen in front. */
  lemma CleaningChain(name: string) returns (t: string)
    ensures t == CleaningResult(name)
    ensures All(t, IsKept) && NoDoubled(t, '-')
    ensures t == [] || t[0] != '-'
  {
    var a := Filter(name, IsAllowed);
    var b := ReplaceRuns(a, IsSpace, '-');
    var c := Filter(b, IsKept);
    FilterKeeps(b, IsKept);
    var d := ReplaceRuns(c, IsHyphen, '-');
    ReplaceRunsNoDoubled(c, IsHyphen, '-');
    ReplaceRunsKeeps(c, IsHyphen, '-');
    assert All(d, IsKept) by {
      forall i | 0 <= i < |d| ensures IsKept(d[i]) {
        if d[i] != '-' {
          var j :| 0 <= j < |c| && c[j] == d[i];
        }
      }
    }
    t := TrimEdgeHyphens(d);
    forall i | 0 <= i < |t| ensures IsKept(t[i]) {
      var j :| 0 <= j < |d| && d[j] == t[i];
    }
  }

  /** Collapsing hyphen runs a second time changes nothing. */
  lemma CollapseHyphensIdempotent(s: string)
    ensures ReplaceRuns(ReplaceRuns(s, IsHyphen, '-'), IsHyphen, '-') == ReplaceRuns(s, IsHyphen, '-')
  {
    ReplaceRunsNoDoubled(s, IsHyphen, '-');
    ReplaceRunsFixed(ReplaceRuns(s, IsHyphen, '-'));
  }

  lemma DigitsAreKept(s: string)
    requires All(s, IsDigit)
    ensures All(s, IsKept) && '/' !in s
  {
    assert forall i :: 0 <= i < |s| ==> IsDigit(s[i]) && s[i] != '/';
  }

  /**
   * Kept characters all lie in the Basic Multilingual Plane, so the
   * `name.length > 100` test and `substring(0, 100)` count them one each.
   */
  lemma KeptIsBmp(s: string)
    requires All(s, IsKept)
    ensures Utf16Length(s) == |s|
  {
    assert forall i :: 0 <= i < |s| ==> IsKept(s[i]) && s[i] as int < 0x1_0000;
    Utf16LengthBmp(s);
  }

  lemma KeptHasNoSlash(s: string)
    requires All(s, IsKept)
    ensures '/' !in s
  {
    assert forall i :: 0 <= i < |s| ==> IsKept(s[i]) && s[i] != '/';
  }

  lemma ExtensionNoSlash(filename: string)
    ensures '/' !in filename ==> '/' !in Extension(filename)
  {
    var e := ExtName(filename);
    if e != "" && '/' !in filename {
      forall i | 0 <= i < |e| ensures e[i] != '/' {
        assert e[i] == filename[|filename| - |e| + i];
      }
    }
  }

  /** The name and extension can be read back off their concatenation. */
  lemma JoinParts(name: string, ext: string)
    ensures EndsWith(name + ext, ext) && (name + ext)[..|name|] == name
    ensures '/' !in name && '/' !in ext ==> '/' !in name + ext
  {
    assert (name + ext)[|name|..] == ext;
  }

  /**
   * The cleaning branch of `sanitizeFileName` (lines 54-74): the chain of
   * replaces, the timestamp when nothing is left, and the 100-character cap.
   */
  method CleanName(name: string, now: nat) returns (b: string)
    ensures CleanBase(b) && Utf16Length(b) == |b|
    ensures CleaningResult(name) != "" ==> b == CleaningResult(name)[..Min(|CleaningResult(name)|, MaxBaseLength)]
    ensures CleaningResult(name) == "" ==> b == DecimalString(now)[..Min(|DecimalString(now)|, MaxBaseLength)]
  {
    ghost var t := CleaningChain(name);
    b := Filter(name, IsAllowed);
    b := ReplaceRuns(b, IsSpace, '-');
    b := Filter(b, IsKept);
    b := ReplaceRuns(b, IsHyphen, '-');
    b := TrimEdgeHyphens(b);
    assert b == t;
    if b == "" {
      b := DecimalString(now);
      DigitsAreKept(b);
    }
    ghost var full := b;
    KeptIsBmp(b);
    if Utf16Length(b) > MaxBaseLength {
      AllPrefix(b, MaxBaseLength, IsKept);
      NoDoubledPrefix(b, MaxBaseLength, '-');
      b := b[..MaxBaseLength];
    }
    assert b == full[..Min(|full|, MaxBaseLength)];
    KeptIsBmp(b);
  }

  /**
   * `sanitizeFileName(filename)`: the name multer stores an upload under.
   * An empty name becomes `<now>.png`. Otherwise the extension (or ".png")
   * is kept verbatim; a long, mostly non-ASCII base name is replaced by the
   * timestamp, any other base name is cleaned to a `CleanBase`.
   */
  method SanitizeFileName(filename: string, now: nat) returns (r: string)
    ensures filename == "" ==> r == DecimalString(now) + ".png"
    ensures filename != "" ==> EndsWith(r, Extension(filename))
    ensures filename != "" && Garbled(Base(filename)) ==>
      r == DecimalString(now) + Extension(filename)
    ensures filename != "" && !Garbled(Base(filename)) ==> CleanBase(r[..|r| - |Extension(filename)|])
    ensures filename != "" && !Garbled(Base(filename)) && CleaningResult(Base(filename)) != "" ==>
      r == CleaningResult(Base(filename))[..Min(|CleaningResult(Base(filename))|, MaxBaseLength)] + Extension(filename)
    ensures filename != "" && !Garbled(Base(filename)) && CleaningResult(Base(filename)) == "" ==>
      r == DecimalString(now)[..Min(|DecimalString(now)|, MaxBaseLength)] + Extension(filename)
    ensures '/' !in filename ==> '/' !in r
  {
    if filename == "" {
      DigitsAreKept(DecimalString(now));
      return DecimalString(now) + ".png";
    }
    var ext := Extension(filename);
    var name := BaseName(filename, ext);
    var totalLength := Utf16Length(name);
    if totalLength > 0 && 2 * NonAsciiCount(name) > totalLength && totalLength > GarbledMinLength {
      name := DecimalString(now);
      DigitsAreKept(name);
    } else {
      name := CleanName(name, now);
    }
    KeptHasNoSlash(name);
    ExtensionNoSlash(filename);
    r := name + ext;
    JoinParts(name, ext);
  }
}
