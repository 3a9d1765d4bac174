/**
 * Character classes and string helpers shared by the whole model.
 *
 * JavaScript strings are modelled as `seq<char>`. The character classes are
 * the ones the scripts' regular expressions use (no `u` flag), written out
 * explicitly: `\w`, `\s`, `\d` and the CJK range U+4E00..U+9FA5.
 */
module Text {

  datatype Option<T> = None | Some(value: T)

  /** `\d`: an ASCII decimal digit. */
  predicate IsDigit(c: char) {
    '0' <= c <= '9'
  }

  /** `\w`: `[A-Za-z0-9_]`. */
  predicate IsWordChar(c: char) {
    'a' <= c <= 'z' || 'A' <= c <= 'Z' || IsDigit(c) || c == '_'
  }

  /**
   * `\s`, which is also the set that `String.prototype.trim` strips:
   * the ECMAScript WhiteSpace and LineTerminator code points.
   */
  predicate IsSpace(c: char) {
    || c == '\t' || c == '\n' || c == '\U{000B}' || c == '\U{000C}' || c == '\r'
    || c == ' ' || c == '\U{00A0}' || c == '\U{1680}'
    || ('\U{2000}' <= c <= '\U{200A}')
    || c == '\U{2028}' || c == '\U{2029}' || c == '\U{202F}' || c == '\U{205F}'
    || c == '\U{3000}' || c == '\U{FEFF}'
  }

  /** The CJK range `一-龥` kept by the upload-name sanitiser. */
  predicate IsCjk(c: char) {
    '\U{4E00}' <= c <= '\U{9FA5}'
  }

  /** `[\x00-\x7F]`. */
  predicate IsAscii(c: char) {
    c <= '\U{007F}'
  }

  predicate StartsWith(s: string, prefix: string) {
    |prefix| <= |s| && s[..|prefix|] == prefix
  }

  predicate EndsWith(s: string, suffix: string) {
    |suffix| <= |s| && s[|s| - |suffix|..] == suffix
  }

  /** Every character of `s` satisfies `p`. */
  predicate All(s: string, p: char -> bool) {
    forall i :: 0 <= i < |s| ==> p(s[i])
  }

  /** No two adjacent characters of `s` are both `c`. */
  predicate NoDoubled(s: string, c: char) {
    forall i :: 0 <= i < |s| - 1 ==> !(s[i] == c && s[i + 1] == c)
  }

  lemma AllPrefix(s: string, n: nat, p: char -> bool)
    requires All(s, p) && n <= |s|
    ensures All(s[..n], p)
  {
  }

  lemma NoDoubledPrefix(s: string, n: nat, c: char)
    requires NoDoubled(s, c) && n <= |s|
    ensures NoDoubled(s[..n], c)
  {
    forall i | 0 <= i < n - 1 ensures !(s[..n][i] == c && s[..n][i + 1] == c) {
      assert s[..n][i] == s[i] && s[..n][i + 1] == s[i + 1];
    }
  }

  function Min(a: nat, b: nat): nat {
    if a < b then a else b
  }

  /** `x || fallback` on a string: the empty string is the only falsy one. */
  function OrElse(x: string, fallback: string): (r: string)
    ensures r == x || (x == "" && r == fallback)
    ensures fallback != "" ==> r != ""
  {
    if x == "" then fallback else x
  }

  // ---------------------------------------------------------------------
  // UTF-16 length

  /**
   * How many UTF-16 code units `c` takes: two for a code point outside the
   * Basic Multilingual Plane (a surrogate pair), one otherwise.
   */
  function Utf16Units(c: char): nat {
    if c as int >= 0x1_0000 then 2 else 1
  }

  /** `s.length` in JavaScript: the number of UTF-16 code units. */
  function Utf16Length(s: string): (n: nat)
    ensures |s| <= n <= 2 * |s|
  {
    if s == [] then 0 else Utf16Length(s[..|s| - 1]) + Utf16Units(s[|s| - 1])
  }

  /** In the Basic Multilingual Plane, code units and code points agree. */
  lemma {:induction false} Utf16LengthBmp(s: string)
    requires forall i :: 0 <= i < |s| ==> s[i] as int < 0x1_0000
    ensures Utf16Length(s) == |s|
    decreases |s|
  {
    if s != [] {
      Utf16LengthBmp(s[..|s| - 1]);
    }
  }

  /** Outside it, every code point counts twice. */
  lemma {:induction false} Utf16LengthAstral(s: string)
    requires forall i :: 0 <= i < |s| ==> s[i] as int >= 0x1_0000
    ensures Utf16Length(s) == 2 * |s|
    decreases |s|
  {
    if s != [] {
      Utf16LengthAstral(s[..|s| - 1]);
    }
  }

  /** `s.split(sep)[0]`: the text before the first `sep`, or all of `s`. */
  function FirstField(s: string, sep: char): (r: string)
    ensures sep !in r && StartsWith(s, r)
    ensures |r| < |s| ==> s[|r|] == sep
  {
    if s == [] || s[0] == sep then [] else [s[0]] + FirstField(s[1..], sep)
  }

  predicate IsHyphen(c: char) {
    c == '-'
  }

  // ---------------------------------------------------------------------
  // trim

  /** The leading-whitespace half of `String.prototype.trim`. */
  function TrimStart(s: string): (r: string)
    ensures |r| <= |s| && r == s[|s| - |r|..]
    ensures forall i :: 0 <= i < |s| - |r| ==> IsSpace(s[i])
    ensures r == [] || !IsSpace(r[0])
  {
    if |s| > 0 && IsSpace(s[0]) then TrimStart(s[1..]) else s
  }

  /** The trailing-whitespace half of `String.prototype.trim`. */
  function TrimEnd(s: string): (r: string)
    ensures |r| <= |s| && r == s[..|r|]
    ensures forall i :: |r| <= i < |s| ==> IsSpace(s[i])
    ensures r == [] || !IsSpace(r[|r| - 1])
  {
    if |s| > 0 && IsSpace(s[|s| - 1]) then TrimEnd(s[..|s| - 1]) else s
  }

  /** `String.prototype.trim`: strip whitespace at both ends. */
  function Trim(s: string): (r: string)
  {
    TrimEnd(TrimStart(s))
  }

  /**
   * Trim removes exactly the whitespace runs at the two ends: the result
   * sits at some offset `k` of `s`, everything around it is whitespace, and
   * it neither starts nor ends with whitespace.
   */
  lemma TrimShape(s: string) returns (k: nat)
    ensures k + |Trim(s)| <= |s| && s[k..k + |Trim(s)|] == Trim(s)
    ensures forall i :: 0 <= i < k ==> IsSpace(s[i])
    ensures forall i :: k + |Trim(s)| <= i < |s| ==> IsSpace(s[i])
    ensures Trim(s) == [] || (!IsSpace(Trim(s)[0]) && !IsSpace(Trim(s)[|Trim(s)| - 1]))
  {
    var t := TrimStart(s);
    var r := TrimEnd(t);
    k := |s| - |t|;
    TrimEndInSuffix(s, k, t, r);
  }

  /** What `TrimEnd` keeps of the suffix `t == s[k..]`, placed back in `s`. */
  lemma TrimEndInSuffix(s: string, k: nat, t: string, r: string)
    requires k <= |s| && t == s[k..] && r == TrimEnd(t)
    ensures k + |r| <= |s| && s[k..k + |r|] == r
    ensures forall i :: k + |r| <= i < |s| ==> IsSpace(s[i])
  {
    assert r == t[..|r|];
    forall i | k + |r| <= i < |s| ensures IsSpace(s[i]) {
      assert s[i] == t[i - k];
    }
  }

  /** Trimming a string that has no whitespace at either end changes nothing. */
  lemma TrimNoEdgeSpace(s: string)
    requires s == [] || (!IsSpace(s[0]) && !IsSpace(s[|s| - 1]))
    ensures Trim(s) == s
  {
  }

  // ---------------------------------------------------------------------
  // ASCII case mapping

  function LowerChar(c: char): char {
    if 'A' <= c <= 'Z' then (c as int - 'A' as int + 'a' as int) as char else c
  }

  function UpperChar(c: char): char {
    if 'a' <= c <= 'z' then (c as int - 'a' as int + 'A' as int) as char else c
  }

  /** `String.prototype.toLowerCase` on the ASCII letters. */
  function ToLower(s: string): (r: string)
    ensures |r| == |s|
    ensures forall i :: 0 <= i < |s| ==> r[i] == LowerChar(s[i])
  {
    seq(|s|, i requires 0 <= i < |s| => LowerChar(s[i]))
  }

  /** `String.prototype.toUpperCase` on the ASCII letters. */
  function ToUpper(s: string): (r: string)
    ensures |r| == |s|
    ensures forall i :: 0 <= i < |s| ==> r[i] == UpperChar(s[i])
  {
    seq(|s|, i requires 0 <= i < |s| => UpperChar(s[i]))
  }

  // ---------------------------------------------------------------------
  // decimal numerals (`Number.prototype.toString()` on a non-negative integer)

  function DigitChar(d: nat): (c: char)
    requires d < 10
    ensures IsDigit(c) && c as int - '0' as int == d
  {
    (d + '0' as int) as char
  }

  function DigitValue(c: char): nat
    requires IsDigit(c)
  {
    c as int - '0' as int
  }

  /** The numeral of `n`: `String(n)`. */
  function DecimalString(n: nat): (r: string)
    ensures |r| >= 1 && All(r, IsDigit)
    ensures r[0] != '0' || n == 0
  {
    if n < 10 then [DigitChar(n)] else DecimalString(n / 10) + [DigitChar(n % 10)]
  }

  /** The value of a string of decimal digits, most significant first. */
  function DigitsValue(s: string): nat
    requires All(s, IsDigit)
  {
    if s == [] then 0 else DigitsValue(s[..|s| - 1]) * 10 + DigitValue(s[|s| - 1])
  }

  /** Reading back a numeral gives the number it was made from. */
  lemma {:induction false} DecimalStringValue(n: nat)
    ensures DigitsValue(DecimalString(n)) == n
  {
    var r := DecimalString(n);
    if n < 10 {
      assert r[..0] == [];
    } else {
      DecimalStringValue(n / 10);
      assert r[..|r| - 1] == DecimalString(n / 10);
    }
  }

  // ---------------------------------------------------------------------
  // the two shapes of global regular-expression replacement used here

  /** `s.replace(/[^keep]/g, '')`: drop every character outside `keep`. */
  function Filter(s: string, keep: char -> bool): (r: string)
    ensures |r| <= |s|
  {
    if s == [] then []
    else if keep(s[0]) then [s[0]] + Filter(s[1..], keep)
    else Filter(s[1..], keep)
  }

  /** What `Filter` keeps satisfies `keep`, and comes from `s`. */
  lemma {:induction false} FilterKeeps(s: string, keep: char -> bool)
    ensures All(Filter(s, keep), keep)
    ensures forall i :: 0 <= i < |Filter(s, keep)| ==> Filter(s, keep)[i] in s
    decreases |s|
  {
    if s != [] {
      FilterKeeps(s[1..], keep);
      var r := Filter(s, keep);
      var t := Filter(s[1..], keep);
      forall i | 0 <= i < |r| ensures keep(r[i]) && r[i] in s {
        if keep(s[0]) {
          if i > 0 {
            assert r[i] == t[i - 1];
            assert t[i - 1] in s[1..];
          }
        } else {
          assert t[i] in s[1..];
        }
      }
    }
  }

  /** `Filter` keeps a string whose every character satisfies `keep`. */
  lemma {:induction false} FilterAll(s: string, keep: char -> bool)
    requires All(s, keep)
    ensures Filter(s, keep) == s
    decreases |s|
  {
    if s != [] {
      FilterAll(s[1..], keep);
      assert s == [s[0]] + s[1..];
    }
  }

  /** Filtering distributes over concatenation. */
  lemma {:induction false} FilterAppend(a: string, b: string, keep: char -> bool)
    ensures Filter(a + b, keep) == Filter(a, keep) + Filter(b, keep)
    decreases |a|
  {
    if a == [] {
      assert a + b == b;
    } else {
      FilterAppend(a[1..], b, keep);
      assert (a + b)[0] == a[0];
      assert (a + b)[1..] == a[1..] + b;
      if keep(a[0]) {
        calc {
          Filter(a + b, keep);
          [a[0]] + Filter(a[1..] + b, keep);
          [a[0]] + (Filter(a[1..], keep) + Filter(b, keep));
          ([a[0]] + Filter(a[1..], keep)) + Filter(b, keep);
        }
      }
    }
  }

  /** Filtering out every character leaves nothing. */
  lemma {:induction false} FilterNone(s: string, keep: char -> bool)
    requires forall i :: 0 <= i < |s| ==> !keep(s[i])
    ensures Filter(s, keep) == []
    decreases |s|
  {
    if s != [] {
      FilterNone(s[1..], keep);
    }
  }

  /** The longest suffix of `s` that does not start with a run character. */
  function DropRun(s: string, inRun: char -> bool): (r: string)
    ensures |r| <= |s| && r == s[|s| - |r|..]
    ensures forall i :: 0 <= i < |s| - |r| ==> inRun(s[i])
    ensures r == [] || !inRun(r[0])
  {
    if |s| > 0 && inRun(s[0]) then DropRun(s[1..], inRun) else s
  }

  /**
   * `s.replace(/x+/g, sep)` where `x` is the class `inRun`: every maximal run
   * of run characters becomes the single character `sep`; the rest is kept.
   */
  function ReplaceRuns(s: string, inRun: char -> bool, sep: char): (r: string)
    ensures |r| <= |s| && (r == []) == (s == [])
    ensures s != [] ==> r[0] == (if inRun(s[0]) then sep else s[0])
    decreases |s|
  {
    if s == [] then []
    else if inRun(s[0]) then [sep] + ReplaceRuns(DropRun(s, inRun), inRun, sep)
    else [s[0]] + ReplaceRuns(s[1..], inRun, sep)
  }

  /** Every character of the result is `sep` or a character of `s` outside the run class. */
  lemma {:induction false} ReplaceRunsKeeps(s: string, inRun: char -> bool, sep: char)
    ensures forall i :: 0 <= i < |ReplaceRuns(s, inRun, sep)| ==>
      var c := ReplaceRuns(s, inRun, sep)[i]; c == sep || (!inRun(c) && c in s)
    decreases |s|
  {
    if s != [] {
      var r := ReplaceRuns(s, inRun, sep);
      var rest := if inRun(s[0]) then DropRun(s, inRun) else s[1..];
      ReplaceRunsKeeps(rest, inRun, sep);
      var t := ReplaceRuns(rest, inRun, sep);
      assert r[1..] == t;
      forall i | 0 <= i < |r| ensures r[i] == sep || (!inRun(r[i]) && r[i] in s) {
        if i > 0 && r[i] != sep {
          assert r[i] == t[i - 1];
          var j :| 0 <= j < |rest| && rest[j] == t[i - 1];
          assert rest[j] == s[|s| - |rest| + j];
        }
      }
    }
  }

  /** When `sep` is itself a run character, the result never doubles it. */
  lemma {:induction false} ReplaceRunsNoDoubled(s: string, inRun: char -> bool, sep: char)
    requires inRun(sep)
    ensures NoDoubled(ReplaceRuns(s, inRun, sep), sep)
    decreases |s|
  {
    if s == [] {
    } else if inRun(s[0]) {
      var rest := DropRun(s, inRun);
      ReplaceRunsNoDoubled(rest, inRun, sep);
      var r := ReplaceRuns(s, inRun, sep);
      var t := ReplaceRuns(rest, inRun, sep);
      assert r == [sep] + t;
      forall i | 0 <= i < |r| - 1 ensures !(r[i] == sep && r[i + 1] == sep) {
        if i > 0 {
          assert r[i] == t[i - 1] && r[i + 1] == t[i];
        } else {
          assert r[1] == t[0] == rest[0];
        }
      }
    } else {
      ReplaceRunsNoDoubled(s[1..], inRun, sep);
      var r := ReplaceRuns(s, inRun, sep);
      var t := ReplaceRuns(s[1..], inRun, sep);
      assert r == [s[0]] + t;
      forall i | 0 <= i < |r| - 1 ensures !(r[i] == sep && r[i + 1] == sep) {
        if i > 0 {
          assert r[i] == t[i - 1] && r[i + 1] == t[i];
        } else {
          assert r[0] == s[0] != sep;
        }
      }
    }
  }

  lemma NoDoubledTail(s: string, c: char)
    requires s != [] && NoDoubled(s, c)
    ensures NoDoubled(s[1..], c)
    ensures |s| == 1 || s[0] != c || s[1] != c
  {
    var t := s[1..];
    forall i | 0 <= i < |t| - 1 ensures !(t[i] == c && t[i + 1] == c) {
      assert t[i] == s[i + 1] && t[i + 1] == s[i + 2];
    }
  }

  /** Collapsing hyphen runs is the identity on strings without "--". */
  lemma {:induction false} ReplaceRunsFixed(s: string)
    requires NoDoubled(s, '-')
    ensures ReplaceRuns(s, IsHyphen, '-') == s
    decreases |s|
  {
    if s != [] {
      var t := s[1..];
      NoDoubledTail(s, '-');
      ReplaceRunsFixed(t);
      if IsHyphen(s[0]) {
        assert DropRun(t, IsHyphen) == t;
        assert DropRun(s, IsHyphen) == t;
      }
      assert ReplaceRuns(s, IsHyphen, '-') == [s[0]] + t;
      assert [s[0]] + t == s;
    }
  }
}
