/**
 * The theme's page script (`assets/js/main.js`): the `iUp` entrance
 * animation, which staggers its timers by a shared delay counter, and
 * `getBingImages`, which rotates the background through a list of Bing
 * wallpaper paths, refusing any path that does not match the expected
 * shape and escaping the one it uses. Timers are recorded when scheduled
 * and run when the caller fires them; `sessionStorage` and the panel's
 * style are fields.
 */
module MainScript {
  import opened Text

  // ---------------------------------------------------------------------
  // iUp

  const Duration := 150

  /** What a scheduled timer does to its element's `up` class. */
  datatype Effect = AddUp | ToggleUp

  /** `setTimeout(fn, delay)` for `element`. */
  datatype Timer = Timer(element: nat, delay: nat, effect: Effect)

  /** `effect` timers for `elements`, the i-th one at `start + 150 * i`. */
  function Staggered(elements: seq<nat>, start: nat, effect: Effect): (r: seq<Timer>)
    ensures |r| == |elements|
  {
    seq(|elements|, i requires 0 <= i < |elements| => Timer(elements[i], start + Duration * i, effect))
  }

  /** The staggered timers fire in the order they were scheduled, 150 ms apart. */
  lemma StaggeredOrder(elements: seq<nat>, start: nat, effect: Effect)
    ensures forall i :: 0 <= i < |elements| ==> Staggered(elements, start, effect)[i].element == elements[i]
    ensures forall i :: 0 <= i < |elements| - 1 ==>
      Staggered(elements, start, effect)[i + 1].delay == Staggered(elements, start, effect)[i].delay + Duration
    ensures forall i, j :: 0 <= i < j < |elements| ==>
      Staggered(elements, start, effect)[i].delay < Staggered(elements, start, effect)[j].delay
  {
  }

  /** The elements carrying `up` once the callback of timer `t` has run. */
  function Applied(up: set<nat>, t: Timer): (r: set<nat>)
    ensures forall e :: e != t.element ==> (e in r <==> e in up)
    ensures t.effect == AddUp ==> t.element in r
    ensures t.effect == ToggleUp ==> (t.element in r <==> t.element !in up)
  {
    match t.effect
    case AddUp => up + {t.element}
    case ToggleUp => if t.element in up then up - {t.element} else up + {t.element}
  }

  /** Adding twice is adding once; toggling twice restores the class. */
  lemma AppliedTwice(up: set<nat>, t: Timer)
    ensures t.effect == AddUp ==> Applied(Applied(up, t), t) == Applied(up, t)
    ensures t.effect == ToggleUp ==> Applied(Applied(up, t), t) == up
  {
    var once := Applied(up, t);
    var twice := Applied(once, t);
    assert forall e :: e in twice <==> e in (if t.effect == AddUp then once else up);
  }

  /**
   * The `iUp` closure and the elements it animates: `time` is its delay
   * counter, `timers` the timeouts still pending, `up` the elements that
   * carry the `up` class.
   */
  class IUp {
    var time: nat
    var timers: seq<Timer>
    var up: set<nat>

    /** The closure as created on page load, over elements `initiallyUp` of which carry `up`. */
    constructor(initiallyUp: set<nat>)
      ensures time == 0 && timers == [] && up == initiallyUp
    {
      time := 0;
      timers := [];
      up := initiallyUp;
    }

    /**
     * The event loop runs the callback of pending timer `k`: `classList.add`
     * or `classList.toggle` on its element. Which timer is due first depends
     * on the clock, so the caller chooses.
     */
    method Fire(k: nat)
      requires k < |timers|
      modifies this
      ensures timers == old(timers[..k] + timers[k + 1..])
      ensures up == Applied(old(up), old(timers[k]))
      ensures time == old(time)
    {
      up := Applied(up, timers[k]);
      timers := timers[..k] + timers[k + 1..];
    }

    /** `clean()`: the next timer runs at once again. */
    method Clean()
      modifies this
      ensures time == 0 && timers == old(timers) && up == old(up)
    {
      time := 0;
    }

    /** `up(element)`: add `up` after the current delay, then push the delay back. */
    method Up(element: nat)
      modifies this
      ensures timers == old(timers) + [Timer(element, old(time), AddUp)]
      ensures time == old(time) + Duration && up == old(up)
    {
      timers := timers + [Timer(element, time, AddUp)];
      time := time + Duration;
    }

    /** `down(element)`: remove `up` at once; no timer, no delay. */
    method Down(element: nat)
      modifies this
      ensures up == old(up) - {element}
      ensures time == old(time) && timers == old(timers)
    {
      up := up - {element};
    }

    /** `toggle(element)`: like `up`, with a toggle. */
    method Toggle(element: nat)
      modifies this
      ensures timers == old(timers) + [Timer(element, old(time), ToggleUp)]
      ensures time == old(time) + Duration && up == old(up)
    {
      timers := timers + [Timer(element, time, ToggleUp)];
      time := time + Duration;
    }

    /**
     * The page-load loop over the `.iUp` elements: one `up` each, so the
     * delays run on from the current counter 150 ms apart and the counter
     * ends 150 ms per element further on.
     */
    method UpAll(elements: seq<nat>)
      modifies this
      ensures timers == old(timers) + Staggered(elements, old(time), AddUp)
      ensures time == old(time) + Duration * |elements| && up == old(up)
    {
      var i := 0;
      while i < |elements|
        invariant 0 <= i <= |elements|
        invariant timers == old(timers) + Staggered(elements[..i], old(time), AddUp)
        invariant time == old(time) + Duration * i && up == old(up)
      {
        Up(elements[i]);
        assert Staggered(elements[..i + 1], old(time), AddUp)
            == Staggered(elements[..i], old(time), AddUp) + [Timer(elements[i], old(time) + Duration * i, AddUp)];
        i := i + 1;
      }
      assert elements[..i] == elements;
    }
  }

  // ---------------------------------------------------------------------
  // parseInt

  /** The longest run of digits at the start of `s`. */
  function LeadingDigits(s: string): (r: string)
    ensures All(r, IsDigit) && StartsWith(s, r)
    ensures |r| < |s| ==> !IsDigit(s[|r|])
  {
    if s != [] && IsDigit(s[0]) then [s[0]] + LeadingDigits(s[1..]) else []
  }

  /**
   * `parseInt(item, 10)` of a `sessionStorage` item, `None` for NaN: an
   * absent item (`null`, read as the text "null") and a text without
   * digits after the optional whitespace and sign are NaN.
   */
  function ParseInt(item: Option<string>): Option<int> {
    match item
    case None => None
    case Some(t) =>
      var u := TrimStart(t);
      var body := if u != [] && (u[0] == '-' || u[0] == '+') then u[1..] else u;
      var digits := LeadingDigits(body);
      var magnitude: int := if digits == [] then 0 else DigitsValue(digits);
      if digits == [] then None
      else if u[0] == '-' then Some(-magnitude)
      else Some(magnitude)
  }

  lemma {:induction false} LeadingDigitsAll(s: string)
    requires All(s, IsDigit)
    ensures LeadingDigits(s) == s
    decreases |s|
  {
    if s != [] {
      LeadingDigitsAll(s[1..]);
      assert [s[0]] + s[1..] == s;
    }
  }

  /** What `setItem(name, index)` stores, `parseInt` reads back. */
  lemma ParseIntOfDecimal(n: nat)
    ensures ParseInt(Some(DecimalString(n))) == Some(n)
  {
    var s := DecimalString(n);
    assert !IsSpace(s[0]);
    assert TrimStart(s) == s;
    LeadingDigitsAll(s);
    DecimalStringValue(n);
  }

  // ---------------------------------------------------------------------
  // the index rotation

  /** The index `getBingImages` picks from the stored one, for a list of `count` images. */
  function NextIndex(stored: Option<int>, count: nat): int
    requires count > 0
  {
    var maxIndex := count - 1;
    if stored == None || stored.value > maxIndex then 0
    else if stored.value + 1 > maxIndex then 0
    else stored.value + 1
  }

  /**
   * NaN and an index past the end restart at 0; an index in range (or -1)
   * moves to the next one, cyclically; any other negative index gives a
   * negative result, which no image has.
   */
  lemma NextIndexCases(stored: Option<int>, count: nat)
    requires count > 0
    ensures stored == None || stored.value >= count ==> NextIndex(stored, count) == 0
    ensures stored != None && -1 <= stored.value < count ==> NextIndex(stored, count) == (stored.value + 1) % count
    ensures stored != None && stored.value < -1 ==> NextIndex(stored, count) == stored.value + 1 < 0
    ensures 0 <= NextIndex(stored, count) < count || (stored != None && stored.value < -1)
  {
  }

  /** Saving index `i` makes the next visit show image `(i + 1) % count`. */
  lemma RotationAdvances(i: nat, count: nat)
    requires i < count
    ensures NextIndex(ParseInt(Some(DecimalString(i))), count) == (i + 1) % count
  {
    ParseIntOfDecimal(i);
    NextIndexCases(Some(i), count);
  }

  // ---------------------------------------------------------------------
  // BING_IMAGE_URL_PATTERN

  const BingPrefix := "/th?id=OHR."
  const JpgSuffix := ".jpg"

  /** `[a-zA-Z0-9_\-]`. */
  predicate IsNameChar(c: char) {
    'a' <= c <= 'z' || 'A' <= c <= 'Z' || IsDigit(c) || c == '_' || c == '-'
  }

  /** `[a-zA-Z0-9=._\-]`. */
  predicate IsParamChar(c: char) {
    IsNameChar(c) || c == '=' || c == '.'
  }

  /** `(&[a-zA-Z0-9=._\-]+)*$`: parameters, each `&` and a non-empty run of parameter characters. */
  predicate IsParams(t: string)
    decreases |t|
  {
    t == [] || (t[0] == '&' && var after := DropRun(t[1..], IsParamChar); |after| < |t| - 1 && IsParams(after))
  }

  /**
   * `BING_IMAGE_URL_PATTERN.test(s)`: the prefix, a non-empty name, ".jpg"
   * and parameters up to the end. The name's characters exclude '.', so
   * the name is the whole run before ".jpg".
   */
  predicate IsBingPath(s: string) {
    && StartsWith(s, BingPrefix)
    && var rest := s[|BingPrefix|..];
       var after := DropRun(rest, IsNameChar);
       |after| < |rest| && StartsWith(after, JpgSuffix) && IsParams(after[|JpgSuffix|..])
  }

  /** The characters a matching path may hold: no quote, backslash, parenthesis or whitespace. */
  predicate IsPathChar(c: char) {
    IsParamChar(c) || c == '/' || c == '?' || c == '&'
  }

  lemma {:induction false} ParamsChars(t: string)
    requires IsParams(t)
    ensures All(t, IsPathChar)
    decreases |t|
  {
    if t != [] {
      var after := DropRun(t[1..], IsParamChar);
      ParamsChars(after);
      var n := |t| - |after|;
      forall i | 0 <= i < |t| ensures IsPathChar(t[i]) {
        if n <= i {
          assert t[i] == after[i - n];
        } else if 0 < i {
          assert t[i] == t[1..][i - 1];
        }
      }
    }
  }

  lemma AllSplit(s: string, k: nat, p: char -> bool)
    requires k <= |s| && All(s[..k], p) && All(s[k..], p)
    ensures All(s, p)
  {
    forall i | 0 <= i < |s| ensures p(s[i]) {
      if i < k {
        assert s[i] == s[..k][i];
      } else {
        assert s[i] == s[k..][i - k];
      }
    }
  }

  lemma LiteralChars()
    ensures All(BingPrefix, IsPathChar) && All(JpgSuffix, IsPathChar)
  {
    assert BingPrefix == ['/', 't', 'h', '?', 'i', 'd', '=', 'O', 'H', 'R', '.'];
    assert JpgSuffix == ['.', 'j', 'p', 'g'];
  }

  /** A path that passes the pattern cannot close the CSS string or the `url(...)` around it. */
  lemma BingPathChars(s: string)
    requires IsBingPath(s)
    ensures All(s, IsPathChar)
  {
    var rest := s[|BingPrefix|..];
    var after := DropRun(rest, IsNameChar);
    var k := |rest| - |after|;
    ParamsChars(after[|JpgSuffix|..]);
    LiteralChars();
    assert after[..|JpgSuffix|] == JpgSuffix;
    AllSplit(after, |JpgSuffix|, IsPathChar);
    assert rest[k..] == after;
    AllSplit(rest, k, IsPathChar);
    assert s[..|BingPrefix|] == BingPrefix;
    AllSplit(s, |BingPrefix|, IsPathChar);
  }

  // the CSS value

  const BingHost := "https://www.cn.bing.com"

  predicate NeedsEscape(c: char) {
    c == '\'' || c == '\\'
  }

  predicate IsPlain(c: char) {
    !NeedsEscape(c)
  }

  /** `s.replace(/['\\]/g, '\\$&')`: a backslash before every quote and backslash. */
  function EscapeCss(s: string): (r: string)
    ensures |r| >= |s|
  {
    if s == [] then []
    else (if NeedsEscape(s[0]) then ['\\', s[0]] else [s[0]]) + EscapeCss(s[1..])
  }

  /**
   * How CSS reads the body of a single-quoted string: a backslash takes
   * the next character literally, an unescaped quote ends the string.
   * Returns the string's value and what follows the closing quote.
   */
  function ReadQuoted(t: string): (string, string)
    decreases |t|
  {
    if t == [] then ([], [])
    else if t[0] == '\'' then ([], t[1..])
    else if t[0] == '\\' && |t| >= 2 then
      var (v, rest) := ReadQuoted(t[2..]); ([t[1]] + v, rest)
    else
      var (v, rest) := ReadQuoted(t[1..]); ([t[0]] + v, rest)
  }

  /**
   * The escaping is sound: whatever `s` holds, the quoted string read
   * back is exactly `s` and it ends at the closing quote that follows it.
   */
  lemma {:induction false} EscapeReadsBack(s: string, tail: string)
    ensures ReadQuoted(EscapeCss(s) + "'" + tail) == (s, tail)
    decreases |s|
  {
    if s == [] {
      assert EscapeCss(s) + "'" + tail == ['\''] + tail;
    } else {
      EscapeReadsBack(s[1..], tail);
      var head := if NeedsEscape(s[0]) then ['\\', s[0]] else [s[0]];
      assert EscapeCss(s) + "'" + tail == head + (EscapeCss(s[1..]) + "'" + tail);
      assert [s[0]] + s[1..] == s;
    }
  }

  lemma {:induction false} EscapeNothing(s: string)
    requires All(s, IsPlain)
    ensures EscapeCss(s) == s
    decreases |s|
  {
    if s != [] {
      EscapeNothing(s[1..]);
      assert [s[0]] + s[1..] == s;
    }
  }

  /** `"url('" + escaped + "')"` for an image path. */
  function BackgroundImage(path: string): string {
    "url('" + EscapeCss(BingHost + path) + "')"
  }

  lemma HostPlain()
    ensures All(BingHost, IsPlain)
  {
    assert BingHost == ['h', 't', 't', 'p', 's', ':', '/', '/', 'w', 'w', 'w', '.', 'c', 'n', '.',
                        'b', 'i', 'n', 'g', '.', 'c', 'o', 'm'];
  }

  /** A URL made of the host and path characters holds nothing to escape. */
  lemma SafeUrlUnescaped(path: string)
    requires All(path, IsPathChar)
    ensures EscapeCss(BingHost + path) == BingHost + path
  {
    assert All(path, IsPlain);
    HostPlain();
    var url := BingHost + path;
    assert url[..|BingHost|] == BingHost && url[|BingHost|..] == path;
    AllSplit(url, |BingHost|, IsPlain);
    EscapeNothing(url);
  }

  lemma SafeBackgroundImage(path: string)
    requires All(path, IsPathChar)
    ensures BackgroundImage(path) == "url('" + BingHost + path + "')"
    ensures ReadQuoted(BackgroundImage(path)[5..]) == (BingHost + path, ")")
  {
    var url := BingHost + path;
    SafeUrlUnescaped(path);
    EscapeReadsBack(url, ")");
    assert BackgroundImage(path)[5..] == url + "'" + ")";
  }

  /**
   * For a path that passes the pattern the escaping changes nothing, and
   * the CSS string holds exactly the full image URL, closed by the quote
   * before `)`.
   */
  lemma BackgroundImageOfBingPath(path: string)
    requires IsBingPath(path)
    ensures BackgroundImage(path) == "url('" + BingHost + path + "')"
    ensures ReadQuoted(BackgroundImage(path)[5..]) == (BingHost + path, ")")
  {
    BingPathChars(path);
    SafeBackgroundImage(path);
  }

  // ---------------------------------------------------------------------
  // getBingImages

  /** The five style properties `getBingImages` sets on the panel. */
  datatype PanelStyle = PanelStyle(image: string, position: string, repeat: string, color: string, size: string)

  function BingStyle(path: string): PanelStyle {
    PanelStyle(BackgroundImage(path), "center center", "no-repeat", "#666", "cover")
  }

  /** `imgUrls[index]`: `None` when out of range or not a string. */
  function Lookup(urls: seq<Option<string>>, index: int): Option<string> {
    if 0 <= index < |urls| then urls[index] else None
  }

  /** The page: the `bing-image-index` item of `sessionStorage` and the `#panel` element's style. */
  class Page {
    var storedIndex: Option<string>
    var panelStyle: PanelStyle

    constructor(stored: Option<string>, style: PanelStyle)
      ensures storedIndex == stored && panelStyle == style
    {
      storedIndex := stored;
      panelStyle := style;
    }

    /**
     * `getBingImages(imgUrls)`. `hasPanel` is whether `#panel` exists;
     * `imgUrls` is `None` when it is missing or not an array, and an
     * element is `None` when it is not a string.
     */
    method GetBingImages(hasPanel: bool, imgUrls: Option<seq<Option<string>>>)
      modifies this
      ensures !hasPanel || imgUrls == None || imgUrls.value == [] ==>
        storedIndex == old(storedIndex) && panelStyle == old(panelStyle)
      ensures hasPanel && imgUrls != None && imgUrls.value != [] ==>
        var index := NextIndex(ParseInt(old(storedIndex)), |imgUrls.value|);
        var url := Lookup(imgUrls.value, index);
        if url == None || !IsBingPath(url.value) then
          storedIndex == old(storedIndex) && panelStyle == old(panelStyle)
        else
          && 0 <= index < |imgUrls.value|
          && panelStyle == BingStyle(url.value)
          && storedIndex == Some(DecimalString(index))
    {
      if !hasPanel || imgUrls == None || |imgUrls.value| == 0 {
        return;
      }
      var urls := imgUrls.value;
      var index := ParseInt(storedIndex);
      var maxIndex := |urls| - 1;
      var next: int;
      if index == None || index.value > maxIndex {
        next := 0;
      } else {
        next := index.value + 1;
        if next > maxIndex {
          next := 0;
        }
      }
      assert next == NextIndex(index, |urls|);
      var imgUrl := Lookup(urls, next);
      if imgUrl == None || !IsBingPath(imgUrl.value) {
        return;
      }
      var url := BingHost + imgUrl.value;
      panelStyle := PanelStyle("url('" + EscapeCss(url) + "')", "center center", "no-repeat", "#666", "cover");
      storedIndex := Some(DecimalString(next));
    }
  }
}
