/**
 * The two body rewrites the server publisher applies before writing a post
 * (lines 444 and 446 of its handler): image references into
 * `/images/posts/` lose their leading '/', so that they resolve relative to
 * the post.
 *
 * Each rewrite is a global `String.prototype.replace` with a regular
 * expression. It is modelled as the scan the regular-expression engine
 * performs: try to match at the current position; on success emit the
 * replacement and continue after the match, otherwise copy one character
 * and move on.
 */
module ImagePaths {
  import opened Text

  /** First index at or after `from` holding `c`, or `|s|`. */
  function FindFrom(s: string, from: nat, c: char): (j: nat)
    requires from <= |s|
    ensures from <= j <= |s|
    decreases |s| - from
  {
    if from == |s| || s[from] == c then from else FindFrom(s, from + 1, c)
  }

  /** `FindFrom` stops at the first `c`. */
  lemma {:induction false} FindFromFirst(s: string, from: nat, c: char)
    requires from <= |s|
    ensures var j := FindFrom(s, from, c);
      (j < |s| ==> s[j] == c) && forall k :: from <= k < j ==> s[k] != c
    decreases |s| - from
  {
    if !(from == |s| || s[from] == c) {
      FindFromFirst(s, from + 1, c);
    }
  }

  // ---------------------------------------------------------------------
  // Markdown: /!\[([^\]]*)\]\(\/images\/posts\//g  ->  '![$1](images/posts/'

  /** The post-relative image directory. */
  const PostsPath: string := "images/posts/"

  /** What follows the alt text of a root-relative image link. */
  const LinkTail: string := "](/" + PostsPath

  /** The same with the leading '/' of the path removed. */
  const FixedTail: string := "](" + PostsPath

  /**
   * The Markdown pattern tried at the start of `s`. `[^\]]*` cannot pass a
   * ']', so the only way to match is with the first ']' after "![": the
   * result is that index when `LinkTail` starts there.
   */
  function LinkAt(s: string): (m: Option<nat>)
    ensures m.Some? ==> 2 <= m.value && m.value + |LinkTail| <= |s|
  {
    if |s| >= 2 && s[0] == '!' && s[1] == '[' then
      var j := FindFrom(s, 2, ']');
      if StartsWith(s[j..], LinkTail) then Some(j) else None
    else None
  }

  /** `markdown.replace(/!\[([^\]]*)\]\(\/images\/posts\//g, '![$1](images/posts/')`. */
  function RewriteMarkdownImages(s: string): string
    decreases |s|
  {
    if s == [] then []
    else match LinkAt(s)
      case Some(j) => s[..j] + FixedTail + RewriteMarkdownImages(s[j + |LinkTail|..])
      case None => [s[0]] + RewriteMarkdownImages(s[1..])
  }

  /**
   * An "![" has been opened before index `k` and no ']' has closed it: there
   * is an "![" at some `i` with `i + 2 <= k` and no ']' in `s[i + 2..k]`.
   */
  predicate OpenBefore(s: string, k: nat)
    requires k <= |s|
  {
    k >= 2 && ((s[k - 2] == '!' && s[k - 1] == '[') || (s[k - 1] != ']' && OpenBefore(s, k - 1)))
  }

  /**
   * Declarative view of the Markdown rewrite: `p` is the '/' of a link
   * `![alt](/images/posts/...`, i.e. `LinkTail` starts at `p - 2` and an
   * "![" is still open there.
   */
  predicate LinkSlash(s: string, p: nat) {
    2 <= p && p - 2 + |LinkTail| <= |s| && s[p - 2..p - 2 + |LinkTail|] == LinkTail &&
    OpenBefore(s, p - 2)
  }

  /** The indices of all link slashes of `s`. */
  function LinkSlashes(s: string): set<nat> {
    set p: nat | p < |s| && LinkSlash(s, p)
  }

  /** `s[from..]` without the characters whose indices are in `del`, the rest in order. */
  function DeleteAt(s: string, del: set<nat>, from: nat): string
    requires from <= |s|
    decreases |s| - from
  {
    if from == |s| then []
    else (if from in del then [] else [s[from]]) + DeleteAt(s, del, from + 1)
  }

  lemma {:induction false} DeleteShift(s: string, a: set<nat>, d: nat, t: string, b: set<nat>, q: nat)
    requires d <= |s| && t == s[d..] && q <= |t|
    requires forall k :: q <= k < |t| ==> (d + k in a <==> k in b)
    ensures DeleteAt(s, a, d + q) == DeleteAt(t, b, q)
    decreases |t| - q
  {
    if q < |t| {
      DeleteShift(s, a, d, t, b, q + 1);
      assert s[d + q] == t[q];
    }
  }

  lemma {:induction false} DeleteNone(s: string, del: set<nat>, a: nat, b: nat)
    requires a <= b <= |s|
    requires forall k :: a <= k < b ==> k !in del
    ensures DeleteAt(s, del, a) == s[a..b] + DeleteAt(s, del, b)
    decreases b - a
  {
    if a < b {
      DeleteNone(s, del, a + 1, b);
      calc {
        DeleteAt(s, del, a);
        [s[a]] + DeleteAt(s, del, a + 1);
        [s[a]] + (s[a + 1..b] + DeleteAt(s, del, b));
        ([s[a]] + s[a + 1..b]) + DeleteAt(s, del, b);
        { assert [s[a]] + s[a + 1..b] == s[a..b]; }
        s[a..b] + DeleteAt(s, del, b);
      }
    } else {
      assert s[a..b] == [];
    }
  }

  /** Inside a matched tail no '!' or '[' occurs, and ']' only at its start. */
  lemma TailChars(s: string, j: nat, k: nat)
    requires j + |LinkTail| <= |s| && s[j..j + |LinkTail|] == LinkTail
    requires j <= k < j + |LinkTail|
    ensures s[k] != '!' && s[k] != '['
    ensures k != j ==> s[k] != ']'
  {
    assert s[k] == LinkTail[k - j];
  }

  /** The ']' at `j` closes every "![" before it, and the tail opens none. */
  lemma {:induction false} ClosedInTail(s: string, j: nat, k: nat)
    requires j + |LinkTail| <= |s| && s[j..j + |LinkTail|] == LinkTail
    requires j < k <= j + |LinkTail|
    ensures !OpenBefore(s, k)
    decreases k
  {
    TailChars(s, j, k - 1);
    if k - 1 > j {
      ClosedInTail(s, j, k - 1);
    }
  }

  /** After a match, what is open in `s` is exactly what is open in the rest. */
  lemma {:induction false} OpenAfterMatch(s: string, j: nat, q: nat)
    requires j + |LinkTail| <= |s| && s[j..j + |LinkTail|] == LinkTail
    requires j + |LinkTail| + q <= |s|
    ensures OpenBefore(s, j + |LinkTail| + q) <==> OpenBefore(s[j + |LinkTail|..], q)
    decreases q
  {
    var n := |LinkTail|;
    var t := s[j + n..];
    if q == 0 {
      ClosedInTail(s, j, j + n);
    } else {
      OpenAfterMatch(s, j, q - 1);
      assert s[j + n + q - 1] == t[q - 1];
      if q == 1 {
        TailChars(s, j, j + n - 1);
      } else {
        assert s[j + n + q - 2] == t[q - 2];
      }
    }
  }

  /** The "![" at the start of `s` is open up to `k` when no ']' came between. */
  lemma {:induction false} OpenFromStart(s: string, k: nat)
    requires 2 <= k <= |s| && s[0] == '!' && s[1] == '['
    requires forall m :: 2 <= m < k ==> s[m] != ']'
    ensures OpenBefore(s, k)
    decreases k
  {
    if k > 2 {
      OpenFromStart(s, k - 1);
    }
  }

  /** What is open in `s` is what is open in `s[1..]`, or the "![" at index 0. */
  lemma {:induction false} OpenDropFirst(s: string, k: nat)
    requires 1 <= k <= |s|
    ensures OpenBefore(s, k) ==>
      OpenBefore(s[1..], k - 1) || (s[0] == '!' && s[1] == '[' && forall m :: 2 <= m < k ==> s[m] != ']')
    ensures OpenBefore(s[1..], k - 1) ==> OpenBefore(s, k)
    decreases k
  {
    if k >= 2 {
      assert s[k - 1] == s[1..][k - 2];
      if k >= 3 {
        assert s[k - 2] == s[1..][k - 3];
      }
      OpenDropFirst(s, k - 1);
    }
  }

  /** After a match, link slashes beyond it are exactly those of the rest. */
  lemma LinkSlashAfterMatch(s: string, j: nat, q: nat)
    requires LinkAt(s) == Some(j)
    requires j + |LinkTail| + q < |s|
    ensures LinkSlash(s, j + |LinkTail| + q) <==> LinkSlash(s[j + |LinkTail|..], q)
  {
    var n := |LinkTail|;
    var t := s[j + n..];
    var p := j + n + q;
    if q >= 2 {
      OpenAfterMatch(s, j, q - 2);
      if p - 2 + n <= |s| {
        assert t[q - 2..q - 2 + n] == s[p - 2..p - 2 + n];
      }
    } else {
      ClosedInTail(s, j, p - 2);
    }
  }

  /** Before the end of a match, the only link slash is the matched one. */
  lemma LinkSlashInsideMatch(s: string, j: nat, p: nat)
    requires LinkAt(s) == Some(j)
    requires p < j + |LinkTail|
    ensures LinkSlash(s, p) <==> p == j + 2
  {
    FindFromFirst(s, 2, ']');
    var n := |LinkTail|;
    if p == j + 2 {
      assert s[p - 2..p - 2 + n] == s[j..j + n];
      OpenFromStart(s, j);
    } else if 2 <= p && p - 2 + n <= |s| && s[p - 2..p - 2 + n] == LinkTail {
      assert s[p - 2] == LinkTail[0];
      if p - 2 >= j {
        TailChars(s, j, p - 2);
      }
    }
  }

  /** Without a match at the start, link slashes are those of `s[1..]`, shifted. */
  lemma LinkSlashNoMatch(s: string, q: nat)
    requires s != [] && LinkAt(s) == None
    requires 1 + q < |s|
    ensures LinkSlash(s, 1 + q) <==> LinkSlash(s[1..], q)
  {
    var n := |LinkTail|;
    var p := 1 + q;
    if q < 2 || p - 2 + n > |s| {
      assert !LinkSlash(s[1..], q);
      if p == 2 {
        assert !OpenBefore(s, 0);
      }
    } else {
      LinkSlashNoMatchWindow(s, q);
    }
  }

  lemma LinkSlashNoMatchWindow(s: string, q: nat)
    requires s != [] && LinkAt(s) == None
    requires 2 <= q && q - 1 + |LinkTail| <= |s|
    ensures LinkSlash(s, 1 + q) <==> LinkSlash(s[1..], q)
  {
    var n := |LinkTail|;
    var t := s[1..];
    var k := q - 1;
    forall i | q - 2 <= i < q - 2 + n ensures t[i] == s[i + 1] {
    }
    assert t[q - 2..q - 2 + n] == s[k..k + n];
    if s[k..k + n] == LinkTail {
      OpenDropFirst(s, k);
      NoMatchClosed(s, k);
    }
  }

  /** Without a match at the start, a tail at `k` has a ']' before it or no "![" at index 0. */
  lemma NoMatchClosed(s: string, k: nat)
    requires LinkAt(s) == None
    requires 1 <= k && k + |LinkTail| <= |s| && s[k..k + |LinkTail|] == LinkTail
    ensures !(s[0] == '!' && s[1] == '[' && forall m :: 2 <= m < k ==> s[m] != ']')
  {
    assert s[k] == LinkTail[0];
    if s[0] == '!' && s[1] == '[' && forall m :: 2 <= m < k ==> s[m] != ']' {
      FindFromFirst(s, 2, ']');
      assert false;
    }
  }

  /** Up to the matched slash nothing is deleted; the slash itself is. */
  lemma DropBeforeSlash(s: string, j: nat)
    requires LinkAt(s) == Some(j)
    ensures DeleteAt(s, LinkSlashes(s), 0) == s[..j] + "](" + DeleteAt(s, LinkSlashes(s), j + 3)
  {
    var del := LinkSlashes(s);
    forall k | 0 <= k < j + 2 ensures k !in del {
      LinkSlashInsideMatch(s, j, k);
    }
    LinkSlashInsideMatch(s, j, j + 2);
    DeleteOne(s, del, 0, j + 2);
    MatchOpens(s, j);
    assert s[0..j + 2] == s[..j + 2];
  }

  /** The match starts with "](". */
  lemma MatchOpens(s: string, j: nat)
    requires LinkAt(s) == Some(j)
    ensures j + 2 <= |s| && s[..j + 2] == s[..j] + "]("
  {
    assert s[j..j + |LinkTail|] == LinkTail;
    assert s[j] == LinkTail[0] && s[j + 1] == LinkTail[1];
  }

  /** Deleting from `a` when `p` is the first deleted index. */
  lemma DeleteOne(s: string, del: set<nat>, a: nat, p: nat)
    requires a <= p < |s| && p in del
    requires forall k :: a <= k < p ==> k !in del
    ensures DeleteAt(s, del, a) == s[a..p] + DeleteAt(s, del, p + 1)
  {
    DeleteNone(s, del, a, p);
    assert DeleteAt(s, del, p) == DeleteAt(s, del, p + 1);
  }

  /** The rest of the matched tail is kept. */
  lemma DropAfterSlash(s: string, j: nat)
    requires LinkAt(s) == Some(j)
    ensures DeleteAt(s, LinkSlashes(s), j + 3) == PostsPath + DeleteAt(s, LinkSlashes(s), j + |LinkTail|)
  {
    var n := |LinkTail|;
    var del := LinkSlashes(s);
    forall k | j + 3 <= k < j + n ensures k !in del {
      LinkSlashInsideMatch(s, j, k);
    }
    DeleteNone(s, del, j + 3, j + n);
    assert s[j..j + n] == LinkTail;
    assert s[j + 3..j + n] == LinkTail[3..];
  }

  /** Past the match, deletions are those of the rest on its own. */
  lemma DropPastMatch(s: string, j: nat)
    requires LinkAt(s) == Some(j)
    ensures DeleteAt(s, LinkSlashes(s), j + |LinkTail|) == DeleteAt(s[j + |LinkTail|..], LinkSlashes(s[j + |LinkTail|..]), 0)
  {
    var n := |LinkTail|;
    var t := s[j + n..];
    forall k | 0 <= k < |t| ensures j + n + k in LinkSlashes(s) <==> k in LinkSlashes(t) {
      LinkSlashAfterMatch(s, j, k);
    }
    DeleteShift(s, LinkSlashes(s), j + n, t, LinkSlashes(t), 0);
  }

  /** A match at the start deletes its slash and leaves the rest to `s[j + |LinkTail|..]`. */
  lemma DropAtMatch(s: string, j: nat)
    requires LinkAt(s) == Some(j)
    ensures DeleteAt(s, LinkSlashes(s), 0)
      == s[..j] + FixedTail + DeleteAt(s[j + |LinkTail|..], LinkSlashes(s[j + |LinkTail|..]), 0)
  {
    DropPastMatch(s, j);
    DropBeforeSlash(s, j);
    DropAfterSlash(s, j);
    assert FixedTail == "](" + PostsPath;
  }

  /** Without a match at the start, the first character is kept. */
  lemma DropAtNoMatch(s: string)
    requires s != [] && LinkAt(s) == None
    ensures DeleteAt(s, LinkSlashes(s), 0) == [s[0]] + DeleteAt(s[1..], LinkSlashes(s[1..]), 0)
  {
    forall k | 0 <= k < |s| - 1 ensures 1 + k in LinkSlashes(s) <==> k in LinkSlashes(s[1..]) {
      LinkSlashNoMatch(s, k);
    }
    assert 0 !in LinkSlashes(s);
    DeleteShift(s, LinkSlashes(s), 1, s[1..], LinkSlashes(s[1..]), 0);
  }

  /**
   * The scan deletes exactly the '/' that starts the path of each
   * `![alt](/images/posts/` link and keeps every other character, in order.
   */
  lemma {:induction false} RewriteMarkdownImagesDeletesLinkSlashes(s: string)
    ensures RewriteMarkdownImages(s) == DeleteAt(s, LinkSlashes(s), 0)
    decreases |s|
  {
    if s != [] {
      match LinkAt(s)
      case Some(j) =>
        RewriteMarkdownImagesDeletesLinkSlashes(s[j + |LinkTail|..]);
        DropAtMatch(s, j);
      case None =>
        RewriteMarkdownImagesDeletesLinkSlashes(s[1..]);
        DropAtNoMatch(s);
    }
  }

  // ---------------------------------------------------------------------
  // HTML: /<img\s+([^>]*\s+)?src=["']\/images\/posts\//g  ->  '<img $1src="images/posts/'

  /** Length of `src="/images/posts/` (either quote). */
  const SrcLength: nat := 19

  /** What the replacement puts after `<img $1`. */
  const FixedSrc: string := "src=\"" + PostsPath

  /** `src=["']\/images\/posts\/` starts at `q`. */
  predicate SrcAt(s: string, q: nat) {
    q + SrcLength <= |s| && s[q..q + 4] == "src=" && (s[q + 4] == '"' || s[q + 4] == '\'') &&
    s[q + 5..q + SrcLength] == "/images/posts/"
  }

  /** End of the whitespace run that starts at `from`. */
  function SkipSpaces(s: string, from: nat): (w: nat)
    requires from <= |s|
    ensures from <= w <= |s|
    decreases |s| - from
  {
    if from < |s| && IsSpace(s[from]) then SkipSpaces(s, from + 1) else from
  }

  /** `SkipSpaces` stops at the end of the longest whitespace run. */
  lemma {:induction false} SkipSpacesRun(s: string, from: nat)
    requires from <= |s|
    ensures var w := SkipSpaces(s, from);
      (w == |s| || !IsSpace(s[w])) && forall k :: from <= k < w ==> IsSpace(s[k])
    decreases |s| - from
  {
    if from < |s| && IsSpace(s[from]) {
      SkipSpacesRun(s, from + 1);
    }
  }

  /**
   * After `<img` and its whitespace run ending at `w`, the rest of the
   * pattern can end its `([^>]*\s+)?` part at `q`: the source attribute
   * starts at `q`, no '>' lies between `w` and `q`, and either the optional
   * group is absent (`q == w`) or it ends with whitespace.
   */
  predicate SrcCandidate(s: string, w: nat, q: nat) {
    w <= q && SrcAt(s, q) && (q == w || IsSpace(s[q - 1])) &&
    forall k :: w <= k < q ==> s[k] != '>'
  }

  /** The largest candidate at most `hi`, searching downwards to `w`. */
  function LastCandidate(s: string, w: nat, hi: nat): (m: Option<nat>)
    requires w <= hi <= |s|
    ensures m.Some? ==> w <= m.value <= hi && m.value + SrcLength <= |s|
    decreases hi - w
  {
    if SrcAt(s, hi) && (hi == w || IsSpace(s[hi - 1])) then Some(hi)
    else if hi == w then None
    else LastCandidate(s, w, hi - 1)
  }

  /** Below the first '>', `LastCandidate` finds the largest candidate, if any. */
  lemma {:induction false} LastCandidateIsLast(s: string, w: nat, hi: nat)
    requires w <= |s| && w <= hi <= FindFrom(s, w, '>')
    ensures var m := LastCandidate(s, w, hi);
      && (m.Some? ==> SrcCandidate(s, w, m.value))
      && forall q: nat :: (m.None? || m.value < q) && q <= hi ==> !SrcCandidate(s, w, q)
    decreases hi - w
  {
    if SrcAt(s, hi) && (hi == w || IsSpace(s[hi - 1])) {
      FindFromFirst(s, w, '>');
    } else if hi != w {
      LastCandidateIsLast(s, w, hi - 1);
      assert LastCandidate(s, w, hi) == LastCandidate(s, w, hi - 1);
    }
  }

  /** `s` starts with `<img` and at least one whitespace character. */
  predicate ImgOpen(s: string) {
    StartsWith(s, "<img") && SkipSpaces(s, 4) > 4
  }

  /** Where `$1` starts: the end of the longest whitespace run after `<img`. */
  function AttrStart(s: string): (w: nat)
    requires ImgOpen(s)
    ensures 4 < w <= |s|
  {
    SkipSpaces(s, 4)
  }

  /**
   * The HTML pattern tried at the start of `s`: `<img`, the longest
   * whitespace run (which must be non-empty), then the source attribute.
   * The greedy `[^>]*` picks the LAST candidate before the first '>'. The
   * result is the start `q` of the source attribute, so `$1` is
   * `s[AttrStart(s)..q]`; `ImgAtIsLastCandidate` states it in full.
   */
  function ImgAt(s: string): (m: Option<nat>)
    ensures m.Some? ==> ImgOpen(s) && AttrStart(s) <= m.value && m.value + SrcLength <= |s|
  {
    if ImgOpen(s) then
      var w := AttrStart(s);
      LastCandidate(s, w, FindFrom(s, w, '>'))
    else None
  }

  /**
   * The pattern matches at the start of `s` exactly when `<img` and
   * whitespace are followed by some candidate source attribute, and then it
   * uses the last one.
   */
  lemma ImgAtIsLastCandidate(s: string)
    ensures ImgAt(s).Some? ==>
      && SrcCandidate(s, AttrStart(s), ImgAt(s).value)
      && forall q :: ImgAt(s).value < q ==> !SrcCandidate(s, AttrStart(s), q)
    ensures ImgAt(s).None? && ImgOpen(s) ==> forall q :: !SrcCandidate(s, AttrStart(s), q)
  {
    if ImgOpen(s) {
      var w := AttrStart(s);
      var gt := FindFrom(s, w, '>');
      FindFromFirst(s, w, '>');
      LastCandidateIsLast(s, w, gt);
      forall q | gt < q ensures !SrcCandidate(s, w, q) {
        if gt < |s| && w <= gt < q {
          assert s[gt] == '>';
        }
      }
    }
  }

  /** `markdown.replace(/<img\s+([^>]*\s+)?src=["']\/images\/posts\//g, '<img $1src="images/posts/')`. */
  function RewriteImgTags(s: string): string
    decreases |s|
  {
    if s == [] then []
    else match ImgAt(s)
      case Some(q) => "<img " + s[AttrStart(s)..q] + FixedSrc + RewriteImgTags(s[q + SrcLength..])
      case None => [s[0]] + RewriteImgTags(s[1..])
  }

  /** Text with whitespace, quotes and slashes removed. */
  predicate IsSkeletal(c: char) {
    !IsSpace(c) && c != '/' && c != '"' && c != '\''
  }

  function Skeleton(s: string): string {
    Filter(s, IsSkeletal)
  }

  /** Characters outside the skeleton can be dropped from the middle. */
  lemma SkeletonDrop(x: string, y: string, z: string)
    requires forall i :: 0 <= i < |y| ==> !IsSkeletal(y[i])
    ensures Skeleton(x + y + z) == Skeleton(x + z)
  {
    FilterAppend(x + y, z, IsSkeletal);
    FilterAppend(x, y, IsSkeletal);
    FilterNone(y, IsSkeletal);
    FilterAppend(x, z, IsSkeletal);
  }

  /** Both quote styles and the root '/' vanish from the skeleton. */
  lemma SkeletonOfSrc(s: string, q: nat)
    requires SrcAt(s, q)
    ensures Skeleton(s[q..q + SrcLength]) == Skeleton(FixedSrc)
  {
    var a := s[q..q + SrcLength];
    assert a[5..] == "/" + PostsPath;
    assert a == "src=" + [a[4], '/'] + PostsPath;
    SkeletonDrop("src=", [a[4], '/'], PostsPath);
    assert FixedSrc == "src=" + "\"" + PostsPath;
    SkeletonDrop("src=", "\"", PostsPath);
  }

  /** Equal skeletons stay equal behind a common prefix. */
  lemma SkeletonPrefix(x: string, a: string, b: string)
    requires Skeleton(a) == Skeleton(b)
    ensures Skeleton(x + a) == Skeleton(x + b)
  {
    FilterAppend(x, a, IsSkeletal);
    FilterAppend(x, b, IsSkeletal);
  }

  /** The whitespace run after `<img` does not reach the skeleton. */
  lemma SkeletonOfMatchedText(s: string, w: nat, q: nat)
    requires 4 <= w <= q && q + SrcLength <= |s| && s[..4] == "<img"
    requires forall k :: 4 <= k < w ==> IsSpace(s[k])
    ensures Skeleton(s[..q + SrcLength]) == Skeleton("<img" + s[w..q] + s[q..q + SrcLength])
  {
    var y := s[4..w];
    var z := s[w..q] + s[q..q + SrcLength];
    forall i | 0 <= i < |y| ensures !IsSkeletal(y[i]) {
      assert y[i] == s[4 + i];
    }
    assert s[..q + SrcLength] == s[..4] + y + z;
    SkeletonDrop(s[..4], y, z);
    assert "<img" + z == "<img" + s[w..q] + s[q..q + SrcLength];
  }

  /** The replacement's single space does not reach the skeleton either. */
  lemma SkeletonOfReplacement(mid: string)
    ensures Skeleton("<img " + mid + FixedSrc) == Skeleton("<img" + mid + FixedSrc)
  {
    var z := mid + FixedSrc;
    assert "<img " + mid + FixedSrc == "<img" + " " + z;
    SkeletonDrop("<img", " ", z);
    assert "<img" + z == "<img" + mid + FixedSrc;
  }

  /** One rewritten tag has the skeleton of the text it replaces. */
  lemma SkeletonOfTag(s: string, q: nat)
    requires ImgAt(s) == Some(q)
    ensures Skeleton(s[..q + SrcLength]) == Skeleton("<img " + s[AttrStart(s)..q] + FixedSrc)
  {
    var w := AttrStart(s);
    ImgAtIsLastCandidate(s);
    SkipSpacesRun(s, 4);
    SkeletonOfMatchedText(s, w, q);
    SkeletonOfSrc(s, q);
    var x := "<img" + s[w..q];
    SkeletonPrefix(x, s[q..q + SrcLength], FixedSrc);
    SkeletonOfReplacement(s[w..q]);
  }

  /**
   * The HTML rewrite changes nothing but whitespace, quotes and slashes:
   * each matched tag keeps its other attributes and loses only the leading
   * whitespace run's length, the quote style and the root '/'.
   */
  lemma {:induction false} RewriteImgTagsKeepsSkeleton(s: string)
    ensures Skeleton(RewriteImgTags(s)) == Skeleton(s)
    decreases |s|
  {
    if s != [] {
      match ImgAt(s)
      case Some(q) =>
        RewriteImgTagsKeepsSkeleton(s[q + SrcLength..]);
        SkeletonStepMatch(s, q);
      case None =>
        var t := s[1..];
        RewriteImgTagsKeepsSkeleton(t);
        RewriteImgTagsCopy(s);
        assert s == [s[0]] + t;
        FilterAppend([s[0]], t, IsSkeletal);
        FilterAppend([s[0]], RewriteImgTags(t), IsSkeletal);
        calc {
          Skeleton(RewriteImgTags(s));
          Skeleton([s[0]] + RewriteImgTags(t));
          Skeleton([s[0]]) + Skeleton(RewriteImgTags(t));
          Skeleton([s[0]]) + Skeleton(t);
          Skeleton(s);
        }
    }
  }

  /** A matched tag and the rest: skeletons add up when the rest's is kept. */
  lemma SkeletonStepMatch(s: string, q: nat)
    requires ImgAt(s) == Some(q)
    requires Skeleton(RewriteImgTags(s[q + SrcLength..])) == Skeleton(s[q + SrcLength..])
    ensures Skeleton(RewriteImgTags(s)) == Skeleton(s)
  {
    var rest := s[q + SrcLength..];
    var head := s[..q + SrcLength];
    var r := RewriteImgTags(rest);
    var tag := "<img " + s[AttrStart(s)..q] + FixedSrc;
    RewriteImgTagsMatch(s, q);
    assert RewriteImgTags(s) == tag + r;
    SkeletonOfTag(s, q);
    FilterAppend(tag, r, IsSkeletal);
    assert s == head + rest;
    FilterAppend(head, rest, IsSkeletal);
  }

  predicate ImgTagAt(s: string, i: nat) {
    i + 4 <= |s| && s[i..i + 4] == "<img"
  }

  /** `<img` occurs in `s` at some index. */
  ghost predicate HasImgTag(s: string) {
    exists i: nat :: ImgTagAt(s, i)
  }

  /** A body without any `<img` is left as it is. */
  lemma {:induction false} RewriteImgTagsNoTag(s: string)
    requires !HasImgTag(s)
    ensures RewriteImgTags(s) == s
    decreases |s|
  {
    if s != [] {
      assert !ImgTagAt(s, 0);
      assert !HasImgTag(s[1..]) by {
        if HasImgTag(s[1..]) {
          var i: nat :| ImgTagAt(s[1..], i);
          assert s[i + 1..i + 5] == s[1..][i..i + 4];
          assert ImgTagAt(s, i + 1);
        }
      }
      RewriteImgTagsNoTag(s[1..]);
    }
  }

  /** No tag starts at a character other than '<'. */
  lemma NoImgAtOther(s: string)
    requires s != [] && s[0] != '<'
    ensures ImgAt(s) == None
  {
    assert !ImgOpen(s) by {
      assert |s| < 4 || s[..4][0] == s[0];
    }
  }

  lemma RewriteImgTagsCopy(s: string)
    requires s != [] && ImgAt(s) == None
    ensures RewriteImgTags(s) == [s[0]] + RewriteImgTags(s[1..])
  {
  }

  lemma RewriteImgTagsMatch(s: string, q: nat)
    requires ImgAt(s) == Some(q)
    ensures RewriteImgTags(s) == "<img " + s[AttrStart(s)..q] + FixedSrc + RewriteImgTags(s[q + SrcLength..])
  {
    assert s != [];
    var w := AttrStart(s);
    var tail := RewriteImgTags(s[q + SrcLength..]);
    assert RewriteImgTags(s) == "<img " + s[w..q] + FixedSrc + tail;
  }

  /**
   * The leftmost position at or after `from` where the HTML pattern
   * matches, if any: the match `exec` finds when `lastIndex` is `from`.
   */
  function FirstMatch(s: string, from: nat): (m: Option<nat>)
    requires from <= |s|
    ensures m.Some? ==> from <= m.value < |s| && ImgAt(s[m.value..]).Some?
    decreases |s| - from
  {
    if from == |s| then None
    else if ImgAt(s[from..]).Some? then Some(from)
    else FirstMatch(s, from + 1)
  }

  /** No match starts between `from` and the match `FirstMatch` finds. */
  lemma {:induction false} FirstMatchIsLeftmost(s: string, from: nat, k: nat)
    requires from <= k < |s|
    requires FirstMatch(s, from).None? || k < FirstMatch(s, from).value
    ensures ImgAt(s[k..]).None?
    decreases k - from
  {
    if k > from {
      FirstMatchIsLeftmost(s, from + 1, k);
    }
  }

  /**
   * The global replace as ECMAScript defines it, from position `from`: the
   * text up to the leftmost match is copied verbatim, the match
   * (`<img`, whitespace, `$1`, `src=Q/images/posts/`) becomes
   * `<img $1src="images/posts/`, and the search resumes after the match;
   * once no match is left, the rest is copied verbatim.
   */
  function GlobalReplace(s: string, from: nat): string
    requires from <= |s|
    decreases |s| - from, 1
  {
    match FirstMatch(s, from)
    case None => s[from..]
    case Some(i) => s[from..i] + ReplaceMatch(s, i)
  }

  /** The replacement of the match at `i`, followed by the rest of the global replace. */
  function ReplaceMatch(s: string, i: nat): string
    requires i < |s| && ImgAt(s[i..]).Some?
    decreases |s| - i, 0
  {
    var t := s[i..];
    var q := ImgAt(t).value;
    "<img " + t[AttrStart(t)..q] + FixedSrc + GlobalReplace(s, i + q + SrcLength)
  }

  /** Where no match starts, the global replace copies one character. */
  lemma GlobalReplaceCopy(s: string, from: nat)
    requires from < |s| && ImgAt(s[from..]).None?
    ensures GlobalReplace(s, from) == [s[from]] + GlobalReplace(s, from + 1)
  {
    assert FirstMatch(s, from) == FirstMatch(s, from + 1);
    match FirstMatch(s, from + 1)
    case None =>
      assert s[from..] == [s[from]] + s[from + 1..];
    case Some(i) =>
      assert s[from..i] == [s[from]] + s[from + 1..i];
  }

  /** Where a match starts, the global replace substitutes it. */
  lemma GlobalReplaceMatch(s: string, from: nat, q: nat)
    requires from < |s| && ImgAt(s[from..]) == Some(q)
    ensures from + q + SrcLength <= |s|
    ensures GlobalReplace(s, from) ==
      "<img " + s[from..][AttrStart(s[from..])..q] + FixedSrc + GlobalReplace(s, from + q + SrcLength)
  {
    assert FirstMatch(s, from) == Some(from);
    assert s[from..from] == [];
    assert GlobalReplace(s, from) == ReplaceMatch(s, from);
  }

  /** Where no match starts, the scanner and the global replace both copy a character. */
  lemma RewriteImgTagsFromCopy(s: string, from: nat)
    requires from < |s| && ImgAt(s[from..]).None?
    requires RewriteImgTags(s[from + 1..]) == GlobalReplace(s, from + 1)
    ensures RewriteImgTags(s[from..]) == GlobalReplace(s, from)
  {
    var t := s[from..];
    RewriteImgTagsCopy(t);
    assert t[1..] == s[from + 1..];
    GlobalReplaceCopy(s, from);
  }

  /** A suffix of a suffix is a suffix. */
  lemma SuffixOfSuffix(s: string, a: nat, b: nat)
    requires a + b <= |s|
    ensures s[a..][b..] == s[a + b..]
  {
  }

  /** The scanner at a match, on a suffix of `s`. */
  lemma ScannerMatchAt(s: string, from: nat, q: nat)
    requires from < |s| && ImgAt(s[from..]) == Some(q)
    ensures from + q + SrcLength <= |s|
    ensures RewriteImgTags(s[from..]) ==
      "<img " + s[from..][AttrStart(s[from..])..q] + FixedSrc + RewriteImgTags(s[from + q + SrcLength..])
  {
    RewriteImgTagsMatch(s[from..], q);
    SuffixOfSuffix(s, from, q + SrcLength);
  }

  /** Where a match starts, the scanner and the global replace both substitute it. */
  lemma RewriteImgTagsFromMatch(s: string, from: nat, q: nat)
    requires from < |s| && ImgAt(s[from..]) == Some(q)
    requires from + q + SrcLength <= |s|
    requires RewriteImgTags(s[from + q + SrcLength..]) == GlobalReplace(s, from + q + SrcLength)
    ensures RewriteImgTags(s[from..]) == GlobalReplace(s, from)
  {
    ScannerMatchAt(s, from, q);
    GlobalReplaceMatch(s, from, q);
  }

  /** Where the scanner resumes after position `from`: past the match there, or one character on. */
  function Resume(s: string, from: nat): (r: nat)
    requires from < |s|
    ensures from < r <= |s|
  {
    match ImgAt(s[from..])
    case Some(q) => from + q + SrcLength
    case None => from + 1
  }

  /** One step of the scanner agrees with one step of the global replace. */
  lemma RewriteImgTagsStep(s: string, from: nat)
    requires from < |s|
    requires RewriteImgTags(s[Resume(s, from)..]) == GlobalReplace(s, Resume(s, from))
    ensures RewriteImgTags(s[from..]) == GlobalReplace(s, from)
  {
    match ImgAt(s[from..])
    case None => RewriteImgTagsFromCopy(s, from);
    case Some(q) => RewriteImgTagsFromMatch(s, from, q);
  }

  /** The scanner computes the global replace from every position. */
  lemma {:induction false} RewriteImgTagsFrom(s: string, from: nat)
    requires from <= |s|
    ensures RewriteImgTags(s[from..]) == GlobalReplace(s, from)
    decreases |s| - from
  {
    if from == |s| {
      assert s[from..] == [];
    } else {
      RewriteImgTagsFrom(s, Resume(s, from));
      RewriteImgTagsStep(s, from);
    }
  }

  /**
   * The HTML rewrite is exactly the global replace: outside the successive
   * leftmost matches the text is kept verbatim, and each match is replaced
   * by `<img ` + its `$1` + `src="images/posts/`.
   */
  lemma RewriteImgTagsIsGlobalReplace(s: string)
    ensures RewriteImgTags(s) == GlobalReplace(s, 0)
  {
    RewriteImgTagsFrom(s, 0);
    assert s[0..] == s;
  }

  /** Text without '<' passes through the HTML rewrite untouched. */
  lemma {:induction false} RewriteImgTagsPrefix(x: string, y: string)
    requires forall i :: 0 <= i < |x| ==> x[i] != '<'
    ensures RewriteImgTags(x + y) == x + RewriteImgTags(y)
    decreases |x|
  {
    if x == [] {
      assert x + y == y;
    } else {
      var s := x + y;
      assert s[0] == x[0];
      NoImgAtOther(s);
      RewriteImgTagsCopy(s);
      assert s[1..] == x[1..] + y;
      RewriteImgTagsPrefix(x[1..], y);
      calc {
        RewriteImgTags(s);
        [x[0]] + RewriteImgTags(x[1..] + y);
        [x[0]] + (x[1..] + RewriteImgTags(y));
        ([x[0]] + x[1..]) + RewriteImgTags(y);
        { assert [x[0]] + x[1..] == x; }
        x + RewriteImgTags(y);
      }
    }
  }

  /** `s` starts with `<img src=Q/images/posts/NAMEQ>`, spelled out position by position. */
  predicate QuoteTag(s: string, quote: char, name: string) {
    && |s| >= 26 + |name|
    && s[..5] == "<img " && s[5..9] == "src=" && s[9] == quote && s[10..24] == "/" + PostsPath
    && s[24..24 + |name|] == name && s[24 + |name|] == quote && s[25 + |name|] == '>'
  }

  lemma QuoteTagLayout(quote: char, name: string, tail: string)
    ensures QuoteTag("<img src=" + [quote] + "/" + PostsPath + name + [quote, '>'] + tail, quote, name)
    ensures ("<img src=" + [quote] + "/" + PostsPath + name + [quote, '>'] + tail)[24..] == name + [quote, '>'] + tail
  {
    var head := "<img src=" + [quote] + "/" + PostsPath;
    var s := head + name + [quote, '>'] + tail;
    assert |head| == 24;
    assert s[..24] == head;
    assert head[..5] == "<img " && head[5..9] == "src=" && head[9] == quote && head[10..] == "/" + PostsPath;
    assert s[..5] == head[..5] && s[5..9] == head[5..9] && s[10..24] == head[10..];
    assert s[24..24 + |name|] == name;
    assert s[24..] == name + [quote, '>'] + tail;
  }

  /** Between `src` and the '>' closing the tag there is no whitespace, so no later candidate. */
  lemma QuoteTagNoLaterCandidate(s: string, quote: char, name: string)
    requires QuoteTag(s, quote, name)
    requires quote == '"' || quote == '\''
    requires forall i :: 0 <= i < |name| ==> !IsSpace(name[i])
    ensures forall q :: 5 < q ==> !SrcCandidate(s, 5, q)
  {
    var e := 24 + |name|;
    forall q | 5 < q ensures !SrcCandidate(s, 5, q) {
      if q - 1 < 9 {
        assert s[q - 1] == s[5..9][q - 6];
      } else if q - 1 == 9 {
      } else if q - 1 < 24 {
        assert s[q - 1] == s[10..24][q - 11];
      } else if q - 1 < e {
        assert s[q - 1] == s[24..e][q - 25];
      } else if q - 1 > e {
        assert s[e + 1] == '>';
      }
    }
  }

  /** The tag of `RewriteImgTagQuote` is matched with no attributes before `src`. */
  lemma ImgAtQuote(s: string, quote: char, name: string)
    requires QuoteTag(s, quote, name)
    requires quote == '"' || quote == '\''
    requires forall i :: 0 <= i < |name| ==> !IsSpace(name[i])
    ensures AttrStart(s) == 5 && ImgAt(s) == Some(5)
  {
    assert s[..4] == s[..5][..4] == "<img";
    assert s[4] == s[..5][4] == ' ' && s[5] == s[5..9][0] == 's';
    assert SkipSpaces(s, 4) == 5;
    assert s[5..5 + 4] == "src=" && s[5 + 5..5 + SrcLength] == "/" + PostsPath;
    assert SrcAt(s, 5);
    assert SrcCandidate(s, 5, 5);
    QuoteTagNoLaterCandidate(s, quote, name);
    ImgAtIsLastCandidate(s);
  }

  /**
   * A tag `<img src=Q/images/posts/NAMEQ>` with either quote Q comes out as
   * `<img src="images/posts/NAMEQ>`: the opening quote always becomes '"'
   * while the closing one is left as it was.
   */
  lemma RewriteImgTagQuote(quote: char, name: string, tail: string)
    requires quote == '"' || quote == '\''
    requires forall i :: 0 <= i < |name| ==> !IsSpace(name[i]) && name[i] != '<' && name[i] != '>'
    ensures RewriteImgTags("<img src=" + [quote] + "/" + PostsPath + name + [quote, '>'] + tail)
      == "<img " + FixedSrc + name + [quote, '>'] + RewriteImgTags(tail)
  {
    QuoteTagLayout(quote, name, tail);
    QuoteTagRewrite("<img src=" + [quote] + "/" + PostsPath + name + [quote, '>'] + tail, quote, name, tail);
  }

  lemma QuoteTagRewrite(s: string, quote: char, name: string, tail: string)
    requires QuoteTag(s, quote, name) && s[24..] == name + [quote, '>'] + tail
    requires quote == '"' || quote == '\''
    requires forall i :: 0 <= i < |name| ==> !IsSpace(name[i]) && name[i] != '<' && name[i] != '>'
    ensures RewriteImgTags(s) == "<img " + FixedSrc + name + [quote, '>'] + RewriteImgTags(tail)
  {
    QuoteTagStep(s, quote, name);
    var rest := name + [quote, '>'];
    QuoteTagRest(name, quote);
    RewriteImgTagsPrefix(rest, tail);
    ImgConcat(FixedSrc, name, [quote, '>'], RewriteImgTags(tail));
  }

  lemma ImgConcat(a: string, b: string, c: string, d: string)
    ensures "<img " + a + (b + c + d) == "<img " + a + b + c + d
  {
  }

  lemma QuoteTagRest(name: string, quote: char)
    requires quote == '"' || quote == '\''
    requires forall i :: 0 <= i < |name| ==> name[i] != '<'
    ensures forall i :: 0 <= i < |name + [quote, '>']| ==> (name + [quote, '>'])[i] != '<'
  {
    var rest := name + [quote, '>'];
    forall i | 0 <= i < |rest| ensures rest[i] != '<' {
      if i < |name| { assert rest[i] == name[i]; }
    }
  }

  lemma QuoteTagStep(s: string, quote: char, name: string)
    requires QuoteTag(s, quote, name)
    requires quote == '"' || quote == '\''
    requires forall i :: 0 <= i < |name| ==> !IsSpace(name[i])
    ensures RewriteImgTags(s) == "<img " + FixedSrc + RewriteImgTags(s[24..])
  {
    ImgAtQuote(s, quote, name);
    RewriteImgTagsMatch(s, 5);
    assert "<img " + s[5..5] + FixedSrc == "<img " + FixedSrc;
  }

  lemma RewriteMarkdownImagesMatch(s: string, j: nat)
    requires LinkAt(s) == Some(j)
    ensures RewriteMarkdownImages(s) == s[..j] + FixedTail + RewriteMarkdownImages(s[j + |LinkTail|..])
  {
  }

  /** A Markdown image link into `/images/posts/` loses the root '/' of its path. */
  lemma RewriteMarkdownLink(alt: string, path: string)
    requires forall i :: 0 <= i < |alt| ==> alt[i] != ']'
    ensures RewriteMarkdownImages("![" + alt + LinkTail + path) == "![" + alt + FixedTail + RewriteMarkdownImages(path)
  {
    var s := "![" + alt + LinkTail + path;
    var j := 2 + |alt|;
    assert s[0] == '!' && s[1] == '[';
    forall k | 2 <= k < j ensures s[k] != ']' {
      assert s[k] == alt[k - 2];
    }
    assert s[j..j + |LinkTail|] == LinkTail;
    assert s[j] == LinkTail[0] == ']';
    FindFromFirst(s, 2, ']');
    assert FindFrom(s, 2, ']') == j;
    assert s[j..][..|LinkTail|] == LinkTail;
    assert LinkAt(s) == Some(j);
    RewriteMarkdownImagesMatch(s, j);
    assert s[..j] == "![" + alt;
    assert s[j + |LinkTail|..] == path;
  }
}
