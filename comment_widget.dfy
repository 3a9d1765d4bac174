/**
 * The browser side of the comments (`blog/static/js/comments.js`): the
 * relative time shown next to a comment, the guard that keeps an empty
 * submission from being sent, the defaults of a rendered comment, and the
 * replacement of the rendered list. The current time is a parameter; the
 * DOM is the `CommentList` object holding the list's children.
 */
module CommentWidget {
  import opened Text
  import opened CommentServer

  // ---------------------------------------------------------------------
  // formatTime

  const MillisPerMinute := 60000
  const MillisPerHour := 3600000
  const MillisPerDay := 86400000

  /** The bucket `formatTime` puts an age into. */
  datatype Ago = DaysAgo(days: nat) | HoursAgo(hours: nat) | MinutesAgo(minutes: nat) | JustNow

  /**
   * The bucketing of `formatTime`: `diff` is `now - date` in milliseconds,
   * `None` when the timestamp does not parse (NaN, for which every
   * comparison is false). Each unit is the floor of the previous one; for a
   * positive divisor Dafny's `/` is the floor.
   */
  function Bucket(diff: Option<int>): Ago {
    match diff
    case None => JustNow
    case Some(d) =>
      var seconds := d / 1000;
      var minutes := seconds / 60;
      var hours := minutes / 60;
      var days := hours / 24;
      if days > 0 then DaysAgo(days)
      else if hours > 0 then HoursAgo(hours)
      else if minutes > 0 then MinutesAgo(minutes)
      else JustNow
  }

  const DaysSuffix := "天前"
  const HoursSuffix := "小时前"
  const MinutesSuffix := "分钟前"
  const JustNowText := "刚刚"

  function AgoText(a: Ago): string {
    match a
    case DaysAgo(n) => DecimalString(n) + DaysSuffix
    case HoursAgo(n) => DecimalString(n) + HoursSuffix
    case MinutesAgo(n) => DecimalString(n) + MinutesSuffix
    case JustNow => JustNowText
  }

  /** `formatTime(timestamp)` at time `now`; `timestamp` is `None` when it does not parse. */
  function FormatTime(now: int, timestamp: Option<int>): string {
    AgoText(Bucket(if timestamp.Some? then Some(now - timestamp.value) else None))
  }

  /**
   * The nested floors choose the same bucket and count as single floors of
   * the age: a day or more counts whole days, an hour or more whole hours,
   * a minute or more whole minutes, and anything below a minute (a
   * timestamp in the future included) is "just now".
   */
  lemma BucketBySingleFloor(d: int)
    ensures d >= MillisPerDay ==> Bucket(Some(d)) == DaysAgo(d / MillisPerDay)
    ensures MillisPerHour <= d < MillisPerDay ==> Bucket(Some(d)) == HoursAgo(d / MillisPerHour)
    ensures MillisPerMinute <= d < MillisPerHour ==> Bucket(Some(d)) == MinutesAgo(d / MillisPerMinute)
    ensures d < MillisPerMinute ==> Bucket(Some(d)) == JustNow
  {
  }

  /** The text is "刚刚" exactly when the timestamp does not parse or is less than a minute old. */
  lemma FormatTimeJustNow(now: int, timestamp: Option<int>)
    ensures FormatTime(now, timestamp) == JustNowText <==>
      timestamp == None || now - timestamp.value < MillisPerMinute
  {
    if timestamp.Some? {
      var d := now - timestamp.value;
      BucketBySingleFloor(d);
      var a := Bucket(Some(d));
      if !a.JustNow? {
        assert |AgoText(a)| > |JustNowText|;
      }
    }
  }

  // ---------------------------------------------------------------------
  // the submit guard

  /** What the form sends: the trimmed name and content. */
  datatype Submission = Submission(name: string, content: string)

  /** The guard of the submit handler: `None` (an error message, no request) when either trimmed field is empty. */
  function SubmitGuard(nameInput: string, contentInput: string): Option<Submission> {
    var name := Trim(nameInput);
    var content := Trim(contentInput);
    if name == "" || content == "" then None else Some(Submission(name, content))
  }

  /**
   * A submission that passes the guard is never refused by the server for
   * a missing field when the page has a post id, and the server stores its
   * name and content unchanged (trimming them again is a no-op).
   */
  lemma SubmitGuardAgreesWithServer(nameInput: string, contentInput: string, postId: string, postTitle: string,
                                    ip: string, location: string, id: string, now: int)
    ensures SubmitGuard(nameInput, contentInput) == None <==> Trim(nameInput) == "" || Trim(contentInput) == ""
    ensures SubmitGuard(nameInput, contentInput).Some? && postId != "" ==>
      var s := SubmitGuard(nameInput, contentInput).value;
      var r := CommentRequest(postId, postTitle, s.name, s.content);
      && Validate(r) != Some(MissingFields)
      && NewComment(r, ip, location, id, now).name == s.name
      && NewComment(r, ip, location, id, now).content == s.content
  {
    var _ := TrimShape(nameInput);
    var _ := TrimShape(contentInput);
    TrimNoEdgeSpace(Trim(nameInput));
    TrimNoEdgeSpace(Trim(contentInput));
  }

  // ---------------------------------------------------------------------
  // createCommentElement

  const UnknownLocation := "未知"

  /** `name.charAt(0).toUpperCase()`, with ASCII case mapping. */
  function Avatar(name: string): string {
    if name == "" then "" else [UpperChar(name[0])]
  }

  /** Upper-casing the first character is the first character of the upper-cased name. */
  lemma AvatarIsFirstOfUpper(name: string)
    ensures Avatar(name) == ToUpper(name)[..Min(1, |name|)]
    ensures forall i :: 0 <= i < |Avatar(name)| ==> !('a' <= Avatar(name)[i] <= 'z')
  {
  }

  /** `comment.location || '未知'`. */
  function LocationText(location: string): (r: string)
    ensures r != ""
    ensures location != "" ==> r == location
  {
    if location == "" then UnknownLocation else location
  }

  /** The visible parts of a rendered comment (HTML escaping is the browser's). */
  datatype CommentView = CommentView(avatar: string, name: string, location: string, time: string, content: string)

  /** `createCommentElement(comment)` at time `now`. */
  function View(c: Comment, now: int): CommentView {
    CommentView(Avatar(c.name), c.name, LocationText(c.location), FormatTime(now, Some(c.createdAt)), c.content)
  }

  // ---------------------------------------------------------------------
  // renderComments

  /** A child of the list: the loading note, the "no comments" note, or a rendered comment. */
  datatype Node = Loading | NoComments | Item(view: CommentView)

  /** The children that are not comment items, in order. */
  function Others(s: seq<Node>): seq<Node> {
    if s == [] then [] else (if s[0].Item? then [] else [s[0]]) + Others(s[1..])
  }

  /** The comment items, in order. */
  function Items(s: seq<Node>): seq<Node> {
    if s == [] then [] else (if s[0].Item? then [s[0]] else []) + Items(s[1..])
  }

  lemma {:induction false} OthersAppend(a: seq<Node>, b: seq<Node>)
    ensures Others(a + b) == Others(a) + Others(b)
    ensures Items(a + b) == Items(a) + Items(b)
    decreases |a|
  {
    if a != [] {
      OthersAppend(a[1..], b);
      assert (a + b)[0] == a[0] && (a + b)[1..] == a[1..] + b;
    } else {
      assert a + b == b;
    }
  }

  lemma {:induction false} OthersOnly(s: seq<Node>)
    ensures Others(Others(s)) == Others(s) && Items(Others(s)) == []
    decreases |s|
  {
    if s != [] {
      OthersOnly(s[1..]);
      OthersAppend(if s[0].Item? then [] else [s[0]], Others(s[1..]));
    }
  }

  /** The rendered items of `comments`, one per comment, in order. */
  function Views(comments: seq<Comment>, now: int): seq<Node> {
    if comments == [] then []
    else Views(comments[..|comments| - 1], now) + [Item(View(comments[|comments| - 1], now))]
  }

  lemma ViewsSnoc(comments: seq<Comment>, i: nat, now: int)
    requires i < |comments|
    ensures Views(comments[..i + 1], now) == Views(comments[..i], now) + [Item(View(comments[i], now))]
  {
    assert comments[..i + 1][..i] == comments[..i];
  }

  /** Exactly one item per comment, in the comments' order. */
  lemma {:induction false} ViewsAt(comments: seq<Comment>, now: int)
    ensures |Views(comments, now)| == |comments|
    ensures forall i :: 0 <= i < |comments| ==> Views(comments, now)[i] == Item(View(comments[i], now))
    decreases |comments|
  {
    if comments != [] {
      ViewsAt(comments[..|comments| - 1], now);
    }
  }

  /** The views are all items. */
  lemma {:induction false} ViewsAreItems(comments: seq<Comment>, now: int)
    ensures Items(Views(comments, now)) == Views(comments, now) && Others(Views(comments, now)) == []
    decreases |comments|
  {
    if comments != [] {
      var init := comments[..|comments| - 1];
      ViewsAreItems(init, now);
      OthersAppend(Views(init, now), [Item(View(comments[|comments| - 1], now))]);
    }
  }

  /**
   * After rendering, the items are exactly the views of the new comments,
   * in order, and the other children are the old ones, in their old order.
   */
  lemma RenderedList(old_children: seq<Node>, comments: seq<Comment>, now: int)
    ensures Items(Others(old_children) + Views(comments, now)) == Views(comments, now)
    ensures Others(Others(old_children) + Views(comments, now)) == Others(old_children)
  {
    OthersAppend(Others(old_children), Views(comments, now));
    OthersOnly(old_children);
    ViewsAreItems(comments, now);
  }

  /** The `commentsList` element. */
  class CommentList {
    var children: seq<Node>
    var noCommentsShown: bool

    constructor(initial: seq<Node>, shown: bool)
      ensures children == initial && noCommentsShown == shown
    {
      children := initial;
      noCommentsShown := shown;
    }

    /**
     * `renderComments(comments)` at time `now`: hide the "no comments"
     * note, remove every comment item, then append one item per comment.
     */
    method RenderComments(comments: seq<Comment>, now: int)
      modifies this
      ensures children == Others(old(children)) + Views(comments, now)
      ensures !noCommentsShown
    {
      noCommentsShown := false;
      RemoveItems();
      var i := 0;
      while i < |comments|
        invariant 0 <= i <= |comments|
        invariant children == Others(old(children)) + Views(comments[..i], now)
        invariant !noCommentsShown
      {
        children := children + [Item(View(comments[i], now))];
        ViewsSnoc(comments, i, now);
        i := i + 1;
      }
      assert comments[..i] == comments;
    }

    /** `querySelectorAll('.comment-item').forEach(el => el.remove())`. */
    method RemoveItems()
      modifies this
      ensures children == Others(old(children))
      ensures noCommentsShown == old(noCommentsShown)
    {
      var k := 0;
      while k < |children|
        invariant k <= |children|
        invariant Others(children) == Others(old(children))
        invariant forall i :: 0 <= i < k ==> !children[i].Item?
        invariant noCommentsShown == old(noCommentsShown)
        decreases |children| - k
      {
        if children[k].Item? {
          DropItem(children, k);
          children := children[..k] + children[k + 1..];
        } else {
          k := k + 1;
        }
      }
      NoItems(children);
    }
  }

  /** Removing an item leaves the other children as they were. */
  lemma DropItem(s: seq<Node>, k: nat)
    requires k < |s| && s[k].Item?
    ensures Others(s[..k] + s[k + 1..]) == Others(s)
  {
    var post := s[k + 1..];
    assert s == s[..k] + ([s[k]] + post);
    assert ([s[k]] + post)[1..] == post;
    OthersAppend(s[..k], [s[k]] + post);
    OthersAppend(s[..k], post);
  }

  /** A list without items is its own non-item part. */
  lemma {:induction false} NoItems(s: seq<Node>)
    requires forall i :: 0 <= i < |s| ==> !s[i].Item?
    ensures Others(s) == s
    decreases |s|
  {
    if s != [] {
      NoItems(s[1..]);
    }
  }
}
