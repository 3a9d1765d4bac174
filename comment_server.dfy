/**
 * The comment server (`blog-comments-server.js`): client-IP selection, the
 * local-IP short-circuit and reduction of a geolocation answer to a region,
 * and the `/api/comments` handlers over the `postId -> comments` ledger.
 * The ledger file is the field `ledger`; whether reading or saving it
 * succeeds, the geolocation answers, the clock and the random id are
 * parameters.
 */
module CommentServer {
  import opened Text

  // ---------------------------------------------------------------------
  // getClientIp

  /** The request headers and addresses `getClientIp` looks at; "" when absent. */
  datatype Origin = Origin(forwardedFor: string, realIp: string, connectionAddress: string,
                           socketAddress: string, requestIp: string)

  const Loopback := "127.0.0.1"

  /** `x-forwarded-for?.split(',')[0]?.trim()`. */
  function ForwardedClient(forwardedFor: string): string {
    Trim(FirstField(forwardedFor, ','))
  }

  /** `getClientIp(req)`: the first non-empty candidate, in order, else the loopback address. */
  function ClientIp(o: Origin): string {
    OrElse(ForwardedClient(o.forwardedFor),
      OrElse(o.realIp, OrElse(o.connectionAddress, OrElse(o.socketAddress, OrElse(o.requestIp, Loopback)))))
  }

  /**
   * The precedence of `getClientIp`: a candidate is chosen exactly when all
   * the candidates before it are empty; the result is never empty.
   */
  lemma ClientIpPrecedence(o: Origin)
    ensures ClientIp(o) != ""
    ensures ForwardedClient(o.forwardedFor) != "" ==> ClientIp(o) == ForwardedClient(o.forwardedFor)
    ensures ForwardedClient(o.forwardedFor) == "" && o.realIp != "" ==> ClientIp(o) == o.realIp
    ensures ForwardedClient(o.forwardedFor) == "" && o.realIp == "" && o.connectionAddress != "" ==>
      ClientIp(o) == o.connectionAddress
    ensures ForwardedClient(o.forwardedFor) == "" && o.realIp == "" && o.connectionAddress == "" && o.socketAddress != "" ==>
      ClientIp(o) == o.socketAddress
    ensures ForwardedClient(o.forwardedFor) == "" && o.realIp == "" && o.connectionAddress == "" && o.socketAddress == "" ==>
      ClientIp(o) == OrElse(o.requestIp, Loopback)
  {
  }

  /**
   * The forwarded client is the first comma-separated entry, trimmed: it has
   * no comma and no whitespace at either end.
   */
  lemma ForwardedClientShape(forwardedFor: string)
    ensures ',' !in ForwardedClient(forwardedFor)
    ensures var r := ForwardedClient(forwardedFor); r == [] || (!IsSpace(r[0]) && !IsSpace(r[|r| - 1]))
  {
    var k := TrimShape(FirstField(forwardedFor, ','));
  }

  // ---------------------------------------------------------------------
  // getIpLocation

  const LocalRegion := "本地"
  const China := "中国"
  const UnknownRegion := "未知"

  /** The addresses `getIpLocation` answers without a lookup. */
  predicate IsLocalIp(ip: string) {
    ip == "127.0.0.1" || ip == "::1"
    || StartsWith(ip, "192.168.") || StartsWith(ip, "10.") || StartsWith(ip, "172.")
  }

  /** The fields of the ip-api.com answer that are read; "" when absent. */
  datatype PrimaryAnswer = PrimaryAnswer(status: string, countryCode: string, regionName: string,
                                         city: string, country: string)

  /** The fields of the ipapi.co answer that are read; `error` is whether `data.error` is truthy. */
  datatype FallbackAnswer = FallbackAnswer(error: bool, countryCode: string, region: string,
                                           city: string, countryName: string)

  function PrimaryRegion(a: PrimaryAnswer): string {
    if a.countryCode == "CN" then OrElse(a.regionName, OrElse(a.city, China))
    else OrElse(a.country, UnknownRegion)
  }

  function FallbackRegion(a: FallbackAnswer): string {
    if a.countryCode == "CN" then OrElse(a.region, OrElse(a.city, China))
    else OrElse(a.countryName, UnknownRegion)
  }

  /**
   * `getIpLocation(ip)`. `primary` and `fallback` are the two services'
   * parsed answers, `None` when the fetch or the JSON parse throws.
   */
  function ResolveLocation(ip: string, primary: Option<PrimaryAnswer>, fallback: Option<FallbackAnswer>): string {
    if IsLocalIp(ip) then LocalRegion
    else if primary.Some? && primary.value.status == "success" then PrimaryRegion(primary.value)
    else if fallback.Some? && !fallback.value.error then FallbackRegion(fallback.value)
    else UnknownRegion
  }

  /**
   * Local addresses are answered before any service is consulted; a
   * successful primary answer decides alone; with both services failing
   * the answer is "未知"; and the region is never empty.
   */
  lemma ResolveLocationCases(ip: string, primary: Option<PrimaryAnswer>, fallback: Option<FallbackAnswer>)
    ensures ResolveLocation(ip, primary, fallback) != ""
    ensures IsLocalIp(ip) ==> ResolveLocation(ip, primary, fallback) == LocalRegion
    ensures IsLocalIp(ip) ==> forall p, q :: ResolveLocation(ip, p, q) == ResolveLocation(ip, primary, fallback)
    ensures !IsLocalIp(ip) && primary.Some? && primary.value.status == "success" ==>
      forall q :: ResolveLocation(ip, primary, q) == PrimaryRegion(primary.value)
    ensures !IsLocalIp(ip) && (primary == None || primary.value.status != "success") && (fallback == None || fallback.value.error) ==>
      ResolveLocation(ip, primary, fallback) == UnknownRegion
  {
  }

  /** For a Chinese address the primary answer falls back from province to city to "中国". */
  lemma PrimaryRegionCases(a: PrimaryAnswer)
    ensures a.countryCode == "CN" && a.regionName != "" ==> PrimaryRegion(a) == a.regionName
    ensures a.countryCode == "CN" && a.regionName == "" && a.city != "" ==> PrimaryRegion(a) == a.city
    ensures a.countryCode == "CN" && a.regionName == "" && a.city == "" ==> PrimaryRegion(a) == China
    ensures a.countryCode != "CN" ==> PrimaryRegion(a) == (if a.country == "" then UnknownRegion else a.country)
  {
  }

  /** A request that carries no address at all is treated as local. */
  lemma NoAddressIsLocal(o: Origin, primary: Option<PrimaryAnswer>, fallback: Option<FallbackAnswer>)
    requires ForwardedClient(o.forwardedFor) == "" && o.realIp == "" && o.connectionAddress == ""
    requires o.socketAddress == "" && o.requestIp == ""
    ensures ResolveLocation(ClientIp(o), primary, fallback) == LocalRegion
  {
    assert ClientIp(o) == Loopback;
  }

  // ---------------------------------------------------------------------
  // the ledger

  /** A stored comment; `createdAt` is the creation time in milliseconds. */
  datatype Comment = Comment(id: string, postId: string, postTitle: string, name: string,
                             content: string, location: string, ip: string, createdAt: int)

  /** The comment as the POST response shows it: no `postId`, `postTitle` or `ip`. */
  datatype PublicComment = PublicComment(id: string, name: string, content: string,
                                         location: string, createdAt: int)

  function Public(c: Comment): PublicComment {
    PublicComment(c.id, c.name, c.content, c.location, c.createdAt)
  }

  /** The POST body; a missing field is "". */
  datatype CommentRequest = CommentRequest(postId: string, postTitle: string, name: string, content: string)

  const MaxNameLength := 50
  const MaxContentLength := 1000

  datatype Rejection = MissingFields | NameTooLong | ContentTooLong

  /**
   * The checks of lines 297-307, in order. Lengths are JavaScript's
   * `.length`, in UTF-16 code units, taken before trimming.
   */
  function Validate(r: CommentRequest): Option<Rejection> {
    if r.postId == "" || r.name == "" || r.content == "" then Some(MissingFields)
    else if Utf16Length(r.name) > MaxNameLength then Some(NameTooLong)
    else if Utf16Length(r.content) > MaxContentLength then Some(ContentTooLong)
    else None
  }

  /** A request is accepted exactly when all three fields are present and within bounds. */
  lemma ValidateAccepts(r: CommentRequest)
    ensures Validate(r) == None <==>
      && r.postId != "" && r.name != "" && r.content != ""
      && Utf16Length(r.name) <= MaxNameLength && Utf16Length(r.content) <= MaxContentLength
    ensures Validate(r) == Some(NameTooLong) ==> Utf16Length(r.name) > MaxNameLength
    ensures Validate(r) == Some(ContentTooLong) ==>
      Utf16Length(r.content) > MaxContentLength && Utf16Length(r.name) <= MaxNameLength
  {
  }

  /**
   * The bound counts code units, not characters: 26 emoji are 52 units,
   * too long a name although only 26 characters.
   */
  lemma AstralNameTooLong(postId: string, postTitle: string, content: string)
    requires postId != "" && content != ""
    ensures Validate(CommentRequest(postId, postTitle, seq(26, _ => '\U{1F600}'), content)) == Some(NameTooLong)
  {
    Utf16LengthAstral(seq(26, _ => '\U{1F600}'));
  }

  /** The comment stored for an accepted request. */
  function NewComment(r: CommentRequest, ip: string, location: string, id: string, now: int): Comment {
    Comment(id, r.postId, r.postTitle, Trim(r.name), Trim(r.content), location, ip, now)
  }

  /**
   * The names every object inherits from `Object.prototype`. Looked up on
   * the parsed ledger, such a name is never falsy and is not an array: a
   * function, or the prototype object itself for `__proto__`.
   */
  predicate Inherited(key: string) {
    key in {"constructor", "__proto__", "hasOwnProperty", "isPrototypeOf", "propertyIsEnumerable",
            "toLocaleString", "toString", "valueOf", "__defineGetter__", "__defineSetter__",
            "__lookupGetter__", "__lookupSetter__"}
  }

  /**
   * `comments[postId]` is an inherited member rather than a thread: the
   * POST skips creating the thread and its `push` throws, the GET's `sort`
   * throws.
   */
  predicate Unusable(ledger: map<string, seq<Comment>>, postId: string) {
    postId !in ledger && Inherited(postId)
  }

  /** The comments of `postId`, or none. */
  function Thread(ledger: map<string, seq<Comment>>, postId: string): seq<Comment> {
    if postId in ledger then ledger[postId] else []
  }

  /** `comments[postId] ||= []; comments[postId].push(c)`. */
  function Appended(ledger: map<string, seq<Comment>>, postId: string, c: Comment): map<string, seq<Comment>> {
    ledger[postId := Thread(ledger, postId) + [c]]
  }

  /** Creating the missing thread and then pushing is `Appended`. */
  lemma CreateThenAppend(ledger: map<string, seq<Comment>>, postId: string, c: Comment)
    ensures var created := if postId in ledger then ledger else ledger[postId := []];
      created[postId := created[postId] + [c]] == Appended(ledger, postId, c)
  {
  }

  /** Only the thread of `postId` changes, and it grows by exactly `c` at its end. */
  lemma AppendedOnlyThisThread(ledger: map<string, seq<Comment>>, postId: string, c: Comment)
    ensures postId in Appended(ledger, postId, c)
    ensures Thread(Appended(ledger, postId, c), postId) == Thread(ledger, postId) + [c]
    ensures Appended(ledger, postId, c).Keys == ledger.Keys + {postId}
    ensures forall k :: k != postId ==> Thread(Appended(ledger, postId, c), k) == Thread(ledger, k)
  {
  }

  /** A comment newer than or as new as every later one: the order `GET` returns. */
  predicate NewestFirst(s: seq<Comment>) {
    forall i, j :: 0 <= i < j < |s| ==> s[i].createdAt >= s[j].createdAt
  }

  /** The first `n` comments are newest first. */
  predicate NewestFirstUpTo(s: seq<Comment>, n: nat)
    requires n <= |s|
  {
    forall p, q :: 0 <= p < q < n ==> s[p].createdAt >= s[q].createdAt
  }

  /**
   * `comments.sort((a, b) => new Date(b.createdAt) - new Date(a.createdAt))`,
   * in place: an insertion sort by adjacent swaps.
   */
  method SortNewestFirst(a: array<Comment>)
    modifies a
    ensures NewestFirst(a[..])
    ensures multiset(a[..]) == multiset(old(a[..]))
  {
    var i := 0;
    while i < a.Length
      invariant 0 <= i <= a.Length
      invariant NewestFirstUpTo(a[..], i)
      invariant multiset(a[..]) == multiset(old(a[..]))
    {
      InsertNewest(a, i);
      i := i + 1;
    }
  }

  /** Moves `a[i]` down into the newest-first prefix `a[..i]`. */
  method InsertNewest(a: array<Comment>, i: nat)
    requires i < a.Length && NewestFirstUpTo(a[..], i)
    modifies a
    ensures NewestFirstUpTo(a[..], i + 1)
    ensures multiset(a[..]) == multiset(old(a[..]))
  {
    var j := i;
    while j > 0 && a[j - 1].createdAt < a[j].createdAt
      invariant 0 <= j <= i
      invariant NewestFirstExcept(a[..], i, j) && NewestAfter(a[..], j, i)
      invariant multiset(a[..]) == multiset(old(a[..]))
    {
      ghost var before := a[..];
      a[j - 1], a[j] := a[j], a[j - 1];
      assert a[..] == before[j - 1 := before[j]][j := before[j - 1]];
      SwapDown(before, i, j);
      j := j - 1;
    }
  }

  /** Apart from position `j`, the first `n + 1` comments are newest first. */
  predicate NewestFirstExcept(s: seq<Comment>, n: nat, j: nat)
    requires n < |s|
  {
    forall p, q :: 0 <= p < q <= n && p != j && q != j ==> s[p].createdAt >= s[q].createdAt
  }

  /** The comment at `j` is at least as new as those after it, up to `n`. */
  predicate NewestAfter(s: seq<Comment>, j: nat, n: nat)
    requires j <= n < |s|
  {
    forall q :: j < q <= n ==> s[j].createdAt >= s[q].createdAt
  }

  /** One adjacent swap moves the newer comment down by one place and keeps the comments. */
  lemma SwapDown(s: seq<Comment>, n: nat, j: nat)
    requires 0 < j <= n < |s|
    requires NewestFirstExcept(s, n, j) && NewestAfter(s, j, n)
    requires s[j - 1].createdAt < s[j].createdAt
    ensures var t := s[j - 1 := s[j]][j := s[j - 1]];
      NewestFirstExcept(t, n, j - 1) && NewestAfter(t, j - 1, n) && multiset(t) == multiset(s)
  {
    var t := s[j - 1 := s[j]][j := s[j - 1]];
    forall p, q | 0 <= p < q <= n && p != j - 1 && q != j - 1
      ensures t[p].createdAt >= t[q].createdAt
    {
      if q == j {
        assert s[p].createdAt >= s[j - 1].createdAt;
      } else if p == j {
        assert s[j - 1].createdAt >= s[q].createdAt;
      }
    }
  }

  datatype PostResponse =
    | Rejected(reason: Rejection)        // 400
    | SaveFailed                         // 500 `保存评论失败`
    | PostFailed                         // 500 `提交评论失败: ` and the error message, from the `catch`
    | Created(comment: PublicComment)

  datatype ListResponse =
    | MissingPostId                      // 400 `缺少 postId 参数`
    | ListFailed                         // 500 `获取评论失败` from the `catch`
    | Listed(comments: seq<Comment>, count: nat)

  /** The comment server; `ledger` is the content of the comments file. */
  class CommentStore {
    var ledger: map<string, seq<Comment>>

    constructor(initial: map<string, seq<Comment>>)
      ensures ledger == initial
    {
      ledger := initial;
    }

    /** `readComments()`: the file's content, or `{}` when reading or parsing fails. */
    function Read(readOk: bool): map<string, seq<Comment>>
      reads this
    {
      if readOk then ledger else map[]
    }

    /**
     * `POST /api/comments`. `origin` gives the client address, `primary`
     * and `fallback` the geolocation answers, `id` and `now` the new
     * comment's id and time; `readOk` and `saveOk` whether reading and
     * writing the ledger file succeed.
     */
    method HandlePost(r: CommentRequest, origin: Origin, primary: Option<PrimaryAnswer>,
                      fallback: Option<FallbackAnswer>, id: string, now: int, readOk: bool, saveOk: bool)
      returns (resp: PostResponse)
      modifies this
      ensures Validate(r) != None ==> resp == Rejected(Validate(r).value) && ledger == old(ledger)
      ensures Validate(r) == None && Unusable(old(Read(readOk)), r.postId) ==> resp == PostFailed && ledger == old(ledger)
      ensures Validate(r) == None && !Unusable(old(Read(readOk)), r.postId) ==>
        var ip := ClientIp(origin);
        var c := NewComment(r, ip, ResolveLocation(ip, primary, fallback), id, now);
        && (saveOk ==> ledger == Appended(old(Read(readOk)), r.postId, c) && resp == Created(Public(c)))
        && (!saveOk ==> ledger == old(ledger) && resp == SaveFailed)
    {
      var rejection := Validate(r);
      if rejection != None {
        return Rejected(rejection.value);
      }
      var clientIp := ClientIp(origin);
      var location := ResolveLocation(clientIp, primary, fallback);
      var comments := Read(readOk);
      if Unusable(comments, r.postId) {
        // `comments[postId]` is inherited and truthy, so no thread is made and `push` throws
        return PostFailed;
      }
      if r.postId !in comments {
        comments := comments[r.postId := []];
      }
      var newComment := NewComment(r, clientIp, location, id, now);
      comments := comments[r.postId := comments[r.postId] + [newComment]];
      CreateThenAppend(Read(readOk), r.postId, newComment);
      if !saveOk {
        return SaveFailed;
      }
      ledger := comments;
      resp := Created(Public(newComment));
    }

    /**
     * `GET /api/comments?postId=...`: the post's comments, newest first.
     * The sort works on the copy just read, so the ledger is untouched.
     */
    method HandleGet(postId: string, readOk: bool) returns (resp: ListResponse)
      ensures postId == "" ==> resp == MissingPostId
      ensures postId != "" && Unusable(Read(readOk), postId) ==> resp == ListFailed
      ensures postId != "" && !Unusable(Read(readOk), postId) ==>
        && resp.Listed?
        && multiset(resp.comments) == multiset(Thread(Read(readOk), postId))
        && NewestFirst(resp.comments)
        && resp.count == |resp.comments|
    {
      if postId == "" {
        return MissingPostId;
      }
      if Unusable(Read(readOk), postId) {
        // `comments[postId] || []` is an inherited member, which has no `sort`
        return ListFailed;
      }
      var postComments := Thread(Read(readOk), postId);
      var a := new Comment[|postComments|](i requires 0 <= i < |postComments| => postComments[i]);
      assert a[..] == postComments;
      SortNewestFirst(a);
      resp := Listed(a[..], a.Length);
    }

    /** `GET /api/comments/all`: the whole ledger and its number of posts. */
    method HandleGetAll(readOk: bool) returns (comments: map<string, seq<Comment>>, totalPosts: nat)
      ensures comments == Read(readOk) && totalPosts == |comments.Keys|
      ensures !readOk ==> totalPosts == 0
    {
      comments := Read(readOk);
      totalPosts := |comments.Keys|;
    }
  }

  /** The stored comment has trimmed name and content and the request's post. */
  lemma NewCommentFields(r: CommentRequest, ip: string, location: string, id: string, now: int)
    ensures var c := NewComment(r, ip, location, id, now);
      && c.postId == r.postId && c.postTitle == r.postTitle && c.createdAt == now
      && c.name == Trim(r.name) && c.content == Trim(r.content)
      && |c.name| <= |r.name| && |c.content| <= |r.content|
  {
    var _ := TrimShape(r.name);
    var _ := TrimShape(r.content);
  }
}
