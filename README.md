# YEYUblog core in Dafny

This project models the string, list and map logic underneath the YEYUblog
backends and browser scripts, and proves what each piece promises.

- **Publishing, server variant** (`blog-publisher-server-server.js`):
  - the upload file-name sanitiser, with its "looks garbled" rule, the regex cleaning chain and the 100-character cap;
  - the datetime-local pass-through of `formatLocalDateTime`;
  - `generateFrontMatter`, which accumulates the YAML header line by line;
  - the title slug and the post file name;
  - the two image-path rewrites of the Markdown body;
  - the validate, write, build and sync flow of `POST /api/publish`.
- **Publishing, local variant** (`blog-publisher-server.js`):
  - its own `generateFrontMatter` (ISO dates shifted to +08:00, a fixed cover block, flags always written);
  - the handler, which writes the Markdown verbatim and swallows a build failure.
- **Comment server** (`blog-comments-server.js`):
  - the client-IP header precedence of `getClientIp`;
  - the local-address short cut, and the reduction of the two geolocation answers to one region;
  - request validation;
  - the ledger, a map from post id to comments, with the append done by `POST /api/comments`;
  - the newest-first insertion sort of `GET /api/comments`;
  - `GET /api/comments/all`.
- **Comment widget** (`blog/static/js/comments.js`):
  - the relative-time buckets of `formatTime`;
  - the submit guard;
  - the avatar and location defaults of a rendered comment;
  - the in-place replacement of the rendered list by `renderComments`.
- **Page script** (`assets/js/main.js`):
  - the `iUp` delay counter;
  - the image rotation of `getBingImages`, including `parseInt` of the stored index, the check against `BING_IMAGE_URL_PATTERN`, and the CSS escaping of the URL.

Time, randomness, `Date` parsing, file I/O, the build and sync processes, and
the geolocation services are parameters of the operations that use them.
JavaScript's "falsy" text (`undefined`, `null`, `""`) is the empty string.
A Dafny `char` is a Unicode scalar value, while JavaScript's `length` counts
UTF-16 code units, so every length test goes through `Text.Utf16Length`, in
which a character outside the Basic Multilingual Plane counts two.
A NaN is `None` of an `Option`. A timestamp is an integer count of
milliseconds.

Modules:

| file | module | models |
|---|---|---|
| `text.dfy` | `Text` | JavaScript character classes (`\w`, `\s`, the CJK range), `trim`, ASCII case mapping, decimal text, and the `replace(/x+/g, c)` run collapsing |
| `upload_names.dfy` | `UploadNames` | `sanitizeFileName` |
| `post_text.dfy` | `PostText` | the form, the header lines shared by both publishers, the slug and the file name |
| `image_paths.dfy` | `ImagePaths` | the Markdown-link and `<img>` rewrites |
| `server_publisher.dfy` | `ServerPublisher` | `formatLocalDateTime`, the cover path, `generateFrontMatter` and the publish handler of the server variant |
| `local_publisher.dfy` | `LocalPublisher` | `generateFrontMatter` and the publish handler of the local variant |
| `comment_server.dfy` | `CommentServer` | the comment server; class `CommentStore` holds the ledger |
| `comment_widget.dfy` | `CommentWidget` | the comment widget; class `CommentList` is the list element |
| `main_script.dfy` | `MainScript` | class `IUp` is the animation closure; class `Page` holds the session index and the panel style |

Four behaviours of the code that are easy to miss, and that the model keeps:

- The slug's final `trim()` removes whitespace only, so a slug may start or end with '-'.
- `GET /api/comments` returns the stored comments with their `ip` field.
- A failed ledger read degrades to `{}` on `POST` as well. The `POST` then saves a ledger holding only the new comment.
- A name made only of whitespace passes the server's validation, because the check runs before `trim()`.

## Model

| member | source | states |
|---|---|---|
| `UploadNames.ExtName` | blog-publisher-server-server.js:38 | The extension is empty, or it is a proper suffix of the name that starts at its last '.'. It is empty exactly when no '.' follows the first character, or the name is "..". |
| `UploadNames.Extension` | blog-publisher-server-server.js:38 | The extension used always starts with '.'. It is ".png" when `extname` is empty, and otherwise the name's own extension, which ends the name. |
| `UploadNames.SplitExtension` | blog-publisher-server-server.js:38-40 | When the name has an extension, the base name followed by the extension is the original name. |
| `UploadNames.NonAsciiCountAstral` | blog-publisher-server-server.js:44 | Without the `u` flag, each character outside the Basic Multilingual Plane is two non-ASCII matches. |
| `UploadNames.GarbledCountsCodeUnits` | blog-publisher-server-server.js:44-49 | Eleven emoji are a garbled name: 22 code units, all non-ASCII, which passes the 20 floor. |
| `UploadNames.TrimEdgeHyphens` | blog-publisher-server-server.js:66 | Removing the edge hyphens only drops characters. On text without "--", the result has no hyphen at either end and still no "--". |
| `UploadNames.CleaningChain` | blog-publisher-server-server.js:54-66 | After the five replaces, the name holds only `[A-Za-z0-9_]`, U+4E00–U+9FA5 and '-', never "--", and no leading '-'. |
| `UploadNames.CollapseHyphensIdempotent` | blog-publisher-server-server.js:63 | Collapsing hyphen runs a second time changes nothing. |
| `UploadNames.DigitsAreKept` | blog-publisher-server-server.js:69-71 | The timestamp fallback consists of kept characters and contains no '/'. |
| `UploadNames.KeptIsBmp` | blog-publisher-server-server.js:74-76 | The cleaned name is all in the Basic Multilingual Plane, so its `length` is its number of characters and `substring(0, 100)` cannot split a surrogate pair. |
| `UploadNames.JoinParts` | blog-publisher-server-server.js:80 | The joined name ends with the extension and starts with the base. Without '/' in either part, the result has none. |
| `UploadNames.CleanName` | blog-publisher-server-server.js:54-77 | The cleaning branch always yields a non-empty base of at most 100 kept characters, with no "--" and no leading '-'. Its `length` is its number of characters. It is the cleaned name cut to 100 characters, or the timestamp cut to 100 when cleaning leaves nothing. |
| `UploadNames.SanitizeFileName` | blog-publisher-server-server.js:32-81 | An empty name gives "<timestamp>.png". Otherwise the result ends with the extension. A garbled base (over 20 code units, more than half of them non-ASCII) becomes the timestamp. Any other base gives a clean base: the cleaning result cut to 100 characters, or, when cleaning leaves nothing, the timestamp cut to 100. A name without '/' never gains one. |
| `Text.ReplaceRunsNoDoubled` | blog-publisher-server-server.js:57-63 | Replacing every run of a class with one member of that class leaves no two separators side by side. |
| `Text.Utf16Length` | blog-comments-server.js:302-307 | A string's `length` lies between its number of characters and twice that. |
| `Text.Utf16LengthBmp` | blog-comments-server.js:302-307 | Text inside the Basic Multilingual Plane has one code unit per character. |
| `Text.Utf16LengthAstral` | blog-comments-server.js:302-307 | Text outside the Basic Multilingual Plane has two code units per character. |
| `Text.TrimShape` | blog-comments-server.js:328-329 | `trim()` yields a contiguous slice of the input. Only whitespace is removed before and after it, and the slice has no whitespace at either end. |
| `Text.OrElse` | blog-publisher-server-server.js:162 | `x || fallback` is `x` unless `x` is empty. It is never empty when the fallback is not. |
| `PostText.AppendHead` | blog-publisher-server-server.js:157-163 | The head written line by line is the rendering of the head lines: the opening `---`, title, date, lastmod, draft, author and description. |
| `PostText.AppendList` | blog-publisher-server-server.js:165-177 | The `forEach` accumulation appends exactly the rendering of the list block. |
| `PostText.ListLinesShape` | blog-publisher-server-server.js:165-177 | A list block is empty exactly when the list is. Otherwise it is the `key:` line followed by one "  - x" line per element, in order. |
| `PostText.SlugShape` | blog-publisher-server-server.js:215-220 | The slug holds only lower-case word characters and '-', has no "--", and equals the three replaces without the trim, so the trim removes nothing. |
| `PostText.FileName` | blog-publisher-server-server.js:222 | The file name is the date, '-', the slug, then ".md", and the slug can be read back out of it. |
| `ServerPublisher.FormatLocalDateTimePassThrough` | blog-publisher-server-server.js:130-135 | A `YYYY-MM-DDTHH:mm` value comes out as itself plus ":00+08:00", in `YYYY-MM-DDTHH:mm:ss+08:00` shape. Any other input takes the `Date` rendering. |
| `ServerPublisher.CoverPathCases` | blog-publisher-server-server.js:183-187 | A leading '/' is stripped. Any other name ends up under "images/posts/": a name already there is kept as it is, and any other is prefixed. |
| `ServerPublisher.CoverPathIdempotent` | blog-publisher-server-server.js:183-187 | For a name that does not start with '/', applying the cover-path rule to its own result changes nothing. (A leading '/' is not: "//x" becomes "/x" and then "x".) |
| `ServerPublisher.GenerateFrontMatter` | blog-publisher-server-server.js:149-209 | The accumulated header is the rendering of the header lines: head, tags, categories, cover, flags, then the closing `---` and a blank line. |
| `ServerPublisher.AppendCover` | blog-publisher-server-server.js:179-194 | The cover block is appended only for a cover. It has the image path, `relative: true`, and an alt line only when an alt text is given. |
| `ServerPublisher.AppendFlags` | blog-publisher-server-server.js:196-205 | The flag lines are appended exactly as the flags rule gives them. |
| `ServerPublisher.FrontMatterEnds` | blog-publisher-server-server.js:157-207 | The header starts with "---\n" and ends with "---\n\n". |
| `ServerPublisher.TocLines` | blog-publisher-server-server.js:200-205 | "showToc: true" is present iff showToc is "true". "tocOpen: true" is present iff both showToc and tocOpen are "true". |
| `ServerPublisher.HandlePublish` | blog-publisher-server-server.js:392-482 | A missing title, description or markdown gives the 400 answer and writes nothing. An invalid date or a failed write gives the 500 answer. Otherwise the post file holds the header plus the rewritten body. Build runs iff autoBuild is "true", and sync runs iff the build succeeded. The message names the deployment only when the build succeeded. |
| `ImagePaths.RewriteMarkdownImagesDeletesLinkSlashes` | blog-publisher-server-server.js:444 | The Markdown rewrite deletes exactly the root '/' of each `![alt](/images/posts/` link path and keeps every other character in order. |
| `ImagePaths.RewriteMarkdownLink` | blog-publisher-server-server.js:444 | `![alt](/images/posts/...` becomes `![alt](images/posts/...` with the alt text kept. |
| `ImagePaths.ImgAtIsLastCandidate` | blog-publisher-server-server.js:446 | The `<img` pattern matches where some whitespace-preceded `src="/images/posts/` lies before the first '>'. The greedy group picks the last such candidate. |
| `ImagePaths.FirstMatch` | blog-publisher-server-server.js:446 | The search from a position finds a place where the `<img` pattern matches. |
| `ImagePaths.FirstMatchIsLeftmost` | blog-publisher-server-server.js:446 | No match starts between the search position and the match found, nor anywhere after it when none is found. |
| `ImagePaths.RewriteImgTagsFrom` | blog-publisher-server-server.js:446 | From every position, the scanning rewrite equals the leftmost-match global replace. |
| `ImagePaths.RewriteImgTagsIsGlobalReplace` | blog-publisher-server-server.js:446 | The `<img>` rewrite is exactly the `g`-flag replace: the text between successive leftmost matches is copied verbatim, each match becomes `<img ` + its `$1` + `src="images/posts/`, and the search resumes after the match. |
| `ImagePaths.RewriteImgTagsKeepsSkeleton` | blog-publisher-server-server.js:446 | The `<img>` rewrite changes nothing but whitespace, quotes and slashes. All other text survives unchanged and in order. |
| `ImagePaths.RewriteImgTagsNoTag` | blog-publisher-server-server.js:446 | A body without `<img` is left untouched. |
| `ImagePaths.RewriteImgTagQuote` | blog-publisher-server-server.js:446 | `<img src='/images/posts/x'>` and its double-quoted form both become `<img src="images/posts/x` with the original closing quote. |
| `LocalPublisher.ReplaceFirstSplit` | blog-publisher-server.js:70-71 | A one-character `replace` replaces the first occurrence only and keeps everything else. |
| `LocalPublisher.ZonedIsoOfUtc` | blog-publisher-server.js:70-71 | An ISO instant ending in its only 'Z' gets the +08:00 suffix in its place. |
| `LocalPublisher.GenerateFrontMatter` | blog-publisher-server.js:68-113 | The accumulated header is the rendering of the local variant's header lines. |
| `LocalPublisher.AppendCover` | blog-publisher-server.js:98-104 | The cover block has the image under "images/posts/", the alt text defaulting to the file name, an empty caption and `relative: true`. |
| `LocalPublisher.AppendFlags` | blog-publisher-server.js:107-109 | The three flag lines are always appended. |
| `LocalPublisher.FrontMatterEnds` | blog-publisher-server.js:76-110 | The header starts with "---\n" and ends with "---\n\n". |
| `LocalPublisher.TocLines` | blog-publisher-server.js:107-109 | Both toc lines are always present. Each reads `true` iff its own field is "true", independently of the other. |
| `LocalPublisher.HandlePublish` | blog-publisher-server.js:128-206 | Missing fields give 400 before any write. An invalid date or a failed write gives 500. Otherwise the file holds the header and the markdown verbatim, and the answer is a success whether or not the build failed. |
| `CommentServer.ClientIpPrecedence` | blog-comments-server.js:44-51 | The client IP is never empty. Each candidate is chosen exactly when all earlier ones are empty, ending with 127.0.0.1. |
| `CommentServer.ForwardedClientShape` | blog-comments-server.js:45 | The forwarded client is the first comma-separated entry, trimmed. It contains no comma and has no whitespace at either end. |
| `CommentServer.ResolveLocationCases` | blog-comments-server.js:54-96 | The region is never empty. A local address answers "本地" whatever the services say. A successful primary answer alone decides. With both services failing the region is "未知". |
| `CommentServer.PrimaryRegionCases` | blog-comments-server.js:66-73 | In China the region falls back from province to city to "中国". Elsewhere it is the country, or "未知". |
| `CommentServer.NoAddressIsLocal` | blog-comments-server.js:44-58 | A request carrying no address at all falls back to 127.0.0.1, which is local. |
| `CommentServer.ValidateAccepts` | blog-comments-server.js:297-307 | A request is accepted iff post id, name and content are present, the name has at most 50 UTF-16 code units and the content at most 1000, measured before trimming. "Name too long" means more than 50 code units. "Content too long" means more than 1000 code units with a name that was within bounds. |
| `CommentServer.AstralNameTooLong` | blog-comments-server.js:302-304 | A name of 26 emoji, 26 characters but 52 code units, is refused as too long. |
| `CommentServer.AppendedOnlyThisThread` | blog-comments-server.js:318-336 | The append adds the new comment at the end of its post's thread, starting from empty when the post is new. It adds only that key, and every other thread is unchanged. |
| `CommentServer.CreateThenAppend` | blog-comments-server.js:318-336 | Creating the thread when absent and then pushing onto it gives the same ledger as appending. |
| `CommentServer.NewCommentFields` | blog-comments-server.js:324-333 | The stored comment has the request's post id and title, the trimmed name and content (never longer than sent), and the given time. |
| `CommentServer.SortNewestFirst` | blog-comments-server.js:279 | The in-place sort leaves the array ordered by `createdAt`, newest first, and a permutation of its old contents. |
| `CommentServer.InsertNewest` | blog-comments-server.js:279 | One insertion step extends the sorted prefix by one element and permutes the array. |
| `CommentServer.CommentStore.HandlePost` | blog-comments-server.js:293-362 | An invalid request is rejected with its reason and leaves the ledger alone. A post id that names an `Object.prototype` member absent from the ledger ("constructor", "__proto__", …) answers 500 and changes nothing, because `push` throws. Otherwise a successful save makes the ledger the read ledger with the new comment appended, and the answer is the comment without its IP. A failed save answers 500 and changes nothing. |
| `CommentServer.CommentStore.HandleGet` | blog-comments-server.js:268-290 | Without a post id the answer is 400. A post id naming an `Object.prototype` member absent from the ledger answers 500, because `sort` throws. Otherwise it is a newest-first permutation of the post's stored thread, and the count equals its length. |
| `CommentServer.CommentStore.HandleGetAll` | blog-comments-server.js:365-377 | The answer is the whole ledger read and its number of posts, which is zero when the read fails. |
| `CommentWidget.BucketBySingleFloor` | blog/static/js/comments.js:98-113 | The nested floors pick days for a day or more, hours for an hour or more, minutes for a minute or more, and "just now" below that. Each count equals a single floor of the age in milliseconds. |
| `CommentWidget.FormatTimeJustNow` | blog/static/js/comments.js:95-114 | The text is "刚刚" exactly when the timestamp does not parse or is less than a minute old, future ones included. |
| `CommentWidget.SubmitGuardAgreesWithServer` | blog/static/js/comments.js:146-152 | The guard refuses exactly when a trimmed field is empty. A submission it lets through is never refused by the server for missing fields, and the server stores its name and content unchanged. |
| `CommentWidget.AvatarIsFirstOfUpper` | blog/static/js/comments.js:71 | The avatar is the first character of the upper-cased name, and it is never a lower-case letter. |
| `CommentWidget.LocationText` | blog/static/js/comments.js:72 | The location shown is never empty. It is the comment's own location when that is given. |
| `CommentWidget.ViewsAt` | blog/static/js/comments.js:60-63 | One item is created per comment, in the comments' order. |
| `CommentWidget.RenderedList` | blog/static/js/comments.js:57-63 | After rendering, the items are exactly the new comments' views and the other children are the old ones, in order. |
| `CommentWidget.CommentList.RenderComments` | blog/static/js/comments.js:52-64 | The list becomes its non-item children followed by one view per comment, and the "no comments" note is hidden. |
| `CommentWidget.CommentList.RemoveItems` | blog/static/js/comments.js:57-58 | Removing the items one by one leaves exactly the non-item children, in order. |
| `MainScript.StaggeredOrder` | assets/js/main.js:7-11 | Successive `up` calls schedule their elements in call order, 150 ms apart, at strictly increasing delays. |
| `MainScript.Applied` | assets/js/main.js:8-10 | Running a timer changes only its own element: `add` gives it `up`, `toggle` flips whether it has `up`. |
| `MainScript.AppliedTwice` | assets/js/main.js:8-19 | Running an adding timer twice is running it once. Running a toggling timer twice undoes it. |
| `MainScript.IUp.constructor` | assets/js/main.js:1-3 | The closure starts with a zero delay, no pending timer, and the given elements carrying `up`. |
| `MainScript.IUp.Fire` | assets/js/main.js:8-19 | Running pending timer k removes it from the pending ones, applies its effect to the elements, and leaves the delay alone. |
| `MainScript.IUp.Clean` | assets/js/main.js:4-6 | The counter returns to 0, and nothing else changes. |
| `MainScript.IUp.Up` | assets/js/main.js:7-12 | One timer that adds `up` is scheduled at the current delay, and the delay grows by 150. |
| `MainScript.IUp.Down` | assets/js/main.js:13-15 | Exactly that element loses `up`, at once: the other elements keep their class, and the counter and timers are unchanged. |
| `MainScript.IUp.Toggle` | assets/js/main.js:16-21 | One toggling timer is scheduled at the current delay, and the delay grows by 150. |
| `MainScript.IUp.UpAll` | assets/js/main.js:107-110 | The page-load loop schedules the staggered timers for all elements in order, and the counter grows by 150 per element. |
| `MainScript.LeadingDigits` | assets/js/main.js:45 | `parseInt` reads the longest run of leading digits. |
| `MainScript.ParseIntOfDecimal` | assets/js/main.js:45 | Parsing the decimal text that `setItem` stores gives the stored index back. |
| `MainScript.NextIndexCases` | assets/js/main.js:44-56 | NaN or an index past the end restarts at 0. An index in range moves to the next one cyclically. Any index below -1 gives a negative index that selects no image. |
| `MainScript.RotationAdvances` | assets/js/main.js:44-56 | After index i is saved, the next visit shows image (i + 1) mod the number of images. |
| `MainScript.BingPathChars` | assets/js/main.js:31 | A path matching `BING_IMAGE_URL_PATTERN` contains no quote, backslash, parenthesis or whitespace. |
| `MainScript.EscapeReadsBack` | assets/js/main.js:65 | Escaping every ' and \ with a backslash is undone by a CSS single-quoted-string reader, which stops at the closing quote. |
| `MainScript.EscapeNothing` | assets/js/main.js:65 | Text without ' or \ is left unchanged by the escaping. |
| `MainScript.BackgroundImageOfBingPath` | assets/js/main.js:57-65 | For a path that passes the pattern, the CSS value is `url('https://www.cn.bing.com<path>')`, and it reads back as exactly that URL followed by ")". |
| `MainScript.Page.GetBingImages` | assets/js/main.js:33-71 | No panel, no array or an empty list changes nothing. Otherwise the next index is chosen. A missing, non-string or non-matching URL there changes nothing. A valid one sets the five style fields and only then stores the index as decimal text. |

## Left out

- The HTTP layer (express, multer, CORS, `app.listen`, the root information page) is not modelled. Handlers take the parsed body and return an abstract response.
- File I/O is left out: reading and writing the comments file and the post file, and `ensureDirectories`. These are boolean outcomes or the in-memory ledger.
- The `/api/posts` listing of the local variant reads a directory, and is not modelled.
- `buildBlog`, `findHugoPath`, `syncBlogToServer` and the local variant's `hugo --minify` run external processes. They appear only as the booleans `buildOk`/`syncOk`.
- The clock and `Date` are not modelled:
  - `Date.now()`, `new Date()`, `toISOString()`;
  - the `getFullYear`…`getSeconds` branch of `formatLocalDateTime`;
  - the date half of the post file name.

  Their results are parameters, and an invalid date is `None`.
- `Math.random()` in comment ids is not modelled. The id is a parameter.
- `JSON.parse` of the tags and categories is not modelled. The lists arrive parsed.
- The geolocation `fetch` calls are not modelled. Their answers are inputs, and a failed call is `None`.
- The DOM side of `createCommentElement` and `escapeHtml` is not modelled. HTML escaping belongs to the browser, and a rendered comment is the record of its visible parts.
- These browser pieces are left out because they are DOM and timer plumbing:
  - in comments.js: `showMessage`, `loadComments`, and the submit request with its button state;
  - in main.js: the hitokoto quote, the mobile menu, the modal and `decryptEmail`.
- The weather scripts are not modelled.
- The concurrent read-modify-write race on the comments file is left out. The model is sequential.
- The clock behind `setTimeout` is not modelled. `IUp.Fire` runs whichever pending timer its caller names, so the order of due timers is not enforced.
- `path.extname` and `path.basename` are modelled for a bare file name. Directory separators in upload names are not interpreted.
- `Text.ToLower`/`Text.ToUpper`: only ASCII letters change case. JavaScript maps all of Unicode.
- `MainScript.ParseInt`: the value is exact. JavaScript loses precision above 2^53.
- `MainScript.ReadQuoted`: reads only the backslash escapes that the escaping produces. Hex escapes and escaped newlines of CSS are not read.
- `CommentServer.SortNewestFirst`: stability is not stated. JavaScript's `sort` is stable, and the contract says only sorted and permutation.
- `CommentServer.CommentStore.HandleGet`: `createdAt` is compared as a number. The ISO text and its `Date` parsing are abstracted away.
- `CommentWidget.AvatarIsFirstOfUpper`: a name that starts outside the Basic Multilingual Plane has a lone high surrogate as its `charAt(0)` in JavaScript. A Dafny `char` cannot hold a lone surrogate, so the model's avatar is the whole first character.
- Lone surrogates in request text are not representable. A Dafny string holds only Unicode scalar values.
