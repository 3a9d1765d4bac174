/**
 * The publish endpoint of the server variant (`blog-publisher-server-server.js`):
 * the datetime-local pass-through, the cover path, `generateFrontMatter`
 * and the `/api/publish` decision flow. Clocks, `Date` parsing, the file
 * write and the build and sync processes are parameters.
 */
module ServerPublisher {
  import opened Text
  import opened PostText
  import opened ImagePaths

  // ---------------------------------------------------------------------
  // formatLocalDateTime

  /** `/^\d{4}-\d{2}-\d{2}T\d{2}:\d{2}$/`: the value of a datetime-local input. */
  predicate IsDateTimeLocal(s: string) {
    && |s| == 16
    && IsDigit(s[0]) && IsDigit(s[1]) && IsDigit(s[2]) && IsDigit(s[3]) && s[4] == '-'
    && IsDigit(s[5]) && IsDigit(s[6]) && s[7] == '-'
    && IsDigit(s[8]) && IsDigit(s[9]) && s[10] == 'T'
    && IsDigit(s[11]) && IsDigit(s[12]) && s[13] == ':'
    && IsDigit(s[14]) && IsDigit(s[15])
  }

  /** `YYYY-MM-DDTHH:mm:ss+08:00`: the shape every formatted date has. */
  predicate IsOffsetDateTime(s: string) {
    && |s| == 25 && IsDateTimeLocal(s[..16])
    && s[16] == ':' && IsDigit(s[17]) && IsDigit(s[18]) && s[19..] == Zone
  }

  const SecondsAndZone := ":00+08:00"
  const Zone := "+08:00"

  /**
   * `formatLocalDateTime(dateInput)`. A datetime-local value gets seconds and
   * the +08:00 offset appended; any other input goes through `Date`, whose
   * rendering `viaDate` is a parameter.
   */
  function FormatLocalDateTime(input: string, viaDate: string): string {
    if IsDateTimeLocal(input) then input + SecondsAndZone else viaDate
  }

  /**
   * A datetime-local value is passed through untouched: the result has the
   * offset shape, and its first 16 characters give the input back.
   */
  lemma FormatLocalDateTimePassThrough(input: string, viaDate: string)
    ensures IsDateTimeLocal(input) ==>
      var r := FormatLocalDateTime(input, viaDate);
      IsOffsetDateTime(r) && r[..16] == input && r[16..] == SecondsAndZone
    ensures !IsDateTimeLocal(input) ==> FormatLocalDateTime(input, viaDate) == viaDate
  {
    if IsDateTimeLocal(input) {
      var r := input + SecondsAndZone;
      assert r[..16] == input;
      assert r[16..] == SecondsAndZone;
      assert r[19..] == SecondsAndZone[3..] == Zone;
    }
  }

  // ---------------------------------------------------------------------
  // the cover block

  /**
   * The image path of the cover block: a leading "/" is dropped, a path
   * already under "images/posts/" is kept, anything else is put there.
   */
  function CoverPath(name: string): string {
    if StartsWith(name, "/") then name[1..]
    else if StartsWith(name, PostsPath) then name
    else PostsPath + name
  }

  lemma CoverPathCases(name: string)
    ensures StartsWith(name, "/") ==> "/" + CoverPath(name) == name
    ensures !StartsWith(name, "/") ==> StartsWith(CoverPath(name), PostsPath) && EndsWith(CoverPath(name), name)
    ensures !StartsWith(name, "/") && StartsWith(name, PostsPath) ==> CoverPath(name) == name
    ensures !StartsWith(name, "/") && !StartsWith(name, PostsPath) ==> |CoverPath(name)| == |PostsPath| + |name|
  {
    if StartsWith(name, "/") {
      assert name == name[..1] + name[1..];
    } else if !StartsWith(name, PostsPath) {
      var r := PostsPath + name;
      assert r[..|PostsPath|] == PostsPath;
      assert r[|r| - |name|..] == name;
    }
  }

  /** Once a path does not start with "/", normalising it again changes nothing. */
  lemma CoverPathIdempotent(name: string)
    requires !StartsWith(name, "/")
    ensures CoverPath(CoverPath(name)) == CoverPath(name)
  {
    CoverPathCases(name);
    assert CoverPath(name)[0] == PostsPath[0] == 'i';
  }

  /** `cover:` with image, `relative: true`, and an `alt` line only when an alt text was given. */
  function CoverLines(cover: string, alt: string): seq<string> {
    if cover == "" then []
    else (["cover:", "  image: " + Quoted(CoverPath(cover)), "  relative: true"]
      + (if alt == "" then [] else ["  alt: " + Quoted(alt)]))
  }

  /** `featured: true` for "true"; `showToc: true`, then `tocOpen: true` only under it. */
  function FlagLines(f: PublishForm): seq<string> {
    (if f.featured == "true" then ["featured: true"] else [])
    + (if f.showToc == "true" then ["showToc: true"] + (if f.tocOpen == "true" then ["tocOpen: true"] else []) else [])
  }

  /** Every line of the document header, in order, for cover image file name `cover` ("" for none). */
  function FrontMatterLines(f: PublishForm, cover: string, viaDate: string, lastmod: string): seq<string> {
    HeadLines(f, FormatLocalDateTime(f.date, viaDate), lastmod)
    + ListLines("tags", f.tags) + ListLines("categories", f.categories)
    + CoverLines(cover, f.coverAlt) + FlagLines(f) + EndLines
  }

  /**
   * `generateFrontMatter(data)`: the header is accumulated line by line
   * into `fm`. `viaDate` is what `Date` makes of a date that is not a
   * datetime-local value, `lastmod` the formatted current time.
   */
  method GenerateFrontMatter(f: PublishForm, cover: string, viaDate: string, lastmod: string) returns (fm: string)
    ensures fm == Render(FrontMatterLines(f, cover, viaDate, lastmod))
  {
    var dateStr := FormatLocalDateTime(f.date, viaDate);
    fm := AppendHead(f, dateStr, lastmod);
    ghost var lines := HeadLines(f, dateStr, lastmod);
    fm := AppendList(fm, "tags", f.tags);
    RenderAppend(lines, ListLines("tags", f.tags));
    lines := lines + ListLines("tags", f.tags);
    fm := AppendList(fm, "categories", f.categories);
    RenderAppend(lines, ListLines("categories", f.categories));
    lines := lines + ListLines("categories", f.categories);
    fm := AppendCover(fm, cover, f.coverAlt);
    RenderAppend(lines, CoverLines(cover, f.coverAlt));
    lines := lines + CoverLines(cover, f.coverAlt);
    fm := AppendFlags(fm, f);
    RenderAppend(lines, FlagLines(f));
    lines := lines + FlagLines(f);
    fm := fm + "---\n\n";
    RenderEndLines();
    RenderAppend(lines, EndLines);
  }

  /** The `if (data.coverImage)` block. */
  method AppendCover(fm: string, cover: string, alt: string) returns (out: string)
    ensures out == fm + Render(CoverLines(cover, alt))
  {
    out := fm;
    if cover != "" {
      ghost var lines: seq<string> := [];
      var block := AddLine("", lines, "cover:");
      lines := lines + ["cover:"];
      var imagePath := CoverPath(cover);
      block := AddLine(block, lines, "  image: " + Quoted(imagePath));
      lines := lines + ["  image: " + Quoted(imagePath)];
      block := AddLine(block, lines, "  relative: true");
      lines := lines + ["  relative: true"];
      if alt != "" {
        block := AddLine(block, lines, "  alt: " + Quoted(alt));
        lines := lines + ["  alt: " + Quoted(alt)];
      }
      assert lines == CoverLines(cover, alt);
      out := out + block;
    }
  }

  /** The `featured` and `showToc`/`tocOpen` blocks. */
  method AppendFlags(fm: string, f: PublishForm) returns (out: string)
    ensures out == fm + Render(FlagLines(f))
  {
    ghost var lines: seq<string> := [];
    var block := "";
    if f.featured == "true" {
      block := AddLine(block, lines, "featured: true");
      lines := lines + ["featured: true"];
    }
    if f.showToc == "true" {
      block := AddLine(block, lines, "showToc: true");
      lines := lines + ["showToc: true"];
      if f.tocOpen == "true" {
        block := AddLine(block, lines, "tocOpen: true");
        lines := lines + ["tocOpen: true"];
      }
    }
    assert lines == FlagLines(f);
    out := fm + block;
  }

  /** The header opens with "---\n" and closes with "---\n\n". */
  lemma FrontMatterEnds(f: PublishForm, cover: string, viaDate: string, lastmod: string)
    ensures StartsWith(Render(FrontMatterLines(f, cover, viaDate, lastmod)), "---\n")
    ensures EndsWith(Render(FrontMatterLines(f, cover, viaDate, lastmod)), "---\n\n")
  {
    var lines := FrontMatterLines(f, cover, viaDate, lastmod);
    assert lines[0] == "---";
    assert lines[|lines| - 2..] == EndLines;
    RenderEnds(lines, "---", EndLines);
    RenderEndLines();
  }

  /** No line outside the flag block mentions `showToc` or `tocOpen`. */
  lemma OtherLinesNoToc(f: PublishForm, cover: string, dateStr: string, lastmod: string)
    ensures "showToc: true" !in HeadLines(f, dateStr, lastmod) + ListLines("tags", f.tags)
      + ListLines("categories", f.categories) + CoverLines(cover, f.coverAlt) + EndLines
    ensures "tocOpen: true" !in HeadLines(f, dateStr, lastmod) + ListLines("tags", f.tags)
      + ListLines("categories", f.categories) + CoverLines(cover, f.coverAlt) + EndLines
  {
    NoTocInHead(f, dateStr, lastmod);
    NoTocInList("tags", f.tags);
    NoTocInList("categories", f.categories);
    NoTocInCover(cover, f.coverAlt);
  }

  lemma NoTocInCover(cover: string, alt: string)
    ensures "showToc: true" !in CoverLines(cover, alt) && "tocOpen: true" !in CoverLines(cover, alt)
  {
    if cover != "" {
      assert ("  image: " + Quoted(CoverPath(cover)))[0] == ' ';
      assert ("  alt: " + Quoted(alt))[0] == ' ';
    }
  }

  /**
   * `showToc: true` appears exactly when the form says "true", and
   * `tocOpen: true` exactly when both `showToc` and `tocOpen` say "true".
   */
  lemma TocLines(f: PublishForm, cover: string, viaDate: string, lastmod: string)
    ensures "showToc: true" in FrontMatterLines(f, cover, viaDate, lastmod) <==> f.showToc == "true"
    ensures "tocOpen: true" in FrontMatterLines(f, cover, viaDate, lastmod) <==> f.showToc == "true" && f.tocOpen == "true"
  {
    var dateStr := FormatLocalDateTime(f.date, viaDate);
    var head := HeadLines(f, dateStr, lastmod);
    var tags := ListLines("tags", f.tags);
    var cats := ListLines("categories", f.categories);
    var covers := CoverLines(cover, f.coverAlt);
    OtherLinesNoToc(f, cover, dateStr, lastmod);
    var lines := FrontMatterLines(f, cover, viaDate, lastmod);
    assert lines == (head + tags + cats + covers) + FlagLines(f) + EndLines;
    assert "featured: true" != "showToc: true" && "featured: true" != "tocOpen: true";
    assert "showToc: true" != "tocOpen: true";
  }

  // ---------------------------------------------------------------------
  // /api/publish

  /** The post file the handler writes. */
  datatype PostFile = PostFile(name: string, content: string)

  datatype PublishResponse =
    | MissingFields                      // 400 `缺少必填字段`
    | PublishFailed                      // 500 from the `catch`
    | Published(file: string, message: string, cover: string, articles: seq<string>,
                built: Option<bool>, synced: Option<bool>)

  const PublishedMessage := "发布成功！"
  const DeployedNote := " 博客已自动构建并部署。"
  const ManualNote := " 请手动构建并部署。"

  /** The document body: both image-path rewrites, Markdown first. */
  function ProcessedMarkdown(markdown: string): string {
    RewriteImgTags(RewriteMarkdownImages(markdown))
  }

  /**
   * The `/api/publish` handler. `cover` and `articles` are the stored names
   * of the uploads ("" when no cover was sent); `isoDate` is
   * `new Date(date).toISOString()`, `None` when that throws on an invalid
   * date; `writeOk` says whether writing the post file succeeds; `buildOk`
   * and `syncOk` are what `buildBlog` and `syncBlogToServer` would return.
   */
  method HandlePublish(f: PublishForm, cover: string, articles: seq<string>,
                       viaDate: string, lastmod: string, isoDate: Option<string>,
                       writeOk: bool, buildOk: bool, syncOk: bool)
    returns (resp: PublishResponse, written: Option<PostFile>)
    ensures MissingRequired(f) ==> resp == MissingFields && written == None
    ensures !MissingRequired(f) && (isoDate == None || !writeOk) ==> resp == PublishFailed && written == None
    ensures !MissingRequired(f) && isoDate != None && writeOk ==>
      var name := PostFileName(FirstField(isoDate.value, 'T'), f.title);
      && written == Some(PostFile(name, Render(FrontMatterLines(f, cover, viaDate, lastmod)) + ProcessedMarkdown(f.markdown)))
      && resp.Published? && resp.file == name && resp.cover == cover && resp.articles == articles
      && (resp.built != None <==> f.autoBuild == "true")
      && (resp.built != None ==> resp.built == Some(buildOk))
      && (resp.synced != None <==> resp.built == Some(true))
      && (resp.synced != None ==> resp.synced == Some(syncOk))
      && resp.message == PublishedMessage + (if resp.built == Some(true) then DeployedNote else ManualNote)
  {
    written := None;
    if f.title == "" || f.description == "" || f.markdown == "" {
      return MissingFields, None;
    }
    var frontMatter := GenerateFrontMatter(f, cover, viaDate, lastmod);
    if isoDate == None {
      return PublishFailed, None;
    }
    var fileName := PostFileName(FirstField(isoDate.value, 'T'), f.title);
    var processed := f.markdown;
    processed := RewriteMarkdownImages(processed);
    processed := RewriteImgTags(processed);
    var fullContent := frontMatter + processed;
    if !writeOk {
      return PublishFailed, None;
    }
    written := Some(PostFile(fileName, fullContent));
    var buildResult: Option<bool> := None;
    var syncResult: Option<bool> := None;
    if f.autoBuild == "true" {
      buildResult := Some(buildOk);
      if buildOk {
        syncResult := Some(syncOk);
      }
    }
    var message := PublishedMessage + (if buildResult == Some(true) then DeployedNote else ManualNote);
    resp := Published(fileName, message, cover, articles, buildResult, syncResult);
  }
}
