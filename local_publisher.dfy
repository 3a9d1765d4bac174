/**
 * The publish endpoint of the local variant (`blog-publisher-server.js`):
 * its own `generateFrontMatter` (ISO dates, a fixed cover block, flags
 * always written) and a handler that writes the Markdown verbatim and
 * ignores how the optional build ends.
 */
module LocalPublisher {
  import opened Text
  import opened PostText
  import opened ImagePaths

  const Zone := "+08:00"

  /** `s.replace(c, rep)` with a one-character pattern: only the first `c` is replaced. */
  function ReplaceFirst(s: string, c: char, rep: string): string {
    if s == [] then []
    else if s[0] == c then rep + s[1..]
    else [s[0]] + ReplaceFirst(s[1..], c, rep)
  }

  /**
   * The first occurrence and nothing else is replaced: text before it is
   * kept, and text after it is kept even when it holds `c` again.
   */
  lemma {:induction false} ReplaceFirstSplit(a: string, c: char, rep: string, b: string)
    requires c !in a
    ensures ReplaceFirst(a + [c] + b, c, rep) == a + rep + b
    decreases |a|
  {
    if a == [] {
      assert a + [c] + b == [c] + b;
    } else {
      ReplaceFirstSplit(a[1..], c, rep, b);
      assert (a + [c] + b)[1..] == a[1..] + [c] + b;
      calc {
        ReplaceFirst(a + [c] + b, c, rep);
        [a[0]] + ReplaceFirst(a[1..] + [c] + b, c, rep);
        [a[0]] + (a[1..] + rep + b);
        { assert [a[0]] + a[1..] == a; }
        a + rep + b;
      }
    }
  }

  lemma {:induction false} ReplaceFirstAbsent(s: string, c: char, rep: string)
    requires c !in s
    ensures ReplaceFirst(s, c, rep) == s
    decreases |s|
  {
    if s != [] {
      ReplaceFirstAbsent(s[1..], c, rep);
      assert [s[0]] + s[1..] == s;
    }
  }

  /** `toISOString().replace('Z', '+08:00')`. */
  function ZonedIso(iso: string): string {
    ReplaceFirst(iso, 'Z', Zone)
  }

  /** An ISO timestamp ends in its only 'Z', which becomes the +08:00 offset. */
  lemma ZonedIsoOfUtc(stamp: string)
    requires 'Z' !in stamp
    ensures ZonedIso(stamp + "Z") == stamp + Zone
  {
    ReplaceFirstSplit(stamp, 'Z', Zone, []);
    assert stamp + ['Z'] + [] == stamp + "Z";
  }

  /** The cover block: image under "images/posts/", alt defaulting to the file name, empty caption. */
  function CoverLines(cover: string, alt: string): seq<string> {
    if cover == "" then []
    else ["cover:", "  image: " + Quoted(PostsPath + cover), "  alt: " + Quoted(OrElse(alt, cover)),
          "  caption: " + Quoted(""), "  relative: true"]
  }

  /** The three flag lines, always written, each `true` exactly for the text "true". */
  function FlagLines(f: PublishForm): seq<string> {
    [ "featured: " + BoolText(f.featured == "true"),
      "showToc: " + BoolText(f.showToc == "true"),
      "tocOpen: " + BoolText(f.tocOpen == "true") ]
  }

  /** Every line of the header; `isoDate` and `nowIso` are the two `toISOString()` values. */
  function FrontMatterLines(f: PublishForm, cover: string, isoDate: string, nowIso: string): seq<string> {
    HeadLines(f, ZonedIso(isoDate), ZonedIso(nowIso))
    + ListLines("tags", f.tags) + ListLines("categories", f.categories)
    + CoverLines(cover, f.coverAlt) + FlagLines(f) + EndLines
  }

  /** `generateFrontMatter(data)` of the local variant, accumulated line by line. */
  method GenerateFrontMatter(f: PublishForm, cover: string, isoDate: string, nowIso: string) returns (fm: string)
    ensures fm == Render(FrontMatterLines(f, cover, isoDate, nowIso))
  {
    var dateStr := ZonedIso(isoDate);
    var lastmodStr := ZonedIso(nowIso);
    fm := AppendHead(f, dateStr, lastmodStr);
    ghost var lines := HeadLines(f, dateStr, lastmodStr);
    fm := AppendList(fm, "tags", f.tags);
    RenderAppend(lines, ListLines("tags", f.tags));
    lines := lines + ListLines("tags", f.tags);
    fm := AppendList(fm, "categories", f.categories);
    RenderAppend(lines, ListLines("categories", f.categories));
    lines := lines + ListLines("categories", f.categories);
    fm := AppendCover(fm, cover, f.coverAlt);
    RenderAppend(lines, CoverLines(cover, f.coverAlt));
    lines := lines + CoverLines(cover, f.coverAlt);
    fm := AppendFlags(fm, f);
    RenderAppend(lines, FlagLines(f));
    lines := lines + FlagLines(f);
    fm := fm + "---\n\n";
    RenderEndLines();
    RenderAppend(lines, EndLines);
  }

  method AppendCover(fm: string, cover: string, alt: string) returns (out: string)
    ensures out == fm + Render(CoverLines(cover, alt))
  {
    out := fm;
    if cover != "" {
      ghost var lines: seq<string> := [];
      var block := AddLine("", lines, "cover:");
      lines := lines + ["cover:"];
      block := AddLine(block, lines, "  image: " + Quoted(PostsPath + cover));
      lines := lines + ["  image: " + Quoted(PostsPath + cover)];
      block := AddLine(block, lines, "  alt: " + Quoted(OrElse(alt, cover)));
      lines := lines + ["  alt: " + Quoted(OrElse(alt, cover))];
      block := AddLine(block, lines, "  caption: " + Quoted(""));
      lines := lines + ["  caption: " + Quoted("")];
      block := AddLine(block, lines, "  relative: true");
      lines := lines + ["  relative: true"];
      assert lines == CoverLines(cover, alt);
      out := out + block;
    }
  }

  method AppendFlags(fm: string, f: PublishForm) returns (out: string)
    ensures out == fm + Render(FlagLines(f))
  {
    ghost var lines: seq<string> := [];
    var block := AddLine("", lines, "featured: " + BoolText(f.featured == "true"));
    lines := lines + ["featured: " + BoolText(f.featured == "true")];
    block := AddLine(block, lines, "showToc: " + BoolText(f.showToc == "true"));
    lines := lines + ["showToc: " + BoolText(f.showToc == "true")];
    block := AddLine(block, lines, "tocOpen: " + BoolText(f.tocOpen == "true"));
    lines := lines + ["tocOpen: " + BoolText(f.tocOpen == "true")];
    assert lines == FlagLines(f);
    out := fm + block;
  }

  lemma FrontMatterEnds(f: PublishForm, cover: string, isoDate: string, nowIso: string)
    ensures StartsWith(Render(FrontMatterLines(f, cover, isoDate, nowIso)), "---\n")
    ensures EndsWith(Render(FrontMatterLines(f, cover, isoDate, nowIso)), "---\n\n")
  {
    var lines := FrontMatterLines(f, cover, isoDate, nowIso);
    assert lines[0] == "---";
    assert lines[|lines| - 2..] == EndLines;
    RenderEnds(lines, "---", EndLines);
    RenderEndLines();
  }

  lemma NoTocInCover(cover: string, alt: string)
    ensures "showToc: true" !in CoverLines(cover, alt) && "tocOpen: true" !in CoverLines(cover, alt)
  {
    if cover != "" {
      assert ("  image: " + Quoted(PostsPath + cover))[0] == ' ';
      assert ("  alt: " + Quoted(OrElse(alt, cover)))[0] == ' ';
      assert ("  caption: " + Quoted(""))[0] == ' ';
    }
  }

  /**
   * Unlike the server variant, `showToc` and `tocOpen` are independent:
   * each reads `true` exactly when its own field is "true", and both
   * lines are always there.
   */
  lemma TocLines(f: PublishForm, cover: string, isoDate: string, nowIso: string)
    ensures "showToc: " + BoolText(f.showToc == "true") in FrontMatterLines(f, cover, isoDate, nowIso)
    ensures "tocOpen: " + BoolText(f.tocOpen == "true") in FrontMatterLines(f, cover, isoDate, nowIso)
    ensures "showToc: true" in FrontMatterLines(f, cover, isoDate, nowIso) <==> f.showToc == "true"
    ensures "tocOpen: true" in FrontMatterLines(f, cover, isoDate, nowIso) <==> f.tocOpen == "true"
  {
    var head := HeadLines(f, ZonedIso(isoDate), ZonedIso(nowIso));
    var tags := ListLines("tags", f.tags);
    var cats := ListLines("categories", f.categories);
    var covers := CoverLines(cover, f.coverAlt);
    NoTocInHead(f, ZonedIso(isoDate), ZonedIso(nowIso));
    NoTocInList("tags", f.tags);
    NoTocInList("categories", f.categories);
    NoTocInCover(cover, f.coverAlt);
    var lines := FrontMatterLines(f, cover, isoDate, nowIso);
    assert lines == (head + tags + cats + covers) + FlagLines(f) + EndLines;
    FlagLinesToc(f);
  }

  lemma FlagLinesToc(f: PublishForm)
    ensures "showToc: true" in FlagLines(f) <==> f.showToc == "true"
    ensures "tocOpen: true" in FlagLines(f) <==> f.tocOpen == "true"
  {
    assert "showToc: " + "true" == "showToc: true" && "tocOpen: " + "true" == "tocOpen: true";
    assert |"featured: " + BoolText(f.featured == "true")| >= 14;
    assert ("showToc: " + BoolText(f.showToc == "true"))[0] == 's';
    assert ("tocOpen: " + BoolText(f.tocOpen == "true"))[0] == 't';
    assert |"showToc: " + "false"| != |"showToc: true"| && |"tocOpen: " + "false"| != |"tocOpen: true"|;
  }

  // ---------------------------------------------------------------------
  // /api/publish

  datatype PostFile = PostFile(name: string, content: string)

  datatype PublishResponse =
    | MissingFields                      // 400 `缺少必填字段`
    | PublishFailed                      // 500 from the `catch`
    | Published(file: string, cover: string, articles: seq<string>)

  /**
   * The `/api/publish` handler of the local variant. `isoDate` is
   * `new Date(date).toISOString()`, `None` when that throws; `nowIso` the
   * current time's; `writeOk` whether writing the post file succeeds;
   * `autoBuild` the `AUTO_BUILD` environment switch and `buildOk` whether
   * `hugo --minify` would succeed. `buildRan` says whether the build ran.
   */
  method HandlePublish(f: PublishForm, cover: string, articles: seq<string>,
                       isoDate: Option<string>, nowIso: string, writeOk: bool,
                       autoBuild: bool, buildOk: bool)
    returns (resp: PublishResponse, written: Option<PostFile>, buildRan: bool)
    ensures MissingRequired(f) ==> resp == MissingFields && written == None && !buildRan
    ensures !MissingRequired(f) && (isoDate == None || !writeOk) ==> resp == PublishFailed && written == None && !buildRan
    ensures !MissingRequired(f) && isoDate != None && writeOk ==>
      var name := PostFileName(isoDate.value[..Min(|isoDate.value|, 10)], f.title);
      && written == Some(PostFile(name, Render(FrontMatterLines(f, cover, isoDate.value, nowIso)) + f.markdown))
      && resp == Published(name, cover, articles)
      && buildRan == autoBuild
  {
    written := None;
    buildRan := false;
    if f.title == "" || f.description == "" || f.markdown == "" {
      return MissingFields, None, false;
    }
    if isoDate == None {
      return PublishFailed, None, false;
    }
    var frontMatter := GenerateFrontMatter(f, cover, isoDate.value, nowIso);
    var fileName := PostFileName(isoDate.value[..Min(|isoDate.value|, 10)], f.title);
    var fullContent := frontMatter + f.markdown;
    if !writeOk {
      return PublishFailed, None, false;
    }
    written := Some(PostFile(fileName, fullContent));
    if autoBuild {
      // `hugo --minify` runs; a failure (`!buildOk`) is only logged
      buildRan := true;
    }
    resp := Published(fileName, cover, articles);
  }
}
