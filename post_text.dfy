/**
 * Text building shared by both publisher variants: a post document header is
 * a list of lines, each written followed by "\n"; `tags:` and `categories:`
 * blocks; and the title slug used in the post's file name.
 */
module PostText {
  import opened Text

  /** Each line followed by a newline, in order: the `frontMatter += '...\n'` steps. */
  function Render(lines: seq<string>): string
  {
    if lines == [] then "" else lines[0] + "\n" + Render(lines[1..])
  }

  lemma {:induction false} RenderAppend(a: seq<string>, b: seq<string>)
    ensures Render(a + b) == Render(a) + Render(b)
  {
    if a == [] {
      assert a + b == b;
    } else {
      assert (a + b)[1..] == a[1..] + b;
      RenderAppend(a[1..], b);
    }
  }

  /** A rendered header opens with its first line and closes with its last two. */
  lemma RenderEnds(lines: seq<string>, first: string, last2: seq<string>)
    requires |lines| >= 3 && lines[0] == first && lines[|lines| - 2..] == last2
    ensures StartsWith(Render(lines), first + "\n")
    ensures EndsWith(Render(lines), Render(last2))
  {
    RenderAppend(lines[..|lines| - 2], last2);
    assert lines[..|lines| - 2] + last2 == lines;
  }

  lemma RenderSnoc(lines: seq<string>, l: string)
    ensures Render(lines + [l]) == Render(lines) + l + "\n"
  {
    RenderAppend(lines, [l]);
    RenderOne(l);
  }

  // ---------------------------------------------------------------------
  // the publish form and the header lines both variants share

  /**
   * The text fields of a publish request (`req.body`). A missing field is
   * "". `tags` and `categories` are the already parsed JSON arrays.
   */
  datatype PublishForm = PublishForm(
    title: string, author: string, description: string, date: string,
    draft: string, featured: string, showToc: string, tocOpen: string,
    coverAlt: string, categories: seq<string>, tags: seq<string>,
    markdown: string, autoBuild: string)

  const DefaultAuthor := "YEYUbaka"

  /** `!title || !description || !markdown`: the check both handlers start with. */
  predicate MissingRequired(f: PublishForm) {
    f.title == "" || f.description == "" || f.markdown == ""
  }

  /** A boolean interpolated into a template literal. */
  function BoolText(b: bool): string {
    if b then "true" else "false"
  }

  function Quoted(s: string): string {
    "\"" + s + "\""
  }

  /**
   * The opening seven header lines: `---`, title, date, lastmod, draft
   * (true exactly for the text "true"), author (default "YEYUbaka") and
   * description.
   */
  function HeadLines(f: PublishForm, dateStr: string, lastmodStr: string): seq<string> {
    [ "---",
      "title: " + Quoted(f.title),
      "date: " + dateStr,
      "lastmod: " + lastmodStr,
      "draft: " + BoolText(f.draft == "true"),
      "author: " + Quoted(OrElse(f.author, DefaultAuthor)),
      "description: " + Quoted(f.description) ]
  }

  /** The two lines that close a header: `---` and an empty line. */
  const EndLines: seq<string> := ["---", ""]

  lemma RenderEndLines()
    ensures Render(EndLines) == "---\n\n"
  {
    RenderSnoc(["---"], "");
    RenderOne("---");
    assert ["---"] + [""] == EndLines;
  }

  /** The first seven `frontMatter +=` steps. */
  method AppendHead(f: PublishForm, dateStr: string, lastmod: string) returns (fm: string)
    ensures fm == Render(HeadLines(f, dateStr, lastmod))
  {
    ghost var lines: seq<string> := [];
    fm := "";
    fm := AddLine(fm, lines, "---");
    lines := lines + ["---"];
    fm := AddLine(fm, lines, "title: " + Quoted(f.title));
    lines := lines + ["title: " + Quoted(f.title)];
    fm := AddLine(fm, lines, "date: " + dateStr);
    lines := lines + ["date: " + dateStr];
    fm := AddLine(fm, lines, "lastmod: " + lastmod);
    lines := lines + ["lastmod: " + lastmod];
    fm := AddLine(fm, lines, "draft: " + BoolText(f.draft == "true"));
    lines := lines + ["draft: " + BoolText(f.draft == "true")];
    fm := AddLine(fm, lines, "author: " + Quoted(OrElse(f.author, DefaultAuthor)));
    lines := lines + ["author: " + Quoted(OrElse(f.author, DefaultAuthor))];
    fm := AddLine(fm, lines, "description: " + Quoted(f.description));
    lines := lines + ["description: " + Quoted(f.description)];
    assert lines == HeadLines(f, dateStr, lastmod);
  }

  /** One `frontMatter += line + '\n'` step. */
  method AddLine(fm: string, ghost lines: seq<string>, line: string) returns (out: string)
    requires fm == Render(lines)
    ensures out == Render(lines + [line])
  {
    out := fm + line + "\n";
    RenderSnoc(lines, line);
  }

  /** One `  - x` line per element, in order: the body of a `forEach`. */
  function ItemLines(xs: seq<string>): (r: seq<string>)
    ensures |r| == |xs|
  {
    if xs == [] then [] else ItemLines(xs[..|xs| - 1]) + ["  - " + xs[|xs| - 1]]
  }

  lemma {:induction false} ItemLinesAt(xs: seq<string>)
    ensures forall i :: 0 <= i < |xs| ==> ItemLines(xs)[i] == "  - " + xs[i]
    decreases |xs|
  {
    if xs != [] {
      var init := xs[..|xs| - 1];
      ItemLinesAt(init);
      forall i | 0 <= i < |xs| ensures ItemLines(xs)[i] == "  - " + xs[i] {
        if i < |xs| - 1 {
          assert ItemLines(xs)[i] == ItemLines(init)[i];
          assert init[i] == xs[i];
        }
      }
    }
  }

  /** `if (xs.length > 0) { key + ':' ; one item line per element }`. */
  function ListLines(key: string, xs: seq<string>): seq<string>
  {
    if xs == [] then [] else [key + ":"] + ItemLines(xs)
  }

  /**
   * A list block is there exactly when the list is non-empty: a `key:` line,
   * then one `  - x` line per element, in order.
   */
  lemma ListLinesShape(key: string, xs: seq<string>)
    ensures xs == [] <==> ListLines(key, xs) == []
    ensures xs != [] ==> |ListLines(key, xs)| == |xs| + 1 && ListLines(key, xs)[0] == key + ":"
    ensures forall i :: 0 <= i < |xs| ==> ListLines(key, xs)[i + 1] == "  - " + xs[i]
  {
    ItemLinesAt(xs);
    if xs != [] {
      var r := ListLines(key, xs);
      forall i | 0 <= i < |xs| ensures r[i + 1] == "  - " + xs[i] {
        assert r[i + 1] == ItemLines(xs)[i];
      }
    }
  }

  /** Item lines begin with a space, so they never equal a top-level header line. */
  lemma ItemLinesIndented(xs: seq<string>)
    ensures forall l :: l in ItemLines(xs) ==> |l| > 0 && l[0] == ' '
  {
    ItemLinesAt(xs);
    forall l | l in ItemLines(xs) ensures |l| > 0 && l[0] == ' ' {
      var i :| 0 <= i < |ItemLines(xs)| && ItemLines(xs)[i] == l;
      assert l == "  - " + xs[i];
    }
  }

  lemma RenderOne(l: string)
    ensures Render([l]) == l + "\n"
  {
    assert [l][1..] == [];
  }

  lemma ItemLinesSnoc(xs: seq<string>, i: nat)
    requires i < |xs|
    ensures ItemLines(xs[..i + 1]) == ItemLines(xs[..i]) + ["  - " + xs[i]]
  {
    assert xs[..i + 1][..i] == xs[..i];
  }

  /**
   * Appends a list block to a header under construction: the `if` around
   * the `forEach` loop of `generateFrontMatter`.
   */
  method AppendList(header: string, key: string, xs: seq<string>) returns (out: string)
    ensures out == header + Render(ListLines(key, xs))
  {
    out := header;
    if |xs| > 0 {
      var head := key + ":";
      out := out + head + "\n";
      out := AppendItems(out, xs);
      RenderAppend([head], ItemLines(xs));
      RenderOne(head);
    }
  }

  method AppendItems(pre: string, xs: seq<string>) returns (out: string)
    ensures out == pre + Render(ItemLines(xs))
  {
    out := pre;
    ghost var items: seq<string> := [];
    var i := 0;
    while i < |xs|
      invariant 0 <= i <= |xs|
      invariant items == ItemLines(xs[..i])
      invariant out == pre + Render(items)
    {
      var item := "  - " + xs[i];
      ItemLinesSnoc(xs, i);
      RenderSnoc(items, item);
      out := out + item + "\n";
      items := items + [item];
      i := i + 1;
    }
    assert xs[..|xs|] == xs;
  }

  /** No header line outside the flag lines reads `showToc: true` or `tocOpen: true`. */
  lemma NoTocInHead(f: PublishForm, dateStr: string, lastmod: string)
    ensures "showToc: true" !in HeadLines(f, dateStr, lastmod) && "tocOpen: true" !in HeadLines(f, dateStr, lastmod)
  {
    assert ("title: " + Quoted(f.title))[1] == 'i';
    assert ("date: " + dateStr)[0] == 'd' && ("lastmod: " + lastmod)[0] == 'l';
    assert ("draft: " + BoolText(f.draft == "true"))[0] == 'd';
    assert ("author: " + Quoted(OrElse(f.author, DefaultAuthor)))[0] == 'a';
    assert ("description: " + Quoted(f.description))[0] == 'd';
  }

  lemma NoTocInList(key: string, xs: seq<string>)
    requires key == "tags" || key == "categories"
    ensures "showToc: true" !in ListLines(key, xs) && "tocOpen: true" !in ListLines(key, xs)
  {
    ItemLinesIndented(xs);
    var r := ListLines(key, xs);
    forall l | l in r ensures l != "showToc: true" && l != "tocOpen: true" {
      if l !in ItemLines(xs) {
        assert l == key + ":";
      }
    }
  }

  // ---------------------------------------------------------------------
  // the title slug of `generateFileName`

  /** `[\w\s-]`: what survives the first replace of the slug chain. */
  predicate IsSlugSource(c: char) {
    IsWordChar(c) || IsSpace(c) || c == '-'
  }

  /** What a slug can be made of. */
  predicate IsSlugChar(c: char) {
    'a' <= c <= 'z' || IsDigit(c) || c == '_' || c == '-'
  }

  /**
   * `title.toLowerCase().replace(/[^\w\s-]/g, '').replace(/\s+/g, '-')
   *  .replace(/-+/g, '-').trim()`.
   */
  function Slug(title: string): string
  {
    Trim(ReplaceRuns(ReplaceRuns(Filter(ToLower(title), IsSlugSource), IsSpace, '-'), IsHyphen, '-'))
  }

  lemma LowerFilterNoUpper(title: string)
    ensures forall i :: 0 <= i < |Filter(ToLower(title), IsSlugSource)| ==>
      var c := Filter(ToLower(title), IsSlugSource)[i]; IsSlugSource(c) && !('A' <= c <= 'Z')
  {
    var l := ToLower(title);
    var a := Filter(l, IsSlugSource);
    FilterKeeps(l, IsSlugSource);
    forall i | 0 <= i < |a| ensures IsSlugSource(a[i]) && !('A' <= a[i] <= 'Z') {
      var j :| 0 <= j < |l| && l[j] == a[i];
    }
  }

  lemma SpacesToHyphensSlugChars(a: string)
    requires forall i :: 0 <= i < |a| ==> IsSlugSource(a[i]) && !('A' <= a[i] <= 'Z')
    ensures All(ReplaceRuns(a, IsSpace, '-'), IsSlugChar)
  {
    var b := ReplaceRuns(a, IsSpace, '-');
    ReplaceRunsKeeps(a, IsSpace, '-');
    forall i | 0 <= i < |b| ensures IsSlugChar(b[i]) {
      if b[i] != '-' {
        var j :| 0 <= j < |a| && a[j] == b[i];
      }
    }
  }

  lemma CollapseKeepsSlugChars(b: string)
    requires All(b, IsSlugChar)
    ensures All(ReplaceRuns(b, IsHyphen, '-'), IsSlugChar)
  {
    var c := ReplaceRuns(b, IsHyphen, '-');
    ReplaceRunsKeeps(b, IsHyphen, '-');
    forall i | 0 <= i < |c| ensures IsSlugChar(c[i]) {
      if c[i] != '-' {
        var j :| 0 <= j < |b| && b[j] == c[i];
      }
    }
  }

  lemma SlugCharsNoSpace(c: string)
    requires All(c, IsSlugChar)
    ensures Trim(c) == c
  {
    if c != [] {
      assert IsSlugChar(c[0]) && IsSlugChar(c[|c| - 1]);
    }
    TrimNoEdgeSpace(c);
  }

  /**
   * The slug is lower case, holds only `[a-z0-9_-]` (so no whitespace),
   * never has "--", and the final `trim()` leaves it as it was: edge
   * hyphens stay.
   */
  lemma SlugShape(title: string)
    ensures All(Slug(title), IsSlugChar)
    ensures NoDoubled(Slug(title), '-')
    ensures Slug(title) == ReplaceRuns(ReplaceRuns(Filter(ToLower(title), IsSlugSource), IsSpace, '-'), IsHyphen, '-')
  {
    var a := Filter(ToLower(title), IsSlugSource);
    var b := ReplaceRuns(a, IsSpace, '-');
    var c := ReplaceRuns(b, IsHyphen, '-');
    LowerFilterNoUpper(title);
    SpacesToHyphensSlugChars(a);
    CollapseKeepsSlugChars(b);
    ReplaceRunsNoDoubled(b, IsHyphen, '-');
    SlugCharsNoSpace(c);
  }

  /**
   * `${dateStr}-${titleSlug}.md`, with the date part computed elsewhere;
   * the slug can be read back from between the dash and the extension.
   */
  function FileName(datePart: string, slug: string): (r: string)
    ensures StartsWith(r, datePart + "-") && EndsWith(r, ".md")
    ensures |r| == |datePart| + |slug| + 4 && r[|datePart| + 1..|r| - 3] == slug
  {
    var head := datePart + "-";
    var tail := slug + ".md";
    assert (head + tail)[..|head|] == head;
    assert (head + tail)[|head + tail| - 3..] == tail[|tail| - 3..];
    assert (head + tail)[|head|..|head + tail| - 3] == tail[..|slug|];
    head + tail
  }

  /** `generateFileName(title, date)`. */
  function PostFileName(datePart: string, title: string): string {
    FileName(datePart, Slug(title))
  }
}
