/**
 * `save_comment_files`: the raw `.eml` copy, the Markdown page with its front
 * matter, and the per-slug HTML comment log, written in that order into a file
 * store; the first write that fails ends the save.
 */
module Artifacts {
  import opened Wrappers
  import opened Strings
  import opened Sanitize
  import opened Subject
  import opened Metadata

  /** `base_paths`: the directories of the HTML logs, the Markdown pages and the raw messages. */
  datatype Roots = Roots(base: string, md: string, eml: string)

  /**
   * `os.path.join(dir, name)` on POSIX: an absolute `name` replaces `dir`; otherwise
   * `name` is appended, after a `/` unless `dir` is empty or already ends in one.
   */
  function PathJoin(dir: string, name: string): (r: string)
    ensures name != [] && name[0] == '/' ==> r == name
    ensures (name == [] || name[0] != '/') ==> |dir| <= |r| && r[..|dir|] == dir
    ensures |name| <= |r| && r[|r| - |name|..] == name
  {
    if name != [] && name[0] == '/' then name
    else if dir == [] || dir[|dir| - 1] == '/' then dir + name
    else dir + "/" + name
  }

  /** `<eml>/<sanitized sender address>-<timestamp>-<slug>.eml`. */
  function EmlPath(roots: Roots, meta: Metadata, slug: string): string {
    PathJoin(roots.eml, SanitizeFilename(meta.senderEmail) + "-" + meta.stamp.compact + "-" + slug + ".eml")
  }

  /** `<md>/<slug>/<date_iso>_<slug>.md`, the slug directory joined first. */
  function MdPath(roots: Roots, meta: Metadata, slug: string): string {
    PathJoin(PathJoin(roots.md, slug), meta.stamp.iso + "_" + slug + ".md")
  }

  /** `<base>/<slug>.html`. */
  function HtmlPath(roots: Roots, slug: string): string {
    PathJoin(roots.base, slug + ".html")
  }

  /** The three artifacts of one save never share a path, whatever the slugs: their extensions differ. */
  lemma PathsDistinct(roots: Roots, meta: Metadata, slug: string, slug': string)
    ensures EmlPath(roots, meta, slug) != MdPath(roots, meta, slug)
    ensures EmlPath(roots, meta, slug) != HtmlPath(roots, slug')
    ensures MdPath(roots, meta, slug) != HtmlPath(roots, slug')
  {
    EmlPathEnds(roots, meta, slug);
    MdPathEnds(roots, meta, slug);
    HtmlPathEnds(roots, slug');
  }

  lemma EmlPathEnds(roots: Roots, meta: Metadata, slug: string)
    ensures var e := EmlPath(roots, meta, slug); |e| >= 4 && e[|e| - 1] == 'l' && e[|e| - 4] == '.'
  {
    var stem := SanitizeFilename(meta.senderEmail) + "-" + meta.stamp.compact + "-" + slug;
    var ext := ".eml";
    assert ext[3] == 'l' && ext[0] == '.';
    ExtensionEnds(stem, ext);
    JoinEnds(roots.eml, stem + ext);
  }

  lemma MdPathEnds(roots: Roots, meta: Metadata, slug: string)
    ensures var m := MdPath(roots, meta, slug); |m| >= 4 && m[|m| - 1] == 'd'
  {
    var stem := meta.stamp.iso + "_" + slug;
    var ext := ".md";
    assert ext[2] == 'd';
    ExtensionEnds(stem, ext);
    JoinEnds(PathJoin(roots.md, slug), stem + ext);
  }

  lemma HtmlPathEnds(roots: Roots, slug: string)
    ensures var h := HtmlPath(roots, slug); |h| >= 4 && h[|h| - 1] == 'l' && h[|h| - 4] == 'h'
  {
    var ext := ".html";
    assert ext[4] == 'l' && ext[1] == 'h';
    ExtensionEnds(slug, ext);
    JoinEnds(roots.base, slug + ext);
  }

  /** A name ends with the characters of its extension. */
  lemma ExtensionEnds(stem: string, ext: string)
    ensures forall k :: 0 <= k < |ext| ==> (stem + ext)[|stem| + k] == ext[k]
  {
  }

  /** A joined path ends with the last characters of the joined name. */
  lemma JoinEnds(dir: string, name: string)
    requires 4 <= |name|
    ensures var path := PathJoin(dir, name);
      |path| >= 4 && path[|path| - 1] == name[|name| - 1] && path[|path| - 4] == name[|name| - 4]
  {
    var path := PathJoin(dir, name);
    assert path[|path| - 1] == path[|path| - |name|..][|name| - 1];
    assert path[|path| - 4] == path[|path| - |name|..][|name| - 4];
  }

  /**
   * For the empty slug the slug directory is `<md>/` itself, so the page is
   * `<md>/<date_iso>_.md` with a single `/`.
   */
  lemma MdPathEmptySlug(roots: Roots, meta: Metadata)
    requires roots.md != [] && roots.md[|roots.md| - 1] != '/'
    requires meta.stamp.iso == [] || meta.stamp.iso[0] != '/'
    ensures MdPath(roots, meta, "") == roots.md + "/" + (meta.stamp.iso + "_.md")
  {
    var dir := PathJoin(roots.md, "");
    assert dir == roots.md + "/";
    var name := meta.stamp.iso + "_" + "" + ".md";
    assert name == meta.stamp.iso + "_.md";
    assert name[0] != '/';
  }

  /** `line.strip() for line in lines if line.strip()`: the stripped lines that are not blank. */
  function Kept(lines: seq<string>): (r: seq<string>)
    ensures |r| <= |lines|
    ensures forall k :: 0 <= k < |r| ==> r[k] != "" && !IsSpace(r[k][0]) && !IsSpace(r[k][|r[k]| - 1])
  {
    if lines == [] then []
    else
      var s := Strip(lines[0]);
      var rest := Kept(lines[1..]);
      if s == "" then rest
      else
        [s] + rest
  }

  /** No line survives exactly when every line is blank. */
  lemma {:induction false} KeptEmpty(lines: seq<string>)
    ensures Kept(lines) == [] <==> forall k :: 0 <= k < |lines| ==> Strip(lines[k]) == ""
  {
    if lines != [] {
      KeptEmpty(lines[1..]);
      assert forall k :: 1 <= k < |lines| ==> lines[k] == lines[1..][k - 1];
    }
  }

  /** Filtering again changes nothing. */
  lemma {:induction false} KeptIdempotent(lines: seq<string>)
    ensures Kept(Kept(lines)) == Kept(lines)
  {
    if lines != [] {
      KeptIdempotent(lines[1..]);
      var s := Strip(lines[0]);
      if s != "" {
        TrimNoop(s, IsSpace);
        var r := Kept(lines);
        assert r[0] == s && r[1..] == Kept(lines[1..]);
      }
    }
  }

  /** Filtering a concatenation filters each part, so lines are kept independently and in order. */
  lemma {:induction false} KeptConcat(a: seq<string>, b: seq<string>)
    ensures Kept(a + b) == Kept(a) + Kept(b)
  {
    if a == [] {
      assert a + b == b;
    } else {
      assert (a + b)[0] == a[0] && (a + b)[1..] == a[1..] + b;
      KeptConcat(a[1..], b);
    }
  }

  /** One line is kept, stripped, exactly when it is not blank. */
  lemma KeptSingle(line: string)
    ensures Kept([line]) == (if Strip(line) == "" then [] else [Strip(line)])
  {
    assert [line][1..] == [];
  }

  /** The Markdown body: the kept lines separated by blank lines. */
  function MdBody(lines: seq<string>): (r: string)
    ensures r == "" <==> Kept(lines) == []
    ensures Kept(lines) != [] ==> Kept(lines)[0] <= r
    ensures Kept(lines) != [] ==> r + "\n\n" == TerminatedBy(Kept(lines), "\n\n")
  {
    JoinStartsWith(Kept(lines), "\n\n");
    Join(Kept(lines), "\n\n")
  }

  /** One front-matter line `key: value` followed by the rest of the page. */
  function Field(key: string, value: string, rest: string): string {
    key + (": " + (value + ("\n" + rest)))
  }

  /** The `.md` page: front matter with title, date, `published: true` and slug, a blank line, the body. */
  function MdContent(title: string, iso: string, slug: string, lines: seq<string>): string {
    "---\n" + Field("title", title, Field("date", iso, Field("published", "true", Field("slug", slug, "---\n\n" + MdBody(lines)))))
  }

  /** The parts of a front-matter page. */
  datatype FrontMatter = FrontMatter(title: string, date: string, published: string, slug: string, body: string)

  /** What follows `lit` when `s` starts with it. */
  function After(s: string, lit: string): (r: Option<string>)
    ensures r.Some? ==> s == lit + r.value
    ensures r.None? ==> forall t :: s != lit + t
  {
    if |lit| <= |s| && s[..|lit|] == lit then
      assert s == s[..|lit|] + s[|lit|..];
      Some(s[|lit|..])
    else
      assert forall t :: |lit| <= |lit + t| && (lit + t)[..|lit|] == lit;
      None
  }

  /** The text up to the first `"\n"` and the text after it. */
  function LineOf(s: string): (r: Option<(string, string)>)
    ensures r.Some? ==> '\n' !in r.value.0 && s == r.value.0 + "\n" + r.value.1
    ensures r.None? ==> '\n' !in s
  {
    var i := FirstWhere(s, IsNewline);
    if i < |s| then
      assert s == s[..i] + "\n" + s[i + 1..];
      Some((s[..i], s[i + 1..]))
    else None
  }

  /** Reads `key: value\n` off the front of `s`, giving the value and the rest. */
  function ParseField(s: string, key: string): Option<(string, string)> {
    match After(s, key)
    case None => None
    case Some(t) =>
      match After(t, ": ")
      case None => None
      case Some(u) => LineOf(u)
  }

  /** Reads a page written by `MdContent` back into its parts. */
  function ParseMd(c: string): Option<FrontMatter> {
    match After(c, "---\n")
    case None => None
    case Some(c0) =>
      match ParseField(c0, "title")
      case None => None
      case Some((title, c1)) =>
        match ParseField(c1, "date")
        case None => None
        case Some((date, c2)) =>
          match ParseTail(c2)
          case None => None
          case Some((published, slug, body)) => Some(FrontMatter(title, date, published, slug, body))
  }

  /** The `published` and `slug` lines, the closing `---` and blank line, and the body after them. */
  function ParseTail(c2: string): Option<(string, string, string)> {
    match ParseField(c2, "published")
    case None => None
    case Some((published, c3)) =>
      match ParseField(c3, "slug")
      case None => None
      case Some((slug, c4)) =>
        match After(c4, "---\n\n")
        case None => None
        case Some(body) => Some((published, slug, body))
  }

  lemma AfterPrefix(lit: string, rest: string)
    ensures After(lit + rest, lit) == Some(rest)
  {
    assert (lit + rest)[..|lit|] == lit;
    assert (lit + rest)[|lit|..] == rest;
  }

  lemma LineOfLine(line: string, rest: string)
    requires '\n' !in line
    ensures LineOf(line + ("\n" + rest)) == Some((line, rest))
  {
    var s := line + ("\n" + rest);
    assert s[|line|] == '\n';
    assert forall k :: 0 <= k < |line| ==> s[k] == line[k];
    assert s[..|line|] == line;
    assert s[|line| + 1..] == rest;
  }

  lemma FieldRoundTrip(key: string, value: string, rest: string)
    requires '\n' !in value
    ensures ParseField(Field(key, value, rest), key) == Some((value, rest))
  {
    AfterPrefix(key, ": " + (value + ("\n" + rest)));
    AfterPrefix(": ", value + ("\n" + rest));
    LineOfLine(value, rest);
  }

  lemma TailRoundTrip(slug: string, body: string)
    requires '\n' !in slug
    ensures ParseTail(Field("published", "true", Field("slug", slug, "---\n\n" + body))) == Some(("true", slug, body))
  {
    var c4 := "---\n\n" + body;
    var c3 := Field("slug", slug, c4);
    assert '\n' !in "true" by {
      var t := "true";
      assert t[0] != '\n' && t[1] != '\n' && t[2] != '\n' && t[3] != '\n';
    }
    FieldRoundTrip("published", "true", c3);
    FieldRoundTrip("slug", slug, c4);
    AfterPrefix("---\n\n", body);
  }

  /** A page written for a newline-free title, date and slug reads back as exactly those parts and its body. */
  lemma MdRoundTrip(title: string, iso: string, slug: string, lines: seq<string>)
    requires '\n' !in title && '\n' !in iso && '\n' !in slug
    ensures ParseMd(MdContent(title, iso, slug, lines)) == Some(FrontMatter(title, iso, "true", slug, MdBody(lines)))
  {
    var body := MdBody(lines);
    var c2 := Field("published", "true", Field("slug", slug, "---\n\n" + body));
    var c1 := Field("date", iso, c2);
    var c0 := Field("title", title, c1);
    AfterPrefix("---\n", c0);
    FieldRoundTrip("title", title, c1);
    FieldRoundTrip("date", iso, c2);
    TailRoundTrip(slug, body);
  }

  /** The text `f.write` puts in a new HTML log before its first comment. */
  const HtmlSeed := "\n<h3>Comments</h3>\n"

  /** `f"<p>{line}</p>"` for each kept line. */
  function Paragraphs(kept: seq<string>): (r: seq<string>)
    ensures |r| == |kept|
    ensures forall k :: 0 <= k < |r| ==> r[k] == "<p>" + kept[k] + "</p>"
  {
    seq(|kept|, k requires 0 <= k < |kept| => "<p>" + kept[k] + "</p>")
  }

  /** The text one save appends to the HTML log: heading, date and sender, paragraphs, a blank line. */
  function HtmlEntry(title: string, dateComment: string, local: string, lines: seq<string>): string {
    "<h4>" + title + "</h4>" + "\n" + (dateComment + " <i>" + local + "</i>" + "\n" + (Join(Paragraphs(Kept(lines)), "\n") + "\n" + "\n"))
  }

  /**
   * The lines of one HTML entry: the heading, the date with the sender, one
   * paragraph per kept line (a single empty line when none is kept), a blank line.
   */
  function HtmlLines(title: string, dateComment: string, local: string, lines: seq<string>): seq<string> {
    var kept := Kept(lines);
    ["<h4>" + title + "</h4>", dateComment + " <i>" + local + "</i>"] +
    (if kept == [] then [""] else Paragraphs(kept)) + [""]
  }

  /** The entry is its lines, each ended by a newline. */
  lemma HtmlEntryTerminated(title: string, dateComment: string, local: string, lines: seq<string>)
    ensures HtmlEntry(title, dateComment, local, lines) == Terminated(HtmlLines(title, dateComment, local, lines))
  {
    var kept := Kept(lines);
    var ps := if kept == [] then [""] else Paragraphs(kept);
    var all := HtmlLines(title, dateComment, local, lines);
    assert Join(Paragraphs(kept), "\n") + "\n" == Terminated(ps) by {
      if kept == [] {
        assert Paragraphs(kept) == [];
        assert TerminatedBy(ps, "\n") == "" + "\n" + TerminatedBy([], "\n");
      }
    }
    TerminatedEntry("<h4>" + title + "</h4>", dateComment + " <i>" + local + "</i>", ps, Join(Paragraphs(kept), "\n"));
  }

  /** Two lines, then lines whose terminated text is `body` plus a newline, then a blank line. */
  lemma TerminatedEntry(heading: string, byline: string, ps: seq<string>, body: string)
    requires body + "\n" == Terminated(ps)
    ensures heading + "\n" + (byline + "\n" + (body + "\n" + "\n")) == Terminated([heading, byline] + ps + [""])
  {
    var all := [heading, byline] + ps + [""];
    assert all[1..][1..] == ps + [""];
    TerminatedSnoc(ps, "");
    assert TerminatedBy(all, "\n") == heading + "\n" + TerminatedBy(all[1..], "\n");
    assert TerminatedBy(all[1..], "\n") == byline + "\n" + TerminatedBy(all[1..][1..], "\n");
    assert "" + "\n" == "\n";
  }

  /** Each line of a newline-free input yields one newline-free kept line. */
  lemma {:induction false} KeptNoLineBreak(lines: seq<string>)
    requires forall k :: 0 <= k < |lines| ==> NoLineBreak(lines[k])
    ensures forall k :: 0 <= k < |Kept(lines)| ==> NoLineBreak(Kept(lines)[k])
  {
    if lines != [] {
      KeptNoLineBreak(lines[1..]);
      var rest := lines[1..];
      if Strip(lines[0]) != "" {
        StripNoLineBreak(lines[0]);
        assert Kept(lines) == [Strip(lines[0])] + Kept(rest);
      }
    }
  }

  /** The markup around the entry's text holds no line boundary. */
  lemma MarkupNoLineBreak()
    ensures NoLineBreak("<h4>") && NoLineBreak("</h4>") && NoLineBreak(" <i>") && NoLineBreak("</i>")
    ensures NoLineBreak("<p>") && NoLineBreak("</p>")
  {
  }

  /** A text wrapped in two boundary-free texts is boundary-free. */
  lemma WrapNoLineBreak(a: string, x: string, b: string)
    requires NoLineBreak(a) && NoLineBreak(x) && NoLineBreak(b)
    ensures NoLineBreak(a + x + b)
  {
    NoLineBreakConcat(a, x);
    NoLineBreakConcat(a + x, b);
  }

  /** The paragraph lines of boundary-free kept lines are boundary-free. */
  lemma ParagraphsNoLineBreak(kept: seq<string>)
    requires forall k :: 0 <= k < |kept| ==> NoLineBreak(kept[k])
    ensures forall k :: 0 <= k < |Paragraphs(kept)| ==> NoLineBreak(Paragraphs(kept)[k])
  {
    MarkupNoLineBreak();
    forall k | 0 <= k < |kept| ensures NoLineBreak(Paragraphs(kept)[k]) {
      WrapNoLineBreak("<p>", kept[k], "</p>");
    }
  }

  /** No line of the entry holds a line boundary when its inputs hold none. */
  lemma HtmlLinesNoLineBreak(title: string, dateComment: string, local: string, lines: seq<string>)
    requires NoLineBreak(title) && NoLineBreak(dateComment) && NoLineBreak(local)
    requires forall k :: 0 <= k < |lines| ==> NoLineBreak(lines[k])
    ensures var all := HtmlLines(title, dateComment, local, lines);
      forall k :: 0 <= k < |all| ==> NoLineBreak(all[k])
  {
    var kept := Kept(lines);
    var ps := if kept == [] then [""] else Paragraphs(kept);
    var all := HtmlLines(title, dateComment, local, lines);
    KeptNoLineBreak(lines);
    ParagraphsNoLineBreak(kept);
    MarkupNoLineBreak();
    WrapNoLineBreak("<h4>", title, "</h4>");
    NoLineBreakConcat(dateComment, " <i>");
    WrapNoLineBreak(dateComment + " <i>", local, "</i>");
    assert all == ["<h4>" + title + "</h4>", dateComment + " <i>" + local + "</i>"] + ps + [""];
    forall k | 0 <= k < |all| ensures NoLineBreak(all[k]) {
      if 2 <= k < 2 + |ps| {
        assert all[k] == ps[k - 2];
      }
    }
  }

  /**
   * Read back with `splitlines`, the entry of a comment whose title, date, sender
   * and lines hold no line boundary gives exactly its lines.
   */
  lemma HtmlEntrySplit(title: string, dateComment: string, local: string, lines: seq<string>)
    requires NoLineBreak(title) && NoLineBreak(dateComment) && NoLineBreak(local)
    requires forall k :: 0 <= k < |lines| ==> NoLineBreak(lines[k])
    ensures SplitLines(HtmlEntry(title, dateComment, local, lines)) == HtmlLines(title, dateComment, local, lines)
  {
    HtmlLinesNoLineBreak(title, dateComment, local, lines);
    HtmlEntryTerminated(title, dateComment, local, lines);
    SplitLinesTerminated(HtmlLines(title, dateComment, local, lines));
  }

  /** The contents `open(path, 'a')` starts from: the file, or nothing when it does not exist. */
  function Contents(files: map<string, string>, path: string): string {
    if path in files then files[path] else ""
  }

  /**
   * The files on disk, by path. A write to a path in `unwritable` raises
   * (a missing directory, a permission, a full disk) and changes nothing.
   */
  class FileStore {
    var files: map<string, string>
    const unwritable: set<string>

    constructor (files: map<string, string>, unwritable: set<string>)
      ensures this.files == files && this.unwritable == unwritable
    {
      this.files := files;
      this.unwritable := unwritable;
    }

    /** `os.path.exists(path)`. */
    predicate Exists(path: string)
      reads this
    {
      path in files
    }

    /** `open(path, 'w').write(content)`: replaces the file, or raises. */
    method Write(path: string, content: string) returns (ok: bool)
      modifies this
      ensures ok <==> path !in unwritable
      ensures files == if ok then old(files)[path := content] else old(files)
    {
      ok := path !in unwritable;
      if ok {
        files := files[path := content];
      }
    }

    /** `open(path, 'a').write(content)`: extends the file, creating it when absent, or raises. */
    method Append(path: string, content: string) returns (ok: bool)
      modifies this
      ensures ok <==> path !in unwritable
      ensures files == if ok then old(files)[path := Contents(old(files), path) + content] else old(files)
    {
      ok := path !in unwritable;
      if ok {
        files := files[path := Contents(files, path) + content];
      }
    }
  }

  /** The HTML log at `path` after one comment: seeded first when absent, then extended by `entry`. */
  function Logged(files: map<string, string>, path: string, entry: string): (r: map<string, string>)
    ensures path in r && r[path] == (if path in files then files[path] else HtmlSeed) + entry
    ensures forall p :: p != path ==> (p in r <==> p in files)
    ensures forall p :: p != path && p in files ==> r[p] == files[p]
  {
    var f := if path in files then files else files[path := HtmlSeed];
    f[path := f[path] + entry]
  }

  /** The three writes of one save: where each artifact goes and what it holds. */
  datatype Plan = Plan(emlPath: string, eml: string, mdPath: string, md: string, htmlPath: string, entry: string)

  /** The three paths of a plan differ, so no write of a save overwrites another. */
  predicate Separate(plan: Plan) {
    plan.emlPath != plan.mdPath && plan.emlPath != plan.htmlPath && plan.mdPath != plan.htmlPath
  }

  /** What `save_comment_files` writes for a message with these metadata, lines and slug. */
  function PlanFor(raw: string, meta: Metadata, lines: seq<string>, roots: Roots, slug: string): (plan: Plan)
    ensures Separate(plan)
    ensures plan.eml == raw
    ensures plan.htmlPath == HtmlPath(roots, slug)
  {
    var title := Title(meta.subject);
    PathsDistinct(roots, meta, slug, slug);
    Plan(EmlPath(roots, meta, slug), raw,
         MdPath(roots, meta, slug), MdContent(title, meta.stamp.iso, slug, lines),
         HtmlPath(roots, slug), HtmlEntry(title, meta.stamp.comment, meta.senderLocal, lines))
  }

  /** The page a save plans reads back as the derived title, the date, the slug and the kept lines. */
  lemma PlanMdReadsBack(raw: string, meta: Metadata, lines: seq<string>, roots: Roots, slug: string)
    requires '\n' !in Title(meta.subject) && '\n' !in meta.stamp.iso && '\n' !in slug
    ensures ParseMd(PlanFor(raw, meta, lines, roots, slug).md) ==
            Some(FrontMatter(Title(meta.subject), meta.stamp.iso, "true", slug, MdBody(lines)))
  {
    MdRoundTrip(Title(meta.subject), meta.stamp.iso, slug, lines);
  }

  /**
   * The file store after carrying out `plan` when every write to a `bad` path
   * raises: the `.eml`, the `.md` and the HTML log in turn, stopping at the first failure.
   */
  function Saved(files: map<string, string>, bad: set<string>, plan: Plan): map<string, string> {
    if plan.emlPath in bad then files
    else if plan.mdPath in bad then files[plan.emlPath := plan.eml]
    else
      var written := files[plan.emlPath := plan.eml][plan.mdPath := plan.md];
      if plan.htmlPath in bad then written
      else Logged(written, plan.htmlPath, plan.entry)
  }

  /** `save_comment_files(raw_email_data, metadata, lines, base_paths, slug)`. */
  method SaveCommentFiles(fs: FileStore, raw: string, meta: Metadata, lines: seq<string>, roots: Roots, slug: string)
    modifies fs
    ensures fs.files == Saved(old(fs.files), fs.unwritable, PlanFor(raw, meta, lines, roots, slug))
  {
    var ok := fs.Write(EmlPath(roots, meta, slug), raw);
    if !ok {
      return;
    }
    var title := Title(meta.subject);
    ok := fs.Write(MdPath(roots, meta, slug), MdContent(title, meta.stamp.iso, slug, lines));
    if !ok {
      return;
    }
    var html := HtmlPath(roots, slug);
    if !fs.Exists(html) {
      ok := fs.Write(html, HtmlSeed);
      if !ok {
        return;
      }
    }
    ok := fs.Append(html, HtmlEntry(title, meta.stamp.comment, meta.senderLocal, lines));
  }

  /** A failed `.eml` write leaves every file as it was. */
  lemma SavedNothingWithoutEml(files: map<string, string>, bad: set<string>, plan: Plan)
    requires plan.emlPath in bad
    ensures Saved(files, bad, plan) == files
  {
  }

  /** The artifacts a save leaves behind: each one written holds its planned contents. */
  lemma SavedContents(files: map<string, string>, bad: set<string>, plan: Plan)
    requires Separate(plan)
    ensures var after := Saved(files, bad, plan);
      (plan.emlPath !in bad ==> plan.emlPath in after && after[plan.emlPath] == plan.eml) &&
      (plan.emlPath !in bad && plan.mdPath !in bad ==> plan.mdPath in after && after[plan.mdPath] == plan.md) &&
      (plan.mdPath in bad ==> (plan.mdPath in after <==> plan.mdPath in files)) &&
      (plan.mdPath in bad && plan.mdPath in files ==> after[plan.mdPath] == files[plan.mdPath]) &&
      (plan.emlPath !in bad && plan.mdPath in bad ==> after == files[plan.emlPath := plan.eml])
  {
  }

  /**
   * With all three paths writable, the HTML log is its old contents, or the seed
   * when it did not exist, followed by this comment's entry; when one write fails
   * the log is untouched.
   */
  lemma SavedHtml(files: map<string, string>, bad: set<string>, plan: Plan)
    requires Separate(plan)
    ensures var after := Saved(files, bad, plan);
      var html := plan.htmlPath;
      (plan.emlPath !in bad && plan.mdPath !in bad && html !in bad ==>
         html in after && after[html] == (if html in files then files[html] else HtmlSeed) + plan.entry) &&
      (plan.emlPath in bad || plan.mdPath in bad || html in bad ==>
         (html in after <==> html in files) && (html in files ==> after[html] == files[html]))
  {
  }

  /** An existing HTML log is only ever extended: its old contents stay a prefix. */
  lemma SavedHtmlAppendOnly(files: map<string, string>, bad: set<string>, plan: Plan)
    requires Separate(plan)
    requires plan.htmlPath in files
    ensures var after := Saved(files, bad, plan);
      plan.htmlPath in after && files[plan.htmlPath] <= after[plan.htmlPath]
  {
    SavedHtml(files, bad, plan);
  }

  /** A save touches no path other than its three artifacts and removes no file. */
  lemma SavedFrame(files: map<string, string>, bad: set<string>, plan: Plan)
    ensures var after := Saved(files, bad, plan);
      files.Keys <= after.Keys <= files.Keys + {plan.emlPath, plan.mdPath, plan.htmlPath} &&
      forall p :: p in files && p != plan.emlPath && p != plan.mdPath && p != plan.htmlPath ==> after[p] == files[p]
  {
  }

  /**
   * Two comments saved under one slug, with every path writable, into a store
   * without that slug's log: the log is seeded once and holds both entries in order.
   */
  lemma TwoComments(files: map<string, string>, first: Plan, second: Plan)
    requires Separate(first) && Separate(second)
    requires first.htmlPath == second.htmlPath && first.htmlPath !in files
    ensures var html := first.htmlPath;
      var twice := Saved(Saved(files, {}, first), {}, second);
      html in twice && twice[html] == HtmlSeed + first.entry + second.entry
  {
    var once := Saved(files, {}, first);
    SavedHtml(files, {}, first);
    SavedHtml(once, {}, second);
  }
}
