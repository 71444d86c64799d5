/** Line classification and the pure content formatters of the chapter-markup compiler:
    the mark kinds, the handler table, `CanHandle` (prefix match with optional
    nesting by repeated indents) and the title, author and annotation-byline formatters. */
module MarkupFormat {
  import opened Text
  import Wrappers

  datatype MarkType =
    | None | Blank | Note
    | Header1 | Header2 | Header3 | Header4
    | Author | Paragraph | AnnotationHeader | Annotation | Break

  predicate IsHeader(mark: MarkType) {
    mark == Header1 || mark == Header2 || mark == Header3 || mark == Header4
  }

  predicate IsHeader3(mark: MarkType) {
    mark == Header1 || mark == Header2 || mark == Header3
  }

  predicate IsAnnotation(mark: MarkType) {
    mark == AnnotationHeader || mark == Annotation
  }

  /** One entry of the pending closing-tag stack. */
  datatype ClosingTag = ClosingTag(mark: MarkType, closingTag: string, level: nat)

  /** The `[canHandle, content, level]` triple returned by `CanHandle`. */
  datatype Handled = Handled(ok: bool, content: string, level: nat)

  const NotHandled := Handled(false, "", 0)

  /** A line handler: its kind, base mark, tag, and, for annotations, the indent token and inline tag. */
  datatype Handler = Handler(kind: MarkType, mark: string, tag: string, downlevelMark: string, downlevelTag: string)

  const Indent := "    "

  /** The handlers in the order the document tries them. */
  const Handlers: seq<Handler> := [
    Handler(Header1, "# ", "h1", "", ""),
    Handler(Header2, "## ", "h2", "", ""),
    Handler(Header3, "### ", "h3", "", ""),
    Handler(Header4, "#### ", "h4", "", ""),
    Handler(Author, "[author] ", "p", "", ""),
    Handler(AnnotationHeader, "!!! ", "div", Indent, "annotation"),
    Handler(Annotation, "::: ", "p", Indent, "span"),
    Handler(Note, "// ", "", "", ""),
    Handler(Break, "---", "hr", "", "")
  ]

  /** The handler used for every line no other handler accepts. */
  const ParagraphHandler := Handler(Paragraph, "", "div", "", "")

  /** The annotation-header handler built on the fly to insert a default header. */
  const DefaultHeaderHandler := Handler(AnnotationHeader, "!!! ", "div", Indent, "annotation")

  // ---------------------------------------------------------------------------
  // CanHandle

  /** Prefix match without an indent token. */
  function MatchPlain(line: string, mark: string): (r: Handled)
    ensures r.ok <==> StartsWith(line, mark)
    ensures r.ok ==> mark + r.content == line && r.level == 0
    ensures !r.ok ==> r == NotHandled
  {
    if StartsWith(line, mark) then Handled(true, line[|mark|..], 0) else NotHandled
  }

  /** The state of the indent loop at iteration i: try `indent^i + mark`, then `indent^(i+1)`.
      The loop runs while `i < length / indentLength`, that is while `indent^i` is shorter
      than the line. When that bound is reached after a successful indent test, the loop
      ends with `split` still true and the line is accepted at level 0. */
  function IndentScan(line: string, mark: string, indent: string, i: nat): (r: Handled)
    requires |indent| > 0
    decreases |line| + |indent| - |Rep(indent, i)|
  {
    if |Rep(indent, i)| >= |line| then
      (if i == 0 then NotHandled else Handled(true, Substr(line, |mark|), 0))
    else if StartsWith(line, Rep(indent, i) + mark) then
      Handled(true, Substr(line, |Rep(indent, i) + mark|), i)
    else if StartsWith(line, Rep(indent, i + 1)) then
      IndentScan(line, mark, indent, i + 1)
    else
      NotHandled
  }

  /** What `CanHandle(line, downlevelMark)` returns; an empty indent token means none was given. */
  function MatchMark(line: string, mark: string, indent: string): Handled {
    if |indent| > 0 then IndentScan(line, mark, indent, 0) else MatchPlain(line, mark)
  }

  method CanHandle(line: string, mark: string, downlevelMark: string) returns (r: Handled)
    ensures r == MatchMark(line, mark, downlevelMark)
  {
    if |downlevelMark| > 0 {
      var split := false;
      var m := mark;
      var length := |mark|;
      var level: nat := 0;
      var down := downlevelMark;
      var i: nat := 0;
      ghost var hit := false;
      // `i < length / indentLength` divides as floating point: it is `i * indentLength < length`,
      // with `width` standing for `i * indentLength`.
      var width := 0;
      while width < |line|
        invariant width == |Rep(downlevelMark, i)|
        invariant m == Rep(downlevelMark, i) + mark
        invariant down == Rep(downlevelMark, i + 1)
        invariant IndentScan(line, mark, downlevelMark, i) == IndentScan(line, mark, downlevelMark, 0)
        invariant !hit && (split <==> i > 0) && length == |mark| && level == 0
        decreases |line| + |mark| - |m|
      {
        split := StartsWith(line, m);
        if split {
          IndentScanHit(line, mark, downlevelMark, i);
          length := |m|;
          level := level + i;
          hit := true;
          break;
        } else {
          split := StartsWith(line, down);
          if split {
            IndentScanNext(line, mark, downlevelMark, i);
            m := downlevelMark + m;
            down := downlevelMark + down;
            i := i + 1;
            width := width + |downlevelMark|;
          } else {
            return NotHandled;
          }
        }
      }
      if !split {
        return NotHandled;
      }
      if !hit {
        IndentScanCovered(line, mark, downlevelMark, i);
      }
      r := Handled(true, Substr(line, length), level);
    } else {
      var split := StartsWith(line, mark);
      if !split {
        return NotHandled;
      }
      return Handled(true, Substr(line, |mark|), 0);
    }
  }

  /** The loop's accepting test: `indent^i + mark` starts the line. */
  lemma IndentScanHit(line: string, mark: string, t: string, i: nat)
    requires |t| > 0 && |Rep(t, i)| < |line| && StartsWith(line, Rep(t, i) + mark)
    ensures IndentScan(line, mark, t, i) == Handled(true, Substr(line, |Rep(t, i) + mark|), i)
  {
  }

  /** The loop's continuing test: `indent^(i+1)` starts the line but `indent^i + mark` does not. */
  lemma IndentScanNext(line: string, mark: string, t: string, i: nat)
    requires |t| > 0 && |Rep(t, i)| < |line|
    requires !StartsWith(line, Rep(t, i) + mark) && StartsWith(line, Rep(t, i + 1))
    ensures IndentScan(line, mark, t, i) == IndentScan(line, mark, t, i + 1)
    ensures Rep(t, i + 1) + mark == t + (Rep(t, i) + mark)
    ensures Rep(t, i + 2) == t + Rep(t, i + 1)
  {
    assert Rep(t, i + 1) == t + Rep(t, i);
  }

  /** The indents cover the line after at least one indent test succeeded: the line is
      accepted at level 0 with the bare mark's length. */
  lemma IndentScanCovered(line: string, mark: string, t: string, i: nat)
    requires |t| > 0 && i > 0 && |Rep(t, i)| >= |line|
    ensures IndentScan(line, mark, t, i) == Handled(true, Substr(line, |mark|), 0)
  {
  }

  lemma {:induction false} RepAdd(t: string, a: nat, b: nat)
    ensures Rep(t, a + b) == Rep(t, a) + Rep(t, b)
  {
    if a > 0 {
      RepAdd(t, a - 1, b);
      assert Rep(t, a + b) == t + Rep(t, (a - 1) + b);
      assert Rep(t, a) == t + Rep(t, a - 1);
      assert t + (Rep(t, a - 1) + Rep(t, b)) == (t + Rep(t, a - 1)) + Rep(t, b);
    } else {
      assert Rep(t, a) == [];
      assert [] + Rep(t, b) == Rep(t, b);
    }
  }

  /** `indent^k` starts with `indent^(j+1)` for j < k, so its character at `|indent^j|` is the
      indent's first character, and it does not start with `indent^j + mark`. */
  lemma RepBlocksMark(line: string, mark: string, t: string, j: nat, k: nat)
    requires j < k && |t| > 0 && |mark| > 0 && mark[0] != t[0]
    requires StartsWith(line, Rep(t, k))
    ensures |Rep(t, j)| < |line| && StartsWith(line, Rep(t, j + 1))
    ensures !StartsWith(line, Rep(t, j) + mark)
  {
    RepPrefixOf(t, j + 1, k);
    StartsWithShorter(line, Rep(t, k), Rep(t, j + 1));
    var n := |Rep(t, j)|;
    RepNextChar(t, j);
    CharOfPrefix(line, Rep(t, j + 1), n);
    MismatchAt(line, Rep(t, j) + mark, n);
  }

  /** `indent^a` is a prefix of `indent^b` for a <= b. */
  lemma RepPrefixOf(t: string, a: nat, b: nat)
    requires a <= b
    ensures |Rep(t, a)| <= |Rep(t, b)| && Rep(t, b)[..|Rep(t, a)|] == Rep(t, a)
  {
    RepAdd(t, a, b - a);
  }

  /** One more indent adds the indent's first character right after `indent^j`. */
  lemma RepNextChar(t: string, j: nat)
    requires |t| > 0
    ensures |Rep(t, j)| < |Rep(t, j + 1)| && Rep(t, j + 1)[|Rep(t, j)|] == t[0]
  {
    RepAdd(t, j, 1);
    assert Rep(t, 1) == t + Rep(t, 0);
  }

  lemma StartsWithShorter(line: string, q: string, p: string)
    requires StartsWith(line, q) && |p| <= |q| && q[..|p|] == p
    ensures StartsWith(line, p)
  {
    assert line[..|q|][..|p|] == line[..|p|];
  }

  lemma CharOfPrefix(line: string, p: string, n: nat)
    requires StartsWith(line, p) && n < |p|
    ensures n < |line| && line[n] == p[n]
  {
    assert line[..|p|][n] == line[n];
  }

  /** A line that differs from `p` at a position inside `p` does not start with `p`. */
  lemma MismatchAt(line: string, p: string, n: nat)
    requires n < |p| && n < |line| && line[n] != p[n]
    ensures !StartsWith(line, p)
  {
    if |p| <= |line| {
      assert line[..|p|][n] == line[n];
    }
  }

  /** A line that starts with `indent^i + mark` is not matched earlier than i, and is not cut short. */
  lemma {:induction false} ScanReachesLevel(line: string, mark: string, indent: string, j: nat, i: nat)
    requires |indent| > 0 && |mark| > 0 && mark[0] != indent[0]
    requires j <= i && StartsWith(line, Rep(indent, i) + mark)
    ensures IndentScan(line, mark, indent, j) == Handled(true, line[|Rep(indent, i)| + |mark|..], i)
    decreases i - j
  {
    if j < i {
      ScanPassesIndentBefore(line, mark, indent, mark, j, i);
      ScanReachesLevel(line, mark, indent, j + 1, i);
    } else {
      ScanHitAt(line, mark, indent, i);
    }
  }

  /** Below the level of the indents that start the line, the scan moves on to the next level. */
  lemma ScanPassesIndent(line: string, mark: string, t: string, j: nat, k: nat)
    requires j < k && |t| > 0 && |mark| > 0 && mark[0] != t[0]
    requires StartsWith(line, Rep(t, k))
    ensures IndentScan(line, mark, t, j) == IndentScan(line, mark, t, j + 1)
  {
    RepBlocksMark(line, mark, t, j, k);
    IndentScanNext(line, mark, t, j);
  }

  /** The same, for a line that starts with `indent^k` followed by anything. */
  lemma ScanPassesIndentBefore(line: string, mark: string, t: string, rest: string, j: nat, k: nat)
    requires j < k && |t| > 0 && |mark| > 0 && mark[0] != t[0]
    requires StartsWith(line, Rep(t, k) + rest)
    ensures IndentScan(line, mark, t, j) == IndentScan(line, mark, t, j + 1)
  {
    StartsWithFront(line, Rep(t, k), rest);
    ScanPassesIndent(line, mark, t, j, k);
  }

  lemma StartsWithFront(line: string, p: string, q: string)
    requires StartsWith(line, p + q)
    ensures StartsWith(line, p)
  {
    assert (p + q)[..|p|] == p;
  }

  /** The scan at the level whose indents and mark start the line accepts it there. */
  lemma ScanHitAt(line: string, mark: string, indent: string, i: nat)
    requires |indent| > 0 && |mark| > 0 && StartsWith(line, Rep(indent, i) + mark)
    ensures IndentScan(line, mark, indent, i) == Handled(true, line[|Rep(indent, i)| + |mark|..], i)
  {
    IndentScanHit(line, mark, indent, i);
  }

  /** With an indent token, a line made of i indents followed by the mark is accepted at level i,
      and the content is everything after those characters. */
  lemma IndentedMatchesAtLevel(line: string, mark: string, indent: string, i: nat)
    requires |indent| > 0 && |mark| > 0 && mark[0] != indent[0]
    requires StartsWith(line, Rep(indent, i) + mark)
    ensures MatchMark(line, mark, indent) == Handled(true, line[|Rep(indent, i)| + |mark|..], i)
  {
    ScanReachesLevel(line, mark, indent, 0, i);
  }

  /** A non-empty line made only of indent tokens. */
  ghost predicate IsIndentRun(line: string, indent: string) {
    exists k: nat :: k >= 1 && line == Rep(indent, k)
  }

  lemma {:induction false} ScanIndentRun(mark: string, indent: string, j: nat, k: nat)
    requires |indent| > 0 && |mark| > 0 && mark[0] != indent[0]
    requires 1 <= k && j <= k
    ensures IndentScan(Rep(indent, k), mark, indent, j) == Handled(true, Substr(Rep(indent, k), |mark|), 0)
    decreases k - j
  {
    var line := Rep(indent, k);
    if j < k {
      RepBlocksMark(line, mark, indent, j, k);
      ScanIndentRun(mark, indent, j + 1, k);
    }
  }

  /** The loop-bound quirk: a line made only of indent tokens (at least one) is accepted at
      level 0, with everything after the base mark's length as content. */
  lemma IndentOnlyLineMatches(mark: string, indent: string, k: nat)
    requires |indent| > 0 && |mark| > 0 && mark[0] != indent[0]
    requires k >= 1
    ensures MatchMark(Rep(indent, k), mark, indent) == Handled(true, Substr(Rep(indent, k), |mark|), 0)
  {
    ScanIndentRun(mark, indent, 0, k);
  }

  /** What an accepted indented scan guarantees, for iteration j onwards. */
  lemma {:induction false} ScanSound(line: string, mark: string, indent: string, j: nat)
    requires |indent| > 0 && StartsWith(line, Rep(indent, j))
    ensures var r := IndentScan(line, mark, indent, j);
      r.ok ==>
        (StartsWith(line, Rep(indent, r.level) + mark) && Rep(indent, r.level) + mark + r.content == line)
        || (r.level == 0 && IsIndentRun(line, indent) && r.content == Substr(line, |mark|))
    ensures !IndentScan(line, mark, indent, j).ok ==> IndentScan(line, mark, indent, j) == NotHandled
    decreases |line| + |indent| - |Rep(indent, j)|
  {
    if |Rep(indent, j)| >= |line| {
      if j > 0 {
        assert line == Rep(indent, j);
      }
    } else if StartsWith(line, Rep(indent, j) + mark) {
      var p := Rep(indent, j) + mark;
      assert line[..|p|] + line[|p|..] == line;
    } else if StartsWith(line, Rep(indent, j + 1)) {
      ScanSound(line, mark, indent, j + 1);
    }
  }

  /** `CanHandle` with an indent token accepts exactly the lines that start with some number of
      indents followed by the mark, plus the non-empty lines made only of indents; a rejected
      line gives `[false, "", 0]`. */
  lemma IndentedMatchIff(line: string, mark: string, indent: string)
    requires |indent| > 0 && |mark| > 0 && mark[0] != indent[0]
    ensures MatchMark(line, mark, indent).ok
        <==> (exists i: nat :: StartsWith(line, Rep(indent, i) + mark)) || IsIndentRun(line, indent)
    ensures !MatchMark(line, mark, indent).ok ==> MatchMark(line, mark, indent) == NotHandled
  {
    ScanSound(line, mark, indent, 0);
    if exists i: nat :: StartsWith(line, Rep(indent, i) + mark) {
      var i: nat :| StartsWith(line, Rep(indent, i) + mark);
      IndentedMatchesAtLevel(line, mark, indent, i);
    } else if IsIndentRun(line, indent) {
      var k: nat :| k >= 1 && line == Rep(indent, k);
      IndentOnlyLineMatches(mark, indent, k);
    }
  }

  // ---------------------------------------------------------------------------
  // Formatters

  /** `parseTitleContent`: up to three `|`-separated parts, otherwise the whole text as one part. */
  function TitleParts(content: string): seq<string> {
    var title := Split(content, '|');
    if |title| <= 3 then title else [content]
  }

  /** The header handler's `parseContent`. */
  function FormatTitle(content: string): string {
    var title := TitleParts(content);
    if |title| == 2 then
      "<span class='prefix'>" + title[0] + "</span><span class='separator'>·</span>" + title[1]
    else if |title| == 3 then
      "<span class='prefix'>" + title[0] + "</span><span class='separator'>·</span>" + title[1]
      + "<span class='separator'>&nbsp;</span><span class='subtitle'>" + title[2] + "</span>"
    else
      content
  }

  /** `prefix|title` is rendered as a prefix span, the `·` separator and the title. */
  lemma TitleTwoParts(prefix: string, title: string)
    requires '|' !in prefix && '|' !in title
    ensures FormatTitle(prefix + "|" + title)
         == "<span class='prefix'>" + prefix + "</span><span class='separator'>·</span>" + title
  {
    SplitFree(title, '|');
    SplitAt(prefix, title, '|');
    assert prefix + "|" + title == prefix + ['|'] + title;
  }

  /** `prefix|title|subtitle` adds a subtitle span after a non-breaking-space separator. */
  lemma TitleThreeParts(prefix: string, title: string, subtitle: string)
    requires '|' !in prefix && '|' !in title && '|' !in subtitle
    ensures FormatTitle(prefix + "|" + title + "|" + subtitle)
         == "<span class='prefix'>" + prefix + "</span><span class='separator'>·</span>" + title
            + "<span class='separator'>&nbsp;</span><span class='subtitle'>" + subtitle + "</span>"
  {
    SplitFree(subtitle, '|');
    SplitAt(title, subtitle, '|');
    assert title + "|" + subtitle == title + ['|'] + subtitle;
    SplitAt(prefix, title + "|" + subtitle, '|');
    assert prefix + "|" + title + "|" + subtitle == prefix + ['|'] + (title + "|" + subtitle);
  }

  /** Any other number of parts (one, or more than three) leaves the payload unchanged. */
  lemma TitlePassThrough(content: string)
    requires Count(content, '|') == 0 || Count(content, '|') > 2
    ensures FormatTitle(content) == content
  {
    SplitLength(content, '|');
    if Count(content, '|') == 0 {
      JoinSplit(content, '|');
    }
  }

  /** `parseAuthorContent`: up to four `,`-separated parts, otherwise the whole text as one part. */
  function AuthorParts(content: string): seq<string> {
    var attributes := Split(content, ',');
    if |attributes| <= 4 then attributes else [content]
  }

  /** The author handler's `parseContent`. */
  function FormatAuthor(content: string): string {
    var a := AuthorParts(content);
    if |a| == 1 then
      "<span class=\"name\">" + a[0] + "</span>"
    else if |a| == 2 then
      "<span class=\"name\">" + a[0] + "</span>&nbsp;<span class=\"type\">" + a[1] + "</span>"
    else if |a| == 3 then
      "<span class=\"dynasty\">[" + a[0] + "]</span>&nbsp;<span class=\"name\">" + a[1]
      + "</span>&nbsp;<span class=\"type\">" + a[2] + "</span>"
    else if |a| == 4 then
      "<span class=\"dynasty\">[" + a[0] + "]</span>&nbsp;<span class=\"position\">" + a[1]
      + "</span>&nbsp;<span class=\"name\">" + a[2] + "</span>&nbsp;<span class=\"type\">" + a[3] + "</span>"
    else
      content
  }

  /** `dynasty,position,name,type` becomes four labelled spans. */
  lemma AuthorFourParts(dynasty: string, position: string, name: string, kind: string)
    requires ',' !in dynasty && ',' !in position && ',' !in name && ',' !in kind
    ensures FormatAuthor(dynasty + "," + position + "," + name + "," + kind)
         == "<span class=\"dynasty\">[" + dynasty + "]</span>&nbsp;<span class=\"position\">" + position
            + "</span>&nbsp;<span class=\"name\">" + name + "</span>&nbsp;<span class=\"type\">" + kind + "</span>"
  {
    var parts := [dynasty, position, name, kind];
    JoinFour(dynasty, position, name, kind);
    SplitJoin(parts, ',');
    FourPartsFormat(dynasty + "," + position + "," + name + "," + kind, parts);
  }

  lemma JoinFour(a: string, b: string, c: string, d: string)
    ensures Join([a, b, c, d], ',') == a + "," + b + "," + c + "," + d
  {
    var parts := [a, b, c, d];
    assert parts[1..] == [b, c, d];
    assert parts[1..][1..] == [c, d];
    assert parts[1..][1..][1..] == [d];
    assert Join([c, d], ',') == c + [','] + d;
    assert Join([b, c, d], ',') == b + [','] + (c + [','] + d);
  }

  lemma FourPartsFormat(content: string, parts: seq<string>)
    requires |parts| == 4 && Split(content, ',') == parts
    ensures FormatAuthor(content)
         == "<span class=\"dynasty\">[" + parts[0] + "]</span>&nbsp;<span class=\"position\">" + parts[1]
            + "</span>&nbsp;<span class=\"name\">" + parts[2] + "</span>&nbsp;<span class=\"type\">" + parts[3] + "</span>"
  {
  }

  /** More than four comma parts count as a single part: the whole byline becomes the name span. */
  lemma AuthorManyParts(content: string)
    requires Count(content, ',') > 3
    ensures FormatAuthor(content) == "<span class=\"name\">" + content + "</span>"
  {
    SplitLength(content, ',');
  }

  /** The annotation-header handler's `parseContent`, without the style lookup: the byline
      markup and the name that is looked up in the style map (none for three or four parts). */
  function AnnotationByline(content: string, level: nat): (string, Wrappers.Option<string>) {
    var a := AuthorParts(content);
    if |a| == 1 then
      (if level == 0 then
         (if |a[0]| > 0 then "  <p><span class=\"type\">" + a[0] + "</span></p>\n" else "")
       else
         (if |a[0]| > 0 then "<span class=\"type\">" + a[0] + "</span>" else ""),
       Wrappers.Some(a[0]))
    else if |a| == 2 then
      (if level == 0 then
         "  <p><span class=\"annotator\">" + a[0] + "</span>&nbsp;<span class=\"type\">" + a[1] + "</span></p>\n"
       else
         "<span class=\"annotator\">" + a[0] + "</span>&nbsp;<span class=\"type\">" + a[1] + "</span>",
       Wrappers.Some(a[0]))
    else
      ("", Wrappers.None)
  }

  /** Which name is given to the style map: the first comma part for one or two parts, none for
      three or four, and the whole payload for five or more (which count as a single part). */
  lemma BylineAnnotator(content: string, level: nat)
    ensures AnnotationByline(content, level).1
         == (if Count(content, ',') <= 1 then Wrappers.Some(Split(content, ',')[0])
             else if Count(content, ',') <= 3 then Wrappers.None
             else Wrappers.Some(content))
  {
    SplitLength(content, ',');
  }

  /** The synthesized default header has an empty payload: no byline markup, and the empty
      name is looked up in the style map. */
  lemma DefaultBylineIsEmpty(level: nat)
    ensures AnnotationByline("", level) == ("", Wrappers.Some(""))
  {
    assert Split("", ',') == [""];
  }
}
