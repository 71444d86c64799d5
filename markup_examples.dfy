/** Worked documents: the compiler's behaviour on small chapters, derived from the line rules. */
module MarkupExamples {
  import opened Text
  import opened MarkupFormat
  import opened MarkupSpec
  import opened MarkupLaws

  lemma ParseLinesSnoc(st: DocState, palette: Palette, lines: seq<string>, line: string)
    ensures ParseLines(st, palette, lines + [line]) == LineStep(ParseLines(st, palette, lines), palette, line)
  {
    assert (lines + [line])[..|lines|] == lines;
  }

  /** Three lines joined by newlines split back into those lines. */
  lemma SplitThree(l1: string, l2: string, l3: string)
    requires '\n' !in l1 && '\n' !in l2 && '\n' !in l3
    ensures Split(l1 + "\n" + l2 + "\n" + l3, '\n') == [l1, l2, l3]
  {
    SplitFree(l3, '\n');
    SplitAt(l2, l3, '\n');
    SplitAt(l1, l2 + "\n" + l3, '\n');
    assert l1 + "\n" + l2 + "\n" + l3 == l1 + "\n" + (l2 + "\n" + l3);
  }

  lemma ParseThree(palette: Palette, l1: string, l2: string, l3: string)
    ensures ParseLines(Initial, palette, [l1, l2, l3])
         == LineStep(LineStep(LineStep(Initial, palette, l1), palette, l2), palette, l3)
  {
    ParseLinesSnoc(Initial, palette, [], l1);
    ParseLinesSnoc(Initial, palette, [l1], l2);
    ParseLinesSnoc(Initial, palette, [l1, l2], l3);
    assert [l1] == [] + [l1] && [l1, l2] == [l1] + [l2] && [l1, l2, l3] == [l1, l2] + [l3];
  }

  function Byline(dynasty: string, position: string, name: string, kind: string): string {
    dynasty + "," + position + "," + name + "," + kind
  }

  function BylineSpans(dynasty: string, position: string, name: string, kind: string): string {
    "<span class=\"dynasty\">[" + dynasty + "]</span>&nbsp;<span class=\"position\">" + position
    + "</span>&nbsp;<span class=\"name\">" + name + "</span>&nbsp;<span class=\"type\">" + kind + "</span>"
  }

  /** The title handler's mark and tags, and a title without `|` passed through unchanged. */
  lemma TitleParts(title: string)
    requires '|' !in title
    ensures Handlers[0].mark + title == "# " + title
    ensures "<" + Handlers[0].tag + ">" == "<h1>" && "</" + Handlers[0].tag + ">\n" == "</h1>\n"
    ensures FormatTitle(title) == title
  {
    CountAbsent(title, '|');
    TitlePassThrough(title);
  }

  /** A title line opens the chapter: the title block and nothing open. */
  lemma TitleFirst(palette: Palette, title: string)
    requires '|' !in title
    ensures var r := LineStep(Initial, palette, "# " + title);
            r.stack == [] && r.lineCount == 0 && r.html == "<h1>" + title + "</h1>\n"
  {
    TitleParts(title);
    HeaderLine(Initial, palette, 0, title);
  }

  /** On an empty stack, a paragraph line followed by the final flush gives the paragraph,
      closed. */
  lemma ParagraphThenClose(st: DocState, text: string)
    requires st.stack == [] && |text| > 0
    ensures Content(ParagraphParse(st, ParagraphHandler, text))
         == st.html + ParagraphOpening(ParagraphHandler, st.lineCount + 1) + text + "</p>\n</div>\n"
  {
    var r := ParagraphParse(st, ParagraphHandler, text);
    NewParagraph(st, text);
    assert ClosingText(st.stack) == "";
    ParagraphContent(r, st.html, ParagraphOpening(ParagraphHandler, st.lineCount + 1), text);
  }

  /** Finishing with only a paragraph open closes that paragraph. */
  lemma ParagraphContent(r: DocState, html: string, opening: string, text: string)
    requires r.stack == [ClosingTag(Paragraph, "</p>\n</div>\n", 0)]
    requires r.html == html + "" + opening + text
    ensures Content(r) == html + opening + text + "</p>\n</div>\n"
  {
    assert r.stack[0..] == r.stack;
    assert ClosingText(r.stack) == "</p>\n</div>\n";
    assert html + "" == html;
  }

  /** The first text line after headings and bylines is paragraph 1, and finishing the
      chapter closes it. */
  lemma FirstParagraphClosed(st: DocState, palette: Palette, text: string)
    requires st.stack == [] && st.lineCount == 0
    requires |text| > 0 && text[0] !in "#[!:/- "
    ensures Content(LineStep(st, palette, text))
         == st.html + ParagraphOpening(ParagraphHandler, 1) + text + "</p>\n</div>\n"
  {
    PlainLineIsParagraph(st, palette, text);
    ParagraphThenClose(st, text);
  }

  /** A three-line chapter is compiled by three line steps from the initial state. */
  lemma ThreeLineChapter(l1: string, l2: string, l3: string)
    requires '\n' !in l1 && '\n' !in l2 && '\n' !in l3
    ensures ToHtml(l1 + "\n" + l2 + "\n" + l3)
         == Content(LineStep(LineStep(LineStep(Initial, StylePalette, l1), StylePalette, l2), StylePalette, l3))
  {
    SplitThree(l1, l2, l3);
    ParseThree(StylePalette, l1, l2, l3);
  }

  /** A byline after the title adds the author block and leaves the counter at zero. */
  lemma BylineAfterTitle(title: string, dynasty: string, position: string, name: string, kind: string)
    requires '|' !in title
    requires ',' !in dynasty && ',' !in position && ',' !in name && ',' !in kind
    ensures var r := LineStep(LineStep(Initial, StylePalette, "# " + title), StylePalette,
                              "[author] " + Byline(dynasty, position, name, kind));
            r.stack == [] && r.lineCount == 0
            && r.html == "<h1>" + title + "</h1>\n"
                         + "<p class=\"author\">" + BylineSpans(dynasty, position, name, kind) + "</p>\n"
  {
    var st1 := LineStep(Initial, StylePalette, "# " + title);
    TitleFirst(StylePalette, title);
    var payload := Byline(dynasty, position, name, kind);
    AuthorLine(st1, StylePalette, payload);
    assert FormatAuthor(payload) == BylineSpans(dynasty, position, name, kind) by {
      AuthorFourParts(dynasty, position, name, kind);
    }
    assert st1.html + ClosingText(st1.stack) == st1.html by {
      assert ClosingText(st1.stack) == "";
    }
  }

  /** A title, a four-part byline and one line of text (the shape of
      `# 毛诗正义` / `[author] 西汉,太史令,司马迁,撰` / `二子乘舟，汎汎其景。`): a title block, an
      author block with the dynasty, position, name and type spans, and a paragraph block
      numbered 1. */
  lemma TitleBylineParagraph(title: string, dynasty: string, position: string, name: string, kind: string, text: string)
    requires '\n' !in title && '|' !in title
    requires ',' !in dynasty && ',' !in position && ',' !in name && ',' !in kind
    requires '\n' !in dynasty && '\n' !in position && '\n' !in name && '\n' !in kind
    requires '\n' !in text && |text| > 0 && text[0] !in "#[!:/- "
    ensures ToHtml("# " + title + "\n" + "[author] " + Byline(dynasty, position, name, kind) + "\n" + text)
         == "<h1>" + title + "</h1>\n"
            + "<p class=\"author\">" + BylineSpans(dynasty, position, name, kind) + "</p>\n"
            + ParagraphOpening(ParagraphHandler, 1) + text + "</p>\n</div>\n"
  {
    var l1 := "# " + title;
    var l2 := "[author] " + Byline(dynasty, position, name, kind);
    assert "# " + title + "\n" + "[author] " + Byline(dynasty, position, name, kind) + "\n" + text
        == l1 + "\n" + l2 + "\n" + text;
    ThreeLineChapter(l1, l2, text);
    BylineAfterTitle(title, dynasty, position, name, kind);
    FirstParagraphClosed(LineStep(LineStep(Initial, StylePalette, l1), StylePalette, l2), StylePalette, text);
  }

  /** The entry a paragraph block leaves on the stack. */
  const OpenParagraph := ClosingTag(Paragraph, "</p>\n</div>\n", 0)

  lemma AnnotationTags()
    ensures AnnotationHeaderClosing(Handlers[5], 0) == "</div>\n"
    ensures AnnotationClosing(Handlers[6], 0) == "</p>\n"
    ensures AnnotationHeaderClosing(DefaultHeaderHandler, 1) == "</annotation>\n"
    ensures AnnotationClosing(Handlers[6], 1) == "</span>\n"
  {
    assert "</" + "div" + ">\n" == "</div>\n";
    assert "</" + "p" + ">\n" == "</p>\n";
    assert "</" + "annotation" + ">\n" == "</annotation>\n";
    assert "</" + "span" + ">\n" == "</span>\n";
  }

  /** A top-level annotation header after a paragraph closes the paragraph and opens its
      own frame. */
  lemma TopLevelHeaderAfterParagraph(st: DocState, palette: Palette, byline: string)
    requires st.stack == [OpenParagraph]
    ensures var s1 := LineStep(st, palette, "!!! " + byline);
            s1.stack == [ClosingTag(AnnotationHeader, "</div>\n", 0)] && s1.lineCount == st.lineCount
  {
    assert Rep(Indent, 0) + "!!! " + byline == "!!! " + byline;
    AnnotationTags();
    AnnotationHeaderLineDispatch(st, palette, 0, byline);
    TopLevelHeaderClosesAll(st, palette, Handlers[5], byline);
  }

  /** A top-level note inside the frame of a top-level header goes into that frame. */
  lemma TopLevelNoteInFrame(s1: DocState, palette: Palette, note: string)
    requires s1.stack == [ClosingTag(AnnotationHeader, "</div>\n", 0)]
    ensures var s2 := LineStep(s1, palette, "::: " + note);
            s2.stack == [ClosingTag(AnnotationHeader, "</div>\n", 0), ClosingTag(Annotation, "</p>\n", 0)]
            && s2.lineCount == s1.lineCount
  {
    assert Rep(Indent, 0) + "::: " + note == "::: " + note;
    AnnotationTags();
    AnnotationLineDispatch(s1, palette, 0, note);
    AnnotationInOpenFrame(s1, palette, Handlers[6], note, 0);
  }

  /** A top-level annotation block after a paragraph ends that paragraph: the header closes
      it, the note goes inside the header's frame, and the next text line starts a new
      paragraph with the next number. */
  lemma TopLevelAnnotationEndsParagraph(st: DocState, palette: Palette, byline: string, note: string, text: string)
    requires st.stack == [OpenParagraph]
    requires |text| > 0 && text[0] !in "#[!:/- "
    ensures var s1 := LineStep(st, palette, "!!! " + byline);
            var s2 := LineStep(s1, palette, "::: " + note);
            var s3 := LineStep(s2, palette, text);
            s2.stack == [ClosingTag(AnnotationHeader, "</div>\n", 0), ClosingTag(Annotation, "</p>\n", 0)]
            && s3.stack == [OpenParagraph] && s3.lineCount == st.lineCount + 1
  {
    var s1 := LineStep(st, palette, "!!! " + byline);
    TopLevelHeaderAfterParagraph(st, palette, byline);
    var s2 := LineStep(s1, palette, "::: " + note);
    TopLevelNoteInFrame(s1, palette, note);
    PlainLineIsParagraph(s2, palette, text);
    NewParagraph(s2, text);
  }

  /** The entries an inline note leaves above the paragraph: the synthesized inner header and
      the span. */
  const InlineNote := [ClosingTag(AnnotationHeader, "</annotation>\n", 1), ClosingTag(Annotation, "</span>\n", 1)]

  /** An indented note inside a paragraph is inline: with no inner header open, a default one
      is synthesized at its level, and the note's span goes inside it. */
  lemma InlineNoteOpens(st: DocState, palette: Palette, note: string)
    requires st.stack == [OpenParagraph]
    ensures var r := LineStep(st, palette, Indent + "::: " + note);
            r.stack == [OpenParagraph] + InlineNote && r.lineCount == st.lineCount
  {
    AnnotationTags();
    assert Rep(Indent, 1) == Indent;
    AnnotationLineDispatch(st, palette, 1, note);
    assert NeedsDefaultHeader(st.stack, 1);
    AnnotationOutsideFrameGetsHeader(st, palette, Handlers[6], note, 1);
    var withHeader := InsertDefaultHeader(st, palette, 1);
    assert ClearForHeader(st, 1) == st;
    assert withHeader.stack == [OpenParagraph, ClosingTag(AnnotationHeader, "</annotation>\n", 1)];
    assert withHeader.lineCount == st.lineCount;
  }

  /** After an inline note, the next text line closes the span and the inner header and
      continues the same paragraph, with no new block and no new number. */
  lemma InlineNoteContinuesParagraph(st: DocState, palette: Palette, note: string, text: string)
    requires st.stack == [OpenParagraph]
    requires |text| > 0 && text[0] !in "#[!:/- "
    ensures var s1 := LineStep(st, palette, Indent + "::: " + note);
            var s2 := LineStep(s1, palette, text);
            s2.stack == [OpenParagraph] && s2.lineCount == st.lineCount
            && s2.html == s1.html + "</span>\n" + "</annotation>\n" + text
  {
    var s1 := LineStep(st, palette, Indent + "::: " + note);
    InlineNoteOpens(st, palette, note);
    assert Continues(s1.stack);
    ParagraphContinuation(s1, text);
    PlainLineIsParagraph(s1, palette, text);
    assert s1.stack[1..] == InlineNote;
    assert InlineNote[1..][1..] == [];
    assert ClosingText(InlineNote) == "" + "</span>\n" + "</annotation>\n";
  }
}
