/** The document object of the chapter-markup compiler: a closing-tag stack, an HTML buffer,
    the paragraph counter and the annotator style map, all updated in place by the handlers.
    Every method is proved to perform the MarkupSpec transition of the same name, so the
    properties proved in MarkupLaws hold of the object. The handler objects of the source,
    which only hold their mark and tag and a reference to the document, are the `Handler`
    values passed to the document's parse methods. */
module MarkupDocument {
  import opened Text
  import opened MarkupFormat
  import opened MarkupSpec
  import opened MarkupLaws
  import Wrappers

  class HtmlParseDocument {
    const markContent: string
    const authorStyles: Palette
    var lineCount: nat
    var classes: map<string, string>
    var html: string
    var stack: seq<ClosingTag>

    /** The object's state as a MarkupSpec value. */
    function State(): DocState
      reads this
    {
      DocState(stack, html, lineCount, classes)
    }

    constructor(markContent: string, authorStyles: Palette)
      ensures this.markContent == markContent && this.authorStyles == authorStyles
      ensures State() == Initial
    {
      this.markContent := markContent;
      this.authorStyles := authorStyles;
      lineCount := 0;
      classes := map[];
      html := "";
      stack := [];
    }

    method GetAuthorStyle(author: string) returns (style: string)
      modifies this
      ensures (style, State()) == AuthorStyle(old(State()), authorStyles, author)
    {
      if authorStyles.Some? && |authorStyles.value| != 0 {
        if author in classes {
          return classes[author];
        } else {
          style := authorStyles.value[|classes| % |authorStyles.value|];
          classes := classes[author := style];
          return style;
        }
      }
      return "";
    }

    method GetLineCount() returns (n: nat)
      modifies this
      ensures (n, State()) == NextLineCount(old(State()))
    {
      lineCount := lineCount + 1;
      n := lineCount;
    }

    method ResetLineCount()
      modifies this
      ensures State() == old(State()).(lineCount := 0)
    {
      lineCount := 0;
    }

    method PopClosingTagStack()
      modifies this
      ensures State() == Pop(old(State()))
    {
      if |stack| == 0 {
        html := html + "undefined";
      } else {
        assert ClosingText(stack[|stack| - 1..]) == Top(stack).closingTag;
        html := html + Top(stack).closingTag;
        stack := stack[..|stack| - 1];
      }
    }

    /** Pops `|stack| - reservedCount` times; the source's missing argument is 0. */
    method RollbackClosingTags(reservedCount: nat)
      modifies this
      ensures State() == Rollback(old(State()), reservedCount)
    {
      var count := |stack| - reservedCount;
      var i := 0;
      while i < count
        invariant 0 <= i && (i == 0 || i <= count)
        invariant i <= |old(stack)|
        invariant State() == Truncate(old(State()), |old(stack)| - i)
      {
        PopAfterTruncate(old(State()), |old(stack)| - i);
        PopClosingTagStack();
        i := i + 1;
      }
      if count <= 0 {
        TruncateNothing(old(State()));
      }
    }

    method AddClosingTagStack(mark: MarkType, closingTag: string, level: nat)
      modifies this
      ensures State() == Push(old(State()), mark, closingTag, level)
    {
      stack := stack + [ClosingTag(mark, closingTag, level)];
    }

    method AddContent(openingTag: string, content: string, closingTag: string)
      modifies this
      ensures State() == MarkupSpec.AddContent(old(State()), openingTag, content, closingTag)
    {
      html := html + openingTag + content + closingTag;
    }

    /** Flushes every open closing tag and returns the finished HTML. */
    method GetContent() returns (content: string)
      modifies this
      ensures content == Content(old(State()))
      ensures State() == Rollback(old(State()), 0)
    {
      RollbackClosingTags(0);
      content := html;
    }

    // -------------------------------------------------------------------------
    // The handlers' work, once `CanHandle` has accepted the line

    method ParseHeader(h: Handler, content: string)
      modifies this
      ensures State() == HeaderStep(old(State()), h, content)
    {
      ResetLineCount();
      RollbackClosingTags(0);
      AddContent("<" + h.tag + ">", FormatTitle(content), "</" + h.tag + ">\n");
    }

    method ParseAuthor(h: Handler, content: string)
      modifies this
      ensures State() == AuthorStep(old(State()), h, content)
    {
      RollbackClosingTags(0);
      AddContent("<" + h.tag + " class=\"author\">", FormatAuthor(content), "</" + h.tag + ">\n");
    }

    method ParseBreak(h: Handler)
      modifies this
      ensures State() == BreakStep(old(State()), h)
    {
      RollbackClosingTags(0);
      AddContent("<" + h.tag + ">", "", "\n");
    }

    /** The annotation header's byline markup, and its style looked up under the annotator. */
    method ParseHeaderContent(content: string, level: nat) returns (parsedContent: string, style: string)
      modifies this
      ensures parsedContent == AnnotationByline(content, level).0
      ensures (style, State()) == BylineStyle(old(State()), authorStyles, content, level)
    {
      var byline := AnnotationByline(content, level);
      parsedContent := byline.0;
      style := "";
      if byline.1.Some? {
        style := GetAuthorStyle(byline.1.value);
      }
    }

    /** The header's pop loop: pop until an annotation header of `level` has been popped, at
        most once per entry. */
    method PopThroughHeaderOf(level: nat)
      modifies this
      ensures State() == Truncate(old(State()), PopThroughHeader(old(stack), level))
    {
      var i := |stack| - 1;
      while i >= 0
        invariant -1 <= i < |old(stack)| && |stack| == i + 1
        invariant State() == Truncate(old(State()), i + 1)
        invariant PopThroughHeader(old(stack), level) == PopThroughHeader(old(stack)[..i + 1], level)
      {
        assert old(stack)[..i + 1][..i] == old(stack)[..i];
        PopAfterTruncate(old(State()), i + 1);
        if IsHeaderAt(Top(stack), level) {
          PopClosingTagStack();
          break;
        } else {
          PopClosingTagStack();
        }
        i := i - 1;
      }
    }

    /** `_Parse` of the annotation-header handler. */
    method ParseAnnotationHeader(h: Handler, content: string, level: nat) returns (parsed: bool)
      modifies this
      ensures (parsed, State()) == AnnotationHeaderParse(old(State()), authorStyles, h, content, level)
    {
      if |stack| == 0 && level > 0 {
        return false;
      }
      var lastMark := if |stack| > 0 then Top(stack).mark else None;
      var lastLevel := if |stack| > 0 then Top(stack).level else 0;
      if level <= lastLevel {
        if IsAnnotation(lastMark) {
          PopThroughHeaderOf(level);
        } else {
          RollbackClosingTags(0);
        }
      }
      assert State() == ClearForHeader(old(State()), level);
      var parsedContent, style := ParseHeaderContent(content, level);
      AddContent(AnnotationHeaderOpening(h, level, style), parsedContent, "");
      AddClosingTagStack(h.kind, AnnotationHeaderClosing(h, level), level);
      return true;
    }

    /** `InsertDefaultHeader` of a freshly built annotation-header handler. */
    method InsertDefaultHeader(level: nat)
      modifies this
      ensures State() == MarkupSpec.InsertDefaultHeader(old(State()), authorStyles, level)
    {
      var inserted := ParseAnnotationHeader(DefaultHeaderHandler, "", level);
    }

    /** The annotation handler's search from the top for the nearest entry of at most its
        level, inserting a default header when that entry is not a frame of this level. */
    method EnsureHeaderOver(level: nat)
      requires |stack| > 0
      modifies this
      ensures State() == EnsureHeader(old(State()), authorStyles, level)
    {
      var i := |stack| - 1;
      while i >= 0
        invariant -1 <= i < |stack|
        invariant State() == old(State())
        invariant NeedsDefaultHeader(stack, level) == NeedsDefaultHeader(stack[..i + 1], level)
      {
        if stack[i].level <= level {
          NeedsAtEntry(stack, i, level);
          if IsFrameAt(stack[i], level) {
            break;
          } else {
            InsertDefaultHeader(level);
            break;
          }
        }
        NeedsPastDeeper(stack, i, level);
        i := i - 1;
      }
    }

    /** The annotation handler's pop loop: pop until the top is an annotation entry of
        `level`, at most once per entry. */
    method PopToFrameOf(level: nat)
      modifies this
      ensures State() == Truncate(old(State()), KeepThroughFrame(old(stack), level))
    {
      var i := |stack| - 1;
      while i >= 0
        invariant -1 <= i < |old(stack)| && |stack| == i + 1
        invariant State() == Truncate(old(State()), i + 1)
        invariant KeepThroughFrame(old(stack), level) == KeepThroughFrame(old(stack)[..i + 1], level)
      {
        assert old(stack)[..i + 1][..i] == old(stack)[..i];
        if IsFrameAt(Top(stack), level) {
          break;
        } else {
          PopAfterTruncate(old(State()), i + 1);
          PopClosingTagStack();
        }
        i := i - 1;
      }
    }

    /** `Parse` of the annotation handler, after `CanHandle` has accepted the line. */
    method ParseAnnotation(h: Handler, content: string, level: nat) returns (parsed: bool)
      modifies this
      ensures (parsed, State()) == AnnotationParse(old(State()), authorStyles, h, content, level)
    {
      if |stack| == 0 {
        if level > 0 {
          return false;
        }
        InsertDefaultHeader(level);
      } else {
        EnsureHeaderOver(level);
      }
      assert State() == EnsureHeader(old(State()), authorStyles, level);
      var lastMark := if |stack| > 0 then Top(stack).mark else None;
      var lastLevel := if |stack| > 0 then Top(stack).level else 0;
      if level <= lastLevel {
        if IsAnnotation(lastMark) {
          PopToFrameOf(level);
        } else {
          RollbackClosingTags(0);
        }
      }
      AddContent(AnnotationOpening(h, level), content, "");
      AddClosingTagStack(h.kind, AnnotationClosing(h, level), level);
      return true;
    }

    /** `Parse` of the paragraph handler. */
    method ParseParagraph(h: Handler, line: string)
      modifies this
      ensures State() == ParagraphParse(old(State()), h, line)
    {
      if |line| == 0 {
        RollbackClosingTags(0);
      } else if Continues(stack) {
        RollbackClosingTags(1);
        AddContent("", line, "");
      } else {
        RollbackClosingTags(0);
        var id := GetLineCount();
        AddContent(ParagraphOpening(h, id), line, "");
        AddClosingTagStack(h.kind, "</p>\n</" + h.tag + ">\n", 0);
      }
    }

    /** One handler's `Parse(line)`: `CanHandle`, then the handler's work. */
    method ParseWith(h: Handler, line: string) returns (parsed: bool)
      modifies this
      ensures (parsed, State()) == HandlerParse(old(State()), authorStyles, h, line)
    {
      var m := CanHandle(line, h.mark, h.downlevelMark);
      if !m.ok {
        return false;
      }
      match h.kind
      case Header1 =>
        ParseHeader(h, m.content);
        parsed := true;
      case Header2 =>
        ParseHeader(h, m.content);
        parsed := true;
      case Header3 =>
        ParseHeader(h, m.content);
        parsed := true;
      case Header4 =>
        ParseHeader(h, m.content);
        parsed := true;
      case Author =>
        ParseAuthor(h, m.content);
        parsed := true;
      case AnnotationHeader =>
        parsed := ParseAnnotationHeader(h, m.content, m.level);
      case Annotation =>
        parsed := ParseAnnotation(h, m.content, m.level);
      case Note =>
        parsed := true;
      case Break =>
        ParseBreak(h);
        parsed := true;
      case _ =>
        parsed := false;
    }

    /** The handlers `hs` in order until one takes the line, else the paragraph handler. */
    method ParseWithHandlers(hs: seq<Handler>, line: string)
      modifies this
      ensures State() == TryHandlers(old(State()), authorStyles, hs, line)
    {
      var parsed := false;
      var mark := 0;
      while mark < |hs|
        invariant 0 <= mark <= |hs|
        invariant !parsed && State() == old(State())
        invariant TryHandlers(old(State()), authorStyles, hs, line) == TryHandlers(State(), authorStyles, hs[mark..], line)
      {
        TryAt(State(), authorStyles, hs, line, mark);
        parsed := ParseWith(hs[mark], line);
        if parsed {
          break;
        }
        mark := mark + 1;
      }
      if !parsed {
        assert hs[mark..] == [];
        ParseParagraph(ParagraphHandler, line);
      }
    }

    /** One line of `Parse`: the document's handlers in order, else the paragraph handler. */
    method ParseLine(line: string)
      modifies this
      ensures State() == LineStep(old(State()), authorStyles, line)
    {
      ParseWithHandlers(Handlers, line);
    }

    /** Splits the chapter into lines and compiles them in order. */
    method Parse()
      modifies this
      ensures State() == ParseLines(old(State()), authorStyles, Split(markContent, '\n'))
    {
      var lines := Split(markContent, '\n');
      var index := 0;
      while index < |lines|
        invariant 0 <= index <= |lines|
        invariant State() == ParseLines(old(State()), authorStyles, lines[..index])
      {
        assert lines[..index + 1][..index] == lines[..index];
        ParseLine(lines[index]);
        index := index + 1;
      }
      assert lines[..|lines|] == lines;
    }
  }

  class BookMarkdownDocument {
    constructor() {
    }

    /** Compiles a chapter with the four-style palette. */
    method ToHtml(content: string) returns (html: string)
      ensures html == MarkupSpec.ToHtml(content)
    {
      var document := new HtmlParseDocument(content, StylePalette);
      document.Parse();
      html := document.GetContent();
    }
  }
}
