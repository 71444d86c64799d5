/** Properties of the chapter-markup compiler, stated over the transitions of MarkupSpec. */
module MarkupLaws {
  import opened Text
  import opened MarkupFormat
  import opened MarkupSpec
  import Wrappers

  // ---------------------------------------------------------------------------
  // The closing-tag stack

  /** Closing tags come out last in, first out: popping `a + b` emits `b`'s tags before `a`'s. */
  lemma {:induction false} ClosingTextAppend(a: seq<ClosingTag>, b: seq<ClosingTag>)
    ensures ClosingText(a + b) == ClosingText(b) + ClosingText(a)
  {
    if |a| == 0 {
      assert a + b == b;
      assert ClosingText(b) + "" == ClosingText(b);
    } else {
      var t := a + b;
      assert t[1..] == a[1..] + b && t[0] == a[0];
      assert ClosingText(t) == ClosingText(a[1..] + b) + a[0].closingTag;
      ClosingTextAppend(a[1..], b);
      var x, y, z := ClosingText(b), ClosingText(a[1..]), a[0].closingTag;
      assert (x + y) + z == x + (y + z);
    }
  }

  /** Popping down to `k1` and then to `k2` is popping down to `k2` at once. */
  lemma TruncateTwice(st: DocState, k1: nat, k2: nat)
    requires k2 <= k1 <= |st.stack|
    ensures Truncate(Truncate(st, k1), k2) == Truncate(st, k2)
  {
    var s := st.stack;
    assert s[k2..] == s[..k1][k2..] + s[k1..];
    ClosingTextAppend(s[..k1][k2..], s[k1..]);
  }

  /** One pop after popping down to `k` is popping down to `k - 1`. */
  lemma PopAfterTruncate(st: DocState, k: nat)
    requires 0 < k <= |st.stack|
    ensures Pop(Truncate(st, k)) == Truncate(st, k - 1)
  {
    TruncateTwice(st, k, k - 1);
  }

  /** A rollback keeping `r` entries emits exactly the closing tags of the entries above them,
      top first, and leaves the rest of the state alone. */
  lemma RollbackEmitsAbove(st: DocState, r: nat)
    requires 0 < r <= |st.stack|
    ensures Rollback(st, r).stack == st.stack[..r]
    ensures Rollback(st, 0).html == Rollback(st, r).html + ClosingText(st.stack[..r])
    ensures Rollback(Rollback(st, r), 0) == Rollback(st, 0)
  {
    TruncateTwice(st, r, 0);
    assert st.stack[..r][0..] == st.stack[..r];
  }

  // ---------------------------------------------------------------------------
  // Stack shape

  /** The closing tag each kind of entry is pushed with. */
  function ExpectedClosing(mark: MarkType, level: nat): string {
    match mark
    case Paragraph => "</p>\n</div>\n"
    case AnnotationHeader => if level == 0 then "</div>\n" else "</annotation>\n"
    case Annotation => if level == 0 then "</p>\n" else "</span>\n"
    case _ => ""
  }

  /** Only paragraphs and annotation entries are ever open; a paragraph only at the bottom, at
      level 0; every entry closes the element its handler opened. */
  predicate EntryWellFormed(e: ClosingTag, i: nat) {
    (e.mark == Paragraph || IsAnnotation(e.mark))
    && (e.mark == Paragraph ==> i == 0 && e.level == 0)
    && e.closingTag == ExpectedClosing(e.mark, e.level)
  }

  predicate StackWellFormed(s: seq<ClosingTag>) {
    forall i :: 0 <= i < |s| ==> EntryWellFormed(s[i], i)
  }

  /** The tags of the handlers that push entries, as the document constructs them. */
  predicate PushesExpected(h: Handler) {
    (h.kind == AnnotationHeader ==> h.tag == "div" && h.downlevelTag == "annotation")
    && (h.kind == Annotation ==> h.tag == "p" && h.downlevelTag == "span")
    && (h.kind == Paragraph ==> h.tag == "div")
  }

  lemma PushKeepsWellFormed(s: seq<ClosingTag>, e: ClosingTag)
    requires StackWellFormed(s) && EntryWellFormed(e, |s|)
    ensures StackWellFormed(s + [e])
  {
  }

  lemma TruncateKeepsWellFormed(st: DocState, k: nat)
    requires k <= |st.stack| && StackWellFormed(st.stack)
    ensures StackWellFormed(Truncate(st, k).stack)
  {
  }

  /** The clearing before an annotation header or body only pops: what is left is a bottom part. */
  lemma HeaderClearingKeepsBottom(st: DocState, level: nat)
    ensures |ClearForHeader(st, level).stack| <= |st.stack|
    ensures ClearForHeader(st, level).stack == st.stack[..|ClearForHeader(st, level).stack|]
  {
  }

  lemma ClearingKeepsBottom(st: DocState, level: nat)
    ensures |ClearForAnnotation(st, level).stack| <= |st.stack|
    ensures ClearForAnnotation(st, level).stack == st.stack[..|ClearForAnnotation(st, level).stack|]
  {
  }

  /** An annotation header that opens pushes one entry on what the clearing left. */
  lemma AnnotationHeaderPushes(st: DocState, palette: Palette, h: Handler, content: string, level: nat)
    requires !(|st.stack| == 0 && level > 0)
    ensures AnnotationHeaderParse(st, palette, h, content, level).1.stack
         == ClearForHeader(st, level).stack + [ClosingTag(h.kind, AnnotationHeaderClosing(h, level), level)]
  {
    var st1 := ClearForHeader(st, level);
    assert BylineStyle(st1, palette, content, level).1.stack == st1.stack;
  }

  /** A well-formed entry pushed on a bottom part of a well-formed stack. */
  lemma PushOnBottomKeeps(s: seq<ClosingTag>, s1: seq<ClosingTag>, e: ClosingTag)
    requires StackWellFormed(s) && |s1| <= |s| && s1 == s[..|s1|] && EntryWellFormed(e, |s1|)
    ensures StackWellFormed(s1 + [e])
  {
    assert StackWellFormed(s1);
    PushKeepsWellFormed(s1, e);
  }

  /** The entry an annotation header pushes closes the element it opened. */
  lemma HeaderEntryWellFormed(h: Handler, level: nat, k: nat)
    requires h.kind == AnnotationHeader && PushesExpected(h)
    ensures EntryWellFormed(ClosingTag(h.kind, AnnotationHeaderClosing(h, level), level), k)
  {
  }

  lemma AnnotationHeaderKeepsWellFormed(st: DocState, palette: Palette, h: Handler, content: string, level: nat)
    requires StackWellFormed(st.stack) && h.kind == AnnotationHeader && PushesExpected(h)
    ensures StackWellFormed(AnnotationHeaderParse(st, palette, h, content, level).1.stack)
  {
    if !(|st.stack| == 0 && level > 0) {
      AnnotationHeaderPushes(st, palette, h, content, level);
      HeaderClearingKeepsBottom(st, level);
      var s1 := ClearForHeader(st, level).stack;
      HeaderEntryWellFormed(h, level, |s1|);
      PushOnBottomKeeps(st.stack, s1, ClosingTag(h.kind, AnnotationHeaderClosing(h, level), level));
    }
  }

  lemma EnsureHeaderKeepsWellFormed(st: DocState, palette: Palette, level: nat)
    requires StackWellFormed(st.stack)
    ensures StackWellFormed(EnsureHeader(st, palette, level).stack)
  {
    if |st.stack| == 0 || NeedsDefaultHeader(st.stack, level) {
      AnnotationHeaderKeepsWellFormed(st, palette, DefaultHeaderHandler, "", level);
    }
  }

  lemma AnnotationKeepsWellFormed(st: DocState, palette: Palette, h: Handler, content: string, level: nat)
    requires StackWellFormed(st.stack) && h.kind == Annotation && PushesExpected(h)
    ensures StackWellFormed(AnnotationParse(st, palette, h, content, level).1.stack)
  {
    var closing := AnnotationClosing(h, level);
    assert closing == ExpectedClosing(Annotation, level) by {
      assert h.tag == "p" && h.downlevelTag == "span";
    }
    if !(|st.stack| == 0 && level > 0) {
      var st1 := EnsureHeader(st, palette, level);
      EnsureHeaderKeepsWellFormed(st, palette, level);
      var st2 := ClearForAnnotation(st1, level);
      ClearingKeepsBottom(st1, level);
      assert StackWellFormed(st2.stack);
      var e := ClosingTag(Annotation, closing, level);
      assert EntryWellFormed(e, |st2.stack|);
      PushKeepsWellFormed(st2.stack, e);
      assert AnnotationParse(st, palette, h, content, level).1.stack == st2.stack + [e];
    }
  }

  lemma ParagraphKeepsWellFormed(st: DocState, line: string)
    requires StackWellFormed(st.stack)
    ensures StackWellFormed(ParagraphParse(st, ParagraphHandler, line).stack)
  {
    ParagraphStack(st, ParagraphHandler, line);
    if |line| > 0 && !Continues(st.stack) {
      assert "</p>\n</" + ParagraphHandler.tag + ">\n" == "</p>\n</div>\n";
    }
  }

  /** The stack a paragraph line leaves: empty after an empty line, the paragraph entry alone
      when the line continues it, a fresh paragraph entry otherwise. */
  lemma ParagraphStack(st: DocState, h: Handler, line: string)
    ensures |line| == 0 ==> ParagraphParse(st, h, line).stack == []
    ensures |line| > 0 && Continues(st.stack) ==> ParagraphParse(st, h, line).stack == st.stack[..1]
    ensures |line| > 0 && !Continues(st.stack) ==>
              ParagraphParse(st, h, line).stack == [ClosingTag(h.kind, "</p>\n</" + h.tag + ">\n", 0)]
  {
  }

  lemma HandlerKeepsWellFormed(st: DocState, palette: Palette, h: Handler, line: string)
    requires StackWellFormed(st.stack) && PushesExpected(h)
    ensures StackWellFormed(HandlerParse(st, palette, h, line).1.stack)
  {
    var m := MatchMark(line, h.mark, h.downlevelMark);
    if !m.ok {
      RejectedDeclines(st, palette, h, line);
    } else {
      HandlerParseOnMatch(st, palette, h, line, m.content, m.level);
      if h.kind == AnnotationHeader {
        AnnotationHeaderKeepsWellFormed(st, palette, h, m.content, m.level);
      } else if h.kind == Annotation {
        AnnotationKeepsWellFormed(st, palette, h, m.content, m.level);
      }
    }
  }

  lemma {:induction false} TryHandlersKeepsWellFormed(st: DocState, palette: Palette, hs: seq<Handler>, line: string)
    requires StackWellFormed(st.stack)
    requires forall i :: 0 <= i < |hs| ==> PushesExpected(hs[i])
    ensures StackWellFormed(TryHandlers(st, palette, hs, line).stack)
  {
    if |hs| == 0 {
      ParagraphKeepsWellFormed(st, line);
    } else {
      HandlerKeepsWellFormed(st, palette, hs[0], line);
      TryHandlersKeepsWellFormed(st, palette, hs[1..], line);
    }
  }

  /** Every line keeps the stack well formed: headers, author lines and breaks never stay open,
      and a paragraph is only ever the bottom entry. */
  lemma LineStepKeepsWellFormed(st: DocState, palette: Palette, line: string)
    requires StackWellFormed(st.stack)
    ensures StackWellFormed(LineStep(st, palette, line).stack)
  {
    TryHandlersKeepsWellFormed(st, palette, Handlers, line);
  }

  lemma {:induction false} ParseLinesWellFormed(palette: Palette, lines: seq<string>)
    ensures StackWellFormed(ParseLines(Initial, palette, lines).stack)
  {
    if |lines| > 0 {
      ParseLinesWellFormed(palette, lines[..|lines| - 1]);
      LineStepKeepsWellFormed(ParseLines(Initial, palette, lines[..|lines| - 1]), palette, lines[|lines| - 1]);
    }
  }

  // ---------------------------------------------------------------------------
  // Block discipline

  /** One step pops the stack down to its bottom `k` entries, emitting the popped entries'
      closing tags top first, then writes `out` and pushes `pushed`: no block is closed
      twice, none is closed out of order, and nothing already written is changed. */
  predicate PopsThenPushes(st: DocState, r: DocState, k: nat, pushed: seq<ClosingTag>, out: string) {
    k <= |st.stack| && r.stack == st.stack[..k] + pushed && r.html == st.html + ClosingText(st.stack[k..]) + out
  }

  /** A step that only writes, pops nothing and pushes nothing. */
  lemma KeepAll(st: DocState, r: DocState, out: string)
    requires r.stack == st.stack && r.html == st.html + out
    ensures PopsThenPushes(st, r, |st.stack|, [], out)
  {
    assert st.stack[..|st.stack|] + [] == st.stack;
    assert st.stack[|st.stack|..] == [];
  }

  /** Popping down to `k`, then writing `out` and pushing `pushed`. */
  lemma TruncateThen(st: DocState, k: nat, r: DocState, pushed: seq<ClosingTag>, out: string)
    requires k <= |st.stack|
    requires r.stack == Truncate(st, k).stack + pushed && r.html == Truncate(st, k).html + out
    ensures PopsThenPushes(st, r, k, pushed, out)
  {
  }

  /** The header clearing pops the stack down to some depth. */
  lemma ClearForHeaderTruncates(st: DocState, level: nat) returns (k: nat)
    ensures k <= |st.stack| && ClearForHeader(st, level) == Truncate(st, k)
  {
    var lastLevel := if |st.stack| > 0 then Top(st.stack).level else 0;
    if level <= lastLevel {
      k := if |st.stack| > 0 && IsAnnotation(Top(st.stack).mark) then PopThroughHeader(st.stack, level) else 0;
      if k == 0 {
        assert ClearForHeader(st, level) == Rollback(st, 0);
      }
    } else {
      k := |st.stack|;
      TruncateNothing(st);
    }
  }

  /** The annotation clearing pops the stack down to some depth. */
  lemma ClearForAnnotationTruncates(st: DocState, level: nat) returns (k: nat)
    ensures k <= |st.stack| && ClearForAnnotation(st, level) == Truncate(st, k)
  {
    var lastLevel := if |st.stack| > 0 then Top(st.stack).level else 0;
    if level <= lastLevel {
      k := if |st.stack| > 0 && IsAnnotation(Top(st.stack).mark) then KeepThroughFrame(st.stack, level) else 0;
      if k == 0 {
        assert ClearForAnnotation(st, level) == Rollback(st, 0);
      }
    } else {
      k := |st.stack|;
      TruncateNothing(st);
    }
  }

  /** Looking up a byline's style changes only the style map. */
  lemma BylineKeepsDocument(st: DocState, palette: Palette, content: string, level: nat)
    ensures var st2 := BylineStyle(st, palette, content, level).1;
            st2.stack == st.stack && st2.html == st.html
  {
  }

  /** An accepted annotation header, after its clearing: the opening and byline are written and
      its entry is pushed. */
  lemma AnnotationHeaderShape(st: DocState, palette: Palette, h: Handler, content: string, level: nat)
    requires !(|st.stack| == 0 && level > 0)
    ensures var st1 := ClearForHeader(st, level);
            var style := BylineStyle(st1, palette, content, level).0;
            var r := AnnotationHeaderParse(st, palette, h, content, level).1;
            r.stack == st1.stack + [ClosingTag(h.kind, AnnotationHeaderClosing(h, level), level)]
            && r.html == st1.html + AnnotationHeaderOpening(h, level, style) + AnnotationByline(content, level).0
  {
    BylineKeepsDocument(ClearForHeader(st, level), palette, content, level);
  }

  /** An accepted annotation header pops to some depth, writes its opening and byline, and
      pushes its own entry. */
  lemma AnnotationHeaderPopsThenPushes(st: DocState, palette: Palette, h: Handler, content: string, level: nat)
    returns (k: nat, out: string)
    requires !(|st.stack| == 0 && level > 0)
    ensures var r := AnnotationHeaderParse(st, palette, h, content, level).1;
            PopsThenPushes(st, r, k, [ClosingTag(h.kind, AnnotationHeaderClosing(h, level), level)], out)
  {
    k := ClearForHeaderTruncates(st, level);
    var st1 := ClearForHeader(st, level);
    var a := AnnotationHeaderOpening(h, level, BylineStyle(st1, palette, content, level).0);
    var b := AnnotationByline(content, level).0;
    out := a + b;
    AnnotationHeaderShape(st, palette, h, content, level);
    AppendAssocText(st1.html, a, b);
    TruncateThen(st, k, AnnotationHeaderParse(st, palette, h, content, level).1,
                 [ClosingTag(h.kind, AnnotationHeaderClosing(h, level), level)], out);
  }

  /** An accepted annotation line, after any default header and its clearing: the opening and
      text are written and its entry is pushed. */
  lemma AnnotationShape(st: DocState, palette: Palette, h: Handler, content: string, level: nat)
    requires !(|st.stack| == 0 && level > 0)
    ensures var st2 := ClearForAnnotation(EnsureHeader(st, palette, level), level);
            var r := AnnotationParse(st, palette, h, content, level).1;
            r.stack == st2.stack + [ClosingTag(h.kind, AnnotationClosing(h, level), level)]
            && r.html == st2.html + AnnotationOpening(h, level) + content
  {
  }

  /** An accepted annotation line pops to some depth and pushes its entry, after a default
      header entry when one is inserted. */
  lemma AnnotationPopsThenPushes(st: DocState, palette: Palette, h: Handler, content: string, level: nat)
    returns (k: nat, pushed: seq<ClosingTag>, out: string)
    requires !(|st.stack| == 0 && level > 0)
    ensures PopsThenPushes(st, AnnotationParse(st, palette, h, content, level).1, k, pushed, out)
  {
    var body := ClosingTag(h.kind, AnnotationClosing(h, level), level);
    var st1 := EnsureHeader(st, palette, level);
    var r := AnnotationParse(st, palette, h, content, level).1;
    var text := AnnotationOpening(h, level) + content;
    AnnotationShape(st, palette, h, content, level);
    AppendAssocText(ClearForAnnotation(st1, level).html, AnnotationOpening(h, level), content);
    if |st.stack| == 0 || NeedsDefaultHeader(st.stack, level) {
      var hdr := ClosingTag(DefaultHeaderHandler.kind, AnnotationHeaderClosing(DefaultHeaderHandler, level), level);
      var o1;
      k, o1 := AnnotationHeaderPopsThenPushes(st, palette, DefaultHeaderHandler, "", level);
      assert st1 == InsertDefaultHeader(st, palette, level);
      assert st1.stack == st.stack[..k] + [hdr];
      FrameOnTopKeepsAll(st1, level);
      pushed := [hdr, body];
      out := o1 + text;
      assert r.stack == st.stack[..k] + pushed;
      AppendAssocText(st.html + ClosingText(st.stack[k..]), o1, text);
    } else {
      assert st1 == st;
      k := ClearForAnnotationTruncates(st, level);
      pushed := [body];
      out := text;
      TruncateThen(st, k, r, pushed, out);
    }
  }

  /** The paragraph handler pops everything, or everything above a continued paragraph, and
      pushes at most the new paragraph's entry. */
  lemma ParagraphPopsThenPushes(st: DocState, line: string) returns (k: nat, pushed: seq<ClosingTag>, out: string)
    ensures PopsThenPushes(st, ParagraphParse(st, ParagraphHandler, line), k, pushed, out)
  {
    var r := ParagraphParse(st, ParagraphHandler, line);
    if |line| == 0 {
      k, pushed, out := 0, [], "";
    } else if Continues(st.stack) {
      k, pushed, out := 1, [], line;
    } else {
      k := 0;
      pushed := [ClosingTag(Paragraph, "</p>\n</" + ParagraphHandler.tag + ">\n", 0)];
      out := ParagraphOpening(ParagraphHandler, st.lineCount + 1) + line;
    }
    TruncateThen(st, k, r, pushed, out);
  }

  /** A step that closes everything and then writes `a + b + c`. */
  lemma PopAllThenWrite(st: DocState, r: DocState, a: string, b: string, c: string)
    requires r.stack == Rollback(st, 0).stack && r.html == Rollback(st, 0).html + a + b + c
    ensures PopsThenPushes(st, r, 0, [], a + b + c)
  {
    var x := Rollback(st, 0).html;
    assert x + a + b + c == x + (a + b + c);
  }

  /** A handler that takes a line pops then pushes. */
  lemma HandlerPopsThenPushes(st: DocState, palette: Palette, h: Handler, line: string)
    returns (k: nat, pushed: seq<ClosingTag>, out: string)
    requires HandlerParse(st, palette, h, line).0
    ensures PopsThenPushes(st, HandlerParse(st, palette, h, line).1, k, pushed, out)
  {
    var m := MatchMark(line, h.mark, h.downlevelMark);
    var r := HandlerParse(st, palette, h, line).1;
    HandlerParseOnMatch(st, palette, h, line, m.content, m.level);
    k, pushed := 0, [];
    if IsHeader(h.kind) {
      var a, b, c := "<" + h.tag + ">", FormatTitle(m.content), "</" + h.tag + ">\n";
      out := a + b + c;
      PopAllThenWrite(st, r, a, b, c);
    } else if h.kind == Author {
      var a, b, c := "<" + h.tag + " class=\"author\">", FormatAuthor(m.content), "</" + h.tag + ">\n";
      out := a + b + c;
      PopAllThenWrite(st, r, a, b, c);
    } else if h.kind == Break {
      out := "<" + h.tag + ">" + "" + "\n";
      PopAllThenWrite(st, r, "<" + h.tag + ">", "", "\n");
    } else if h.kind == AnnotationHeader {
      pushed := [ClosingTag(h.kind, AnnotationHeaderClosing(h, m.level), m.level)];
      k, out := AnnotationHeaderPopsThenPushes(st, palette, h, m.content, m.level);
    } else if h.kind == Annotation {
      k, pushed, out := AnnotationPopsThenPushes(st, palette, h, m.content, m.level);
    } else {
      assert h.kind == Note;
      k, out := |st.stack|, "";
      KeepAll(st, r, "");
    }
  }

  /** The handlers tried in order: the taker, or the paragraph handler, pops then pushes. */
  lemma {:induction false} TryHandlersPopsThenPushes(st: DocState, palette: Palette, hs: seq<Handler>, line: string)
    returns (k: nat, pushed: seq<ClosingTag>, out: string)
    ensures PopsThenPushes(st, TryHandlers(st, palette, hs, line), k, pushed, out)
  {
    if |hs| == 0 {
      k, pushed, out := ParagraphPopsThenPushes(st, line);
    } else if HandlerParse(st, palette, hs[0], line).0 {
      k, pushed, out := HandlerPopsThenPushes(st, palette, hs[0], line);
    } else {
      k, pushed, out := TryHandlersPopsThenPushes(st, palette, hs[1..], line);
    }
  }

  /** Every line pops the stack down to some depth, emitting exactly the popped entries'
      closing tags, top first, then writes and pushes: the output only ever grows. */
  lemma LineStepPopsThenPushes(st: DocState, palette: Palette, line: string)
    ensures exists k: nat, pushed: seq<ClosingTag>, out: string :: PopsThenPushes(st, LineStep(st, palette, line), k, pushed, out)
  {
    var k, pushed, out := TryHandlersPopsThenPushes(st, palette, Handlers, line);
    assert PopsThenPushes(st, LineStep(st, palette, line), k, pushed, out);
  }

  /** Across lines the output is append-only: what the first lines wrote is never changed. */
  lemma {:induction false} ParseLinesAppendOnly(st: DocState, palette: Palette, lines: seq<string>)
    ensures st.html <= ParseLines(st, palette, lines).html
  {
    if |lines| > 0 {
      var before := ParseLines(st, palette, lines[..|lines| - 1]);
      ParseLinesAppendOnly(st, palette, lines[..|lines| - 1]);
      var k, pushed, out := TryHandlersPopsThenPushes(before, palette, Handlers, lines[|lines| - 1]);
      var after := ParseLines(st, palette, lines);
      assert after.html == before.html + (ClosingText(before.stack[k..]) + out);
    }
  }

  /** The finished document flushes the stack: every block still open is closed, top first. */
  lemma ContentFlushes(st: DocState)
    ensures Content(st) == st.html + ClosingText(st.stack)
  {
    assert st.stack[0..] == st.stack;
  }

  /** The compiled page is the text written line by line, followed by the closing tags of the
      blocks still open at the end, top first; and it begins with what any first lines wrote. */
  lemma ToHtmlFlushes(content: string, n: nat)
    requires n <= |Split(content, '\n')|
    ensures var lines := Split(content, '\n');
            var last := ParseLines(Initial, StylePalette, lines);
            ToHtml(content) == last.html + ClosingText(last.stack)
            && ParseLines(Initial, StylePalette, lines[..n]).html <= ToHtml(content)
  {
    var lines := Split(content, '\n');
    var last := ParseLines(Initial, StylePalette, lines);
    ContentFlushes(last);
    ParseLinesSplit(Initial, StylePalette, lines, n);
    ParseLinesAppendOnly(ParseLines(Initial, StylePalette, lines[..n]), StylePalette, lines[n..]);
  }

  /** Parsing the first `n` lines, then the rest, is parsing them all. */
  lemma {:induction false} ParseLinesSplit(st: DocState, palette: Palette, lines: seq<string>, n: nat)
    requires n <= |lines|
    ensures ParseLines(ParseLines(st, palette, lines[..n]), palette, lines[n..]) == ParseLines(st, palette, lines)
    decreases |lines|
  {
    if n < |lines| {
      var m := |lines| - 1;
      ParseLinesSplit(st, palette, lines[..m], n);
      assert lines[..m][..n] == lines[..n];
      assert lines[n..][..|lines[n..]| - 1] == lines[..m][n..];
      assert lines[n..][|lines[n..]| - 1] == lines[m];
    } else {
      assert lines[..n] == lines;
      assert lines[n..] == [];
    }
  }

  // ---------------------------------------------------------------------------
  // Line dispatch

  /** A handler that declines a line leaves the document untouched. */
  lemma DeclineKeepsState(st: DocState, palette: Palette, h: Handler, line: string)
    ensures !HandlerParse(st, palette, h, line).0 ==> HandlerParse(st, palette, h, line).1 == st
  {
  }

  /** The first handler decides a line when it takes it; otherwise the rest are tried on the
      unchanged document. */
  lemma TryFirst(st: DocState, palette: Palette, hs: seq<Handler>, line: string)
    requires |hs| > 0
    ensures var (parsed, r) := HandlerParse(st, palette, hs[0], line);
            TryHandlers(st, palette, hs, line) == (if parsed then r else TryHandlers(r, palette, hs[1..], line))
  {
    DeclineKeepsState(st, palette, hs[0], line);
  }

  /** The handler loop's step at position `n`: a taking handler decides the line; a declining
      one leaves the document unchanged and hands on to the next. */
  lemma TryAt(st: DocState, palette: Palette, hs: seq<Handler>, line: string, n: nat)
    requires n < |hs|
    ensures HandlerParse(st, palette, hs[n], line).0 ==>
              TryHandlers(st, palette, hs[n..], line) == HandlerParse(st, palette, hs[n], line).1
    ensures !HandlerParse(st, palette, hs[n], line).0 ==>
              HandlerParse(st, palette, hs[n], line).1 == st
              && TryHandlers(st, palette, hs[n..], line) == TryHandlers(st, palette, hs[n + 1..], line)
  {
    assert hs[n..][1..] == hs[n + 1..];
    TryFirst(st, palette, hs[n..], line);
    DeclineKeepsState(st, palette, hs[n], line);
  }

  /** Handlers that decline the line are passed over in order. */
  lemma {:induction false} SkipDeclining(st: DocState, palette: Palette, hs: seq<Handler>, line: string, n: nat)
    requires n <= |hs|
    requires forall i :: 0 <= i < n ==> !HandlerParse(st, palette, hs[i], line).0
    ensures TryHandlers(st, palette, hs, line) == TryHandlers(st, palette, hs[n..], line)
  {
    if n > 0 {
      assert !HandlerParse(st, palette, hs[0], line).0;
      SkipDeclining(st, palette, hs[1..], line, n - 1);
      assert hs[1..][n - 1..] == hs[n..];
    }
  }

  /** Handlers whose mark the line does not carry are passed over in order. */
  lemma SkipRejecting(st: DocState, palette: Palette, hs: seq<Handler>, line: string, n: nat)
    requires n <= |hs|
    requires forall i :: 0 <= i < n ==> !MatchMark(line, hs[i].mark, hs[i].downlevelMark).ok
    ensures TryHandlers(st, palette, hs, line) == TryHandlers(st, palette, hs[n..], line)
  {
    forall i | 0 <= i < n
      ensures !HandlerParse(st, palette, hs[i], line).0
    {
      assert !MatchMark(line, hs[i].mark, hs[i].downlevelMark).ok;
    }
    SkipDeclining(st, palette, hs, line, n);
  }

  /** A line that no handler accepts goes to the paragraph handler. */
  lemma UnmatchedLineIsParagraph(st: DocState, palette: Palette, line: string)
    requires forall i :: 0 <= i < |Handlers| ==> !MatchMark(line, Handlers[i].mark, Handlers[i].downlevelMark).ok
    ensures LineStep(st, palette, line) == ParagraphParse(st, ParagraphHandler, line)
  {
    SkipRejecting(st, palette, Handlers, line, |Handlers|);
  }

  /** A handler without indent token rejects a line that differs from its mark at position k. */
  lemma PlainRejects(line: string, mark: string, k: nat)
    requires k < |mark| && (k >= |line| || line[k] != mark[k])
    ensures !MatchMark(line, mark, "").ok
  {
    assert |mark| <= |line| ==> line[..|mark|][k] == line[k];
  }

  /** An indent-aware handler rejects a line whose first character starts neither its mark nor
      the indent token. */
  lemma IndentRejects(line: string, mark: string)
    requires |line| > 0 && |mark| > 0 && line[0] != mark[0] && line[0] != Indent[0]
    ensures !MatchMark(line, mark, Indent).ok
  {
    assert Rep(Indent, 0) + mark == mark;
    assert Rep(Indent, 1) == Indent;
    assert |mark| <= |line| ==> line[..|mark|][0] == line[0];
    assert |Indent| <= |line| ==> line[..|Indent|][0] == line[0];
  }

  /** The indent scan stops at iteration k when another mark follows k indents. */
  lemma ScanStopsAtOtherMark(line: string, mark: string, t: string, other: string, k: nat)
    requires |t| > 0 && |mark| > 0 && |other| > 0 && other[0] != mark[0] && other[0] != t[0]
    requires StartsWith(line, Rep(t, k) + other)
    ensures IndentScan(line, mark, t, k) == NotHandled
  {
    var n := |Rep(t, k)|;
    assert line[n] == other[0] by {
      assert line[..n + |other|][n] == (Rep(t, k) + other)[n];
    }
    RepSucc(t, k);
    assert |Rep(t, k) + mark| <= |line| ==> line[..|Rep(t, k) + mark|][n] == line[n];
    assert (Rep(t, k) + mark)[n] == mark[0];
    assert |Rep(t, k + 1)| <= |line| ==> line[..|Rep(t, k + 1)|][n] == line[n];
    assert Rep(t, k + 1)[n] == t[0];
  }

  /** An indent-aware handler rejects a line made of indents followed by a different mark. */
  lemma {:induction false} ScanRejectsOtherMark(line: string, mark: string, t: string, other: string, j: nat, k: nat)
    requires |t| > 0 && |mark| > 0 && |other| > 0 && other[0] != mark[0] && other[0] != t[0] && mark[0] != t[0]
    requires j <= k && StartsWith(line, Rep(t, k) + other)
    ensures IndentScan(line, mark, t, j) == NotHandled
    decreases k - j
  {
    if j < k {
      ScanPassesIndentBefore(line, mark, t, other, j, k);
      ScanRejectsOtherMark(line, mark, t, other, j + 1, k);
    } else {
      ScanStopsAtOtherMark(line, mark, t, other, k);
    }
  }

  /** A line rejected by its first character: it starts none of the first n marks, nor the
      indent token when the indent-aware handlers are among them. */
  lemma FirstCharRejects(line: string, n: nat)
    requires n <= |Handlers| && |line| > 0
    requires forall i :: 0 <= i < n ==> line[0] != Handlers[i].mark[0]
    requires n > 5 ==> line[0] != Indent[0]
    ensures forall i :: 0 <= i < n ==> !MatchMark(line, Handlers[i].mark, Handlers[i].downlevelMark).ok
  {
    forall i | 0 <= i < n
      ensures !MatchMark(line, Handlers[i].mark, Handlers[i].downlevelMark).ok
    {
      if i == 5 || i == 6 {
        IndentRejects(line, Handlers[i].mark);
      } else {
        PlainRejects(line, Handlers[i].mark, 0);
      }
    }
  }

  /** A non-empty line whose first character is none of `#`, `[`, `!`, `:`, `/`, `-` or a space
      is paragraph text. */
  lemma PlainLineIsParagraph(st: DocState, palette: Palette, line: string)
    requires |line| > 0 && line[0] !in "#[!:/- "
    ensures LineStep(st, palette, line) == ParagraphParse(st, ParagraphHandler, line)
  {
    FirstCharRejects(line, |Handlers|);
    UnmatchedLineIsParagraph(st, palette, line);
  }

  /** A blank line only closes everything that is open. */
  lemma BlankLine(st: DocState, palette: Palette)
    ensures LineStep(st, palette, "") == Rollback(st, 0)
  {
    forall i | 0 <= i < |Handlers|
      ensures !MatchMark("", Handlers[i].mark, Handlers[i].downlevelMark).ok
    {
      if i == 5 || i == 6 {
        assert |Rep(Indent, 0)| == 0;
      } else {
        PlainRejects("", Handlers[i].mark, 0);
      }
    }
    UnmatchedLineIsParagraph(st, palette, "");
  }

  /** The first handler that accepts the line decides it. */
  lemma AcceptedFirst(st: DocState, palette: Palette, hs: seq<Handler>, line: string)
    requires |hs| > 0 && HandlerParse(st, palette, hs[0], line).0
    ensures TryHandlers(st, palette, hs, line) == HandlerParse(st, palette, hs[0], line).1
  {
  }

  /** A line carrying the mark of header n is rejected by the shorter header marks before it. */
  lemma ShorterHeadersReject(n: nat, title: string)
    requires n < 4
    ensures forall i :: 0 <= i < n ==>
      !MatchMark(Handlers[n].mark + title, Handlers[i].mark, Handlers[i].downlevelMark).ok
  {
    var line := Handlers[n].mark + title;
    forall i | 0 <= i < n
      ensures !MatchMark(line, Handlers[i].mark, Handlers[i].downlevelMark).ok
    {
      assert Handlers[n].mark[i + 1] == '#';
      assert line[i + 1] == Handlers[n].mark[i + 1];
      PlainRejects(line, Handlers[i].mark, i + 1);
    }
  }

  lemma HeaderLineDispatch(st: DocState, palette: Palette, n: nat, title: string)
    requires n < 4
    ensures LineStep(st, palette, Handlers[n].mark + title) == HeaderStep(st, Handlers[n], title)
  {
    var line := Handlers[n].mark + title;
    var h := Handlers[n];
    ShorterHeadersReject(n, title);
    assert h.downlevelMark == "" && IsHeader(h.kind);
    assert MatchMark(line, h.mark, h.downlevelMark) == Handled(true, title, 0);
    HandlerParseOnMatch(st, palette, h, line, title, 0);
    FirstTaker(st, palette, Handlers, line, n);
  }

  /** A header line (`# `, `## `, `### `, `#### `) closes everything that is open, restarts the
      paragraph numbering and emits the formatted title in its `h1`..`h4` element. */
  lemma HeaderLine(st: DocState, palette: Palette, n: nat, title: string)
    requires n < 4
    ensures var h := Handlers[n];
            var r := LineStep(st, palette, h.mark + title);
            r.stack == [] && r.lineCount == 0 && r.classes == st.classes
            && r.html == st.html + ClosingText(st.stack) + ("<" + h.tag + ">") + FormatTitle(title) + ("</" + h.tag + ">\n")
  {
    HeaderLineDispatch(st, palette, n, title);
    assert st.stack[0..] == st.stack;
  }

  lemma AuthorLineDispatch(st: DocState, palette: Palette, payload: string)
    ensures LineStep(st, palette, "[author] " + payload) == AuthorStep(st, Handlers[4], payload)
  {
    var line := "[author] " + payload;
    FirstCharRejects(line, 4);
    var h := Handlers[4];
    assert MatchMark(line, h.mark, h.downlevelMark) == Handled(true, payload, 0);
    HandlerParseOnMatch(st, palette, h, line, payload, 0);
    FirstTaker(st, palette, Handlers, line, 4);
  }

  lemma AuthorStepEffect(st: DocState, h: Handler, payload: string)
    requires h.tag == "p"
    ensures var r := AuthorStep(st, h, payload);
            r.stack == [] && r.lineCount == st.lineCount && r.classes == st.classes
            && r.html == st.html + ClosingText(st.stack) + "<p class=\"author\">" + FormatAuthor(payload) + "</p>\n"
  {
    assert st.stack[0..] == st.stack;
    assert "<" + h.tag + " class=\"author\">" == "<p class=\"author\">";
    assert "</" + h.tag + ">\n" == "</p>\n";
  }

  /** An author line closes everything that is open and emits the formatted byline; it does not
      restart the paragraph numbering. */
  lemma AuthorLine(st: DocState, palette: Palette, payload: string)
    ensures var r := LineStep(st, palette, "[author] " + payload);
            r.stack == [] && r.lineCount == st.lineCount && r.classes == st.classes
            && r.html == st.html + ClosingText(st.stack) + "<p class=\"author\">" + FormatAuthor(payload) + "</p>\n"
  {
    AuthorLineDispatch(st, palette, payload);
    var h := Handlers[4];
    assert h.tag == "p";
    AuthorStepEffect(st, h, payload);
  }

  /** A note line leaves the document untouched. */
  lemma NoteLine(st: DocState, palette: Palette, text: string)
    ensures LineStep(st, palette, "// " + text) == st
  {
    var line := "// " + text;
    assert line[0] == '/';
    FirstCharRejects(line, 7);
    var h := Handlers[7];
    assert MatchMark(line, h.mark, h.downlevelMark) == Handled(true, text, 0);
    HandlerParseOnMatch(st, palette, h, line, text, 0);
    FirstTaker(st, palette, Handlers, line, 7);
  }

  lemma BreakLineDispatch(st: DocState, palette: Palette, rest: string)
    ensures LineStep(st, palette, "---" + rest) == BreakStep(st, Handlers[8])
  {
    var line := "---" + rest;
    assert line[0] == '-';
    FirstCharRejects(line, 8);
    var h := Handlers[8];
    assert MatchMark(line, h.mark, h.downlevelMark) == Handled(true, rest, 0);
    HandlerParseOnMatch(st, palette, h, line, rest, 0);
    FirstTaker(st, palette, Handlers, line, 8);
  }

  /** A break line closes everything that is open and emits `<hr>`; whatever follows the three
      dashes is dropped. */
  lemma BreakLine(st: DocState, palette: Palette, rest: string)
    ensures var r := LineStep(st, palette, "---" + rest);
            r.stack == [] && r.lineCount == st.lineCount && r.classes == st.classes
            && r.html == st.html + ClosingText(st.stack) + "<hr>\n"
  {
    BreakLineDispatch(st, palette, rest);
    assert st.stack[0..] == st.stack;
    assert "<" + Handlers[8].tag + ">" == "<hr>";
  }

  /** The first character of `indent^k + rest`. */
  lemma IndentedFirst(k: nat, rest: string)
    requires |rest| > 0
    ensures (Rep(Indent, k) + rest)[0] == (if k > 0 then Indent[0] else rest[0])
  {
  }

  /** What a handler does with a line it accepts, by its kind. */
  lemma HandlerParseOnMatch(st: DocState, palette: Palette, h: Handler, line: string, content: string, level: nat)
    requires MatchMark(line, h.mark, h.downlevelMark) == Handled(true, content, level)
    ensures IsHeader(h.kind) ==> HandlerParse(st, palette, h, line) == (true, HeaderStep(st, h, content))
    ensures h.kind == Author ==> HandlerParse(st, palette, h, line) == (true, AuthorStep(st, h, content))
    ensures h.kind == AnnotationHeader ==>
              HandlerParse(st, palette, h, line) == AnnotationHeaderParse(st, palette, h, content, level)
    ensures h.kind == Annotation ==>
              HandlerParse(st, palette, h, line) == AnnotationParse(st, palette, h, content, level)
    ensures h.kind == Note ==> HandlerParse(st, palette, h, line) == (true, st)
    ensures h.kind == Break ==> HandlerParse(st, palette, h, line) == (true, BreakStep(st, h))
  {
    match h.kind {
      case AnnotationHeader =>
      case Annotation =>
      case _ =>
    }
  }

  /** A handler whose mark the line does not carry declines it. */
  lemma RejectedDeclines(st: DocState, palette: Palette, h: Handler, line: string)
    requires !MatchMark(line, h.mark, h.downlevelMark).ok
    ensures HandlerParse(st, palette, h, line) == (false, st)
  {
  }

  /** When the handlers before position n reject the line and the one at n takes it, that
      handler decides the line. */
  lemma FirstTaker(st: DocState, palette: Palette, hs: seq<Handler>, line: string, n: nat)
    requires n < |hs|
    requires forall i :: 0 <= i < n ==> !MatchMark(line, hs[i].mark, hs[i].downlevelMark).ok
    requires HandlerParse(st, palette, hs[n], line).0
    ensures TryHandlers(st, palette, hs, line) == HandlerParse(st, palette, hs[n], line).1
  {
    SkipRejecting(st, palette, hs, line, n);
    assert hs[n..][0] == hs[n];
    AcceptedFirst(st, palette, hs[n..], line);
  }

  /** `indent^k + "!!! " + payload` reaches the annotation-header handler at level k; when that
      handler takes it (it declines a nested header on an empty stack), the line is decided. */
  lemma AnnotationHeaderLineDispatch(st: DocState, palette: Palette, k: nat, payload: string)
    requires !(|st.stack| == 0 && k > 0)
    ensures LineStep(st, palette, Rep(Indent, k) + "!!! " + payload)
         == AnnotationHeaderParse(st, palette, Handlers[5], payload, k).1
  {
    var p := Rep(Indent, k) + "!!! ";
    var line := p + payload;
    IndentedFirst(k, "!!! ");
    assert line[0] == p[0];
    FirstCharRejects(line, 5);
    assert line[..|p|] == p;
    IndentedMatchesAtLevel(line, "!!! ", Indent, k);
    assert line[|Rep(Indent, k)| + 4..] == payload;
    HandlerParseOnMatch(st, palette, Handlers[5], line, payload, k);
    FirstTaker(st, palette, Handlers, line, 5);
  }

  /** `indent^k + "::: " + text` reaches the annotation handler at level k. */
  lemma AnnotationLineDispatch(st: DocState, palette: Palette, k: nat, text: string)
    requires !(|st.stack| == 0 && k > 0)
    ensures LineStep(st, palette, Rep(Indent, k) + "::: " + text)
         == AnnotationParse(st, palette, Handlers[6], text, k).1
  {
    var p := Rep(Indent, k) + "::: ";
    var line := p + text;
    IndentedFirst(k, "::: ");
    assert line[0] == p[0];
    assert line[..|p|] == p;
    forall i | 0 <= i < 6
      ensures !MatchMark(line, Handlers[i].mark, Handlers[i].downlevelMark).ok
    {
      if i == 5 {
        ScanRejectsOtherMark(line, "!!! ", Indent, "::: ", 0, k);
      } else {
        PlainRejects(line, Handlers[i].mark, 0);
      }
    }
    IndentedMatchesAtLevel(line, "::: ", Indent, k);
    assert line[|Rep(Indent, k)| + 4..] == text;
    HandlerParseOnMatch(st, palette, Handlers[6], line, text, k);
    FirstTaker(st, palette, Handlers, line, 6);
  }

  /** The annotation-header handler declines a nested header when nothing is open. */
  lemma OrphanNestedHeaderDeclined(st: DocState, palette: Palette, k: nat, payload: string)
    requires |st.stack| == 0 && k > 0
    ensures !HandlerParse(st, palette, Handlers[5], Rep(Indent, k) + "!!! " + payload).0
  {
    var p := Rep(Indent, k) + "!!! ";
    var line := p + payload;
    assert line[..|p|] == p;
    IndentedMatchesAtLevel(line, "!!! ", Indent, k);
    assert line[|Rep(Indent, k)| + 4..] == payload;
    HandlerParseOnMatch(st, palette, Handlers[5], line, payload, k);
  }

  /** Every handler declines a nested annotation header when nothing is open. */
  lemma OrphanNestedHeaderDeclinedByAll(st: DocState, palette: Palette, k: nat, payload: string)
    requires |st.stack| == 0 && k > 0
    ensures var line := Rep(Indent, k) + "!!! " + payload;
            forall i :: 0 <= i < |Handlers| ==> !HandlerParse(st, palette, Handlers[i], line).0
  {
    var p := Rep(Indent, k) + "!!! ";
    var line := p + payload;
    IndentedFirst(k, "!!! ");
    assert line[0] == p[0] == ' ';
    assert line[..|p|] == p;
    OrphanNestedHeaderDeclined(st, palette, k, payload);
    PlainHandlers();
    forall i | 0 <= i < |Handlers|
      ensures !HandlerParse(st, palette, Handlers[i], line).0
    {
      if i == 6 {
        ScanRejectsOtherMark(line, "::: ", Indent, "!!! ", 0, k);
        RejectedDeclines(st, palette, Handlers[i], line);
      } else if i != 5 {
        PlainHandlerDeclines(st, palette, Handlers[i], line);
      }
    }
  }

  /** Every handler but the two indent-aware ones matches its mark plainly, and no mark starts
      with a space. */
  lemma PlainHandlers()
    ensures forall i :: 0 <= i < |Handlers| && i != 5 && i != 6 ==>
              Handlers[i].downlevelMark == "" && |Handlers[i].mark| > 0 && Handlers[i].mark[0] != ' '
  {
  }

  /** A plain handler declines a line whose first character does not start its mark. */
  lemma PlainHandlerDeclines(st: DocState, palette: Palette, h: Handler, line: string)
    requires h.downlevelMark == "" && |h.mark| > 0 && |line| > 0 && line[0] != h.mark[0]
    ensures !HandlerParse(st, palette, h, line).0
  {
    PlainRejects(line, h.mark, 0);
    RejectedDeclines(st, palette, h, line);
  }

  /** A nested annotation header with nothing open is declined by its handler, and the whole
      line, indent and mark included, becomes the text of a new paragraph. */
  lemma OrphanNestedHeaderIsParagraph(st: DocState, palette: Palette, k: nat, payload: string)
    requires |st.stack| == 0 && k > 0
    ensures LineStep(st, palette, Rep(Indent, k) + "!!! " + payload)
         == ParagraphParse(st, ParagraphHandler, Rep(Indent, k) + "!!! " + payload)
  {
    OrphanNestedHeaderDeclinedByAll(st, palette, k, payload);
    SkipDeclining(st, palette, Handlers, Rep(Indent, k) + "!!! " + payload, |Handlers|);
  }

  /** The annotation handler declines a nested annotation line when nothing is open. */
  lemma OrphanNestedAnnotationDeclinedByHandler(st: DocState, palette: Palette, k: nat, payload: string)
    requires |st.stack| == 0 && k > 0
    ensures !HandlerParse(st, palette, Handlers[6], Rep(Indent, k) + "::: " + payload).0
  {
    var p := Rep(Indent, k) + "::: ";
    var line := p + payload;
    assert line[..|p|] == p;
    IndentedMatchesAtLevel(line, "::: ", Indent, k);
    assert line[|Rep(Indent, k)| + 4..] == payload;
    HandlerParseOnMatch(st, palette, Handlers[6], line, payload, k);
  }

  /** Every handler declines a nested annotation line when nothing is open. */
  lemma OrphanNestedAnnotationDeclinedByAll(st: DocState, palette: Palette, k: nat, payload: string)
    requires |st.stack| == 0 && k > 0
    ensures var line := Rep(Indent, k) + "::: " + payload;
            forall i :: 0 <= i < |Handlers| ==> !HandlerParse(st, palette, Handlers[i], line).0
  {
    var p := Rep(Indent, k) + "::: ";
    var line := p + payload;
    IndentedFirst(k, "::: ");
    assert line[0] == p[0] == ' ';
    assert line[..|p|] == p;
    OrphanNestedAnnotationDeclinedByHandler(st, palette, k, payload);
    PlainHandlers();
    forall i | 0 <= i < |Handlers|
      ensures !HandlerParse(st, palette, Handlers[i], line).0
    {
      if i == 5 {
        ScanRejectsOtherMark(line, "!!! ", Indent, "::: ", 0, k);
        RejectedDeclines(st, palette, Handlers[i], line);
      } else if i != 6 {
        PlainHandlerDeclines(st, palette, Handlers[i], line);
      }
    }
  }

  /** A nested annotation line with nothing open is declined by its handler, and the whole
      line, indent and mark included, becomes the text of a new paragraph. */
  lemma OrphanNestedAnnotationIsParagraph(st: DocState, palette: Palette, k: nat, payload: string)
    requires |st.stack| == 0 && k > 0
    ensures LineStep(st, palette, Rep(Indent, k) + "::: " + payload)
         == ParagraphParse(st, ParagraphHandler, Rep(Indent, k) + "::: " + payload)
  {
    OrphanNestedAnnotationDeclinedByAll(st, palette, k, payload);
    SkipDeclining(st, palette, Handlers, Rep(Indent, k) + "::: " + payload, |Handlers|);
  }

  // ---------------------------------------------------------------------------
  // Paragraphs

  /** A paragraph line that does not continue closes everything that is open, advances the
      counter, and opens a paragraph block labelled with the new count. */
  lemma NewParagraph(st: DocState, line: string)
    requires |line| > 0 && !Continues(st.stack)
    ensures var r := ParagraphParse(st, ParagraphHandler, line);
            r.lineCount == st.lineCount + 1 && r.classes == st.classes
            && r.stack == [ClosingTag(Paragraph, "</p>\n</div>\n", 0)]
            && r.html == st.html + ClosingText(st.stack) + ParagraphOpening(ParagraphHandler, st.lineCount + 1) + line
  {
    assert st.stack[0..] == st.stack;
    assert "</p>\n</" + ParagraphHandler.tag + ">\n" == "</p>\n</div>\n";
  }

  /** While an inline annotation is open inside a paragraph, a paragraph line closes the
      annotation entries above the paragraph and appends its raw text to that paragraph: no
      new block and no new id. */
  lemma ParagraphContinuation(st: DocState, line: string)
    requires |line| > 0 && Continues(st.stack)
    ensures var r := ParagraphParse(st, ParagraphHandler, line);
            r.lineCount == st.lineCount && r.classes == st.classes
            && r.stack == st.stack[..1]
            && r.html == st.html + ClosingText(st.stack[1..]) + line
  {
  }

  /** Paragraph numbering restarts after a header: the first paragraph after it is number 1. */
  lemma NumberingRestartsAfterHeader(st: DocState, palette: Palette, n: nat, title: string, line: string)
    requires n < 4 && |line| > 0 && line[0] !in "#[!:/- "
    ensures var afterHeader := LineStep(st, palette, Handlers[n].mark + title);
            var r := LineStep(afterHeader, palette, line);
            r.lineCount == 1 && r.stack == [ClosingTag(Paragraph, "</p>\n</div>\n", 0)]
            && r.html == afterHeader.html + ParagraphOpening(ParagraphHandler, 1) + line
  {
    var afterHeader := LineStep(st, palette, Handlers[n].mark + title);
    HeaderLine(st, palette, n, title);
    assert afterHeader.stack == [] && afterHeader.lineCount == 0;
    PlainLineIsParagraph(afterHeader, palette, line);
    NewParagraph(afterHeader, line);
    assert afterHeader.html + ClosingText(afterHeader.stack) == afterHeader.html;
  }

  // ---------------------------------------------------------------------------
  // Annotation frames

  /** A deeper annotation header nests inside whatever is open: nothing is closed, its opening
      markup and byline follow, and its entry goes on top. */
  lemma DeeperHeaderNests(st: DocState, palette: Palette, h: Handler, content: string, level: nat)
    requires |st.stack| > 0 && level > Top(st.stack).level
    ensures var (ok, r) := AnnotationHeaderParse(st, palette, h, content, level);
            var style := BylineStyle(st, palette, content, level).0;
            ok && r.stack == st.stack + [ClosingTag(h.kind, AnnotationHeaderClosing(h, level), level)]
            && r.html == st.html + AnnotationHeaderOpening(h, level, style) + AnnotationByline(content, level).0
  {
  }

  /** An annotation header at a level no deeper than an open annotation entry closes the frame
      of its own level: the topmost annotation header of that level and everything above it are
      closed, top first, and the new header takes its place. */
  lemma SameLevelHeaderReplacesFrame(st: DocState, palette: Palette, h: Handler, content: string, level: nat, j: nat)
    requires |st.stack| > 0 && IsAnnotation(Top(st.stack).mark) && level <= Top(st.stack).level
    requires j < |st.stack| && IsHeaderAt(st.stack[j], level)
    requires forall i :: j < i < |st.stack| ==> !IsHeaderAt(st.stack[i], level)
    ensures var (ok, r) := AnnotationHeaderParse(st, palette, h, content, level);
            var cleared := Truncate(st, j);
            var style := BylineStyle(cleared, palette, content, level).0;
            ok && r.stack == st.stack[..j] + [ClosingTag(h.kind, AnnotationHeaderClosing(h, level), level)]
            && r.html == st.html + ClosingText(st.stack[j..]) + AnnotationHeaderOpening(h, level, style)
                         + AnnotationByline(content, level).0
  {
    var k := PopThroughHeader(st.stack, level);
    assert k == j;
  }

  /** An annotation header at level 0 over anything but an open annotation entry (a paragraph,
      or nothing) closes everything first. */
  lemma TopLevelHeaderClosesAll(st: DocState, palette: Palette, h: Handler, content: string)
    requires |st.stack| == 0 || !IsAnnotation(Top(st.stack).mark)
    ensures var (ok, r) := AnnotationHeaderParse(st, palette, h, content, 0);
            var style := BylineStyle(Rollback(st, 0), palette, content, 0).0;
            ok && r.stack == [ClosingTag(h.kind, AnnotationHeaderClosing(h, 0), 0)]
            && r.html == st.html + ClosingText(st.stack) + AnnotationHeaderOpening(h, 0, style)
                         + AnnotationByline(content, 0).0
  {
    assert st.stack[0..] == st.stack;
  }

  /** An annotation line in the open frame of its level is added on top, closing nothing. */
  lemma AnnotationInOpenFrame(st: DocState, palette: Palette, h: Handler, content: string, level: nat)
    requires |st.stack| > 0 && IsFrameAt(Top(st.stack), level)
    ensures var (ok, r) := AnnotationParse(st, palette, h, content, level);
            ok && r.classes == st.classes
            && r.stack == st.stack + [ClosingTag(h.kind, AnnotationClosing(h, level), level)]
            && r.html == st.html + AnnotationOpening(h, level) + content
  {
    assert !NeedsDefaultHeader(st.stack, level);
    assert st.stack[..|st.stack|] == st.stack;
  }

  /** Popping down to the current height changes nothing. */
  lemma TruncateNothing(st: DocState)
    ensures Truncate(st, |st.stack|) == st
  {
    assert st.stack[..|st.stack|] == st.stack;
    assert st.stack[|st.stack|..] == [];
  }

  /** Once the top is an annotation entry of the line's level, the annotation clearing keeps
      everything. */
  lemma FrameOnTopKeepsAll(st: DocState, level: nat)
    requires |st.stack| > 0 && IsFrameAt(Top(st.stack), level)
    ensures ClearForAnnotation(st, level) == st
  {
    TruncateNothing(st);
  }

  /** An annotation line whose nearest entry at its level or shallower does not belong to a
      frame of its level first gets a default header of its level, and then goes inside it. */
  lemma AnnotationOutsideFrameGetsHeader(st: DocState, palette: Palette, h: Handler, content: string, level: nat)
    requires NeedsDefaultHeader(st.stack, level)
    ensures var withHeader := InsertDefaultHeader(st, palette, level);
            var (ok, r) := AnnotationParse(st, palette, h, content, level);
            ok && |withHeader.stack| > 0 && IsHeaderAt(Top(withHeader.stack), level)
            && r.stack == withHeader.stack + [ClosingTag(h.kind, AnnotationClosing(h, level), level)]
            && r.html == withHeader.html + AnnotationOpening(h, level) + content
  {
    var withHeader := InsertDefaultHeader(st, palette, level);
    assert |st.stack| > 0;
    assert IsHeaderAt(Top(withHeader.stack), level);
    assert EnsureHeader(st, palette, level) == withHeader;
    FrameOnTopKeepsAll(withHeader, level);
  }

  /** On an empty stack the default header opens a level-0 annotation block styled for the empty
      name, whose style is recorded, with no byline. */
  lemma DefaultHeaderOnEmpty(st: DocState, palette: Palette)
    requires |st.stack| == 0
    ensures var style := StyleLookup(st.classes, palette, "");
            var r := InsertDefaultHeader(st, palette, 0);
            r.classes == style.1 && r.lineCount == st.lineCount
            && r.stack == [ClosingTag(AnnotationHeader, AnnotationHeaderClosing(DefaultHeaderHandler, 0), 0)]
            && r.html == st.html + AnnotationHeaderOpening(DefaultHeaderHandler, 0, style.0)
  {
    DefaultBylineIsEmpty(0);
    TruncateNothing(st);
    assert ClearForHeader(st, 0) == st;
    assert BylineStyle(st, palette, "", 0) == AuthorStyle(st, palette, "");
  }

  /** A top-level annotation line with nothing open is wrapped in a synthesized header: a
      level-0 annotation block styled for the empty name, whose style is recorded. */
  lemma OrphanAnnotationGetsDefaultHeader(st: DocState, palette: Palette, h: Handler, content: string)
    requires |st.stack| == 0
    ensures var style := StyleLookup(st.classes, palette, "");
            var (ok, r) := AnnotationParse(st, palette, h, content, 0);
            ok && r.classes == style.1 && r.lineCount == st.lineCount
            && r.stack == [ClosingTag(AnnotationHeader, AnnotationHeaderClosing(DefaultHeaderHandler, 0), 0),
                           ClosingTag(h.kind, AnnotationClosing(h, 0), 0)]
            && r.html == st.html + AnnotationHeaderOpening(DefaultHeaderHandler, 0, style.0) + AnnotationOpening(h, 0) + content
  {
    var withHeader := InsertDefaultHeader(st, palette, 0);
    DefaultHeaderOnEmpty(st, palette);
    assert EnsureHeader(st, palette, 0) == withHeader;
    FrameOnTopKeepsAll(withHeader, 0);
  }

  /** A nested annotation line with nothing open is declined by its handler. */
  lemma OrphanNestedAnnotationDeclined(st: DocState, palette: Palette, h: Handler, content: string, level: nat)
    requires |st.stack| == 0 && level > 0
    ensures AnnotationParse(st, palette, h, content, level) == (false, st)
    ensures AnnotationHeaderParse(st, palette, h, content, level) == (false, st)
  {
  }

  // ---------------------------------------------------------------------------
  // Annotator styles

  /** The style map after looking up `names` in order. */
  function LookupAll(classes: map<string, string>, palette: Palette, names: seq<string>): map<string, string> {
    if |names| == 0 then classes
    else StyleLookup(LookupAll(classes, palette, names[..|names| - 1]), palette, names[|names| - 1]).1
  }

  /** Once a name has a style, later lookups never change it. */
  lemma {:induction false} StyleStable(classes: map<string, string>, palette: Palette, names: seq<string>, a: string)
    requires a in classes
    ensures a in LookupAll(classes, palette, names) && LookupAll(classes, palette, names)[a] == classes[a]
  {
    if |names| > 0 {
      StyleStable(classes, palette, names[..|names| - 1], a);
    }
  }

  /** The names looked up are exactly the names with a style. */
  lemma {:induction false} LookupAllDomain(palette: Palette, names: seq<string>)
    requires palette.Some? && |palette.value| > 0
    ensures forall a :: a in LookupAll(map[], palette, names) <==> a in names
  {
    if |names| > 0 {
      var init := names[..|names| - 1];
      LookupAllDomain(palette, init);
      assert names == init + [names[|names| - 1]];
    }
  }

  predicate Distinct(names: seq<string>) {
    forall i, j :: 0 <= i < j < |names| ==> names[i] != names[j]
  }

  /** Looking up a name not seen before gives it the next palette entry. */
  lemma LookupNewName(palette: Palette, names: seq<string>)
    requires palette.Some? && |palette.value| > 0
    requires |names| > 0 && names[|names| - 1] !in names[..|names| - 1]
    ensures var prev := LookupAll(map[], palette, names[..|names| - 1]);
            var n := |names| - 1;
            names[n] !in prev
            && LookupAll(map[], palette, names) == prev[names[n] := palette.value[|prev| % |palette.value|]]
  {
    var n := |names| - 1;
    var init := names[..n];
    LookupAllDomain(palette, init);
    var prev := LookupAll(map[], palette, init);
    assert names[n] !in prev;
    assert LookupAll(map[], palette, names) == StyleLookup(prev, palette, names[n]).1;
  }

  /** With a non-empty palette, distinct names get the palette's entries in first-seen order,
      cycling when the palette runs out. */
  lemma {:induction false} StylesInFirstSeenOrder(palette: Palette, names: seq<string>)
    requires palette.Some? && |palette.value| > 0
    requires Distinct(names)
    ensures var m := LookupAll(map[], palette, names);
            |m| == |names|
            && forall i :: 0 <= i < |names| ==> names[i] in m && m[names[i]] == palette.value[i % |palette.value|]
  {
    if |names| > 0 {
      var n := |names| - 1;
      var init := names[..n];
      assert Distinct(init) by {
        assert forall i :: 0 <= i < n ==> init[i] == names[i];
      }
      StylesInFirstSeenOrder(palette, init);
      assert names[n] !in init by {
        assert forall i :: 0 <= i < n ==> init[i] != names[n];
      }
      LookupNewName(palette, names);
      NextStyle(LookupAll(map[], palette, init), LookupAll(map[], palette, names), init, names, palette.value);
    }
  }

  /** Adding the n-th distinct name with the n-th palette entry to a map holding the first n
      names with theirs. */
  lemma NextStyle(prev: map<string, string>, m: map<string, string>, init: seq<string>, names: seq<string>,
                  palette: seq<string>)
    requires |palette| > 0 && |names| > 0 && init == names[..|names| - 1]
    requires |prev| == |init|
    requires forall i :: 0 <= i < |init| ==> init[i] in prev && prev[init[i]] == palette[i % |palette|]
    requires names[|names| - 1] !in prev
    requires m == prev[names[|names| - 1] := palette[|prev| % |palette|]]
    ensures |m| == |names|
    ensures forall i :: 0 <= i < |names| ==> names[i] in m && m[names[i]] == palette[i % |palette|]
  {
    forall i | 0 <= i < |names|
      ensures names[i] in m && m[names[i]] == palette[i % |palette|]
    {
      if i < |init| {
        assert names[i] == init[i] && init[i] in prev;
      }
    }
  }

  /** The four styles of `ToHtml` go to the first four distinct annotators, one each. */
  lemma FourAnnotatorsFourStyles(names: seq<string>)
    requires |names| == 4 && Distinct(names)
    ensures var m := LookupAll(map[], StylePalette, names);
            names[0] in m && names[1] in m && names[2] in m && names[3] in m
            && m[names[0]] == "style01" && m[names[1]] == "style02"
            && m[names[2]] == "style03" && m[names[3]] == "style04"
  {
    StylesInFirstSeenOrder(StylePalette, names);
  }

  /** `newer` keeps every style `older` has recorded. */
  predicate Extends(older: map<string, string>, newer: map<string, string>) {
    forall a :: a in older ==> a in newer && newer[a] == older[a]
  }

  lemma AnnotationHeaderKeepsStyles(st: DocState, palette: Palette, h: Handler, content: string, level: nat)
    ensures Extends(st.classes, AnnotationHeaderParse(st, palette, h, content, level).1.classes)
  {
    if !(|st.stack| == 0 && level > 0) {
      var st1 := ClearForHeader(st, level);
      assert st1.classes == st.classes;
      var annotator := AnnotationByline(content, level).1;
      if annotator.Some? {
        var _ := StyleLookup(st1.classes, palette, annotator.value);
      }
    }
  }

  lemma AnnotationKeepsStyles(st: DocState, palette: Palette, h: Handler, content: string, level: nat)
    ensures Extends(st.classes, AnnotationParse(st, palette, h, content, level).1.classes)
  {
    AnnotationHeaderKeepsStyles(st, palette, DefaultHeaderHandler, "", level);
  }

  lemma HandlerKeepsStyles(st: DocState, palette: Palette, h: Handler, line: string)
    ensures Extends(st.classes, HandlerParse(st, palette, h, line).1.classes)
  {
    var m := MatchMark(line, h.mark, h.downlevelMark);
    if !m.ok {
      RejectedDeclines(st, palette, h, line);
    } else {
      HandlerParseOnMatch(st, palette, h, line, m.content, m.level);
      if h.kind == AnnotationHeader {
        AnnotationHeaderKeepsStyles(st, palette, h, m.content, m.level);
      } else if h.kind == Annotation {
        AnnotationKeepsStyles(st, palette, h, m.content, m.level);
      }
    }
  }

  lemma {:induction false} TryHandlersKeepsStyles(st: DocState, palette: Palette, hs: seq<Handler>, line: string)
    ensures Extends(st.classes, TryHandlers(st, palette, hs, line).classes)
  {
    if |hs| > 0 {
      HandlerKeepsStyles(st, palette, hs[0], line);
      TryHandlersKeepsStyles(st, palette, hs[1..], line);
    }
  }

  /** Within one document an annotator keeps the style it was first given: no later line
      changes a recorded style. */
  lemma {:induction false} ParseLinesKeepsStyles(st: DocState, palette: Palette, lines: seq<string>)
    ensures Extends(st.classes, ParseLines(st, palette, lines).classes)
  {
    if |lines| > 0 {
      var before := ParseLines(st, palette, lines[..|lines| - 1]);
      ParseLinesKeepsStyles(st, palette, lines[..|lines| - 1]);
      TryHandlersKeepsStyles(before, palette, Handlers, lines[|lines| - 1]);
    }
  }
}
