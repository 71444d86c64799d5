/** The chapter-markup compiler as a state machine over values: the document state
    (closing-tag stack, HTML buffer, line counter, style map), one transition per
    handler, the line dispatch and the whole compilation. The class in
    MarkupDocument is proved to follow these transitions. */
module MarkupSpec {
  import opened Text
  import opened MarkupFormat
  import Wrappers

  /** The optional style palette given to the document. */
  type Palette = Wrappers.Option<seq<string>>

  /** The palette `ToHtml` passes. */
  const StylePalette: Palette := Wrappers.Some(["style01", "style02", "style03", "style04"])

  datatype DocState = DocState(stack: seq<ClosingTag>, html: string, lineCount: nat, classes: map<string, string>)

  const Initial := DocState([], "", 0, map[])

  function Top(s: seq<ClosingTag>): ClosingTag
    requires |s| > 0
  {
    s[|s| - 1]
  }

  /** The closing tags of `s` in the order they are emitted when `s` is popped empty: top first. */
  function ClosingText(s: seq<ClosingTag>): string {
    if |s| == 0 then "" else ClosingText(s[1..]) + s[0].closingTag
  }

  /** Pop entries until `k` remain, emitting each popped closing tag. */
  function Truncate(st: DocState, k: nat): DocState
    requires k <= |st.stack|
  {
    st.(stack := st.stack[..k], html := st.html + ClosingText(st.stack[k..]))
  }

  /** `RollbackClosingTags(reservedCount)`: keep the bottom `reserved` entries; 0 (or no
      argument) pops everything. */
  function Rollback(st: DocState, reserved: nat): DocState {
    Truncate(st, if reserved < |st.stack| then reserved else |st.stack|)
  }

  /** `PopClosingTagStack`: on an empty stack the optional chaining yields `undefined`,
      which the string concatenation prints. */
  function Pop(st: DocState): DocState {
    if |st.stack| == 0 then st.(html := st.html + "undefined") else Truncate(st, |st.stack| - 1)
  }

  function Push(st: DocState, mark: MarkType, closingTag: string, level: nat): DocState {
    st.(stack := st.stack + [ClosingTag(mark, closingTag, level)])
  }

  function AddContent(st: DocState, openingTag: string, content: string, closingTag: string): DocState {
    st.(html := st.html + openingTag + content + closingTag)
  }

  /** `getAuthorStyle` on a style map: cached name, next palette entry, or "" without a palette. */
  function StyleLookup(classes: map<string, string>, palette: Palette, author: string): (r: (string, map<string, string>))
    ensures forall a :: a in classes ==> a in r.1 && r.1[a] == classes[a]
    ensures palette.Some? && |palette.value| != 0 ==>
              author in r.1 && r.0 == r.1[author] && r.1.Keys == classes.Keys + {author}
    ensures palette.Some? && |palette.value| != 0 && author in classes ==> r == (classes[author], classes)
    ensures palette.Some? && |palette.value| != 0 && author !in classes ==>
              r.0 == palette.value[|classes| % |palette.value|]
    ensures palette.None? || |palette.value| == 0 ==> r == ("", classes)
  {
    if palette.Some? && |palette.value| != 0 then
      if author in classes then (classes[author], classes)
      else
        var c := palette.value[|classes| % |palette.value|];
        (c, classes[author := c])
    else
      ("", classes)
  }

  function AuthorStyle(st: DocState, palette: Palette, author: string): (string, DocState) {
    var (style, classes) := StyleLookup(st.classes, palette, author);
    (style, st.(classes := classes))
  }

  /** `getLineCount`: increment, then return the new value. */
  function NextLineCount(st: DocState): (nat, DocState) {
    (st.lineCount + 1, st.(lineCount := st.lineCount + 1))
  }

  // ---------------------------------------------------------------------------
  // Handlers

  function HeaderStep(st: DocState, h: Handler, content: string): DocState {
    var st1 := st.(lineCount := 0);
    var st2 := Rollback(st1, 0);
    AddContent(st2, "<" + h.tag + ">", FormatTitle(content), "</" + h.tag + ">\n")
  }

  function AuthorStep(st: DocState, h: Handler, content: string): DocState {
    AddContent(Rollback(st, 0), "<" + h.tag + " class=\"author\">", FormatAuthor(content), "</" + h.tag + ">\n")
  }

  function BreakStep(st: DocState, h: Handler): DocState {
    AddContent(Rollback(st, 0), "<" + h.tag + ">", "", "\n")
  }

  predicate IsHeaderAt(e: ClosingTag, level: nat) {
    e.mark == AnnotationHeader && e.level == level
  }

  predicate IsFrameAt(e: ClosingTag, level: nat) {
    IsAnnotation(e.mark) && e.level == level
  }

  /** How many entries the annotation-header pop loop leaves: it pops until it has popped an
      annotation header of the given level, or the stack is empty. */
  function PopThroughHeader(s: seq<ClosingTag>, level: nat): (k: nat)
    ensures k <= |s|
    ensures forall j :: k < j < |s| ==> !IsHeaderAt(s[j], level)
    ensures (exists j :: 0 <= j < |s| && IsHeaderAt(s[j], level)) ==> k < |s| && IsHeaderAt(s[k], level)
    ensures (forall j :: 0 <= j < |s| ==> !IsHeaderAt(s[j], level)) ==> k == 0
  {
    if |s| == 0 then 0
    else if IsHeaderAt(Top(s), level) then |s| - 1
    else PopThroughHeader(s[..|s| - 1], level)
  }

  /** How many entries the annotation pop loop leaves: it pops until the top is an annotation
      entry of the given level (left in place), or the stack is empty. */
  function KeepThroughFrame(s: seq<ClosingTag>, level: nat): (k: nat)
    ensures k <= |s|
    ensures forall j :: k <= j < |s| ==> !IsFrameAt(s[j], level)
    ensures k > 0 ==> IsFrameAt(s[k - 1], level)
  {
    if |s| == 0 then 0
    else if IsFrameAt(Top(s), level) then |s|
    else KeepThroughFrame(s[..|s| - 1], level)
  }

  /** The annotation handler's search from the top for the nearest entry of level at most
      `level`: a default header is needed when that entry is not an annotation entry of this
      very level; when every entry is deeper, nothing is inserted. */
  function NeedsDefaultHeader(s: seq<ClosingTag>, level: nat): (b: bool)
    ensures b <==> exists j :: 0 <= j < |s| && s[j].level <= level && !IsFrameAt(s[j], level)
                                && forall i :: j < i < |s| ==> s[i].level > level
  {
    if |s| == 0 then false
    else if Top(s).level <= level then !IsFrameAt(Top(s), level)
    else
      var b := NeedsDefaultHeader(s[..|s| - 1], level);
      assert forall j :: 0 <= j < |s| - 1 ==> s[..|s| - 1][j] == s[j];
      b
  }

  /** The search stops at an entry of at most `level`: whether a header is needed is decided
      by that entry alone. */
  lemma NeedsAtEntry(s: seq<ClosingTag>, i: int, level: nat)
    requires 0 <= i < |s| && s[i].level <= level
    ensures NeedsDefaultHeader(s[..i + 1], level) == !IsFrameAt(s[i], level)
  {
    assert Top(s[..i + 1]) == s[i];
  }

  /** The search passes over a deeper entry. */
  lemma NeedsPastDeeper(s: seq<ClosingTag>, i: int, level: nat)
    requires 0 <= i < |s| && s[i].level > level
    ensures NeedsDefaultHeader(s[..i + 1], level) == NeedsDefaultHeader(s[..i], level)
  {
    assert Top(s[..i + 1]) == s[i];
    assert s[..i + 1][..i] == s[..i];
  }

  function AnnotationHeaderOpening(h: Handler, level: nat, style: string): string {
    if level == 0 then "<" + h.tag + " class=\"annotation " + style + "\">\n"
    else "  <" + h.downlevelTag + " class=\"annotation inner " + style + "\">"
  }

  function AnnotationHeaderClosing(h: Handler, level: nat): string {
    if level == 0 then "</" + h.tag + ">\n" else "</" + h.downlevelTag + ">\n"
  }

  /** The style of an annotation header: looked up under the byline's name, if it has one. */
  function BylineStyle(st: DocState, palette: Palette, content: string, level: nat): (string, DocState) {
    var annotator := AnnotationByline(content, level).1;
    if annotator.Some? then AuthorStyle(st, palette, annotator.value) else ("", st)
  }

  /** The stack handling before an annotation header opens: nothing for a deeper level; for a
      level at most the top's, pop through the matching header when the top is an annotation
      entry, otherwise close everything. */
  function ClearForHeader(st: DocState, level: nat): DocState {
    var lastMark := if |st.stack| > 0 then Top(st.stack).mark else None;
    var lastLevel := if |st.stack| > 0 then Top(st.stack).level else 0;
    if level <= lastLevel then
      (if IsAnnotation(lastMark) then Truncate(st, PopThroughHeader(st.stack, level)) else Rollback(st, 0))
    else st
  }

  /** `_Parse(content, level)` of the annotation-header handler. */
  function AnnotationHeaderParse(st: DocState, palette: Palette, h: Handler, content: string, level: nat): (bool, DocState) {
    if |st.stack| == 0 && level > 0 then (false, st)
    else
      var st1 := ClearForHeader(st, level);
      var (style, st2) := BylineStyle(st1, palette, content, level);
      var st3 := AddContent(st2, AnnotationHeaderOpening(h, level, style), AnnotationByline(content, level).0, "");
      (true, Push(st3, h.kind, AnnotationHeaderClosing(h, level), level))
  }

  function InsertDefaultHeader(st: DocState, palette: Palette, level: nat): DocState {
    AnnotationHeaderParse(st, palette, DefaultHeaderHandler, "", level).1
  }

  function AnnotationOpening(h: Handler, level: nat): string {
    if level == 0 then "  <" + h.tag + ">" else "<" + h.downlevelTag + ">"
  }

  function AnnotationClosing(h: Handler, level: nat): string {
    if level == 0 then "</" + h.tag + ">\n" else "</" + h.downlevelTag + ">\n"
  }

  /** An annotation body on an empty stack (level 0 only), or whose nearest entry of at most its
      level is not an annotation entry of that level, first gets a default header. */
  function EnsureHeader(st: DocState, palette: Palette, level: nat): DocState {
    if |st.stack| == 0 || NeedsDefaultHeader(st.stack, level) then InsertDefaultHeader(st, palette, level)
    else st
  }

  /** The stack handling before an annotation body opens, after any default header: nothing for
      a deeper level; otherwise pop down to the nearest annotation entry of this level when the
      top is an annotation entry, or close everything. */
  function ClearForAnnotation(st: DocState, level: nat): DocState {
    var lastMark := if |st.stack| > 0 then Top(st.stack).mark else None;
    var lastLevel := if |st.stack| > 0 then Top(st.stack).level else 0;
    if level <= lastLevel then
      (if IsAnnotation(lastMark) then Truncate(st, KeepThroughFrame(st.stack, level)) else Rollback(st, 0))
    else st
  }

  /** `Parse` of the annotation-body handler, after `CanHandle` has accepted the line. */
  function AnnotationParse(st: DocState, palette: Palette, h: Handler, content: string, level: nat): (bool, DocState) {
    if |st.stack| == 0 && level > 0 then (false, st)
    else
      var st1 := EnsureHeader(st, palette, level);
      var st2 := ClearForAnnotation(st1, level);
      var st3 := AddContent(st2, AnnotationOpening(h, level), content, "");
      (true, Push(st3, h.kind, AnnotationClosing(h, level), level))
  }

  /** Does a non-empty paragraph line continue the open paragraph? */
  predicate Continues(s: seq<ClosingTag>) {
    |s| > 0 && IsAnnotation(Top(s).mark) && Top(s).level > 0 && s[0].mark == Paragraph
  }

  function ParagraphOpening(h: Handler, id: nat): string {
    "<" + h.tag + " class=\"paragraph-div\">\n  <p><span class=\"id\">" + NatToString(id) + "</span></p>\n  <p class=\"paragraph\">"
  }

  /** `Parse` of the paragraph handler. */
  function ParagraphParse(st: DocState, h: Handler, line: string): DocState {
    if |line| == 0 then Rollback(st, 0)
    else if Continues(st.stack) then AddContent(Rollback(st, 1), "", line, "")
    else
      var st1 := Rollback(st, 0);
      var (id, st2) := NextLineCount(st1);
      var st3 := AddContent(st2, ParagraphOpening(h, id), line, "");
      Push(st3, h.kind, "</p>\n</" + h.tag + ">\n", 0)
  }

  /** One handler's `Parse(line)`: whether it took the line, and the new state. */
  function HandlerParse(st: DocState, palette: Palette, h: Handler, line: string): (bool, DocState) {
    var m := MatchMark(line, h.mark, h.downlevelMark);
    if !m.ok then (false, st)
    else match h.kind
      case Header1 => (true, HeaderStep(st, h, m.content))
      case Header2 => (true, HeaderStep(st, h, m.content))
      case Header3 => (true, HeaderStep(st, h, m.content))
      case Header4 => (true, HeaderStep(st, h, m.content))
      case Author => (true, AuthorStep(st, h, m.content))
      case AnnotationHeader => AnnotationHeaderParse(st, palette, h, m.content, m.level)
      case Annotation => AnnotationParse(st, palette, h, m.content, m.level)
      case Note => (true, st)
      case Break => (true, BreakStep(st, h))
      case _ => (false, st)
  }

  /** Try the handlers in order; the first that takes the line wins, else the paragraph handler. */
  function TryHandlers(st: DocState, palette: Palette, hs: seq<Handler>, line: string): DocState {
    if |hs| == 0 then ParagraphParse(st, ParagraphHandler, line)
    else
      var (parsed, st1) := HandlerParse(st, palette, hs[0], line);
      if parsed then st1 else TryHandlers(st, palette, hs[1..], line)
  }

  function LineStep(st: DocState, palette: Palette, line: string): DocState {
    TryHandlers(st, palette, Handlers, line)
  }

  function ParseLines(st: DocState, palette: Palette, lines: seq<string>): DocState {
    if |lines| == 0 then st
    else LineStep(ParseLines(st, palette, lines[..|lines| - 1]), palette, lines[|lines| - 1])
  }

  /** `GetContent`: flush the whole stack, then the buffer. */
  function Content(st: DocState): string {
    Rollback(st, 0).html
  }

  /** `BookMarkdownDocument.ToHtml`. */
  function ToHtml(content: string): string {
    Content(ParseLines(Initial, StylePalette, Split(content, '\n')))
  }
}
