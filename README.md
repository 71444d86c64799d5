# Classical-text library: chapter markup compiler and keyword search, in Dafny

This project models two parts of the book library and proves properties about them.

**The chapter-markup compiler** (`BookMarkdownParser.ts`) turns a chapter written in a
line-oriented markup into HTML:

- Headers `#`..`####`, author bylines `[author]`, annotation headers `!!!`, annotation bodies
  `:::` nested by 4-space indents, notes `//`, breaks `---`, and paragraphs.
- An `HtmlParseDocument` keeps four pieces of state: a stack of pending closing tags, the HTML
  buffer, a paragraph line counter, and a map from annotator name to style class.
- Each line is offered to the handlers in a fixed order. The first handler that accepts the line
  pops the stack as its rules say, writes its markup, and may push its own closing tag.

**The keyword search** (`book_manager.py`) has four parts:

- a query decoder that turns a parenthesised query into a nested list;
- an evaluator of AND / OR / NOT, with implicit AND, over that list against one text;
- the extraction of the query's keys;
- `QueryResults`, which cuts a book → volume → chapter → hits tree by a global hit index, counts
  hits, caches the total and applies a limit.

The library's lookups of a book by title, and of one volume or chapter inside it, are modelled too.

Layout:

- `text.dfy` (`Text`): the string operations the source borrows from JavaScript and Python:
  `split`, `join`, `substr`, `replace`, prefix tests, number printing.
- `markup_format.dfy` (`MarkupFormat`): handler records and their order; `CanHandle` as a
  function and as the source's loop; the title, author and annotation-byline formatters.
- `markup_spec.dfy` (`MarkupSpec`): the document state as a value. It has one transition per
  handler, the line dispatch, and the whole compilation `ToHtml`.
- `markup_document.dfy` (`MarkupDocument`): the class `HtmlParseDocument`, whose fields the
  handlers update in place. Every method is proved to perform the matching `MarkupSpec`
  transition.
- `markup_laws.dfy`, `markup_examples.dfy`: what the transitions guarantee, and worked
  documents.
- `query_parse.dfy` (`QueryParse`): the nested-bracket decoder, as a function and as the
  source's recursive loop.
- `query_eval.dfy` (`QueryEval`): the evaluator and key extraction, as folds and as the
  source's loops.
- `query_laws.dfy` (`QueryLaws`): what a query means, and the examples from the source's
  documentation comments.
- `query_results.dfy` (`QueryPaging`): the result tree, `__sub` and `__count` as functions and
  as nested loops, paging laws, and the class `QueryResults`.
- `book_manager.dfy` (`BookLibrary`): title lookup and `get_book_content`.

## Model

| member | source | states |
|---|---|---|
| Text.Substr | BookClient/src/components/ts/BookMarkdownParser.ts:200 | `substr(n)` is the tail after the first n characters, or "" past the end |
| Text.Split | BookClient/src/components/ts/BookMarkdownParser.ts:206 | `split` always yields at least one part |
| Text.JoinSplit | BookClient/src/components/ts/BookMarkdownParser.ts:206 | joining the parts of a split with the delimiter gives back the string |
| Text.SplitLength | BookClient/src/components/ts/BookMarkdownParser.ts:206-207 | a split yields one more part than there are delimiters, so the part-count tests count delimiters |
| Text.SplitPartsFree | BookServer/book_manager.py:537 | no part of a split holds the delimiter |
| Text.SplitJoin | BookServer/book_manager.py:537 | splitting a join of delimiter-free parts gives back the parts |
| Text.RemoveAll | BookServer/book_manager.py:528-535 | Python `replace(p, "")` never lengthens a string and introduces no character |
| Text.RemoveAllChar | BookServer/book_manager.py:534-535 | removing a one-character operator leaves no occurrence of it |
| Text.RemoveAllAbsent | BookServer/book_manager.py:528-535 | removing an operator that does not occur changes nothing |
| Text.NatToString | BookClient/src/components/ts/BookMarkdownParser.ts:505 | the line id is printed as a non-empty string of decimal digits without a leading zero, whose decimal value is the number |
| Text.NonEmpty | BookServer/book_manager.py:537-539 | the kept keys are non-empty and each comes from the split |
| Text.NonEmptyAppend | BookServer/book_manager.py:537-539 | filtering out empty keys commutes with concatenation |
| Text.NonEmptyKeepsAll | BookServer/book_manager.py:537-539 | every non-empty part of the split is kept |
| MarkupFormat.MatchPlain | BookClient/src/components/ts/BookMarkdownParser.ts:195-201 | without an indent token a line is accepted exactly when it starts with the mark; content is the rest, level 0; otherwise `[false, "", 0]` |
| MarkupFormat.CanHandle | BookClient/src/components/ts/BookMarkdownParser.ts:164-203 | the loop returns `MatchMark`: a plain prefix match, or the first indent level `i` at which `indent^i + mark` starts the line, declining as soon as `indent^(i+1)` does not |
| MarkupFormat.IndentedMatchesAtLevel | BookClient/src/components/ts/BookMarkdownParser.ts:164-194 | a line of i indents then the mark is accepted at level i, with the content after i indents and the mark |
| MarkupFormat.IndentOnlyLineMatches | BookClient/src/components/ts/BookMarkdownParser.ts:169-194 | a line made only of k ≥ 1 indents is accepted at level 0 |
| MarkupFormat.IndentedMatchIff | BookClient/src/components/ts/BookMarkdownParser.ts:164-194 | an indented handler accepts exactly the lines "indents then mark" and the indent-only lines, and otherwise returns `[false, "", 0]` |
| MarkupFormat.ScanSound | BookClient/src/components/ts/BookMarkdownParser.ts:169-194 | whatever the scan accepts, it accepts either at the level of the indents in front of the mark, with the rest as content, or as an indent-only line |
| MarkupFormat.TitleTwoParts | BookClient/src/components/ts/BookMarkdownParser.ts:205-263 | `prefix\|title` gives the prefix span, the `·` separator and the title |
| MarkupFormat.TitleThreeParts | BookClient/src/components/ts/BookMarkdownParser.ts:205-266 | `prefix\|title\|subtitle` adds the subtitle span |
| MarkupFormat.TitlePassThrough | BookClient/src/components/ts/BookMarkdownParser.ts:205-267 | with no `\|`, or more than two, the payload is returned unchanged |
| MarkupFormat.AuthorFourParts | BookClient/src/components/ts/BookMarkdownParser.ts:291-304 | `dynasty,position,name,type` becomes four labelled spans |
| MarkupFormat.AuthorManyParts | BookClient/src/components/ts/BookMarkdownParser.ts:291-296 | more than four comma parts count as one, so the whole payload becomes the name |
| MarkupFormat.BylineAnnotator | BookClient/src/components/ts/BookMarkdownParser.ts:323-349 | an annotation byline gives the style map its first comma part for one or two parts, nothing for three or four, and the whole payload for five or more |
| MarkupFormat.DefaultBylineIsEmpty | BookClient/src/components/ts/BookMarkdownParser.ts:323-349 | the synthesized default header writes no byline and looks up the style of "" |
| MarkupSpec.StyleLookup | BookClient/src/components/ts/BookMarkdownParser.ts:561-573 | `getAuthorStyle` keeps every stored style; a stored name gets its style back and changes nothing; a new name gets the palette entry at the map's size modulo the palette length; without a palette it returns "" and records nothing |
| MarkupSpec.PopThroughHeader | BookClient/src/components/ts/BookMarkdownParser.ts:367-378 | the header pop loop pops through the topmost annotation header of the level, leaving only the entries below it, or empties the stack when there is none |
| MarkupSpec.KeepThroughFrame | BookClient/src/components/ts/BookMarkdownParser.ts:447-460 | the body pop loop leaves the topmost annotation entry of the level on top, or empties the stack |
| MarkupSpec.NeedsDefaultHeader | BookClient/src/components/ts/BookMarkdownParser.ts:422-436 | a default header is needed exactly when the nearest entry of at most this level exists and is not an annotation entry of this level |
| MarkupLaws.ClosingTextAppend | BookClient/src/components/ts/BookMarkdownParser.ts:588-598 | flushing emits the upper part's closing tags before the lower part's: last in, first out |
| MarkupLaws.TruncateTwice | BookClient/src/components/ts/BookMarkdownParser.ts:588-598 | two partial rollbacks equal one rollback to the smaller reserve |
| MarkupLaws.PopAfterTruncate | BookClient/src/components/ts/BookMarkdownParser.ts:588-610 | a pop after a rollback to k is a rollback to k − 1 |
| MarkupLaws.RollbackEmitsAbove | BookClient/src/components/ts/BookMarkdownParser.ts:588-598 | `RollbackClosingTags(r)` keeps the bottom r entries untouched; a full flush afterwards emits the same output as one full flush |
| MarkupLaws.PushKeepsWellFormed | BookClient/src/components/ts/BookMarkdownParser.ts:600-606 | pushing a well-formed entry keeps the stack well-formed |
| MarkupLaws.TruncateKeepsWellFormed | BookClient/src/components/ts/BookMarkdownParser.ts:588-598 | popping keeps the stack well-formed |
| MarkupLaws.ClearingKeepsBottom | BookClient/src/components/ts/BookMarkdownParser.ts:359-463 | both annotation pop rules only remove entries from the top |
| MarkupLaws.AnnotationHeaderKeepsWellFormed | BookClient/src/components/ts/BookMarkdownParser.ts:351-389 | an annotation header leaves the stack well-formed |
| MarkupLaws.EnsureHeaderKeepsWellFormed | BookClient/src/components/ts/BookMarkdownParser.ts:413-437 | inserting a default header leaves the stack well-formed |
| MarkupLaws.AnnotationKeepsWellFormed | BookClient/src/components/ts/BookMarkdownParser.ts:409-470 | an annotation body leaves the stack well-formed |
| MarkupLaws.ParagraphKeepsWellFormed | BookClient/src/components/ts/BookMarkdownParser.ts:478-512 | a paragraph line leaves the stack well-formed; a paragraph entry only ever sits at the bottom |
| MarkupLaws.TryHandlersKeepsWellFormed | BookClient/src/components/ts/BookMarkdownParser.ts:621-637 | whichever handler takes a line, the stack stays well-formed |
| MarkupLaws.LineStepKeepsWellFormed | BookClient/src/components/ts/BookMarkdownParser.ts:621-637 | one line keeps the stack well-formed |
| MarkupLaws.ParseLinesWellFormed | BookClient/src/components/ts/BookMarkdownParser.ts:621-637 | after any sequence of lines every open entry is a paragraph or annotation entry with its own closing tag, and headers are never open |
| MarkupLaws.LineStepPopsThenPushes | BookClient/src/components/ts/BookMarkdownParser.ts:621-637 | every line pops some top part of the stack, writing its closing tags, then writes its own text and pushes its own tags |
| MarkupLaws.ParseLinesAppendOnly | BookClient/src/components/ts/BookMarkdownParser.ts:612-637 | the HTML buffer only grows: what earlier lines wrote is a prefix of what later lines leave |
| MarkupLaws.ParseLinesSplit | BookClient/src/components/ts/BookMarkdownParser.ts:621-637 | parsing a chapter's lines in two runs equals parsing them in one |
| MarkupLaws.ContentFlushes | BookClient/src/components/ts/BookMarkdownParser.ts:616-619 | `getContent` is the buffer followed by the closing tags of every open block, top first |
| MarkupLaws.ToHtmlFlushes | BookClient/src/components/ts/BookMarkdownParser.ts:642-646 | the compiled page is the text written line by line plus the closing tags still open, and it begins with what any first lines wrote |
| MarkupLaws.DeclineKeepsState | BookClient/src/components/ts/BookMarkdownParser.ts:621-636 | a handler that declines a line changes nothing |
| MarkupLaws.TryFirst | BookClient/src/components/ts/BookMarkdownParser.ts:624-631 | the handlers are tried in order, and a declined try leaves the state unchanged |
| MarkupLaws.SkipDeclining | BookClient/src/components/ts/BookMarkdownParser.ts:624-631 | handlers that decline are skipped |
| MarkupLaws.SkipRejecting | BookClient/src/components/ts/BookMarkdownParser.ts:624-631 | handlers whose mark does not match are skipped |
| MarkupLaws.UnmatchedLineIsParagraph | BookClient/src/components/ts/BookMarkdownParser.ts:632-634 | a line no handler's mark matches goes to the paragraph handler |
| MarkupLaws.PlainLineIsParagraph | BookClient/src/components/ts/BookMarkdownParser.ts:621-637 | a non-empty line whose first character is none of `#`, `[`, `!`, `:`, `/`, `-` or a space is a paragraph line |
| MarkupLaws.BlankLine | BookClient/src/components/ts/BookMarkdownParser.ts:486-490 | a blank line flushes the whole stack and emits nothing else |
| MarkupLaws.AcceptedFirst | BookClient/src/components/ts/BookMarkdownParser.ts:626-627 | the first handler that accepts a line decides the result |
| MarkupLaws.HeaderLineDispatch | BookClient/src/components/ts/BookMarkdownParser.ts:526-627 | a `#`..`####` line reaches its own header handler, not a shorter one |
| MarkupLaws.HeaderLine | BookClient/src/components/ts/BookMarkdownParser.ts:269-282 | a header resets the line counter, flushes the stack, writes its tags around the formatted title, and leaves nothing open |
| MarkupLaws.AuthorLine | BookClient/src/components/ts/BookMarkdownParser.ts:306-314 | an author line flushes the stack and writes a closed `<p class="author">` |
| MarkupLaws.NoteLine | BookClient/src/components/ts/BookMarkdownParser.ts:228-233 | a note line changes nothing and emits nothing |
| MarkupLaws.BreakLine | BookClient/src/components/ts/BookMarkdownParser.ts:241-249 | a break flushes the stack and writes `<hr>` and a newline, leaving nothing open |
| MarkupLaws.AnnotationHeaderLineDispatch | BookClient/src/components/ts/BookMarkdownParser.ts:391-396 | an indented `!!!` line reaches the annotation-header handler at its indent level |
| MarkupLaws.AnnotationLineDispatch | BookClient/src/components/ts/BookMarkdownParser.ts:409-412 | an indented `:::` line reaches the annotation handler at its indent level |
| MarkupLaws.OrphanNestedHeaderIsParagraph | BookClient/src/components/ts/BookMarkdownParser.ts:351-396 | a nested annotation header on an empty stack is declined and rendered as a paragraph |
| MarkupLaws.OrphanNestedAnnotationIsParagraph | BookClient/src/components/ts/BookMarkdownParser.ts:409-417 | a nested annotation body on an empty stack is declined by every handler and rendered as a paragraph |
| MarkupLaws.NewParagraph | BookClient/src/components/ts/BookMarkdownParser.ts:501-508 | a paragraph that does not continue flushes everything, takes the next line id, and leaves only its own entry open |
| MarkupLaws.ParagraphContinuation | BookClient/src/components/ts/BookMarkdownParser.ts:492-499 | a continuing line keeps exactly the bottom paragraph entry and appends the raw text |
| MarkupLaws.NumberingRestartsAfterHeader | BookClient/src/components/ts/BookMarkdownParser.ts:269-282 | the first paragraph after a header gets id 1 |
| MarkupLaws.DeeperHeaderNests | BookClient/src/components/ts/BookMarkdownParser.ts:359-386 | an annotation header deeper than the top pops nothing and pushes its closing tag |
| MarkupLaws.SameLevelHeaderReplacesFrame | BookClient/src/components/ts/BookMarkdownParser.ts:363-378 | a header at a level no deeper than an annotation top closes everything through the last header of its level, then opens its own |
| MarkupLaws.TopLevelHeaderClosesAll | BookClient/src/components/ts/BookMarkdownParser.ts:379-381 | a level-0 header over a non-annotation top flushes the whole stack |
| MarkupLaws.AnnotationInOpenFrame | BookClient/src/components/ts/BookMarkdownParser.ts:441-467 | a body whose level's frame is on top pops nothing and pushes its closing tag |
| MarkupLaws.FrameOnTopKeepsAll | BookClient/src/components/ts/BookMarkdownParser.ts:447-460 | the body pop loop leaves a matching top entry in place |
| MarkupLaws.AnnotationOutsideFrameGetsHeader | BookClient/src/components/ts/BookMarkdownParser.ts:422-467 | a body outside a frame of its level first gets a default header of its level, then goes inside it |
| MarkupLaws.DefaultHeaderOnEmpty | BookClient/src/components/ts/BookMarkdownParser.ts:398-421 | the default header on an empty stack asks the style map for "" and opens a level-0 annotation `div` |
| MarkupLaws.OrphanAnnotationGetsDefaultHeader | BookClient/src/components/ts/BookMarkdownParser.ts:413-467 | a level-0 body on an empty stack is wrapped in a default header |
| MarkupLaws.OrphanNestedAnnotationDeclined | BookClient/src/components/ts/BookMarkdownParser.ts:351-417 | a nested header or body on an empty stack is declined and changes nothing |
| MarkupLaws.StyleStable | BookClient/src/components/ts/BookMarkdownParser.ts:561-565 | once a name has a style, later lookups never change it |
| MarkupLaws.LookupAllDomain | BookClient/src/components/ts/BookMarkdownParser.ts:561-573 | with a palette, the names stored are exactly the names looked up |
| MarkupLaws.LookupNewName | BookClient/src/components/ts/BookMarkdownParser.ts:566-569 | after any run of names, a name not seen before is stored with the palette entry at the number of names seen modulo the palette length |
| MarkupLaws.StylesInFirstSeenOrder | BookClient/src/components/ts/BookMarkdownParser.ts:561-573 | distinct names get the palette in round-robin order of first sighting |
| MarkupLaws.FourAnnotatorsFourStyles | BookClient/src/components/ts/BookMarkdownParser.ts:523-573 | with the four-style palette, four distinct annotators get style01..style04 |
| MarkupLaws.AnnotationHeaderKeepsStyles | BookClient/src/components/ts/BookMarkdownParser.ts:337-343 | an annotation header only adds to the style map |
| MarkupLaws.AnnotationKeepsStyles | BookClient/src/components/ts/BookMarkdownParser.ts:418-431 | an annotation body only adds to the style map |
| MarkupLaws.TryHandlersKeepsStyles | BookClient/src/components/ts/BookMarkdownParser.ts:621-637 | no line removes or changes a stored style |
| MarkupLaws.ParseLinesKeepsStyles | BookClient/src/components/ts/BookMarkdownParser.ts:621-637 | styles stay stable for the whole compilation |
| MarkupExamples.TitleFirst | BookClient/src/components/ts/BookMarkdownParser.ts:269-282 | `# title` on a fresh document is `<h1>title</h1>` with nothing open |
| MarkupExamples.FirstParagraphClosed | BookClient/src/components/ts/BookMarkdownParser.ts:501-619 | on an empty stack with count 0, one text line followed by `GetContent`'s final flush yields paragraph 1, closed |
| MarkupExamples.ThreeLineChapter | BookClient/src/components/ts/BookMarkdownParser.ts:621-646 | `ToHtml` runs the lines in order and then flushes |
| MarkupExamples.BylineAfterTitle | BookClient/src/components/ts/BookMarkdownParser.ts:269-314 | a title followed by a four-part byline yields the `h1` and the author paragraph with its four spans, and leaves nothing open |
| MarkupExamples.TitleBylineParagraph | BookClient/src/components/ts/BookMarkdownParser.ts:269-646 | a whole chapter of title, byline and paragraph compiles to its exact HTML, with paragraph id 1 |
| MarkupExamples.TopLevelAnnotationEndsParagraph | BookClient/src/components/ts/BookMarkdownParser.ts:359-508 | after a level-0 annotation header and body, the next text line starts a new paragraph |
| MarkupExamples.InlineNoteOpens | BookClient/src/components/ts/BookMarkdownParser.ts:413-467 | an indented body inside an open paragraph gets a nested default header and stays inside the paragraph |
| MarkupExamples.InlineNoteContinuesParagraph | BookClient/src/components/ts/BookMarkdownParser.ts:492-499 | the text after an inline note closes the note and continues the same paragraph |
| MarkupDocument.HtmlParseDocument.constructor | BookClient/src/components/ts/BookMarkdownParser.ts:523-535 | a new document has an empty stack, an empty buffer, count 0 and no styles |
| MarkupDocument.HtmlParseDocument.GetAuthorStyle | BookClient/src/components/ts/BookMarkdownParser.ts:561-573 | performs the style-map transition |
| MarkupDocument.HtmlParseDocument.GetLineCount | BookClient/src/components/ts/BookMarkdownParser.ts:575-578 | increments the counter, then returns it |
| MarkupDocument.HtmlParseDocument.ResetLineCount | BookClient/src/components/ts/BookMarkdownParser.ts:580-582 | sets the counter to 0 and changes nothing else |
| MarkupDocument.HtmlParseDocument.PopClosingTagStack | BookClient/src/components/ts/BookMarkdownParser.ts:608-610 | pops and emits the top closing tag |
| MarkupDocument.HtmlParseDocument.RollbackClosingTags | BookClient/src/components/ts/BookMarkdownParser.ts:588-598 | pops down to the reserve, emitting each popped tag top first |
| MarkupDocument.HtmlParseDocument.AddClosingTagStack | BookClient/src/components/ts/BookMarkdownParser.ts:600-606 | pushes one entry |
| MarkupDocument.HtmlParseDocument.AddContent | BookClient/src/components/ts/BookMarkdownParser.ts:612-614 | appends opening tag, content and closing tag |
| MarkupDocument.HtmlParseDocument.GetContent | BookClient/src/components/ts/BookMarkdownParser.ts:616-619 | flushes the whole stack, then returns the buffer |
| MarkupDocument.HtmlParseDocument.ParseHeader | BookClient/src/components/ts/BookMarkdownParser.ts:269-282 | performs the header transition |
| MarkupDocument.HtmlParseDocument.ParseAuthor | BookClient/src/components/ts/BookMarkdownParser.ts:306-314 | performs the author transition |
| MarkupDocument.HtmlParseDocument.ParseBreak | BookClient/src/components/ts/BookMarkdownParser.ts:241-249 | performs the break transition |
| MarkupDocument.HtmlParseDocument.ParseHeaderContent | BookClient/src/components/ts/BookMarkdownParser.ts:323-349 | returns the byline markup and looks up the annotator's style |
| MarkupDocument.HtmlParseDocument.PopThroughHeaderOf | BookClient/src/components/ts/BookMarkdownParser.ts:367-378 | the header pop loop truncates the stack as `PopThroughHeader` says |
| MarkupDocument.HtmlParseDocument.ParseAnnotationHeader | BookClient/src/components/ts/BookMarkdownParser.ts:351-389 | performs the annotation-header transition |
| MarkupDocument.HtmlParseDocument.InsertDefaultHeader | BookClient/src/components/ts/BookMarkdownParser.ts:398-400 | parses an empty header at the level |
| MarkupDocument.HtmlParseDocument.EnsureHeaderOver | BookClient/src/components/ts/BookMarkdownParser.ts:422-437 | the backwards scan for the nearest entry inserts a default header exactly when one is needed |
| MarkupDocument.HtmlParseDocument.PopToFrameOf | BookClient/src/components/ts/BookMarkdownParser.ts:447-460 | the body pop loop truncates the stack as `KeepThroughFrame` says |
| MarkupDocument.HtmlParseDocument.ParseAnnotation | BookClient/src/components/ts/BookMarkdownParser.ts:409-470 | performs the annotation-body transition |
| MarkupDocument.HtmlParseDocument.ParseParagraph | BookClient/src/components/ts/BookMarkdownParser.ts:478-512 | performs the paragraph transition |
| MarkupDocument.HtmlParseDocument.ParseWith | BookClient/src/components/ts/BookMarkdownParser.ts:228-470 | one handler's `Parse` |
| MarkupDocument.HtmlParseDocument.ParseWithHandlers | BookClient/src/components/ts/BookMarkdownParser.ts:624-630 | the handler loop leaves the document as the first handler that takes the line makes it, unchanged when none does |
| MarkupDocument.HtmlParseDocument.ParseLine | BookClient/src/components/ts/BookMarkdownParser.ts:624-634 | the dispatch of one line |
| MarkupDocument.HtmlParseDocument.Parse | BookClient/src/components/ts/BookMarkdownParser.ts:621-637 | runs every line of the content in order |
| MarkupDocument.BookMarkdownDocument.ToHtml | BookClient/src/components/ts/BookMarkdownParser.ts:642-646 | computes `MarkupSpec.ToHtml`, whose properties are the lemmas above |
| QueryParse.Scan | BookServer/book_manager.py:341-395 | the decoder never moves backwards or past the end |
| QueryParse.ParseNestedBrackets | BookServer/book_manager.py:341-395 | the source's recursive loop computes the decoder function |
| QueryParse.ScanKeepsText | BookServer/book_manager.py:371-393 | the decoded text, read in order, is the consumed input with parentheses removed |
| QueryParse.ScanLevel | BookServer/book_manager.py:371-395 | the returned level is the starting level plus the consumed depth; the decoder stops at the end or just after a `)` that closes its list |
| QueryParse.ScanStaysAbove | BookServer/book_manager.py:371-395 | no prefix of the consumed input closes more than it opens |
| QueryParse.ScanNoEmptyText | BookServer/book_manager.py:371-395 | no decoded text run is empty, at any depth |
| QueryParse.ParseQueryText | BookServer/book_manager.py:541-559 | `parse_query` keeps the consumed characters in order without parentheses and no empty runs |
| QueryParse.PlainQuery | BookServer/book_manager.py:541-559 | a query without parentheses decodes to one text run |
| QueryParse.BalancedConsumesAll | BookServer/book_manager.py:341-395 | on input that never closes more than it opened, the decoder consumes everything |
| QueryParse.UnmatchedCloseStops | BookServer/book_manager.py:371-395 | an unmatched top-level `)` ends decoding, and the rest of the query is dropped |
| QueryParse.GroupTextGroup | BookServer/book_manager.py:359-368 | `(a)b(c)` decodes to a group, a text run and a group, as in the documented example |
| QueryParse.ParseQuery | BookServer/book_manager.py:541-559 | `parse_query` produces no empty text run; on input that never closes more than it opened, the decoded list renders back to the query followed by one `)` per group left open |
| QueryParse.ScanRenders | BookServer/book_manager.py:341-395 | rendering what the decoder produced gives back the consumed input, closing any group left open; when it stops at an unmatched `)`, that `)` is the only character dropped |
| QueryParse.BalancedRoundTrip | BookServer/book_manager.py:341-395 | on input that never closes more than it opened, decoding then rendering gives the query back exactly when its parentheses balance |
| QueryEval.JudgeCondition | BookServer/book_manager.py:397-418 | one absent condition yields the other; OR is disjunction; AND and every other operator, none included, is conjunction |
| QueryEval.ExecuteSingleQuery | BookServer/book_manager.py:421-469 | the word loop computes the word fold |
| QueryEval.ExecuteQuery | BookServer/book_manager.py:471-510 | the list loop, recursing into sub-lists, computes the item fold |
| QueryEval.GetQueryKeys | BookServer/book_manager.py:512-539 | the removal loop computes the keys of the given query, else of the object's own |
| QueryEval.NewQueryObject | BookServer/book_manager.py:329-339 | the object keeps the query string, has a decoded list exactly when it has a string, with no empty text run, and a balanced query renders back from it |
| QueryEval.ExcuteQuery | BookServer/book_manager.py:561-586 | a list passed in is evaluated; otherwise the object's own list; with neither the answer is False |
| QueryLaws.RunWordsAppend | BookServer/book_manager.py:446-467 | evaluation threads its state across consecutive words |
| QueryLaws.EmptyWordsSkipped | BookServer/book_manager.py:448-449 | empty words have no effect |
| QueryLaws.TermsConjoin | BookServer/book_manager.py:453-465 | a run of terms after a condition conjoins their occurrences |
| QueryLaws.ImplicitAnd | BookServer/book_manager.py:397-469 | a run of terms without operators holds exactly when every term occurs |
| QueryLaws.NoTermNoCondition | BookServer/book_manager.py:446-467 | operators alone leave the condition absent |
| QueryLaws.Keywords | BookServer/book_manager.py:450-453 | `and`, `or` and `not` in any case set the operator or the NOT flag |
| QueryLaws.NotScope | BookServer/book_manager.py:455-465 | NOT negates only the next term |
| QueryLaws.LeftToRight | BookServer/book_manager.py:455-465 | operators combine left to right without precedence: `a or b and d` is `(a or b) and d` |
| QueryLaws.TrailingOperatorPending | BookServer/book_manager.py:446-469 | a trailing operator and NOT stay pending in the returned state |
| QueryLaws.AndRun | BookServer/book_manager.py:446-505 | `x and y` holds when both occur |
| QueryLaws.OrRun | BookServer/book_manager.py:446-505 | `x or y` holds when either occurs |
| QueryLaws.AndQuery | BookServer/book_manager.py:541-586 | a whole `x and y` query, decoded and evaluated, holds exactly when both occur |
| QueryLaws.NoQueryIsFalse | BookServer/book_manager.py:580-586 | without a query list the answer is False |
| QueryLaws.NotRun | BookServer/book_manager.py:496-505 | a text run ` not ` between groups only sets the NOT flag |
| QueryLaws.GroupNotGroupParse | BookServer/book_manager.py:341-395 | `(a1 and a2) not (b1 or b2)` decodes to group, text, group |
| QueryLaws.GroupNotGroup | BookServer/book_manager.py:471-586 | `(a1 and a2) not (b1 or b2)` holds exactly when a1 and a2 occur and neither b1 nor b2 does |
| QueryLaws.WorkedQuery | BookServer/book_manager.py:566-578 | the documented query `君子 and 小人` holds on the documented text |
| QueryLaws.RemoveOperatorsKeepsAbsent | BookServer/book_manager.py:528-535 | removing operators introduces no character |
| QueryLaws.RemoveOperatorsDropsChar | BookServer/book_manager.py:534-535 | after the removals no `(` or `)` is left |
| QueryLaws.KeysClean | BookServer/book_manager.py:512-539 | every key is non-empty and holds no space or parenthesis |
| QueryLaws.NoQueryNoKeys | BookServer/book_manager.py:522-527 | no query gives no keys |
| QueryLaws.KeysOfAndNot | BookServer/book_manager.py:512-539 | `a and b not c` gives exactly the keys a, b, c when the words hold no space, no parenthesis and none of the letters a, o, n in either case |
| QueryLaws.WorkedKeys | BookServer/book_manager.py:517-520 | the documented `大人 and 小人 not 君子` gives `['大人','小人','君子']` |
| QueryPaging.ChapterHitsAppend | BookServer/book_manager.py:720-722 | the hits of concatenated chapters concatenate |
| QueryPaging.WindowAppend | BookServer/book_manager.py:645-670 | the window of a concatenation is the concatenation of the windows |
| QueryPaging.SubChapters | BookServer/book_manager.py:649-675 | the chapter loop either reaches `to` with something kept, or advances the running index by all its hits and stays below `to` |
| QueryPaging.SubVolumes | BookServer/book_manager.py:647-678 | the same for the volume loop |
| QueryPaging.SubBooks | BookServer/book_manager.py:645-680 | the same for the book loop |
| QueryPaging.SubChaptersTags | BookServer/book_manager.py:649-675 | the chapters kept hold exactly the hits in the window, in order, each under its own chapter title |
| QueryPaging.SubVolumesTags | BookServer/book_manager.py:647-678 | the volumes kept hold exactly the hits in the window, in order, each under its own volume and chapter titles |
| QueryPaging.SubBooksTags | BookServer/book_manager.py:645-680 | the books kept hold exactly the hits in the window, in order, each under its own book title and description, volume and chapter |
| QueryPaging.SubKeepsWindow | BookServer/book_manager.py:632-680 | `__sub(start, to)` holds exactly the hits whose global index lies in [start, to), in order, each still under its own book title, description, volume title and chapter title; nothing when `to <= start` |
| QueryPaging.BookTexts | BookServer/book_manager.py:720-722 | dropping where each hit was found gives back the plain hits of the tree |
| QueryPaging.SubKeepsHits | BookServer/book_manager.py:632-680 | the plain hits `__sub(start, to)` keeps are those whose global index lies in [start, to) |
| QueryPaging.SubCount | BookServer/book_manager.py:632-680 | `__sub` keeps min(to, total) − start hits, or none |
| QueryPaging.SubNoEmptyGroups | BookServer/book_manager.py:669-678 | no book or volume of a cut is empty |
| QueryPaging.CutChapters | BookServer/book_manager.py:649-673 | the chapter loop computes `SubChapters` |
| QueryPaging.CutVolumes | BookServer/book_manager.py:647-676 | the volume loop computes `SubVolumes` |
| QueryPaging.CutBooks | BookServer/book_manager.py:632-680 | `__sub` computes `Sub` |
| QueryPaging.CountPieces | BookServer/book_manager.py:710-724 | `__count` is the number of hits in the tree |
| QueryPaging.LimitKeepsFirst | BookServer/book_manager.py:703-708 | limiting to n keeps exactly the first n hits, each under its own book, volume and chapter |
| QueryPaging.PagesJoin | BookServer/book_manager.py:632-701 | consecutive pages [a, b) and [b, c) together hold the page [a, c), with every hit's book, volume and chapter |
| QueryPaging.LimitTwice | BookServer/book_manager.py:703-708 | limiting twice to the same bound keeps the same hits, with every hit's book, volume and chapter |
| QueryPaging.PermutationKeepsCount | BookServer/book_manager.py:613-618 | reordering the books keeps the hit count |
| QueryPaging.QueryResults.constructor | BookServer/book_manager.py:607-611 | a new result object has no counts and no pieces |
| QueryPaging.QueryResults.AddResultPieces | BookServer/book_manager.py:613-618 | the pieces become a permutation of the old pieces followed by the new ones; nothing is added for None |
| QueryPaging.QueryResults.ResultPiecesCount | BookServer/book_manager.py:726-730 | returns the cached total, counting and caching it on first use |
| QueryPaging.QueryResults.SubResults | BookServer/book_manager.py:682-701 | None exactly for an empty cut; otherwise a new object holding a permutation of the cut, with this object's query, target count and pre-cut total |
| QueryPaging.QueryResults.Limit | BookServer/book_manager.py:703-708 | caches the total before cutting, then keeps `__sub(0, n)` |
| BookLibrary.Position | BookServer/book_manager.py:85-97 | the position found is the first whose title matches; none exactly when no title matches |
| BookLibrary.ChapterAnywhere | BookServer/book_manager.py:297-307 | the first chapter titled c, volumes in order; none exactly when no chapter has that title |
| BookLibrary.BookContent | BookServer/book_manager.py:278-321 | no titles give the whole book; a volume title gives a book with just the first volume of that title, or None when absent; a chapter title gives the first chapter of that title, volumes in order, in its volume, or None when absent; both give the first chapter of that title in the first volume of that title, or None when that volume has none |
| BookLibrary.FirstVolumeDecides | BookServer/book_manager.py:309-321 | with both titles, the chapter is found exactly when the first volume of that title holds it |
| BookLibrary.SecondVolumeIgnored | BookServer/book_manager.py:309-321 | a chapter in a later volume of the same title is not found |
| BookLibrary.CutBookContent | BookServer/book_manager.py:278-321 | the source's search loops compute `BookContent` |
| BookLibrary.LoadBook | BookServer/book_manager.py:117-129 | an index entry with content gives that content; otherwise the book loaded from its path |
| BookLibrary.BookManager.GetIndexByTitle | BookServer/book_manager.py:85-97 | returns the first index entry with the title, else None |
| BookLibrary.BookManager.GetBookContent | BookServer/book_manager.py:270-322 | None for an unknown title; otherwise the loaded book cut as `BookContent` says |

## Left out

- File loading, the JSON reader and the directory scan (`load_books`, `load_book_bypath`) are
  left out: they are I/O. `GetBookContent` takes the file system as a function parameter
  `files`.
- A book file that cannot be read is modelled as an absent book. The source raises an
  exception there.
- `search_all`, its thread pool and the per-book search that builds the hit tree are left out
  (concurrency and I/O). `get_book_list` and `get_book_catalogue` are left out too.
- A term matches when it occurs in the text as a literal substring. The source's
  `re.finditer` treats the term as a regular expression.
- `highlights` and `output` are left out: they format regex matches for display.
- `QueryPaging.QueryResults.AddResultPieces`: the books are kept as some permutation. The
  pinyin sort by title is not modelled, because it comes from a foreign library.
- `QueryPaging.QueryResults.SubResults`: the new object's books are likewise a permutation of
  the cut, not the pinyin order.
- `start` and `to` of `__sub`, and the bound of `limit`, are natural numbers. Negative Python
  indices are not modelled. A missing `start` is passed as 0.
- `__sub` on a `None` piece list and `__count` on an explicit argument are left out. The model's
  piece list is never `None`.
- `QueryEval.Upper` upper-cases ASCII letters only. This is exact for the keywords AND, OR and
  NOT, whose comparison it serves.
- `QueryEval.JudgeCondition`: the source asserts that one condition is present. This is modelled
  as a precondition.
- Logging calls and `console.error` are no-ops.
- The getters and setters of `QueryResults` are plain field reads and writes.
- `isHeader3` has no caller in the compiler.
- The server routes, the HTTP client and the type-declaration files are left out.

Behaviours of the code worth noting:

- A paragraph line continues the open paragraph only when the stack top is an annotation entry
  of level > 0. So a paragraph after a level-0 annotation header and body starts a new
  paragraph (`MarkupExamples.TopLevelAnnotationEndsParagraph`).
- A default annotation header is inserted only when the nearest entry of at most the body's
  level is not an annotation entry of that level. When every entry is deeper, none is inserted.
- A line made only of 4k spaces (k ≥ 1) is accepted by the annotation-header handler at level 0
  (`MarkupFormat.IndentOnlyLineMatches`).
- `not` applied to a sub-list without a condition gives True.
- With both a volume and a chapter title, only the first volume of that title is searched.
