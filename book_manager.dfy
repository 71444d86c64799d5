/** The book library's lookups over the in-memory index: a book by title, and a book cut down
    to one volume, one chapter, or one chapter of one volume. */
module BookLibrary {
  import opened Wrappers

  datatype Chapter = Chapter(title: string, paragraphs: seq<string>)
  datatype Volume = Volume(title: string, chapters: seq<Chapter>)
  datatype Book = Book(title: string, description: string, volumes: seq<Volume>)

  /** One entry of the index: the book's title, its file, and its content when preloaded. */
  datatype BookIndex = BookIndex(title: string, bookPath: string, content: Option<Book>)

  function IndexTitle(e: BookIndex): string { e.title }
  function VolumeTitle(v: Volume): string { v.title }
  function ChapterTitle(c: Chapter): string { c.title }

  /** The position of the first element of `s` whose title is `title`. */
  function Position<T>(s: seq<T>, title: string, titleOf: T -> string): (r: Option<nat>)
    ensures r.Some? ==> r.value < |s| && titleOf(s[r.value]) == title
    ensures r.Some? ==> forall j :: 0 <= j < r.value ==> titleOf(s[j]) != title
    ensures r.None? <==> forall j :: 0 <= j < |s| ==> titleOf(s[j]) != title
  {
    if |s| == 0 then None
    else if titleOf(s[0]) == title then Some(0)
    else
      var p := Position(s[1..], title, titleOf);
      assert forall j :: 1 <= j < |s| ==> s[j] == s[1..][j - 1];
      if p.Some? then Some(p.value + 1) else None
  }

  /** A search loop that stops at the first match finds what `Position` finds. */
  lemma PositionIsFirst<T>(s: seq<T>, title: string, titleOf: T -> string, i: nat)
    requires i < |s| && titleOf(s[i]) == title
    requires forall j :: 0 <= j < i ==> titleOf(s[j]) != title
    ensures Position(s, title, titleOf) == Some(i)
  {
  }

  /** The first chapter titled `c` in any volume, as (volume, chapter) positions, volumes
      taken in order and chapters in order within each. */
  function ChapterAnywhere(vols: seq<Volume>, c: string): (r: Option<(nat, nat)>)
    ensures r.Some? ==> r.value.0 < |vols| && r.value.1 < |vols[r.value.0].chapters|
    ensures r.Some? ==> vols[r.value.0].chapters[r.value.1].title == c
    ensures r.Some? ==> forall i, j :: 0 <= i < r.value.0 && 0 <= j < |vols[i].chapters| ==> vols[i].chapters[j].title != c
    ensures r.Some? ==> forall j :: 0 <= j < r.value.1 ==> vols[r.value.0].chapters[j].title != c
    ensures r.None? <==> forall i, j :: 0 <= i < |vols| && 0 <= j < |vols[i].chapters| ==> vols[i].chapters[j].title != c
  {
    if |vols| == 0 then None
    else
      var p := Position(vols[0].chapters, c, ChapterTitle);
      if p.Some? then Some((0, p.value))
      else
        var q := ChapterAnywhere(vols[1..], c);
        assert forall i :: 1 <= i < |vols| ==> vols[i] == vols[1..][i - 1];
        if q.Some? then Some((q.value.0 + 1, q.value.1)) else None
  }

  /** The book reduced to one volume holding just one chapter. */
  function OneChapter(book: Book, vol: Volume, ch: Chapter): Book {
    Book(book.title, book.description, [Volume(vol.title, [ch])])
  }

  /** `get_book_content` on the book found: the whole book; the first volume titled `v`; the
      first chapter titled `c` anywhere; or, with both, the first chapter titled `c` of the
      FIRST volume titled `v` (a later volume of the same title is never looked at). */
  function BookContent(book: Book, v: Option<string>, c: Option<string>): (r: Option<Book>)
    ensures v.None? && c.None? ==> r == Some(book)
    ensures v.Some? && c.None? ==>
      (r.None? <==> forall i :: 0 <= i < |book.volumes| ==> book.volumes[i].title != v.value)
    ensures v.Some? && c.None? && r.Some? ==>
      exists i :: 0 <= i < |book.volumes| && book.volumes[i].title == v.value &&
                  (forall i' :: 0 <= i' < i ==> book.volumes[i'].title != v.value) &&
                  r.value == Book(book.title, book.description, [book.volumes[i]])
    ensures v.None? && c.Some? ==>
      (r.None? <==> forall i, j :: 0 <= i < |book.volumes| && 0 <= j < |book.volumes[i].chapters| ==>
                                  book.volumes[i].chapters[j].title != c.value)
    ensures v.None? && c.Some? && r.Some? ==>
      exists i, j :: 0 <= i < |book.volumes| && 0 <= j < |book.volumes[i].chapters| &&
                     book.volumes[i].chapters[j].title == c.value &&
                     (forall i', j' :: 0 <= i' < i && 0 <= j' < |book.volumes[i'].chapters| ==>
                                       book.volumes[i'].chapters[j'].title != c.value) &&
                     (forall j' :: 0 <= j' < j ==> book.volumes[i].chapters[j'].title != c.value) &&
                     r.value == OneChapter(book, book.volumes[i], book.volumes[i].chapters[j])
    ensures v.Some? && c.Some? && r.Some? ==>
      exists i, j :: 0 <= i < |book.volumes| && 0 <= j < |book.volumes[i].chapters| &&
                     book.volumes[i].title == v.value &&
                     (forall i' :: 0 <= i' < i ==> book.volumes[i'].title != v.value) &&
                     book.volumes[i].chapters[j].title == c.value &&
                     (forall j' :: 0 <= j' < j ==> book.volumes[i].chapters[j'].title != c.value) &&
                     r.value == OneChapter(book, book.volumes[i], book.volumes[i].chapters[j])
    ensures v.Some? && c.Some? && r.None? ==>
      forall i :: (0 <= i < |book.volumes| && book.volumes[i].title == v.value &&
                   (forall i' :: 0 <= i' < i ==> book.volumes[i'].title != v.value)) ==>
                  forall j :: 0 <= j < |book.volumes[i].chapters| ==> book.volumes[i].chapters[j].title != c.value
  {
    if v.None? && c.None? then Some(book)
    else if c.None? then
      var p := Position(book.volumes, v.value, VolumeTitle);
      if p.Some? then Some(Book(book.title, book.description, [book.volumes[p.value]])) else None
    else if v.None? then
      var q := ChapterAnywhere(book.volumes, c.value);
      if q.Some? then Some(OneChapter(book, book.volumes[q.value.0], book.volumes[q.value.0].chapters[q.value.1]))
      else None
    else
      var p := Position(book.volumes, v.value, VolumeTitle);
      if p.None? then None
      else
        var vol := book.volumes[p.value];
        var k := Position(vol.chapters, c.value, ChapterTitle);
        if k.Some? then Some(OneChapter(book, vol, vol.chapters[k.value]))
        else
          FirstVolumeUnique(book.volumes, v.value, p.value);
          None
  }

  /** Only one volume is the first of its title. */
  lemma FirstVolumeUnique(vols: seq<Volume>, v: string, p: nat)
    requires p < |vols| && vols[p].title == v
    requires forall i' :: 0 <= i' < p ==> vols[i'].title != v
    ensures forall i :: (0 <= i < |vols| && vols[i].title == v &&
                         (forall i' :: 0 <= i' < i ==> vols[i'].title != v)) ==> i == p
  {
  }

  /** With both titles given, only the first volume titled `v` is searched: the chapter is
      found exactly when that volume holds a chapter titled `c`. */
  lemma FirstVolumeDecides(book: Book, v: string, c: string, i: nat)
    requires i < |book.volumes| && book.volumes[i].title == v
    requires forall j :: 0 <= j < i ==> book.volumes[j].title != v
    ensures BookContent(book, Some(v), Some(c)).Some?
            <==> exists j :: 0 <= j < |book.volumes[i].chapters| && book.volumes[i].chapters[j].title == c
  {
    PositionIsFirst(book.volumes, v, VolumeTitle, i);
  }

  /** A chapter in a second volume of the same title is not found. */
  lemma SecondVolumeIgnored()
    ensures var book := Book("b", "", [Volume("v", [Chapter("x", [])]), Volume("v", [Chapter("y", [])])]);
            BookContent(book, Some("v"), Some("y")) == None
  {
    var book := Book("b", "", [Volume("v", [Chapter("x", [])]), Volume("v", [Chapter("y", [])])]);
    PositionIsFirst(book.volumes, "v", VolumeTitle, 0);
    var chs := book.volumes[0].chapters;
    assert chs[0].title == "x" != "y";
    assert Position(chs, "y", ChapterTitle) == None;
  }

  /** `load_book_byindex`: the preloaded content, else what reading the book's file gives;
      `files` stands for the file system. */
  function LoadBook(e: BookIndex, files: string -> Option<Book>): (r: Option<Book>)
    ensures e.content.Some? ==> r == e.content
    ensures e.content.None? ==> r == files(e.bookPath)
  {
    if e.content.Some? then e.content else files(e.bookPath)
  }

  /** The loops of `get_book_content` once the book is loaded. */
  method CutBookContent(book: Book, v: Option<string>, c: Option<string>) returns (r: Option<Book>)
    ensures r == BookContent(book, v, c)
  {
    var vols := book.volumes;
    if v.None? && c.None? {
      return Some(book);
    }
    if v.Some? && c.None? {
      var i := 0;
      while i < |vols|
        invariant 0 <= i <= |vols|
        invariant forall j :: 0 <= j < i ==> vols[j].title != v.value
      {
        if vols[i].title == v.value {
          PositionIsFirst(vols, v.value, VolumeTitle, i);
          return Some(Book(book.title, book.description, [vols[i]]));
        }
        i := i + 1;
      }
      return None;
    }
    if v.None? && c.Some? {
      var i := 0;
      while i < |vols|
        invariant 0 <= i <= |vols|
        invariant forall i', j :: 0 <= i' < i && 0 <= j < |vols[i'].chapters| ==> vols[i'].chapters[j].title != c.value
      {
        var chs := vols[i].chapters;
        var j := 0;
        while j < |chs|
          invariant 0 <= j <= |chs|
          invariant forall j' :: 0 <= j' < j ==> chs[j'].title != c.value
        {
          if chs[j].title == c.value {
            ChapterAnywhereIsFirst(vols, c.value, i, j);
            return Some(OneChapter(book, vols[i], chs[j]));
          }
          j := j + 1;
        }
        i := i + 1;
      }
      return None;
    }
    var i := 0;
    while i < |vols|
      invariant 0 <= i <= |vols|
      invariant forall j :: 0 <= j < i ==> vols[j].title != v.value
    {
      if vols[i].title == v.value {
        PositionIsFirst(vols, v.value, VolumeTitle, i);
        var chs := vols[i].chapters;
        var j := 0;
        while j < |chs|
          invariant 0 <= j <= |chs|
          invariant forall j' :: 0 <= j' < j ==> chs[j'].title != c.value
        {
          if chs[j].title == c.value {
            PositionIsFirst(chs, c.value, ChapterTitle, j);
            return Some(OneChapter(book, vols[i], chs[j]));
          }
          j := j + 1;
        }
        return None;
      }
      i := i + 1;
    }
    return None;
  }

  /** A nested search loop that stops at the first match finds what `ChapterAnywhere` finds. */
  lemma ChapterAnywhereIsFirst(vols: seq<Volume>, c: string, i: nat, j: nat)
    requires i < |vols| && j < |vols[i].chapters| && vols[i].chapters[j].title == c
    requires forall i', j' :: 0 <= i' < i && 0 <= j' < |vols[i'].chapters| ==> vols[i'].chapters[j'].title != c
    requires forall j' :: 0 <= j' < j ==> vols[i].chapters[j'].title != c
    ensures ChapterAnywhere(vols, c) == Some((i, j))
  {
  }

  /** `BookManager`: the index of the library's books. */
  class BookManager {
    var booksIndex: seq<BookIndex>

    constructor (booksIndex: seq<BookIndex>)
      ensures this.booksIndex == booksIndex
    {
      this.booksIndex := booksIndex;
    }

    /** `get_index_bytitle`: the first index entry titled `bookTitle`. */
    method GetIndexByTitle(bookTitle: string) returns (r: Option<BookIndex>)
      ensures var p := Position(booksIndex, bookTitle, IndexTitle);
              r == if p.Some? then Some(booksIndex[p.value]) else None
    {
      var i := 0;
      while i < |booksIndex|
        invariant 0 <= i <= |booksIndex|
        invariant forall j :: 0 <= j < i ==> booksIndex[j].title != bookTitle
      {
        if bookTitle == booksIndex[i].title {
          PositionIsFirst(booksIndex, bookTitle, IndexTitle, i);
          return Some(booksIndex[i]);
        }
        i := i + 1;
      }
      return None;
    }

    /** `get_book_content`: look the book up by title `q`, load it, and cut it to the volume
        `v` and/or chapter `c`; nothing when the book is not in the index. */
    method GetBookContent(q: string, v: Option<string>, c: Option<string>, files: string -> Option<Book>)
      returns (r: Option<Book>)
      ensures var p := Position(booksIndex, q, IndexTitle);
              p.None? ==> r == None
      ensures var p := Position(booksIndex, q, IndexTitle);
              p.Some? && LoadBook(booksIndex[p.value], files).Some? ==>
                r == BookContent(LoadBook(booksIndex[p.value], files).value, v, c)
      ensures var p := Position(booksIndex, q, IndexTitle);
              p.Some? && LoadBook(booksIndex[p.value], files).None? ==> r == None
    {
      var entry := GetIndexByTitle(q);
      if entry.None? {
        return None;
      }
      var book := LoadBook(entry.value, files);
      if book.None? {
        return None;
      }
      r := CutBookContent(book.value, v, c);
    }
  }
}
