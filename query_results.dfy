/** Search results: a book → volume → chapter → hits tree, cut by a global hit index, counted,
    and held by a result object that caches its total and can be limited. */
module QueryPaging {
  import opened Wrappers
  import opened QueryEval

  datatype PieceChapter = PieceChapter(title: string, hits: seq<string>)
  datatype PieceVolume = PieceVolume(title: string, chapters: seq<PieceChapter>)
  datatype PieceBook = PieceBook(title: string, description: string, volumes: seq<PieceVolume>)

  /** One hit together with where it was found: its book (title and description), volume and
      chapter. */
  datatype Hit = Hit(book: string, description: string, volume: string, chapter: string, text: string)

  /** The hits of a run of chapters, volumes or books, in order. */
  function ChapterHits(chs: seq<PieceChapter>): seq<string> {
    if |chs| == 0 then [] else chs[0].hits + ChapterHits(chs[1..])
  }

  function VolumeHits(vols: seq<PieceVolume>): seq<string> {
    if |vols| == 0 then [] else ChapterHits(vols[0].chapters) + VolumeHits(vols[1..])
  }

  function BookHits(books: seq<PieceBook>): seq<string> {
    if |books| == 0 then [] else VolumeHits(books[0].volumes) + BookHits(books[1..])
  }

  lemma {:induction false} ChapterHitsAppend(a: seq<PieceChapter>, b: seq<PieceChapter>)
    ensures ChapterHits(a + b) == ChapterHits(a) + ChapterHits(b)
  {
    if |a| > 0 {
      assert (a + b)[1..] == a[1..] + b;
      ChapterHitsAppend(a[1..], b);
    } else {
      assert a + b == b;
    }
  }

  lemma {:induction false} VolumeHitsAppend(a: seq<PieceVolume>, b: seq<PieceVolume>)
    ensures VolumeHits(a + b) == VolumeHits(a) + VolumeHits(b)
  {
    if |a| > 0 {
      assert (a + b)[1..] == a[1..] + b;
      VolumeHitsAppend(a[1..], b);
    } else {
      assert a + b == b;
    }
  }

  lemma {:induction false} BookHitsAppend(a: seq<PieceBook>, b: seq<PieceBook>)
    ensures BookHits(a + b) == BookHits(a) + BookHits(b)
  {
    if |a| > 0 {
      assert (a + b)[1..] == a[1..] + b;
      BookHitsAppend(a[1..], b);
    } else {
      assert a + b == b;
    }
  }

  function Clamp(x: int, n: nat): (r: nat)
    ensures r <= n
  {
    if x < 0 then 0 else if x > n then n else x
  }

  /** Where the window [start, to) begins and ends inside a run of `n` hits that starts at
      global index `cur`. */
  function WindowLo(cur: nat, start: nat, n: nat): (r: nat)
    ensures r <= n
  {
    Clamp(start - cur, n)
  }

  function WindowHi(cur: nat, start: nat, to: Option<nat>, n: nat): (r: nat)
    ensures WindowLo(cur, start, n) <= r <= n
  {
    var hi := if to.None? then n else Clamp(to.value - cur, n);
    if hi < WindowLo(cur, start, n) then WindowLo(cur, start, n) else hi
  }

  /** The hits of `hs`, which starts at global index `cur`, whose global index lies in
      [start, to), or in [start, ∞) without `to`. */
  function Window<T>(hs: seq<T>, cur: nat, start: nat, to: Option<nat>): seq<T> {
    hs[WindowLo(cur, start, |hs|)..WindowHi(cur, start, to, |hs|)]
  }

  function Min(x: int, y: int): int { if x <= y then x else y }
  function Max(x: int, y: int): int { if x <= y then y else x }

  /** A slice of a concatenation is a slice of each part. */
  lemma SliceAppend<T>(a: seq<T>, b: seq<T>, lo: nat, hi: nat)
    requires lo <= hi <= |a| + |b|
    ensures (a + b)[lo..hi] == a[Min(lo, |a|)..Min(hi, |a|)] + b[Max(lo - |a|, 0)..Max(hi - |a|, 0)]
  {
    if hi <= |a| {
      assert (a + b)[lo..hi] == a[lo..hi];
    } else if lo >= |a| {
      assert (a + b)[lo..hi] == b[lo - |a|..hi - |a|];
    } else {
      var l, r := (a + b)[lo..hi], a[lo..] + b[..hi - |a|];
      assert |l| == |r|;
      forall k | 0 <= k < |l|
        ensures l[k] == r[k]
      {
        if lo + k < |a| {
          assert l[k] == a[lo + k] == r[k];
        } else {
          assert l[k] == b[lo + k - |a|] == r[k];
        }
      }
      assert l == r;
    }
  }

  /** The window of a concatenation is the concatenation of the windows. */
  lemma WindowAppend<T>(h: seq<T>, a: seq<T>, b: seq<T>, cur: nat, start: nat, to: Option<nat>, next: nat)
    requires h == a + b && next == cur + |a|
    ensures Window(h, cur, start, to) == Window(a, cur, start, to) + Window(b, next, start, to)
  {
    var lo, hi := WindowLo(cur, start, |h|), WindowHi(cur, start, to, |h|);
    WindowIs(h, cur, start, to, lo, hi);
    var la, ha := WindowLo(cur, start, |a|), WindowHi(cur, start, to, |a|);
    WindowIs(a, cur, start, to, la, ha);
    var lb, hb := WindowLo(next, start, |b|), WindowHi(next, start, to, |b|);
    WindowIs(b, next, start, to, lb, hb);
    assert h[lo..hi] == a[la..ha] + b[lb..hb] by {
      WindowBoundsSplit(cur, start, to, |a|, |b|, lo, hi);
      SliceSplit(a, b, lo, hi, la, ha, lb, hb);
    }
  }

  /** The window bounds of two adjacent runs are those of the joined run, clamped to each. */
  lemma WindowBoundsSplit(cur: nat, start: nat, to: Option<nat>, na: nat, nb: nat, lo: nat, hi: nat)
    requires lo == WindowLo(cur, start, na + nb) && hi == WindowHi(cur, start, to, na + nb)
    ensures WindowLo(cur, start, na) == Min(lo, na) && WindowHi(cur, start, to, na) == Min(hi, na)
    ensures WindowLo(cur + na, start, nb) == Max(lo - na, 0) && WindowHi(cur + na, start, to, nb) == Max(hi - na, 0)
  {
  }

  lemma WindowIs<T>(hs: seq<T>, cur: nat, start: nat, to: Option<nat>, lo: nat, hi: nat)
    requires lo == WindowLo(cur, start, |hs|) && hi == WindowHi(cur, start, to, |hs|)
    ensures lo <= hi <= |hs| && Window(hs, cur, start, to) == hs[lo..hi]
  {
  }

  /** `SliceAppend` with the clamped bounds given by name. */
  lemma SliceSplit<T>(a: seq<T>, b: seq<T>, lo: nat, hi: nat, la: nat, ha: nat, lb: nat, hb: nat)
    requires lo <= hi <= |a| + |b|
    requires la == Min(lo, |a|) && ha == Min(hi, |a|) && lb == Max(lo - |a|, 0) && hb == Max(hi - |a|, 0)
    ensures la <= ha <= |a| && lb <= hb <= |b| && (a + b)[lo..hi] == a[la..ha] + b[lb..hb]
  {
    SliceAppend(a, b, lo, hi);
  }

  /** A run that ends before `start`, or starts at or after `to`, contributes nothing. */
  lemma WindowOutside<T>(hs: seq<T>, cur: nat, start: nat, to: Option<nat>)
    requires cur + |hs| <= start || (to.Some? && cur >= to.value)
    ensures Window(hs, cur, start, to) == []
  {
  }

  /** The hits numbered from `start` up to `to` (exclusive) of a run starting at index 0. */
  lemma WindowFromZero<T>(hs: seq<T>, start: nat, to: Option<nat>)
    ensures var hi := if to.None? || to.value > |hs| then |hs| else to.value;
            Window(hs, 0, start, to) == if start < hi then hs[start..hi] else []
  {
  }

  // ---------------------------------------------------------------------------
  // __sub, as a function of the tree

  /** The chapter loop of `__sub` from global index `cur`: a chapter wholly before `start` is
      skipped; any other is cut to its hits in the window and kept; once the running count
      reaches `to`, the cut stops (the flag). */
  function SubChapters(chs: seq<PieceChapter>, cur: nat, start: nat, to: Option<nat>)
    : (r: (seq<PieceChapter>, nat, bool))
    requires to.Some? ==> cur < to.value && start < to.value
    ensures r.2 ==> to.Some? && r.1 >= to.value && |r.0| > 0
    ensures !r.2 ==> r.1 == cur + |ChapterHits(chs)|
    ensures cur <= r.1 <= cur + |ChapterHits(chs)|
    ensures !r.2 && to.Some? ==> r.1 < to.value
    decreases |chs|
  {
    if |chs| == 0 then ([], cur, false)
    else
      var ch := chs[0];
      var n := |ch.hits|;
      var end := cur + n;
      if start >= end then SubChapters(chs[1..], end, start, to)
      else
        var lo := if start > cur then start - cur else 0;
        var hi := if to.Some? && to.value - cur < n then to.value - cur else n;
        var piece := PieceChapter(ch.title, ch.hits[lo..hi]);
        if to.Some? && end >= to.value then ([piece], end, true)
        else
          var r := SubChapters(chs[1..], end, start, to);
          ([piece] + r.0, r.1, r.2)
  }

  /** The volume loop of `__sub`: a volume is kept when it kept a chapter, or when the cut
      stopped inside it. */
  function SubVolumes(vols: seq<PieceVolume>, cur: nat, start: nat, to: Option<nat>)
    : (r: (seq<PieceVolume>, nat, bool))
    requires to.Some? ==> cur < to.value && start < to.value
    ensures r.2 ==> to.Some? && r.1 >= to.value && |r.0| > 0
    ensures !r.2 ==> r.1 == cur + |VolumeHits(vols)|
    ensures cur <= r.1 <= cur + |VolumeHits(vols)|
    ensures !r.2 && to.Some? ==> r.1 < to.value
    decreases |vols|
  {
    if |vols| == 0 then ([], cur, false)
    else
      var r := SubChapters(vols[0].chapters, cur, start, to);
      var v := PieceVolume(vols[0].title, r.0);
      if r.2 then ([v], r.1, true)
      else
        var rest := SubVolumes(vols[1..], r.1, start, to);
        ((if |r.0| > 0 then [v] else []) + rest.0, rest.1, rest.2)
  }

  /** The book loop of `__sub`. */
  function SubBooks(books: seq<PieceBook>, cur: nat, start: nat, to: Option<nat>)
    : (r: (seq<PieceBook>, nat, bool))
    requires to.Some? ==> cur < to.value && start < to.value
    ensures r.2 ==> to.Some? && r.1 >= to.value && |r.0| > 0
    ensures !r.2 ==> r.1 == cur + |BookHits(books)|
    ensures cur <= r.1 <= cur + |BookHits(books)|
    ensures !r.2 && to.Some? ==> r.1 < to.value
    decreases |books|
  {
    if |books| == 0 then ([], cur, false)
    else
      var r := SubVolumes(books[0].volumes, cur, start, to);
      var b := PieceBook(books[0].title, books[0].description, r.0);
      if r.2 then ([b], r.1, true)
      else
        var rest := SubBooks(books[1..], r.1, start, to);
        ((if |r.0| > 0 then [b] else []) + rest.0, rest.1, rest.2)
  }

  /** `__sub(start, to)`: nothing when `to <= start`, otherwise the book loop from index 0. */
  function Sub(pieces: seq<PieceBook>, start: nat, to: Option<nat>): seq<PieceBook> {
    if to.Some? && to.value <= start then [] else SubBooks(pieces, 0, start, to).0
  }

  // ---------------------------------------------------------------------------
  // What __sub keeps

  /** The hits of one chapter, each tagged with where it was found. */
  function Tag(b: string, d: string, v: string, c: string, hits: seq<string>): (r: seq<Hit>)
    ensures |r| == |hits|
  {
    seq(|hits|, i requires 0 <= i < |hits| => Hit(b, d, v, c, hits[i]))
  }

  /** The tagged hits of a run of chapters of volume `v` of book `b`, of a run of volumes of
      book `b`, and of a run of books, in order: the tree flattened without losing its shape. */
  function ChapterTags(b: string, d: string, v: string, chs: seq<PieceChapter>): (r: seq<Hit>)
    ensures |r| == |ChapterHits(chs)|
  {
    if |chs| == 0 then [] else Tag(b, d, v, chs[0].title, chs[0].hits) + ChapterTags(b, d, v, chs[1..])
  }

  function VolumeTags(b: string, d: string, vols: seq<PieceVolume>): (r: seq<Hit>)
    ensures |r| == |VolumeHits(vols)|
  {
    if |vols| == 0 then [] else ChapterTags(b, d, vols[0].title, vols[0].chapters) + VolumeTags(b, d, vols[1..])
  }

  function BookTags(books: seq<PieceBook>): (r: seq<Hit>)
    ensures |r| == |BookHits(books)|
  {
    if |books| == 0 then []
    else VolumeTags(books[0].title, books[0].description, books[0].volumes) + BookTags(books[1..])
  }

  /** Cutting a chapter's hits cuts its tagged hits alike. */
  lemma TagSlice(b: string, d: string, v: string, c: string, hits: seq<string>, lo: nat, hi: nat)
    requires lo <= hi <= |hits|
    ensures Tag(b, d, v, c, hits[lo..hi]) == Tag(b, d, v, c, hits)[lo..hi]
  {
  }

  /** A chapter wholly before `start` adds nothing to the window. */
  lemma ChapterBeforeStart(b: string, d: string, v: string, chs: seq<PieceChapter>, cur: nat, start: nat, to: Option<nat>)
    requires |chs| > 0 && start >= cur + |chs[0].hits|
    ensures Window(ChapterTags(b, d, v, chs), cur, start, to)
         == Window(ChapterTags(b, d, v, chs[1..]), cur + |chs[0].hits|, start, to)
  {
    var first := Tag(b, d, v, chs[0].title, chs[0].hits);
    assert ChapterTags(b, d, v, chs) == first + ChapterTags(b, d, v, chs[1..]);
    WindowAppend(ChapterTags(b, d, v, chs), first, ChapterTags(b, d, v, chs[1..]), cur, start, to, cur + |chs[0].hits|);
    WindowOutside(first, cur, start, to);
  }

  /** A chapter reaching past `start` adds its cut hits to the window. */
  lemma ChapterInWindow(b: string, d: string, v: string, chs: seq<PieceChapter>, cur: nat, start: nat, to: Option<nat>,
                        lo: nat, hi: nat)
    requires |chs| > 0 && start < cur + |chs[0].hits|
    requires to.Some? ==> cur < to.value && start < to.value
    requires lo == (if start > cur then start - cur else 0)
    requires hi == (if to.Some? && to.value - cur < |chs[0].hits| then to.value - cur else |chs[0].hits|)
    ensures lo <= hi <= |chs[0].hits|
    ensures Window(ChapterTags(b, d, v, chs), cur, start, to)
         == Tag(b, d, v, chs[0].title, chs[0].hits[lo..hi]) + Window(ChapterTags(b, d, v, chs[1..]), cur + |chs[0].hits|, start, to)
  {
    var first := Tag(b, d, v, chs[0].title, chs[0].hits);
    assert ChapterTags(b, d, v, chs) == first + ChapterTags(b, d, v, chs[1..]);
    WindowAppend(ChapterTags(b, d, v, chs), first, ChapterTags(b, d, v, chs[1..]), cur, start, to, cur + |chs[0].hits|);
    WindowIs(first, cur, start, to, lo, hi);
    TagSlice(b, d, v, chs[0].title, chs[0].hits, lo, hi);
  }

  lemma {:induction false} ChapterTagsAppend(b: string, d: string, v: string, x: seq<PieceChapter>, y: seq<PieceChapter>)
    ensures ChapterTags(b, d, v, x + y) == ChapterTags(b, d, v, x) + ChapterTags(b, d, v, y)
  {
    if |x| > 0 {
      assert (x + y)[1..] == x[1..] + y;
      ChapterTagsAppend(b, d, v, x[1..], y);
    } else {
      assert x + y == y;
    }
  }

  /** The chapter loop keeps exactly the tagged hits in the window. */
  lemma {:induction false} SubChaptersTags(b: string, d: string, v: string, chs: seq<PieceChapter>, cur: nat, start: nat,
                                           to: Option<nat>)
    requires to.Some? ==> cur < to.value && start < to.value
    ensures ChapterTags(b, d, v, SubChapters(chs, cur, start, to).0) == Window(ChapterTags(b, d, v, chs), cur, start, to)
    decreases |chs|
  {
    if |chs| > 0 {
      var ch := chs[0];
      var n := |ch.hits|;
      var end := cur + n;
      if start >= end {
        ChapterBeforeStart(b, d, v, chs, cur, start, to);
        SubChaptersTags(b, d, v, chs[1..], end, start, to);
      } else {
        var lo := if start > cur then start - cur else 0;
        var hi := if to.Some? && to.value - cur < n then to.value - cur else n;
        ChapterInWindow(b, d, v, chs, cur, start, to, lo, hi);
        var piece := PieceChapter(ch.title, ch.hits[lo..hi]);
        assert ChapterTags(b, d, v, [piece]) == Tag(b, d, v, ch.title, ch.hits[lo..hi]) + ChapterTags(b, d, v, []);
        if to.Some? && end >= to.value {
          WindowOutside(ChapterTags(b, d, v, chs[1..]), end, start, to);
        } else {
          var r := SubChapters(chs[1..], end, start, to);
          SubChaptersTags(b, d, v, chs[1..], end, start, to);
          ChapterTagsAppend(b, d, v, [piece], r.0);
        }
      }
    }
  }

  /** Splitting the window at the first volume. */
  lemma VolumeWindowSplit(b: string, d: string, vols: seq<PieceVolume>, cur: nat, start: nat, to: Option<nat>, next: nat)
    requires |vols| > 0 && next == cur + |ChapterHits(vols[0].chapters)|
    ensures Window(VolumeTags(b, d, vols), cur, start, to)
         == Window(ChapterTags(b, d, vols[0].title, vols[0].chapters), cur, start, to)
            + Window(VolumeTags(b, d, vols[1..]), next, start, to)
  {
    var first := ChapterTags(b, d, vols[0].title, vols[0].chapters);
    var rest := VolumeTags(b, d, vols[1..]);
    var h := VolumeTags(b, d, vols);
    assert h == first + rest;
    assert next == cur + |first|;
    WindowAppend(h, first, rest, cur, start, to, next);
  }

  /** Hits made of the window of the first volume's and the window of the rest's are the window
      of all of them. */
  lemma VolumeWindowOf(b: string, d: string, vols: seq<PieceVolume>, cur: nat, start: nat, to: Option<nat>, next: nat,
                       x: seq<Hit>)
    requires |vols| > 0 && next == cur + |ChapterHits(vols[0].chapters)|
    requires x == Window(ChapterTags(b, d, vols[0].title, vols[0].chapters), cur, start, to)
                  + Window(VolumeTags(b, d, vols[1..]), next, start, to)
    ensures x == Window(VolumeTags(b, d, vols), cur, start, to)
  {
    VolumeWindowSplit(b, d, vols, cur, start, to, next);
  }

  /** One step of `SubVolumes`, as an equation on its list. */
  lemma SubVolumesUnfold(vols: seq<PieceVolume>, cur: nat, start: nat, to: Option<nat>)
    requires |vols| > 0
    requires to.Some? ==> cur < to.value && start < to.value
    ensures var r := SubChapters(vols[0].chapters, cur, start, to);
            var v := PieceVolume(vols[0].title, r.0);
            !r.2 ==> SubVolumes(vols, cur, start, to).0
                     == (if |r.0| > 0 then [v] else []) + SubVolumes(vols[1..], r.1, start, to).0
    ensures var r := SubChapters(vols[0].chapters, cur, start, to);
            r.2 ==> SubVolumes(vols, cur, start, to).0 == [PieceVolume(vols[0].title, r.0)]
  {
  }

  lemma {:induction false} VolumeTagsAppend(b: string, d: string, x: seq<PieceVolume>, y: seq<PieceVolume>)
    ensures VolumeTags(b, d, x + y) == VolumeTags(b, d, x) + VolumeTags(b, d, y)
  {
    if |x| > 0 {
      assert (x + y)[1..] == x[1..] + y;
      VolumeTagsAppend(b, d, x[1..], y);
    } else {
      assert x + y == y;
    }
  }

  /** The volume loop keeps exactly the tagged hits in the window. */
  lemma {:induction false} SubVolumesTags(b: string, d: string, vols: seq<PieceVolume>, cur: nat, start: nat, to: Option<nat>)
    requires to.Some? ==> cur < to.value && start < to.value
    ensures VolumeTags(b, d, SubVolumes(vols, cur, start, to).0) == Window(VolumeTags(b, d, vols), cur, start, to)
    decreases |vols|
  {
    if |vols| > 0 {
      var r := SubChapters(vols[0].chapters, cur, start, to);
      if r.2 {
        SubVolumesTagsReached(b, d, vols, cur, start, to);
      } else {
        SubVolumesTagsHead(b, d, vols, cur, start, to);
        SubChaptersTags(b, d, vols[0].title, vols[0].chapters, cur, start, to);
        SubVolumesTags(b, d, vols[1..], r.1, start, to);
        VolumeWindowOf(b, d, vols, cur, start, to, r.1, VolumeTags(b, d, SubVolumes(vols, cur, start, to).0));
      }
    }
  }

  /** When the cut goes on past the first volume, its tagged hits are those kept from the first
      volume followed by those kept from the rest. */
  lemma SubVolumesTagsHead(b: string, d: string, vols: seq<PieceVolume>, cur: nat, start: nat, to: Option<nat>)
    requires |vols| > 0 && (to.Some? ==> cur < to.value && start < to.value)
    requires !SubChapters(vols[0].chapters, cur, start, to).2
    ensures var r := SubChapters(vols[0].chapters, cur, start, to);
            VolumeTags(b, d, SubVolumes(vols, cur, start, to).0)
            == ChapterTags(b, d, vols[0].title, r.0) + VolumeTags(b, d, SubVolumes(vols[1..], r.1, start, to).0)
  {
    var r := SubChapters(vols[0].chapters, cur, start, to);
    var v := PieceVolume(vols[0].title, r.0);
    SubVolumesUnfold(vols, cur, start, to);
    var rest := SubVolumes(vols[1..], r.1, start, to).0;
    var head := if |r.0| > 0 then [v] else [];
    VolumeTagsAppend(b, d, head, rest);
    assert VolumeTags(b, d, head) == ChapterTags(b, d, vols[0].title, r.0) by {
      if |r.0| > 0 {
        assert VolumeTags(b, d, [v]) == ChapterTags(b, d, v.title, r.0) + VolumeTags(b, d, []);
      }
    }
  }

  /** The `SubVolumes` step when the first volume reaches `to`. */
  lemma SubVolumesTagsReached(b: string, d: string, vols: seq<PieceVolume>, cur: nat, start: nat, to: Option<nat>)
    requires |vols| > 0 && (to.Some? ==> cur < to.value && start < to.value)
    requires SubChapters(vols[0].chapters, cur, start, to).2
    ensures VolumeTags(b, d, SubVolumes(vols, cur, start, to).0) == Window(VolumeTags(b, d, vols), cur, start, to)
  {
    var r := SubChapters(vols[0].chapters, cur, start, to);
    var v := PieceVolume(vols[0].title, r.0);
    var first := ChapterTags(b, d, vols[0].title, vols[0].chapters);
    var w1 := Window(first, cur, start, to);
    var w2 := Window(VolumeTags(b, d, vols[1..]), cur + |first|, start, to);
    assert Window(VolumeTags(b, d, vols), cur, start, to) == w1 + w2 by { VolumeWindowSplit(b, d, vols, cur, start, to, cur + |first|); }
    assert ChapterTags(b, d, v.title, r.0) == w1 by { SubChaptersTags(b, d, vols[0].title, vols[0].chapters, cur, start, to); }
    assert w2 == [] by { WindowOutside(VolumeTags(b, d, vols[1..]), cur + |first|, start, to); }
    SubVolumesUnfold(vols, cur, start, to);
    assert VolumeTags(b, d, [v]) == ChapterTags(b, d, v.title, r.0) + VolumeTags(b, d, []);
  }

  /** Splitting the window at the first book. */
  lemma BookWindowSplit(books: seq<PieceBook>, cur: nat, start: nat, to: Option<nat>, next: nat)
    requires |books| > 0 && next == cur + |VolumeHits(books[0].volumes)|
    ensures Window(BookTags(books), cur, start, to)
         == Window(VolumeTags(books[0].title, books[0].description, books[0].volumes), cur, start, to)
            + Window(BookTags(books[1..]), next, start, to)
  {
    var first := VolumeTags(books[0].title, books[0].description, books[0].volumes);
    var rest := BookTags(books[1..]);
    var h := BookTags(books);
    assert h == first + rest;
    assert next == cur + |first|;
    WindowAppend(h, first, rest, cur, start, to, next);
  }

  /** Hits made of the window of the first book's and the window of the rest's are the window of
      all of them. */
  lemma BookWindowOf(books: seq<PieceBook>, cur: nat, start: nat, to: Option<nat>, next: nat, x: seq<Hit>)
    requires |books| > 0 && next == cur + |VolumeHits(books[0].volumes)|
    requires x == Window(VolumeTags(books[0].title, books[0].description, books[0].volumes), cur, start, to)
                  + Window(BookTags(books[1..]), next, start, to)
    ensures x == Window(BookTags(books), cur, start, to)
  {
    BookWindowSplit(books, cur, start, to, next);
  }

  /** One step of `SubBooks`, as an equation on its list. */
  lemma SubBooksUnfold(books: seq<PieceBook>, cur: nat, start: nat, to: Option<nat>)
    requires |books| > 0
    requires to.Some? ==> cur < to.value && start < to.value
    ensures var r := SubVolumes(books[0].volumes, cur, start, to);
            var b := PieceBook(books[0].title, books[0].description, r.0);
            !r.2 ==> SubBooks(books, cur, start, to).0
                     == (if |r.0| > 0 then [b] else []) + SubBooks(books[1..], r.1, start, to).0
    ensures var r := SubVolumes(books[0].volumes, cur, start, to);
            r.2 ==> SubBooks(books, cur, start, to).0 == [PieceBook(books[0].title, books[0].description, r.0)]
  {
  }

  lemma {:induction false} BookTagsAppend(x: seq<PieceBook>, y: seq<PieceBook>)
    ensures BookTags(x + y) == BookTags(x) + BookTags(y)
  {
    if |x| > 0 {
      assert (x + y)[1..] == x[1..] + y;
      BookTagsAppend(x[1..], y);
    } else {
      assert x + y == y;
    }
  }

  /** The book loop keeps exactly the tagged hits in the window. */
  lemma {:induction false} SubBooksTags(books: seq<PieceBook>, cur: nat, start: nat, to: Option<nat>)
    requires to.Some? ==> cur < to.value && start < to.value
    ensures BookTags(SubBooks(books, cur, start, to).0) == Window(BookTags(books), cur, start, to)
    decreases |books|
  {
    if |books| > 0 {
      var r := SubVolumes(books[0].volumes, cur, start, to);
      if r.2 {
        SubBooksTagsReached(books, cur, start, to);
      } else {
        SubBooksTagsHead(books, cur, start, to);
        SubVolumesTags(books[0].title, books[0].description, books[0].volumes, cur, start, to);
        SubBooksTags(books[1..], r.1, start, to);
        BookWindowOf(books, cur, start, to, r.1, BookTags(SubBooks(books, cur, start, to).0));
      }
    }
  }

  /** When the cut goes on past the first book, its tagged hits are those kept from the first
      book followed by those kept from the rest. */
  lemma SubBooksTagsHead(books: seq<PieceBook>, cur: nat, start: nat, to: Option<nat>)
    requires |books| > 0 && (to.Some? ==> cur < to.value && start < to.value)
    requires !SubVolumes(books[0].volumes, cur, start, to).2
    ensures var r := SubVolumes(books[0].volumes, cur, start, to);
            BookTags(SubBooks(books, cur, start, to).0)
            == VolumeTags(books[0].title, books[0].description, r.0) + BookTags(SubBooks(books[1..], r.1, start, to).0)
  {
    var r := SubVolumes(books[0].volumes, cur, start, to);
    var b := PieceBook(books[0].title, books[0].description, r.0);
    SubBooksUnfold(books, cur, start, to);
    var rest := SubBooks(books[1..], r.1, start, to).0;
    var head := if |r.0| > 0 then [b] else [];
    BookTagsAppend(head, rest);
    assert BookTags(head) == VolumeTags(b.title, b.description, r.0) by {
      if |r.0| > 0 {
        assert BookTags([b]) == VolumeTags(b.title, b.description, r.0) + BookTags([]);
      }
    }
  }

  /** The `SubBooks` step when the first book reaches `to`. */
  lemma SubBooksTagsReached(books: seq<PieceBook>, cur: nat, start: nat, to: Option<nat>)
    requires |books| > 0 && (to.Some? ==> cur < to.value && start < to.value)
    requires SubVolumes(books[0].volumes, cur, start, to).2
    ensures BookTags(SubBooks(books, cur, start, to).0) == Window(BookTags(books), cur, start, to)
  {
    var r := SubVolumes(books[0].volumes, cur, start, to);
    var b := PieceBook(books[0].title, books[0].description, r.0);
    var first := VolumeTags(b.title, b.description, books[0].volumes);
    var w1 := Window(first, cur, start, to);
    var w2 := Window(BookTags(books[1..]), cur + |first|, start, to);
    assert Window(BookTags(books), cur, start, to) == w1 + w2 by { BookWindowSplit(books, cur, start, to, cur + |first|); }
    assert VolumeTags(b.title, b.description, r.0) == w1 by {
      SubVolumesTags(b.title, b.description, books[0].volumes, cur, start, to);
    }
    assert w2 == [] by { WindowOutside(BookTags(books[1..]), cur + |first|, start, to); }
    SubBooksUnfold(books, cur, start, to);
    assert BookTags([b]) == VolumeTags(b.title, b.description, r.0) + BookTags([]);
  }

  /** `__sub(start, to)` keeps exactly the hits whose running index lies in [start, to), in
      their original order, each still under its own book (title and description), volume and
      chapter; nothing when `to <= start`. */
  lemma SubKeepsWindow(pieces: seq<PieceBook>, start: nat, to: Option<nat>)
    ensures BookTags(Sub(pieces, start, to)) == Window(BookTags(pieces), 0, start, to)
  {
    if to.Some? && to.value <= start {
      assert Window(BookTags(pieces), 0, start, to) == [];
    } else {
      SubBooksTags(pieces, 0, start, to);
    }
  }

  /** The texts of tagged hits. */
  function Texts(hs: seq<Hit>): (r: seq<string>)
    ensures |r| == |hs|
  {
    seq(|hs|, i requires 0 <= i < |hs| => hs[i].text)
  }

  lemma TextsAppend(x: seq<Hit>, y: seq<Hit>)
    ensures Texts(x + y) == Texts(x) + Texts(y)
  {
  }

  lemma {:induction false} ChapterTexts(b: string, d: string, v: string, chs: seq<PieceChapter>)
    ensures Texts(ChapterTags(b, d, v, chs)) == ChapterHits(chs)
  {
    if |chs| > 0 {
      var first := Tag(b, d, v, chs[0].title, chs[0].hits);
      TextsAppend(first, ChapterTags(b, d, v, chs[1..]));
      ChapterTexts(b, d, v, chs[1..]);
      assert Texts(first) == chs[0].hits;
    }
  }

  lemma {:induction false} VolumeTexts(b: string, d: string, vols: seq<PieceVolume>)
    ensures Texts(VolumeTags(b, d, vols)) == VolumeHits(vols)
  {
    if |vols| > 0 {
      TextsAppend(ChapterTags(b, d, vols[0].title, vols[0].chapters), VolumeTags(b, d, vols[1..]));
      ChapterTexts(b, d, vols[0].title, vols[0].chapters);
      VolumeTexts(b, d, vols[1..]);
    }
  }

  /** Dropping the tags gives back the plain hits. */
  lemma {:induction false} BookTexts(books: seq<PieceBook>)
    ensures Texts(BookTags(books)) == BookHits(books)
  {
    if |books| > 0 {
      TextsAppend(VolumeTags(books[0].title, books[0].description, books[0].volumes), BookTags(books[1..]));
      VolumeTexts(books[0].title, books[0].description, books[0].volumes);
      BookTexts(books[1..]);
    }
  }

  lemma TextsWindow(hs: seq<Hit>, cur: nat, start: nat, to: Option<nat>)
    ensures Texts(Window(hs, cur, start, to)) == Window(Texts(hs), cur, start, to)
  {
  }

  /** The plain hits `__sub(start, to)` keeps: those whose running index lies in [start, to). */
  lemma SubKeepsHits(pieces: seq<PieceBook>, start: nat, to: Option<nat>)
    ensures BookHits(Sub(pieces, start, to)) == Window(BookHits(pieces), 0, start, to)
  {
    SubKeepsWindow(pieces, start, to);
    BookTexts(pieces);
    BookTexts(Sub(pieces, start, to));
    TextsWindow(BookTags(pieces), 0, start, to);
  }

  /** The number of hits `__sub` keeps. */
  lemma SubCount(pieces: seq<PieceBook>, start: nat, to: Option<nat>)
    ensures var total := |BookHits(pieces)|;
            var hi := if to.None? || to.value > total then total else to.value;
            |BookHits(Sub(pieces, start, to))| == if start < hi then hi - start else 0
  {
    SubKeepsHits(pieces, start, to);
    WindowFromZero(BookHits(pieces), start, to);
  }

  /** No volume and no book of a cut is empty. */
  predicate NoEmptyGroups(books: seq<PieceBook>) {
    forall i :: 0 <= i < |books| ==>
      |books[i].volumes| > 0 && forall j :: 0 <= j < |books[i].volumes| ==> |books[i].volumes[j].chapters| > 0
  }

  lemma {:induction false} SubVolumesNonEmpty(vols: seq<PieceVolume>, cur: nat, start: nat, to: Option<nat>)
    requires to.Some? ==> cur < to.value && start < to.value
    ensures var r := SubVolumes(vols, cur, start, to);
            forall j :: 0 <= j < |r.0| ==> |r.0[j].chapters| > 0
    decreases |vols|
  {
    if |vols| > 0 {
      var r := SubChapters(vols[0].chapters, cur, start, to);
      SubVolumesUnfold(vols, cur, start, to);
      if !r.2 {
        SubVolumesNonEmpty(vols[1..], r.1, start, to);
      }
    }
  }

  lemma {:induction false} SubBooksNonEmpty(books: seq<PieceBook>, cur: nat, start: nat, to: Option<nat>)
    requires to.Some? ==> cur < to.value && start < to.value
    ensures NoEmptyGroups(SubBooks(books, cur, start, to).0)
    decreases |books|
  {
    if |books| > 0 {
      var r := SubVolumes(books[0].volumes, cur, start, to);
      var b := PieceBook(books[0].title, books[0].description, r.0);
      SubVolumesNonEmpty(books[0].volumes, cur, start, to);
      SubBooksUnfold(books, cur, start, to);
      var head := if |r.0| > 0 then [b] else [];
      assert NoEmptyGroups(head);
      if !r.2 {
        SubBooksNonEmpty(books[1..], r.1, start, to);
        NoEmptyGroupsAppend(head, SubBooks(books[1..], r.1, start, to).0);
      }
    }
  }

  lemma NoEmptyGroupsAppend(a: seq<PieceBook>, b: seq<PieceBook>)
    requires NoEmptyGroups(a) && NoEmptyGroups(b)
    ensures NoEmptyGroups(a + b)
  {
    assert forall i :: |a| <= i < |a + b| ==> (a + b)[i] == b[i - |a|];
  }

  /** Every book and volume `__sub` returns holds at least one chapter. */
  lemma SubNoEmptyGroups(pieces: seq<PieceBook>, start: nat, to: Option<nat>)
    ensures NoEmptyGroups(Sub(pieces, start, to))
  {
    if !(to.Some? && to.value <= start) {
      SubBooksNonEmpty(pieces, 0, start, to);
    }
  }

  // ---------------------------------------------------------------------------
  // __sub and __count, as the loops they are

  /** A kept prefix followed by what the rest of a loop keeps. */
  function Glue<T>(kept: seq<T>, r: (seq<T>, nat, bool)): (seq<T>, nat, bool) {
    (kept + r.0, r.1, r.2)
  }

  lemma GlueEmpty<T>(r: (seq<T>, nat, bool))
    ensures Glue([], r) == r
  {
    assert [] + r.0 == r.0;
  }

  lemma GlueGlue<T>(kept: seq<T>, more: seq<T>, r: (seq<T>, nat, bool))
    ensures Glue(kept, Glue(more, r)) == Glue(kept + more, r)
  {
    assert kept + (more + r.0) == (kept + more) + r.0;
  }

  /** A first chapter that ends before `start` is skipped. */
  lemma SubChaptersSkip(chs: seq<PieceChapter>, ch: PieceChapter, rest: seq<PieceChapter>,
                        cur: nat, start: nat, to: Option<nat>)
    requires |chs| > 0 && chs[0] == ch && chs[1..] == rest
    requires to.Some? ==> cur < to.value && start < to.value
    requires start >= cur + |ch.hits|
    ensures SubChapters(chs, cur, start, to) == SubChapters(rest, cur + |ch.hits|, start, to)
  {
  }

  /** A first chapter that reaches `start` is cut to `hits[lo..hi]` and kept; the cut stops
      there when the count reaches `to`. */
  lemma SubChaptersTake(chs: seq<PieceChapter>, ch: PieceChapter, rest: seq<PieceChapter>,
                        cur: nat, start: nat, to: Option<nat>, lo: nat, hi: nat)
    requires |chs| > 0 && chs[0] == ch && chs[1..] == rest
    requires to.Some? ==> cur < to.value && start < to.value
    requires start < cur + |ch.hits|
    requires lo == if start > cur then start - cur else 0
    requires hi == if to.Some? && to.value - cur < |ch.hits| then to.value - cur else |ch.hits|
    ensures lo <= hi <= |ch.hits|
    ensures to.Some? && cur + |ch.hits| >= to.value ==>
              SubChapters(chs, cur, start, to) == ([PieceChapter(ch.title, ch.hits[lo..hi])], cur + |ch.hits|, true)
    ensures !(to.Some? && cur + |ch.hits| >= to.value) ==>
              SubChapters(chs, cur, start, to)
              == Glue([PieceChapter(ch.title, ch.hits[lo..hi])], SubChapters(rest, cur + |ch.hits|, start, to))
  {
  }

  /** The chapter loop's invariant carried past a skipped chapter. */
  lemma CutChaptersSkipStep(chs: seq<PieceChapter>, whole: (seq<PieceChapter>, nat, bool), start: nat, to: Option<nat>, i: nat,
                            kept: seq<PieceChapter>, cur: nat, cur': nat)
    requires i < |chs| && (to.Some? ==> cur < to.value && start < to.value)
    requires whole == Glue(kept, SubChapters(chs[i..], cur, start, to))
    requires cur' == cur + |chs[i].hits| && start >= cur'
    ensures to.Some? ==> cur' < to.value
    ensures whole == Glue(kept, SubChapters(chs[i + 1..], cur', start, to))
  {
    assert chs[i..][1..] == chs[i + 1..];
    SubChaptersSkip(chs[i..], chs[i], chs[i + 1..], cur, start, to);
  }

  /** The chapter loop's invariant carried past a kept chapter, or the whole cut when the count
      reaches `to` there; `kept'` and `cur'` are the loop's values after the chapter. */
  lemma CutChaptersTakeStep(chs: seq<PieceChapter>, whole: (seq<PieceChapter>, nat, bool), start: nat, to: Option<nat>, i: nat,
                            kept: seq<PieceChapter>, cur: nat, lo: nat, hi: nat, kept': seq<PieceChapter>, cur': nat)
    requires i < |chs| && (to.Some? ==> cur < to.value && start < to.value)
    requires whole == Glue(kept, SubChapters(chs[i..], cur, start, to))
    requires start < cur + |chs[i].hits|
    requires lo == if start > cur then start - cur else 0
    requires hi == if to.Some? && to.value - cur < |chs[i].hits| then to.value - cur else |chs[i].hits|
    requires lo <= hi <= |chs[i].hits|
    requires kept' == kept + [PieceChapter(chs[i].title, chs[i].hits[lo..hi])]
    requires cur' == cur + |chs[i].hits|
    ensures to.Some? && cur' >= to.value ==> whole == (kept', cur', true)
    ensures !(to.Some? && cur' >= to.value) ==> whole == Glue(kept', SubChapters(chs[i + 1..], cur', start, to))
  {
    var ch := chs[i];
    assert chs[i..][1..] == chs[i + 1..];
    SubChaptersTake(chs[i..], ch, chs[i + 1..], cur, start, to, lo, hi);
    var piece := PieceChapter(ch.title, ch.hits[lo..hi]);
    if !(to.Some? && cur' >= to.value) {
      GlueGlue(kept, [piece], SubChapters(chs[i + 1..], cur', start, to));
    }
  }

  /** The chapter loop's invariant on entry. */
  lemma CutChaptersStart(chs: seq<PieceChapter>, cur0: nat, start: nat, to: Option<nat>)
    requires to.Some? ==> cur0 < to.value && start < to.value
    ensures SubChapters(chs, cur0, start, to) == Glue([], SubChapters(chs[0..], cur0, start, to))
  {
    assert chs[0..] == chs;
    GlueEmpty(SubChapters(chs, cur0, start, to));
  }

  /** The chapter loop's invariant on exit, with every chapter seen. */
  lemma CutChaptersEnd(chs: seq<PieceChapter>, whole: (seq<PieceChapter>, nat, bool), start: nat, to: Option<nat>, kept: seq<PieceChapter>, cur: nat)
    requires to.Some? ==> cur < to.value && start < to.value
    requires whole == Glue(kept, SubChapters(chs[|chs|..], cur, start, to))
    ensures whole == (kept, cur, false)
  {
    assert chs[|chs|..] == [];
    assert kept + [] == kept;
  }

  /** The chapter loop of `__sub`; `reached` is its early return. */
  method CutChapters(chs: seq<PieceChapter>, cur0: nat, start: nat, to: Option<nat>)
    returns (kept: seq<PieceChapter>, cur: nat, reached: bool)
    requires to.Some? ==> cur0 < to.value && start < to.value
    ensures (kept, cur, reached) == SubChapters(chs, cur0, start, to)
  {
    kept, cur, reached := [], cur0, false;
    var i := 0;
    ghost var whole := SubChapters(chs, cur0, start, to);
    CutChaptersStart(chs, cur0, start, to);
    while i < |chs|
      invariant 0 <= i <= |chs|
      invariant to.Some? ==> cur < to.value
      invariant whole == Glue(kept, SubChapters(chs[i..], cur, start, to))
    {
      var chapter := chs[i];
      var chapterLen := |chapter.hits|;
      var endCount := cur + chapterLen;
      if start >= endCount {
        CutChaptersSkipStep(chs, whole, start, to, i, kept, cur, endCount);
        cur := endCount;
        i := i + 1;
        continue;
      }
      var startIdx := if start > cur then start - cur else 0;
      var endIdx := chapterLen;
      if to.Some? && to.value - cur < chapterLen {
        endIdx := to.value - cur;
      }
      ghost var kept0, cur1 := kept, cur;
      kept := kept + [PieceChapter(chapter.title, chapter.hits[startIdx..endIdx])];
      cur := cur + chapterLen;
      CutChaptersTakeStep(chs, whole, start, to, i, kept0, cur1, startIdx, endIdx, kept, cur);
      if to.Some? && cur >= to.value {
        reached := true;
        return;
      }
      i := i + 1;
    }
    CutChaptersEnd(chs, whole, start, to, kept, cur);
  }

  /** The volume loop of `__sub`: a volume is kept when it kept a chapter. */
  method CutVolumes(vols: seq<PieceVolume>, cur0: nat, start: nat, to: Option<nat>)
    returns (kept: seq<PieceVolume>, cur: nat, reached: bool)
    requires to.Some? ==> cur0 < to.value && start < to.value
    ensures (kept, cur, reached) == SubVolumes(vols, cur0, start, to)
  {
    kept, cur, reached := [], cur0, false;
    var i := 0;
    assert vols[0..] == vols;
    GlueEmpty(SubVolumes(vols, cur, start, to));
    while i < |vols|
      invariant 0 <= i <= |vols|
      invariant to.Some? ==> cur < to.value
      invariant SubVolumes(vols, cur0, start, to) == Glue(kept, SubVolumes(vols[i..], cur, start, to))
    {
      assert vols[i..][1..] == vols[i + 1..];
      ghost var cur' := cur;
      var chapters;
      chapters, cur, reached := CutChapters(vols[i].chapters, cur, start, to);
      var volume := PieceVolume(vols[i].title, chapters);
      var head := if |chapters| > 0 then [volume] else [];
      if reached {
        assert SubVolumes(vols[i..], cur', start, to) == ([volume], cur, true);
      } else {
        assert SubVolumes(vols[i..], cur', start, to) == Glue(head, SubVolumes(vols[i + 1..], cur, start, to));
        GlueGlue(kept, head, SubVolumes(vols[i + 1..], cur, start, to));
      }
      if reached {
        kept := kept + [volume];
        return;
      }
      if |chapters| > 0 {
        kept := kept + [volume];
      } else {
        assert kept + head == kept;
      }
      i := i + 1;
    }
    assert kept + [] == kept;
  }

  /** `__sub(start, to)`. */
  method CutBooks(pieces: seq<PieceBook>, start: nat, to: Option<nat>) returns (result: seq<PieceBook>)
    ensures result == Sub(pieces, start, to)
  {
    if to.Some? && to.value <= start {
      return [];
    }
    result := [];
    var cur: nat := 0;
    var i := 0;
    assert pieces[0..] == pieces;
    GlueEmpty(SubBooks(pieces, 0, start, to));
    while i < |pieces|
      invariant 0 <= i <= |pieces|
      invariant to.Some? ==> cur < to.value
      invariant SubBooks(pieces, 0, start, to) == Glue(result, SubBooks(pieces[i..], cur, start, to))
    {
      assert pieces[i..][1..] == pieces[i + 1..];
      ghost var cur' := cur;
      var volumes, reached;
      volumes, cur, reached := CutVolumes(pieces[i].volumes, cur, start, to);
      var book := PieceBook(pieces[i].title, pieces[i].description, volumes);
      var head := if |volumes| > 0 then [book] else [];
      if reached {
        assert SubBooks(pieces[i..], cur', start, to) == ([book], cur, true);
      } else {
        assert SubBooks(pieces[i..], cur', start, to) == Glue(head, SubBooks(pieces[i + 1..], cur, start, to));
        GlueGlue(result, head, SubBooks(pieces[i + 1..], cur, start, to));
      }
      if reached {
        result := result + [book];
        return;
      }
      if |volumes| > 0 {
        result := result + [book];
      } else {
        assert result + head == result;
      }
      i := i + 1;
    }
  }

  /** `__count`: the number of hits in the tree. */
  method CountPieces(pieces: seq<PieceBook>) returns (count: nat)
    ensures count == |BookHits(pieces)|
  {
    count := 0;
    var i := 0;
    while i < |pieces|
      invariant 0 <= i <= |pieces|
      invariant count + |BookHits(pieces[i..])| == |BookHits(pieces)|
    {
      assert pieces[i..][1..] == pieces[i + 1..];
      var vols := pieces[i].volumes;
      var j := 0;
      while j < |vols|
        invariant 0 <= j <= |vols|
        invariant count + |VolumeHits(vols[j..])| + |BookHits(pieces[i + 1..])| == |BookHits(pieces)|
      {
        assert vols[j..][1..] == vols[j + 1..];
        var chs := vols[j].chapters;
        var k := 0;
        while k < |chs|
          invariant 0 <= k <= |chs|
          invariant count + |ChapterHits(chs[k..])| + |VolumeHits(vols[j + 1..])| + |BookHits(pieces[i + 1..])|
                    == |BookHits(pieces)|
        {
          assert chs[k..][1..] == chs[k + 1..];
          count := count + |chs[k].hits|;
          k := k + 1;
        }
        j := j + 1;
      }
      i := i + 1;
    }
  }

  // ---------------------------------------------------------------------------
  // Paging laws

  /** Limiting to `n` keeps exactly the first `n` hits, or all of them when there are fewer. */
  lemma LimitKeepsFirst(pieces: seq<PieceBook>, n: nat)
    ensures BookTags(Sub(pieces, 0, Some(n))) == BookTags(pieces)[..Min(n, |BookHits(pieces)|)]
  {
    SubKeepsWindow(pieces, 0, Some(n));
    WindowFromZero(BookTags(pieces), 0, Some(n));
  }

  /** Two adjacent windows [a, b) and [b, c) of a run from index 0 make up the window [a, c). */
  lemma WindowsJoin<T>(h: seq<T>, a: nat, b: nat, c: Option<nat>)
    requires a <= b && (c.Some? ==> b <= c.value)
    ensures Window(h, 0, a, Some(b)) + Window(h, 0, b, c) == Window(h, 0, a, c)
  {
    WindowFromZero(h, a, Some(b));
    WindowFromZero(h, b, c);
    WindowFromZero(h, a, c);
    var hb := if b > |h| then |h| else b;
    var hc := if c.None? || c.value > |h| then |h| else c.value;
    if a < hb && hb < hc {
      assert h[a..hb] + h[hb..hc] == h[a..hc];
    }
  }

  /** Two consecutive pages [a, b) and [b, c) hold together the tagged hits of the page [a, c). */
  lemma PagesJoin(pieces: seq<PieceBook>, a: nat, b: nat, c: Option<nat>)
    requires a <= b && (c.Some? ==> b <= c.value)
    ensures BookTags(Sub(pieces, a, Some(b))) + BookTags(Sub(pieces, b, c)) == BookTags(Sub(pieces, a, c))
  {
    SubKeepsWindow(pieces, a, Some(b));
    SubKeepsWindow(pieces, b, c);
    SubKeepsWindow(pieces, a, c);
    WindowsJoin(BookTags(pieces), a, b, c);
  }

  /** Limiting twice to the same bound keeps the same hits as limiting once. */
  lemma LimitTwice(pieces: seq<PieceBook>, n: Option<nat>)
    ensures BookTags(Sub(Sub(pieces, 0, n), 0, n)) == BookTags(Sub(pieces, 0, n))
  {
    var once := Sub(pieces, 0, n);
    SubKeepsWindow(pieces, 0, n);
    SubKeepsWindow(once, 0, n);
    WindowFromZero(BookTags(pieces), 0, n);
    WindowFromZero(BookTags(once), 0, n);
  }

  /** Taking the first element off `a` and a matching element off `b` keeps the multisets equal. */
  lemma MultisetRemoveMatch<T>(a: seq<T>, b: seq<T>, j: nat)
    requires multiset(a) == multiset(b) && |a| > 0 && j < |b| && b[j] == a[0]
    ensures multiset(a[1..]) == multiset(b[..j] + b[j + 1..])
  {
    var rest := b[..j] + b[j + 1..];
    assert b == b[..j] + [b[j]] + b[j + 1..];
    assert a == [a[0]] + a[1..];
    var one := multiset{a[0]};
    var ma, mr := multiset(a[1..]), multiset(rest);
    assert ma + one == multiset(a);
    assert mr + one == multiset(b);
    assert ma == (ma + one) - one;
    assert mr == (mr + one) - one;
  }

  /** The hits of a list are those of one book plus those of the others. */
  lemma BookHitsWithout(b: seq<PieceBook>, j: nat)
    requires j < |b|
    ensures |BookHits(b)| == |VolumeHits(b[j].volumes)| + |BookHits(b[..j] + b[j + 1..])|
  {
    assert b == b[..j] + [b[j]] + b[j + 1..];
    BookHitsAppend(b[..j] + [b[j]], b[j + 1..]);
    BookHitsAppend(b[..j], [b[j]]);
    BookHitsAppend(b[..j], b[j + 1..]);
    assert BookHits([b[j]]) == VolumeHits(b[j].volumes) + BookHits([]);
  }

  /** The number of hits does not depend on the order of the books. */
  lemma {:induction false} PermutationKeepsCount(a: seq<PieceBook>, b: seq<PieceBook>)
    requires multiset(a) == multiset(b)
    ensures |BookHits(a)| == |BookHits(b)|
    decreases |a|
  {
    if |a| == 0 {
      assert |b| == |multiset(b)| == 0;
    } else {
      assert a[0] in multiset(b);
      var j :| 0 <= j < |b| && b[j] == a[0];
      var rest := b[..j] + b[j + 1..];
      MultisetRemoveMatch(a, b, j);
      PermutationKeepsCount(a[1..], rest);
      BookHitsWithout(b, j);
      assert |BookHits(a)| == |VolumeHits(a[0].volumes)| + |BookHits(a[1..])|;
    }
  }

  // ---------------------------------------------------------------------------
  // The result object

  /** `QueryResults`: the query it answers, the number of books searched, the cached total of
      hits, and the result tree. */
  class QueryResults {
    const queryObject: Option<QueryObject>
    var queryTargetCount: Option<nat>
    var resultPiecesCount: Option<nat>
    var resultPieces: seq<PieceBook>

    constructor (queryObject: Option<QueryObject>)
      ensures this.queryObject == queryObject
      ensures queryTargetCount == None && resultPiecesCount == None && resultPieces == []
    {
      this.queryObject := queryObject;
      queryTargetCount := None;
      resultPiecesCount := None;
      resultPieces := [];
    }

    /** `add_result_pieces`: append the given books, then reorder the whole list by title. */
    method AddResultPieces(more: Option<seq<PieceBook>>)
      modifies this
      ensures more.None? ==> resultPieces == old(resultPieces)
      ensures more.Some? ==> multiset(resultPieces) == multiset(old(resultPieces) + more.value)
      ensures queryTargetCount == old(queryTargetCount) && resultPiecesCount == old(resultPiecesCount)
    {
      if more.Some? {
        var all := resultPieces + more.value;
        assert multiset(all) == multiset(all);
        var sorted :| multiset(sorted) == multiset(all);
        resultPieces := sorted;
      }
    }

    /** The `result_pieces_count` getter: the cached total, counted and cached on first use. */
    method ResultPiecesCount() returns (count: nat)
      modifies this
      ensures old(resultPiecesCount).Some? ==> count == old(resultPiecesCount).value
      ensures old(resultPiecesCount).None? ==> count == |BookHits(resultPieces)|
      ensures resultPiecesCount == Some(count)
      ensures resultPieces == old(resultPieces) && queryTargetCount == old(queryTargetCount)
    {
      if resultPiecesCount.None? {
        var c := CountPieces(resultPieces);
        resultPiecesCount := Some(c);
      }
      count := resultPiecesCount.value;
    }

    /** `sub(start, to)`: a new result object holding the cut, which inherits this object's
        query, total and target count; nothing when the cut is empty. */
    method SubResults(start: nat, to: Option<nat>) returns (r: Option<QueryResults>)
      modifies this
      ensures r.None? <==> Sub(resultPieces, start, to) == []
      ensures r.Some? ==> fresh(r.value)
      ensures r.Some? ==> r.value.queryObject == queryObject && r.value.queryTargetCount == queryTargetCount
      ensures r.Some? ==> multiset(r.value.resultPieces) == multiset(Sub(resultPieces, start, to))
      ensures r.Some? ==> r.value.resultPiecesCount == resultPiecesCount
      ensures r.Some? ==> resultPiecesCount
                          == (if old(resultPiecesCount).None? then Some(|BookHits(resultPieces)|) else old(resultPiecesCount))
      ensures r.None? ==> resultPiecesCount == old(resultPiecesCount)
      ensures resultPieces == old(resultPieces) && queryTargetCount == old(queryTargetCount)
    {
      var result := CutBooks(resultPieces, start, to);
      if |result| > 0 {
        var qo := new QueryResults(queryObject);
        var count := ResultPiecesCount();
        qo.resultPiecesCount := Some(count);
        qo.AddResultPieces(Some(result));
        qo.queryTargetCount := queryTargetCount;
        assert [] + result == result;
        return Some(qo);
      }
      return None;
    }

    /** `limit(n)`: cache the total first, then keep only the first `n` hits. */
    method Limit(limit: Option<nat>)
      modifies this
      ensures resultPiecesCount
              == (if old(resultPiecesCount).None? then Some(|BookHits(old(resultPieces))|) else old(resultPiecesCount))
      ensures resultPieces == Sub(old(resultPieces), 0, limit)
      ensures queryTargetCount == old(queryTargetCount)
    {
      if resultPiecesCount.None? {
        var c := CountPieces(resultPieces);
        resultPiecesCount := Some(c);
      }
      var result := CutBooks(resultPieces, 0, limit);
      resultPieces := result;
    }
  }
}
