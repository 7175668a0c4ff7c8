/**
 * The synchronisation logic of the reading view: which chapter holds a page, which pages,
 * segments and chapters are on screen, the reading position derived from scroll geometry,
 * progress persistence and the dwell-delayed lazy loading of condensed content.
 *
 * Geometry (bounding rectangles, viewport height) is given as reals; observers, timers and
 * the interval are replaced by the events of `ReaderEngine`.
 */
module Reader {
  import opened Wrappers
  import Json

  /** A chapter of the book: its id and the original page numbers it covers. */
  datatype Chapter = Chapter(id: int, original: seq<int>)

  /** The part of a bounding client rectangle the reader looks at. */
  datatype Rect = Rect(top: real, bottom: real, height: real)

  /** Every chapter covers at least one original page. */
  predicate ValidChapters(chapters: seq<Chapter>) {
    forall k :: 0 <= k < |chapters| ==> |chapters[k].original| > 0
  }

  // ---------------------------------------------------------------------------------------
  // Minimum and maximum of a page list (`Math.min(...pages)`, `Math.max(...pages)`)

  function MinOf(s: seq<int>): (m: int)
    requires |s| > 0
    ensures m in s
    ensures forall x :: x in s ==> m <= x
  {
    if |s| == 1 then s[0]
    else
      var r := MinOf(s[1..]);
      assert forall x :: x in s ==> x == s[0] || x in s[1..];
      if s[0] <= r then s[0] else r
  }

  function MaxOf(s: seq<int>): (m: int)
    requires |s| > 0
    ensures m in s
    ensures forall x :: x in s ==> x <= m
  {
    if |s| == 1 then s[0]
    else
      var r := MaxOf(s[1..]);
      assert forall x :: x in s ==> x == s[0] || x in s[1..];
      if s[0] >= r then s[0] else r
  }

  function RealMax(a: real, b: real): real {
    if a >= b then a else b
  }

  function RealMin(a: real, b: real): real {
    if a <= b then a else b
  }

  // ---------------------------------------------------------------------------------------
  // Scroll progress through a tall chapter, and the page it corresponds to

  /**
   * How far a chapter taller than the viewport has been scrolled through: the part scrolled
   * above the viewport top over the part that does not fit, clamped to [0, 1]. Only called
   * for chapters taller than the viewport.
   */
  function ChapterProgress(top: real, height: real, viewportHeight: real): (p: real)
    requires height > viewportHeight
    ensures 0.0 <= p <= 1.0
    ensures top >= 0.0 ==> p == 0.0
    ensures -top >= height - viewportHeight ==> p == 1.0
    ensures 0.0 <= -top <= height - viewportHeight ==> p * (height - viewportHeight) == -top
  {
    var d := height - viewportHeight;
    var q := -top / d;
    QuotientBounds(-top, d);
    RealMax(0.0, RealMin(1.0, q))
  }

  /** Sign and size facts about `a / d` for a positive `d`. */
  lemma QuotientBounds(a: real, d: real)
    requires d > 0.0
    ensures a <= 0.0 <==> a / d <= 0.0
    ensures a >= d <==> a / d >= 1.0
    ensures (a / d) * d == a
  {
    var q := a / d;
    assert q * d == a;
    if q > 0.0 {
      assert q * d > 0.0;
    }
    if q < 1.0 {
      assert q * d < d;
    }
  }

  /**
   * The page a progress fraction points at inside a chapter's original pages: the pages
   * `min..max` are laid out evenly over [0, 1] and the result is clamped to that range.
   */
  function PageFromProgress(pages: seq<int>, progress: real): (page: int)
    requires |pages| > 0
    ensures MinOf(pages) <= page <= MaxOf(pages)
    ensures progress <= 0.0 ==> page == MinOf(pages)
    ensures progress >= 1.0 ==> page == MaxOf(pages)
  {
    var lo := MinOf(pages);
    var hi := MaxOf(pages);
    var raw := ProgressOffset(lo, hi, progress);
    if hi <= raw then hi else if lo >= raw then lo else raw
  }

  /** `floor(lo + progress * (hi - lo + 1))`, before clamping. */
  function ProgressOffset(lo: int, hi: int, progress: real): (raw: int)
    requires lo <= hi
    ensures progress <= 0.0 ==> raw <= lo
    ensures progress >= 1.0 ==> raw >= hi + 1
  {
    var total := hi - lo + 1;
    assert progress <= 0.0 ==> progress * total as real <= 0.0;
    assert progress >= 1.0 ==> progress * total as real >= total as real;
    (lo as real + progress * total as real).Floor
  }

  lemma ProgressOffsetMonotone(lo: int, hi: int, p: real, q: real)
    requires lo <= hi && p <= q
    ensures ProgressOffset(lo, hi, p) <= ProgressOffset(lo, hi, q)
  {
    var total := (hi - lo + 1) as real;
    assert p * total <= q * total;
    var a := lo as real + p * total;
    var b := lo as real + q * total;
    assert a.Floor as real <= a <= b < b.Floor as real + 1.0;
  }

  /** A larger progress never gives an earlier page. */
  lemma PageFromProgressMonotone(pages: seq<int>, p: real, q: real)
    requires |pages| > 0
    requires p <= q
    ensures PageFromProgress(pages, p) <= PageFromProgress(pages, q)
  {
    ProgressOffsetMonotone(MinOf(pages), MaxOf(pages), p, q);
  }

  // ---------------------------------------------------------------------------------------
  // Chapter lookup

  /** The chapter's original pages span `page`. */
  predicate Covers(c: Chapter, page: int) {
    |c.original| > 0 && MinOf(c.original) <= page <= MaxOf(c.original)
  }

  /** Index of the first chapter, in book order, whose page span holds `page`. */
  function ChapterForPage(chapters: seq<Chapter>, page: int): (r: Option<nat>)
    ensures r.Some? ==> r.value < |chapters| && Covers(chapters[r.value], page)
    ensures r.Some? ==> forall j :: 0 <= j < r.value ==> !Covers(chapters[j], page)
    ensures r.None? ==> forall j :: 0 <= j < |chapters| ==> !Covers(chapters[j], page)
  {
    if |chapters| == 0 then None
    else if Covers(chapters[0], page) then Some(0)
    else
      match ChapterForPage(chapters[1..], page)
      case None => None
      case Some(i) => Some(i + 1)
  }

  /** Index of the first chapter with the given id. */
  function FindChapter(chapters: seq<Chapter>, id: int): (r: Option<nat>)
    ensures r.Some? ==> r.value < |chapters| && chapters[r.value].id == id
    ensures r.Some? ==> forall j :: 0 <= j < r.value ==> chapters[j].id != id
    ensures r.None? ==> forall j :: 0 <= j < |chapters| ==> chapters[j].id != id
  {
    if |chapters| == 0 then None
    else if chapters[0].id == id then Some(0)
    else
      match FindChapter(chapters[1..], id)
      case None => None
      case Some(i) => Some(i + 1)
  }

  // ---------------------------------------------------------------------------------------
  // Lists of visible pages and segments (kept sorted ascending)

  predicate Sorted(s: seq<int>) {
    forall i, j :: 0 <= i < j < |s| ==> s[i] <= s[j]
  }

  /** Sorted without repetitions. */
  predicate Increasing(s: seq<int>) {
    forall i, j :: 0 <= i < j < |s| ==> s[i] < s[j]
  }

  predicate NoDup(s: seq<int>) {
    forall i, j :: 0 <= i < j < |s| ==> s[i] != s[j]
  }

  /** Inserts `x` into a sorted list before the first element larger than it. */
  function Insert(s: seq<int>, x: int): (r: seq<int>)
    ensures multiset(r) == multiset(s) + multiset{x}
    ensures forall y :: y in r <==> y in s || y == x
  {
    if |s| == 0 then [x]
    else if x < s[0] then [x] + s
    else
      assert s == [s[0]] + s[1..];
      [s[0]] + Insert(s[1..], x)
  }

  lemma {:induction false} InsertSorted(s: seq<int>, x: int)
    requires Sorted(s)
    ensures Sorted(Insert(s, x))
  {
    if |s| > 0 && x >= s[0] {
      assert Sorted(s[1..]);
      InsertSorted(s[1..], x);
      assert forall y :: y in s[1..] ==> s[0] <= y;
      SortedCons(s[0], Insert(s[1..], x));
    }
  }

  lemma SortedCons(a: int, t: seq<int>)
    requires Sorted(t) && forall y :: y in t ==> a <= y
    ensures Sorted([a] + t)
  {
    forall i, j | 0 <= i < j < |t| + 1
      ensures ([a] + t)[i] <= ([a] + t)[j]
    {
      assert ([a] + t)[j] == t[j - 1] && t[j - 1] in t;
      if i > 0 {
        assert ([a] + t)[i] == t[i - 1];
      }
    }
  }

  lemma IncreasingCons(a: int, t: seq<int>)
    requires Increasing(t) && forall y :: y in t ==> a < y
    ensures Increasing([a] + t)
  {
    forall i, j | 0 <= i < j < |t| + 1
      ensures ([a] + t)[i] < ([a] + t)[j]
    {
      assert ([a] + t)[j] == t[j - 1] && t[j - 1] in t;
      if i > 0 {
        assert ([a] + t)[i] == t[i - 1];
      }
    }
  }

  /** The ascending numeric sort `sort((a, b) => a - b)`. */
  function SortAscending(s: seq<int>): (r: seq<int>)
    ensures Sorted(r)
    ensures multiset(r) == multiset(s)
  {
    if |s| == 0 then []
    else
      assert s == s[..|s| - 1] + [s[|s| - 1]];
      InsertSorted(SortAscending(s[..|s| - 1]), s[|s| - 1]);
      Insert(SortAscending(s[..|s| - 1]), s[|s| - 1])
  }

  /** The list without any occurrence of `x`, `filter(p => p !== x)`. */
  function Without(s: seq<int>, x: int): (r: seq<int>)
    ensures forall y :: y in r <==> y in s && y != x
    ensures |r| <= |s|
  {
    if |s| == 0 then []
    else
      assert forall y :: y in s ==> y == s[0] || y in s[1..];
      (if s[0] == x then [] else [s[0]]) + Without(s[1..], x)
  }

  /**
   * The visible-page update of an observed page that came into view: a page already listed
   * leaves the list as it is; otherwise the list with the page added is sorted ascending.
   */
  function AddVisible(prev: seq<int>, page: int): (r: seq<int>)
    ensures page in r
    ensures forall x :: x in r <==> x in prev || x == page
    ensures page in prev ==> r == prev
    ensures page !in prev ==> Sorted(r) && multiset(r) == multiset(prev) + multiset{page}
  {
    if page in prev then prev
    else
      var r := SortAscending(prev + [page]);
      assert forall x :: x in r <==> x in multiset(r);
      r
  }

  /** The visible-page update of an observed page that left the view. */
  function RemoveVisible(prev: seq<int>, page: int): (r: seq<int>)
    ensures page !in r
    ensures forall x :: x != page ==> (x in r <==> x in prev)
  {
    Without(prev, page)
  }

  lemma {:induction false} InsertIncreasing(s: seq<int>, x: int)
    requires Increasing(s) && x !in s
    ensures Increasing(Insert(s, x))
  {
    if |s| > 0 && x > s[0] {
      assert Increasing(s[1..]);
      InsertIncreasing(s[1..], x);
      assert forall y :: y in s[1..] ==> s[0] < y;
      IncreasingCons(s[0], Insert(s[1..], x));
    } else if |s| > 0 {
      IncreasingCons(x, s);
    }
  }

  /** Inserting an element no smaller than any listed appends it. */
  lemma {:induction false} InsertLargest(s: seq<int>, x: int)
    requires Sorted(s)
    requires forall y :: y in s ==> y <= x
    ensures Insert(s, x) == s + [x]
  {
    if |s| > 0 {
      assert s[0] in s;
      assert Sorted(s[1..]);
      assert forall y :: y in s[1..] ==> y in s;
      InsertLargest(s[1..], x);
      assert s == [s[0]] + s[1..];
    }
  }

  /** Sorting an already sorted list leaves it as it is. */
  lemma {:induction false} SortSorted(s: seq<int>)
    requires Sorted(s)
    ensures SortAscending(s) == s
  {
    if |s| > 0 {
      var init := s[..|s| - 1];
      assert Sorted(init);
      SortSorted(init);
      assert forall y :: y in init ==> y <= s[|s| - 1];
      InsertLargest(init, s[|s| - 1]);
      assert init + [s[|s| - 1]] == s;
    }
  }

  /** Adding a page to a strictly increasing visible list keeps it strictly increasing. */
  lemma AddVisibleIncreasing(prev: seq<int>, page: int)
    requires Increasing(prev)
    ensures Increasing(AddVisible(prev, page))
  {
    if page !in prev {
      assert (prev + [page])[..|prev|] == prev;
      SortSorted(prev);
      InsertIncreasing(prev, page);
    }
  }

  lemma {:induction false} WithoutIncreasing(s: seq<int>, x: int)
    requires Increasing(s)
    ensures Increasing(Without(s, x))
  {
    if |s| > 0 {
      assert Increasing(s[1..]);
      WithoutIncreasing(s[1..], x);
      var t := Without(s[1..], x);
      assert forall y :: y in s[1..] ==> s[0] < y;
      assert forall y :: y in t ==> s[0] < y;
      if s[0] != x {
        IncreasingCons(s[0], t);
      } else {
        assert Without(s, x) == t;
      }
    }
  }

  lemma {:induction false} WithoutNoDup(s: seq<int>, x: int)
    requires NoDup(s)
    ensures NoDup(Without(s, x))
  {
    if |s| > 0 {
      assert NoDup(s[1..]);
      WithoutNoDup(s[1..], x);
      var t := Without(s[1..], x);
      assert s[0] !in s[1..];
      assert s[0] !in t;
    }
  }

  // ---------------------------------------------------------------------------------------
  // Chapter visibility (the 40 % rule)

  function PositivePart(x: real): real {
    RealMax(0.0, x)
  }

  /**
   * Whether `min((vh - max(0, -top) - max(0, bottom - vh)) / height, 1) * 100 >= 40` holds
   * under floating-point division: for a zero height the quotient is +Infinity, NaN or
   * -Infinity as the numerator is positive, zero or negative.
   */
  predicate ReachesFortyPercent(rect: Rect, viewportHeight: real) {
    var visible := viewportHeight - PositivePart(-rect.top) - PositivePart(rect.bottom - viewportHeight);
    if rect.height == 0.0 then visible > 0.0
    else RealMin(visible / rect.height, 1.0) * 100.0 >= 40.0
  }

  /** An observed chapter is kept visible when it intersects and is taller than the viewport or passes the 40 % rule. */
  predicate ChapterShown(intersecting: bool, rect: Rect, viewportHeight: real) {
    intersecting && (rect.height > viewportHeight || ReachesFortyPercent(rect, viewportHeight))
  }

  /** The visible-chapter-id update for one observer entry. */
  function UpdateVisibleChapters(prev: seq<int>, id: int, intersecting: bool, rect: Rect, viewportHeight: real): (r: seq<int>)
    ensures id in r <==> ChapterShown(intersecting, rect, viewportHeight)
    ensures intersecting && rect.height > viewportHeight ==> id in r
    ensures !intersecting ==> id !in r
    ensures forall y :: y != id ==> (y in r <==> y in prev)
    ensures id in prev && ChapterShown(intersecting, rect, viewportHeight) ==> r == prev
    ensures NoDup(prev) ==> NoDup(r)
  {
    if ChapterShown(intersecting, rect, viewportHeight) then
      if id in prev then prev else prev + [id]
    else
      WithoutNoDupFact(prev, id);
      Without(prev, id)
  }

  /** Helper stating the `NoDup` preservation of `Without` as an implication usable in expressions. */
  lemma WithoutNoDupFact(s: seq<int>, x: int)
    ensures NoDup(s) ==> NoDup(Without(s, x))
  {
    if NoDup(s) {
      WithoutNoDup(s, x);
    }
  }

  /**
   * A chapter that really overlaps the viewport and is at most 5/7 of its height always passes
   * the 40 % rule: the measure subtracts the hidden part from the viewport height rather than
   * from the chapter height, so it never drops below `vh - height`.
   */
  lemma ShortChapterAlwaysShown(rect: Rect, viewportHeight: real)
    requires rect.height > 0.0 && rect.bottom == rect.top + rect.height
    requires rect.top < viewportHeight && rect.bottom > 0.0
    requires 7.0 * rect.height <= 5.0 * viewportHeight
    ensures ChapterShown(true, rect, viewportHeight)
  {
    var above := PositivePart(-rect.top);
    var below := PositivePart(rect.bottom - viewportHeight);
    var visible := viewportHeight - above - below;
    assert above < rect.height;
    assert below == 0.0 || above == 0.0;
    assert below < rect.height;
    assert visible > viewportHeight - rect.height;
    assert visible >= 0.4 * rect.height;
    QuotientAtLeast(visible, rect.height, 0.4);
  }

  lemma QuotientAtLeast(a: real, d: real, c: real)
    requires d > 0.0 && a >= c * d
    ensures a / d >= c
  {
    var q := a / d;
    assert q * d == a;
    if q < c {
      assert q * d < c * d;
    }
  }

  // ---------------------------------------------------------------------------------------
  // Reading position

  /** Index of the chapter, latest in book order, whose id is visible. */
  function LastVisible(chapters: seq<Chapter>, ids: seq<int>): (r: Option<nat>)
    ensures r.Some? ==> r.value < |chapters| && chapters[r.value].id in ids
    ensures r.Some? ==> forall j :: r.value < j < |chapters| ==> chapters[j].id !in ids
    ensures r.None? ==> forall j :: 0 <= j < |chapters| ==> chapters[j].id !in ids
  {
    if |chapters| == 0 then None
    else if chapters[|chapters| - 1].id in ids then Some(|chapters| - 1)
    else LastVisible(chapters[..|chapters| - 1], ids)
  }

  /** The chapters, in book order, whose ids are visible (`chapters.filter(c => ids.includes(c.id))`). */
  function VisibleChapters(chapters: seq<Chapter>, ids: seq<int>): (r: seq<Chapter>)
    ensures |r| <= |chapters|
    ensures forall c :: c in r ==> c in chapters && c.id in ids
    ensures forall k :: 0 <= k < |chapters| && chapters[k].id in ids ==> chapters[k] in r
    ensures |r| > 0 <==> LastVisible(chapters, ids).Some?
    ensures |r| > 0 ==> r[|r| - 1] == chapters[LastVisible(chapters, ids).value]
  {
    if |chapters| == 0 then []
    else
      var init := chapters[..|chapters| - 1];
      var last := chapters[|chapters| - 1];
      assert forall c :: c in chapters ==> c in init || c == last;
      assert forall k :: 0 <= k < |init| ==> init[k] == chapters[k];
      VisibleChapters(init, ids) + (if last.id in ids then [last] else [])
  }

  /**
   * The reading position in the condensed view. With no visible chapter it is 1; otherwise it
   * lies in the page span of the visible chapter latest in book order: its first page when its
   * element is not found, its last page when it fits in the viewport, and the page the scroll
   * progress points at when it is taller.
   */
  function CurrentPage(chapters: seq<Chapter>, ids: seq<int>, element: Option<Rect>, viewportHeight: real): (page: int)
    requires ValidChapters(chapters)
    ensures LastVisible(chapters, ids).None? ==> page == 1
    ensures LastVisible(chapters, ids).Some? ==>
      var c := chapters[LastVisible(chapters, ids).value];
      && MinOf(c.original) <= page <= MaxOf(c.original)
      && (element.None? ==> page == MinOf(c.original))
      && (element.Some? && element.value.height <= viewportHeight ==> page == MaxOf(c.original))
      && (element.Some? && element.value.height > viewportHeight ==>
            page == PageFromProgress(c.original, ChapterProgress(element.value.top, element.value.height, viewportHeight)))
  {
    var visible := VisibleChapters(chapters, ids);
    if |ids| == 0 || |visible| == 0 then 1
    else
      var chapter := visible[|visible| - 1];
      match element
      case None => MinOf(chapter.original)
      case Some(rect) =>
        if rect.height > viewportHeight then
          PageFromProgress(chapter.original, ChapterProgress(rect.top, rect.height, viewportHeight))
        else MaxOf(chapter.original)
  }

  /**
   * A tall latest-visible chapter whose top is at or below the viewport top reads as its first
   * page; scrolled until its bottom reaches the viewport bottom it reads as its last page.
   */
  lemma TallChapterEnds(chapters: seq<Chapter>, ids: seq<int>, rect: Rect, viewportHeight: real)
    requires ValidChapters(chapters)
    requires LastVisible(chapters, ids).Some?
    requires rect.height > viewportHeight
    ensures var c := chapters[LastVisible(chapters, ids).value];
      && (rect.top >= 0.0 ==> CurrentPage(chapters, ids, Some(rect), viewportHeight) == MinOf(c.original))
      && (-rect.top >= rect.height - viewportHeight ==> CurrentPage(chapters, ids, Some(rect), viewportHeight) == MaxOf(c.original))
  {
    var c := chapters[LastVisible(chapters, ids).value];
    var visible := VisibleChapters(chapters, ids);
    assert |ids| > 0;
    assert visible[|visible| - 1] == c;
  }

  /** Scrolling further down a tall chapter (its top moving up) never lowers the scroll progress. */
  lemma ChapterProgressMonotone(top1: real, top2: real, height: real, viewportHeight: real)
    requires height > viewportHeight && top2 <= top1
    ensures ChapterProgress(top1, height, viewportHeight) <= ChapterProgress(top2, height, viewportHeight)
  {
    DivideMonotone(-top1, -top2, height - viewportHeight);
  }

  lemma DivideMonotone(a: real, b: real, d: real)
    requires d > 0.0 && a <= b
    ensures a / d <= b / d
  {
    var qa := a / d;
    var qb := b / d;
    assert qa * d == a && qb * d == b;
    assert (qb - qa) * d == b - a;
  }

  /**
   * While the latest visible chapter is taller than the viewport, scrolling further down it
   * never moves the reading position back.
   */
  lemma ScrollingNeverGoesBack(chapters: seq<Chapter>, ids: seq<int>, rect1: Rect, rect2: Rect, viewportHeight: real)
    requires ValidChapters(chapters)
    requires LastVisible(chapters, ids).Some?
    requires rect1.height == rect2.height && rect1.height > viewportHeight
    requires rect2.top <= rect1.top
    ensures CurrentPage(chapters, ids, Some(rect1), viewportHeight) <= CurrentPage(chapters, ids, Some(rect2), viewportHeight)
  {
    var c := chapters[LastVisible(chapters, ids).value];
    ChapterProgressMonotone(rect1.top, rect2.top, rect1.height, viewportHeight);
    PageFromProgressMonotone(c.original, ChapterProgress(rect1.top, rect1.height, viewportHeight),
                             ChapterProgress(rect2.top, rect2.height, viewportHeight));
  }

  /**
   * The end page used for the condensed progress bar: 1 with no visible chapter, the first
   * page of the only visible chapter, or the last page of the latest visible one.
   */
  function LastVisibleChapterEndPage(chapters: seq<Chapter>, ids: seq<int>): (page: int)
    requires ValidChapters(chapters)
    ensures LastVisible(chapters, ids).None? ==> page == 1
    ensures |VisibleChapters(chapters, ids)| == 1 ==> page == MinOf(chapters[LastVisible(chapters, ids).value].original)
    ensures |VisibleChapters(chapters, ids)| >= 2 ==> page == MaxOf(chapters[LastVisible(chapters, ids).value].original)
  {
    var visible := VisibleChapters(chapters, ids);
    if |ids| == 0 || |visible| == 0 then 1
    else if |visible| == 1 then MinOf(visible[0].original)
    else MaxOf(visible[|visible| - 1].original)
  }

  /**
   * The page number shown to the reader: in the original view the furthest visible segment,
   * or the last page seen when none is visible; in the condensed view the reading position.
   */
  function DisplayPage(condensed: bool, segments: seq<int>, lastKnownPage: int, chapters: seq<Chapter>,
                       ids: seq<int>, element: Option<Rect>, viewportHeight: real): (page: int)
    requires ValidChapters(chapters)
    ensures !condensed && |segments| > 0 ==> page in segments && forall s :: s in segments ==> s <= page
    ensures !condensed && |segments| == 0 ==> page == lastKnownPage
    ensures condensed ==> page == CurrentPage(chapters, ids, element, viewportHeight)
  {
    if !condensed then
      if |segments| > 0 then MaxOf(segments) else lastKnownPage
    else CurrentPage(chapters, ids, element, viewportHeight)
  }

  /** Progress is written only for a page other than the last saved one and other than 1. */
  predicate ShouldSaveProgress(page: int, lastSaved: int) {
    page != lastSaved && page != 1
  }

  // ---------------------------------------------------------------------------------------
  // Lazy loading of condensed content

  /** What the reader holds for one chapter's condensed content. */
  datatype DistilledEntry = DistilledEntry(content: Option<Json.Json>, isLoading: bool, error: Option<string>)

  /** A content request the reader issued: the chapter and its original page span. */
  datatype FetchRequest = FetchRequest(chapterId: int, startPage: int, endPage: int)

  const LOAD_ERROR: string := "Failed to load distilled content. Please try again."

  /** A visible chapter gets a fetch timer unless it is loading or holds truthy content. */
  predicate NeedsFetch(distilled: map<int, DistilledEntry>, id: int) {
    !(id in distilled && (distilled[id].isLoading || (distilled[id].content.Some? && Json.Truthy(distilled[id].content.value))))
  }

  lemma NoDupSnoc(t: seq<int>, x: int)
    requires NoDup(t) && x !in t
    ensures NoDup(t + [x])
  {
    forall i, j | 0 <= i < j < |t| + 1
      ensures (t + [x])[i] != (t + [x])[j]
    {
      assert (t + [x])[i] == t[i] && t[i] in t;
    }
  }

  /** The chapters a run of the lazy-loading effect schedules, in visible-list order. */
  function ToSchedule(ids: seq<int>, distilled: map<int, DistilledEntry>): (r: seq<int>)
    ensures forall id :: id in r <==> id in ids && NeedsFetch(distilled, id)
    ensures NoDup(ids) ==> NoDup(r)
    ensures |r| <= |ids|
  {
    if |ids| == 0 then []
    else
      var init := ids[..|ids| - 1];
      var last := ids[|ids| - 1];
      var r := ToSchedule(init, distilled);
      assert forall id :: id in ids <==> id in init || id == last;
      assert NoDup(ids) ==> NoDup(init) && last !in init by {
        if NoDup(ids) {
          assert forall k :: 0 <= k < |init| ==> init[k] == ids[k];
        }
      }
      if NeedsFetch(distilled, last) then
        assert NoDup(ids) ==> NoDup(r + [last]) by {
          if NoDup(ids) {
            NoDupSnoc(r, last);
          }
        }
        r + [last]
      else r
  }

  /**
   * The reader's state that the observers, timers, the interval and fetch completions update.
   * Chapter visibility is tracked by chapter id; `pending` holds the chapters whose fetch timer
   * is armed and not cancelled.
   */
  class ReaderEngine {
    const chapters: seq<Chapter>
    var condensed: bool
    var visiblePages: seq<int>
    var pagesRead: int
    var visibleSegments: seq<int>
    var lastKnownPage: int
    var visibleChapterIds: seq<int>
    var pending: seq<int>
    var distilled: map<int, DistilledEntry>
    var lastSavedProgress: int
    /** Pages sent to the progress write, in order. */
    var progressWrites: seq<int>
    /** Content requests issued, in order. */
    var requests: seq<FetchRequest>

    ghost predicate Valid()
      reads this
    {
      && ValidChapters(chapters)
      && Increasing(visiblePages) && Increasing(visibleSegments)
      && NoDup(visibleChapterIds) && NoDup(pending)
      && (forall id :: id in pending ==> id in visibleChapterIds && NeedsFetch(distilled, id))
    }

    constructor(chapters: seq<Chapter>)
      requires ValidChapters(chapters)
      ensures Valid()
      ensures this.chapters == chapters && condensed
      ensures visiblePages == [1] && pagesRead == 0 && visibleSegments == [] && lastKnownPage == 1
      ensures visibleChapterIds == [] && pending == [] && distilled == map[]
      ensures lastSavedProgress == 1 && progressWrites == [] && requests == []
    {
      this.chapters := chapters;
      condensed := true;
      visiblePages := [1];
      pagesRead := 0;
      visibleSegments := [];
      lastKnownPage := 1;
      visibleChapterIds := [];
      pending := [];
      distilled := map[];
      lastSavedProgress := 1;
      progressWrites := [];
      requests := [];
    }

    /**
     * A run of the lazy-loading effect: every armed timer is cancelled, and in the condensed
     * view a timer is armed for each visible chapter that is neither loading nor loaded.
     */
    method RescheduleFetches()
      modifies this
      requires NoDup(visibleChapterIds)
      ensures pending == if condensed then ToSchedule(visibleChapterIds, distilled) else []
      ensures NoDup(pending)
      ensures forall id :: id in pending ==> id in visibleChapterIds && NeedsFetch(distilled, id)
      ensures condensed == old(condensed) && visibleChapterIds == old(visibleChapterIds) && distilled == old(distilled)
      ensures visiblePages == old(visiblePages) && pagesRead == old(pagesRead)
      ensures visibleSegments == old(visibleSegments) && lastKnownPage == old(lastKnownPage)
      ensures lastSavedProgress == old(lastSavedProgress) && progressWrites == old(progressWrites)
      ensures requests == old(requests)
    {
      pending := [];
      if !condensed {
        return;
      }
      var ids := visibleChapterIds;
      var armed: seq<int> := [];
      var i := 0;
      while i < |ids|
        invariant 0 <= i <= |ids|
        invariant armed == ToSchedule(ids[..i], distilled)
      {
        var id := ids[i];
        assert ids[..i + 1][..i] == ids[..i];
        if !(id in distilled && (distilled[id].isLoading || (distilled[id].content.Some? && Json.Truthy(distilled[id].content.value)))) {
          armed := armed + [id];
        }
        i := i + 1;
      }
      assert ids[..i] == ids;
      pending := armed;
    }

    /** An original-page observer entry: the page list and the furthest page read are updated. */
    method PageVisibilityChanged(page: int, intersecting: bool)
      modifies this
      requires Valid()
      ensures Valid()
      ensures visiblePages == if intersecting then AddVisible(old(visiblePages), page) else RemoveVisible(old(visiblePages), page)
      ensures pagesRead == if intersecting && page > old(pagesRead) then page else old(pagesRead)
      ensures condensed == old(condensed) && visibleSegments == old(visibleSegments) && lastKnownPage == old(lastKnownPage)
      ensures visibleChapterIds == old(visibleChapterIds) && pending == old(pending) && distilled == old(distilled)
      ensures lastSavedProgress == old(lastSavedProgress) && progressWrites == old(progressWrites)
      ensures requests == old(requests)
    {
      if intersecting {
        AddVisibleIncreasing(visiblePages, page);
        visiblePages := AddVisible(visiblePages, page);
        if page > pagesRead {
          pagesRead := page;
        }
      } else {
        WithoutIncreasing(visiblePages, page);
        visiblePages := RemoveVisible(visiblePages, page);
      }
    }

    /**
     * A content-segment observer entry, observed only in the original view: the segment list
     * is updated, and a segment coming into view becomes the last known page.
     */
    method SegmentVisibilityChanged(page: int, intersecting: bool)
      modifies this
      requires Valid()
      ensures Valid()
      ensures condensed ==> visibleSegments == old(visibleSegments) && lastKnownPage == old(lastKnownPage)
      ensures !condensed ==> visibleSegments == (if intersecting then AddVisible(old(visibleSegments), page)
                                                 else RemoveVisible(old(visibleSegments), page))
      ensures lastKnownPage == if !condensed && intersecting then page else old(lastKnownPage)
      ensures condensed == old(condensed) && visiblePages == old(visiblePages) && pagesRead == old(pagesRead)
      ensures visibleChapterIds == old(visibleChapterIds) && pending == old(pending) && distilled == old(distilled)
      ensures lastSavedProgress == old(lastSavedProgress) && progressWrites == old(progressWrites)
      ensures requests == old(requests)
    {
      if condensed {
        return;
      }
      if intersecting {
        AddVisibleIncreasing(visibleSegments, page);
        visibleSegments := AddVisible(visibleSegments, page);
        lastKnownPage := page;
      } else {
        WithoutIncreasing(visibleSegments, page);
        visibleSegments := RemoveVisible(visibleSegments, page);
      }
    }

    /**
     * A chapter observer entry, observed only in the condensed view. The visible-id list is
     * updated by the 40 % rule; unless the update hands back the same list (a shown chapter
     * already listed), the lazy-loading effect runs again.
     */
    method ChapterVisibilityChanged(id: int, intersecting: bool, rect: Rect, viewportHeight: real)
      modifies this
      requires Valid()
      ensures Valid()
      ensures !old(condensed) ==> visibleChapterIds == old(visibleChapterIds) && pending == old(pending)
      ensures old(condensed) ==> visibleChapterIds == UpdateVisibleChapters(old(visibleChapterIds), id, intersecting, rect, viewportHeight)
      ensures old(condensed) && ChapterShown(intersecting, rect, viewportHeight) && id in old(visibleChapterIds) ==> pending == old(pending)
      ensures old(condensed) && !(ChapterShown(intersecting, rect, viewportHeight) && id in old(visibleChapterIds)) ==>
        pending == ToSchedule(visibleChapterIds, distilled)
      ensures condensed == old(condensed) && distilled == old(distilled)
      ensures visiblePages == old(visiblePages) && pagesRead == old(pagesRead)
      ensures visibleSegments == old(visibleSegments) && lastKnownPage == old(lastKnownPage)
      ensures lastSavedProgress == old(lastSavedProgress) && progressWrites == old(progressWrites)
      ensures requests == old(requests)
    {
      if !condensed {
        return;
      }
      var shown := ChapterShown(intersecting, rect, viewportHeight);
      var sameList := shown && id in visibleChapterIds;
      visibleChapterIds := UpdateVisibleChapters(visibleChapterIds, id, intersecting, rect, viewportHeight);
      if !sameList {
        RescheduleFetches();
      }
    }

    /** Switching between the original and the condensed view; a real change reruns the effect. */
    method SwitchView(toCondensed: bool)
      modifies this
      requires Valid()
      ensures Valid()
      ensures condensed == toCondensed
      ensures toCondensed == old(condensed) ==> pending == old(pending)
      ensures toCondensed != old(condensed) ==> pending == if toCondensed then ToSchedule(visibleChapterIds, distilled) else []
      ensures visibleChapterIds == old(visibleChapterIds) && distilled == old(distilled)
      ensures visiblePages == old(visiblePages) && pagesRead == old(pagesRead)
      ensures visibleSegments == old(visibleSegments) && lastKnownPage == old(lastKnownPage)
      ensures lastSavedProgress == old(lastSavedProgress) && progressWrites == old(progressWrites)
      ensures requests == old(requests)
    {
      if toCondensed != condensed {
        condensed := toCondensed;
        RescheduleFetches();
      }
    }

    /**
     * The fetch timer of chapter `id` fires. A cancelled timer does nothing. Otherwise, for a
     * known chapter the content request for its page span is issued and the chapter is marked
     * loading, which reruns the effect; for an unknown id its pending entry is dropped.
     */
    method TimerFired(id: int)
      modifies this
      requires Valid()
      ensures Valid()
      ensures id !in old(pending) ==> pending == old(pending) && distilled == old(distilled) && requests == old(requests)
      ensures id in old(pending) && FindChapter(chapters, id).Some? ==>
        var c := chapters[FindChapter(chapters, id).value];
        && requests == old(requests) + [FetchRequest(id, MinOf(c.original), MaxOf(c.original))]
        && distilled == old(distilled)[id := DistilledEntry(None, true, None)]
        && pending == (if condensed then ToSchedule(visibleChapterIds, distilled) else [])
        && id !in pending
      ensures id in old(pending) && FindChapter(chapters, id).None? ==>
        pending == Without(old(pending), id) && distilled == old(distilled) && requests == old(requests)
      ensures condensed == old(condensed) && visibleChapterIds == old(visibleChapterIds)
      ensures visiblePages == old(visiblePages) && pagesRead == old(pagesRead)
      ensures visibleSegments == old(visibleSegments) && lastKnownPage == old(lastKnownPage)
      ensures lastSavedProgress == old(lastSavedProgress) && progressWrites == old(progressWrites)
    {
      if id !in pending {
        return;
      }
      var found := FindChapter(chapters, id);
      if found.Some? {
        var c := chapters[found.value];
        requests := requests + [FetchRequest(id, MinOf(c.original), MaxOf(c.original))];
        distilled := distilled[id := DistilledEntry(None, true, None)];
        RescheduleFetches();
      } else {
        WithoutNoDup(pending, id);
        pending := Without(pending, id);
      }
    }

    /**
     * The content request of chapter `id` completes: the content is stored, or the error
     * message on failure, loading ends, the chapter's pending entry is dropped and the effect
     * runs again. A chapter whose request failed and that is still visible is armed again.
     */
    method FetchCompleted(id: int, outcome: Result<Json.Json, string>)
      modifies this
      requires Valid()
      ensures Valid()
      ensures distilled == old(distilled)[id := if outcome.Success? then DistilledEntry(Some(outcome.value), false, None)
                                                else DistilledEntry(None, false, Some(LOAD_ERROR))]
      ensures pending == if condensed then ToSchedule(visibleChapterIds, distilled) else []
      ensures outcome.Failure? && condensed && id in visibleChapterIds ==> id in pending
      ensures outcome.Success? && Json.Truthy(outcome.value) ==> id !in pending
      ensures condensed == old(condensed) && visibleChapterIds == old(visibleChapterIds)
      ensures visiblePages == old(visiblePages) && pagesRead == old(pagesRead)
      ensures visibleSegments == old(visibleSegments) && lastKnownPage == old(lastKnownPage)
      ensures lastSavedProgress == old(lastSavedProgress) && progressWrites == old(progressWrites)
      ensures requests == old(requests)
    {
      match outcome {
        case Success(content) =>
          distilled := distilled[id := DistilledEntry(Some(content), false, None)];
        case Failure(_) =>
          distilled := distilled[id := DistilledEntry(None, false, Some(LOAD_ERROR))];
      }
      WithoutNoDup(pending, id);
      pending := Without(pending, id);
      RescheduleFetches();
    }

    /** The progress write: skipped for the last saved page and for page 1, remembered only when it succeeds. */
    method SaveProgress(page: int, writeSucceeds: bool)
      modifies this
      requires Valid()
      ensures Valid()
      ensures !ShouldSaveProgress(page, old(lastSavedProgress)) ==>
        progressWrites == old(progressWrites) && lastSavedProgress == old(lastSavedProgress)
      ensures ShouldSaveProgress(page, old(lastSavedProgress)) ==>
        progressWrites == old(progressWrites) + [page] &&
        lastSavedProgress == if writeSucceeds then page else old(lastSavedProgress)
      ensures condensed == old(condensed) && visibleChapterIds == old(visibleChapterIds) && pending == old(pending)
      ensures distilled == old(distilled) && requests == old(requests)
      ensures visiblePages == old(visiblePages) && pagesRead == old(pagesRead)
      ensures visibleSegments == old(visibleSegments) && lastKnownPage == old(lastKnownPage)
    {
      if page == lastSavedProgress || page == 1 {
        return;
      }
      progressWrites := progressWrites + [page];
      if writeSucceeds {
        lastSavedProgress := page;
      }
    }

    /**
     * One tick of the one-second interval, which runs only in the condensed view: the reading
     * position is computed from the latest visible chapter's element (if found) and saved.
     */
    method Tick(element: Option<Rect>, viewportHeight: real, writeSucceeds: bool)
      modifies this
      requires Valid()
      ensures Valid()
      ensures !condensed ==> progressWrites == old(progressWrites) && lastSavedProgress == old(lastSavedProgress)
      ensures condensed ==>
        var page := CurrentPage(chapters, visibleChapterIds, element, viewportHeight);
        && (ShouldSaveProgress(page, old(lastSavedProgress)) ==> progressWrites == old(progressWrites) + [page])
        && (!ShouldSaveProgress(page, old(lastSavedProgress)) ==> progressWrites == old(progressWrites))
        && lastSavedProgress == if ShouldSaveProgress(page, old(lastSavedProgress)) && writeSucceeds then page else old(lastSavedProgress)
      ensures condensed == old(condensed) && visibleChapterIds == old(visibleChapterIds) && pending == old(pending)
      ensures distilled == old(distilled) && requests == old(requests)
      ensures visiblePages == old(visiblePages) && pagesRead == old(pagesRead)
      ensures visibleSegments == old(visibleSegments) && lastKnownPage == old(lastKnownPage)
    {
      if condensed {
        var page := CurrentPage(chapters, visibleChapterIds, element, viewportHeight);
        SaveProgress(page, writeSucceeds);
      }
    }
  }
}
