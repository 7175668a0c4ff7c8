/**
 * The loader of `/book_data.json` in the keyed format: the entry of "The psychology of money"
 * holds the original pages and the distilled pages; they become the single chapter of the
 * book, and any failure yields the placeholder book instead of an error.
 */
module LibBookLoader {
  import opened Wrappers
  import opened Text
  import opened BookTypes

  const BOOK_KEY: string := "The psychology of money"
  const ERROR_LINE: string := "Error loading content"

  /** A page of the book as extracted. */
  datatype RawPage = RawPage(pageNum: int, content: string)

  /** A distilled page; `paragraphs` is absent when the file does not hold an array there. */
  datatype DistilledPage = DistilledPage(startPage: int, endPage: int, paragraphs: Option<seq<Paragraph>>)

  /** The entry of one book; a list is absent when the file lacks it. */
  datatype RawEntry = RawEntry(originalPages: Option<seq<RawPage>>, distilledPages: Option<seq<DistilledPage>>)

  /** The answer of the fetch: an error status, a body that is not JSON, or the parsed body (`None` for `null`). */
  datatype Response = NotOk | NotJson | Ok(data: Option<map<string, RawEntry>>)

  /** A page is kept when its text is not blank. */
  predicate Kept(page: RawPage) {
    JsTrim(page.content) != ""
  }

  /** The original pages: the non-blank pages in order, each a single line under its own number. */
  function OriginalPages(pages: seq<RawPage>): seq<Page> {
    if |pages| == 0 then []
    else if Kept(pages[0]) then [Page([pages[0].content], pages[0].pageNum, None, None)] + OriginalPages(pages[1..])
    else OriginalPages(pages[1..])
  }

  /** A paragraph shown as its title, a blank line and its text. */
  function ParagraphLine(p: Paragraph): (r: string)
    ensures |r| == |p.title| + 2 + |p.content|
    ensures r[..|p.title|] == p.title && r[|p.title|..|p.title| + 2] == "\n\n" && r[|p.title| + 2..] == p.content
  {
    p.title + "\n\n" + p.content
  }

  /** The condensed page made of the distilled page at 0-based position `index`. */
  function CondensedPage(page: DistilledPage, index: nat): Page {
    var range := Some(PageRange(page.startPage, page.endPage));
    match page.paragraphs
    case None => Page([ERROR_LINE], index + 1, range, Some([]))
    case Some(paragraphs) =>
      Page(seq(|paragraphs|, i requires 0 <= i < |paragraphs| => ParagraphLine(paragraphs[i])), index + 1, range, Some(paragraphs))
  }

  function CondensedPages(pages: seq<DistilledPage>): seq<Page> {
    seq(|pages|, i requires 0 <= i < |pages| => CondensedPage(pages[i], i))
  }

  /** `loadBookData`: the book of the entry, or the placeholder book when anything is missing. */
  function LoadBookData(response: Response): Book {
    if !response.Ok? || response.data.None? || BOOK_KEY !in response.data.value then FallbackBook(StringId("1"))
    else
      var entry := response.data.value[BOOK_KEY];
      if entry.originalPages.None? || entry.distilledPages.None? then FallbackBook(StringId("1"))
      else
        var original := OriginalPages(entry.originalPages.value);
        var condensed := CondensedPages(entry.distilledPages.value);
        var chapter := Chapter(1, FALLBACK_TITLE, original, condensed, [],
                               PerDepth(2 * |original|, CeilThreeHalves(|condensed|), 0),
                               PerDepth(|original|, |condensed|, 0));
        Book(StringId("1"), FALLBACK_TITLE, FALLBACK_AUTHOR, COVER_URL, [chapter])
  }

  /** Every original page comes from a non-blank page, keeping its text and number; there are no more of them than pages. */
  lemma {:induction false} OriginalPagesFrom(pages: seq<RawPage>)
    ensures |OriginalPages(pages)| <= |pages|
    ensures forall q :: q in OriginalPages(pages) ==>
      exists p :: p in pages && Kept(p) && q == Page([p.content], p.pageNum, None, None)
  {
    if |pages| > 0 {
      OriginalPagesFrom(pages[1..]);
      assert forall p :: p in pages[1..] ==> p in pages;
    }
  }

  /** Every non-blank page gives an original page. */
  lemma {:induction false} OriginalPagesCover(pages: seq<RawPage>)
    ensures forall p :: p in pages && Kept(p) ==> Page([p.content], p.pageNum, None, None) in OriginalPages(pages)
  {
    if |pages| > 0 {
      OriginalPagesCover(pages[1..]);
      assert pages == [pages[0]] + pages[1..];
    }
  }

  /** When no page is blank, every page gives one original page, in order. */
  lemma {:induction false} OriginalPagesAllKept(pages: seq<RawPage>)
    requires forall i :: 0 <= i < |pages| ==> Kept(pages[i])
    ensures |OriginalPages(pages)| == |pages|
    ensures forall i :: 0 <= i < |pages| ==> OriginalPages(pages)[i] == Page([pages[i].content], pages[i].pageNum, None, None)
  {
    if |pages| > 0 {
      var tail := pages[1..];
      assert forall i :: 0 <= i < |tail| ==> tail[i] == pages[i + 1];
      OriginalPagesAllKept(tail);
      var r := OriginalPages(pages);
      assert r == [Page([pages[0].content], pages[0].pageNum, None, None)] + OriginalPages(tail);
    }
  }

  /**
   * Condensed page `i` is numbered `i + 1` and carries its distilled page's range and
   * paragraphs, one line per paragraph; a page without a paragraph array shows the error line
   * and no paragraphs.
   */
  lemma CondensedPagesMeaning(pages: seq<DistilledPage>)
    ensures var r := CondensedPages(pages);
      && |r| == |pages|
      && forall i :: 0 <= i < |r| ==>
        && r[i].pageNumber == i + 1
        && r[i].originalPageRange == Some(PageRange(pages[i].startPage, pages[i].endPage))
        && (pages[i].paragraphs.None? ==> r[i].content == [ERROR_LINE] && r[i].paragraphs == Some([]))
        && (pages[i].paragraphs.Some? ==>
              && r[i].paragraphs == pages[i].paragraphs
              && |r[i].content| == |pages[i].paragraphs.value|
              && forall j :: 0 <= j < |r[i].content| ==> r[i].content[j] == ParagraphLine(pages[i].paragraphs.value[j]))
  {
  }

  /**
   * The placeholder book comes back exactly when the fetch fails, the body is not JSON or is
   * null, or the entry or one of its lists is missing; otherwise the book holds one chapter of
   * the entry's pages, with no quick pages and read times of 2 and 1.5 (rounded up) minutes
   * per page.
   */
  lemma LoadBookDataMeaning(response: Response)
    ensures var book := LoadBookData(response);
      && (book == FallbackBook(StringId("1")) <==>
            || !response.Ok? || response.data.None? || BOOK_KEY !in response.data.value
            || response.data.value[BOOK_KEY].originalPages.None?
            || response.data.value[BOOK_KEY].distilledPages.None?)
      && book.id == StringId("1") && book.title == FALLBACK_TITLE && book.author == FALLBACK_AUTHOR
      && |book.chapters| == 1
      && (book != FallbackBook(StringId("1")) ==>
            var entry := response.data.value[BOOK_KEY];
            var c := book.chapters[0];
            && c.id == 1
            && c.original == OriginalPages(entry.originalPages.value)
            && c.condensed == CondensedPages(entry.distilledPages.value)
            && c.quick == []
            && c.totalPages == PerDepth(|c.original|, |entry.distilledPages.value|, 0)
            && c.estimatedReadTime.original == 2 * |c.original| && c.estimatedReadTime.quick == 0
            && 2 * c.estimatedReadTime.condensed >= 3 * |c.condensed|
            && 2 * c.estimatedReadTime.condensed < 3 * |c.condensed| + 2)
  {
    var book := LoadBookData(response);
    if response.Ok? && response.data.Some? && BOOK_KEY in response.data.value {
      var entry := response.data.value[BOOK_KEY];
      if entry.originalPages.Some? && entry.distilledPages.Some? {
        assert book.chapters[0].title != FallbackBook(StringId("1")).chapters[0].title;
      }
    }
  }
}
