/**
 * The book the reader displays: chapters whose content comes at three reading depths
 * (original, condensed, quick), each a list of pages; and the placeholder book both loaders
 * fall back to.
 */
module BookTypes {
  import opened Wrappers

  datatype PageRange = PageRange(start: int, end: int)

  /** A paragraph of a distilled page. */
  datatype Paragraph = Paragraph(title: string, content: string)

  /** A page; `paragraphs` is present only on condensed pages built from distilled pages. */
  datatype Page = Page(content: seq<string>, pageNumber: int, originalPageRange: Option<PageRange>,
                       paragraphs: Option<seq<Paragraph>>)

  /** A figure per reading depth. */
  datatype PerDepth = PerDepth(original: nat, condensed: nat, quick: nat)

  datatype Chapter = Chapter(id: nat, title: string, original: seq<Page>, condensed: seq<Page>, quick: seq<Page>,
                             estimatedReadTime: PerDepth, totalPages: PerDepth)

  /** The id is the number 1 in one loader and the string "1" in the other. */
  datatype BookId = NumberId(n: int) | StringId(s: string)

  datatype Book = Book(id: BookId, title: string, author: string, coverUrl: string, chapters: seq<Chapter>)

  const FALLBACK_TITLE: string := "The Psychology of Money"
  const FALLBACK_AUTHOR: string := "Morgan Housel"
  const COVER_URL: string := "https://images.unsplash.com/photo-1553729459-efe14ef6055d?auto=format&fit=crop&q=80&w=2070"
  const LOADING: string := "Loading content..."

  /** The placeholder book: one introduction chapter with one loading page at every depth. */
  function FallbackBook(id: BookId): Book {
    var page := Page([LOADING], 1, None, None);
    Book(id, FALLBACK_TITLE, FALLBACK_AUTHOR, COVER_URL,
         [Chapter(1, "Introduction", [page], [page], [page], PerDepth(1, 1, 1), PerDepth(1, 1, 1))])
  }

  /** `Math.ceil(n * 1.5)`. */
  function CeilThreeHalves(n: nat): (r: nat)
    ensures 2 * r >= 3 * n && 2 * r < 3 * n + 2
  {
    (3 * n + 1) / 2
  }

  /** The lines of a list of pages, page after page. */
  function Lines(pages: seq<Page>): seq<string> {
    if |pages| == 0 then [] else Lines(pages[..|pages| - 1]) + pages[|pages| - 1].content
  }
}
