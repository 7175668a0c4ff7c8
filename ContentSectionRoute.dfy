/**
 * The `/get_content_section` route: the page range of the caller's content section that holds
 * a page, refused while the book is missing or its sections are not generated yet.
 */
module ContentSectionRoute {
  import opened Wrappers
  import opened Records
  import opened Repositories
  import opened PostUpload

  const BOOK_NOT_FOUND: string := "Book not found"
  const NOT_GENERATED: string := "Content section not generated"
  const SECTION_NOT_FOUND: string := "Content section not found"

  /** The page range of the section found. */
  datatype RangeReply = RangeReply(startPage: int, endPage: int)

  /** `get_content_section_range_handler`; every refusal is a 404 with the detail given. */
  function GetContentSectionRange(books: map<string, Book>, rows: seq<ContentSection>,
                                  bookId: string, pageNum: int, userId: string): (r: Result<RangeReply, string>)
    requires KeyedById(books)
    ensures GetBook(books, bookId, userId).None? ==> r == Failure(BOOK_NOT_FOUND)
    ensures GetBook(books, bookId, userId).Some? && !books[bookId].contentSectionGenerated ==> r == Failure(NOT_GENERATED)
    ensures GetBook(books, bookId, userId).Some? && books[bookId].contentSectionGenerated
      ==> (r == Failure(SECTION_NOT_FOUND) <==> SectionByPage(rows, bookId, pageNum, Some(userId)).None?)
    ensures r.Success? ==>
      && bookId in books && books[bookId].userId == userId && books[bookId].contentSectionGenerated
      && r.value.startPage <= pageNum <= r.value.endPage
      && exists s :: s in rows && SectionHoldsPage(s, bookId, pageNum, Some(userId))
                     && s.startPage == r.value.startPage && s.endPage == r.value.endPage
  {
    match GetBook(books, bookId, userId)
    case None => Failure(BOOK_NOT_FOUND)
    case Some(book) =>
      if !book.contentSectionGenerated then Failure(NOT_GENERATED)
      else
        match SectionByPage(rows, bookId, pageNum, Some(userId))
        case None => Failure(SECTION_NOT_FOUND)
        case Some(section) => Success(RangeReply(section.startPage, section.endPage))
  }

  /**
   * After a post-upload job generated the sections of a book, every page of every generated
   * section is answered for the book's owner, with a range that holds the page.
   */
  lemma GeneratedPagesAnswered(books: map<string, Book>, rows: seq<ContentSection>, bookId: string,
                               texts: seq<string>, create: seq<Page> -> seq<PageRange>, s: ContentSection, pageNum: int)
    requires KeyedById(books) && bookId in books
    requires var r := PostProcess(Some(books[bookId]), texts, create);
      r.Success? && r.value.Generated? && s in r.value.sections
    requires s.startPage <= pageNum <= s.endPage
    ensures var effect := PostProcess(Some(books[bookId]), texts, create).value;
      var books' := books[effect.book.id := effect.book];
      var reply := GetContentSectionRange(books', rows + effect.sections, bookId, pageNum, books[bookId].userId);
      && KeyedById(books')
      && reply.Success?
      && reply.value.startPage <= pageNum <= reply.value.endPage
  {
    var book := books[bookId];
    var effect := PostProcess(Some(book), texts, create).value;
    PdfSectionsFaithful(book, texts, create);
    assert Numbered(book, s);
    var all := rows + effect.sections;
    var j :| 0 <= j < |effect.sections| && effect.sections[j] == s;
    assert all[|rows| + j] == s;
    assert SectionHoldsPage(all[|rows| + j], bookId, pageNum, Some(book.userId));
  }
}
