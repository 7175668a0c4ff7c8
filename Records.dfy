/**
 * The backend's stored records: books, the content sections cut from an uploaded PDF and the
 * distilled (condensed) versions of those sections. Timestamps are opaque integers supplied
 * by the caller.
 */
module Records {

  /** One page of extracted PDF text, numbered by its 0-based position in the document. */
  datatype Page = Page(pageNum: int, content: string)

  datatype ParagraphKind = Core | Transition

  /** A paragraph of condensed text with the original pages it draws on (none for a transition). */
  datatype Paragraph = Paragraph(kind: ParagraphKind, content: string, pages: seq<int>)

  datatype ProcessingStatus = InProgress | Completed

  datatype Book = Book(
    id: string,
    title: string,
    kind: string,
    userId: string,
    createdDatetime: int,
    isUploaded: bool,
    contentSectionGenerated: bool)

  datatype ContentSection = ContentSection(
    bookId: string,
    userId: string,
    startPage: int,
    endPage: int,
    pages: seq<Page>)

  datatype DistilledPage = DistilledPage(
    bookId: string,
    userId: string,
    startPage: int,
    endPage: int,
    paragraphs: seq<Paragraph>,
    createdDatetime: int,
    status: ProcessingStatus)
}
