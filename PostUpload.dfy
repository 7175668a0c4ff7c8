/**
 * Post-upload processing: once a book's PDF is uploaded, its pages are read in order, grouped
 * into batches of at most 50 pages or about 20 000 tokens, each batch is handed to the section
 * creator, which answers page ranges, and every range becomes a content section holding the
 * batch pages it names. The book is then marked as having its sections generated, so a second
 * job for it does nothing. The PDF reader's page texts and the section creator are parameters.
 */
module PostUpload {
  import opened Wrappers
  import opened Text
  import opened Records
  import opened Repositories
  import opened DistillWorker

  const BATCH_PAGE_COUNT: nat := 50
  /** `BATCH_TOKEN_COUNT` is 20000 tokens, counted as a quarter of the raw text length. */
  const BATCH_CHAR_COUNT: nat := 80000

  /** A range of page numbers, both ends included, as the section creator answers it. */
  datatype PageRange = PageRange(startPage: int, endPage: int)

  /** A queued request to generate the content sections of one uploaded book. */
  datatype PostProcessingJob = PostProcessingJob(bookId: string)

  /** Why `_process_job` raises. */
  datatype PostError =
    | BookMissing            // `get_by_book_id` found nothing, so reading the flag fails
    | UnsupportedType        // not a PDF: the section list is never bound
    | MissingPage(pageNum: int)  // a range names a page outside its batch

  /**
   * Page `i` of the document: numbered by its 0-based position, its text cleaned by `strip`.
   * The service strips with `str.strip()` (`PyStrip`); the batching does not depend on how.
   */
  function PdfPage(strip: string -> string, texts: seq<string>, i: nat): Page
    requires i < |texts|
  {
    Page(i, strip(texts[i]))
  }

  /** `ps` are the document's pages from page `lo` on, in order. */
  predicate PagesFrom(strip: string -> string, texts: seq<string>, ps: seq<Page>, lo: nat) {
    lo + |ps| <= |texts| && forall k :: 0 <= k < |ps| ==> ps[k] == PdfPage(strip, texts, lo + k)
  }

  lemma PagesFromSnoc(strip: string -> string, texts: seq<string>, ps: seq<Page>, lo: nat)
    requires PagesFrom(strip, texts, ps, lo) && lo + |ps| < |texts|
    ensures PagesFrom(strip, texts, ps + [PdfPage(strip, texts, lo + |ps|)], lo)
  {
  }

  lemma PagesFromAppend(strip: string -> string, texts: seq<string>, a: seq<Page>, b: seq<Page>, lo: nat)
    requires PagesFrom(strip, texts, a, lo) && PagesFrom(strip, texts, b, lo + |a|)
    ensures PagesFrom(strip, texts, a + b, lo)
  {
    forall k | 0 <= k < |a + b|
      ensures (a + b)[k] == PdfPage(strip, texts, lo + k)
    {
      if k >= |a| {
        assert (a + b)[k] == b[k - |a|];
      }
    }
  }

  /** The raw text length of pages `lo` to `hi - 1`: four times their token estimate. */
  function RawChars(texts: seq<string>, lo: nat, hi: nat): nat
    requires lo <= hi <= |texts|
    decreases hi - lo
  {
    if lo == hi then 0 else |texts[lo]| + RawChars(texts, lo + 1, hi)
  }

  lemma {:induction false} RawCharsSnoc(texts: seq<string>, lo: nat, hi: nat)
    requires lo <= hi < |texts|
    ensures RawChars(texts, lo, hi + 1) == RawChars(texts, lo, hi) + |texts[hi]|
    decreases hi - lo
  {
    if lo < hi {
      RawCharsSnoc(texts, lo + 1, hi);
    }
  }

  /** The flush test of the loop, on the batch and its raw text length. */
  predicate Flushes(batch: seq<Page>, chars: nat) {
    |batch| == BATCH_PAGE_COUNT || chars >= BATCH_CHAR_COUNT
  }

  /**
   * The batches the loop sends to the creator, from page `i` on, with `batch` and `chars`
   * gathered so far. Pages still in the batch when the document ends are not sent.
   */
  function BatchesFrom(strip: string -> string, texts: seq<string>, i: nat, batch: seq<Page>, chars: nat): seq<seq<Page>>
    requires i <= |texts|
    decreases |texts| - i
  {
    if i == |texts| then []
    else
      var b := batch + [PdfPage(strip, texts, i)];
      var c := chars + |texts[i]|;
      if Flushes(b, c) then [b] + BatchesFrom(strip, texts, i + 1, [], 0)
      else BatchesFrom(strip, texts, i + 1, b, c)
  }

  function Batches(texts: seq<string>): seq<seq<Page>> {
    BatchesFrom(PyStrip, texts, 0, [], 0)
  }

  function Flatten(bs: seq<seq<Page>>): seq<Page> {
    if |bs| == 0 then [] else bs[0] + Flatten(bs[1..])
  }

  /**
   * A batch as it is sent: 1 to 50 pages in a row of the document, which reached 50 pages or
   * 80000 characters with its last page and not before it.
   */
  ghost predicate SentBatch(strip: string -> string, texts: seq<string>, b: seq<Page>) {
    && 1 <= |b| <= BATCH_PAGE_COUNT
    && 0 <= b[0].pageNum
    && PagesFrom(strip, texts, b, b[0].pageNum)
    && (|b| == BATCH_PAGE_COUNT || RawChars(texts, b[0].pageNum, b[0].pageNum + |b|) >= BATCH_CHAR_COUNT)
    && RawChars(texts, b[0].pageNum, b[0].pageNum + |b| - 1) < BATCH_CHAR_COUNT
  }

  /**
   * The batches sent from page `i` on, laid end to end, are the document's pages from where
   * the current batch started, up to a tail of fewer than 50 pages and fewer than 80000
   * characters that is never sent.
   */
  lemma {:induction false} BatchesFromCover(strip: string -> string, texts: seq<string>, i: nat, batch: seq<Page>, chars: nat)
    requires i <= |texts| && |batch| <= i && |batch| < BATCH_PAGE_COUNT
    requires PagesFrom(strip, texts, batch, i - |batch|)
    requires chars == RawChars(texts, i - |batch|, i) && chars < BATCH_CHAR_COUNT
    ensures var bs := BatchesFrom(strip, texts, i, batch, chars);
      var lo := i - |batch|;
      var sent := lo + |Flatten(bs)|;
      && PagesFrom(strip, texts, Flatten(bs), lo)
      && |texts| - sent < BATCH_PAGE_COUNT
      && RawChars(texts, sent, |texts|) < BATCH_CHAR_COUNT
    decreases |texts| - i
  {
    var lo := i - |batch|;
    if i < |texts| {
      var b := batch + [PdfPage(strip, texts, i)];
      var c := chars + |texts[i]|;
      RawCharsSnoc(texts, lo, i);
      PagesFromSnoc(strip, texts, batch, lo);
      if Flushes(b, c) {
        var rest := BatchesFrom(strip, texts, i + 1, [], 0);
        BatchesFromCover(strip, texts, i + 1, [], 0);
        assert BatchesFrom(strip, texts, i, batch, chars) == [b] + rest;
        assert ([b] + rest)[1..] == rest;
        assert Flatten([b] + rest) == b + Flatten(rest);
        PagesFromAppend(strip, texts, b, Flatten(rest), lo);
      } else {
        assert BatchesFrom(strip, texts, i, batch, chars) == BatchesFrom(strip, texts, i + 1, b, c);
        BatchesFromCover(strip, texts, i + 1, b, c);
      }
    }
  }

  /** Every batch sent from page `i` on is a sent batch. */
  lemma {:induction false} BatchesFromSent(strip: string -> string, texts: seq<string>, i: nat, batch: seq<Page>, chars: nat)
    requires i <= |texts| && |batch| <= i && |batch| < BATCH_PAGE_COUNT
    requires PagesFrom(strip, texts, batch, i - |batch|)
    requires chars == RawChars(texts, i - |batch|, i) && chars < BATCH_CHAR_COUNT
    ensures forall k :: 0 <= k < |BatchesFrom(strip, texts, i, batch, chars)| ==>
      SentBatch(strip, texts, BatchesFrom(strip, texts, i, batch, chars)[k])
    decreases |texts| - i
  {
    var lo := i - |batch|;
    if i < |texts| {
      var b := batch + [PdfPage(strip, texts, i)];
      var c := chars + |texts[i]|;
      RawCharsSnoc(texts, lo, i);
      PagesFromSnoc(strip, texts, batch, lo);
      if Flushes(b, c) {
        var rest := BatchesFrom(strip, texts, i + 1, [], 0);
        BatchesFromSent(strip, texts, i + 1, [], 0);
        var bs := [b] + rest;
        assert BatchesFrom(strip, texts, i, batch, chars) == bs;
        assert b[0].pageNum == lo;
        assert SentBatch(strip, texts, b);
        forall k | 0 <= k < |bs|
          ensures SentBatch(strip, texts, bs[k])
        {
          if k > 0 {
            assert bs[k] == rest[k - 1];
          }
        }
      } else {
        assert BatchesFrom(strip, texts, i, batch, chars) == BatchesFrom(strip, texts, i + 1, b, c);
        BatchesFromSent(strip, texts, i + 1, b, c);
      }
    }
  }

  /**
   * The whole document: the sent batches, end to end, are its first pages, every one a sent
   * batch, and the pages left over, fewer than 50 and 80000 characters, are never sent.
   */
  lemma BatchesShape(texts: seq<string>)
    ensures var bs := Batches(texts);
      var sent := |Flatten(bs)|;
      && PagesFrom(PyStrip, texts, Flatten(bs), 0)
      && (forall k :: 0 <= k < |bs| ==> SentBatch(PyStrip, texts, bs[k]))
      && |texts| - sent < BATCH_PAGE_COUNT
      && RawChars(texts, sent, |texts|) < BATCH_CHAR_COUNT
  {
    BatchesFromCover(PyStrip, texts, 0, [], 0);
    BatchesFromSent(PyStrip, texts, 0, [], 0);
  }

  /** A document under 50 pages and 80000 characters is never sent to the creator at all. */
  lemma {:induction false} ShortDocumentSendsNothing(strip: string -> string, texts: seq<string>, i: nat, batch: seq<Page>, chars: nat)
    requires i <= |texts|
    requires |batch| + (|texts| - i) < BATCH_PAGE_COUNT
    requires chars + RawChars(texts, i, |texts|) < BATCH_CHAR_COUNT
    ensures BatchesFrom(strip, texts, i, batch, chars) == []
    decreases |texts| - i
  {
    if i < |texts| {
      ShortDocumentSendsNothing(strip, texts, i + 1, batch + [PdfPage(strip, texts, i)], chars + |texts[i]|);
    }
  }

  /** The last page of `batch` numbered `p`, as the page dictionary built from the batch keeps it. */
  function PageByNum(batch: seq<Page>, p: int): (r: Option<Page>)
    ensures r.Some? ==> r.value in batch && r.value.pageNum == p
    ensures r.None? <==> forall k :: 0 <= k < |batch| ==> batch[k].pageNum != p
  {
    if |batch| == 0 then None
    else if batch[|batch| - 1].pageNum == p then Some(batch[|batch| - 1])
    else PageByNum(batch[..|batch| - 1], p)
  }

  /** The list comprehension over `range(start_page, end_page + 1)`: a `KeyError` on the first missing page. */
  function SectionPages(batch: seq<Page>, lo: int, hi: int): (r: Result<seq<Page>, PostError>)
    ensures r.Success? ==>
      && |r.value| == (if lo <= hi then hi - lo + 1 else 0)
      && forall k :: 0 <= k < |r.value| ==> r.value[k] in batch && r.value[k].pageNum == lo + k
    ensures r.Failure? ==>
      && r.error.MissingPage?
      && lo <= r.error.pageNum <= hi
      && PageByNum(batch, r.error.pageNum).None?
      && forall p :: lo <= p < r.error.pageNum ==> PageByNum(batch, p).Some?
    ensures (forall p :: lo <= p <= hi ==> PageByNum(batch, p).Some?) ==> r.Success?
    decreases hi - lo
  {
    if lo > hi then Success([])
    else
      match PageByNum(batch, lo)
      case None => Failure(MissingPage(lo))
      case Some(page) =>
        match SectionPages(batch, lo + 1, hi)
        case Failure(e) => Failure(e)
        case Success(rest) => Success([page] + rest)
  }

  /** A section of the book whose pages are numbered from its start page to its end page. */
  predicate Numbered(book: Book, s: ContentSection) {
    && s.bookId == book.id && s.userId == book.userId
    && |s.pages| == (if s.startPage <= s.endPage then s.endPage - s.startPage + 1 else 0)
    && forall k :: 0 <= k < |s.pages| ==> s.pages[k].pageNum == s.startPage + k
  }

  /** A numbered section with a non-empty range is what the distill worker expects. */
  lemma NumberedSpansRange(book: Book, s: ContentSection)
    requires Numbered(book, s) && s.startPage <= s.endPage
    ensures PagesSpanRange(s)
  {
  }

  /** `acc` in front of a successful list; a failure stays a failure. */
  function Prepend(acc: seq<ContentSection>, r: Result<seq<ContentSection>, PostError>): Result<seq<ContentSection>, PostError> {
    match r
    case Success(v) => Success(acc + v)
    case Failure(e) => Failure(e)
  }

  /** The sections of one batch, one per range in the creator's order. */
  function SectionsOfBatch(book: Book, batch: seq<Page>, ranges: seq<PageRange>): Result<seq<ContentSection>, PostError> {
    if |ranges| == 0 then Success([])
    else
      match SectionPages(batch, ranges[0].startPage, ranges[0].endPage)
      case Failure(e) => Failure(e)
      case Success(pages) =>
        Prepend([ContentSection(book.id, book.userId, ranges[0].startPage, ranges[0].endPage, pages)],
                SectionsOfBatch(book, batch, ranges[1..]))
  }

  /**
   * One section per range, in order, with the range's bounds and the batch pages numbered
   * from its start to its end; the batch fails iff some range names a page outside it.
   */
  lemma {:induction false} SectionsOfBatchSpec(book: Book, batch: seq<Page>, ranges: seq<PageRange>)
    ensures var r := SectionsOfBatch(book, batch, ranges);
      && (r.Success? ==>
        && |r.value| == |ranges|
        && forall k :: 0 <= k < |ranges| ==>
          && r.value[k].startPage == ranges[k].startPage && r.value[k].endPage == ranges[k].endPage
          && Numbered(book, r.value[k])
          && (forall q :: q in r.value[k].pages ==> q in batch))
      && (r.Failure? <==> exists k :: 0 <= k < |ranges| && SectionPages(batch, ranges[k].startPage, ranges[k].endPage).Failure?)
  {
    if |ranges| > 0 {
      SectionsOfBatchSpec(book, batch, ranges[1..]);
      assert forall k :: 1 <= k < |ranges| ==> ranges[k] == ranges[1..][k - 1];
      var first := SectionPages(batch, ranges[0].startPage, ranges[0].endPage);
      var rest := SectionsOfBatch(book, batch, ranges[1..]);
      if first.Success? && rest.Success? {
        var r := SectionsOfBatch(book, batch, ranges);
        assert r.value == [ContentSection(book.id, book.userId, ranges[0].startPage, ranges[0].endPage, first.value)] + rest.value;
        assert forall k :: 1 <= k < |ranges| ==> r.value[k] == rest.value[k - 1];
      }
    }
  }

  /** The sections of the batches in turn, each batch's ranges asked of `create`. */
  function SectionsOfBatches(book: Book, bs: seq<seq<Page>>, create: seq<Page> -> seq<PageRange>): Result<seq<ContentSection>, PostError> {
    if |bs| == 0 then Success([])
    else
      match SectionsOfBatch(book, bs[0], create(bs[0]))
      case Failure(e) => Failure(e)
      case Success(first) => Prepend(first, SectionsOfBatches(book, bs[1..], create))
  }

  /** A page of a sent batch is the document page of its number. */
  lemma BatchPageFromDocument(strip: string -> string, texts: seq<string>, b: seq<Page>, q: Page)
    requires SentBatch(strip, texts, b) && q in b
    ensures 0 <= q.pageNum < |texts| && q == PdfPage(strip, texts, q.pageNum)
  {
    var j :| 0 <= j < |b| && b[j] == q;
    assert q == PdfPage(strip, texts, b[0].pageNum + j);
  }

  /** The sections built from sent batches are numbered pages of the document, each as the reader gave it, stripped. */
  lemma {:induction false} SectionsOfBatchesFromDocument(book: Book, strip: string -> string, texts: seq<string>, bs: seq<seq<Page>>,
                                                         create: seq<Page> -> seq<PageRange>)
    requires forall k :: 0 <= k < |bs| ==> SentBatch(strip, texts, bs[k])
    requires SectionsOfBatches(book, bs, create).Success?
    ensures forall s :: s in SectionsOfBatches(book, bs, create).value ==>
      && Numbered(book, s)
      && forall q :: q in s.pages ==> 0 <= q.pageNum < |texts| && q == PdfPage(strip, texts, q.pageNum)
  {
    if |bs| > 0 {
      var first := SectionsOfBatch(book, bs[0], create(bs[0]));
      SectionsOfBatchSpec(book, bs[0], create(bs[0]));
      SectionsOfBatchesFromDocument(book, strip, texts, bs[1..], create);
      var all := SectionsOfBatches(book, bs, create).value;
      assert all == first.value + SectionsOfBatches(book, bs[1..], create).value;
      forall s | s in first.value
        ensures forall q :: q in s.pages ==> 0 <= q.pageNum < |texts| && q == PdfPage(strip, texts, q.pageNum)
      {
        forall q | q in s.pages
          ensures 0 <= q.pageNum < |texts| && q == PdfPage(strip, texts, q.pageNum)
        {
          BatchPageFromDocument(strip, texts, bs[0], q);
        }
      }
    }
  }

  /** What `_process_pdf` returns for the book whose PDF has the page texts `texts`. */
  function PdfSections(book: Book, texts: seq<string>, create: seq<Page> -> seq<PageRange>): Result<seq<ContentSection>, PostError> {
    SectionsOfBatches(book, Batches(texts), create)
  }

  /**
   * What `_process_pdf` promises of the sections it returns: each belongs to the book and holds
   * the pages numbered from its start page to its end page, each the stripped text of that page.
   */
  lemma PdfSectionsFaithful(book: Book, texts: seq<string>, create: seq<Page> -> seq<PageRange>)
    requires PdfSections(book, texts, create).Success?
    ensures forall s :: s in PdfSections(book, texts, create).value ==>
      && Numbered(book, s)
      && forall q :: q in s.pages ==> 0 <= q.pageNum < |texts| && q == PdfPage(PyStrip, texts, q.pageNum)
  {
    BatchesShape(texts);
    SectionsOfBatchesFromDocument(book, PyStrip, texts, Batches(texts), create);
  }

  lemma PrependNothing(r: Result<seq<ContentSection>, PostError>)
    ensures Prepend([], r) == r
  {
    if r.Success? {
      assert [] + r.value == r.value;
    }
  }

  lemma PrependPrepend(a: seq<ContentSection>, b: seq<ContentSection>, r: Result<seq<ContentSection>, PostError>)
    ensures Prepend(a, Prepend(b, r)) == Prepend(a + b, r)
  {
    if r.Success? {
      assert a + (b + r.value) == (a + b) + r.value;
    }
  }

  /** One step of the loop over the creator's ranges. */
  lemma {:induction false} RangeStep(book: Book, batch: seq<Page>, ranges: seq<PageRange>, j: nat, all: seq<ContentSection>)
    requires j < |ranges|
    ensures var range := ranges[j];
      var pages := SectionPages(batch, range.startPage, range.endPage);
      && (pages.Failure? ==> Prepend(all, SectionsOfBatch(book, batch, ranges[j..])) == Failure(pages.error))
      && (pages.Success? ==>
            (Prepend(all, SectionsOfBatch(book, batch, ranges[j..]))
          == Prepend(all + [ContentSection(book.id, book.userId, range.startPage, range.endPage, pages.value)],
                     SectionsOfBatch(book, batch, ranges[j + 1..]))))
  {
    assert ranges[j..][0] == ranges[j];
    assert ranges[j..][1..] == ranges[j + 1..];
    var range := ranges[j];
    var pages := SectionPages(batch, range.startPage, range.endPage);
    if pages.Success? {
      var section := ContentSection(book.id, book.userId, range.startPage, range.endPage, pages.value);
      PrependPrepend(all, [section], SectionsOfBatch(book, batch, ranges[j + 1..]));
    }
  }

  /** A flushed batch whose ranges all gave sections: the sections of the remaining batches follow. */
  lemma FlushStep(book: Book, b: seq<Page>, rest: seq<seq<Page>>, create: seq<Page> -> seq<PageRange>,
                  before: seq<ContentSection>, all: seq<ContentSection>)
    requires Prepend(all, Success([])) == Prepend(before, SectionsOfBatch(book, b, create(b)))
    ensures Prepend(before, SectionsOfBatches(book, [b] + rest, create)) == Prepend(all, SectionsOfBatches(book, rest, create))
  {
    assert ([b] + rest)[1..] == rest;
    var v := SectionsOfBatch(book, b, create(b)).value;
    assert all == before + v;
    PrependPrepend(before, v, SectionsOfBatches(book, rest, create));
  }

  /** A flushed batch with a range that names a missing page: the whole result is that error. */
  lemma FlushFails(book: Book, b: seq<Page>, rest: seq<seq<Page>>, create: seq<Page> -> seq<PageRange>,
                   before: seq<ContentSection>, e: PostError)
    requires Prepend(before, SectionsOfBatch(book, b, create(b))) == Failure(e)
    ensures Prepend(before, SectionsOfBatches(book, [b] + rest, create)) == Failure(e)
  {
    assert ([b] + rest)[1..] == rest;
  }

  /** One page of the loop: it joins the batch, which is sent if it is now full or heavy enough. */
  lemma BatchesFromStep(strip: string -> string, texts: seq<string>, i: nat, batch: seq<Page>, chars: nat,
                        b: seq<Page>, c: nat)
    requires i < |texts|
    requires b == batch + [PdfPage(strip, texts, i)] && c == chars + |texts[i]|
    ensures Flushes(b, c) ==> BatchesFrom(strip, texts, i, batch, chars) == [b] + BatchesFrom(strip, texts, i + 1, [], 0)
    ensures !Flushes(b, c) ==> BatchesFrom(strip, texts, i, batch, chars) == BatchesFrom(strip, texts, i + 1, b, c)
  {
  }

  /** `_process_pdf`: the page loop with its two counters and the inner loop over the creator's ranges. */
  method ProcessPdf(book: Book, texts: seq<string>, create: seq<Page> -> seq<PageRange>) returns (r: Result<seq<ContentSection>, PostError>)
    ensures r == PdfSections(book, texts, create)
  {
    var batch: seq<Page> := [];
    var chars: nat := 0;
    var all: seq<ContentSection> := [];
    var i := 0;
    PrependNothing(PdfSections(book, texts, create));
    while i < |texts|
      invariant 0 <= i <= |texts|
      invariant Prepend(all, SectionsOfBatches(book, BatchesFrom(PyStrip, texts, i, batch, chars), create)) == PdfSections(book, texts, create)
    {
      ghost var rest := BatchesFrom(PyStrip, texts, i + 1, [], 0);
      ghost var whole := BatchesFrom(PyStrip, texts, i, batch, chars);
      ghost var batch0, chars0 := batch, chars;
      batch := batch + [Page(i, PyStrip(texts[i]))];
      chars := chars + |texts[i]|;
      BatchesFromStep(PyStrip, texts, i, batch0, chars0, batch, chars);
      if |batch| == BATCH_PAGE_COUNT || chars >= BATCH_CHAR_COUNT {
        var ranges := create(batch);
        ghost var before := all;
        var j := 0;
        while j < |ranges|
          invariant 0 <= j <= |ranges|
          invariant Prepend(all, SectionsOfBatch(book, batch, ranges[j..])) == Prepend(before, SectionsOfBatch(book, batch, ranges))
        {
          RangeStep(book, batch, ranges, j, all);
          var range := ranges[j];
          var pages := SectionPages(batch, range.startPage, range.endPage);
          if pages.Failure? {
            FlushFails(book, batch, rest, create, before, pages.error);
            return Failure(pages.error);
          }
          all := all + [ContentSection(book.id, book.userId, range.startPage, range.endPage, pages.value)];
          j := j + 1;
        }
        assert ranges[|ranges|..] == [];
        FlushStep(book, batch, rest, create, before, all);
        assert Prepend(all, SectionsOfBatches(book, rest, create)) == PdfSections(book, texts, create);
        batch := [];
        chars := 0;
      }
      i := i + 1;
    }
    assert all + [] == all;
    r := Success(all);
  }

  /** What one post-processing job does to the stores. */
  datatype JobEffect =
    | Skipped                                          // sections were generated already
    | Generated(sections: seq<ContentSection>, book: Book)  // sections saved, then the flagged book

  /** `_process_job` for the stored book `book` (if any) whose PDF has the page texts `texts`. */
  function PostProcess(book: Option<Book>, texts: seq<string>, create: seq<Page> -> seq<PageRange>): (r: Result<JobEffect, PostError>)
    ensures book.None? ==> r == Failure(BookMissing)
    ensures book.Some? && book.value.contentSectionGenerated ==> r == Success(Skipped)
    ensures book.Some? && !book.value.contentSectionGenerated && book.value.kind != "pdf" ==> r == Failure(UnsupportedType)
    ensures r.Success? && r.value.Generated? ==>
      && book.Some? && !book.value.contentSectionGenerated
      && r.value.book == book.value.(contentSectionGenerated := true)
      && Success(r.value.sections) == PdfSections(book.value, texts, create)
    ensures (book.Some? && !book.value.contentSectionGenerated && book.value.kind == "pdf"
      && PdfSections(book.value, texts, create).Success?) ==>
      r == Success(Generated(PdfSections(book.value, texts, create).value, book.value.(contentSectionGenerated := true)))
    ensures (book.Some? && !book.value.contentSectionGenerated && book.value.kind == "pdf"
      && PdfSections(book.value, texts, create).Failure?) ==>
      r == Failure(PdfSections(book.value, texts, create).error)
  {
    match book
    case None => Failure(BookMissing)
    case Some(b) =>
      if b.contentSectionGenerated then Success(Skipped)
      else if b.kind != "pdf" then Failure(UnsupportedType)
      else
        match PdfSections(b, texts, create)
        case Failure(e) => Failure(e)
        case Success(sections) => Success(Generated(sections, b.(contentSectionGenerated := true)))
  }

  /**
   * A job that generated the sections of a book leaves the book flagged, so the next job for
   * it, whatever the PDF now reads, saves nothing: sections are generated at most once.
   */
  lemma GeneratedOnce(books: map<string, Book>, bookId: string, texts: seq<string>, texts2: seq<string>,
                      create: seq<Page> -> seq<PageRange>)
    requires KeyedById(books)
    requires var r := PostProcess(if bookId in books then Some(books[bookId]) else None, texts, create);
      r.Success? && r.value.Generated?
    ensures var r := PostProcess(Some(books[bookId]), texts, create);
      var after := books[r.value.book.id := r.value.book];
      && r.value.book.id == bookId
      && KeyedById(after)
      && PostProcess(Some(after[bookId]), texts2, create) == Success(Skipped)
  {
  }

  /** The post-upload service, holding the repositories it reads and writes. */
  class ProcessingService {
    const books: BookRepository
    const sections: ContentSectionRepository

    constructor(books: BookRepository, sections: ContentSectionRepository)
      ensures this.books == books && this.sections == sections
    {
      this.books := books;
      this.sections := sections;
    }

    /** `_process_job`: nothing is saved unless every section was built. */
    method ProcessJob(bookId: string, texts: seq<string>, create: seq<Page> -> seq<PageRange>) returns (outcome: Result<(), PostError>)
      requires books.Valid()
      modifies books, sections
      ensures books.Valid()
      ensures var r := PostProcess(if bookId in old(books.books) then Some(old(books.books)[bookId]) else None, texts, create);
        match r
        case Failure(e) => outcome == Failure(e) && books.books == old(books.books) && sections.rows == old(sections.rows)
        case Success(Skipped) => outcome == Success(()) && books.books == old(books.books) && sections.rows == old(sections.rows)
        case Success(Generated(made, book)) =>
          && outcome == Success(())
          && sections.rows == old(sections.rows) + made
          && books.books == old(books.books)[book.id := book]
    {
      var book := books.GetByBookId(bookId);
      if book.None? {
        return Failure(BookMissing);
      }
      var b := book.value;
      if b.contentSectionGenerated {
        return Success(());
      }
      if b.kind != "pdf" {
        return Failure(UnsupportedType);
      }
      var made := ProcessPdf(b, texts, create);
      if made.Failure? {
        return Failure(made.error);
      }
      b := b.(contentSectionGenerated := true);
      sections.SaveMultiple(made.value);
      books.Save(b);
      outcome := Success(());
    }
  }
}
