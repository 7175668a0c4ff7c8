/**
 * The book routes: `POST /book` registers an empty book and hands out an upload URL,
 * `GET /book/{id}` hands out a download URL for an uploaded book of the caller, and
 * `PATCH /set_book_uploaded` marks an uploaded book and publishes one post-processing job.
 * The generated id, the clock and the file service's answers are parameters.
 */
module BookRoutes {
  import opened Wrappers
  import opened Records
  import opened Repositories
  import opened PostUpload

  /** The HTTP errors the routes raise. */
  datatype HttpError =
    | NotFound(detail: string)    // 404
    | BadRequest(detail: string)  // 400
    | InternalError               // 500

  const BOOK_NOT_FOUND: string := "Book not found"
  const ALREADY_UPLOADED: string := "Book already uploaded"

  /** The record `post_book` creates: untitled, not uploaded, no sections generated. */
  function NewBook(id: string, userId: string, kind: string, now: int): Book {
    Book(id, "", kind, userId, now, false, false)
  }

  datatype PostBookReply = PostBookReply(bookId: string, uploadUrl: string)

  /**
   * `post_book_handler` with the generated id `id`: the book is saved unless the repository
   * raises (`saveFails`), and the reply carries the upload URL unless the file service raises
   * (`uploadUrl == None`). Any exception becomes a 500; a book saved before it stays saved.
   */
  function PostBook(books: map<string, Book>, id: string, userId: string, kind: string, now: int,
                    saveFails: bool, uploadUrl: Option<string>): (o: (map<string, Book>, Result<PostBookReply, HttpError>))
    requires KeyedById(books)
    ensures KeyedById(o.0)
    ensures o.1.Success? <==> !saveFails && uploadUrl.Some?
    ensures o.1.Failure? ==> o.1.error == InternalError
    ensures o.1.Success? ==> o.1.value.bookId == id && o.1.value.uploadUrl == uploadUrl.value
    ensures saveFails ==> o.0 == books
    ensures !saveFails ==>
      && id in o.0 && o.0[id] == NewBook(id, userId, kind, now)
      && forall other :: other != id ==> (other in o.0 <==> other in books) && (other in books ==> o.0[other] == books[other])
  {
    if saveFails then (books, Failure(InternalError))
    else
      var after := books[id := NewBook(id, userId, kind, now)];
      match uploadUrl
      case None => (after, Failure(InternalError))
      case Some(url) => (after, Success(PostBookReply(id, url)))
  }

  datatype GetBookReply = GetBookReply(bookId: string, downloadUrl: string)

  /** `get_book_handler`: a book of another user and a book not yet uploaded are both not found. */
  function GetBookRoute(books: map<string, Book>, bookId: string, userId: string, downloadUrl: string -> string): (r: Result<GetBookReply, HttpError>)
    requires KeyedById(books)
    ensures r.Success? <==> bookId in books && books[bookId].userId == userId && books[bookId].isUploaded
    ensures r.Failure? ==> r.error == NotFound(BOOK_NOT_FOUND)
    ensures r.Success? ==> r.value == GetBookReply(bookId, downloadUrl(bookId))
  {
    match GetBook(books, bookId, userId)
    case None => Failure(NotFound(BOOK_NOT_FOUND))
    case Some(book) =>
      if !book.isUploaded then Failure(NotFound(BOOK_NOT_FOUND))
      else Success(GetBookReply(book.id, downloadUrl(book.id)))
  }

  /** The reply, the stored books and the published jobs after `set_book_uploaded`. */
  datatype UploadOutcome = UploadOutcome(result: Result<(), HttpError>, books: map<string, Book>, jobs: seq<PostProcessingJob>)

  /**
   * `set_book_uploaded_handler`, where `files` are the ids whose PDF is in storage. The checks
   * run in order (the caller's book, its file, the flag) and the first that fails answers.
   */
  function SetBookUploaded(books: map<string, Book>, jobs: seq<PostProcessingJob>, files: set<string>,
                           bookId: string, userId: string): (o: UploadOutcome)
    requires KeyedById(books)
    ensures KeyedById(o.books)
    ensures GetBook(books, bookId, userId).None? ==> o.result == Failure(NotFound(BOOK_NOT_FOUND))
    ensures GetBook(books, bookId, userId).Some? && bookId !in files ==> o.result == Failure(NotFound(BOOK_NOT_FOUND))
    ensures GetBook(books, bookId, userId).Some? && bookId in files && books[bookId].isUploaded
      ==> o.result == Failure(BadRequest(ALREADY_UPLOADED))
    ensures o.result.Success? <==>
      bookId in books && books[bookId].userId == userId && bookId in files && !books[bookId].isUploaded
    ensures o.result.Failure? ==> o.books == books && o.jobs == jobs
    ensures o.result.Success? ==>
      && o.books == books[bookId := books[bookId].(isUploaded := true)]
      && o.jobs == jobs + [PostProcessingJob(bookId)]
  {
    match GetBook(books, bookId, userId)
    case None => UploadOutcome(Failure(NotFound(BOOK_NOT_FOUND)), books, jobs)
    case Some(book) =>
      if book.id !in files then UploadOutcome(Failure(NotFound(BOOK_NOT_FOUND)), books, jobs)
      else if book.isUploaded then UploadOutcome(Failure(BadRequest(ALREADY_UPLOADED)), books, jobs)
      else
        var uploaded := book.(isUploaded := true);
        UploadOutcome(Success(()), books[uploaded.id := uploaded], jobs + [PostProcessingJob(uploaded.id)])
  }

  /**
   * The life of one book: once posted it cannot be fetched; once its file is stored, marking it
   * uploaded publishes exactly one job for it, after which it can be fetched and a second
   * mark is refused without publishing anything.
   */
  lemma PostUploadGet(books: map<string, Book>, jobs: seq<PostProcessingJob>, files: set<string>, id: string, userId: string,
                      kind: string, now: int, uploadUrl: string, downloadUrl: string -> string)
    requires KeyedById(books) && id in files
    ensures var posted := PostBook(books, id, userId, kind, now, false, Some(uploadUrl)).0;
      var marked := SetBookUploaded(posted, jobs, files, id, userId);
      && GetBookRoute(posted, id, userId, downloadUrl) == Failure(NotFound(BOOK_NOT_FOUND))
      && marked.result.Success?
      && marked.jobs == jobs + [PostProcessingJob(id)]
      && GetBookRoute(marked.books, id, userId, downloadUrl) == Success(GetBookReply(id, downloadUrl(id)))
      && SetBookUploaded(marked.books, marked.jobs, files, id, userId) == UploadOutcome(Failure(BadRequest(ALREADY_UPLOADED)), marked.books, marked.jobs)
  {
  }

  /** A sequence of `set_book_uploaded` requests, each a book id and a user id. */
  function SetUploadedAll(books: map<string, Book>, jobs: seq<PostProcessingJob>, files: set<string>,
                          requests: seq<(string, string)>): (o: (map<string, Book>, seq<PostProcessingJob>))
    requires KeyedById(books)
    ensures KeyedById(o.0)
    decreases |requests|
  {
    if |requests| == 0 then (books, jobs)
    else
      var first := SetBookUploaded(books, jobs, files, requests[0].0, requests[0].1);
      SetUploadedAll(first.books, first.jobs, files, requests[1..])
  }

  /** How many of the jobs are for the book `bookId`. */
  function JobsFor(jobs: seq<PostProcessingJob>, bookId: string): nat {
    if |jobs| == 0 then 0
    else JobsFor(jobs[..|jobs| - 1], bookId) + (if jobs[|jobs| - 1].bookId == bookId then 1 else 0)
  }

  /** Whether the book `bookId` is stored and not yet uploaded, as 1 or 0. */
  function Pending(books: map<string, Book>, bookId: string): nat {
    if bookId in books && !books[bookId].isUploaded then 1 else 0
  }

  /**
   * However many requests arrive, in whatever order and from whichever users, each book gets
   * at most one post-processing job, and only a book that was pending gets one: an uploaded
   * book stays uploaded, so the check for it refuses every later request.
   */
  lemma {:induction false} AtMostOneJobPerBook(books: map<string, Book>, jobs: seq<PostProcessingJob>, files: set<string>,
                                               requests: seq<(string, string)>, bookId: string)
    requires KeyedById(books)
    ensures var after := SetUploadedAll(books, jobs, files, requests);
      && JobsFor(after.1, bookId) + Pending(after.0, bookId) == JobsFor(jobs, bookId) + Pending(books, bookId)
      && JobsFor(after.1, bookId) <= JobsFor(jobs, bookId) + Pending(books, bookId)
      && (bookId in books ==> bookId in after.0)
    decreases |requests|
  {
    if |requests| > 0 {
      var first := SetBookUploaded(books, jobs, files, requests[0].0, requests[0].1);
      if first.result.Success? {
        var job := PostProcessingJob(requests[0].0);
        assert first.jobs[..|first.jobs| - 1] == jobs;
        assert JobsFor(first.jobs, bookId) == JobsFor(jobs, bookId) + (if requests[0].0 == bookId then 1 else 0);
      }
      AtMostOneJobPerBook(first.books, first.jobs, files, requests[1..], bookId);
    }
  }

  /** The book routes over the book repository and the post-upload topic. */
  class BookApi {
    const books: BookRepository
    const broker: Broker<PostProcessingJob>

    constructor(books: BookRepository, broker: Broker<PostProcessingJob>)
      ensures this.books == books && this.broker == broker
    {
      this.books := books;
      this.broker := broker;
    }

    method PostBookHandler(id: string, userId: string, kind: string, now: int, saveFails: bool, uploadUrl: Option<string>)
      returns (r: Result<PostBookReply, HttpError>)
      requires books.Valid()
      modifies books
      ensures books.Valid()
      ensures var o := PostBook(old(books.books), id, userId, kind, now, saveFails, uploadUrl);
        books.books == o.0 && r == o.1
    {
      if saveFails {
        return Failure(InternalError);
      }
      var book := NewBook(id, userId, kind, now);
      books.Save(book);
      if uploadUrl.None? {
        return Failure(InternalError);
      }
      r := Success(PostBookReply(book.id, uploadUrl.value));
    }

    method GetBookHandler(bookId: string, userId: string, downloadUrl: string -> string) returns (r: Result<GetBookReply, HttpError>)
      requires books.Valid()
      ensures r == GetBookRoute(books.books, bookId, userId, downloadUrl)
    {
      var book := books.Get(bookId, userId);
      if book.None? || !book.value.isUploaded {
        return Failure(NotFound(BOOK_NOT_FOUND));
      }
      r := Success(GetBookReply(book.value.id, downloadUrl(book.value.id)));
    }

    method SetBookUploadedHandler(bookId: string, userId: string, files: set<string>) returns (r: Result<(), HttpError>)
      requires books.Valid()
      modifies books, broker
      ensures books.Valid()
      ensures var o := SetBookUploaded(old(books.books), old(broker.published), files, bookId, userId);
        r == o.result && books.books == o.books && broker.published == o.jobs
    {
      var book := books.Get(bookId, userId);
      if book.None? {
        return Failure(NotFound(BOOK_NOT_FOUND));
      }
      var b := book.value;
      if b.id !in files {
        return Failure(NotFound(BOOK_NOT_FOUND));
      }
      if b.isUploaded {
        return Failure(BadRequest(ALREADY_UPLOADED));
      }
      b := b.(isUploaded := true);
      books.Save(b);
      broker.Publish(PostProcessingJob(b.id));
      r := Success(());
    }
  }
}
