/**
 * The backend's stores, as the Firestore implementations use them: books keyed by id, content
 * sections and distilled pages as collections queried by field equality, and a message broker
 * that only ever appends published jobs. A query that may match several documents returns the
 * first one in collection order.
 */
module Repositories {
  import opened Wrappers
  import opened Records

  /** Index of the first row that `keep` accepts. */
  function FirstWhere<T>(rows: seq<T>, keep: T -> bool): (r: Option<nat>)
    ensures r.Some? ==> r.value < |rows| && keep(rows[r.value])
    ensures r.Some? ==> forall j :: 0 <= j < r.value ==> !keep(rows[j])
    ensures r.None? ==> forall j :: 0 <= j < |rows| ==> !keep(rows[j])
  {
    if |rows| == 0 then None
    else if keep(rows[0]) then Some(0)
    else
      match FirstWhere(rows[1..], keep)
      case None => None
      case Some(i) => Some(i + 1)
  }

  /** The row `FirstWhere` finds, if any. */
  function FirstRow<T>(rows: seq<T>, keep: T -> bool): (r: Option<T>)
    ensures r.Some? <==> exists j :: 0 <= j < |rows| && keep(rows[j])
    ensures r.Some? ==> r.value in rows && keep(r.value)
  {
    match FirstWhere(rows, keep)
    case None => None
    case Some(i) => Some(rows[i])
  }

  // ---------------------------------------------------------------------------------------
  // Books

  /** `get(book_id, user_id)`: the book with that id, only when it belongs to that user. */
  function GetBook(books: map<string, Book>, bookId: string, userId: string): (r: Option<Book>)
    ensures r.Some? <==> bookId in books && books[bookId].userId == userId
    ensures r.Some? ==> r.value == books[bookId] && r.value.id == bookId
    requires forall id :: id in books ==> books[id].id == id
  {
    if bookId in books && books[bookId].userId == userId then Some(books[bookId]) else None
  }

  /** Every stored book sits under its own id, since `save` writes document `book.id`. */
  predicate KeyedById(books: map<string, Book>) {
    forall id :: id in books ==> books[id].id == id
  }

  class BookRepository {
    var books: map<string, Book>

    constructor()
      ensures books == map[]
    {
      books := map[];
    }

    predicate Valid()
      reads this
    {
      KeyedById(books)
    }

    /** `save`: overwrite document `book.id`. */
    method Save(book: Book)
      requires Valid()
      modifies this
      ensures Valid()
      ensures books == old(books)[book.id := book]
    {
      books := books[book.id := book];
    }

    method Get(bookId: string, userId: string) returns (r: Option<Book>)
      requires Valid()
      ensures r == GetBook(books, bookId, userId)
    {
      if bookId in books && books[bookId].userId == userId {
        r := Some(books[bookId]);
      } else {
        r := None;
      }
    }

    method GetByBookId(bookId: string) returns (r: Option<Book>)
      ensures r.Some? <==> bookId in books
      ensures r.Some? ==> r.value == books[bookId]
    {
      if bookId in books {
        r := Some(books[bookId]);
      } else {
        r := None;
      }
    }
  }

  // ---------------------------------------------------------------------------------------
  // Content sections

  /** The user filter of a query: applied only when a user id is given. */
  predicate OwnedBy(owner: string, userId: Option<string>) {
    userId.None? || userId.value == "" || owner == userId.value
  }

  predicate SectionHasRange(s: ContentSection, bookId: string, startPage: int, endPage: int, userId: Option<string>) {
    s.bookId == bookId && s.startPage == startPage && s.endPage == endPage && OwnedBy(s.userId, userId)
  }

  predicate SectionHoldsPage(s: ContentSection, bookId: string, pageNum: int, userId: Option<string>) {
    s.bookId == bookId && s.startPage <= pageNum <= s.endPage && OwnedBy(s.userId, userId)
  }

  /** `get_by_range`: the first section with exactly that range. */
  function SectionByRange(rows: seq<ContentSection>, bookId: string, startPage: int, endPage: int, userId: Option<string>): (r: Option<ContentSection>)
    ensures r.Some? <==> exists j :: 0 <= j < |rows| && SectionHasRange(rows[j], bookId, startPage, endPage, userId)
    ensures r.Some? ==> r.value in rows && SectionHasRange(r.value, bookId, startPage, endPage, userId)
  {
    FirstRow(rows, s => SectionHasRange(s, bookId, startPage, endPage, userId))
  }

  /** `get_by_page`: the first section whose range contains the page. */
  function SectionByPage(rows: seq<ContentSection>, bookId: string, pageNum: int, userId: Option<string>): (r: Option<ContentSection>)
    ensures r.Some? <==> exists j :: 0 <= j < |rows| && SectionHoldsPage(rows[j], bookId, pageNum, userId)
    ensures r.Some? ==> r.value in rows && r.value.startPage <= pageNum <= r.value.endPage
  {
    FirstRow(rows, s => SectionHoldsPage(s, bookId, pageNum, userId))
  }

  class ContentSectionRepository {
    var rows: seq<ContentSection>

    constructor()
      ensures rows == []
    {
      rows := [];
    }

    /** `save_multiple`: one new document per section, in order. */
    method SaveMultiple(sections: seq<ContentSection>)
      modifies this
      ensures rows == old(rows) + sections
    {
      rows := rows + sections;
    }

    method GetByRange(bookId: string, startPage: int, endPage: int, userId: Option<string>) returns (r: Option<ContentSection>)
      ensures r == SectionByRange(rows, bookId, startPage, endPage, userId)
    {
      r := SectionByRange(rows, bookId, startPage, endPage, userId);
    }

    method GetByPage(bookId: string, pageNum: int, userId: Option<string>) returns (r: Option<ContentSection>)
      ensures r == SectionByPage(rows, bookId, pageNum, userId)
    {
      r := SectionByPage(rows, bookId, pageNum, userId);
    }
  }

  // ---------------------------------------------------------------------------------------
  // Distilled pages

  /** `save` looks a distilled page up by book and range only, ignoring the user. */
  predicate SameRange(p: DistilledPage, bookId: string, startPage: int, endPage: int) {
    p.bookId == bookId && p.startPage == startPage && p.endPage == endPage
  }

  predicate DistilledMatches(p: DistilledPage, bookId: string, startPage: int, endPage: int, userId: Option<string>) {
    SameRange(p, bookId, startPage, endPage) && OwnedBy(p.userId, userId)
  }

  /** `get`: the first distilled page of that range (and of that user, when one is given). */
  function GetDistilled(rows: seq<DistilledPage>, bookId: string, startPage: int, endPage: int, userId: Option<string>): (r: Option<DistilledPage>)
    ensures r.Some? <==> exists j :: 0 <= j < |rows| && DistilledMatches(rows[j], bookId, startPage, endPage, userId)
    ensures r.Some? ==> r.value in rows && DistilledMatches(r.value, bookId, startPage, endPage, userId)
  {
    FirstRow(rows, p => DistilledMatches(p, bookId, startPage, endPage, userId))
  }

  /** `save`: overwrite the first document with the same book and range, or add a new one. */
  function SaveDistilled(rows: seq<DistilledPage>, page: DistilledPage): (r: seq<DistilledPage>)
    ensures |r| == |rows| || r == rows + [page]
  {
    match FirstWhere(rows, p => SameRange(p, page.bookId, page.startPage, page.endPage))
    case None => rows + [page]
    case Some(i) => rows[i := page]
  }

  /** At most one distilled page per book and range, which `save` maintains. */
  ghost predicate RangesUnique(rows: seq<DistilledPage>) {
    forall i, j :: 0 <= i < j < |rows| ==>
      !SameRange(rows[j], rows[i].bookId, rows[i].startPage, rows[i].endPage)
  }

  /** After `save`, the saved page is what every range query for it returns. */
  lemma {:induction false} SaveThenGet(rows: seq<DistilledPage>, page: DistilledPage)
    requires RangesUnique(rows)
    ensures RangesUnique(SaveDistilled(rows, page))
    ensures GetDistilled(SaveDistilled(rows, page), page.bookId, page.startPage, page.endPage, None) == Some(page)
    ensures GetDistilled(SaveDistilled(rows, page), page.bookId, page.startPage, page.endPage, Some(page.userId)) == Some(page)
  {
    var keep := p => SameRange(p, page.bookId, page.startPage, page.endPage);
    var r := SaveDistilled(rows, page);
    match FirstWhere(rows, keep)
    case None =>
      assert r == rows + [page];
      assert forall j :: 0 <= j < |rows| ==> !keep(rows[j]);
      SoleMatch(r, page, |rows|);
    case Some(i) =>
      assert r == rows[i := page];
      forall j | 0 <= j < |r| && j != i
        ensures !SameRange(r[j], page.bookId, page.startPage, page.endPage)
      {
        if j < i {
          assert !SameRange(rows[j], rows[i].bookId, rows[i].startPage, rows[i].endPage);
        } else {
          assert !SameRange(rows[j], rows[i].bookId, rows[i].startPage, rows[i].endPage);
        }
      }
      SoleMatch(r, page, i);
  }

  /** When a row holds the only copy of a range, both range queries return it and ranges stay unique. */
  lemma {:induction false} SoleMatch(r: seq<DistilledPage>, page: DistilledPage, i: nat)
    requires i < |r| && r[i] == page
    requires forall j :: 0 <= j < |r| && j != i ==> !SameRange(r[j], page.bookId, page.startPage, page.endPage)
    requires forall a, b :: 0 <= a < b < |r| && a != i && b != i ==> !SameRange(r[b], r[a].bookId, r[a].startPage, r[a].endPage)
    ensures RangesUnique(r)
    ensures GetDistilled(r, page.bookId, page.startPage, page.endPage, None) == Some(page)
    ensures GetDistilled(r, page.bookId, page.startPage, page.endPage, Some(page.userId)) == Some(page)
  {
    var keepAny := p => DistilledMatches(p, page.bookId, page.startPage, page.endPage, None);
    var keepUser := p => DistilledMatches(p, page.bookId, page.startPage, page.endPage, Some(page.userId));
    var a := FirstWhere(r, keepAny);
    var b := FirstWhere(r, keepUser);
    assert keepAny(r[i]) && keepUser(r[i]);
    assert a.Some? && a.value == i;
    assert b.Some? && b.value == i;
  }

  /** `save` never touches a page of another range. */
  lemma {:induction false} SaveKeepsOtherRanges(rows: seq<DistilledPage>, page: DistilledPage,
                                                bookId: string, startPage: int, endPage: int, userId: Option<string>)
    requires !(page.bookId == bookId && page.startPage == startPage && page.endPage == endPage)
    ensures GetDistilled(SaveDistilled(rows, page), bookId, startPage, endPage, userId) == GetDistilled(rows, bookId, startPage, endPage, userId)
  {
    var keep := p => DistilledMatches(p, bookId, startPage, endPage, userId);
    var r := SaveDistilled(rows, page);
    assert !keep(page);
    match FirstWhere(rows, p => SameRange(p, page.bookId, page.startPage, page.endPage))
    case None =>
      assert r == rows + [page];
      FirstWhereAppend(rows, page, keep);
    case Some(i) =>
      assert r == rows[i := page];
      FirstWhereUpdate(rows, i, page, keep);
  }

  lemma {:induction false} FirstWhereAppend<T>(rows: seq<T>, x: T, keep: T -> bool)
    requires !keep(x)
    ensures FirstWhere(rows + [x], keep) == FirstWhere(rows, keep)
  {
    var a := FirstWhere(rows + [x], keep);
    var b := FirstWhere(rows, keep);
    assert forall j :: 0 <= j < |rows| ==> (rows + [x])[j] == rows[j];
    if a.Some? {
      assert a.value < |rows|;
      assert b.Some? && b.value == a.value;
    }
  }

  lemma {:induction false} FirstWhereUpdate<T>(rows: seq<T>, i: nat, x: T, keep: T -> bool)
    requires i < |rows| && !keep(x) && !keep(rows[i])
    ensures FirstWhere(rows[i := x], keep) == FirstWhere(rows, keep)
  {
    var a := FirstWhere(rows[i := x], keep);
    var b := FirstWhere(rows, keep);
    if a.Some? {
      assert a.value != i && rows[a.value] == rows[i := x][a.value];
      assert forall j :: 0 <= j < a.value ==> !keep(rows[j]) by {
        forall j | 0 <= j < a.value
          ensures !keep(rows[j])
        {
          if j != i {
            assert rows[j] == rows[i := x][j];
          }
        }
      }
      assert b.Some? && b.value == a.value;
    } else {
      forall j | 0 <= j < |rows|
        ensures !keep(rows[j])
      {
        if j != i {
          assert rows[j] == rows[i := x][j];
        }
      }
    }
  }

  class DistilledPageRepository {
    var rows: seq<DistilledPage>

    constructor()
      ensures rows == []
    {
      rows := [];
    }

    method Save(page: DistilledPage)
      modifies this
      ensures rows == SaveDistilled(old(rows), page)
    {
      rows := SaveDistilled(rows, page);
    }

    method Get(bookId: string, startPage: int, endPage: int, userId: Option<string>) returns (r: Option<DistilledPage>)
      ensures r == GetDistilled(rows, bookId, startPage, endPage, userId)
    {
      r := GetDistilled(rows, bookId, startPage, endPage, userId);
    }
  }

  // ---------------------------------------------------------------------------------------
  // Message broker

  /** A Pub/Sub topic seen from the publisher: the jobs published so far, in order. */
  class Broker<T> {
    var published: seq<T>

    constructor()
      ensures published == []
    {
      published := [];
    }

    method Publish(job: T)
      modifies this
      ensures published == old(published) + [job]
    {
      published := published + [job];
    }
  }
}
