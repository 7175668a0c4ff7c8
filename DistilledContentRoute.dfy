/**
 * The `/get_distilled_content` route: a distilled page that is COMPLETED is returned, one that
 * is still in progress answers 202, and a missing one is created IN_PROGRESS with one distill
 * job published, provided the content section of that range exists.
 */
module DistilledContentRoute {
  import opened Wrappers
  import opened Records
  import opened Repositories
  import opened DistillWorker

  datatype Reply =
    | Distilled(page: DistilledPage)
    | Accepted(message: string)
    | NotFound(detail: string)

  const PROCESSING_STARTED: string := "Processing started"
  const PROCESSING_IN_PROGRESS: string := "Processing in progress"
  const NO_SECTIONS: string := "No content sections of page range found"

  /** The reply, the stored distilled pages and the published jobs after one request. */
  datatype Outcome = Outcome(reply: Reply, rows: seq<DistilledPage>, jobs: seq<DistillJob>)

  /** `get_distilled_content_handler` for the user `userId` at time `now`. */
  function HandleGet(rows: seq<DistilledPage>, sections: seq<ContentSection>, jobs: seq<DistillJob>,
                     bookId: string, startPage: int, endPage: int, userId: string, now: int): (o: Outcome)
    ensures var existing := GetDistilled(rows, bookId, startPage, endPage, Some(userId));
      existing.Some? ==>
        && o.rows == rows && o.jobs == jobs
        && o.reply == (if existing.value.status == Completed then Distilled(existing.value) else Accepted(PROCESSING_IN_PROGRESS))
    ensures o.reply.NotFound? <==>
      GetDistilled(rows, bookId, startPage, endPage, Some(userId)).None?
      && SectionByRange(sections, bookId, startPage, endPage, Some(userId)).None?
    ensures o.reply.NotFound? ==> o.rows == rows && o.jobs == jobs
    ensures o.jobs == jobs || o.jobs == jobs + [DistillJob(bookId, startPage, endPage)]
    ensures o.jobs == jobs ==> o.rows == rows
    ensures o.jobs != jobs ==>
      && o.reply == Accepted(PROCESSING_STARTED)
      && o.rows == SaveDistilled(rows, DistilledPage(bookId, userId, startPage, endPage, [], now, InProgress))
  {
    match GetDistilled(rows, bookId, startPage, endPage, Some(userId))
    case Some(page) =>
      if page.status == Completed then Outcome(Distilled(page), rows, jobs)
      else Outcome(Accepted(PROCESSING_IN_PROGRESS), rows, jobs)
    case None =>
      if SectionByRange(sections, bookId, startPage, endPage, Some(userId)).None? then
        Outcome(NotFound(NO_SECTIONS), rows, jobs)
      else
        var page := DistilledPage(bookId, userId, startPage, endPage, [], now, InProgress);
        Outcome(Accepted(PROCESSING_STARTED), SaveDistilled(rows, page), jobs + [DistillJob(bookId, startPage, endPage)])
  }

  /** The handler against the repositories and the broker it is given. */
  method GetDistilledContent(distilled: DistilledPageRepository, sections: ContentSectionRepository,
                             broker: Broker<DistillJob>, bookId: string, startPage: int, endPage: int,
                             userId: string, now: int) returns (reply: Reply)
    modifies distilled, broker
    ensures var o := HandleGet(old(distilled.rows), sections.rows, old(broker.published), bookId, startPage, endPage, userId, now);
      reply == o.reply && distilled.rows == o.rows && broker.published == o.jobs
  {
    var page := distilled.Get(bookId, startPage, endPage, Some(userId));
    if page.None? {
      var section := sections.GetByRange(bookId, startPage, endPage, Some(userId));
      if section.None? {
        return NotFound(NO_SECTIONS);
      }
      distilled.Save(DistilledPage(bookId, userId, startPage, endPage, [], now, InProgress));
      broker.Publish(DistillJob(bookId, startPage, endPage));
      return Accepted(PROCESSING_STARTED);
    }
    if page.value.status == Completed {
      reply := Distilled(page.value);
    } else {
      reply := Accepted(PROCESSING_IN_PROGRESS);
    }
  }

  /** `n` identical requests in a row. */
  function Repeat(n: nat, rows: seq<DistilledPage>, sections: seq<ContentSection>, jobs: seq<DistillJob>,
                  bookId: string, startPage: int, endPage: int, userId: string, now: int): Outcome
    requires n > 0
  {
    var o := HandleGet(rows, sections, jobs, bookId, startPage, endPage, userId, now);
    if n == 1 then o else Repeat(n - 1, o.rows, sections, o.jobs, bookId, startPage, endPage, userId, now)
  }

  /**
   * However often the same range is requested, at most one job is published for it: the
   * first request that finds no page stores an IN_PROGRESS one, which every later request sees.
   */
  lemma {:induction false} AtMostOneJob(n: nat, rows: seq<DistilledPage>, sections: seq<ContentSection>, jobs: seq<DistillJob>,
                                        bookId: string, startPage: int, endPage: int, userId: string, now: int)
    requires n > 0 && RangesUnique(rows)
    ensures var o := Repeat(n, rows, sections, jobs, bookId, startPage, endPage, userId, now);
      o.jobs == jobs || o.jobs == jobs + [DistillJob(bookId, startPage, endPage)]
  {
    var o := HandleGet(rows, sections, jobs, bookId, startPage, endPage, userId, now);
    if n > 1 {
      if o.jobs == jobs {
        AtMostOneJob(n - 1, rows, sections, jobs, bookId, startPage, endPage, userId, now);
      } else {
        var page := DistilledPage(bookId, userId, startPage, endPage, [], now, InProgress);
        SaveThenGet(rows, page);
        RepeatIsStable(n - 1, o.rows, sections, o.jobs, bookId, startPage, endPage, userId, now);
      }
    }
  }

  /** Once a page of the range is stored for the user, requests change nothing. */
  lemma {:induction false} RepeatIsStable(n: nat, rows: seq<DistilledPage>, sections: seq<ContentSection>, jobs: seq<DistillJob>,
                                          bookId: string, startPage: int, endPage: int, userId: string, now: int)
    requires n > 0
    requires GetDistilled(rows, bookId, startPage, endPage, Some(userId)).Some?
    ensures Repeat(n, rows, sections, jobs, bookId, startPage, endPage, userId, now).jobs == jobs
    ensures Repeat(n, rows, sections, jobs, bookId, startPage, endPage, userId, now).rows == rows
  {
    if n > 1 {
      RepeatIsStable(n - 1, rows, sections, jobs, bookId, startPage, endPage, userId, now);
    }
  }

  /** A first request for a range with a section and no page starts processing. */
  lemma FirstRequestStarts(rows: seq<DistilledPage>, sections: seq<ContentSection>, jobs: seq<DistillJob>,
                           bookId: string, startPage: int, endPage: int, userId: string, now: int)
    requires GetDistilled(rows, bookId, startPage, endPage, Some(userId)).None?
    requires SectionByRange(sections, bookId, startPage, endPage, Some(userId)).Some?
    ensures HandleGet(rows, sections, jobs, bookId, startPage, endPage, userId, now)
         == Outcome(Accepted(PROCESSING_STARTED),
                    SaveDistilled(rows, DistilledPage(bookId, userId, startPage, endPage, [], now, InProgress)),
                    jobs + [DistillJob(bookId, startPage, endPage)])
  {
  }

  /** A successful job over the IN_PROGRESS page of a user leaves that user a COMPLETED page of the range. */
  lemma {:induction false} WorkerCompletes(rows: seq<DistilledPage>, sections: seq<ContentSection>, job: DistillJob,
                                           now: int, answer: string, userId: string)
    requires RangesUnique(rows)
    requires var existing := GetDistilled(rows, job.bookId, job.startPage, job.endPage, None);
      existing.Some? && existing.value.userId == userId && existing.value.status == InProgress
    requires var s := SectionByRange(sections, job.bookId, job.startPage, job.endPage, None);
      s.Some? ==> PagesSpanRange(s.value)
    requires ProcessJob(rows, sections, job, now, answer).outcome.Success?
    ensures var after := ApplySaves(rows, ProcessJob(rows, sections, job, now, answer).saves);
      var p := GetDistilled(after, job.bookId, job.startPage, job.endPage, Some(userId));
      p.Some? && p.value.status == Completed && p.value.userId == userId
  {
    var run := ProcessJob(rows, sections, job, now, answer);
    var existing := GetDistilled(rows, job.bookId, job.startPage, job.endPage, None);
    var section := SectionByRange(sections, job.bookId, job.startPage, job.endPage, None);
    var started := run.saves[0];
    var done := run.saves[1];
    assert started == StartedPage(existing, section.value, job, now);
    assert SameRange(done, job.bookId, job.startPage, job.endPage);
    assert run.saves == [started, done];
    ApplyTwoSaves(rows, started, done);
    SaveThenGet(rows, started);
    SaveThenGet(SaveDistilled(rows, started), done);
  }

  /**
   * The whole protocol for one range: the first request stores an IN_PROGRESS page and
   * publishes a job; once the worker has processed that job successfully, the next request
   * returns the COMPLETED page with the distilled paragraphs.
   */
  lemma {:induction false} RequestProcessRequest(rows: seq<DistilledPage>, sections: seq<ContentSection>, jobs: seq<DistillJob>,
                                                 bookId: string, startPage: int, endPage: int, userId: string,
                                                 now: int, answer: string, later: int)
    requires RangesUnique(rows)
    requires GetDistilled(rows, bookId, startPage, endPage, Some(userId)).None?
    requires SectionByRange(sections, bookId, startPage, endPage, Some(userId)).Some?
    requires SectionByRange(sections, bookId, startPage, endPage, None) == SectionByRange(sections, bookId, startPage, endPage, Some(userId))
    requires PagesSpanRange(SectionByRange(sections, bookId, startPage, endPage, None).value)
    requires var first := HandleGet(rows, sections, jobs, bookId, startPage, endPage, userId, now);
      ProcessJob(first.rows, sections, DistillJob(bookId, startPage, endPage), later, answer).outcome.Success?
    ensures var first := HandleGet(rows, sections, jobs, bookId, startPage, endPage, userId, now);
      var run := ProcessJob(first.rows, sections, first.jobs[|first.jobs| - 1], later, answer);
      var after := ApplySaves(first.rows, run.saves);
      var second := HandleGet(after, sections, first.jobs, bookId, startPage, endPage, userId, later);
      && first.reply == Accepted(PROCESSING_STARTED)
      && first.jobs == jobs + [DistillJob(bookId, startPage, endPage)]
      && second.reply.Distilled?
      && second.reply.page.status == Completed
      && second.reply.page.userId == userId
      && second.jobs == first.jobs
  {
    var job := DistillJob(bookId, startPage, endPage);
    var started := DistilledPage(bookId, userId, startPage, endPage, [], now, InProgress);
    FirstRequestStarts(rows, sections, jobs, bookId, startPage, endPage, userId, now);
    var m := SaveDistilled(rows, started);
    SaveThenGet(rows, started);
    WorkerCompletes(m, sections, job, later, answer, userId);
  }
}
