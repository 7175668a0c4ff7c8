/**
 * The content-distill worker: for each job taken from the queue it looks up the content
 * section and any distilled page of the job's range, skips a page already COMPLETED, and
 * otherwise saves the page as IN_PROGRESS, runs the distiller on the section's pages and
 * saves the result as COMPLETED. The model's answer and the clock are parameters.
 */
module DistillWorker {
  import opened Wrappers
  import opened Records
  import opened Distiller
  import opened Repositories

  /** A queued request to distil one page range of a book. */
  datatype DistillJob = DistillJob(bookId: string, startPage: int, endPage: int)

  /** Why `_process_job` raises: no content section for the range, or the distiller failed. */
  datatype WorkerError = SectionMissing | DistillFailed(reason: DistillError)

  /** What one job does: the pages it saves, in order, and how it ends. */
  datatype JobRun = JobRun(saves: seq<DistilledPage>, outcome: Result<(), WorkerError>)

  /** The IN_PROGRESS page saved before distilling: a new one from the job and section, or the old one emptied. */
  function StartedPage(existing: Option<DistilledPage>, section: ContentSection, job: DistillJob, now: int): DistilledPage {
    match existing
    case None => DistilledPage(job.bookId, section.userId, job.startPage, job.endPage, [], now, InProgress)
    case Some(p) => DistilledPage(p.bookId, p.userId, p.startPage, p.endPage, [], p.createdDatetime, InProgress)
  }

  /** `_process_job` on the stored pages and sections. */
  function ProcessJob(rows: seq<DistilledPage>, sections: seq<ContentSection>, job: DistillJob, now: int, answer: string): (r: JobRun)
    ensures var existing := GetDistilled(rows, job.bookId, job.startPage, job.endPage, None);
      existing.Some? && existing.value.status == Completed ==> r == JobRun([], Success(()))
    ensures |r.saves| <= 2
    ensures |r.saves| > 0 ==> r.saves[0].status == InProgress && r.saves[0].paragraphs == []
    ensures r.outcome.Success? && |r.saves| > 0 ==> |r.saves| == 2 && r.saves[1].status == Completed
    ensures |r.saves| == 2 ==>
      && r.saves[1].bookId == r.saves[0].bookId && r.saves[1].userId == r.saves[0].userId
      && r.saves[1].createdDatetime == r.saves[0].createdDatetime
    // a page that exists keeps its book, user, range and creation time, emptied and IN_PROGRESS
    ensures var existing := GetDistilled(rows, job.bookId, job.startPage, job.endPage, None);
      existing.Some? && existing.value.status != Completed ==>
        |r.saves| > 0 && r.saves[0] == existing.value.(paragraphs := [], status := InProgress)
    // a new page takes its user from the section, its range from the job and its creation time from the clock
    ensures var existing := GetDistilled(rows, job.bookId, job.startPage, job.endPage, None);
      var section := SectionByRange(sections, job.bookId, job.startPage, job.endPage, None);
      existing.None? && section.Some? ==>
        |r.saves| > 0 && r.saves[0] == DistilledPage(job.bookId, section.value.userId, job.startPage, job.endPage, [], now, InProgress)
    // a missing section fails, after the IN_PROGRESS save only when a page existed
    ensures var existing := GetDistilled(rows, job.bookId, job.startPage, job.endPage, None);
      var section := SectionByRange(sections, job.bookId, job.startPage, job.endPage, None);
      !(existing.Some? && existing.value.status == Completed) && section.None? ==>
        r.outcome == Failure(SectionMissing) && |r.saves| == (if existing.Some? then 1 else 0)
    // a failed distillation fails after the IN_PROGRESS save
    ensures var existing := GetDistilled(rows, job.bookId, job.startPage, job.endPage, None);
      var section := SectionByRange(sections, job.bookId, job.startPage, job.endPage, None);
      !(existing.Some? && existing.value.status == Completed) && section.Some?
      && SummarizeContent(section.value.pages, answer).Failure? ==>
        |r.saves| == 1 && r.outcome == Failure(DistillFailed(SummarizeContent(section.value.pages, answer).error))
    // a successful distillation saves the COMPLETED page with the summary's range and paragraphs
    ensures var existing := GetDistilled(rows, job.bookId, job.startPage, job.endPage, None);
      var section := SectionByRange(sections, job.bookId, job.startPage, job.endPage, None);
      !(existing.Some? && existing.value.status == Completed) && section.Some?
      && SummarizeContent(section.value.pages, answer).Success? ==>
        && r.outcome == Success(()) && |r.saves| == 2
        && r.saves[1] == r.saves[0].(startPage := SummarizeContent(section.value.pages, answer).value.0,
                                     endPage := SummarizeContent(section.value.pages, answer).value.1,
                                     paragraphs := SummarizeContent(section.value.pages, answer).value.2,
                                     status := Completed)
  {
    var section := SectionByRange(sections, job.bookId, job.startPage, job.endPage, None);
    var existing := GetDistilled(rows, job.bookId, job.startPage, job.endPage, None);
    if existing.Some? && existing.value.status == Completed then JobRun([], Success(()))
    else if section.None? then
      // Both branches dereference the missing section: the new page needs its user id, and
      // for an existing page the distiller needs its pages, after the IN_PROGRESS save.
      if existing.None? then JobRun([], Failure(SectionMissing))
      else
        var p := existing.value;
        JobRun([DistilledPage(p.bookId, p.userId, p.startPage, p.endPage, [], p.createdDatetime, InProgress)], Failure(SectionMissing))
    else
      var started := StartedPage(existing, section.value, job, now);
      match SummarizeContent(section.value.pages, answer)
      case Failure(e) => JobRun([started], Failure(DistillFailed(e)))
      case Success(summary) =>
        var done := DistilledPage(started.bookId, started.userId, summary.0, summary.1, summary.2,
                                  started.createdDatetime, Completed);
        JobRun([started, done], Success(()))
  }

  /** The stored pages after a sequence of saves. */
  function ApplySaves(rows: seq<DistilledPage>, saves: seq<DistilledPage>): seq<DistilledPage>
    decreases |saves|
  {
    if |saves| == 0 then rows else ApplySaves(SaveDistilled(rows, saves[0]), saves[1..])
  }

  lemma {:induction false} ApplyTwoSaves(rows: seq<DistilledPage>, a: DistilledPage, b: DistilledPage)
    ensures ApplySaves(rows, [a]) == SaveDistilled(rows, a)
    ensures ApplySaves(rows, [a, b]) == SaveDistilled(SaveDistilled(rows, a), b)
  {
    assert [a][1..] == [];
    assert [a, b][1..] == [b];
    var m := SaveDistilled(rows, a);
    assert ApplySaves(m, [b]) == ApplySaves(SaveDistilled(m, b), [b][1..]);
    assert [b][1..] == [];
  }

  /** A section whose pages run from its start page to its end page, as section creation builds them. */
  predicate PagesSpanRange(s: ContentSection) {
    |s.pages| > 0 && s.pages[0].pageNum == s.startPage && s.pages[|s.pages| - 1].pageNum == s.endPage
  }

  /**
   * A job whose distillation succeeds leaves a COMPLETED page of the job's range behind, so a
   * second run of the same job saves nothing: processing is idempotent.
   */
  lemma {:induction false} ProcessJobTwice(rows: seq<DistilledPage>, sections: seq<ContentSection>, job: DistillJob,
                                           now: int, answer: string, later: int, answer2: string)
    requires RangesUnique(rows)
    requires var s := SectionByRange(sections, job.bookId, job.startPage, job.endPage, None);
      s.Some? ==> PagesSpanRange(s.value)
    requires ProcessJob(rows, sections, job, now, answer).outcome.Success?
    ensures var after := ApplySaves(rows, ProcessJob(rows, sections, job, now, answer).saves);
      && RangesUnique(after)
      && GetDistilled(after, job.bookId, job.startPage, job.endPage, None).Some?
      && GetDistilled(after, job.bookId, job.startPage, job.endPage, None).value.status == Completed
      && ProcessJob(after, sections, job, later, answer2) == JobRun([], Success(()))
  {
    var run := ProcessJob(rows, sections, job, now, answer);
    var existing := GetDistilled(rows, job.bookId, job.startPage, job.endPage, None);
    if existing.Some? && existing.value.status == Completed {
      assert ApplySaves(rows, run.saves) == rows;
    } else {
      var section := SectionByRange(sections, job.bookId, job.startPage, job.endPage, None);
      var started := run.saves[0];
      var done := run.saves[1];
      assert started == StartedPage(existing, section.value, job, now);
      assert SameRange(started, job.bookId, job.startPage, job.endPage);
      assert SameRange(done, job.bookId, job.startPage, job.endPage);
      var mid := SaveDistilled(rows, started);
      SaveThenGet(rows, started);
      SaveThenGet(mid, done);
      var after := SaveDistilled(mid, done);
      assert run.saves == [started, done];
      ApplyTwoSaves(rows, started, done);
    }
  }

  /** The worker service, holding the repositories it reads and writes. */
  class ContentDistillProcessingService {
    const distilled: DistilledPageRepository
    const sections: ContentSectionRepository

    constructor(distilled: DistilledPageRepository, sections: ContentSectionRepository)
      ensures this.distilled == distilled && this.sections == sections
    {
      this.distilled := distilled;
      this.sections := sections;
    }

    /** `_process_job`: saves the IN_PROGRESS page, then the COMPLETED one, stopping at the first error. */
    method ProcessJobOnce(job: DistillJob, now: int, answer: string) returns (outcome: Result<(), WorkerError>)
      modifies distilled
      ensures var run := ProcessJob(old(distilled.rows), sections.rows, job, now, answer);
        distilled.rows == ApplySaves(old(distilled.rows), run.saves) && outcome == run.outcome
    {
      ghost var rows0 := distilled.rows;
      var section := sections.GetByRange(job.bookId, job.startPage, job.endPage, None);
      var existing := distilled.Get(job.bookId, job.startPage, job.endPage, None);
      if existing.Some? && existing.value.status == Completed {
        return Success(());
      }
      var started: DistilledPage;
      if existing.None? {
        if section.None? {
          return Failure(SectionMissing);
        }
        started := DistilledPage(job.bookId, section.value.userId, job.startPage, job.endPage, [], now, InProgress);
      } else {
        var p := existing.value;
        started := DistilledPage(p.bookId, p.userId, p.startPage, p.endPage, [], p.createdDatetime, InProgress);
      }
      distilled.Save(started);
      ApplyTwoSaves(rows0, started, started);
      if section.None? {
        return Failure(SectionMissing);
      }
      var summary := SummarizeContent(section.value.pages, answer);
      if summary.Failure? {
        return Failure(DistillFailed(summary.error));
      }
      var (startPage, endPage, paragraphs) := summary.value;
      var done := DistilledPage(started.bookId, started.userId, startPage, endPage, paragraphs,
                                started.createdDatetime, Completed);
      distilled.Save(done);
      ApplyTwoSaves(rows0, started, done);
      outcome := Success(());
    }

    /**
     * `start`, over a finite stretch of the queue: an empty poll (`None`) is skipped, every
     * job is processed in order with its own answer, and an error ends the loop.
     */
    method Start(incoming: seq<Option<DistillJob>>, now: int, answers: seq<string>) returns (outcome: Result<(), WorkerError>)
      requires |answers| == |incoming|
      modifies distilled
      ensures var run := RunJobs(old(distilled.rows), sections.rows, incoming, now, answers);
        distilled.rows == run.0 && outcome == run.1
    {
      var i := 0;
      while i < |incoming|
        invariant 0 <= i <= |incoming|
        invariant RunJobs(old(distilled.rows), sections.rows, incoming, now, answers)
               == RunJobs(distilled.rows, sections.rows, incoming[i..], now, answers[i..])
      {
        assert incoming[i..][1..] == incoming[i + 1..] && answers[i..][1..] == answers[i + 1..];
        var job := incoming[i];
        if job.None? {
          i := i + 1;
          continue;
        }
        var r := ProcessJobOnce(job.value, now, answers[i]);
        if r.Failure? {
          return r;
        }
        i := i + 1;
      }
      outcome := Success(());
    }
  }

  /** The pages after a stretch of the queue, and whether the loop ended on an error. */
  function RunJobs(rows: seq<DistilledPage>, sections: seq<ContentSection>, incoming: seq<Option<DistillJob>>,
                   now: int, answers: seq<string>): (seq<DistilledPage>, Result<(), WorkerError>)
    requires |answers| == |incoming|
    decreases |incoming|
  {
    if |incoming| == 0 then (rows, Success(()))
    else if incoming[0].None? then RunJobs(rows, sections, incoming[1..], now, answers[1..])
    else
      var run := ProcessJob(rows, sections, incoming[0].value, now, answers[0]);
      var after := ApplySaves(rows, run.saves);
      if run.outcome.Failure? then (after, run.outcome)
      else RunJobs(after, sections, incoming[1..], now, answers[1..])
  }

  /** Empty polls change nothing: the loop over a queue with `None` entries removed does the same. */
  lemma {:induction false} EmptyPollsSkipped(rows: seq<DistilledPage>, sections: seq<ContentSection>,
                                             incoming: seq<Option<DistillJob>>, now: int, answers: seq<string>)
    requires |answers| == |incoming|
    ensures RunJobs(rows, sections, [None] + incoming, now, [""] + answers) == RunJobs(rows, sections, incoming, now, answers)
  {
    assert ([None] + incoming)[1..] == incoming;
    assert ([""] + answers)[1..] == answers;
  }
}
