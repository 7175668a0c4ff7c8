/**
 * The loader of `/book_data.json` in the sectioned format: every section becomes a chapter
 * whose original pages are numbered from the section's first page and whose condensed and
 * quick pages are numbered from 1; malformed data is an error.
 */
module DataBookLoader {
  import opened Wrappers
  import opened Text
  import opened Json
  import opened BookTypes

  /** A section as parsed; the three contents are checked before use. */
  datatype RawSection = RawSection(startPage: int, endPage: int, originalContent: Json, condensedContent: Json, quickContent: Json)

  /** The parsed file; `sections` is absent when it is not an array, a title or author when missing. */
  datatype RawBookData = RawBookData(title: Option<string>, author: Option<string>, sections: Option<seq<RawSection>>)

  /** The answer of the fetch: an error status, a body that is not JSON, or the parsed body (`None` for `null`). */
  datatype Response = NotOk(statusText: string) | NotJson | Ok(data: Option<RawBookData>)

  datatype LoadError = FetchFailed(statusText: string) | ParseFailed | InvalidFormat | InvalidContent(section: nat)

  /** The message each thrown error carries; a parse failure keeps the parser's own. */
  function Message(e: LoadError): Option<string> {
    match e
    case FetchFailed(statusText) => Some("Failed to fetch book data: " + statusText)
    case ParseFailed => None
    case InvalidFormat => Some("Invalid or empty book data format")
    case InvalidContent(section) => Some("Invalid content format in section " + NatToString(section))
  }

  /** `createPages`: a page per text, in order, numbered from `start`, each carrying `range`. */
  function CreatePages(content: seq<string>, start: int, range: Option<PageRange>): seq<Page> {
    seq(|content|, i requires 0 <= i < |content| => Page([content[i]], start + i, range, None))
  }

  /**
   * The pages give back the texts, one line each; they are numbered consecutively from
   * `start`, and the range is attached to every page exactly when one is given.
   */
  lemma {:induction false} CreatePagesMeaning(content: seq<string>, start: int, range: Option<PageRange>)
    ensures var pages := CreatePages(content, start, range);
      && Lines(pages) == content
      && (forall i :: 0 <= i < |pages| ==> pages[i].pageNumber == start + i && |pages[i].content| == 1)
      && (forall i :: 0 <= i < |pages| ==> pages[i].originalPageRange == range)
  {
    if |content| > 0 {
      var n := |content|;
      CreatePagesMeaning(content[..n - 1], start, range);
      assert CreatePages(content, start, range)[..n - 1] == CreatePages(content[..n - 1], start, range);
      assert content == content[..n - 1] + [content[n - 1]];
    }
  }

  /** `validateContent`: an array of strings, or nothing. */
  function Strings(content: Json): (r: Option<seq<string>>)
    ensures r.Some? <==> content.JArr? && forall i :: 0 <= i < |content.items| ==> content.items[i].JStr?
    ensures r.Some? ==> |r.value| == |content.items| && forall i :: 0 <= i < |r.value| ==> content.items[i] == JStr(r.value[i])
  {
    if content.JArr? && forall i :: 0 <= i < |content.items| ==> content.items[i].JStr? then
      Some(seq(|content.items|, i requires 0 <= i < |content.items| => content.items[i].s))
    else None
  }

  /** The chapter built from the section at 0-based position `index`. */
  function ChapterOf(section: RawSection, index: nat): Result<Chapter, LoadError> {
    var original := Strings(section.originalContent);
    var condensed := Strings(section.condensedContent);
    var quick := Strings(section.quickContent);
    if original.None? || condensed.None? || quick.None? then Failure(InvalidContent(index + 1))
    else
      var o, c, q := original.value, condensed.value, quick.value;
      Success(Chapter(
        index + 1,
        "Chapter " + NatToString(index + 1) + ": Pages " + IntToString(section.startPage) + "-" + IntToString(section.endPage),
        CreatePages(o, section.startPage, None),
        CreatePages(c, 1, Some(PageRange(section.startPage, section.endPage))),
        CreatePages(q, 1, None),
        PerDepth(2 * |o|, CeilThreeHalves(|c|), |q|),
        PerDepth(|o|, |c|, |q|)))
  }

  /** The chapters of the sections from position `from` on, or the error of the first bad one. */
  function ChaptersFrom(sections: seq<RawSection>, from: nat): Result<seq<Chapter>, LoadError>
    decreases |sections| - from
  {
    if from >= |sections| then Success([])
    else
      match ChapterOf(sections[from], from)
      case Failure(e) => Failure(e)
      case Success(chapter) =>
        match ChaptersFrom(sections, from + 1)
        case Failure(e) => Failure(e)
        case Success(rest) => Success([chapter] + rest)
  }

  /** `loadBookData`: the book, or the error it throws. */
  function LoadBookData(response: Response): Result<Book, LoadError> {
    match response
    case NotOk(statusText) => Failure(FetchFailed(statusText))
    case NotJson => Failure(ParseFailed)
    case Ok(data) =>
      if data.None? || data.value.sections.None? || |data.value.sections.value| == 0 then Failure(InvalidFormat)
      else
        var raw := data.value;
        match ChaptersFrom(raw.sections.value, 0)
        case Failure(e) => Failure(e)
        case Success(chapters) =>
          var title := if raw.title.None? || raw.title.value == "" then FALLBACK_TITLE else raw.title.value;
          var author := if raw.author.None? || raw.author.value == "" then FALLBACK_AUTHOR else raw.author.value;
          Success(Book(NumberId(1), title, author, COVER_URL, chapters))
  }

  /** The section contents are valid: every section's three contents are arrays of strings. */
  predicate ValidSection(section: RawSection) {
    Strings(section.originalContent).Some? && Strings(section.condensedContent).Some? && Strings(section.quickContent).Some?
  }

  /** The chapters exist exactly when every section from `from` on is valid. */
  lemma {:induction false} ChaptersFromSucceed(sections: seq<RawSection>, from: nat)
    requires from <= |sections|
    ensures ChaptersFrom(sections, from).Success? <==> forall k :: from <= k < |sections| ==> ValidSection(sections[k])
    decreases |sections| - from
  {
    if from < |sections| {
      ChaptersFromSucceed(sections, from + 1);
    }
  }

  /** Chapter `i` is the one built from section `from + i`, and there is one per section. */
  lemma {:induction false} ChaptersFromValues(sections: seq<RawSection>, from: nat)
    requires from <= |sections| && ChaptersFrom(sections, from).Success?
    ensures |ChaptersFrom(sections, from).value| == |sections| - from
    ensures forall i :: 0 <= i < |sections| - from ==>
      ChapterOf(sections[from + i], from + i) == Success(ChaptersFrom(sections, from).value[i])
    decreases |sections| - from
  {
    if from < |sections| {
      ChaptersFromValues(sections, from + 1);
      var r := ChaptersFrom(sections, from).value;
      var rest := ChaptersFrom(sections, from + 1).value;
      assert r == [r[0]] + rest;
      forall i | 0 <= i < |sections| - from ensures ChapterOf(sections[from + i], from + i) == Success(r[i]) {
        if i > 0 {
          assert r[i] == rest[i - 1];
        }
      }
    }
  }

  /** A failure names the first invalid section, counted from 1. */
  lemma {:induction false} ChaptersFromError(sections: seq<RawSection>, from: nat)
    requires from <= |sections| && ChaptersFrom(sections, from).Failure?
    ensures exists k ::
      && from <= k < |sections| && !ValidSection(sections[k])
      && ChaptersFrom(sections, from).error == InvalidContent(k + 1)
      && (forall j :: from <= j < k ==> ValidSection(sections[j]))
    decreases |sections| - from
  {
    if ChapterOf(sections[from], from).Failure? {
      assert !ValidSection(sections[from]);
    } else {
      ChaptersFromError(sections, from + 1);
      var k :| from + 1 <= k < |sections| && !ValidSection(sections[k])
        && ChaptersFrom(sections, from + 1).error == InvalidContent(k + 1)
        && (forall j :: from + 1 <= j < k ==> ValidSection(sections[j]));
      assert ValidSection(sections[from]);
    }
  }

  /**
   * A chapter holds its section's texts at each depth: the original pages numbered from the
   * section's first page, the condensed ones from 1 carrying the section's range, the quick
   * ones from 1; its totals are the numbers of texts and its read times 2, 1.5 (rounded up)
   * and 1 minutes per page.
   */
  lemma ChapterMeaning(section: RawSection, index: nat)
    requires ValidSection(section)
    ensures var c := ChapterOf(section, index);
      var o, cd, q := Strings(section.originalContent).value, Strings(section.condensedContent).value, Strings(section.quickContent).value;
      && c.Success? && c.value.id == index + 1
      && Lines(c.value.original) == o && Lines(c.value.condensed) == cd && Lines(c.value.quick) == q
      && (forall i :: 0 <= i < |c.value.original| ==> c.value.original[i].pageNumber == section.startPage + i)
      && (forall i :: 0 <= i < |c.value.condensed| ==>
            c.value.condensed[i].pageNumber == 1 + i
            && c.value.condensed[i].originalPageRange == Some(PageRange(section.startPage, section.endPage)))
      && (forall i :: 0 <= i < |c.value.quick| ==> c.value.quick[i].pageNumber == 1 + i)
      && c.value.totalPages == PerDepth(|o|, |cd|, |q|)
      && c.value.estimatedReadTime.original == 2 * |o| && c.value.estimatedReadTime.quick == |q|
      && 2 * c.value.estimatedReadTime.condensed >= 3 * |cd| && 2 * c.value.estimatedReadTime.condensed < 3 * |cd| + 2
  {
    var o, cd, q := Strings(section.originalContent).value, Strings(section.condensedContent).value, Strings(section.quickContent).value;
    CreatePagesMeaning(o, section.startPage, None);
    CreatePagesMeaning(cd, 1, Some(PageRange(section.startPage, section.endPage)));
    CreatePagesMeaning(q, 1, None);
  }

  /**
   * Loading fails for a failed fetch, a body that is not JSON, a missing, non-array or empty
   * list of sections, and an invalid section; otherwise it gives one chapter per section,
   * under the file's title and author, or the fallback's where those are missing or empty.
   */
  lemma LoadBookDataMeaning(response: Response)
    ensures var r := LoadBookData(response);
      && (response.NotOk? ==> r == Failure(FetchFailed(response.statusText)))
      && (response.NotJson? ==> r == Failure(ParseFailed))
      && (response.Ok? && (response.data.None? || response.data.value.sections.None? || |response.data.value.sections.value| == 0) ==>
            r == Failure(InvalidFormat))
      && (r.Success? <==>
            response.Ok? && response.data.Some? && response.data.value.sections.Some?
            && |response.data.value.sections.value| > 0
            && forall k :: 0 <= k < |response.data.value.sections.value| ==> ValidSection(response.data.value.sections.value[k]))
      && (r.Success? ==>
            var raw := response.data.value;
            && |r.value.chapters| == |raw.sections.value|
            && (forall i :: 0 <= i < |r.value.chapters| ==> Success(r.value.chapters[i]) == ChapterOf(raw.sections.value[i], i))
            && r.value.title == (if raw.title.Some? && raw.title.value != "" then raw.title.value else FALLBACK_TITLE)
            && r.value.author == (if raw.author.Some? && raw.author.value != "" then raw.author.value else FALLBACK_AUTHOR))
  {
    if response.Ok? && response.data.Some? && response.data.value.sections.Some? {
      var sections := response.data.value.sections.value;
      ChaptersFromSucceed(sections, 0);
      if ChaptersFrom(sections, 0).Success? {
        ChaptersFromValues(sections, 0);
      }
    }
  }

  /** When the sections are there but one is invalid, the error names the first invalid one, counted from 1. */
  lemma LoadBookDataRejectsSection(response: Response, k: nat)
    requires response.Ok? && response.data.Some? && response.data.value.sections.Some?
    requires k < |response.data.value.sections.value| && !ValidSection(response.data.value.sections.value[k])
    requires forall j :: 0 <= j < k ==> ValidSection(response.data.value.sections.value[j])
    ensures LoadBookData(response) == Failure(InvalidContent(k + 1))
    ensures Message(LoadBookData(response).error) == Some("Invalid content format in section " + NatToString(k + 1))
  {
    var sections := response.data.value.sections.value;
    ChaptersFromSucceed(sections, 0);
    ChaptersFromError(sections, 0);
    var first :| && 0 <= first < |sections| && !ValidSection(sections[first])
      && ChaptersFrom(sections, 0).error == InvalidContent(first + 1)
      && (forall j :: 0 <= j < first ==> ValidSection(sections[j]));
    assert first == k;
  }
}
