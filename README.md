# SuperReader, modelled in Dafny

SuperReader is a reading app. It shows a book at three depths: the original pages, a condensed
version distilled by a language model, and a quick version. Its logic is split between two parts.

- The TypeScript front end has:
  - a local key/value cache with expirations, plus a get-or-fetch controller over it;
  - the API client, which polls for distilled content;
  - the reader's synchronisation engine, covering visibility, position, progress saving and lazy fetching;
  - a text segmenter;
  - the gamification rules: experience, levels, ranks, challenges and progress;
  - the route guard;
  - two loaders of book data.
- The Python back end has:
  - the book upload routes;
  - the post-upload worker, which batches a PDF's pages into content sections;
  - the content-section lookup route;
  - the distilled-content route, with its worker and the distiller's text processing;
  - a prompt builder.

This project models each of those pieces as one Dafny module, with a few shared helper modules:

- `Wrappers`: Option and Result.
- `Text`: whitespace, strip, prefix search and integer printing, as the two languages define them.
- `Json`: a JSON value with a concrete encoder and decoder; the decoder is proved to invert the encoder.
- `OrderedMap`: a JavaScript `Map` in insertion order.
- `Records`: the back end's records.
- `Repositories`: the storage layer, as maps and lists.
- `BookTypes`: the front end's book, chapter and page types.

How the modules follow the source's own style:

- Code that updates state in place is modelled as classes with `modifies` clauses. This covers:
  - the cache stack;
  - the reader engine;
  - the prompt builder;
  - the repositories and the handlers over them.
- Loops become methods proved equal to a specification function. This covers:
  - the level loop;
  - the counting loops;
  - the poll;
  - the batching of pages;
  - the segmenter's sweep;
  - the paragraph merger.
- Code that only computes is modelled as functions, with lemmas stating what the source promises of them.

Clocks, network answers, language-model output, PDF text and the date-to-week mapping are
modelled as parameters.

## Model

| member | source | states |
|---|---|---|
| CacheModel.AbsoluteExpiration | src/app/cache/CacheModel.ts:50-52 | a missing or zero relative expiration stores none; any other stores `now + expiration` |
| CacheModel.Lookup | src/app/cache/CacheModel.ts:35-47 | a value comes back exactly when its key has a row whose expiration is unset or strictly after `now`, and it is that row's value |
| CacheModel.Store | src/app/cache/CacheModel.ts:50-56 | insert-or-replace: the key holds the new value and expiration, and every other key is unchanged |
| CacheModel.CacheModel.GetExpiration | src/app/cache/CacheModel.ts:21-33 | the stored absolute expiration is returned even when past; nothing comes back for a missing key or a row that never expires |
| CacheModel.CacheModel.Get | src/app/cache/CacheModel.ts:35-47 | answers `Lookup` of the table at `now` |
| CacheModel.CacheModel.Set | src/app/cache/CacheModel.ts:50-56 | the table becomes `Store` of the old table |
| CacheModel.CacheModel.Remove | src/app/cache/CacheModel.ts:58-60 | deletes only the key |
| CacheModel.CacheModel.Clear | src/app/cache/CacheModel.ts:62-64 | leaves the table empty |
| CacheModel.ReadAfterWrite | src/app/cache/CacheModel.ts:35-56 | a written row reads back as its value exactly until its absolute expiration, or forever without one |
| CacheModel.WriteKeepsOtherKeys | src/app/cache/CacheModel.ts:50-56 | a write leaves what every other key reads unchanged |
| CacheModel.RemoveOnlyKey | src/app/cache/CacheModel.ts:58-60 | after `remove(k)`, `k` reads as absent and every other key as before |
| CacheModel.ExpiredStaysExpired | src/app/cache/CacheModel.ts:35-39 | a row unreadable at one time stays unreadable at every later time |
| CacheModel.ShortTtlExample | src/app/cache/CacheModel.ts:35-56 | a 100 ms row written at 1000 is a hit at 1050 and a miss at 1100 and at 1150 |
| CacheService.DecodeStored | src/app/cache/CacheService.ts:15-18 | a missing or empty stored text gives null; any other stored text gives its parse, or an error when it does not parse |
| CacheService.CacheService.GetExpiration | src/app/cache/CacheService.ts:10-12 | delegates to the table |
| CacheService.CacheService.Get | src/app/cache/CacheService.ts:15-18 | the parse of what the table answers at `now` |
| CacheService.CacheService.Set | src/app/cache/CacheService.ts:20-22 | stores the value's JSON text; the relative expiration passes through unchanged |
| CacheService.CacheService.Remove | src/app/cache/CacheService.ts:24-26 | delegates removal of the key |
| CacheService.CacheService.Clear | src/app/cache/CacheService.ts:28-30 | delegates clearing |
| CacheService.GetAfterSet | src/app/cache/CacheService.ts:15-22 | round trip: reading a key while its row is live gives back the value that was set |
| CacheService.GetAfterExpiry | src/app/cache/CacheService.ts:15-22 | once a row has expired, reading its key gives null |
| CacheService.WrittenTablesParse | src/app/cache/CacheService.ts:15-22 | if every row was written by the service, every read parses, so only a text written elsewhere makes `get` throw |
| CacheController.CacheController.GetData | src/app/cache/CacheController.ts:14-41 | a truthy cached value is returned with no fetch and no write. A falsy or missing one with no fetch function gives null and writes nothing. Otherwise the fetch runs once: its failure writes nothing, and its value is stored with the expiration, flushed on the web, and returned |
| CacheController.CacheController.InvalidateCache | src/app/cache/CacheController.ts:43-45 | removes only the key |
| CacheController.CacheController.RefreshCache | src/app/cache/CacheController.ts:47-51 | always fetches and overwrites the entry, live or not; a failed fetch writes nothing |
| CacheController.CacheController.Set | src/app/cache/CacheController.ts:53-60 | stores the value and flushes once on the web |
| CacheController.CacheController.WriteToBackend | src/app/cache/CacheController.ts:62-68 | hands the data to the write function, returns its outcome and leaves the cache untouched |
| CacheController.CacheController.ClearCache | src/app/cache/CacheController.ts:70-78 | empties the table and flushes once on the web |
| CacheController.FetchedValueIsHitLater | src/app/cache/CacheController.ts:14-40 | a truthy fetched value is a hit on the next read while it is live |
| CacheController.FalsyValueIsMiss | src/app/cache/CacheController.ts:15-16 | a stored falsy value (null, false, 0, "") reads back but counts as a miss, whatever the time to live |
| AppConfigService.AppConfigService.SetConfig | src/app/cache/AppConfigService.ts:17-20 | stores the value under the key itself, with no prefix and no expiration |
| AppConfigService.AppConfigService.GetConfig | src/app/cache/AppConfigService.ts:22-24 | the stored value, or null when absent |
| AppConfigService.AppConfigService.RemoveConfig | src/app/cache/AppConfigService.ts:26-28 | removes only the key |
| AppConfigService.ConfigNeverExpires | src/app/cache/AppConfigService.ts:17-24 | a setting reads back as its value at every later time |
| AppConfigService.RemovedConfigReadsNull | src/app/cache/AppConfigService.ts:22-28 | after `removeConfig(k)`, `getConfig(k)` gives null |
| Apis.DistilledKeyInjective | src/app/cache/APIs.ts:130 | different (book, start page, end page) triples get different cache keys, even when a book id holds `_` |
| Apis.ContentSectionKeyInjective | src/app/cache/APIs.ts:170-176 | different (book, page) pairs get different content-section keys |
| Apis.ConfigExpiration | src/app/cache/APIs.ts:201-203 | `expiration \|\| 60000`: a missing or zero expiration becomes one minute, any other is kept, and the result is never zero |
| Apis.AppConfigAlwaysExpires | src/app/cache/APIs.ts:201-210 | a setting written through the API always gets an absolute expiration |
| Apis.BookEntryLivesOneMillisecond | src/app/cache/APIs.ts:113-120 | a book entry is readable when written and gone one millisecond later |
| Apis.DistilledEntryLivesOneDay | src/app/cache/APIs.ts:129-131 | distilled content stays readable for exactly 24 hours |
| Apis.PollFrom | src/app/cache/APIs.ts:148-163 | at most 60 requests; the poll gives up exactly when all 60 replies were successful but not 200 |
| Apis.PollStopsAtFirstNonRetry | src/app/cache/APIs.ts:149-156 | the poll ends at the first reply that is a 200 or not 2xx, after exactly that many requests |
| Apis.PollFromShape | src/app/cache/APIs.ts:148-163 | a poll makes at least one request; every reply before the last was a retry, and the last one ends the poll or, when it gives up, was a retry too |
| Apis.Poll | src/app/cache/APIs.ts:135-164 | 1 to 60 requests. Every reply before the last was a 2xx other than 200. The result is the last reply's body when it is a 200, a thrown request error when it is not 2xx, and giving up after 60. One 1000 ms wait follows each retried reply and none follows success |
| Apis.PollOutcome | src/app/cache/APIs.ts:133-166 | only a delivered body reaches the cache; a failure or timeout is an error, so nothing is cached |
| Apis.Apis.GetBook | src/app/cache/APIs.ts:113-120 | get-or-fetch under `book_{id}` with a 1 ms lifetime |
| Apis.Apis.GetDistilledContent | src/app/cache/APIs.ts:129-167 | get-or-fetch under `distilled_content_{book}_{start}_{end}` with a 24 h lifetime, fetching by polling; no request is made on a hit |
| Apis.Apis.GetContentSection | src/app/cache/APIs.ts:170-177 | get-or-fetch under `content_section_{book}_{page}` for 24 h |
| Apis.Apis.GetAllContentSections | src/app/cache/APIs.ts:180-187 | get-or-fetch under `all_content_sections_{book}` for 24 h |
| Apis.Apis.GetBooks | src/app/cache/APIs.ts:226-233 | get-or-fetch under `all_books` for 5 minutes |
| Apis.Apis.GetLastNCheckIns | src/app/cache/APIs.ts:244-251 | get-or-fetch under `last_{n}_check_ins` for 5 minutes |
| Apis.Apis.SetAppConfig | src/app/cache/APIs.ts:201-211 | stores under `app_config_{key}` with the expiration, or one minute when it is missing or zero |
| Apis.Apis.GetAppConfig | src/app/cache/APIs.ts:213-219 | a read-only probe of `app_config_{key}`: nothing is fetched or written |
| Apis.Apis.RemoveAppConfig | src/app/cache/APIs.ts:221-223 | removes only `app_config_{key}` |
| Apis.Apis.ClearCache | src/app/cache/APIs.ts:190-192 | empties the cache |
| Reader.MinOf | src/components/Reader.tsx:280 | `Math.min(...pages)`: a listed page no larger than any other |
| Reader.MaxOf | src/components/Reader.tsx:281 | `Math.max(...pages)`: a listed page no smaller than any other |
| Reader.ChapterProgress | src/components/Reader.tsx:270-276 | the progress lies in [0, 1]: 0 while the chapter's top is at or below the viewport top, 1 once the part that does not fit has scrolled past, and in between the scrolled fraction of that part |
| Reader.QuotientBounds | src/components/Reader.tsx:274 | the sign and size facts of the division the clamp relies on |
| Reader.PageFromProgress | src/components/Reader.tsx:278-294 | the page lies between the chapter's first and last page; progress 0 gives the first and progress 1 the last |
| Reader.ProgressOffset | src/components/Reader.tsx:282-290 | the unclamped page is at most the first page at progress 0 and past the last page at progress 1 |
| Reader.ProgressOffsetMonotone | src/components/Reader.tsx:282-290 | the unclamped page grows with progress |
| Reader.PageFromProgressMonotone | src/components/Reader.tsx:278-294 | a larger progress never gives an earlier page |
| Reader.ChapterForPage | src/components/Reader.tsx:497-505 | the first chapter in book order whose page span holds the page, or none when no chapter's does |
| Reader.FindChapter | src/components/Reader.tsx:1063 | the first chapter with the id, or none when no chapter has it |
| Reader.Insert | src/components/Reader.tsx:838 | insertion into a sorted list adds exactly the one element |
| Reader.InsertSorted | src/components/Reader.tsx:838 | insertion keeps a list sorted |
| Reader.SortAscending | src/components/Reader.tsx:838 | `sort((a, b) => a - b)`: sorted ascending, and a permutation of its input |
| Reader.Without | src/components/Reader.tsx:845 | `filter(p => p !== x)`: exactly the other elements remain |
| Reader.AddVisible | src/components/Reader.tsx:835-839 | a page already listed leaves the list as it is; otherwise the page is added, nothing else changes, and the list comes out sorted |
| Reader.RemoveVisible | src/components/Reader.tsx:845 | a hidden page is removed and every other page kept |
| Reader.InsertIncreasing | src/components/Reader.tsx:838 | inserting a new element keeps a list strictly increasing |
| Reader.InsertLargest | src/components/Reader.tsx:838 | inserting an element no smaller than any listed appends it |
| Reader.SortSorted | src/components/Reader.tsx:838 | sorting a sorted list leaves it as it is |
| Reader.AddVisibleIncreasing | src/components/Reader.tsx:835-839 | the visible lists stay strictly increasing as pages come into view |
| Reader.WithoutIncreasing | src/components/Reader.tsx:845 | removal keeps a list strictly increasing |
| Reader.WithoutNoDup | src/components/Reader.tsx:845 | removal keeps a list free of repetitions |
| Reader.UpdateVisibleChapters | src/components/Reader.tsx:977-1000 | the id ends up listed exactly when the chapter intersects and is taller than the viewport or reaches 40 %. A chapter that does not intersect is removed, other ids are untouched, re-adding a listed id changes nothing, and the list stays free of repetitions |
| Reader.ShortChapterAlwaysShown | src/components/Reader.tsx:986-996 | a chapter that overlaps the viewport and is at most 5/7 of its height always passes the 40 % rule, because the hidden part is subtracted from the viewport height |
| Reader.QuotientAtLeast | src/components/Reader.tsx:986-993 | the division step the 40 % argument needs |
| Reader.LastVisible | src/components/Reader.tsx:1157-1164 | the chapter latest in book order whose id is visible, or none |
| Reader.VisibleChapters | src/components/Reader.tsx:1027-1029 | the visible chapters in book order; non-empty exactly when one is visible, and the last of them is the latest visible chapter |
| Reader.CurrentPage | src/components/Reader.tsx:1153-1183 | 1 with no visible chapter. Otherwise a page of the latest visible chapter: its first page when its element is missing, its last when it fits the viewport, and when it is taller the page `PageFromProgress` gives for its scroll progress |
| Reader.ChapterProgressMonotone | src/components/Reader.tsx:270-276 | scrolling further down a tall chapter never lowers its scroll progress |
| Reader.ScrollingNeverGoesBack | src/components/Reader.tsx:1153-1183 | while the latest visible chapter is taller than the viewport, scrolling further down it never moves the reading position back |
| Reader.TallChapterEnds | src/components/Reader.tsx:1172-1175 | a tall chapter reads as its first page before it is scrolled and as its last page once scrolled to its end |
| Reader.LastVisibleChapterEndPage | src/components/Reader.tsx:1023-1044 | 1 with no visible chapter, the first page of a single visible chapter, and the last page of the latest of several |
| Reader.DisplayPage | src/components/Reader.tsx:1193-1229 | in the original view, the furthest visible segment, or the last known page when none is visible; in the condensed view, the reading position |
| Reader.ToSchedule | src/components/Reader.tsx:1054-1063 | exactly the visible chapters that are neither loading nor loaded, without repetitions |
| Reader.ReaderEngine.constructor | src/components/Reader.tsx:297-358 | the initial state: page 1 visible, nothing pending or loaded, last saved progress 1 |
| Reader.ReaderEngine.RescheduleFetches | src/components/Reader.tsx:1046-1091 | every armed timer is cancelled; in the condensed view one is armed per visible chapter needing content; nothing else changes |
| Reader.ReaderEngine.PageVisibilityChanged | src/components/Reader.tsx:829-846 | updates the visible pages and the furthest page read |
| Reader.ReaderEngine.SegmentVisibilityChanged | src/components/Reader.tsx:1093-1115 | in the original view, updates the visible segments, and a segment coming into view becomes the last known page |
| Reader.ReaderEngine.ChapterVisibilityChanged | src/components/Reader.tsx:965-1000 | in the condensed view, applies the 40 % update; the lazy-loading effect reruns unless the list came back unchanged |
| Reader.ReaderEngine.SwitchView | src/components/Reader.tsx:1046-1091 | a real change of view reruns the lazy-loading effect |
| Reader.ReaderEngine.TimerFired | src/components/Reader.tsx:1064-1077 | a cancelled timer does nothing. For a known chapter, the request for its page span is issued and it is marked loading. An unknown id only drops its pending entry |
| Reader.ReaderEngine.FetchCompleted | src/components/Reader.tsx:903-922 | stores the content, or the error on failure, and ends loading; a failed chapter that is still visible is armed again, and a loaded one is not |
| Reader.ReaderEngine.SaveProgress | src/components/Reader.tsx:362-377 | nothing is written for the last saved page or for page 1; the saved page changes only when the write succeeds |
| Reader.ReaderEngine.Tick | src/components/Reader.tsx:1149-1191 | in the condensed view, saves the reading position; in the original view, writes nothing |
| ContentProcessor.BoundariesOf | src/lib/contentProcessor.ts:20-40 | a mapping contributes no boundary exactly when its start or end phrase does not occur; its boundaries lie within the content |
| ContentProcessor.Boundaries | src/lib/contentProcessor.ts:20-40 | every boundary lies within the content and names a mapping |
| ContentProcessor.BoundariesFound | src/lib/contentProcessor.ts:21-27 | a boundary comes only from a mapping whose two phrases both occur |
| ContentProcessor.CollectBoundaries | src/lib/contentProcessor.ts:14-40 | the collection loop gives `Boundaries` |
| ContentProcessor.InsertBoundary | src/lib/contentProcessor.ts:43-49 | stable insertion adds exactly the one boundary |
| ContentProcessor.SortedSnoc | src/lib/contentProcessor.ts:43-49 | appending a boundary that may follow every other keeps the order |
| ContentProcessor.InsertBoundarySorted | src/lib/contentProcessor.ts:43-49 | insertion keeps the boundaries ordered |
| ContentProcessor.SortBoundaries | src/lib/contentProcessor.ts:43-49 | ordered by position with end boundaries first at equal positions, and a permutation of the input |
| ContentProcessor.Drop | src/lib/contentProcessor.ts:67 | `Set.delete`: exactly the other members remain |
| ContentProcessor.LastPosMonotone | src/lib/contentProcessor.ts:56-70 | the last processed position never goes back |
| ContentProcessor.Pieces | src/lib/contentProcessor.ts:55-71 | every run emitted before a boundary is non-empty |
| ContentProcessor.SweepBoundaries | src/lib/contentProcessor.ts:51-79 | the sweep loop and the trailing run give `Sweep` |
| ContentProcessor.PiecesCover | src/lib/contentProcessor.ts:55-71 | the runs so far spell out the content up to the last processed position |
| ContentProcessor.SweepCovers | src/lib/contentProcessor.ts:51-79 | the runs spell out the whole content, and none is empty |
| ContentProcessor.ActiveAfterMembers | src/lib/contentProcessor.ts:53-68 | a mapping is active exactly when its latest boundary so far is a start, and none is active twice |
| ContentProcessor.ActiveInOpeningOrder | src/lib/contentProcessor.ts:53-71 | the active list holds exactly the mappings started and not ended since, ordered by the boundary that started them |
| ContentProcessor.LabelIsEarliestOpened | src/lib/contentProcessor.ts:56-79 | a run's label is the open mapping whose start came first in the sorted boundaries, and none exactly when no mapping is open |
| ContentProcessor.AtOrBeforeSplit | src/lib/contentProcessor.ts:56-70 | when the boundaries at or before a position are the first `j` of the list, they number `j` |
| ContentProcessor.PiecesLabels | src/lib/contentProcessor.ts:55-71 | run `k` emitted before a boundary starts at offset `Texts(runs[..k])`, before the last processed position, and is labelled from the active mappings after exactly the boundaries at or before that offset |
| ContentProcessor.SweepLabels | src/lib/contentProcessor.ts:55-79 | run `k` of the sweep, starting at offset `Texts(runs[..k])`, is labelled from the active mappings after exactly the sorted boundaries at or before that offset; the trailing run comes after all of them |
| ContentProcessor.MergeRunsLabels | src/lib/contentProcessor.ts:81-98 | merging introduces no label that no run had |
| ContentProcessor.MergeRunsStarts | src/lib/contentProcessor.ts:81-98 | each merged run starts at the offset where one of the runs it absorbed started, and carries that run's label |
| ContentProcessor.MergedSweepLabels | src/lib/contentProcessor.ts:55-98 | merged run `k` of a sweep is labelled from the active mappings after exactly the boundaries at or before its start offset |
| ContentProcessor.DropKeepsDistinct | src/lib/contentProcessor.ts:67 | deletion keeps the active mappings distinct |
| ContentProcessor.MergeRuns | src/lib/contentProcessor.ts:82-98 | merging never adds runs, and the last run keeps the last label |
| ContentProcessor.MergeRunsTexts | src/lib/contentProcessor.ts:82-98 | merging keeps the concatenated text |
| ContentProcessor.MergeRunsDistinct | src/lib/contentProcessor.ts:82-98 | after merging, no two neighbouring runs share a label |
| ContentProcessor.MergeRunsNonEmpty | src/lib/contentProcessor.ts:82-98 | merging non-empty runs gives non-empty runs |
| ContentProcessor.MergeAdjacent | src/lib/contentProcessor.ts:82-100 | the merge loop gives `MergeRuns` |
| ContentProcessor.ProcessContent | src/lib/contentProcessor.ts:8-101 | the whole procedure gives `ProcessSpec` |
| ContentProcessor.ProcessSpecProperties | src/lib/contentProcessor.ts:8-101 | without mappings, one unlabelled run of the whole content. The runs spell out the content exactly. With mappings, no run is empty. No two neighbouring runs share a label |
| ContentProcessor.ProcessSpecLabels | src/lib/contentProcessor.ts:8-101 | with mappings, run `k` of the result, starting at offset `Texts(runs[..k])`, is labelled from the active mappings after exactly the sorted boundaries at or before that offset, which is the earliest-started mapping open there (`LabelIsEarliestOpened`) |
| Distiller.Dedupe | backend/llm_agent/book_content_section_distill/content_section_distiller.py:28 | `list(dict.fromkeys(...))`: the same elements, each once |
| Distiller.DedupeFirstOccurrenceOrder | backend/llm_agent/book_content_section_distill/content_section_distiller.py:28 | the elements are listed in the order of their first occurrence, as `dict.fromkeys` keeps them |
| Distiller.DedupeDistinct | backend/llm_agent/book_content_section_distill/content_section_distiller.py:28 | a list without repetitions is kept as it is |
| Distiller.MergeParagraphs | backend/llm_agent/book_content_section_distill/content_section_distiller.py:17-32 | never more paragraphs than given, and none exactly when none were given |
| Distiller.MergeParagraphsLoop | backend/llm_agent/book_content_section_distill/content_section_distiller.py:17-32 | the loop that overwrites the last kept paragraph gives `MergeParagraphs` |
| Distiller.MergeKeepsText | backend/llm_agent/book_content_section_distill/content_section_distiller.py:17-32 | joining all contents with single spaces gives the same string before and after merging |
| Distiller.AbsorbKeepsText | backend/llm_agent/book_content_section_distill/content_section_distiller.py:25-28 | absorbing extends the joined text by a space and the absorbed content |
| Distiller.MergeKeepsTransitions | backend/llm_agent/book_content_section_distill/content_section_distiller.py:22-30 | transition paragraphs are never merged or lost, and the last paragraph keeps its kind |
| Distiller.MergeStartsWithFirst | backend/llm_agent/book_content_section_distill/content_section_distiller.py:20-21 | the first merged paragraph starts with the first paragraph's text |
| Distiller.MergedCoreNeighboursAreLong | backend/llm_agent/book_content_section_distill/content_section_distiller.py:22-28 | after merging, a core paragraph followed by a core paragraph is at least 400 characters long |
| Distiller.MarkerAt | backend/llm_agent/book_content_section_distill/content_section_distiller.py:119 | a marker `(Core: pages)` or `(Transition)` starts at a '(' and holds no other '(' |
| Distiller.FirstMarker | backend/llm_agent/book_content_section_distill/content_section_distiller.py:119-123 | the leftmost marker at or after a position, or none |
| Distiller.Matches | backend/llm_agent/book_content_section_distill/content_section_distiller.py:119-123 | `re.finditer` of the lazy pattern: consecutive matches, each ending at the leftmost marker after its start, and no marker after the last |
| Distiller.SplitOn | backend/llm_agent/book_content_section_distill/content_section_distiller.py:135 | `split(',')`: at least one piece, none holding the separator |
| Distiller.SplitJoin | backend/llm_agent/book_content_section_distill/content_section_distiller.py:135 | splitting the join of separator-free pieces gives the pieces back |
| Distiller.ParsePageNumber | backend/llm_agent/book_content_section_distill/content_section_distiller.py:135 | `int(p.strip())` succeeds exactly on a piece that strips to one or more digits |
| Distiller.ParsePagesRoundTrip | backend/llm_agent/book_content_section_distill/content_section_distiller.py:135 | the page list `x,y,z` the prompt asks for reads back as the pages `[x, y, z]` |
| Distiller.SectionText | backend/llm_agent/book_content_section_distill/content_section_distiller.py:124-129 | a section's text ends in exactly one '.', with no space, dot or newline before it |
| Distiller.ConsumeAllBounded | backend/llm_agent/book_content_section_distill/content_section_distiller.py:122-145 | `current_pos` stays within the text |
| Distiller.ParseSectionsFails | backend/llm_agent/book_content_section_distill/content_section_distiller.py:135 | a malformed page list inside the loop makes the whole parse fail |
| Distiller.FinishWithTransition | backend/llm_agent/book_content_section_distill/content_section_distiller.py:147-162 | non-empty text after `current_pos` becomes a trailing section typed by the last marker |
| Distiller.AsWrittenTailRepeatsMarker | backend/llm_agent/book_content_section_distill/content_section_distiller.py:123-162 | as written, "A (Core: 1) (Transition) w" ends in a transition section whose text still holds the skipped "(Transition)" marker |
| Distiller.CorrectedTailExample | backend/llm_agent/book_content_section_distill/content_section_distiller.py:147-162 | with `current_pos` advanced past skipped matches, the same answer ends in the transition "w" |
| Distiller.ParseContentSectionsAsWritten | backend/llm_agent/book_content_section_distill/content_section_distiller.py:114-164 | `parse_content_sections` as written, where a skipped match leaves `current_pos` in place. `Distiller.ParseSectionsFails` and `Distiller.CoreWordBeforeTransitionFails` state its failures, and `Distiller.AsWrittenTailRepeatsMarker` shows its trailing section repeating a skipped marker |
| Distiller.ParseContentSections | backend/llm_agent/book_content_section_distill/content_section_distiller.py:114-164 | the parsing loop gives the result of the parser with `current_pos` advanced past skipped matches (the Findings row). Like the code, it fails on a malformed page list and when a `(Transition)` match's text contains "Core:" |
| Distiller.CoreWordBeforeTransitionFails | backend/llm_agent/book_content_section_distill/content_section_distiller.py:131-135 | "Core: x (Transition)" fails to parse: the core test sees "Core:" in the whole match and splits the absent page group |
| Distiller.TailFollowsLastMarker | backend/llm_agent/book_content_section_distill/content_section_distiller.py:122-145 | after the corrected loop, `current_pos` is the end of the last match |
| Distiller.CorrectedTailHasNoMarker | backend/llm_agent/book_content_section_distill/content_section_distiller.py:147-162 | in the corrected parser, the trailing section's text holds no marker |
| Distiller.SummarizeContent | backend/llm_agent/book_content_section_distill/content_section_distiller.py:166-182 | the first and last page numbers of the pages sent, with the merged paragraphs of the answer as parsed by the corrected parser of the Findings row, not the one as written. It succeeds exactly when pages were sent and the answer parses. A parse failure, including the "Core:" case, is the summary's error, and with no pages sent the summary fails after parsing |
| CostarBuilder.OptionalBlock | backend/llm_agent/costar_builder.py:60-82 | an optional block appears exactly when its field is set and non-empty |
| CostarBuilder.Prompt | backend/llm_agent/costar_builder.py:34-90 | fails exactly when context, objective or response is unset or empty, naming the first of them in that order |
| CostarBuilder.CostarPromptBuilder.constructor | backend/llm_agent/costar_builder.py:2-8 | every field starts unset |
| CostarBuilder.CostarPromptBuilder.AddContext | backend/llm_agent/costar_builder.py:10-12 | overwrites the context, keeps the other fields and returns the same builder |
| CostarBuilder.CostarPromptBuilder.AddObjective | backend/llm_agent/costar_builder.py:14-16 | overwrites the objective only and returns the same builder |
| CostarBuilder.CostarPromptBuilder.AddStyle | backend/llm_agent/costar_builder.py:18-20 | overwrites the style only and returns the same builder |
| CostarBuilder.CostarPromptBuilder.AddTone | backend/llm_agent/costar_builder.py:22-24 | overwrites the tone only and returns the same builder |
| CostarBuilder.CostarPromptBuilder.AddAudience | backend/llm_agent/costar_builder.py:26-28 | overwrites the audience only and returns the same builder |
| CostarBuilder.CostarPromptBuilder.AddResponse | backend/llm_agent/costar_builder.py:30-32 | overwrites the response only and returns the same builder |
| CostarBuilder.CostarPromptBuilder.Build | backend/llm_agent/costar_builder.py:34-90 | gives `Prompt` of the fields and changes none of them, so two builds in a row agree |
| CostarBuilder.AppendOptional | backend/llm_agent/costar_builder.py:60-82 | the three conditional appends add exactly the middle blocks |
| CostarBuilder.BlockHoldsText | backend/llm_agent/costar_builder.py:46-88 | a block holds its text verbatim after its heading line |
| CostarBuilder.PromptFrame | backend/llm_agent/costar_builder.py:44-90 | a built prompt starts with the CONTEXT block holding the context, then the OBJECTIVE block, and ends with the RESPONSE block holding the response |
| CostarBuilder.OptionalBlocksInOrder | backend/llm_agent/costar_builder.py:60-82 | the optional sections appear exactly when given, in the order STYLE, TONE, AUDIENCE |
| CostarBuilder.EmptyTextIsUnset | backend/llm_agent/costar_builder.py:35-82 | a field set to "" builds the same prompt as an unset one |
| Repositories.FirstWhere | backend/repositories/book_content_section_repository/firebase.py:47 | the first row a query accepts, or none when no row is accepted |
| Repositories.FirstRow | backend/repositories/book_content_section_repository/firebase.py:47 | a row is found exactly when some row is accepted, and it is one of them |
| Repositories.GetBook | backend/repositories/book_repository/firebase.py:18-25 | the book with that id, found only when it belongs to the user |
| Repositories.BookRepository.constructor | backend/repositories/book_repository/firebase.py:9-13 | starts empty |
| Repositories.BookRepository.Save | backend/repositories/book_repository/firebase.py:15-16 | overwrites the document of the book's id |
| Repositories.BookRepository.Get | backend/repositories/book_repository/firebase.py:18-25 | answers `GetBook` |
| Repositories.BookRepository.GetByBookId | backend/repositories/book_repository/firebase.py:27-32 | the book with that id, whoever owns it |
| Repositories.SectionByRange | backend/repositories/book_content_section_repository/firebase.py:50-65 | a section with exactly that book, range and (when given) user, found exactly when one exists |
| Repositories.SectionByPage | backend/repositories/book_content_section_repository/firebase.py:32-47 | a section of that book (and user, when given) whose range holds the page, found exactly when one exists |
| Repositories.ContentSectionRepository.constructor | backend/repositories/book_content_section_repository/firebase.py:7-11 | starts empty |
| Repositories.ContentSectionRepository.SaveMultiple | backend/repositories/book_content_section_repository/firebase.py:18-23 | adds one document per section, in order |
| Repositories.ContentSectionRepository.GetByRange | backend/repositories/book_content_section_repository/firebase.py:50-65 | answers `SectionByRange` |
| Repositories.ContentSectionRepository.GetByPage | backend/repositories/book_content_section_repository/firebase.py:32-47 | answers `SectionByPage` |
| Repositories.GetDistilled | backend/repositories/book_distilled_page_repository/firebase.py:29-49 | the distilled page of that book and range (and user, when given), found exactly when one exists |
| Repositories.SaveDistilled | backend/repositories/book_distilled_page_repository/firebase.py:12-27 | overwrites a page in place or appends the new one |
| Repositories.SaveThenGet | backend/repositories/book_distilled_page_repository/firebase.py:12-49 | after `save`, the range holds one page, and both the plain and the user-filtered query return the saved page |
| Repositories.SoleMatch | backend/repositories/book_distilled_page_repository/firebase.py:29-49 | the only page of a range is what both queries return |
| Repositories.SaveKeepsOtherRanges | backend/repositories/book_distilled_page_repository/firebase.py:12-27 | `save` leaves every other range's answer unchanged |
| Repositories.FirstWhereAppend | backend/repositories/book_distilled_page_repository/firebase.py:27 | appending a row the query rejects does not change its answer |
| Repositories.FirstWhereUpdate | backend/repositories/book_distilled_page_repository/firebase.py:23 | overwriting a rejected row with a rejected row does not change the answer |
| Repositories.DistilledPageRepository.constructor | backend/repositories/book_distilled_page_repository/firebase.py:6-10 | starts empty |
| Repositories.DistilledPageRepository.Save | backend/repositories/book_distilled_page_repository/firebase.py:12-27 | the rows become `SaveDistilled` of the old rows |
| Repositories.DistilledPageRepository.Get | backend/repositories/book_distilled_page_repository/firebase.py:29-49 | answers `GetDistilled` |
| Repositories.Broker.constructor | backend/message_broker/pubsub_message_broker.py:7-17 | nothing published yet |
| Repositories.Broker.Publish | backend/message_broker/pubsub_message_broker.py:19-23 | appends the job to those published |
| BookRoutes.PostBook | backend/api/routes/book.py:31-52 | the book is saved with the fresh id, the caller's user id, no title, not uploaded and no sections generated. The reply carries the id and the upload URL. Any exception becomes a 500, and a book saved before it stays saved |
| BookRoutes.GetBookRoute | backend/api/routes/book.py:61-71 | a download URL exactly for a book of the caller that is uploaded; otherwise 404 "Book not found" |
| BookRoutes.SetBookUploaded | backend/api/routes/book.py:82-94 | 404 for a book missing for the caller, then 404 for a missing file, then 400 for a book already uploaded. On success the book is marked uploaded and saved, and exactly one job for it is published. A refusal changes nothing |
| BookRoutes.PostUploadGet | backend/api/routes/book.py:32-94 | a posted book cannot be fetched. Once its file is stored, marking it uploaded publishes one job, after which it can be fetched and a second mark is refused without a job |
| BookRoutes.SetUploadedAll | backend/api/routes/book.py:82-94 | a run of requests keeps every book stored under its own id |
| BookRoutes.AtMostOneJobPerBook | backend/api/routes/book.py:89-94 | whatever the requests, each book gets at most one post-processing job, and only a book that was pending gets one |
| BookRoutes.BookApi.constructor | backend/api/routes/book.py:21-26 | holds the book repository and the post-upload topic |
| BookRoutes.BookApi.PostBookHandler | backend/api/routes/book.py:21-52 | the repository and the reply follow `PostBook` |
| BookRoutes.BookApi.GetBookHandler | backend/api/routes/book.py:55-71 | answers `GetBookRoute` |
| BookRoutes.BookApi.SetBookUploadedHandler | backend/api/routes/book.py:74-94 | the repository, the topic and the reply follow `SetBookUploaded` |
| ContentSectionRoute.GetContentSectionRange | backend/api/routes/content_section.py:19-39 | 404 "Book not found" for a book missing for the caller, then 404 when its sections are not generated, then 404 when no section holds the page. Otherwise the start and end page of a section of the caller's book that holds the page |
| ContentSectionRoute.GeneratedPagesAnswered | backend/api/routes/content_section.py:19-39 | after the post-upload job generated a book's sections, every page of every generated section is answered for its owner |
| PostUpload.BatchesFromCover | backend/post_upload_processing/processing_service.py:67-94 | the batches handed to the creator, laid end to end, are the document's pages in order from where the current batch started. The tail that is never sent has fewer than 50 pages and under 80 000 characters, i.e. 20 000 tokens |
| PostUpload.BatchesFromSent | backend/post_upload_processing/processing_service.py:77-94 | every batch handed to the creator has 1 to 50 consecutive pages and hit 50 pages or 20 000 tokens with its last page and not before |
| PostUpload.BatchesShape | backend/post_upload_processing/processing_service.py:63-95 | for the whole document: the sent batches cover its first pages in order, each is a sent batch, and what is left over stays under both thresholds |
| PostUpload.ShortDocumentSendsNothing | backend/post_upload_processing/processing_service.py:80-81 | a document under 50 pages and 20 000 tokens never reaches the creator, so no section is produced |
| PostUpload.PageByNum | backend/post_upload_processing/processing_service.py:83 | the page dictionary answers a page of the batch with that number, and nothing exactly when no page of the batch has it |
| PostUpload.SectionPages | backend/post_upload_processing/processing_service.py:90 | the pages of a range, in order, when every page number of the range is in the batch; a `KeyError` for the first missing one |
| PostUpload.NumberedSpansRange | backend/post_upload_processing/processing_service.py:86-90 | a section built from a non-empty range starts at its start page and ends at its end page, as the distill worker expects |
| PostUpload.SectionsOfBatchSpec | backend/post_upload_processing/processing_service.py:85-91 | one section per range of the creator, in its order, holding the range's bounds and the batch pages numbered from start to end. It fails exactly when some range names a page outside the batch |
| PostUpload.BatchPageFromDocument | backend/post_upload_processing/processing_service.py:72-77 | a page of a sent batch is the stripped text of the document page with its number |
| PostUpload.SectionsOfBatchesFromDocument | backend/post_upload_processing/processing_service.py:72-91 | every page of every section built from sent batches is the stripped text of the document page it is numbered with |
| PostUpload.PdfSectionsFaithful | backend/post_upload_processing/processing_service.py:63-95 | each section `_process_pdf` returns belongs to the book and its user, holds the pages numbered from its start to its end page, and each of them is the stripped text of that document page |
| PostUpload.ProcessPdf | backend/post_upload_processing/processing_service.py:63-95 | the page loop with its two counters and the inner loop over the ranges returns exactly `PdfSections`, whose meaning the lemmas above give |
| PostUpload.PostProcess | backend/post_upload_processing/processing_service.py:44-60 | a missing book raises, and a book whose sections are already generated is skipped. A non-PDF book raises, because its sections are never assigned. Otherwise, when every section is built, exactly those sections are saved and then the book with the flag set; when building fails, that error is the result |
| PostUpload.GeneratedOnce | backend/post_upload_processing/processing_service.py:50-58 | after a job generated a book's sections, the next job for that book saves nothing, whatever the PDF reads: sections are generated at most once |
| PostUpload.ProcessingService.constructor | backend/post_upload_processing/processing_service.py:20-29 | holds the book and content-section repositories |
| PostUpload.ProcessingService.ProcessJob | backend/post_upload_processing/processing_service.py:44-60 | the stores change as `PostProcess` says and not at all on failure; the repositories stay keyed by id |
| DistilledContentRoute.HandleGet | backend/api/routes/distilled_content.py:29-53 | a stored page of the caller is returned when COMPLETED and answered 202 "Processing in progress" otherwise, changing nothing. With no page and no section of the caller for the range, 404 changes nothing. Otherwise an IN_PROGRESS page is saved and exactly one job for the range is published, answered 202 "Processing started" |
| DistilledContentRoute.GetDistilledContent | backend/api/routes/distilled_content.py:21-53 | the reply, the distilled-page store and the published jobs follow `HandleGet` |
| DistilledContentRoute.AtMostOneJob | backend/api/routes/distilled_content.py:29-47 | any number of repeated requests for one range publish at most one job |
| DistilledContentRoute.RepeatIsStable | backend/api/routes/distilled_content.py:49-53 | once the caller has a page for the range, repeated requests change neither the store nor the jobs |
| DistilledContentRoute.FirstRequestStarts | backend/api/routes/distilled_content.py:32-47 | the first request for a range with a section saves an IN_PROGRESS page and publishes its job |
| DistilledContentRoute.WorkerCompletes | backend/content_distill_processing/processing_service.py:41-81 | a successful job over a user's IN_PROGRESS page leaves that user a COMPLETED page of the range |
| DistilledContentRoute.RequestProcessRequest | backend/api/routes/distilled_content.py:29-53 | request, worker, request: the first answer is "Processing started" with one job, and after the worker processes that job the second answer is the COMPLETED page of the caller, with no new job |
| DistillWorker.ProcessJob | backend/content_distill_processing/processing_service.py:41-81 | a COMPLETED page is left alone. Otherwise the first save is the IN_PROGRESS page with no paragraphs: an existing page keeps its book, user, range and creation time, and a new one takes the section's user, the job's range and the current time. A missing section fails with no save, or after that one save when a page existed. A failed distillation fails after that save with the distiller's error. A successful one saves a second, COMPLETED page with the same book, user and creation time and the range and paragraphs `Distiller.SummarizeContent` returns, so of the corrected parser |
| DistillWorker.ProcessJobTwice | backend/content_distill_processing/processing_service.py:48-81 | after a successful job the range has a COMPLETED page and the store keeps one page per range, so running the same job again saves nothing |
| DistillWorker.ContentDistillProcessingService.constructor | backend/content_distill_processing/processing_service.py:20-27 | holds the distilled-page and content-section repositories |
| DistillWorker.ContentDistillProcessingService.ProcessJobOnce | backend/content_distill_processing/processing_service.py:41-81 | the store after the call is the saves of `ProcessJob` applied in order, and the outcome is its outcome |
| DistillWorker.ContentDistillProcessingService.Start | backend/content_distill_processing/processing_service.py:29-38 | over a stretch of the queue the store and outcome are those of `RunJobs`: empty polls skipped, jobs processed in order, the first error ending the loop |
| DistillWorker.RunJobs | backend/content_distill_processing/processing_service.py:29-38 | the store and outcome after a finite stretch of the queue: empty polls skipped, each job's saves applied in order, the first error ending the run. `Start` is proved to compute it and `EmptyPollsSkipped` states the skip |
| DistillWorker.EmptyPollsSkipped | backend/content_distill_processing/processing_service.py:31-34 | an empty poll changes nothing |
| Leveling.IsqrtFromSpec | src/app/cache/DataProcessingService.ts:316 | the integer square root search ends at the largest root whose square does not exceed its argument |
| Leveling.XpRequired | src/app/cache/DataProcessingService.ts:315-317 | every level from 1 on needs at least 100 experience |
| Leveling.XpRequiredIsFloor | src/app/cache/DataProcessingService.ts:315-317 | the requirement of a level is `floor(100 * level^1.5)`: its square is at most `10000 * level^3` and the next integer's square exceeds it |
| Leveling.LevelFromPays | src/app/cache/DataProcessingService.ts:293-297 | the level loop stops at a level whose requirement the remaining experience does not cover, after paying the requirements of every level before it |
| Leveling.LevelDetailsMeaning | src/app/cache/DataProcessingService.ts:283-304 | the level is at least 1; the experience within it is below the requirement reported for it; the levels below are paid for in full, so their requirements plus the experience within the level are the total |
| Leveling.SumRequiredGrows | src/app/cache/DataProcessingService.ts:315-317 | each level costs at least 100 more than reaching the one before it |
| Leveling.LevelIsUnique | src/app/cache/DataProcessingService.ts:283-304 | the level reported is the only level whose threshold the total reaches while staying below the next one |
| Leveling.CalculateLevelDetails | src/app/cache/DataProcessingService.ts:283-304 | the `while` loop returns the details `LevelDetailsMeaning` characterises |
| Leveling.CalculateLevel | src/app/cache/DataProcessingService.ts:306-313 | the second loop returns the same level as `calculateLevelDetails` |
| Leveling.GetRank | src/app/cache/DataProcessingService.ts:319-330 | levels 1 to 20 get their rank in the list, and every level above 20 gets "Principal Engineer III"; a level below 1 has no rank |
| Leveling.DailyXp | src/app/cache/DataProcessingService.ts:230-239 | a day earns experience exactly when it has finished subtopics |
| Leveling.DailyXpIncreasing | src/app/cache/DataProcessingService.ts:231-236 | finishing more subtopics in a day always earns strictly more |
| Leveling.WeeklyXp | src/app/cache/DataProcessingService.ts:254-262 | a week's bonus is 0, 50 or 100, and 0 (no weekly entry) exactly when fewer than 3 days were studied |
| Leveling.FilterKeeps | src/app/cache/DataProcessingService.ts:424-430 | each list holds only challenges of the input, and completed ones are exactly those whose progress reaches the goal |
| Leveling.FilterPartitions | src/app/cache/DataProcessingService.ts:420-433 | the completed and in-progress lists together are the input: a partition, nothing lost or duplicated |
| Leveling.FilterSnoc | src/app/cache/DataProcessingService.ts:424-430 | one more challenge is appended to the list its progress selects, preserving order |
| Leveling.CategorizeChallenges | src/app/cache/DataProcessingService.ts:420-433 | the `forEach` loop returns the completed and in-progress challenges in input order |
| Leveling.GetDailyChallenges | src/app/cache/DataProcessingService.ts:400-408 | the two daily challenges (5 topics for 30, 10 topics for 80) split by the day's progress |
| Leveling.GetWeeklyChallenges | src/app/cache/DataProcessingService.ts:410-418 | the two weekly challenges (3 days for 50, 5 days for 100) split by the week's progress |
| Leveling.MaxReward | src/app/cache/DataProcessingService.ts:400-418 | the largest reward among the challenges is one of theirs and no reward exceeds it |
| Leveling.BonusesMatchChallenges | src/app/cache/DataProcessingService.ts:230-266 | the bonus in a day's experience is the reward of the best daily challenge the day completes, and a week's bonus that of the best weekly challenge: the experience rules and the challenge lists agree |
| OrderedMap.Keys | src/app/cache/DataProcessingService.ts:212 | one key per entry, in order |
| OrderedMap.GetFound | src/app/cache/DataProcessingService.ts:221 | `get` answers nothing exactly when no entry has the key, and otherwise the value of an entry with that key |
| OrderedMap.SetThenGet | src/app/cache/DataProcessingService.ts:221 | after `set(k, v)`, `get(k)` answers `v` |
| OrderedMap.SetKeepsOthers | src/app/cache/DataProcessingService.ts:221 | `set` leaves every other key answering as before |
| OrderedMap.SetKeys | src/app/cache/DataProcessingService.ts:221 | `set` keeps the keys in insertion order and appends the key exactly when it is new |
| OrderedMap.SetKeepsDistinct | src/app/cache/DataProcessingService.ts:221 | `set` never gives a key two entries |
| OrderedMap.GetOfEntry | src/app/cache/DataProcessingService.ts:230 | with distinct keys, each entry's key answers that entry's value |
| Experience.DatePart | src/app/cache/DataProcessingService.ts:220 | `split('T')[0]` is the longest prefix of the timestamp without a `T` |
| Experience.UserExperienceParts | src/app/cache/DataProcessingService.ts:193-281 | the daily and weekly entries are those of the finished subtopics, also for a progress without fields |
| Experience.CountPositive | src/app/cache/DataProcessingService.ts:219-221 | a date is counted exactly when some finished subtopic has it |
| Experience.TallyDistinct | src/app/cache/DataProcessingService.ts:212-227 | `progressByDate` lists each date once |
| Experience.TallyCounts | src/app/cache/DataProcessingService.ts:212-227 | each date's count is the number of finished subtopics completed on it |
| Experience.WeeksGroup | src/app/cache/DataProcessingService.ts:245-251 | `weekMap` lists each week once, with exactly the dates that fall in it |
| Experience.WeeklyEntriesFrom | src/app/cache/DataProcessingService.ts:254-266 | each weekly entry comes from a week of the map, counts its days, has at least 3 and states its bonus |
| Experience.WeeklyEntriesCover | src/app/cache/DataProcessingService.ts:254-266 | every week whose days earn a bonus has its entry |
| Experience.DailyDatesAreDoneDates | src/app/cache/DataProcessingService.ts:230-242 | the daily entries' dates are exactly the dates on which subtopics were finished |
| Experience.EmptyExperienceValues | src/app/cache/DataProcessingService.ts:195-205 | a progress without fields is level 1, "Intern I", with 100 experience to the next level |
| Experience.NoCompletionsIsEmpty | src/app/cache/DataProcessingService.ts:193-281 | fields without finished subtopics give the same answer as no fields |
| Experience.UserExperienceLevel | src/app/cache/DataProcessingService.ts:229-281 | the total is the daily experience plus the weekly bonuses, and level, experience within it and rank split that total as `calculateLevelDetails` and `getRank` do |
| Experience.DailyExperienceMeaning | src/app/cache/DataProcessingService.ts:214-242 | one daily entry per date on which subtopics were finished and none for other dates; each holds how many and the experience of that many |
| Experience.WeeksOfDoneDates | src/app/cache/DataProcessingService.ts:245-251 | the weeks built from the daily entries group the dates on which subtopics were finished |
| Experience.EntryOfWeek | src/app/cache/DataProcessingService.ts:254-266 | a weekly entry counts the days of its week and states their bonus |
| Experience.WeeklyEntryMeaning | src/app/cache/DataProcessingService.ts:245-266 | each weekly entry counts the distinct dates of its week on which subtopics were finished (at least 3) and states their bonus |
| Experience.WeeklyEntryPresent | src/app/cache/DataProcessingService.ts:254-266 | a week with at least 3 such dates has its weekly entry |
| Experience.CountByDate | src/app/cache/DataProcessingService.ts:212-227 | the nested loops build `progressByDate` as `Tally`, whose meaning `TallyCounts` gives |
| Experience.DailyExperienceOf | src/app/cache/DataProcessingService.ts:230-242 | the second pass pushes one entry per date and adds up their experience |
| Experience.GroupByWeek | src/app/cache/DataProcessingService.ts:245-251 | the third pass builds `weekMap` as `Weeks` |
| Experience.WeeklyExperienceOf | src/app/cache/DataProcessingService.ts:254-266 | the last pass pushes an entry for each week with a bonus and adds up the bonuses |
| Experience.UserExperienceOf | src/app/cache/DataProcessingService.ts:193-281 | the user experience answered for the fields: empty without fields, otherwise the daily and weekly entries with their total split into level and rank, as `UserExperienceLevel`, `DailyExperienceMeaning` and `WeeklyEntryMeaning` state |
| Experience.CalculateUserExperience | src/app/cache/DataProcessingService.ts:193-281 | `calculateUserExperience` returns `UserExperienceOf`, whose meaning the lemmas above state |
| ProgressStats.CountedMeaning | src/app/cache/DataProcessingService.ts:46-54 | a counted subtopic is done and listed in the outline |
| ProgressStats.OutlineTitlesFewer | src/app/cache/DataProcessingService.ts:36-44 | the outline has at most as many distinct titles as it lists |
| ProgressStats.DistinctWithin | src/app/cache/DataProcessingService.ts:46-56 | distinct counted titles are no more than the outline's distinct titles |
| ProgressStats.ModuleProgressBounds | src/app/cache/DataProcessingService.ts:18-57 | the module progress is 0 for a missing progress, field or module, is never negative, and is at most 100 when no subtopic is counted twice |
| ProgressStats.Percentage | src/app/cache/DataProcessingService.ts:56 | `part / whole * 100` is never negative, and at most 100 when the part is at most the whole |
| ProgressStats.CalculateModuleProgress | src/app/cache/DataProcessingService.ts:18-57 | the two nested loops return `ModuleProgressOf` |
| ProgressStats.SumProgressBounds | src/app/cache/DataProcessingService.ts:89-94 | with percentages recorded, the sum is between 0 and 100 per module, and is the top exactly when every module is complete |
| ProgressStats.AverageProgress | src/app/cache/DataProcessingService.ts:83-96 | `calculateAverageProgress`: the sum of the module percentages over the number of modules, 0 without modules; `AverageProgressBounds` states its range and when it is 100 |
| ProgressStats.AverageProgressBounds | src/app/cache/DataProcessingService.ts:83-96 | the average is a percentage, and exactly 100 when there are modules and every one is known and recorded at 100 |
| Middleware.Decide | src/middleware.ts:8-41 | a redirect home exactly for a signed-in visitor on a sign-in or sign-up page; a redirect to the welcome page exactly for a visitor without a non-empty `auth` cookie on a non-public page; assets and API routes always pass |
| Middleware.NoRedirectLoop | src/middleware.ts:8-41 | following a redirect with the same cookie is let through: no redirect loop |
| Middleware.ProtectedPages | src/middleware.ts:25-40 | a protected page is reached exactly when the visitor is signed in, and a public page is always reached by a visitor who is not |
| BookTypes.CeilThreeHalves | src/data/bookLoader.ts:90 | `Math.ceil(n * 1.5)`: the least whole number at least one and a half times `n` |
| DataBookLoader.CreatePagesMeaning | src/data/bookLoader.ts:15-30 | one single-line page per text, in order, so the pages' lines are the texts. Pages are numbered on from the start number, and the original range is attached exactly when one is given |
| DataBookLoader.Strings | src/data/bookLoader.ts:64-69 | the content is accepted exactly when it is an array of strings, and then those strings are returned |
| DataBookLoader.ChaptersFromSucceed | src/data/bookLoader.ts:63-99 | the sections map to chapters exactly when every section's three contents are arrays of strings |
| DataBookLoader.ChaptersFromValues | src/data/bookLoader.ts:63-99 | on success there is one chapter per section, in order, each the transform of its section and index |
| DataBookLoader.ChaptersFromError | src/data/bookLoader.ts:63-73 | on failure the error names section k+1, where k is the first section whose content is not an array of strings |
| DataBookLoader.ChapterMeaning | src/data/bookLoader.ts:71-98 | chapter i has id i+1 and title "Chapter i+1: Pages s-e". Original pages are numbered from the start page; condensed pages from 1 with the section's range; quick pages from 1 without one. Read times are 2n, ceil(1.5n) and n and the totals are the three lengths |
| DataBookLoader.LoadBookData | src/data/bookLoader.ts:50-107 | `loadBookData` on the fetch response, with each failure path and the book built; `LoadBookDataMeaning` and `LoadBookDataRejectsSection` state them |
| DataBookLoader.LoadBookDataMeaning | src/data/bookLoader.ts:50-107 | a failed fetch reports its status text; unparsable JSON fails; missing data or missing or empty sections fail with "Invalid or empty book data format". Otherwise it succeeds exactly when every section is valid, with id 1, the fallback cover, those chapters, and the title and author falling back when missing or empty |
| DataBookLoader.LoadBookDataRejectsSection | src/data/bookLoader.ts:63-69 | when section k+1 is the first invalid one, the load fails with "Invalid content format in section k+1" |
| LibBookLoader.ParagraphLine | src/lib/bookLoader.ts:80 | a paragraph's line is its title, a blank line, then its content |
| LibBookLoader.OriginalPagesFrom | src/lib/bookLoader.ts:57-62 | there are no more original pages than raw pages, and each is a raw page with content not blank after trimming, its text as the single line and its page number kept |
| LibBookLoader.OriginalPagesCover | src/lib/bookLoader.ts:57-62 | every raw page whose content is not blank after trimming gives an original page |
| LibBookLoader.OriginalPagesAllKept | src/lib/bookLoader.ts:57-62 | when no page is blank, the original pages map the raw pages one to one, in order |
| LibBookLoader.CondensedPagesMeaning | src/lib/bookLoader.ts:65-88 | distilled page i becomes condensed page i+1 with its range. Without a paragraph array its line is "Error loading content" and its paragraphs are empty; otherwise one line per paragraph and the paragraphs kept |
| LibBookLoader.LoadBookData | src/lib/bookLoader.ts:39-124 | `loadBookData` on the fetch response: the fallback book or the one-chapter book; `LoadBookDataMeaning` states when each is given and what it holds |
| LibBookLoader.LoadBookDataMeaning | src/lib/bookLoader.ts:39-124 | the fallback book exactly when the fetch, the parse, the book entry or either page list is missing. Otherwise one chapter, id 1, with the original and condensed pages, no quick pages, read times 2n, ceil(1.5n) and 0, and the totals the lengths |
| Json.DecodeEncode | src/app/cache/CacheService.ts:15-22 | what `set` stores with `JSON.stringify` is read back by `get`'s `JSON.parse` as the same value |
| Json.EncodeNonEmpty | src/app/cache/CacheService.ts:17 | no encoding is empty, so a stored value never reads back as `null` |
| Text.StripWith | backend/post_upload_processing/processing_service.py:75 | `strip()` removes the longest blank prefix and suffix: what is left is a slice of the input, starting and ending with a non-blank character, and empty exactly when the input is all blank |

## Left out

- JSX and presentation in `src/components/Reader.tsx` are not modelled: layout, sidebars, menus and connection lines. Neither are the note-taking state and the other display-only components.
- Browser machinery becomes explicit events of `Reader.ReaderEngine`: observers, `setTimeout`/`setInterval`, and React state batching. Timer cancellation is a rescheduling of the pending list, not a real clock.
- Reader.ReaderEngine.RescheduleFetches cancels every armed timer. In the source the effect and its cleanup (src/components/Reader.tsx:1051 and 1088-1090) clear the `pendingFetches` list the closure captured, which can lag behind timers added since; such stale timers are not modelled.
- `api.setBookProgress` is an external write. Its outcome is the parameter `writeSucceeds`.
- The sleep between polls is modelled as the total time waited (`waitedMs` of `Apis.Poll`), not as real time.
- The poll's fetch headers, auth tokens and the SQLite/Capacitor setup are left out.
- `saveToStore` is modelled only as a count of flushes.
- `JSON.stringify`/`JSON.parse` are modelled for null, booleans, integers, strings, arrays and objects. Floating-point numbers are left out. The decoder is proved to invert the encoder. On other text, such as whitespace between tokens, it is not claimed to agree with `JSON.parse`.
- Floating point is modelled with reals, for viewport geometry, progress ratios and percentages. `Math.pow(level, 1.5)` is computed exactly as an integer square root, so the model does not capture rounding of the double result.
- Distiller.SummarizeContent: parses the answer with the corrected parser of the Findings row (skipped matches move `current_pos`), so the worker (`DistillWorker.ProcessJob`), `DistilledContentRoute.WorkerCompletes` and `DistilledContentRoute.RequestProcessRequest` describe that parser. The parser as written is `Distiller.ParseContentSectionsAsWritten`; it differs only in the trailing section.
- DistillWorker.ProcessJob: distils through `Distiller.SummarizeContent`, so it inherits the corrected trailing section described on the line above.
- The language model is replaced by its answer, passed in as a parameter: the distiller's answer text and the section creator's page ranges.
- `pymupdf` is replaced by the list of page texts it reads.
- The file service is replaced by its answers (`exists`, upload and download URLs).
- The generated uuid and the clock are parameters.
- The Firestore repositories are modelled as maps and lists whose queries return the first match in collection order. The order Firestore itself returns is not modelled.
- The Pub/Sub broker is an append-only list of jobs. The endless `start` loops are modelled over a finite stretch of polled jobs.
- Which week a date belongs to (`new Date(...)`, `setDate`, `toISOString`) is the parameter `weekOf` of `Experience`, so time zones are not modelled. `getChallenges`, `getDailyProgress` and `getWeeklyProgress` depend on today's date and are not modelled; the challenge lists they feed are.
- Python's `len` counts code points and TypeScript's `length` counts UTF-16 units. Both are modelled as the length of a `seq<char>`.
- The nested `forEach` over fields, modules, chapters, discussion points and subtopics is modelled as one list of lists of subtopics in traversal order. The source has no `StudyProgress` interface, so its shape is taken from how it is used.
- `get_all_content_sections_handler` (backend/api/routes/content_section.py:42-51) is not modelled. It passes `exclude_pages`, which the repository's `get_all` does not accept.
- `post_book_handler`'s uuid and timestamp never fail in the model. A failing `save` or upload URL is modelled as the 500 reply.
- The post-upload job downloads the PDF to a temporary file first. That download is not modelled; the page texts stand for the downloaded file.
- The section creator and distiller are not modelled as failing by themselves, only through the answers they return.
- Authentication, the dependency-injection container, settings and the Cloud Function entry points are not part of this model. The caller's user id is a parameter.
- `src/middleware.ts`'s `config.matcher` is not modelled. `Middleware.Decide` is the decision for every path that reaches the middleware.
- In `src/lib/bookLoader.ts`, a page's `content` is assumed to be a string. A non-string makes `trim` throw, which would give the fallback book as well.
- In `src/data/bookLoader.ts`, `start_page` and `end_page` are assumed to be numbers. The title prints them as integers.
- `DataBookLoader.Message`: a JSON parse failure's message comes from the runtime, so the model keeps no text for it.
- ProgressStats.ModuleProgressBounds: the bound of 100 is proved only when no title is counted twice. A progress that lists the same done subtopic under two discussion points can exceed 100, as the source allows.

## Findings

| source | as written | input that shows it | evidently intended | confidence | as-written member | corrected member |
|---|---|---|---|---|---|---|
| backend/llm_agent/book_content_section_distill/content_section_distiller.py:125-132 | a match whose text before the marker is blank is skipped with `continue` before `current_pos` moves past it, so the trailing section starts before that marker and repeats it | the answer "A (Core: 1) (Transition) w" gives a last transition section "(Transition) w" | the trailing section is only the text after the last marker, "w" | not executed | Distiller.AsWrittenTailRepeatsMarker | Distiller.CorrectedTailExample, Distiller.TailFollowsLastMarker, Distiller.CorrectedTailHasNoMarker |
