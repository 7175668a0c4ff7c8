/**
 * The progress figures of the library pages: the share of a module's outline subtopics that the
 * study progress marks done, and the average of those shares over the modules of a study plan.
 * Percentages are reals.
 */
module ProgressStats {
  import opened Wrappers

  const DONE: string := "DONE"

  /** An entry of a discussion point's `subtopics` object: its title (the key) and its status. */
  datatype SubtopicProgress = SubtopicProgress(title: string, status: string)

  /** A module of the course outline, its chapters' discussion points as lists of subtopic titles. */
  datatype ModuleOutline = ModuleOutline(title: string, discussionPoints: seq<seq<string>>)

  /** A field of the study progress: each module title with its discussion points' entries. */
  datatype FieldProgress = FieldProgress(modules: map<string, seq<seq<SubtopicProgress>>>)

  /** A study progress; `fields` is absent when the record carries no `progress`. */
  datatype StudyProgress = StudyProgress(fields: Option<map<string, FieldProgress>>)

  // ---------------------------------------------------------------------------------------
  // calculateModuleProgress

  /** The titles a list holds. */
  function SetOf(titles: seq<string>): set<string> {
    set t | t in titles
  }

  /** The subtopic titles of the outline, the `validSubtopics` set. */
  function OutlineTitles(points: seq<seq<string>>): set<string> {
    if |points| == 0 then {} else OutlineTitles(points[..|points| - 1]) + SetOf(points[|points| - 1])
  }

  /** The number of subtopic titles the outline lists, repetitions included. */
  function TotalTitles(points: seq<seq<string>>): nat {
    if |points| == 0 then 0 else TotalTitles(points[..|points| - 1]) + |points[|points| - 1]|
  }

  /** The entries of all discussion points of a module's progress, in order. */
  function Entries(points: seq<seq<SubtopicProgress>>): seq<SubtopicProgress> {
    if |points| == 0 then [] else Entries(points[..|points| - 1]) + points[|points| - 1]
  }

  /** The titles of the entries that count as completed: done, and listed in the outline. */
  function Counted(entries: seq<SubtopicProgress>, valid: set<string>): seq<string> {
    if |entries| == 0 then []
    else
      var e := entries[|entries| - 1];
      Counted(entries[..|entries| - 1], valid) + (if e.status == DONE && e.title in valid then [e.title] else [])
  }

  /** The module's discussion points in the progress, if the progress, the field and the module are there. */
  function ModuleEntries(fieldName: string, moduleTitle: string, progress: Option<StudyProgress>): Option<seq<seq<SubtopicProgress>>> {
    if progress.None? || progress.value.fields.None? then None
    else if fieldName !in progress.value.fields.value then None
    else if moduleTitle !in progress.value.fields.value[fieldName].modules then None
    else Some(progress.value.fields.value[fieldName].modules[moduleTitle])
  }

  /** What `calculateModuleProgress` answers: the percentage of outline subtopics completed. */
  function ModuleProgressOf(fieldName: string, outline: ModuleOutline, progress: Option<StudyProgress>): real {
    match ModuleEntries(fieldName, outline.title, progress)
    case None => 0.0
    case Some(points) =>
      var total := TotalTitles(outline.discussionPoints);
      var completed := |Counted(Entries(points), OutlineTitles(outline.discussionPoints))|;
      if total > 0 then (completed as real / total as real) * 100.0 else 0.0
  }

  /** A title is counted only when some entry with it is done and it is in the outline. */
  lemma {:induction false} CountedMeaning(entries: seq<SubtopicProgress>, valid: set<string>)
    ensures forall t :: t in Counted(entries, valid) ==> t in valid && SubtopicProgress(t, DONE) in entries
  {
    if |entries| > 0 {
      var init := entries[..|entries| - 1];
      CountedMeaning(init, valid);
      assert forall e :: e in init ==> e in entries;
    }
  }

  /** The outline lists at least as many titles as it has distinct ones. */
  lemma {:induction false} OutlineTitlesFewer(points: seq<seq<string>>)
    ensures |OutlineTitles(points)| <= TotalTitles(points)
  {
    if |points| > 0 {
      var last := points[|points| - 1];
      OutlineTitlesFewer(points[..|points| - 1]);
      SetOfSeqFewer(last);
    }
  }

  lemma {:induction false} SetOfSeqFewer(s: seq<string>)
    ensures |SetOf(s)| <= |s|
  {
    if |s| > 0 {
      SetOfSeqFewer(s[..|s| - 1]);
      assert s == s[..|s| - 1] + [s[|s| - 1]];
      assert SetOf(s) == SetOf(s[..|s| - 1]) + {s[|s| - 1]};
    }
  }

  /** No title occurs twice. */
  predicate Distinct(titles: seq<string>) {
    forall i, j :: 0 <= i < j < |titles| ==> titles[i] != titles[j]
  }

  /** A list of distinct titles drawn from a set is no longer than the set. */
  lemma {:induction false} DistinctWithin(titles: seq<string>, valid: set<string>)
    requires Distinct(titles) && forall t :: t in titles ==> t in valid
    ensures |titles| <= |valid|
  {
    if |titles| > 0 {
      var last := titles[|titles| - 1];
      var init := titles[..|titles| - 1];
      assert last !in init;
      assert forall t :: t in init ==> t in titles;
      DistinctWithin(init, valid - {last});
    }
  }

  /**
   * The module progress is a percentage: never negative, 0 for a missing progress, field or
   * module, and at most 100 when no subtopic is counted twice.
   */
  lemma ModuleProgressBounds(fieldName: string, outline: ModuleOutline, progress: Option<StudyProgress>)
    ensures ModuleEntries(fieldName, outline.title, progress).None? ==> ModuleProgressOf(fieldName, outline, progress) == 0.0
    ensures 0.0 <= ModuleProgressOf(fieldName, outline, progress)
    ensures ModuleEntries(fieldName, outline.title, progress).Some?
      && Distinct(Counted(Entries(ModuleEntries(fieldName, outline.title, progress).value), OutlineTitles(outline.discussionPoints)))
      ==> ModuleProgressOf(fieldName, outline, progress) <= 100.0
  {
    var entries := ModuleEntries(fieldName, outline.title, progress);
    if entries.Some? {
      var valid := OutlineTitles(outline.discussionPoints);
      var counted := Counted(Entries(entries.value), valid);
      var total := TotalTitles(outline.discussionPoints);
      if total > 0 {
        if Distinct(counted) {
          CountedMeaning(Entries(entries.value), valid);
          DistinctWithin(counted, valid);
          OutlineTitlesFewer(outline.discussionPoints);
        }
        Percentage(|counted|, total);
      }
    }
  }

  /** `part / whole * 100` is never negative, and at most 100 when the part is at most the whole. */
  lemma Percentage(part: nat, whole: nat)
    requires whole > 0
    ensures 0.0 <= (part as real / whole as real) * 100.0
    ensures part <= whole ==> (part as real / whole as real) * 100.0 <= 100.0
  {
    var ratio := part as real / whole as real;
    assert ratio * whole as real == part as real;
  }

  lemma ValidStep(points: seq<seq<string>>, i: nat, j: nat)
    requires i < |points| && j < |points[i]|
    ensures OutlineTitles(points[..i]) + SetOf(points[i][..j + 1])
      == OutlineTitles(points[..i]) + SetOf(points[i][..j]) + {points[i][j]}
  {
    assert points[i][..j + 1] == points[i][..j] + [points[i][j]];
  }

  lemma OutlineStep(points: seq<seq<string>>, i: nat)
    requires i < |points|
    ensures OutlineTitles(points[..i + 1]) == OutlineTitles(points[..i]) + SetOf(points[i][..|points[i]|])
    ensures TotalTitles(points[..i + 1]) == TotalTitles(points[..i]) + |points[i]|
  {
    assert points[..i + 1][..i] == points[..i];
    assert points[i][..|points[i]|] == points[i];
  }

  lemma CountStep(points: seq<seq<SubtopicProgress>>, valid: set<string>, i: nat, j: nat)
    requires i < |points| && j < |points[i]|
    ensures var e := points[i][j];
      |Counted(Entries(points[..i]) + points[i][..j + 1], valid)|
        == |Counted(Entries(points[..i]) + points[i][..j], valid)| + (if e.status == DONE && e.title in valid then 1 else 0)
  {
    var seen := Entries(points[..i]) + points[i][..j];
    assert Entries(points[..i]) + points[i][..j + 1] == seen + [points[i][j]];
    assert (seen + [points[i][j]])[..|seen|] == seen;
  }

  lemma EntriesStep(points: seq<seq<SubtopicProgress>>, i: nat)
    requires i < |points|
    ensures Entries(points[..i + 1]) == Entries(points[..i]) + points[i][..|points[i]|]
  {
    assert points[..i + 1][..i] == points[..i];
    assert points[i][..|points[i]|] == points[i];
  }

  /** `calculateModuleProgress`: the outline's titles are collected, then the done ones counted. */
  method CalculateModuleProgress(fieldName: string, outline: ModuleOutline, progress: Option<StudyProgress>) returns (r: real)
    ensures r == ModuleProgressOf(fieldName, outline, progress)
  {
    if progress.None? || progress.value.fields.None? {
      return 0.0;
    }
    var fields := progress.value.fields.value;
    if fieldName !in fields {
      return 0.0;
    }
    var field := fields[fieldName];
    if outline.title !in field.modules {
      return 0.0;
    }
    var moduleProgress := field.modules[outline.title];

    var totalSubtopics: nat := 0;
    var completedSubtopics: nat := 0;
    var validSubtopics: set<string> := {};
    var points := outline.discussionPoints;
    for i := 0 to |points|
      invariant validSubtopics == OutlineTitles(points[..i])
      invariant totalSubtopics == TotalTitles(points[..i])
    {
      var titles := points[i];
      ghost var before := validSubtopics;
      for j := 0 to |titles|
        invariant validSubtopics == before + SetOf(titles[..j])
      {
        ValidStep(points, i, j);
        validSubtopics := validSubtopics + {titles[j]};
      }
      OutlineStep(points, i);
      totalSubtopics := totalSubtopics + |titles|;
    }
    assert points[..|points|] == points;

    for i := 0 to |moduleProgress|
      invariant completedSubtopics == |Counted(Entries(moduleProgress[..i]), validSubtopics)|
    {
      var entries := moduleProgress[i];
      assert Entries(moduleProgress[..i]) + entries[..0] == Entries(moduleProgress[..i]);
      for j := 0 to |entries|
        invariant completedSubtopics == |Counted(Entries(moduleProgress[..i]) + entries[..j], validSubtopics)|
      {
        CountStep(moduleProgress, validSubtopics, i, j);
        if entries[j].status == DONE && entries[j].title in validSubtopics {
          completedSubtopics := completedSubtopics + 1;
        }
      }
      EntriesStep(moduleProgress, i);
    }
    assert moduleProgress[..|moduleProgress|] == moduleProgress;

    r := if totalSubtopics > 0 then (completedSubtopics as real / totalSubtopics as real) * 100.0 else 0.0;
  }

  // ---------------------------------------------------------------------------------------
  // calculateAverageProgress

  /** A module's recorded progress; `moduleProgress[title] || 0` reads a missing module as 0. */
  function ProgressOf(moduleProgress: map<string, real>, info: Option<string>): real {
    if info.Some? && info.value in moduleProgress then moduleProgress[info.value] else 0.0
  }

  /** The `reduce`: the sum of the modules' progress, a missing module info counting 0. */
  function SumProgress(infos: seq<Option<string>>, moduleProgress: map<string, real>): real {
    if |infos| == 0 then 0.0
    else SumProgress(infos[..|infos| - 1], moduleProgress) + ProgressOf(moduleProgress, infos[|infos| - 1])
  }

  /** `calculateAverageProgress`: the mean progress of the modules, 0 for none. */
  function AverageProgress(infos: seq<Option<string>>, moduleProgress: map<string, real>): real {
    if |infos| == 0 then 0.0 else SumProgress(infos, moduleProgress) / |infos| as real
  }

  /** Every recorded progress is a percentage. */
  predicate Percentages(moduleProgress: map<string, real>) {
    forall t :: t in moduleProgress ==> 0.0 <= moduleProgress[t] <= 100.0
  }

  /** Module `info` is complete: known and recorded at 100. */
  predicate Complete(moduleProgress: map<string, real>, info: Option<string>) {
    info.Some? && info.value in moduleProgress && moduleProgress[info.value] == 100.0
  }

  /** With percentages recorded, the sum lies between 0 and 100 per module, and reaches the top exactly when all are complete. */
  lemma {:induction false} SumProgressBounds(infos: seq<Option<string>>, moduleProgress: map<string, real>)
    requires Percentages(moduleProgress)
    ensures 0.0 <= SumProgress(infos, moduleProgress) <= 100.0 * |infos| as real
    ensures SumProgress(infos, moduleProgress) == 100.0 * |infos| as real
      <==> forall i :: 0 <= i < |infos| ==> Complete(moduleProgress, infos[i])
  {
    if |infos| > 0 {
      var init := infos[..|infos| - 1];
      SumProgressBounds(init, moduleProgress);
      assert forall i :: 0 <= i < |init| ==> infos[i] == init[i];
    }
  }

  /**
   * With percentages recorded, the average is a percentage, and it is exactly 100 when the
   * plan has modules and every one of them is complete, which is what marks a plan completed.
   */
  lemma AverageProgressBounds(infos: seq<Option<string>>, moduleProgress: map<string, real>)
    requires Percentages(moduleProgress)
    ensures 0.0 <= AverageProgress(infos, moduleProgress) <= 100.0
    ensures AverageProgress(infos, moduleProgress) == 100.0
      <==> |infos| > 0 && forall i :: 0 <= i < |infos| ==> Complete(moduleProgress, infos[i])
  {
    SumProgressBounds(infos, moduleProgress);
    if |infos| > 0 {
      Mean(SumProgress(infos, moduleProgress), |infos| as real);
    }
  }

  /** The mean of `n` percentages summing to `sum` is a percentage, and 100 exactly when the sum is `100 * n`. */
  lemma Mean(sum: real, n: real)
    requires n > 0.0 && 0.0 <= sum <= 100.0 * n
    ensures 0.0 <= sum / n <= 100.0
    ensures sum / n == 100.0 <==> sum == 100.0 * n
  {
    var avg := sum / n;
    assert avg * n == sum;
    if avg != 100.0 {
      assert (avg - 100.0) * n != 0.0;
    }
  }
}
