/**
 * `calculateUserExperience`: the finished subtopics of a study progress, counted per day of
 * completion, earn daily experience; weeks with enough learning days earn a weekly bonus; the
 * sum decides the level, its rank and the experience within it. The week a date belongs to is
 * the parameter `weekOf`.
 */
module Experience {
  import opened Wrappers
  import opened OrderedMap
  import opened Leveling

  const DONE: string := "DONE"

  /** A subtopic of the study progress: its status and its ISO completion time. */
  datatype Subtopic = Subtopic(status: string, completionDatetime: string)

  datatype DailyExperience = DailyExperience(date: string, subtopicsCompleted: nat, experienceGained: nat)
  datatype WeeklyExperience = WeeklyExperience(weekStartDate: string, daysLearned: nat, experienceGained: nat)

  datatype UserExperience = UserExperience(
    totalXp: nat, level: nat, rank: Option<string>, levelExperience: nat, requiredExperience: nat,
    dailyExperience: seq<DailyExperience>, weeklyExperience: seq<WeeklyExperience>)

  /** `split('T')[0]`: the longest prefix without a `'T'`, the date of an ISO date-time. */
  function DatePart(s: string): (r: string)
    ensures r <= s && 'T' !in r
    ensures |r| < |s| ==> s[|r|] == 'T'
  {
    if |s| == 0 || s[0] == 'T' then "" else [s[0]] + DatePart(s[1..])
  }

  /** The subtopics of all fields, modules, chapters and discussion points, in traversal order. */
  function Flatten(fields: seq<seq<Subtopic>>): seq<Subtopic> {
    if |fields| == 0 then [] else Flatten(fields[..|fields| - 1]) + fields[|fields| - 1]
  }

  /** The completion date of every finished subtopic, in order. */
  function DoneDates(subtopics: seq<Subtopic>): seq<string> {
    if |subtopics| == 0 then []
    else
      var last := subtopics[|subtopics| - 1];
      DoneDates(subtopics[..|subtopics| - 1]) + (if last.status == DONE then [DatePart(last.completionDatetime)] else [])
  }

  /** How often `d` occurs in `dates`. */
  function Count(dates: seq<string>, d: string): nat {
    if |dates| == 0 then 0
    else Count(dates[..|dates| - 1], d) + (if dates[|dates| - 1] == d then 1 else 0)
  }

  /** `progressByDate`: each date with its number of finished subtopics, dates in first-seen order. */
  function Tally(dates: seq<string>): seq<(string, nat)> {
    if |dates| == 0 then []
    else
      var counts := Tally(dates[..|dates| - 1]);
      var d := dates[|dates| - 1];
      Set(counts, d, Get(counts, d).GetOr(0) + 1)
  }

  /** A daily entry per date, with the experience of that many subtopics. */
  function DailyEntries(counts: seq<(string, nat)>): seq<DailyExperience> {
    seq(|counts|, i requires 0 <= i < |counts| => DailyExperience(counts[i].0, counts[i].1, DailyXp(counts[i].1)))
  }

  function DailyDates(daily: seq<DailyExperience>): seq<string> {
    seq(|daily|, i requires 0 <= i < |daily| => daily[i].date)
  }

  /** `weekMap`: each week with the set of its dates, weeks in first-seen order. */
  function Weeks(dates: seq<string>, weekOf: string -> string): seq<(string, set<string>)> {
    if |dates| == 0 then []
    else
      var weeks := Weeks(dates[..|dates| - 1], weekOf);
      var d := dates[|dates| - 1];
      Set(weeks, weekOf(d), Get(weeks, weekOf(d)).GetOr({}) + {d})
  }

  /** The dates among `dates` that fall in the week `week`. */
  function DaysOf(dates: seq<string>, weekOf: string -> string, week: string): set<string> {
    set d | d in dates && weekOf(d) == week
  }

  /** A weekly entry for every week whose learning days earn a bonus, in order. */
  function WeeklyEntries(weeks: seq<(string, set<string>)>): seq<WeeklyExperience> {
    if |weeks| == 0 then []
    else
      var (week, days) := weeks[|weeks| - 1];
      WeeklyEntries(weeks[..|weeks| - 1])
      + (if WeeklyXp(|days|) > 0 then [WeeklyExperience(week, |days|, WeeklyXp(|days|))] else [])
  }

  function SumDaily(daily: seq<DailyExperience>): nat {
    if |daily| == 0 then 0 else SumDaily(daily[..|daily| - 1]) + daily[|daily| - 1].experienceGained
  }

  function SumWeekly(weekly: seq<WeeklyExperience>): nat {
    if |weekly| == 0 then 0 else SumWeekly(weekly[..|weekly| - 1]) + weekly[|weekly| - 1].experienceGained
  }

  /** The answer for a study progress without fields: level 1, nothing earned. */
  function EmptyExperience(): UserExperience {
    UserExperience(0, 1, GetRank(1), 0, LevelDetailsOf(0).requiredExperience, [], [])
  }

  /** The daily entries of the finished subtopics of `fields`. */
  function DailyOf(fields: seq<seq<Subtopic>>): seq<DailyExperience> {
    DailyEntries(Tally(DoneDates(Flatten(fields))))
  }

  /** The weekly entries of the finished subtopics of `fields`. */
  function WeeklyOf(fields: seq<seq<Subtopic>>, weekOf: string -> string): seq<WeeklyExperience> {
    WeeklyEntries(Weeks(DailyDates(DailyOf(fields)), weekOf))
  }

  /** What `calculateUserExperience` answers for a progress whose fields hold `fields`. */
  function UserExperienceOf(fields: seq<seq<Subtopic>>, weekOf: string -> string): UserExperience {
    if |fields| == 0 then EmptyExperience()
    else
      var daily := DailyOf(fields);
      var weekly := WeeklyOf(fields, weekOf);
      var totalXp := SumDaily(daily) + SumWeekly(weekly);
      var details := LevelDetailsOf(totalXp);
      UserExperience(totalXp, details.level, GetRank(details.level), details.levelExperience,
                     details.requiredExperience, daily, weekly)
  }

  /**
   * The answer's entries are those of the finished subtopics for every progress: without
   * fields there are none, as there are for fields without finished subtopics.
   */
  lemma UserExperienceParts(fields: seq<seq<Subtopic>>, weekOf: string -> string)
    ensures UserExperienceOf(fields, weekOf).dailyExperience == DailyOf(fields)
    ensures UserExperienceOf(fields, weekOf).weeklyExperience == WeeklyOf(fields, weekOf)
  {
    if |fields| == 0 {
      assert DailyEntries([]) == [];
      assert DailyDates([]) == [];
    }
  }

  // ---------------------------------------------------------------------------------------
  // What the counts and groups mean

  /** A date is counted exactly when it occurs. */
  lemma {:induction false} CountPositive(dates: seq<string>, d: string)
    ensures Count(dates, d) > 0 <==> d in dates
  {
    if |dates| > 0 {
      CountPositive(dates[..|dates| - 1], d);
      assert dates == dates[..|dates| - 1] + [dates[|dates| - 1]];
    }
  }

  /** Every date is listed once. */
  lemma {:induction false} TallyDistinct(dates: seq<string>)
    ensures DistinctKeys(Tally(dates))
  {
    if |dates| > 0 {
      var init, last := dates[..|dates| - 1], dates[|dates| - 1];
      TallyDistinct(init);
      var counts := Tally(init);
      SetKeepsDistinct(counts, last, Get(counts, last).GetOr(0) + 1);
    }
  }

  /** Every date's entry holds how many finished subtopics carry that date. */
  lemma {:induction false} TallyCounts(dates: seq<string>, d: string)
    ensures Get(Tally(dates), d) == if Count(dates, d) == 0 then None else Some(Count(dates, d))
  {
    if |dates| > 0 {
      var init, last := dates[..|dates| - 1], dates[|dates| - 1];
      var counts := Tally(init);
      var n := Get(counts, last).GetOr(0) + 1;
      assert Tally(dates) == Set(counts, last, n);
      if last == d {
        TallyCounts(init, d);
        SetThenGet(counts, last, n);
      } else {
        TallyCounts(init, d);
        SetKeepsOthers(counts, last, n, d);
      }
    }
  }

  /** Each week is listed once, with exactly the dates that fall in it. */
  lemma {:induction false} WeeksGroup(dates: seq<string>, weekOf: string -> string, week: string)
    ensures Get(Weeks(dates, weekOf), week) == if DaysOf(dates, weekOf, week) == {} then None else Some(DaysOf(dates, weekOf, week))
    ensures DistinctKeys(Weeks(dates, weekOf))
  {
    if |dates| > 0 {
      var init, last := dates[..|dates| - 1], dates[|dates| - 1];
      WeeksGroup(init, weekOf, week);
      WeeksGroup(init, weekOf, weekOf(last));
      var weeks := Weeks(init, weekOf);
      var v := Get(weeks, weekOf(last)).GetOr({}) + {last};
      SetKeepsDistinct(weeks, weekOf(last), v);
      assert dates == init + [last];
      if weekOf(last) == week {
        SetThenGet(weeks, weekOf(last), v);
        assert DaysOf(dates, weekOf, week) == DaysOf(init, weekOf, week) + {last};
      } else {
        SetKeepsOthers(weeks, weekOf(last), v, week);
        assert DaysOf(dates, weekOf, week) == DaysOf(init, weekOf, week);
      }
    }
  }

  /** Every weekly entry comes from a week whose days earn a bonus, and states that bonus. */
  lemma {:induction false} WeeklyEntriesFrom(weeks: seq<(string, set<string>)>, e: WeeklyExperience)
    requires e in WeeklyEntries(weeks)
    ensures exists i :: 0 <= i < |weeks| && weeks[i].0 == e.weekStartDate && |weeks[i].1| == e.daysLearned
    ensures e.daysLearned >= 3 && e.experienceGained == WeeklyXp(e.daysLearned)
  {
    var init := weeks[..|weeks| - 1];
    if e in WeeklyEntries(init) {
      WeeklyEntriesFrom(init, e);
      var i :| 0 <= i < |init| && init[i].0 == e.weekStartDate && |init[i].1| == e.daysLearned;
      assert weeks[i] == init[i];
    } else {
      assert weeks[|weeks| - 1].0 == e.weekStartDate;
    }
  }

  /** A week whose days earn a bonus has its weekly entry. */
  lemma {:induction false} WeeklyEntriesCover(weeks: seq<(string, set<string>)>, i: nat)
    requires i < |weeks| && WeeklyXp(|weeks[i].1|) > 0
    ensures WeeklyExperience(weeks[i].0, |weeks[i].1|, WeeklyXp(|weeks[i].1|)) in WeeklyEntries(weeks)
  {
    if i < |weeks| - 1 {
      var init := weeks[..|weeks| - 1];
      WeeklyEntriesCover(init, i);
      assert init[i] == weeks[i];
    }
  }

  /** The dates of the daily entries are exactly the dates on which subtopics were finished. */
  lemma DailyDatesAreDoneDates(dates: seq<string>)
    ensures forall d :: d in DailyDates(DailyEntries(Tally(dates))) <==> d in dates
  {
    var counts := Tally(dates);
    var days := DailyDates(DailyEntries(counts));
    TallyDistinct(dates);
    forall d ensures d in days <==> d in dates {
      TallyCounts(dates, d);
      CountPositive(dates, d);
      if d in days {
        var j :| 0 <= j < |days| && days[j] == d;
        GetOfEntry(counts, j);
      }
      if d in dates {
        GetFound(counts, d);
        var j :| 0 <= j < |counts| && counts[j] == (d, Count(dates, d));
        assert days[j] == d;
      }
    }
  }

  // ---------------------------------------------------------------------------------------
  // What the answer means

  /** A progress without fields is level 1, "Intern I", with 100 experience to the next level. */
  lemma EmptyExperienceValues()
    ensures EmptyExperience().level == 1 && EmptyExperience().rank == Some("Intern I")
    ensures EmptyExperience().requiredExperience == 100
  {
    XpRequiredIsFloor(1);
    assert LevelFrom(1, 0) == (1, 0);
  }

  /** Without finished subtopics the general answer is the one given for a progress without fields. */
  lemma NoCompletionsIsEmpty(fields: seq<seq<Subtopic>>, weekOf: string -> string)
    requires DoneDates(Flatten(fields)) == []
    ensures UserExperienceOf(fields, weekOf) == EmptyExperience()
  {
    assert DailyEntries([]) == [];
    assert DailyDates([]) == [];
  }

  /**
   * The total is the daily experience plus the weekly bonuses; the level and the experience
   * within it split the total as the level thresholds do, and the rank is the level's rank.
   */
  lemma UserExperienceLevel(fields: seq<seq<Subtopic>>, weekOf: string -> string)
    ensures var r := UserExperienceOf(fields, weekOf);
      && r.totalXp == SumDaily(r.dailyExperience) + SumWeekly(r.weeklyExperience)
      && r.level >= 1 && r.rank == GetRank(r.level)
      && r.levelExperience < r.requiredExperience && r.requiredExperience == XpRequired(r.level)
      && SumRequired(r.level) + r.levelExperience == r.totalXp
  {
    if |fields| == 0 {
      LevelDetailsMeaning(0);
    } else {
      var r := UserExperienceOf(fields, weekOf);
      LevelDetailsMeaning(r.totalXp);
    }
  }

  /**
   * Each daily entry is a date on which subtopics were finished, with how many and the
   * experience of that many; no date has two entries and every such date has one.
   */
  lemma DailyExperienceMeaning(fields: seq<seq<Subtopic>>, date: string)
    ensures var daily := DailyOf(fields);
      && (forall i, j :: 0 <= i < j < |daily| ==> daily[i].date != daily[j].date)
      && forall e :: e in daily ==>
           && e.subtopicsCompleted == Count(DoneDates(Flatten(fields)), e.date) > 0
           && e.experienceGained == DailyXp(e.subtopicsCompleted)
    ensures date in DoneDates(Flatten(fields)) ==>
      exists e :: e in DailyOf(fields) && e.date == date
  {
    var dates := DoneDates(Flatten(fields));
    var counts := Tally(dates);
    var daily := DailyEntries(counts);
    TallyDistinct(dates);
    forall e | e in daily
      ensures e.subtopicsCompleted == Count(dates, e.date) > 0 && e.experienceGained == DailyXp(e.subtopicsCompleted)
    {
      var i :| 0 <= i < |daily| && daily[i] == e;
      GetOfEntry(counts, i);
      TallyCounts(dates, e.date);
    }
    DailyDatesAreDoneDates(dates);
    if date in dates {
      assert date in DailyDates(daily);
      var i :| 0 <= i < |daily| && DailyDates(daily)[i] == date;
      assert daily[i] in daily;
    }
  }

  /** The weeks of the daily entries group the dates on which subtopics were finished. */
  lemma WeeksOfDoneDates(dates: seq<string>, weekOf: string -> string, week: string)
    ensures var weeks := Weeks(DailyDates(DailyEntries(Tally(dates))), weekOf);
      && DistinctKeys(weeks)
      && Get(weeks, week) == if DaysOf(dates, weekOf, week) == {} then None else Some(DaysOf(dates, weekOf, week))
  {
    var dailyDates := DailyDates(DailyEntries(Tally(dates)));
    DailyDatesAreDoneDates(dates);
    assert DaysOf(dates, weekOf, week) == DaysOf(dailyDates, weekOf, week);
    WeeksGroup(dailyDates, weekOf, week);
  }

  /** A weekly entry of a grouping with distinct weeks counts the days of its week. */
  lemma EntryOfWeek(weeks: seq<(string, set<string>)>, e: WeeklyExperience, days: set<string>)
    requires DistinctKeys(weeks) && e in WeeklyEntries(weeks)
    requires Get(weeks, e.weekStartDate) == if days == {} then None else Some(days)
    ensures e.daysLearned == |days| >= 3 && e.experienceGained == WeeklyXp(|days|)
  {
    WeeklyEntriesFrom(weeks, e);
    var i :| 0 <= i < |weeks| && weeks[i].0 == e.weekStartDate && |weeks[i].1| == e.daysLearned;
    GetOfEntry(weeks, i);
  }

  /** A weekly entry counts the distinct dates of its week on which subtopics were finished, and states its bonus. */
  lemma WeeklyEntryMeaning(fields: seq<seq<Subtopic>>, weekOf: string -> string, e: WeeklyExperience)
    requires e in WeeklyOf(fields, weekOf)
    ensures var days := DaysOf(DoneDates(Flatten(fields)), weekOf, e.weekStartDate);
      e.daysLearned == |days| >= 3 && e.experienceGained == WeeklyXp(|days|)
  {
    var dates := DoneDates(Flatten(fields));
    WeeksOfDoneDates(dates, weekOf, e.weekStartDate);
    EntryOfWeek(Weeks(DailyDates(DailyEntries(Tally(dates))), weekOf), e, DaysOf(dates, weekOf, e.weekStartDate));
  }

  /** A week with at least three dates on which subtopics were finished has its weekly entry. */
  lemma WeeklyEntryPresent(fields: seq<seq<Subtopic>>, weekOf: string -> string, week: string)
    requires |DaysOf(DoneDates(Flatten(fields)), weekOf, week)| >= 3
    ensures var days := DaysOf(DoneDates(Flatten(fields)), weekOf, week);
      WeeklyExperience(week, |days|, WeeklyXp(|days|)) in WeeklyOf(fields, weekOf)
  {
    var dates := DoneDates(Flatten(fields));
    var weeks := Weeks(DailyDates(DailyEntries(Tally(dates))), weekOf);
    var days := DaysOf(dates, weekOf, week);
    WeeksOfDoneDates(dates, weekOf, week);
    GetFound(weeks, week);
    var i :| 0 <= i < |weeks| && weeks[i] == (week, days);
    WeeklyEntriesCover(weeks, i);
  }

  // ---------------------------------------------------------------------------------------
  // Steps of the computation

  lemma FlattenStep(fields: seq<seq<Subtopic>>, i: nat)
    requires i < |fields|
    ensures Flatten(fields[..i + 1]) == Flatten(fields[..i]) + fields[i][..|fields[i]|]
  {
    assert fields[..i + 1][..i] == fields[..i];
    assert fields[i][..|fields[i]|] == fields[i];
  }

  lemma TallyStep(seen: seq<Subtopic>, subtopic: Subtopic)
    ensures var counts := Tally(DoneDates(seen));
      var date := DatePart(subtopic.completionDatetime);
      Tally(DoneDates(seen + [subtopic]))
        == if subtopic.status == DONE then Set(counts, date, Get(counts, date).GetOr(0) + 1) else counts
  {
    assert (seen + [subtopic])[..|seen|] == seen;
    var date := DatePart(subtopic.completionDatetime);
    if subtopic.status == DONE {
      assert (DoneDates(seen) + [date])[..|DoneDates(seen)|] == DoneDates(seen);
    } else {
      assert DoneDates(seen + [subtopic]) == DoneDates(seen) + [] == DoneDates(seen);
    }
  }

  lemma CountStep(fields: seq<seq<Subtopic>>, i: nat, j: nat)
    requires i < |fields| && j < |fields[i]|
    ensures var counts := Tally(DoneDates(Flatten(fields[..i]) + fields[i][..j]));
      var subtopic := fields[i][j];
      var date := DatePart(subtopic.completionDatetime);
      Tally(DoneDates(Flatten(fields[..i]) + fields[i][..j + 1]))
        == if subtopic.status == DONE then Set(counts, date, Get(counts, date).GetOr(0) + 1) else counts
  {
    TallyStep(Flatten(fields[..i]) + fields[i][..j], fields[i][j]);
    assert Flatten(fields[..i]) + fields[i][..j + 1] == Flatten(fields[..i]) + fields[i][..j] + [fields[i][j]];
  }

  lemma DailyStep(counts: seq<(string, nat)>, k: nat)
    requires k < |counts|
    ensures var entry := DailyExperience(counts[k].0, counts[k].1, DailyXp(counts[k].1));
      && DailyEntries(counts[..k + 1]) == DailyEntries(counts[..k]) + [entry]
      && SumDaily(DailyEntries(counts[..k]) + [entry]) == SumDaily(DailyEntries(counts[..k])) + entry.experienceGained
  {
    var entry := DailyExperience(counts[k].0, counts[k].1, DailyXp(counts[k].1));
    assert (DailyEntries(counts[..k]) + [entry])[..k] == DailyEntries(counts[..k]);
  }

  lemma WeeksStep(daily: seq<DailyExperience>, k: nat, weekOf: string -> string)
    requires k < |daily|
    ensures var weeks := Weeks(DailyDates(daily[..k]), weekOf);
      var date := daily[k].date;
      Weeks(DailyDates(daily[..k + 1]), weekOf) == Set(weeks, weekOf(date), Get(weeks, weekOf(date)).GetOr({}) + {date})
  {
    assert DailyDates(daily[..k + 1]) == DailyDates(daily[..k]) + [daily[k].date];
    assert (DailyDates(daily[..k]) + [daily[k].date])[..k] == DailyDates(daily[..k]);
  }

  lemma WeeklyStep(weeks: seq<(string, set<string>)>, k: nat, weekly: seq<WeeklyExperience>)
    requires k < |weeks| && weekly == WeeklyEntries(weeks[..k])
    ensures var xp := WeeklyXp(|weeks[k].1|);
      var entry := WeeklyExperience(weeks[k].0, |weeks[k].1|, xp);
      && WeeklyEntries(weeks[..k + 1]) == (if xp > 0 then weekly + [entry] else weekly)
      && SumWeekly(weekly + [entry]) == SumWeekly(weekly) + xp
  {
    assert weeks[..k + 1][..k] == weeks[..k];
    var entry := WeeklyExperience(weeks[k].0, |weeks[k].1|, WeeklyXp(|weeks[k].1|));
    assert (weekly + [entry])[..|weekly|] == weekly;
  }

  // ---------------------------------------------------------------------------------------
  // The computation

  /** The first pass: finished subtopics counted per completion date. */
  method CountByDate(fields: seq<seq<Subtopic>>) returns (progressByDate: seq<(string, nat)>)
    ensures progressByDate == Tally(DoneDates(Flatten(fields)))
  {
    progressByDate := [];
    for i := 0 to |fields|
      invariant progressByDate == Tally(DoneDates(Flatten(fields[..i])))
    {
      assert fields[i][..0] == [] && Flatten(fields[..i]) + [] == Flatten(fields[..i]);
      for j := 0 to |fields[i]|
        invariant progressByDate == Tally(DoneDates(Flatten(fields[..i]) + fields[i][..j]))
      {
        var subtopic := fields[i][j];
        CountStep(fields, i, j);
        if subtopic.status == DONE {
          var date := DatePart(subtopic.completionDatetime);
          progressByDate := Set(progressByDate, date, Get(progressByDate, date).GetOr(0) + 1);
        }
      }
      FlattenStep(fields, i);
    }
    assert fields[..|fields|] == fields;
  }

  /** The second pass: a daily entry per date, and the experience they add up to. */
  method DailyExperienceOf(progressByDate: seq<(string, nat)>) returns (daily: seq<DailyExperience>, totalXp: nat)
    ensures daily == DailyEntries(progressByDate) && totalXp == SumDaily(daily)
  {
    daily := [];
    totalXp := 0;
    for k := 0 to |progressByDate|
      invariant daily == DailyEntries(progressByDate[..k])
      invariant totalXp == SumDaily(daily)
    {
      var (date, subtopicsCompleted) := progressByDate[k];
      var entry := DailyExperience(date, subtopicsCompleted, DailyXp(subtopicsCompleted));
      DailyStep(progressByDate, k);
      daily := daily + [entry];
      totalXp := totalXp + entry.experienceGained;
    }
    assert progressByDate[..|progressByDate|] == progressByDate;
  }

  /** The third pass: the dates of the daily entries grouped by week. */
  method GroupByWeek(daily: seq<DailyExperience>, weekOf: string -> string) returns (weekMap: seq<(string, set<string>)>)
    ensures weekMap == Weeks(DailyDates(daily), weekOf)
  {
    weekMap := [];
    for k := 0 to |daily|
      invariant weekMap == Weeks(DailyDates(daily[..k]), weekOf)
    {
      var date := daily[k].date;
      var weekStart := weekOf(date);
      WeeksStep(daily, k, weekOf);
      weekMap := Set(weekMap, weekStart, Get(weekMap, weekStart).GetOr({}) + {date});
    }
    assert daily[..|daily|] == daily;
  }

  /** The last pass: a weekly entry per week that earns a bonus, and the bonuses they add up to. */
  method WeeklyExperienceOf(weekMap: seq<(string, set<string>)>) returns (weekly: seq<WeeklyExperience>, totalXp: nat)
    ensures weekly == WeeklyEntries(weekMap) && totalXp == SumWeekly(weekly)
  {
    weekly := [];
    totalXp := 0;
    for k := 0 to |weekMap|
      invariant weekly == WeeklyEntries(weekMap[..k])
      invariant totalXp == SumWeekly(weekly)
    {
      var (weekStartDate, daysLearned) := weekMap[k];
      WeeklyStep(weekMap, k, weekly);
      var weeklyXp := WeeklyXp(|daysLearned|);
      if weeklyXp > 0 {
        weekly := weekly + [WeeklyExperience(weekStartDate, |daysLearned|, weeklyXp)];
        totalXp := totalXp + weeklyXp;
      }
    }
    assert weekMap[..|weekMap|] == weekMap;
  }

  /** `calculateUserExperience`, the maps kept as entry lists in insertion order. */
  method CalculateUserExperience(fields: seq<seq<Subtopic>>, weekOf: string -> string) returns (r: UserExperience)
    ensures r == UserExperienceOf(fields, weekOf)
  {
    if |fields| == 0 {
      var details := CalculateLevelDetails(0);
      return UserExperience(0, 1, GetRank(1), 0, details.requiredExperience, [], []);
    }
    var progressByDate := CountByDate(fields);
    var daily, dailyXp := DailyExperienceOf(progressByDate);
    var weekMap := GroupByWeek(daily, weekOf);
    var weekly, weeklyXp := WeeklyExperienceOf(weekMap);
    var totalXp := dailyXp + weeklyXp;
    var details := CalculateLevelDetails(totalXp);
    r := UserExperience(totalXp, details.level, GetRank(details.level), details.levelExperience,
                        details.requiredExperience, daily, weekly);
  }
}
