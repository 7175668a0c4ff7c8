/**
 * The leveling and challenge rules of the study dashboard: the experience a level needs,
 * the level reached with a total of experience, the rank a level carries, the experience a
 * day of study and a week of study earn, and how challenges split into open and completed.
 */
module Leveling {
  import opened Wrappers

  // ---------------------------------------------------------------------------------------
  // Levels

  /** `x * x`, by odd increments, so that no product of two unknowns is ever unfolded. */
  function Square(x: nat): nat {
    if x == 0 then 0 else Square(x - 1) + 2 * x - 1
  }

  lemma {:induction false} SquareIsProduct(x: nat)
    ensures Square(x) == x * x
  {
    if x > 0 {
      SquareIsProduct(x - 1);
    }
  }

  lemma {:induction false} SquareMonotone(a: nat, b: nat)
    requires a <= b
    ensures Square(a) <= Square(b)
    decreases b - a
  {
    if a < b {
      SquareMonotone(a, b - 1);
    }
  }

  /** `n * n * n`, by increments built from squares. */
  function Cube(n: nat): nat {
    if n == 0 then 0 else Cube(n - 1) + 3 * Square(n - 1) + 3 * n - 2
  }

  lemma {:induction false} CubeIsProduct(n: nat)
    ensures Cube(n) == n * n * n
  {
    if n > 0 {
      CubeIsProduct(n - 1);
      SquareIsProduct(n - 1);
      CubeStep(n - 1);
    }
  }

  lemma CubeStep(k: nat)
    ensures (k + 1) * (k + 1) * (k + 1) == k * k * k + 3 * (k * k) + 3 * (k + 1) - 2
  {
  }

  /** The integer square root of `n`, searching upwards from `r`, where `sq` is the square of `r`. */
  function IsqrtFrom(n: nat, r: nat, sq: nat): nat
    decreases n - sq
  {
    if sq + 2 * r + 1 > n then r else IsqrtFrom(n, r + 1, sq + 2 * r + 1)
  }

  /** The integer square root: the largest `r` whose square is at most `n`. */
  function Isqrt(n: nat): nat {
    IsqrtFrom(n, 0, 0)
  }

  lemma {:induction false} IsqrtFromSpec(n: nat, r: nat, sq: nat)
    requires sq == Square(r) && sq <= n
    ensures Square(IsqrtFrom(n, r, sq)) <= n < Square(IsqrtFrom(n, r, sq) + 1)
    decreases n - sq
  {
    if sq + 2 * r + 1 <= n {
      IsqrtFromSpec(n, r + 1, sq + 2 * r + 1);
    }
  }

  /**
   * `xpRequiredForNextLevel`: `floor(100 * level^1.5)`, which is the integer square root of
   * `10000 * level^3`.
   */
  function XpRequired(level: nat): (r: nat)
    ensures level >= 1 ==> r >= 100
  {
    var r := Isqrt(10000 * Cube(level));
    if level >= 1 then
      IsqrtFromSpec(10000 * Cube(level), 0, 0);
      SquareIsProduct(100);
      if r < 100 then
        SquareMonotone(r + 1, 100);
        r
      else r
    else r
  }

  /** The requirement is `floor(100 * level^1.5)`: its square is at most `10000 * level^3` and the next square is beyond it. */
  lemma XpRequiredIsFloor(level: nat)
    ensures var r := XpRequired(level);
      r * r <= 10000 * (level * level * level) < (r + 1) * (r + 1)
  {
    var r := XpRequired(level);
    IsqrtFromSpec(10000 * Cube(level), 0, 0);
    CubeIsProduct(level);
    SquareIsProduct(r);
    SquareIsProduct(r + 1);
  }

  /** The experience needed to reach `level` from level 1: the requirements of levels 1 to `level - 1`. */
  function SumRequired(level: nat): nat {
    if level <= 1 then 0 else SumRequired(level - 1) + XpRequired(level - 1)
  }

  /** The loop of `calculateLevelDetails` from `level` with `xp` left: the level reached and the experience left over. */
  function LevelFrom(level: nat, xp: nat): (nat, nat)
    requires level >= 1
    decreases xp
  {
    if xp >= XpRequired(level) then LevelFrom(level + 1, xp - XpRequired(level)) else (level, xp)
  }

  /** The loop stops at a level whose requirement the experience left does not cover, having paid for the levels before it. */
  lemma {:induction false} LevelFromPays(level: nat, xp: nat)
    requires level >= 1
    ensures var r := LevelFrom(level, xp);
      && r.0 >= level && r.1 < XpRequired(r.0)
      && SumRequired(level) + xp == SumRequired(r.0) + r.1
    decreases xp
  {
    var need := XpRequired(level);
    if xp >= need {
      LevelFromPays(level + 1, xp - need);
      assert LevelFrom(level, xp) == LevelFrom(level + 1, xp - need);
      assert SumRequired(level + 1) == SumRequired(level) + need;
    }
  }

  /** What `calculateLevelDetails` returns. */
  datatype LevelDetails = LevelDetails(level: nat, levelExperience: nat, requiredExperience: nat)

  /** The details `calculateLevelDetails` computes for `totalXp`. */
  function LevelDetailsOf(totalXp: nat): LevelDetails {
    var (level, left) := LevelFrom(1, totalXp);
    LevelDetails(level, left, XpRequired(level))
  }

  /**
   * The level reached with `totalXp`: the levels below it are paid for in full, and what is
   * left is less than the next level needs.
   */
  lemma LevelDetailsMeaning(totalXp: nat)
    ensures var d := LevelDetailsOf(totalXp);
      && d.level >= 1
      && d.levelExperience < d.requiredExperience && d.requiredExperience == XpRequired(d.level)
      && SumRequired(d.level) + d.levelExperience == totalXp
  {
    LevelFromPays(1, totalXp);
  }

  /** Every level costs at least 100 more than the one before it. */
  lemma {:induction false} SumRequiredGrows(a: nat, b: nat)
    requires 1 <= a <= b
    ensures SumRequired(a) + 100 * (b - a) <= SumRequired(b)
    decreases b - a
  {
    if a < b {
      SumRequiredGrows(a, b - 1);
    }
  }

  /** The level is the only one whose threshold `SumRequired` the total reaches and the next one's it does not. */
  lemma LevelIsUnique(totalXp: nat, level: nat)
    requires level >= 1 && SumRequired(level) <= totalXp < SumRequired(level + 1)
    ensures LevelDetailsOf(totalXp).level == level
  {
    LevelDetailsMeaning(totalXp);
    var found := LevelDetailsOf(totalXp).level;
    if found < level {
      SumRequiredGrows(found + 1, level);
    } else if level < found {
      SumRequiredGrows(level + 1, found);
    }
  }

  /** `calculateLevelDetails`: pays for level after level while the experience left covers the next. */
  method CalculateLevelDetails(totalXp: nat) returns (d: LevelDetails)
    ensures d == LevelDetailsOf(totalXp)
  {
    var level: nat := 1;
    var remaining := totalXp;
    var requiredForNext := XpRequired(level);
    while remaining >= requiredForNext
      invariant level >= 1 && requiredForNext == XpRequired(level)
      invariant LevelFrom(level, remaining) == LevelFrom(1, totalXp)
      decreases remaining
    {
      assert LevelFrom(level, remaining) == LevelFrom(level + 1, remaining - requiredForNext);
      remaining := remaining - requiredForNext;
      level := level + 1;
      requiredForNext := XpRequired(level);
    }
    d := LevelDetails(level, remaining, requiredForNext);
  }

  /** `calculateLevel`: the same loop, keeping only the level. */
  method CalculateLevel(totalXp: nat) returns (level: nat)
    ensures level == LevelDetailsOf(totalXp).level
  {
    var xp: nat := totalXp;
    level := 1;
    while xp >= XpRequired(level)
      invariant level >= 1
      invariant LevelFrom(level, xp) == LevelFrom(1, totalXp)
      decreases xp
    {
      assert LevelFrom(level, xp) == LevelFrom(level + 1, xp - XpRequired(level));
      xp := xp - XpRequired(level);
      level := level + 1;
    }
  }

  // ---------------------------------------------------------------------------------------
  // Ranks

  const RANKS: seq<string> := [
    "Intern I", "Intern II", "Intern III",
    "Junior Developer I", "Junior Developer II", "Junior Developer III",
    "Software Developer I", "Software Developer II", "Software Developer III",
    "Senior Developer I", "Senior Developer II", "Senior Developer III",
    "Lead Developer I", "Lead Developer II", "Lead Developer III",
    "Software Architect I", "Software Architect II",
    "Principal Engineer I", "Principal Engineer II", "Principal Engineer III"
  ]

  /** `getRank`: the rank of the level, the last one from level 20 on; below level 1 the array has no entry (`undefined`). */
  function GetRank(level: int): (r: Option<string>)
    ensures level < 1 <==> r.None?
    ensures level >= |RANKS| ==> r == Some("Principal Engineer III")
    ensures 1 <= level <= |RANKS| ==> r == Some(RANKS[level - 1])
  {
    var i := if level - 1 < |RANKS| - 1 then level - 1 else |RANKS| - 1;
    if i < 0 then None else Some(RANKS[i])
  }

  // ---------------------------------------------------------------------------------------
  // Experience of a day and of a week

  /** The experience of a day on which `completed` subtopics were finished, with the daily bonus. */
  function DailyXp(completed: nat): (r: nat)
    ensures completed == 0 <==> r == 0
  {
    var base := if completed > 0 then 20 + (completed - 1) * 10 else 0;
    if completed >= 10 then base + 80
    else if completed >= 5 then base + 30
    else base
  }

  /** More subtopics in a day always earn more. */
  lemma DailyXpIncreasing(n: nat, m: nat)
    requires n < m
    ensures DailyXp(n) < DailyXp(m)
  {
  }

  /** The weekly bonus for a week with `days` distinct days of study; zero means no weekly entry. */
  function WeeklyXp(days: nat): (r: nat)
    ensures r == 0 || r == 50 || r == 100
    ensures r == 0 <==> days < 3
  {
    if days >= 5 then 100
    else if days >= 3 then 50
    else 0
  }

  // ---------------------------------------------------------------------------------------
  // Challenges

  datatype Challenge = Challenge(id: string, description: string, xpReward: nat, progress: int, goal: int)

  datatype ChallengeSet = ChallengeSet(inProgress: seq<Challenge>, completed: seq<Challenge>)

  predicate Met(c: Challenge) {
    c.progress >= c.goal
  }

  /** The challenges that are met (`met`) or not (`!met`), in their order. */
  function Filter(challenges: seq<Challenge>, met: bool): seq<Challenge> {
    if |challenges| == 0 then []
    else if Met(challenges[0]) == met then [challenges[0]] + Filter(challenges[1..], met)
    else Filter(challenges[1..], met)
  }

  /** Filtering keeps only challenges of the list, and only those whose state is `met`. */
  lemma {:induction false} FilterKeeps(challenges: seq<Challenge>, met: bool)
    ensures forall c :: c in Filter(challenges, met) ==> c in challenges && Met(c) == met
  {
    if |challenges| > 0 {
      FilterKeeps(challenges[1..], met);
    }
  }

  /** Every challenge lands in exactly one of the two lists, as often as it occurs. */
  lemma {:induction false} FilterPartitions(challenges: seq<Challenge>)
    ensures multiset(Filter(challenges, true)) + multiset(Filter(challenges, false)) == multiset(challenges)
  {
    if |challenges| > 0 {
      FilterPartitions(challenges[1..]);
      assert challenges == [challenges[0]] + challenges[1..];
    }
  }

  /** Filtering a list extended by one challenge extends the filtered list by it when its state is `met`. */
  lemma {:induction false} FilterSnoc(challenges: seq<Challenge>, c: Challenge, met: bool)
    ensures Filter(challenges + [c], met) == Filter(challenges, met) + (if Met(c) == met then [c] else [])
  {
    if |challenges| == 0 {
      assert challenges + [c] == [c];
    } else {
      var head, tail := challenges[0], challenges[1..];
      FilterSnoc(tail, c, met);
      assert (challenges + [c])[0] == head;
      assert (challenges + [c])[1..] == tail + [c];
      if Met(head) == met {
        calc {
          Filter(challenges + [c], met);
          [head] + Filter(tail + [c], met);
          [head] + (Filter(tail, met) + (if Met(c) == met then [c] else []));
          ([head] + Filter(tail, met)) + (if Met(c) == met then [c] else []);
        }
      }
    }
  }

  /** `categorizeChallenges`: met challenges are completed, the others in progress, each list in input order. */
  method CategorizeChallenges(challenges: seq<Challenge>) returns (s: ChallengeSet)
    ensures s.completed == Filter(challenges, true) && s.inProgress == Filter(challenges, false)
  {
    var inProgress: seq<Challenge> := [];
    var completed: seq<Challenge> := [];
    for i := 0 to |challenges|
      invariant completed == Filter(challenges[..i], true)
      invariant inProgress == Filter(challenges[..i], false)
    {
      assert challenges[..i + 1] == challenges[..i] + [challenges[i]];
      FilterSnoc(challenges[..i], challenges[i], true);
      FilterSnoc(challenges[..i], challenges[i], false);
      if challenges[i].progress >= challenges[i].goal {
        completed := completed + [challenges[i]];
      } else {
        inProgress := inProgress + [challenges[i]];
      }
    }
    assert challenges[..|challenges|] == challenges;
    s := ChallengeSet(inProgress, completed);
  }

  function DailyChallenges(progress: int): seq<Challenge> {
    [ Challenge("daily1", "Finish 5  topics", 30, progress, 5),
      Challenge("daily2", "Finish 10 topics", 80, progress, 10) ]
  }

  function WeeklyChallenges(progress: int): seq<Challenge> {
    [ Challenge("weekly1", "Learn for 3 days", 50, progress, 3),
      Challenge("weekly2", "Learn for 5 days", 100, progress, 5) ]
  }

  /** `getDailyChallenges`. */
  method GetDailyChallenges(progress: int) returns (s: ChallengeSet)
    ensures s.completed == Filter(DailyChallenges(progress), true)
    ensures s.inProgress == Filter(DailyChallenges(progress), false)
  {
    s := CategorizeChallenges(DailyChallenges(progress));
  }

  /** `getWeeklyChallenges`. */
  method GetWeeklyChallenges(progress: int) returns (s: ChallengeSet)
    ensures s.completed == Filter(WeeklyChallenges(progress), true)
    ensures s.inProgress == Filter(WeeklyChallenges(progress), false)
  {
    s := CategorizeChallenges(WeeklyChallenges(progress));
  }

  /** The largest reward among the challenges, 0 for none. */
  function MaxReward(challenges: seq<Challenge>): (r: nat)
    ensures forall c :: c in challenges ==> c.xpReward <= r
    ensures |challenges| > 0 ==> exists c :: c in challenges && c.xpReward == r
  {
    if |challenges| == 0 then 0
    else
      var rest := MaxReward(challenges[1..]);
      assert forall c :: c in challenges[1..] ==> c in challenges;
      if challenges[0].xpReward >= rest then challenges[0].xpReward else rest
  }

  /**
   * The bonus in a day's experience is the reward of the best daily challenge that day
   * completes, and a week's bonus is the reward of the best weekly challenge it completes:
   * the experience rules and the challenge lists agree.
   */
  lemma BonusesMatchChallenges(completed: nat, days: nat)
    ensures completed > 0 ==> DailyXp(completed) == 20 + (completed - 1) * 10 + MaxReward(Filter(DailyChallenges(completed), true))
    ensures WeeklyXp(days) == MaxReward(Filter(WeeklyChallenges(days), true))
  {
    var dc := DailyChallenges(completed);
    assert dc[1..] == [dc[1]] && dc[1..][1..] == [];
    if completed >= 10 {
      assert Filter(dc[1..], true) == dc[1..];
      assert Filter(dc, true) == dc;
      assert MaxReward(dc[1..]) == 80;
    } else if completed >= 5 {
      assert Filter(dc[1..], true) == [];
      assert Filter(dc, true) == [dc[0]];
      assert MaxReward([dc[0]]) == 30 by { assert [dc[0]][1..] == []; }
    } else {
      assert Filter(dc[1..], true) == [];
      assert Filter(dc, true) == [];
    }
    var wc := WeeklyChallenges(days);
    assert wc[1..] == [wc[1]] && wc[1..][1..] == [];
    if days >= 5 {
      assert Filter(wc[1..], true) == wc[1..];
      assert Filter(wc, true) == wc;
      assert MaxReward(wc[1..]) == 100;
    } else if days >= 3 {
      assert Filter(wc[1..], true) == [];
      assert Filter(wc, true) == [wc[0]];
      assert MaxReward([wc[0]]) == 50 by { assert [wc[0]][1..] == []; }
    } else {
      assert Filter(wc[1..], true) == [];
      assert Filter(wc, true) == [];
    }
  }
}
