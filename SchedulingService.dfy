/**
 * service/SchedulingService.java: the service that owns the roster and the current
 * schedule, guards every operation on that schedule, and reports on its fairness and
 * validity. The reports are structured values here rather than formatted text.
 */
module SchedulingServices {
  import opened Wrappers
  import opened JavaText
  import opened Seqs
  import opened Teams
  import opened Matches
  import opened Schedules
  import opened RoundRobin
  import opened Redistribution
  import opened ScheduleGenerator
  import opened GeneratedSchedules
  import opened TeamServices

  const NO_SCHEDULE: string := "No schedule available"
  const NO_SCHEDULE_TO_SAVE: string := "No schedule to save. Generate a schedule first."
  const NO_SCHEDULE_TO_EXPORT: string := "No schedule to export. Generate a schedule first."
  const INVALID_DATE: string := "Invalid date format. Use YYYY-MM-DD"
  const TEAM_NOT_FOUND: string := "Team not found: "
  const CONSTRAINED_FAILED: string := "Failed to generate constrained schedule: "

  /** Throwable.getMessage; an index error carries the wording of java.util.Objects.checkIndex. */
  function MessageOf(e: Exception): string
  {
    match e
    case IllegalArgument(message) => message
    case IllegalState(message) => message
    case IndexOutOfBounds(index, length) => "Index " + IntText(index) + " out of bounds for length " + IntText(length)
    case Runtime(message, _) => message
  }

  /** `new RuntimeException(prefix + e.getMessage(), e)`. */
  function Rethrown(prefix: string, e: Exception): Exception
  {
    Runtime(prefix + MessageOf(e), e)
  }

  /** String concatenation of a possibly null string. */
  function ShownName(s: Option<string>): string
  {
    if s.None? then "null" else s.value
  }

  // ---------------------------------------------------------------------------
  // The fairness report

  /** One block of the fairness report. */
  datatype FairnessEntry = FairnessEntry(team: string, totalMatches: int, homeMatches: int, awayMatches: int, consecutive: bool)

  /** The stream filter `match.isHomeMatch(team)`. */
  function HomeAt(t: Team): Match -> bool
  {
    (m: Match) => IsHomeMatch(m, t)
  }

  /** What the report says about team `t`: its matches, the home ones, the rest, and whether two are a day or less apart. */
  function FairnessOf(ms: seq<Match>, t: Team): FairnessEntry
  {
    var own := Filter(ms, InvolvesTeam(t));
    var home := |Filter(own, HomeAt(t))|;
    FairnessEntry(t.name, |own|, home, |own| - home, HasGapWithin(SortByDate(own), 1))
  }

  /** The home count of the report is the number of home games of the team. */
  lemma FairnessCountsHomeGames(ms: seq<Match>, t: Team)
    ensures FairnessOf(ms, t).homeMatches == |Filter(ms, HomeGame(t))|
    ensures 0 <= FairnessOf(ms, t).awayMatches <= FairnessOf(ms, t).totalMatches
  {
    FilterFilter(ms, InvolvesTeam(t), HomeAt(t), HomeGame(t));
  }

  /**
   * In a generated schedule of a proper roster with distinct home venues, the team at roster
   * index j plays every other team once, hosts the N-1-j teams after it, visits the j teams
   * before it, and never plays on two days in a row.
   */
  lemma GeneratedFairness(teams: seq<Team>, start: int, j: int)
    requires ProperRoster(teams) && DistinctHomeVenues(teams) && 0 <= j < |teams|
    ensures FairnessOf(GeneratedMatches(teams, start), teams[j]) ==
            FairnessEntry(teams[j].name, |teams| - 1, |teams| - 1 - j, j, false)
  {
    var ms := GeneratedMatches(teams, start);
    GeneratedTeamCount(teams, start, j);
    FairnessCountsHomeGames(ms, teams[j]);
    GeneratedHomeCount(teams, start, j);
    GeneratedNoConsecutive(teams, start, teams[j]);
  }

  /**
   * So the first roster team never plays away and the last never at home, whatever the
   * start date: "every team has home and away matches" does not hold for such a roster.
   */
  lemma GeneratedFirstNeverAway(teams: seq<Team>, start: int)
    requires ProperRoster(teams) && DistinctHomeVenues(teams)
    ensures FairnessOf(GeneratedMatches(teams, start), teams[0]).awayMatches == 0
  {
    GeneratedFairness(teams, start, 0);
  }

  lemma GeneratedLastNeverHome(teams: seq<Team>, start: int)
    requires ProperRoster(teams) && DistinctHomeVenues(teams)
    ensures FairnessOf(GeneratedMatches(teams, start), teams[|teams| - 1]).homeMatches == 0
  {
    GeneratedFairness(teams, start, |teams| - 1);
  }

  /** The default roster is such a roster: Mumbai Indians never play away, Lucknow Super Giants never at home. */
  lemma DefaultFairnessAtEnds(start: int)
    ensures FairnessOf(GeneratedMatches(DefaultTeams(), start), DefaultTeams()[0]) ==
            FairnessEntry("Mumbai Indians", 9, 9, 0, false)
    ensures FairnessOf(GeneratedMatches(DefaultTeams(), start), DefaultTeams()[9]) ==
            FairnessEntry("Lucknow Super Giants", 9, 0, 9, false)
  {
    DefaultRosterProper();
    DefaultHomeVenuesDistinct();
    GeneratedFairness(DefaultTeams(), start, 0);
    GeneratedFairness(DefaultTeams(), start, 9);
  }

  // ---------------------------------------------------------------------------
  // The validation report

  /** One line of the validation report. */
  datatype Issue =
    | WrongMatchCount(team: string, actual: int, expected: int)
    | MultipleMatchesOn(date: int)

  /** The issue of the first loop for team `t`, if any. */
  function TeamIssue(ms: seq<Match>, t: Team, expected: int): seq<Issue>
  {
    var actual := |Filter(ms, InvolvesTeam(t))|;
    if actual != expected then [WrongMatchCount(t.name, actual, expected)] else []
  }

  /** Every team of the roster plays `expected` matches of `ms`. */
  predicate EveryTeamPlays(ms: seq<Match>, teams: seq<Team>, expected: int)
  {
    forall i :: 0 <= i < |teams| ==> |Filter(ms, InvolvesTeam(teams[i]))| == expected
  }

  /** No two neighbours of `s` among the first n + 1 share a date. */
  predicate NeighboursApart(s: seq<Match>, n: nat)
    requires n == 0 || n < |s|
  {
    forall i :: 0 <= i < n ==> s[i].date != s[i + 1].date
  }

  /** The issues of the first loop, over the teams in roster order. */
  function CountIssues(ms: seq<Match>, teams: seq<Team>, expected: int): (r: seq<Issue>)
    ensures |r| <= |teams|
    decreases |teams|
  {
    if teams == [] then []
    else CountIssues(ms, teams[..|teams| - 1], expected) + TeamIssue(ms, teams[|teams| - 1], expected)
  }

  /** The first loop reports nothing exactly when every team plays the expected number of matches. */
  lemma {:induction false} CountIssuesNone(ms: seq<Match>, teams: seq<Team>, expected: int)
    ensures CountIssues(ms, teams, expected) == [] <==> EveryTeamPlays(ms, teams, expected)
    decreases |teams|
  {
    if teams != [] {
      var front := teams[..|teams| - 1];
      CountIssuesNone(ms, front, expected);
      assert forall i :: 0 <= i < |front| ==> front[i] == teams[i];
    }
  }

  /** The issue of the second loop for the neighbours at k and k + 1 of the sorted list, if any. */
  function PairIssue(s: seq<Match>, k: nat): seq<Issue>
    requires k + 1 < |s|
  {
    if s[k].date == s[k + 1].date then [MultipleMatchesOn(s[k].date)] else []
  }

  /** The issues of the second loop after its first n steps. */
  function DateIssuesUpTo(s: seq<Match>, n: nat): (r: seq<Issue>)
    requires n == 0 || n < |s|
    ensures |r| <= n
  {
    if n == 0 then [] else DateIssuesUpTo(s, n - 1) + PairIssue(s, n - 1)
  }

  /** The second loop reports nothing exactly when no two of the neighbours it visits share a date. */
  lemma {:induction false} DateIssuesNone(s: seq<Match>, n: nat)
    requires n == 0 || n < |s|
    ensures DateIssuesUpTo(s, n) == [] <==> NeighboursApart(s, n)
  {
    if n > 0 {
      DateIssuesNone(s, n - 1);
      if NeighboursApart(s, n) {
        assert NeighboursApart(s, n - 1);
        assert s[n - 1].date != s[n].date;
      } else if NeighboursApart(s, n - 1) {
        assert s[n - 1].date == s[n].date;
      }
    }
  }

  /** The second loop reports date issues only. */
  lemma {:induction false} DateIssuesAreDates(s: seq<Match>, n: nat)
    requires n == 0 || n < |s|
    ensures forall x :: x in DateIssuesUpTo(s, n) ==> x.MultipleMatchesOn?
  {
    if n > 0 {
      DateIssuesAreDates(s, n - 1);
    }
  }

  /** The number of neighbouring pairs of `s` the second loop visits. */
  function PairCount(s: seq<Match>): nat
  {
    if s == [] then 0 else |s| - 1
  }

  /** All issues: every team should play roster size - 1 matches, and no two sorted neighbours share a date. */
  function ValidationIssues(ms: seq<Match>, teams: seq<Team>): (r: seq<Issue>)
    ensures var s := SortByDate(ms);
            r == [] <==> EveryTeamPlays(ms, teams, |teams| - 1) && NeighboursApart(s, PairCount(s))
  {
    var s := SortByDate(ms);
    CountIssuesNone(ms, teams, |teams| - 1);
    DateIssuesNone(s, PairCount(s));
    CountIssues(ms, teams, |teams| - 1) + DateIssuesUpTo(s, PairCount(s))
  }

  /** k matches that all fall on one date give k - 1 date issues. */
  lemma {:induction false} SameDayIssues(s: seq<Match>, d: int, n: nat)
    requires n < |s| && forall i :: 0 <= i < |s| ==> s[i].date == d
    ensures DateIssuesUpTo(s, n) == seq(n, _ => MultipleMatchesOn(d))
  {
    if n > 0 {
      SameDayIssues(s, d, n - 1);
    }
  }

  /** In a generated schedule every team of the proper roster plays the roster size - 1 matches. */
  lemma GeneratedEveryTeamPlays(teams: seq<Team>, start: int)
    requires ProperRoster(teams)
    ensures EveryTeamPlays(GeneratedMatches(teams, start), teams, |teams| - 1)
  {
    forall i | 0 <= i < |teams|
      ensures |Filter(GeneratedMatches(teams, start), InvolvesTeam(teams[i]))| == |teams| - 1
    {
      GeneratedTeamCount(teams, start, i);
    }
  }

  /** In a generated schedule sorted by date, no two neighbours share a date. */
  lemma GeneratedNeighboursApart(teams: seq<Team>, start: int)
    requires |teams| >= 2
    ensures NeighboursApart(SortByDate(GeneratedMatches(teams, start)), PairCount(SortByDate(GeneratedMatches(teams, start))))
  {
    GeneratedSortedDatesDistinct(teams, start);
  }

  /** A schedule generated from the same proper roster passes validation. */
  lemma GeneratedPassesValidation(teams: seq<Team>, start: int)
    requires ProperRoster(teams)
    ensures ValidationIssues(GeneratedMatches(teams, start), teams) == []
  {
    GeneratedEveryTeamPlays(teams, start);
    GeneratedNeighboursApart(teams, start);
  }

  // ---------------------------------------------------------------------------
  // The service

  class SchedulingService {
    const teamService: TeamService
    var currentSchedule: Schedule?

    /** A new service: the default roster and no schedule. */
    constructor ()
      ensures fresh(teamService) && teamService.teams == DefaultTeams() && teamService.Valid()
      ensures currentSchedule == null
    {
      teamService := new TeamService();
      currentSchedule := null;
    }

    /**
     * generateNewSchedule: with fewer than two teams an illegal-state error and no change;
     * otherwise the generated schedule of a copy of the roster becomes the current one.
     * The generator cannot fail on two or more teams, so the rethrowing catch block is dead.
     */
    method GenerateNewSchedule(season: string, startDate: int) returns (r: Result<Schedule>)
      modifies this
      ensures unchanged(teamService)
      ensures |teamService.teams| < 2 ==> r == Failure(IllegalState(TOO_FEW_TEAMS)) && currentSchedule == old(currentSchedule)
      ensures |teamService.teams| >= 2 ==>
                && r.Success? && fresh(r.value) && currentSchedule == r.value
                && r.value.season == season && r.value.matches == GeneratedMatches(teamService.teams, startDate)
    {
      var teams := teamService.GetAllTeams();
      if |teams.items| < 2 {
        return Failure(IllegalState(TOO_FEW_TEAMS));
      }
      var generated := GenerateSchedule(teams, season, startDate);
      currentSchedule := generated.value;
      return generated;
    }

    /**
     * generateConstrainedSchedule: the same guard; then the generator either succeeds, and its
     * schedule becomes the current one, or fails on a date group it cannot index, and the
     * failure is rethrown with the prefix CONSTRAINED_FAILED and the current schedule kept.
     */
    method GenerateConstrainedSchedule(season: string, startDate: int, maxMatchesPerDay: int) returns (r: Result<Schedule>)
      requires INT_MIN <= maxMatchesPerDay <= INT_MAX
      modifies this
      ensures unchanged(teamService)
      ensures |teamService.teams| < 2 ==> r == Failure(IllegalState(TOO_FEW_TEAMS)) && currentSchedule == old(currentSchedule)
      ensures |teamService.teams| >= 2 ==>
                var ms := GeneratedMatches(teamService.teams, startDate);
                && (r.Success? <==> !AnyGroupFails(ms, maxMatchesPerDay))
                && (r.Failure? ==> && currentSchedule == old(currentSchedule)
                                   && r.error.Runtime? && r.error.cause.IndexOutOfBounds?
                                   && r.error == Rethrown(CONSTRAINED_FAILED, r.error.cause)
                                   && exists j :: 0 <= j < |ms| && GroupFails(|Group(ms, ms[j].date)|, maxMatchesPerDay) &&
                                                  r.error.cause == IndexOutOfBounds(-1, |Group(ms, ms[j].date)|))
                && (r.Success? ==> && fresh(r.value) && currentSchedule == r.value
                                   && r.value.season == season && |r.value.matches| == |ms|
                                   && forall j :: 0 <= j < |ms| ==> r.value.matches[j] == Redistributed(ms, maxMatchesPerDay, j))
    {
      var teams := teamService.GetAllTeams();
      if |teams.items| < 2 {
        return Failure(IllegalState(TOO_FEW_TEAMS));
      }
      var generated := ScheduleGenerator.GenerateConstrainedSchedule(teams, season, startDate, maxMatchesPerDay);
      if generated.Failure? {
        return Failure(Rethrown(CONSTRAINED_FAILED, generated.error));
      }
      currentSchedule := generated.value;
      return generated;
    }

    /** saveSchedule: refused without a schedule; otherwise whatever the file writer reports. */
    function SaveSchedule(written: bool): (r: Result<bool>)
      reads this
      ensures currentSchedule == null <==> r == Failure(IllegalState(NO_SCHEDULE_TO_SAVE))
      ensures currentSchedule != null ==> r == Success(written)
    {
      if currentSchedule == null then Failure(IllegalState(NO_SCHEDULE_TO_SAVE)) else Success(written)
    }

    /** exportScheduleToText: refused without a schedule; otherwise whatever the file writer reports. */
    function ExportScheduleToText(written: bool): (r: Result<bool>)
      reads this
      ensures currentSchedule == null <==> r == Failure(IllegalState(NO_SCHEDULE_TO_EXPORT))
      ensures currentSchedule != null ==> r == Success(written)
    {
      if currentSchedule == null then Failure(IllegalState(NO_SCHEDULE_TO_EXPORT)) else Success(written)
    }

    /** loadSchedule: whatever the loader returns, null included, becomes the current schedule. */
    method LoadSchedule(loaded: Schedule?) returns (r: Schedule?)
      modifies this
      ensures currentSchedule == loaded && r == loaded
    {
      currentSchedule := loaded;
      return currentSchedule;
    }

    /** clearSchedule. */
    method ClearSchedule()
      modifies this
      ensures currentSchedule == null
    {
      currentSchedule := null;
    }

    /** getScheduleStatistics: None stands for "No schedule available". */
    function ScheduleStatistics(): (r: Option<ScheduleStats>)
      reads this, currentSchedule
      ensures r.None? <==> currentSchedule == null
      ensures r.Some? ==> (r.value.NoMatchesScheduled? <==> currentSchedule.matches == [])
      ensures r.Some? && r.value.Summary? ==> r.value.totalMatches == |currentSchedule.matches|
    {
      if currentSchedule == null then None else Some(currentSchedule.Stats())
    }

    /**
     * getMatchesForTeam: an illegal-state error without a schedule, an invalid-argument error
     * naming the team when no roster team has the name ignoring case; otherwise the matches of
     * the first such team.
     */
    function MatchesForTeam(teamName: Option<string>): (r: Result<seq<Match>>)
      reads this, currentSchedule, teamService
      ensures currentSchedule == null ==> r == Failure(IllegalState(NO_SCHEDULE))
      ensures currentSchedule != null && (Unusable(teamName) || !HasTeamNamed(teamService.teams, teamName.value)) ==>
                r == Failure(IllegalArgument(TEAM_NOT_FOUND + ShownName(teamName)))
      ensures r.Success? ==>
                exists k :: (0 <= k < |teamService.teams| &&
                             EqualsIgnoreCase(teamService.teams[k].name, teamName.value) &&
                             r.value == Filter(currentSchedule.matches, InvolvesTeam(teamService.teams[k])))
      ensures currentSchedule != null && !Unusable(teamName) && HasTeamNamed(teamService.teams, teamName.value) ==> r.Success?
    {
      if currentSchedule == null then Failure(IllegalState(NO_SCHEDULE))
      else
        var team := teamService.GetTeamByName(teamName);
        if team.None? then Failure(IllegalArgument(TEAM_NOT_FOUND + ShownName(teamName)))
        else Success(currentSchedule.MatchesForTeam(team.value))
    }

    /**
     * getMatchesOnDate: an illegal-state error without a schedule, an invalid-argument error when
     * the text is not an ISO date (None is what the parser made of it); otherwise that day's matches.
     */
    function MatchesOnDate(parsed: Option<int>): (r: Result<seq<Match>>)
      reads this, currentSchedule
      ensures currentSchedule == null ==> r == Failure(IllegalState(NO_SCHEDULE))
      ensures currentSchedule != null && parsed.None? ==> r == Failure(IllegalArgument(INVALID_DATE))
      ensures r.Success? ==> parsed.Some? && forall m :: m in r.value <==> m in currentSchedule.matches && m.date == parsed.value
      ensures currentSchedule != null && parsed.Some? ==> r.Success?
    {
      if currentSchedule == null then Failure(IllegalState(NO_SCHEDULE))
      else if parsed.None? then Failure(IllegalArgument(INVALID_DATE))
      else Success(currentSchedule.MatchesOnDate(parsed.value))
    }

    /** checkScheduleFairness: None stands for "No schedule available"; otherwise one entry per roster team, in roster order. */
    method CheckScheduleFairness() returns (r: Option<seq<FairnessEntry>>)
      ensures currentSchedule == null <==> r.None?
      ensures r.Some? ==> |r.value| == |teamService.teams|
      ensures r.Some? ==> forall i :: 0 <= i < |r.value| ==> r.value[i] == FairnessOf(currentSchedule.matches, teamService.teams[i])
    {
      if currentSchedule == null {
        return None;
      }
      var teams := teamService.GetAllTeams();
      var report: seq<FairnessEntry> := [];
      var k := 0;
      while k < |teams.items|
        invariant 0 <= k <= |teams.items| && teams.items == teamService.teams
        invariant |report| == k
        invariant forall i :: 0 <= i < k ==> report[i] == FairnessOf(currentSchedule.matches, teams.items[i])
      {
        var entry := TeamFairness(currentSchedule, teams.items[k]);
        report := report + [entry];
        k := k + 1;
      }
      return Some(report);
    }

    /** validateSchedule: None stands for "No schedule available"; otherwise the issues, and it passes iff there are none. */
    method ValidateSchedule() returns (r: Option<seq<Issue>>)
      ensures currentSchedule == null <==> r.None?
      ensures r.Some? ==> r.value == ValidationIssues(currentSchedule.matches, teamService.teams)
    {
      if currentSchedule == null {
        return None;
      }
      var teams := teamService.GetAllTeams();
      var issues := MatchCountIssues(currentSchedule, teams.items, |teams.items| - 1);
      var sortedMatches := currentSchedule.MatchesSortedByDate();
      var dateIssues := DateConflictIssues(sortedMatches);
      issues := issues + dateIssues;
      return Some(issues);
    }
  }

  /** The first loop of validateSchedule: one issue per team whose match count is not `expected`. */
  method MatchCountIssues(schedule: Schedule, teams: seq<Team>, expected: int) returns (issues: seq<Issue>)
    ensures issues == CountIssues(schedule.matches, teams, expected)
  {
    issues := [];
    var k := 0;
    while k < |teams|
      invariant 0 <= k <= |teams|
      invariant issues == CountIssues(schedule.matches, teams[..k], expected)
    {
      var team := teams[k];
      var actualMatches := |schedule.MatchesForTeam(team)|;
      CountIssuesStep(schedule.matches, teams, k, expected);
      if actualMatches != expected {
        issues := issues + [WrongMatchCount(team.name, actualMatches, expected)];
      }
      k := k + 1;
    }
    assert teams[..k] == teams;
  }

  lemma CountIssuesStep(ms: seq<Match>, teams: seq<Team>, k: int, expected: int)
    requires 0 <= k < |teams|
    ensures CountIssues(ms, teams[..k + 1], expected) == CountIssues(ms, teams[..k], expected) + TeamIssue(ms, teams[k], expected)
  {
    assert teams[..k + 1][..k] == teams[..k];
  }

  /** The body of the loop of checkScheduleFairness: one team's counts and whether it plays on consecutive days. */
  method TeamFairness(schedule: Schedule, team: Team) returns (entry: FairnessEntry)
    ensures entry == FairnessOf(schedule.matches, team)
  {
    var teamMatches := schedule.MatchesForTeam(team);
    var homeMatches := |Filter(teamMatches, HomeAt(team))|;
    var awayMatches := |teamMatches| - homeMatches;
    var hasConsecutive := schedule.HasConsecutiveMatches(team, 1);
    entry := FairnessEntry(team.name, |teamMatches|, homeMatches, awayMatches, hasConsecutive);
  }

  /** The second loop of validateSchedule: one issue per neighbouring pair of the sorted list on the same date. */
  method DateConflictIssues(sortedMatches: seq<Match>) returns (issues: seq<Issue>)
    ensures issues == DateIssuesUpTo(sortedMatches, PairCount(sortedMatches))
  {
    issues := [];
    var i := 0;
    while i < |sortedMatches| - 1
      invariant 0 <= i <= PairCount(sortedMatches)
      invariant issues == DateIssuesUpTo(sortedMatches, i)
    {
      if sortedMatches[i].date == sortedMatches[i + 1].date {
        issues := issues + [MultipleMatchesOn(sortedMatches[i].date)];
      }
      i := i + 1;
    }
  }

  /** A new service, once it generates a schedule, passes validation with no issues. */
  lemma DefaultScheduleValid(start: int)
    ensures ValidationIssues(GeneratedMatches(DefaultTeams(), start), DefaultTeams()) == []
  {
    DefaultRosterProper();
    GeneratedPassesValidation(DefaultTeams(), start);
  }
}
