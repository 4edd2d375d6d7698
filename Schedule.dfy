/** A season's match list and the queries over it (model/Schedule.java). */
module Schedules {
  import opened Seqs
  import opened Teams
  import opened Venues
  import opened Matches

  /** The filters of getMatchesForTeam, getMatchesOnDate and getMatchesAtVenue. */
  function InvolvesTeam(t: Team): Match -> bool { (m: Match) => Involves(m, t) }
  function OnDate(d: int): Match -> bool { (m: Match) => m.date == d }
  function AtVenue(v: Venue): Match -> bool { (m: Match) => SameVenue(m.venue, v) }

  /** Non-decreasing by date. */
  ghost predicate SortedByDate(ms: seq<Match>)
  {
    forall i, j :: 0 <= i < j < |ms| ==> ms[i].date <= ms[j].date
  }

  /** Inserts `m` in front of the first match not earlier than it. */
  function InsertByDate(m: Match, s: seq<Match>): (r: seq<Match>)
    ensures multiset(r) == multiset(s) + multiset{m}
  {
    if s == [] then [m]
    else if m.date <= s[0].date then [m] + s
    else
      assert s == [s[0]] + s[1..];
      [s[0]] + InsertByDate(m, s[1..])
  }

  lemma {:induction false} InsertByDateSorted(m: Match, s: seq<Match>)
    requires SortedByDate(s)
    ensures SortedByDate(InsertByDate(m, s))
  {
    if s != [] && m.date > s[0].date {
      InsertByDateSorted(m, s[1..]);
      var rest := InsertByDate(m, s[1..]);
      assert s == [s[0]] + s[1..];
      forall i | 0 <= i < |rest|
        ensures s[0].date <= rest[i].date
      {
        assert rest[i] in multiset(rest);
        if rest[i] != m {
          assert rest[i] in multiset(s[1..]);
        }
      }
      assert InsertByDate(m, s) == [s[0]] + rest;
    }
  }

  /** Only `m` is added to the matches of its own date, and it comes first among them. */
  lemma {:induction false} InsertByDateOnDate(m: Match, s: seq<Match>, d: int)
    ensures Filter(InsertByDate(m, s), OnDate(d)) ==
            if m.date == d then [m] + Filter(s, OnDate(d)) else Filter(s, OnDate(d))
  {
    if s == [] {
      FilterSingleton(m, OnDate(d));
    } else if m.date <= s[0].date {
      FilterConcat([m], s, OnDate(d));
      FilterSingleton(m, OnDate(d));
    } else {
      InsertByDateOnDate(m, s[1..], d);
      FilterConcat([s[0]], InsertByDate(m, s[1..]), OnDate(d));
      FilterSingleton(s[0], OnDate(d));
      if m.date == d {
        FilterNone([s[0]], OnDate(d));
      }
    }
  }

  /**
   * The stable sort of getMatchesSortedByDate (Java's list sort is stable):
   * a permutation, non-decreasing by date, and on each date the matches keep their order.
   */
  function SortByDate(ms: seq<Match>): (r: seq<Match>)
    ensures multiset(r) == multiset(ms) && |r| == |ms|
    ensures SortedByDate(r)
  {
    if ms == [] then []
    else
      assert ms == [ms[0]] + ms[1..];
      InsertByDateSorted(ms[0], SortByDate(ms[1..]));
      InsertByDate(ms[0], SortByDate(ms[1..]))
  }

  /** Stability: on every date, the sorted list holds that date's matches in their original order. */
  lemma {:induction false} SortByDateStable(ms: seq<Match>, d: int)
    ensures Filter(SortByDate(ms), OnDate(d)) == Filter(ms, OnDate(d))
  {
    if ms != [] {
      SortByDateStable(ms[1..], d);
      InsertByDateOnDate(ms[0], SortByDate(ms[1..]), d);
      FilterConcat([ms[0]], ms[1..], OnDate(d));
      FilterSingleton(ms[0], OnDate(d));
      assert ms == [ms[0]] + ms[1..];
    }
  }

  /** Some adjacent pair of `s` is at most `maxDays` days apart. */
  predicate HasGapWithin(s: seq<Match>, maxDays: int)
  {
    exists i :: 0 <= i < |s| - 1 && s[i + 1].date - s[i].date <= maxDays
  }

  /** A match with the earliest date, and one with the latest. */
  function EarliestIndex(ms: seq<Match>): (k: nat)
    requires ms != []
    ensures k < |ms| && forall j :: 0 <= j < |ms| ==> ms[k].date <= ms[j].date
  {
    if |ms| == 1 then 0
    else
      var k := EarliestIndex(ms[..|ms| - 1]);
      if ms[|ms| - 1].date < ms[k].date then |ms| - 1 else k
  }

  function LatestIndex(ms: seq<Match>): (k: nat)
    requires ms != []
    ensures k < |ms| && forall j :: 0 <= j < |ms| ==> ms[j].date <= ms[k].date
  {
    if |ms| == 1 then 0
    else
      var k := LatestIndex(ms[..|ms| - 1]);
      if ms[|ms| - 1].date > ms[k].date then |ms| - 1 else k
  }

  /** getScheduleStats as data: either "No matches scheduled" or season, count and duration. */
  datatype ScheduleStats = NoMatchesScheduled | Summary(season: string, totalMatches: nat, durationDays: int)

  class Schedule {
    var season: string
    var matches: seq<Match>

    constructor (season: string)
      ensures this.season == season && matches == []
    {
      this.season := season;
      matches := [];
    }

    /** addMatch: appends; the season and the earlier matches are untouched. */
    method AddMatch(m: Match)
      modifies this
      ensures matches == old(matches) + [m] && season == old(season)
      ensures forall t :: MatchesForTeam(t) == old(MatchesForTeam(t)) + (if Involves(m, t) then [m] else [])
    {
      matches := matches + [m];
      forall t ensures MatchesForTeam(t) == old(MatchesForTeam(t)) + (if Involves(m, t) then [m] else []) {
        FilterSnoc(old(matches), m, InvolvesTeam(t));
      }
    }

    /** getTotalMatches. */
    function TotalMatches(): (n: nat)
      reads this
      ensures n == |matches|
    {
      |matches|
    }

    /** getMatchesForTeam: the matches where team1 or team2 equals `team`, in insertion order. */
    function MatchesForTeam(team: Team): (r: seq<Match>)
      reads this
      ensures forall m :: m in r <==> m in matches && Involves(m, team)
    {
      Filter(matches, InvolvesTeam(team))
    }

    /** getMatchesOnDate: the matches on `date`, in insertion order. */
    function MatchesOnDate(date: int): (r: seq<Match>)
      reads this
      ensures forall m :: m in r <==> m in matches && m.date == date
    {
      Filter(matches, OnDate(date))
    }

    /** getMatchesAtVenue: the matches at a venue of the same name, in insertion order. */
    function MatchesAtVenue(venue: Venue): (r: seq<Match>)
      reads this
      ensures forall m :: m in r <==> m in matches && m.venue.name == venue.name
    {
      Filter(matches, AtVenue(venue))
    }

    /** getMatchesSortedByDate. */
    function MatchesSortedByDate(): (r: seq<Match>)
      reads this
      ensures multiset(r) == multiset(matches) && SortedByDate(r)
      ensures forall d :: Filter(r, OnDate(d)) == Filter(matches, OnDate(d))
    {
      var r := SortByDate(matches);
      forall d ensures Filter(r, OnDate(d)) == Filter(matches, OnDate(d)) {
        SortByDateStable(matches, d);
      }
      r
    }

    /**
     * hasConsecutiveMatches: sorts a copy of the team's matches by date and reports whether
     * two neighbours in that order are at most `maxDays` apart.
     */
    method HasConsecutiveMatches(team: Team, maxDays: int) returns (b: bool)
      ensures b <==> HasGapWithin(SortByDate(MatchesForTeam(team)), maxDays)
      ensures |MatchesForTeam(team)| < 2 ==> !b
    {
      var teamMatches := SortByDate(MatchesForTeam(team));
      var i := 0;
      while i < |teamMatches| - 1
        invariant 0 <= i <= if |teamMatches| == 0 then 0 else |teamMatches| - 1
        invariant forall j :: 0 <= j < i ==> teamMatches[j + 1].date - teamMatches[j].date > maxDays
      {
        var daysBetween := teamMatches[i + 1].date - teamMatches[i].date;
        if daysBetween <= maxDays {
          return true;
        }
        i := i + 1;
      }
      return false;
    }

    /** getScheduleStats: the duration is the span from the earliest to the latest date, inclusive. */
    function Stats(): (r: ScheduleStats)
      reads this
      ensures r.NoMatchesScheduled? <==> matches == []
      ensures r.Summary? ==> r.season == season && r.totalMatches == |matches| && r.durationDays >= 1
      ensures r.Summary? ==> forall i, j :: 0 <= i < |matches| && 0 <= j < |matches| ==>
                                matches[j].date - matches[i].date + 1 <= r.durationDays
      ensures r.Summary? ==> exists i, j :: 0 <= i < |matches| && 0 <= j < |matches| &&
                                matches[j].date - matches[i].date + 1 == r.durationDays
    {
      if matches == [] then NoMatchesScheduled
      else
        var lo := EarliestIndex(matches);
        var hi := LatestIndex(matches);
        Summary(season, |matches|, matches[hi].date - matches[lo].date + 1)
    }
  }
}
