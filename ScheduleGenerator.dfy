/**
 * util/ScheduleGenerator.java: the circle-method fixture list built in place on the caller's
 * team list, venues and match labels, date assignment, and the per-day cap post-pass.
 */
module ScheduleGenerator {
  import opened Wrappers
  import opened JavaText
  import opened Seqs
  import opened Teams
  import opened Venues
  import opened Matches
  import opened Schedules
  import opened RoundRobin
  import opened Redistribution

  /** The capacity every generated venue gets. */
  const VENUE_CAPACITY: int := 50000

  /** Days between consecutive generated matches. */
  const DAYS_BETWEEN_MATCHES: int := 2

  const TOO_FEW_TEAMS: string := "At least 2 teams are required to generate a schedule"

  // ---------------------------------------------------------------------------
  // rotateTeams and generateRoundRobinFixtures

  /** rotateTeams: remove the last entry and insert it at index 1; lists of two or fewer stay put. */
  method RotateTeams(teams: TeamList)
    modifies teams
    ensures teams.items == Rotate(old(teams.items))
  {
    if |teams.items| <= 2 {
      return;
    }
    var lastTeam := teams.items[|teams.items| - 1];
    teams.items := teams.items[..|teams.items| - 1];
    teams.items := teams.items[..1] + [lastTeam] + teams.items[1..];
  }

  /**
   * generateRoundRobinFixtures: pads an odd list with the placeholder, emits slot i against
   * slot n-1-i round by round while rotating the list in place, then removes every entry
   * named like the placeholder. The fixtures are RoundRobinFixtures of the list as given,
   * and the list ends up as it started, less any placeholder-named entries.
   */
  method GenerateRoundRobinFixtures(teams: TeamList) returns (fixtures: seq<Fixture>)
    modifies teams
    ensures fixtures == RoundRobinFixtures(old(teams.items))
    ensures teams.items == Filter(old(teams.items), NotBye)
  {
    ghost var original := teams.items;
    ghost var w := Padded(teams.items);
    var numTeams := |teams.items|;
    if numTeams % 2 == 1 {
      teams.items := teams.items + [ByeTeam];
      numTeams := numTeams + 1;
    }
    assert teams.items == w;
    var round;
    fixtures, round := PlayRounds(teams, numTeams);
    FullTurnRestores(original, teams.items, round);
    if |teams.items| > numTeams - 1 {
      teams.items := Filter(teams.items, NotBye);
    }
  }

  /**
   * The outer loop of generateRoundRobinFixtures on the padded list: numTeams - 1 rounds,
   * each paired and then rotated in place.
   */
  method PlayRounds(teams: TeamList, numTeams: int) returns (fixtures: seq<Fixture>, round: nat)
    requires numTeams == |teams.items|
    modifies teams
    ensures round == if numTeams == 0 then 0 else numTeams - 1
    ensures fixtures == Rounds(old(teams.items), round)
    ensures teams.items == RotateN(old(teams.items), round)
  {
    ghost var w := teams.items;
    fixtures := [];
    round := 0;
    while round < numTeams - 1
      invariant |teams.items| == numTeams
      invariant 0 <= round <= if numTeams == 0 then 0 else numTeams - 1
      invariant teams.items == RotateN(w, round)
      invariant fixtures == Rounds(w, round)
    {
      fixtures := PairRound(fixtures, teams.items);
      RotateTeams(teams);
      round := round + 1;
    }
  }

  /** After the last round the working list, less placeholder-named entries, is the roster less them. */
  lemma FullTurnRestores(original: seq<Team>, last: seq<Team>, round: nat)
    requires round == if |Padded(original)| == 0 then 0 else |Padded(original)| - 1
    requires last == RotateN(Padded(original), round)
    ensures Filter(last, NotBye) == Filter(original, NotBye)
  {
    RosterRestored(original);
  }

  /**
   * The inner loop of generateRoundRobinFixtures: slot i of the current list against slot
   * n-1-i for i below n/2, skipping any slot where either side is named like the placeholder.
   */
  method PairRound(fixtures0: seq<Fixture>, current: seq<Team>) returns (fixtures: seq<Fixture>)
    ensures fixtures == fixtures0 + Round(current)
  {
    fixtures := fixtures0;
    var numTeams := |current|;
    var i := 0;
    while i < numTeams / 2
      invariant 0 <= i <= numTeams / 2
      invariant fixtures == fixtures0 + RoundPrefix(current, i)
    {
      var team1Index := i;
      var team2Index := numTeams - 1 - i;
      if current[team1Index].name != BYE && current[team2Index].name != BYE {
        fixtures := fixtures + [Fixture(current[team1Index], current[team2Index])];
      }
      i := i + 1;
    }
  }

  // ---------------------------------------------------------------------------
  // createVenuesFromTeams

  function VenueNames(vs: seq<Venue>): set<string>
  {
    set v | v in vs :: v.name
  }

  /** The venue createVenuesFromTeams makes for a team. */
  function HomeVenueOf(t: Team): Venue
  {
    Venue(t.homeVenue, t.city, VENUE_CAPACITY)
  }

  /** Team j is the first of the list with its home venue. */
  predicate FirstWithHomeVenue(teams: seq<Team>, j: int)
    requires 0 <= j < |teams|
  {
    forall i :: 0 <= i < j ==> teams[i].homeVenue != teams[j].homeVenue
  }

  /**
   * The venue list of createVenuesFromTeams: one venue per distinct home-venue string, in
   * order of first appearance.
   */
  function VenuesOf(teams: seq<Team>): (vs: seq<Venue>)
    ensures |vs| <= |teams| && (teams != [] ==> vs != [])
  {
    if teams == [] then []
    else
      var vs := VenuesOf(teams[..|teams| - 1]);
      var t := teams[|teams| - 1];
      if t.homeVenue in VenueNames(vs) then vs else vs + [HomeVenueOf(t)]
  }

  /** No two venues createVenuesFromTeams makes share a name. */
  lemma {:induction false} VenueNamesDistinct(teams: seq<Team>)
    ensures forall i, j :: 0 <= i < j < |VenuesOf(teams)| ==> VenuesOf(teams)[i].name != VenuesOf(teams)[j].name
  {
    if teams != [] {
      var front := teams[..|teams| - 1];
      VenueNamesDistinct(front);
      var vs := VenuesOf(front);
      var t := teams[|teams| - 1];
      if t.homeVenue !in VenueNames(vs) {
        var r := vs + [HomeVenueOf(t)];
        forall i, j | 0 <= i < j < |r|
          ensures r[i].name != r[j].name
        {
          if j == |vs| {
            assert r[i] == vs[i] && vs[i] in vs && r[j] == HomeVenueOf(t);
            assert r[i].name in VenueNames(vs);
          } else {
            assert r[i] == vs[i] && r[j] == vs[j];
          }
        }
      }
    }
  }

  /** Every team's home venue is among the venues. */
  lemma {:induction false} HomeVenuesCovered(teams: seq<Team>)
    ensures forall j :: 0 <= j < |teams| ==> teams[j].homeVenue in VenueNames(VenuesOf(teams))
  {
    if teams != [] {
      var front := teams[..|teams| - 1];
      HomeVenuesCovered(front);
      assert forall j :: 0 <= j < |front| ==> teams[j] == front[j];
    }
  }

  /** Each venue is the venue of the first team with that home venue: named after it, in its city. */
  lemma {:induction false} VenueOwner(teams: seq<Team>, k: int) returns (j: int)
    requires 0 <= k < |VenuesOf(teams)|
    ensures 0 <= j < |teams| && FirstWithHomeVenue(teams, j) && VenuesOf(teams)[k] == HomeVenueOf(teams[j])
  {
    var front := teams[..|teams| - 1];
    var vs := VenuesOf(front);
    var t := teams[|teams| - 1];
    if k < |vs| {
      j := VenueOwner(front, k);
      assert forall i :: 0 <= i <= j ==> teams[i] == front[i];
    } else {
      j := |teams| - 1;
      HomeVenuesCovered(front);
      assert forall i :: 0 <= i < |front| ==> teams[i] == front[i];
    }
  }

  /** createVenuesFromTeams: a loop over the teams, remembering the venue names already made. */
  method CreateVenuesFromTeams(teams: seq<Team>) returns (venues: seq<Venue>)
    ensures venues == VenuesOf(teams)
  {
    venues := [];
    var venueNames: set<string> := {};
    var k := 0;
    while k < |teams|
      invariant 0 <= k <= |teams|
      invariant venues == VenuesOf(teams[..k]) && venueNames == VenueNames(venues)
    {
      var team := teams[k];
      var venueName := team.homeVenue;
      assert teams[..k + 1][..k] == teams[..k];
      if venueName !in venueNames {
        venues := venues + [Venue(venueName, team.city, VENUE_CAPACITY)];
        venueNames := venueNames + {venueName};
      }
      k := k + 1;
    }
    assert teams[..k] == teams;
  }

  // ---------------------------------------------------------------------------
  // findBestVenue and determineMatchType

  /** A venue named after either team's home venue. */
  predicate CanHost(v: Venue, f: Fixture)
  {
    v.name == f.team1.homeVenue || v.name == f.team2.homeVenue
  }

  /** The index of the first venue that can host `f`, or |venues| when none can. */
  function FirstHost(f: Fixture, venues: seq<Venue>): (k: nat)
    ensures k <= |venues|
    ensures forall j :: 0 <= j < k ==> !CanHost(venues[j], f)
    ensures k < |venues| ==> CanHost(venues[k], f)
  {
    if venues == [] then 0
    else if CanHost(venues[0], f) then 0
    else 1 + FirstHost(f, venues[1..])
  }

  /**
   * findBestVenue: the first venue in list order named after either team's home venue;
   * failing that, the first venue of the list.
   */
  function FindBestVenue(f: Fixture, venues: seq<Venue>): (v: Venue)
    requires venues != []
    ensures v in venues
    ensures CanHost(v, f) <==> exists u :: u in venues && CanHost(u, f)
    ensures CanHost(v, f) ==> exists k :: 0 <= k < |venues| && venues[k] == v &&
                                (forall j :: 0 <= j < k ==> !CanHost(venues[j], f))
    ensures !CanHost(v, f) ==> v == venues[0]
  {
    var k := FirstHost(f, venues);
    if k < |venues| then venues[k] else venues[0]
  }

  /** determineMatchType: "Home" for team1's venue, else "Away" for team2's, else "Neutral". */
  function DetermineMatchType(f: Fixture, venue: Venue): (matchType: string)
    ensures matchType == HOME <==> venue.name == f.team1.homeVenue
    ensures matchType == AWAY <==> venue.name != f.team1.homeVenue && venue.name == f.team2.homeVenue
    ensures matchType == NEUTRAL <==> !CanHost(venue, f)
  {
    if venue.name == f.team1.homeVenue then HOME
    else if venue.name == f.team2.homeVenue then AWAY
    else NEUTRAL
  }

  // ---------------------------------------------------------------------------
  // generateSchedule

  /** The match generateSchedule makes of fixture `f`. */
  function MatchFor(f: Fixture, venues: seq<Venue>, date: int, number: int): Match
    requires venues != []
  {
    var v := FindBestVenue(f, venues);
    Match(f.team1, f.team2, v, date, DetermineMatchType(f, v), number)
  }

  /** Fixture k of `fs` becomes match k+1, dated start + 2k. */
  function DatedMatches(fs: seq<Fixture>, venues: seq<Venue>, start: int): (ms: seq<Match>)
    requires venues != []
    ensures |ms| == |fs|
  {
    if fs == [] then []
    else
      var k := |fs| - 1;
      DatedMatches(fs[..k], venues, start) + [MatchFor(fs[k], venues, start + DAYS_BETWEEN_MATCHES * k, k + 1)]
  }

  /** Match k of DatedMatches is fixture k at its venue, on day start + 2k, numbered k+1. */
  lemma {:induction false} DatedMatchAt(fs: seq<Fixture>, venues: seq<Venue>, start: int, k: int)
    requires venues != [] && 0 <= k < |fs|
    ensures DatedMatches(fs, venues, start)[k] == MatchFor(fs[k], venues, start + DAYS_BETWEEN_MATCHES * k, k + 1)
    decreases |fs|
  {
    if k < |fs| - 1 {
      DatedMatchAt(fs[..|fs| - 1], venues, start, k);
    }
  }

  /** The matches of generateSchedule. */
  function GeneratedMatches(teams: seq<Team>, start: int): seq<Match>
    requires |teams| >= 2
  {
    DatedMatches(RoundRobinFixtures(teams), VenuesOf(teams), start)
  }

  /**
   * generateSchedule: rejects a null or too short list with an invalid-argument error and
   * leaves it alone; otherwise returns a new schedule holding GeneratedMatches, and the
   * caller's list is left without placeholder-named entries (see GenerateRoundRobinFixtures).
   */
  method GenerateSchedule(teams: TeamList?, season: string, startDate: int) returns (r: Result<Schedule>)
    modifies teams
    ensures teams == null ==> r == Failure(IllegalArgument(TOO_FEW_TEAMS))
    ensures teams != null && |old(teams.items)| < 2 ==>
              r == Failure(IllegalArgument(TOO_FEW_TEAMS)) && teams.items == old(teams.items)
    ensures teams != null && |old(teams.items)| >= 2 ==>
              && r.Success? && fresh(r.value)
              && r.value.season == season
              && r.value.matches == GeneratedMatches(old(teams.items), startDate)
              && teams.items == Filter(old(teams.items), NotBye)
  {
    if teams == null || |teams.items| < 2 {
      return Failure(IllegalArgument(TOO_FEW_TEAMS));
    }
    ghost var original := teams.items;
    var schedule := new Schedule(season);
    var venues := CreateVenuesFromTeams(teams.items);
    var fixtures := GenerateRoundRobinFixtures(teams);
    var currentDate := startDate;
    var matchNumber := 1;
    var k := 0;
    while k < |fixtures|
      invariant 0 <= k <= |fixtures|
      invariant currentDate == startDate + DAYS_BETWEEN_MATCHES * k && matchNumber == k + 1
      invariant schedule.matches == DatedMatches(fixtures[..k], venues, startDate) && schedule.season == season
      invariant teams.items == Filter(original, NotBye)
    {
      var fixture := fixtures[k];
      var venue := FindBestVenue(fixture, venues);
      var matchType := DetermineMatchType(fixture, venue);
      var newMatch := Match(fixture.team1, fixture.team2, venue, currentDate, matchType, matchNumber);
      matchNumber := matchNumber + 1;
      TakeOfTake(fixtures, k);
      schedule.AddMatch(newMatch);
      currentDate := currentDate + DAYS_BETWEEN_MATCHES;
      k := k + 1;
    }
    assert fixtures[..k] == fixtures;
    return Success(schedule);
  }

  // ---------------------------------------------------------------------------
  // generateConstrainedSchedule and redistributeMatches

  /**
   * generateConstrainedSchedule: generateSchedule, then the per-day cap applied to the new
   * schedule (LimitMatchesPerDay). An index error from redistributeMatches propagates, and the
   * schedule is then dropped.
   */
  method GenerateConstrainedSchedule(teams: TeamList?, season: string, startDate: int, maxMatchesPerDay: int)
    returns (r: Result<Schedule>)
    requires INT_MIN <= maxMatchesPerDay <= INT_MAX
    modifies teams
    ensures teams == null ==> r == Failure(IllegalArgument(TOO_FEW_TEAMS))
    ensures teams != null && |old(teams.items)| < 2 ==>
              r == Failure(IllegalArgument(TOO_FEW_TEAMS)) && teams.items == old(teams.items)
    ensures teams != null && |old(teams.items)| >= 2 ==>
              var ms := GeneratedMatches(old(teams.items), startDate);
              && teams.items == Filter(old(teams.items), NotBye)
              && (r.Success? <==> !AnyGroupFails(ms, maxMatchesPerDay))
              && (r.Failure? ==> exists j :: 0 <= j < |ms| && GroupFails(|Group(ms, ms[j].date)|, maxMatchesPerDay) &&
                                              r.error == IndexOutOfBounds(-1, |Group(ms, ms[j].date)|))
              && (r.Success? ==> && fresh(r.value) && r.value.season == season && |r.value.matches| == |ms|
                                 && forall j :: 0 <= j < |ms| ==> r.value.matches[j] == Redistributed(ms, maxMatchesPerDay, j))
  {
    var generated := GenerateSchedule(teams, season, startDate);
    if generated.Failure? {
      return generated;
    }
    var schedule := generated.value;
    var thrown := LimitMatchesPerDay(schedule, maxMatchesPerDay);
    if thrown.Some? {
      return Failure(thrown.value);
    }
    return Success(schedule);
  }

  /** The grouping loop of limitMatchesPerDay: the indices of the matches on each date, and the dates in order of first appearance. */
  method GroupByDate(ms: seq<Match>) returns (matchesByDate: map<int, seq<nat>>, dateOrder: seq<int>)
    ensures matchesByDate == GroupsOf(ms, |ms|) && dateOrder == DatesOf(ms, |ms|)
  {
    matchesByDate := map[];
    dateOrder := [];
    var k := 0;
    while k < |ms|
      invariant 0 <= k <= |ms|
      invariant matchesByDate == GroupsOf(ms, k) && dateOrder == DatesOf(ms, k)
    {
      var date := ms[k].date;
      // computeIfAbsent(date, new list).add(match)
      dateOrder := if date in matchesByDate then dateOrder else dateOrder + [date];
      var group := if date in matchesByDate then matchesByDate[date] else [];
      matchesByDate := matchesByDate[date := group + [k]];
      k := k + 1;
    }
  }

  /**
   * The post-pass of generateConstrainedSchedule: the matches grouped by date in list order,
   * then every group larger than the cap redistributed. The date map's iteration order is left
   * open: the groups are disjoint, so without an error the outcome does not depend on it; with
   * one, the schedule is dropped and only the length in the error could.
   */
  method LimitMatchesPerDay(schedule: Schedule, maxMatchesPerDay: int) returns (thrown: Option<Exception>)
    requires INT_MIN <= maxMatchesPerDay <= INT_MAX
    modifies schedule
    ensures schedule.season == old(schedule.season) && |schedule.matches| == old(|schedule.matches|)
    ensures thrown.None? <==> !AnyGroupFails(old(schedule.matches), maxMatchesPerDay)
    ensures thrown.Some? ==>
              var ms := old(schedule.matches);
              exists j :: 0 <= j < |ms| && GroupFails(|Group(ms, ms[j].date)|, maxMatchesPerDay) &&
                          thrown.value == IndexOutOfBounds(-1, |Group(ms, ms[j].date)|)
    ensures thrown.None? ==>
              forall j :: 0 <= j < |schedule.matches| ==>
                schedule.matches[j] == Redistributed(old(schedule.matches), maxMatchesPerDay, j)
  {
    ghost var ms := schedule.matches;
    var matchesByDate, dateOrder := GroupByDate(schedule.matches);
    PartlyRedistributedStart(ms, maxMatchesPerDay);

    var n := 0;
    while n < |dateOrder|
      invariant 0 <= n <= |dateOrder|
      invariant schedule.season == old(schedule.season)
      invariant PartlyRedistributed(ms, maxMatchesPerDay, schedule.matches, dateOrder[n..])
      invariant HandledWithoutFailure(ms, maxMatchesPerDay, dateOrder, n)
    {
      DateOrderAt(ms, n);
      var date := dateOrder[n];
      var group := matchesByDate[date];
      thrown := LimitDay(ms, maxMatchesPerDay, schedule, dateOrder, n, group);
      if thrown.Some? {
        ghost var j := group[0];
        assert 0 <= j < |ms| && ms[j].date == date;
        return;
      }
      HandledStep(ms, maxMatchesPerDay, dateOrder, n, group);
      n := n + 1;
    }
    PartlyRedistributedDone(ms, maxMatchesPerDay, schedule.matches, dateOrder, n);
    return None;
  }

  /** One entry of the loop over the date map: an oversized group is redistributed. */
  method LimitDay(ghost ms: seq<Match>, maxMatchesPerDay: int, schedule: Schedule, order: seq<int>, n: nat,
                  group: seq<nat>)
    returns (thrown: Option<Exception>)
    requires INT_MIN <= maxMatchesPerDay <= INT_MAX
    requires order == DatesOf(ms, |ms|) && n < |order| && group == Group(ms, order[n])
    requires group != [] && order[n] !in order[n + 1..]
    requires PartlyRedistributed(ms, maxMatchesPerDay, schedule.matches, order[n..])
    modifies schedule
    ensures schedule.season == old(schedule.season) && |schedule.matches| == old(|schedule.matches|)
    ensures thrown.None? <==> !GroupFails(|group|, maxMatchesPerDay)
    ensures thrown.Some? ==> thrown.value == IndexOutOfBounds(-1, |group|)
    ensures thrown.None? ==> PartlyRedistributed(ms, maxMatchesPerDay, schedule.matches, order[n + 1..])
  {
    var date := order[n];
    if |group| > maxMatchesPerDay {
      ghost var before := schedule.matches;
      thrown := RedistributeMatches(group, date, maxMatchesPerDay, schedule);
      if thrown.Some? {
        assert GroupFails(|group|, maxMatchesPerDay);
        return;
      }
      assert !GroupFails(|group|, maxMatchesPerDay);
      OversizedGroupStep(ms, maxMatchesPerDay, before, schedule.matches, order, n, group, date);
    } else {
      thrown := None;
      assert !GroupFails(|group|, maxMatchesPerDay);
      SmallGroupStep(ms, maxMatchesPerDay, schedule.matches, order, n);
    }
  }

  /**
   * redistributeMatches: for i below size - cap (Java int subtraction), the member at position
   * size-1-i of the group is moved to originalDate + 1 + i. Match.setDate changes the match
   * the schedule holds, so the group holds positions in the schedule's list. A negative
   * position ends the loop with the list's index error, after every member has been moved.
   */
  method RedistributeMatches(matches: seq<nat>, originalDate: int, maxMatchesPerDay: int, schedule: Schedule)
    returns (thrown: Option<Exception>)
    requires forall q :: 0 <= q < |matches| ==> matches[q] < |schedule.matches|
    requires forall q1, q2 :: 0 <= q1 < q2 < |matches| ==> matches[q1] != matches[q2]
    modifies schedule
    ensures thrown.Some? <==> WrapInt(|matches| - maxMatchesPerDay) > |matches|
    ensures thrown.Some? ==> thrown.value == IndexOutOfBounds(-1, |matches|)
    ensures schedule.season == old(schedule.season) && |schedule.matches| == old(|schedule.matches|)
    ensures forall q :: 0 <= q < |matches| ==>
              schedule.matches[matches[q]] ==
                if |matches| - 1 - q < WrapInt(|matches| - maxMatchesPerDay)
                then WithDate(old(schedule.matches[matches[q]]), originalDate + |matches| - q)
                else old(schedule.matches[matches[q]])
    ensures forall j :: 0 <= j < |schedule.matches| && j !in matches ==> schedule.matches[j] == old(schedule.matches[j])
  {
    var extraMatches := WrapInt(|matches| - maxMatchesPerDay);
    var newDate := originalDate + 1;
    var i := 0;
    while i < extraMatches
      invariant 0 <= i <= |matches| && (extraMatches < 0 ==> i == 0) && (extraMatches >= 0 ==> i <= extraMatches)
      invariant newDate == originalDate + 1 + i
      invariant schedule.season == old(schedule.season) && |schedule.matches| == old(|schedule.matches|)
      invariant forall q :: 0 <= q < |matches| ==>
                  schedule.matches[matches[q]] ==
                    if |matches| - 1 - q < i
                    then WithDate(old(schedule.matches[matches[q]]), originalDate + |matches| - q)
                    else old(schedule.matches[matches[q]])
      invariant forall j :: 0 <= j < |schedule.matches| && j !in matches ==> schedule.matches[j] == old(schedule.matches[j])
    {
      var index := |matches| - 1 - i;
      if index < 0 {
        return Some(IndexOutOfBounds(index, |matches|));
      }
      var m := matches[index];
      schedule.matches := schedule.matches[m := WithDate(schedule.matches[m], newDate)];
      newDate := newDate + 1;
      i := i + 1;
    }
    return None;
  }
}
