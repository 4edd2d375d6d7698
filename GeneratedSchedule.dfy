/**
 * What ScheduleGenerator.generateSchedule delivers for a roster of two or more distinctly
 * named teams, none named like the placeholder: N(N-1)/2 matches, every pair of teams once,
 * N-1 matches per team, dates two days apart, a venue one of the two teams calls home, and
 * what the per-day cap then does to those dates.
 */
module GeneratedSchedules {
  import opened JavaText
  import opened Seqs
  import opened Teams
  import opened Venues
  import opened Matches
  import opened Schedules
  import opened RoundRobin
  import opened Redistribution
  import opened ScheduleGenerator

  /** The unordered pair of teams a match plays. */
  function Pairing(m: Match): set<Team> { {m.team1, m.team2} }

  /**
   * Generated match k plays fixture k of the round robin: two different roster teams, at a
   * venue of the venue list named after one of their home venues, on day start + 2k, as match
   * number k + 1. The "Neutral" label and the fallback to the first venue never occur.
   */
  lemma GeneratedMatchAt(teams: seq<Team>, start: int, k: int) returns (a: int, b: int)
    requires ProperRoster(teams) && 0 <= k < |GeneratedMatches(teams, start)|
    ensures 0 <= a < |teams| && 0 <= b < |teams| && a != b
    ensures var m := GeneratedMatches(teams, start)[k];
            && m.team1 == teams[a] && m.team2 == teams[b]
            && m.date == start + 2 * k && m.matchNumber == k + 1
            && m.venue in VenuesOf(teams)
            && (m.venue.name == teams[a].homeVenue || m.venue.name == teams[b].homeVenue)
            && m.matchType != NEUTRAL
  {
    var fs := RoundRobinFixtures(teams);
    var venues := VenuesOf(teams);
    a, b := RoundRobinFixtureIsProper(teams, k);
    DatedMatchAt(fs, venues, start, k);
    HomeVenuesCovered(teams);
    assert teams[a].homeVenue in VenueNames(venues);
  }

  /** A generated schedule has N(N-1)/2 matches. */
  lemma GeneratedSize(teams: seq<Team>, start: int)
    requires ProperRoster(teams)
    ensures |GeneratedMatches(teams, start)| == |teams| * (|teams| - 1) / 2
  {
    RoundRobinSize(teams);
  }

  /** Match k is dated start + 2k. */
  predicate SpacedDates(ms: seq<Match>, start: int)
  {
    forall k :: 0 <= k < |ms| ==> ms[k].date == start + DAYS_BETWEEN_MATCHES * k
  }

  /** Generated dates start at the start date and advance two days a match. */
  lemma GeneratedDatesSpaced(teams: seq<Team>, start: int)
    requires |teams| >= 2
    ensures SpacedDates(GeneratedMatches(teams, start), start)
  {
    var fs := RoundRobinFixtures(teams);
    forall k | 0 <= k < |fs|
      ensures GeneratedMatches(teams, start)[k].date == start + DAYS_BETWEEN_MATCHES * k
    {
      DatedMatchAt(fs, VenuesOf(teams), start, k);
    }
  }

  /** No two matches share a date. */
  predicate DistinctDates(ms: seq<Match>)
  {
    forall i, j :: 0 <= i < j < |ms| ==> ms[i].date != ms[j].date
  }

  /** Spaced dates are pairwise at least two days apart, so in particular distinct. */
  lemma SpacedDatesApart(ms: seq<Match>, start: int, i: int, j: int)
    requires SpacedDates(ms, start) && 0 <= i < |ms| && 0 <= j < |ms| && i != j
    ensures ms[i].date - ms[j].date >= 2 || ms[j].date - ms[i].date >= 2
  {
  }

  lemma SpacedDatesDistinct(ms: seq<Match>, start: int)
    requires SpacedDates(ms, start)
    ensures DistinctDates(ms)
  {
    forall i, j | 0 <= i < j < |ms|
      ensures ms[i].date != ms[j].date
    {
      SpacedDatesApart(ms, start, i, j);
    }
  }

  // ---------------------------------------------------------------------------
  // Who plays whom

  /** Each roster team appears in N-1 generated matches. */
  lemma GeneratedTeamCount(teams: seq<Team>, start: int, x: int)
    requires ProperRoster(teams) && 0 <= x < |teams|
    ensures |Filter(GeneratedMatches(teams, start), InvolvesTeam(teams[x]))| == |teams| - 1
  {
    var fs := RoundRobinFixtures(teams);
    var ms := GeneratedMatches(teams, start);
    forall k | 0 <= k < |ms|
      ensures InvolvesTeam(teams[x])(ms[k]) == FixtureInvolves(teams[x])(fs[k])
    {
      DatedMatchAt(fs, VenuesOf(teams), start, k);
    }
    FilterLengthTransfer(ms, fs, InvolvesTeam(teams[x]), FixtureInvolves(teams[x]));
    RoundRobinTeamCount(teams, x);
  }

  /** Two different roster teams meet in exactly one generated match. */
  lemma GeneratedPairOnce(teams: seq<Team>, start: int, a: int, b: int) returns (k: int)
    requires ProperRoster(teams) && 0 <= a < |teams| && 0 <= b < |teams| && a != b
    ensures 0 <= k < |GeneratedMatches(teams, start)|
    ensures Pairing(GeneratedMatches(teams, start)[k]) == {teams[a], teams[b]}
    ensures forall k' :: (0 <= k' < |GeneratedMatches(teams, start)| &&
                          Pairing(GeneratedMatches(teams, start)[k']) == {teams[a], teams[b]}) ==> k' == k
  {
    var fs := RoundRobinFixtures(teams);
    var venues := VenuesOf(teams);
    k := RoundRobinCoversEveryPair(teams, a, b);
    RoundRobinNoPairTwice(teams);
    DatedMatchAt(fs, venues, start, k);
    forall k' | 0 <= k' < |fs| && Pairing(GeneratedMatches(teams, start)[k']) == {teams[a], teams[b]}
      ensures k' == k
    {
      DatedMatchAt(fs, venues, start, k');
    }
  }

  // ---------------------------------------------------------------------------
  // Who hosts

  /** No two teams share a home venue (the default roster's case). */
  predicate DistinctHomeVenues(teams: seq<Team>)
  {
    forall i, j :: 0 <= i < j < |teams| ==> teams[i].homeVenue != teams[j].homeVenue
  }

  /** With distinct home venues, venue k is team k's home venue. */
  lemma {:induction false} VenuesOfDistinctHomes(teams: seq<Team>)
    requires DistinctHomeVenues(teams)
    ensures |VenuesOf(teams)| == |teams|
    ensures forall k :: 0 <= k < |teams| ==> VenuesOf(teams)[k] == HomeVenueOf(teams[k])
  {
    if teams != [] {
      var front := teams[..|teams| - 1];
      assert forall k :: 0 <= k < |front| ==> front[k] == teams[k];
      VenuesOfDistinctHomes(front);
      var vs := VenuesOf(front);
      var t := teams[|teams| - 1];
      assert forall k :: 0 <= k < |vs| ==> vs[k].name != t.homeVenue;
      assert t.homeVenue !in VenueNames(vs);
    }
  }

  /**
   * With distinct home venues, of the two teams of a generated match the one earlier in the
   * roster always hosts: the match is at its home venue, labelled "Home" when it is team1 and
   * "Away" when it is team2.
   */
  lemma GeneratedHost(teams: seq<Team>, start: int, k: int) returns (a: int, b: int)
    requires ProperRoster(teams) && DistinctHomeVenues(teams) && 0 <= k < |GeneratedMatches(teams, start)|
    ensures 0 <= a < |teams| && 0 <= b < |teams| && a != b
    ensures var m := GeneratedMatches(teams, start)[k];
            && m.team1 == teams[a] && m.team2 == teams[b]
            && m.venue == HomeVenueOf(teams[if a < b then a else b])
            && m.matchType == if a < b then HOME else AWAY
  {
    var fs := RoundRobinFixtures(teams);
    var venues := VenuesOf(teams);
    a, b := GeneratedMatchAt(teams, start, k);
    DatedMatchAt(fs, venues, start, k);
    VenuesOfDistinctHomes(teams);
    var lo := if a < b then a else b;
    assert CanHost(venues[lo], fs[k]);
  }

  /** A match of team t at t's home venue: what the fairness report counts as home. */
  function HomeGame(t: Team): Match -> bool
  {
    (m: Match) => Involves(m, t) && IsHomeMatch(m, t)
  }

  /** A match between x and y. */
  function Against(x: Team, y: Team): Match -> bool
  {
    (m: Match) => Pairing(m) == {x, y}
  }

  /** A match between roster team j and a team at an index in (j, hi). */
  function AgainstLater(teams: seq<Team>, j: int, hi: int): Match -> bool
  {
    (m: Match) => exists b :: j < b < hi && 0 <= j && b < |teams| && Pairing(m) == {teams[j], teams[b]}
  }

  /** Equal pairs of roster teams are pairs of the same indices. */
  lemma PairingIndices(teams: seq<Team>, a: int, b: int, c: int, d: int)
    requires DistinctNames(teams) && 0 <= a < |teams| && 0 <= b < |teams| && 0 <= c < |teams| && 0 <= d < |teams|
    requires a != b && {teams[a], teams[b]} == {teams[c], teams[d]}
    ensures (a == c && b == d) || (a == d && b == c)
  {
    assert teams[c] in {teams[a], teams[b]} && teams[d] in {teams[a], teams[b]};
    assert teams[a] in {teams[c], teams[d]} && teams[b] in {teams[c], teams[d]};
  }

  /** Widening the index range by hi adds the matches against team hi, which were not in it. */
  lemma AgainstLaterStep(teams: seq<Team>, j: int, hi: int, m: Match)
    requires DistinctNames(teams) && 0 <= j < hi < |teams|
    ensures AgainstLater(teams, j, hi + 1)(m) == (AgainstLater(teams, j, hi)(m) || Against(teams[j], teams[hi])(m))
    ensures !(AgainstLater(teams, j, hi)(m) && Against(teams[j], teams[hi])(m))
  {
    if AgainstLater(teams, j, hi)(m) && Against(teams[j], teams[hi])(m) {
      var b :| j < b < hi && Pairing(m) == {teams[j], teams[b]};
      PairingIndices(teams, j, b, j, hi);
    }
  }

  /** Meeting each later team once, team j meets the teams at indices (j, hi) in hi - j - 1 matches. */
  lemma {:induction false} AgainstLaterCount(ms: seq<Match>, teams: seq<Team>, j: int, hi: int)
    requires DistinctNames(teams) && 0 <= j < hi <= |teams|
    requires forall b :: j < b < |teams| ==> |Filter(ms, Against(teams[j], teams[b]))| == 1
    ensures |Filter(ms, AgainstLater(teams, j, hi))| == hi - j - 1
  {
    if hi == j + 1 {
      FilterNone(ms, AgainstLater(teams, j, j + 1));
    } else {
      AgainstLaterCount(ms, teams, j, hi - 1);
      AgainstLaterGrow(ms, teams, j, hi - 1);
    }
  }

  /** Team j's matches against teams in (j, hi] are those against (j, hi) and those against team hi. */
  lemma AgainstLaterGrow(ms: seq<Match>, teams: seq<Team>, j: int, hi: int)
    requires DistinctNames(teams) && 0 <= j < hi < |teams|
    ensures |Filter(ms, AgainstLater(teams, j, hi + 1))| ==
            |Filter(ms, AgainstLater(teams, j, hi))| + |Filter(ms, Against(teams[j], teams[hi]))|
  {
    forall i | 0 <= i < |ms|
      ensures AgainstLater(teams, j, hi + 1)(ms[i]) ==
                (AgainstLater(teams, j, hi)(ms[i]) || Against(teams[j], teams[hi])(ms[i]))
      ensures !(AgainstLater(teams, j, hi)(ms[i]) && Against(teams[j], teams[hi])(ms[i]))
    {
      AgainstLaterStep(teams, j, hi, ms[i]);
    }
    FilterDisjointUnion(ms, AgainstLater(teams, j, hi), Against(teams[j], teams[hi]), AgainstLater(teams, j, hi + 1));
  }

  /** Two different roster teams meet once. */
  lemma AgainstOnce(teams: seq<Team>, start: int, a: int, b: int)
    requires ProperRoster(teams) && 0 <= a < |teams| && 0 <= b < |teams| && a != b
    ensures |Filter(GeneratedMatches(teams, start), Against(teams[a], teams[b]))| == 1
  {
    var k := GeneratedPairOnce(teams, start, a, b);
    FilterUnique(GeneratedMatches(teams, start), Against(teams[a], teams[b]), k);
  }

  /** With distinct home venues, a generated match is a home match of team j iff it is against a later team. */
  lemma HomeGameIsAgainstLater(teams: seq<Team>, start: int, j: int, k: int)
    requires ProperRoster(teams) && DistinctHomeVenues(teams) && 0 <= j < |teams|
    requires 0 <= k < |GeneratedMatches(teams, start)|
    ensures HomeGame(teams[j])(GeneratedMatches(teams, start)[k]) ==
            AgainstLater(teams, j, |teams|)(GeneratedMatches(teams, start)[k])
  {
    var a, b := GeneratedHost(teams, start, k);
    HostedByEarlier(teams, j, a, b, GeneratedMatches(teams, start)[k]);
  }

  /** A match hosted by the earlier of two roster teams is a home match of team j iff j is that team. */
  lemma HostedByEarlier(teams: seq<Team>, j: int, a: int, b: int, m: Match)
    requires DistinctNames(teams) && DistinctHomeVenues(teams) && 0 <= j < |teams|
    requires 0 <= a < |teams| && 0 <= b < |teams| && a != b
    requires m.team1 == teams[a] && m.team2 == teams[b] && m.venue == HomeVenueOf(teams[if a < b then a else b])
    ensures HomeGame(teams[j])(m) == AgainstLater(teams, j, |teams|)(m)
  {
    if AgainstLater(teams, j, |teams|)(m) {
      var c :| j < c < |teams| && Pairing(m) == {teams[j], teams[c]};
      PairingIndices(teams, a, b, j, c);
    }
    if a < b && a == j {
      assert Pairing(m) == {teams[j], teams[b]};
    } else if b < a && b == j {
      assert Pairing(m) == {teams[j], teams[a]};
    }
  }

  /**
   * With distinct home venues the team at roster index j is at home in N-1-j generated matches:
   * the first team never plays away and the last never at home.
   */
  lemma GeneratedHomeCount(teams: seq<Team>, start: int, j: int)
    requires ProperRoster(teams) && DistinctHomeVenues(teams) && 0 <= j < |teams|
    ensures |Filter(GeneratedMatches(teams, start), HomeGame(teams[j]))| == |teams| - 1 - j
  {
    var ms := GeneratedMatches(teams, start);
    forall k | 0 <= k < |ms|
      ensures HomeGame(teams[j])(ms[k]) == AgainstLater(teams, j, |teams|)(ms[k])
    {
      HomeGameIsAgainstLater(teams, start, j, k);
    }
    FilterCongruent(ms, HomeGame(teams[j]), AgainstLater(teams, j, |teams|));
    forall b | j < b < |teams|
      ensures |Filter(ms, Against(teams[j], teams[b]))| == 1
    {
      AgainstOnce(teams, start, j, b);
    }
    AgainstLaterCount(ms, teams, j, |teams|);
  }

  // ---------------------------------------------------------------------------
  // Two days apart

  /** A match found at one index only occurs once. */
  lemma OccursOnce(ms: seq<Match>, k: int)
    requires 0 <= k < |ms| && forall i :: 0 <= i < |ms| && i != k ==> ms[i] != ms[k]
    ensures multiset(ms)[ms[k]] == 1
  {
    assert ms == ms[..k] + [ms[k]] + ms[k + 1..];
    assert ms[k] !in ms[..k] && ms[k] !in ms[k + 1..];
  }

  /** Where match x sits in ms. */
  lemma {:induction false} IndexOf(ms: seq<Match>, x: Match) returns (k: int)
    requires x in ms
    ensures 0 <= k < |ms| && ms[k] == x
  {
    if ms[0] == x {
      k := 0;
    } else {
      k := IndexOf(ms[1..], x);
      k := k + 1;
    }
  }

  /**
   * Neighbours in a date-sorted selection from spaced matches are at least two days apart:
   * they are different matches of the list, as no match occurs in it twice.
   */
  lemma AdjacentApart(ms: seq<Match>, start: int, s: seq<Match>, i: int)
    requires SpacedDates(ms, start) && SortedByDate(s)
    requires forall x :: multiset(s)[x] <= multiset(ms)[x]
    requires 0 <= i < |s| - 1
    ensures s[i + 1].date - s[i].date >= 2
  {
    assert multiset(s)[s[i]] > 0 && multiset(s)[s[i + 1]] > 0;
    var k1 := IndexOf(ms, s[i]);
    var k2 := IndexOf(ms, s[i + 1]);
    if k1 == k2 {
      assert s == s[..i] + [s[i], s[i + 1]] + s[i + 2..];
      assert multiset(s)[s[i]] >= 2;
      forall j | 0 <= j < |ms| && j != k1
        ensures ms[j] != ms[k1]
      {
        SpacedDatesApart(ms, start, j, k1);
      }
      OccursOnce(ms, k1);
    } else {
      SpacedDatesApart(ms, start, k1, k2);
    }
  }

  lemma SortedSelectionApart(ms: seq<Match>, start: int, s: seq<Match>)
    requires SpacedDates(ms, start) && SortedByDate(s)
    requires forall x :: multiset(s)[x] <= multiset(ms)[x]
    ensures forall i :: 0 <= i < |s| - 1 ==> s[i + 1].date - s[i].date >= 2
  {
    forall i | 0 <= i < |s| - 1
      ensures s[i + 1].date - s[i].date >= 2
    {
      AdjacentApart(ms, start, s, i);
    }
  }

  /**
   * No team has two generated matches a day or less apart, so hasConsecutiveMatches(team, 1)
   * is false for every team, as the two-day spacing of generateSchedule intends.
   */
  lemma GeneratedNoConsecutive(teams: seq<Team>, start: int, t: Team)
    requires |teams| >= 2
    ensures !HasGapWithin(SortByDate(Filter(GeneratedMatches(teams, start), InvolvesTeam(t))), 1)
  {
    var ms := GeneratedMatches(teams, start);
    var own := Filter(ms, InvolvesTeam(t));
    GeneratedDatesSpaced(teams, start);
    FilterMultiset(ms, InvolvesTeam(t));
    SortedSelectionApart(ms, start, SortByDate(own));
  }

  /** In the date-sorted generated list no two neighbours share a date. */
  lemma GeneratedSortedDatesDistinct(teams: seq<Team>, start: int)
    requires |teams| >= 2
    ensures var s := SortByDate(GeneratedMatches(teams, start));
            forall i :: 0 <= i < |s| - 1 ==> s[i].date != s[i + 1].date
  {
    var ms := GeneratedMatches(teams, start);
    GeneratedDatesSpaced(teams, start);
    SortedSelectionApart(ms, start, SortByDate(ms));
  }

  // ---------------------------------------------------------------------------
  // The per-day cap on a generated schedule

  /** With distinct dates, the group of match j's date below k is j alone, once j is below k. */
  lemma {:induction false} SingletonIndices(ms: seq<Match>, k: nat, j: int)
    requires DistinctDates(ms) && k <= |ms| && 0 <= j < |ms|
    ensures IndicesOn(ms, k, ms[j].date) == if j < k then [j] else []
  {
    if k > 0 {
      SingletonIndices(ms, k - 1, j);
      assert ms[k - 1].date == ms[j].date ==> k - 1 == j;
    }
  }

  /** With distinct dates, every date group is a single match, first in its group. */
  lemma SingletonGroup(ms: seq<Match>, j: int)
    requires DistinctDates(ms) && 0 <= j < |ms|
    ensures Group(ms, ms[j].date) == [j] && Rank(ms, j) == 0
  {
    SingletonIndices(ms, |ms|, j);
    SingletonIndices(ms, j, j);
  }

  /**
   * A group of one fails exactly when the cap lies in [INT_MIN + 2, -1]: there 1 - cap is an
   * int above 1, while for the two lowest caps 1 - cap wraps round to a negative int.
   */
  lemma SingleFails(cap: int)
    requires INT_MIN <= cap <= INT_MAX
    ensures GroupFails(1, cap) <==> INT_MIN + 2 <= cap <= -1
  {
    if cap < INT_MIN + 2 {
      assert WrapInt(1 - cap) < 0;
    }
  }

  /**
   * With distinct dates the cap moves match j one day on when it is 0, and otherwise leaves
   * it alone (a cap in [INT_MIN + 2, -1] fails instead).
   */
  lemma SingletonRedistributed(ms: seq<Match>, cap: int, j: int)
    requires DistinctDates(ms) && 0 <= j < |ms| && INT_MIN <= cap <= INT_MAX
    requires !GroupFails(1, cap)
    ensures Redistributed(ms, cap, j) == if cap == 0 then WithDate(ms[j], ms[j].date + 1) else ms[j]
  {
    SingletonGroup(ms, j);
    SingleFails(cap);
    if cap < INT_MIN + 2 {
      assert WrapInt(1 - cap) < 0;
    }
  }

  /** On distinct dates the post-pass fails exactly for a non-empty list and a cap in [INT_MIN + 2, -1]. */
  lemma SingletonGroupsFail(ms: seq<Match>, cap: int)
    requires DistinctDates(ms) && INT_MIN <= cap <= INT_MAX
    ensures AnyGroupFails(ms, cap) <==> ms != [] && INT_MIN + 2 <= cap <= -1
  {
    SingleFails(cap);
    if ms != [] {
      SingletonGroup(ms, 0);
    }
    forall j | 0 <= j < |ms|
      ensures |Group(ms, ms[j].date)| == 1
    {
      SingletonGroup(ms, j);
    }
  }

  /**
   * generateConstrainedSchedule on a proper roster: a cap of at least 1 changes nothing, a cap
   * of 0 puts every match one day later, a cap in [INT_MIN + 2, -1] ends in the index error,
   * and the two lowest caps change nothing.
   */
  lemma ConstrainedOutcome(teams: seq<Team>, start: int, cap: int, j: int)
    requires ProperRoster(teams) && INT_MIN <= cap <= INT_MAX
    requires 0 <= j < |GeneratedMatches(teams, start)|
    ensures var ms := GeneratedMatches(teams, start);
            && (AnyGroupFails(ms, cap) <==> INT_MIN + 2 <= cap <= -1)
            && (!AnyGroupFails(ms, cap) ==>
                  Redistributed(ms, cap, j) == if cap == 0 then WithDate(ms[j], ms[j].date + 1) else ms[j])
  {
    var ms := GeneratedMatches(teams, start);
    GeneratedDatesSpaced(teams, start);
    SpacedDatesDistinct(ms, start);
    SingletonGroupsFail(ms, cap);
    SingleFails(cap);
    if !GroupFails(1, cap) {
      SingletonRedistributed(ms, cap, j);
    }
  }
}
