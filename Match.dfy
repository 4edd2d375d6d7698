/** A scheduled match (model/Match.java). */
module Matches {
  import opened Wrappers
  import opened Teams
  import opened Venues

  /** The match-type labels the generator writes. */
  const HOME: string := "Home"
  const AWAY: string := "Away"
  const NEUTRAL: string := "Neutral"

  /**
   * A match record. Dates are day numbers. The only field the core rewrites
   * after creation is `date` (through setDate); that rewrite is `WithDate`.
   */
  datatype Match = Match(team1: Team, team2: Team, venue: Venue, date: int, matchType: string, matchNumber: int)

  /** isHomeMatch: the venue's name is the team's home-venue string. */
  predicate IsHomeMatch(m: Match, t: Team)
  {
    m.venue.name == t.homeVenue
  }

  /** The filter of Schedule.getMatchesForTeam: one of the two teams equals `t`. */
  predicate Involves(m: Match, t: Team)
  {
    SameTeam(m.team1, t) || SameTeam(m.team2, t)
  }

  /** getOpponent: team2 for team1, team1 for team2, null (None) for anybody else. */
  function Opponent(m: Match, t: Team): (r: Option<Team>)
    ensures r.Some? <==> Involves(m, t)
    ensures r.Some? && SameTeam(t, m.team1) ==> r.value == m.team2
    ensures r.Some? && !SameTeam(t, m.team1) ==> r.value == m.team1 && SameTeam(t, m.team2)
  {
    if SameTeam(t, m.team1) then Some(m.team2)
    else if SameTeam(t, m.team2) then Some(m.team1)
    else None
  }

  /** setDate: the match with its date replaced. */
  function WithDate(m: Match, d: int): (r: Match)
    ensures r.date == d
    ensures r.team1 == m.team1 && r.team2 == m.team2 && r.venue == m.venue
    ensures r.matchType == m.matchType && r.matchNumber == m.matchNumber
  {
    m.(date := d)
  }

  /** In a match between two differently named teams, each team's opponent is the other one. */
  lemma OpponentIsTheOtherTeam(m: Match)
    requires m.team1.name != m.team2.name
    ensures Opponent(m, m.team1) == Some(m.team2)
    ensures Opponent(m, m.team2) == Some(m.team1)
  {
  }

  /** Whether a match is a home match for `t` does not depend on where `t` stands nor on the label. */
  lemma HomeMatchIgnoresOrderAndLabel(m: Match, t: Team, newType: string)
    ensures IsHomeMatch(m, t) == IsHomeMatch(m.(team1 := m.team2, team2 := m.team1), t)
    ensures IsHomeMatch(m, t) == IsHomeMatch(m.(matchType := newType), t)
  {
  }
}
