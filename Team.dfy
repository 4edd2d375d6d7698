/** An IPL team (model/Team.java) and the caller-owned list of teams the generator mutates. */
module Teams {
  import JavaText

  /** A team record; no code of the core calls its setters, so it is a value. */
  datatype Team = Team(name: string, city: string, captain: string, homeVenue: string)

  /** Team.equals: two teams are equal iff their names are equal, case-sensitively. */
  predicate SameTeam(a: Team, b: Team)
  {
    a.name == b.name
  }

  /** Team.hashCode: the hash of the name. */
  function TeamHash(t: Team): int
  {
    JavaText.StringHash(t.name)
  }

  /** equals is an equivalence that ignores city, captain and home venue. */
  lemma SameTeamIsEquivalence(a: Team, b: Team, c: Team)
    ensures SameTeam(a, a)
    ensures SameTeam(a, b) ==> SameTeam(b, a)
    ensures SameTeam(a, b) && SameTeam(b, c) ==> SameTeam(a, c)
    ensures SameTeam(a, b) <==> SameTeam(a.(city := b.city, captain := b.captain, homeVenue := b.homeVenue), b)
  {
  }

  /** Equal teams have equal hash codes. */
  lemma EqualTeamsHashAlike(a: Team, b: Team)
    requires SameTeam(a, b)
    ensures TeamHash(a) == TeamHash(b)
  {
  }

  /** A java.util.List<Team> owned by a caller; the schedule generator changes it in place. */
  class TeamList {
    var items: seq<Team>

    constructor (items: seq<Team>)
      ensures this.items == items
    {
      this.items := items;
    }
  }
}
