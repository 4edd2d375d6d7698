/**
 * service/TeamService.java: the roster, a list of teams whose names the service keeps
 * distinct ignoring case, with lookups by name and by city.
 */
module TeamServices {
  import opened Wrappers
  import opened JavaText
  import opened Seqs
  import opened Teams
  import opened RoundRobin

  /** The ten teams a new service starts with, in this order. */
  function DefaultTeams(): (ts: seq<Team>)
    ensures |ts| == 10
  {
    [ Team("Mumbai Indians", "Mumbai", "Hardik Pandya", "Wankhede Stadium"),
      Team("Chennai Super Kings", "Chennai", "MS Dhoni", "M.A. Chidambaram Stadium"),
      Team("Royal Challengers Bangalore", "Bangalore", "Faf du Plessis", "M. Chinnaswamy Stadium"),
      Team("Kolkata Knight Riders", "Kolkata", "Shreyas Iyer", "Eden Gardens"),
      Team("Delhi Capitals", "Delhi", "Rishabh Pant", "Arun Jaitley Stadium"),
      Team("Punjab Kings", "Mohali", "Shikhar Dhawan", "IS Bindra Stadium"),
      Team("Rajasthan Royals", "Jaipur", "Sanju Samson", "Sawai Mansingh Stadium"),
      Team("Sunrisers Hyderabad", "Hyderabad", "Pat Cummins", "Rajiv Gandhi Stadium"),
      Team("Gujarat Titans", "Ahmedabad", "Shubman Gill", "Narendra Modi Stadium"),
      Team("Lucknow Super Giants", "Lucknow", "KL Rahul", "BRSABV Ekana Stadium") ]
  }

  /** No two names of the roster are equal ignoring case. */
  predicate NamesDistinctIgnoringCase(ts: seq<Team>)
  {
    forall i, j :: 0 <= i < j < |ts| ==> !EqualsIgnoreCase(ts[i].name, ts[j].name)
  }

  /** Some team of the roster has `name`, ignoring case. */
  predicate HasTeamNamed(ts: seq<Team>, name: string)
  {
    exists i :: 0 <= i < |ts| && EqualsIgnoreCase(ts[i].name, name)
  }

  /** The filter of removeIf and getTeamByName. */
  function NamedIgnoringCase(name: string): Team -> bool
  {
    (t: Team) => EqualsIgnoreCase(t.name, name)
  }

  function NotNamedIgnoringCase(name: string): Team -> bool
  {
    (t: Team) => !EqualsIgnoreCase(t.name, name)
  }

  /** The filter of getTeamsByCity. */
  function InCityIgnoringCase(city: string): Team -> bool
  {
    (t: Team) => EqualsIgnoreCase(t.city, city)
  }

  /** An argument every lookup turns away: null, or nothing but blanks. */
  predicate Unusable(s: Option<string>)
  {
    s.None? || IsBlank(s.value)
  }

  /** The position of the first team named `name` ignoring case, or |ts| when none is. */
  function FirstNamed(ts: seq<Team>, name: string): (k: nat)
    ensures k <= |ts|
    ensures forall i :: 0 <= i < k ==> !EqualsIgnoreCase(ts[i].name, name)
    ensures k < |ts| ==> EqualsIgnoreCase(ts[k].name, name)
  {
    if ts == [] then 0
    else if EqualsIgnoreCase(ts[0].name, name) then 0
    else 1 + FirstNamed(ts[1..], name)
  }

  // ---------------------------------------------------------------------------
  // The roster invariant

  /** Appending a team whose name no roster team has keeps the names distinct. */
  lemma AddKeepsDistinct(ts: seq<Team>, t: Team)
    requires NamesDistinctIgnoringCase(ts) && !HasTeamNamed(ts, t.name)
    ensures NamesDistinctIgnoringCase(ts + [t])
  {
  }

  /** Removing teams keeps the names distinct. */
  lemma {:induction false} FilterKeepsDistinct(ts: seq<Team>, p: Team -> bool)
    requires NamesDistinctIgnoringCase(ts)
    ensures NamesDistinctIgnoringCase(Filter(ts, p))
  {
    if ts != [] {
      FilterKeepsDistinct(ts[1..], p);
      var rest := Filter(ts[1..], p);
      if p(ts[0]) {
        var r := [ts[0]] + rest;
        forall i, j | 0 <= i < j < |r|
          ensures !EqualsIgnoreCase(r[i].name, r[j].name)
        {
          if i == 0 {
            assert r[j] in ts[1..];
            var k :| 0 <= k < |ts[1..]| && ts[1..][k] == r[j];
            assert ts[k + 1] == r[j];
          } else {
            assert r[i] == rest[i - 1] && r[j] == rest[j - 1];
          }
        }
      }
    }
  }

  /** Names distinct ignoring case are distinct. */
  lemma DistinctIgnoringCaseIsDistinct(ts: seq<Team>)
    requires NamesDistinctIgnoringCase(ts)
    ensures DistinctNames(ts)
  {
    forall i, j | 0 <= i < j < |ts|
      ensures ts[i].name != ts[j].name
    {
      EqualsIgnoreCaseIsEquivalence(ts[i].name, ts[j].name, ts[j].name);
    }
  }

  /** removeIf drops something exactly when some team has the name. */
  lemma {:induction false} FilterDropsNamed(ts: seq<Team>, name: string)
    ensures |Filter(ts, NotNamedIgnoringCase(name))| < |ts| <==> HasTeamNamed(ts, name)
  {
    if ts != [] {
      FilterDropsNamed(ts[1..], name);
      if HasTeamNamed(ts[1..], name) {
        var i :| 0 <= i < |ts[1..]| && EqualsIgnoreCase(ts[1..][i].name, name);
        assert EqualsIgnoreCase(ts[i + 1].name, name);
      }
      if HasTeamNamed(ts, name) && !EqualsIgnoreCase(ts[0].name, name) {
        var i :| 0 <= i < |ts| && EqualsIgnoreCase(ts[i].name, name);
        assert EqualsIgnoreCase(ts[1..][i - 1].name, name);
      }
    }
  }

  /** After removal no team has the name; a team just added has it. */
  lemma RemovedIsGone(ts: seq<Team>, name: string)
    ensures !HasTeamNamed(Filter(ts, NotNamedIgnoringCase(name)), name)
  {
    var r := Filter(ts, NotNamedIgnoringCase(name));
    forall i | 0 <= i < |r|
      ensures !EqualsIgnoreCase(r[i].name, name)
    {
      assert r[i] in r;
    }
  }

  lemma AddedIsPresent(ts: seq<Team>, t: Team)
    ensures HasTeamNamed(ts + [t], t.name)
  {
    EqualsIgnoreCaseIsEquivalence(t.name, t.name, t.name);
    assert (ts + [t])[|ts|] == t;
  }

  // ---------------------------------------------------------------------------
  // The default roster

  /**
   * A cheap fingerprint of a string: its length and its first letter folded to lower
   * case. Strings with different fingerprints are different, even ignoring case.
   */
  function Fingerprint(s: string): (int, char)
  {
    if s == [] then (0, ' ') else (|s|, LowerAscii(s[0]))
  }

  lemma FingerprintsDiffer(a: string, b: string)
    ensures Fingerprint(a) != Fingerprint(b) ==> !EqualsIgnoreCase(a, b) && a != b
  {
  }

  const NAME_PRINTS: seq<(int, char)> :=
    [(14, 'm'), (19, 'c'), (27, 'r'), (21, 'k'), (14, 'd'), (12, 'p'), (16, 'r'), (19, 's'), (14, 'g'), (20, 'l')]
  const CITY_PRINTS: seq<(int, char)> :=
    [(6, 'm'), (7, 'c'), (9, 'b'), (7, 'k'), (5, 'd'), (6, 'm'), (6, 'j'), (9, 'h'), (9, 'a'), (7, 'l')]
  const VENUE_PRINTS: seq<(int, char)> :=
    [(16, 'w'), (24, 'm'), (22, 'm'), (12, 'e'), (20, 'a'), (17, 'i'), (22, 's'), (20, 'r'), (21, 'n'), (20, 'b')]

  lemma DefaultNamePrints()
    ensures forall k :: 0 <= k < 10 ==> Fingerprint(DefaultTeams()[k].name) == NAME_PRINTS[k]
  {
  }

  lemma DefaultCityPrints()
    ensures forall k :: 0 <= k < 10 ==> Fingerprint(DefaultTeams()[k].city) == CITY_PRINTS[k]
  {
  }

  lemma DefaultVenuePrints()
    ensures forall k :: 0 <= k < 10 ==> Fingerprint(DefaultTeams()[k].homeVenue) == VENUE_PRINTS[k]
  {
  }

  /** Fingerprints that are pairwise different: every pair of strings carrying them differs. */
  predicate PrintsApart(prints: seq<(int, char)>)
  {
    forall i, j :: 0 <= i < j < |prints| ==> prints[i] != prints[j]
  }

  lemma NamePrintsApart()
    ensures PrintsApart(NAME_PRINTS)
  {
  }

  lemma VenuePrintsApart()
    ensures PrintsApart(VENUE_PRINTS)
  {
  }

  /** The default names are distinct ignoring case. */
  lemma DefaultNamesDistinct()
    ensures NamesDistinctIgnoringCase(DefaultTeams())
  {
    var ts := DefaultTeams();
    DefaultNamePrints();
    NamePrintsApart();
    forall i, j | 0 <= i < j < |ts|
      ensures !EqualsIgnoreCase(ts[i].name, ts[j].name)
    {
      FingerprintsDiffer(ts[i].name, ts[j].name);
    }
  }

  /** The default home venues are distinct. */
  lemma DefaultHomeVenuesDistinct()
    ensures forall i, j :: 0 <= i < j < |DefaultTeams()| ==> DefaultTeams()[i].homeVenue != DefaultTeams()[j].homeVenue
  {
    var ts := DefaultTeams();
    DefaultVenuePrints();
    VenuePrintsApart();
    forall i, j | 0 <= i < j < |ts|
      ensures ts[i].homeVenue != ts[j].homeVenue
    {
      FingerprintsDiffer(ts[i].homeVenue, ts[j].homeVenue);
    }
  }

  /** The default roster is one the round-robin theorems apply to. */
  lemma DefaultRosterProper()
    ensures ProperRoster(DefaultTeams())
  {
    DefaultNamesDistinct();
    DistinctIgnoringCaseIsDistinct(DefaultTeams());
  }

  class TeamService {
    var teams: seq<Team>

    /** The roster invariant every operation keeps. */
    ghost predicate Valid()
      reads this
    {
      NamesDistinctIgnoringCase(teams)
    }

    /** A new service holds the ten default teams. */
    constructor ()
      ensures teams == DefaultTeams() && Valid()
    {
      teams := DefaultTeams();
      DefaultNamesDistinct();
    }

    /**
     * addTeam: refuses a null team, a blank name, or a name some roster team has ignoring
     * case; otherwise appends the team at the end.
     */
    method AddTeam(team: Option<Team>) returns (added: bool)
      modifies this
      ensures added <==> team.Some? && !IsBlank(team.value.name) && !HasTeamNamed(old(teams), team.value.name)
      ensures teams == if added then old(teams) + [team.value] else old(teams)
      ensures old(Valid()) ==> Valid()
    {
      if team.None? || IsBlank(team.value.name) {
        return false;
      }
      if FirstNamed(teams, team.value.name) < |teams| {
        return false;
      }
      teams := teams + [team.value];
      if old(Valid()) {
        AddKeepsDistinct(old(teams), team.value);
      }
      return true;
    }

    /**
     * removeTeam: refuses a null or blank name; otherwise removes every team with the name
     * ignoring case, keeping the others in order, and reports whether one was removed.
     */
    method RemoveTeam(teamName: Option<string>) returns (removed: bool)
      modifies this
      ensures Unusable(teamName) ==> !removed && teams == old(teams)
      ensures !Unusable(teamName) ==>
                && teams == Filter(old(teams), NotNamedIgnoringCase(teamName.value))
                && (removed <==> HasTeamNamed(old(teams), teamName.value))
      ensures old(Valid()) ==> Valid()
    {
      if teamName.None? || IsBlank(teamName.value) {
        return false;
      }
      var sizeBefore := |teams|;
      teams := Filter(teams, NotNamedIgnoringCase(teamName.value));
      removed := |teams| < sizeBefore;
      FilterDropsNamed(old(teams), teamName.value);
      if old(Valid()) {
        FilterKeepsDistinct(old(teams), NotNamedIgnoringCase(teamName.value));
      }
    }

    /** getTeamByName: empty for a null or blank name, else the first team with the name ignoring case. */
    function GetTeamByName(teamName: Option<string>): (r: Option<Team>)
      reads this
      ensures Unusable(teamName) ==> r == None
      ensures !Unusable(teamName) ==> (r.Some? <==> HasTeamNamed(teams, teamName.value))
      ensures r.Some? ==> exists k :: 0 <= k < |teams| && teams[k] == r.value &&
                            EqualsIgnoreCase(teams[k].name, teamName.value) &&
                            forall i :: 0 <= i < k ==> !EqualsIgnoreCase(teams[i].name, teamName.value)
    {
      if teamName.None? || IsBlank(teamName.value) then None
      else
        var k := FirstNamed(teams, teamName.value);
        if k < |teams| then Some(teams[k]) else None
    }

    /** teamExists: some team has the (usable) name, ignoring case. */
    function TeamExists(teamName: Option<string>): (b: bool)
      reads this
      ensures b <==> !Unusable(teamName) && HasTeamNamed(teams, teamName.value)
    {
      GetTeamByName(teamName).Some?
    }

    /** getAllTeams: a new list with the roster's teams; changing it leaves the roster alone. */
    method GetAllTeams() returns (list: TeamList)
      ensures fresh(list) && list.items == teams
    {
      list := new TeamList(teams);
    }

    /** getTeamsByCity: empty for a null or blank city, else the teams of that city ignoring case, in roster order. */
    function GetTeamsByCity(city: Option<string>): (r: seq<Team>)
      reads this
      ensures Unusable(city) ==> r == []
      ensures !Unusable(city) ==> forall t :: t in r <==> t in teams && EqualsIgnoreCase(t.city, city.value)
    {
      if city.None? || IsBlank(city.value) then [] else Filter(teams, InCityIgnoringCase(city.value))
    }

    /** getTotalTeams. */
    function GetTotalTeams(): (n: nat)
      reads this
      ensures n == |teams|
    {
      |teams|
    }

    /** clearTeams: the roster is emptied. */
    method ClearTeams()
      modifies this
      ensures teams == [] && Valid()
    {
      teams := [];
    }
  }

  /** A new service knows "Mumbai Indians", ignoring case. */
  lemma DefaultHasMumbaiIndians()
    ensures HasTeamNamed(DefaultTeams(), "MUMBAI INDIANS")
  {
    var ts := DefaultTeams();
    assert EqualsIgnoreCase(ts[0].name, "MUMBAI INDIANS");
  }

  /** Only the first default team plays in Mumbai. */
  lemma DefaultMumbaiOnlyFirst()
    ensures forall i :: 0 <= i < |DefaultTeams()| ==> (EqualsIgnoreCase(DefaultTeams()[i].city, "mumbai") <==> i == 0)
  {
    var ts := DefaultTeams();
    DefaultCityPrints();
    assert EqualsIgnoreCase(ts[0].city, "mumbai");
    DifferentIgnoringCase(ts[5].city, "mumbai", 1);
    forall i | 1 <= i < |ts|
      ensures !EqualsIgnoreCase(ts[i].city, "mumbai")
    {
      FingerprintsDiffer(ts[i].city, "mumbai");
    }
  }

  /** A new service lists exactly one team for the city "mumbai". */
  lemma DefaultOneTeamFromMumbai()
    ensures |Filter(DefaultTeams(), InCityIgnoringCase("mumbai"))| == 1
  {
    DefaultMumbaiOnlyFirst();
    FilterUnique(DefaultTeams(), InCityIgnoringCase("mumbai"), 0);
  }
}
