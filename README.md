# IPL round-robin scheduler, modelled in Dafny

This project models the scheduling core of a small IPL (Indian Premier League) season
scheduler written in Java. It covers five parts.

- **Teams, venues and matches.** Team and venue equality goes by name. A match records
  its two teams, venue, date, label ("Home", "Away", "Neutral") and number.
- **The schedule.** It is a season name and a list of matches. Queries select by team,
  date or venue, sort by date, look for matches on consecutive days and summarise the season.
- **The generator.** It builds a single round robin by the circle method. An odd roster
  is padded with a "BYE" placeholder, and one rotation follows each round. Each fixture
  gets a venue named after a home venue of one of its teams, a date two days after the
  previous match, and a label. The constrained variant then spreads out the matches of
  any date that holds more than a per-day cap.
- **The team service.** A roster of ten default teams whose names stay distinct ignoring
  case. It supports add, remove, lookup by name and lookup by city.
- **The scheduling service.** It owns the roster and the current schedule. It guards
  every operation on the schedule, and it reports fairness (home and away counts per
  team) and validity (match counts per team, no two matches on the same date).

The model proves several properties of this core:

- every pair of distinct teams meets exactly once;
- each team plays N - 1 matches, and there are N(N-1)/2 matches in all;
- the rotations restore the roster;
- the generated dates are two days apart;
- a generated schedule passes the service's own validation;
- the exact outcome of the per-day cap, for every int value of the cap.

Dates are day numbers. Java's `int` wrap-around is modelled where it changes the outcome:
the `size - cap` subtraction of `redistributeMatches` and `String.hashCode`.

Two behaviours of the code are worth stating outright:

- **The cap.** `generateConstrainedSchedule` takes any `int` as `maxMatchesPerDay` and
  does not check it:
  - A cap of 0 moves every generated match one day later.
  - A cap in [-2147483646, -1] ends in the list's index error. The service rethrows it
    with its prefix ("Index -1 out of bounds for length 1" on a generated schedule).
  - The two lowest ints wrap around and change nothing.
  - `GeneratedSchedules.ConstrainedOutcome` states all of this.
- **The roster.** The generator changes the caller's list in place. It appends the
  placeholder, rotates the list after every round and then removes the placeholder. The
  model therefore keeps the caller's list as a mutable object (`Teams.TeamList`). It
  proves that after generation the list holds exactly the original entries, less any
  named "BYE".
- **Fairness.** The test at `src/test/java/com/iplscheduler/SchedulingServiceTest.java:98-110`
  expects every generated team to have both home and away matches. Under the code, when
  home venues are distinct (the default roster's case), the earlier team of every pairing
  hosts. So the team at roster index j is at home N-1-j times, the first team never plays
  away and the last never at home (`SchedulingServices.GeneratedFairness`,
  `SchedulingServices.DefaultFairnessAtEnds`).

Paths in the table are relative to the root of the Java repository.

## Model

| member | source | states |
|---|---|---|
| Teams.SameTeamIsEquivalence | src/main/java/com/iplscheduler/model/Team.java:37-42 | Team equality is reflexive, symmetric and transitive, and depends on the name alone (city, captain and home venue are ignored) |
| Teams.EqualTeamsHashAlike | src/main/java/com/iplscheduler/model/Team.java:44-47 | Teams that are equal have equal hash codes, as the equals/hashCode contract requires |
| Venues.SameVenueIsEquivalence | src/main/java/com/iplscheduler/model/Venue.java:34-38 | Venue equality is an equivalence that depends on the name alone (city and capacity are ignored) |
| Venues.EqualVenuesHashAlike | src/main/java/com/iplscheduler/model/Venue.java:40-43 | Equal venues have equal hash codes |
| Matches.Opponent | src/main/java/com/iplscheduler/model/Match.java:51-58 | An opponent exists exactly when the team equals one side of the match; it is team2 for team1, team1 for a team equal only to team2, and null otherwise |
| Matches.WithDate | src/main/java/com/iplscheduler/model/Match.java:37 | setDate changes the date to the given day and leaves teams, venue, label and number as they were |
| Matches.OpponentIsTheOtherTeam | src/main/java/com/iplscheduler/model/Match.java:51-58 | In a match between differently named teams each side's opponent is the other side |
| Matches.HomeMatchIgnoresOrderAndLabel | src/main/java/com/iplscheduler/model/Match.java:44-46 | Whether a match is a home match for a team does not depend on which side the team is on or on the match's label |
| JavaText.WrapInt | src/main/java/com/iplscheduler/util/ScheduleGenerator.java:180 | The result of an int subtraction is the mathematical difference reduced into the 32-bit range, and equals it when it fits |
| JavaText.EqualsIgnoreCaseIsEquivalence | src/main/java/com/iplscheduler/service/TeamService.java:38-50 | Case-insensitive name comparison is an equivalence, so the roster's names-distinct rule is well defined |
| Schedules.Schedule.constructor | src/main/java/com/iplscheduler/model/Schedule.java:14-17 | A new schedule has the given season and no matches |
| Schedules.Schedule.AddMatch | src/main/java/com/iplscheduler/model/Schedule.java:26-28 | addMatch appends the match and keeps the season; each team's matches grow by this match exactly when it plays in it |
| Schedules.Schedule.TotalMatches | src/main/java/com/iplscheduler/model/Schedule.java:60-62 | The total is the number of matches held |
| Schedules.Schedule.MatchesForTeam | src/main/java/com/iplscheduler/model/Schedule.java:33-37 | A match is listed exactly when it is in the schedule and one of its teams equals the team |
| Schedules.Schedule.MatchesOnDate | src/main/java/com/iplscheduler/model/Schedule.java:42-46 | A match is listed exactly when it is in the schedule and falls on the date |
| Schedules.Schedule.MatchesAtVenue | src/main/java/com/iplscheduler/model/Schedule.java:51-55 | A match is listed exactly when it is in the schedule and its venue has the venue's name |
| Schedules.Schedule.MatchesSortedByDate | src/main/java/com/iplscheduler/model/Schedule.java:67-71 | The sorted copy is a permutation of the matches, is non-decreasing by date, and keeps each date's matches in insertion order |
| Schedules.SortByDate | src/main/java/com/iplscheduler/model/Schedule.java:67-71 | Sorting by date yields a permutation of the input that is non-decreasing by date |
| Schedules.SortByDateStable | src/main/java/com/iplscheduler/model/Schedule.java:67-71 | The sort is stable: on every date the sorted list holds that date's matches in their original order |
| Schedules.Schedule.HasConsecutiveMatches | src/main/java/com/iplscheduler/model/Schedule.java:76-90 | The answer is true exactly when two neighbours of the team's date-sorted matches are at most maxDays apart; a team with fewer than two matches gets false |
| Schedules.Schedule.Stats | src/main/java/com/iplscheduler/model/Schedule.java:95-107 | "No matches scheduled" exactly for an empty schedule; otherwise the season, the match count and a duration equal to the largest span between two match dates plus one day |
| RoundRobin.PaddedFacts | src/main/java/com/iplscheduler/util/ScheduleGenerator.java:63-67 | The working list of a proper roster is the roster followed, for an odd size, by the placeholder: even length, roster entries first, distinct names |
| RoundRobin.RotateNFullTurn | src/main/java/com/iplscheduler/util/ScheduleGenerator.java:98-103 | n - 1 rotations of an even-sized list give back the list they started from |
| RoundRobin.RoundRobinNoPairTwice | src/main/java/com/iplscheduler/util/ScheduleGenerator.java:59-93 | No unordered pair of teams is scheduled twice |
| RoundRobin.RoundRobinCoversEveryPair | src/main/java/com/iplscheduler/util/ScheduleGenerator.java:59-93 | Every pair of distinct roster teams meets in some fixture |
| RoundRobin.RoundRobinFixtureIsProper | src/main/java/com/iplscheduler/util/ScheduleGenerator.java:71-81 | Each fixture pits two different roster teams, with team1 and team2 as the roster holds them, and never involves the placeholder |
| RoundRobin.RoundRobinSize | src/main/java/com/iplscheduler/util/ScheduleGenerator.java:59-93 | A roster of N teams yields N(N-1)/2 fixtures |
| RoundRobin.RoundRobinTeamCount | src/main/java/com/iplscheduler/util/ScheduleGenerator.java:59-93 | Each roster team takes part in exactly N - 1 fixtures |
| RoundRobin.WorkingListTeamCount | src/main/java/com/iplscheduler/util/ScheduleGenerator.java:70-85 | Over the n - 1 rounds on the working list, each real entry plays N - 1 fixtures |
| RoundRobin.CountedRounds | src/main/java/com/iplscheduler/util/ScheduleGenerator.java:70-85 | A real entry plays in N - 1 of the n - 1 rounds: all of them, or all but the one where it meets the placeholder |
| RoundRobin.RosterRestored | src/main/java/com/iplscheduler/util/ScheduleGenerator.java:87-90 | After the last rotation, removing the placeholder-named entries leaves the roster less such entries |
| RoundRobin.ProperRosterKeptWhole | src/main/java/com/iplscheduler/util/ScheduleGenerator.java:87-90 | removeIf removes nothing from a roster without a team named "BYE" |
| RoundRobin.FourTeams | src/main/java/com/iplscheduler/util/ScheduleGenerator.java:59-93 | Four teams A, B, C, D give the rounds (A,D),(B,C) / (A,C),(D,B) / (A,B),(C,D), in this order |
| RoundRobin.RoundOfFour | src/main/java/com/iplscheduler/util/ScheduleGenerator.java:71-81 | A round on four entries is slot 0 followed by slot 1 |
| RoundRobin.FiveTeams | src/main/java/com/iplscheduler/util/ScheduleGenerator.java:63-85 | Five teams are padded to six entries and play five rounds of two real fixtures each |
| ScheduleGenerator.RotateTeams | src/main/java/com/iplscheduler/util/ScheduleGenerator.java:98-103 | The caller's list becomes its rotation: the last entry moves to index 1, and lists of two or fewer stay as they are |
| ScheduleGenerator.GenerateRoundRobinFixtures | src/main/java/com/iplscheduler/util/ScheduleGenerator.java:59-93 | The fixtures are the rounds of the circle method on the padded list, and the caller's list ends up holding its original entries less those named "BYE" |
| ScheduleGenerator.PlayRounds | src/main/java/com/iplscheduler/util/ScheduleGenerator.java:70-85 | The round loop plays n - 1 rounds, emitting each round's fixtures and leaving the list rotated n - 1 times |
| ScheduleGenerator.PairRound | src/main/java/com/iplscheduler/util/ScheduleGenerator.java:71-81 | The slot loop appends one round's fixtures, skipping the slot that holds the placeholder |
| ScheduleGenerator.FullTurnRestores | src/main/java/com/iplscheduler/util/ScheduleGenerator.java:85-90 | The list left after the last round, less placeholder-named entries, is the original roster less such entries |
| ScheduleGenerator.CreateVenuesFromTeams | src/main/java/com/iplscheduler/util/ScheduleGenerator.java:108-121 | The loop makes one venue per new home-venue name, in roster order, named after it and in its team's city |
| ScheduleGenerator.VenueNamesDistinct | src/main/java/com/iplscheduler/util/ScheduleGenerator.java:108-121 | No two of the venues made share a name |
| ScheduleGenerator.HomeVenuesCovered | src/main/java/com/iplscheduler/util/ScheduleGenerator.java:108-121 | Every team's home venue is the name of some venue made |
| ScheduleGenerator.VenueOwner | src/main/java/com/iplscheduler/util/ScheduleGenerator.java:108-121 | Each venue made belongs to the first team with that home venue: it has that team's home venue and city |
| ScheduleGenerator.FirstHost | src/main/java/com/iplscheduler/util/ScheduleGenerator.java:126-137 | The search stops at the first venue named after either team's home venue, or runs off the end when none is |
| ScheduleGenerator.FindBestVenue | src/main/java/com/iplscheduler/util/ScheduleGenerator.java:126-137 | The venue chosen is in the list; it can host the fixture exactly when some listed venue can, and then it is the first such; otherwise it is the first venue |
| ScheduleGenerator.DetermineMatchType | src/main/java/com/iplscheduler/util/ScheduleGenerator.java:142-150 | The label is "Home" exactly at team1's home venue, "Away" exactly at team2's (and not team1's), and "Neutral" exactly at a venue of neither |
| ScheduleGenerator.DatedMatches | src/main/java/com/iplscheduler/util/ScheduleGenerator.java:27-51 | The date loop makes one match per fixture |
| ScheduleGenerator.DatedMatchAt | src/main/java/com/iplscheduler/util/ScheduleGenerator.java:27-51 | Match k plays fixture k at its chosen venue with its label, on day start + 2k, as match number k + 1 |
| ScheduleGenerator.GenerateSchedule | src/main/java/com/iplscheduler/util/ScheduleGenerator.java:15-54 | A null list or one of fewer than two teams fails with the invalid-argument error and stays unchanged; otherwise a new schedule of the season holds the dated matches, and the caller's list loses its "BYE" entries |
| ScheduleGenerator.GenerateConstrainedSchedule | src/main/java/com/iplscheduler/util/ScheduleGenerator.java:155-173 | The same guard; then it succeeds exactly when no date group fails, a failure carries the index error of a failing group, and a success holds every generated match as the cap redistributes it |
| ScheduleGenerator.GroupByDate | src/main/java/com/iplscheduler/util/ScheduleGenerator.java:160-163 | The grouping loop maps each date to the positions of its matches in list order, and lists each date once, in order of first appearance |
| ScheduleGenerator.LimitMatchesPerDay | src/main/java/com/iplscheduler/util/ScheduleGenerator.java:158-172 | The post-pass keeps the season and the match count; it throws exactly when some date group fails, and otherwise leaves every match as the cap redistributes it |
| ScheduleGenerator.LimitDay | src/main/java/com/iplscheduler/util/ScheduleGenerator.java:166-170 | Handling one date group throws exactly when that group fails, with its size in the error, and otherwise redistributes that group and no other |
| ScheduleGenerator.RedistributeMatches | src/main/java/com/iplscheduler/util/ScheduleGenerator.java:178-188 | The last size - cap members (int subtraction) move to the following days, the last member first; the rest stay; the index error occurs exactly when size - cap exceeds the size |
| Redistribution.RedistributionKeepsAllButDates | src/main/java/com/iplscheduler/util/ScheduleGenerator.java:178-188 | Redistribution changes only dates: teams, venue, label and number stay, and a match moves at most the group size days later, never earlier |
| Redistribution.OversizedGroupSpreads | src/main/java/com/iplscheduler/util/ScheduleGenerator.java:178-188 | In an oversized group that does not fail, exactly the last size - cap members move, each to a distinct day after the group's date |
| Redistribution.SmallGroupStays | src/main/java/com/iplscheduler/util/ScheduleGenerator.java:166-170 | A group within the cap is left alone |
| Redistribution.GroupsOfDomain | src/main/java/com/iplscheduler/util/ScheduleGenerator.java:160-163 | A date is a key of the date map exactly when some match so far has that date |
| Redistribution.GroupsOfGroups | src/main/java/com/iplscheduler/util/ScheduleGenerator.java:160-163 | The date map sends each date to the positions of its matches, in list order |
| Redistribution.DatesOfDistinct | src/main/java/com/iplscheduler/util/ScheduleGenerator.java:160-163 | Each date is listed once |
| Redistribution.PartlyRedistributedDone | src/main/java/com/iplscheduler/util/ScheduleGenerator.java:166-170 | Once every date group has been handled without an error, no group fails and every match is as the cap redistributes it |
| GeneratedSchedules.GeneratedMatchAt | src/main/java/com/iplscheduler/util/ScheduleGenerator.java:15-54 | Generated match k pits two different roster teams at a venue named after one of their home venues, on day start + 2k, as number k + 1, and is never labelled "Neutral" |
| GeneratedSchedules.GeneratedSize | src/main/java/com/iplscheduler/util/ScheduleGenerator.java:15-54 | A generated schedule of N teams has N(N-1)/2 matches |
| GeneratedSchedules.GeneratedDatesSpaced | src/main/java/com/iplscheduler/util/ScheduleGenerator.java:27-51 | Generated dates start at the start date and advance two days per match |
| GeneratedSchedules.SpacedDatesDistinct | src/main/java/com/iplscheduler/util/ScheduleGenerator.java:27-51 | Dates spaced that way are pairwise different |
| GeneratedSchedules.GeneratedTeamCount | src/main/java/com/iplscheduler/util/ScheduleGenerator.java:15-54 | Each roster team plays N - 1 generated matches |
| GeneratedSchedules.GeneratedPairOnce | src/main/java/com/iplscheduler/util/ScheduleGenerator.java:15-54 | Two different roster teams meet in exactly one generated match |
| GeneratedSchedules.GeneratedHost | src/main/java/com/iplscheduler/util/ScheduleGenerator.java:126-150 | With distinct home venues, the earlier roster team of a match hosts it, labelled "Home" when it is team1 and "Away" when it is team2 |
| GeneratedSchedules.GeneratedHomeCount | src/main/java/com/iplscheduler/util/ScheduleGenerator.java:126-137 | With distinct home venues, the team at roster index j is at home in N-1-j matches |
| GeneratedSchedules.GeneratedNoConsecutive | src/main/java/com/iplscheduler/model/Schedule.java:76-90 | In a generated schedule no team has two matches a day or less apart |
| GeneratedSchedules.GeneratedSortedDatesDistinct | src/main/java/com/iplscheduler/util/ScheduleGenerator.java:27-51 | In the date-sorted generated list no two neighbours share a date |
| GeneratedSchedules.SingleFails | src/main/java/com/iplscheduler/util/ScheduleGenerator.java:180-187 | A one-match group fails exactly when the cap lies in [INT_MIN + 2, -1] |
| GeneratedSchedules.SingletonRedistributed | src/main/java/com/iplscheduler/util/ScheduleGenerator.java:178-188 | On distinct dates, a cap of 0 moves each match one day later, and any other non-failing cap leaves it alone |
| GeneratedSchedules.SingletonGroupsFail | src/main/java/com/iplscheduler/util/ScheduleGenerator.java:155-173 | On distinct dates the post-pass fails exactly for a non-empty list and a cap in [INT_MIN + 2, -1] |
| GeneratedSchedules.ConstrainedOutcome | src/main/java/com/iplscheduler/util/ScheduleGenerator.java:155-173 | For a proper roster the constrained generator fails exactly for caps in [INT_MIN + 2, -1]; otherwise a cap of 0 puts each match one day later and every other cap changes nothing |
| TeamServices.DefaultTeams | src/main/java/com/iplscheduler/service/TeamService.java:22-33 | The default roster has ten teams |
| TeamServices.DefaultNamesDistinct | src/main/java/com/iplscheduler/service/TeamService.java:22-33 | The default team names are distinct ignoring case, so the roster starts out valid |
| TeamServices.DefaultHomeVenuesDistinct | src/main/java/com/iplscheduler/service/TeamService.java:22-33 | No two default teams share a home venue |
| TeamServices.DefaultRosterProper | src/main/java/com/iplscheduler/service/TeamService.java:22-33 | The default roster has at least two teams, distinct names and no "BYE" |
| TeamServices.DefaultHasMumbaiIndians | src/main/java/com/iplscheduler/service/TeamService.java:22-33 | A new roster has a team named "MUMBAI INDIANS" ignoring case |
| TeamServices.DefaultMumbaiOnlyFirst | src/main/java/com/iplscheduler/service/TeamService.java:22-33 | Only the first default team's city is "mumbai" ignoring case |
| TeamServices.DefaultOneTeamFromMumbai | src/main/java/com/iplscheduler/service/TeamService.java:86-94 | A new roster lists exactly one team for the city "mumbai" |
| TeamServices.TeamService.constructor | src/main/java/com/iplscheduler/service/TeamService.java:14-17 | A new service holds the default roster, which satisfies the roster invariant |
| TeamServices.TeamService.AddTeam | src/main/java/com/iplscheduler/service/TeamService.java:38-50 | The team is appended exactly when it is non-null, its name is not blank, and no roster name equals it ignoring case; otherwise nothing changes; names stay distinct |
| TeamServices.AddKeepsDistinct | src/main/java/com/iplscheduler/service/TeamService.java:38-50 | Appending a team with a new name keeps the names distinct ignoring case |
| TeamServices.AddedIsPresent | src/main/java/com/iplscheduler/service/TeamService.java:38-50 | After an append the roster has a team with the new name |
| TeamServices.TeamService.RemoveTeam | src/main/java/com/iplscheduler/service/TeamService.java:55-61 | A null or blank name changes nothing; otherwise every team with the name ignoring case is removed, the rest keep their order, and the result says whether one was there |
| TeamServices.FilterDropsNamed | src/main/java/com/iplscheduler/service/TeamService.java:55-61 | removeIf shrinks the roster exactly when some team has the name |
| TeamServices.RemovedIsGone | src/main/java/com/iplscheduler/service/TeamService.java:55-61 | After a removal no team has the name |
| TeamServices.FilterKeepsDistinct | src/main/java/com/iplscheduler/service/TeamService.java:55-61 | Removing teams keeps the names distinct |
| TeamServices.DistinctIgnoringCaseIsDistinct | src/main/java/com/iplscheduler/service/TeamService.java:38-50 | Names distinct ignoring case are distinct, so the service's roster meets the generator's distinct-names condition |
| TeamServices.FirstNamed | src/main/java/com/iplscheduler/service/TeamService.java:66-74 | The position found is that of the first team with the name ignoring case, or the end of the roster when there is none |
| TeamServices.TeamService.GetTeamByName | src/main/java/com/iplscheduler/service/TeamService.java:66-74 | Empty for a null or blank name; otherwise present exactly when some team has the name, and then it is the first such team |
| TeamServices.TeamService.TeamExists | src/main/java/com/iplscheduler/service/TeamService.java:106-108 | True exactly when the name is usable and some team has it ignoring case |
| TeamServices.TeamService.GetAllTeams | src/main/java/com/iplscheduler/service/TeamService.java:79-81 | The result is a new list holding the roster's teams, so changing it leaves the roster alone |
| TeamServices.TeamService.GetTeamsByCity | src/main/java/com/iplscheduler/service/TeamService.java:86-94 | Empty for a null or blank city; otherwise a team is listed exactly when it is in the roster and its city equals the city ignoring case |
| TeamServices.TeamService.GetTotalTeams | src/main/java/com/iplscheduler/service/TeamService.java:99-101 | The count is the roster size |
| TeamServices.TeamService.ClearTeams | src/main/java/com/iplscheduler/service/TeamService.java:130-132 | The roster becomes empty and stays valid |
| SchedulingServices.SchedulingService.constructor | src/main/java/com/iplscheduler/service/SchedulingService.java:18-22 | A new service has a fresh team service with the default roster and no current schedule |
| SchedulingServices.SchedulingService.GenerateNewSchedule | src/main/java/com/iplscheduler/service/SchedulingService.java:27-40 | With fewer than two teams it fails with the illegal-state error and keeps the current schedule; otherwise the generated schedule of the roster becomes current; the roster is never changed |
| SchedulingServices.SchedulingService.GenerateConstrainedSchedule | src/main/java/com/iplscheduler/service/SchedulingService.java:45-58 | The same guard; it succeeds exactly when no date group fails, and then the redistributed schedule becomes current; a failure keeps the current schedule and is the runtime error with the service's prefix whose cause is the index error at -1 for the size of some failing date group |
| SchedulingServices.SchedulingService.SaveSchedule | src/main/java/com/iplscheduler/service/SchedulingService.java:63-69 | Refused with the illegal-state error exactly when there is no schedule; otherwise the writer's result |
| SchedulingServices.SchedulingService.ExportScheduleToText | src/main/java/com/iplscheduler/service/SchedulingService.java:82-88 | Refused with the illegal-state error exactly when there is no schedule; otherwise the writer's result |
| SchedulingServices.SchedulingService.LoadSchedule | src/main/java/com/iplscheduler/service/SchedulingService.java:74-77 | Whatever the loader returns, null included, becomes the current schedule and is returned |
| SchedulingServices.SchedulingService.ClearSchedule | src/main/java/com/iplscheduler/service/SchedulingService.java:233-235 | Afterwards there is no current schedule |
| SchedulingServices.SchedulingService.ScheduleStatistics | src/main/java/com/iplscheduler/service/SchedulingService.java:100-106 | Absent exactly without a schedule; otherwise the schedule's statistics, which say "No matches scheduled" exactly for an empty one |
| SchedulingServices.SchedulingService.MatchesForTeam | src/main/java/com/iplscheduler/service/SchedulingService.java:111-122 | Illegal-state error without a schedule; invalid-argument error naming the team when no roster team has the name; otherwise the schedule's matches of the first roster team with that name |
| SchedulingServices.SchedulingService.MatchesOnDate | src/main/java/com/iplscheduler/service/SchedulingService.java:127-138 | Illegal-state error without a schedule; invalid-argument error for text that is not a date; otherwise exactly the schedule's matches on that date |
| SchedulingServices.SchedulingService.CheckScheduleFairness | src/main/java/com/iplscheduler/service/SchedulingService.java:143-171 | Absent exactly without a schedule; otherwise one entry per roster team in roster order, each the team's fairness figures |
| SchedulingServices.TeamFairness | src/main/java/com/iplscheduler/service/SchedulingService.java:152-166 | One team's entry: its matches, its home matches, the rest, and whether two of its matches are a day or less apart |
| SchedulingServices.FairnessCountsHomeGames | src/main/java/com/iplscheduler/service/SchedulingService.java:152-166 | The home count is the number of the team's matches at its home venue, and the away count lies between 0 and the total |
| SchedulingServices.GeneratedFairness | src/main/java/com/iplscheduler/service/SchedulingService.java:143-171 | For a generated schedule with distinct home venues, team j has N - 1 matches, N-1-j at home, j away, and none on consecutive days |
| SchedulingServices.GeneratedFirstNeverAway | src/main/java/com/iplscheduler/service/SchedulingService.java:143-171 | The first roster team never plays away |
| SchedulingServices.GeneratedLastNeverHome | src/main/java/com/iplscheduler/service/SchedulingService.java:143-171 | The last roster team never plays at home |
| SchedulingServices.DefaultFairnessAtEnds | src/main/java/com/iplscheduler/service/SchedulingService.java:143-171 | On the default roster, Mumbai Indians play 9 home matches and 0 away, and Lucknow Super Giants 0 home and 9 away |
| SchedulingServices.SchedulingService.ValidateSchedule | src/main/java/com/iplscheduler/service/SchedulingService.java:176-214 | Absent exactly without a schedule; otherwise the issues of both checks, in order |
| SchedulingServices.MatchCountIssues | src/main/java/com/iplscheduler/service/SchedulingService.java:184-193 | The first loop yields one issue per roster team whose match count is not the expected one, in roster order |
| SchedulingServices.CountIssues | src/main/java/com/iplscheduler/service/SchedulingService.java:184-193 | The first check yields at most one issue per team |
| SchedulingServices.CountIssuesNone | src/main/java/com/iplscheduler/service/SchedulingService.java:184-193 | The first check reports nothing exactly when every team plays the expected number of matches |
| SchedulingServices.CountIssuesStep | src/main/java/com/iplscheduler/service/SchedulingService.java:184-193 | One more team adds that team's issue, if any, at the end |
| SchedulingServices.DateConflictIssues | src/main/java/com/iplscheduler/service/SchedulingService.java:196-202 | The second loop yields one issue per pair of sorted neighbours that share a date |
| SchedulingServices.DateIssuesUpTo | src/main/java/com/iplscheduler/service/SchedulingService.java:196-202 | The second check yields at most one issue per neighbouring pair visited |
| SchedulingServices.DateIssuesNone | src/main/java/com/iplscheduler/service/SchedulingService.java:196-202 | The second check reports nothing exactly when no two visited neighbours share a date |
| SchedulingServices.DateIssuesAreDates | src/main/java/com/iplscheduler/service/SchedulingService.java:196-202 | The second check reports only same-date issues |
| SchedulingServices.SameDayIssues | src/main/java/com/iplscheduler/service/SchedulingService.java:196-202 | k matches that all fall on one date give k - 1 date issues, each naming that date |
| SchedulingServices.ValidationIssues | src/main/java/com/iplscheduler/service/SchedulingService.java:176-214 | Validation passes exactly when every team plays N - 1 matches and no two date-sorted neighbours share a date |
| SchedulingServices.GeneratedEveryTeamPlays | src/main/java/com/iplscheduler/service/SchedulingService.java:184-193 | In a generated schedule every roster team plays N - 1 matches |
| SchedulingServices.GeneratedNeighboursApart | src/main/java/com/iplscheduler/service/SchedulingService.java:196-202 | In a generated schedule sorted by date no two neighbours share a date |
| SchedulingServices.GeneratedPassesValidation | src/main/java/com/iplscheduler/service/SchedulingService.java:176-214 | A schedule generated from a proper roster passes validation against that roster with no issues |
| SchedulingServices.DefaultScheduleValid | src/main/java/com/iplscheduler/service/SchedulingService.java:176-214 | A new service's generated schedule passes validation with no issues |

## Left out

- Main.java and FileService.java are not part of this model. Console interaction,
  serialisation and file I/O are out of scope. What file operations report enters as
  parameters: `written` for save and export, and the loaded schedule for load.
- Text rendering is not modelled: every `toString`, `getTeamsAsString`, and the formatted
  text of the statistics, fairness and validation reports. The reports are structured
  values (`ScheduleStats`, `FairnessEntry`, `Issue`), and only their contents are modelled.
- `getTeamService`, `getFileService` and `getCurrentSchedule` are plain accessors. The
  model reads the fields `teamService` and `currentSchedule` directly.
- `LocalDate` is an integer day number, so `plusDays` is addition and `DAYS.between` is
  subtraction. Calendar arithmetic has no bearing on any property here. `LocalDate.now()`
  is outside the model.
- ISO date parsing in `getMatchesOnDate` enters as a parameter (`None` when the text is
  not a date). The parser itself is not modelled.
- Null is modelled only where the code tests for it: the team list passed to the
  generator, and the arguments of the team service. Null fields inside a `Team`, `Venue`
  or `Match`, and the resulting `NullPointerException`s, are not modelled.
- `equalsIgnoreCase` folds ASCII letters only. Unicode case folding is not modelled.
- `String.hashCode` is modelled as a 32-bit value. Only the equals/hashCode agreement is
  stated about it.
- Java's `HashMap` iteration order over the date groups is not specified. The model visits
  dates in order of first appearance. Without an error the outcome does not depend on that
  order, because the groups are disjoint.
- ScheduleGenerator.LimitMatchesPerDay: when several date groups would fail, the contract
  says only that the error carries the size of some failing group. Which group is hit
  first depends on the unspecified `HashMap` order.
- ScheduleGenerator.GenerateConstrainedSchedule: requires the cap to be a 32-bit int, as
  Java's parameter type guarantees. The same holds for
  SchedulingServices.SchedulingService.GenerateConstrainedSchedule.
- The rethrowing `catch` of `generateNewSchedule` is dead code: the generator cannot fail
  once the service has checked for two or more teams. That method's contract records only
  the success path.
- The setters of `Team`, `Venue` and `Match` other than `Match.setDate` are not modelled.
  None of the modelled code calls them, so these records are values.
- Concurrency is out of scope: none of the classes is shared between threads.
- The round-robin theorems (no pair twice, every pair met, N - 1 fixtures per team,
  N(N-1)/2 in all) are proved for rosters with at least two teams, distinct names and no
  team named "BYE". The team service guarantees distinct names. For other lists the
  model still computes exactly what the code does, but the theorems are not claimed.
- Several loops of the source are separate methods: `PairRound`, `PlayRounds`,
  `GroupByDate`, `LimitDay`, `MatchCountIssues`, `DateConflictIssues` and `TeamFairness`.
  This splits the proof. Each mirrors one loop or loop body of the cited Java method.
